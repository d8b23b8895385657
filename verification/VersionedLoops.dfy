/**
 * The row loops of crates/idxdb-store/src/js/accounts.js, over the flat latest and historical tables
 * of one component, proved against the functions of VersionedRows.
 */
module VersionedLoops {
  import opened Common
  import opened VersionedRows

  /** Read the old value, archive it, write the new one: the loops of a sparse delta, on any list of changes. */
  method UpdateRows<A(==, !new), K(==, !new), T>(latest: map<(A, K), Cell<T>>, history: map<(A, (nat, K)), Archive<T>>,
                                                 a: A, n: nat, changes: seq<Row<K, T>>, emptyRemoves: bool)
    returns (latest': map<(A, K), Cell<T>>, history': map<(A, (nat, K)), Archive<T>>)
    ensures latest' == WithSlice(latest, a, Patched(Slice(latest, a), DeltaOf(changes, emptyRemoves)))
    ensures history' == WithSlice(history, a, ListArchived(Slice(history, a), n, Slice(latest, a), changes,
                                                           emptyRemoves))
  {
    hide DeltaOf, Slice, WithSlice, Patched, ListArchived;
    latest', history' := latest, history;
    ghost var s, h := Slice(latest, a), Slice(history, a);
    ghost var d: map<K, Update<T>> := map[];
    assert d == DeltaOf(changes[..0], emptyRemoves) by { NoDelta<K, T>(emptyRemoves); }
    NoChangeYet(history, a, n, s, changes, emptyRemoves);
    for i := 0 to |changes|
      invariant d == DeltaOf(changes[..i], emptyRemoves)
      invariant forall b, k ::
                  Get(latest', (b, k)) == if b == a && k in d then UpdatedCell(d[k]) else Get(latest, (b, k))
      invariant history' == WithSlice(history, a, ListArchived(h, n, s, changes[..i], emptyRemoves))
    {
      var c := changes[i];
      var oldRow := Get(latest', (a, c.key));
      assert oldRow == Get(Patched(s, d), c.key);
      ListArchivedNext(h, n, s, changes, emptyRemoves, i);
      SlicePut(history, a, ListArchived(h, n, s, changes[..i], emptyRemoves), (n, c.key),
               Archive(OldValue(oldRow), c.tag));
      history' := history'[(a, (n, c.key)) := Archive(OldValue(oldRow), c.tag)];
      if emptyRemoves && c.value == "" {
        latest' := latest' - {(a, c.key)};
      } else {
        latest' := latest'[(a, c.key) := Cell(c.value, c.tag)];
      }
      DeltaOfNext(changes, emptyRemoves, i);
      d := d[c.key := Update(if emptyRemoves && c.value == "" then None else Some(c.value), c.tag)];
    }
    assert changes[..|changes|] == changes;
    PatchedTable(latest, latest', a, d);
  }

  lemma NoChangeYet<A(!new), K(!new), T>(history: map<(A, (nat, K)), Archive<T>>, a: A, n: nat, s: Current<K, T>,
                                         changes: seq<Row<K, T>>, emptyRemoves: bool)
    ensures WithSlice(history, a, ListArchived(Slice(history, a), n, s, changes[..0], emptyRemoves)) == history
  {
    PairExtensional(WithSlice(history, a, Slice(history, a)), history);
  }

  lemma ListArchivedNext<K(!new), T>(h: Past<K, T>, n: nat, s: Current<K, T>, changes: seq<Row<K, T>>,
                                     emptyRemoves: bool, i: nat)
    requires i < |changes|
    ensures ListArchived(h, n, s, changes[..i + 1], emptyRemoves) ==
            ListArchived(h, n, s, changes[..i], emptyRemoves)
              [(n, changes[i].key) := Archive(OldValue(Get(Patched(s, DeltaOf(changes[..i], emptyRemoves)),
                                                           changes[i].key)),
                                              changes[i].tag)]
  {
    assert changes[..i + 1][..i] == changes[..i];
  }

  /** Putting a row of an owner is putting it among the owner's rows. */
  lemma SlicePut<A(!new), K(!new), V>(m: map<(A, K), V>, a: A, s: map<K, V>, k: K, v: V)
    ensures WithSlice(m, a, s)[(a, k) := v] == WithSlice(m, a, s[k := v])
  {
    hide WithSlice;
    PairExtensional(WithSlice(m, a, s)[(a, k) := v], WithSlice(m, a, s[k := v]));
  }

  lemma NoDelta<K(!new), T>(emptyRemoves: bool)
    ensures DeltaOf<K, T>([], emptyRemoves) == map[]
  {
  }

  lemma DeltaOfNext<K(!new), T>(changes: seq<Row<K, T>>, emptyRemoves: bool, i: nat)
    requires i < |changes|
    ensures var c := changes[i];
            DeltaOf(changes[..i + 1], emptyRemoves) ==
            DeltaOf(changes[..i], emptyRemoves)
              [c.key := Update(if emptyRemoves && c.value == "" then None else Some(c.value), c.tag)]
  {
    assert changes[..i + 1][..i] == changes[..i];
  }

  lemma PatchedTable<A(!new), K(!new), T>(latest: map<(A, K), Cell<T>>, latest': map<(A, K), Cell<T>>, a: A,
                                          d: map<K, Update<T>>)
    requires forall b, k :: Get(latest', (b, k)) == if b == a && k in d then UpdatedCell(d[k]) else Get(latest, (b, k))
    ensures latest' == WithSlice(latest, a, Patched(Slice(latest, a), d))
  {
    PairExtensional(latest', WithSlice(latest, a, Patched(Slice(latest, a), d)));
  }

  /** Tables with the same lookups by owner and key are the same. */
  lemma PairExtensional<A(!new), K(!new), V>(m: map<(A, K), V>, m': map<(A, K), V>)
    requires forall b, k :: Get(m, (b, k)) == Get(m', (b, k))
    ensures m == m'
  {
    forall p: (A, K) ensures Get(m, p) == Get(m', p) {
      var (b, k) := p;
      assert Get(m, (b, k)) == Get(m', (b, k));
    }
    GetExtensional(m, m');
  }

  /** Archive every old row, mark the keys that are new, replace the latest rows: the loops of a full state. */
  method ArchiveAndReplace<A(==, !new), K(==, !new), T>(latest: map<(A, K), Cell<T>>,
                                                        history: map<(A, (nat, K)), Archive<T>>,
                                                    a: A, n: nat, rows: seq<Row<K, T>>)
    returns (latest': map<(A, K), Cell<T>>, history': map<(A, (nat, K)), Archive<T>>)
    ensures latest' == WithSlice(latest, a, ContentsOf(rows))
    ensures history' == WithSlice(history, a, FullArchived(Slice(history, a), n, Slice(latest, a), ContentsOf(rows)))
  {
    hide ContentsOf, Slice, WithSlice, FullArchived;
    var oldRows := set p | p in latest && p.0 == a;
    history' := ArchiveOld(latest, history, a, n, oldRows);
    ghost var s: Current<K, T> := map[];
    assert s == ContentsOf(rows[..0]) by { NoContentsYet<K, T>(); }
    for i := 0 to |rows|
      invariant s == ContentsOf(rows[..i])
      invariant forall b, q :: Get(history', (b, q)) ==
                  if b == a && q.0 == n && Replaced(Get(latest, (a, q.1)), Get(s, q.1)).Some?
                  then Replaced(Get(latest, (a, q.1)), Get(s, q.1)) else Get(history, (b, q))
    {
      var r := rows[i];
      if (a, r.key) !in oldRows {
        history' := history'[(a, (n, r.key)) := Archive(None, r.tag)];
      }
      ContentsOfNext(rows, i);
      s := s[r.key := Cell(r.value, r.tag)];
    }
    assert rows[..|rows|] == rows;
    latest' := map p | p in latest && p.0 != a :: latest[p];
    latest' := BulkPut(latest', a, rows);
    PairExtensional(latest', WithSlice(latest, a, s));
    FullTable(latest, history, history', a, n, s);
  }

  lemma NoContentsYet<K(!new), T>()
    ensures ContentsOf<K, T>([]) == map[]
  {
  }

  lemma ContentsOfNext<K(!new), T>(rows: seq<Row<K, T>>, i: nat)
    requires i < |rows|
    ensures ContentsOf(rows[..i + 1]) == ContentsOf(rows[..i])[rows[i].key := Cell(rows[i].value, rows[i].tag)]
  {
    assert rows[..i + 1][..i] == rows[..i];
  }

  /** Archive every listed old row, in whatever order the query lists them. */
  method ArchiveOld<A(==, !new), K(==, !new), T>(latest: map<(A, K), Cell<T>>, history: map<(A, (nat, K)), Archive<T>>,
                                             a: A, n: nat, oldRows: set<(A, K)>)
    returns (history': map<(A, (nat, K)), Archive<T>>)
    requires oldRows == set p | p in latest && p.0 == a
    ensures forall b, q :: Get(history', (b, q)) ==
              if b == a && q.0 == n && (a, q.1) in latest
              then Some(Archive(Some(latest[(a, q.1)].value), latest[(a, q.1)].tag)) else Get(history, (b, q))
  {
    history' := history;
    var todo := oldRows;
    while todo != {}
      invariant todo <= oldRows
      invariant forall b, q :: Get(history', (b, q)) ==
                  if b == a && q.0 == n && (a, q.1) in oldRows - todo
                  then Some(Archive(Some(latest[(a, q.1)].value), latest[(a, q.1)].tag)) else Get(history, (b, q))
    {
      var p :| p in todo;
      assert p == (a, p.1);
      history' := history'[(a, (n, p.1)) := Archive(Some(latest[p].value), latest[p].tag)];
      todo := todo - {p};
    }
  }

  lemma FullTable<A(!new), K(!new), T>(latest: map<(A, K), Cell<T>>, history: map<(A, (nat, K)), Archive<T>>,
                                       history': map<(A, (nat, K)), Archive<T>>, a: A, n: nat, s: Current<K, T>)
    requires forall b, q :: Get(history', (b, q)) ==
               if b == a && q.0 == n && Replaced(Get(latest, (a, q.1)), Get(s, q.1)).Some?
               then Replaced(Get(latest, (a, q.1)), Get(s, q.1)) else Get(history, (b, q))
    ensures history' == WithSlice(history, a, FullArchived(Slice(history, a), n, Slice(latest, a), s))
  {
    var rows := FullArchived(Slice(history, a), n, Slice(latest, a), s);
    forall b, q ensures Get(history', (b, q)) == Get(WithSlice(history, a, rows), (b, q)) {
      assert Get(rows, (q.0, q.1)) == Get(rows, q);
    }
    PairExtensional(history', WithSlice(history, a, rows));
  }

  /** Put rows one by one; a later row of the same key wins. */
  method BulkPut<A(==, !new), K(==, !new), T>(latest: map<(A, K), Cell<T>>, a: A, rows: seq<Row<K, T>>)
    returns (latest': map<(A, K), Cell<T>>)
    ensures forall b, k ::
              Get(latest', (b, k))
              == if b == a && k in ContentsOf(rows) then Get(ContentsOf(rows), k) else Get(latest, (b, k))
  {
    latest' := latest;
    for i := 0 to |rows|
      invariant forall b, k :: Get(latest', (b, k)) ==
                  if b == a && k in ContentsOf(rows[..i]) then Get(ContentsOf(rows[..i]), k) else Get(latest, (b, k))
    {
      latest' := latest'[(a, rows[i].key) := Cell(rows[i].value, rows[i].tag)];
      assert rows[..i + 1][..i] == rows[..i];
    }
    assert rows[..|rows|] == rows;
  }

  /** Put back the rows archived at one nonce, in whatever order the query lists them. */
  method RestoreRows<A(==, !new), K(==, !new), T>(latest: map<(A, K), Cell<T>>,
                                                  history: map<(A, (nat, K)), Archive<T>>, a: A, n: nat)
    returns (latest': map<(A, K), Cell<T>>)
    ensures latest' == WithSlice(latest, a, Restored(Slice(latest, a), Slice(history, a), n))
  {
    latest' := latest;
    var rows := set p | p in history && p.0 == a && p.1.0 == n;
    var todo := rows;
    while todo != {}
      invariant todo <= rows
      invariant forall b, k :: Get(latest', (b, k)) ==
                  if b == a && (a, (n, k)) in rows - todo then RestoredCell(history[(a, (n, k))])
                      else Get(latest, (b, k))
    {
      var p :| p in todo;
      assert p == (a, (n, p.1.1));
      var row := history[p];
      if row.was.Some? {
        latest' := latest'[(a, p.1.1) := Cell(row.was.value, row.tag)];
      } else {
        latest' := latest' - {(a, p.1.1)};
      }
      todo := todo - {p};
    }
    ghost var back := Restored(Slice(latest, a), Slice(history, a), n);
    forall b, k ensures Get(latest', (b, k)) == Get(WithSlice(latest, a, back), (b, k)) {
      assert Get(Slice(history, a), (n, k)) == Get(history, (a, (n, k)));
    }
    PairExtensional(latest', WithSlice(latest, a, back));
  }

  /** Delete the historical rows of one account at one nonce; returns how many there were. */
  method DeleteAt<A(==, !new), K(==, !new), T>(history: map<(A, (nat, K)), Archive<T>>, a: A, n: nat)
    returns (history': map<(A, (nat, K)), Archive<T>>, count: nat)
    ensures history' == WithSlice(history, a, Without(Slice(history, a), {n}))
    ensures count == |history| - |history'|
  {
    var rows := set p | p in history && p.0 == a && p.1.0 == n;
    history' := history - rows;
    count := |rows|;
    assert history'.Keys == history.Keys - rows;
    assert rows <= history.Keys;
    DeletedTable(history, history', a, n);
  }

  lemma DeletedTable<A(!new), K(!new), T>(history: map<(A, (nat, K)), Archive<T>>,
                                          history': map<(A, (nat, K)), Archive<T>>, a: A, n: nat)
    requires forall b, q :: Get(history', (b, q)) == if b == a && q.0 == n then None else Get(history, (b, q))
    ensures history' == WithSlice(history, a, Without(Slice(history, a), {n}))
  {
    forall b, q ensures Get(history', (b, q)) == Get(WithSlice(history, a, Without(Slice(history, a), {n})), (b, q)) {
      assert Get(Without(Slice(history, a), {n}), (q.0, q.1)) == if q.0 == n then None
             else Get(Slice(history, a), (q.0, q.1));
    }
    PairExtensional(history', WithSlice(history, a, Without(Slice(history, a), {n})));
  }
}
