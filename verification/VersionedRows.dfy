/**
 * One component of one account, kept in two tables as the browser store keeps storage slots, map
 * entries and vault assets: current values, and the values that were replaced, keyed by the nonce
 * that replaced them (crates/idxdb-store/src/js/accounts.js).
 *
 * `K` is the key inside the account and `T` what a row carries beside its value: the slot type for
 * storage slots, nothing for map entries and assets.
 */
module VersionedRows {
  import opened Common

  /** A current row. */
  datatype Cell<T> = Cell(value: string, tag: T)

  /** A historical row: the replaced value, or nothing when the key did not exist before. */
  datatype Archive<T> = Archive(was: Option<string>, tag: T)

  /** One entry of a sparse delta once decoded: a new value, or nothing for a removal. */
  datatype Update<T> = Update(value: Option<string>, tag: T)

  /** One row as the caller hands it over. */
  datatype Row<K, T> = Row(key: K, value: string, tag: T)

  type Current<K(==), T> = map<K, Cell<T>>
  type Past<K(==), T> = map<(nat, K), Archive<T>>

  // ---------------------------------------------------------------- what one row means

  function OldValue<T>(cell: Option<Cell<T>>): Option<string> {
    if cell.Some? then Some(cell.value.value) else None
  }

  function UpdatedCell<T>(u: Update<T>): Option<Cell<T>> {
    if u.value.Some? then Some(Cell(u.value.value, u.tag)) else None
  }

  /** What putting a historical row back leaves in the latest table. */
  function RestoredCell<T>(row: Archive<T>): Option<Cell<T>> {
    if row.was.Some? then Some(Cell(row.was.value, row.tag)) else None
  }

  // ---------------------------------------------------------------- decoding of the callers' lists

  /** The delta a list of changes stands for; when `emptyRemoves`, an empty value is a removal. */
  function DeltaOf<K(==), T>(changes: seq<Row<K, T>>, emptyRemoves: bool): map<K, Update<T>> {
    if changes == [] then map[]
    else
      var c := changes[|changes| - 1];
      DeltaOf(changes[..|changes| - 1], emptyRemoves)
        [c.key := Update(if emptyRemoves && c.value == "" then None else Some(c.value), c.tag)]
  }

  /** The contents a list of rows stands for; a bulk put lets the last row of a key win. */
  function ContentsOf<K(==), T>(rows: seq<Row<K, T>>): Current<K, T> {
    if rows == [] then map[]
    else
      var r := rows[|rows| - 1];
      ContentsOf(rows[..|rows| - 1])[r.key := Cell(r.value, r.tag)]
  }

  ghost predicate DistinctKeys<K, T>(rows: seq<Row<K, T>>) {
    forall i, j :: 0 <= i < j < |rows| ==> rows[i].key != rows[j].key
  }

  lemma {:induction false} DeltaOfAt<K(!new), T>(rows: seq<Row<K, T>>, emptyRemoves: bool, i: nat)
    requires DistinctKeys(rows) && i < |rows|
    ensures Get(DeltaOf(rows, emptyRemoves), rows[i].key) ==
            Some(Update(if emptyRemoves && rows[i].value == "" then None else Some(rows[i].value), rows[i].tag))
  {
    if i < |rows| - 1 { DeltaOfAt(rows[..|rows| - 1], emptyRemoves, i); }
  }

  lemma {:induction false} DeltaOfOnly<K(!new), T>(rows: seq<Row<K, T>>, emptyRemoves: bool, k: K)
    requires forall i :: 0 <= i < |rows| ==> rows[i].key != k
    ensures k !in DeltaOf(rows, emptyRemoves)
  {
    if rows != [] { DeltaOfOnly(rows[..|rows| - 1], emptyRemoves, k); }
  }

  // ---------------------------------------------------------------- writing

  /** Contents after a delta. */
  function Patched<K(==, !new), T>(s: Current<K, T>, d: map<K, Update<T>>): (r: Current<K, T>)
    ensures forall k :: Get(r, k) == if k in d then UpdatedCell(d[k]) else Get(s, k)
  {
    map k | k in s.Keys + d.Keys && (k in d ==> d[k].value.Some?) ::
      if k in d then Cell(d[k].value.value, d[k].tag) else s[k]
  }

  /** History after a delta at nonce `n`: one row per changed key, tagged as the new value is. */
  function DeltaArchived<K(==, !new), T>(h: Past<K, T>, n: nat, s: Current<K, T>, d: map<K, Update<T>>): (r: Past<K, T>)
    ensures forall m, k :: Get(r, (m, k)) ==
                           if m == n && k in d then Some(Archive(OldValue(Get(s, k)), d[k].tag)) else Get(h, (m, k))
  {
    map q | q in h.Keys + (set k | k in d :: (n, k)) ::
      if q.0 == n && q.1 in d then Archive(OldValue(Get(s, q.1)), d[q.1].tag) else h[q]
  }

  /**
   * History after a list of changes is worked off one by one at nonce `n`: each archives what it finds, so a key
   * that occurs again keeps the row of its last change only.
   */
  function ListArchived<K(==, !new), T>(h: Past<K, T>, n: nat, s: Current<K, T>, changes: seq<Row<K, T>>,
                                        emptyRemoves: bool)
    : Past<K, T>
  {
    if changes == [] then h
    else
      var front, c := changes[..|changes| - 1], changes[|changes| - 1];
      ListArchived(h, n, s, front, emptyRemoves)
        [(n, c.key) := Archive(OldValue(Get(Patched(s, DeltaOf(front, emptyRemoves)), c.key)), c.tag)]
  }

  /** The row a full replacement archives for a key, if it archives one. */
  function Replaced<T>(current: Option<Cell<T>>, next: Option<Cell<T>>): Option<Archive<T>> {
    if current.Some? then Some(Archive(Some(current.value.value), current.value.tag))
    else if next.Some? then Some(Archive(None, next.value.tag))
    else None
  }

  /** History after contents `s` are replaced by `s'` at nonce `n`. */
  function FullArchived<K(==, !new), T>(h: Past<K, T>, n: nat, s: Current<K, T>, s': Current<K, T>): (r: Past<K, T>)
    ensures forall m, k :: Get(r, (m, k)) ==
                           if m == n && Replaced(Get(s, k), Get(s', k)).Some? then Replaced(Get(s, k), Get(s', k))
                           else Get(h, (m, k))
  {
    map q | q in h.Keys + (set k | k in s.Keys + s'.Keys :: (n, k)) ::
      if q.0 == n && Replaced(Get(s, q.1), Get(s', q.1)).Some? then Replaced(Get(s, q.1), Get(s', q.1)).value else h[q]
  }

  // ---------------------------------------------------------------- going back

  function RolledBack<K(==), T>(h: Past<K, T>, n: nat, k: K, current: Option<Cell<T>>): Option<Cell<T>> {
    if (n, k) in h then RestoredCell(h[(n, k)]) else current
  }

  /** Contents after the rows archived at nonce `n` are put back. */
  function Restored<K(==, !new), T>(s: Current<K, T>, h: Past<K, T>, n: nat): (r: Current<K, T>)
    ensures forall k :: Get(r, k) == RolledBack(h, n, k, Get(s, k))
  {
    map k | k in s.Keys + (set q | q in h && q.0 == n :: q.1) && RolledBack(h, n, k, Get(s, k)).Some? ::
      RolledBack(h, n, k, Get(s, k)).value
  }

  /** The nonces that have historical rows. */
  function NoncesOf<K(==), T>(h: Past<K, T>): set<nat> {
    set q | q in h :: q.0
  }

  /** History without the rows at the nonces `ns`. */
  function Without<K(==, !new), T>(h: Past<K, T>, ns: set<nat>): (r: Past<K, T>)
    ensures forall m, k :: Get(r, (m, k)) == if m in ns then None else Get(h, (m, k))
  {
    map q | q in h && q.0 !in ns :: h[q]
  }

  ghost function Touching<K(!new), T>(h: Past<K, T>, ns: set<nat>, k: K): set<nat> {
    set n | n in ns && (n, k) in h
  }

  /**
   * Where undoing the nonces `ns` leaves key `k`: at the value archived by the lowest of those nonces
   * that touched the key, or where it is when none did.
   */
  ghost function Lowest<K(!new), T>(s: Current<K, T>, h: Past<K, T>, ns: set<nat>, k: K): Option<Cell<T>> {
    if Touching(h, ns, k) == {} then Get(s, k) else RestoredCell(h[(MinOf(Touching(h, ns, k)), k)])
  }

  /** Contents after every nonce in `ns` is undone. */
  ghost function Undone<K(!new), T>(s: Current<K, T>, h: Past<K, T>, ns: set<nat>): (r: Current<K, T>)
    ensures forall k :: Get(r, k) == Lowest(s, h, ns, k)
  {
    var keys := s.Keys + set q | q in h :: q.1;
    assert forall n, k :: (n, k) in h ==> k in keys by {
      forall n, k | (n, k) in h ensures k in keys { var q := (n, k); assert q.1 in keys; }
    }
    map k | k in keys && Lowest(s, h, ns, k).Some? :: Lowest(s, h, ns, k).value
  }

  // ---------------------------------------------------------------- laws

  /** The delta gives every key that already existed the tag it already had. */
  ghost predicate KeepsTags<K(!new), T>(s: Current<K, T>, d: map<K, Update<T>>) {
    forall k :: k in s && k in d ==> d[k].tag == s[k].tag
  }

  /**
   * The rows a delta archives bring the contents back exactly when the delta left the tag of every
   * existing key alone: the archived row carries the tag of the new value, not of the old one.
   */
  lemma DeltaReturnsIff<K(!new), T>(s: Current<K, T>, h: Past<K, T>, n: nat, d: map<K, Update<T>>)
    requires n !in NoncesOf(h)
    ensures Restored(Patched(s, d), DeltaArchived(h, n, s, d), n) == s <==> KeepsTags(s, d)
  {
    var back := Restored(Patched(s, d), DeltaArchived(h, n, s, d), n);
    forall k
      ensures Get(back, k) == if k in s && k in d then Some(Cell(s[k].value, d[k].tag)) else Get(s, k)
    {
      RowsBelong(h, n, k);
      assert Get(DeltaArchived(h, n, s, d), (n, k)).Some? <==> (n, k) in DeltaArchived(h, n, s, d);
    }
    if back == s {
      forall k | k in s && k in d ensures d[k].tag == s[k].tag {
        assert Get(back, k) == Get(s, k);
      }
    }
    if KeepsTags(s, d) { GetExtensional(back, s); }
  }

  lemma RowsBelong<K(!new), T>(h: Past<K, T>, n: nat, k: K)
    ensures (n, k) in h ==> n in NoncesOf(h)
  {
    if (n, k) in h { var q := (n, k); assert q.0 in NoncesOf(h); }
  }

  /** The rows a full replacement archives always bring the contents back. */
  lemma FullReturns<K(!new), T>(s: Current<K, T>, h: Past<K, T>, n: nat, s': Current<K, T>)
    requires n !in NoncesOf(h)
    ensures Restored(s', FullArchived(h, n, s, s'), n) == s
  {
    var h' := FullArchived(h, n, s, s');
    forall k ensures Get(Restored(s', h', n), k) == Get(s, k) {
      RowsBelong(h, n, k);
      assert Get(h', (n, k)).Some? <==> (n, k) in h';
    }
    GetExtensional(Restored(s', h', n), s);
  }

  /** Only the rows of one nonce matter for going back over that nonce. */
  lemma RestoredFrame<K(!new), T>(s: Current<K, T>, h: Past<K, T>, h': Past<K, T>, n: nat)
    requires forall k :: Get(h, (n, k)) == Get(h', (n, k))
    ensures Restored(s, h, n) == Restored(s, h', n)
  {
    forall k ensures Get(Restored(s, h, n), k) == Get(Restored(s, h', n), k) {
      assert Get(h, (n, k)) == Get(h', (n, k));
    }
    GetExtensional(Restored(s, h, n), Restored(s, h', n));
  }

  /** Dropping the rows a delta archived gives the earlier history back. */
  lemma DeltaForgotten<K(!new), T>(h: Past<K, T>, n: nat, s: Current<K, T>, d: map<K, Update<T>>)
    requires n !in NoncesOf(h)
    ensures Without(DeltaArchived(h, n, s, d), {n}) == h
  {
    forall q: (nat, K) ensures Get(Without(DeltaArchived(h, n, s, d), {n}), q) == Get(h, q) {
      var (m, k) := q;
      RowsBelong(h, m, k);
      assert Get(Without(DeltaArchived(h, n, s, d), {n}), (m, k)) == Get(h, (m, k));
    }
    GetExtensional(Without(DeltaArchived(h, n, s, d), {n}), h);
  }

  lemma FullForgotten<K(!new), T>(h: Past<K, T>, n: nat, s: Current<K, T>, s': Current<K, T>)
    requires n !in NoncesOf(h)
    ensures Without(FullArchived(h, n, s, s'), {n}) == h
  {
    forall q: (nat, K) ensures Get(Without(FullArchived(h, n, s, s'), {n}), q) == Get(h, q) {
      var (m, k) := q;
      RowsBelong(h, m, k);
      assert Get(Without(FullArchived(h, n, s, s'), {n}), (m, k)) == Get(h, (m, k));
    }
    GetExtensional(Without(FullArchived(h, n, s, s'), {n}), h);
  }

  lemma LowestStep<K(!new), T>(s: Current<K, T>, h: Past<K, T>, ns: set<nat>, n: nat, k: K)
    requires forall m :: m in ns ==> n < m
    ensures Lowest(s, h, {n} + ns, k) == RolledBack(h, n, k, Lowest(s, h, ns, k))
  {
    var all, rest := Touching(h, {n} + ns, k), Touching(h, ns, k);
    if (n, k) in h {
      assert n in all;
      assert all == {n} + rest;
      assert MinOf(all) == n;
    } else {
      assert all == rest;
    }
  }

  /** Undoing one more, lower nonce is going back over that nonce last. */
  lemma UndoneStep<K(!new), T>(s: Current<K, T>, h: Past<K, T>, ns: set<nat>, n: nat)
    requires forall m :: m in ns ==> n < m
    ensures Undone(s, h, {n} + ns) == Restored(Undone(s, h, ns), h, n)
  {
    forall k ensures Get(Undone(s, h, {n} + ns), k) == Get(Restored(Undone(s, h, ns), h, n), k) {
      LowestStep(s, h, ns, n, k);
    }
    GetExtensional(Undone(s, h, {n} + ns), Restored(Undone(s, h, ns), h, n));
  }

  lemma UndoneNothing<K(!new), T>(s: Current<K, T>, h: Past<K, T>)
    ensures Undone(s, h, {}) == s
  {
    forall k ensures Get(Undone(s, h, {}), k) == Get(s, k) {
      assert Touching(h, {}, k) == {};
    }
    GetExtensional(Undone(s, h, {}), s);
  }

  lemma LowestFrame<K(!new), T>(s: Current<K, T>, h: Past<K, T>, h': Past<K, T>, ns: set<nat>, k: K)
    requires forall n :: n in ns ==> Get(h, (n, k)) == Get(h', (n, k))
    ensures Lowest(s, h, ns, k) == Lowest(s, h', ns, k)
  {
    forall n | n in ns ensures (n, k) in h <==> (n, k) in h' { assert Get(h, (n, k)) == Get(h', (n, k)); }
    assert Touching(h, ns, k) == Touching(h', ns, k);
    if Touching(h, ns, k) != {} {
      var n := MinOf(Touching(h, ns, k));
      assert Get(h, (n, k)) == Get(h', (n, k));
    }
  }

  /** Rows at other nonces do not matter to an undo. */
  lemma UndoneFrame<K(!new), T>(s: Current<K, T>, h: Past<K, T>, h': Past<K, T>, ns: set<nat>)
    requires forall n, k :: n in ns ==> Get(h, (n, k)) == Get(h', (n, k))
    ensures Undone(s, h, ns) == Undone(s, h', ns)
  {
    forall k ensures Get(Undone(s, h, ns), k) == Get(Undone(s, h', ns), k) {
      LowestFrame(s, h, h', ns, k);
    }
    GetExtensional(Undone(s, h, ns), Undone(s, h', ns));
  }

  /** Undoing the higher nonces first and the lower ones next is undoing them all at once. */
  lemma UndoneCompose<K(!new), T>(s: Current<K, T>, h: Past<K, T>, lower: set<nat>, upper: set<nat>)
    requires forall m, n :: m in lower && n in upper ==> m < n
    ensures Undone(Undone(s, h, upper), h, lower) == Undone(s, h, lower + upper)
  {
    forall k ensures Lowest(Undone(s, h, upper), h, lower, k) == Lowest(s, h, lower + upper, k) {
      var all := Touching(h, lower + upper, k);
      assert all == Touching(h, lower, k) + Touching(h, upper, k);
      if Touching(h, lower, k) == {} {
        assert all == Touching(h, upper, k);
      } else {
        assert MinOf(all) == MinOf(Touching(h, lower, k));
      }
    }
    GetExtensional(Undone(Undone(s, h, upper), h, lower), Undone(s, h, lower + upper));
  }

  // ---------------------------------------------------------------- lists that repeat a key

  /** The position of the last change of a key. */
  predicate LastChange<K(==), T>(changes: seq<Row<K, T>>, i: nat) {
    i < |changes| && forall j :: i < j < |changes| ==> changes[j].key != changes[i].key
  }

  lemma {:induction false} LastChangeExists<K(!new), T>(changes: seq<Row<K, T>>, emptyRemoves: bool,
                                                        k: K) returns (i: nat)
    requires k in DeltaOf(changes, emptyRemoves)
    ensures LastChange(changes, i) && changes[i].key == k
  {
    var last := |changes| - 1;
    if changes[last].key == k {
      i := last;
    } else {
      i := LastChangeExists(changes[..last], emptyRemoves, k);
    }
  }

  /** What a list of changes leaves of one key, by the last change of it. */
  lemma {:induction false} ListAt<K(!new), T>(h: Past<K, T>, n: nat, s: Current<K, T>, changes: seq<Row<K, T>>,
                                              emptyRemoves: bool,
                                              i: nat)
    requires LastChange(changes, i)
    ensures var k := changes[i].key;
            && k in DeltaOf(changes, emptyRemoves)
            && Get(ListArchived(h, n, s, changes, emptyRemoves), (n, k))
               == Some(Archive(OldValue(Get(Patched(s, DeltaOf(changes[..i], emptyRemoves)), k)), changes[i].tag))
  {
    var last := |changes| - 1;
    if i < last {
      ListAt(h, n, s, changes[..last], emptyRemoves, i);
      assert changes[..last][..i] == changes[..i];
    }
  }

  lemma {:induction false} ListElsewhere<K(!new), T>(h: Past<K, T>, n: nat, s: Current<K, T>,
                                                     changes: seq<Row<K, T>>, emptyRemoves: bool,
                                                     m: nat, k: K)
    requires m != n || k !in DeltaOf(changes, emptyRemoves)
    ensures Get(ListArchived(h, n, s, changes, emptyRemoves), (m, k)) == Get(h, (m, k))
  {
    if changes != [] {
      ListElsewhere(h, n, s, changes[..|changes| - 1], emptyRemoves, m, k);
    }
  }

  /** Without repeated keys, working the list off archives what the delta as a whole archives. */
  lemma DistinctListArchived<K(!new), T>(h: Past<K, T>, n: nat, s: Current<K, T>, changes: seq<Row<K, T>>,
                                         emptyRemoves: bool)
    requires DistinctKeys(changes)
    ensures ListArchived(h, n, s, changes, emptyRemoves) == DeltaArchived(h, n, s, DeltaOf(changes, emptyRemoves))
  {
    hide DeltaOf, ListArchived, Patched, DeltaArchived;
    var d := DeltaOf(changes, emptyRemoves);
    forall q: (nat, K)
      ensures Get(ListArchived(h, n, s, changes, emptyRemoves), q) == Get(DeltaArchived(h, n, s, d), q)
    {
      var (m, k) := q;
      if m == n && k in d {
        var i := LastChangeExists(changes, emptyRemoves, k);
        ListAt(h, n, s, changes, emptyRemoves, i);
        DeltaOfOnly(changes[..i], emptyRemoves, k);
        DeltaOfAt(changes, emptyRemoves, i);
      } else {
        ListElsewhere(h, n, s, changes, emptyRemoves, m, k);
      }
      assert Get(ListArchived(h, n, s, changes, emptyRemoves), (m, k)) == Get(DeltaArchived(h, n, s, d), (m, k));
    }
    GetExtensional(ListArchived(h, n, s, changes, emptyRemoves), DeltaArchived(h, n, s, d));
  }

  /** The changes of each key before its last one leave it at its old value, and the last one keeps its tag. */
  ghost predicate ComesBack<K(!new), T>(s: Current<K, T>, changes: seq<Row<K, T>>, emptyRemoves: bool) {
    forall i: nat :: LastChange(changes, i) ==>
      var k := changes[i].key;
      && OldValue(Get(Patched(s, DeltaOf(changes[..i], emptyRemoves)), k)) == OldValue(Get(s, k))
      && (k in s ==> changes[i].tag == s[k].tag)
  }

  /** A list of changes can be taken back exactly when every key comes back to where it was before its last change. */
  lemma ListReturnsIff<K(!new), T>(s: Current<K, T>, h: Past<K, T>, n: nat, changes: seq<Row<K, T>>, emptyRemoves: bool)
    requires n !in NoncesOf(h)
    ensures Restored(Patched(s, DeltaOf(changes, emptyRemoves)), ListArchived(h, n, s, changes, emptyRemoves), n) == s
            <==> ComesBack(s, changes, emptyRemoves)
  {
    hide DeltaOf, ListArchived, Patched, Restored, NoncesOf;
    var d, h' := DeltaOf(changes, emptyRemoves), ListArchived(h, n, s, changes, emptyRemoves);
    var back := Restored(Patched(s, d), h', n);
    if back == s {
      forall i: nat | LastChange(changes, i)
        ensures var k := changes[i].key;
                && OldValue(Get(Patched(s, DeltaOf(changes[..i], emptyRemoves)), k)) == OldValue(Get(s, k))
                && (k in s ==> changes[i].tag == s[k].tag)
      {
        ListAt(h, n, s, changes, emptyRemoves, i);
        assert Get(back, changes[i].key) == Get(s, changes[i].key);
      }
    }
    if ComesBack(s, changes, emptyRemoves) {
      forall k ensures Get(back, k) == Get(s, k) {
        if k in d {
          var i := LastChangeExists(changes, emptyRemoves, k);
          ListAt(h, n, s, changes, emptyRemoves, i);
        } else {
          ListElsewhere(h, n, s, changes, emptyRemoves, n, k);
          RowsBelong(h, n, k);
          assert Get(h', (n, k)) == None;
        }
      }
      GetExtensional(back, s);
    }
  }
}
