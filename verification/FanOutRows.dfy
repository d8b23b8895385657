/**
 * Replacing one component of one account row by row, as `archiveAndReplaceStorageSlots`,
 * `archiveAndReplaceMapEntries` and `archiveAndReplaceVaultAssets` do
 * (crates/idxdb-store/src/js/accounts.js): every database request is a step of its own, so that steps
 * of other accounts can come in between.
 */
module FanOutRows {
  import opened Common
  import opened VersionedRows

  /** How far a replacement has come; the rows of a phase are done in any order. */
  datatype Part<K(==), T> =
    | Reading
    | Archiving(was: Current<K, T>, pending: set<K>)
    | Marking(was: Current<K, T>, pending: set<K>)
    | Clearing(pending: set<K>)
    | Filling(pending: set<K>)
    | Finished

  /** Handle one row of the phase, or go on to the next phase. */
  datatype RowEvent<K> = One(key: K) | Next

  datatype Component<K(==), T> = Component(part: Part<K, T>, latest: Current<K, T>, past: Past<K, T>)

  predicate RowEnabled<K, T>(p: Part<K, T>, e: RowEvent<K>) {
    match e
    case One(k) => !p.Reading? && !p.Finished? && k in p.pending
    case Next => p.Reading? || (!p.Finished? && p.pending == {})
  }

  function ArchivedRow<K(==), T>(h: Past<K, T>, n: nat, k: K, row: Option<Archive<T>>): Past<K, T> {
    if row.Some? then h[(n, k) := row.value] else h
  }

  /** One request, on behalf of the replacement by `next` at nonce `n`. */
  function RowStep<K, T>(c: Component<K, T>, e: RowEvent<K>, n: nat, next: Current<K, T>): Component<K, T>
    requires RowEnabled(c.part, e)
  {
    match c.part
    case Reading => c.(part := Archiving(c.latest, c.latest.Keys))
    case Archiving(was, pending) =>
      if e.Next? then c.(part := Marking(was, next.Keys - was.Keys))
      else
        var row := if e.key in was then Some(Archive(Some(was[e.key].value), was[e.key].tag)) else None;
        c.(part := Archiving(was, pending - {e.key}), past := ArchivedRow(c.past, n, e.key, row))
    case Marking(was, pending) =>
      if e.Next? then c.(part := Clearing(c.latest.Keys))
      else
        var row := if e.key in next then Some(Archive(None, next[e.key].tag)) else None;
        c.(part := Marking(was, pending - {e.key}), past := ArchivedRow(c.past, n, e.key, row))
    case Clearing(pending) =>
      if e.Next? then c.(part := Filling(next.Keys))
      else c.(part := Clearing(pending - {e.key}), latest := c.latest - {e.key})
    case Filling(pending) =>
      if e.Next? then c.(part := Finished)
      else c.(part := Filling(pending - {e.key}),
              latest := if e.key in next then c.latest[e.key := next[e.key]] else c.latest)
    case Finished => assert false; c
  }

  // ---------------------------------------------------------------- what has been done so far

  /** The history holds the rows of the keys `done`, and is otherwise as it was. */
  ghost predicate Covered<K(!new), T>(h: Past<K, T>, h0: Past<K, T>, n: nat, s0: Current<K, T>, s1: Current<K, T>,
                                      done: set<K>) {
    forall m: nat, k :: Get(h, (m, k)) == if m == n && k in done then Replaced(Get(s0, k), Get(s1, k))
        else Get(h0, (m, k))
  }

  ghost predicate Filled<K(!new), T>(s: Current<K, T>, s1: Current<K, T>, pending: set<K>) {
    && pending <= s1.Keys
    && forall k :: Get(s, k) == if k in pending then None else Get(s1, k)
  }

  /** The component is on its way from `s0`, `h0` to `s1`. */
  ghost predicate Progress<K(!new), T>(c: Component<K, T>, s0: Current<K, T>, h0: Past<K, T>, n: nat,
                                       s1: Current<K, T>) {
    match c.part
    case Reading => c.latest == s0 && c.past == h0
    case Archiving(was, pending) =>
      was == s0 && c.latest == s0 && pending <= s0.Keys && Covered(c.past, h0, n, s0, s1, s0.Keys - pending)
    case Marking(was, pending) =>
      was == s0 && c.latest == s0 && pending <= s1.Keys - s0.Keys
      && Covered(c.past, h0, n, s0, s1, s0.Keys + s1.Keys - pending)
    case Clearing(pending) => pending == c.latest.Keys && Covered(c.past, h0, n, s0, s1, s0.Keys + s1.Keys)
    case Filling(pending) => Filled(c.latest, s1, pending) && Covered(c.past, h0, n, s0, s1, s0.Keys + s1.Keys)
    case Finished => c.latest == s1 && c.past == FullArchived(h0, n, s0, s1)
  }

  lemma CoverOne<K(!new), T>(h: Past<K, T>, h0: Past<K, T>, n: nat, s0: Current<K, T>, s1: Current<K, T>,
                             done: set<K>, k: K, row: Archive<T>)
    requires Covered(h, h0, n, s0, s1, done) && Replaced(Get(s0, k), Get(s1, k)) == Some(row)
    ensures Covered(h[(n, k) := row], h0, n, s0, s1, done + {k})
  {
  }

  lemma CoveredAll<K(!new), T>(h: Past<K, T>, h0: Past<K, T>, n: nat, s0: Current<K, T>, s1: Current<K, T>)
    requires Covered(h, h0, n, s0, s1, s0.Keys + s1.Keys)
    ensures h == FullArchived(h0, n, s0, s1)
  {
    forall q: (nat, K) ensures Get(h, q) == Get(FullArchived(h0, n, s0, s1), q) {
      var (m, k) := q;
      assert Get(h, (m, k)) == Get(FullArchived(h0, n, s0, s1), (m, k));
    }
    GetExtensional(h, FullArchived(h0, n, s0, s1));
  }

  lemma ArchivingKeeps<K(!new), T>(c: Component<K, T>, e: RowEvent<K>, s0: Current<K, T>, h0: Past<K, T>, n: nat,
                                   s1: Current<K, T>)
    requires Progress(c, s0, h0, n, s1) && c.part.Archiving? && RowEnabled(c.part, e)
    ensures Progress(RowStep(c, e, n, s1), s0, h0, n, s1)
  {
    hide Covered;
    var pending := c.part.pending;
    if e.One? {
      CoverOne(c.past, h0, n, s0, s1, s0.Keys - pending, e.key, Archive(Some(s0[e.key].value), s0[e.key].tag));
      assert s0.Keys - pending + {e.key} == s0.Keys - (pending - {e.key});
    } else {
      assert s0.Keys - pending == s0.Keys + s1.Keys - (s1.Keys - s0.Keys);
    }
  }

  lemma MarkingKeeps<K(!new), T>(c: Component<K, T>, e: RowEvent<K>, s0: Current<K, T>, h0: Past<K, T>, n: nat,
                                 s1: Current<K, T>)
    requires Progress(c, s0, h0, n, s1) && c.part.Marking? && RowEnabled(c.part, e)
    ensures Progress(RowStep(c, e, n, s1), s0, h0, n, s1)
  {
    hide Covered;
    var pending, all := c.part.pending, s0.Keys + s1.Keys;
    if e.One? {
      CoverOne(c.past, h0, n, s0, s1, all - pending, e.key, Archive(None, s1[e.key].tag));
      assert all - pending + {e.key} == all - (pending - {e.key});
    } else {
      assert all - pending == all;
    }
  }

  lemma ReplacingKeeps<K(!new), T>(c: Component<K, T>, e: RowEvent<K>, s0: Current<K, T>, h0: Past<K, T>, n: nat,
                                   s1: Current<K, T>)
    requires Progress(c, s0, h0, n, s1) && (c.part.Clearing? || c.part.Filling?) && RowEnabled(c.part, e)
    ensures Progress(RowStep(c, e, n, s1), s0, h0, n, s1)
  {
    hide Covered;
    if c.part.Filling? && e.Next? {
      CoveredAll(c.past, h0, n, s0, s1);
      GetExtensional(c.latest, s1);
    }
  }

  /** Every request keeps the component on its way. */
  lemma RowStepKeeps<K(!new), T>(c: Component<K, T>, e: RowEvent<K>, s0: Current<K, T>, h0: Past<K, T>, n: nat,
                                 s1: Current<K, T>)
    requires Progress(c, s0, h0, n, s1) && RowEnabled(c.part, e)
    ensures Progress(RowStep(c, e, n, s1), s0, h0, n, s1)
  {
    match c.part
    case Reading => assert s0.Keys - s0.Keys == {};
    case Archiving(_, _) => ArchivingKeeps(c, e, s0, h0, n, s1);
    case Marking(_, _) => MarkingKeeps(c, e, s0, h0, n, s1);
    case Clearing(_) => ReplacingKeeps(c, e, s0, h0, n, s1);
    case Filling(_) => ReplacingKeeps(c, e, s0, h0, n, s1);
  }

  lemma FinishedIs<K(!new), T>(c: Component<K, T>, s0: Current<K, T>, h0: Past<K, T>, n: nat, s1: Current<K, T>)
    requires Progress(c, s0, h0, n, s1) && c.part.Finished?
    ensures c.latest == s1 && c.past == FullArchived(h0, n, s0, s1)
  {
  }

  /** A component that is not finished can always go on. */
  lemma RowsNotStuck<K(!new), T>(p: Part<K, T>)
    ensures p.Finished? <==> forall e :: !RowEnabled(p, e)
  {
    if !p.Finished? {
      if p.Reading? || p.pending == {} {
        assert RowEnabled(p, Next);
      } else {
        var k :| k in p.pending;
        assert RowEnabled(p, One(k));
      }
    }
  }
}
