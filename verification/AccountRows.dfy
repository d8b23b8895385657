/**
 * Everything the browser store keeps about one account, and what each store operation does to it
 * (crates/idxdb-store/src/js/accounts.js). Nonces are numbers here; the tables store their decimal text.
 */
module AccountRows {
  import opened Common
  import opened VersionedRows

  type Commitment = string
  type CodeRoot = string

  datatype Header = Header(codeRoot: CodeRoot, storageRoot: string, vaultRoot: string, nonce: nat, committed: bool,
                           accountSeed: Option<string>, accountCommitment: Commitment, locked: bool)

  /** A superseded header with the nonce that replaced it. */
  datatype OldHeader = OldHeader(replacedAtNonce: nat, header: Header)

  type MapKey = (string, string)

  datatype Contents = Contents(slots: Current<string, nat>, entries: Current<MapKey, ()>, assets: Current<string, ()>)

  datatype History = History(slots: Past<string, nat>, entries: Past<MapKey, ()>, assets: Past<string, ()>)

  /** A complete account state. */
  datatype Snapshot = Snapshot(header: Header, contents: Contents)

  /** What one transaction changed, with the header it ended in. */
  datatype Delta = Delta(header: Header, slots: map<string, Update<nat>>, entries: map<MapKey, Update<()>>,
                         assets: map<string, Update<()>>)

  /** The rows of one account in the eight tables. */
  datatype Rows = Rows(header: Option<Header>, contents: Contents, history: History,
                       archived: map<Commitment, OldHeader>)

  const NoContents := Contents(map[], map[], map[])

  // ---------------------------------------------------------------- the three components together

  function Patch(c: Contents, d: Delta): Contents {
    Contents(Patched(c.slots, d.slots), Patched(c.entries, d.entries), Patched(c.assets, d.assets))
  }

  function DeltaHistory(h: History, c: Contents, d: Delta): History {
    var n := d.header.nonce;
    History(DeltaArchived(h.slots, n, c.slots, d.slots),
            DeltaArchived(h.entries, n, c.entries, d.entries),
            DeltaArchived(h.assets, n, c.assets, d.assets))
  }

  function FullHistory(h: History, n: nat, c: Contents, c': Contents): History {
    History(FullArchived(h.slots, n, c.slots, c'.slots),
            FullArchived(h.entries, n, c.entries, c'.entries),
            FullArchived(h.assets, n, c.assets, c'.assets))
  }

  function Restore(c: Contents, h: History, n: nat): Contents {
    Contents(Restored(c.slots, h.slots, n), Restored(c.entries, h.entries, n), Restored(c.assets, h.assets, n))
  }

  function HistoryNonces(h: History): set<nat> {
    NoncesOf(h.slots) + NoncesOf(h.entries) + NoncesOf(h.assets)
  }

  function Forget(h: History, ns: set<nat>): History {
    History(Without(h.slots, ns), Without(h.entries, ns), Without(h.assets, ns))
  }

  ghost function UndoContents(c: Contents, h: History, ns: set<nat>): Contents {
    Contents(Undone(c.slots, h.slots, ns), Undone(c.entries, h.entries, ns), Undone(c.assets, h.assets, ns))
  }

  // ---------------------------------------------------------------- store operations on one account

  /** Superseded headers once the current one, if any, is replaced at nonce `n`. */
  function Supersede(r: Rows, n: nat): map<Commitment, OldHeader> {
    if r.header.None? then r.archived
    else r.archived[r.header.value.accountCommitment := OldHeader(n, r.header.value)]
  }

  function WriteDelta(r: Rows, d: Delta): Rows {
    Rows(Some(d.header), Patch(r.contents, d), DeltaHistory(r.history, r.contents, d), Supersede(r, d.header.nonce))
  }

  function WriteFull(r: Rows, s: Snapshot): Rows {
    Rows(Some(s.header), s.contents, FullHistory(r.history, s.header.nonce, r.contents, s.contents),
         Supersede(r, s.header.nonce))
  }

  /** First insertion: nothing is archived. */
  function WriteNew(r: Rows, s: Snapshot): Rows {
    r.(header := Some(s.header), contents := s.contents)
  }

  function LockHeader(h: Header): Header { h.(locked := true) }

  function LockRows(r: Rows): Rows {
    r.(header := if r.header.None? then None else Some(LockHeader(r.header.value)),
       archived := map c | c in r.archived :: r.archived[c].(header := LockHeader(r.archived[c].header)))
  }

  function PrunedCommitments(r: Rows, upTo: nat): set<Commitment> {
    set c | c in r.archived && r.archived[c].replacedAtNonce <= upTo
  }

  function PrunedNonces(r: Rows, upTo: nat): set<nat> {
    set c | c in PrunedCommitments(r, upTo) :: r.archived[c].replacedAtNonce
  }

  /** Headers replaced at or below the bound go, with the rows archived at the same nonces. */
  function PruneRows(r: Rows, upTo: nat): Rows {
    r.(history := Forget(r.history, PrunedNonces(r, upTo)),
       archived := map c | c in r.archived && c !in PrunedCommitments(r, upTo) :: r.archived[c])
  }

  ghost predicate ReplacedAt(r: Rows, n: nat, c: Commitment) {
    c in r.archived && r.archived[c].replacedAtNonce == n
  }

  /** The header that nonce `n` replaced. */
  ghost function PreviousHeader(r: Rows, n: nat): Option<Header> {
    if exists c :: ReplacedAt(r, n, c) then
      var c :| ReplacedAt(r, n, c);
      Some(r.archived[c].header)
    else None
  }

  /** `back` is a header that nonce `n` replaced, or nothing where it replaced none. */
  ghost predicate IsPrevious(r: Rows, n: nat, back: Option<Header>) {
    if back.None? then forall c :: !ReplacedAt(r, n, c)
    else exists c :: ReplacedAt(r, n, c) && r.archived[c].header == back.value
  }

  /** Undo the nonces `ns`: back to the header the lowest of them replaced, or to no account at all. */
  ghost function UndoRows(r: Rows, ns: set<nat>): Rows
    requires ns != {}
  {
    UndoRowsTo(r, ns, PreviousHeader(r, MinOf(ns)))
  }

  /** Undo the nonces `ns` and go back to the header `back`. */
  ghost function UndoRowsTo(r: Rows, ns: set<nat>, back: Option<Header>): Rows {
    Rows(back,
         if back.None? then NoContents else UndoContents(r.contents, r.history, ns),
         Forget(r.history, ns),
         map c | c in r.archived && r.archived[c].replacedAtNonce !in ns :: r.archived[c])
  }

  // ---------------------------------------------------------------- laws of the components together

  /** A delta can be taken back exactly when it keeps the type of every slot that already existed. */
  lemma DeltaReturns(c: Contents, h: History, d: Delta)
    requires d.header.nonce !in HistoryNonces(h)
    ensures Restore(Patch(c, d), DeltaHistory(h, c, d), d.header.nonce) == c <==> KeepsTags(c.slots, d.slots)
  {
    DeltaReturnsIff(c.slots, h.slots, d.header.nonce, d.slots);
    DeltaReturnsIff(c.entries, h.entries, d.header.nonce, d.entries);
    DeltaReturnsIff(c.assets, h.assets, d.header.nonce, d.assets);
    Untagged(c.entries, d.entries);
    Untagged(c.assets, d.assets);
  }

  /** A slot that changes its type is not restored: the archived row carries the new type. */
  lemma SlotTypeLost(name: string, was: Cell<nat>, u: Update<nat>, n: nat)
    requires u.value.Some? && u.tag != was.tag
    ensures var s, d := map[name := was], map[name := u];
            Get(Restored(Patched(s, d), DeltaArchived(map[], n, s, d), n), name)
                == Some(Cell(was.value, u.tag)) != Get(s, name)
  {
    var s, d := map[name := was], map[name := u];
    var h := DeltaArchived(map[], n, s, d);
    assert Get(h, (n, name)) == Some(Archive(OldValue(Get(s, name)), u.tag));
    assert (n, name) in h;
  }

  lemma Untagged<K(!new)>(s: Current<K, ()>, d: map<K, Update<()>>)
    ensures KeepsTags(s, d)
  {
    forall k | k in s && k in d ensures d[k].tag == s[k].tag {
      assert d[k].tag == () && s[k].tag == ();
    }
  }

  /** A full replacement can always be taken back. */
  lemma FullReturnsAll(c: Contents, h: History, n: nat, c': Contents)
    requires n !in HistoryNonces(h)
    ensures Restore(c', FullHistory(h, n, c, c'), n) == c
  {
    FullReturns(c.slots, h.slots, n, c'.slots);
    FullReturns(c.entries, h.entries, n, c'.entries);
    FullReturns(c.assets, h.assets, n, c'.assets);
  }

  /** Forgetting other nonces does not matter for going back over this one. */
  lemma RestoreAfterForget(c: Contents, h: History, ns: set<nat>, n: nat)
    requires n !in ns
    ensures Restore(c, Forget(h, ns), n) == Restore(c, h, n)
  {
    RestoredFrame(c.slots, Forget(h, ns).slots, h.slots, n);
    RestoredFrame(c.entries, Forget(h, ns).entries, h.entries, n);
    RestoredFrame(c.assets, Forget(h, ns).assets, h.assets, n);
  }

  lemma ForgetNonces(h: History, ns: set<nat>)
    ensures HistoryNonces(Forget(h, ns)) == HistoryNonces(h) - ns
  {
    WithoutNonces(h.slots, ns);
    WithoutNonces(h.entries, ns);
    WithoutNonces(h.assets, ns);
  }

  lemma WithoutNonces<K(!new), T>(h: Past<K, T>, ns: set<nat>)
    ensures NoncesOf(Without(h, ns)) == NoncesOf(h) - ns
  {
    forall n | n in NoncesOf(h) - ns ensures n in NoncesOf(Without(h, ns)) {
      var q :| q in h && q.0 == n;
      var (m, k) := q;
      assert Get(Without(h, ns), (m, k)) == Get(h, (m, k));
      assert q in Without(h, ns);
    }
  }

  /** A write's rows all sit at its own nonce. */
  lemma DeltaNonces(h: History, c: Contents, d: Delta)
    ensures HistoryNonces(DeltaHistory(h, c, d)) <= HistoryNonces(h) + {d.header.nonce}
  {
    NoncesGrow(h.slots, DeltaArchived(h.slots, d.header.nonce, c.slots, d.slots), d.header.nonce);
    NoncesGrow(h.entries, DeltaArchived(h.entries, d.header.nonce, c.entries, d.entries), d.header.nonce);
    NoncesGrow(h.assets, DeltaArchived(h.assets, d.header.nonce, c.assets, d.assets), d.header.nonce);
  }

  lemma FullNonces(h: History, n: nat, c: Contents, s: Contents)
    ensures HistoryNonces(FullHistory(h, n, c, s)) <= HistoryNonces(h) + {n}
  {
    NoncesGrow(h.slots, FullArchived(h.slots, n, c.slots, s.slots), n);
    NoncesGrow(h.entries, FullArchived(h.entries, n, c.entries, s.entries), n);
    NoncesGrow(h.assets, FullArchived(h.assets, n, c.assets, s.assets), n);
  }

  /** Going back over an older nonce is not affected by a later write. */
  lemma DeltaElsewhere(h: History, c: Contents, d: Delta, c': Contents, m: nat)
    requires m != d.header.nonce
    ensures Restore(c', DeltaHistory(h, c, d), m) == Restore(c', h, m)
  {
    var n := d.header.nonce;
    RestoredFrame(c'.slots, DeltaArchived(h.slots, n, c.slots, d.slots), h.slots, m);
    RestoredFrame(c'.entries, DeltaArchived(h.entries, n, c.entries, d.entries), h.entries, m);
    RestoredFrame(c'.assets, DeltaArchived(h.assets, n, c.assets, d.assets), h.assets, m);
  }

  lemma FullElsewhere(h: History, n: nat, c: Contents, s: Contents, c': Contents, m: nat)
    requires m != n
    ensures Restore(c', FullHistory(h, n, c, s), m) == Restore(c', h, m)
  {
    RestoredFrame(c'.slots, FullArchived(h.slots, n, c.slots, s.slots), h.slots, m);
    RestoredFrame(c'.entries, FullArchived(h.entries, n, c.entries, s.entries), h.entries, m);
    RestoredFrame(c'.assets, FullArchived(h.assets, n, c.assets, s.assets), h.assets, m);
  }

  lemma NoncesGrow<K(!new), T>(h: Past<K, T>, h': Past<K, T>, n: nat)
    requires forall m, k :: m != n ==> Get(h', (m, k)) == Get(h, (m, k))
    ensures NoncesOf(h') <= NoncesOf(h) + {n}
  {
    forall m | m in NoncesOf(h') ensures m in NoncesOf(h) + {n} {
      var q :| q in h' && q.0 == m;
      var (m', k) := q;
      if m != n {
        assert Get(h', (m', k)) == Get(h, (m', k));
        RowsBelong(h, m', k);
      }
    }
  }

  /** Undoing one more, lower nonce is going back over it last; undoing nothing changes nothing. */
  lemma UndoContentsStep(c: Contents, h: History, ns: set<nat>, n: nat)
    requires forall m :: m in ns ==> n < m
    ensures UndoContents(c, h, {n} + ns) == Restore(UndoContents(c, h, ns), h, n)
    ensures UndoContents(c, h, {}) == c
  {
    UndoneStep(c.slots, h.slots, ns, n);
    UndoneStep(c.entries, h.entries, ns, n);
    UndoneStep(c.assets, h.assets, ns, n);
    UndoneNothing(c.slots, h.slots);
    UndoneNothing(c.entries, h.entries);
    UndoneNothing(c.assets, h.assets);
  }

  /** Forgetting nonces that are not undone does not matter to the undo. */
  lemma UndoAfterForget(c: Contents, h: History, gone: set<nat>, ns: set<nat>)
    requires gone !! ns
    ensures UndoContents(c, Forget(h, gone), ns) == UndoContents(c, h, ns)
  {
    UndoneFrame(c.slots, Forget(h, gone).slots, h.slots, ns);
    UndoneFrame(c.entries, Forget(h, gone).entries, h.entries, ns);
    UndoneFrame(c.assets, Forget(h, gone).assets, h.assets, ns);
  }

  lemma ForgetTwice(h: History, ns: set<nat>, ns': set<nat>)
    ensures Forget(Forget(h, ns), ns') == Forget(h, ns + ns')
  {
    WithoutTwice(h.slots, ns, ns');
    WithoutTwice(h.entries, ns, ns');
    WithoutTwice(h.assets, ns, ns');
  }

  lemma WithoutTwice<K(!new), T>(h: Past<K, T>, ns: set<nat>, ns': set<nat>)
    ensures Without(Without(h, ns), ns') == Without(h, ns + ns')
  {
  }

  lemma UndoContentsCompose(c: Contents, h: History, lower: set<nat>, upper: set<nat>)
    requires forall m, n :: m in lower && n in upper ==> m < n
    ensures UndoContents(UndoContents(c, h, upper), Forget(h, upper), lower) == UndoContents(c, h, lower + upper)
  {
    assert lower !! upper;
    UndoAfterForget(UndoContents(c, h, upper), h, upper, lower);
    UndoneCompose(c.slots, h.slots, lower, upper);
    UndoneCompose(c.entries, h.entries, lower, upper);
    UndoneCompose(c.assets, h.assets, lower, upper);
  }
}
