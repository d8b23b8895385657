/**
 * Every run of the store's operations, from the empty tables or from any tables that represent stacks, keeps
 * representing the stacks that the same run of stack operations gives; and a run keeps the code table complete exactly
 * when every write names a stored root.
 */
module StoreRuns {
  import opened Common
  import opened VersionedRows
  import opened AccountRows
  import opened AccountTables
  import opened AccountStack
  import opened StoreRefinement
  import opened StoreLaws

  datatype Op =
    | InsertOp(a: AccountId, s: Snapshot, code: string)
    | WriteOp(w: Write)
    | UndoOp(cs: seq<Commitment>)
    | PruneOp(a: AccountId, upTo: nat)
    | LockOp(a: AccountId)
    | UnexpectedOp(a: AccountId, digest: Commitment)
    | ForeignCodeOp(a: AccountId, root: CodeRoot, code: string)

  function RecordForeign(t: Tables, a: AccountId, root: CodeRoot, code: string): Tables {
    t.(codes := t.codes[root := code], foreignCodes := t.foreignCodes[a := root])
  }

  /** What an operation does to the tables. */
  ghost function Apply(t: Tables, op: Op): Tables {
    match op
    case InsertOp(a, s, code) => Insert(t, a, s, code)
    case WriteOp(w) => ApplyWrite(t, w)
    case UndoOp(cs) => Undo(t, Elements(cs))
    case PruneOp(a, upTo) => Prune(t, a, upTo)
    case LockOp(a) => Lock(t, a)
    case UnexpectedOp(a, digest) => LockOnUnexpected(t, a, digest)
    case ForeignCodeOp(a, root, code) => RecordForeign(t, a, root, code)
  }

  /** What an operation does to the stacks. */
  ghost function AbstractApply(g: Stacks, op: Op): Stacks {
    match op
    case InsertOp(a, s, _) => g[a := [s]]
    case WriteOp(w) => Pushed(g, w)
    case UndoOp(cs) => PopStacks(g, Elements(cs))
    case PruneOp(a, upTo) => SetStack(g, a, DropOld(StackOf(g, a), upTo))
    case LockOp(a) => SetStack(g, a, LockStack(StackOf(g, a)))
    case UnexpectedOp(a, digest) =>
      if Superseded(StackOf(g, a), digest) then g else SetStack(g, a, LockStack(StackOf(g, a)))
    case ForeignCodeOp(_, _, _) => g
  }

  /** Some retained state has this commitment. */
  ghost predicate Retained(g: Stacks, c: Commitment) {
    exists a, i :: a in g && 0 <= i < |g[a]| && g[a][i].header.accountCommitment == c
  }

  /** What the client guarantees before each operation. */
  ghost predicate Enabled(g: Stacks, op: Op) {
    match op
    case InsertOp(a, s, _) => a !in g && !Retained(g, s.header.accountCommitment)
    case WriteOp(w) =>
      && w.a in g && g[w.a] != []
      && Top(g[w.a]).header.nonce < WrittenHeader(w).nonce
      && !Retained(g, WrittenHeader(w).accountCommitment)
      && (w.DeltaWrite? ==> KeepsTags(Top(g[w.a]).contents.slots, w.d.slots))
    case UndoOp(cs) => forall a :: SuffixClosed(StackOf(g, a), Elements(cs))
    case _ => true
  }

  ghost function Run(t: Tables, ops: seq<Op>): Tables
    decreases |ops|
  {
    if ops == [] then t else Run(Apply(t, ops[0]), ops[1..])
  }

  ghost function AbstractRun(g: Stacks, ops: seq<Op>): Stacks
    decreases |ops|
  {
    if ops == [] then g else AbstractRun(AbstractApply(g, ops[0]), ops[1..])
  }

  ghost predicate AllEnabled(g: Stacks, ops: seq<Op>)
    decreases |ops|
  {
    ops == [] || (Enabled(g, ops[0]) && AllEnabled(AbstractApply(g, ops[0]), ops[1..]))
  }

  /** A commitment no stack retains is new to the tables. */
  lemma NotRetainedIsFresh(t: Tables, g: Stacks, c: Commitment)
    requires Represents(t, g) && !Retained(g, c)
    ensures Fresh(t, c)
  {
    hide RowsOf, Tracked, Injective;
    forall a ensures c !in Commitments(RowsOf(t, a)) {
      if c in Commitments(RowsOf(t, a)) {
        var i := CommittedState(RowsOf(t, a), StackOf(g, a), c);
        assert false;
      }
    }
  }

  lemma CommittedState(r: Rows, stack: Stack, c: Commitment) returns (i: nat)
    requires Tracked(r, stack) && c in Commitments(r)
    ensures i < |stack| && stack[i].header.accountCommitment == c
  {
    if c in r.archived {
      i := ArchivedStep(r, stack, c);
    } else {
      i := |stack| - 1;
    }
  }

  /** One operation on the tables is one operation on the stacks. */
  lemma StepRefines(t: Tables, g: Stacks, op: Op)
    requires Represents(t, g) && Enabled(g, op)
    ensures Represents(Apply(t, op), AbstractApply(g, op))
  {
    hide Represents, Undo, Prune, Lock, LockOnUnexpected, Insert, ApplyWrite, Pushed, PopStacks, SetStack, StackOf,
         Retained, KeepsTags, SuffixClosed, Superseded;
    match op
    case InsertOp(a, s, code) =>
      NotRetainedIsFresh(t, g, s.header.accountCommitment);
      InsertStarts(t, g, a, s, code);
    case WriteOp(w) =>
      NotRetainedIsFresh(t, g, WrittenHeader(w).accountCommitment);
      WritePushes(t, g, w);
    case UndoOp(cs) =>
      UndoPopsStoreIff(t, g, Elements(cs));
    case PruneOp(a, upTo) =>
      PruneDropsStore(t, g, a, upTo);
    case LockOp(a) =>
      LockMarksStore(t, g, a);
    case UnexpectedOp(a, digest) =>
      UnexpectedLocksIff(t, g, a, digest);
      LockMarksStore(t, g, a);
    case ForeignCodeOp(a, root, code) =>
      ForeignAside(t, a, root, code);
      SameRowsRepresent(t, RecordForeign(t, a, root, code), g);
  }

  /** A foreign account's code is stored under its root, and the account refers to it; nothing else changes. */
  lemma ForeignEffect(t: Tables, a: AccountId, root: CodeRoot, code: string)
    ensures var t' := Apply(t, ForeignCodeOp(a, root, code));
            && (forall r :: Get(t'.codes, r) == if r == root then Some(code) else Get(t.codes, r))
            && (forall b :: Get(t'.foreignCodes, b) == if b == a then Some(root) else Get(t.foreignCodes, b))
            && t' == t.(codes := t'.codes, foreignCodes := t'.foreignCodes)
  {
  }

  lemma ForeignAside(t: Tables, a: AccountId, root: CodeRoot, code: string)
    ensures forall b :: RowsOf(RecordForeign(t, a, root, code), b) == RowsOf(t, b)
  {
  }

  /**
   * Stack refinement over every run: whatever operations the client makes, the tables represent the
   * stacks that the same pushes, pops, drops and marks give.
   */
  lemma {:induction false} RunRefines(t: Tables, g: Stacks, ops: seq<Op>)
    requires Represents(t, g) && AllEnabled(g, ops)
    ensures Represents(Run(t, ops), AbstractRun(g, ops))
    decreases |ops|
  {
    hide Represents, Apply, AbstractApply, Enabled;
    if ops != [] {
      StepRefines(t, g, ops[0]);
      RunRefines(Apply(t, ops[0]), AbstractApply(g, ops[0]), ops[1..]);
    }
  }

  const EmptyRows := Rows(None, NoContents, History(map[], map[], map[]), map[])

  lemma EmptyTracked()
    ensures Tracked(EmptyRows, []) && SelfConsistent(EmptyRows) && Commitments(EmptyRows) == {}
  {
  }

  lemma RowsOfEmpty(a: AccountId)
    ensures RowsOf(EmptyTables, a) == EmptyRows
  {
    hide Slice;
    EmptySlice<AccountId, string, Cell<nat>>(a);
    EmptySlice<AccountId, MapKey, Cell<()>>(a);
    EmptySlice<AccountId, string, Cell<()>>(a);
    EmptySlice<AccountId, (nat, string), Archive<nat>>(a);
    EmptySlice<AccountId, (nat, MapKey), Archive<()>>(a);
    EmptySlice<AccountId, (nat, string), Archive<()>>(a);
    assert OwnHeaders(EmptyTables.historicalHeaders, a) == map[];
  }

  lemma EmptySlice<A(!new), K(!new), V>(a: A)
    ensures Slice<A, K, V>(map[], a) == map[]
  {
  }

  lemma EmptyRepresents()
    ensures Represents(EmptyTables, map[])
  {
    hide RowsOf, Tracked, SelfConsistent, Commitments, EmptyTables;
    EmptyTracked();
    forall a ensures RowsOf(EmptyTables, a) == EmptyRows {
      RowsOfEmpty(a);
    }
  }

  // ---------------------------------------------------------------- code rows

  /** The code roots the rows of one account refer to. */
  function RowRoots(r: Rows): set<CodeRoot> {
    (if r.header.Some? then {r.header.value.codeRoot} else {})
    + set c | c in r.archived :: r.archived[c].header.codeRoot
  }

  lemma RootsCovered(t: Tables, roots: set<CodeRoot>)
    requires forall a :: RowRoots(RowsOf(t, a)) <= roots
    requires forall a :: a in t.foreignCodes ==> t.foreignCodes[a] in roots
    ensures Referenced(t) <= roots
  {
    forall a | a in t.latestHeaders ensures t.latestHeaders[a].codeRoot in roots {
      assert t.latestHeaders[a].codeRoot in RowRoots(RowsOf(t, a));
    }
    forall c | c in t.historicalHeaders ensures t.historicalHeaders[c].old_.header.codeRoot in roots {
      var a := t.historicalHeaders[c].id;
      assert c in RowsOf(t, a).archived;
      assert t.historicalHeaders[c].old_.header.codeRoot in RowRoots(RowsOf(t, a));
    }
  }

  lemma RootsReferenced(t: Tables, a: AccountId)
    ensures RowRoots(RowsOf(t, a)) <= Referenced(t)
  {
    forall root | root in RowRoots(RowsOf(t, a)) ensures root in Referenced(t) {
      if !(a in t.latestHeaders && t.latestHeaders[a].codeRoot == root) {
        var c :| c in RowsOf(t, a).archived && RowsOf(t, a).archived[c].header.codeRoot == root;
        assert c in t.historicalHeaders && t.historicalHeaders[c].old_.header.codeRoot == root;
      }
    }
  }

  /** Every referenced code root has a code row. */
  ghost predicate CodesClosed(t: Tables) {
    Referenced(t) <= t.codes.Keys
  }

  /** The write names a root whose code is already stored. */
  ghost predicate KnownCode(t: Tables, op: Op) {
    op.WriteOp? ==> WrittenHeader(op.w).codeRoot in t.codes
  }

  lemma UndoRoots(r: Rows, ns: set<nat>)
    requires ns != {}
    ensures RowRoots(UndoRows(r, ns)) <= RowRoots(r)
  {
    hide Forget, UndoContents;
    var n := MinOf(ns);
    if c :| ReplacedAt(r, n, c) {
      var c' :| ReplacedAt(r, n, c') && PreviousHeader(r, n) == Some(r.archived[c'].header);
      assert r.archived[c'].header.codeRoot in RowRoots(r);
    }
  }

  /** Pruning never removes a code row that a remaining header or a foreign account refers to. */
  lemma PruneKeepsReferencedCode(t: Tables, a: AccountId, upTo: nat)
    ensures forall root :: root in t.codes && root in Referenced(Prune(t, a, upTo)) ==>
              root in Prune(t, a, upTo).codes && Prune(t, a, upTo).codes[root] == t.codes[root]
    ensures forall root :: root in t.codes && root !in Prune(t, a, upTo).codes ==>
              exists c :: c in t.historicalHeaders && t.historicalHeaders[c].id == a
                          && t.historicalHeaders[c].old_.replacedAtNonce <= upTo
                          && t.historicalHeaders[c].old_.header.codeRoot == root
  {
    hide WithRows;
    assert Referenced(Prune(t, a, upTo)) == Referenced(PruneAccount(t, a, upTo));
    forall root | root in t.codes && root !in Prune(t, a, upTo).codes
      ensures exists c :: c in t.historicalHeaders && t.historicalHeaders[c].id == a
                          && t.historicalHeaders[c].old_.replacedAtNonce <= upTo
                          && t.historicalHeaders[c].old_.header.codeRoot == root
    {
      var c :| c in PrunedCommitments(RowsOf(t, a), upTo) && RowsOf(t, a).archived[c].header.codeRoot == root;
      assert c in t.historicalHeaders;
    }
  }

  /** Where the code of a write is stored, no operation leaves a reference to a missing code row. */
  lemma StepKeepsCode(t: Tables, g: Stacks, op: Op)
    requires Represents(t, g) && Enabled(g, op) && CodesClosed(t) && KnownCode(t, op)
    ensures CodesClosed(Apply(t, op))
  {
    hide Represents, RowsOf, RowRoots, Referenced, Undo, Prune, Lock, LockOnUnexpected, Insert, ApplyWrite, Pushed,
         Enabled;
    if op.PruneOp? {
      PruneRoots(t, op.a, op.upTo);
    } else {
      var t' := Apply(t, op);
      forall b ensures RowRoots(RowsOf(t', b)) <= Referenced(t) + NewRoots(op) { StepRoots(t, g, op, b); }
      forall b | b in t'.foreignCodes ensures t'.foreignCodes[b] in Referenced(t) + NewRoots(op) {
        StepForeign(t, op, b);
      }
      RootsCovered(t', Referenced(t) + NewRoots(op));
      StepCodes(t, op);
    }
  }

  ghost predicate AllKnown(t: Tables, ops: seq<Op>)
    decreases |ops|
  {
    ops == [] || (KnownCode(t, ops[0]) && AllKnown(Apply(t, ops[0]), ops[1..]))
  }

  /** A write stores no code: one whose root has no code row refers to a missing one from then on. */
  lemma UnknownRootDangles(t: Tables, g: Stacks, w: Write)
    requires Represents(t, g) && Enabled(g, WriteOp(w)) && WrittenHeader(w).codeRoot !in t.codes
    ensures var t' := ApplyWrite(t, w);
            && w.a in t'.latestHeaders && t'.latestHeaders[w.a].codeRoot == WrittenHeader(w).codeRoot
            && WrittenHeader(w).codeRoot !in t'.codes && !CodesClosed(t')
  {
    hide Represents, RowRoots, Referenced, Enabled, ApplyWrite, WrittenRows, RowsOf;
    var t', root := ApplyWrite(t, w), WrittenHeader(w).codeRoot;
    EnabledWrite(t, g, w);
    WritePushes(t, g, w);
    OthersKept(t, WriteOp(w));
    WrittenHeaderRow(RowsOf(t, w.a), w);
    HeaderOf(t', w.a);
    RootsReferenced(t', w.a);
    HeaderRoot(RowsOf(t', w.a));
  }

  lemma HeaderOf(t: Tables, a: AccountId)
    ensures RowsOf(t, a).header == Get(t.latestHeaders, a)
  {
  }

  lemma WrittenHeaderRow(r: Rows, w: Write)
    ensures WrittenRows(r, w).header == Some(WrittenHeader(w))
  {
  }

  lemma HeaderRoot(r: Rows)
    ensures r.header.Some? ==> r.header.value.codeRoot in RowRoots(r)
  {
  }

  /**
   * Exactly when an operation keeps the code table complete: a write must name a root whose code row is already
   * stored; everything else always keeps it.
   */
  lemma StepKeepsCodeIff(t: Tables, g: Stacks, op: Op)
    requires Represents(t, g) && Enabled(g, op) && CodesClosed(t)
    ensures CodesClosed(Apply(t, op)) <==> KnownCode(t, op)
  {
    hide Represents, Enabled, CodesClosed, ApplyWrite;
    if KnownCode(t, op) {
      StepKeepsCode(t, g, op);
    } else {
      UnknownRootDangles(t, g, op.w);
    }
  }

  /** After every prefix of the run, every referenced code root has a code row. */
  ghost predicate ClosedThroughout(t: Tables, ops: seq<Op>) {
    forall n :: 0 <= n <= |ops| ==> CodesClosed(Run(t, ops[..n]))
  }

  lemma ClosedStep(t: Tables, ops: seq<Op>)
    requires ops != []
    ensures ClosedThroughout(t, ops) <==> CodesClosed(t) && ClosedThroughout(Apply(t, ops[0]), ops[1..])
  {
    hide CodesClosed, Apply;
    assert Run(t, ops[..0]) == t;
    forall n | 0 < n <= |ops| ensures Run(t, ops[..n]) == Run(Apply(t, ops[0]), ops[1..][..n - 1]) {
      assert ops[..n][0] == ops[0] && ops[..n][1..] == ops[1..][..n - 1];
    }
    if ClosedThroughout(t, ops) {
      assert CodesClosed(Run(t, ops[..0]));
      forall n | 0 <= n <= |ops[1..]| ensures CodesClosed(Run(Apply(t, ops[0]), ops[1..][..n])) {
        assert CodesClosed(Run(t, ops[..n + 1]));
      }
    }
  }

  /**
   * Exactly when a run keeps the code table complete all along: every write names a root whose code row is stored
   * at that moment.
   */
  lemma {:induction false} RunKeepsCodeIff(t: Tables, g: Stacks, ops: seq<Op>)
    requires Represents(t, g) && AllEnabled(g, ops) && CodesClosed(t)
    ensures ClosedThroughout(t, ops) <==> AllKnown(t, ops)
    decreases |ops|
  {
    hide Represents, Apply, AbstractApply, Enabled, CodesClosed, KnownCode, ClosedThroughout;
    if ops == [] {
      ClosedNow(t);
    } else {
      var t' := Apply(t, ops[0]);
      ClosedStep(t, ops);
      StepRefines(t, g, ops[0]);
      StepKeepsCodeIff(t, g, ops[0]);
      if CodesClosed(t') {
        RunKeepsCodeIff(t', AbstractApply(g, ops[0]), ops[1..]);
      } else {
        ClosedFirst(t', ops[1..]);
      }
    }
  }

  lemma ClosedNow(t: Tables)
    ensures ClosedThroughout(t, []) <==> CodesClosed(t)
  {
    hide CodesClosed;
    var none: seq<Op> := [];
    assert none[..0] == none && Run(t, none) == t;
  }

  lemma ClosedFirst(t: Tables, ops: seq<Op>)
    ensures ClosedThroughout(t, ops) ==> CodesClosed(t)
  {
    hide CodesClosed;
    assert ops[..0] == [] && Run(t, ops[..0]) == t;
  }

  /** A client that updates a tracked account to a state with code it has not stored. */
  lemma UnknownRootExample()
    ensures exists t, g, w ::
              Represents(t, g) && Enabled(g, WriteOp(w)) && CodesClosed(t) && !CodesClosed(ApplyWrite(t, w))
  {
    hide Represents, CodesClosed, Insert, ApplyWrite, EmptyTables;
    var h := Header("old", "", "", 0, true, None, "c0", false);
    var h' := h.(codeRoot := "new", nonce := 1, accountCommitment := "c1");
    var s, s' := Snapshot(h, NoContents), Snapshot(h', NoContents);
    var t, g, w := Insert(EmptyTables, "acct", s, "code"), map["acct" := [s]], FullWrite("acct", s');
    EmptyRepresents();
    NotRetainedIsFresh(EmptyTables, map[], "c0");
    InsertStarts(EmptyTables, map[], "acct", s, "code");
    EmptyClosed();
    StepKeepsCode(EmptyTables, map[], InsertOp("acct", s, "code"));
    InsertedCodes(s, "code");
    UnknownRootDangles(t, g, w);
  }

  lemma EmptyClosed()
    ensures CodesClosed(EmptyTables)
  {
  }

  lemma InsertedCodes(s: Snapshot, code: string)
    ensures Insert(EmptyTables, "acct", s, code).codes == map[s.header.codeRoot := code]
  {
    hide RowsOf, WithRows;
  }

  function NewRoots(op: Op): set<CodeRoot> {
    match op
    case InsertOp(_, s, _) => {s.header.codeRoot}
    case WriteOp(w) => {WrittenHeader(w).codeRoot}
    case ForeignCodeOp(_, root, _) => {root}
    case _ => {}
  }

  lemma PruneRoots(t: Tables, a: AccountId, upTo: nat)
    requires CodesClosed(t)
    ensures CodesClosed(Prune(t, a, upTo))
  {
    hide RowsOf, Prune, RowRoots, Referenced, PruneRows;
    forall b ensures RowRoots(RowsOf(Prune(t, a, upTo), b)) <= Referenced(t) {
      RowsOfPrune(t, a, upTo, b);
      PrunedRowRoots(RowsOf(t, b), upTo);
      RootsReferenced(t, b);
    }
    RowsOfPrune(t, a, upTo, a);
    ForeignReferenced(t);
    RootsCovered(Prune(t, a, upTo), Referenced(t));
    PruneKeepsReferencedCode(t, a, upTo);
  }

  lemma PrunedRowRoots(r: Rows, upTo: nat)
    ensures RowRoots(PruneRows(r, upTo)) <= RowRoots(r)
  {
    hide Forget;
  }

  lemma ForeignReferenced(t: Tables)
    ensures forall a :: a in t.foreignCodes ==> t.foreignCodes[a] in Referenced(t)
  {
  }

  lemma StepRoots(t: Tables, g: Stacks, op: Op, b: AccountId)
    requires Represents(t, g) && Enabled(g, op)
    ensures RowRoots(RowsOf(Apply(t, op), b)) <= Referenced(t) + NewRoots(op)
  {
    hide Represents, RowsOf, RowRoots, Referenced, Undo, UndoRows, Prune, PruneRows, Lock, LockRows, Insert,
         ApplyWrite, Pushed, Enabled, WrittenRows, DiscardedOf, WithRows, WriteNew;
    RootsReferenced(t, b);
    match op
    case InsertOp(a, s, code) =>
      InsertRows(t, g, a, s, code, b);
    case WriteOp(w) =>
      EnabledWrite(t, g, w);
      WritePushes(t, g, w);
      WrittenRoots(RowsOf(t, w.a), w);
    case UndoOp(cs) =>
      RowsOfUndo(t, Elements(cs), b);
      if DiscardedOf(t, Elements(cs), b) != {} { UndoRoots(RowsOf(t, b), DiscardedOf(t, Elements(cs), b)); }
    case PruneOp(a, upTo) =>
      RowsOfPrune(t, a, upTo, b);
      PrunedRowRoots(RowsOf(t, b), upTo);
    case LockOp(a) =>
      RowsOfLock(t, a, b);
      LockedRoots(RowsOf(t, b));
    case UnexpectedOp(a, digest) =>
      RowsOfLock(t, a, b);
      LockedRoots(RowsOf(t, b));
    case ForeignCodeOp(a, root, code) =>
      ForeignAside(t, a, root, code);
  }

  lemma EnabledWrite(t: Tables, g: Stacks, w: Write)
    requires Represents(t, g) && Enabled(g, WriteOp(w))
    ensures WriteEnabled(t, g, w)
  {
    hide Represents, Retained;
    NotRetainedIsFresh(t, g, WrittenHeader(w).accountCommitment);
  }

  lemma InsertRows(t: Tables, g: Stacks, a: AccountId, s: Snapshot, code: string, b: AccountId)
    requires Represents(t, g) && Enabled(g, InsertOp(a, s, code))
    ensures RowRoots(RowsOf(Insert(t, a, s, code), b)) <= RowRoots(RowsOf(t, b)) + {s.header.codeRoot}
  {
    hide RowsOf, Represents, Retained, Tracked, WithRows, SelfConsistent;
    NotRetainedIsFresh(t, g, s.header.accountCommitment);
    StartsRows(t, g, a, s);
    OwnFits(t, a, WriteNew(RowsOf(t, a), s));
    RowsOfWith(t, a, WriteNew(RowsOf(t, a), s), b);
    CodesAside(WithRows(t, a, WriteNew(RowsOf(t, a), s)), Insert(t, a, s, code).codes);
  }

  lemma WrittenRoots(r: Rows, w: Write)
    ensures RowRoots(WrittenRows(r, w)) <= RowRoots(r) + {WrittenHeader(w).codeRoot}
  {
    hide Patch, DeltaHistory, FullHistory;
    assert WrittenRows(r, w).header == Some(WrittenHeader(w));
    forall c | c in WrittenRows(r, w).archived ensures WrittenRows(r, w).archived[c].header.codeRoot in RowRoots(r) {
      if c in r.archived { assert r.archived[c].header.codeRoot in RowRoots(r); }
    }
  }

  lemma LockedRoots(r: Rows)
    ensures RowRoots(LockRows(r)) == RowRoots(r)
  {
    forall c | c in r.archived ensures LockRows(r).archived[c].header.codeRoot == r.archived[c].header.codeRoot { }
    forall root | root in RowRoots(r) ensures root in RowRoots(LockRows(r)) {
      if !(r.header.Some? && r.header.value.codeRoot == root) {
        var c :| c in r.archived && r.archived[c].header.codeRoot == root;
        assert LockRows(r).archived[c].header.codeRoot == root;
      }
    }
  }

  lemma StepForeign(t: Tables, op: Op, b: AccountId)
    requires b in Apply(t, op).foreignCodes
    ensures Apply(t, op).foreignCodes[b] in Referenced(t) + NewRoots(op)
  {
    hide RowsOf, Undo, Prune, WithRows, LockRows, Referenced, WrittenRows;
    ForeignReferenced(t);
    OthersKept(t, op);
  }

  /** Only a foreign-code record touches the foreign table; only it, an insertion and a prune touch the codes. */
  lemma OthersKept(t: Tables, op: Op)
    ensures !op.ForeignCodeOp? ==> Apply(t, op).foreignCodes == t.foreignCodes
    ensures op.WriteOp? || op.UndoOp? || op.LockOp? || op.UnexpectedOp? ==> Apply(t, op).codes == t.codes
  {
    hide RowsOf, Undo, LockRows, WrittenRows, PruneRows, CollectedRoots, WriteNew, WithSlice, WithOwnHeaders;
    if op.UndoOp? { RowsOfUndo(t, Elements(op.cs), ""); }
  }

  lemma StepCodes(t: Tables, op: Op)
    requires CodesClosed(t) && KnownCode(t, op) && !op.PruneOp?
    ensures Referenced(t) + NewRoots(op) <= Apply(t, op).codes.Keys
  {
    hide RowsOf, Undo, LockRows, WrittenRows, WriteNew, WithSlice, WithOwnHeaders, Referenced;
    OthersKept(t, op);
  }
}
