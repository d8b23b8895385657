/**
 * The lock over whole runs of the store: a lock marks every state there is, a write or an insertion puts an unlocked
 * state, and an undo goes back to whatever the state below says (crates/idxdb-store/src/js/accounts.js).
 */
module StoreLocks {
  import opened Common
  import opened VersionedRows
  import opened AccountRows
  import opened AccountTables
  import opened AccountStack
  import opened StoreRefinement
  import opened StoreLaws
  import opened StoreRuns

  /** New states are unlocked, as both writes and the insertion store them. */
  predicate Unlocked(op: Op) {
    match op
    case InsertOp(_, s, _) => !s.header.locked
    case WriteOp(w) => !WrittenHeader(w).locked
    case _ => true
  }

  /** The operation locks the account. */
  ghost predicate Locks(g: Stacks, op: Op, a: AccountId) {
    match op
    case LockOp(b) => b == a
    case UnexpectedOp(b, digest) => b == a && !Superseded(StackOf(g, a), digest)
    case _ => false
  }

  /**
   * Of the states that account `a` had at its last lock, `k` are left, at the bottom of its stack: how many are left
   * after one more operation.
   */
  ghost function LeftFromLock(g: Stacks, a: AccountId, k: nat, op: Op): nat {
    var stack := StackOf(g, a);
    if Locks(g, op, a) then |stack|
    else match op
      case UndoOp(cs) => if k < FirstDiscarded(stack, Elements(cs)) then k else FirstDiscarded(stack, Elements(cs))
      case PruneOp(b, upTo) =>
        var cut := |stack| - |DropOld(stack, upTo)|;
        if b != a then k else if cut < k then k - cut else 0
      case InsertOp(b, _, _) => if b == a then 0 else k
      case _ => k
  }

  ghost function LeftFromLockRun(g: Stacks, a: AccountId, k: nat, ops: seq<Op>): nat
    decreases |ops|
  {
    if ops == [] then k else LeftFromLockRun(AbstractApply(g, ops[0]), a, LeftFromLock(g, a, k, ops[0]), ops[1..])
  }

  /** Exactly the lowest `k` states are locked. */
  predicate LockedBelow(stack: Stack, k: nat) {
    k <= |stack| && forall i :: 0 <= i < |stack| ==> (stack[i].header.locked <==> i < k)
  }

  lemma PushKeepsLocks(stack: Stack, k: nat, s: Snapshot)
    requires LockedBelow(stack, k) && !s.header.locked
    ensures LockedBelow(stack + [s], k)
  {
  }

  lemma PopKeepsLocks(stack: Stack, k: nat, j: nat)
    requires LockedBelow(stack, k) && j <= |stack|
    ensures LockedBelow(stack[..j], if k < j then k else j)
  {
  }

  lemma DropKeepsLocks(stack: Stack, k: nat, cut: nat)
    requires LockedBelow(stack, k) && cut <= |stack|
    ensures LockedBelow(stack[cut..], if cut < k then k - cut else 0)
  {
  }

  lemma LockKeepsLocks(stack: Stack)
    ensures LockedBelow(LockStack(stack), |stack|)
  {
  }

  lemma SetAt(g: Stacks, b: AccountId, stack: Stack, a: AccountId)
    ensures StackOf(SetStack(g, b, stack), a) == if b == a then stack else StackOf(g, a)
  {
  }

  lemma PushedAt(g: Stacks, w: Write, a: AccountId)
    requires w.a in g && g[w.a] != []
    ensures StackOf(Pushed(g, w), a)
            == if w.a == a then StackOf(g, a) + [WrittenState(Top(StackOf(g, a)), w)] else StackOf(g, a)
  {
    hide WrittenState;
  }

  lemma PoppedAt(g: Stacks, cs: set<Commitment>, a: AccountId)
    ensures StackOf(PopStacks(g, cs), a) == StackOf(g, a)[..FirstDiscarded(StackOf(g, a), cs)]
  {
    hide FirstDiscarded;
  }

  lemma InsertStep(g: Stacks, a: AccountId, k: nat, b: AccountId, s: Snapshot, code: string)
    requires b !in g && !s.header.locked && LockedBelow(StackOf(g, a), k)
    ensures LockedBelow(StackOf(AbstractApply(g, InsertOp(b, s, code)), a), LeftFromLock(g, a, k, InsertOp(b, s, code)))
  {
    hide LockedBelow;
    NewLocks(s);
  }

  lemma WriteStep(g: Stacks, a: AccountId, k: nat, w: Write)
    requires w.a in g && g[w.a] != [] && !WrittenHeader(w).locked && LockedBelow(StackOf(g, a), k)
    ensures LockedBelow(StackOf(AbstractApply(g, WriteOp(w)), a), LeftFromLock(g, a, k, WriteOp(w)))
  {
    hide LockedBelow, Pushed, WrittenState;
    PushedAt(g, w, a);
    if w.a == a {
      assert !WrittenState(Top(StackOf(g, a)), w).header.locked by { WrittenStateHeader(Top(StackOf(g, a)), w); }
      PushKeepsLocks(StackOf(g, a), k, WrittenState(Top(StackOf(g, a)), w));
    }
  }

  lemma UndoStep(g: Stacks, a: AccountId, k: nat, cs: seq<Commitment>)
    requires LockedBelow(StackOf(g, a), k)
    ensures LockedBelow(StackOf(AbstractApply(g, UndoOp(cs)), a), LeftFromLock(g, a, k, UndoOp(cs)))
  {
    hide LockedBelow, PopStacks, StackOf, FirstDiscarded;
    PoppedAt(g, Elements(cs), a);
    PopKeepsLocks(StackOf(g, a), k, FirstDiscarded(StackOf(g, a), Elements(cs)));
  }

  lemma PruneStep(g: Stacks, a: AccountId, k: nat, b: AccountId, upTo: nat)
    requires LockedBelow(StackOf(g, a), k)
    ensures LockedBelow(StackOf(AbstractApply(g, PruneOp(b, upTo)), a), LeftFromLock(g, a, k, PruneOp(b, upTo)))
  {
    hide LockedBelow, SetStack, StackOf, DropOld;
    SetAt(g, b, DropOld(StackOf(g, b), upTo), a);
    PruneKeepsLocks(StackOf(g, a), k, upTo);
  }

  lemma PruneKeepsLocks(stack: Stack, k: nat, upTo: nat)
    requires LockedBelow(stack, k)
    ensures var cut := |stack| - |DropOld(stack, upTo)|;
            LockedBelow(DropOld(stack, upTo), if cut < k then k - cut else 0)
  {
    hide LockedBelow, DropOld;
    var kept := DropOld(stack, upTo);
    var cut := |stack| - |kept|;
    DropKeepsLocks(stack, k, cut);
    assert stack[cut..] == kept;
  }

  lemma LockStep(g: Stacks, a: AccountId, k: nat, op: Op)
    requires (op.LockOp? || op.UnexpectedOp?) && LockedBelow(StackOf(g, a), k)
    ensures LockedBelow(StackOf(AbstractApply(g, op), a), LeftFromLock(g, a, k, op))
  {
    hide LockedBelow, SetStack, StackOf, LockStack, Superseded;
    SetAt(g, op.a, LockStack(StackOf(g, op.a)), a);
    LockKeepsLocks(StackOf(g, a));
  }

  /** Every operation leaves exactly the states locked that are left from the last lock. */
  lemma StepKeepsLocks(g: Stacks, a: AccountId, k: nat, op: Op)
    requires Enabled(g, op) && Unlocked(op) && LockedBelow(StackOf(g, a), k)
    ensures LockedBelow(StackOf(AbstractApply(g, op), a), LeftFromLock(g, a, k, op))
  {
    hide LockedBelow, StackOf, Retained, SuffixClosed, KeepsTags;
    match op
    case InsertOp(b, s, code) => InsertStep(g, a, k, b, s, code);
    case WriteOp(w) => WriteStep(g, a, k, w);
    case UndoOp(cs) => UndoStep(g, a, k, cs);
    case PruneOp(b, upTo) => PruneStep(g, a, k, b, upTo);
    case LockOp(_) => LockStep(g, a, k, op);
    case UnexpectedOp(_, _) => LockStep(g, a, k, op);
    case ForeignCodeOp(_, _, _) =>
  }

  lemma NewLocks(s: Snapshot)
    requires !s.header.locked
    ensures LockedBelow([s], 0)
  {
  }

  lemma {:induction false} RunKeepsLocks(t: Tables, g: Stacks, a: AccountId, k: nat, ops: seq<Op>)
    requires Represents(t, g) && AllEnabled(g, ops) && LockedBelow(StackOf(g, a), k)
    requires forall i :: 0 <= i < |ops| ==> Unlocked(ops[i])
    ensures LockedBelow(StackOf(AbstractRun(g, ops), a), LeftFromLockRun(g, a, k, ops))
    decreases |ops|
  {
    hide Represents, Apply, AbstractApply, Enabled, LockedBelow, LeftFromLock, Unlocked;
    if ops != [] {
      StepRefines(t, g, ops[0]);
      StepKeepsLocks(g, a, k, ops[0]);
      RunKeepsLocks(Apply(t, ops[0]), AbstractApply(g, ops[0]), a, LeftFromLock(g, a, k, ops[0]), ops[1..]);
    }
  }

  /**
   * The lock over every run. Whatever operations follow, the account's current header is locked exactly when the
   * current state is one that it already had at its last lock: a write unlocks, an undo of that write locks again,
   * and neither prune nor undo alone ever unlocks.
   */
  lemma LockedIffFromLock(t: Tables, g: Stacks, a: AccountId, k: nat, ops: seq<Op>)
    requires Represents(t, g) && AllEnabled(g, ops) && LockedBelow(StackOf(g, a), k)
    requires forall i :: 0 <= i < |ops| ==> Unlocked(ops[i])
    ensures var header, stack := Get(Run(t, ops).latestHeaders, a), StackOf(AbstractRun(g, ops), a);
            && (header.Some? <==> stack != [])
            && (header.Some? ==> (header.value.locked <==> LeftFromLockRun(g, a, k, ops) == |stack|))
  {
    hide Represents, Run, AbstractRun, AllEnabled, Tracked, LeftFromLockRun;
    RunKeepsLocks(t, g, a, k, ops);
    RunRefines(t, g, ops);
    StoreTracks(Run(t, ops), AbstractRun(g, ops), a);
    TopIsCurrent(RowsOf(Run(t, ops), a), StackOf(AbstractRun(g, ops), a));
  }

  lemma TopIsCurrent(r: Rows, stack: Stack)
    requires Tracked(r, stack)
    ensures r.header == if stack == [] then None else Some(Top(stack).header)
  {
  }

  /** From the empty store, before any lock, nothing is locked. */
  lemma NothingLockedAtFirst(a: AccountId)
    ensures Represents(EmptyTables, map[]) && LockedBelow(StackOf(map[], a), 0)
  {
    hide Represents, EmptyTables;
    EmptyRepresents();
  }
}
