/** Undo on the tables of all accounts, and the laws between the store's operations. */
module StoreLaws {
  import opened Common
  import opened VersionedRows
  import opened AccountRows
  import opened AccountTables
  import opened AccountStack
  import opened StoreRefinement

  // ---------------------------------------------------------------- undo

  /** Each retained state of a stack has its commitment in the tables. */
  lemma StateCommitted(r: Rows, stack: Stack, i: nat)
    requires Tracked(r, stack) && i < |stack|
    ensures stack[i].header.accountCommitment in Commitments(r)
    ensures i < |stack| - 1 ==>
              Get(r.archived, stack[i].header.accountCommitment)
              == Some(OldHeader(stack[i + 1].header.nonce, stack[i].header))
    ensures i == |stack| - 1 ==> r.header == Some(stack[i].header)
  {
    if i < |stack| - 1 { assert StepAt(r, stack, i); }
  }

  /** The commitments of superseded states resolve to no latest header. */
  lemma SupersededNotLatest(t: Tables, a: AccountId, c: Commitment)
    requires Injective(t) && c in RowsOf(t, a).archived
    ensures !IsLatest(t, c)
  {
    forall b | b in t.latestHeaders ensures t.latestHeaders[b].accountCommitment != c {
      assert SelfConsistent(RowsOf(t, a));
      assert t.latestHeaders[b].accountCommitment in Commitments(RowsOf(t, b));
      if b != a { assert Commitments(RowsOf(t, a)) !! Commitments(RowsOf(t, b)); }
    }
  }

  /** The nonces the discarded commitments resolve to are those of the discarded states. */
  lemma DiscardedMatches(t: Tables, g: Stacks, cs: set<Commitment>, a: AccountId)
    requires Represents(t, g)
    ensures DiscardedOf(t, cs, a) == DiscardedNonces(StackOf(g, a), cs)
  {
    hide RowsOf, Tracked, Injective, DiscardedOf;
    var r, stack := RowsOf(t, a), StackOf(g, a);
    assert Tracked(r, stack);
    forall n | n in DiscardedOf(t, cs, a) ensures n in DiscardedNonces(stack, cs) {
      DiscardedIsState(t, a, stack, cs, n);
    }
    forall n | n in DiscardedNonces(stack, cs) ensures n in DiscardedOf(t, cs, a) {
      var i :| 0 <= i < |stack| && stack[i].header.accountCommitment in cs && stack[i].header.nonce == n;
      StateIsDiscarded(t, a, stack, cs, i);
    }
  }

  lemma HeaderDiscarded(r: Rows, stack: Stack, cs: set<Commitment>)
    requires Tracked(r, stack) && r.header.Some? && r.header.value.accountCommitment in cs
    ensures r.header.value.nonce in DiscardedNonces(stack, cs)
  {
    assert stack[|stack| - 1].header == r.header.value;
  }

  lemma ArchivedDiscarded(r: Rows, stack: Stack, cs: set<Commitment>, c: Commitment)
    requires Tracked(r, stack) && c in r.archived && c in cs
    ensures r.archived[c].header.nonce in DiscardedNonces(stack, cs)
  {
    hide Tracked;
    var i := ArchivedStep(r, stack, c);
    assert stack[i].header.accountCommitment in cs;
  }

  lemma DiscardedIsState(t: Tables, a: AccountId, stack: Stack, cs: set<Commitment>, n: nat)
    requires Tracked(RowsOf(t, a), stack) && n in DiscardedOf(t, cs, a)
    ensures n in DiscardedNonces(stack, cs)
  {
    hide Tracked, DiscardedNonces, Slice;
    var r := RowsOf(t, a);
    if a in t.latestHeaders && t.latestHeaders[a].accountCommitment in cs && t.latestHeaders[a].nonce == n {
      HeaderDiscarded(r, stack, cs);
    } else {
      var c :| c in cs && c in t.historicalHeaders && t.historicalHeaders[c].id == a
          && t.historicalHeaders[c].old_.header.nonce == n;
      ArchivedDiscarded(r, stack, cs, c);
    }
  }

  lemma StateIsDiscarded(t: Tables, a: AccountId, stack: Stack, cs: set<Commitment>, i: nat)
    requires Injective(t) && Tracked(RowsOf(t, a), stack)
    requires i < |stack| && stack[i].header.accountCommitment in cs
    ensures stack[i].header.nonce in DiscardedOf(t, cs, a)
  {
    hide HistoryNonces, Restore, Tracked, Injective;
    var c := stack[i].header.accountCommitment;
    StateCommitted(RowsOf(t, a), stack, i);
    if i < |stack| - 1 {
      SupersededNotLatest(t, a, c);
      assert c in t.historicalHeaders && t.historicalHeaders[c].old_.header == stack[i].header;
    }
  }

  /** The stacks once the discarded states are popped; an account popped to nothing is gone. */
  function PopStacks(g: Stacks, cs: set<Commitment>): Stacks {
    map a | a in g && FirstDiscarded(g[a], cs) > 0 :: g[a][..FirstDiscarded(g[a], cs)]
  }

  lemma UndoOwn(r: Rows, ns: set<nat>)
    requires ns != {} && SelfConsistent(r)
    ensures SelfConsistent(UndoRows(r, ns))
    ensures Commitments(UndoRows(r, ns)) <= Commitments(r)
  {
    hide Forget, UndoContents;
    var n := MinOf(ns);
    if c :| ReplacedAt(r, n, c) {
      var c' :| ReplacedAt(r, n, c') && PreviousHeader(r, n) == Some(r.archived[c'].header);
    }
  }

  lemma UndoInjective(t: Tables, cs: set<Commitment>)
    requires Injective(t)
    ensures Injective(Undo(t, cs))
  {
    hide RowsOf, UndoRows, Undo, SelfConsistent, Commitments, DiscardedOf;
    var t' := Undo(t, cs);
    forall b ensures SelfConsistent(RowsOf(t', b)) && Commitments(RowsOf(t', b)) <= Commitments(RowsOf(t, b)) {
      RowsOfUndo(t, cs, b);
      assert SelfConsistent(RowsOf(t, b));
      if DiscardedOf(t, cs, b) != {} { UndoOwn(RowsOf(t, b), DiscardedOf(t, cs, b)); }
    }
    forall a, b | a != b ensures Commitments(RowsOf(t', a)) !! Commitments(RowsOf(t', b)) {
      assert Commitments(RowsOf(t, a)) !! Commitments(RowsOf(t, b));
      assert Commitments(RowsOf(t', a)) <= Commitments(RowsOf(t, a))
             && Commitments(RowsOf(t', b)) <= Commitments(RowsOf(t, b));
    }
  }

  lemma NothingDiscarded(stack: Stack, cs: set<Commitment>)
    requires DiscardedNonces(stack, cs) == {}
    ensures FirstDiscarded(stack, cs) == |stack| && SuffixClosed(stack, cs)
  {
    assert forall i ::
             0 <= i < |stack| && stack[i].header.accountCommitment in cs
             ==> stack[i].header.nonce in DiscardedNonces(stack, cs);
  }

  /** One account under an undo of the whole store. */
  lemma UndoTracked(t: Tables, g: Stacks, cs: set<Commitment>, a: AccountId)
    requires Represents(t, g)
    ensures (exists stack :: Tracked(RowsOf(Undo(t, cs), a), stack)) <==> SuffixClosed(StackOf(g, a), cs)
    ensures SuffixClosed(StackOf(g, a), cs) ==>
              Tracked(RowsOf(Undo(t, cs), a), StackOf(g, a)[..FirstDiscarded(StackOf(g, a), cs)])
  {
    hide RowsOf, UndoRows, Undo, Tracked, FirstDiscarded, DiscardedOf, DiscardedNonces, Injective, SuffixClosed;
    var stack := StackOf(g, a);
    assert Tracked(RowsOf(t, a), stack);
    DiscardedMatches(t, g, cs, a);
    RowsOfUndo(t, cs, a);
    if DiscardedNonces(stack, cs) == {} {
      NothingDiscarded(stack, cs);
      assert stack[..FirstDiscarded(stack, cs)] == stack;
    } else {
      UndoPopsIff(RowsOf(t, a), stack, cs);
    }
  }

  /**
   * Discarding states over several accounts at once leaves the tables of some stacks exactly when, in
   * every account, the discarded states are the top of its stack; each is then popped to the state
   * below, and an account with nothing below is gone.
   */
  lemma UndoPopsStoreIff(t: Tables, g: Stacks, cs: set<Commitment>)
    requires Represents(t, g)
    ensures (exists g' :: Represents(Undo(t, cs), g')) <==> forall a :: SuffixClosed(StackOf(g, a), cs)
    ensures (forall a :: SuffixClosed(StackOf(g, a), cs)) ==> Represents(Undo(t, cs), PopStacks(g, cs))
  {
    hide RowsOf, Undo, Tracked, FirstDiscarded, Injective, SuffixClosed;
    var t' := Undo(t, cs);
    forall a
      ensures (exists stack :: Tracked(RowsOf(t', a), stack)) <==> SuffixClosed(StackOf(g, a), cs)
      ensures SuffixClosed(StackOf(g, a), cs) ==> Tracked(RowsOf(t', a),
                                                          StackOf(g, a)[..FirstDiscarded(StackOf(g, a), cs)])
    {
      UndoTracked(t, g, cs, a);
    }
    if forall a :: SuffixClosed(StackOf(g, a), cs) {
      var g' := PopStacks(g, cs);
      forall a ensures Tracked(RowsOf(t', a), StackOf(g', a)) {
        assert SuffixClosed(StackOf(g, a), cs);
        assert StackOf(g', a) == StackOf(g, a)[..FirstDiscarded(StackOf(g, a), cs)];
      }
      UndoInjective(t, cs);
      assert Represents(t', g');
    }
    forall g' | Represents(t', g') ensures forall a :: SuffixClosed(StackOf(g, a), cs) {
      forall a ensures SuffixClosed(StackOf(g, a), cs) {
        assert Tracked(RowsOf(t', a), StackOf(g', a));
      }
    }
  }

  // ---------------------------------------------------------------- lock and undo

  lemma RowsOfLock(t: Tables, a: AccountId, b: AccountId)
    ensures RowsOf(Lock(t, a), b) == if b == a then LockRows(RowsOf(t, a)) else RowsOf(t, b)
  {
    hide Slice, WithSlice, LockHeader;
    assert forall c :: c in LockRows(RowsOf(t, a)).archived ==>
             c in t.historicalHeaders && t.historicalHeaders[c].id == a;
    RowsOfWith(t, a, LockRows(RowsOf(t, a)), b);
  }

  /** What the discarded commitments resolve to depends on commitments and nonces alone. */
  lemma SameDiscarded(t: Tables, t': Tables, g: Stacks, g': Stacks, cs: set<Commitment>, a: AccountId)
    requires Represents(t, g) && Represents(t', g')
    requires DiscardedNonces(StackOf(g, a), cs) == DiscardedNonces(StackOf(g', a), cs)
    ensures DiscardedOf(t, cs, a) == DiscardedOf(t', cs, a)
  {
    hide Represents, DiscardedOf;
    DiscardedMatches(t, g, cs, a);
    DiscardedMatches(t', g', cs, a);
  }

  lemma LockKeepsDiscarded(stack: Stack, cs: set<Commitment>)
    ensures DiscardedNonces(LockStack(stack), cs) == DiscardedNonces(stack, cs)
  {
    var locked := LockStack(stack);
    assert forall i :: 0 <= i < |stack| ==> locked[i].header.nonce == stack[i].header.nonce
                                            && locked[i].header.accountCommitment == stack[i].header.accountCommitment;
  }

  /** Locking then undoing any states gives the same tables as undoing then locking. */
  lemma LockUndoCommuteStore(t: Tables, g: Stacks, a: AccountId, cs: set<Commitment>)
    requires Represents(t, g)
    ensures Undo(Lock(t, a), cs) == Lock(Undo(t, cs), a)
  {
    hide RowsOf, Undo, UndoRows, LockRows, Lock, DiscardedOf, Tracked, WithRows;
    var locked := Lock(t, a);
    LockMarksStore(t, g, a);
    forall b ensures RowsOf(Undo(locked, cs), b) == RowsOf(Lock(Undo(t, cs), a), b) {
      LockKeepsDiscarded(StackOf(g, a), cs);
      SetStackDiscarded(g, a, LockStack(StackOf(g, a)), cs, b);
      SameDiscarded(t, locked, g, SetStack(g, a, LockStack(StackOf(g, a))), cs, b);
      RowsOfUndo(locked, cs, b);
      RowsOfUndo(t, cs, b);
      RowsOfLock(t, a, b);
      RowsOfLock(Undo(t, cs), a, b);
      TrackedReplacesOnce(RowsOf(t, b), StackOf(g, b));
      if DiscardedOf(t, cs, b) != {} { LockUndoCommute(RowsOf(t, b), DiscardedOf(t, cs, b)); }
    }
    RowsOfUndo(locked, cs, a);
    RowsOfUndo(t, cs, a);
    LockCodes(t, a);
    LockCodes(Undo(t, cs), a);
    RowsDetermine(Undo(locked, cs), Lock(Undo(t, cs), a));
  }

  lemma LockCodes(t: Tables, a: AccountId)
    ensures Lock(t, a).codes == t.codes && Lock(t, a).foreignCodes == t.foreignCodes
  {
  }

  ghost predicate AllLocked(r: Rows) {
    && (r.header.Some? ==> r.header.value.locked)
    && forall c :: c in r.archived ==> r.archived[c].header.locked
  }

  ghost function UndoEach(t: Tables, batches: seq<set<Commitment>>): Tables
    decreases |batches|
  {
    if batches == [] then t else UndoEach(Undo(t, batches[0]), batches[1..])
  }

  /** However many undos follow a lock, whatever is left of the account is locked. */
  lemma {:induction false} UndosKeepLock(t: Tables, a: AccountId, batches: seq<set<Commitment>>)
    requires AllLocked(RowsOf(t, a))
    ensures AllLocked(RowsOf(UndoEach(t, batches), a))
    decreases |batches|
  {
    hide RowsOf, Undo, UndoRows, AllLocked, DiscardedOf;
    if batches != [] {
      RowsOfUndo(t, batches[0], a);
      if DiscardedOf(t, batches[0], a) != {} { UndoKeepsLock(RowsOf(t, a), DiscardedOf(t, batches[0], a)); }
      UndosKeepLock(Undo(t, batches[0]), a, batches[1..]);
    }
  }

  lemma UndoKeepsLock(r: Rows, ns: set<nat>)
    requires AllLocked(r) && ns != {}
    ensures AllLocked(UndoRows(r, ns))
  {
    hide Forget, UndoContents;
    var n := MinOf(ns);
    if c :| ReplacedAt(r, n, c) {
      var c' :| ReplacedAt(r, n, c') && PreviousHeader(r, n) == Some(r.archived[c'].header);
    }
  }

  // ---------------------------------------------------------------- prune and undo

  lemma RowsOfPrune(t: Tables, a: AccountId, upTo: nat, b: AccountId)
    ensures RowsOf(Prune(t, a, upTo), b) == if b == a then PruneRows(RowsOf(t, a), upTo) else RowsOf(t, b)
    ensures Prune(t, a, upTo).foreignCodes == t.foreignCodes
  {
    hide Slice, WithSlice, Forget, CollectedRoots;
    assert forall c :: c in PruneRows(RowsOf(t, a), upTo).archived ==>
             c in t.historicalHeaders && t.historicalHeaders[c].id == a;
    RowsOfWith(t, a, PruneRows(RowsOf(t, a), upTo), b);
    CodesAside(PruneAccount(t, a, upTo), Prune(t, a, upTo).codes);
  }

  /** States dropped by a prune have nonces at or below its bound. */
  lemma PruneKeepsDiscarded(r: Rows, stack: Stack, upTo: nat, cs: set<Commitment>)
    requires Tracked(r, stack) && forall n :: n in DiscardedNonces(stack, cs) ==> upTo < n
    ensures DiscardedNonces(DropOld(stack, upTo), cs) == DiscardedNonces(stack, cs)
  {
    hide DropOld, Tracked;
    var kept := DropOld(stack, upTo);
    var cut := |stack| - |kept|;
    forall n | n in DiscardedNonces(stack, cs) ensures n in DiscardedNonces(kept, cs) {
      var i :| 0 <= i < |stack| && stack[i].header.accountCommitment in cs && stack[i].header.nonce == n;
      if i < cut { NoncesRise(r, stack, i, cut); }
      assert kept[i - cut] == stack[i];
    }
    assert forall i :: 0 <= i < |kept| ==> kept[i] == stack[cut + i];
  }

  /**
   * Pruning up to a nonce and undoing only states above it commute on every account table; in
   * particular the undo restores the same current rows with and without the prune.
   */
  lemma PruneUndoCommuteStore(t: Tables, g: Stacks, a: AccountId, upTo: nat, cs: set<Commitment>)
    requires Represents(t, g) && forall n :: n in DiscardedOf(t, cs, a) ==> upTo < n
    ensures forall b :: RowsOf(Undo(Prune(t, a, upTo), cs), b) == RowsOf(Prune(Undo(t, cs), a, upTo), b)
    ensures forall b :: RowsOf(Undo(Prune(t, a, upTo), cs), b).header == RowsOf(Undo(t, cs), b).header
    ensures forall b :: RowsOf(Undo(Prune(t, a, upTo), cs), b).contents == RowsOf(Undo(t, cs), b).contents
  {
    hide RowsOf, Undo, Prune, DiscardedOf, Represents;
    forall b
      ensures RowsOf(Undo(Prune(t, a, upTo), cs), b) == RowsOf(Prune(Undo(t, cs), a, upTo), b)
      ensures RowsOf(Undo(Prune(t, a, upTo), cs), b).header == RowsOf(Undo(t, cs), b).header
      ensures RowsOf(Undo(Prune(t, a, upTo), cs), b).contents == RowsOf(Undo(t, cs), b).contents
    {
      PruneUndoOne(t, g, a, upTo, cs, b);
    }
  }

  lemma PruneUndoOne(t: Tables, g: Stacks, a: AccountId, upTo: nat, cs: set<Commitment>, b: AccountId)
    requires Represents(t, g) && forall n :: n in DiscardedOf(t, cs, a) ==> upTo < n
    ensures RowsOf(Undo(Prune(t, a, upTo), cs), b) == RowsOf(Prune(Undo(t, cs), a, upTo), b)
    ensures RowsOf(Undo(Prune(t, a, upTo), cs), b).header == RowsOf(Undo(t, cs), b).header
    ensures RowsOf(Undo(Prune(t, a, upTo), cs), b).contents == RowsOf(Undo(t, cs), b).contents
  {
    hide RowsOf, Undo, UndoRows, PruneRows, Prune, DiscardedOf, Represents;
    var pruned := Prune(t, a, upTo);
    PruneSameDiscarded(t, g, a, upTo, cs, b);
    RowsOfUndo(pruned, cs, b);
    RowsOfUndo(t, cs, b);
    RowsOfPrune(t, a, upTo, b);
    RowsOfPrune(Undo(t, cs), a, upTo, b);
    StoreReplacesOnce(t, g, b);
    PruneKeepsCurrent(RowsOf(t, b), upTo);
    if b == a && DiscardedOf(t, cs, b) != {} { PruneUndoCommute(RowsOf(t, b), upTo, DiscardedOf(t, cs, b)); }
  }

  /** Rows of the empty stack are no rows. */
  lemma NoRowsLeft(r: Rows, r': Rows)
    requires Tracked(r, []) && Tracked(r', [])
    ensures r == r'
  {
    assert LaterNonces([]) == {};
    NoHistory(r.history);
    NoHistory(r'.history);
    assert r.archived == map[] && r'.archived == map[];
  }

  lemma NoHistory(h: History)
    requires HistoryNonces(h) == {}
    ensures h == History(map[], map[], map[])
  {
    NoPast(h.slots);
    NoPast(h.entries);
    NoPast(h.assets);
  }

  lemma NoPast<K(!new), T>(h: Past<K, T>)
    requires NoncesOf(h) == {}
    ensures h == map[]
  {
    hide NoncesOf;
    forall q: (nat, K) ensures q !in h {
      var (n, k) := q;
      RowsBelong(h, n, k);
    }
  }

  lemma FirstDiscardedIs(stack: Stack, cs: set<Commitment>, j: nat)
    requires j <= |stack| && (j < |stack| ==> stack[j].header.accountCommitment in cs)
    requires forall i :: 0 <= i < j ==> stack[i].header.accountCommitment !in cs
    ensures FirstDiscarded(stack, cs) == j
  {
  }

  lemma SuffixOfSuffix(stack: Stack, cut: nat, cs: set<Commitment>)
    requires SuffixClosed(stack, cs) && cut <= |stack|
    ensures SuffixClosed(stack[cut..], cs)
  {
    forall i, j | 0 <= i < j < |stack[cut..]| && stack[cut..][i].header.accountCommitment in cs
      ensures stack[cut..][j].header.accountCommitment in cs
    {
      assert stack[cut + i].header.accountCommitment in cs ==> stack[cut + j].header.accountCommitment in cs;
    }
  }

  /** Where the discarded states begin, seen from above a cut. */
  lemma CutShiftsFirst(stack: Stack, cut: nat, cs: set<Commitment>)
    requires SuffixClosed(stack, cs) && cut <= |stack|
    ensures var j := FirstDiscarded(stack, cs); FirstDiscarded(stack[cut..], cs) == if cut < j then j - cut else 0
  {
    hide FirstDiscarded;
    var kept, j := stack[cut..], FirstDiscarded(stack, cs);
    if cut < j {
      FirstDiscardedIs(kept, cs, j - cut);
    } else {
      if cut < |stack| {
        assert j == cut || stack[cut].header.accountCommitment in cs;
      }
      FirstDiscardedIs(kept, cs, 0);
    }
  }

  lemma PruneShiftsFirst(stack: Stack, upTo: nat, cs: set<Commitment>)
    requires SuffixClosed(stack, cs)
    ensures var cut, j := |stack| - |DropOld(stack, upTo)|, FirstDiscarded(stack, cs);
            && SuffixClosed(DropOld(stack, upTo), cs)
            && FirstDiscarded(DropOld(stack, upTo), cs) == if cut < j then j - cut else 0
  {
    hide DropOld, SuffixClosed, FirstDiscarded;
    var cut := |stack| - |DropOld(stack, upTo)|;
    SuffixOfSuffix(stack, cut, cs);
    CutShiftsFirst(stack, cut, cs);
  }

  lemma PruneThenUndo(t: Tables, g: Stacks, a: AccountId, upTo: nat, cs: set<Commitment>)
    requires Represents(t, g) && SuffixClosed(StackOf(g, a), cs)
    ensures var kept := DropOld(StackOf(g, a), upTo);
            Tracked(RowsOf(Undo(Prune(t, a, upTo), cs), a), kept[..FirstDiscarded(kept, cs)])
  {
    hide *;
    var kept := DropOld(StackOf(g, a), upTo);
    PruneShiftsFirst(StackOf(g, a), upTo, cs);
    PruneDropsStore(t, g, a, upTo);
    SetStackAt(g, a, kept);
    UndoTracked(Prune(t, a, upTo), SetStack(g, a, kept), cs, a);
  }

  lemma UndoThenPrune(t: Tables, g: Stacks, a: AccountId, upTo: nat, cs: set<Commitment>)
    requires Represents(t, g) && SuffixClosed(StackOf(g, a), cs)
    ensures var stack, j := StackOf(g, a), FirstDiscarded(StackOf(g, a), cs);
            Tracked(RowsOf(Prune(Undo(t, cs), a, upTo), a), DropOld(stack[..j], upTo))
  {
    hide *;
    var stack := StackOf(g, a);
    UndoTracked(t, g, cs, a);
    RowsOfPrune(Undo(t, cs), a, upTo, a);
    PruneDropsBottom(RowsOf(Undo(t, cs), a), stack[..FirstDiscarded(stack, cs)], upTo);
  }

  lemma SetStackAt(g: Stacks, a: AccountId, stack: Stack)
    ensures StackOf(SetStack(g, a, stack), a) == stack
  {
  }

  /** The discarded states lie above the cut of the prune, or all states are discarded. */
  predicate PruneHarmless(stack: Stack, upTo: nat, cs: set<Commitment>) {
    var j := FirstDiscarded(stack, cs);
    j == 0 || |stack| - |DropOld(stack, upTo)| < j
  }

  lemma {:induction false} DiscardedAboveCut(r: Rows, stack: Stack, upTo: nat, cs: set<Commitment>)
    requires Tracked(r, stack) && |stack| - |DropOld(stack, upTo)| < FirstDiscarded(stack, cs)
    ensures forall n :: n in DiscardedNonces(stack, cs) ==> upTo < n
  {
    hide Tracked, DropOld, FirstDiscarded;
    CutAbove(r, stack, upTo, |stack| - |DropOld(stack, upTo)|);
    forall n | n in DiscardedNonces(stack, cs) ensures upTo < n {
      var i :| 0 <= i < |stack| && stack[i].header.accountCommitment in cs && stack[i].header.nonce == n;
      assert FirstDiscarded(stack, cs) <= i;
    }
  }

  /**
   * Exactly when a prune leaves an undo alone. For discarded states that are the top of the account's stack, prune and
   * undo commute on every account table, and the undo goes back to the header it would go back to without the prune,
   * if and only if all states of the account are discarded or the lowest discarded one lies above the prune's cut.
   */
  lemma PruneUndoCommuteIff(t: Tables, g: Stacks, a: AccountId, upTo: nat, cs: set<Commitment>)
    requires Represents(t, g) && SuffixClosed(StackOf(g, a), cs)
    ensures (forall b :: RowsOf(Undo(Prune(t, a, upTo), cs), b) == RowsOf(Prune(Undo(t, cs), a, upTo), b))
            <==> PruneHarmless(StackOf(g, a), upTo, cs)
    ensures RowsOf(Undo(Prune(t, a, upTo), cs), a).header == RowsOf(Undo(t, cs), a).header
            <==> PruneHarmless(StackOf(g, a), upTo, cs)
  {
    hide RowsOf, Undo, Prune, Tracked, FirstDiscarded, DropOld, Represents, SuffixClosed, StackOf, DiscardedOf,
         DiscardedNonces;
    var stack := StackOf(g, a);
    var j, cut := FirstDiscarded(stack, cs), |stack| - |DropOld(stack, upTo)|;
    UndoTracked(t, g, cs, a);
    PruneThenUndo(t, g, a, upTo, cs);
    UndoThenPrune(t, g, a, upTo, cs);
    PruneShiftsFirst(stack, upTo, cs);
    StoreTracks(t, g, a);
    if cut < j {
      DiscardedAboveCut(RowsOf(t, a), stack, upTo, cs);
      DiscardedMatches(t, g, cs, a);
      PruneUndoCommuteStore(t, g, a, upTo, cs);
    } else if j == 0 {
      AllGone(t, g, a, upTo, cs);
    } else {
      HeaderLost(RowsOf(Undo(Prune(t, a, upTo), cs), a), RowsOf(Undo(t, cs), a), RowsOf(Prune(Undo(t, cs), a, upTo), a),
                 stack[..j], DropOld(stack[..j], upTo));
    }
  }

  /** Rows of no state against rows of some: their headers differ. */
  lemma HeaderLost(none: Rows, some: Rows, some': Rows, stack: Stack, stack': Stack)
    requires Tracked(none, []) && Tracked(some, stack) && Tracked(some', stack') && stack != [] && stack' != []
    ensures none.header != some.header && none != some'
  {
  }

  lemma AllGone(t: Tables, g: Stacks, a: AccountId, upTo: nat, cs: set<Commitment>)
    requires Represents(t, g) && SuffixClosed(StackOf(g, a), cs) && FirstDiscarded(StackOf(g, a), cs) == 0
    ensures forall b :: RowsOf(Undo(Prune(t, a, upTo), cs), b) == RowsOf(Prune(Undo(t, cs), a, upTo), b)
    ensures RowsOf(Undo(Prune(t, a, upTo), cs), a).header == RowsOf(Undo(t, cs), a).header
  {
    hide RowsOf, Undo, Prune, Tracked, FirstDiscarded, DropOld, Represents, SuffixClosed, StackOf;
    var stack := StackOf(g, a);
    UndoTracked(t, g, cs, a);
    PruneThenUndo(t, g, a, upTo, cs);
    UndoThenPrune(t, g, a, upTo, cs);
    PruneShiftsFirst(stack, upTo, cs);
    assert stack[..0] == [];
    NoRowsLeft(RowsOf(Undo(Prune(t, a, upTo), cs), a), RowsOf(Prune(Undo(t, cs), a, upTo), a));
    NoRowsLeft(RowsOf(Undo(Prune(t, a, upTo), cs), a), RowsOf(Undo(t, cs), a));
    forall b ensures RowsOf(Undo(Prune(t, a, upTo), cs), b) == RowsOf(Prune(Undo(t, cs), a, upTo), b) {
      if b != a {
        OthersUnpruned(t, g, a, upTo, cs, b);
      }
    }
  }

  lemma OthersUnpruned(t: Tables, g: Stacks, a: AccountId, upTo: nat, cs: set<Commitment>, b: AccountId)
    requires Represents(t, g) && b != a
    ensures RowsOf(Undo(Prune(t, a, upTo), cs), b) == RowsOf(Prune(Undo(t, cs), a, upTo), b)
  {
    hide RowsOf, Undo, Prune, UndoRows, DiscardedOf, Represents, DropOld, DiscardedNonces;
    var g' := SetStack(g, a, DropOld(StackOf(g, a), upTo));
    PruneDropsStore(t, g, a, upTo);
    DiscardedMatches(t, g, cs, b);
    DiscardedMatches(Prune(t, a, upTo), g', cs, b);
    assert StackOf(g', b) == StackOf(g, b);
    RowsOfUndo(Prune(t, a, upTo), cs, b);
    RowsOfUndo(t, cs, b);
    RowsOfPrune(t, a, upTo, b);
    RowsOfPrune(Undo(t, cs), a, upTo, b);
  }

  lemma StoreReplacesOnce(t: Tables, g: Stacks, a: AccountId)
    requires Represents(t, g)
    ensures UniqueReplacement(RowsOf(t, a))
  {
    hide RowsOf, Tracked;
    TrackedReplacesOnce(RowsOf(t, a), StackOf(g, a));
  }

  lemma PruneSameDiscarded(t: Tables, g: Stacks, a: AccountId, upTo: nat, cs: set<Commitment>, b: AccountId)
    requires Represents(t, g) && forall n :: n in DiscardedOf(t, cs, a) ==> upTo < n
    ensures DiscardedOf(Prune(t, a, upTo), cs, b) == DiscardedOf(t, cs, b)
  {
    hide RowsOf, Prune, DiscardedOf, Tracked, DropOld, DiscardedNonces, Represents, SetStack, StackOf;
    var stack := StackOf(g, a);
    DiscardedMatches(t, g, cs, a);
    StoreTracks(t, g, a);
    PruneKeepsDiscarded(RowsOf(t, a), stack, upTo, cs);
    SetStackDiscarded(g, a, DropOld(stack, upTo), cs, b);
    PruneDropsStore(t, g, a, upTo);
    SameDiscarded(t, Prune(t, a, upTo), g, SetStack(g, a, DropOld(stack, upTo)), cs, b);
  }

  lemma StoreTracks(t: Tables, g: Stacks, a: AccountId)
    requires Represents(t, g)
    ensures Tracked(RowsOf(t, a), StackOf(g, a))
  {
  }

  lemma SetStackDiscarded(g: Stacks, a: AccountId, stack: Stack, cs: set<Commitment>, b: AccountId)
    requires DiscardedNonces(stack, cs) == DiscardedNonces(StackOf(g, a), cs)
    ensures DiscardedNonces(StackOf(SetStack(g, a, stack), b), cs) == DiscardedNonces(StackOf(g, b), cs)
  {
    hide DiscardedNonces;
    assert StackOf(SetStack(g, a, stack), b) == if b == a then stack else StackOf(g, b);
  }

  lemma PruneKeepsCurrent(r: Rows, upTo: nat)
    ensures PruneRows(r, upTo).header == r.header && PruneRows(r, upTo).contents == r.contents
  {
  }

  // ---------------------------------------------------------------- undo takes back what was written

  /** A store write: a sparse delta or a full state. */
  datatype Write = DeltaWrite(a: AccountId, d: Delta) | FullWrite(a: AccountId, s: Snapshot)

  function WrittenHeader(w: Write): Header {
    if w.DeltaWrite? then w.d.header else w.s.header
  }

  function WrittenRows(r: Rows, w: Write): Rows {
    if w.DeltaWrite? then WriteDelta(r, w.d) else WriteFull(r, w.s)
  }

  function WrittenState(top: Snapshot, w: Write): Snapshot {
    if w.DeltaWrite? then DeltaState(top, w.d) else w.s
  }

  function ApplyWrite(t: Tables, w: Write): Tables {
    WithRows(t, w.a, WrittenRows(RowsOf(t, w.a), w))
  }

  /** The write is one the client makes: an existing account, a higher nonce, a new commitment, slot types kept. */
  ghost predicate WriteEnabled(t: Tables, g: Stacks, w: Write) {
    && w.a in g && g[w.a] != []
    && Top(g[w.a]).header.nonce < WrittenHeader(w).nonce
    && Fresh(t, WrittenHeader(w).accountCommitment)
    && (w.DeltaWrite? ==> KeepsTags(Top(g[w.a]).contents.slots, w.d.slots))
  }

  function Pushed(g: Stacks, w: Write): Stacks {
    if w.a in g && g[w.a] != [] then g[w.a := g[w.a] + [WrittenState(Top(g[w.a]), w)]] else g
  }

  lemma WritePushes(t: Tables, g: Stacks, w: Write)
    requires Represents(t, g) && WriteEnabled(t, g, w)
    ensures g[w.a] != [] && Represents(ApplyWrite(t, w), Pushed(g, w))
    ensures UndoRows(WrittenRows(RowsOf(t, w.a), w), {WrittenHeader(w).nonce}) == RowsOf(t, w.a)
    ensures forall b :: RowsOf(ApplyWrite(t, w), b) == if b == w.a then WrittenRows(RowsOf(t, w.a), w) else RowsOf(t, b)
  {
    hide RowsOf, UndoRows, WriteDelta, WriteFull, WithRows, Tracked, Injective, KeepsTags, Patch, Fresh;
    TopNotArchived(t, g, w.a);
    if w.DeltaWrite? {
      ApplyDeltaPushesIff(t, g, w.a, w.d);
      UndoInvertsDelta(RowsOf(t, w.a), g[w.a], w.d);
    } else {
      ApplyFullPushesIff(t, g, w.a, w.s);
      UndoInvertsFull(RowsOf(t, w.a), g[w.a], w.s);
    }
    WrittenArchive(RowsOf(t, w.a), w);
    SupersededFits(t, w.a, WrittenRows(RowsOf(t, w.a), w), WrittenHeader(w).nonce);
    OnlyRowsChange(t, w.a, WrittenRows(RowsOf(t, w.a), w));
  }

  lemma WrittenArchive(r: Rows, w: Write)
    ensures WrittenRows(r, w).archived == Supersede(r, WrittenHeader(w).nonce)
  {
  }

  /** A commitment that is new to the tables belongs to no state of any stack. */
  lemma FreshNotRetained(t: Tables, g: Stacks, c: Commitment, a: AccountId)
    requires Represents(t, g) && Fresh(t, c)
    ensures forall i :: 0 <= i < |StackOf(g, a)| ==> StackOf(g, a)[i].header.accountCommitment != c
  {
    hide RowsOf, Tracked, Injective, Commitments;
    forall i | 0 <= i < |StackOf(g, a)| ensures StackOf(g, a)[i].header.accountCommitment != c {
      StateCommitted(RowsOf(t, a), StackOf(g, a), i);
    }
  }

  /** A new state on top adds its own nonce to the discarded ones, exactly when it is discarded. */
  lemma PushedDiscarded(stack: Stack, s: Snapshot, cs: set<Commitment>)
    ensures DiscardedNonces(stack + [s], cs) ==
            DiscardedNonces(stack, cs) + if s.header.accountCommitment in cs then {s.header.nonce} else {}
  {
    var stack' := stack + [s];
    assert forall i :: 0 <= i < |stack| ==> stack'[i] == stack[i];
    assert stack'[|stack|] == s;
  }

  lemma OtherCommitment(stack: Stack, cs: set<Commitment>, c: Commitment)
    requires forall i :: 0 <= i < |stack| ==> stack[i].header.accountCommitment != c
    ensures DiscardedNonces(stack, cs + {c}) == DiscardedNonces(stack, cs)
  {
  }

  /** What a batch that includes the newest write resolves to: what it resolved to before, and the write's own nonce. */
  lemma DiscardedAfterWrite(t: Tables, g: Stacks, w: Write, cs: set<Commitment>, b: AccountId)
    requires Represents(t, g) && WriteEnabled(t, g, w)
    ensures DiscardedOf(ApplyWrite(t, w), cs + {WrittenHeader(w).accountCommitment}, b) ==
            DiscardedOf(t, cs, b) + if b == w.a then {WrittenHeader(w).nonce} else {}
    ensures forall n :: n in DiscardedOf(t, cs, w.a) ==> n < WrittenHeader(w).nonce
  {
    hide RowsOf, DiscardedOf, WithRows, Tracked, Injective, Fresh, DiscardedNonces, ApplyWrite, WrittenRows,
         WrittenState;
    var c := WrittenHeader(w).accountCommitment;
    WritePushes(t, g, w);
    FreshNotRetained(t, g, c, b);
    OtherCommitment(StackOf(g, b), cs, c);
    DiscardedMatches(t, g, cs, b);
    DiscardedMatches(ApplyWrite(t, w), Pushed(g, w), cs + {c}, b);
    WrittenStateHeader(Top(g[w.a]), w);
    PushedDiscarded(g[w.a], WrittenState(Top(g[w.a]), w), cs + {c});
    DiscardedMatches(t, g, cs, w.a);
    StoreTracks(t, g, w.a);
    DiscardedBelowTop(RowsOf(t, w.a), g[w.a], cs);
  }

  lemma WrittenStateHeader(top: Snapshot, w: Write)
    ensures WrittenState(top, w).header == WrittenHeader(w)
  {
  }

  lemma DiscardedBelowTop(r: Rows, stack: Stack, cs: set<Commitment>)
    requires Tracked(r, stack) && stack != []
    ensures forall n :: n in DiscardedNonces(stack, cs) ==> n <= Top(stack).header.nonce
  {
    hide Tracked;
    forall n | n in DiscardedNonces(stack, cs) ensures n <= Top(stack).header.nonce {
      var i :| 0 <= i < |stack| && stack[i].header.accountCommitment in cs && stack[i].header.nonce == n;
      NoncesRise(r, stack, i, |stack| - 1);
    }
  }

  /** Discarding the newest write along with a batch is discarding the batch before the write was made. */
  lemma UndoSkipsWrite(t: Tables, g: Stacks, w: Write, cs: set<Commitment>)
    requires Represents(t, g) && WriteEnabled(t, g, w)
    ensures Undo(ApplyWrite(t, w), cs + {WrittenHeader(w).accountCommitment}) == Undo(t, cs)
  {
    hide RowsOf, Undo, UndoRows, DiscardedOf, Represents, ApplyWrite, WrittenRows, WriteEnabled;
    var t', cs' := ApplyWrite(t, w), cs + {WrittenHeader(w).accountCommitment};
    forall b ensures RowsOf(Undo(t', cs'), b) == RowsOf(Undo(t, cs), b) {
      UndoSkipsWriteOne(t, g, w, cs, b);
    }
    RowsOfUndo(t', cs', w.a);
    RowsOfUndo(t, cs, w.a);
    WriteCodes(t, w);
    RowsDetermine(Undo(t', cs'), Undo(t, cs));
  }

  lemma WriteCodes(t: Tables, w: Write)
    ensures ApplyWrite(t, w).codes == t.codes && ApplyWrite(t, w).foreignCodes == t.foreignCodes
  {
  }

  lemma UndoSkipsWriteOne(t: Tables, g: Stacks, w: Write, cs: set<Commitment>, b: AccountId)
    requires Represents(t, g) && WriteEnabled(t, g, w)
    ensures RowsOf(Undo(ApplyWrite(t, w), cs + {WrittenHeader(w).accountCommitment}), b) == RowsOf(Undo(t, cs), b)
  {
    hide RowsOf, Undo, UndoRows, DiscardedOf, Represents, ApplyWrite, WrittenRows, WriteEnabled, Pushed;
    var t', c, n := ApplyWrite(t, w), WrittenHeader(w).accountCommitment, WrittenHeader(w).nonce;
    DiscardedAfterWrite(t, g, w, cs, b);
    RowsOfUndo(t', cs + {c}, b);
    RowsOfUndo(t, cs, b);
    WritePushes(t, g, w);
    if b == w.a {
      var lower := DiscardedOf(t, cs, b);
      if lower == {} {
        assert lower + {n} == {n};
      } else {
        StoreReplacesOnce(t', Pushed(g, w), b);
        WriteHasPrevious(t, g, w);
        assert MinOf({n}) == n;
        UndoSplits(RowsOf(t', b), lower, {n});
      }
    } else {
      assert DiscardedOf(t, cs, b) + {} == DiscardedOf(t, cs, b);
    }
  }

  lemma WriteHasPrevious(t: Tables, g: Stacks, w: Write)
    requires Represents(t, g) && WriteEnabled(t, g, w)
    ensures PreviousHeader(RowsOf(ApplyWrite(t, w), w.a), WrittenHeader(w).nonce).Some?
  {
    hide RowsOf, Tracked, Injective, ApplyWrite, WrittenState;
    WritePushes(t, g, w);
    var stack := Pushed(g, w)[w.a];
    WrittenStateHeader(Top(g[w.a]), w);
    StoreTracks(ApplyWrite(t, w), Pushed(g, w), w.a);
    PreviousIs(RowsOf(ApplyWrite(t, w), w.a), stack, |stack| - 1);
  }

  ghost function WriteAll(t: Tables, ws: seq<Write>): Tables {
    if ws == [] then t else ApplyWrite(WriteAll(t, ws[..|ws| - 1]), ws[|ws| - 1])
  }

  function PushAll(g: Stacks, ws: seq<Write>): Stacks {
    if ws == [] then g else Pushed(PushAll(g, ws[..|ws| - 1]), ws[|ws| - 1])
  }

  ghost predicate WritesEnabled(t: Tables, g: Stacks, ws: seq<Write>) {
    ws == [] ||
    (WritesEnabled(t, g, ws[..|ws| - 1]) && WriteEnabled(WriteAll(t, ws[..|ws| - 1]), PushAll(g, ws[..|ws| - 1]),
                                                         ws[|ws| - 1]))
  }

  lemma {:induction false} WritesPush(t: Tables, g: Stacks, ws: seq<Write>)
    requires Represents(t, g) && WritesEnabled(t, g, ws)
    ensures Represents(WriteAll(t, ws), PushAll(g, ws))
    decreases |ws|
  {
    hide Represents, WriteEnabled, ApplyWrite, Pushed;
    if ws != [] {
      WritesPush(t, g, ws[..|ws| - 1]);
      WritePushes(WriteAll(t, ws[..|ws| - 1]), PushAll(g, ws[..|ws| - 1]), ws[|ws| - 1]);
    }
  }

  function WrittenCommitments(ws: seq<Write>): set<Commitment> {
    if ws == [] then {} else WrittenCommitments(ws[..|ws| - 1]) + {WrittenHeader(ws[|ws| - 1]).accountCommitment}
  }

  lemma UndoNothing(t: Tables)
    ensures Undo(t, {}) == t
  {
    assert forall a :: DiscardedOf(t, {}, a) == {};
    assert Discarded(t, {}).Keys == {};
  }

  /**
   * Any run of writes over any number of accounts is taken back exactly, in every table, by one undo of
   * the commitments it wrote.
   */
  lemma {:induction false} UndoTakesBackRun(t: Tables, g: Stacks, ws: seq<Write>)
    requires Represents(t, g) && WritesEnabled(t, g, ws)
    ensures Undo(WriteAll(t, ws), WrittenCommitments(ws)) == t
    decreases |ws|
  {
    hide Undo, Represents, ApplyWrite, WriteEnabled, WrittenHeader;
    if ws == [] {
      UndoNothing(t);
    } else {
      var before, w := ws[..|ws| - 1], ws[|ws| - 1];
      WritesPush(t, g, before);
      UndoTakesBackRun(t, g, before);
      UndoSkipsWrite(WriteAll(t, before), PushAll(g, before), w, WrittenCommitments(before));
    }
  }

  /**
   * A sparse delta and the full state it leads to leave the same current tables and headers, although
   * the archived slots differ as soon as the delta leaves one slot alone; undoing either gives the
   * earlier tables back.
   */
  lemma SparseEqualsFull(t: Tables, g: Stacks, a: AccountId, d: Delta)
    requires Represents(t, g) && WriteEnabled(t, g, DeltaWrite(a, d))
    ensures g[a] != []
    ensures var sparse, full := ApplyDelta(t, a, d), ApplyFull(t, a, DeltaState(Top(g[a]), d));
            && sparse.latestSlots == full.latestSlots && sparse.latestEntries == full.latestEntries
            && sparse.latestAssets == full.latestAssets && sparse.latestHeaders == full.latestHeaders
            && sparse.historicalHeaders == full.historicalHeaders
            && Undo(sparse, {d.header.accountCommitment}) == Undo(full, {d.header.accountCommitment}) == t
    ensures forall k :: k in Top(g[a]).contents.slots && k !in d.slots ==>
              ApplyDelta(t, a, d).historicalSlots != ApplyFull(t, a, DeltaState(Top(g[a]), d)).historicalSlots
  {
    hide ApplyDelta, ApplyFull, ApplyWrite, Undo, Represents, WriteEnabled, DeltaState;
    FullToo(t, g, a, d);
    var s := DeltaState(Top(g[a]), d);
    SparseCurrent(t, g, a, d);
    SparseUndone(t, g, DeltaWrite(a, d));
    SparseUndone(t, g, FullWrite(a, s));
    WriteNames(t, a, d, s);
    forall k | k in Top(g[a]).contents.slots && k !in d.slots
      ensures ApplyDelta(t, a, d).historicalSlots != ApplyFull(t, a, s).historicalSlots
    {
      SparseDiffers(t, g, a, d, k);
    }
  }

  /** Where a delta may be written, so may the full state it leads to. */
  lemma FullToo(t: Tables, g: Stacks, a: AccountId, d: Delta)
    requires Represents(t, g) && WriteEnabled(t, g, DeltaWrite(a, d))
    ensures a in g && g[a] != []
    ensures WriteEnabled(t, g, FullWrite(a, DeltaState(Top(g[a]), d)))
    ensures DeltaState(Top(g[a]), d).header.accountCommitment == d.header.accountCommitment
  {
    hide Represents, Fresh, KeepsTags, Patch;
    StackNonEmpty(t, g, a);
  }

  lemma StackNonEmpty(t: Tables, g: Stacks, a: AccountId)
    requires Represents(t, g) && a in g
    ensures g[a] != []
  {
    hide Injective, Tracked;
  }

  lemma WriteNames(t: Tables, a: AccountId, d: Delta, s: Snapshot)
    ensures ApplyWrite(t, DeltaWrite(a, d)) == ApplyDelta(t, a, d)
    ensures ApplyWrite(t, FullWrite(a, s)) == ApplyFull(t, a, s)
  {
    hide RowsOf, WithRows, WriteDelta, WriteFull;
  }

  lemma SparseUndone(t: Tables, g: Stacks, w: Write)
    requires Represents(t, g) && WriteEnabled(t, g, w)
    ensures Undo(ApplyWrite(t, w), {WrittenHeader(w).accountCommitment}) == t
  {
    hide Undo, Represents, ApplyWrite, WriteEnabled;
    UndoSkipsWrite(t, g, w, {});
    UndoNothing(t);
    assert {} + {WrittenHeader(w).accountCommitment} == {WrittenHeader(w).accountCommitment};
  }

  lemma SparseCurrent(t: Tables, g: Stacks, a: AccountId, d: Delta)
    requires Represents(t, g) && a in g && g[a] != []
    ensures var sparse, full := ApplyDelta(t, a, d), ApplyFull(t, a, DeltaState(Top(g[a]), d));
            && sparse.latestSlots == full.latestSlots && sparse.latestEntries == full.latestEntries
            && sparse.latestAssets == full.latestAssets && sparse.latestHeaders == full.latestHeaders
            && sparse.historicalHeaders == full.historicalHeaders
  {
    hide WithSlice, RowsOf, DeltaHistory, FullHistory, Patch, WithOwnHeaders, Supersede, Injective;
    assert Tracked(RowsOf(t, a), StackOf(g, a));
  }

  lemma SparseDiffers(t: Tables, g: Stacks, a: AccountId, d: Delta, k: string)
    requires Represents(t, g) && WriteEnabled(t, g, DeltaWrite(a, d))
    requires k in Top(g[a]).contents.slots && k !in d.slots
    ensures ApplyDelta(t, a, d).historicalSlots != ApplyFull(t, a, DeltaState(Top(g[a]), d)).historicalSlots
  {
    hide Represents, WriteEnabled, RowsOf, Supersede, WithOwnHeaders, WithSlice, Slice, DeltaArchived, FullArchived,
         Patched;
    var r, n := RowsOf(t, a), d.header.nonce;
    NoRowsYet(t, g, DeltaWrite(a, d));
    ArchivesDiffer(r.history.slots, n, r.contents.slots, d.slots, k);
    SliceOfWith(t.historicalSlots, a, DeltaArchived(r.history.slots, n, r.contents.slots, d.slots), a);
    SliceOfWith(t.historicalSlots, a, FullArchived(r.history.slots, n, r.contents.slots,
                                                   Patched(r.contents.slots, d.slots)), a);
  }

  lemma ArchivesDiffer<K(!new), T>(h: Past<K, T>, n: nat, s: Current<K, T>, d: map<K, Update<T>>, k: K)
    requires n !in NoncesOf(h) && k in s && k !in d
    ensures DeltaArchived(h, n, s, d) != FullArchived(h, n, s, Patched(s, d))
  {
    RowsBelong(h, n, k);
    assert Get(DeltaArchived(h, n, s, d), (n, k)) == None;
    assert Get(FullArchived(h, n, s, Patched(s, d)), (n, k)).Some?;
  }

  lemma NoRowsYet(t: Tables, g: Stacks, w: Write)
    requires Represents(t, g) && WriteEnabled(t, g, w)
    ensures WrittenHeader(w).nonce !in NoncesOf(RowsOf(t, w.a).history.slots)
    ensures RowsOf(t, w.a).contents == Top(g[w.a]).contents
  {
    hide RowsOf;
    assert Tracked(RowsOf(t, w.a), StackOf(g, w.a));
    TopNonce(RowsOf(t, w.a), g[w.a], WrittenHeader(w).nonce);
  }
}
