/**
 * The rows of one account stand for a stack of complete snapshots: the oldest retained state at the
 * bottom, the current one on top, and the empty stack for an account that is absent.
 */
module AccountStack {
  import opened Common
  import opened VersionedRows
  import opened AccountRows

  type Stack = seq<Snapshot>

  function Top(stack: Stack): Snapshot
    requires stack != []
  {
    stack[|stack| - 1]
  }

  /** The nonces that replaced some retained state. */
  function LaterNonces(stack: Stack): set<nat> {
    set i | 1 <= i < |stack| :: stack[i].header.nonce
  }

  /** `c` is the commitment of a retained state that is no longer current. */
  ghost predicate Superseded(stack: Stack, c: Commitment) {
    exists i :: 0 <= i < |stack| - 1 && stack[i].header.accountCommitment == c
  }

  // ---------------------------------------------------------------- the abstraction relation

  /** The rows archived by state `after` lead back to state `before`. */
  ghost predicate Reverts(r: Rows, before: Snapshot, after: Snapshot) {
    && before.header.nonce < after.header.nonce
    && Restore(after.contents, r.history, after.header.nonce) == before.contents
    && Get(r.archived, before.header.accountCommitment) == Some(OldHeader(after.header.nonce, before.header))
  }

  /** The rows lead from state `i + 1` of the stack back to state `i`. */
  ghost predicate StepAt(r: Rows, stack: Stack, i: int)
    requires 0 <= i < |stack| - 1
  {
    Reverts(r, stack[i], stack[i + 1])
  }

  /** The rows represent the stack: its top is current, each step down is archived, and nothing else is. */
  ghost predicate Tracked(r: Rows, stack: Stack) {
    && r.header == (if stack == [] then None else Some(Top(stack).header))
    && r.contents == (if stack == [] then NoContents else Top(stack).contents)
    && HistoryNonces(r.history) <= LaterNonces(stack)
    && (forall c :: c in r.archived ==> Superseded(stack, c))
    && (forall i :: 0 <= i < |stack| - 1 ==> StepAt(r, stack, i))
  }

  /** Nonces rise along a stack. */
  lemma {:induction false} NoncesRise(r: Rows, stack: Stack, i: nat, j: nat)
    requires Tracked(r, stack) && i <= j < |stack|
    ensures if i == j then stack[i].header.nonce == stack[j].header.nonce
            else stack[i].header.nonce < stack[j].header.nonce
  {
    if i < j {
      assert StepAt(r, stack, j - 1);
      NoncesRise(r, stack, i, j - 1);
    }
  }

  /** An archived header sits at the step of the stack it was replaced in. */
  lemma ArchivedStep(r: Rows, stack: Stack, c: Commitment) returns (i: nat)
    requires Tracked(r, stack) && c in r.archived
    ensures i < |stack| - 1 && stack[i].header.accountCommitment == c
    ensures r.archived[c] == OldHeader(stack[i + 1].header.nonce, stack[i].header)
  {
    assert Superseded(stack, c);
    i :| 0 <= i < |stack| - 1 && stack[i].header.accountCommitment == c;
    assert StepAt(r, stack, i);
  }

  lemma ArchivedAreSuperseded(r: Rows, stack: Stack, c: Commitment)
    requires Tracked(r, stack)
    ensures c in r.archived <==> Superseded(stack, c)
  {
    if Superseded(stack, c) {
      var i :| 0 <= i < |stack| - 1 && stack[i].header.accountCommitment == c;
      assert StepAt(r, stack, i);
    }
  }

  /** Equal states at one height of two stacks over the same rows have equal states below them, if any. */
  lemma BelowUnique(r: Rows, stack: Stack, stack': Stack, i: nat, i': nat)
    requires Tracked(r, stack) && Tracked(r, stack')
    requires 0 < i < |stack| && i' < |stack'| && stack[i] == stack'[i']
    ensures 0 < i' && stack[i - 1] == stack'[i' - 1]
  {
    hide Restore, HistoryNonces, LaterNonces;
    assert StepAt(r, stack, i - 1);
    var j := ArchivedStep(r, stack', stack[i - 1].header.accountCommitment);
    if j + 1 < i' { NoncesRise(r, stack', j + 1, i'); }
    if i' < j + 1 { NoncesRise(r, stack', i', j + 1); }
    assert StepAt(r, stack', j);
  }

  lemma TopsAgree(r: Rows, stack: Stack, stack': Stack)
    requires Tracked(r, stack) && Tracked(r, stack') && stack != []
    ensures stack' != [] && Top(stack) == Top(stack')
  {
  }

  lemma {:induction false} TailsAgree(r: Rows, stack: Stack, stack': Stack, k: nat)
    requires Tracked(r, stack) && Tracked(r, stack') && k < |stack|
    ensures k < |stack'| && stack[|stack| - 1 - k] == stack'[|stack'| - 1 - k]
    decreases k
  {
    hide Tracked;
    if k == 0 {
      TopsAgree(r, stack, stack');
    } else {
      TailsAgree(r, stack, stack', k - 1);
      BelowUnique(r, stack, stack', |stack| - k, |stack'| - k);
    }
  }

  /** The rows determine the stack: whatever two stacks they represent are the same. */
  lemma TrackedUnique(r: Rows, stack: Stack, stack': Stack)
    requires Tracked(r, stack) && Tracked(r, stack')
    ensures stack == stack'
  {
    hide Tracked;
    if stack != [] { TailsAgree(r, stack, stack', |stack| - 1); }
    if stack' != [] { TailsAgree(r, stack', stack, |stack'| - 1); }
    forall i | 0 <= i < |stack| ensures stack[i] == stack'[i] {
      TailsAgree(r, stack, stack', |stack| - 1 - i);
    }
  }

  // ---------------------------------------------------------------- push

  lemma TopNonce(r: Rows, stack: Stack, n: nat)
    requires Tracked(r, stack) && stack != [] && Top(stack).header.nonce < n
    ensures n !in LaterNonces(stack) && n !in HistoryNonces(r.history)
  {
    if n in LaterNonces(stack) {
      var i :| 1 <= i < |stack| && stack[i].header.nonce == n;
      NoncesRise(r, stack, i, |stack| - 1);
    }
  }

  /** A write whose rows sit at a nonce above the top, and lead back to the top, pushes one state. */
  lemma PushTracked(r: Rows, r': Rows, stack: Stack, s: Snapshot)
    requires Tracked(r, stack) && stack != [] && Top(stack).header.accountCommitment !in r.archived
    requires r'.header == Some(s.header) && r'.contents == s.contents
    requires r'.archived == Supersede(r, s.header.nonce)
    requires HistoryNonces(r'.history) <= HistoryNonces(r.history) + {s.header.nonce}
    requires forall c, m | m in LaterNonces(stack) :: Restore(c, r'.history, m) == Restore(c, r.history, m)
    requires Reverts(r', Top(stack), s)
    ensures Tracked(r', stack + [s])
  {
    hide HistoryNonces, Restore;
    var stack' := stack + [s];
    assert stack'[|stack|].header.nonce in LaterNonces(stack');
    assert LaterNonces(stack) <= LaterNonces(stack') by {
      forall n | n in LaterNonces(stack) ensures n in LaterNonces(stack') {
        var i :| 1 <= i < |stack| && stack[i].header.nonce == n;
        assert stack'[i] == stack[i];
      }
    }
    forall c | c in r'.archived ensures Superseded(stack', c) {
      if c in r.archived {
        assert Superseded(stack, c);
        var i :| 0 <= i < |stack| - 1 && stack[i].header.accountCommitment == c;
        assert stack'[i] == stack[i];
      } else {
        assert stack'[|stack| - 1].header.accountCommitment == c;
      }
    }
    forall i | 0 <= i < |stack'| - 1 ensures StepAt(r', stack', i) {
      if i < |stack| - 1 {
        assert StepAt(r, stack, i);
        assert stack[i + 1].header.nonce in LaterNonces(stack);
        assert stack'[i] == stack[i] && stack'[i + 1] == stack[i + 1];
      }
    }
  }

  function DeltaState(s: Snapshot, d: Delta): Snapshot {
    Snapshot(d.header, Patch(s.contents, d))
  }

  /**
   * A sparse delta pushes one state exactly when its nonce is above the current one and it keeps the
   * type of every slot that already existed.
   */
  lemma DeltaPushesIff(r: Rows, stack: Stack, d: Delta)
    requires Tracked(r, stack) && stack != [] && Top(stack).header.accountCommitment !in r.archived
    ensures Tracked(WriteDelta(r, d), stack + [DeltaState(Top(stack), d)])
       <==> Top(stack).header.nonce < d.header.nonce && KeepsTags(Top(stack).contents.slots, d.slots)
  {
    hide HistoryNonces, Restore, Patch, DeltaHistory, KeepsTags;
    var r', top, n := WriteDelta(r, d), Top(stack), d.header.nonce;
    var s := DeltaState(top, d);
    if Tracked(r', stack + [s]) {
      assert StepAt(r', stack + [s], |stack| - 1);
    }
    if top.header.nonce < n {
      TopNonce(r, stack, n);
      DeltaReturns(r.contents, r.history, d);
      if KeepsTags(top.contents.slots, d.slots) {
        DeltaNonces(r.history, r.contents, d);
        forall c, m | m in LaterNonces(stack) ensures Restore(c, r'.history, m) == Restore(c, r.history, m) {
          DeltaElsewhere(r.history, r.contents, d, c, m);
        }
        PushTracked(r, r', stack, s);
      }
    }
  }

  /** Where rows with a superseded header represent a stack, that header has a lower nonce than the one replacing it. */
  lemma SupersededBelow(r: Rows, r': Rows, stack': Stack, n: nat)
    requires Tracked(r', stack') && r.header.Some? && r'.archived == Supersede(r, n)
    ensures r.header.value.nonce < n
  {
    hide HistoryNonces, Restore;
    var i := ArchivedStep(r', stack', r.header.value.accountCommitment);
    assert StepAt(r', stack', i);
  }

  /**
   * A full replacement pushes one state exactly when its nonce is above the current one; otherwise the rows it
   * leaves are those of no stack at all.
   */
  lemma FullPushesIff(r: Rows, stack: Stack, s: Snapshot)
    requires Tracked(r, stack) && stack != [] && Top(stack).header.accountCommitment !in r.archived
    ensures Tracked(WriteFull(r, s), stack + [s]) <==> Top(stack).header.nonce < s.header.nonce
    ensures (exists stack' :: Tracked(WriteFull(r, s), stack')) <==> Top(stack).header.nonce < s.header.nonce
  {
    hide HistoryNonces, Restore, FullHistory;
    var r', top, n := WriteFull(r, s), Top(stack), s.header.nonce;
    forall stack' | Tracked(r', stack') ensures top.header.nonce < n {
      SupersededBelow(r, r', stack', n);
    }
    if top.header.nonce < n {
      TopNonce(r, stack, n);
      FullReturnsAll(r.contents, r.history, n, s.contents);
      FullNonces(r.history, n, r.contents, s.contents);
      forall c, m | m in LaterNonces(stack) ensures Restore(c, r'.history, m) == Restore(c, r.history, m) {
        FullElsewhere(r.history, n, r.contents, s.contents, c, m);
      }
      PushTracked(r, r', stack, s);
    }
  }

  /** Inserting an absent account starts a stack of one state. */
  lemma NewStarts(r: Rows, s: Snapshot)
    requires Tracked(r, [])
    ensures Tracked(WriteNew(r, s), [s])
  {
  }

  /**
   * A full state written for an absent account leaves marker rows that no header owns, unless the state
   * is empty: exactly then it starts a stack.
   */
  lemma FullOnAbsentIff(r: Rows, s: Snapshot)
    requires Tracked(r, [])
    ensures Tracked(WriteFull(r, s), [s]) <==> s.contents == NoContents
  {
    var h' := WriteFull(r, s).history;
    assert LaterNonces([s]) == {} && HistoryNonces(r.history) == {};
    MarkersLeft(r.history.slots, s.header.nonce, s.contents.slots);
    MarkersLeft(r.history.entries, s.header.nonce, s.contents.entries);
    MarkersLeft(r.history.assets, s.header.nonce, s.contents.assets);
    assert HistoryNonces(h') == {} <==> s.contents == NoContents;
  }

  lemma MarkersLeft<K(!new), T>(h: Past<K, T>, n: nat, s: Current<K, T>)
    requires NoncesOf(h) == {}
    ensures NoncesOf(FullArchived(h, n, map[], s)) == {} <==> s == map[]
  {
    var h' := FullArchived(h, n, map[], s);
    if s != map[] {
      var k :| k in s;
      assert Get(h', (n, k)).Some?;
      RowsBelong(h', n, k);
    }
    forall m: nat, k ensures (m, k) !in h { RowsBelong(h, m, k); }
    if s == map[] {
      forall m: nat, k ensures (m, k) !in h' { assert Get(h', (m, k)) == Get(h, (m, k)); }
    }
  }

  // ---------------------------------------------------------------- lock

  function LockState(s: Snapshot): Snapshot {
    s.(header := LockHeader(s.header))
  }

  function LockStack(stack: Stack): (r: Stack)
    ensures |r| == |stack| && forall i :: 0 <= i < |stack| ==> r[i] == LockState(stack[i])
  {
    seq(|stack|, i requires 0 <= i < |stack| => LockState(stack[i]))
  }

  /** Locking marks every retained state of the account, the superseded ones included. */
  lemma LockMarksAll(r: Rows, stack: Stack)
    requires Tracked(r, stack)
    ensures Tracked(LockRows(r), LockStack(stack))
  {
    hide Restore, HistoryNonces;
    var r', stack' := LockRows(r), LockStack(stack);
    assert LaterNonces(stack') == LaterNonces(stack) by {
      assert forall i :: 0 <= i < |stack| ==> stack'[i].header.nonce == stack[i].header.nonce;
    }
    forall c | c in r'.archived ensures Superseded(stack', c) {
      assert Superseded(stack, c);
      var i :| 0 <= i < |stack| - 1 && stack[i].header.accountCommitment == c;
      assert stack'[i].header.accountCommitment == c;
    }
    forall i | 0 <= i < |stack'| - 1 ensures StepAt(r', stack', i) {
      assert StepAt(r, stack, i);
    }
  }

  // ---------------------------------------------------------------- prune

  /** Drop the states that were replaced at or before nonce `upTo`. */
  function DropOld(stack: Stack, upTo: nat): (r: Stack)
    ensures |r| <= |stack| && r == stack[|stack| - |r|..]
    ensures r == [] <==> stack == []
    ensures |r| < |stack| ==> stack[|stack| - |r|].header.nonce <= upTo
    ensures |r| > 1 ==> upTo < r[1].header.nonce
  {
    if |stack| > 1 && stack[1].header.nonce <= upTo then DropOld(stack[1..], upTo) else stack
  }

  /** Where a prune cuts the stack, in terms of the rows it removes. */
  lemma PruneCuts(r: Rows, stack: Stack, upTo: nat, cut: nat)
    requires Tracked(r, stack) && cut == |stack| - |DropOld(stack, upTo)|
    ensures forall i :: 0 <= i < cut ==> stack[i].header.accountCommitment in PrunedCommitments(r, upTo)
    ensures forall i :: 0 < i <= cut ==> stack[i].header.nonce in PrunedNonces(r, upTo)
    ensures forall i :: cut < i < |stack| ==> upTo < stack[i].header.nonce
    ensures forall n :: n in PrunedNonces(r, upTo) ==> n <= upTo
  {
    hide PrunedCommitments, PrunedNonces, Tracked, DropOld;
    CutBelow(r, stack, upTo, cut);
    CutAbove(r, stack, upTo, cut);
    assert forall n :: n in PrunedNonces(r, upTo) ==> n <= upTo by { PrunedBelow(r, upTo); }
  }

  lemma PrunedBelow(r: Rows, upTo: nat)
    ensures forall n :: n in PrunedNonces(r, upTo) ==> n <= upTo
  {
  }

  lemma CutBelow(r: Rows, stack: Stack, upTo: nat, cut: nat)
    requires Tracked(r, stack) && cut == |stack| - |DropOld(stack, upTo)|
    ensures forall i :: 0 <= i < cut ==> stack[i].header.accountCommitment in PrunedCommitments(r, upTo)
    ensures forall i :: 0 < i <= cut ==> stack[i].header.nonce in PrunedNonces(r, upTo)
  {
    hide Restore, HistoryNonces;
    forall i | 0 <= i < cut ensures stack[i].header.accountCommitment in PrunedCommitments(r, upTo) {
      assert StepAt(r, stack, i);
      NoncesRise(r, stack, i + 1, cut);
    }
    forall i | 0 < i <= cut ensures stack[i].header.nonce in PrunedNonces(r, upTo) {
      assert StepAt(r, stack, i - 1);
      assert stack[i - 1].header.accountCommitment in PrunedCommitments(r, upTo);
    }
  }

  lemma CutAbove(r: Rows, stack: Stack, upTo: nat, cut: nat)
    requires Tracked(r, stack) && cut == |stack| - |DropOld(stack, upTo)|
    ensures forall i :: cut < i < |stack| ==> upTo < stack[i].header.nonce
  {
    hide Tracked;
    forall i | cut < i < |stack| ensures upTo < stack[i].header.nonce {
      assert DropOld(stack, upTo)[1] == stack[cut + 1];
      NoncesRise(r, stack, cut + 1, i);
    }
  }

  /** The nonces left after a prune are those of the steps above the cut. */
  lemma PruneKeepsAbove(r: Rows, stack: Stack, upTo: nat, cut: nat)
    requires Tracked(r, stack) && cut == |stack| - |DropOld(stack, upTo)|
    ensures LaterNonces(stack) - PrunedNonces(r, upTo) <= LaterNonces(stack[cut..])
    ensures forall i :: cut < i < |stack| ==> stack[i].header.nonce !in PrunedNonces(r, upTo)
  {
    hide Restore, HistoryNonces, DropOld, Reverts;
    PruneCuts(r, stack, upTo, cut);
    forall n | n in LaterNonces(stack) && n !in PrunedNonces(r, upTo) ensures n in LaterNonces(stack[cut..]) {
      var i :| 1 <= i < |stack| && stack[i].header.nonce == n;
      assert stack[cut..][i - cut] == stack[i];
    }
  }

  lemma PruneKeepsSuperseded(r: Rows, stack: Stack, upTo: nat, c: Commitment)
    requires Tracked(r, stack) && c in PruneRows(r, upTo).archived
    ensures Superseded(DropOld(stack, upTo), c)
  {
    hide Restore, HistoryNonces, LaterNonces, DropOld, Forget, PrunedNonces, Reverts, Superseded;
    var kept := DropOld(stack, upTo);
    var cut := |stack| - |kept|;
    var i := ArchivedStep(r, stack, c);
    PruneCuts(r, stack, upTo, cut);
    assert cut <= i && kept[i - cut] == stack[i];
    SupersededAt(kept, i - cut);
  }

  lemma SupersededAt(stack: Stack, i: nat)
    requires i < |stack| - 1
    ensures Superseded(stack, stack[i].header.accountCommitment)
  {
  }

  lemma PruneKeepsSteps(r: Rows, stack: Stack, upTo: nat, i: nat)
    requires Tracked(r, stack) && i < |DropOld(stack, upTo)| - 1
    ensures StepAt(PruneRows(r, upTo), DropOld(stack, upTo), i)
  {
    hide Restore, HistoryNonces, LaterNonces, DropOld, PruneRows, PrunedNonces, Reverts;
    var kept := DropOld(stack, upTo);
    var cut := |stack| - |kept|;
    PruneKeepsAbove(r, stack, upTo, cut);
    assert kept[i] == stack[cut + i] && kept[i + 1] == stack[cut + i + 1];
    assert StepAt(r, stack, cut + i);
    PruneReverts(r, upTo, kept[i], kept[i + 1]);
  }

  lemma PruneKeepsTop(r: Rows, stack: Stack, upTo: nat)
    requires Tracked(r, stack)
    ensures var r', kept := PruneRows(r, upTo), DropOld(stack, upTo);
            && r'.header == (if kept == [] then None else Some(Top(kept).header))
            && r'.contents == (if kept == [] then NoContents else Top(kept).contents)
            && HistoryNonces(r'.history) <= LaterNonces(kept)
  {
    hide Restore, HistoryNonces, LaterNonces, DropOld, Forget, PrunedNonces, Reverts, Superseded;
    PruneKeepsAbove(r, stack, upTo, |stack| - |DropOld(stack, upTo)|);
    ForgetNonces(r.history, PrunedNonces(r, upTo));
  }

  /** Pruning drops the bottom of the stack and never the current state. */
  lemma PruneDropsBottom(r: Rows, stack: Stack, upTo: nat)
    requires Tracked(r, stack)
    ensures Tracked(PruneRows(r, upTo), DropOld(stack, upTo))
  {
    hide HistoryNonces, LaterNonces, DropOld, PruneRows, Reverts, Superseded, Tracked, Top;
    var r', kept := PruneRows(r, upTo), DropOld(stack, upTo);
    forall c | c in r'.archived ensures Superseded(kept, c) {
      PruneKeepsSuperseded(r, stack, upTo, c);
    }
    forall i | 0 <= i < |kept| - 1 ensures StepAt(r', kept, i) {
      PruneKeepsSteps(r, stack, upTo, i);
    }
    PruneKeepsTop(r, stack, upTo);
    TrackedByParts(r', kept);
  }

  lemma TrackedByParts(r: Rows, stack: Stack)
    requires r.header == (if stack == [] then None else Some(Top(stack).header))
    requires r.contents == (if stack == [] then NoContents else Top(stack).contents)
    requires HistoryNonces(r.history) <= LaterNonces(stack)
    requires forall c :: c in r.archived ==> Superseded(stack, c)
    requires forall i :: 0 <= i < |stack| - 1 ==> StepAt(r, stack, i)
    ensures Tracked(r, stack)
  {
    hide HistoryNonces, LaterNonces, Superseded, Reverts;
  }

  /** A state replaced by a nonce that is not pruned keeps everything needed to return to it. */
  lemma PruneReverts(r: Rows, upTo: nat, before: Snapshot, after: Snapshot)
    requires Reverts(r, before, after) && after.header.nonce !in PrunedNonces(r, upTo)
    ensures Reverts(PruneRows(r, upTo), before, after)
  {
    hide Restore, Forget;
    RestoreAfterForget(after.contents, r.history, PrunedNonces(r, upTo), after.header.nonce);
  }

  // ---------------------------------------------------------------- undo

  /** The nonces of the states from height `j` up. */
  function NoncesFrom(stack: Stack, j: nat): set<nat> {
    set i | j <= i < |stack| :: stack[i].header.nonce
  }

  lemma NoncesFromStep(r: Rows, stack: Stack, j: nat, above: set<nat>)
    requires Tracked(r, stack) && j < |stack| && above == NoncesFrom(stack, j + 1)
    ensures NoncesFrom(stack, j) == {stack[j].header.nonce} + above
    ensures forall m :: m in above ==> stack[j].header.nonce < m
    ensures MinOf(NoncesFrom(stack, j)) == stack[j].header.nonce
  {
    forall m | m in above ensures stack[j].header.nonce < m {
      var i :| j + 1 <= i < |stack| && stack[i].header.nonce == m;
      NoncesRise(r, stack, j, i);
    }
    assert stack[j].header.nonce in NoncesFrom(stack, j);
  }

  /**
   * Undoing the states from height `j` up, every key at once by the lowest row that touched it, gives
   * exactly the contents of the state below.
   */
  lemma {:induction false} UndoReaches(r: Rows, stack: Stack, j: nat)
    requires Tracked(r, stack) && 0 < j <= |stack|
    ensures UndoContents(r.contents, r.history, NoncesFrom(stack, j)) == stack[j - 1].contents
    decreases |stack| - j
  {
    if j == |stack| {
      assert NoncesFrom(stack, j) == {};
      UndoContentsStep(r.contents, r.history, {}, 0);
    } else {
      UndoReaches(r, stack, j + 1);
      NoncesFromStep(r, stack, j, NoncesFrom(stack, j + 1));
      UndoContentsStep(r.contents, r.history, NoncesFrom(stack, j + 1), stack[j].header.nonce);
      assert StepAt(r, stack, j - 1);
    }
  }

  lemma PreviousIs(r: Rows, stack: Stack, j: nat)
    requires Tracked(r, stack) && j < |stack|
    ensures PreviousHeader(r, stack[j].header.nonce) == if j == 0 then None else Some(stack[j - 1].header)
  {
    hide Restore, HistoryNonces;
    var n := stack[j].header.nonce;
    if j > 0 {
      assert StepAt(r, stack, j - 1);
      assert ReplacedAt(r, n, stack[j - 1].header.accountCommitment);
    }
    forall c | ReplacedAt(r, n, c) ensures 0 < j && r.archived[c].header == stack[j - 1].header {
      var i := ArchivedStep(r, stack, c);
      if i + 1 < j { NoncesRise(r, stack, i + 1, j); }
      if j < i + 1 { NoncesRise(r, stack, j, i + 1); }
    }
  }

  /** Undoing the states from height `j` up pops exactly those states. */
  lemma UndoPops(r: Rows, stack: Stack, j: nat)
    requires Tracked(r, stack) && j < |stack|
    ensures NoncesFrom(stack, j) != {}
    ensures Tracked(UndoRows(r, NoncesFrom(stack, j)), stack[..j])
  {
    hide Restore, HistoryNonces, UndoContents, Forget;
    var ns, kept := NoncesFrom(stack, j), stack[..j];
    NoncesFromStep(r, stack, j, NoncesFrom(stack, j + 1));
    assert ns != {};
    PreviousIs(r, stack, j);
    if j > 0 { UndoReaches(r, stack, j); }
    var r' := UndoRows(r, ns);
    ForgetNonces(r.history, ns);
    UndoKeepsBelow(r, stack, j);
    assert HistoryNonces(r'.history) <= LaterNonces(kept);
    forall c | c in r'.archived ensures Superseded(kept, c) {
      var i := ArchivedStep(r, stack, c);
      assert i + 1 < j;
      assert kept[i] == stack[i];
    }
    forall i | 0 <= i < |kept| - 1 ensures StepAt(r', kept, i) {
      assert StepAt(r, stack, i);
      assert stack[i + 1].header.nonce in LaterNonces(kept) by { assert kept[i + 1] == stack[i + 1]; }
      RestoreAfterForget(kept[i + 1].contents, r.history, ns, kept[i + 1].header.nonce);
    }
  }

  /** The nonces left after an undo are those of the steps below it. */
  lemma UndoKeepsBelow(r: Rows, stack: Stack, j: nat)
    requires Tracked(r, stack) && j < |stack|
    ensures LaterNonces(stack[..j]) == LaterNonces(stack) - NoncesFrom(stack, j)
  {
    hide Restore, HistoryNonces;
    var kept := stack[..j];
    forall n | n in LaterNonces(kept) ensures n in LaterNonces(stack) && n !in NoncesFrom(stack, j) {
      var i :| 1 <= i < |kept| && kept[i].header.nonce == n;
      assert stack[i].header.nonce == n;
      if n in NoncesFrom(stack, j) {
        var i' :| j <= i' < |stack| && stack[i'].header.nonce == n;
        NoncesRise(r, stack, i, i');
      }
    }
    forall n | n in LaterNonces(stack) && n !in NoncesFrom(stack, j) ensures n in LaterNonces(kept) {
      var i :| 1 <= i < |stack| && stack[i].header.nonce == n;
      assert kept[i] == stack[i];
    }
  }

  // ---------------------------------------------------------------- undo by commitment

  /** The nonces of the states whose commitment is discarded. */
  function DiscardedNonces(stack: Stack, cs: set<Commitment>): set<nat> {
    set i | 0 <= i < |stack| && stack[i].header.accountCommitment in cs :: stack[i].header.nonce
  }

  /** The discarded states are the top of the stack. */
  ghost predicate SuffixClosed(stack: Stack, cs: set<Commitment>) {
    forall i, j :: 0 <= i < j < |stack| && stack[i].header.accountCommitment in cs
        ==> stack[j].header.accountCommitment in cs
  }

  /** The height of the lowest discarded state, or of the whole stack when none is. */
  function FirstDiscarded(stack: Stack, cs: set<Commitment>): (j: nat)
    ensures j <= |stack|
    ensures j < |stack| ==> stack[j].header.accountCommitment in cs
    ensures forall i :: 0 <= i < j ==> stack[i].header.accountCommitment !in cs
  {
    if stack == [] || stack[0].header.accountCommitment in cs then 0
    else
      var j := FirstDiscarded(stack[1..], cs);
      assert forall i :: 0 < i < j + 1 ==> stack[i] == stack[1..][i - 1];
      j + 1
  }

  lemma SuffixNonces(stack: Stack, cs: set<Commitment>)
    requires SuffixClosed(stack, cs)
    ensures DiscardedNonces(stack, cs) == NoncesFrom(stack, FirstDiscarded(stack, cs))
  {
    var j := FirstDiscarded(stack, cs);
    forall n | n in NoncesFrom(stack, j) ensures n in DiscardedNonces(stack, cs) {
      var i :| j <= i < |stack| && stack[i].header.nonce == n;
      assert i == j || (stack[j].header.accountCommitment in cs ==> stack[i].header.accountCommitment in cs);
    }
  }

  lemma LowestDiscarded(r: Rows, stack: Stack, cs: set<Commitment>)
    requires Tracked(r, stack) && DiscardedNonces(stack, cs) != {}
    ensures FirstDiscarded(stack, cs) < |stack|
    ensures MinOf(DiscardedNonces(stack, cs)) == stack[FirstDiscarded(stack, cs)].header.nonce
  {
    hide FirstDiscarded, Tracked;
    var ns, j := DiscardedNonces(stack, cs), FirstDiscarded(stack, cs);
    var n := MinOf(ns);
    var i :| 0 <= i < |stack| && stack[i].header.accountCommitment in cs && stack[i].header.nonce == n;
    assert j <= i;
    NoncesRise(r, stack, j, i);
    assert stack[j].header.nonce in ns;
  }

  /**
   * Undoing a set of states leaves the rows of some stack exactly when the set is the top of the stack
   * it is taken from; what is left is then the part below.
   */
  lemma UndoPopsIff(r: Rows, stack: Stack, cs: set<Commitment>)
    requires Tracked(r, stack) && DiscardedNonces(stack, cs) != {}
    ensures (exists stack' :: Tracked(UndoRows(r, DiscardedNonces(stack, cs)), stack')) <==> SuffixClosed(stack, cs)
    ensures SuffixClosed(stack, cs) ==>
              Tracked(UndoRows(r, DiscardedNonces(stack, cs)), stack[..FirstDiscarded(stack, cs)])
  {
    hide Tracked, UndoRows;
    var r' := UndoRows(r, DiscardedNonces(stack, cs));
    LowestDiscarded(r, stack, cs);
    if SuffixClosed(stack, cs) {
      SuffixNonces(stack, cs);
      UndoPops(r, stack, FirstDiscarded(stack, cs));
    } else {
      var i, i' :| 0 <= i < i' < |stack| && stack[i].header.accountCommitment in cs
          && stack[i'].header.accountCommitment !in cs;
      forall stack' ensures !Tracked(r', stack') {
        GapRefuted(r, stack, cs, i', stack');
      }
    }
  }

  lemma KeptNonce(r: Rows, stack: Stack, cs: set<Commitment>, i: nat)
    requires Tracked(r, stack) && i < |stack| && stack[i].header.accountCommitment !in cs
    ensures stack[i].header.nonce !in DiscardedNonces(stack, cs)
  {
    hide Tracked;
    var n := stack[i].header.nonce;
    if n in DiscardedNonces(stack, cs) {
      var i' :| 0 <= i' < |stack| && stack[i'].header.accountCommitment in cs && stack[i'].header.nonce == n;
      if i < i' { NoncesRise(r, stack, i, i'); } else { NoncesRise(r, stack, i', i); }
    }
  }

  /** A retained state above a discarded one leaves a header archived above the one the undo goes back to. */
  lemma GapLeaves(r: Rows, stack: Stack, cs: set<Commitment>, i: nat)
    requires Tracked(r, stack) && DiscardedNonces(stack, cs) != {}
    requires FirstDiscarded(stack, cs) < i < |stack| && stack[i].header.accountCommitment !in cs
    ensures var r', c := UndoRows(r, DiscardedNonces(stack, cs)), stack[i - 1].header.accountCommitment;
            && c in r'.archived
            && (r'.header.Some? ==> r'.header.value.nonce < r'.archived[c].replacedAtNonce)
  {
    hide Restore, HistoryNonces, LaterNonces, UndoContents, Forget, FirstDiscarded, DiscardedNonces, PreviousHeader,
         Superseded;
    var ns, j := DiscardedNonces(stack, cs), FirstDiscarded(stack, cs);
    LowestDiscarded(r, stack, cs);
    PreviousIs(r, stack, j);
    KeptNonce(r, stack, cs, i);
    assert StepAt(r, stack, i - 1);
    NoncesRise(r, stack, j, i);
    if j > 0 { NoncesRise(r, stack, j - 1, j); }
  }

  /** In rows that represent a stack, every archived header was replaced at or below the current nonce. */
  lemma ArchivedBelowTop(r: Rows, stack: Stack, c: Commitment)
    requires Tracked(r, stack) && c in r.archived
    ensures r.header.Some? && r.archived[c].replacedAtNonce <= r.header.value.nonce
  {
    hide Restore, HistoryNonces, LaterNonces, Reverts, Superseded;
    var x := ArchivedStep(r, stack, c);
    NoncesRise(r, stack, x + 1, |stack| - 1);
  }

  /** So that no stack accounts for what is left. */
  lemma GapRefuted(r: Rows, stack: Stack, cs: set<Commitment>, i: nat, stack': Stack)
    requires Tracked(r, stack) && DiscardedNonces(stack, cs) != {}
    requires FirstDiscarded(stack, cs) < i < |stack| && stack[i].header.accountCommitment !in cs
    ensures !Tracked(UndoRows(r, DiscardedNonces(stack, cs)), stack')
  {
    hide Tracked, UndoRows, FirstDiscarded, DiscardedNonces;
    GapLeaves(r, stack, cs, i);
    if Tracked(UndoRows(r, DiscardedNonces(stack, cs)), stack') {
      ArchivedBelowTop(UndoRows(r, DiscardedNonces(stack, cs)), stack', stack[i - 1].header.accountCommitment);
    }
  }

  // ---------------------------------------------------------------- laws between operations

  ghost predicate UniqueReplacement(r: Rows) {
    forall c, c', n :: ReplacedAt(r, n, c) && ReplacedAt(r, n, c') ==> c == c'
  }

  lemma TrackedReplacesOnce(r: Rows, stack: Stack)
    requires Tracked(r, stack)
    ensures UniqueReplacement(r)
  {
    hide Restore, HistoryNonces;
    forall c, c', n | ReplacedAt(r, n, c) && ReplacedAt(r, n, c') ensures c == c' {
      var i := ArchivedStep(r, stack, c);
      var i' := ArchivedStep(r, stack, c');
      if i < i' { NoncesRise(r, stack, i + 1, i' + 1); }
      if i' < i { NoncesRise(r, stack, i' + 1, i + 1); }
    }
  }

  /** Locking and undoing commute, so undoing never unlocks. */
  lemma LockUndoCommute(r: Rows, ns: set<nat>)
    requires UniqueReplacement(r) && ns != {}
    ensures UndoRows(LockRows(r), ns) == LockRows(UndoRows(r, ns))
  {
    hide UndoContents, Forget;
    var n, locked := MinOf(ns), LockRows(r);
    assert forall c :: ReplacedAt(locked, n, c) <==> ReplacedAt(r, n, c);
    if c :| ReplacedAt(r, n, c) {
      assert PreviousHeader(r, n) == Some(r.archived[c].header);
      assert ReplacedAt(locked, n, c);
      assert PreviousHeader(locked, n) == Some(LockHeader(r.archived[c].header));
    }
    assert UndoRows(locked, ns).archived == LockRows(UndoRows(r, ns)).archived;
  }

  /** Undoing nonces above the bound and pruning up to it commute. */
  lemma PruneUndoCommute(r: Rows, upTo: nat, ns: set<nat>)
    requires UniqueReplacement(r) && ns != {} && forall n :: n in ns ==> upTo < n
    ensures UndoRows(PruneRows(r, upTo), ns) == PruneRows(UndoRows(r, ns), upTo)
    ensures UndoRows(PruneRows(r, upTo), ns).header == UndoRows(r, ns).header
    ensures UndoRows(PruneRows(r, upTo), ns).contents == UndoRows(r, ns).contents
  {
    hide UndoContents, Forget;
    var pruned, undone, n := PruneRows(r, upTo), UndoRows(r, ns), MinOf(ns);
    var gone := PrunedNonces(r, upTo);
    assert PrunedCommitments(undone, upTo) == PrunedCommitments(r, upTo);
    assert PrunedNonces(undone, upTo) == gone;
    assert forall c :: ReplacedAt(pruned, n, c) <==> ReplacedAt(r, n, c);
    if c :| ReplacedAt(r, n, c) {
      assert PreviousHeader(r, n) == Some(r.archived[c].header);
      assert ReplacedAt(pruned, n, c);
      assert PreviousHeader(pruned, n) == Some(r.archived[c].header);
    }
    UndoAfterForget(r.contents, r.history, gone, ns);
    ForgetTwice(r.history, gone, ns);
    ForgetTwice(r.history, ns, gone);
    assert gone + ns == ns + gone;
    assert UndoRows(pruned, ns).archived == PruneRows(undone, upTo).archived;
  }

  lemma UndoOfPush(r: Rows, r': Rows, stack: Stack, s: Snapshot)
    requires Tracked(r, stack) && stack != [] && Top(stack).header.accountCommitment !in r.archived
    requires Top(stack).header.nonce < s.header.nonce
    requires r'.contents == s.contents && r'.archived == Supersede(r, s.header.nonce)
    requires Restore(s.contents, r'.history, s.header.nonce) == r.contents
    requires Forget(r'.history, {s.header.nonce}) == r.history
    ensures UndoRows(r', {s.header.nonce}) == r
  {
    hide Restore, HistoryNonces, UndoContents, Forget;
    var n, c := s.header.nonce, Top(stack).header.accountCommitment;
    forall c' | c' in r.archived ensures r.archived[c'].replacedAtNonce < n {
      var i := ArchivedStep(r, stack, c');
      NoncesRise(r, stack, i + 1, |stack| - 1);
    }
    assert ReplacedAt(r', n, c);
    assert forall c' :: ReplacedAt(r', n, c') ==> c' == c;
    assert PreviousHeader(r', n) == r.header;
    assert MinOf({n}) == n;
    UndoContentsStep(r'.contents, r'.history, {}, n);
    assert {n} + {} == {n};
    assert UndoRows(r', {n}).archived == r.archived;
  }

  /** Undoing a delta gives every row back, history included. */
  lemma UndoInvertsDelta(r: Rows, stack: Stack, d: Delta)
    requires Tracked(r, stack) && stack != [] && Top(stack).header.accountCommitment !in r.archived
    requires Top(stack).header.nonce < d.header.nonce && KeepsTags(Top(stack).contents.slots, d.slots)
    ensures UndoRows(WriteDelta(r, d), {d.header.nonce}) == r
  {
    var n := d.header.nonce;
    TopNonce(r, stack, n);
    DeltaReturns(r.contents, r.history, d);
    DeltaForgotten(r.history.slots, n, r.contents.slots, d.slots);
    DeltaForgotten(r.history.entries, n, r.contents.entries, d.entries);
    DeltaForgotten(r.history.assets, n, r.contents.assets, d.assets);
    UndoOfPush(r, WriteDelta(r, d), stack, DeltaState(Top(stack), d));
  }

  /** Undoing a full replacement gives every row back, history included. */
  lemma UndoInvertsFull(r: Rows, stack: Stack, s: Snapshot)
    requires Tracked(r, stack) && stack != [] && Top(stack).header.accountCommitment !in r.archived
    requires Top(stack).header.nonce < s.header.nonce
    ensures UndoRows(WriteFull(r, s), {s.header.nonce}) == r
  {
    var n := s.header.nonce;
    TopNonce(r, stack, n);
    FullReturnsAll(r.contents, r.history, n, s.contents);
    FullForgotten(r.history.slots, n, r.contents.slots, s.contents.slots);
    FullForgotten(r.history.entries, n, r.contents.entries, s.contents.entries);
    FullForgotten(r.history.assets, n, r.contents.assets, s.contents.assets);
    UndoOfPush(r, WriteFull(r, s), stack, s);
  }

  /** One undo of many states is the undo of the higher ones followed by the undo of the lower ones. */
  lemma UndoSplits(r: Rows, lower: set<nat>, upper: set<nat>)
    requires UniqueReplacement(r) && lower != {} && upper != {}
    requires forall m, n :: m in lower && n in upper ==> m < n
    requires PreviousHeader(r, MinOf(upper)).Some?
    ensures lower + upper != {}
    ensures UndoRows(r, lower + upper) == UndoRows(UndoRows(r, upper), lower)
  {
    hide UndoContents, Forget;
    var all, mid, n := lower + upper, UndoRows(r, upper), MinOf(lower);
    assert n in all;
    assert MinOf(all) == n;
    assert n !in upper;
    assert forall c :: ReplacedAt(mid, n, c) <==> ReplacedAt(r, n, c);
    if c :| ReplacedAt(r, n, c) {
      assert PreviousHeader(r, n) == Some(r.archived[c].header);
      assert ReplacedAt(mid, n, c);
      assert PreviousHeader(mid, n) == Some(r.archived[c].header);
    }
    UndoContentsCompose(r.contents, r.history, lower, upper);
    ForgetTwice(r.history, upper, lower);
    assert upper + lower == all;
    assert UndoRows(r, all).archived == UndoRows(mid, lower).archived;
  }
}
