/**
 * Waiters that are left behind. A failed lock request clears `inProgress` and leaves the waiters listed
 * (crates/web-client/js/syncLock.js:138-144); this module says exactly when such a waiter can still be settled
 * without another call of `acquireSyncLock` in its tab.
 */
module SyncLockWaiters {
  import opened Common
  import opened SyncLock
  import opened SyncLockInvariants
  import opened SyncLockRuns

  ghost predicate Waits(s: Sys, c: CallId) {
    c in s.calls && s.calls[c].role == Waiter && s.calls[c].settled == None
  }

  /** Nobody in the tab calls for the lock. */
  predicate NoAcquire(steps: seq<Step>, t: TabId) {
    forall i :: 0 <= i < |steps| ==> !(steps[i].Acquire? && steps[i].t == t)
  }

  /** These steps can be taken, with no call for the lock in the tab of `c`, and settle `c`. */
  ghost predicate Settles(s: Sys, steps: seq<Step>, c: CallId)
    requires c in s.calls
  {
    && Possible(s, steps) && NoAcquire(steps, s.calls[c].tab)
    && c in Run(s, steps).calls && Run(s, steps).calls[c].settled.Some?
  }

  // ---------------------------------------------------------------- left behind

  /** The waiter has no timer, and no sync is in progress in its tab. */
  ghost predicate LeftBehind(s: Sys, c: CallId) {
    Waits(s, c) && !s.calls[c].timer && !TabOf(s, s.calls[c].tab).inProgress
  }

  lemma LeftBehindStep(s: Sys, step: Step, c: CallId)
    requires Inv(s) && Enabled(s, step) && LeftBehind(s, c) && !(step.Acquire? && step.t == s.calls[c].tab)
    ensures LeftBehind(Next(s, step), c) && Next(s, step).calls[c].tab == s.calls[c].tab
  {
    hide Inv, Remove, FirstToEnd, ErroredFrom, Distinct, SettleAll, WaiterInv;
    GenerationsGrow(s, step, c);
    QueueHolds(s);
    if step.LeaderTimeout? || step.Release? || step.ReleaseError? {
      CallHolds(s, step.c);
      TabHolds(s, s.calls[step.c].tab);
    }
  }

  lemma {:induction false} LeftBehindStays(s: Sys, steps: seq<Step>, c: CallId)
    requires Inv(s) && LeftBehind(s, c) && Possible(s, steps) && NoAcquire(steps, s.calls[c].tab)
    ensures LeftBehind(Run(s, steps), c)
    decreases |steps|
  {
    hide Inv, LeftBehind, Enabled, Next;
    if steps != [] {
      assert LeftBehind(s, c) ==> c in s.calls by { LeftBehindListed(s, c); }
      StepKeeps(s, steps[0]);
      LeftBehindStep(s, steps[0], c);
      LeftBehindStays(Next(s, steps[0]), steps[1..], c);
    }
  }

  lemma LeftBehindListed(s: Sys, c: CallId)
    ensures LeftBehind(s, c) ==> c in s.calls && s.calls[c].settled == None
  {
  }

  // ---------------------------------------------------------------- not left behind

  /** A waiter of a sync in progress. */
  ghost predicate Led(s: Sys, c: CallId) {
    Waits(s, c) && TabOf(s, s.calls[c].tab).inProgress
  }

  /** How far the holder of the Web Lock is from giving it back. */
  function HolderRank(h: Holder): nat {
    match h
    case Free => 0
    case Held(_, Finished) => 1
    case Held(_, Running) => 2
    case Held(_, Granted) => 3
  }

  /** The step that brings the lock nearer to the leader, or lets the leader release. */
  function NearerStep(s: Sys, leader: CallId): Step {
    if leader in s.calls && InSection(s.calls[leader]) then Release(leader, 0)
    else match s.holder
      case Free => Grant
      case Held(_, Granted) => Callback
      case Held(c, Running) => Release(c, 0)
      case Held(_, Finished) => Unlock
  }

  lemma LeaderReleases(s: Sys, c: CallId)
    requires Inv(s) && Led(s, c)
    requires var leader := TabOf(s, s.calls[c].tab).leader; leader in s.calls && InSection(s.calls[leader])
    ensures var leader := TabOf(s, s.calls[c].tab).leader;
            && Enabled(s, Release(leader, 0))
            && c in Next(s, Release(leader, 0)).calls && Next(s, Release(leader, 0)).calls[c].settled.Some?
  {
    hide Inv, Remove, FirstToEnd, ErroredFrom, Distinct, QueueInv;
    TabHolds(s, s.calls[c].tab);
    CallHolds(s, c);
  }

  /** Before the leader has acquired, every such step keeps the sync in progress and brings its turn nearer. */
  lemma NearerKeeps(s: Sys, c: CallId)
    requires Inv(s) && Led(s, c)
    requires var leader := TabOf(s, s.calls[c].tab).leader; leader in s.calls && !InSection(s.calls[leader])
    ensures var step := NearerStep(s, TabOf(s, s.calls[c].tab).leader);
            && Enabled(s, step) && !step.Acquire?
            && Led(Next(s, step), c) && Next(s, step).calls[c].tab == s.calls[c].tab
            && (|Next(s, step).queue| < |s.queue|
                || (|Next(s, step).queue| == |s.queue| && HolderRank(Next(s, step).holder) < HolderRank(s.holder)))
  {
    hide Inv, Remove, FirstToEnd, ErroredFrom, Distinct, SettleAll;
    var t := s.calls[c].tab;
    TabHolds(s, t);
    CallHolds(s, c);
    QueueHolds(s);
    if s.holder.Held? {
      CallHolds(s, s.holder.call);
      TabHolds(s, s.calls[s.holder.call].tab);
    }
  }

  /** A waiter of a sync in progress can be settled: the lock reaches the leader, and the leader releases. */
  lemma {:induction false} LedCanSettle(s: Sys, c: CallId) returns (steps: seq<Step>)
    requires Inv(s) && Led(s, c)
    ensures Settles(s, steps, c)
    decreases |s.queue|, HolderRank(s.holder)
  {
    hide Inv, Enabled, Next, Live;
    var leader := TabOf(s, s.calls[c].tab).leader;
    LeaderKnown(s, s.calls[c].tab);
    if InSection(s.calls[leader]) {
      LeaderReleases(s, c);
      steps := [Release(leader, 0)];
      RunOne(s, steps[0]);
    } else {
      NearerKeeps(s, c);
      var step := NearerStep(s, leader);
      StepKeeps(s, step);
      var rest := LedCanSettle(Next(s, step), c);
      steps := [step] + rest;
      RunMore(s, step, rest);
    }
  }

  lemma LeaderKnown(s: Sys, t: TabId)
    requires Inv(s) && TabOf(s, t).inProgress
    ensures TabOf(s, t).leader in s.calls
  {
    hide Inv;
    TabHolds(s, t);
  }

  lemma RunOne(s: Sys, step: Step)
    requires Enabled(s, step)
    ensures Possible(s, [step]) && Run(s, [step]) == Next(s, step)
  {
    hide Enabled, Next;
    assert [step][1..] == [];
  }

  lemma RunMore(s: Sys, step: Step, rest: seq<Step>)
    requires Enabled(s, step) && Possible(Next(s, step), rest)
    ensures Possible(s, [step] + rest) && Run(s, [step] + rest) == Run(Next(s, step), rest)
  {
    hide Enabled, Next;
    assert ([step] + rest)[1..] == rest;
  }

  lemma TimerSettles(s: Sys, c: CallId)
    requires Waits(s, c) && s.calls[c].timer
    ensures Settles(s, [WaiterTimeout(c)], c)
  {
    RunOne(s, WaiterTimeout(c));
  }

  // ---------------------------------------------------------------- the theorem

  /**
   * In every reachable state, an unsettled waiter can be settled without another call for the lock in its tab
   * if and only if it has a timer or a sync is in progress there. Otherwise it stays as it is until such a call.
   */
  lemma SettlesWithoutAcquireIff(web: bool, steps: seq<Step>, c: CallId)
    requires Possible(Start(web), steps) && Waits(Run(Start(web), steps), c)
    ensures var s := Run(Start(web), steps);
            (exists more :: Settles(s, more, c)) <==> s.calls[c].timer || TabOf(s, s.calls[c].tab).inProgress
  {
    hide Inv, Possible, Settles;
    StartInv(web);
    RunKeeps(Start(web), steps);
    var s := Run(Start(web), steps);
    if s.calls[c].timer {
      TimerSettles(s, c);
    } else if TabOf(s, s.calls[c].tab).inProgress {
      var more := LedCanSettle(s, c);
    } else {
      forall more ensures !Settles(s, more, c) {
        NeverWithout(s, more, c);
      }
    }
  }

  lemma NeverWithout(s: Sys, more: seq<Step>, c: CallId)
    requires Inv(s) && LeftBehind(s, c)
    ensures !Settles(s, more, c)
  {
    hide Inv, LeftBehind, Possible;
    LeftBehindListed(s, c);
    if Possible(s, more) && NoAcquire(more, s.calls[c].tab) {
      LeftBehindStays(s, more, c);
      LeftBehindListed(Run(s, more), c);
    }
  }

  /** A call for the lock in the tab is also enough: after it, every waiter of the tab can be settled. */
  lemma AcquireRescues(web: bool, steps: seq<Step>, c: CallId, d: CallId, timeout: bool)
    requires Possible(Start(web), steps) && Waits(Run(Start(web), steps), c) && d !in Run(Start(web), steps).calls
    ensures var s := Run(Start(web), steps);
            var step := Acquire(s.calls[c].tab, d, timeout);
            Enabled(s, step) && c in Next(s, step).calls && exists more :: Settles(Next(s, step), more, c)
  {
    hide Inv, Possible, Settles;
    StartInv(web);
    RunKeeps(Start(web), steps);
    var s := Run(Start(web), steps);
    var step := Acquire(s.calls[c].tab, d, timeout);
    StepKeeps(s, step);
    var more := LedCanSettle(Next(s, step), c);
  }
}
