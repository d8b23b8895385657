/** What the sync lock guarantees over every run from the start. */
module SyncLockRuns {
  import opened Common
  import opened SyncLock
  import opened SyncLockInvariants

  // ---------------------------------------------------------------- whole runs

  /** The steps can be taken one after the other. */
  predicate Possible(s: Sys, steps: seq<Step>)
    decreases |steps|
  {
    steps == [] || (Enabled(s, steps[0]) && Possible(Next(s, steps[0]), steps[1..]))
  }

  function Run(s: Sys, steps: seq<Step>): Sys
    requires Possible(s, steps)
    decreases |steps|
  {
    if steps == [] then s else Run(Next(s, steps[0]), steps[1..])
  }

  lemma {:induction false} RunKeeps(s: Sys, steps: seq<Step>)
    requires Inv(s) && Possible(s, steps)
    ensures Inv(Run(s, steps))
    decreases |steps|
  {
    hide Inv, Enabled, Next;
    if steps != [] {
      StepKeeps(s, steps[0]);
      RunKeeps(Next(s, steps[0]), steps[1..]);
    }
  }

  /**
   * Mutual exclusion over every run: with Web Locks, at most one caller in all tabs is between its
   * acquisition and its release; without them, at most one in each tab.
   */
  lemma MutualExclusion(web: bool, steps: seq<Step>, c: CallId, d: CallId)
    requires Possible(Start(web), steps)
    requires var s := Run(Start(web), steps);
             c in s.calls && d in s.calls && InSection(s.calls[c]) && InSection(s.calls[d])
                 && (web || s.calls[c].tab == s.calls[d].tab)
    ensures c == d
  {
    StartInv(web);
    RunKeeps(Start(web), steps);
    var s := Run(Start(web), steps);
    RunKeepsWeb(Start(web), steps);
    assert CallInv(s, c) && CallInv(s, d);
  }

  lemma {:induction false} RunKeepsWeb(s: Sys, steps: seq<Step>)
    requires Possible(s, steps)
    ensures Run(s, steps).web == s.web
    decreases |steps|
  {
    if steps != [] { RunKeepsWeb(Next(s, steps[0]), steps[1..]); }
  }

  /** A release in progress is always found in progress: the warning branch of the release is never taken. */
  lemma ReleaseFindsSync(s: Sys, c: CallId)
    requires Inv(s) && c in s.calls && InSection(s.calls[c])
    ensures TabOf(s, s.calls[c].tab).inProgress && TabOf(s, s.calls[c].tab).gen == s.calls[c].gen
  {
    assert CallInv(s, c);
  }

  /**
   * Generation safety: with Web Locks, `releaseLock` is set in a tab exactly while the leader of the tab's
   * current generation runs under the lock.
   */
  lemma ReleaseLockIff(s: Sys, t: TabId)
    requires Inv(s) && s.web
    ensures TabOf(s, t).releaseLock.Some? <==>
            exists c :: c in s.calls && s.calls[c].tab == t && s.calls[c].gen == TabOf(s, t).gen
                && s.holder == Held(c, Running)
    ensures TabOf(s, t).releaseLock.Some? ==> InSection(s.calls[TabOf(s, t).releaseLock.value])
  {
    assert TabInv(s, t);
    if TabOf(s, t).releaseLock.Some? {
      var c := TabOf(s, t).releaseLock.value;
      assert CallInv(s, c);
    }
    if c :| c in s.calls && s.calls[c].tab == t && s.calls[c].gen == TabOf(s, t).gen && s.holder == Held(c, Running) {
      assert CallInv(s, c);
    }
  }

  // ---------------------------------------------------------------- a request that came too late

  /** A leader whose request timed out or was superseded before it acquired. */
  ghost predicate Lapsed(s: Sys, c: CallId) {
    && c in s.calls && s.calls[c].role == Leader && s.calls[c].settled != Some(Acquired)
    && Stale(s, c)
  }

  /** The step is taken by call `c` or for its request. */
  predicate StepOf(s: Sys, step: Step, c: CallId) {
    match step
    case Acquire(_, d, _) => c == d
    case WaiterTimeout(d) => c == d
    case LeaderTimeout(d) => c == d
    case RequestError(d) => c == d
    case Release(d, _) => c == d
    case ReleaseError(d, _) => c == d
    case Grant => s.queue != [] && s.queue[0] == c
    case Callback => s.holder.Held? && s.holder.call == c
    case Unlock => s.holder.Held? && s.holder.call == c
  }

  /** Generations only grow, and a call keeps its own. */
  lemma GenerationsGrow(s: Sys, step: Step, c: CallId)
    requires Enabled(s, step) && c in s.calls
    ensures c in Next(s, step).calls
    ensures var call, call' := s.calls[c], Next(s, step).calls[c];
            && call'.tab == call.tab && call'.gen == call.gen && call'.role == call.role
            && (call.timedOut ==> call'.timedOut)
            && TabOf(s, call.tab).gen <= TabOf(Next(s, step), call.tab).gen
  {
    hide Enabled, Next;
    CallKept(s, step, c);
    TabGrows(s, step, s.calls[c].tab);
  }

  lemma CallKept(s: Sys, step: Step, c: CallId)
    requires Enabled(s, step) && c in s.calls
    ensures c in Next(s, step).calls
    ensures var call, call' := s.calls[c], Next(s, step).calls[c];
            call'.tab == call.tab && call'.gen == call.gen && call'.role == call.role
                && (call.timedOut ==> call'.timedOut)
  {
    hide SettleAll, Remove, TabOf, DoAcquire, DoWaiterTimeout, DoLeaderTimeout, DoCallback, DoRequestError, DoRelease;
    match step
    case Acquire(t, d, timeout) => AcquireKeepsCall(s, t, d, timeout, c);
    case WaiterTimeout(d) => TimeoutKeepsCall(s, d, c);
    case LeaderTimeout(d) => TimeoutKeepsCall(s, d, c);
    case Grant =>
    case Callback => CallbackKeepsCall(s, c);
    case RequestError(d) => TimeoutKeepsCall(s, d, c);
    case Release(d, result) =>
      ReleaseKeepsCall(s, d, Coalesced(TabOf(s, s.calls[d].tab).gen, result), Completed(result), c);
    case ReleaseError(d, error) =>
      ReleaseKeepsCall(s, d, Failed(TabOf(s, s.calls[d].tab).gen, error), Broken(error), c);
    case Unlock =>
  }

  /** What a call keeps for good. */
  predicate SameCall(calls: map<CallId, Call>, calls': map<CallId, Call>, c: CallId)
    requires c in calls
  {
    && c in calls'
    && calls'[c].tab == calls[c].tab && calls'[c].gen == calls[c].gen && calls'[c].role == calls[c].role
    && (calls[c].timedOut ==> calls'[c].timedOut)
  }

  lemma AcquireKeepsCall(s: Sys, t: TabId, d: CallId, timeout: bool, c: CallId)
    requires c in s.calls && d !in s.calls
    ensures SameCall(s.calls, DoAcquire(s, t, d, timeout).calls, c)
  {
    hide TabOf;
  }

  lemma TimeoutKeepsCall(s: Sys, d: CallId, c: CallId)
    requires c in s.calls && d in s.calls
    ensures SameCall(s.calls, DoWaiterTimeout(s, d).calls, c)
    ensures SameCall(s.calls, DoLeaderTimeout(s, d).calls, c)
    ensures SameCall(s.calls, DoRequestError(s, d).calls, c)
  {
    hide TabOf, Remove, SettleAll;
  }

  lemma CallbackKeepsCall(s: Sys, c: CallId)
    requires c in s.calls && s.holder.Held? && s.holder.call in s.calls
    ensures SameCall(s.calls, DoCallback(s).calls, c)
  {
    hide TabOf;
  }

  lemma ReleaseKeepsCall(s: Sys, d: CallId, how: Settlement, end: End, c: CallId)
    requires c in s.calls && d in s.calls
    ensures SameCall(s.calls, DoRelease(s, d, how, end).calls, c)
  {
    hide TabOf, SettleAll;
  }

  lemma TabGrows(s: Sys, step: Step, t: TabId)
    requires Enabled(s, step)
    ensures TabOf(s, t).gen <= TabOf(Next(s, step), t).gen
  {
    hide SettleAll, Remove;
  }

  lemma LapsedStep(s: Sys, step: Step, c: CallId)
    requires Inv(s) && Enabled(s, step) && Lapsed(s, c)
    ensures Lapsed(Next(s, step), c)
  {
    hide Inv, SettleAll, Remove, FirstToEnd, ErroredFrom, Distinct, WaiterInv, TabInv, QueueInv;
    GenerationsGrow(s, step, c);
    CallHolds(s, c);
    PromiseKept(s, step, c);
  }

  /** No record names a lapsed request as the one that holds the lock. */
  lemma LapsedNotInstalled(s: Sys, c: CallId, t: TabId)
    requires Inv(s) && Lapsed(s, c)
    ensures TabOf(s, t).releaseLock != Some(c)
  {
    hide Inv;
    TabHolds(s, t);
    QueueHolds(s);
  }

  /** What a lapsed request does changes no record and settles nobody else. */
  lemma LapsedStepInert(s: Sys, step: Step, c: CallId, t: TabId, d: CallId)
    requires Inv(s) && Lapsed(s, c) && Enabled(s, step) && StepOf(s, step, c)
    ensures TabOf(Next(s, step), t) == TabOf(s, t)
    ensures d != c && d in s.calls ==> Next(s, step).calls[d] == s.calls[d]
  {
    hide Inv, SettleAll, Remove, FirstToEnd, ErroredFrom, Distinct, WaiterInv, QueueInv;
    CallHolds(s, c);
    TabHolds(s, s.calls[c].tab);
  }

  lemma {:induction false} LapsedRun(s: Sys, steps: seq<Step>, c: CallId)
    requires Inv(s) && Lapsed(s, c) && Possible(s, steps)
    ensures Lapsed(Run(s, steps), c)
    decreases |steps|
  {
    hide Inv, Lapsed, Enabled, Next;
    if steps != [] {
      StepKeeps(s, steps[0]);
      LapsedStep(s, steps[0], c);
      LapsedRun(Next(s, steps[0]), steps[1..], c);
    }
  }

  /**
   * Generation safety over every run and every continuation: once a request has timed out or been superseded
   * before it acquired, its caller is never told that it acquired, no record ever installs its release, and
   * whatever is still done for it, a late grant included, changes no record and settles no other call.
   */
  lemma LapsedForever(web: bool, steps: seq<Step>, more: seq<Step>, c: CallId, step: Step, t: TabId, d: CallId)
    requires Possible(Start(web), steps) && Lapsed(Run(Start(web), steps), c)
    requires Possible(Run(Start(web), steps), more)
    ensures var s := Run(Run(Start(web), steps), more);
            && c in s.calls && s.calls[c].settled != Some(Acquired)
            && TabOf(s, t).releaseLock != Some(c)
            && (Enabled(s, step) && StepOf(s, step, c) ==>
                  && TabOf(Next(s, step), t) == TabOf(s, t)
                  && (d != c && d in s.calls ==> d in Next(s, step).calls && Next(s, step).calls[d] == s.calls[d]))
  {
    hide Inv, Enabled, Next, Possible, Stale, StepOf;
    StartInv(web);
    RunKeeps(Start(web), steps);
    var s0 := Run(Start(web), steps);
    RunKeeps(s0, more);
    LapsedRun(s0, more, c);
    var s := Run(s0, more);
    LapsedNotInstalled(s, c, t);
    if Enabled(s, step) && StepOf(s, step, c) {
      LapsedStepInert(s, step, c, t, d);
      if d in s.calls {
        GenerationsGrow(s, step, d);
      }
    }
  }

  /** No step ever changes a promise that is settled, or a generation that has ended. */
  lemma SettledOnce(s: Sys, step: Step, c: CallId, t: TabId, g: nat)
    requires Inv(s) && Enabled(s, step)
    ensures c in s.calls ==>
              c in Next(s, step).calls && (s.calls[c].settled.Some?
              ==> Next(s, step).calls[c].settled == s.calls[c].settled)
    ensures g in TabOf(s, t).ended ==> Get(TabOf(Next(s, step), t).ended, g) == Get(TabOf(s, t).ended, g)
  {
    hide Inv, Enabled, Next;
    PromiseKept(s, step, c);
    EndKept(s, step, t, g);
  }

  lemma PromiseKept(s: Sys, step: Step, c: CallId)
    requires Enabled(s, step)
    ensures c in s.calls ==>
              c in Next(s, step).calls && (s.calls[c].settled.Some?
              ==> Next(s, step).calls[c].settled == s.calls[c].settled)
  {
    hide SettleAll, Remove;
  }

  lemma EndKept(s: Sys, step: Step, t: TabId, g: nat)
    requires Inv(s) && Enabled(s, step)
    ensures g in TabOf(s, t).ended ==> Get(TabOf(Next(s, step), t).ended, g) == Get(TabOf(s, t).ended, g)
  {
    hide Inv, SettleAll, Distinct, QueueInv, ErroredFrom, FirstToEnd, Remove, WaiterInv;
    TabHolds(s, t);
    if step.LeaderTimeout? || step.RequestError? || step.Release? || step.ReleaseError? { CallHolds(s, step.c); }
  }

  // ---------------------------------------------------------------- waiters

  lemma OwnTimerStep(s: Sys, step: Step, c: CallId)
    requires Inv(s) && Enabled(s, step) && c in Next(s, step).calls
    requires Next(s, step).calls[c].role == Waiter && Next(s, step).calls[c].settled == Some(TimedOut)
    ensures step == WaiterTimeout(c) || (c in s.calls && s.calls[c].role == Waiter
            && s.calls[c].settled == Some(TimedOut))
  {
    hide Inv, Remove, FirstToEnd, ErroredFrom, Distinct, TabInv, QueueInv, LeaderInv, WaiterInv, SettleAll;
    if c in s.calls {
      CallKept(s, step, c);
    }
  }

  /** A waiter that timed out did so by its own timer. */
  lemma {:induction false} OwnTimer(s: Sys, steps: seq<Step>, c: CallId)
    requires Inv(s) && Possible(s, steps)
    requires c in s.calls ==> s.calls[c].settled != Some(TimedOut) || s.calls[c].role == Leader
    requires c in Run(s, steps).calls && Run(s, steps).calls[c].role == Waiter
    requires Run(s, steps).calls[c].settled == Some(TimedOut)
    ensures WaiterTimeout(c) in steps
    decreases |steps|
  {
    hide Inv, Enabled, Next;
    if steps != [] && steps[0] != WaiterTimeout(c) {
      StepKeeps(s, steps[0]);
      var s' := Next(s, steps[0]);
      if c in s'.calls && s'.calls[c].role == Waiter && s'.calls[c].settled == Some(TimedOut) {
        OwnTimerStep(s, steps[0], c);
      }
      OwnTimer(s', steps[1..], c);
    }
  }

  /** A generation ends once: the first to end other than by a failed request is the joined one unless that failed. */
  lemma JoinedUnlessErrored(tab: Tab, from: nat, g: nat, end: End)
    requires FirstToEnd(tab, from, g, end)
    ensures Get(tab.ended, from) != Some(Errored) ==> g == from
  {
    assert ErroredFrom(tab, from, g);
    assert from < g ==> Get(tab.ended, from) == Some(Errored);
  }

  /** How a settlement of a waiter says that its generation ended. */
  function ToldEnd(how: Settlement): End
    requires how.Coalesced? || how.Failed? || how.LeaderTimedOut?
  {
    match how
    case Coalesced(_, result) => Completed(result)
    case Failed(_, error) => Broken(error)
    case LeaderTimedOut(_) => Expired
  }

  /**
   * What a waiter is told over every run. While unsettled it is listed in its tab. Once settled, either its own
   * timer fired, or it was told how a generation ended, by its result, its error or its leader's timeout: the
   * generation it joined, or, only if that one and all between were lost to failed lock requests, the first
   * later one to end otherwise.
   */
  lemma WaiterOutcome(web: bool, steps: seq<Step>, c: CallId)
    requires Possible(Start(web), steps)
    requires var s := Run(Start(web), steps); c in s.calls && s.calls[c].role == Waiter
    ensures var s := Run(Start(web), steps);
            var call, tab := s.calls[c], TabOf(s, s.calls[c].tab);
            && (call.settled == None <==> c in tab.waiters)
            && (call.settled.Some? ==>
                  var how := call.settled.value;
                  || (how == TimedOut && WaiterTimeout(c) in steps)
                  || (&& (how.Coalesced? || how.Failed? || how.LeaderTimedOut?)
                      && FirstToEnd(tab, call.gen, how.gen, ToldEnd(how))
                      && (Get(tab.ended, call.gen) != Some(Errored) ==> how.gen == call.gen)))
  {
    hide Inv, FirstToEnd, Possible;
    StartInv(web);
    RunKeeps(Start(web), steps);
    var s := Run(Start(web), steps);
    CallHolds(s, c);
    var call, tab := s.calls[c], TabOf(s, s.calls[c].tab);
    if call.settled == Some(TimedOut) {
      OwnTimer(Start(web), steps, c);
    } else if call.settled.Some? {
      JoinedUnlessErrored(tab, call.gen, call.settled.value.gen, ToldEnd(call.settled.value));
    }
  }

  /** The lock is never lost: whenever a sync is in progress its leader is queued, granted or in its section. */
  lemma NeverLost(web: bool, steps: seq<Step>, t: TabId)
    requires Possible(Start(web), steps) && TabOf(Run(Start(web), steps), t).inProgress
    ensures var s := Run(Start(web), steps); Live(s, t, TabOf(s, t))
  {
    StartInv(web);
    RunKeeps(Start(web), steps);
    assert TabInv(Run(Start(web), steps), t);
  }
}
