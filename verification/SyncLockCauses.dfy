/**
 * Where every outcome of a call comes from, over every run of the sync lock: which step settled it, with what value,
 * and who took that step; when its timer runs; and in which order the Web Lock is granted
 * (crates/web-client/js/syncLock.js).
 */
module SyncLockCauses {
  import opened Common
  import opened SyncLock
  import opened SyncLockInvariants
  import opened SyncLockRuns

  // ---------------------------------------------------------------- who settles a call

  /** Call `d` leads generation `g` of tab `t`. */
  predicate Leads(s: Sys, d: CallId, g: nat, t: TabId) {
    d in s.calls && s.calls[d].role == Leader && s.calls[d].gen == g && s.calls[d].tab == t
  }

  /** One of these steps settled call `c` as `how`. */
  ghost predicate Caused(s: Sys, steps: seq<Step>, c: CallId, how: Settlement)
    requires c in s.calls
  {
    var t := s.calls[c].tab;
    match how
    case Coalesced(g, v) => exists d :: Release(d, v) in steps && Leads(s, d, g, t)
    case Failed(g, e) => exists d :: ReleaseError(d, e) in steps && Leads(s, d, g, t)
    case LeaderTimedOut(g) => exists d :: LeaderTimeout(d) in steps && Leads(s, d, g, t)
    case TimedOut => if s.calls[c].role == Leader then LeaderTimeout(c) in steps else WaiterTimeout(c) in steps
    case RequestFailed => RequestError(c) in steps
    case Acquired =>
      && s.calls[c].role == Leader
      && if s.web then Callback in steps else exists timeout :: Acquire(t, c, timeout) in steps
  }

  /** The call is settled now, and was not before. */
  predicate NewlySettled(s: Sys, s': Sys, c: CallId) {
    c in s'.calls && s'.calls[c].settled.Some? && (c in s.calls ==> s.calls[c].settled == None)
  }

  lemma ReleaseSettles(s: Sys, d: CallId, how: Settlement, end: End, c: CallId)
    requires Inv(s) && d in s.calls && InSection(s.calls[d]) && Announces(how, end, TabOf(s, s.calls[d].tab).gen)
    requires NewlySettled(s, DoRelease(s, d, how, end), c)
    ensures c in s.calls && s.calls[c].tab == s.calls[d].tab
    ensures DoRelease(s, d, how, end).calls[c].settled == Some(how) && how.gen == s.calls[d].gen
  {
    hide Inv, Remove, FirstToEnd, ErroredFrom, Distinct, QueueInv;
    CallHolds(s, d);
    TabHolds(s, s.calls[d].tab);
  }

  lemma LeaderTimeoutSettles(s: Sys, d: CallId, c: CallId)
    requires Inv(s) && Enabled(s, LeaderTimeout(d)) && NewlySettled(s, DoLeaderTimeout(s, d), c)
    ensures c in s.calls
    ensures if c == d then DoLeaderTimeout(s, d).calls[c].settled == Some(TimedOut)
            else && s.calls[c].tab == s.calls[d].tab
                 && DoLeaderTimeout(s, d).calls[c].settled == Some(LeaderTimedOut(s.calls[d].gen))
  {
    hide Inv, Remove, FirstToEnd, ErroredFrom, Distinct, QueueInv;
    TabHolds(s, s.calls[d].tab);
  }

  /** The one step that settles a call says how. */
  lemma StepCauses(s: Sys, step: Step, c: CallId)
    requires Inv(s) && Enabled(s, step) && NewlySettled(s, Next(s, step), c)
    ensures Caused(Next(s, step), [step], c, Next(s, step).calls[c].settled.value)
  {
    hide Inv, DoRelease, DoLeaderTimeout;
    match step
    case Acquire(t, d, timeout) =>
    case WaiterTimeout(d) =>
    case LeaderTimeout(d) =>
      LeaderTimeoutSettles(s, d, c);
      LeaderTimeoutRole(s, d, c);
    case Grant =>
    case Callback => CallbackRole(s);
    case RequestError(d) =>
    case Release(d, v) =>
      var how := Coalesced(TabOf(s, s.calls[d].tab).gen, v);
      ReleaseSettles(s, d, how, Completed(v), c);
      CallKept(s, step, d);
      CallKept(s, step, c);
      assert Leads(Next(s, step), d, s.calls[d].gen, s.calls[c].tab);
    case ReleaseError(d, e) =>
      var how := Failed(TabOf(s, s.calls[d].tab).gen, e);
      ReleaseSettles(s, d, how, Broken(e), c);
      CallKept(s, step, d);
      CallKept(s, step, c);
      assert Leads(Next(s, step), d, s.calls[d].gen, s.calls[c].tab);
    case Unlock =>
  }

  lemma LeaderTimeoutRole(s: Sys, d: CallId, c: CallId)
    requires Enabled(s, LeaderTimeout(d)) && c in s.calls
    ensures c in DoLeaderTimeout(s, d).calls && DoLeaderTimeout(s, d).calls[c].tab == s.calls[c].tab
    ensures DoLeaderTimeout(s, d).calls[c].role == s.calls[c].role
    ensures Leads(DoLeaderTimeout(s, d), d, s.calls[d].gen, s.calls[d].tab)
  {
    hide SettleAll, TabOf;
  }

  lemma CallbackRole(s: Sys)
    requires Inv(s) && Enabled(s, Callback)
    ensures s.web && s.calls[s.holder.call].role == Leader
  {
    hide Inv;
    QueueHolds(s);
  }

  lemma CausedLater(s: Sys, step: Step, steps: seq<Step>, c: CallId, how: Settlement)
    requires Enabled(s, step) && c in s.calls && Caused(s, steps, c, how)
    ensures c in Next(s, step).calls && Caused(Next(s, step), steps + [step], c, how)
  {
    hide Enabled, Next;
    CallKept(s, step, c);
    WebKept(s, step);
    forall d, g | Leads(s, d, g, s.calls[c].tab) ensures Leads(Next(s, step), d, g, s.calls[c].tab) {
      CallKept(s, step, d);
    }
  }

  lemma WebKept(s: Sys, step: Step)
    requires Enabled(s, step)
    ensures Next(s, step).web == s.web
  {
  }

  lemma {:induction false} RunSnoc(s: Sys, steps: seq<Step>)
    requires Possible(s, steps) && steps != []
    ensures var front, last := steps[..|steps| - 1], steps[|steps| - 1];
            Possible(s, front) && Enabled(Run(s, front), last) && Run(s, steps) == Next(Run(s, front), last)
    decreases |steps|
  {
    hide Enabled, Next;
    if |steps| > 1 {
      var s' := Next(s, steps[0]);
      RunSnoc(s', steps[1..]);
      assert steps[..|steps| - 1][0] == steps[0];
      assert steps[..|steps| - 1][1..] == steps[1..][..|steps| - 2];
    }
  }

  /**
   * Over every run, whatever a call was told comes from a step of that run: a result or an error from the release of
   * the leader of the generation named, with that very value; a leader's timeout from the timer of that generation's
   * leader; its own timeout from its own timer; a failed request from its own; and the lock from the callback.
   */
  lemma {:induction false} EveryOutcomeCaused(web: bool, steps: seq<Step>, c: CallId)
    requires Possible(Start(web), steps)
    requires c in Run(Start(web), steps).calls && Run(Start(web), steps).calls[c].settled.Some?
    ensures Caused(Run(Start(web), steps), steps, c, Run(Start(web), steps).calls[c].settled.value)
    decreases |steps|
  {
    hide Inv, Enabled, Next, Caused;
    if steps != [] {
      var front, last := steps[..|steps| - 1], steps[|steps| - 1];
      RunSnoc(Start(web), steps);
      StartInv(web);
      RunKeeps(Start(web), front);
      var s := Run(Start(web), front);
      assert steps == front + [last];
      if c in s.calls && s.calls[c].settled.Some? {
        EveryOutcomeCaused(web, front, c);
        PromiseKept(s, last, c);
        CausedLater(s, last, front, c, s.calls[c].settled.value);
      } else {
        StepCauses(s, last, c);
        CausedByMore(Next(s, last), front, last, c, Next(s, last).calls[c].settled.value);
      }
    }
  }

  lemma CausedByMore(s: Sys, front: seq<Step>, last: Step, c: CallId, how: Settlement)
    requires c in s.calls && Caused(s, [last], c, how)
    ensures Caused(s, front + [last], c, how)
  {
    assert forall step :: step in [last] ==> step in front + [last];
  }

  // ---------------------------------------------------------------- timers

  lemma TimerStep(s: Sys, step: Step, c: CallId)
    requires Inv(s) && Enabled(s, step) && c in s.calls && c in Next(s, step).calls
    requires Next(s, step).calls[c].settled == None
    ensures s.calls[c].settled == None && Next(s, step).calls[c].timer == s.calls[c].timer
  {
    hide Inv, Remove, FirstToEnd, ErroredFrom, Distinct, QueueInv, WaiterInv, TabInv;
    if step.LeaderTimeout? || step.Release? || step.ReleaseError? {
      CallHolds(s, step.c);
    }
  }

  lemma TimerFirst(s: Sys, step: Step, c: CallId)
    requires Inv(s) && Enabled(s, step) && c !in s.calls && c in Next(s, step).calls
    ensures exists t, timeout :: step == Acquire(t, c, timeout) && (Next(s, step).calls[c].settled == None ==>
                                                                    Next(s, step).calls[c].timer == timeout)
  {
    hide Inv, Remove;
  }

  /** Over every run, a call that is still unsettled has its timer running exactly if it was made with a timeout. */
  lemma {:induction false} TimerIff(web: bool, steps: seq<Step>, c: CallId)
    requires Possible(Start(web), steps)
    requires c in Run(Start(web), steps).calls && Run(Start(web), steps).calls[c].settled == None
    ensures Run(Start(web), steps).calls[c].timer <==> exists t :: Acquire(t, c, true) in steps
    decreases |steps|
  {
    hide Inv, Enabled, Next;
    if steps != [] {
      var front, last := steps[..|steps| - 1], steps[|steps| - 1];
      RunSnoc(Start(web), steps);
      StartInv(web);
      RunKeeps(Start(web), front);
      var s := Run(Start(web), front);
      assert steps == front + [last];
      if c in s.calls {
        TimerStep(s, last, c);
        TimerIff(web, front, c);
        AcquiredOnce(s, last, c);
      } else {
        TimerFirst(s, last, c);
        NeverCalled(web, front, c);
      }
    }
  }

  lemma AcquiredOnce(s: Sys, step: Step, c: CallId)
    requires Enabled(s, step) && c in s.calls
    ensures !(step.Acquire? && step.c == c)
  {
  }

  lemma {:induction false} NeverCalled(web: bool, steps: seq<Step>, c: CallId)
    requires Possible(Start(web), steps) && c !in Run(Start(web), steps).calls
    ensures forall i :: 0 <= i < |steps| ==> !(steps[i].Acquire? && steps[i].c == c)
    decreases |steps|
  {
    hide Enabled, Next;
    if steps != [] {
      var front, last := steps[..|steps| - 1], steps[|steps| - 1];
      RunSnoc(Start(web), steps);
      var s := Run(Start(web), front);
      if c in s.calls {
        CallKept(s, last, c);
      }
      NeverCalled(web, front, c);
      if last.Acquire? && last.c == c {
        AcquireAdds(s, last);
      }
      assert forall i :: 0 <= i < |front| ==> front[i] == steps[i];
    }
  }

  lemma AcquireAdds(s: Sys, step: Step)
    requires Enabled(s, step) && step.Acquire?
    ensures step.c in Next(s, step).calls
  {
  }

  /** Nothing is ruled out: whoever may act can, whenever it likes and with whatever value. */
  lemma AnyoneCanAct(s: Sys, c: CallId, t: TabId, timeout: bool, value: Value)
    ensures c !in s.calls ==> Enabled(s, Acquire(t, c, timeout))
    ensures c in s.calls && s.calls[c].timer ==>
              Enabled(s, if s.calls[c].role == Waiter then WaiterTimeout(c) else LeaderTimeout(c))
    ensures c in s.calls && c in s.queue ==> Enabled(s, RequestError(c))
    ensures c in s.calls && InSection(s.calls[c]) ==>
              Enabled(s, Release(c, value)) && Enabled(s, ReleaseError(c, value))
    ensures s.holder == Free && s.queue != [] ==> Enabled(s, Grant)
  {
  }

  // ---------------------------------------------------------------- first come, first served

  /** Both requests are queued, `c` before `d`. */
  ghost predicate Before(q: seq<CallId>, c: CallId, d: CallId) {
    exists i, j :: 0 <= i < j < |q| && q[i] == c && q[j] == d
  }

  lemma {:induction false} RemoveKeepsOrder(q: seq<CallId>, x: CallId, c: CallId, d: CallId)
    requires Before(q, c, d) && x != c && x != d
    ensures Before(Remove(q, x), c, d)
  {
    var i, j :| 0 <= i < j < |q| && q[i] == c && q[j] == d;
    var rest := Remove(q[1..], x);
    if i == 0 {
      assert d in q[1..] by { assert q[1..][j - 1] == d; }
      var k :| 0 <= k < |rest| && rest[k] == d;
      assert Remove(q, x) == [q[0]] + rest;
      assert Remove(q, x)[0] == c && Remove(q, x)[k + 1] == d;
    } else {
      assert q[1..][i - 1] == c && q[1..][j - 1] == d;
      assert Before(q[1..], c, d);
      RemoveKeepsOrder(q[1..], x, c, d);
      var k, l :| 0 <= k < l < |rest| && rest[k] == c && rest[l] == d;
      if q[0] != x {
        assert Remove(q, x)[k + 1] == c && Remove(q, x)[l + 1] == d;
      }
    }
  }

  lemma OrderStep(s: Sys, step: Step, c: CallId, d: CallId)
    requires Inv(s) && Enabled(s, step) && Before(s.queue, c, d) && step != RequestError(d)
    ensures Before(Next(s, step).queue, c, d) || c !in Next(s, step).queue
  {
    hide Inv, Remove, SettleAll;
    QueueHolds(s);
    var i, j :| 0 <= i < j < |s.queue| && s.queue[i] == c && s.queue[j] == d;
    match step
    case Acquire(t, e, timeout) =>
      var q' := Next(s, step).queue;
      assert q'[i] == c && q'[j] == d;
    case Grant =>
      if i == 0 {
        LeavesQueue(s.queue, c);
      } else {
        assert s.queue[1..][i - 1] == c && s.queue[1..][j - 1] == d;
      }
    case RequestError(e) =>
      if e != c {
        RemoveKeepsOrder(s.queue, e, c, d);
      }
    case _ => assert Next(s, step).queue == s.queue;
  }

  lemma LeavesQueue(q: seq<CallId>, c: CallId)
    requires Distinct(q) && q != [] && q[0] == c
    ensures c !in q[1..]
  {
  }

  /** A request that has left the queue never comes back. */
  lemma QueueOnce(s: Sys, step: Step, c: CallId)
    requires Enabled(s, step) && c in s.calls && c !in s.queue
    ensures c !in Next(s, step).queue
  {
  }

  /**
   * First come, first served, over every continuation: of two queued requests, the later one is not granted while the
   * earlier one still waits; it can only fail.
   */
  lemma {:induction false} FirstComeFirstServed(s: Sys, steps: seq<Step>, c: CallId, d: CallId)
    requires Inv(s) && Possible(s, steps) && Before(s.queue, c, d) && RequestError(d) !in steps
    ensures var s' := Run(s, steps); Before(s'.queue, c, d) || c !in s'.queue
    decreases |steps|
  {
    hide Inv, Enabled, Next, Before;
    if steps != [] {
      var s' := Next(s, steps[0]);
      StepKeeps(s, steps[0]);
      OrderStep(s, steps[0], c, d);
      if Before(s'.queue, c, d) {
        FirstComeFirstServed(s', steps[1..], c, d);
      } else {
        QueuedIsCall(s, c, d);
        CallKept(s, steps[0], c);
        NeverBack(s', steps[1..], c);
      }
    }
  }

  lemma QueuedIsCall(s: Sys, c: CallId, d: CallId)
    requires Inv(s) && Before(s.queue, c, d)
    ensures c in s.calls && d in s.calls
  {
    hide Inv;
    QueueHolds(s);
  }

  lemma {:induction false} NeverBack(s: Sys, steps: seq<Step>, c: CallId)
    requires Possible(s, steps) && c in s.calls && c !in s.queue
    ensures c !in Run(s, steps).queue
    decreases |steps|
  {
    hide Enabled, Next;
    if steps != [] {
      QueueOnce(s, steps[0], c);
      CallKept(s, steps[0], c);
      NeverBack(Next(s, steps[0]), steps[1..], c);
    }
  }
}
