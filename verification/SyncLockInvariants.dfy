/**
 * The invariants of the sync lock, and the proof that every step of every tab and of the lock manager
 * keeps them: for each step, what becomes of the Web Lock queue, of a tab's record and of a call.
 */
module SyncLockInvariants {
  import opened Common
  import opened SyncLock

  // ---------------------------------------------------------------- invariants

  /** A sync in progress has a live leader: queued, granted, or in its section. */
  ghost predicate Live(s: Sys, t: TabId, tab: Tab) {
    && tab.leader in s.calls && tab.gen !in tab.ended
    && var call := s.calls[tab.leader];
       && call.tab == t && call.gen == tab.gen && call.role == Leader && !call.timedOut
       && (InSection(call) || (call.settled == None && (tab.leader in s.queue
           || s.holder == Held(tab.leader, Granted))))
  }

  /**
   * The record of one tab: listed waiters are its unsettled waiters, `releaseLock` is set only while its
   * own call runs under the Web Lock, a sync in progress is led, and only past generations have ended.
   */
  ghost predicate TabInv(s: Sys, t: TabId) {
    var tab := TabOf(s, t);
    && Distinct(tab.waiters)
    && (forall c :: c in tab.waiters ==>
          c in s.calls && s.calls[c].role == Waiter && s.calls[c].tab == t && s.calls[c].settled == None)
    && (tab.releaseLock.Some? ==>
          s.holder == Held(tab.releaseLock.value, Running) && tab.releaseLock.value in s.calls
              && s.calls[tab.releaseLock.value].tab == t)
    && (tab.inProgress ==> Live(s, t, tab))
    && (forall g :: g in tab.ended ==> g <= tab.gen)
  }

  /** A call that leads; in its section it is the current leader, and under Web Locks the running holder. */
  ghost predicate LeaderInv(s: Sys, c: CallId, call: Call, tab: Tab) {
    && (call.gen == tab.gen ==> c == tab.leader && (call.settled == None ==> tab.inProgress))
    && (call.settled != Some(Acquired) ==> !call.released)
    && (call.timer ==> call.settled == None && s.web)
    && (call.timedOut ==> !call.timer && call.settled == Some(TimedOut))
    && (InSection(call) ==>
          && tab.inProgress && tab.gen == call.gen && !call.timer && !call.timedOut
          && (s.web ==> s.holder == Held(c, Running) && tab.releaseLock == Some(c)))
  }

  /** All generations from `from` up to `to`, exclusive, ended in a failed lock request. */
  ghost predicate ErroredFrom(tab: Tab, from: nat, to: nat) {
    forall g: nat :: from <= g < to ==> Get(tab.ended, g) == Some(Errored)
  }

  /** Generation `g` is the one awaited since `from`, or the first later one not lost to a failed request. */
  ghost predicate FirstToEnd(tab: Tab, from: nat, g: nat, end: End) {
    from <= g && ErroredFrom(tab, from, g) && Get(tab.ended, g) == Some(end)
  }

  /**
   * A call that waits: it is listed exactly while unsettled, has then seen only failed lock requests, and a
   * coalesced outcome is that of the generation it awaited, or of the first later one to end otherwise.
   */
  ghost predicate WaiterInv(s: Sys, c: CallId, call: Call, tab: Tab) {
    && (call.settled == None <==> c in tab.waiters)
    && (call.timer ==> call.settled == None)
    && (call.settled == None ==> ErroredFrom(tab, call.gen, if tab.inProgress then tab.gen else tab.gen + 1))
    && (call.settled.Some? ==>
          match call.settled.value
          case Coalesced(g, result) => FirstToEnd(tab, call.gen, g, Completed(result))
          case Failed(g, error) => FirstToEnd(tab, call.gen, g, Broken(error))
          case LeaderTimedOut(g) => FirstToEnd(tab, call.gen, g, Expired)
          case TimedOut => true
          case _ => false)
  }

  ghost predicate CallInv(s: Sys, c: CallId)
    requires c in s.calls
  {
    var call := s.calls[c];
    var tab := TabOf(s, call.tab);
    && call.gen <= tab.gen
    && (call.role == Leader ==> LeaderInv(s, c, call, tab))
    && (call.role == Waiter ==> WaiterInv(s, c, call, tab))
  }

  /** The Web Lock: queued requests are distinct and not yet granted, and a running holder is in its section. */
  ghost predicate QueueInv(s: Sys) {
    && Distinct(s.queue)
    && (forall c :: c in s.queue ==>
          s.web && c in s.calls && s.calls[c].role == Leader && (s.calls[c].settled == None || s.calls[c].timedOut))
    && (s.holder.Held? ==>
          && s.web && s.holder.call !in s.queue && s.holder.call in s.calls && s.calls[s.holder.call].role == Leader
          && (s.holder.phase == Granted ==> s.calls[s.holder.call].settled == None || s.calls[s.holder.call].timedOut)
          && (s.holder.phase == Running ==> InSection(s.calls[s.holder.call])))
  }

  ghost predicate Inv(s: Sys) {
    && QueueInv(s)
    && (forall t :: TabInv(s, t))
    && (forall c :: c in s.calls ==> CallInv(s, c))
  }

  // ---------------------------------------------------------------- every step keeps them

  lemma StartInv(web: bool)
    ensures Inv(Start(web))
  {
  }

  /** What the end of a generation adds to what is known of past ones. */
  lemma EndAdded(tab: Tab, tab': Tab, end: End)
    requires tab.gen !in tab.ended && tab'.ended == tab.ended[tab.gen := end]
    ensures forall from: nat, to: nat :: ErroredFrom(tab, from, to) ==> ErroredFrom(tab', from, to)
    ensures forall from: nat, g: nat, e :: FirstToEnd(tab, from, g, e) ==> FirstToEnd(tab', from, g, e)
    ensures forall from: nat ::
              from <= tab.gen && ErroredFrom(tab, from, tab.gen) ==> FirstToEnd(tab', from, tab.gen, end)
    ensures end == Errored ==> forall from: nat, to: nat ::
              ErroredFrom(tab, from, tab.gen) && to == tab.gen + 1 ==> ErroredFrom(tab', from, to)
  {
    forall from: nat, to: nat | ErroredFrom(tab, from, to) ensures ErroredFrom(tab', from, to) {
      forall g: nat | from <= g < to ensures Get(tab'.ended, g) == Some(Errored) {
        assert Get(tab.ended, g) == Some(Errored);
      }
    }
  }

  lemma ErroredNone(tab: Tab, gen: nat)
    ensures ErroredFrom(tab, gen, gen)
  {
  }

  lemma EndedSame(tab: Tab, tab': Tab)
    requires tab'.ended == tab.ended
    ensures forall from: nat, to: nat :: ErroredFrom(tab, from, to) ==> ErroredFrom(tab', from, to)
    ensures forall from: nat, g: nat, e :: FirstToEnd(tab, from, g, e) ==> FirstToEnd(tab', from, g, e)
  {
  }

  /** A release tells its waiters the result or the error with which it ends its generation. */
  predicate Announces(how: Settlement, end: End, gen: nat) {
    match how
    case Coalesced(g, result) => g == gen && end == Completed(result)
    case Failed(g, error) => g == gen && end == Broken(error)
    case _ => false
  }

  lemma QueueHolds(s: Sys)
    requires Inv(s)
    ensures QueueInv(s)
  {
  }

  lemma TabHolds(s: Sys, t: TabId)
    requires Inv(s)
    ensures TabInv(s, t)
  {
  }

  lemma CallHolds(s: Sys, c: CallId)
    requires Inv(s) && c in s.calls
    ensures CallInv(s, c)
  {
  }

  lemma WaitQueue(s: Sys, t: TabId, c: CallId, timeout: bool)
    requires Inv(s) && c !in s.calls && TabOf(s, t).inProgress
    ensures QueueInv(DoAcquire(s, t, c, timeout))
  {
    hide Inv;
    QueueHolds(s);
  }

  lemma WaitTab(s: Sys, t: TabId, c: CallId, timeout: bool, b: TabId)
    requires Inv(s) && c !in s.calls && TabOf(s, t).inProgress
    ensures TabInv(DoAcquire(s, t, c, timeout), b)
  {
    hide Inv;
    QueueHolds(s);
    var s' := DoAcquire(s, t, c, timeout);
    assert TabOf(s', b) == if b == t then TabOf(s, t).(waiters := TabOf(s, t).waiters + [c]) else TabOf(s, b);
    TabHolds(s, b);
  }

  lemma WaitCall(s: Sys, t: TabId, c: CallId, timeout: bool, d: CallId)
    requires Inv(s) && c !in s.calls && TabOf(s, t).inProgress && d in DoAcquire(s, t, c, timeout).calls
    ensures CallInv(DoAcquire(s, t, c, timeout), d)
  {
    hide Inv, ErroredFrom, FirstToEnd, SettleAll, Remove, Distinct, QueueInv;
    var s' := DoAcquire(s, t, c, timeout);
    var b := s'.calls[d].tab;
    assert TabOf(s', b) == if b == t then TabOf(s, t).(waiters := TabOf(s, t).waiters + [c]) else TabOf(s, b);
    if d in s.calls { CallHolds(s, d); TabHolds(s, s.calls[d].tab); }
    ErroredNone(TabOf(s', t), TabOf(s, t).gen);
    EndedSame(TabOf(s, b), TabOf(s', b));
  }

  lemma LeadQueue(s: Sys, t: TabId, c: CallId, timeout: bool)
    requires Inv(s) && c !in s.calls && !TabOf(s, t).inProgress
    ensures QueueInv(DoAcquire(s, t, c, timeout))
  {
    hide Inv;
    QueueHolds(s);
  }

  lemma LeadTab(s: Sys, t: TabId, c: CallId, timeout: bool, b: TabId)
    requires Inv(s) && c !in s.calls && !TabOf(s, t).inProgress
    ensures TabInv(DoAcquire(s, t, c, timeout), b)
  {
    hide Inv;
    QueueHolds(s);
    var s' := DoAcquire(s, t, c, timeout);
    assert TabOf(s', b) == if b == t then TabOf(s, t).(inProgress := true, gen := TabOf(s, t).gen + 1, leader := c)
           else TabOf(s, b);
    TabHolds(s, b);
  }

  lemma LeadCall(s: Sys, t: TabId, c: CallId, timeout: bool, d: CallId)
    requires Inv(s) && c !in s.calls && !TabOf(s, t).inProgress && d in DoAcquire(s, t, c, timeout).calls
    ensures CallInv(DoAcquire(s, t, c, timeout), d)
  {
    hide Inv, ErroredFrom, FirstToEnd, SettleAll, Remove, Distinct, QueueInv;
    var s' := DoAcquire(s, t, c, timeout);
    var b := s'.calls[d].tab;
    assert TabOf(s', b) == if b == t then TabOf(s, t).(inProgress := true, gen := TabOf(s, t).gen + 1, leader := c)
           else TabOf(s, b);
    if d in s.calls { CallHolds(s, d); TabHolds(s, s.calls[d].tab); }
    EndedSame(TabOf(s, b), TabOf(s', b));
  }

  lemma WaiterTimeoutQueue(s: Sys, c: CallId)
    requires Inv(s) && Enabled(s, WaiterTimeout(c))
    ensures QueueInv(DoWaiterTimeout(s, c))
  {
    hide Inv;
    QueueHolds(s);
  }

  lemma WaiterTimeoutTab(s: Sys, c: CallId, b: TabId)
    requires Inv(s) && Enabled(s, WaiterTimeout(c))
    ensures TabInv(DoWaiterTimeout(s, c), b)
  {
    hide Inv;
    QueueHolds(s);
    var s' := DoWaiterTimeout(s, c);
    assert TabOf(s', b) == if b == s.calls[c].tab then TabOf(s, b).(waiters := Remove(TabOf(s, b).waiters, c))
           else TabOf(s, b);
    TabHolds(s, b);
    RemoveDistinct(TabOf(s, b).waiters, c);
  }

  lemma WaiterTimeoutCall(s: Sys, c: CallId, d: CallId)
    requires Inv(s) && Enabled(s, WaiterTimeout(c)) && d in DoWaiterTimeout(s, c).calls
    ensures CallInv(DoWaiterTimeout(s, c), d)
  {
    hide Inv, ErroredFrom, FirstToEnd, SettleAll, Remove, Distinct, QueueInv;
    var s' := DoWaiterTimeout(s, c);
    var b := s'.calls[d].tab;
    assert TabOf(s', b) == if b == s.calls[c].tab then TabOf(s, b).(waiters := Remove(TabOf(s, b).waiters, c))
           else TabOf(s, b);
    if d in s.calls { CallHolds(s, d); TabHolds(s, s.calls[d].tab); }
    EndedSame(TabOf(s, b), TabOf(s', b));
  }

  lemma LeaderTimeoutQueue(s: Sys, c: CallId)
    requires Inv(s) && Enabled(s, LeaderTimeout(c))
    ensures QueueInv(DoLeaderTimeout(s, c))
  {
    hide Inv;
    QueueHolds(s);
    CallHolds(s, c);
    TabHolds(s, s.calls[c].tab);
    if s.holder.Held? { CallHolds(s, s.holder.call); }
  }

  lemma LeaderTimeoutTab(s: Sys, c: CallId, b: TabId)
    requires Inv(s) && Enabled(s, LeaderTimeout(c))
    ensures TabInv(DoLeaderTimeout(s, c), b)
  {
    hide Inv, SettleAll, QueueInv, ErroredFrom, FirstToEnd;
    var s' := DoLeaderTimeout(s, c);
    assert TabOf(s', b) ==
           if b == s.calls[c].tab && TabOf(s, b).gen == s.calls[c].gen
           then TabOf(s, b).(inProgress := false, waiters := [],
                             ended := TabOf(s, b).ended[TabOf(s, b).gen := Expired])
           else TabOf(s, b);
    TabHolds(s, b);
    CallHolds(s, c); TabHolds(s, s.calls[c].tab);
  }

  lemma LeaderTimeoutCall(s: Sys, c: CallId, d: CallId)
    requires Inv(s) && Enabled(s, LeaderTimeout(c)) && d in DoLeaderTimeout(s, c).calls
    ensures CallInv(DoLeaderTimeout(s, c), d)
  {
    hide CallInv, Inv;
    if s.calls[d].role == Leader { LeaderTimeoutLeader(s, c, d); } else { LeaderTimeoutWaiter(s, c, d); }
  }

  lemma LeaderTimeoutLeader(s: Sys, c: CallId, d: CallId)
    requires Inv(s) && Enabled(s, LeaderTimeout(c)) && d in DoLeaderTimeout(s, c).calls && s.calls[d].role == Leader
    ensures CallInv(DoLeaderTimeout(s, c), d)
  {
    hide Inv, WaiterInv, ErroredFrom, FirstToEnd, SettleAll, Remove, Distinct, QueueInv;
    var s' := DoLeaderTimeout(s, c);
    var b := s'.calls[d].tab;
    assert TabOf(s', b) ==
           if b == s.calls[c].tab && TabOf(s, b).gen == s.calls[c].gen
           then TabOf(s, b).(inProgress := false, waiters := [],
                             ended := TabOf(s, b).ended[TabOf(s, b).gen := Expired])
           else TabOf(s, b);
    CallHolds(s, c); TabHolds(s, s.calls[c].tab);
    if d in s.calls { CallHolds(s, d); TabHolds(s, s.calls[d].tab); }
    if TabOf(s', b).ended == TabOf(s, b).ended {
      EndedSame(TabOf(s, b), TabOf(s', b));
    } else {
      EndAdded(TabOf(s, b), TabOf(s', b), Expired);
    }
  }

  /** A leader's timer runs only while its sync is in progress. */
  lemma LeaderTimerRuns(s: Sys, c: CallId)
    requires Inv(s) && Enabled(s, LeaderTimeout(c)) && TabOf(s, s.calls[c].tab).gen == s.calls[c].gen
    ensures TabOf(s, s.calls[c].tab).inProgress && TabOf(s, s.calls[c].tab).gen !in TabOf(s, s.calls[c].tab).ended
  {
    hide Inv, ErroredFrom, FirstToEnd, QueueInv, Distinct;
    CallHolds(s, c);
    TabHolds(s, s.calls[c].tab);
  }

  lemma LeaderTimeoutWaiter(s: Sys, c: CallId, d: CallId)
    requires Inv(s) && Enabled(s, LeaderTimeout(c)) && d in DoLeaderTimeout(s, c).calls && s.calls[d].role == Waiter
    ensures CallInv(DoLeaderTimeout(s, c), d)
  {
    hide Inv, ErroredFrom, FirstToEnd, SettleAll, QueueInv, TabInv, LeaderInv;
    var s' := DoLeaderTimeout(s, c);
    var b := s.calls[d].tab;
    CallHolds(s, d);
    if b == s.calls[c].tab && TabOf(s, b).gen == s.calls[c].gen {
      LeaderTimerRuns(s, c);
      assert TabOf(s', b) == TabOf(s, b).(inProgress := false, waiters := [],
                                          ended := TabOf(s, b).ended[TabOf(s, b).gen := Expired]);
      EndAdded(TabOf(s, b), TabOf(s', b), Expired);
    } else {
      assert TabOf(s', b) == TabOf(s, b);
      assert s'.calls[d] == s.calls[d] by { OtherWaitersKept(s, c, d); }
    }
  }

  /** A leader's timeout settles waiters of its own tab only. */
  lemma OtherWaitersKept(s: Sys, c: CallId, d: CallId)
    requires Inv(s) && Enabled(s, LeaderTimeout(c)) && d in s.calls && s.calls[d].role == Waiter
    requires !(s.calls[d].tab == s.calls[c].tab && TabOf(s, s.calls[d].tab).gen == s.calls[c].gen)
    ensures DoLeaderTimeout(s, c).calls[d] == s.calls[d]
  {
    hide Inv, ErroredFrom, FirstToEnd, SettleAll, QueueInv, Distinct;
    TabHolds(s, s.calls[c].tab);
  }

  lemma GrantQueue(s: Sys)
    requires Inv(s) && Enabled(s, Grant)
    ensures QueueInv(DoGrant(s))
  {
    hide Inv;
    QueueHolds(s);
    assert s.queue == [s.queue[0]] + s.queue[1..];
    assert s.queue[0] in s.queue;
  }

  lemma GrantTab(s: Sys, b: TabId)
    requires Inv(s) && Enabled(s, Grant)
    ensures TabInv(DoGrant(s), b)
  {
    hide Inv;
    QueueHolds(s);
    var s' := DoGrant(s);
    assert TabOf(s', b) == TabOf(s, b);
    TabHolds(s, b);
  }

  lemma GrantCall(s: Sys, d: CallId)
    requires Inv(s) && Enabled(s, Grant) && d in DoGrant(s).calls
    ensures CallInv(DoGrant(s), d)
  {
    hide Inv, ErroredFrom, FirstToEnd, SettleAll, Remove, Distinct, QueueInv;
    var s' := DoGrant(s);
    var b := s'.calls[d].tab;
    assert TabOf(s', b) == TabOf(s, b);
    if d in s.calls { CallHolds(s, d); TabHolds(s, s.calls[d].tab); }
    EndedSame(TabOf(s, b), TabOf(s', b));
  }

  lemma CallbackQueue(s: Sys)
    requires Inv(s) && Enabled(s, Callback)
    ensures QueueInv(DoCallback(s))
  {
    hide Inv;
    QueueHolds(s);
    CallHolds(s, s.holder.call);
  }

  lemma CallbackTab(s: Sys, b: TabId)
    requires Inv(s) && Enabled(s, Callback)
    ensures TabInv(DoCallback(s), b)
  {
    hide Inv;
    QueueHolds(s);
    var s' := DoCallback(s);
    assert TabOf(s', b) == if !Stale(s, s.holder.call) && b == s.calls[s.holder.call].tab
           then TabOf(s, b).(releaseLock := Some(s.holder.call)) else TabOf(s, b);
    TabHolds(s, b);
    CallHolds(s, s.holder.call); TabHolds(s, s.calls[s.holder.call].tab);
  }

  lemma CallbackCall(s: Sys, d: CallId)
    requires Inv(s) && Enabled(s, Callback) && d in DoCallback(s).calls
    ensures CallInv(DoCallback(s), d)
  {
    hide Inv, ErroredFrom, FirstToEnd, SettleAll, Remove, Distinct;
    QueueHolds(s);
    var s' := DoCallback(s);
    var b := s'.calls[d].tab;
    assert TabOf(s', b) == if !Stale(s, s.holder.call) && b == s.calls[s.holder.call].tab
           then TabOf(s, b).(releaseLock := Some(s.holder.call)) else TabOf(s, b);
    CallHolds(s, s.holder.call); TabHolds(s, s.calls[s.holder.call].tab);
    if d in s.calls { CallHolds(s, d); TabHolds(s, s.calls[d].tab); }
    EndedSame(TabOf(s, b), TabOf(s', b));
  }

  lemma RequestErrorQueue(s: Sys, c: CallId)
    requires Inv(s) && Enabled(s, RequestError(c))
    ensures QueueInv(DoRequestError(s, c))
  {
    hide Inv;
    QueueHolds(s);
    RemoveDistinct(s.queue, c);
  }

  lemma RequestErrorTab(s: Sys, c: CallId, b: TabId)
    requires Inv(s) && Enabled(s, RequestError(c))
    ensures TabInv(DoRequestError(s, c), b)
  {
    hide Inv, Remove, WaiterInv, ErroredFrom, FirstToEnd;
    QueueHolds(s);
    var s' := DoRequestError(s, c);
    assert TabOf(s', b) ==
           if b == s.calls[c].tab && TabOf(s, b).gen == s.calls[c].gen
           then TabOf(s, b).(inProgress := false,
                             ended := if TabOf(s, b).inProgress then TabOf(s, b).ended[TabOf(s, b).gen := Errored]
                                      else TabOf(s, b).ended)
           else TabOf(s, b);
    TabHolds(s, b);
    CallHolds(s, c);
  }

  lemma RequestErrorCall(s: Sys, c: CallId, d: CallId)
    requires Inv(s) && Enabled(s, RequestError(c)) && d in DoRequestError(s, c).calls
    ensures CallInv(DoRequestError(s, c), d)
  {
    hide Inv, ErroredFrom, FirstToEnd, SettleAll, Remove, Distinct;
    QueueHolds(s);
    var s' := DoRequestError(s, c);
    var b := s'.calls[d].tab;
    assert TabOf(s', b) ==
           if b == s.calls[c].tab && TabOf(s, b).gen == s.calls[c].gen
           then TabOf(s, b).(inProgress := false,
                             ended := if TabOf(s, b).inProgress then TabOf(s, b).ended[TabOf(s, b).gen := Errored]
                                      else TabOf(s, b).ended)
           else TabOf(s, b);
    CallHolds(s, c); TabHolds(s, s.calls[c].tab);
    if d in s.calls { CallHolds(s, d); TabHolds(s, s.calls[d].tab); }
    if TabOf(s', b).ended == TabOf(s, b).ended {
      EndedSame(TabOf(s, b), TabOf(s', b));
    } else {
      EndAdded(TabOf(s, b), TabOf(s', b), Errored);
    }
  }

  lemma ReleaseQueue(s: Sys, c: CallId, how: Settlement, end: End)
    requires Inv(s) && c in s.calls && InSection(s.calls[c]) && Announces(how, end, TabOf(s, s.calls[c].tab).gen)
    ensures QueueInv(DoRelease(s, c, how, end))
  {
    hide Inv;
    QueueHolds(s);
    CallHolds(s, c); TabHolds(s, s.calls[c].tab);
  }

  lemma ReleaseTab(s: Sys, c: CallId, how: Settlement, end: End, b: TabId)
    requires Inv(s) && c in s.calls && InSection(s.calls[c]) && Announces(how, end, TabOf(s, s.calls[c].tab).gen)
    ensures TabInv(DoRelease(s, c, how, end), b)
  {
    hide Inv;
    QueueHolds(s);
    CallHolds(s, c); TabHolds(s, s.calls[c].tab);
    var s' := DoRelease(s, c, how, end);
    assert TabOf(s', b) ==
           if b == s.calls[c].tab
           then TabOf(s, b).(inProgress := false, waiters := [], releaseLock := None,
                             ended := TabOf(s, b).ended[TabOf(s, b).gen := end])
           else TabOf(s, b);
    TabHolds(s, b);
  }

  lemma ReleaseCall(s: Sys, c: CallId, how: Settlement, end: End, d: CallId)
    requires Inv(s) && c in s.calls && InSection(s.calls[c]) && Announces(how, end, TabOf(s, s.calls[c].tab).gen)
             && d in DoRelease(s, c, how, end).calls
    ensures CallInv(DoRelease(s, c, how, end), d)
  {
    hide Inv, ErroredFrom, FirstToEnd, SettleAll, Remove, Distinct, QueueInv;
    CallHolds(s, c); TabHolds(s, s.calls[c].tab);
    var s' := DoRelease(s, c, how, end);
    var b := s'.calls[d].tab;
    assert TabOf(s', b) ==
           if b == s.calls[c].tab
           then TabOf(s, b).(inProgress := false, waiters := [], releaseLock := None,
                             ended := TabOf(s, b).ended[TabOf(s, b).gen := end])
           else TabOf(s, b);
    if d in s.calls { CallHolds(s, d); TabHolds(s, s.calls[d].tab); }
    if TabOf(s', b).ended == TabOf(s, b).ended {
      EndedSame(TabOf(s, b), TabOf(s', b));
    } else {
      EndAdded(TabOf(s, b), TabOf(s', b), end);
    }
  }

  lemma UnlockQueue(s: Sys)
    requires Inv(s) && Enabled(s, Unlock)
    ensures QueueInv(s.(holder := Free))
  {
    hide Inv;
    QueueHolds(s);
  }

  lemma UnlockTab(s: Sys, b: TabId)
    requires Inv(s) && Enabled(s, Unlock)
    ensures TabInv(s.(holder := Free), b)
  {
    hide Inv;
    QueueHolds(s);
    var s' := s.(holder := Free);
    assert TabOf(s', b) == TabOf(s, b);
    TabHolds(s, b);
  }

  lemma UnlockCall(s: Sys, d: CallId)
    requires Inv(s) && Enabled(s, Unlock) && d in s.(holder := Free).calls
    ensures CallInv(s.(holder := Free), d)
  {
    hide Inv, ErroredFrom, FirstToEnd, SettleAll, Remove, Distinct, QueueInv;
    var s' := s.(holder := Free);
    var b := s'.calls[d].tab;
    assert TabOf(s', b) == TabOf(s, b);
    if d in s.calls { CallHolds(s, d); TabHolds(s, s.calls[d].tab); }
    EndedSame(TabOf(s, b), TabOf(s', b));
  }

  /** Every step keeps the invariants. */
  lemma StepKeeps(s: Sys, step: Step)
    requires Inv(s) && Enabled(s, step)
    ensures Inv(Next(s, step))
  {
    hide Inv, QueueInv, TabInv, CallInv, DoAcquire, DoWaiterTimeout, DoLeaderTimeout, DoGrant, DoCallback,
         DoRequestError, DoRelease;
    var s' := Next(s, step);
    forall b ensures TabInv(s', b) { StepTab(s, step, b); }
    forall d | d in s'.calls ensures CallInv(s', d) { StepCall(s, step, d); }
    StepQueue(s, step);
    Together(s');
  }

  lemma Together(s: Sys)
    requires QueueInv(s) && (forall b :: TabInv(s, b)) && forall d :: d in s.calls ==> CallInv(s, d)
    ensures Inv(s)
  {
  }

  lemma StepQueue(s: Sys, step: Step)
    requires Inv(s) && Enabled(s, step)
    ensures QueueInv(Next(s, step))
  {
    hide Inv, QueueInv, DoAcquire, DoWaiterTimeout, DoLeaderTimeout, DoGrant, DoCallback, DoRequestError, DoRelease;
    match step
    case Acquire(t, c, timeout) =>
      if TabOf(s, t).inProgress {
        WaitQueue(s, t, c, timeout);
      } else {
        LeadQueue(s, t, c, timeout);
      }
    case WaiterTimeout(c) => WaiterTimeoutQueue(s, c);
    case LeaderTimeout(c) => LeaderTimeoutQueue(s, c);
    case Grant => GrantQueue(s);
    case Callback => CallbackQueue(s);
    case RequestError(c) => RequestErrorQueue(s, c);
    case Release(c, result) => ReleaseQueue(s, c, Coalesced(TabOf(s, s.calls[c].tab).gen, result), Completed(result));
    case ReleaseError(c, error) => ReleaseQueue(s, c, Failed(TabOf(s, s.calls[c].tab).gen, error), Broken(error));
    case Unlock => UnlockQueue(s);
  }

  lemma StepTab(s: Sys, step: Step, b: TabId)
    requires Inv(s) && Enabled(s, step)
    ensures TabInv(Next(s, step), b)
  {
    hide Inv, TabInv, DoAcquire, DoWaiterTimeout, DoLeaderTimeout, DoGrant, DoCallback, DoRequestError, DoRelease;
    match step
    case Acquire(t, c, timeout) =>
      if TabOf(s, t).inProgress {
        WaitTab(s, t, c, timeout, b);
      } else {
        LeadTab(s, t, c, timeout, b);
      }
    case WaiterTimeout(c) => WaiterTimeoutTab(s, c, b);
    case LeaderTimeout(c) => LeaderTimeoutTab(s, c, b);
    case Grant => GrantTab(s, b);
    case Callback => CallbackTab(s, b);
    case RequestError(c) => RequestErrorTab(s, c, b);
    case Release(c, result) => ReleaseTab(s, c, Coalesced(TabOf(s, s.calls[c].tab).gen, result), Completed(result), b);
    case ReleaseError(c, error) => ReleaseTab(s, c, Failed(TabOf(s, s.calls[c].tab).gen, error), Broken(error), b);
    case Unlock => UnlockTab(s, b);
  }

  lemma StepCall(s: Sys, step: Step, d: CallId)
    requires Inv(s) && Enabled(s, step) && d in Next(s, step).calls
    ensures CallInv(Next(s, step), d)
  {
    hide Inv, CallInv, DoAcquire, DoWaiterTimeout, DoLeaderTimeout, DoGrant, DoCallback, DoRequestError, DoRelease;
    match step
    case Acquire(t, c, timeout) =>
      if TabOf(s, t).inProgress {
        WaitCall(s, t, c, timeout, d);
      } else {
        LeadCall(s, t, c, timeout, d);
      }
    case WaiterTimeout(c) => WaiterTimeoutCall(s, c, d);
    case LeaderTimeout(c) => LeaderTimeoutCall(s, c, d);
    case Grant => GrantCall(s, d);
    case Callback => CallbackCall(s, d);
    case RequestError(c) => RequestErrorCall(s, c, d);
    case Release(c, result) => ReleaseCall(s, c, Coalesced(TabOf(s, s.calls[c].tab).gen, result), Completed(result), d);
    case ReleaseError(c, error) => ReleaseCall(s, c, Failed(TabOf(s, s.calls[c].tab).gen, error), Broken(error), d);
    case Unlock => UnlockCall(s, d);
  }
}
