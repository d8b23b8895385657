/**
 * The coalescing sync lock (crates/web-client/js/syncLock.js) and its one client
 * (`syncStateWithTimeout`, crates/web-client/js/index.js) as a transition system: any number of tabs,
 * each with its own lock record, sharing one exclusive first-come-first-served Web Lock.
 *
 * A step is one uninterrupted run of script or one move of the lock manager. Timers may fire at any
 * time until cleared, a request that is still queued may fail, and a caller that acquired the lock
 * releases it once, with a result or with an error.
 */
module SyncLock {
  import opened Common

  type TabId = nat
  type CallId = nat
  type Value = nat

  datatype Role = Waiter | Leader

  /** How the promise of a call was settled. */
  datatype Settlement =
    | Acquired
    | Coalesced(gen: nat, result: Value)
    | Failed(gen: nat, error: Value)
    | LeaderTimedOut(gen: nat)
    | TimedOut
    | RequestFailed

  /** One call of `acquireSyncLock`: the generation it leads, or that was in progress when it began to wait. */
  datatype Call = Call(tab: TabId, gen: nat, role: Role, timer: bool, timedOut: bool, settled: Option<Settlement>,
                       released: bool)

  /** How a generation ended. */
  datatype End = Completed(result: Value) | Broken(error: Value) | Expired | Errored

  /** The lock record of one tab. `leader` and `ended` are history: the last leader and how past generations ended. */
  datatype Tab = Tab(inProgress: bool, waiters: seq<CallId>, releaseLock: Option<CallId>, gen: nat, leader: CallId,
                     ended: map<nat, End>)

  /** The holder of the Web Lock: granted but its callback not yet run, running, or its callback's promise resolved. */
  datatype Phase = Granted | Running | Finished
  datatype Holder = Free | Held(call: CallId, phase: Phase)

  datatype Sys = Sys(web: bool, tabs: map<TabId, Tab>, calls: map<CallId, Call>, queue: seq<CallId>, holder: Holder)

  datatype Step =
    | Acquire(t: TabId, c: CallId, timeout: bool)
    | WaiterTimeout(c: CallId)
    | LeaderTimeout(c: CallId)
    | Grant
    | Callback
    | RequestError(c: CallId)
    | Release(c: CallId, result: Value)
    | ReleaseError(c: CallId, error: Value)
    | Unlock

  const NewTab := Tab(false, [], None, 0, 0, map[])

  function TabOf(s: Sys, t: TabId): Tab {
    if t in s.tabs then s.tabs[t] else NewTab
  }

  /** A promise settles once; later attempts change nothing. */
  function Settle(call: Call, how: Settlement): Call {
    call.(settled := if call.settled.Some? then call.settled else Some(how))
  }

  /** Settle every listed waiter, clearing its timer. */
  function SettleAll(calls: map<CallId, Call>, waiters: seq<CallId>, how: Settlement): (r: map<CallId, Call>)
    ensures r.Keys == calls.Keys
    ensures forall c :: c in calls ==> r[c] == if c in waiters then Settle(calls[c], how).(timer := false) else calls[c]
  {
    map c | c in calls :: if c in waiters then Settle(calls[c], how).(timer := false) else calls[c]
  }

  function Remove(s: seq<CallId>, c: CallId): (r: seq<CallId>)
    ensures forall x :: x in r <==> x in s && x != c
  {
    if s == [] then []
    else
      var rest := Remove(s[1..], c);
      assert s == [s[0]] + s[1..];
      if s[0] == c then rest else [s[0]] + rest
  }

  ghost predicate Distinct(q: seq<CallId>) {
    forall i, j :: 0 <= i < j < |q| ==> q[i] != q[j]
  }

  lemma {:induction false} RemoveDistinct(s: seq<CallId>, c: CallId)
    requires Distinct(s)
    ensures Distinct(Remove(s, c))
  {
    if s != [] {
      var rest := Remove(s[1..], c);
      RemoveDistinct(s[1..], c);
      assert forall i :: 0 <= i < |rest| ==> rest[i] in s[1..];
      assert s[0] !in s[1..];
    }
  }

  // ---------------------------------------------------------------- what each step does

  /** The caller is between `acquired: true` and its release. */
  predicate InSection(call: Call) {
    call.role == Leader && call.settled == Some(Acquired) && !call.released
  }

  predicate Enabled(s: Sys, step: Step) {
    match step
    case Acquire(_, c, _) => c !in s.calls
    case WaiterTimeout(c) => c in s.calls && s.calls[c].role == Waiter && s.calls[c].timer
    case LeaderTimeout(c) => c in s.calls && s.calls[c].role == Leader && s.calls[c].timer
    case Grant => s.holder.Free? && s.queue != []
    case Callback => s.holder.Held? && s.holder.phase == Granted && s.holder.call in s.calls
    case RequestError(c) => c in s.queue && c in s.calls
    case Release(c, _) => c in s.calls && InSection(s.calls[c])
    case ReleaseError(c, _) => c in s.calls && InSection(s.calls[c])
    case Unlock => s.holder.Held? && s.holder.phase == Finished
  }

  function DoAcquire(s: Sys, t: TabId, c: CallId, timeout: bool): Sys {
    var tab := TabOf(s, t);
    if tab.inProgress then
      s.(tabs := s.tabs[t := tab.(waiters := tab.waiters + [c])],
         calls := s.calls[c := Call(t, tab.gen, Waiter, timeout, false, None, false)])
    else
      var gen := tab.gen + 1;
      s.(tabs := s.tabs[t := tab.(inProgress := true, gen := gen, leader := c)],
         calls := s.calls[c := Call(t, gen, Leader, timeout && s.web, false, if s.web then None
             else Some(Acquired), false)],
         queue := if s.web then s.queue + [c] else s.queue)
  }

  function DoWaiterTimeout(s: Sys, c: CallId): Sys
    requires c in s.calls
  {
    var call := s.calls[c];
    var tab := TabOf(s, call.tab);
    s.(tabs := s.tabs[call.tab := tab.(waiters := Remove(tab.waiters, c))],
       calls := s.calls[c := Settle(call, TimedOut).(timer := false)])
  }

  function DoLeaderTimeout(s: Sys, c: CallId): Sys
    requires c in s.calls
  {
    var call := s.calls[c];
    var tab := TabOf(s, call.tab);
    var current := tab.gen == call.gen;
    var calls := if current then SettleAll(s.calls, tab.waiters, LeaderTimedOut(tab.gen)) else s.calls;
    s.(tabs := if current then s.tabs[call.tab := tab.(inProgress := false, waiters := [],
                                                       ended := tab.ended[tab.gen := Expired])] else s.tabs,
       calls := calls[c := Settle(calls[c], TimedOut).(timer := false, timedOut := true)])
  }

  function DoGrant(s: Sys): Sys
    requires s.queue != []
  {
    s.(holder := Held(s.queue[0], Granted), queue := s.queue[1..])
  }

  predicate Stale(s: Sys, c: CallId)
    requires c in s.calls
  {
    s.calls[c].timedOut || TabOf(s, s.calls[c].tab).gen != s.calls[c].gen
  }

  function DoCallback(s: Sys): Sys
    requires s.holder.Held? && s.holder.call in s.calls
  {
    var c := s.holder.call;
    if Stale(s, c) then
      s.(holder := Held(c, Finished))
    else
      var call := s.calls[c];
      s.(holder := Held(c, Running),
         tabs := s.tabs[call.tab := TabOf(s, call.tab).(releaseLock := Some(c))],
         calls := s.calls[c := Settle(call, Acquired).(timer := false)])
  }

  function DoRequestError(s: Sys, c: CallId): Sys
    requires c in s.calls
  {
    var call := s.calls[c];
    var tab := TabOf(s, call.tab);
    s.(queue := Remove(s.queue, c),
       tabs := if tab.gen == call.gen
               then s.tabs[call.tab := tab.(inProgress := false, ended := if tab.inProgress
                   then tab.ended[tab.gen := Errored] else tab.ended)]
               else s.tabs,
       calls := s.calls[c := Settle(call, RequestFailed).(timer := false)])
  }

  /** Both releases: settle the waiters, hand the Web Lock back. Without a sync in progress only a warning is logged. */
  function DoRelease(s: Sys, c: CallId, how: Settlement, end: End): Sys
    requires c in s.calls
  {
    var call := s.calls[c];
    var tab := TabOf(s, call.tab);
    var calls := s.calls[c := call.(released := true)];
    if !tab.inProgress then s.(calls := calls)
    else
      s.(tabs := s.tabs[call.tab := tab.(inProgress := false, waiters := [], releaseLock := None,
                                         ended := tab.ended[tab.gen := end])],
         calls := SettleAll(calls, tab.waiters, how),
         holder := if tab.releaseLock.Some? && s.holder == Held(tab.releaseLock.value, Running)
                   then Held(tab.releaseLock.value, Finished) else s.holder)
  }

  function Next(s: Sys, step: Step): Sys
    requires Enabled(s, step)
  {
    match step
    case Acquire(t, c, timeout) => DoAcquire(s, t, c, timeout)
    case WaiterTimeout(c) => DoWaiterTimeout(s, c)
    case LeaderTimeout(c) => DoLeaderTimeout(s, c)
    case Grant => DoGrant(s)
    case Callback => DoCallback(s)
    case RequestError(c) => DoRequestError(s, c)
    case Release(c, result) => DoRelease(s, c, Coalesced(TabOf(s, s.calls[c].tab).gen, result), Completed(result))
    case ReleaseError(c, error) => DoRelease(s, c, Failed(TabOf(s, s.calls[c].tab).gen, error), Broken(error))
    case Unlock => s.(holder := Free)
  }

  /** Nothing has been called yet; `web` says whether the Web Locks API is available. */
  function Start(web: bool): Sys {
    Sys(web, map[], map[], [], Free)
  }
}
