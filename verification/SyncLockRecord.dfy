/**
 * The lock record of one tab as the source keeps it, a mutable object changed by calls, timers and lock
 * callbacks (crates/web-client/js/syncLock.js). Each method is proved to change the record and the
 * promises exactly as the corresponding step of the transition system does.
 */
module SyncLockRecord {
  import opened Common
  import opened SyncLock

  /** Drop the first occurrence of a waiter, as found by its index. */
  method Splice(waiters: seq<CallId>, c: CallId) returns (r: seq<CallId>)
    requires Distinct(waiters)
    ensures r == Remove(waiters, c)
  {
    var idx := 0;
    while idx < |waiters| && waiters[idx] != c
      invariant 0 <= idx <= |waiters|
      invariant forall j :: 0 <= j < idx ==> waiters[j] != c
    {
      idx := idx + 1;
    }
    if idx < |waiters| {
      r := waiters[..idx] + waiters[idx + 1..];
    } else {
      r := waiters;
    }
    RemoveSplices(waiters, c, idx);
  }

  lemma {:induction false} RemoveSplices(s: seq<CallId>, c: CallId, i: nat)
    requires Distinct(s) && i <= |s| && (i < |s| ==> s[i] == c) && forall j :: 0 <= j < i ==> s[j] != c
    ensures Remove(s, c) == if i < |s| then s[..i] + s[i + 1..] else s
  {
    if s != [] {
      if i == 0 {
        RemoveSplices(s[1..], c, |s| - 1);
      } else {
        RemoveSplices(s[1..], c, i - 1);
        if i < |s| {
          assert s[..i] + s[i + 1..] == [s[0]] + (s[1..][..i - 1] + s[1..][i..]);
        }
      }
    }
  }

  /** Settle waiters one by one. */
  method NotifyAll(calls: map<CallId, Call>, waiters: seq<CallId>, how: Settlement) returns (calls': map<CallId, Call>)
    requires forall c :: c in waiters ==> c in calls
    ensures calls' == SettleAll(calls, waiters, how)
  {
    calls' := calls;
    for i := 0 to |waiters|
      invariant calls'.Keys == calls.Keys
      invariant forall c :: c in calls ==> calls'[c] == if c in waiters[..i]
                then Settle(calls[c], how).(timer := false) else calls[c]
    {
      var w := waiters[i];
      calls' := calls'[w := Settle(calls'[w], how).(timer := false)];
    }
    assert waiters[..|waiters|] == waiters;
  }

  class Record {
    const tab: TabId
    const web: bool
    var inProgress: bool
    var waiters: seq<CallId>
    var releaseLock: Option<CallId>
    var gen: nat
    ghost var leader: CallId
    ghost var ended: map<nat, End>
    var calls: map<CallId, Call>

    constructor (tab: TabId, web: bool)
      ensures Matches(Start(web)) && this.tab == tab && this.web == web
    {
      this.tab, this.web := tab, web;
      inProgress, waiters, releaseLock, gen, calls := false, [], None, 0, map[];
      leader, ended := 0, map[];
    }

    /** The record is what the system state says of this tab. */
    ghost predicate Matches(s: Sys)
      reads this
    {
      TabOf(s, tab) == Tab(inProgress, waiters, releaseLock, gen, leader, ended) && calls == s.calls && web == s.web
    }

    method AcquireSyncLock(c: CallId, timeout: bool, ghost s: Sys) returns (leads: bool)
      requires Matches(s) && Enabled(s, Acquire(tab, c, timeout))
      modifies this
      ensures Matches(DoAcquire(s, tab, c, timeout)) && leads == !old(inProgress)
    {
      leads := !inProgress;
      if inProgress {
        waiters := waiters + [c];
        calls := calls[c := Call(tab, gen, Waiter, timeout, false, None, false)];
        return;
      }
      inProgress := true;
      gen := gen + 1;
      leader := c;
      calls := calls[c := Call(tab, gen, Leader, timeout && web, false, if web then None else Some(Acquired), false)];
    }

    method OnWaiterTimeout(c: CallId, ghost s: Sys)
      requires Matches(s) && Enabled(s, WaiterTimeout(c)) && s.calls[c].tab == tab && Distinct(waiters)
      modifies this
      ensures Matches(DoWaiterTimeout(s, c))
    {
      var rest := Splice(waiters, c);
      waiters := rest;
      calls := calls[c := Settle(calls[c], TimedOut).(timer := false)];
    }

    method OnLeaderTimeout(c: CallId, ghost s: Sys)
      requires Matches(s) && Enabled(s, LeaderTimeout(c)) && s.calls[c].tab == tab
      requires forall w :: w in waiters ==> w in calls
      modifies this
      ensures Matches(DoLeaderTimeout(s, c))
    {
      var generation := calls[c].gen;
      if gen == generation {
        inProgress := false;
        var told := NotifyAll(calls, waiters, LeaderTimedOut(gen));
        calls := told;
        waiters := [];
        ended := ended[gen := Expired];
      }
      calls := calls[c := Settle(calls[c], TimedOut).(timer := false, timedOut := true)];
    }

    /** The lock callback: returns whether the lock is kept. */
    method OnGranted(c: CallId, ghost s: Sys) returns (keep: bool)
      requires Matches(s) && Enabled(s, Callback) && s.holder.call == c && s.calls[c].tab == tab
      modifies this
      ensures Matches(DoCallback(s)) && DoCallback(s).holder == Held(c, if keep then Running else Finished)
    {
      if calls[c].timedOut || gen != calls[c].gen {
        return false;
      }
      releaseLock := Some(c);
      calls := calls[c := Settle(calls[c], Acquired).(timer := false)];
      keep := true;
    }

    method OnRequestError(c: CallId, ghost s: Sys)
      requires Matches(s) && Enabled(s, RequestError(c)) && s.calls[c].tab == tab
      modifies this
      ensures Matches(DoRequestError(s, c))
    {
      if gen == calls[c].gen {
        ended := if inProgress then ended[gen := Errored] else ended;
        inProgress := false;
      }
      calls := calls[c := Settle(calls[c], RequestFailed).(timer := false)];
    }

    /** Both releases; the lock handed back, if any, is returned. */
    method ReleaseSyncLock(c: CallId, how: Settlement, ghost end: End, ghost s: Sys) returns (freed: Option<CallId>)
      requires Matches(s) && c in s.calls && s.calls[c].tab == tab
      requires forall w :: w in waiters ==> w in calls
      modifies this
      ensures Matches(DoRelease(s, c, how, end))
      ensures freed == if old(inProgress) then old(releaseLock) else None
    {
      freed := None;
      calls := calls[c := calls[c].(released := true)];
      if !inProgress {
        return;
      }
      inProgress := false;
      var told := NotifyAll(calls, waiters, how);
      calls := told;
      waiters := [];
      freed := releaseLock;
      releaseLock := None;
      ended := ended[gen := end];
    }
  }
}
