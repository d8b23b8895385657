/**
 * Exactly when interleaved full-state updates agree (crates/idxdb-store/src/js/sync.js): every order of the
 * accounts is itself an interleaving, and two accounts with the same current commitment make two orders differ.
 */
module FanOutOrders {
  import opened Common
  import opened VersionedRows
  import opened AccountRows
  import opened AccountTables
  import opened FanOutRows
  import opened FanOut

  // ---------------------------------------------------------------- one update can be finished

  function PartRank<K, T>(p: Part<K, T>): nat {
    match p
    case Reading => 5
    case Archiving(_, _) => 4
    case Marking(_, _) => 3
    case Clearing(_) => 2
    case Filling(_) => 1
    case Finished => 0
  }

  function Pending<K, T>(p: Part<K, T>): set<K> {
    if p.Reading? || p.Finished? then {} else p.pending
  }

  function HeadRank(h: Head): nat {
    match h case Unread => 3 case Read(_) => 2 case Superseded => 1 case Written => 0
  }

  /** Every request brings its component nearer to its end. */
  lemma RowStepNearer<K, T>(c: Component<K, T>, e: RowEvent<K>, n: nat, next: Current<K, T>)
    requires RowEnabled(c.part, e)
    ensures var p := RowStep(c, e, n, next).part;
            || PartRank(p) < PartRank(c.part)
            || (PartRank(p) == PartRank(c.part) && |Pending(p)| < |Pending(c.part)|)
  {
    if e.One? {
      assert c.part.pending == (c.part.pending - {e.key}) + {e.key};
    }
  }

  /** Requests of one account only. */
  predicate Solo(qs: seq<Request>, a: AccountId) {
    forall i :: 0 <= i < |qs| ==> qs[i].account == a
  }

  /** Where an update stands, for the order in which its requests come. */
  predicate InSequence(k: Task) {
    && (k.entries.Reading? || k.slots.Finished?)
    && (k.assets.Reading? || k.entries.Finished?)
    && (k.head.Unread? || k.assets.Finished?)
  }

  lemma SomeMove(k: Task) returns (m: Move)
    requires InSequence(k) && !k.head.Written?
    ensures TaskEnabled(k, m)
  {
    RowsNotStuck(k.slots);
    RowsNotStuck(k.entries);
    RowsNotStuck(k.assets);
    if k.assets.Finished? {
      m := OnHeader;
    } else if k.entries.Finished? {
      var e :| RowEnabled(k.assets, e);
      m := OnAssets(e);
    } else if k.slots.Finished? {
      var e :| RowEnabled(k.entries, e);
      m := OnEntries(e);
    } else {
      var e :| RowEnabled(k.slots, e);
      m := OnSlots(e);
    }
  }

  lemma StepInSequence(r: Rows, k: Task, s: Snapshot, m: Move)
    requires InSequence(k) && TaskEnabled(k, m)
    ensures InSequence(TaskStep(r, k, s, m).1)
  {
    hide RowStep;
  }

  lemma MoveNearer(r: Rows, k: Task, s: Snapshot, m: Move)
    requires TaskEnabled(k, m)
    ensures var k' := TaskStep(r, k, s, m).1;
            match m
            case OnSlots(_) => k' == k.(slots := k'.slots) && Nearer(k'.slots, k.slots)
            case OnEntries(_) => k' == k.(entries := k'.entries) && Nearer(k'.entries, k.entries)
            case OnAssets(_) => k' == k.(assets := k'.assets) && Nearer(k'.assets, k.assets)
            case OnHeader => k' == k.(head := k'.head) && HeadRank(k'.head) < HeadRank(k.head)
  {
    hide RowStep;
    var n := s.header.nonce;
    match m
    case OnSlots(e) =>
      RowStepNearer(Component(k.slots, r.contents.slots, r.history.slots), e, n, s.contents.slots);
    case OnEntries(e) =>
      RowStepNearer(Component(k.entries, r.contents.entries, r.history.entries), e, n, s.contents.entries);
    case OnAssets(e) =>
      RowStepNearer(Component(k.assets, r.contents.assets, r.history.assets), e, n, s.contents.assets);
    case OnHeader =>
  }

  predicate Nearer<K, T>(p: Part<K, T>, q: Part<K, T>) {
    PartRank(p) < PartRank(q) || (PartRank(p) == PartRank(q) && |Pending(p)| < |Pending(q)|)
  }

  /** The requests of one account can be made to the end, with none of another account in between. */
  lemma {:induction false} FinishAlone(w: World, u: Updates, a: AccountId) returns (qs: seq<Request>)
    requires a in u && a in w.tasks && InSequence(w.tasks[a])
    ensures Solo(qs, a) && AllowedRun(w, u, qs)
    ensures a in RunAll(w, u, qs).tasks && RunAll(w, u, qs).tasks[a].head.Written?
    decreases HeadRank(w.tasks[a].head),
              PartRank(w.tasks[a].assets), |Pending(w.tasks[a].assets)|,
              PartRank(w.tasks[a].entries), |Pending(w.tasks[a].entries)|,
              PartRank(w.tasks[a].slots), |Pending(w.tasks[a].slots)|
  {
    hide TaskStep, TaskEnabled, RowsOf, WithRows, InSequence, PartRank, Pending;
    var k := w.tasks[a];
    if k.head.Written? {
      qs := [];
    } else {
      var m := SomeMove(k);
      var q := Request(a, m);
      StepInSequence(RowsOf(w.tables, a), k, u[a], m);
      MoveNearer(RowsOf(w.tables, a), k, u[a], m);
      var rest := FinishAlone(Run(w, u, q), u, a);
      qs := [q] + rest;
      RunCons(w, u, q, rest);
    }
  }

  lemma RunCons(w: World, u: Updates, q: Request, rest: seq<Request>)
    requires CanRun(w, u, q) && AllowedRun(Run(w, u, q), u, rest)
    ensures AllowedRun(w, u, [q] + rest) && RunAll(w, u, [q] + rest) == RunAll(Run(w, u, q), u, rest)
  {
    hide CanRun, Run;
    assert ([q] + rest)[1..] == rest;
  }

  lemma {:induction false} RunConcat(w: World, u: Updates, qs: seq<Request>, more: seq<Request>)
    requires AllowedRun(w, u, qs) && AllowedRun(RunAll(w, u, qs), u, more)
    ensures AllowedRun(w, u, qs + more) && RunAll(w, u, qs + more) == RunAll(RunAll(w, u, qs), u, more)
    decreases |qs|
  {
    hide CanRun, Run;
    if qs == [] {
      assert qs + more == more;
    } else {
      assert qs + more == [qs[0]] + (qs[1..] + more);
      RunConcat(Run(w, u, qs[0]), u, qs[1..], more);
      RunCons(w, u, qs[0], qs[1..] + more);
    }
  }

  // ---------------------------------------------------------------- alone or among others

  /** The requests of one account do the same whatever other updates are waiting. */
  lemma {:induction false} SameAlone(w: World, u: Updates, w': World, u': Updates, a: AccountId, qs: seq<Request>)
    requires a in u && a in u' && u[a] == u'[a] && a in w.tasks && a in w'.tasks
    requires w.tables == w'.tables && w.tasks[a] == w'.tasks[a] && Solo(qs, a) && AllowedRun(w, u, qs)
    ensures AllowedRun(w', u', qs) && RunAll(w', u', qs).tables == RunAll(w, u, qs).tables
    ensures a in RunAll(w, u, qs).tasks && RunAll(w', u', qs).tasks == w'.tasks[a := RunAll(w, u, qs).tasks[a]]
    decreases |qs|
  {
    hide TaskStep, TaskEnabled, RowsOf, WithRows;
    if qs != [] {
      SameAlone(Run(w, u, qs[0]), u, Run(w', u', qs[0]), u', a, qs[1..]);
    }
  }

  /** An update that runs alone applies the full state. */
  lemma AloneIsFull(t: Tables, a: AccountId, s: Snapshot) returns (qs: seq<Request>)
    ensures var u := map[a := s];
            && Solo(qs, a) && AllowedRun(Launch(t, u), u, qs)
            && RunAll(Launch(t, u), u, qs).tables == ApplyFull(t, a, s)
            && a in RunAll(Launch(t, u), u, qs).tasks && RunAll(Launch(t, u), u, qs).tasks[a].head.Written?
  {
    hide ApplyFull, Run, CanRun;
    var u := map[a := s];
    qs := FinishAlone(Launch(t, u), u, a);
    var w := RunAll(Launch(t, u), u, qs);
    LaunchInv(t, u);
    RunAllKeeps(Launch(t, u), t, u, qs);
    TasksOf(w, t, u);
    InterleavingsAgree(t, u, qs, [a]);
    assert [a][..0] == [];
    assert InOrder(t, u, [a]) == ApplyFull(InOrder(t, u, []), a, s);
  }

  lemma TasksOf(w: World, t: Tables, u: Updates)
    requires WorldInv(w, t, u)
    ensures w.tasks.Keys == u.Keys
  {
    hide OnItsWay, RowsOf;
    forall a ensures a in w.tasks <==> a in u {
      assert AccountKept(w, t, u, a);
    }
  }

  // ---------------------------------------------------------------- every order is an interleaving

  lemma {:induction false} OrderIsRun(t0: Tables, u: Updates, order: seq<AccountId>) returns (qs: seq<Request>)
    requires OrderOf(order, u)
    ensures AllowedRun(Launch(t0, u), u, qs)
    ensures var w := RunAll(Launch(t0, u), u, qs);
            && w.tables == InOrder(t0, u, order) && w.tasks.Keys == u.Keys
            && forall a :: a in u ==> if a in order then w.tasks[a].head.Written? else w.tasks[a] == NewTask
  {
    hide OrderOf, ApplyFull, Run, CanRun;
    if order == [] {
      qs := [];
    } else {
      var front, a := order[..|order| - 1], order[|order| - 1];
      OrderFront(order, u);
      var first := OrderIsRun(t0, u, front);
      var w := RunAll(Launch(t0, u), u, first);
      var next := AloneIsFull(w.tables, a, u[a]);
      SameAlone(Launch(w.tables, map[a := u[a]]), map[a := u[a]], w, u, a, next);
      qs := first + next;
      RunConcat(Launch(t0, u), u, first, next);
      assert order == front + [a];
    }
  }

  lemma {:induction false} Enumerate(s: set<AccountId>) returns (order: seq<AccountId>)
    ensures !Repeats(order) && Elements(order) == s
    decreases s
  {
    if s == {} {
      order := [];
    } else {
      var a :| a in s;
      var rest := Enumerate(s - {a});
      order := rest + [a];
      ElementsAppend(rest, a);
      assert a !in rest by { assert a !in Elements(rest); }
      assert forall i :: 0 <= i < |rest| ==> rest[i] in Elements(rest);
    }
  }

  // ---------------------------------------------------------------- the exact condition

  /** The archived header keeps the name of the last writer. */
  lemma SharedCommitmentOrders(t: Tables, a: AccountId, b: AccountId, s: Snapshot, s': Snapshot)
    requires a != b && a in t.latestHeaders && b in t.latestHeaders
    requires t.latestHeaders[a].accountCommitment == t.latestHeaders[b].accountCommitment
    ensures ApplyFull(ApplyFull(t, a, s), b, s') != ApplyFull(ApplyFull(t, b, s'), a, s)
  {
    hide ApplyFull;
    var c := t.latestHeaders[a].accountCommitment;
    FullHeaders(t, a, s);
    FullHeaders(t, b, s');
    FullHeaders(ApplyFull(t, a, s), b, s');
    FullHeaders(ApplyFull(t, b, s'), a, s);
    assert ApplyFull(ApplyFull(t, a, s), b, s').historicalHeaders[c].id == b;
    assert ApplyFull(ApplyFull(t, b, s'), a, s).historicalHeaders[c].id == a;
  }

  lemma OrderEnds(t0: Tables, u: Updates, rest: seq<AccountId>, a: AccountId, b: AccountId)
    requires !Repeats(rest) && a != b && Elements(rest) == u.Keys - {a, b} && a in u && b in u
    ensures OrderOf(rest + [a, b], u) && Elements(rest + [a, b]) == u.Keys
    ensures InOrder(t0, u, rest + [a, b]) == ApplyFull(ApplyFull(InOrder(t0, u, rest), a, u[a]), b, u[b])
  {
    hide ApplyFull;
    var order := rest + [a, b];
    assert order == rest + [a] + [b];
    ElementsAppend(rest, a);
    ElementsAppend(rest + [a], b);
    assert forall i :: 0 <= i < |rest| ==> rest[i] in Elements(rest);
    assert order[..|order| - 1] == rest + [a] && (rest + [a])[..|rest|] == rest;
    assert InOrder(t0, u, rest + [a]) == ApplyFull(InOrder(t0, u, rest), a, u[a]);
  }

  lemma SharedDiffer(t0: Tables, u: Updates, a: AccountId, b: AccountId) returns (qs: seq<Request>, qs': seq<Request>)
    requires a != b && a in u && b in u && a in t0.latestHeaders && b in t0.latestHeaders
    requires t0.latestHeaders[a].accountCommitment == t0.latestHeaders[b].accountCommitment
    ensures CompleteRun(t0, u, qs) && CompleteRun(t0, u, qs')
    ensures RunAll(Launch(t0, u), u, qs).tables != RunAll(Launch(t0, u), u, qs').tables
  {
    hide ApplyFull, InOrder, AllowedRun, RunAll, Launch, OrderOf;
    var rest := Enumerate(u.Keys - {a, b});
    OrderEnds(t0, u, rest, a, b);
    assert {a, b} == {b, a};
    OrderEnds(t0, u, rest, b, a);
    qs := OrderIsRun(t0, u, rest + [a, b]);
    qs' := OrderIsRun(t0, u, rest + [b, a]);
    InOrderMembers(u, rest + [a, b]);
    InOrderMembers(u, rest + [b, a]);
    assert a !in rest && b !in rest by { assert a !in Elements(rest) && b !in Elements(rest); }
    InOrderLatest(t0, u, rest, a);
    InOrderLatest(t0, u, rest, b);
    SharedCommitmentOrders(InOrder(t0, u, rest), a, b, u[a], u[b]);
  }

  lemma InOrderMembers(u: Updates, order: seq<AccountId>)
    requires Elements(order) == u.Keys
    ensures forall a :: a in u <==> a in order
  {
    forall a ensures a in u <==> a in order {
      assert a in Elements(order) <==> a in order;
    }
  }

  /**
   * All complete interleavings of full-state updates leave the same tables if and only if no two of the updated
   * accounts have the same current commitment.
   */
  lemma InterleavingsAgreeIff(t0: Tables, u: Updates)
    ensures (forall qs, qs' :: CompleteRun(t0, u, qs) && CompleteRun(t0, u, qs')
                               ==> RunAll(Launch(t0, u), u, qs).tables == RunAll(Launch(t0, u), u, qs').tables)
            <==> DistinctCurrent(t0, u)
  {
    hide AllowedRun, RunAll, Launch, OrderOf, InOrder;
    if DistinctCurrent(t0, u) {
      var order := Enumerate(u.Keys);
      assert OrderOf(order, u) by { OrderIsOf(order, u); }
      forall qs, qs' | CompleteRun(t0, u, qs) && CompleteRun(t0, u, qs')
        ensures RunAll(Launch(t0, u), u, qs).tables == RunAll(Launch(t0, u), u, qs').tables
      {
        InterleavingsAgree(t0, u, qs, order);
        InterleavingsAgree(t0, u, qs', order);
      }
    } else {
      var a, b :| a in u && b in u && a in t0.latestHeaders && b in t0.latestHeaders && a != b
                  && t0.latestHeaders[a].accountCommitment == t0.latestHeaders[b].accountCommitment;
      var qs, qs' := SharedDiffer(t0, u, a, b);
    }
  }

  lemma OrderIsOf(order: seq<AccountId>, u: Updates)
    requires !Repeats(order) && Elements(order) == u.Keys
    ensures OrderOf(order, u)
  {
    assert forall i :: 0 <= i < |order| ==> order[i] in Elements(order);
  }
}
