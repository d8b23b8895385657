/**
 * The worker pool of the integration-test binary (`run_tests_parallel`,
 * bin/integration-tests/src/main.rs): threads that pop tests from a shared queue and push what they
 * saw to a shared list. Each lock-protected pop and push is one step; which worker moves next, and
 * whether its test passes, is not determined.
 */
module TestPool {

  datatype Test = Test(name: string, category: string)

  datatype Attempt = Attempt(test: Test, passed: bool)

  datatype Worker = Idle | Busy(test: Test) | Stopped

  datatype Pool = Pool(queue: seq<Test>, workers: seq<Worker>, results: seq<Attempt>)

  datatype Event = Take(worker: nat) | Report(worker: nat, passed: bool)

  function Start(tests: seq<Test>, jobs: nat): Pool {
    Pool(tests, seq(jobs, _ => Idle), [])
  }

  predicate Enabled(p: Pool, e: Event) {
    && e.worker < |p.workers|
    && match e
       case Take(w) => p.workers[w].Idle?
       case Report(w, _) => p.workers[w].Busy?
  }

  /** An idle worker takes the last test or stops on an empty queue; a busy one reports and is idle again. */
  function Step(p: Pool, e: Event): Pool
    requires Enabled(p, e)
  {
    match e
    case Take(w) =>
      if p.queue == [] then p.(workers := p.workers[w := Stopped])
      else
        var last := |p.queue| - 1;
        p.(queue := p.queue[..last], workers := p.workers[w := Busy(p.queue[last])])
    case Report(w, passed) =>
      p.(workers := p.workers[w := Idle], results := p.results + [Attempt(p.workers[w].test, passed)])
  }

  /** All threads have been joined. */
  predicate Ended(p: Pool) {
    forall w :: 0 <= w < |p.workers| ==> p.workers[w].Stopped?
  }

  predicate Allowed(p: Pool, events: seq<Event>)
    decreases |events|
  {
    events == [] || (Enabled(p, events[0]) && Allowed(Step(p, events[0]), events[1..]))
  }

  function After(p: Pool, events: seq<Event>): Pool
    requires Allowed(p, events)
    decreases |events|
  {
    if events == [] then p else After(Step(p, events[0]), events[1..])
  }

  // ---------------------------------------------------------------- the invariant

  function TestsOf(attempts: seq<Attempt>): seq<Test> {
    seq(|attempts|, i requires 0 <= i < |attempts| => attempts[i].test)
  }

  function HeldBy(w: Worker): multiset<Test> {
    if w.Busy? then multiset{w.test} else multiset{}
  }

  function Held(workers: seq<Worker>): multiset<Test> {
    if workers == [] then multiset{} else HeldBy(workers[0]) + Held(workers[1..])
  }

  function Cost(w: Worker): nat {
    match w case Idle => 1 case Busy(_) => 2 case Stopped => 0
  }

  function Costs(workers: seq<Worker>): nat {
    if workers == [] then 0 else Cost(workers[0]) + Costs(workers[1..])
  }

  /** The number of steps still to come. */
  function Work(p: Pool): nat { 2 * |p.queue| + Costs(p.workers) }

  /** Queue, tests in flight and results partition the input, and a worker stops only on an empty queue. */
  ghost predicate Inv(p: Pool, tests: seq<Test>) {
    && multiset(p.queue) + Held(p.workers) + multiset(TestsOf(p.results)) == multiset(tests)
    && (forall w :: 0 <= w < |p.workers| && p.workers[w].Stopped? ==> p.queue == [])
  }

  lemma Carry(a: multiset<Test>, b: multiset<Test>, c: multiset<Test>, d: multiset<Test>, e: multiset<Test>)
    requires b + c == d + e
    ensures (a + b) + c == (a + d) + e
  {
    assert (a + b) + c == a + (b + c);
    assert (a + d) + e == a + (d + e);
  }

  lemma {:induction false} WorkerUpdate(workers: seq<Worker>, w: nat, x: Worker)
    requires w < |workers|
    ensures Held(workers[w := x]) + HeldBy(workers[w]) == Held(workers) + HeldBy(x)
    ensures Costs(workers[w := x]) + Cost(workers[w]) == Costs(workers) + Cost(x)
  {
    hide HeldBy, Cost;
    var rest := workers[1..];
    if w > 0 {
      WorkerUpdate(rest, w - 1, x);
      assert workers[w := x][1..] == rest[w - 1 := x];
      Carry(HeldBy(workers[0]), Held(rest[w - 1 := x]), HeldBy(workers[w]), Held(rest), HeldBy(x));
    } else {
      assert workers[0 := x][1..] == rest;
      assert HeldBy(x) + Held(rest) + HeldBy(workers[0]) == HeldBy(workers[0]) + Held(rest) + HeldBy(x);
    }
  }

  lemma {:induction false} StartCosts(jobs: nat)
    ensures Costs(seq(jobs, _ => Idle)) == jobs && Held(seq(jobs, _ => Idle)) == multiset{}
  {
    if jobs > 0 {
      StartCosts(jobs - 1);
      assert seq(jobs, _ => Idle)[1..] == seq(jobs - 1, _ => Idle);
    }
  }

  lemma {:induction false} StoppedHoldNothing(workers: seq<Worker>)
    requires forall w :: 0 <= w < |workers| ==> workers[w].Stopped?
    ensures Held(workers) == multiset{} && Costs(workers) == 0
  {
    if workers != [] {
      StoppedHoldNothing(workers[1..]);
    }
  }

  lemma StartInv(tests: seq<Test>, jobs: nat)
    ensures Inv(Start(tests, jobs), tests) && Work(Start(tests, jobs)) == 2 * |tests| + jobs
  {
    StartCosts(jobs);
  }

  /** A test moves from the queue to a worker. */
  lemma Taken(queue: multiset<Test>, rest: multiset<Test>, held: multiset<Test>, held': multiset<Test>,
              done: multiset<Test>, t: Test)
    requires queue == rest + multiset{t} && held' == held + multiset{t}
    ensures rest + held' + done == queue + held + done
  {
    assert rest + (held + multiset{t}) == rest + multiset{t} + held;
  }

  /** A test moves from a worker to the results. */
  lemma Reported(queue: multiset<Test>, held: multiset<Test>, held': multiset<Test>, done: multiset<Test>, t: Test)
    requires held' + multiset{t} == held
    ensures queue + held' + (done + multiset{t}) == queue + held + done
  {
    assert queue + held' + (done + multiset{t}) == queue + (held' + multiset{t}) + done;
  }

  lemma TakeConserves(p: Pool, w: nat)
    requires Enabled(p, Take(w)) && p.queue != []
    ensures var q := Step(p, Take(w));
            && multiset(q.queue) + Held(q.workers) + multiset(TestsOf(q.results))
               == multiset(p.queue) + Held(p.workers) + multiset(TestsOf(p.results))
            && Costs(q.workers) == Costs(p.workers) + 1
  {
    hide Held, TestsOf, Costs;
    var t := p.queue[|p.queue| - 1];
    var q := Step(p, Take(w));
    WorkerUpdate(p.workers, w, Busy(t));
    assert p.queue == q.queue + [t];
    assert Held(q.workers) + multiset{} == Held(q.workers);
    Taken(multiset(p.queue), multiset(q.queue), Held(p.workers), Held(q.workers), multiset(TestsOf(p.results)), t);
  }

  lemma StopConserves(p: Pool, w: nat)
    requires Enabled(p, Take(w)) && p.queue == []
    ensures var q := Step(p, Take(w));
            && Held(q.workers) == Held(p.workers)
            && Costs(q.workers) + 1 == Costs(p.workers)
  {
    hide Held, Costs;
    WorkerUpdate(p.workers, w, Stopped);
    var q := Step(p, Take(w));
    assert Held(q.workers) + multiset{} == Held(q.workers) && Held(p.workers) + multiset{} == Held(p.workers);
  }

  lemma ReportConserves(p: Pool, w: nat, passed: bool)
    requires Enabled(p, Report(w, passed))
    ensures var q := Step(p, Report(w, passed));
            && multiset(q.queue) + Held(q.workers) + multiset(TestsOf(q.results))
               == multiset(p.queue) + Held(p.workers) + multiset(TestsOf(p.results))
            && Costs(q.workers) + 1 == Costs(p.workers)
  {
    hide Held, Costs;
    var t := p.workers[w].test;
    var q := Step(p, Report(w, passed));
    WorkerUpdate(p.workers, w, Idle);
    assert TestsOf(q.results) == TestsOf(p.results) + [t];
    Reported(multiset(p.queue), Held(p.workers), Held(q.workers), multiset(TestsOf(p.results)), t);
  }

  lemma StepKeeps(p: Pool, e: Event, tests: seq<Test>)
    requires Inv(p, tests) && Enabled(p, e)
    ensures Inv(Step(p, e), tests) && Work(Step(p, e)) + 1 == Work(p)
    ensures |Step(p, e).workers| == |p.workers|
  {
    hide Held, Costs, TestsOf;
    match e
    case Take(w) =>
      if p.queue == [] {
        StopConserves(p, w);
      } else {
        TakeConserves(p, w);
      }
    case Report(w, passed) => ReportConserves(p, w, passed);
  }

  lemma {:induction false} RunKeeps(p: Pool, events: seq<Event>, tests: seq<Test>)
    requires Inv(p, tests) && Allowed(p, events)
    ensures Inv(After(p, events), tests)
    ensures |events| + Work(After(p, events)) == Work(p)
    ensures |After(p, events).workers| == |p.workers|
    decreases |events|
  {
    if events != [] {
      StepKeeps(p, events[0], tests);
      RunKeeps(Step(p, events[0]), events[1..], tests);
    }
  }

  /** Nobody can move exactly when all threads have stopped: there is no deadlock. */
  lemma EndedIffStuck(p: Pool)
    ensures Ended(p) <==> forall e :: !Enabled(p, e)
  {
    if !Ended(p) {
      var w: nat :| w < |p.workers| && !p.workers[w].Stopped?;
      var e := if p.workers[w].Idle? then Take(w) else Report(w, true);
      assert Enabled(p, e);
    }
  }

  /** At every moment of every schedule the three collections partition the input. */
  lemma RunPartitions(tests: seq<Test>, jobs: nat, events: seq<Event>)
    requires Allowed(Start(tests, jobs), events)
    ensures var p := After(Start(tests, jobs), events);
            && multiset(p.queue) + Held(p.workers) + multiset(TestsOf(p.results)) == multiset(tests)
            && |events| <= 2 * |tests| + jobs
  {
    StartInv(tests, jobs);
    RunKeeps(Start(tests, jobs), events, tests);
  }

  lemma EndedHasAll(p: Pool, tests: seq<Test>)
    requires Inv(p, tests) && Ended(p) && |p.workers| > 0
    ensures multiset(TestsOf(p.results)) == multiset(tests) && Work(p) == 0
  {
    StoppedHoldNothing(p.workers);
    assert p.workers[0].Stopped?;
  }

  /**
   * A complete schedule takes the same number of steps whatever the interleaving, and yields one attempt
   * for each queued test, exactly when there is a worker or nothing to do.
   */
  lemma CompleteRunIff(tests: seq<Test>, jobs: nat, events: seq<Event>)
    requires Allowed(Start(tests, jobs), events) && Ended(After(Start(tests, jobs), events))
    ensures multiset(TestsOf(After(Start(tests, jobs), events).results)) == multiset(tests)
            <==> jobs > 0 || tests == []
    ensures |events| == if jobs > 0 then 2 * |tests| + jobs else 0
  {
    hide Inv, Work;
    var s := Start(tests, jobs);
    StartInv(tests, jobs);
    RunKeeps(s, events, tests);
    if jobs > 0 {
      EndedHasAll(After(s, events), tests);
    } else {
      assert events == [];
      assert tests != [] ==> tests[0] in multiset(tests);
    }
  }

  // ---------------------------------------------------------------- order and outcomes

  /** The outcomes that the subprocesses of a run reported, in order. */
  function Reports(events: seq<Event>): seq<bool> {
    if events == [] then []
    else
      var last := events[|events| - 1];
      Reports(events[..|events| - 1]) + if last.Report? then [last.passed] else []
  }

  function Outcomes(attempts: seq<Attempt>): seq<bool> {
    seq(|attempts|, i requires 0 <= i < |attempts| => attempts[i].passed)
  }

  lemma {:induction false} AfterSnoc(p: Pool, events: seq<Event>)
    requires Allowed(p, events) && events != []
    ensures var front, last := events[..|events| - 1], events[|events| - 1];
            Allowed(p, front) && Enabled(After(p, front), last) && After(p, events) == Step(After(p, front), last)
    decreases |events|
  {
    hide Enabled, Step;
    if |events| > 1 {
      AfterSnoc(Step(p, events[0]), events[1..]);
      assert events[..|events| - 1][0] == events[0];
      assert events[..|events| - 1][1..] == events[1..][..|events| - 2];
    }
  }

  /** Every attempt records the very outcome that was reported, in the order of the reports. */
  lemma {:induction false} OutcomesAsReported(tests: seq<Test>, jobs: nat, events: seq<Event>)
    requires Allowed(Start(tests, jobs), events)
    ensures Outcomes(After(Start(tests, jobs), events).results) == Reports(events)
    decreases |events|
  {
    if events != [] {
      var front, last := events[..|events| - 1], events[|events| - 1];
      AfterSnoc(Start(tests, jobs), events);
      OutcomesAsReported(tests, jobs, front);
      var p := After(Start(tests, jobs), front);
      if last.Report? {
        assert Outcomes(Step(p, last).results) == Outcomes(p.results) + [last.passed];
      }
    }
  }

  /** A report is about the test its worker holds. */
  lemma ReportIsOfHeld(p: Pool, w: nat, passed: bool)
    requires Enabled(p, Report(w, passed))
    ensures Step(p, Report(w, passed)).results == p.results + [Attempt(p.workers[w].test, passed)]
    ensures Step(p, Report(w, passed)).workers == p.workers[w := Idle]
    ensures Enabled(p, Report(w, !passed))
  {
  }

  /** Tests are taken from the end: at every moment the queue is a prefix of the input. */
  lemma {:induction false} QueueIsPrefix(tests: seq<Test>, jobs: nat, events: seq<Event>)
    requires Allowed(Start(tests, jobs), events)
    ensures var q := After(Start(tests, jobs), events).queue; |q| <= |tests| && q == tests[..|q|]
    decreases |events|
  {
    if events != [] {
      AfterSnoc(Start(tests, jobs), events);
      QueueIsPrefix(tests, jobs, events[..|events| - 1]);
    }
  }

  /** The runner under an arbitrary schedule; each outcome is whatever the subprocess reports. */
  method RunTestsParallel(tests: seq<Test>, jobs: nat) returns (results: seq<Attempt>)
    ensures jobs > 0 ==> multiset(TestsOf(results)) == multiset(tests)
    ensures jobs == 0 ==> results == []
  {
    hide Inv, Work, Step, Enabled;
    var p := Start(tests, jobs);
    StartInv(tests, jobs);
    while !Ended(p)
      invariant Inv(p, tests) && |p.workers| == jobs
      invariant jobs == 0 ==> p.results == []
      decreases Work(p)
    {
      var e := NextEvent(p);
      StepKeeps(p, e, tests);
      p := Step(p, e);
    }
    results := p.results;
    if jobs > 0 {
      EndedHasAll(p, tests);
    }
  }

  /** Some worker that has not stopped moves, and a test under way passes or fails. */
  method NextEvent(p: Pool) returns (e: Event)
    requires !Ended(p)
    ensures Enabled(p, e)
  {
    var w: nat :| w < |p.workers| && !p.workers[w].Stopped?;
    var passed: bool := *;
    e := if p.workers[w].Idle? then Take(w) else Report(w, passed);
  }
}
