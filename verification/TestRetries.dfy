/**
 * Retrying failed tests (`run_tests_with_retries` and the predicates of `TestResult`,
 * bin/integration-tests/src/main.rs).
 */
module TestRetries {
  import opened TestPool

  datatype TestResult = TestResult(test: Test, attempts: seq<Attempt>) {
    predicate Passed() { attempts != [] && attempts[|attempts| - 1].passed }

    predicate Failed() { !Passed() }

    function Retries(): nat { if attempts == [] then 0 else |attempts| - 1 }

    predicate IsFlaky() { Passed() && Retries() > 0 }

    /** Failures, then at most one pass, all of this test. */
    predicate History() {
      && attempts != []
      && (forall i :: 0 <= i < |attempts| ==> attempts[i].test == test)
      && (forall i :: 0 <= i < |attempts| - 1 ==> !attempts[i].passed)
    }
  }

  /** A history counts as flaky just when it holds both a failure and a pass. */
  lemma FlakyIffBoth(r: TestResult)
    requires r.History()
    ensures r.IsFlaky() <==> (exists i :: 0 <= i < |r.attempts| && r.attempts[i].passed)
                             && (exists i :: 0 <= i < |r.attempts| && !r.attempts[i].passed)
  {
    var last := |r.attempts| - 1;
    if r.IsFlaky() {
      assert r.attempts[last].passed && !r.attempts[0].passed;
    }
  }

  // ---------------------------------------------------------------- one retry round

  /** The position of the first result with a name; the length if there is none. */
  function Find(results: seq<TestResult>, name: string): (k: nat)
    ensures k <= |results| && (k < |results| ==> results[k].test.name == name)
    ensures forall i :: 0 <= i < k ==> results[i].test.name != name
  {
    if results == [] || results[0].test.name == name then 0
    else
      var k := Find(results[1..], name);
      assert forall i :: 0 < i < k + 1 ==> results[i] == results[1..][i - 1];
      k + 1
  }

  /** One attempt appended to the first result of its name. */
  function Push(results: seq<TestResult>, a: Attempt): (r: seq<TestResult>)
    ensures |r| == |results|
  {
    var k := Find(results, a.test.name);
    if k == |results| then results else results[k := results[k].(attempts := results[k].attempts + [a])]
  }

  function PushAll(results: seq<TestResult>, attempts: seq<Attempt>): (r: seq<TestResult>)
    ensures |r| == |results|
  {
    if attempts == [] then results
    else Push(PushAll(results, attempts[..|attempts| - 1]), attempts[|attempts| - 1])
  }

  function FailedNames(results: seq<TestResult>): set<string> {
    set i | 0 <= i < |results| && results[i].Failed() :: results[i].test.name
  }

  function ToRetry(all: seq<Test>, names: set<string>): seq<Test> {
    if all == [] then []
    else ToRetry(all[..|all| - 1], names) + if all[|all| - 1].name in names then [all[|all| - 1]] else []
  }

  // ---------------------------------------------------------------- what a name selects

  /** The tests of one name, in order. */
  function Named(tests: seq<Test>, name: string): seq<Test> {
    ToRetry(tests, {name})
  }

  /** The attempts at tests of one name, in order. */
  function AttemptsAt(attempts: seq<Attempt>, name: string): seq<Attempt> {
    if attempts == [] then []
    else
      var a := attempts[|attempts| - 1];
      AttemptsAt(attempts[..|attempts| - 1], name) + if a.test.name == name then [a] else []
  }

  lemma {:induction false} RetryOfName(all: seq<Test>, names: set<string>, name: string)
    ensures Named(ToRetry(all, names), name) == if name in names then Named(all, name) else []
  {
    if all != [] {
      var front, last := all[..|all| - 1], all[|all| - 1];
      RetryOfName(front, names, name);
      if last.name in names {
        var sent := ToRetry(all, names);
        assert sent[..|sent| - 1] == ToRetry(front, names);
      } else {
        assert ToRetry(all, names) == ToRetry(front, names);
      }
    }
  }

  lemma {:induction false} AttemptsTests(attempts: seq<Attempt>, name: string)
    ensures TestsOf(AttemptsAt(attempts, name)) == Named(TestsOf(attempts), name)
  {
    if attempts != [] {
      var front, a := attempts[..|attempts| - 1], attempts[|attempts| - 1];
      AttemptsTests(front, name);
      assert TestsOf(attempts)[..|attempts| - 1] == TestsOf(front);
      var rest := AttemptsAt(front, name);
      assert TestsOf(rest + [a]) == TestsOf(rest) + [a.test];
    }
  }

  lemma {:induction false} NamedCount(tests: seq<Test>, name: string, t: Test)
    ensures multiset(Named(tests, name))[t] == if t.name == name then multiset(tests)[t] else 0
  {
    if tests != [] {
      var front, last := tests[..|tests| - 1], tests[|tests| - 1];
      NamedCount(front, name, t);
      assert tests == front + [last];
    }
  }

  /** The same tests in another order have the same tests of each name. */
  lemma NamedSame(tests: seq<Test>, back: seq<Test>, name: string)
    requires multiset(tests) == multiset(back)
    ensures multiset(Named(tests, name)) == multiset(Named(back, name))
  {
    forall t ensures multiset(Named(tests, name))[t] == multiset(Named(back, name))[t] {
      NamedCount(tests, name, t);
      NamedCount(back, name, t);
    }
  }

  lemma SingleFrom(s: seq<Test>, t: Test)
    requires multiset(s) == multiset{t}
    ensures s == [t]
  {
    assert |multiset(s)| == 1;
    assert s[0] in multiset(s);
  }

  /** In a round, the attempts of a name are those at the tests of that name, if the name had failed. */
  lemma RoundOfName(all: seq<Test>, names: set<string>, attempts: seq<Attempt>, name: string, t: Test)
    requires multiset(TestsOf(attempts)) == multiset(ToRetry(all, names))
    requires Named(all, name) == [t]
    ensures TestsOf(AttemptsAt(attempts, name)) == if name in names then [t] else []
  {
    hide TestsOf, Named, AttemptsAt, ToRetry;
    AttemptsTests(attempts, name);
    NamedSame(TestsOf(attempts), ToRetry(all, names), name);
    RetryOfName(all, names, name);
    if name in names {
      SingleFrom(Named(TestsOf(attempts), name), t);
    } else {
      assert |multiset(Named(TestsOf(attempts), name))| == 0;
    }
  }

  // ---------------------------------------------------------------- what a round does to a result

  /** A round appends to the first result of each name all attempts of that name, and to no other result anything. */
  lemma {:induction false} PushAllIs(results: seq<TestResult>, attempts: seq<Attempt>, k: nat)
    requires k < |results|
    ensures var r, name := results[k], results[k].test.name;
            PushAll(results, attempts)[k]
            == if Find(results, name) == k then r.(attempts := r.attempts + AttemptsAt(attempts, name)) else r
  {
    if attempts != [] {
      var front, a := attempts[..|attempts| - 1], attempts[|attempts| - 1];
      PushAllIs(results, front, k);
      FindKept(results, front, a.test.name);
      var r, name := results[k], results[k].test.name;
      if a.test.name == name && Find(results, name) == k {
        assert r.attempts + AttemptsAt(front, name) + [a] == r.attempts + (AttemptsAt(front, name) + [a]);
      }
    }
  }

  lemma {:induction false} FindKept(results: seq<TestResult>, attempts: seq<Attempt>, name: string)
    ensures forall k :: 0 <= k < |results| ==> PushAll(results, attempts)[k].test == results[k].test
    ensures Find(PushAll(results, attempts), name) == Find(results, name)
  {
    if attempts != [] {
      FindKept(results, attempts[..|attempts| - 1], name);
    }
  }

  // ---------------------------------------------------------------- runs

  function FirstResults(attempts: seq<Attempt>): (r: seq<TestResult>)
    ensures |r| == |attempts|
    ensures forall i :: 0 <= i < |r| ==> r[i] == TestResult(attempts[i].test, [attempts[i]])
  {
    seq(|attempts|, i requires 0 <= i < |attempts| => TestResult(attempts[i].test, [attempts[i]]))
  }

  /**
   * The attempts of the retry rounds, one list per round: each list holds one attempt at every test of `all`
   * whose name failed, in any order and with any outcome, and the rounds stop when none failed.
   */
  ghost predicate Retrying(all: seq<Test>, results: seq<TestResult>, rounds: seq<seq<Attempt>>, left: nat)
    decreases left
  {
    if left == 0 || FailedNames(results) == {} then rounds == []
    else
      && rounds != []
      && multiset(TestsOf(rounds[0])) == multiset(ToRetry(all, FailedNames(results)))
      && Retrying(all, PushAll(results, rounds[0]), rounds[1..], left - 1)
  }

  function AfterRounds(results: seq<TestResult>, rounds: seq<seq<Attempt>>): (r: seq<TestResult>)
    ensures |r| == |results|
    decreases |rounds|
  {
    if rounds == [] then results else AfterRounds(PushAll(results, rounds[0]), rounds[1..])
  }

  /** A whole run: the first attempts, then the retry rounds. */
  ghost predicate IsRun(all: seq<Test>, tests: seq<Test>, retryCount: nat, first: seq<Attempt>,
                        rounds: seq<seq<Attempt>>) {
    && multiset(TestsOf(first)) == multiset(tests)
    && Retrying(all, FirstResults(first), rounds, retryCount)
  }

  function RunResults(first: seq<Attempt>, rounds: seq<seq<Attempt>>): seq<TestResult> {
    AfterRounds(FirstResults(first), rounds)
  }

  /** After r retry rounds: failures and at most one pass, and a failed result has r + 1 attempts. */
  predicate Round(result: TestResult, r: nat) {
    && result.History()
    && |result.attempts| <= r + 1
    && (result.Failed() ==> |result.attempts| == r + 1)
  }

  ghost predicate AllRound(results: seq<TestResult>, r: nat) {
    forall k :: 0 <= k < |results| ==> Round(results[k], r)
  }

  /** A final failure failed every time: exactly r + 1 attempts, none of them passed. */
  lemma FailureExhaustsRetries(h: TestResult, r: nat)
    requires Round(h, r)
    ensures h.Failed() <==> |h.attempts| == r + 1 && forall i :: 0 <= i < |h.attempts| ==> !h.attempts[i].passed
  {
    if |h.attempts| == r + 1 && forall i :: 0 <= i < |h.attempts| ==> !h.attempts[i].passed {
      assert !h.attempts[|h.attempts| - 1].passed;
    }
  }

  // ---------------------------------------------------------------- the condition suffices

  /** The name of every test to run occurs once among them and once among all tests. */
  ghost predicate OnceEach(all: seq<Test>, tests: seq<Test>) {
    forall t :: t in tests ==> Named(tests, t.name) == [t] && Named(all, t.name) == [t]
  }

  function ResultTests(results: seq<TestResult>): seq<Test> {
    seq(|results|, i requires 0 <= i < |results| => results[i].test)
  }

  /** The results are those of the tests, one each. */
  ghost predicate Covers(results: seq<TestResult>, all: seq<Test>) {
    forall k :: 0 <= k < |results| ==>
      Find(results, results[k].test.name) == k && Named(all, results[k].test.name) == [results[k].test]
  }

  lemma {:induction false} TwoNamed(tests: seq<Test>, i: nat, j: nat, name: string)
    requires i < j < |tests| && tests[i].name == tests[j].name == name
    ensures |Named(tests, name)| >= 2
  {
    var front := tests[..|tests| - 1];
    if j < |tests| - 1 {
      TwoNamed(front, i, j, name);
    } else {
      OneNamed(front, i, name);
    }
  }

  lemma {:induction false} OneNamed(tests: seq<Test>, i: nat, name: string)
    requires i < |tests| && tests[i].name == name
    ensures |Named(tests, name)| >= 1
  {
    if i < |tests| - 1 {
      OneNamed(tests[..|tests| - 1], i, name);
    }
  }

  lemma FirstCovers(all: seq<Test>, tests: seq<Test>, first: seq<Attempt>)
    requires OnceEach(all, tests) && multiset(TestsOf(first)) == multiset(tests)
    ensures Covers(FirstResults(first), all) && AllRound(FirstResults(first), 0)
  {
    hide Named;
    var results, back := FirstResults(first), TestsOf(first);
    forall k | 0 <= k < |results|
      ensures Find(results, results[k].test.name) == k && Named(all, results[k].test.name) == [results[k].test]
    {
      var t := results[k].test;
      assert back[k] in multiset(tests);
      NamedSame(tests, back, t.name);
      assert |multiset(Named(back, t.name))| == 1;
      var f := Find(results, t.name);
      if f < k {
        assert back[f].name == t.name;
        TwoNamed(back, f, k, t.name);
      }
    }
  }

  /** Whoever failed gets exactly one more attempt of its own, and nobody else gets any. */
  lemma RoundKeeps(all: seq<Test>, results: seq<TestResult>, attempts: seq<Attempt>, r: nat)
    requires Covers(results, all) && AllRound(results, r)
    requires multiset(TestsOf(attempts)) == multiset(ToRetry(all, FailedNames(results)))
    ensures Covers(PushAll(results, attempts), all) && AllRound(PushAll(results, attempts), r + 1)
  {
    hide Named, Find, PushAll, ToRetry, TestsOf, FailedNames, Round;
    var now := PushAll(results, attempts);
    forall k | 0 <= k < |results|
      ensures now[k].test == results[k].test && Find(now, now[k].test.name) == k && Round(now[k], r + 1)
    {
      FindKept(results, attempts, results[k].test.name);
      PushAllIs(results, attempts, k);
      RoundOfName(all, FailedNames(results), attempts, results[k].test.name, results[k].test);
      FailedNameIff(results, all, k);
      RoundGrows(results[k], now[k], AttemptsAt(attempts, results[k].test.name), r);
    }
  }

  lemma FailedNameIff(results: seq<TestResult>, all: seq<Test>, k: nat)
    requires Covers(results, all) && k < |results|
    ensures results[k].test.name in FailedNames(results) <==> results[k].Failed()
  {
    hide Named;
  }

  lemma RoundGrows(was: TestResult, now: TestResult, more: seq<Attempt>, r: nat)
    requires Round(was, r) && now == was.(attempts := was.attempts + more)
    requires TestsOf(more) == if was.Failed() then [was.test] else []
    ensures Round(now, r + 1)
  {
    assert |TestsOf(more)| == |more|;
    if was.Failed() {
      assert TestsOf(more)[0] == more[0].test;
      assert forall j :: 0 <= j < |was.attempts| ==> now.attempts[j] == was.attempts[j] && !now.attempts[j].passed;
    } else {
      assert now.attempts == was.attempts;
    }
  }

  /** No result failed, so the remaining rounds have nothing to add. */
  lemma NoneFailed(results: seq<TestResult>, r: nat, r': nat)
    requires AllRound(results, r) && FailedNames(results) == {} && r <= r'
    ensures AllRound(results, r')
  {
    hide FailedNames;
    forall k | 0 <= k < |results|
      ensures Round(results[k], r')
    {
      if results[k].Failed() {
        FailedIsNamed(results, k);
      }
    }
  }

  lemma FailedIsNamed(results: seq<TestResult>, k: nat)
    requires k < |results| && results[k].Failed()
    ensures results[k].test.name in FailedNames(results)
  {
  }

  lemma {:induction false} RetryingKeeps(all: seq<Test>, results: seq<TestResult>, rounds: seq<seq<Attempt>>, r: nat,
                                         left: nat)
    requires Covers(results, all) && AllRound(results, r) && Retrying(all, results, rounds, left)
    ensures AllRound(AfterRounds(results, rounds), r + left)
    decreases left
  {
    hide Covers, AllRound, FailedNames, ToRetry, PushAll;
    if left == 0 || FailedNames(results) == {} {
      if left > 0 {
        NoneFailed(results, r, r + left);
      }
    } else {
      RoundKeeps(all, results, rounds[0], r);
      RetryingKeeps(all, PushAll(results, rounds[0]), rounds[1..], r + 1, left - 1);
    }
  }

  // ---------------------------------------------------------------- the condition is needed

  /** Every test attempted once, and every attempt a failure. */
  function AllFailing(tests: seq<Test>): (a: seq<Attempt>)
    ensures |a| == |tests| && forall i :: 0 <= i < |a| ==> a[i] == Attempt(tests[i], false)
  {
    seq(|tests|, i requires 0 <= i < |tests| => Attempt(tests[i], false))
  }

  lemma FailingTests(tests: seq<Test>)
    ensures TestsOf(AllFailing(tests)) == tests
  {
  }

  lemma {:induction false} FailingNamed(tests: seq<Test>, name: string)
    ensures AttemptsAt(AllFailing(tests), name) == AllFailing(Named(tests, name))
  {
    if tests != [] {
      var front := tests[..|tests| - 1];
      FailingNamed(front, name);
      assert AllFailing(tests)[..|tests| - 1] == AllFailing(front);
    }
  }

  ghost predicate Hopeless(results: seq<TestResult>) {
    forall k :: 0 <= k < |results| ==>
          results[k].attempts != [] && !results[k].attempts[|results[k].attempts| - 1].passed
  }

  /** The run in which nothing ever passes. */
  function FailingRounds(all: seq<Test>, names: set<string>, left: nat): seq<seq<Attempt>> {
    seq(left, _ => AllFailing(ToRetry(all, names)))
  }

  function Repeated(s: seq<Attempt>, n: nat): seq<Attempt> {
    if n == 0 then [] else s + Repeated(s, n - 1)
  }

  lemma {:induction false} RepeatedLength(s: seq<Attempt>, n: nat)
    ensures |Repeated(s, n)| == |s| * n
  {
    if n > 0 {
      RepeatedLength(s, n - 1);
      assert |s| * n == |s| + |s| * (n - 1);
    }
  }

  lemma RepeatedFirst(s: seq<Attempt>, n: nat)
    requires s != [] && n > 0
    ensures Repeated(s, n) != [] && Repeated(s, n)[0] == s[0]
  {
  }

  lemma TwicePerRound(m: nat, n: nat)
    requires m >= 2
    ensures m * n >= 2 * n
  {
    assert (m - 2) * n >= 0;
  }

  /** What each result gains in one failing round. */
  function Share(all: seq<Test>, results: seq<TestResult>, k: nat): seq<Attempt>
    requires k < |results|
  {
    var name := results[k].test.name;
    if Find(results, name) == k then AllFailing(Named(all, name)) else []
  }

  lemma FailingRound(all: seq<Test>, results: seq<TestResult>, k: nat)
    requires Hopeless(results) && k < |results|
    ensures var now := PushAll(results, AllFailing(ToRetry(all, FailedNames(results))));
            && now[k] == results[k].(attempts := results[k].attempts + Share(all, results, k))
            && Share(all, now, k) == Share(all, results, k)
            && now[k].attempts != [] && !now[k].attempts[|now[k].attempts| - 1].passed
  {
    hide Named, ToRetry, Find, AttemptsAt, PushAll;
    var names, name := FailedNames(results), results[k].test.name;
    var attempts := AllFailing(ToRetry(all, names));
    assert results[k].Failed() && name in names;
    PushAllIs(results, attempts, k);
    FindKept(results, attempts, name);
    FailingNamed(ToRetry(all, names), name);
    RetryOfName(all, names, name);
    assert results[k].attempts + [] == results[k].attempts;
  }

  lemma FailingNames(all: seq<Test>, results: seq<TestResult>)
    requires Hopeless(results)
    ensures var now := PushAll(results, AllFailing(ToRetry(all, FailedNames(results))));
            Hopeless(now) && FailedNames(now) == FailedNames(results)
  {
    hide PushAll, ToRetry, Share;
    var now := PushAll(results, AllFailing(ToRetry(all, FailedNames(results))));
    forall k | 0 <= k < |results|
      ensures now[k].test == results[k].test && now[k].Failed() && results[k].Failed()
      ensures now[k].attempts != [] && !now[k].attempts[|now[k].attempts| - 1].passed
    {
      FailingRound(all, results, k);
    }
  }

  lemma {:induction false} FailingRun(all: seq<Test>, results: seq<TestResult>, left: nat)
    requires Hopeless(results) && FailedNames(results) != {}
    ensures Retrying(all, results, FailingRounds(all, FailedNames(results), left), left)
    ensures forall k: nat :: k < |results| ==>
              AfterRounds(results, FailingRounds(all, FailedNames(results), left))[k]
              == results[k].(attempts := results[k].attempts + Repeated(Share(all, results, k), left))
    decreases left
  {
    hide Hopeless, FailedNames, ToRetry, PushAll, Share;
    var rounds := FailingRounds(all, FailedNames(results), left);
    if left == 0 {
      assert forall k: nat :: k < |results| ==>
               results[k].attempts + Repeated(Share(all, results, k), 0) == results[k].attempts;
    } else {
      var now := PushAll(results, rounds[0]);
      FailingNames(all, results);
      FailingTests(ToRetry(all, FailedNames(results)));
      assert rounds[1..] == FailingRounds(all, FailedNames(now), left - 1);
      FailingRun(all, now, left - 1);
      forall k: nat | k < |results|
        ensures AfterRounds(results, rounds)[k]
                == results[k].(attempts := results[k].attempts + Repeated(Share(all, results, k), left))
      {
        FailingRound(all, results, k);
        var x := Share(all, results, k);
        assert results[k].attempts + x + Repeated(x, left - 1) == results[k].attempts + (x + Repeated(x, left - 1));
      }
    }
  }

  /** A result that gains anything but one failure of its own in each round is not as promised. */
  lemma WrongShare(t: Test, share: seq<Attempt>, left: nat)
    requires left > 0 && share != [Attempt(t, false)] && forall i :: 0 <= i < |share| ==> !share[i].passed
    ensures !Round(TestResult(t, [Attempt(t, false)] + Repeated(share, left)), left)
  {
    hide Repeated;
    var h := TestResult(t, [Attempt(t, false)] + Repeated(share, left));
    RepeatedLength(share, left);
    if |share| == 1 {
      RepeatedFirst(share, left);
      assert h.attempts[1] == share[0];
      assert share == [share[0]] && share[0].test != t;
    } else if |share| == 0 {
      assert h.attempts == [Attempt(t, false)];
    } else {
      TwicePerRound(|share|, left);
    }
  }

  lemma {:induction false} NamedMember(tests: seq<Test>, k: nat)
    requires k < |tests|
    ensures tests[k] in Named(tests, tests[k].name)
  {
    if k < |tests| - 1 {
      NamedMember(tests[..|tests| - 1], k);
    }
  }

  lemma {:induction false} NamedPositions(tests: seq<Test>, name: string) returns (i: nat, j: nat)
    requires |Named(tests, name)| >= 2
    ensures i < j < |tests| && tests[i].name == tests[j].name == name
  {
    var front, last := tests[..|tests| - 1], tests[|tests| - 1];
    if |Named(front, name)| >= 2 {
      i, j := NamedPositions(front, name);
    } else {
      j := |tests| - 1;
      i := NamedPosition(front, name);
    }
  }

  lemma {:induction false} NamedPosition(tests: seq<Test>, name: string) returns (i: nat)
    requires |Named(tests, name)| >= 1
    ensures i < |tests| && tests[i].name == name
  {
    if tests[|tests| - 1].name == name {
      i := |tests| - 1;
    } else {
      i := NamedPosition(tests[..|tests| - 1], name);
    }
  }

  lemma FailingSingle(tests: seq<Test>, t: Test)
    ensures AllFailing(tests) == [Attempt(t, false)] ==> tests == [t]
  {
    FailingTests(tests);
    assert TestsOf([Attempt(t, false)]) == [t];
  }

  /** A test whose name does not occur once and once: some position gains a wrong share in the failing run. */
  lemma WrongPosition(all: seq<Test>, tests: seq<Test>) returns (k: nat)
    requires !OnceEach(all, tests)
    ensures k < |tests|
    ensures Share(all, FirstResults(AllFailing(tests)), k) != [Attempt(tests[k], false)]
  {
    hide Named;
    var results := FirstResults(AllFailing(tests));
    var t :| t in tests && !(Named(tests, t.name) == [t] && Named(all, t.name) == [t]);
    k :| 0 <= k < |tests| && tests[k] == t;
    NamedMember(tests, k);
    if |Named(tests, t.name)| >= 2 {
      var i, j := NamedPositions(tests, t.name);
      k := j;
      assert results[i].test.name == results[j].test.name;
      assert Find(results, results[j].test.name) <= i;
    } else {
      assert Named(tests, t.name) == [t];
      assert Named(all, t.name) != [t];
      FailingSingle(Named(all, t.name), t);
    }
  }

  lemma FailingRunBreaks(all: seq<Test>, tests: seq<Test>, retryCount: nat)
    returns (first: seq<Attempt>, rounds: seq<seq<Attempt>>)
    requires retryCount > 0 && !OnceEach(all, tests)
    ensures IsRun(all, tests, retryCount, first, rounds) && !AllRound(RunResults(first, rounds), retryCount)
  {
    hide OnceEach, Retrying, AfterRounds, Round, Repeated;
    first := AllFailing(tests);
    var results := FirstResults(first);
    var k := WrongPosition(all, tests);
    assert results[k].Failed() && results[k].test.name in FailedNames(results);
    rounds := FailingRounds(all, FailedNames(results), retryCount);
    FailingTests(tests);
    FailingRun(all, results, retryCount);
    WrongShare(tests[k], Share(all, results, k), retryCount);
    assert results[k] == TestResult(tests[k], [Attempt(tests[k], false)]);
  }

  /**
   * Exactly when the retries keep their promise: whatever the schedules and the outcomes, every result ends as
   * failures followed by at most one pass, with retryCount + 1 attempts if it failed, just when there are no
   * retries at all or the name of every test to run occurs once among them and once among all tests.
   */
  lemma RetriesIff(all: seq<Test>, tests: seq<Test>, retryCount: nat)
    ensures (forall first, rounds :: IsRun(all, tests, retryCount, first, rounds)
                                     ==> AllRound(RunResults(first, rounds), retryCount))
            <==> retryCount == 0 || OnceEach(all, tests)
  {
    hide OnceEach, Covers, Retrying, AfterRounds;
    if retryCount == 0 {
      forall first, rounds | IsRun(all, tests, retryCount, first, rounds)
        ensures AllRound(RunResults(first, rounds), retryCount)
      {
        NoRounds(all, first, rounds);
      }
    } else if OnceEach(all, tests) {
      forall first, rounds | IsRun(all, tests, retryCount, first, rounds)
        ensures AllRound(RunResults(first, rounds), retryCount)
      {
        FirstCovers(all, tests, first);
        RetryingKeeps(all, FirstResults(first), rounds, 0, retryCount);
      }
    } else {
      var first, rounds := FailingRunBreaks(all, tests, retryCount);
    }
  }

  lemma NoRounds(all: seq<Test>, first: seq<Attempt>, rounds: seq<seq<Attempt>>)
    requires Retrying(all, FirstResults(first), rounds, 0)
    ensures AllRound(RunResults(first, rounds), 0)
  {
  }

  // ---------------------------------------------------------------- every test has one result

  lemma {:induction false} RoundsKeepTests(results: seq<TestResult>, rounds: seq<seq<Attempt>>)
    ensures ResultTests(AfterRounds(results, rounds)) == ResultTests(results)
    decreases |rounds|
  {
    if rounds != [] {
      FindKept(results, rounds[0], "");
      RoundsKeepTests(PushAll(results, rounds[0]), rounds[1..]);
    }
  }

  /** In every run, the results are those of the tests to run, one each. */
  lemma RunHasAllTests(all: seq<Test>, tests: seq<Test>, retryCount: nat, first: seq<Attempt>,
                       rounds: seq<seq<Attempt>>)
    requires IsRun(all, tests, retryCount, first, rounds)
    ensures multiset(ResultTests(RunResults(first, rounds))) == multiset(tests)
  {
    RoundsKeepTests(FirstResults(first), rounds);
    assert ResultTests(FirstResults(first)) == TestsOf(first);
  }

  // ---------------------------------------------------------------- the loops

  /** Pushing each attempt of a round, as the loop over the attempts does. */
  method Append(results: seq<TestResult>, attempts: seq<Attempt>) returns (r: seq<TestResult>)
    ensures r == PushAll(results, attempts)
  {
    r := results;
    for i := 0 to |attempts|
      invariant r == PushAll(results, attempts[..i])
    {
      assert attempts[..i + 1][..i] == attempts[..i];
      r := Push(r, attempts[i]);
    }
    assert attempts[..|attempts|] == attempts;
  }

  lemma RetryingStep(all: seq<Test>, results: seq<TestResult>, round: seq<Attempt>, rest: seq<seq<Attempt>>, left: nat)
    requires left > 0 && FailedNames(results) != {}
    requires multiset(TestsOf(round)) == multiset(ToRetry(all, FailedNames(results)))
    requires Retrying(all, PushAll(results, round), rest, left - 1)
    ensures Retrying(all, results, [round] + rest, left)
  {
    hide FailedNames, ToRetry, PushAll, TestsOf;
    assert ([round] + rest)[1..] == rest;
  }

  /** The rounds made so far, continued by rounds that `more` allows, are rounds of the whole run. */
  lemma {:induction false} RetryingSnoc(all: seq<Test>, results: seq<TestResult>, rounds: seq<seq<Attempt>>,
                                        more: seq<seq<Attempt>>,
                                        left: nat)
    requires |rounds| <= left && Made(all, results, rounds)
    requires Retrying(all, AfterRounds(results, rounds), more, left - |rounds|)
    ensures Retrying(all, results, rounds + more, left)
    decreases |rounds|
  {
    hide FailedNames, ToRetry, PushAll, TestsOf, Retrying;
    if rounds == [] {
      assert rounds + more == more;
    } else {
      RetryingSnoc(all, PushAll(results, rounds[0]), rounds[1..], more, left - 1);
      RetryingStep(all, results, rounds[0], rounds[1..] + more, left);
      assert rounds + more == [rounds[0]] + (rounds[1..] + more);
    }
  }

  /** Rounds that were each called for. */
  ghost predicate Made(all: seq<Test>, results: seq<TestResult>, rounds: seq<seq<Attempt>>)
    decreases |rounds|
  {
    rounds != [] ==>
      && FailedNames(results) != {}
      && multiset(TestsOf(rounds[0])) == multiset(ToRetry(all, FailedNames(results)))
      && Made(all, PushAll(results, rounds[0]), rounds[1..])
  }

  lemma {:induction false} MadeSnoc(all: seq<Test>, results: seq<TestResult>, rounds: seq<seq<Attempt>>,
                                    round: seq<Attempt>)
    requires Made(all, results, rounds) && FailedNames(AfterRounds(results, rounds)) != {}
    requires multiset(TestsOf(round)) == multiset(ToRetry(all, FailedNames(AfterRounds(results, rounds))))
    ensures Made(all, results, rounds + [round])
    ensures AfterRounds(results, rounds + [round]) == PushAll(AfterRounds(results, rounds), round)
    decreases |rounds|
  {
    hide FailedNames, ToRetry, PushAll, TestsOf;
    if rounds == [] {
      assert rounds + [round] == [round];
      assert [round][1..] == [];
    } else {
      assert (rounds + [round])[1..] == rounds[1..] + [round] && (rounds + [round])[0] == rounds[0];
      MadeSnoc(all, PushAll(results, rounds[0]), rounds[1..], round);
    }
  }

  /**
   * The runner with retries makes a run, so that every test has one result; and the results are as promised if
   * the name of every test to run occurs once among them and once among all tests.
   */
  method RunTestsWithRetries(all: seq<Test>, tests: seq<Test>, jobs: nat, retryCount: nat)
    returns (results: seq<TestResult>, ghost first: seq<Attempt>, ghost rounds: seq<seq<Attempt>>)
    ensures jobs > 0 ==> IsRun(all, tests, retryCount, first, rounds) && results == RunResults(first, rounds)
    ensures jobs > 0 ==> multiset(ResultTests(results)) == multiset(tests)
    ensures jobs > 0 && OnceEach(all, tests) ==> AllRound(results, retryCount)
    ensures jobs == 0 ==> results == []
  {
    hide OnceEach, AllRound, FailedNames, ToRetry, PushAll, Push, FirstResults, ResultTests, TestsOf, Made, Retrying,
         AfterRounds;
    var attempts := RunTestsParallel(tests, jobs);
    first, rounds := attempts, [];
    results := FirstResults(attempts);
    Begin(all, first);
    var retry := 0;
    while retry < retryCount && FailedNames(results) != {}
      invariant retry == |rounds| <= retryCount && results == AfterRounds(FirstResults(first), rounds)
      invariant jobs > 0 ==> Made(all, FirstResults(first), rounds)
      invariant jobs == 0 ==> results == []
    {
      attempts := RunTestsParallel(ToRetry(all, FailedNames(results)), jobs);
      if jobs > 0 {
        MadeSnoc(all, FirstResults(first), rounds, attempts);
      } else {
        assert false by { NobodyFailed(results); }
      }
      results := Append(results, attempts);
      rounds := rounds + [attempts];
      retry := retry + 1;
    }
    if jobs > 0 {
      Stop(all, results, retryCount - retry);
      RetryingSnoc(all, FirstResults(first), rounds, [], retryCount);
      assert rounds + [] == rounds;
      RunHasAllTests(all, tests, retryCount, first, rounds);
      RetriesIff(all, tests, retryCount);
    }
  }

  lemma Begin(all: seq<Test>, first: seq<Attempt>)
    ensures AfterRounds(FirstResults(first), []) == FirstResults(first) && Made(all, FirstResults(first), [])
    ensures first == [] ==> FirstResults(first) == []
  {
  }

  lemma Stop(all: seq<Test>, results: seq<TestResult>, left: nat)
    requires left == 0 || FailedNames(results) == {}
    ensures Retrying(all, results, [], left)
  {
  }

  lemma NobodyFailed(results: seq<TestResult>)
    requires results == []
    ensures FailedNames(results) == {}
  {
  }
}
