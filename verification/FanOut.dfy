/**
 * Full-state updates of several accounts at once: `applyStateSync` starts one `applyFullAccountState`
 * per account inside a single transaction and waits for all of them (crates/idxdb-store/src/js/sync.js),
 * so the requests of different accounts interleave. A run is any such interleaving.
 */
module FanOut {
  import opened Common
  import opened VersionedRows
  import opened AccountRows
  import opened AccountTables
  import opened FanOutRows

  datatype Head = Unread | Read(found: Option<Header>) | Superseded | Written

  /** One account's update: slots, then map entries, then assets, then the header. */
  datatype Task = Task(slots: Part<string, nat>, entries: Part<MapKey, ()>, assets: Part<string, ()>, head: Head)

  datatype Move =
    | OnSlots(slot: RowEvent<string>)
    | OnEntries(entry: RowEvent<MapKey>)
    | OnAssets(asset: RowEvent<string>)
    | OnHeader

  const NewTask := Task(Reading, Reading, Reading, Unread)

  predicate TaskEnabled(k: Task, m: Move) {
    match m
    case OnSlots(e) => RowEnabled(k.slots, e)
    case OnEntries(e) => k.slots.Finished? && RowEnabled(k.entries, e)
    case OnAssets(e) => k.entries.Finished? && RowEnabled(k.assets, e)
    case OnHeader => k.assets.Finished? && !k.head.Written?
  }

  /** One request of the update to snapshot `s`: the rows and the task it leaves. */
  function TaskStep(r: Rows, k: Task, s: Snapshot, m: Move): (Rows, Task)
    requires TaskEnabled(k, m)
  {
    var n := s.header.nonce;
    match m
    case OnSlots(e) =>
      var c := RowStep(Component(k.slots, r.contents.slots, r.history.slots), e, n, s.contents.slots);
      (r.(contents := r.contents.(slots := c.latest), history := r.history.(slots := c.past)), k.(slots := c.part))
    case OnEntries(e) =>
      var c := RowStep(Component(k.entries, r.contents.entries, r.history.entries), e, n, s.contents.entries);
      (r.(contents := r.contents.(entries := c.latest), history := r.history.(entries := c.past)),
       k.(entries := c.part))
    case OnAssets(e) =>
      var c := RowStep(Component(k.assets, r.contents.assets, r.history.assets), e, n, s.contents.assets);
      (r.(contents := r.contents.(assets := c.latest), history := r.history.(assets := c.past)), k.(assets := c.part))
    case OnHeader =>
      match k.head
      case Unread => (r, k.(head := Read(r.header)))
      case Read(found) =>
        (if found.None? then r
         else r.(archived := r.archived[found.value.accountCommitment := OldHeader(n, found.value)]),
         k.(head := Superseded))
      case Superseded => (r.(header := Some(s.header)), k.(head := Written))
      case Written => assert false; (r, k)
  }

  // ---------------------------------------------------------------- one account

  /** The rows of an account, its superseded headers aside. */
  function Body(r: Rows): Rows { r.(archived := map[]) }

  ghost predicate HeadProgress(h: Head, r0: Rows, r: Rows, s: Snapshot) {
    match h
    case Unread => r.header == r0.header
    case Read(found) => found == r0.header && r.header == r0.header
    case Superseded => r.header == r0.header
    case Written => r.header == Some(s.header)
  }

  /** The account is on its way from rows `r0` to snapshot `s`; superseded headers are looked at separately. */
  ghost predicate OnItsWay(k: Task, r0: Rows, r: Rows, s: Snapshot) {
    var n := s.header.nonce;
    && Progress(Component(k.slots, r.contents.slots, r.history.slots),
                r0.contents.slots, r0.history.slots, n, s.contents.slots)
    && Progress(Component(k.entries, r.contents.entries, r.history.entries),
                r0.contents.entries, r0.history.entries, n, s.contents.entries)
    && Progress(Component(k.assets, r.contents.assets, r.history.assets),
                r0.contents.assets, r0.history.assets, n, s.contents.assets)
    && HeadProgress(k.head, r0, r, s)
    && (k.entries.Reading? || k.slots.Finished?)
    && (k.assets.Reading? || k.entries.Finished?)
    && (k.head.Unread? || k.assets.Finished?)
  }

  lemma StartsOnItsWay(r0: Rows, s: Snapshot)
    ensures OnItsWay(NewTask, r0, r0, s)
  {
  }

  lemma TaskStepKeeps(k: Task, r0: Rows, r: Rows, s: Snapshot, m: Move)
    requires OnItsWay(k, r0, r, s) && TaskEnabled(k, m)
    ensures var (r', k') := TaskStep(r, k, s, m); OnItsWay(k', r0, r', s)
  {
    hide Progress, RowStep;
    var n := s.header.nonce;
    match m
    case OnSlots(e) =>
      RowStepKeeps(Component(k.slots, r.contents.slots, r.history.slots), e,
                   r0.contents.slots, r0.history.slots, n, s.contents.slots);
    case OnEntries(e) =>
      RowStepKeeps(Component(k.entries, r.contents.entries, r.history.entries), e,
                   r0.contents.entries, r0.history.entries, n, s.contents.entries);
    case OnAssets(e) =>
      RowStepKeeps(Component(k.assets, r.contents.assets, r.history.assets), e,
                   r0.contents.assets, r0.history.assets, n, s.contents.assets);
    case OnHeader =>
  }

  /** A finished update has written exactly what the one-step replacement writes. */
  lemma WrittenIsFull(k: Task, r0: Rows, r: Rows, s: Snapshot)
    requires OnItsWay(k, r0, r, s) && k.head.Written?
    ensures Body(r) == Body(WriteFull(r0, s))
  {
    hide Progress, Supersede;
    var n := s.header.nonce;
    FinishedIs(Component(k.slots, r.contents.slots, r.history.slots),
               r0.contents.slots, r0.history.slots, n, s.contents.slots);
    FinishedIs(Component(k.entries, r.contents.entries, r.history.entries),
               r0.contents.entries, r0.history.entries, n, s.contents.entries);
    FinishedIs(Component(k.assets, r.contents.assets, r.history.assets),
               r0.contents.assets, r0.history.assets, n, s.contents.assets);
  }

  lemma OnItsWayBody(k: Task, r0: Rows, r: Rows, s: Snapshot, r': Rows)
    requires OnItsWay(k, r0, r, s) && Body(r') == Body(r)
    ensures OnItsWay(k, r0, r', s)
  {
    hide Progress;
    assert r'.contents == Body(r').contents && r'.history == Body(r').history && r'.header == Body(r').header;
    assert r.contents == Body(r).contents && r.history == Body(r).history && r.header == Body(r).header;
  }

  lemma TaskNotStuck(k: Task, r0: Rows, r: Rows, s: Snapshot)
    requires OnItsWay(k, r0, r, s)
    ensures k.head.Written? <==> forall m :: !TaskEnabled(k, m)
  {
    hide Progress, HeadProgress;
    RowsNotStuck(k.slots);
    RowsNotStuck(k.entries);
    RowsNotStuck(k.assets);
    if !k.head.Written? {
      if k.assets.Finished? {
        assert TaskEnabled(k, OnHeader);
      } else if k.entries.Finished? {
        var e :| RowEnabled(k.assets, e);
        assert TaskEnabled(k, OnAssets(e));
      } else if k.slots.Finished? {
        var e :| RowEnabled(k.entries, e);
        assert TaskEnabled(k, OnEntries(e));
      } else {
        var e :| RowEnabled(k.slots, e);
        assert TaskEnabled(k, OnSlots(e));
      }
    }
  }

  // ---------------------------------------------------------------- all accounts together

  type Updates = map<AccountId, Snapshot>

  datatype World = World(tables: Tables, tasks: map<AccountId, Task>)

  datatype Request = Request(account: AccountId, move: Move)

  function Launch(t: Tables, u: Updates): World {
    World(t, map a | a in u :: NewTask)
  }

  predicate CanRun(w: World, u: Updates, q: Request) {
    q.account in u && q.account in w.tasks && TaskEnabled(w.tasks[q.account], q.move)
  }

  function Run(w: World, u: Updates, q: Request): World
    requires CanRun(w, u, q)
  {
    var a := q.account;
    var (r, k) := TaskStep(RowsOf(w.tables, a), w.tasks[a], u[a], q.move);
    World(WithRows(w.tables, a, r), w.tasks[a := k])
  }

  predicate AllowedRun(w: World, u: Updates, qs: seq<Request>)
    decreases |qs|
  {
    qs == [] || (CanRun(w, u, qs[0]) && AllowedRun(Run(w, u, qs[0]), u, qs[1..]))
  }

  function RunAll(w: World, u: Updates, qs: seq<Request>): World
    requires AllowedRun(w, u, qs)
    decreases |qs|
  {
    if qs == [] then w else RunAll(Run(w, u, qs[0]), u, qs[1..])
  }

  predicate Completed(w: World) {
    forall a :: a in w.tasks ==> w.tasks[a].head.Written?
  }

  /** Writing one account's rows leaves the bodies of all others, whatever headers it overwrites. */
  lemma BodyOfWith(t: Tables, a: AccountId, r: Rows, b: AccountId)
    ensures Body(RowsOf(WithRows(t, a, r), b)) == Body(if b == a then r else RowsOf(t, b))
  {
    hide Slice, WithSlice, WithOwnHeaders, OwnHeaders;
    SliceOfWith(t.latestSlots, a, r.contents.slots, b);
    SliceOfWith(t.latestEntries, a, r.contents.entries, b);
    SliceOfWith(t.latestAssets, a, r.contents.assets, b);
    SliceOfWith(t.historicalSlots, a, r.history.slots, b);
    SliceOfWith(t.historicalEntries, a, r.history.entries, b);
    SliceOfWith(t.historicalAssets, a, r.history.assets, b);
  }

  /** Updated accounts are on their way, and the others are as they were. */
  ghost predicate AccountKept(w: World, t0: Tables, u: Updates, a: AccountId) {
    && (a in u <==> a in w.tasks)
    && if a in u then OnItsWay(w.tasks[a], RowsOf(t0, a), RowsOf(w.tables, a), u[a])
       else Body(RowsOf(w.tables, a)) == Body(RowsOf(t0, a))
  }

  ghost predicate WorldInv(w: World, t0: Tables, u: Updates) {
    && w.tables.codes == t0.codes && w.tables.foreignCodes == t0.foreignCodes
    && forall a :: AccountKept(w, t0, u, a)
  }

  lemma OtherKept(w: World, w': World, t0: Tables, u: Updates, b: AccountId)
    requires AccountKept(w, t0, u, b) && Body(RowsOf(w'.tables, b)) == Body(RowsOf(w.tables, b))
    requires Get(w'.tasks, b) == Get(w.tasks, b)
    ensures AccountKept(w', t0, u, b)
  {
    hide RowsOf, OnItsWay, Body;
    assert b in w.tasks <==> b in w'.tasks;
    if b in u {
      OnItsWayBody(w.tasks[b], RowsOf(t0, b), RowsOf(w.tables, b), u[b], RowsOf(w'.tables, b));
    }
  }

  lemma RunKeepsAt(w: World, t0: Tables, u: Updates, q: Request, b: AccountId)
    requires WorldInv(w, t0, u) && CanRun(w, u, q)
    ensures AccountKept(Run(w, u, q), t0, u, b)
  {
    hide RowsOf, WithRows, OnItsWay, TaskStep, TaskEnabled, Body;
    var a := q.account;
    var (r, k) := TaskStep(RowsOf(w.tables, a), w.tasks[a], u[a], q.move);
    BodyOfWith(w.tables, a, r, b);
    assert AccountKept(w, t0, u, b) && AccountKept(w, t0, u, a);
    if b == a {
      TaskStepKeeps(w.tasks[a], RowsOf(t0, a), RowsOf(w.tables, a), u[a], q.move);
      OnItsWayBody(k, RowsOf(t0, a), r, u[a], RowsOf(Run(w, u, q).tables, a));
    } else {
      OtherKept(w, Run(w, u, q), t0, u, b);
    }
  }

  lemma RunKeeps(w: World, t0: Tables, u: Updates, q: Request)
    requires WorldInv(w, t0, u) && CanRun(w, u, q)
    ensures WorldInv(Run(w, u, q), t0, u)
  {
    hide AccountKept, RowsOf, TaskStep;
    forall b ensures AccountKept(Run(w, u, q), t0, u, b) {
      RunKeepsAt(w, t0, u, q, b);
    }
  }

  lemma LaunchInv(t: Tables, u: Updates)
    ensures WorldInv(Launch(t, u), t, u)
  {
    hide RowsOf, OnItsWay;
    forall a ensures AccountKept(Launch(t, u), t, u, a) {
      if a in u {
        StartsOnItsWay(RowsOf(t, a), u[a]);
      }
    }
  }

  lemma {:induction false} RunAllKeeps(w: World, t0: Tables, u: Updates, qs: seq<Request>)
    requires WorldInv(w, t0, u) && AllowedRun(w, u, qs)
    ensures WorldInv(RunAll(w, u, qs), t0, u)
    decreases |qs|
  {
    hide WorldInv, Run, CanRun;
    if qs != [] {
      RunKeeps(w, t0, u, qs[0]);
      RunAllKeeps(Run(w, u, qs[0]), t0, u, qs[1..]);
    }
  }

  // ---------------------------------------------------------------- superseded headers

  /** No two updated accounts have the same current commitment. */
  ghost predicate DistinctCurrent(t: Tables, u: Updates) {
    forall a, b | a in u && b in u && a in t.latestHeaders && b in t.latestHeaders
      :: t.latestHeaders[a].accountCommitment == t.latestHeaders[b].accountCommitment ==> a == b
  }

  /** Account `a`, among those whose old header is archived, had the current commitment `c`. */
  predicate Archives(t0: Tables, done: set<AccountId>, a: AccountId, c: Commitment) {
    a in done && a in t0.latestHeaders && t0.latestHeaders[a].accountCommitment == c
  }

  /** The historical headers once the old headers of the accounts `done` are archived. */
  ghost predicate HeadersAre(hh: map<Commitment, HeaderRow>, t0: Tables, u: Updates, done: set<AccountId>) {
    && done <= u.Keys
    && (forall a, c :: Archives(t0, done, a, c) ==>
          Get(hh, c) == Some(HeaderRow(a, OldHeader(u[a].header.nonce, t0.latestHeaders[a]))))
    && (forall c :: (forall a :: !Archives(t0, done, a, c)) ==> Get(hh, c) == Get(t0.historicalHeaders, c))
  }

  lemma HeadersDetermined(hh: map<Commitment, HeaderRow>, hh': map<Commitment, HeaderRow>, t0: Tables, u: Updates,
                          done: set<AccountId>)
    requires HeadersAre(hh, t0, u, done) && HeadersAre(hh', t0, u, done)
    ensures hh == hh'
  {
    forall c ensures Get(hh, c) == Get(hh', c) {
      if a :| Archives(t0, done, a, c) {
        assert Get(hh, c) == Some(HeaderRow(a, OldHeader(u[a].header.nonce, t0.latestHeaders[a])));
      }
    }
    GetExtensional(hh, hh');
  }

  lemma HeadersPut(hh: map<Commitment, HeaderRow>, t0: Tables, u: Updates, done: set<AccountId>, a: AccountId)
    requires DistinctCurrent(t0, u) && HeadersAre(hh, t0, u, done) && a in u && a in t0.latestHeaders
    ensures var old_ := t0.latestHeaders[a];
            HeadersAre(hh[old_.accountCommitment := HeaderRow(a, OldHeader(u[a].header.nonce, old_))], t0, u,
                       done + {a})
  {
    var old_ := t0.latestHeaders[a];
    var hh' := hh[old_.accountCommitment := HeaderRow(a, OldHeader(u[a].header.nonce, old_))];
    forall b, c | Archives(t0, done + {a}, b, c)
      ensures Get(hh', c) == Some(HeaderRow(b, OldHeader(u[b].header.nonce, t0.latestHeaders[b])))
    {
      if b != a {
        assert b in done && Archives(t0, done, b, c);
        assert c != old_.accountCommitment;
      }
    }
    forall c | forall b :: !Archives(t0, done + {a}, b, c) ensures Get(hh', c) == Get(t0.historicalHeaders, c) {
      assert !Archives(t0, done + {a}, a, c);
      assert forall b :: Archives(t0, done, b, c) ==> Archives(t0, done + {a}, b, c);
    }
  }

  lemma HeadersSkip(hh: map<Commitment, HeaderRow>, t0: Tables, u: Updates, done: set<AccountId>, a: AccountId)
    requires HeadersAre(hh, t0, u, done) && a in u && a !in t0.latestHeaders
    ensures HeadersAre(hh, t0, u, done + {a})
  {
    assert forall b, c :: Archives(t0, done + {a}, b, c) <==> Archives(t0, done, b, c);
  }

  /** Putting back an account's own headers changes nothing; adding one is a put. */
  lemma OwnHeadersPut(hh: map<Commitment, HeaderRow>, a: AccountId, c: Commitment, old_: OldHeader)
    ensures WithOwnHeaders(hh, a, OwnHeaders(hh, a)) == hh
    ensures WithOwnHeaders(hh, a, OwnHeaders(hh, a)[c := old_]) == hh[c := HeaderRow(a, old_)]
  {
  }

  predicate HeaderDone(k: Task) { k.head.Superseded? || k.head.Written? }

  function DoneIn(w: World): set<AccountId> {
    set a | a in w.tasks && HeaderDone(w.tasks[a])
  }

  lemma DoneStep(w: World, u: Updates, q: Request)
    requires CanRun(w, u, q)
    ensures DoneIn(Run(w, u, q)) == DoneIn(w) + if HeaderDone(Run(w, u, q).tasks[q.account]) then {q.account} else {}
  {
    hide RowsOf, WithRows, RowStep;
    var w' := Run(w, u, q);
    assert forall b :: b != q.account ==>
             (b in w'.tasks <==> b in w.tasks) && (b in w.tasks ==> w'.tasks[b] == w.tasks[b]);
    assert HeaderDone(w.tasks[q.account]) ==> HeaderDone(w'.tasks[q.account]);
  }

  /** Only archiving the old header touches the historical headers. */
  lemma HeadersAfterStep(w: World, u: Updates, q: Request)
    requires CanRun(w, u, q)
    ensures var k, hh, hh' := w.tasks[q.account], w.tables.historicalHeaders, Run(w, u, q).tables.historicalHeaders;
            if q.move.OnHeader? && k.head.Read? && k.head.found.Some? then
              var old_ := k.head.found.value;
              hh' == hh[old_.accountCommitment := HeaderRow(q.account, OldHeader(u[q.account].header.nonce, old_))]
            else hh' == hh
    ensures var k, k' := w.tasks[q.account], Run(w, u, q).tasks[q.account];
            HeaderDone(k') <==> HeaderDone(k) || (q.move.OnHeader? && k.head.Read?)
  {
    hide Slice, WithSlice, WithOwnHeaders, OwnHeaders, RowStep;
    var k, hh := w.tasks[q.account], w.tables.historicalHeaders;
    if q.move.OnHeader? && k.head.Read? && k.head.found.Some? {
      OwnHeadersPut(hh, q.account, k.head.found.value.accountCommitment,
                    OldHeader(u[q.account].header.nonce, k.head.found.value));
    } else {
      OwnHeadersPut(hh, q.account, "", OldHeader(0, u[q.account].header));
    }
  }

  lemma FoundIsOld(w: World, t0: Tables, u: Updates, a: AccountId)
    requires WorldInv(w, t0, u) && a in u && a in w.tasks && w.tasks[a].head.Read?
    ensures w.tasks[a].head.found == Get(t0.latestHeaders, a)
  {
    hide Progress, Slice;
    assert AccountKept(w, t0, u, a);
  }

  lemma HeadersStep(w: World, t0: Tables, u: Updates, q: Request)
    requires DistinctCurrent(t0, u) && WorldInv(w, t0, u) && CanRun(w, u, q)
    requires HeadersAre(w.tables.historicalHeaders, t0, u, DoneIn(w))
    ensures HeadersAre(Run(w, u, q).tables.historicalHeaders, t0, u, DoneIn(Run(w, u, q)))
  {
    hide WorldInv, HeadersAre, DistinctCurrent, DoneIn, Run, RowsOf, TaskEnabled;
    DoneStep(w, u, q);
    HeadersAfterStep(w, u, q);
    var a, hh := q.account, w.tables.historicalHeaders;
    var k := w.tasks[a];
    if q.move.OnHeader? && k.head.Read? {
      FoundIsOld(w, t0, u, a);
      if a in t0.latestHeaders {
        HeadersPut(hh, t0, u, DoneIn(w), a);
      } else {
        HeadersSkip(hh, t0, u, DoneIn(w), a);
      }
    } else if HeaderDone(k) {
      AlreadyDone(w, a);
    } else {
      assert DoneIn(w) + {} == DoneIn(w);
    }
  }

  lemma AlreadyDone(w: World, a: AccountId)
    requires a in w.tasks && HeaderDone(w.tasks[a])
    ensures DoneIn(w) + {a} == DoneIn(w)
  {
  }

  lemma {:induction false} HeadersRun(w: World, t0: Tables, u: Updates, qs: seq<Request>)
    requires DistinctCurrent(t0, u) && WorldInv(w, t0, u) && AllowedRun(w, u, qs)
    requires HeadersAre(w.tables.historicalHeaders, t0, u, DoneIn(w))
    ensures HeadersAre(RunAll(w, u, qs).tables.historicalHeaders, t0, u, DoneIn(RunAll(w, u, qs)))
    decreases |qs|
  {
    hide WorldInv, HeadersAre, DistinctCurrent, DoneIn, Run, CanRun;
    if qs != [] {
      RunKeeps(w, t0, u, qs[0]);
      HeadersStep(w, t0, u, qs[0]);
      HeadersRun(Run(w, u, qs[0]), t0, u, qs[1..]);
    }
  }

  lemma LaunchHeaders(t: Tables, u: Updates)
    ensures HeadersAre(t.historicalHeaders, t, u, DoneIn(Launch(t, u)))
  {
    assert DoneIn(Launch(t, u)) == {};
  }

  // ---------------------------------------------------------------- the updates one after the other

  /** What the rows of each account are once everything is written. */
  function Outcome(t0: Tables, u: Updates, a: AccountId): Rows {
    if a in u then WriteFull(RowsOf(t0, a), u[a]) else RowsOf(t0, a)
  }

  lemma CompletedBody(w: World, t0: Tables, u: Updates, a: AccountId)
    requires WorldInv(w, t0, u) && Completed(w)
    ensures Body(RowsOf(w.tables, a)) == Body(Outcome(t0, u, a))
  {
    hide RowsOf, OnItsWay, WriteFull, Body;
    assert AccountKept(w, t0, u, a);
    if a in u {
      WrittenIsFull(w.tasks[a], RowsOf(t0, a), RowsOf(w.tables, a), u[a]);
    }
  }

  lemma CompletedDone(w: World, t0: Tables, u: Updates)
    requires WorldInv(w, t0, u) && Completed(w)
    ensures DoneIn(w) == u.Keys
  {
    hide OnItsWay, RowsOf;
    forall a ensures a in DoneIn(w) <==> a in u {
      assert AccountKept(w, t0, u, a);
    }
  }

  function InOrder(t: Tables, u: Updates, order: seq<AccountId>): Tables {
    if order == [] then t
    else
      var front, a := InOrder(t, u, order[..|order| - 1]), order[|order| - 1];
      if a in u then ApplyFull(front, a, u[a]) else front
  }

  predicate Repeats(order: seq<AccountId>) {
    exists i, j :: 0 <= i < j < |order| && order[i] == order[j]
  }

  /** The order names updated accounts, each once. */
  predicate OrderOf(order: seq<AccountId>, u: Updates) {
    !Repeats(order) && forall i :: 0 <= i < |order| ==> order[i] in u
  }

  ghost predicate OrderDone(t: Tables, t0: Tables, u: Updates, done: set<AccountId>) {
    && t.codes == t0.codes && t.foreignCodes == t0.foreignCodes
    && (forall a :: Body(RowsOf(t, a)) == Body(if a in done then Outcome(t0, u, a) else RowsOf(t0, a)))
  }

  lemma OrderFront(order: seq<AccountId>, u: Updates)
    requires OrderOf(order, u) && order != []
    ensures var front, a := order[..|order| - 1], order[|order| - 1];
            OrderOf(front, u) && a !in front && a in u && Elements(order) == Elements(front) + {a}
  {
    var front, a := order[..|order| - 1], order[|order| - 1];
    assert forall i :: 0 <= i < |front| ==> front[i] == order[i];
    assert order == front + [a];
  }

  /** A full state writes the same body whatever the superseded headers are. */
  lemma FullBody(r: Rows, r': Rows, s: Snapshot)
    requires Body(r) == Body(r')
    ensures Body(WriteFull(r, s)) == Body(WriteFull(r', s)) && r.header == r'.header
  {
    hide FullHistory;
    assert r.contents == Body(r).contents && r.history == Body(r).history && r.header == Body(r).header;
    assert r'.contents == Body(r').contents && r'.history == Body(r').history && r'.header == Body(r').header;
  }

  lemma InOrderStep(t: Tables, t0: Tables, u: Updates, done: set<AccountId>, a: AccountId)
    requires OrderDone(t, t0, u, done) && a !in done && a in u
    ensures OrderDone(ApplyFull(t, a, u[a]), t0, u, done + {a})
  {
    hide RowsOf, WriteFull, Body;
    FullBody(RowsOf(t, a), RowsOf(t0, a), u[a]);
    forall b
      ensures Body(RowsOf(ApplyFull(t, a, u[a]), b)) == Body(if b in done + {a} then Outcome(t0, u, b)
              else RowsOf(t0, b))
    {
      BodyOfWith(t, a, WriteFull(RowsOf(t, a), u[a]), b);
    }
  }

  lemma FullHeaders(t: Tables, a: AccountId, s: Snapshot)
    ensures ApplyFull(t, a, s).historicalHeaders
            == if a in t.latestHeaders
               then t.historicalHeaders[t.latestHeaders[a].accountCommitment
                                        := HeaderRow(a, OldHeader(s.header.nonce, t.latestHeaders[a]))]
               else t.historicalHeaders
    ensures ApplyFull(t, a, s).latestHeaders == t.latestHeaders[a := s.header]
  {
    hide Slice, WithSlice, FullHistory, WithOwnHeaders, OwnHeaders;
    if a in t.latestHeaders {
      OwnHeadersPut(t.historicalHeaders, a, t.latestHeaders[a].accountCommitment,
                    OldHeader(s.header.nonce, t.latestHeaders[a]));
    } else {
      OwnHeadersPut(t.historicalHeaders, a, "", OldHeader(0, s.header));
    }
  }

  lemma {:induction false} InOrderDone(t0: Tables, u: Updates, order: seq<AccountId>)
    requires OrderOf(order, u)
    ensures OrderDone(InOrder(t0, u, order), t0, u, Elements(order))
  {
    hide RowsOf, Body, ApplyFull, OrderOf, Outcome;
    if order != [] {
      OrderFront(order, u);
      InOrderDone(t0, u, order[..|order| - 1]);
      InOrderStep(InOrder(t0, u, order[..|order| - 1]), t0, u, Elements(order[..|order| - 1]), order[|order| - 1]);
    }
  }

  /** Accounts that have not had their turn keep their current header. */
  lemma {:induction false} InOrderLatest(t0: Tables, u: Updates, order: seq<AccountId>, a: AccountId)
    requires a !in order
    ensures Get(InOrder(t0, u, order).latestHeaders, a) == Get(t0.latestHeaders, a)
  {
    hide ApplyFull;
    if order != [] {
      var front, b := order[..|order| - 1], order[|order| - 1];
      InOrderLatest(t0, u, front, a);
      if b in u {
        FullHeaders(InOrder(t0, u, front), b, u[b]);
      }
    }
  }

  lemma {:induction false} InOrderHeaders(t0: Tables, u: Updates, order: seq<AccountId>)
    requires DistinctCurrent(t0, u) && OrderOf(order, u)
    ensures HeadersAre(InOrder(t0, u, order).historicalHeaders, t0, u, Elements(order))
  {
    hide DistinctCurrent, HeadersAre, ApplyFull, OrderOf;
    if order == [] {
      NothingArchived(t0, u);
    } else {
      var front, a := order[..|order| - 1], order[|order| - 1];
      OrderFront(order, u);
      InOrderHeaders(t0, u, front);
      InOrderLatest(t0, u, front, a);
      var t := InOrder(t0, u, front);
      FullHeaders(t, a, u[a]);
      assert a in t.latestHeaders <==> a in t0.latestHeaders;
      if a in t0.latestHeaders {
        HeadersPut(t.historicalHeaders, t0, u, Elements(front), a);
      } else {
        HeadersSkip(t.historicalHeaders, t0, u, Elements(front), a);
      }
    }
  }

  lemma NothingArchived(t0: Tables, u: Updates)
    ensures HeadersAre(t0.historicalHeaders, t0, u, Elements<AccountId>([]))
  {
  }

  // ---------------------------------------------------------------- the result does not depend on the run

  lemma BodiesDetermine(t: Tables, t': Tables)
    requires (forall a :: Body(RowsOf(t, a)) == Body(RowsOf(t', a))) && t.historicalHeaders == t'.historicalHeaders
    requires t.codes == t'.codes && t.foreignCodes == t'.foreignCodes
    ensures t == t'
  {
    hide Slice, OwnHeaders;
    forall a ensures RowsOf(t, a) == RowsOf(t', a) {
      assert Body(RowsOf(t, a)) == Body(RowsOf(t', a));
      assert RowsOf(t, a) == Body(RowsOf(t, a)).(archived := OwnHeaders(t.historicalHeaders, a));
      assert RowsOf(t', a) == Body(RowsOf(t', a)).(archived := OwnHeaders(t'.historicalHeaders, a));
    }
    RowsDetermine(t, t');
  }

  /** A complete interleaving of the updates. */
  ghost predicate CompleteRun(t0: Tables, u: Updates, qs: seq<Request>) {
    AllowedRun(Launch(t0, u), u, qs) && Completed(RunAll(Launch(t0, u), u, qs))
  }

  /**
   * If no two updated accounts share a current commitment, every complete interleaving of the updates leaves the
   * tables that applying them one after the other leaves, in whatever order.
   */
  lemma InterleavingsAgree(t0: Tables, u: Updates, qs: seq<Request>, order: seq<AccountId>)
    requires DistinctCurrent(t0, u) && CompleteRun(t0, u, qs)
    requires OrderOf(order, u) && Elements(order) == u.Keys
    ensures RunAll(Launch(t0, u), u, qs).tables == InOrder(t0, u, order)
  {
    hide RowsOf, AccountKept, Completed, Run, CanRun, Launch, Body, DistinctCurrent, HeadersAre, OrderOf, InOrder;
    LaunchInv(t0, u);
    LaunchHeaders(t0, u);
    LaunchTables(t0, u);
    RunAllKeeps(Launch(t0, u), t0, u, qs);
    HeadersRun(Launch(t0, u), t0, u, qs);
    InOrderDone(t0, u, order);
    InOrderHeaders(t0, u, order);
    var w, t := RunAll(Launch(t0, u), u, qs), InOrder(t0, u, order);
    CompletedDone(w, t0, u);
    HeadersDetermined(w.tables.historicalHeaders, t.historicalHeaders, t0, u, u.Keys);
    forall a ensures Body(RowsOf(w.tables, a)) == Body(RowsOf(t, a)) {
      CompletedBody(w, t0, u, a);
    }
    BodiesDetermine(w.tables, t);
  }

  lemma LaunchTables(t: Tables, u: Updates)
    ensures Launch(t, u).tables == t
  {
  }

  /** A run can go on until every account is written: no update waits for another. */
  lemma FanOutNotStuck(t0: Tables, u: Updates, qs: seq<Request>)
    requires AllowedRun(Launch(t0, u), u, qs)
    ensures var w := RunAll(Launch(t0, u), u, qs);
            Completed(w) <==> forall q :: !CanRun(w, u, q)
  {
    hide RowsOf, OnItsWay, Run, TaskEnabled, Launch;
    LaunchInv(t0, u);
    RunAllKeeps(Launch(t0, u), t0, u, qs);
    var w := RunAll(Launch(t0, u), u, qs);
    forall a | a in w.tasks
      ensures w.tasks[a].head.Written? <==> forall m :: !CanRun(w, u, Request(a, m))
    {
      assert AccountKept(w, t0, u, a);
      TaskNotStuck(w.tasks[a], RowsOf(t0, a), RowsOf(w.tables, a), u[a]);
      assert forall m :: CanRun(w, u, Request(a, m)) <==> TaskEnabled(w.tasks[a], m);
    }
  }
}
