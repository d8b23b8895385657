/**
 * The browser store's account tables stand for one stack of snapshots per account: the relation between the two,
 * and what a write, a lock and a prune do to it.
 */
module StoreRefinement {
  import opened Common
  import opened VersionedRows
  import opened AccountRows
  import opened AccountTables
  import opened AccountStack

  type Stacks = map<AccountId, Stack>

  function StackOf(g: Stacks, a: AccountId): Stack {
    if a in g then g[a] else []
  }

  function SetStack(g: Stacks, a: AccountId, stack: Stack): Stacks {
    if stack == [] then g - {a} else g[a := stack]
  }

  /** The commitments of the states an account retains. */
  function Commitments(r: Rows): set<Commitment> {
    r.archived.Keys + if r.header.Some? then {r.header.value.accountCommitment} else {}
  }

  ghost predicate SelfConsistent(r: Rows) {
    && (forall c :: c in r.archived ==> r.archived[c].header.accountCommitment == c)
    && (r.header.Some? ==> r.header.value.accountCommitment !in r.archived)
  }

  /** Commitments identify states: no two retained states share one. */
  ghost predicate Injective(t: Tables) {
    && (forall a :: SelfConsistent(RowsOf(t, a)))
    && (forall a, b :: a != b ==> Commitments(RowsOf(t, a)) !! Commitments(RowsOf(t, b)))
  }

  /** The tables represent the stacks `g`. */
  ghost predicate Represents(t: Tables, g: Stacks) {
    && Injective(t)
    && (forall a :: a in g ==> g[a] != [])
    && (forall a :: Tracked(RowsOf(t, a), StackOf(g, a)))
  }

  /** No retained state has this commitment. */
  ghost predicate Fresh(t: Tables, c: Commitment) {
    forall a :: c !in Commitments(RowsOf(t, a))
  }

  /** The tables determine the stacks. */
  lemma RepresentsUnique(t: Tables, g: Stacks, g': Stacks)
    requires Represents(t, g) && Represents(t, g')
    ensures g == g'
  {
    hide Tracked, RowsOf, Injective;
    forall a ensures StackOf(g, a) == StackOf(g', a) {
      TrackedUnique(RowsOf(t, a), StackOf(g, a), StackOf(g', a));
    }
    forall a ensures Get(g, a) == Get(g', a) {
      assert StackOf(g, a) == StackOf(g', a);
    }
    GetExtensional(g, g');
  }

  /** Historical rows exist only at nonces that have a historical header of the same account. */
  lemma HistoryHasHeaders(t: Tables, g: Stacks, a: AccountId, n: nat)
    requires Represents(t, g) && n in HistoryNonces(RowsOf(t, a).history)
    ensures exists c :: c in t.historicalHeaders && t.historicalHeaders[c].id == a
                        && t.historicalHeaders[c].old_.replacedAtNonce == n
  {
    hide HistoryNonces, Injective;
    var r, stack := RowsOf(t, a), StackOf(g, a);
    assert Tracked(r, stack);
    var i :| 1 <= i < |stack| && stack[i].header.nonce == n;
    assert StepAt(r, stack, i - 1);
    assert stack[i - 1].header.accountCommitment in r.archived;
  }

  // ---------------------------------------------------------------- one account changes

  /** One account may take new rows and a new stack as long as its commitments stay its own. */
  lemma OneAccountStep(t: Tables, g: Stacks, a: AccountId, r: Rows, stack: Stack)
    requires Represents(t, g) && Tracked(r, stack) && SelfConsistent(r)
    requires forall b :: b != a ==> Commitments(r) !! Commitments(RowsOf(t, b))
    ensures Represents(WithRows(t, a, r), SetStack(g, a, stack))
  {
    OwnFits(t, a, r);
    var t', g' := WithRows(t, a, r), SetStack(g, a, stack);
    OnlyRowsChange(t, a, r);
    StackStep(t, t', g, a, r, stack);
  }

  lemma OwnFits(t: Tables, a: AccountId, r: Rows)
    requires forall b :: b != a ==> Commitments(r) !! Commitments(RowsOf(t, b))
    ensures Fits(t, a, r)
  {
    forall c | c in r.archived && c in t.historicalHeaders ensures t.historicalHeaders[c].id == a {
      var b := t.historicalHeaders[c].id;
      assert c in RowsOf(t, b).archived;
      assert c in Commitments(RowsOf(t, b)) && c in Commitments(r);
    }
  }

  lemma OnlyRowsChange(t: Tables, a: AccountId, r: Rows)
    requires Fits(t, a, r)
    ensures forall b :: RowsOf(WithRows(t, a, r), b) == if b == a then r else RowsOf(t, b)
  {
    forall b ensures RowsOf(WithRows(t, a, r), b) == if b == a then r else RowsOf(t, b) {
      RowsOfWith(t, a, r, b);
    }
  }

  lemma StackStep(t: Tables, t': Tables, g: Stacks, a: AccountId, r: Rows, stack: Stack)
    requires Represents(t, g) && Tracked(r, stack) && SelfConsistent(r)
    requires forall b :: b != a ==> Commitments(r) !! Commitments(RowsOf(t, b))
    requires forall b :: RowsOf(t', b) == if b == a then r else RowsOf(t, b)
    ensures Represents(t', SetStack(g, a, stack))
  {
    hide RowsOf, Tracked, Commitments, SelfConsistent;
    var g' := SetStack(g, a, stack);
    assert Injective(t') by {
      forall b, b' | b != b' ensures Commitments(RowsOf(t', b)) !! Commitments(RowsOf(t', b')) {
        assert RowsOf(t', b) == if b == a then r else RowsOf(t, b);
        assert RowsOf(t', b') == if b' == a then r else RowsOf(t, b');
      }
      forall b ensures SelfConsistent(RowsOf(t', b)) {
        assert RowsOf(t', b) == if b == a then r else RowsOf(t, b);
      }
    }
    forall b ensures Tracked(RowsOf(t', b), StackOf(g', b)) {
      assert RowsOf(t', b) == if b == a then r else RowsOf(t, b);
      assert Tracked(RowsOf(t, b), StackOf(g, b));
    }
  }

  /** Tables that differ only outside the account rows represent the same stacks. */
  lemma SameRowsRepresent(t: Tables, t': Tables, g: Stacks)
    requires Represents(t, g) && forall b :: RowsOf(t', b) == RowsOf(t, b)
    ensures Represents(t', g)
  {
    hide RowsOf, Tracked, Commitments, SelfConsistent;
    forall b, b' | b != b' ensures Commitments(RowsOf(t', b)) !! Commitments(RowsOf(t', b')) {
      assert RowsOf(t', b) == RowsOf(t, b) && RowsOf(t', b') == RowsOf(t, b');
    }
    forall b ensures SelfConsistent(RowsOf(t', b)) && Tracked(RowsOf(t', b), StackOf(g, b)) {
      assert RowsOf(t', b) == RowsOf(t, b);
      assert Tracked(RowsOf(t, b), StackOf(g, b)) && SelfConsistent(RowsOf(t, b));
    }
  }

  // ---------------------------------------------------------------- writes

  lemma SupersededFits(t: Tables, a: AccountId, r: Rows, n: nat)
    requires Injective(t) && r.archived == Supersede(RowsOf(t, a), n)
    ensures Fits(t, a, r)
  {
    forall c | c in r.archived && c in t.historicalHeaders ensures t.historicalHeaders[c].id == a {
      var b := t.historicalHeaders[c].id;
      assert c in RowsOf(t, b).archived;
      assert c in Commitments(RowsOf(t, b)) && c in Commitments(RowsOf(t, a));
    }
  }

  /** A write that pushes on the rows of its account pushes on the store exactly when its commitment is new. */
  lemma WritePushesIff(t: Tables, g: Stacks, a: AccountId, r: Rows, s: Snapshot)
    requires Represents(t, g) && a in g
    requires r.header == Some(s.header) && r.archived == Supersede(RowsOf(t, a), s.header.nonce)
    ensures Represents(WithRows(t, a, r), g[a := g[a] + [s]])
       <==> Tracked(r, g[a] + [s]) && Fresh(t, s.header.accountCommitment)
  {
    hide RowsOf, WithRows, Tracked;
    var t', g', c := WithRows(t, a, r), g[a := g[a] + [s]], s.header.accountCommitment;
    assert SetStack(g, a, g[a] + [s]) == g';
    assert Tracked(RowsOf(t, a), StackOf(g, a));
    SupersededFits(t, a, r, s.header.nonce);
    OnlyRowsChange(t, a, r);
    if Represents(t', g') {
      assert RowsOf(t', a) == r && SelfConsistent(RowsOf(t', a));
      assert Tracked(RowsOf(t', a), StackOf(g', a));
      forall b ensures c !in Commitments(RowsOf(t, b)) {
        if b != a {
          assert RowsOf(t', b) == RowsOf(t, b);
          assert Commitments(RowsOf(t', a)) !! Commitments(RowsOf(t', b));
        }
      }
    }
    if Tracked(r, g[a] + [s]) && Fresh(t, c) {
      FreshWrite(t, a, r, s);
      StackStep(t, t', g, a, r, g[a] + [s]);
    }
  }

  lemma FreshWrite(t: Tables, a: AccountId, r: Rows, s: Snapshot)
    requires Injective(t) && Fresh(t, s.header.accountCommitment)
    requires r.header == Some(s.header) && r.archived == Supersede(RowsOf(t, a), s.header.nonce)
    ensures SelfConsistent(r)
    ensures forall b :: b != a ==> Commitments(r) !! Commitments(RowsOf(t, b))
  {
    hide RowsOf;
    assert Commitments(r) == Commitments(RowsOf(t, a)) + {s.header.accountCommitment};
    assert SelfConsistent(RowsOf(t, a));
    assert s.header.accountCommitment !in Commitments(RowsOf(t, a));
    forall b | b != a ensures Commitments(r) !! Commitments(RowsOf(t, b)) {
      assert Commitments(RowsOf(t, a)) !! Commitments(RowsOf(t, b));
      assert s.header.accountCommitment !in Commitments(RowsOf(t, b));
    }
  }

  lemma TopNotArchived(t: Tables, g: Stacks, a: AccountId)
    requires Represents(t, g) && a in g
    ensures g[a] != [] && Tracked(RowsOf(t, a), g[a])
    ensures Top(g[a]).header.accountCommitment !in RowsOf(t, a).archived
  {
    hide RowsOf;
    assert Tracked(RowsOf(t, a), StackOf(g, a)) && SelfConsistent(RowsOf(t, a));
  }

  /**
   * A sparse delta is a push on the store exactly when its nonce is above the current one, its
   * commitment is new, and it keeps the type of every slot that already existed.
   */
  lemma ApplyDeltaPushesIff(t: Tables, g: Stacks, a: AccountId, d: Delta)
    requires Represents(t, g) && a in g
    ensures g[a] != []
    ensures Represents(ApplyDelta(t, a, d), g[a := g[a] + [DeltaState(Top(g[a]), d)]])
       <==> && Top(g[a]).header.nonce < d.header.nonce
            && KeepsTags(Top(g[a]).contents.slots, d.slots)
            && Fresh(t, d.header.accountCommitment)
  {
    hide RowsOf, WithRows, Tracked, Patch, KeepsTags, Injective;
    TopNotArchived(t, g, a);
    DeltaPushesIff(RowsOf(t, a), g[a], d);
    WritePushesIff(t, g, a, WriteDelta(RowsOf(t, a), d), DeltaState(Top(g[a]), d));
  }

  /**
   * A full replacement is a push on the store exactly when its nonce is above the current one and its commitment
   * is new.
   */
  lemma ApplyFullPushesIff(t: Tables, g: Stacks, a: AccountId, s: Snapshot)
    requires Represents(t, g) && a in g
    ensures g[a] != []
    ensures Represents(ApplyFull(t, a, s), g[a := g[a] + [s]])
       <==> Top(g[a]).header.nonce < s.header.nonce && Fresh(t, s.header.accountCommitment)
  {
    hide RowsOf, WithRows, Tracked, Injective;
    TopNotArchived(t, g, a);
    FullPushesIff(RowsOf(t, a), g[a], s);
    WritePushesIff(t, g, a, WriteFull(RowsOf(t, a), s), s);
  }

  /** And otherwise the tables it leaves are those of no stacks at all. */
  lemma ApplyFullKeepsStacksIff(t: Tables, g: Stacks, a: AccountId, s: Snapshot)
    requires Represents(t, g) && a in g
    ensures g[a] != []
    ensures (exists g' :: Represents(ApplyFull(t, a, s), g'))
       <==> Top(g[a]).header.nonce < s.header.nonce && Fresh(t, s.header.accountCommitment)
  {
    hide Represents, ApplyFull, Fresh, RowsOf, Tracked;
    TopNotArchived(t, g, a);
    ApplyFullPushesIff(t, g, a, s);
    forall g' | Represents(ApplyFull(t, a, s), g')
      ensures Top(g[a]).header.nonce < s.header.nonce && Fresh(t, s.header.accountCommitment)
    {
      FullWasFresh(t, g, a, s, g');
    }
  }

  lemma FullWasFresh(t: Tables, g: Stacks, a: AccountId, s: Snapshot, g': Stacks)
    requires Represents(t, g) && a in g && g[a] != [] && Represents(ApplyFull(t, a, s), g')
    ensures Top(g[a]).header.nonce < s.header.nonce && Fresh(t, s.header.accountCommitment)
  {
    hide RowsOf, WithRows, Tracked, Injective, WriteFull, Fresh;
    var r := WriteFull(RowsOf(t, a), s);
    TopNotArchived(t, g, a);
    TrackedTop(RowsOf(t, a), g[a]);
    FullRow(RowsOf(t, a), s);
    WrittenFits(t, a, r, s);
    assert Tracked(RowsOf(ApplyFull(t, a, s), a), StackOf(g', a));
    SupersededBelow(RowsOf(t, a), r, StackOf(g', a), s.header.nonce);
  }

  lemma TrackedTop(r: Rows, stack: Stack)
    requires Tracked(r, stack) && stack != []
    ensures r.header == Some(Top(stack).header)
  {
  }

  lemma FullRow(r: Rows, s: Snapshot)
    ensures WriteFull(r, s).header == Some(s.header) && WriteFull(r, s).archived == Supersede(r, s.header.nonce)
  {
  }

  /** A write that leaves commitments injective leaves the account its rows, and had a new commitment. */
  lemma WrittenFits(t: Tables, a: AccountId, r: Rows, s: Snapshot)
    requires Injective(t) && Injective(WithRows(t, a, r)) && RowsOf(t, a).header.Some?
    requires r.header == Some(s.header) && r.archived == Supersede(RowsOf(t, a), s.header.nonce)
    ensures RowsOf(WithRows(t, a, r), a) == r && Fresh(t, s.header.accountCommitment)
  {
    hide RowsOf, WithRows;
    var t', c := WithRows(t, a, r), s.header.accountCommitment;
    SupersededFits(t, a, r, s.header.nonce);
    OnlyRowsChange(t, a, r);
    assert RowsOf(t', a) == r && SelfConsistent(RowsOf(t', a));
    forall b ensures c !in Commitments(RowsOf(t, b)) {
      if b != a {
        assert RowsOf(t', b) == RowsOf(t, b);
        assert Commitments(RowsOf(t', a)) !! Commitments(RowsOf(t', b));
      }
    }
  }

  /** Inserting an absent account with a new commitment starts its stack. */
  lemma InsertStarts(t: Tables, g: Stacks, a: AccountId, s: Snapshot, code: string)
    requires Represents(t, g) && a !in g && Fresh(t, s.header.accountCommitment)
    ensures Represents(Insert(t, a, s, code), g[a := [s]])
  {
    hide WithRows, Tracked, RowsOf, Represents;
    StartsRows(t, g, a, s);
    OneAccountStep(t, g, a, WriteNew(RowsOf(t, a), s), [s]);
    CodesAside(WithRows(t, a, WriteNew(RowsOf(t, a), s)), Insert(t, a, s, code).codes);
    SameRowsRepresent(WithRows(t, a, WriteNew(RowsOf(t, a), s)), Insert(t, a, s, code), g[a := [s]]);
  }

  lemma StartsRows(t: Tables, g: Stacks, a: AccountId, s: Snapshot)
    requires Represents(t, g) && a !in g && Fresh(t, s.header.accountCommitment)
    ensures Tracked(WriteNew(RowsOf(t, a), s), [s])
    ensures SelfConsistent(WriteNew(RowsOf(t, a), s))
    ensures forall b :: b != a ==> Commitments(WriteNew(RowsOf(t, a), s)) !! Commitments(RowsOf(t, b))
  {
    hide Tracked, RowsOf;
    assert Tracked(RowsOf(t, a), StackOf(g, a));
    NewStarts(RowsOf(t, a), s);
    NoHeader(RowsOf(t, a));
    FreshWrite(t, a, WriteNew(RowsOf(t, a), s), s);
  }

  lemma CodesAside(t: Tables, codes: map<CodeRoot, string>)
    ensures forall b :: RowsOf(t.(codes := codes), b) == RowsOf(t, b)
  {
  }

  lemma NoHeader(r: Rows)
    requires Tracked(r, [])
    ensures r.header == None
  {
  }

  // ---------------------------------------------------------------- lock and prune

  lemma LockMarksStore(t: Tables, g: Stacks, a: AccountId)
    requires Represents(t, g)
    ensures Represents(Lock(t, a), SetStack(g, a, LockStack(StackOf(g, a))))
  {
    hide WithRows, Tracked, RowsOf;
    var r := RowsOf(t, a);
    LockMarksAll(r, StackOf(g, a));
    LockOwn(r);
    assert SelfConsistent(r);
    OneAccountStep(t, g, a, LockRows(r), LockStack(StackOf(g, a)));
  }

  lemma LockOwn(r: Rows)
    ensures Commitments(LockRows(r)) == Commitments(r)
    ensures SelfConsistent(r) ==> SelfConsistent(LockRows(r))
  {
  }

  /**
   * An unexpected digest locks the account exactly when it is not the commitment of one of its
   * retained superseded states.
   */
  lemma UnexpectedLocksIff(t: Tables, g: Stacks, a: AccountId, digest: Commitment)
    requires Represents(t, g)
    ensures LockOnUnexpected(t, a, digest) == if Superseded(StackOf(g, a), digest) then t else Lock(t, a)
  {
    hide Lock, Superseded, Represents;
    ArchivedIffSuperseded(t, g, a, digest);
  }

  lemma ArchivedIffSuperseded(t: Tables, g: Stacks, a: AccountId, c: Commitment)
    requires Represents(t, g)
    ensures c in t.historicalHeaders && t.historicalHeaders[c].id == a <==> Superseded(StackOf(g, a), c)
  {
    hide Tracked, Superseded, Injective;
    assert Tracked(RowsOf(t, a), StackOf(g, a));
    ArchivedAreSuperseded(RowsOf(t, a), StackOf(g, a), c);
  }

  lemma PruneOwn(r: Rows, upTo: nat)
    ensures Commitments(PruneRows(r, upTo)) <= Commitments(r)
    ensures SelfConsistent(r) ==> SelfConsistent(PruneRows(r, upTo))
  {
    hide Forget;
  }

  /** Pruning drops the bottom of one account's stack; collecting code changes no stack. */
  lemma PruneDropsStore(t: Tables, g: Stacks, a: AccountId, upTo: nat)
    requires Represents(t, g)
    ensures Represents(Prune(t, a, upTo), SetStack(g, a, DropOld(StackOf(g, a), upTo)))
  {
    hide WithRows, Tracked, CollectedRoots, DropOld, PruneRows;
    var r := RowsOf(t, a);
    PruneDropsBottom(r, StackOf(g, a), upTo);
    PruneOwn(r, upTo);
    assert SelfConsistent(r);
    OneAccountStep(t, g, a, PruneRows(r, upTo), DropOld(StackOf(g, a), upTo));
    CodesAside(PruneAccount(t, a, upTo), Prune(t, a, upTo).codes);
    SameRowsRepresent(PruneAccount(t, a, upTo), Prune(t, a, upTo), SetStack(g, a, DropOld(StackOf(g, a), upTo)));
  }
}
