/**
 * The code table under prune and undo: the one table on which the two do not always commute, and exactly
 * when they do (crates/idxdb-store/src/js/accounts.js).
 */
module StoreCodes {
  import opened Common
  import opened AccountRows
  import opened AccountTables
  import opened AccountStack
  import opened StoreRefinement
  import opened StoreLaws
  import opened StoreRuns

  // ---------------------------------------------------------------- which states keep a header

  /**
   * State `i` still has a header row after the states `cs` are undone: it is current and nothing is undone, or
   * the state that replaced it is not undone, or it is the one the undo goes back to.
   */
  predicate Left(stack: Stack, cs: set<Commitment>, i: nat)
    requires i < |stack|
  {
    if i == |stack| - 1 then FirstDiscarded(stack, cs) == |stack|
    else stack[i + 1].header.accountCommitment !in cs || i + 1 == FirstDiscarded(stack, cs)
  }

  /** Where an undo pops a stack, the states with a header left are those that were not discarded. */
  lemma LeftIffKept(stack: Stack, cs: set<Commitment>, i: nat)
    requires SuffixClosed(stack, cs) && i < |stack|
    ensures Left(stack, cs, i) <==> stack[i].header.accountCommitment !in cs
  {
    var j := FirstDiscarded(stack, cs);
    if j <= i {
      assert j == i || stack[i].header.accountCommitment in cs;
    }
  }

  predicate Carried(stack: Stack, root: CodeRoot) {
    exists i :: 0 <= i < |stack| && stack[i].header.codeRoot == root
  }

  predicate CarriedAfter(stack: Stack, cs: set<Commitment>, root: CodeRoot) {
    exists i: nat :: i < |stack| && Left(stack, cs, i) && stack[i].header.codeRoot == root
  }

  lemma NothingDiscardedIff(stack: Stack, cs: set<Commitment>)
    ensures FirstDiscarded(stack, cs) == |stack| <==> DiscardedNonces(stack, cs) == {}
  {
    var j := FirstDiscarded(stack, cs);
    if j < |stack| {
      assert stack[j].header.nonce in DiscardedNonces(stack, cs);
    }
  }

  lemma StackCarries(r: Rows, stack: Stack, root: CodeRoot)
    requires Tracked(r, stack)
    ensures root in RowRoots(r) <==> Carried(stack, root)
  {
    hide Restore, HistoryNonces;
    if i :| 0 <= i < |stack| && stack[i].header.codeRoot == root {
      if i < |stack| - 1 {
        assert StepAt(r, stack, i);
        assert stack[i].header.accountCommitment in r.archived;
      }
    }
    if root in RowRoots(r) && !(stack != [] && Top(stack).header.codeRoot == root) {
      var c :| c in r.archived && r.archived[c].header.codeRoot == root;
      var i := ArchivedStep(r, stack, c);
      assert stack[i].header.codeRoot == root;
    }
  }

  /** What an undo leaves of an account's headers, by the roots they carry. */
  lemma UndoCarries(r: Rows, stack: Stack, cs: set<Commitment>, root: CodeRoot)
    requires Tracked(r, stack)
    ensures var ns := DiscardedNonces(stack, cs);
            root in RowRoots(if ns == {} then r else UndoRows(r, ns)) <==> CarriedAfter(stack, cs, root)
  {
    hide Tracked, UndoRows, DiscardedNonces, FirstDiscarded, RowRoots;
    var ns := DiscardedNonces(stack, cs);
    NothingDiscardedIff(stack, cs);
    if ns == {} {
      StackCarries(r, stack, root);
      AllLeft(stack, cs);
    } else {
      if root in RowRoots(UndoRows(r, ns)) {
        UndoneCarried(r, stack, cs, root);
      }
      if i: nat :| i < |stack| && Left(stack, cs, i) && stack[i].header.codeRoot == root {
        LeftHasHeader(r, stack, cs, i);
      }
    }
  }

  lemma AllLeft(stack: Stack, cs: set<Commitment>)
    requires FirstDiscarded(stack, cs) == |stack|
    ensures forall i: nat :: i < |stack| ==> Left(stack, cs, i)
  {
  }

  lemma LeftHasHeader(r: Rows, stack: Stack, cs: set<Commitment>, i: nat)
    requires Tracked(r, stack) && DiscardedNonces(stack, cs) != {} && i < |stack| && Left(stack, cs, i)
    ensures stack[i].header.codeRoot in RowRoots(UndoRows(r, DiscardedNonces(stack, cs)))
  {
    hide Restore, HistoryNonces, UndoContents, Forget, FirstDiscarded, DiscardedNonces;
    var ns, j := DiscardedNonces(stack, cs), FirstDiscarded(stack, cs);
    NothingDiscardedIff(stack, cs);
    LowestDiscarded(r, stack, cs);
    assert i < |stack| - 1;
    assert StepAt(r, stack, i);
    var c := stack[i].header.accountCommitment;
    if i + 1 == j {
      PreviousIs(r, stack, j);
    } else {
      KeptNonce(r, stack, cs, i + 1);
      assert c in UndoRows(r, ns).archived;
    }
  }

  lemma UndoneCarried(r: Rows, stack: Stack, cs: set<Commitment>, root: CodeRoot)
    requires Tracked(r, stack) && DiscardedNonces(stack, cs) != {}
    requires root in RowRoots(UndoRows(r, DiscardedNonces(stack, cs)))
    ensures CarriedAfter(stack, cs, root)
  {
    hide Restore, HistoryNonces, UndoContents, Forget, FirstDiscarded;
    var ns, j := DiscardedNonces(stack, cs), FirstDiscarded(stack, cs);
    var undone := UndoRows(r, ns);
    LowestDiscarded(r, stack, cs);
    PreviousIs(r, stack, j);
    if undone.header.Some? && undone.header.value.codeRoot == root {
      assert Left(stack, cs, j - 1);
    } else {
      var c :| c in undone.archived && undone.archived[c].header.codeRoot == root;
      var i := ArchivedStep(r, stack, c);
      assert StepAt(r, stack, i);
      assert stack[i + 1].header.nonce !in ns;
      assert Left(stack, cs, i);
    }
  }

  // ---------------------------------------------------------------- which roots are referenced

  lemma ReferencedIff(t: Tables, root: CodeRoot)
    ensures root in Referenced(t)
            <==> || (exists b :: root in RowRoots(RowsOf(t, b)))
                 || (exists b :: b in t.foreignCodes && t.foreignCodes[b] == root)
  {
    hide RowsOf, RowRoots;
    if root in Referenced(t) && !(exists b :: root in RowRoots(RowsOf(t, b)))
       && !(exists b :: b in t.foreignCodes && t.foreignCodes[b] == root) {
      var others := Referenced(t) - {root};
      forall b ensures RowRoots(RowsOf(t, b)) <= others {
        RootsReferenced(t, b);
      }
      ForeignReferenced(t);
      RootsCovered(t, others);
    }
    if b :| root in RowRoots(RowsOf(t, b)) {
      RootsReferenced(t, b);
    }
    if b :| b in t.foreignCodes && t.foreignCodes[b] == root {
      ForeignReferenced(t);
    }
  }

  /** The same rows refer to the same roots. */
  lemma SameReferenced(t: Tables, t': Tables)
    requires (forall b :: RowsOf(t, b) == RowsOf(t', b)) && t.foreignCodes == t'.foreignCodes
    ensures Referenced(t) == Referenced(t')
  {
    hide RowsOf, RowRoots, Referenced;
    forall root ensures root in Referenced(t) <==> root in Referenced(t') {
      ReferencedIff(t, root);
      ReferencedIff(t', root);
    }
  }

  ghost predicate ForeignRoot(t: Tables, root: CodeRoot) {
    exists b :: b in t.foreignCodes && t.foreignCodes[b] == root
  }

  lemma UndoneReferencedIff(t: Tables, g: Stacks, cs: set<Commitment>, root: CodeRoot)
    requires Represents(t, g)
    ensures root in Referenced(t) <==> (exists b :: Carried(StackOf(g, b), root)) || ForeignRoot(t, root)
    ensures root in Referenced(Undo(t, cs))
            <==> (exists b :: CarriedAfter(StackOf(g, b), cs, root)) || ForeignRoot(t, root)
  {
    hide RowsOf, RowRoots, Referenced, Represents, Undo, DiscardedOf, DiscardedNonces, UndoRows, Carried,
         CarriedAfter;
    ReferencedIff(t, root);
    ReferencedIff(Undo(t, cs), root);
    RowsOfUndo(t, cs, "");
    forall b
      ensures root in RowRoots(RowsOf(t, b)) <==> Carried(StackOf(g, b), root)
      ensures root in RowRoots(RowsOf(Undo(t, cs), b)) <==> CarriedAfter(StackOf(g, b), cs, root)
    {
      StoreTracks(t, g, b);
      StackCarries(RowsOf(t, b), StackOf(g, b), root);
      DiscardedMatches(t, g, cs, b);
      RowsOfUndo(t, cs, b);
      UndoCarries(RowsOf(t, b), StackOf(g, b), cs, root);
    }
  }

  // ---------------------------------------------------------------- which roots a prune considers

  function PrunedRoots(r: Rows, upTo: nat): set<CodeRoot> {
    set c | c in PrunedCommitments(r, upTo) :: r.archived[c].header.codeRoot
  }

  lemma CollectedIs(t: Tables, a: AccountId, upTo: nat)
    ensures Prune(t, a, upTo).codes == t.codes - (PrunedRoots(RowsOf(t, a), upTo) - Referenced(Prune(t, a, upTo)))
  {
    hide RowsOf, Referenced, PruneRows;
    forall b ensures RowsOf(Prune(t, a, upTo), b) == RowsOf(PruneAccount(t, a, upTo), b) {
      CodesAside(PruneAccount(t, a, upTo), Prune(t, a, upTo).codes);
    }
    SameReferenced(Prune(t, a, upTo), PruneAccount(t, a, upTo));
  }

  /** The states a prune drops. */
  predicate DroppedRoot(stack: Stack, upTo: nat, root: CodeRoot) {
    exists i :: 0 <= i < |stack| - |DropOld(stack, upTo)| && stack[i].header.codeRoot == root
  }

  lemma PrunedRootIff(r: Rows, stack: Stack, upTo: nat, root: CodeRoot)
    requires Tracked(r, stack)
    ensures root in PrunedRoots(r, upTo) <==> DroppedRoot(stack, upTo, root)
  {
    hide Restore, HistoryNonces, DropOld;
    var cut := |stack| - |DropOld(stack, upTo)|;
    PruneCuts(r, stack, upTo, cut);
    if root in PrunedRoots(r, upTo) {
      var c :| c in PrunedCommitments(r, upTo) && r.archived[c].header.codeRoot == root;
      var i := ArchivedStep(r, stack, c);
      assert StepAt(r, stack, i);
      assert i < cut;
    }
    if i :| 0 <= i < cut && stack[i].header.codeRoot == root {
      assert StepAt(r, stack, i);
    }
  }

  /** An undo above the bound leaves the headers below it. */
  lemma UndoKeepsPruned(r: Rows, ns: set<nat>, upTo: nat)
    requires ns != {} && forall n :: n in ns ==> upTo < n
    ensures PrunedRoots(UndoRows(r, ns), upTo) == PrunedRoots(r, upTo)
  {
    hide UndoContents, Forget, PreviousHeader;
    assert PrunedCommitments(UndoRows(r, ns), upTo) == PrunedCommitments(r, upTo);
    assert forall c :: c in PrunedCommitments(r, upTo) ==> UndoRows(r, ns).archived[c] == r.archived[c];
  }

  // ---------------------------------------------------------------- the condition

  /**
   * No stored root of a dropped state is carried, among the states and foreign accounts that remain after the
   * prune, only by states whose header the undo takes away.
   */
  ghost predicate NoneOrphaned(t: Tables, g: Stacks, a: AccountId, upTo: nat, cs: set<Commitment>) {
    var pruned := SetStack(g, a, DropOld(StackOf(g, a), upTo));
    forall root ::
      && root in t.codes && DroppedRoot(StackOf(g, a), upTo, root)
      && (exists b :: Carried(StackOf(pruned, b), root))
      ==> ForeignRoot(t, root) || exists b :: CarriedAfter(StackOf(pruned, b), cs, root)
  }

  /** The code tables of the two orders, by the roots that are considered and the references that remain. */
  lemma BothOrders(t: Tables, g: Stacks, a: AccountId, upTo: nat, cs: set<Commitment>)
    requires Represents(t, g) && forall n :: n in DiscardedOf(t, cs, a) ==> upTo < n
    ensures var considered, pruned := PrunedRoots(RowsOf(t, a), upTo), Prune(t, a, upTo);
            && Undo(pruned, cs).codes == t.codes - (considered - Referenced(pruned))
            && Prune(Undo(t, cs), a, upTo).codes == t.codes - (considered - Referenced(Undo(pruned, cs)))
  {
    hide RowsOf, Referenced, Represents, Undo, Prune, UndoRows, DiscardedOf, PrunedRoots;
    var pruned, u := Prune(t, a, upTo), Undo(t, cs);
    CollectedIs(t, a, upTo);
    CollectedIs(u, a, upTo);
    RowsOfUndo(pruned, cs, a);
    RowsOfUndo(t, cs, a);
    RowsOfPrune(t, a, upTo, a);
    RowsOfPrune(u, a, upTo, a);
    if DiscardedOf(t, cs, a) != {} {
      UndoKeepsPruned(RowsOf(t, a), DiscardedOf(t, cs, a), upTo);
    }
    PruneUndoCommuteStore(t, g, a, upTo, cs);
    SameReferenced(Undo(pruned, cs), Prune(u, a, upTo));
  }

  lemma RestrictionsEqualIff<K(!new), V>(m: map<K, V>, gone: set<K>, gone': set<K>)
    ensures m - gone == m - gone' <==> forall k :: k in m ==> (k in gone <==> k in gone')
  {
    if m - gone == m - gone' {
      forall k | k in m ensures k in gone <==> k in gone' {
        assert k in m - gone <==> k in m - gone';
      }
    }
  }

  /**
   * Prune and undo commute on the code table exactly when no stored root of a dropped state would be carried
   * only by undone states: something to read off the states before either is made.
   */
  lemma PruneUndoCodesIff(t: Tables, g: Stacks, a: AccountId, upTo: nat, cs: set<Commitment>)
    requires Represents(t, g) && forall n :: n in DiscardedOf(t, cs, a) ==> upTo < n
    ensures Undo(Prune(t, a, upTo), cs).codes == Prune(Undo(t, cs), a, upTo).codes <==> NoneOrphaned(t, g, a, upTo, cs)
  {
    hide RowsOf, Referenced, Represents, Undo, Prune, DiscardedOf, PrunedRoots, DroppedRoot, Carried, CarriedAfter,
         ForeignRoot, SetStack, DropOld, StackOf;
    var pruned, g' := Prune(t, a, upTo), SetStack(g, a, DropOld(StackOf(g, a), upTo));
    var considered := PrunedRoots(RowsOf(t, a), upTo);
    BothOrders(t, g, a, upTo, cs);
    PruneDropsStore(t, g, a, upTo);
    RestrictionsEqualIff(t.codes, considered - Referenced(pruned), considered - Referenced(Undo(pruned, cs)));
    forall root
      ensures root in considered <==> DroppedRoot(StackOf(g, a), upTo, root)
      ensures root in Referenced(pruned) <==> (exists b :: Carried(StackOf(g', b), root)) || ForeignRoot(t, root)
      ensures root in Referenced(Undo(pruned, cs))
              <==> (exists b :: CarriedAfter(StackOf(g', b), cs, root)) || ForeignRoot(t, root)
      ensures (exists b :: CarriedAfter(StackOf(g', b), cs, root)) ==> exists b :: Carried(StackOf(g', b), root)
    {
      StoreTracks(t, g, a);
      PrunedRootIff(RowsOf(t, a), StackOf(g, a), upTo, root);
      UndoneReferencedIff(pruned, g', cs, root);
      SameForeign(t, a, upTo, root);
      if b :| CarriedAfter(StackOf(g', b), cs, root) {
        CarriedBefore(StackOf(g', b), cs, root);
      }
    }
  }

  lemma SameForeign(t: Tables, a: AccountId, upTo: nat, root: CodeRoot)
    ensures ForeignRoot(Prune(t, a, upTo), root) <==> ForeignRoot(t, root)
  {
    RowsOfPrune(t, a, upTo, a);
  }

  lemma CarriedBefore(stack: Stack, cs: set<Commitment>, root: CodeRoot)
    requires CarriedAfter(stack, cs, root)
    ensures Carried(stack, root)
  {
  }

  // ---------------------------------------------------------------- a store on which the orders differ

  function PlainHeader(root: CodeRoot, nonce: nat, c: Commitment): Header {
    Header(root, "", "", nonce, true, None, c, false)
  }

  /** One account whose three states carry the code roots old, new and old again. */
  const CodeExample := EmptyTables.(
    latestHeaders := map["acct" := PlainHeader("old", 2, "c2")],
    historicalHeaders := map["c0" := HeaderRow("acct", OldHeader(1, PlainHeader("old", 0, "c0"))),
                             "c1" := HeaderRow("acct", OldHeader(2, PlainHeader("new", 1, "c1")))],
    codes := map["old" := "code0", "new" := "code1"])

  /**
   * Pruning first keeps the old root, which the current state still carries; undoing that state first
   * lets the prune collect it.
   */
  lemma PruneUndoCodesDiffer()
    ensures "old" in Undo(Prune(CodeExample, "acct", 1), {"c2"}).codes
    ensures "old" !in Prune(Undo(CodeExample, {"c2"}), "acct", 1).codes
  {
    hide Undo, Prune, RowsOf;
    PrunedFirst();
    RowsOfUndo(Prune(CodeExample, "acct", 1), {"c2"}, "acct");
    UndoExample();
    PrunedLast(Undo(CodeExample, {"c2"}));
  }

  lemma PrunedFirst()
    ensures "old" in Prune(CodeExample, "acct", 1).codes
  {
    hide RowsOf, PruneRows, CollectedRoots;
    PruneKeepsReferencedCode(CodeExample, "acct", 1);
    RowsOfPrune(CodeExample, "acct", 1, "acct");
    RootsReferenced(Prune(CodeExample, "acct", 1), "acct");
    ExampleHeader();
    PruneKeepsCurrent(RowsOf(CodeExample, "acct"), 1);
  }

  lemma ExampleHeader()
    ensures RowsOf(CodeExample, "acct").header == Some(PlainHeader("old", 2, "c2"))
  {
  }

  lemma PrunedLast(u: Tables)
    requires RowsOf(u, "acct").header == Some(PlainHeader("new", 1, "c1"))
    requires RowsOf(u, "acct").archived == map["c0" := OldHeader(1, PlainHeader("old", 0, "c0"))]
    requires forall b :: b != "acct" ==> RowRoots(RowsOf(u, b)) == {}
    requires u.foreignCodes == map[]
    ensures "old" !in Prune(u, "acct", 1).codes
  {
    hide RowsOf, Forget, Referenced, WithRows;
    var r, pruned := RowsOf(u, "acct"), PruneAccount(u, "acct", 1);
    assert "c0" in PrunedCommitments(r, 1) && r.archived["c0"].header.codeRoot == "old";
    assert RowRoots(PruneRows(r, 1)) == {"new"} by {
      assert PruneRows(r, 1).archived == map[];
    }
    forall b ensures RowRoots(RowsOf(pruned, b)) <= {"new"} {
      RowsOfPrune(u, "acct", 1, b);
      CodesAside(pruned, Prune(u, "acct", 1).codes);
    }
    RowsOfPrune(u, "acct", 1, "acct");
    RootsCovered(pruned, {"new"});
  }

  lemma ExampleRows()
    ensures RowsOf(CodeExample, "acct").archived
            == map["c0" := OldHeader(1, PlainHeader("old", 0, "c0")), "c1" := OldHeader(2, PlainHeader("new", 1, "c1"))]
    ensures forall b :: b != "acct" ==> RowRoots(RowsOf(CodeExample, b)) == {}
  {
    hide Slice;
  }

  lemma ExampleDiscards()
    ensures DiscardedOf(CodeExample, {"c2"}, "acct") == {2}
    ensures forall b :: b != "acct" ==> DiscardedOf(CodeExample, {"c2"}, b) == {}
  {
  }

  lemma ExampleUndone(r: Rows)
    requires r.archived == map["c0" := OldHeader(1, PlainHeader("old", 0, "c0")),
                               "c1" := OldHeader(2, PlainHeader("new", 1, "c1"))]
    ensures UndoRows(r, {2}).header == Some(PlainHeader("new", 1, "c1"))
    ensures UndoRows(r, {2}).archived == map["c0" := OldHeader(1, PlainHeader("old", 0, "c0"))]
  {
    hide Forget, UndoContents;
    assert ReplacedAt(r, 2, "c1") && forall c :: ReplacedAt(r, 2, c) ==> c == "c1";
    assert MinOf({2}) == 2;
  }

  lemma UndoExample()
    ensures RowsOf(Undo(CodeExample, {"c2"}), "acct").header == Some(PlainHeader("new", 1, "c1"))
    ensures RowsOf(Undo(CodeExample, {"c2"}), "acct").archived == map["c0" := OldHeader(1, PlainHeader("old", 0, "c0"))]
    ensures forall b :: b != "acct" ==> RowRoots(RowsOf(Undo(CodeExample, {"c2"}), b)) == {}
    ensures Undo(CodeExample, {"c2"}).foreignCodes == map[]
  {
    hide RowsOf, UndoRows, DiscardedOf, Undo, RowRoots;
    ExampleRows();
    ExampleDiscards();
    ExampleUndone(RowsOf(CodeExample, "acct"));
    RowsOfUndo(CodeExample, {"c2"}, "acct");
    forall b | b != "acct" ensures RowRoots(RowsOf(Undo(CodeExample, {"c2"}), b)) == {} {
      RowsOfUndo(CodeExample, {"c2"}, b);
    }
  }
}
