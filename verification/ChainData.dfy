/**
 * Block headers, authentication nodes and the sync height of the SQLite store under repeated sync and
 * prune (`apply_state_sync` in crates/sqlite-store/src/sync.rs; crates/sqlite-store/src/chain_data.rs).
 * Headers, peaks and nodes are opaque texts.
 */
module ChainData {
  import opened Common

  datatype HeaderRow = HeaderRow(header: string, peaks: string, hasNotes: bool)

  /** One block header of an update, with the peaks stored beside it and whether it holds client notes. */
  datatype Block = Block(num: nat, header: string, peaks: string, hasNotes: bool)

  datatype Update = Update(height: nat, blocks: seq<Block>, nodes: seq<(nat, string)>)

  /** The `state_sync` row may be missing, as the prune query allows for. */
  datatype Chain = Chain(height: Option<nat>, headers: map<nat, HeaderRow>, nodes: map<nat, string>)

  datatype Op = Sync(u: Update) | Prune

  // ---------------------------------------------------------------- what each statement does

  /** Insert or ignore, then raise the notes flag if asked to and not raised yet. */
  function InsertBlock(headers: map<nat, HeaderRow>, b: Block): map<nat, HeaderRow> {
    var row := if b.num in headers then headers[b.num] else HeaderRow(b.header, b.peaks, b.hasNotes);
    headers[b.num := if row.hasNotes then row else row.(hasNotes := b.hasNotes)]
  }

  function InsertBlocks(headers: map<nat, HeaderRow>, blocks: seq<Block>): map<nat, HeaderRow> {
    if blocks == [] then headers else InsertBlock(InsertBlocks(headers, blocks[..|blocks| - 1]), blocks[|blocks| - 1])
  }

  /** Insert or ignore. */
  function InsertNode(nodes: map<nat, string>, n: (nat, string)): map<nat, string> {
    if n.0 in nodes then nodes else nodes[n.0 := n.1]
  }

  function InsertNodes(nodes: map<nat, string>, added: seq<(nat, string)>): map<nat, string> {
    if added == [] then nodes else InsertNode(InsertNodes(nodes, added[..|added| - 1]), added[|added| - 1])
  }

  /** The sync height only moves forward; a missing row stays missing. */
  function Raise(height: Option<nat>, to: nat): Option<nat> {
    if height.Some? && height.value < to then Some(to) else height
  }

  function ApplySync(s: Chain, u: Update): Chain {
    Chain(Raise(s.height, u.height), InsertBlocks(s.headers, u.blocks), InsertNodes(s.nodes, u.nodes))
  }

  /** Headers without client notes go, except the first one and those from the sync height on. */
  function ApplyPrune(s: Chain): Chain {
    if s.height.None? then s
    else
      s.(headers := map n | n in s.headers && (s.headers[n].hasNotes || n == 0 || s.height.value <= n)
                      :: s.headers[n])
  }

  function Apply(s: Chain, op: Op): Chain {
    match op
    case Sync(u) => ApplySync(s, u)
    case Prune => ApplyPrune(s)
  }

  function Run(s: Chain, ops: seq<Op>): Chain {
    if ops == [] then s else Apply(Run(s, ops[..|ops| - 1]), ops[|ops| - 1])
  }

  /** The rows a client reads back as tracked. */
  function Tracked(headers: map<nat, HeaderRow>): map<nat, HeaderRow> {
    map n | n in headers && headers[n].hasNotes :: headers[n]
  }

  // ---------------------------------------------------------------- agreement

  /** One chain: all updates, and the rows already stored, agree on what belongs to a block or a node. */
  datatype Truth = Truth(block: nat -> (string, string), node: nat -> string)

  ghost predicate Agrees(u: Update, truth: Truth) {
    && (forall i :: 0 <= i < |u.blocks| ==> (u.blocks[i].header, u.blocks[i].peaks) == truth.block(u.blocks[i].num))
    && (forall i :: 0 <= i < |u.nodes| ==> u.nodes[i].1 == truth.node(u.nodes[i].0))
  }

  ghost predicate Faithful(s: Chain, truth: Truth) {
    && (forall n :: n in s.headers ==> (s.headers[n].header, s.headers[n].peaks) == truth.block(n))
    && (forall i :: i in s.nodes ==> s.nodes[i] == truth.node(i))
  }

  ghost predicate AllAgree(ops: seq<Op>, truth: Truth) {
    forall i :: 0 <= i < |ops| && ops[i].Sync? ==> Agrees(ops[i].u, truth)
  }

  // ---------------------------------------------------------------- what a run amounts to

  /** Some update brings the block. */
  ghost predicate Brings(u: Update, n: nat) {
    exists i :: 0 <= i < |u.blocks| && u.blocks[i].num == n
  }

  /** Some update brings the block as one that holds client notes. */
  ghost predicate Flags(u: Update, n: nat) {
    exists i :: 0 <= i < |u.blocks| && u.blocks[i].num == n && u.blocks[i].hasNotes
  }

  ghost predicate HasNode(u: Update, id: nat) {
    exists i :: 0 <= i < |u.nodes| && u.nodes[i].0 == id
  }

  ghost predicate EverBrought(s: Chain, ops: seq<Op>, n: nat) {
    n in s.headers || exists i :: 0 <= i < |ops| && ops[i].Sync? && Brings(ops[i].u, n)
  }

  ghost predicate EverFlagged(s: Chain, ops: seq<Op>, n: nat) {
    (n in s.headers && s.headers[n].hasNotes) || exists i :: 0 <= i < |ops| && ops[i].Sync? && Flags(ops[i].u, n)
  }

  ghost predicate EverNode(s: Chain, ops: seq<Op>, id: nat) {
    id in s.nodes || exists i :: 0 <= i < |ops| && ops[i].Sync? && HasNode(ops[i].u, id)
  }

  lemma {:induction false} InsertBlocksAt(headers: map<nat, HeaderRow>, blocks: seq<Block>, n: nat, truth: Truth)
    requires n in headers ==> (headers[n].header, headers[n].peaks) == truth.block(n)
    requires forall i :: 0 <= i < |blocks| ==> (blocks[i].header, blocks[i].peaks) == truth.block(blocks[i].num)
    ensures var r := InsertBlocks(headers, blocks);
            && (n in r <==> n in headers || exists i :: 0 <= i < |blocks| && blocks[i].num == n)
            && (n in r ==> (r[n].header, r[n].peaks) == truth.block(n))
            && (n in r ==> (r[n].hasNotes <==>
                              || (n in headers && headers[n].hasNotes)
                              || exists i :: 0 <= i < |blocks| && blocks[i].num == n && blocks[i].hasNotes))
  {
    if blocks != [] {
      var before, b := blocks[..|blocks| - 1], blocks[|blocks| - 1];
      InsertBlocksAt(headers, before, n, truth);
      assert forall i :: 0 <= i < |before| ==> before[i] == blocks[i];
    }
  }

  lemma {:induction false} InsertNodesAt(nodes: map<nat, string>, added: seq<(nat, string)>, id: nat, truth: Truth)
    requires id in nodes ==> nodes[id] == truth.node(id)
    requires forall i :: 0 <= i < |added| ==> added[i].1 == truth.node(added[i].0)
    ensures var r := InsertNodes(nodes, added);
            && (id in r <==> id in nodes || exists i :: 0 <= i < |added| && added[i].0 == id)
            && (id in r ==> r[id] == truth.node(id))
  {
    if added != [] {
      var before := added[..|added| - 1];
      InsertNodesAt(nodes, before, id, truth);
      assert forall i :: 0 <= i < |before| ==> before[i] == added[i];
    }
  }

  /** The highest height reached: the first one, or that of some update. */
  function HeightAfter(height: Option<nat>, ops: seq<Op>): Option<nat> {
    if ops == [] then height
    else
      var before := HeightAfter(height, ops[..|ops| - 1]);
      if ops[|ops| - 1].Sync? then Raise(before, ops[|ops| - 1].u.height) else before
  }

  lemma {:induction false} HeightIsMax(height: Option<nat>, ops: seq<Op>)
    ensures height.None? <==> HeightAfter(height, ops).None?
    ensures height.Some? ==> height.value <= HeightAfter(height, ops).value
    ensures height.Some? ==> forall i ::
              0 <= i < |ops| && ops[i].Sync? ==> ops[i].u.height <= HeightAfter(height, ops).value
    ensures height.Some? && HeightAfter(height, ops) != height ==>
              exists i :: 0 <= i < |ops| && ops[i].Sync? && ops[i].u.height == HeightAfter(height, ops).value
  {
    if ops != [] {
      var before := ops[..|ops| - 1];
      HeightIsMax(height, before);
      assert forall i :: 0 <= i < |before| ==> before[i] == ops[i];
      if height.Some? && HeightAfter(height, before) != height {
        var i :| 0 <= i < |before| && before[i].Sync? && before[i].u.height == HeightAfter(height, before).value;
        assert ops[i].Sync? && ops[i].u.height == HeightAfter(height, before).value;
      }
    }
  }

  /** What one block number amounts to after a run. */
  ghost predicate BlockSettled(s: Chain, ops: seq<Op>, r: Chain, truth: Truth, n: nat) {
    && (n in r.headers ==> (r.headers[n].header, r.headers[n].peaks) == truth.block(n) && EverBrought(s, ops, n))
    && (n in r.headers && r.headers[n].hasNotes <==> EverFlagged(s, ops, n))
    && (r.height.None? || n == 0 || r.height.value <= n ==> (n in r.headers <==> EverBrought(s, ops, n)))
  }

  lemma EverStep(s: Chain, ops: seq<Op>, n: nat)
    requires ops != []
    ensures var before, last := ops[..|ops| - 1], ops[|ops| - 1];
            && (EverBrought(s, ops, n) <==> EverBrought(s, before, n) || (last.Sync? && Brings(last.u, n)))
            && (EverFlagged(s, ops, n) <==> EverFlagged(s, before, n) || (last.Sync? && Flags(last.u, n)))
            && (EverNode(s, ops, n) <==> EverNode(s, before, n) || (last.Sync? && HasNode(last.u, n)))
  {
    hide Brings, Flags, HasNode;
    var before := ops[..|ops| - 1];
    assert forall i :: 0 <= i < |before| ==> before[i] == ops[i];
  }

  /** Flagged blocks were brought. */
  lemma FlaggedBrought(s: Chain, ops: seq<Op>, n: nat)
    ensures EverFlagged(s, ops, n) ==> EverBrought(s, ops, n)
  {
    if !(n in s.headers && s.headers[n].hasNotes) && EverFlagged(s, ops, n) {
      var i :| 0 <= i < |ops| && ops[i].Sync? && Flags(ops[i].u, n);
      assert Brings(ops[i].u, n);
    }
  }

  lemma {:induction false} RunSettlesBlock(s: Chain, ops: seq<Op>, truth: Truth, n: nat)
    requires Faithful(s, truth) && AllAgree(ops, truth)
    ensures Run(s, ops).height == HeightAfter(s.height, ops)
    ensures BlockSettled(s, ops, Run(s, ops), truth, n)
    decreases |ops|
  {
    hide EverBrought, EverFlagged;
    if ops == [] {
      NothingYet(s, n);
    } else {
      var before, last := ops[..|ops| - 1], ops[|ops| - 1];
      RunSettlesBlock(s, before, truth, n);
      EverStep(s, ops, n);
      FlaggedBrought(s, before, n);
      var mid := Run(s, before);
      if last.Sync? {
        assert Agrees(last.u, truth);
        InsertBlocksAt(mid.headers, last.u.blocks, n, truth);
      }
    }
  }

  lemma NothingYet(s: Chain, n: nat)
    ensures EverBrought(s, [], n) <==> n in s.headers
    ensures EverFlagged(s, [], n) <==> n in s.headers && s.headers[n].hasNotes
    ensures EverNode(s, [], n) <==> n in s.nodes
  {
  }

  lemma {:induction false} RunSettlesNode(s: Chain, ops: seq<Op>, truth: Truth, id: nat)
    requires Faithful(s, truth) && AllAgree(ops, truth)
    ensures Get(Run(s, ops).nodes, id) == if EverNode(s, ops, id) then Some(truth.node(id)) else None
    decreases |ops|
  {
    hide EverNode;
    NothingYet(s, id);
    if ops != [] {
      var before, last := ops[..|ops| - 1], ops[|ops| - 1];
      RunSettlesNode(s, before, truth, id);
      EverStep(s, ops, id);
      if last.Sync? {
        assert Agrees(last.u, truth);
        InsertNodesAt(Run(s, before).nodes, last.u.nodes, id, truth);
      }
    }
  }

  // ---------------------------------------------------------------- convergence

  /** The two runs apply the same updates, each in its own order, as often as it likes, and with its own prunes. */
  ghost predicate SameUpdates(ops: seq<Op>, ops': seq<Op>) {
    forall u :: Sync(u) in ops <==> Sync(u) in ops'
  }

  lemma SameEver(s: Chain, ops: seq<Op>, ops': seq<Op>, n: nat)
    requires SameUpdates(ops, ops')
    ensures EverBrought(s, ops, n) ==> EverBrought(s, ops', n)
    ensures EverFlagged(s, ops, n) ==> EverFlagged(s, ops', n)
    ensures EverNode(s, ops, n) ==> EverNode(s, ops', n)
  {
    hide Brings, Flags, HasNode;
    forall i | 0 <= i < |ops| && ops[i].Sync? ensures exists j :: 0 <= j < |ops'| && ops'[j] == ops[i] {
      assert Sync(ops[i].u) in ops;
    }
  }

  lemma SameHeight(height: Option<nat>, ops: seq<Op>, ops': seq<Op>)
    requires SameUpdates(ops, ops')
    ensures HeightAfter(height, ops) == HeightAfter(height, ops')
  {
    HeightIsMax(height, ops);
    HeightIsMax(height, ops');
    if height.Some? {
      HeightCovers(height, ops, ops');
      HeightCovers(height, ops', ops);
    }
  }

  lemma HeightCovers(height: Option<nat>, ops: seq<Op>, ops': seq<Op>)
    requires SameUpdates(ops, ops') && height.Some?
    requires HeightAfter(height, ops).Some? && HeightAfter(height, ops').Some?
    ensures HeightAfter(height, ops).value <= HeightAfter(height, ops').value
  {
    HeightIsMax(height, ops);
    HeightIsMax(height, ops');
    if HeightAfter(height, ops) != height {
      var i :| 0 <= i < |ops| && ops[i].Sync? && ops[i].u.height == HeightAfter(height, ops).value;
      assert Sync(ops[i].u) in ops';
      var j :| 0 <= j < |ops'| && ops'[j] == ops[i];
    }
  }

  /**
   * Convergence: whatever the order, the repetition and the prunes in between, runs of the same updates of
   * one chain end at the same sync height, the highest; with the same tracked headers; and with the same
   * authentication nodes.
   */
  lemma SyncConverges(s: Chain, ops: seq<Op>, ops': seq<Op>, truth: Truth)
    requires Faithful(s, truth) && AllAgree(ops, truth) && AllAgree(ops', truth) && SameUpdates(ops, ops')
    ensures Run(s, ops).height == Run(s, ops').height == HeightAfter(s.height, ops)
    ensures Tracked(Run(s, ops).headers) == Tracked(Run(s, ops').headers)
    ensures Run(s, ops).nodes == Run(s, ops').nodes
  {
    hide EverBrought, EverFlagged, EverNode, AllAgree, Faithful, SameUpdates;
    var r, r' := Run(s, ops), Run(s, ops');
    SameHeight(s.height, ops, ops');
    SameSymmetric(ops, ops');
    RunSettlesBlock(s, ops, truth, 0);
    RunSettlesBlock(s, ops', truth, 0);
    forall n ensures Get(Tracked(r.headers), n) == Get(Tracked(r'.headers), n) {
      RunSettlesBlock(s, ops, truth, n);
      RunSettlesBlock(s, ops', truth, n);
      SameEver(s, ops, ops', n);
      SameEver(s, ops', ops, n);
    }
    GetExtensional(Tracked(r.headers), Tracked(r'.headers));
    forall id ensures Get(r.nodes, id) == Get(r'.nodes, id) {
      RunSettlesNode(s, ops, truth, id);
      RunSettlesNode(s, ops', truth, id);
      SameEver(s, ops, ops', id);
      SameEver(s, ops', ops, id);
    }
    GetExtensional(r.nodes, r'.nodes);
  }

  lemma SameSymmetric(ops: seq<Op>, ops': seq<Op>)
    requires SameUpdates(ops, ops')
    ensures SameUpdates(ops', ops)
  {
  }

  /** And when both runs end in a prune, every table is the same, untracked headers included. */
  lemma PrunedRunsEqual(s: Chain, ops: seq<Op>, ops': seq<Op>, truth: Truth)
    requires Faithful(s, truth) && AllAgree(ops, truth) && AllAgree(ops', truth) && SameUpdates(ops, ops')
    ensures ApplyPrune(Run(s, ops)) == ApplyPrune(Run(s, ops'))
  {
    hide EverBrought, EverFlagged, EverNode, AllAgree, Faithful, SameUpdates;
    var r, r' := Run(s, ops), Run(s, ops');
    SyncConverges(s, ops, ops', truth);
    SameSymmetric(ops, ops');
    HeightIsMax(s.height, ops);
    forall n ensures Get(ApplyPrune(r).headers, n) == Get(ApplyPrune(r').headers, n) {
      RunSettlesBlock(s, ops, truth, n);
      RunSettlesBlock(s, ops', truth, n);
      SameEver(s, ops, ops', n);
      SameEver(s, ops', ops, n);
    }
    GetExtensional(ApplyPrune(r).headers, ApplyPrune(r').headers);
  }

  // ---------------------------------------------------------------- what a prune removes

  /** A prune removes the headers without notes strictly between the first block and the sync height, no others. */
  lemma PruneEffect(s: Chain)
    ensures var r := ApplyPrune(s);
            && (s.height.None? ==> r == s)
            && (s.height.Some? ==> forall n: nat ::
                  Get(r.headers, n)
                  == if n in s.headers && !s.headers[n].hasNotes
                      && 0 < n < s.height.value then None else Get(s.headers, n))
            && r.height == s.height && r.nodes == s.nodes
  {
  }

  /**
   * After a run that ends in a prune, the headers are those of the blocks that were ever flagged, and of those that
   * were ever brought and are the first or not below the sync height. Without a sync height the prune does nothing.
   */
  lemma PrunedRunKeeps(s: Chain, ops: seq<Op>, truth: Truth, n: nat)
    requires Faithful(s, truth) && AllAgree(ops, truth) && ops != [] && ops[|ops| - 1] == Prune
    ensures var r := Run(s, ops);
            && (r.height.Some? ==>
                  (n in r.headers
                   <==> EverFlagged(s, ops, n) || (EverBrought(s, ops, n) && (n == 0 || r.height.value <= n))))
            && (r.height.None? ==> r == Run(s, ops[..|ops| - 1]))
  {
    hide EverBrought, EverFlagged, AllAgree, Faithful;
    var before := ops[..|ops| - 1];
    assert AllAgree(before, truth) by { AgreeBefore(ops, truth); }
    RunSettlesBlock(s, before, truth, n);
    EverStep(s, ops, n);
    PruneEffect(Run(s, before));
    assert n in Run(s, ops).headers <==> Get(Run(s, ops).headers, n).Some?;
  }

  lemma AgreeBefore(ops: seq<Op>, truth: Truth)
    requires AllAgree(ops, truth) && ops != []
    ensures AllAgree(ops[..|ops| - 1], truth)
  {
  }

  // ---------------------------------------------------------------- two updates in the two orders

  /** The block of an update that is inserted for a number: the first one listed. */
  function FirstBlock(blocks: seq<Block>, n: nat): Option<Block> {
    if blocks == [] then None
    else
      var before, b := FirstBlock(blocks[..|blocks| - 1], n), blocks[|blocks| - 1];
      if before.None? && b.num == n then Some(b) else before
  }

  function FirstNode(nodes: seq<(nat, string)>, id: nat): Option<string> {
    if nodes == [] then None
    else
      var before, x := FirstNode(nodes[..|nodes| - 1], id), nodes[|nodes| - 1];
      if before.None? && x.0 == id then Some(x.1) else before
  }

  /** The row of a block number once blocks are inserted: what was stored, else the first block; any flag counts. */
  function RowAfter(row: Option<HeaderRow>, first: Option<Block>, flagged: bool): Option<HeaderRow> {
    if row.Some? then Some(row.value.(hasNotes := row.value.hasNotes || flagged))
    else if first.Some? then Some(HeaderRow(first.value.header, first.value.peaks, flagged))
    else None
  }

  ghost predicate FlaggedIn(blocks: seq<Block>, n: nat) {
    exists i :: 0 <= i < |blocks| && blocks[i].num == n && blocks[i].hasNotes
  }

  lemma FlaggedStep(blocks: seq<Block>, n: nat)
    requires blocks != []
    ensures var b := blocks[|blocks| - 1];
            FlaggedIn(blocks, n) <==> FlaggedIn(blocks[..|blocks| - 1], n) || (b.num == n && b.hasNotes)
  {
    var before := blocks[..|blocks| - 1];
    assert forall i :: 0 <= i < |before| ==> before[i] == blocks[i];
  }

  lemma {:induction false} FlaggedIsListed(blocks: seq<Block>, n: nat)
    requires FlaggedIn(blocks, n)
    ensures FirstBlock(blocks, n).Some?
  {
    FlaggedStep(blocks, n);
    if FlaggedIn(blocks[..|blocks| - 1], n) {
      FlaggedIsListed(blocks[..|blocks| - 1], n);
    }
  }

  lemma {:induction false} InsertBlocksGet(headers: map<nat, HeaderRow>, blocks: seq<Block>, n: nat)
    ensures Get(InsertBlocks(headers, blocks), n)
            == RowAfter(Get(headers, n), FirstBlock(blocks, n), FlaggedIn(blocks, n))
  {
    hide FlaggedIn;
    if blocks == [] {
      assert !FlaggedIn(blocks, n) by { NoneFlagged(n); }
    } else {
      InsertBlocksGet(headers, blocks[..|blocks| - 1], n);
      FlaggedStep(blocks, n);
      if FlaggedIn(blocks[..|blocks| - 1], n) {
        FlaggedIsListed(blocks[..|blocks| - 1], n);
      }
    }
  }

  lemma NoneFlagged(n: nat)
    ensures !FlaggedIn([], n)
  {
  }

  lemma {:induction false} InsertNodesGet(nodes: map<nat, string>, added: seq<(nat, string)>, id: nat)
    ensures Get(InsertNodes(nodes, added), id)
            == if id in nodes then Some(nodes[id]) else FirstNode(added, id)
  {
    if added != [] {
      InsertNodesGet(nodes, added[..|added| - 1], id);
    }
  }

  /** If both updates bring the block, they bring the same header and peaks. */
  ghost predicate SameBlock(u: Update, u': Update, n: nat) {
    var b, b' := FirstBlock(u.blocks, n), FirstBlock(u'.blocks, n);
    b.Some? && b'.Some? ==> b.value.header == b'.value.header && b.value.peaks == b'.value.peaks
  }

  ghost predicate SameNode(u: Update, u': Update, id: nat) {
    var x, x' := FirstNode(u.nodes, id), FirstNode(u'.nodes, id);
    x.Some? && x'.Some? ==> x == x'
  }

  lemma BlockInBothOrders(s: Chain, u: Update, u': Update, n: nat)
    ensures var h, h' := ApplySync(ApplySync(s, u), u').headers, ApplySync(ApplySync(s, u'), u).headers;
            && (Get(h, n) == Get(h', n) <==> n in s.headers || SameBlock(u, u', n))
            && (Get(Tracked(h), n) == Get(Tracked(h'), n)
                <==> n in s.headers || !(FlaggedIn(u.blocks, n) || FlaggedIn(u'.blocks, n)) || SameBlock(u, u', n))
  {
    hide FlaggedIn, FirstBlock, InsertBlocks;
    InsertBlocksGet(s.headers, u.blocks, n);
    InsertBlocksGet(s.headers, u'.blocks, n);
    InsertBlocksGet(InsertBlocks(s.headers, u.blocks), u'.blocks, n);
    InsertBlocksGet(InsertBlocks(s.headers, u'.blocks), u.blocks, n);
    if FlaggedIn(u.blocks, n) {
      FlaggedIsListed(u.blocks, n);
    }
    if FlaggedIn(u'.blocks, n) {
      FlaggedIsListed(u'.blocks, n);
    }
  }

  lemma NodeInBothOrders(s: Chain, u: Update, u': Update, id: nat)
    ensures Get(ApplySync(ApplySync(s, u), u').nodes, id) == Get(ApplySync(ApplySync(s, u'), u).nodes, id)
            <==> id in s.nodes || SameNode(u, u', id)
  {
    hide FirstNode, InsertNodes;
    InsertNodesGet(s.nodes, u.nodes, id);
    InsertNodesGet(s.nodes, u'.nodes, id);
    InsertNodesGet(InsertNodes(s.nodes, u.nodes), u'.nodes, id);
    InsertNodesGet(InsertNodes(s.nodes, u'.nodes), u.nodes, id);
  }

  lemma SameTableIff<V>(m: map<nat, V>, m': map<nat, V>)
    ensures m == m' <==> forall n: nat :: Get(m, n) == Get(m', n)
  {
    if forall n: nat :: Get(m, n) == Get(m', n) {
      GetExtensional(m, m');
    }
  }

  /**
   * Agreement is exactly what two updates need to be interchangeable, in any store. Their two orders leave the
   * same nodes just when they agree on every node the store does not hold; the same tracked headers just when
   * they agree on every block that the store does not hold and that either of them flags; and the same headers
   * altogether just when they agree on every block the store does not hold. The height is the same always.
   */
  lemma OrdersAgreeIff(s: Chain, u: Update, u': Update)
    ensures var r, r' := ApplySync(ApplySync(s, u), u'), ApplySync(ApplySync(s, u'), u);
            && r.height == r'.height
            && (r.nodes == r'.nodes <==> forall id: nat :: id !in s.nodes ==> SameNode(u, u', id))
            && (Tracked(r.headers) == Tracked(r'.headers)
                <==> forall n: nat :: n !in s.headers && (FlaggedIn(u.blocks, n) || FlaggedIn(u'.blocks, n))
                                      ==> SameBlock(u, u', n))
            && (r.headers == r'.headers <==> forall n: nat :: n !in s.headers ==> SameBlock(u, u', n))
  {
    hide FlaggedIn, SameBlock, SameNode, Tracked, InsertBlocks, InsertNodes;
    var r, r' := ApplySync(ApplySync(s, u), u'), ApplySync(ApplySync(s, u'), u);
    SameTableIff(r.nodes, r'.nodes);
    SameTableIff(r.headers, r'.headers);
    SameTableIff(Tracked(r.headers), Tracked(r'.headers));
    forall n: nat
      ensures Get(r.nodes, n) == Get(r'.nodes, n) <==> n in s.nodes || SameNode(u, u', n)
      ensures Get(r.headers, n) == Get(r'.headers, n) <==> n in s.headers || SameBlock(u, u', n)
      ensures Get(Tracked(r.headers), n) == Get(Tracked(r'.headers), n)
              <==> n in s.headers || !(FlaggedIn(u.blocks, n) || FlaggedIn(u'.blocks, n)) || SameBlock(u, u', n)
    {
      NodeInBothOrders(s, u, u', n);
      BlockInBothOrders(s, u, u', n);
    }
  }

  // ---------------------------------------------------------------- the store

  class ChainStore {
    var height: Option<nat>
    var headers: map<nat, HeaderRow>
    var nodes: map<nat, string>

    function State(): Chain
      reads this
    {
      Chain(height, headers, nodes)
    }

    /** Insert or ignore the row, then set its flag where the flag is still false. */
    method InsertBlockHeader(b: Block)
      modifies this`headers
      ensures headers == InsertBlock(old(headers), b)
    {
      if b.num !in headers {
        headers := headers[b.num := HeaderRow(b.header, b.peaks, b.hasNotes)];
      }
      if !headers[b.num].hasNotes {
        headers := headers[b.num := headers[b.num].(hasNotes := b.hasNotes)];
      }
      assert headers == InsertBlock(old(headers), b);
    }

    method InsertPartialBlockchainNodes(added: seq<(nat, string)>)
      modifies this`nodes
      ensures nodes == InsertNodes(old(nodes), added)
    {
      for i := 0 to |added|
        invariant nodes == InsertNodes(old(nodes), added[..i])
      {
        if added[i].0 !in nodes {
          nodes := nodes[added[i].0 := added[i].1];
        }
        assert added[..i + 1][..i] == added[..i];
      }
      assert added[..|added|] == added;
    }

    method ApplyStateSync(u: Update)
      modifies this
      ensures State() == ApplySync(old(State()), u)
    {
      if height.Some? && height.value < u.height {
        height := Some(u.height);
      }
      for i := 0 to |u.blocks|
        invariant headers == InsertBlocks(old(headers), u.blocks[..i])
        invariant height == Raise(old(height), u.height) && nodes == old(nodes)
      {
        InsertBlockHeader(u.blocks[i]);
        assert u.blocks[..i + 1][..i] == u.blocks[..i];
      }
      assert u.blocks[..|u.blocks|] == u.blocks;
      InsertPartialBlockchainNodes(u.nodes);
    }

    method PruneIrrelevantBlocks()
      modifies this`headers
      ensures State() == ApplyPrune(old(State()))
    {
      if height.Some? {
        var dropped := set n | n in headers && !headers[n].hasNotes && n > 0 && n < height.value;
        headers := headers - dropped;
        assert headers == ApplyPrune(old(State())).headers;
      }
    }
  }
}
