/** The shape of the tree over runs: when chains reach a root, when they narrow, and what an
    insert under an identifier already in use does to both. */
module MandateGrowth {
  import opened Machine
  import opened Mandate
  import opened MandateRuns

  // ---------------------------------------------------------------------------
  // Every chain reaches a root
  // ---------------------------------------------------------------------------

  ghost predicate HasPath(nodes: Nodes, id: MandateId) {
    exists chain :: IsPath(nodes, id, chain)
  }

  /** No cycle and no missing ancestor anywhere. */
  ghost predicate Rooted(nodes: Nodes) {
    forall id :: id in nodes ==> HasPath(nodes, id)
  }

  /** The identifier inserted lies on the chain of the parent named. */
  ghost predicate ClosesCycle(before: Nodes, node: Node) {
    node.parent.Some? && exists chain :: IsPath(before, node.parent.value, chain) && node.id in chain
  }

  /** Which the caller can read off the parent's chain. */
  lemma CycleShowsInChain(before: Nodes, node: Node)
    requires node.parent.Some? && ChainOf(before, node.parent.value).Ok?
    ensures ClosesCycle(before, node) <==> node.id in ChainOf(before, node.parent.value).value
  {
    var p := node.parent.value;
    var path := ChainOf(before, p).value;
    ChainOfCorrect(before, p, path);
    forall chain | IsPath(before, p, chain) ensures chain == path {
      PathUnique(before, p, chain, path);
    }
  }

  /** Up to the overwritten node a chain is what it was; from there it is the new node's. */
  lemma {:induction false} ChainRejoins(before: Nodes, node: Node, leaf: MandateId, chain: seq<MandateId>, j: nat)
    requires IsPath(before, leaf, chain) && j < |chain|
    requires node.id in chain[j..] ==> HasPath(before[node.id := node], node.id)
    ensures HasPath(before[node.id := node], chain[j])
    decreases |chain| - j
  {
    var after := before[node.id := node];
    if chain[j] == node.id {
      assert chain[j] in chain[j..];
    } else if j == |chain| - 1 {
      assert IsPath(after, chain[j], [chain[j]]);
    } else {
      assert Linked(before, chain, j);
      assert chain[j..] == [chain[j]] + chain[j + 1..];
      ChainRejoins(before, node, leaf, chain, j + 1);
      var rest :| IsPath(after, chain[j + 1], rest);
      PathExtends(after, chain[j], chain[j + 1], rest);
    }
  }

  /** After an insert the new node's chain follows the parent's old one as far as that does not
      meet the new node. */
  lemma {:induction false} FollowsParent(before: Nodes, node: Node, p: MandateId,
                                         old_: seq<MandateId>, new_: seq<MandateId>, j: nat)
    requires node.parent == Some(p) && IsPath(before, p, old_) && j < |old_|
    requires forall i :: 0 <= i < j ==> old_[i] != node.id
    requires IsPath(before[node.id := node], node.id, new_)
    ensures j + 1 < |new_| && new_[j + 1] == old_[j]
  {
    var after := before[node.id := node];
    if j == 0 {
      assert |new_| > 1 && Linked(after, new_, 0);
    } else {
      FollowsParent(before, node, p, old_, new_, j - 1);
      assert Linked(before, old_, j - 1);
      assert after[new_[j]].parent == Some(old_[j]);
      assert j < |new_| - 1 && Linked(after, new_, j);
    }
  }

  /** Any accepted insert, fresh or not, keeps every chain rooted if and only if its identifier
      is not on the chain of its parent. */
  lemma InsertKeepsRootedIff(before: Nodes, node: Node)
    requires Rooted(before) && InsertVerdict(before, node).Pass?
    ensures Rooted(before[node.id := node]) <==> !ClosesCycle(before, node)
  {
    hide IsPath;
    var after := before[node.id := node];
    if ClosesCycle(before, node) {
      CycleIsNotRooted(before, node);
    } else {
      NewNodeHasPath(before, node);
      forall id | id in after ensures HasPath(after, id) {
        if id != node.id {
          OldNodeHasPath(before, node, id);
        }
      }
    }
  }

  lemma CycleIsNotRooted(before: Nodes, node: Node)
    requires ClosesCycle(before, node)
    ensures !HasPath(before[node.id := node], node.id)
  {
    var after, p := before[node.id := node], node.parent.value;
    var chain :| IsPath(before, p, chain) && node.id in chain;
    var i :| 0 <= i < |chain| && chain[i] == node.id;
    PathHasNoDuplicates(before, p, chain);
    if HasPath(after, node.id) {
      var path :| IsPath(after, node.id, path);
      PathHasNoDuplicates(after, node.id, path);
      FollowsParent(before, node, p, chain, path, i);
    }
  }

  lemma NewNodeHasPath(before: Nodes, node: Node)
    requires Rooted(before) && InsertVerdict(before, node).Pass? && !ClosesCycle(before, node)
    ensures HasPath(before[node.id := node], node.id)
  {
    var after := before[node.id := node];
    match node.parent
    case None =>
      assert IsPath(after, node.id, [node.id]);
    case Some(p) =>
      hide IsPath;
      var chain :| IsPath(before, p, chain);
      ParentKeepsPath(before, node, p, chain);
      var path :| IsPath(after, p, path);
      PathExtends(after, node.id, p, path);
  }

  lemma ParentKeepsPath(before: Nodes, node: Node, p: MandateId, chain: seq<MandateId>)
    requires IsPath(before, p, chain) && node.id !in chain
    ensures HasPath(before[node.id := node], p)
  {
    assert chain[0..] == chain;
    ChainRejoins(before, node, p, chain, 0);
  }

  lemma OldNodeHasPath(before: Nodes, node: Node, id: MandateId)
    requires HasPath(before, id) && HasPath(before[node.id := node], node.id)
    ensures HasPath(before[node.id := node], id)
  {
    var chain :| IsPath(before, id, chain);
    ChainRejoins(before, node, id, chain, 0);
  }

  // ---------------------------------------------------------------------------
  // Chains narrow
  // ---------------------------------------------------------------------------

  /** `child` only narrows `parent`, in the same asset. */
  predicate Narrows(child: Node, parent: Node) {
    child.asset == parent.asset && child.expiry <= parent.expiry && child.perTxMax <= parent.perTxMax
  }

  predicate ParentNarrowed(nodes: Nodes, id: MandateId)
    requires id in nodes
  {
    nodes[id].parent.Some? ==> nodes[id].parent.value in nodes && Narrows(nodes[id], nodes[nodes[id].parent.value])
  }

  predicate Narrowed(nodes: Nodes) {
    forall id :: id in nodes ==> ParentNarrowed(nodes, id)
  }

  predicate ChildFits(before: Nodes, node: Node, c: MandateId)
    requires c in before
  {
    c != node.id && before[c].parent == Some(node.id) ==> Narrows(before[c], node)
  }

  /** The node shares its parent's asset, and no child that the identifier already has is left
      wider than the node. */
  predicate FitsIn(before: Nodes, node: Node) {
    && (node.parent.Some? && node.parent.value != node.id && node.parent.value in before ==>
          node.asset == before[node.parent.value].asset)
    && forall c :: c in before ==> ChildFits(before, node, c)
  }

  /** Both entry points accept a root always, and a child exactly when its parent is there and it
      only narrows it in expiry and cap, the newer one asking for its asset too: its rate and buffer
      may exceed the parent's. What is accepted is put in, alone, and nothing else is changed. */
  lemma InsertAcceptedIff(before: Nodes, node: Node)
    ensures InsertBoundVerdict(before, node).Pass? <==>
              (node.parent.Some? ==> node.parent.value in before && Narrows(node, before[node.parent.value]))
    ensures InsertVerdict(before, node).Pass? <==>
              (node.parent.Some? ==> node.parent.value in before
                                     && Narrows(node.(asset := before[node.parent.value].asset), before[node.parent.value]))
    ensures forall v :: v in {InsertBoundVerdict(before, node), InsertVerdict(before, node)} ==>
              && (v == Fail(NotFound) <==> node.parent.Some? && node.parent.value !in before)
              && (v.Pass? ==> InsertEffect(before, node, v) == before[node.id := node])
              && (v.Fail? ==> InsertEffect(before, node, v) == before)
  {
  }

  /** Any accepted insert, fresh or not, keeps the tree narrowing if and only if it has its
      parent's asset and leaves no existing child wider than itself. */
  lemma InsertKeepsNarrowedIff(before: Nodes, node: Node)
    requires Narrowed(before) && InsertVerdict(before, node).Pass?
    ensures Narrowed(before[node.id := node]) <==> FitsIn(before, node)
  {
    var after := before[node.id := node];
    if Narrowed(after) {
      assert ParentNarrowed(after, node.id);
      forall c | c in before ensures ChildFits(before, node, c) {
        assert ParentNarrowed(after, c);
      }
    }
    if FitsIn(before, node) {
      forall id | id in after ensures ParentNarrowed(after, id) {
        if id != node.id {
          assert ParentNarrowed(before, id) && ChildFits(before, node, id);
        }
      }
    }
  }

  // ---------------------------------------------------------------------------
  // Runs
  // ---------------------------------------------------------------------------

  /** What an operation does to the shape: an accepted insert puts its node in, anything else
      keeps every node and its policy. */
  lemma StepShape(nodes: Nodes, op: Op)
    ensures if (op.Insert? || op.InsertBound?) && Overwrites(nodes, op, op.node.id)
            then Step(nodes, op) == nodes[op.node.id := op.node] && InsertVerdict(nodes, op.node).Pass?
            else Step(nodes, op).Keys == nodes.Keys && forall y :: y in nodes ==> SamePolicy(nodes[y], Step(nodes, op)[y])
  {
    if op.Spend? && Check(nodes, op.leaf, op.amount, op.now).Pass? {
      CheckCovers(nodes, op.leaf, op.amount, op.now);
    }
  }

  /** The insert an operation makes, if it is accepted. */
  function Inserted(nodes: Nodes, op: Op): Option<Node> {
    if (op.Insert? || op.InsertBound?) && Overwrites(nodes, op, op.node.id) then Some(op.node) else None
  }

  ghost predicate NoCycles(nodes: Nodes, ops: seq<Op>)
    decreases |ops|
  {
    ops != [] ==>
      && (Inserted(nodes, ops[0]).Some? ==> !ClosesCycle(nodes, ops[0].node))
      && NoCycles(Step(nodes, ops[0]), ops[1..])
  }

  predicate AllFitIn(nodes: Nodes, ops: seq<Op>)
    decreases |ops|
  {
    ops != [] ==>
      && (Inserted(nodes, ops[0]).Some? ==> FitsIn(nodes, ops[0].node))
      && AllFitIn(Step(nodes, ops[0]), ops[1..])
  }

  lemma SamePolicyRooted(before: Nodes, after: Nodes)
    requires Rooted(before) && after.Keys == before.Keys
    requires forall y :: y in before ==> SamePolicy(before[y], after[y])
    ensures Rooted(after)
  {
    forall id | id in after ensures HasPath(after, id) {
      assert HasPath(before, id);
      var chain :| IsPath(before, id, chain);
      forall i | 0 <= i < |chain| - 1 ensures Linked(after, chain, i) {
        assert Linked(before, chain, i);
      }
      assert IsPath(after, id, chain);
    }
  }

  lemma SamePolicyNarrowed(before: Nodes, after: Nodes)
    requires Narrowed(before) && after.Keys == before.Keys
    requires forall y :: y in before ==> SamePolicy(before[y], after[y])
    ensures Narrowed(after)
  {
    forall id | id in after ensures ParentNarrowed(after, id) {
      assert ParentNarrowed(before, id);
    }
  }

  lemma StepRootedIff(nodes: Nodes, op: Op)
    requires Rooted(nodes)
    ensures Rooted(Step(nodes, op)) <==> (Inserted(nodes, op).Some? ==> !ClosesCycle(nodes, op.node))
  {
    hide Rooted, ClosesCycle, Step, SamePolicy, Overwrites;
    StepShape(nodes, op);
    if Inserted(nodes, op).Some? {
      InsertKeepsRootedIff(nodes, op.node);
    } else {
      SamePolicyRooted(nodes, Step(nodes, op));
    }
  }

  lemma StepNarrowedIff(nodes: Nodes, op: Op)
    requires Narrowed(nodes)
    ensures Narrowed(Step(nodes, op)) <==> (Inserted(nodes, op).Some? ==> FitsIn(nodes, op.node))
  {
    hide Narrowed, FitsIn, Step, SamePolicy, Overwrites;
    StepShape(nodes, op);
    if Inserted(nodes, op).Some? {
      InsertKeepsNarrowedIff(nodes, op.node);
    } else {
      SamePolicyNarrowed(nodes, Step(nodes, op));
    }
  }

  ghost predicate RootedAfter(nodes: Nodes, ops: seq<Op>, k: nat)
    requires k <= |ops|
  {
    Rooted(Run(nodes, ops[..k]))
  }

  predicate NarrowedAfter(nodes: Nodes, ops: seq<Op>, k: nat)
    requires k <= |ops|
  {
    Narrowed(Run(nodes, ops[..k]))
  }

  /** Over any run of plain and asset-bound inserts, revokes and spends, every chain is rooted at
      every moment if and only if no accepted insert names a parent whose chain holds it. */
  lemma {:induction false} RootedThroughoutIff(nodes: Nodes, ops: seq<Op>)
    requires Rooted(nodes)
    ensures (forall k: nat :: k <= |ops| ==> RootedAfter(nodes, ops, k)) <==> NoCycles(nodes, ops)
    decreases |ops|
  {
    hide Step, Rooted, ClosesCycle, Run, Overwrites;
    PrefixRun(nodes, ops, 0);
    if ops != [] {
      var mid, rest := Step(nodes, ops[0]), ops[1..];
      StepRootedIff(nodes, ops[0]);
      forall k: nat | k <= |rest| ensures RootedAfter(nodes, ops, k + 1) <==> RootedAfter(mid, rest, k) {
        PrefixRun(nodes, ops, k + 1);
      }
      PrefixRun(mid, rest, 0);
      assert RootedAfter(nodes, ops, 1) <==> RootedAfter(mid, rest, 0);
      if Rooted(mid) {
        RootedThroughoutIff(mid, rest);
        forall k: nat | k <= |ops| && NoCycles(mid, rest) ensures RootedAfter(nodes, ops, k) {
          assert k > 0 ==> RootedAfter(mid, rest, k - 1);
        }
      }
    }
  }

  /** And it narrows along every chain at every moment if and only if every accepted insert fits
      in. */
  lemma {:induction false} NarrowedThroughoutIff(nodes: Nodes, ops: seq<Op>)
    requires Narrowed(nodes)
    ensures (forall k: nat :: k <= |ops| ==> NarrowedAfter(nodes, ops, k)) <==> AllFitIn(nodes, ops)
    decreases |ops|
  {
    hide Step, Narrowed, FitsIn, Run, Overwrites;
    PrefixRun(nodes, ops, 0);
    if ops != [] {
      var mid, rest := Step(nodes, ops[0]), ops[1..];
      StepNarrowedIff(nodes, ops[0]);
      forall k: nat | k <= |rest| ensures NarrowedAfter(nodes, ops, k + 1) <==> NarrowedAfter(mid, rest, k) {
        PrefixRun(nodes, ops, k + 1);
      }
      PrefixRun(mid, rest, 0);
      assert NarrowedAfter(nodes, ops, 1) <==> NarrowedAfter(mid, rest, 0);
      if Narrowed(mid) {
        NarrowedThroughoutIff(mid, rest);
        forall k: nat | k <= |ops| && AllFitIn(mid, rest) ensures NarrowedAfter(nodes, ops, k) {
          assert k > 0 ==> NarrowedAfter(mid, rest, k - 1);
        }
      }
    }
  }

  /** Every insert of the run goes through the asset-bound entry point with an identifier
      not present at that moment. */
  predicate FreshAssetBound(nodes: Nodes, ops: seq<Op>)
    decreases |ops|
  {
    ops != [] ==>
      && !ops[0].Insert?
      && (ops[0].InsertBound? ==> ops[0].node.id !in nodes)
      && FreshAssetBound(Step(nodes, ops[0]), ops[1..])
  }

  /** Fresh identifiers close no cycle and widen nothing. */
  lemma {:induction false} FreshInsertsFitIn(nodes: Nodes, ops: seq<Op>)
    requires Rooted(nodes) && Narrowed(nodes) && FreshAssetBound(nodes, ops)
    ensures NoCycles(nodes, ops) && AllFitIn(nodes, ops)
    decreases |ops|
  {
    hide Rooted, Narrowed, Step, FitsIn, ClosesCycle;
    if ops != [] {
      if Inserted(nodes, ops[0]).Some? {
        FreshFitsIn(nodes, ops[0].node);
      }
      StepRootedIff(nodes, ops[0]);
      StepNarrowedIff(nodes, ops[0]);
      FreshInsertsFitIn(Step(nodes, ops[0]), ops[1..]);
    }
  }

  /** Every insert, plain or asset-bound, is made with an identifier not present at that moment:
      what the node's own `do_mandate_create` ensures before it calls either. */
  predicate AllFresh(nodes: Nodes, ops: seq<Op>)
    decreases |ops|
  {
    ops != [] ==>
      && (ops[0].Insert? || ops[0].InsertBound? ==> ops[0].node.id !in nodes)
      && AllFresh(Step(nodes, ops[0]), ops[1..])
  }

  lemma {:induction false} FreshNeverReinserts(nodes: Nodes, ops: seq<Op>, x: MandateId)
    requires AllFresh(nodes, ops) && x in nodes
    ensures NeverReinserted(ops, x)
    decreases |ops|
  {
    if ops != [] {
      StepBudget(nodes, ops[0], x);
      hide Step;
      FreshNeverReinserts(Step(nodes, ops[0]), ops[1..], x);
      forall i | 0 < i < |ops| ensures !Inserts(ops[i], x) {
        assert ops[1..][i - 1] == ops[i];
      }
    }
  }

  lemma {:induction false} FreshClosesNoCycles(nodes: Nodes, ops: seq<Op>)
    requires AllFresh(nodes, ops) && Rooted(nodes)
    ensures NoCycles(nodes, ops)
    decreases |ops|
  {
    hide Step, Rooted, ClosesCycle, Overwrites;
    if ops != [] {
      StepRootedIff(nodes, ops[0]);
      FreshClosesNoCycle(nodes, ops[0]);
      FreshClosesNoCycles(Step(nodes, ops[0]), ops[1..]);
    }
  }

  lemma {:induction false} NeverReinsertedNeverRevived(nodes: Nodes, ops: seq<Op>, x: MandateId)
    requires NeverReinserted(ops, x)
    ensures NeverRevived(nodes, ops, x)
    decreases |ops|
  {
    hide Step;
    if ops != [] {
      NeverReinsertedNeverRevived(Step(nodes, ops[0]), ops[1..], x);
    }
  }

  /** Under that guard no node present is ever inserted over, so none is refilled or revived, and
      no chain becomes a cycle, whatever else the run does. */
  lemma FreshRunsKeepPromises(nodes: Nodes, ops: seq<Op>, x: MandateId, horizon: int, budget: int)
    requires Rooted(nodes) && AllFresh(nodes, ops) && x in nodes
    ensures NeverReinserted(ops, x) && NeverRevived(nodes, ops, x) && RefillsFit(nodes, ops, x, horizon, budget)
    ensures NoCycles(nodes, ops)
  {
    FreshNeverReinserts(nodes, ops, x);
    NeverReinsertedNeverRevived(nodes, ops, x);
    NeverReinsertedFits(nodes, ops, x, horizon, budget);
    FreshClosesNoCycles(nodes, ops);
  }

  lemma FreshClosesNoCycle(nodes: Nodes, op: Op)
    requires op.Insert? || op.InsertBound? ==> op.node.id !in nodes
    ensures Inserted(nodes, op).Some? ==> !ClosesCycle(nodes, op.node)
  {
  }

  lemma FreshFitsIn(before: Nodes, node: Node)
    requires Narrowed(before) && node.id !in before && InsertBoundVerdict(before, node).Pass?
    ensures FitsIn(before, node) && !ClosesCycle(before, node)
  {
    forall c | c in before ensures ChildFits(before, node, c) {
      assert ParentNarrowed(before, c);
    }
  }

  // ---------------------------------------------------------------------------
  // What the shape gives
  // ---------------------------------------------------------------------------

  lemma {:induction false} NarrowsAlongChain(nodes: Nodes, leaf: MandateId, chain: seq<MandateId>, d: nat)
    requires Narrowed(nodes) && IsPath(nodes, leaf, chain) && d < |chain|
    ensures Narrows(nodes[leaf], nodes[chain[d]])
  {
    if d > 0 {
      NarrowsAlongChain(nodes, leaf, chain, d - 1);
      assert Linked(nodes, chain, d - 1);
      assert ParentNarrowed(nodes, chain[d - 1]);
    }
  }

  lemma EmptyTree()
    ensures Rooted(map[]) && Narrowed(map[])
  {
  }

  lemma GrownShape(ops: seq<Op>)
    ensures AllFitIn(map[], ops) ==> Narrowed(Run(map[], ops))
    ensures NoCycles(map[], ops) ==> Rooted(Run(map[], ops))
  {
    hide Rooted, Narrowed, Run, NoCycles, AllFitIn;
    EmptyTree();
    RootedThroughoutIff(map[], ops);
    NarrowedThroughoutIff(map[], ops);
    assert ops[..|ops|] == ops;
    assert NarrowedAfter(map[], ops, |ops|) <==> Narrowed(Run(map[], ops));
    assert RootedAfter(map[], ops, |ops|) <==> Rooted(Run(map[], ops));
  }

  /** In every tree grown from nothing by inserts that fit in, the chain of a node carries one
      asset, and expiry and per-transaction cap only widen towards the root, at any depth. */
  lemma SingleAssetByConstruction(ops: seq<Op>, leaf: MandateId, chain: seq<MandateId>, d: nat)
    requires AllFitIn(map[], ops)
    requires IsPath(Run(map[], ops), leaf, chain) && d < |chain|
    ensures Narrows(Run(map[], ops)[leaf], Run(map[], ops)[chain[d]])
  {
    GrownShape(ops);
    NarrowsAlongChain(Run(map[], ops), leaf, chain, d);
  }

  /** Hence a spend there is refused for expiry or for the per-transaction cap only by the
      leaf itself. */
  lemma PolicyRefusalsOnlyAtLeaf(ops: seq<Op>, leaf: MandateId, amount: u128, now: u64)
    requires AllFitIn(map[], ops)
    ensures forall d :: Check(Run(map[], ops), leaf, amount, now) == Fail(Expired(d)) ==> d == 0
    ensures forall d :: Check(Run(map[], ops), leaf, amount, now) == Fail(PerTxCap(d)) ==> d == 0
  {
    var nodes := Run(map[], ops);
    ChainErrorIff(nodes, leaf, MAX_DEPTH);
    if ChainOf(nodes, leaf).Ok? {
      var chain := ChainOf(nodes, leaf).value;
      ChainFromIsPath(nodes, leaf, MAX_DEPTH);
      CheckFromVerdict(nodes, chain, 0, amount, now);
      forall i | 0 <= i < |chain| ensures Narrows(nodes[leaf], nodes[chain[i]]) {
        SingleAssetByConstruction(ops, leaf, chain, i);
      }
    }
  }

  /** And in every tree grown without closing a cycle, identifiers fresh or not, every present
      node's chain resolves unless it is genuinely longer than 64. */
  lemma GrownTreesResolve(ops: seq<Op>, leaf: MandateId)
    requires NoCycles(map[], ops)
    requires leaf in Run(map[], ops)
    ensures exists chain :: IsPath(Run(map[], ops), leaf, chain)
                         && ChainOf(Run(map[], ops), leaf)
                            == if |chain| <= MAX_DEPTH then Ok(chain) else Err(BadChain)
  {
    GrownShape(ops);
    assert HasPath(Run(map[], ops), leaf);
    var chain :| IsPath(Run(map[], ops), leaf, chain);
    ChainOfCorrect(Run(map[], ops), leaf, chain);
  }

  lemma ThreeInserts(a: Node, b: Node, c: Node)
    requires a.id == c.id != b.id && a.parent == None && b.parent == Some(a.id)
    requires a.asset == b.asset && a.expiry == b.expiry && a.perTxMax == b.perTxMax
    requires c.parent in {None, Some(b.id)} && c.asset == a.asset && c.expiry <= a.expiry && c.perTxMax == a.perTxMax
    ensures Run(map[], [InsertBound(a), InsertBound(b), InsertBound(c)]) == map[a.id := c, b.id := b]
  {
    var n1 := Step(map[], InsertBound(a));
    var n2 := Step(n1, InsertBound(b));
    var n3 := Step(n2, InsertBound(c));
    var ops := [InsertBound(a), InsertBound(b), InsertBound(c)];
    assert ops[1..] == [InsertBound(b), InsertBound(c)] && ops[1..][1..] == [InsertBound(c)] && [InsertBound(c)][1..] == [];
    assert n3 == map[a.id := c, b.id := b];
    assert Run(n3, []) == n3;
    assert Run(n2, [InsertBound(c)]) == n3;
    assert Run(n1, [InsertBound(b), InsertBound(c)]) == n3;
    assert Run(map[], ops) == n3;
  }

  /** A cycle does arise: three accepted inserts, the last under a used identifier, and no chain
      of it resolves. */
  lemma ReinsertionCanCycle(a: Node, b: Node)
    requires a.id != b.id && a.parent == None && b.parent == Some(a.id)
    requires a.asset == b.asset && a.expiry == b.expiry && a.perTxMax == b.perTxMax
    ensures ChainOf(Run(map[], [InsertBound(a), InsertBound(b), InsertBound(a.(parent := Some(b.id)))]), a.id).Err?
  {
    var c := a.(parent := Some(b.id));
    var n3: Nodes := map[a.id := c, b.id := b];
    ThreeInserts(a, b, c);
    if ChainOf(n3, a.id).Ok? {
      var path := ChainOf(n3, a.id).value;
      ChainOfCorrect(n3, a.id, path);
    }
  }

  /** And so does a child wider than its parent: a root reinserted with an earlier expiry leaves a
      child that outlives it, whose spends are then refused for expiry at depth 1. */
  lemma ReinsertionCanWiden(a: Node, b: Node, expiry: u64, now: u64)
    requires a.id != b.id && a.parent == None && b.parent == Some(a.id) && !a.revoked && !b.revoked
    requires a.asset == b.asset && a.expiry == b.expiry && a.perTxMax == b.perTxMax
    requires expiry <= now < b.expiry
    ensures
      var nodes := Run(map[], [InsertBound(a), InsertBound(b), InsertBound(a.(expiry := expiry))]);
      && !Narrowed(nodes) && Check(nodes, b.id, 0, now) == Fail(Expired(1))
  {
    var c := a.(expiry := expiry);
    var nodes: Nodes := map[a.id := c, b.id := b];
    ThreeInserts(a, b, c);
    assert !ParentNarrowed(nodes, b.id);
    var path := [b.id, a.id];
    assert Linked(nodes, path, 0);
    assert IsPath(nodes, b.id, path);
    ChainOfCorrect(nodes, b.id, path);
    CheckFromVerdict(nodes, path, 0, 0, now);
    assert Clears(nodes[path[0]], 0, now);
    assert Refusal(nodes[path[1]], 1, 0, now) == Some(Expired(1));
  }
}
