/** Whole-run theorems about the mandate tree: a run is any sequence of inserts, revokes
    and spends, accepted or refused, at clock values in any order. */
module MandateRuns {
  import opened Machine
  import opened Mandate

  datatype Op =
    | Insert(node: Node)
    | InsertBound(node: Node)
    | Revoke(id: MandateId)
    | Spend(leaf: MandateId, amount: u128, now: u64)

  function Step(nodes: Nodes, op: Op): Nodes {
    match op
    case Insert(node) => InsertEffect(nodes, node, InsertVerdict(nodes, node))
    case InsertBound(node) => InsertEffect(nodes, node, InsertBoundVerdict(nodes, node))
    case Revoke(id) => RevokeEffect(nodes, id)
    case Spend(leaf, amount, now) => SpendEffect(nodes, leaf, amount, now)
  }

  function Run(nodes: Nodes, ops: seq<Op>): Nodes
    decreases |ops|
  {
    if ops == [] then nodes else Run(Step(nodes, ops[0]), ops[1..])
  }

  predicate Inserts(op: Op, x: MandateId) {
    (op.Insert? || op.InsertBound?) && op.node.id == x
  }

  /** No operation of the run inserts at `x`: the identifier is not used a second time. */
  predicate NeverReinserted(ops: seq<Op>, x: MandateId) {
    forall i :: 0 <= i < |ops| ==> !Inserts(ops[i], x)
  }

  /** `op` is a spend that succeeds from a leaf in the subtree of `x`. */
  predicate ChargesThrough(nodes: Nodes, op: Op, x: MandateId) {
    && op.Spend?
    && Check(nodes, op.leaf, op.amount, op.now).Pass?
    && ChainOf(nodes, op.leaf).Ok?
    && x in ChainOf(nodes, op.leaf).value
  }

  function Charge(nodes: Nodes, op: Op, x: MandateId): nat {
    if ChargesThrough(nodes, op, x) then op.amount else 0
  }

  /** Total of all successful spends made from the subtree of `x` during the run. */
  function SpentThrough(nodes: Nodes, ops: seq<Op>, x: MandateId): nat
    decreases |ops|
  {
    if ops == [] then 0 else Charge(nodes, ops[0], x) + SpentThrough(Step(nodes, ops[0]), ops[1..], x)
  }

  predicate SamePolicy(a: Node, b: Node) {
    && a.id == b.id && a.parent == b.parent && a.asset == b.asset
    && a.rate == b.rate && a.bufferMax == b.bufferMax && a.perTxMax == b.perTxMax && a.expiry == b.expiry
  }

  // ---------------------------------------------------------------------------
  // The budget
  // ---------------------------------------------------------------------------

  lemma StepBudget(nodes: Nodes, op: Op, x: MandateId)
    requires x in nodes && !Inserts(op, x)
    ensures x in Step(nodes, op)
    ensures SamePolicy(nodes[x], Step(nodes, op)[x])
    ensures nodes[x].revoked ==> Step(nodes, op)[x].revoked
    ensures nodes[x].lastAccrual <= Step(nodes, op)[x].lastAccrual
    ensures Charge(nodes, op, x) + Step(nodes, op)[x].buffer
            <= nodes[x].buffer + nodes[x].rate * (Step(nodes, op)[x].lastAccrual - nodes[x].lastAccrual)
  {
    hide ChainOf, CheckFrom, Projected;
    if op.Spend? && Check(nodes, op.leaf, op.amount, op.now).Pass? {
      CheckCovers(nodes, op.leaf, op.amount, op.now);
      AccrualBounds(nodes[x], op.now);
      hide Accrue;
    }
  }

  /** The envelope theorem. For every node of any tree and every run that does not reuse
      its identifier, in any order of clock values: what left through its subtree plus what
      it still holds never exceeds what it held plus its rate times the time it accrued. */
  lemma {:induction false} BudgetConserved(nodes: Nodes, ops: seq<Op>, x: MandateId)
    requires x in nodes && NeverReinserted(ops, x)
    ensures x in Run(nodes, ops)
    ensures SamePolicy(nodes[x], Run(nodes, ops)[x])
    ensures nodes[x].lastAccrual <= Run(nodes, ops)[x].lastAccrual
    ensures SpentThrough(nodes, ops, x) + Run(nodes, ops)[x].buffer
            <= nodes[x].buffer + nodes[x].rate * (Run(nodes, ops)[x].lastAccrual - nodes[x].lastAccrual)
    decreases |ops|
  {
    hide Step, Charge, SamePolicy;
    if ops != [] {
      var mid := Step(nodes, ops[0]);
      StepBudget(nodes, ops[0], x);
      BudgetConserved(mid, ops[1..], x);
      SamePolicyComposes(nodes[x], mid[x], Run(nodes, ops)[x]);
      BudgetsCompose(Charge(nodes, ops[0], x), SpentThrough(mid, ops[1..], x), nodes[x], mid[x], Run(nodes, ops)[x]);
    } else {
      SamePolicyComposes(nodes[x], nodes[x], nodes[x]);
    }
  }

  /** A spend through `x` after which its cap keeps part of the drip away. */
  predicate CutsDrip(nodes: Nodes, op: Op, x: MandateId) {
    && ChargesThrough(nodes, op, x) && x in nodes && op.now > nodes[x].lastAccrual
    && nodes[x].buffer + nodes[x].rate * (op.now - nodes[x].lastAccrual) > nodes[x].bufferMax
  }

  predicate NeverCut(nodes: Nodes, ops: seq<Op>, x: MandateId)
    decreases |ops|
  {
    ops != [] ==> !CutsDrip(nodes, ops[0], x) && NeverCut(Step(nodes, ops[0]), ops[1..], x)
  }

  lemma StepBudgetExact(nodes: Nodes, op: Op, x: MandateId)
    requires x in nodes && !Inserts(op, x)
    ensures x in Step(nodes, op) && SamePolicy(nodes[x], Step(nodes, op)[x])
    ensures nodes[x].lastAccrual <= Step(nodes, op)[x].lastAccrual
    ensures !CutsDrip(nodes, op, x) <==>
              Charge(nodes, op, x) + Step(nodes, op)[x].buffer
              == nodes[x].buffer + nodes[x].rate * (Step(nodes, op)[x].lastAccrual - nodes[x].lastAccrual)
  {
    hide *;
    StepBudget(nodes, op, x);
    if op.Spend? && Check(nodes, op.leaf, op.amount, op.now).Pass? {
      SpendBudgetExact(nodes, op, x);
    } else {
      RefusedMovesNothing(nodes, op, x);
      NoTimeNoDrip(nodes[x].rate, nodes[x].lastAccrual);
    }
  }

  lemma NoTimeNoDrip(rate: nat, stamp: nat)
    ensures rate * (stamp - stamp) == 0
  {
  }

  lemma RefusedMovesNothing(nodes: Nodes, op: Op, x: MandateId)
    requires x in nodes && !Inserts(op, x) && !(op.Spend? && Check(nodes, op.leaf, op.amount, op.now).Pass?)
    ensures x in Step(nodes, op) && Step(nodes, op)[x].buffer == nodes[x].buffer
    ensures Step(nodes, op)[x].lastAccrual == nodes[x].lastAccrual && Charge(nodes, op, x) == 0 && !CutsDrip(nodes, op, x)
  {
    hide Check, ChainOf;
  }

  lemma SpendBudgetExact(nodes: Nodes, op: Op, x: MandateId)
    requires x in nodes && op.Spend? && Check(nodes, op.leaf, op.amount, op.now).Pass?
    ensures x in Step(nodes, op)
    ensures !CutsDrip(nodes, op, x) <==>
              Charge(nodes, op, x) + Step(nodes, op)[x].buffer
              == nodes[x].buffer + nodes[x].rate * (Step(nodes, op)[x].lastAccrual - nodes[x].lastAccrual)
  {
    hide SpendEffect, Check, ChainOf;
    CheckedHasChain(nodes, op.leaf, op.amount, op.now);
    var n, chain := nodes[x], ChainOf(nodes, op.leaf).value;
    SpendLeavesExactly(nodes, op.leaf, chain, op.amount, op.now, x);
    hide IsPath;
    NoTimeNoDrip(n.rate, n.lastAccrual);
    var drip := n.rate * (op.now - n.lastAccrual);
    if x in chain && op.now > n.lastAccrual {
      assert Step(nodes, op)[x].lastAccrual == op.now;
    } else {
      assert Step(nodes, op)[x].lastAccrual == n.lastAccrual && !CutsDrip(nodes, op, x);
    }
  }

  lemma CheckedHasChain(nodes: Nodes, leaf: MandateId, amount: u128, now: u64)
    requires Check(nodes, leaf, amount, now).Pass?
    ensures ChainOf(nodes, leaf).Ok? && IsPath(nodes, leaf, ChainOf(nodes, leaf).value) && |ChainOf(nodes, leaf).value| <= MAX_DEPTH
  {
    ChainFromIsPath(nodes, leaf, MAX_DEPTH);
  }

  /** The budget to the last unit: over a run that leaves the identifier alone, what left through
      the subtree plus what the node holds is all it held and all its rate gave it up to its stamp
      if and only if its cap never cut a credit. */
  lemma {:induction false} BudgetExactIff(nodes: Nodes, ops: seq<Op>, x: MandateId)
    requires x in nodes && NeverReinserted(ops, x)
    ensures x in Run(nodes, ops)
    ensures SpentThrough(nodes, ops, x) + Run(nodes, ops)[x].buffer
              == nodes[x].buffer + nodes[x].rate * (Run(nodes, ops)[x].lastAccrual - nodes[x].lastAccrual)
            <==> NeverCut(nodes, ops, x)
    decreases |ops|
  {
    hide Step, Charge, SamePolicy, CutsDrip;
    if ops != [] {
      var mid := Step(nodes, ops[0]);
      StepBudget(nodes, ops[0], x);
      StepBudgetExact(nodes, ops[0], x);
      BudgetExactIff(mid, ops[1..], x);
      BudgetConserved(mid, ops[1..], x);
      SamePolicyComposes(nodes[x], mid[x], Run(nodes, ops)[x]);
      SplitInterval(nodes[x].rate, nodes[x].lastAccrual, mid[x].lastAccrual, Run(nodes, ops)[x].lastAccrual);
    }
  }

  lemma SamePolicyComposes(a: Node, b: Node, c: Node)
    ensures SamePolicy(a, a)
    ensures SamePolicy(a, b) && SamePolicy(b, c) ==> SamePolicy(a, c) && a.rate == b.rate == c.rate
  {
  }

  lemma BudgetsCompose(first: nat, later: nat, a: Node, b: Node, c: Node)
    requires a.rate == b.rate && a.lastAccrual <= b.lastAccrual <= c.lastAccrual
    requires first + b.buffer <= a.buffer + a.rate * (b.lastAccrual - a.lastAccrual)
    requires later + c.buffer <= b.buffer + b.rate * (c.lastAccrual - b.lastAccrual)
    ensures first + later + c.buffer <= a.buffer + a.rate * (c.lastAccrual - a.lastAccrual)
  {
    SplitInterval(a.rate, a.lastAccrual, b.lastAccrual, c.lastAccrual);
  }

  lemma SplitInterval(rate: nat, a: nat, b: nat, c: nat)
    requires a <= b <= c
    ensures rate * (c - a) == rate * (b - a) + rate * (c - b) && rate * (c - b) >= 0
  {
    assert c - a == (b - a) + (c - b);
  }

  // ---------------------------------------------------------------------------
  // The budget when the identifier is used again
  // ---------------------------------------------------------------------------

  /** What a node can let through up to a horizon: what it holds and what it accrues by then. */
  function Promise(n: Node, horizon: int): int {
    n.buffer + n.rate * (horizon - n.lastAccrual)
  }

  /** `op` is an insert at `x` that is accepted: it overwrites what was there. */
  predicate Overwrites(nodes: Nodes, op: Op, x: MandateId) {
    Inserts(op, x) && (if op.Insert? then InsertVerdict(nodes, op.node) else InsertBoundVerdict(nodes, op.node)).Pass?
  }

  /** Every overwriting insert promises at most what is left of `budget` when it is made. */
  predicate RefillsFit(nodes: Nodes, ops: seq<Op>, x: MandateId, horizon: int, budget: int)
    decreases |ops|
  {
    ops != [] ==>
      && (Overwrites(nodes, ops[0], x) ==> Promise(ops[0].node, horizon) <= budget)
      && RefillsFit(Step(nodes, ops[0]), ops[1..], x, horizon, budget - Charge(nodes, ops[0], x))
  }

  /** After the first `k` operations: what left and what can still leave is within `budget`. */
  predicate WithinBudget(nodes: Nodes, ops: seq<Op>, x: MandateId, horizon: int, budget: int, k: nat)
    requires k <= |ops|
  {
    && x in Run(nodes, ops[..k])
    && SpentThrough(nodes, ops[..k], x) + Promise(Run(nodes, ops[..k])[x], horizon) <= budget
  }

  lemma StepPromise(nodes: Nodes, op: Op, x: MandateId, horizon: int)
    requires x in nodes
    ensures x in Step(nodes, op)
    ensures Overwrites(nodes, op, x) ==> Charge(nodes, op, x) == 0 && Step(nodes, op)[x] == op.node
    ensures !Overwrites(nodes, op, x) ==>
              Charge(nodes, op, x) + Promise(Step(nodes, op)[x], horizon) <= Promise(nodes[x], horizon)
  {
    hide SpendEffect, Check, ChainOf;
    if !Inserts(op, x) {
      StepBudget(nodes, op, x);
      var a, b := nodes[x], Step(nodes, op)[x];
      assert a.rate == b.rate;
      assert horizon - a.lastAccrual == (b.lastAccrual - a.lastAccrual) + (horizon - b.lastAccrual);
      assert a.rate * (horizon - a.lastAccrual) == a.rate * (b.lastAccrual - a.lastAccrual) + a.rate * (horizon - b.lastAccrual);
    }
  }

  lemma PrefixRun(nodes: Nodes, ops: seq<Op>, k: nat)
    requires k <= |ops|
    ensures k == 0 ==> Run(nodes, ops[..k]) == nodes
    ensures k > 0 ==> Run(nodes, ops[..k]) == Run(Step(nodes, ops[0]), ops[1..][..k - 1])
  {
    hide Step;
    if k > 0 {
      assert ops[..k][0] == ops[0] && ops[..k][1..] == ops[1..][..k - 1];
    }
  }

  lemma PrefixSpent(nodes: Nodes, ops: seq<Op>, x: MandateId, k: nat)
    requires 0 < k <= |ops|
    ensures SpentThrough(nodes, ops[..k], x)
            == Charge(nodes, ops[0], x) + SpentThrough(Step(nodes, ops[0]), ops[1..][..k - 1], x)
  {
    hide Step, Charge;
    assert ops[..k][0] == ops[0] && ops[..k][1..] == ops[1..][..k - 1];
  }

  /** The envelope with identifiers used again, exactly: at every moment of a run the subtree's
      spending and the node's promise up to a horizon stay within the budget if and only if no
      overwriting insert promised more than was left of it. */
  lemma {:induction false} EnvelopeHoldsIff(nodes: Nodes, ops: seq<Op>, x: MandateId, horizon: int, budget: int)
    requires x in nodes && Promise(nodes[x], horizon) <= budget
    ensures (forall k: nat :: k <= |ops| ==> WithinBudget(nodes, ops, x, horizon, budget, k))
       <==> RefillsFit(nodes, ops, x, horizon, budget)
    decreases |ops|
  {
    hide Step, Charge, Overwrites, Promise;
    assert WithinBudget(nodes, ops, x, horizon, budget, 0) by {
      assert ops[..0] == [];
    }
    if ops != [] {
      var mid, rest := Step(nodes, ops[0]), ops[1..];
      var left := budget - Charge(nodes, ops[0], x);
      StepPromise(nodes, ops[0], x, horizon);
      forall k: nat | 0 < k <= |ops|
        ensures WithinBudget(nodes, ops, x, horizon, budget, k) <==> WithinBudget(mid, rest, x, horizon, left, k - 1)
      {
        PrefixRun(nodes, ops, k);
        PrefixSpent(nodes, ops, x, k);
      }
      if Promise(mid[x], horizon) <= left {
        EnvelopeHoldsIff(mid, rest, x, horizon, left);
        ShiftedPrefixes(nodes, ops, x, horizon, budget, mid, left);
      } else {
        assert rest[..0] == [];
        assert !WithinBudget(mid, rest, x, horizon, left, 0);
        assert !WithinBudget(nodes, ops, x, horizon, budget, 1);
      }
    }
  }

  lemma ShiftedPrefixes(nodes: Nodes, ops: seq<Op>, x: MandateId, horizon: int, budget: int, mid: Nodes, left: int)
    requires ops != [] && WithinBudget(nodes, ops, x, horizon, budget, 0)
    requires forall k: nat :: 0 < k <= |ops| ==>
               (WithinBudget(nodes, ops, x, horizon, budget, k) <==> WithinBudget(mid, ops[1..], x, horizon, left, k - 1))
    ensures (forall k: nat :: k <= |ops| ==> WithinBudget(nodes, ops, x, horizon, budget, k))
       <==> (forall k: nat :: k <= |ops[1..]| ==> WithinBudget(mid, ops[1..], x, horizon, left, k))
  {
    hide WithinBudget;
    if forall k: nat :: k <= |ops| ==> WithinBudget(nodes, ops, x, horizon, budget, k) {
      forall k: nat | k <= |ops[1..]| ensures WithinBudget(mid, ops[1..], x, horizon, left, k) {
        assert WithinBudget(nodes, ops, x, horizon, budget, k + 1);
      }
    }
  }

  lemma {:induction false} NeverReinsertedFits(nodes: Nodes, ops: seq<Op>, x: MandateId, horizon: int, budget: int)
    requires NeverReinserted(ops, x)
    ensures RefillsFit(nodes, ops, x, horizon, budget)
    decreases |ops|
  {
    hide Step, Charge;
    if ops != [] {
      NeverReinsertedFits(Step(nodes, ops[0]), ops[1..], x, horizon, budget - Charge(nodes, ops[0], x));
    }
  }

  /** One reinsertion in the terms of the stamps: with a rate no higher than the old one, every
      continuation that leaves the identifier alone stays in the old node's envelope if and only
      if the new buffer fits what the old node would have held by the new stamp. */
  lemma ReinsertionKeepsEnvelopeIff(before: Nodes, node: Node)
    requires node.id in before && InsertVerdict(before, node).Pass? && node.rate <= before[node.id].rate
    ensures (forall ops :: NeverReinserted(ops, node.id) ==> InEnvelopeOf(before[node.id], before[node.id := node], ops, node.id))
       <==> node.buffer <= Promise(before[node.id], node.lastAccrual)
  {
    hide Run, SpentThrough;
    var o, x, after := before[node.id], node.id, before[node.id := node];
    if node.buffer <= Promise(o, node.lastAccrual) {
      forall ops | NeverReinserted(ops, x) ensures InEnvelopeOf(o, after, ops, x) {
        BudgetConserved(after, ops, x);
        LowerRateAccruesLess(o, node, Run(after, ops)[x].lastAccrual);
      }
    } else {
      RunNothing(after, x);
      assert NeverReinserted([], x) && !InEnvelopeOf(o, after, [], x);
    }
  }

  /** What a run from `after` spends and leaves at `x`, against the promise of `o`. */
  ghost predicate InEnvelopeOf(o: Node, after: Nodes, ops: seq<Op>, x: MandateId) {
    && x in Run(after, ops)
    && SpentThrough(after, ops, x) + Run(after, ops)[x].buffer <= Promise(o, Run(after, ops)[x].lastAccrual)
  }

  lemma RunNothing(nodes: Nodes, x: MandateId)
    ensures Run(nodes, []) == nodes && SpentThrough(nodes, [], x) == 0
  {
  }

  lemma LowerRateAccruesLess(o: Node, n: Node, stamp: nat)
    requires n.rate <= o.rate && n.lastAccrual <= stamp && n.buffer <= Promise(o, n.lastAccrual)
    ensures n.buffer + n.rate * (stamp - n.lastAccrual) <= Promise(o, stamp)
  {
    var t := stamp - n.lastAccrual;
    assert stamp - o.lastAccrual == (n.lastAccrual - o.lastAccrual) + t;
    assert o.rate * (stamp - o.lastAccrual) == o.rate * (n.lastAccrual - o.lastAccrual) + o.rate * t;
    assert o.rate * t - n.rate * t == (o.rate - n.rate) * t >= 0;
  }

  lemma {:induction false} AccrualFollowsClock(nodes: Nodes, ops: seq<Op>, x: MandateId, latest: nat)
    requires x in nodes && nodes[x].lastAccrual <= latest && ByClock(ops, x, latest)
    ensures x in Run(nodes, ops) && Run(nodes, ops)[x].lastAccrual <= latest
    decreases |ops|
  {
    if ops != [] {
      var op := ops[0];
      StepFollowsClock(nodes, op, x, latest);
      AccrualFollowsClock(Step(nodes, op), ops[1..], x, latest);
    }
  }

  lemma StepFollowsClock(nodes: Nodes, op: Op, x: MandateId, latest: nat)
    requires x in nodes && nodes[x].lastAccrual <= latest && ByClock([op], x, latest)
    ensures x in Step(nodes, op) && Step(nodes, op)[x].lastAccrual <= latest
  {
    assert [op][0] == op;
    if !Inserts(op, x) {
      StepBudget(nodes, op, x);
      if op.Spend? && Check(nodes, op.leaf, op.amount, op.now).Pass? {
        CheckCovers(nodes, op.leaf, op.amount, op.now);
        AccrualBounds(nodes[x], op.now);
      }
    }
  }

  /** No spend and no stamp inserted at `x` lies past `latest`. */
  predicate ByClock(ops: seq<Op>, x: MandateId, latest: nat) {
    forall i :: 0 <= i < |ops| ==>
      && (ops[i].Spend? ==> ops[i].now <= latest)
      && (Inserts(ops[i], x) ==> ops[i].node.lastAccrual <= latest)
  }

  lemma {:induction false} RunAppend(nodes: Nodes, a: seq<Op>, b: seq<Op>)
    ensures Run(nodes, a + b) == Run(Run(nodes, a), b)
    decreases |a|
  {
    if a == [] {
      assert a + b == b;
    } else {
      assert (a + b)[1..] == a[1..] + b;
      RunAppend(Step(nodes, a[0]), a[1..], b);
    }
  }

  /** The envelope against the wall clock: its subtree spends at most what a node holds plus
      its rate times the time from its accrual stamp to the latest spend, also across
      reinsertions that fit what is left. */
  lemma EnvelopeByClock(nodes: Nodes, ops: seq<Op>, x: MandateId, latest: nat)
    requires x in nodes && nodes[x].lastAccrual <= latest && ByClock(ops, x, latest)
    requires RefillsFit(nodes, ops, x, latest, Promise(nodes[x], latest))
    ensures SpentThrough(nodes, ops, x) <= nodes[x].buffer + nodes[x].rate * (latest - nodes[x].lastAccrual)
  {
    hide Step, Charge, SpentThrough, Run, RefillsFit;
    EnvelopeHoldsIff(nodes, ops, x, latest, Promise(nodes[x], latest));
    AccrualFollowsClock(nodes, ops, x, latest);
    assert WithinBudget(nodes, ops, x, latest, Promise(nodes[x], latest), |ops|);
    assert ops[..|ops|] == ops;
    var end := Run(nodes, ops)[x];
    SplitInterval(end.rate, end.lastAccrual, end.lastAccrual, latest);
  }

  /** The same envelope in the terms of the node's creation: whatever happened before, from
      the insert of `node` on its subtree can spend at most its initial buffer plus its rate
      times the time from its creation stamp to the latest spend. */
  lemma EnvelopeFromCreation(before: seq<Op>, node: Node, after: seq<Op>, latest: nat)
    requires InsertBoundVerdict(Run(map[], before), node).Pass?
    requires NeverReinserted(after, node.id)
    requires node.lastAccrual <= latest
    requires forall i :: 0 <= i < |after| && after[i].Spend? ==> after[i].now <= latest
    ensures SpentThrough(Run(map[], before + [InsertBound(node)]), after, node.id)
            <= node.buffer + node.rate * (latest - node.lastAccrual)
  {
    hide SpentThrough, InsertBoundVerdict;
    RunAppend(map[], before, [InsertBound(node)]);
    RunOne(Run(map[], before), InsertBound(node));
    NeverReinsertedFits(Run(map[], before + [InsertBound(node)]), after, node.id, latest, Promise(node, latest));
    EnvelopeByClock(Run(map[], before + [InsertBound(node)]), after, node.id, latest);
  }

  lemma RunOne(nodes: Nodes, op: Op)
    ensures Run(nodes, [op]) == Step(nodes, op)
  {
    assert [op][1..] == [];
    hide Step;
    assert Run(Step(nodes, op), []) == Step(nodes, op);
  }

  // ---------------------------------------------------------------------------
  // Oversubscribed children share one envelope
  // ---------------------------------------------------------------------------

  ghost predicate ChildrenOf(nodes: Nodes, x: MandateId, cs: seq<MandateId>) {
    && NoDuplicates(cs)
    && forall i :: 0 <= i < |cs| ==> cs[i] in nodes && nodes[cs[i]].parent == Some(x)
  }

  /** No insert of the run puts `c` under another parent than `x`. */
  predicate NeverMoved(ops: seq<Op>, c: MandateId, x: MandateId) {
    forall i :: 0 <= i < |ops| && Inserts(ops[i], c) ==> ops[i].node.parent == Some(x)
  }

  function ChargeEach(nodes: Nodes, op: Op, cs: seq<MandateId>): nat {
    if cs == [] then 0 else Charge(nodes, op, cs[0]) + ChargeEach(nodes, op, cs[1..])
  }

  function SpentThroughEach(nodes: Nodes, ops: seq<Op>, cs: seq<MandateId>): nat {
    if cs == [] then 0 else SpentThrough(nodes, ops, cs[0]) + SpentThroughEach(nodes, ops, cs[1..])
  }

  /** A chain holds at most one child of any node, and then it holds the node too. */
  lemma ChainThroughChild(nodes: Nodes, leaf: MandateId, chain: seq<MandateId>, x: MandateId, c: MandateId, d: MandateId)
    requires IsPath(nodes, leaf, chain)
    requires c in chain && nodes[c].parent == Some(x)
    requires d in chain && nodes[d].parent == Some(x)
    ensures x in chain && c == d
  {
    PathHasNoDuplicates(nodes, leaf, chain);
    var i :| 0 <= i < |chain| && chain[i] == c;
    var j :| 0 <= j < |chain| && chain[j] == d;
    assert i < |chain| - 1 && Linked(nodes, chain, i);
    assert j < |chain| - 1 && Linked(nodes, chain, j);
    assert chain[i + 1] == x == chain[j + 1];
  }

  lemma {:induction false} NoChildCharged(nodes: Nodes, op: Op, cs: seq<MandateId>)
    requires forall i :: 0 <= i < |cs| ==> !ChargesThrough(nodes, op, cs[i])
    ensures ChargeEach(nodes, op, cs) == 0
    decreases |cs|
  {
    if cs != [] {
      NoChildCharged(nodes, op, cs[1..]);
    }
  }

  lemma {:induction false} ChildChargesWithinParent(nodes: Nodes, op: Op, x: MandateId, cs: seq<MandateId>)
    requires ChildrenOf(nodes, x, cs)
    ensures ChargeEach(nodes, op, cs) <= Charge(nodes, op, x)
    decreases |cs|
  {
    if cs != [] {
      ChildChargesWithinParent(nodes, op, x, cs[1..]);
      if ChargesThrough(nodes, op, cs[0]) {
        var chain := ChainOf(nodes, op.leaf).value;
        ChainFromIsPath(nodes, op.leaf, MAX_DEPTH);
        ChainThroughChild(nodes, op.leaf, chain, x, cs[0], cs[0]);
        forall i | 0 <= i < |cs[1..]| ensures !ChargesThrough(nodes, op, cs[1..][i]) {
          if cs[i + 1] in chain {
            ChainThroughChild(nodes, op.leaf, chain, x, cs[0], cs[i + 1]);
          }
        }
        NoChildCharged(nodes, op, cs[1..]);
      }
    }
  }

  lemma {:induction false} SpentThroughEachStep(nodes: Nodes, ops: seq<Op>, cs: seq<MandateId>)
    requires ops != []
    ensures SpentThroughEach(nodes, ops, cs)
            == ChargeEach(nodes, ops[0], cs) + SpentThroughEach(Step(nodes, ops[0]), ops[1..], cs)
    decreases |cs|
  {
    if cs != [] {
      SpentThroughEachStep(nodes, ops, cs[1..]);
    }
  }

  lemma {:induction false} NothingSpentByEmptyRun(nodes: Nodes, cs: seq<MandateId>)
    ensures SpentThroughEach(nodes, [], cs) == 0
    decreases |cs|
  {
    if cs != [] {
      NothingSpentByEmptyRun(nodes, cs[1..]);
    }
  }

  /** Children may each be promised more than the parent has, but what they spend together,
      over any run, is counted in full against the parent, whose own envelope is bounded by
      `BudgetConserved`. */
  lemma {:induction false} ChildrenShareParentBudget(nodes: Nodes, ops: seq<Op>, x: MandateId, cs: seq<MandateId>)
    requires ChildrenOf(nodes, x, cs)
    requires forall i :: 0 <= i < |cs| ==> NeverMoved(ops, cs[i], x)
    ensures SpentThroughEach(nodes, ops, cs) <= SpentThrough(nodes, ops, x)
    decreases |ops|
  {
    if ops == [] {
      NothingSpentByEmptyRun(nodes, cs);
    } else {
      forall i | 0 <= i < |cs| ensures cs[i] in Step(nodes, ops[0]) && Step(nodes, ops[0])[cs[i]].parent == Some(x) {
        assert NeverMoved(ops, cs[i], x);
        if !Inserts(ops[0], cs[i]) {
          StepBudget(nodes, ops[0], cs[i]);
        }
      }
      forall i | 0 <= i < |cs| ensures NeverMoved(ops[1..], cs[i], x) {
        assert NeverMoved(ops, cs[i], x);
      }
      ChildrenShareParentBudget(Step(nodes, ops[0]), ops[1..], x, cs);
      ChildChargesWithinParent(nodes, ops[0], x, cs);
      SpentThroughEachStep(nodes, ops, cs);
    }
  }

  // ---------------------------------------------------------------------------
  // Revocation
  // ---------------------------------------------------------------------------

  lemma RevokedChainRefuses(nodes: Nodes, leaf: MandateId, amount: u128, now: u64, x: MandateId)
    requires x in nodes && nodes[x].revoked
    requires ChainOf(nodes, leaf).Ok? && x in ChainOf(nodes, leaf).value
    ensures Check(nodes, leaf, amount, now).Fail?
  {
    var chain := ChainOf(nodes, leaf).value;
    ChainFromIsPath(nodes, leaf, MAX_DEPTH);
    CheckFromVerdict(nodes, chain, 0, amount, now);
    var i :| 0 <= i < |chain| && chain[i] == x;
    assert !Clears(nodes[chain[i]], amount, now);
  }

  /** No accepted insert of the run puts a live node under `x`'s identifier. */
  predicate NeverRevived(nodes: Nodes, ops: seq<Op>, x: MandateId)
    decreases |ops|
  {
    ops != [] ==>
      && (Overwrites(nodes, ops[0], x) ==> ops[0].node.revoked)
      && NeverRevived(Step(nodes, ops[0]), ops[1..], x)
  }

  lemma StepRevoked(nodes: Nodes, op: Op, x: MandateId)
    requires x in nodes && nodes[x].revoked
    ensures x in Step(nodes, op) && (Step(nodes, op)[x].revoked <==> (Overwrites(nodes, op, x) ==> op.node.revoked))
  {
    if !Inserts(op, x) {
      StepBudget(nodes, op, x);
    }
  }

  ghost predicate RevokedAfter(nodes: Nodes, ops: seq<Op>, x: MandateId, k: nat)
    requires k <= |ops|
  {
    x in Run(nodes, ops[..k]) && Run(nodes, ops[..k])[x].revoked
  }

  /** A revoked node stays revoked through a run if and only if no accepted insert revives it. */
  lemma {:induction false} StaysRevokedIff(nodes: Nodes, ops: seq<Op>, x: MandateId)
    requires x in nodes && nodes[x].revoked
    ensures (forall k: nat :: k <= |ops| ==> RevokedAfter(nodes, ops, x, k)) <==> NeverRevived(nodes, ops, x)
    decreases |ops|
  {
    hide Step, Overwrites;
    assert ops[..0] == [];
    if ops != [] {
      var mid, rest := Step(nodes, ops[0]), ops[1..];
      StepRevoked(nodes, ops[0], x);
      forall k: nat | k <= |rest| ensures RevokedAfter(nodes, ops, x, k + 1) <==> RevokedAfter(mid, rest, x, k) {
        PrefixRun(nodes, ops, k + 1);
      }
      assert rest[..0] == [];
      assert RevokedAfter(mid, rest, x, 0) <==> mid[x].revoked;
      if mid[x].revoked {
        StaysRevokedIff(mid, rest, x);
        forall k: nat | k <= |ops| && NeverRevived(nodes, ops, x) ensures RevokedAfter(nodes, ops, x, k) {
          assert k > 0 ==> RevokedAfter(mid, rest, x, k - 1);
        }
      } else {
        assert !RevokedAfter(nodes, ops, x, 1);
      }
    }
  }

  /** Cascade revocation is final: after `x` is revoked, no operation of any continuation
      that does not revive it charges its subtree, not even with a zero amount. */
  lemma RevocationIsFinal(nodes: Nodes, ops: seq<Op>, x: MandateId, k: nat)
    requires x in nodes && nodes[x].revoked && NeverRevived(nodes, ops, x)
    requires k < |ops|
    ensures !ChargesThrough(Run(nodes, ops[..k]), ops[k], x)
  {
    hide ChargesThrough, Run, NeverRevived, Step;
    StaysRevokedIff(nodes, ops, x);
    var before := Run(nodes, ops[..k]);
    assert RevokedAfter(nodes, ops, x, k);
    RevokedRefuses(before, ops[k], x);
  }

  lemma RevokedRefuses(nodes: Nodes, op: Op, x: MandateId)
    requires x in nodes && nodes[x].revoked
    ensures !ChargesThrough(nodes, op, x)
  {
    hide Check;
    if op.Spend? && ChainOf(nodes, op.leaf).Ok? && x in ChainOf(nodes, op.leaf).value {
      RevokedChainRefuses(nodes, op.leaf, op.amount, op.now, x);
    }
  }

  /** A revocation stops the subtree and nothing else: a leaf below the node is refused from then
      on, and every other leaf gets the answer it would have got. */
  lemma RevocationStopsExactlySubtree(nodes: Nodes, x: MandateId, leaf: MandateId, amount: u128, now: u64)
    requires x in nodes && ChainOf(nodes, leaf).Ok?
    ensures var after := Step(nodes, Revoke(x));
            && ChainOf(after, leaf) == ChainOf(nodes, leaf)
            && if x in ChainOf(nodes, leaf).value then Check(after, leaf, amount, now).Fail?
               else Check(after, leaf, amount, now) == Check(nodes, leaf, amount, now)
  {
    hide Refusal;
    var after, chain := Step(nodes, Revoke(x)), ChainOf(nodes, leaf).value;
    ChainOfCorrect(nodes, leaf, chain);
    forall i | 0 <= i < |chain| - 1 ensures Linked(after, chain, i) {
      assert Linked(nodes, chain, i);
    }
    assert IsPath(after, leaf, chain);
    ChainOfCorrect(after, leaf, chain);
    if x in chain {
      RevokedChainRefuses(after, leaf, amount, now, x);
    } else {
      SameNodesSameCheck(nodes, after, chain, 0, amount, now);
    }
  }

  lemma {:induction false} SameNodesSameCheck(a: Nodes, b: Nodes, chain: seq<MandateId>, d: nat, amount: u128, now: u64)
    requires d <= |chain| && forall i :: 0 <= i < |chain| ==> chain[i] in a && chain[i] in b && a[chain[i]] == b[chain[i]]
    ensures CheckFrom(a, chain, d, amount, now) == CheckFrom(b, chain, d, amount, now)
    decreases |chain| - d
  {
    if d < |chain| {
      SameNodesSameCheck(a, b, chain, d + 1, amount, now);
    }
  }

  // ---------------------------------------------------------------------------
  // Why an identifier must not be used twice
  // ---------------------------------------------------------------------------

  lemma RootSpendsItsBuffer(nodes: Nodes, n: Node)
    requires n.id in nodes && nodes[n.id] == n && n.parent == None
    requires !n.revoked && n.buffer <= Min(n.bufferMax, n.perTxMax) && n.lastAccrual < n.expiry
    ensures Charge(nodes, Spend(n.id, n.buffer, n.lastAccrual), n.id) == n.buffer
  {
    var path := [n.id];
    assert IsPath(nodes, n.id, path);
    ChainOfCorrect(nodes, n.id, path);
    assert Projected(n, n.lastAccrual) == n.buffer by {
      assert SatMul(n.rate, 0, U128_MAX) == 0;
    }
    assert Clears(nodes[path[0]], n.buffer, n.lastAccrual);
    CheckPassesIff(nodes, n.id, n.buffer, n.lastAccrual);
  }

  /** `insert` overwrites: putting a spent root back under its identifier gives it its buffer
      again, and the envelope of the first one is exceeded without any time passing. */
  lemma ReinsertionBreaksEnvelope(n: Node)
    requires n.parent == None && !n.revoked && 0 < n.buffer <= Min(n.bufferMax, n.perTxMax) && n.lastAccrual < n.expiry
    ensures var spend := Spend(n.id, n.buffer, n.lastAccrual);
            SpentThrough(map[n.id := n], [spend, Insert(n), spend], n.id) > n.buffer + n.rate * 0
  {
    hide ChargesThrough, SpendEffect;
    var spend := Spend(n.id, n.buffer, n.lastAccrual);
    var n0: Nodes := map[n.id := n];
    var n1 := Step(n0, spend);
    var n2 := Step(n1, Insert(n));
    RootSpendsItsBuffer(n0, n);
    RootSpendsItsBuffer(n2, n);
    var ops := [spend, Insert(n), spend];
    assert ops[1..] == [Insert(n), spend] && [Insert(n), spend][1..] == [spend] && [spend][1..] == [];
    assert SpentThrough(n2, [spend], n.id) == n.buffer + SpentThrough(Step(n2, spend), [], n.id);
    assert SpentThrough(n1, [Insert(n), spend], n.id) == Charge(n1, Insert(n), n.id) + SpentThrough(n2, [spend], n.id);
  }

  lemma OnlySpendsCharge(nodes: Nodes, op: Op, x: MandateId)
    ensures !op.Spend? ==> Charge(nodes, op, x) == 0
  {
  }

  /** And it revives: a revoked root put back under its identifier spends again. */
  lemma ReinsertionRevives(n: Node)
    requires n.parent == None && !n.revoked && 0 < n.buffer <= Min(n.bufferMax, n.perTxMax) && n.lastAccrual < n.expiry
    ensures var ops := [Revoke(n.id), Insert(n), Spend(n.id, n.buffer, n.lastAccrual)];
            RevokedAfter(map[n.id := n], ops, n.id, 1) && SpentThrough(map[n.id := n], ops, n.id) == n.buffer > 0
  {
    hide ChargesThrough, SpendEffect;
    var spend := Spend(n.id, n.buffer, n.lastAccrual);
    var ops := [Revoke(n.id), Insert(n), spend];
    var n0: Nodes := map[n.id := n];
    var n1 := Step(n0, Revoke(n.id));
    var n2 := Step(n1, Insert(n));
    RootSpendsItsBuffer(n2, n);
    PrefixRun(n0, ops, 1);
    PrefixRun(n1, ops[1..], 0);
    OnlySpendsCharge(n0, Revoke(n.id), n.id);
    OnlySpendsCharge(n1, Insert(n), n.id);
    assert SpentThrough(n0, ops, n.id) == Charge(n0, Revoke(n.id), n.id) + SpentThrough(n1, ops[1..], n.id);
    assert ops[1..] == [Insert(n), spend] && [Insert(n), spend][1..] == [spend] && [spend][1..] == [];
    assert SpentThrough(n2, [spend], n.id) == n.buffer + SpentThrough(Step(n2, spend), [], n.id);
    assert SpentThrough(n1, [Insert(n), spend], n.id) == Charge(n1, Insert(n), n.id) + SpentThrough(n2, [spend], n.id);
  }
}
