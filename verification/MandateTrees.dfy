/** The mandate tree as the node keeps it: one map, changed in place. */
module MandateTrees {
  import opened Machine
  import opened Mandate

  class MandateTree {
    var nodes: Nodes

    constructor ()
      ensures nodes == map[]
    {
      nodes := map[];
    }

    /** The older entry point, blind to assets. A node already under the identifier is lost. */
    method Insert(node: Node) returns (r: Outcome<SpendError>)
      modifies this
      ensures r == InsertVerdict(old(nodes), node)
      ensures nodes == InsertEffect(old(nodes), node, r)
    {
      match node.parent {
        case None =>
        case Some(pid) =>
          if pid !in nodes {
            return Fail(NotFound);
          }
          var parent := nodes[pid];
          if node.expiry > parent.expiry {
            return Fail(Attenuation("child expiry outlives parent"));
          }
          if node.perTxMax > parent.perTxMax {
            return Fail(Attenuation("child per_tx_max exceeds parent"));
          }
      }
      nodes := nodes[node.id := node];
      return Pass;
    }

    method CheckAssetBound(node: Node) returns (r: Outcome<SpendError>)
      ensures r == AssetVerdict(nodes, node)
    {
      if node.parent.Some? {
        var pid := node.parent.value;
        if pid !in nodes {
          return Fail(NotFound);
        }
        if node.asset != nodes[pid].asset {
          return Fail(Attenuation("child asset differs from parent"));
        }
      }
      return Pass;
    }

    method InsertAssetBound(node: Node) returns (r: Outcome<SpendError>)
      modifies this
      ensures r == InsertBoundVerdict(old(nodes), node)
      ensures nodes == InsertEffect(old(nodes), node, r)
    {
      r := CheckAssetBound(node);
      if r.Pass? {
        r := Insert(node);
      }
    }

    method Revoke(id: MandateId) returns (r: Outcome<SpendError>)
      modifies this
      ensures nodes == RevokeEffect(old(nodes), id)
      ensures r == if id in old(nodes) then Pass else Fail(NotFound)
    {
      if id !in nodes {
        return Fail(NotFound);
      }
      nodes := nodes[id := nodes[id].(revoked := true)];
      return Pass;
    }

    /** The walk to the root, at most 64 nodes of it. */
    method WalkChain(leaf: MandateId) returns (r: Result<seq<MandateId>, SpendError>)
      ensures r == ChainOf(nodes, leaf)
    {
      var chain: seq<MandateId> := [];
      var cur := leaf;
      assert forall rest: seq<MandateId> :: chain + rest == rest;
      for k := 0 to MAX_DEPTH
        invariant ChainOf(nodes, leaf) ==
                    match ChainFrom(nodes, cur, MAX_DEPTH - k)
                    case Ok(rest) => Ok(chain + rest)
                    case Err(e) => Err(e)
      {
        if cur !in nodes {
          return Err(NotFound);
        }
        chain := chain + [cur];
        match nodes[cur].parent {
          case None => return Ok(chain);
          case Some(p) =>
            ghost var rest := ChainFrom(nodes, p, MAX_DEPTH - k - 1);
            if rest.Ok? {
              assert chain + rest.value == chain[..|chain| - 1] + ([cur] + rest.value);
            }
            cur := p;
        }
      }
      return Err(BadChain);
    }

    method CheckSpend(leaf: MandateId, amount: u128, now: u64) returns (r: Outcome<SpendError>)
      ensures r == Check(nodes, leaf, amount, now)
    {
      var walked := WalkChain(leaf);
      if walked.Err? {
        return Fail(walked.error);
      }
      var chain := walked.value;
      ChainFromIsPath(nodes, leaf, MAX_DEPTH);
      for depth := 0 to |chain|
        invariant CheckFrom(nodes, chain, depth, amount, now) == Check(nodes, leaf, amount, now)
      {
        var n := nodes[chain[depth]];
        if n.revoked {
          return Fail(Revoked(depth));
        }
        if now >= n.expiry {
          return Fail(Expired(depth));
        }
        if amount > n.perTxMax {
          return Fail(PerTxCap(depth));
        }
        var projected := Projected(n, now);
        if projected < amount {
          return Fail(Insufficient(depth, projected, amount));
        }
      }
      return Pass;
    }

    /** Validate the whole chain, then debit every node of it: a refused spend changes
        nothing, and no debit can underflow. */
    method Spend(leaf: MandateId, amount: u128, now: u64) returns (r: Outcome<SpendError>)
      modifies this
      ensures r == Check(old(nodes), leaf, amount, now)
      ensures nodes == SpendEffect(old(nodes), leaf, amount, now)
    {
      r := CheckSpend(leaf, amount, now);
      if r.Fail? {
        return;
      }
      var walked := WalkChain(leaf);
      CheckCovers(nodes, leaf, amount, now);
      ChainOfCorrect(nodes, leaf, walked.value);
      DebitChain(walked.value, amount, now);
    }

    method DebitChain(chain: seq<MandateId>, amount: u128, now: u64)
      requires Covers(nodes, chain, amount, now) && NoDuplicates(chain)
      modifies this
      ensures nodes == DebitAll(old(nodes), chain, amount, now)
    {
      ghost var before := nodes;
      hide Accrue;
      for k := 0 to |chain|
        invariant Covers(before, chain[..k], amount, now)
        invariant nodes == DebitAll(before, chain[..k], amount, now)
      {
        DebitOneMore(before, chain, k, amount, now);
        var n := Accrue(nodes[chain[k]], now);
        nodes := nodes[chain[k] := n.(buffer := n.buffer - amount)];
      }
      assert chain[..|chain|] == chain;
    }

    method AvailableAt(leaf: MandateId, now: u64) returns (r: Result<u128, SpendError>)
      ensures r == Available(nodes, leaf, now)
    {
      var walked := WalkChain(leaf);
      if walked.Err? {
        return Err(walked.error);
      }
      var chain := walked.value;
      ChainFromIsPath(nodes, leaf, MAX_DEPTH);
      var avail: u128 := U128_MAX;
      for depth := 0 to |chain|
        invariant AvailableFrom(nodes, chain, depth, now, avail) == Available(nodes, leaf, now)
      {
        var n := nodes[chain[depth]];
        if n.revoked {
          return Err(Revoked(depth));
        }
        if now >= n.expiry {
          return Err(Expired(depth));
        }
        avail := Min(Min(avail, Projected(n, now)), n.perTxMax);
      }
      return Ok(avail);
    }

    method RootOf(leaf: MandateId) returns (r: Result<MandateId, SpendError>)
      ensures r.Ok? ==> exists chain :: IsPath(nodes, leaf, chain) && |chain| <= MAX_DEPTH && chain[|chain| - 1] == r.value
      ensures r.Ok? ==> r.value in nodes && nodes[r.value].parent == None
      ensures r.Err? ==> ChainOf(nodes, leaf) == Err(r.error)
    {
      var walked := WalkChain(leaf);
      if walked.Err? {
        return Err(walked.error);
      }
      ChainFromIsPath(nodes, leaf, MAX_DEPTH);
      return Ok(walked.value[|walked.value| - 1]);
    }
  }
}
