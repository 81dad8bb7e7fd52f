/** The mandate tree's accounting: hierarchical budgets with lazy accrual, caps,
    revocation and an all-or-nothing debit of the whole ancestor chain. */
module Mandate {
  import opened Machine

  type MandateId = Hash

  const MAX_DEPTH: nat := 64

  datatype SpendError =
    | NotFound
    | Revoked(depth: nat)
    | Expired(depth: nat)
    | PerTxCap(depth: nat)
    | Insufficient(depth: nat, have: u128, need: u128)
    | BadChain
    | Attenuation(reason: string)

  datatype Node = Node(
    id: MandateId,
    parent: Option<MandateId>,
    asset: Hash,
    rate: u128,
    bufferMax: u128,
    perTxMax: u128,
    expiry: u64,
    revoked: bool,
    buffer: u128,
    lastAccrual: u64)

  type Nodes = map<MandateId, Node>

  // ---------------------------------------------------------------------------
  // Accrual
  // ---------------------------------------------------------------------------

  /** The buffer a check credits a node with at `now`. */
  function Projected(n: Node, now: u64): u128 {
    var dt := SatSub(now, n.lastAccrual);
    Min(SatAdd(n.buffer, SatMul(n.rate, dt, U128_MAX), U128_MAX), n.bufferMax)
  }

  /** The node after lazy accrual; a clock that does not advance changes nothing. */
  function Accrue(n: Node, now: u64): Node {
    if now > n.lastAccrual then
      n.(buffer := Min(SatAdd(n.buffer, SatMul(n.rate, now - n.lastAccrual, U128_MAX), U128_MAX), n.bufferMax),
         lastAccrual := now)
    else
      n
  }

  /** Accrual never credits more than rate times elapsed time, and always at least what
      the check projected, even for a buffer that started above its cap. */
  lemma AccrualBounds(n: Node, now: u64)
    ensures n.lastAccrual <= Accrue(n, now).lastAccrual <= Max(n.lastAccrual, now)
    ensures Accrue(n, now).buffer <= n.buffer + n.rate * (Accrue(n, now).lastAccrual - n.lastAccrual)
    ensures Projected(n, now) <= Accrue(n, now).buffer
    ensures Projected(n, now) <= n.bufferMax
    ensures n.buffer <= n.bufferMax ==> Accrue(n, now).buffer == Projected(n, now)
  {
    if now <= n.lastAccrual {
      assert SatMul(n.rate, SatSub(now, n.lastAccrual), U128_MAX) == 0;
    }
  }

  /** The drip in plain integers, through every saturation: past its stamp a node is credited the
      whole of rate times elapsed time up to its cap, and otherwise nothing changes, while a check
      counts no more than the cap. */
  lemma AccrualExact(n: Node, now: u64)
    ensures Accrue(n, now).lastAccrual == if now > n.lastAccrual then now else n.lastAccrual
    ensures Accrue(n, now) == n.(buffer := Accrue(n, now).buffer, lastAccrual := Accrue(n, now).lastAccrual)
    ensures now > n.lastAccrual ==>
              var full := n.buffer + n.rate * (now - n.lastAccrual);
              Accrue(n, now).buffer == Projected(n, now) == if full <= n.bufferMax then full else n.bufferMax
    ensures now <= n.lastAccrual ==>
              Accrue(n, now).buffer == n.buffer && Projected(n, now) == if n.buffer <= n.bufferMax then n.buffer else n.bufferMax
  {
    if now <= n.lastAccrual {
      assert SatMul(n.rate, SatSub(now, n.lastAccrual), U128_MAX) == 0;
    }
  }

  // ---------------------------------------------------------------------------
  // The leaf-to-root chain
  // ---------------------------------------------------------------------------

  /** Follow parents for at most `steps` nodes. */
  function ChainFrom(nodes: Nodes, cur: MandateId, steps: nat): Result<seq<MandateId>, SpendError>
    decreases steps
  {
    if steps == 0 then Err(BadChain)
    else if cur !in nodes then Err(NotFound)
    else
      match nodes[cur].parent
      case None => Ok([cur])
      case Some(p) =>
        match ChainFrom(nodes, p, steps - 1)
        case Ok(rest) => Ok([cur] + rest)
        case Err(e) => Err(e)
  }

  function ChainOf(nodes: Nodes, leaf: MandateId): Result<seq<MandateId>, SpendError> {
    ChainFrom(nodes, leaf, MAX_DEPTH)
  }

  /** Entry `i + 1` of `chain` is the parent of entry `i`. */
  ghost predicate Linked(nodes: Nodes, chain: seq<MandateId>, i: nat) {
    && i + 1 < |chain|
    && chain[i] in nodes
    && nodes[chain[i]].parent == Some(chain[i + 1])
  }

  /** What a leaf-to-root chain is, said without following it. */
  ghost predicate IsPath(nodes: Nodes, leaf: MandateId, chain: seq<MandateId>) {
    && |chain| > 0
    && chain[0] == leaf
    && (forall i :: 0 <= i < |chain| ==> chain[i] in nodes)
    && (forall i :: 0 <= i < |chain| - 1 ==> Linked(nodes, chain, i))
    && nodes[chain[|chain| - 1]].parent == None
  }

  ghost predicate NoDuplicates<T(!new)>(s: seq<T>) {
    forall i, j :: 0 <= i < j < |s| ==> s[i] != s[j]
  }

  lemma {:induction false} ChainFromIsPath(nodes: Nodes, cur: MandateId, steps: nat)
    ensures ChainFrom(nodes, cur, steps).Ok? ==>
              IsPath(nodes, cur, ChainFrom(nodes, cur, steps).value) && |ChainFrom(nodes, cur, steps).value| <= steps
    decreases steps
  {
    if steps > 0 && cur in nodes && nodes[cur].parent.Some? {
      var p := nodes[cur].parent.value;
      ChainFromIsPath(nodes, p, steps - 1);
      if ChainFrom(nodes, p, steps - 1).Ok? {
        PathExtends(nodes, cur, p, ChainFrom(nodes, p, steps - 1).value);
      }
    }
  }

  lemma PathExtends(nodes: Nodes, child: MandateId, parent: MandateId, chain: seq<MandateId>)
    requires child in nodes && nodes[child].parent == Some(parent)
    requires IsPath(nodes, parent, chain)
    ensures IsPath(nodes, child, [child] + chain)
  {
    var longer := [child] + chain;
    forall i | 0 <= i < |longer| - 1 ensures Linked(nodes, longer, i) {
      if i > 0 {
        assert Linked(nodes, chain, i - 1);
      }
    }
  }

  lemma {:induction false} PathIsChainFrom(nodes: Nodes, cur: MandateId, steps: nat, path: seq<MandateId>)
    requires IsPath(nodes, cur, path)
    ensures |path| <= steps ==> ChainFrom(nodes, cur, steps) == Ok(path)
    ensures |path| > steps ==> ChainFrom(nodes, cur, steps) == Err(BadChain)
    decreases steps
  {
    if |path| == 1 {
      assert path == [cur];
    } else if steps > 0 {
      assert Linked(nodes, path, 0);
      PathSuffix(nodes, cur, path, 1);
      PathIsChainFrom(nodes, path[1], steps - 1, path[1..]);
      assert path == [cur] + path[1..];
    }
  }

  lemma PathSuffix(nodes: Nodes, leaf: MandateId, path: seq<MandateId>, i: nat)
    requires IsPath(nodes, leaf, path) && i < |path|
    ensures IsPath(nodes, path[i], path[i..])
  {
    var rest := path[i..];
    forall k | 0 <= k < |rest| - 1 ensures Linked(nodes, rest, k) {
      assert Linked(nodes, path, i + k);
    }
  }

  lemma PathUnique(nodes: Nodes, leaf: MandateId, p: seq<MandateId>, q: seq<MandateId>)
    requires IsPath(nodes, leaf, p) && IsPath(nodes, leaf, q)
    ensures p == q
  {
    PathIsChainFrom(nodes, leaf, |p| + |q|, p);
    PathIsChainFrom(nodes, leaf, |p| + |q|, q);
  }

  /** A path to a root cannot repeat a node, whatever the node map: two suffixes from the
      same node would be the same path of two lengths. */
  lemma PathHasNoDuplicates(nodes: Nodes, leaf: MandateId, path: seq<MandateId>)
    requires IsPath(nodes, leaf, path)
    ensures NoDuplicates(path)
  {
    forall i, j | 0 <= i < j < |path| ensures path[i] != path[j] {
      if path[i] == path[j] {
        PathSuffix(nodes, leaf, path, i);
        PathSuffix(nodes, leaf, path, j);
        PathUnique(nodes, path[i], path[i..], path[j..]);
      }
    }
  }

  /** `chain_of` over any node map, cyclic ones included: it succeeds exactly when the leaf
      has a path to a root of at most 64 nodes, and then returns that path, which repeats
      no node. */
  lemma ChainOfCorrect(nodes: Nodes, leaf: MandateId, path: seq<MandateId>)
    ensures ChainOf(nodes, leaf) == Ok(path) <==> IsPath(nodes, leaf, path) && |path| <= MAX_DEPTH
    ensures ChainOf(nodes, leaf) == Ok(path) ==> NoDuplicates(path)
    ensures IsPath(nodes, leaf, path) && |path| > MAX_DEPTH ==> ChainOf(nodes, leaf) == Err(BadChain)
  {
    ChainFromIsPath(nodes, leaf, MAX_DEPTH);
    if IsPath(nodes, leaf, path) {
      PathIsChainFrom(nodes, leaf, MAX_DEPTH, path);
      PathHasNoDuplicates(nodes, leaf, path);
    }
  }

  /** The walk from a leaf reaches an identifier that is not there. */
  ghost predicate LeadsOff(nodes: Nodes, leaf: MandateId, walk: seq<MandateId>) {
    && |walk| > 0 && walk[0] == leaf && walk[|walk| - 1] !in nodes
    && forall i :: 0 <= i < |walk| - 1 ==> Linked(nodes, walk, i)
  }

  /** The error of a walk that finds no root: an ancestor is missing within its reach, or there
      are too many. */
  lemma {:induction false} ChainErrorIff(nodes: Nodes, cur: MandateId, steps: nat)
    ensures ChainFrom(nodes, cur, steps) == Err(NotFound) <==> exists walk :: LeadsOff(nodes, cur, walk) && |walk| <= steps
    ensures ChainFrom(nodes, cur, steps).Err? ==> ChainFrom(nodes, cur, steps).error in {NotFound, BadChain}
    decreases steps
  {
    if steps > 0 {
      if cur !in nodes {
        assert LeadsOff(nodes, cur, [cur]);
      } else {
        match nodes[cur].parent
        case None =>
          assert forall walk :: |walk| > 1 && walk[0] == cur ==> !Linked(nodes, walk, 0);
        case Some(p) =>
          ChainErrorIff(nodes, p, steps - 1);
          WalkFromParent(nodes, cur, p, steps);
      }
    }
  }

  lemma WalkFromParent(nodes: Nodes, cur: MandateId, p: MandateId, steps: nat)
    requires steps > 0 && cur in nodes && nodes[cur].parent == Some(p)
    ensures (exists walk :: LeadsOff(nodes, cur, walk) && |walk| <= steps)
       <==> (exists walk :: LeadsOff(nodes, p, walk) && |walk| <= steps - 1)
  {
    forall walk | LeadsOff(nodes, p, walk) && |walk| <= steps - 1
      ensures LeadsOff(nodes, cur, [cur] + walk)
    {
      var longer := [cur] + walk;
      forall i | 0 <= i < |longer| - 1 ensures Linked(nodes, longer, i) {
        assert i > 0 ==> Linked(nodes, walk, i - 1);
      }
    }
    if walk :| LeadsOff(nodes, cur, walk) && |walk| <= steps {
      assert |walk| > 1 && Linked(nodes, walk, 0);
      forall i | 0 <= i < |walk[1..]| - 1 ensures Linked(nodes, walk[1..], i) {
        assert Linked(nodes, walk, i + 1);
      }
      assert LeadsOff(nodes, p, walk[1..]);
    }
  }

  // ---------------------------------------------------------------------------
  // Check
  // ---------------------------------------------------------------------------

  /** Why one node at `depth` refuses a spend, the first reason in the order asked. */
  function Refusal(n: Node, depth: nat, amount: u128, now: u64): Option<SpendError> {
    if n.revoked then Some(Revoked(depth))
    else if now >= n.expiry then Some(Expired(depth))
    else if amount > n.perTxMax then Some(PerTxCap(depth))
    else if Projected(n, now) < amount then Some(Insufficient(depth, Projected(n, now), amount))
    else None
  }

  function CheckFrom(nodes: Nodes, chain: seq<MandateId>, depth: nat, amount: u128, now: u64): Outcome<SpendError>
    requires depth <= |chain|
    requires forall i :: 0 <= i < |chain| ==> chain[i] in nodes
    decreases |chain| - depth
  {
    if depth == |chain| then Pass
    else
      match Refusal(nodes[chain[depth]], depth, amount, now)
      case Some(e) => Fail(e)
      case None => CheckFrom(nodes, chain, depth + 1, amount, now)
  }

  function Check(nodes: Nodes, leaf: MandateId, amount: u128, now: u64): Outcome<SpendError> {
    match ChainOf(nodes, leaf)
    case Err(e) => Fail(e)
    case Ok(chain) =>
      ChainFromIsPath(nodes, leaf, MAX_DEPTH);
      CheckFrom(nodes, chain, 0, amount, now)
  }

  /** Everything a node must satisfy for a spend to pass through it, in plain integers. */
  predicate Clears(n: Node, amount: u128, now: u64) {
    && !n.revoked
    && now < n.expiry
    && amount <= n.perTxMax
    && amount <= n.bufferMax
    && amount <= n.buffer + n.rate * (if now > n.lastAccrual then now - n.lastAccrual else 0)
  }

  lemma ClearsIff(n: Node, depth: nat, amount: u128, now: u64)
    ensures Refusal(n, depth, amount, now).None? <==> Clears(n, amount, now)
    ensures Clears(n, amount, now) ==> amount <= Projected(n, now)
  {
    AccrualExact(n, now);
    hide Projected;
  }

  lemma {:induction false} CheckFromVerdict(nodes: Nodes, chain: seq<MandateId>, depth: nat, amount: u128, now: u64)
    requires depth <= |chain|
    requires forall i :: 0 <= i < |chain| ==> chain[i] in nodes
    ensures CheckFrom(nodes, chain, depth, amount, now).Pass? <==>
              forall i :: depth <= i < |chain| ==> Clears(nodes[chain[i]], amount, now)
    ensures CheckFrom(nodes, chain, depth, amount, now).Fail? ==>
              exists i :: depth <= i < |chain|
                       && Refusal(nodes[chain[i]], i, amount, now) == Some(CheckFrom(nodes, chain, depth, amount, now).error)
                       && forall j :: depth <= j < i ==> Clears(nodes[chain[j]], amount, now)
    decreases |chain| - depth
  {
    hide Refusal, Clears;
    if depth < |chain| {
      CheckFromVerdict(nodes, chain, depth + 1, amount, now);
      ClearsIff(nodes[chain[depth]], depth, amount, now);
      if Refusal(nodes[chain[depth]], depth, amount, now).Some? {
        assert !Clears(nodes[chain[depth]], amount, now);
        assert Refusal(nodes[chain[depth]], depth, amount, now) == Some(CheckFrom(nodes, chain, depth, amount, now).error);
      }
    }
  }

  /** A spend is authorised exactly when every node of the chain clears it. */
  lemma CheckPassesIff(nodes: Nodes, leaf: MandateId, amount: u128, now: u64)
    ensures Check(nodes, leaf, amount, now).Pass? <==>
              exists chain :: IsPath(nodes, leaf, chain) && |chain| <= MAX_DEPTH
                           && forall i :: 0 <= i < |chain| ==> Clears(nodes[chain[i]], amount, now)
  {
    match ChainOf(nodes, leaf)
    case Err(_) =>
      forall chain | IsPath(nodes, leaf, chain) && |chain| <= MAX_DEPTH ensures false {
        ChainOfCorrect(nodes, leaf, chain);
      }
    case Ok(chain) =>
      ChainOfCorrect(nodes, leaf, chain);
      CheckFromVerdict(nodes, chain, 0, amount, now);
      forall other | IsPath(nodes, leaf, other) ensures other == chain {
        PathUnique(nodes, leaf, other, chain);
      }
  }

  /** The first node of the chain that does not clear a spend. */
  predicate Stops(nodes: Nodes, chain: seq<MandateId>, d: nat, amount: u128, now: u64)
    requires forall i :: 0 <= i < |chain| ==> chain[i] in nodes
  {
    d < |chain| && !Clears(nodes[chain[d]], amount, now) && forall j :: 0 <= j < d ==> Clears(nodes[chain[j]], amount, now)
  }

  /** Every verdict of `check` by name: an absent ancestor or too long a chain where there is no
      short path to a root, and otherwise the first node that stops the spend, with the first of
      four reasons that holds of it and, for want of funds, what it has. */
  lemma CheckVerdictIff(nodes: Nodes, leaf: MandateId, chain: seq<MandateId>, amount: u128, now: u64, d: nat)
    requires IsPath(nodes, leaf, chain) && |chain| <= MAX_DEPTH
    ensures var v := Check(nodes, leaf, amount, now);
            && (v == Fail(Revoked(d)) <==> Stops(nodes, chain, d, amount, now) && nodes[chain[d]].revoked)
            && (v == Fail(Expired(d)) <==>
                  Stops(nodes, chain, d, amount, now) && !nodes[chain[d]].revoked && now >= nodes[chain[d]].expiry)
            && (v == Fail(PerTxCap(d)) <==>
                  && Stops(nodes, chain, d, amount, now) && !nodes[chain[d]].revoked && now < nodes[chain[d]].expiry
                  && amount > nodes[chain[d]].perTxMax)
            && (v.Fail? && v.error.Insufficient? && v.error.depth == d <==>
                  && Stops(nodes, chain, d, amount, now) && !nodes[chain[d]].revoked && now < nodes[chain[d]].expiry
                  && amount <= nodes[chain[d]].perTxMax)
            && (v.Pass? <==> forall i :: 0 <= i < |chain| ==> Clears(nodes[chain[i]], amount, now))
    ensures Check(nodes, leaf, amount, now).Fail? && Check(nodes, leaf, amount, now).error.Insufficient?
              && Check(nodes, leaf, amount, now).error.depth == d ==>
              && d < |chain| && Check(nodes, leaf, amount, now).error.need == amount
              && var n := nodes[chain[d]];
                 var full := n.buffer + n.rate * (if now > n.lastAccrual then now - n.lastAccrual else 0);
                 Check(nodes, leaf, amount, now).error.have == if full <= n.bufferMax then full else n.bufferMax
  {
    hide Refusal, Clears, ChainOf, CheckFrom;
    ChainOfCorrect(nodes, leaf, chain);
    CheckFromVerdict(nodes, chain, 0, amount, now);
    if Check(nodes, leaf, amount, now).Fail? {
      var i :| 0 <= i < |chain| && Refusal(nodes[chain[i]], i, amount, now) == Some(Check(nodes, leaf, amount, now).error)
               && forall j :: 0 <= j < i ==> Clears(nodes[chain[j]], amount, now);
      ClearsIff(nodes[chain[i]], i, amount, now);
      RefusalReason(nodes[chain[i]], i, amount, now);
      assert Stops(nodes, chain, i, amount, now);
    }
  }

  lemma RefusalReason(n: Node, depth: nat, amount: u128, now: u64)
    requires Refusal(n, depth, amount, now).Some?
    ensures var e := Refusal(n, depth, amount, now).value;
            && (if n.revoked then e == Revoked(depth)
                else if now >= n.expiry then e == Expired(depth)
                else if amount > n.perTxMax then e == PerTxCap(depth)
                else e.Insufficient? && e.depth == depth && e.need == amount)
            && (e.Insufficient? ==>
                  var full := n.buffer + n.rate * (if now > n.lastAccrual then now - n.lastAccrual else 0);
                  e.have == if full <= n.bufferMax then full else n.bufferMax)
  {
    AccrualExact(n, now);
    hide Projected;
  }

  // ---------------------------------------------------------------------------
  // Available
  // ---------------------------------------------------------------------------

  function AvailableFrom(nodes: Nodes, chain: seq<MandateId>, depth: nat, now: u64, avail: u128): Result<u128, SpendError>
    requires depth <= |chain|
    requires forall i :: 0 <= i < |chain| ==> chain[i] in nodes
    decreases |chain| - depth
  {
    if depth == |chain| then Ok(avail)
    else
      var n := nodes[chain[depth]];
      if n.revoked then Err(Revoked(depth))
      else if now >= n.expiry then Err(Expired(depth))
      else AvailableFrom(nodes, chain, depth + 1, now, Min(Min(avail, Projected(n, now)), n.perTxMax))
  }

  function Available(nodes: Nodes, leaf: MandateId, now: u64): Result<u128, SpendError> {
    match ChainOf(nodes, leaf)
    case Err(e) => Err(e)
    case Ok(chain) =>
      ChainFromIsPath(nodes, leaf, MAX_DEPTH);
      AvailableFrom(nodes, chain, 0, now, U128_MAX)
  }

  lemma {:induction false} CheckFromIffWithinAvailable(
      nodes: Nodes, chain: seq<MandateId>, depth: nat, amount: u128, now: u64, avail: u128)
    requires depth <= |chain|
    requires forall i :: 0 <= i < |chain| ==> chain[i] in nodes
    ensures AvailableFrom(nodes, chain, depth, now, avail).Ok? && amount <= AvailableFrom(nodes, chain, depth, now, avail).value
            <==> amount <= avail && CheckFrom(nodes, chain, depth, amount, now).Pass?
    decreases |chain| - depth
  {
    if depth < |chain| {
      var n := nodes[chain[depth]];
      if !n.revoked && now < n.expiry {
        var next := Min(Min(avail, Projected(n, now)), n.perTxMax);
        CheckFromIffWithinAvailable(nodes, chain, depth + 1, amount, now, next);
      }
    }
  }

  /** What a wallet shows as spendable is exact: an amount passes `check` if and only if
      `available` answers and the amount does not exceed the answer. */
  lemma CheckIffWithinAvailable(nodes: Nodes, leaf: MandateId, amount: u128, now: u64)
    ensures Check(nodes, leaf, amount, now).Pass? <==>
              Available(nodes, leaf, now).Ok? && amount <= Available(nodes, leaf, now).value
  {
    if ChainOf(nodes, leaf).Ok? {
      ChainFromIsPath(nodes, leaf, MAX_DEPTH);
      CheckFromIffWithinAvailable(nodes, ChainOf(nodes, leaf).value, 0, amount, now, U128_MAX);
    }
  }

  // ---------------------------------------------------------------------------
  // Spend
  // ---------------------------------------------------------------------------

  /** Every node of `chain` holds enough after accrual, so no debit underflows. */
  predicate Covers(nodes: Nodes, chain: seq<MandateId>, amount: u128, now: u64) {
    forall id :: id in chain ==> id in nodes && amount <= Accrue(nodes[id], now).buffer
  }

  function Debited(n: Node, amount: u128, now: u64): Node
    requires amount <= Accrue(n, now).buffer
  {
    var a := Accrue(n, now);
    a.(buffer := a.buffer - amount)
  }

  /** The map after a committed spend: each node of the chain debited once, no other node
      touched. */
  function DebitAll(nodes: Nodes, chain: seq<MandateId>, amount: u128, now: u64): Nodes
    requires Covers(nodes, chain, amount, now)
  {
    map id | id in nodes :: if id in chain then Debited(nodes[id], amount, now) else nodes[id]
  }

  /** Debiting a chain front to back: the next node has not been touched yet. */
  lemma DebitOneMore(nodes: Nodes, chain: seq<MandateId>, k: nat, amount: u128, now: u64)
    requires Covers(nodes, chain, amount, now) && NoDuplicates(chain) && k < |chain|
    ensures Covers(nodes, chain[..k], amount, now) && Covers(nodes, chain[..k + 1], amount, now)
    ensures chain[k] in nodes && DebitAll(nodes, chain[..k], amount, now)[chain[k]] == nodes[chain[k]]
    ensures DebitAll(nodes, chain[..k + 1], amount, now)
            == DebitAll(nodes, chain[..k], amount, now)[chain[k] := Debited(nodes[chain[k]], amount, now)]
  {
    hide Accrue, Debited;
    assert chain[..k + 1] == chain[..k] + [chain[k]];
    assert chain[k] !in chain[..k];
  }

  lemma CheckCovers(nodes: Nodes, leaf: MandateId, amount: u128, now: u64)
    requires Check(nodes, leaf, amount, now).Pass?
    ensures ChainOf(nodes, leaf).Ok?
    ensures Covers(nodes, ChainOf(nodes, leaf).value, amount, now)
  {
    var chain := ChainOf(nodes, leaf).value;
    ChainFromIsPath(nodes, leaf, MAX_DEPTH);
    CheckFromVerdict(nodes, chain, 0, amount, now);
    forall id | id in chain ensures id in nodes && amount <= Accrue(nodes[id], now).buffer {
      var i :| 0 <= i < |chain| && chain[i] == id;
      assert Clears(nodes[chain[i]], amount, now);
      ClearsIff(nodes[id], i, amount, now);
      AccrualBounds(nodes[id], now);
    }
  }

  function SpendEffect(nodes: Nodes, leaf: MandateId, amount: u128, now: u64): Nodes {
    if Check(nodes, leaf, amount, now).Pass? then
      CheckCovers(nodes, leaf, amount, now);
      DebitAll(nodes, ChainOf(nodes, leaf).value, amount, now)
    else
      nodes
  }

  /** What an accepted spend leaves, in plain integers: each node of the chain is credited its drip
      up to its cap, if the clock has passed its stamp, and debited the amount once; the stamp is
      the later of the two; nothing else about it changes, and no other node changes at all. */
  lemma SpendLeavesExactly(nodes: Nodes, leaf: MandateId, chain: seq<MandateId>, amount: u128, now: u64, x: MandateId)
    requires IsPath(nodes, leaf, chain) && |chain| <= MAX_DEPTH && Check(nodes, leaf, amount, now).Pass? && x in nodes
    ensures SpendEffect(nodes, leaf, amount, now).Keys == nodes.Keys
    ensures x !in chain ==> SpendEffect(nodes, leaf, amount, now)[x] == nodes[x]
    ensures x in chain ==>
              var n, after := nodes[x], SpendEffect(nodes, leaf, amount, now)[x];
              && after == n.(buffer := after.buffer, lastAccrual := after.lastAccrual)
              && after.lastAccrual == (if now > n.lastAccrual then now else n.lastAccrual)
              && (now <= n.lastAccrual ==> after.buffer + amount == n.buffer)
              && (now > n.lastAccrual ==>
                    var full := n.buffer + n.rate * (now - n.lastAccrual);
                    after.buffer + amount == if full <= n.bufferMax then full else n.bufferMax)
  {
    ChainOfCorrect(nodes, leaf, chain);
    CheckCovers(nodes, leaf, amount, now);
    AccrualExact(nodes[x], now);
    hide Accrue, Check;
  }

  // ---------------------------------------------------------------------------
  // Insert and revoke
  // ---------------------------------------------------------------------------

  function InsertVerdict(nodes: Nodes, node: Node): Outcome<SpendError> {
    match node.parent
    case None => Pass
    case Some(pid) =>
      if pid !in nodes then Fail(NotFound)
      else if node.expiry > nodes[pid].expiry then Fail(Attenuation("child expiry outlives parent"))
      else if node.perTxMax > nodes[pid].perTxMax then Fail(Attenuation("child per_tx_max exceeds parent"))
      else Pass
  }

  function AssetVerdict(nodes: Nodes, node: Node): Outcome<SpendError> {
    match node.parent
    case None => Pass
    case Some(pid) =>
      if pid !in nodes then Fail(NotFound)
      else if node.asset != nodes[pid].asset then Fail(Attenuation("child asset differs from parent"))
      else Pass
  }

  function InsertBoundVerdict(nodes: Nodes, node: Node): Outcome<SpendError> {
    if AssetVerdict(nodes, node).Fail? then AssetVerdict(nodes, node) else InsertVerdict(nodes, node)
  }

  function InsertEffect(nodes: Nodes, node: Node, verdict: Outcome<SpendError>): Nodes {
    if verdict.Pass? then nodes[node.id := node] else nodes
  }

  function RevokeEffect(nodes: Nodes, id: MandateId): Nodes {
    if id in nodes then nodes[id := nodes[id].(revoked := true)] else nodes
  }
}
