/** The pool of pending transactions: what each admission check refuses, in which order, and
    how the queue and its three indexes change. */
module Admission {
  import opened Machine
  import opened SignBytes
  import opened Hashing
  import Lamport

  const MAX_SETTLE_DELTA: nat := 0x1_0000
  const MAX_CHANNEL_STEPS: nat := 0x2_0000
  const MAX_SETTLE_LINKS_PER_BLOCK: nat := 0x2_0000

  const DOM_TXID: Bytes := Ascii("hk/v1/txid")
  const DOM_TX_MSG: Bytes := Ascii("hk/v1/tx")

  // ---------------------------------------------------------------------------
  // Transactions and the part of the chain the door reads
  // ---------------------------------------------------------------------------

  /** A payload; `rest` stands for the fields the pool never reads. */
  datatype Tx =
    | ShieldedSpend(anchor: Hash, nullifier: Hash, rest: Bytes)
    | ChannelOpen(maxSteps: u32, rest: Bytes)
    | ChannelSettle(channel: Hash, step: u32, rest: Bytes)
    | Other(rest: Bytes)

  datatype SignedTx = SignedTx(sender: Hash, nonce: u64, payload: Tx, nextAuth: Hash, lamportPk: Sized, sig: Bytes)

  datatype Account = Account(nonce: nat, authCommit: Hash)

  datatype Channel = Channel(settled: nat, maxSteps: nat, refunded: bool)

  datatype ShieldedPool = ShieldedPool(recentAnchors: set<Hash>, nullifiers: set<Hash>)

  datatype Chain = Chain(accounts: map<Hash, Account>, channels: map<Hash, Channel>,
                         pools: seq<ShieldedPool>, height: u64, paywordCapFrom: u64)

  /** The hash, the two serializers (the payload's may fail) and the nonce window. */
  datatype Env = Env(xof: Xof, payloadJson: Tx -> Option<Sized>, txJson: SignedTx -> Sized, window: u64)

  type Slot = (Hash, u64)

  function SlotOf(tx: SignedTx): Slot {
    (tx.sender, tx.nonce)
  }

  function Txid(env: Env, tx: SignedTx): Hash {
    Shake(env.xof, DOM_TXID, [env.txJson(tx)])
  }

  function SigningDigest(env: Env, tx: SignedTx): Option<Hash> {
    match env.payloadJson(tx.payload)
    case None => None
    case Some(bytes) => Some(Shake(env.xof, DOM_TX_MSG, [bytes, tx.sender, Le64(tx.nonce), tx.nextAuth]))
  }

  function PkCommit(env: Env, tx: SignedTx): Hash {
    Lamport.PkCommit(env.xof, tx.lamportPk)
  }

  /** The signature half of an envelope, on the transaction's own bytes. */
  predicate Verifies(env: Env, tx: SignedTx) {
    match SigningDigest(env, tx)
    case None => false
    case Some(digest) => Lamport.Valid(env.xof, tx.lamportPk, digest, tx.sig)
  }

  predicate LengthsOk(tx: SignedTx) {
    |tx.lamportPk| == Lamport.PK_LEN && |tx.sig| == Lamport.SIG_LEN
  }

  /** The pool that carries an anchor: the first one that lists it as recent. */
  function PoolOfAnchor(pools: seq<ShieldedPool>, anchor: Hash): Option<ShieldedPool> {
    if pools == [] then None
    else if anchor in pools[0].recentAnchors then Some(pools[0])
    else PoolOfAnchor(pools[1..], anchor)
  }

  function SettleDelta(chain: Chain, id: Hash, step: u32): Option<nat> {
    if id !in chain.channels then None
    else
      var ch := chain.channels[id];
      if ch.refunded || step <= ch.settled || step > ch.maxSteps then None else Some(step - ch.settled)
  }

  function SettleLinks(chain: Chain, id: Hash, step: u32): Option<nat> {
    match SettleDelta(chain, id, step)
    case None => None
    case Some(_) => Some(step)
  }

  /** The links a settlement would make the next block hash. */
  function SettleCost(chain: Chain, id: Hash, step: u32): nat {
    match SettleLinks(chain, id, step)
    case Some(links) => links
    case None =>
      if id in chain.channels then 0
      else if SatAdd(chain.height, 1, U64_MAX) >= chain.paywordCapFrom then Min(step, MAX_SETTLE_DELTA)
      else step
  }

  /** The advance the door judges: on an unknown channel the step itself. */
  function DoorDelta(chain: Chain, id: Hash, step: u32): nat {
    match SettleDelta(chain, id, step)
    case Some(delta) => delta
    case None => if id in chain.channels then 0 else step
  }

  // ---------------------------------------------------------------------------
  // The pool as a value
  // ---------------------------------------------------------------------------

  datatype Pool = Pool(q: seq<SignedTx>, ids: set<Hash>, keys: map<Slot, Hash>, nullifiers: set<Hash>, cap: nat)

  function Ids(env: Env, q: seq<SignedTx>): set<Hash> {
    set tx | tx in q :: Txid(env, tx)
  }

  function Slots(q: seq<SignedTx>): set<Slot> {
    set tx | tx in q :: SlotOf(tx)
  }

  function Nullifiers(q: seq<SignedTx>): set<Hash> {
    set tx | tx in q && tx.payload.ShieldedSpend? :: tx.payload.nullifier
  }

  predicate Clash(env: Env, a: SignedTx, b: SignedTx) {
    || Txid(env, a) == Txid(env, b)
    || SlotOf(a) == SlotOf(b)
    || (a.payload.ShieldedSpend? && b.payload.ShieldedSpend? && a.payload.nullifier == b.payload.nullifier)
  }

  /** No two queued transactions share an id, a slot or a nullifier. */
  predicate Distinct(env: Env, q: seq<SignedTx>) {
    forall i, j :: 0 <= i < j < |q| ==> !Clash(env, q[i], q[j])
  }

  /** Each index is exactly the image of the queue. */
  predicate Exact(env: Env, p: Pool) {
    && p.ids == Ids(env, p.q)
    && p.keys.Keys == Slots(p.q)
    && (forall tx :: tx in p.q ==> SlotOf(tx) in p.keys && p.keys[SlotOf(tx)] == tx.nextAuth)
    && p.nullifiers == Nullifiers(p.q)
  }

  predicate Indexed(env: Env, p: Pool) {
    Exact(env, p) && Distinct(env, p.q) && |p.q| <= p.cap
  }

  /** A transaction pushed behind the others and indexed. */
  function Enter(env: Env, p: Pool, tx: SignedTx): Pool {
    Pool(p.q + [tx],
         p.ids + {Txid(env, tx)},
         p.keys[SlotOf(tx) := tx.nextAuth],
         if tx.payload.ShieldedSpend? then p.nullifiers + {tx.payload.nullifier} else p.nullifiers,
         p.cap)
  }

  /** The queue without the given slots, order kept. */
  function Kept(q: seq<SignedTx>, gone: set<Slot>): seq<SignedTx> {
    if q == [] then []
    else (if SlotOf(q[0]) in gone then [] else [q[0]]) + Kept(q[1..], gone)
  }

  function Dropped(q: seq<SignedTx>, gone: set<Slot>): seq<SignedTx> {
    if q == [] then []
    else (if SlotOf(q[0]) in gone then [q[0]] else []) + Dropped(q[1..], gone)
  }

  function Prune(env: Env, p: Pool, gone: set<Slot>): Pool {
    var out := Dropped(p.q, gone);
    Pool(Kept(p.q, gone), p.ids - Ids(env, out), p.keys - Slots(out), p.nullifiers - Nullifiers(out), p.cap)
  }

  // ---------------------------------------------------------------------------
  // Admission checks
  // ---------------------------------------------------------------------------

  datatype AdmitError =
    | Full
    | DuplicateTx
    | DuplicateSlot(pendingNonce: u64)
    | UnknownSender
    | StaleNonce(expected: nat, got: u64)
    | FutureNonce(current: nat, got: u64)
    | NonceGap(got: u64, missing: u64)
    | NullifierSpent
    | NullifierPending
    | UnknownAnchor
    | BadEnvelope
    | AuthMismatch
    | BadSignature
    | ChannelTooLong(maxSteps: u32)
    | SettleDeltaTooLarge(delta: nat)
    | SettleTooCostly(links: nat)

  /** The checks of the door. A malformed envelope is refused at two places. */
  datatype Check =
    | Capacity | FreshId | FreeSlot | SettleAdvance | SettleBudget | Lengths | OpenCap | Sender | NotStale | InWindow
    | Anchor | Unspent | NotPending | Predecessor | KeyBinding | Encodable | Signature

  /** The order in which they are made. */
  function Rank(c: Check): nat {
    match c
    case Capacity => 0
    case FreshId => 1
    case FreeSlot => 2
    case SettleAdvance => 3
    case SettleBudget => 4
    case Lengths => 5
    case OpenCap => 6
    case Sender => 7
    case NotStale => 8
    case InWindow => 9
    case Anchor => 10
    case Unspent => 11
    case NotPending => 12
    case Predecessor => 13
    case KeyBinding => 14
    case Encodable => 15
    case Signature => 16
  }

  function NonceOf(chain: Chain, sender: Hash): nat {
    if sender in chain.accounts then chain.accounts[sender].nonce else 0
  }

  /** What the key of a transaction must open: the account's commitment at the chain's nonce,
      further ahead the one the pending predecessor committed to. */
  function Expected(p: Pool, chain: Chain, tx: SignedTx): Option<Hash> {
    if tx.sender !in chain.accounts || tx.nonce < chain.accounts[tx.sender].nonce then None
    else if tx.nonce == chain.accounts[tx.sender].nonce then Some(chain.accounts[tx.sender].authCommit)
    else if (tx.sender, tx.nonce - 1) in p.keys then Some(p.keys[(tx.sender, tx.nonce - 1)])
    else None
  }

  predicate Fails(env: Env, p: Pool, chain: Chain, tx: SignedTx, c: Check) {
    match c
    case Capacity => |p.q| >= p.cap
    case FreshId => Txid(env, tx) in p.ids
    case FreeSlot => SlotOf(tx) in p.keys
    case SettleAdvance => tx.payload.ChannelSettle? && DoorDelta(chain, tx.payload.channel, tx.payload.step) > MAX_SETTLE_DELTA
    case SettleBudget => tx.payload.ChannelSettle? && SettleCost(chain, tx.payload.channel, tx.payload.step) > MAX_SETTLE_LINKS_PER_BLOCK
    case Lengths => !LengthsOk(tx)
    case OpenCap => tx.payload.ChannelOpen? && tx.payload.maxSteps > MAX_CHANNEL_STEPS
    case Sender => tx.sender !in chain.accounts
    case NotStale => tx.sender in chain.accounts && tx.nonce < NonceOf(chain, tx.sender)
    case InWindow => tx.sender in chain.accounts && tx.nonce >= NonceOf(chain, tx.sender) + env.window
    case Anchor => tx.payload.ShieldedSpend? && PoolOfAnchor(chain.pools, tx.payload.anchor).None?
    case Unspent =>
      tx.payload.ShieldedSpend? &&
      (match PoolOfAnchor(chain.pools, tx.payload.anchor)
       case None => false
       case Some(pool) => tx.payload.nullifier in pool.nullifiers)
    case NotPending => tx.payload.ShieldedSpend? && tx.payload.nullifier in p.nullifiers
    case Predecessor =>
      && tx.sender in chain.accounts && tx.nonce > NonceOf(chain, tx.sender)
      && (tx.sender, tx.nonce - 1) !in p.keys
    case KeyBinding => Expected(p, chain, tx).Some? && PkCommit(env, tx) != Expected(p, chain, tx).value
    case Encodable => SigningDigest(env, tx).None?
    case Signature => SigningDigest(env, tx).Some? && !Verifies(env, tx)
  }

  function ErrorOf(chain: Chain, tx: SignedTx, c: Check): AdmitError {
    match c
    case Capacity => Full
    case FreshId => DuplicateTx
    case FreeSlot => DuplicateSlot(tx.nonce)
    case SettleAdvance =>
      SettleDeltaTooLarge(if tx.payload.ChannelSettle? then DoorDelta(chain, tx.payload.channel, tx.payload.step) else 0)
    case SettleBudget =>
      SettleTooCostly(if tx.payload.ChannelSettle? then SettleCost(chain, tx.payload.channel, tx.payload.step) else 0)
    case Lengths => BadEnvelope
    case OpenCap => ChannelTooLong(if tx.payload.ChannelOpen? then tx.payload.maxSteps else 0)
    case Sender => UnknownSender
    case NotStale => StaleNonce(NonceOf(chain, tx.sender), tx.nonce)
    case InWindow => FutureNonce(NonceOf(chain, tx.sender), tx.nonce)
    case Anchor => UnknownAnchor
    case Unspent => NullifierSpent
    case NotPending => NullifierPending
    case Predecessor => NonceGap(tx.nonce, if tx.nonce > 0 then tx.nonce - 1 else 0)
    case KeyBinding => AuthMismatch
    case Encodable => BadEnvelope
    case Signature => BadSignature
  }

  predicate PassesBelow(env: Env, p: Pool, chain: Chain, tx: SignedTx, rank: nat) {
    forall c: Check :: Rank(c) < rank ==> !Fails(env, p, chain, tx, c)
  }

  predicate Admissible(env: Env, p: Pool, chain: Chain, tx: SignedTx) {
    forall c: Check :: !Fails(env, p, chain, tx, c)
  }

  /** The reply of the door: the id when every check passes, otherwise the error of the first
      check that fails. */
  ghost predicate Decides(env: Env, p: Pool, chain: Chain, tx: SignedTx, reply: Result<Hash, AdmitError>) {
    match reply
    case Ok(id) => id == Txid(env, tx) && Admissible(env, p, chain, tx)
    case Err(e) =>
      exists c: Check :: Fails(env, p, chain, tx, c) && PassesBelow(env, p, chain, tx, Rank(c)) && e == ErrorOf(chain, tx, c)
  }

  lemma RankInjective(a: Check, b: Check)
    requires Rank(a) == Rank(b)
    ensures a == b
  {
  }

  /** Every transaction has exactly one reply, so two ways to compute it agree. */
  lemma OneReply(env: Env, p: Pool, chain: Chain, tx: SignedTx, r: Result<Hash, AdmitError>, s: Result<Hash, AdmitError>)
    requires Decides(env, p, chain, tx, r) && Decides(env, p, chain, tx, s)
    ensures r == s
  {
    hide Fails, Txid, ErrorOf, Rank;
    if r.Err? && s.Err? {
      var a: Check :| Fails(env, p, chain, tx, a) && PassesBelow(env, p, chain, tx, Rank(a)) && r.error == ErrorOf(chain, tx, a);
      var b: Check :| Fails(env, p, chain, tx, b) && PassesBelow(env, p, chain, tx, Rank(b)) && s.error == ErrorOf(chain, tx, b);
      assert Rank(a) == Rank(b);
      RankInjective(a, b);
    }
  }

  lemma NothingBelowZero(env: Env, p: Pool, chain: Chain, tx: SignedTx)
    ensures PassesBelow(env, p, chain, tx, 0)
  {
  }

  lemma OnePassed(env: Env, p: Pool, chain: Chain, tx: SignedTx, c: Check)
    requires PassesBelow(env, p, chain, tx, Rank(c)) && !Fails(env, p, chain, tx, c)
    ensures PassesBelow(env, p, chain, tx, Rank(c) + 1)
  {
    hide Fails, Rank;
    forall d: Check | Rank(d) < Rank(c) + 1 ensures !Fails(env, p, chain, tx, d) {
      if Rank(d) == Rank(c) {
        RankInjective(c, d);
      }
    }
  }

  lemma AllPassed(env: Env, p: Pool, chain: Chain, tx: SignedTx)
    requires PassesBelow(env, p, chain, tx, 17)
    ensures Admissible(env, p, chain, tx)
  {
    hide Fails;
    forall c: Check ensures !Fails(env, p, chain, tx, c) {
      assert Rank(c) < 17;
    }
  }

  // ---------------------------------------------------------------------------
  // The door against the chain's own envelope rule
  // ---------------------------------------------------------------------------

  /** What applying a transaction demands of its envelope before the payload is looked at. */
  predicate Opens(env: Env, acc: Account, tx: SignedTx) {
    tx.nonce == acc.nonce && PkCommit(env, tx) == acc.authCommit && Verifies(env, tx)
  }

  /** The checks that judge an envelope. */
  predicate OfEnvelope(c: Check) {
    c in {Lengths, Sender, NotStale, InWindow, Predecessor, KeyBinding, Encodable, Signature}
  }

  /** At the chain's nonce the door's envelope checks pass exactly when the chain would accept
      the envelope. */
  lemma DoorAgreesWithApply(env: Env, p: Pool, chain: Chain, tx: SignedTx)
    requires tx.sender in chain.accounts && tx.nonce == chain.accounts[tx.sender].nonce && env.window > 0
    ensures Opens(env, chain.accounts[tx.sender], tx) <==> forall c: Check :: OfEnvelope(c) ==> !Fails(env, p, chain, tx, c)
  {
    hide PkCommit, SigningDigest;
    var acc := chain.accounts[tx.sender];
    VerifiedLengths(env, tx);
    if forall c: Check :: OfEnvelope(c) ==> !Fails(env, p, chain, tx, c) {
      assert !Fails(env, p, chain, tx, KeyBinding);
      assert !Fails(env, p, chain, tx, Encodable);
      assert !Fails(env, p, chain, tx, Signature);
    }
  }

  lemma VerifiedLengths(env: Env, tx: SignedTx)
    ensures Verifies(env, tx) ==> LengthsOk(tx) && SigningDigest(env, tx).Some?
  {
    hide SigningDigest;
  }

  /** A settlement is too costly to propose only on a channel opened longer than the cap:
      on every other channel whatever passes the advance check fits a block. */
  lemma TooCostlyOnlyOnLongChannels(env: Env, p: Pool, chain: Chain, tx: SignedTx)
    requires Fails(env, p, chain, tx, SettleBudget) && !Fails(env, p, chain, tx, SettleAdvance)
    ensures tx.payload.channel in chain.channels
    ensures chain.channels[tx.payload.channel].maxSteps > MAX_CHANNEL_STEPS
  {
  }

  // ---------------------------------------------------------------------------
  // Indexes
  // ---------------------------------------------------------------------------

  lemma EnterKeepsIndexed(env: Env, p: Pool, chain: Chain, tx: SignedTx)
    requires Indexed(env, p) && Admissible(env, p, chain, tx)
    ensures Indexed(env, Enter(env, p, tx))
  {
    hide Txid;
    assert !Fails(env, p, chain, tx, Capacity) && !Fails(env, p, chain, tx, FreshId);
    assert !Fails(env, p, chain, tx, FreeSlot) && !Fails(env, p, chain, tx, NotPending);
    var e := Enter(env, p, tx);
    forall i | 0 <= i < |p.q| ensures !Clash(env, p.q[i], tx) {
      assert p.q[i] in p.q;
    }
    assert tx in e.q;
    assert forall t :: t in e.q <==> t in p.q || t == tx;
    assert e.ids == Ids(env, e.q);
    assert e.keys.Keys == Slots(e.q);
    assert e.nullifiers == Nullifiers(e.q);
  }

  lemma {:induction false} KeptAndDropped(q: seq<SignedTx>, gone: set<Slot>)
    ensures forall tx :: tx in Kept(q, gone) <==> tx in q && SlotOf(tx) !in gone
    ensures forall tx :: tx in Dropped(q, gone) <==> tx in q && SlotOf(tx) in gone
    ensures |Kept(q, gone)| + |Dropped(q, gone)| == |q|
  {
    if q != [] {
      KeptAndDropped(q[1..], gone);
      assert q == [q[0]] + q[1..];
    }
  }

  lemma DistinctTail(env: Env, q: seq<SignedTx>)
    requires q != [] && Distinct(env, q)
    ensures Distinct(env, q[1..])
    ensures forall tx :: tx in q[1..] ==> !Clash(env, q[0], tx)
  {
    hide Clash;
    forall i, j | 0 <= i < j < |q[1..]| ensures !Clash(env, q[1..][i], q[1..][j]) {
      assert !Clash(env, q[i + 1], q[j + 1]);
    }
    forall tx | tx in q[1..] ensures !Clash(env, q[0], tx) {
      var j :| 0 <= j < |q[1..]| && q[1..][j] == tx;
      assert !Clash(env, q[0], q[j + 1]);
    }
  }

  lemma {:induction false} KeptDistinct(env: Env, q: seq<SignedTx>, gone: set<Slot>)
    requires Distinct(env, q)
    ensures Distinct(env, Kept(q, gone))
  {
    hide Clash;
    if q != [] {
      DistinctTail(env, q);
      KeptDistinct(env, q[1..], gone);
      KeptAndDropped(q[1..], gone);
      var k := Kept(q, gone);
      if SlotOf(q[0]) !in gone {
        forall i, j | 0 <= i < j < |k| ensures !Clash(env, k[i], k[j]) {
          assert k[j] in Kept(q[1..], gone);
          if i > 0 {
            assert k[i] == Kept(q[1..], gone)[i - 1] && k[j] == Kept(q[1..], gone)[j - 1];
          }
        }
      }
    }
  }

  lemma DroppedClashesWithNoneKept(env: Env, q: seq<SignedTx>, gone: set<Slot>, kept: SignedTx, out: SignedTx)
    requires Distinct(env, q) && kept in Kept(q, gone) && out in Dropped(q, gone)
    ensures !Clash(env, kept, out)
  {
    KeptAndDropped(q, gone);
    var i :| 0 <= i < |q| && q[i] == kept;
    var j :| 0 <= j < |q| && q[j] == out;
    assert i != j;
    assert !Clash(env, q[if i < j then i else j], q[if i < j then j else i]);
  }

  lemma PruneKeepsIndexed(env: Env, p: Pool, gone: set<Slot>)
    requires Indexed(env, p)
    ensures Indexed(env, Prune(env, p, gone))
  {
    hide Txid;
    KeptAndDropped(p.q, gone);
    KeptDistinct(env, p.q, gone);
    var k, out, r := Kept(p.q, gone), Dropped(p.q, gone), Prune(env, p, gone);
    forall a, b | a in k && b in out ensures !Clash(env, a, b) {
      DroppedClashesWithNoneKept(env, p.q, gone, a, b);
    }
    assert forall tx :: tx in p.q <==> tx in k || tx in out;
    assert r.ids == Ids(env, k);
    assert r.keys.Keys == Slots(k);
    assert r.nullifiers == Nullifiers(k);
  }
}
