/** Who gets into the pool, said without the list of checks: over exact indexes and a sender in
    order, exactly the next transaction of that sender with a payload inside the door's bounds. */
module MempoolDoor {
  import opened Machine
  import opened Hashing
  import opened SignBytes
  import opened Admission
  import opened MempoolRuns
  import Lamport

  /** A settlement the chain could apply: the channel is open and the step is ahead of what is
      settled and within what was opened. */
  predicate Settles(ch: Channel, step: u32) {
    !ch.refunded && ch.settled < step <= ch.maxSteps
  }

  /** What the door asks of a payload, against the chain and what is queued. */
  ghost predicate PayloadWelcome(chain: Chain, q: seq<SignedTx>, payload: Tx) {
    match payload
    case Other(_) => true
    case ChannelOpen(maxSteps, _) => maxSteps <= 131072
    case ChannelSettle(id, step, _) =>
      if id !in chain.channels then step <= 65536
      else Settles(chain.channels[id], step) ==> step - chain.channels[id].settled <= 65536 && step <= 131072
    case ShieldedSpend(anchor, nullifier, _) =>
      && (exists i :: FirstWithAnchor(chain.pools, anchor, i) && nullifier !in chain.pools[i].nullifiers)
      && (forall tx :: tx in q ==> !SpendsNullifier(tx, nullifier))
  }

  predicate SpendsNullifier(tx: SignedTx, nullifier: Hash) {
    tx.payload.ShieldedSpend? && tx.payload.nullifier == nullifier
  }

  predicate FirstWithAnchor(pools: seq<ShieldedPool>, anchor: Hash, i: int) {
    0 <= i < |pools| && anchor in pools[i].recentAnchors && forall j :: 0 <= j < i ==> anchor !in pools[j].recentAnchors
  }

  /** The next transaction of its sender: room, a new id, the nonce the sender's queue has come to
      and within the window, the key the queue's last transaction committed to, a good signature. */
  ghost predicate Welcome(env: Env, p: Pool, chain: Chain, tx: SignedTx) {
    && |p.q| < p.cap
    && (forall other :: other in p.q ==> Txid(env, other) != Txid(env, tx))
    && tx.sender in chain.accounts
    && (var acc, own := chain.accounts[tx.sender], QueueOf(p.q, tx.sender);
        && tx.nonce == acc.nonce + |own| && |own| < env.window
        && PkCommit(env, tx) == Commitment(acc, own, |own|))
    && Verifies(env, tx)
    && PayloadWelcome(chain, p.q, tx.payload)
  }

  lemma {:induction false} PoolOfAnchorIsFirst(pools: seq<ShieldedPool>, anchor: Hash)
    ensures PoolOfAnchor(pools, anchor).Some? <==> exists i :: FirstWithAnchor(pools, anchor, i)
    ensures forall i :: FirstWithAnchor(pools, anchor, i) ==> PoolOfAnchor(pools, anchor) == Some(pools[i])
    decreases |pools|
  {
    if pools != [] {
      PoolOfAnchorIsFirst(pools[1..], anchor);
      if anchor in pools[0].recentAnchors {
        assert FirstWithAnchor(pools, anchor, 0);
        assert forall i :: FirstWithAnchor(pools, anchor, i) ==> i == 0;
      } else {
        forall i | FirstWithAnchor(pools, anchor, i) ensures i > 0 && FirstWithAnchor(pools[1..], anchor, i - 1) {
          assert i > 0 && anchor !in pools[0].recentAnchors;
          forall j | 0 <= j < i - 1 ensures anchor !in pools[1..][j].recentAnchors {
            assert pools[1..][j] == pools[j + 1];
          }
        }
        forall i | FirstWithAnchor(pools[1..], anchor, i) ensures FirstWithAnchor(pools, anchor, i + 1) {
          forall j | 0 <= j < i + 1 ensures anchor !in pools[j].recentAnchors {
            assert j > 0 ==> pools[j] == pools[1..][j - 1];
          }
        }
      }
    }
  }

  /** The checks that read the payload. */
  predicate OfPayload(c: Check) {
    c in {SettleAdvance, SettleBudget, OpenCap, Anchor, Unspent, NotPending}
  }

  lemma PayloadChecks(env: Env, p: Pool, chain: Chain, tx: SignedTx)
    requires Exact(env, p)
    ensures PayloadWelcome(chain, p.q, tx.payload) <==> forall c: Check :: OfPayload(c) ==> !Fails(env, p, chain, tx, c)
  {
    hide Txid, PkCommit, SigningDigest, Verifies;
    match tx.payload {
      case ShieldedSpend(anchor, nullifier, _) => SpendChecks(env, p, chain, tx);
      case ChannelSettle(id, step, _) => SettleChecks(env, p, chain, tx);
      case ChannelOpen(_, _) =>
        assert Fails(env, p, chain, tx, OpenCap) <==> tx.payload.maxSteps > MAX_CHANNEL_STEPS;
      case Other(_) =>
    }
  }

  lemma SpendChecks(env: Env, p: Pool, chain: Chain, tx: SignedTx)
    requires Exact(env, p) && tx.payload.ShieldedSpend?
    ensures PayloadWelcome(chain, p.q, tx.payload) <==> forall c: Check :: OfPayload(c) ==> !Fails(env, p, chain, tx, c)
  {
    hide Txid, PkCommit, SigningDigest, Verifies, PoolOfAnchor;
    var anchor, nullifier := tx.payload.anchor, tx.payload.nullifier;
    PoolOfAnchorIsFirst(chain.pools, anchor);
    assert nullifier in p.nullifiers <==> exists other :: other in p.q && SpendsNullifier(other, nullifier);
    assert Fails(env, p, chain, tx, NotPending) <==> nullifier in p.nullifiers;
    assert Fails(env, p, chain, tx, Anchor) <==> PoolOfAnchor(chain.pools, anchor).None?;
    assert Fails(env, p, chain, tx, Unspent) <==>
      PoolOfAnchor(chain.pools, anchor).Some? && nullifier in PoolOfAnchor(chain.pools, anchor).value.nullifiers;
  }

  lemma SettleChecks(env: Env, p: Pool, chain: Chain, tx: SignedTx)
    requires tx.payload.ChannelSettle?
    ensures PayloadWelcome(chain, p.q, tx.payload) <==> forall c: Check :: OfPayload(c) ==> !Fails(env, p, chain, tx, c)
  {
    hide Txid, PkCommit, SigningDigest, Verifies;
    var id, step := tx.payload.channel, tx.payload.step;
    assert Fails(env, p, chain, tx, SettleAdvance) <==> DoorDelta(chain, id, step) > MAX_SETTLE_DELTA;
    assert Fails(env, p, chain, tx, SettleBudget) <==> SettleCost(chain, id, step) > MAX_SETTLE_LINKS_PER_BLOCK;
  }

  /** The nonce of the next transaction names a free slot. */
  lemma NextSlotIsFree(env: Env, p: Pool, acc: Account, tx: SignedTx)
    requires Exact(env, p) && Ratcheted(env, acc, QueueOf(p.q, tx.sender))
    requires tx.nonce == acc.nonce + |QueueOf(p.q, tx.sender)|
    ensures SlotOf(tx) !in p.keys
  {
    hide PkCommit, Verifies, QueueOf, Txid, Ratcheted, Commitment;
    var own := QueueOf(p.q, tx.sender);
    if SlotOf(tx) in p.keys {
      QueueOfMembers(p.q, tx.sender);
      var there := SomeAtSlot(env, p, SlotOf(tx));
      var i :| 0 <= i < |own| && own[i] == there;
      RatchetAt(env, acc, own, i);
    }
  }

  /** What such a transaction's key must open is the queue's last commitment. */
  lemma ExpectedIsCommitment(env: Env, p: Pool, chain: Chain, tx: SignedTx)
    requires Exact(env, p) && tx.sender in chain.accounts
    requires Ratcheted(env, chain.accounts[tx.sender], QueueOf(p.q, tx.sender))
    requires tx.nonce == chain.accounts[tx.sender].nonce + |QueueOf(p.q, tx.sender)|
    ensures var acc, own := chain.accounts[tx.sender], QueueOf(p.q, tx.sender);
            Expected(p, chain, tx) == Some(Commitment(acc, own, |own|))
  {
    hide PkCommit, Verifies, QueueOf, Txid, Ratcheted;
    var acc, own := chain.accounts[tx.sender], QueueOf(p.q, tx.sender);
    if own != [] {
      var last := own[|own| - 1];
      RatchetAt(env, acc, own, |own| - 1);
      QueueOfMembers(p.q, tx.sender);
      assert last in own && SlotOf(last) == (tx.sender, tx.nonce - 1);
    }
  }

  /** Exactly the next transaction of a sender gets in: with exact indexes and the sender's queue in
      order the door admits a transaction if and only if it is welcome. */
  lemma AdmittedIffNext(env: Env, p: Pool, chain: Chain, tx: SignedTx)
    requires Exact(env, p) && SenderRatcheted(env, chain, p.q, tx.sender)
    ensures Admissible(env, p, chain, tx) <==> Welcome(env, p, chain, tx)
  {
    PayloadChecks(env, p, chain, tx);
    if Admissible(env, p, chain, tx) {
      AdmittedIsWelcome(env, p, chain, tx);
    }
    if Welcome(env, p, chain, tx) {
      NothingIsRatcheted(env, chain.accounts[tx.sender]);
      WelcomeIsAdmitted(env, p, chain, tx);
    }
  }

  lemma AdmittedIsWelcome(env: Env, p: Pool, chain: Chain, tx: SignedTx)
    requires Exact(env, p) && SenderRatcheted(env, chain, p.q, tx.sender) && Admissible(env, p, chain, tx)
    requires PayloadWelcome(chain, p.q, tx.payload)
    ensures Welcome(env, p, chain, tx)
  {
    hide PkCommit, Verifies, QueueOf, Txid, PayloadWelcome, SenderRatcheted;
    AdmittedIsNext(env, p, chain, tx);
    assert !Fails(env, p, chain, tx, Capacity) && !Fails(env, p, chain, tx, FreshId) && !Fails(env, p, chain, tx, InWindow);
    assert forall other :: other in p.q ==> Txid(env, other) in p.ids;
  }

  lemma WelcomeIsAdmitted(env: Env, p: Pool, chain: Chain, tx: SignedTx)
    requires Exact(env, p) && Welcome(env, p, chain, tx)
    requires Ratcheted(env, chain.accounts[tx.sender], QueueOf(p.q, tx.sender))
    requires forall c: Check :: OfPayload(c) ==> !Fails(env, p, chain, tx, c)
    ensures Admissible(env, p, chain, tx)
  {
    hide PkCommit, SigningDigest, QueueOf, Txid, PayloadWelcome, Ratcheted, Commitment, Exact;
    NextSlotIsFree(env, p, chain.accounts[tx.sender], tx);
    ExpectedIsCommitment(env, p, chain, tx);
    VerifiedLengths(env, tx);
    IdIsFresh(env, p, tx);
    hide Verifies, Lamport.Valid;
    forall c: Check ensures !Fails(env, p, chain, tx, c) {
    }
  }

  lemma IdIsFresh(env: Env, p: Pool, tx: SignedTx)
    requires Exact(env, p) && forall other :: other in p.q ==> Txid(env, other) != Txid(env, tx)
    ensures Txid(env, tx) !in p.ids
  {
    hide Txid;
  }

  /** So the reply is the id exactly for a welcome transaction. */
  lemma RepliesWithIdIffNext(env: Env, p: Pool, chain: Chain, tx: SignedTx, reply: Result<Hash, AdmitError>)
    requires Exact(env, p) && SenderRatcheted(env, chain, p.q, tx.sender) && Decides(env, p, chain, tx, reply)
    ensures reply.Ok? <==> Welcome(env, p, chain, tx)
    ensures reply.Ok? ==> reply.value == Txid(env, tx)
  {
    hide Fails, Welcome, Exact, SenderRatcheted, Txid, ErrorOf;
    AdmittedIffNext(env, p, chain, tx);
  }

  /** And a step of a run pushes exactly such a transaction, behind all others, and no other. */
  lemma StepPushesIffNext(env: Env, n: Node, tx: SignedTx)
    requires Exact(env, n.pool) && SenderRatcheted(env, n.chain, n.pool.q, tx.sender)
    ensures var after := Step(env, n, MempoolRuns.Admit(tx));
            after.chain == n.chain && after.pool.q == if Welcome(env, n.pool, n.chain, tx) then n.pool.q + [tx] else n.pool.q
  {
    hide Welcome, Exact, SenderRatcheted, Admissible;
    AdmittedIffNext(env, n.pool, n.chain, tx);
  }

  /** Whatever the pool holds, nothing at or past the window is ever admitted, nor anything the
      account has passed. */
  lemma NonceInWindow(env: Env, p: Pool, chain: Chain, tx: SignedTx, reply: Result<Hash, AdmitError>)
    requires Decides(env, p, chain, tx, reply) && reply.Ok?
    ensures tx.sender in chain.accounts
    ensures chain.accounts[tx.sender].nonce <= tx.nonce < chain.accounts[tx.sender].nonce + env.window
  {
    hide PkCommit, SigningDigest, Txid;
    assert !Fails(env, p, chain, tx, Sender) && !Fails(env, p, chain, tx, NotStale) && !Fails(env, p, chain, tx, InWindow);
  }

  /** The pending predecessor of a transaction committed to another key. */
  predicate CommitsElsewhere(env: Env, q: seq<SignedTx>, tx: SignedTx, other: SignedTx) {
    other in q && SlotOf(other) == (tx.sender, tx.nonce - 1) && other.nextAuth != PkCommit(env, tx)
  }

  /** Every refusal tells the truth about the pool and the chain. */
  lemma RefusalsAreTrue(env: Env, p: Pool, chain: Chain, tx: SignedTx, e: AdmitError)
    requires Exact(env, p) && Decides(env, p, chain, tx, Err(e))
    ensures match e
            case Full => |p.q| >= p.cap
            case DuplicateTx => exists other :: other in p.q && Txid(env, other) == Txid(env, tx)
            case DuplicateSlot(n) => n == tx.nonce && exists other :: other in p.q && SlotOf(other) == SlotOf(tx)
            case UnknownSender => tx.sender !in chain.accounts
            case StaleNonce(expected, got) =>
              tx.sender in chain.accounts && got == tx.nonce < expected == chain.accounts[tx.sender].nonce
            case FutureNonce(current, got) =>
              tx.sender in chain.accounts && got == tx.nonce >= current + env.window && current == chain.accounts[tx.sender].nonce
            case NonceGap(got, missing) =>
              && tx.sender in chain.accounts && got == tx.nonce == missing + 1 && chain.accounts[tx.sender].nonce <= missing
              && forall other :: other in p.q ==> SlotOf(other) != (tx.sender, missing)
            case NullifierSpent =>
              && tx.payload.ShieldedSpend?
              && exists i :: FirstWithAnchor(chain.pools, tx.payload.anchor, i) && tx.payload.nullifier in chain.pools[i].nullifiers
            case NullifierPending =>
              tx.payload.ShieldedSpend? && exists other :: other in p.q && SpendsNullifier(other, tx.payload.nullifier)
            case UnknownAnchor =>
              tx.payload.ShieldedSpend? && forall pool :: pool in chain.pools ==> tx.payload.anchor !in pool.recentAnchors
            case BadEnvelope => !LengthsOk(tx) || env.payloadJson(tx.payload).None?
            case AuthMismatch =>
              && tx.sender in chain.accounts
              && (var acc := chain.accounts[tx.sender];
                  || (tx.nonce == acc.nonce && PkCommit(env, tx) != acc.authCommit)
                  || (tx.nonce > acc.nonce && exists other :: CommitsElsewhere(env, p.q, tx, other)))
            case BadSignature => !Verifies(env, tx) && LengthsOk(tx)
            case ChannelTooLong(n) => tx.payload.ChannelOpen? && n == tx.payload.maxSteps > 131072
            case SettleDeltaTooLarge(delta) =>
              && tx.payload.ChannelSettle? && delta > 65536
              && (if tx.payload.channel in chain.channels
                  then Settles(chain.channels[tx.payload.channel], tx.payload.step)
                       && delta == tx.payload.step - chain.channels[tx.payload.channel].settled
                  else delta == tx.payload.step)
            case SettleTooCostly(links) =>
              && tx.payload.ChannelSettle? && links == tx.payload.step > 131072 && tx.payload.channel in chain.channels
              && Settles(chain.channels[tx.payload.channel], tx.payload.step)
  {
    hide Txid, PkCommit, Verifies, Lamport.Valid, Fails, Exact, FirstWithAnchor, PoolOfAnchor, CommitsElsewhere, SpendsNullifier;
    var c: Check :| Fails(env, p, chain, tx, c) && PassesBelow(env, p, chain, tx, Rank(c)) && e == ErrorOf(chain, tx, c);
    FailsIsTrouble(env, p, chain, tx, c);
    match c {
      case Anchor => NoPoolHasAnchor(chain.pools, tx.payload.anchor);
      case Signature => FailsIsTrouble(env, p, chain, tx, Lengths);
      case SettleBudget => FailsIsTrouble(env, p, chain, tx, SettleAdvance);
      case _ =>
    }
  }

  lemma NoPoolHasAnchor(pools: seq<ShieldedPool>, anchor: Hash)
    requires forall i :: !FirstWithAnchor(pools, anchor, i)
    ensures forall pool :: pool in pools ==> anchor !in pool.recentAnchors
  {
    PoolOfAnchorIsFirst(pools, anchor);
    NoPoolOfAnchor(pools, anchor);
  }

  // ---------------------------------------------------------------------------
  // In which order
  // ---------------------------------------------------------------------------

  /** The `k`-th thing that can be wrong with a transaction, in terms of the queue and the chain. */
  ghost predicate Trouble(env: Env, p: Pool, chain: Chain, tx: SignedTx, k: nat) {
    match k
    case 0 => |p.q| >= p.cap
    case 1 => exists other :: other in p.q && Txid(env, other) == Txid(env, tx)
    case 2 => exists other :: other in p.q && SlotOf(other) == SlotOf(tx)
    case 3 =>
      && tx.payload.ChannelSettle?
      && (if tx.payload.channel in chain.channels
          then Settles(chain.channels[tx.payload.channel], tx.payload.step)
               && tx.payload.step - chain.channels[tx.payload.channel].settled > 65536
          else tx.payload.step > 65536)
    case 4 =>
      && tx.payload.ChannelSettle? && tx.payload.step > 131072
      && (if tx.payload.channel in chain.channels then Settles(chain.channels[tx.payload.channel], tx.payload.step)
          else Min(chain.height + 1, U64_MAX) < chain.paywordCapFrom)
    case 5 => |tx.lamportPk| != 16384 || |tx.sig| != 8192
    case 6 => tx.payload.ChannelOpen? && tx.payload.maxSteps > 131072
    case 7 => tx.sender !in chain.accounts
    case 8 => tx.sender in chain.accounts && tx.nonce < chain.accounts[tx.sender].nonce
    case 9 => tx.sender in chain.accounts && tx.nonce >= chain.accounts[tx.sender].nonce + env.window
    case 10 => tx.payload.ShieldedSpend? && forall i :: !FirstWithAnchor(chain.pools, tx.payload.anchor, i)
    case 11 =>
      && tx.payload.ShieldedSpend?
      && exists i :: FirstWithAnchor(chain.pools, tx.payload.anchor, i) && tx.payload.nullifier in chain.pools[i].nullifiers
    case 12 => tx.payload.ShieldedSpend? && exists other :: other in p.q && SpendsNullifier(other, tx.payload.nullifier)
    case 13 =>
      && tx.sender in chain.accounts && tx.nonce > chain.accounts[tx.sender].nonce
      && forall other :: other in p.q ==> SlotOf(other) != (tx.sender, tx.nonce - 1)
    case 14 =>
      && tx.sender in chain.accounts
      && (var acc := chain.accounts[tx.sender];
          || (tx.nonce == acc.nonce && PkCommit(env, tx) != acc.authCommit)
          || (tx.nonce > acc.nonce && exists other :: CommitsElsewhere(env, p.q, tx, other)))
    case 15 => env.payloadJson(tx.payload).None?
    case 16 => env.payloadJson(tx.payload).Some? && !Verifies(env, tx)
    case _ => false
  }

  /** What the reply calls the `k`-th. */
  predicate Calls(e: AdmitError, k: nat) {
    match e
    case Full => k == 0
    case DuplicateTx => k == 1
    case DuplicateSlot(_) => k == 2
    case SettleDeltaTooLarge(_) => k == 3
    case SettleTooCostly(_) => k == 4
    case BadEnvelope => k == 5 || k == 15
    case ChannelTooLong(_) => k == 6
    case UnknownSender => k == 7
    case StaleNonce(_, _) => k == 8
    case FutureNonce(_, _) => k == 9
    case UnknownAnchor => k == 10
    case NullifierSpent => k == 11
    case NullifierPending => k == 12
    case NonceGap(_, _) => k == 13
    case AuthMismatch => k == 14
    case BadSignature => k == 16
  }

  lemma FailsIsTrouble(env: Env, p: Pool, chain: Chain, tx: SignedTx, c: Check)
    requires Exact(env, p)
    ensures Fails(env, p, chain, tx, c) <==> Trouble(env, p, chain, tx, Rank(c))
    ensures Calls(ErrorOf(chain, tx, c), Rank(c)) && Rank(c) < 17
  {
    hide Txid, PkCommit, Verifies, Lamport.Valid, PoolOfAnchor;
    match c {
      case FreshId => assert Txid(env, tx) in p.ids <==> exists other :: other in p.q && Txid(env, other) == Txid(env, tx);
      case FreeSlot => SlotTaken(env, p, SlotOf(tx));
      case Anchor =>
        if tx.payload.ShieldedSpend? {
          PoolOfAnchorIsFirst(chain.pools, tx.payload.anchor);
        }
      case Unspent =>
        if tx.payload.ShieldedSpend? {
          PoolOfAnchorIsFirst(chain.pools, tx.payload.anchor);
        }
      case NotPending =>
        if tx.payload.ShieldedSpend? && tx.payload.nullifier in p.nullifiers {
          PendingNullifier(env, p, tx.payload.nullifier);
        }
      case Predecessor =>
        if tx.nonce > 0 {
          SlotTaken(env, p, (tx.sender, tx.nonce - 1));
        }
      case KeyBinding => BindingIsTrouble(env, p, chain, tx);
      case _ =>
    }
  }

  lemma SlotTaken(env: Env, p: Pool, slot: Slot)
    requires Exact(env, p)
    ensures slot in p.keys <==> exists other :: other in p.q && SlotOf(other) == slot
  {
    hide Txid;
    assert slot in p.keys <==> slot in Slots(p.q);
  }

  lemma BindingIsTrouble(env: Env, p: Pool, chain: Chain, tx: SignedTx)
    requires Exact(env, p)
    ensures Fails(env, p, chain, tx, KeyBinding) <==> Trouble(env, p, chain, tx, 14)
  {
    hide Txid, PkCommit;
    if tx.sender in chain.accounts && tx.nonce > chain.accounts[tx.sender].nonce {
      var slot: Slot := (tx.sender, tx.nonce - 1);
      if slot in p.keys {
        var there := SomeAtSlot(env, p, slot);
        if p.keys[slot] != PkCommit(env, tx) {
          assert CommitsElsewhere(env, p.q, tx, there);
        }
      }
      forall other | CommitsElsewhere(env, p.q, tx, other) ensures slot in p.keys && p.keys[slot] == other.nextAuth {
      }
    }
  }

  lemma RankOnto(k: nat) returns (c: Check)
    requires k < 17
    ensures Rank(c) == k
  {
    c := [Capacity, FreshId, FreeSlot, SettleAdvance, SettleBudget, Lengths, OpenCap, Sender, NotStale, InWindow,
          Anchor, Unspent, NotPending, Predecessor, KeyBinding, Encodable, Signature][k];
  }

  /** The reply names the first thing wrong, and is the id exactly when nothing is. */
  lemma ReplyIsFirstTrouble(env: Env, p: Pool, chain: Chain, tx: SignedTx, reply: Result<Hash, AdmitError>)
    requires Exact(env, p) && Decides(env, p, chain, tx, reply)
    ensures reply.Ok? <==> forall k: nat :: !Trouble(env, p, chain, tx, k)
    ensures reply.Err? ==>
              exists k: nat :: Trouble(env, p, chain, tx, k) && Calls(reply.error, k)
                               && forall j: nat :: j < k ==> !Trouble(env, p, chain, tx, j)
  {
    hide Fails, Txid, ErrorOf, Exact, Calls;
    if reply.Ok? {
      forall k: nat ensures !Trouble(env, p, chain, tx, k) {
        if k < 17 {
          var c := RankOnto(k);
          FailsIsTrouble(env, p, chain, tx, c);
          hide Trouble;
        }
      }
    } else {
      hide Trouble, Rank;
      var c: Check :|
        Fails(env, p, chain, tx, c) && PassesBelow(env, p, chain, tx, Rank(c)) && reply.error == ErrorOf(chain, tx, c);
      FailsIsTrouble(env, p, chain, tx, c);
      forall j: nat | j < Rank(c) ensures !Trouble(env, p, chain, tx, j) {
        var d := RankOnto(j);
        FailsIsTrouble(env, p, chain, tx, d);
      }
    }
  }

  lemma PendingNullifier(env: Env, p: Pool, nullifier: Hash)
    requires Exact(env, p) && nullifier in p.nullifiers
    ensures exists other :: other in p.q && SpendsNullifier(other, nullifier)
  {
    hide Txid;
    var other :| other in p.q && other.payload.ShieldedSpend? && other.payload.nullifier == nullifier;
    assert SpendsNullifier(other, nullifier);
  }

  lemma {:induction false} NoPoolOfAnchor(pools: seq<ShieldedPool>, anchor: Hash)
    requires PoolOfAnchor(pools, anchor).None?
    ensures forall pool :: pool in pools ==> anchor !in pool.recentAnchors
    decreases |pools|
  {
    if pools != [] {
      NoPoolOfAnchor(pools[1..], anchor);
    }
  }

  // ---------------------------------------------------------------------------
  // What a transaction's signature covers
  // ---------------------------------------------------------------------------

  function DigestParts(env: Env, tx: SignedTx): Parts
    requires env.payloadJson(tx.payload).Some?
  {
    [env.payloadJson(tx.payload).value, tx.sender, Le64(tx.nonce), tx.nextAuth]
  }

  /** The digest an account signs covers the payload's bytes, the sender, the nonce and the next
      commitment, all four, unless the hash collides between the two inputs named. */
  lemma DigestCoversEveryField(env: Env, a: SignedTx, b: SignedTx)
    requires env.payloadJson(a.payload).Some? && env.payloadJson(b.payload).Some?
    requires NoCollision(env.xof, iset{Framed(DOM_TX_MSG, DigestParts(env, a)), Framed(DOM_TX_MSG, DigestParts(env, b))})
    ensures SigningDigest(env, a) == SigningDigest(env, b) <==>
              && env.payloadJson(a.payload) == env.payloadJson(b.payload)
              && a.sender == b.sender && a.nonce == b.nonce && a.nextAuth == b.nextAuth
  {
    var x, y := DigestParts(env, a), DigestParts(env, b);
    FramingDecides(DOM_TX_MSG, x, DOM_TX_MSG, y);
    if x == y {
      assert x[0] == y[0] && x[1] == y[1] && x[2] == y[2] && x[3] == y[3];
      Le64Injective(a.nonce, b.nonce);
    }
    hide Framed, Le64;
  }

  /** And the id covers the whole transaction's bytes. */
  lemma IdCoversTransaction(env: Env, a: SignedTx, b: SignedTx)
    requires NoCollision(env.xof, iset{Framed(DOM_TXID, [env.txJson(a)]), Framed(DOM_TXID, [env.txJson(b)])})
    ensures Txid(env, a) == Txid(env, b) <==> env.txJson(a) == env.txJson(b)
  {
    FramingDecides(DOM_TXID, [env.txJson(a)], DOM_TXID, [env.txJson(b)]);
    assert [env.txJson(a)] == [env.txJson(b)] ==> env.txJson(a) == [env.txJson(a)][0] == [env.txJson(b)][0];
    hide Framed;
  }
}
