/** The pool as an object: the queue and its indexes are changed in place. */
module Mempools {
  import opened Machine
  import opened SignBytes
  import opened Hashing
  import opened Admission
  import Lamport

  /** The key's commitment, where it was worth hashing, and the first failure among the checks
      that need neither chain nor pool. */
  datatype EnvelopeVerdict = EnvelopeVerdict(pkCommit: Option<Hash>, signature: Outcome<AdmitError>)

  predicate VerdictOf(env: Env, tx: SignedTx, v: EnvelopeVerdict) {
    if !LengthsOk(tx) then v == EnvelopeVerdict(None, Fail(BadEnvelope))
    else if tx.payload.ChannelOpen? && tx.payload.maxSteps > MAX_CHANNEL_STEPS then
      v == EnvelopeVerdict(None, Fail(ChannelTooLong(tx.payload.maxSteps)))
    else
      && v.pkCommit == Some(PkCommit(env, tx))
      && v.signature == (if Verifies(env, tx) then Pass else if SigningDigest(env, tx).None? then Fail(BadEnvelope) else Fail(BadSignature))
  }

  method ComputeVerdict(env: Env, tx: SignedTx) returns (v: EnvelopeVerdict)
    ensures VerdictOf(env, tx, v)
  {
    hide PkCommit, SigningDigest;
    if |tx.lamportPk| != Lamport.PK_LEN || |tx.sig| != Lamport.SIG_LEN {
      return EnvelopeVerdict(None, Fail(BadEnvelope));
    }
    match tx.payload {
      case ChannelOpen(maxSteps, _) =>
        if maxSteps > MAX_CHANNEL_STEPS {
          return EnvelopeVerdict(None, Fail(ChannelTooLong(maxSteps)));
        }
      case _ =>
    }
    var signature := Fail(BadEnvelope);
    match SigningDigest(env, tx) {
      case None =>
      case Some(digest) =>
        var ok := Lamport.Verify(env.xof, tx.lamportPk, digest, tx.sig);
        signature := if ok then Pass else Fail(BadSignature);
    }
    return EnvelopeVerdict(Some(PkCommit(env, tx)), signature);
  }

  class Mempool {
    const env: Env
    const cap: nat
    var q: seq<SignedTx>
    var ids: set<Hash>
    var keys: map<Slot, Hash>
    var nullifiers: set<Hash>

    constructor (env: Env, cap: nat)
      ensures this.env == env && Value() == Pool([], {}, map[], {}, cap) && Indexed(env, Value())
    {
      this.env, this.cap, q, ids, keys, nullifiers := env, cap, [], {}, map[], {};
    }

    function Value(): Pool
      reads this
    {
      Pool(q, ids, keys, nullifiers, cap)
    }

    method Gate(chain: Chain, tx: SignedTx) returns (r: Result<Hash, AdmitError>)
      ensures r.Ok? ==> r.value == Txid(env, tx) && PassesBelow(env, Value(), chain, tx, 3)
      ensures r.Err? ==> Decides(env, Value(), chain, tx, r)
    {
      hide Txid, Clash;
      NothingBelowZero(env, Value(), chain, tx);
      if |q| >= cap {
        assert Fails(env, Value(), chain, tx, Capacity);
        return Err(Full);
      }
      OnePassed(env, Value(), chain, tx, Capacity);
      var id := Txid(env, tx);
      if id in ids {
        assert Fails(env, Value(), chain, tx, FreshId);
        return Err(DuplicateTx);
      }
      OnePassed(env, Value(), chain, tx, FreshId);
      if SlotOf(tx) in keys {
        assert Fails(env, Value(), chain, tx, FreeSlot);
        return Err(DuplicateSlot(tx.nonce));
      }
      OnePassed(env, Value(), chain, tx, FreeSlot);
      return Ok(id);
    }

    method ChannelSettleCap(chain: Chain, tx: SignedTx) returns (r: Outcome<AdmitError>)
      requires PassesBelow(env, Value(), chain, tx, 3)
      ensures r.Pass? ==> PassesBelow(env, Value(), chain, tx, 5)
      ensures r.Fail? ==> Decides(env, Value(), chain, tx, Err(r.error))
    {
      hide Txid, SettleLinks;
      match tx.payload {
        case ChannelSettle(channel, step, _) =>
          match SettleDelta(chain, channel, step) {
            case Some(delta) =>
              if delta > MAX_SETTLE_DELTA {
                assert Fails(env, Value(), chain, tx, SettleAdvance);
                return Fail(SettleDeltaTooLarge(delta));
              }
            case None =>
              if channel !in chain.channels && step > MAX_SETTLE_DELTA {
                assert Fails(env, Value(), chain, tx, SettleAdvance);
                return Fail(SettleDeltaTooLarge(step));
              }
          }
          OnePassed(env, Value(), chain, tx, SettleAdvance);
          var links := SettleCost(chain, channel, step);
          if links > MAX_SETTLE_LINKS_PER_BLOCK {
            assert Fails(env, Value(), chain, tx, SettleBudget);
            return Fail(SettleTooCostly(links));
          }
        case _ =>
          OnePassed(env, Value(), chain, tx, SettleAdvance);
      }
      OnePassed(env, Value(), chain, tx, SettleBudget);
      return Pass;
    }

    /** The last twelve checks; a transaction that passes them is indexed and queued. */
    method AdmitGated(tx: SignedTx, id: Hash, chain: Chain, verdict: EnvelopeVerdict) returns (r: Result<Hash, AdmitError>)
      requires id == Txid(env, tx) && VerdictOf(env, tx, verdict) && PassesBelow(env, Value(), chain, tx, 5)
      modifies this`q, this`ids, this`keys, this`nullifiers
      ensures Decides(env, old(Value()), chain, tx, r)
      ensures Value() == if r.Ok? then Enter(env, old(Value()), tx) else old(Value())
    {
      hide Txid, PkCommit, SigningDigest, Verifies;
      var refused := EnvelopeRefusal(tx, chain, verdict);
      if refused.Fail? {
        return Err(refused.error);
      }
      refused := PoolRefusal(tx, chain);
      if refused.Fail? {
        return Err(refused.error);
      }
      refused := BindingRefusal(tx, chain, verdict);
      if refused.Fail? {
        return Err(refused.error);
      }
      AllPassed(env, Value(), chain, tx);
      Index(tx, id);
      q := q + [tx];
      return Ok(id);
    }

    /** The verdict's hash-free refusals, the account and the nonce. */
    method EnvelopeRefusal(tx: SignedTx, chain: Chain, verdict: EnvelopeVerdict) returns (r: Outcome<AdmitError>)
      requires VerdictOf(env, tx, verdict) && PassesBelow(env, Value(), chain, tx, 5)
      ensures r.Pass? ==> PassesBelow(env, Value(), chain, tx, 10)
      ensures r.Fail? ==> Decides(env, Value(), chain, tx, Err(r.error))
    {
      hide Txid, PkCommit, SigningDigest, Verifies;
      if verdict.pkCommit.None? {
        if !LengthsOk(tx) {
          assert Fails(env, Value(), chain, tx, Lengths);
        } else {
          OnePassed(env, Value(), chain, tx, Lengths);
          assert Fails(env, Value(), chain, tx, OpenCap);
        }
        return if verdict.signature.Fail? then verdict.signature else Fail(BadEnvelope);
      }
      OnePassed(env, Value(), chain, tx, Lengths);
      OnePassed(env, Value(), chain, tx, OpenCap);
      if tx.sender !in chain.accounts {
        assert Fails(env, Value(), chain, tx, Sender);
        return Fail(UnknownSender);
      }
      OnePassed(env, Value(), chain, tx, Sender);
      var current := chain.accounts[tx.sender].nonce;
      if tx.nonce < current {
        assert Fails(env, Value(), chain, tx, NotStale);
        return Fail(StaleNonce(current, tx.nonce));
      }
      OnePassed(env, Value(), chain, tx, NotStale);
      if tx.nonce >= current + env.window {
        assert Fails(env, Value(), chain, tx, InWindow);
        return Fail(FutureNonce(current, tx.nonce));
      }
      OnePassed(env, Value(), chain, tx, InWindow);
      return Pass;
    }

    /** The anchor and the nullifier of a shielded spend. */
    method PoolRefusal(tx: SignedTx, chain: Chain) returns (r: Outcome<AdmitError>)
      requires PassesBelow(env, Value(), chain, tx, 10)
      ensures r.Pass? ==> PassesBelow(env, Value(), chain, tx, 13)
      ensures r.Fail? ==> Decides(env, Value(), chain, tx, Err(r.error))
    {
      hide Txid, PkCommit, SigningDigest, Verifies;
      match tx.payload {
        case ShieldedSpend(anchor, nullifier, _) =>
          match PoolOfAnchor(chain.pools, anchor) {
            case None =>
              assert Fails(env, Value(), chain, tx, Anchor);
              return Fail(UnknownAnchor);
            case Some(pool) =>
              OnePassed(env, Value(), chain, tx, Anchor);
              if nullifier in pool.nullifiers {
                assert Fails(env, Value(), chain, tx, Unspent);
                return Fail(NullifierSpent);
              }
              OnePassed(env, Value(), chain, tx, Unspent);
          }
          if nullifier in nullifiers {
            assert Fails(env, Value(), chain, tx, NotPending);
            return Fail(NullifierPending);
          }
        case _ =>
          OnePassed(env, Value(), chain, tx, Anchor);
          OnePassed(env, Value(), chain, tx, Unspent);
      }
      OnePassed(env, Value(), chain, tx, NotPending);
      return Pass;
    }

    /** The key against the account or the pending predecessor, then the signature. */
    method BindingRefusal(tx: SignedTx, chain: Chain, verdict: EnvelopeVerdict) returns (r: Outcome<AdmitError>)
      requires VerdictOf(env, tx, verdict) && PassesBelow(env, Value(), chain, tx, 13)
      ensures r.Pass? ==> PassesBelow(env, Value(), chain, tx, 17)
      ensures r.Fail? ==> Decides(env, Value(), chain, tx, Err(r.error))
    {
      hide Txid, PkCommit, SigningDigest;
      assert !Fails(env, Value(), chain, tx, Sender) && !Fails(env, Value(), chain, tx, NotStale);
      assert !Fails(env, Value(), chain, tx, Lengths) && !Fails(env, Value(), chain, tx, OpenCap);
      var acc := chain.accounts[tx.sender];
      var expected := acc.authCommit;
      if tx.nonce != acc.nonce {
        if (tx.sender, tx.nonce - 1) !in keys {
          assert Fails(env, Value(), chain, tx, Predecessor);
          return Fail(NonceGap(tx.nonce, tx.nonce - 1));
        }
        expected := keys[(tx.sender, tx.nonce - 1)];
      }
      OnePassed(env, Value(), chain, tx, Predecessor);
      if verdict.pkCommit.value != expected {
        assert Fails(env, Value(), chain, tx, KeyBinding);
        return Fail(AuthMismatch);
      }
      OnePassed(env, Value(), chain, tx, KeyBinding);
      if verdict.signature.Fail? {
        if SigningDigest(env, tx).None? {
          assert Fails(env, Value(), chain, tx, Encodable);
        } else {
          OnePassed(env, Value(), chain, tx, Encodable);
          assert Fails(env, Value(), chain, tx, Signature);
        }
        return verdict.signature;
      }
      OnePassed(env, Value(), chain, tx, Encodable);
      OnePassed(env, Value(), chain, tx, Signature);
      return Pass;
    }

    method TryAdmit(tx: SignedTx, chain: Chain) returns (r: Result<Hash, AdmitError>)
      modifies this`q, this`ids, this`keys, this`nullifiers
      ensures Decides(env, old(Value()), chain, tx, r)
      ensures Value() == if r.Ok? then Enter(env, old(Value()), tx) else old(Value())
    {
      hide Txid, Fails;
      r := Gate(chain, tx);
      if r.Err? {
        return;
      }
      var capped := ChannelSettleCap(chain, tx);
      if capped.Fail? {
        return Err(capped.error);
      }
      var verdict := ComputeVerdict(env, tx);
      r := AdmitGated(tx, r.value, chain, verdict);
    }

    /** The same door for a caller that brings the verdict. */
    method TryAdmitVerified(tx: SignedTx, chain: Chain, verdict: EnvelopeVerdict) returns (r: Result<Hash, AdmitError>)
      requires VerdictOf(env, tx, verdict)
      modifies this`q, this`ids, this`keys, this`nullifiers
      ensures Decides(env, old(Value()), chain, tx, r)
      ensures Value() == if r.Ok? then Enter(env, old(Value()), tx) else old(Value())
    {
      hide Txid, Fails;
      r := Gate(chain, tx);
      if r.Err? {
        return;
      }
      var capped := ChannelSettleCap(chain, tx);
      if capped.Fail? {
        return Err(capped.error);
      }
      r := AdmitGated(tx, r.value, chain, verdict);
    }

    method Index(tx: SignedTx, id: Hash)
      requires id == Txid(env, tx)
      modifies this`ids, this`keys, this`nullifiers
      ensures Value() == Enter(env, old(Value()), tx).(q := q)
    {
      ids := ids + {id};
      keys := keys[SlotOf(tx) := tx.nextAuth];
      if tx.payload.ShieldedSpend? {
        nullifiers := nullifiers + {tx.payload.nullifier};
      }
    }

    method Unindex(tx: SignedTx)
      modifies this`ids, this`keys, this`nullifiers
      ensures ids == old(ids) - {Txid(env, tx)} && keys == old(keys) - {SlotOf(tx)}
      ensures nullifiers == old(nullifiers) - (if tx.payload.ShieldedSpend? then {tx.payload.nullifier} else {})
    {
      ids := ids - {Txid(env, tx)};
      keys := keys - {SlotOf(tx)};
      if tx.payload.ShieldedSpend? {
        nullifiers := nullifiers - {tx.payload.nullifier};
      }
    }

    /** The one-pass prune equals the filter that keeps what no included slot names. */
    method RemoveIncluded(included: seq<Slot>) returns (removed: nat)
      modifies this`q, this`ids, this`keys, this`nullifiers
      ensures Value() == Prune(env, old(Value()), set s | s in included)
      ensures removed == |Dropped(old(q), set s | s in included)|
    {
      hide Txid, Ids, Slots, Nullifiers, Kept, Dropped;
      ghost var was := Value();
      ghost var all := set s | s in included;
      if included == [] {
        assert all == {};
        NothingDropped(q);
        PruneNothing(env, was);
        return 0;
      }
      var gone := set s | s in included;
      var before := |q|;
      var kept := [];
      var taken := q;
      q := [];
      ghost var out := [];
      NoneOutYet(env, was);
      for i := 0 to before
        invariant kept + Kept(taken[i..], gone) == Kept(taken, gone)
        invariant out + Dropped(taken[i..], gone) == Dropped(taken, gone)
        invariant ids == was.ids - Ids(env, out)
        invariant keys == was.keys - Slots(out)
        invariant nullifiers == was.nullifiers - Nullifiers(out)
      {
        var tx := taken[i];
        SplitStep(taken, i, gone);
        if SlotOf(tx) in gone {
          OneMoreOut(env, was, out, tx);
          out := out + [tx];
          Unindex(tx);
        } else {
          kept := kept + [tx];
        }
      }
      SplitEnd(taken, before, gone);
      assert kept == Kept(taken, gone) && out == Dropped(taken, gone);
      q := kept;
      KeptAndDropped(taken, gone);
      removed := before - |q|;
    }
  }

  lemma SplitStep(q: seq<SignedTx>, i: nat, gone: set<Slot>)
    requires i < |q|
    ensures Kept(q[i..], gone) == (if SlotOf(q[i]) in gone then [] else [q[i]]) + Kept(q[i + 1..], gone)
    ensures Dropped(q[i..], gone) == (if SlotOf(q[i]) in gone then [q[i]] else []) + Dropped(q[i + 1..], gone)
  {
    assert q[i..][0] == q[i] && q[i..][1..] == q[i + 1..];
  }

  lemma SplitEnd(q: seq<SignedTx>, n: nat, gone: set<Slot>)
    requires n == |q|
    ensures Kept(q[n..], gone) == [] && Dropped(q[n..], gone) == []
  {
  }

  lemma NoneOutYet(env: Env, was: Pool)
    ensures was.ids - Ids(env, []) == was.ids
    ensures was.keys - Slots([]) == was.keys
    ensures was.nullifiers - Nullifiers([]) == was.nullifiers
  {
  }

  lemma OneMoreOut(env: Env, was: Pool, out: seq<SignedTx>, tx: SignedTx)
    ensures was.ids - Ids(env, out) - {Txid(env, tx)} == was.ids - Ids(env, out + [tx])
    ensures was.keys - Slots(out) - {SlotOf(tx)} == was.keys - Slots(out + [tx])
    ensures was.nullifiers - Nullifiers(out) - (if tx.payload.ShieldedSpend? then {tx.payload.nullifier} else {})
         == was.nullifiers - Nullifiers(out + [tx])
  {
    hide Txid;
    assert forall t :: t in out + [tx] <==> t in out || t == tx;
    assert Ids(env, out + [tx]) == Ids(env, out) + {Txid(env, tx)};
    assert Slots(out + [tx]) == Slots(out) + {SlotOf(tx)};
    assert Nullifiers(out + [tx]) == Nullifiers(out) + (if tx.payload.ShieldedSpend? then {tx.payload.nullifier} else {});
  }

  lemma {:induction false} NothingDropped(q: seq<SignedTx>)
    ensures Kept(q, {}) == q && Dropped(q, {}) == []
  {
    if q != [] {
      NothingDropped(q[1..]);
    }
  }

  lemma PruneNothing(env: Env, p: Pool)
    ensures Prune(env, p, {}) == p
  {
    NothingDropped(p.q);
    NoneOutYet(env, p);
  }
}
