/** The two wire framings of a block batch. */
module Batches {
  import opened Machine
  import opened SignBytes

  /** Transactions, rotations and set changes travel as opaque items here. */
  datatype Batch = Batch(parentAppHash: Hash, txs: seq<Bytes>, rotations: seq<Bytes>, aggProof: Bytes, setChanges: seq<Bytes>)

  /** The older layout, without set changes. */
  datatype BatchV1 = BatchV1(parentAppHash: Hash, txs: seq<Bytes>, rotations: seq<Bytes>, aggProof: Bytes)

  const MAGIC: Bytes := Ascii("HK-BLK-2")

  /** The serializer of the two structures. */
  datatype Codec = Codec(serV1: BatchV1 -> Bytes, deV1: Bytes -> Option<BatchV1>, ser: Batch -> Bytes, de: Bytes -> Option<Batch>)

  /** What the fixed-field serializer promises: round trips, and a layout that begins with the
      raw 32 bytes of the hash and the number of transactions. */
  ghost predicate Faithful(c: Codec) {
    && (forall v :: c.deV1(c.serV1(v)) == Some(v))
    && (forall b :: c.de(c.ser(b)) == Some(b))
    && (forall v: BatchV1 :: |v.txs| <= U64_MAX ==>
          |c.serV1(v)| >= 40 && c.serV1(v)[..32] == v.parentAppHash && c.serV1(v)[32..40] == Le64(|v.txs|))
    && (forall x :: c.de(x).Some? ==> |x| >= 32 && c.de(x).value.parentAppHash == x[..32])
  }

  function ToV1(b: Batch): BatchV1 {
    BatchV1(b.parentAppHash, b.txs, b.rotations, b.aggProof)
  }

  function FromV1(v: BatchV1): Batch {
    Batch(v.parentAppHash, v.txs, v.rotations, v.aggProof, [])
  }

  function Encode(c: Codec, b: Batch): Bytes {
    if b.setChanges == [] then c.serV1(ToV1(b)) else MAGIC + c.ser(b)
  }

  function Decode(c: Codec, bytes: Bytes): Option<Batch> {
    if bytes == [] then None
    else if MAGIC <= bytes then c.de(bytes[|MAGIC|..])
    else
      match c.deV1(bytes)
      case None => None
      case Some(v) => Some(FromV1(v))
  }

  /** The number of transactions whose count would read as the magic; no vector is that long. */
  const MAGIC_COUNT: u64 := FromLe64(MAGIC)

  lemma MagicIsEight()
    ensures |MAGIC| == 8
  {
  }

  /** Decoding undoes encoding exactly when the batch carries a set change or its parent hash
      does not begin with the magic; no bytes at all are no batch. */
  lemma RoundTripIff(c: Codec, b: Batch)
    requires Faithful(c) && |b.txs| <= U64_MAX && |b.txs| != MAGIC_COUNT
    ensures Decode(c, Encode(c, b)) == Some(b) <==> b.setChanges != [] || !(MAGIC <= b.parentAppHash)
    ensures Decode(c, []) == None
  {
    hide MAGIC, MAGIC_COUNT;
    MagicIsEight();
    if b.setChanges != [] {
      var e := MAGIC + c.ser(b);
      assert e[|MAGIC|..] == c.ser(b);
    } else {
      var v := ToV1(b);
      var e := c.serV1(v);
      assert e[..8] == b.parentAppHash[..8];
      assert FromV1(v) == b;
      if MAGIC <= b.parentAppHash && c.de(e[8..]) == Some(b) {
        MisreadNeedsMagicCount(c, b, e);
      }
    }
  }

  /** A misread batch that still came out right would hold the magic over and over, up to and
      including its transaction count. */
  lemma MisreadNeedsMagicCount(c: Codec, b: Batch, e: Bytes)
    requires |b.txs| <= U64_MAX && |e| >= 40 && e[..32] == b.parentAppHash && e[32..40] == Le64(|b.txs|)
    requires MAGIC <= b.parentAppHash && b.parentAppHash == e[8..40]
    ensures |b.txs| == MAGIC_COUNT
  {
    hide MAGIC, Le64;
    MagicIsEight();
    var p := b.parentAppHash;
    forall k | 0 <= k < 32 ensures p[k] == e[k] && p[k] == e[k + 8] {
      assert e[..32][k] == e[k] && e[8..40][k] == e[k + 8];
    }
    forall k | 0 <= k < 8 ensures MAGIC[k] == Le64(|b.txs|)[k] {
      assert p[..8][k] == MAGIC[k];
      assert p[k] == p[k + 8] == p[k + 16] == p[k + 24] == e[k + 32];
      assert e[32..40][k] == e[k + 32];
    }
    assert MAGIC == Le64(|b.txs|);
    Le64RoundTrip(|b.txs|);
  }

  /** A node that knows only the older layout reads every batch without set changes as it was
      made, and agrees with a newer one about it exactly when the parent hash lacks the magic. */
  lemma OldNodesStillRead(c: Codec, b: Batch)
    requires Faithful(c) && |b.txs| <= U64_MAX && |b.txs| != MAGIC_COUNT && b.setChanges == []
    ensures c.deV1(Encode(c, b)) == Some(ToV1(b))
    ensures Decode(c, Encode(c, b)) == Some(FromV1(c.deV1(Encode(c, b)).value)) <==> !(MAGIC <= b.parentAppHash)
  {
    hide Decode, MAGIC, MAGIC_COUNT;
    assert FromV1(ToV1(b)) == b;
    RoundTripIff(c, b);
  }
}
