/** Lamport one-time signatures: the key an account's ratchet commits to. Keys and signatures
    are flat byte strings of 32-byte chunks, as on the wire. */
module Lamport {
  import opened Machine
  import opened SignBytes
  import opened Hashing

  const CHUNK: nat := 32
  const N_CHUNKS: nat := 512
  const PK_LEN: nat := 16384
  const SIG_LEN: nat := 8192
  const BITS: nat := 256

  const DOM_LAMPORT_SK: Bytes := Ascii("hk/v1/lamport-sk")
  const DOM_LAMPORT_LEAF: Bytes := Ascii("hk/v1/lamport-leaf")
  const DOM_LAMPORT_PK: Bytes := Ascii("hk/v1/lamport-pk-commit")

  /** Message bit `i`, big endian within bytes. */
  function Bit(msg: Hash, i: nat): (b: nat)
    requires i < BITS
    ensures b < 2
  {
    ShiftRight(msg[i / 8], 7 - i % 8) % 2
  }

  function ChunkAt(flat: Bytes, j: nat): Hash
    requires (j + 1) * CHUNK <= |flat|
  {
    flat[j * CHUNK..(j + 1) * CHUNK]
  }

  function SecretChunk(xof: Xof, seed: Sized, index: u64, j: nat): Hash
    requires j < N_CHUNKS
  {
    Shake(xof, DOM_LAMPORT_SK, [seed, Le64(index), LittleEndian(j, 4)])
  }

  function Leaf(xof: Xof, chunk: Hash): Hash {
    Shake(xof, DOM_LAMPORT_LEAF, [chunk])
  }

  /** What the derivation of one secret chunk absorbs. */
  function SecretInput(seed: Sized, index: u64, j: nat): Bytes
    requires j < N_CHUNKS
  {
    Framed(DOM_LAMPORT_SK, [seed, Le64(index), LittleEndian(j, 4)])
  }

  /** Every chunk of every key of every seed is a secret of its own. */
  lemma SecretsDistinct(xof: Xof, seed: Sized, index: u64, j: nat, seed': Sized, index': u64, j': nat)
    requires j < N_CHUNKS && j' < N_CHUNKS
    requires NoCollision(xof, iset{SecretInput(seed, index, j), SecretInput(seed', index', j')})
    ensures SecretChunk(xof, seed, index, j) == SecretChunk(xof, seed', index', j')
            <==> seed == seed' && index == index' && j == j'
  {
    var a: Parts, b: Parts := [seed, Le64(index), LittleEndian(j, 4)], [seed', Le64(index'), LittleEndian(j', 4)];
    FramingDecides(DOM_LAMPORT_SK, a, DOM_LAMPORT_SK, b);
    if a == b {
      assert a[0] == b[0] && a[1] == b[1] && a[2] == b[2];
      Le64Injective(index, index');
      assert Pow256(4) == 0x1_0000_0000;
      LittleEndianRoundTrip(j, 4);
      LittleEndianRoundTrip(j', 4);
    }
    hide Framed;
  }

  lemma LeavesDistinct(xof: Xof, chunk: Hash, chunk': Hash)
    requires NoCollision(xof, iset{Framed(DOM_LAMPORT_LEAF, [chunk]), Framed(DOM_LAMPORT_LEAF, [chunk'])})
    ensures Leaf(xof, chunk) == Leaf(xof, chunk') <==> chunk == chunk'
  {
    FramingDecides(DOM_LAMPORT_LEAF, [chunk], DOM_LAMPORT_LEAF, [chunk']);
    assert [chunk] == [chunk'] ==> chunk == [chunk][0] == [chunk'][0] == chunk';
    hide Framed;
  }

  /** The bits spell the message, the most significant of each byte first. */
  lemma BitsSpellMessage(msg: Hash, k: nat)
    requires k < 32
    ensures msg[k] == 128 * Bit(msg, 8 * k) + 64 * Bit(msg, 8 * k + 1) + 32 * Bit(msg, 8 * k + 2) + 16 * Bit(msg, 8 * k + 3)
                      + 8 * Bit(msg, 8 * k + 4) + 4 * Bit(msg, 8 * k + 5) + 2 * Bit(msg, 8 * k + 6) + Bit(msg, 8 * k + 7)
  {
    ByteOfBits(msg[k]);
    BitOfByte(msg, k, 0);
    BitOfByte(msg, k, 1);
    BitOfByte(msg, k, 2);
    BitOfByte(msg, k, 3);
    BitOfByte(msg, k, 4);
    BitOfByte(msg, k, 5);
    BitOfByte(msg, k, 6);
    BitOfByte(msg, k, 7);
    hide Bit, ShiftRight;
  }

  lemma BitOfByte(msg: Hash, k: nat, i: nat)
    requires k < 32 && i < 8
    ensures Bit(msg, 8 * k + i) == ShiftRight(msg[k], 7 - i) % 2
  {
    hide ShiftRight;
    DivModUnique(8 * k + i, 8, k, i);
  }

  lemma ByteOfBits(b: byte)
    ensures b == 128 * (ShiftRight(b, 7) % 2) + 64 * (ShiftRight(b, 6) % 2) + 32 * (ShiftRight(b, 5) % 2)
                 + 16 * (ShiftRight(b, 4) % 2) + 8 * (ShiftRight(b, 3) % 2) + 4 * (ShiftRight(b, 2) % 2)
                 + 2 * (ShiftRight(b, 1) % 2) + ShiftRight(b, 0) % 2
  {
    var x1 := b / 2;
    var x2 := x1 / 2;
    var x3 := x2 / 2;
    var x4 := x3 / 2;
    var x5 := x4 / 2;
    var x6 := x5 / 2;
    var x7 := x6 / 2;
    assert ShiftRight(b, 1) == x1 && ShiftRight(b, 2) == x2;
    assert ShiftRight(b, 3) == x3 && ShiftRight(b, 4) == x4;
    assert ShiftRight(b, 5) == x5 && ShiftRight(b, 6) == x6;
    assert ShiftRight(b, 7) == x7 && x7 < 2;
  }

  /** Which of the two chunks of bit `i` the message reveals. */
  function Choice(msg: Hash, i: nat): (j: nat)
    requires i < BITS
    ensures j < N_CHUNKS
  {
    2 * i + Bit(msg, i)
  }

  /** The pair a key consists of. */
  predicate IsKeyPair(xof: Xof, seed: Sized, index: u64, sk: Bytes, pk: Bytes) {
    && |sk| == PK_LEN && |pk| == PK_LEN
    && forall j :: 0 <= j < N_CHUNKS ==>
         ChunkAt(sk, j) == SecretChunk(xof, seed, index, j) && ChunkAt(pk, j) == Leaf(xof, SecretChunk(xof, seed, index, j))
  }

  predicate ChunksUpTo(flat: Bytes, chunks: seq<Hash>, n: nat) {
    && n <= |chunks| && |flat| == n * CHUNK
    && forall j :: 0 <= j < n ==> ChunkAt(flat, j) == chunks[j]
  }

  lemma AppendChunk(flat: Bytes, chunks: seq<Hash>, n: nat)
    requires ChunksUpTo(flat, chunks, n) && n < |chunks|
    ensures ChunksUpTo(flat + chunks[n], chunks, n + 1)
  {
    var longer := flat + chunks[n];
    forall j | 0 <= j < n + 1 ensures ChunkAt(longer, j) == chunks[j] {
      if j < n {
        assert (j + 1) * CHUNK <= n * CHUNK;
        assert longer[j * CHUNK..(j + 1) * CHUNK] == flat[j * CHUNK..(j + 1) * CHUNK];
      }
    }
  }

  function SecretChunks(xof: Xof, seed: Sized, index: u64): seq<Hash> {
    seq(N_CHUNKS, j requires 0 <= j < N_CHUNKS => SecretChunk(xof, seed, index, j))
  }

  function LeafChunks(xof: Xof, seed: Sized, index: u64): seq<Hash> {
    seq(N_CHUNKS, j requires 0 <= j < N_CHUNKS => Leaf(xof, SecretChunk(xof, seed, index, j)))
  }

  method Keygen(xof: Xof, seed: Sized, index: u64) returns (sk: Bytes, pk: Bytes)
    ensures IsKeyPair(xof, seed, index, sk, pk)
  {
    hide Leaf, SecretChunk;
    sk, pk := [], [];
    ghost var secrets, leaves := SecretChunks(xof, seed, index), LeafChunks(xof, seed, index);
    for j := 0 to N_CHUNKS
      invariant ChunksUpTo(sk, secrets, j) && ChunksUpTo(pk, leaves, j)
    {
      var s := SecretChunk(xof, seed, index, j);
      AppendChunk(sk, secrets, j);
      AppendChunk(pk, leaves, j);
      pk := pk + Leaf(xof, s);
      sk := sk + s;
    }
  }

  function PkCommit(xof: Xof, pk: Sized): Hash {
    Shake(xof, DOM_LAMPORT_PK, [pk])
  }

  /** The chunks a signature reveals. */
  predicate Reveals(sk: Bytes, msg: Hash, sig: Bytes) {
    && |sk| == PK_LEN && |sig| == SIG_LEN
    && forall i :: 0 <= i < BITS ==> ChunkAt(sig, i) == ChunkAt(sk, Choice(msg, i))
  }

  function RevealedChunks(sk: Bytes, msg: Hash): seq<Hash>
    requires |sk| == PK_LEN
  {
    seq(BITS, i requires 0 <= i < BITS => ChunkAt(sk, Choice(msg, i)))
  }

  method SignDigest(sk: Bytes, msg: Hash) returns (sig: Bytes)
    requires |sk| == PK_LEN
    ensures Reveals(sk, msg, sig)
  {
    sig := [];
    ghost var chunks := RevealedChunks(sk, msg);
    for i := 0 to BITS
      invariant ChunksUpTo(sig, chunks, i)
    {
      var j := Choice(msg, i);
      AppendChunk(sig, chunks, i);
      sig := sig + ChunkAt(sk, j);
    }
  }

  /** Every revealed chunk hashes to the public chunk its bit selects. */
  predicate Valid(xof: Xof, pk: Bytes, msg: Hash, sig: Bytes) {
    && |pk| == PK_LEN && |sig| == SIG_LEN
    && forall i :: 0 <= i < BITS ==> Leaf(xof, ChunkAt(sig, i)) == ChunkAt(pk, Choice(msg, i))
  }

  method Verify(xof: Xof, pk: Bytes, msg: Hash, sig: Bytes) returns (ok: bool)
    ensures ok == Valid(xof, pk, msg, sig)
  {
    if |pk| != PK_LEN || |sig| != SIG_LEN {
      return false;
    }
    for i := 0 to BITS
      invariant forall k :: 0 <= k < i ==> Leaf(xof, ChunkAt(sig, k)) == ChunkAt(pk, Choice(msg, k))
    {
      if Leaf(xof, ChunkAt(sig, i)) != ChunkAt(pk, Choice(msg, i)) {
        return false;
      }
    }
    return true;
  }

  /** Every honest signature verifies, for every seed, ratchet position and digest. */
  lemma HonestSignatureValid(xof: Xof, seed: Sized, index: u64, sk: Bytes, pk: Bytes, msg: Hash, sig: Bytes)
    requires IsKeyPair(xof, seed, index, sk, pk) && Reveals(sk, msg, sig)
    ensures Valid(xof, pk, msg, sig)
  {
    hide Leaf, SecretChunk, Choice;
    forall i | 0 <= i < BITS ensures Leaf(xof, ChunkAt(sig, i)) == ChunkAt(pk, Choice(msg, i)) {
      ChoiceInRange(msg, i);
    }
  }

  lemma ChoiceInRange(msg: Hash, i: nat)
    requires i < BITS
    ensures Choice(msg, i) < N_CHUNKS
  {
  }

  lemma {:induction false} ShiftsCompose(x: nat, k: nat)
    ensures ShiftRight(x / 2, k) == ShiftRight(x, k + 1)
  {
    if k > 0 {
      ShiftsCompose(x, k - 1);
    }
  }

  /** A number of `n` bits is determined by them. */
  lemma {:induction false} BitsDecide(x: nat, y: nat, n: nat)
    requires x < Pow2(n) && y < Pow2(n)
    requires forall k :: 0 <= k < n ==> ShiftRight(x, k) % 2 == ShiftRight(y, k) % 2
    ensures x == y
  {
    if n > 0 {
      forall k | 0 <= k < n - 1 ensures ShiftRight(x / 2, k) % 2 == ShiftRight(y / 2, k) % 2 {
        ShiftsCompose(x, k);
        ShiftsCompose(y, k);
        assert ShiftRight(x, k + 1) % 2 == ShiftRight(y, k + 1) % 2;
      }
      BitsDecide(x / 2, y / 2, n - 1);
      assert ShiftRight(x, 0) % 2 == ShiftRight(y, 0) % 2;
    }
  }

  lemma ByteIsEightBits()
    ensures Pow2(8) == 256
  {
    assert Pow2(4) == 16;
  }

  lemma DifferentDigestsDifferInABit(a: Hash, b: Hash) returns (i: nat)
    requires a != b
    ensures i < BITS && Bit(a, i) != Bit(b, i)
  {
    var k :| 0 <= k < 32 && a[k] != b[k];
    if forall e :: 0 <= e < 8 ==> ShiftRight(a[k], e) % 2 == ShiftRight(b[k], e) % 2 {
      ByteIsEightBits();
      BitsDecide(a[k], b[k], 8);
    }
    var e :| 0 <= e < 8 && ShiftRight(a[k], e) % 2 != ShiftRight(b[k], e) % 2;
    i := 8 * k + (7 - e);
    DivModUnique(i, 8, k, 7 - e);
  }

  lemma ChunksDecide(a: Bytes, b: Bytes)
    requires |a| == |b| == PK_LEN && forall j :: 0 <= j < N_CHUNKS ==> ChunkAt(a, j) == ChunkAt(b, j)
    ensures a == b
  {
    forall p | 0 <= p < PK_LEN ensures a[p] == b[p] {
      var j, k := p / CHUNK, p % CHUNK;
      assert ChunkAt(a, j)[k] == a[j * CHUNK + k] && ChunkAt(b, j)[k] == b[j * CHUNK + k];
    }
  }

  /** Every position of every seed has a public key and a commitment of its own, unless the hash
      collides among the inputs named. */
  lemma KeysDistinct(xof: Xof, seed: Sized, index: u64, sk: Bytes, pk: Bytes, seed': Sized, index': u64, sk': Bytes, pk': Bytes)
    requires IsKeyPair(xof, seed, index, sk, pk) && IsKeyPair(xof, seed', index', sk', pk')
    requires NoCollision(xof, iset{Framed(DOM_LAMPORT_PK, [pk]), Framed(DOM_LAMPORT_PK, [pk']),
                                   Framed(DOM_LAMPORT_LEAF, [ChunkAt(sk, 0)]), Framed(DOM_LAMPORT_LEAF, [ChunkAt(sk', 0)]),
                                   SecretInput(seed, index, 0), SecretInput(seed', index', 0)})
    ensures PkCommit(xof, pk) == PkCommit(xof, pk') <==> seed == seed' && index == index'
  {
    if PkCommit(xof, pk) == PkCommit(xof, pk') {
      FramingDecides(DOM_LAMPORT_PK, [pk], DOM_LAMPORT_PK, [pk']);
      assert pk == [pk][0] == [pk'][0] == pk';
      hide Framed, SecretInput, SecretChunk, ChunkAt;
      LeavesDistinct(xof, ChunkAt(sk, 0), ChunkAt(sk', 0));
      SecretsDistinct(xof, seed, index, 0, seed', index', 0);
    } else if seed == seed' && index == index' {
      hide SecretChunk, Leaf;
      ChunksDecide(pk, pk');
      assert false;
    }
  }

  /** A key signs one digest: a valid signature on any second digest opens a public chunk the
      first signature left closed. */
  lemma SecondDigestOpensNewChunk(xof: Xof, pk: Bytes, msg: Hash, other: Hash, sig: Bytes) returns (i: nat)
    requires msg != other && Valid(xof, pk, other, sig)
    ensures i < BITS && Choice(other, i) != Choice(msg, i)
    ensures Leaf(xof, ChunkAt(sig, i)) == ChunkAt(pk, Choice(other, i))
  {
    i := DifferentDigestsDifferInABit(msg, other);
  }
}
