/** Machine integers, byte strings and the two result types every other module uses. */
module Machine {

  const U32_MAX: nat := 0xFFFF_FFFF
  const U64_MAX: nat := 0xFFFF_FFFF_FFFF_FFFF
  const U128_MAX: nat := 0xFFFF_FFFF_FFFF_FFFF_FFFF_FFFF_FFFF_FFFF

  type u32 = n: nat | n <= U32_MAX
  type u64 = n: nat | n <= U64_MAX
  type u128 = n: nat | n <= U128_MAX
  type byte = b: nat | b < 256

  type Bytes = seq<byte>

  /** A 32-byte identifier or digest. */
  type Hash = h: Bytes | |h| == 32 witness Repeat(0, 32)

  /** `n` copies of one byte. */
  function Repeat(b: byte, n: nat): (r: Bytes)
    ensures |r| == n
  {
    if n == 0 then [] else [b] + Repeat(b, n - 1)
  }

  datatype Option<+T> = None | Some(value: T)

  datatype Result<+T, +E> = Ok(value: T) | Err(error: E)

  datatype Outcome<+E> = Pass | Fail(error: E)

  function Min(a: nat, b: nat): nat {
    if a <= b then a else b
  }

  function Max(a: nat, b: nat): nat {
    if a <= b then b else a
  }

  /** The three saturating operations; `max` is the largest value of the integer type. */
  function SatAdd(a: nat, b: nat, max: nat): nat {
    Min(a + b, max)
  }

  function SatMul(a: nat, b: nat, max: nat): nat {
    Min(a * b, max)
  }

  function SatSub(a: nat, b: nat): nat {
    if b <= a then a - b else 0
  }

  // ---------------------------------------------------------------------------
  // Fixed-width integers as bytes
  // ---------------------------------------------------------------------------

  function Pow256(k: nat): (p: nat)
    ensures p > 0
  {
    if k == 0 then 1 else 256 * Pow256(k - 1)
  }

  function Pow2(n: nat): (p: nat)
    ensures p > 0
  {
    if n == 0 then 1 else 2 * Pow2(n - 1)
  }

  /** `n >> k`. */
  function ShiftRight(n: nat, k: nat): nat {
    if k == 0 then n else ShiftRight(n, k - 1) / 2
  }

  /** The `k` low bytes of `n`, least significant first. */
  function LittleEndian(n: nat, k: nat): (b: Bytes)
    ensures |b| == k
  {
    if k == 0 then [] else [n % 256] + LittleEndian(n / 256, k - 1)
  }

  function FromLittleEndian(b: Bytes): (n: nat)
    ensures n < Pow256(|b|)
  {
    if b == [] then 0 else b[0] + 256 * FromLittleEndian(b[1..])
  }

  /** The `k` low bytes of `n`, most significant first. */
  function BigEndian(n: nat, k: nat): (b: Bytes)
    ensures |b| == k
  {
    if k == 0 then [] else BigEndian(n / 256, k - 1) + [n % 256]
  }

  function FromBigEndian(b: Bytes): (n: nat)
    ensures n < Pow256(|b|)
  {
    if b == [] then 0 else 256 * FromBigEndian(b[..|b| - 1]) + b[|b| - 1]
  }

  lemma {:induction false} LittleEndianRoundTrip(n: nat, k: nat)
    requires n < Pow256(k)
    ensures FromLittleEndian(LittleEndian(n, k)) == n
  {
    if k != 0 {
      LittleEndianRoundTrip(n / 256, k - 1);
      assert LittleEndian(n, k)[1..] == LittleEndian(n / 256, k - 1);
    }
  }

  lemma {:induction false} BigEndianRoundTrip(n: nat, k: nat)
    requires n < Pow256(k)
    ensures FromBigEndian(BigEndian(n, k)) == n
  {
    if k != 0 {
      BigEndianRoundTrip(n / 256, k - 1);
      assert BigEndian(n, k)[..k - 1] == BigEndian(n / 256, k - 1);
    }
  }

  /** The two orders mirror each other, and the low byte comes first in one and last in the other. */
  lemma {:induction false} EndiansMirror(n: nat, k: nat, i: nat)
    requires i < k
    ensures BigEndian(n, k)[i] == LittleEndian(n, k)[k - 1 - i]
    ensures LittleEndian(n, k)[0] == n % 256 == BigEndian(n, k)[k - 1]
    decreases k
  {
    if i < k - 1 {
      EndiansMirror(n / 256, k - 1, i);
    }
  }

  lemma Pow256Of8()
    ensures Pow256(8) == U64_MAX + 1
  {
    assert Pow256(4) == 0x1_0000_0000;
    assert Pow256(6) == 0x1_0000_0000_0000;
  }

  function Le64(n: u64): (b: Bytes)
    ensures |b| == 8
  {
    LittleEndian(n, 8)
  }

  function Be64(n: u64): (b: Bytes)
    ensures |b| == 8
  {
    BigEndian(n, 8)
  }

  function FromLe64(b: Bytes): u64
    requires |b| == 8
  {
    Pow256Of8();
    FromLittleEndian(b)
  }

  function FromBe64(b: Bytes): u64
    requires |b| == 8
  {
    Pow256Of8();
    FromBigEndian(b)
  }

  lemma Le64RoundTrip(n: u64)
    ensures FromLe64(Le64(n)) == n
  {
    Pow256Of8();
    LittleEndianRoundTrip(n, 8);
  }

  lemma Be64RoundTrip(n: u64)
    ensures FromBe64(Be64(n)) == n
  {
    Pow256Of8();
    BigEndianRoundTrip(n, 8);
  }

  lemma Le64Injective(a: u64, b: u64)
    requires Le64(a) == Le64(b)
    ensures a == b
  {
    Le64RoundTrip(a);
    Le64RoundTrip(b);
  }

  // ---------------------------------------------------------------------------
  // Byte strings end to end, and what is asked of a hash
  // ---------------------------------------------------------------------------

  function Concat(parts: seq<Bytes>): Bytes {
    if parts == [] then [] else parts[0] + Concat(parts[1..])
  }

  lemma {:induction false} HashesConcatLength(parts: seq<Hash>)
    ensures |Concat(parts)| == 32 * |parts|
  {
    if parts != [] {
      HashesConcatLength(parts[1..]);
    }
  }

  /** Digests laid end to end read back. */
  lemma {:induction false} HashesConcatDecide(a: seq<Hash>, b: seq<Hash>)
    requires Concat(a) == Concat(b)
    ensures a == b
    decreases |a|
  {
    HashesConcatLength(a);
    HashesConcatLength(b);
    if a != [] {
      assert a[0] == Concat(a)[..32] == Concat(b)[..32] == b[0];
      assert Concat(a[1..]) == Concat(a)[32..] == Concat(b)[32..] == Concat(b[1..]);
      HashesConcatDecide(a[1..], b[1..]);
      assert a == [a[0]] + a[1..] && b == [b[0]] + b[1..];
    }
  }

  /** The hash has no collision among these particular inputs. */
  ghost predicate NoCollision(hash: Bytes -> Hash, inputs: iset<Bytes>) {
    forall a, b :: a in inputs && b in inputs && hash(a) == hash(b) ==> a == b
  }

  // ---------------------------------------------------------------------------
  // Quotients and remainders
  // ---------------------------------------------------------------------------

  lemma MulAtLeast(d: nat, k: nat)
    requires k > 0
    ensures d * k >= d
  {
  }

  lemma DivModUnique(n: nat, d: nat, q: nat, r: nat)
    requires r < d && n == d * q + r
    ensures n / d == q && n % d == r
  {
    var k, m := n / d, n % d;
    assert n == d * k + m;
    if k < q {
      assert d * q - d * k == d * (q - k);
      MulAtLeast(d, q - k);
    } else if q < k {
      assert d * k - d * q == d * (k - q);
      MulAtLeast(d, k - q);
    }
  }
}
