/** The contract calls of the bridge in the ABI encoding: fixed head words, then an array of
    byte strings behind offsets. */
module Abi {
  import opened Machine
  import Rlp

  type Address20 = Rlp.Address20
  type Selector = b: Bytes | |b| == 4 witness Repeat(0, 4)
  type Sig65 = b: Bytes | |b| == 65 witness Repeat(0, 65)

  function WordU(n: u128): (w: Bytes)
    ensures |w| == 32
  {
    Repeat(0, 16) + BigEndian(n, 16)
  }

  function WordAddr(a: Address20): (w: Bytes)
    ensures |w| == 32
  {
    Repeat(0, 12) + a
  }

  // ---------------------------------------------------------------------------
  // The reference decoder
  // ---------------------------------------------------------------------------

  predicate ZeroUpTo(b: Bytes, n: nat) {
    n <= |b| && forall i :: 0 <= i < n ==> b[i] == 0
  }

  /** The number in the word at `at`; words above 128 bits are refused. */
  function DecodeWordU(b: Bytes, at: nat): Option<u128> {
    if |b| < at + 32 || !ZeroUpTo(b[at..], 16) then None
    else
      Rlp.Pow256Of16();
      Some(FromBigEndian(b[at + 16..at + 32]))
  }

  /** The bytes behind the word at `at`. */
  function DecodeBytes(b: Bytes, at: nat): Option<Bytes> {
    match DecodeWordU(b, at)
    case None => None
    case Some(len) => if |b| < at + 32 + len then None else Some(b[at + 32..at + 32 + len])
  }

  const HEAD: nat := 4

  /** Where the block of the array argument starts: its offset is the fourth head word. */
  function ArrayAt(call: Bytes): Option<nat> {
    match DecodeWordU(call, HEAD + 96)
    case None => None
    case Some(off) => Some(HEAD + off)
  }

  /** The `i`-th byte string of the array: offsets count from behind the length word. */
  function ElementAt(call: Bytes, i: nat): Option<Bytes> {
    match ArrayAt(call)
    case None => None
    case Some(at) =>
      match DecodeWordU(call, at + 32 + 32 * i)
      case None => None
      case Some(off) => DecodeBytes(call, at + 32 + off)
  }

  function CountOf(call: Bytes): Option<nat> {
    match ArrayAt(call)
    case None => None
    case Some(at) => DecodeWordU(call, at)
  }

  /** A call decodes to these arguments. */
  predicate Reads(call: Bytes, selector: Selector, dest: Address20, amount: u128, id: Hash, sigs: seq<Sig65>) {
    && |call| >= HEAD + 128
    && call[..4] == selector
    && ZeroUpTo(call[4..], 12) && call[16..36] == dest
    && DecodeWordU(call, 36) == Some(amount)
    && call[68..100] == id
    && CountOf(call) == Some(|sigs|)
    && forall i :: 0 <= i < |sigs| ==> ElementAt(call, i) == Some(sigs[i])
  }

  lemma {:induction false} Zeros(n: nat)
    ensures forall i :: 0 <= i < n ==> Repeat(0, n)[i] == 0
  {
    if n > 0 {
      Zeros(n - 1);
    }
  }

  /** A word in place reads back. */
  lemma WordRoundTrip(b: Bytes, at: nat, n: u128)
    requires at + 32 <= |b| && b[at..at + 32] == WordU(n)
    ensures DecodeWordU(b, at) == Some(n)
  {
    Zeros(16);
    Rlp.Pow256Of16();
    BigEndianRoundTrip(n, 16);
    var w := b[at..at + 32];
    assert forall i :: 0 <= i < 16 ==> b[at..][i] == w[i];
    assert b[at + 16..at + 32] == w[16..32] == BigEndian(n, 16);
  }

  /** Where element `i` is told to be, and where it is. */
  function OffsetOf(n: nat, i: nat): nat {
    32 * n + 128 * i
  }

  const BLOCK: nat := 132

  predicate OffsetsWritten(b: Bytes, n: nat, k: nat) {
    && |b| >= BLOCK + 32 + 32 * k
    && forall i :: 0 <= i < k ==> OffsetOf(n, i) <= U128_MAX && b[BLOCK + 32 + 32 * i..BLOCK + 64 + 32 * i] == WordU(OffsetOf(n, i))
  }

  predicate ElementWritten(b: Bytes, n: nat, i: nat, sig: Sig65) {
    var at := BLOCK + 32 + OffsetOf(n, i);
    && |b| >= at + 128
    && b[at..at + 32] == WordU(65)
    && b[at + 32..at + 97] == sig
  }

  lemma OffsetAppended(b: Bytes, n: nat, k: nat)
    requires OffsetsWritten(b, n, k) && |b| == BLOCK + 32 + 32 * k && OffsetOf(n, k) <= U128_MAX
    ensures OffsetsWritten(b + WordU(OffsetOf(n, k)), n, k + 1)
  {
    hide WordU;
    var c := b + WordU(OffsetOf(n, k));
    forall i | 0 <= i < k + 1
      ensures OffsetOf(n, i) <= U128_MAX && c[BLOCK + 32 + 32 * i..BLOCK + 64 + 32 * i] == WordU(OffsetOf(n, i))
    {
      if i < k {
        assert c[BLOCK + 32 + 32 * i..BLOCK + 64 + 32 * i] == b[BLOCK + 32 + 32 * i..BLOCK + 64 + 32 * i];
      }
    }
  }

  lemma OffsetsKept(b: Bytes, more: Bytes, n: nat, k: nat)
    requires OffsetsWritten(b, n, k)
    ensures OffsetsWritten(b + more, n, k)
  {
    hide WordU;
    forall i | 0 <= i < k
      ensures (b + more)[BLOCK + 32 + 32 * i..BLOCK + 64 + 32 * i] == b[BLOCK + 32 + 32 * i..BLOCK + 64 + 32 * i]
    {
    }
  }

  lemma ElementKept(b: Bytes, more: Bytes, n: nat, i: nat, sig: Sig65)
    requires ElementWritten(b, n, i, sig)
    ensures ElementWritten(b + more, n, i, sig)
  {
    hide WordU;
    var at := BLOCK + 32 + OffsetOf(n, i);
    assert (b + more)[at..at + 32] == b[at..at + 32];
    assert (b + more)[at + 32..at + 97] == b[at + 32..at + 97];
  }

  lemma ElementAppended(b: Bytes, n: nat, i: nat, sig: Sig65)
    requires |b| == BLOCK + 32 + OffsetOf(n, i)
    ensures ElementWritten(b + WordU(65) + (sig + Repeat(0, 31)), n, i, sig)
  {
    hide WordU;
    var c := b + WordU(65) + (sig + Repeat(0, 31));
    var at := |b|;
    assert c[at..at + 32] == WordU(65);
    assert c[at + 32..at + 97] == sig;
  }

  lemma ElementReads(b: Bytes, n: nat, i: nat, sig: Sig65)
    requires i < n && OffsetsWritten(b, n, n) && ElementWritten(b, n, i, sig) && ArrayAt(b) == Some(BLOCK)
    ensures ElementAt(b, i) == Some(sig)
  {
    hide WordU, DecodeWordU, ArrayAt;
    WordRoundTrip(b, BLOCK + 32 + 32 * i, OffsetOf(n, i));
    WordRoundTrip(b, BLOCK + 32 + OffsetOf(n, i), 65);
  }

  /** The encoder with its running offset. */
  method EncodeAttestedCall(selector: Selector, dest: Address20, amount: u128, id: Hash, sigs: seq<Sig65>) returns (out: Bytes)
    requires OffsetOf(|sigs|, |sigs|) <= U64_MAX
    ensures Reads(out, selector, dest, amount, id, sigs)
    ensures |out| == BLOCK + 32 + 160 * |sigs|
  {
    hide WordU, ElementWritten, OffsetsWritten, DecodeWordU, Repeat;
    var n := |sigs|;
    out := selector + WordAddr(dest) + WordU(amount) + id + WordU(0x80);
    out := out + WordU(n);
    ghost var head := out;
    NoOffsetsYet(head, n);
    var off := 32 * n;
    for k := 0 to n
      invariant off == OffsetOf(n, k) && |out| == BLOCK + 32 + 32 * k
      invariant head <= out && OffsetsWritten(out, n, k)
    {
      OffsetAppended(out, n, k);
      out := out + WordU(off);
      off := off + 32 + 96;
    }
    for k := 0 to n
      invariant |out| == BLOCK + 32 + OffsetOf(n, k)
      invariant head <= out && OffsetsWritten(out, n, n)
      invariant forall i :: 0 <= i < k ==> ElementWritten(out, n, i, sigs[i])
    {
      var padded := sigs[k] + Repeat(0, 31);
      ElementAppended(out, n, k, sigs[k]);
      OffsetsKept(out, WordU(65) + padded, n, n);
      forall i | 0 <= i < k ensures ElementWritten(out + (WordU(65) + padded), n, i, sigs[i]) {
        ElementKept(out, WordU(65) + padded, n, i, sigs[i]);
      }
      assert out + WordU(65) + padded == out + (WordU(65) + padded);
      out := out + WordU(65) + padded;
    }
    HeadReads(out, selector, dest, amount, id, n);
    forall i | 0 <= i < n ensures ElementAt(out, i) == Some(sigs[i]) {
      ElementReads(out, n, i, sigs[i]);
    }
  }

  lemma NoOffsetsYet(b: Bytes, n: nat)
    requires |b| == BLOCK + 32
    ensures OffsetsWritten(b, n, 0)
  {
  }

  lemma HeadReads(call: Bytes, selector: Selector, dest: Address20, amount: u128, id: Hash, n: u128)
    requires selector + WordAddr(dest) + WordU(amount) + id + WordU(0x80) + WordU(n) <= call
    ensures call[..4] == selector && ZeroUpTo(call[4..], 12) && call[16..36] == dest && DecodeWordU(call, 36) == Some(amount)
    ensures call[68..100] == id && ArrayAt(call) == Some(BLOCK) && CountOf(call) == Some(n)
  {
    hide WordU, DecodeWordU, Repeat;
    var head := selector + WordAddr(dest) + WordU(amount) + id + WordU(0x80) + WordU(n);
    Zeros(12);
    assert call[..|head|] == head;
    assert call[..4] == head[..4] == selector;
    assert call[4..36] == head[4..36] == WordAddr(dest);
    assert forall i :: 0 <= i < 12 ==> call[4..][i] == call[4..36][i];
    assert call[16..36] == WordAddr(dest)[12..32] == dest;
    assert call[36..68] == head[36..68] == WordU(amount);
    assert call[68..100] == head[68..100] == id;
    assert call[100..132] == head[100..132] == WordU(0x80);
    assert call[132..164] == head[132..164] == WordU(n);
    WordRoundTrip(call, 36, amount);
    WordRoundTrip(call, 100, 0x80);
    WordRoundTrip(call, 132, n);
  }

  /** One byte string is the call of at most one list of arguments. */
  lemma CallDecides(call: Bytes, selector: Selector, dest: Address20, amount: u128, id: Hash, sigs: seq<Sig65>,
                    selector': Selector, dest': Address20, amount': u128, id': Hash, sigs': seq<Sig65>)
    requires Reads(call, selector, dest, amount, id, sigs) && Reads(call, selector', dest', amount', id', sigs')
    ensures selector == selector' && dest == dest' && amount == amount' && id == id' && sigs == sigs'
  {
    hide DecodeWordU, ElementAt, CountOf;
    forall i | 0 <= i < |sigs| ensures sigs[i] == sigs'[i] {
      assert ElementAt(call, i) == Some(sigs[i]) && ElementAt(call, i) == Some(sigs'[i]);
    }
  }
}
