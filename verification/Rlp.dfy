/** Recursive-length-prefix encoding (Appendix B of the Ethereum Yellow Paper) and the
    transaction layout the bridge signs. */
module Rlp {
  import opened Machine

  type Address20 = a: Bytes | |a| == 20 witness Repeat(0, 20)

  function StripLeadingZeros(b: Bytes): (r: Bytes)
    ensures |r| <= |b|
    ensures r != [] ==> r[0] != 0
  {
    if b != [] && b[0] == 0 then StripLeadingZeros(b[1..]) else b
  }

  function RlpLen(len: u64, offset: nat): (prefix: Bytes)
    requires offset == 0x80 || offset == 0xc0
    ensures prefix != []
  {
    if len < 56 then [offset + len]
    else
      var be := StripLeadingZeros(BigEndian(len, 8));
      [offset + 55 + |be|] + be
  }

  function RlpBytes(b: Bytes): Bytes
    requires |b| <= U64_MAX
  {
    if |b| == 1 && b[0] < 0x80 then b else RlpLen(|b|, 0x80) + b
  }

  function RlpUint(n: u128): Bytes {
    if n == 0 then [0x80] else RlpBytes(StripLeadingZeros(BigEndian(n, 16)))
  }

  function RlpList(items: seq<Bytes>): Bytes
    requires |Concat(items)| <= U64_MAX
  {
    RlpLen(|Concat(items)|, 0xc0) + Concat(items)
  }

  // ---------------------------------------------------------------------------
  // The reference decoder
  // ---------------------------------------------------------------------------

  /** A string, or a list with its payload still encoded. */
  datatype Item = Str(bytes: Bytes) | Lst(payload: Bytes)

  function Cut(b: Bytes, at: nat, len: nat): Option<(Bytes, Bytes)> {
    if at + len <= |b| then Some((b[at..at + len], b[at + len..])) else None
  }

  function DecodeLong(b: Bytes, k: nat): Option<(Bytes, Bytes)>
    requires b != []
  {
    if 1 + k <= |b| then Cut(b, 1 + k, FromBigEndian(b[1..1 + k])) else None
  }

  /** The first item of a byte string and what follows it. */
  function DecodeItem(b: Bytes): Option<(Item, Bytes)> {
    if b == [] then None
    else if b[0] < 0x80 then Some((Str(b[..1]), b[1..]))
    else
      var cut :=
        if b[0] < 0xb8 then Cut(b, 1, b[0] - 0x80)
        else if b[0] < 0xc0 then DecodeLong(b, b[0] - 0xb7)
        else if b[0] < 0xf8 then Cut(b, 1, b[0] - 0xc0)
        else DecodeLong(b, b[0] - 0xf7);
      match cut
      case None => None
      case Some((payload, rest)) => Some((if b[0] < 0xc0 then Str(payload) else Lst(payload), rest))
  }

  /** All items of a payload. */
  function DecodeAll(b: Bytes): Option<seq<Item>>
    decreases |b|
  {
    if b == [] then Some([])
    else
      match DecodeItem(b)
      case None => None
      case Some((item, rest)) =>
        if |rest| >= |b| then None
        else
          match DecodeAll(rest)
          case None => None
          case Some(items) => Some([item] + items)
  }

  function Encode(item: Item): Bytes
    requires |if item.Str? then item.bytes else item.payload| <= U64_MAX
  {
    match item
    case Str(b) => RlpBytes(b)
    case Lst(p) => RlpLen(|p|, 0xc0) + p
  }

  // ---------------------------------------------------------------------------
  // Big-endian numbers without leading zeros
  // ---------------------------------------------------------------------------

  lemma {:induction false} LeadingZero(b: Bytes)
    ensures FromBigEndian([0] + b) == FromBigEndian(b)
  {
    var z := [0] + b;
    if b == [] {
      assert z[..0] == [];
      assert FromBigEndian(z) == 256 * FromBigEndian([]) + 0;
    } else {
      LeadingZero(b[..|b| - 1]);
      assert z[..|z| - 1] == [0] + b[..|b| - 1];
    }
  }

  lemma {:induction false} StripKeepsValue(b: Bytes)
    ensures FromBigEndian(StripLeadingZeros(b)) == FromBigEndian(b)
  {
    if b != [] && b[0] == 0 {
      StripKeepsValue(b[1..]);
      LeadingZero(b[1..]);
      assert b == [0] + b[1..];
    }
  }

  lemma Pow256Of16()
    ensures Pow256(16) == U128_MAX + 1
  {
    Pow256Of8();
    assert Pow256(10) == 0x1_0000_0000_0000_0000_0000;
    assert Pow256(12) == 0x1_0000_0000_0000_0000_0000_0000;
    assert Pow256(14) == 0x1_0000_0000_0000_0000_0000_0000_0000;
  }

  /** The bytes of a scalar give it back. */
  lemma UintBytes(n: u128)
    ensures FromBigEndian(StripLeadingZeros(BigEndian(n, 16))) == n
    ensures |StripLeadingZeros(BigEndian(n, 16))| <= 16
    ensures RlpUint(n) == RlpBytes(StripLeadingZeros(BigEndian(n, 16)))
  {
    Pow256Of16();
    BigEndianRoundTrip(n, 16);
    var s := StripLeadingZeros(BigEndian(n, 16));
    StripKeepsValue(BigEndian(n, 16));
    if n == 0 {
      ZeroStrips(s);
    }
  }

  lemma {:induction false} Positive(b: Bytes)
    requires b != [] && b[0] != 0
    ensures FromBigEndian(b) > 0
  {
    if |b| > 1 {
      Positive(b[..|b| - 1]);
    } else {
      assert b[..0] == [];
    }
  }

  lemma ZeroStrips(s: Bytes)
    requires FromBigEndian(s) == 0 && (s != [] ==> s[0] != 0)
    ensures s == []
  {
    if s != [] {
      Positive(s);
    }
  }

  // ---------------------------------------------------------------------------
  // Unique decoding
  // ---------------------------------------------------------------------------

  lemma LongLength(len: u64)
    requires len >= 56
    ensures 1 <= |StripLeadingZeros(BigEndian(len, 8))| <= 8
    ensures FromBigEndian(StripLeadingZeros(BigEndian(len, 8))) == len
  {
    Pow256Of8();
    BigEndianRoundTrip(len, 8);
    StripKeepsValue(BigEndian(len, 8));
  }

  /** A length prefix is read back, whatever follows. */
  lemma LengthRoundTrip(b: Bytes, offset: nat, rest: Bytes)
    requires |b| <= U64_MAX && (offset == 0x80 || offset == 0xc0)
    ensures var e := RlpLen(|b|, offset) + b + rest;
            && offset <= e[0] < offset + 0x40
            && (e[0] < offset + 0x38 ==> Cut(e, 1, e[0] - offset) == Some((b, rest)))
            && (e[0] >= offset + 0x38 ==> DecodeLong(e, e[0] - offset - 0x37) == Some((b, rest)))
  {
    var head := RlpLen(|b|, offset);
    var e := head + b + rest;
    if |b| < 56 {
      assert e[1..1 + |b|] == b && e[1 + |b|..] == rest;
    } else {
      LongLength(|b|);
      var be := StripLeadingZeros(BigEndian(|b|, 8));
      var k := |be|;
      assert head == [offset + 55 + k] + be;
      assert e[1..1 + k] == be;
      assert e[1 + k..1 + k + |b|] == b && e[1 + k + |b|..] == rest;
    }
  }

  /** An encoded item is read back exactly, whatever follows it: no encoding is a prefix of
      another. */
  lemma ItemRoundTrip(item: Item, rest: Bytes)
    requires |if item.Str? then item.bytes else item.payload| <= U64_MAX
    ensures DecodeItem(Encode(item) + rest) == Some((item, rest)) && Encode(item) != []
  {
    hide RlpLen, DecodeLong, Cut;
    match item {
      case Str(b) =>
        if |b| == 1 && b[0] < 0x80 {
          assert (b + rest)[..1] == b && (b + rest)[1..] == rest;
        } else {
          LengthRoundTrip(b, 0x80, rest);
        }
      case Lst(p) =>
        LengthRoundTrip(p, 0xc0, rest);
        var e := RlpLen(|p|, 0xc0) + p + rest;
        assert Encode(item) + rest == e && e[0] >= 0xc0;
    }
  }

  predicate Encodable(items: seq<Item>) {
    forall i :: 0 <= i < |items| ==> |if items[i].Str? then items[i].bytes else items[i].payload| <= U64_MAX
  }

  function EncodeAll(items: seq<Item>): Bytes
    requires Encodable(items)
  {
    if items == [] then [] else Encode(items[0]) + EncodeAll(items[1..])
  }

  /** A list of items is read back exactly. */
  lemma {:induction false} ItemsRoundTrip(items: seq<Item>)
    requires Encodable(items)
    ensures DecodeAll(EncodeAll(items)) == Some(items)
  {
    hide DecodeItem, Encode;
    if items != [] {
      ItemsRoundTrip(items[1..]);
      ItemRoundTrip(items[0], EncodeAll(items[1..]));
      assert items == [items[0]] + items[1..];
    }
  }

  // ---------------------------------------------------------------------------
  // The transactions the bridge signs
  // ---------------------------------------------------------------------------

  datatype Tx1559 = Tx1559(chainId: u64, nonce: u128, maxPriorityFee: u128, maxFee: u128, gas: u128, dest: Address20,
                           value: u128, data: Bytes)

  function Body(tx: Tx1559): seq<Bytes>
    requires |tx.data| <= U64_MAX
  {
    [RlpUint(tx.chainId), RlpUint(tx.nonce), RlpUint(tx.maxPriorityFee), RlpUint(tx.maxFee), RlpUint(tx.gas),
     RlpBytes(tx.dest), RlpUint(tx.value), RlpBytes(tx.data), RlpList([])]
  }

  /** What is hashed and signed. */
  function Unsigned(tx: Tx1559): Bytes
    requires |tx.data| <= U64_MAX && |Concat(Body(tx))| <= U64_MAX
  {
    [0x02] + RlpList(Body(tx))
  }

  /** What is broadcast: the same nine items, then parity and the two scalars. */
  function SignedBody(tx: Tx1559, y: u128, r: Hash, s: Hash): seq<Bytes>
    requires |tx.data| <= U64_MAX
  {
    Body(tx) + [RlpUint(y), RlpBytes(StripLeadingZeros(r)), RlpBytes(StripLeadingZeros(s))]
  }

  function Raw(tx: Tx1559, y: u128, r: Hash, s: Hash): Bytes
    requires |tx.data| <= U64_MAX && |Concat(SignedBody(tx, y, r, s))| <= U64_MAX
  {
    [0x02] + RlpList(SignedBody(tx, y, r, s))
  }

  function Scalar(n: u128): Item {
    Str(StripLeadingZeros(BigEndian(n, 16)))
  }

  function BodyItems(tx: Tx1559): seq<Item> {
    [Scalar(tx.chainId), Scalar(tx.nonce), Scalar(tx.maxPriorityFee), Scalar(tx.maxFee), Scalar(tx.gas),
     Str(tx.dest), Scalar(tx.value), Str(tx.data), Lst([])]
  }

  /** The encodings of a list of items, one by one. */
  predicate Encodings(items: seq<Item>, encoded: seq<Bytes>) {
    && Encodable(items) && |encoded| == |items|
    && forall i :: 0 <= i < |items| ==> encoded[i] == Encode(items[i])
  }

  lemma {:induction false} ConcatIsEncodeAll(items: seq<Item>, encoded: seq<Bytes>)
    requires Encodings(items, encoded)
    ensures Concat(encoded) == EncodeAll(items)
  {
    hide Encode;
    if items != [] {
      ConcatIsEncodeAll(items[1..], encoded[1..]);
    }
  }

  lemma ScalarEncodes(n: u128)
    ensures Encodable([Scalar(n)]) && Encode(Scalar(n)) == RlpUint(n)
  {
    UintBytes(n);
    assert [Scalar(n)][0] == Scalar(n);
  }

  lemma BodyEncodings(tx: Tx1559)
    requires |tx.data| <= U64_MAX
    ensures Encodings(BodyItems(tx), Body(tx))
  {
    hide RlpBytes, RlpLen, RlpUint, Scalar;
    ScalarEncodes(tx.chainId);
    ScalarEncodes(tx.nonce);
    ScalarEncodes(tx.maxPriorityFee);
    ScalarEncodes(tx.maxFee);
    ScalarEncodes(tx.gas);
    ScalarEncodes(tx.value);
    EmptyList();
    OneEncodable(Scalar(tx.chainId));
    OneEncodable(Scalar(tx.nonce));
    OneEncodable(Scalar(tx.maxPriorityFee));
    OneEncodable(Scalar(tx.maxFee));
    OneEncodable(Scalar(tx.gas));
    OneEncodable(Scalar(tx.value));
    hide Encode;
  }

  lemma OneEncodable(item: Item)
    requires Encodable([item])
    ensures |if item.Str? then item.bytes else item.payload| <= U64_MAX
  {
    assert [item][0] == item;
  }

  lemma EmptyList()
    ensures RlpList([]) == Encode(Lst([]))
  {
    assert Concat([]) == [];
  }

  /** A list's bytes decide its items. */
  lemma ListDecides(items: seq<Item>, encoded: seq<Bytes>, items': seq<Item>, encoded': seq<Bytes>)
    requires Encodings(items, encoded) && Encodings(items', encoded')
    requires |Concat(encoded)| <= U64_MAX && |Concat(encoded')| <= U64_MAX
    requires RlpList(encoded) == RlpList(encoded')
    ensures items == items'
  {
    hide DecodeItem, DecodeAll, EncodeAll, Concat, RlpLen, Encodings;
    var p, p' := Concat(encoded), Concat(encoded');
    ItemRoundTrip(Lst(p), []);
    ItemRoundTrip(Lst(p'), []);
    assert RlpList(encoded) + [] == RlpList(encoded') + [];
    ConcatIsEncodeAll(items, encoded);
    ConcatIsEncodeAll(items', encoded');
    EncodableOf(items, encoded);
    EncodableOf(items', encoded');
    ItemsRoundTrip(items);
    ItemsRoundTrip(items');
  }

  lemma EncodableOf(items: seq<Item>, encoded: seq<Bytes>)
    requires Encodings(items, encoded)
    ensures Encodable(items)
  {
  }

  lemma ScalarDecides(n: u128, m: u128)
    requires Scalar(n) == Scalar(m)
    ensures n == m
  {
    UintBytes(n);
    UintBytes(m);
  }

  lemma BodyItemsDecide(a: Tx1559, b: Tx1559)
    requires BodyItems(a) == BodyItems(b)
    ensures a == b
  {
    hide Scalar;
    var x, y := BodyItems(a), BodyItems(b);
    assert x[0] == y[0] && x[1] == y[1] && x[2] == y[2] && x[3] == y[3] && x[4] == y[4];
    assert x[5] == y[5] && x[6] == y[6] && x[7] == y[7];
    ScalarDecides(a.chainId, b.chainId);
    ScalarDecides(a.nonce, b.nonce);
    ScalarDecides(a.maxPriorityFee, b.maxPriorityFee);
    ScalarDecides(a.maxFee, b.maxFee);
    ScalarDecides(a.gas, b.gas);
    ScalarDecides(a.value, b.value);
  }

  /** The signed bytes decide the whole transaction: nothing can be swapped under a signature. */
  lemma UnsignedDecides(a: Tx1559, b: Tx1559)
    requires |a.data| <= U64_MAX && |b.data| <= U64_MAX
    requires |Concat(Body(a))| <= U64_MAX && |Concat(Body(b))| <= U64_MAX
    ensures Unsigned(a) == Unsigned(b) <==> a == b
  {
    hide Body, BodyItems, RlpList, Concat, Encodings;
    if Unsigned(a) == Unsigned(b) {
      assert RlpList(Body(a)) == Unsigned(a)[1..] && RlpList(Body(b)) == Unsigned(b)[1..];
      BodyEncodings(a);
      BodyEncodings(b);
      ListDecides(BodyItems(a), Body(a), BodyItems(b), Body(b));
      BodyItemsDecide(a, b);
    }
  }

  lemma {:induction false} BigEndianDecides(a: Bytes, b: Bytes)
    requires |a| == |b| && FromBigEndian(a) == FromBigEndian(b)
    ensures a == b
  {
    if a != [] {
      BigEndianDecides(a[..|a| - 1], b[..|b| - 1]);
      assert a == a[..|a| - 1] + [a[|a| - 1]] && b == b[..|b| - 1] + [b[|b| - 1]];
    }
  }

  function SignedItems(tx: Tx1559, y: u128, r: Hash, s: Hash): seq<Item> {
    BodyItems(tx) + [Scalar(y), Str(StripLeadingZeros(r)), Str(StripLeadingZeros(s))]
  }

  lemma SignedEncodings(tx: Tx1559, y: u128, r: Hash, s: Hash)
    requires |tx.data| <= U64_MAX
    ensures Encodings(SignedItems(tx, y, r, s), SignedBody(tx, y, r, s))
  {
    hide Body, BodyItems, Encode, Scalar, RlpBytes, RlpUint;
    BodyEncodings(tx);
    SignatureEncodings(y, r, s);
    var tail := [Scalar(y), Str(StripLeadingZeros(r)), Str(StripLeadingZeros(s))];
    forall i | 0 <= i < |tail| ensures SignedItems(tx, y, r, s)[|BodyItems(tx)| + i] == tail[i] {
    }
  }

  lemma SignatureEncodings(y: u128, r: Hash, s: Hash)
    ensures Encodings([Scalar(y), Str(StripLeadingZeros(r)), Str(StripLeadingZeros(s))],
                      [RlpUint(y), RlpBytes(StripLeadingZeros(r)), RlpBytes(StripLeadingZeros(s))])
  {
    hide RlpBytes, RlpUint, Scalar, StripLeadingZeros;
    ScalarEncodes(y);
    OneEncodable(Scalar(y));
  }

  /** The broadcast bytes decide transaction and signature, the scalars in full although their
      leading zeros are not sent. */
  lemma RawDecides(a: Tx1559, y: u128, r: Hash, s: Hash, b: Tx1559, y': u128, r': Hash, s': Hash)
    requires |a.data| <= U64_MAX && |b.data| <= U64_MAX
    requires |Concat(SignedBody(a, y, r, s))| <= U64_MAX && |Concat(SignedBody(b, y', r', s'))| <= U64_MAX
    ensures Raw(a, y, r, s) == Raw(b, y', r', s') <==> a == b && y == y' && r == r' && s == s'
  {
    hide SignedBody, BodyItems, RlpList, Concat, Encodings, Scalar, StripLeadingZeros;
    if Raw(a, y, r, s) == Raw(b, y', r', s') {
      var items, items' := SignedItems(a, y, r, s), SignedItems(b, y', r', s');
      assert RlpList(SignedBody(a, y, r, s)) == Raw(a, y, r, s)[1..];
      assert RlpList(SignedBody(b, y', r', s')) == Raw(b, y', r', s')[1..];
      SignedEncodings(a, y, r, s);
      SignedEncodings(b, y', r', s');
      ListDecides(items, SignedBody(a, y, r, s), items', SignedBody(b, y', r', s'));
      NineItems(a);
      NineItems(b);
      assert items[..9] == BodyItems(a) && items'[..9] == BodyItems(b);
      BodyItemsDecide(a, b);
      assert items[9] == items'[9] && items[10] == items'[10] && items[11] == items'[11];
      ScalarDecides(y, y');
      StrippedDecides(r, r');
      StrippedDecides(s, s');
    }
  }

  lemma NineItems(tx: Tx1559)
    ensures |BodyItems(tx)| == 9
  {
  }

  lemma StrippedDecides(a: Hash, b: Hash)
    requires StripLeadingZeros(a) == StripLeadingZeros(b)
    ensures a == b
  {
    StripKeepsValue(a);
    StripKeepsValue(b);
    BigEndianDecides(a, b);
  }
}
