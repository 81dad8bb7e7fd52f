/** Domain-separated hashing: what the extendable-output hash absorbs for a domain and a list
    of parts. The hash of those bytes is a parameter everywhere. */
module Hashing {
  import opened Machine
  import opened SignBytes

  /** The 32-byte output of the hash on an absorbed byte string. */
  type Xof = Bytes -> Hash

  type Parts = seq<Sized>

  function Frames(parts: Parts): Bytes {
    if parts == [] then [] else PutBytes(parts[0]) + Frames(parts[1..])
  }

  /** Domain, a zero byte, then each part behind its length. */
  function Framed(domain: Bytes, parts: Parts): Bytes {
    domain + ([0] + Frames(parts))
  }

  function Shake(xof: Xof, domain: Bytes, parts: Parts): Hash {
    xof(Framed(domain, parts))
  }

  /** The hasher fed part by part. */
  method Absorb(xof: Xof, domain: Bytes, parts: Parts) returns (digest: Hash)
    ensures digest == Shake(xof, domain, parts)
  {
    var absorbed := domain;
    absorbed := absorbed + [0];
    for i := 0 to |parts|
      invariant absorbed + Frames(parts[i..]) == Framed(domain, parts)
    {
      assert parts[i..][0] == parts[i] && parts[i..][1..] == parts[i + 1..];
      assert absorbed + (PutBytes(parts[i]) + Frames(parts[i + 1..])) == (absorbed + PutBytes(parts[i])) + Frames(parts[i + 1..]);
      absorbed := absorbed + Le64(|parts[i]|);
      absorbed := absorbed + parts[i];
    }
    assert absorbed + [] == absorbed;
    digest := xof(absorbed);
  }

  lemma {:induction false} FramesInjective(a: Parts, b: Parts)
    requires Frames(a) == Frames(b)
    ensures a == b
    decreases |a| + |b|
  {
    if a == [] || b == [] {
      assert |Frames(a)| == |Frames(b)|;
      assert a != [] ==> |Frames(a)| >= 8;
      assert b != [] ==> |Frames(b)| >= 8;
    } else {
      Prefixed(a[0], Frames(a[1..]), b[0], Frames(b[1..]));
      FramesInjective(a[1..], b[1..]);
      assert a == [a[0]] + a[1..] && b == [b[0]] + b[1..];
    }
  }

  /** No two uses of the hash absorb the same bytes unless domain and parts are all the same:
      neither moving a byte between parts, nor splitting or merging parts, nor changing the
      domain can do it. */
  lemma FramingDecides(d: Bytes, a: Parts, e: Bytes, b: Parts)
    requires forall i :: 0 <= i < |d| ==> d[i] != 0
    requires forall i :: 0 <= i < |e| ==> e[i] != 0
    ensures Framed(d, a) == Framed(e, b) <==> d == e && a == b
  {
    if Framed(d, a) == Framed(e, b) {
      TagsPrefixFree(d, Frames(a), e, Frames(b));
      FramesInjective(a, b);
    }
  }
}
