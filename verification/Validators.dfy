/** The validator set: seats ordered by power, then address; its power; its history per
    height; and proposer selection. */
module Validators {
  import opened Machine
  import opened SignBytes

  const MAX_VOTING_POWER: nat := 0x1_0000_0000
  const MAX_SEATS: nat := 0x1_0000

  datatype Validator = Validator(address: Address, rootPk: Sized, publicKey: Sized, epoch: u64, votingPower: u64)

  /** Addresses are derived from the operational key by a hash that is a parameter. */
  type AddressOf = Bytes -> Address

  function NewValidator(addressOf: AddressOf, rootPk: Sized, publicKey: Sized, votingPower: u64): Validator {
    Validator(addressOf(publicKey), rootPk, publicKey, 0, votingPower)
  }

  type Seats = seq<Validator>

  // ---------------------------------------------------------------------------
  // Order
  // ---------------------------------------------------------------------------

  predicate LexLeq(a: Bytes, b: Bytes) {
    a == [] || (b != [] && (a[0] < b[0] || (a[0] == b[0] && LexLeq(a[1..], b[1..]))))
  }

  lemma {:induction false} LexTotal(a: Bytes, b: Bytes)
    ensures LexLeq(a, b) || LexLeq(b, a)
    ensures LexLeq(a, b) && LexLeq(b, a) ==> a == b
    decreases |a|
  {
    if a != [] && b != [] && a[0] == b[0] {
      LexTotal(a[1..], b[1..]);
      assert a == [a[0]] + a[1..] && b == [b[0]] + b[1..];
    }
  }

  lemma {:induction false} LexTransitive(a: Bytes, b: Bytes, c: Bytes)
    requires LexLeq(a, b) && LexLeq(b, c)
    ensures LexLeq(a, c)
    decreases |a|
  {
    if a != [] && a[0] == b[0] == c[0] {
      LexTransitive(a[1..], b[1..], c[1..]);
    }
  }

  /** `a` may stand before `b`: more power, or equal power and a smaller address. */
  predicate InOrder(a: Validator, b: Validator) {
    a.votingPower > b.votingPower || (a.votingPower == b.votingPower && LexLeq(a.address, b.address))
  }

  predicate Ordered(s: Seats) {
    forall i, j :: 0 <= i < j < |s| ==> InOrder(s[i], s[j])
  }

  /** Put `v` before the first seat it may stand before. */
  function Place(v: Validator, s: Seats): Seats {
    if s == [] || InOrder(v, s[0]) then [v] + s else [s[0]] + Place(v, s[1..])
  }

  /** The set a list of validators makes. The caller never passes an empty list. */
  function NewSet(vals: seq<Validator>): Seats {
    if vals == [] then [] else Place(vals[0], NewSet(vals[1..]))
  }

  lemma {:induction false} PlaceKeepsMembers(v: Validator, s: Seats)
    ensures multiset(Place(v, s)) == multiset{v} + multiset(s)
    ensures |Place(v, s)| == |s| + 1
    decreases |s|
  {
    if s != [] {
      assert s == [s[0]] + s[1..];
      PlaceKeepsMembers(v, s[1..]);
    }
  }

  lemma {:induction false} PlaceOrdered(v: Validator, s: Seats)
    requires Ordered(s)
    ensures Ordered(Place(v, s))
    decreases |s|
  {
    if s == [] {
    } else if InOrder(v, s[0]) {
      forall j | 0 <= j < |s| ensures InOrder(v, s[j]) {
        if j > 0 {
          InOrderTransitive(v, s[0], s[j]);
        }
      }
    } else {
      PlaceOrdered(v, s[1..]);
      PlaceKeepsMembers(v, s[1..]);
      LexTotal(v.address, s[0].address);
      var rest := Place(v, s[1..]);
      forall j | 0 <= j < |rest| ensures InOrder(s[0], rest[j]) {
        assert rest[j] in multiset(rest);
      }
    }
  }

  lemma InOrderTransitive(a: Validator, b: Validator, c: Validator)
    requires InOrder(a, b) && InOrder(b, c)
    ensures InOrder(a, c)
  {
    if a.votingPower == b.votingPower == c.votingPower {
      LexTransitive(a.address, b.address, c.address);
    }
  }

  /** `new` sorts: the result is in order and holds exactly the given validators. */
  lemma {:induction false} NewSetSorts(vals: seq<Validator>)
    ensures Ordered(NewSet(vals))
    ensures multiset(NewSet(vals)) == multiset(vals)
    ensures |NewSet(vals)| == |vals|
    decreases |vals|
  {
    if vals != [] {
      assert vals == [vals[0]] + vals[1..];
      NewSetSorts(vals[1..]);
      PlaceOrdered(vals[0], NewSet(vals[1..]));
      PlaceKeepsMembers(vals[0], NewSet(vals[1..]));
    }
  }

  predicate DistinctSeats(s: Seats) {
    forall i, j :: 0 <= i < j < |s| ==> s[i].rootPk != s[j].rootPk && s[i].address != s[j].address
  }

  lemma HeadPrecedes(s: Seats, v: Validator)
    requires Ordered(s) && v in s
    ensures v == s[0] || InOrder(s[0], v)
  {
    var i :| 0 <= i < |s| && s[i] == v;
  }

  lemma SameAddressSameSeat(s: Seats, v: Validator, w: Validator)
    requires DistinctSeats(s) && v in s && w in s && v.address == w.address
    ensures v == w
  {
    var i :| 0 <= i < |s| && s[i] == v;
    var j :| 0 <= j < |s| && s[j] == w;
  }

  lemma HeadsAgree(s: Seats, t: Seats)
    requires Ordered(s) && Ordered(t) && DistinctSeats(s) && s != []
    requires multiset(s) == multiset(t)
    ensures t != [] && s[0] == t[0]
  {
    MembersDecide(s, t);
    assert s[0] in s && t[0] in t;
    HeadPrecedes(s, t[0]);
    HeadPrecedes(t, s[0]);
    hide Ordered, DistinctSeats;
    if s[0] != t[0] {
      LexTotal(s[0].address, t[0].address);
      SameAddressSameSeat(s, s[0], t[0]);
    }
  }

  /** The order is the set's identity: with distinct addresses there is only one ordered
      arrangement, whatever sorting routine produced it and from whatever list. */
  lemma {:induction false} OrderedArrangementUnique(s: Seats, t: Seats)
    requires Ordered(s) && Ordered(t) && DistinctSeats(s)
    requires multiset(s) == multiset(t)
    ensures s == t
    decreases |s|
  {
    MembersDecide(s, t);
    if s != [] {
      HeadsAgree(s, t);
      TailMultiset(s);
      TailMultiset(t);
      TailOrdered(s);
      TailOrdered(t);
      TailDistinct(s);
      hide Ordered, DistinctSeats;
      OrderedArrangementUnique(s[1..], t[1..]);
    }
  }

  lemma TailMultiset(s: Seats)
    requires s != []
    ensures multiset(s[1..]) == multiset(s) - multiset{s[0]} && s == [s[0]] + s[1..]
  {
    assert s == [s[0]] + s[1..];
  }

  lemma TailOrdered(s: Seats)
    requires s != [] && Ordered(s)
    ensures Ordered(s[1..])
  {
  }

  lemma TailDistinct(s: Seats)
    requires s != [] && DistinctSeats(s)
    ensures DistinctSeats(s[1..])
  {
  }

  // ---------------------------------------------------------------------------
  // Power
  // ---------------------------------------------------------------------------

  /** The power of the seats whose root is in `roots`. */
  function PowerOf(s: Seats, roots: set<Bytes>): nat {
    if s == [] then 0 else (if s[0].rootPk in roots then s[0].votingPower else 0) + PowerOf(s[1..], roots)
  }

  function TruePower(s: Seats): nat {
    if s == [] then 0 else s[0].votingPower + TruePower(s[1..])
  }

  function SatFold(s: Seats, acc: u64): u64
    decreases |s|
  {
    if s == [] then acc else SatFold(s[1..], SatAdd(acc, s[0].votingPower, U64_MAX))
  }

  /** What the code reports as the set's total. */
  method TotalVotingPower(s: Seats) returns (total: u64)
    ensures total == Min(TruePower(s), U64_MAX)
  {
    total := 0;
    for i := 0 to |s|
      invariant SatFold(s[i..], total) == SatFold(s, 0)
    {
      assert s[i..][1..] == s[i + 1..];
      total := SatAdd(total, s[i].votingPower, U64_MAX);
    }
    SatFoldIsCappedSum(s, 0);
  }

  lemma {:induction false} SatFoldIsCappedSum(s: Seats, acc: u64)
    ensures SatFold(s, acc) == Min(acc + TruePower(s), U64_MAX)
    decreases |s|
  {
    if s != [] {
      SatFoldIsCappedSum(s[1..], SatAdd(acc, s[0].votingPower, U64_MAX));
    }
  }

  function TotalPower(s: Seats): u64 {
    SatFold(s, 0)
  }

  lemma {:induction false} PowerWithinTotal(s: Seats, roots: set<Bytes>)
    ensures PowerOf(s, roots) <= TruePower(s)
    decreases |s|
  {
    if s != [] {
      PowerWithinTotal(s[1..], roots);
    }
  }

  lemma {:induction false} PowerAtMost(s: Seats)
    requires forall i :: 0 <= i < |s| ==> s[i].votingPower <= MAX_VOTING_POWER
    ensures TruePower(s) <= |s| * 0x1_0000_0000
    decreases |s|
  {
    if s != [] {
      PowerAtMost(s[1..]);
    }
  }

  /** The heart of quorum intersection: two groups' powers exceed the total by at most what
      they share. */
  lemma {:induction false} SharedPower(s: Seats, a: set<Bytes>, b: set<Bytes>)
    ensures PowerOf(s, a) + PowerOf(s, b) <= TruePower(s) + PowerOf(s, a * b)
    decreases |s|
  {
    if s != [] {
      SharedPower(s[1..], a, b);
    }
  }

  // ---------------------------------------------------------------------------
  // What every set must satisfy
  // ---------------------------------------------------------------------------

  predicate WellFormed(s: Seats) {
    && s != []
    && DistinctSeats(s)
    && (forall i :: 0 <= i < |s| ==> 1 <= s[i].votingPower <= MAX_VOTING_POWER)
    && Ordered(s)
  }

  /** With at most 2^16 seats no product of the quorum arithmetic reaches u64: the reported
      total is the true one. */
  lemma BoundedSetsDoNotSaturate(s: Seats)
    requires WellFormed(s) && |s| <= MAX_SEATS
    ensures 1 <= TruePower(s) <= 0x1_0000_0000_0000
    ensures TotalPower(s) == TruePower(s)
    ensures 3 * TruePower(s) <= U64_MAX
  {
    PowerAtMost(s);
    PowerCap(|s|, TruePower(s));
    hide WellFormed;
    SatFoldIsCappedSum(s, 0);
  }

  lemma PowerCap(seats: nat, power: nat)
    requires seats <= MAX_SEATS && power <= seats * 0x1_0000_0000
    ensures power <= 0x1_0000_0000_0000 && 3 * power <= U64_MAX
  {
  }

  lemma MembersDecide(s: Seats, t: Seats)
    requires multiset(s) == multiset(t)
    ensures |s| == |t|
    ensures forall v :: v in s <==> v in t
  {
    assert |s| == |multiset(s)| == |multiset(t)| == |t|;
    assert forall v :: v in s <==> v in multiset(s);
    assert forall v :: v in t <==> v in multiset(t);
  }

  lemma {:induction false} PlaceDistinct(v: Validator, s: Seats)
    requires DistinctSeats(s)
    requires forall i :: 0 <= i < |s| ==> s[i].rootPk != v.rootPk && s[i].address != v.address
    ensures DistinctSeats(Place(v, s))
    decreases |s|
  {
    if s != [] && !InOrder(v, s[0]) {
      PlaceDistinct(v, s[1..]);
      PlaceKeepsMembers(v, s[1..]);
      var rest := Place(v, s[1..]);
      forall j | 0 <= j < |rest| ensures rest[j].rootPk != s[0].rootPk && rest[j].address != s[0].address {
        assert rest[j] in multiset(rest);
      }
    }
  }

  /** Rebuilding a set from distinct validators with powers in range gives a well-formed one. */
  lemma {:induction false} NewSetDistinct(vals: seq<Validator>)
    requires DistinctSeats(vals)
    ensures DistinctSeats(NewSet(vals))
    decreases |vals|
  {
    if vals != [] {
      NewSetDistinct(vals[1..]);
      NewSetSorts(vals[1..]);
      MembersDecide(NewSet(vals[1..]), vals[1..]);
      var rest := NewSet(vals[1..]);
      forall i | 0 <= i < |rest| ensures rest[i].rootPk != vals[0].rootPk && rest[i].address != vals[0].address {
        assert rest[i] in rest;
        var k :| 0 <= k < |vals[1..]| && vals[1..][k] == rest[i];
      }
      PlaceDistinct(vals[0], rest);
    }
  }

  lemma NewSetWellFormed(vals: seq<Validator>)
    requires vals != [] && DistinctSeats(vals)
    requires forall i :: 0 <= i < |vals| ==> 1 <= vals[i].votingPower <= MAX_VOTING_POWER
    ensures WellFormed(NewSet(vals))
    ensures forall v :: v in NewSet(vals) <==> v in vals
  {
    NewSetSorts(vals);
    NewSetDistinct(vals);
    MembersDecide(NewSet(vals), vals);
    var s := NewSet(vals);
    forall i | 0 <= i < |s| ensures 1 <= s[i].votingPower <= MAX_VOTING_POWER {
      assert s[i] in vals;
    }
  }

  // ---------------------------------------------------------------------------
  // Looking a seat up
  // ---------------------------------------------------------------------------

  /** The first seat with this root. */
  function SeatOf(s: Seats, root: Bytes): Option<Validator> {
    if s == [] then None else if s[0].rootPk == root then Some(s[0]) else SeatOf(s[1..], root)
  }

  lemma {:induction false} SeatOfCorrect(s: Seats, root: Bytes)
    ensures SeatOf(s, root).Some? <==> exists v :: v in s && v.rootPk == root
    ensures SeatOf(s, root).Some? ==> SeatOf(s, root).value in s && SeatOf(s, root).value.rootPk == root
    ensures DistinctSeats(s) ==> forall v :: v in s && v.rootPk == root ==> SeatOf(s, root) == Some(v)
    decreases |s|
  {
    if s != [] {
      SeatOfCorrect(s[1..], root);
      assert forall v :: v in s <==> v == s[0] || v in s[1..];
    }
  }

  // ---------------------------------------------------------------------------
  // Proposer selection
  // ---------------------------------------------------------------------------

  /** The index of the proposer, where height and round together fit the machine word. */
  function ProposerIndex(height: u64, round: u32, count: nat): (index: nat)
    requires count > 0
    ensures index < count
  {
    (SatSub(height, 1) + round) % count
  }

  predicate Proposes(height: u64, round: u32, count: nat, seat: nat) {
    count > 0 && ProposerIndex(height, round, count) == seat
  }

  /** Over the `count` heights from `base` on the seat proposes exactly once. */
  ghost predicate ProposesOnce(base: u64, round: u32, count: nat, seat: nat) {
    exists turn: u64 ::
      && base <= turn < base + count && Proposes(turn, round, count, seat)
      && forall h: u64 :: base <= h < base + count && Proposes(h, round, count, seat) ==> h == turn
  }

  /** Round robin is fair over a window of consecutive heights exactly when the window does not
      start at height zero, which has the proposer of height one. */
  lemma RoundRobinFairIff(base: u64, round: u32, count: nat)
    requires count > 0 && base + count + round <= U64_MAX
    ensures (forall seat: nat :: seat < count ==> ProposesOnce(base, round, count, seat)) <==> base > 0 || count == 1
  {
    if base > 0 {
      forall seat: nat | seat < count ensures ProposesOnce(base, round, count, seat) {
        var turn := RoundRobinTurn(base, round, count, seat);
      }
    } else if count == 1 {
      assert Proposes(0, round, count, 0);
    } else {
      var seat := ProposerIndex(0, round, count);
      assert Proposes(0, round, count, seat) && Proposes(1, round, count, seat);
      assert !ProposesOnce(base, round, count, seat);
    }
  }

  lemma RoundRobinTurn(base: u64, round: u32, count: nat, seat: nat) returns (turn: u64)
    requires 1 <= base && base + count + round <= U64_MAX && seat < count
    ensures base <= turn < base + count && Proposes(turn, round, count, seat)
    ensures forall h: u64 :: base <= h < base + count && Proposes(h, round, count, seat) ==> h == turn
  {
    var start := ProposerIndex(base, round, count);
    turn := base + if seat >= start then seat - start else seat + count - start;
    forall h: u64 | base <= h < base + count
      ensures ProposerIndex(h, round, count) == if start + (h - base) < count then start + (h - base) else start + (h - base) - count
    {
      ShiftedRemainder(base - 1 + round, count, h - base);
    }
  }

  lemma ShiftedRemainder(n: nat, count: nat, j: nat)
    requires j < count
    ensures (n + j) % count == if n % count + j < count then n % count + j else n % count + j - count
  {
    var q, r := n / count, n % count;
    assert n == count * q + r;
    if r + j < count {
      DivModUnique(n + j, count, q, r + j);
    } else {
      assert count * (q + 1) == count * q + count;
      DivModUnique(n + j, count, q + 1, r + j - count);
    }
  }

  // ---------------------------------------------------------------------------
  // History
  // ---------------------------------------------------------------------------

  type History = seq<(u64, Seats)>

  predicate Ascending(h: History) {
    forall i, j :: 0 <= i < j < |h| ==> h[i].0 <= h[j].0
  }

  /** The last entry in effect at `height`, from the back. */
  function SetAt(h: History, height: u64): Option<Seats> {
    if h == [] then None
    else if h[|h| - 1].0 <= height then Some(h[|h| - 1].1)
    else SetAt(h[..|h| - 1], height)
  }

  /** Entry `i` is the last one that took effect at or before `height`. */
  predicate InEffect(h: History, height: u64, i: nat) {
    i < |h| && h[i].0 <= height && forall j :: i < j < |h| ==> h[j].0 > height
  }

  /** The answer is the set that took effect last at or before the height; there is none
      exactly when the height predates every entry. */
  lemma {:induction false} SetAtIsLastInEffect(h: History, height: u64)
    ensures SetAt(h, height).None? <==> forall i :: 0 <= i < |h| ==> h[i].0 > height
    ensures SetAt(h, height).Some? ==> exists i: nat :: InEffect(h, height, i) && SetAt(h, height).value == h[i].1
    decreases |h|
  {
    if h != [] {
      var last, init := |h| - 1, h[..|h| - 1];
      if h[last].0 <= height {
        assert InEffect(h, height, last);
      } else {
        SetAtIsLastInEffect(init, height);
        assert forall j :: 0 <= j < last ==> init[j] == h[j];
        if SetAt(h, height).Some? {
          var i: nat :| InEffect(init, height, i) && SetAt(init, height).value == init[i].1;
          assert InEffect(h, height, i);
        }
      }
    }
  }

  /** Recording sets that take effect later never changes the answer for an earlier height. */
  lemma {:induction false} LaterEntriesKeepEarlierAnswers(h: History, more: History, height: u64)
    requires forall i :: 0 <= i < |more| ==> more[i].0 > height
    ensures SetAt(h + more, height) == SetAt(h, height)
    decreases |more|
  {
    if more == [] {
      assert h + more == h;
    } else {
      var less := more[..|more| - 1];
      assert (h + more)[..|h + more| - 1] == h + less;
      LaterEntriesKeepEarlierAnswers(h, less, height);
    }
  }

  class SetHistory {
    var entries: History

    constructor (first: u64, genesis: Seats)
      ensures entries == [(first, genesis)]
    {
      entries := [(first, genesis)];
    }

    /** Record the set that signs from `from` on; a second record at the same height
        supersedes the first. */
    method Record(start: u64, s: Seats)
      requires Ascending(entries) && (entries != [] ==> entries[|entries| - 1].0 <= start)
      modifies this
      ensures entries == old(entries) + [(start, s)]
      ensures Ascending(entries)
      ensures forall height: u64 :: height < start ==> SetAt(entries, height) == SetAt(old(entries), height)
      ensures forall height: u64 :: height >= start ==> SetAt(entries, height) == Some(s)
    {
      entries := entries + [(start, s)];
      forall height: u64 | height < start ensures SetAt(entries, height) == SetAt(old(entries), height) {
        LaterEntriesKeepEarlierAnswers(old(entries), [(start, s)], height);
      }
    }

    method ValidatorSetAt(height: u64) returns (r: Option<Seats>)
      ensures r == SetAt(entries, height)
    {
      var i := |entries|;
      assert entries[..i] == entries;
      while i > 0
        invariant i <= |entries|
        invariant SetAt(entries[..i], height) == SetAt(entries, height)
      {
        i := i - 1;
        assert entries[..i + 1][..i] == entries[..i];
        if entries[i].0 <= height {
          return Some(entries[i].1);
        }
      }
      return None;
    }
  }
}
