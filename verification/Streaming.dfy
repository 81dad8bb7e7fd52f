/** Reassembly of proposal parts: messages of a stream arrive in any order and are handed on
    once, in the order of their sequence numbers. */
module Streaming {
  import opened Machine

  datatype Init = Init(height: u64, round: u64, polRound: u64, proposer: Bytes)

  datatype Part = PartInit(info: Init) | PartBody(bytes: Bytes)

  datatype Content = Data(part: Part) | Fin

  datatype Message = Message(sequence: u64, content: Content)

  datatype ProposalParts = ProposalParts(info: Init, parts: seq<Part>)

  datatype Stream = Stream(buffer: seq<Message>, initInfo: Option<Init>, seen: set<u64>, total: u64, finReceived: bool)

  function NewStream(): Stream {
    Stream([], None, {}, 0, false)
  }

  predicate IsDone(s: Stream) {
    s.initInfo.Some? && s.finReceived && |s.buffer| == s.total
  }

  /** The position of a message with the smallest sequence. */
  function MinAt(buffer: seq<Message>): (m: nat)
    requires buffer != []
    ensures m < |buffer|
    ensures forall i :: 0 <= i < |buffer| ==> buffer[m].sequence <= buffer[i].sequence
  {
    if |buffer| == 1 then 0
    else
      var m := MinAt(buffer[1..]);
      if buffer[1 + m].sequence < buffer[0].sequence then
        assert forall i :: 1 <= i < |buffer| ==> buffer[i] == buffer[1..][i - 1];
        1 + m
      else
        assert forall i :: 1 <= i < |buffer| ==> buffer[i] == buffer[1..][i - 1];
        0
  }

  function Without(buffer: seq<Message>, m: nat): (rest: seq<Message>)
    requires m < |buffer|
    ensures |rest| == |buffer| - 1
  {
    buffer[..m] + buffer[m + 1..]
  }

  /** The order in which a heap gives the messages out. */
  function Ordered(buffer: seq<Message>): (r: seq<Message>)
    ensures |r| == |buffer|
    decreases |buffer|
  {
    if buffer == [] then [] else [buffer[MinAt(buffer)]] + Ordered(Without(buffer, MinAt(buffer)))
  }

  function PartsOf(messages: seq<Message>): seq<Part> {
    if messages == [] then []
    else (if messages[0].content.Data? then [messages[0].content.part] else []) + PartsOf(messages[1..])
  }

  lemma NothingOrdered()
    ensures PartsOf(Ordered([])) == []
  {
  }

  lemma OrderedStep(buffer: seq<Message>)
    requires buffer != []
    ensures PartsOf(Ordered(buffer)) ==
            (if buffer[MinAt(buffer)].content.Data? then [buffer[MinAt(buffer)].content.part] else [])
            + PartsOf(Ordered(Without(buffer, MinAt(buffer))))
  {
    hide MinAt, Without;
    assert Ordered(buffer)[1..] == Ordered(Without(buffer, MinAt(buffer)));
  }

  /** What a first message says about the proposal. */
  function InitOf(msg: Message): Option<Init> {
    if msg.content.Data? && msg.content.part.PartInit? then Some(msg.content.part.info) else None
  }

  function Received(s: Stream, msg: Message): Stream {
    s.(initInfo := if msg.sequence == 0 then InitOf(msg) else s.initInfo,
       finReceived := s.finReceived || msg.content.Fin?,
       total := if msg.content.Fin? then (if msg.sequence == U64_MAX then 0 else msg.sequence + 1) else s.total,
       buffer := s.buffer + [msg])
  }

  /** One message into one stream, and what is handed on. */
  function InsertMessage(s: Stream, msg: Message): (Stream, Option<ProposalParts>) {
    var t := Received(s, msg);
    if IsDone(t) then
      (t.(initInfo := None, buffer := []), Some(ProposalParts(t.initInfo.value, PartsOf(Ordered(t.buffer)))))
    else (t, None)
  }

  /** A sequence number counts once. */
  function Insert(s: Stream, msg: Message): (Stream, Option<ProposalParts>) {
    if msg.sequence in s.seen then (s, None) else InsertMessage(s.(seen := s.seen + {msg.sequence}), msg)
  }

  // ---------------------------------------------------------------------------
  // The objects
  // ---------------------------------------------------------------------------

  class StreamState {
    var buffer: seq<Message>
    var initInfo: Option<Init>
    var seen: set<u64>
    var total: u64
    var finReceived: bool

    constructor ()
      ensures Value() == NewStream()
    {
      buffer, initInfo, seen, total, finReceived := [], None, {}, 0, false;
    }

    function Value(): Stream
      reads this
    {
      Stream(buffer, initInfo, seen, total, finReceived)
    }

    method Drain() returns (parts: seq<Part>)
      modifies this`buffer
      ensures parts == PartsOf(Ordered(old(buffer))) && buffer == []
    {
      hide Ordered, PartsOf, Without;
      parts := [];
      while buffer != []
        invariant parts + PartsOf(Ordered(buffer)) == PartsOf(Ordered(old(buffer)))
        decreases |buffer|
      {
        var m := MinAt(buffer);
        var msg := buffer[m];
        OrderedStep(buffer);
        buffer := Without(buffer, m);
        if msg.content.Data? {
          parts := parts + [msg.content.part];
        }
      }
      NothingOrdered();
    }

    method InsertNew(msg: Message) returns (r: Option<ProposalParts>)
      modifies this
      ensures (Value(), r) == InsertMessage(old(Value()), msg)
    {
      hide Ordered, PartsOf;
      if msg.sequence == 0 {
        initInfo := InitOf(msg);
      }
      if msg.content.Fin? {
        finReceived := true;
        total := if msg.sequence == U64_MAX then 0 else msg.sequence + 1;
      }
      buffer := buffer + [msg];
      if initInfo.Some? && finReceived && |buffer| == total {
        var info := initInfo.value;
        initInfo := None;
        var parts := Drain();
        return Some(ProposalParts(info, parts));
      }
      return None;
    }
  }

  /** Peer and stream. */
  type Key = (Bytes, Bytes)

  class PartStreamsMap {
    var streams: map<Key, StreamState>

    constructor ()
      ensures streams == map[] && Valid()
    {
      streams := map[];
    }

    /** Every stream has its own state object. */
    predicate Valid()
      reads this
    {
      forall k, l :: k in streams && l in streams && k != l ==> streams[k] != streams[l]
    }

    function States(): set<StreamState>
      reads this
    {
      set k | k in streams :: streams[k]
    }

    function At(key: Key): Stream
      reads this, States()
    {
      if key in streams then streams[key].Value() else NewStream()
    }

    /** The stream of the message takes it, every other stream stays; the entry stays too. */
    method InsertPart(peer: Bytes, stream: Bytes, msg: Message) returns (r: Option<ProposalParts>)
      requires Valid()
      modifies this, States()
      ensures Valid() && fresh(States() - old(States()))
      ensures (At((peer, stream)), r) == Insert(old(At((peer, stream))), msg)
      ensures streams.Keys == old(streams.Keys) + {(peer, stream)}
      ensures forall k :: k in old(streams) && k != (peer, stream) ==>
                streams[k] == old(streams[k]) && streams[k].Value() == old(streams[k].Value())
    {
      hide InsertMessage, Ordered, PartsOf;
      var key := (peer, stream);
      var state: StreamState;
      if key in streams {
        state := streams[key];
      } else {
        state := new StreamState();
        streams := streams[key := state];
      }
      if msg.sequence in state.seen {
        return None;
      }
      state.seen := state.seen + {msg.sequence};
      r := state.InsertNew(msg);
      NeverDoneAfter(old(At((peer, stream))), msg);
      if state.initInfo.Some? && state.finReceived && |state.buffer| == state.total {
        streams := streams - {key};
      }
    }
  }

  /** After any message the stream does not count as done: the guard that would remove it from
      the map is never true. */
  lemma NeverDoneAfter(s: Stream, msg: Message)
    requires msg.sequence !in s.seen
    ensures !IsDone(Insert(s, msg).0)
  {
  }

  // ---------------------------------------------------------------------------
  // Runs
  // ---------------------------------------------------------------------------

  function Feed(s: Stream, msgs: seq<Message>): Stream
  {
    if msgs == [] then s else Insert(Feed(s, msgs[..|msgs| - 1]), msgs[|msgs| - 1]).0
  }

  /** What the `i`-th message makes the stream hand on. */
  function Output(msgs: seq<Message>, i: nat): Option<ProposalParts>
    requires i < |msgs|
  {
    Insert(Feed(NewStream(), msgs[..i]), msgs[i]).1
  }

  /** A stream that handed its proposal on. */
  predicate Closed(s: Stream) {
    s.initInfo.None? && 0 in s.seen
  }

  lemma ClosedStaysClosed(s: Stream, msg: Message)
    requires Closed(s)
    ensures Closed(Insert(s, msg).0) && Insert(s, msg).1.None?
  {
  }

  /** A first part is remembered only once its sequence is. */
  predicate InitSeen(s: Stream) {
    s.initInfo.Some? ==> 0 in s.seen
  }

  lemma InsertKeepsInitSeen(s: Stream, msg: Message)
    requires InitSeen(s)
    ensures InitSeen(Insert(s, msg).0)
    ensures Insert(s, msg).1.Some? ==> Closed(Insert(s, msg).0)
  {
  }

  lemma {:induction false} FeedKeepsInitSeen(msgs: seq<Message>)
    ensures InitSeen(Feed(NewStream(), msgs))
  {
    hide Insert;
    if msgs != [] {
      FeedKeepsInitSeen(msgs[..|msgs| - 1]);
      InsertKeepsInitSeen(Feed(NewStream(), msgs[..|msgs| - 1]), msgs[|msgs| - 1]);
    }
  }

  lemma {:induction false} ClosedFrom(msgs: seq<Message>, i: nat, j: nat)
    requires i < j <= |msgs| && Output(msgs, i).Some?
    ensures Closed(Feed(NewStream(), msgs[..j]))
    decreases j
  {
    hide Insert;
    assert msgs[..j][..j - 1] == msgs[..j - 1];
    if j == i + 1 {
      FeedKeepsInitSeen(msgs[..i]);
      InsertKeepsInitSeen(Feed(NewStream(), msgs[..i]), msgs[i]);
    } else {
      ClosedFrom(msgs, i, j - 1);
      ClosedStaysClosed(Feed(NewStream(), msgs[..j - 1]), msgs[j - 1]);
    }
  }

  /** Whatever a peer sends, a stream hands on at most one proposal. */
  lemma AtMostOneProposal(msgs: seq<Message>, i: nat, j: nat)
    requires i < j < |msgs| && Output(msgs, i).Some?
    ensures Output(msgs, j).None?
  {
    hide Insert;
    ClosedFrom(msgs, i, j);
    ClosedStaysClosed(Feed(NewStream(), msgs[..j]), msgs[j]);
  }

  // ---------------------------------------------------------------------------
  // What is handed on
  // ---------------------------------------------------------------------------

  function SequencesOf(msgs: seq<Message>): set<nat> {
    set m | m in msgs :: m.sequence as nat
  }

  function Span(lo: nat, hi: nat): (s: set<nat>)
    ensures forall i: nat :: i in s <==> lo <= i < hi
  {
    if lo >= hi then {} else Span(lo, hi - 1) + {hi - 1}
  }

  predicate DistinctSequences(msgs: seq<Message>) {
    forall i, j :: 0 <= i < j < |msgs| ==> msgs[i].sequence != msgs[j].sequence
  }

  lemma {:induction false} SpanSize(lo: nat, hi: nat)
    requires lo <= hi
    ensures |Span(lo, hi)| == hi - lo
    decreases hi - lo
  {
    if lo < hi {
      SpanSize(lo, hi - 1);
    }
  }

  lemma {:induction false} SequencesSize(msgs: seq<Message>)
    requires DistinctSequences(msgs)
    ensures |SequencesOf(msgs)| == |msgs|
  {
    if msgs != [] {
      var init, last := msgs[..|msgs| - 1], msgs[|msgs| - 1];
      SequencesSize(init);
      assert msgs == init + [last];
      assert forall m :: m in msgs <==> m in init || m == last;
      assert SequencesOf(msgs) == SequencesOf(init) + {last.sequence as nat};
    }
  }

  lemma {:induction false} SubsetOfSameSize(a: set<nat>, b: set<nat>)
    requires a <= b && |a| == |b|
    ensures a == b
  {
    if a != b {
      var x :| x in b && x !in a;
      assert a <= b - {x};
      SubsetSize(a, b - {x});
    }
  }

  lemma {:induction false} SubsetSize(a: set<nat>, b: set<nat>)
    requires a <= b
    ensures |a| <= |b|
  {
    if a != {} {
      var x :| x in a;
      SubsetSize(a - {x}, b - {x});
    }
  }

  /** Buffered messages have been seen, each sequence once. */
  predicate BufferSeen(s: Stream) {
    && DistinctSequences(s.buffer)
    && forall m :: m in s.buffer ==> m.sequence in s.seen
  }

  lemma InsertKeepsBufferSeen(s: Stream, msg: Message)
    requires BufferSeen(s)
    ensures BufferSeen(Insert(s, msg).0)
    ensures msg.sequence !in s.seen ==> DistinctSequences(Received(s, msg).buffer)
  {
    hide Ordered, PartsOf;
    var b := s.buffer + [msg];
    if msg.sequence !in s.seen {
      forall i, j | 0 <= i < j < |b| ensures b[i].sequence != b[j].sequence {
        assert b[i] in s.buffer;
      }
    }
  }

  lemma {:induction false} FeedKeepsBufferSeen(msgs: seq<Message>)
    ensures BufferSeen(Feed(NewStream(), msgs))
  {
    hide Insert;
    if msgs != [] {
      FeedKeepsBufferSeen(msgs[..|msgs| - 1]);
      InsertKeepsBufferSeen(Feed(NewStream(), msgs[..|msgs| - 1]), msgs[|msgs| - 1]);
    }
  }

  /** The stream at the moment its last message completes it. */
  function Completed(msgs: seq<Message>, i: nat): Stream
    requires i < |msgs|
  {
    Received(Feed(NewStream(), msgs[..i]), msgs[i])
  }

  /** A proposal that is handed on holds every message up to the end of the stream exactly when
      no message beyond the end came in first: a stray one is counted in place of a missing one. */
  lemma WholeIffNoStray(msgs: seq<Message>, i: nat)
    requires i < |msgs| && Output(msgs, i).Some?
    ensures var t := Completed(msgs, i);
            && |t.buffer| == t.total
            && (SequencesOf(t.buffer) == Span(0, t.total) <==> forall m :: m in t.buffer ==> m.sequence < t.total)
  {
    hide Ordered, PartsOf;
    var s, t := Feed(NewStream(), msgs[..i]), Completed(msgs, i);
    FeedKeepsBufferSeen(msgs[..i]);
    InsertKeepsBufferSeen(s, msgs[i]);
    SequencesSize(t.buffer);
    SpanSize(0, t.total);
    if forall m :: m in t.buffer ==> m.sequence < t.total {
      SubsetOfSameSize(SequencesOf(t.buffer), Span(0, t.total));
    } else if SequencesOf(t.buffer) == Span(0, t.total) {
      forall m | m in t.buffer ensures m.sequence < t.total {
        assert m.sequence as nat in SequencesOf(t.buffer);
      }
    }
  }

  /** It does happen: message 7 stands in for message 1, and two parts are handed on for three
      announced messages. */
  lemma StrayStandsIn(info: Init, part: Part)
    ensures var msgs := [Message(0, Data(PartInit(info))), Message(7, Data(part)), Message(2, Fin)];
            && Output(msgs, 2).Some? && Completed(msgs, 2).total == 3
            && 1 !in SequencesOf(Completed(msgs, 2).buffer)
  {
    hide Ordered, PartsOf;
    var msgs := [Message(0, Data(PartInit(info))), Message(7, Data(part)), Message(2, Fin)];
    assert msgs[..2][..1] == msgs[..1] && msgs[..1][..0] == [];
    assert msgs[..0] == [] && Feed(NewStream(), []) == NewStream();
    var s1 := Feed(NewStream(), msgs[..1]);
    assert s1 == Insert(NewStream(), msgs[0]).0;
    assert [] + [msgs[0]] == [msgs[0]];
    assert s1.buffer == [msgs[0]] && s1.initInfo == Some(info) && s1.seen == {0} && !s1.finReceived;
    var s2 := Feed(NewStream(), msgs[..2]);
    assert s2 == Insert(s1, msgs[1]).0;
    assert s2.buffer == [msgs[0], msgs[1]] && s2.initInfo == Some(info) && s2.seen == {0, 7} && !s2.finReceived;
    assert Completed(msgs, 2).buffer == [msgs[0], msgs[1], msgs[2]];
  }

  // ---------------------------------------------------------------------------
  // Honest streams
  // ---------------------------------------------------------------------------

  /** What an honest proposer sends: the parts in order, then the end. */
  function Sent(parts: seq<Part>): (r: seq<Message>)
    requires |parts| < U64_MAX
    ensures |r| == |parts| + 1
    ensures forall i :: 0 <= i < |r| ==> r[i].sequence == i
  {
    seq(|parts| + 1, i requires 0 <= i < |parts| + 1 => Message(i, if i < |parts| then Data(parts[i]) else Fin))
  }

  predicate Honest(parts: seq<Part>) {
    0 < |parts| < U64_MAX && parts[0].PartInit?
  }

  /** Messages of an honest stream, in whatever order and however often they arrive. */
  predicate Arrivals(parts: seq<Part>, msgs: seq<Message>)
    requires Honest(parts)
  {
    forall m :: m in msgs ==> m in Sent(parts)
  }

  /** Distinct messages of the honest stream from the `k`-th on. */
  predicate TailOf(buffer: seq<Message>, sent: seq<Message>, k: nat) {
    && k <= |sent| && |buffer| == |sent| - k && DistinctSequences(buffer)
    && forall m :: m in buffer ==> k <= m.sequence < |sent| && m == sent[m.sequence]
  }

  lemma TailStep(buffer: seq<Message>, sent: seq<Message>, k: nat)
    requires TailOf(buffer, sent, k) && buffer != []
    ensures buffer[MinAt(buffer)] == sent[k] && TailOf(Without(buffer, MinAt(buffer)), sent, k + 1)
  {
    hide SequencesOf, DistinctSequences, Without, Span;
    var m := MinAt(buffer);
    AllPresent(buffer, k, |sent|);
    SmallestIs(buffer, k);
    assert buffer[m] in buffer;
    RestOf(buffer, m);
  }

  lemma {:induction false} OrderedIsSent(buffer: seq<Message>, sent: seq<Message>, k: nat)
    requires TailOf(buffer, sent, k)
    ensures Ordered(buffer) == sent[k..]
    decreases |buffer|
  {
    hide MinAt, Without;
    if buffer != [] {
      TailStep(buffer, sent, k);
      hide TailOf;
      var rest := Without(buffer, MinAt(buffer));
      OrderedIsSent(rest, sent, k + 1);
      assert Ordered(buffer) == [sent[k]] + Ordered(rest);
    }
  }

  /** As many distinct sequences as a range has leave none of it out. */
  lemma AllPresent(buffer: seq<Message>, k: nat, n: nat)
    requires k <= n && |buffer| == n - k && DistinctSequences(buffer)
    requires forall m :: m in buffer ==> k <= m.sequence < n
    ensures SequencesOf(buffer) == Span(k, n)
  {
    hide DistinctSequences, Span;
    SequencesSize(buffer);
    SpanSize(k, n);
    SubsetOfSameSize(SequencesOf(buffer), Span(k, n));
  }

  lemma SmallestIs(buffer: seq<Message>, k: nat)
    requires buffer != [] && k in SequencesOf(buffer)
    requires forall m :: m in buffer ==> k <= m.sequence
    ensures buffer[MinAt(buffer)].sequence == k
  {
    var x :| x in buffer && x.sequence as nat == k;
    var i :| 0 <= i < |buffer| && buffer[i] == x;
    assert buffer[MinAt(buffer)] in buffer;
  }

  lemma RestOf(buffer: seq<Message>, m: nat)
    requires m < |buffer| && DistinctSequences(buffer)
    ensures DistinctSequences(Without(buffer, m))
    ensures forall x :: x in Without(buffer, m) ==> x in buffer && x.sequence != buffer[m].sequence
  {
    var rest := Without(buffer, m);
    forall i | 0 <= i < |rest| ensures rest[i] == buffer[if i < m then i else i + 1] {
    }
    forall i, j | 0 <= i < j < |rest| ensures rest[i].sequence != rest[j].sequence {
      var p, q := if i < m then i else i + 1, if j < m then j else j + 1;
      assert rest[i] == buffer[p] && rest[j] == buffer[q] && p < q;
    }
  }

  lemma {:induction false} PartsOfSent(parts: seq<Part>, k: nat)
    requires Honest(parts) && k <= |parts|
    ensures PartsOf(Sent(parts)[k..]) == parts[k..]
    decreases |parts| - k
  {
    var sent := Sent(parts);
    assert sent[k..][0] == sent[k] && sent[k..][1..] == sent[k + 1..];
    if k < |parts| {
      PartsOfSent(parts, k + 1);
      assert parts[k..] == [parts[k]] + parts[k + 1..];
    } else {
      assert sent[k + 1..] == [];
      assert PartsOf([]) == [];
    }
  }

  /** What an honest stream's state is while it is incomplete. */
  predicate Gathering(parts: seq<Part>, seen: set<nat>, s: Stream)
    requires Honest(parts)
  {
    && BufferSeen(s) && |s.buffer| == |seen|
    && (forall m :: m in s.buffer ==> m in Sent(parts))
    && s.initInfo == (if 0 in seen then Some(parts[0].info) else None)
    && s.finReceived == (|parts| in seen)
    && (s.finReceived ==> s.total == |parts| + 1)
  }

  predicate SeenIs(s: Stream, seen: set<nat>) {
    (forall q: u64 :: q in s.seen <==> q as nat in seen)
  }

  predicate HonestState(parts: seq<Part>, msgs: seq<Message>, s: Stream)
    requires Honest(parts)
  {
    var seen := SequencesOf(msgs);
    && SeenIs(s, seen)
    && (if seen == Span(0, |parts| + 1) then Closed(s) else Gathering(parts, seen, s))
  }

  /** A message of an honest stream that is new. */
  lemma NewMessage(parts: seq<Part>, seen: set<nat>, s: Stream, msg: Message)
    requires Honest(parts) && Gathering(parts, seen, s) && SeenIs(s, seen) && msg in Sent(parts) && msg.sequence !in s.seen
    requires seen <= Span(0, |parts| + 1)
    ensures var t := Received(s.(seen := s.seen + {msg.sequence}), msg);
            var now := seen + {msg.sequence as nat};
            && now <= Span(0, |parts| + 1) && Gathering(parts, now, t) && SeenIs(t, now)
            && (IsDone(t) <==> now == Span(0, |parts| + 1))
  {
    hide DistinctSequences, Span;
    var t := Received(s.(seen := s.seen + {msg.sequence}), msg);
    var now := seen + {msg.sequence as nat};
    NewMessageKeeps(parts, seen, s, msg);
    SentSequence(parts, msg);
    assert now <= Span(0, |parts| + 1);
    SpanSize(0, |parts| + 1);
    hide Received, Sent, BufferSeen;
    if IsDone(t) {
      SubsetOfSameSize(now, Span(0, |parts| + 1));
    }
  }

  lemma SentSequence(parts: seq<Part>, msg: Message)
    requires Honest(parts) && msg in Sent(parts)
    ensures msg.sequence <= |parts|
    ensures msg.content.Fin? <==> msg.sequence == |parts|
    ensures msg.sequence == 0 ==> InitOf(msg) == Some(parts[0].info)
  {
    var sent := Sent(parts);
    var i :| 0 <= i < |sent| && sent[i] == msg;
  }

  lemma NewMessageKeeps(parts: seq<Part>, seen: set<nat>, s: Stream, msg: Message)
    requires Honest(parts) && Gathering(parts, seen, s) && SeenIs(s, seen) && msg in Sent(parts) && msg.sequence !in s.seen
    ensures var t := Received(s.(seen := s.seen + {msg.sequence}), msg);
            var now := seen + {msg.sequence as nat};
            Gathering(parts, now, t) && SeenIs(t, now)
  {
    hide Sent, InitOf;
    SentSequence(parts, msg);
    var t := Received(s.(seen := s.seen + {msg.sequence}), msg);
    ReceivedKeepsBufferSeen(s, msg);
    hide BufferSeen;
    assert forall m :: m in t.buffer <==> m in s.buffer || m == msg;
  }

  lemma ReceivedKeepsBufferSeen(s: Stream, msg: Message)
    requires BufferSeen(s) && msg.sequence !in s.seen
    ensures BufferSeen(Received(s.(seen := s.seen + {msg.sequence}), msg))
  {
    var b := s.buffer + [msg];
    forall i, j | 0 <= i < j < |b| ensures b[i].sequence != b[j].sequence {
      assert b[i] in s.buffer;
    }
  }

  lemma SentInSpan(parts: seq<Part>, msgs: seq<Message>)
    requires Honest(parts) && Arrivals(parts, msgs)
    ensures SequencesOf(msgs) <= Span(0, |parts| + 1)
  {
    var sent := Sent(parts);
    forall m | m in msgs ensures m.sequence <= |parts| {
      var i :| 0 <= i < |sent| && sent[i] == m;
    }
  }

  /** One arrival: the stream hands its parts on exactly when the arrival completes it. */
  lemma HonestStep(parts: seq<Part>, before: seq<Message>, s: Stream, msg: Message)
    requires Honest(parts) && Arrivals(parts, before + [msg]) && HonestState(parts, before, s)
    ensures HonestState(parts, before + [msg], Insert(s, msg).0)
    ensures Insert(s, msg).1 ==
            if SequencesOf(before + [msg]) == Span(0, |parts| + 1) && SequencesOf(before) != Span(0, |parts| + 1)
            then Some(ProposalParts(parts[0].info, parts)) else None
  {
    hide Gathering, Closed, Ordered, PartsOf, Sent, Span, Received, IsDone;
    var seen, now := SequencesOf(before), SequencesOf(before + [msg]);
    assert forall m :: m in before + [msg] <==> m in before || m == msg;
    assert now == seen + {msg.sequence as nat};
    assert Arrivals(parts, before) && msg in before + [msg] && msg in Sent(parts);
    SentInSpan(parts, before);
    SentInSpan(parts, before + [msg]);
    assert msg.sequence as nat in now;
    if msg.sequence in s.seen {
      assert now == seen;
    } else {
      NewMessage(parts, seen, s, msg);
      if now == Span(0, |parts| + 1) {
        CompletedHandsOn(parts, Received(s.(seen := s.seen + {msg.sequence}), msg));
      }
    }
  }

  /** A complete honest buffer comes out as the parts. */
  lemma CompletedHandsOn(parts: seq<Part>, t: Stream)
    requires Honest(parts) && Gathering(parts, Span(0, |parts| + 1), t) && SeenIs(t, Span(0, |parts| + 1))
    ensures t.initInfo == Some(parts[0].info) && PartsOf(Ordered(t.buffer)) == parts
    ensures Closed(t.(initInfo := None, buffer := []))
  {
    hide Ordered, PartsOf, MinAt;
    var sent := Sent(parts);
    SpanSize(0, |parts| + 1);
    forall m | m in t.buffer ensures m.sequence < |sent| && m == sent[m.sequence] {
      var i :| 0 <= i < |sent| && sent[i] == m;
    }
    OrderedIsSent(t.buffer, sent, 0);
    PartsOfSent(parts, 0);
    assert sent[0..] == sent && parts[0..] == parts;
  }

  lemma {:induction false} HonestFeed(parts: seq<Part>, msgs: seq<Message>)
    requires Honest(parts) && Arrivals(parts, msgs)
    ensures HonestState(parts, msgs, Feed(NewStream(), msgs))
  {
    hide Insert, Sent;
    if msgs == [] {
      NothingYet(parts);
    } else {
      var init, last := msgs[..|msgs| - 1], msgs[|msgs| - 1];
      assert msgs == init + [last];
      HonestFeed(parts, init);
      HonestStep(parts, init, Feed(NewStream(), init), last);
    }
  }

  lemma NothingYet(parts: seq<Part>)
    requires Honest(parts)
    ensures HonestState(parts, [], NewStream())
  {
    assert 0 in Span(0, |parts| + 1);
  }

  /** An honest proposer's parts are handed on whole and in order, exactly at the arrival that
      completes the stream, whatever the order of arrival and the repetitions. */
  lemma HonestStreamDelivered(parts: seq<Part>, msgs: seq<Message>, i: nat)
    requires Honest(parts) && Arrivals(parts, msgs) && i < |msgs|
    ensures Output(msgs, i) ==
            if SequencesOf(msgs[..i + 1]) == Span(0, |parts| + 1) && SequencesOf(msgs[..i]) != Span(0, |parts| + 1)
            then Some(ProposalParts(parts[0].info, parts)) else None
  {
    hide Insert, Sent, HonestState;
    assert msgs[..i + 1] == msgs[..i] + [msgs[i]];
    HonestFeed(parts, msgs[..i]);
    HonestStep(parts, msgs[..i], Feed(NewStream(), msgs[..i]), msgs[i]);
  }
}
