/** The bridge's ledger against chains that move: every event at or below a cursor is on record,
    for good exactly when the cursor is not past what is settled. */
module BridgeChains {
  import opened Machine
  import opened Ledger
  import opened BridgeRuns

  // ---------------------------------------------------------------------------
  // What holds whatever the chains do
  // ---------------------------------------------------------------------------

  function InFile(src: Source, w: World): Memory {
    Replay(StartOf(src), w.file)
  }

  predicate NoCursorKey(m: Memory) {
    forall k :: k in m.records ==> k != "" && k[0] != 'c'
  }

  /** Nothing is in memory that is not in the file, no record sits under a cursor's key, what is
      being sent is on record, and every event present has been seen to be. */
  ghost predicate Sound(src: Source, w: World) {
    && NoCursorKey(InFile(src, w))
    && (w.mem.Some? ==> w.mem.value.records.Keys <= InFile(src, w).records.Keys)
    && (w.sending.Some? ==> w.mem.Some? && w.sending.value in w.mem.value.records)
    && LogsOf(w.chains) <= w.ever
  }

  lemma KnownKeys(ev: Event)
    requires Known(ev.kind)
    ensures ev.kind != CURSOR && EvKey(ev) != "" && EvKey(ev)[0] != 'c'
  {
  }

  lemma {:induction false} RecordsIgnoreCursors(a: Memory, b: Memory, file: seq<Line>)
    requires a.records == b.records
    ensures Replay(a, file).records == Replay(b, file).records
  {
    if file != [] {
      RecordsIgnoreCursors(a, b, file[..|file| - 1]);
    }
  }

  lemma FoldKeys(m: Memory, ev: Event)
    ensures Fold(m, ev).records.Keys == m.records.Keys + (if ev.kind == CURSOR then {} else {EvKey(ev)})
  {
  }

  lemma WrittenSound(src: Source, w: World, ev: Event, o: WriteOutcome)
    requires Sound(src, w) && (Known(ev.kind) || ev.kind == CURSOR || EvKey(ev) in InFile(src, w).records)
    ensures Sound(src, Written(w, ev, o))
  {
    hide Replay, Fold, Known, KeyOf, LogsOf;
    ReplayAppend(StartOf(src), w.file, Entry(ev));
    ReplayAppend(StartOf(src), w.file, Garbled);
    if Known(ev.kind) {
      KnownKeys(ev);
    }
    FoldKeys(InFile(src, w), ev);
    if w.mem.Some? {
      FoldKeys(w.mem.value, ev);
    }
  }

  lemma StepSound(src: Source, w: World, op: Op)
    requires Enabled(src, w, op) && Sound(src, w)
    ensures Sound(src, Step(src, w, op))
  {
    hide Replay, Fold, CompleteUpTo, KeyOf, NoCursorKey, OnChain, LogsOf, Readable, Quiet, SettledAgree;
    match op {
      case Start(found) =>
      case Crash(lost) => FreshSound(src, w.chains);
      case Observe(ev, o) => WrittenSound(src, w, ev, o);
      case MoveCursor(t, leg, n, o) => WrittenSound(src, w, CursorEvent(t, leg, n), o);
      case Note(ev, o) => WrittenSound(src, w, ev, o);
      case WriteAhead(ev, o) =>
        WrittenSound(src, w, ev, o);
        FoldKeys(w.mem.value, ev);
      case Send(accepted, ev, o) => WrittenSound(src, w, ev, o);
      case Resolve(ev, o) =>
        RecordsIgnoreCursors(Initial(0, 0), StartOf(src), w.file);
        WrittenSound(src, w.(mem := None, sending := None), ev, o);
        ReplayAppend(StartOf(src), w.file, Entry(ev));
        ReplayAppend(StartOf(src), w.file, Garbled);
        FoldKeys(InFile(src, w), ev);
      case ChainsMove(next) =>
    }
  }

  lemma FreshSound(src: Source, c: Chains)
    ensures Sound(src, Fresh(c))
  {
  }

  // ---------------------------------------------------------------------------
  // Completeness, one leg at a time
  // ---------------------------------------------------------------------------

  function FirstOn(src: Source, leg: Leg): u64 {
    CursorOf(StartOf(src), leg)
  }

  ghost predicate CompleteIn(leg: Leg, src: Source, c: Chains, m: Memory) {
    CompleteUpTo(LogsOn(c, leg), m.records, FirstOn(src, leg), CursorOf(m, leg))
  }

  /** The process, and any process started later from the file, has a record of every event that
      this chain holds at or below its cursor. */
  ghost predicate Complete(leg: Leg, src: Source, w: World) {
    && CompleteIn(leg, src, w.chains, InFile(src, w))
    && (w.mem.Some? ==> CompleteIn(leg, src, w.chains, w.mem.value))
  }

  /** An event appears at or below a cursor already written, and nothing is on record there. */
  ghost predicate Slips(before: iset<Log>, after: iset<Log>, records: map<string, Record>, first: u64, cursor: u64) {
    exists l :: l in after && l !in before && first < l.at <= cursor && KeyOf(l.kind, l.id) !in records
  }

  ghost predicate SlipsPast(leg: Leg, src: Source, c: Chains, next: Chains, m: Memory) {
    Slips(LogsOn(c, leg), LogsOn(next, leg), m.records, FirstOn(src, leg), CursorOf(m, leg))
  }

  /** A move of the chains that puts an event behind a cursor. */
  ghost predicate Undercuts(leg: Leg, src: Source, w: World, op: Op) {
    && op.ChainsMove?
    && (|| SlipsPast(leg, src, w.chains, op.next, InFile(src, w))
        || (w.mem.Some? && SlipsPast(leg, src, w.chains, op.next, w.mem.value)))
  }

  lemma RecordEventComplete(leg: Leg, src: Source, c: Chains, m: Memory, ev: Event)
    requires CompleteIn(leg, src, c, m) && ev.kind != CURSOR
    ensures CompleteIn(leg, src, c, Fold(m, ev))
  {
  }

  lemma CursorEventComplete(leg: Leg, src: Source, c: Chains, m: Memory, told: Memory, t: u64, moved: Leg, n: u64)
    requires CompleteIn(leg, src, c, m) && CompleteIn(leg, src, c, told) && told.records.Keys <= m.records.Keys
    requires moved == leg ==> CompleteUpTo(LogsOn(c, leg), told.records, CursorOf(told, leg), n)
    ensures CompleteIn(leg, src, c, Fold(m, CursorEvent(t, moved, n)))
  {
  }

  lemma WrittenComplete(leg: Leg, src: Source, w: World, ev: Event, o: WriteOutcome)
    requires Complete(leg, src, w) && ev.kind != CURSOR
    ensures Complete(leg, src, Written(w, ev, o))
  {
    hide CompleteIn, Replay, Fold;
    ReplayAppend(StartOf(src), w.file, Entry(ev));
    ReplayAppend(StartOf(src), w.file, Garbled);
    RecordEventComplete(leg, src, w.chains, InFile(src, w), ev);
    if w.mem.Some? {
      RecordEventComplete(leg, src, w.chains, w.mem.value, ev);
    }
  }

  lemma CursorComplete(leg: Leg, src: Source, w: World, t: u64, moved: Leg, n: u64, o: WriteOutcome)
    requires Sound(src, w) && Complete(leg, src, w) && Enabled(src, w, MoveCursor(t, moved, n, o))
    ensures Complete(leg, src, Written(w, CursorEvent(t, moved, n), o))
  {
    hide CompleteIn, Replay, Fold, CompleteUpTo, NoCursorKey, LogsOf;
    var ev := CursorEvent(t, moved, n);
    ReplayAppend(StartOf(src), w.file, Entry(ev));
    ReplayAppend(StartOf(src), w.file, Garbled);
    CursorEventComplete(leg, src, w.chains, InFile(src, w), w.mem.value, t, moved, n);
    CursorEventComplete(leg, src, w.chains, w.mem.value, w.mem.value, t, moved, n);
  }

  lemma MovedMemoryIff(leg: Leg, src: Source, c: Chains, next: Chains, m: Memory)
    requires CompleteIn(leg, src, c, m)
    ensures CompleteIn(leg, src, next, m) <==> !SlipsPast(leg, src, c, next, m)
  {
    hide KeyOf;
  }

  /** One step keeps the ledger complete exactly when it is not such a move. */
  lemma StepCompleteIff(leg: Leg, src: Source, w: World, op: Op)
    requires Enabled(src, w, op) && Sound(src, w) && Complete(leg, src, w)
    ensures Complete(leg, src, Step(src, w, op)) <==> !Undercuts(leg, src, w, op)
  {
    hide CompleteIn, Replay, Fold, CompleteUpTo, KeyOf, NoCursorKey, Appended, Remembered;
    hide Sendable, SlipsPast, OnChain, LogsOf, Readable;
    match op {
      case Start(found) => EmptyComplete(leg, src, w.chains);
      case Crash(lost) => EmptyComplete(leg, src, w.chains);
      case Observe(ev, o) => WrittenComplete(leg, src, w, ev, o);
      case MoveCursor(t, moved, n, o) => CursorComplete(leg, src, w, t, moved, n, o);
      case Note(ev, o) => WrittenComplete(leg, src, w, ev, o);
      case WriteAhead(ev, o) => WrittenComplete(leg, src, w, ev, o);
      case Send(accepted, ev, o) => WrittenComplete(leg, src, w, ev, o);
      case Resolve(ev, o) => ResolveComplete(leg, src, w, ev, o);
      case ChainsMove(next) =>
        MovedMemoryIff(leg, src, w.chains, next, InFile(src, w));
        if w.mem.Some? {
          MovedMemoryIff(leg, src, w.chains, next, w.mem.value);
        }
    }
  }

  lemma ResolvesARecord(src: Source, w: World, ev: Event, o: WriteOutcome)
    requires Sound(src, w) && Enabled(src, w, Resolve(ev, o))
    ensures ev.kind != CURSOR
  {
    hide Replay, LogsOf;
    RecordsIgnoreCursors(Initial(0, 0), StartOf(src), w.file);
  }

  lemma ResolveComplete(leg: Leg, src: Source, w: World, ev: Event, o: WriteOutcome)
    requires Sound(src, w) && Complete(leg, src, w) && Enabled(src, w, Resolve(ev, o))
    ensures Complete(leg, src, Step(src, w, Resolve(ev, o)))
  {
    ResolvesARecord(src, w, ev, o);
    hide CompleteIn, Replay, Fold, LogsOf;
    WrittenComplete(leg, src, w.(mem := None), ev, o);
  }

  ghost predicate NeverUndercut(leg: Leg, src: Source, w: World, ops: seq<Op>)
    decreases |ops|
  {
    ops != [] ==> !Undercuts(leg, src, w, ops[0]) && NeverUndercut(leg, src, Step(src, w, ops[0]), ops[1..])
  }

  ghost predicate CompleteAfter(leg: Leg, src: Source, w: World, ops: seq<Op>, k: nat)
    requires k <= |ops|
  {
    Complete(leg, src, Run(src, w, ops[..k]))
  }

  lemma {:induction false} CompleteRunIff(leg: Leg, src: Source, w: World, ops: seq<Op>)
    requires Legal(src, w, ops) && Sound(src, w) && Complete(leg, src, w)
    ensures (forall k: nat :: k <= |ops| ==> CompleteAfter(leg, src, w, ops, k)) <==> NeverUndercut(leg, src, w, ops)
    decreases |ops|
  {
    hide Complete, Sound, Enabled, Step, Undercuts, Run;
    PrefixRun(src, w, ops, 0);
    if ops != [] {
      var mid, rest := Step(src, w, ops[0]), ops[1..];
      StepCompleteIff(leg, src, w, ops[0]);
      StepSound(src, w, ops[0]);
      forall k: nat | k <= |rest| ensures CompleteAfter(leg, src, w, ops, k + 1) <==> CompleteAfter(leg, src, mid, rest, k) {
        PrefixRun(src, w, ops, k + 1);
      }
      PrefixRun(src, mid, rest, 0);
      assert CompleteAfter(leg, src, w, ops, 1) <==> CompleteAfter(leg, src, mid, rest, 0);
      if Complete(leg, src, mid) {
        CompleteRunIff(leg, src, mid, rest);
        forall k: nat | k <= |ops| && NeverUndercut(leg, src, mid, rest) ensures CompleteAfter(leg, src, w, ops, k) {
          assert k > 0 ==> CompleteAfter(leg, src, mid, rest, k - 1);
        }
      }
    }
  }

  /** Over every run, every event at or below a cursor has a record at every moment, in the
      process and in any process started later from the file, if and only if no event ever
      appears at or below a cursor already written without one. */
  lemma NothingMissedBelowCursorIff(leg: Leg, src: Source, c: Chains, ops: seq<Op>)
    requires Legal(src, Fresh(c), ops)
    ensures (forall k: nat :: k <= |ops| ==> CompleteAfter(leg, src, Fresh(c), ops, k))
            <==> NeverUndercut(leg, src, Fresh(c), ops)
  {
    hide Run, Legal, CompleteIn, NeverUndercut;
    FreshSound(src, c);
    EmptyComplete(leg, src, c);
    CompleteRunIff(leg, src, Fresh(c), ops);
  }

  lemma EmptyComplete(leg: Leg, src: Source, c: Chains)
    ensures CompleteIn(leg, src, c, StartOf(src)) && Opened(StartOf(src), []) == Some(StartOf(src))
  {
  }

  // ---------------------------------------------------------------------------
  // Complete whatever the chains do next
  // ---------------------------------------------------------------------------

  /** A cursor is not past what is settled, or has not left its start. */
  predicate SettledCursor(leg: Leg, src: Source, c: Chains, m: Memory) {
    CursorOf(m, leg) <= SettledOn(c, leg) || CursorOf(m, leg) <= FirstOn(src, leg)
  }

  lemma Longer(keys: set<string>) returns (n: nat)
    ensures forall k :: k in keys ==> |k| < n
  {
    n := 0;
    if keys != {} {
      var k :| k in keys;
      n := Longer(keys - {k});
      n := Max(n, |k| + 1);
    }
  }

  /** Some identifier is not on record. */
  lemma UnusedId(kind: string, records: map<string, Record>) returns (id: string)
    ensures KeyOf(kind, id) !in records
  {
    var n := Longer(records.Keys);
    id := seq(n, _ => 'x');
    assert |KeyOf(kind, id)| >= n;
  }

  /** Given that nothing is missing now, nothing goes missing at or below a cursor under any move
      of the chains if and only if the cursor is not past the settled blocks. */
  lemma CompleteForGoodIff(leg: Leg, src: Source, c: Chains, m: Memory)
    requires CompleteIn(leg, src, c, m)
    ensures (forall next :: SettledAgree(c, next) ==> CompleteIn(leg, src, next, m)) <==> SettledCursor(leg, src, c, m)
  {
    if !SettledCursor(leg, src, c, m) {
      var id := UnusedId("deposit", m.records);
      var l := Log("deposit", id, CursorOf(m, leg), 0, "");
      var next := if leg.EthLeg? then c.(eth := c.eth + iset{l}) else c.(hk := c.hk + iset{l});
      assert SettledAgree(c, next) && l in LogsOn(next, leg);
      assert !CompleteIn(leg, src, next, m);
    } else {
      forall next | SettledAgree(c, next) ensures CompleteIn(leg, src, next, m) {
        assert SameUpTo(LogsOn(c, leg), LogsOn(next, leg), SettledOn(c, leg));
      }
    }
  }

  /** Complete now and after any one move of the chains. */
  ghost predicate CompleteForGood(leg: Leg, src: Source, w: World) {
    forall next :: SettledAgree(w.chains, next) ==> Complete(leg, src, w.(chains := next))
  }

  predicate CursorsSettled(leg: Leg, src: Source, w: World) {
    && SettledCursor(leg, src, w.chains, InFile(src, w))
    && (w.mem.Some? ==> SettledCursor(leg, src, w.chains, w.mem.value))
  }

  lemma ForGoodIff(leg: Leg, src: Source, w: World)
    requires Complete(leg, src, w)
    ensures CompleteForGood(leg, src, w) <==> CursorsSettled(leg, src, w)
  {
    hide CompleteIn, SettledCursor, SettledAgree, Replay;
    CompleteForGoodIff(leg, src, w.chains, InFile(src, w));
    if w.mem.Some? {
      CompleteForGoodIff(leg, src, w.chains, w.mem.value);
    }
    if CompleteForGood(leg, src, w) {
      forall next | SettledAgree(w.chains, next)
        ensures CompleteIn(leg, src, next, InFile(src, w)) && (w.mem.Some? ==> CompleteIn(leg, src, next, w.mem.value))
      {
        assert Complete(leg, src, w.(chains := next));
      }
    }
  }

  /** A cursor line is left in the file past what is settled. */
  predicate Overruns(leg: Leg, src: Source, w: World, op: Op) {
    && op.MoveCursor? && op.leg == leg && (op.w.Done? || op.w.Kept?)
    && op.n > SettledOn(w.chains, leg) && op.n > FirstOn(src, leg)
  }

  lemma RecordKeepsCursors(leg: Leg, src: Source, w: World, ev: Event, o: WriteOutcome)
    requires ev.kind != CURSOR && CursorsSettled(leg, src, w)
    ensures CursorsSettled(leg, src, Written(w, ev, o))
  {
    hide Replay, SettledCursor;
    ReplayAppend(StartOf(src), w.file, Entry(ev));
    ReplayAppend(StartOf(src), w.file, Garbled);
    SameCursor(leg, src, w.chains, InFile(src, w), ev);
    if w.mem.Some? {
      SameCursor(leg, src, w.chains, w.mem.value, ev);
    }
  }

  lemma SameCursor(leg: Leg, src: Source, c: Chains, m: Memory, ev: Event)
    requires ev.kind != CURSOR
    ensures SettledCursor(leg, src, c, Fold(m, ev)) <==> SettledCursor(leg, src, c, m)
  {
  }

  lemma MovedCursor(leg: Leg, src: Source, c: Chains, m: Memory, t: u64, moved: Leg, n: u64)
    ensures SettledCursor(leg, src, c, Fold(m, CursorEvent(t, moved, n)))
            <==> if moved == leg then n <= SettledOn(c, leg) || n <= FirstOn(src, leg) else SettledCursor(leg, src, c, m)
  {
  }

  lemma StepSettledIff(leg: Leg, src: Source, w: World, op: Op)
    requires Enabled(src, w, op) && Sound(src, w) && CursorsSettled(leg, src, w)
    ensures CursorsSettled(leg, src, Step(src, w, op)) <==> !Overruns(leg, src, w, op)
  {
    hide Replay, Fold, CompleteUpTo, KeyOf, Sound, OnChain, SameUpTo, Readable, Quiet;
    match op {
      case Start(found) => EmptyComplete(leg, src, w.chains);
      case Crash(lost) => EmptyComplete(leg, src, w.chains);
      case MoveCursor(t, moved, n, o) =>
        ReplayAppend(StartOf(src), w.file, Entry(CursorEvent(t, moved, n)));
        ReplayAppend(StartOf(src), w.file, Garbled);
        MovedCursor(leg, src, w.chains, InFile(src, w), t, moved, n);
        MovedCursor(leg, src, w.chains, w.mem.value, t, moved, n);
      case Resolve(ev, o) =>
        ResolvesARecord(src, w, ev, o);
        RecordKeepsCursors(leg, src, w.(mem := None), ev, o);
      case ChainsMove(next) =>
      case Observe(ev, o) => RecordKeepsCursors(leg, src, w, ev, o);
      case Note(ev, o) => RecordKeepsCursors(leg, src, w, ev, o);
      case WriteAhead(ev, o) => RecordKeepsCursors(leg, src, w, ev, o);
      case Send(accepted, ev, o) => RecordKeepsCursors(leg, src, w, ev, o);
    }
  }

  lemma StepForGoodIff(leg: Leg, src: Source, w: World, op: Op)
    requires Enabled(src, w, op) && Sound(src, w) && CompleteForGood(leg, src, w)
    ensures CompleteForGood(leg, src, Step(src, w, op)) <==> !Overruns(leg, src, w, op)
  {
    var v := Step(src, w, op);
    assert SettledAgree(w.chains, w.chains);
    assert Complete(leg, src, w.(chains := w.chains)) && w.(chains := w.chains) == w;
    ForGoodIff(leg, src, w);
    StepCompleteIff(leg, src, w, op);
    assert op.ChainsMove? ==> Complete(leg, src, w.(chains := op.next));
    StepSettledIff(leg, src, w, op);
    hide CompleteForGood, CursorsSettled, Enabled, CompleteIn;
    ForGoodIff(leg, src, v);
  }

  ghost predicate NeverOverruns(leg: Leg, src: Source, w: World, ops: seq<Op>)
    decreases |ops|
  {
    ops != [] ==> !Overruns(leg, src, w, ops[0]) && NeverOverruns(leg, src, Step(src, w, ops[0]), ops[1..])
  }

  ghost predicate ForGoodAfter(leg: Leg, src: Source, w: World, ops: seq<Op>, k: nat)
    requires k <= |ops|
  {
    CompleteForGood(leg, src, Run(src, w, ops[..k]))
  }

  lemma {:induction false} ForGoodRunIff(leg: Leg, src: Source, w: World, ops: seq<Op>)
    requires Legal(src, w, ops) && Sound(src, w) && CompleteForGood(leg, src, w)
    ensures (forall k: nat :: k <= |ops| ==> ForGoodAfter(leg, src, w, ops, k)) <==> NeverOverruns(leg, src, w, ops)
    decreases |ops|
  {
    hide CompleteForGood, Sound, Enabled, Step, Overruns, Run;
    PrefixRun(src, w, ops, 0);
    if ops != [] {
      var mid, rest := Step(src, w, ops[0]), ops[1..];
      StepForGoodIff(leg, src, w, ops[0]);
      StepSound(src, w, ops[0]);
      forall k: nat | k <= |rest| ensures ForGoodAfter(leg, src, w, ops, k + 1) <==> ForGoodAfter(leg, src, mid, rest, k) {
        PrefixRun(src, w, ops, k + 1);
      }
      PrefixRun(src, mid, rest, 0);
      assert ForGoodAfter(leg, src, w, ops, 1) <==> ForGoodAfter(leg, src, mid, rest, 0);
      if CompleteForGood(leg, src, mid) {
        ForGoodRunIff(leg, src, mid, rest);
        forall k: nat | k <= |ops| && NeverOverruns(leg, src, mid, rest) ensures ForGoodAfter(leg, src, w, ops, k) {
          assert k > 0 ==> ForGoodAfter(leg, src, mid, rest, k - 1);
        }
      }
    }
  }

  /** Over every run: at every moment, whatever the chains do next, every event at or below a
      cursor has a record, if and only if no cursor was ever written past what was settled then.
      The scan of Ethereum lacks this guard; it runs to the head. */
  lemma NothingEverMissedIff(leg: Leg, src: Source, c: Chains, ops: seq<Op>)
    requires Legal(src, Fresh(c), ops)
    ensures (forall k: nat :: k <= |ops| ==> ForGoodAfter(leg, src, Fresh(c), ops, k))
            <==> NeverOverruns(leg, src, Fresh(c), ops)
  {
    hide Run, Legal, CompleteIn, NeverOverruns;
    FreshSound(src, c);
    forall next ensures Complete(leg, src, Fresh(c).(chains := next)) {
      EmptyComplete(leg, src, next);
    }
    ForGoodRunIff(leg, src, Fresh(c), ops);
  }

  /** The scan of HashKinetics reads committed blocks only, so it has the guard and never misses. */
  lemma CommittedScansMissNothing(src: Source, c: Chains, ops: seq<Op>, k: nat)
    requires Legal(src, Fresh(c), ops) && k <= |ops|
    ensures ForGoodAfter(HkLeg, src, Fresh(c), ops, k)
  {
    hide ForGoodAfter, NeverOverruns, Legal, Fresh;
    CommittedNeverOverruns(src, Fresh(c), ops);
    NothingEverMissedIff(HkLeg, src, c, ops);
  }

  lemma {:induction false} CommittedNeverOverruns(src: Source, w: World, ops: seq<Op>)
    requires Legal(src, w, ops)
    ensures NeverOverruns(HkLeg, src, w, ops)
    decreases |ops|
  {
    hide Step;
    if ops != [] {
      CommittedNeverOverruns(src, Step(src, w, ops[0]), ops[1..]);
    }
  }

  lemma {:induction false} OverrunsLast(leg: Leg, src: Source, w: World, ops: seq<Op>, op: Op)
    ensures NeverOverruns(leg, src, w, ops + [op])
            <==> NeverOverruns(leg, src, w, ops) && !Overruns(leg, src, Run(src, w, ops), op)
    decreases |ops|
  {
    hide Step, Overruns;
    if ops == [] {
      assert ([] + [op])[1..] == [];
    } else {
      OverrunsLast(leg, src, Step(src, w, ops[0]), ops[1..], op);
      assert (ops + [op])[1..] == ops[1..] + [op];
    }
  }

  /** It does happen: the scan passes an empty block at the head, the block is replaced by one with
      a deposit in it, and the cursor is past that deposit with nothing on record. */
  lemma MissedEvent(src: Source, l: Log, t: u64)
    requires l.kind == "deposit" && FirstOn(src, EthLeg) < l.at
    ensures
      var c, next := Chains(iset{}, iset{}, 0, 0), Chains(iset{l}, iset{}, 0, 0);
      var ops := [Start(true)] + [MoveCursor(t, EthLeg, l.at, Done)] + [ChainsMove(next)];
      && Legal(src, Fresh(c), ops)
      && var w := Run(src, Fresh(c), ops);
         l in w.chains.eth && w.mem.Some? && w.mem.value.ethCursor == l.at && KeyOf(l.kind, l.id) !in w.mem.value.records
  {
    hide KeyOf;
    var c, next := Chains(iset{}, iset{}, 0, 0), Chains(iset{l}, iset{}, 0, 0);
    var w := Fresh(c);
    var w1 := Step(src, w, Start(true));
    var w2 := Step(src, w1, MoveCursor(t, EthLeg, l.at, Done));
    OneMore(src, w, [], Start(true));
    Then(src, w, [Start(true)], w1, MoveCursor(t, EthLeg, l.at, Done));
    Then(src, w, [Start(true)] + [MoveCursor(t, EthLeg, l.at, Done)], w2, ChainsMove(next));
  }
}
