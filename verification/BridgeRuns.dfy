/** The bridge service and its operator as a state machine over the ledger file: every send is
    written ahead, writes can fail in every way, the process can die between any two steps and
    start without seeing its file, and the two chains move on, unsettled blocks being replaced. */
module BridgeRuns {
  import opened Machine
  import opened Ledger

  // ---------------------------------------------------------------------------
  // The two chains as log sources
  // ---------------------------------------------------------------------------

  /** One bridge event on either chain; `at` is its block or height, `dest` who it pays. */
  datatype Log = Log(kind: string, id: string, at: u64, amount: u128, dest: string)

  /** What one submission pays. */
  datatype Payment = Payment(key: string, amount: u128, dest: string)

  predicate EthKind(kind: string) {
    kind == "deposit" || kind == "wburn"
  }

  predicate HkKind(kind: string) {
    kind == "burn" || kind == "wlock"
  }

  predicate Known(kind: string) {
    EthKind(kind) || HkKind(kind)
  }

  /** Where scanning starts. */
  datatype Source = Source(ethFrom: u64, hkFrom: u64)

  /** What the two chains hold at one moment: Ethereum is settled up to the block `safe`, and
      HashKinetics, whose blocks are final once committed, up to `height`. */
  datatype Chains = Chains(eth: iset<Log>, hk: iset<Log>, safe: u64, height: u64)

  function LogsOf(c: Chains): iset<Log> {
    c.eth + c.hk
  }

  /** What the service can be shown: any block of Ethereum, the committed ones of HashKinetics. */
  ghost function Offered(c: Chains): iset<Log> {
    iset l: Log | (l in c.eth && EthKind(l.kind)) || (l in c.hk && HkKind(l.kind) && l.at <= c.height)
  }

  /** The blocks up to `n` are the same in both. */
  ghost predicate SameUpTo(a: iset<Log>, b: iset<Log>, n: u64) {
    forall l: Log :: l.at <= n ==> (l in a <==> l in b)
  }

  /** One chain after the other: settled blocks stay, all others may be replaced. */
  ghost predicate SettledAgree(c: Chains, d: Chains) {
    && c.safe <= d.safe && SameUpTo(c.eth, d.eth, c.safe)
    && c.height <= d.height && SameUpTo(c.hk, d.hk, c.height)
  }

  /** The two scans of the service. */
  datatype Leg = EthLeg | HkLeg

  function NameOf(leg: Leg): string {
    if leg.EthLeg? then "eth" else "hk"
  }

  function LogsOn(c: Chains, leg: Leg): iset<Log> {
    if leg.EthLeg? then c.eth else c.hk
  }

  function SettledOn(c: Chains, leg: Leg): u64 {
    if leg.EthLeg? then c.safe else c.height
  }

  function CursorOf(m: Memory, leg: Leg): u64 {
    if leg.EthLeg? then m.ethCursor else m.hkCursor
  }

  function StartOf(src: Source): Memory {
    Initial(src.ethFrom, src.hkFrom)
  }

  /** Everything the scanned chains hold from the start up to the cursor is recorded. */
  ghost predicate CompleteUpTo(logs: iset<Log>, records: map<string, Record>, first: u64, cursor: u64) {
    forall l :: l in logs && first < l.at <= cursor ==> KeyOf(l.kind, l.id) in records
  }

  // ---------------------------------------------------------------------------
  // State and steps
  // ---------------------------------------------------------------------------

  /** States from which the service may still send. */
  predicate Sendable(s: State) {
    s.Seen? || s.HeldRecipient? || s.QueuedCap? || s.QueuedPaused?
  }

  /** `mem` is the running process, if any; `sending` the key whose line is written ahead and
      whose send is next. `sent` counts the submissions that did not report failure, `again`
      the operator's decisions to put a record back to seen, `forgot` how often a ledger with
      something in it was lost or not seen, `paid` what was submitted, and `ever` all the events
      some chain has held. */
  datatype World = World(file: seq<Line>, mem: Option<Memory>, sending: Option<string>,
                         sent: multiset<string>, again: multiset<string>, forgot: nat, paid: set<Payment>,
                         chains: Chains, ever: iset<Log>)

  datatype Op =
    /** `found` is what asking for the file answers; it also fails when the file cannot be looked
        up, and the service then starts on an empty ledger and appends to the file all the same. */
    | Start(found: bool)
    /** `lost`: the power fails before the file's directory entry is on disk, and the file with it. */
    | Crash(lost: bool)
    | Observe(ev: Event, w: WriteOutcome)
    | MoveCursor(t: u64, leg: Leg, n: u64, w: WriteOutcome)
    | Note(ev: Event, w: WriteOutcome)
    | WriteAhead(ev: Event, w: WriteOutcome)
    | Send(accepted: bool, ev: Event, w: WriteOutcome)
    | Resolve(ev: Event, w: WriteOutcome)
    /** Blocks are added, and unsettled ones replaced. A move while a page is being recorded
        counts as made after that page's cursor line. */
    | ChainsMove(next: Chains)

  function EvKey(ev: Event): string {
    KeyOf(ev.kind, ev.id)
  }

  function StateIn(m: Memory, k: string): State {
    if k in m.records then m.records[k].state else NoState
  }

  /** A line that reports a chain's event. */
  predicate Shows(ev: Event, l: Log) {
    && ev.kind == l.kind && ev.id == l.id
    && ev.fields.amount == Some(l.amount) && ev.fields.dest == Some(l.dest) && ev.fields.at == Some(l.at)
  }

  ghost predicate OnChain(logs: iset<Log>, ev: Event) {
    exists l :: l in logs && Shows(ev, l)
  }

  /** Fields that leave amount, destination and position alone. */
  predicate Quiet(f: Fields) {
    f.amount.None? && f.dest.None? && f.at.None?
  }

  /** The moves of a record that are not a submission. */
  predicate Movable(s: State, t: State) {
    || (Sendable(s) && t in {HeldRecipient, NeedsReview, QueuedCap, QueuedPaused, Confirmed})
    || (s == Submitted && t in {Confirmed, Rejected, Reverted})
  }

  /** Where the record says its event is. */
  function PlaceIn(m: Memory, k: string): u64 {
    if k in m.records then m.records[k].at else 0
  }

  /** The process is up and between two records. */
  predicate Idle(w: World) {
    w.mem.Some? && w.sending.None?
  }

  /** What the program does next can only be one of these. */
  ghost predicate Enabled(src: Source, w: World, op: Op) {
    match op
    case Start(_) => w.mem.None?
    case Crash(_) => true
    case Observe(ev, _) =>
      && Idle(w) && Known(ev.kind) && EvKey(ev) !in w.mem.value.records
      && ev.state in {Seen, NeedsReview, Unbridgeable} && OnChain(Offered(w.chains), ev)
    case MoveCursor(_, leg, n, _) =>
      && Idle(w) && (leg.HkLeg? ==> n <= w.chains.height)
      && CompleteUpTo(LogsOn(w.chains, leg), w.mem.value.records, CursorOf(w.mem.value, leg), n)
    case Note(ev, _) =>
      Idle(w) && Known(ev.kind) && Quiet(ev.fields) && Movable(StateIn(w.mem.value, EvKey(ev)), ev.state)
    case WriteAhead(ev, _) =>
      && Idle(w) && Known(ev.kind) && Quiet(ev.fields)
      && Sendable(StateIn(w.mem.value, EvKey(ev))) && ev.state == Submitting
      && (EthKind(ev.kind) ==> PlaceIn(w.mem.value, EvKey(ev)) <= w.chains.safe)
    case Send(accepted, ev, _) =>
      && w.mem.Some? && w.sending == Some(EvKey(ev)) && Known(ev.kind) && Quiet(ev.fields)
      && ev.state == (if accepted then Submitted else Seen)
    case Resolve(ev, _) =>
      && Readable(w.file) && EvKey(ev) in Replay(Initial(0, 0), w.file).records
      && ev.state in {Confirmed, Seen, NeedsReview} && Quiet(ev.fields)
    case ChainsMove(next) => SettledAgree(w.chains, next)
  }

  function Written(w: World, ev: Event, o: WriteOutcome): World {
    w.(file := Appended(w.file, ev, o), mem := if w.mem.Some? then Some(Remembered(w.mem.value, ev, o)) else None)
  }

  function CursorEvent(t: u64, leg: Leg, n: u64): Event {
    Event(t, CURSOR, NameOf(leg), NoState, NO_FIELDS.(n := Some(n)))
  }

  /** A submission pays what the record says. */
  function PaymentOf(w: World, k: string): set<Payment> {
    if w.mem.Some? && k in w.mem.value.records then
      {Payment(k, w.mem.value.records[k].amount, w.mem.value.records[k].dest)}
    else {}
  }

  function Units(b: bool): nat {
    if b then 1 else 0
  }

  function Step(src: Source, w: World, op: Op): World {
    match op
    case Start(found) =>
      w.(mem := if found then Opened(StartOf(src), w.file) else Some(StartOf(src)), sending := None,
         forgot := w.forgot + Units(!found && w.file != []))
    case Crash(lost) =>
      w.(file := if lost then [] else w.file, mem := None, sending := None, forgot := w.forgot + Units(lost && w.file != []))
    case Observe(ev, o) => Written(w, ev, o)
    case MoveCursor(t, leg, n, o) => Written(w, CursorEvent(t, leg, n), o)
    case Note(ev, o) => Written(w, ev, o)
    case WriteAhead(ev, o) => Written(w, ev, o).(sending := if o.Done? then Some(EvKey(ev)) else None)
    case Send(accepted, ev, o) =>
      Written(w, ev, o).(sending := None,
                         sent := if accepted then w.sent + multiset{EvKey(ev)} else w.sent,
                         paid := if accepted then w.paid + PaymentOf(w, EvKey(ev)) else w.paid)
    case Resolve(ev, o) =>
      w.(file := Appended(w.file, ev, o), again := if ev.state.Seen? then w.again + multiset{EvKey(ev)} else w.again)
    case ChainsMove(next) => w.(chains := next, ever := w.ever + LogsOf(next))
  }

  function Run(src: Source, w: World, ops: seq<Op>): World
    decreases |ops|
  {
    if ops == [] then w else Run(src, Step(src, w, ops[0]), ops[1..])
  }

  ghost predicate Legal(src: Source, w: World, ops: seq<Op>)
    decreases |ops|
  {
    ops != [] ==> Enabled(src, w, ops[0]) && Legal(src, Step(src, w, ops[0]), ops[1..])
  }

  /** An empty ledger and no process. */
  function Fresh(c: Chains): World {
    World([], None, None, multiset{}, multiset{}, 0, {}, c, LogsOf(c))
  }

  /** Submissions of a run that did not report failure, and decisions to put a record back to seen. */
  function SendsIn(ops: seq<Op>, k: string): nat {
    if ops == [] then 0
    else Units(ops[0].Send? && ops[0].accepted && EvKey(ops[0].ev) == k) + SendsIn(ops[1..], k)
  }

  function PutBackIn(ops: seq<Op>, k: string): nat {
    if ops == [] then 0
    else Units(ops[0].Resolve? && ops[0].ev.state == Seen && EvKey(ops[0].ev) == k) + PutBackIn(ops[1..], k)
  }

  /** How often a run starts without seeing its file or loses it. */
  function BlindIn(ops: seq<Op>): nat {
    if ops == [] then 0
    else Units((ops[0].Start? && !ops[0].found) || (ops[0].Crash? && ops[0].lost)) + BlindIn(ops[1..])
  }

  /** The counters count what they are named for. */
  lemma {:induction false} CountersCount(src: Source, w: World, ops: seq<Op>, k: string)
    ensures var end := Run(src, w, ops);
            && end.sent[k] == w.sent[k] + SendsIn(ops, k) && end.again[k] == w.again[k] + PutBackIn(ops, k)
            && end.forgot <= w.forgot + BlindIn(ops)
    decreases |ops|
  {
    hide EvKey, Fold, Appended, Opened;
    if ops != [] {
      CountersCount(src, Step(src, w, ops[0]), ops[1..], k);
    }
  }

  // ---------------------------------------------------------------------------
  // At most once
  // ---------------------------------------------------------------------------

  /** A record that may still be sent, or is not there yet. */
  predicate Open(m: Memory, k: string) {
    k !in m.records || Sendable(m.records[k].state)
  }

  /** Some future step could still send `k`: the running process may hold it open, or a process
      started from this file would. */
  predicate MaySend(src: Source, w: World, k: string) {
    || (w.mem.Some? && Open(w.mem.value, k))
    || (Readable(w.file) && Open(Replay(StartOf(src), w.file), k))
  }

  /** What is sent, is being sent and may still be sent is within the allowance. */
  predicate Bounded(src: Source, w: World, k: string) {
    w.sent[k] + Units(w.sending == Some(k)) + Units(MaySend(src, w, k)) <= 1 + w.again[k] + w.forgot
  }

  lemma FoldElsewhere(m: Memory, ev: Event, k: string)
    requires ev.kind == CURSOR || EvKey(ev) != k
    ensures k in Fold(m, ev).records <==> k in m.records
    ensures k in m.records ==> Fold(m, ev).records[k] == m.records[k]
  {
  }

  lemma FoldHere(m: Memory, ev: Event)
    requires ev.kind != CURSOR
    ensures EvKey(ev) in Fold(m, ev).records && Fold(m, ev).records[EvKey(ev)].state == ev.state
  {
  }

  /** A written line opens no record but the one it puts back to a sendable state. */
  lemma WrittenOpens(src: Source, w: World, ev: Event, o: WriteOutcome, k: string)
    requires ev.kind == CURSOR || EvKey(ev) != k || !Sendable(ev.state)
    ensures MaySend(src, Written(w, ev, o), k) ==> MaySend(src, w, k)
  {
    hide Fold, Replay;
    FileOpens(src, w.file, ev, o, k);
    if w.mem.Some? {
      FoldOpens(w.mem.value, ev, k);
    }
  }

  lemma FoldOpens(m: Memory, ev: Event, k: string)
    requires ev.kind == CURSOR || EvKey(ev) != k || !Sendable(ev.state)
    ensures Open(Fold(m, ev), k) ==> Open(m, k)
  {
    hide Fold;
    if ev.kind == CURSOR || EvKey(ev) != k {
      FoldElsewhere(m, ev, k);
    } else {
      FoldHere(m, ev);
    }
  }

  lemma FileOpens(src: Source, file: seq<Line>, ev: Event, o: WriteOutcome, k: string)
    requires ev.kind == CURSOR || EvKey(ev) != k || !Sendable(ev.state)
    ensures Readable(Appended(file, ev, o)) && Open(Replay(StartOf(src), Appended(file, ev, o)), k)
        ==> Readable(file) && Open(Replay(StartOf(src), file), k)
  {
    hide Fold, Replay, Readable;
    ReplayAppend(StartOf(src), file, Entry(ev));
    ReadableAppend(file, Entry(ev));
    ReadableAppend(file, Garbled);
    FoldOpens(Replay(StartOf(src), file), ev, k);
  }

  /** A durable line that takes a record out of the sendable states closes it everywhere. */
  lemma DoneCloses(src: Source, w: World, ev: Event)
    requires ev.kind != CURSOR && !Sendable(ev.state)
    ensures !MaySend(src, Written(w, ev, Done), EvKey(ev))
  {
    hide Fold, Replay, Readable;
    ReplayAppend(StartOf(src), w.file, Entry(ev));
    FoldHere(Replay(StartOf(src), w.file), ev);
    if w.mem.Some? {
      FoldHere(w.mem.value, ev);
    }
  }

  lemma NothingReplayed(src: Source)
    ensures Opened(StartOf(src), []) == Some(StartOf(src)) && Readable([]) && Replay(StartOf(src), []) == StartOf(src)
  {
  }

  lemma StepBounded(src: Source, w: World, op: Op, k: string)
    requires Enabled(src, w, op) && Bounded(src, w, k)
    ensures Bounded(src, Step(src, w, op), k)
  {
    hide Fold, Replay, Readable, Appended, CompleteUpTo, KeyOf;
    match op {
      case Start(found) => NothingReplayed(src);
      case Crash(lost) => NothingReplayed(src);
      case Observe(ev, o) =>
        if EvKey(ev) != k {
          WrittenOpens(src, w, ev, o, k);
        }
      case MoveCursor(t, leg, n, o) =>
        WrittenOpens(src, w, CursorEvent(t, leg, n), o, k);
      case Note(ev, o) =>
        if EvKey(ev) != k || !Sendable(ev.state) {
          WrittenOpens(src, w, ev, o, k);
        }
      case WriteAhead(ev, o) =>
        WrittenOpens(src, w, ev, o, k);
        if o.Done? {
          DoneCloses(src, w, ev);
        }
      case Send(accepted, ev, o) =>
        if EvKey(ev) != k || accepted {
          WrittenOpens(src, w, ev, o, k);
        }
      case Resolve(ev, o) =>
        if ev.kind == CURSOR || EvKey(ev) != k || !Sendable(ev.state) {
          FileOpens(src, w.file, ev, o, k);
        }
      case ChainsMove(next) =>
    }
  }

  lemma {:induction false} RunBounded(src: Source, w: World, ops: seq<Op>, k: string)
    requires Legal(src, w, ops) && Bounded(src, w, k)
    ensures Bounded(src, Run(src, w, ops), k)
    decreases |ops|
  {
    hide Bounded, Enabled, Step;
    if ops != [] {
      StepBounded(src, w, ops[0], k);
      RunBounded(src, Step(src, w, ops[0]), ops[1..], k);
    }
  }

  /** For every deposit or burn, over every run with every crash and every failed write, at most
      one submission that did not report failure leaves the service, one more for each time the
      operator puts the record back to seen, and one more for each time a ledger is lost or not
      seen at a start. */
  lemma SentAtMostOnce(src: Source, c: Chains, ops: seq<Op>, k: string)
    requires Legal(src, Fresh(c), ops)
    ensures var w := Run(src, Fresh(c), ops); w.sent[k] <= 1 + w.again[k] + w.forgot
  {
    hide Run, Legal, MaySend;
    RunBounded(src, Fresh(c), ops, k);
  }

  /** The same in what the run itself shows: its accepted submissions of a record are at most one
      more than the operator's decisions to put it back and the starts without the ledger. */
  lemma SendsAtMostOnce(src: Source, c: Chains, ops: seq<Op>, k: string)
    requires Legal(src, Fresh(c), ops)
    ensures SendsIn(ops, k) <= 1 + PutBackIn(ops, k) + BlindIn(ops)
  {
    hide Run, Legal, SendsIn, PutBackIn, BlindIn;
    SentAtMostOnce(src, c, ops, k);
    CountersCount(src, Fresh(c), ops, k);
  }

  // ---------------------------------------------------------------------------
  // Reopening
  // ---------------------------------------------------------------------------

  /** The process remembers exactly what a restart would. */
  predicate InStep(src: Source, w: World) {
    w.mem.Some? ==> Opened(StartOf(src), w.file) == w.mem
  }

  /** The line an operation writes, and how that ended. */
  function LineOf(op: Op): Option<(Event, WriteOutcome)> {
    match op
    case Observe(ev, o) => Some((ev, o))
    case MoveCursor(t, leg, n, o) => Some((CursorEvent(t, leg, n), o))
    case Note(ev, o) => Some((ev, o))
    case WriteAhead(ev, o) => Some((ev, o))
    case Send(_, ev, o) => Some((ev, o))
    case Resolve(ev, o) => Some((ev, o))
    case _ => None
  }

  /** A step that leaves file and memory apart: a start that does not see a ledger with something
      to say, a refused write that left something behind, or the operator's line under a running
      process. */
  predicate Parts(src: Source, w: World, op: Op) {
    || (op.Start? && !op.found && Opened(StartOf(src), w.file) != Some(StartOf(src)))
    || (&& w.mem.Some? && LineOf(op).Some?
        && (var (ev, o) := LineOf(op).value;
            || o.Torn?
            || (o.Kept? && Fold(w.mem.value, ev) != w.mem.value)
            || (op.Resolve? && o.Done? && Fold(w.mem.value, ev) != w.mem.value)))
  }

  /** One step keeps file and memory in step exactly when it is not such a step. */
  lemma StepsTogetherIff(src: Source, w: World, op: Op)
    requires Enabled(src, w, op) && InStep(src, w)
    ensures InStep(src, Step(src, w, op)) <==> !Parts(src, w, op)
  {
    hide Replay, Fold, Readable, CompleteUpTo, KeyOf, Sendable;
    if LineOf(op).Some? {
      var (ev, o) := LineOf(op).value;
      ReplayAppend(StartOf(src), w.file, Entry(ev));
      ReadableAppend(w.file, Entry(ev));
      ReadableAppend(w.file, Garbled);
    }
  }

  ghost predicate NeverParts(src: Source, w: World, ops: seq<Op>)
    decreases |ops|
  {
    ops != [] ==> !Parts(src, w, ops[0]) && NeverParts(src, Step(src, w, ops[0]), ops[1..])
  }

  lemma {:induction false} RunInStep(src: Source, w: World, ops: seq<Op>)
    requires Legal(src, w, ops) && NeverParts(src, w, ops) && InStep(src, w)
    ensures InStep(src, Run(src, w, ops))
    decreases |ops|
  {
    hide InStep, Enabled, Step, Parts;
    if ops != [] {
      StepsTogetherIff(src, w, ops[0]);
      RunInStep(src, Step(src, w, ops[0]), ops[1..]);
    }
  }

  /** Dying and reopening the ledger brings back exactly the records and cursors the process
      had, in every run without such a step. */
  lemma ReopeningRestoresMemory(src: Source, c: Chains, ops: seq<Op>)
    requires Legal(src, Fresh(c), ops) && NeverParts(src, Fresh(c), ops)
    requires Run(src, Fresh(c), ops).mem.Some?
    ensures var w := Run(src, Fresh(c), ops); Run(src, w, [Crash(false), Start(true)]).mem == w.mem
  {
    hide Opened, Enabled;
    RunInStep(src, Fresh(c), ops);
    var w := Run(src, Fresh(c), ops);
    assert [Crash(false), Start(true)][1..] == [Start(true)];
    assert Run(src, w, [Crash(false), Start(true)]) == Run(src, Step(src, w, Crash(false)), [Start(true)]);
  }

  // ---------------------------------------------------------------------------
  // Runs put together
  // ---------------------------------------------------------------------------

  ghost predicate Leads(src: Source, w: World, ops: seq<Op>, v: World) {
    Legal(src, w, ops) && Run(src, w, ops) == v
  }

  lemma {:induction false} Follows(src: Source, w: World, ops: seq<Op>, v: World, more: seq<Op>, u: World)
    requires Leads(src, w, ops, v) && Leads(src, v, more, u)
    ensures Leads(src, w, ops + more, u)
    decreases |ops|
  {
    hide Enabled, Step;
    if ops == [] {
      assert ops + more == more;
    } else {
      Follows(src, Step(src, w, ops[0]), ops[1..], v, more, u);
      assert (ops + more)[1..] == ops[1..] + more;
    }
  }

  lemma OneMore(src: Source, w: World, ops: seq<Op>, op: Op)
    requires Legal(src, w, ops) && Enabled(src, Run(src, w, ops), op)
    ensures Leads(src, w, ops + [op], Step(src, Run(src, w, ops), op))
  {
    hide Enabled, Step;
    var v := Run(src, w, ops);
    assert [op][1..] == [] && Legal(src, Step(src, v, op), []);
    assert Run(src, v, [op]) == Run(src, Step(src, v, op), []);
    assert Leads(src, v, [op], Step(src, v, op));
    Follows(src, w, ops, v, [op], Step(src, v, op));
  }

  lemma Then(src: Source, w: World, ops: seq<Op>, v: World, op: Op)
    requires Leads(src, w, ops, v) && Enabled(src, v, op)
    ensures Leads(src, w, ops + [op], Step(src, v, op))
  {
    OneMore(src, w, ops, op);
  }

  lemma PrefixRun(src: Source, w: World, ops: seq<Op>, k: nat)
    requires k <= |ops|
    ensures k == 0 ==> Run(src, w, ops[..k]) == w
    ensures k > 0 ==> Run(src, w, ops[..k]) == Run(src, Step(src, w, ops[0]), ops[1..][..k - 1])
  {
    hide Step;
    if k > 0 {
      assert ops[..k][0] == ops[0] && ops[..k][1..] == ops[1..][..k - 1];
    }
  }
}
