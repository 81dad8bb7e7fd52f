/** What the bridge pays against chains that move: nothing is invented, what is paid answers to an
    event the chains hold, for good exactly when that event was settled when the payment left, and
    two runs that show why the guards matter. */
module BridgePayments {
  import opened Machine
  import opened Ledger
  import opened BridgeRuns
  import opened BridgeChains

  // ---------------------------------------------------------------------------
  // Nothing is invented
  // ---------------------------------------------------------------------------

  /** Some event is for exactly this payment. */
  ghost predicate Backed(logs: iset<Log>, p: Payment) {
    exists l :: l in logs && p == Payment(KeyOf(l.kind, l.id), l.amount, l.dest)
  }

  ghost predicate BackedMemory(logs: iset<Log>, m: Memory) {
    forall k :: k in m.records ==> Backed(logs, Payment(k, m.records[k].amount, m.records[k].dest))
  }

  /** Everything on record and everything paid answers to one of these events. */
  ghost predicate AllBacked(src: Source, logs: iset<Log>, w: World) {
    && BackedMemory(logs, InFile(src, w))
    && (w.mem.Some? ==> BackedMemory(logs, w.mem.value))
    && forall p :: p in w.paid ==> Backed(logs, p)
  }

  lemma FoldBacked(logs: iset<Log>, m: Memory, ev: Event)
    requires BackedMemory(logs, m)
    requires ev.kind == CURSOR || OnChain(logs, ev) || (Quiet(ev.fields) && EvKey(ev) in m.records)
    ensures BackedMemory(logs, Fold(m, ev))
  {
    var n := Fold(m, ev);
    if ev.kind != CURSOR {
      forall k | k in n.records ensures Backed(logs, Payment(k, n.records[k].amount, n.records[k].dest)) {
        if k != EvKey(ev) || Quiet(ev.fields) {
          assert Backed(logs, Payment(k, m.records[k].amount, m.records[k].dest));
        } else {
          var l :| l in logs && Shows(ev, l);
        }
      }
    }
  }

  lemma WrittenBacked(src: Source, logs: iset<Log>, w: World, ev: Event, o: WriteOutcome)
    requires AllBacked(src, logs, w) && Sound(src, w)
    requires ev.kind == CURSOR || OnChain(logs, ev) || (Quiet(ev.fields) && w.mem.Some? && EvKey(ev) in w.mem.value.records)
    ensures AllBacked(src, logs, Written(w, ev, o))
  {
    hide BackedMemory, Backed, Replay, Fold, OnChain, KeyOf, NoCursorKey, LogsOf;
    ReplayAppend(StartOf(src), w.file, Entry(ev));
    ReplayAppend(StartOf(src), w.file, Garbled);
    FoldBacked(logs, InFile(src, w), ev);
    if w.mem.Some? {
      FoldBacked(logs, w.mem.value, ev);
    }
  }

  /** A step of the service or its operator records and pays nothing but what the chains hold. */
  lemma StepBacked(src: Source, logs: iset<Log>, w: World, op: Op)
    requires Enabled(src, w, op) && Sound(src, w) && !op.ChainsMove?
    requires Offered(w.chains) <= logs && AllBacked(src, logs, w)
    ensures AllBacked(src, logs, Step(src, w, op))
  {
    hide BackedMemory, NoCursorKey, Backed, Replay, KeyOf, Appended, Readable, CompleteUpTo, LogsOf, OnChain, Fold, Offered;
    match op {
      case Start(found) => NothingBacked(src, logs);
      case Crash(lost) => NothingBacked(src, logs);
      case Observe(ev, o) =>
        OnMoreLogs(Offered(w.chains), logs, ev);
        WrittenBacked(src, logs, w, ev, o);
      case MoveCursor(t, leg, n, o) => WrittenBacked(src, logs, w, CursorEvent(t, leg, n), o);
      case Note(ev, o) => WrittenBacked(src, logs, w, ev, o);
      case WriteAhead(ev, o) => WrittenBacked(src, logs, w, ev, o);
      case Send(accepted, ev, o) =>
        WrittenBacked(src, logs, w, ev, o);
        PaymentBacked(src, logs, w, EvKey(ev));
      case Resolve(ev, o) =>
        RecordsIgnoreCursors(Initial(0, 0), StartOf(src), w.file);
        AppendedBacked(src, logs, w.file, ev, o);
    }
  }

  lemma NothingBacked(src: Source, logs: iset<Log>)
    ensures BackedMemory(logs, StartOf(src)) && Replay(StartOf(src), []) == StartOf(src)
  {
  }

  lemma OnMoreLogs(logs: iset<Log>, more: iset<Log>, ev: Event)
    requires logs <= more && OnChain(logs, ev)
    ensures OnChain(more, ev)
  {
  }

  lemma AppendedBacked(src: Source, logs: iset<Log>, file: seq<Line>, ev: Event, o: WriteOutcome)
    requires BackedMemory(logs, Replay(StartOf(src), file)) && Quiet(ev.fields) && EvKey(ev) in Replay(StartOf(src), file).records
    ensures BackedMemory(logs, Replay(StartOf(src), Appended(file, ev, o)))
  {
    hide BackedMemory, Replay, Fold;
    ReplayAppend(StartOf(src), file, Entry(ev));
    ReplayAppend(StartOf(src), file, Garbled);
    FoldBacked(logs, Replay(StartOf(src), file), ev);
  }

  lemma PaymentBacked(src: Source, logs: iset<Log>, w: World, k: string)
    requires AllBacked(src, logs, w)
    ensures forall p :: p in PaymentOf(w, k) ==> Backed(logs, p)
  {
    hide Backed, Replay;
  }

  lemma MoreLogsBack(src: Source, logs: iset<Log>, more: iset<Log>, w: World)
    requires logs <= more && AllBacked(src, logs, w)
    ensures AllBacked(src, more, w)
  {
    hide Replay, KeyOf;
    forall p | Backed(logs, p) ensures Backed(more, p) {
      var l :| l in logs && p == Payment(KeyOf(l.kind, l.id), l.amount, l.dest);
    }
  }

  lemma SameHoldings(src: Source, w: World, next: Chains, logs: iset<Log>)
    ensures AllBacked(src, logs, Step(src, w, ChainsMove(next))) <==> AllBacked(src, logs, w)
  {
    hide Backed, Replay, LogsOf;
  }

  /** Nothing but a move of the chains changes what they hold or have held. */
  lemma ChainsStand(src: Source, w: World, op: Op)
    ensures !op.ChainsMove? ==> Step(src, w, op).chains == w.chains && Step(src, w, op).ever == w.ever
  {
  }

  lemma {:induction false} RunBacked(src: Source, w: World, ops: seq<Op>)
    requires Legal(src, w, ops) && Sound(src, w) && AllBacked(src, w.ever, w)
    ensures AllBacked(src, Run(src, w, ops).ever, Run(src, w, ops))
    decreases |ops|
  {
    if ops != [] {
      var mid := Step(src, w, ops[0]);
      StepSound(src, w, ops[0]);
      ChainsStand(src, w, ops[0]);
      assert LogsOf(w.chains) <= w.ever;
      hide Sound, Enabled, AllBacked, LogsOf;
      match ops[0] {
        case ChainsMove(next) =>
          MoreLogsBack(src, w.ever, w.ever + LogsOf(next), w);
          SameHoldings(src, w, next, mid.ever);
        case _ =>
          StepBacked(src, w.ever, w, ops[0]);
      }
      hide Step;
      RunBacked(src, mid, ops[1..]);
    }
  }

  /** Every submission that ever left pays exactly what some event names that a chain has held, to
      whom it names; crashes, failed writes and the operator's decisions change neither. */
  lemma EveryPaymentIsBacked(src: Source, c: Chains, ops: seq<Op>, p: Payment)
    requires Legal(src, Fresh(c), ops) && p in Run(src, Fresh(c), ops).paid
    ensures Backed(Run(src, Fresh(c), ops).ever, p)
  {
    hide Run, Legal, Backed;
    FreshSound(src, c);
    RunBacked(src, Fresh(c), ops);
  }

  // ---------------------------------------------------------------------------
  // Against the chains as they stand
  // ---------------------------------------------------------------------------

  /** A record, in memory or in the file, or a payment made. */
  ghost predicate Holds(src: Source, w: World, p: Payment) {
    || (p.key in InFile(src, w).records && p == PaymentIn(InFile(src, w), p.key))
    || (w.mem.Some? && p.key in w.mem.value.records && p == PaymentIn(w.mem.value, p.key))
    || p in w.paid
  }

  function PaymentIn(m: Memory, k: string): Payment
    requires k in m.records
  {
    Payment(k, m.records[k].amount, m.records[k].dest)
  }

  /** A move of the chains that drops the event behind a record or a payment. */
  ghost predicate Orphans(src: Source, w: World, op: Op) {
    op.ChainsMove? && exists p :: Holds(src, w, p) && !Backed(LogsOf(op.next), p)
  }

  /** Everything on record or paid is for an event the chains hold now. */
  ghost predicate Current(src: Source, w: World) {
    AllBacked(src, LogsOf(w.chains), w)
  }

  lemma AllBackedIff(src: Source, logs: iset<Log>, w: World)
    ensures AllBacked(src, logs, w) <==> forall p :: Holds(src, w, p) ==> Backed(logs, p)
  {
    hide Backed, Replay;
    var f := InFile(src, w);
    if forall p :: Holds(src, w, p) ==> Backed(logs, p) {
      forall k | k in f.records ensures Backed(logs, Payment(k, f.records[k].amount, f.records[k].dest)) {
        assert Holds(src, w, PaymentIn(f, k));
      }
      if w.mem.Some? {
        forall k | k in w.mem.value.records
          ensures Backed(logs, Payment(k, w.mem.value.records[k].amount, w.mem.value.records[k].dest))
        {
          assert Holds(src, w, PaymentIn(w.mem.value, k));
        }
      }
      forall p | p in w.paid ensures Backed(logs, p) {
        assert Holds(src, w, p);
      }
    }
  }

  lemma StepCurrentIff(src: Source, w: World, op: Op)
    requires Enabled(src, w, op) && Sound(src, w) && Current(src, w)
    ensures Current(src, Step(src, w, op)) <==> !Orphans(src, w, op)
  {
    assert Offered(w.chains) <= LogsOf(w.chains);
    hide AllBacked, Holds, Backed, NoCursorKey, Replay, Enabled, LogsOf, Offered;
    match op {
      case ChainsMove(next) =>
        AllBackedIff(src, LogsOf(next), w);
        SameHoldings(src, w, next, LogsOf(next));
      case _ =>
        StepBacked(src, LogsOf(w.chains), w, op);
        ChainsStand(src, w, op);
    }
  }

  ghost predicate NeverOrphaned(src: Source, w: World, ops: seq<Op>)
    decreases |ops|
  {
    ops != [] ==> !Orphans(src, w, ops[0]) && NeverOrphaned(src, Step(src, w, ops[0]), ops[1..])
  }

  ghost predicate CurrentAfter(src: Source, w: World, ops: seq<Op>, k: nat)
    requires k <= |ops|
  {
    Current(src, Run(src, w, ops[..k]))
  }

  lemma {:induction false} CurrentRunIff(src: Source, w: World, ops: seq<Op>)
    requires Legal(src, w, ops) && Sound(src, w) && Current(src, w)
    ensures (forall k: nat :: k <= |ops| ==> CurrentAfter(src, w, ops, k)) <==> NeverOrphaned(src, w, ops)
    decreases |ops|
  {
    hide Current, Sound, Enabled, Step, Orphans, Run;
    PrefixRun(src, w, ops, 0);
    if ops != [] {
      var mid, rest := Step(src, w, ops[0]), ops[1..];
      StepCurrentIff(src, w, ops[0]);
      StepSound(src, w, ops[0]);
      forall k: nat | k <= |rest| ensures CurrentAfter(src, w, ops, k + 1) <==> CurrentAfter(src, mid, rest, k) {
        PrefixRun(src, w, ops, k + 1);
      }
      PrefixRun(src, mid, rest, 0);
      assert CurrentAfter(src, w, ops, 1) <==> CurrentAfter(src, mid, rest, 0);
      if Current(src, mid) {
        CurrentRunIff(src, mid, rest);
        forall k: nat | k <= |ops| && NeverOrphaned(src, mid, rest) ensures CurrentAfter(src, w, ops, k) {
          assert k > 0 ==> CurrentAfter(src, mid, rest, k - 1);
        }
      }
    }
  }

  /** Over every run, every record and every payment is for an event the chains hold at that
      moment if and only if no move of the chains ever drops the event behind one: the service
      does not look again before it pays. */
  lemma PaidWhatTheChainsHoldIff(src: Source, c: Chains, ops: seq<Op>)
    requires Legal(src, Fresh(c), ops)
    ensures (forall k: nat :: k <= |ops| ==> CurrentAfter(src, Fresh(c), ops, k)) <==> NeverOrphaned(src, Fresh(c), ops)
  {
    hide Run, Legal, Backed, NeverOrphaned;
    FreshSound(src, c);
    CurrentRunIff(src, Fresh(c), ops);
  }

  // ---------------------------------------------------------------------------
  // Backed whatever the chains do next
  // ---------------------------------------------------------------------------

  /** What no move of the chains takes away. */
  ghost function SettledLogs(c: Chains): iset<Log> {
    iset l: Log | (l in c.eth && l.at <= c.safe) || (l in c.hk && l.at <= c.height)
  }

  ghost predicate BackedForGood(c: Chains, p: Payment) {
    forall next :: SettledAgree(c, next) ==> Backed(LogsOf(next), p)
  }

  /** A payment has its event under every move of the chains if and only if a settled event is
      for exactly this payment. */
  lemma BackedForGoodIff(c: Chains, p: Payment)
    ensures BackedForGood(c, p) <==> Backed(SettledLogs(c), p)
  {
    hide KeyOf;
    if BackedForGood(c, p) {
      var eth, hk := iset l | l in c.eth && l.at <= c.safe, iset l | l in c.hk && l.at <= c.height;
      var next := c.(eth := eth, hk := hk);
      assert SettledAgree(c, next);
      var l :| l in LogsOf(next) && p == Payment(KeyOf(l.kind, l.id), l.amount, l.dest);
      assert l in SettledLogs(c);
    }
    if Backed(SettledLogs(c), p) {
      var l :| l in SettledLogs(c) && p == Payment(KeyOf(l.kind, l.id), l.amount, l.dest);
      forall next | SettledAgree(c, next) ensures Backed(LogsOf(next), p) {
        assert l in LogsOf(next);
      }
    }
  }

  /** A submission leaves for an event that is not settled. */
  ghost predicate PaysUnsettled(w: World, op: Op) {
    op.Send? && op.accepted && exists p :: p in PaymentOf(w, EvKey(op.ev)) && !Backed(SettledLogs(w.chains), p)
  }

  ghost predicate PaidForGood(w: World) {
    forall p :: p in w.paid ==> BackedForGood(w.chains, p)
  }

  lemma StillForGood(c: Chains, next: Chains, p: Payment)
    requires SettledAgree(c, next) && BackedForGood(c, p)
    ensures BackedForGood(next, p)
  {
    hide Backed;
    forall d | SettledAgree(next, d) ensures Backed(LogsOf(d), p) {
      assert SettledAgree(c, d);
    }
  }

  lemma StepPaidForGoodIff(src: Source, w: World, op: Op)
    requires Enabled(src, w, op) && PaidForGood(w)
    ensures PaidForGood(Step(src, w, op)) <==> !PaysUnsettled(w, op)
  {
    ChainsStand(src, w, op);
    hide BackedForGood, Backed, SettledAgree, KeyOf, Fold, CompleteUpTo, OnChain, PaymentOf;
    match op {
      case Send(accepted, ev, o) =>
        forall p | p in PaymentOf(w, EvKey(ev)) ensures BackedForGood(w.chains, p) <==> Backed(SettledLogs(w.chains), p) {
          BackedForGoodIff(w.chains, p);
        }
      case ChainsMove(next) =>
        forall p | p in w.paid ensures BackedForGood(next, p) {
          StillForGood(w.chains, next, p);
        }
      case _ =>
    }
  }

  ghost predicate NeverPaysUnsettled(src: Source, w: World, ops: seq<Op>)
    decreases |ops|
  {
    ops != [] ==> !PaysUnsettled(w, ops[0]) && NeverPaysUnsettled(src, Step(src, w, ops[0]), ops[1..])
  }

  ghost predicate PaidForGoodAfter(src: Source, w: World, ops: seq<Op>, k: nat)
    requires k <= |ops|
  {
    PaidForGood(Run(src, w, ops[..k]))
  }

  lemma {:induction false} PaidRunIff(src: Source, w: World, ops: seq<Op>)
    requires Legal(src, w, ops) && PaidForGood(w)
    ensures (forall k: nat :: k <= |ops| ==> PaidForGoodAfter(src, w, ops, k)) <==> NeverPaysUnsettled(src, w, ops)
    decreases |ops|
  {
    hide PaidForGood, Enabled, Step, PaysUnsettled, Run;
    PrefixRun(src, w, ops, 0);
    if ops != [] {
      var mid, rest := Step(src, w, ops[0]), ops[1..];
      StepPaidForGoodIff(src, w, ops[0]);
      forall k: nat | k <= |rest| ensures PaidForGoodAfter(src, w, ops, k + 1) <==> PaidForGoodAfter(src, mid, rest, k) {
        PrefixRun(src, w, ops, k + 1);
      }
      PrefixRun(src, mid, rest, 0);
      assert PaidForGoodAfter(src, w, ops, 1) <==> PaidForGoodAfter(src, mid, rest, 0);
      if PaidForGood(mid) {
        PaidRunIff(src, mid, rest);
        forall k: nat | k <= |ops| && NeverPaysUnsettled(src, mid, rest) ensures PaidForGoodAfter(src, w, ops, k) {
          assert k > 0 ==> PaidForGoodAfter(src, mid, rest, k - 1);
        }
      }
    }
  }

  /** Over every run: at every moment, whatever the chains do next, everything paid has its event,
      if and only if each submission, when it left, was for a settled event with that key, amount
      and destination. The code compares the recorded block number alone with the safe one. */
  lemma PaidForGoodThroughoutIff(src: Source, c: Chains, ops: seq<Op>)
    requires Legal(src, Fresh(c), ops)
    ensures (forall k: nat :: k <= |ops| ==> PaidForGoodAfter(src, Fresh(c), ops, k))
            <==> NeverPaysUnsettled(src, Fresh(c), ops)
  {
    hide Run, Legal, NeverPaysUnsettled;
    PaidRunIff(src, Fresh(c), ops);
  }

  // ---------------------------------------------------------------------------
  // Releases
  // ---------------------------------------------------------------------------

  /** The committed burns, and whatever Ethereum may ever hold. */
  ghost function CommittedOrEth(c: Chains): iset<Log> {
    iset l: Log | EthKind(l.kind) || (l in c.hk && l.at <= c.height)
  }

  lemma {:induction false} RunCommitted(src: Source, w: World, ops: seq<Op>)
    requires Legal(src, w, ops) && Sound(src, w) && AllBacked(src, CommittedOrEth(w.chains), w)
    ensures AllBacked(src, CommittedOrEth(Run(src, w, ops).chains), Run(src, w, ops))
    decreases |ops|
  {
    if ops != [] {
      var mid := Step(src, w, ops[0]);
      StepSound(src, w, ops[0]);
      ChainsStand(src, w, ops[0]);
      assert Offered(w.chains) <= CommittedOrEth(w.chains);
      hide Sound, Enabled, AllBacked, Offered;
      match ops[0] {
        case ChainsMove(next) =>
          CommittedGrows(src, w, next);
          SameHoldings(src, w, next, CommittedOrEth(next));
        case _ =>
          StepBacked(src, CommittedOrEth(w.chains), w, ops[0]);
      }
      hide Step;
      RunCommitted(src, mid, ops[1..]);
    }
  }

  lemma CommittedGrows(src: Source, w: World, next: Chains)
    requires Enabled(src, w, ChainsMove(next)) && AllBacked(src, CommittedOrEth(w.chains), w)
    ensures AllBacked(src, CommittedOrEth(next), w)
  {
    hide AllBacked;
    assert SettledAgree(w.chains, next);
    MoreLogsBack(src, CommittedOrEth(w.chains), CommittedOrEth(next), w);
  }

  /** Every release that left, in every run, is for a committed burn of exactly its key, amount
      and destination, which no later move of the chains takes away. */
  lemma ReleasesAreForGood(src: Source, c: Chains, ops: seq<Op>, kind: string, id: string, p: Payment)
    requires Legal(src, Fresh(c), ops) && p in Run(src, Fresh(c), ops).paid
    requires HkKind(kind) && p.key == KeyOf(kind, id)
    ensures Backed(SettledLogs(Run(src, Fresh(c), ops).chains), p) && BackedForGood(Run(src, Fresh(c), ops).chains, p)
  {
    hide Run, Legal, KeyOf, BackedForGood;
    FreshSound(src, c);
    RunCommitted(src, Fresh(c), ops);
    var d := Run(src, Fresh(c), ops).chains;
    assert Backed(CommittedOrEth(d), p);
    var l :| l in CommittedOrEth(d) && p == Payment(KeyOf(l.kind, l.id), l.amount, l.dest);
    if EthKind(l.kind) {
      KeyInjective(kind, id, l.kind, l.id);
      assert false;
    }
    assert l in SettledLogs(d);
    BackedForGoodIff(d, p);
  }

  /** An event in a settled block is there for good, and with it what was paid for it. */
  lemma {:induction false} SettledEventStays(leg: Leg, src: Source, w: World, ops: seq<Op>, l: Log)
    requires Legal(src, w, ops) && l in LogsOn(w.chains, leg) && l.at <= SettledOn(w.chains, leg)
    ensures l in LogsOn(Run(src, w, ops).chains, leg)
    decreases |ops|
  {
    if ops != [] {
      assert ops[0].ChainsMove? ==> SettledAgree(w.chains, ops[0].next);
      hide Enabled;
      if !ops[0].ChainsMove? {
        ChainsStand(src, w, ops[0]);
      }
      SettledEventStays(leg, src, Step(src, w, ops[0]), ops[1..], l);
    }
  }

  // ---------------------------------------------------------------------------
  // Two runs
  // ---------------------------------------------------------------------------

  function Line(l: Log, t: u64, state: State, fields: Fields): Event {
    Event(t, l.kind, l.id, state, fields)
  }

  /** Started and recorded. */
  function SeesIt(l: Log, t: u64, found: bool): seq<Op> {
    [Start(found)]
    + [Observe(Line(l, t, Seen, NO_FIELDS.(amount := Some(l.amount), dest := Some(l.dest), at := Some(l.at))), Done)]
  }

  /** Announced and submitted. */
  function PaysIt(l: Log, t: u64): seq<Op> {
    [WriteAhead(Line(l, t, Submitting, NO_FIELDS.(attempt := true)), Done)]
    + [Send(true, Line(l, t, Submitted, NO_FIELDS), Done)]
  }

  function PaymentFor(l: Log): Payment {
    Payment(KeyOf(l.kind, l.id), l.amount, l.dest)
  }

  predicate SeenAs(w: World, l: Log) {
    && Idle(w) && KeyOf(l.kind, l.id) in w.mem.value.records
    && var r := w.mem.value.records[KeyOf(l.kind, l.id)];
       r.state == Seen && r.amount == l.amount && r.dest == l.dest && r.at == l.at
  }

  lemma SeesEvent(src: Source, w: World, l: Log, t: u64, found: bool)
    requires w.mem.None? && (found ==> w.file == []) && l in w.chains.eth && EthKind(l.kind)
    ensures var v := Run(src, w, SeesIt(l, t, found));
            && Leads(src, w, SeesIt(l, t, found), v) && SeenAs(v, l)
            && v.chains == w.chains && v.sent == w.sent && v.again == w.again && v.paid == w.paid
  {
    var ops := SeesIt(l, t, found);
    var v := Step(src, w, Start(found));
    OneMore(src, w, [], Start(found));
    assert [] + [Start(found)] == [Start(found)];
    assert Shows(ops[1].ev, l);
    hide KeyOf;
    Then(src, w, [Start(found)], v, ops[1]);
  }

  lemma PaysRecord(src: Source, w: World, l: Log, t: u64)
    requires SeenAs(w, l) && Known(l.kind) && l.at <= w.chains.safe
    ensures var v := Run(src, w, PaysIt(l, t));
            && Leads(src, w, PaysIt(l, t), v) && v.chains == w.chains
            && v.sent == w.sent + multiset{KeyOf(l.kind, l.id)} && v.again == w.again && v.paid == w.paid + {PaymentFor(l)}
  {
    var ops := PaysIt(l, t);
    KnownKeys(ops[0].ev);
    hide KeyOf;
    var v := Step(src, w, ops[0]);
    OneMore(src, w, [], ops[0]);
    assert [] + [ops[0]] == [ops[0]];
    Then(src, w, [ops[0]], v, ops[1]);
  }

  /** It does happen: a deposit is recorded before its block is settled, the block is replaced
      without it, and once the safe head has passed its number it is paid all the same. */
  lemma DroppedEventIsPaid(src: Source, l: Log, t: u64)
    requires EthKind(l.kind) && 0 < l.at
    ensures
      var c, next := Chains(iset{l}, iset{}, 0, 0), Chains(iset{}, iset{}, l.at, 0);
      var ops := SeesIt(l, t, true) + [ChainsMove(next)] + PaysIt(l, t);
      && Legal(src, Fresh(c), ops) && PaymentFor(l) in Run(src, Fresh(c), ops).paid
      && LogsOf(Run(src, Fresh(c), ops).chains) == iset{}
  {
    hide Enabled, Step, SeesIt, PaysIt, KeyOf, Run, Legal;
    var c, next := Chains(iset{l}, iset{}, 0, 0), Chains(iset{}, iset{}, l.at, 0);
    var w := Fresh(c);
    SeesEvent(src, w, l, t, true);
    var w1 := Run(src, w, SeesIt(l, t, true));
    MovesAway(src, w1, next, l);
    var w2 := Step(src, w1, ChainsMove(next));
    Then(src, w, SeesIt(l, t, true), w1, ChainsMove(next));
    PaysRecord(src, w2, l, t);
    Follows(src, w, SeesIt(l, t, true) + [ChainsMove(next)], w2, PaysIt(l, t), Run(src, w2, PaysIt(l, t)));
  }

  lemma MovesAway(src: Source, w: World, next: Chains, l: Log)
    requires SeenAs(w, l) && SettledAgree(w.chains, next)
    ensures Enabled(src, w, ChainsMove(next)) && SeenAs(Step(src, w, ChainsMove(next)), l)
    ensures Step(src, w, ChainsMove(next)).chains == next
  {
    hide KeyOf;
  }

  /** It does happen: a settled deposit is paid, and after a restart that lost the ledger with its
      directory entry, or could not look it up, it is paid again with no decision of the operator. */
  lemma ForgottenLedgerPaysTwice(src: Source, l: Log, t: u64, lost: bool)
    requires EthKind(l.kind)
    ensures
      var c := Chains(iset{l}, iset{}, l.at, 0);
      var once := SeesIt(l, t, true) + PaysIt(l, t);
      var ops := once + [Crash(lost)] + SeesIt(l, t, lost) + PaysIt(l, t);
      && Legal(src, Fresh(c), ops)
      && Run(src, Fresh(c), ops).sent[KeyOf(l.kind, l.id)] == 2 && Run(src, Fresh(c), ops).again[KeyOf(l.kind, l.id)] == 0
  {
    hide Enabled, Step, SeesIt, PaysIt, KeyOf, Run, Legal;
    var c := Chains(iset{l}, iset{}, l.at, 0);
    var w := Fresh(c);
    SeesEvent(src, w, l, t, true);
    var w1 := Run(src, w, SeesIt(l, t, true));
    PaysRecord(src, w1, l, t);
    var once := SeesIt(l, t, true) + PaysIt(l, t);
    var w2 := Run(src, w1, PaysIt(l, t));
    Follows(src, w, SeesIt(l, t, true), w1, PaysIt(l, t), w2);
    Dies(src, w2, lost);
    var w3 := Step(src, w2, Crash(lost));
    Then(src, w, once, w2, Crash(lost));
    SeesEvent(src, w3, l, t, lost);
    var w4 := Run(src, w3, SeesIt(l, t, lost));
    Follows(src, w, once + [Crash(lost)], w3, SeesIt(l, t, lost), w4);
    PaysRecord(src, w4, l, t);
    Follows(src, w, once + [Crash(lost)] + SeesIt(l, t, lost), w4, PaysIt(l, t), Run(src, w4, PaysIt(l, t)));
  }

  lemma Dies(src: Source, w: World, lost: bool)
    ensures Enabled(src, w, Crash(lost))
    ensures var v := Step(src, w, Crash(lost));
            && v.mem.None? && (lost ==> v.file == [])
            && v.chains == w.chains && v.sent == w.sent && v.again == w.again && v.paid == w.paid
  {
  }

  /** It does happen: a line is refused after it reached the file, the service goes on without the
      record, and reopening the file brings it back. */
  lemma RefusedLineComesBack(src: Source, l: Log, t: u64)
    requires EthKind(l.kind)
    ensures
      var c := Chains(iset{l}, iset{}, 0, 0);
      var seen := SeesIt(l, t, true)[1].ev;
      var ops := [Start(true)] + [Observe(seen, Kept)];
      var w := Run(src, Fresh(c), ops);
      && Legal(src, Fresh(c), ops) && w.mem == Some(StartOf(src))
      && Run(src, w, [Crash(false), Start(true)]).mem == Some(Fold(StartOf(src), seen))
      && Fold(StartOf(src), seen) != StartOf(src)
  {
    var c := Chains(iset{l}, iset{}, 0, 0);
    var seen := SeesIt(l, t, true)[1].ev;
    assert Shows(seen, l);
    hide KeyOf;
    var w := Fresh(c);
    var w1 := Step(src, w, Start(true));
    OneMore(src, w, [], Start(true));
    assert [] + [Start(true)] == [Start(true)];
    Then(src, w, [Start(true)], w1, Observe(seen, Kept));
    var w2 := Step(src, w1, Observe(seen, Kept));
    ReplayAppend(StartOf(src), [], Entry(seen));
    assert w2.file == [Entry(seen)];
    assert [Crash(false), Start(true)][1..] == [Start(true)];
    assert Run(src, w2, [Crash(false), Start(true)]) == Run(src, Step(src, w2, Crash(false)), [Start(true)]);
  }
}
