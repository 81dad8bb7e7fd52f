/** The bridge service: the ledger object and the loops that scan the two chains and drive every
    record. A ghost trace ties each statement that touches the ledger or sends to a step of the
    state machine, so what holds of every run holds of these loops. */
module Bridge {
  import opened Machine
  import opened Ledger
  import opened BridgeRuns
  import opened BridgeChains

  function RecordKey(r: Record): string {
    KeyOf(r.kind, r.id)
  }

  /** Every record sits under its own key. */
  predicate WellKeyed(records: map<string, Record>) {
    forall k :: k in records ==> RecordKey(records[k]) == k
  }

  predicate Listed(records: map<string, Record>, r: Record) {
    RecordKey(r) in records && records[RecordKey(r)] == r
  }

  lemma FoldWellKeyed(m: Memory, ev: Event)
    requires WellKeyed(m.records)
    ensures WellKeyed(Fold(m, ev).records)
  {
  }

  /** A line about a record on file moves that record to its state and touches no other. */
  lemma FoldMoves(m: Memory, ev: Event)
    requires WellKeyed(m.records) && ev.kind != CURSOR && KeyOf(ev.kind, ev.id) in m.records
    ensures WellKeyed(Fold(m, ev).records) && OnlyKey(m.records, Fold(m, ev).records, KeyOf(ev.kind, ev.id))
    ensures Fold(m, ev).records[KeyOf(ev.kind, ev.id)].state == ev.state
  {
    hide KeyOf;
    FoldWellKeyed(m, ev);
  }

  lemma {:induction false} ReplayWellKeyed(m: Memory, file: seq<Line>)
    requires WellKeyed(m.records)
    ensures WellKeyed(Replay(m, file).records)
  {
    hide Fold, WellKeyed;
    if file != [] {
      ReplayWellKeyed(m, file[..|file| - 1]);
      if file[|file| - 1].Entry? {
        FoldWellKeyed(Replay(m, file[..|file| - 1]), file[|file| - 1].ev);
      }
    }
  }

  class LedgerFile {
    var file: seq<Line>
    var records: map<string, Record>
    var ethCursor: u64
    var hkCursor: u64

    constructor (file: seq<Line>, m: Memory)
      ensures this.file == file && Value() == m
    {
      this.file, records, ethCursor, hkCursor := file, m.records, m.ethCursor, m.hkCursor;
    }

    function Value(): Memory
      reads this
    {
      Memory(records, ethCursor, hkCursor)
    }

    /** `found` is whether the path exists, as far as asking for it tells: a file that cannot be
        looked up is not read, and still appended to. */
    static method OpenFile(file: seq<Line>, ethFrom: u64, hkFrom: u64, found: bool) returns (l: LedgerFile?)
      ensures l != null <==> !found || Readable(file)
      ensures l != null ==> fresh(l) && l.file == file
      ensures l != null && found ==> Some(l.Value()) == Opened(Initial(ethFrom, hkFrom), file)
      ensures l != null && !found ==> l.Value() == Initial(ethFrom, hkFrom)
    {
      hide Fold;
      var m := Initial(ethFrom, hkFrom);
      if !found {
        return new LedgerFile(file, m);
      }
      for i := 0 to |file|
        invariant m == Replay(Initial(ethFrom, hkFrom), file[..i])
        invariant forall j :: 0 <= j < i ==> file[j].Entry?
      {
        assert file[..i + 1][..i] == file[..i];
        match file[i] {
          case Garbled => return null;
          case Entry(ev) => m := Fold(m, ev);
        }
      }
      assert file[..|file|] == file;
      l := new LedgerFile(file, m);
    }

    /** Append, flush, sync; fold only after all three. */
    method Write(kind: string, id: string, state: State, fields: Fields) returns (ev: Event, w: WriteOutcome)
      modifies this
      ensures ev.kind == kind && ev.id == id && ev.state == state && ev.fields == fields
      ensures file == Appended(old(file), ev, w) && Value() == Remembered(old(Value()), ev, w)
    {
      hide Fold;
      var t: u64 := *;
      ev := Event(t, kind, id, state, fields);
      w := *;
      match w {
        case Lost => return;
        case Torn => file := file + [Garbled]; return;
        case Kept => file := file + [Entry(ev)]; return;
        case Done => file := file + [Entry(ev)];
      }
      var m := Fold(Value(), ev);
      records, ethCursor, hkCursor := m.records, m.ethCursor, m.hkCursor;
    }

    /** The records of a kind in given states, each once. */
    method InStates(kind: string, states: set<State>) returns (rs: seq<Record>)
      requires WellKeyed(records)
      ensures forall k :: k in records && records[k].kind == kind && records[k].state in states ==> records[k] in rs
      ensures forall i :: 0 <= i < |rs| ==> Listed(records, rs[i]) && rs[i].kind == kind && rs[i].state in states
      ensures forall i, j :: 0 <= i < j < |rs| ==> RecordKey(rs[i]) != RecordKey(rs[j])
    {
      rs := [];
      var left := records.Keys;
      while left != {}
        invariant left <= records.Keys
        invariant forall k :: k in records && k !in left && records[k].kind == kind && records[k].state in states ==> records[k] in rs
        invariant forall i :: 0 <= i < |rs| ==>
          Listed(records, rs[i]) && RecordKey(rs[i]) !in left && rs[i].kind == kind && rs[i].state in states
        invariant forall i, j :: 0 <= i < j < |rs| ==> RecordKey(rs[i]) != RecordKey(rs[j])
        decreases |left|
      {
        var k :| k in left;
        left := left - {k};
        if records[k].kind == kind && records[k].state in states {
          rs := rs + [records[k]];
        }
      }
    }
  }

  // ---------------------------------------------------------------------------
  // What the chains answer
  // ---------------------------------------------------------------------------

  /** A decoded Ethereum event. */
  datatype BridgeEvent = BridgeEvent(id: string, amount: u128, hkAccount: string, block: u64, txHash: string)

  /** The log query: kind, first block, last block; `None` when it fails, an entry of it when that
      log does not decode. */
  type FetchEth = (string, u64, u64) -> Option<seq<Option<BridgeEvent>>>

  /** A burn on the other chain; `unknown` when the node holds no receipt for it. */
  datatype Burn = Burn(txid: string, amount: u128, dest: string, unknown: bool)

  predicate Accepted(receipt: string) {
    "ok" <= receipt
  }

  function Verdict(receipt: string): State {
    if Accepted(receipt) then Confirmed else Rejected
  }

  /** The node's answers about one deposit: does the recipient exist, the submission's id or a
      refusal, the receipt awaited after it, the receipt found on a later visit. */
  datatype MintAnswers = MintAnswers(exists_: bool, submit: Option<string>, waited: Option<string>, found: Option<string>)

  /** A deposit's next state when nothing fails on the way. */
  function NextMint(r: Record, safe: u64, parses: bool, a: MintAnswers): State {
    if r.state.Submitted? then
      if r.hkTxid.Some? && a.found.Some? then Verdict(a.found.value) else Submitted
    else if r.at > safe then r.state
    else if !parses then NeedsReview
    else if !a.exists_ then HeldRecipient
    else if r.amount == 0 then NeedsReview
    else if a.waited.Some? then Verdict(a.waited.value)
    else Submitted
  }

  predicate Mints(r: Record, safe: u64, parses: bool, a: MintAnswers) {
    !r.state.Submitted? && r.at <= safe && parses && a.exists_ && r.amount != 0
  }

  const MINT_STATES: set<State> := {Seen, HeldRecipient, Submitted}

  /** What a poll for a receipt says. */
  datatype Poll = Unreachable | NotYet | Mined(ok: bool)

  /** The contract's and the provider's answers about one burn; `None` where the call failed. */
  datatype ReleaseAnswers = ReleaseAnswers(processed: Option<bool>, found: Poll, signed: bool, send: Option<string>, polls: nat -> Poll)

  const POLLS: nat := 20

  /** The first poll, at or after the `i`-th, that is not "not yet". */
  function FirstNews(polls: nat -> Poll, i: nat): Poll
    decreases POLLS - i
  {
    if i >= POLLS then NotYet
    else if polls(i).NotYet? then FirstNews(polls, i + 1)
    else polls(i)
  }

  /** The daily allowance and the switch of the contract. */
  datatype Vault = Vault(paused: bool, remaining: u128)

  /** A burn's next state when nothing fails on the way. */
  function NextRelease(r: Record, vault: Vault, a: ReleaseAnswers): State {
    if a.processed == Some(true) then Confirmed
    else if r.state.Submitted? then
      if r.ethTx.Some? && a.found == Mined(false) then Reverted else Submitted
    else if vault.paused then QueuedPaused
    else if r.amount > vault.remaining then QueuedCap
    else
      match FirstNews(a.polls, 0)
      case Mined(true) => Confirmed
      case Mined(false) => Reverted
      case _ => Submitted
  }

  predicate Releases(r: Record, vault: Vault, a: ReleaseAnswers) {
    a.processed != Some(true) && !r.state.Submitted? && !vault.paused && r.amount <= vault.remaining
  }

  /** Which answers lead a deposit to which state: a receipt that begins with "ok", and no other,
      confirms it, any other rejects it, and every other move has its one cause. */
  lemma MintMovesIff(r: Record, safe: u64, parses: bool, a: MintAnswers)
    requires r.state in MINT_STATES
    ensures var next := NextMint(r, safe, parses, a);
            var receipt := if r.state == Submitted then (if r.hkTxid.Some? then a.found else None)
                           else if Mints(r, safe, parses, a) then a.waited else None;
            && (next == Confirmed <==> receipt.Some? && "ok" <= receipt.value)
            && (next == Rejected <==> receipt.Some? && !("ok" <= receipt.value))
            && (next == NeedsReview <==>
                  r.state != Submitted && r.at <= safe && (!parses || (a.exists_ && r.amount == 0)))
            && (next == HeldRecipient <==>
                  r.state != Submitted && (if r.at > safe then r.state == HeldRecipient else parses && !a.exists_))
            && (next == Submitted <==> receipt.None? && (r.state == Submitted || Mints(r, safe, parses, a)))
            && (next == Seen <==> r.state == Seen && r.at > safe)
    ensures Mints(r, safe, parses, a) <==>
              r.state in {Seen, HeldRecipient} && r.at <= safe && parses && a.exists_ && r.amount > 0
  {
  }

  const RELEASE_STATES: set<State> := {Seen, QueuedCap, QueuedPaused, Submitted}

  lemma {:induction false} FirstNewsIs(polls: nat -> Poll, i: nat)
    ensures FirstNews(polls, i).NotYet? <==> forall j: nat :: i <= j < POLLS ==> polls(j).NotYet?
    ensures !FirstNews(polls, i).NotYet? ==>
              exists j: nat :: i <= j < POLLS && FirstNews(polls, i) == polls(j) && forall k: nat :: i <= k < j ==> polls(k).NotYet?
    decreases POLLS - i
  {
    if i < POLLS && polls(i).NotYet? {
      FirstNewsIs(polls, i + 1);
    }
  }

  /** Which answers lead a burn to which state: the contract's own record comes first, then what
      became of an earlier submission, then the switch and the allowance, and last the first news
      of twenty polls about the submission just made. */
  lemma ReleaseMovesIff(r: Record, vault: Vault, a: ReleaseAnswers)
    requires r.state in RELEASE_STATES
    ensures var next, news := NextRelease(r, vault, a), FirstNews(a.polls, 0);
            && (next == Confirmed <==> a.processed == Some(true) || (Releases(r, vault, a) && news == Mined(true)))
            && (next == Reverted <==>
                  || (a.processed != Some(true) && r.state == Submitted && r.ethTx.Some? && a.found == Mined(false))
                  || (Releases(r, vault, a) && news == Mined(false)))
            && (next == QueuedPaused <==> a.processed != Some(true) && r.state != Submitted && vault.paused)
            && (next == QueuedCap <==>
                  a.processed != Some(true) && r.state != Submitted && !vault.paused && r.amount > vault.remaining)
            && next in {Confirmed, Reverted, QueuedPaused, QueuedCap, Submitted}
    ensures Releases(r, vault, a) <==>
              a.processed != Some(true) && r.state in {Seen, QueuedCap, QueuedPaused} && !vault.paused && r.amount <= vault.remaining
  {
  }

  /** What one tick knows when it drives the records of one direction. */
  datatype Plan =
    | MintPlan(safe: u64, parsesAccount: string -> bool, mint: Record -> MintAnswers)
    | ReleasePlan(vault: Vault, parsesId: string -> bool, release: Record -> ReleaseAnswers)

  /** A record's next state when nothing fails on the way; an id that is not 32 bytes stays. */
  function Next(plan: Plan, r: Record): State {
    match plan
    case MintPlan(safe, parses, mint) => NextMint(r, safe, parses(r.dest), mint(r))
    case ReleasePlan(vault, parsesId, release) => if parsesId(r.id) then NextRelease(r, vault, release(r)) else r.state
  }

  predicate Submits(plan: Plan, r: Record) {
    match plan
    case MintPlan(safe, parses, mint) => Mints(r, safe, parses(r.dest), mint(r))
    case ReleasePlan(vault, parsesId, release) => parsesId(r.id) && Releases(r, vault, release(r))
  }

  /** The id of a burn that is not 32 bytes keeps it where it is, unsubmitted, whatever the contract
      would answer; every other record goes by its answers. */
  lemma PlanMovesIff(plan: Plan, r: Record)
    requires plan.ReleasePlan?
    ensures !plan.parsesId(r.id) ==> Next(plan, r) == r.state && !Submits(plan, r)
    ensures plan.parsesId(r.id) ==>
              && Next(plan, r) == NextRelease(r, plan.vault, plan.release(r))
              && (Submits(plan, r) <==> Releases(r, plan.vault, plan.release(r)))
  {
  }

  function DueStates(plan: Plan): set<State> {
    if plan.MintPlan? then MINT_STATES else RELEASE_STATES
  }

  // ---------------------------------------------------------------------------
  // The service
  // ---------------------------------------------------------------------------

  class Service {
    const src: Source
    ghost const origin: Chains
    const ledger: LedgerFile
    /** the reverse leg: wrapped token and its asset configured */
    const reverse: bool
    const logPage: u64
    const hkBatch: u64
    const parsesAccount: string -> bool
    const parsesId: string -> bool
    const parsesAddress: string -> bool
    ghost var world: World
    ghost var trace: seq<Op>

    /** Starting the process on a ledger some earlier run left behind, seen or not. */
    constructor (src: Source, ledger: LedgerFile, reverse: bool, logPage: u64, hkBatch: u64,
                 parsesAccount: string -> bool, parsesId: string -> bool, parsesAddress: string -> bool,
                 found: bool, ghost origin: Chains, ghost past: seq<Op>)
      requires Legal(src, Fresh(origin), past) && Run(src, Fresh(origin), past).mem.None?
      requires ledger.file == Run(src, Fresh(origin), past).file
      requires if found then Opened(StartOf(src), ledger.file) == Some(ledger.Value()) else ledger.Value() == StartOf(src)
      ensures this.ledger == ledger && this.src == src && this.origin == origin && Valid() && trace == past + [Start(found)]
    {
      this.src, this.ledger, this.reverse, this.logPage, this.hkBatch := src, ledger, reverse, logPage, hkBatch;
      this.parsesAccount, this.parsesId, this.parsesAddress := parsesAccount, parsesId, parsesAddress;
      this.origin := origin;
      world := Run(src, Fresh(origin), past);
      trace := past;
      new;
      Do(Start(found));
      ReplayWellKeyed(StartOf(src), ledger.file);
    }

    ghost predicate Traced()
      reads this
    {
      world == Run(src, Fresh(origin), trace)
    }

    /** No cursor line so far went past the safe block of its time. */
    ghost predicate Guarded()
      reads this
    {
      NeverOverruns(EthLeg, src, Fresh(origin), trace)
    }

    /** The ledger object is the running process of a legal run. */
    ghost predicate Valid()
      reads this, ledger
    {
      Midway(None)
    }

    /** The same with a submission written ahead and not yet made. */
    ghost predicate Midway(sending: Option<string>)
      reads this, ledger
    {
      && Legal(src, Fresh(origin), trace) && Traced()
      && world.file == ledger.file && world.mem == Some(ledger.Value()) && world.sending == sending
      && WellKeyed(ledger.records)
    }

    ghost method Do(op: Op)
      requires Legal(src, Fresh(origin), trace) && Traced() && Enabled(src, world, op)
      modifies this`world, this`trace
      ensures Legal(src, Fresh(origin), trace) && Traced()
      ensures world == Step(src, old(world), op) && trace == old(trace) + [op]
      ensures Guarded() <==> old(Guarded()) && !Overruns(EthLeg, src, old(world), op)
    {
      OneMore(src, Fresh(origin), trace, op);
      OverrunsLast(EthLeg, src, Fresh(origin), trace, op);
      world := Step(src, world, op);
      trace := trace + [op];
    }

    // -------------------------------------------------------------------------
    // Scanning
    // -------------------------------------------------------------------------

    /** First sight of an Ethereum event; a key already on record is left alone. */
    method RecordEthEvent(kind: string, ev: BridgeEvent) returns (ok: bool)
      requires Valid() && EthKind(kind) && EthLog(kind, ev) in world.chains.eth
      modifies this`world, this`trace, ledger
      ensures Valid() && old(trace) <= trace && world.chains == old(world.chains) && (old(Guarded()) ==> Guarded())
      ensures Grown(old(ledger.Value()), ledger.Value())
      ensures ok ==> KeyOf(kind, ev.id) in ledger.records
      ensures ok && KeyOf(kind, ev.id) !in old(ledger.records) ==>
                var r := ledger.records[KeyOf(kind, ev.id)]; r.state == Seen && r.at == ev.block
    {
      hide Run, Legal, CompleteUpTo, NeverOverruns;
      if KeyOf(kind, ev.id) in ledger.records {
        return true;
      }
      var fields := NO_FIELDS.(amount := Some(ev.amount), dest := Some(ev.hkAccount), at := Some(ev.block), sourceTx := Some(ev.txHash));
      var line, w := ledger.Write(kind, ev.id, Seen, fields);
      assert Shows(line, EthLog(kind, ev));
      Do(Observe(line, w));
      FoldWellKeyed(old(ledger.Value()), line);
      return w.Done?;
    }

    method RecordEthPage(kind: string, page: seq<Option<BridgeEvent>>) returns (ok: bool)
      requires Valid() && EthKind(kind)
      requires forall e :: Some(e) in page ==> EthLog(kind, e) in world.chains.eth
      modifies this`world, this`trace, ledger
      ensures Valid() && old(trace) <= trace && world.chains == old(world.chains) && (old(Guarded()) ==> Guarded())
      ensures Grown(old(ledger.Value()), ledger.Value())
      ensures ok ==> PageRecorded(kind, page, ledger.records)
    {
      hide Run, Legal, CompleteUpTo, KeyOf, Valid, Guarded;
      for i := 0 to |page|
        invariant Valid() && old(trace) <= trace && world.chains == old(world.chains) && (old(Guarded()) ==> Guarded())
        invariant Grown(old(ledger.Value()), ledger.Value())
        invariant PageRecorded(kind, page[..i], ledger.records)
      {
        if page[i].None? {
          return false;
        }
        assert page[i] in page && page[i] == Some(page[i].value);
        var recorded := RecordEthEvent(kind, page[i].value);
        if !recorded {
          return false;
        }
        assert page[..i + 1] == page[..i] + [page[i]];
      }
      assert page[..|page|] == page;
      return true;
    }

    /** Both kinds of a page of blocks, then the cursor: with a page size of zero the cursor is
        written back where it was, and the loop that calls this never ends. */
    method ScanEthPage(head: u64, fetch: FetchEth) returns (ok: bool)
      requires Valid() && ledger.ethCursor < head && FetchesEth(world.chains.eth, reverse, fetch)
      modifies this`world, this`trace, ledger
      ensures Valid() && old(trace) <= trace && world.chains == old(world.chains)
      ensures Untouched(old(ledger.records), ledger.records)
      ensures ok ==> ledger.ethCursor == Min(old(ledger.ethCursor) + logPage, head)
      ensures ok ==> CompleteUpTo(world.chains.eth, ledger.records, old(ledger.ethCursor), ledger.ethCursor)
      ensures old(Guarded()) && head <= world.chains.safe ==> Guarded()
    {
      hide Run, Legal, CompleteUpTo, KeyOf, Valid, Fetched, PageRecorded, Guarded;
      var lo: u64 := ledger.ethCursor + 1;
      var hi: u64 := Min(lo + logPage - 1, head);
      var locked := fetch("deposit", lo, hi);
      if locked.None? {
        return false;
      }
      OnlyLogs(world.chains.eth, "deposit", lo, hi, locked.value);
      var recorded := RecordEthPage("deposit", locked.value);
      if !recorded {
        return false;
      }
      ghost var middle := ledger.records;
      var burned: Option<seq<Option<BridgeEvent>>> := Some([]);
      if reverse {
        burned := fetch("wburn", lo, hi);
        if burned.None? {
          return false;
        }
        OnlyLogs(world.chains.eth, "wburn", lo, hi, burned.value);
        recorded := RecordEthPage("wburn", burned.value);
        if !recorded {
          return false;
        }
      }
      StaysRecorded("deposit", locked.value, middle, ledger.records);
      PageComplete(world.chains.eth, reverse, locked.value, burned.value, ledger.records, ledger.ethCursor, hi);
      ok := MoveEthCursor(hi);
    }

    /** Up to the head, page after page, the chains moving between pages as `moves` says: no record
        it finds is touched, and when it is done every event at or below the cursor has a record
        unless some move, in this scan or in any earlier run, put one behind it. Were the head it is
        given no further than the safe one, nothing could. */
    method ScanEth(head: u64, fetches: nat -> FetchEth, ghost moves: nat -> Chains) returns (ok: bool)
      requires Valid() && logPage > 0 && SettledAgree(world.chains, moves(0))
      requires forall i: nat :: SettledAgree(moves(i), moves(i + 1)) && FetchesEth(moves(i).eth, reverse, fetches(i))
      modifies this`world, this`trace, ledger
      ensures Valid() && old(trace) <= trace && Untouched(old(ledger.records), ledger.records)
      ensures ok ==> ledger.ethCursor >= head
      ensures NeverUndercut(EthLeg, src, Fresh(origin), trace) ==>
                CompleteUpTo(world.chains.eth, ledger.records, StartOf(src).ethCursor, ledger.ethCursor)
      ensures old(Guarded()) && head <= old(world.chains.safe) ==>
                Guarded() && forall next :: SettledAgree(world.chains, next) ==> CompleteIn(EthLeg, src, next, ledger.Value())
    {
      hide Run, Legal, CompleteUpTo, KeyOf, Valid, FetchesEth, Step, NeverUndercut, Guarded, SameUpTo;
      ok := true;
      var i: nat := 0;
      while ok && ledger.ethCursor < head
        invariant Valid() && old(trace) <= trace && Untouched(old(ledger.records), ledger.records)
        invariant SettledAgree(world.chains, moves(i)) && old(world.chains.safe) <= world.chains.safe
        invariant old(Guarded()) && head <= old(world.chains.safe) ==> Guarded()
        decreases ok, head - ledger.ethCursor
      {
        Move(moves(i));
        ok := ScanEthPage(head, fetches(i));
        i := i + 1;
      }
      TraceComplete();
      if Guarded() {
        GuardedForGood();
      }
    }

    lemma GuardedForGood()
      requires Valid() && Guarded()
      ensures forall next :: SettledAgree(world.chains, next) ==> CompleteIn(EthLeg, src, next, ledger.Value())
    {
      hide Valid, NeverOverruns, CompleteIn, SettledAgree;
      TraceForGood(EthLeg);
    }

    ghost method Move(next: Chains)
      requires Valid() && SettledAgree(world.chains, next)
      modifies this`world, this`trace
      ensures Valid() && old(trace) <= trace && world.chains == next && (old(Guarded()) ==> Guarded())
    {
      hide Run, Legal, SettledAgree, NeverOverruns;
      Do(ChainsMove(next));
    }

    method MoveEthCursor(n: u64) returns (ok: bool)
      requires Valid() && CompleteUpTo(world.chains.eth, ledger.records, ledger.ethCursor, n)
      modifies this`world, this`trace, ledger
      ensures Valid() && old(trace) <= trace && world.chains == old(world.chains)
      ensures ledger.records == old(ledger.records)
      ensures ok ==> ledger.ethCursor == n
      ensures old(Guarded()) && n <= world.chains.safe ==> Guarded()
    {
      hide Run, Legal, CompleteUpTo, NeverOverruns;
      var line, w := ledger.Write(CURSOR, "eth", NoState, NO_FIELDS.(n := Some(n)));
      Do(MoveCursor(line.t, EthLeg, n, w));
      return w.Done?;
    }

    /** First sight of a burn: only a 20-byte destination with a known receipt may be paid
        without the operator. */
    method RecordHkBurn(kind: string, height: u64, b: Burn) returns (ok: bool)
      requires Valid() && HkKind(kind) && HkLog(kind, height, b) in world.chains.hk && height <= world.chains.height
      modifies this`world, this`trace, ledger
      ensures Valid() && old(trace) <= trace && world.chains == old(world.chains)
      ensures Grown(old(ledger.Value()), ledger.Value())
      ensures ok ==> KeyOf(kind, b.txid) in ledger.records
      ensures ok && KeyOf(kind, b.txid) !in old(ledger.records) ==>
                (Sendable(ledger.records[KeyOf(kind, b.txid)].state) <==> !b.unknown && |b.dest| == 40)
    {
      hide Run, Legal, CompleteUpTo, SettledAgree, PlaceIn, Movable, NeverOverruns, Overruns, Readable;
      hide OnChain, Offered, Shows;
      if KeyOf(kind, b.txid) in ledger.records {
        return true;
      }
      var state, note := Unbridgeable, "not a 20-byte address";
      if b.unknown {
        state, note := NeedsReview, "no receipt";
      } else if |b.dest| == 40 {
        state, note := Seen, "";
      }
      var fields := NO_FIELDS.(amount := Some(b.amount), dest := Some("0x" + b.dest), at := Some(height),
                               sourceTx := Some(b.txid), note := Some(note));
      var line, w := ledger.Write(kind, b.txid, state, fields);
      ShownByLog(world.chains, line, HkLog(kind, height, b));
      Do(Observe(line, w));
      FoldWellKeyed(old(ledger.Value()), line);
      return w.Done?;
    }

    method RecordHkBurns(kind: string, height: u64, burns: seq<Burn>) returns (ok: bool)
      requires Valid() && HkKind(kind) && height <= world.chains.height
      requires forall b :: b in burns ==> HkLog(kind, height, b) in world.chains.hk
      modifies this`world, this`trace, ledger
      ensures Valid() && old(trace) <= trace && world.chains == old(world.chains)
      ensures Grown(old(ledger.Value()), ledger.Value())
      ensures ok ==> BurnsRecorded(kind, burns, ledger.records)
    {
      hide Run, Legal, CompleteUpTo, KeyOf, Valid;
      for i := 0 to |burns|
        invariant Valid() && old(trace) <= trace && world.chains == old(world.chains)
        invariant Grown(old(ledger.Value()), ledger.Value())
        invariant BurnsRecorded(kind, burns[..i], ledger.records)
      {
        assert burns[i] in burns;
        var recorded := RecordHkBurn(kind, height, burns[i]);
        if !recorded {
          return false;
        }
        assert burns[..i + 1] == burns[..i] + [burns[i]];
      }
      assert burns[..|burns|] == burns;
      return true;
    }

    /** Both kinds of one height, then the cursor. */
    method ScanHkHeight(fetch: (string, u64) -> Option<seq<Burn>>) returns (ok: bool)
      requires Valid() && ledger.hkCursor < world.chains.height && FetchesHk(world.chains.hk, reverse, fetch)
      modifies this`world, this`trace, ledger
      ensures Valid() && old(trace) <= trace && world.chains == old(world.chains)
      ensures Untouched(old(ledger.records), ledger.records)
      ensures ok ==> ledger.hkCursor == old(ledger.hkCursor) + 1
      ensures ok ==> CompleteUpTo(world.chains.hk, ledger.records, old(ledger.hkCursor), ledger.hkCursor)
    {
      hide Run, Legal, CompleteUpTo, KeyOf, Valid, BurnedAt, BurnsRecorded;
      var h: u64 := ledger.hkCursor + 1;
      var burns := fetch("burn", h);
      if burns.None? {
        return false;
      }
      OnlyBurns(world.chains.hk, "burn", h, burns.value);
      var recorded := RecordHkBurns("burn", h, burns.value);
      if !recorded {
        return false;
      }
      ghost var middle := ledger.records;
      var locks: Option<seq<Burn>> := Some([]);
      if reverse {
        locks := fetch("wlock", h);
        if locks.None? {
          return false;
        }
        OnlyBurns(world.chains.hk, "wlock", h, locks.value);
        recorded := RecordHkBurns("wlock", h, locks.value);
        if !recorded {
          return false;
        }
      }
      BurnsStayRecorded("burn", burns.value, middle, ledger.records);
      HeightComplete(world.chains.hk, reverse, burns.value, locks.value, ledger.records, ledger.hkCursor);
      ok := MoveHkCursor(h);
    }

    /** A bounded number of committed heights: no record it finds is touched, and every burn at or
        below the cursor has a record, at any outcome and whatever the chains do next. */
    method ScanHk(height: u64, fetch: (string, u64) -> Option<seq<Burn>>) returns (ok: bool)
      requires Valid() && height <= world.chains.height && FetchesHk(world.chains.hk, reverse, fetch)
      modifies this`world, this`trace, ledger
      ensures Valid() && old(trace) <= trace && world.chains == old(world.chains)
      ensures Untouched(old(ledger.records), ledger.records)
      ensures ok ==> height > 0 && ledger.hkCursor >= Min(old(ledger.hkCursor) + hkBatch, height)
      ensures forall next :: SettledAgree(world.chains, next) ==> CompleteIn(HkLeg, src, next, ledger.Value())
      ensures CompleteIn(HkLeg, src, world.chains, ledger.Value())
    {
      hide Run, Legal, CompleteUpTo, KeyOf, Valid, FetchesHk, Enabled, Step, NeverOverruns, SettledAgree, CompleteIn;
      if height == 0 {
        TraceCommitted();
        TraceForGood(HkLeg);
        return false;
      }
      var stop: u64 := Min(ledger.hkCursor + hkBatch, height);
      ok := true;
      while ok && ledger.hkCursor < stop
        invariant Valid() && old(trace) <= trace && world.chains == old(world.chains)
        invariant Untouched(old(ledger.records), ledger.records)
        decreases ok, stop - ledger.hkCursor
      {
        ok := ScanHkHeight(fetch);
      }
      TraceCommitted();
      TraceForGood(HkLeg);
    }

    method MoveHkCursor(n: u64) returns (ok: bool)
      requires Valid() && n <= world.chains.height && CompleteUpTo(world.chains.hk, ledger.records, ledger.hkCursor, n)
      modifies this`world, this`trace, ledger
      ensures Valid() && old(trace) <= trace && world.chains == old(world.chains)
      ensures ledger.records == old(ledger.records)
      ensures ok ==> ledger.hkCursor == n
    {
      hide Run, Legal, CompleteUpTo;
      var line, w := ledger.Write(CURSOR, "hk", NoState, NO_FIELDS.(n := Some(n)));
      Do(MoveCursor(line.t, HkLeg, n, w));
      return w.Done?;
    }

    // -------------------------------------------------------------------------
    // Driving records
    // -------------------------------------------------------------------------

    /** One line that moves a record without sending. */
    method MoveRecord(kind: string, id: string, state: State, fields: Fields) returns (ok: bool)
      requires Valid() && Known(kind) && KeyOf(kind, id) in ledger.records
      requires Movable(ledger.records[KeyOf(kind, id)].state, state) && Quiet(fields)
      modifies this`world, this`trace, ledger
      ensures Valid() && old(trace) <= trace && world.chains == old(world.chains)
      ensures OnlyKey(old(ledger.records), ledger.records, KeyOf(kind, id))
      ensures world.sent == old(world.sent)
      ensures ok ==> ledger.records[KeyOf(kind, id)].state == state
    {
      hide Run, Legal, CompleteUpTo;
      var line, w := ledger.Write(kind, id, state, fields);
      Do(Note(line, w));
      FoldWellKeyed(old(ledger.Value()), line);
      return w.Done?;
    }

    /** The line ahead of a submission. */
    method Announce(kind: string, id: string) returns (ok: bool)
      requires Valid() && Known(kind) && KeyOf(kind, id) in ledger.records
      requires Sendable(ledger.records[KeyOf(kind, id)].state)
      requires EthKind(kind) ==> ledger.records[KeyOf(kind, id)].at <= world.chains.safe
      modifies this`world, this`trace, ledger
      ensures old(trace) <= trace && world.chains == old(world.chains)
      ensures OnlyKey(old(ledger.records), ledger.records, KeyOf(kind, id))
      ensures Midway(if ok then Some(KeyOf(kind, id)) else None) && world.sent == old(world.sent)
    {
      hide Run, Legal, CompleteUpTo;
      var line, w := ledger.Write(kind, id, Submitting, NO_FIELDS.(attempt := true));
      Do(WriteAhead(line, w));
      FoldWellKeyed(old(ledger.Value()), line);
      return w.Done?;
    }

    /** The submission and the line after it. */
    method Report(kind: string, id: string, accepted: bool, fields: Fields) returns (ok: bool)
      requires Midway(Some(KeyOf(kind, id))) && Known(kind) && KeyOf(kind, id) in ledger.records && Quiet(fields)
      modifies this`world, this`trace, ledger
      ensures Valid() && old(trace) <= trace && world.chains == old(world.chains)
      ensures OnlyKey(old(ledger.records), ledger.records, KeyOf(kind, id))
      ensures world.sent == old(world.sent) + (if accepted then multiset{KeyOf(kind, id)} else multiset{})
      ensures ok ==> ledger.records[KeyOf(kind, id)].state == if accepted then Submitted else Seen
    {
      hide Run, Legal, CompleteUpTo, PaymentOf, OnChain, Sendable, LogsOf, SettledAgree, PlaceIn, Movable;
      hide NeverOverruns, Overruns, Readable, Offered, Fold, WellKeyed, KeyOf;
      var line, w := ledger.Write(kind, id, if accepted then Submitted else Seen, fields);
      Do(Send(accepted, line, w));
      FoldMoves(old(ledger.Value()), line);
      return w.Done?;
    }

    /** Nothing leaves before the line ahead of it is on disk. */
    method Submit(kind: string, id: string, answer: Option<string>, hk: bool) returns (ok: bool)
      requires Valid() && Known(kind) && KeyOf(kind, id) in ledger.records
      requires Sendable(ledger.records[KeyOf(kind, id)].state)
      requires EthKind(kind) ==> ledger.records[KeyOf(kind, id)].at <= world.chains.safe
      modifies this`world, this`trace, ledger
      ensures Valid() && old(trace) <= trace && world.chains == old(world.chains)
      ensures OnlyKey(old(ledger.records), ledger.records, KeyOf(kind, id))
      ensures ok ==> ledger.records[KeyOf(kind, id)].state == Submitted && answer.Some?
      ensures ok ==> world.sent == old(world.sent) + multiset{KeyOf(kind, id)}
    {
      hide Midway, KeyOf;
      ok := Announce(kind, id);
      if !ok {
        return;
      }
      match answer {
        case Some(tx) =>
          ok := Report(kind, id, true, if hk then NO_FIELDS.(hkTxid := Some(tx)) else NO_FIELDS.(ethTx := Some(tx)));
        case None =>
          ok := Report(kind, id, false, NO_FIELDS.(note := Some("submit failed")));
          return false;
      }
    }

    method MintOne(r: Record, safe: u64, parses: bool, a: MintAnswers) returns (ok: bool)
      requires Valid() && EthKind(r.kind) && Listed(ledger.records, r) && r.state in MINT_STATES && safe <= world.chains.safe
      modifies this`world, this`trace, ledger
      ensures Valid() && old(trace) <= trace && world.chains == old(world.chains)
      ensures OnlyKey(old(ledger.records), ledger.records, RecordKey(r))
      ensures ok ==> ledger.records[RecordKey(r)].state == NextMint(r, safe, parses, a)
      ensures ok ==> world.sent == old(world.sent) + (if Mints(r, safe, parses, a) then multiset{RecordKey(r)} else multiset{})
    {
      hide KeyOf, Valid;
      if r.state.Submitted? {
        if r.hkTxid.Some? && a.found.Some? {
          ok := MoveRecord(r.kind, r.id, Verdict(a.found.value), NO_FIELDS.(note := a.found));
          return;
        }
        return true;
      }
      if r.at > safe {
        return true;
      }
      if !parses {
        ok := MoveRecord(r.kind, r.id, NeedsReview, NO_FIELDS.(note := Some("bad hk account id")));
        return;
      }
      if !a.exists_ {
        if !r.state.HeldRecipient? {
          ok := MoveRecord(r.kind, r.id, HeldRecipient, NO_FIELDS.(note := Some("hk account does not exist yet")));
          return;
        }
        return true;
      }
      if r.amount == 0 {
        ok := MoveRecord(r.kind, r.id, NeedsReview, NO_FIELDS.(note := Some("zero amount")));
        return;
      }
      ok := Submit(r.kind, r.id, a.submit, true);
      if ok && a.waited.Some? {
        ok := MoveRecord(r.kind, r.id, Verdict(a.waited.value), NO_FIELDS.(note := a.waited));
      }
    }

    method ReleaseOne(r: Record, vault: Vault, a: ReleaseAnswers) returns (ok: bool)
      requires Valid() && HkKind(r.kind) && Listed(ledger.records, r) && r.state in RELEASE_STATES
      modifies this`world, this`trace, ledger
      ensures Valid() && old(trace) <= trace && world.chains == old(world.chains)
      ensures OnlyKey(old(ledger.records), ledger.records, RecordKey(r))
      ensures ok ==> ledger.records[RecordKey(r)].state == NextRelease(r, vault, a)
      ensures ok ==> world.sent == old(world.sent) + (if Releases(r, vault, a) then multiset{RecordKey(r)} else multiset{})
    {
      hide KeyOf, Valid;
      match a.processed {
        case None => return false;
        case Some(true) =>
          ok := MoveRecord(r.kind, r.id, Confirmed, NO_FIELDS.(note := Some("processed on chain")));
          return;
        case Some(false) =>
      }
      if r.state.Submitted? {
        if r.ethTx.Some? {
          match a.found {
            case Unreachable => return false;
            case Mined(false) =>
              ok := MoveRecord(r.kind, r.id, Reverted, NO_FIELDS.(note := Some("eth tx reverted")));
              return;
            case _ =>
          }
        }
        return true;
      }
      if vault.paused {
        if !r.state.QueuedPaused? {
          ok := MoveRecord(r.kind, r.id, QueuedPaused, NO_FIELDS.(note := Some("contract paused")));
          return;
        }
        return true;
      }
      if r.amount > vault.remaining {
        if !r.state.QueuedCap? {
          ok := MoveRecord(r.kind, r.id, QueuedCap, NO_FIELDS.(note := Some("daily cap")));
          return;
        }
        return true;
      }
      if !parsesAddress(r.dest) || !a.signed {
        return false;
      }
      ok := Submit(r.kind, r.id, a.send, false);
      if ok {
        ok := AwaitReceipt(r.kind, r.id, a.polls);
      }
    }

    method AwaitReceipt(kind: string, id: string, polls: nat -> Poll) returns (ok: bool)
      requires Valid() && HkKind(kind) && KeyOf(kind, id) in ledger.records && ledger.records[KeyOf(kind, id)].state == Submitted
      modifies this`world, this`trace, ledger
      ensures Valid() && old(trace) <= trace && world.chains == old(world.chains)
      ensures OnlyKey(old(ledger.records), ledger.records, KeyOf(kind, id))
      ensures world.sent == old(world.sent)
      ensures ok ==>
        match FirstNews(polls, 0)
        case Mined(true) => ledger.records[KeyOf(kind, id)].state == Confirmed
        case Mined(false) => ledger.records[KeyOf(kind, id)].state == Reverted
        case NotYet => ledger.records[KeyOf(kind, id)].state == Submitted
        case Unreachable => false
    {
      hide KeyOf, Valid;
      var i := 0;
      while i < POLLS
        invariant i <= POLLS && FirstNews(polls, 0) == FirstNews(polls, i)
        invariant Valid() && unchanged(ledger) && unchanged(this)
      {
        match polls(i) {
          case Unreachable => return false;
          case Mined(true) =>
            ok := MoveRecord(kind, id, Confirmed, NO_FIELDS.(note := Some("eth block")));
            return;
          case Mined(false) =>
            ok := MoveRecord(kind, id, Reverted, NO_FIELDS.(note := Some("eth tx reverted")));
            return;
          case NotYet => i := i + 1;
        }
      }
      return true;
    }

    method DriveOne(r: Record, plan: Plan) returns (ok: bool)
      requires Valid() && Listed(ledger.records, r) && r.state in DueStates(plan)
      requires if plan.MintPlan? then EthKind(r.kind) && plan.safe <= world.chains.safe else HkKind(r.kind)
      modifies this`world, this`trace, ledger
      ensures Valid() && old(trace) <= trace && world.chains == old(world.chains)
      ensures OnlyKey(old(ledger.records), ledger.records, RecordKey(r))
      ensures ok ==> ledger.records[RecordKey(r)].state == Next(plan, r)
      ensures ok ==> world.sent == old(world.sent) + (if Submits(plan, r) then multiset{RecordKey(r)} else multiset{})
    {
      hide KeyOf, Valid, NextMint, NextRelease, Mints, Releases;
      match plan {
        case MintPlan(safe, parses, mint) => ok := MintOne(r, safe, parses(r.dest), mint(r));
        case ReleasePlan(vault, parsesId, release) =>
          if !parsesId(r.id) {
            return true;
          }
          ok := ReleaseOne(r, vault, release(r));
      }
    }

    /** One kind's pass over its due records. */
    method Drive(kind: string, plan: Plan) returns (ok: bool)
      requires Valid() && (if plan.MintPlan? then EthKind(kind) && plan.safe <= world.chains.safe else HkKind(kind))
      modifies this`world, this`trace, ledger
      ensures Valid() && old(trace) <= trace && world.chains == old(world.chains)
      ensures ok ==> Sweep(plan, {kind}, old(ledger.records), ledger.records, old(world.sent), world.sent)
    {
      hide RecordKey, Valid, Next, Submits, DueStates, Sweep, Swept, OnlyKey;
      ValidKeys();
      var due := ledger.InStates(kind, DueStates(plan));
      ghost var before := ledger.records;
      ghost var done: set<string> := {};
      for i := 0 to |due|
        invariant Valid() && old(trace) <= trace && world.chains == old(world.chains)
        invariant FirstOf(due, i, done) && done <= set r | r in due :: RecordKey(r)
        invariant SweptKeys(plan, kind, done, before, ledger.records, old(world.sent), world.sent)
      {
        ghost var mid, sent := ledger.records, world.sent;
        assert Listed(before, due[i]) && RecordKey(due[i]) !in done;
        assert Listed(mid, due[i]);
        var moved := DriveOne(due[i], plan);
        if !moved {
          return false;
        }
        SweepOneMore(plan, kind, due[i], done, before, mid, ledger.records, old(world.sent), sent, world.sent);
        assert due[i] in due;
        done := done + {RecordKey(due[i])};
      }
      SweepDone(plan, kind, due, done, before, ledger.records, old(world.sent), world.sent);
      return true;
    }

    /** Deposits, and burns of the wrapped token when the reverse leg is configured. */
    method ProcessEthEvents(safe: u64, ask: Record -> MintAnswers) returns (ok: bool)
      requires Valid() && safe <= world.chains.safe
      modifies this`world, this`trace, ledger
      ensures Valid() && old(trace) <= trace && world.chains == old(world.chains)
      ensures ok ==> Sweep(MintPlan(safe, parsesAccount, ask), if reverse then {"deposit", "wburn"} else {"deposit"},
                          old(ledger.records), ledger.records, old(world.sent), world.sent)
      ensures forall k :: world.sent[k] <= 1 + world.again[k] + world.forgot
    {
      hide KeyOf, Valid, Sweep;
      ok := Drive("deposit", MintPlan(safe, parsesAccount, ask));
      if ok && reverse {
        ghost var r1, s1 := ledger.records, world.sent;
        ok := Drive("wburn", MintPlan(safe, parsesAccount, ask));
        if ok {
          SweepsCompose(MintPlan(safe, parsesAccount, ask), {"deposit"}, {"wburn"}, old(ledger.records), r1, ledger.records,
                        old(world.sent), s1, world.sent);
          assert {"deposit"} + {"wburn"} == {"deposit", "wburn"};
        }
      }
      TraceBounded();
    }

    /** Burns, and locks of the native asset when the reverse leg is configured. */
    method ProcessHkBurns(vault: Vault, ask: Record -> ReleaseAnswers) returns (ok: bool)
      requires Valid()
      modifies this`world, this`trace, ledger
      ensures Valid() && old(trace) <= trace && world.chains == old(world.chains)
      ensures ok ==> Sweep(ReleasePlan(vault, parsesId, ask), if reverse then {"burn", "wlock"} else {"burn"},
                          old(ledger.records), ledger.records, old(world.sent), world.sent)
      ensures forall k :: world.sent[k] <= 1 + world.again[k] + world.forgot
    {
      hide KeyOf, Valid, Sweep;
      ok := Drive("burn", ReleasePlan(vault, parsesId, ask));
      if ok && reverse {
        ghost var r1, s1 := ledger.records, world.sent;
        ok := Drive("wlock", ReleasePlan(vault, parsesId, ask));
        if ok {
          SweepsCompose(ReleasePlan(vault, parsesId, ask), {"burn"}, {"wlock"}, old(ledger.records), r1, ledger.records,
                        old(world.sent), s1, world.sent);
          assert {"burn"} + {"wlock"} == {"burn", "wlock"};
        }
      }
      TraceBounded();
    }

    lemma ValidKeys()
      requires Valid()
      ensures WellKeyed(ledger.records)
    {
    }

    lemma TraceBounded()
      requires Valid()
      ensures forall k :: world.sent[k] <= 1 + world.again[k] + world.forgot
    {
      hide Run, Legal;
      forall k ensures world.sent[k] <= 1 + world.again[k] + world.forgot {
        SentAtMostOnce(src, origin, trace, k);
      }
    }

    lemma TraceComplete()
      requires Valid()
      ensures NeverUndercut(EthLeg, src, Fresh(origin), trace) ==> CompleteIn(EthLeg, src, world.chains, ledger.Value())
    {
      hide CompleteIn, NeverUndercut;
      NothingMissedBelowCursorIff(EthLeg, src, origin, trace);
      if NeverUndercut(EthLeg, src, Fresh(origin), trace) {
        assert CompleteAfter(EthLeg, src, Fresh(origin), trace, |trace|);
        assert trace[..|trace|] == trace;
      }
    }

    /** Nothing is missing, now or after any move of the chains, on a leg whose cursor lines all
        stayed within what was settled. */
    lemma TraceForGood(leg: Leg)
      requires Valid() && NeverOverruns(leg, src, Fresh(origin), trace)
      ensures forall next :: SettledAgree(world.chains, next) ==> CompleteIn(leg, src, next, ledger.Value())
      ensures CompleteIn(leg, src, world.chains, ledger.Value())
    {
      assert SettledAgree(world.chains, world.chains);
      hide CompleteIn, NeverOverruns, SettledAgree;
      NothingEverMissedIff(leg, src, origin, trace);
      assert ForGoodAfter(leg, src, Fresh(origin), trace, |trace|);
      assert trace[..|trace|] == trace;
      forall next | SettledAgree(world.chains, next) ensures CompleteIn(leg, src, next, ledger.Value()) {
        assert Complete(leg, src, world.(chains := next));
      }
    }

    lemma TraceCommitted()
      requires Valid()
      ensures NeverOverruns(HkLeg, src, Fresh(origin), trace)
    {
      CommittedNeverOverruns(src, Fresh(origin), trace);
    }
  }

  /** Every record is still there as it was. */
  predicate Untouched(before: map<string, Record>, after: map<string, Record>) {
    forall k :: k in before ==> k in after && after[k] == before[k]
  }

  lemma OnlyLogs(eth: iset<Log>, kind: string, lo: u64, hi: u64, page: seq<Option<BridgeEvent>>)
    requires Fetched(eth, kind, lo, hi, page)
    ensures forall e :: Some(e) in page ==> EthLog(kind, e) in eth
  {
  }

  lemma StaysRecorded(kind: string, page: seq<Option<BridgeEvent>>, before: map<string, Record>, after: map<string, Record>)
    requires PageRecorded(kind, page, before) && Untouched(before, after)
    ensures PageRecorded(kind, page, after)
  {
    hide KeyOf;
  }

  function HkLog(kind: string, height: u64, b: Burn): Log {
    Log(kind, b.txid, height, b.amount, "0x" + b.dest)
  }

  /** The burns of a kind at a height, exactly. */
  ghost predicate BurnedAt(hk: iset<Log>, kind: string, h: u64, burns: seq<Burn>) {
    && (forall b :: b in burns ==> HkLog(kind, h, b) in hk)
    && (forall l :: l in hk && l.kind == kind && l.at == h ==> exists b :: b in burns && HkLog(kind, h, b) == l)
  }

  ghost predicate FetchesHk(hk: iset<Log>, reverse: bool, fetch: (string, u64) -> Option<seq<Burn>>) {
    && (forall l :: l in hk ==> HkKind(l.kind) && (l.kind == "wlock" ==> reverse))
    && (forall kind, h :: HkKind(kind) && fetch(kind, h).Some? ==> BurnedAt(hk, kind, h, fetch(kind, h).value))
  }

  predicate BurnsRecorded(kind: string, burns: seq<Burn>, records: map<string, Record>) {
    forall i :: 0 <= i < |burns| ==> KeyOf(kind, burns[i].txid) in records
  }

  lemma ShownByLog(c: Chains, ev: Event, l: Log)
    requires Shows(ev, l) && if EthKind(l.kind) then l in c.eth else HkKind(l.kind) && l in c.hk && l.at <= c.height
    ensures OnChain(Offered(c), ev)
  {
  }

  lemma OnlyBurns(hk: iset<Log>, kind: string, h: u64, burns: seq<Burn>)
    requires BurnedAt(hk, kind, h, burns)
    ensures forall b :: b in burns ==> HkLog(kind, h, b) in hk
  {
  }

  lemma BurnsStayRecorded(kind: string, burns: seq<Burn>, before: map<string, Record>, after: map<string, Record>)
    requires BurnsRecorded(kind, burns, before) && Untouched(before, after)
    ensures BurnsRecorded(kind, burns, after)
  {
    hide KeyOf;
  }

  lemma HeightComplete(hk: iset<Log>, reverse: bool, burns: seq<Burn>, locks: seq<Burn>, records: map<string, Record>, cursor: u64)
    requires forall l :: l in hk ==> HkKind(l.kind) && (l.kind == "wlock" ==> reverse)
    requires cursor < U64_MAX && BurnedAt(hk, "burn", cursor + 1, burns) && BurnsRecorded("burn", burns, records)
    requires reverse ==> BurnedAt(hk, "wlock", cursor + 1, locks) && BurnsRecorded("wlock", locks, records)
    ensures CompleteUpTo(hk, records, cursor, cursor + 1)
  {
    hide KeyOf;
    forall l | l in hk && cursor < l.at <= cursor + 1 ensures KeyOf(l.kind, l.id) in records {
      var at := if l.kind == "burn" then burns else locks;
      var b :| b in at && HkLog(l.kind, cursor + 1, b) == l;
      var i :| 0 <= i < |at| && at[i] == b;
    }
  }

  /** Only one record may differ, and it is still there under its kind. */
  predicate OnlyKey(before: map<string, Record>, after: map<string, Record>, key: string) {
    && before.Keys == after.Keys
    && forall k :: k in before ==> after[k].kind == before[k].kind && (k != key ==> after[k] == before[k])
  }

  /** One pass over the due records of some kinds: each is in its next state, submitted once
      more if it was to be, and no other record changed. */
  ghost predicate Sweep(plan: Plan, kinds: set<string>, before: map<string, Record>, after: map<string, Record>,
                       sent: multiset<string>, sent': multiset<string>) {
    && after.Keys == before.Keys
    && forall k :: k in before ==> Swept(plan, kinds, before[k], after[k], sent[k], sent'[k])
  }

  predicate Swept(plan: Plan, kinds: set<string>, r: Record, r': Record, sent: nat, sent': nat) {
    if r.kind in kinds && r.state in DueStates(plan) then
      r'.kind == r.kind && r'.state == Next(plan, r) && sent' == sent + Units(Submits(plan, r))
    else r' == r && sent' == sent
  }

  /** The records a pass is going through: due, of one kind, each listed once. */
  predicate DueList(plan: Plan, kind: string, due: seq<Record>, before: map<string, Record>) {
    && (forall k :: k in before && before[k].kind == kind && before[k].state in DueStates(plan) ==> before[k] in due)
    && (forall i :: 0 <= i < |due| ==> Listed(before, due[i]) && due[i].kind == kind && due[i].state in DueStates(plan))
    && (forall i, j :: 0 <= i < j < |due| ==> RecordKey(due[i]) != RecordKey(due[j]))
  }

  /** The pass has gone through the records under `done` and left the others alone. */
  ghost predicate SweptKeys(plan: Plan, kind: string, done: set<string>, before: map<string, Record>, after: map<string, Record>,
                            sent: multiset<string>, sent': multiset<string>) {
    && after.Keys == before.Keys
    && forall k :: k in before ==>
         if k in done then Swept(plan, {kind}, before[k], after[k], sent[k], sent'[k])
         else after[k] == before[k] && sent'[k] == sent[k]
  }

  /** Those records are the first `i` of the list. */
  predicate FirstOf(due: seq<Record>, i: nat, done: set<string>) {
    && i <= |due|
    && (forall j :: 0 <= j < |due| ==> (RecordKey(due[j]) in done <==> j < i))
  }

  lemma SweepOneMore(plan: Plan, kind: string, r: Record, done: set<string>, before: map<string, Record>, mid: map<string, Record>,
                     after: map<string, Record>, sent: multiset<string>, sent': multiset<string>, sent'': multiset<string>)
    requires SweptKeys(plan, kind, done, before, mid, sent, sent') && RecordKey(r) !in done
    requires Listed(before, r) && r.kind == kind && r.state in DueStates(plan)
    requires OnlyKey(mid, after, RecordKey(r)) && after[RecordKey(r)].state == Next(plan, r)
    requires sent'' == sent' + (if Submits(plan, r) then multiset{RecordKey(r)} else multiset{})
    ensures SweptKeys(plan, kind, done + {RecordKey(r)}, before, after, sent, sent'')
  {
    hide Next, Submits, DueStates, RecordKey;
    var key := RecordKey(r);
    forall k | k in before
      ensures if k in done + {key} then Swept(plan, {kind}, before[k], after[k], sent[k], sent''[k])
              else after[k] == before[k] && sent''[k] == sent[k]
    {
      assert k != key ==> after[k] == mid[k] && sent''[k] == sent'[k];
    }
  }

  lemma SweepDone(plan: Plan, kind: string, due: seq<Record>, done: set<string>, before: map<string, Record>, after: map<string, Record>,
                  sent: multiset<string>, sent': multiset<string>)
    requires SweptKeys(plan, kind, done, before, after, sent, sent') && WellKeyed(before)
    requires DueList(plan, kind, due, before) && FirstOf(due, |due|, done) && done <= set r | r in due :: RecordKey(r)
    ensures Sweep(plan, {kind}, before, after, sent, sent')
  {
    hide Next, Submits, DueStates, KeyOf;
    forall k | k in done ensures k in before && before[k].kind == kind && before[k].state in DueStates(plan) {
      var r :| r in due && RecordKey(r) == k;
      var j :| 0 <= j < |due| && due[j] == r;
      assert Listed(before, due[j]);
    }
    forall k | k in before ensures Swept(plan, {kind}, before[k], after[k], sent[k], sent'[k]) {
      if before[k].kind == kind && before[k].state in DueStates(plan) {
        var j :| 0 <= j < |due| && due[j] == before[k];
        assert RecordKey(due[j]) == k;
      }
    }
  }

  /** Two passes over different kinds are one pass over both. */
  lemma SweepsCompose(plan: Plan, a: set<string>, b: set<string>, r0: map<string, Record>, r1: map<string, Record>,
                      r2: map<string, Record>, s0: multiset<string>, s1: multiset<string>, s2: multiset<string>)
    requires a !! b && Sweep(plan, a, r0, r1, s0, s1) && Sweep(plan, b, r1, r2, s1, s2)
    ensures Sweep(plan, a + b, r0, r2, s0, s2)
  {
    hide Next, Submits, DueStates;
    forall k | k in r0 ensures Swept(plan, a + b, r0[k], r2[k], s0[k], s2[k]) {
      assert Swept(plan, a, r0[k], r1[k], s0[k], s1[k]);
      assert Swept(plan, b, r1[k], r2[k], s1[k], s2[k]);
    }
  }

  /** No record was touched and the cursors stand. */
  predicate Grown(before: Memory, after: Memory) {
    && before.ethCursor == after.ethCursor && before.hkCursor == after.hkCursor
    && Untouched(before.records, after.records)
  }

  function EthLog(kind: string, ev: BridgeEvent): Log {
    Log(kind, ev.id, ev.block, ev.amount, ev.hkAccount)
  }

  ghost predicate Shown(page: seq<Option<BridgeEvent>>, l: Log) {
    exists e :: Some(e) in page && EthLog(l.kind, e) == l
  }

  /** A page holds exactly the logs of its kind and range. */
  ghost predicate Fetched(eth: iset<Log>, kind: string, lo: u64, hi: u64, page: seq<Option<BridgeEvent>>) {
    && (forall e :: Some(e) in page ==> EthLog(kind, e) in eth)
    && (forall l :: l in eth && l.kind == kind && lo <= l.at <= hi ==> Shown(page, l))
  }

  /** A log query that answers, answers correctly; without the reverse leg there are no burns of
      the wrapped token. */
  ghost predicate FetchesEth(eth: iset<Log>, reverse: bool, fetch: FetchEth) {
    && (forall l :: l in eth ==> EthKind(l.kind) && (l.kind == "wburn" ==> reverse))
    && (forall kind, lo, hi :: EthKind(kind) && fetch(kind, lo, hi).Some? ==> Fetched(eth, kind, lo, hi, fetch(kind, lo, hi).value))
  }

  predicate PageRecorded(kind: string, page: seq<Option<BridgeEvent>>, records: map<string, Record>) {
    forall i :: 0 <= i < |page| ==> page[i].Some? && KeyOf(kind, page[i].value.id) in records
  }

  lemma PageComplete(eth: iset<Log>, reverse: bool, locked: seq<Option<BridgeEvent>>, burned: seq<Option<BridgeEvent>>,
                     records: map<string, Record>, cursor: u64, hi: u64)
    requires forall l :: l in eth ==> EthKind(l.kind) && (l.kind == "wburn" ==> reverse)
    requires cursor < U64_MAX && Fetched(eth, "deposit", cursor + 1, hi, locked) && PageRecorded("deposit", locked, records)
    requires reverse ==> Fetched(eth, "wburn", cursor + 1, hi, burned) && PageRecorded("wburn", burned, records)
    ensures CompleteUpTo(eth, records, cursor, hi)
  {
    hide KeyOf;
    forall l | l in eth && cursor < l.at <= hi ensures KeyOf(l.kind, l.id) in records {
      var page := if l.kind == "deposit" then locked else burned;
      assert Shown(page, l);
      var e :| Some(e) in page && EthLog(l.kind, e) == l;
      var i :| 0 <= i < |page| && page[i] == Some(e);
    }
  }
}
