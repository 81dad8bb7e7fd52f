/** The bridge's append-only ledger: one line an event, folded into records and two cursors. */
module Ledger {
  import opened Machine

  datatype State =
    | Seen | HeldRecipient | QueuedCap | QueuedPaused | Submitting | Submitted
    | Confirmed | Rejected | Reverted | NeedsReview | Unbridgeable | NoState

  /** The optional fields of a line. */
  datatype Fields = Fields(amount: Option<u128>, dest: Option<string>, at: Option<u64>, sourceTx: Option<string>,
                           hkTxid: Option<string>, ethTx: Option<string>, note: Option<string>, attempt: bool, n: Option<u64>)

  const NO_FIELDS: Fields := Fields(None, None, None, None, None, None, None, false, None)

  datatype Event = Event(t: u64, kind: string, id: string, state: State, fields: Fields)

  datatype Record = Record(kind: string, id: string, state: State, amount: u128, dest: string, at: u64, sourceTx: string,
                           hkTxid: Option<string>, ethTx: Option<string>, note: Option<string>, updated: u64, attempts: nat)

  datatype Memory = Memory(records: map<string, Record>, ethCursor: u64, hkCursor: u64)

  /** A line of the file; a torn write leaves one that does not parse. */
  datatype Line = Entry(ev: Event) | Garbled

  const CURSOR: string := "cursor"

  function KeyOf(kind: string, id: string): string {
    kind + ":" + id
  }

  function Blank(kind: string, id: string): Record {
    Record(kind, id, NoState, 0, "", 0, "", None, None, None, 0, 0)
  }

  function OrElse<T>(o: Option<T>, d: T): T {
    if o.Some? then o.value else d
  }

  function OrKeep<T>(o: Option<T>, d: Option<T>): Option<T> {
    if o.Some? then o else d
  }

  function Amend(r: Record, ev: Event): Record {
    var f := ev.fields;
    r.(state := ev.state, updated := ev.t, amount := OrElse(f.amount, r.amount), dest := OrElse(f.dest, r.dest),
       at := OrElse(f.at, r.at), sourceTx := OrElse(f.sourceTx, r.sourceTx), hkTxid := OrKeep(f.hkTxid, r.hkTxid),
       ethTx := OrKeep(f.ethTx, r.ethTx), note := OrKeep(f.note, r.note), attempts := r.attempts + (if f.attempt then 1 else 0))
  }

  function Fold(m: Memory, ev: Event): Memory {
    if ev.kind == CURSOR then
      var n := OrElse(ev.fields.n, 0);
      if ev.id == "eth" then m.(ethCursor := n)
      else if ev.id == "hk" then m.(hkCursor := n)
      else m
    else
      var k := KeyOf(ev.kind, ev.id);
      m.(records := m.records[k := Amend(if k in m.records then m.records[k] else Blank(ev.kind, ev.id), ev)])
  }

  function Initial(ethFrom: u64, hkFrom: u64): Memory {
    Memory(map[], SatSub(ethFrom, 1), SatSub(hkFrom, 1))
  }

  predicate Readable(file: seq<Line>) {
    forall i :: 0 <= i < |file| ==> file[i].Entry?
  }

  /** What the file says, line after line; a garbled line says nothing. */
  function Replay(start: Memory, file: seq<Line>): Memory {
    if file == [] then start
    else
      var before := Replay(start, file[..|file| - 1]);
      var last := file[|file| - 1];
      if last.Entry? then Fold(before, last.ev) else before
  }

  /** Opening a ledger: a line that does not parse is an error. */
  function Opened(start: Memory, file: seq<Line>): Option<Memory> {
    if Readable(file) then Some(Replay(start, file)) else None
  }

  /** How a write can end: durable and folded; refused with nothing in the file; refused with
      the whole line in it; refused with part of the line in it. */
  datatype WriteOutcome = Done | Lost | Kept | Torn

  function Appended(file: seq<Line>, ev: Event, w: WriteOutcome): seq<Line> {
    match w
    case Done => file + [Entry(ev)]
    case Kept => file + [Entry(ev)]
    case Lost => file
    case Torn => file + [Garbled]
  }

  function Remembered(m: Memory, ev: Event, w: WriteOutcome): Memory {
    if w.Done? then Fold(m, ev) else m
  }

  lemma ReplayAppend(start: Memory, file: seq<Line>, line: Line)
    ensures Replay(start, file + [line]) == if line.Entry? then Fold(Replay(start, file), line.ev) else Replay(start, file)
  {
    assert (file + [line])[..|file|] == file;
  }

  lemma ReadableAppend(file: seq<Line>, line: Line)
    ensures Readable(file + [line]) <==> Readable(file) && line.Entry?
  {
    assert (file + [line])[|file|] == line;
    assert forall i :: 0 <= i < |file| ==> (file + [line])[i] == file[i];
  }

  // ---------------------------------------------------------------------------
  // What a file says, line by line
  // ---------------------------------------------------------------------------

  /** A line about the record under this key. */
  predicate About(line: Line, k: string) {
    line.Entry? && line.ev.kind != CURSOR && KeyOf(line.ev.kind, line.ev.id) == k
  }

  predicate Mentions(file: seq<Line>, k: string) {
    exists i :: 0 <= i < |file| && About(file[i], k)
  }

  /** What the last line about a record that gives something gives. */
  function Given<T>(file: seq<Line>, k: string, get: Event -> Option<T>): Option<T> {
    if file == [] then None
    else
      var last := file[|file| - 1];
      if About(last, k) && get(last.ev).Some? then get(last.ev) else Given(file[..|file| - 1], k, get)
  }

  function AttemptsIn(file: seq<Line>, k: string): nat {
    if file == [] then 0
    else
      var last := file[|file| - 1];
      AttemptsIn(file[..|file| - 1], k) + if About(last, k) && last.ev.fields.attempt then 1 else 0
  }

  /** What the last cursor line of one chain says, a line without a number saying zero. */
  function CursorIn(file: seq<Line>, name: string): Option<u64> {
    if file == [] then None
    else
      var last := file[|file| - 1];
      if last.Entry? && last.ev.kind == CURSOR && last.ev.id == name then
        Some(if last.ev.fields.n.Some? then last.ev.fields.n.value else 0)
      else CursorIn(file[..|file| - 1], name)
  }

  /** A record is the last word on each of its fields. */
  predicate LastWord(file: seq<Line>, k: string, r: Record) {
    && KeyOf(r.kind, r.id) == k
    && Given(file, k, (ev: Event) => Some(ev.state)) == Some(r.state)
    && Given(file, k, (ev: Event) => Some(ev.t)) == Some(r.updated)
    && r.amount == OrDefault(Given(file, k, (ev: Event) => ev.fields.amount), 0)
    && r.dest == OrDefault(Given(file, k, (ev: Event) => ev.fields.dest), "")
    && r.at == OrDefault(Given(file, k, (ev: Event) => ev.fields.at), 0)
    && r.sourceTx == OrDefault(Given(file, k, (ev: Event) => ev.fields.sourceTx), "")
    && r.hkTxid == Given(file, k, (ev: Event) => ev.fields.hkTxid)
    && r.ethTx == Given(file, k, (ev: Event) => ev.fields.ethTx)
    && r.note == Given(file, k, (ev: Event) => ev.fields.note)
    && r.attempts == AttemptsIn(file, k)
  }

  function OrDefault<T>(o: Option<T>, d: T): T {
    match o
    case None => d
    case Some(x) => x
  }

  lemma GivenAppend<T>(file: seq<Line>, line: Line, k: string, get: Event -> Option<T>)
    ensures Given(file + [line], k, get)
            == if About(line, k) && get(line.ev).Some? then get(line.ev) else Given(file, k, get)
  {
    assert (file + [line])[..|file|] == file;
  }

  lemma {:induction false} NothingGiven<T>(file: seq<Line>, k: string, get: Event -> Option<T>)
    requires !Mentions(file, k)
    ensures Given(file, k, get) == None
  {
    if file != [] {
      assert !About(file[|file| - 1], k);
      assert forall i :: 0 <= i < |file| - 1 ==> file[..|file| - 1][i] == file[i];
      NothingGiven(file[..|file| - 1], k, get);
    }
  }

  lemma {:induction false} NoAttempts(file: seq<Line>, k: string)
    requires !Mentions(file, k)
    ensures AttemptsIn(file, k) == 0
  {
    if file != [] {
      assert !About(file[|file| - 1], k);
      assert forall i :: 0 <= i < |file| - 1 ==> file[..|file| - 1][i] == file[i];
      NoAttempts(file[..|file| - 1], k);
    }
  }

  lemma MentionsAppend(file: seq<Line>, line: Line, k: string)
    ensures Mentions(file + [line], k) <==> Mentions(file, k) || About(line, k)
  {
    var longer := file + [line];
    assert longer[|file|] == line;
    assert forall i :: 0 <= i < |file| ==> longer[i] == file[i];
  }

  /** Amending by one more line keeps the record the last word. */
  lemma AmendKeepsLastWord(file: seq<Line>, ev: Event, k: string, r: Record)
    requires ev.kind != CURSOR && KeyOf(ev.kind, ev.id) == k
    requires if Mentions(file, k) then LastWord(file, k, r) else r == Blank(ev.kind, ev.id)
    ensures LastWord(file + [Entry(ev)], k, Amend(r, ev))
  {
    hide Mentions, KeyOf;
    GivenAppend(file, Entry(ev), k, (ev: Event) => Some(ev.state));
    GivenAppend(file, Entry(ev), k, (ev: Event) => Some(ev.t));
    GivenAppend(file, Entry(ev), k, (ev: Event) => ev.fields.amount);
    GivenAppend(file, Entry(ev), k, (ev: Event) => ev.fields.dest);
    GivenAppend(file, Entry(ev), k, (ev: Event) => ev.fields.at);
    GivenAppend(file, Entry(ev), k, (ev: Event) => ev.fields.sourceTx);
    GivenAppend(file, Entry(ev), k, (ev: Event) => ev.fields.hkTxid);
    GivenAppend(file, Entry(ev), k, (ev: Event) => ev.fields.ethTx);
    GivenAppend(file, Entry(ev), k, (ev: Event) => ev.fields.note);
    assert (file + [Entry(ev)])[..|file|] == file;
    if !Mentions(file, k) {
      BlankSaysNothing(file, k);
    }
    hide Given;
  }

  lemma BlankSaysNothing(file: seq<Line>, k: string)
    requires !Mentions(file, k)
    ensures Given(file, k, (ev: Event) => ev.fields.amount) == None && Given(file, k, (ev: Event) => ev.fields.dest) == None
    ensures Given(file, k, (ev: Event) => ev.fields.at) == None && Given(file, k, (ev: Event) => ev.fields.sourceTx) == None
    ensures Given(file, k, (ev: Event) => ev.fields.hkTxid) == None && Given(file, k, (ev: Event) => ev.fields.ethTx) == None
    ensures Given(file, k, (ev: Event) => ev.fields.note) == None && AttemptsIn(file, k) == 0
  {
    hide Given, Mentions;
    NothingGiven(file, k, (ev: Event) => ev.fields.amount);
    NothingGiven(file, k, (ev: Event) => ev.fields.dest);
    NothingGiven(file, k, (ev: Event) => ev.fields.at);
    NothingGiven(file, k, (ev: Event) => ev.fields.sourceTx);
    NothingGiven(file, k, (ev: Event) => ev.fields.hkTxid);
    NothingGiven(file, k, (ev: Event) => ev.fields.ethTx);
    NothingGiven(file, k, (ev: Event) => ev.fields.note);
    NoAttempts(file, k);
  }

  lemma SameWord(file: seq<Line>, line: Line, k: string, r: Record)
    requires !About(line, k) && LastWord(file, k, r)
    ensures LastWord(file + [line], k, r)
  {
    GivenAppend(file, line, k, (ev: Event) => Some(ev.state));
    GivenAppend(file, line, k, (ev: Event) => Some(ev.t));
    GivenAppend(file, line, k, (ev: Event) => ev.fields.amount);
    GivenAppend(file, line, k, (ev: Event) => ev.fields.dest);
    GivenAppend(file, line, k, (ev: Event) => ev.fields.at);
    GivenAppend(file, line, k, (ev: Event) => ev.fields.sourceTx);
    GivenAppend(file, line, k, (ev: Event) => ev.fields.hkTxid);
    GivenAppend(file, line, k, (ev: Event) => ev.fields.ethTx);
    GivenAppend(file, line, k, (ev: Event) => ev.fields.note);
    assert (file + [line])[..|file|] == file;
    hide Given, KeyOf;
  }

  /** Reading a ledger back: there is a record under a key exactly if some line is about it, each of
      its fields is what the last line that gives that field gives, its attempts are counted, and
      each cursor is what its last line says, or one block before where scanning was to begin. */
  lemma {:induction false} ReplayIsLastWord(ethFrom: u64, hkFrom: u64, file: seq<Line>, k: string)
    ensures var m := Replay(Initial(ethFrom, hkFrom), file);
            && (k in m.records <==> Mentions(file, k))
            && (k in m.records ==> LastWord(file, k, m.records[k]))
            && m.ethCursor == OrDefault(CursorIn(file, "eth"), if ethFrom == 0 then 0 else ethFrom - 1)
            && m.hkCursor == OrDefault(CursorIn(file, "hk"), if hkFrom == 0 then 0 else hkFrom - 1)
    decreases |file|
  {
    if file != [] {
      var init, last := file[..|file| - 1], file[|file| - 1];
      var m := Replay(Initial(ethFrom, hkFrom), init);
      ReplayIsLastWord(ethFrom, hkFrom, init, k);
      assert file == init + [last];
      MentionsAppend(init, last, k);
      hide LastWord, Mentions, KeyOf, Amend;
      if About(last, k) {
        AmendKeepsLastWord(init, last.ev, k, if k in m.records then m.records[k] else Blank(last.ev.kind, last.ev.id));
      } else if k in m.records {
        SameWord(init, last, k, m.records[k]);
      }
    }
  }

  // ---------------------------------------------------------------------------
  // Keys
  // ---------------------------------------------------------------------------

  predicate NoColon(s: string) {
    forall i :: 0 <= i < |s| ==> s[i] != ':'
  }

  /** Kinds hold no colon, so two records share a key only if they are the same record. */
  lemma KeyInjective(kind: string, id: string, kind': string, id': string)
    requires NoColon(kind) && NoColon(kind')
    ensures KeyOf(kind, id) == KeyOf(kind', id') <==> kind == kind' && id == id'
  {
    var a, b := KeyOf(kind, id), KeyOf(kind', id');
    if a == b {
      assert a[|kind|] == ':' && b[|kind'|] == ':';
      assert forall i :: 0 <= i < |kind| ==> a[i] == kind[i];
      assert forall i :: 0 <= i < |kind'| ==> b[i] == kind'[i];
      assert |kind| == |kind'|;
      assert kind == a[..|kind|] && kind' == b[..|kind|];
      assert id == a[|kind| + 1..] && id' == b[|kind| + 1..];
    }
  }
}
