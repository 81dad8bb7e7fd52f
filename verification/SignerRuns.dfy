/** No leaf is ever released twice: the signer, its state file and its process over whole
    runs of signs, failures, crashes and restarts. */
module SignerRuns {
  import opened Machine
  import opened DurableFile
  import opened Signer

  /** One tree: the secret part of its key and how many leaves it has. */
  datatype Tree = Tree(body: Bytes, capacity: u64)

  /** The state file, the running signer if there is one, and every signature that has left
      the process so far. */
  datatype World = World(file: Entry, signer: Option<SignerState>, released: seq<Signature>)

  datatype Event =
    /** Start from the seed, then adopt the state file with some floor; a file that is not found
        though it is there is not adopted. */
    | Start(floor: u64, found: bool, readable: bool)
    /** Attach the same file again on the running signer. */
    | Reattach(floor: u64, found: bool, readable: bool)
    | Sign(msg: Bytes, env: SignEnv)
    /** The process dies inside `sign` after its file write got as far as `env.write` and
        before the signature is handed out; the crash leaves outcome `outcome`. */
    | DieSigning(msg: Bytes, env: SignEnv, outcome: nat)
    | Crash(outcome: nat)

  function FreshSigner(t: Tree): SignerState {
    SignerState(Be64(0) + t.body, 0, t.capacity, None)
  }

  function AfterCrash(file: Entry, outcome: nat): Entry {
    Entry(Exposed(file, outcome), [])
  }

  function Step(t: Tree, w: World, e: Event): World {
    match e
    case Start(floor, found, readable) =>
      if w.signer.Some? then w
      else w.(signer := AttachStep(FreshSigner(t), w.file, floor, found, readable))
    case Reattach(floor, found, readable) =>
      if w.signer.None? then w
      else
        var attached := AttachStep(w.signer.value, w.file, floor, found, readable);
        if attached.Some? then w.(signer := attached) else w
    case Sign(msg, env) =>
      if w.signer.None? then w
      else
        var out := SignStep(w.signer.value, Some(w.file), msg, env);
        World(out.file.value, Some(out.signer),
              if out.released.Some? then w.released + [out.released.value] else w.released)
    case DieSigning(msg, env, outcome) =>
      if w.signer.None? then w
      else World(AfterCrash(SignStep(w.signer.value, Some(w.file), msg, env).file.value, outcome), None, w.released)
    case Crash(outcome) =>
      World(AfterCrash(w.file, outcome), None, w.released)
  }

  function Run(t: Tree, w: World, events: seq<Event>): World
    decreases |events|
  {
    if events == [] then w else Run(t, Step(t, w, events[0]), events[1..])
  }

  const Nothing: World := World(Entry(None, []), None, [])

  // ---------------------------------------------------------------------------
  // What every step keeps
  // ---------------------------------------------------------------------------

  /** A position `used` with its key: below capacity the key is this tree's key at exactly
      that leaf; at capacity the key no longer matters, and is in fact wiped. */
  predicate KeyAt(t: Tree, state: Bytes, used: u64) {
    && |state| == KEY_LEN
    && (used < t.capacity ==> StateCount(state) == Some(used) && state[8..] == t.body)
    && (used >= t.capacity ==> StateCount(state).value <= used)
  }

  predicate SpentBelow(released: seq<Signature>, position: nat) {
    forall i :: 0 <= i < |released| ==> released[i].leaf < position
  }

  /** A file content records a position past every released leaf; no file, nothing released. */
  predicate RecordsAll(t: Tree, c: Option<Bytes>, released: seq<Signature>) {
    match c
    case None => released == []
    case Some(blob) =>
      && |blob| >= 8
      && KeyAt(t, blob[8..], FromLe64(blob[..8]))
      && SpentBelow(released, FromLe64(blob[..8]))
  }

  predicate SignerSafe(t: Tree, s: SignerState, released: seq<Signature>) {
    && s.capacity == t.capacity
    && KeyAt(t, s.state, s.used)
    && SpentBelow(released, s.used)
    && SessionCurrent(s)
  }

  predicate LeavesOnce(t: Tree, released: seq<Signature>) {
    && (forall i :: 0 <= i < |released| ==> released[i].key == t.body && released[i].leaf < t.capacity)
    && (forall i, j :: 0 <= i < j < |released| ==> released[i].leaf != released[j].leaf)
  }

  ghost predicate Safe(t: Tree, w: World) {
    && |t.body| == KEY_LEN - 8
    && (forall k: nat :: RecordsAll(t, Exposed(w.file, k), w.released))
    && (w.signer.Some? ==> SignerSafe(t, w.signer.value, w.released))
    && LeavesOnce(t, w.released)
  }

  lemma FreshKeyAt(t: Tree)
    requires |t.body| == KEY_LEN - 8
    ensures KeyAt(t, Be64(0) + t.body, 0)
  {
    var key := Be64(0) + t.body;
    assert key[..8] == Be64(0) && key[8..] == t.body;
    Be64RoundTrip(0);
  }

  /** Moving a recorded key forward keeps it this tree's key. */
  lemma MovedKeyAt(t: Tree, state: Bytes, used: u64, resume: u64)
    requires KeyAt(t, state, used) && used <= resume
    ensures KeyAt(t, StateAt(state, resume), resume)
  {
    StateAtMovesOnlyTheCount(state, resume);
  }

  lemma NextKeyAt(t: Tree, state: Bytes, used: u64)
    requires KeyAt(t, state, used) && used < t.capacity
    ensures KeyAt(t, NextKey(state, t.capacity), used + 1)
  {
    if used + 1 < t.capacity {
      MovedKeyAt(t, state, used, used);
      StateAtMovesOnlyTheCount(state, used + 1);
    } else {
      assert WIPED[..8] == Be64(0);
      Be64RoundTrip(0);
    }
  }

  /** Attaching resumes past every released leaf: from the file if it is found, and otherwise if
      memory or the floor is past them. */
  lemma AttachSafe(t: Tree, s: SignerState, file: Entry, floor: u64, found: bool, readable: bool, released: seq<Signature>)
    requires forall k: nat :: RecordsAll(t, Exposed(file, k), released)
    requires s.capacity == t.capacity && KeyAt(t, s.state, s.used)
    requires !found ==> SpentBelow(released, Max(s.used, floor))
    ensures AttachStep(s, file, floor, found, readable).Some? ==>
              (&& SignerSafe(t, AttachStep(s, file, floor, found, readable).value, released)
               && s.used <= AttachStep(s, file, floor, found, readable).value.used
               && floor <= AttachStep(s, file, floor, found, readable).value.used)
  {
    VisibleMayBeExposed(file);
    var k: nat :| Exposed(file, k) == Visible(file);
    assert RecordsAll(t, Visible(file), released);
    match if found then Visible(file) else None
    case None => MovedKeyAt(t, s.state, s.used, Max(s.used, floor));
    case Some(blob) =>
      var used := FromLe64(blob[..8]);
      MovedKeyAt(t, blob[8..], used, Max(Max(Max(s.used, floor), used), CountOrZero(blob[8..])));
  }

  /** What `sign` writes ahead: the position and key one leaf further. */
  function Reserve(s: SignerState): Bytes
    requires |s.state| == KEY_LEN && s.used < U64_MAX
  {
    EncodeBlob(s.used + 1, NextKey(s.state, s.capacity))
  }

  /** One `sign` either releases the current leaf behind a completed write of the reserve, or
      releases nothing and keeps key and position, having at most attempted that write. */
  lemma SignStepCases(s: SignerState, file: Entry, msg: Bytes, env: SignEnv)
    requires |s.state| == KEY_LEN && SessionCurrent(s)
    ensures var o := SignStep(s, Some(file), msg, env);
            && o.file.Some? && SessionCurrent(o.signer) && o.signer.capacity == s.capacity
            && match o.released
               case None =>
                 && o.signer.state == s.state && o.signer.used == s.used
                 && (o.file.value == file
                     || (s.used < s.capacity && env.write != NoFault
                         && o.file.value == WriteEffect(file, Reserve(s), env.write)))
               case Some(sig) =>
                 && s.used < s.capacity && sig == SignatureAt(s.state, msg)
                 && o.signer.state == NextKey(s.state, s.capacity) && o.signer.used == s.used + 1
                 && o.file.value == WriteEffect(file, Reserve(s), NoFault)
  {
  }

  lemma ReserveRecords(t: Tree, s: SignerState, released: seq<Signature>, msg: Bytes)
    requires SignerSafe(t, s, released) && LeavesOnce(t, released) && s.used < t.capacity
    ensures RecordsAll(t, Some(Reserve(s)), released)
    ensures RecordsAll(t, Some(Reserve(s)), released + [SignatureAt(s.state, msg)])
    ensures LeavesOnce(t, released + [SignatureAt(s.state, msg)])
    ensures KeyAt(t, NextKey(s.state, s.capacity), s.used + 1)
    ensures SpentBelow(released + [SignatureAt(s.state, msg)], s.used + 1)
  {
    hide RecordsAll, LeavesOnce, SpentBelow, NextKey, SessionCurrent, Reserve;
    OneMoreLeaf(t, released, SignatureAt(s.state, msg), s.used);
    NextKeyAt(t, s.state, s.used);
    ReserveReads(t, s, released);
    ReserveReads(t, s, released + [SignatureAt(s.state, msg)]);
  }

  lemma ReserveReads(t: Tree, s: SignerState, released: seq<Signature>)
    requires |s.state| == KEY_LEN && s.used < U64_MAX
    requires KeyAt(t, NextKey(s.state, s.capacity), s.used + 1) && SpentBelow(released, s.used + 1)
    ensures RecordsAll(t, Some(Reserve(s)), released)
  {
    hide SpentBelow, KeyAt, NextKey, EncodeBlob;
    BlobRoundTrip(s.used + 1, NextKey(s.state, s.capacity));
  }

  lemma OneMoreLeaf(t: Tree, released: seq<Signature>, sig: Signature, used: u64)
    requires SpentBelow(released, used) && LeavesOnce(t, released)
    requires sig.leaf == used < t.capacity && sig.key == t.body
    ensures SpentBelow(released, used + 1) && SpentBelow(released + [sig], used + 1) && LeavesOnce(t, released + [sig])
  {
  }

  /** The heart: a signature leaves only once a record past its leaf is the only thing a
      crash can expose. */
  lemma SignSafe(t: Tree, w: World, msg: Bytes, env: SignEnv)
    requires Safe(t, w) && w.signer.Some?
    ensures Safe(t, Step(t, w, Sign(msg, env)))
    ensures SignStep(w.signer.value, Some(w.file), msg, env).file.Some?
    ensures forall k: nat :: RecordsAll(t, Exposed(SignStep(w.signer.value, Some(w.file), msg, env).file.value, k), w.released)
  {
    var s := w.signer.value;
    var o := SignStep(s, Some(w.file), msg, env);
    SignStepCases(s, w.file, msg, env);
    if s.used < s.capacity {
      ReserveRecords(t, s, w.released, msg);
      hide SignStep, RecordsAll, KeyAt, LeavesOnce, SpentBelow, SessionCurrent, Reserve, NextKey, SignatureAt;
      AttemptRecords(t, w.file, Reserve(s), env.write, w.released);
      AttemptRecords(t, w.file, Reserve(s), NoFault, w.released);
      CompletedRecords(t, w.file, Reserve(s), w.released + [SignatureAt(s.state, msg)]);
    }
  }

  lemma AttemptRecords(t: Tree, file: Entry, blob: Bytes, fault: Fault, released: seq<Signature>)
    requires forall k: nat :: RecordsAll(t, Exposed(file, k), released)
    requires RecordsAll(t, Some(blob), released)
    ensures forall k: nat :: RecordsAll(t, Exposed(WriteEffect(file, blob, fault), k), released)
  {
    hide RecordsAll;
    forall k: nat ensures RecordsAll(t, Exposed(WriteEffect(file, blob, fault), k), released) {
      assert RecordsAll(t, Exposed(file, k), released);
    }
  }

  lemma CompletedRecords(t: Tree, file: Entry, blob: Bytes, released: seq<Signature>)
    requires RecordsAll(t, Some(blob), released)
    ensures forall k: nat :: RecordsAll(t, Exposed(WriteEffect(file, blob, NoFault), k), released)
  {
  }

  /** A start that does not find the file has a floor past every released leaf. */
  predicate Clears(w: World, e: Event) {
    e.Start? && w.signer.None? && !e.found ==> SpentBelow(w.released, e.floor)
  }

  lemma StepSafe(t: Tree, w: World, e: Event)
    requires Safe(t, w) && Clears(w, e)
    ensures Safe(t, Step(t, w, e))
  {
    match e
    case Start(floor, found, readable) =>
      if w.signer.None? {
        StartSafe(t, w, floor, found, readable);
      }
    case Reattach(floor, found, readable) =>
      if w.signer.Some? {
        SpentBelowMore(w.released, w.signer.value.used, Max(w.signer.value.used, floor));
        AttachSafe(t, w.signer.value, w.file, floor, found, readable, w.released);
      }
    case Sign(msg, env) =>
      if w.signer.Some? {
        SignSafe(t, w, msg, env);
      }
    case DieSigning(msg, env, outcome) =>
      if w.signer.Some? {
        SignSafe(t, w, msg, env);
      }
    case Crash(outcome) =>
  }

  lemma SpentBelowMore(released: seq<Signature>, a: nat, b: nat)
    requires SpentBelow(released, a) && a <= b
    ensures SpentBelow(released, b)
  {
  }

  predicate ClearsThroughout(t: Tree, w: World, events: seq<Event>)
    decreases |events|
  {
    events != [] ==> Clears(w, events[0]) && ClearsThroughout(t, Step(t, w, events[0]), events[1..])
  }

  lemma {:induction false} RunSafe(t: Tree, w: World, events: seq<Event>)
    requires Safe(t, w) && ClearsThroughout(t, w, events)
    ensures Safe(t, Run(t, w, events))
    decreases |events|
  {
    hide Step, Safe, Clears;
    if events != [] {
      StepSafe(t, w, events[0]);
      RunSafe(t, Step(t, w, events[0]), events[1..]);
    }
  }

  // ---------------------------------------------------------------------------
  // The guarantees
  // ---------------------------------------------------------------------------

  lemma {:induction false} DistinctBelow(s: seq<nat>, n: nat)
    requires forall i :: 0 <= i < |s| ==> s[i] < n
    requires forall i, j :: 0 <= i < j < |s| ==> s[i] != s[j]
    ensures |s| <= n
    decreases n
  {
    if s != [] {
      assert s[0] < n;
      if exists i :: 0 <= i < |s| && s[i] == n - 1 {
        var i :| 0 <= i < |s| && s[i] == n - 1;
        DistinctBelow(s[..i] + s[i + 1..], n - 1);
      } else {
        DistinctBelow(s, n - 1);
      }
    }
  }

  /** Across any interleaving of signs, library failures, writes that fail at any step,
      deaths inside a sign, crashes that bring back any unsynced directory entry, and
      restarts with any floor, which a start that does not find the file must have past the
      released leaves: no two released signatures share a leaf, and both are under the one key. */
  lemma NoLeafIsReused(t: Tree, events: seq<Event>, i: nat, j: nat)
    requires |t.body| == KEY_LEN - 8 && ClearsThroughout(t, Nothing, events)
    requires i < j < |Run(t, Nothing, events).released|
    ensures Run(t, Nothing, events).released[i].leaf != Run(t, Nothing, events).released[j].leaf
    ensures Run(t, Nothing, events).released[i].key == Run(t, Nothing, events).released[j].key == t.body
  {
    RunSafe(t, Nothing, events);
  }

  /** Over every such run, the one that releases nothing included: at most `capacity` signatures
      leave, each at a leaf of the tree and under its key. */
  lemma AtMostCapacityReleased(t: Tree, events: seq<Event>)
    requires |t.body| == KEY_LEN - 8 && ClearsThroughout(t, Nothing, events)
    ensures |Run(t, Nothing, events).released| <= t.capacity
    ensures forall sig :: sig in Run(t, Nothing, events).released ==> sig.key == t.body && sig.leaf < t.capacity
  {
    RunSafe(t, Nothing, events);
    var released := Run(t, Nothing, events).released;
    var leaves := seq(|released|, k requires 0 <= k < |released| => released[k].leaf as nat);
    DistinctBelow(leaves, t.capacity);
  }

  /** Whatever a crash exposes at any point of any run, the next process resumes past its floor, or
      refuses to start, and past a released leaf exactly when it finds the file or the floor is. */
  lemma RestartResumesPastEveryLeaf(t: Tree, events: seq<Event>, outcome: nat, floor: u64, found: bool, readable: bool, i: nat)
    requires |t.body| == KEY_LEN - 8 && ClearsThroughout(t, Nothing, events)
    requires i < |Run(t, Nothing, events).released|
    ensures
      var w := Run(t, Nothing, events);
      var next := Step(t, Step(t, w, Crash(outcome)), Start(floor, found, readable));
      next.signer.Some? ==>
        (w.released[i].leaf < next.signer.value.used <==> found || w.released[i].leaf < floor) && floor <= next.signer.value.used
  {
    RunSafe(t, Nothing, events);
    hide Run;
    var w := Run(t, Nothing, events);
    var down := Step(t, w, Crash(outcome));
    StepSafe(t, w, Crash(outcome));
    if found {
      StartSafe(t, down, floor, true, readable);
    }
  }

  lemma StartSafe(t: Tree, w: World, floor: u64, found: bool, readable: bool)
    requires Safe(t, w) && w.signer.None? && Clears(w, Start(floor, found, readable))
    ensures var next := Step(t, w, Start(floor, found, readable));
            Safe(t, next) && next.released == w.released && (next.signer.Some? ==> floor <= next.signer.value.used)
  {
    FreshKeyAt(t);
    AttachSafe(t, FreshSigner(t), w.file, floor, found, readable, w.released);
  }

  function CleanSigns(msgs: seq<Bytes>): seq<Event> {
    if msgs == [] then [] else [Sign(msgs[0], Clean)] + CleanSigns(msgs[1..])
  }

  /** Signatures under consecutive leaves from `used`, until the tree is spent. */
  function InLeafOrder(t: Tree, used: u64, msgs: seq<Bytes>): (r: seq<Signature>)
    requires used <= t.capacity
    ensures |r| == Min(|msgs|, t.capacity - used)
    ensures forall i :: 0 <= i < |r| ==> r[i] == Signature(t.body, used + i, msgs[i])
    decreases |msgs|
  {
    if msgs == [] || used == t.capacity then []
    else [Signature(t.body, used, msgs[0])] + InLeafOrder(t, used + 1, msgs[1..])
  }

  /** A signer at a leaf of this tree, whatever has been released before. */
  predicate Ready(t: Tree, w: World) {
    && |t.body| == KEY_LEN - 8 && w.signer.Some?
    && w.signer.value.capacity == t.capacity && SessionCurrent(w.signer.value)
    && KeyAt(t, w.signer.value.state, w.signer.value.used)
  }

  /** The guarantee is not bought by never signing: with no failure, `sign` spends the
      leaves in order, one per call, until exactly `capacity` are gone, and from then on
      releases nothing. */
  lemma {:induction false} CleanRunSpendsEveryLeaf(t: Tree, w: World, msgs: seq<Bytes>)
    requires w.signer.Some? && Ready(t, w) && w.signer.value.used <= t.capacity
    ensures Run(t, w, CleanSigns(msgs)).released == w.released + InLeafOrder(t, w.signer.value.used, msgs)
    decreases |msgs|
  {
    hide *;
    RunFirst(t, w, msgs);
    InLeafOrderFirst(t, w.signer.value.used, msgs);
    if msgs != [] {
      CleanSign(t, w, msgs[0]);
      CleanRunSpendsEveryLeaf(t, Step(t, w, Sign(msgs[0], Clean)), msgs[1..]);
    }
  }

  lemma RunFirst(t: Tree, w: World, msgs: seq<Bytes>)
    ensures Run(t, w, CleanSigns(msgs))
            == if msgs == [] then w else Run(t, Step(t, w, Sign(msgs[0], Clean)), CleanSigns(msgs[1..]))
    ensures msgs != [] && ClearsThroughout(t, Step(t, w, Sign(msgs[0], Clean)), CleanSigns(msgs[1..]))
            ==> ClearsThroughout(t, w, CleanSigns(msgs))
  {
    hide Step;
    if msgs != [] {
      assert CleanSigns(msgs)[1..] == CleanSigns(msgs[1..]);
    }
  }

  lemma InLeafOrderFirst(t: Tree, used: u64, msgs: seq<Bytes>)
    requires used <= t.capacity
    ensures InLeafOrder(t, used, msgs)
            == if msgs == [] || used == t.capacity then []
               else [Signature(t.body, used, msgs[0])] + InLeafOrder(t, used + 1, msgs[1..])
    ensures used == t.capacity && msgs != [] ==> InLeafOrder(t, used, msgs[1..]) == []
  {
  }

  lemma CleanSign(t: Tree, w: World, msg: Bytes)
    requires w.signer.Some? && Ready(t, w)
    ensures
      var next := Step(t, w, Sign(msg, Clean));
      && next.signer.Some? && Ready(t, next)
      && (w.signer.value.used < t.capacity ==>
            (&& next.released == w.released + [Signature(t.body, w.signer.value.used, msg)]
             && next.signer.value.used == w.signer.value.used + 1))
      && (w.signer.value.used >= t.capacity ==> next.released == w.released && next.signer.value.used == w.signer.value.used)
  {
    if w.signer.value.used < t.capacity {
      NextKeyAt(t, w.signer.value.state, w.signer.value.used);
    }
  }

  // ---------------------------------------------------------------------------
  // Resuming where it stopped
  // ---------------------------------------------------------------------------

  /** The greatest of some positions. */
  predicate Greatest(n: nat, of: set<nat>) {
    n in of && forall m :: m in of ==> m <= n
  }

  /** A start or an attachment that finds and reads a file stands exactly at the greatest of its own
      position, the floor and the two counts of the file, on the file's key; without a file, or with
      one too short to hold a count, at the greater of the first two, on its own key; and it refuses
      exactly a file it finds and cannot read. */
  lemma ResumesAtGreatest(t: Tree, w: World, floor: u64, found: bool, readable: bool)
    ensures w.signer.None? ==>
              ResumedFrom(FreshSigner(t), w.file, floor, found, readable, Step(t, w, Start(floor, found, readable)).signer)
    ensures w.signer.Some? ==>
              var after := Step(t, w, Reattach(floor, found, readable)).signer;
              if found && Visible(w.file).Some? && !readable then after == w.signer
              else ResumedFrom(w.signer.value, w.file, floor, found, readable, after)
  {
    hide AttachStep, ResumedFrom;
    if w.signer.None? {
      AttachesAtGreatest(FreshSigner(t), w.file, floor, found, readable);
    } else {
      AttachesAtGreatest(w.signer.value, w.file, floor, found, readable);
      AttachRefusesIff(w.signer.value, w.file, floor, found, readable);
    }
  }

  lemma AttachRefusesIff(own: SignerState, file: Entry, floor: u64, found: bool, readable: bool)
    ensures AttachStep(own, file, floor, found, readable).None? <==> found && Visible(file).Some? && !readable
  {
  }

  lemma AttachesAtGreatest(own: SignerState, file: Entry, floor: u64, found: bool, readable: bool)
    ensures ResumedFrom(own, file, floor, found, readable, AttachStep(own, file, floor, found, readable))
  {
    hide Greatest, StateAt, StateCount;
    match if found then Visible(file) else None
    case None => ResumedStands(own, own.state, Max(own.used, floor), {own.used, floor});
    case Some(blob) =>
      if |blob| < 8 {
        ResumedStands(own, own.state, Max(own.used, floor), {own.used, floor});
      } else {
        var count := FromLe64(blob[..8]);
        CountInBlob(blob);
        var resume := Max(Max(Max(own.used, floor), count), CountOrZero(blob[8..]));
        if |blob| < 16 {
          ResumedStands(own, blob[8..], resume, {own.used, floor, count});
        } else {
          ResumedStands(own, blob[8..], resume, {own.used, floor, count, FromBe64(blob[8..16])});
        }
      }
  }

  lemma CountInBlob(blob: Bytes)
    requires |blob| >= 8
    ensures CountOrZero(blob[8..]) == if |blob| < 16 then 0 else FromBe64(blob[8..16])
  {
    assert |blob| >= 16 ==> blob[8..][..8] == blob[8..16];
  }

  lemma ResumedStands(own: SignerState, base: Bytes, resume: u64, positions: set<nat>)
    requires resume in positions && forall m :: m in positions ==> m <= resume
    ensures StandsAt(Resumed(own, base, resume), own, positions, base)
  {
    StateAtCounts(base, resume);
  }

  lemma StateAtCounts(state: Bytes, n: u64)
    ensures |state| >= 8 ==> StateCount(StateAt(state, n)) == Some(n) && StateAt(state, n)[8..] == state[8..]
    ensures |state| < 8 ==> StateAt(state, n) == state
  {
    if |state| >= 8 {
      StateAtMovesOnlyTheCount(state, n);
    }
  }

  predicate ResumedFrom(own: SignerState, file: Entry, floor: u64, found: bool, readable: bool, after: Option<SignerState>) {
    match if found then Visible(file) else None
    case None => after.Some? && StandsAt(after.value, own, {own.used, floor}, own.state)
    case Some(blob) =>
      if !readable then after.None?
      else if |blob| < 8 then after.Some? && StandsAt(after.value, own, {own.used, floor}, own.state)
      else if |blob| < 16 then after.Some? && StandsAt(after.value, own, {own.used, floor, FromLe64(blob[..8])}, blob[8..])
      else
        after.Some? && StandsAt(after.value, own, {own.used, floor, FromLe64(blob[..8]), FromBe64(blob[8..16])}, blob[8..])
  }

  /** At the greatest position, with the key moved there and no session. */
  predicate StandsAt(s: SignerState, own: SignerState, positions: set<nat>, key: Bytes) {
    && Greatest(s.used, positions) && s.capacity == own.capacity && s.session.None?
    && |s.state| == |key|
    && if |key| >= 8 then FromBe64(s.state[..8]) == s.used && s.state[8..] == key[8..] else s.state == key
  }

  /** Signing, crashing and signing again. */
  function Restarted(first: seq<Bytes>, outcome: nat, floor: u64, second: seq<Bytes>): seq<Event> {
    [Start(0, true, true)] + CleanSigns(first) + [Crash(outcome)] + [Start(floor, true, true)] + CleanSigns(second)
  }

  /** Nothing is lost over a restart either: signs without failure, a crash at any exposure, a start
      with a floor no higher than what was signed and further signs release exactly the leaves from
      0 on, one a message, each once, until the tree is spent. */
  lemma RestartLosesNothing(t: Tree, first: seq<Bytes>, outcome: nat, floor: u64, second: seq<Bytes>)
    requires |t.body| == KEY_LEN - 8 && floor <= |first|
    ensures Run(t, Nothing, Restarted(first, outcome, floor, second)).released == InLeafOrder(t, 0, first + second)
  {
    hide *;
    var w1 := Step(t, Nothing, Start(0, true, true));
    StartsFresh(t);
    PositionInTree(t, w1);
    CleanRunSpendsEveryLeaf(t, w1, first);
    var w2 := Run(t, w1, CleanSigns(first));
    CleanRunPosition(t, w1, first);
    var w4 := Step(t, Step(t, w2, Crash(outcome)), Start(floor, true, true));
    ResumesExactly(t, w2, outcome, floor);
    SignsFrom(t, w4, second);
    RunParts(t, first, outcome, floor, second);
    LeavesOfBoth(t, first, floor, second, w2.released, w4.signer.value.used);
  }

  lemma LeavesOfBoth(t: Tree, first: seq<Bytes>, floor: u64, second: seq<Bytes>, released: seq<Signature>, used: u64)
    requires floor <= |first| && released == [] + InLeafOrder(t, 0, first)
    requires used == Max(floor, Min(0 + |first|, t.capacity))
    ensures released + (if used <= t.capacity then InLeafOrder(t, used, second) else []) == InLeafOrder(t, 0, first + second)
  {
    hide InLeafOrder;
    assert [] + InLeafOrder(t, 0, first) == InLeafOrder(t, 0, first);
    LeavesJoin(t, 0, first, second);
    LeastOf(|first|, t.capacity, floor);
  }

  lemma LeastOf(a: nat, b: nat, c: nat)
    ensures Min(0 + a, b) == if a <= b then a else b
    ensures Max(c, Min(0 + a, b)) == if c <= Min(0 + a, b) then Min(0 + a, b) else c
  {
  }

  lemma PositionInTree(t: Tree, w: World)
    requires w.signer.Some? && PositionOnFile(t, w)
    ensures w.signer.value.used <= t.capacity
  {
  }

  lemma StartsFresh(t: Tree)
    requires |t.body| == KEY_LEN - 8
    ensures var w := Step(t, Nothing, Start(0, true, true));
            w.signer.Some? && Ready(t, w) && w.signer.value.used == 0 && w.released == [] && PositionOnFile(t, w)
  {
    FreshKeyAt(t);
    MovedKeyAt(t, FreshSigner(t).state, 0, 0);
  }

  /** The one thing a crash can expose is the signer's own position, or nothing before the first
      leaf is spent. */
  predicate PositionOnFile(t: Tree, w: World)
    requires w.signer.Some?
  {
    && w.file.renamed == [] && w.signer.value.used <= t.capacity
    && match w.file.durable
       case None => w.signer.value.used == 0
       case Some(blob) =>
         |blob| == 8 + KEY_LEN && FromLe64(blob[..8]) == w.signer.value.used && blob[8..] == w.signer.value.state
  }

  lemma CleanSignPosition(t: Tree, w: World, msg: Bytes)
    requires w.signer.Some? && Ready(t, w) && PositionOnFile(t, w)
    ensures var next := Step(t, w, Sign(msg, Clean)); next.signer.Some? && PositionOnFile(t, next)
  {
    var s := w.signer.value;
    if s.used < s.capacity {
      NextKeyLength(s.state, s.capacity);
      BlobRoundTrip(s.used + 1, NextKey(s.state, s.capacity));
    }
  }

  lemma {:induction false} CleanRunPosition(t: Tree, w: World, msgs: seq<Bytes>)
    requires w.signer.Some? && Ready(t, w) && PositionOnFile(t, w)
    ensures var v := Run(t, w, CleanSigns(msgs));
            && v.signer.Some? && Ready(t, v) && PositionOnFile(t, v)
            && v.signer.value.used == Min(w.signer.value.used + |msgs|, t.capacity)
    decreases |msgs|
  {
    hide Step, Run, Ready;
    RunFirst(t, w, msgs);
    if msgs != [] {
      CleanSign(t, w, msgs[0]);
      CleanSignPosition(t, w, msgs[0]);
      CleanRunPosition(t, Step(t, w, Sign(msgs[0], Clean)), msgs[1..]);
    }
  }

  lemma ResumesExactly(t: Tree, w: World, outcome: nat, floor: u64)
    requires w.signer.Some? && Ready(t, w) && PositionOnFile(t, w)
    ensures var v := Step(t, Step(t, w, Crash(outcome)), Start(floor, true, true));
            && v.signer.Some? && Ready(t, v) && v.released == w.released
            && v.signer.value.used == Max(floor, w.signer.value.used)
  {
    var s := w.signer.value;
    match w.file.durable
    case None =>
      FreshKeyAt(t);
      MovedKeyAt(t, FreshSigner(t).state, 0, floor);
    case Some(blob) => MovedKeyAt(t, s.state, s.used, Max(floor, s.used));
  }

  /** Dying inside a call costs the leaf it was to spend, and only if its write came through: the
      next process stands one further then, at the same leaf otherwise unless the last write could
      be exposed, and nothing of the call is released. */
  lemma DeathCostsAtMostItsLeaf(t: Tree, w: World, msg: Bytes, env: SignEnv, outcome: nat)
    requires w.signer.Some? && Ready(t, w) && PositionOnFile(t, w)
    ensures var dead := Step(t, w, DieSigning(msg, env, outcome));
            var v := Step(t, dead, Start(0, true, true));
            var position := w.signer.value.used;
            && dead.signer.None? && v.released == w.released && v.signer.Some? && Ready(t, v)
            && v.signer.value.used in {position, position + 1}
            && (v.signer.value.used == position + 1 <==>
                  position < t.capacity && env.signs && (w.signer.value.session.Some? || env.opens)
                  && (env.write == NoFault || (env.write == DirSyncFails && outcome == 0)))
  {
    hide *;
    DeathLeaves(t, w, msg, env, outcome);
    var dead := Step(t, w, DieSigning(msg, env, outcome));
    if WriteSurvives(t, w, env, outcome) {
      ResumesReserve(t, dead, w.signer.value);
    } else {
      ResumesExactly(t, w, outcome, 0);
      MaxOfZero(w.signer.value.used);
    }
  }

  lemma MaxOfZero(n: nat)
    ensures Max(0, n) == n
  {
  }

  /** The write of the call is made and a crash brings it back. */
  predicate WriteSurvives(t: Tree, w: World, env: SignEnv, outcome: nat)
    requires w.signer.Some?
  {
    && w.signer.value.used < t.capacity && env.signs && (w.signer.value.session.Some? || env.opens)
    && (env.write == NoFault || (env.write == DirSyncFails && outcome == 0))
  }

  lemma DeathLeaves(t: Tree, w: World, msg: Bytes, env: SignEnv, outcome: nat)
    requires w.signer.Some? && Ready(t, w) && PositionOnFile(t, w)
    ensures |t.body| == KEY_LEN - 8 && Step(t, w, DieSigning(msg, env, outcome)).signer.None?
    ensures var dead := Step(t, w, DieSigning(msg, env, outcome)); var s := w.signer.value;
            if WriteSurvives(t, w, env, outcome)
            then |s.state| == KEY_LEN && s.used < t.capacity == s.capacity && KeyAt(t, s.state, s.used)
                 && dead == World(Entry(Some(Reserve(s)), []), None, w.released)
            else dead == Step(t, w, Crash(outcome))
    ensures WriteSurvives(t, w, env, outcome) <==>
              && w.signer.value.used < t.capacity && env.signs && (w.signer.value.session.Some? || env.opens)
              && (env.write == NoFault || (env.write == DirSyncFails && outcome == 0))
  {
    hide Reserve, NextKey, SignatureAt, StateCount, PositionOnFile;
    assert w.file.renamed == [] by { FileSettled(t, w); }
    CallWrites(w.signer.value, w.file, msg, env);
  }

  lemma FileSettled(t: Tree, w: World)
    requires w.signer.Some? && PositionOnFile(t, w)
    ensures w.file.renamed == []
  {
  }

  lemma CallWrites(s: SignerState, file: Entry, msg: Bytes, env: SignEnv)
    requires |s.state| == KEY_LEN && SessionCurrent(s)
    ensures SignStep(s, Some(file), msg, env).file
            == Some(if s.used < s.capacity && env.signs && (s.session.Some? || env.opens)
                    then WriteEffect(file, Reserve(s), env.write) else file)
  {
  }

  lemma ResumesReserve(t: Tree, dead: World, s: SignerState)
    requires |t.body| == KEY_LEN - 8 && |s.state| == KEY_LEN && s.used < t.capacity == s.capacity && KeyAt(t, s.state, s.used)
    requires dead.signer.None? && dead.file == Entry(Some(Reserve(s)), [])
    ensures var v := Step(t, dead, Start(0, true, true));
            v.signer.Some? && Ready(t, v) && v.signer.value.used == s.used + 1 && v.released == dead.released
  {
    hide NextKey, EncodeBlob, KeyAt, AttachStep, Resumed, SessionCurrent;
    NextKeyAt(t, s.state, s.used);
    BlobRoundTrip(s.used + 1, NextKey(s.state, s.capacity));
    AttachReads(t, dead.file, Reserve(s), s.used + 1);
  }

  lemma AttachReads(t: Tree, file: Entry, blob: Bytes, used: u64)
    requires file == Entry(Some(blob), []) && |blob| >= 8 && FromLe64(blob[..8]) == used && KeyAt(t, blob[8..], used)
    ensures var a := AttachStep(FreshSigner(t), file, 0, true, true);
            a.Some? && a.value.used == used && a.value.capacity == t.capacity && SessionCurrent(a.value) && KeyAt(t, a.value.state, used)
  {
    assert Max(Max(0, used), CountOrZero(blob[8..])) == used;
    MovedKeyAt(t, blob[8..], used, used);
    hide KeyAt, StateAt;
  }

  /** A signer past its last leaf releases nothing. */
  lemma SignsFrom(t: Tree, w: World, msgs: seq<Bytes>)
    requires w.signer.Some? && Ready(t, w)
    ensures Run(t, w, CleanSigns(msgs)).released
            == w.released + if w.signer.value.used <= t.capacity then InLeafOrder(t, w.signer.value.used, msgs) else []
  {
    if w.signer.value.used <= t.capacity {
      CleanRunSpendsEveryLeaf(t, w, msgs);
    } else {
      SpentSignsNothing(t, w, msgs);
    }
  }

  lemma {:induction false} SpentSignsNothing(t: Tree, w: World, msgs: seq<Bytes>)
    requires w.signer.Some? && Ready(t, w) && w.signer.value.used >= t.capacity
    ensures Run(t, w, CleanSigns(msgs)).released == w.released
    decreases |msgs|
  {
    hide Step, Run, Ready;
    RunFirst(t, w, msgs);
    if msgs != [] {
      CleanSign(t, w, msgs[0]);
      SpentSignsNothing(t, Step(t, w, Sign(msgs[0], Clean)), msgs[1..]);
    }
  }

  lemma LeavesJoin(t: Tree, used: u64, a: seq<Bytes>, b: seq<Bytes>)
    requires used <= t.capacity
    ensures used + |a| <= t.capacity ==> InLeafOrder(t, used, a) + InLeafOrder(t, used + |a|, b) == InLeafOrder(t, used, a + b)
    ensures used + |a| >= t.capacity ==> InLeafOrder(t, used, a) == InLeafOrder(t, used, a + b)
    ensures InLeafOrder(t, t.capacity, b) == []
  {
    hide InLeafOrder;
    var whole := InLeafOrder(t, used, a + b);
    if used + |a| <= t.capacity {
      var parts := InLeafOrder(t, used, a) + InLeafOrder(t, used + |a|, b);
      forall i | 0 <= i < |whole| ensures parts[i] == whole[i] {
        assert (a + b)[i] == if i < |a| then a[i] else b[i - |a|];
      }
    }
  }

  lemma {:induction false} RunAppend(t: Tree, w: World, a: seq<Event>, b: seq<Event>)
    ensures Run(t, w, a + b) == Run(t, Run(t, w, a), b)
    decreases |a|
  {
    hide Step;
    if a == [] {
      assert a + b == b;
    } else {
      assert (a + b)[1..] == a[1..] + b;
      RunAppend(t, Step(t, w, a[0]), a[1..], b);
    }
  }

  lemma RunOne(t: Tree, w: World, e: Event)
    ensures Run(t, w, [e]) == Step(t, w, e)
  {
    hide Step;
    assert [e][1..] == [];
    assert Run(t, Step(t, w, e), []) == Step(t, w, e);
  }

  lemma RunParts(t: Tree, first: seq<Bytes>, outcome: nat, floor: u64, second: seq<Bytes>)
    ensures var w2 := Run(t, Step(t, Nothing, Start(0, true, true)), CleanSigns(first));
            Run(t, Nothing, Restarted(first, outcome, floor, second))
            == Run(t, Step(t, Step(t, w2, Crash(outcome)), Start(floor, true, true)), CleanSigns(second))
  {
    hide Step, Run;
    var e1, e2 := [Start(0, true, true)], CleanSigns(first);
    var e3, e4 := [Crash(outcome)], [Start(floor, true, true)];
    RunAppend(t, Nothing, e1 + e2 + e3 + e4, CleanSigns(second));
    RunAppend(t, Nothing, e1 + e2 + e3, e4);
    RunAppend(t, Nothing, e1 + e2, e3);
    RunAppend(t, Nothing, e1, e2);
    RunOne(t, Nothing, e1[0]);
    RunOne(t, Run(t, Nothing, e1 + e2), e3[0]);
    RunOne(t, Run(t, Nothing, e1 + e2 + e3), e4[0]);
  }

  // ---------------------------------------------------------------------------
  // Starting without the file
  // ---------------------------------------------------------------------------

  /** No continuation whose own such starts clear the released leaves reuses one. */
  ghost predicate OnceForGood(t: Tree, w: World) {
    forall more :: ClearsThroughout(t, w, more) ==> LeavesOnce(t, Run(t, w, more).released)
  }

  lemma SafeForGood(t: Tree, w: World)
    requires Safe(t, w)
    ensures OnceForGood(t, w)
  {
    forall more | ClearsThroughout(t, w, more) ensures LeavesOnce(t, Run(t, w, more).released) {
      RunSafe(t, w, more);
    }
  }

  lemma {:induction false} SignsClear(t: Tree, w: World, msgs: seq<Bytes>)
    ensures ClearsThroughout(t, w, CleanSigns(msgs))
    decreases |msgs|
  {
    if msgs != [] {
      SignsClear(t, Step(t, w, Sign(msgs[0], Clean)), msgs[1..]);
      RunFirst(t, w, msgs);
    }
  }

  lemma BlindStart(t: Tree, w: World, floor: u64, readable: bool)
    requires Safe(t, w) && w.signer.None?
    ensures var v := Step(t, w, Start(floor, false, readable));
            v.signer.Some? && Ready(t, v) && v.signer.value.used == floor && v.released == w.released && v.file == w.file
  {
    FreshKeyAt(t);
    MovedKeyAt(t, FreshSigner(t).state, 0, floor);
  }

  /** A process that starts without its file keeps every leaf single in all its continuations if
      and only if its floor is past every leaf released so far. */
  lemma BlindStartIff(t: Tree, w: World, floor: u64, readable: bool)
    requires Safe(t, w) && w.signer.None?
    ensures OnceForGood(t, Step(t, w, Start(floor, false, readable))) <==> SpentBelow(w.released, floor)
  {
    var v := Step(t, w, Start(floor, false, readable));
    BlindStart(t, w, floor, readable);
    if SpentBelow(w.released, floor) {
      StepSafe(t, w, Start(floor, false, readable));
      SafeForGood(t, v);
    } else {
      var i :| 0 <= i < |w.released| && w.released[i].leaf >= floor;
      var msgs := seq(w.released[i].leaf - floor + 1, _ => []);
      ReusesLeaf(t, v, i, msgs);
      SignsClear(t, v, msgs);
    }
  }

  lemma ReusesLeaf(t: Tree, v: World, i: nat, msgs: seq<Bytes>)
    requires v.signer.Some? && Ready(t, v) && i < |v.released| && v.signer.value.used <= v.released[i].leaf < t.capacity
    requires |msgs| == v.released[i].leaf - v.signer.value.used + 1
    ensures !LeavesOnce(t, Run(t, v, CleanSigns(msgs)).released)
  {
    hide Run, Step, Ready;
    CleanRunSpendsEveryLeaf(t, v, msgs);
    var after := Run(t, v, CleanSigns(msgs)).released;
    var j := |v.released| + |msgs| - 1;
    assert after[i] == v.released[i];
    assert after[j] == InLeafOrder(t, v.signer.value.used, msgs)[|msgs| - 1];
    assert after[i].leaf == after[j].leaf;
  }

  ghost predicate OnceAfter(t: Tree, w: World, events: seq<Event>, k: nat)
    requires k <= |events|
  {
    OnceForGood(t, Run(t, w, events[..k]))
  }

  lemma PrefixRun(t: Tree, w: World, events: seq<Event>, k: nat)
    requires k <= |events|
    ensures k == 0 ==> Run(t, w, events[..k]) == w
    ensures k > 0 ==> Run(t, w, events[..k]) == Run(t, Step(t, w, events[0]), events[1..][..k - 1])
  {
    hide Step;
    if k > 0 {
      assert events[..k][0] == events[0] && events[..k][1..] == events[1..][..k - 1];
    }
  }

  lemma {:induction false} OnceRunIff(t: Tree, w: World, events: seq<Event>)
    requires Safe(t, w)
    ensures (forall k: nat :: k <= |events| ==> OnceAfter(t, w, events, k)) <==> ClearsThroughout(t, w, events)
    decreases |events|
  {
    hide Safe, Step, OnceForGood, Run, Clears;
    PrefixRun(t, w, events, 0);
    SafeForGood(t, w);
    if events != [] {
      var mid, rest := Step(t, w, events[0]), events[1..];
      forall k: nat | k <= |rest| ensures OnceAfter(t, w, events, k + 1) <==> OnceAfter(t, mid, rest, k) {
        PrefixRun(t, w, events, k + 1);
      }
      PrefixRun(t, mid, rest, 0);
      assert OnceAfter(t, w, events, 1) <==> OnceAfter(t, mid, rest, 0);
      FirstOnceIff(t, w, events[0]);
      if Clears(w, events[0]) {
        OnceRunIff(t, mid, rest);
        forall k: nat | k <= |events| && ClearsThroughout(t, mid, rest) ensures OnceAfter(t, w, events, k) {
          assert k > 0 ==> OnceAfter(t, mid, rest, k - 1);
        }
      }
    }
  }

  lemma FirstOnceIff(t: Tree, w: World, e: Event)
    requires Safe(t, w)
    ensures OnceForGood(t, Step(t, w, e)) <==> Clears(w, e)
    ensures Clears(w, e) ==> Safe(t, Step(t, w, e))
  {
    hide OnceForGood, Safe, Step;
    if Clears(w, e) {
      StepSafe(t, w, e);
      SafeForGood(t, Step(t, w, e));
    } else {
      BlindStartIff(t, w, e.floor, e.readable);
    }
  }

  /** Over every run: at every moment, in every continuation, no leaf is released twice, if and
      only if each start that did not find the file had a floor past every leaf released. */
  lemma NoLeafEverReusedIff(t: Tree, events: seq<Event>)
    requires |t.body| == KEY_LEN - 8
    ensures (forall k: nat :: k <= |events| ==> OnceAfter(t, Nothing, events, k)) <==> ClearsThroughout(t, Nothing, events)
  {
    OnceRunIff(t, Nothing, events);
  }
}
