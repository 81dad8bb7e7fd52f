/** The stateful one-time-leaf signer: reserve the next leaf durably, then release the
    signature. The tree signature itself is abstract; a signature is identified by the key
    it is made under, its leaf and its message. */
module Signer {
  import opened Machine
  import opened DurableFile

  /** count (8, big endian), parameters (8), seed (32) */
  const KEY_LEN: nat := 48

  // ---------------------------------------------------------------------------
  // Key bytes
  // ---------------------------------------------------------------------------

  /** The leaf counter inside the compressed private key. */
  function StateCount(state: Bytes): Option<u64> {
    if |state| >= 8 then Some(FromBe64(state[..8])) else None
  }

  /** The same key moved to leaf `count`. */
  function StateAt(state: Bytes, count: u64): Bytes {
    if |state| >= 8 then Be64(count) + state[8..] else state
  }

  function EncodeBlob(used: u64, state: Bytes): Bytes {
    Le64(used) + state
  }

  lemma StateAtMovesOnlyTheCount(state: Bytes, count: u64)
    requires |state| >= 8
    ensures StateCount(StateAt(state, count)) == Some(count)
    ensures StateAt(state, count)[8..] == state[8..]
    ensures |StateAt(state, count)| == |state|
    ensures StateCount(state) == Some(count) ==> StateAt(state, count) == state
  {
    assert StateAt(state, count)[..8] == Be64(count);
    Be64RoundTrip(count);
    if StateCount(state) == Some(count) {
      BigEndianOfBytes(state[..8]);
      assert state == state[..8] + state[8..];
    }
  }

  lemma {:induction false} BigEndianOfBytes(b: Bytes)
    ensures BigEndian(FromBigEndian(b), |b|) == b
    decreases |b|
  {
    if b != [] {
      var init, last := b[..|b| - 1], b[|b| - 1];
      BigEndianOfBytes(init);
      DivModUnique(FromBigEndian(b), 256, FromBigEndian(init), last);
      assert b == init + [last];
    }
  }

  lemma BlobRoundTrip(used: u64, state: Bytes)
    ensures |EncodeBlob(used, state)| >= 8
    ensures FromLe64(EncodeBlob(used, state)[..8]) == used
    ensures EncodeBlob(used, state)[8..] == state
  {
    assert EncodeBlob(used, state)[..8] == Le64(used);
    Le64RoundTrip(used);
  }

  // ---------------------------------------------------------------------------
  // The signing session, by its contract
  // ---------------------------------------------------------------------------

  datatype Signature = Signature(key: Bytes, leaf: u64, msg: Bytes)

  datatype Session = Session(key: Bytes, pending: Option<Bytes>)

  /** What the surroundings decide during one call: whether the session library reports an
      error, and where the file write fails. */
  datatype SignEnv = SignEnv(opens: bool, signs: bool, write: Fault)

  /** The key the library leaves behind once its last leaf is spent: counter zero, empty
      parameter set, zero seed. */
  const WIPED: Bytes := Be64(0) + Repeat(0xff, 8) + Repeat(0, 32)

  function NextKey(key: Bytes, capacity: u64): Bytes
    requires |key| == KEY_LEN
  {
    var count := StateCount(key).value;
    if count + 1 >= capacity then WIPED else StateAt(key, count + 1)
  }

  function SignatureAt(key: Bytes, msg: Bytes): Signature
    requires |key| == KEY_LEN
  {
    Signature(key[8..], StateCount(key).value, msg)
  }

  function SessionOpen(state: Bytes, env: SignEnv): Option<Session> {
    if env.opens && |state| == KEY_LEN then Some(Session(state, None)) else None
  }

  /** A signature and the session with its pending key, or an error. */
  function SessionSign(s: Session, capacity: u64, msg: Bytes, env: SignEnv): Option<(Session, Signature)> {
    if s.pending.Some? || !env.signs || |s.key| != KEY_LEN then None
    else Some((s.(pending := Some(NextKey(s.key, capacity))), SignatureAt(s.key, msg)))
  }

  function SessionCommit(s: Session): Session {
    if s.pending.Some? then Session(s.pending.value, None) else s
  }

  function SessionRollback(s: Session): Session {
    s.(pending := None)
  }

  // ---------------------------------------------------------------------------
  // The signer as a value
  // ---------------------------------------------------------------------------

  datatype SignerState = SignerState(state: Bytes, used: u64, capacity: u64, session: Option<Session>)

  datatype SignOutcome = SignOutcome(signer: SignerState, file: Option<Entry>, released: Option<Signature>)

  function Remaining(s: SignerState): nat {
    SatSub(s.capacity, s.used)
  }

  /** One call of `sign`; `file` is the attached state file, if any. */
  function SignStep(s: SignerState, file: Option<Entry>, msg: Bytes, env: SignEnv): SignOutcome {
    if Remaining(s) == 0 then SignOutcome(s, file, None)
    else
      var live := if s.session.Some? then s.session else SessionOpen(s.state, env);
      if live.None? then SignOutcome(s, file, None)
      else
        match SessionSign(live.value, s.capacity, msg, env)
        case None => SignOutcome(s.(session := None), file, None)
        case Some((session, sig)) =>
          if file.Some? && env.write != NoFault then
            SignOutcome(s.(session := Some(SessionRollback(session))),
                        Some(WriteEffect(file.value, EncodeBlob(s.used + 1, session.pending.value), env.write)),
                        None)
          else
            SignOutcome(SignerState(session.pending.value, s.used + 1, s.capacity, Some(SessionCommit(session))),
                        if file.None? then None
                        else Some(WriteEffect(file.value, EncodeBlob(s.used + 1, session.pending.value), NoFault)),
                        Some(sig))
  }

  /** The reference path: expand the key afresh on every call. */
  function SignUncachedStep(s: SignerState, file: Option<Entry>, msg: Bytes, env: SignEnv): SignOutcome {
    if Remaining(s) == 0 then SignOutcome(s, file, None)
    else if !env.opens || !env.signs || |s.state| != KEY_LEN then SignOutcome(s, file, None)
    else
      var next := NextKey(s.state, s.capacity);
      if file.Some? && env.write != NoFault then
        SignOutcome(s, Some(WriteEffect(file.value, EncodeBlob(s.used + 1, next), env.write)), None)
      else
        SignOutcome(SignerState(next, s.used + 1, s.capacity, None),
                    if file.None? then None else Some(WriteEffect(file.value, EncodeBlob(s.used + 1, next), NoFault)),
                    Some(SignatureAt(s.state, msg)))
  }

  /** Adopt the file's position, the floor and the signer's own, whichever is highest. `found` is
      whether a look at the path succeeds, which asking for its existence takes for absence when
      it does not; `None` is an I/O error reading a file that was found. */
  function AttachStep(s: SignerState, file: Entry, floor: u64, found: bool, readable: bool): Option<SignerState> {
    var resume := Max(s.used, floor);
    match if found then Visible(file) else None
    case None => Some(Resumed(s, s.state, resume))
    case Some(blob) =>
      if !readable then None
      else if |blob| < 8 then Some(Resumed(s, s.state, resume))
      else
        Some(Resumed(s, blob[8..], Max(Max(resume, FromLe64(blob[..8])), CountOrZero(blob[8..]))))
  }

  function CountOrZero(state: Bytes): u64 {
    match StateCount(state)
    case None => 0
    case Some(c) => c
  }

  function Resumed(s: SignerState, base: Bytes, resume: u64): SignerState {
    SignerState(StateAt(base, resume), resume, s.capacity, None)
  }

  // ---------------------------------------------------------------------------
  // Cached and uncached signing agree
  // ---------------------------------------------------------------------------

  /** The session, when there is one, stands on the signer's own key with nothing pending. */
  predicate SessionCurrent(s: SignerState) {
    s.session.Some? ==> s.session.value == Session(s.state, None) && |s.state| == KEY_LEN
  }

  /** Keeping the expanded key between calls changes no observable: same signature, same
      file, same key and position as the fresh-expansion path. */
  lemma CachedAgreesWithUncached(s: SignerState, file: Option<Entry>, msg: Bytes, env: SignEnv)
    requires SessionCurrent(s) && env.opens
    ensures SignStep(s, file, msg, env).released == SignUncachedStep(s, file, msg, env).released
    ensures SignStep(s, file, msg, env).file == SignUncachedStep(s, file, msg, env).file
    ensures SignStep(s, file, msg, env).signer.(session := None)
            == SignUncachedStep(s.(session := None), file, msg, env).signer
    ensures SessionCurrent(SignStep(s, file, msg, env).signer)
  {
    if Remaining(s) > 0 && |s.state| == KEY_LEN {
      NextKeyLength(s.state, s.capacity);
    }
  }

  lemma NextKeyLength(key: Bytes, capacity: u64)
    requires |key| == KEY_LEN
    ensures |NextKey(key, capacity)| == KEY_LEN
  {
  }

  const Clean: SignEnv := SignEnv(true, true, NoFault)

  /** A call releases a signature exactly when a leaf is left, a session is open or opens on a whole
      key, the session signs, and the write ahead succeeds where there is a file; a call that
      releases nothing keeps key and position. */
  lemma SignReleasesIff(s: SignerState, file: Option<Entry>, msg: Bytes, env: SignEnv)
    requires SessionCurrent(s)
    ensures var o := SignStep(s, file, msg, env);
            && (o.released.Some? <==>
                  && s.used < s.capacity && (s.session.Some? || (env.opens && |s.state| == KEY_LEN)) && env.signs
                  && (file.Some? ==> env.write == NoFault))
            && (o.released.Some? ==> |s.state| == KEY_LEN && o.released.value == SignatureAt(s.state, msg))
            && (o.released.None? ==> o.signer.state == s.state && o.signer.used == s.used)
            && (o.released.None? && (file.None? || env.write == NoFault) ==> o.file == file)
  {
  }

  /** The session is kept over a call that releases and over one whose write fails, on the key the
      next call signs with, and dropped when it fails to sign. */
  lemma SessionKeptIff(s: SignerState, file: Option<Entry>, msg: Bytes, env: SignEnv)
    requires SessionCurrent(s) && s.used < s.capacity && (s.session.Some? || (env.opens && |s.state| == KEY_LEN))
    ensures var after := SignStep(s, file, msg, env).signer;
            && (after.session.Some? <==> env.signs)
            && (after.session.Some? ==> after.session.value == Session(after.state, None))
  {
  }

  /** A call with a durable write that fails releases nothing, and a retry that succeeds is as if
      it had never been made: same signature at the same leaf, same signer, and in the file the
      same content, alone, whatever the failed write left to be exposed. */
  lemma FailedWriteKeepsTheLeaf(s: SignerState, file: Entry, msg: Bytes, env: SignEnv)
    requires SessionCurrent(s) && env.write != NoFault
    ensures var failed := SignStep(s, Some(file), msg, env);
            && failed.released == None
            && SignStep(failed.signer, failed.file, msg, Clean) == SignStep(s, Some(file), msg, Clean)
    ensures Remaining(s) > 0 && |s.state| == KEY_LEN ==>
              SignStep(s, Some(file), msg, Clean).released == Some(SignatureAt(s.state, msg))
  {
    if |s.state| == KEY_LEN {
      NextKeyLength(s.state, s.capacity);
    }
  }
}
