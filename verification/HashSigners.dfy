/** The signer as an object over its state file. */
module HashSigners {
  import opened Machine
  import opened DurableFile
  import opened Signer

  class HashSigner {
    var state: Bytes
    var used: u64
    const capacity: u64
    var persist: StateFile?
    var session: Option<Session>

    constructor (key: Bytes, capacity: u64)
      ensures Value() == SignerState(key, 0, capacity, None)
      ensures persist == null
    {
      this.state, this.used, this.capacity, this.persist, this.session := key, 0, capacity, null, None;
    }

    function Value(): SignerState
      reads this
    {
      SignerState(state, used, capacity, session)
    }

    function File(): Option<Entry>
      reads this, persist
    {
      if persist == null then None else Some(persist.Contents())
    }

    method AttachPersistenceWithFloor(path: StateFile, floor: u64, found: bool, readable: bool) returns (ok: bool)
      modifies this
      ensures ok <==> AttachStep(old(Value()), path.Contents(), floor, found, readable).Some?
      ensures ok ==> Some(Value()) == AttachStep(old(Value()), path.Contents(), floor, found, readable) && persist == path
      ensures !ok ==> Value() == old(Value()) && persist == old(persist)
    {
      var resume: u64 := Max(used, floor);
      var fromFile: Option<Bytes> := None;
      match if found then Visible(path.Contents()) else None {
        case None =>
        case Some(blob) =>
          if !readable {
            return false;
          }
          if |blob| >= 8 {
            var fileUsed := FromLe64(blob[..8]);
            var inFile := blob[8..];
            resume := Max(Max(resume, fileUsed), CountOrZero(inFile));
            fromFile := Some(inFile);
          }
      }
      var base := if fromFile.Some? then fromFile.value else state;
      state := StateAt(base, resume);
      used := resume;
      session := None;
      persist := path;
      return true;
    }

    method Sign(msg: Bytes, env: SignEnv) returns (sig: Option<Signature>)
      modifies this, persist
      ensures persist == old(persist)
      ensures SignOutcome(Value(), File(), sig) == SignStep(old(Value()), old(File()), msg, env)
    {
      if Remaining(Value()) == 0 {
        return None;
      }
      if session.None? {
        var live := SessionOpen(state, env);
        if live.None? {
          return None;
        }
        session := live;
      }
      var signed := SessionSign(session.value, capacity, msg, env);
      if signed.None? {
        session := None;
        return None;
      }
      session := Some(signed.value.0);
      var next := session.value.pending.value;
      if persist != null {
        var ok := persist.WriteAtomic(EncodeBlob(used + 1, next), env.write);
        if !ok {
          session := Some(SessionRollback(session.value));
          return None;
        }
      }
      session := Some(SessionCommit(session.value));
      state := next;
      used := used + 1;
      return Some(signed.value.1);
    }

    method SignUncached(msg: Bytes, env: SignEnv) returns (sig: Option<Signature>)
      modifies this, persist
      ensures persist == old(persist)
      ensures SignOutcome(Value(), File(), sig) == SignUncachedStep(old(Value()), old(File()), msg, env)
    {
      if Remaining(Value()) == 0 {
        return None;
      }
      if !env.opens || !env.signs || |state| != KEY_LEN {
        return None;
      }
      var advanced := NextKey(state, capacity);
      sig := Some(SignatureAt(state, msg));
      if persist != null {
        var ok := persist.WriteAtomic(EncodeBlob(used + 1, advanced), env.write);
        if !ok {
          return None;
        }
      }
      state := advanced;
      used := used + 1;
      session := None;
    }
  }
}
