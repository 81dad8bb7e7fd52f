/** The durable atomic write: temp file, write, fsync, rename, directory fsync. What a crash
    can bring back is the last synced directory entry or any entry renamed since. */
module DurableFile {
  import opened Machine

  /** The step at which one write fails, if any. */
  datatype Fault = NoFault | CreateFails | WriteFails | SyncFails | RenameFails | DirSyncFails

  /** The directory entry of one path: its content on stable storage, and the contents
      renamed over it since the last directory fsync, oldest first. */
  datatype Entry = Entry(durable: Option<Bytes>, renamed: seq<Bytes>)

  /** What the running process reads. */
  function Visible(e: Entry): Option<Bytes> {
    if e.renamed == [] then e.durable else Some(e.renamed[|e.renamed| - 1])
  }

  /** What the `k`-th outcome of a crash leaves under the path. */
  function Exposed(e: Entry, k: nat): Option<Bytes> {
    if k < |e.renamed| then Some(e.renamed[k]) else e.durable
  }

  ghost predicate MayExpose(e: Entry, c: Option<Bytes>) {
    exists k :: Exposed(e, k) == c
  }

  /** The entry after one write of `bytes` that stops at `fault`. */
  function WriteEffect(e: Entry, bytes: Bytes, fault: Fault): Entry {
    match fault
    case NoFault => Entry(Some(bytes), [])
    case DirSyncFails => Entry(e.durable, e.renamed + [bytes])
    case _ => e
  }

  /** What a write leaves for a crash to find. A write that reports success leaves exactly
      the new bytes after any crash; one that reports failure may leave the new bytes or
      anything that could have been left before, and nothing else; and the running process
      never sees a mixture. */
  lemma WriteIsAtomicAndDurable(e: Entry, bytes: Bytes, fault: Fault, c: Option<Bytes>)
    ensures fault == NoFault ==> (MayExpose(WriteEffect(e, bytes, fault), c) <==> c == Some(bytes))
    ensures fault != NoFault && MayExpose(WriteEffect(e, bytes, fault), c) ==> MayExpose(e, c) || c == Some(bytes)
    ensures fault != NoFault && MayExpose(e, c) ==> MayExpose(WriteEffect(e, bytes, fault), c)
    ensures Visible(WriteEffect(e, bytes, fault)) in {Visible(e), Some(bytes)}
  {
    var after := WriteEffect(e, bytes, fault);
    if fault == NoFault {
      assert Exposed(after, 0) == Some(bytes);
    }
    if fault == DirSyncFails {
      if MayExpose(after, c) {
        var k: nat :| Exposed(after, k) == c;
        assert Exposed(e, k) == c || c == Some(bytes);
      }
      if MayExpose(e, c) {
        var k: nat :| Exposed(e, k) == c;
        assert Exposed(after, if k < |e.renamed| then k else |e.renamed| + 1) == c;
      }
    }
  }

  /** And to the last case: only the last step can fail with the file already replaced, for every
      reader and perhaps for good; a failure before it changes nothing at all. */
  lemma FailedWriteLeavesExactly(e: Entry, bytes: Bytes, fault: Fault, c: Option<Bytes>)
    ensures fault == DirSyncFails ==> Visible(WriteEffect(e, bytes, fault)) == Some(bytes)
    ensures fault == DirSyncFails ==> (MayExpose(WriteEffect(e, bytes, fault), c) <==> MayExpose(e, c) || c == Some(bytes))
    ensures fault != DirSyncFails && fault != NoFault ==> WriteEffect(e, bytes, fault) == e
  {
    WriteIsAtomicAndDurable(e, bytes, fault, c);
    if fault == DirSyncFails {
      assert Exposed(WriteEffect(e, bytes, fault), |e.renamed|) == Some(bytes);
    }
  }

  lemma VisibleMayBeExposed(e: Entry)
    ensures MayExpose(e, Visible(e))
  {
    assert Exposed(e, if e.renamed == [] then 0 else |e.renamed| - 1) == Visible(e);
  }

  class StateFile {
    var durable: Option<Bytes>
    var renamed: seq<Bytes>
    var tmp: Option<Bytes>

    constructor (content: Option<Bytes>)
      ensures Contents() == Entry(content, [])
    {
      durable, renamed, tmp := content, [], None;
    }

    function Contents(): Entry
      reads this
    {
      Entry(durable, renamed)
    }

    /** One write; `fault` says which of its file-system calls fails. */
    method WriteAtomic(bytes: Bytes, fault: Fault) returns (ok: bool)
      modifies this
      ensures Contents() == WriteEffect(old(Contents()), bytes, fault)
      ensures ok <==> fault == NoFault
    {
      if fault == CreateFails {
        return false;
      }
      tmp := Some([]);
      if fault == WriteFails {
        return false;
      }
      tmp := Some(bytes);
      if fault == SyncFails {
        return false;
      }
      if fault == RenameFails {
        return false;
      }
      renamed := renamed + [tmp.value];
      tmp := None;
      ok := SyncParentDir(fault);
    }

    method SyncParentDir(fault: Fault) returns (ok: bool)
      modifies this
      ensures ok <==> fault != DirSyncFails
      ensures Contents() == if ok then Entry(Visible(old(Contents())), []) else old(Contents())
    {
      if fault == DirSyncFails {
        return false;
      }
      durable := Visible(Contents());
      renamed := [];
      return true;
    }
  }
}
