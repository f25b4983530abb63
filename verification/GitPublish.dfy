/** Publication by rename and directory sync, and the durable manifest writer, under arbitrary
    operation failures and crashes (internal/gitobj/materialize.go). */
module GitPublish {
  import opened Bytes

  // ------------------------------------------------------ renaming a directory

  datatype Place = AtStage | AtFinal

  datatype Outcome = Absent | Durable | Ambiguous

  /** Whether the directory moves, and whether the call reports an error: a rename may do either. */
  datatype RenameReply = RenameReply(moves: bool, reports: bool)
  {
    /** The report tells whether the directory moved. */
    predicate Honest() { moves == !reports }
  }

  /** A directory under one parent. `persisted` holds every place a crash may leave it at. A rename is
      atomic: it happens or not, whatever it reports. A sync of the parent that succeeds pins what is
      visible; one that fails pins nothing. */
  class Volume {
    const rename: nat -> RenameReply
    const syncFails: nat -> bool
    var renames: nat
    var syncs: nat
    var visible: Place
    ghost var persisted: set<Place>

    constructor (rename: nat -> RenameReply, syncFails: nat -> bool)
      ensures Staged()
    {
      this.rename, this.syncFails := rename, syncFails;
      renames, syncs := 0, 0;
      visible, persisted := AtStage, {AtStage};
    }

    ghost predicate Staged()
      reads this
    {
      visible == AtStage && persisted == {AtStage} && renames == 0 && syncs == 0
    }

    method Rename(target: Place) returns (ok: bool)
      modifies this`renames, this`visible, this`persisted
      ensures ok == !rename(old(renames)).reports && renames == old(renames) + 1
      ensures !rename(old(renames)).moves ==> visible == old(visible) && persisted == old(persisted)
      ensures rename(old(renames)).moves ==> visible == target && persisted == old(persisted) + {target}
    {
      var reply := rename(renames);
      renames := renames + 1;
      if reply.moves {
        visible, persisted := target, persisted + {target};
      }
      return !reply.reports;
    }

    method SyncParent() returns (ok: bool)
      modifies this`syncs, this`persisted
      ensures ok == !syncFails(old(syncs)) && syncs == old(syncs) + 1
      ensures persisted == if ok then {visible} else old(persisted)
    {
      ok := !syncFails(syncs);
      syncs := syncs + 1;
      if ok {
        persisted := {visible};
      }
    }

    /** DURABLE says that only the final name can survive a crash, ABSENT that only the staging name can.
        DURABLE is true exactly when the rename it trusts took effect; ABSENT after a failed rename exactly
        when that report was honest, ABSENT after a rollback exactly when the rollback took effect or there
        was nothing to roll back. With honest reports all three outcomes are exact. */
    method PublishStagedDirectory() returns (outcome: Outcome)
      requires Staged()
      modifies this
      ensures outcome == Durable <==> !rename(0).reports && !syncFails(0)
      ensures outcome == Absent <==> rename(0).reports || (syncFails(0) && !rename(1).reports && !syncFails(1))
      ensures outcome == Durable ==> (persisted == {AtFinal} && visible == AtFinal <==> rename(0).Honest())
      ensures outcome == Absent && rename(0).reports ==> (persisted == {AtStage} && visible == AtStage <==> rename(0).Honest())
      ensures outcome == Absent && !rename(0).reports ==>
        (persisted == {AtStage} && visible == AtStage <==> rename(1).Honest() || !rename(0).moves)
      ensures rename(0).Honest() && rename(1).Honest() ==>
        && (outcome == Durable <==> persisted == {AtFinal}) && (outcome == Absent <==> persisted == {AtStage})
        && (outcome == Ambiguous <==> persisted == {AtStage, AtFinal})
        && (outcome == Durable ==> visible == AtFinal) && (outcome == Absent ==> visible == AtStage)
    {
      var ok := Rename(AtFinal);
      if !ok {
        return Absent;
      }
      ok := SyncParent();
      if ok {
        return Durable;
      }
      ok := Rename(AtStage);
      if !ok {
        return Ambiguous;
      }
      ok := SyncParent();
      if !ok {
        return Ambiguous;
      }
      return Absent;
    }
  }

  // ------------------------------------------------------- the manifest writer

  datatype WriteReply = WriteReply(count: int, failed: bool)

  /** Whether the file goes away, and whether the call reports an error: a removal may do either. */
  datatype RemoveReply = RemoveReply(removes: bool, reports: bool)

  datatype FileOps = FileOps(
    openFails: bool, write: nat -> WriteReply, chmodFails: bool, syncFails: bool, closeFails: nat -> bool,
    remove: RemoveReply, parentSyncFails: nat -> bool, lstatFails: bool)

  datatype WriterResult = Stored | WriteFailed | WriteAmbiguous

  /** How much is written after `k` calls, while every call makes honest progress. */
  function Written(ops: FileOps, size: nat, k: nat): Option<nat>
  {
    if k == 0 then Some(0)
    else
      var before := Written(ops, size, k - 1);
      if before.None? || before.value >= size then None
      else
        var reply := ops.write(k - 1);
        if reply.failed || reply.count <= 0 || reply.count > size - before.value then None
        else Some(before.value + reply.count)
  }

  /** The writes bring in all bytes. */
  ghost predicate Completes(ops: FileOps, size: nat)
  {
    exists k: nat :: Written(ops, size, k) == Some(size)
  }

  lemma {:induction false} WrittenEarlier(ops: FileOps, size: nat, j: nat, k: nat)
    requires j < k && Written(ops, size, k).Some?
    ensures Written(ops, size, j).Some? && Written(ops, size, j).value < size
  {
    if j < k - 1 {
      WrittenEarlier(ops, size, j, k - 1);
    }
  }

  /** A call without progress is the end of it. */
  lemma Stuck(ops: FileOps, size: nat, k: nat)
    requires Written(ops, size, k).Some? && Written(ops, size, k).value < size && Written(ops, size, k + 1).None?
    ensures !Completes(ops, size)
  {
    if j: nat :| Written(ops, size, j) == Some(size) {
      if j < k {
        WrittenEarlier(ops, size, j, k);
      } else if j > k {
        if j > k + 1 {
          WrittenEarlier(ops, size, k + 1, j);
        }
      }
    }
  }

  /** Nothing on the way of a durable file fails. */
  ghost predicate Undisturbed(ops: FileOps, size: nat)
  {
    && !ops.openFails && Completes(ops, size) && !ops.chmodFails && !ops.syncFails && !ops.closeFails(0)
    && !ops.parentSyncFails(0)
  }

  /** The cleanup that can prove absence: the file goes, the sync of its parent (the first one, or the
      second after a failed first) succeeds, and the name is seen to be gone. */
  predicate CleansUp(ops: FileOps)
  {
    ops.remove.removes && !ops.lstatFails && (!ops.parentSyncFails(0) || !ops.parentSyncFails(1))
  }

  /** One name in one directory. `persisted` holds whether a crash may leave the name present;
      `contentSynced` whether the bytes are on disk. */
  class ManifestFile {
    const ops: FileOps
    var linked: bool
    var content: bytes
    var writes: nat
    var closes: nat
    var parentSyncs: nat
    ghost var persisted: set<bool>
    ghost var contentSynced: bool

    constructor (ops: FileOps)
      ensures this.ops == ops && Nothing()
    {
      this.ops := ops;
      linked, content := false, [];
      writes, closes, parentSyncs := 0, 0, 0;
      persisted, contentSynced := {false}, false;
    }

    /** No such file, now or after a crash. */
    ghost predicate Nothing()
      reads this
    {
      !linked && persisted == {false} && content == [] && writes == 0 && closes == 0 && parentSyncs == 0
    }

    method Open() returns (ok: bool)
      requires Nothing()
      modifies this`linked, this`persisted
      ensures ok == !ops.openFails
      ensures ok ==> linked && persisted == {false, true}
      ensures !ok ==> Nothing()
    {
      ok := !ops.openFails;
      if ok {
        linked, persisted := true, persisted + {true};
      }
    }

    /** A write may take any part of the chunk and lie about it only outside its range. */
    method Write(chunk: bytes) returns (reply: WriteReply)
      requires linked
      modifies this`content, this`writes, this`contentSynced
      ensures reply == ops.write(old(writes)) && writes == old(writes) + 1
      ensures 0 <= reply.count <= |chunk| ==> content == old(content) + chunk[..reply.count]
    {
      reply := ops.write(writes);
      writes := writes + 1;
      contentSynced := false;
      if 0 <= reply.count <= |chunk| {
        content := content + chunk[..reply.count];
      }
    }

    method SyncContent() returns (ok: bool)
      modifies this`contentSynced
      ensures ok == !ops.syncFails && (ok ==> contentSynced)
    {
      ok := !ops.syncFails;
      if ok {
        contentSynced := true;
      }
    }

    method Close() returns (ok: bool)
      modifies this`closes
      ensures ok == !ops.closeFails(old(closes)) && closes == old(closes) + 1
    {
      ok := !ops.closeFails(closes);
      closes := closes + 1;
    }

    method SyncParent() returns (ok: bool)
      modifies this`parentSyncs, this`persisted
      ensures ok == !ops.parentSyncFails(old(parentSyncs)) && parentSyncs == old(parentSyncs) + 1
      ensures persisted == if ok then {linked} else old(persisted)
    {
      ok := !ops.parentSyncFails(parentSyncs);
      parentSyncs := parentSyncs + 1;
      if ok {
        persisted := {linked};
      }
    }

    method Remove() returns (ok: bool)
      modifies this`linked, this`persisted
      ensures linked == (old(linked) && !ops.remove.removes)
      ensures persisted >= old(persisted) && (!linked || old(linked))
    {
      if ops.remove.removes {
        linked, persisted := false, persisted + {false};
      }
      return !ops.remove.reports;
    }

    /** Says that the name does not exist only when it does not. */
    method LstatNotExist() returns (absent: bool)
      ensures absent == (!linked && !ops.lstatFails)
    {
      absent := !linked && !ops.lstatFails;
    }

    /** `cleanupDurableExclusiveFile`: true only when the absence is seen and pinned. */
    method Cleanup() returns (absenceDurable: bool)
      requires linked
      modifies this`linked, this`persisted, this`parentSyncs
      ensures linked == !ops.remove.removes
      ensures absenceDurable == (ops.remove.removes && !ops.lstatFails && !ops.parentSyncFails(old(parentSyncs)))
      ensures absenceDurable ==> !linked && persisted == {false}
    {
      var removed := Remove();
      var synced := SyncParent();
      var absent := LstatNotExist();
      return absent && synced;
    }

    /** `durableExclusiveFileFailure`. */
    method Fail(open: bool) returns (result: WriterResult)
      requires linked
      modifies this`linked, this`persisted, this`parentSyncs, this`closes
      ensures result == WriteFailed || result == WriteAmbiguous
      ensures linked == !ops.remove.removes
      ensures result == WriteFailed <==> ops.remove.removes && !ops.lstatFails && !ops.parentSyncFails(old(parentSyncs))
      ensures result == WriteFailed ==> !linked && persisted == {false}
    {
      if open {
        var closed := Close();
      }
      var absent := Cleanup();
      return if absent then WriteFailed else WriteAmbiguous;
    }

    /** The write loop: short writes go on, a failed, idle or lying one ends it. */
    method WriteAll(data: bytes) returns (ok: bool)
      requires linked && content == [] && writes == 0
      modifies this`content, this`writes, this`contentSynced
      ensures ok <==> Completes(ops, |data|)
      ensures ok ==> content == data
    {
      var written := 0;
      while written < |data|
        invariant written <= |data| && content == data[..written]
        invariant Written(ops, |data|, writes) == Some(written)
        decreases |data| - written
      {
        var reply := Write(data[written..]);
        if reply.count < 0 || reply.count > |data| - written {
          Stuck(ops, |data|, writes - 1);
          return false;
        }
        if reply.failed || reply.count == 0 {
          Stuck(ops, |data|, writes - 1);
          return false;
        }
        assert data[..written] + data[written..][..reply.count] == data[..written + reply.count];
        written := written + reply.count;
      }
      assert data[..|data|] == data;
      return true;
    }

    /** Under any mix of short, lying and failing operations: a stored manifest is there, whole and
        durable; a failed one is durably not there. Everything else is reported as ambiguous. */
    method WriteDurable(data: bytes) returns (result: WriterResult)
      requires Nothing()
      modifies this
      ensures result == Stored <==> Undisturbed(ops, |data|)
      ensures result == Stored ==> linked && persisted == {true} && contentSynced && content == data
      ensures result == WriteAmbiguous ==> linked || ops.lstatFails || exists k: nat :: ops.parentSyncFails(k)
      ensures !ops.openFails && result == WriteFailed ==> CleansUp(ops)
      ensures result == WriteFailed ==> !linked && persisted == {false}
    {
      hide Completes;
      var ok := Open();
      if !ok {
        return WriteFailed;
      }
      ok := WriteAll(data);
      if !ok {
        result := Fail(true);
        return;
      }
      if ops.chmodFails {
        result := Fail(true);
        return;
      }
      ok := SyncContent();
      if !ok {
        result := Fail(true);
        return;
      }
      ok := Close();
      if !ok {
        result := Fail(true);
        return;
      }
      ok := SyncParent();
      if !ok {
        result := Fail(false);
        return;
      }
      return Stored;
    }
  }

  /** `writeDurableExclusiveFile` on a name that is free. */
  method WriteDurableExclusiveFile(ops: FileOps, data: bytes) returns (result: WriterResult, present: bool, stored: bytes)
    ensures result == Stored <==> Undisturbed(ops, |data|)
    ensures result == Stored ==> present && stored == data
    ensures result == WriteFailed ==> !present
  {
    var file := new ManifestFile(ops);
    result := file.WriteDurable(data);
    present, stored := file.linked, file.content;
  }
}
