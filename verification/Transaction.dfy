/** The `Transaction` object of scripts/ci/destructive_transaction_fixture.py, one file
    operation after another, as long as nothing interrupts it. */
module Transaction {
  import opened Text
  import opened TransactionFiles

  class Transaction {
    var files: Files
    var cleanupStarted: bool
    const pid: nat
    const sha: Data -> nat

    constructor (files: Files, pid: nat, sha: Data -> nat)
      ensures this.files == files && !cleanupStarted && this.pid == pid && this.sha == sha
    {
      this.files := files;
      this.cleanupStarted := false;
      this.pid := pid;
      this.sha := sha;
    }

    /** `_write_bytes`: exclusive creation beside the record, a loop that writes the rest of
        the payload as often as the system takes less than all of it, then one rename. */
    method WriteBytes(n: Name, data: Data, length: nat, replace: bool) returns (ok: bool)
      modifies `files
      ensures (files, ok) == Write(old(files), pid, n, data, replace)
    {
      var temporary := Temp(n, pid);
      TempIsNew(n, pid);
      if temporary in files { return false; }
      files := files[temporary := File(Part(data), true)];
      var written := 0;
      while written < length
        invariant 0 <= written <= length
        invariant files == old(files)[temporary := File(Part(data), true)]
      {
        var taken: nat :| 0 < taken <= length - written;
        written := written + taken;
      }
      files := files[temporary := File(data, true)];
      if !replace && Exists(files, n) {
        files := files - {temporary};
        assert files == old(files);
        return false;
      }
      files := (files - {temporary})[n := File(data, true)];
      assert files == old(files)[n := File(data, true)];
      ok := true;
    }

    method RemoveTransientMarkers() returns (ok: bool)
      modifies `files
      ensures (files, ok) == RemoveTransient(old(files))
    {
      var names := [Ready, Started, Continue];
      RemoveNamesIsRemoveTransient(files);
      assert names[0..] == names;
      var i := 0;
      while i < |names|
        invariant 0 <= i <= |names|
        invariant RemoveTransient(old(files)) == RemoveNames(files, names[i..])
      {
        var n := names[i];
        assert names[i..] == [n] + names[i + 1..];
        if Exists(files, n) || (n in files && files[n].Link?) {
          if files[n].Directory? { return false; }
          files := files - {n};
        }
        i := i + 1;
      }
      ok := true;
    }

    method FinishCleanup(trigger: Trigger, elapsed: real, receiptLength: nat, journalLength: nat) returns (ok: bool)
      modifies `files
      ensures (files, ok) == TransactionFiles.FinishCleanup(old(files), pid, trigger, elapsed, sha)
    {
      if Exists(files, Marker) {
        if !files[Marker].File? { return false; }
        files := files - {Marker};
      }
      ok := RemoveTransientMarkers();
      if !ok { return; }
      var residue := |files.Keys - {Sentinel, Journal}|;
      if elapsed > RTO_SECONDS { return false; }
      var receipt := ReceiptData(CleanupReceipt(Micros(elapsed), residue, residue == 0, trigger));
      ok := WriteBytes(Receipt, receipt, receiptLength, false);
      if !ok { return; }
      ok := WriteBytes(Journal, JournalData(Closed(sha(receipt), residue, trigger)), journalLength, true);
      if !ok { return; }
      ok := residue == 0 && files.Keys == {Sentinel, Journal, Receipt};
    }

    /** `recover`. The flag that defers signals is raised once cleanup is certain to start. */
    method Recover(elapsed: real, receiptLength: nat, journalLength: nat) returns (ok: bool)
      modifies this
      ensures (files, ok) == TransactionFiles.Recover(old(files), pid, elapsed, sha)
      ensures ok && ReadJournal(old(files)) == Some(Prepared) ==>
        files.Keys == {Sentinel, Journal, Receipt} && ClosedWith(files, 0, JournalRecovery, elapsed, sha)
      ensures cleanupStarted == (old(cleanupStarted) ||
                                 (ReadJournal(old(files)) == Some(Prepared) && !Exists(old(files), Receipt)))
    {
      match ReadJournal(files) {
        case None => return false;
        case Some(OtherJournal(_)) => return false;
        case Some(Closed(digest, residue, trigger)) =>
          ok := ClosedStateValid(files, Closed(digest, residue, trigger), sha);
        case Some(Prepared) =>
          if Exists(files, Receipt) { return false; }
          cleanupStarted := true;
          ok := FinishCleanup(JournalRecovery, elapsed, receiptLength, journalLength);
          RecoverSucceedsExactly(old(files), pid, elapsed, sha);
      }
    }

    /** `prepare`: journal, then marker, then the ready note. */
    method Prepare(lengths: (nat, nat, nat)) returns (ok: bool)
      modifies `files
      ensures ok <==> old(files).Keys == {Sentinel}
      ensures files == if ok then old(files)[Journal := File(JournalData(Prepared), true)]
                                            [Marker := File(MarkerText, true)]
                                            [Ready := File(ReadyText, true)]
                       else old(files)
    {
      if files.Keys != {Sentinel} { return false; }
      assert forall n :: Temp(n, pid) !in files.Keys;
      assert Journal !in files.Keys && Marker !in files.Keys && Ready !in files.Keys;
      ok := WriteBytes(Journal, JournalData(Prepared), lengths.0, false);
      ok := WriteBytes(Marker, MarkerText, lengths.1, false);
      ok := WriteBytes(Ready, ReadyText, lengths.2, false);
    }
  }

  lemma RemoveNamesIsRemoveTransient(files: Files)
    ensures RemoveNames(files, [Ready, Started, Continue]) == RemoveTransient(files)
  {
    var names := [Ready, Started, Continue];
    assert names[1..] == [Started, Continue];
    assert names[1..][1..] == [Continue];
    assert names[1..][1..][1..] == [];
    var (first, ok1) := RemoveOne(files, Ready);
    var (second, ok2) := RemoveOne(first, Started);
    assert RemoveNames(second, [Continue]) == RemoveOne(second, Continue);
    assert RemoveNames(first, [Started, Continue]) == if ok2 then RemoveOne(second, Continue) else (second, false);
  }

  /** The remaining removals of the transient markers. */
  function RemoveNames(files: Files, names: seq<Name>): (Files, bool) {
    if names == [] then (files, true)
    else
      var (after, ok) := RemoveOne(files, names[0]);
      if !ok then (after, false) else RemoveNames(after, names[1..])
  }
}
