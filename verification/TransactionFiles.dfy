/** The fixture directory of scripts/ci/destructive_transaction_fixture.py as a map from
    names to entries, and the effect of each uninterrupted operation on it. */
module TransactionFiles {
  import opened Text

  datatype Name =
    | Sentinel | Journal | Marker | Ready | Started | Continue | Receipt
    | Temp(of: Name, pid: nat)   // `.name.tmp-pid`
    | Foreign(id: nat)

  datatype Trigger = JournalRecovery | SignalHup | SignalInt | SignalTerm

  datatype JournalRecord =
    | Prepared
    | Closed(digest: nat, residue: nat, trigger: Trigger)
    | OtherJournal(id: nat)      // any other JSON object

  datatype ReceiptRecord =
    | CleanupReceipt(seconds: real, residue: nat, verified: bool, trigger: Trigger)
    | OtherReceipt(id: nat)

  datatype Data =
    | SentinelText | MarkerText | ReadyText | StartedText
    | JournalData(journal: JournalRecord)
    | ReceiptData(receipt: ReceiptRecord)
    | Part(whole: Data)          // a payload that is not completely written
    | Junk(id: nat)

  /** A link counts as existing only while its target does. */
  datatype Entry = File(data: Data, owned: bool) | Link(alive: bool) | Directory

  type Files = map<Name, Entry>

  /** Time that has passed. */
  type Seconds = s: real | 0.0 <= s witness 0.0

  const RTO_SECONDS := 5.0

  const TRANSIENT: set<Name> := {Ready, Started, Continue}

  /** `Path.exists`. */
  predicate Exists(files: Files, n: Name) {
    n in files && files[n] != Link(false)
  }

  /** A private regular file with exactly this content. */
  predicate Holds(files: Files, n: Name, data: Data) {
    n in files && files[n] == File(data, true)
  }

  /** The nearest integer, and of two the even one. */
  function Nearest(x: real): int {
    var low := x.Floor;
    var rest := x - low as real;
    if rest < 0.5 || (rest == 0.5 && low % 2 == 0) then low else low + 1
  }

  /** `round(elapsed, 6)`. */
  function Micros(seconds: real): real {
    Nearest(seconds * 1000000.0) as real / 1000000.0
  }

  /** `k` millionths are nearest to the elapsed time. */
  predicate Millionths(k: int, seconds: real, elapsed: real) {
    seconds == k as real / 1000000.0 && -0.5 <= k as real - elapsed * 1000000.0 <= 0.5
  }

  /** The seconds are a whole number of millionths, at most half a millionth off. */
  ghost predicate Times(seconds: real, elapsed: real) {
    exists k: int :: Millionths(k, seconds, elapsed)
  }

  lemma MicrosTimes(seconds: real)
    ensures Times(Micros(seconds), seconds)
  {
    assert Millionths(Nearest(seconds * 1000000.0), Micros(seconds), seconds);
  }

  lemma MicrosBounded(seconds: real)
    requires 0.0 <= seconds <= RTO_SECONDS
    ensures 0.0 <= Micros(seconds) <= RTO_SECONDS
  {
    var scaled := seconds * 1000000.0;
    assert 0.0 <= scaled <= 5000000.0;
    assert 0 <= Nearest(scaled) <= 5000000;
  }

  /** The data is the receipt of a cleanup that left so many entries and took that long. */
  ghost predicate Reports(data: Data, residue: nat, trigger: Trigger, elapsed: real) {
    && data.ReceiptData? && data.receipt.CleanupReceipt?
    && data.receipt.residue == residue && (data.receipt.verified <==> residue == 0)
    && data.receipt.trigger == trigger && Times(data.receipt.seconds, elapsed)
  }

  lemma ReceiptReports(residue: nat, trigger: Trigger, elapsed: real)
    ensures Reports(ReceiptFor(residue, trigger, elapsed), residue, trigger, elapsed)
  {
    MicrosTimes(elapsed);
  }

  /** A private receipt of such a cleanup, and the private journal closed over it. */
  ghost predicate ClosedWith(files: Files, residue: nat, trigger: Trigger, elapsed: real, sha: Data -> nat) {
    && Receipt in files && files[Receipt].File? && files[Receipt].owned
    && Reports(files[Receipt].data, residue, trigger, elapsed)
    && Holds(files, Journal, JournalData(Closed(sha(files[Receipt].data), residue, trigger)))
  }

  lemma TempIsNew(n: Name, pid: nat)
    ensures n != Temp(n, pid)
  {
    assert n < Temp(n, pid);
  }

  // --------------------------------------------------------------------------
  // Uninterrupted operations; the flag is false when the operation raises

  /** `_write_bytes`. The temporary name must be free; an existing record is not replaced
      unless the caller says so. */
  function Write(files: Files, pid: nat, n: Name, data: Data, replace: bool): (Files, bool) {
    if Temp(n, pid) in files then (files, false)
    else if !replace && Exists(files, n) then (files, false)
    else (files[n := File(data, true)], true)
  }

  function RemoveOne(files: Files, n: Name): (Files, bool) {
    if n !in files then (files, true)
    else if files[n].Directory? then (files, false)
    else (files - {n}, true)
  }

  /** `_remove_transient_markers`. */
  function RemoveTransient(files: Files): (Files, bool) {
    var (first, ok1) := RemoveOne(files, Ready);
    if !ok1 then (first, false)
    else
      var (second, ok2) := RemoveOne(first, Started);
      if !ok2 then (second, false) else RemoveOne(second, Continue)
  }

  /** The removal of the mutation marker. */
  function RemoveMarker(files: Files): (Files, bool) {
    if !Exists(files, Marker) then (files, true)
    else if !files[Marker].File? then (files, false)
    else (files - {Marker}, true)
  }

  function Residue(files: Files): nat {
    |files.Keys - {Sentinel, Journal}|
  }

  function ReceiptFor(residue: nat, trigger: Trigger, elapsed: real): Data {
    ReceiptData(CleanupReceipt(Micros(elapsed), residue, residue == 0, trigger))
  }

  /** The second half of `_finish_cleanup`: receipt, then journal, then the final look. */
  function Publish(files: Files, pid: nat, trigger: Trigger, elapsed: real, sha: Data -> nat): (Files, bool) {
    var residue := Residue(files);
    if elapsed > RTO_SECONDS then (files, false)
    else
      var receipt := ReceiptFor(residue, trigger, elapsed);
      var (published, ok) := Write(files, pid, Receipt, receipt, false);
      if !ok then (published, false)
      else
        var closed := JournalData(Closed(sha(receipt), residue, trigger));
        var (done, ok2) := Write(published, pid, Journal, closed, true);
        if !ok2 then (done, false)
        else (done, residue == 0 && done.Keys == {Sentinel, Journal, Receipt})
  }

  /** The first half of `_finish_cleanup`. */
  function Sweep(files: Files): (Files, bool) {
    var (unmarked, ok) := RemoveMarker(files);
    if !ok then (unmarked, false) else RemoveTransient(unmarked)
  }

  /** `_finish_cleanup`. */
  function FinishCleanup(files: Files, pid: nat, trigger: Trigger, elapsed: real, sha: Data -> nat): (Files, bool) {
    var (swept, ok) := Sweep(files);
    if !ok then (swept, false) else Publish(swept, pid, trigger, elapsed, sha)
  }

  /** `_validate_closed_state`, for the journal record that was read. */
  predicate ClosedStateValid(files: Files, journal: JournalRecord, sha: Data -> nat) {
    && Receipt in files && files[Receipt].File? && files[Receipt].owned
    && files[Receipt].data.ReceiptData? && files[Receipt].data.receipt.CleanupReceipt?
    && (var r := files[Receipt].data.receipt;
        && r.residue == 0 && r.verified && 0.0 <= r.seconds <= RTO_SECONDS
        && journal == Closed(sha(files[Receipt].data), 0, r.trigger))
    && files.Keys == {Sentinel, Journal, Receipt} && !Exists(files, Marker)
    && Journal in files && files[Journal].File? && files[Journal].owned
  }

  /** The journal record, if the journal is a private regular file holding one. */
  function ReadJournal(files: Files): Option<JournalRecord> {
    if Journal in files && files[Journal].File? && files[Journal].owned && files[Journal].data.JournalData?
    then Some(files[Journal].data.journal)
    else None
  }

  /** `recover`. */
  function Recover(files: Files, pid: nat, elapsed: real, sha: Data -> nat): (Files, bool) {
    match ReadJournal(files)
    case None => (files, false)
    case Some(Closed(digest, residue, trigger)) =>
      (files, ClosedStateValid(files, Closed(digest, residue, trigger), sha))
    case Some(OtherJournal(_)) => (files, false)
    case Some(Prepared) =>
      if Exists(files, Receipt) then (files, false)
      else FinishCleanup(files, pid, JournalRecovery, elapsed, sha)
  }

  // --------------------------------------------------------------------------
  // What recovery does

  /** The names recovery itself may create, replace or remove. */
  predicate Own(n: Name) {
    n == Journal || n == Receipt || Swept(n)
  }

  predicate Swept(n: Name) {
    n == Marker || n == Ready || n == Started || n == Continue
  }

  predicate SameAt(before: Files, after: Files, n: Name) {
    (n in after <==> n in before) && (n in before ==> after[n] == before[n])
  }

  lemma RemoveOneEffect(files: Files, gone: Name)
    ensures var (after, ok) := RemoveOne(files, gone);
            && after.Keys == (if ok then files.Keys - {gone} else files.Keys)
            && (ok <==> !(gone in files && files[gone].Directory?))
            && forall n :: n != gone ==> SameAt(files, after, n)
  {
  }

  lemma RemoveTransientEffect(files: Files)
    ensures var (after, ok) := RemoveTransient(files);
            && (ok <==> forall n :: n in TRANSIENT && n in files ==> !files[n].Directory?)
            && (ok ==> after.Keys == files.Keys - TRANSIENT)
            && forall n :: n !in TRANSIENT ==> SameAt(files, after, n)
  {
    RemoveOneEffect(files, Ready);
    var (first, ok1) := RemoveOne(files, Ready);
    if ok1 {
      RemoveOneEffect(first, Started);
      var (second, ok2) := RemoveOne(first, Started);
      if ok2 {
        RemoveOneEffect(second, Continue);
        assert SameAt(first, second, Continue) && SameAt(files, first, Continue) && SameAt(files, first, Started);
      } else {
        assert SameAt(files, first, Started);
      }
    }
  }

  /** What the sweep needs in order to succeed. */
  predicate Sweepable(files: Files) {
    && (Exists(files, Marker) ==> files[Marker].File?)
    && forall n :: n in TRANSIENT && n in files ==> !files[n].Directory?
  }

  function SweptKeys(files: Files): set<Name> {
    files.Keys - TRANSIENT - (if Marker in files && files[Marker].File? then {Marker} else {})
  }

  lemma SweepEffect(files: Files)
    ensures var (after, ok) := Sweep(files);
            && (ok <==> Sweepable(files))
            && (ok ==> after.Keys == SweptKeys(files))
            && (forall n :: !Swept(n) ==> SameAt(files, after, n))
            && (Marker in files && files[Marker].File? ==> Marker !in after)
  {
    var (unmarked, ok) := RemoveMarker(files);
    if ok {
      RemoveTransientEffect(unmarked);
      var (after, _) := RemoveTransient(unmarked);
      forall n | !Swept(n) ensures SameAt(files, after, n) {
        assert SameAt(unmarked, after, n);
      }
      assert SameAt(unmarked, after, Marker);
    }
  }

  lemma PublishEffect(files: Files, pid: nat, trigger: Trigger, elapsed: real, sha: Data -> nat)
    ensures var (after, ok) := Publish(files, pid, trigger, elapsed, sha);
            forall n :: n != Journal && n != Receipt ==> SameAt(files, after, n)
  {
  }

  /** No entry that recovery does not own is created, changed or deleted, whatever the
      directory holds and however recovery ends. */
  lemma RecoverSparesForeign(files: Files, pid: nat, elapsed: real, sha: Data -> nat, n: Name)
    requires !Own(n)
    ensures SameAt(files, Recover(files, pid, elapsed, sha).0, n)
  {
    SweepEffect(files);
    var swept := Sweep(files).0;
    PublishEffect(swept, pid, JournalRecovery, elapsed, sha);
    assert SameAt(files, swept, n);
    assert SameAt(swept, Publish(swept, pid, JournalRecovery, elapsed, sha).0, n);
  }

  /** On a prepared journal without a receipt a regular marker file is gone afterwards,
      also when recovery goes on to fail. */
  lemma RecoverRemovesMarker(files: Files, pid: nat, elapsed: real, sha: Data -> nat)
    requires ReadJournal(files) == Some(Prepared) && !Exists(files, Receipt)
    requires Marker in files && files[Marker].File?
    ensures Marker !in Recover(files, pid, elapsed, sha).0
  {
    SweepEffect(files);
    var swept := Sweep(files).0;
    PublishEffect(swept, pid, JournalRecovery, elapsed, sha);
    assert SameAt(swept, Publish(swept, pid, JournalRecovery, elapsed, sha).0, Marker);
  }

  /** Nothing beyond the sentinel, the journal, a regular marker and transient non-directories. */
  predicate OnlyKnownEntries(files: Files) {
    && Sentinel in files
    && files.Keys <= {Sentinel, Journal, Marker} + TRANSIENT
    && (Marker in files ==> files[Marker].File?)
    && forall n :: n in TRANSIENT && n in files ==> !files[n].Directory?
  }

  lemma ResidueIsZero(files: Files)
    ensures Residue(files) == 0 <==> files.Keys <= {Sentinel, Journal}
  {
    if Residue(files) == 0 {
      assert files.Keys - {Sentinel, Journal} == {};
    }
  }

  lemma OnlyKnownEntriesSwept(files: Files)
    requires Journal in files
    ensures OnlyKnownEntries(files) <==> Sweepable(files) && SweptKeys(files) == {Sentinel, Journal}
  {
    if Sweepable(files) && SweptKeys(files) == {Sentinel, Journal} {
      forall n | n in files ensures n in {Sentinel, Journal, Marker} + TRANSIENT {
        assert n !in SweptKeys(files) ==> n in TRANSIENT || n == Marker;
      }
      assert Sentinel in SweptKeys(files);
      assert Marker !in SweptKeys(files);
    }
    if OnlyKnownEntries(files) {
      assert SweptKeys(files) == {Sentinel, Journal};
    }
  }

  /** Publication from a swept directory that still has its journal. */
  lemma PublishSucceedsExactly(files: Files, pid: nat, trigger: Trigger, elapsed: real, sha: Data -> nat)
    requires Journal in files
    ensures var (after, ok) := Publish(files, pid, trigger, elapsed, sha);
            && (ok <==> elapsed <= RTO_SECONDS && files.Keys == {Sentinel, Journal})
            && (ok ==> after.Keys == {Sentinel, Journal, Receipt})
            && (ok ==> Holds(after, Receipt, ReceiptFor(0, trigger, elapsed)))
            && (ok ==> Holds(after, Journal, JournalData(Closed(sha(ReceiptFor(0, trigger, elapsed)), 0, trigger))))
  {
    var (after, ok) := Publish(files, pid, trigger, elapsed, sha);
    ResidueIsZero(files);
    if files.Keys == {Sentinel, Journal} {
      assert Temp(Receipt, pid) !in files.Keys && Receipt !in files.Keys && Temp(Journal, pid) !in files.Keys;
    }
    if ok {
      assert after.Keys == files.Keys + {Receipt, Journal};
      assert Sentinel in after.Keys;
    }
  }

  /** Recovery of a prepared journal succeeds exactly when, within the time bound, nothing
      but known entries was there; then the sentinel, the journal and the receipt remain. */
  lemma RecoverSucceedsExactly(files: Files, pid: nat, elapsed: real, sha: Data -> nat)
    requires ReadJournal(files) == Some(Prepared)
    ensures var (after, ok) := Recover(files, pid, elapsed, sha);
            && (ok <==> elapsed <= RTO_SECONDS && OnlyKnownEntries(files))
            && (ok ==> after.Keys == {Sentinel, Journal, Receipt})
            && (ok ==> ClosedWith(after, 0, JournalRecovery, elapsed, sha))
  {
    RecoverPublishes(files, pid, elapsed, sha);
    ReceiptReports(0, JournalRecovery, elapsed);
  }

  lemma RecoverPublishes(files: Files, pid: nat, elapsed: real, sha: Data -> nat)
    requires ReadJournal(files) == Some(Prepared)
    ensures var (after, ok) := Recover(files, pid, elapsed, sha);
            && (ok <==> elapsed <= RTO_SECONDS && OnlyKnownEntries(files))
            && (ok ==> after.Keys == {Sentinel, Journal, Receipt})
            && (ok ==> Holds(after, Receipt, ReceiptFor(0, JournalRecovery, elapsed)))
            && (ok ==> Holds(after, Journal,
                         JournalData(Closed(sha(ReceiptFor(0, JournalRecovery, elapsed)), 0, JournalRecovery))))
  {
    OnlyKnownEntriesSwept(files);
    SweepEffect(files);
    var (swept, ok) := Sweep(files);
    if Exists(files, Receipt) {
      assert Receipt in files.Keys && !OnlyKnownEntries(files);
    } else if ok {
      assert SameAt(files, swept, Journal);
      PublishSucceedsExactly(swept, pid, JournalRecovery, elapsed, sha);
    }
  }

  /** Recovery is idempotent: after it has succeeded, a second one succeeds and changes nothing. */
  lemma SecondRecoverIsNoOp(
    files: Files, pid: nat, elapsed: real, laterPid: nat, laterElapsed: real, sha: Data -> nat)
    requires Recover(files, pid, elapsed, sha).1 && 0.0 <= elapsed
    ensures var after := Recover(files, pid, elapsed, sha).0;
            Recover(after, laterPid, laterElapsed, sha) == (after, true)
  {
    if ReadJournal(files) == Some(Prepared) {
      RecoverPublishes(files, pid, elapsed, sha);
      MicrosBounded(elapsed);
      var after := Recover(files, pid, elapsed, sha).0;
      ClosedIsStable(after, Micros(elapsed), JournalRecovery, laterPid, laterElapsed, sha);
    }
  }

  lemma ClosedIsStable(
    files: Files, seconds: real, trigger: Trigger, pid: nat, elapsed: real, sha: Data -> nat)
    requires 0.0 <= seconds <= RTO_SECONDS && files.Keys == {Sentinel, Journal, Receipt}
    requires var receipt := ReceiptData(CleanupReceipt(seconds, 0, true, trigger));
             Holds(files, Receipt, receipt) && Holds(files, Journal, JournalData(Closed(sha(receipt), 0, trigger)))
    ensures Recover(files, pid, elapsed, sha) == (files, true)
  {
    assert Marker !in files.Keys;
  }

  /** A closed directory: three private entries, the journal closed over the receipt of a
      cleanup in time that left nothing. */
  predicate ClosedDirectory(files: Files, seconds: real, trigger: Trigger, sha: Data -> nat) {
    var receipt := ReceiptData(CleanupReceipt(seconds, 0, true, trigger));
    && files.Keys == {Sentinel, Journal, Receipt} && 0.0 <= seconds <= RTO_SECONDS
    && Holds(files, Receipt, receipt) && Holds(files, Journal, JournalData(Closed(sha(receipt), 0, trigger)))
  }

  /** Of all directories with a closed journal, recovery accepts exactly these, and it changes none. */
  lemma ClosedAcceptedExactly(files: Files, pid: nat, elapsed: real, sha: Data -> nat)
    requires ReadJournal(files).Some? && ReadJournal(files).value.Closed?
    ensures Recover(files, pid, elapsed, sha).0 == files
    ensures Recover(files, pid, elapsed, sha).1 <==>
            exists seconds, trigger :: ClosedDirectory(files, seconds, trigger, sha)
  {
    if Recover(files, pid, elapsed, sha).1 {
      var r := files[Receipt].data.receipt;
      assert ClosedDirectory(files, r.seconds, r.trigger, sha);
    }
    if seconds, trigger :| ClosedDirectory(files, seconds, trigger, sha) {
      assert Marker !in files.Keys && Receipt in files.Keys && Journal in files.Keys;
    }
  }

  /** After recovery failed, a later one in time succeeds exactly when the failed one
      published nothing and nothing foreign is left. */
  lemma RetrySucceedsExactly(files: Files, pid: nat, elapsed: real, laterPid: nat, laterElapsed: real, sha: Data -> nat)
    requires ReadJournal(files) == Some(Prepared) && !Recover(files, pid, elapsed, sha).1
    requires 0.0 <= laterElapsed <= RTO_SECONDS
    ensures var after := Recover(files, pid, elapsed, sha).0;
            Recover(after, laterPid, laterElapsed, sha).1 <==> OnlyKnownEntries(after)
  {
    var after := Recover(files, pid, elapsed, sha).0;
    FailedRecoverLeaves(files, pid, elapsed, sha);
    if ReadJournal(after) == Some(Prepared) {
      RecoverSucceedsExactly(after, laterPid, laterElapsed, sha);
    } else {
      assert Receipt in after.Keys;
    }
  }

  /** A failed recovery leaves the journal prepared, or closed, with its receipt, over the
      number of entries that the sweep left beside sentinel and journal; that number is zero
      only where the sentinel was missing. */
  lemma FailedRecoverLeaves(files: Files, pid: nat, elapsed: real, sha: Data -> nat)
    requires ReadJournal(files) == Some(Prepared) && !Recover(files, pid, elapsed, sha).1
    ensures var after := Recover(files, pid, elapsed, sha).0;
            || ReadJournal(after) == Some(Prepared)
            || (var left := |SweptKeys(files) - {Sentinel, Journal}|;
                ClosedWith(after, left, JournalRecovery, elapsed, sha) && (left > 0 || Sentinel !in after))
  {
    SweepEffect(files);
    var (swept, ok) := Sweep(files);
    assert SameAt(files, swept, Journal);
    if ok && !Exists(files, Receipt) {
      ResidueIsZero(swept);
      PublishSucceedsExactly(swept, pid, JournalRecovery, elapsed, sha);
      FailedPublishLeaves(swept, pid, JournalRecovery, elapsed, sha);
    }
  }

  lemma FailedPublishLeaves(files: Files, pid: nat, trigger: Trigger, elapsed: real, sha: Data -> nat)
    requires Journal in files && !Publish(files, pid, trigger, elapsed, sha).1
    ensures var after := Publish(files, pid, trigger, elapsed, sha).0;
            || SameAt(files, after, Journal)
            || (var left := |files.Keys - {Sentinel, Journal}|;
                ClosedWith(after, left, trigger, elapsed, sha) && (left > 0 || Sentinel !in after))
  {
    ReceiptReports(Residue(files), trigger, elapsed);
    var after := Publish(files, pid, trigger, elapsed, sha).0;
    ResidueIsZero(files);
    var receipt := ReceiptFor(Residue(files), trigger, elapsed);
    if !SameAt(files, after, Journal) {
      assert after.Keys == files.Keys + {Receipt, Journal};
      assert Holds(after, Journal, JournalData(Closed(sha(receipt), Residue(files), trigger)));
      assert Residue(files) == 0 && Sentinel in after.Keys ==> after.Keys == {Sentinel, Journal, Receipt};
    }
  }
}
