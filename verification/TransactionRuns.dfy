/** The transaction as a state machine over its file operations. A signal or a kill may
    come between any two of them, and any number of processes may follow one another. */
module TransactionRuns {
  import opened Text
  import opened TransactionFiles

  /** One call of `_write_bytes`. */
  datatype Job = Job(n: Name, data: Data, replace: bool)

  datatype WriteStep = Open | Append | CheckExisting | Unlink | Rename

  datatype Stage =
    | CheckingRoot                          // `prepare`
    | Writing(job: Job, step: WriteStep)
    | Waiting                               // `run`, for a signal
    | Holding                               // `handle_signal`, for `cleanup.continue`
    | RemovingMarker | RemovingTransient(which: nat) | Census | FinalLook(residue: nat)
    | ReadingJournal | CheckingReceipt      // `recover`
    | Exited(ok: bool)

  datatype Process =
    Process(pid: nat, recovering: bool, stage: Stage, cleanupStarted: bool, trigger: Trigger, cleanups: nat)

  /** `receipts` counts how often a receipt was published; `clock` is the time since the
      process last took the time: when it began to wait, was signalled, or began a recovery. */
  datatype World = World(files: Files, process: Option<Process>, receipts: nat, clock: Seconds)

  /** One operation as the system lets it happen: whether a write took the rest of the
      payload, and the time that has passed since the operation before. */
  datatype Tick = Tick(whole: bool, passed: Seconds)

  /** What the process sees of it: the elapsed time is that of its own clock. */
  datatype Answer = Answer(whole: bool, elapsed: Seconds)

  /** How long `run` waits for a signal. */
  const PATIENCE := 30.0

  datatype Event =
    | StartRun(pid: nat) | StartRecover(pid: nat)
    | Operation(tick: Tick)
    | Signal(trigger: Trigger)
    | Kill
    | ContinueAppears | ForeignAppears(id: nat)

  const JOURNAL_JOB := Job(Journal, JournalData(Prepared), false)
  const MARKER_JOB := Job(Marker, MarkerText, false)
  const READY_JOB := Job(Ready, ReadyText, false)
  const STARTED_JOB := Job(Started, StartedText, false)

  function ReceiptJob(residue: nat, trigger: Trigger, elapsed: real): Job {
    Job(Receipt, ReceiptFor(residue, trigger, elapsed), false)
  }

  function ClosedJob(receipt: Data, residue: nat, trigger: Trigger, sha: Data -> nat): Job {
    Job(Journal, JournalData(Closed(sha(receipt), residue, trigger)), true)
  }

  /** Where the process goes on after a completed write. */
  function After(job: Job, sha: Data -> nat): Stage {
    match job.data
    case JournalData(Prepared) => Writing(MARKER_JOB, Open)
    case MarkerText => Writing(READY_JOB, Open)
    case ReadyText => Waiting
    case StartedText => Holding
    case ReceiptData(CleanupReceipt(_, residue, _, trigger)) =>
      Writing(ClosedJob(job.data, residue, trigger, sha), Open)
    case JournalData(Closed(_, residue, _)) => FinalLook(residue)
    case _ => Exited(false)
  }

  function TransientName(which: nat): Name {
    if which == 0 then Ready else if which == 1 then Started else Continue
  }

  function WriteStepOf(
    files: Files, p: Process, job: Job, step: WriteStep, answer: Answer, sha: Data -> nat): (Files, Stage) {
    var temporary := Temp(job.n, p.pid);
    match step
    case Open =>
      if temporary in files then (files, Exited(false))
      else (files[temporary := File(Part(job.data), true)], Writing(job, Append))
    case Append =>
      if answer.whole then (files[temporary := File(job.data, true)], Writing(job, CheckExisting))
      else (files, p.stage)
    case CheckExisting =>
      (files, Writing(job, if !job.replace && Exists(files, job.n) then Unlink else Rename))
    case Unlink => (files - {temporary}, Exited(false))
    case Rename => ((files - {temporary})[job.n := File(job.data, true)], After(job, sha))
  }

  /** One operation of the process. */
  function StageStep(files: Files, p: Process, answer: Answer, sha: Data -> nat): (Files, Stage) {
    match p.stage
    case CheckingRoot =>
      (files, if files.Keys == {Sentinel} then Writing(JOURNAL_JOB, Open) else Exited(false))
    case Writing(job, step) => WriteStepOf(files, p, job, step, answer, sha)
    case Waiting => (files, if answer.elapsed >= PATIENCE then Exited(false) else Waiting)
    case Holding =>
      (files, if Exists(files, Continue) || answer.elapsed >= RTO_SECONDS then RemovingMarker else Holding)
    case RemovingMarker =>
      var (after, ok) := RemoveMarker(files);
      (after, if ok then RemovingTransient(0) else Exited(false))
    case RemovingTransient(which) =>
      var (after, ok) := RemoveOne(files, TransientName(which));
      (after, if !ok then Exited(false) else if which < 2 then RemovingTransient(which + 1) else Census)
    case Census =>
      (files, if answer.elapsed > RTO_SECONDS then Exited(false)
              else Writing(ReceiptJob(Residue(files), p.trigger, answer.elapsed), Open))
    case FinalLook(residue) =>
      (files, Exited(residue == 0 && files.Keys == {Sentinel, Journal, Receipt}))
    case ReadingJournal =>
      (files, match ReadJournal(files)
              case Some(Prepared) => CheckingReceipt
              case Some(Closed(digest, residue, trigger)) =>
                Exited(ClosedStateValid(files, Closed(digest, residue, trigger), sha))
              case _ => Exited(false))
    case CheckingReceipt => (files, if Exists(files, Receipt) then Exited(false) else RemovingMarker)
    case Exited(_) => (files, p.stage)
  }

  function ProcessStep(files: Files, p: Process, answer: Answer, sha: Data -> nat): (Files, Process) {
    var (after, stage) := StageStep(files, p, answer, sha);
    if p.stage.CheckingReceipt? && stage.RemovingMarker? then
      (after, p.(stage := stage, cleanupStarted := true, cleanups := p.cleanups + 1))
    else (after, p.(stage := stage))
  }

  /** This operation renames a receipt into place. */
  predicate Publishes(p: Process) {
    p.stage.Writing? && p.stage.step == Rename && p.stage.job.n == Receipt
  }

  /** `handle_signal` while `run` is at work; the default action before `recover` ignores signals. */
  function OnSignal(w: World, p: Process, trigger: Trigger): World {
    if p.stage.Exited? || p.cleanupStarted then w
    else if p.recovering then w.(process := None)
    else w.(process := Some(p.(stage := Writing(STARTED_JOB, Open), cleanupStarted := true,
                               trigger := trigger, cleanups := p.cleanups + 1)),
              clock := 0.0)
  }

  predicate Idle(w: World) {
    w.process == None || w.process.value.stage.Exited?
  }

  /** The process that `StartRecover` creates. */
  function Recovering(pid: nat): Process {
    Process(pid, true, ReadingJournal, false, JournalRecovery, 0)
  }

  function AnswerAt(clock: Seconds, tick: Tick): Answer {
    Answer(tick.whole, clock + tick.passed)
  }

  /** The clock after an operation: it starts again with the wait and with a recovery. */
  function ClockAfter(p: Process, after: Process, elapsed: Seconds): Seconds {
    if (p.stage.Writing? && after.stage.Waiting?) || (p.stage.CheckingReceipt? && after.stage.RemovingMarker?)
    then 0.0 else elapsed
  }

  function Next(w: World, e: Event, sha: Data -> nat): World {
    match e
    case StartRun(pid) =>
      if Idle(w) then w.(process := Some(Process(pid, false, CheckingRoot, false, JournalRecovery, 0))) else w
    case StartRecover(pid) =>
      if Idle(w) then w.(process := Some(Recovering(pid))) else w
    case Operation(tick) =>
      (match w.process
       case None => w
       case Some(p) =>
         var answer := AnswerAt(w.clock, tick);
         var (after, p') := ProcessStep(w.files, p, answer, sha);
         World(after, Some(p'), if Publishes(p) then w.receipts + 1 else w.receipts,
               ClockAfter(p, p', answer.elapsed)))
    case Signal(trigger) => if w.process.Some? then OnSignal(w, w.process.value, trigger) else w
    case Kill => w.(process := None)
    case ContinueAppears => if Continue in w.files then w else w.(files := w.files[Continue := File(Junk(0), true)])
    case ForeignAppears(id) =>
      if Foreign(id) in w.files then w else w.(files := w.files[Foreign(id) := File(Junk(id), true)])
  }

  function Run(w: World, events: seq<Event>, sha: Data -> nat): World
    decreases events
  {
    if events == [] then w else Run(Next(w, events[0], sha), events[1..], sha)
  }

  /** A fresh fixture root. */
  predicate Initial(w: World) {
    w.files == map[Sentinel := File(SentinelText, true)] && w.process == None && w.receipts == 0
  }

  // --------------------------------------------------------------------------
  // What every reachable directory satisfies

  predicate JournalPrepared(files: Files) {
    Holds(files, Journal, JournalData(Prepared))
  }

  predicate JournalClosed(files: Files) {
    ReadJournal(files).Some? && ReadJournal(files).value.Closed?
  }

  /** The journal is closed over this receipt. */
  predicate ClosedOver(files: Files, sha: Data -> nat) {
    && Receipt in files && files[Receipt].File? && files[Receipt].data.ReceiptData?
    && files[Receipt].data.receipt.CleanupReceipt?
    && (var r := files[Receipt].data.receipt;
        Holds(files, Journal, JournalData(Closed(sha(files[Receipt].data), r.residue, r.trigger))))
  }

  /** A receipt as a cleanup in time writes it. */
  predicate TrueReceipt(r: ReceiptRecord) {
    r.CleanupReceipt? && (r.verified <==> r.residue == 0) && 0.0 <= r.seconds <= RTO_SECONDS
  }

  predicate WholeReceipt(files: Files) {
    && Receipt in files && files[Receipt].File? && files[Receipt].owned
    && files[Receipt].data.ReceiptData? && TrueReceipt(files[Receipt].data.receipt)
  }

  predicate Safe(files: Files, sha: Data -> nat) {
    && (Marker in files ==> JournalPrepared(files) && Holds(files, Marker, MarkerText))
    && (Journal in files ==> JournalPrepared(files) || (ClosedOver(files, sha) && Marker !in files))
    && (Receipt in files ==> WholeReceipt(files))
  }

  /** The sentinel stays, and no entry is a link or a directory. */
  predicate Plain(files: Files) {
    Sentinel in files && forall n :: n in files ==> files[n].File?
  }

  /** What the process relies on at its stage. */
  predicate StageHolds(files: Files, stage: Stage, sha: Data -> nat) {
    match stage
    case Writing(job, step) =>
      (match job.data
       case JournalData(Prepared) =>
         job == JOURNAL_JOB && Journal !in files && Marker !in files && Receipt !in files && Started !in files
       case MarkerText => job == MARKER_JOB && JournalPrepared(files) && Receipt !in files
       case ReadyText => job == READY_JOB
       case StartedText => job == STARTED_JOB && (step == Rename ==> Started !in files)
       case ReceiptData(r) =>
         && TrueReceipt(r) && job.n == Receipt && !job.replace && Marker !in files
         && (step == Rename ==> Receipt !in files)
       case JournalData(Closed(_, _, _)) =>
         && Marker !in files && WholeReceipt(files) && !JournalClosed(files)
         && (var r := files[Receipt].data;
             job == ClosedJob(r, r.receipt.residue, r.receipt.trigger, sha))
       case _ => false)
    case RemovingTransient(_) => Marker !in files
    case Census => Marker !in files
    case FinalLook(residue) => ClosedOver(files, sha) && files[Receipt].data.receipt.residue == residue
    case CheckingReceipt => JournalPrepared(files)
    case _ => true
  }

  /** The temporary entry of a write that has been started. */
  predicate OwnTemp(p: Process, n: Name) {
    p.stage.Writing? && p.stage.step != Open && n == Temp(p.stage.job.n, p.pid)
  }

  predicate TempHeld(files: Files, p: Process) {
    p.stage.Writing? && p.stage.step != Open ==> Temp(p.stage.job.n, p.pid) in files
  }

  predicate ProcessHolds(files: Files, p: Process, sha: Data -> nat) {
    && StageHolds(files, p.stage, sha)
    && TempHeld(files, p)
    && (p.stage.ReadingJournal? || p.stage.CheckingReceipt? ==> !p.cleanupStarted)
    && p.cleanups == (if p.cleanupStarted then 1 else 0)
  }

  predicate Invariant(w: World, sha: Data -> nat) {
    && Plain(w.files) && Safe(w.files, sha)
    && w.receipts == (if Receipt in w.files then 1 else 0)
    && (w.process.Some? ==> ProcessHolds(w.files, w.process.value, sha))
  }

  /** Temporary names and the names only notes are kept under do not matter to safety. */
  lemma FrameSafe(before: Files, after: Files, sha: Data -> nat)
    requires SameAt(before, after, Journal) && SameAt(before, after, Marker) && SameAt(before, after, Receipt)
    ensures Safe(before, sha) ==> Safe(after, sha)
  {
  }

  lemma FrameStage(before: Files, after: Files, stage: Stage, sha: Data -> nat)
    requires SameAt(before, after, Journal) && SameAt(before, after, Marker) && SameAt(before, after, Receipt)
    requires SameAt(before, after, Started)
    ensures StageHolds(before, stage, sha) ==> StageHolds(after, stage, sha)
  {
  }

  lemma WriteStepSafe(files: Files, p: Process, answer: Answer, sha: Data -> nat)
    requires Plain(files) && Safe(files, sha) && StageHolds(files, p.stage, sha)
    requires p.stage.Writing? && p.stage.step != Rename
    ensures var (after, stage) := StageStep(files, p, answer, sha);
            && Safe(after, sha) && StageHolds(after, stage, sha)
            && (Receipt in after <==> Receipt in files)
  {
    var (after, stage) := StageStep(files, p, answer, sha);
    assert SameAt(files, after, Journal) && SameAt(files, after, Marker) && SameAt(files, after, Receipt);
    assert SameAt(files, after, Started);
    FrameSafe(files, after, sha);
    FrameStage(files, after, p.stage, sha);
  }

  lemma RenameSafe(files: Files, p: Process, answer: Answer, sha: Data -> nat)
    requires Safe(files, sha) && StageHolds(files, p.stage, sha) && p.stage.Writing? && p.stage.step == Rename
    ensures var (after, stage) := StageStep(files, p, answer, sha);
            && Safe(after, sha) && StageHolds(after, stage, sha)
            && (Publishes(p) ==> Receipt !in files && Receipt in after)
            && (!Publishes(p) ==> (Receipt in after <==> Receipt in files))
  {
  }

  lemma RemovalSafe(files: Files, p: Process, answer: Answer, sha: Data -> nat)
    requires Safe(files, sha) && (p.stage.RemovingMarker? || p.stage.RemovingTransient?)
    requires StageHolds(files, p.stage, sha)
    ensures var (after, stage) := StageStep(files, p, answer, sha);
            && Safe(after, sha) && StageHolds(after, stage, sha)
            && (Receipt in after <==> Receipt in files)
  {
    var (after, stage) := StageStep(files, p, answer, sha);
    if p.stage.RemovingTransient? {
      RemoveOneEffect(files, TransientName(p.stage.which));
      assert SameAt(files, after, Journal) && SameAt(files, after, Marker) && SameAt(files, after, Receipt);
      FrameSafe(files, after, sha);
    }
  }

  /** The receipt a census prepares reports what stands beside sentinel and journal, the
      trigger of its process, and the reading of the clock. */
  lemma CensusReports(files: Files, p: Process, answer: Answer, sha: Data -> nat)
    requires p.stage == Census
    ensures var (after, stage) := StageStep(files, p, answer, sha);
            && after == files && (stage == Exited(false) <==> answer.elapsed > RTO_SECONDS)
            && (stage != Exited(false) ==>
                  && stage.Writing? && stage.step == Open && stage.job.n == Receipt
                  && Reports(stage.job.data, |files.Keys - {Sentinel, Journal}|, p.trigger, answer.elapsed))
  {
    ReceiptReports(Residue(files), p.trigger, answer.elapsed);
  }

  lemma CensusHolds(files: Files, p: Process, answer: Answer, sha: Data -> nat)
    requires StageHolds(files, p.stage, sha) && p.stage == Census
    ensures StageHolds(files, StageStep(files, p, answer, sha).1, sha)
  {
    if answer.elapsed <= RTO_SECONDS { MicrosBounded(answer.elapsed); }
  }

  /** The stages that only look. */
  lemma LookSafe(files: Files, p: Process, answer: Answer, sha: Data -> nat)
    requires Plain(files) && Safe(files, sha) && StageHolds(files, p.stage, sha)
    requires !p.stage.Writing? && !p.stage.RemovingMarker? && !p.stage.RemovingTransient?
    ensures var (after, stage) := StageStep(files, p, answer, sha);
            after == files && StageHolds(files, stage, sha)
  {
    if p.stage == Census { CensusHolds(files, p, answer, sha); }
    if p.stage == CheckingRoot { assert files.Keys == {Sentinel} ==> Started !in files.Keys; }
  }

  lemma ProcessStepSafe(files: Files, p: Process, answer: Answer, sha: Data -> nat)
    requires Plain(files) && Safe(files, sha) && StageHolds(files, p.stage, sha)
    ensures var (after, p') := ProcessStep(files, p, answer, sha);
            && Safe(after, sha) && StageHolds(after, p'.stage, sha)
            && (Publishes(p) ==> Receipt !in files && Receipt in after)
            && (!Publishes(p) ==> (Receipt in after <==> Receipt in files))
  {
    if p.stage.Writing? {
      if p.stage.step == Rename { RenameSafe(files, p, answer, sha); } else { WriteStepSafe(files, p, answer, sha); }
    } else if p.stage.RemovingMarker? || p.stage.RemovingTransient? {
      RemovalSafe(files, p, answer, sha);
    } else {
      LookSafe(files, p, answer, sha);
    }
  }

  lemma ProcessStepPlain(files: Files, p: Process, answer: Answer, sha: Data -> nat)
    requires Plain(files) && TempHeld(files, p)
    ensures var (after, p') := ProcessStep(files, p, answer, sha);
            Plain(after) && TempHeld(after, p')
  {
    if p.stage.Writing? { TempIsNew(p.stage.job.n, p.pid); }
  }

  lemma NextKeepsInvariant(w: World, e: Event, sha: Data -> nat)
    requires Invariant(w, sha)
    ensures Invariant(Next(w, e, sha), sha)
  {
    match e {
      case Operation(tick) =>
        var answer := AnswerAt(w.clock, tick);
        if w.process.Some? {
          ProcessStepSafe(w.files, w.process.value, answer, sha);
          ProcessStepPlain(w.files, w.process.value, answer, sha);
        }
      case ContinueAppears => FrameAny(w, Continue, File(Junk(0), true), sha);
      case ForeignAppears(id) => FrameAny(w, Foreign(id), File(Junk(id), true), sha);
      case _ =>
    }
  }

  lemma FrameAny(w: World, n: Name, entry: Entry, sha: Data -> nat)
    requires Invariant(w, sha) && (n == Continue || n.Foreign?) && entry.File?
    ensures Invariant(w.(files := w.files[n := entry]), sha)
  {
    FrameSafe(w.files, w.files[n := entry], sha);
    if w.process.Some? {
      FrameStage(w.files, w.files[n := entry], w.process.value.stage, sha);
    }
  }

  lemma {:induction false} RunKeepsInvariant(w: World, events: seq<Event>, sha: Data -> nat)
    requires Invariant(w, sha)
    ensures Invariant(Run(w, events, sha), sha)
    decreases events
  {
    if events != [] {
      NextKeepsInvariant(w, events[0], sha);
      RunKeepsInvariant(Next(w, events[0], sha), events[1..], sha);
    }
  }

  /** Safety over all runs: however operations, signals, kills, restarts and foreign files
      are interleaved, a marker implies a prepared journal; a closed journal implies that
      the marker is gone and the receipt is there with exactly the recorded digest; the
      journal and the receipt are never seen partially written; a process starts at most
      one cleanup; and at most one receipt is ever published. */
  lemma SafetyOverAllRuns(w: World, events: seq<Event>, sha: Data -> nat)
    requires Initial(w)
    ensures var now := Run(w, events, sha);
            && (Marker in now.files ==> JournalPrepared(now.files))
            && (Journal in now.files ==> ReadJournal(now.files).Some?)
            && (Journal in now.files && !JournalPrepared(now.files) ==>
                  Marker !in now.files && ClosedOver(now.files, sha))
            && (Receipt in now.files ==> WholeReceipt(now.files))
            && (now.process.Some? ==> now.process.value.cleanups <= 1)
            && now.receipts == (if Receipt in now.files then 1 else 0)
  {
    RunKeepsInvariant(w, events, sha);
  }

  // --------------------------------------------------------------------------
  // Published records are final

  /** The receipt, once published, and the journal, once closed over it. */
  predicate Final(before: Files, after: Files, sha: Data -> nat) {
    && (Receipt in before ==> Receipt in after && after[Receipt] == before[Receipt])
    && (Journal in before && !JournalPrepared(before) ==> Journal in after && after[Journal] == before[Journal])
    && (Journal in before ==> Journal in after)
  }

  lemma NextIsFinal(w: World, e: Event, sha: Data -> nat)
    requires Invariant(w, sha)
    ensures Final(w.files, Next(w, e, sha).files, sha)
  {
    if e.Operation? && w.process.Some? {
      var p := w.process.value;
      var after := Next(w, e, sha).files;
      if p.stage.RemovingMarker? || !p.stage.Writing? || p.stage.step != Rename {
        assert SameAt(w.files, after, Journal) && SameAt(w.files, after, Receipt);
      } else {
        RenameSafe(w.files, p, AnswerAt(w.clock, e.tick), sha);
      }
    }
  }

  /** Whatever happens later, a published receipt keeps its bytes, a journal never
      disappears, and a closed journal stays closed over the same receipt. */
  lemma {:induction false} RecordsAreFinal(w: World, events: seq<Event>, sha: Data -> nat)
    requires Invariant(w, sha)
    ensures Final(w.files, Run(w, events, sha).files, sha)
    decreases events
  {
    if events != [] {
      var next := Next(w, events[0], sha);
      NextIsFinal(w, events[0], sha);
      NextKeepsInvariant(w, events[0], sha);
      RecordsAreFinal(next, events[1..], sha);
      assert ClosedOver(w.files, sha) ==> next.files[Journal] == w.files[Journal] || JournalPrepared(w.files);
    }
  }

  // --------------------------------------------------------------------------
  // Left alone, the machine computes `Recover`

  function Drive(files: Files, p: Process, answer: Answer, n: nat, sha: Data -> nat): (Files, Process)
    decreases n
  {
    if n == 0 then (files, p)
    else
      var (after, p') := ProcessStep(files, p, answer, sha);
      Drive(after, p', answer, n - 1, sha)
  }

  lemma {:induction false} DriveSplit(files: Files, p: Process, answer: Answer, m: nat, n: nat, sha: Data -> nat)
    ensures var (mid, q) := Drive(files, p, answer, m, sha);
            Drive(files, p, answer, m + n, sha) == Drive(mid, q, answer, n, sha)
    decreases m
  {
    if m > 0 {
      var (after, p') := ProcessStep(files, p, answer, sha);
      DriveSplit(after, p', answer, m - 1, n, sha);
    }
  }

  lemma {:induction false} ExitedStays(files: Files, p: Process, answer: Answer, n: nat, sha: Data -> nat)
    requires p.stage.Exited?
    ensures Drive(files, p, answer, n, sha) == (files, p)
  {
    if n > 0 {
      ExitedStays(files, p, answer, n - 1, sha);
    }
  }

  /** Four operations of an unhindered write. */
  lemma DriveWrite(files: Files, p: Process, job: Job, answer: Answer, sha: Data -> nat)
    requires p.stage == Writing(job, Open) && answer.whole
    ensures var (after, ok) := Write(files, p.pid, job.n, job.data, job.replace);
            Drive(files, p, answer, 4, sha) == (after, p.(stage := if ok then After(job, sha) else Exited(false)))
  {
    var temporary := Temp(job.n, p.pid);
    TempIsNew(job.n, p.pid);
    var (f1, p1) := ProcessStep(files, p, answer, sha);
    if temporary in files {
      ExitedStays(f1, p1, answer, 3, sha);
    } else {
      var (f2, p2) := ProcessStep(f1, p1, answer, sha);
      assert f2 == files[temporary := File(job.data, true)];
      var (f3, p3) := ProcessStep(f2, p2, answer, sha);
      assert Exists(f3, job.n) <==> Exists(files, job.n);
      var (f4, p4) := ProcessStep(f3, p3, answer, sha);
      assert f3 - {temporary} == files;
      assert Drive(f3, p3, answer, 1, sha) == Drive(f4, p4, answer, 0, sha) == (f4, p4);
      assert Drive(f2, p2, answer, 2, sha) == Drive(f3, p3, answer, 1, sha);
      assert Drive(f1, p1, answer, 3, sha) == Drive(f2, p2, answer, 2, sha);
    }
  }

  /** Removing the marker and the three transient names. */
  lemma DriveSweep(files: Files, p: Process, answer: Answer, sha: Data -> nat)
    requires p.stage == RemovingMarker
    ensures var (after, ok) := Sweep(files);
            Drive(files, p, answer, 4, sha) == (after, p.(stage := if ok then Census else Exited(false)))
  {
    var (f1, p1) := ProcessStep(files, p, answer, sha);
    var (f2, p2) := ProcessStep(f1, p1, answer, sha);
    var (f3, p3) := ProcessStep(f2, p2, answer, sha);
    var (f4, p4) := ProcessStep(f3, p3, answer, sha);
    assert Drive(f3, p3, answer, 1, sha) == Drive(f4, p4, answer, 0, sha) == (f4, p4);
    assert Drive(f2, p2, answer, 2, sha) == Drive(f3, p3, answer, 1, sha);
    assert Drive(f1, p1, answer, 3, sha) == Drive(f2, p2, answer, 2, sha);
  }

  /** Census, receipt, closed journal, final look. */
  lemma DrivePublish(files: Files, p: Process, answer: Answer, sha: Data -> nat)
    requires p.stage == Census && answer.whole
    ensures var (after, ok) := Publish(files, p.pid, p.trigger, answer.elapsed, sha);
            Drive(files, p, answer, 10, sha) == (after, p.(stage := Exited(ok)))
  {
    var (f1, p1) := ProcessStep(files, p, answer, sha);
    assert Drive(files, p, answer, 10, sha) == Drive(f1, p1, answer, 9, sha);
    if answer.elapsed > RTO_SECONDS {
      ExitedStays(f1, p1, answer, 9, sha);
    } else {
      DriveRecords(files, p1, Residue(files), answer, sha);
    }
  }

  lemma DriveRecords(files: Files, p: Process, residue: nat, answer: Answer, sha: Data -> nat)
    requires p.stage == Writing(ReceiptJob(residue, p.trigger, answer.elapsed), Open)
    requires residue == Residue(files) && answer.whole && answer.elapsed <= RTO_SECONDS
    ensures var (after, ok) := Publish(files, p.pid, p.trigger, answer.elapsed, sha);
            Drive(files, p, answer, 9, sha) == (after, p.(stage := Exited(ok)))
  {
    var job := ReceiptJob(residue, p.trigger, answer.elapsed);
    DriveWrite(files, p, job, answer, sha);
    DriveSplit(files, p, answer, 4, 5, sha);
    var (f2, p2) := Drive(files, p, answer, 4, sha);
    if p2.stage.Exited? {
      ExitedStays(f2, p2, answer, 5, sha);
    } else {
      DriveClosed(f2, p2, job.data, residue, answer, sha);
    }
  }

  lemma DriveClosed(files: Files, p: Process, receipt: Data, residue: nat, answer: Answer, sha: Data -> nat)
    requires p.stage == Writing(ClosedJob(receipt, residue, p.trigger, sha), Open) && answer.whole
    ensures var job := ClosedJob(receipt, residue, p.trigger, sha);
            var (after, ok) := Write(files, p.pid, Journal, job.data, true);
            Drive(files, p, answer, 5, sha) ==
            (after, p.(stage := Exited(ok && residue == 0 && after.Keys == {Sentinel, Journal, Receipt})))
  {
    DriveWrite(files, p, ClosedJob(receipt, residue, p.trigger, sha), answer, sha);
    DriveSplit(files, p, answer, 4, 1, sha);
    var (f3, p3) := Drive(files, p, answer, 4, sha);
    var (f4, p4) := ProcessStep(f3, p3, answer, sha);
    assert Drive(f3, p3, answer, 1, sha) == Drive(f4, p4, answer, 0, sha) == (f4, p4);
  }

  lemma DriveCleanup(files: Files, p: Process, answer: Answer, sha: Data -> nat)
    requires p.stage == RemovingMarker && answer.whole
    ensures var (after, ok) := FinishCleanup(files, p.pid, p.trigger, answer.elapsed, sha);
            Drive(files, p, answer, 14, sha) == (after, p.(stage := Exited(ok)))
  {
    DriveSweep(files, p, answer, sha);
    DriveSplit(files, p, answer, 4, 10, sha);
    var (f3, p3) := Drive(files, p, answer, 4, sha);
    if p3.stage.Exited? {
      ExitedStays(f3, p3, answer, 10, sha);
    } else {
      DrivePublish(f3, p3, answer, sha);
    }
  }

  /** The two looks before any cleanup. */
  lemma DriveLooks(files: Files, p: Process, answer: Answer, sha: Data -> nat)
    requires p.stage == ReadingJournal
    ensures var (after, q) := Drive(files, p, answer, 2, sha);
            && after == files && q.pid == p.pid && q.trigger == p.trigger
            && q.stage == (if ReadJournal(files) == Some(Prepared) && !Exists(files, Receipt) then RemovingMarker
                           else Exited(Recover(files, p.pid, answer.elapsed, sha).1))
  {
    var (f1, p1) := ProcessStep(files, p, answer, sha);
    assert f1 == files && p1.pid == p.pid && p1.trigger == p.trigger;
    var (f2, p2) := ProcessStep(f1, p1, answer, sha);
    assert Drive(f1, p1, answer, 1, sha) == Drive(f2, p2, answer, 0, sha) == (f2, p2);
  }

  lemma RecoverWithoutCleanup(files: Files, pid: nat, elapsed: real, sha: Data -> nat)
    requires !(ReadJournal(files) == Some(Prepared) && !Exists(files, Receipt))
    ensures Recover(files, pid, elapsed, sha).0 == files
  {
  }

  /** The operations of a cleanup and of a recovery whose writes are taken whole. */
  const CLEANUP_OPERATIONS: nat := 14
  const RECOVERY_OPERATIONS: nat := 16

  /** A recovery whose writes are all taken whole. */
  lemma RecoverWhole(files: Files, pid: nat, answer: Answer, sha: Data -> nat)
    requires answer.whole
    ensures var (after, q) := Drive(files, Recovering(pid), answer, RECOVERY_OPERATIONS, sha);
            && after == Recover(files, pid, answer.elapsed, sha).0
            && q.stage == Exited(Recover(files, pid, answer.elapsed, sha).1)
  {
    var p := Recovering(pid);
    DriveLooks(files, p, answer, sha);
    DriveSplit(files, p, answer, 2, CLEANUP_OPERATIONS, sha);
    var q := Drive(files, p, answer, 2, sha).1;
    if q.stage.Exited? {
      RecoverWithoutCleanup(files, pid, answer.elapsed, sha);
      ExitedStays(files, q, answer, CLEANUP_OPERATIONS, sha);
    } else {
      DriveCleanup(files, q, answer, sha);
      assert Recover(files, pid, answer.elapsed, sha) ==
             FinishCleanup(files, pid, JournalRecovery, answer.elapsed, sha);
    }
  }

  // However the writes are taken, and as the clock goes on

  /** The process and its clock after one operation for each tick. */
  function Steps(files: Files, p: Process, clock: Seconds, ticks: seq<Tick>, sha: Data -> nat)
    : (Files, Process, Seconds)
    decreases |ticks|
  {
    if ticks == [] then (files, p, clock)
    else
      var answer := AnswerAt(clock, ticks[0]);
      var (after, p') := ProcessStep(files, p, answer, sha);
      Steps(after, p', ClockAfter(p, p', answer.elapsed), ticks[1..], sha)
  }

  /** The files and the process after the ticks. */
  predicate Reaches(
    files: Files, p: Process, clock: Seconds, ticks: seq<Tick>, sha: Data -> nat, end: (Files, Process)) {
    var (after, q, _) := Steps(files, p, clock, ticks, sha);
    (after, q) == end
  }

  /** How many operations let a write finish. */
  function Wholes(ticks: seq<Tick>): nat {
    if ticks == [] then 0 else (if ticks[0].whole then 1 else 0) + Wholes(ticks[1..])
  }

  function Total(ticks: seq<Tick>): Seconds {
    if ticks == [] then 0.0 else ticks[0].passed + Total(ticks[1..])
  }

  /** This answer cuts the write short. */
  predicate CutShort(p: Process, whole: bool) {
    p.stage.Writing? && p.stage.step == Append && !whole
  }

  lemma StepInWrite(files: Files, p: Process, given: Answer, answer: Answer, sha: Data -> nat)
    requires p.stage.Writing? && answer.whole
    ensures CutShort(p, given.whole) ==> ProcessStep(files, p, given, sha) == (files, p)
    ensures !CutShort(p, given.whole) ==> ProcessStep(files, p, given, sha) == ProcessStep(files, p, answer, sha)
  {
  }

  /** The stages of `recover`, which look at no deadline but that of the census. */
  predicate OnRecovery(p: Process) {
    match p.stage
    case Writing(job, _) =>
      || (job.data.ReceiptData? && job.data.receipt.CleanupReceipt?)
      || (job.data.JournalData? && job.data.journal.Closed?)
    case CheckingRoot => false
    case Waiting => false
    case Holding => false
    case _ => true
  }

  lemma WriteStaysOnRecovery(files: Files, p: Process, answer: Answer, sha: Data -> nat)
    requires OnRecovery(p) && p.stage.Writing?
    ensures OnRecovery(ProcessStep(files, p, answer, sha).1)
    ensures PastCensus(ProcessStep(files, p, answer, sha).1)
  {
  }

  lemma LookStaysOnRecovery(files: Files, p: Process, answer: Answer, sha: Data -> nat)
    requires p.stage.Census? || p.stage.FinalLook? || p.stage.ReadingJournal? || p.stage.CheckingReceipt?
    ensures OnRecovery(ProcessStep(files, p, answer, sha).1)
    ensures p.stage.Census? || p.stage.FinalLook? ==> PastCensus(ProcessStep(files, p, answer, sha).1)
  {
    var stage := StageStep(files, p, answer, sha).1;
    if p.stage.Census? && stage.Writing? {
      assert stage.job.data == ReceiptFor(Residue(files), p.trigger, answer.elapsed);
    }
  }

  lemma StaysOnRecovery(files: Files, p: Process, answer: Answer, sha: Data -> nat)
    requires OnRecovery(p)
    ensures OnRecovery(ProcessStep(files, p, answer, sha).1)
    ensures p.stage.Census? || PastCensus(p) ==> PastCensus(ProcessStep(files, p, answer, sha).1)
  {
    match p.stage {
      case Writing(_, _) => WriteStaysOnRecovery(files, p, answer, sha);
      case RemovingMarker => assert StageStep(files, p, answer, sha).1 in {RemovingTransient(0), Exited(false)};
      case RemovingTransient(which) =>
        assert StageStep(files, p, answer, sha).1 in {RemovingTransient(which + 1), Census, Exited(false)};
      case Exited(_) =>
      case _ => LookStaysOnRecovery(files, p, answer, sha);
    }
  }

  /** No census is to come any more. */
  predicate PastCensus(p: Process) {
    OnRecovery(p) && (p.stage.Writing? || p.stage.FinalLook? || p.stage.Exited?)
  }

  lemma StepElsewhere(files: Files, p: Process, given: Answer, answer: Answer, sha: Data -> nat)
    requires OnRecovery(p) && !p.stage.Writing? && (p.stage.Census? ==> given.elapsed == answer.elapsed)
    ensures ProcessStep(files, p, given, sha) == ProcessStep(files, p, answer, sha)
  {
    assert StageStep(files, p, given, sha) == StageStep(files, p, answer, sha);
  }

  /** Only the census looks at the time. */
  lemma StepAnyTime(files: Files, p: Process, given: Answer, answer: Answer, sha: Data -> nat)
    requires OnRecovery(p) && answer.whole && (p.stage.Census? ==> given.elapsed == answer.elapsed)
    ensures ProcessStep(files, p, given, sha) ==
            if CutShort(p, given.whole) then (files, p) else ProcessStep(files, p, answer, sha)
  {
    if p.stage.Writing? {
      StepInWrite(files, p, given, answer, sha);
    } else {
      StepElsewhere(files, p, given, answer, sha);
    }
  }

  lemma {:induction false} StepsPastCensus(
    files: Files, p: Process, clock: Seconds, ticks: seq<Tick>, answer: Answer, sha: Data -> nat)
    returns (k: nat)
    requires PastCensus(p) && answer.whole
    ensures Wholes(ticks) <= k <= |ticks|
    ensures Reaches(files, p, clock, ticks, sha, Drive(files, p, answer, k, sha))
    decreases |ticks|
  {
    if ticks == [] {
      k := 0;
    } else {
      var given := AnswerAt(clock, ticks[0]);
      StepAnyTime(files, p, given, answer, sha);
      StaysOnRecovery(files, p, given, sha);
      var (after, p') := ProcessStep(files, p, given, sha);
      k := StepsPastCensus(after, p', ClockAfter(p, p', given.elapsed), ticks[1..], answer, sha);
      if !CutShort(p, ticks[0].whole) { k := k + 1; }
    }
  }

  /** The looks of `recover`, before it takes the time. */
  predicate Looking(p: Process) {
    p.stage.ReadingJournal? || p.stage.CheckingReceipt?
  }

  lemma LookAhead(files: Files, p: Process, answer: Answer, sha: Data -> nat)
    requires Looking(p)
    ensures var p' := ProcessStep(files, p, answer, sha).1;
            || PastCensus(p') || Looking(p')
            || (p'.stage.RemovingMarker? && ClockAfter(p, p', answer.elapsed) == 0.0)
  {
  }

  /** The time a cleanup has taken so far. */
  function CleanupClock(p: Process, clock: Seconds): Seconds {
    if Looking(p) then 0.0 else clock
  }

  /** With any ticks the machine computes what it computes with one answer: the one at its census. */
  lemma {:induction false} StepsDrive(
    files: Files, p: Process, clock: Seconds, ticks: seq<Tick>, sha: Data -> nat)
    returns (k: nat, elapsed: Seconds)
    requires OnRecovery(p)
    ensures Wholes(ticks) <= k <= |ticks|
    ensures CleanupClock(p, clock) <= elapsed <= CleanupClock(p, clock) + Total(ticks)
    ensures !Looking(p) && ticks != [] && ticks[0].passed > 0.0 ==> elapsed > clock
    ensures Reaches(files, p, clock, ticks, sha, Drive(files, p, Answer(true, elapsed), k, sha))
    decreases |ticks|
  {
    if ticks == [] {
      k, elapsed := 0, CleanupClock(p, clock);
    } else {
      var given := AnswerAt(clock, ticks[0]);
      var (after, p') := ProcessStep(files, p, given, sha);
      var later := ClockAfter(p, p', given.elapsed);
      StaysOnRecovery(files, p, given, sha);
      if Looking(p) { LookAhead(files, p, given, sha); }
      if p.stage.Census? || (Looking(p) && PastCensus(p')) {
        elapsed := if p.stage.Census? then given.elapsed else 0.0;
        k := StepsPastCensus(after, p', later, ticks[1..], Answer(true, elapsed), sha);
      } else {
        k, elapsed := StepsDrive(after, p', later, ticks[1..], sha);
      }
      StepAnyTime(files, p, given, Answer(true, elapsed), sha);
      if !CutShort(p, ticks[0].whole) { k := k + 1; }
    }
  }

  /** A recovery that nothing interrupts ends with the files and the verdict of `Recover`,
      however many rounds its writes take: enough operations that are not cut short suffice. */
  lemma RecoverUninterrupted(files: Files, pid: nat, clock: Seconds, ticks: seq<Tick>, sha: Data -> nat)
    returns (elapsed: Seconds)
    requires Wholes(ticks) >= RECOVERY_OPERATIONS
    ensures elapsed <= Total(ticks)
    ensures var (after, q, _) := Steps(files, Recovering(pid), clock, ticks, sha);
            && after == Recover(files, pid, elapsed, sha).0
            && q.stage == Exited(Recover(files, pid, elapsed, sha).1)
  {
    var k;
    k, elapsed := StepsDrive(files, Recovering(pid), clock, ticks, sha);
    var answer := Answer(true, elapsed);
    RecoverWhole(files, pid, answer, sha);
    DriveEnded(files, Recovering(pid), answer, RECOVERY_OPERATIONS, k, sha);
  }

  /** Two drives that have both ended have ended in the same way. */
  lemma DriveEnded(files: Files, p: Process, answer: Answer, n: nat, k: nat, sha: Data -> nat)
    requires Drive(files, p, answer, n, sha).1.stage.Exited?
    requires n <= k || Drive(files, p, answer, k, sha).1.stage.Exited?
    ensures Drive(files, p, answer, k, sha) == Drive(files, p, answer, n, sha)
  {
    var low, high := if n <= k then n else k, if n <= k then k else n;
    DriveSplit(files, p, answer, low, high - low, sha);
    var (done, q) := Drive(files, p, answer, low, sha);
    ExitedStays(done, q, answer, high - low, sha);
  }

  // Steps as runs

  function Operations(ticks: seq<Tick>): seq<Event> {
    seq(|ticks|, i requires 0 <= i < |ticks| => Operation(ticks[i]))
  }

  lemma {:induction false} RunSplit(w: World, a: seq<Event>, b: seq<Event>, sha: Data -> nat)
    ensures Run(w, a + b, sha) == Run(Run(w, a, sha), b, sha)
    decreases a
  {
    if a == [] {
      assert a + b == b;
    } else {
      assert (a + b)[1..] == a[1..] + b;
      RunSplit(Next(w, a[0], sha), a[1..], b, sha);
    }
  }

  lemma {:induction false} RunOperations(w: World, p: Process, ticks: seq<Tick>, sha: Data -> nat)
    requires w.process == Some(p)
    ensures var now := Run(w, Operations(ticks), sha);
            now.process.Some? && (now.files, now.process.value, now.clock) == Steps(w.files, p, w.clock, ticks, sha)
    decreases ticks
  {
    if ticks != [] {
      assert Operations(ticks)[1..] == Operations(ticks[1..]);
      var next := Next(w, Operation(ticks[0]), sha);
      RunOperations(next, next.process.value, ticks[1..], sha);
    }
  }

  lemma RunOne(w: World, e: Event, events: seq<Event>, sha: Data -> nat)
    ensures Run(w, [e] + events, sha) == Run(Next(w, e, sha), events, sha)
  {
    assert ([e] + events)[1..] == events;
  }
}
