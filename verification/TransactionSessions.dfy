/** Single runs of the transaction: the stages at which a kill can be recovered from, event
    sequences that reach the other ones, and what a run that is left alone ends with. */
module TransactionSessions {
  import opened Text
  import opened TransactionFiles
  import opened TransactionRuns
  import opened TransactionCrashes

  // --------------------------------------------------------------------------
  // Orderly sessions

  /** At these stages a kill leaves what no recovery finishes: before the journal stands,
      inside a started write, and between the receipt and the closed journal. */
  predicate Exposed(stage: Stage) {
    || stage.CheckingRoot?
    || (stage.Writing? && (stage.step != Open || stage.job == JOURNAL_JOB || stage.job.replace))
  }

  /** After the removal of `cleanup.continue`. */
  predicate PastSweep(stage: Stage) {
    stage.Census? || (stage.Writing? && (stage.job.n == Receipt || stage.job.n == Journal))
  }

  predicate AtStage(w: World, holds: Stage -> bool) {
    w.process.Some? && holds(w.process.value.stage)
  }

  /** What a session may see: a run over a fresh root, recoveries, any answers of the system,
      and signals, kills and `cleanup.continue` where the stage can bear them. */
  predicate Admissible(w: World, e: Event) {
    match e
    case StartRun(_) => Idle(w) && w.files.Keys == {Sentinel}
    case StartRecover(_) => Idle(w) && Journal in w.files
    case Operation(_) => true
    case Signal(_) => w.process.Some? ==> w.process.value.cleanupStarted || !Exposed(w.process.value.stage)
    case Kill => !AtStage(w, Exposed)
    case ContinueAppears => JournalPrepared(w.files) && !AtStage(w, PastSweep)
    case ForeignAppears(_) => false
  }

  predicate Orderly(w: World, events: seq<Event>, sha: Data -> nat)
    decreases events
  {
    events == [] || (Admissible(w, events[0]) && Orderly(Next(w, events[0], sha), events[1..], sha))
  }

  /** Nothing but these entries and the temporary one of a started write. */
  predicate Only(files: Files, p: Process, names: set<Name>) {
    forall n :: n in files ==> n in names || OwnTemp(p, n)
  }

  predicate OnlyKnown(files: Files, p: Process) {
    forall n :: n in files ==> Known(n) || OwnTemp(p, n)
  }

  predicate Preparing(files: Files, p: Process) {
    JournalPrepared(files) && Receipt !in files && OnlyKnown(files, p)
  }

  /** The transient entries the sweep has already been at. */
  predicate SweptTo(files: Files, which: nat) {
    (which > 0 ==> Ready !in files) && (which > 1 ==> Started !in files)
  }

  predicate WriteOrderly(files: Files, p: Process, job: Job) {
    match job.data
    case JournalData(Prepared) => Only(files, p, {Sentinel})
    case ReceiptData(r) =>
      r.CleanupReceipt? && r.residue == 0 && JournalPrepared(files) && Only(files, p, {Sentinel, Journal})
    case JournalData(_) =>
      && JournalPrepared(files) && Only(files, p, {Sentinel, Journal, Receipt})
      && WholeReceipt(files) && files[Receipt].data.receipt.residue == 0
    case _ => Preparing(files, p)
  }

  predicate StageOrderly(files: Files, p: Process) {
    match p.stage
    case CheckingRoot => files.Keys == {Sentinel}
    case Writing(job, step) => WriteOrderly(files, p, job) && (step == Unlink ==> Preparing(files, p))
    case RemovingTransient(which) => Preparing(files, p) && SweptTo(files, which)
    case Census => JournalPrepared(files) && Only(files, p, {Sentinel, Journal})
    case FinalLook(residue) => residue == 0 && files.Keys == {Sentinel, Journal, Receipt}
    case ReadingJournal => Recoverable(files)
    case Exited(_) => Recoverable(files)
    case _ => Preparing(files, p)
  }

  /** The stages of a run before its signal. */
  predicate BeforeSignal(stage: Stage) {
    match stage
    case Writing(job, _) => job in {JOURNAL_JOB, MARKER_JOB, READY_JOB}
    case _ => stage.CheckingRoot? || stage.Waiting? || stage.Exited?
  }

  predicate Tidy(w: World) {
    match w.process
    case None => w.files.Keys == {Sentinel} || Recoverable(w.files)
    case Some(p) => StageOrderly(w.files, p) && (p.recovering || p.cleanupStarted || BeforeSignal(p.stage))
  }

  lemma OpenTidy(files: Files, p: Process, answer: Answer, sha: Data -> nat)
    requires StageHolds(files, p.stage, sha) && StageOrderly(files, p)
    requires p.stage.Writing? && p.stage.step == Open
    ensures var (after, p') := ProcessStep(files, p, answer, sha);
            StageOrderly(after, p')
  {
    assert !Known(Temp(p.stage.job.n, p.pid));
  }

  lemma CheckTidy(files: Files, p: Process, answer: Answer, sha: Data -> nat)
    requires StageHolds(files, p.stage, sha) && StageOrderly(files, p)
    requires p.stage.Writing? && p.stage.step == CheckExisting
    ensures var (after, p') := ProcessStep(files, p, answer, sha);
            StageOrderly(after, p')
  {
    TempIsNew(p.stage.job.n, p.pid);
  }

  lemma WriteStepTidy(files: Files, p: Process, answer: Answer, sha: Data -> nat)
    requires StageHolds(files, p.stage, sha) && TempHeld(files, p) && StageOrderly(files, p)
    requires p.stage.Writing? && p.stage.step != Rename
    ensures var (after, p') := ProcessStep(files, p, answer, sha);
            StageOrderly(after, p')
  {
    match p.stage.step {
      case Open => OpenTidy(files, p, answer, sha);
      case CheckExisting => CheckTidy(files, p, answer, sha);
      case Append =>
      case Unlink =>
    }
  }

  lemma ClosedTidy(files: Files, p: Process, answer: Answer, sha: Data -> nat)
    requires Plain(files) && StageHolds(files, p.stage, sha) && StageOrderly(files, p)
    requires p.stage.Writing? && p.stage.step == Rename && ClosesJournal(p) && p.stage.job.data.JournalData?
    requires p.stage.job.data.journal.Closed?
    ensures var (after, p') := ProcessStep(files, p, answer, sha);
            StageOrderly(after, p')
  {
    var after := ProcessStep(files, p, answer, sha).0;
    forall n ensures n in after.Keys <==> n in {Sentinel, Journal, Receipt} {
      assert n in files ==> n in {Sentinel, Journal, Receipt} || OwnTemp(p, n);
    }
  }

  lemma OpenJournalTidy(files: Files, p: Process, answer: Answer, sha: Data -> nat)
    requires Safe(files, sha) && StageHolds(files, p.stage, sha) && StageOrderly(files, p)
    requires p.stage.Writing? && p.stage.step == Rename && !ClosesJournal(p)
    ensures var (after, p') := ProcessStep(files, p, answer, sha);
            StageOrderly(after, p')
  {
  }

  lemma RenameTidy(files: Files, p: Process, answer: Answer, sha: Data -> nat)
    requires Plain(files) && Safe(files, sha) && StageHolds(files, p.stage, sha) && StageOrderly(files, p)
    requires p.stage.Writing? && p.stage.step == Rename
    ensures var (after, p') := ProcessStep(files, p, answer, sha);
            StageOrderly(after, p')
  {
    if ClosesJournal(p) {
      ClosedTidy(files, p, answer, sha);
    } else {
      OpenJournalTidy(files, p, answer, sha);
    }
  }

  lemma MarkerTidy(files: Files, p: Process, answer: Answer, sha: Data -> nat)
    requires Plain(files) && StageOrderly(files, p) && p.stage == RemovingMarker
    ensures var (after, p') := ProcessStep(files, p, answer, sha);
            StageOrderly(after, p')
  {
  }

  lemma SweepTidy(files: Files, p: Process, answer: Answer, sha: Data -> nat)
    requires Plain(files) && StageHolds(files, p.stage, sha) && StageOrderly(files, p) && p.stage.RemovingTransient?
    ensures var (after, p') := ProcessStep(files, p, answer, sha);
            StageOrderly(after, p')
  {
    var (after, p') := ProcessStep(files, p, answer, sha);
    RemoveOneEffect(files, TransientName(p.stage.which));
    assert SameAt(files, after, Journal) && SameAt(files, after, Receipt) && SameAt(files, after, Marker);
    forall n | n in after ensures n in files && n != TransientName(p.stage.which) {
      assert n in after.Keys;
    }
    forall n | n in after ensures Known(n) {
      assert n in files;
    }
  }

  lemma CensusTidy(files: Files, p: Process, answer: Answer, sha: Data -> nat)
    requires Plain(files) && StageOrderly(files, p) && p.stage == Census
    ensures var (after, p') := ProcessStep(files, p, answer, sha);
            StageOrderly(after, p')
  {
    forall n | n in files.Keys ensures n in {Sentinel, Journal} && Known(n) { assert !OwnTemp(p, n); }
    ResidueIsZero(files);
  }

  lemma LookTidy(files: Files, p: Process, answer: Answer, sha: Data -> nat)
    requires Plain(files) && Safe(files, sha) && StageHolds(files, p.stage, sha) && StageOrderly(files, p)
    requires p.stage.CheckingRoot? || p.stage.Waiting? || p.stage.Holding? || p.stage.FinalLook? || p.stage.Exited?
             || p.stage.ReadingJournal? || p.stage.CheckingReceipt?
    ensures var (after, p') := ProcessStep(files, p, answer, sha);
            StageOrderly(after, p')
  {
    if p.stage.CheckingRoot? { assert forall n :: n in files ==> n in files.Keys; }
    CleanEntries(files);
  }

  lemma OperationTidy(files: Files, p: Process, answer: Answer, sha: Data -> nat)
    requires Plain(files) && Safe(files, sha) && ProcessHolds(files, p, sha) && StageOrderly(files, p)
    ensures var (after, p') := ProcessStep(files, p, answer, sha);
            StageOrderly(after, p')
  {
    match p.stage {
      case Writing(_, Rename) => RenameTidy(files, p, answer, sha);
      case Writing(_, _) => WriteStepTidy(files, p, answer, sha);
      case RemovingMarker => MarkerTidy(files, p, answer, sha);
      case RemovingTransient(_) => SweepTidy(files, p, answer, sha);
      case Census => CensusTidy(files, p, answer, sha);
      case _ => LookTidy(files, p, answer, sha);
    }
  }

  /** The exact relation between the stage and what a kill leaves. */
  lemma StageExact(files: Files, p: Process, sha: Data -> nat)
    requires ProcessHolds(files, p, sha) && StageOrderly(files, p)
    ensures Recoverable(files) <==> !Exposed(p.stage)
  {
  }

  lemma StaysBeforeSignal(files: Files, p: Process, answer: Answer, sha: Data -> nat)
    requires BeforeSignal(p.stage)
    ensures BeforeSignal(ProcessStep(files, p, answer, sha).1.stage)
  {
  }

  lemma SignalTidy(files: Files, p: Process)
    requires StageOrderly(files, p) && BeforeSignal(p.stage) && !Exposed(p.stage) && !p.stage.Exited?
    ensures Preparing(files, p) && forall n :: !OwnTemp(p, n)
  {
  }

  lemma NextTidy(w: World, e: Event, sha: Data -> nat)
    requires Invariant(w, sha) && Tidy(w) && Admissible(w, e)
    ensures Tidy(Next(w, e, sha))
  {
    if w.process.Some? {
      var p := w.process.value;
      StageExact(w.files, p, sha);
      match e {
        case Operation(tick) =>
          var answer := AnswerAt(w.clock, tick);
          OperationTidy(w.files, p, answer, sha);
          if BeforeSignal(p.stage) { StaysBeforeSignal(w.files, p, answer, sha); }
        case Signal(_) =>
          if BeforeSignal(p.stage) && !Exposed(p.stage) && !p.stage.Exited? { SignalTidy(w.files, p); }
        case _ =>
      }
    }
  }

  lemma {:induction false} SessionTidy(w: World, events: seq<Event>, sha: Data -> nat)
    requires Invariant(w, sha) && Tidy(w) && Orderly(w, events, sha)
    ensures Invariant(Run(w, events, sha), sha) && Tidy(Run(w, events, sha))
    decreases events
  {
    if events != [] {
      NextTidy(w, events[0], sha);
      NextKeepsInvariant(w, events[0], sha);
      SessionTidy(Next(w, events[0], sha), events[1..], sha);
    }
  }

  lemma FreshRoot(files: Files, p: Process)
    requires Plain(files) && StageOrderly(files, p) && Exposed(p.stage) && !Window(p.stage)
    ensures files.Keys == {Sentinel} && !Stuck(files)
  {
    forall n ensures n in files <==> n == Sentinel { assert !OwnTemp(p, n); assert n in files <==> n in files.Keys; }
    assert Journal !in files && Receipt !in files && Started !in files;
  }

  lemma WindowExact(files: Files, p: Process, sha: Data -> nat)
    requires Plain(files) && ProcessHolds(files, p, sha) && StageOrderly(files, p)
    ensures Stuck(files) <==> Window(p.stage)
    ensures Exposed(p.stage) && !Window(p.stage) ==> files.Keys == {Sentinel}
  {
    StageExact(files, p, sha);
    if Window(p.stage) {
      WindowStuck(files, p, sha);
    } else if Exposed(p.stage) {
      FreshRoot(files, p);
    } else if Stuck(files) {
      StuckNotRecoverable(files);
    }
  }

  /** What a kill at a stage leaves is recoverable, stuck or fresh, as the stage says. */
  predicate CrashExact(files: Files, stage: Stage, pid: nat, elapsed: Seconds, sha: Data -> nat) {
    && (Recover(files, pid, elapsed, sha).1 <==> !Exposed(stage))
    && (Stuck(files) <==> Window(stage))
    && (Exposed(stage) && !Window(stage) ==> files.Keys == {Sentinel})
  }

  lemma TidyCrash(now: World, p: Process, pid: nat, elapsed: Seconds, sha: Data -> nat)
    requires Invariant(now, sha) && Tidy(now) && now.process == Some(p) && elapsed <= RTO_SECONDS
    ensures CrashExact(now.files, p.stage, pid, elapsed, sha)
  {
    StageExact(now.files, p, sha);
    RecoverableExact(now.files, pid, elapsed, sha);
    WindowExact(now.files, p, sha);
  }

  /** The exact crash points: in an orderly session, however many runs, recoveries and
      survived kills it has had, killing the process now lets a recovery in time succeed
      exactly when the stage is not an exposed one; a kill in a window leaves a directory
      that nothing can settle, and at the other exposed stages the root is still fresh. */
  lemma CrashPointByStage(
    w: World, events: seq<Event>, p: Process, pid: nat, elapsed: Seconds, sha: Data -> nat)
    requires Initial(w) && Orderly(w, events, sha) && Run(w, events, sha).process == Some(p)
    requires elapsed <= RTO_SECONDS
    ensures CrashExact(Run(w, events + [Kill], sha).files, p.stage, pid, elapsed, sha)
  {
    SessionTidy(w, events, sha);
    TidyCrash(Run(w, events, sha), p, pid, elapsed, sha);
    KillKeepsFiles(w, events, sha);
  }

  lemma KillKeepsFiles(w: World, events: seq<Event>, sha: Data -> nat)
    ensures Run(w, events + [Kill], sha) == Run(w, events, sha).(process := None)
  {
    RunSplit(w, events, [Kill], sha);
    RunOne(Run(w, events, sha), Kill, [], sha);
  }

  // --------------------------------------------------------------------------
  // Event sequences that reach the windows

  /** The stages of `run` up to its wait. */
  predicate OnPreparation(p: Process) {
    match p.stage
    case Writing(job, _) => job in {JOURNAL_JOB, MARKER_JOB, READY_JOB}
    case _ => p.stage.CheckingRoot? || p.stage.Waiting? || p.stage.Exited?
  }

  /** Within its patience, only the wait looks at the time. */
  lemma PreparationStep(files: Files, p: Process, given: Answer, answer: Answer, sha: Data -> nat)
    requires OnPreparation(p) && answer.whole && answer.elapsed < PATIENCE
    requires p.stage.Waiting? ==> given.elapsed < PATIENCE
    ensures OnPreparation(ProcessStep(files, p, given, sha).1)
    ensures ProcessStep(files, p, given, sha) ==
            if CutShort(p, given.whole) then (files, p) else ProcessStep(files, p, answer, sha)
  {
    StaysBeforeSignal(files, p, given, sha);
    if p.stage.Writing? { StepInWrite(files, p, given, answer, sha); }
  }

  lemma {:induction false} StepsPreparation(
    files: Files, p: Process, clock: Seconds, ticks: seq<Tick>, answer: Answer, sha: Data -> nat)
    returns (k: nat)
    requires OnPreparation(p) && answer.whole && answer.elapsed < PATIENCE
    requires Total(ticks) < PATIENCE && (p.stage.Waiting? ==> clock + Total(ticks) < PATIENCE)
    ensures Wholes(ticks) <= k <= |ticks|
    ensures Reaches(files, p, clock, ticks, sha, Drive(files, p, answer, k, sha))
    decreases |ticks|
  {
    if ticks == [] {
      k := 0;
    } else {
      var given := AnswerAt(clock, ticks[0]);
      PreparationStep(files, p, given, answer, sha);
      var (after, p') := ProcessStep(files, p, given, sha);
      k := StepsPreparation(after, p', ClockAfter(p, p', given.elapsed), ticks[1..], answer, sha);
      if !CutShort(p, ticks[0].whole) { k := k + 1; }
    }
  }

  /** The operations of `run` until its journal stands, and until it waits. */
  const JOURNAL_OPERATIONS: nat := 5
  const PREPARATION_OPERATIONS: nat := 13

  function Fresh(pid: nat): Process {
    Process(pid, false, CheckingRoot, false, JournalRecovery, 0)
  }

  function Journalled(files: Files): Files {
    files[Journal := File(JournalData(Prepared), true)]
  }

  function WithNotes(files: Files): Files {
    Journalled(files)[Marker := File(MarkerText, true)][Ready := File(ReadyText, true)]
  }

  lemma DriveJournal(files: Files, pid: nat, answer: Answer, sha: Data -> nat)
    requires files.Keys == {Sentinel} && answer.whole
    ensures Drive(files, Fresh(pid), answer, JOURNAL_OPERATIONS, sha) ==
            (Journalled(files), Fresh(pid).(stage := Writing(MARKER_JOB, Open)))
  {
    var p := Fresh(pid);
    var q := p.(stage := Writing(JOURNAL_JOB, Open));
    assert Temp(Journal, pid) !in files.Keys && Journal !in files.Keys;
    assert ProcessStep(files, p, answer, sha) == (files, q);
    DriveWrite(files, q, JOURNAL_JOB, answer, sha);
  }

  lemma DriveNotes(files: Files, pid: nat, answer: Answer, sha: Data -> nat)
    requires files.Keys == {Sentinel, Journal} && answer.whole
    ensures Drive(files, Fresh(pid).(stage := Writing(MARKER_JOB, Open)), answer, 8, sha) ==
            (files[Marker := File(MarkerText, true)][Ready := File(ReadyText, true)], Fresh(pid).(stage := Waiting))
  {
    var p := Fresh(pid).(stage := Writing(MARKER_JOB, Open));
    assert Temp(Marker, pid) !in files.Keys && Marker !in files.Keys;
    DriveWrite(files, p, MARKER_JOB, answer, sha);
    DriveSplit(files, p, answer, 4, 4, sha);
    var marked := files[Marker := File(MarkerText, true)];
    var q := p.(stage := Writing(READY_JOB, Open));
    assert marked.Keys == {Sentinel, Journal, Marker};
    assert Temp(Ready, pid) !in marked.Keys && Ready !in marked.Keys;
    DriveWrite(marked, q, READY_JOB, answer, sha);
  }

  lemma DrivePrepare(files: Files, pid: nat, answer: Answer, sha: Data -> nat)
    requires files.Keys == {Sentinel} && answer.whole
    ensures Drive(files, Fresh(pid), answer, PREPARATION_OPERATIONS, sha) ==
            (WithNotes(files), Fresh(pid).(stage := Waiting))
  {
    DriveJournal(files, pid, answer, sha);
    DriveSplit(files, Fresh(pid), answer, JOURNAL_OPERATIONS, 8, sha);
    assert Journalled(files).Keys == {Sentinel, Journal};
    DriveNotes(Journalled(files), pid, answer, sha);
  }

  /** The world after so many prompt operations of a fresh run. */
  lemma RunPreparation(w: World, pid: nat, n: nat, sha: Data -> nat)
    requires w.process == Some(Fresh(pid))
    ensures var now := Run(w, Operations(Prompt(n)), sha);
            && now.process.Some?
            && (now.files, now.process.value) == Drive(w.files, Fresh(pid), Answer(true, 0.0), n, sha)
  {
    PromptTicks(n);
    RunOperations(w, Fresh(pid), Prompt(n), sha);
    var k := StepsPreparation(w.files, Fresh(pid), w.clock, Prompt(n), Answer(true, 0.0), sha);
  }

  /** Killed one operation into the write of the marker: the temporary entry stays. */
  lemma LeftoverReached(w: World, pid: nat, sha: Data -> nat) returns (events: seq<Event>)
    requires Initial(w)
    ensures var now := Run(w, events, sha);
            && now.process == None && JournalPrepared(now.files) && Receipt !in now.files
            && now.files.Keys == {Sentinel, Journal, Temp(Marker, pid)} && Stuck(now.files)
  {
    var answer := Answer(true, 0.0);
    var steps := Operations(Prompt(JOURNAL_OPERATIONS + 1));
    events := [StartRun(pid)] + (steps + [Kill]);
    var started := Next(w, StartRun(pid), sha);
    RunOne(w, StartRun(pid), steps + [Kill], sha);
    KillKeepsFiles(started, steps, sha);
    RunPreparation(started, pid, JOURNAL_OPERATIONS + 1, sha);
    DriveMarkerTemp(w.files, pid, answer, sha);
    var after := Run(started, steps, sha).files;
    assert Temp(Marker, pid) !in Journalled(w.files).Keys && Temp(Marker, pid) in after && !Known(Temp(Marker, pid));
    assert after.Keys == {Sentinel, Journal, Temp(Marker, pid)};
  }

  lemma DriveMarkerTemp(files: Files, pid: nat, answer: Answer, sha: Data -> nat)
    requires files.Keys == {Sentinel} && answer.whole
    ensures Drive(files, Fresh(pid), answer, JOURNAL_OPERATIONS + 1, sha).0 ==
            Journalled(files)[Temp(Marker, pid) := File(Part(MarkerText), true)]
  {
    DriveJournal(files, pid, answer, sha);
    DriveSplit(files, Fresh(pid), answer, JOURNAL_OPERATIONS, 1, sha);
    var q := Fresh(pid).(stage := Writing(MARKER_JOB, Open));
    var (after, r) := ProcessStep(Journalled(files), q, answer, sha);
    assert Drive(Journalled(files), q, answer, 1, sha) == Drive(after, r, answer, 0, sha) == (after, r);
    assert Temp(Marker, pid) !in Journalled(files).Keys;
  }

  /** The operations of a recovery until its census, and until its receipt stands. */
  const SWEPT_OPERATIONS: nat := 6
  const RECEIPT_OPERATIONS: nat := 11

  lemma DriveToCensus(files: Files, pid: nat, answer: Answer, sha: Data -> nat)
    requires Plain(files) && files.Keys == {Sentinel, Journal} && JournalPrepared(files)
    ensures var (after, q) := Drive(files, Recovering(pid), answer, SWEPT_OPERATIONS, sha);
            after == files && q.pid == pid && q.trigger == JournalRecovery && q.stage == Census
  {
    DriveSplit(files, Recovering(pid), answer, 2, 4, sha);
    DriveLooks(files, Recovering(pid), answer, sha);
    assert forall n :: n in files ==> n in files.Keys;
    var q := Drive(files, Recovering(pid), answer, 2, sha).1;
    DriveSweep(files, q, answer, sha);
    assert Sweep(files) == (files, true);
  }

  /** A recovery up to its receipt. */
  lemma DriveToReceipt(files: Files, pid: nat, answer: Answer, sha: Data -> nat)
    requires Plain(files) && files.Keys == {Sentinel, Journal} && JournalPrepared(files)
    requires answer.whole && answer.elapsed <= RTO_SECONDS
    ensures Drive(files, Recovering(pid), answer, RECEIPT_OPERATIONS, sha).0 ==
            files[Receipt := File(ReceiptFor(0, JournalRecovery, answer.elapsed), true)]
  {
    DriveToCensus(files, pid, answer, sha);
    DriveSplit(files, Recovering(pid), answer, SWEPT_OPERATIONS, 5, sha);
    var q := Drive(files, Recovering(pid), answer, SWEPT_OPERATIONS, sha).1;
    ResidueIsZero(files);
    var job := ReceiptJob(0, JournalRecovery, answer.elapsed);
    var r := q.(stage := Writing(job, Open));
    assert ProcessStep(files, q, answer, sha) == (files, r);
    assert Temp(Receipt, pid) !in files.Keys && Receipt !in files.Keys;
    DriveWrite(files, r, job, answer, sha);
  }

  /** The world after so many prompt operations of a recovery. */
  lemma RunRecovery(w: World, pid: nat, n: nat, sha: Data -> nat)
    requires w.process == Some(Recovering(pid))
    ensures Run(w, Operations(Prompt(n)), sha).files == Drive(w.files, Recovering(pid), Answer(true, 0.0), n, sha).0
  {
    PromptTicks(n);
    RunOperations(w, Recovering(pid), Prompt(n), sha);
    var k, elapsed := StepsDrive(w.files, Recovering(pid), w.clock, Prompt(n), sha);
  }

  lemma KilledRecovery(dead: World, pid: nat, sha: Data -> nat)
    requires dead.process == None && Plain(dead.files) && dead.files.Keys == {Sentinel, Journal}
    requires JournalPrepared(dead.files)
    ensures var now := Run(dead, [StartRecover(pid)] + (Operations(Prompt(RECEIPT_OPERATIONS)) + [Kill]), sha);
            && now.process == None && JournalPrepared(now.files) && Receipt in now.files
            && now.files.Keys == {Sentinel, Journal, Receipt} && Stuck(now.files)
  {
    var steps := Operations(Prompt(RECEIPT_OPERATIONS));
    var started := Next(dead, StartRecover(pid), sha);
    RunOne(dead, StartRecover(pid), steps + [Kill], sha);
    KillKeepsFiles(started, steps, sha);
    RunRecovery(started, pid, RECEIPT_OPERATIONS, sha);
    DriveToReceipt(dead.files, pid, Answer(true, 0.0), sha);
    assert dead.files.Keys + {Receipt} == {Sentinel, Journal, Receipt};
  }

  /** A second process, killed after its receipt and before its closed journal. */
  lemma EarlyReceiptReached(w: World, pid: nat, later: nat, sha: Data -> nat) returns (events: seq<Event>)
    requires Initial(w)
    ensures var now := Run(w, events, sha);
            && now.process == None && JournalPrepared(now.files) && Receipt in now.files
            && now.files.Keys == {Sentinel, Journal, Receipt} && Stuck(now.files)
  {
    var first := Operations(Prompt(JOURNAL_OPERATIONS)) + [Kill];
    var second := [StartRecover(later)] + (Operations(Prompt(RECEIPT_OPERATIONS)) + [Kill]);
    events := [StartRun(pid)] + (first + second);
    var started := Next(w, StartRun(pid), sha);
    RunOne(w, StartRun(pid), first + second, sha);
    RunSplit(started, first, second, sha);
    KillKeepsFiles(started, Operations(Prompt(JOURNAL_OPERATIONS)), sha);
    RunPreparation(started, pid, JOURNAL_OPERATIONS, sha);
    DriveJournal(w.files, pid, Answer(true, 0.0), sha);
    KilledRecovery(Run(started, first, sha), later, sha);
  }

  // --------------------------------------------------------------------------
  // How processes end

  /** Over all runs: a process that ends well leaves, at that very step, a settled directory. */
  lemma EndsWellSettled(w: World, events: seq<Event>, tick: Tick, sha: Data -> nat)
    requires Initial(w)
    requires var now := Run(w, events, sha); now.process.Some? && !now.process.value.stage.Exited?
    ensures var next := Next(Run(w, events, sha), Operation(tick), sha);
            next.process.value.stage == Exited(true) ==> Settled(next.files, sha)
  {
    var now := Run(w, events, sha);
    RunKeepsInvariant(w, events, sha);
    EndSettled(now.files, now.process.value, AnswerAt(now.clock, tick), sha);
  }

  lemma EndSettled(files: Files, p: Process, answer: Answer, sha: Data -> nat)
    requires Plain(files) && Safe(files, sha) && StageHolds(files, p.stage, sha) && !p.stage.Exited?
    ensures var (after, stage) := StageStep(files, p, answer, sha);
            stage == Exited(true) ==> Settled(after, sha)
  {
    SettledExact(files, sha);
  }
}
