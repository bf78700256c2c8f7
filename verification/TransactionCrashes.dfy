/** What a kill leaves behind: which directories a later recovery finishes, which nothing can
    ever finish, and at which stages a kill makes the difference. */
module TransactionCrashes {
  import opened Text
  import opened TransactionFiles
  import opened TransactionRuns

  // --------------------------------------------------------------------------
  // What recovery can finish

  /** Neither a temporary entry nor a foreign one. */
  predicate Known(n: Name) {
    !n.Temp? && !n.Foreign?
  }

  predicate AllKnown(files: Files) {
    forall n :: n in files ==> Known(n)
  }

  /** The transaction is closed and everything is in order. */
  predicate Settled(files: Files, sha: Data -> nat) {
    ReadJournal(files).Some? && ClosedStateValid(files, ReadJournal(files).value, sha)
  }

  predicate CleanlyClosed(files: Files) {
    JournalClosed(files) && ReadJournal(files).value.residue == 0 && files.Keys == {Sentinel, Journal, Receipt}
  }

  /** A prepared journal without a receipt among known entries, or a clean closed state. */
  predicate Recoverable(files: Files) {
    (JournalPrepared(files) && Receipt !in files && AllKnown(files)) || CleanlyClosed(files)
  }

  lemma SettledExact(files: Files, sha: Data -> nat)
    requires Plain(files) && Safe(files, sha)
    ensures Settled(files, sha) <==> CleanlyClosed(files)
  {
    if CleanlyClosed(files) {
      assert Marker !in files.Keys && Journal in files.Keys && Receipt in files.Keys;
      assert ClosedOver(files, sha);
    }
    if Settled(files, sha) {
      assert Journal in files.Keys;
    }
  }

  lemma KnownEntries(files: Files)
    requires Plain(files) && Journal in files
    ensures OnlyKnownEntries(files) <==> Receipt !in files && AllKnown(files)
  {
    if OnlyKnownEntries(files) {
      forall n | n in files ensures Known(n) && n != Receipt {
        assert n in files.Keys;
      }
    }
    if Receipt !in files && AllKnown(files) {
      forall n | n in files.Keys ensures n in {Sentinel, Journal, Marker} + TRANSIENT {
        assert Known(n);
      }
    }
  }

  lemma RecoverableExact(files: Files, pid: nat, elapsed: Seconds, sha: Data -> nat)
    requires Plain(files) && Safe(files, sha)
    ensures Recover(files, pid, elapsed, sha).1 ==> Recoverable(files)
    ensures elapsed <= RTO_SECONDS && Recoverable(files) ==> Recover(files, pid, elapsed, sha).1
  {
    SettledExact(files, sha);
    if JournalPrepared(files) {
      KnownEntries(files);
      RecoverSucceedsExactly(files, pid, elapsed, sha);
    }
  }

  // --------------------------------------------------------------------------
  // What nothing can finish

  /** An entry that no operation removes; a receipt without its closed journal; a closed
      journal over a residue; or a note that only a prepared journal lets recovery remove. */
  predicate Stuck(files: Files) {
    || !AllKnown(files)
    || (Receipt in files && !JournalClosed(files))
    || (JournalClosed(files) && ReadJournal(files).value.residue > 0)
    || (Started in files && !JournalPrepared(files))
  }

  datatype Reason = Alien(n: Name) | EarlyReceipt | ResidueRecorded | LostNote

  predicate ClosesJournal(p: Process) {
    p.stage.Writing? && p.stage.job.n == Journal && p.stage.job.replace
  }

  /** The process is past its own note and may remove it. */
  predicate Sweeps(stage: Stage) {
    stage.Holding? || stage.RemovingMarker? || stage.RemovingTransient?
  }

  predicate StuckFor(w: World, why: Reason) {
    match why
    case Alien(n) => n in w.files && !Known(n) && (w.process.Some? ==> !OwnTemp(w.process.value, n))
    case EarlyReceipt =>
      Receipt in w.files && !JournalClosed(w.files) && (w.process.Some? ==> !ClosesJournal(w.process.value))
    case ResidueRecorded => JournalClosed(w.files) && ReadJournal(w.files).value.residue > 0
    case LostNote =>
      Started in w.files && !JournalPrepared(w.files) && (w.process.Some? ==> !Sweeps(w.process.value.stage))
  }

  predicate Unfinished(w: World) {
    w.process.Some? ==> w.process.value.stage != Exited(true)
  }

  lemma StuckReason(w: World) returns (why: Reason)
    requires Stuck(w.files) && w.process == None
    ensures StuckFor(w, why)
  {
    if !AllKnown(w.files) {
      var n :| n in w.files && !Known(n);
      why := Alien(n);
    } else if Receipt in w.files && !JournalClosed(w.files) {
      why := EarlyReceipt;
    } else if JournalClosed(w.files) && ReadJournal(w.files).value.residue > 0 {
      why := ResidueRecorded;
    } else {
      why := LostNote;
    }
  }

  lemma ReasonStuck(w: World, why: Reason)
    requires StuckFor(w, why)
    ensures Stuck(w.files)
  {
  }

  lemma CleanEntries(files: Files)
    ensures CleanlyClosed(files) ==> AllKnown(files) && Started !in files
  {
    if files.Keys == {Sentinel, Journal, Receipt} {
      assert forall n :: n in files ==> n in files.Keys;
      assert Started !in files.Keys;
    }
  }

  lemma StuckNotRecoverable(files: Files)
    requires Stuck(files)
    ensures !Recoverable(files)
  {
    CleanEntries(files);
  }

  /** No operation makes a stuck directory succeed. */
  lemma StepUnfinished(files: Files, p: Process, answer: Answer, sha: Data -> nat)
    requires Plain(files) && Safe(files, sha) && StageHolds(files, p.stage, sha)
    requires Stuck(files) && p.stage != Exited(true)
    ensures StageStep(files, p, answer, sha).1 != Exited(true)
  {
    StuckNotRecoverable(files);
    SettledExact(files, sha);
  }

  lemma AlienStays(files: Files, p: Process, answer: Answer, n: Name, sha: Data -> nat)
    requires n in files && !Known(n) && !OwnTemp(p, n)
    ensures var (after, p') := ProcessStep(files, p, answer, sha);
            n in after && !OwnTemp(p', n)
  {
  }

  lemma EarlyReceiptStays(files: Files, p: Process, answer: Answer, sha: Data -> nat)
    requires Plain(files) && Safe(files, sha) && StageHolds(files, p.stage, sha)
    requires Receipt in files && !JournalClosed(files) && !ClosesJournal(p)
    ensures var (after, p') := ProcessStep(files, p, answer, sha);
            Receipt in after && !JournalClosed(after) && !ClosesJournal(p')
  {
    ProcessStepSafe(files, p, answer, sha);
    if p.stage.Writing? && p.stage.step == Rename {
      RenameKeepsOpen(files, p, answer, sha);
    } else {
      JournalKept(files, p, answer, sha);
    }
  }

  lemma RenameKeepsOpen(files: Files, p: Process, answer: Answer, sha: Data -> nat)
    requires StageHolds(files, p.stage, sha) && p.stage.Writing? && p.stage.step == Rename
    requires Receipt in files && !JournalClosed(files) && !ClosesJournal(p)
    ensures var (after, p') := ProcessStep(files, p, answer, sha);
            !JournalClosed(after) && !ClosesJournal(p')
  {
  }

  lemma WriteKeepsJournal(files: Files, p: Process, answer: Answer, sha: Data -> nat)
    requires p.stage.Writing? && p.stage.step != Rename
    ensures var (after, p') := ProcessStep(files, p, answer, sha);
            && SameAt(files, after, Journal) && SameAt(files, after, Receipt)
            && (ClosesJournal(p') ==> ClosesJournal(p))
  {
  }

  lemma JournalKept(files: Files, p: Process, answer: Answer, sha: Data -> nat)
    requires !(p.stage.Writing? && p.stage.step == Rename)
    ensures var (after, p') := ProcessStep(files, p, answer, sha);
            && SameAt(files, after, Journal) && SameAt(files, after, Receipt)
            && (ClosesJournal(p') ==> ClosesJournal(p))
  {
    match p.stage {
      case Writing(_, _) => WriteKeepsJournal(files, p, answer, sha);
      case RemovingTransient(which) => RemoveOneEffect(files, TransientName(which));
      case _ =>
    }
  }

  lemma LostNoteInWrite(files: Files, p: Process, answer: Answer, sha: Data -> nat)
    requires StageHolds(files, p.stage, sha) && p.stage.Writing?
    requires Started in files && !JournalPrepared(files)
    ensures var (after, p') := ProcessStep(files, p, answer, sha);
            Started in after && !JournalPrepared(after) && !Sweeps(p'.stage)
  {
  }

  lemma LostNoteStays(files: Files, p: Process, answer: Answer, sha: Data -> nat)
    requires StageHolds(files, p.stage, sha)
    requires Started in files && !JournalPrepared(files) && !Sweeps(p.stage)
    ensures var (after, p') := ProcessStep(files, p, answer, sha);
            Started in after && !JournalPrepared(after) && !Sweeps(p'.stage)
  {
    if p.stage.Writing? { LostNoteInWrite(files, p, answer, sha); }
  }

  lemma NextStaysStuck(w: World, e: Event, why: Reason, sha: Data -> nat)
    requires Invariant(w, sha) && StuckFor(w, why) && Unfinished(w)
    ensures StuckFor(Next(w, e, sha), why) && Unfinished(Next(w, e, sha))
  {
    ReasonStuck(w, why);
    if e.Operation? && w.process.Some? {
      var p := w.process.value;
      var answer := AnswerAt(w.clock, e.tick);
      StepUnfinished(w.files, p, answer, sha);
      match why {
        case Alien(n) => AlienStays(w.files, p, answer, n, sha);
        case EarlyReceipt => EarlyReceiptStays(w.files, p, answer, sha);
        case ResidueRecorded => NextIsFinal(w, e, sha);
        case LostNote => LostNoteStays(w.files, p, answer, sha);
      }
    }
  }

  lemma {:induction false} RunStaysStuck(w: World, events: seq<Event>, why: Reason, sha: Data -> nat)
    requires Invariant(w, sha) && StuckFor(w, why) && Unfinished(w)
    ensures StuckFor(Run(w, events, sha), why) && Unfinished(Run(w, events, sha))
    decreases events
  {
    if events != [] {
      NextStaysStuck(w, events[0], why, sha);
      NextKeepsInvariant(w, events[0], sha);
      RunStaysStuck(Next(w, events[0], sha), events[1..], why, sha);
    }
  }

  predicate Dead(w: World, events: seq<Event>, sha: Data -> nat) {
    Initial(w) && Run(w, events, sha).process == None
  }

  /** What is stuck stays stuck: whatever is started, signalled, killed or put there later,
      the directory is never settled, no process ends well, and recovery is refused. */
  lemma StrandedForever(w: World, events: seq<Event>, later: seq<Event>, sha: Data -> nat)
    requires Dead(w, events, sha) && Stuck(Run(w, events, sha).files)
    ensures var now := Run(Run(w, events, sha), later, sha);
            && Stuck(now.files) && !Settled(now.files, sha) && Unfinished(now)
            && forall pid, elapsed: Seconds :: !Recover(now.files, pid, elapsed, sha).1
  {
    var dead := Run(w, events, sha);
    var now := Run(dead, later, sha);
    RunKeepsInvariant(w, events, sha);
    RunKeepsInvariant(dead, later, sha);
    var why := StuckReason(dead);
    RunStaysStuck(dead, later, why, sha);
    ReasonStuck(now, why);
    StuckNotRecoverable(now.files);
    SettledExact(now.files, sha);
    forall pid: nat, elapsed: Seconds ensures !Recover(now.files, pid, elapsed, sha).1 {
      RecoverableExact(now.files, pid, elapsed, sha);
    }
  }

  // --------------------------------------------------------------------------
  // Recovery after a kill, as a run

  lemma ClosedSettles(files: Files, seconds: real, trigger: Trigger, sha: Data -> nat)
    requires 0.0 <= seconds <= RTO_SECONDS && files.Keys == {Sentinel, Journal, Receipt}
    requires var receipt := ReceiptData(CleanupReceipt(seconds, 0, true, trigger));
             Holds(files, Receipt, receipt) && Holds(files, Journal, JournalData(Closed(sha(receipt), 0, trigger)))
    ensures Settled(files, sha)
  {
    assert Marker !in files.Keys;
  }

  lemma RecoverSettles(files: Files, pid: nat, elapsed: Seconds, sha: Data -> nat)
    requires Recover(files, pid, elapsed, sha).1
    ensures Settled(Recover(files, pid, elapsed, sha).0, sha)
  {
    if ReadJournal(files) == Some(Prepared) {
      RecoverPublishes(files, pid, elapsed, sha);
      MicrosBounded(elapsed);
      ClosedSettles(Recover(files, pid, elapsed, sha).0, Micros(elapsed), JournalRecovery, sha);
    }
  }

  /** After a kill at any point of any run, a recovery that is left alone in time ends well
      exactly when the directory was recoverable, and then leaves it settled. */
  lemma CrashPointExact(w: World, events: seq<Event>, pid: nat, ticks: seq<Tick>, sha: Data -> nat)
    requires Initial(w) && Total(ticks) <= RTO_SECONDS && Wholes(ticks) >= RECOVERY_OPERATIONS
    ensures var killed := Run(w, events + [Kill], sha);
            var end := Run(killed, [StartRecover(pid)] + Operations(ticks), sha);
            && end.process.Some? && end.process.value.stage == Exited(Recoverable(killed.files))
            && (Recoverable(killed.files) ==> Settled(end.files, sha))
  {
    var killed := Run(w, events + [Kill], sha);
    RunSplit(w, events, [Kill], sha);
    RunKeepsInvariant(w, events + [Kill], sha);
    RunOne(Run(w, events, sha), Kill, [], sha);
    RecoveryExact(killed, pid, ticks, sha);
  }

  /** A recovery that is started where no process lives, and left alone in time. */
  lemma RecoveryExact(dead: World, pid: nat, ticks: seq<Tick>, sha: Data -> nat)
    requires Plain(dead.files) && Safe(dead.files, sha) && Idle(dead)
    requires Total(ticks) <= RTO_SECONDS && Wholes(ticks) >= RECOVERY_OPERATIONS
    ensures var end := Run(dead, [StartRecover(pid)] + Operations(ticks), sha);
            && end.process.Some? && end.process.value.stage == Exited(Recoverable(dead.files))
            && (Recoverable(dead.files) ==> Settled(end.files, sha))
  {
    var started := Next(dead, StartRecover(pid), sha);
    RunOne(dead, StartRecover(pid), Operations(ticks), sha);
    RunOperations(started, Recovering(pid), ticks, sha);
    var elapsed := RecoverUninterrupted(dead.files, pid, started.clock, ticks, sha);
    RecoverableExact(dead.files, pid, elapsed, sha);
    if Recoverable(dead.files) { RecoverSettles(dead.files, pid, elapsed, sha); }
  }

  // --------------------------------------------------------------------------
  // Whatever is not stuck can still be settled

  /** Ticks that take every write whole and no time. */
  function Prompt(n: nat): seq<Tick> {
    seq(n, _ => Tick(true, 0.0))
  }

  lemma {:induction false} PromptTicks(n: nat)
    ensures Wholes(Prompt(n)) == n && Total(Prompt(n)) == 0.0
  {
    if n > 0 {
      assert Prompt(n)[1..] == Prompt(n - 1);
      PromptTicks(n - 1);
    }
  }

  /** The operations of a signalled process: its note, the end of the hold, the cleanup. */
  const NOTE_OPERATIONS: nat := 4
  const SIGNALLED_OPERATIONS: nat := 19

  /** The process that a signal leaves, before it has written its note. */
  predicate Signalled(p: Process, trigger: Trigger) {
    p.stage == Writing(STARTED_JOB, Open) && p.trigger == trigger
  }

  predicate Unnoted(files: Files, pid: nat) {
    Started !in files && Temp(Started, pid) !in files
  }

  function Noted(files: Files): Files {
    files[Started := File(StartedText, true)]
  }

  /** A signalled process from the first operation to the last, where the hold is ended by
      `cleanup.continue` or by the time. */
  lemma DriveSignalled(files: Files, p: Process, trigger: Trigger, answer: Answer, sha: Data -> nat)
    requires Signalled(p, trigger) && answer.whole && Unnoted(files, p.pid)
    requires Exists(files, Continue) || answer.elapsed >= RTO_SECONDS
    ensures var (after, ok) := FinishCleanup(Noted(files), p.pid, trigger, answer.elapsed, sha);
            Drive(files, p, answer, SIGNALLED_OPERATIONS, sha) == (after, p.(stage := Exited(ok)))
  {
    DriveWrite(files, p, STARTED_JOB, answer, sha);
    DriveSplit(files, p, answer, NOTE_OPERATIONS, CLEANUP_OPERATIONS + 1, sha);
    var (noted, q) := Drive(files, p, answer, NOTE_OPERATIONS, sha);
    assert noted == Noted(files) && q == p.(stage := Holding);
    assert Exists(noted, Continue) <==> Exists(files, Continue);
    var r := ProcessStep(noted, q, answer, sha).1;
    DriveCleanup(noted, r, answer, sha);
  }

  /** Neither prepared nor stuck: nothing yet, or a clean closed state, beside notes that
      a cleanup removes. */
  lemma CleanupSettles(files: Files, pid: nat, trigger: Trigger, elapsed: Seconds, sha: Data -> nat)
    requires Plain(files) && Safe(files, sha) && !Stuck(files) && !JournalPrepared(files) && elapsed <= RTO_SECONDS
    ensures Settled(FinishCleanup(Noted(files), pid, trigger, elapsed, sha).0, sha)
  {
    var noted := Noted(files);
    SweepEffect(noted);
    var swept := Sweep(noted).0;
    assert SameAt(noted, swept, Journal) && SameAt(noted, swept, Receipt);
    assert Sweepable(noted);
    forall n | n in SweptKeys(noted) ensures n in {Sentinel, Journal, Receipt} { assert Known(n); }
    assert Sentinel in SweptKeys(noted);
    if Journal in files {
      assert SweptKeys(noted) == {Sentinel, Journal, Receipt};
      ClosedCleanup(swept, pid, trigger, elapsed, sha);
    } else {
      assert SweptKeys(noted) == {Sentinel};
      FreshPublish(swept, pid, trigger, elapsed, sha);
    }
  }

  lemma ClosedCleanup(files: Files, pid: nat, trigger: Trigger, elapsed: Seconds, sha: Data -> nat)
    requires files.Keys == {Sentinel, Journal, Receipt} && ClosedOver(files, sha) && WholeReceipt(files)
    requires files[Receipt].data.receipt.residue == 0
    ensures Settled(Publish(files, pid, trigger, elapsed, sha).0, sha)
  {
    assert Marker !in files.Keys && Receipt in files.Keys;
  }

  lemma FreshPublish(files: Files, pid: nat, trigger: Trigger, elapsed: Seconds, sha: Data -> nat)
    requires files.Keys == {Sentinel} && elapsed <= RTO_SECONDS
    ensures Settled(Publish(files, pid, trigger, elapsed, sha).0, sha)
  {
    ResidueIsZero(files);
    MicrosBounded(elapsed);
    assert Receipt !in files.Keys && Temp(Receipt, pid) !in files.Keys && Temp(Journal, pid) !in files.Keys;
    var after := Publish(files, pid, trigger, elapsed, sha).0;
    assert after.Keys == {Sentinel, Journal, Receipt};
    assert Marker !in after.Keys;
  }

  function WithContinue(files: Files): Files {
    if Continue in files then files else files[Continue := File(Junk(0), true)]
  }

  lemma ContinueHarmless(files: Files, sha: Data -> nat)
    requires Plain(files) && Safe(files, sha) && !Stuck(files) && !JournalPrepared(files)
    ensures var after := WithContinue(files);
            Plain(after) && Safe(after, sha) && !Stuck(after) && !JournalPrepared(after) && Exists(after, Continue)
  {
    FrameSafe(files, WithContinue(files), sha);
  }

  function NoteAndContinue(): seq<Event> {
    Operations(Prompt(NOTE_OPERATIONS)) + ([ContinueAppears] + Operations(Prompt(CLEANUP_OPERATIONS + 1)))
  }

  /** The events that settle a directory: a recovery, or a run that is signalled at once and
      told to continue after its note. */
  function Salvage(files: Files): seq<Event> {
    if JournalPrepared(files) then [StartRecover(0)] + Operations(Prompt(RECOVERY_OPERATIONS))
    else [StartRun(0)] + ([Signal(SignalTerm)] + NoteAndContinue())
  }

  lemma SalvagePrepared(dead: World, sha: Data -> nat)
    requires Invariant(dead, sha) && dead.process == None && !Stuck(dead.files) && JournalPrepared(dead.files)
    ensures Settled(Run(dead, Salvage(dead.files), sha).files, sha)
  {
    PromptTicks(RECOVERY_OPERATIONS);
    RecoveryExact(dead, 0, Prompt(RECOVERY_OPERATIONS), sha);
  }

  lemma NoteWritten(w: World, p: Process, sha: Data -> nat)
    requires w.process == Some(p) && p.stage == Writing(STARTED_JOB, Open) && Unnoted(w.files, p.pid) && w.clock == 0.0
    ensures var now := Run(w, Operations(Prompt(NOTE_OPERATIONS)), sha);
            now.files == Noted(w.files) && now.process == Some(p.(stage := Holding)) && now.clock == 0.0
  {
    PromptTicks(NOTE_OPERATIONS);
    RunOperations(w, p, Prompt(NOTE_OPERATIONS), sha);
    StepsPrompt(w.files, p, NOTE_OPERATIONS, sha);
    DriveWrite(w.files, p, STARTED_JOB, Answer(true, 0.0), sha);
  }

  lemma {:induction false} StepsPrompt(files: Files, p: Process, n: nat, sha: Data -> nat)
    ensures var (after, q) := Drive(files, p, Answer(true, 0.0), n, sha);
            Steps(files, p, 0.0, Prompt(n), sha) == (after, q, 0.0)
    decreases n
  {
    if n > 0 {
      assert Prompt(n)[1..] == Prompt(n - 1);
      var (after, p') := ProcessStep(files, p, Answer(true, 0.0), sha);
      StepsPrompt(after, p', n - 1, sha);
    }
  }

  lemma HeldContinues(w: World, p: Process, sha: Data -> nat)
    requires w.process == Some(p) && p.stage == Holding && w.clock == 0.0 && Exists(w.files, Continue)
    ensures Run(w, Operations(Prompt(CLEANUP_OPERATIONS + 1)), sha).files ==
            FinishCleanup(w.files, p.pid, p.trigger, 0.0, sha).0
  {
    var answer := Answer(true, 0.0);
    RunOperations(w, p, Prompt(CLEANUP_OPERATIONS + 1), sha);
    StepsPrompt(w.files, p, CLEANUP_OPERATIONS + 1, sha);
    var r := ProcessStep(w.files, p, answer, sha).1;
    DriveCleanup(w.files, r, answer, sha);
  }

  lemma SignalledContinues(w: World, p: Process, sha: Data -> nat)
    requires w.process == Some(p) && p.stage == Writing(STARTED_JOB, Open) && Unnoted(w.files, p.pid) && w.clock == 0.0
    requires Exists(WithContinue(w.files), Continue)
    ensures Run(w, NoteAndContinue(), sha).files ==
            FinishCleanup(Noted(WithContinue(w.files)), p.pid, p.trigger, 0.0, sha).0
  {
    var noting, sweeping := Operations(Prompt(NOTE_OPERATIONS)), Operations(Prompt(CLEANUP_OPERATIONS + 1));
    RunSplit(w, noting, [ContinueAppears] + sweeping, sha);
    NoteWritten(w, p, sha);
    var held := Run(w, noting, sha);
    RunOne(held, ContinueAppears, sweeping, sha);
    var continued := Next(held, ContinueAppears, sha);
    assert continued.files == Noted(WithContinue(w.files));
    HeldContinues(continued, held.process.value, sha);
  }

  lemma ContinuedSettles(files: Files, pid: nat, trigger: Trigger, sha: Data -> nat)
    requires Plain(files) && Safe(files, sha) && !Stuck(files) && !JournalPrepared(files)
    ensures Exists(WithContinue(files), Continue) && Unnoted(files, pid)
    ensures Settled(FinishCleanup(Noted(WithContinue(files)), pid, trigger, 0.0, sha).0, sha)
  {
    assert !Known(Temp(Started, pid));
    ContinueHarmless(files, sha);
    CleanupSettles(WithContinue(files), pid, trigger, 0.0, sha);
  }

  lemma SignalledAtOnce(dead: World, pid: nat, trigger: Trigger, later: seq<Event>, sha: Data -> nat)
    returns (signalled: World)
    requires dead.process == None
    ensures signalled.process.Some? && signalled.process.value.pid == pid
    ensures Signalled(signalled.process.value, trigger)
    ensures signalled.files == dead.files && signalled.clock == 0.0
    ensures Run(dead, [StartRun(pid)] + ([Signal(trigger)] + later), sha) == Run(signalled, later, sha)
  {
    var running := Next(dead, StartRun(pid), sha);
    RunOne(dead, StartRun(pid), [Signal(trigger)] + later, sha);
    RunOne(running, Signal(trigger), later, sha);
    signalled := Next(running, Signal(trigger), sha);
  }

  lemma SalvageOther(dead: World, sha: Data -> nat)
    requires Invariant(dead, sha) && dead.process == None && !Stuck(dead.files) && !JournalPrepared(dead.files)
    ensures Settled(Run(dead, Salvage(dead.files), sha).files, sha)
  {
    var signalled := SignalledAtOnce(dead, 0, SignalTerm, NoteAndContinue(), sha);
    ContinuedSettles(dead.files, 0, SignalTerm, sha);
    SignalledContinues(signalled, signalled.process.value, sha);
  }

  predicate SettledAfter(w: World, later: seq<Event>, sha: Data -> nat) {
    Settled(Run(w, later, sha).files, sha)
  }

  /** Of the directories that dead processes leave, exactly those that are not stuck can be
      settled by any events at all. */
  lemma SalvageExact(w: World, events: seq<Event>, sha: Data -> nat)
    requires Dead(w, events, sha)
    ensures var dead := Run(w, events, sha);
            (exists later :: SettledAfter(dead, later, sha)) <==> !Stuck(dead.files)
  {
    var dead := Run(w, events, sha);
    RunKeepsInvariant(w, events, sha);
    if Stuck(dead.files) {
      forall later ensures !SettledAfter(dead, later, sha) {
        StrandedForever(w, events, later, sha);
      }
    } else {
      if JournalPrepared(dead.files) { SalvagePrepared(dead, sha); } else { SalvageOther(dead, sha); }
      assert SettledAfter(dead, Salvage(dead.files), sha);
    }
  }

  // --------------------------------------------------------------------------
  // Where a kill strands

  /** Inside a write that has been started, or between the receipt and the closed journal. */
  predicate Window(stage: Stage) {
    stage.Writing? && (stage.step != Open || stage.job.replace)
  }

  /** In every run a kill in such a window leaves a stuck directory. */
  lemma WindowStrands(w: World, events: seq<Event>, later: seq<Event>, sha: Data -> nat)
    requires Initial(w)
    requires var now := Run(w, events, sha); now.process.Some? && Window(now.process.value.stage)
    ensures var end := Run(Run(w, events + [Kill], sha), later, sha);
            Stuck(end.files) && !Settled(end.files, sha) && Unfinished(end)
  {
    var now := Run(w, events, sha);
    RunKeepsInvariant(w, events, sha);
    WindowStuck(now.files, now.process.value, sha);
    RunSplit(w, events, [Kill], sha);
    RunOne(now, Kill, [], sha);
    StrandedForever(w, events + [Kill], later, sha);
  }

  lemma WindowStuck(files: Files, p: Process, sha: Data -> nat)
    requires ProcessHolds(files, p, sha) && Window(p.stage)
    ensures Stuck(files)
  {
    if p.stage.step != Open { assert !Known(Temp(p.stage.job.n, p.pid)); }
  }
}
