/** A run that is signalled while it waits: how it ends, to the second. The clock of its
    cleanup starts with the signal, and the hold for `cleanup.continue` is on that clock. */
module TransactionSignals {
  import opened Text
  import opened TransactionFiles
  import opened TransactionRuns
  import opened TransactionCrashes
  import opened TransactionSessions

  // --------------------------------------------------------------------------
  // The note and the hold

  predicate Noting(p: Process) {
    p.stage.Holding? || (p.stage.Writing? && p.stage.job == STARTED_JOB)
  }

  /** Nothing is in the way of the note. */
  predicate Undisturbed(files: Files, p: Process) {
    p.stage.Writing? ==>
      p.stage.step != Unlink && !Exists(files, Started) && (p.stage.step == Open ==> Temp(Started, p.pid) !in files)
  }

  lemma NoteStep(files: Files, p: Process, answer: Answer, sha: Data -> nat)
    requires Noting(p) && p.stage.Writing? && Undisturbed(files, p)
    ensures var (after, p') := ProcessStep(files, p, answer, sha);
            && Noting(p') && Undisturbed(after, p') && SameAt(files, after, Continue)
            && (p'.stage.Writing? <==> p.stage.step != Rename)
  {
    TempIsNew(Started, p.pid);
  }

  lemma {:induction false} StepsStayOnRecovery(
    files: Files, p: Process, clock: Seconds, ticks: seq<Tick>, sha: Data -> nat)
    requires OnRecovery(p)
    ensures OnRecovery(Steps(files, p, clock, ticks, sha).1)
    decreases |ticks|
  {
    if ticks != [] {
      var given := AnswerAt(clock, ticks[0]);
      StaysOnRecovery(files, p, given, sha);
      var (after, p') := ProcessStep(files, p, given, sha);
      StepsStayOnRecovery(after, p', ClockAfter(p, p', given.elapsed), ticks[1..], sha);
    }
  }

  predicate Moving(ticks: seq<Tick>) {
    forall i :: 0 <= i < |ticks| ==> ticks[i].passed > 0.0
  }

  /** How many operations after the deadline let a write finish. */
  function WholesLate(clock: Seconds, ticks: seq<Tick>): nat
    decreases |ticks|
  {
    if ticks == [] then 0
    else
      var now: Seconds := clock + ticks[0].passed;
      (if ticks[0].whole && now >= RTO_SECONDS then 1 else 0) + WholesLate(now, ticks[1..])
  }

  lemma {:induction false} WholesLateBounded(clock: Seconds, ticks: seq<Tick>)
    ensures WholesLate(clock, ticks) <= Wholes(ticks)
    decreases |ticks|
  {
    if ticks != [] { WholesLateBounded(clock + ticks[0].passed, ticks[1..]); }
  }

  /** Without `cleanup.continue` the process computes what it computes with one answer, given
      at its census, which is not before the deadline; and after it where time moves. */
  lemma {:induction false} AbandonedSteps(files: Files, p: Process, clock: Seconds, ticks: seq<Tick>, sha: Data -> nat)
    returns (k: nat, elapsed: Seconds)
    requires Noting(p) && Undisturbed(files, p) && !Exists(files, Continue)
    ensures RTO_SECONDS <= elapsed && WholesLate(clock, ticks) <= k
    ensures Reaches(files, p, clock, ticks, sha, Drive(files, p, Answer(true, elapsed), k, sha))
    ensures Steps(files, p, clock, ticks, sha).1.stage.Exited? ==>
      clock <= elapsed <= clock + Total(ticks) && (Moving(ticks) ==> elapsed > RTO_SECONDS)
    decreases |ticks|
  {
    if ticks == [] {
      k, elapsed := 0, RTO_SECONDS;
    } else {
      var given := AnswerAt(clock, ticks[0]);
      var (after, p') := ProcessStep(files, p, given, sha);
      if p.stage.Writing? {
        NoteStep(files, p, given, sha);
        k, elapsed := AbandonedSteps(after, p', given.elapsed, ticks[1..], sha);
        StepInWrite(files, p, given, Answer(true, elapsed), sha);
        if !CutShort(p, ticks[0].whole) { k := k + 1; }
      } else if given.elapsed < RTO_SECONDS {
        k, elapsed := AbandonedSteps(after, p', given.elapsed, ticks[1..], sha);
      } else {
        k, elapsed := StepsDrive(after, p', given.elapsed, ticks[1..], sha);
        k := k + 1;
        WholesLateBounded(given.elapsed, ticks[1..]);
      }
    }
  }

  lemma ContinueCommutes(files: Files, p: Process, given: Answer, answer: Answer, sha: Data -> nat)
    requires Noting(p) && p.stage.Writing? && Undisturbed(files, p) && Continue !in files && answer.whole
    ensures var (after, p') := ProcessStep(files, p, given, sha);
            && Continue !in after
            && (CutShort(p, given.whole) ==> (after, p') == (files, p))
            && (!CutShort(p, given.whole) ==>
                  ProcessStep(WithContinue(files), p, answer, sha) == (WithContinue(after), p'))
  {
    StepInWrite(files, p, given, answer, sha);
    var (after, _) := ProcessStep(files, p, answer, sha);
    var (continued, _) := ProcessStep(WithContinue(files), p, answer, sha);
    assert continued == WithContinue(after);
  }

  /** `cleanup.continue` might as well have been there from the start: while the process
      holds, the hold is all that waits for it. */
  lemma {:induction false} HeldSteps(
    files: Files, p: Process, clock: Seconds, ticks: seq<Tick>, answer: Answer, sha: Data -> nat)
    returns (k: nat)
    requires Noting(p) && Undisturbed(files, p) && Continue !in files && answer.whole
    requires Noting(Steps(files, p, clock, ticks, sha).1)
    ensures var (after, q, later) := Steps(files, p, clock, ticks, sha);
            && later == clock + Total(ticks) && Continue !in after && Undisturbed(after, q)
            && Drive(WithContinue(files), p, answer, k, sha) == (WithContinue(after), q)
    decreases |ticks|
  {
    if ticks == [] {
      k := 0;
    } else {
      var given := AnswerAt(clock, ticks[0]);
      var (after, p') := ProcessStep(files, p, given, sha);
      if p.stage.Writing? {
        NoteStep(files, p, given, sha);
        ContinueCommutes(files, p, given, answer, sha);
        k := HeldSteps(after, p', given.elapsed, ticks[1..], answer, sha);
        if !CutShort(p, ticks[0].whole) { k := k + 1; }
      } else if given.elapsed < RTO_SECONDS {
        k := HeldSteps(after, p', given.elapsed, ticks[1..], answer, sha);
      } else {
        StepsStayOnRecovery(after, p', given.elapsed, ticks[1..], sha);
        assert false;
      }
    }
  }

  lemma {:induction false} ContinuedSteps(files: Files, p: Process, clock: Seconds, ticks: seq<Tick>, sha: Data -> nat)
    returns (k: nat, elapsed: Seconds)
    requires Noting(p) && Undisturbed(files, p) && Exists(files, Continue)
    ensures Wholes(ticks) <= k && clock <= elapsed <= clock + Total(ticks)
    ensures Reaches(files, p, clock, ticks, sha, Drive(files, p, Answer(true, elapsed), k, sha))
    decreases |ticks|
  {
    if ticks == [] {
      k, elapsed := 0, clock;
    } else {
      var given := AnswerAt(clock, ticks[0]);
      var (after, p') := ProcessStep(files, p, given, sha);
      if p.stage.Writing? {
        NoteStep(files, p, given, sha);
        k, elapsed := ContinuedSteps(after, p', given.elapsed, ticks[1..], sha);
        StepInWrite(files, p, given, Answer(true, elapsed), sha);
        if !CutShort(p, ticks[0].whole) { k := k + 1; }
      } else {
        k, elapsed := StepsDrive(after, p', given.elapsed, ticks[1..], sha);
        k := k + 1;
      }
    }
  }

  // --------------------------------------------------------------------------
  // How the cleanup ends

  /** Exactly the sentinel, the closed journal and the receipt of this signal. */
  ghost predicate ClosedBy(files: Files, trigger: Trigger, elapsed: Seconds, sha: Data -> nat) {
    files.Keys == {Sentinel, Journal, Receipt} && ClosedWith(files, 0, trigger, elapsed, sha)
  }

  /** Exactly the sentinel and the prepared journal. */
  predicate LeftPrepared(files: Files) {
    files.Keys == {Sentinel, Journal} && JournalPrepared(files)
  }

  /** The directory of a run that waits, with or without `cleanup.continue`. */
  predicate RunDirectory(files: Files) {
    && Plain(files) && JournalPrepared(files)
    && {Sentinel, Journal, Marker, Ready} <= files.Keys <= {Sentinel, Journal, Marker, Ready, Continue}
  }

  ghost predicate Outcome(files: Files, ok: bool, trigger: Trigger, elapsed: Seconds, sha: Data -> nat) {
    && (ok <==> elapsed <= RTO_SECONDS)
    && (if ok then ClosedBy(files, trigger, elapsed, sha) else LeftPrepared(files))
  }

  lemma CleanupOfRun(files: Files, pid: nat, trigger: Trigger, elapsed: Seconds, sha: Data -> nat)
    requires RunDirectory(files)
    ensures var (after, ok) := FinishCleanup(Noted(files), pid, trigger, elapsed, sha);
            Outcome(after, ok, trigger, elapsed, sha)
  {
    var noted := Noted(files);
    SweepEffect(noted);
    assert forall n :: n in noted ==> n in files.Keys || n == Started;
    assert SweptKeys(noted) == {Sentinel, Journal};
    var swept := Sweep(noted).0;
    assert SameAt(noted, swept, Journal);
    PublishSucceedsExactly(swept, pid, trigger, elapsed, sha);
    ReceiptReports(0, trigger, elapsed);
  }

  lemma UnnotedRun(files: Files, p: Process)
    requires RunDirectory(files)
    ensures Unnoted(files, p.pid) && Undisturbed(files, p.(stage := Writing(STARTED_JOB, Open)))
  {
    assert Started !in files.Keys && Temp(Started, p.pid) !in files.Keys;
  }

  lemma DriveOutcome(files: Files, p: Process, trigger: Trigger, answer: Answer, k: nat, sha: Data -> nat)
    requires RunDirectory(files) && Signalled(p, trigger) && answer.whole
    requires Exists(files, Continue) || answer.elapsed >= RTO_SECONDS
    requires k >= SIGNALLED_OPERATIONS || Drive(files, p, answer, k, sha).1.stage.Exited?
    ensures var (after, q) := Drive(files, p, answer, k, sha);
            q.stage.Exited? && Outcome(after, q.stage.ok, trigger, answer.elapsed, sha)
  {
    UnnotedRun(files, p);
    DriveSignalled(files, p, trigger, answer, sha);
    DriveEnded(files, p, answer, SIGNALLED_OPERATIONS, k, sha);
    CleanupOfRun(files, p.pid, trigger, answer.elapsed, sha);
  }

  /** A signalled process of a run directory where nobody writes `cleanup.continue`. */
  lemma AbandonedEnds(files: Files, p: Process, trigger: Trigger, ticks: seq<Tick>, sha: Data -> nat)
    returns (elapsed: Seconds)
    requires RunDirectory(files) && Continue !in files && Signalled(p, trigger)
    ensures var (after, q, _) := Steps(files, p, 0.0, ticks, sha);
            && (WholesLate(0.0, ticks) >= SIGNALLED_OPERATIONS ==> q.stage.Exited?)
            && (q.stage.Exited? ==>
                  && Outcome(after, q.stage.ok, trigger, elapsed, sha)
                  && RTO_SECONDS <= elapsed <= Total(ticks) && (Moving(ticks) ==> elapsed > RTO_SECONDS))
  {
    UnnotedRun(files, p);
    var k;
    k, elapsed := AbandonedSteps(files, p, 0.0, ticks, sha);
    if WholesLate(0.0, ticks) >= SIGNALLED_OPERATIONS || Steps(files, p, 0.0, ticks, sha).1.stage.Exited? {
      DriveOutcome(files, p, trigger, Answer(true, elapsed), k, sha);
    }
  }

  /** All steps of a process that is told to continue at some point of its hold, as one drive. */
  lemma ContinuedDrive(
    files: Files, p: Process, before: seq<Tick>, later: seq<Tick>, sha: Data -> nat)
    returns (k: nat, elapsed: Seconds)
    requires Noting(p) && Undisturbed(files, p) && Continue !in files
    requires Noting(Steps(files, p, 0.0, before, sha).1)
    ensures Total(before) <= elapsed <= Total(before) + Total(later) && k >= Wholes(later)
    ensures var (held, q, clock) := Steps(files, p, 0.0, before, sha);
            Reaches(WithContinue(held), q, clock, later, sha,
                    Drive(WithContinue(files), p, Answer(true, elapsed), k, sha))
  {
    var (held, q, clock) := Steps(files, p, 0.0, before, sha);
    var k1 := HeldSteps(files, p, 0.0, before, Answer(true, 0.0), sha);
    var k2;
    k2, elapsed := ContinuedSteps(WithContinue(held), q, clock, later, sha);
    var answer := Answer(true, elapsed);
    k1 := HeldSteps(files, p, 0.0, before, answer, sha);
    DriveSplit(WithContinue(files), p, answer, k1, k2, sha);
    k := k1 + k2;
  }

  /** One for which it appears while the process is still at its note or its hold. */
  lemma ContinuedEnds(
    files: Files, p: Process, trigger: Trigger, before: seq<Tick>, later: seq<Tick>, sha: Data -> nat)
    returns (elapsed: Seconds)
    requires RunDirectory(files) && Continue !in files && Signalled(p, trigger)
    requires Noting(Steps(files, p, 0.0, before, sha).1)
    ensures Total(before) <= elapsed <= Total(before) + Total(later)
    ensures var (held, q, clock) := Steps(files, p, 0.0, before, sha);
            var (after, r, _) := Steps(WithContinue(held), q, clock, later, sha);
            && (Wholes(later) >= SIGNALLED_OPERATIONS ==> r.stage.Exited?)
            && (r.stage.Exited? ==> Outcome(after, r.stage.ok, trigger, elapsed, sha))
  {
    UnnotedRun(files, p);
    var k;
    k, elapsed := ContinuedDrive(files, p, before, later, sha);
    var (_, r) := Drive(WithContinue(files), p, Answer(true, elapsed), k, sha);
    if Wholes(later) >= SIGNALLED_OPERATIONS || r.stage.Exited? {
      DriveOutcome(WithContinue(files), p, trigger, Answer(true, elapsed), k, sha);
    }
  }

  // --------------------------------------------------------------------------
  // As runs

  /** The preparation finishes, and the signal comes within the patience of the wait. */
  predicate Prepares(first: seq<Tick>) {
    Wholes(first) >= PREPARATION_OPERATIONS && Total(first) < PATIENCE
  }

  lemma StepsPrepare(files: Files, pid: nat, clock: Seconds, first: seq<Tick>, sha: Data -> nat)
    requires files.Keys == {Sentinel} && Prepares(first)
    ensures Reaches(files, Fresh(pid), clock, first, sha, (WithNotes(files), Fresh(pid).(stage := Waiting)))
  {
    var answer := Answer(true, 0.0);
    var k := StepsPreparation(files, Fresh(pid), clock, first, answer, sha);
    DrivePrepare(files, pid, answer, sha);
    DriveWaits(files, Fresh(pid), answer, PREPARATION_OPERATIONS, k, sha);
  }

  lemma DriveWaits(files: Files, p: Process, answer: Answer, n: nat, k: nat, sha: Data -> nat)
    requires n <= k && answer.elapsed < PATIENCE && Drive(files, p, answer, n, sha).1.stage == Waiting
    ensures Drive(files, p, answer, k, sha) == Drive(files, p, answer, n, sha)
  {
    DriveSplit(files, p, answer, n, k - n, sha);
    var (waiting, q) := Drive(files, p, answer, n, sha);
    WaitingStays(waiting, q, answer, k - n, sha);
  }

  lemma {:induction false} WaitingStays(files: Files, p: Process, answer: Answer, n: nat, sha: Data -> nat)
    requires p.stage == Waiting && answer.elapsed < PATIENCE
    ensures Drive(files, p, answer, n, sha) == (files, p)
  {
    if n > 0 { WaitingStays(files, p, answer, n - 1, sha); }
  }

  /** A world in which a run has just been signalled in its wait. */
  predicate JustSignalled(w: World, trigger: Trigger) {
    && w.process.Some? && Signalled(w.process.value, trigger) && w.clock == 0.0
    && RunDirectory(w.files) && Continue !in w.files
  }

  lemma RunDirectoryStands(files: Files)
    requires files == map[Sentinel := File(SentinelText, true)]
    ensures RunDirectory(WithNotes(files)) && Continue !in WithNotes(files)
  {
    assert WithNotes(files).Keys == {Sentinel, Journal, Marker, Ready};
  }

  function SignalledRun(pid: nat, first: seq<Tick>, trigger: Trigger): seq<Event> {
    [StartRun(pid)] + (Operations(first) + [Signal(trigger)])
  }

  lemma SignalReached(w: World, pid: nat, first: seq<Tick>, trigger: Trigger, sha: Data -> nat)
    requires Initial(w) && Prepares(first)
    ensures JustSignalled(Run(w, SignalledRun(pid, first, trigger), sha), trigger)
  {
    var started := Next(w, StartRun(pid), sha);
    RunOne(w, StartRun(pid), Operations(first) + [Signal(trigger)], sha);
    RunSplit(started, Operations(first), [Signal(trigger)], sha);
    RunOperations(started, Fresh(pid), first, sha);
    StepsPrepare(w.files, pid, started.clock, first, sha);
    var waiting := Run(started, Operations(first), sha);
    RunOne(waiting, Signal(trigger), [], sha);
    RunDirectoryStands(w.files);
  }

  predicate Ended(w: World) {
    w.process.Some? && w.process.value.stage.Exited?
  }

  /** The verdict and the directory of a run that has ended. */
  ghost predicate EndsWith(w: World, trigger: Trigger, elapsed: Seconds, sha: Data -> nat) {
    Ended(w) && Outcome(w.files, w.process.value.stage.ok, trigger, elapsed, sha)
  }

  lemma AbandonedAfter(w: World, trigger: Trigger, ticks: seq<Tick>, sha: Data -> nat) returns (elapsed: Seconds)
    requires JustSignalled(w, trigger)
    ensures var end := Run(w, Operations(ticks), sha);
            && (WholesLate(0.0, ticks) >= SIGNALLED_OPERATIONS ==> Ended(end))
            && (Ended(end) ==>
                  && EndsWith(end, trigger, elapsed, sha)
                  && RTO_SECONDS <= elapsed <= Total(ticks) && (Moving(ticks) ==> elapsed > RTO_SECONDS))
  {
    RunOperations(w, w.process.value, ticks, sha);
    elapsed := AbandonedEnds(w.files, w.process.value, trigger, ticks, sha);
  }

  predicate StillNoting(w: World) {
    w.process.Some? && Noting(w.process.value)
  }

  lemma ContinuedAfter(
    w: World, trigger: Trigger, before: seq<Tick>, later: seq<Tick>, sha: Data -> nat) returns (elapsed: Seconds)
    requires JustSignalled(w, trigger) && StillNoting(Run(w, Operations(before), sha))
    ensures Total(before) <= elapsed <= Total(before) + Total(later)
    ensures var end := Run(Run(w, Operations(before), sha), [ContinueAppears] + Operations(later), sha);
            && (Wholes(later) >= SIGNALLED_OPERATIONS ==> Ended(end))
            && (Ended(end) ==> EndsWith(end, trigger, elapsed, sha))
  {
    var p, held := w.process.value, Run(w, Operations(before), sha);
    RunOperations(w, p, before, sha);
    RunOne(held, ContinueAppears, Operations(later), sha);
    var continued := Next(held, ContinueAppears, sha);
    RunOperations(continued, held.process.value, later, sha);
    elapsed := ContinuedEnds(w.files, p, trigger, before, later, sha);
  }

  /** A run signalled in its wait for which `cleanup.continue` is never written: the hold uses
      up the bound. Enough operations after the deadline end it; its cleanup is measured at the
      deadline or later, and where time moves it is denied and leaves the prepared journal. */
  lemma AbandonedRunExact(
    w: World, pid: nat, first: seq<Tick>, trigger: Trigger, ticks: seq<Tick>, sha: Data -> nat)
    returns (elapsed: Seconds)
    requires Initial(w) && Prepares(first)
    ensures var end := Run(Run(w, SignalledRun(pid, first, trigger), sha), Operations(ticks), sha);
            && (WholesLate(0.0, ticks) >= SIGNALLED_OPERATIONS ==> Ended(end))
            && (Ended(end) ==>
                  && EndsWith(end, trigger, elapsed, sha)
                  && RTO_SECONDS <= elapsed <= Total(ticks) && (Moving(ticks) ==> elapsed > RTO_SECONDS))
  {
    SignalReached(w, pid, first, trigger, sha);
    elapsed := AbandonedAfter(Run(w, SignalledRun(pid, first, trigger), sha), trigger, ticks, sha);
  }

  /** One for which it is written during the note or the hold: enough operations end it, and
      it closes with the receipt of its signal exactly when its cleanup was in time. */
  lemma ContinuedRunExact(
    w: World, pid: nat, first: seq<Tick>, trigger: Trigger, before: seq<Tick>, later: seq<Tick>, sha: Data -> nat)
    returns (elapsed: Seconds)
    requires Initial(w) && Prepares(first)
    requires StillNoting(Run(Run(w, SignalledRun(pid, first, trigger), sha), Operations(before), sha))
    ensures Total(before) <= elapsed <= Total(before) + Total(later)
    ensures var held := Run(Run(w, SignalledRun(pid, first, trigger), sha), Operations(before), sha);
            var end := Run(held, [ContinueAppears] + Operations(later), sha);
            && (Wholes(later) >= SIGNALLED_OPERATIONS ==> Ended(end))
            && (Ended(end) ==> EndsWith(end, trigger, elapsed, sha))
  {
    SignalReached(w, pid, first, trigger, sha);
    elapsed := ContinuedAfter(Run(w, SignalledRun(pid, first, trigger), sha), trigger, before, later, sha);
  }

  /** What follows the signal: operations, and between them `cleanup.continue`, or not. */
  function AfterSignal(before: seq<Tick>, continued: bool, later: seq<Tick>): seq<Event> {
    Operations(before) + ((if continued then [ContinueAppears] else []) + Operations(later))
  }

  /** Closed by its signal if told to continue and in time, else denied over the prepared journal. */
  ghost predicate EndsExactly(w: World, continued: bool, trigger: Trigger, elapsed: Seconds, sha: Data -> nat) {
    var ok := continued && elapsed <= RTO_SECONDS;
    && w.process.Some? && w.process.value.stage == Exited(ok)
    && (if ok then ClosedBy(w.files, trigger, elapsed, sha) else LeftPrepared(w.files))
  }

  lemma {:induction false} TotalSum(a: seq<Tick>, b: seq<Tick>)
    ensures Total(a + b) == Total(a) + Total(b)
  {
    if a == [] {
      assert a + b == b;
    } else {
      assert (a + b)[1..] == a[1..] + b;
      TotalSum(a[1..], b);
    }
  }

  /** When the census can have been, at the end of these ticks. */
  predicate Measured(elapsed: Seconds, before: seq<Tick>, continued: bool, later: seq<Tick>) {
    && elapsed <= Total(before + later)
    && (if continued then Total(before) <= elapsed else RTO_SECONDS < elapsed)
  }

  ghost predicate ExactEnd(
    w: World, trigger: Trigger, before: seq<Tick>, continued: bool, later: seq<Tick>, sha: Data -> nat) {
    exists elapsed: Seconds ::
      Measured(elapsed, before, continued, later) && EndsExactly(w, continued, trigger, elapsed, sha)
  }

  lemma AbandonedExactly(signalled: World, trigger: Trigger, before: seq<Tick>, later: seq<Tick>, sha: Data -> nat)
    requires JustSignalled(signalled, trigger) && Moving(before + later)
    requires Ended(Run(signalled, AfterSignal(before, false, later), sha))
    ensures ExactEnd(Run(signalled, AfterSignal(before, false, later), sha), trigger, before, false, later, sha)
  {
    var none: seq<Event> := [];
    assert none + Operations(later) == Operations(later);
    assert Operations(before) + Operations(later) == Operations(before + later);
    var elapsed := AbandonedAfter(signalled, trigger, before + later, sha);
    assert Measured(elapsed, before, false, later);
  }

  lemma ContinuedExactly(signalled: World, trigger: Trigger, before: seq<Tick>, later: seq<Tick>, sha: Data -> nat)
    requires JustSignalled(signalled, trigger) && StillNoting(Run(signalled, Operations(before), sha))
    requires Ended(Run(signalled, AfterSignal(before, true, later), sha))
    ensures ExactEnd(Run(signalled, AfterSignal(before, true, later), sha), trigger, before, true, later, sha)
  {
    RunSplit(signalled, Operations(before), [ContinueAppears] + Operations(later), sha);
    var elapsed := ContinuedAfter(signalled, trigger, before, later, sha);
    TotalSum(before, later);
    assert Measured(elapsed, before, true, later);
  }

  /** The exact outcome, where time moves: a run signalled in its wait ends well if and only
      if it is told to continue and its cleanup is measured within the bound. */
  lemma SignalledRunExact(
    w: World, pid: nat, first: seq<Tick>, trigger: Trigger,
    before: seq<Tick>, continued: bool, later: seq<Tick>, signalled: World, end: World, sha: Data -> nat)
    requires Initial(w) && Prepares(first) && signalled == Run(w, SignalledRun(pid, first, trigger), sha)
    requires end == Run(signalled, AfterSignal(before, continued, later), sha) && Ended(end)
    requires Moving(before + later) && (continued ==> StillNoting(Run(signalled, Operations(before), sha)))
    ensures ExactEnd(end, trigger, before, continued, later, sha)
  {
    SignalReached(w, pid, first, trigger, sha);
    if continued {
      ContinuedExactly(signalled, trigger, before, later, sha);
    } else {
      AbandonedExactly(signalled, trigger, before, later, sha);
    }
  }

  /** A run that was denied this way has lost nothing: a recovery in time settles it. */
  lemma DeniedRunRecovers(w: World, events: seq<Event>, pid: nat, ticks: seq<Tick>, sha: Data -> nat)
    requires Initial(w) && Ended(Run(w, events, sha)) && LeftPrepared(Run(w, events, sha).files)
    requires Total(ticks) <= RTO_SECONDS && Wholes(ticks) >= RECOVERY_OPERATIONS
    ensures var end := Run(Run(w, events, sha), [StartRecover(pid)] + Operations(ticks), sha);
            end.process.Some? && end.process.value.stage == Exited(true) && Settled(end.files, sha)
  {
    var denied := Run(w, events, sha);
    RunKeepsInvariant(w, events, sha);
    assert forall n :: n in denied.files ==> n in denied.files.Keys;
    assert Receipt !in denied.files.Keys;
    RecoveryExact(denied, pid, ticks, sha);
  }
}
