/** Two processes at once. Nothing in the protocol keeps a second process out of a directory;
    this says exactly which steps of one break what the other relies on, and what follows. */
module TransactionPairs {
  import opened Text
  import opened TransactionFiles
  import opened TransactionRuns
  import opened TransactionCrashes
  import opened TransactionSessions

  datatype Pair = Pair(files: Files, first: Process, second: Process)

  /** One operation of one of them, as the system answers it. */
  datatype Move = Move(byFirst: bool, answer: Answer)

  function PairStep(w: Pair, m: Move, sha: Data -> nat): Pair {
    if m.byFirst then
      var (after, p) := ProcessStep(w.files, w.first, m.answer, sha);
      Pair(after, p, w.second)
    else
      var (after, p) := ProcessStep(w.files, w.second, m.answer, sha);
      Pair(after, w.first, p)
  }

  function PairRun(w: Pair, moves: seq<Move>, sha: Data -> nat): Pair
    decreases |moves|
  {
    if moves == [] then w else PairRun(PairStep(w, moves[0], sha), moves[1..], sha)
  }

  // --------------------------------------------------------------------------
  // What one may do to the other

  predicate Renames(stage: Stage, job: Job) {
    stage.Writing? && stage.step == Rename && stage.job == job
  }

  predicate RenamesReceipt(stage: Stage) {
    stage.Writing? && stage.step == Rename && stage.job.n == Receipt
  }

  predicate RenamesClosed(stage: Stage) {
    stage.Writing? && stage.step == Rename && stage.job.n == Journal && stage.job.replace
  }

  predicate Writes(stage: Stage, job: Job) {
    stage.Writing? && stage.job == job
  }

  predicate WritesClosed(stage: Stage) {
    stage.Writing? && stage.job.n == Journal && stage.job.replace
  }

  /** The process has removed the marker and counts on that. */
  predicate Unmarked(stage: Stage) {
    || stage.RemovingTransient? || stage.Census? || WritesClosed(stage)
    || (stage.Writing? && stage.job.n == Receipt)
  }

  /** The next operation of the one replaces what the other has already looked for. */
  predicate Clash(mover: Stage, other: Stage) {
    || (Renames(mover, JOURNAL_JOB) && Writes(other, JOURNAL_JOB))
    || (Renames(mover, MARKER_JOB) && Unmarked(other))
    || (Renames(mover, STARTED_JOB) && (Writes(other, JOURNAL_JOB) || Renames(other, STARTED_JOB)))
    || (RenamesReceipt(mover) &&
          (Writes(other, JOURNAL_JOB) || Writes(other, MARKER_JOB) || RenamesReceipt(other)))
    || (RenamesClosed(mover) &&
          (Writes(other, JOURNAL_JOB) || Writes(other, MARKER_JOB) || WritesClosed(other) || other.CheckingReceipt?))
  }

  predicate PairSafe(w: Pair, sha: Data -> nat) {
    && Plain(w.files) && Safe(w.files, sha) && w.first.pid != w.second.pid
    && StageHolds(w.files, w.first.stage, sha) && TempHeld(w.files, w.first)
    && StageHolds(w.files, w.second.stage, sha) && TempHeld(w.files, w.second)
  }

  lemma OtherTempHeld(files: Files, p: Process, q: Process, answer: Answer, sha: Data -> nat)
    requires p.pid != q.pid && TempHeld(files, q)
    ensures TempHeld(ProcessStep(files, p, answer, sha).0, q)
  {
  }

  /** An operation that renames no record leaves the other what it relies on. */
  lemma QuietStep(files: Files, p: Process, other: Stage, answer: Answer, sha: Data -> nat)
    requires StageHolds(files, other, sha) && !(p.stage.Writing? && p.stage.step == Rename)
    ensures StageHolds(ProcessStep(files, p, answer, sha).0, other, sha)
  {
  }

  /** One that does renames breaks it exactly in a clash. */
  lemma RenameStep(files: Files, p: Process, other: Stage, answer: Answer, sha: Data -> nat)
    requires Plain(files) && Safe(files, sha) && StageHolds(files, p.stage, sha) && StageHolds(files, other, sha)
    requires p.stage.Writing? && p.stage.step == Rename
    ensures StageHolds(ProcessStep(files, p, answer, sha).0, other, sha) <==> !Clash(p.stage, other)
  {
  }

  lemma MoverSafe(files: Files, p: Process, answer: Answer, sha: Data -> nat)
    requires Plain(files) && Safe(files, sha) && StageHolds(files, p.stage, sha) && TempHeld(files, p)
    ensures var (after, p') := ProcessStep(files, p, answer, sha);
            && Plain(after) && Safe(after, sha) && p'.pid == p.pid
            && StageHolds(after, p'.stage, sha) && TempHeld(after, p')
  {
    ProcessStepSafe(files, p, answer, sha);
    ProcessStepPlain(files, p, answer, sha);
  }

  lemma OtherExact(files: Files, p: Process, other: Stage, answer: Answer, sha: Data -> nat)
    requires Plain(files) && Safe(files, sha) && StageHolds(files, p.stage, sha) && StageHolds(files, other, sha)
    ensures StageHolds(ProcessStep(files, p, answer, sha).0, other, sha) <==> !Clash(p.stage, other)
  {
    if p.stage.Writing? && p.stage.step == Rename {
      RenameStep(files, p, other, answer, sha);
    } else {
      QuietStep(files, p, other, answer, sha);
    }
  }

  predicate Clashing(w: Pair, m: Move) {
    if m.byFirst then Clash(w.first.stage, w.second.stage) else Clash(w.second.stage, w.first.stage)
  }

  /** Exactly the clashes break what two live processes rely on. */
  lemma PairStepExact(w: Pair, m: Move, sha: Data -> nat)
    requires PairSafe(w, sha)
    ensures PairSafe(PairStep(w, m, sha), sha) <==> !Clashing(w, m)
  {
    if m.byFirst {
      MoverSafe(w.files, w.first, m.answer, sha);
      OtherExact(w.files, w.first, w.second.stage, m.answer, sha);
      OtherTempHeld(w.files, w.first, w.second, m.answer, sha);
    } else {
      MoverSafe(w.files, w.second, m.answer, sha);
      OtherExact(w.files, w.second, w.first.stage, m.answer, sha);
      OtherTempHeld(w.files, w.second, w.first, m.answer, sha);
    }
  }

  /** No move of the run is a clash. */
  predicate ClashFree(w: Pair, moves: seq<Move>, sha: Data -> nat)
    decreases |moves|
  {
    moves == [] || (!Clashing(w, moves[0]) && ClashFree(PairStep(w, moves[0], sha), moves[1..], sha))
  }

  /** So two processes keep the directory safe on every run without a clash: a marker implies a
      prepared journal, and a closed journal the receipt with the recorded digest. */
  lemma {:induction false} ClashFreeSafe(w: Pair, moves: seq<Move>, sha: Data -> nat)
    requires PairSafe(w, sha) && ClashFree(w, moves, sha)
    ensures PairSafe(PairRun(w, moves, sha), sha)
    decreases |moves|
  {
    if moves != [] {
      PairStepExact(w, moves[0], sha);
      ClashFreeSafe(PairStep(w, moves[0], sha), moves[1..], sha);
    }
  }

  // --------------------------------------------------------------------------
  // Two recoveries that both end well

  function Moves(byFirst: bool, answer: Answer, n: nat): seq<Move> {
    seq(n, _ => Move(byFirst, answer))
  }

  lemma {:induction false} PairSplit(w: Pair, a: seq<Move>, b: seq<Move>, sha: Data -> nat)
    ensures PairRun(w, a + b, sha) == PairRun(PairRun(w, a, sha), b, sha)
    decreases |a|
  {
    if a == [] {
      assert a + b == b;
    } else {
      assert (a + b)[1..] == a[1..] + b;
      PairSplit(PairStep(w, a[0], sha), a[1..], b, sha);
    }
  }

  lemma {:induction false} FirstMoves(w: Pair, answer: Answer, n: nat, sha: Data -> nat)
    ensures var (after, p) := Drive(w.files, w.first, answer, n, sha);
            PairRun(w, Moves(true, answer, n), sha) == Pair(after, p, w.second)
    decreases n
  {
    if n > 0 {
      assert Moves(true, answer, n)[1..] == Moves(true, answer, n - 1);
      FirstMoves(PairStep(w, Move(true, answer), sha), answer, n - 1, sha);
    }
  }

  lemma {:induction false} SecondMoves(w: Pair, answer: Answer, n: nat, sha: Data -> nat)
    ensures var (after, p) := Drive(w.files, w.second, answer, n, sha);
            PairRun(w, Moves(false, answer, n), sha) == Pair(after, w.first, p)
    decreases n
  {
    if n > 0 {
      assert Moves(false, answer, n)[1..] == Moves(false, answer, n - 1);
      SecondMoves(PairStep(w, Move(false, answer), sha), answer, n - 1, sha);
    }
  }

  /** A recovery whose census found nothing, about to write its receipt. */
  function AtReceipt(pid: nat, elapsed: Seconds, step: WriteStep): Process {
    Process(pid, true, Writing(ReceiptJob(0, JournalRecovery, elapsed), step), true, JournalRecovery, 1)
  }

  function ReceiptOf(elapsed: Seconds): Data {
    ReceiptFor(0, JournalRecovery, elapsed)
  }

  /** The operations of a recovery up to its census, and from its receipt to the rename of it. */
  const CENSUS_OPERATIONS: nat := 7
  const CHECK_OPERATIONS: nat := 3
  const CLOSE_OPERATIONS: nat := 6

  lemma DriveCensus(files: Files, pid: nat, answer: Answer, sha: Data -> nat)
    requires Plain(files) && files.Keys == {Sentinel, Journal} && JournalPrepared(files)
    requires answer.elapsed <= RTO_SECONDS
    ensures Drive(files, Recovering(pid), answer, CENSUS_OPERATIONS, sha) ==
            (files, AtReceipt(pid, answer.elapsed, Open))
  {
    DriveToCensus(files, pid, answer, sha);
    DriveSplit(files, Recovering(pid), answer, SWEPT_OPERATIONS, 1, sha);
    var q := Drive(files, Recovering(pid), answer, SWEPT_OPERATIONS, sha).1;
    ResidueIsZero(files);
    assert ProcessStep(files, q, answer, sha) == (files, AtReceipt(pid, answer.elapsed, Open));
  }

  function WithTemp(files: Files, pid: nat, elapsed: Seconds): Files {
    files[Temp(Receipt, pid) := File(ReceiptOf(elapsed), true)]
  }

  lemma DriveCheck(files: Files, pid: nat, elapsed: Seconds, answer: Answer, sha: Data -> nat)
    requires Receipt !in files && Temp(Receipt, pid) !in files && answer.whole
    ensures Drive(files, AtReceipt(pid, elapsed, Open), answer, CHECK_OPERATIONS, sha) ==
            (WithTemp(files, pid, elapsed), AtReceipt(pid, elapsed, Rename))
  {
    var p := AtReceipt(pid, elapsed, Open);
    var (f1, p1) := ProcessStep(files, p, answer, sha);
    var (f2, p2) := ProcessStep(f1, p1, answer, sha);
    assert f2 == WithTemp(files, pid, elapsed);
    var (f3, p3) := ProcessStep(f2, p2, answer, sha);
    assert Drive(f2, p2, answer, 1, sha) == Drive(f3, p3, answer, 0, sha) == (f3, p3);
    assert Drive(f1, p1, answer, 2, sha) == Drive(f2, p2, answer, 1, sha);
  }

  /** The process that closes the journal over its own receipt. */
  function AtClose(pid: nat, elapsed: Seconds, sha: Data -> nat): Process {
    var job := ClosedJob(ReceiptOf(elapsed), 0, JournalRecovery, sha);
    AtReceipt(pid, elapsed, Open).(stage := Writing(job, Open))
  }

  function WithReceipt(files: Files, elapsed: Seconds): Files {
    files[Receipt := File(ReceiptOf(elapsed), true)]
  }

  function WithClosed(files: Files, elapsed: Seconds, sha: Data -> nat): Files {
    files[Journal := File(JournalData(Closed(sha(ReceiptOf(elapsed)), 0, JournalRecovery)), true)]
  }

  lemma DriveRename(files: Files, pid: nat, elapsed: Seconds, answer: Answer, sha: Data -> nat)
    ensures Drive(files, AtReceipt(pid, elapsed, Rename), answer, 1, sha) ==
            (WithReceipt(files - {Temp(Receipt, pid)}, elapsed), AtClose(pid, elapsed, sha))
  {
    var (f1, p1) := ProcessStep(files, AtReceipt(pid, elapsed, Rename), answer, sha);
    assert Drive(files, AtReceipt(pid, elapsed, Rename), answer, 1, sha) == Drive(f1, p1, answer, 0, sha) == (f1, p1);
  }

  lemma DriveClose(files: Files, pid: nat, elapsed: Seconds, answer: Answer, sha: Data -> nat)
    requires files.Keys == {Sentinel, Journal, Receipt} && answer.whole
    ensures Drive(files, AtClose(pid, elapsed, sha), answer, CLOSE_OPERATIONS - 1, sha) ==
            (WithClosed(files, elapsed, sha), AtClose(pid, elapsed, sha).(stage := Exited(true)))
  {
    assert Temp(Journal, pid) !in files.Keys;
    DriveClosed(files, AtClose(pid, elapsed, sha), ReceiptOf(elapsed), 0, answer, sha);
    assert WithClosed(files, elapsed, sha).Keys == files.Keys;
  }

  lemma DriveRenameClose(files: Files, pid: nat, elapsed: Seconds, answer: Answer, sha: Data -> nat)
    requires (files - {Temp(Receipt, pid)}).Keys + {Receipt} == {Sentinel, Journal, Receipt} && answer.whole
    ensures Drive(files, AtReceipt(pid, elapsed, Rename), answer, CLOSE_OPERATIONS, sha) ==
            (WithClosed(WithReceipt(files - {Temp(Receipt, pid)}, elapsed), elapsed, sha),
             AtClose(pid, elapsed, sha).(stage := Exited(true)))
  {
    var p := AtReceipt(pid, elapsed, Rename);
    DriveRename(files, pid, elapsed, answer, sha);
    DriveSplit(files, p, answer, 1, CLOSE_OPERATIONS - 1, sha);
    DriveClose(WithReceipt(files - {Temp(Receipt, pid)}, elapsed), pid, elapsed, answer, sha);
  }

  /** Both have looked for a receipt, and neither has published one. */
  function Checked(first: Answer, second: Answer): seq<Move> {
    Moves(true, first, CENSUS_OPERATIONS) + (Moves(false, second, CENSUS_OPERATIONS) +
    (Moves(true, first, CHECK_OPERATIONS) + Moves(false, second, CHECK_OPERATIONS)))
  }

  /** Then the first publishes, the second publishes and closes, and the first closes. */
  function Race(first: Answer, second: Answer): seq<Move> {
    Moves(true, first, 1) + (Moves(false, second, CLOSE_OPERATIONS) + Moves(true, first, CLOSE_OPERATIONS - 1))
  }

  /** A prepared journal alone, and two recoveries that have just been started. */
  predicate BothRecover(w: Pair, a: nat, b: nat) {
    && Plain(w.files) && w.files.Keys == {Sentinel, Journal} && JournalPrepared(w.files)
    && w.first == Recovering(a) && w.second == Recovering(b) && a != b
  }

  predicate InTime(answer: Answer) {
    answer.whole && answer.elapsed <= RTO_SECONDS
  }

  lemma RaceChecked(w: Pair, a: nat, b: nat, first: Answer, second: Answer, sha: Data -> nat)
    requires BothRecover(w, a, b) && InTime(first) && InTime(second)
    ensures PairRun(w, Checked(first, second), sha) ==
            Pair(WithTemp(WithTemp(w.files, a, first.elapsed), b, second.elapsed),
                 AtReceipt(a, first.elapsed, Rename), AtReceipt(b, second.elapsed, Rename))
  {
    var files, x, y := w.files, first.elapsed, second.elapsed;
    var c2, c3 := Moves(false, second, CENSUS_OPERATIONS), Moves(true, first, CHECK_OPERATIONS);
    var c4 := Moves(false, second, CHECK_OPERATIONS);
    PairSplit(w, Moves(true, first, CENSUS_OPERATIONS), c2 + (c3 + c4), sha);
    FirstMoves(w, first, CENSUS_OPERATIONS, sha);
    DriveCensus(files, a, first, sha);
    var w1 := Pair(files, AtReceipt(a, x, Open), w.second);
    PairSplit(w1, c2, c3 + c4, sha);
    SecondMoves(w1, second, CENSUS_OPERATIONS, sha);
    DriveCensus(files, b, second, sha);
    var w2 := Pair(files, AtReceipt(a, x, Open), AtReceipt(b, y, Open));
    PairSplit(w2, c3, c4, sha);
    FirstMoves(w2, first, CHECK_OPERATIONS, sha);
    assert Receipt !in files.Keys && Temp(Receipt, a) !in files.Keys && Temp(Receipt, b) !in files.Keys;
    DriveCheck(files, a, x, first, sha);
    var w3 := Pair(WithTemp(files, a, x), AtReceipt(a, x, Rename), AtReceipt(b, y, Open));
    SecondMoves(w3, second, CHECK_OPERATIONS, sha);
    DriveCheck(WithTemp(files, a, x), b, y, second, sha);
  }

  lemma FirstPublishes(w: Pair, files: Files, a: nat, b: nat, first: Answer, y: Seconds, sha: Data -> nat)
    requires files.Keys == {Sentinel, Journal} && a != b
    requires w == Pair(WithTemp(WithTemp(files, a, first.elapsed), b, y),
                       AtReceipt(a, first.elapsed, Rename), AtReceipt(b, y, Rename))
    ensures PairRun(w, Moves(true, first, 1), sha) ==
            Pair(WithReceipt(WithTemp(files, b, y), first.elapsed), AtClose(a, first.elapsed, sha), w.second)
  {
    FirstMoves(w, first, 1, sha);
    DriveRename(w.files, a, first.elapsed, first, sha);
    assert Temp(Receipt, a) !in files.Keys;
    assert WithReceipt(w.files - {Temp(Receipt, a)}, first.elapsed) ==
           WithReceipt(WithTemp(files, b, y), first.elapsed);
  }

  lemma SecondCloses(w: Pair, files: Files, b: nat, x: Seconds, second: Answer, sha: Data -> nat)
    requires files.Keys == {Sentinel, Journal} && second.whole
    requires w.files == WithReceipt(WithTemp(files, b, second.elapsed), x)
    requires w.second == AtReceipt(b, second.elapsed, Rename)
    ensures PairRun(w, Moves(false, second, CLOSE_OPERATIONS), sha) ==
            Pair(WithClosed(WithReceipt(files, second.elapsed), second.elapsed, sha), w.first,
                 AtClose(b, second.elapsed, sha).(stage := Exited(true)))
  {
    var y := second.elapsed;
    SecondMoves(w, second, CLOSE_OPERATIONS, sha);
    assert Temp(Receipt, b) !in files.Keys;
    assert (w.files - {Temp(Receipt, b)}).Keys + {Receipt} == {Sentinel, Journal, Receipt};
    DriveRenameClose(w.files, b, y, second, sha);
    assert WithReceipt(w.files - {Temp(Receipt, b)}, y) == WithReceipt(files, y);
  }

  lemma FirstCloses(w: Pair, files: Files, a: nat, first: Answer, y: Seconds, sha: Data -> nat)
    requires files.Keys == {Sentinel, Journal} && first.whole
    requires w.files == WithClosed(WithReceipt(files, y), y, sha) && w.first == AtClose(a, first.elapsed, sha)
    ensures PairRun(w, Moves(true, first, CLOSE_OPERATIONS - 1), sha) ==
            Pair(WithClosed(WithReceipt(files, y), first.elapsed, sha), w.first.(stage := Exited(true)), w.second)
  {
    FirstMoves(w, first, CLOSE_OPERATIONS - 1, sha);
    assert w.files.Keys == {Sentinel, Journal, Receipt};
    DriveClose(w.files, a, first.elapsed, first, sha);
    assert WithClosed(w.files, first.elapsed, sha) == WithClosed(WithReceipt(files, y), first.elapsed, sha);
  }

  lemma RaceRun(w: Pair, files: Files, a: nat, b: nat, first: Answer, second: Answer, sha: Data -> nat)
    requires files.Keys == {Sentinel, Journal} && a != b && first.whole && second.whole
    requires w == Pair(WithTemp(WithTemp(files, a, first.elapsed), b, second.elapsed),
                       AtReceipt(a, first.elapsed, Rename), AtReceipt(b, second.elapsed, Rename))
    ensures PairRun(w, Race(first, second), sha) ==
            Pair(WithClosed(WithReceipt(files, second.elapsed), first.elapsed, sha),
                 AtClose(a, first.elapsed, sha).(stage := Exited(true)),
                 AtClose(b, second.elapsed, sha).(stage := Exited(true)))
  {
    var r1, r2 := Moves(true, first, 1), Moves(false, second, CLOSE_OPERATIONS);
    var r3 := Moves(true, first, CLOSE_OPERATIONS - 1);
    PairSplit(w, r1, r2 + r3, sha);
    FirstPublishes(w, files, a, b, first, second.elapsed, sha);
    var w1 := PairRun(w, r1, sha);
    PairSplit(w1, r2, r3, sha);
    SecondCloses(w1, files, b, first.elapsed, second, sha);
    FirstCloses(PairRun(w1, r2, sha), files, a, first, second.elapsed, sha);
  }

  /** A clash has consequences: two recoveries of one prepared journal can both end well and
      leave a journal closed over the receipt of the one beside the receipt of the other;
      where the digests differ, no recovery accepts that directory again. */
  lemma TwoRecoveriesDisagree(w: Pair, a: nat, b: nat, first: Answer, second: Answer, sha: Data -> nat)
    requires BothRecover(w, a, b) && InTime(first) && InTime(second)
    requires sha(ReceiptOf(first.elapsed)) != sha(ReceiptOf(second.elapsed))
    ensures var end := PairRun(w, Checked(first, second) + Race(first, second), sha);
            && end.first.stage == Exited(true) && end.second.stage == Exited(true)
            && !ClosedOver(end.files, sha)
            && forall pid, elapsed :: !Recover(end.files, pid, elapsed, sha).1
  {
    PairSplit(w, Checked(first, second), Race(first, second), sha);
    RaceChecked(w, a, b, first, second, sha);
    RaceRun(PairRun(w, Checked(first, second), sha), w.files, a, b, first, second, sha);
  }
}
