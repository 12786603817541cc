/** Endless runs of the reader and the reporter. Every begun batch completes if and
    only if the scheduling is strongly fair to the reader, and every begun report
    if and only if it is strongly fair to the reporter: the loops share mutexes,
    but neither can keep one from the other for ever. Weak fairness is not enough
    for either loop. */
module Fairness {
  import opened Probes
  import opened Stats
  import opened Temporal
  import opened Collector
  import opened Completion

  /** The state at each point in time and the step taken there. */
  datatype Run = Run(states: nat -> UState, steps: nat -> UStep)

  ghost predicate StepOf(classify: Classifier, r: Run, n: nat) {
    UEnabled(r.states(n), r.steps(n)) && r.states(n + 1) == UApply(classify, r.states(n), r.steps(n))
  }

  ghost predicate Endless(classify: Classifier, r: Run) {
    r.states(0) == UINIT && forall n: nat :: StepOf(classify, r, n)
  }

  function Prefix(steps: nat -> UStep, n: nat): seq<UStep> {
    if n == 0 then [] else Prefix(steps, n - 1) + [steps(n - 1)]
  }

  /** An endless run passes through the states of the runs that it begins with. */
  lemma {:induction false} StatesAreReached(classify: Classifier, r: Run, n: nat)
    requires Endless(classify, r)
    ensures IsURun(classify, Prefix(r.steps, n)) && UAfter(classify, Prefix(r.steps, n)) == r.states(n)
  {
    if n > 0 {
      StatesAreReached(classify, r, n - 1);
      assert StepOf(classify, r, n - 1);
      URunExtends(classify, Prefix(r.steps, n - 1), r.steps(n - 1));
    }
  }

  /** One step of an endless run, with the invariants before it. */
  lemma NextState(classify: Classifier, r: Run, n: nat)
    requires Endless(classify, r)
    ensures StepOf(classify, r, n) && UInv(classify, r.states(n))
  {
    StatesAreReached(classify, r, n);
    UInvAlways(classify, Prefix(r.steps, n));
  }

  // ----- The reader -----

  /** The reader has work and can go on with it. */
  ghost predicate ReaderCan(u: UState) {
    ReaderBusy(u.reader) && UEnabled(u, ReaderNext(u))
  }

  ghost function ReaderBusyAt(r: Run): nat -> bool { (n: nat) => ReaderBusy(r.states(n).reader) }
  ghost function ReaderCanAt(r: Run): nat -> bool { (n: nat) => ReaderCan(r.states(n)) }
  ghost function ReaderWorkAt(r: Run): nat -> bool { (n: nat) => ReaderWork(r.steps(n)) }
  ghost function ReaderRankAt(r: Run): nat -> nat { (n: nat) => ReaderRank(r.states(n)) }

  /** The batch in progress at `u` has been folded whole at `u'`, where the reader
      waits again and holds no mutex. */
  ghost predicate BatchFolded(u: UState, u': UState) {
    u'.reader.Waiting? && u'.batches == Final(u) && Reader !in u'.owners
  }

  /** A batch that is in progress at `n` completes later. */
  ghost predicate BatchCompletesAfter(r: Run, n: nat) {
    ReaderBusy(r.states(n).reader) ==> exists m: nat :: n < m && BatchFolded(r.states(n), r.states(m))
  }

  ghost predicate BatchesComplete(r: Run) {
    forall n: nat :: BatchCompletesAfter(r, n)
  }

  /** Steps that are not the reader's own leave a busy reader as it is. */
  lemma ReaderKept(classify: Classifier, u: UState, st: UStep)
    requires UInv(classify, u) && UEnabled(u, st) && ReaderBusy(u.reader) && !ReaderWork(st)
    ensures var u' := UApply(classify, u, st);
            u'.reader == u.reader && ReaderRank(u') == ReaderRank(u)
  {
    RankStep(classify, u, st);
  }

  lemma ReaderWorkIsNext(u: UState, st: UStep)
    requires UEnabled(u, st) && ReaderWork(st)
    ensures ReaderCan(u) && st == ReaderNext(u)
  {
  }

  /** What a busy reader lacks is a mutex that the reporter holds, and the only
      steps possible are those with which the reporter releases it. */
  lemma BlockedByReporter(classify: Classifier, u: UState, st: UStep)
    requires UInv(classify, u) && UEnabled(u, st) && ReaderBusy(u.reader) && !ReaderCan(u)
    ensures !ReaderWork(st) && HoldRank(UApply(classify, u, st).reporter) < HoldRank(u.reporter)
  {
    BlockedReader(u);
    if ReaderWork(st) {
      ReaderWorkIsNext(u, st);
    }
  }

  /** Nothing can keep a mutex from the reader for ever. */
  lemma {:induction false} ReaderCanSoon(classify: Classifier, r: Run, n: nat)
    requires Endless(classify, r) && ReaderBusy(r.states(n).reader)
    ensures Later(ReaderCanAt(r), n)
    decreases HoldRank(r.states(n).reporter)
  {
    if ReaderCan(r.states(n)) {
      assert ReaderCanAt(r)(n);
    } else {
      NextState(classify, r, n);
      BlockedByReporter(classify, r.states(n), r.steps(n));
      ReaderKept(classify, r.states(n), r.steps(n));
      ReaderCanSoon(classify, r, n + 1);
    }
  }

  lemma ReaderMoves(classify: Classifier, u: UState, st: UStep)
    requires UInv(classify, u) && UEnabled(u, st) && ReaderBusy(u.reader)
    ensures var u' := UApply(classify, u, st);
            && (if ReaderWork(st) then ReaderRank(u') < ReaderRank(u)
                else ReaderBusy(u'.reader) && ReaderRank(u') == ReaderRank(u))
            && if ReaderBusy(u'.reader) then Final(u') == Final(u) else BatchFolded(u, u')
  {
    RankStep(classify, u, st);
    BatchMoves(classify, u, st);
    LocksStep(classify, u, st);
    NothingHeld(UApply(classify, u, st));
    if !ReaderWork(st) {
      ReaderKept(classify, u, st);
    }
  }

  lemma ReaderIsLoop(classify: Classifier, r: Run)
    requires Endless(classify, r)
    ensures Loop(ReaderBusyAt(r), ReaderCanAt(r), ReaderWorkAt(r), ReaderRankAt(r))
  {
    forall n: nat
      ensures ReaderCanAt(r)(n) ==> ReaderBusyAt(r)(n)
      ensures CanSoon(ReaderBusyAt(r), ReaderCanAt(r), n)
      ensures Moves(ReaderBusyAt(r), ReaderWorkAt(r), ReaderRankAt(r), n)
    {
      if ReaderBusy(r.states(n).reader) {
        ReaderCanSoon(classify, r, n);
        NextState(classify, r, n);
        ReaderMoves(classify, r.states(n), r.steps(n));
      }
    }
  }

  /** When the reader is done, it is done with the batch it had. */
  lemma {:induction false} FoldedWhenFinished(classify: Classifier, r: Run, n: nat, m: nat)
    requires Endless(classify, r) && Finishes(ReaderBusyAt(r), n, m)
    ensures BatchFolded(r.states(n), r.states(m))
    decreases m - n
  {
    assert ReaderBusyAt(r)(n) && !ReaderBusyAt(r)(m);
    NextState(classify, r, n);
    ReaderMoves(classify, r.states(n), r.steps(n));
    if n + 1 < m {
      assert ReaderBusyAt(r)(n + 1);
      FoldedWhenFinished(classify, r, n + 1, m);
    }
  }

  /** Whatever the reporter, the timer and the ring do: every begun batch is folded
      whole if and only if the scheduling is strongly fair to the reader. */
  lemma BatchesCompleteExact(classify: Classifier, r: Run)
    requires Endless(classify, r)
    ensures BatchesComplete(r) <==> StronglyFair(ReaderCanAt(r), ReaderWorkAt(r))
  {
    ReaderIsLoop(classify, r);
    FinishExact(ReaderBusyAt(r), ReaderCanAt(r), ReaderWorkAt(r), ReaderRankAt(r));
    if AllFinish(ReaderBusyAt(r)) {
      forall n: nat ensures BatchCompletesAfter(r, n) {
        if ReaderBusyAt(r)(n) {
          var m: nat :| Finishes(ReaderBusyAt(r), n, m);
          FoldedWhenFinished(classify, r, n, m);
        }
      }
    }
    if BatchesComplete(r) {
      forall n: nat | ReaderBusyAt(r)(n) ensures exists m: nat :: Finishes(ReaderBusyAt(r), n, m) {
        assert BatchCompletesAfter(r, n);
        var w: nat :| n < w && BatchFolded(r.states(n), r.states(w));
        assert !ReaderBusyAt(r)(w);
        var m := FirstFinish(ReaderBusyAt(r), n, w);
      }
    }
  }

  // ----- The reporter -----

  ghost predicate ReporterCan(u: UState) {
    !u.reporter.Sleeping? && UEnabled(u, ReporterNext(u))
  }

  ghost function ReporterBusyAt(r: Run): nat -> bool { (n: nat) => !r.states(n).reporter.Sleeping? }
  ghost function ReporterCanAt(r: Run): nat -> bool { (n: nat) => ReporterCan(r.states(n)) }
  ghost function ReporterWorkAt(r: Run): nat -> bool { (n: nat) => ReporterWork(r.steps(n)) }
  ghost function ReporterRankAt(r: Run): nat -> nat { (n: nat) => ReporterRank(r.states(n)) }

  /** The report in progress at `u` has printed its three panels at `u'`, the ones
      printed before among them, and the reporter holds no mutex. */
  ghost predicate ReportPrinted(u: UState, u': UState) {
    u'.reporter.Sleeping? && |u'.shown| == 3 && u.shown <= u'.shown && Reporter !in u'.owners
  }

  /** A report that is in progress at `n` completes later. */
  ghost predicate ReportCompletesAfter(r: Run, n: nat) {
    !r.states(n).reporter.Sleeping? ==> exists m: nat :: n < m && ReportPrinted(r.states(n), r.states(m))
  }

  ghost predicate ReportsComplete(r: Run) {
    forall n: nat :: ReportCompletesAfter(r, n)
  }

  lemma ReporterWorkIsNext(u: UState, st: UStep)
    requires UEnabled(u, st) && ReporterWork(st)
    ensures ReporterCan(u) && st == ReporterNext(u)
  {
  }

  lemma ReporterMoves(classify: Classifier, u: UState, st: UStep)
    requires UInv(classify, u) && UEnabled(u, st) && !u.reporter.Sleeping?
    ensures var u' := UApply(classify, u, st);
            && (if ReporterWork(st) then ReporterRank(u') < ReporterRank(u)
                else u'.reporter == u.reporter && ReporterRank(u') == ReporterRank(u))
            && u.shown <= u'.shown && (u'.reporter.Sleeping? ==> ReportPrinted(u, u'))
  {
    RankStep(classify, u, st);
    ReportMoves(classify, u, st);
    LocksStep(classify, u, st);
    NothingHeld(UApply(classify, u, st));
  }

  /** What a reporter at work lacks is a mutex that the reader holds, and the only
      steps possible are those with which the reader finishes its batch. */
  lemma BlockedByReader(classify: Classifier, u: UState, st: UStep)
    requires UInv(classify, u) && UEnabled(u, st) && !u.reporter.Sleeping? && !ReporterCan(u)
    ensures !ReporterWork(st) && ReaderRank(UApply(classify, u, st)) < ReaderRank(u)
  {
    SomeoneCanStep(u);
    if ReporterWork(st) {
      ReporterWorkIsNext(u, st);
    }
    RankStep(classify, u, st);
  }

  /** Nothing can keep a mutex from the reporter for ever. */
  lemma {:induction false} ReporterCanSoon(classify: Classifier, r: Run, n: nat)
    requires Endless(classify, r) && !r.states(n).reporter.Sleeping?
    ensures Later(ReporterCanAt(r), n)
    decreases ReaderRank(r.states(n))
  {
    if ReporterCan(r.states(n)) {
      assert ReporterCanAt(r)(n);
    } else {
      NextState(classify, r, n);
      BlockedByReader(classify, r.states(n), r.steps(n));
      ReporterMoves(classify, r.states(n), r.steps(n));
      ReporterCanSoon(classify, r, n + 1);
    }
  }

  lemma ReporterIsLoop(classify: Classifier, r: Run)
    requires Endless(classify, r)
    ensures Loop(ReporterBusyAt(r), ReporterCanAt(r), ReporterWorkAt(r), ReporterRankAt(r))
  {
    forall n: nat
      ensures ReporterCanAt(r)(n) ==> ReporterBusyAt(r)(n)
      ensures CanSoon(ReporterBusyAt(r), ReporterCanAt(r), n)
      ensures Moves(ReporterBusyAt(r), ReporterWorkAt(r), ReporterRankAt(r), n)
    {
      if !r.states(n).reporter.Sleeping? {
        ReporterCanSoon(classify, r, n);
        NextState(classify, r, n);
        ReporterMoves(classify, r.states(n), r.steps(n));
      }
    }
  }

  lemma {:induction false} PrintedWhenFinished(classify: Classifier, r: Run, n: nat, m: nat)
    requires Endless(classify, r) && Finishes(ReporterBusyAt(r), n, m)
    ensures ReportPrinted(r.states(n), r.states(m))
    decreases m - n
  {
    assert ReporterBusyAt(r)(n) && !ReporterBusyAt(r)(m);
    NextState(classify, r, n);
    ReporterMoves(classify, r.states(n), r.steps(n));
    if n + 1 < m {
      assert ReporterBusyAt(r)(n + 1);
      PrintedWhenFinished(classify, r, n + 1, m);
    }
  }

  /** Whatever the reader, the timer and the ring do: every begun report prints its
      three panels if and only if the scheduling is strongly fair to the reporter. */
  lemma ReportsCompleteExact(classify: Classifier, r: Run)
    requires Endless(classify, r)
    ensures ReportsComplete(r) <==> StronglyFair(ReporterCanAt(r), ReporterWorkAt(r))
  {
    ReporterIsLoop(classify, r);
    FinishExact(ReporterBusyAt(r), ReporterCanAt(r), ReporterWorkAt(r), ReporterRankAt(r));
    if AllFinish(ReporterBusyAt(r)) {
      forall n: nat ensures ReportCompletesAfter(r, n) {
        if ReporterBusyAt(r)(n) {
          var m: nat :| Finishes(ReporterBusyAt(r), n, m);
          PrintedWhenFinished(classify, r, n, m);
        }
      }
    }
    if ReportsComplete(r) {
      forall n: nat | ReporterBusyAt(r)(n) ensures exists m: nat :: Finishes(ReporterBusyAt(r), n, m) {
        assert ReportCompletesAfter(r, n);
        var w: nat :| n < w && ReportPrinted(r.states(n), r.states(w));
        assert !ReporterBusyAt(r)(w);
        var m := FirstFinish(ReporterBusyAt(r), n, w);
      }
    }
  }

  // ----- Weak fairness is not enough -----

  /** The state at `n` of the run that always takes the step that `next` names. */
  ghost function Driven(classify: Classifier, next: UState -> UStep, n: nat): UState {
    if n == 0 then UINIT
    else
      var u := Driven(classify, next, n - 1);
      if UEnabled(u, next(u)) then UApply(classify, u, next(u)) else u
  }

  ghost function DrivenRun(classify: Classifier, next: UState -> UStep): Run {
    Run((n: nat) => Driven(classify, next, n), (n: nat) => next(Driven(classify, next, n)))
  }

  lemma DrivenStep(classify: Classifier, next: UState -> UStep, n: nat)
    requires var u := Driven(classify, next, n); UEnabled(u, next(u))
    ensures StepOf(classify, DrivenRun(classify, next), n)
  {
  }

  /** The reader takes one record, and then only the reporter steps. */
  function ReporterFirst(ev: LatencyEvent): UState -> UStep {
    (u: UState) =>
      if u.reader.Waiting? then Wake
      else if u.reader.Collecting? then if u.batch == [] then Take(ev) else EndCollect
      else if u.reporter.Sleeping? then Tick
      else ReporterNext(u)
  }

  /** The reader waits for its first mutex, which is the reporter's at times. */
  ghost predicate ReaderStarves(ev: LatencyEvent, u: UState) {
    && (match u.reader
        case Waiting => u.batch == [] && u.reporter.Sleeping?
        case Collecting => (u.batch == [] || u.batch == [ev]) && u.reporter.Sleeping?
        case Locking(n) => u.batch == [ev] && n == 0
        case _ => false)
    && (!u.reporter.Sleeping? ==> u.reporter.panel < 3)
    && u.owners == if u.reporter.Holding? || u.reporter.Printed?
                   then [Free, Free, Free][u.reporter.panel := Reporter] else [Free, Free, Free]
  }

  lemma ReaderStarvesOn(classify: Classifier, ev: LatencyEvent, u: UState)
    requires ReaderStarves(ev, u)
    ensures var st := ReporterFirst(ev)(u);
            && UEnabled(u, st) && ReaderStarves(ev, UApply(classify, u, st))
            && (u.reader.Locking? ==> UApply(classify, u, st).reader == u.reader)
  {
  }

  lemma {:induction false} ReaderStarvesAlways(classify: Classifier, ev: LatencyEvent, n: nat)
    ensures var r := DrivenRun(classify, ReporterFirst(ev));
            ReaderStarves(ev, r.states(n)) && StepOf(classify, r, n)
  {
    if n > 0 {
      ReaderStarvesAlways(classify, ev, n - 1);
      ReaderStarvesOn(classify, ev, Driven(classify, ReporterFirst(ev), n - 1));
    }
    ReaderStarvesOn(classify, ev, Driven(classify, ReporterFirst(ev), n));
    DrivenStep(classify, ReporterFirst(ev), n);
  }

  /** Steps until the first mutex is the reporter's, once the reader wants it. */
  function UntilHeld(pc: ReporterPc): nat {
    match pc
    case Sleeping => 9
    case Wanting(i) => if i == 0 then 8 else if i < 3 then 18 - 3 * i else 0
    case Holding(i) => if i == 0 then 7 else if i < 3 then 17 - 3 * i else 0
    case Printed(i) => if i < 3 then 16 - 3 * i else 0
  }

  lemma {:induction false} ReaderBlockedAgain(classify: Classifier, ev: LatencyEvent, n: nat)
    ensures !AlwaysFrom(ReaderCanAt(DrivenRun(classify, ReporterFirst(ev))), n)
    decreases UntilHeld(Driven(classify, ReporterFirst(ev), n).reporter)
  {
    var r := DrivenRun(classify, ReporterFirst(ev));
    ReaderStarvesAlways(classify, ev, n);
    if ReaderCanAt(r)(n) {
      ReaderBlockedAgain(classify, ev, n + 1);
    }
  }

  /** Steps until the reporter works. */
  function UntilReport(u: UState): nat {
    if u.reader.Waiting? then 4 else if u.reader.Collecting? then if u.batch == [] then 3 else 2
    else if u.reporter.Sleeping? then 1 else 0
  }

  lemma {:induction false} ReporterWorksLater(classify: Classifier, ev: LatencyEvent, n: nat)
    ensures Later(ReporterWorkAt(DrivenRun(classify, ReporterFirst(ev))), n)
    decreases UntilReport(Driven(classify, ReporterFirst(ev), n))
  {
    var r := DrivenRun(classify, ReporterFirst(ev));
    ReaderStarvesAlways(classify, ev, n);
    if !ReporterWorkAt(r)(n) {
      ReporterWorksLater(classify, ev, n + 1);
    }
  }

  lemma {:induction false} ReaderStaysAt(classify: Classifier, ev: LatencyEvent, n: nat)
    requires n >= 3
    ensures Driven(classify, ReporterFirst(ev), n).reader == Locking(0)
  {
    var r := DrivenRun(classify, ReporterFirst(ev));
    if n > 3 {
      ReaderStaysAt(classify, ev, n - 1);
      ReaderStarvesAlways(classify, ev, n - 1);
      ReaderStarvesOn(classify, ev, Driven(classify, ReporterFirst(ev), n - 1));
    } else {
      assert StepOf(classify, r, 0) && StepOf(classify, r, 1) && StepOf(classify, r, 2) by {
        ReaderStarvesAlways(classify, ev, 0);
        ReaderStarvesAlways(classify, ev, 1);
        ReaderStarvesAlways(classify, ev, 2);
      }
    }
  }

  /** Weak fairness to the reader, even with strong fairness to the reporter, lets
      a begun batch wait for its first mutex for ever. */
  lemma ReaderCanStarve(classify: Classifier, ev: LatencyEvent) returns (r: Run)
    ensures Endless(classify, r)
    ensures WeaklyFair(ReaderCanAt(r), ReaderWorkAt(r)) && StronglyFair(ReporterCanAt(r), ReporterWorkAt(r))
    ensures forall n: nat | n >= 3 :: r.states(n).reader == Locking(0)
  {
    r := DrivenRun(classify, ReporterFirst(ev));
    forall n: nat
      ensures StepOf(classify, r, n) && !AlwaysFrom(ReaderCanAt(r), n) && Later(ReporterWorkAt(r), n)
    {
      ReaderStarvesAlways(classify, ev, n);
      ReaderBlockedAgain(classify, ev, n);
      ReporterWorksLater(classify, ev, n);
    }
    forall n: nat | n >= 3 ensures r.states(n).reader == Locking(0) {
      ReaderStaysAt(classify, ev, n);
    }
  }

  /** A report is begun, and then only the reader steps. */
  function ReaderFirst(ev: LatencyEvent): UState -> UStep {
    (u: UState) =>
      if u.reporter.Sleeping? then Tick
      else if u.reader.Waiting? then Wake
      else if u.reader.Collecting? then if u.batch == [] then Take(ev) else EndCollect
      else ReaderNext(u)
  }

  /** The reporter waits for its first mutex, which is the reader's at times. */
  ghost predicate ReporterStarves(ev: LatencyEvent, u: UState) {
    && (u.reporter == Wanting(0) || (u.reporter.Sleeping? && u.reader.Waiting?))
    && (match u.reader
        case Waiting => u.batch == []
        case Collecting => u.batch == [] || u.batch == [ev]
        case Locking(n) => n < 3 && u.batch == [ev]
        case Draining => u.batch == [] || u.batch == [ev]
        case Unlocking(n) => 0 < n <= 3 && u.batch == []
        case _ => u.batch == [])
    && |u.owners| == 3
    && forall i | 0 <= i < 3 :: u.owners[i] == if ReaderHolds(u.reader, i) then Reader else Free
  }

  lemma ReporterStarvesOn(classify: Classifier, ev: LatencyEvent, u: UState)
    requires ReporterStarves(ev, u)
    ensures var st := ReaderFirst(ev)(u);
            && UEnabled(u, st) && ReporterStarves(ev, UApply(classify, u, st))
            && UApply(classify, u, st).reporter == Wanting(0)
  {
  }

  lemma {:induction false} ReporterStarvesAlways(classify: Classifier, ev: LatencyEvent, n: nat)
    ensures var r := DrivenRun(classify, ReaderFirst(ev));
            ReporterStarves(ev, r.states(n)) && StepOf(classify, r, n)
            && r.states(n + 1).reporter == Wanting(0)
  {
    if n > 0 {
      ReporterStarvesAlways(classify, ev, n - 1);
      ReporterStarvesOn(classify, ev, Driven(classify, ReaderFirst(ev), n - 1));
    }
    ReporterStarvesOn(classify, ev, Driven(classify, ReaderFirst(ev), n));
    DrivenStep(classify, ReaderFirst(ev), n);
  }

  /** Steps until the reader takes its first mutex. */
  function UntilTaken(u: UState): nat {
    if u.reader.Waiting? then 4 else if u.reader.Collecting? then if u.batch == [] then 3 else 2
    else if u.reader == Locking(0) then 1 else 0
  }

  lemma {:induction false} ReporterBlockedAgain(classify: Classifier, ev: LatencyEvent, n: nat)
    ensures !AlwaysFrom(ReporterCanAt(DrivenRun(classify, ReaderFirst(ev))), n)
    decreases UntilTaken(Driven(classify, ReaderFirst(ev), n))
  {
    var r := DrivenRun(classify, ReaderFirst(ev));
    ReporterStarvesAlways(classify, ev, n);
    if ReporterCanAt(r)(n) {
      ReporterBlockedAgain(classify, ev, n + 1);
    }
  }

  lemma {:induction false} ReaderWorksLater(classify: Classifier, ev: LatencyEvent, n: nat)
    ensures Later(ReaderWorkAt(DrivenRun(classify, ReaderFirst(ev))), n)
    decreases Driven(classify, ReaderFirst(ev), n).reporter.Sleeping?, UntilTaken(Driven(classify, ReaderFirst(ev), n))
  {
    var r := DrivenRun(classify, ReaderFirst(ev));
    ReporterStarvesAlways(classify, ev, n);
    if !ReaderWorkAt(r)(n) {
      ReaderWorksLater(classify, ev, n + 1);
    }
  }

  /** Weak fairness to the reporter, even with strong fairness to the reader, lets
      a begun report wait for its first mutex for ever. */
  lemma ReporterCanStarve(classify: Classifier, ev: LatencyEvent) returns (r: Run)
    ensures Endless(classify, r)
    ensures WeaklyFair(ReporterCanAt(r), ReporterWorkAt(r)) && StronglyFair(ReaderCanAt(r), ReaderWorkAt(r))
    ensures forall n: nat | n >= 1 :: r.states(n).reporter == Wanting(0)
  {
    r := DrivenRun(classify, ReaderFirst(ev));
    forall n: nat
      ensures StepOf(classify, r, n) && !AlwaysFrom(ReporterCanAt(r), n) && Later(ReaderWorkAt(r), n)
      ensures r.states(n + 1).reporter == Wanting(0)
    {
      ReporterStarvesAlways(classify, ev, n);
      ReporterBlockedAgain(classify, ev, n);
      ReaderWorksLater(classify, ev, n);
    }
    forall n: nat | n >= 1 ensures r.states(n).reporter == Wanting(0) {
      ReporterStarvesAlways(classify, ev, n - 1);
    }
  }
}
