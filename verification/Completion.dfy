/** Begun batches and begun reports complete, and wanted mutexes are released,
    whatever the other loop and the clock do in between: ticks, wake-ups and new
    records can come at any time. */
module Completion {
  import opened Probes
  import opened Stats
  import opened Collector

  /** How many of the steps are work of the reader, and of the reporter. */
  function ReaderSteps(steps: seq<UStep>): nat {
    if steps == [] then 0
    else ReaderSteps(steps[..|steps| - 1]) + (if ReaderWork(steps[|steps| - 1]) then 1 else 0)
  }

  function ReporterSteps(steps: seq<UStep>): nat {
    if steps == [] then 0
    else ReporterSteps(steps[..|steps| - 1]) + (if ReporterWork(steps[|steps| - 1]) then 1 else 0)
  }

  /** Own steps left until the reader's batch, and the reporter's report, is done. */
  function ReaderRank(u: UState): nat {
    match u.reader
    case Locking(n) => 3 * |u.batch| + 7 - (if n <= 3 then n else 3)
    case Draining => 3 * |u.batch| + 4
    case RecordingCmd(_) => 3 * |u.batch| + 6
    case RecordingCli(_) => 3 * |u.batch| + 5
    case Unlocking(n) => n
    case _ => 0
  }

  function ReporterRank(u: UState): nat {
    match u.reporter
    case Wanting(i) => if i < 3 then 9 - 3 * i else 0
    case Holding(i) => if i < 3 then 8 - 3 * i else 0
    case Printed(i) => if i < 3 then 7 - 3 * i else 0
    case _ => 0
  }

  /** Each work step takes one off its loop's own rank and leaves the other's. */
  lemma RankStep(classify: Classifier, u: UState, st: UStep)
    requires LocksInv(u) && UEnabled(u, st)
    ensures ReaderWork(st) ==> ReaderRank(UApply(classify, u, st)) == ReaderRank(u) - 1
    ensures ReporterWork(st) ==> ReporterRank(UApply(classify, u, st)) == ReporterRank(u) - 1
    ensures !ReaderWork(st) && !st.EndCollect? ==> ReaderRank(UApply(classify, u, st)) == ReaderRank(u)
    ensures !ReporterWork(st) && !st.Tick? ==> ReporterRank(UApply(classify, u, st)) == ReporterRank(u)
  {
  }

  lemma LastOfSum<T>(a: seq<T>, b: seq<T>)
    requires b != []
    ensures (a + b)[..|a + b| - 1] == a + b[..|b| - 1] && (a + b)[|a + b| - 1] == b[|b| - 1]
  {
  }

  /** The last step of a continued run. */
  lemma LastStep(classify: Classifier, steps: seq<UStep>, more: seq<UStep>) returns (u: UState, st: UStep)
    requires more != [] && IsURun(classify, steps + more)
    ensures IsURun(classify, steps + more[..|more| - 1])
    ensures u == UAfter(classify, steps + more[..|more| - 1]) && st == more[|more| - 1]
    ensures UInv(classify, u) && UEnabled(u, st) && UAfter(classify, steps + more) == UApply(classify, u, st)
  {
    var n := |more| - 1;
    LastOfSum(steps, more);
    u, st := UAfter(classify, steps + more[..n]), more[n];
    UInvAlways(classify, steps + more[..n]);
  }

  lemma NoMore(steps: seq<UStep>, more: seq<UStep>)
    ensures more == [] ==> steps + more == steps
  {
  }

  lemma TakeTake(steps: seq<UStep>, j: nat, k: nat)
    requires k <= j <= |steps|
    ensures steps[..j][..k] == steps[..k]
  {
  }

  // ----- How far a loop has come -----

  /** While no new batch is begun, the reader's own steps and what is left add up
      to what was left, whatever the reporter, the clock and the ring do. */
  lemma {:induction false} ReaderProgress(classify: Classifier, steps: seq<UStep>, more: seq<UStep>)
    requires IsURun(classify, steps + more) && forall i | 0 <= i < |more| :: !more[i].EndCollect?
    ensures IsURun(classify, steps)
    ensures ReaderSteps(more) + ReaderRank(UAfter(classify, steps + more)) == ReaderRank(UAfter(classify, steps))
  {
    if more == [] {
      assert steps + more == steps;
    } else {
      var u, st := LastStep(classify, steps, more);
      ReaderProgress(classify, steps, more[..|more| - 1]);
      RankStep(classify, u, st);
    }
  }

  /** The same for the reporter while no new report is begun. */
  lemma {:induction false} ReporterProgress(classify: Classifier, steps: seq<UStep>, more: seq<UStep>)
    requires IsURun(classify, steps + more) && forall i | 0 <= i < |more| :: !more[i].Tick?
    ensures IsURun(classify, steps)
    ensures ReporterSteps(more) + ReporterRank(UAfter(classify, steps + more)) == ReporterRank(UAfter(classify, steps))
  {
    if more == [] {
      assert steps + more == steps;
    } else {
      var u, st := LastStep(classify, steps, more);
      ReporterProgress(classify, steps, more[..|more| - 1]);
      RankStep(classify, u, st);
    }
  }

  /** A loop that is done holds no mutex. */
  lemma NothingHeld(u: UState)
    requires LocksInv(u)
    ensures u.reader.Waiting? ==> Reader !in u.owners
    ensures u.reporter.Sleeping? ==> Reporter !in u.owners
  {
  }

  // ----- A begun batch -----

  /** The batch in progress: what is folded of it, being recorded, and left. */
  function Begun(u: UState): seq<LatencyEvent> {
    u.part + Current(u.reader) + u.batch
  }

  /** The completed batches once the batch in progress at `u` is done. */
  function Final(u: UState): seq<seq<LatencyEvent>> {
    if u.reader.Unlocking? then u.batches else u.batches + [Begun(u)]
  }

  /** The batch that was in progress at `u0` still is at `u`. */
  ghost predicate SameBatch(u0: UState, u: UState) {
    ReaderBusy(u.reader) && Final(u) == Final(u0)
  }

  lemma BatchRecords(classify: Classifier, u: UState, st: UStep)
    requires UEnabled(u, st) && (st.RecordLat? || st.RecordCmd? || st.RecordCli?)
    ensures var u' := UApply(classify, u, st);
            InBatch(u'.reader) && u'.batches == u.batches && Begun(u') == Begun(u)
  {
    if st.RecordLat? {
      assert u.part + [] + u.batch == u.part + [u.batch[0]] + u.batch[1..];
    } else if st.RecordCli? {
      assert u.part + [u.reader.ev] + u.batch == u.part + [u.reader.ev] + [] + u.batch;
    }
  }

  lemma BatchMoves(classify: Classifier, u: UState, st: UStep)
    requires LocksInv(u) && BatchInv(u) && UEnabled(u, st) && ReaderBusy(u.reader)
    ensures var u' := UApply(classify, u, st);
            if ReaderBusy(u'.reader) then Final(u') == Final(u)
            else u'.reader.Waiting? && u'.batches == Final(u) && ReaderWork(st)
  {
    if st.RecordLat? || st.RecordCmd? || st.RecordCli? {
      BatchRecords(classify, u, st);
    } else if st.EndBatch? {
      assert u.part + [] + [] == u.part;
    }
  }

  /** One step while the batch that was in progress at `u0` goes on. */
  lemma BatchMovesOn(classify: Classifier, u0: UState, u: UState, st: UStep)
    requires UInv(classify, u) && UEnabled(u, st) && SameBatch(u0, u)
    ensures var u' := UApply(classify, u, st);
            && ReaderRank(u') + (if ReaderWork(st) then 1 else 0) == ReaderRank(u)
            && if ReaderBusy(u'.reader) then SameBatch(u0, u')
               else u'.reader.Waiting? && u'.batches == Final(u0) && ReaderRank(u') == 0
  {
    RankStep(classify, u, st);
    BatchMoves(classify, u, st);
  }

  lemma DoneStays(classify: Classifier, steps: seq<UStep>, more: seq<UStep>, k: nat)
    requires IsURun(classify, steps) && more != [] && BatchDone(classify, steps, more[..|more| - 1], k)
    ensures BatchDone(classify, steps, more, k)
  {
    TakeTake(more, |more| - 1, k);
  }

  /** Either the batch in progress at the start is done after some of the steps,
      having taken as many reader steps as were left, or it still goes on. */
  lemma {:induction false} BatchProgress(classify: Classifier, steps: seq<UStep>, more: seq<UStep>)
    returns (done: bool, k: nat)
    requires IsURun(classify, steps + more) && IsURun(classify, steps) && ReaderBusy(UAfter(classify, steps).reader)
    ensures done ==> BatchDone(classify, steps, more, k)
    ensures !done ==>
              && SameBatch(UAfter(classify, steps), UAfter(classify, steps + more))
              && ReaderSteps(more) + ReaderRank(UAfter(classify, steps + more)) == ReaderRank(UAfter(classify, steps))
  {
    if more == [] {
      assert steps + more == steps;
      done, k := false, 0;
    } else {
      var n := |more| - 1;
      var u, st := LastStep(classify, steps, more);
      done, k := BatchProgress(classify, steps, more[..n]);
      if done {
        DoneStays(classify, steps, more, k);
      } else {
        BatchMovesOn(classify, UAfter(classify, steps), u, st);
        Whole(more);
        if !ReaderBusy(UApply(classify, u, st).reader) {
          done, k := true, |more|;
        }
      }
    }
  }

  /** After `k` of the steps the batch in progress at the start has been folded
      whole and the reader waits again, with no mutex in its hands. */
  ghost predicate BatchDone(classify: Classifier, steps: seq<UStep>, more: seq<UStep>, k: nat)
    requires IsURun(classify, steps)
  {
    && k <= |more| && IsURun(classify, steps + more[..k])
    && ReaderSteps(more[..k]) == ReaderRank(UAfter(classify, steps))
    && UAfter(classify, steps + more[..k]).reader.Waiting?
    && UAfter(classify, steps + more[..k]).batches == Final(UAfter(classify, steps))
  }

  /** However the steps of the reporter, ticks, wake-ups and new records are mixed
      in, a begun batch is done as soon as the reader has taken the steps left. */
  lemma {:induction false} BatchCompletes(classify: Classifier, steps: seq<UStep>, more: seq<UStep>) returns (k: nat)
    requires IsURun(classify, steps + more) && IsURun(classify, steps) && ReaderBusy(UAfter(classify, steps).reader)
    requires ReaderSteps(more) >= ReaderRank(UAfter(classify, steps))
    ensures BatchDone(classify, steps, more, k)
    ensures Reader !in UAfter(classify, steps + more[..k]).owners
  {
    var done: bool;
    done, k := BatchProgress(classify, steps, more);
    UInvAlways(classify, steps + more);
    if done {
      UInvAlways(classify, steps + more[..k]);
      NothingHeld(UAfter(classify, steps + more[..k]));
    }
  }

  // ----- A begun report -----

  /** After `k` of the steps the report in progress at the start has printed its
      three panels, the ones printed before among them, and holds no mutex. */
  ghost predicate ReportDone(classify: Classifier, steps: seq<UStep>, more: seq<UStep>, k: nat)
    requires IsURun(classify, steps)
  {
    && k <= |more| && IsURun(classify, steps + more[..k])
    && ReporterSteps(more[..k]) == ReporterRank(UAfter(classify, steps))
    && var u := UAfter(classify, steps + more[..k]);
       u.reporter.Sleeping? && |u.shown| == 3 && UAfter(classify, steps).shown <= u.shown
  }

  lemma ReportMoves(classify: Classifier, u: UState, st: UStep)
    requires UInv(classify, u) && UEnabled(u, st) && !u.reporter.Sleeping?
    ensures var u' := UApply(classify, u, st);
            && u.shown <= u'.shown
            && (u'.reporter.Sleeping? ==> |u'.shown| == 3 && ReporterWork(st))
  {
  }

  lemma {:induction false} ReportProgress(classify: Classifier, steps: seq<UStep>, more: seq<UStep>)
    returns (done: bool, k: nat)
    requires IsURun(classify, steps + more) && IsURun(classify, steps)
    requires !UAfter(classify, steps).reporter.Sleeping?
    ensures done ==> ReportDone(classify, steps, more, k)
    ensures !done ==>
              && !UAfter(classify, steps + more).reporter.Sleeping?
              && UAfter(classify, steps).shown <= UAfter(classify, steps + more).shown
              && ReporterSteps(more) + ReporterRank(UAfter(classify, steps + more))
                 == ReporterRank(UAfter(classify, steps))
  {
    if more == [] {
      assert steps + more == steps;
      done, k := false, 0;
    } else {
      var n := |more| - 1;
      var u, st := LastStep(classify, steps, more);
      done, k := ReportProgress(classify, steps, more[..n]);
      if done {
        TakeTake(more, n, k);
      } else {
        RankStep(classify, u, st);
        ReportMoves(classify, u, st);
        if UApply(classify, u, st).reporter.Sleeping? {
          done, k := true, |more|;
          assert more[..k] == more;
        }
      }
    }
  }

  /** However the steps of the reader are mixed in, a begun report has printed its
      three panels as soon as the reporter has taken the steps left. */
  lemma {:induction false} ReportCompletes(classify: Classifier, steps: seq<UStep>, more: seq<UStep>) returns (k: nat)
    requires IsURun(classify, steps + more) && IsURun(classify, steps)
    requires !UAfter(classify, steps).reporter.Sleeping?
    requires ReporterSteps(more) >= ReporterRank(UAfter(classify, steps))
    ensures ReportDone(classify, steps, more, k)
    ensures Reporter !in UAfter(classify, steps + more[..k]).owners
  {
    var done: bool;
    done, k := ReportProgress(classify, steps, more);
    UInvAlways(classify, steps + more);
    if done {
      UInvAlways(classify, steps + more[..k]);
      NothingHeld(UAfter(classify, steps + more[..k]));
    }
  }

  // ----- A wanted mutex -----

  ghost predicate FreeAt(u: UState, i: nat) {
    |u.owners| == 3 && i < 3 && u.owners[i] == Free
  }

  /** The mutex that a blocked reader wants. */
  function ReaderWants(u: UState): nat {
    if u.reader.Locking? then u.reader.held else 0
  }

  function ReporterWants(u: UState): nat {
    if u.reporter.Wanting? then u.reporter.panel else 0
  }

  /** A mutex that has left a loop's hands was free in between. */
  lemma {:induction false} FreedBetween(classify: Classifier, steps: seq<UStep>, more: seq<UStep>, i: nat)
    returns (k: nat)
    requires IsURun(classify, steps + more) && IsURun(classify, steps) && i < 3
    requires |UAfter(classify, steps).owners| == 3 && |UAfter(classify, steps + more).owners| == 3
    requires UAfter(classify, steps).owners[i] != Free
    requires UAfter(classify, steps + more).owners[i] != UAfter(classify, steps).owners[i]
    ensures k <= |more| && IsURun(classify, steps + more[..k])
    ensures FreeAt(UAfter(classify, steps + more[..k]), i)
  {
    NoMore(steps, more);
    var n := |more| - 1;
    var u, st := LastStep(classify, steps, more);
    if u.owners[i] != UAfter(classify, steps).owners[i] {
      k := FreedBetween(classify, steps, more[..n], i);
      TakeTake(more, n, k);
    } else {
      k := |more|;
      assert more[..k] == more;
    }
  }

  /** Two steps of the reporter release the mutex it holds. */
  lemma {:induction false} ReporterReleases(classify: Classifier, steps: seq<UStep>, more: seq<UStep>, i: nat)
    returns (k: nat)
    requires IsURun(classify, steps + more) && IsURun(classify, steps) && i < 3
    requires ReporterHolds(UAfter(classify, steps).reporter, i) && ReporterSteps(more) >= 2
    ensures k <= |more| && IsURun(classify, steps + more[..k])
    ensures FreeAt(UAfter(classify, steps + more[..k]), i)
  {
    UInvAlways(classify, steps);
    var j := StillHeld(classify, steps, more, i);
    UInvAlways(classify, steps + more[..j]);
    k := FreedBetween(classify, steps, more[..j], i);
    TakeTake(more, j, k);
  }

  /** Steps of its own after which the reporter releases the mutex it holds. */
  function HoldRank(pc: ReporterPc): nat {
    match pc
    case Holding(_) => 2
    case Printed(_) => 1
    case _ => 0
  }

  lemma HoldMoves(classify: Classifier, u: UState, st: UStep, i: nat)
    requires UEnabled(u, st) && ReporterHolds(u.reporter, i)
    ensures var pc := UApply(classify, u, st).reporter;
            ReporterHolds(pc, i) ==> HoldRank(pc) + (if ReporterWork(st) then 1 else 0) == HoldRank(u.reporter)
  {
  }

  /** The steps after which the reporter no longer holds the mutex, if it took as
      many as were left. */
  lemma {:induction false} StillHeld(classify: Classifier, steps: seq<UStep>, more: seq<UStep>, i: nat) returns (j: nat)
    requires IsURun(classify, steps + more) && IsURun(classify, steps) && i < 3
    requires ReporterHolds(UAfter(classify, steps).reporter, i)
    ensures j <= |more| && IsURun(classify, steps + more[..j])
    ensures var pc := UAfter(classify, steps + more[..j]).reporter;
            ReporterHolds(pc, i) ==>
              j == |more| && ReporterSteps(more) + HoldRank(pc) == HoldRank(UAfter(classify, steps).reporter)
  {
    Whole(more);
    if more == [] {
      NoMore(steps, more);
      j := 0;
    } else {
      var n := |more| - 1;
      var u, st := LastStep(classify, steps, more);
      j := StillHeld(classify, steps, more[..n], i);
      TakeTake(more, n, j);
      if j == n && ReporterHolds(u.reporter, i) {
        HoldMoves(classify, u, st, i);
        j := |more|;
      }
    }
  }

  lemma Whole(more: seq<UStep>)
    ensures more[..|more|] == more
  {
  }

  lemma BlockedReader(u: UState)
    requires LocksInv(u) && ReaderBusy(u.reader) && !UEnabled(u, ReaderNext(u))
    ensures u.reader.Locking? && ReporterHolds(u.reporter, u.reader.held)
  {
    assert u.owners[u.reader.held] == Reporter;
  }

  /** A reader that waits for a mutex can take it after two steps of the reporter. */
  lemma {:induction false} BlockedReaderGoesOn(classify: Classifier, steps: seq<UStep>, more: seq<UStep>)
    returns (k: nat)
    requires IsURun(classify, steps + more) && IsURun(classify, steps)
    requires var u := UAfter(classify, steps); ReaderBusy(u.reader) && !UEnabled(u, ReaderNext(u))
    requires ReporterSteps(more) >= 2
    ensures k <= |more| && IsURun(classify, steps + more[..k])
    ensures FreeAt(UAfter(classify, steps + more[..k]), ReaderWants(UAfter(classify, steps)))
  {
    var u := UAfter(classify, steps);
    UInvAlways(classify, steps);
    BlockedReader(u);
    k := ReporterReleases(classify, steps, more, u.reader.held);
  }

  /** A reporter that waits for a mutex can take it once the reader has taken the
      steps left of its batch. */
  lemma {:induction false} BlockedReporterGoesOn(classify: Classifier, steps: seq<UStep>, more: seq<UStep>)
    returns (k: nat)
    requires IsURun(classify, steps + more) && IsURun(classify, steps)
    requires var u := UAfter(classify, steps); !u.reporter.Sleeping? && !UEnabled(u, ReporterNext(u))
    requires ReaderSteps(more) >= ReaderRank(UAfter(classify, steps))
    ensures k <= |more| && IsURun(classify, steps + more[..k])
    ensures FreeAt(UAfter(classify, steps + more[..k]), ReporterWants(UAfter(classify, steps)))
  {
    var u := UAfter(classify, steps);
    UInvAlways(classify, steps);
    SomeoneCanStep(u);
    var i := u.reporter.panel;
    assert u.owners[i] == Reader;
    var j := BatchCompletes(classify, steps, more);
    UInvAlways(classify, steps + more[..j]);
    k := FreedBetween(classify, steps, more[..j], i);
    TakeTake(more, j, k);
  }

  // ----- When nothing is left to do -----

  /** No loop can take a work step. */
  ghost predicate Quiescent(u: UState) {
    forall st :: ReaderWork(st) || ReporterWork(st) ==> !UEnabled(u, st)
  }

  lemma BusyStep(u: UState) returns (st: UStep)
    requires LocksInv(u) && (ReaderBusy(u.reader) || !u.reporter.Sleeping?)
    ensures (ReaderWork(st) || ReporterWork(st)) && UEnabled(u, st)
  {
    SomeoneCanStep(u);
    st := if ReaderBusy(u.reader) && UEnabled(u, ReaderNext(u)) then ReaderNext(u) else ReporterNext(u);
  }

  lemma QuiescentIsDone(u: UState)
    requires LocksInv(u) && Quiescent(u)
    ensures !ReaderBusy(u.reader) && u.reporter.Sleeping?
  {
    if ReaderBusy(u.reader) || !u.reporter.Sleeping? {
      var st := BusyStep(u);
    }
  }

  lemma FreeWhenIdle(u: UState)
    requires LocksInv(u) && BatchInv(u) && !ReaderBusy(u.reader) && u.reporter.Sleeping?
    ensures u.owners == [Free, Free, Free]
    ensures u.reader.Waiting? ==> u.folded == u.taken
  {
    assert forall i | 0 <= i < 3 :: !ReaderHolds(u.reader, i) && !ReporterHolds(u.reporter, i);
  }

  /** A batch in progress is still in progress later, or among the completed ones. */
  lemma {:induction false} BatchIsKept(classify: Classifier, steps: seq<UStep>, more: seq<UStep>)
    requires IsURun(classify, steps + more) && IsURun(classify, steps) && ReaderBusy(UAfter(classify, steps).reader)
    ensures var u0, u := UAfter(classify, steps), UAfter(classify, steps + more);
            SameBatch(u0, u) || Final(u0) <= u.batches
  {
    if more == [] {
      assert steps + more == steps;
    } else {
      var u, st := LastStep(classify, steps, more);
      BatchIsKept(classify, steps, more[..|more| - 1]);
      if ReaderBusy(u.reader) {
        BatchMoves(classify, u, st);
      }
    }
  }

  /** A report in progress is finished with three panels when the reporter sleeps. */
  lemma {:induction false} ReportIsFinished(classify: Classifier, steps: seq<UStep>, more: seq<UStep>)
    requires IsURun(classify, steps + more) && IsURun(classify, steps)
    requires !UAfter(classify, steps).reporter.Sleeping?
    ensures var u := UAfter(classify, steps + more); u.reporter.Sleeping? ==> |u.shown| == 3
  {
    if more == [] {
      assert steps + more == steps;
    } else {
      var u, st := LastStep(classify, steps, more);
      ReportIsFinished(classify, steps, more[..|more| - 1]);
      if !u.reporter.Sleeping? {
        ReportMoves(classify, u, st);
      }
    }
  }

  /** After any steps at all: when neither loop has work to do, the batch that was
      in progress is among the completed ones, the report that was in progress
      has its three panels, and all mutexes are free. */
  lemma {:induction false} WorkCompletes(classify: Classifier, steps: seq<UStep>, more: seq<UStep>)
    requires IsURun(classify, steps + more) && IsURun(classify, steps)
    ensures var u0, u := UAfter(classify, steps), UAfter(classify, steps + more);
            Quiescent(u) ==>
              && !ReaderBusy(u.reader) && u.reporter.Sleeping? && u.owners == [Free, Free, Free]
              && (ReaderBusy(u0.reader) ==> Final(u0) <= u.batches)
              && (!u0.reporter.Sleeping? ==> |u.shown| == 3)
              && (u.reader.Waiting? ==> u.folded == u.taken)
  {
    var u0, u := UAfter(classify, steps), UAfter(classify, steps + more);
    UInvAlways(classify, steps + more);
    if Quiescent(u) {
      QuiescentIsDone(u);
      FreeWhenIdle(u);
      if ReaderBusy(u0.reader) {
        BatchIsKept(classify, steps, more);
      }
      if !u0.reporter.Sleeping? {
        ReportIsFinished(classify, steps, more);
      }
    }
  }
}
