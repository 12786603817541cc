/** The user-space side: the ring reader and the reporter, two loops that share
    three statistics stores under three mutexes (aya-test/src/reader.rs,
    aya-test/src/reporter.rs). Every lock operation, every record of one event
    in one store and every panel is a step of its own. */
module Collector {
  import opened Words
  import opened Probes
  import opened Stats
  import opened Reports

  /** The mutexes, in the order in which the reader takes them. */
  const LAT := 0

  datatype Owner = Free | Reader | Reporter

  /** `Locking(n)` and `Unlocking(n)` hold the first `n` mutexes. */
  datatype ReaderPc =
    | Waiting
    | Collecting
    | Locking(held: nat)
    | Draining
    | RecordingCmd(ev: LatencyEvent)
    | RecordingCli(ev: LatencyEvent)
    | Unlocking(held: nat)

  datatype ReporterPc = Sleeping | Wanting(panel: nat) | Holding(panel: nat) | Printed(panel: nat)

  /** The two loops, the mutexes and stores, and the histories: the events taken
      from the ring, the events folded into all three stores, the completed
      batches, the part of the batch folded so far, the deltas printed, and for
      each panel of the current report the events folded when it was printed. */
  datatype UState = UState(
    reader: ReaderPc, reporter: ReporterPc, owners: seq<Owner>,
    batch: seq<LatencyEvent>, lat: Summary, cmd: CommandView, cli: ClientView,
    taken: seq<LatencyEvent>, folded: seq<LatencyEvent>,
    batches: seq<seq<LatencyEvent>>, part: seq<LatencyEvent>,
    deltas: seq<Delta>, shown: seq<seq<LatencyEvent>>)

  datatype UStep =
    | Wake
    | Take(ev: LatencyEvent)
    | EndCollect
    | Lock
    | RecordLat
    | RecordCmd
    | RecordCli
    | EndBatch
    | Unlock
    | Tick
    | Acquire
    | Show
    | Release

  const UINIT: UState :=
    UState(Waiting, Sleeping, [Free, Free, Free], [], EMPTY, map[], map[], [], [], [], [], [], [])

  ghost predicate UEnabled(u: UState, st: UStep) {
    |u.owners| == 3 &&
    match st
    case Wake => u.reader.Waiting?
    case Take(_) => u.reader.Collecting?
    case EndCollect => u.reader.Collecting?
    case Lock => u.reader.Locking? && u.reader.held < 3 && u.owners[u.reader.held] == Free
    case RecordLat => u.reader.Draining? && u.batch != []
    case RecordCmd => u.reader.RecordingCmd?
    case RecordCli => u.reader.RecordingCli?
    case EndBatch => u.reader.Draining? && u.batch == []
    case Unlock => u.reader.Unlocking? && 0 < u.reader.held <= 3
    case Tick => u.reporter.Sleeping?
    case Acquire => u.reporter.Wanting? && u.reporter.panel < 3 && u.owners[u.reporter.panel] == Free
    case Show => u.reporter.Holding?
    case Release => u.reporter.Printed? && u.reporter.panel < 3
  }

  function UApply(classify: Classifier, u: UState, st: UStep): UState
    requires UEnabled(u, st)
  {
    match st
    case Wake => u.(reader := Collecting)
    case Take(ev) => u.(batch := u.batch + [ev], taken := u.taken + [ev])
    case EndCollect => u.(reader := if u.batch == [] then Waiting else Locking(0))
    case Lock =>
      var n := u.reader.held;
      u.(owners := u.owners[n := Reader], reader := if n == 2 then Draining else Locking(n + 1))
    case RecordLat =>
      var ev := u.batch[0];
      u.(batch := u.batch[1..], lat := Recorded(u.lat, ev.latencyNs, ev.bytes), reader := RecordingCmd(ev))
    case RecordCmd =>
      var ev := u.reader.ev;
      u.(cmd := CommandRecorded(u.cmd, classify(ev), ev.latencyNs, ev.bytes), reader := RecordingCli(ev))
    case RecordCli =>
      var ev := u.reader.ev;
      u.(cli := ClientFolded(u.cli, ev), reader := Draining,
         folded := u.folded + [ev], part := u.part + [ev])
    case EndBatch =>
      u.(reader := Unlocking(3), batches := u.batches + [u.part], part := [])
    case Unlock =>
      var n := u.reader.held - 1;
      u.(owners := u.owners[n := Free], reader := if n == 0 then Waiting else Unlocking(n))
    case Tick => u.(reporter := Wanting(0), shown := [])
    case Acquire =>
      u.(owners := u.owners[u.reporter.panel := Reporter], reporter := Holding(u.reporter.panel))
    case Show =>
      var u' := u.(reporter := Printed(u.reporter.panel), shown := u.shown + [u.folded]);
      var d := DeltaOf(u.lat);
      if u.reporter.panel == LAT
      then u'.(lat := Reported(u.lat), deltas := u.deltas + (if d.Some? then [d.value] else []))
      else u'
    case Release =>
      var i := u.reporter.panel;
      u.(owners := u.owners[i := Free], reporter := if i == 2 then Sleeping else Wanting(i + 1))
  }

  ghost predicate IsURun(classify: Classifier, steps: seq<UStep>)
    decreases |steps|, 0
  {
    steps == [] ||
    var n := |steps| - 1;
    IsURun(classify, steps[..n]) && UEnabled(UAfter(classify, steps[..n]), steps[n])
  }

  ghost function UAfter(classify: Classifier, steps: seq<UStep>): UState
    requires IsURun(classify, steps)
    decreases |steps|, 1
  {
    if steps == [] then UINIT
    else UApply(classify, UAfter(classify, steps[..|steps| - 1]), steps[|steps| - 1])
  }

  lemma URunExtends(classify: Classifier, us: seq<UStep>, st: UStep)
    requires IsURun(classify, us) && UEnabled(UAfter(classify, us), st)
    ensures IsURun(classify, us + [st])
    ensures UAfter(classify, us + [st]) == UApply(classify, UAfter(classify, us), st)
  {
    assert (us + [st])[..|us|] == us;
  }

  // ----- Who holds what -----

  predicate ReaderHolds(pc: ReaderPc, i: nat) {
    match pc
    case Locking(n) => i < n
    case Unlocking(n) => i < n
    case Draining => true
    case RecordingCmd(_) => true
    case RecordingCli(_) => true
    case _ => false
  }

  predicate ReporterHolds(pc: ReporterPc, i: nat) {
    (pc.Holding? || pc.Printed?) && pc.panel == i
  }

  ghost predicate LocksInv(u: UState) {
    && |u.owners| == 3
    && (u.reader.Locking? ==> u.reader.held < 3)
    && (u.reader.Unlocking? ==> 0 < u.reader.held <= 3)
    && (!u.reporter.Sleeping? ==> u.reporter.panel < 3)
    && forall i | 0 <= i < 3 ::
         && (u.owners[i] == Reader <==> ReaderHolds(u.reader, i))
         && (u.owners[i] == Reporter <==> ReporterHolds(u.reporter, i))
  }

  lemma LocksStep(classify: Classifier, u: UState, st: UStep)
    requires LocksInv(u) && UEnabled(u, st)
    ensures LocksInv(UApply(classify, u, st))
  {
  }

  // ----- What the stores hold -----

  /** Events recorded in the latency store but not yet in all three. */
  function Current(pc: ReaderPc): seq<LatencyEvent> {
    match pc
    case RecordingCmd(ev) => [ev]
    case RecordingCli(ev) => [ev]
    case _ => []
  }

  function CurrentCmd(pc: ReaderPc): seq<LatencyEvent> {
    match pc case RecordingCli(ev) => [ev] case _ => []
  }

  /** A store without its report marks. */
  function Unmarked(s: Summary): Summary {
    s.(prevTotal := 0, prevBytes := 0)
  }

  /** Three stores are those of one history. */
  ghost predicate ValuesHold(classify: Classifier, lat: Summary, cmd: CommandView, cli: ClientView,
                             h: seq<LatencyEvent>) {
    Unmarked(lat) == FoldLat(h) && cmd == FoldCmd(h, classify) && cli == FoldCli(h)
  }

  /** The three stores are those of the given histories, which differ by the
      event being recorded. */
  ghost predicate Hold(classify: Classifier, u: UState,
                       latH: seq<LatencyEvent>, cmdH: seq<LatencyEvent>, cliH: seq<LatencyEvent>) {
    && Unmarked(u.lat) == FoldLat(latH)
    && u.cmd == FoldCmd(cmdH, classify)
    && u.cli == FoldCli(cliH)
  }

  ghost predicate StoresInv(classify: Classifier, u: UState) {
    Hold(classify, u, u.folded + Current(u.reader), u.folded + CurrentCmd(u.reader), u.folded)
  }

  function Flatten(parts: seq<seq<LatencyEvent>>): seq<LatencyEvent> {
    if parts == [] then [] else Flatten(parts[..|parts| - 1]) + parts[|parts| - 1]
  }

  predicate InBatch(pc: ReaderPc) {
    pc.Draining? || pc.RecordingCmd? || pc.RecordingCli?
  }

  ghost predicate BatchInv(u: UState) {
    && u.taken == u.folded + Current(u.reader) + u.batch
    && u.folded == Flatten(u.batches) + u.part
    && (!InBatch(u.reader) ==> u.part == [])
    && (u.reader.Waiting? || u.reader.Unlocking? ==> u.batch == [])
  }

  lemma UnmarkedRecorded(s: Summary, latencyNs: u64, bytes: u64)
    ensures Unmarked(Recorded(s, latencyNs, bytes)) == Recorded(Unmarked(s), latencyNs, bytes)
    ensures Unmarked(Reported(s)) == Unmarked(s)
  {
  }

  lemma HoldLat(classify: Classifier, u: UState, h: seq<LatencyEvent>)
    requires Hold(classify, u, h, h, h) && UEnabled(u, RecordLat)
    ensures Hold(classify, UApply(classify, u, RecordLat), h + [u.batch[0]], h, h)
  {
    FoldLatAppend(h, u.batch[0]);
    UnmarkedRecorded(u.lat, u.batch[0].latencyNs, u.batch[0].bytes);
  }

  lemma HoldCmd(classify: Classifier, u: UState, h: seq<LatencyEvent>)
    requires UEnabled(u, RecordCmd) && Hold(classify, u, h + [u.reader.ev], h, h)
    ensures Hold(classify, UApply(classify, u, RecordCmd), h + [u.reader.ev], h + [u.reader.ev], h)
  {
    FoldCmdAppend(h, u.reader.ev, classify);
  }

  lemma HoldCli(classify: Classifier, u: UState, h: seq<LatencyEvent>)
    requires UEnabled(u, RecordCli) && Hold(classify, u, h + [u.reader.ev], h + [u.reader.ev], h)
    ensures var h' := h + [u.reader.ev]; Hold(classify, UApply(classify, u, RecordCli), h', h', h')
  {
    FoldCliAppend(h, u.reader.ev);
  }

  lemma StoresFrame(classify: Classifier, u: UState, st: UStep)
    requires UEnabled(u, st) && !st.RecordLat? && !st.RecordCmd? && !st.RecordCli?
    ensures var u' := UApply(classify, u, st);
            && Unmarked(u'.lat) == Unmarked(u.lat) && u'.cmd == u.cmd && u'.cli == u.cli
            && u'.folded == u.folded
            && Current(u'.reader) == Current(u.reader) && CurrentCmd(u'.reader) == CurrentCmd(u.reader)
  {
    UnmarkedRecorded(u.lat, 0, 0);
  }

  /** Which histories the stores stand for before and after recording. */
  lemma HistoriesRecord(classify: Classifier, u: UState, st: UStep)
    requires UEnabled(u, st) && (st.RecordLat? || st.RecordCmd? || st.RecordCli?)
    ensures var u', f := UApply(classify, u, st), u.folded;
            var e := if st.RecordLat? then u.batch[0] else u.reader.ev;
            && f + Current(u.reader) == (if st.RecordLat? then f else f + [e])
            && f + CurrentCmd(u.reader) == (if st.RecordCli? then f + [e] else f)
            && u'.folded + Current(u'.reader) == f + [e]
            && u'.folded + CurrentCmd(u'.reader) == (if st.RecordLat? then f else f + [e])
            && u'.folded == (if st.RecordCli? then f + [e] else f)
  {
  }

  lemma {:induction false} StoresRecord(classify: Classifier, u: UState, st: UStep)
    requires StoresInv(classify, u) && UEnabled(u, st)
    requires st.RecordLat? || st.RecordCmd? || st.RecordCli?
    ensures StoresInv(classify, UApply(classify, u, st))
  {
    HistoriesRecord(classify, u, st);
    match st
    case RecordLat => HoldLat(classify, u, u.folded);
    case RecordCmd => HoldCmd(classify, u, u.folded);
    case RecordCli => HoldCli(classify, u, u.folded);
  }

  lemma {:induction false} StoresStep(classify: Classifier, u: UState, st: UStep)
    requires StoresInv(classify, u) && UEnabled(u, st)
    ensures StoresInv(classify, UApply(classify, u, st))
  {
    if st.RecordLat? || st.RecordCmd? || st.RecordCli? {
      StoresRecord(classify, u, st);
    } else {
      StoresFrame(classify, u, st);
    }
  }

  lemma Regroup(f: seq<LatencyEvent>, batch: seq<LatencyEvent>, e: LatencyEvent)
    ensures f + [] + batch == f + batch
    ensures f + [e] + [] + batch == f + [e] + batch
    ensures batch != [] ==> f + batch == f + [batch[0]] + batch[1..]
    ensures f + (batch + [e]) == f + batch + [e]
  {
  }

  lemma BatchRecord(classify: Classifier, u: UState, st: UStep)
    requires BatchInv(u) && UEnabled(u, st)
    requires st.RecordLat? || st.RecordCmd? || st.RecordCli?
    ensures BatchInv(UApply(classify, u, st))
  {
    Regroup(u.folded, u.batch, if st.RecordLat? then u.batch[0] else u.reader.ev);
    if st.RecordCli? {
      assert Flatten(u.batches) + u.part + [u.reader.ev] == Flatten(u.batches) + (u.part + [u.reader.ev]);
    }
  }

  lemma BatchTake(classify: Classifier, u: UState, ev: LatencyEvent)
    requires BatchInv(u) && UEnabled(u, Take(ev))
    ensures BatchInv(UApply(classify, u, Take(ev)))
  {
    Regroup(u.folded, u.batch, ev);
  }

  lemma BatchEnd(classify: Classifier, u: UState)
    requires BatchInv(u) && UEnabled(u, EndBatch)
    ensures BatchInv(UApply(classify, u, EndBatch))
  {
    assert (u.batches + [u.part])[..|u.batches|] == u.batches;
    assert Flatten(u.batches) + u.part + [] == Flatten(u.batches) + u.part;
  }

  lemma BatchStep(classify: Classifier, u: UState, st: UStep)
    requires BatchInv(u) && UEnabled(u, st)
    ensures BatchInv(UApply(classify, u, st))
  {
    match st
    case RecordLat => BatchRecord(classify, u, st);
    case RecordCmd => BatchRecord(classify, u, st);
    case RecordCli => BatchRecord(classify, u, st);
    case Take(ev) => BatchTake(classify, u, ev);
    case EndBatch => BatchEnd(classify, u);
    case _ =>
  }

  /** Panels of one report are printed in order over a growing history. */
  ghost predicate ShownInv(u: UState) {
    && |u.shown| == (match u.reporter
                     case Sleeping => if u.shown == [] then 0 else 3
                     case Wanting(i) => i
                     case Holding(i) => i
                     case Printed(i) => i + 1)
    && (forall i, j | 0 <= i <= j < |u.shown| :: u.shown[i] <= u.shown[j])
    && (forall i | 0 <= i < |u.shown| :: u.shown[i] <= u.folded)
  }

  lemma ShownStep(classify: Classifier, u: UState, st: UStep)
    requires ShownInv(u) && UEnabled(u, st)
    ensures ShownInv(UApply(classify, u, st))
  {
  }

  /** While the true totals fit in 64 bits, the printed deltas telescope. */
  ghost predicate DeltasInv(u: UState) {
    |u.taken| < TWO64 && Weight(u.taken, Bytes) < TWO64 ==> Telescoped(u.lat, u.deltas)
  }

  lemma {:induction false} WeightSplit(a: seq<LatencyEvent>, b: seq<LatencyEvent>, w: LatencyEvent -> nat)
    ensures Weight(a + b, w) == Weight(a, w) + Weight(b, w)
  {
    if b == [] {
      assert a + b == a;
    } else {
      assert a + b == a + b[..|b| - 1] + [b[|b| - 1]];
      WeightAppend(a + b[..|b| - 1], b[|b| - 1], w);
      WeightSplit(a, b[..|b| - 1], w);
    }
  }

  /** The totals of a prefix of a history that fits do not wrap, nor do they
      when the next event is added. */
  lemma NoWrap(f: seq<LatencyEvent>, e: LatencyEvent, rest: seq<LatencyEvent>)
    requires |f + [e] + rest| < TWO64 && Weight(f + [e] + rest, Bytes) < TWO64
    ensures FoldLat(f).total + 1 < TWO64 && FoldLat(f).totalBytes + e.bytes < TWO64
  {
    WeightSplit(f + [e], rest, Bytes);
    WeightAppend(f, e, Bytes);
    FoldLatCounts(f);
    FoldLatBytes(f);
  }

  lemma RecordTelescopes(s: Summary, deltas: seq<Delta>, latencyNs: u64, bytes: u64)
    requires Telescoped(s, deltas) && s.total + 1 < TWO64 && s.totalBytes + bytes < TWO64
    ensures Telescoped(Recorded(s, latencyNs, bytes), deltas)
  {
  }

  lemma DeltasRecord(classify: Classifier, u: UState)
    requires StoresInv(classify, u) && BatchInv(u) && DeltasInv(u) && UEnabled(u, RecordLat)
    ensures DeltasInv(UApply(classify, u, RecordLat))
  {
    if |u.taken| < TWO64 && Weight(u.taken, Bytes) < TWO64 {
      Regroup(u.folded, u.batch, u.batch[0]);
      NoWrap(u.folded, u.batch[0], u.batch[1..]);
      assert u.folded + [] == u.folded;
      RecordTelescopes(u.lat, u.deltas, u.batch[0].latencyNs, u.batch[0].bytes);
    }
  }

  lemma DeltasFrame(classify: Classifier, u: UState, st: UStep)
    requires UEnabled(u, st) && !st.Take? && !st.RecordLat? && !st.Show?
    ensures var u' := UApply(classify, u, st);
            u'.taken == u.taken && u'.lat == u.lat && u'.deltas == u.deltas
  {
  }

  lemma DeltasShow(classify: Classifier, u: UState)
    requires DeltasInv(u) && UEnabled(u, Show)
    ensures DeltasInv(UApply(classify, u, Show))
  {
    assert u.deltas + [] == u.deltas;
    if Telescoped(u.lat, u.deltas) {
      ReportTelescopes(u.lat, u.deltas);
    }
  }

  lemma DeltasStep(classify: Classifier, u: UState, st: UStep)
    requires StoresInv(classify, u) && BatchInv(u) && DeltasInv(u) && UEnabled(u, st)
    ensures DeltasInv(UApply(classify, u, st))
  {
    if st.RecordLat? {
      DeltasRecord(classify, u);
    } else if st.Show? {
      DeltasShow(classify, u);
    } else if st.Take? {
      WeightAppend(u.taken, st.ev, Bytes);
    } else {
      DeltasFrame(classify, u, st);
    }
  }

  ghost predicate UInv(classify: Classifier, u: UState) {
    LocksInv(u) && StoresInv(classify, u) && BatchInv(u) && ShownInv(u) && DeltasInv(u)
  }

  lemma {:induction false} UInvAlways(classify: Classifier, steps: seq<UStep>)
    requires IsURun(classify, steps)
    ensures UInv(classify, UAfter(classify, steps))
  {
    if steps == [] {
      assert UINIT.folded + [] == [];
    } else {
      var n := |steps| - 1;
      UInvAlways(classify, steps[..n]);
      var u, st := UAfter(classify, steps[..n]), steps[n];
      LocksStep(classify, u, st);
      StoresStep(classify, u, st);
      BatchStep(classify, u, st);
      ShownStep(classify, u, st);
      DeltasStep(classify, u, st);
    }
  }

  // ----- Snapshot consistency -----

  lemma ReporterSeesBatches(classify: Classifier, u: UState)
    requires LocksInv(u) && StoresInv(classify, u) && BatchInv(u)
    requires u.reporter.Holding? || u.reporter.Printed?
    ensures !InBatch(u.reader) && u.folded == Flatten(u.batches)
    ensures ValuesHold(classify, u.lat, u.cmd, u.cli, u.folded)
  {
    assert u.owners[u.reporter.panel] == Reporter;
    assert !ReaderHolds(u.reader, u.reporter.panel);
    assert u.folded + [] == u.folded && Flatten(u.batches) + [] == Flatten(u.batches);
  }

  /** Whenever the reporter holds a mutex, all three stores are those of one
      history, and that history is a number of whole batches. */
  lemma {:induction false} SnapshotAtBatchBoundary(classify: Classifier, steps: seq<UStep>)
    requires IsURun(classify, steps)
    requires UAfter(classify, steps).reporter.Holding? || UAfter(classify, steps).reporter.Printed?
    ensures var u := UAfter(classify, steps);
            && u.folded == Flatten(u.batches)
            && ValuesHold(classify, u.lat, u.cmd, u.cli, u.folded)
  {
    UInvAlways(classify, steps);
    ReporterSeesBatches(classify, UAfter(classify, steps));
  }

  /** After the first panel of a report, while the totals fit: the marks are the
      totals of the events folded when it was printed. */
  ghost predicate MarksInv(u: UState) {
    |u.taken| < TWO64 && Weight(u.taken, Bytes) < TWO64 && u.shown != [] ==>
      u.lat.prevTotal == |u.shown[0]| && u.lat.prevBytes == Weight(u.shown[0], Bytes)
  }

  /** A first part of a history that fits has the totals that a store of it shows. */
  lemma PartTotals(s: Summary, f: seq<LatencyEvent>, rest: seq<LatencyEvent>)
    requires |f + rest| < TWO64 && Weight(f + rest, Bytes) < TWO64 && Unmarked(s) == FoldLat(f)
    ensures s.total == |f| && s.totalBytes == Weight(f, Bytes)
  {
    WeightSplit(f, rest, Bytes);
    FoldLatExact(f);
  }

  lemma AtReport(classify: Classifier, u: UState)
    requires UInv(classify, u) && u.reporter.Holding?
    ensures u.taken == u.folded + u.batch && Unmarked(u.lat) == FoldLat(u.folded)
  {
    ReporterSeesBatches(classify, u);
    assert u.folded + [] == u.folded;
  }

  lemma ReportMarks(s: Summary, deltas: seq<Delta>)
    requires Telescoped(s, deltas) && (s.total == 0 ==> s.totalBytes == 0)
    ensures Reported(s).prevTotal == s.total && Reported(s).prevBytes == s.totalBytes
  {
  }

  lemma MarksShow(classify: Classifier, u: UState)
    requires UInv(classify, u) && UEnabled(u, Show) && u.reporter.panel == 0
    ensures MarksInv(UApply(classify, u, Show))
  {
    if |u.taken| < TWO64 && Weight(u.taken, Bytes) < TWO64 {
      AtReport(classify, u);
      PartTotals(u.lat, u.folded, u.batch);
      assert u.folded == [] ==> Weight(u.folded, Bytes) == 0;
      ReportMarks(u.lat, u.deltas);
    }
  }

  lemma MarksFrame(classify: Classifier, u: UState, st: UStep)
    requires ShownInv(u) && UEnabled(u, st) && !st.Tick? && !(st.Show? && u.reporter.panel == 0)
    ensures var u' := UApply(classify, u, st);
            && u'.lat.prevTotal == u.lat.prevTotal && u'.lat.prevBytes == u.lat.prevBytes
            && u'.taken == (if st.Take? then u.taken + [st.ev] else u.taken)
            && (u'.shown != [] ==> u.shown != [] && u'.shown[0] == u.shown[0])
  {
  }

  lemma {:induction false} MarksAlways(classify: Classifier, steps: seq<UStep>)
    requires IsURun(classify, steps)
    ensures MarksInv(UAfter(classify, steps))
  {
    if steps != [] {
      var n := |steps| - 1;
      var u, st := UAfter(classify, steps[..n]), steps[n];
      MarksAlways(classify, steps[..n]);
      UInvAlways(classify, steps[..n]);
      if st.Show? && u.reporter.panel == 0 {
        MarksShow(classify, u);
      } else if !st.Tick? {
        MarksFrame(classify, u, st);
        if st.Take? {
          WeightAppend(u.taken, st.ev, Bytes);
        }
      }
    }
  }

  /** A reader that wants or holds mutexes has events in hand, and so has every
      completed batch. */
  ghost predicate NoEmptyBatch(u: UState) {
    && (forall i | 0 <= i < |u.batches| :: u.batches[i] != [])
    && (u.reader.Locking? || InBatch(u.reader) ==> |u.part| + |Current(u.reader)| + |u.batch| > 0)
  }

  lemma NoEmptyStep(classify: Classifier, u: UState, st: UStep)
    requires NoEmptyBatch(u) && UEnabled(u, st)
    ensures NoEmptyBatch(UApply(classify, u, st))
  {
    var u' := UApply(classify, u, st);
    assert u'.batches == if st.EndBatch? then u.batches + [u.part] else u.batches;
  }

  lemma {:induction false} BatchesHaveEvents(classify: Classifier, steps: seq<UStep>)
    requires IsURun(classify, steps)
    ensures NoEmptyBatch(UAfter(classify, steps))
  {
    if steps != [] {
      BatchesHaveEvents(classify, steps[..|steps| - 1]);
      NoEmptyStep(classify, UAfter(classify, steps[..|steps| - 1]), steps[|steps| - 1]);
    }
  }

  /** Within one report, a later panel never reflects fewer events than an
      earlier one. */
  lemma PanelsNeverShrink(classify: Classifier, steps: seq<UStep>, i: nat, j: nat)
    requires IsURun(classify, steps) && i <= j < |UAfter(classify, steps).shown|
    ensures var u := UAfter(classify, steps);
            u.shown[i] <= u.shown[j] <= u.folded
  {
    UInvAlways(classify, steps);
  }

  // ----- Deadlock freedom and completion -----

  predicate ReaderWork(st: UStep) {
    st.Lock? || st.RecordLat? || st.RecordCmd? || st.RecordCli? || st.EndBatch? || st.Unlock?
  }

  predicate ReporterWork(st: UStep) {
    st.Acquire? || st.Show? || st.Release?
  }

  predicate ReaderBusy(pc: ReaderPc) {
    pc.Locking? || InBatch(pc) || pc.Unlocking?
  }

  /** The one step with which a busy reader continues. */
  function ReaderNext(u: UState): UStep
    requires ReaderBusy(u.reader)
  {
    match u.reader
    case Locking(_) => Lock
    case Draining => if u.batch == [] then EndBatch else RecordLat
    case RecordingCmd(_) => RecordCmd
    case RecordingCli(_) => RecordCli
    case _ => Unlock
  }

  function ReporterNext(u: UState): UStep
    requires !u.reporter.Sleeping?
  {
    match u.reporter
    case Wanting(_) => Acquire
    case Holding(_) => Show
    case _ => Release
  }

  lemma SomeoneCanStep(u: UState)
    requires LocksInv(u)
    ensures ReaderBusy(u.reader) && !UEnabled(u, ReaderNext(u)) ==>
              !u.reporter.Sleeping? && UEnabled(u, ReporterNext(u))
    ensures !u.reporter.Sleeping? && !UEnabled(u, ReporterNext(u)) ==>
              ReaderBusy(u.reader) && UEnabled(u, ReaderNext(u))
  {
    if ReaderBusy(u.reader) && !UEnabled(u, ReaderNext(u)) {
      assert u.owners[u.reader.held] == Reporter;
    }
    if !u.reporter.Sleeping? && !UEnabled(u, ReporterNext(u)) {
      assert u.owners[u.reporter.panel] == Reader;
    }
  }

  /** Neither loop can wait for the other for ever: if the reader is blocked,
      the reporter can step, and if the reporter is blocked, the reader can. */
  lemma DeadlockFree(classify: Classifier, steps: seq<UStep>)
    requires IsURun(classify, steps)
    ensures var u := UAfter(classify, steps);
            && (ReaderBusy(u.reader) && !UEnabled(u, ReaderNext(u)) ==>
                  !u.reporter.Sleeping? && UEnabled(u, ReporterNext(u)))
            && (!u.reporter.Sleeping? && !UEnabled(u, ReporterNext(u)) ==>
                  ReaderBusy(u.reader) && UEnabled(u, ReaderNext(u)))
  {
    UInvAlways(classify, steps);
    SomeoneCanStep(UAfter(classify, steps));
  }
}
