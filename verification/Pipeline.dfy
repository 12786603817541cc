/** The whole pipeline: probes, ring, reader, stores and reporter. */
module Pipeline {
  import opened Acting
  import opened Words
  import opened Probes
  import opened Interleaving
  import opened Stories
  import opened Pairing
  import opened Outputs
  import opened Stats
  import opened Sums
  import opened Reports
  import opened Collector

  datatype Sys = Sys(k: KState, u: UState)

  /** A probe step, a reader or reporter step, or the reader's taking of the
      oldest record out of the ring. */
  datatype SysStep = Kernel(ks: KStep) | User(us: UStep) | Transfer

  /** The reader stops collecting only when the ring is empty. */
  ghost predicate SysEnabled(cfg: Config, s: Sys, st: SysStep) {
    match st
    case Kernel(ks) => !ks.Consume? && Enabled(cfg, s.k, ks)
    case User(us) => !us.Take? && UEnabled(s.u, us) && (us.EndCollect? ==> s.k.ring == [])
    case Transfer => s.k.ring != [] && UEnabled(s.u, Take(s.k.ring[0]))
  }

  function SysApply(cfg: Config, classify: Classifier, s: Sys, st: SysStep): Sys
    requires SysEnabled(cfg, s, st)
  {
    match st
    case Kernel(ks) => s.(k := Apply(cfg, s.k, ks))
    case User(us) => s.(u := UApply(classify, s.u, us))
    case Transfer => Sys(Apply(cfg, s.k, Consume), UApply(classify, s.u, Take(s.k.ring[0])))
  }

  ghost predicate IsSysRun(cfg: Config, classify: Classifier, steps: seq<SysStep>)
    decreases |steps|, 0
  {
    steps == [] ||
    var n := |steps| - 1;
    IsSysRun(cfg, classify, steps[..n]) && SysEnabled(cfg, SysAfter(cfg, classify, steps[..n]), steps[n])
  }

  ghost function SysAfter(cfg: Config, classify: Classifier, steps: seq<SysStep>): Sys
    requires IsSysRun(cfg, classify, steps)
    decreases |steps|, 1
  {
    if steps == [] then Sys(KInit(cfg), UINIT)
    else SysApply(cfg, classify, SysAfter(cfg, classify, steps[..|steps| - 1]), steps[|steps| - 1])
  }

  // ----- The two halves of a run -----

  function KPart(st: SysStep): seq<KStep> {
    match st
    case Kernel(ks) => [ks]
    case User(_) => []
    case Transfer => [Consume]
  }

  function KSteps(steps: seq<SysStep>): seq<KStep> {
    if steps == [] then [] else KSteps(steps[..|steps| - 1]) + KPart(steps[|steps| - 1])
  }

  ghost function UPart(s: Sys, st: SysStep): seq<UStep> {
    match st
    case Kernel(_) => []
    case User(us) => [us]
    case Transfer => if s.k.ring == [] then [] else [Take(s.k.ring[0])]
  }

  ghost function USteps(cfg: Config, classify: Classifier, steps: seq<SysStep>): seq<UStep>
    requires IsSysRun(cfg, classify, steps)
  {
    if steps == [] then []
    else
      var n := |steps| - 1;
      USteps(cfg, classify, steps[..n]) + UPart(SysAfter(cfg, classify, steps[..n]), steps[n])
  }

  lemma {:induction false} KernelHalf(cfg: Config, classify: Classifier, steps: seq<SysStep>)
    requires IsSysRun(cfg, classify, steps)
    ensures IsRun(cfg, KSteps(steps)) && After(cfg, KSteps(steps)) == SysAfter(cfg, classify, steps).k
  {
    if steps != [] {
      var n := |steps| - 1;
      KernelHalf(cfg, classify, steps[..n]);
      if KPart(steps[n]) == [] {
        assert KSteps(steps) == KSteps(steps[..n]);
      } else {
        RunExtends(cfg, KSteps(steps[..n]), KPart(steps[n])[0]);
      }
    }
  }

  lemma {:induction false} UserHalf(cfg: Config, classify: Classifier, steps: seq<SysStep>)
    requires IsSysRun(cfg, classify, steps)
    ensures IsURun(classify, USteps(cfg, classify, steps))
    ensures UAfter(classify, USteps(cfg, classify, steps)) == SysAfter(cfg, classify, steps).u
  {
    if steps != [] {
      var n := |steps| - 1;
      UserHalf(cfg, classify, steps[..n]);
      var part := UPart(SysAfter(cfg, classify, steps[..n]), steps[n]);
      if part == [] {
        assert USteps(cfg, classify, steps) == USteps(cfg, classify, steps[..n]);
      } else {
        URunExtends(classify, USteps(cfg, classify, steps[..n]), part[0]);
      }
    }
  }

  // ----- Conservation and order -----

  ghost predicate Handover(s: Sys) {
    s.u.taken + s.k.ring == Sent(s.k.attempts)
  }

  lemma HandoverKernel(cfg: Config, s: Sys, ks: KStep)
    requires Enabled(cfg, s.k, ks) && !ks.Consume? && Handover(s)
    ensures Handover(s.(k := Apply(cfg, s.k, ks)))
  {
    if ks.Output? {
      var pc := PcOf(s.k, ks.t);
      SentAppend(s.k.attempts, Attempt(pc.ev, pc.cpu, pc.forced, !ks.full));
      assert s.u.taken + (s.k.ring + [pc.ev]) == s.u.taken + s.k.ring + [pc.ev];
    }
  }

  lemma {:induction false} HandoverAlways(cfg: Config, classify: Classifier, steps: seq<SysStep>)
    requires IsSysRun(cfg, classify, steps)
    ensures Handover(SysAfter(cfg, classify, steps))
  {
    if steps != [] {
      var n := |steps| - 1;
      HandoverAlways(cfg, classify, steps[..n]);
      var s := SysAfter(cfg, classify, steps[..n]);
      match steps[n]
      case Kernel(ks) => HandoverKernel(cfg, s, ks);
      case User(us) => assert UApply(classify, s.u, us).taken == s.u.taken;
      case Transfer =>
        assert s.u.taken + s.k.ring == s.u.taken + [s.k.ring[0]] + s.k.ring[1..];
    }
  }

  /** In every reachable state of the pipeline: the events folded into the
      stores, then the one being recorded, then the batch, then the ring are
      exactly the accepted outputs in order; and every context that a sendmsg
      exit found is late, refused, in the finder's hands, or one of these. */
  lemma ConservationAndOrder(cfg: Config, classify: Classifier, steps: seq<SysStep>)
    requires IsSysRun(cfg, classify, steps)
    ensures var s := SysAfter(cfg, classify, steps);
            && s.u.folded + Current(s.u.reader) + s.u.batch + s.k.ring == Sent(s.k.attempts)
            && s.k.found == s.k.late + Refused(s.k.attempts) + |Holders(s.k.pcs)|
                            + |s.k.ring| + |s.u.batch| + |Current(s.u.reader)| + |s.u.folded|
  {
    KernelHalf(cfg, classify, steps);
    UserHalf(cfg, classify, steps);
    HandoverAlways(cfg, classify, steps);
    Conservation(cfg, KSteps(steps));
    UInvAlways(classify, USteps(cfg, classify, steps));
  }

  lemma FirstOfThree<T>(a: seq<T>, b: seq<T>, c: seq<T>, all: seq<T>)
    requires a + b + c == all
    ensures a <= all
  {
    assert all == a + (b + c);
  }

  /** While no two acting threads share a key, the events in the stores, each by
      its place in the folded history, have requests of their own: no entry is
      folded twice, and each event reports the steps of its request. */
  lemma {:induction false} FoldedPaired(cfg: Config, classify: Classifier, steps: seq<SysStep>)
    returns (f: seq<Pair>, g: seq<Places>)
    requires IsSysRun(cfg, classify, steps) && OneThreadPerKey(ActingOnly(cfg, KSteps(steps)))
    ensures IsRun(cfg, KSteps(steps))
    ensures var ls, u := Linearize(cfg, KSteps(steps)), SysAfter(cfg, classify, steps).u;
            var recorded := u.folded + Current(u.reader);
            Matching(ls, recorded, f) && TrueTimes(ls, recorded, f) && StepMatching(cfg, KSteps(steps), recorded, g)
  {
    var s := SysAfter(cfg, classify, steps);
    KernelHalf(cfg, classify, steps);
    ConservationAndOrder(cfg, classify, steps);
    var recorded := s.u.folded + Current(s.u.reader);
    FirstOfThree(recorded, s.u.batch, s.k.ring, Sent(s.k.attempts));
    f, g := ActorsSent(cfg, KSteps(steps), recorded);
  }

  // ----- The bytes that the exits returned -----

  ghost predicate ExitsAt(ks: seq<KStep>, g: seq<Places>) {
    forall m | 0 <= m < |g| :: g[m].exit < |ks| && ks[g[m].exit].SendBegin?
  }

  function NotNegative(retval: i64): nat {
    if retval < 0 then 0 else retval
  }

  /** What the exits at these places returned, added up; an error counts nothing. */
  ghost function Returned(ks: seq<KStep>, g: seq<Places>): nat
    requires ExitsAt(ks, g)
  {
    if g == [] then 0
    else Returned(ks, g[..|g| - 1]) + NotNegative(ks[g[|g| - 1].exit].retval)
  }

  /** No exit returned more than fits in the 32 bits of an event. */
  ghost predicate ReturnsFit(ks: seq<KStep>) {
    forall i | 0 <= i < |ks| && ks[i].SendBegin? :: ks[i].retval < 0x1_0000_0000
  }

  ghost predicate BytesAt(ks: seq<KStep>, e: LatencyEvent, p: Places) {
    p.exit < |ks| && ks[p.exit].SendBegin? && e.bytes == NotNegative(ks[p.exit].retval)
  }

  lemma ReportedBytes(cfg: Config, ks: seq<KStep>, e: LatencyEvent, p: Places)
    requires ReportsSteps(cfg, ks, e, p) && ReturnsFit(ks)
    ensures BytesAt(ks, e, p)
  {
  }

  lemma {:induction false} BytesAddUp(ks: seq<KStep>, es: seq<LatencyEvent>, g: seq<Places>)
    requires |es| == |g| && forall m | 0 <= m < |es| :: BytesAt(ks, es[m], g[m])
    ensures ExitsAt(ks, g) && Weight(es, Bytes) == Returned(ks, g)
  {
    if es != [] {
      BytesAddUp(ks, es[..|es| - 1], g[..|es| - 1]);
    }
  }

  lemma BytesAreReturned(cfg: Config, ks: seq<KStep>, es: seq<LatencyEvent>, g: seq<Places>)
    requires StepMatching(cfg, ks, es, g) && ReturnsFit(ks)
    ensures ExitsAt(ks, g) && Weight(es, Bytes) == Returned(ks, g)
  {
    forall m | 0 <= m < |es| ensures BytesAt(ks, es[m], g[m]) {
      ReportedBytes(cfg, ks, es[m], g[m]);
    }
    BytesAddUp(ks, es, g);
  }

  lemma RecordedSteps(cfg: Config, classify: Classifier, steps: seq<SysStep>) returns (g: seq<Places>)
    requires IsSysRun(cfg, classify, steps) && OneThreadPerKey(ActingOnly(cfg, KSteps(steps)))
    ensures var u := SysAfter(cfg, classify, steps).u;
            StepMatching(cfg, KSteps(steps), u.folded + Current(u.reader), g)
  {
    var f;
    f, g := FoldedPaired(cfg, classify, steps);
  }

  /** The bytes in the stores are those that the exits of the recorded events
      returned, while they fit. */
  lemma TotalBytesReturned(cfg: Config, classify: Classifier, steps: seq<SysStep>) returns (g: seq<Places>)
    requires IsSysRun(cfg, classify, steps) && OneThreadPerKey(ActingOnly(cfg, KSteps(steps)))
    requires ReturnsFit(KSteps(steps))
    ensures var u := SysAfter(cfg, classify, steps).u;
            && StepMatching(cfg, KSteps(steps), u.folded + Current(u.reader), g) && ExitsAt(KSteps(steps), g)
            && (Returned(KSteps(steps), g) < TWO64 ==> u.lat.totalBytes == Returned(KSteps(steps), g))
  {
    var u := SysAfter(cfg, classify, steps).u;
    g := RecordedSteps(cfg, classify, steps);
    HistogramComplete(cfg, classify, steps);
    BytesAreReturned(cfg, KSteps(steps), u.folded + Current(u.reader), g);
    if Returned(KSteps(steps), g) < TWO64 {
      WrapSmall(Returned(KSteps(steps), g));
    }
  }

  /** What the reporter sees is consistent: the stores behind the panels are
      those of the same whole batches, so per-command totals add up to the
      global ones, and per-client counts and bytes to those of the events with an
      address. */
  lemma PanelsAddUp(cfg: Config, classify: Classifier, steps: seq<SysStep>)
    requires IsSysRun(cfg, classify, steps)
    requires var u := SysAfter(cfg, classify, steps).u;
             && (u.reporter.Holding? || u.reporter.Printed?)
             && |u.folded| < TWO64 && Weight(u.folded, Bytes) < TWO64
    ensures var u := SysAfter(cfg, classify, steps).u;
            && u.folded == Flatten(u.batches)
            && Sum(u.cmd.Keys, StoredTotals(u.cmd)) == u.lat.total
            && Sum(u.cmd.Keys, StoredBytes(u.cmd)) == u.lat.totalBytes
            && Sum(u.cli.Keys, StoredCounts(u.cli)) == |Keyed(u.folded, ClientKey)|
            && Sum(u.cli.Keys, StoredClientBytes(u.cli)) == Weight(Keyed(u.folded, ClientKey), Bytes)
  {
    UserHalf(cfg, classify, steps);
    SnapshotAtBatchBoundary(classify, USteps(cfg, classify, steps));
    StoredNumbersAddUp(SysAfter(cfg, classify, steps).u.folded, classify);
  }

  /** No event in the stores exceeds the histogram's range, so the histogram
      has one sample for every recorded event. */
  lemma {:induction false} HistogramComplete(cfg: Config, classify: Classifier, steps: seq<SysStep>)
    requires IsSysRun(cfg, classify, steps)
    ensures var u := SysAfter(cfg, classify, steps).u;
            var h := u.folded + Current(u.reader);
            Gated(h) && u.lat.samples == Latencies(h) && |u.lat.samples| == |h|
            && u.lat.total == Wrap64(|h|) && u.lat.totalBytes == Wrap64(Weight(h, Bytes))
  {
    var s := SysAfter(cfg, classify, steps);
    var h := s.u.folded + Current(s.u.reader);
    KernelHalf(cfg, classify, steps);
    UserHalf(cfg, classify, steps);
    ConservationAndOrder(cfg, classify, steps);
    OutputsGated(cfg, KSteps(steps));
    SentGated(s.k.attempts);
    assert forall i | 0 <= i < |h| :: h[i] == Sent(s.k.attempts)[i];
    UInvAlways(classify, USteps(cfg, classify, steps));
    FoldLatHolds(h);
  }

  /** The same for the histogram of every command: one sample for every event of
      that command that the command store has seen. */
  lemma {:induction false} CommandHistogramsComplete(cfg: Config, classify: Classifier, steps: seq<SysStep>,
                                                     c: seq<byte>)
    requires IsSysRun(cfg, classify, steps)
    ensures var u := SysAfter(cfg, classify, steps).u;
            var g := Group(u.folded + CurrentCmd(u.reader), CommandKey(classify), c);
            && (c in u.cmd <==> g != [])
            && (c in u.cmd ==> u.cmd[c].samples == Latencies(g) && |u.cmd[c].samples| == |g|
                               && u.cmd[c].total == Wrap64(|g|))
  {
    var u := SysAfter(cfg, classify, steps).u;
    var h := u.folded + CurrentCmd(u.reader);
    UserHalf(cfg, classify, steps);
    UInvAlways(classify, USteps(cfg, classify, steps));
    HistogramComplete(cfg, classify, steps);
    assert forall i | 0 <= i < |h| :: h[i] == (u.folded + Current(u.reader))[i];
    GroupGated(h, CommandKey(classify), c);
    CommandsGroupHistory(h, classify, c);
    FoldLatHolds(Group(h, CommandKey(classify), c));
  }

  lemma {:induction false} GroupGated<K>(h: seq<LatencyEvent>, key: LatencyEvent -> Option<K>, k: K)
    requires Gated(h)
    ensures Gated(Group(h, key, k))
  {
    if h != [] {
      GroupGated(h[..|h| - 1], key, k);
    }
  }

  lemma {:induction false} SentGated(attempts: seq<Attempt>)
    requires forall i | 0 <= i < |attempts| :: attempts[i].ev.latencyNs <= LATENCY_LIMIT
    ensures Gated(Sent(attempts))
  {
    if attempts != [] {
      SentGated(attempts[..|attempts| - 1]);
    }
  }

  /** As long as the accepted requests and bytes fit in 64 bits, the deltas
      printed so far add up to the totals at the last report, and once a report has
      printed its first panel, to the events and bytes folded until then. */
  lemma {:induction false} DeltasTelescope(cfg: Config, classify: Classifier, steps: seq<SysStep>)
    requires IsSysRun(cfg, classify, steps)
    requires var sent := Sent(SysAfter(cfg, classify, steps).k.attempts);
             |sent| < TWO64 && Weight(sent, Bytes) < TWO64
    ensures var u := SysAfter(cfg, classify, steps).u;
            && Telescoped(u.lat, u.deltas)
            && (u.shown != [] ==> Requests(u.deltas) == |u.shown[0]| && BytesOf(u.deltas) == Weight(u.shown[0], Bytes))
  {
    var s := SysAfter(cfg, classify, steps);
    UserHalf(cfg, classify, steps);
    HandoverAlways(cfg, classify, steps);
    UInvAlways(classify, USteps(cfg, classify, steps));
    MarksAlways(classify, USteps(cfg, classify, steps));
    WeightSplit(s.u.taken, s.k.ring, Bytes);
  }
}
