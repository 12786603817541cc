/** What can always still happen: from every state of the pipeline the two loops can
    fold every record that the ring has accepted, without another probe step. */
module Draining {
  import opened Probes
  import opened Interleaving
  import opened Outputs
  import opened Stats
  import opened Collector
  import opened Completion
  import opened Pipeline

  lemma Go(cfg: Config, classify: Classifier, ss: seq<SysStep>, st: SysStep) returns (ss': seq<SysStep>)
    requires IsSysRun(cfg, classify, ss) && SysEnabled(cfg, SysAfter(cfg, classify, ss), st)
    ensures IsSysRun(cfg, classify, ss') && ss' == ss + [st]
    ensures SysAfter(cfg, classify, ss') == SysApply(cfg, classify, SysAfter(cfg, classify, ss), st)
  {
    ss' := ss + [st];
    assert ss'[..|ss|] == ss;
  }

  lemma LocksAlways(cfg: Config, classify: Classifier, ss: seq<SysStep>)
    requires IsSysRun(cfg, classify, ss)
    ensures LocksInv(SysAfter(cfg, classify, ss).u) && BatchInv(SysAfter(cfg, classify, ss).u)
  {
    UserHalf(cfg, classify, ss);
    UInvAlways(classify, USteps(cfg, classify, ss));
  }

  lemma OwnersAlways(cfg: Config, classify: Classifier, ss: seq<SysStep>)
    requires IsSysRun(cfg, classify, ss)
    ensures |SysAfter(cfg, classify, ss).u.owners| == 3
  {
    LocksAlways(cfg, classify, ss);
  }

  /** A step with which one of the loops goes on with its batch or its report. */
  lemma WorkStep(classify: Classifier, u: UState) returns (st: UStep)
    requires LocksInv(u) && (ReaderBusy(u.reader) || !u.reporter.Sleeping?)
    ensures UEnabled(u, st) && !st.Take? && !st.EndCollect?
    ensures ReaderRank(UApply(classify, u, st)) + ReporterRank(UApply(classify, u, st))
            < ReaderRank(u) + ReporterRank(u)
    ensures UApply(classify, u, st).reader.Collecting? <==> u.reader.Collecting?
  {
    SomeoneCanStep(u);
    st := if ReaderBusy(u.reader) && UEnabled(u, ReaderNext(u)) then ReaderNext(u) else ReporterNext(u);
    RankStep(classify, u, st);
  }

  /** The loops finish what they have begun. */
  lemma {:induction false} Settle(cfg: Config, classify: Classifier, ss: seq<SysStep>) returns (ss': seq<SysStep>)
    requires IsSysRun(cfg, classify, ss)
    ensures IsSysRun(cfg, classify, ss') && ss <= ss'
    ensures var s, s' := SysAfter(cfg, classify, ss), SysAfter(cfg, classify, ss');
            && s'.k == s.k && !ReaderBusy(s'.u.reader) && s'.u.reporter.Sleeping?
            && (s'.u.reader.Collecting? <==> s.u.reader.Collecting?)
    decreases ReaderRank(SysAfter(cfg, classify, ss).u) + ReporterRank(SysAfter(cfg, classify, ss).u)
  {
    var u := SysAfter(cfg, classify, ss).u;
    ss' := ss;
    if ReaderBusy(u.reader) || !u.reporter.Sleeping? {
      LocksAlways(cfg, classify, ss);
      var st := WorkStep(classify, u);
      ss' := Go(cfg, classify, ss, User(st));
      ss' := Settle(cfg, classify, ss');
    }
  }

  lemma TransferStep(cfg: Config, classify: Classifier, s: Sys)
    requires s.k.ring != [] && s.u.reader.Collecting? && |s.u.owners| == 3
    ensures SysEnabled(cfg, s, Transfer)
    ensures var s' := SysApply(cfg, classify, s, Transfer);
            s'.k.attempts == s.k.attempts && s'.k.ring == s.k.ring[1..] && s'.u.reader.Collecting?
  {
  }

  lemma {:induction false} DrainRing(cfg: Config, classify: Classifier, ss: seq<SysStep>) returns (ss': seq<SysStep>)
    requires IsSysRun(cfg, classify, ss) && SysAfter(cfg, classify, ss).u.reader.Collecting?
    ensures IsSysRun(cfg, classify, ss') && ss <= ss'
    ensures var s, s' := SysAfter(cfg, classify, ss), SysAfter(cfg, classify, ss');
            s'.k.attempts == s.k.attempts && s'.k.ring == [] && s'.u.reader.Collecting?
    decreases |SysAfter(cfg, classify, ss).k.ring|
  {
    ss' := ss;
    var s := SysAfter(cfg, classify, ss);
    if s.k.ring != [] {
      OwnersAlways(cfg, classify, ss);
      TransferStep(cfg, classify, s);
      ss' := Go(cfg, classify, ss, Transfer);
      ss' := DrainRing(cfg, classify, ss');
    }
  }

  /** Both loops at rest or collecting, then collecting. */
  lemma ToCollecting(cfg: Config, classify: Classifier, ss: seq<SysStep>) returns (ss': seq<SysStep>)
    requires IsSysRun(cfg, classify, ss)
    ensures IsSysRun(cfg, classify, ss') && ss <= ss'
    ensures var s, s' := SysAfter(cfg, classify, ss), SysAfter(cfg, classify, ss');
            s'.k == s.k && s'.u.reader.Collecting?
  {
    ss' := Settle(cfg, classify, ss);
    if SysAfter(cfg, classify, ss').u.reader.Waiting? {
      LocksAlways(cfg, classify, ss');
      ss' := Go(cfg, classify, ss', User(Wake));
    }
  }

  /** With the ring empty, the reader ends its collection and folds the batch. */
  lemma FoldCollected(cfg: Config, classify: Classifier, ss: seq<SysStep>) returns (ss': seq<SysStep>)
    requires IsSysRun(cfg, classify, ss)
    requires SysAfter(cfg, classify, ss).u.reader.Collecting? && SysAfter(cfg, classify, ss).k.ring == []
    ensures IsSysRun(cfg, classify, ss') && ss <= ss'
    ensures var s, s' := SysAfter(cfg, classify, ss), SysAfter(cfg, classify, ss');
            s'.k == s.k && s'.u.reader.Waiting? && s'.u.reporter.Sleeping?
  {
    LocksAlways(cfg, classify, ss);
    ss' := Go(cfg, classify, ss, User(EndCollect));
    ss' := Settle(cfg, classify, ss');
  }

  lemma AllFolded(cfg: Config, classify: Classifier, ss: seq<SysStep>)
    requires IsSysRun(cfg, classify, ss)
    requires SysAfter(cfg, classify, ss).u.reader.Waiting? && SysAfter(cfg, classify, ss).k.ring == []
    ensures SysAfter(cfg, classify, ss).u.folded == Sent(SysAfter(cfg, classify, ss).k.attempts)
  {
    var s := SysAfter(cfg, classify, ss);
    LocksAlways(cfg, classify, ss);
    ConservationAndOrder(cfg, classify, ss);
    assert s.u.folded + Current(s.u.reader) + s.u.batch + s.k.ring == s.u.folded;
  }

  /** From every reachable state there are steps of the two loops alone after which
      the stores hold every record that the ring has accepted. */
  lemma EverythingCanBeFolded(cfg: Config, classify: Classifier, ss: seq<SysStep>) returns (ss': seq<SysStep>)
    requires IsSysRun(cfg, classify, ss)
    ensures IsSysRun(cfg, classify, ss') && ss <= ss'
    ensures var s, s' := SysAfter(cfg, classify, ss), SysAfter(cfg, classify, ss');
            && s'.k.attempts == s.k.attempts && s'.u.folded == Sent(s.k.attempts)
            && s'.u.reader.Waiting? && s'.u.reporter.Sleeping?
  {
    var s1 := ToCollecting(cfg, classify, ss);
    var s2 := DrainRing(cfg, classify, s1);
    ss' := FoldCollected(cfg, classify, s2);
    AllFolded(cfg, classify, ss');
  }

  /** A probe step, or a read of the ring, while the reader collects. */
  lemma HalfStep(cfg: Config, classify: Classifier, s: Sys, k: KStep) returns (st: SysStep)
    requires Enabled(cfg, s.k, k) && s.u.reader.Collecting? && |s.u.owners| == 3
    ensures SysEnabled(cfg, s, st) && KPart(st) == [k]
    ensures var s' := SysApply(cfg, classify, s, st); s'.k == Apply(cfg, s.k, k) && s'.u.reader.Collecting?
  {
    st := if k.Consume? then Transfer else Kernel(k);
  }

  lemma KStepsNext(ss: seq<SysStep>, st: SysStep)
    ensures KSteps(ss + [st]) == KSteps(ss) + KPart(st)
  {
    assert (ss + [st])[..|ss|] == ss;
  }

  /** `ss` is a run of the pipeline in which the probes and the ring go through `ks`. */
  ghost predicate Carries(cfg: Config, classify: Classifier, ss: seq<SysStep>, ks: seq<KStep>) {
    && IsRun(cfg, ks) && IsSysRun(cfg, classify, ss) && KSteps(ss) == ks
    && SysAfter(cfg, classify, ss).k == After(cfg, ks) && SysAfter(cfg, classify, ss).u.reader.Collecting?
  }

  lemma CarriesNext(cfg: Config, classify: Classifier, ss: seq<SysStep>, ks: seq<KStep>, k: KStep)
    returns (ss': seq<SysStep>)
    requires Carries(cfg, classify, ss, ks) && Enabled(cfg, After(cfg, ks), k)
    ensures Carries(cfg, classify, ss', ks + [k])
  {
    OwnersAlways(cfg, classify, ss);
    RunExtends(cfg, ks, k);
    var st := HalfStep(cfg, classify, SysAfter(cfg, classify, ss), k);
    ss' := Go(cfg, classify, ss, st);
    KStepsNext(ss, st);
  }

  /** Every run of the probes, with the ring read at any points, is the probes' half
      of a run of the pipeline. */
  lemma {:induction false} EveryRunIsAHalf(cfg: Config, classify: Classifier, ks: seq<KStep>)
    returns (ss: seq<SysStep>)
    requires IsRun(cfg, ks)
    ensures Carries(cfg, classify, ss, ks)
  {
    if ks == [] {
      ss := Go(cfg, classify, [], User(Wake));
      KStepsNext([], User(Wake));
    } else {
      var n := |ks| - 1;
      var before := EveryRunIsAHalf(cfg, classify, ks[..n]);
      ss := CarriesNext(cfg, classify, before, ks[..n], ks[n]);
      assert ks[..n] + [ks[n]] == ks;
    }
  }
}
