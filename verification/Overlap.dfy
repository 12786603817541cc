/** The bound on unannounced records and overlapping output sections: it holds in
    every run if and only if at most one thread passes the filter. */
module Overlap {
  import opened Words
  import opened Probes
  import opened Interleaving
  import opened Outputs
  import opened Traces

  // ----- A single thread has nothing to overlap with -----

  lemma SingleStep(cfg: Config, s: KState, st: KStep, c: nat)
    requires AtMostOneThread(cfg) && KInv(cfg, s) && Enabled(cfg, s, st)
    ensures SerialStep(s, st, c)
  {
    if st.CountRead? {
      assert ThreadInv(cfg, s, st.t);
      forall t: u32 ensures !InSection(PcOf(s, t), c) {
        assert ThreadInv(cfg, s, t);
      }
    }
  }

  lemma {:induction false} SingleIsSerial(cfg: Config, steps: seq<KStep>, c: nat)
    requires AtMostOneThread(cfg) && IsRun(cfg, steps)
    ensures SerialOn(cfg, steps, c)
  {
    if steps != [] {
      var n := |steps| - 1;
      SingleIsSerial(cfg, steps[..n], c);
      RefinesAtomic(cfg, steps[..n]);
      SingleStep(cfg, After(cfg, steps[..n]), steps[n], c);
    }
  }

  // ----- Two threads overlap on every CPU -----

  /** Both threads are idle and the request map is empty. */
  ghost predicate Fresh(cfg: Config, s: KState, t: u32, u: u32) {
    s.clock == 0 && s.ctx == map[] && Starts(cfg, s, t) && Starts(cfg, s, u) && t != u
  }

  /** A request of one thread up to its built event. */
  lemma DoRequest(cfg: Config, r: Trace, t: u32) returns (r': Trace)
    requires Ready(cfg, r, t) && r.s.ctx == map[] && cfg.capacity >= 1
    ensures Traced(cfg, r')
    ensures r'.s == r.s.(pcs := r.s.pcs[t := Built(PlainEvent(cfg, t, 0))], found := r.s.found + 1)
  {
    var r1 := DoEntry(cfg, r, t);
    r' := DoBuild(cfg, r1, t, 0);
    assert r1.s.pcs[t := Built(PlainEvent(cfg, t, 0))] == r.s.pcs[t := Built(PlainEvent(cfg, t, 0))];
    assert r'.s.ctx == map[];
  }

  /** The parts of a state that the overlapping sections of `t` and `u` touch. */
  ghost predicate At(s: KState, s0: KState, t: u32, u: u32, pt: Pc, pu: Pc, cnt: seq<nat>, attempts: seq<Attempt>,
                     unannounced: nat) {
    && PcOf(s, t) == pt && PcOf(s, u) == pu && s.cnt == cnt && s.attempts == attempts
    && s.unannounced == unannounced && s.ctx == s0.ctx && s.clock == s0.clock
  }

  /** Both threads read the counter before either writes it. */
  lemma DoReads(cfg: Config, r: Trace, t: u32, u: u32, c: nat) returns (r': Trace)
    requires Traced(cfg, r) && t != u && PcOf(r.s, t).Built? && PcOf(r.s, u).Built? && c < |r.s.cnt|
    ensures Traced(cfg, r')
    ensures At(r'.s, r.s, t, u, Counted(PcOf(r.s, t).ev, c, r.s.cnt[c]), Counted(PcOf(r.s, u).ev, c, r.s.cnt[c]),
               r.s.cnt, r.s.attempts, r.s.unannounced)
  {
    var r1 := Then(cfg, r, CountRead(t, c));
    r' := Then(cfg, r1, CountRead(u, c));
  }

  lemma DoWrites(cfg: Config, r: Trace, t: u32, u: u32, c: nat, cur: nat) returns (r': Trace)
    requires Traced(cfg, r) && t != u && c < |r.s.cnt| && cur < 15
    requires PcOf(r.s, t).Counted? && PcOf(r.s, t).cpu == c && PcOf(r.s, t).cur == cur
    requires PcOf(r.s, u).Counted? && PcOf(r.s, u).cpu == c && PcOf(r.s, u).cur == cur
    ensures Traced(cfg, r')
    ensures At(r'.s, r.s, t, u, Flagged(PcOf(r.s, t).ev, c, false), Flagged(PcOf(r.s, u).ev, c, false),
               r.s.cnt[c := cur + 1], r.s.attempts, r.s.unannounced)
  {
    var r1 := Then(cfg, r, CountWrite(t));
    r' := Then(cfg, r1, CountWrite(u));
    assert r.s.cnt[c := cur + 1][c := cur + 1] == r.s.cnt[c := cur + 1];
  }

  lemma DoOutputs(cfg: Config, r: Trace, t: u32, u: u32, c: nat) returns (r': Trace)
    requires Traced(cfg, r) && t != u
    requires PcOf(r.s, t).Flagged? && PcOf(r.s, t).cpu == c && !PcOf(r.s, t).forced
    requires PcOf(r.s, u).Flagged? && PcOf(r.s, u).cpu == c && !PcOf(r.s, u).forced
    ensures Traced(cfg, r')
    ensures At(r'.s, r.s, t, u, Idle, Idle, r.s.cnt,
               r.s.attempts + [Attempt(PcOf(r.s, t).ev, c, false, true)] + [Attempt(PcOf(r.s, u).ev, c, false, true)],
               r.s.unannounced + 2)
  {
    var r1 := Then(cfg, r, Output(t, false));
    r' := Then(cfg, r1, Output(u, false));
  }

  /** Two sections that overlap on one CPU count as one. */
  lemma DoCounts(cfg: Config, r: Trace, t: u32, u: u32, c: nat) returns (r': Trace)
    requires Traced(cfg, r) && t != u && PcOf(r.s, t).Built? && PcOf(r.s, u).Built?
    requires c < |r.s.cnt| && r.s.cnt[c] < 15
    ensures Traced(cfg, r')
    ensures At(r'.s, r.s, t, u, Flagged(PcOf(r.s, t).ev, c, false), Flagged(PcOf(r.s, u).ev, c, false),
               r.s.cnt[c := r.s.cnt[c] + 1], r.s.attempts, r.s.unannounced)
  {
    var r1 := DoReads(cfg, r, t, u, c);
    r' := DoWrites(cfg, r1, t, u, c, r.s.cnt[c]);
  }

  lemma DoRequests(cfg: Config, r: Trace, t: u32, u: u32) returns (r': Trace)
    requires Traced(cfg, r) && Fresh(cfg, r.s, t, u) && cfg.capacity >= 1
    ensures Traced(cfg, r')
    ensures At(r'.s, r.s, t, u, Built(PlainEvent(cfg, t, 0)), Built(PlainEvent(cfg, u, 0)),
               r.s.cnt, r.s.attempts, r.s.unannounced)
  {
    var r1 := DoRequest(cfg, r, t);
    r' := DoRequest(cfg, r1, u);
  }

  /** Two unforced records more, and none of them refused. */
  lemma NoneRefused(attempts: seq<Attempt>, a: Attempt, b: Attempt)
    requires NoForcedRefused(attempts) && !a.forced && !b.forced
    ensures NoForcedRefused(attempts + [a] + [b])
  {
  }

  lemma AtAfter(s: KState, s1: KState, s2: KState, t: u32, u: u32, c: nat)
    requires PcOf(s1, t).Built? && PcOf(s1, u).Built? && c < |s.cnt|
    requires At(s1, s, t, u, PcOf(s1, t), PcOf(s1, u), s.cnt, s.attempts, s.unannounced)
    requires At(s2, s1, t, u, Flagged(PcOf(s1, t).ev, c, false), Flagged(PcOf(s1, u).ev, c, false),
                s1.cnt[c := s1.cnt[c] + 1], s1.attempts, s1.unannounced)
    ensures At(s2, s, t, u, Flagged(PcOf(s1, t).ev, c, false), Flagged(PcOf(s1, u).ev, c, false),
               s.cnt[c := s.cnt[c] + 1], s.attempts, s.unannounced)
  {
  }

  /** Two requests up to their outputs, counted as one. */
  lemma DoSections(cfg: Config, r: Trace, t: u32, u: u32, c: nat) returns (r': Trace)
    requires Traced(cfg, r) && Fresh(cfg, r.s, t, u) && cfg.capacity >= 1 && c < |r.s.cnt| && r.s.cnt[c] < 15
    ensures Traced(cfg, r')
    ensures At(r'.s, r.s, t, u, Flagged(PlainEvent(cfg, t, 0), c, false), Flagged(PlainEvent(cfg, u, 0), c, false),
               r.s.cnt[c := r.s.cnt[c] + 1], r.s.attempts, r.s.unannounced)
  {
    var r1 := DoRequests(cfg, r, t, u);
    r' := DoCounts(cfg, r1, t, u, c);
    AtAfter(r.s, r1.s, r'.s, t, u, c);
  }

  lemma DoPair(cfg: Config, r: Trace, t: u32, u: u32, c: nat) returns (r': Trace)
    requires Traced(cfg, r) && Fresh(cfg, r.s, t, u) && cfg.capacity >= 1 && c < |r.s.cnt| && r.s.cnt[c] < 15
    requires NoForcedRefused(r.s.attempts)
    ensures Traced(cfg, r') && Fresh(cfg, r'.s, t, u) && NoForcedRefused(r'.s.attempts)
    ensures r'.s.cnt == r.s.cnt[c := r.s.cnt[c] + 1] && r'.s.unannounced == r.s.unannounced + 2
  {
    var r1 := DoSections(cfg, r, t, u, c);
    r' := DoOutputs(cfg, r1, t, u, c);
    PairDone(cfg, r.s, r'.s, t, u, c);
  }

  lemma PairDone(cfg: Config, s: KState, s': KState, t: u32, u: u32, c: nat)
    requires Fresh(cfg, s, t, u) && c < |s.cnt| && NoForcedRefused(s.attempts)
    requires At(s', s, t, u, Idle, Idle, s.cnt[c := s.cnt[c] + 1],
                s.attempts + [Attempt(PlainEvent(cfg, t, 0), c, false, true)]
                + [Attempt(PlainEvent(cfg, u, 0), c, false, true)], s.unannounced + 2)
    ensures Fresh(cfg, s', t, u) && NoForcedRefused(s'.attempts)
  {
    NoneRefused(s.attempts, Attempt(PlainEvent(cfg, t, 0), c, false, true),
                Attempt(PlainEvent(cfg, u, 0), c, false, true));
  }

  /** Fifteen pairs on each CPU before `c` and `n` pairs on `c`. */
  ghost predicate Loaded(cfg: Config, r: Trace, c: nat, n: nat) {
    && |r.s.cnt| == cfg.cpus && NoForcedRefused(r.s.attempts)
    && (forall i | 0 <= i < cfg.cpus :: r.s.cnt[i] == if i < c then 15 else if i == c then n else 0)
    && r.s.unannounced == 30 * c + 2 * n
  }

  /** Overlapping pairs leave each counter at the number of pairs and twice as
      many records unannounced. */
  lemma {:induction false} Load(cfg: Config, t: u32, u: u32, c: nat, n: nat) returns (r: Trace)
    requires Passes(cfg, t) && Passes(cfg, u) && t != u
    requires cfg.capacity >= 1 && c < cfg.cpus && n <= 15
    ensures Traced(cfg, r) && Fresh(cfg, r.s, t, u) && Loaded(cfg, r, c, n)
    decreases c, n
  {
    if n > 0 {
      r := Load(cfg, t, u, c, n - 1);
      r := DoPair(cfg, r, t, u, c);
    } else if c > 0 {
      r := Load(cfg, t, u, c - 1, 15);
    } else {
      r := Start(cfg);
    }
  }

  /** Whenever no forced output was refused, at most fifteen records per CPU are
      unannounced. */
  ghost predicate Announced(cfg: Config, steps: seq<KStep>)
    requires IsRun(cfg, steps)
  {
    var s := After(cfg, steps);
    NoForcedRefused(s.attempts) ==> s.unannounced <= (BATCH_SIZE - 1) * cfg.cpus
  }

  lemma SingleAnnounced(cfg: Config, steps: seq<KStep>)
    requires AtMostOneThread(cfg) && IsRun(cfg, steps)
    ensures Announced(cfg, steps)
  {
    if NoForcedRefused(After(cfg, steps).attempts) {
      forall c | 0 <= c < cfg.cpus ensures SerialOn(cfg, steps, c) {
        SingleIsSerial(cfg, steps, c);
      }
      UnannouncedBounded(cfg, steps);
    }
  }

  /** Two passing threads can leave twice as many. */
  lemma OverlapBreaks(cfg: Config, t: u32, u: u32) returns (steps: seq<KStep>)
    requires Passes(cfg, t) && Passes(cfg, u) && t != u && cfg.capacity >= 1 && cfg.cpus >= 1
    ensures IsRun(cfg, steps) && !Announced(cfg, steps)
    ensures After(cfg, steps).unannounced == 30 * cfg.cpus
  {
    var r := Load(cfg, t, u, cfg.cpus - 1, 15);
    TracedIsRun(cfg, r);
    steps := Steps(r);
  }

  /** The bound holds in every run if and only if at most one thread passes the
      filter. */
  lemma BoundExact(cfg: Config)
    requires cfg.capacity >= 1 && cfg.cpus >= 1
    ensures (forall steps | IsRun(cfg, steps) :: Announced(cfg, steps)) <==> AtMostOneThread(cfg)
  {
    if AtMostOneThread(cfg) {
      forall steps | IsRun(cfg, steps) ensures Announced(cfg, steps) {
        SingleAnnounced(cfg, steps);
      }
    } else {
      var t, u: u32 :| Passes(cfg, t) && Passes(cfg, u) && t != u;
      var steps := OverlapBreaks(cfg, t, u);
    }
  }
}
