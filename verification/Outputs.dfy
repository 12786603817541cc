/** Conservation, order and wake-up of the records that the probes output. */
module Outputs {
  import opened Words
  import opened Probes
  import opened Interleaving

  // ----- Conservation and order, on every interleaving -----

  /** The records that the ring accepted, in order. */
  function Sent(attempts: seq<Attempt>): seq<LatencyEvent> {
    if attempts == [] then []
    else
      var last := attempts[|attempts| - 1];
      Sent(attempts[..|attempts| - 1]) + (if last.ok then [last.ev] else [])
  }

  /** The number of attempts that a full ring refused. */
  function Refused(attempts: seq<Attempt>): nat {
    if attempts == [] then 0
    else Refused(attempts[..|attempts| - 1]) + (if attempts[|attempts| - 1].ok then 0 else 1)
  }

  lemma SentAppend(attempts: seq<Attempt>, a: Attempt)
    ensures Sent(attempts + [a]) == Sent(attempts) + (if a.ok then [a.ev] else [])
    ensures Refused(attempts + [a]) == Refused(attempts) + (if a.ok then 0 else 1)
  {
    assert (attempts + [a])[..|attempts|] == attempts;
  }

  lemma {:induction false} SentOrRefused(attempts: seq<Attempt>)
    ensures |attempts| == |Sent(attempts)| + Refused(attempts)
    ensures forall e | e in Sent(attempts) :: e in Events(attempts)
  {
    if attempts != [] {
      var n := |attempts| - 1;
      SentOrRefused(attempts[..n]);
      assert Events(attempts) == Events(attempts[..n]) + [attempts[n].ev];
    }
  }

  /** The thread holds a context that it found and has not yet accounted for. */
  predicate Holding(pc: Pc) {
    pc.SendGot? || pc.Built? || pc.Counted? || pc.Flagged?
  }

  ghost function Holders(pcs: map<u32, Pc>): set<u32> {
    set t | t in pcs && Holding(pcs[t])
  }

  /** Found contexts are gate drops, refusals, acceptances or still in hand. */
  ghost predicate FoundAccounted(s: KState) {
    s.found == s.late + |s.attempts| + |Holders(s.pcs)|
  }

  predicate IsTail<T(==)>(tail: seq<T>, whole: seq<T>) {
    |tail| <= |whole| && tail == whole[|whole| - |tail|..]
  }

  lemma TailMoves<T>(tail: seq<T>, whole: seq<T>, x: T)
    requires IsTail(tail, whole)
    ensures IsTail(tail + [x], whole + [x])
    ensures tail != [] ==> IsTail(tail[1..], whole)
  {
  }

  /** The ring is the unread end of the accepted records. */
  ghost predicate RingIsUnread(s: KState) {
    && IsTail(s.ring, Sent(s.attempts))
    && s.unannounced <= |s.ring|
  }

  lemma HoldersMove(pcs: map<u32, Pc>, t: u32, pc: Pc)
    ensures |Holders(pcs[t := pc])| ==
            |Holders(pcs)| + (if Holding(pc) then 1 else 0)
                           - (if t in pcs && Holding(pcs[t]) then 1 else 0)
  {
    if Holding(pc) {
      assert Holders(pcs[t := pc]) == Holders(pcs) + {t};
    } else {
      assert Holders(pcs[t := pc]) == Holders(pcs) - {t};
    }
  }

  lemma FoundStep(cfg: Config, s: KState, st: KStep)
    requires Enabled(cfg, s, st) && FoundAccounted(s)
    ensures FoundAccounted(Apply(cfg, s, st))
  {
    if !st.Consume? {
      HoldersMove(s.pcs, st.t, PcOf(Apply(cfg, s, st), st.t));
    }
  }

  lemma RingStep(cfg: Config, s: KState, st: KStep)
    requires Enabled(cfg, s, st) && RingIsUnread(s)
    ensures RingIsUnread(Apply(cfg, s, st))
  {
    var sent := Sent(s.attempts);
    if st.Output? {
      var pc := PcOf(s, st.t);
      SentAppend(s.attempts, Attempt(pc.ev, pc.cpu, pc.forced, !st.full));
      TailMoves(s.ring, sent, pc.ev);
      assert sent + [] == sent;
    } else if st.Consume? {
      TailMoves(s.ring, sent, s.ring[0]);
    }
  }

  /** On every interleaving, whatever the keys and CPUs: each context found by
      a sendmsg exit is late, refused, accepted or in the finder's hands, and
      the ring holds exactly the accepted records not yet read, in order. */
  lemma {:induction false} Conservation(cfg: Config, steps: seq<KStep>)
    requires IsRun(cfg, steps)
    ensures var s := After(cfg, steps);
            s.found == s.late + Refused(s.attempts) + |Sent(s.attempts)| + |Holders(s.pcs)|
    ensures FoundAccounted(After(cfg, steps)) && RingIsUnread(After(cfg, steps))
  {
    SentOrRefused(After(cfg, steps).attempts);
    if steps != [] {
      var n := |steps| - 1;
      Conservation(cfg, steps[..n]);
      FoundStep(cfg, After(cfg, steps[..n]), steps[n]);
      RingStep(cfg, After(cfg, steps[..n]), steps[n]);
    }
  }

  /** Nothing above the latency limit is ever built or output. */
  ghost predicate AllGated(s: KState) {
    && (forall i | 0 <= i < |s.attempts| :: s.attempts[i].ev.latencyNs <= LATENCY_LIMIT)
    && forall t: u32 :: InFlight(PcOf(s, t)) != [] ==> PcOf(s, t).ev.latencyNs <= LATENCY_LIMIT
  }

  lemma GatedStep(cfg: Config, s: KState, st: KStep)
    requires Enabled(cfg, s, st) && AllGated(s)
    ensures AllGated(Apply(cfg, s, st))
  {
    var s' := Apply(cfg, s, st);
    if st.Consume? {
      assert forall t: u32 :: PcOf(s', t) == PcOf(s, t);
    } else {
      assert forall t: u32 :: t != st.t ==> PcOf(s', t) == PcOf(s, t);
      assert InFlight(PcOf(s, st.t)) != [] ==> PcOf(s, st.t).ev.latencyNs <= LATENCY_LIMIT;
    }
  }

  lemma {:induction false} OutputsGated(cfg: Config, steps: seq<KStep>)
    requires IsRun(cfg, steps)
    ensures AllGated(After(cfg, steps))
  {
    if steps != [] {
      OutputsGated(cfg, steps[..|steps| - 1]);
      GatedStep(cfg, After(cfg, steps[..|steps| - 1]), steps[|steps| - 1]);
    }
  }

  // ----- Batched wake-up -----

  /** Output attempts made on one CPU, and those among them that forced a wake-up. */
  function OnCpu(attempts: seq<Attempt>, c: nat): nat {
    if attempts == [] then 0
    else OnCpu(attempts[..|attempts| - 1], c) + (if attempts[|attempts| - 1].cpu == c then 1 else 0)
  }

  function ForcedOn(attempts: seq<Attempt>, c: nat): nat {
    if attempts == [] then 0
    else
      var last := attempts[|attempts| - 1];
      ForcedOn(attempts[..|attempts| - 1], c) + (if last.cpu == c && last.forced then 1 else 0)
  }

  lemma CountsAppend(attempts: seq<Attempt>, a: Attempt, c: nat)
    ensures OnCpu(attempts + [a], c) == OnCpu(attempts, c) + (if a.cpu == c then 1 else 0)
    ensures ForcedOn(attempts + [a], c) == ForcedOn(attempts, c) + (if a.cpu == c && a.forced then 1 else 0)
  {
    assert (attempts + [a])[..|attempts|] == attempts;
  }

  /** The counter of a CPU after `n` attempts there, and the wake-ups among them. */
  function Phase(n: nat): (r: nat)
    ensures r < BATCH_SIZE
  {
    if n == 0 then 0 else NextCount(Phase(n - 1))
  }

  function Rounds(n: nat): nat {
    if n == 0 then 0 else Rounds(n - 1) + (if Forced(Phase(n - 1)) then 1 else 0)
  }

  lemma {:induction false} PhaseIsRemainder(n: nat)
    ensures Phase(n) == n % 16 && Rounds(n) == n / 16
  {
    if n > 0 {
      PhaseIsRemainder(n - 1);
    }
  }

  /** A counter never reaches the batch size, however sections overlap. */
  ghost predicate CountersSmall(s: KState) {
    && (forall c | 0 <= c < |s.cnt| :: s.cnt[c] < BATCH_SIZE)
    && forall t: u32 :: PcOf(s, t).Counted? ==> PcOf(s, t).cur < BATCH_SIZE
  }

  lemma CountersStep(cfg: Config, s: KState, st: KStep)
    requires Enabled(cfg, s, st) && CountersSmall(s)
    ensures |Apply(cfg, s, st).cnt| == |s.cnt| && CountersSmall(Apply(cfg, s, st))
  {
    var s' := Apply(cfg, s, st);
    if st.Consume? {
      assert forall t: u32 :: PcOf(s', t) == PcOf(s, t);
    } else {
      assert forall t: u32 :: t != st.t ==> PcOf(s', t) == PcOf(s, t);
      if st.CountRead? || st.CountWrite? {
        assert PcOf(s, st.t).Counted? || st.CountRead?;
      } else {
        assert s'.cnt == s.cnt && !PcOf(s', st.t).Counted?;
      }
    }
  }

  lemma {:induction false} CountersStaySmall(cfg: Config, steps: seq<KStep>)
    requires IsRun(cfg, steps)
    ensures |After(cfg, steps).cnt| == cfg.cpus && CountersSmall(After(cfg, steps))
  {
    if steps != [] {
      var n := |steps| - 1;
      CountersStaySmall(cfg, steps[..n]);
      CountersStep(cfg, After(cfg, steps[..n]), steps[n]);
    }
  }

  predicate FlaggedOn(pc: Pc, c: nat) {
    pc.Flagged? && pc.cpu == c
  }

  /** A step that enters an output section on CPU `c` finds no thread in one there. */
  ghost predicate SerialStep(s: KState, st: KStep, c: nat) {
    st.CountRead? && st.cpu == c ==> forall t: u32 :: !InSection(PcOf(s, t), c)
  }

  /** No two output sections of the run overlap on CPU `c`. */
  ghost predicate SerialOn(cfg: Config, steps: seq<KStep>, c: nat)
    requires IsRun(cfg, steps)
  {
    steps == [] ||
    var n := |steps| - 1;
    SerialOn(cfg, steps[..n], c) && SerialStep(After(cfg, steps[..n]), steps[n], c)
  }

  /** While sections do not overlap on a CPU: each counter is the number of
      attempts there modulo the batch size, one ahead inside a section. */
  ghost predicate CpuInv(s: KState, c: nat)
    requires c < |s.cnt|
  {
    var n := OnCpu(s.attempts, c);
    && ForcedOn(s.attempts, c) == Rounds(n)
    && (forall t, t': u32 :: InSection(PcOf(s, t), c) && InSection(PcOf(s, t'), c) ==> t == t')
    && (forall t: u32 :: PcOf(s, t).Counted? && PcOf(s, t).cpu == c ==> PcOf(s, t).cur == s.cnt[c])
    && (forall t: u32 :: FlaggedOn(PcOf(s, t), c) ==>
          s.cnt[c] == Phase(n + 1) && (PcOf(s, t).forced <==> Forced(Phase(n))))
    && ((forall t: u32 :: !FlaggedOn(PcOf(s, t), c)) ==> s.cnt[c] == Phase(n))
  }

  /** Nothing that concerns the CPU is touched. */
  ghost predicate SameOnCpu(s: KState, s': KState, c: nat)
    requires c < |s.cnt|
  {
    && |s'.cnt| == |s.cnt| && s'.cnt[c] == s.cnt[c]
    && OnCpu(s'.attempts, c) == OnCpu(s.attempts, c) && ForcedOn(s'.attempts, c) == ForcedOn(s.attempts, c)
    && forall t: u32 :: SameSection(PcOf(s, t), PcOf(s', t), c)
  }

  predicate SameSection(pc: Pc, pc': Pc, c: nat) {
    pc' == pc || (!InSection(pc, c) && !InSection(pc', c))
  }

  lemma CpuInvKept(s: KState, s': KState, c: nat)
    requires c < |s.cnt| && CpuInv(s, c) && SameOnCpu(s, s', c)
    ensures CpuInv(s', c)
  {
    forall t: u32
      ensures InSection(PcOf(s', t), c) <==> InSection(PcOf(s, t), c)
      ensures FlaggedOn(PcOf(s', t), c) <==> FlaggedOn(PcOf(s, t), c)
      ensures InSection(PcOf(s, t), c) ==> PcOf(s', t) == PcOf(s, t)
    {
      assert SameSection(PcOf(s, t), PcOf(s', t), c);
    }
  }

  /** Steps outside the output sections of the CPU. */
  lemma ElsewhereSame(cfg: Config, s: KState, st: KStep, c: nat)
    requires Enabled(cfg, s, st) && c < |s.cnt|
    requires st.CountRead? ==> st.cpu != c
    requires st.CountWrite? || st.Output? ==> PcOf(s, st.t).cpu != c
    ensures SameOnCpu(s, Apply(cfg, s, st), c)
  {
    if st.Output? {
      var pc := PcOf(s, st.t);
      CountsAppend(s.attempts, Attempt(pc.ev, pc.cpu, pc.forced, !st.full), c);
    }
  }

  /** The thread that outputs was the only one in a section on its CPU. */
  lemma CpuInvOutput(cfg: Config, s: KState, st: KStep, c: nat)
    requires Enabled(cfg, s, st) && c < |s.cnt| && CpuInv(s, c) && st.Output? && PcOf(s, st.t).cpu == c
    ensures CpuInv(Apply(cfg, s, st), c)
  {
    var s', pc := Apply(cfg, s, st), PcOf(s, st.t);
    CountsAppend(s.attempts, Attempt(pc.ev, pc.cpu, pc.forced, !st.full), c);
    assert FlaggedOn(pc, c) && InSection(pc, c);
    forall t: u32 ensures !InSection(PcOf(s', t), c) && !FlaggedOn(PcOf(s', t), c) {
      assert t != st.t ==> PcOf(s', t) == PcOf(s, t);
    }
  }

  lemma CpuInvWrite(cfg: Config, s: KState, st: KStep, c: nat)
    requires Enabled(cfg, s, st) && c < |s.cnt| && CpuInv(s, c) && st.CountWrite? && PcOf(s, st.t).cpu == c
    ensures CpuInv(Apply(cfg, s, st), c)
  {
    var s', pc := Apply(cfg, s, st), PcOf(s, st.t);
    assert InSection(pc, c);
    forall t: u32 ensures t != st.t ==> PcOf(s', t) == PcOf(s, t) && !InSection(PcOf(s', t), c) {
    }
    assert FlaggedOn(PcOf(s', st.t), c);
  }

  lemma CpuInvRead(cfg: Config, s: KState, st: KStep, c: nat)
    requires Enabled(cfg, s, st) && c < |s.cnt| && CpuInv(s, c) && st.CountRead? && st.cpu == c
    requires SerialStep(s, st, c)
    ensures CpuInv(Apply(cfg, s, st), c)
  {
    var s' := Apply(cfg, s, st);
    forall t: u32
      ensures !FlaggedOn(PcOf(s', t), c) && !FlaggedOn(PcOf(s, t), c)
      ensures InSection(PcOf(s', t), c) ==> t == st.t
    {
      assert !InSection(PcOf(s, t), c);
      assert t != st.t ==> PcOf(s', t) == PcOf(s, t);
    }
  }

  lemma CpuInvStep(cfg: Config, s: KState, st: KStep, c: nat)
    requires Enabled(cfg, s, st) && c < |s.cnt| && CpuInv(s, c) && SerialStep(s, st, c)
    ensures CpuInv(Apply(cfg, s, st), c)
  {
    if st.CountRead? && st.cpu == c {
      CpuInvRead(cfg, s, st, c);
    } else if st.CountWrite? && PcOf(s, st.t).cpu == c {
      CpuInvWrite(cfg, s, st, c);
    } else if st.Output? && PcOf(s, st.t).cpu == c {
      CpuInvOutput(cfg, s, st, c);
    } else {
      ElsewhereSame(cfg, s, st, c);
      CpuInvKept(s, Apply(cfg, s, st), c);
    }
  }

  lemma {:induction false} CpuInvAlways(cfg: Config, steps: seq<KStep>, c: nat)
    requires IsRun(cfg, steps) && SerialOn(cfg, steps, c) && c < cfg.cpus
    ensures |After(cfg, steps).cnt| == cfg.cpus && CpuInv(After(cfg, steps), c)
  {
    if steps != [] {
      var n := |steps| - 1;
      CpuInvAlways(cfg, steps[..n], c);
      CpuInvStep(cfg, After(cfg, steps[..n]), steps[n], c);
    }
  }

  /** Of the n attempts on the CPU n div 16 forced a wake-up, and the counter is
      n mod 16, or that of the attempt in progress once it has been written. */
  ghost predicate WakesInBatches(s: KState, c: nat)
    requires c < |s.cnt|
  {
    var n := OnCpu(s.attempts, c);
    && ForcedOn(s.attempts, c) == n / 16
    && ((forall t: u32 :: !FlaggedOn(PcOf(s, t), c)) ==> s.cnt[c] == n % 16)
    && (forall t: u32 :: FlaggedOn(PcOf(s, t), c) ==>
          s.cnt[c] == (n + 1) % 16 && (PcOf(s, t).forced <==> n % 16 == 15))
  }

  lemma CpuInvNumbers(s: KState, c: nat)
    requires c < |s.cnt| && CpuInv(s, c)
    ensures WakesInBatches(s, c)
  {
    var n := OnCpu(s.attempts, c);
    PhaseIsRemainder(n);
    PhaseIsRemainder(n + 1);
  }

  /** In every state of a run whose sections do not overlap on a CPU, the wake-ups
      come in batches of sixteen. */
  lemma BatchedWakeup(cfg: Config, steps: seq<KStep>, c: nat)
    requires IsRun(cfg, steps) && SerialOn(cfg, steps, c) && c < cfg.cpus
    ensures |After(cfg, steps).cnt| == cfg.cpus && WakesInBatches(After(cfg, steps), c)
  {
    CpuInvAlways(cfg, steps, c);
    CpuInvNumbers(After(cfg, steps), c);
  }

  // ----- How many records can wait unannounced -----

  /** Each attempt forces a wake-up exactly when it is the sixteenth on its CPU. */
  ghost predicate EverySixteenth(attempts: seq<Attempt>, cpus: nat) {
    forall i | 0 <= i < |attempts| ::
      && attempts[i].cpu < cpus
      && (attempts[i].forced <==> Forced(Phase(OnCpu(attempts[..i], attempts[i].cpu))))
  }

  ghost predicate NoForcedRefused(attempts: seq<Attempt>) {
    forall i | 0 <= i < |attempts| :: attempts[i].forced ==> attempts[i].ok
  }

  /** Accepted records after the last accepted wake-up. */
  function Trailing(attempts: seq<Attempt>): nat {
    if attempts == [] then 0
    else
      var last, before := attempts[|attempts| - 1], Trailing(attempts[..|attempts| - 1]);
      if !last.ok then before else if last.forced then 0 else before + 1
  }

  lemma TrailingAppend(attempts: seq<Attempt>, a: Attempt)
    ensures Trailing(attempts + [a]) == if !a.ok then Trailing(attempts)
                                        else if a.forced then 0 else Trailing(attempts) + 1
  {
    assert (attempts + [a])[..|attempts|] == attempts;
  }

  /** The records that wait unannounced are those accepted since the last accepted
      wake-up, as far as they are still in the ring. */
  ghost predicate UnannouncedTrail(s: KState) {
    s.unannounced == Min(|s.ring|, Trailing(s.attempts))
  }

  lemma UnannouncedStep(cfg: Config, s: KState, st: KStep)
    requires Enabled(cfg, s, st) && UnannouncedTrail(s)
    ensures UnannouncedTrail(Apply(cfg, s, st))
  {
    if st.Output? {
      var pc := PcOf(s, st.t);
      TrailingAppend(s.attempts, Attempt(pc.ev, pc.cpu, pc.forced, !st.full));
    }
  }

  lemma {:induction false} UnannouncedExact(cfg: Config, steps: seq<KStep>)
    requires IsRun(cfg, steps)
    ensures UnannouncedTrail(After(cfg, steps))
  {
    if steps != [] {
      UnannouncedExact(cfg, steps[..|steps| - 1]);
      UnannouncedStep(cfg, After(cfg, steps[..|steps| - 1]), steps[|steps| - 1]);
    }
  }

  /** Sum of the first `k` CPU counters that the attempts imply. */
  function CounterSum(attempts: seq<Attempt>, k: nat): nat {
    if k == 0 then 0 else CounterSum(attempts, k - 1) + Phase(OnCpu(attempts, k - 1))
  }

  lemma {:induction false} CounterSumBound(attempts: seq<Attempt>, k: nat)
    ensures CounterSum(attempts, k) <= (BATCH_SIZE - 1) * k
  {
    if k > 0 {
      CounterSumBound(attempts, k - 1);
    }
  }

  /** A quiet attempt raises the counter sum by one. */
  lemma {:induction false} CounterSumQuiet(before: seq<Attempt>, a: Attempt, k: nat)
    requires !Forced(Phase(OnCpu(before, a.cpu)))
    ensures CounterSum(before + [a], k) == CounterSum(before, k) + (if a.cpu < k then 1 else 0)
  {
    if k > 0 {
      CounterSumQuiet(before, a, k - 1);
      CountsAppend(before, a, k - 1);
    }
  }

  lemma {:induction false} TrailingBound(attempts: seq<Attempt>, cpus: nat)
    requires EverySixteenth(attempts, cpus) && NoForcedRefused(attempts)
    ensures Trailing(attempts) <= CounterSum(attempts, cpus)
  {
    if attempts != [] {
      var n := |attempts| - 1;
      var before, last := attempts[..n], attempts[n];
      assert attempts == before + [last];
      assert forall i | 0 <= i < n :: before[..i] == attempts[..i];
      TrailingBound(before, cpus);
      if !last.forced {
        CounterSumQuiet(before, last, cpus);
      }
    }
  }

  ghost predicate SectionsOnCpus(cfg: Config, s: KState) {
    |s.cnt| == cfg.cpus && forall t: u32 ::
      PcOf(s, t).Counted? || PcOf(s, t).Flagged? ==> PcOf(s, t).cpu < cfg.cpus
  }

  lemma SectionsStep(cfg: Config, s: KState, st: KStep)
    requires Enabled(cfg, s, st) && SectionsOnCpus(cfg, s)
    ensures SectionsOnCpus(cfg, Apply(cfg, s, st))
  {
    var s' := Apply(cfg, s, st);
    assert !st.Consume? ==> forall t: u32 :: t != st.t ==> PcOf(s', t) == PcOf(s, t);
    assert st.Consume? ==> forall t: u32 :: PcOf(s', t) == PcOf(s, t);
  }

  ghost predicate AttemptsInv(cfg: Config, s: KState) {
    EverySixteenth(s.attempts, cfg.cpus) && s.unannounced <= Trailing(s.attempts)
  }

  lemma EverySixteenthAppend(attempts: seq<Attempt>, a: Attempt, cpus: nat)
    requires EverySixteenth(attempts, cpus) && a.cpu < cpus
    requires a.forced <==> Forced(Phase(OnCpu(attempts, a.cpu)))
    ensures EverySixteenth(attempts + [a], cpus)
  {
    var after := attempts + [a];
    assert after[..|attempts|] == attempts;
    assert forall i | 0 <= i < |attempts| :: after[..i] == attempts[..i];
  }

  /** Between sections that do not overlap, a flag is set when it is due. */
  lemma FlagIsDue(s: KState, t: u32)
    requires PcOf(s, t).Flagged? && PcOf(s, t).cpu < |s.cnt| && CpuInv(s, PcOf(s, t).cpu)
    ensures PcOf(s, t).forced <==> Forced(Phase(OnCpu(s.attempts, PcOf(s, t).cpu)))
  {
    assert FlaggedOn(PcOf(s, t), PcOf(s, t).cpu);
  }

  lemma {:induction false} AttemptsFollowCounters(cfg: Config, steps: seq<KStep>)
    requires IsRun(cfg, steps) && forall c | 0 <= c < cfg.cpus :: SerialOn(cfg, steps, c)
    ensures AttemptsInv(cfg, After(cfg, steps)) && SectionsOnCpus(cfg, After(cfg, steps))
  {
    if steps != [] {
      var n := |steps| - 1;
      forall c | 0 <= c < cfg.cpus ensures SerialOn(cfg, steps[..n], c) {
        assert SerialOn(cfg, steps, c);
      }
      AttemptsFollowCounters(cfg, steps[..n]);
      var s, st := After(cfg, steps[..n]), steps[n];
      SectionsStep(cfg, s, st);
      if st.Output? {
        var pc := PcOf(s, st.t);
        CpuInvAlways(cfg, steps[..n], pc.cpu);
        FlagIsDue(s, st.t);
        EverySixteenthAppend(s.attempts, Attempt(pc.ev, pc.cpu, pc.forced, !st.full), cfg.cpus);
        TrailingAppend(s.attempts, Attempt(pc.ev, pc.cpu, pc.forced, !st.full));
      }
    }
  }

  /** If no forced output is refused and no sections overlap on any CPU, at most
      fifteen records per CPU wait in the ring without a wake-up, in every state. */
  lemma UnannouncedBounded(cfg: Config, steps: seq<KStep>)
    requires IsRun(cfg, steps) && forall c | 0 <= c < cfg.cpus :: SerialOn(cfg, steps, c)
    requires NoForcedRefused(After(cfg, steps).attempts)
    ensures var s := After(cfg, steps);
            s.unannounced <= CounterSum(s.attempts, cfg.cpus) <= (BATCH_SIZE - 1) * cfg.cpus
  {
    var s := After(cfg, steps);
    AttemptsFollowCounters(cfg, steps);
    TrailingBound(s.attempts, cfg.cpus);
    CounterSumBound(s.attempts, cfg.cpus);
  }
}
