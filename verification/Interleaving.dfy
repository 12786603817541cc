/** The probes as they really run: each handler is split at its accesses to
    shared maps, and handlers of different threads interleave on several CPUs. */
module Interleaving {
  import opened Words
  import opened Resp
  import opened Probes
  import opened AtomicRuns

  /** `threads` are the threads that exist, `target` is the filter value, and
      `tgidOf` maps a thread to its process, whose number keys the request map. */
  datatype Config = Config(threads: set<u32>, target: u32, tgidOf: u32 -> u32, capacity: nat, cpus: nat)

  /** A thread that exists and passes the filter. */
  predicate Passes(cfg: Config, t: u32) {
    t in cfg.threads && IsTarget(cfg.target, t)
  }

  /** At most one thread that passes the filter runs under any map key. */
  ghost predicate OneThreadPerKey(cfg: Config) {
    forall t, t': u32 ::
      Passes(cfg, t) && Passes(cfg, t') && cfg.tgidOf(t) == cfg.tgidOf(t') ==> t == t'
  }

  ghost predicate AtMostOneThread(cfg: Config) {
    forall t, t': u32 :: Passes(cfg, t) && Passes(cfg, t') ==> t == t'
  }

  /** A non-zero filter value admits the thread of that number and no other, hence
      one per key; zero admits every thread. */
  lemma TargetGivesOneThread(cfg: Config)
    ensures cfg.target != 0 ==>
              && AtMostOneThread(cfg) && OneThreadPerKey(cfg)
              && forall t: u32 | t in cfg.threads :: Passes(cfg, t) <==> t == cfg.target
    ensures cfg.target == 0 ==> forall t: u32 | t in cfg.threads :: Passes(cfg, t)
  {
  }

  /** Where a thread stands inside a handler, with the handler's locals. */
  datatype Pc =
    | Idle
    | RecvReady(now: u64, sk: Option<Peer>, msg: MsgRead)
    | RetGot
    | RetRead(data: Capture)
    | SendStarted(now: u64, retval: i64)
    | SendGot(now: u64, retval: i64, c: ReqCtx)
    | Built(ev: LatencyEvent)
    | Counted(ev: LatencyEvent, cpu: nat, cur: nat)
    | Flagged(ev: LatencyEvent, cpu: nat, forced: bool)

  /** One call of the ring output, successful or refused by a full ring. */
  datatype Attempt = Attempt(ev: LatencyEvent, cpu: nat, forced: bool, ok: bool)

  /** Shared kernel state, the thread positions, and the histories: contexts
      found by sendmsg exits, latency-gate drops, and output attempts. */
  datatype KState = KState(
    ctx: map<u32, ReqCtx>, pcs: map<u32, Pc>, cnt: seq<nat>, clock: u64,
    ring: seq<LatencyEvent>, unannounced: nat,
    found: nat, late: nat, attempts: seq<Attempt>)

  datatype KStep =
    | RecvBegin(t: u32, now: u64, sk: Option<Peer>, msg: MsgRead)
    | RecvInsert(t: u32)
    | RetGet(t: u32)
    | RetUserRead(t: u32, data: Capture)
    | RetWrite(t: u32)
    | SendBegin(t: u32, now: u64, retval: i64)
    | SendGet(t: u32)
    | SendRemove(t: u32)
    | CountRead(t: u32, cpu: nat)
    | CountWrite(t: u32)
    | Output(t: u32, full: bool)
    | Consume

  function KInit(cfg: Config): KState {
    KState(map[], map[], seq(cfg.cpus, _ => 0), 0, [], 0, 0, 0, [])
  }

  function PcOf(s: KState, t: u32): Pc {
    if t in s.pcs then s.pcs[t] else Idle
  }

  /** The thread is between reading a wake-up counter and its ring output. */
  predicate InSection(pc: Pc, cpu: nat) {
    (pc.Counted? || pc.Flagged?) && pc.cpu == cpu
  }

  predicate Starts(cfg: Config, s: KState, t: u32) {
    PcOf(s, t).Idle? && Passes(cfg, t)
  }

  ghost predicate Enabled(cfg: Config, s: KState, st: KStep) {
    match st
    case RecvBegin(t, now, _, _) => Starts(cfg, s, t) && s.clock <= now
    case RecvInsert(t) => PcOf(s, t).RecvReady?
    case RetGet(t) => Starts(cfg, s, t)
    case RetUserRead(t, _) => PcOf(s, t).RetGot?
    case RetWrite(t) => PcOf(s, t).RetRead?
    case SendBegin(t, now, _) => Starts(cfg, s, t) && s.clock <= now
    case SendGet(t) => PcOf(s, t).SendStarted?
    case SendRemove(t) => PcOf(s, t).SendGot?
    case CountRead(t, cpu) =>
      PcOf(s, t).Built? && cpu < |s.cnt|
    case CountWrite(t) => PcOf(s, t).Counted? && PcOf(s, t).cpu < |s.cnt|
    case Output(t, _) => PcOf(s, t).Flagged?
    case Consume => s.ring != []
  }

  function Goto(s: KState, t: u32, pc: Pc): KState {
    s.(pcs := s.pcs[t := pc])
  }

  function Apply(cfg: Config, s: KState, st: KStep): KState
    requires Enabled(cfg, s, st)
  {
    match st
    case RecvBegin(t, now, sk, msg) =>
      Goto(s, t, RecvReady(now, sk, msg)).(clock := now)
    case RecvInsert(t) =>
      var pc := PcOf(s, t);
      Goto(s, t, Idle).(ctx := BoundedInsert(s.ctx, cfg.capacity, cfg.tgidOf(t), RecvCtx(pc.now, pc.sk, pc.msg)))
    case RetGet(t) =>
      var key := cfg.tgidOf(t);
      if key !in s.ctx || s.ctx[key].iovBase == 0 then Goto(s, t, Idle) else Goto(s, t, RetGot)
    case RetUserRead(t, data) => Goto(s, t, RetRead(data))
    case RetWrite(t) =>
      var key := cfg.tgidOf(t);
      if key in s.ctx
      then Goto(s, t, Idle).(ctx := s.ctx[key := WriteBack(s.ctx[key], PcOf(s, t).data)])
      else Goto(s, t, Idle)
    case SendBegin(t, now, retval) =>
      Goto(s, t, SendStarted(now, retval)).(clock := now)
    case SendGet(t) =>
      var pc, key := PcOf(s, t), cfg.tgidOf(t);
      if key in s.ctx then Goto(s, t, SendGot(pc.now, pc.retval, s.ctx[key])).(found := s.found + 1)
      else Goto(s, t, Idle)
    case SendRemove(t) =>
      var pc, key := PcOf(s, t), cfg.tgidOf(t);
      var s' := s.(ctx := s.ctx - {key});
      (match Gate(t, key, pc.now, pc.retval, pc.c)
       case None => Goto(s', t, Idle).(late := s.late + 1)
       case Some(ev) => Goto(s', t, Built(ev)))
    case CountRead(t, cpu) => Goto(s, t, Counted(PcOf(s, t).ev, cpu, s.cnt[cpu]))
    case CountWrite(t) =>
      var pc := PcOf(s, t);
      Goto(s, t, Flagged(pc.ev, pc.cpu, Forced(pc.cur))).(cnt := s.cnt[pc.cpu := NextCount(pc.cur)])
    case Output(t, full) =>
      var pc := PcOf(s, t);
      var s' := Goto(s, t, Idle).(attempts := s.attempts + [Attempt(pc.ev, pc.cpu, pc.forced, !full)]);
      if full then s'
      else s'.(ring := s.ring + [pc.ev], unannounced := if pc.forced then 0 else s.unannounced + 1)
    case Consume =>
      s.(ring := s.ring[1..], unannounced := Min(s.unannounced, |s.ring| - 1))
  }

  /** `steps` is a run from the initial state. */
  ghost predicate IsRun(cfg: Config, steps: seq<KStep>)
    decreases |steps|, 0
  {
    steps == [] ||
    var n := |steps| - 1;
    IsRun(cfg, steps[..n]) && Enabled(cfg, After(cfg, steps[..n]), steps[n])
  }

  ghost function After(cfg: Config, steps: seq<KStep>): KState
    requires IsRun(cfg, steps)
    decreases |steps|, 1
  {
    if steps == [] then KInit(cfg)
    else Apply(cfg, After(cfg, steps[..|steps| - 1]), steps[|steps| - 1])
  }

  lemma RunExtends(cfg: Config, ks: seq<KStep>, st: KStep)
    requires IsRun(cfg, ks) && Enabled(cfg, After(cfg, ks), st)
    ensures IsRun(cfg, ks + [st]) && After(cfg, ks + [st]) == Apply(cfg, After(cfg, ks), st)
  {
    assert (ks + [st])[..|ks|] == ks;
  }

  // ----- Refinement of the undisturbed handlers -----

  /** The atomic handler that a micro-step completes, if any. A handler takes
      effect at its insert, at its write-back or fruitless lookup, and at its
      removal or fruitless lookup. */
  function Completes(cfg: Config, s: KState, st: KStep): Option<AStep> {
    match st
    case RecvInsert(t) =>
      var pc := PcOf(s, t);
      if pc.RecvReady? then Some(ARecv(t, cfg.tgidOf(t), pc.now, pc.sk, pc.msg)) else None
    case RetGet(t) =>
      var key := cfg.tgidOf(t);
      if key !in s.ctx || s.ctx[key].iovBase == 0 then Some(ARet(t, key, ZEROS)) else None
    case RetWrite(t) =>
      var pc := PcOf(s, t);
      if pc.RetRead? then Some(ARet(t, cfg.tgidOf(t), pc.data)) else None
    case SendGet(t) =>
      var pc := PcOf(s, t);
      if pc.SendStarted? && cfg.tgidOf(t) !in s.ctx
      then Some(ASend(t, cfg.tgidOf(t), pc.now, pc.retval)) else None
    case SendRemove(t) =>
      var pc := PcOf(s, t);
      if pc.SendGot? then Some(ASend(t, cfg.tgidOf(t), pc.now, pc.retval)) else None
    case _ => None
  }

  /** The atomic run that a micro-step run amounts to. */
  ghost function Linearize(cfg: Config, steps: seq<KStep>): seq<AStep>
    requires IsRun(cfg, steps)
  {
    if steps == [] then []
    else
      var n := |steps| - 1;
      Linearize(cfg, steps[..n]) + ListOf(Completes(cfg, After(cfg, steps[..n]), steps[n]))
  }

  // ----- Where the inputs of the handlers come from -----

  /** The handlers that a thread has begun, with their inputs, told by its steps alone:
      clock, socket and message of a recvmsg entry, what a recvmsg exit read from user
      memory, zeros if it has read nothing, clock and return value of a sendmsg exit. */
  function Begun(cfg: Config, steps: seq<KStep>, t: u32): seq<AStep> {
    if steps == [] then []
    else
      var n := |steps| - 1;
      var before := Begun(cfg, steps[..n], t);
      if steps[n].Consume? || steps[n].t != t then before else WithInputs(cfg, steps[n], before)
  }

  function WithInputs(cfg: Config, st: KStep, before: seq<AStep>): seq<AStep>
    requires !st.Consume?
  {
    var key := cfg.tgidOf(st.t);
    match st
    case RecvBegin(t, now, sk, msg) => before + [ARecv(t, key, now, sk, msg)]
    case RetGet(t) => before + [ARet(t, key, ZEROS)]
    case RetUserRead(t, data) => AllButLast(before) + [ARet(t, key, data)]
    case SendBegin(t, now, retval) => before + [ASend(t, key, now, retval)]
    case _ => before
  }

  function AllButLast<T>(s: seq<T>): seq<T> {
    if s == [] then [] else s[..|s| - 1]
  }

  /** The handler that a thread has begun and not yet completed. */
  function Unfinished(cfg: Config, t: u32, pc: Pc): seq<AStep> {
    match pc
    case RecvReady(now, sk, msg) => [ARecv(t, cfg.tgidOf(t), now, sk, msg)]
    case RetGot => [ARet(t, cfg.tgidOf(t), ZEROS)]
    case RetRead(data) => [ARet(t, cfg.tgidOf(t), data)]
    case SendStarted(now, retval) => [ASend(t, cfg.tgidOf(t), now, retval)]
    case SendGot(now, retval, _) => [ASend(t, cfg.tgidOf(t), now, retval)]
    case _ => []
  }

  /** Each thread's handlers in the atomic run are those that its steps began, with
      the inputs that its steps gave them, up to the one in progress. */
  ghost predicate InputsKept(cfg: Config, steps: seq<KStep>)
    requires IsRun(cfg, steps)
  {
    forall t: u32 ::
      Begun(cfg, steps, t) == ByThread(Linearize(cfg, steps), t) + Unfinished(cfg, t, PcOf(After(cfg, steps), t))
  }

  lemma OwnInputs(cfg: Config, s: KState, st: KStep, begun: seq<AStep>, done: seq<AStep>)
    requires Enabled(cfg, s, st) && !st.Consume?
    requires begun == done + Unfinished(cfg, st.t, PcOf(s, st.t))
    ensures WithInputs(cfg, st, begun)
            == done + ListOf(Completes(cfg, s, st)) + Unfinished(cfg, st.t, PcOf(Apply(cfg, s, st), st.t))
  {
    var c := Completes(cfg, s, st);
    assert done + [] == done;
    if c.Some? {
      assert done + [c.value] + [] == done + [c.value];
    }
  }

  lemma CompletedBy(cfg: Config, s: KState, st: KStep, ls: seq<AStep>, t: u32)
    requires Enabled(cfg, s, st)
    ensures ByThread(ls + ListOf(Completes(cfg, s, st)), t) ==
            if !st.Consume? && st.t == t then ByThread(ls, t) + ListOf(Completes(cfg, s, st)) else ByThread(ls, t)
  {
    var c := Completes(cfg, s, st);
    if c.Some? {
      ByThreadAppend(ls, c.value, t);
    } else {
      assert ls + [] == ls && ByThread(ls, t) + [] == ByThread(ls, t);
    }
  }

  lemma OtherStays(cfg: Config, s: KState, st: KStep, t: u32)
    requires Enabled(cfg, s, st) && (st.Consume? || st.t != t)
    ensures PcOf(Apply(cfg, s, st), t) == PcOf(s, t)
  {
  }

  lemma InputsStep(cfg: Config, s: KState, st: KStep, begun: seq<AStep>, ls: seq<AStep>, t: u32)
    requires Enabled(cfg, s, st) && begun == ByThread(ls, t) + Unfinished(cfg, t, PcOf(s, t))
    ensures (if st.Consume? || st.t != t then begun else WithInputs(cfg, st, begun))
            == ByThread(ls + ListOf(Completes(cfg, s, st)), t) + Unfinished(cfg, t, PcOf(Apply(cfg, s, st), t))
  {
    CompletedBy(cfg, s, st, ls, t);
    if st.Consume? || st.t != t {
      OtherStays(cfg, s, st, t);
    } else {
      OwnInputs(cfg, s, st, begun, ByThread(ls, t));
    }
  }

  lemma {:induction false} InputsAreKept(cfg: Config, steps: seq<KStep>)
    requires IsRun(cfg, steps)
    ensures InputsKept(cfg, steps)
  {
    if steps != [] {
      var n := |steps| - 1;
      InputsAreKept(cfg, steps[..n]);
      forall t: u32
        ensures Begun(cfg, steps, t)
                == ByThread(Linearize(cfg, steps), t) + Unfinished(cfg, t, PcOf(After(cfg, steps), t))
      {
        InputsStep(cfg, After(cfg, steps[..n]), steps[n], Begun(cfg, steps[..n], t),
                   Linearize(cfg, steps[..n]), t);
      }
    }
  }

  /** The events of one thread, in order. */
  function OfThread(es: seq<LatencyEvent>, t: u32): seq<LatencyEvent> {
    if es == [] then []
    else OfThread(es[..|es| - 1], t) + (if es[|es| - 1].pid == t then [es[|es| - 1]] else [])
  }

  lemma OfThreadAppend(es: seq<LatencyEvent>, e: LatencyEvent, t: u32)
    ensures OfThread(es + [e], t) == OfThread(es, t) + (if e.pid == t then [e] else [])
  {
    assert (es + [e])[..|es|] == es;
  }

  function Events(attempts: seq<Attempt>): seq<LatencyEvent> {
    seq(|attempts|, i requires 0 <= i < |attempts| => attempts[i].ev)
  }

  /** The event a thread has built but not yet handed to the ring. */
  function InFlight(pc: Pc): seq<LatencyEvent> {
    if pc.Built? || pc.Counted? || pc.Flagged? then [pc.ev] else []
  }

  /** What holds of one thread's locals while no other thread has its key. */
  ghost predicate ThreadInv(cfg: Config, s: KState, t: u32) {
    var pc, key := PcOf(s, t), cfg.tgidOf(t);
    && (!pc.Idle? ==> Passes(cfg, t))
    && (match pc
        case RecvReady(now, _, _) => now <= s.clock
        case RetGot => key in s.ctx && s.ctx[key].iovBase != 0
        case RetRead(_) => key in s.ctx && s.ctx[key].iovBase != 0
        case SendStarted(now, _) => now <= s.clock && (key in s.ctx ==> s.ctx[key].startNs <= now)
        case SendGot(now, _, c) => key in s.ctx && s.ctx[key] == c && c.startNs <= now <= s.clock
        case _ => true)
    && (InFlight(pc) != [] ==> pc.ev.pid == t && pc.ev.tid == key && pc.ev.latencyNs <= LATENCY_LIMIT)
  }

  ghost predicate KInv(cfg: Config, s: KState) {
    && MapInv(cfg, s.ctx, s.clock)
    && (forall t: u32 :: ThreadInv(cfg, s, t))
  }

  /** Same request map; per thread, the same events up to the one in flight. */
  ghost predicate Simulates(s: KState, a: AState) {
    && s.ctx == a.ctx
    && forall t: u32 :: OfThread(a.emitted, t) == OfThread(Events(s.attempts), t) + InFlight(PcOf(s, t))
  }

  /** A step touches the map at its own thread's key only. */
  lemma OtherKeysKept(cfg: Config, s: KState, st: KStep, k: u32)
    requires Enabled(cfg, s, st) && (st.Consume? || cfg.tgidOf(st.t) != k)
    ensures var s' := Apply(cfg, s, st);
            (k in s'.ctx <==> k in s.ctx) && (k in s.ctx ==> s'.ctx[k] == s.ctx[k])
  {
  }

  ghost predicate MapInv(cfg: Config, m: map<u32, ReqCtx>, clock: u64) {
    |m| <= cfg.capacity && forall k | k in m :: m[k].startNs <= clock
  }

  /** The three ways a handler changes the map keep it within its bound and
      its start times within the clock. */
  lemma MapChanges(cfg: Config, m: map<u32, ReqCtx>, clock: u64, k: u32, c: ReqCtx)
    requires MapInv(cfg, m, clock) && c.startNs <= clock
    ensures MapInv(cfg, BoundedInsert(m, cfg.capacity, k, c), clock)
    ensures MapInv(cfg, m - {k}, clock)
    ensures k in m ==> MapInv(cfg, m[k := c], clock)
  {
    assert (m - {k}).Keys == m.Keys - {k};
    assert |(m - {k}).Keys| <= |m.Keys|;
    if k in m {
      assert m[k := c].Keys == m.Keys;
    }
  }

  lemma MapInvStep(cfg: Config, s: KState, st: KStep)
    requires KInv(cfg, s) && Enabled(cfg, s, st)
    ensures var s' := Apply(cfg, s, st);
            s.clock <= s'.clock && MapInv(cfg, s'.ctx, s'.clock)
  {
    assert MapInv(cfg, s.ctx, s.clock);
    if st.RecvInsert? {
      assert ThreadInv(cfg, s, st.t);
      var pc := PcOf(s, st.t);
      MapChanges(cfg, s.ctx, s.clock, cfg.tgidOf(st.t), RecvCtx(pc.now, pc.sk, pc.msg));
    } else if st.RetWrite? {
      var key := cfg.tgidOf(st.t);
      if key in s.ctx {
        MapChanges(cfg, s.ctx, s.clock, key, WriteBack(s.ctx[key], PcOf(s, st.t).data));
      }
    } else if st.SendRemove? {
      assert ThreadInv(cfg, s, st.t);
      MapChanges(cfg, s.ctx, s.clock, cfg.tgidOf(st.t), PcOf(s, st.t).c);
    }
  }

  lemma OwnThreadStep(cfg: Config, s: KState, st: KStep)
    requires KInv(cfg, s) && Enabled(cfg, s, st) && !st.Consume?
    ensures ThreadInv(cfg, Apply(cfg, s, st), st.t)
  {
    assert ThreadInv(cfg, s, st.t);
  }

  lemma ClockGrows(cfg: Config, s: KState, st: KStep)
    requires Enabled(cfg, s, st)
    ensures s.clock <= Apply(cfg, s, st).clock
  {
  }

  lemma OtherThreadStep(cfg: Config, s: KState, st: KStep, t: u32)
    requires OneThreadPerKey(cfg) && KInv(cfg, s) && Enabled(cfg, s, st)
    requires st.Consume? || st.t != t
    ensures ThreadInv(cfg, Apply(cfg, s, st), t)
  {
    assert ThreadInv(cfg, s, t);
    ClockGrows(cfg, s, st);
    assert PcOf(Apply(cfg, s, st), t) == PcOf(s, t);
    if Passes(cfg, t) {
      assert st.Consume? || ThreadInv(cfg, s, st.t);
      OtherKeysKept(cfg, s, st, cfg.tgidOf(t));
    }
  }

  lemma KInvStep(cfg: Config, s: KState, st: KStep)
    requires OneThreadPerKey(cfg) && KInv(cfg, s) && Enabled(cfg, s, st)
    ensures KInv(cfg, Apply(cfg, s, st))
  {
    MapInvStep(cfg, s, st);
    forall t: u32
      ensures ThreadInv(cfg, Apply(cfg, s, st), t)
    {
      if !st.Consume? && st.t == t {
        OwnThreadStep(cfg, s, st);
      } else {
        OtherThreadStep(cfg, s, st, t);
      }
    }
  }

  function Follow(capacity: nat, a: AState, c: Option<AStep>): AState {
    if c.Some? then Do(capacity, a, c.value) else a
  }

  lemma SameMapStep(cfg: Config, s: KState, st: KStep, a: AState)
    requires KInv(cfg, s) && Enabled(cfg, s, st) && s.ctx == a.ctx
    ensures Apply(cfg, s, st).ctx == Follow(cfg.capacity, a, Completes(cfg, s, st)).ctx
  {
    if !st.Consume? {
      assert ThreadInv(cfg, s, st.t);
      OwnMapStep(cfg, s, st, a);
    }
  }

  lemma OwnMapStep(cfg: Config, s: KState, st: KStep, a: AState)
    requires Enabled(cfg, s, st) && s.ctx == a.ctx && !st.Consume? && ThreadInv(cfg, s, st.t)
    ensures Apply(cfg, s, st).ctx == Follow(cfg.capacity, a, Completes(cfg, s, st)).ctx
  {
    if st.SendGet? && cfg.tgidOf(st.t) !in a.ctx {
      assert a.ctx - {cfg.tgidOf(st.t)} == a.ctx;
    }
  }

  /** Only a removal that passes the gate emits, and it emits the event that
      the thread then carries. */
  lemma EmittedStep(cfg: Config, s: KState, st: KStep, a: AState)
    requires KInv(cfg, s) && Enabled(cfg, s, st) && s.ctx == a.ctx
    ensures var s', a' := Apply(cfg, s, st), Follow(cfg.capacity, a, Completes(cfg, s, st));
            a'.emitted == if st.SendRemove? then a.emitted + InFlight(PcOf(s', st.t)) else a.emitted
  {
    if st.SendRemove? {
      assert ThreadInv(cfg, s, st.t);
    }
  }

  lemma AttemptedStep(cfg: Config, s: KState, st: KStep)
    requires Enabled(cfg, s, st)
    ensures Events(Apply(cfg, s, st).attempts) ==
            if st.Output? then Events(s.attempts) + InFlight(PcOf(s, st.t)) else Events(s.attempts)
  {
  }

  /** Which events a thread carries before and after a step. */
  lemma CarriedStep(cfg: Config, s: KState, st: KStep, t: u32)
    requires Enabled(cfg, s, st)
    ensures var before, after := InFlight(PcOf(s, t)), InFlight(PcOf(Apply(cfg, s, st), t));
            && (st.SendRemove? && st.t == t ==> before == [])
            && (st.Output? && st.t == t ==> after == [])
            && (st.Consume? || st.t != t || !(st.SendRemove? || st.Output?) ==> after == before)
  {
  }

  lemma SimulatesStep(cfg: Config, s: KState, st: KStep, a: AState)
    requires KInv(cfg, s) && Enabled(cfg, s, st) && Simulates(s, a)
    ensures KInv(cfg, Apply(cfg, s, st)) ==>
              Simulates(Apply(cfg, s, st), Follow(cfg.capacity, a, Completes(cfg, s, st)))
  {
    var s', a' := Apply(cfg, s, st), Follow(cfg.capacity, a, Completes(cfg, s, st));
    SameMapStep(cfg, s, st, a);
    EmittedStep(cfg, s, st, a);
    AttemptedStep(cfg, s, st);
    if KInv(cfg, s') {
      forall t: u32
        ensures OfThread(a'.emitted, t) == OfThread(Events(s'.attempts), t) + InFlight(PcOf(s', t))
      {
        CarriedStep(cfg, s, st, t);
        if st.SendRemove? {
          assert ThreadInv(cfg, s', st.t);
          CarriedAppend(cfg, s', st.t, a.emitted, t);
        } else if st.Output? {
          assert ThreadInv(cfg, s, st.t);
          CarriedAppend(cfg, s, st.t, Events(s.attempts), t);
        }
      }
    }
  }

  lemma CarriedAppend(cfg: Config, s: KState, t': u32, es: seq<LatencyEvent>, t: u32)
    requires ThreadInv(cfg, s, t')
    ensures OfThread(es + InFlight(PcOf(s, t')), t) ==
            OfThread(es, t) + (if t == t' then InFlight(PcOf(s, t')) else [])
  {
    var carried := InFlight(PcOf(s, t'));
    if carried != [] {
      OfThreadAppend(es, carried[0], t);
    } else {
      assert es + carried == es;
    }
  }

  lemma {:induction false} RefinesAtomic(cfg: Config, steps: seq<KStep>)
    requires OneThreadPerKey(cfg) && IsRun(cfg, steps)
    ensures KInv(cfg, After(cfg, steps))
    ensures Simulates(After(cfg, steps), Exec(cfg.capacity, Linearize(cfg, steps)))
  {
    if steps == [] {
      assert Exec(cfg.capacity, []) == AState(map[], []);
    } else {
      var n := |steps| - 1;
      RefinesAtomic(cfg, steps[..n]);
      var s, ls := After(cfg, steps[..n]), Linearize(cfg, steps[..n]);
      KInvStep(cfg, s, steps[n]);
      SimulatesStep(cfg, s, steps[n], Exec(cfg.capacity, ls));
      var c := Completes(cfg, s, steps[n]);
      if c.Some? {
        ExecAppend(cfg.capacity, ls, c.value);
      } else {
        assert ls + [] == ls;
      }
    }
  }

  /** Refinement: with one thread per key, every interleaving of the split
      handlers has the request map of an atomic run of the same handlers, and
      each thread outputs the same events in the same order, also when the map
      is full and inserts fail; the handlers are those that the steps began, with
      the inputs that the steps gave them. */
  lemma Refinement(cfg: Config, steps: seq<KStep>)
    requires OneThreadPerKey(cfg) && IsRun(cfg, steps)
    ensures KInv(cfg, After(cfg, steps))
    ensures Simulates(After(cfg, steps), Exec(cfg.capacity, Linearize(cfg, steps)))
    ensures InputsKept(cfg, steps)
  {
    RefinesAtomic(cfg, steps);
    InputsAreKept(cfg, steps);
  }

  lemma LastClock(cfg: Config, s: KState, st: KStep)
    requires KInv(cfg, s) && Enabled(cfg, s, st)
    ensures var c := Completes(cfg, s, st);
            c.Some? && c.value.ASend? && c.value.key in s.ctx ==> s.ctx[c.value.key].startNs <= c.value.now
  {
    if !st.Consume? {
      assert ThreadInv(cfg, s, st.t);
    }
  }

  /** A sendmsg exit reads the clock after the entry whose context it finds. */
  lemma {:induction false} ClocksInOrder(cfg: Config, steps: seq<KStep>, j: nat)
    requires OneThreadPerKey(cfg) && IsRun(cfg, steps)
    requires j < |Linearize(cfg, steps)| && Linearize(cfg, steps)[j].ASend?
    ensures var ls := Linearize(cfg, steps);
            var ctx, key := Exec(cfg.capacity, ls[..j]).ctx, ls[j].key;
            key in ctx ==> ctx[key].startNs <= ls[j].now
  {
    var n := |steps| - 1;
    var s, before, ls := After(cfg, steps[..n]), Linearize(cfg, steps[..n]), Linearize(cfg, steps);
    if j < |before| {
      ClocksInOrder(cfg, steps[..n], j);
      assert ls[..j] == before[..j];
    } else {
      RefinesAtomic(cfg, steps[..n]);
      assert ls == before + ListOf(Completes(cfg, s, steps[n]));
      assert ls[..j] == before;
      LastClock(cfg, s, steps[n]);
    }
  }
}
