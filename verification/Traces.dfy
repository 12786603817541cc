/** Building runs out of whole handlers: each lemma extends a run by the steps of
    one handler and gives the new state and the atomic handler it amounts to. */
module Traces {
  import opened Words
  import opened Resp
  import opened Probes
  import opened AtomicRuns
  import opened Interleaving

  /** A run, step by step, with the state it leads to and the atomic run it
      amounts to so far. */
  datatype Trace =
    | Begin(s: KState, ls: seq<AStep>)
    | More(before: Trace, st: KStep, s: KState, ls: seq<AStep>)

  ghost predicate Traced(cfg: Config, r: Trace) {
    match r
    case Begin(s, ls) => s == KInit(cfg) && ls == []
    case More(before, st, s, ls) =>
      && Traced(cfg, before) && Enabled(cfg, before.s, st)
      && s == Apply(cfg, before.s, st) && ls == before.ls + ListOf(Completes(cfg, before.s, st))
  }

  function Steps(r: Trace): seq<KStep> {
    match r
    case Begin(_, _) => []
    case More(before, st, _, _) => Steps(before) + [st]
  }

  lemma {:induction false} TracedIsRun(cfg: Config, r: Trace)
    requires Traced(cfg, r)
    ensures IsRun(cfg, Steps(r)) && After(cfg, Steps(r)) == r.s && Linearize(cfg, Steps(r)) == r.ls
  {
    if r.More? {
      TracedIsRun(cfg, r.before);
      RunExtends(cfg, Steps(r.before), r.st);
      assert Steps(r)[..|Steps(r.before)|] == Steps(r.before);
    }
  }

  lemma Start(cfg: Config) returns (r: Trace)
    ensures Traced(cfg, r) && r.s == KInit(cfg) && r.ls == []
  {
    r := Begin(KInit(cfg), []);
  }

  lemma Then(cfg: Config, r: Trace, st: KStep) returns (r': Trace)
    requires Traced(cfg, r) && Enabled(cfg, r.s, st)
    ensures Traced(cfg, r')
    ensures r'.s == Apply(cfg, r.s, st) && r'.ls == r.ls + ListOf(Completes(cfg, r.s, st))
  {
    r' := More(r, st, Apply(cfg, r.s, st), r.ls + ListOf(Completes(cfg, r.s, st)));
  }

  // ----- Handlers at time zero, without socket or message -----

  const PLAIN: ReqCtx := ReqCtx(0, 0, 0, ZEROS)

  function Entry(cfg: Config, t: u32): AStep {
    ARecv(t, cfg.tgidOf(t), 0, None, NoMessage)
  }

  function Exit(cfg: Config, t: u32, retval: i64): AStep {
    ASend(t, cfg.tgidOf(t), 0, retval)
  }

  /** The event of a plain request. */
  function PlainEvent(cfg: Config, t: u32, retval: i64): LatencyEvent {
    LatencyEvent(t, cfg.tgidOf(t), 0, ByteCount(retval), 0, 0, 0, if retval < 0 then 1 else 0, ZEROS)
  }

  ghost predicate Ready(cfg: Config, r: Trace, t: u32) {
    Traced(cfg, r) && r.s.clock == 0 && Starts(cfg, r.s, t)
  }

  /** A whole recvmsg entry. */
  lemma DoEntry(cfg: Config, r: Trace, t: u32) returns (r': Trace)
    requires Ready(cfg, r, t)
    ensures Traced(cfg, r') && r'.ls == r.ls + [Entry(cfg, t)]
    ensures r'.s == r.s.(pcs := r.s.pcs[t := Idle],
                         ctx := BoundedInsert(r.s.ctx, cfg.capacity, cfg.tgidOf(t), PLAIN))
  {
    var r1 := Then(cfg, r, RecvBegin(t, 0, None, NoMessage));
    r' := Then(cfg, r1, RecvInsert(t));
    assert r1.s.pcs[t := Idle] == r.s.pcs[t := Idle];
    assert r.ls + [] == r.ls;
  }

  /** A whole sendmsg exit that finds nothing. */
  lemma DoMiss(cfg: Config, r: Trace, t: u32, retval: i64) returns (r': Trace)
    requires Ready(cfg, r, t) && cfg.tgidOf(t) !in r.s.ctx
    ensures Traced(cfg, r') && r'.ls == r.ls + [Exit(cfg, t, retval)]
    ensures r'.s == r.s.(pcs := r.s.pcs[t := Idle])
  {
    var r1 := Then(cfg, r, SendBegin(t, 0, retval));
    r' := Then(cfg, r1, SendGet(t));
    assert r1.s.pcs[t := Idle] == r.s.pcs[t := Idle];
    assert r.ls + [] == r.ls;
  }

  /** The first half of a sendmsg exit: clock and lookup. */
  lemma DoLookup(cfg: Config, r: Trace, t: u32, retval: i64) returns (r': Trace)
    requires Ready(cfg, r, t) && cfg.tgidOf(t) in r.s.ctx && r.s.ctx[cfg.tgidOf(t)] == PLAIN
    ensures Traced(cfg, r') && r'.ls == r.ls
    ensures r'.s == r.s.(pcs := r.s.pcs[t := SendGot(0, retval, PLAIN)], found := r.s.found + 1)
  {
    var r1 := Then(cfg, r, SendBegin(t, 0, retval));
    r' := Then(cfg, r1, SendGet(t));
    assert r1.s.pcs[t := SendGot(0, retval, PLAIN)] == r.s.pcs[t := SendGot(0, retval, PLAIN)];
    assert r.ls + [] == r.ls;
  }

  /** The second half up to the built event: removal and gate. */
  lemma DoRemove(cfg: Config, r: Trace, t: u32, retval: i64) returns (r': Trace)
    requires Traced(cfg, r) && PcOf(r.s, t) == SendGot(0, retval, PLAIN)
    ensures Traced(cfg, r') && r'.ls == r.ls + [Exit(cfg, t, retval)]
    ensures r'.s == r.s.(pcs := r.s.pcs[t := Built(PlainEvent(cfg, t, retval))],
                         ctx := r.s.ctx - {cfg.tgidOf(t)})
  {
    PlainGate(cfg, t, retval);
    r' := Then(cfg, r, SendRemove(t));
  }

  lemma PlainGate(cfg: Config, t: u32, retval: i64)
    ensures Gate(t, cfg.tgidOf(t), 0, retval, PLAIN) == Some(PlainEvent(cfg, t, retval))
  {
  }

  /** A sendmsg exit up to its built event. */
  lemma DoBuild(cfg: Config, r: Trace, t: u32, retval: i64) returns (r': Trace)
    requires Ready(cfg, r, t) && cfg.tgidOf(t) in r.s.ctx && r.s.ctx[cfg.tgidOf(t)] == PLAIN
    ensures Traced(cfg, r') && r'.ls == r.ls + [Exit(cfg, t, retval)]
    ensures r'.s == r.s.(pcs := r.s.pcs[t := Built(PlainEvent(cfg, t, retval))],
                         ctx := r.s.ctx - {cfg.tgidOf(t)}, found := r.s.found + 1)
  {
    var r1 := DoLookup(cfg, r, t, retval);
    r' := DoRemove(cfg, r1, t, retval);
    assert r1.s.pcs[t := Built(PlainEvent(cfg, t, retval))] == r.s.pcs[t := Built(PlainEvent(cfg, t, retval))];
  }

  /** An undisturbed output section with room in the ring. */
  lemma DoOutput(cfg: Config, r: Trace, t: u32, c: nat) returns (r': Trace)
    requires Traced(cfg, r) && PcOf(r.s, t).Built? && c < |r.s.cnt|
    ensures Traced(cfg, r') && r'.ls == r.ls
    ensures var ev, cur := PcOf(r.s, t).ev, r.s.cnt[c];
            r'.s == r.s.(pcs := r.s.pcs[t := Idle], cnt := r.s.cnt[c := NextCount(cur)],
                         attempts := r.s.attempts + [Attempt(ev, c, Forced(cur), true)],
                         ring := r.s.ring + [ev],
                         unannounced := if Forced(cur) then 0 else r.s.unannounced + 1)
  {
    var r1 := Then(cfg, r, CountRead(t, c));
    var r2 := Then(cfg, r1, CountWrite(t));
    r' := Then(cfg, r2, Output(t, false));
    assert r2.s.pcs[t := Idle] == r.s.pcs[t := Idle];
    assert r.ls + [] == r.ls;
  }

  // ----- One whole request, whatever its inputs -----

  lemma DoEnter(cfg: Config, t: u32, now: u64, sk: Option<Peer>, msg: MsgRead) returns (r: Trace)
    requires Passes(cfg, t) && cfg.capacity >= 1
    ensures Traced(cfg, r) && PcOf(r.s, t).Idle? && r.s.clock == now && r.s.attempts == [] && |r.s.cnt| == cfg.cpus
    ensures r.s.ctx == map[cfg.tgidOf(t) := RecvCtx(now, sk, msg)]
  {
    r := Start(cfg);
    r := Then(cfg, r, RecvBegin(t, now, sk, msg));
    r := Then(cfg, r, RecvInsert(t));
  }

  /** The context after entry and exit of a recvmsg: with what was read from user
      memory, if there was a buffer. */
  function Captured(now: u64, sk: Option<Peer>, msg: MsgRead, data: Capture): ReqCtx {
    var c := RecvCtx(now, sk, msg);
    if c.iovBase == 0 then c else WriteBack(c, data)
  }

  lemma DoCapture(cfg: Config, t: u32, now: u64, sk: Option<Peer>, msg: MsgRead, data: Capture) returns (r: Trace)
    requires Passes(cfg, t) && cfg.capacity >= 1
    ensures Traced(cfg, r) && PcOf(r.s, t).Idle? && r.s.clock == now && r.s.attempts == [] && |r.s.cnt| == cfg.cpus
    ensures r.s.ctx == map[cfg.tgidOf(t) := Captured(now, sk, msg, data)]
  {
    r := DoEnter(cfg, t, now, sk, msg);
    r := Then(cfg, r, RetGet(t));
    if RecvCtx(now, sk, msg).iovBase != 0 {
      r := Then(cfg, r, RetUserRead(t, data));
      r := Then(cfg, r, RetWrite(t));
    }
  }

  /** From the exit's clock to the built event. */
  lemma DoAnswer(cfg: Config, r: Trace, t: u32, c: ReqCtx, now: u64, retval: i64, e: LatencyEvent)
    returns (r': Trace)
    requires Traced(cfg, r) && Starts(cfg, r.s, t) && r.s.clock <= now && r.s.attempts == [] && |r.s.cnt| >= 1
    requires r.s.ctx == map[cfg.tgidOf(t) := c] && Gate(t, cfg.tgidOf(t), now, retval, c) == Some(e)
    ensures Traced(cfg, r') && PcOf(r'.s, t) == Built(e) && r'.s.attempts == [] && |r'.s.cnt| >= 1
  {
    r' := Then(cfg, r, SendBegin(t, now, retval));
    r' := Then(cfg, r', SendGet(t));
    r' := Then(cfg, r', SendRemove(t));
  }

  /** The output section, with or without room in the ring. */
  lemma DoOffer(cfg: Config, r: Trace, t: u32, e: LatencyEvent, full: bool) returns (r': Trace)
    requires Traced(cfg, r) && PcOf(r.s, t) == Built(e) && r.s.attempts == [] && |r.s.cnt| >= 1
    ensures Traced(cfg, r') && Events(r'.s.attempts) == [e] && (r'.s.attempts[0].ok <==> !full)
  {
    r' := Then(cfg, r, CountRead(t, 0));
    r' := Then(cfg, r', CountWrite(t));
    r' := Then(cfg, r', Output(t, full));
  }

  /** Every request can be reported: for any thread that passes the filter, any
      client, message, capture and return value and any interval of at most ten seconds
      there is a run whose only output carries them, refused or accepted. */
  lemma RequestIsReported(cfg: Config, t: u32, start: u64, now: u64, sk: Option<Peer>, msg: MsgRead, data: Capture,
                          retval: i64, full: bool) returns (steps: seq<KStep>)
    requires Passes(cfg, t) && cfg.capacity >= 1 && cfg.cpus >= 1 && start <= now <= start + 10_000_000_000
    ensures IsRun(cfg, steps) && |After(cfg, steps).attempts| == 1
    ensures var a := After(cfg, steps).attempts[0];
            && (a.ok <==> !full) && a.ev.pid == t && a.ev.latencyNs == now - start && BytesSent(retval, a.ev.bytes)
            && (sk.Some? ==> a.ev.clientIp == sk.value.ip && a.ev.clientPort == sk.value.port)
            && a.ev.reqData == if msg.Base? && msg.addr != 0 then data else ZEROS
  {
    var c := Captured(start, sk, msg, data);
    var r := DoCapture(cfg, t, start, sk, msg, data);
    GateTells(t, cfg.tgidOf(t), now, retval, c);
    var e := Gate(t, cfg.tgidOf(t), now, retval, c).value;
    r := DoAnswer(cfg, r, t, c, now, retval, e);
    r := DoOffer(cfg, r, t, e, full);
    assert Events(r.s.attempts)[0] == e;
    if sk.Some? {
      PackLossless(sk.value);
    }
    TracedIsRun(cfg, r);
    steps := Steps(r);
  }
}
