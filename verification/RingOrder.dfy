/** When the order of records in the ring is that of an atomic run. A sendmsg
    exit frees its map slot before it outputs, so another thread can use the
    slot and output first. While no new entry takes such a slot, the output
    order is that of an atomic run in which each sendmsg exit happens at its
    output. */
module RingOrder {
  import opened Words
  import opened Probes
  import opened AtomicRuns
  import opened Interleaving
  import opened Pairing

  /** A sendmsg exit that has removed its context and not yet output. */
  datatype Pending = Pending(send: AStep, c: ReqCtx)

  /** The atomic run so far, and the removals it has not caught up with. */
  datatype Late = Late(ls: seq<AStep>, pend: map<u32, Pending>)

  function CatchUp(cfg: Config, s: KState, st: KStep, r: Late): Late {
    if st.SendRemove? && PcOf(s, st.t).SendGot? then
      var pc, key := PcOf(s, st.t), cfg.tgidOf(st.t);
      var send := ASend(st.t, key, pc.now, pc.retval);
      if Gate(st.t, key, pc.now, pc.retval, pc.c).None? then r.(ls := r.ls + [send])
      else r.(pend := r.pend[st.t := Pending(send, pc.c)])
    else if st.Output? && st.t in r.pend then
      Late(r.ls + [r.pend[st.t].send], r.pend - {st.t})
    else
      r.(ls := r.ls + ListOf(Completes(cfg, s, st)))
  }

  ghost function LateRun(cfg: Config, steps: seq<KStep>): Late
    requires IsRun(cfg, steps)
  {
    if steps == [] then Late([], map[])
    else
      var n := |steps| - 1;
      CatchUp(cfg, After(cfg, steps[..n]), steps[n], LateRun(cfg, steps[..n]))
  }

  ghost function Fliers(pcs: map<u32, Pc>): set<u32> {
    set t | t in pcs && InFlight(pcs[t]) != []
  }

  /** A new entry does not live off a slot whose event is still to be output. */
  ghost predicate HasSlack(cfg: Config, s: KState, st: KStep) {
    st.RecvInsert? ==>
      || cfg.tgidOf(st.t) in s.ctx
      || |s.ctx| >= cfg.capacity
      || |s.ctx| + |Fliers(s.pcs)| < cfg.capacity
  }

  ghost predicate SlackRun(cfg: Config, steps: seq<KStep>)
    requires IsRun(cfg, steps)
  {
    steps == [] ||
    var n := |steps| - 1;
    SlackRun(cfg, steps[..n]) && HasSlack(cfg, After(cfg, steps[..n]), steps[n])
  }

  /** One pending removal, seen from both sides. */
  ghost predicate PendingOk(cfg: Config, s: KState, a: AState, t: u32, p: Pending) {
    var key, pc := cfg.tgidOf(t), PcOf(s, t);
    && InFlight(pc) != [] && Passes(cfg, t)
    && key !in s.ctx && key in a.ctx && a.ctx[key] == p.c
    && p.send.ASend? && p.send.pid == t && p.send.key == key
    && Gate(t, key, p.send.now, p.send.retval, p.c) == Some(pc.ev)
  }

  /** The atomic map is the real map plus the contexts of pending removals. */
  ghost predicate MapsAgree(cfg: Config, s: KState, a: AState, pend: map<u32, Pending>) {
    && (forall k | k in s.ctx :: k in a.ctx && a.ctx[k] == s.ctx[k])
    && (forall k | k in a.ctx && k !in s.ctx :: exists t :: t in pend && cfg.tgidOf(t) == k)
  }

  ghost predicate AllPending(cfg: Config, s: KState, a: AState, pend: map<u32, Pending>) {
    forall t | t in pend :: PendingOk(cfg, s, a, t, pend[t])
  }

  ghost predicate Follows(cfg: Config, s: KState, a: AState, pend: map<u32, Pending>) {
    && a.emitted == Events(s.attempts)
    && MapsAgree(cfg, s, a, pend)
    && pend.Keys == Fliers(s.pcs)
    && AllPending(cfg, s, a, pend)
  }

  // ----- Sizes -----

  ghost function KeysOf(cfg: Config, ts: set<u32>): set<u32> {
    set t | t in ts :: cfg.tgidOf(t)
  }

  lemma {:induction false} KeysNoMore(cfg: Config, ts: set<u32>)
    ensures |KeysOf(cfg, ts)| <= |ts|
    decreases |ts|
  {
    if ts != {} {
      var t :| t in ts;
      KeysNoMore(cfg, ts - {t});
      assert KeysOf(cfg, ts) == KeysOf(cfg, ts - {t}) + {cfg.tgidOf(t)};
    } else {
      assert KeysOf(cfg, ts) == {};
    }
  }

  lemma AtomicMapSize(cfg: Config, s: KState, a: AState, pend: map<u32, Pending>)
    requires MapsAgree(cfg, s, a, pend) && pend.Keys == Fliers(s.pcs)
    ensures |s.ctx| <= |a.ctx| <= |s.ctx| + |Fliers(s.pcs)|
  {
    KeysNoMore(cfg, pend.Keys);
    var held, extra := s.ctx.Keys, KeysOf(cfg, pend.Keys);
    SizeOf(held, a.ctx.Keys);
    SizeOf(a.ctx.Keys, held + extra);
    assert |held + extra| <= |held| + |extra|;
  }

  lemma FliersMove(pcs: map<u32, Pc>, t: u32, pc: Pc)
    ensures Fliers(pcs[t := pc]) == if InFlight(pc) != [] then Fliers(pcs) + {t} else Fliers(pcs) - {t}
  {
  }

  // ----- Steps -----

  ghost predicate Grounded(cfg: Config, s: KState, t: u32) {
    Passes(cfg, t) && InFlight(PcOf(s, t)) == []
  }

  /** No pending removal is under the key. */
  ghost predicate NonePending(cfg: Config, pend: map<u32, Pending>, key: u32) {
    forall t | t in pend :: cfg.tgidOf(t) != key
  }

  /** A thread that is not itself in flight shares its key with no pending one. */
  lemma KeyNotPending(cfg: Config, s: KState, a: AState, pend: map<u32, Pending>, t: u32)
    requires OneThreadPerKey(cfg) && Follows(cfg, s, a, pend) && Grounded(cfg, s, t)
    ensures t !in pend && NonePending(cfg, pend, cfg.tgidOf(t))
    ensures cfg.tgidOf(t) in a.ctx <==> cfg.tgidOf(t) in s.ctx
  {
    forall t' | t' in pend ensures cfg.tgidOf(t') != cfg.tgidOf(t) {
      assert PendingOk(cfg, s, a, t', pend[t']);
    }
  }

  /** The maps differ at one key at most. */
  ghost predicate SameBut(m: map<u32, ReqCtx>, m': map<u32, ReqCtx>, key: u32) {
    forall k | k != key :: (k in m' <==> k in m) && (k in m ==> m'[k] == m[k])
  }

  lemma MapChangesAt(m: map<u32, ReqCtx>, capacity: nat, key: u32, c: ReqCtx)
    ensures SameBut(m, BoundedInsert(m, capacity, key, c), key)
    ensures SameBut(m, m[key := c], key) && SameBut(m, m - {key}, key) && SameBut(m, m, key)
  {
  }

  /** Pending removals are not touched by what happens under another key. */
  lemma PendingsStay(cfg: Config, s: KState, s': KState, a: AState, a': AState, pend: map<u32, Pending>,
                     t: u32, pc: Pc)
    requires AllPending(cfg, s, a, pend) && t !in pend && NonePending(cfg, pend, cfg.tgidOf(t))
    requires SameBut(s.ctx, s'.ctx, cfg.tgidOf(t)) && SameBut(a.ctx, a'.ctx, cfg.tgidOf(t))
    requires s'.pcs == s.pcs[t := pc]
    ensures AllPending(cfg, s', a', pend)
  {
    forall u | u in pend ensures PendingOk(cfg, s', a', u, pend[u]) {
      assert PendingOk(cfg, s, a, u, pend[u]);
      assert PcOf(s', u) == PcOf(s, u);
    }
  }

  /** Without a borrowed slot both maps have room for a key, or neither has. */
  lemma SameRoom(cfg: Config, s: KState, a: AState, pend: map<u32, Pending>, key: u32)
    requires MapsAgree(cfg, s, a, pend) && pend.Keys == Fliers(s.pcs)
    requires key in a.ctx <==> key in s.ctx
    requires key in s.ctx || |s.ctx| >= cfg.capacity || |s.ctx| + |Fliers(s.pcs)| < cfg.capacity
    ensures key in a.ctx || |a.ctx| < cfg.capacity <==> key in s.ctx || |s.ctx| < cfg.capacity
  {
    AtomicMapSize(cfg, s, a, pend);
  }

  lemma InsertMapsAgree(cfg: Config, s: KState, s': KState, a: AState, a': AState,
                        pend: map<u32, Pending>, key: u32, c: ReqCtx)
    requires MapsAgree(cfg, s, a, pend) && (key in a.ctx <==> key in s.ctx)
    requires key in a.ctx || |a.ctx| < cfg.capacity <==> key in s.ctx || |s.ctx| < cfg.capacity
    requires s'.ctx == BoundedInsert(s.ctx, cfg.capacity, key, c)
    requires a'.ctx == BoundedInsert(a.ctx, cfg.capacity, key, c)
    ensures MapsAgree(cfg, s', a', pend)
  {
  }

  /** An entry that both maps take, or both refuse. */
  lemma InsertFollows(cfg: Config, s: KState, s': KState, a: AState, a': AState,
                      pend: map<u32, Pending>, t: u32, c: ReqCtx)
    requires OneThreadPerKey(cfg) && Follows(cfg, s, a, pend) && Grounded(cfg, s, t)
    requires || cfg.tgidOf(t) in s.ctx
             || |s.ctx| >= cfg.capacity
             || |s.ctx| + |Fliers(s.pcs)| < cfg.capacity
    requires s' == s.(pcs := s.pcs[t := Idle], ctx := BoundedInsert(s.ctx, cfg.capacity, cfg.tgidOf(t), c))
    requires a' == a.(ctx := BoundedInsert(a.ctx, cfg.capacity, cfg.tgidOf(t), c))
    ensures Follows(cfg, s', a', pend)
  {
    var key := cfg.tgidOf(t);
    KeyNotPending(cfg, s, a, pend, t);
    SameRoom(cfg, s, a, pend, key);
    InsertMapsAgree(cfg, s, s', a, a', pend, key, c);
    MapChangesAt(s.ctx, cfg.capacity, key, c);
    MapChangesAt(a.ctx, cfg.capacity, key, c);
    PendingsStay(cfg, s, s', a, a', pend, t, Idle);
    FliersMove(s.pcs, t, Idle);
  }

  lemma FollowsInsert(cfg: Config, s: KState, st: KStep, a: AState, pend: map<u32, Pending>)
    requires OneThreadPerKey(cfg) && KInv(cfg, s) && Enabled(cfg, s, st) && st.RecvInsert?
    requires Follows(cfg, s, a, pend) && HasSlack(cfg, s, st)
    ensures Follows(cfg, Apply(cfg, s, st), Do(cfg.capacity, a, Completes(cfg, s, st).value), pend)
  {
    var pc := PcOf(s, st.t);
    assert ThreadInv(cfg, s, st.t);
    InsertFollows(cfg, s, Apply(cfg, s, st), a, Do(cfg.capacity, a, Completes(cfg, s, st).value), pend,
                  st.t, RecvCtx(pc.now, pc.sk, pc.msg));
  }

  /** A write-back changes the same context in both maps. */
  lemma WriteFollows(cfg: Config, s: KState, s': KState, a: AState, a': AState, pend: map<u32, Pending>,
                     t: u32, c: ReqCtx)
    requires OneThreadPerKey(cfg) && Follows(cfg, s, a, pend) && Grounded(cfg, s, t)
    requires cfg.tgidOf(t) in s.ctx
    requires s' == s.(pcs := s.pcs[t := Idle], ctx := s.ctx[cfg.tgidOf(t) := c])
    requires a' == a.(ctx := a.ctx[cfg.tgidOf(t) := c])
    ensures Follows(cfg, s', a', pend)
  {
    KeyNotPending(cfg, s, a, pend, t);
    MapChangesAt(s.ctx, 0, cfg.tgidOf(t), c);
    MapChangesAt(a.ctx, 0, cfg.tgidOf(t), c);
    PendingsStay(cfg, s, s', a, a', pend, t, Idle);
    FliersMove(s.pcs, t, Idle);
  }

  lemma FollowsWrite(cfg: Config, s: KState, st: KStep, a: AState, pend: map<u32, Pending>)
    requires OneThreadPerKey(cfg) && KInv(cfg, s) && Enabled(cfg, s, st) && st.RetWrite?
    requires Follows(cfg, s, a, pend)
    ensures Follows(cfg, Apply(cfg, s, st), Do(cfg.capacity, a, Completes(cfg, s, st).value), pend)
  {
    var key := cfg.tgidOf(st.t);
    assert ThreadInv(cfg, s, st.t);
    assert a.ctx[key] == s.ctx[key];
    WriteFollows(cfg, s, Apply(cfg, s, st), a, Do(cfg.capacity, a, Completes(cfg, s, st).value), pend,
                 st.t, WriteBack(s.ctx[key], PcOf(s, st.t).data));
  }

  lemma RemoveMapsAgree(cfg: Config, s: KState, s': KState, a: AState, a': AState,
                        pend: map<u32, Pending>, key: u32)
    requires MapsAgree(cfg, s, a, pend) && s'.ctx == s.ctx - {key} && a'.ctx == a.ctx - {key}
    ensures MapsAgree(cfg, s', a', pend)
  {
  }

  /** A removal that the gate drops takes the key out of both maps. */
  lemma DropFollows(cfg: Config, s: KState, s': KState, a: AState, a': AState, pend: map<u32, Pending>, t: u32)
    requires OneThreadPerKey(cfg) && Follows(cfg, s, a, pend) && Grounded(cfg, s, t)
    requires s' == s.(pcs := s.pcs[t := Idle], ctx := s.ctx - {cfg.tgidOf(t)}, late := s.late + 1)
    requires a' == a.(ctx := a.ctx - {cfg.tgidOf(t)})
    ensures Follows(cfg, s', a', pend)
  {
    KeyNotPending(cfg, s, a, pend, t);
    RemoveMapsAgree(cfg, s, s', a, a', pend, cfg.tgidOf(t));
    MapChangesAt(s.ctx, 0, cfg.tgidOf(t), RecvCtx(0, None, NoMessage));
    MapChangesAt(a.ctx, 0, cfg.tgidOf(t), RecvCtx(0, None, NoMessage));
    PendingsStay(cfg, s, s', a, a', pend, t, Idle);
    FliersMove(s.pcs, t, Idle);
  }

  /** A removal that passes the gate becomes pending. */
  lemma KeepFollows(cfg: Config, s: KState, s': KState, a: AState, pend: map<u32, Pending>, t: u32,
                    ev: LatencyEvent, p: Pending)
    requires OneThreadPerKey(cfg) && Follows(cfg, s, a, pend) && Grounded(cfg, s, t)
    requires s' == s.(pcs := s.pcs[t := Built(ev)], ctx := s.ctx - {cfg.tgidOf(t)})
    requires cfg.tgidOf(t) in s.ctx && s.ctx[cfg.tgidOf(t)] == p.c
    requires p.send.ASend? && p.send.pid == t && p.send.key == cfg.tgidOf(t)
    requires Gate(t, cfg.tgidOf(t), p.send.now, p.send.retval, p.c) == Some(ev)
    ensures Follows(cfg, s', a, pend[t := p])
  {
    KeyNotPending(cfg, s, a, pend, t);
    KeepMapsAgree(cfg, s, s', a, pend, t, p);
    PendingsStay(cfg, s, s', a, a, pend, t, Built(ev));
    assert PendingOk(cfg, s', a, t, p);
    OneMorePending(cfg, s', a, pend, t, p);
    FliersMove(s.pcs, t, Built(ev));
    assert (pend[t := p]).Keys == pend.Keys + {t};
  }

  lemma OneMorePending(cfg: Config, s: KState, a: AState, pend: map<u32, Pending>, t: u32, p: Pending)
    requires AllPending(cfg, s, a, pend) && PendingOk(cfg, s, a, t, p)
    ensures AllPending(cfg, s, a, pend[t := p])
  {
  }

  lemma KeepMapsAgree(cfg: Config, s: KState, s': KState, a: AState, pend: map<u32, Pending>, t: u32, p: Pending)
    requires MapsAgree(cfg, s, a, pend) && s'.ctx == s.ctx - {cfg.tgidOf(t)}
    ensures MapsAgree(cfg, s', a, pend[t := p])
  {
    forall k | k in a.ctx && k !in s'.ctx ensures exists u :: u in pend[t := p] && cfg.tgidOf(u) == k {
      if k == cfg.tgidOf(t) {
        assert t in pend[t := p];
      } else {
        var u :| u in pend && cfg.tgidOf(u) == k;
        assert u in pend[t := p];
      }
    }
  }

  lemma FollowsRemove(cfg: Config, s: KState, st: KStep, a: AState, pend: map<u32, Pending>)
    requires OneThreadPerKey(cfg) && KInv(cfg, s) && Enabled(cfg, s, st) && st.SendRemove?
    requires Follows(cfg, s, a, pend)
    ensures var r := CatchUp(cfg, s, st, Late([], pend));
            Follows(cfg, Apply(cfg, s, st), if r.ls == [] then a else Do(cfg.capacity, a, r.ls[0]), r.pend)
  {
    var pc, key := PcOf(s, st.t), cfg.tgidOf(st.t);
    var send := ASend(st.t, key, pc.now, pc.retval);
    assert ThreadInv(cfg, s, st.t);
    match Gate(st.t, key, pc.now, pc.retval, pc.c)
    case None =>
      KeyNotPending(cfg, s, a, pend, st.t);
      assert Do(cfg.capacity, a, send) == a.(ctx := a.ctx - {key});
      DropFollows(cfg, s, Apply(cfg, s, st), a, Do(cfg.capacity, a, send), pend, st.t);
    case Some(ev) =>
      KeepFollows(cfg, s, Apply(cfg, s, st), a, pend, st.t, ev, Pending(send, pc.c));
  }

  /** The removal of `t` leaves the pending ones, and the atomic map loses its key. */
  lemma OneLessPending(cfg: Config, s: KState, s': KState, a: AState, a': AState, pend: map<u32, Pending>,
                       t: u32, pc: Pc)
    requires OneThreadPerKey(cfg) && AllPending(cfg, s, a, pend) && t in pend
    requires s'.ctx == s.ctx && s'.pcs == s.pcs[t := pc] && a'.ctx == a.ctx - {cfg.tgidOf(t)}
    ensures AllPending(cfg, s', a', pend - {t})
  {
    assert PendingOk(cfg, s, a, t, pend[t]);
    forall u | u in pend && u != t ensures PendingOk(cfg, s', a', u, pend[u]) {
      assert PendingOk(cfg, s, a, u, pend[u]);
      assert PcOf(s', u) == PcOf(s, u);
    }
  }

  lemma OutputMapsAgree(cfg: Config, s: KState, s': KState, a: AState, a': AState, pend: map<u32, Pending>, t: u32)
    requires MapsAgree(cfg, s, a, pend) && cfg.tgidOf(t) !in s.ctx
    requires s'.ctx == s.ctx && a'.ctx == a.ctx - {cfg.tgidOf(t)}
    ensures MapsAgree(cfg, s', a', pend - {t})
  {
    forall k | k in a'.ctx && k !in s'.ctx ensures exists u :: u in pend - {t} && cfg.tgidOf(u) == k {
      var u :| u in pend && cfg.tgidOf(u) == k;
      assert u in pend - {t};
    }
  }

  /** What the pending removal of an outputting thread does in the atomic run. */
  lemma PendingEmits(cfg: Config, s: KState, a: AState, pend: map<u32, Pending>, t: u32)
    requires AllPending(cfg, s, a, pend) && t in pend
    ensures cfg.tgidOf(t) !in s.ctx
    ensures Do(cfg.capacity, a, pend[t].send)
            == AState(a.ctx - {cfg.tgidOf(t)}, a.emitted + InFlight(PcOf(s, t)))
  {
    assert PendingOk(cfg, s, a, t, pend[t]);
  }

  lemma FollowsOutput(cfg: Config, s: KState, st: KStep, a: AState, pend: map<u32, Pending>)
    requires OneThreadPerKey(cfg) && Enabled(cfg, s, st) && st.Output?
    requires Follows(cfg, s, a, pend)
    ensures st.t in pend
    ensures Follows(cfg, Apply(cfg, s, st), Do(cfg.capacity, a, pend[st.t].send), pend - {st.t})
  {
    var s', t := Apply(cfg, s, st), st.t;
    assert t in Fliers(s.pcs);
    PendingEmits(cfg, s, a, pend, t);
    var a' := Do(cfg.capacity, a, pend[t].send);
    AttemptedStep(cfg, s, st);
    OutputMapsAgree(cfg, s, s', a, a', pend, t);
    OneLessPending(cfg, s, s', a, a', pend, t, Idle);
    FliersMove(s.pcs, t, Idle);
    assert (pend - {t}).Keys == pend.Keys - {t};
  }

  /** Fruitless lookups change nothing. */
  lemma FruitlessRet(capacity: nat, a: AState, pid: u32, key: u32)
    requires key in a.ctx ==> a.ctx[key].iovBase == 0
    ensures Do(capacity, a, ARet(pid, key, ZEROS)) == a
  {
  }

  lemma FruitlessSend(capacity: nat, a: AState, pid: u32, key: u32, now: u64, retval: i64)
    requires key !in a.ctx
    ensures Do(capacity, a, ASend(pid, key, now, retval)) == a
  {
    assert a.ctx - {key} == a.ctx && a.emitted + [] == a.emitted;
  }

  lemma FollowsLookup(cfg: Config, s: KState, st: KStep, a: AState, pend: map<u32, Pending>)
    requires OneThreadPerKey(cfg) && KInv(cfg, s) && Enabled(cfg, s, st) && Follows(cfg, s, a, pend)
    requires st.RetGet? || st.SendGet?
    ensures Follow(cfg.capacity, a, Completes(cfg, s, st)) == a
  {
    var pc, key := PcOf(s, st.t), cfg.tgidOf(st.t);
    assert ThreadInv(cfg, s, st.t);
    KeyNotPending(cfg, s, a, pend, st.t);
    if st.RetGet? {
      if key !in s.ctx || s.ctx[key].iovBase == 0 {
        FruitlessRet(cfg.capacity, a, st.t, key);
      }
    } else if key !in s.ctx {
      FruitlessSend(cfg.capacity, a, st.t, key, pc.now, pc.retval);
    }
  }

  lemma SameFliers(cfg: Config, s: KState, st: KStep)
    requires Enabled(cfg, s, st) && !st.SendRemove? && !st.Output?
    ensures Fliers(Apply(cfg, s, st).pcs) == Fliers(s.pcs)
  {
    if !st.Consume? {
      CarriedStep(cfg, s, st, st.t);
      FliersMove(s.pcs, st.t, PcOf(Apply(cfg, s, st), st.t));
    }
  }

  /** Steps that touch neither the map nor the in-flight events. */
  lemma FollowsElse(cfg: Config, s: KState, st: KStep, a: AState, pend: map<u32, Pending>)
    requires Enabled(cfg, s, st) && Follows(cfg, s, a, pend)
    requires !st.RecvInsert? && !st.RetWrite? && !st.SendRemove? && !st.Output?
    ensures Follows(cfg, Apply(cfg, s, st), a, pend)
  {
    var s' := Apply(cfg, s, st);
    assert s'.ctx == s.ctx && s'.attempts == s.attempts;
    SameFliers(cfg, s, st);
    forall t | t in pend ensures PendingOk(cfg, s', a, t, pend[t]) {
      assert PendingOk(cfg, s, a, t, pend[t]);
      SameEvent(cfg, s, st, t);
    }
  }

  lemma SameEvent(cfg: Config, s: KState, st: KStep, t: u32)
    requires Enabled(cfg, s, st) && InFlight(PcOf(s, t)) != [] && !(st.Output? && st.t == t)
    ensures InFlight(PcOf(Apply(cfg, s, st), t)) == InFlight(PcOf(s, t))
  {
  }

  lemma CatchUpStep(cfg: Config, s: KState, st: KStep, r: Late)
    requires OneThreadPerKey(cfg) && KInv(cfg, s) && Enabled(cfg, s, st) && HasSlack(cfg, s, st)
    requires Follows(cfg, s, Exec(cfg.capacity, r.ls), r.pend)
    ensures var r' := CatchUp(cfg, s, st, r);
            Follows(cfg, Apply(cfg, s, st), Exec(cfg.capacity, r'.ls), r'.pend)
  {
    var a, c := Exec(cfg.capacity, r.ls), Completes(cfg, s, st);
    if st.RecvInsert? {
      FollowsInsert(cfg, s, st, a, r.pend);
      ExecAppend(cfg.capacity, r.ls, c.value);
    } else if st.RetWrite? {
      FollowsWrite(cfg, s, st, a, r.pend);
      ExecAppend(cfg.capacity, r.ls, c.value);
    } else if st.SendRemove? {
      FollowsRemove(cfg, s, st, a, r.pend);
      ExecAppend(cfg.capacity, r.ls, c.value);
    } else if st.Output? {
      FollowsOutput(cfg, s, st, a, r.pend);
      ExecAppend(cfg.capacity, r.ls, r.pend[st.t].send);
    } else {
      FollowsElse(cfg, s, st, a, r.pend);
      if st.RetGet? || st.SendGet? {
        FollowsLookup(cfg, s, st, a, r.pend);
      }
      if c.Some? {
        ExecAppend(cfg.capacity, r.ls, c.value);
      } else {
        assert r.ls + [] == r.ls;
      }
    }
  }

  /** With one thread per key and no borrowed slots, the output attempts of all
      threads together are, in order, the emissions of an atomic run. */
  lemma {:induction false} OutputOrderIsAtomic(cfg: Config, steps: seq<KStep>)
    requires OneThreadPerKey(cfg) && IsRun(cfg, steps) && SlackRun(cfg, steps)
    ensures var r, s := LateRun(cfg, steps), After(cfg, steps);
            Follows(cfg, s, Exec(cfg.capacity, r.ls), r.pend)
    ensures Exec(cfg.capacity, LateRun(cfg, steps).ls).emitted == Events(After(cfg, steps).attempts)
  {
    if steps == [] {
      assert Exec(cfg.capacity, []) == AState(map[], []);
    } else {
      var n := |steps| - 1;
      OutputOrderIsAtomic(cfg, steps[..n]);
      RefinesAtomic(cfg, steps[..n]);
      CatchUpStep(cfg, After(cfg, steps[..n]), steps[n], LateRun(cfg, steps[..n]));
    }
  }

  // ----- Orders that keep each thread's own -----

  /** Each thread runs the same handlers in the same order. */
  ghost predicate SameHandlers(ls: seq<AStep>, ls': seq<AStep>) {
    forall t: u32 :: ByThread(ls, t) == ByThread(ls', t)
  }

  /** Some order of the run's handlers that keeps each thread's own order emits
      the run's outputs first, in the order in which the run made them. */
  ghost predicate Explained(cfg: Config, steps: seq<KStep>)
    requires IsRun(cfg, steps)
  {
    exists ls ::
      && SameHandlers(ls, Linearize(cfg, steps))
      && Events(After(cfg, steps).attempts) <= Exec(cfg.capacity, ls).emitted
  }

  function Owed(pend: map<u32, Pending>, t: u32): seq<AStep> {
    if t in pend then [pend[t].send] else []
  }

  /** The atomic run has each thread's handlers but the removals still pending. */
  ghost predicate CaughtUp(r: Late, lin: seq<AStep>) {
    forall t: u32 :: ByThread(r.ls, t) + Owed(r.pend, t) == ByThread(lin, t)
  }

  lemma CaughtUpBoth(r: Late, lin: seq<AStep>, st: AStep)
    requires CaughtUp(r, lin) && st.pid !in r.pend
    ensures CaughtUp(Late(r.ls + [st], r.pend), lin + [st])
  {
    forall t: u32 ensures ByThread(r.ls + [st], t) + Owed(r.pend, t) == ByThread(lin + [st], t) {
      assert ByThread(r.ls, t) + Owed(r.pend, t) == ByThread(lin, t);
      ByThreadAppend(lin, st, t);
      ByThreadAppend(r.ls, st, t);
      if t == st.pid {
        assert Owed(r.pend, t) == [] && ByThread(r.ls, t) == ByThread(lin, t);
      }
    }
  }

  lemma CaughtUpLater(r: Late, lin: seq<AStep>, t: u32, p: Pending)
    requires CaughtUp(r, lin) && t !in r.pend && p.send.pid == t
    ensures CaughtUp(Late(r.ls, r.pend[t := p]), lin + [p.send])
  {
    forall u: u32 ensures ByThread(r.ls, u) + Owed(r.pend[t := p], u) == ByThread(lin + [p.send], u) {
      assert ByThread(r.ls, u) + Owed(r.pend, u) == ByThread(lin, u);
      ByThreadAppend(lin, p.send, u);
    }
  }

  lemma CaughtUpNow(r: Late, lin: seq<AStep>, t: u32)
    requires CaughtUp(r, lin) && t in r.pend && r.pend[t].send.pid == t
    ensures CaughtUp(Late(r.ls + [r.pend[t].send], r.pend - {t}), lin)
  {
    forall u: u32 ensures ByThread(r.ls + [r.pend[t].send], u) + Owed(r.pend - {t}, u) == ByThread(lin, u) {
      assert ByThread(r.ls, u) + Owed(r.pend, u) == ByThread(lin, u);
      ByThreadAppend(r.ls, r.pend[t].send, u);
      if u == t {
        assert Owed(r.pend, t) == [r.pend[t].send] && Owed(r.pend - {t}, t) == [];
      } else {
        assert Owed(r.pend - {t}, u) == Owed(r.pend, u);
        assert ByThread(r.ls + [r.pend[t].send], u) == ByThread(r.ls, u);
      }
    }
  }

  /** The handler that a step completes is that of a thread with nothing pending. */
  lemma CompletedIsGrounded(cfg: Config, s: KState, st: KStep)
    requires Enabled(cfg, s, st) && Completes(cfg, s, st).Some?
    ensures !st.Consume? && Completes(cfg, s, st).value.pid == st.t && st.t !in Fliers(s.pcs)
  {
  }

  /** Each pending removal is under its own thread. */
  ghost predicate OwnSends(pend: map<u32, Pending>) {
    forall t | t in pend :: pend[t].send.pid == t
  }

  lemma PendingIsOwn(cfg: Config, s: KState, a: AState, pend: map<u32, Pending>)
    requires AllPending(cfg, s, a, pend)
    ensures OwnSends(pend)
  {
    forall t | t in pend ensures pend[t].send.pid == t {
      assert PendingOk(cfg, s, a, t, pend[t]);
    }
  }

  lemma CatchUpKeeps(cfg: Config, s: KState, st: KStep, r: Late, lin: seq<AStep>)
    requires Enabled(cfg, s, st) && r.pend.Keys == Fliers(s.pcs) && CaughtUp(r, lin)
    requires OwnSends(r.pend)
    ensures CaughtUp(CatchUp(cfg, s, st, r), lin + ListOf(Completes(cfg, s, st)))
  {
    var c := Completes(cfg, s, st);
    if c.Some? {
      CompletedIsGrounded(cfg, s, st);
      if st.SendRemove? && st.t in CatchUp(cfg, s, st, r).pend {
        CaughtUpLater(r, lin, st.t, CatchUp(cfg, s, st, r).pend[st.t]);
      } else {
        CaughtUpBoth(r, lin, c.value);
      }
    } else {
      assert lin + [] == lin && r.ls + [] == r.ls;
      if st.Output? {
        assert st.t in Fliers(s.pcs);
        CaughtUpNow(r, lin, st.t);
      }
    }
  }

  lemma {:induction false} LateRunCatchesUp(cfg: Config, steps: seq<KStep>)
    requires OneThreadPerKey(cfg) && IsRun(cfg, steps) && SlackRun(cfg, steps)
    ensures CaughtUp(LateRun(cfg, steps), Linearize(cfg, steps))
  {
    if steps != [] {
      var n := |steps| - 1;
      LateRunCatchesUp(cfg, steps[..n]);
      OutputOrderIsAtomic(cfg, steps[..n]);
      RefinesAtomic(cfg, steps[..n]);
      var s, r := After(cfg, steps[..n]), LateRun(cfg, steps[..n]);
      PendingIsOwn(cfg, s, Exec(cfg.capacity, r.ls), r.pend);
      CatchUpKeeps(cfg, s, steps[n], r, Linearize(cfg, steps[..n]));
    }
  }

  /** The handlers of the list are the pending removals. */
  ghost predicate Lists(ls: seq<AStep>, pend: map<u32, Pending>) {
    forall t: u32 :: ByThread(ls, t) == Owed(pend, t)
  }

  lemma OneMoreListed(ls: seq<AStep>, pend: map<u32, Pending>, u: u32)
    requires OwnSends(pend) && u in pend && Lists(ls, pend - {u})
    ensures Lists(ls + [pend[u].send], pend)
  {
    forall t: u32 ensures ByThread(ls + [pend[u].send], t) == Owed(pend, t) {
      ByThreadAppend(ls, pend[u].send, t);
      assert ByThread(ls, t) == Owed(pend - {u}, t);
    }
  }

  /** The pending removals, in some order. */
  lemma {:induction false} Drain(pend: map<u32, Pending>) returns (ls: seq<AStep>)
    requires OwnSends(pend)
    ensures Lists(ls, pend)
    decreases |pend|
  {
    if pend == map[] {
      ls := [];
    } else {
      var u :| u in pend;
      var rest := Drain(pend - {u});
      OneMoreListed(rest, pend, u);
      ls := rest + [pend[u].send];
    }
  }

  lemma DoGrows(capacity: nat, a: AState, st: AStep)
    ensures a.emitted <= Do(capacity, a, st).emitted
  {
  }

  /** What is emitted stays emitted. */
  lemma {:induction false} EmittedGrows(capacity: nat, ls: seq<AStep>, k: nat)
    requires k <= |ls|
    ensures Exec(capacity, ls[..k]).emitted <= Exec(capacity, ls).emitted
  {
    if k == |ls| {
      assert ls[..k] == ls;
    } else {
      var n := |ls| - 1;
      EmittedGrows(capacity, ls[..n], k);
      assert ls[..n][..k] == ls[..k];
      DoGrows(capacity, Exec(capacity, ls[..n]), ls[n]);
    }
  }

  lemma SlackExplains(cfg: Config, steps: seq<KStep>)
    requires OneThreadPerKey(cfg) && IsRun(cfg, steps) && SlackRun(cfg, steps)
    ensures Explained(cfg, steps)
  {
    var r, lin := LateRun(cfg, steps), Linearize(cfg, steps);
    OutputOrderIsAtomic(cfg, steps);
    LateRunCatchesUp(cfg, steps);
    PendingIsOwn(cfg, After(cfg, steps), Exec(cfg.capacity, r.ls), r.pend);
    var rest := Drain(r.pend);
    EmittedGrows(cfg.capacity, r.ls + rest, |r.ls|);
    assert (r.ls + rest)[..|r.ls|] == r.ls;
    forall t: u32 ensures ByThread(r.ls + rest, t) == ByThread(lin, t) {
      ByThreadConcat(r.ls, rest, t);
    }
    assert SameHandlers(r.ls + rest, lin);
  }

  // ----- A map with room for every key -----

  /** The keys of the threads that exist and pass the filter. */
  ghost function UsedKeys(cfg: Config): set<u32> {
    KeysOf(cfg, set t | t in cfg.threads && Passes(cfg, t))
  }

  /** A non-zero filter value leaves at most one key. */
  lemma TargetUsesOneKey(cfg: Config)
    requires cfg.target != 0
    ensures |UsedKeys(cfg)| <= 1
  {
    SizeOf(UsedKeys(cfg), {cfg.tgidOf(cfg.target)});
  }

  /** Only used keys are ever in the map. */
  lemma StoredKeysAreUsed(cfg: Config, steps: seq<KStep>)
    requires OneThreadPerKey(cfg) && IsRun(cfg, steps)
    ensures After(cfg, steps).ctx.Keys <= UsedKeys(cfg)
  {
    RefinesAtomic(cfg, steps);
    var ls := Linearize(cfg, steps);
    forall k | k in After(cfg, steps).ctx ensures k in UsedKeys(cfg) {
      var i := StoredIsLatest(cfg.capacity, ls, k);
      HandlersOfTargets(cfg, steps, i);
    }
  }

  lemma KeysOfMore(cfg: Config, ts: set<u32>, t: u32)
    ensures KeysOf(cfg, ts + {t}) == KeysOf(cfg, ts) + {cfg.tgidOf(t)}
  {
  }

  /** Threads with different keys have as many keys. */
  lemma {:induction false} KeysAsMany(cfg: Config, ts: set<u32>)
    requires forall t, t' | t in ts && t' in ts && cfg.tgidOf(t) == cfg.tgidOf(t') :: t == t'
    ensures |KeysOf(cfg, ts)| == |ts|
    decreases |ts|
  {
    if ts != {} {
      var t :| t in ts;
      KeysAsMany(cfg, ts - {t});
      assert ts == ts - {t} + {t};
      KeysOfMore(cfg, ts - {t}, t);
      assert cfg.tgidOf(t) !in KeysOf(cfg, ts - {t});
    } else {
      assert KeysOf(cfg, ts) == {};
    }
  }

  lemma ThreeParts(a: set<u32>, b: set<u32>, k: u32, all: set<u32>)
    requires a <= all && b <= all && k in all && a !! b && k !in a && k !in b
    ensures |a| + |b| + 1 <= |all|
  {
    assert |a + b + {k}| == |a| + |b| + 1;
    SizeOf(a + b + {k}, all);
  }

  lemma FitsStep(cfg: Config, steps: seq<KStep>, st: KStep)
    requires OneThreadPerKey(cfg) && IsRun(cfg, steps) && SlackRun(cfg, steps)
    requires Enabled(cfg, After(cfg, steps), st) && |UsedKeys(cfg)| <= cfg.capacity
    ensures HasSlack(cfg, After(cfg, steps), st)
  {
    if st.RecvInsert? && cfg.tgidOf(st.t) !in After(cfg, steps).ctx {
      StoredKeysAreUsed(cfg, steps);
      OutputOrderIsAtomic(cfg, steps);
      RefinesAtomic(cfg, steps);
      RoomForOneMore(cfg, After(cfg, steps), Exec(cfg.capacity, LateRun(cfg, steps).ls),
                     LateRun(cfg, steps).pend, st.t);
    }
  }

  lemma RoomForOneMore(cfg: Config, s: KState, a: AState, pend: map<u32, Pending>, t: u32)
    requires OneThreadPerKey(cfg) && KInv(cfg, s) && Follows(cfg, s, a, pend)
    requires PcOf(s, t).RecvReady? && cfg.tgidOf(t) !in s.ctx && s.ctx.Keys <= UsedKeys(cfg)
    ensures |s.ctx| + |Fliers(s.pcs)| + 1 <= |UsedKeys(cfg)|
  {
    var fs := Fliers(s.pcs);
    assert ThreadInv(cfg, s, t);
    KeyNotPending(cfg, s, a, pend, t);
    forall u | u in fs ensures Passes(cfg, u) && cfg.tgidOf(u) !in s.ctx && cfg.tgidOf(u) in UsedKeys(cfg) {
      assert PendingOk(cfg, s, a, u, pend[u]);
    }
    KeysAsMany(cfg, fs);
    assert forall k | k in KeysOf(cfg, fs) :: k in UsedKeys(cfg) && k !in s.ctx;
    assert cfg.tgidOf(t) in UsedKeys(cfg) && cfg.tgidOf(t) !in KeysOf(cfg, fs);
    ThreeParts(s.ctx.Keys, KeysOf(cfg, fs), cfg.tgidOf(t), UsedKeys(cfg));
  }

  /** While the keys in use fit in the map, no entry ever borrows a slot. */
  lemma {:induction false} FitsKeepsSlack(cfg: Config, steps: seq<KStep>)
    requires OneThreadPerKey(cfg) && IsRun(cfg, steps) && |UsedKeys(cfg)| <= cfg.capacity
    ensures SlackRun(cfg, steps)
  {
    if steps != [] {
      var n := |steps| - 1;
      FitsKeepsSlack(cfg, steps[..n]);
      FitsStep(cfg, steps[..n], steps[n]);
    }
  }
}
