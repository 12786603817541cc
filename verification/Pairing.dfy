/** Events and requests correspond one to one: on every interleaving each output
    has an entry and an exit of its own, if and only if at most one thread runs
    under any map key. */
module Pairing {
  import opened Words
  import opened Probes
  import opened AtomicRuns
  import opened Interleaving
  import opened Stories
  import opened Outputs
  import opened Traces

  /** Positions of a recvmsg entry and of a sendmsg exit in a history. */
  datatype Pair = Pair(entry: nat, exit: nat)

  /** `f` gives every event, by its place in `es`, the request it reports; two
      events of one key report requests that follow each other. */
  ghost predicate Matching(ls: seq<AStep>, es: seq<LatencyEvent>, f: seq<Pair>) {
    && |f| == |es|
    && (forall m | 0 <= m < |es| :: Paired(ls, f[m].entry, f[m].exit, es[m]))
    && (forall m, m' | 0 <= m < m' < |es| && es[m].tid == es[m'].tid ::
          f[m].entry < f[m].exit < f[m'].entry < f[m'].exit)
  }

  /** The latencies are the true times between the two clock readings. */
  ghost predicate TrueTimes(ls: seq<AStep>, es: seq<LatencyEvent>, f: seq<Pair>)
    requires Matching(ls, es, f)
  {
    forall m | 0 <= m < |es| ::
      Paired(ls, f[m].entry, f[m].exit, es[m]) && es[m].latencyNs == ls[f[m].exit].now - ls[f[m].entry].now
  }

  ghost predicate PairsOneToOne(ls: seq<AStep>, es: seq<LatencyEvent>) {
    exists f :: Matching(ls, es, f)
  }

  /** No entry is reported by two outputs, whatever their keys, and no exit
      makes two. */
  lemma NothingReportedTwice(ls: seq<AStep>, es: seq<LatencyEvent>, f: seq<Pair>, m: nat, m': nat)
    requires Matching(ls, es, f) && m < m' < |es|
    ensures f[m].entry != f[m'].entry && f[m].exit != f[m'].exit
  {
    assert Paired(ls, f[m].entry, f[m].exit, es[m]) && Paired(ls, f[m'].entry, f[m'].exit, es[m']);
  }

  // ----- The emitting exits of one thread -----

  /** Positions of the exits of thread `t` that emit. */
  function Emitters(capacity: nat, ls: seq<AStep>, t: u32): seq<nat> {
    if ls == [] then []
    else
      var n := |ls| - 1;
      Emitters(capacity, ls[..n], t) + (if ls[n].pid == t && Emits(capacity, ls, n).Some? then [n] else [])
  }

  lemma EmitsInPrefix(capacity: nat, ls: seq<AStep>, n: nat, p: nat)
    requires p < n <= |ls|
    ensures Emits(capacity, ls[..n], p) == Emits(capacity, ls, p)
  {
    assert ls[..n][..p] == ls[..p];
  }

  /** They are in order, and the r-th of them emits the thread's r-th event. */
  lemma {:induction false} EmittersMatch(capacity: nat, ls: seq<AStep>, t: u32)
    ensures var ps, es := Emitters(capacity, ls, t), OfThread(Exec(capacity, ls).emitted, t);
            && |ps| == |es|
            && (forall r | 0 <= r < |ps| :: ps[r] < |ls| && Emits(capacity, ls, ps[r]) == Some(es[r]))
            && (forall r, r' | 0 <= r < r' < |ps| :: ps[r] < ps[r'])
  {
    if ls != [] {
      var n := |ls| - 1;
      var ps := Emitters(capacity, ls[..n], t);
      EmittersMatch(capacity, ls[..n], t);
      forall r | 0 <= r < |ps| ensures Emits(capacity, ls, ps[r]) == Emits(capacity, ls[..n], ps[r]) {
        EmitsInPrefix(capacity, ls, n, ps[r]);
      }
      LastEmission(capacity, ls, t);
    }
  }

  lemma LastEmission(capacity: nat, ls: seq<AStep>, t: u32)
    requires ls != []
    ensures var n := |ls| - 1;
            var before, e := Exec(capacity, ls[..n]).emitted, Emits(capacity, ls, n);
            && Exec(capacity, ls).emitted == before + ListOf(e)
            && OfThread(Exec(capacity, ls).emitted, t)
               == OfThread(before, t) + (if ls[n].pid == t then ListOf(e) else [])
  {
    var n := |ls| - 1;
    var before, e := Exec(capacity, ls[..n]).emitted, Emits(capacity, ls, n);
    if e.Some? {
      OfThreadAppend(before, e.value, t);
    } else {
      assert before + [] == before;
    }
  }

  // ----- Places among the events of one thread -----

  function Rank(es: seq<LatencyEvent>, m: nat, t: u32): nat
    requires m <= |es|
  {
    |OfThread(es[..m], t)|
  }

  lemma {:induction false} RankGrows(es: seq<LatencyEvent>, m: nat, n: nat, t: u32)
    requires m <= n <= |es|
    ensures OfThread(es[..m], t) <= OfThread(es[..n], t)
    decreases n - m
  {
    if m < n {
      RankGrows(es, m, n - 1, t);
      assert es[..n] == es[..n - 1] + [es[n - 1]];
      OfThreadAppend(es[..n - 1], es[n - 1], t);
    }
  }

  /** An event stands in its thread's list at its rank; a later one, later. */
  lemma RankAt(es: seq<LatencyEvent>, m: nat)
    requires m < |es|
    ensures var t := es[m].pid;
            && Rank(es, m, t) < |OfThread(es, t)| && OfThread(es, t)[Rank(es, m, t)] == es[m]
            && forall m' | m < m' <= |es| :: Rank(es, m, t) < Rank(es, m', t)
  {
    var t := es[m].pid;
    assert es[..m + 1] == es[..m] + [es[m]] && es[..|es|] == es;
    OfThreadAppend(es[..m], es[m], t);
    RankGrows(es, m + 1, |es|, t);
    forall m' | m < m' <= |es| ensures Rank(es, m, t) < Rank(es, m', t) {
      RankGrows(es, m + 1, m', t);
    }
  }

  // ----- Every interleaving pairs one to one -----

  lemma CompletesPasses(cfg: Config, s: KState, st: KStep)
    requires KInv(cfg, s) && Enabled(cfg, s, st)
    ensures match Completes(cfg, s, st)
            case Some(h) => Passes(cfg, h.pid) && h.key == cfg.tgidOf(h.pid)
            case None => true
  {
    if !st.Consume? {
      assert ThreadInv(cfg, s, st.t);
    }
  }

  /** The handlers of the history are those of threads that pass the filter,
      under the keys of their processes. */
  lemma {:induction false} HandlersOfTargets(cfg: Config, steps: seq<KStep>, j: nat)
    requires OneThreadPerKey(cfg) && IsRun(cfg, steps) && j < |Linearize(cfg, steps)|
    ensures var h := Linearize(cfg, steps)[j]; Passes(cfg, h.pid) && h.key == cfg.tgidOf(h.pid)
  {
    var n := |steps| - 1;
    var s, before := After(cfg, steps[..n]), Linearize(cfg, steps[..n]);
    if j < |before| {
      HandlersOfTargets(cfg, steps[..n], j);
    } else {
      RefinesAtomic(cfg, steps[..n]);
      CompletesPasses(cfg, s, steps[n]);
    }
  }

  /** The exit of the history that made the m-th output. */
  ghost function ExitOf(cfg: Config, steps: seq<KStep>, m: nat): nat
    requires OneThreadPerKey(cfg) && IsRun(cfg, steps) && m < |After(cfg, steps).attempts|
    ensures ExitOf(cfg, steps, m) < |Linearize(cfg, steps)|
    ensures Emits(cfg.capacity, Linearize(cfg, steps), ExitOf(cfg, steps, m))
            == Some(After(cfg, steps).attempts[m].ev)
  {
    var es, ls := Events(After(cfg, steps).attempts), Linearize(cfg, steps);
    var t := es[m].pid;
    RefinesAtomic(cfg, steps);
    EmittersMatch(cfg.capacity, ls, t);
    RankAt(es, m);
    assert OfThread(Exec(cfg.capacity, ls).emitted, t)
           == OfThread(es, t) + InFlight(PcOf(After(cfg, steps), t));
    Emitters(cfg.capacity, ls, t)[Rank(es, m, t)]
  }

  /** A later output of the same thread was made by a later exit. */
  lemma ExitsInOrder(cfg: Config, steps: seq<KStep>, m: nat, m': nat)
    requires OneThreadPerKey(cfg) && IsRun(cfg, steps) && m < m' < |After(cfg, steps).attempts|
    requires After(cfg, steps).attempts[m].ev.pid == After(cfg, steps).attempts[m'].ev.pid
    ensures ExitOf(cfg, steps, m) < ExitOf(cfg, steps, m')
  {
    var es, ls := Events(After(cfg, steps).attempts), Linearize(cfg, steps);
    var t := es[m].pid;
    RefinesAtomic(cfg, steps);
    EmittersMatch(cfg.capacity, ls, t);
    RankAt(es, m);
    RankAt(es, m');
    assert OfThread(Exec(cfg.capacity, ls).emitted, t)
           == OfThread(es, t) + InFlight(PcOf(After(cfg, steps), t));
  }

  /** With one thread per key, outputs with one key are of one thread. */
  lemma SameKeySameThread(cfg: Config, steps: seq<KStep>, m: nat, m': nat)
    requires OneThreadPerKey(cfg) && IsRun(cfg, steps)
    requires m < |After(cfg, steps).attempts| && m' < |After(cfg, steps).attempts|
    requires After(cfg, steps).attempts[m].ev.tid == After(cfg, steps).attempts[m'].ev.tid
    ensures After(cfg, steps).attempts[m].ev.pid == After(cfg, steps).attempts[m'].ev.pid
  {
    HandlersOfTargets(cfg, steps, ExitOf(cfg, steps, m));
    HandlersOfTargets(cfg, steps, ExitOf(cfg, steps, m'));
  }

  /** `p` is the request that the m-th output reports, with its true latency. */
  ghost predicate IsRequestOf(cfg: Config, steps: seq<KStep>, m: nat, p: Pair)
    requires OneThreadPerKey(cfg) && IsRun(cfg, steps) && m < |After(cfg, steps).attempts|
  {
    var ls, e := Linearize(cfg, steps), After(cfg, steps).attempts[m].ev;
    && p.exit == ExitOf(cfg, steps, m)
    && Paired(ls, p.entry, p.exit, e) && e.latencyNs == ls[p.exit].now - ls[p.entry].now
  }

  lemma RequestOf(cfg: Config, steps: seq<KStep>, m: nat) returns (p: Pair)
    requires OneThreadPerKey(cfg) && IsRun(cfg, steps) && m < |After(cfg, steps).attempts|
    ensures IsRequestOf(cfg, steps, m, p)
  {
    var ls, j := Linearize(cfg, steps), ExitOf(cfg, steps, m);
    var i := EmissionPaired(cfg.capacity, ls, j);
    ClocksInOrder(cfg, steps, j);
    p := Pair(i, j);
  }

  lemma RequestsInOrder(cfg: Config, steps: seq<KStep>, m: nat, m': nat, p: Pair, p': Pair)
    requires OneThreadPerKey(cfg) && IsRun(cfg, steps) && m < m' < |After(cfg, steps).attempts|
    requires After(cfg, steps).attempts[m].ev.tid == After(cfg, steps).attempts[m'].ev.tid
    requires IsRequestOf(cfg, steps, m, p) && IsRequestOf(cfg, steps, m', p')
    ensures p.entry < p.exit < p'.entry < p'.exit
  {
    SameKeySameThread(cfg, steps, m, m');
    ExitsInOrder(cfg, steps, m, m');
    PairingOneToOne(Linearize(cfg, steps), p.entry, p.exit, After(cfg, steps).attempts[m].ev,
                    p'.entry, p'.exit, After(cfg, steps).attempts[m'].ev);
  }

  lemma AllRequests(cfg: Config, steps: seq<KStep>) returns (f: seq<Pair>)
    requires OneThreadPerKey(cfg) && IsRun(cfg, steps)
    ensures |f| == |After(cfg, steps).attempts|
    ensures forall m | 0 <= m < |f| :: IsRequestOf(cfg, steps, m, f[m])
  {
    f := [];
    while |f| < |After(cfg, steps).attempts|
      invariant |f| <= |After(cfg, steps).attempts|
      invariant forall m | 0 <= m < |f| :: IsRequestOf(cfg, steps, m, f[m])
    {
      var p := RequestOf(cfg, steps, |f|);
      f := f + [p];
    }
  }

  /** On every interleaving, with one thread per key, the outputs have requests
      of their own, in the order of the outputs for each key, and report the
      true times between their clock readings: in the history of whole handlers
      (`f`), and in the steps of the run itself (`g`). */
  lemma AttemptsMatch(cfg: Config, steps: seq<KStep>) returns (f: seq<Pair>, g: seq<Places>)
    requires OneThreadPerKey(cfg) && IsRun(cfg, steps)
    ensures Matching(Linearize(cfg, steps), Events(After(cfg, steps).attempts), f)
    ensures TrueTimes(Linearize(cfg, steps), Events(After(cfg, steps).attempts), f)
    ensures StepMatching(cfg, steps, Events(After(cfg, steps).attempts), g)
    ensures forall m | 0 <= m < |g| :: After(cfg, steps).attempts[m].ok <==> !steps[g[m].output].full
  {
    f := RequestsMatch(cfg, steps);
    g := StepsMatch(cfg, steps);
  }

  lemma RequestsMatch(cfg: Config, steps: seq<KStep>) returns (f: seq<Pair>)
    requires OneThreadPerKey(cfg) && IsRun(cfg, steps)
    ensures Matching(Linearize(cfg, steps), Events(After(cfg, steps).attempts), f)
    ensures TrueTimes(Linearize(cfg, steps), Events(After(cfg, steps).attempts), f)
  {
    var attempts := After(cfg, steps).attempts;
    f := AllRequests(cfg, steps);
    forall m, m' | 0 <= m < m' < |f| && attempts[m].ev.tid == attempts[m'].ev.tid
      ensures f[m].entry < f[m].exit < f[m'].entry < f[m'].exit
    {
      RequestsInOrder(cfg, steps, m, m', f[m], f[m']);
    }
    AllReported(cfg, steps, f);
  }

  lemma AllReported(cfg: Config, steps: seq<KStep>, f: seq<Pair>)
    requires OneThreadPerKey(cfg) && IsRun(cfg, steps) && |f| == |After(cfg, steps).attempts|
    requires forall m | 0 <= m < |f| :: IsRequestOf(cfg, steps, m, f[m])
    requires var attempts := After(cfg, steps).attempts;
             forall m, m' | 0 <= m < m' < |f| && attempts[m].ev.tid == attempts[m'].ev.tid ::
               f[m].entry < f[m].exit < f[m'].entry < f[m'].exit
    ensures Matching(Linearize(cfg, steps), Events(After(cfg, steps).attempts), f)
    ensures TrueTimes(Linearize(cfg, steps), Events(After(cfg, steps).attempts), f)
  {
    var ls, es := Linearize(cfg, steps), Events(After(cfg, steps).attempts);
    forall m | 0 <= m < |es|
      ensures Paired(ls, f[m].entry, f[m].exit, es[m]) && es[m].latencyNs == ls[f[m].exit].now - ls[f[m].entry].now
    {
      assert IsRequestOf(cfg, steps, m, f[m]);
    }
  }

  // ----- Every request in time is output -----

  lemma {:induction false} EmitterFound(capacity: nat, ls: seq<AStep>, j: nat) returns (r: nat)
    requires j < |ls| && Emits(capacity, ls, j).Some?
    ensures r < |Emitters(capacity, ls, ls[j].pid)| && Emitters(capacity, ls, ls[j].pid)[r] == j
  {
    var n := |ls| - 1;
    if j == n {
      r := |Emitters(capacity, ls, ls[j].pid)| - 1;
    } else {
      EmitsInPrefix(capacity, ls, n, j);
      r := EmitterFound(capacity, ls[..n], j);
    }
  }

  /** Every place among the events of a thread is the rank of one of them. */
  lemma {:induction false} RankFound(es: seq<LatencyEvent>, t: u32, r: nat) returns (m: nat)
    requires r < |OfThread(es, t)|
    ensures m < |es| && es[m].pid == t && Rank(es, m, t) == r
  {
    var n := |es| - 1;
    if r < |OfThread(es[..n], t)| {
      m := RankFound(es[..n], t, r);
      assert es[..n][..m] == es[..m];
    } else {
      m := n;
    }
  }

  /** The exit at `j` of the history made one of the outputs. */
  ghost predicate MadeOutput(cfg: Config, steps: seq<KStep>, j: nat)
    requires OneThreadPerKey(cfg) && IsRun(cfg, steps)
  {
    exists m: nat :: m < |After(cfg, steps).attempts| && ExitOf(cfg, steps, m) == j
  }

  lemma EmitterOutputs(cfg: Config, steps: seq<KStep>, j: nat)
    requires OneThreadPerKey(cfg) && IsRun(cfg, steps) && j < |Linearize(cfg, steps)|
    requires Emits(cfg.capacity, Linearize(cfg, steps), j).Some?
    requires PcOf(After(cfg, steps), Linearize(cfg, steps)[j].pid).Idle?
    ensures MadeOutput(cfg, steps, j)
  {
    var es, ls := Events(After(cfg, steps).attempts), Linearize(cfg, steps);
    var t := ls[j].pid;
    RefinesAtomic(cfg, steps);
    EmittersMatch(cfg.capacity, ls, t);
    var r := EmitterFound(cfg.capacity, ls, j);
    assert OfThread(Exec(cfg.capacity, ls).emitted, t) == OfThread(es, t) + [];
    var m := RankFound(es, t, r);
    assert ExitOf(cfg, steps, m) == j;
  }

  /** While the entered keys fit in the map, the exit of a thread that is between
      handlers has made an output if and only if a recvmsg entry for its key was
      open, at most ten seconds old. */
  lemma OutputsExact(cfg: Config, steps: seq<KStep>, j: nat)
    requires OneThreadPerKey(cfg) && IsRun(cfg, steps) && |EntryKeys(Linearize(cfg, steps))| <= cfg.capacity
    requires j < |Linearize(cfg, steps)| && Linearize(cfg, steps)[j].ASend?
    requires PcOf(After(cfg, steps), Linearize(cfg, steps)[j].pid).Idle?
    ensures var ls := Linearize(cfg, steps);
            MadeOutput(cfg, steps, j) <==>
            exists i: nat :: Latest(ls, i, j, ls[j].key) && ls[i].now <= ls[j].now <= ls[i].now + 10_000_000_000
  {
    var ls := Linearize(cfg, steps);
    EntryKeysFit(ls, j);
    EmitsExact(cfg.capacity, ls, j);
    forall i: nat | Latest(ls, i, j, ls[j].key)
      ensures ls[i].now <= ls[j].now
    {
      EntryBeforeExit(cfg, steps, i, j);
    }
    if Emits(cfg.capacity, ls, j).Some? {
      EmitterOutputs(cfg, steps, j);
    }
  }

  lemma EntryKeysFit(ls: seq<AStep>, j: nat)
    requires j <= |ls|
    ensures |EntryKeys(ls[..j])| <= |EntryKeys(ls)|
  {
    SizeOf(EntryKeys(ls[..j]), EntryKeys(ls));
  }

  /** An entry that is stored read the clock no later than the exit that finds it. */
  lemma EntryBeforeExit(cfg: Config, steps: seq<KStep>, i: nat, j: nat)
    requires OneThreadPerKey(cfg) && IsRun(cfg, steps) && |EntryKeys(Linearize(cfg, steps))| <= cfg.capacity
    requires j < |Linearize(cfg, steps)| && Linearize(cfg, steps)[j].ASend?
    requires Latest(Linearize(cfg, steps), i, j, Linearize(cfg, steps)[j].key)
    ensures Linearize(cfg, steps)[i].now <= Linearize(cfg, steps)[j].now
  {
    var ls := Linearize(cfg, steps);
    var key := ls[j].key;
    EntryKeysFit(ls, j);
    assert Latest(ls[..j], i, j, key);
    LatestIsStored(cfg.capacity, ls[..j], i, key);
    var i' := StoredIsLatest(cfg.capacity, ls[..j], key);
    assert i' == i;
    ClocksInOrder(cfg, steps, j);
  }

  // ----- Two threads under one key -----

  lemma BothFind(cfg: Config, t: u32, u: u32) returns (r: Trace)
    requires Passes(cfg, t) && Passes(cfg, u) && t != u && cfg.tgidOf(t) == cfg.tgidOf(u)
    requires cfg.capacity >= 1
    ensures Traced(cfg, r) && r.ls == [Entry(cfg, t)] && r.s.attempts == [] && |r.s.cnt| == cfg.cpus
    ensures PcOf(r.s, t) == PcOf(r.s, u) == SendGot(0, 0, PLAIN)
  {
    r := Start(cfg);
    r := DoEntry(cfg, r, t);
    r := DoLookup(cfg, r, t, 0);
    r := DoLookup(cfg, r, u, 0);
  }

  /** One recvmsg entry; both threads look its context up before either removes
      it, and both output. */
  lemma SharedKeyRun(cfg: Config, t: u32, u: u32) returns (r: Trace)
    requires Passes(cfg, t) && Passes(cfg, u) && t != u && cfg.tgidOf(t) == cfg.tgidOf(u)
    requires cfg.capacity >= 1 && cfg.cpus >= 1
    ensures Traced(cfg, r) && r.ls == [Entry(cfg, t), Exit(cfg, t, 0), Exit(cfg, u, 0)]
    ensures Events(r.s.attempts) == [PlainEvent(cfg, t, 0), PlainEvent(cfg, u, 0)]
  {
    r := BothFind(cfg, t, u);
    r := DoRemove(cfg, r, t, 0);
    r := DoRemove(cfg, r, u, 0);
    r := DoOutput(cfg, r, t, 0);
    r := DoOutput(cfg, r, u, 0);
  }

  lemma OneEntryTwoEvents(cfg: Config, t: u32, u: u32)
    requires cfg.tgidOf(t) == cfg.tgidOf(u)
    ensures !PairsOneToOne([Entry(cfg, t), Exit(cfg, t, 0), Exit(cfg, u, 0)],
                           [PlainEvent(cfg, t, 0), PlainEvent(cfg, u, 0)])
  {
    var ls, es := [Entry(cfg, t), Exit(cfg, t, 0), Exit(cfg, u, 0)],
                  [PlainEvent(cfg, t, 0), PlainEvent(cfg, u, 0)];
    assert es[0].tid == es[1].tid;
    forall f: seq<Pair> ensures !Matching(ls, es, f) {
      if |f| == 2 && Paired(ls, f[1].entry, f[1].exit, es[1]) {
        assert ls[f[1].entry].ARecv?;
        assert f[1].entry == 0;
      }
    }
  }

  /** The outputs of a run and its requests pair one to one. */
  ghost predicate RunPairs(cfg: Config, steps: seq<KStep>)
    requires IsRun(cfg, steps)
  {
    PairsOneToOne(Linearize(cfg, steps), Events(After(cfg, steps).attempts))
  }

  lemma RunsPair(cfg: Config, steps: seq<KStep>)
    requires OneThreadPerKey(cfg) && IsRun(cfg, steps)
    ensures RunPairs(cfg, steps)
  {
    var f := RequestsMatch(cfg, steps);
  }

  lemma SharedKeyBreaks(cfg: Config, t: u32, u: u32) returns (steps: seq<KStep>)
    requires Passes(cfg, t) && Passes(cfg, u) && t != u && cfg.tgidOf(t) == cfg.tgidOf(u)
    requires cfg.capacity >= 1 && cfg.cpus >= 1
    ensures IsRun(cfg, steps) && !RunPairs(cfg, steps)
  {
    var r := SharedKeyRun(cfg, t, u);
    OneEntryTwoEvents(cfg, t, u);
    TracedIsRun(cfg, r);
    steps := Steps(r);
  }

  /** Every run pairs its outputs and its requests one to one, if and only if at
      most one thread that passes the filter runs under any key. */
  lemma PairingExact(cfg: Config)
    requires cfg.capacity >= 1 && cfg.cpus >= 1
    ensures (forall steps | IsRun(cfg, steps) :: RunPairs(cfg, steps)) <==> OneThreadPerKey(cfg)
  {
    if OneThreadPerKey(cfg) {
      forall steps | IsRun(cfg, steps) ensures RunPairs(cfg, steps) {
        RunsPair(cfg, steps);
      }
    } else {
      var t, u: u32 :| Passes(cfg, t) && Passes(cfg, u) && cfg.tgidOf(t) == cfg.tgidOf(u) && t != u;
      var steps := SharedKeyBreaks(cfg, t, u);
    }
  }

  // ----- Parts of the output -----

  /** A selection of the outputs, in order, pairs as they do. */
  lemma SelectionMatches(ls: seq<AStep>, es: seq<LatencyEvent>, f: seq<Pair>,
                         part: seq<LatencyEvent>, at: seq<nat>) returns (g: seq<Pair>)
    requires Matching(ls, es, f) && TrueTimes(ls, es, f) && |at| == |part|
    requires forall k | 0 <= k < |at| :: at[k] < |es| && es[at[k]] == part[k]
    requires forall k, k' | 0 <= k < k' < |at| :: at[k] < at[k']
    ensures Matching(ls, part, g) && TrueTimes(ls, part, g)
  {
    g := seq(|at|, k requires 0 <= k < |at| => f[at[k]]);
    forall k | 0 <= k < |part|
      ensures Paired(ls, g[k].entry, g[k].exit, part[k])
      ensures part[k].latencyNs == ls[g[k].exit].now - ls[g[k].entry].now
    {
      assert Paired(ls, f[at[k]].entry, f[at[k]].exit, es[at[k]]);
    }
  }

  /** Where in the attempts the accepted records stand. */
  function Accepted(attempts: seq<Attempt>): seq<nat> {
    if attempts == [] then []
    else
      var n := |attempts| - 1;
      Accepted(attempts[..n]) + (if attempts[n].ok then [n] else [])
  }

  lemma {:induction false} AcceptedAreSent(attempts: seq<Attempt>)
    ensures |Accepted(attempts)| == |Sent(attempts)|
    ensures forall k | 0 <= k < |Accepted(attempts)| ::
              Accepted(attempts)[k] < |attempts| && attempts[Accepted(attempts)[k]].ev == Sent(attempts)[k]
    ensures forall k, k' | 0 <= k < k' < |Accepted(attempts)| :: Accepted(attempts)[k] < Accepted(attempts)[k']
  {
    if attempts != [] {
      AcceptedAreSent(attempts[..|attempts| - 1]);
    }
  }

  lemma PrefixPlaces(attempts: seq<Attempt>, part: seq<LatencyEvent>) returns (at: seq<nat>)
    requires part <= Sent(attempts)
    ensures |at| == |part|
    ensures forall k | 0 <= k < |at| :: at[k] < |Events(attempts)| && Events(attempts)[at[k]] == part[k]
    ensures forall k, k' | 0 <= k < k' < |at| :: at[k] < at[k']
  {
    AcceptedAreSent(attempts);
    at := Accepted(attempts)[..|part|];
  }

  lemma PrefixMatches(ls: seq<AStep>, attempts: seq<Attempt>, g: seq<Pair>, part: seq<LatencyEvent>)
    returns (f: seq<Pair>)
    requires Matching(ls, Events(attempts), g) && TrueTimes(ls, Events(attempts), g)
    requires part <= Sent(attempts)
    ensures Matching(ls, part, f) && TrueTimes(ls, part, f)
  {
    var at := PrefixPlaces(attempts, part);
    f := SelectionMatches(ls, Events(attempts), g, part, at);
  }

  lemma SentRequests(cfg: Config, ks: seq<KStep>, part: seq<LatencyEvent>) returns (f: seq<Pair>)
    requires OneThreadPerKey(cfg) && IsRun(cfg, ks) && part <= Sent(After(cfg, ks).attempts)
    ensures Matching(Linearize(cfg, ks), part, f) && TrueTimes(Linearize(cfg, ks), part, f)
  {
    var g := RequestsMatch(cfg, ks);
    f := PrefixMatches(Linearize(cfg, ks), After(cfg, ks).attempts, g, part);
  }

  lemma PrefixReports(cfg: Config, ks: seq<KStep>, attempts: seq<Attempt>, f: seq<Places>, part: seq<LatencyEvent>)
    returns (g: seq<Places>)
    requires StepMatching(cfg, ks, Events(attempts), f) && part <= Sent(attempts)
    ensures StepMatching(cfg, ks, part, g)
  {
    var at := PrefixPlaces(attempts, part);
    g := SelectionReports(cfg, ks, Events(attempts), f, part, at);
  }

  lemma SentSteps(cfg: Config, ks: seq<KStep>, part: seq<LatencyEvent>) returns (g: seq<Places>)
    requires OneThreadPerKey(cfg) && IsRun(cfg, ks) && part <= Sent(After(cfg, ks).attempts)
    ensures StepMatching(cfg, ks, part, g)
  {
    var f := StepsMatch(cfg, ks);
    g := PrefixReports(cfg, ks, After(cfg, ks).attempts, f, part);
  }

  /** Any first part of the accepted records reports requests of its own. */
  lemma SentOneToOne(cfg: Config, ks: seq<KStep>, part: seq<LatencyEvent>)
    returns (f: seq<Pair>, g: seq<Places>)
    requires OneThreadPerKey(cfg) && IsRun(cfg, ks) && part <= Sent(After(cfg, ks).attempts)
    ensures Matching(Linearize(cfg, ks), part, f) && TrueTimes(Linearize(cfg, ks), part, f)
    ensures StepMatching(cfg, ks, part, g)
  {
    f := SentRequests(cfg, ks, part);
    g := SentSteps(cfg, ks, part);
  }
}
