/** A map too small for the keys in use reorders the ring: for every capacity, a
    run whose output no order of its handlers explains, and with it the exact
    condition under which every run is explained. */
module Limits {
  import opened Words
  import opened Probes
  import opened AtomicRuns
  import opened Interleaving
  import opened Pairing
  import opened Traces
  import opened RingOrder

  // ----- Threads with different keys -----

  ghost predicate Distinct(cfg: Config, ts: seq<u32>) {
    && (forall i | 0 <= i < |ts| :: Passes(cfg, ts[i]))
    && (forall i, j | 0 <= i < j < |ts| :: cfg.tgidOf(ts[i]) != cfg.tgidOf(ts[j]))
  }

  function Members(ts: seq<u32>): set<u32> {
    set t | t in ts
  }

  lemma MembersLast(ts: seq<u32>)
    requires ts != []
    ensures Members(ts) == Members(ts[..|ts| - 1]) + {ts[|ts| - 1]}
  {
    assert ts == ts[..|ts| - 1] + [ts[|ts| - 1]];
  }

  lemma {:induction false} MemberCount(ts: seq<u32>)
    requires forall i, j | 0 <= i < j < |ts| :: ts[i] != ts[j]
    ensures |Members(ts)| == |ts|
  {
    if ts == [] {
      assert Members(ts) == {};
    } else {
      MemberCount(ts[..|ts| - 1]);
      MembersLast(ts);
    }
  }

  lemma KeyCount(cfg: Config, ts: seq<u32>)
    requires Distinct(cfg, ts)
    ensures |KeysOf(cfg, Members(ts))| == |ts|
  {
    forall i, j | 0 <= i < j < |ts| ensures ts[i] != ts[j] {
      assert cfg.tgidOf(ts[i]) != cfg.tgidOf(ts[j]);
    }
    MemberCount(ts);
    KeysAsMany(cfg, Members(ts));
  }

  lemma KeysLast(cfg: Config, ts: seq<u32>)
    requires ts != []
    ensures KeysOf(cfg, Members(ts)) == KeysOf(cfg, Members(ts[..|ts| - 1])) + {cfg.tgidOf(ts[|ts| - 1])}
  {
    MembersLast(ts);
    KeysOfMore(cfg, Members(ts[..|ts| - 1]), ts[|ts| - 1]);
  }

  /** As many threads with different keys as there are keys in use. */
  lemma {:induction false} PickThreads(cfg: Config, n: nat) returns (ts: seq<u32>)
    requires n <= |UsedKeys(cfg)|
    ensures |ts| == n && Distinct(cfg, ts)
  {
    if n == 0 {
      ts := [];
    } else {
      var rest := PickThreads(cfg, n - 1);
      KeyCount(cfg, rest);
      var k := NewMember(KeysOf(cfg, Members(rest)), UsedKeys(cfg));
      var t :| t in cfg.threads && Passes(cfg, t) && cfg.tgidOf(t) == k;
      ts := rest + [t];
      forall i | 0 <= i < n - 1 ensures cfg.tgidOf(rest[i]) != k {
        assert cfg.tgidOf(rest[i]) in KeysOf(cfg, Members(rest));
      }
    }
  }

  lemma NewMember(a: set<u32>, b: set<u32>) returns (k: u32)
    requires |a| < |b|
    ensures k in b && k !in a
  {
    if b <= a {
      SizeOf(b, a);
    }
    k :| k in b && k !in a;
  }

  // ----- The run -----

  /** The threads `fs` only enter; `a` has one request, `b` two. */
  ghost predicate Cast(cfg: Config, fs: seq<u32>, a: u32, b: u32) {
    Distinct(cfg, fs + [a, b]) && |fs| + 1 == cfg.capacity && cfg.cpus >= 1
  }

  function Entries(cfg: Config, fs: seq<u32>): seq<AStep> {
    if fs == [] then [] else Entries(cfg, fs[..|fs| - 1]) + [Entry(cfg, fs[|fs| - 1])]
  }

  /** The handlers of `a` and `b` in the order of the run. */
  function Plan(cfg: Config, a: u32, b: u32): seq<AStep> {
    [Entry(cfg, a), Entry(cfg, b), Exit(cfg, b, 0), Exit(cfg, a, 0), Entry(cfg, b), Exit(cfg, b, 1)]
  }

  /** All threads are idle, and the map holds plain contexts under `keys`. */
  ghost predicate Quiet(cfg: Config, r: Trace, keys: set<u32>) {
    && Traced(cfg, r) && r.s.clock == 0 && r.s.attempts == [] && |r.s.cnt| == cfg.cpus
    && r.s.ctx.Keys == keys && (forall k | k in r.s.ctx :: r.s.ctx[k] == PLAIN)
    && (forall t: u32 :: PcOf(r.s, t) == Idle)
  }

  lemma QuietEntry(cfg: Config, r: Trace, keys: set<u32>, t: u32) returns (r': Trace)
    requires Quiet(cfg, r, keys) && Passes(cfg, t) && cfg.tgidOf(t) !in keys
    ensures Quiet(cfg, r', if |keys| < cfg.capacity then keys + {cfg.tgidOf(t)} else keys)
    ensures r'.ls == r.ls + [Entry(cfg, t)]
  {
    assert |r.s.ctx| == |r.s.ctx.Keys| && PcOf(r.s, t) == Idle;
    r' := DoEntry(cfg, r, t);
    StillIdle(r.s, r'.s, t);
    assert |keys| < cfg.capacity ==> r'.s.ctx.Keys == keys + {cfg.tgidOf(t)};
  }

  lemma StillIdle(s: KState, s': KState, t: u32)
    requires (forall u: u32 :: PcOf(s, u) == Idle) && s'.pcs == s.pcs[t := Idle]
    ensures forall u: u32 :: PcOf(s', u) == Idle
  {
    forall u: u32 ensures PcOf(s', u) == Idle {
      assert PcOf(s, u) == Idle;
    }
  }

  lemma QuietMiss(cfg: Config, r: Trace, keys: set<u32>, t: u32, retval: i64) returns (r': Trace)
    requires Quiet(cfg, r, keys) && Passes(cfg, t) && cfg.tgidOf(t) !in keys
    ensures Quiet(cfg, r', keys) && r'.ls == r.ls + [Exit(cfg, t, retval)]
  {
    assert PcOf(r.s, t) == Idle;
    r' := DoMiss(cfg, r, t, retval);
    StillIdle(r.s, r'.s, t);
  }

  /** The given threads fill slots. */
  lemma {:induction false} Fill(cfg: Config, fs: seq<u32>) returns (r: Trace)
    requires Distinct(cfg, fs) && |fs| <= cfg.capacity
    ensures Quiet(cfg, r, KeysOf(cfg, Members(fs))) && r.ls == Entries(cfg, fs)
  {
    if fs == [] {
      r := Start(cfg);
      assert KeysOf(cfg, Members(fs)) == {};
    } else {
      var n := |fs| - 1;
      r := Fill(cfg, fs[..n]);
      KeyCount(cfg, fs[..n]);
      KeysLast(cfg, fs);
      r := QuietEntry(cfg, r, KeysOf(cfg, Members(fs[..n])), fs[n]);
    }
  }

  /** `a` takes the last slot, so that the entry of `b` fails and its exit finds
      nothing. */
  lemma Refused(cfg: Config, fs: seq<u32>, a: u32, b: u32) returns (r: Trace)
    requires Cast(cfg, fs, a, b)
    ensures Quiet(cfg, r, KeysOf(cfg, Members(fs + [a])))
    ensures r.ls == Entries(cfg, fs) + [Entry(cfg, a), Entry(cfg, b), Exit(cfg, b, 0)]
  {
    CastKeys(cfg, fs, a, b);
    r := Fill(cfg, fs + [a]);
    EntriesAppend(cfg, fs, a);
    r := QuietEntry(cfg, r, KeysOf(cfg, Members(fs + [a])), b);
    r := QuietMiss(cfg, r, KeysOf(cfg, Members(fs + [a])), b, 0);
    ThreeMore(Entries(cfg, fs), Entry(cfg, a), Entry(cfg, b), Exit(cfg, b, 0));
  }

  lemma EntriesAppend(cfg: Config, fs: seq<u32>, a: u32)
    ensures Entries(cfg, fs + [a]) == Entries(cfg, fs) + [Entry(cfg, a)]
  {
    assert (fs + [a])[..|fs|] == fs;
  }

  lemma ThreeMore<T>(s: seq<T>, x: T, y: T, z: T)
    ensures s + [x] + [y] + [z] == s + [x, y, z]
  {
  }

  lemma CastKeys(cfg: Config, fs: seq<u32>, a: u32, b: u32)
    requires Cast(cfg, fs, a, b)
    ensures Distinct(cfg, fs + [a]) && |KeysOf(cfg, Members(fs + [a]))| == cfg.capacity
    ensures cfg.tgidOf(a) in KeysOf(cfg, Members(fs + [a])) && cfg.tgidOf(b) !in KeysOf(cfg, Members(fs + [a]))
    ensures cfg.tgidOf(a) != cfg.tgidOf(b) && a != b && Passes(cfg, a) && Passes(cfg, b)
  {
    var all, most := fs + [a, b], fs + [a];
    assert all[|fs|] == a && all[|fs| + 1] == b && most[|fs|] == a;
    assert forall i | 0 <= i < |most| :: most[i] == all[i];
    KeyCount(cfg, most);
  }

  /** `a` frees its slot but does not output yet. */
  lemma Freed(cfg: Config, fs: seq<u32>, a: u32, b: u32) returns (r: Trace)
    requires Cast(cfg, fs, a, b)
    ensures Traced(cfg, r) && r.s.clock == 0 && r.s.attempts == [] && |r.s.cnt| == cfg.cpus
    ensures r.ls == Entries(cfg, fs) + [Entry(cfg, a), Entry(cfg, b), Exit(cfg, b, 0)] + [Exit(cfg, a, 0)]
    ensures |r.s.ctx| < cfg.capacity
    ensures PcOf(r.s, a) == Built(PlainEvent(cfg, a, 0)) && PcOf(r.s, b) == Idle
  {
    CastKeys(cfg, fs, a, b);
    r := Refused(cfg, fs, a, b);
    var m, ka := r.s.ctx, cfg.tgidOf(a);
    assert PcOf(r.s, a) == Idle && PcOf(r.s, b) == Idle;
    r := DoBuild(cfg, r, a, 0);
    assert (m - {ka}).Keys == m.Keys - {ka};
    assert |m.Keys| == cfg.capacity && |(m - {ka}).Keys| == |m - {ka}|;
  }

  /** `b` uses the slot. */
  lemma Borrowed(cfg: Config, fs: seq<u32>, a: u32, b: u32) returns (r: Trace)
    requires Cast(cfg, fs, a, b)
    ensures Traced(cfg, r) && r.ls == Entries(cfg, fs) + Plan(cfg, a, b)
    ensures r.s.attempts == [] && |r.s.cnt| == cfg.cpus
    ensures PcOf(r.s, a) == Built(PlainEvent(cfg, a, 0)) && PcOf(r.s, b) == Built(PlainEvent(cfg, b, 1))
  {
    CastKeys(cfg, fs, a, b);
    r := Freed(cfg, fs, a, b);
    r := DoEntry(cfg, r, b);
    r := DoBuild(cfg, r, b, 1);
    assert [Entry(cfg, a), Entry(cfg, b), Exit(cfg, b, 0)] + [Exit(cfg, a, 0)] + [Entry(cfg, b)] + [Exit(cfg, b, 1)]
           == Plan(cfg, a, b);
  }

  /** The second request of `b` is output before the one of `a`. */
  lemma BorrowedOrder(cfg: Config, fs: seq<u32>, a: u32, b: u32) returns (r: Trace)
    requires Cast(cfg, fs, a, b)
    ensures Traced(cfg, r) && r.ls == Entries(cfg, fs) + Plan(cfg, a, b)
    ensures Events(r.s.attempts) == [PlainEvent(cfg, b, 1), PlainEvent(cfg, a, 0)]
  {
    CastKeys(cfg, fs, a, b);
    r := Borrowed(cfg, fs, a, b);
    r := DoOutput(cfg, r, b, 0);
    r := DoOutput(cfg, r, a, 0);
  }

  // ----- No order of the same handlers outputs like that -----

  /** A handler stands in its thread's list at the number of the thread's earlier
      handlers. */
  lemma {:induction false} NthOfThread(ls: seq<AStep>, p: nat)
    requires p < |ls|
    ensures var t := ls[p].pid;
            |ByThread(ls[..p], t)| < |ByThread(ls, t)| && ByThread(ls, t)[|ByThread(ls[..p], t)|] == ls[p]
  {
    var n := |ls| - 1;
    if p < n {
      NthOfThread(ls[..n], p);
      assert ls[..n][..p] == ls[..p];
    }
  }

  /** The last of distinct threads is not among the others. */
  lemma LastIsNew(cfg: Config, fs: seq<u32>, t: u32)
    requires Distinct(cfg, fs) && fs != []
    ensures var n := |fs| - 1;
            (t in fs <==> t in fs[..n] || t == fs[n]) && (t == fs[n] ==> t !in fs[..n])
  {
    var n := |fs| - 1;
    assert fs == fs[..n] + [fs[n]];
    if t in fs[..n] {
      var i :| 0 <= i < n && fs[i] == t;
      assert cfg.tgidOf(fs[i]) != cfg.tgidOf(fs[n]);
    }
  }

  lemma {:induction false} EntriesByThread(cfg: Config, fs: seq<u32>, t: u32)
    requires Distinct(cfg, fs)
    ensures ByThread(Entries(cfg, fs), t) == if t in fs then [Entry(cfg, t)] else []
  {
    if fs != [] {
      var n := |fs| - 1;
      EntriesByThread(cfg, fs[..n], t);
      ByThreadAppend(Entries(cfg, fs[..n]), Entry(cfg, fs[n]), t);
      LastIsNew(cfg, fs, t);
    }
  }

  lemma OneByThread(x: AStep, t: u32)
    ensures ByThread([x], t) == if x.pid == t then [x] else []
  {
    assert [x][..0] == [];
  }

  lemma ThreeByThread(x: AStep, y: AStep, z: AStep, t: u32)
    ensures ByThread([x, y, z], t) ==
            (if x.pid == t then [x] else []) + (if y.pid == t then [y] else []) + (if z.pid == t then [z] else [])
  {
    OneByThread(x, t);
    assert [x, y] == [x] + [y];
    ByThreadAppend([x], y, t);
    assert [x, y, z] == [x, y] + [z];
    ByThreadAppend([x, y], z, t);
  }

  lemma PlanByThread(cfg: Config, a: u32, b: u32, t: u32)
    requires a != b
    ensures ByThread(Plan(cfg, a, b), t) ==
            if t == a then [Entry(cfg, a), Exit(cfg, a, 0)]
            else if t == b then [Entry(cfg, b), Exit(cfg, b, 0), Entry(cfg, b), Exit(cfg, b, 1)]
            else []
  {
    var front := [Entry(cfg, a), Entry(cfg, b), Exit(cfg, b, 0)];
    var back := [Exit(cfg, a, 0), Entry(cfg, b), Exit(cfg, b, 1)];
    assert Plan(cfg, a, b) == front + back;
    ThreeByThread(Entry(cfg, a), Entry(cfg, b), Exit(cfg, b, 0), t);
    ThreeByThread(Exit(cfg, a, 0), Entry(cfg, b), Exit(cfg, b, 1), t);
    ByThreadConcat(front, back, t);
  }

  /** Which handlers the threads of the run have. */
  lemma HandlersOf(cfg: Config, fs: seq<u32>, a: u32, b: u32, t: u32)
    requires Cast(cfg, fs, a, b)
    ensures ByThread(Entries(cfg, fs) + Plan(cfg, a, b), t) ==
            if t == a then [Entry(cfg, a), Exit(cfg, a, 0)]
            else if t == b then [Entry(cfg, b), Exit(cfg, b, 0), Entry(cfg, b), Exit(cfg, b, 1)]
            else if t in fs then [Entry(cfg, t)] else []
  {
    CastApart(cfg, fs, a, b);
    ByThreadConcat(Entries(cfg, fs), Plan(cfg, a, b), t);
    EntriesByThread(cfg, fs, t);
    PlanByThread(cfg, a, b, t);
  }

  lemma CastApart(cfg: Config, fs: seq<u32>, a: u32, b: u32)
    requires Cast(cfg, fs, a, b)
    ensures Distinct(cfg, fs) && a !in fs && b !in fs && a != b
  {
    var all := fs + [a, b];
    assert all[|fs|] == a && all[|fs| + 1] == b;
    assert forall i | 0 <= i < |fs| :: fs[i] == all[i];
  }

  /** The request map after handlers that have emitted nothing, of which `nb` were
      handlers of `b`: from the first failed entry of `b` on, it stays full. */
  ghost predicate Silent(cfg: Config, most: set<u32>, kb: u32, ctx: map<u32, ReqCtx>, nb: nat) {
    && ctx.Keys <= most + {kb} && (forall k | k in ctx :: ctx[k] == PLAIN)
    && (nb == 0 ==> kb !in ctx)
    && (nb == 1 ==> kb in ctx || ctx.Keys == most)
    && (nb >= 2 ==> ctx.Keys == most)
  }

  /** Nothing is emitted, or something other than the second event of `b` first. */
  ghost predicate NotB2(cfg: Config, most: set<u32>, b: u32, s: AState, nb: nat) {
    if s.emitted == [] then Silent(cfg, most, cfg.tgidOf(b), s.ctx, nb)
    else s.emitted[0] != PlainEvent(cfg, b, 1)
  }

  /** Entries of the other threads. */
  lemma OtherEntry(cfg: Config, most: set<u32>, b: u32, s: AState, nb: nat, t: u32)
    requires |most| == cfg.capacity && cfg.tgidOf(b) !in most && cfg.tgidOf(t) in most
    requires NotB2(cfg, most, b, s, nb)
    ensures NotB2(cfg, most, b, Do(cfg.capacity, s, Entry(cfg, t)), nb)
  {
  }

  /** An exit that finds a plain context emits its event. */
  lemma ExitEmits(cfg: Config, s: AState, t: u32, retval: i64)
    requires cfg.tgidOf(t) in s.ctx ==> s.ctx[cfg.tgidOf(t)] == PLAIN
    ensures var s' := Do(cfg.capacity, s, Exit(cfg, t, retval));
            && s'.ctx == s.ctx - {cfg.tgidOf(t)}
            && s'.emitted == s.emitted + (if cfg.tgidOf(t) in s.ctx then [PlainEvent(cfg, t, retval)] else [])
  {
  }

  lemma ExitOfA(cfg: Config, most: set<u32>, a: u32, b: u32, s: AState, nb: nat)
    requires cfg.tgidOf(a) in most && cfg.tgidOf(b) !in most && a != b
    requires NotB2(cfg, most, b, s, nb)
    ensures NotB2(cfg, most, b, Do(cfg.capacity, s, Exit(cfg, a, 0)), nb)
  {
    if s.emitted == [] {
      ExitEmits(cfg, s, a, 0);
      if cfg.tgidOf(a) !in s.ctx {
        assert s.ctx - {cfg.tgidOf(a)} == s.ctx;
      }
    } else {
      DoGrows(cfg.capacity, s, Exit(cfg, a, 0));
    }
  }

  /** The handlers of `b`, the first and third of which are entries. */
  lemma EntryOfB(cfg: Config, most: set<u32>, b: u32, s: AState, nb: nat)
    requires |most| == cfg.capacity && cfg.tgidOf(b) !in most && (nb == 0 || nb == 2)
    requires NotB2(cfg, most, b, s, nb)
    ensures NotB2(cfg, most, b, Do(cfg.capacity, s, Entry(cfg, b)), nb + 1)
  {
    if s.emitted == [] {
      var kb := cfg.tgidOf(b);
      assert |s.ctx| == |s.ctx.Keys|;
      if nb == 0 && |s.ctx| >= cfg.capacity {
        SameWhenAsLarge(s.ctx.Keys, most);
      }
    }
  }

  lemma SameWhenAsLarge(x: set<u32>, y: set<u32>)
    requires x <= y && |x| >= |y|
    ensures x == y
  {
    assert |y| == |x| + |y - x| by { assert y == x + (y - x); }
  }

  lemma ExitOfB(cfg: Config, most: set<u32>, b: u32, s: AState, nb: nat, retval: i64)
    requires cfg.tgidOf(b) !in most && ((nb == 1 && retval == 0) || (nb == 3 && retval == 1))
    requires NotB2(cfg, most, b, s, nb)
    ensures NotB2(cfg, most, b, Do(cfg.capacity, s, Exit(cfg, b, retval)), nb + 1)
  {
    if s.emitted == [] {
      ExitEmits(cfg, s, b, retval);
      if cfg.tgidOf(b) !in s.ctx {
        assert s.ctx - {cfg.tgidOf(b)} == s.ctx;
      }
    } else {
      DoGrows(cfg.capacity, s, Exit(cfg, b, retval));
    }
  }

  /** One handler, known by its thread and its place there. */
  lemma OneHandler(cfg: Config, fs: seq<u32>, a: u32, b: u32, s: AState, st: AStep, nb: nat)
    requires Cast(cfg, fs, a, b) && NotB2(cfg, KeysOf(cfg, Members(fs + [a])), b, s, nb)
    requires st.pid == b ==> nb < 4 && st == [Entry(cfg, b), Exit(cfg, b, 0), Entry(cfg, b), Exit(cfg, b, 1)][nb]
    requires st.pid != b ==> st == Exit(cfg, a, 0) || (st == Entry(cfg, st.pid) && st.pid in fs + [a])
    ensures NotB2(cfg, KeysOf(cfg, Members(fs + [a])), b, Do(cfg.capacity, s, st), if st.pid == b then nb + 1 else nb)
  {
    var most := KeysOf(cfg, Members(fs + [a]));
    CastKeys(cfg, fs, a, b);
    if st.pid == b {
      if nb == 0 || nb == 2 {
        EntryOfB(cfg, most, b, s, nb);
      } else {
        ExitOfB(cfg, most, b, s, nb, if nb == 1 then 0 else 1);
      }
    } else if st == Exit(cfg, a, 0) {
      ExitOfA(cfg, most, a, b, s, nb);
    } else {
      var i :| 0 <= i < |fs + [a]| && (fs + [a])[i] == st.pid;
      assert cfg.tgidOf((fs + [a])[i]) in most;
      OtherEntry(cfg, most, b, s, nb, st.pid);
    }
  }

  /** Which handler stands at `p`, by the number of its thread's earlier ones. */
  lemma HandlerAt(cfg: Config, fs: seq<u32>, a: u32, b: u32, ls: seq<AStep>, p: nat)
    requires Cast(cfg, fs, a, b) && SameHandlers(ls, Entries(cfg, fs) + Plan(cfg, a, b)) && p < |ls|
    ensures var st, nb := ls[p], |ByThread(ls[..p], b)|;
            && (st.pid == b ==> nb < 4 && st == [Entry(cfg, b), Exit(cfg, b, 0), Entry(cfg, b), Exit(cfg, b, 1)][nb])
            && (st.pid != b ==> st == Exit(cfg, a, 0) || (st == Entry(cfg, st.pid) && st.pid in fs + [a]))
  {
    var st := ls[p];
    CastKeys(cfg, fs, a, b);
    NthOfThread(ls, p);
    HandlersOf(cfg, fs, a, b, st.pid);
    assert ByThread(ls, st.pid) == ByThread(Entries(cfg, fs) + Plan(cfg, a, b), st.pid);
    KnownHandler(cfg, fs, a, b, st, |ByThread(ls[..p], st.pid)|, ByThread(ls, st.pid));
  }

  lemma {:induction false} NeverB2First(cfg: Config, fs: seq<u32>, a: u32, b: u32, ls: seq<AStep>, p: nat)
    requires Cast(cfg, fs, a, b) && SameHandlers(ls, Entries(cfg, fs) + Plan(cfg, a, b)) && p <= |ls|
    ensures NotB2(cfg, KeysOf(cfg, Members(fs + [a])), b, Exec(cfg.capacity, ls[..p]), |ByThread(ls[..p], b)|)
  {
    if p > 0 {
      var st, before := ls[p - 1], ls[..p - 1];
      NeverB2First(cfg, fs, a, b, ls, p - 1);
      HandlerAt(cfg, fs, a, b, ls, p - 1);
      OneHandler(cfg, fs, a, b, Exec(cfg.capacity, before), st, |ByThread(before, b)|);
      assert ls[..p][..p - 1] == before;
    } else {
      CastKeys(cfg, fs, a, b);
    }
  }

  lemma KnownHandler(cfg: Config, fs: seq<u32>, a: u32, b: u32, st: AStep, n: nat, own: seq<AStep>)
    requires n < |own| && own[n] == st && a != b
    requires own == if st.pid == a then [Entry(cfg, a), Exit(cfg, a, 0)]
                    else if st.pid == b then [Entry(cfg, b), Exit(cfg, b, 0), Entry(cfg, b), Exit(cfg, b, 1)]
                    else if st.pid in fs then [Entry(cfg, st.pid)] else []
    ensures st.pid == b ==> n < 4 && st == [Entry(cfg, b), Exit(cfg, b, 0), Entry(cfg, b), Exit(cfg, b, 1)][n]
    ensures st.pid != b ==> st == Exit(cfg, a, 0) || (st == Entry(cfg, st.pid) && st.pid in fs + [a])
  {
  }

  /** No order of these handlers that keeps each thread's own order emits the
      second event of `b` first. */
  lemma NoOrderExplains(cfg: Config, fs: seq<u32>, a: u32, b: u32, ls: seq<AStep>)
    requires Cast(cfg, fs, a, b) && SameHandlers(ls, Entries(cfg, fs) + Plan(cfg, a, b))
    ensures !([PlainEvent(cfg, b, 1), PlainEvent(cfg, a, 0)] <= Exec(cfg.capacity, ls).emitted)
  {
    NeverB2First(cfg, fs, a, b, ls, |ls|);
    assert ls[..|ls|] == ls;
  }

  /** With more keys in use than slots, some run is not explained. */
  lemma SmallMapReorders(cfg: Config) returns (steps: seq<KStep>)
    requires cfg.capacity >= 1 && cfg.cpus >= 1 && |UsedKeys(cfg)| > cfg.capacity
    ensures IsRun(cfg, steps) && !Explained(cfg, steps)
  {
    var ts := PickThreads(cfg, cfg.capacity + 1);
    var n := cfg.capacity - 1;
    assert ts == ts[..n] + [ts[n], ts[n + 1]];
    var r := BorrowedOrder(cfg, ts[..n], ts[n], ts[n + 1]);
    TracedIsRun(cfg, r);
    steps := Steps(r);
    forall ls | SameHandlers(ls, Linearize(cfg, steps))
      ensures !(Events(After(cfg, steps).attempts) <= Exec(cfg.capacity, ls).emitted)
    {
      NoOrderExplains(cfg, ts[..n], ts[n], ts[n + 1], ls);
    }
  }

  // ----- Two threads under one key -----

  /** How many of the handlers are recvmsg entries. */
  function Recvs(ls: seq<AStep>): nat {
    if ls == [] then 0 else Recvs(ls[..|ls| - 1]) + (if ls[|ls| - 1].ARecv? then 1 else 0)
  }

  lemma StoredSize(m: map<u32, ReqCtx>, k: u32, c: ReqCtx)
    ensures |m[k := c]| == if k in m then |m| else |m| + 1
    ensures |m - {k}| == if k in m then |m| - 1 else |m|
  {
    assert m[k := c].Keys == m.Keys + {k} && (m - {k}).Keys == m.Keys - {k};
    assert |m[k := c].Keys| == |m[k := c]| && |(m - {k}).Keys| == |m - {k}|;
  }

  lemma DoBudget(capacity: nat, a: AState, st: AStep)
    ensures var a' := Do(capacity, a, st);
            |a'.ctx| + |a'.emitted| <= |a.ctx| + |a.emitted| + (if st.ARecv? then 1 else 0)
  {
    if st.ARecv? {
      StoredSize(a.ctx, st.key, RecvCtx(st.now, st.sk, st.msg));
    } else if st.ARet? && st.key in a.ctx {
      StoredSize(a.ctx, st.key, WriteBack(a.ctx[st.key], st.data));
    } else if st.ASend? {
      StoredSize(a.ctx, st.key, RecvCtx(0, None, NoMessage));
    }
  }

  /** Undisturbed handlers emit no more events than there are entries. */
  lemma {:induction false} EmitsNoMore(capacity: nat, ls: seq<AStep>)
    ensures |Exec(capacity, ls).ctx| + |Exec(capacity, ls).emitted| <= Recvs(ls)
  {
    if ls != [] {
      var n := |ls| - 1;
      EmitsNoMore(capacity, ls[..n]);
      DoBudget(capacity, Exec(capacity, ls[..n]), ls[n]);
    }
  }

  lemma RecvsAppend(ls: seq<AStep>, st: AStep)
    ensures Recvs(ls + [st]) == Recvs(ls) + (if st.ARecv? then 1 else 0)
  {
    assert (ls + [st])[..|ls|] == ls;
  }

  lemma {:induction false} EntriesOfOne(ls: seq<AStep>, t: u32)
    requires forall p | 0 <= p < |ls| && ls[p].ARecv? :: ls[p].pid == t
    ensures Recvs(ls) == Recvs(ByThread(ls, t))
  {
    if ls != [] {
      var n := |ls| - 1;
      assert forall p | 0 <= p < n :: ls[..n][p] == ls[p];
      EntriesOfOne(ls[..n], t);
      RecvsAppend(ByThread(ls[..n], t), ls[n]);
      assert ByThread(ls[..n], t) + [] == ByThread(ls[..n], t);
    }
  }

  /** The handlers of a run in which two threads report one request emit at most
      one event in any order. */
  lemma OneEntryOneEvent(cfg: Config, t: u32, u: u32, ls: seq<AStep>)
    requires t != u && SameHandlers(ls, [Entry(cfg, t), Exit(cfg, t, 0), Exit(cfg, u, 0)])
    ensures |Exec(cfg.capacity, ls).emitted| <= 1
  {
    var x, y, z := Entry(cfg, t), Exit(cfg, t, 0), Exit(cfg, u, 0);
    forall p | 0 <= p < |ls| && ls[p].ARecv? ensures ls[p].pid == t {
      NthOfThread(ls, p);
      assert ByThread(ls, ls[p].pid) == ByThread([x, y, z], ls[p].pid);
      ThreeByThread(x, y, z, ls[p].pid);
    }
    EntriesOfOne(ls, t);
    assert ByThread(ls, t) == ByThread([x, y, z], t);
    ThreeByThread(x, y, z, t);
    RecvsAppend([x], y);
    RecvsAppend([], x);
    assert [] + [x] == [x];
    EmitsNoMore(cfg.capacity, ls);
  }

  lemma SharedKeyUnexplained(cfg: Config, t: u32, u: u32) returns (steps: seq<KStep>)
    requires Passes(cfg, t) && Passes(cfg, u) && t != u && cfg.tgidOf(t) == cfg.tgidOf(u)
    requires cfg.capacity >= 1 && cfg.cpus >= 1
    ensures IsRun(cfg, steps) && !Explained(cfg, steps)
  {
    var r := SharedKeyRun(cfg, t, u);
    TracedIsRun(cfg, r);
    steps := Steps(r);
    forall ls | SameHandlers(ls, Linearize(cfg, steps))
      ensures !(Events(After(cfg, steps).attempts) <= Exec(cfg.capacity, ls).emitted)
    {
      OneEntryOneEvent(cfg, t, u, ls);
    }
  }

  /** The output of every run is explained by an order of its handlers that keeps
      each thread's own, if and only if no two passing threads share a key and
      the map has a slot for every key in use. */
  lemma RingOrderExact(cfg: Config)
    requires cfg.capacity >= 1 && cfg.cpus >= 1
    ensures (forall steps | IsRun(cfg, steps) :: Explained(cfg, steps)) <==>
            OneThreadPerKey(cfg) && |UsedKeys(cfg)| <= cfg.capacity
  {
    if !OneThreadPerKey(cfg) {
      var t, u: u32 :| Passes(cfg, t) && Passes(cfg, u) && cfg.tgidOf(t) == cfg.tgidOf(u) && t != u;
      var steps := SharedKeyUnexplained(cfg, t, u);
    } else if |UsedKeys(cfg)| <= cfg.capacity {
      forall steps | IsRun(cfg, steps) ensures Explained(cfg, steps) {
        FitsKeepsSlack(cfg, steps);
        SlackExplains(cfg, steps);
      }
    } else {
      var steps := SmallMapReorders(cfg);
    }
  }

  /** With a non-zero filter value every run's output is explained. */
  lemma TargetKeepsOrder(cfg: Config, steps: seq<KStep>)
    requires cfg.target != 0 && cfg.capacity >= 1 && cfg.cpus >= 1 && IsRun(cfg, steps)
    ensures Explained(cfg, steps)
  {
    TargetUsesOneKey(cfg);
    TargetGivesOneThread(cfg);
    RingOrderExact(cfg);
  }
}
