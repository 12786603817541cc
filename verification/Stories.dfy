/** Which steps an output reports: the last recvmsg entry and the last sendmsg exit
    of its thread, and what the thread read from user memory in between. */
module Stories {
  import opened Words
  import opened Resp
  import opened Probes
  import opened AtomicRuns
  import opened Interleaving

  /** What a thread did since it last entered recvmsg, told by its steps alone: that
      entry, whether a recvmsg exit has looked the context up, what such exits have
      read, the sendmsg exits begun, and the outputs made. */
  datatype Story = Story(entry: Option<KStep>, looked: bool, captures: seq<Capture>, exits: seq<KStep>, outputs: nat)

  function Told(y: Story, st: KStep): Story {
    match st
    case RecvBegin(_, _, _, _) => Story(Some(st), false, [], [], 0)
    case RetGet(_) => y.(looked := true)
    case RetUserRead(_, data) => y.(captures := y.captures + [data])
    case SendBegin(_, _, _) => y.(exits := y.exits + [st])
    case Output(_, _) => y.(outputs := y.outputs + 1)
    case _ => y
  }

  predicate By(st: KStep, t: u32) {
    !st.Consume? && st.t == t
  }

  /** The story after one more step of the run. */
  function Onward(y: Story, st: KStep, t: u32): Story {
    if By(st, t) then Told(y, st) else y
  }

  function StoryOf(steps: seq<KStep>, t: u32): Story {
    if steps == [] then Story(None, false, [], [], 0)
    else
      var n := |steps| - 1;
      Onward(StoryOf(steps[..n], t), steps[n], t)
  }

  // ----- What the state has of the story -----

  predicate HasBase(msg: MsgRead) {
    msg.Base? && msg.addr != 0
  }

  /** A context is that of the story's entry, with what was read since. */
  ghost predicate Stored(c: ReqCtx, y: Story) {
    && y.entry.Some? && y.entry.value.RecvBegin? && |y.captures| <= 1
    && (y.captures != [] ==> HasBase(y.entry.value.msg))
    && var entered := RecvCtx(y.entry.value.now, y.entry.value.sk, y.entry.value.msg);
       c == if y.captures == [] then entered else WriteBack(entered, y.captures[0])
  }

  /** Once an exit has looked, what there was to read has been read. */
  ghost predicate LookDone(y: Story) {
    y.looked && y.entry.Some? && y.entry.value.RecvBegin? && HasBase(y.entry.value.msg) ==> y.captures != []
  }

  /** The event reports the story: entry and exit with the time between them, the
      client, the bytes sent, and the capture read, or zeros if none was. */
  ghost predicate Reports(e: LatencyEvent, y: Story, pid: u32, key: u32) {
    && y.entry.Some? && y.entry.value.RecvBegin? && |y.exits| == 1 && y.exits[0].SendBegin?
    && |y.captures| <= 1 && y.outputs == 0
    && var entry, exit := y.entry.value, y.exits[0];
       && e.pid == pid && e.tid == key && e.command == 0
       && entry.now <= exit.now && e.latencyNs == exit.now - entry.now <= 10_000_000_000
       && (match entry.sk
           case Some(peer) => e.clientIp == peer.ip && e.clientPort == peer.port
           case None => e.clientIp == 0 && e.clientPort == 0)
       && BytesSent(exit.retval, e.bytes) && e.isError == (if exit.retval < 0 then 1 else 0)
       && (y.captures != [] <==> y.looked && HasBase(entry.msg))
       && e.reqData == if y.captures == [] then ZEROS else y.captures[0]
  }

  ghost predicate Live(c: ReqCtx, y: Story) {
    Stored(c, y) && y.outputs == 0 && (y.captures != [] ==> y.looked)
  }

  /** Where the thread stands in its story. */
  ghost predicate StoryInv(cfg: Config, s: KState, t: u32, y: Story) {
    var pc, key := PcOf(s, t), cfg.tgidOf(t);
    match pc
    case Idle => key in s.ctx ==> Live(s.ctx[key], y) && y.exits == [] && LookDone(y)
    case RecvReady(now, sk, msg) => y == Story(Some(RecvBegin(t, now, sk, msg)), false, [], [], 0)
    case RetGot => key in s.ctx && Live(s.ctx[key], y) && y.exits == [] && y.looked && y.captures == []
    case RetRead(data) =>
      && key in s.ctx && Live(s.ctx[key], y.(captures := [])) && y.exits == [] && y.looked && y.captures == [data]
      && HasBase(y.entry.value.msg)
    case SendStarted(now, retval) =>
      key in s.ctx ==> Live(s.ctx[key], y) && y.exits == [SendBegin(t, now, retval)] && LookDone(y)
    case SendGot(now, retval, c) => Live(c, y) && y.exits == [SendBegin(t, now, retval)] && LookDone(y)
    case _ => key !in s.ctx && Reports(pc.ev, y, t, key)
  }

  lemma GateReports(t: u32, key: u32, now: u64, retval: i64, c: ReqCtx, y: Story)
    requires Live(c, y) && y.exits == [SendBegin(t, now, retval)] && LookDone(y) && c.startNs <= now
    ensures match Gate(t, key, now, retval, c)
            case Some(e) => Reports(e, y, t, key)
            case None => true
  {
    GateTells(t, key, now, retval, c);
    if y.entry.value.sk.Some? {
      PackLossless(y.entry.value.sk.value);
    }
  }

  lemma RecvStory(cfg: Config, s: KState, st: KStep, y: Story)
    requires Enabled(cfg, s, st) && (st.RecvBegin? || st.RecvInsert?) && StoryInv(cfg, s, st.t, y)
    ensures StoryInv(cfg, Apply(cfg, s, st), st.t, Told(y, st))
  {
  }

  lemma RetStory(cfg: Config, s: KState, st: KStep, y: Story)
    requires Enabled(cfg, s, st) && (st.RetGet? || st.RetUserRead? || st.RetWrite?)
    requires StoryInv(cfg, s, st.t, y) && ThreadInv(cfg, s, st.t)
    ensures StoryInv(cfg, Apply(cfg, s, st), st.t, Told(y, st))
  {
    if st.RetUserRead? {
      assert Told(y, st).captures == [st.data] && Told(y, st).(captures := []) == y;
    }
  }

  lemma SendStory(cfg: Config, s: KState, st: KStep, y: Story)
    requires Enabled(cfg, s, st) && (st.SendBegin? || st.SendGet? || st.SendRemove?)
    requires StoryInv(cfg, s, st.t, y) && ThreadInv(cfg, s, st.t)
    ensures StoryInv(cfg, Apply(cfg, s, st), st.t, Told(y, st))
  {
    if st.SendRemove? {
      var pc := PcOf(s, st.t);
      GateReports(st.t, cfg.tgidOf(st.t), pc.now, pc.retval, pc.c, y);
    }
  }

  lemma OutputStory(cfg: Config, s: KState, st: KStep, y: Story)
    requires Enabled(cfg, s, st) && (st.CountRead? || st.CountWrite? || st.Output?) && StoryInv(cfg, s, st.t, y)
    ensures StoryInv(cfg, Apply(cfg, s, st), st.t, Told(y, st))
  {
  }

  lemma OwnStory(cfg: Config, s: KState, st: KStep, y: Story)
    requires KInv(cfg, s) && Enabled(cfg, s, st) && !st.Consume? && StoryInv(cfg, s, st.t, y)
    ensures StoryInv(cfg, Apply(cfg, s, st), st.t, Told(y, st))
  {
    assert ThreadInv(cfg, s, st.t);
    match st
    case RecvBegin(_, _, _, _) => RecvStory(cfg, s, st, y);
    case RecvInsert(_) => RecvStory(cfg, s, st, y);
    case RetGet(_) => RetStory(cfg, s, st, y);
    case RetUserRead(_, _) => RetStory(cfg, s, st, y);
    case RetWrite(_) => RetStory(cfg, s, st, y);
    case SendBegin(_, _, _) => SendStory(cfg, s, st, y);
    case SendGet(_) => SendStory(cfg, s, st, y);
    case SendRemove(_) => SendStory(cfg, s, st, y);
    case _ => OutputStory(cfg, s, st, y);
  }

  lemma OtherStory(cfg: Config, s: KState, st: KStep, t: u32, y: Story)
    requires OneThreadPerKey(cfg) && KInv(cfg, s) && Enabled(cfg, s, st) && !By(st, t) && Passes(cfg, t)
    requires StoryInv(cfg, s, t, y)
    ensures StoryInv(cfg, Apply(cfg, s, st), t, y)
  {
    OtherStays(cfg, s, st, t);
    if !st.Consume? {
      assert ThreadInv(cfg, s, st.t);
    }
    OtherKeysKept(cfg, s, st, cfg.tgidOf(t));
  }

  lemma {:induction false} StoriesHold(cfg: Config, steps: seq<KStep>, t: u32)
    requires OneThreadPerKey(cfg) && IsRun(cfg, steps) && Passes(cfg, t)
    ensures StoryInv(cfg, After(cfg, steps), t, StoryOf(steps, t))
  {
    if steps != [] {
      var n := |steps| - 1;
      StoriesHold(cfg, steps[..n], t);
      RefinesAtomic(cfg, steps[..n]);
      if By(steps[n], t) {
        OwnStory(cfg, After(cfg, steps[..n]), steps[n], StoryOf(steps[..n], t));
      } else {
        OtherStory(cfg, After(cfg, steps[..n]), steps[n], t, StoryOf(steps[..n], t));
      }
    }
  }

  // ----- The same by positions -----

  datatype Kind = Entries | Lookups | UserReads | Exits | Outs

  predicate IsOf(kind: Kind, t: u32, st: KStep) {
    match kind
    case Entries => st.RecvBegin? && st.t == t
    case Lookups => st.RetGet? && st.t == t
    case UserReads => st.RetUserRead? && st.t == t
    case Exits => st.SendBegin? && st.t == t
    case Outs => st.Output? && st.t == t
  }

  /** Positions from `from` on of a thread's steps of a kind, in order. */
  function Positions(steps: seq<KStep>, kind: Kind, t: u32, from: nat): seq<nat> {
    if |steps| <= from then []
    else
      var n := |steps| - 1;
      Positions(steps[..n], kind, t, from) + (if IsOf(kind, t, steps[n]) then [n] else [])
  }

  lemma {:induction false} PositionsExact(steps: seq<KStep>, kind: Kind, t: u32, from: nat, i: nat)
    ensures i in Positions(steps, kind, t, from) <==> from <= i < |steps| && IsOf(kind, t, steps[i])
  {
    if from < |steps| {
      PositionsExact(steps[..|steps| - 1], kind, t, from, i);
    }
  }

  ghost predicate CapturesAt(steps: seq<KStep>, t: u32, at: seq<nat>, captures: seq<Capture>) {
    |captures| == |at| && forall k | 0 <= k < |at| :: at[k] < |steps| && steps[at[k]] == RetUserRead(t, captures[k])
  }

  ghost predicate StepsAt(steps: seq<KStep>, at: seq<nat>, sts: seq<KStep>) {
    |sts| == |at| && forall k | 0 <= k < |at| :: at[k] < |steps| && steps[at[k]] == sts[k]
  }

  /** The story that begins with the entry at `e`. */
  ghost predicate StoryFrom(steps: seq<KStep>, t: u32, e: nat, y: Story) {
    && e < |steps| && IsOf(Entries, t, steps[e]) && y.entry == Some(steps[e])
    && Positions(steps, Entries, t, e + 1) == []
    && (y.looked <==> Positions(steps, Lookups, t, e + 1) != [])
    && CapturesAt(steps, t, Positions(steps, UserReads, t, e + 1), y.captures)
    && StepsAt(steps, Positions(steps, Exits, t, e + 1), y.exits)
    && y.outputs == |Positions(steps, Outs, t, e + 1)|
  }

  lemma PositionsLast(steps: seq<KStep>, kind: Kind, t: u32, from: nat)
    requires steps != [] && from <= |steps| - 1
    ensures var n := |steps| - 1;
            Positions(steps, kind, t, from)
            == Positions(steps[..n], kind, t, from) + (if IsOf(kind, t, steps[n]) then [n] else [])
  {
  }

  lemma CapturesGrow(steps: seq<KStep>, t: u32, at: seq<nat>, captures: seq<Capture>)
    requires steps != [] && CapturesAt(steps[..|steps| - 1], t, at, captures)
    ensures var n, st := |steps| - 1, steps[|steps| - 1];
            if IsOf(UserReads, t, st) then CapturesAt(steps, t, at + [n], captures + [st.data])
            else CapturesAt(steps, t, at, captures)
  {
  }

  lemma StepsGrow(steps: seq<KStep>, at: seq<nat>, sts: seq<KStep>)
    requires steps != [] && StepsAt(steps[..|steps| - 1], at, sts)
    ensures StepsAt(steps, at, sts) && StepsAt(steps, at + [|steps| - 1], sts + [steps[|steps| - 1]])
  {
  }

  lemma CapturesGoOn(steps: seq<KStep>, t: u32, from: nat, y: Story)
    requires steps != [] && from <= |steps| - 1 && !IsOf(Entries, t, steps[|steps| - 1])
    requires CapturesAt(steps[..|steps| - 1], t, Positions(steps[..|steps| - 1], UserReads, t, from), y.captures)
    ensures CapturesAt(steps, t, Positions(steps, UserReads, t, from), Onward(y, steps[|steps| - 1], t).captures)
  {
    PositionsLast(steps, UserReads, t, from);
    CapturesGrow(steps, t, Positions(steps[..|steps| - 1], UserReads, t, from), y.captures);
  }

  lemma ExitsGoOn(steps: seq<KStep>, t: u32, from: nat, y: Story)
    requires steps != [] && from <= |steps| - 1 && !IsOf(Entries, t, steps[|steps| - 1])
    requires StepsAt(steps[..|steps| - 1], Positions(steps[..|steps| - 1], Exits, t, from), y.exits)
    ensures StepsAt(steps, Positions(steps, Exits, t, from), Onward(y, steps[|steps| - 1], t).exits)
  {
    PositionsLast(steps, Exits, t, from);
    StepsGrow(steps, Positions(steps[..|steps| - 1], Exits, t, from), y.exits);
  }

  lemma CountsGoOn(steps: seq<KStep>, t: u32, from: nat, y: Story)
    requires steps != [] && from <= |steps| - 1 && !IsOf(Entries, t, steps[|steps| - 1])
    requires var before := steps[..|steps| - 1];
             && Positions(before, Entries, t, from) == []
             && (y.looked <==> Positions(before, Lookups, t, from) != [])
             && y.outputs == |Positions(before, Outs, t, from)|
    ensures var y' := Onward(y, steps[|steps| - 1], t);
            && y'.entry == y.entry && Positions(steps, Entries, t, from) == []
            && (y'.looked <==> Positions(steps, Lookups, t, from) != [])
            && y'.outputs == |Positions(steps, Outs, t, from)|
  {
    PositionsLast(steps, Entries, t, from);
    PositionsLast(steps, Lookups, t, from);
    PositionsLast(steps, Outs, t, from);
  }

  lemma StoryGoesOn(steps: seq<KStep>, t: u32, e: nat, y: Story)
    requires steps != [] && StoryFrom(steps[..|steps| - 1], t, e, y) && !IsOf(Entries, t, steps[|steps| - 1])
    ensures StoryFrom(steps, t, e, Onward(y, steps[|steps| - 1], t))
  {
    assert steps[..|steps| - 1][e] == steps[e];
    CapturesGoOn(steps, t, e + 1, y);
    ExitsGoOn(steps, t, e + 1, y);
    CountsGoOn(steps, t, e + 1, y);
  }

  lemma {:induction false} StoryBegins(steps: seq<KStep>, t: u32) returns (e: nat)
    requires StoryOf(steps, t).entry.Some?
    ensures StoryFrom(steps, t, e, StoryOf(steps, t))
  {
    var n := |steps| - 1;
    if IsOf(Entries, t, steps[n]) {
      e := n;
    } else {
      e := StoryBegins(steps[..n], t);
      StoryGoesOn(steps, t, e, StoryOf(steps[..n], t));
    }
  }

  /** Positions of the recvmsg entry, the sendmsg exit and the output of one request. */
  datatype Places = Places(entry: nat, exit: nat, output: nat)

  /** Between entry and output the thread begins no other entry, no other exit, and
      outputs nothing. */
  ghost predicate OneRequest(steps: seq<KStep>, t: u32, p: Places) {
    && p.entry < p.exit < p.output < |steps|
    && steps[p.entry].RecvBegin? && steps[p.exit].SendBegin? && steps[p.output].Output?
    && steps[p.entry].t == steps[p.exit].t == steps[p.output].t == t
    && forall i | p.entry < i < p.output && i != p.exit && By(steps[i], t) ::
         !steps[i].RecvBegin? && !steps[i].SendBegin? && !steps[i].Output?
  }

  ghost predicate ReadBetween(steps: seq<KStep>, t: u32, p: Places, i: nat) {
    p.entry < i < p.output < |steps| && steps[i].RetUserRead? && steps[i].t == t
  }

  ghost predicate LookupBetween(steps: seq<KStep>, t: u32, p: Places, i: nat) {
    p.entry < i < p.output < |steps| && steps[i].RetGet? && steps[i].t == t
  }

  /** The capture is what the one step between entry and output read from user memory,
      or zeros without such a step; there is one exactly when the entry had a buffer
      and a recvmsg exit looked the context up in between. */
  ghost predicate CaptureIsRead(steps: seq<KStep>, t: u32, p: Places, data: Capture)
    requires OneRequest(steps, t, p)
  {
    && (forall i: nat, j: nat | ReadBetween(steps, t, p, i) && ReadBetween(steps, t, p, j) :: i == j)
    && (forall i: nat | ReadBetween(steps, t, p, i) :: data == steps[i].data)
    && ((exists i: nat :: ReadBetween(steps, t, p, i)) <==>
          HasBase(steps[p.entry].msg) && exists i: nat :: LookupBetween(steps, t, p, i))
    && ((forall i: nat :: !ReadBetween(steps, t, p, i)) ==> data == ZEROS)
  }

  /** The event reports the request at these positions of the run, field by field. */
  ghost predicate ReportsSteps(cfg: Config, steps: seq<KStep>, e: LatencyEvent, p: Places) {
    && e.tid == cfg.tgidOf(e.pid) && e.command == 0 && OneRequest(steps, e.pid, p)
    && var entry, exit := steps[p.entry], steps[p.exit];
       && entry.now <= exit.now && e.latencyNs == exit.now - entry.now <= 10_000_000_000
       && (match entry.sk
           case Some(peer) => e.clientIp == peer.ip && e.clientPort == peer.port
           case None => e.clientIp == 0 && e.clientPort == 0)
       && BytesSent(exit.retval, e.bytes) && e.isError == (if exit.retval < 0 then 1 else 0)
       && CaptureIsRead(steps, e.pid, p, e.reqData)
  }

  lemma InPositions(steps: seq<KStep>, o: nat, kind: Kind, t: u32, from: nat, i: nat)
    requires from <= i < o <= |steps|
    ensures IsOf(kind, t, steps[i]) <==> i in Positions(steps[..o], kind, t, from)
  {
    PositionsExact(steps[..o], kind, t, from, i);
    assert steps[..o][i] == steps[i];
  }

  /** The positions found are within the run, and of the kind. */
  lemma FoundPosition(steps: seq<KStep>, o: nat, kind: Kind, t: u32, from: nat, k: nat)
    requires o <= |steps| && k < |Positions(steps[..o], kind, t, from)|
    ensures var i := Positions(steps[..o], kind, t, from)[k]; from <= i < o && IsOf(kind, t, steps[i])
  {
    var i := Positions(steps[..o], kind, t, from)[k];
    PositionsExact(steps[..o], kind, t, from, i);
    assert i in Positions(steps[..o], kind, t, from);
  }

  lemma StoryPlaces(steps: seq<KStep>, o: nat, t: u32, e: nat, y: Story) returns (p: Places)
    requires o < |steps| && IsOf(Outs, t, steps[o]) && StoryFrom(steps[..o], t, e, y)
    requires |y.exits| == 1 && y.outputs == 0
    ensures p.entry == e && p.output == o && OneRequest(steps, t, p)
    ensures y.entry == Some(steps[p.entry]) && y.exits == [steps[p.exit]]
  {
    var at := Positions(steps[..o], Exits, t, e + 1);
    var x := at[0];
    FoundPosition(steps, o, Exits, t, e + 1, 0);
    p := Places(e, x, o);
    forall i: nat | e < i < o && i != x && By(steps[i], t)
      ensures !steps[i].RecvBegin? && !steps[i].SendBegin? && !steps[i].Output?
    {
      assert at == [x];
      InPositions(steps, o, Entries, t, e + 1, i);
      InPositions(steps, o, Outs, t, e + 1, i);
      InPositions(steps, o, Exits, t, e + 1, i);
    }
  }

  /** Whether a thread's step of a kind lies between two positions. */
  lemma AnyBetween(steps: seq<KStep>, o: nat, kind: Kind, t: u32, from: nat)
    requires o <= |steps|
    ensures Positions(steps[..o], kind, t, from) != [] <==> exists i: nat :: from <= i < o && IsOf(kind, t, steps[i])
  {
    if Positions(steps[..o], kind, t, from) != [] {
      FoundPosition(steps, o, kind, t, from, 0);
    } else {
      forall i: nat | from <= i < o ensures !IsOf(kind, t, steps[i]) {
        InPositions(steps, o, kind, t, from, i);
      }
    }
  }

  /** A read within the request is the one that the story tells of. */
  lemma ReadIsTold(steps: seq<KStep>, o: nat, t: u32, p: Places, y: Story, i: nat)
    requires o == p.output < |steps| && StoryFrom(steps[..o], t, p.entry, y) && |y.captures| <= 1
    requires ReadBetween(steps, t, p, i)
    ensures y.captures == [steps[i].data] && Positions(steps[..o], UserReads, t, p.entry + 1) == [i]
  {
    var at := Positions(steps[..o], UserReads, t, p.entry + 1);
    InPositions(steps, o, UserReads, t, p.entry + 1, i);
    assert i in at && |at| == |y.captures|;
    assert at[0] == i && steps[..o][i] == steps[i];
  }

  lemma StoryReads(steps: seq<KStep>, o: nat, t: u32, p: Places, y: Story)
    requires o == p.output < |steps| && StoryFrom(steps[..o], t, p.entry, y) && |y.captures| <= 1
    ensures forall i: nat | ReadBetween(steps, t, p, i) ::
              y.captures == [steps[i].data] && Positions(steps[..o], UserReads, t, p.entry + 1) == [i]
    ensures y.captures != [] ==> exists i: nat :: ReadBetween(steps, t, p, i)
  {
    forall i: nat | ReadBetween(steps, t, p, i)
      ensures y.captures == [steps[i].data] && Positions(steps[..o], UserReads, t, p.entry + 1) == [i]
    {
      ReadIsTold(steps, o, t, p, y, i);
    }
    AnyBetween(steps, o, UserReads, t, p.entry + 1);
    assert forall i: nat :: ReadBetween(steps, t, p, i)
                            <==> p.entry + 1 <= i < o && IsOf(UserReads, t, steps[i]);
  }

  lemma StoryLooks(steps: seq<KStep>, o: nat, t: u32, p: Places, y: Story)
    requires o == p.output < |steps| && StoryFrom(steps[..o], t, p.entry, y)
    ensures y.looked <==> exists i: nat :: LookupBetween(steps, t, p, i)
  {
    AnyBetween(steps, o, Lookups, t, p.entry + 1);
    assert forall i: nat :: LookupBetween(steps, t, p, i)
                            <==> p.entry + 1 <= i < o && IsOf(Lookups, t, steps[i]);
  }

  /** What the story reports, the steps at its positions do. */
  lemma StoryToSteps(cfg: Config, steps: seq<KStep>, o: nat, e: LatencyEvent, from: nat, y: Story) returns (p: Places)
    requires o < |steps| && IsOf(Outs, e.pid, steps[o]) && StoryFrom(steps[..o], e.pid, from, y)
    requires Reports(e, y, e.pid, cfg.tgidOf(e.pid))
    ensures p.output == o && ReportsSteps(cfg, steps, e, p)
  {
    p := StoryPlaces(steps, o, e.pid, from, y);
    StoryReads(steps, o, e.pid, p, y);
    StoryLooks(steps, o, e.pid, p, y);
  }

  lemma {:induction false} PrefixRuns(cfg: Config, steps: seq<KStep>, k: nat)
    requires IsRun(cfg, steps) && k <= |steps|
    ensures IsRun(cfg, steps[..k])
    ensures k < |steps| ==> Enabled(cfg, After(cfg, steps[..k]), steps[k])
  {
    if k == |steps| {
      assert steps[..k] == steps;
    } else if k < |steps| - 1 {
      PrefixRuns(cfg, steps[..|steps| - 1], k);
      assert steps[..|steps| - 1][..k] == steps[..k];
    }
  }

  /** Every output reports the request that its thread last entered. */
  lemma OutputReports(cfg: Config, steps: seq<KStep>, o: nat) returns (p: Places)
    requires OneThreadPerKey(cfg) && IsRun(cfg, steps) && o < |steps| && steps[o].Output?
    ensures IsRun(cfg, steps[..o]) && PcOf(After(cfg, steps[..o]), steps[o].t).Flagged?
    ensures var e := PcOf(After(cfg, steps[..o]), steps[o].t).ev;
            p.output == o && Passes(cfg, e.pid) && ReportsSteps(cfg, steps, e, p)
  {
    var t, before := steps[o].t, steps[..o];
    PrefixRuns(cfg, steps, o);
    RefinesAtomic(cfg, before);
    assert ThreadInv(cfg, After(cfg, before), t);
    StoriesHold(cfg, before, t);
    var from := StoryBegins(before, t);
    p := StoryToSteps(cfg, steps, o, PcOf(After(cfg, before), t).ev, from, StoryOf(before, t));
  }

  // ----- All outputs of a run -----

  /** Positions of the outputs of a run, in order. */
  function OutputsOf(steps: seq<KStep>): seq<nat> {
    if steps == [] then []
    else
      var n := |steps| - 1;
      OutputsOf(steps[..n]) + (if steps[n].Output? then [n] else [])
  }

  /** The attempt is the one that the output at `o` makes. */
  ghost predicate MadeAt(cfg: Config, steps: seq<KStep>, o: nat, a: Attempt) {
    && o < |steps| && steps[o].Output? && IsRun(cfg, steps[..o])
    && var pc := PcOf(After(cfg, steps[..o]), steps[o].t);
       pc.Flagged? && a == Attempt(pc.ev, pc.cpu, pc.forced, !steps[o].full)
  }

  lemma MadeInPrefix(cfg: Config, steps: seq<KStep>, n: nat, o: nat, a: Attempt)
    requires o < n <= |steps| && MadeAt(cfg, steps[..n], o, a)
    ensures MadeAt(cfg, steps, o, a)
  {
    assert steps[..n][..o] == steps[..o];
  }

  lemma {:induction false} AttemptsAtOutputs(cfg: Config, steps: seq<KStep>)
    requires IsRun(cfg, steps)
    ensures |OutputsOf(steps)| == |After(cfg, steps).attempts|
    ensures forall m | 0 <= m < |OutputsOf(steps)| ::
              OutputsOf(steps)[m] < |steps| && MadeAt(cfg, steps, OutputsOf(steps)[m], After(cfg, steps).attempts[m])
    ensures forall m, m' | 0 <= m < m' < |OutputsOf(steps)| :: OutputsOf(steps)[m] < OutputsOf(steps)[m']
  {
    if steps != [] {
      var n := |steps| - 1;
      AttemptsAtOutputs(cfg, steps[..n]);
      forall m | 0 <= m < |OutputsOf(steps[..n])|
        ensures MadeAt(cfg, steps, OutputsOf(steps[..n])[m], After(cfg, steps[..n]).attempts[m])
      {
        MadeInPrefix(cfg, steps, n, OutputsOf(steps[..n])[m], After(cfg, steps[..n]).attempts[m]);
      }
      AttemptsGrow(cfg, steps);
    }
  }

  lemma AttemptsGrow(cfg: Config, steps: seq<KStep>)
    requires IsRun(cfg, steps) && steps != []
    ensures var n := |steps| - 1;
            var before, after := After(cfg, steps[..n]).attempts, After(cfg, steps).attempts;
            if steps[n].Output? then
              after != [] && after[..|after| - 1] == before && MadeAt(cfg, steps, n, after[|after| - 1])
            else after == before
  {
    AttemptsStep(cfg, After(cfg, steps[..|steps| - 1]), steps[|steps| - 1]);
  }

  lemma AttemptsStep(cfg: Config, s: KState, st: KStep)
    requires Enabled(cfg, s, st)
    ensures var attempts := Apply(cfg, s, st).attempts;
            if st.Output? then
              var pc := PcOf(s, st.t); attempts == s.attempts + [Attempt(pc.ev, pc.cpu, pc.forced, !st.full)]
            else attempts == s.attempts
  {
  }

  /** `f` gives every event, by its place, the steps that it reports: outputs come in
      the order of the events, and between two outputs of one key lies the entry that
      the later one reports. */
  ghost predicate StepMatching(cfg: Config, steps: seq<KStep>, es: seq<LatencyEvent>, f: seq<Places>) {
    && |f| == |es|
    && (forall m | 0 <= m < |es| :: ReportsSteps(cfg, steps, es[m], f[m]))
    && (forall m, m' | 0 <= m < m' < |es| :: f[m].output < f[m'].output)
    && (forall m, m' | 0 <= m < m' < |es| && es[m].tid == es[m'].tid :: f[m].output < f[m'].entry)
  }

  /** The request that one attempt reports, whose output was refused or accepted. */
  ghost predicate AttemptAt(cfg: Config, steps: seq<KStep>, a: Attempt, p: Places) {
    && Passes(cfg, a.ev.pid) && ReportsSteps(cfg, steps, a.ev, p) && (a.ok <==> !steps[p.output].full)
  }

  lemma AttemptReported(cfg: Config, steps: seq<KStep>, o: nat, a: Attempt) returns (p: Places)
    requires OneThreadPerKey(cfg) && IsRun(cfg, steps) && MadeAt(cfg, steps, o, a)
    ensures p.output == o && AttemptAt(cfg, steps, a, p)
  {
    p := OutputReports(cfg, steps, o);
  }

  lemma AttemptsReported(cfg: Config, steps: seq<KStep>) returns (f: seq<Places>)
    requires OneThreadPerKey(cfg) && IsRun(cfg, steps)
    ensures |f| == |After(cfg, steps).attempts|
    ensures forall m | 0 <= m < |f| :: AttemptAt(cfg, steps, After(cfg, steps).attempts[m], f[m])
    ensures forall m, m' | 0 <= m < m' < |f| :: f[m].output < f[m'].output
  {
    AttemptsAtOutputs(cfg, steps);
    f := AllPlaces(cfg, steps, OutputsOf(steps), After(cfg, steps).attempts);
  }

  lemma AllPlaces(cfg: Config, steps: seq<KStep>, at: seq<nat>, attempts: seq<Attempt>) returns (f: seq<Places>)
    requires OneThreadPerKey(cfg) && IsRun(cfg, steps) && |at| == |attempts|
    requires forall m | 0 <= m < |at| :: MadeAt(cfg, steps, at[m], attempts[m])
    ensures |f| == |at|
    ensures forall m | 0 <= m < |f| :: f[m].output == at[m] && AttemptAt(cfg, steps, attempts[m], f[m])
  {
    f := [];
    while |f| < |at|
      invariant |f| <= |at|
      invariant forall m | 0 <= m < |f| :: f[m].output == at[m] && AttemptAt(cfg, steps, attempts[m], f[m])
    {
      var p := AttemptReported(cfg, steps, at[|f|], attempts[|f|]);
      f := f + [p];
    }
  }

  /** A later output of the same key reports a later entry. */
  lemma LaterEntry(cfg: Config, steps: seq<KStep>, e: LatencyEvent, p: Places, e': LatencyEvent, p': Places)
    requires OneThreadPerKey(cfg) && Passes(cfg, e.pid) && Passes(cfg, e'.pid)
    requires ReportsSteps(cfg, steps, e, p) && ReportsSteps(cfg, steps, e', p')
    requires e.tid == e'.tid && p.output < p'.output
    ensures p.output < p'.entry
  {
    assert e.pid == e'.pid;
    assert By(steps[p.output], e'.pid);
  }

  /** On every interleaving, with one thread per key, the outputs report the steps of
      requests of their own. */
  lemma StepsMatch(cfg: Config, steps: seq<KStep>) returns (f: seq<Places>)
    requires OneThreadPerKey(cfg) && IsRun(cfg, steps)
    ensures StepMatching(cfg, steps, Events(After(cfg, steps).attempts), f)
    ensures forall m | 0 <= m < |f| :: After(cfg, steps).attempts[m].ok <==> !steps[f[m].output].full
  {
    var attempts := After(cfg, steps).attempts;
    f := AttemptsReported(cfg, steps);
    forall m | 0 <= m < |f| ensures ReportsSteps(cfg, steps, Events(attempts)[m], f[m]) {
      assert AttemptAt(cfg, steps, attempts[m], f[m]);
    }
    forall m, m' | 0 <= m < m' < |f| && attempts[m].ev.tid == attempts[m'].ev.tid
      ensures f[m].output < f[m'].entry
    {
      assert AttemptAt(cfg, steps, attempts[m], f[m]) && AttemptAt(cfg, steps, attempts[m'], f[m']);
      LaterEntry(cfg, steps, attempts[m].ev, f[m], attempts[m'].ev, f[m']);
    }
  }

  /** A selection of the events, in order, reports as they do. */
  lemma SelectionReports(cfg: Config, steps: seq<KStep>, es: seq<LatencyEvent>, f: seq<Places>,
                         part: seq<LatencyEvent>, at: seq<nat>) returns (g: seq<Places>)
    requires StepMatching(cfg, steps, es, f) && |at| == |part|
    requires forall k | 0 <= k < |at| :: at[k] < |es| && es[at[k]] == part[k]
    requires forall k, k' | 0 <= k < k' < |at| :: at[k] < at[k']
    ensures StepMatching(cfg, steps, part, g)
  {
    g := seq(|at|, k requires 0 <= k < |at| => f[at[k]]);
    forall k | 0 <= k < |part| ensures ReportsSteps(cfg, steps, part[k], g[k]) {
      assert ReportsSteps(cfg, steps, es[at[k]], f[at[k]]);
    }
  }
}
