/** Runs of undisturbed probe handlers, and how each emitted event pairs with
    the request that caused it. */
module AtomicRuns {
  import opened Words
  import opened Resp
  import opened Probes

  /** One handler invocation that passed the thread filter, with its inputs. */
  datatype AStep =
    | ARecv(pid: u32, key: u32, now: u64, sk: Option<Peer>, msg: MsgRead)
    | ARet(pid: u32, key: u32, data: Capture)
    | ASend(pid: u32, key: u32, now: u64, retval: i64)

  datatype AState = AState(ctx: map<u32, ReqCtx>, emitted: seq<LatencyEvent>)

  function ListOf<T>(o: Option<T>): seq<T> {
    if o.Some? then [o.value] else []
  }

  function Do(capacity: nat, a: AState, st: AStep): AState {
    match st
    case ARecv(_, key, now, sk, msg) =>
      a.(ctx := BoundedInsert(a.ctx, capacity, key, RecvCtx(now, sk, msg)))
    case ARet(_, key, data) =>
      a.(ctx := RetEffect(a.ctx, key, data))
    case ASend(pid, key, now, retval) =>
      AState(a.ctx - {key}, a.emitted + ListOf(Emission(a.ctx, pid, key, now, retval)))
  }

  function Exec(capacity: nat, ls: seq<AStep>): AState {
    if ls == [] then AState(map[], [])
    else Do(capacity, Exec(capacity, ls[..|ls| - 1]), ls[|ls| - 1])
  }

  lemma ExecAppend(capacity: nat, ls: seq<AStep>, st: AStep)
    ensures Exec(capacity, ls + [st]) == Do(capacity, Exec(capacity, ls), st)
  {
    assert (ls + [st])[..|ls|] == ls;
  }

  /** What the `j`-th handler of a run emits. */
  function Emits(capacity: nat, ls: seq<AStep>, j: nat): Option<LatencyEvent>
    requires j < |ls|
  {
    if ls[j].ASend?
    then Emission(Exec(capacity, ls[..j]).ctx, ls[j].pid, ls[j].key, ls[j].now, ls[j].retval)
    else None
  }

  /** The handlers of one thread, in order. */
  function ByThread(ls: seq<AStep>, t: u32): seq<AStep> {
    if ls == [] then []
    else ByThread(ls[..|ls| - 1], t) + (if ls[|ls| - 1].pid == t then [ls[|ls| - 1]] else [])
  }

  lemma ByThreadAppend(ls: seq<AStep>, st: AStep, t: u32)
    ensures ByThread(ls + [st], t) == ByThread(ls, t) + (if st.pid == t then [st] else [])
  {
    assert (ls + [st])[..|ls|] == ls;
  }

  lemma {:induction false} ByThreadConcat(a: seq<AStep>, b: seq<AStep>, t: u32)
    ensures ByThread(a + b, t) == ByThread(a, t) + ByThread(b, t)
  {
    if b == [] {
      assert a + b == a;
    } else {
      var n := |b| - 1;
      ByThreadConcat(a, b[..n], t);
      assert (a + b)[..|a + b| - 1] == a + b[..n];
    }
  }

  // ----- Pairing, stated over the history alone -----

  /** `ls[i]` is the most recent recvmsg entry for `key` before position `j`,
      and no sendmsg exit for `key` lies between them. */
  ghost predicate Latest(ls: seq<AStep>, i: nat, j: nat, key: u32) {
    && i < j <= |ls| && ls[i].ARecv? && ls[i].key == key
    && forall m | i < m < j && ls[m].key == key :: ls[m].ARet?
  }

  /** User data read by the first recvmsg exit for `key` in `ls`. */
  function FirstRet(ls: seq<AStep>, key: u32): Option<Capture> {
    if ls == [] then None
    else
      var last := ls[|ls| - 1];
      match FirstRet(ls[..|ls| - 1], key)
      case Some(d) => Some(d)
      case None => if last.ARet? && last.key == key then Some(last.data) else None
  }

  /** The capture that an event must carry: what the first recvmsg exit after
      the entry read, if that entry recorded a user buffer, and zeros otherwise. */
  function CaptureOf(recv: AStep, ret: Option<Capture>): Capture
    requires recv.ARecv?
  {
    if recv.msg.Base? && recv.msg.addr != 0 && ret.Some? then ret.value else ZEROS
  }

  /** Event `e`, emitted by the sendmsg exit `ls[j]`, reports the request that
      the recvmsg entry `ls[i]` began: its start time, its client, its capture. */
  ghost predicate Paired(ls: seq<AStep>, i: nat, j: nat, e: LatencyEvent) {
    && j < |ls| && Latest(ls, i, j, e.tid)
    && ls[j].ASend? && ls[j].key == e.tid && ls[j].pid == e.pid
    && e.latencyNs == WrappingSub(ls[j].now, ls[i].now) <= LATENCY_LIMIT
    && (match ls[i].sk
        case Some(peer) => e.clientIp == peer.ip && e.clientPort == peer.port
        case None => e.clientIp == 0 && e.clientPort == 0)
    && e.reqData == CaptureOf(ls[i], FirstRet(ls[i + 1..j], e.tid))
    && BytesSent(ls[j].retval, e.bytes) && e.isError == (if ls[j].retval < 0 then 1 else 0)
  }

  /** The context that history alone assigns to a request. */
  function HistoryCtx(recv: AStep, ret: Option<Capture>): ReqCtx
    requires recv.ARecv?
  {
    var c := RecvCtx(recv.now, recv.sk, recv.msg);
    if c.iovBase != 0 && ret.Some? then WriteBack(c, ret.value) else c
  }

  /** A stored context is always that of the most recent entry for its key. */
  lemma {:induction false} StoredIsLatest(capacity: nat, ls: seq<AStep>, key: u32) returns (i: nat)
    requires key in Exec(capacity, ls).ctx
    ensures Latest(ls, i, |ls|, key)
    ensures Exec(capacity, ls).ctx[key] == HistoryCtx(ls[i], FirstRet(ls[i + 1..], key))
  {
    var n := |ls| - 1;
    if ls[n].ARecv? && ls[n].key == key {
      i := n;
    } else {
      KeptByOthers(capacity, Exec(capacity, ls[..n]), ls[n], key);
      i := StoredIsLatest(capacity, ls[..n], key);
      LatestGrows(ls, i, key);
      FirstRetGrows(ls, i, key);
    }
  }

  /** The latest entry stays the latest until the key is entered or removed. */
  lemma LatestGrows(ls: seq<AStep>, i: nat, key: u32)
    requires ls != [] && Latest(ls[..|ls| - 1], i, |ls| - 1, key)
    requires ls[|ls| - 1].key == key ==> ls[|ls| - 1].ARet?
    ensures Latest(ls, i, |ls|, key)
  {
  }

  lemma FirstRetGrows(ls: seq<AStep>, i: nat, key: u32)
    requires i + 1 < |ls|
    ensures var last, before := ls[|ls| - 1], FirstRet(ls[..|ls| - 1][i + 1..], key);
            FirstRet(ls[i + 1..], key) ==
            if before.Some? then before else if last.ARet? && last.key == key then Some(last.data) else None
  {
    assert ls[i + 1..][..|ls[i + 1..]| - 1] == ls[..|ls| - 1][i + 1..];
  }

  /** A step that is not the key's own entry can only have kept the stored
      context or written a capture into it. */
  lemma KeptByOthers(capacity: nat, a: AState, st: AStep, key: u32)
    requires key in Do(capacity, a, st).ctx && !(st.ARecv? && st.key == key)
    ensures key in a.ctx && (st.key == key ==> st.ARet?)
    ensures Do(capacity, a, st).ctx[key] ==
            if st.key == key && a.ctx[key].iovBase != 0 then WriteBack(a.ctx[key], st.data) else a.ctx[key]
  {
  }

  /** Every emission reports the most recent entry for its key. */
  lemma EmissionPaired(capacity: nat, ls: seq<AStep>, j: nat) returns (i: nat)
    requires j < |ls| && Emits(capacity, ls, j).Some?
    ensures Paired(ls, i, j, Emits(capacity, ls, j).value)
    ensures Exec(capacity, ls[..j]).ctx[ls[j].key].startNs == ls[i].now
  {
    var key := ls[j].key;
    i := StoredIsLatest(capacity, ls[..j], key);
    assert ls[..j][i + 1..] == ls[i + 1..j];
    ByteCountIsSent(ls[j].retval);
    if ls[i].sk.Some? {
      PackLossless(ls[i].sk.value);
    }
  }

  /** Between two emissions of one key lies the entry that the second reports,
      so no entry is reported twice. */
  lemma PairingOneToOne(ls: seq<AStep>, i: nat, j: nat, e: LatencyEvent, i': nat, j': nat, e': LatencyEvent)
    requires Paired(ls, i, j, e) && Paired(ls, i', j', e')
    requires e.tid == e'.tid && j < j'
    ensures i < j < i' < j'
  {
  }

  /** Every event in the output was emitted at some position of the run. */
  lemma {:induction false} EmittedSomewhere(capacity: nat, ls: seq<AStep>, e: LatencyEvent) returns (j: nat)
    requires e in Exec(capacity, ls).emitted
    ensures j < |ls| && Emits(capacity, ls, j) == Some(e)
  {
    var n := |ls| - 1;
    if e in Exec(capacity, ls[..n]).emitted {
      j := EmittedSomewhere(capacity, ls[..n], e);
      assert ls[..n][..j] == ls[..j];
    } else {
      j := n;
    }
  }

  // ----- Which requests are reported -----

  /** The keys that some handler has entered. */
  function EntryKeys(ls: seq<AStep>): set<u32> {
    set i | 0 <= i < |ls| && ls[i].ARecv? :: ls[i].key
  }

  lemma EntryKeysGrow(ls: seq<AStep>)
    requires ls != []
    ensures EntryKeys(ls) == EntryKeys(ls[..|ls| - 1]) + (if ls[|ls| - 1].ARecv? then {ls[|ls| - 1].key} else {})
  {
    var n := |ls| - 1;
    assert forall i | 0 <= i < n :: ls[..n][i] == ls[i];
  }

  lemma {:induction false} StoredKeysEntered(capacity: nat, ls: seq<AStep>)
    ensures Exec(capacity, ls).ctx.Keys <= EntryKeys(ls)
  {
    if ls != [] {
      StoredKeysEntered(capacity, ls[..|ls| - 1]);
      EntryKeysGrow(ls);
    }
  }

  /** A new key finds room while the entered keys fit. */
  lemma RoomForEntry(capacity: nat, ls: seq<AStep>)
    requires ls != [] && ls[|ls| - 1].ARecv? && |EntryKeys(ls)| <= capacity
    ensures ls[|ls| - 1].key in Exec(capacity, ls).ctx
  {
    var n := |ls| - 1;
    var before, key := Exec(capacity, ls[..n]).ctx, ls[n].key;
    StoredKeysEntered(capacity, ls[..n]);
    EntryKeysGrow(ls);
    if key !in before {
      SizeOf(before.Keys, EntryKeys(ls) - {key});
      assert |before| == |before.Keys|;
    }
  }

  lemma SizeOf(a: set<u32>, b: set<u32>)
    requires a <= b
    ensures |a| <= |b|
  {
    assert b == a + (b - a);
  }

  /** While the entered keys fit in the map, the latest entry is stored. */
  lemma {:induction false} LatestIsStored(capacity: nat, ls: seq<AStep>, i: nat, key: u32)
    requires |EntryKeys(ls)| <= capacity && Latest(ls, i, |ls|, key)
    ensures key in Exec(capacity, ls).ctx
  {
    var n := |ls| - 1;
    if i == n {
      RoomForEntry(capacity, ls);
    } else {
      EntryKeysGrow(ls);
      SizeOf(EntryKeys(ls[..n]), EntryKeys(ls));
      LatestIsStored(capacity, ls[..n], i, key);
    }
  }

  /** While the entered keys fit, a sendmsg exit emits exactly when a recvmsg entry
      for its key is still open, at most ten seconds old by the gate's subtraction. */
  lemma EmitsExact(capacity: nat, ls: seq<AStep>, j: nat)
    requires j < |ls| && ls[j].ASend? && |EntryKeys(ls[..j])| <= capacity
    ensures Emits(capacity, ls, j).Some? <==>
            exists i: nat :: Latest(ls, i, j, ls[j].key) && WrappingSub(ls[j].now, ls[i].now) <= 10_000_000_000
  {
    var key := ls[j].key;
    if Emits(capacity, ls, j).Some? {
      var i := EmissionPaired(capacity, ls, j);
    }
    forall i: nat | Latest(ls, i, j, key) && WrappingSub(ls[j].now, ls[i].now) <= 10_000_000_000
      ensures Emits(capacity, ls, j).Some?
    {
      assert Latest(ls[..j], i, j, key);
      LatestIsStored(capacity, ls[..j], i, key);
      var i' := StoredIsLatest(capacity, ls[..j], key);
      assert i' == i;
    }
  }
}
