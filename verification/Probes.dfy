/** The kernel probes (aya-test-ebpf/src/main.rs): data shapes, the effect of
    each handler when it runs undisturbed, and the handlers as they update the
    shared maps in place. */
module Probes {
  import opened Words
  import opened Resp

  const LATENCY_LIMIT: int := 10_000_000_000
  const BATCH_SIZE: int := 16
  const REQ_CTX_ENTRIES: nat := 10240

  type u8 = x: int | 0 <= x < 256
  type u16 = x: int | 0 <= x < 0x1_0000

  datatype ReqCtx = ReqCtx(startNs: u64, iovBase: u64, clientPacked: u64, reqData: Capture)

  datatype LatencyEvent = LatencyEvent(
    pid: u32, tid: u32, latencyNs: u64, bytes: u32, clientIp: u32, clientPort: u16,
    command: u8, isError: u8, reqData: Capture)

  // ----- What the environment supplies -----

  /** Client address and port in host byte order, as read from the socket. */
  datatype Peer = Peer(ip: u32, port: u16)

  /** Outcome of reading the user buffer address out of the message header. */
  datatype MsgRead = NoMessage | Failed | Base(addr: u64)

  const ZEROS: Capture :=
    "\0\0\0\0\0\0\0\0\0\0\0\0\0\0\0\0" + "\0\0\0\0\0\0\0\0\0\0\0\0\0\0\0\0"

  // ----- recvmsg entry -----

  /** `ip << 16 | port`, written as arithmetic: the two fields do not overlap. */
  function Pack(peer: Peer): u64 {
    peer.ip * 0x1_0000 + peer.port
  }

  function PackedIp(packed: u64): u32 {
    packed / 0x1_0000 % 0x1_0000_0000
  }

  function PackedPort(packed: u64): u16 {
    packed % 0x1_0000
  }

  /** Address and port survive the 48-bit packing unchanged. */
  lemma PackLossless(peer: Peer)
    ensures PackedIp(Pack(peer)) == peer.ip && PackedPort(Pack(peer)) == peer.port
    ensures Pack(peer) < 0x1_0000_0000_0000
  {
    var q, r := Pack(peer) / 0x1_0000, Pack(peer) % 0x1_0000;
    assert Pack(peer) == q * 0x1_0000 + r;
    assert q == peer.ip && r == peer.port;
  }

  /** The same on machine words: shift and or add up, and shift and mask undo them. */
  lemma PackBits(ip: bv64, port: bv64)
    requires ip <= 0xFFFF_FFFF && port <= 0xFFFF
    ensures (ip << 16) | port == ip * 0x1_0000 + port
    ensures (((ip << 16) | port) >> 16) == ip && ((ip << 16) | port) & 0xFFFF == port
  {
  }

  /** The context that a recvmsg entry prepares. */
  function RecvCtx(now: u64, sk: Option<Peer>, msg: MsgRead): ReqCtx {
    ReqCtx(now,
           if msg.Base? then msg.addr else 0,
           if sk.Some? then Pack(sk.value) else 0,
           ZEROS)
  }

  /** What a context tells of an entry: its time and client, and where its bytes will
      be, with nothing read yet. */
  ghost predicate TellsEntry(c: ReqCtx, now: u64, sk: Option<Peer>, msg: MsgRead) {
    && c.startNs == now && c.reqData == ZEROS
    && c.iovBase == (match msg case Base(addr) => addr case _ => 0)
    && match sk
       case Some(peer) =>
         c.clientPacked / 0x1_0000 % 0x1_0000_0000 == peer.ip && c.clientPacked % 0x1_0000 == peer.port
       case None => c.clientPacked == 0
  }

  lemma ContextTells(now: u64, sk: Option<Peer>, msg: MsgRead)
    ensures TellsEntry(RecvCtx(now, sk, msg), now, sk, msg)
  {
    if sk.Some? {
      PackLossless(sk.value);
    }
  }

  /** A bounded hash map takes a new key only while it has room; an existing
      key is always overwritten. */
  function BoundedInsert<K(==), V>(m: map<K, V>, capacity: nat, k: K, v: V): map<K, V> {
    if k in m || |m| < capacity then m[k := v] else m
  }

  // ----- recvmsg exit -----

  function WriteBack(c: ReqCtx, data: Capture): ReqCtx {
    c.(reqData := data, iovBase := 0)
  }

  function RetEffect(ctx: map<u32, ReqCtx>, key: u32, data: Capture): map<u32, ReqCtx> {
    if key in ctx && ctx[key].iovBase != 0 then ctx[key := WriteBack(ctx[key], data)] else ctx
  }

  // ----- sendmsg exit -----

  function ByteCount(retval: i64): u32 {
    if retval > 0 then retval % 0x1_0000_0000 else 0
  }

  /** What an exit that returned `retval` reports as its bytes: the value itself, none
      for an error, and the low 32 bits of what does not fit. */
  ghost predicate BytesSent(retval: i64, bytes: u32) {
    && (0 <= retval < 0x1_0000_0000 ==> bytes == retval)
    && (retval < 0 ==> bytes == 0)
    && (retval >= 0x1_0000_0000 ==> (retval - bytes) % 0x1_0000_0000 == 0)
  }

  lemma ByteCountIsSent(retval: i64)
    ensures BytesSent(retval, ByteCount(retval))
  {
  }

  /** An event tells of one request: who sent the answer and when, how many bytes,
      and what the context holds. */
  ghost predicate TellsOf(e: LatencyEvent, pid: u32, key: u32, now: u64, retval: i64, c: ReqCtx) {
    && e.pid == pid && e.tid == key && e.command == 0
    && e.latencyNs == WrappingSub(now, c.startNs) <= 10_000_000_000
    && BytesSent(retval, e.bytes) && e.isError == (if retval < 0 then 1 else 0)
    && e.clientIp == c.clientPacked / 0x1_0000 % 0x1_0000_0000 && e.clientPort == c.clientPacked % 0x1_0000
    && e.reqData == c.reqData
  }

  /** The event for a context, unless the latency gate drops it. */
  function Gate(pid: u32, key: u32, now: u64, retval: i64, c: ReqCtx): Option<LatencyEvent> {
    var latency := WrappingSub(now, c.startNs);
    if latency > LATENCY_LIMIT then None
    else Some(LatencyEvent(pid, key, latency, ByteCount(retval),
                           PackedIp(c.clientPacked), PackedPort(c.clientPacked),
                           0, if retval < 0 then 1 else 0, c.reqData))
  }

  lemma GateTells(pid: u32, key: u32, now: u64, retval: i64, c: ReqCtx)
    ensures match Gate(pid, key, now, retval, c)
            case Some(e) => TellsOf(e, pid, key, now, retval, c)
            case None => WrappingSub(now, c.startNs) > 10_000_000_000
  {
    ByteCountIsSent(retval);
  }

  /** What a sendmsg exit emits from a given map. */
  function Emission(ctx: map<u32, ReqCtx>, pid: u32, key: u32, now: u64, retval: i64): Option<LatencyEvent> {
    if key in ctx then Gate(pid, key, now, retval, ctx[key]) else None
  }

  /** The latency gate on all 64-bit clock values: it passes true intervals of
      at most ten seconds, and also a start so far in the future that the
      difference wraps round to at most ten seconds. */
  lemma GateExact(now: u64, start: u64)
    ensures WrappingSub(now, start) <= LATENCY_LIMIT <==>
            || start <= now <= start + LATENCY_LIMIT
            || start - now >= TWO64 - LATENCY_LIMIT
    ensures start <= now ==> WrappingSub(now, start) == now - start
  {
  }

  /** For clock values at most 2^64-1-10^10 the wrapped case cannot arise: the
      gate passes exactly the true intervals of at most ten seconds. */
  lemma GateIsElapsedTime(now: u64, start: u64)
    requires now <= TWO64 - 1 - LATENCY_LIMIT && start <= TWO64 - 1 - LATENCY_LIMIT
    ensures WrappingSub(now, start) <= LATENCY_LIMIT <==> start <= now <= start + LATENCY_LIMIT
    ensures WrappingSub(now, start) <= LATENCY_LIMIT ==> WrappingSub(now, start) == now - start
  {
    GateExact(now, start);
  }

  /** The bound on the clock is needed: one step beyond it, a start in the
      future passes the gate as a latency of ten seconds. */
  lemma GateWrapsBeyondBound()
    ensures var start: u64 := TWO64 - LATENCY_LIMIT;
            WrappingSub(0, start) == LATENCY_LIMIT && start > 0
  {
  }

  // ----- Batched wake-up -----

  /** Counter and wake-up flag after one output attempt that read `cur`. */
  function NextCount(cur: nat): nat {
    if cur + 1 >= BATCH_SIZE then 0 else cur + 1
  }

  predicate Forced(cur: nat) {
    cur + 1 >= BATCH_SIZE
  }

  /** `is_target_pid`: the filter tests the kernel pid, which is a thread id,
      and a zero target passes every thread. */
  predicate IsTarget(target: u32, pid: u32) {
    target == 0 || pid == target
  }

  // ----- The handlers -----

  class Tracer {
    const target: u32
    const batchCnt: array<u32>
    var reqCtx: map<u32, ReqCtx>
    var ring: seq<LatencyEvent>
    /** Trailing records of `ring` written since the last forced wake-up. */
    var unannounced: nat

    ghost predicate Valid()
      reads this, batchCnt
    {
      && |reqCtx| <= REQ_CTX_ENTRIES
      && unannounced <= |ring|
      && forall c | 0 <= c < batchCnt.Length :: batchCnt[c] < BATCH_SIZE
    }

    constructor (target: u32, cpus: nat)
      ensures Valid() && fresh(batchCnt) && batchCnt.Length == cpus && this.target == target
      ensures reqCtx == map[] && ring == [] && forall c | 0 <= c < cpus :: batchCnt[c] == 0
    {
      this.target := target;
      batchCnt := new u32[cpus](_ => 0);
      reqCtx, ring, unannounced := map[], [], 0;
    }

    /** fentry tcp_recvmsg */
    method OnRecvmsg(pid: u32, tgid: u32, now: u64, sk: Option<Peer>, msg: MsgRead)
      requires Valid()
      modifies this`reqCtx
      ensures Valid()
      ensures reqCtx == if IsTarget(target, pid)
                        then BoundedInsert(old(reqCtx), REQ_CTX_ENTRIES, tgid, RecvCtx(now, sk, msg))
                        else old(reqCtx)
      ensures if (target == 0 || pid == target) && (tgid in old(reqCtx) || |old(reqCtx)| < 10240)
              then tgid in reqCtx && TellsEntry(reqCtx[tgid], now, sk, msg) && reqCtx - {tgid} == old(reqCtx) - {tgid}
              else reqCtx == old(reqCtx)
    {
      if !IsTarget(target, pid) { return; }
      var clientPacked: u64 := 0;
      var iovBase: u64 := 0;
      if sk.Some? { clientPacked := Pack(sk.value); }
      match msg {
        case NoMessage =>
        case Failed => iovBase := 0;
        case Base(addr) => iovBase := addr;
      }
      var ctxVal := ReqCtx(now, iovBase, clientPacked, ZEROS);
      assert ctxVal == RecvCtx(now, sk, msg);
      ContextTells(now, sk, msg);
      if tgid in reqCtx || |reqCtx| < REQ_CTX_ENTRIES {
        reqCtx := reqCtx[tgid := ctxVal];
      }
    }

    /** fexit tcp_recvmsg; `user` is what the read of user memory delivers. */
    method OnRecvmsgRet(pid: u32, tgid: u32, user: Capture)
      requires Valid()
      modifies this`reqCtx
      ensures Valid()
      ensures reqCtx == if IsTarget(target, pid) then RetEffect(old(reqCtx), tgid, user) else old(reqCtx)
      ensures reqCtx == if (target == 0 || pid == target) && tgid in old(reqCtx) && old(reqCtx)[tgid].iovBase != 0
                        then old(reqCtx)[tgid := old(reqCtx)[tgid].(reqData := user, iovBase := 0)]
                        else old(reqCtx)
    {
      if !IsTarget(target, pid) { return; }
      if tgid !in reqCtx { return; }
      var iovBase := reqCtx[tgid].iovBase;
      if iovBase == 0 { return; }
      var data := user;
      if tgid in reqCtx {
        reqCtx := reqCtx[tgid := reqCtx[tgid].(reqData := data, iovBase := 0)];
      }
    }

    /** The batched wake-up and the ring output of one event on one CPU. */
    method Output(cpu: nat, event: LatencyEvent, full: bool)
      requires Valid() && cpu < batchCnt.Length
      modifies this`ring, this`unannounced, batchCnt
      ensures Valid()
      ensures batchCnt[..] == old(batchCnt[..])[cpu := NextCount(old(batchCnt[cpu]))]
      ensures ring == if full then old(ring) else old(ring) + [event]
      ensures unannounced == if full then old(unannounced)
                             else if Forced(old(batchCnt[cpu])) then 0 else old(unannounced) + 1
    {
      var cur := batchCnt[cpu];
      var forced := false;
      if cur + 1 >= BATCH_SIZE {
        batchCnt[cpu] := 0;
        forced := true;
      } else {
        batchCnt[cpu] := cur + 1;
      }
      if !full {
        ring := ring + [event];
        unannounced := if forced then 0 else unannounced + 1;
      }
    }

    /** fexit tcp_sendmsg on one CPU; `full` says that the ring has no room. */
    method OnSendmsg(pid: u32, tgid: u32, cpu: nat, now: u64, retval: i64, full: bool)
      requires Valid() && cpu < batchCnt.Length
      modifies this`reqCtx, this`ring, this`unannounced, batchCnt
      ensures Valid()
      ensures reqCtx == if IsTarget(target, pid) then old(reqCtx) - {tgid} else old(reqCtx)
      ensures var e := if IsTarget(target, pid) then Emission(old(reqCtx), pid, tgid, now, retval) else None;
              && batchCnt[..] == (if e.Some?
                                  then old(batchCnt[..])[cpu := NextCount(old(batchCnt[cpu]))]
                                  else old(batchCnt[..]))
              && ring == (if e.Some? && !full then old(ring) + [e.value] else old(ring))
              && unannounced == (if e.None? || full then old(unannounced)
                                 else if Forced(old(batchCnt[cpu])) then 0
                                 else old(unannounced) + 1)
      ensures (target == 0 || pid == target) && tgid in old(reqCtx) ==>
                if WrappingSub(now, old(reqCtx)[tgid].startNs) > 10_000_000_000 || full then ring == old(ring)
                else
                  && |ring| == |old(ring)| + 1
                  && TellsOf(ring[|old(ring)|], pid, tgid, now, retval, old(reqCtx)[tgid])
    {
      if !IsTarget(target, pid) { return; }
      if tgid !in reqCtx {
        assert reqCtx - {tgid} == reqCtx;
        return;
      }
      var ctxVal := reqCtx[tgid];
      reqCtx := reqCtx - {tgid};
      var event := Gate(pid, tgid, now, retval, ctxVal);
      GateTells(pid, tgid, now, retval, ctxVal);
      if event.Some? {
        Output(cpu, event.value, full);
      }
    }
  }
}
