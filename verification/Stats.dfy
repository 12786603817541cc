/** The three statistics stores (aya-test/src/stats.rs) and what they hold
    after any history of events. */
module Stats {
  import opened Words
  import opened Sums
  import opened Probes

  /** Upper bound of the latency histogram, which records every value up to it. */
  const HISTOGRAM_MAX: int := 10_000_000_000

  // ----- One latency store as a value -----

  datatype Summary = Summary(
    samples: multiset<u64>, total: u64, totalBytes: u64, prevTotal: u64, prevBytes: u64)

  const EMPTY: Summary := Summary(multiset{}, 0, 0, 0, 0)

  function Recorded(s: Summary, latencyNs: u64, bytes: u64): Summary {
    s.(samples := if latencyNs <= HISTOGRAM_MAX then s.samples + multiset{latencyNs} else s.samples,
       total := WrappingAdd(s.total, 1),
       totalBytes := WrappingAdd(s.totalBytes, bytes))
  }

  /** Requests and bytes since the previous report, as printed. */
  datatype Delta = Delta(requests: u64, bytes: u64)

  function SaturatingSub(a: u64, b: u64): u64 {
    if a >= b then a - b else 0
  }

  function DeltaOf(s: Summary): Option<Delta> {
    if s.total == 0 then None
    else Some(Delta(SaturatingSub(s.total, s.prevTotal), SaturatingSub(s.totalBytes, s.prevBytes)))
  }

  function Reported(s: Summary): Summary {
    if s.total == 0 then s else s.(prevTotal := s.total, prevBytes := s.totalBytes)
  }

  // ----- The stores as they are updated in place -----

  class LatencyStats {
    var histogram: multiset<u64>
    var total: u64
    var totalBytes: u64
    var prevTotal: u64
    var prevBytes: u64

    ghost function View(): Summary
      reads this
    {
      Summary(histogram, total, totalBytes, prevTotal, prevBytes)
    }

    constructor ()
      ensures View() == EMPTY
    {
      histogram, total, totalBytes, prevTotal, prevBytes := multiset{}, 0, 0, 0, 0;
    }

    method Record(latencyNs: u64, bytes: u64)
      modifies this
      ensures View() == Recorded(old(View()), latencyNs, bytes)
      ensures histogram == old(histogram) + (if latencyNs <= 10_000_000_000 then multiset{latencyNs} else multiset{})
      ensures total == Wrap64(old(total) + 1) && totalBytes == Wrap64(old(totalBytes) + bytes)
    {
      if latencyNs <= HISTOGRAM_MAX {
        histogram := histogram + multiset{latencyNs};
      }
      WrapAdds(total, 1);
      WrapAdds(totalBytes, bytes);
      WrapSmall(total);
      WrapSmall(totalBytes);
      total := WrappingAdd(total, 1);
      totalBytes := WrappingAdd(totalBytes, bytes);
    }

    /** Prints what was added since the last report, and takes the new marks; nothing
        at all while the total reads zero. */
    method Report() returns (delta: Option<Delta>)
      modifies this
      ensures delta == DeltaOf(old(View())) && View() == Reported(old(View()))
      ensures delta.None? <==> old(total) == 0
      ensures delta.Some? ==>
                && prevTotal == old(total) && prevBytes == old(totalBytes)
                && delta.value.requests == (if old(prevTotal) <= old(total) then old(total) - old(prevTotal) else 0)
                && delta.value.bytes
                   == (if old(prevBytes) <= old(totalBytes) then old(totalBytes) - old(prevBytes) else 0)
    {
      if total == 0 { return None; }
      delta := Some(Delta(SaturatingSub(total, prevTotal), SaturatingSub(totalBytes, prevBytes)));
      prevTotal, prevBytes := total, totalBytes;
    }
  }

  type CommandView = map<seq<byte>, Summary>

  function CommandRecorded(m: CommandView, cmd: seq<byte>, latencyNs: u64, bytes: u64): CommandView {
    m[cmd := Recorded(if cmd in m then m[cmd] else EMPTY, latencyNs, bytes)]
  }

  class CommandStats {
    var commands: map<seq<byte>, LatencyStats>
    /** What the stores hold, command by command. */
    ghost var contents: CommandView

    /** Each command owns its store, and `contents` describes them. */
    ghost predicate Valid()
      reads this, commands.Values
    {
      && commands.Keys == contents.Keys
      && (forall c | c in commands :: commands[c].View() == contents[c])
      && (forall c, d | c in commands && d in commands && c != d :: commands[c] != commands[d])
    }

    constructor ()
      ensures Valid() && contents == map[] && commands == map[]
    {
      commands, contents := map[], map[];
    }

    method Record(cmd: seq<byte>, latencyNs: u64, bytes: u64)
      requires Valid()
      modifies this, commands.Values
      ensures Valid() && fresh(commands.Values - old(commands.Values))
      ensures contents == CommandRecorded(old(contents), cmd, latencyNs, bytes)
    {
      if cmd in commands {
        Bump(cmd, latencyNs, bytes);
      } else {
        var s := new LatencyStats();
        s.Record(latencyNs, bytes);
        assert forall c | c in commands :: commands[c] != s;
        Adopt(cmd, s);
        assert commands.Values <= old(commands.Values) + {s};
      }
    }

    /** Records into the store that the command already has. */
    method Bump(cmd: seq<byte>, latencyNs: u64, bytes: u64)
      requires Valid() && cmd in commands
      modifies this`contents, commands[cmd]
      ensures Valid()
      ensures contents == old(contents)[cmd := Recorded(old(contents)[cmd], latencyNs, bytes)]
    {
      var s := commands[cmd];
      ghost var after := contents[cmd := Recorded(contents[cmd], latencyNs, bytes)];
      assert forall c | c in commands && c != cmd :: commands[c] != s;
      s.Record(latencyNs, bytes);
      Describe(after);
    }

    /** Brings `contents` up to date with the stores. */
    ghost method Describe(after: CommandView)
      requires commands.Keys == after.Keys && forall c | c in commands :: commands[c].View() == after[c]
      requires forall c, d | c in commands && d in commands && c != d :: commands[c] != commands[d]
      modifies this`contents
      ensures Valid() && contents == after
    {
      contents := after;
    }

    /** Enters a store under a new key. */
    method Adopt(cmd: seq<byte>, s: LatencyStats)
      requires Valid() && cmd !in commands && s !in commands.Values
      modifies this
      ensures Valid() && commands == old(commands)[cmd := s]
      ensures contents == old(contents)[cmd := s.View()]
    {
      assert forall c | c in commands :: commands[c] in commands.Values;
      commands := commands[cmd := s];
      contents := contents[cmd := s.View()];
    }
  }

  datatype ClientInfo = ClientInfo(count: u64, totalBytes: u64)

  type ClientView = map<u32, ClientInfo>

  function ClientRecorded(m: ClientView, ip: u32, bytes: u64): ClientView {
    var info := if ip in m then m[ip] else ClientInfo(0, 0);
    m[ip := ClientInfo(WrappingAdd(info.count, 1), WrappingAdd(info.totalBytes, bytes))]
  }

  class ClientStats {
    var clients: ClientView

    constructor ()
      ensures clients == map[]
    {
      clients := map[];
    }

    method Record(ip: u32, bytes: u64)
      modifies this
      ensures clients == ClientRecorded(old(clients), ip, bytes)
    {
      if ip !in clients {
        clients := clients[ip := ClientInfo(0, 0)];
      }
      var info := clients[ip];
      var info' := ClientInfo(WrappingAdd(info.count, 1), WrappingAdd(info.totalBytes, bytes));
      clients := clients[ip := info'];
      assert clients == old(clients)[ip := info'];
    }
  }

  // ----- The stores after a history -----

  lemma WrapAdds(a: nat, b: u64)
    ensures WrappingAdd(Wrap64(a), b) == Wrap64(a + b)
  {
    WrappingIsModular(Wrap64(a), b);
  }

  /** The command name under which an event is counted. */
  type Classifier = LatencyEvent -> seq<byte>

  function FoldLat(h: seq<LatencyEvent>): Summary {
    if h == [] then EMPTY
    else Recorded(FoldLat(h[..|h| - 1]), h[|h| - 1].latencyNs, h[|h| - 1].bytes)
  }

  function FoldCmd(h: seq<LatencyEvent>, classify: Classifier): CommandView {
    if h == [] then map[]
    else
      var e := h[|h| - 1];
      CommandRecorded(FoldCmd(h[..|h| - 1], classify), classify(e), e.latencyNs, e.bytes)
  }

  function ClientFolded(m: ClientView, e: LatencyEvent): ClientView {
    if e.clientIp != 0 then ClientRecorded(m, e.clientIp, e.bytes) else m
  }

  function FoldCli(h: seq<LatencyEvent>): ClientView {
    if h == [] then map[] else ClientFolded(FoldCli(h[..|h| - 1]), h[|h| - 1])
  }

  lemma FoldLatAppend(h: seq<LatencyEvent>, e: LatencyEvent)
    ensures FoldLat(h + [e]) == Recorded(FoldLat(h), e.latencyNs, e.bytes)
  {
    assert (h + [e])[..|h|] == h;
  }

  lemma FoldCmdAppend(h: seq<LatencyEvent>, e: LatencyEvent, classify: Classifier)
    ensures FoldCmd(h + [e], classify) == CommandRecorded(FoldCmd(h, classify), classify(e), e.latencyNs, e.bytes)
  {
    assert (h + [e])[..|h|] == h;
  }

  lemma FoldCliAppend(h: seq<LatencyEvent>, e: LatencyEvent)
    ensures FoldCli(h + [e]) == ClientFolded(FoldCli(h), e)
  {
    assert (h + [e])[..|h|] == h;
  }

  // ----- Reference definitions: filtering and adding up the history -----

  /** The events whose key is `k`, in order. */
  function Group<K(==)>(h: seq<LatencyEvent>, key: LatencyEvent -> Option<K>, k: K): seq<LatencyEvent> {
    if h == [] then []
    else
      Group(h[..|h| - 1], key, k) + (if key(h[|h| - 1]) == Some(k) then [h[|h| - 1]] else [])
  }

  lemma GroupLast<K>(h: seq<LatencyEvent>, key: LatencyEvent -> Option<K>, k: K)
    requires h != []
    ensures Group(h, key, k) == if key(h[|h| - 1]) == Some(k) then Group(h[..|h| - 1], key, k) + [h[|h| - 1]]
                                else Group(h[..|h| - 1], key, k)
  {
  }

  /** The keys that occur in the history. */
  ghost function KeysOf<K>(h: seq<LatencyEvent>, key: LatencyEvent -> Option<K>): set<K> {
    set i | 0 <= i < |h| && key(h[i]).Some? :: key(h[i]).value
  }

  /** The events that have a key at all. */
  function Keyed<K>(h: seq<LatencyEvent>, key: LatencyEvent -> Option<K>): seq<LatencyEvent> {
    if h == [] then []
    else Keyed(h[..|h| - 1], key) + (if key(h[|h| - 1]).Some? then [h[|h| - 1]] else [])
  }

  function Weight(h: seq<LatencyEvent>, w: LatencyEvent -> nat): nat {
    if h == [] then 0 else Weight(h[..|h| - 1], w) + w(h[|h| - 1])
  }

  lemma WeightAppend(h: seq<LatencyEvent>, e: LatencyEvent, w: LatencyEvent -> nat)
    ensures Weight(h + [e], w) == Weight(h, w) + w(e)
  {
    assert (h + [e])[..|h|] == h;
  }

  function One(e: LatencyEvent): nat { 1 }

  function Bytes(e: LatencyEvent): nat { e.bytes }

  lemma {:induction false} WeightOne(h: seq<LatencyEvent>)
    ensures Weight(h, One) == |h|
  {
    if h != [] { WeightOne(h[..|h| - 1]); }
  }

  function Latencies(h: seq<LatencyEvent>): multiset<u64> {
    if h == [] then multiset{} else Latencies(h[..|h| - 1]) + multiset{h[|h| - 1].latencyNs}
  }

  function CommandKey(classify: Classifier): LatencyEvent -> Option<seq<byte>> {
    (e: LatencyEvent) => Some(classify(e))
  }

  function ClientKey(e: LatencyEvent): Option<u32> {
    if e.clientIp != 0 then Some(e.clientIp) else None
  }

  ghost predicate Gated(h: seq<LatencyEvent>) {
    forall i | 0 <= i < |h| :: h[i].latencyNs <= LATENCY_LIMIT
  }

  lemma {:induction false} FoldLatCounts(h: seq<LatencyEvent>)
    ensures FoldLat(h).total == Wrap64(|h|)
    ensures FoldLat(h).prevTotal == 0 && FoldLat(h).prevBytes == 0
  {
    if h != [] {
      FoldLatCounts(h[..|h| - 1]);
      WrapAdds(|h| - 1, 1);
    }
  }

  lemma {:induction false} FoldLatBytes(h: seq<LatencyEvent>)
    ensures FoldLat(h).totalBytes == Wrap64(Weight(h, Bytes))
  {
    if h != [] {
      var n := |h| - 1;
      FoldLatBytes(h[..n]);
      WrapAdds(Weight(h[..n], Bytes), h[n].bytes);
    }
  }

  lemma {:induction false} FoldLatSamples(h: seq<LatencyEvent>)
    requires Gated(h)
    ensures FoldLat(h).samples == Latencies(h) && |FoldLat(h).samples| == |h|
  {
    if h != [] {
      FoldLatSamples(h[..|h| - 1]);
    }
  }

  /** One store holds the count, the bytes and the latencies of its history;
      for gated events the histogram has exactly one sample per event. */
  lemma {:induction false} FoldLatHolds(h: seq<LatencyEvent>)
    requires Gated(h)
    ensures var s := FoldLat(h);
            && s.total == Wrap64(|h|) && s.totalBytes == Wrap64(Weight(h, Bytes))
            && s.samples == Latencies(h) && |s.samples| == |h|
  {
    FoldLatCounts(h);
    FoldLatBytes(h);
    FoldLatSamples(h);
  }

  /** The command store has a key exactly for the commands that occur, and each
      key's store is the store of the events of that command. */
  lemma {:induction false} CommandsGroupHistory(h: seq<LatencyEvent>, classify: Classifier, cmd: seq<byte>)
    ensures cmd in FoldCmd(h, classify) <==> Group(h, CommandKey(classify), cmd) != []
    ensures cmd in FoldCmd(h, classify) ==> FoldCmd(h, classify)[cmd] == FoldLat(Group(h, CommandKey(classify), cmd))
  {
    if h != [] {
      var n := |h| - 1;
      CommandsGroupHistory(h[..n], classify, cmd);
      GroupLast(h, CommandKey(classify), cmd);
      FoldLatAppend(Group(h[..n], CommandKey(classify), cmd), h[n]);
    }
  }

  /** The client store has a key exactly for the non-zero addresses that occur,
      with the number and the bytes of their events. */
  lemma {:induction false} ClientsGroupHistory(h: seq<LatencyEvent>, ip: u32)
    ensures ip in FoldCli(h) <==> Group(h, ClientKey, ip) != []
    ensures ip in FoldCli(h) ==>
              && FoldCli(h)[ip].count == Wrap64(|Group(h, ClientKey, ip)|)
              && FoldCli(h)[ip].totalBytes == Wrap64(Weight(Group(h, ClientKey, ip), Bytes))
  {
    if h != [] {
      var n := |h| - 1;
      var e, g := h[n], Group(h[..n], ClientKey, ip);
      ClientsGroupHistory(h[..n], ip);
      GroupLast(h, ClientKey, ip);
      if ClientKey(e) == Some(ip) {
        WeightAppend(g, e, Bytes);
        WrapAdds(|g|, 1);
        WrapAdds(Weight(g, Bytes), e.bytes);
      } else {
        assert ip in FoldCli(h) <==> ip in FoldCli(h[..n]);
      }
    }
  }

  /** The places in the history of the events with key `k`. */
  ghost function PlacesOf<K>(h: seq<LatencyEvent>, key: LatencyEvent -> Option<K>, k: K): set<nat> {
    set i: nat | i < |h| && key(h[i]) == Some(k)
  }

  lemma PlacesLast<K>(h: seq<LatencyEvent>, key: LatencyEvent -> Option<K>, k: K)
    requires h != []
    ensures var n := |h| - 1;
            PlacesOf(h, key, k) == PlacesOf(h[..n], key, k) + (if key(h[n]) == Some(k) then {n} else {})
  {
    assert forall i: nat | i < |h| - 1 :: h[..|h| - 1][i] == h[i];
  }

  lemma {:induction false} GroupSize<K>(h: seq<LatencyEvent>, key: LatencyEvent -> Option<K>, k: K)
    ensures |Group(h, key, k)| == |PlacesOf(h, key, k)| <= |h|
  {
    if h != [] {
      GroupSize(h[..|h| - 1], key, k);
      GroupLast(h, key, k);
      PlacesLast(h, key, k);
    }
  }

  /** The places of the events that are classified as `c`, and of those with the
      address `ip`. */
  ghost function ClassifiedAs(h: seq<LatencyEvent>, classify: Classifier, c: seq<byte>): set<nat> {
    set i: nat | i < |h| && classify(h[i]) == c
  }

  ghost function FromAddress(h: seq<LatencyEvent>, ip: u32): set<nat> {
    set i: nat | i < |h| && h[i].clientIp == ip
  }

  lemma CommandPlaces(h: seq<LatencyEvent>, classify: Classifier, c: seq<byte>)
    ensures PlacesOf(h, CommandKey(classify), c) == ClassifiedAs(h, classify, c)
  {
  }

  lemma ClientPlaces(h: seq<LatencyEvent>, ip: u32)
    ensures PlacesOf(h, ClientKey, ip) == if ip == 0 then {} else FromAddress(h, ip)
  {
  }

  /** What the stores count, in terms of the fields of the events alone: all events,
      those that are classified as `c`, those of the address `ip` unless it is zero. */
  lemma StoresCount(h: seq<LatencyEvent>, classify: Classifier, c: seq<byte>, ip: u32)
    requires |h| < TWO64
    ensures FoldLat(h).total == |h|
    ensures c in FoldCmd(h, classify) <==> ClassifiedAs(h, classify, c) != {}
    ensures c in FoldCmd(h, classify) ==> FoldCmd(h, classify)[c].total == |ClassifiedAs(h, classify, c)|
    ensures ip in FoldCli(h) <==> ip != 0 && FromAddress(h, ip) != {}
    ensures ip in FoldCli(h) ==> FoldCli(h)[ip].count == |FromAddress(h, ip)|
  {
    FoldLatCounts(h);
    CommandCount(h, classify, c);
    ClientCount(h, ip);
  }

  lemma SizeZero(places: set<nat>)
    ensures |places| == 0 <==> places == {}
  {
  }

  lemma CommandCount(h: seq<LatencyEvent>, classify: Classifier, c: seq<byte>)
    requires |h| < TWO64
    ensures c in FoldCmd(h, classify) <==> ClassifiedAs(h, classify, c) != {}
    ensures c in FoldCmd(h, classify) ==> FoldCmd(h, classify)[c].total == |ClassifiedAs(h, classify, c)|
  {
    var g := Group(h, CommandKey(classify), c);
    CommandsGroupHistory(h, classify, c);
    FoldLatCounts(g);
    GroupSize(h, CommandKey(classify), c);
    CommandPlaces(h, classify, c);
    SizeZero(ClassifiedAs(h, classify, c));
    WrapSmall(|g|);
  }

  lemma ClientCount(h: seq<LatencyEvent>, ip: u32)
    requires |h| < TWO64
    ensures ip in FoldCli(h) <==> ip != 0 && FromAddress(h, ip) != {}
    ensures ip in FoldCli(h) ==> FoldCli(h)[ip].count == |FromAddress(h, ip)|
  {
    var g := Group(h, ClientKey, ip);
    ClientsGroupHistory(h, ip);
    GroupSize(h, ClientKey, ip);
    ClientPlaces(h, ip);
    SizeZero(PlacesOf(h, ClientKey, ip));
    WrapSmall(|g|);
  }

  // ----- Sums over keys -----

  ghost function GroupWeight<K>(h: seq<LatencyEvent>, key: LatencyEvent -> Option<K>,
                                w: LatencyEvent -> nat): K -> int {
    (k: K) => Weight(Group(h, key, k), w)
  }

  lemma GroupWeightAbsent<K>(h: seq<LatencyEvent>, key: LatencyEvent -> Option<K>, w: LatencyEvent -> nat, k: K)
    ensures k !in KeysOf(h, key) ==> GroupWeight(h, key, w)(k) == 0
  {
    NoGroup(h, key, k);
  }

  lemma GroupWeightLast<K>(h: seq<LatencyEvent>, key: LatencyEvent -> Option<K>, w: LatencyEvent -> nat, k: K)
    requires h != []
    ensures var n := |h| - 1;
            GroupWeight(h, key, w)(k) ==
            GroupWeight(h[..n], key, w)(k) + (if key(h[n]) == Some(k) then w(h[n]) else 0)
  {
    var n := |h| - 1;
    WeightAppend(Group(h[..n], key, k), h[n], w);
    GroupLast(h, key, k);
  }

  /** Adding up any weight group by group gives the weight of the keyed history. */
  lemma {:induction false} GroupsPartition<K>(h: seq<LatencyEvent>, key: LatencyEvent -> Option<K>,
                                              w: LatencyEvent -> nat)
    ensures Sum(KeysOf(h, key), GroupWeight(h, key, w)) == Weight(Keyed(h, key), w)
  {
    if h == [] {
      assert KeysOf(h, key) == {};
    } else {
      var n := |h| - 1;
      var before, after := GroupWeight(h[..n], key, w), GroupWeight(h, key, w);
      GroupsPartition(h[..n], key, w);
      KeysOfLast(h, key);
      KeyedLast(h, key);
      var ks := KeysOf(h[..n], key);
      if key(h[n]).None? {
        forall k | k in ks ensures after(k) == before(k) {
          GroupWeightLast(h, key, w, k);
        }
        SumAgree(ks, after, before);
      } else {
        var c := key(h[n]).value;
        forall k | k in ks && k != c ensures after(k) == before(k) {
          GroupWeightLast(h, key, w, k);
        }
        GroupWeightLast(h, key, w, c);
        GroupWeightAbsent(h[..n], key, w, c);
        SumStep(ks, c, before, after, w(h[n]));
        WeightAppend(Keyed(h[..n], key), h[n], w);
      }
    }
  }

  lemma KeyedLast<K>(h: seq<LatencyEvent>, key: LatencyEvent -> Option<K>)
    requires h != []
    ensures Keyed(h, key) == if key(h[|h| - 1]).Some? then Keyed(h[..|h| - 1], key) + [h[|h| - 1]]
                             else Keyed(h[..|h| - 1], key)
  {
  }

  lemma KeysOfLast<K>(h: seq<LatencyEvent>, key: LatencyEvent -> Option<K>)
    requires h != []
    ensures KeysOf(h, key) == if key(h[|h| - 1]).Some? then KeysOf(h[..|h| - 1], key) + {key(h[|h| - 1]).value}
                              else KeysOf(h[..|h| - 1], key)
  {
    var n := |h| - 1;
    forall k | k in KeysOf(h[..n], key)
      ensures k in KeysOf(h, key)
    {
      var i :| 0 <= i < n && key(h[..n][i]) == Some(k);
      assert key(h[i]) == Some(k);
    }
    forall k | k in KeysOf(h, key)
      ensures k in KeysOf(h[..n], key) || key(h[n]) == Some(k)
    {
      var i :| 0 <= i <= n && key(h[i]) == Some(k);
      if i < n { assert key(h[..n][i]) == Some(k); }
    }
  }

  lemma {:induction false} NoGroup<K>(h: seq<LatencyEvent>, key: LatencyEvent -> Option<K>, k: K)
    ensures k in KeysOf(h, key) <==> Group(h, key, k) != []
  {
    if h != [] {
      NoGroup(h[..|h| - 1], key, k);
      KeysOfLast(h, key);
    }
  }

  lemma {:induction false} AllKeyed(h: seq<LatencyEvent>, classify: Classifier)
    ensures Keyed(h, CommandKey(classify)) == h
  {
    if h != [] { AllKeyed(h[..|h| - 1], classify); }
  }

  /** Per-command counts and bytes add up to those of the whole history, and
      per-client counts and bytes to those of the events with an address. */
  lemma {:induction false} StoresPartitionHistory(h: seq<LatencyEvent>, classify: Classifier)
    ensures FoldCmd(h, classify).Keys == KeysOf(h, CommandKey(classify))
    ensures Sum(FoldCmd(h, classify).Keys, GroupWeight(h, CommandKey(classify), One)) == |h|
    ensures Sum(FoldCmd(h, classify).Keys, GroupWeight(h, CommandKey(classify), Bytes)) == Weight(h, Bytes)
    ensures FoldCli(h).Keys == KeysOf(h, ClientKey)
    ensures Sum(FoldCli(h).Keys, GroupWeight(h, ClientKey, One)) == |Keyed(h, ClientKey)|
    ensures Sum(FoldCli(h).Keys, GroupWeight(h, ClientKey, Bytes)) == Weight(Keyed(h, ClientKey), Bytes)
  {
    forall c: seq<byte>
      ensures c in FoldCmd(h, classify) <==> c in KeysOf(h, CommandKey(classify))
    {
      CommandsGroupHistory(h, classify, c);
      NoGroup(h, CommandKey(classify), c);
    }
    forall ip: u32
      ensures ip in FoldCli(h) <==> ip in KeysOf(h, ClientKey)
    {
      ClientsGroupHistory(h, ip);
      NoGroup(h, ClientKey, ip);
    }
    AllKeyed(h, classify);
    WeightOne(h);
    WeightOne(Keyed(h, ClientKey));
    GroupsPartition(h, CommandKey(classify), One);
    GroupsPartition(h, CommandKey(classify), Bytes);
    GroupsPartition(h, ClientKey, One);
    GroupsPartition(h, ClientKey, Bytes);
  }

  // ----- The stored numbers add up -----

  lemma {:induction false} GroupBelow<K>(h: seq<LatencyEvent>, key: LatencyEvent -> Option<K>, k: K,
                                         w: LatencyEvent -> nat)
    ensures Weight(Group(h, key, k), w) <= Weight(h, w)
  {
    if h != [] {
      GroupBelow(h[..|h| - 1], key, k, w);
      GroupWeightLast(h, key, w, k);
    }
  }

  ghost function StoredTotals(m: CommandView): seq<byte> -> int {
    (c: seq<byte>) => if c in m then m[c].total else 0
  }

  ghost function StoredBytes(m: CommandView): seq<byte> -> int {
    (c: seq<byte>) => if c in m then m[c].totalBytes else 0
  }

  ghost function StoredCounts(m: ClientView): u32 -> int {
    (ip: u32) => if ip in m then m[ip].count else 0
  }

  ghost function StoredClientBytes(m: ClientView): u32 -> int {
    (ip: u32) => if ip in m then m[ip].totalBytes else 0
  }

  /** The totals kept per command add up to the totals kept over all commands,
      and the counts and bytes kept per client to those of the events with an
      address, for every history whose true totals fit in 64 bits. */
  lemma StoredNumbersAddUp(h: seq<LatencyEvent>, classify: Classifier)
    requires |h| < TWO64 && Weight(h, Bytes) < TWO64
    ensures var m := FoldCmd(h, classify);
            && Sum(m.Keys, StoredTotals(m)) == FoldLat(h).total == |h|
            && Sum(m.Keys, StoredBytes(m)) == FoldLat(h).totalBytes == Weight(h, Bytes)
    ensures var m := FoldCli(h);
            && Sum(m.Keys, StoredCounts(m)) == |Keyed(h, ClientKey)|
            && Sum(m.Keys, StoredClientBytes(m)) == Weight(Keyed(h, ClientKey), Bytes)
  {
    StoresPartitionHistory(h, classify);
    FoldLatExact(h);
    CommandSums(h, classify);
    ClientSums(h);
  }

  lemma CommandSums(h: seq<LatencyEvent>, classify: Classifier)
    requires |h| < TWO64 && Weight(h, Bytes) < TWO64
    ensures var m, key := FoldCmd(h, classify), CommandKey(classify);
            && Sum(m.Keys, StoredTotals(m)) == Sum(m.Keys, GroupWeight(h, key, One))
            && Sum(m.Keys, StoredBytes(m)) == Sum(m.Keys, GroupWeight(h, key, Bytes))
  {
    var m, key := FoldCmd(h, classify), CommandKey(classify);
    forall c | c in m.Keys
      ensures StoredTotals(m)(c) == GroupWeight(h, key, One)(c)
      ensures StoredBytes(m)(c) == GroupWeight(h, key, Bytes)(c)
    {
      StoredForCommand(h, classify, c);
    }
    SumAgree(m.Keys, StoredTotals(m), GroupWeight(h, key, One));
    SumAgree(m.Keys, StoredBytes(m), GroupWeight(h, key, Bytes));
  }

  lemma ClientSums(h: seq<LatencyEvent>)
    requires |h| < TWO64 && Weight(h, Bytes) < TWO64
    ensures var m := FoldCli(h);
            && Sum(m.Keys, StoredCounts(m)) == Sum(m.Keys, GroupWeight(h, ClientKey, One))
            && Sum(m.Keys, StoredClientBytes(m)) == Sum(m.Keys, GroupWeight(h, ClientKey, Bytes))
  {
    var m := FoldCli(h);
    forall ip | ip in m.Keys
      ensures StoredCounts(m)(ip) == GroupWeight(h, ClientKey, One)(ip)
      ensures StoredClientBytes(m)(ip) == GroupWeight(h, ClientKey, Bytes)(ip)
    {
      StoredForClient(h, ip);
    }
    SumAgree(m.Keys, StoredCounts(m), GroupWeight(h, ClientKey, One));
    SumAgree(m.Keys, StoredClientBytes(m), GroupWeight(h, ClientKey, Bytes));
  }

  /** Totals of a history that fits are exact. */
  lemma {:induction false} FoldLatExact(h: seq<LatencyEvent>)
    requires |h| < TWO64 && Weight(h, Bytes) < TWO64
    ensures FoldLat(h).total == |h| && FoldLat(h).totalBytes == Weight(h, Bytes)
  {
    if h != [] {
      FoldLatExact(h[..|h| - 1]);
    }
  }

  lemma StoredForCommand(h: seq<LatencyEvent>, classify: Classifier, c: seq<byte>)
    requires |h| < TWO64 && Weight(h, Bytes) < TWO64 && c in FoldCmd(h, classify)
    ensures FoldCmd(h, classify)[c].total == Weight(Group(h, CommandKey(classify), c), One)
    ensures FoldCmd(h, classify)[c].totalBytes == Weight(Group(h, CommandKey(classify), c), Bytes)
  {
    var key := CommandKey(classify);
    CommandsGroupHistory(h, classify, c);
    GroupFits(h, key, c);
    FoldLatExact(Group(h, key, c));
  }

  lemma StoredForClient(h: seq<LatencyEvent>, ip: u32)
    requires |h| < TWO64 && Weight(h, Bytes) < TWO64 && ip in FoldCli(h)
    ensures FoldCli(h)[ip].count == Weight(Group(h, ClientKey, ip), One)
    ensures FoldCli(h)[ip].totalBytes == Weight(Group(h, ClientKey, ip), Bytes)
  {
    ClientsGroupHistory(h, ip);
    GroupFits(h, ClientKey, ip);
    WrapSmall(Weight(Group(h, ClientKey, ip), One));
    WrapSmall(Weight(Group(h, ClientKey, ip), Bytes));
  }

  lemma WrapSmall(n: nat)
    requires n < TWO64
    ensures Wrap64(n) == n
  {
  }

  lemma GroupFits<K>(h: seq<LatencyEvent>, key: LatencyEvent -> Option<K>, k: K)
    ensures |Group(h, key, k)| == Weight(Group(h, key, k), One) <= |h|
    ensures Weight(Group(h, key, k), Bytes) <= Weight(h, Bytes)
  {
    WeightOne(h);
    WeightOne(Group(h, key, k));
    GroupBelow(h, key, k, One);
    GroupBelow(h, key, k, Bytes);
  }
}

/** What successive reports print (LatencyStats::report). */
module Reports {
  import opened Words
  import opened Stats

  function Requests(deltas: seq<Delta>): nat {
    if deltas == [] then 0 else Requests(deltas[..|deltas| - 1]) + deltas[|deltas| - 1].requests
  }

  function BytesOf(deltas: seq<Delta>): nat {
    if deltas == [] then 0 else BytesOf(deltas[..|deltas| - 1]) + deltas[|deltas| - 1].bytes
  }

  lemma DeltasAppend(deltas: seq<Delta>, d: Delta)
    ensures Requests(deltas + [d]) == Requests(deltas) + d.requests
    ensures BytesOf(deltas + [d]) == BytesOf(deltas) + d.bytes
  {
    assert (deltas + [d])[..|deltas|] == deltas;
  }

  /** A printed difference of two wrapped totals is the true difference exactly
      when the total did not wrap between the two reports. */
  lemma DeltaExact(previous: nat, now: nat)
    requires previous <= now
    ensures SaturatingSub(Wrap64(now), Wrap64(previous)) == now - previous <==>
            now / TWO64 == previous / TWO64
  {
    var q, r := now / 0x1_0000_0000_0000_0000, Wrap64(now);
    var p, t := previous / 0x1_0000_0000_0000_0000, Wrap64(previous);
    assert now == q * 0x1_0000_0000_0000_0000 + r;
    assert previous == p * 0x1_0000_0000_0000_0000 + t;
    if q > p {
      assert now - previous >= 0x1_0000_0000_0000_0000 + r - t;
    }
  }

  /** Once the byte total has wrapped to a smaller value, a report prints zero
      bytes although bytes were recorded. */
  lemma DeltaSaturates()
    ensures var previous, now := TWO64 - 1, TWO64;
            SaturatingSub(Wrap64(now), Wrap64(previous)) == 0 && now - previous == 1
  {
  }

  /** The printed deltas add up to the totals at the last report. */
  ghost predicate Telescoped(s: Summary, deltas: seq<Delta>) {
    && Requests(deltas) == s.prevTotal <= s.total
    && BytesOf(deltas) == s.prevBytes <= s.totalBytes
  }

  lemma ReportTelescopes(s: Summary, deltas: seq<Delta>)
    requires Telescoped(s, deltas)
    ensures var d := DeltaOf(s);
            Telescoped(Reported(s), if d.Some? then deltas + [d.value] else deltas)
  {
    var d := DeltaOf(s);
    if d.Some? {
      DeltasAppend(deltas, d.value);
    }
  }
}
