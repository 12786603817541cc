/** The reader's loop body as written (aya-test/src/reader.rs): one cycle that
    is not disturbed between its lock and its unlock. */
module Reader {
  import opened Words
  import opened Resp
  import opened Probes
  import opened Stats
  import opened Reports
  import opened AtomicRuns
  import opened Collector

  /** Classification of events by their captured bytes. */
  function ByCapture(decode: seq<byte> -> Option<seq<byte>>): Classifier {
    (e: LatencyEvent) => Classify(e.reqData, decode)
  }

  /** The places of the events whose captured bytes classify to `c`. */
  ghost function CapturedAs(h: seq<LatencyEvent>, decode: seq<byte> -> Option<seq<byte>>, c: seq<byte>): set<nat> {
    set i: nat | i < |h| && Classify(h[i].reqData, decode) == c
  }

  /** Stores that hold a history count every event under what its own captured bytes
      classify to, and under its own address unless that is zero. */
  lemma StoresTellCaptures(decode: seq<byte> -> Option<seq<byte>>, lat: Summary, cmd: CommandView, cli: ClientView,
                           h: seq<LatencyEvent>, c: seq<byte>, ip: u32)
    requires ValuesHold(ByCapture(decode), lat, cmd, cli, h) && |h| < TWO64
    ensures lat.total == |h|
    ensures c in cmd <==> CapturedAs(h, decode, c) != {}
    ensures c in cmd ==> cmd[c].total == |CapturedAs(h, decode, c)|
    ensures ip in cli <==> ip != 0 && FromAddress(h, ip) != {}
    ensures ip in cli ==> cli[ip].count == |FromAddress(h, ip)|
  {
    StoresCount(h, ByCapture(decode), c, ip);
    assert ClassifiedAs(h, ByCapture(decode), c) == CapturedAs(h, decode, c);
  }

  class RingReader {
    /** Reusable buffer, empty between cycles. */
    var batch: seq<LatencyEvent>

    constructor ()
      ensures batch == []
    {
      batch := [];
    }

    /** Phase one: take everything the ring offers. */
    method Collect(ring: seq<LatencyEvent>)
      modifies this
      ensures batch == old(batch) + ring
    {
      for i := 0 to |ring|
        invariant batch == old(batch) + ring[..i]
      {
        batch := batch + [ring[i]];
        assert ring[..i + 1] == ring[..i] + [ring[i]];
      }
      assert ring[..|ring|] == ring;
    }

    /** Separate stores that hold the history `h`. */
    static ghost predicate Hold(stats: LatencyStats, cmdStats: CommandStats, clientStats: ClientStats,
                                classify: Classifier, h: seq<LatencyEvent>)
      reads stats, cmdStats, cmdStats.commands.Values, clientStats
    {
      && cmdStats.Valid() && stats !in cmdStats.commands.Values
      && ValuesHold(classify, stats.View(), cmdStats.contents, clientStats.clients, h)
    }

    /** Phase two: fold the batch into the three stores. If the stores held the
        history `h`, they then hold `h` followed by the batch, and the marks of
        the last report are as they were. */
    method Process(stats: LatencyStats, cmdStats: CommandStats, clientStats: ClientStats,
                   decode: seq<byte> -> Option<seq<byte>>, ghost h: seq<LatencyEvent>)
      requires Hold(stats, cmdStats, clientStats, ByCapture(decode), h)
      modifies this, stats, cmdStats, cmdStats.commands.Values, clientStats
      ensures batch == [] && Hold(stats, cmdStats, clientStats, ByCapture(decode), h + old(batch))
      ensures stats.prevTotal == old(stats.prevTotal) && stats.prevBytes == old(stats.prevBytes)
    {
      var all := batch;
      batch := [];
      RecordAll(stats, cmdStats, clientStats, decode, all, h);
    }

    /** The drained events, one after the other. */
    method RecordAll(stats: LatencyStats, cmdStats: CommandStats, clientStats: ClientStats,
                     decode: seq<byte> -> Option<seq<byte>>, all: seq<LatencyEvent>, ghost h: seq<LatencyEvent>)
      requires Hold(stats, cmdStats, clientStats, ByCapture(decode), h)
      modifies stats, cmdStats, cmdStats.commands.Values, clientStats
      ensures Hold(stats, cmdStats, clientStats, ByCapture(decode), h + all)
      ensures stats.prevTotal == old(stats.prevTotal) && stats.prevBytes == old(stats.prevBytes)
    {
      Whole(h, all);
      for i := 0 to |all|
        invariant fresh(cmdStats.commands.Values - old(cmdStats.commands.Values))
        invariant Hold(stats, cmdStats, clientStats, ByCapture(decode), h + all[..i])
        invariant stats.prevTotal == old(stats.prevTotal) && stats.prevBytes == old(stats.prevBytes)
      {
        Next(h, all, i);
        RecordOne(stats, cmdStats, clientStats, decode, all[i], h + all[..i]);
      }
    }

    /** One event into the three stores. */
    method RecordOne(stats: LatencyStats, cmdStats: CommandStats, clientStats: ClientStats,
                     decode: seq<byte> -> Option<seq<byte>>, ev: LatencyEvent, ghost h: seq<LatencyEvent>)
      requires Hold(stats, cmdStats, clientStats, ByCapture(decode), h)
      modifies stats, cmdStats, cmdStats.commands.Values, clientStats
      ensures fresh(cmdStats.commands.Values - old(cmdStats.commands.Values))
      ensures Hold(stats, cmdStats, clientStats, ByCapture(decode), h + [ev])
      ensures stats.prevTotal == old(stats.prevTotal) && stats.prevBytes == old(stats.prevBytes)
    {
      var cmd := ClassifyCommand(ev.reqData, decode);
      ValuesAppend(ByCapture(decode), stats.View(), cmdStats.contents, clientStats.clients, h, ev);
      assert cmd.text == ByCapture(decode)(ev);
      RecordAs(stats, cmdStats, clientStats, cmd.text, ev);
    }

    /** One event into the three stores, under a given command name. */
    method RecordAs(stats: LatencyStats, cmdStats: CommandStats, clientStats: ClientStats,
                    cmd: seq<byte>, ev: LatencyEvent)
      requires cmdStats.Valid() && stats !in cmdStats.commands.Values
      modifies stats, cmdStats, cmdStats.commands.Values, clientStats
      ensures cmdStats.Valid() && stats !in cmdStats.commands.Values
      ensures fresh(cmdStats.commands.Values - old(cmdStats.commands.Values))
      ensures stats.View() == Recorded(old(stats.View()), ev.latencyNs, ev.bytes)
      ensures cmdStats.contents == CommandRecorded(old(cmdStats.contents), cmd, ev.latencyNs, ev.bytes)
      ensures clientStats.clients == ClientFolded(old(clientStats.clients), ev)
    {
      RecordLatency(stats, cmdStats, cmd, ev);
      if ev.clientIp != 0 {
        clientStats.Record(ev.clientIp, ev.bytes);
      }
    }

    /** The first two stores: overall, then the command's own. */
    method RecordLatency(stats: LatencyStats, cmdStats: CommandStats, cmd: seq<byte>, ev: LatencyEvent)
      requires cmdStats.Valid() && stats !in cmdStats.commands.Values
      modifies stats, cmdStats, cmdStats.commands.Values
      ensures cmdStats.Valid() && stats !in cmdStats.commands.Values
      ensures fresh(cmdStats.commands.Values - old(cmdStats.commands.Values))
      ensures stats.View() == Recorded(old(stats.View()), ev.latencyNs, ev.bytes)
      ensures cmdStats.contents == CommandRecorded(old(cmdStats.contents), cmd, ev.latencyNs, ev.bytes)
    {
      stats.Record(ev.latencyNs, ev.bytes);
      cmdStats.Record(cmd, ev.latencyNs, ev.bytes);
    }
  }

  lemma Whole(h: seq<LatencyEvent>, all: seq<LatencyEvent>)
    ensures h + all[..0] == h && h + all[..|all|] == h + all
  {
    assert all[..|all|] == all;
  }

  lemma Next(h: seq<LatencyEvent>, all: seq<LatencyEvent>, i: nat)
    requires i < |all|
    ensures h + all[..i + 1] == h + all[..i] + [all[i]]
  {
  }

  lemma ValuesAppend(classify: Classifier, lat: Summary, cmd: CommandView, cli: ClientView,
                     h: seq<LatencyEvent>, ev: LatencyEvent)
    requires ValuesHold(classify, lat, cmd, cli, h)
    ensures ValuesHold(classify, Recorded(lat, ev.latencyNs, ev.bytes),
                       CommandRecorded(cmd, classify(ev), ev.latencyNs, ev.bytes),
                       ClientFolded(cli, ev), h + [ev])
  {
    FoldLatAppend(h, ev);
    FoldCmdAppend(h, ev, classify);
    FoldCliAppend(h, ev);
    UnmarkedRecorded(lat, ev.latencyNs, ev.bytes);
  }

  /** The reporter's use of the latency store (aya-test/src/reporter.rs). */
  class ReportPrinter {
    /** The differences printed so far. */
    var printed: seq<Delta>

    constructor ()
      ensures printed == []
    {
      printed := [];
    }

    /** One tick: a store that held a history still holds it, and the printed
        differences go on adding up to the totals at the last report. */
    method Tick(stats: LatencyStats)
      modifies this, stats
      ensures Unmarked(stats.View()) == old(Unmarked(stats.View()))
      ensures printed == old(printed) + ListOf(DeltaOf(old(stats.View())))
      ensures old(Telescoped(stats.View(), printed)) ==> Telescoped(stats.View(), printed)
    {
      ReportTelescopesIf(stats.View(), printed);
      UnmarkedRecorded(stats.View(), 0, 0);
      var delta := stats.Report();
      if delta.Some? {
        printed := printed + [delta.value];
      }
    }
  }

  lemma ReportTelescopesIf(s: Summary, deltas: seq<Delta>)
    ensures Telescoped(s, deltas) ==> Telescoped(Reported(s), deltas + ListOf(DeltaOf(s)))
  {
    if Telescoped(s, deltas) {
      ReportTelescopes(s, deltas);
      assert deltas + [] == deltas;
    }
  }
}
