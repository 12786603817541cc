# Redis request tracer: verified model

The tracer watches a Redis process with eBPF probes on `tcp_recvmsg` and
`tcp_sendmsg`. Three probe handlers share a bounded map of open requests and
push latency events into a ring. A user-space reader drains the ring into a
batch, classifies each event by the RESP bytes that were captured with it and
folds it into three statistics stores under three mutexes, while a reporter
prints those stores. A sampling probe collects stacks, which are symbolized and
folded into the text that a flame graph is drawn from.

This project models those four parts and proves what they are for.

| file | content |
|---|---|
| `Words.dfy` | 64-bit words, decimal and hexadecimal text, sums over finite sets |
| `Resp.dfy`, `RespEncoder.dfy` | the command scanner, its exact specification, a RESP2 encoder and the round trip |
| `Probes.dfy` | the handlers as methods that update the shared maps, and their effects as functions |
| `AtomicRuns.dfy` | runs of undisturbed handlers; which request an event reports |
| `Interleaving.dfy` | handlers split at their map accesses, interleaved over threads and CPUs; refinement of the atomic runs, with the inputs that the steps gave |
| `Stories.dfy` | which steps of a run an output reports: its entry, its exit, and what was read from user memory in between |
| `Traces.dfy` | building runs out of whole handlers, for the runs that show a condition to be needed; every request can be reported |
| `Pairing.dfy` | outputs and requests correspond one to one, and exactly when; which exits output |
| `RingOrder.dfy`, `Limits.dfy` | when the order in the ring is that of some order of the undisturbed handlers, and exactly when |
| `Acting.dfy` | the same results for one run at a time: only the threads that act in it matter |
| `Outputs.dfy`, `Overlap.dfy` | conservation, order and batched wake-up of the output; overlapping output sections |
| `Stats.dfy` | the three stores, group-by over the history, report deltas |
| `Collector.dfy`, `Completion.dfy`, `Reader.dfy` | reader, reporter and mutexes as a transition system; what is left of batches and reports; the loop bodies as methods |
| `Temporal.dfy`, `Fairness.dfy` | endless runs: every batch and every report completes, and exactly under which scheduling |
| `Pipeline.dfy`, `Draining.dfy` | probes, ring, reader and reporter composed into one system; that everything can always still be folded |
| `Lookup.dfy`, `Symbolizer.dfy`, `ProcText.dfy` | stable sorting and searching, symbol lookup with its cache, the two text files it starts from |
| `FoldedText.dfy`, `Flamegraph.dfy`, `Semicolons.dfy` | folding stack samples, printing the folded text and reading it back; names with semicolons |

## Reading the model

**Threads and keys.** The variable called `tid` in the probes holds
`ctx.tgid()`, while the filter tests `ctx.pid()`
(aya-test-ebpf/src/main.rs:88-90); the comment at lines 252-254 says which is
the process and which the thread. The map is therefore keyed by process, and
the model does the same. A configuration has a set of threads that exist.
Outputs and requests pair one to one in every run if and only if at most one of
them that passes the filter runs under any key (`PairingExact`); a non-zero
filter value gives this (`TargetGivesOneThread`). A run is also a run of the
threads that act in it alone (`RunOfActors`), so a single run needs the
condition of those only: a process with many threads, one of which does the
networking, is covered (`ActorsMatch`, `ActorsExplained`).

**What an output reports** is told by the steps of the run: its thread's last
recvmsg entry, that thread's last sendmsg exit, and as capture what was read from
user memory in between (`StepsMatch`, `InputsAreKept`). While the keys that are
entered fit in the map the converse holds as well: an exit outputs if and only if
an entry is open and at most ten seconds old (`OutputsExact`).

**Wake-up batch.** The comment at aya-test-ebpf/src/main.rs:193 says every 8th
event, the constant at line 71 is 16. The model follows the constant.

**Order in the ring.** A sendmsg exit frees its map slot before it outputs.
When the map is full, another thread can fill and leave that slot and output
first, and then no order of the same handlers that keeps each thread's own
order explains the ring (`BorrowedOrder`, `NoOrderExplains`, for every size of
the map). Two threads under one key can report one request twice, which no order
explains either (`SharedKeyUnexplained`). Every run is explained if and only if
no two passing threads share a key and the map has a slot for the key of each
(`RingOrderExact`): with the 10240 slots of aya-test-ebpf/src/main.rs:54, for up
to 10240 traced processes with one such thread each.

**Overlapping output sections.** Each CPU's wake-up counter is read and written
back in two steps. That the counter stays below 16 is proved for every
interleaving. The exact counts on a CPU, and the bound of 15 unannounced records
per CPU, hold for runs in which no two output sections overlap there
(`SerialOn`). Two threads whose sections overlap can leave 30 records per CPU
unannounced; the bound holds in every run if and only if at most one thread
passes the filter (`BoundExact`).

**Completion.** In endless runs every begun batch is folded whole if and only if
the scheduling is strongly fair to the reader, and every begun report is printed
if and only if it is strongly fair to the reporter (`BatchesCompleteExact`,
`ReportsCompleteExact`): a loop that can work again and again does work again
and again. Nothing is asked of the other loop, the timer or the ring, because
neither loop can keep a mutex from the other for ever (`ReaderCanSoon`,
`ReporterCanSoon`). Weak fairness is not enough: a loop that finds its mutex
taken whenever it looks can wait for ever (`ReaderCanStarve`,
`ReporterCanStarve`).

**Environment.** Clock readings (non-decreasing), socket and user-memory reads,
a full ring, the scheduling, file contents, the last component of a path and
the fallback RESP decoder are inputs of the model, quantified over. A map that
is full refuses new keys. The binary search of the standard library is a
parameter that is only known to keep its documented promise, whichever of
several equal keys it stops at. The histogram is a bounded multiset that
accepts every value up to its upper bound.

**Machine arithmetic.** 64-bit additions and subtractions wrap where the
release build wraps. Packing address and port is written as arithmetic;
`PackBits` shows that it is the shift-and-or of the source.

**Properties that hold under a condition.** The gate passes a start far in the
future that wraps (`GateExact`, `GateWrapsBeyondBound`); printed deltas are
exact if and only if the true total stays between the same multiples of 2^64
(`DeltaExact`, `DeltaSaturates`); a symbol lookup agrees with a linear scan for
every search if and only if the address is not shared and not the largest word
(`NamesExactly`, `TieBreakMatters`); the chosen mapping is the containing one if
and only if mappings are non-empty and disjoint (`LayoutExact`); two samples
share a key if and only if their frame lists agree once every name is cut at its
semicolons (`KeysExact`), so that keys read back as frame lists if and only if
no name holds a semicolon (`ReadBackExact`, `SemicolonCollides`), while samples
of the kernel alone have keys of their own in any case (`KernelKeysOneToOne`);
the folded text reads back if and only if no frame holds a line end
(`FileReadsBackExact`). Pairing, ring order and the bound on unannounced records
have their conditions above.

## Model

| member | source | states |
|---|---|---|
| Resp.ScanExact | aya-test/src/resp.rs:45-81 | an answer is the scanner's if and only if it is the upper-cased, clipped payload of the least `$` position with digits, CR LF and a non-empty word of letters, or none where there is no such position or an oversized numeral comes first |
| Resp.ScanSpecFunctional | aya-test/src/resp.rs:45-81 | the positional specification admits exactly one answer for any bytes |
| Resp.JudgeMeaning | aya-test/src/resp.rs:54-77 | one position answers, aborts or is skipped exactly as its header says; an end position that wraps past 2^64 is always skipped |
| Resp.AnswerIsCapitals | aya-test/src/resp.rs:69-76 | whatever the bytes, an answer is a non-empty word over A to Z |
| Resp.ScanRespCommand | aya-test/src/resp.rs:45-81 | the loop with its early returns and its table returns the text of the table-free scan, for all byte sequences |
| Resp.Render | aya-test/src/resp.rs:69-76 | the text is the upper-cased payload with or without the table; it is borrowed exactly for the listed commands |
| Resp.MakeAsciiUppercase | aya-test/src/resp.rs:74-75 | the in-place pass turns each small letter into the one 32 below it and leaves all else alone |
| Resp.TableIsUpper | aya-test/src/resp.rs:85-111 | every table entry is its own upper case |
| Resp.CaseInsensitive | aya-test/src/resp.rs:45-81 | replacing any letters by those 32 above or below them changes no answer |
| Resp.PrefixStable | aya-test/src/resp.rs:45-81 | if the answer's whole declared payload was captured, any further bytes leave the answer as it is |
| Resp.RejectedStays | aya-test/src/resp.rs:54-68 | a position rejected before the answer stays rejected when the window grows |
| Resp.ClassifyCommand | aya-test/src/resp.rs:17-41 | cut at the first NUL, scan, then what the decoder and its upper-casing give, then OTHER: the text for every capture and every decoder, and a scanned one is a word of capitals |
| RespEncoder.ScanAnnounced | aya-test/src/resp.rs:45-81 | any window with an announcing header and then the word, whole or cut off, yields the shown word in capitals exactly when its end fits in 64 bits |
| RespEncoder.CaptureAnnounced | aya-test/src/resp.rs:17-27 | the same through the 32-byte buffer and its NUL cut, for every decoder |
| RespEncoder.RoundTrip | aya-test/src/resp.rs:17-27 | an encoded request whose command shows at least one byte in the capture classifies to the shown part of its command in upper case, whatever follows |
| Probes.PackLossless | aya-test-ebpf/src/main.rs:102 | address and port come back unchanged from the 48-bit packing |
| Probes.PackBits | aya-test-ebpf/src/main.rs:181-182 | shifting and masking machine words is the arithmetic used in the model |
| Probes.GateExact | aya-test-ebpf/src/main.rs:178-179 | which pairs of 64-bit clock values pass the latency gate, both ways, wrapped differences included |
| Probes.GateIsElapsedTime | aya-test-ebpf/src/main.rs:178-179 | up to clock 2^64-1-10^10 the gate passes exactly true intervals of at most ten seconds and gives the true difference |
| Probes.GateWrapsBeyondBound | aya-test-ebpf/src/main.rs:178-179 | one step beyond that bound a start in the future passes |
| Probes.GateTells | aya-test-ebpf/src/main.rs:178-191 | field by field, the event that passes the gate; the bytes are the return value itself below 2^32 and zero for an error |
| Probes.Tracer.OnRecvmsg | aya-test-ebpf/src/main.rs:87-116 | the map after an entry: under an old or new key a context with the time, client and buffer address of the call, and nothing else changed; unchanged when filtered or when 10240 other keys are taken |
| Probes.Tracer.OnRecvmsgRet | aya-test-ebpf/src/main.rs:130-153 | the capture is stored and the buffer address cleared, only where an address was recorded |
| Probes.Tracer.OnSendmsg | aya-test-ebpf/src/main.rs:167-209 | the whole new state: key removed, event appended unless gated or the ring is full, counter advanced, records left unannounced; the appended event has the return value as its bytes, the true difference of the clocks, the client and the capture |
| Probes.Tracer.Output | aya-test-ebpf/src/main.rs:194-206 | counter, ring and unannounced records after one output attempt |
| AtomicRuns.StoredIsLatest | aya-test-ebpf/src/main.rs:112-150 | after any run a stored context is that of the most recent entry for its key, with the capture of the first exit after it |
| AtomicRuns.EmissionPaired | aya-test-ebpf/src/main.rs:174-191 | every event carries start time, client and capture of the most recent entry for its key, and the bytes and error that its own exit returned; the capture is zeros or what that request's exit read |
| AtomicRuns.PairingOneToOne | aya-test-ebpf/src/main.rs:174-176 | in a history of undisturbed handlers, between two events of one key lies the entry that the second reports |
| AtomicRuns.LatestIsStored | aya-test-ebpf/src/main.rs:54 | while the entered keys fit in the map no open entry is lost |
| AtomicRuns.EmitsExact | aya-test-ebpf/src/main.rs:174-179 | while they fit, an exit emits if and only if an entry for its key is open, at most ten seconds old by the gate's subtraction |
| Interleaving.TargetGivesOneThread | aya-test-ebpf/src/main.rs:228-234 | a non-zero filter value passes the thread of that number and no other, hence at most one per map key; zero passes every thread |
| Interleaving.Refinement | aya-test-ebpf/src/main.rs:137-206 | with at most one existing passing thread per key every interleaving of the split handlers has the map of an atomic run of the same handlers and, per thread, the same events in order up to the one in flight, also when the map is full; each thread's handlers in that run are those that its steps began, with the inputs of those steps |
| Interleaving.InputsAreKept | aya-test-ebpf/src/main.rs:91-171 | in every run, whatever the keys: clock, socket, message, capture and return value of each thread's handlers are those of its steps, and zeros for a recvmsg exit that reads nothing |
| Interleaving.OtherKeysKept | aya-test-ebpf/src/main.rs:112-176 | no step touches the map at another key |
| Stories.OutputReports | aya-test-ebpf/src/main.rs:87-206 | every output reports, field by field, the last recvmsg entry and the last sendmsg exit of its thread in the run; its capture is what the one user read between them gave, or zeros without such a read, and there is one exactly when the entry had a buffer and a recvmsg exit looked in between |
| Stories.StepsMatch | aya-test-ebpf/src/main.rs:87-206 | so does every output of the run, by its place; outputs of one key lie one before the other's entry, and a refused output is one that found the ring full |
| Traces.RequestIsReported | aya-test-ebpf/src/main.rs:87-206 | for any passing thread, client, message, capture, return value and interval of at most ten seconds there is a run whose only output carries them, refused or not |
| Pairing.AttemptsMatch | aya-test-ebpf/src/main.rs:87-206 | with at most one existing passing thread per key, on every interleaving, every output, by its place, has an entry and an exit of its own that it reports with the true time between them, among the handlers and among the steps of the run; outputs of one key have requests that follow each other |
| Pairing.OutputsExact | aya-test-ebpf/src/main.rs:174-206 | while the entered keys fit, the exit of a thread between handlers has made an output if and only if an entry for its key was open, at most ten seconds old |
| Pairing.NothingReportedTwice | aya-test-ebpf/src/main.rs:174-206 | in such a matching no entry is reported by two outputs and no exit makes two |
| Pairing.PairingExact | aya-test-ebpf/src/main.rs:88-90 | every run pairs its outputs and requests one to one if and only if at most one existing thread that passes the filter runs under any key |
| Interleaving.ClocksInOrder | aya-test-ebpf/src/main.rs:171-178 | a sendmsg exit that finds a context read the clock no earlier than its entry did |
| RingOrder.OutputOrderIsAtomic | aya-test-ebpf/src/main.rs:174-206 | in a run where no entry borrows a slot whose event is still to be output, the outputs are the emissions of one run of undisturbed handlers |
| RingOrder.SlackExplains | aya-test-ebpf/src/main.rs:174-206 | such a run is explained by an order of its own handlers that keeps each thread's order |
| RingOrder.FitsKeepsSlack | aya-test-ebpf/src/main.rs:54 | while the keys of the existing passing threads fit in the map no entry borrows a slot |
| Limits.RingOrderExact | aya-test-ebpf/src/main.rs:54 | every run's output is explained by an order of its handlers that keeps each thread's own, if and only if no two passing threads share a key and the map has a slot for the key of each |
| Limits.SharedKeyUnexplained | aya-test-ebpf/src/main.rs:88-90 | for any two passing threads under one key, a run in which both output and which no order of its handlers explains |
| Limits.TargetKeepsOrder | aya-test-ebpf/src/main.rs:228-234 | with a non-zero filter value every run's output is explained |
| Limits.BorrowedOrder | aya-test-ebpf/src/main.rs:174-206 | for every size of the map, a run that fills it and outputs the later of two requests first |
| Limits.NoOrderExplains | aya-test-ebpf/src/main.rs:174-206 | no order of that run's handlers that keeps each thread's own order emits the events in the run's order |
| Outputs.Conservation | aya-test-ebpf/src/main.rs:174-206 | in every reachable state each found context is late, refused, accepted or in hand, and the ring is the unread end of the accepted records |
| Outputs.OutputsGated | aya-test-ebpf/src/main.rs:178-179 | no event above ten seconds is ever built or output |
| Outputs.CountersStaySmall | aya-test-ebpf/src/main.rs:198-205 | wake-up counters stay below 16 however reads and writes overlap |
| Outputs.PhaseIsRemainder | aya-test-ebpf/src/main.rs:199-205 | the counter after n attempts is n mod 16, and n div 16 of them forced a wake-up |
| Outputs.BatchedWakeup | aya-test-ebpf/src/main.rs:194-206 | in every state of a run whose sections do not overlap on a CPU: n div 16 of the n attempts there forced a wake-up, and the counter is n mod 16, one further inside a section that has written it |
| Outputs.UnannouncedExact | aya-test-ebpf/src/main.rs:198-206 | in every reachable state, however sections overlap, the records that wait unannounced are those accepted since the last accepted wake-up, as far as they are still in the ring |
| Outputs.UnannouncedBounded | aya-test-ebpf/src/main.rs:194-206 | if no forced output is refused and no sections overlap, the unannounced records are at most the sum of the counters that the attempts made so far imply, hence at most 15 per CPU |
| Overlap.BoundExact | aya-test-ebpf/src/main.rs:194-206 | the bound of 15 per CPU holds in every run without a refused forced output if and only if at most one thread passes the filter |
| Overlap.OverlapBreaks | aya-test-ebpf/src/main.rs:194-206 | for any two passing threads a run of overlapping sections leaves 30 records per CPU unannounced |
| Acting.RunRestricts | aya-test-ebpf/src/main.rs:228-234 | a run is also a run of any set of threads that contains the acting ones, with the same states and the same atomic run |
| Acting.ActorsRefine | aya-test-ebpf/src/main.rs:137-206 | refinement, inputs included, for every run in which no two acting threads share a key, whatever other threads exist |
| Acting.ActorsMatch | aya-test-ebpf/src/main.rs:87-206 | in every such run each output has a request of its own and reports its true time and its steps; outputs of one key have requests that follow each other |
| Acting.ActorsExplained | aya-test-ebpf/src/main.rs:54 | in every such run whose acting threads use at most as many keys as the map has slots, the output order is that of an order of the handlers that keeps each thread's own |
| Acting.ActorAnnounced | aya-test-ebpf/src/main.rs:194-206 | a run with a single acting thread keeps the bound of 15 records per CPU |
| Stats.LatencyStats.Record | aya-test/src/stats.rs:94-98 | the whole store after one sample, with wrapping totals and the histogram's range |
| Stats.LatencyStats.Report | aya-test/src/stats.rs:107-120 | what was added since the last report, or nothing while the total reads zero, and the new marks |
| Stats.CommandStats.Record | aya-test/src/stats.rs:196-204 | exactly the named command's store changes or appears, although stores are separate objects |
| Stats.ClientStats.Record | aya-test/src/stats.rs:267-274 | exactly the given address's counters change or appear |
| Stats.CommandsGroupHistory | aya-test/src/stats.rs:196-204 | after any history a command has a store if and only if an event classified to it, and the store is that of those events |
| Stats.ClientsGroupHistory | aya-test/src/stats.rs:267-274 | the same for client addresses, with count and bytes |
| Stats.FoldLatHolds | aya-test/src/stats.rs:94-98 | total, bytes and latency multiset of a gated history, one sample per event |
| Stats.GroupsPartition | aya-test/src/reader.rs:53-59 | any weight added up group by group equals the weight of the events that have a key |
| Stats.StoresPartitionHistory | aya-test/src/reader.rs:53-59 | the keys of the two keyed stores are those of the history, and their group counts and bytes add up to it |
| Stats.StoredNumbersAddUp | aya-test/src/reader.rs:53-59 | the stored per-command totals and bytes add up to the global ones, the per-client counts and bytes to those of the events with an address |
| Stats.StoresCount | aya-test/src/reader.rs:53-59 | from the fields of the events alone: a command is stored if and only if an event is classified to it, an address if and only if it is not zero and an event has it, each with the number of those events |
| Reports.DeltaExact | aya-test/src/stats.rs:115-120 | a printed difference is the true one if and only if the total did not wrap in between |
| Reports.DeltaSaturates | aya-test/src/stats.rs:116 | the smallest wrap prints zero bytes for one byte |
| Reports.ReportTelescopes | aya-test/src/stats.rs:115-120 | a report keeps the sum of all printed differences equal to the totals at the last report |
| Reader.RingReader.Collect | aya-test/src/reader.rs:37-45 | the batch grows by exactly what the ring offers, in order |
| Reader.RingReader.Process | aya-test/src/reader.rs:49-60 | stores that held a history then hold it followed by the batch, the batch is empty, report marks are untouched |
| Reader.StoresTellCaptures | aya-test/src/reader.rs:53-59 | stores that hold a history count every event under what its own captured bytes classify to, and under its own address unless that is zero |
| Reader.ReportPrinter.Tick | aya-test/src/reporter.rs:25-27 | a tick leaves the history in the store and keeps the sum of printed differences at the totals of the last report |
| Collector.UInvAlways | aya-test/src/reader.rs:33-61 | in every reachable state of reader and reporter the mutexes have their owners, the stores hold the folded history, batch and history fit together, panels and deltas are consistent |
| Collector.SnapshotAtBatchBoundary | aya-test/src/reporter.rs:27-33 | whenever the reporter holds a mutex, all three stores are those of the same whole batches |
| Collector.PanelsNeverShrink | aya-test/src/reporter.rs:25-33 | within one report no panel shows fewer events than one printed before it |
| Collector.BatchesHaveEvents | aya-test/src/reader.rs:49 | the reader takes mutexes only with events in hand, and no completed batch is empty |
| Collector.DeadlockFree | aya-test/src/reader.rs:50-60 | in every reachable state, if one loop is blocked the other can step |
| Completion.ReaderProgress | aya-test/src/reader.rs:49-61 | in any continuation that begins no new batch, the reader's own steps and what is left of the batch add up to what was left, whatever the reporter, the timer and the ring do |
| Completion.ReporterProgress | aya-test/src/reporter.rs:25-35 | the same for the reporter and its report |
| Completion.BatchCompletes | aya-test/src/reader.rs:49-61 | in any continuation the begun batch is done exactly when the reader has taken the number of steps that were left, and the reader then holds no mutex |
| Completion.ReportCompletes | aya-test/src/reporter.rs:25-35 | in any continuation the begun report is done exactly when the reporter has taken the number of steps that were left, and the reporter then holds no mutex |
| Completion.BlockedReaderGoesOn | aya-test/src/reader.rs:50-52 | a mutex that a blocked reader wants becomes free within two steps of the reporter |
| Completion.BlockedReporterGoesOn | aya-test/src/reporter.rs:27-33 | a mutex that a blocked reporter wants becomes free within the reader steps left of the batch |
| Completion.WorkCompletes | aya-test/src/reporter.rs:25-35 | after any steps at all, once neither loop has work to do, the batch that was in progress is among the completed ones, the report that was in progress has its three panels, and the mutexes are free |
| Temporal.FinishExact | aya-test/src/reader.rs:33-61 | a loop that only its own work brings on, and that can work again while busy, always finishes if and only if the scheduling is strongly fair to it |
| Fairness.StatesAreReached | aya-test/src/reader.rs:33-61 | the states of an endless run are those of the finite runs that it begins with |
| Fairness.ReaderCanSoon | aya-test/src/reader.rs:50-52 | in every endless run a busy reader can work at some later point: no mutex is kept from it for ever |
| Fairness.ReporterCanSoon | aya-test/src/reporter.rs:27-33 | the same for a reporter at work |
| Fairness.BatchesCompleteExact | aya-test/src/reader.rs:49-61 | in an endless run every begun batch is later folded whole, as the last completed one and with no mutex held, if and only if the scheduling is strongly fair to the reader |
| Fairness.ReportsCompleteExact | aya-test/src/reporter.rs:25-35 | in an endless run every begun report later has its three panels, with no mutex held, if and only if the scheduling is strongly fair to the reporter |
| Fairness.ReaderCanStarve | aya-test/src/reader.rs:50-52 | an endless run, weakly fair to the reader and strongly fair to the reporter, in which the reader waits for its first mutex for ever |
| Fairness.ReporterCanStarve | aya-test/src/reporter.rs:27-33 | an endless run, weakly fair to the reporter and strongly fair to the reader, in which the reporter waits for its first mutex for ever |
| Pipeline.ConservationAndOrder | aya-test/src/reader.rs:33-61 | over the whole pipeline: folded events, the one being recorded, the batch and the ring are the accepted outputs in order, and found contexts are late, refused, in hand or one of these |
| Pipeline.FoldedPaired | aya-test/src/reader.rs:53-59 | while no two acting threads share a key, the recorded events, each by its place, have requests of their own, with their true latencies, among the handlers and among the steps of the run: no request is folded twice |
| Pipeline.TotalBytesReturned | aya-test/src/reader.rs:53-59 | then the total of bytes in the store is the sum of what the exits of those events returned, errors counting nothing, while each fits in 32 bits and the sum in 64 |
| Pipeline.PanelsAddUp | aya-test/src/reporter.rs:27-33 | what the reporter prints adds up: command totals and bytes to the global ones, client counts and bytes to those of the events with an address |
| Pipeline.HistogramComplete | aya-test/src/stats.rs:77-98 | in every reachable state the histogram has one sample per recorded event |
| Pipeline.CommandHistogramsComplete | aya-test/src/stats.rs:196-204 | the same for the histogram of every command and its events |
| Pipeline.DeltasTelescope | aya-test/src/stats.rs:115-120 | while the totals fit in 64 bits the printed deltas add up to the totals at the last report, and from a report's first panel on to the events and bytes folded until then |
| Draining.EverythingCanBeFolded | aya-test/src/reader.rs:33-61 | from every reachable state of the pipeline there are steps of the two loops alone after which the stores hold every record that the ring has accepted |
| Draining.EveryRunIsAHalf | aya-test/src/reader.rs:33-45 | every run of the probes, with the ring read at any points, is the probes' half of a run of the pipeline |
| Lookup.StableSortSorts | aya-test/src/symbolizer.rs:117 | sorting by key ascends and keeps the order of the elements of each key |
| Lookup.StablySortedUnique | aya-test/src/symbolizer.rs:55 | those two properties leave exactly one result |
| Lookup.SearchRefinesScan | aya-test/src/symbolizer.rs:143-154 | the found index or the one before the gap is that of a linear scan, up to the choice among equal keys |
| Symbols.NearestExact | aya-test/src/symbolizer.rs:143-161 | a lookup gives the linear scan's name or none, and exactly when none |
| Symbols.NamedIsNearest | aya-test/src/symbolizer.rs:155-161 | a returned name belongs to a symbol with the greatest address at or below the one looked up, for any tie-break |
| Symbols.FallbackExact | aya-test/src/symbolizer.rs:143-167 | for an unshared address below the largest word the fallback is taken if and only if every address is larger |
| Symbols.OwnAddress | aya-test/src/symbolizer.rs:143-161 | a symbol's own unshared address gets its name |
| Symbols.TieBreakMatters | aya-test/src/symbolizer.rs:157-161 | on a shared address one valid search gives no name and another gives the last one's |
| Symbols.NamesExactly | aya-test/src/symbolizer.rs:143-161 | agreement with the linear scan for every valid search, if and only if the address is settled |
| Symbols.HiddenAddresses | aya-test/src/symbolizer.rs:171-187 | when all kernel addresses read as zero, every address but zero and the largest word gets the last listed name; what those two get |
| Symbols.ChosenContains | aya-test/src/symbolizer.rs:126-137 | for non-empty disjoint mappings the chosen one is the unique one that contains the address, and none is chosen if none does |
| Symbols.LayoutExact | aya-test/src/symbolizer.rs:126-137 | that holds for every valid search if and only if the mappings are non-empty and disjoint |
| Symbols.PlaceExact | aya-test/src/symbolizer.rs:125-139 | an address so many bytes into a mapping is as many bytes past the mapping's offset in its file, modulo 2^64; one in no mapping is nowhere |
| Symbols.FileOffsetFound | aya-test/src/symbolizer.rs:125-139 | every file position that a mapping shows is found at its own address |
| Symbols.FreshNames | aya-test/src/symbolizer.rs:124-168 | where symbol addresses are distinct, an address whose file position lies from one symbol up to the next gets that symbol's name |
| Symbols.FreshUnmapped | aya-test/src/symbolizer.rs:127-138 | an address in no mapping is printed in hexadecimal |
| Symbols.FreshFallback | aya-test/src/symbolizer.rs:143-167 | one whose file position comes before every symbol is printed as file name and position |
| Symbols.KernelNamesExact | aya-test/src/symbolizer.rs:171-188 | a kernel address gets the name of the symbol it lies in, or is printed in hexadecimal before all of them, behind the kernel's mark |
| Symbols.LoadedIsSorted | aya-test/src/symbolizer.rs:94-117 | a file's symbols are the kept entries of its table, stably sorted by address |
| Symbols.LoadedExact | aya-test/src/symbolizer.rs:97-115 | a symbol is in a file's list if and only if the full table has a defined, placed and named entry for it, or the full table is empty and the dynamic one has |
| Symbols.CachedAtFirstNeed | aya-test/src/symbolizer.rs:94-121 | a path is cached if and only if a lookup needed it, with what the file held at the first such lookup |
| Symbols.AnswersAreOfFirstNeed | aya-test/src/symbolizer.rs:124-168 | whatever the files do later, an answer is the uncached one for the files as first read |
| Symbols.CacheTransparent | aya-test/src/symbolizer.rs:94-141 | while files stay the same, every answer is that of an uncached symbolizer whatever the lookups before it, and every cached list is sorted and equal to its load |
| Symbols.FaithfulAnswers | aya-test/src/symbolizer.rs:124-168 | one lookup keeps the cache equal to the files and answers as if uncached |
| Symbols.Symbolizer.LoadSyms | aya-test/src/symbolizer.rs:94-121 | the cache gains the path only if it was missing, and the list returned is the cached one |
| Symbols.Symbolizer.Resolve | aya-test/src/symbolizer.rs:124-168 | the name and the whole new cache, through mapping, wrapped file offset and symbol |
| Symbols.Symbolizer.Locate | aya-test/src/symbolizer.rs:125-139 | the mapped file and the wrapped offset in it, or none |
| Symbols.Symbolizer.NameIn | aya-test/src/symbolizer.rs:143-167 | the nearest symbol's name or the offset text |
| Symbols.Symbolizer.ResolveKernel | aya-test/src/symbolizer.rs:171-188 | the kernel name of an address, nothing changed |
| ProcText.HexRoundTrip | aya-test/src/symbolizer.rs:73-75 | every 64-bit number printed in hexadecimal at any width reads back |
| ProcText.MapLineExact | aya-test/src/symbolizer.rs:65-88 | for any line: which mapping it gives, if and only if it has six words, a range that does not start at zero, an offset and no bracketed name |
| ProcText.MapsRoundTrip | aya-test/src/symbolizer.rs:59-90 | what the kernel prints for any regions is read back as the mappings with a start and a real path, stably sorted; a path ends at its first white space |
| ProcText.KallsymsRoundTrip | aya-test/src/symbolizer.rs:42-57 | the kernel's symbol list is read back whole and stably sorted, a module's name attached to its symbols |
| ProcText.KernelNamesHaveNoBlank | aya-test/src/symbolizer.rs:46-53 | whatever the text is, no kernel symbol is read with an empty name or a blank in it |
| FoldedText.JoinExact | aya-test/src/flamegraph.rs:48 | splitting undoes joining if and only if no piece holds the separator |
| FoldedText.JoinsAgreeExact | aya-test/src/flamegraph.rs:48 | two lists join to the same text if and only if they agree once every piece is cut at its separators |
| FoldedText.LineRoundTrip | aya-test/src/flamegraph.rs:55 | stack and count come back from a line split at its last space, although names hold spaces |
| FoldedText.PrintExact | aya-test/src/flamegraph.rs:53-56 | the printed lines read back as the same entries if and only if no stack holds a line end |
| FoldedText.FoldedTextExact | aya-test/src/flamegraph.rs:53-56 | the same for a map of counts in every order of iteration; the entries determine the map |
| Flamegraph.FoldSamples | aya-test/src/flamegraph.rs:16-50 | the map counts the samples by the keys that an uncached symbolizer of the first sample's process gives |
| Flamegraph.PushUser | aya-test/src/flamegraph.rs:38-42 | the frames gain the uncached names of the non-zero addresses, last first, while the cache fills |
| Flamegraph.TallyCounts | aya-test/src/flamegraph.rs:49 | a key is present if and only if a sample has it, with the number of samples that do |
| Flamegraph.FoldConserves | aya-test/src/flamegraph.rs:27-50 | the counts add up to the samples with a non-zero address in their clamped prefixes |
| Flamegraph.SameStackSameKey | aya-test/src/flamegraph.rs:33-42 | equal non-zero stacks share a key wherever their zeros stand |
| Flamegraph.FramesExact | aya-test/src/flamegraph.rs:27-42 | by positions in the two arrays: how many frames, and where the name of each non-zero address stands, kernel before user |
| Flamegraph.LaterStandsEarlier | aya-test/src/flamegraph.rs:33-38 | of two non-zero positions of one array the later one's name stands earlier |
| Flamegraph.FramesReversed | aya-test/src/flamegraph.rs:33-38 | without zeros the frames are the two valid prefixes reversed, of at most 20 addresses each |
| Flamegraph.KeyTellsFrames | aya-test/src/flamegraph.rs:44-49 | split at its semicolons the key has those names at those places, when no name has a semicolon |
| Flamegraph.KeysExact | aya-test/src/flamegraph.rs:44-49 | two samples share a key if and only if their frame lists agree once every name is cut at its semicolons, for kernel, user and mixed stacks |
| Flamegraph.ReadBackExact | aya-test/src/flamegraph.rs:48 | every sample's key splits back into its frames if and only if no name of an address other than zero has a semicolon |
| Flamegraph.KeysOneToOne | aya-test/src/flamegraph.rs:48 | without semicolons in names, keys are equal if and only if frame lists are, and a key splits into its frames |
| Semicolons.KernelKeysOneToOne | aya-test/src/flamegraph.rs:33-48 | for every text of the kernel's symbol list, samples of the kernel alone share a key if and only if their frame lists are equal, semicolons or not |
| Flamegraph.NamesFromSources | aya-test/src/symbolizer.rs:124-188 | a character that is in no symbol or file name, and that the formats do not use, is in no frame name |
| Flamegraph.FileReadsBackExact | aya-test/src/flamegraph.rs:53-56 | the written counts read back, in any order, if and only if no frame of a sample has a line end |
| Flamegraph.FileTellsStacks | aya-test/src/flamegraph.rs:24-56 | from samples to text and back: while no frame has a line end, exactly one entry for each list of cut frames that occurs, with the number of samples that show it, in any order |
| Semicolons.SemicolonCollides | aya-test/src/flamegraph.rs:48 | on texts as the kernel prints them, the kernel symbol "a;b" alone and the kernel symbol "a" with the user symbol "b" share a key |

## Left out

- Probe loading, attachment, process discovery, memory limits, log draining, output redirection and signals: input and output only.
- The meaning of kernel structure offsets: what was read is what is reported, whether or not it is the peer's address.
- tokio and epoll: a wake-up and a timer tick can come at any time; that they come, and that the scheduling is fair to a loop, is not claimed.
- The fallback RESP decoder: any function of the window; nothing is claimed about its answer.
- `hdrhistogram` beyond accepting every value up to its bound: quantiles, buckets and means.
- ELF parsing and whether symbol values match mapping file offsets: a file is its two symbol tables, and the lookup is as coded.
- inferno and the SVG: the model ends at the folded text.
- The stack sampling probe and `spawn_stack_reader`: the same shape as the latency side, with one lock and no fold.
- Panel printing, unit scaling and the monitor panel: presentation.
- A reporter without command or client stores: the model always has all three.
- `RedisCommand::detect` and the configuration overrides: not on the modelled paths.
- A store whose mutex is poisoned by a panic: the modelled loops do not panic.
- Symbols.Symbolizer.constructor: takes the parsed lists; reading the two files is input, and their texts are parsed in `ProcText`.
- ProcText.MapsRoundTrip: columns that are never parsed are arbitrary words, and decoding the file's bytes as UTF-8 is input.
- Probes.Tracer.OnSendmsg: one handler undisturbed; its interleavings are modelled on values in `Interleaving`, where two threads can be inside their handlers.
- Reader.RingReader.Process: one cycle between lock and unlock; the mutexes and the reporter's interleaving are modelled on values in `Collector`.
- Flamegraph.FoldSamples: files are assumed not to change while one sample list is folded.
