# Verification of the metrics-server pipeline and the Python algorithms

This project models two parts of the repository in Dafny and proves what they do.

**The metrics-server collection pipeline.** Kubelet summaries are decoded into batches
(`SummarySource`), one goroutine per source sends its batch and then its error over two
buffered channels while the collector receives the error first (`CollectProtocol`,
`CollectRuns`, `CollectResults`, `SourceManager`, `CollectTiming`), the collected batch is
installed in an in-memory index under a read-write lock (`SinkProvider`, `SinkRuns`), and
the pod storage joins listed pods with it (`PodStorage`). Ticks and the health check are in
`Manager`, the histogram buckets in `Buckets`. The parts are composed in `Confluence`
(collect and store), `Pipeline` (kubelet to client and to health check), `Serving` (ticks
while clients read) and `TickTiming` (ticker, collection times and health check). Goroutines
and the scheduler are a transition system: theorems quantify over every sequence of enabled
actions, and `SourceManager.Collect` runs the same steps on channel objects under
nondeterministic choice.

**The Python algorithms.** Backtracking parentheses, merge sort, insertion sort, permutations
of one rotated list, a prime sieve and bit reversal, each in the imperative form of its source,
proved against a specification function whose own meaning is proved separately.

`MetricsTypes` holds the exchanged data; `Wrappers`, `SeqTools` and `StableSort` are shared
vocabulary.
`dafny verify dfyconfig.toml` checks everything.

Places where code and documentation disagree; the model follows the code:

- `summary.go` lines 112-116 say that a node point with errors is discarded. The slice
  expression keeps it. `BadNodeIsReported` gives an input, `NodeDiscardedExactly` the exact
  condition, and `NodeContractExactly` what it means for the uniqueness contract.
- `manager.go` lines 115-116 say that the overall scrape timeout is preserved.
  `ScrapeTimeoutKeptExactly` states when it is, and `ScrapeTimeoutExceeded` gives an input for
  which it is not.
- The comment in `util.go` line 34 puts the first added bucket half the distance above the
  timeout; the code puts it in the middle between the largest default bucket and the timeout
  (`BucketsForScrapeDuration`).
- `permute([])` returns no list at all, although the empty list has one permutation
  (`CountExactly`).

## Model

| member | source | states |
|---|---|---|
| CollectProtocol.StepKeepsInv | terraform/Provisioning_an_EKS_Cluster/metrics-server-0.3.6/pkg/sources/manager.go:97-147 | Every spawn, scrape, send, receive and close keeps the invariant: both channels hold exactly the sent but not yet received items in send order, and nodes, pods and errors hold exactly the received ones |
| CollectRuns.ChannelSafety | terraform/Provisioning_an_EKS_Cluster/metrics-server-0.3.6/pkg/sources/manager.go:97-147 | In no reachable state does a goroutine stand at a send on a closed or full channel, nor the collector at a batch receive with nothing to take |
| CollectRuns.NeverStuck | terraform/Provisioning_an_EKS_Cluster/metrics-server-0.3.6/pkg/sources/manager.go:110-147 | Every reachable unfinished state has an enabled action |
| CollectRuns.EveryRunEnds | terraform/Provisioning_an_EKS_Cluster/metrics-server-0.3.6/pkg/sources/manager.go:110-150 | No run over n sources exceeds 6n + 2 actions, and Collect has returned exactly in the runs of that length |
| CollectRuns.Conservation | terraform/Provisioning_an_EKS_Cluster/metrics-server-0.3.6/pkg/sources/manager.go:89-149 | On return of any interleaving, nodes and pods are, as multisets, those of all non-nil batches; the errors are the provider's (first) and exactly the wrapped scrape errors |
| CollectRuns.ResultsExactly | terraform/Provisioning_an_EKS_Cluster/metrics-server-0.3.6/pkg/sources/manager.go:132-147 | Collect can return a result if and only if it belongs to some order of the batches and some order of the errors, chosen independently |
| CollectRuns.RunInOrder | terraform/Provisioning_an_EKS_Cluster/metrics-server-0.3.6/pkg/sources/manager.go:110-147 | Every pair of arrival orders is realised by a complete run |
| CollectRuns.ErrorsAndBatchesMayCross | terraform/Provisioning_an_EKS_Cluster/metrics-server-0.3.6/pkg/sources/manager.go:125-134 | Two failing sources can have their errors received in one order and their batches in the other |
| CollectResults.ErrorsExactly | terraform/Provisioning_an_EKS_Cluster/metrics-server-0.3.6/pkg/sources/manager.go:89-149 | In every complete run an error is returned if and only if it is the provider's or that of a failed source wrapped with its name, as often as that happens; a source without an error adds none |
| CollectResults.PointsExactly | terraform/Provisioning_an_EKS_Cluster/metrics-server-0.3.6/pkg/sources/manager.go:140-145 | In every complete run each node and pod point is returned as often as the sources return it |
| CollectResults.BatchStaysTogether | terraform/Provisioning_an_EKS_Cluster/metrics-server-0.3.6/pkg/sources/manager.go:144-145 | The points of one source stand together and in their order in the result |
| SourceManager.Collect | terraform/Provisioning_an_EKS_Cluster/metrics-server-0.3.6/pkg/sources/manager.go:88-150 | Under an arbitrary scheduler the goroutines, channels and receive loop reach the end without an unsafe channel operation and return the result of a complete protocol run: a nil error exactly if nothing failed, else an aggregate of exactly the provider's error and the wrapped errors of the failed sources; and each point as often as the sources return it |
| SourceManager.Collection.RunWorker | terraform/Provisioning_an_EKS_Cluster/metrics-server-0.3.6/pkg/sources/manager.go:111-127 | A goroutine's step is the protocol's scrape, batch send or error send, on channel objects that are neither closed nor full |
| SourceManager.Collection.ReceiveNext | terraform/Provisioning_an_EKS_Cluster/metrics-server-0.3.6/pkg/sources/manager.go:132-146 | The receive loop takes the error first, then a batch that is there, and appends as the protocol says; a nil batch adds nothing |
| SourceManager.Collection.CloseNext | terraform/Provisioning_an_EKS_Cluster/metrics-server-0.3.6/pkg/sources/manager.go:97-100 | The deferred closes shut the error channel first, then the response channel, each once |
| CollectTiming.CompletionTime | terraform/Provisioning_an_EKS_Cluster/metrics-server-0.3.6/pkg/sources/manager.go:110-147 | A complete timed run ends exactly when the last source has slept and returned |
| CollectTiming.DelayExactly | terraform/Provisioning_an_EKS_Cluster/metrics-server-0.3.6/pkg/sources/manager.go:30-108 | The exclusive delay bound is 8 ms per source, at most 4000 ms |
| CollectTiming.CollectionDeadline | terraform/Provisioning_an_EKS_Cluster/metrics-server-0.3.6/pkg/sources/manager.go:104-118 | The stagger bound lies in [8, 4000] ms, and a collection is over by the effective deadline or the longest possible delay, whichever is later; never after max(scrape timeout, 3999 ms) |
| CollectTiming.WorstCaseExactly | terraform/Provisioning_an_EKS_Cluster/metrics-server-0.3.6/pkg/sources/manager.go:104-118 | The exact worst case in numbers: a bound holds for all delays and honoured durations if and only if it reaches the scrape timeout or the context's, and the longest delay, which is 1 ms below 8 ms per source or 4 s |
| CollectTiming.ScrapeTimeoutKeptExactly | terraform/Provisioning_an_EKS_Cluster/metrics-server-0.3.6/pkg/sources/manager.go:113-117 | The comment's promise to preserve the overall timeout holds if and only if the scrape timeout is at least the longest stagger delay, min(8n, 4000) - 1 ms |
| CollectTiming.ScrapeTimeoutExceeded | terraform/Provisioning_an_EKS_Cluster/metrics-server-0.3.6/pkg/sources/manager.go:113-117 | Five hundred sources under a scrape timeout of 3 s and a context of 10 s break the promise, whatever they return |
| CollectTiming.TickFitsExactly | terraform/Provisioning_an_EKS_Cluster/metrics-server-0.3.6/cmd/metrics-server/app/start.go:197-199 | With a scrape timeout of 90% of the resolution, a collection is sure to be over when the next tick is due if and only if the resolution is at least min(8n, 4000) - 1 ms |
| TickTiming.OnTime | terraform/Provisioning_an_EKS_Cluster/metrics-server-0.3.6/pkg/manager/manager.go:81-96 | With a resolution of at least the longest stagger delay every tick begins with its signal, one resolution after the previous one, and ends within 90% of the resolution or within the delay bound |
| TickTiming.Lagging | terraform/Provisioning_an_EKS_Cluster/metrics-server-0.3.6/pkg/manager/manager.go:81-96 | With a shorter one there are runs in which every tick is late by one lag more than the tick before, until a signal is dropped |
| TickTiming.NeverStaleExactly | terraform/Provisioning_an_EKS_Cluster/metrics-server-0.3.6/pkg/manager/manager.go:81-164 | From the ticker to the health check: over all delays, durations, interleavings and histories, no check made between two ticks answers that the last tick is too old if and only if the resolution is at least min(8n, 4000) - 1 ms |
| SinkProvider.SinkMetricsProvider.Receive | terraform/Provisioning_an_EKS_Cluster/metrics-server-0.3.6/pkg/provider/sink/sinkprov.go:121-148 | After Receive both maps are the first-match indexes of the received batch, whatever was known before |
| SinkProvider.SinkMetricsProvider.GetNodeMetrics | terraform/Provisioning_an_EKS_Cluster/metrics-server-0.3.6/pkg/provider/sink/sinkprov.go:54-78 | Position i holds usage and time of the first node point named i-th in the installed batch, and nil with no time exactly when there is none |
| SinkProvider.SinkMetricsProvider.GetContainerMetrics | terraform/Provisioning_an_EKS_Cluster/metrics-server-0.3.6/pkg/provider/sink/sinkprov.go:80-119 | Position i describes the containers of the first pod point with that name in the installed batch, stamped with the earliest container time; nil exactly when there is none |
| SinkProvider.DescribeContainers | terraform/Provisioning_an_EKS_Cluster/metrics-server-0.3.6/pkg/provider/sink/sinkprov.go:93-111 | The loop yields every container's name and usage in order and the minimum of their timestamps, the zero time for none |
| SinkProvider.FirstMatchMeaning | terraform/Provisioning_an_EKS_Cluster/metrics-server-0.3.6/pkg/provider/sink/sinkprov.go:121-139 | The lookup result is an element with that key preceded by none with the key, and none exactly when no element has it |
| SinkProvider.DescriptionUnique | terraform/Provisioning_an_EKS_Cluster/metrics-server-0.3.6/pkg/provider/sink/sinkprov.go:93-116 | Time and container list of an answer are determined by the stored containers |
| SinkRuns.StepKeepsInv | terraform/Provisioning_an_EKS_Cluster/metrics-server-0.3.6/pkg/provider/sink/sinkprov.go:121-147 | With any number of concurrent Receive and Get calls, each step keeps: one writer, no reader beside it, and maps that index the last installed batch except between a writer's two field writes |
| SinkRuns.ReadsComeFromOneBatch | terraform/Provisioning_an_EKS_Cluster/metrics-server-0.3.6/pkg/provider/sink/sinkprov.go:54-148 | In every run a finished read, of nodes or pods, has answered all positions from one single installed batch: with its first point of that name, and with nothing exactly if there is none |
| SinkRuns.LockExactly | terraform/Provisioning_an_EKS_Cluster/metrics-server-0.3.6/pkg/provider/sink/sinkprov.go:54-145 | A reader waits for a writer in its critical section only, so reads may overlap; a writer waits for every holder of the lock |
| SinkRuns.NewestUntilReleased | terraform/Provisioning_an_EKS_Cluster/metrics-server-0.3.6/pkg/provider/sink/sinkprov.go:55-56 | The batch a reader sees is the most recently installed one until it releases the lock |
| SinkRuns.ReadsAreFresh | terraform/Provisioning_an_EKS_Cluster/metrics-server-0.3.6/pkg/provider/sink/sinkprov.go:141-145 | A read that starts after a batch was installed sees that batch or a newer one |
| SinkRuns.SameAsSequential | terraform/Provisioning_an_EKS_Cluster/metrics-server-0.3.6/pkg/provider/sink/sinkprov.go:121-147 | Between the calls' critical sections the concurrently used sink holds the very maps a provider object holds after one Receive of the last installed batch |
| SinkRuns.NoDeadlock | terraform/Provisioning_an_EKS_Cluster/metrics-server-0.3.6/pkg/provider/sink/sinkprov.go:54-145 | While some call is unfinished, some call can take its next step |
| Confluence.StoresInOrder | terraform/Provisioning_an_EKS_Cluster/metrics-server-0.3.6/pkg/sources/manager.go:132-146 | The maps stored after a collection are those of some arrival order of the batches, and every order occurs |
| Confluence.FirstArrival | terraform/Provisioning_an_EKS_Cluster/metrics-server-0.3.6/pkg/provider/sink/sinkprov.go:121-139 | A key is answered by the first batch in arrival order that has it |
| Confluence.ConfluentExactly | terraform/Provisioning_an_EKS_Cluster/metrics-server-0.3.6/pkg/provider/sink/sinkprov.go:121-148 | What is stored is the same for every interleaving if and only if no two sources report different first points for one key |
| Confluence.ContractGivesConfluence | terraform/Provisioning_an_EKS_Cluster/metrics-server-0.3.6/pkg/sources/interfaces.go:59-61 | Sources that meet the uniqueness contract make the stored maps independent of the interleaving |
| SummarySource.GetScrapeTime | terraform/Provisioning_an_EKS_Cluster/metrics-server-0.3.6/pkg/sources/summary/summary.go:215-233 | The result is the minimum of the non-zero CPU and memory times, and an error exactly when neither is there and non-zero |
| SummarySource.QuantityPrecision | terraform/Provisioning_an_EKS_Cluster/metrics-server-0.3.6/pkg/sources/summary/summary.go:235-249 | Up to 2^63 - 1 the value is kept, beyond it the last decimal digit is dropped; it is exact if and only if it fits an int64 or ends in a zero digit |
| SummarySource.ReadingsDecoded | terraform/Provisioning_an_EKS_Cluster/metrics-server-0.3.6/pkg/sources/summary/summary.go:195-213 | A reading decodes exactly when it is present; CPU stands for nanocores in decimal format, memory for bytes in binary format |
| SummarySource.NodePointMeans | terraform/Provisioning_an_EKS_Cluster/metrics-server-0.3.6/pkg/sources/summary/summary.go:138-158 | A node point carries the node's name, the earlier sample time, the CPU reading as CPU usage and the memory reading as memory usage, zero for a missing one; without a time everything is empty and zero |
| SummarySource.ContainerPointMeans | terraform/Provisioning_an_EKS_Cluster/metrics-server-0.3.6/pkg/sources/summary/summary.go:170-189 | The same for a container |
| SummarySource.MetricErrorsExactly | terraform/Provisioning_an_EKS_Cluster/metrics-server-0.3.6/pkg/sources/summary/summary.go:138-189 | Exactly the missing time, or else exactly the missing readings, are reported, each once and CPU first |
| SummarySource.SourceErrorExactly | terraform/Provisioning_an_EKS_Cluster/metrics-server-0.3.6/pkg/sources/summary/summary.go:91-136 | A source returns the failed fetch, or one aggregate of everything missing for the node or any container, and nil exactly if nothing is missing |
| SummarySource.SummaryMetricsSource.DecodeNodeStats | terraform/Provisioning_an_EKS_Cluster/metrics-server-0.3.6/pkg/sources/summary/summary.go:138-158 | Without a timestamp writes nothing and reports one error; otherwise overwrites the whole target, a missing reading counting zero, with one error for each missing reading |
| SummarySource.SummaryMetricsSource.DecodeContainer | terraform/Provisioning_an_EKS_Cluster/metrics-server-0.3.6/pkg/sources/summary/summary.go:170-189 | No point exactly without a timestamp; otherwise the point with name, time and readings, zero for a missing one, and the errors of exactly the missing ones |
| SummarySource.SummaryMetricsSource.DecodePodStats | terraform/Provisioning_an_EKS_Cluster/metrics-server-0.3.6/pkg/sources/summary/summary.go:160-193 | Whatever the target slot held, it then holds the pod's name and one point per container, blank where there is no timestamp; no other slot changes, and the errors are those of its containers in order |
| SummarySource.NoPodErrors | terraform/Provisioning_an_EKS_Cluster/metrics-server-0.3.6/pkg/sources/summary/summary.go:168-192 | A pod reports no error if and only if every container has a timestamp, CPU and memory |
| SummarySource.SummaryMetricsSource.CollectPods | terraform/Provisioning_an_EKS_Cluster/metrics-server-0.3.6/pkg/sources/summary/summary.go:118-133 | Reusing slots after failed pods, the returned prefix is exactly the decodings of the pods that decode, in order; nothing of a failed pod survives |
| SummarySource.DecodedPodsMeaning | terraform/Provisioning_an_EKS_Cluster/metrics-server-0.3.6/pkg/sources/summary/summary.go:118-133 | Those decodings correspond, by a strictly increasing index list, to exactly the pods all of whose containers decode |
| SummarySource.SummaryMetricsSource.Collect | terraform/Provisioning_an_EKS_Cluster/metrics-server-0.3.6/pkg/sources/summary/summary.go:91-136 | Nil and an error on a failed fetch; otherwise one node point, the decodable pods, and all decoding errors aggregated |
| SummarySource.BadNodeIsReported | terraform/Provisioning_an_EKS_Cluster/metrics-server-0.3.6/pkg/sources/summary/summary.go:112-116 | Against the comment, a node without readings is still reported, with an empty name and zero usage |
| SummarySource.NodeDiscardedExactly | terraform/Provisioning_an_EKS_Cluster/metrics-server-0.3.6/pkg/sources/summary/summary.go:112-116 | The comment's rule that a node point with errors is discarded holds exactly for nodes all of whose readings are present |
| Buckets.Append | terraform/Provisioning_an_EKS_Cluster/metrics-server-0.3.6/pkg/metrics/util.go:30 | Go's append: the old elements followed by the new ones, in place when the capacity suffices, else in a new array |
| Buckets.Splice | terraform/Provisioning_an_EKS_Cluster/metrics-server-0.3.6/pkg/metrics/util.go:51-54 | Overwriting the backing array loses nothing: the result is the head, the timeout and the saved tail |
| Buckets.FirstAbove | terraform/Provisioning_an_EKS_Cluster/metrics-server-0.3.6/pkg/metrics/util.go:38-44 | The search loop stops at the first bucket above the timeout |
| Buckets.BucketsForScrapeDuration | terraform/Provisioning_an_EKS_Cluster/metrics-server-0.3.6/pkg/metrics/util.go:25-58 | For any increasing positive base and any timeout t: above the maximum m exactly (m + t) / 2, t, 1.5 t and 2 t are added behind the base; otherwise t is inserted in order exactly if no base bucket is less than the first one away, and nothing else is; the result increases |
| PodStorage.Delete | terraform/Provisioning_an_EKS_Cluster/metrics-server-0.3.6/pkg/storage/podmetrics/reststorage.go:95 | Shifting within one array removes just the element at i |
| PodStorage.FilterInPlace | terraform/Provisioning_an_EKS_Cluster/metrics-server-0.3.6/pkg/storage/podmetrics/reststorage.go:91-98 | The descending in-place deletion leaves exactly the matching pods in order |
| PodStorage.MatchingMeaning | terraform/Provisioning_an_EKS_Cluster/metrics-server-0.3.6/pkg/storage/podmetrics/reststorage.go:91-98 | Those are the pods at a strictly increasing index list of exactly the matching ones |
| PodStorage.MetricStorage.GetPodMetrics | terraform/Provisioning_an_EKS_Cluster/metrics-server-0.3.6/pkg/storage/podmetrics/reststorage.go:139-176 | Joins the pods with the positional answers: one item per running pod known to the sink, in order |
| PodStorage.MetricStorage.List | terraform/Provisioning_an_EKS_Cluster/metrics-server-0.3.6/pkg/storage/podmetrics/reststorage.go:76-108 | A lister error fails; otherwise the items are the join over the pods the field selector matches |
| PodStorage.MetricStorage.Get | terraform/Provisioning_an_EKS_Cluster/metrics-server-0.3.6/pkg/storage/podmetrics/reststorage.go:111-137 | Found exactly for a pod that runs and has metrics, with that pod's own data |
| PodStorage.JoinedUnique | terraform/Provisioning_an_EKS_Cluster/metrics-server-0.3.6/pkg/storage/podmetrics/reststorage.go:152-175 | The stored batch and the pods determine the items completely |
| PodStorage.JoinedMeaning | terraform/Provisioning_an_EKS_Cluster/metrics-server-0.3.6/pkg/storage/podmetrics/reststorage.go:152-175 | The items are those of the servable pods, by a strictly increasing index list of exactly these: one for each and in the order of the pods |
| PodStorage.ListedExactly | terraform/Provisioning_an_EKS_Cluster/metrics-server-0.3.6/pkg/storage/podmetrics/reststorage.go:154-174 | Every item is that of a listed running pod with metrics, and every such pod has an item |
| PodStorage.GetAgreesWithList | terraform/Provisioning_an_EKS_Cluster/metrics-server-0.3.6/pkg/storage/podmetrics/reststorage.go:110-176 | The item Get finds for a listed pod is in the list |
| Manager.Manager.Collect | terraform/Provisioning_an_EKS_Cluster/metrics-server-0.3.6/pkg/manager/manager.go:98-140 | One tick over any interleaving: the sink then holds exactly the collected data, and the tick is recorded good unless an error came with no node at all |
| Manager.Manager.RunUntil | terraform/Provisioning_an_EKS_Cluster/metrics-server-0.3.6/pkg/manager/manager.go:81-96 | The first collection and one per tick, strictly one after the other: the history records the start and result of each, and the sink holds what the last one collected |
| Manager.Manager.CheckHealth | terraform/Provisioning_an_EKS_Cluster/metrics-server-0.3.6/pkg/manager/manager.go:145-164 | At any moment, within a tick too, healthy if and only if the last completed tick was good and the last begun one started within 1.1 resolutions; too old if and only if that one started longer ago, and a bad tick exactly in the remaining case |
| Manager.EndDecides | terraform/Provisioning_an_EKS_Cluster/metrics-server-0.3.6/pkg/manager/manager.go:110-139 | Whatever happened before, a tick that has ended was good if and only if storing worked and it had no error or at least one node |
| Manager.OverdueExactly | terraform/Provisioning_an_EKS_Cluster/metrics-server-0.3.6/pkg/manager/manager.go:145-156 | The check on the time alone has the meaning of a last start more than 1.1 resolutions ago |
| Manager.HealthyExactly | terraform/Provisioning_an_EKS_Cluster/metrics-server-0.3.6/pkg/manager/manager.go:98-164 | The check on the two fields has that meaning over every history of ticks |
| Manager.AfterMeans | terraform/Provisioning_an_EKS_Cluster/metrics-server-0.3.6/pkg/manager/manager.go:99-101 | The two fields summarise the last start and the last completed tick of the whole history |
| Pipeline.EarliestSample | terraform/Provisioning_an_EKS_Cluster/metrics-server-0.3.6/pkg/sources/summary/summary.go:215-233 | Earliest per container and earliest per pod compose to the minimum of all non-zero CPU and memory times of the pod |
| Pipeline.CollectedPods | terraform/Provisioning_an_EKS_Cluster/metrics-server-0.3.6/pkg/sources/summary/summary.go:118-133 | After any interleaving the collected pods are exactly the decodings of the pods some kubelet measured completely |
| Pipeline.PodServed | terraform/Provisioning_an_EKS_Cluster/metrics-server-0.3.6/pkg/provider/sink/sinkprov.go:80-119 | From kubelet to provider over every interleaving: a pod is unknown exactly when it was not measured, and what is served is a measurement of it with its earliest sample time |
| Pipeline.UniquePodServed | terraform/Provisioning_an_EKS_Cluster/metrics-server-0.3.6/pkg/provider/sink/sinkprov.go:93-115 | A pod measured once is served from that measurement whatever the interleaving |
| Pipeline.ListEndToEnd | terraform/Provisioning_an_EKS_Cluster/metrics-server-0.3.6/pkg/storage/podmetrics/reststorage.go:139-176 | After a tick, List has exactly one item for each listed pod that runs and was measured, in order, with the pod's name and namespace and the data of such a measurement |
| Pipeline.GetEndToEnd | terraform/Provisioning_an_EKS_Cluster/metrics-server-0.3.6/pkg/storage/podmetrics/reststorage.go:111-137 | After a tick, Get can find a pod exactly when it runs and was measured, and the item carries such a measurement |
| Pipeline.NodeServed | terraform/Provisioning_an_EKS_Cluster/metrics-server-0.3.6/pkg/provider/sink/sinkprov.go:54-78 | From kubelet to provider over every interleaving: a node is unknown exactly when no summary stands for it; what is served are the CPU and memory readings of such a summary, zero where missing, its earlier sample time and a window of 30 s |
| Pipeline.TickErrorsExactly | terraform/Provisioning_an_EKS_Cluster/metrics-server-0.3.6/pkg/sources/manager.go:119-149 | Over every interleaving the errors of a tick are the listing error and one for each kubelet that could not be fetched or lacks a reading, naming the source and everything missing |
| Serving.StepKeepsTurn | terraform/Provisioning_an_EKS_Cluster/metrics-server-0.3.6/pkg/manager/manager.go:81-131 | While the manager stores one cycle after the other and reads interleave with every step of it, the installed batches are those of the first cycles in order |
| Serving.ListSeesOneCycle | terraform/Provisioning_an_EKS_Cluster/metrics-server-0.3.6/pkg/storage/podmetrics/reststorage.go:76-176 | Over every interleaving of ticks and List calls, the items of a List call are the measurements of one single cycle, which is no older than the last one stored before the call began; no items before the first |
| Serving.NoDeadlockInTurn | terraform/Provisioning_an_EKS_Cluster/metrics-server-0.3.6/pkg/provider/sink/sinkprov.go:54-145 | Neither the lock nor the order of the ticks leaves an unfinished call without some call that can step |
| Pipeline.NodeContractExactly | terraform/Provisioning_an_EKS_Cluster/metrics-server-0.3.6/pkg/sources/interfaces.go:59-61 | Summary sources of distinct nodes keep the uniqueness contract for nodes if and only if at most one node lacks a timestamp |
| Pipeline.NodesAlwaysAgree | terraform/Provisioning_an_EKS_Cluster/metrics-server-0.3.6/pkg/sources/summary/summary.go:138-149 | Even so, what is stored for nodes never depends on the interleaving |
| Pipeline.PipelineConfluentExactly | terraform/Provisioning_an_EKS_Cluster/metrics-server-0.3.6/pkg/provider/sink/sinkprov.go:121-148 | The stored index depends on the interleaving only through pods that two nodes report differently |
| Pipeline.TickGoodExactly | terraform/Provisioning_an_EKS_Cluster/metrics-server-0.3.6/pkg/manager/manager.go:110-131 | A tick over summary sources is good if and only if some summary came in, or there was nothing to fetch and no listing error |
| Pipeline.HealthAfterTick | terraform/Provisioning_an_EKS_Cluster/metrics-server-0.3.6/pkg/manager/manager.go:98-164 | Once a tick is stored, the health check succeeds if and only if that tick fetched something and began within 1.1 resolutions |
| GenerateParenthesis.Generator.Backtrack | Python/generateparenthesis.py:4-25 | Appends all completions of the stack to res and leaves the stack as it was |
| GenerateParenthesis.Generate | Python/generateparenthesis.py:1-28 | Returns the enumerated strings; none for a negative n |
| GenerateParenthesis.GeneratedExactly | Python/generateparenthesis.py:1-28 | A string is in the result for n if and only if it has length 2n and is balanced; a negative n gives none |
| GenerateParenthesis.GeneratedIncreasing | Python/generateparenthesis.py:9-25 | The strings come in strictly increasing lexicographic order, without duplicates |
| GenerateParenthesis.CompletionsExact | Python/generateparenthesis.py:4-25 | With a opens and b closes left, exactly the strings of that length that close the current depth without going below zero |
| GenerateParenthesis.CompletionsCount | Python/generateparenthesis.py:4-25 | With a opens and b closes left there are C(a+b,a) - C(a+b,a-1) completions |
| GenerateParenthesis.GeneratedCount | Python/generateparenthesis.py:1-28 | (n + 1) times the number of strings is C(2n,n): the Catalan numbers |
| StableSort.StableSortExactly | Python/insertion.py:1-15 | A sequence is sorted with equivalent items in their original order if and only if it is the specification's result, for every total preorder |
| StableSort.StableSortPermutes | Python/insertion.py:1-15 | A stable sort is a permutation of its input |
| MergeSort.Merge | Python/reverse_string.py:7-51 | Merges the two ranges in place and changes nothing outside them |
| MergeSort.MergeSort | Python/reverse_string.py:57-79 | Leaves the stable sort of arr[l..r] in place and changes nothing outside the range; changes nothing at all for any l not below r |
| MergeSort.RangeMeaning | Python/reverse_string.py:57-79 | What is left in a sorted range is a stable sort of what was there, and every position outside is as before |
| MergeSort.MergeOfSorts | Python/reverse_string.py:30-51 | Merging the stable sorts of two halves gives the stable sort of the whole |
| MergeSort.WholeArray | Python/reverse_string.py:57-79 | On a whole array the result is the stable sort, the same sequence insertionSort leaves, and a permutation |
| InsertionSort.InsertionSort | Python/insertion.py:1-15 | Leaves the stable sort in place; the inner loop runs exactly once per inversion of the input |
| InsertionSort.InsertItem | Python/insertion.py:6-15 | One round sorts one more item and shifts once for each greater item before it |
| InsertionSort.InversionsSnoc | Python/insertion.py:12-14 | An item adds as many inversions as there are greater items before it |
| Permutation.Permute | Python/permutation.py:1-21 | Returns new, distinct list objects with the specified contents and restores its argument, which every round rotates |
| Permutation.PermuteRound | Python/permutation.py:8-19 | Pops the head, permutes the rest, puts the head at every end and leaves the list rotated by one |
| Permutation.AppendToAll | Python/permutation.py:14-15 | Appends the item to every list |
| Permutation.CountExactly | Python/permutation.py:5-7 | k! lists are returned exactly for non-empty arguments; the empty list gives none |
| Permutation.PermsExactly | Python/permutation.py:1-21 | A list is returned if and only if it is a permutation of a non-empty argument |
| Permutation.OrderExactly | Python/permutation.py:8-19 | The order of the lists: the i-th block ends in the i-th item, and lists the permutations of the items behind it followed by those before it |
| Permutation.DistinctExactly | Python/permutation.py:1-21 | Every permutation appears only once if and only if the items are distinct |
| CountPrimes.CountPrimes | Python/count_primes.py:1-14 | Returns the number of primes below n, for every n |
| CountPrimes.Strike | Python/count_primes.py:6-7 | Marks exactly the multiples of i from its square on |
| CountPrimes.SieveRound | Python/count_primes.py:4-8 | Skipping a marked factor misses nothing: the marked numbers are those with a divisor up to i whose square does not exceed them |
| CountPrimes.SieveExact | Python/count_primes.py:4-8 | Below the square of the bound, the unmarked numbers are exactly the primes |
| ReverseBits.AcceptsExactly | Python/reverse_bits.py:1-4 | Every non-negative number gives a result; a negative one is a parse error |
| ReverseBits.WidthExactly | Python/reverse_bits.py:2 | The format has 32 digits exactly for numbers below 2^32, and as many as the number needs beyond |
| ReverseBits.RoundTripExactly | Python/reverse_bits.py:1-4 | Reversing twice gives n back if and only if n is below 2^32 or odd |
| ReverseBits.BitsMirrored | Python/reverse_bits.py:1-4 | Bit i of the result is bit 31 - i of n below 2^32, and mirrors n's own digits beyond |

## Left out

- Log lines, Prometheus counters, print statements and the text of error messages: an error is a tagged value, and nil against non-nil and the wrapping of causes are kept.
- HTTP, JSON and TLS towards the kubelet, API server wiring, listers, label selectors and selector matching: their results are parameters (`fetched`, `listed`, `fieldSelector`).
- Goroutine panics inside a source's own Collect, and cancellation of a running collection other than through its deadlines.
- Real clocks: times are integers, in whole milliseconds for collections and ticks; a source that honours its deadline returns at it, channel operations take no time in `CollectTiming`, and the ticker is exact and storing takes no time in `TickTiming`.
- MergeSort.MergeSort: with two elements or more to sort, negative indices, which Python counts from the end of the list, and an end beyond the list, at which it raises, are outside the contract.
- The creation timestamp of listed items, which is the current time of the request.
- Floating point: buckets are exact reals, and the factors 0.9 and 1.1 are exact fractions; saturation of very long durations is not modelled.
- resource.Quantity beyond mantissa, scale and format; nothing is said about comparing quantities, whose order is not kept across the int64 boundary.
- GetMetricSources, NodeAddress and the node metrics storage: simpler forms of loops that are modelled.
- The waiting-writer preference of the read-write lock: `SinkRuns` allows every schedule in which writers exclude readers, which includes those of the real lock.
- Python lists of items are arrays where the program only overwrites elements; the growing lists of permute are objects, and the list that permute returns is a value holding list objects.
- Deployment files: Ansible, Terraform, Kubernetes YAML, Rego, Groovy and shell hold no algorithm.
