# Verified models of domiconexec

This project models the parts of domiconexec, a fork of go-ethereum, that carry an
algorithm or a protocol of their own, and proves what those parts promise. Everything is
Dafny 4.11; `dafny verify dfyconfig.toml` checks the whole project.

What is modelled, by area:

- **Event feed** (`event/feed.go`): `Send` on the shared backing array (`FeedSend`), the
  moves of one round (`FeedCases`), and Subscribe, Unsubscribe and Send as a state machine
  over all interleavings of their critical sections (`FeedProtocol`).
- **Type mux** (`event/event.go`): the copy-on-write subscriber lists (`TypeMuxLists`), the
  close handshake over all interleavings (`TypeMuxProtocol`), and whom a Post reaches
  (`TypeMuxPosts`).
- **Samples and quantiles** (`metrics/sample.go`, `metrics/runtimehistogram.go`): the array
  heap (`SampleHeap`), the exponentially decaying reservoir (`ExpDecay`), interpolated
  percentiles (`SamplePercentiles`) and batch quantiles (`RuntimeHistogram`). Floats are
  reals, with infinities where the source can reach them (`Floats`).
- **RLP** (package `rlp`): the encoding and what decoding accepts (`Rlp`), the types that can
  be decoded into (`RlpTypes`), the encoder buffer that keeps list headers apart from the
  data (`RlpEncBuffer`), and the stream decoder with its stack of limits (`RlpStream`).
- **Genesis allocation** (`core/mkalloc.go`, `core/genesis.go`, `common/types.go`): the list
  (`GenesisAlloc`) and the bytes (`AllocRlp`), on big-endian integers (`BigEndian`).
- **Printers and parsers**: log numbers with thousands separators (`LogFormat`, `Decimal`)
  and HD derivation paths (`HDPath`) with the numbers they may hold (`HDNumerals`).
- **Peer set** (`eth/peerset.go`): the rendezvous of `eth` and `snap` connections (`PeerSet`).
- **Bitcoin sync** (`eth/worker_service.go`, `eth/btcsortmap.go`): the resumable range scan
  (`BtcSync`) and the keyed cache with its in-place quicksort (`BtcSortCache`).
- **Log level filter** (`log/handler_glog.go`): the call-site cache (`GlogHandler`).
- **Wallet list** (`accounts/manager.go`, `accounts/url.go`): sorted insertion and removal
  (`Wallets`).
- **Intrinsic gas** (`core/state_transition.go`): the overflow guards (`IntrinsicGas`).

`Seqs`, `Sorting`, `Integers` and `Options` hold shared definitions. Integers are unbounded
in Dafny; where the width matters (int64, uint32, uint64) wrap-around and limits are written
out.
Clocks, random numbers, RPC results and SQL results are parameters. Concurrency is modelled
by state machines whose steps are the critical sections of the source.

Where the code and its own documentation differ, the code is modelled and the difference is
stated and proved:

- The peer set says that `snapPend` holds peers not yet registered with `eth`; the code lets
  a parked connection coexist with a registered peer of the same id
  (`PeerSet.ParkedAndRegistered`), in exactly the runs that `PeerSet.TrueExactlyWhen` names.
- The mux says that a subscription's channel is closed when it is unsubscribed or the mux is
  closed. One made without any type, while the mux was running, is closed by Unsubscribe only
  (`TypeMuxProtocol.UntypedSurvivesStop`); `TypeMuxProtocol.ClosedExactlyWhen` is the exact
  statement.
- Stop is said to block until all current deliveries have finished. It does not wait for one
  on a subscription that an Unsubscribe has taken out of the lists
  (`TypeMuxProtocol.DeliveryOutlivesStop`, `TypeMuxProtocol.DeliveringAfterStop`).
- `drop` is said to remove wallets from the list; when the wallet is absent it removes the
  next one instead (`Wallets.DropIsExact`, `Wallets.DropTakesNeighbour`).
- `Percentiles` clamps its arguments to [0, 1] and `Percentile` does not; the two agree
  exactly when `RuntimeHistogram.BatchAgreesExactly` says, and differ in
  `RuntimeHistogram.BatchDiffersAbove` and `RuntimeHistogram.BatchDiffersBelow`.
- `Percentile` is said to compute the p'th percentile value; from p = 1 on it returns the
  threshold itself, which at 1 is the number of samples (`RuntimeHistogram.QuantileOutside`).
- An empty derivation path prints as `m`, which the parser refuses (`HDPath.RoundTrip`).
- A value inside a list that does not fit it is said to give ErrElemTooLarge
  (`rlp/decode.go:604`). `Kind` compares its size with the limit from before the header was
  read, so a list can be opened, and delivered, that reaches past its parent
  (`RlpStream.DecodeOverrun`). `RlpStream.Stream.Decode` states exactly when, and that the
  parent's limit is then out of reach (`RlpStream.PastTheParent`), so that the whole input is
  refused all the same (`RlpStream.DecodeFront`).

## Model

| member | source | states |
|---|---|---|
| `FeedCases.Find` | event/feed.go:203-210 | The first entry for a channel, or -1 exactly when there is none. |
| `FeedCases.MovePreserves` | event/feed.go:144-172 | Every successful send or removal keeps the bookkeeping of the round: slot 0 is `removeSub`, `cases` is a prefix, active, delivered and dropped entries make up the start, and entries behind the prefix are the delivered ones not removed since. `len(sendCases)+len(cases)` falls. |
| `FeedCases.PlayPreserves` | event/feed.go:144-172 | The same for every sequence of moves, whose length is bounded by the two list lengths. |
| `FeedCases.ActiveIsLoaded` | event/feed.go:137-139 | An entry that is still active carries the value being sent. |
| `FeedCases.FinishedOnce` | event/feed.go:156-158 | When only `removeSub` is active, each entry of the start was delivered once or dropped once, never both, and the list left holds exactly the delivered entries not removed. |
| `FeedCases.ExactlyOnce` | event/feed.go:120-180 | That, for every order of sends and removals from the beginning of a round. |
| `FeedSend.Network.Select` | event/feed.go:160 | What a blocking select may do: one active case takes its parked value, or a channel with an entry arrives on `removeSub`; either is logged. |
| `FeedSend.Feed.constructor` | event/feed.go:60-66 | A new feed lists only `removeSub`. |
| `FeedSend.Feed.Subscribe` | event/feed.go:86-92 | A subscription goes to the end of the inbox and nowhere else. |
| `FeedSend.Feed.FindCase` | event/feed.go:203-210 | The loop returns the first entry of the channel. |
| `FeedSend.Feed.DeleteCase` | event/feed.go:213-215 | Shifting in place removes the entry and keeps the order of the others. |
| `FeedSend.Feed.Deactivate` | event/feed.go:218-222 | The entry moves behind the shortened prefix by one swap in the shared array. |
| `FeedSend.Feed.TakeInbox` | event/feed.go:131-134 | The inbox is appended to the list, also when the array must grow, and is left empty. |
| `FeedSend.Feed.ParkValue` | event/feed.go:137-139 | Every entry but slot 0 carries the value, and nothing else changes. |
| `FeedSend.Feed.TrySendAll` | event/feed.go:149-155 | The fast path keeps the bookkeeping, removes nothing, and the channels have logged exactly the deliveries it counts. |
| `FeedSend.Feed.SelectOne` | event/feed.go:160-171 | One select step keeps the bookkeeping, shrinks the lists and agrees with the log of the channels. |
| `FeedSend.Feed.RemoveOne` | event/feed.go:161-167 | A received channel loses its first entry, and the prefix shrinks exactly when that entry was active. |
| `FeedSend.Feed.DeliverAll` | event/feed.go:144-172 | The loop ends with only `removeSub` active, and `nsent` is the number of deliveries. |
| `FeedSend.Feed.Send` | event/feed.go:120-180 | From the list and inbox on entry: the round is complete, the channels were handed the value exactly as recorded, removals happened only for channels received, `nsent` counts deliveries, and the list left carries no value. |
| `FeedProtocol.PassInboxBalanced` | event/feed.go:99-106 | A remover that finds nothing in the inbox leaves enough entries in `sendCases` for all removers of its channel. |
| `FeedProtocol.WaitingHasEntry` | event/feed.go:108-115 | In a balanced state a remover past the inbox has an entry in `sendCases`. |
| `FeedProtocol.RemoveBalanced` | event/feed.go:111-114 | Removing one entry of a channel for one remover keeps the balance, also when the channel is subscribed several times. |
| `FeedProtocol.StepPreserves` | event/feed.go:73-180 | Every step of every goroutine keeps the invariant. |
| `FeedProtocol.RunPreserves` | event/feed.go:73-180 | So does every interleaving of any length. |
| `FeedProtocol.FeedIsBalanced` | event/feed.go:73-116 | In every reachable state the entries of a channel in `inbox` and `sendCases` together equal its subscriptions not yet removed, and nothing has panicked. |
| `FeedProtocol.RemovalAlwaysFound` | event/feed.go:161-167 | In every reachable state `find` succeeds for a remover past the inbox, and not at slot 0. |
| `FeedProtocol.RemovalNeverStuck` | event/feed.go:108-115 | In every reachable state a waiting remover, or the holder of the lock it waits for, can take a step. |
| `FeedProtocol.EverySendExactlyOnce` | event/feed.go:120-180 | In every run each finished Send gave its value exactly once to each subscription it began with, or not at all if that was removed before its turn. |
| `FeedProtocol.RemovedOnlyWhenAsked` | event/feed.go:161-167 | In every run all Sends together have taken out no more entries of a channel than subscriptions on it have ended. |
| `FeedProtocol.NobodyLosesUnasked` | event/feed.go:120-180 | In every run a subscription on a channel nobody has unsubscribed gets the value of every finished Send it was listed for, exactly once. |
| `FeedProtocol.SubsOfRun` | event/feed.go:73-116 | In every run the subscriptions are those made by Subscribe, on the channel given there, and one is live until its Unsubscribe begins. |
| `FeedProtocol.SubscribedIsHeld` | event/feed.go:73-93 | Whoever subscribed and never began to unsubscribe is in the feed. |
| `FeedProtocol.SendTakesAll` | event/feed.go:131-135 | The Send that takes over the inbox begins with as many entries of each channel as there are subscriptions on it in the feed, those made since the last Send included. |
| `FeedProtocol.SendReachesAll` | event/feed.go:120-180 | From that step to the end of the Send, the value is delivered on each channel as often as it had subscriptions then, less the entries removed before their turn. |
| `TypeMuxLists.WithoutOnce` | event/event.go:140-145 | On a list without repeats, cutting out one position is the same as leaving the subscription out. |
| `TypeMuxLists.RemovedSpec` | event/event.go:117-129 | After `del` the subscription is in no list, the others keep their lists and order, and no list is empty. |
| `TypeMuxLists.AddedSpec` | event/event.go:66-76 | Subscribe appends to the lists of the named types and changes no other; no list gets a repeat. |
| `TypeMuxLists.AddedExactly` | event/event.go:66-76 | A new subscription ends exactly the lists of the types up to the first repeated one, and of all named types if none repeats; every other list is as before. |
| `TypeMuxLists.AddedListed` | event/event.go:66-76 | A subscription with at least one type is listed afterwards, and the others are listed as before. |
| `TypeMuxLists.AddedKeeps` | event/event.go:69-71 | A list that has the subscription already is left as it is, whatever types follow. |
| `TypeMuxLists.Find` | event/event.go:131-138 | The found index holds the item; -1 only when it is absent. |
| `TypeMuxLists.PosDelete` | event/event.go:140-145 | A fresh array holds the list without that position. |
| `TypeMuxLists.Append` | event/event.go:72-74 | A fresh array holds the old list and the new subscription. |
| `TypeMuxLists.TypeMux.constructor` | event/event.go:41-45 | A new mux has no lists and is not stopped. |
| `TypeMuxLists.TypeMux.Subscribe` | event/event.go:53-79 | On a stopped mux a closed subscription; otherwise the lists grow, with a panic exactly when a type repeats. No list handed out earlier changes. |
| `TypeMuxLists.TypeMux.RegisterAll` | event/event.go:66-76 | The loop registers up to the first repeated type and reports it. |
| `TypeMuxLists.TypeMux.Del` | event/event.go:117-129 | The loop over the map removes the subscription everywhere, and no list handed out earlier changes. |
| `TypeMuxProtocol.StepKeeps` | event/event.go:53-217 | Every step of Subscribe, Post, Unsubscribe, Stop, `deliver` with its stale check, and `closewait` keeps the invariant of locks, channels and lists. |
| `TypeMuxProtocol.RunKeeps` | event/event.go:53-217 | So does every interleaving. |
| `TypeMuxProtocol.NoSendOnClosed` | event/event.go:189-217 | No interleaving sends on a closed `postC` or closes a channel twice. |
| `TypeMuxProtocol.ReadersCanLeave` | event/event.go:189-217 | In every reachable state `closewait` waits only for deliveries that can leave by the closing channel. |
| `TypeMuxProtocol.StopClosesAll` | event/event.go:102-115 | After Stop every subscription made with a type is closed or being closed. |
| `TypeMuxProtocol.UntypedEndsExactly` | event/event.go:102-115 | In every run a subscription made without a type is closed or being closed if and only if it was unsubscribed or handed out closed. |
| `TypeMuxProtocol.ClosedExactlyWhen` | event/event.go:50-52 | In every run that ends with the mux stopped, a subscription's channel is closed or being closed if and only if it was made with a type, was unsubscribed, or was handed out closed. |
| `TypeMuxProtocol.StopSkipsUntyped` | event/event.go:102-115 | A subscription made without a type and never unsubscribed keeps the channel it was handed out with: open, or closed because the mux was stopped already. |
| `TypeMuxProtocol.UntypedSurvivesStop` | event/event.go:102-115 | A run after which the mux is stopped and such a channel is open. |
| `TypeMuxProtocol.DeliveringAfterStop` | event/event.go:104 | In every run a delivery still going on after Stop can send exactly when its channel is open, and then an Unsubscribe is closing that channel. |
| `TypeMuxProtocol.DeliveryOutlivesStop` | event/event.go:104 | A run in which Stop has returned and an event can still be sent. |
| `TypeMuxPosts.ListedExactly` | event/event.go:53-129 | In every run the list of a type holds the subscriptions made for it and not unsubscribed, in the order in which they were made, and nobody once a Stop has returned. |
| `TypeMuxPosts.MadeBySubscribe` | event/event.go:53-65 | In every run a subscription is known exactly from its Subscribe on, with the time and types given there. |
| `TypeMuxPosts.StoppedExactly` | event/event.go:105-115 | In every run the mux is stopped exactly when some Stop has returned. |
| `TypeMuxPosts.PostStep` | event/event.go:96-98 | Each step of a Post meets the next subscription of its list or moves towards it, whatever the others do. |
| `TypeMuxPosts.PostMeetsEach` | event/event.go:81-100 | In every run a Post that returns has met each subscription registered for the type when it began, exactly once and in order: by a send on the open channel, by leaving through the closing channel, or, if the subscription is newer than the event, by the stale check. |
| `TypeMuxPosts.PostAfterStop` | event/event.go:90-93 | A Post after Stop changes nothing. |
| `SampleHeap.Parent` | metrics/sample.go:421 | The parent under truncating division: smaller than the child, and equal only at the root. |
| `SampleHeap.ChildIsLeast` | metrics/sample.go:432-439 | The child chosen is a child and has the least key of the children. |
| `SampleHeap.UpIsHeap` | metrics/sample.go:419-428 | Sifting up repairs a heap that is wrong at one place, keeping the elements. |
| `SampleHeap.DownIsHeap` | metrics/sample.go:430-446 | Sifting down does so for the first n elements and leaves the rest alone. |
| `SampleHeap.RootIsLeast` | metrics/sample.go:383-387 | In a heap no key is below the root's. |
| `SampleHeap.PushIsHeap` | metrics/sample.go:393-398 | Push keeps the heap order and adds exactly the sample. |
| `SampleHeap.PopIsHeap` | metrics/sample.go:400-409 | Pop keeps the heap order and removes exactly the root. |
| `SampleHeap.Heap.constructor` | metrics/sample.go:379-381 | An empty heap with the capacity of the reservoir. |
| `SampleHeap.Heap.Clear` | metrics/sample.go:389-391 | Clear empties the heap and does not touch the array. |
| `SampleHeap.Heap.PushSample` | metrics/sample.go:393-398 | The array method is the specified push and writes no slot past the new length. |
| `SampleHeap.Heap.PopSample` | metrics/sample.go:400-409 | The array method is the specified pop and returns the root. |
| `SampleHeap.Heap.SiftUp` | metrics/sample.go:419-428 | The loop is the recursive sift-up and writes nothing past the length. |
| `SampleHeap.Heap.SiftDown` | metrics/sample.go:430-446 | The loop is the recursive sift-down and writes nothing past the length. |
| `ExpDecay.PushAllIsHeap` | metrics/sample.go:137-140 | Pushing rescaled samples one by one gives a heap of exactly the scaled multiset. |
| `ExpDecay.LandmarkMoves` | metrics/sample.go:128-138 | Multiplying by the decay factor turns a key for one landmark time into the key for another, infinite keys of zero draws included; the factor is positive. |
| `ExpDecay.BirthWeight` | metrics/sample.go:127-128 | Seen from its own arrival a sample weighs the reciprocal of its random number. |
| `ExpDecay.DecayUndoesGrowth` | metrics/sample.go:138 | The rescale factor over a time is the reciprocal of the growth of the weights over that time. |
| `ExpDecay.DecayBelowOne` | metrics/sample.go:138 | With alpha positive and an increasing exponential a later landmark makes every weight smaller. |
| `ExpDecay.LaterIsHeavier` | metrics/sample.go:127-128 | Then, of two samples with the same random number, the later one is strictly heavier at any landmark. |
| `ExpDecay.OrderIsAbsolute` | metrics/sample.go:128-138 | Which of two samples is lighter does not depend on the landmark. |
| `ExpDecay.RescaleMovesLandmark` | metrics/sample.go:131-141 | A rescale leaves a heap of the same samples whose keys are right for the new landmark. |
| `ExpDecay.MakeRoomKeeps` | metrics/sample.go:118-120 | Making room keeps the heap and conserves samples: what stays and what is evicted were there. |
| `ExpDecay.AdmitKeeps` | metrics/sample.go:118-130 | After admitting a sample the size is the smaller of the count and the reservoir, and samples are conserved. |
| `ExpDecay.UpdateKeeps` | metrics/sample.go:114-142 | Every update, rescaling or not, keeps the invariant and conserves samples. |
| `ExpDecay.EvictsLightest` | metrics/sample.go:118-120 | A full reservoir evicts a sample no heavier than any other, judged at any landmark. |
| `ExpDecay.RunKeepsTrace` | metrics/sample.go:73-142 | The invariant over every run of updates and clears. |
| `ExpDecay.ReservoirOfHeaviest` | metrics/sample.go:108-142 | After every run: heap order, size the smaller of updates since the clear and the reservoir, retained and evicted samples make up the updates, and what is kept is the newest and, of the earlier ones, those no lighter than any evicted, independent of when rescales happened. |
| `ExpDecay.ExpDecaySample.constructor` | metrics/sample.go:52-64 | A new sample is empty, with its landmark at the given time and the next rescale an hour later. |
| `ExpDecay.ExpDecaySample.Clear` | metrics/sample.go:73-80 | Clear restores that state. |
| `ExpDecay.ExpDecaySample.UpdateAt` | metrics/sample.go:114-142 | The count goes up by one; the landmark moves to the arrival exactly when that lies more than an hour behind it; every key is the weight at the new landmark; the new value comes in and at most the root goes out. |
| `ExpDecay.ExpDecaySample.Admit` | metrics/sample.go:118-130 | Pop when full, then push, on the array. |
| `ExpDecay.ExpDecaySample.Rescale` | metrics/sample.go:131-141 | The loop reads and writes one backing array and still pushes every old element, none of them overwritten before it is read. |
| `SamplePercentiles.CalculatePercentiles` | metrics/sample.go:162-183 | The values end up sorted and permuted, and each score is the specified one; zero for no values. |
| `SamplePercentiles.ScoreOf` | metrics/sample.go:170-180 | The three branches index within the array and give the specified score. |
| `SamplePercentiles.InterpolateMonotone` | metrics/sample.go:177-179 | Interpolation is non-decreasing, also across cells. |
| `SamplePercentiles.ScoreInRange` | metrics/sample.go:172-180 | Every score lies between the least and the greatest value. |
| `SamplePercentiles.ScoreMonotone` | metrics/sample.go:172-180 | Scores are non-decreasing in p across all three branches. |
| `SamplePercentiles.ScoreAtRank` | metrics/sample.go:170-180 | At p = k/(n+1) the score is the k-th value. |
| `SamplePercentiles.ScoreBetweenRanks` | metrics/sample.go:170-180 | Between k/(n+1) and (k+1)/(n+1) the score runs in a straight line from the k-th value to the next; below the first rank and above the last it stays. |
| `SamplePercentiles.ScoreOutside` | metrics/sample.go:172-175 | Below 0 it is the least value and from 1 on the greatest. |
| `SamplePercentiles.ScoreOfElements` | metrics/sample.go:168-180 | The score depends only on the multiset of values. |
| `RuntimeHistogram.ResolveSpec` | metrics/runtimehistogram.go:223-236 | A threshold resolves to the bucket where the running count first exceeds it; an unresolved one stays. |
| `RuntimeHistogram.ResolvedBelowTotal` | metrics/runtimehistogram.go:223-236 | A threshold is resolved exactly when it is below the total count. |
| `RuntimeHistogram.EdgesLength` | metrics/runtimehistogram.go:86-119 | Writing each lower edge as often as its bucket has samples gives as many edges as there are samples. |
| `RuntimeHistogram.QuantileInside` | metrics/runtimehistogram.go:194-199 | With n samples, each at the lower edge of its bucket, every p from k/n up to (k+1)/n gives sample k. |
| `RuntimeHistogram.QuantileOutside` | metrics/runtimehistogram.go:194-199 | Zero without samples; the first edge for a negative p; the threshold itself from 1 on. |
| `RuntimeHistogram.SingleIsQuantile` | metrics/runtimehistogram.go:194-199 | Both together, for every p. |
| `RuntimeHistogram.QuantileUnique` | metrics/runtimehistogram.go:194-199 | These conditions leave one value for every p. |
| `RuntimeHistogram.ComputePercentiles` | metrics/runtimehistogram.go:223-236 | On ascending thresholds one pass over the buckets replaces each threshold in place by what it resolves to alone. |
| `RuntimeHistogram.SwapBoth` | metrics/runtimehistogram.go:280-283 | Swapping both slices swaps the pairs. |
| `RuntimeHistogram.SortPairs` | metrics/runtimehistogram.go:267-301 | Values and indexes are sorted together as pairs, keeping the pairs. |
| `RuntimeHistogram.AfterFirstSort` | metrics/runtimehistogram.go:213-214 | After the first sort the indexes are a permutation that says where each threshold came from. |
| `RuntimeHistogram.AfterSecondSort` | metrics/runtimehistogram.go:219 | Sorting by index puts every result back at the place of its argument. |
| `RuntimeHistogram.Snapshot.Calc` | metrics/runtimehistogram.go:86-119 | The cached count is the sum of the bucket counts. |
| `RuntimeHistogram.Snapshot.Count` | metrics/runtimehistogram.go:122-127 | Count is that sum, computed once. |
| `RuntimeHistogram.Snapshot.Percentile` | metrics/runtimehistogram.go:194-199 | The p-quantile of the samples, each at the lower edge of its bucket; p is not clamped. |
| `RuntimeHistogram.Snapshot.Percentiles` | metrics/runtimehistogram.go:202-221 | Entry i is the quantile for the i-th argument, for 0 if that is negative and for 1 if it is above 1, for arguments in any order and with repeats. |
| `RuntimeHistogram.ZeroResolves` | metrics/runtimehistogram.go:223-236 | Threshold zero resolves to the first non-empty bucket. |
| `RuntimeHistogram.NegativeResolves` | metrics/runtimehistogram.go:223-236 | A negative threshold resolves to the first bucket. |
| `RuntimeHistogram.BatchAgreesExactly` | metrics/runtimehistogram.go:194-221 | Batch and single agree for every p in [0, 1], and outside of it if and only if a stated condition on the histogram holds. |
| `RuntimeHistogram.BatchDiffersAbove` | metrics/runtimehistogram.go:202-211 | A histogram on which the two differ for p = 2. |
| `RuntimeHistogram.BatchDiffersBelow` | metrics/runtimehistogram.go:202-211 | A histogram on which the two differ for p = -1. |
| `Rlp.HeadIsRead` | rlp/encode.go:126-134 | The decoder reads back every string and list header the encoder writes. |
| `Rlp.Shortest` | rlp/decode.go:1098-1122 | Bytes without a leading zero are the shortest form of their integer. |
| `Rlp.HeadIsCanonical` | rlp/decode.go:1038-1096 | Every header the decoder accepts is the one the encoder would write for that size. |
| `Rlp.DecodeOfEncode` | rlp/encode.go:302-340 | Decoding the encoding of any value, with anything behind it, gives the value and leaves the rest. |
| `Rlp.DecodeIsCanonical` | rlp/decode.go:1038-1122 | Whatever decodes is the encoding of its value: no second encoding is accepted. |
| `Rlp.DecodesExactly` | rlp/decode.go:517-539 | The two together, as an if-and-only-if over all inputs and values. |
| `Rlp.PrefixFree` | rlp/encode.go:302-340 | No encoding is a proper prefix of another. |
| `RlpEncBuffer.RenderLength` | rlp/encbuffer.go:54-56 | The output has as many bytes as string data and headers together. |
| `RlpEncBuffer.RenderConcat` | rlp/encbuffer.go:65-79 | Output written in two stretches is the output of the one, then of the other. |
| `RlpEncBuffer.EndAdds` | rlp/encbuffer.go:194-207 | Between `list` and `listEnd` the counters yield the exact length of the content, and closing puts that header before it. |
| `RlpEncBuffer.UintEncoding` | rlp/encbuffer.go:121-132 | The three cases for integers are the string encoding of the shortest bytes. |
| `RlpEncBuffer.EncBuffer.constructor` | rlp/encbuffer.go:41-51 | A buffer after reset is empty. |
| `RlpEncBuffer.EncBuffer.EncodeStringHeader` | rlp/encbuffer.go:218-226 | Adds the string header of that size to the output. |
| `RlpEncBuffer.EncBuffer.WriteBytes` | rlp/encbuffer.go:134-142 | Adds the encoding of the byte string to the output. |
| `RlpEncBuffer.EncBuffer.WriteUint64` | rlp/encbuffer.go:121-132 | Adds the encoding of the integer. |
| `RlpEncBuffer.EncBuffer.WriteBigInt` | rlp/encbuffer.go:152-173 | Adds the encoding of the integer, of any length. |
| `RlpEncBuffer.FillBytes` | rlp/encbuffer.go:162-172 | Filling from the last byte back gives the shortest big-endian form. |
| `RlpEncBuffer.EncBuffer.BeginList` | rlp/encbuffer.go:194-197 | A head is recorded at the current place with the header bytes counted so far. |
| `RlpEncBuffer.EncBuffer.EndList` | rlp/encbuffer.go:199-207 | The head gets its size and its own bytes are counted. |
| `RlpEncBuffer.EncBuffer.Write` | rlp/encode.go:302-340 | For every nested value the buffer's output grows by exactly its recursive encoding. |
| `RlpEncBuffer.EncBuffer.WriteElements` | rlp/encode.go:330-334 | The loop adds the encodings of the elements in order. |
| `RlpEncBuffer.EncBuffer.CopyTo` | rlp/encbuffer.go:65-79 | The copy loop fills the destination exactly with data and headers in their places. |
| `RlpEncBuffer.EncBuffer.MakeBytes` | rlp/encbuffer.go:59-63 | The size known from the counters is the size of the output. |
| `RlpEncBuffer.EncodeToBytes` | rlp/encode.go:77-85 | The result is the recursive encoding. |
| `RlpStream.AvailAfter` | rlp/decode.go:1160-1176 | Reading n bytes against the limits leaves what is behind the first n available bytes. |
| `RlpStream.ReachesPastIsPassed` | rlp/decode.go:1011-1036 | A list in the input that exceeds its parent by no more than the width of its header passes Kind; this is decided by bytes and limits alone. |
| `RlpStream.FitsOrReachesPast` | rlp/decode.go:1011-1036 | A list that passes Kind fits the available bytes, or exceeds its parent in that way. |
| `RlpStream.OverrunExists` | rlp/decode.go:604 | A state of the stream in which Kind accepts a list that does not fit its parent and the list is deliverable. |
| `RlpStream.DecodeOverrun` | rlp/decode.go:604 | An input of three bytes, opened and decoded, that delivers such a list. |
| `RlpStream.PastTheParent` | rlp/decode.go:796-815 | Opening such a list wraps the parent's limit to one larger than all remaining input. |
| `RlpStream.ListAfter` | rlp/decode.go:297-310 | A decoded list is what the available bytes hold if and only if it does not reach past its parent; otherwise they hold no value and the parent's limit is out of reach. |
| `RlpStream.TypedListAfter` | rlp/decode.go:404-436 | The same for a list of a type, with the exact state it leaves behind. |
| `RlpStream.ElementRead` | rlp/decode.go:312-339 | Each element read brings the loop one step further in the decoding of the list's bytes, or shows that they are no list of the type. |
| `RlpStream.ElementRefused` | rlp/decode.go:412-434 | A next element that is missing, of another type, or behind the last field of a struct means that there is no such list. |
| `RlpStream.Stream.constructor` | rlp/decode.go:616-620 | A new stream has all its input ahead and no open list. |
| `RlpStream.Stream.WillRead` | rlp/decode.go:1160-1176 | A read is allowed exactly when it stays within list and input, and is charged to the innermost list. |
| `RlpStream.Stream.ReadFull` | rlp/decode.go:1125-1144 | The next n available bytes, or an error when there are fewer. |
| `RlpStream.Stream.ReadUint` | rlp/decode.go:1098-1122 | The integer of the next n bytes, refused when it has a leading zero. |
| `RlpStream.Stream.ReadHeader` | rlp/decode.go:1038-1096 | The header at the front of the available bytes, which are consumed up to its end. |
| `RlpStream.Stream.Kind` | rlp/decode.go:1011-1036 | The cached header, the end of the list, or the next header checked against the limits as they were before it. |
| `RlpStream.Stream.OpenList` | rlp/decode.go:796-815 | Whether or not Kind was called before: a list ahead is opened, its limit pushed and its size deducted from the enclosing one modulo 2^64; anything else is an error. |
| `RlpStream.Stream.ListEnd` | rlp/decode.go:819-830 | The list closes exactly when its limit is used up. |
| `RlpStream.Stream.ReadString` | rlp/decode.go:635-656 | Whether or not Kind was called before: the announced content, refused when it is too long or a single byte that needs no header. |
| `RlpStream.Stream.DecodeString` | rlp/decode.go:848-889 | A string ahead is delivered exactly when the available bytes decode to one that the type accepts. |
| `RlpStream.Stream.DecodeList` | rlp/decode.go:297-310 | A list ahead is delivered exactly when the available bytes decode to one of the type, or it reaches past its parent and its own bytes do. |
| `RlpStream.Stream.DecodeElems` | rlp/decode.go:312-339 | The list just opened is decoded exactly when its bytes are a sequence of values of the element type, and then it is used up. |
| `RlpStream.Stream.DecodeFields` | rlp/decode.go:412-434 | The field loop with its optional fields, followed by a list that is at its end, succeeds exactly when the bytes are a list of the struct's fields. |
| `RlpStream.Stream.Decode` | rlp/decode.go:517-539 | For every type, with a stack of limits in place of slices: a value is delivered if and only if the available bytes begin with one the type accepts, or a list of the type stands there that reaches past its parent; the state left behind is stated for both. |
| `RlpStream.DecodeFront` | rlp/decode.go:933-956 | On a whole input the stream decoder for a type is the recursive decoding followed by the check of the type. |
| `RlpStream.DecodeBytes` | rlp/decode.go:92-106 | The result is of the type and encodes to exactly the input, and an error means that no value of the type does. |
| `RlpTypes.ElementsFromExact` | rlp/decode.go:312-339 | Decoding element by element with the types of the elements is decoding the list and looking at the types afterwards. |
| `RlpTypes.ElementsExact` | rlp/decode.go:404-436 | The same for a whole list, with the number of required fields. |
| `RlpTypes.InterfaceAcceptsAll` | rlp/decode.go:517-539 | The decoder for `interface{}` has no condition of its own. |
| `BigEndian.FixedValue` | common/types.go:319-324 | Cropping to a width is reduction modulo 256 to that width. |
| `BigEndian.FixedRoundTrip` | common/types.go:217-225 | Any array of a width comes back from its integer by left padding. |
| `BigEndian.CompareIsNumeric` | common/types.go:75-77 | Comparing hashes byte by byte orders them as integers. |
| `GenesisAlloc.SetBytes` | common/types.go:319-324 | The last 20 bytes go to the end of the address; what lies before shorter input is left as it was. |
| `GenesisAlloc.BytesToAddress` | common/types.go:217-221 | Left padding or cropping to 20 bytes. |
| `GenesisAlloc.AddressOfInteger` | common/types.go:225 | An address comes back from its integer, and any integer is reduced modulo 2^160. |
| `GenesisAlloc.MakeSlots` | core/mkalloc.go:66-73 | For any order of iteration the slots list the storage, each entry once, by ascending key. |
| `GenesisAlloc.MakeItem` | core/mkalloc.go:59-76 | The item of an account, with the extra part exactly when there is storage, code or a nonce. |
| `GenesisAlloc.MakeList` | core/mkalloc.go:58-82 | For any order of iteration the items list the allocation, each account once, by ascending address. |
| `GenesisAlloc.ListUnique` | core/mkalloc.go:58-82 | Two such lists of one allocation are equal, so the order of iteration does not matter. |
| `GenesisAlloc.DecodePrealloc` | core/genesis.go:648-664 | The nested loops build the specified map. |
| `GenesisAlloc.StorageRoundTrip` | core/genesis.go:655-658 | Decoding the slots gives back the storage. |
| `GenesisAlloc.ItemRoundTrip` | core/genesis.go:649-661 | Decoding an item gives back address and account, all but the private key. |
| `GenesisAlloc.DecodeAt` | core/genesis.go:648-664 | Items with distinct addresses do not overwrite each other. |
| `GenesisAlloc.RoundTrip` | core/genesis.go:633-664 | Decoding the list gives back the allocation, all but the private keys. |
| `AllocRlp.IntExact` | rlp/decode.go:848-889 | The integer decoders accept exactly the values the integer writers produce. |
| `AllocRlp.ItemExact` | rlp/encode.go:342-388 | The conversion of a decoded value to an item, with its optional last field, accepts exactly what the struct writer produces. |
| `AllocRlp.ItemLayout` | core/mkalloc.go:41-56 | The value of an item has the address, the balance and, if present, the list of nonce, code and slots, each slot as key and value, in these places and with these contents. |
| `AllocRlp.PairBytes` | rlp/encode.go:342-388 | The bytes of a list of two are its head and then the bytes of both in order. |
| `AllocRlp.TripleBytes` | rlp/encode.go:342-388 | So are those of a list of three. |
| `AllocRlp.AllocType` | core/genesis.go:634-645 | The decoder for the type in `decodePrealloc` accepts exactly the values that make up a list of items. |
| `AllocRlp.DataExact` | core/genesis.go:646-648 | Bytes decode to a list of items if and only if they begin with its encoding. |
| `AllocRlp.DecodePreallocData` | core/genesis.go:633-664 | The stream decoder for that type and the loops together compute the specified map, or fail where it is undefined. |
| `AllocRlp.MakeAlloc` | core/mkalloc.go:84-91 | Fails exactly when a balance is negative; otherwise decoding the bytes gives back every account but its private key. |
| `LogFormat.StripUndoesCommas` | log/format.go:429-447 | Deleting the separators gives back the digits. |
| `LogFormat.CommaPositions` | log/format.go:429-447 | A separator stands at exactly every fourth place from the right. |
| `LogFormat.GroupedReadsBack` | log/format.go:407-451 | The printed number without separators is the signed decimal numeral of n. |
| `LogFormat.GroupedPositions` | log/format.go:419-451 | Separators appear from 100000 upward in absolute value, every three digits and nowhere else. |
| `LogFormat.EmitIsGroup` | log/format.go:432-447 | The digit loop with its counter groups the digits of n. |
| `LogFormat.NegatedExact` | log/format.go:408-409 | Negating in int64 and converting gives the absolute value, also for the least int64. |
| `LogFormat.EmitFits` | log/format.go:429-447 | Digits, separators and sign fit the 26-byte buffer if and only if there is no sign or fewer than twenty digits. |
| `LogFormat.FormatUnsigned` | log/format.go:419-451 | The buffer loop prints the specified text for every uint64 and sign that fits the buffer. |
| `LogFormat.FormatInt64` | log/format.go:407-412 | For every int64. |
| `LogFormat.FormatUint64` | log/format.go:415-417 | For every uint64. |
| `LogFormat.GroupText` | log/format.go:462-484 | The text loop groups a numeral of any length, with or without a sign, within its buffer of len+len/3. |
| `LogFormat.FormatBigInt` | log/format.go:454-485 | Integers of any size print as the fixed-width ones do. |
| `LogFormat.FormatUint256` | log/format.go:488-515 | So do 256-bit integers. |
| `HDPath.ParseDerivationPath` | accounts/hd.go:68-118 | The loop computes the specified parse, with its error for empty, ambiguous, malformed and out-of-range input; what the numbers, components and errors are is stated by the members of `HDNumerals`. |
| `HDPath.ToString` | accounts/hd.go:122-136 | The loop prints the specified text. |
| `HDPath.ComponentRoundTrip` | accounts/hd.go:90-116 | Every uint32 comes back from its printed component, hardened from 2^31 as in section "Extended keys" of BIP-32. |
| `HDPath.RoundTrip` | accounts/hd.go:68-136 | Every non-empty path comes back from its text, and the empty one is refused. |
| `HDPath.Reprint` | accounts/hd.go:68-136 | Printing what any accepted text parsed to, and parsing again, changes nothing. |
| `HDPath.ParseUnder` | accounts/hd.go:83-118 | Text appended to a printed path is parsed as components below that path. |
| `HDPath.RelativeIsUnderRoot` | accounts/hd.go:83-85 | A relative path means the path below the default root. |
| `HDPath.QuoteHardens` | accounts/hd.go:94-97 | A trailing quote sets the hardened bit, with spaces allowed before it. |
| `HDPath.ComponentIgnoresPadding` | accounts/hd.go:91-92 | Spaces around a component do not matter. |
| `HDPath.WhitespaceIgnored` | accounts/hd.go:68-118 | Two texts whose components differ only in surrounding spaces parse alike, errors included. |
| `HDNumerals.DigitInExactly` | accounts/hd.go:100 | A character is digit d exactly when it is the d-th of 0-9a-f or 0-9A-F. |
| `HDNumerals.DigitsExactly` | accounts/hd.go:100 | Digits are read exactly when each underscore stands between digits or behind the prefix, and then as their place value with the underscores left out. |
| `HDNumerals.EveryTextSplits` | accounts/hd.go:100 | Every text falls into a prefix (0b, 0o, 0, 0x in either case, or none) and the rest. |
| `HDNumerals.NatExactly` | accounts/hd.go:100 | For every such split, the text is a number exactly when the rest are digits of that base, and then that number. |
| `HDNumerals.NumeralsScan` | accounts/hd.go:100 | The numeral of every n in base 2, 8, 10 and 16, with each prefix, in either case, reads as n, with a plus too, and with a minus as -n. |
| `HDNumerals.NumberComponent` | accounts/hd.go:90-116 | A number as a component is accepted, as itself, exactly from 0 to 2^32-1, and with a quote, as 2^31 more, exactly from 0 to 2^31-1; spaces do not matter; otherwise it is out of range. |
| `HDNumerals.NumeralComponent` | accounts/hd.go:90-116 | So is the numeral of every n in each base. |
| `HDNumerals.OtherComponent` | accounts/hd.go:100-103 | A component that is not a number is refused as malformed, with its trimmed text. |
| `HDNumerals.EachComponentCounts` | accounts/hd.go:90-117 | Components that are all accepted give their values in order. |
| `HDNumerals.FirstBadComponent` | accounts/hd.go:90-117 | Otherwise the error is that of the first one refused. |
| `HDNumerals.PathErrors` | accounts/hd.go:72-89 | Ambiguous exactly when only space stands before the first slash, empty exactly for a lone m. |
| `HDNumerals.ComponentPrints` | accounts/hd.go:122-136 | A component prints as a decimal numeral, from 2^31 on less that and with a quote. |
| `HDNumerals.RootPrints` | accounts/hd.go:28-31 | The default root is m/44'/60'/0'/0. |
| `PeerSet.AddedPeer` | eth/peerset.go:137-158 | Adding a peer changes the number with a snap extension by whether it has one. |
| `PeerSet.RemovedPeer` | eth/peerset.go:162-175 | Removing one does so the other way. |
| `PeerSet.StepKeeps` | eth/peerset.go:74-175 | Every step keeps the invariant of counter, waiters, parked and handed extensions. |
| `PeerSet.ConnectsExactly` | eth/peerset.go:74-99 | A snap connection is accepted exactly when its remote runs eth and is neither registered nor parked, and then goes to the handler waiting for its id or is parked. |
| `PeerSet.WaitsExactly` | eth/peerset.go:103-133 | An eth handler gets the extension parked under its id, or waits, exactly when its remote runs snap and nobody is registered or waiting under the id. |
| `PeerSet.PeerSetInvariant` | eth/peerset.go:74-175 | In every run `snapPeers` is the number of peers with an extension and at most the number of peers, `snapWait` and `snapPend` share no id, and each waiting handler is found under its id. |
| `PeerSet.HandedOnce` | eth/peerset.go:74-133 | In every run each accepted extension is parked or handed over, never both or neither, to one handler only, of the same id. |
| `PeerSet.ClosedForGood` | eth/peerset.go:264-272 | After close no run adds a peer. |
| `PeerSet.ClosedExactly` | eth/peerset.go:264-272 | In every run the set is closed exactly when close was called. |
| `PeerSet.RegisteredExactly` | eth/peerset.go:137-175 | In every run a peer is registered with an extension if and only if some registration, while the set was open and the id was not in, brought that extension and no later call took the id out. |
| `PeerSet.BrokenExactlyBy` | eth/peerset.go:137-158 | A step ends the disjointness of parked and registered ids if and only if it registers an id that is parked while the set is open. |
| `PeerSet.TrueExactlyWhen` | eth/peerset.go:56 | A run keeps parked and registered ids disjoint throughout if and only if it never takes such a step. |
| `PeerSet.TrueAfterPrefix` | eth/peerset.go:56 | Throughout means after every prefix of the run. |
| `PeerSet.ParkedAndRegistered` | eth/peerset.go:56 | A run in which a parked connection and a registered peer share an id. |
| `PeerSet.Peers.RegisterSnapExtension` | eth/peerset.go:74-99 | Each error exactly under its condition; otherwise the waiting handler is taken off the map and named, or the connection is parked; the counter stays right and the two maps disjoint. |
| `PeerSet.Peers.WaitSnapExtension` | eth/peerset.go:103-133 | Each refusal exactly under its condition; otherwise the connection parked under the id is taken, or the handler's channel is entered. |
| `PeerSet.Peers.RegisterPeer` | eth/peerset.go:137-158 | Each error exactly under its condition; on success exactly this peer is added with its extension; the counter equals the peers with one. |
| `PeerSet.Peers.UnregisterPeer` | eth/peerset.go:162-175 | The peer is gone afterwards and no other; an error exactly when it was not there; the counter equals the peers with an extension. |
| `PeerSet.Peers.Close` | eth/peerset.go:264-272 | The set is closed and nothing else changes. |
| `BtcSync.CallMovesCursor` | eth/worker_service.go:110-203 | One call, failing anywhere or not, never moves the cursor back and walks exactly the heights the cursor moved over when it generates briefs. |
| `BtcSync.OutcomeExactly` | eth/worker_service.go:110-203 | Each outcome occurs exactly when its stage is the first with a bad answer, and success exactly when none has. |
| `BtcSync.GoodCallCatchesUp` | eth/worker_service.go:110-203 | A call whose answers are all good leaves the cursor at the node's height and returns the heights in between, unless the cursor was there already. |
| `BtcSync.DeliveredIsRange` | eth/worker_service.go:110-203 | Over any sequence of calls the heights walked for briefs are consecutive, without gap or repeat, from just after the first cursor to the last. |
| `BtcSync.CallSaves` | eth/worker_service.go:303-354 | With an honest node every height the cursor moves over has a row, and no row is lost. |
| `BtcSync.PassedIsSaved` | eth/worker_service.go:110-203 | The same over any sequence of calls. |
| `BtcSync.WorkerService.GetPresentBlockHeight` | eth/worker_service.go:219-233 | The stored cursor, or the start height stored as the first cursor; nothing changes on error. |
| `BtcSync.WorkerService.GetBlocks` | eth/worker_service.go:260-300 | Both caches hold exactly the range, in order, or the call fails because one fetch did. |
| `BtcSync.WorkerService.SaveBlocks` | eth/worker_service.go:303-354 | The rows of the range are inserted in order, or a prefix of them when the batch fails. |
| `BtcSync.WorkerService.UpdateChain` | eth/worker_service.go:236-258 | The cursor is the given height exactly on success. |
| `BtcSync.WorkerService.RunSync` | eth/worker_service.go:110-203 | The stages, each of which may fail, compute the specified state and outcome. |
| `BtcSortCache.Partition` | eth/btcsortmap.go:43-55 | The segment is permuted with smaller elements before the pivot and the others behind; nothing outside changes. |
| `BtcSortCache.SidesSorted` | eth/btcsortmap.go:35-41 | Sorting both sides of a partition sorts the segment. |
| `BtcSortCache.QuickSort` | eth/btcsortmap.go:35-41 | Terminates with the segment ascending and permuted, and nothing outside it changed. |
| `BtcSortCache.Cache.constructor` | eth/btcsortmap.go:8-13 | An empty cache. |
| `BtcSortCache.Cache.Set` | eth/btcsortmap.go:15-21 | The value is stored, and the key is listed once. |
| `BtcSortCache.Cache.Get` | eth/btcsortmap.go:23-25 | The stored value, present exactly for listed keys. |
| `BtcSortCache.Cache.Sort` | eth/btcsortmap.go:31-33 | The key list is a strictly ascending permutation. |
| `GlogHandler.Handler.constructor` | log/handler_glog.go:54-58 | No rules, no override, level zero and no cache. |
| `GlogHandler.Handler.Verbosity` | log/handler_glog.go:74-76 | Only the level changes. |
| `GlogHandler.Handler.Vmodule` | log/handler_glog.go:136-146 | The rules are installed and the cache agrees with them. |
| `GlogHandler.Handler.Log` | log/handler_glog.go:204-235 | The verdict through the cache is the verdict of a first-match scan, and the cache keeps agreeing with the rules. |
| `GlogHandler.Handler.Scan` | log/handler_glog.go:220-227 | The loop finds the level of the first matching rule, or zero. |
| `GlogHandler.FirstMatchAt` | log/handler_glog.go:220-227 | The level is that of the matching rule with no matching rule before it. |
| `GlogHandler.FirstMatchNone` | log/handler_glog.go:220-227 | Without a matching rule it is zero. |
| `GlogHandler.VerdictExactly` | log/handler_glog.go:204-235 | A record passes if and only if its level is within the global one, or within that of the first matching rule, or is zero while there are rules. |
| `GlogHandler.ScanJustified` | log/handler_glog.go:204-235 | A verdict read from a scan or the cache is the uncached verdict under the rules then in force. |
| `GlogHandler.StepKeeps` | log/handler_glog.go:136-235 | Every critical section of Log and Vmodule keeps the invariant. |
| `GlogHandler.CacheAgrees` | log/handler_glog.go:136-235 | In every interleaving the cache agrees with a first-match scan of the current rules and is never written while nil. |
| `GlogHandler.VerdictJustified` | log/handler_glog.go:204-235 | In every interleaving each verdict is the uncached one under some rule set in force during the call. |
| `GlogHandler.RunSettings` | log/handler_glog.go:74-146 | In every run the rule sets are those that Vmodule was given, in order, and the level is the last one set. |
| `GlogHandler.CallRecords` | log/handler_glog.go:204-211 | In every run a call began under the newest rules then in force, and the level it was judged by is the one in force when it read it. |
| `Wallets.CmpIsTotalOrder` | accounts/url.go:98-103 | Equal only for equal URLs, antisymmetric and transitive. |
| `Wallets.CmpIsLexicographic` | accounts/url.go:98-103 | The scheme decides before the path, and each part by its first differing character or by ending first. |
| `Wallets.PlaceSplits` | accounts/manager.go:250 | On a sorted list the search position has smaller URLs before it and no smaller one behind. |
| `Wallets.WalletSlice.Search` | accounts/manager.go:250 | Binary search finds that position. |
| `Wallets.WalletSlice.AppendAfter` | accounts/manager.go:252 | Appending behind a prefix writes in place when the capacity allows and to a new array otherwise, with the same contents. |
| `Wallets.WalletSlice.InsertAt` | accounts/manager.go:255 | The nested append inserts in place without losing the tail it overwrites. |
| `Wallets.WalletSlice.DeleteAt` | accounts/manager.go:269 | The tail moves one place within the array. |
| `Wallets.WalletSlice.Merge` | accounts/manager.go:248-258 | The slice ends up sorted with exactly both sets of wallets, in its old array or a new one. |
| `Wallets.WalletSlice.Drop` | accounts/manager.go:262-272 | The loop is the specified removal within the array, and the slice stays sorted. |
| `Wallets.InsertKeepsSorted` | accounts/manager.go:249-256 | One insertion keeps the order and adds exactly the wallet. |
| `Wallets.MergedSorted` | accounts/manager.go:248-258 | So does a whole merge. |
| `Wallets.DropUndoesInsert` | accounts/manager.go:262-272 | Dropping what was just merged gives back the very list. |
| `Wallets.DropPassesInsert` | accounts/manager.go:248-272 | Inserting one URL and dropping another that is listed can change places. |
| `Wallets.DropTakesLastMerged` | accounts/manager.go:248-272 | Dropping a URL takes back the last wallet merged under it and leaves the rest of the merge. |
| `Wallets.DropUndoesMerge` | accounts/manager.go:248-272 | Merging any wallets and dropping any with the same URLs, in any order, gives back the very list. |
| `Wallets.DropIsExact` | accounts/manager.go:262-272 | Drop removes exactly that URL if and only if it is listed or lies above all listed ones. |
| `Wallets.DropTakesNeighbour` | accounts/manager.go:264-268 | A list from which dropping an absent wallet removes another. |
| `Wallets.ListIsBalance` | accounts/manager.go:133-152 | Over any run the list is sorted, and if each departure matches an earlier arrival it holds arrivals minus departures by URL. |
| `Wallets.Manager.constructor` | accounts/manager.go:66-71 | The first list is sorted and holds exactly the wallets of all backends. |
| `Wallets.Manager.Update` | accounts/manager.go:133-152 | Each event is handled as specified and the list stays sorted. |
| `IntrinsicGas.ToWordSize` | core/state_transition.go:80-86 | The least number of 32-byte words that hold the size, for every uint64. |
| `IntrinsicGas.GuardExact` | core/state_transition.go:53-67 | The division guard fires exactly when the sum would exceed uint64. |
| `IntrinsicGas.AddCost` | core/state_transition.go:53-56 | A guarded term is added exactly, or reported as overflow. |
| `IntrinsicGas.CountNonZero` | core/state_transition.go:42-47 | The loop counts the non-zero bytes. |
| `IntrinsicGas.NonZeroCounts` | core/state_transition.go:42-47 | That count is the number of places with a non-zero byte. |
| `IntrinsicGas.CostByCase` | core/state_transition.go:33-71 | The cost for each combination of flags: the price per byte before and after EIP-2028, the base for a creation before and after Homestead, and the words of init code from EIP-3860 on. |
| `IntrinsicGas.DataGas` | core/state_transition.go:33-71 | The mathematical sum of all terms, or the overflow error exactly when it does not fit, with the prices of EIP-2028 and EIP-3860, section "Specification". |
| `IntrinsicGas.ComputeIntrinsicGas` | core/state_transition.go:30-77 | The same for the whole function; an access list is added modulo 2^64. |

## Left out

- FeedSend.Network.Select: only channels with an entry arrive on `removeSub`; that no other can is proved in `FeedProtocol.RemovalAlwaysFound` and not repeated on the array.
- FeedProtocol.StepPreserves: subscriptions carry an id that the program does not have, so that properties can speak of single ones.
- TypeMuxProtocol.StepKeeps: `del` and the body of Subscribe are single steps, as the mux lock makes them; writer preference of the RWMutex is not modelled.
- TypeMuxPosts.PostMeetsEach: times are natural numbers, and Subscribe and Post bring any with them; that the clock goes forward is not used. That a Post returns is not claimed: a receiver may never receive.
- FeedProtocol.SendTakesAll: counts entries by channel, because an Unsubscribe takes out the first entry of its channel, which may stand for another subscription on the same one.
- ExpDecay.ReservoirOfHeaviest: samples carry their arrival time and random draw, which the program forgets.
- ExpDecay.ExpDecaySample.UpdateAt: keys are reals or infinite, without rounding, overflow or underflow, and the int64 count does not wrap.
- SamplePercentiles.CalculatePercentiles: scores are reals without rounding.
- RuntimeHistogram.Snapshot.Calc: only the count; mean, minimum, maximum and variance are left out.
- RuntimeHistogram.SortPairs: `sort.Sort` is modelled by an insertion sort with the same contract; so are `slices.Sort` and `slices.SortFunc` elsewhere.
- RlpStream.Stream.Decode: the stream has an input of known length and starts between values; for integers, byte slices, byte arrays, slices, structs and `interface{}`.
- RlpStream.Stream.Kind: an input is refused, but not with which error.
- RlpStream.Stream.DecodeString: the decoders for integers and byte arrays share one body, which checks length, content and leading zero in their order.
- RlpEncBuffer.EncBuffer.WriteUint64: the unrolled `putint` is replaced by the shortest big-endian bytes.
- RlpEncBuffer.FillBytes: the loop over machine words is one loop over the integer.
- AllocRlp.MakeAlloc: the quoting of the bytes as a Go string is left out.
- GenesisAlloc.MakeItem: nil and empty code or storage are not told apart, and a nil balance is not modelled.
- HDPath.ParseDerivationPath: strings are sequences of characters, not UTF-8 bytes.
- PeerSet.Peers.WaitSnapExtension: the hand-over through the channel is part of the step that sends it.
- BtcSync.WorkerService.RunSync: one network, transactions, files and the contents of briefs only as stages that may fail, and a failed save changes no row; reaching the greatest int64 height is not considered.
- BtcSync.DeliveredIsRange: `GenerateBrief` skips a transaction whose parsing or signature call fails (`eth/worker_service.go:671-682`) and the cursor moves on all the same; which transactions of a height get a brief is not modelled.
- BtcSync.PassedIsSaved: assumes that the node reports each block under its own height.
- Wallets.WalletSlice.Merge: the slice begins at the start of its backing array, as the manager's does.
- GlogHandler.Handler.Vmodule: takes the compiled rules; parsing of the rule string and of patterns is left out.
- IntrinsicGas.ComputeIntrinsicGas: the access list is added without guards in the source, so it is stated modulo 2^64.
- The type checks of Feed and TypeMux (channels of a wrong element type).
- `event/feedof.go`, `event/subscription.go` and `event/multisub.go`: the first repeats Feed, the others add goroutines and timers only.
- UniformSample, counters, meters, timers and the metrics exporters.
- The encoder for readers, `EncoderBuffer` and the other typed writers and decoders of package `rlp`.
- `Keys` of the sort cache returning the internal slice, and its aliasing.
- `BacktraceAt` and the log handlers other than the level filter.
- The queries of the peer set and the `eth` handshake.
- `SetBlockHeight` and `SyncBlock` of the worker service, and transaction fees.
- `core/genesis.go` apart from `decodePrealloc`, and the trie, state, blockchain and rawdb code.
- Cryptography, contract bindings, console, node, RPC and command-line code.
