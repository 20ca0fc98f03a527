# A verified model of the distributed shared memory

This project models, in Dafny 4.11, a page-based distributed shared memory: the client's
page cache, the arrays built on it, the page protocol between client and server, and the
cluster of servers that finds out by gossip who owns which page. It proves that the parts
do what they are for, over all inputs, all runs and all behaviours of the network.

`dafny verify dfyconfig.toml` checks the whole project.

## What is modelled

**The client pager** (`PagerModel`, `PagerSteps`, `PagerRuns`, `PagerClock`,
`PagerResidence`, `PagerCounts`, `PagerServer`, `PagerWriteback`, `PagerPointers`,
`PagerContext`). Page table, frame table, free-frame stack, clock hand
and counters, with the remote store beside them. Every network outcome is a parameter: a
writeback is acknowledged, or fails having reached the server or not; a fetch succeeds, or
fails leaving any bytes in the frame; a batch succeeds or fails. `PagerModel` and
`PagerSteps` give the operations as functions on values; `PagerContext.Context` is the
imperative pager, with arrays updated in place and the program's loops, each method proved
equal to its function. Both `dsm_access_page` and the inline `dsm_access_page_fast` are
`Access`: their bodies are the same. The central results are that the cache refines a flat
memory in every run, that frames and pages stay in bijection and the fetch count balances,
that the clock gives every accessed page a full turn of the hand before it goes, and that
only dirty pages of the server are ever sent back to it.

**Arrays** (`ArrayIndex`, `ArrayStore`, `ArrayGrowth`, `ArrayContext`). Mixed-radix addressing as a
bijection with its inverse loop, elements as byte ranges of pages, and the result that any
interleaving of reads and writes on several arrays over the cache is a run of independent
maps. By their two contracts `ToNumpy` after `FromNumpy` returns what was put in, and each
fails only for the reasons its contract lists.

**The byte stream and the page protocol** (`Stream`, `Words`, `Rpc`, `RpcClient`). The send,
receive and gathered-write loops under any schedule of short transfers, interruptions and
failures; the server's request loop over a byte stream; the client's calls.

**The cluster** (`GossipCodec`, `Membership`, `FailureDetector`, `MergeOrder`,
`ClusterSystem`, `ClusterTables`, `ClusterHistory`, `ClusterRouting`, `ClusterMemory`,
`ClusterHangs`, `MutualRefresh`, `GossipReach`, `FalseDeath`, `ServerNode`). The gossip
datagram byte by byte, the membership table and its merges, and a transition system of any
number of nodes whose network keeps every datagram and delivers it to anyone, at any time,
any number of times, or never. Client requests and forwards interleave with gossip. A
request is served, given up or never answered; a connection between nodes is sound, broken
or stuck, and does not mend. `ServerNode` ties this to the request loop of `Rpc`.

**The whole stack** (`ClientCluster`). One client's cache over one node of a cluster, whose
replies, the zero pages of failed forwards among them, are what the client fetches. The
client's own connection may lose a writeback or its acknowledgement, and a call that is
never answered does not return.

## Where the program and its description part

- The description says a peer silent past the timeout is declared dead. `merge_node`
  refreshes an entry on every third-party mention, so two nodes that keep talking keep a
  silent third one alive for good: `MutualRefresh.MutualRefresh`,
  `FailureDetector.EchoesKeepAlive`. While nobody mentions a peer it dies exactly when a
  tick past the timeout follows one past half of it: `FailureDetector.SilentExactly`.
- The heartbeat reads the clock before it takes the lock. An entry refreshed in between is
  in its future and the unsigned difference wraps: `FailureDetector.FreshPeerSuspected` and
  `FailureDetector.FreshSuspectDies`, with the exact conditions in
  `FailureDetector.AliveSparedExactly` and `FailureDetector.SuspectSparedExactly`, and over
  runs in `FailureDetector.DeadExactlyAfterTimeout`.
- The usage example prefetches pages that were never accessed. Those have location LOCAL
  and are skipped: `PagerResidence.UntouchedNeverCached`. An entry says REMOTE exactly if an
  access to its page has been answered, `PagerResidence.RemoteExactly`, and which of those
  pages a prefetch brings in is `PagerSteps.PrefetchedExactly`.
- `dsm_sendv` fails under every schedule when its last vector is empty, even after all
  bytes are out, and otherwise succeeds exactly when they are: `Stream.SendVectors`.
- A node that owns pages beyond its storage forwards requests for them to itself, on the
  connection its own forward is waiting on, and never answers:
  `ClusterRouting.OwnerForwardsToItself`; it serves a page exactly if its storage covers it:
  `ClusterRouting.ServedExactlyIfStored`. When a request is never answered is
  `ClusterRouting.UnansweredExactly`, and runs that show it are
  `ClusterHangs.BeyondStorageNoReply` and `ClientCluster.HungRead`.
- One such request forwarded by another node leaves that node's connection to the owner
  stuck, and its requests for the owner's good pages are not answered any more either:
  `ClusterHangs.OneHangIsForever`, in a run `GossipReach.OneGetSilencesOwner`.
- A PUT whose forward fails is to be fatal for the connection it came on. The handler ends
  without closing it, so whoever sent the PUT goes on waiting for the acknowledgement.
- A GET whose forward fails is answered with zeros as ordinary data. The reply is right
  exactly if the owner runs, has storage for the page, and is the node asked or one it lists
  and can reach, or if the page is all zero and there is a reply:
  `ClusterMemory.GetReturnsMemory`. It is wrong in a run of three steps,
  `ClusterMemory.UnheardOwnerReadsZeros`, and a client is then handed zeros without an
  error: `ClientCluster.LostReadHappens`. So the client sees one flat memory exactly if all
  it fetched could be answered: `ClientCluster.ClusterClientIsFlat`.
- The connection to a peer is never closed or replaced, so after one break every later
  forward to that peer fails: `ClusterHangs.OneBreakIsForever`.
- A PONG lists 16 entries of up to 64. A running node that no datagram heard speaks of is
  declared dead, and its pages read as zeros: `FalseDeath.FalseDeath`, with the exact state
  in `FalseDeath.UnspokenExactly`; a node past the sixteenth entry of every table heard from
  is such a node: `FalseDeath.PastSixteenIsUnspoken`.
- Two orders of merging agree on who is alive, but on SUSPECT against DEAD only when the
  first entries at the highest incarnation do: `MergeOrder.OrdersAgreeExactly`.
- `from_numpy` fails on an array without elements, after it has made its own array: NumPy's
  iterator refuses it. The method `ArrayContext.ArrayContext.FromNumpy` does the same.

## Model

| member | source | states |
|---|---|---|
| PagerSteps.CreateEstablishes | src/dsm_paging.c:193-236 | a new context satisfies every invariant, and the client sees the server's pages |
| PagerModel.PassLength | src/dsm_paging.c:35-43 | how far the hand goes: everything passed is referenced, the frame it stops at is not, at most one full turn |
| PagerSteps.VictimUnreferenced | src/dsm_paging.c:35-44 | where the hand stops the page has lost its reference bit, also after a full turn over referenced pages |
| PagerSteps.UnmapKeeps | src/dsm_paging.c:55-62 | unmapping a page that needs no writeback, or has been written back, keeps all invariants and every view |
| PagerSteps.EvictKeeps | src/dsm_paging.c:33-68 | under any writeback outcome an eviction changes no view and keeps all invariants; it holds the freed frame on success and nothing on failure |
| PagerClock.ClockVictim | src/dsm_paging.c:33-68 | the victim is the first unreferenced frame in cyclic order from the hand, or the hand's own; exactly the pages passed over lose their bits, within one turn more than there are frames; a failed writeback leaves the hand on the victim |
| PagerClock.SecondChance | src/dsm_paging.c:33-68 | over every run, between a state where a page's bit is set and the page's eviction the hand visits every frame |
| PagerClock.StepChance | src/dsm_paging.c:137-191 | one client operation either keeps a page's second chance or evicts it after a full turn of the hand |
| PagerSteps.ObtainKeeps | src/dsm_paging.c:157-162 | getting a frame, from the stack or by eviction, keeps all invariants with that frame held |
| PagerSteps.PushKeeps | src/dsm_paging.c:27-30 | pushing a held frame never overflows the stack and keeps it an exact list of the free frames |
| PagerSteps.FillKeeps | src/dsm_paging.c:164-183 | a fetched page is mapped into the held frame; a failed fetch, whatever it scribbled, gives the frame back and changes no view |
| PagerModel.PicksBounds | src/dsm_paging.c:93-109 | the pages picked for prefetch lie in the window, ascend, are absent and remote, and are no more than the room for them |
| PagerSteps.PrefetchKeeps | src/dsm_paging.c:86-135 | prefetch changes no view, evicts nothing, maps only absent remote pages of its window, clean and unreferenced; a failed batch restores the same free frames |
| PagerSteps.PrefetchedExactly | src/dsm_paging.c:93-134 | after a successful batch an absent page of the window is cached if and only if it was fetched before and fewer wanted pages of the window precede it than there are frames and batch places |
| PagerRuns.AccessKeeps | src/dsm_paging.c:137-191 | an access changes no view; success exposes the page's view in a real frame, referenced and dirty as asked; it fails exactly if the page is absent and the victim's writeback or the fetch fails |
| PagerRuns.AccessSlowKeeps | src/dsm_paging.c:153-191 | the same for the miss path, with the frame still mapping the page after the prefetch behind it |
| PagerRuns.StepKeeps | src/dsm_paging.c:137-191 | every client operation keeps the invariants and is a step of flat memory |
| PagerRuns.CacheRefinesFlat | src/dsm_paging.c:33-191 | every run, under every network, is a run of flat memory that may refuse but never lies |
| PagerRuns.ViewIsLastStored | src/dsm_paging.c:33-191 | a page's view after a run is the last page stored in it, or its first view |
| PagerRuns.WriteThenStore | src/dsm_paging.c:143-147 | the pointer of a successful write access takes a store, which changes that page's view alone |
| PagerRuns.BooksBalance | src/dsm_paging.c:19-68 | in every reachable state fetches equal evictions plus frames in use, and resident pages and occupied frames are in bijection |
| PagerResidence.FirstAccess | src/dsm_paging.c:220-230 | in a new context frames go out in ascending order and only page 0 counts as sequential |
| PagerResidence.MissBringsIn | src/dsm_paging.c:157-188 | which other pages a successful miss brings in, exactly: it must be sequential, under 32-bit wrap-around, the batch succeed, and the page lie in the window, have been fetched before and come before frames and batch places run out |
| PagerResidence.UntouchedNeverCached | src/dsm_paging.c:98-100 | a page never accessed is never cached, however often it is prefetched |
| PagerResidence.RemoteExactly | src/dsm_paging.c:176-180 | in every run of a new context with a server an entry says REMOTE if and only if an access to its page was answered |
| PagerResidence.TopFrameFirst | src/dsm_paging.c:19-30 | a miss takes the frame on top of the stack, and a failed fetch leaves the stack as it was |
| PagerResidence.FailedBatchReverses | src/dsm_paging.c:114-118 | a failed batch changes nothing but the stack, whose top it leaves reversed |
| PagerCounts.StepCounts | src/dsm_paging.c:55-190 | every operation adds to the fetches the number of pages it brings in, nothing without a server, and to the evictions the number it puts out |
| PagerWriteback.WritesBackExactly | src/dsm_paging.c:46-62 | a victim that is clean or did not come from the server is evicted without a PUT; any other is sent, and goes exactly if the PUT is acknowledged |
| PagerWriteback.FailsExactly | src/dsm_paging.c:137-174 | an access fails exactly if the page is absent and the PUT of a dirty remote victim or the fetch fails |
| PagerWriteback.ReadersWriteNothing | src/dsm_paging.c:46-53 | in every run of a new context without write accesses the server does not change and accesses fail only if their own fetch does |
| PagerWriteback.InMemoryNeverFails | src/dsm_paging.c:164-180 | in every run without a server nothing is sent or fetched and no access fails |
| PagerPointers.PointerStays | src/dsm_paging.c:137-191 | in every run the frame an access exposed holds its page as long as the page stays cached, and not once it has been evicted |
| PagerPointers.StepFrames | src/dsm_paging.c:33-191 | no operation moves a cached page to another frame |
| PagerServer.ServerAfter | src/dsm_paging.c:46-53 | an operation changes the remote store by its writeback, as far as that got, or not at all |
| PagerServer.FacingWritesBack | src/dsm_paging.c:35-53 | which page is evicted, and with what bytes, does not depend on the remote store |
| PagerContext.Context.constructor | src/dsm_paging.c:193-236 | builds the tables and the descending free stack of the initial model |
| PagerContext.Context.SetSocket | src/dsm_paging.c:70-73 | switches between in-memory and socket mode |
| PagerContext.Context.TakeFree | src/dsm_paging.c:19-25 | pops the top frame, or returns the sentinel on an empty stack |
| PagerContext.Context.GiveFree | src/dsm_paging.c:27-30 | pushes a frame |
| PagerContext.Context.EvictPage | src/dsm_paging.c:33-68 | the clock loop terminates and does what the eviction function says, in place |
| PagerContext.Context.TakeVictim | src/dsm_paging.c:44-62 | writeback, unmapping and handing out of the page under the hand |
| PagerContext.Context.PickPages | src/dsm_paging.c:93-109 | the picking loop, with its 32-bit addition, never wraps below its start and pops one frame a page |
| PagerContext.Context.PrefetchPages | src/dsm_paging.c:86-135 | the in-place prefetch does what the prefetch function says |
| PagerContext.Context.AccessPageSlow | src/dsm_paging.c:153-191 | the in-place miss path does what its function says and keeps the context valid |
| PagerContext.Context.AccessPage | src/dsm_paging.c:137-151 | the in-place access does what its function says and keeps the context valid |
| ArrayIndex.ComputeStrides | python/dsm.py:203-208 | each stride is the product of the later dimensions |
| ArrayIndex.FlatIndex | python/dsm.py:210-221 | the row-major position of the tuple meant, a negative index counting from the end; succeeds exactly if each index is at least minus its axis's length and below it; wrong rank and the first axis out of range are told apart |
| ArrayIndex.MeansExactly | python/dsm.py:214-219 | an index tuple means one in-range tuple at most, the same or one axis length more on each axis, and one exactly within those bounds |
| ArrayIndex.UnravelLoop | python/dsm.py:277-281 | the loop computes the inverse of the flat index |
| ArrayIndex.UnravelFlat | python/dsm.py:275-282 | unravelling undoes flattening on every in-range tuple |
| ArrayIndex.FlatUnravel | python/dsm.py:275-282 | flattening undoes unravelling on every position of the array |
| ArrayIndex.NumPagesCeiling | python/dsm.py:199-199 | an array takes the fewest pages that hold its bytes |
| ArrayIndex.ElementInArray | python/dsm.py:228-229 | every element lies inside one page of its array |
| ArrayIndex.ElementAddress | python/dsm.py:228-229 | element k of an array lies k element sizes behind its first byte |
| ArrayIndex.ElementsApart | python/dsm.py:228-229 | distinct elements share no byte |
| ArrayStore.LocateExactly | python/dsm.py:210-221 | which element an index tuple names, in plain arithmetic, and that a negative index names the element one axis length higher |
| ArrayStore.SpliceContents | python/dsm.py:233-241 | writing one element changes that entry of its array's map and no other entry of any array |
| ArrayStore.ItemRefines | python/dsm.py:223-241 | one get, set or prefetch over the cache is one operation on independent maps, error cases included |
| ArrayStore.ArraysAreMaps | python/dsm.py:182-241 | any interleaving of operations on several arrays is a run of independent maps, through evictions and failures |
| ArrayGrowth.ContextIsMaps | python/dsm.py:115-241 | any interleaving of making arrays with operations on them is a run of independent maps, and a new array holds what the client saw in its pages at the start |
| ArrayContext.ArrayContext.constructor | python/dsm.py:88-99 | a fresh context over a valid pager, with no array |
| ArrayContext.ArrayContext.AllocPages | python/dsm.py:115-126 | hands out the next range, or fails without effect when closed or out of pages |
| ArrayContext.ArrayContext.NewArray | python/dsm.py:182-201 | a new array overlaps no earlier one; refused exactly when closed or too large |
| ArrayContext.ArrayContext.Get | python/dsm.py:223-231 | the method is the get of the array model |
| ArrayContext.ArrayContext.Set | python/dsm.py:233-241 | the method is the set of the array model |
| ArrayContext.ArrayContext.ToNumpy | python/dsm.py:250-284 | returns every element in order and changes no view; fails only on a closed context or a failed writeback or fetch |
| ArrayContext.ArrayContext.FromNumpy | python/dsm.py:287-323 | on success the new array holds exactly the values, and no other array has changed; fails only on a closed context, an array too large or without elements, or a failed writeback or fetch |
| Stream.SendFull | src/dsm_common.c:35-55 | always a prefix of the buffer is out, all of it exactly on success, under any schedule |
| Stream.RecvFull | src/dsm_common.c:57-77 | the next bytes of the stream, exactly as many as asked on success, none lost |
| Stream.Advance | src/dsm_common.c:96-106 | the inner loop drops exactly the written bytes from the vector list, in place |
| Stream.SendVectors | src/dsm_common.c:79-110 | always a prefix of the gathered bytes; succeeds exactly when all are out, unless the last vector is empty, when it always fails |
| Stream.DeliversExactly | src/dsm_common.c:35-77 | bytes get through exactly if, up to some call, every call moves something or is interrupted and what they move adds up |
| Stream.SteadyDelivers | src/dsm_common.c:35-77 | a schedule that keeps moving delivers, using at most one call a byte |
| Rpc.HeaderLayout | src/dsm_common.c:27-33 | the header is the operation, three zero bytes and the page id |
| Rpc.RequestCodes | include/dsm_protocol.h:14-18 | the codes of GET, PUT and ACK on the wire |
| Rpc.RequestsRoundTrip | src/dsm_server.c:135-161 | requests written one after the other on a stream are read back as the same requests |
| Rpc.PageServer.ReadRequest | src/dsm_server.c:136-161 | reads exactly the next request, header and data, or fails only if the stream or schedule does |
| Rpc.PageServer.Respond | src/dsm_server.c:140-179 | local serve from storage with or without a cluster, forward, zero page, acknowledgement or giving up, with the effect on storage |
| Rpc.PageServer.HandleClient | src/dsm_server.c:135-180 | a prefix of the requests is handled in order and a prefix of the replies sent; all of them when transfers keep moving |
| RpcClient.RpcGet | src/dsm_common.c:136-144 | sends one GET and returns the next page of the reply stream; succeeds exactly if both transfers do |
| RpcClient.RpcGetBatch | src/dsm_common.c:146-162 | sends all GETs and cuts the reply stream into as many pages; succeeds exactly if every header gets out, the stream holds the pages and each gets in |
| RpcClient.RpcGetEach | src/dsm_common.c:136-144 | as many single calls succeed exactly when the batch does, and return the same pages |
| RpcClient.RpcPut | src/dsm_common.c:164-180 | sends header and page, and succeeds exactly if an acknowledgement comes back |
| RpcClient.BatchReplies | src/dsm_server.c:142-158 | the server answers a pipelined batch with the concatenation of the single replies |
| RpcClient.BatchEqualsSingles | src/dsm_common.c:146-162 | against the server's loop over the bytes it sent, a batch succeeds whenever the transfers get through, returns the pages single calls are answered with, and leaves nothing in the stream |
| RpcClient.PutMeansStored | src/dsm_common.c:164-180 | against the server's loop a PUT succeeds exactly if the transfers get through and the page was stored there or its forward accepted |
| RpcClient.RepliesNext | src/dsm_server.c:140-178 | the bytes that follow each request, with or without a cluster: the page last put, the page fetched or zeros; an acknowledgement or the end of the connection; nothing for an unknown code |
| RpcClient.LoneServerReplies | src/dsm_server.c:140-158 | a server without a cluster answers a GET with the page last put there, and beyond its storage with zeros |
| RpcClient.AliveExactly | src/dsm_server.c:163-175 | a connection is given up exactly at a PUT that can be neither stored nor forwarded |
| RpcClient.ServedPageIsLastPut | src/dsm_server.c:159-179 | after any requests on a living connection a page the server holds is the last one put there |
| GossipCodec.HeaderFields | include/dsm_gossip.h:16-25 | the place of every header field in the 36 bytes |
| GossipCodec.NodeFields | include/dsm_gossip.h:27-37 | the place of every field of a node entry in its 40 bytes |
| GossipCodec.NodeBytes | include/dsm_gossip.h:27-37 | any 40 bytes decode to an entry that encodes to them |
| GossipCodec.ParseEncode | src/dsm_gossip.c:95-120 | parsing a sent message, with anything behind it in the buffer, returns the message |
| GossipCodec.EncodeParse | src/dsm_gossip.c:95-120 | re-encoding any accepted buffer gives its first 36 + 40n bytes |
| GossipCodec.TruncatedRejected | src/dsm_gossip.c:98-112 | every strict prefix of a message is rejected |
| Membership.WireRoundTrip | src/dsm_gossip.c:32-58 | conversion keeps every field but the time of last sight, and the padding |
| Membership.EntriesCarried | src/dsm_gossip.c:60-93 | a PING lists nothing, a JOIN its sender, a PONG the first entries of the table, up to 16 |
| Membership.MergeKeeps | src/dsm_cluster.c:65-91 | a merge keeps ids distinct and within capacity, indices fixed, incarnations from falling |
| Membership.OwnerExactly | src/dsm_cluster.c:319-334 | a page has an owner exactly if some entry that is not DEAD, be it SUSPECT, covers it |
| Membership.OwnerIsFirst | src/dsm_cluster.c:319-334 | the owner is the first such entry |
| Membership.PingedExactly | src/dsm_cluster.c:226-238 | from any index on a peer is pinged exactly if it is not dead and fewer such peers precede it than there is room for |
| Membership.FirstThreePinged | src/dsm_cluster.c:226-238 | the heartbeat pings a peer exactly if it is not DEAD, be it SUSPECT, and fewer than three such peers precede it |
| Membership.ClusterState.constructor | src/dsm_cluster.c:117-128 | the table of a new node is its own entry at index 0 |
| Membership.ClusterState.FindById | src/dsm_cluster.c:55-63 | the first index with an id, or -1 exactly if there is none |
| Membership.ClusterState.MergeNode | src/dsm_cluster.c:65-91 | the in-place merge is the merge of the model |
| Membership.ClusterState.HandleGossip | src/dsm_cluster.c:146-166 | a message merges its sender and then each listed node, each at the time then read |
| Membership.ClusterState.BuildPong | src/dsm_gossip.c:69-82 | the PONG lists the first 16 entries of the table |
| Membership.ClusterState.Tick | src/dsm_cluster.c:208-219 | the aging loop ages every entry but the node's own |
| Membership.ClusterState.PingTargets | src/dsm_cluster.c:223-239 | the ping loop picks exactly the peers that are not DEAD with fewer than three such before them |
| Membership.ClusterState.GetOwner | src/dsm_cluster.c:319-334 | the first entry that is not DEAD and covers the page, which there is exactly if some entry does |
| FailureDetector.TableInvariants | src/dsm_cluster.c:65-91 | over every run of mentions and ticks the table stays distinct, within capacity, index-stable and incarnation-monotone |
| FailureDetector.DeadExactlyAfterTimeout | src/dsm_cluster.c:204-219 | aging marks only suspects dead; it does so more than the timeout after every mention if and only if the tick's clock is not behind the entry's, or there was no mention |
| FailureDetector.DeadOnlyAfterTimeout | src/dsm_cluster.c:204-219 | so with clocks in order an entry is marked dead only more than the timeout after every mention at its incarnation |
| FailureDetector.SilentExactly | src/dsm_cluster.c:204-219 | the state of a peer nobody mentions, after any events: alive until a tick past half the timeout, dead if and only if a tick past the timeout has followed such a tick |
| FailureDetector.SilentPeerDies | src/dsm_cluster.c:204-219 | so an unmentioned peer is dead after a tick past half the timeout and one past the whole |
| FailureDetector.AliveSparedExactly | src/dsm_cluster.c:206-217 | exactly when a tick leaves a live entry alone, in 64-bit unsigned arithmetic |
| FailureDetector.SuspectSparedExactly | src/dsm_cluster.c:206-219 | exactly when a tick leaves a suspect alone, in 64-bit unsigned arithmetic |
| FailureDetector.FreshSuspectDies | src/dsm_cluster.c:206-219 | a suspect mentioned just after the tick read its clock is dead at once |
| FailureDetector.FreshPeerSuspected | src/dsm_cluster.c:206-217 | an entry refreshed just after the tick read its clock becomes a suspect |
| FailureDetector.EchoesKeepAlive | src/dsm_cluster.c:81-85 | mentions by others at gaps of at most half the timeout keep a silent peer alive for any length of time |
| MergeOrder.MergeAllSettles | src/dsm_cluster.c:55-91 | after any list of merges each id has the highest incarnation said, its data, and is alive exactly if some entry at it was |
| MergeOrder.OrderIndependent | src/dsm_cluster.c:55-91 | any two orders of the same entries give the same ids, incarnations, aliveness and ranges |
| MergeOrder.FirstStateWins | src/dsm_cluster.c:65-91 | after any list of merges an entry has the data of the first entry at its, the highest, incarnation, and that one's state unless some entry at it was alive |
| MergeOrder.OrdersAgreeExactly | src/dsm_cluster.c:65-91 | two orders agree on a state exactly if some entry at the highest incarnation is alive or the first ones at it have the same state |
| ClusterSystem.MergeTruth | src/dsm_cluster.c:65-91 | merging a truthful entry keeps a table truthful and its own entry alive at index 0 |
| ClusterSystem.PongGenuine | src/dsm_gossip.c:69-83 | what a node sends parses, as bytes, to a truthful message |
| ClusterSystem.PeerIsEntry | src/dsm_cluster.c:345-378 | a connection for a table entry, cached or new, leads to that entry's node exactly if it runs |
| ClusterSystem.ServerOwns | src/dsm_cluster.c:380-404 | whoever serves a page or is written to, after any number of forwards, is configured to own it |
| ClusterSystem.NextOk | src/dsm_cluster.c:146-243 | every step of the cluster keeps all tables, connections, storages and datagrams in order |
| ClusterSystem.BehaveOk | src/dsm_cluster.c:93-404 | so does every run |
| ClusterTables.TableIsRun | src/dsm_cluster.c:146-219 | in every run of the cluster a node's table is the run of its own mentions and ticks, so all results on event sequences hold of it |
| ClusterRouting.OwnershipAgreement | src/dsm_cluster.c:319-334 | at any node of any run the owner looked up is the one configured owner, or nobody |
| ClusterRouting.MessagesTellTheTruth | src/dsm_gossip.c:19-93 | every datagram ever in flight carries true ranges and ports, an address of the node it speaks of, and incarnation 1 |
| ClusterHistory.MembershipEvolves | src/dsm_cluster.c:345-378 | from any point of a run on, indices keep their ids and connections, broken ones stay broken and stuck ones do not mend, and a node's own entry stays alive |
| ClusterRouting.OneHop | src/dsm_cluster.c:380-404 | a page within its owner's storage is reached in at most one forward from any node that knows the owner over a sound connection, and a connection that is there cannot be refused |
| ClusterRouting.OwnerForwardsToItself | src/dsm_server.c:140-175 | a page beyond its owner's storage is forwarded by the owner to itself, and then never answered unless that connection is refused or breaks |
| ClusterRouting.ServedExactlyIfStored | src/dsm_server.c:140-175 | a running owner serves a page exactly if its storage covers it |
| ClusterRouting.AnsweredExactly | src/dsm_server.c:140-178 | a request is served from storage exactly if a running node whose range and storage cover the page is the one asked, or is listed by it as not dead over a sound connection |
| ClusterRouting.UnansweredExactly | src/dsm_server.c:135-178 | a request is never answered exactly if it goes out over a stuck connection, or its page lies beyond the storage of a running owner that is the node asked or one it knows and that waits for itself or, for a PUT, gives up |
| ClusterMemory.GetReturnsMemory | src/dsm_server.c:142-158 | a GET returns the cluster's memory exactly if it can be served so, or the page is zero and there is a reply; there is none exactly if the request is never answered, and any other reply is zeros |
| ClusterMemory.GetSucceeds | src/dsm_server.c:142-158 | with ranges that fit their storage, a GET at any node that knows the owner succeeds over working links |
| ClusterMemory.SuspectStillServes | src/dsm_cluster.c:323-330 | while the entry for a running owner is SUSPECT, GETs for its pages return the memory and PUTs are stored and acknowledged |
| ClusterMemory.NextMemory | src/dsm_server.c:159-179 | the cluster's memory changes by stored PUTs at their page, and by nothing else |
| ClusterMemory.GetReturnsLastPut | src/dsm_server.c:135-179 | in every run a GET through any node returns the last page put through any node exactly if somebody can answer it, or that page is zero and there is a reply |
| ClusterMemory.UnheardOwnerReadsZeros | src/dsm_server.c:149-153 | two nodes start, a page is put through its owner, and a GET at the other is answered with zeros whatever the network does |
| ClusterHangs.HealthExactly | src/dsm_cluster.c:345-404 | what a forward leaves of its connection: there is one exactly if there was or a new one was not refused; it is broken exactly if it was or the link broke, stuck exactly if the request is never answered |
| ClusterHangs.BeyondStorageNoReply | src/dsm_server.c:149-153 | a run: a node started with a range beyond its storage never answers a GET or a PUT for a page there |
| ClusterHangs.HangSpreads | src/dsm_cluster.c:359-359 | after one forwarded GET that is never answered, the next GET at that node, for a page the owner holds, is not answered either |
| ClusterHangs.OneHangIsForever | src/dsm_cluster.c:345-404 | after a forward that is never answered no later request at that node for any page of that owner is served, acknowledged or stored |
| ClusterHangs.OneBreakIsForever | src/dsm_cluster.c:345-404 | after a forward met a broken link, every later GET at that node for a page of that owner is answered with zeros and every later PUT fails unstored |
| ClusterMemory.AckMeansStored | src/dsm_server.c:163-178 | an acknowledged PUT is stored at the page's one owner |
| ClusterMemory.ForeignPagesStayZero | src/dsm_server.c:163-166 | storage outside a node's own range stays zero in every run |
| MutualRefresh.MutualRefresh | src/dsm_cluster.c:161-172 | two nodes that hear each other's PONGs often enough keep a third alive in both tables for the rest of the run |
| GossipReach.HearingTeaches | src/dsm_cluster.c:146-166 | a node with room that hears any datagram of a running owner knows it as the owner of all its pages |
| GossipReach.SenderRuns | src/dsm_gossip.c:60-93 | in every run the sender of a datagram is a running node |
| GossipReach.AnsweredWithPong | src/dsm_cluster.c:168-173 | a PING or a JOIN is answered with a PONG from the merged table, and a PONG with nothing |
| GossipReach.PingIsAnswered | src/dsm_cluster.c:168-173 | delivering a running node's PING or JOIN puts the receiver's PONG in flight, and delivering its PONG nothing |
| GossipReach.HeardOwnerAnswers | src/dsm_server.c:142-158 | once a node has heard an owner in a run, a GET there over a sound link returns the page last put |
| GossipReach.OneGetSilencesOwner | src/dsm_server.c:149-153 | a run of five steps in which a node that has heard an owner asks it for one page beyond its storage and gets no more of its good pages |
| FalseDeath.RefreshedExactly | src/dsm_cluster.c:146-166 | a datagram refreshes exactly the entries of the nodes it speaks of and leaves the others as they are |
| FalseDeath.SpokenOfExactly | src/dsm_gossip.c:60-93 | a PING or JOIN speaks of its sender alone, a PONG also of the first 16 entries of its sender's table |
| FalseDeath.UnspokenExactly | src/dsm_cluster.c:204-219 | in every run the state of a peer that no datagram heard speaks of is what its last mention and the heartbeats make of it |
| FalseDeath.FalseDeath | src/dsm_cluster.c:204-219 | such a peer, running or not, is dead after two late heartbeats, and GETs for its pages are answered with zeros |
| FalseDeath.SentSometime | src/dsm_gossip.c:60-93 | every datagram in flight is the PING, JOIN or PONG of some node at some point of the run |
| FalseDeath.PastSixteenIsUnspoken | src/dsm_gossip.c:69-83 | a node that sends nothing and stands past the sixteenth entry in every table heard from is not spoken of |
| ServerNode.LoopAnswersGet | src/dsm_server.c:142-158 | the request loop answers a GET with the cluster's reply, through any chain of forwards, and never if its forward never returns |
| ServerNode.LoopAnswersPut | src/dsm_server.c:159-179 | the request loop acknowledges a PUT exactly when the cluster does |
| ClientCluster.StackStepLinks | src/dsm_paging.c:33-191 | client operations and cluster steps keep all invariants of both, whatever becomes of the client's own connection and of those between nodes |
| ClientCluster.WrittenBackMemory | src/dsm_paging.c:46-53 | a writeback changes the cluster's memory at its page exactly if it reaches the node and is stored, whatever the client is told |
| ClientCluster.WaitingSeesNothing | src/dsm_paging.c:164-174 | an operation that does not return changes nothing the client sees |
| ClientCluster.FetchedFromCluster | src/dsm_paging.c:164-174 | a page brought into the cache, fetched or prefetched, holds the bytes the client's node replied with |
| ClientCluster.RepliesExactly | src/dsm_server.c:142-158 | among the GETs of one operation, each is answered with the cluster's memory exactly if its turn comes and somebody can answer it then, or the page is zero and there is a reply |
| ClientCluster.EventFlatExactly | src/dsm_paging.c:33-191 | an operation is a step of the flat memory the client sees if and only if every page it brought in was zero or could be answered |
| ClientCluster.ClusterClientIsFlat | src/dsm_paging.c:33-191 | a run of the client over the cluster is, event by event, a run of one flat memory if and only if every page it fetched was zero or had a running owner with storage for it that the client's node is or can reach |
| ClientCluster.WritebackFate | src/dsm_paging.c:46-53 | a miss that must send its victim fails if the client's connection fails on the PUT or its acknowledgement, and does not return if the PUT is not acknowledged on a connection that holds |
| ClientCluster.FlatThroughoutIsFlatRun | src/dsm_paging.c:33-191 | the operations and outputs of such a run are a run of the memory the client first saw |
| ClientCluster.NewStackCoupled | src/dsm_paging.c:193-236 | a new client of a cluster at any point of any run, the empty one included, starts with nothing it has wrong |
| ClientCluster.MissShowsReply | src/dsm_paging.c:164-190 | a miss that gets through shows the client the node's reply, whatever it is, and does not return if there is none |
| ClientCluster.LostRead | src/dsm_server.c:149-153 | with any two nodes: a client at one reads a page put through the other, unheard, owner and is handed zeros without an error |
| ClientCluster.HungRead | src/dsm_server.c:149-153 | a client of a node with a range beyond its storage reads a page there, and its call does not return |
| ClientCluster.LostReadHappens | src/dsm_server.c:149-153 | one such run of each kind with all its values: a page of ones is put and zeros are read; a read does not return |

## Left out

- Socket setup, connecting and retrying, the accept loop and its reaping of client threads, signals, memory mapping, configuration parsing and logging.
- The order of instructions inside a handler, and the unlocked sharing of `peer_fds` by client threads: each handler and each forward is one step.
- Random generation of node ids: ids are distinct, and each has one configured range and endpoint.
- `dsm_destroy_context` and the state of the server after it: dirty pages are not written back.
- Several clients of the same pages: there is no coherence protocol.
- Contents in in-memory mode: there is no backing store; bookkeeping and clock results cover this mode.
- ctypes conversions and element types: an element is a chunk of 1, 4 or 8 bytes.
- The joining retry loop and the gossip interval; in the transition system a node may ping at any time.
- AccessKeeps: the 64-bit counters are unbounded numbers, so their wrap-around is not modelled.
- Context: local memory is an array of pages, and a frame pointer is its index.
- SecondChance: counts hand advances in a history variable, `ticks`, that the program does not have.
- HandleClient: the flag that stops the server and the served, written and forwarded counters are not modelled.
- BehaveOk: a datagram may reach any node, not only its addressee, and a node that has started keeps running: stopping, and restarting under the old id, are not modelled.
- MessagesTellTheTruth: the address a datagram is seen to come from is one at which its sender listens, besides the one the sender gives itself.
- OneHangIsForever: a wait is not ended by what happens later, such as the break of a connection further on or the closing of finished connections once all client slots are taken.
- MutualRefresh: the clock read by a step is not behind the times in its node's table, nor a later reading behind the first.
- FromNumpy: elements are written in row-major order.
- ClusterClientIsFlat: the client is the only one that writes; its connection fails as the outcomes of its operations say, and may work again after a failure.
- StepKeeps: a store through a pointer whose page has been evicted since is not modelled; PointerStays says how long a pointer lasts.
