# GeeRPC, GeeCache and GeeORM: models and proofs

Dafny models of three small Go systems, with proofs of what they promise.

**GeeRPC** is an RPC client and server over one connection. The client's
goroutines (senders, one receive loop, timeouts, Close) share a table of
pending calls behind two mutexes; the server answers each request from its own
goroutine, which races a timer. Both are labelled transition systems with one
action per section that the source runs under a lock (`rpc_client.dfy`,
`rpc_server.dfy`), and `rpc_system.dfy` runs the two together over FIFO wires
that may break. `rpc_client_object.dfy` has the Client as a class whose methods
are proved to be runs of that system; `rpc_stream.dfy` is about which requests
a server with unknown methods still sees. `rpc_client_history.dfy` and
`rpc_server_history.dfy` trace the states of the two back to what happened.

**GeeCache** is a distributed read-through cache. `lru.dfy` is the cache with
its list, map and byte counter, refining the recency lists of `recency.dfy`;
`lru_stack.dfy` compares caches of different sizes on the same trace;
`group.dfy` is one node without peers. `singleflight.dfy` is the protocol that
runs one load per key. `consistent_hash.dfy` is the hash ring and
`http_pool.dfy` the choice of a peer by it. `cluster.dfy` runs any number of
Gets on any number of nodes, `cluster_history.dfy` says what their caches do and where
their requests come from, `cluster_progress.dfy` how the Gets come to an end, and
`cluster_ring.dfy` gives the nodes their rings.

**Registry and discovery**: `registry.dfy` (servers that send heartbeats, pruned
lazily), `strings.dfy` (the list as a header), `gee_discovery.dfy` (the client's
timed copy of it), `discovery.dfy` (round robin) and `broadcast.dfy` (one call
to every server).

**GeeORM**: `migrate.dfy` (schema migration in a transaction), and `binding.dfy`,
`generator.dfy` and `clause.dfy` (SQL text whose placeholders have to match
the variables).

`wrappers.dfy`, `rpc_types.dfy` and `sorting.dfy` hold what several of these share.

How the concurrent parts are written: `Enabled(s, a)` says when an action can be
taken, `Apply(s, a)` what it does, `Reaches(s, run, s')` that a list of actions
leads from one state to another. `Inv` is kept by every action, and the main
results are about every run from `Init`.

What the code does not keep in every case, each with the exact condition under
which it does:

- A reply may be another than the method's: a method that fails with an empty
  error text is taken for a success (`RpcSystem.EmptyErrorReadAsSuccess`,
  `RpcSystem.RepliesAreOwnIff`).
- A server does not see every request: the body of a request for an unknown
  method is left in the stream, which ends the connection for all that follow,
  or passes for a request itself (`RpcStream.AllServedIff`,
  `RpcStream.LeftoverTakenForRequest`).
- Nodes need not agree on owners, and two of them may forward a key to each
  other and lock up, since peer lists come in any order and a shared ring point
  goes to the later peer (`HttpPool.NodesAgreeIff`, `HttpPool.OneHopIff`,
  `ClusterRing.NeverStuckIff`).
- A VALUES clause writes all rows' placeholders for the width of the first row
  that has values (`Generator.ValuesReadIff`).
- A migration that drops columns fails if a table with the temporary name
  exists (`Migrate.CanMigrate`, `Migrate.Engine.Migrate`).

Where code and comments disagree, the code is followed: Broadcast waits for all
servers, though `geerpc/xclient/xclient.go:88` says that it returns at the first
success; and Heartbeat stops at its first failure, though
`geerpc/registry/registry.go:112` says that it retries.

## Model

| member | source | states |
|---|---|---|
| `RpcClient.StepKeepsInv` | geerpc/client.go:80-154 | Each atomic step of any sender, receive loop, timeout or Close keeps linear ownership: a registered call is in exactly one of pending, the receiver's hand, its failing sender's hand or the past, and none only after its own timeout |
| `RpcClient.RunKeepsInv` | geerpc/client.go:80-154 | The same over any interleaving of any length |
| `RpcClient.CompletedAtMostOnce` | geerpc/client.go:102-116 | In every reachable state every issued call has had `done` at most once, whatever the server sends |
| `RpcClient.AllSettledAfterTermination` | geerpc/client.go:103-116 | When terminateCalls is over and nobody is in `send`, a call whose Go has returned was completed exactly once; a call without completion was removed by its own timeout or has not registered |
| `RpcClient.CompletionNeverBlocks` | geerpc/client.go:29-31 | Any step that sends on a Done channel finds it empty, with room for ten, and the call without an error: `done` never blocks a goroutine that holds a mutex |
| `RpcClient.HolderCanStep` | geerpc/client.go:103-116 | Lock order `sending` then `mu`: whoever holds `sending` always has an enabled step, which brings the release nearer |
| `RpcClient.OthersDoNotDelayHolder` | geerpc/client.go:245-270 | No step of another goroutine takes `sending` away or puts its release further off |
| `RpcClient.MuImpliesSending` | geerpc/client.go:105-108 | `mu` is kept across steps only inside terminateCalls, which then holds `sending` too and has set `shutdown` |
| `RpcClient.OnlyItsTimeoutDropsACall` | geerpc/client.go:291-304 | The only step after which nobody owns a call that was not completed is that call's own timeout, while it was pending |
| `RpcClient.UnregisteredTimeoutRemovesNothing` | geerpc/client.go:295-297 | A timed-out call that never registered removes sequence number 0, which no call has: pending is unchanged |
| `RpcClientHistory.EveryEndHasItsCause` | geerpc/client.go:119-154 | In every run each call has the method and arguments it was issued with, and each way to end has its own cause: a reply or a server's error text only with a header of its number that carried it, BodyError with an unreadable body, WriteError with its failed write, ConnectionError with a broken connection, and ErrShutdown exactly for calls without a number |
| `RpcClientHistory.NothingRegisteredAfterClose` | geerpc/client.go:60-85 | After Close, however the run goes on, no call gets a number; one issued later can end with ErrShutdown only |
| `RpcClientHistory.TimeoutTakesItsCallAway` | geerpc/client.go:295-297 | From its timeout on, however the run goes on, a call is pending under no number |
| `RpcClientObject.ClientObject.constructor` | geerpc/client.go:171-176 | A new client is the protocol's initial state, its sequence numbers starting at 1 |
| `RpcClientObject.ClientObject.CloseConnection` | geerpc/client.go:60-70 | The Close step; ErrShutdown exactly when it was closed before |
| `RpcClientObject.ClientObject.RegisterCall` | geerpc/client.go:80-90 | The Register step: ErrShutdown exactly on a closed or shut-down client, otherwise the call is pending under the number returned |
| `RpcClientObject.ClientObject.RemoveCallBySeq` | geerpc/client.go:93-100 | Returns the call that was pending under the number, if any, and removes just that entry |
| `RpcClientObject.ClientObject.Send` | geerpc/client.go:245-270 | `send` is a run of the protocol; the call ends with ErrShutdown, WriteError or no error as the branch taken says, is pending exactly when the write succeeded, other calls are untouched and `sending` is free again |
| `RpcClientObject.ClientObject.Transmit` | geerpc/client.go:256-269 | The part after registration: header filled, written, and the call taken back and failed when the write fails |
| `RpcClientObject.ClientObject.TerminateCalls` | geerpc/client.go:103-116 | A run of the protocol that fails and completes every pending call with the error, leaves every other call and `pending` itself as they were, and releases the lock |
| `RpcClientObject.ClientObject.CompletePendingCalls` | geerpc/client.go:112-115 | The loop: exactly the pending calls get the error and one completion |
| `RpcClientObject.ClientObject.ReceiveOne` | geerpc/client.go:123-151 | One turn is a run of the protocol; only the call that the header names, if still pending, changes: it is completed once more, with the server's text, with BodyError, or with the reply and no new error, as the header's error and the body say |
| `RpcClientObject.ClientObject.Receive` | geerpc/client.go:119-154 | The whole receive loop over any inbox is a run of the protocol that ends shut down, with every call still waited for completed exactly once |
| `RpcClientObject.RunsCompose` | geerpc/client.go:123-153 | Runs of consecutive turns compose to one run |
| `RpcServer.StepKeepsInv` | geerpc/server.go:103-128 | Every step of reader, handlers, workers and timers keeps: the WaitGroup counts the unfinished handlers, each request has the responses its handler and worker have sent, and each response explains its request |
| `RpcServer.RunKeepsInv` | geerpc/server.go:103-128 | The same over any interleaving |
| `RpcServer.AtMostOneResponse` | geerpc/server.go:187-222 | No request ever has two responses; each echoes its request's Seq and says the method's result, the lookup or body error, or the timeout (only with a timeout set) |
| `RpcServer.EveryRequestAnsweredAtClose` | geerpc/server.go:125-127 | When the codec is closed every request that was read has its response, whichever side of the select won |
| `RpcServer.NothingWrittenAfterClose` | geerpc/server.go:125-127 | After the close no run adds a response |
| `RpcServer.TimedOutWorkerNeverWrites` | geerpc/server.go:192-216 | Once the timer has won, the worker stays blocked on `called` for good and the request's response is the timeout error |
| `RpcServer.TaskStepsRunOut` | geerpc/server.go:187-222 | Every step of a handler or worker lessens a measure: none of them goes on for ever |
| `RpcServer.DrainingNeverStuck` | geerpc/server.go:125-127 | While the reader waits for the handlers, one of them or its worker can step, or the close is due: wg.Wait is never stuck |
| `RpcServerHistory.RequestsAreThoseThatArrived` | geerpc/server.go:108-124 | The requests that the server deals with are those that arrived, in that order |
| `RpcServerHistory.ReaderStopsOnlyFor` | geerpc/server.go:109-118 | The reader stops only for a header it cannot read or a method it does not know |
| `RpcServerHistory.ReadsOnAfterBadBody` | geerpc/server.go:171-174 | A request whose body does not decode is refused, and the next one is read and handled |
| `RpcServerHistory.EitherSideCanWin` | geerpc/server.go:206-221 | A request that can be handled can be answered by its method's result, and with a timeout set by the timeout error |
| `RpcStream.LastDot` | geerpc/server.go:240-244 | The last dot, or -1 without one |
| `RpcStream.FoundIff` | geerpc/server.go:238-261 | A method is found exactly for a registered service, a dot and one of its methods, of a name without a dot; so none without a dot |
| `RpcStream.FindsExactlyRegistered` | geerpc/server.go:238-261 | `service.method` is found exactly when that service is registered with that method, dots in the service name included |
| `RpcStream.Serve` | geerpc/server.go:103-124 | The loop over the values of a connection, which leaves the body of an unknown method unread, acts on exactly the headers of the specification |
| `RpcStream.ServedUpToFirstUnknown` | geerpc/server.go:154-176 | Of what a client sends, the requests up to and including the first for an unknown method are acted upon, and after them whatever its body and what follows decode as |
| `RpcStream.AllServedIff` | geerpc/server.go:160-163 | All requests and nothing else are acted upon exactly when none but the last names an unknown method, and the last one's body, if it does, is no header |
| `RpcStream.LeftoverTakenForRequest` | geerpc/server.go:160-163 | A body that is left behind and decodes as a header is taken for a request that nobody sent |
| `RpcStream.ServerFollowsStream` | geerpc/server.go:103-124 | In every run the requests that the server has read are the first of those that the stream serves |
| `RpcSystem.StepKeepsInv` | geerpc/client.go:245-268 | Client and server over FIFO wires: each step keeps that every request in flight is its sender's own and every ended call ended with its own answer |
| `RpcSystem.RunKeepsInv` | geerpc/client.go:119-154 | The same over any run of the two together |
| `RpcSystem.RepliesAreOwn` | geerpc/client.go:256-268 | A call that completes without error carries the result of its own method on its own arguments, in whatever order handlers answer and calls time out |
| `RpcSystem.RemoteErrorsAreOwn` | geerpc/client.go:136-140 | An error text from the server is about that call's own request: unknown method, unreadable body, timeout, or its method's own error |
| `RpcSystem.OtherErrorsAreOwn` | geerpc/client.go:136-149 | A call ends with BodyError only if its method is registered and had succeeded, and with ErrShutdown exactly if it has no number |
| `RpcSystem.EmptyErrorReadAsSuccess` | geerpc/client.go:136-149 | Concrete run: a method that fails with an empty text is reported to its caller as a success |
| `RpcSystem.RepliesAreOwnIff` | geerpc/client.go:130-150 | No run ends a call with a reply that is not its own exactly when every error of a registered method has a text |
| `Recency.FitIsLongest` | geecache/geecache/lru/lru.go:83-86 | What eviction leaves is the longest prefix of the recency list that fits: a prefix fits exactly if it is no longer |
| `Recency.FitIsUnique` | geecache/geecache/lru/lru.go:83-86 | And it is the only prefix that fits and cannot be extended |
| `Recency.StaysIff` | geecache/geecache/lru/lru.go:84-84 | The n most recent entries stay exactly if together they have no more bytes than the limit; without one all stay |
| `Recency.SizeCountsKeysAndValues` | geecache/geecache/lru/lru.go:81-81 | The bytes are those of all keys and values |
| `Recency.KeptAndDropped` | geecache/geecache/lru/lru.go:50-64 | Conservation: what is kept followed by what was evicted, in reverse, is the list before eviction |
| `Recency.SizeWithoutAt` | geecache/geecache/lru/lru.go:58-58 | Removing an entry takes exactly its own cost off the byte count |
| `Lru.LinkedOncePerKey` | geecache/geecache/lru/lru.go:7-15 | No key is in the list twice, as list and map hold the same elements and equally many |
| `Lru.LookupInList` | geecache/geecache/lru/lru.go:40-47 | The map answers for every key as a search of the list would |
| `Lru.MovedEntries` | geecache/geecache/lru/lru.go:42-42 | Moving an element to the front is making its key the most recent, at no cost in bytes |
| `Lru.Cache.Get` | geecache/geecache/lru/lru.go:40-47 | Returns the cached value and makes the key the most recent; list, map and counter stay consistent |
| `Lru.Cache.Replace` | geecache/geecache/lru/lru.go:69-74 | An existing key is moved to the front with the new value, and the counter stays the sum of all costs |
| `Lru.Cache.PushFront` | geecache/geecache/lru/lru.go:76-81 | A new key goes to the front of the list and into the map, and the counter stays the sum of all costs |
| `Lru.Cache.Add` | geecache/geecache/lru/lru.go:67-87 | Leaves exactly the longest fitting prefix of the updated recency list and reports the rest back to front |
| `Lru.Cache.EvictUntilFits` | geecache/geecache/lru/lru.go:84-86 | The eviction loop terminates, because an empty list has no bytes, with what fits |
| `Lru.Cache.RemoveOldest` | geecache/geecache/lru/lru.go:50-64 | Removes and reports the least recent entry, and nothing from an empty cache |
| `LruStack.AccessCommutesWithFit` | geecache/geecache/geecache.go:63-74 | A read-through access of a bounded cache is the access of the unlimited one, cut to size |
| `LruStack.ContentsAreTheKeysRead` | geecache/geecache/geecache.go:63-74 | Without a limit, any sequence of reads leaves exactly the keys of the source that were read, with its values, ordered by their last read |
| `LruStack.ContentsIsFitOfUnlimited` | geecache/geecache/lru/lru.go:67-87 | After any trace a cache of any size holds the longest fitting prefix of the unlimited cache's list |
| `LruStack.StackInclusion` | geecache/geecache/lru/lru.go:40-87 | For any trace and any two limits, the smaller cache's recency list is a prefix of the larger one's |
| `LruStack.LargerCacheHitsMore` | geecache/geecache/lru/lru.go:40-47 | Every hit in the smaller cache is a hit in the larger one, with the same value |
| `Group.LocalGroup.Cached` | geecache/geecache/cache.go:25-36 | Lookup in the cache that may not have been created yet, which then answers as an empty one |
| `Group.LocalGroup.Populate` | geecache/geecache/cache.go:14-23 | Creates the cache on first use with the group's limit and adds to it |
| `Group.LocalGroup.GetLocally` | geecache/geecache/geecache.go:106-118 | A key the source has is cached and returned; the source's error leaves the cache alone |
| `Group.LocalGroup.Get` | geecache/geecache/geecache.go:63-74 | A hit answers from the cache and moves the entry to the front; a miss answers from the source and puts the entry in front if it fits alone, else empties the cache; an empty or unknown key changes nothing; all as the read-through access of the stack-inclusion results |
| `Group.AnswerIsTheSources` | geecache/geecache/geecache.go:63-74 | After any trace of reads, with any limit, a Get answers the source's value, its error, or empty for the empty key |
| `ConsistentHash.Ring.Add` | geecache/geecache/consistenthash/consistenthash.go:38-48 | Appending, overwriting and sorting keep the sorted points and the owner map in step; the new points are exactly the hashes of a replica's number followed by a node's name, and the owners those of the specification |
| `ConsistentHash.ItoaIsDecimal` | geecache/geecache/consistenthash/consistenthash.go:42-42 | A replica's number is hashed as its decimal digits without a leading zero |
| `ConsistentHash.ReplicasDiffer` | geecache/geecache/consistenthash/consistenthash.go:42-42 | No two replicas of one node are hashed alike |
| `ConsistentHash.Ring.Get` | geecache/geecache/consistenthash/consistenthash.go:51-62 | The binary search with wrap-around returns the owner of the first ring point at or after the key's hash, or of the smallest; empty for an empty ring |
| `ConsistentHash.SearchFinds` | geecache/geecache/consistenthash/consistenthash.go:57-61 | Where the search stops, modulo the length, is the clockwise successor |
| `ConsistentHash.OwnerIsUnique` | geecache/geecache/consistenthash/consistenthash.go:51-62 | A hash has one owner only, so the clockwise specification determines Get |
| `ConsistentHash.HashingExample` | geecache/geecache/consistenthash/consistenthash_test.go:8-26 | The example of the repository's test: keys 2, 11, 23 and 27 on the points of 6, 4 and 2 |
| `ConsistentHash.AddedAt` | geecache/geecache/consistenthash/consistenthash.go:38-46 | A ring point belongs to the last added node that has it, or else to whoever had it before |
| `ConsistentHash.AddMovesKeysOnlyToNewNodes` | geecache/geecache/consistenthash/consistenthash.go:38-62 | After Add to a ring that is not empty each key keeps its owner or moves to a node just added, collisions included |
| `HttpPool.HTTPPool.Set` | geecache/geecache/http.go:132-145 | Rebuilds the ring from the peers alone and gives every owner on it a getter |
| `HttpPool.HTTPPool.PickPeer` | geecache/geecache/http.go:148-158 | The URL of the key's owner on the ring, and none exactly when there is no owner or this node is it |
| `HttpPool.RingPoint` | geecache/geecache/consistenthash/consistenthash.go:38-46 | The points of a pool's ring are those of its peers, each owned by a peer that has it |
| `HttpPool.KeyOfSharedPoint` | geecache/geecache/consistenthash/consistenthash.go:41-44 | A point that two peers share goes to whichever of them is listed last, whatever the order of the others |
| `HttpPool.NodesAgree` | geecache/geecache/http.go:132-158 | Nodes given the same peers in any order agree on every owner if no two peers share a ring point |
| `HttpPool.NodesAgreeIff` | geecache/main.go:69-72 | Nodes agree for all orders of the list, which here come from a map's iteration, exactly when no two peers share a ring point |
| `HttpPool.PeersBounce` | geecache/geecache/http.go:148-158 | Two peers that share a point have a key and two orders of the list with which each forwards that key to the other |
| `HttpPool.ForwardedIsServedLocally` | geecache/geecache/http.go:148-158 | Without shared points the node that a key is forwarded to serves it itself |
| `HttpPool.OneHopIff` | geecache/geecache/http.go:132-158 | Chains end after one hop for all orders of the list exactly when no two named peers share a ring point |
| `Singleflight.StepKeepsInv` | geecache/geecache/singleflight/singleflight.go:24-50 | Each section under the mutex keeps: an entry is there exactly while its leader is inside Do, and callers, calls and entries agree |
| `Singleflight.RunKeepsInv` | geecache/geecache/singleflight/singleflight.go:24-50 | The same over any interleaving of callers |
| `Singleflight.OneExecutionPerKey` | geecache/geecache/singleflight/singleflight.go:29-41 | In every reachable state at most one execution of fn per key is in flight |
| `Singleflight.LeaderDeletesItsOwnEntry` | geecache/geecache/singleflight/singleflight.go:44-47 | The entry a leader deletes is its own, and no other entry goes |
| `Singleflight.ResultIsWhatFnReturned` | geecache/geecache/singleflight/singleflight.go:33-50 | In every run, whoever returns for the key it asked for returns what the one execution of fn by its leader, which asked for that key, returned |
| `Singleflight.LeaderWasInside` | geecache/geecache/singleflight/singleflight.go:25-47 | That leader had looked up the map no later than the caller, and deleted its entry only after the caller's lookup, by their positions in the run |
| `Singleflight.EveryCallerCanGoOn` | geecache/geecache/singleflight/singleflight.go:24-50 | Whoever has not returned has an enabled step, or waits for a leader that has one, nearer to the end each time and whatever fn returns |
| `Singleflight.ResultIsFromOverlappingLeader` | geecache/geecache/singleflight/singleflight.go:29-34 | Whoever returns has the published result of a leader for the same key that was inside its Do when the caller looked up the map |
| `Singleflight.ResultIsFinal` | geecache/geecache/singleflight/singleflight.go:41-42 | Once published, a call's result never changes: all its joiners return the same |
| `Singleflight.JoinerIsNeverStuck` | geecache/geecache/singleflight/singleflight.go:33-42 | A waiting joiner can wake, or its leader has the enabled step that leads there |
| `Cluster.StepKeepsInv` | geecache/geecache/geecache.go:63-158 | Each step of any Get at any node, peer failures and evictions included, keeps answers, caches and flights right |
| `Cluster.RunKeepsInv` | geecache/geecache/geecache.go:63-158 | The same over any run of any number of Gets |
| `Cluster.EveryAnswerIsRight` | geecache/geecache/geecache.go:63-103 | Every Get that ends returns the source's value, or an error exactly for a key that the source lacks |
| `Cluster.EveryCachedEntryIsRight` | geecache/geecache/geecache.go:106-124 | Every cached entry equals the source, and a node that would forward the key caches it only after its peer failed it |
| `ClusterHistory.OthersKeysOnlyAfterPeerFailed` | geecache/geecache/geecache.go:86-96 | A node has cached a key that it would forward only if in this run a peer that it had asked for that key failed |
| `ClusterHistory.LoadCaches` | geecache/geecache/geecache.go:106-124 | A load puts the source's entry in front of its node's cache if it fits there alone, and empties the cache if not |
| `ClusterHistory.CachedKeyIsServed` | geecache/geecache/geecache.go:68-71 | A Get for a cached key ends at its lookup with the cached value, and the entry moves to the front |
| `ClusterHistory.CachesStayWithinTheirLimits` | geecache/geecache/lru/lru.go:84-86 | In every run each node's cache stays within that node's limit |
| `ClusterHistory.RequestsAreAsTheyCame` | geecache/geecache/geecache.go:86-89 | Every request is for the key it arrived with at the node it came to, or for its parent's key at the peer that was picked |
| `Cluster.ChainsHaveOneHop` | geecache/geecache/geecache.go:86-95 | If owners serve their own keys, no forwarded request is forwarded again |
| `ClusterProgress.GetsNeverDeadlock` | geecache/geecache/geecache.go:82-103 | Then no Gets wait for each other in a circle: while a Get has not ended, it or one that it waits for (a leader it joined, the request it forwarded, or the leader that this one joined) has a step that is not a connection failure |
| `ClusterProgress.StepGetsNearer` | geecache/geecache/geecache.go:63-103 | Each step of a Get or of one it waits for takes it nearer to its end, and no other step, a new arrival included, takes it further away |
| `ClusterProgress.GetTakesFewSteps` | geecache/geecache/geecache.go:63-103 | Whatever the rest of the cluster does meanwhile, a Get has ended once it and those it waits for have made 13 steps |
| `ClusterProgress.GetCanFinish` | geecache/geecache/geecache.go:63-103 | From every reachable state a Get can be brought to its end by at most 13 such steps, without a connection failure |
| `ClusterProgress.BouncingPeersDeadlock` | geecache/geecache/geecache.go:82-103 | Two nodes that take each other for the owner lock up on one Get: the request comes back and joins the flight that waits for it |
| `ClusterRing.ForwardedOnce` | geecache/geecache/geecache.go:86-95 | With rings built by HTTPPool from the same peers without shared points, no forwarded request is forwarded again |
| `ClusterRing.OwnersServeThen` | geecache/geecache/http.go:148-158 | Such rings satisfy what Cluster asks of its nodes |
| `ClusterRing.SharedPointCanDeadlock` | geecache/main.go:69-72 | With a shared point there are orders of one and the same list for which a reachable state of the cluster is stuck |
| `ClusterRing.NeverStuckIff` | geecache/main.go:69-72 | No order of the nodes' peer lists lets a Get get stuck exactly when no two named peers share a ring point |
| `Registry.GeeRegistry.PutServer` | geerpc/registry/registry.go:40-51 | The pruned map goes on representing the heartbeat history, with this beat added |
| `Registry.GeeRegistry.AliveServers` | geerpc/registry/registry.go:54-72 | The lazily pruned map answers as the full history: sorted, each address once, listed if alive at the last clock reading, and only if alive at the first; the map is left with exactly those listed |
| `Registry.AnswerIsDetermined` | geerpc/registry/registry.go:54-72 | With one clock reading there is exactly one list that this specification allows |
| `Registry.LexIsTotalOrder` | geerpc/registry/registry.go:70-70 | The order of strings that the list is sorted by is total |
| `Registry.LexIsFirstDifference` | geerpc/registry/registry.go:70-70 | A string comes before those it begins, and otherwise the first different character decides |
| `Registry.SteadyServerStaysListed` | geerpc/registry/registry.go:58-68 | A server is alive at any time less than the timeout after one of its heartbeats, always if the timeout is 0 |
| `Registry.HeartbeatKeepsListed` | geerpc/registry/registry.go:105-123 | A server whose heartbeats keep coming is never missing if their period is below the timeout, or the timeout is 0 |
| `Registry.DefaultHeartbeatKeepsListed` | geerpc/registry/registry.go:105-109 | So it is with the default period and timeout |
| `Registry.SlowHeartbeatDropsOut` | geerpc/registry/registry.go:61-61 | With a period of the timeout or more a server drops out between two heartbeats |
| `Strings.SplitOfJoin` | geerpc/registry/registry.go:81-81 | Split undoes Join for addresses without commas |
| `Strings.SpaceCodes` | geerpc/xclient/discovery_gee.go:58-62 | The blanks are those of Latin-1, by their codes |
| `Strings.TrimTakesBlanksAway` | geerpc/xclient/discovery_gee.go:58-62 | Trimming takes all blanks around a text away and nothing else |
| `Strings.BlankPartVanishes` | geerpc/xclient/discovery_gee.go:58-62 | A part of blanks only is no server |
| `Strings.PaddedListArrives` | geerpc/xclient/discovery_gee.go:56-64 | Addresses with blanks around them in the header arrive without |
| `Strings.TransportIff` | geerpc/xclient/discovery_gee.go:56-64 | Join, split and trim recover a list, the empty one included, exactly when its addresses are not empty and have no comma and no surrounding blanks |
| `Discovery.MultiServersDiscovery.Update` | geerpc/xclient/discovery.go:51-56 | Replaces the list and leaves the index |
| `Discovery.MultiServersDiscovery.Get` | geerpc/xclient/discovery.go:62-81 | An error exactly for an empty list or an unknown mode; round robin takes the index modulo the length and advances it, random leaves it |
| `Discovery.PickPosition` | geerpc/xclient/discovery.go:74-77 | The j-th round-robin choice takes position (index + j) mod n, whatever uses come between |
| `Discovery.RoundRobinIsFair` | geerpc/xclient/discovery.go:62-81 | Of m round-robin choices each of n positions gets m/n, rounded down or up, from any index |
| `Discovery.FullRoundVisitsEachOnce` | geerpc/xclient/discovery.go:74-77 | Any n round-robin choices in a row take every position exactly once |
| `GeeDiscovery.GeeRegistryDiscovery.constructor` | geerpc/xclient/discovery_gee.go:20-30 | An empty list, never updated, and the default timeout for 0 |
| `GeeDiscovery.GeeRegistryDiscovery.Update` | geerpc/xclient/discovery_gee.go:33-39 | Replaces the list by hand and restarts its timeout |
| `GeeDiscovery.GeeRegistryDiscovery.Refresh` | geerpc/xclient/discovery_gee.go:42-68 | Before the last update plus the timeout nobody is asked and all stays; after that a failure leaves list and time as they were, an answer replaces both |
| `GeeDiscovery.GeeRegistryDiscovery.RefreshFrom` | geerpc/xclient/discovery_gee.go:42-68 | Succeeds exactly if the list is current or the registry reachable; a list that is fetched is the registry's sorted list of servers alive; every server listed had a heartbeat within both timeouts and the latency of the check |
| `GeeDiscovery.GeeRegistryDiscovery.Get` | geerpc/xclient/discovery_gee.go:71-78 | An error exactly if the refresh failed, no server is listed or the mode is unknown; round robin takes the server at the index and advances it, random takes some listed one and leaves it; any server returned had a heartbeat within registry timeout + discovery timeout + fetch latency of the check |
| `GeeDiscovery.GeeRegistryDiscovery.BackedSurvivesBeats` | geerpc/xclient/discovery_gee.go:42-68 | Heartbeats that arrive between two uses do not break the bound |
| `GeeDiscovery.ListArrives` | geerpc/registry/registry.go:55-81 | The registry's list arrives as it was sent, and each server in it is recent |
| `GeeDiscovery.AliveIsRecent` | geerpc/registry/registry.go:61-61 | A server that the registry lists had a heartbeat less than the timeout ago |
| `Broadcast.StepKeepsInv` | geerpc/xclient/xclient.go:103-128 | Each goroutine's section under `mu` keeps error and reply what the order of the sections so far says |
| `Broadcast.RunKeepsInv` | geerpc/xclient/xclient.go:89-132 | The same over any interleaving |
| `Broadcast.EveryServerHasOneOutcome` | geerpc/xclient/xclient.go:129-131 | Broadcast returns only after every server's call has ended, each with one outcome |
| `Broadcast.BroadcastReturns` | geerpc/xclient/xclient.go:115-131 | Nil exactly when every call succeeded, otherwise the first failure in lock order; a wanted reply is assigned exactly once, from the first success, if and only if there is one |
| `Broadcast.LogIsThatOfTheRun` | geerpc/xclient/xclient.go:114-128 | The order and results that decide error and reply are those of the run: section by section as they ran, each with what its own call ended with |
| `Broadcast.CancelledByTheFirstFailure` | geerpc/xclient/xclient.go:116-120 | The context is cancelled exactly once a section has found a failed call |
| `Broadcast.BroadcastGoesOn` | geerpc/xclient/xclient.go:130-131 | Until it has returned some step is possible, however the calls end, and every step brings the return nearer |
| `Broadcast.FirstsFound` | geerpc/xclient/xclient.go:115-125 | No first failure exactly when all succeeded, no first success exactly when all failed |
| `Migrate.Difference` | geeorm/geeorm.go:84-96 | The loop with the map computes the names of one list that are not in the other, in order |
| `Migrate.Minus` | geeorm/geeorm.go:84-96 | A name is in the difference exactly if it is in the first list and not in the second |
| `Migrate.MinusKeepsOrder` | geeorm/geeorm.go:90-94 | The difference is what stands at ascending positions of the first list, none left out |
| `Migrate.Engine.AddColumns` | geeorm/geeorm.go:117-124 | Adding the columns one by one keeps all rows and cells, the new cells null |
| `Migrate.Engine.CopyOver` | geeorm/geeorm.go:135-143 | Copy, drop and rename give the fields in order with every kept cell, other tables untouched; it fails exactly on an empty model or an existing tmp_ table |
| `Migrate.Engine.MigrateInTx` | geeorm/geeorm.go:99-145 | Inside the transaction: creates the missing table or reshapes the existing one, as one of three outcomes |
| `Migrate.Engine.Migrate` | geeorm/session/transaction.go:6-34 | All or nothing: unless it succeeds the database is the one before, and if it does only this table changed, to the old one migrated; without driver faults it succeeds exactly when CanMigrate |
| `Migrate.MigratedColumnsAreFields` | geeorm/geeorm.go:111-113 | The columns afterwards are exactly the model's fields, whether or not some were dropped |
| `Migrate.DroppingNeedsTheTmpName` | geeorm/geeorm.go:126-143 | Migrating an existing table is possible exactly if all its columns stay, or the model has fields and no table has the tmp_ name |
| `Migrate.MigrationIsStable` | geeorm/geeorm.go:98-147 | Migrating again to the same fields is possible and changes nothing |
| `Binding.BindAt` | geeorm/clause/generator.go:95-113 | Reading a statement, the i-th placeholder has the i-th variable, and only surplus ones have none |
| `Binding.BindInjective` | geeorm/clause/generator.go:95-113 | What is read determines the text |
| `Binding.BindConcat` | geeorm/clause/clause.go:42-43 | A text whose placeholders its variables fill exactly does not disturb the text after it |
| `Binding.BindJoin` | geeorm/clause/clause.go:46-46 | Aligned fragments joined by plain text are aligned, and each reads as it did on its own |
| `Generator.GenBindVars` | geeorm/clause/generator.go:28-35 | The given number of placeholders, separated by commas |
| `Generator.GenValues` | geeorm/clause/generator.go:45-68 | The loop with the reused bindStr gives, for each row, placeholders for the width of the first row with values, and the values row by row |
| `Generator.GenUpdate` | geeorm/clause/generator.go:97-106 | For whatever order the map gives its entries, one assignment per key and the values in that same order |
| `Generator.Generate` | geeorm/clause/generator.go:12-25 | Every clause gets its own generator |
| `Generator.KeywordFirst` | geeorm/clause/generator.go:12-25 | Each clause is kept under the kind whose keyword its text begins with |
| `Generator.NamesExample` | geeorm/clause/generator.go:38-80 | The texts of an INSERT and a SELECT for two fields |
| `Generator.ValuesExample` | geeorm/clause/generator.go:44-68 | Two rows of two values give two groups of two placeholders and the values row by row |
| `Generator.UpdateExample` | geeorm/clause/generator.go:97-106 | The text and the variable of an UPDATE of one column |
| `Generator.ValuesReadIff` | geeorm/clause/generator.go:45-68 | A VALUES clause is aligned and reads row-major exactly when no row differs in width from a non-empty row before it |
| `Generator.WidthsFromText` | geeorm/clause/generator.go:57-63 | Two VALUES texts for equally many rows are the same only for the same widths |
| `Generator.UpdateReadIff` | geeorm/clause/generator.go:97-106 | For every map order, an UPDATE binds each key its own value exactly when table and keys hold no placeholder |
| `Generator.FragmentReadsIff` | geeorm/clause/generator.go:38-113 | Each generated fragment has as many placeholders as variables and reads as its clause means exactly when the caller kept to the stated conditions |
| `ClauseBuilder.Builder.Set` | geeorm/clause/clause.go:26-34 | The state goes on holding, for each kind, a fragment of the clause that was set last |
| `ClauseBuilder.Builder.Build` | geeorm/clause/clause.go:37-47 | The fragments stand in the order asked for, each that of the clause set last for its kind and none left out whose kind was set, joined, with their variables; if all are tidy the i-th placeholder binds the i-th variable and the text reads as the clauses mean |
| `ClauseBuilder.PresentInOrder` | geeorm/clause/clause.go:40-45 | The clauses of a statement stand at ascending positions of the order asked for, every kind that was set with the clause set last |
| `ClauseBuilder.SelectExample` | geeorm/clause/clause_test.go:8-22 | The statement and variables of the repository's test |
| `ClauseBuilder.BuiltReads` | geeorm/clause/clause.go:37-47 | Tidy clauses build a statement with one variable per placeholder, each clause reading as it means |
| `ClauseBuilder.SetsCommute` | geeorm/clause/clause.go:26-34 | Setting two clauses of different kinds the other way round changes no statement, whatever is set before and after |

## Left out

Assumptions of the models:

- Client sequence numbers are unbounded: the wrap-around of uint64 is not modelled.
- Headers and bodies are opaque values. gob, JSON and protobuf encoding are not modelled; a codec call either works or fails.
- The channel that a caller passes to `Go` plays no part, as in the source, which makes one of capacity ten for every call.
- Errors of registered methods have a text wherever `ErrorsHaveText` is required; the same condition is proved to be necessary.
- `maxBytes` is not negative, no byte count overflows int64, and `OnEvicted` does not use the cache again; it is modelled as the log of its calls.
- The function that singleflight runs neither panics nor calls `Do` for its own key, except through a peer, which `cluster.dfy` does model.
- A node's own address is the name that its peers have for it; `PickPeer` is called after `Set`, since the source dereferences nil before it.
- The hash is any function to 32 bits: CRC32 itself is not modelled. Addresses with blanks are judged by the blanks of Latin-1.
- Clocks do not go back. A refresh reads the clock before it asks and after it has the answer, and the registry in between.
- The driver runs all statements of one Exec and stops at the first that fails; rollback always works.
- A `?` in a condition's text is a placeholder, also inside quotes.

Weaker than the source allows, or in another form:

- RpcClient.CompletedAtMostOnce: calls are values in a table by id; two goroutines that share one Call object outside the client are not modelled.
- RpcServer.AtMostOneResponse: the server, singleflight, cluster and Broadcast are transition systems over values, not classes, since what matters is how their goroutines interleave; aliasing between requests is not captured. Error texts that only name the method or the timeout are constants.
- RpcClientObject.ClientObject.Send: runs without interference; what other goroutines do in between is in RpcClient.
- RpcStream.AllServedIff: leaves out a body that decodes as the very header, Seq included, of the request after it.
- RpcSystem.RepliesAreOwn: takes a body that is left in the stream to be no header, as RpcServer does, which stops reading there; RpcStream says what happens otherwise. It assumes nothing of this kind where every method is registered.
- ClusterProgress.GetsNeverDeadlock: says that a step is possible at every moment, and GetTakesFewSteps that few of them are enough, not that a scheduler takes them.
- GeeDiscovery.GeeRegistryDiscovery.Get: the bound is for a registry with a timeout and addresses that survive the header; with timeout 0 the registry lists servers for ever and there is no bound. Lists set by hand are outside the bound.
- Registry.HeartbeatKeepsListed: a heartbeat that is lost ends the sender's loop in the source, so it is not steady.
- Migrate.Engine.Migrate: column types, constraints, defaults, case-insensitive names and the lock of the open cursor are not modelled. A copied table loses its constraints in the source.
- ClauseBuilder.Builder.Build: says that tidy clauses are enough; clauses that are not can cancel out in a whole statement, so there is no converse. Arguments of the wrong Go type, which panic in the source, cannot be written in the model.

Not modelled at all:

- Sockets, HTTP serving and hijacking, dialing and its timeouts, the JSON options, `parseOptions`, XDial, and XClient's cache of clients.
- Reflection: services are partial functions by name, schemas lists of distinct field names, hooks are left out.
- URL escaping and path splitting between cache nodes, ByteView's copies, GetGroup, RegisterPeers.
- The rest of GeeORM's session: Insert, Find, Update, Delete and the dialects.
- The Gee web framework, debug pages, logging and the main programs.
- Quality of the random choice, real timers and tickers.
