# Verified models of SwipeShield's core algorithms

SwipeShield is a web application firewall gateway written in Go. Under its I/O lie a WebSocket frame
codec and inspecting relay, several rate limiters, an agent enrolment protocol, a TLS ClientHello
parser with the JA4 fingerprint, and a number of incremental, bounded or concurrent structures. This
project models those parts in Dafny and proves what they promise, over every input, every run or
every interleaving. `dafny verify dfyconfig.toml` verifies all of it.

Code that updates state in place is modelled by classes, arrays and loops, each method proved against
a specification function; what runs concurrently is modelled as a state machine whose steps are the
code's critical sections, channel operations and atomic instructions.

| file | what it models |
|---|---|
| `Bytes`, `Sequences`, `Wrappers` | octets, big-endian numbers, exclusive or; counting elements; optional values and error results |
| `WebSocketFrame`, `WebSocketCodec`, `WebSocketRelay` | the RFC 6455 wire format; `ReadFrame` and `writeFrame` over connections and buffers; both relay loops |
| `FixedWindow`, `RateLimit`, `RateLimitRuns`, `SlidingWindow`, `TokenBucket`, `Pruning`, `ZeroWindow` | the in-memory limiter and its runs |
| `ApiLimit` | the management API's window counter |
| `RedisLimit`, `RedisRuns`, `RedisAtomic` | the counter shared by gateway instances, command by command, and if its pipelines were atomic |
| `EnrolmentStore`, `EnrolmentRuns`, `EnrolServer` | the two tables, the protocol over them, the enrolment call and its attempt log |
| `ClientHello`, `Ja4` | the parser and the fingerprint |
| `Tailer`, `LiveFeed`, `EventQueue`, `Breaker`, `RunningMax` | log tailer, event ring with subscribers, asynchronous event queue, circuit breaker, lock-free maxima |
| `GraphQLCost`, `Redactor` | the query cost walk and the in-place JSON redaction |

Times are whole numbers (nanoseconds, for Redis milliseconds) from one clock that never goes back;
Go's `float64` is `real`, with infinities and NaN where the limiter can divide by zero; truncations to
integers are modelled, rounding is not. Randomness, hashes, the
network and message verdicts are parameters.

## What the code does, where its own words say otherwise

- The relay is documented to mask toward the backend (core/internal/parsers/websocket/relay.go:20-24 and
  48-49). It forwards each frame with the frame's own mask flag, so an unmasked client frame reaches the
  backend unmasked: `BackendMaskedIffClientMasked`, `UnmaskedFrameReachesBackend`.
- `slidingWindow` weighs the previous window's count (core/internal/ratelimit/memory.go:65-67), but nothing ever
  assigns it. It is 0 in every reachable state, and the limiter is a fixed window: `PreviousIsAlwaysZero`,
  `SlideIsFixedWindow`. The bound that really holds, `2 * limit - 1` per
  window length (`limit` for a window of one tick), is reached: `SlidingWindow.IntervalBoundIsTight`.
- A zero window is accepted and never means what it says: a sliding window then grants everything, and a token
  bucket is poisoned by its first request and refuses everything: `SlidingGrantsAll`, `TokenBucketRefusesAll`,
  `PoisonedUntilPruned`.
- A token bucket's `RetryAfter` is cut to whole nanoseconds, so waiting exactly that long earns a grant only
  when nothing was cut: `TokenBucket.RetryAfterIsExact`, `ExactWaitCanFail`.
- The Redis counter is called correct across instances (core/internal/ratelimit/redis.go:11-15). A window grants
  `limit` requests for every time its key is created, so the bound holds while no increment finds its key
  expired: `LivesBound`, `WindowBound`. Keys kept for their window and increments that arrive within it are
  enough (`PromptRunsHoldKeys`); without either, runs grant more: `ShortLivedKeysOvergrant`,
  `LateIncrementsOvergrant`. The weight given to the previous window saves nothing of `2 * limit` as the commands
  run (`RedisRuns.IntervalBoundIsReached`); with atomic pipelines it would save a share that vanishes towards the
  end of a window (`AtomicBound`, `AtomicBoundIsReached`).
- The breaker is said to let one probe through when half open (core/internal/mlclient/mlclient.go:118). It resets
  its count, so as many failing calls go out as it takes to open it: `HalfOpenSendsABurst`.
- Fragment definitions are said to be walked separately (core/internal/parsers/graphql/graphql.go:157-158). They
  are never walked. By how much the report falls short, and exactly when it does not: `ExpandedMeasure`,
  `ReportIsExactIff`, `DepthLimitHoldsIff`; a query reported with depth 0 can expand to any depth:
  `FragmentsHideDepth`.
- The ClientHello parser asks for 9 octets and reads offset 43 (core/internal/fingerprint/ja4.go:68 and 88).
  Packets that pass its checks and are shorter than 44 octets make it panic, and no others do:
  `ParseClientHello`, `NineOctetsPanic`.
- `IsGREASE` accepts 256 values; section 2 of RFC 8701 reserves 16 of them: `GreaseIsWider`.
- The readable part of a JA4 fingerprint has 12 characters instead of 10 when the first protocol name is a
  lone octet that is no letter or digit: `PartALength`, `LoneProtocolIsLonger`.
- `Emit` returns immediately, unless `Close` closes the queue between its check and its send; then it panics:
  `PanicsExactlyMidway`, `MidwayCanPanic`. While `Close` and the drain goroutine both dispatch, a sink can
  receive events out of order, and exactly then: `OrderKept`, `OvertakingReorders`, `CloseCanReorder`.
- `Close` drains what is left so that events are not lost (core/internal/eventpipeline/eventpipeline.go:197-198), but
  cancels first: every event it dispatches reaches the sinks with a context already done: `LeftoversComeLate`,
  `CloseDelivers`.
- A channel handed out by `Subscribe` after `Close` is never closed, by unsubscribing or otherwise:
  `LiveFeed.Feed.Subscribe`, `LiveFeed.Feed.Unsubscribe`.
- Credentials are said to be redacted always (core/internal/eventpipeline/redactor.go:23-24). An object or array
  under a sensitive key is kept, and only what lies under sensitive keys inside it is redacted; an array
  directly inside an array is not entered: `RedactionIsExact`, `SecretsEscape`. A body whose top level is an
  array is never redacted at all (core/internal/eventpipeline/redactor.go:53-59), since it does not decode into a
  map: `BodyEntryReplacedIff`, `ArrayBodyEscapes`.
- The tailer tolerates log rotation by a reset when the file shrinks (core/internal/agent/agentclient/tailer.go:7-10).
  A file that is replaced by one no shorter is not reset, and its first bytes are never read: `RotationUnseen`,
  `NothingLostIff`.

## Model

| member | source | states |
|---|---|---|
| WebSocketFrame.DecodeWire | core/internal/parsers/websocket/frame.go:41-90 | every layout of a frame, in any length form that fits and under any key, is read back as that frame, and nothing after it is touched |
| WebSocketFrame.DecodeIsWire | core/internal/parsers/websocket/frame.go:41-89 | conversely, whatever the reader accepts is such a layout of the frame it returns |
| WebSocketFrame.ReencodingNeverGrows | core/internal/parsers/websocket/frame.go:105-164 | rewriting a frame read from any accepted bytes, with its own mask flag, takes no more bytes than were read |
| WebSocketFrame.DecodeExtends | core/internal/parsers/websocket/frame.go:41-83 | more bytes after the ones read never change the outcome, unless the reader had run out of them |
| WebSocketFrame.StrictPrefixRunsOut | core/internal/parsers/websocket/frame.go:44-83 | no strict prefix of one encoding yields a frame |
| WebSocketFrame.DecodeWireAll | core/internal/parsers/websocket/frame.go:41-90 | a sender's frames, each laid out as it likes, are read one by one, then what follows them |
| WebSocketFrame.StreamIsWires | core/internal/parsers/websocket/frame.go:41-90 | every byte stream is whole frames followed by bytes that yield no further frame |
| WebSocketFrame.DecodeEncodeAll | core/internal/parsers/websocket/frame.go:94-164 | reading the concatenated encodings of any frames with any keys gives back the list and a clean end of file |
| WebSocketFrame.DecodeTruncated | core/internal/parsers/websocket/frame.go:44-83 | a concatenation cut off anywhere reads as a prefix of the list |
| WebSocketCodec.Source.ReadFull | core/internal/parsers/websocket/frame.go:44-46 | reading into a buffer takes exactly its length from the stream, or uses the stream up and tells early end from none |
| WebSocketCodec.XorInPlace | core/internal/parsers/websocket/frame.go:84-88 | the in-place loop masks the buffer, every octet with its key octet |
| WebSocketCodec.ReadFrame | core/internal/parsers/websocket/frame.go:41-90 | the imperative reader is the decoder: same frame or error, same bytes left |
| WebSocketCodec.PutHeader | core/internal/parsers/websocket/frame.go:109-144 | the header built by index and bit is the shortest header of the frame |
| WebSocketCodec.WriteFrameMasked | core/internal/parsers/websocket/frame.go:105-164 | one call sends exactly the encoding, or what fits before the connection breaks, and uses one key if it masks |
| WebSocketCodec.WriteFrame | core/internal/parsers/websocket/frame.go:94-96 | the client role keeps the frame's own mask flag |
| WebSocketCodec.WriteFrameServer | core/internal/parsers/websocket/frame.go:101-103 | the server role never masks |
| WebSocketRelay.AcceptedIsFirstRejection | core/internal/parsers/websocket/relay.go:56-72 | frames go through up to the first data frame whose own verdict is a rejection; control frames have no verdict |
| WebSocketRelay.RelayFrame | core/internal/parsers/websocket/relay.go:51-77 | one turn of the loop forwards a frame and leaves the rest of the obligation, or stops having met it |
| WebSocketRelay.RelayClientToBackend | core/internal/parsers/websocket/relay.go:50-78 | for any client bytes, verdicts, keys and capacity of both connections, the loop sends exactly the forwarded frames re-encoded, and stops for the stated reason |
| WebSocketRelay.Reject | core/internal/parsers/websocket/relay.go:68-70 | a rejection sends one unmasked 1008 close to the client and one masked one to the backend |
| WebSocketRelay.InspectedTunnel | core/internal/parsers/websocket/relay.go:50-78 | what the backend decodes is exactly the client's frames up to the first rejection followed by one masked 1008 close, or a prefix of that if its connection breaks; the client decodes one unmasked 1008 close if its connection takes it, and is sent nothing without a rejection |
| WebSocketRelay.BackendMaskedIffClientMasked | core/internal/parsers/websocket/relay.go:57-74 | every frame the backend decodes is masked if and only if the client masked every frame of its own that got through |
| WebSocketRelay.UnmaskedFrameReachesBackend | core/internal/parsers/websocket/relay.go:74-76 | an unmasked client frame is forwarded unmasked |
| WebSocketRelay.RelayBackendToClient | core/internal/parsers/websocket/relay.go:82-93 | the other direction sends every backend frame unmasked until either side fails |
| WebSocketRelay.UninspectedTunnel | core/internal/parsers/websocket/relay.go:82-93 | the client decodes the backend's frames with the mask flag cleared, or a prefix of them |
| FixedWindow.AnyInterval | core/internal/ratelimit/memory.go:57-75 | a window that opens at the first request grants at most 2*limit-1 in any half-open interval of its length, over every run, and limit if it is one tick long |
| FixedWindow.AnyIntervalIsTight | core/internal/ratelimit/memory.go:61-74 | for every limit and width some run reaches that bound |
| FixedWindow.OneWindow | core/internal/ratelimit/memory.go:61-74 | one window grants at most limit |
| RateLimit.MemoryBackend.SlidingWindow | core/internal/ratelimit/memory.go:57-75 | for every policy the new entry and the verdict are those of the specification; no other entry changes |
| RateLimit.MemoryBackend.TokenBucket | core/internal/ratelimit/memory.go:77-100 | the same for the token bucket |
| RateLimit.MemoryBackend.Allow | core/internal/ratelimit/memory.go:45-55 | a done context changes nothing; otherwise the algorithm is chosen by name |
| RateLimit.MemoryBackend.Prune | core/internal/ratelimit/memory.go:103-117 | exactly the entries last touched before the cutoff go, from both tables |
| RateLimit.BucketKeyInjective | core/internal/ratelimit/ratelimit.go:84-86 | two policies share a bucket if and only if they agree on scope and key, whatever characters the keys contain |
| RateLimit.OtherBucketsKept | core/internal/ratelimit/memory.go:57-100 | a request never changes another bucket's counters |
| RateLimit.Limiter.Allow | core/internal/ratelimit/ratelimit.go:60-71 | a limit of zero or less and a storage error let the request through; neither charges anybody |
| RateLimit.Limiter.Check | core/internal/ratelimit/ratelimit.go:74-82 | policies are charged in turn up to and including the first that refuses, whose verdict and scope are returned |
| SlidingWindow.PreviousIsAlwaysZero | core/internal/ratelimit/memory.go:18-22 | the previous count is 0 in every reachable state |
| SlidingWindow.SlideIsFixedWindow | core/internal/ratelimit/memory.go:61-74 | so each request is decided, counted and given its remaining count as by a fixed window |
| SlidingWindow.RunIsFixedWindow | core/internal/ratelimit/memory.go:57-117 | the grants of a bucket over a whole run, prunes included, are those of one fixed window |
| SlidingWindow.IntervalBound | core/internal/ratelimit/memory.go:57-75 | over every run, any half-open interval of the window's length holds at most 2*limit-1 grants of a bucket, and limit if the window is one tick |
| SlidingWindow.IntervalBoundIsTight | core/internal/ratelimit/memory.go:57-75 | for every policy some run on one clock, without prunes, reaches that bound |
| SlidingWindow.RetryAfterIsExact | core/internal/ratelimit/memory.go:68-70 | a denied request alone on its bucket is granted if and only if it waits at least RetryAfter |
| TokenBucket.TokensStayWithinBurst | core/internal/ratelimit/memory.go:77-100 | at the end of every run, whatever was pruned, a bucket holds between no tokens and its burst |
| TokenBucket.GrantsWithinBudget | core/internal/ratelimit/memory.go:77-100 | grants never exceed the tokens the bucket holds and those that drip in |
| TokenBucket.IntervalBound | core/internal/ratelimit/memory.go:77-100 | over every run and every interval [s,t], grants are at most burst + limit/window*(t-s) |
| TokenBucket.IntervalBoundIsReached | core/internal/ratelimit/memory.go:77-100 | for every policy whose bucket would never overflow if emptied at each tick, and every length, some run grants the whole part of that bound |
| TokenBucket.WindowsBoundIsReached | core/internal/ratelimit/memory.go:77-100 | over any number of whole windows that is the bound itself |
| TokenBucket.RoomForAWindow | core/internal/ratelimit/memory.go:80-83 | a burst as large as the limit never overflows so |
| TokenBucket.OverflowLosesTokens | core/internal/ratelimit/memory.go:90-93 | and if the bucket would overflow at some tick of an interval, no run at all reaches the bound there |
| TokenBucket.RetryAfterIsExact | core/internal/ratelimit/memory.go:95-99 | exactly when a retry alone on the bucket is granted: after more than RetryAfter, or at it if nothing was truncated |
| TokenBucket.ExactWaitCanFail | core/internal/ratelimit/memory.go:95-99 | a run in which waiting exactly RetryAfter earns no grant |
| TokenBucket.FullAgain | core/internal/ratelimit/memory.go:90-93 | a bucket older than a harmless age is full |
| Pruning.PruningIsInvisible | core/internal/ratelimit/memory.go:103-117 | with one policy per bucket, prunes of a harmless age anywhere in a run change no verdict, remaining count or wait |
| Pruning.EagerPruneShows | core/internal/ratelimit/memory.go:103-117 | for every policy and every age that is not harmless some run tells the difference |
| ZeroWindow.SlidingGrantsAll | core/internal/ratelimit/memory.go:61-74 | a zero window limits nothing in any reachable state |
| ZeroWindow.TokenBucketRefusesAll | core/internal/ratelimit/memory.go:84-99 | a token bucket with a zero window grants nothing over any run |
| ZeroWindow.PoisonedUntilPruned | core/internal/ratelimit/memory.go:90-99 | and leaves the bucket refusing every later policy until it is pruned |
| ApiLimit.Server.Limit | core/internal/mgmtapi/mgmtapi.go:118-137 | the window is reopened or counted on, refused requests included, and served up to the limit |
| ApiLimit.CountIsFixedWindow | core/internal/mgmtapi/mgmtapi.go:123-129 | counting past the limit is a fixed window stuck at its limit, one tick longer than a minute |
| ApiLimit.RunIsFixedWindow | core/internal/mgmtapi/mgmtapi.go:118-137 | what one client is served over a run is what that window grants |
| ApiLimit.MinuteBound | core/internal/mgmtapi/mgmtapi.go:118-137 | one client is served at most 2*limit-1 times in any closed minute |
| ApiLimit.MinuteBoundIsReached | core/internal/mgmtapi/mgmtapi.go:118-137 | for every limit some run reaches that bound |
| RedisLimit.Atoi | core/internal/ratelimit/redis.go:58-75 | the accumulating loop computes the number a decimal string stands for, 0 for anything else |
| RedisLimit.NumberOfDecimal | core/internal/ratelimit/redis.go:46-47 | a count written by Redis is read back as itself, a missing key as 0 |
| RedisLimit.Allow | core/internal/ratelimit/redis.go:34-56 | undisturbed, one request increments and expires its window's key and decides on both counts; if the connection fails, the caller gets an error and the commands that had run stay in effect |
| RedisRuns.LowRun | core/internal/ratelimit/redis.go:39-43 | in every interleaving each life of a key gives every number at most once, and its first life gives them without a gap |
| RedisRuns.LivesBound | core/internal/ratelimit/redis.go:34-54 | for any number of instances, any interleaving, any delays and any key lifetime: a window grants at most limit requests per life of its key |
| RedisRuns.WindowBound | core/internal/ratelimit/redis.go:34-54 | so at most limit requests are granted in any aligned window whose key no increment found expired |
| RedisRuns.IntervalBound | core/internal/ratelimit/redis.go:34-54 | and at most 2*limit in any half-open interval of the window's length that meets two such windows |
| RedisRuns.IdleWindowGrantsLimit | core/internal/ratelimit/redis.go:46-53 | with no count in the window before, exactly the first limit increments are granted |
| RedisRuns.ShortLivedKeysOvergrant | core/internal/ratelimit/redis.go:41 | for every lifetime shorter than the window some run with every increment prompt grants limit+1 in one window |
| RedisRuns.PromptRunsHoldKeys | core/internal/ratelimit/redis.go:39-43 | keys kept for a window and increments that arrive within theirs are enough for held keys, for the window bound and for the interval bound |
| RedisRuns.LateIncrementsOvergrant | core/internal/ratelimit/redis.go:36-43 | the bound by lives is reached: for every lifetime and every number of lives some run grants limit in each |
| RedisRuns.IntervalBoundIsReached | core/internal/ratelimit/redis.go:34-54 | 2*limit is reached for every lifetime, with every increment prompt and every key held, when answers are late |
| RedisAtomic.AtomicBound | core/internal/ratelimit/redis.go:39-53 | if nothing came between the commands of a pipeline, an interval of a window's length that begins x into a window would grant at most limit + limit*(x-1)/width, and limit if x is 0 |
| RedisAtomic.AtomicBoundIsReached | core/internal/ratelimit/redis.go:39-53 | and no less: for every limit, width, lifetime and beginning some such run reaches it |
| EnrolmentStore.Store.CreateAgent | core/internal/store/store.go:123-143 | both rows are inserted, or neither |
| EnrolmentStore.Store.ConsumeEnrollToken | core/internal/store/store.go:147-179 | an unknown, used or expired token is refused without change; otherwise it is marked and its agent returned |
| EnrolmentStore.Store.EnrollAgent | core/internal/store/store.go:183-189 | the row gets the secret's hash; a row that is gone is not created |
| EnrolmentStore.Store.AgentIDBySecret | core/internal/store/store.go:193-200 | an id is returned exactly when some row matches the secret's hash |
| EnrolmentStore.Store.Touch | core/internal/store/store.go:203-209 | liveness and identity columns change, nothing else |
| EnrolmentStore.Store.SetStatus | core/internal/store/store.go:212-217 | only the status column changes |
| EnrolmentStore.LivenessChangesNoCredential | core/internal/store/store.go:203-217 | neither changes which agent a secret authenticates or what a token is worth |
| EnrolmentStore.Store.DeleteAgent | core/internal/store/store.go:249-267 | the agent's row and all its tokens go |
| EnrolmentRuns.TokensAreOneTime | core/internal/store/store.go:145-179 | over every interleaving, each token is consumed at most once, in time, and for the agent it was made for |
| EnrolmentRuns.OneSecretPerAgent | core/internal/agent/server.go:82-91 | each agent gets at most one secret, and only on a consumption of its own token |
| EnrolmentRuns.SecretsAuthenticateTheirAgent | core/internal/store/store.go:181-200 | a secret authenticates exactly the agent it was issued for, exactly while that agent has not been deleted |
| EnrolmentRuns.TokenAcceptedIff | core/internal/store/store.go:158-171 | a token is accepted exactly while its agent exists, it is unspent and its day has not passed |
| EnrolmentRuns.DeletedNeverAuthenticates | core/internal/store/store.go:249-267 | a deleted agent never authenticates again, even if the deletion fell between consume and enrol |
| EnrolServer.Compact | core/internal/agent/server.go:101-107 | compaction into the array being read equals the functional filter of the old log |
| EnrolServer.Server.AllowEnrollAttempt | core/internal/agent/server.go:94-114 | the log and answer are those of the specification, and no other address's log changes |
| EnrolServer.Server.Enroll | core/internal/agent/server.go:74-92 | the limiter, the token and the store are consulted in turn; every refusal leaves the tables as they were |
| EnrolServer.AttemptDecidesByHistory | core/internal/agent/server.go:101-113 | the compacted log stands for the whole history: an attempt is granted if and only if fewer than the maximum were granted within the window |
| EnrolServer.AttemptBound | core/internal/agent/server.go:94-114 | over every run, any interval (a, a+window] holds at most the maximum of granted attempts |
| ClientHello.GreaseIsWider | core/internal/fingerprint/ja4.go:31-33 | every reserved value is recognised, and exactly the recognised values with two equal octets are reserved |
| ClientHello.ParseClientHello | core/internal/fingerprint/ja4.go:67-136 | the offset loops compute the suffix parser, with the same errors; exactly the packets that pass every guard and are shorter than 44 octets crash, and every other access is inside the packet |
| ClientHello.ReadExts | core/internal/fingerprint/ja4.go:120-133 | the extension loop ends and keeps the extensions that fit, GREASE kinds left out of the list |
| ClientHello.Record.ParseExtensions | core/internal/fingerprint/ja4.go:138-210 | each field is read from the first extension of its kind, and no other field changes |
| ClientHello.ReadProtocols | core/internal/fingerprint/ja4.go:142-155 | the protocol names, each cut off only by the end of the extension |
| ClientHello.ReadVersions | core/internal/fingerprint/ja4.go:156-182 | the one-octet form if its length fits exactly, the two-octet form otherwise |
| ClientHello.NineOctetsPanic | core/internal/fingerprint/ja4.go:68-85 | nine octets are enough |
| ClientHello.ParsedHasNoGrease | core/internal/fingerprint/ja4.go:98-199 | no GREASE value remains in ciphers, extensions, groups or versions, whatever the packet |
| ClientHello.ExtensionsInsidePacket | core/internal/fingerprint/ja4.go:120-133 | the extensions kept, written out again, are a stretch of the packet, in order and without overlap |
| ClientHello.ParseWire | core/internal/fingerprint/ja4.go:67-136 | parsing the wire form of section 4.1.2 of RFC 8446 gives back the hello |
| Ja4.Fingerprint | core/internal/fingerprint/ja4.go:213-262 | the loops build the three parts of the fingerprint |
| Ja4.PairOf | core/internal/fingerprint/ja4.go:357-378 | the pair is the first and last character of the first name, or of its hexadecimal form |
| Ja4.SortCanonical | core/internal/fingerprint/ja4.go:230 | sorting two lists of strings gives the same list if and only if they are permutations of each other |
| Ja4.OrderIsForgotten | core/internal/fingerprint/ja4.go:213-262 | hellos that differ only in the order of ciphers and extensions have one fingerprint |
| Ja4.FingerprintIsCanonical | core/internal/fingerprint/ja4.go:67-262 | on the wire: shuffling ciphers or distinct extensions, and GREASE anywhere among them, leaves the parsed fingerprint unchanged |
| Ja4.GreaseChangesNothing | core/internal/fingerprint/ja4.go:98-133 | inserting a GREASE cipher and a GREASE extension at any places changes no fingerprint |
| Ja4.DuplicatesAreOrdered | core/internal/fingerprint/ja4.go:55-62 | two extensions of one kind may not be swapped: the first is the one that is read |
| Ja4.PartALength | core/internal/fingerprint/ja4.go:224 | exactly when the readable part has its ten characters |
| Ja4.LoneProtocolIsLonger | core/internal/fingerprint/ja4.go:365-371 | a wire hello with such a lone octet parses to twelve |
| Ja4.PartBTellsCiphers | core/internal/fingerprint/ja4.go:226-236 | if the hash tells the two texts from each other and from twelve zeros, the second part is the same if and only if the ciphers are, up to order |
| Ja4.PartCTellsExtensions | core/internal/fingerprint/ja4.go:237-262 | likewise the third part, if and only if the hashed extensions are the same up to order and, unless there are none, so are the signature algorithms in their order |
| Tailer.Scan | core/internal/agent/agentclient/tailer.go:48-62 | the byte loop finds the non-empty newline-terminated lines and where the held bytes begin |
| Tailer.Tailer.Lines | core/internal/agent/agentclient/tailer.go:28-68 | one poll returns them and moves the offset past the last newline; no file or a failed read changes nothing else |
| Tailer.Tailer.constructor | core/internal/agent/agentclient/tailer.go:18-24 | following starts at the present end of the file |
| Tailer.LinesAreTheText | core/internal/agent/agentclient/tailer.go:51-58 | lines and held bytes make up the text, nothing but empty lines lost |
| Tailer.LinesAreLines | core/internal/agent/agentclient/tailer.go:51-58 | no line is empty or contains a newline |
| Tailer.SplitAnywhere | core/internal/agent/agentclient/tailer.go:59-66 | reading on from the held bytes is as good as reading everything again, wherever an append was cut |
| Tailer.EachLineOnce | core/internal/agent/agentclient/tailer.go:28-68 | over every sequence of appends and polls, the lines returned are the file's complete lines since the start, each once, in order |
| Tailer.RotationRestarts | core/internal/agent/agentclient/tailer.go:38-40 | an observed shrink restarts this from offset 0 |
| Tailer.RotationUnseen | core/internal/agent/agentclient/tailer.go:38-45 | after a rotation to a file no shorter than the offset, exactly the lines of what lies beyond it are returned: those before are lost, and a line that runs across loses its beginning |
| Tailer.NothingLostIff | core/internal/agent/agentclient/tailer.go:38-58 | when no line is lost or cut |
| LiveFeed.SlotIsMod | core/internal/eventpipeline/livefeed.go:66-69 | the index from Go's signed remainder and its correction is the slot of that position |
| LiveFeed.Feed.constructor | core/internal/eventpipeline/livefeed.go:23-32 | a new feed is empty, open and of the capacity asked for or 256 |
| LiveFeed.Feed.Write | core/internal/eventpipeline/livefeed.go:36-55 | the event joins the history and each registered channel with room, and only those; a closed feed ignores it |
| LiveFeed.Feed.Recent | core/internal/eventpipeline/livefeed.go:58-75 | the last min(n, capacity, total) events in write order, all retained ones for n <= 0 |
| LiveFeed.Feed.Subscribe | core/internal/eventpipeline/livefeed.go:79-115 | a new channel holding the end of the history that fits, registered unless the feed is closed; one handed out after Close is open for ever |
| LiveFeed.Feed.Unsubscribe | core/internal/eventpipeline/livefeed.go:103-114 | once per channel, and closing it only if Close has not: no channel is closed twice |
| LiveFeed.Feed.Close | core/internal/eventpipeline/livefeed.go:118-130 | every registered channel is closed, once, and none stays registered |
| LiveFeed.Feed.Receive | core/internal/eventpipeline/livefeed.go:103 | a subscriber takes events in the order of their positions in the history |
| LiveFeed.Feed.Broadcast | core/internal/eventpipeline/livefeed.go:48-53 | a non-blocking send is tried on every registered, open channel and on no other |
| LiveFeed.StreamMeans | core/internal/eventpipeline/livefeed.go:48-53 | a stream never repeats or reorders events, and without a miss it is the end of the history |
| EventQueue.InvRun | core/internal/eventpipeline/eventpipeline.go:118-222 | every step of every interleaving keeps the queue's accounting, phases and deliveries |
| EventQueue.EmitsAddUp | core/internal/eventpipeline/eventpipeline.go:118-136 | each finished call was refused, dropped and counted, accepted, or panicked, and the four add up |
| EventQueue.PanicsExactlyMidway | core/internal/eventpipeline/eventpipeline.go:119-130 | a call panics if and only if it was between check and send when the queue was closed |
| EventQueue.NoPanicIfQuietAtClose | core/internal/eventpipeline/eventpipeline.go:187-196 | no call ever panics if none is between check and send when Close sets its flag |
| EventQueue.LateSendPanics | core/internal/eventpipeline/eventpipeline.go:196 | for every configuration some run has a call that panics |
| EventQueue.MidwayCanPanic | core/internal/eventpipeline/eventpipeline.go:119-196 | and that is exact: whenever a call is between check and send and Close has not been called, the run can go on so that it panics |
| EventQueue.OrderKept | core/internal/eventpipeline/eventpipeline.go:149-209 | through Close and after it, each sink has received a prefix of the accepted events, all but at most one of those taken, as long as no event is taken while the other loop holds one back from it |
| EventQueue.OvertakingReorders | core/internal/eventpipeline/eventpipeline.go:149-209 | and that is exact: whenever an event is taken while the other loop holds one back, the run can go on so that the sink receives the later one first |
| EventQueue.PrefixBeforeClose | core/internal/eventpipeline/eventpipeline.go:149-176 | so order is kept until Close takes events itself |
| EventQueue.OrderKeptAfterDrain | core/internal/eventpipeline/eventpipeline.go:199-209 | and to the end if the drain goroutine has gone by the time Close takes an event |
| EventQueue.CloseDelivers | core/internal/eventpipeline/eventpipeline.go:187-215 | when Close returns, each original sink has each event taken exactly once, which is every accepted event unless the deadline struck, and has been closed; each event taken after the cancellation was written with a context already done |
| EventQueue.LeftoversComeLate | core/internal/eventpipeline/eventpipeline.go:195-206 | every event that Close takes itself is one of those |
| EventQueue.NoSinkWrittenAfterClose | core/internal/eventpipeline/eventpipeline.go:211-214 | no sink ever has an event twice, and none is written once any is closed |
| EventQueue.CloseCanReorder | core/internal/eventpipeline/eventpipeline.go:199-209 | for every queue and every sink some run delivers the second event before the first |
| Breaker.Client.Score | core/internal/mlclient/mlclient.go:72-110 | a whole call leaves the state and returns the error or clamped score of the specification |
| Breaker.Client.BreakerOpen | core/internal/mlclient/mlclient.go:112-125 | an open breaker refuses for five seconds, then starts afresh |
| Breaker.Client.RecordFailure | core/internal/mlclient/mlclient.go:127-135 | a failure is counted and opens the breaker at the limit |
| Breaker.OpenIffStreak | core/internal/mlclient/mlclient.go:112-142 | over every interleaving the breaker is open if and only if enough failures have come in a row |
| Breaker.SentUntil | core/internal/mlclient/mlclient.go:112-135 | with no success, an open breaker lets nothing through for five seconds after it opened and a burst per five seconds from then on |
| Breaker.BurstsBound | core/internal/mlclient/mlclient.go:72-135 | in every sequential run with no success, at most limit*(k+1) failing calls are sent in any interval of 5*(k+1) seconds |
| Breaker.BurstsBoundIsReached | core/internal/mlclient/mlclient.go:72-135 | for every limit and k some such run reaches that bound |
| Breaker.HalfOpenSendsABurst | core/internal/mlclient/mlclient.go:118-122 | the half-open breaker lets through as many failures as it takes to open, not one |
| RunningMax.MaximaGrow | core/internal/telemetry/telemetry.go:59-73 | over every interleaving both maxima only grow |
| RunningMax.MaximaAreSound | core/internal/telemetry/telemetry.go:59-73 | at every moment each maximum is 0 or a recorded value, and at least the value of every finished call |
| RunningMax.QuiescentMaxima | core/internal/telemetry/telemetry.go:59-73 | when all calls have returned, each maximum is the greatest recorded value, and each call was counted |
| RunningMax.LossesAreBounded | core/internal/telemetry/telemetry.go:61-72 | a call loses fewer compare-and-swaps than there are calls, so its loops end |
| GraphQLCost.Walk | core/internal/parsers/graphql/graphql.go:127-163 | depth is the level plus the nesting depth, complexity the number of fields and spreads, aliases and introspection those of all nodes |
| GraphQLCost.DepthIsLongestChain | core/internal/parsers/graphql/graphql.go:131-144 | the depth is the length of a longest chain of nested fields |
| GraphQLCost.SplicingIsInvisible | core/internal/parsers/graphql/graphql.go:148-155 | replacing inline fragments by their selections, everywhere, changes no result |
| GraphQLCost.SplicedInPlace | core/internal/parsers/graphql/graphql.go:148-155 | and so does splicing any one of them in place |
| GraphQLCost.AddingNeverHelps | core/internal/parsers/graphql/graphql.go:127-163 | adding selections anywhere lowers no result and clears no flag |
| GraphQLCost.ExpandedMeasure | core/internal/parsers/graphql/graphql.go:156-160 | the results with a fragment expanded, as an equation in the reported ones, the number and depth of its spreads and the fragment's own results |
| GraphQLCost.ReportIsExactIff | core/internal/parsers/graphql/graphql.go:156-160 | the report is right if and only if the fragment is not spread or is one plain node no deeper than the rest |
| GraphQLCost.DepthLimitHoldsIff | core/internal/parsers/graphql/graphql.go:156-160 | a limit met by the reported depth is met by the expanded query if and only if it leaves room for the fragment below its spreads |
| GraphQLCost.SpreadsUnderestimate | core/internal/parsers/graphql/graphql.go:156-160 | for a fragment with a node, what is reported is a lower bound |
| GraphQLCost.FragmentsHideDepth | core/internal/parsers/graphql/graphql.go:156-160 | the gap has no bound |
| GraphQLCost.ResolvedCost | core/internal/parsers/graphql/graphql.go:156-160 | for a whole table of fragments that spread one another: the results of the fully expanded query are those of one pass over the query and each definition |
| GraphQLCost.ResolvedIsComplete | core/internal/parsers/graphql/graphql.go:156-160 | full expansion of an acyclic table leaves no spread of its fragments |
| GraphQLCost.TableDepthLimitIff | core/internal/parsers/graphql/graphql.go:156-160 | the expanded query meets a depth limit if and only if the report does and every fragment has room where it is spread |
| GraphQLCost.TableUnderestimated | core/internal/parsers/graphql/graphql.go:156-160 | if every fragment has a node, the report is a lower bound for the expanded query |
| GraphQLCost.Combine | core/internal/parsers/graphql/graphql.go:89-102 | several operations measure as one operation with all their selections: maximum, sums and disjunction |
| GraphQLCost.Inspect | core/internal/parsers/graphql/graphql.go:66-122 | the report: malformed input, the combined measures, the last operation name, and each violation exactly when its limit is set and passed |
| GraphQLCost.ViolationsExactly | core/internal/parsers/graphql/graphql.go:104-120 | an issue is reported if and only if its limit is set and passed, with the measure that passed it |
| Redactor.Redactor.RedactMap | core/internal/eventpipeline/redactor.go:70-88 | in place, in any visiting order, redacts the entries of exactly the objects reached, and changes no other object |
| Redactor.Redactor.RedactSlice | core/internal/eventpipeline/redactor.go:90-96 | the same for the objects directly in an array |
| Redactor.Redactor.RedactBody | core/internal/eventpipeline/redactor.go:53-63 | a decoded body is redacted from its root if that is an object, and left alone otherwise |
| Redactor.BodyEntryReplacedIff | core/internal/eventpipeline/redactor.go:53-96 | an entry of a whole body is replaced if and only if it is a scalar under a sensitive key, the root is an object and a path leads from it to the entry; nothing else changes |
| Redactor.Redactor.IsSensitive | core/internal/eventpipeline/redactor.go:98-110 | a key is sensitive if its lower case is special or it equals a field up to case |
| Redactor.ReachedByPath | core/internal/eventpipeline/redactor.go:70-96 | every object reached is at the end of a path through objects and arrays of objects |
| Redactor.PathsReach | core/internal/eventpipeline/redactor.go:70-96 | and every object at the end of such a path is reached |
| Redactor.RedactionIsExact | core/internal/eventpipeline/redactor.go:70-96 | every scalar under a sensitive key of an object at the end of a path becomes the placeholder, and nothing else changes |
| Redactor.SecondPassDoesNothing | core/internal/eventpipeline/redactor.go:70-96 | a second pass is a no-op |
| Redactor.AlwaysMeansAlways | core/internal/eventpipeline/redactor.go:23-26 | no configuration can leave out an always-redacted key |
| Redactor.SecretsEscape | core/internal/eventpipeline/redactor.go:76-79 | a run in which a secret in an array inside an array and one in an array under a sensitive key both stay |
| Redactor.ArrayBodyEscapes | core/internal/eventpipeline/redactor.go:55-59 | a run in which a password in an array body stays |

## Left out

- Regular expressions, Coraza and CRS matching, LLM patterns, the WASM host, eBPF and the ML service: the behaviour lives in libraries or tables.
- Networks, TLS, HTTP, QUIC, gRPC, SQLite, the Redis client and files: only the bytes, tables, keys or contents they expose.
- Message inspection: its verdicts are an arbitrary sequence, so they may depend on anything.
- The two relay directions writing to one client connection at the same time: the code has no lock there, so each direction is proved on its own.
- Parsing JSON and GraphQL text: the models start from trees. Truncation of event bodies and reports, and the check whether a body looks like JSON. A fragment table with a cycle, which no finite query expands.
- SHA-256, lower case and case-blind comparison are parameters, and the results about enrolment ask only that the tokens and secrets of the run do not collide; identifiers, tokens, secrets and masking keys are drawn fresh. A failing random source is not modelled.
- Redactor.Redactor.RedactBody: speaks of the decoded tree, not of the text it is decoded from and encoded to.
- What Go makes of an infinity or NaN converted to an integer is one arbitrary number (`RateLimit.UNSPECIFIED`).
- Rounding of float64, the sign of zero, unsigned overflow of counters other than the telemetry request count, and clocks that go back.
- JA3, the raw JA4 form, bot scoring, event schema mapping, configuration defaults, dashboard and command line: they would add only easy members.
- The events table of the store, and the list and lookup queries.
- RedisLimit.Allow: the whole-second resolution of EXPIRE is not modelled; the key lifetime is a parameter instead. A window of less than a millisecond, which makes the code divide by zero, is left out.
- EventQueue.CloseDelivers: counts writes to sinks, not their success; a sink may refuse a context that is done. The fifteen seconds each dispatch is allowed have no step, nor have later calls of Close, which return at once.
- EventQueue.OrderKept: speaks of the sinks present at the start; a sink added later gets what is dispatched after it was added.
- Redactor.Redactor.RedactMap: needs decoded JSON to have no cycles; a ghost rank says so.
- LiveFeed.Feed.Receive: the receiving side belongs to subscribers, not to the repository; it is there to say what they see.
- The request, protocol, blocked and challenged counters of the telemetry collector: single atomic additions.
