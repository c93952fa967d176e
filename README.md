# libsdr core, modelled in Dafny

This project models the integer and text-processing core of libsdr, a C++
library for software-defined radio in which sources, sinks and processing
nodes pass reference-counted sample buffers along a chain, coordinated by a
central message queue. Each Dafny module follows one part of the library:

- `Common`: C++ fixed-width integer arithmetic (wrap-around casts, shifts,
  division truncating toward zero), `Result` and `Option`.
- `NodeConfig`: the `Config` record every source hands its sinks, its
  predicates and setters, and the sample-type tags and names (node.hh, node.cc).
- `Buffers`: `RawBuffer` handles that share a heap reference counter,
  typed `Buffer<T>` views, the `BufferSet` pool and the byte and typed
  ring buffers (buffer.hh, buffer.cc).
- `Queues`: the message queue run sequentially: send, drain in FIFO
  order, idle/start/stop callback lists (queue.hh, queue.cc).
- `Nodes`: a source's sink table, configuration propagation and the
  `allow_overwrite` rule of `send` (node.cc).
- `Combining`: `Combine` configuration unification and `Interleave`
  (combine.hh).
- `Rechunking`: the fixed-size re-chunking `BufferNode` (buffernode.hh).
- `AutoCasting`, `SignCasting`: cast selection and the integer
  conversion helpers (autocast.hh), the unsigned/signed offset conversions
  (utils.cc).
- `SubSampling`: the averaging and fixed-point sub-samplers (subsample.hh).
- `FastMath`, `Operators`: the integer `fast_atan2` (math.hh) and the
  `mul2`/`div2` shift operators (operators.hh).
- `WavHeader`, `WavFiles`: the 44-byte RIFF/WAVE header as read and
  written, and the `WavSource`/`WavSink` nodes (wavfile.cc, wavfile.hh).
- `Ax25`, `Aprs`: the AX.25 HDLC deframer with its CRC-CCITT check and
  address unpacking (ax25.cc), and APRS position reports (aprs.cc).
- `Bch`, `Pocsag`: the BCH(31,21) syndrome, its bit-sliced form and the
  one- and two-bit repair (bch31_21.cc), and the POCSAG pager decoder
  (pocsag.cc).
- `Baudot`, `Psk31`: the ITA2 teletype decoder (baudot.cc) and the Varicode
  decoder (psk31.cc).
- `HttpText`, `HttpUrl`, `HttpRequest`, `HttpJson`, `SortedMaps`: the HTTP
  server's character classes, URLs and percent-encoding, the request
  parser and response headers, and the JSON values with their serialiser
  and parser (http.hh, http.cc); `std::map` is a sorted sequence of
  entries.

Code that changes state in place is modelled by classes with `modifies`
frames and loops with invariants; each such method is proved against a
function on values, and the properties the library promises are proved
as lemmas about those functions.

Where the code does something its authors evidently did not intend, the
Findings table pairs a member that models the code as written, with the
input that shows the defect, and a corrected member whose intended
property is proved. The classes carry the two in different ways:

- `AutoCast`, `OffsetCast`, `BufferNode` and `WavSink` have an as-written
  method beside the corrected one (`HandleBufferAsWritten`,
  `ProcessAsWritten`, `Configure` beside `ConfigureFreeing` and
  `ConfigureFresh`, `CloseAsWritten`).
- `PocsagNode`, `BaudotNode` and `VaricodeNode` take an `asWritten` switch
  when built, and the request and JSON parsers a `Reading`; the same
  methods then follow the code as written or as corrected.
- `Url` follows the code as written; the corrected percent-coding is a
  separate pair of functions.
- `WavSource.Open` and `Ax25Node` follow the corrected code only. As
  written, the header search can loop forever and the deframer writes past
  its buffer; a method that returns and stays in bounds can do neither.
  `WavHeader.OpenAsWritten` and `Ax25.OverrunWritesPastBuffer` model those
  two behaviours.
## Model

| member | source | states |
|---|---|---|
| NodeConfig.DefaultConfig | src/node.cc:9-13 | the empty `Config` has an undefined type and zero rate, buffer size and buffer count |
| NodeConfig.ConfigEquals | src/node.cc:35-39 | two configs compare equal exactly when all four fields are equal |
| NodeConfig.SettersAnswerOwnQuery | src/node.hh:53-75 | the four queries are independent: each setter decides its own `has*` query, set exactly when the value is not the unset one, and leaves the other three answers as they were |
| NodeConfig.SettersChangeOneField | src/node.hh:57-75 | each setter changes its own field and leaves the other three as they were |
| NodeConfig.TypeId | src/node.hh:92-126 | each of the twelve scalar types gets its own tag, never `UNDEFINED` |
| NodeConfig.TypeIdIsBijective | src/node.hh:92-126 | different scalar types have different tags, and every defined tag is the tag of a scalar type |
| NodeConfig.TypeNamesDistinct | src/node.hh:130-147 | the thirteen type tags have thirteen different names |
| NodeConfig.SizeOf | src/node.hh:92-126 | the byte size of each scalar type that `typeId` tags |
| NodeConfig.TypeSizeMatchesSizeOf | src/node.hh:92-126 | a scalar type's tag describes samples of that type's size; the tag is complex exactly for the `std::complex<T>` types, whose samples are twice the size of T, and T's tag is real |
| Buffers.EmptyRaw | src/buffer.cc:10-14 | the empty handle has no data, no counter, no owner and zero sizes |
| Buffers.IsUnused | src/buffer.hh:89-95 | a buffer is unused exactly when it has no counter or its count is 1 |
| Buffers.Wrap | src/buffer.cc:16-21 | a buffer wrapping outside data has storage size offset + len and no counter, so its count reads 0 and it is unused |
| Buffers.View | src/buffer.cc:43-49 | a view shares storage, counter and owner; its offset is the parent's plus the given one and its length is exactly len, with no bounds check |
| Buffers.Allocate | src/buffer.cc:23-33 | a successful allocation gives a fresh store of N bytes with count 1; a failed data allocation leaves no data and no counter (storage size 0 when the counter had been allocated) |
| Buffers.Ref | src/buffer.cc:57-59 | `ref` adds one to the shared count, and does nothing without a counter |
| Buffers.Unref | src/buffer.cc:63-77 | `unref` subtracts one from a counted, non-empty buffer; the owner puts the buffer back on its free list when the count reaches 1 and it still owns it; at 0 the handle becomes empty |
| Buffers.FromRaw | src/buffer.hh:148-152 | a raw buffer seen as elements of size s has length / s elements |
| Buffers.As | src/buffer.hh:148-152 | reinterpretation keeps the bytes and changes only the element size |
| Buffers.Sub | src/buffer.hh:236-239 | `sub(offset, len)` is empty when offset + len exceeds the size, otherwise a view of len elements starting at element offset |
| Buffers.Head | src/buffer.hh:242-245 | `head(n)` is empty when n exceeds the size, otherwise `sub(0, n)` |
| Buffers.Tail | src/buffer.hh:248-251 | `tail(n)` is empty when n exceeds the size, otherwise `sub(size - n, n)` |
| Buffers.HeadTailSplit | src/buffer.hh:236-251 | `head(n)` and `tail(size - n)` together cover the buffer, the tail starting where the head ends |
| Buffers.ReinterpretScenario | test/buffertest.cc:56-72 | four int8 values seen as `complex<int8>` are two elements, (1,2) and (3,4) |
| Buffers.RefCountScenario | test/buffertest.cc:10-36 | a copy shares the count without changing it (1, unused); after `ref` both read 2 and are in use; `unref` restores 1 |
| Buffers.BufferSet.constructor | src/buffer.hh:297-306 | the pool allocates N buffers, each with count 1, and all of them are free |
| Buffers.BufferSet.HasBuffer | src/buffer.hh:320 | `hasBuffer` holds exactly when the free list is not empty |
| Buffers.BufferSet.GetBuffer | src/buffer.hh:323-326 | `getBuffer` (only with a free buffer) returns the buffer of the last free id and removes that id from the free list |
| Buffers.BufferSet.BufferUnused | src/buffer.hh:329-334 | the owner callback appends the buffer to the free list only when the pool still holds it |
| Buffers.BufferSet.Resize | src/buffer.hh:337-347 | `resize` only grows, to max(old count, n) fresh buffers, and leaves the free list as it was |
| Buffers.GrownPoolScenario | src/buffer.hh:337-347 | a pool built empty and grown by `resize` owns two buffers and has no free one |
| Buffers.PoolCycleScenario | src/buffer.cc:63-77 | a pool buffer referenced once by a receiver and released again returns to the free list with count 1 |
| Buffers.RawRingBuffer.Empty | src/buffer.cc:84-88 | the default ring has no storage and holds nothing |
| Buffers.RawRingBuffer.constructor | src/buffer.cc:90-94 | a ring over N fresh bytes, count 1, holds nothing |
| Buffers.RawRingBuffer.Assign | src/buffer.hh:375-380 | assignment makes the ring share the other ring's storage and counter and copies its indices |
| Buffers.RawRingBuffer.BytesLen | src/buffer.hh:397 | `bytesLen` is the number of bytes the ring holds |
| Buffers.RawRingBuffer.BytesFree | src/buffer.hh:400-402 | `bytesLen + bytesFree` is always the storage size |
| Buffers.RawRingBuffer.Put | src/buffer.hh:406-427 | `put` succeeds exactly when the source fits in the free space; then the contents are the old ones followed by the source bytes, otherwise nothing changes |
| Buffers.RawRingBuffer.Store | src/buffer.hh:411-426 | the copy of `put`, direct or in two parts around the end of the store, extends the FIFO contents by the source bytes |
| Buffers.RawRingBuffer.Take | src/buffer.hh:431-448 | `take` succeeds exactly when N fits both the destination and the stored bytes; then the destination starts with the N oldest bytes, only those N destination bytes change, and they leave the ring; otherwise nothing changes |
| Buffers.RawRingBuffer.Fetch | src/buffer.hh:437-446 | the copy of `take`, direct or in two parts, writes the N oldest bytes to the start of the destination and nothing else |
| Buffers.RawRingBuffer.Drop | src/buffer.hh:451-455 | `drop(N)` removes the min(N, stored) oldest bytes |
| Buffers.RawRingBuffer.Clear | src/buffer.hh:458 | `clear` empties the ring |
| Buffers.RawRingBuffer.Resize | src/buffer.hh:461-465 | resizing to the same size changes nothing; another size gives a fresh, empty store of that size |
| Buffers.PutContents | src/buffer.hh:411-426 | writing the source at the positions after the stored bytes, and keeping the stored ones, extends the FIFO contents by the source |
| Buffers.DirectPutPositions | src/buffer.hh:411-418 | without wrap-around, source byte j lands at put_idx + j and no stored byte lies in that range |
| Buffers.SplitPutPositions | src/buffer.hh:420-426 | with wrap-around, the first size - put_idx bytes go to the end of the store, the rest to its start, clear of the stored bytes |
| Buffers.TakeContents | src/buffer.hh:431-448 | a destination filled from the positions of the N oldest bytes holds the first N bytes of the contents |
| Buffers.SplitTakePositions | src/buffer.hh:443-446 | a take that wraps reads up to the end of the store and then from its start |
| Buffers.AdvanceTake | src/buffer.hh:439-454 | moving the take index past N bytes leaves the remaining bytes in order |
| Buffers.RingFill | test/buffertest.cc:77-97 | on a 3-byte ring, "a" and "bc" fit and a further "abc" does not; the ring then holds "abc" |
| Buffers.RingTakeTwo | test/buffertest.cc:99-109 | two one-byte takes from "abc" give 'a' and then 'b' |
| Buffers.RingScenario | test/buffertest.cc:76-121 | the ring test sequence gives 'a', 'b' and then "cab" |
| Buffers.RingBuffer.constructor | src/buffer.hh:485 | a typed ring of N elements holds none |
| Buffers.RingBuffer.Stored | src/buffer.hh:507 | `stored()` elements are the bytes held, counted in elements |
| Buffers.RingBuffer.Free | src/buffer.hh:509 | `free()` elements are the free bytes, counted in elements |
| Buffers.RingBuffer.Put | src/buffer.hh:515-520 | a typed put succeeds as the byte put does and then adds the view's element count |
| Buffers.RingBuffer.Take | src/buffer.hh:524-529 | a typed take moves N times the element size bytes and subtracts N on success |
| Buffers.RingBuffer.Drop | src/buffer.hh:532-534 | a typed drop drops N elements' bytes and recounts the stored elements from the bytes left |
| Buffers.RingBuffer.Resize | src/buffer.hh:537-539 | a typed resize resizes the byte ring only; size and stored count keep their old values |
| Buffers.StaleResizeScenario | src/buffer.hh:537-539 | after a resize, a typed ring still claims one stored element while holding no bytes |
| Queues.Without | src/queue.hh:129-139 | the delegates kept are exactly those of the list whose instance differs from the removed one |
| Queues.WithoutNoMatch | src/queue.hh:129-175 | removing an instance that never registered leaves the list unchanged, with no error |
| Queues.WithoutAppend | src/queue.hh:129-175 | removal works piecewise over a concatenation, so the kept delegates keep their relative order |
| Queues.WithoutIdempotent | src/queue.hh:129-175 | removing the same instance twice removes nothing more |
| Queues.AddThenRemove | src/queue.hh:124-139 | adding a delegate and then removing its instance gives the list without that instance |
| Queues.EraseInstance | src/queue.hh:130-138 | the in-place erase loop leaves exactly the delegates of other instances, in order |
| Queues.Invoke | src/queue.cc:127-149 | the `_signal*` loops call the delegates of their list in list order |
| Queues.Release | src/queue.cc:105 | unreferencing one message's buffer takes one count from that buffer's counter only, and every owner stays valid |
| Queues.Queue.constructor | src/queue.cc:22-23 | a new queue is not running and has no messages and no delegates |
| Queues.Queue.Send | src/queue.cc:35-43 | `send` adds one to the buffer's count and appends one message (buffer, sink, overwrite flag) at the tail |
| Queues.Queue.IsStopped | src/queue.cc:45-53 | `isStopped` is always the negation of `isRunning` |
| Queues.Queue.Start | src/queue.cc:57-92 | `start` does nothing when the queue runs; otherwise the queue runs and the start delegates are called in order |
| Queues.Queue.Stop | src/queue.cc:63-67 | `stop` clears the running flag |
| Queues.Queue.ProcessMessages | src/queue.cc:97-106 | the drain loop delivers every queued message in FIFO order and unreferences each buffer once it is delivered; the queue ends empty |
| Queues.Queue.MainIteration | src/queue.cc:95-116 | one pass of the loop delivers the queue in FIFO order, then calls the idle delegates only when the queue is running |
| Queues.Queue.Finish | src/queue.cc:118-166 | at the end of the loop the stop delegates are called in order and the queue no longer runs |
| Queues.Queue.Wait | src/queue.cc:69-80 | `wait` unreferences the buffer of every message still queued and empties the queue |
| Queues.Queue.AddIdle | src/queue.hh:124-127 | `addIdle` appends one delegate to the idle list only |
| Queues.Queue.AddStart | src/queue.hh:142-145 | `addStart` appends one delegate to the start list only |
| Queues.Queue.AddStop | src/queue.hh:160-163 | `addStop` appends one delegate to the stop list only |
| Queues.Queue.RemIdle | src/queue.hh:129-139 | `remIdle` removes every idle delegate of the instance and touches no other list |
| Queues.Queue.RemStart | src/queue.hh:147-157 | `remStart` does the same on the start list |
| Queues.Queue.RemStop | src/queue.hh:165-175 | `remStop` does the same on the stop list |
| Queues.DeliveryScenario | src/queue.cc:35-43 | a buffer sent twice through the queue has count 2 while queued and 1 once both messages are delivered, in send order (also lines 97-106) |
| Nodes.LookupIn | src/node.cc:88-96 | a sink has an entry in the sink table exactly when some entry names it |
| Nodes.Insert | src/node.cc:89 | `_sinks[sink] = direct` keeps the table in sink order, maps the sink to the new flag, leaves every other sink's entry and grows the table only for a new sink |
| Nodes.Remove | src/node.cc:95 | `_sinks.erase(sink)` keeps the order, drops that sink's entry and leaves every other entry |
| Nodes.Granted | src/node.cc:75-81 | overwriting is granted only when the caller allows it and exactly one sink is connected |
| Nodes.Queued | src/node.cc:79-83 | the queued deliveries all carry the sent buffer and the granted flag, at most one per sink |
| Nodes.Direct | src/node.cc:71-78 | the direct calls all pass the sent buffer and the granted flag, at most one per sink |
| Nodes.EachSinkOnce | src/node.cc:68-84 | every connected sink receives the buffer exactly once, directly or through the queue |
| Nodes.SharedBufferReadOnly | src/node.cc:75-81 | with more than one sink, no delivery may overwrite the buffer |
| Nodes.Configures | src/node.cc:109-115 | propagation sends one `config` call with the same configuration to every sink, in sink order |
| Nodes.SinkHandleBuffer | src/node.hh:189-191 | `Sink::handleBuffer` passes the buffer, seen as length / element-size elements of the sink's type, and the same overwrite flag |
| Nodes.Source.constructor | src/node.cc:56-60 | a new source has the default configuration and no sinks |
| Nodes.Source.Connect | src/node.cc:87-91 | `connect` records the sink with its flag, replacing an earlier entry, leaves other sinks alone and configures the sink with the current configuration |
| Nodes.Source.Disconnect | src/node.cc:93-96 | `disconnect` removes only that sink |
| Nodes.Source.PropagateConfig | src/node.cc:108-115 | `propagateConfig` configures every sink in sink order with the stored configuration |
| Nodes.Source.SetConfig | src/node.cc:98-106 | an equal configuration changes nothing and calls no sink; any other is stored and sent to every sink |
| Nodes.Source.Send | src/node.cc:66-85 | `send` calls the direct sinks in order and queues one message per other sink, all with the granted flag; the count grows by the number of queued messages |
| Nodes.SendAll | src/node.cc:68-84 | the send loop over the sink table produces exactly the direct calls and queued messages of the table |
| Nodes.Deliver | src/node.cc:71-83 | one sink's turn: a direct sink is called, any other gets a message and one more reference |
| Nodes.SendStep | src/node.cc:68-84 | the deliveries of the first i + 1 sinks are those of the first i followed by sink i's |
| Nodes.SendScenario | src/node.cc:66-85 | a lone direct sink may overwrite when the caller allows it; once a second, queued sink is connected neither may |
| Combining.Ring.Put | src/buffer.hh:515-520 | an input ring takes all new elements when they fit, none otherwise |
| Combining.Ring.Drop | src/buffer.hh:532-534 | an input ring loses its min(N, stored) oldest elements |
| Combining.DropAll | src/combine.hh:198-212 | every input ring is dropped by the same count |
| Combining.MinStored | src/combine.hh:130-133 | the minimum search starting from `SIZE_MAX` gives a count no input exceeds |
| Combining.MinStoredAttained | src/combine.hh:130-133 | that minimum is one input's stored count, unless there is no input or all hold more than `SIZE_MAX` |
| Combining.EmptyRings | src/combine.hh:120-122 | reallocation gives every input an empty ring of the combined buffer size |
| Combining.Column | src/combine.hh:205-207 | column i holds element i of every input, in input order |
| Combining.InterleavedLength | src/combine.hh:201-208 | interleaving num columns of N inputs gives num·N elements |
| Combining.InterleavedAtOne | src/combine.hh:201-208 | output position i·N + j holds element i of input j |
| Combining.Interleave.constructor | src/combine.hh:68-74 | a new interleaver has N empty input rings, the default configuration and no output buffer (also lines 155-159) |
| Combining.Interleave.Sink | src/combine.hh:162-169 | `sink(i)` gives sink i for i < N and a `RuntimeError` otherwise |
| Combining.Interleave.Configure | src/combine.hh:172-186 | `Interleave::config` ignores a config without type or buffer size, throws `ConfigError` on a foreign type, and otherwise allocates N·bufferSize elements and announces (type, rate, N·bufferSize, 1) |
| Combining.Interleave.Unify | src/combine.hh:98-118 | the unified config exists exactly when type and rate agree with the ones already set; it takes the input's type and rate and the larger buffer size; otherwise it is a `ConfigError` |
| Combining.Interleave.NotifyConfig | src/combine.hh:93-125 | `notifyConfig` ignores incomplete configs, throws on a type or rate clash without changing anything, and otherwise stores the unified config, reallocates every input ring and configures the output |
| Combining.Interleave.SinkConfig | src/combine.hh:31-43 | a sink's `config` needs type and rate, throws on a foreign type and otherwise hands over to `notifyConfig`: no buffer size changes nothing, a type or rate that disagrees with the unified one is a `ConfigError` that changes nothing, and otherwise the rings and output are reallocated for the unified configuration, which is published |
| Combining.Interleave.Process | src/combine.hh:189-215 | with N = 0 nothing happens; with the output held downstream N elements go from every input and nothing is sent; otherwise the first num = min(capacity/N, count) columns are interleaved into the output, sent, and num elements go from every input |
| Combining.Interleave.Fill | src/combine.hh:203-208 | the nested loop writes the first num columns, interleaved, to the start of the output and nothing after them |
| Combining.Interleave.FillColumn | src/combine.hh:205-207 | the inner loop writes element i of each input to positions i·N to i·N + N - 1 only |
| Combining.Interleave.NotifyData | src/combine.hh:128-135 | `notifyData` computes the minimum stored count and calls `process` only when it is positive |
| Combining.Interleave.SinkProcess | src/combine.hh:46-50 | a sink's `process` puts the data into its ring (silently lost when it does not fit) and then runs `notifyData` |
| Combining.ConfiguredInterleave | test/coreutilstest.cc:55-75 | the test's interleaver: two inputs, both configured with three-sample buffers, output of six elements |
| Combining.TestCounts | src/combine.hh:130-134 | with only the first input filled the minimum is 0; with both filled it is 3 |
| Combining.TestColumns | test/coreutilstest.cc:55-75 | [1,2,3] and [4,5,6] interleave to [1,4,2,5,3,6] |
| Combining.InterleaveScenario | test/coreutilstest.cc:55-75 | the first input alone sends nothing; after the second the output is [1,4,2,5,3,6] |
| Rechunking.BufferNode.constructor | src/buffernode.hh:23-27 | a new node has an empty pool (no buffers, none free) and holds no samples |
| Rechunking.BufferNode.Held | src/buffernode.hh:64-90 | fewer than one chunk of samples is ever held back |
| Rechunking.BufferNode.Published | src/buffernode.hh:44-57 | the published config keeps the input's type and rate, uses the node's chunk size and max(2, total input samples / chunk size) buffers |
| Rechunking.BufferNode.Configure | src/buffernode.hh:30-58 | `config` ignores a config lacking type, buffer size or buffer count, throws `ConfigError` on a foreign type, and otherwise grows the pool to the published count without freeing any new buffer |
| Rechunking.BufferNode.ConfigureFreeing | src/buffernode.hh:30-58 | `config` with the pool grown as intended: the same results, and the added buffers are free |
| Rechunking.BufferNode.Emit | src/buffernode.hh:69-87 | once held plus incoming samples make a chunk, floor((held + incoming) / size) chunks of exactly the chunk size are sent, the first being the held samples followed by the first incoming ones; (held + incoming) mod size samples are left |
| Rechunking.BufferNode.EmitFirst | src/buffernode.hh:71-78 | the first chunk is the held samples followed by the first size - held incoming samples |
| Rechunking.BufferNode.EmitRest | src/buffernode.hh:81-87 | the loop cuts whole chunks from the input, in order, while the unsent samples fill one, popping one pool buffer per chunk |
| Rechunking.BufferNode.Hold | src/buffernode.hh:64-68 | when held plus incoming samples make no chunk, the input is appended to the held samples and nothing is sent |
| Rechunking.BufferNode.Process | src/buffernode.hh:61-91 | with the leftover taken from the first unsent sample, every sample goes out once and in order: the chunks sent followed by the samples held are the old held samples followed by the input |
| Rechunking.BufferNode.ProcessAsWritten | src/buffernode.hh:61-91 | as written, the chunks are the same but the samples held are the first ones of the input, not the unsent ones |
| Rechunking.NoFreeBufferScenario | src/buffernode.hh:24-71 | a node configured as the library does it has pool buffers but none free, yet its first full chunk calls `getBuffer` |
| Rechunking.LeftoverAsWritten | src/buffernode.hh:90 | chunk size 2 and input [1,2,3]: [1,2] is sent and 1 is held instead of 3 |
| Rechunking.LeftoverCorrected | src/buffernode.hh:89-90 | the same input through the corrected node sends [1,2] and holds 3 |
| AutoCasting.SelectedCastMatchesTypes | src/autocast.hh:29-67 | the helper `config` selects for a pair reads elements of the input type's size and shape and writes elements of the output type, so the buffer allocated for bufferSize output elements is right |
| AutoCasting.SelectCastDomain | src/autocast.hh:29-74 | a helper exists only for int8, cint8, int16 and cint16 outputs and integer inputs, and a real output never gets a complex input |
| AutoCasting.ConvertFits | src/autocast.hh:108-246 | every selected helper writes a valid value of the output type (truncated to its width) |
| AutoCasting.ShiftRightRange | src/autocast.hh:117-166 | `x>>8` maps the int16 range onto the int8 range and is the floor of x / 256 |
| AutoCasting.WidenNarrowRoundTrip | src/autocast.hh:114-120 | widening int8 to int16 (`x<<8`) and narrowing back (`x>>8`) gives the sample back, real or complex (also lines 162-179, 216-225) |
| AutoCasting.UnsignedCentreWraps | src/autocast.hh:123-131 | the uint8 helpers subtract 127, so 255 wraps to -128 (and to -32768 after `<<8`) while 0..254 keep their order (also lines 182-190) |
| AutoCasting.Uint16OffsetIsOrderPreserving | src/autocast.hh:228-236 | `_uint16_cint16` subtracts 32768, keeps the order and lands in the int16 range |
| AutoCasting.RunCast | src/autocast.hh:108-246 | a helper loop writes the conversion of input element i at output position i, touches nothing after the input's length, and returns the bytes written (count times output element size) |
| AutoCasting.AutoCast.constructor | src/autocast.hh:17-21 | a new node has no helper and an empty buffer |
| AutoCasting.AutoCast.Configure | src/autocast.hh:24-87 | as written, `config` ignores an incomplete config; a supported pair selects its helper and allocates bufferSize elements; an unsupported pair keeps the earlier helper, and is a `ConfigError` only when there is none |
| AutoCasting.AutoCast.ConfigureFresh | src/autocast.hh:24-87 | with the selection cleared first, an unsupported pair is always a `ConfigError` |
| AutoCasting.AutoCast.HandleBufferAsWritten | src/autocast.hh:89-97 | as written: nothing without a helper; the identity helper forwards the input and then also sends a copy; every other helper sends the converted samples with overwrite allowed |
| AutoCasting.AutoCast.HandleBuffer | src/autocast.hh:89-97 | with the identity branch returning, every input is sent exactly once: unchanged for the identity, converted otherwise |
| AutoCasting.IdentityScenario | src/autocast.hh:93-96 | an int8 node fed int8 data sends one input twice as written, once corrected |
| AutoCasting.StaleCastScenario | src/autocast.hh:24-74 | an int16 node configured for uint8 and then for float input accepts the second config as written; a fresh selection rejects it |
| SignCasting.SelectConsistent | src/utils.cc:27-43 | the selected pair has the input's element size and shape, an output type of the same size, and the opposite node selects the way back (also lines 124-140) |
| SignCasting.SelectDomain | src/utils.cc:27-51 | `UnsignedToSigned` accepts exactly u8, cu8, u16 and cu16 and `SignedToUnsigned` exactly s8, cs8, s16 and cs16; any other type is a `ConfigError` (also lines 124-148) |
| SignCasting.Shift | src/utils.cc:84 | shifting a component by the offset (128 or 32768) lands in the range of the other signedness (also lines 96, 175, 184) |
| SignCasting.ShiftRoundTrip | src/utils.cc:84 | the two casts undo each other and keep the order of the samples (also lines 96, 175, 184) |
| SignCasting.Run | src/utils.cc:77-99 | the loop writes the shifted component i at output position i and leaves the rest of the output untouched (also lines 171-187) |
| SignCasting.Delivered | src/utils.cc:87 | a receiver that reads a sent view as components sees no more components than the view's byte length holds (also lines 98, 177, 186) |
| SignCasting.OffsetCast.constructor | src/utils.cc:9-13 | a new node has no selection and an empty buffer (also lines 106-110) |
| SignCasting.OffsetCast.Configure | src/utils.cc:19-61 | an incomplete config is ignored; a supported type selects the cast, allocates scalar size times bufferSize bytes and propagates the output config; any other type is a `ConfigError` that changes nothing (also lines 116-155) |
| SignCasting.OffsetCast.HandleBufferAsWritten | src/utils.cc:63-99 | as written: in place when overwrite is allowed, into the own buffer when it is unused, dropped otherwise; the 16-bit casts send a view whose byte length is the component count (also lines 157-187) |
| SignCasting.OffsetCast.HandleBuffer | src/utils.cc:63-99 | with the view's length in bytes, the receiver gets exactly the shifted components (also lines 157-187) |
| SignCasting.AsWrittenDelivers | src/utils.cc:98 | the view sent as written holds only the first half of the 16-bit components (also line 186) |
| SignCasting.UCharScenario | test/coreutilstest.cc:12-30 | the u8 samples 0, 128 and 255 become -128, 0 and 127 in place |
| SignCasting.UShortScenario | test/coreutilstest.cc:33-85 | the u16 samples 0, 128 and 255 become -32768, -32640 and -32513; as written the receiver sees only the first one |
| SubSampling.Feed | src/subsample.hh:91-98 | a run over the inputs emits at most one output per input |
| SubSampling.FeedStep | src/subsample.hh:93-98 | a run from input i is the step on input i followed by the run over the rest |
| SubSampling.BlockCounts | src/subsample.hh:91-98 | the reference splits the inputs into `size / n` whole blocks and a leftover of `size % n` inputs |
| SubSampling.BlockPeel | src/subsample.hh:94-97 | a whole block at the front is averaged first and does not change the leftover |
| SubSampling.FeedIsBlockAverage | src/subsample.hh:91-98 | with a partial block carried in `_last`/`_left`, `_process` emits the (truncated) averages of the consecutive blocks of n inputs and carries the sum and count of the incomplete last block |
| SubSampling.FeedCounts | src/subsample.hh:94-97 | a run emits one output per completed block and leaves `_left` below n |
| SubSampling.OutputFits | src/subsample.hh:55-97 | starting below n carried inputs, a run over at most bufferSize inputs emits at most `ceil(bufferSize / n)` outputs, the size of the buffer `config` allocates |
| SubSampling.CeilBound | src/subsample.hh:55-56 | a count up to `size + n - 1` divided by n is at most the rounded-up quotient `config` computes |
| SubSampling.AverageInRange | src/subsample.hh:96 | the truncated average of a block lies within the range of its inputs, so every output fits the sample type |
| SubSampling.SumBounds | src/subsample.hh:94 | the sum of a block lies between its length times the lower and the upper bound |
| SubSampling.SubSample.ByFactor | src/subsample.hh:23-28 | `SubSample(n)`: factor n, no target rate, an empty accumulator |
| SubSampling.SubSample.ByRate | src/subsample.hh:31-36 | `SubSample(Fs)`: factor 1 until configured, the target rate kept, an empty accumulator |
| SubSampling.SubSample.Factor | src/subsample.hh:52 | the factor derived from a source rate is `max(1, rate / target)` truncated to an integer |
| SubSampling.SubSample.Configure | src/subsample.hh:39-72 | ignored without type or buffer size; a type other than the node's is a `ConfigError`; otherwise the factor follows the source rate when a target is set, the buffer holds `ceil(bufferSize / n)` samples and the output config has rate `rate / n` |
| SubSampling.SubSample.Push | src/subsample.hh:94-97 | one input of the loop advances the run over the remaining inputs and writes at most the output slot j |
| SubSampling.SubSample.Run | src/subsample.hh:91-100 | `_process` writes the run's outputs at the front of the output, which may be the input itself, sends them and carries the accumulator |
| SubSampling.SubSample.Process | src/subsample.hh:75-87 | in place when overwrite is allowed, into the own buffer when it is unused, otherwise dropped with nothing changed |
| SubSampling.FracSubSample.PeriodOf | src/subsample.hh:129-137 | a fraction below 1 is a `ConfigError`; otherwise the period is `frac * 2^16` truncated, at least 2^16 |
| SubSampling.FracSubSample.constructor | src/subsample.hh:129-137 | a new sub-sampler has the given period and a zero sum and count |
| SubSampling.FracSubSample.SetFrac | src/subsample.hh:145-152 | a fraction below 1 is a `ConfigError` that changes nothing; otherwise the period is replaced and sum and count are reset |
| SubSampling.FracSubSample.Frac | src/subsample.hh:155-157 | `frac()` is the period over 2^16, at least 1 |
| SubSampling.FracSubSample.Reset | src/subsample.hh:160-162 | `reset` zeroes the sum and the count and keeps the period |
| SubSampling.FracSubSample.Push | src/subsample.hh:169-173 | one input of the loop advances the fractional run and writes at most the output slot j |
| SubSampling.FracSubSample.Subsample | src/subsample.hh:166-176 | `subsample` writes the fractional run's outputs at the front of the output and returns them, carrying sum and count |
| SubSampling.NewFracSubSample | src/subsample.hh:129-137 | the constructor throws a `ConfigError` exactly for a fraction below 1 |
| SubSampling.FracFeed | src/subsample.hh:168-174 | a fractional run emits at most one output per input |
| SubSampling.FracFeedStep | src/subsample.hh:168-174 | a fractional run from input i is one step followed by the rest |
| SubSampling.FracIsBlockAverage | src/subsample.hh:166-176 | since the count grows in whole units of 2^16, the fractional sub-sampler averages blocks of `ceil(period / 2^16)` inputs, the same as `SubSample` with that factor; the divisor `count >> 16` is never 0 |
| SubSampling.CeilReached | src/subsample.hh:170 | `count >= period` with count a multiple of 2^16 holds exactly when the number of inputs reaches `ceil(period / 2^16)` |
| SubSampling.FirstRun | src/subsample.hh:91-98 | by 2 over [1, 3, 5] emits 2 and carries the 5 |
| SubSampling.SecondRun | src/subsample.hh:91-98 | with the 5 carried, [-12, 6, 8] emits -3 (truncated toward zero) and 7 and empties the accumulator |
| SubSampling.FirstBuffer | src/subsample.hh:75-100 | an int16 node sub-sampling by 2 in place sends [2] for its first buffer and carries one sample |
| SubSampling.CarryScenario | src/subsample.hh:75-100 | the carried sample enters the average of the second buffer |
| FastMath.EighthBound | src/math.hh:18-39 | each quotient `pi4*(b∓ | a | ) / (b± | a | )` lies within one eighth of a turn (2^12) of zero |
| FastMath.AngleRange | src/math.hh:17-39 | before the sign is applied the angle is in [0, 2^13] for b >= 0 and in [2^13, 2^14] for b < 0 |
| FastMath.Atan2Range | src/math.hh:31-41 | `fast_atan2(0, 0)` is 0; the result has the sign of a; its magnitude is at most a quarter turn when b >= 0 and between a quarter and a half turn when b < 0 |
| FastMath.NoDivisionByZeroOrOverflow | src/math.hh:36-39 | neither divisor is zero unless both inputs are, which returns early, and every intermediate product fits `int32_t` |
| FastMath.S8AgreesWithS16 | src/math.hh:12-41 | the int8 and int16 versions compute the same angle on int8 inputs |
| FastMath.U8IsCentred | src/math.hh:24-28 | the uint8 version is the signed version of the inputs minus 128, the conversion to `int8_t` never wraps, and (128, 128) is the origin |
| FastMath.Landmarks | src/math.hh:31-41 | the positive b axis, the diagonals, the a axis and the negative b axis give 0, 2^12, 2^13, 3·2^12 and 2^14; the negative b axis is +2^14 only |
| FastMath.OddInA | src/math.hh:37-40 | negating a non-zero a negates the angle |
| Operators.Narrow | src/operators.hh:80-152 | converting a shift result back to the element type gives a value of that type and keeps every value that already fits |
| Operators.Div2IsMul2ByNegated | src/operators.hh:80-89 | `div2(a, n)` on `uint8_t` is `mul2(a, -n)` |
| Operators.Mul2RoundTrip | src/operators.hh:80-83 | a left shift whose result fits the type is `a · 2^n` and is undone by `mul2(·, -n)` (also lines 110-113, 125-128, 140-143) |
| Operators.QuotientTowardZero | src/operators.hh:81-141 | the floor quotient by a power of two brackets a and lies between 0 and a |
| Operators.Mul2RightIsFloor | src/operators.hh:81-141 | `mul2(a, -k)` is the floor of a / 2^k and never leaves the type |
| Operators.Mul2LeftWraps | src/operators.hh:82-142 | a left shift keeps only the bits of the element type: 0x81·2 is 2 in `uint8_t`, 0x40·2 is -128 in `int8_t` |
| Operators.Mul2C | src/operators.hh:92-98 | complex `mul2` shifts both parts the same way and stays in the element type |
| Operators.Div2CIsMul2CByNegated | src/operators.hh:92-107 | complex `div2(z, n)` on `complex<uint8_t>` is `mul2(z, -n)` |
| Operators.Mul2CAsWrittenDiffers | src/operators.hh:116-152 | as written, the `complex<int8_t>`, `complex<uint16_t>` and `complex<int16_t>` overloads agree with the intended shift exactly when n <= 0 and shift by a negative count (undefined) for every n > 0 |
| Operators.Mul2CDoubling | src/operators.hh:146-152 | doubling (1, 1) should give (2, 2); as written it is a shift by -1 |
| Operators.ShlC32 | src/operators.hh:44-46 | `complex<int32_t> << b` shifts both parts and wraps each at 32 bits |
| Operators.ShiftC32Independent | src/operators.hh:44-50 | each part of a shifted `complex<int32_t>` depends only on the same part, and a left shift that does not overflow is undone by the right shift |
| WavHeader.Encode | src/wavfile.hh:88-103 | `write` of an integer field puts exactly its n little-endian bytes |
| WavHeader.DecodeEncode | src/wavfile.cc:58 | reading back a written field gives the value written when it fits the field (also lines 77, 79, 87, 95-98, 135) |
| WavHeader.ParseFormat | src/wavfile.cc:50-112 | `open` accepts the header only with "RIFF" at 0, "WAVE" at 8, "fmt " at 12, format 1, one or two channels, 8 or 16 bits and block alignment channels · bits / 8; everything else is a `RuntimeError` |
| WavHeader.FindData | src/wavfile.cc:113-130 | the search for the "data" chunk as evidently intended: skips whole chunks from the end of the "fmt " chunk and finds a "data" id with its size field inside the file, or is a `RuntimeError` |
| WavHeader.ScanStart | src/wavfile.cc:115-118 | the first read of the search: when it succeeds, the id is the 4 bytes at the offset, inside the file |
| WavHeader.ScanStep | src/wavfile.cc:119-125 | one round of the loop as written: a failed stream stays failed, and a successful read leaves the id of the 4 bytes at the new offset, inside the file |
| WavHeader.ScanAsWritten | src/wavfile.cc:118-125 | when the loop as written stops, it has read "data" from inside the file and the stream has not failed |
| WavHeader.StuckStaysStuck | src/wavfile.cc:119-125 | once a read has failed the stream keeps its last id and the loop condition stays true |
| WavHeader.StuckSpinsForever | src/wavfile.cc:119-125 | the loop as written never ends once a read has failed, however many rounds it runs |
| WavHeader.FailureIsStuck | src/wavfile.cc:118-125 | a read fails only after an id other than "data" was read, so a failed search is always stuck |
| WavHeader.FrameCountDiffers | src/wavfile.cc:138 | `chunk_size/(2*n_chanels)` is the frame count for 16-bit samples but half of it for 8-bit samples (100 bytes of mono 8-bit: 50 instead of 100) |
| WavHeader.Open | src/wavfile.cc:32-148 | as intended `open` yields one of u8, s16, cu8 or cs16, one or two channels of 8 or 16 bits, and a data start inside the file |
| WavHeader.ReadOverEnds | src/wavfile.cc:135 | the `read` of the data size takes the 4 bytes when the file holds them, and keeps the value `chunk_size` last held when the file ends right after "data" |
| WavHeader.OpenAsWritten | src/wavfile.cc:32-148 | `open` as written, within a number of search rounds: throws a `RuntimeError` or `ConfigError`, or opens as u8, s16, cu8 or cs16 with one or two channels of 8 or 16 bits and a data start at most 4 bytes past the end of the file |
| WavHeader.Write | src/wavfile.hh:86-103 | the header `close` writes is 44 bytes |
| WavHeader.SinkFields | src/wavfile.hh:88-103 | every field `close` computes is cut to its width (32 or 16 bits) |
| WavHeader.HeaderAsWritten | src/wavfile.hh:86-103 | the header as written, with the RIFF size 36 + 2 · frames, is 44 bytes |
| WavHeader.Header | src/wavfile.hh:86-103 | the header with the RIFF size 36 plus the data size is 44 bytes |
| WavHeader.WriteLayout | src/wavfile.hh:86-103 | where each field of a written header sits: "RIFF", size, "WAVE", "fmt ", 16, PCM, channels, rate, byte rate, alignment, bits, "data", data size |
| WavHeader.EncodeInjective | src/wavfile.hh:88-103 | two four-byte fields are equal exactly when their values are |
| WavHeader.ReadFields | src/wavfile.cc:50-112 | the format checks of `open` accept a readable written header and read its fields back, and the data size after "data" (also line 135) |
| WavHeader.WriteOpen | src/wavfile.cc:32-148 | `open` reads a readable header back whatever its RIFF size, with the samples at byte 44; as intended with the frame count over the block alignment, as written with `chunk_size/(2*n_chanels)` |
| WavHeader.ParseFormatPrefix | src/wavfile.cc:50-112 | the format checks read only the first 36 bytes |
| WavHeader.NoDataChunk | src/wavfile.cc:117-130 | a file cut after its "fmt " chunk is a `RuntimeError` as intended, while the search as written keeps running |
| WavHeader.DataSizeMissing | src/wavfile.cc:117-138 | a header cut right after its "data" id is a `RuntimeError` as intended; as written it opens, with the 16 of the "fmt " size taken for the data size and the data start past the end of the file |
| WavHeader.FrameBytes | src/wavfile.hh:103 | the data size `close` writes is the frame count times the block alignment |
| WavHeader.HeaderRoundTrip | src/wavfile.hh:81-105 | a header `close` writes for one or two channels of 8 or 16 bits opens, as intended, with the channels, bits, rate and frame count written, whatever its RIFF size |
| WavHeader.EightBitFramesHalved | src/wavfile.cc:138 | a mono 8-bit file of 100 frames written by `WavSink` opens with 100 frames as intended and 50 as written |
| WavHeader.RiffBytes | src/wavfile.hh:87-88 | the size field is bytes 4 to 8 and the rest of the header does not depend on it |
| WavHeader.TwoBytesPerFrame | src/wavfile.hh:88-103 | 36 + 2 · frames equals 36 plus the data size exactly when a frame is two bytes |
| WavHeader.WriteRiffOnly | src/wavfile.hh:86-103 | two headers differing at most in the RIFF size are equal exactly when the RIFF sizes are |
| WavHeader.SinkRiffSizes | src/wavfile.hh:88-103 | both RIFF sizes fit 32 bits, and they are the only field in which the two headers differ |
| WavHeader.RiffSizeDiffers | src/wavfile.hh:88 | the header as written is the intended one exactly when a frame is two bytes (mono 16-bit or stereo 8-bit); otherwise only the RIFF size differs |
| WavHeader.RiffSizeStereo16 | src/wavfile.hh:88 | a stereo 16-bit file of 10 frames gets the RIFF size 56 instead of 76 |
| WavFiles.ChunksCover | src/wavfile.cc:198-239 | reading a file of `left` frames reads every frame exactly once, in ceil(left / size) buffers of at most `size` frames, all but the last full |
| WavFiles.RealIffMono | src/wavfile.cc:139-196 | `isReal` holds exactly for the mono files, and the selected type's element size is the block alignment |
| WavFiles.WavSource.constructor | src/wavfile.cc:9-14 | a new source has no file, an undefined type and no frames |
| WavFiles.WavSource.Open | src/wavfile.cc:32-185 | an unopenable file leaves the source closed and its state unchanged; a header the intended reading rejects is an error that leaves the file open and keeps the type, rate, frame count, frames left and buffer; an accepted one sets type, rate and frame count, positions the stream at the samples and allocates a buffer of `buffer_size` elements of the type |
| WavFiles.WavSource.Close | src/wavfile.cc:187-190 | `close` closes the file and leaves no frames |
| WavFiles.WavSource.IsReal | src/wavfile.cc:193-196 | `isReal` holds exactly for u8 and s16 |
| WavFiles.WavSource.Next | src/wavfile.cc:198-239 | with no frames left the file is closed and the queue told to stop; otherwise min(frames left, buffer size) frames are read from the stream into the buffer and sent, and the frames left drop by that many |
| WavFiles.NextFollowsChunks | src/wavfile.cc:213-233 | the first `next` reads the first chunk of `Chunks`, and the frames left are the rest |
| WavFiles.SinkLayoutReadsBack | src/wavfile.hh:30-55 | `WavSink` rejects exactly the floating-point types; for the others a frame is one sample, and `WavSource` reads the file back as a type of the same size and shape (also lines 139-142) |
| WavFiles.WavSink.constructor | src/wavfile.hh:17-56 | a new sink has written 44 zero bytes, no frames and rate 0 |
| WavFiles.WavSink.Configure | src/wavfile.hh:66-78 | ignored without type or rate; a type other than the sink's is a `ConfigError`; otherwise the rate is stored, truncated to an integer |
| WavFiles.WavSink.Process | src/wavfile.hh:108-112 | an open sink appends the buffer's bytes and adds its sample count to the frame count, wrapping at 32 bits; a closed one ignores it |
| WavFiles.WavSink.Close | src/wavfile.hh:81-105 | as intended, the header with the RIFF size 36 plus the data size replaces the first 44 bytes and the file is closed; closing again changes nothing |
| WavFiles.WavSink.CloseAsWritten | src/wavfile.hh:81-105 | as written, the header written has the RIFF size 36 + 2 · frames |
| WavFiles.SinkThenSource | src/wavfile.hh:81-105 | a file closed by `WavSink` with fewer than 2^32 bytes of samples opens in `WavSource` with the sink's rate and frame count and a sample type of the sink's size |
| Ax25.CrcTableIsGenerated | src/ax25.cc:8-41 | every entry of `crc_ccitt_table` is eight reflected steps of the generator x^16 + x^12 + x^5 + 1 (0x8408) applied to its index, the table of appendix C.2 of RFC 1662 |
| Ax25.Fcs | src/ax25.cc:43-50 | the FCS a sender appends is two bytes, the complemented register low byte first |
| Ax25.FcsResidue | src/ax25.cc:43-50 | every message followed by its FCS passes `check_crc_ccitt`: 0xf0b8 is the residue of RFC 1662 |
| Ax25.CrcPrefix | src/ax25.cc:46-48 | the register after one more byte is one table step from the register before it |
| Ax25.CheckCrc | src/ax25.cc:43-50 | `check_crc_ccitt` accepts exactly when the register folded from 0xffff over the bytes ends with low 16 bits 0xf0b8 |
| Ax25.Completed | src/ax25.cc:100-117 | a flag passes on only the bytes received, when receiving, with more than two bytes and a good FCS |
| Ax25.Receive | src/ax25.cc:126-157 | a bit that is not part of a flag stores at most one byte, never beyond 512 bytes, and never starts reception |
| Ax25.DataBitOverruns | src/ax25.cc:140-147 | a completed byte with 512 already held makes the deframer wait for a flag |
| Ax25.DataBitStores | src/ax25.cc:140-153 | a completed byte with room is stored (`_bitbuffer >> 1`) and the marker 0x80 starts over |
| Ax25.Step | src/ax25.cc:94-158 | one bit of `process` keeps at most 512 bytes and passes on only a frame of more than two bytes with a good FCS |
| Ax25.FlagCloses | src/ax25.cc:99-124 | a frame is passed on exactly when a flag 0x7e closes a reception of more than two bytes with a good FCS, and every flag starts an empty reception with marker 0x80 |
| Ax25.WaitsForFlag | src/ax25.cc:127-130 | seven ones in a row stop reception, and a waiting deframer keeps waiting and stores nothing until a flag |
| Ax25.StuffedBitDropped | src/ax25.cc:133 | a zero after five ones is discarded: only the bit stream changes |
| Ax25.Feed | src/ax25.cc:92-159 | over a buffer of bits every frame passed on has 3 to 512 bytes and a good FCS, and at most 512 bytes are held |
| Ax25.FeedLast | src/ax25.cc:94 | the bits are processed in order, one step per bit |
| Ax25.ZeroBytes | src/ax25.cc:137-157 | eight zero bits per byte store n zero bytes while they fit |
| Ax25.FlagStarts | src/ax25.cc:99-124 | a flag received from reset starts an empty reception |
| Ax25.TerminatorIndex | src/ax25.cc:100-101 | the zero terminator is written at the number of bytes held, which is more than 2 |
| Ax25.OverrunWritesPastBuffer | src/ax25.cc:101-150 | a flag, 512 zero bytes and a closing flag make the overrun check let all 512 bytes in, and the terminator is written at index 512, one past the 512-byte `_rxbuffer` |
| Ax25.Ax25Node.constructor | src/ax25.cc:54-58 | a new node holds no bytes |
| Ax25.Ax25Node.Configure | src/ax25.cc:64-89 | ignored without a type; a type other than `uint8_t` is a `ConfigError`; otherwise the deframer is reset and the output config is bytes at rate 0 in buffers of 512 |
| Ax25.Ax25Node.ProcessBit | src/ax25.cc:95-157 | one iteration of the loop updates the node as `Step` says and passes on the frame it completes |
| Ax25.Ax25Node.CloseFrame | src/ax25.cc:99-124 | a flag passes on the completed frame, if any, and starts an empty reception |
| Ax25.Ax25Node.Process | src/ax25.cc:91-159 | `process` over a buffer of bits leaves the node in the state `Feed` gives and sends its frames in order |
| Ax25.CallChar | src/ax25.cc:166 | a callsign character is its address byte shifted right by one, a seven-bit character |
| Ax25.UnpackCall | src/ax25.cc:162-172 | `unpackCall` gives at most six seven-bit characters, an SSID below 16 from bits 1-4 of byte 6, and `addrExt` exactly when bit 0 of byte 6 is clear |
| Ax25.PackCall | src/ax25.cc:162-172 | the address field of section 3.12 of AX.25 2.2 is seven bytes: six shifted characters padded with spaces, then the SSID byte |
| Ax25.CallRoundTrip | src/ax25.cc:166 | a seven-bit character survives the shift left and back |
| Ax25.SsidRoundTrip | src/ax25.cc:170-171 | the SSID and the extension bit survive the SSID byte |
| Ax25.UnpackPack | src/ax25.cc:162-172 | unpacking a packed address gives it back when the callsign has no spaces of its own |
| Ax25.InnerSpaceTruncates | src/ax25.cc:164-169 | `unpackCall` keeps as many leading characters as there are non-space ones: "A B" comes back as "A " |
| Aprs.At | src/aprs.cc:116 | `_payload[i]` reads the character at i inside the payload (also lines 162, 178) |
| Aprs.DigitChar | src/aprs.cc:52-54 | the digit character of d is a number whose value `c - 0x30` is d (also line 179) |
| Aprs.TwoText | src/aprs.cc:256-259 | the two-digit text of n is two numbers that read back as n |
| Aprs.SymbolTable | src/aprs.cc:56-99 | `__toSymbol` gives a symbol exactly when the table is '/' and the character is one of that symbol's |
| Aprs.NoAlternateSymbols | src/aprs.cc:93-98 | the alternate table '\\' gives no symbol, and the phone, BBS and bus symbols are never produced |
| Aprs.LatitudeText | src/aprs.cc:174-211 | a latitude in the APRS format is eight characters |
| Aprs.LongitudeText | src/aprs.cc:214-251 | a longitude in the APRS format is nine characters |
| Aprs.AtMiddle | src/aprs.cc:178-247 | the characters of a field written behind a prefix are read back at their offsets |
| Aprs.LatitudeRoundTrip | src/aprs.cc:174-211 | `_readLatitude` reads a written latitude (degrees, minutes, hundredths, N or S) back and moves the offset past its eight characters |
| Aprs.LongitudeRoundTrip | src/aprs.cc:214-251 | `_readLongitude` reads a written longitude (three degree digits, E or W) back and moves the offset past its nine characters |
| Aprs.TimeRoundTrip | src/aprs.cc:254-318 | `_readTime` reads each of the four time formats ('z', '/', 'h', eight digits) back and moves past it |
| Aprs.Handle | src/aprs.cc:17-41 | `handleAX25Message` decodes a frame exactly when its control byte is 0x03 and its protocol byte 0xf0 |
| Aprs.LocationText | src/aprs.cc:156-171 | a location is latitude, table character, longitude and symbol character, 19 characters |
| Aprs.LocationRoundTrip | src/aprs.cc:146-171 | a written location is read back with the symbol of its table and character, and what follows it becomes the comment |
| Aprs.PositionRoundTrip | src/aprs.cc:109-153 | a '!' or '=' report is decoded into its coordinates, its symbol and the rest as comment, with no time |
| Aprs.TimedRoundTrip | src/aprs.cc:109-153 | a '/' or '@' report, or a ';' object with its nine-character name and delimiter skipped, is decoded into its time stamp, coordinates, symbol and comment |
| Aprs.TimedBody | src/aprs.cc:143-153 | after the type, a time stamp and a location are read in turn and the rest becomes the comment |
| Aprs.OtherTypes | src/aprs.cc:134-140 | any other type character gives no location and no time, and everything from offset 2 on is the comment |
| Aprs.FailedRead | src/aprs.cc:143-148 | a failed time or location read ends the decoding with `_hasLocation` already set, no symbol and no comment |
| Aprs.Message.constructor | src/aprs.cc:109-154 | the constructor sets the fields `Decode` gives for the payload |
| Aprs.Message.ReadBody | src/aprs.cc:143-153 | the part of the constructor after the type character sets the fields `Body` gives |
| Aprs.Message.ReadRest | src/aprs.cc:146-153 | the location and the comment after it |
| Aprs.Message.ReadTime | src/aprs.cc:254-318 | `_readTime` succeeds exactly when the time field is well formed, then sets the time and moves the offset past it; on failure the time is kept |
| Aprs.Message.ReadTwo | src/aprs.cc:256-259 | two digits read succeed exactly when both are numbers and give their value |
| Aprs.Message.ReadLatitude | src/aprs.cc:174-211 | `_readLatitude` succeeds exactly as `Latitude` says, leaving the partial value read on failure |
| Aprs.Message.ReadLongitude | src/aprs.cc:214-251 | `_readLongitude` succeeds exactly as `Longitude` says, leaving the partial value read on failure |
| Aprs.Message.ReadMinutes | src/aprs.cc:184-197 | the minutes are two digits, '.', two digits |
| Aprs.Message.ReadLocation | src/aprs.cc:156-171 | `_readLocation` reads latitude, table, longitude and symbol, as `Location` says |
| Bch.FlipIsXor | src/bch31_21.cc:138-149 | `data ^ (1 << n)` inverts bit n and nothing else |
| Bch.EvenParity | src/bch31_21.cc:21-30 | `even_parity` folds the word in halves down to one bit: the XOR of all 32 bits |
| Bch.SyndromeOf | src/bch31_21.cc:32-46 | the syndrome is the remainder of the shifted-out word, with bit 10 set when the parity is odd |
| Bch.PocsagSyndrome | src/bch31_21.cc:32-46 | `pocsag_syndrome`'s 21-round loop computes that syndrome |
| Bch.Division | src/bch31_21.cc:36-41 | the rounds from r on are polynomial division by g(x) = x^10+x^9+x^8+x^6+x^5+x^3+1 (`BCH_POLY` 03551): the remainder plus the quotient times g is the word |
| Bch.SyndromeIsRemainder | src/bch31_21.cc:7-46 | the syndrome's low ten bits are the remainder of the 31-bit codeword by g(x), bit 10 is its parity, and the bits above are zero: it is zero exactly for a codeword of the (31,21) code with even parity |
| Bch.LaneRoundIsRound | src/bch31_21.cc:70-78 | the eight XORs per round of `bitslice_syndrome` are the round of `pocsag_syndrome` on every lane |
| Bch.SliceReduceLane | src/bch31_21.cc:68-79 | the bit-sliced division computes, for each of the 32 lanes, the reduction of that lane |
| Bch.ParityLanes | src/bch31_21.cc:53-82 | the parity mask OR-ed into row 10 completes the syndrome of every lane |
| Bch.RoundRows | src/bch31_21.cc:70-78 | one round XORs the top row into the eight rows of the generator's bits |
| Bch.ShiftOut | src/bch31_21.cc:53-60 | the first loop shifts every lane right by one and collects each lane's parity |
| Bch.BitsliceSyndrome | src/bch31_21.cc:48-83 | `bitslice_syndrome` replaces each of the 32 lanes by its `pocsag_syndrome` |
| Bch.TransposeN | src/bch31_21.cc:85-98 | `transpose_n` gathers lane n of the matrix into a word |
| Bch.TransposeClone | src/bch31_21.cc:100-114 | `transpose_clone` makes every lane a copy of the word |
| Bch.ZeroLanes | src/bch31_21.cc:141-143 | `~(OR of the rows)` has bit j set exactly when lane j is zero |
| Bch.HighestBit | src/bch31_21.cc:146-148 | the counting loop finds the highest set bit |
| Bch.FlipPairSwap | src/bch31_21.cc:159-160 | flipping two bits does not depend on their order |
| Bch.FlipPairDiffers | src/bch31_21.cc:159-160 | flipping two distinct bits changes exactly those two |
| Bch.FoundPair | src/bch31_21.cc:162-175 | a zero lane in a batch of pair flips is a repair that differs from the word in exactly two bits |
| Bch.AllPairsFail | src/bch31_21.cc:157-200 | when every batch has been tried without a zero lane, no pair of flips repairs the word |
| Bch.TryBatch | src/bch31_21.cc:162-199 | a batch test keeps a copy of the lanes, computes every lane's syndrome and reports the highest zero lane, if any |
| Bch.SingleFlips | src/bch31_21.cc:137-143 | the single-bit stage marks exactly the bits whose flip gives a zero syndrome |
| Bch.PairSearch | src/bch31_21.cc:153-200 | the two-bit stage finds a repair differing in exactly two bits, or there is none |
| Bch.PocsagRepair | src/bch31_21.cc:123-212 | `pocsag_repair` returns 0 for a codeword; otherwise repairs the highest single bit that gives a zero syndrome, else a pair of bits; it returns 1, with the word unchanged, exactly when no flip of one or two bits gives a zero syndrome |
| Pocsag.ValueOfBits | src/pocsag.cc:43-60 | a 32-bit word spelled out as bits reads back as the word modulo 2^32 |
| Pocsag.BitsOfValue | src/pocsag.cc:43-60 | a bit sequence is rebuilt from the number it stands for |
| Pocsag.SyncValue | src/pocsag.cc:44-75 | the sync word of the model is 0x7CD215D8 |
| Pocsag.IdleValue | src/pocsag.cc:93 | the idle word of the model is 0x7A89C197 |
| Pocsag.WordConstants | src/pocsag.cc:44-93 | the sync word and the idle word differ |
| Pocsag.IsAddressBelow | src/pocsag.cc:6-8 | `is_address` holds exactly for the words below 2^31 |
| Pocsag.ConstantsLookLikeAddresses | src/pocsag.cc:6-8 | the idle word and the sync word both pass `is_address`, so the idle test in `_process_word` must come before the address test (also lines 93-98) |
| Pocsag.AddressDropsFrameBit | src/pocsag.cc:101 | as written the address keeps only `slot & 0x03`: its low three bits are the slot modulo 4, frames 4 .. 7 give the address of frame slot - 4, and it equals the three-bit address exactly for the slots below 4 |
| Pocsag.AddressFields | src/pocsag.cc:101-102 | the corrected address holds the 18 address bits over the 3 frame bits, both read back, and the address and function fit 21 and 2 bits |
| Pocsag.AddBit | src/pocsag.cc:188-190 | one step of `addPayload`: a new byte 0 on a byte boundary, then the bit shifted into the last byte |
| Pocsag.FeedLength | src/pocsag.cc:186-193 | the payload holds one byte per started group of 8 bits |
| Pocsag.AddPayloadAsWritten | src/pocsag.cc:182-194 | `addPayload` as written keeps the payload well-formed and computes `(last << 1) \| (word & mask)` stored in a byte |
| Pocsag.PayloadAsWrittenIsZero | src/pocsag.cc:185-192 | as written every payload byte stays 0: `word & mask` is at bit 11 or above and is cut off when stored in a `uint8_t` |
| Pocsag.AddPayload | src/pocsag.cc:182-194 | `addPayload` with the data bit `(word & mask) != 0` entering each byte keeps the payload well-formed |
| Pocsag.PayloadIsPacked | src/pocsag.cc:182-194 | the corrected `addPayload` appends the 20 data bits 30 .. 11 of the word to the packed bit stream, 8 bits per byte, the first bit most significant |
| Pocsag.MessagePacks | src/pocsag.cc:182-194 | a message opened by an address and followed by data words holds 20 bits per word and exactly their data bits, packed 8 to a byte (also lines 103, 109, 159-163) |
| Pocsag.ShiftWindow | src/pocsag.cc:38 | after any bits have been shifted in, the 64-bit register holds the last 64 bits received, the newest at bit 0 |
| Pocsag.LowWord | src/pocsag.cc:38-74 | after 32 bits or more the low word is the last 32 bits received, the first at bit 31 |
| Pocsag.Repair | src/pocsag.cc:44-75 | `0 == pocsag_repair(word)` with the corrected word: the outcome is a word with a zero syndrome at most two bits away, and none exactly when no such word exists |
| Pocsag.FinishConserves | src/pocsag.cc:126-131 | `_finish_message` empties the slot, leaves the others alone and queues the slot's message exactly when it was not empty |
| Pocsag.FinishUpToEmpties | src/pocsag.cc:133-138 | finishing the slots 0 .. k - 1 empties them and leaves the others alone |
| Pocsag.FinishUpToQueues | src/pocsag.cc:133-138 | finishing the slots 0 .. k - 1 queues their non-empty messages in slot order |
| Pocsag.IdleFinishes | src/pocsag.cc:93-95 | the idle word queues the slot's message if there is one and leaves the slot empty |
| Pocsag.AddressStarts | src/pocsag.cc:98-103 | an address word queues the slot's message and opens a new one holding the 18 address bits over the frame bits, the function bits and no payload; as written the frame bits are the slot modulo 4 (`_slot & 0x03`), as intended the slot itself |
| Pocsag.DataExtends | src/pocsag.cc:104-110 | a message word adds 20 bits to the slot's message, which keeps its address and function, and queues nothing; as written a zero payload stays zero, as intended the word's 20 data bits are appended to the packed payload |
| Pocsag.RunSilent | src/pocsag.cc:32-111 | as written, whatever bits arrive, every byte of every message in the slots, on the queue and handed to `handleMessages` stays 0: no decoded message ever carries data |
| Pocsag.SyncStarts | src/pocsag.cc:41-48 | WAIT moves to RECEIVE exactly when the repaired low word is the sync word, with the 8 slots empty at frame 0 and bit 0; otherwise only the register changes |
| Pocsag.FrameTiming | src/pocsag.cc:49-69 | RECEIVE counts to 64, where the frame's two words are processed and the slot advances; after slot 7 the decoder waits for a continuation |
| Pocsag.BatchContinues | src/pocsag.cc:70-77 | the 32nd bit after a batch continues with slot 0 exactly when it completes a sync word, keeping the messages under way |
| Pocsag.TransmissionEnds | src/pocsag.cc:78-82 | otherwise every pending message is finished in slot order and the whole queue is handed over, newest first; the decoder waits with empty slots and an empty queue (also lines 133-149) |
| Pocsag.HonestStep | src/pocsag.cc:44-75 | a step is faithful to the code when every word it checks was given to the repair |
| Pocsag.RunExtend | src/pocsag.cc:35-85 | one more faithful step extends a traced run by one bit |
| Pocsag.RunShifts | src/pocsag.cc:35-38 | whatever the repair does, the register after a run is the old register with the bits shifted in |
| Pocsag.PocsagNode.constructor | src/pocsag.cc:11-15 | the library leaves the state uninitialised until `config`; the model starts as `config` leaves it, waiting with a clear register, with empty slots and queue, and with the chosen word processing (as written or intended) |
| Pocsag.PocsagNode.Configure | src/pocsag.cc:17-30 | no type: nothing changes; a type other than `uint8_t`: `ConfigError`; otherwise WAIT with a clear register, nothing else changed |
| Pocsag.PocsagNode.ResetMessage | src/pocsag.cc:114-117 | the slot holds an empty message, the other slots are unchanged |
| Pocsag.PocsagNode.ResetAllMessages | src/pocsag.cc:119-124 | all 8 slots hold empty messages |
| Pocsag.PocsagNode.FinishMessage | src/pocsag.cc:126-131 | the new state is `_finish_message` of the old one |
| Pocsag.PocsagNode.FinishAllMessages | src/pocsag.cc:133-138 | the new state is every slot finished in order |
| Pocsag.PocsagNode.HandleMessages | src/pocsag.cc:140-149 | the queue is emptied from the back, its messages handed over newest first |
| Pocsag.PocsagNode.ProcessWord | src/pocsag.cc:89-111 | the new state is the word processed in the current slot, with the node's chosen word processing |
| Pocsag.PocsagNode.AcceptWord | src/pocsag.cc:57-61 | a word the repair kept is processed (as written or intended, as the node was built); one it gave up on is dropped |
| Pocsag.PocsagNode.WaitBit | src/pocsag.cc:41-48 | the WAIT branch, given what the repair made of the low word |
| Pocsag.PocsagNode.ReceiveBit | src/pocsag.cc:49-69 | the RECEIVE branch, given what the repair made of both words at the end of a frame, the words processed as the node was built |
| Pocsag.PocsagNode.EndFrame | src/pocsag.cc:53-68 | both words are repaired and processed, high word first, as the node was built, and the next slot starts |
| Pocsag.PocsagNode.ContinueBit | src/pocsag.cc:70-84 | the CHECK_CONTINUE branch: a sync word continues the transmission, anything else ends it |
| Pocsag.PocsagNode.ProcessBit | src/pocsag.cc:35-85 | one iteration of `process` on the low bit of a byte: the new state is the step function, with every word checked given to the repair and processed as the node was built |
| Pocsag.PocsagNode.Process | src/pocsag.cc:32-86 | `process` over a buffer: the new state is the run over the low bits of every byte, each step faithful to the repair, with the word processing the node was built with |
| Baudot.FramingOf | src/baudot.cc:23-52 | each stop-bit setting puts two framing half-bits of ones at the top of the 16-bit symbol, stopHBits zeros at the bottom, and the mask covers exactly those |
| Baudot.LetterTable | src/baudot.cc:9-11 | the letters table has 32 entries |
| Baudot.LetterCoded | src/baudot.cc:9-11 | every letter A to Z has a code in the letters table |
| Baudot.LetterOnce | src/baudot.cc:9-11 | no letter appears under two codes |
| Baudot.DigitCoded | src/baudot.cc:12-14 | every digit has a code in the figures table |
| Baudot.DigitOnce | src/baudot.cc:12-14 | no digit appears under two codes |
| Baudot.DecodeCases | src/baudot.cc:17-20 | the shift codes 31 and 27 only select letters or figures; space (4) selects letters and writes ' '; every other code writes the entry of the current table, the mode unchanged (also lines 101-107) |
| Baudot.PushBit | src/baudot.cc:90 | shifting a half-bit into the 16-bit register puts it at bit 0 and moves every bit up by one |
| Baudot.PushAllBit | src/baudot.cc:90 | the last 16 half-bits received are the register, the newest at bit 0 |
| Baudot.CodeBits | src/baudot.cc:95-99 | code bit j is the register's half-bit stopHBits + 2j, and the code is below 32 |
| Baudot.Unpack | src/baudot.cc:95-99 | the unpacking loop computes that code |
| Baudot.FeedRegister | src/baudot.cc:89-90 | whatever is decoded, the register holds the half-bits fed |
| Baudot.FeedSpacing | src/baudot.cc:90-93 | characters are written at least bitsPerSymbol half-bits apart |
| Baudot.SpacingBound | src/baudot.cc:92-93 | k characters at that spacing from at most n half-bits number at most n / bitsPerSymbol + 1 |
| Baudot.OutputFits | src/baudot.cc:70-110 | no buffer of up to n half-bits decodes to more than n / bitsPerSymbol + 1 characters, whatever state it starts in |
| Baudot.StepFits | src/baudot.cc:105-106 | every write of `process` lands inside an output buffer of that size |
| Baudot.TooSoon | src/baudot.cc:92 | fewer half-bits than a symbol since the last character never make a character |
| Baudot.FramedBits | src/baudot.cc:28-49 | a register holding a frame matches the pattern under the mask (also line 92) |
| Baudot.FrameCode | src/baudot.cc:95-99 | a register holding the frame of code c unpacks to c |
| Baudot.FrameRegister | src/baudot.cc:90-99 | after the frame of c, the register matches the pattern and holds c |
| Baudot.FrameDecodes | src/baudot.cc:89-108 | round trip: right after a character, the frame of a code writes exactly its decoding and resets the counter |
| Baudot.FourFrames | src/baudot.cc:89-108 | four frames of a non-shift code in a row write four characters |
| Baudot.OverflowAsWritten | src/baudot.cc:70-106 | as written, one stop bit and 56-half-bit buffers give a 3-character output buffer, but four frames of code 0 write 4 characters |
| Baudot.BaudotNode.constructor | src/baudot.cc:23-52 | the framing of the stop-bit setting and letters mode; the library leaves the register and counter to `config`, the model starts them cleared as `config` leaves them; the node is built with the output size as written or as intended |
| Baudot.BaudotNode.Configure | src/baudot.cc:54-82 | no type: nothing changes; a type other than `uint8_t`: `ConfigError`; otherwise the register and counter are cleared, the mode is kept, and an output buffer is allocated and a `uint8_t` configuration of that size and rate 0 is propagated; the size is `bufferSize / (2 * bitsPerSymbol) + 1` on a node built as written, `bufferSize / bitsPerSymbol + 1` on one built as intended |
| Baudot.BaudotNode.Emit | src/baudot.cc:101-107 | the mode and the character written are those of the decoding |
| Baudot.BaudotNode.ProcessBit | src/baudot.cc:90-108 | one iteration of the loop: the new state and output are the step function's |
| Baudot.BaudotNode.Process | src/baudot.cc:85-111 | the new state is the feed of the low bits of the buffer, and the characters decoded are sent exactly when there is at least one; with the size allocated as written the decoded characters must fit the buffer |
| Baudot.PrefixFits | src/baudot.cc:85-111 | a half-bit that writes a character part-way through an input leaves room for it in any buffer that holds the whole input's characters |
| Psk31.SemicolonLost | src/psk31.cc:15-39 | as written code 445 is assigned ';' and then '1': the table keeps '1', and the code of ';' decodes to '1' |
| Psk31.SemicolonKept | src/psk31.cc:15 | with '1' under its own code 189, the code 445 of ';' decodes to ';' |
| Psk31.OneKept | src/psk31.cc:38 | with '1' under its own code 189, that code decodes to '1' |
| Psk31.Bits | src/psk31.cc:70 | a code is sent most significant bit first, and a code of 1 or more starts with a one |
| Psk31.Step | src/psk31.cc:70-84 | one iteration of the loop keeps the register in 16 bits and never leaves two zero bits at its low end; after a character it is cleared |
| Psk31.FeedBits | src/psk31.cc:70 | from a cleared register, the bits of a code without two zeros in a row shift in to form the code, and nothing is written |
| Psk31.FeedZeros | src/psk31.cc:71-83 | two zero bits after a receivable code write its character if the table has it, nothing otherwise, and clear the register |
| Psk31.FeedCode | src/psk31.cc:69-85 | a receivable code and two zeros, from a cleared register, write exactly the code's character or nothing when the table lacks it |
| Psk31.CharsKnown | src/psk31.cc:74-76 | when the table has every code, each code gives exactly its table entry |
| Psk31.DecodeEncode | src/psk31.cc:66-89 | round trip: the Varicode encoding of receivable codes decodes back to their characters and leaves the register cleared |
| Psk31.StepSince | src/psk31.cc:70-73 | a character needs two bits since the last one; one bit adds at most one to that count |
| Psk31.FeedSpacing | src/psk31.cc:69-85 | characters are at least three bits apart |
| Psk31.OutputFits | src/psk31.cc:62-85 | no buffer of up to n bits writes more than n / 3 + 1 characters, whatever the register holds |
| Psk31.StepFits | src/psk31.cc:76 | every write of `process` lands inside an output buffer of that size |
| Psk31.OverflowAsWritten | src/psk31.cc:62-76 | as written the output buffer holds 18 characters, but 19 codes of 445 and their zeros, 209 bits, write 19 |
| Psk31.EncodeLength | src/psk31.cc:69-71 | n copies of a code take n times its length plus two bits |
| Psk31.VaricodeNode.constructor | src/psk31.cc:5-43 | the node holds the code table, as written (445 holds '1') or with '1' under its own code 189, with the matching output size; the library leaves the register to `config`, the model starts it cleared |
| Psk31.VaricodeNode.Configure | src/psk31.cc:49-64 | no type or no buffer size: nothing changes; a type other than `uint8_t`: `ConfigError`; otherwise the register is cleared, an output buffer is allocated and a `uint8_t` configuration of that size is propagated; the size is 18 on a node built as written, `bufferSize / 3 + 1` on one built as intended |
| Psk31.VaricodeNode.ProcessBit | src/psk31.cc:70-84 | one iteration of the loop: the new register and output are the step function's |
| Psk31.VaricodeNode.Process | src/psk31.cc:66-89 | the new register is the feed of the low bits of the buffer, and the characters decoded are sent exactly when there is at least one; with the 18 characters allocated as written the decoded characters must fit the buffer |
| Psk31.PrefixFits | src/psk31.cc:66-89 | a bit that writes a character part-way through an input leaves room for it in any buffer that holds the whole input's characters |
| HttpText.IdClasses | src/http.cc:61-82 | as written `is_id_start` and `is_id_part` hold of every character; the intended classes are a letter or '_' and a letter, digit or '_', the first contained in the second |
| HttpText.MethodName | src/http.cc:116-121 | a known method's request-line word is a non-empty run of letters |
| HttpText.VersionName | src/http.cc:123-127 | a known version's word has 8 characters, all of the version alphabet |
| HttpText.MethodNames | src/http.cc:116-121 | `to_method` knows exactly "GET", "HEAD" and "POST", each read back as its method |
| HttpText.VersionNames | src/http.cc:123-127 | `to_version` knows exactly "HTTP/1.0" and "HTTP/1.1" |
| HttpText.HexVal | src/http.cc:519-523 | a hex digit stands for a value below 16 |
| HttpText.HexDigitVal | src/http.cc:519-523 | the digit written for a value below 16 is a hex digit that reads back as that value |
| HttpText.Hex2 | src/http.cc:519-523 | `setw(2) << setfill('0') << hex` of a byte writes two characters |
| HttpText.Hex2Value | src/http.cc:519-523 | those two characters are hex digits that give the byte back |
| HttpUrl.FindFrom | src/http.cc:448-476 | `find(c)` gives the first position of c at or after the start, or none when c does not occur there |
| HttpUrl.FindSeparatorFrom | src/http.cc:442 | `find("://")` gives the first position of "://", or none |
| HttpUrl.FindCharAfter | src/http.cc:448-476 | the first c in a text with no c before position k is found at k |
| HttpUrl.Cut | src/http.cc:468-477 | each '&' split shortens the query text, so the loop ends |
| HttpUrl.SplitCases | src/http.cc:436-466 | the protocol is the text before the first "://" unless that is at the start; a text starting with '/' is all path; a text without '/' gives neither host nor path |
| HttpUrl.DecodeAsWritten | src/http.cc:531-541 | as written, `decode` keeps the length: each '%' with two characters after it becomes the byte they give and the two characters are copied as well; a text without '%' comes back unchanged |
| HttpUrl.DecodeKeepsDigits | src/http.cc:531-541 | as written "A" encodes to "%41", which decodes to "A41"; skipping the two digits it decodes to "A" |
| HttpUrl.EncodeSignExtends | src/http.cc:514-529 | as written the byte 0xe9, a negative `char`, encodes to "%ffffffe9", which does not decode back; as a byte it encodes to "%e9" |
| HttpUrl.DecodeEncodeChar | src/http.cc:514-541 | with the two digits skipped, one encoded byte decodes back to itself |
| HttpUrl.DecodeEncode | src/http.cc:514-541 | round trip: with the two digits skipped and bytes encoded as bytes, decoding an encoded byte string gives it back, whatever follows |
| HttpUrl.EncodeCharPlain | src/http.cc:514-529 | an encoded byte is not empty and holds no '&', '=', ':' or '?' |
| HttpUrl.EncodedPlain | src/http.cc:514-529 | encoded text holds none of those separators and is empty exactly when its input is |
| HttpUrl.EncodedQuery | src/http.cc:499-507 | the encoded query has one pair per query pair |
| HttpUrl.PairOfItem | src/http.cc:480-506 | a written pair splits back at its first '=' into its encoded name and value, and holds no '&' |
| HttpUrl.PairsJoined | src/http.cc:467-508 | the pairs written by `toString` are read back by `fromString`, encoded, in order, when the last pair is not empty |
| HttpUrl.SplitParts | src/http.cc:436-466 | a target written from a protocol, host, path and query text without later separators splits into those parts |
| HttpUrl.ProtocolText | src/http.cc:441-446 | "proto://" is split off again, and a text without ':' has no protocol |
| HttpUrl.HostText | src/http.cc:448-457 | a host without '/' is split from a path starting with '/' |
| HttpUrl.QueryTextSplit | src/http.cc:459-464 | a path without '?' is split from the query text after the '?' |
| HttpUrl.SplitText | src/http.cc:436-509 | round trip: `fromString(toString(u))` gives back u, with "/" for an empty path and the query names and values in their encoded form, for URLs whose parts hold no separator |
| HttpUrl.HeadWritten | src/http.cc:492-497 | what `toString` writes before the query is the protocol with "://", the host and the path or "/" |
| HttpUrl.TextWritten | src/http.cc:490-510 | that head, '?' and the pairs joined by '&' are the text of the URL |
| HttpUrl.Url.constructor | src/http.cc:414-418 | a URL of the protocol, host and path, without query pairs |
| HttpUrl.Url.SetProtocol | src/http.hh:230 | only the protocol changes |
| HttpUrl.Url.SetHost | src/http.hh:236 | only the host changes |
| HttpUrl.Url.SetPath | src/http.hh:240 | only the path changes |
| HttpUrl.Url.AddQuery | src/http.hh:242-244 | the pair goes to the end of the query; nothing else changes |
| HttpUrl.Url.FromString | src/http.cc:435-487 | `fromString` builds a new URL holding the split of the text |
| HttpUrl.Url.AddPairs | src/http.cc:467-485 | the loop adds every segment between '&'s as a pair split at its first '=', after the pairs already there |
| HttpUrl.Url.ToString | src/http.cc:489-511 | `toString` writes the text of the URL, with the encoder as written |
| HttpUrl.Url.WriteQuery | src/http.cc:498-507 | the query loop appends the pairs joined by '&' |
| HttpUrl.Url.WriteItem | src/http.cc:501-502 | one pair is the encoded name, and '=' with the encoded value when the value is not empty |
| HttpUrl.Url.Encode | src/http.cc:514-529 | `encode` as written: every byte below 127 becomes '%' and two hex digits, DEL is copied, and a byte of 128 or more, a negative `char`, becomes "%ffffff" and two hex digits |
| HttpUrl.Url.Decode | src/http.cc:531-541 | `decode` as written: a '%' with two characters after it becomes the byte `strtol` reads from them, and every character, those two included, is copied otherwise |
| HttpRequest.InsertOk | src/http.cc:688-691 | storing a header line the parser accepted keeps every stored header well-formed |
| HttpRequest.ExtendName | src/http.cc:658-660 | a header name grows only by header characters |
| HttpRequest.ExtendValue | src/http.cc:679-681 | a header value grows only by printable characters |
| HttpRequest.StepSane | src/http.cc:572-701 | every turn of the loop keeps the parser's per-state invariant, and only the new line after the blank line returns true |
| HttpRequest.RunSane | src/http.cc:571-703 | a run that returns true ends in END_HEADERS with the invariant kept |
| HttpRequest.Accepted | src/http.cc:564-704 | `parse` returns true only with a known method and version and with every stored header value non-empty and printable; read as intended, every header name is non-empty and made of header characters |
| HttpRequest.UnknownMethodRejected | src/http.cc:574-582 | a method word other than GET, HEAD and POST makes `parse` return false at the first blank |
| HttpRequest.RunFeed | src/http.cc:571-703 | a run over two chunks is a run over the second from where the first left the parser |
| HttpRequest.FeedThen | src/http.cc:571-703 | feeding two chunks is feeding one after the other |
| HttpRequest.FeedOne | src/http.cc:571-703 | feeding one character that does not end the parse is one turn of the loop |
| HttpRequest.FeedWord | src/http.cc:584-585 | characters a state accepts as part of its word are appended to the buffer (also lines 596, 606, 616, 633, 658, 681) |
| HttpRequest.Spaces | src/http.cc:593 | k blanks (also lines 614, 671) |
| HttpRequest.FeedSpaces | src/http.cc:592-593 | blanks before the target, the version and a header value are skipped (also lines 613-614, 670-671) |
| HttpRequest.Chain | src/http.cc:571-703 | feeds compose |
| HttpRequest.FeedName | src/http.cc:647-667 | a header name and ':' take START_HEADER to START_HEADER_VALUE, the name taken from the buffer |
| HttpRequest.FeedValue | src/http.cc:669-696 | blanks, a value and CR LF store the value under the current name (`m[name] = value`) and return to START_HEADER |
| HttpRequest.FeedLine | src/http.cc:647-696 | one header line returns to START_HEADER and stores the value under what the buffer held followed by the name |
| HttpRequest.FeedLines | src/http.cc:647-696 | header lines store each value in turn, the first name after what the buffer held; method, version and URL stay |
| HttpRequest.RunBlankLine | src/http.cc:648-700 | the blank line ends the headers and `parse` returns true, the text after it unread |
| HttpRequest.FeedMethod | src/http.cc:573-589 | a known method word and blanks set the method and start the URL |
| HttpRequest.FeedTarget | src/http.cc:591-610 | a target and blanks set the URL to `fromString` of the target |
| HttpRequest.FeedVersion | src/http.cc:612-645 | a known version word and CR LF set the version; as written `buffer.str()` does not clear the buffer, so the version text stays in it; intended, it is cleared |
| HttpRequest.FeedRequestLine | src/http.cc:573-645 | the request line sets the method, the URL and the version, and leaves the parser at START_HEADER |
| HttpRequest.ParseRequest | src/http.cc:564-704 | every well-formed request is accepted with its method, version, URL and headers, the first header name after what the version left in the buffer and a repeated name keeping its last value; the text after the blank line stays unread |
| HttpRequest.RequestOf | src/http.cc:564-704 | converse of ParseRequest: every text `parse` accepts is a known method, blanks, a target of URL characters, blanks, a known version, CR LF, well-formed header lines and a blank line, followed by the unread rest, and the request holds exactly what ParseRequest says of that text |
| HttpRequest.HeadersOf | src/http.cc:647-700 | on the way to acceptance, the text from the start of a header line on is well-formed header lines, a blank line and the rest |
| HttpRequest.LineOf | src/http.cc:647-696 | on the way to acceptance, a header line is a name of header characters, ':', blanks, a value of printable characters not starting with a blank, CR and LF |
| HttpRequest.KeepAliveOfRequest | src/http.cc:706-715 | with the buffer cleared, an HTTP/1.1 request is kept alive whatever its headers, and an HTTP/1.0 request exactly when its last "Connection" line says "Keep-alive" |
| HttpRequest.FirstHeaderPrefixed | src/http.cc:624 | as written "GET / HTTP/1.0" with the header "Connection: Keep-alive" stores it under "HTTP/1.0Connection" and is not kept alive (also lines 706-715) |
| HttpRequest.FirstHeaderKeptAlive | src/http.cc:624 | with the buffer cleared, the same request stores "Connection" and is kept alive (also lines 706-715) |
| HttpRequest.Decimal | src/http.cc:774 | `operator<<` of a number writes a non-empty run of decimal digits |
| HttpRequest.LeadingDigits | src/http.hh:366 | `atol` reads the longest prefix of decimal digits |
| HttpRequest.DecimalValue | src/http.cc:774 | the digits written for n read back as n |
| HttpRequest.AllDigitsLeading | src/http.hh:366 | a run of digits is read whole |
| HttpRequest.U64 | src/http.hh:366 | the `long` of `atol` is converted to a 64-bit `size_t` |
| HttpRequest.ContentLengthDecimal | src/http.hh:364-366 | a Content-Length written in decimal by `setContentLength` reads back as its value |
| HttpRequest.Request.constructor | src/http.cc:557-561 | an unknown method, no URL and no headers |
| HttpRequest.Request.Parse | src/http.cc:564-704 | the new method, version, URL and headers, the result and the unread input are those of the run of the loop over the input |
| HttpRequest.StatusLineCode | src/http.cc:783-788 | each status line starts with the code in three decimal digits and a blank and ends with CR LF |
| HttpRequest.LinesOf | src/http.cc:790-793 | one header line per header, in key order, one blank after ':' |
| HttpRequest.BlockLines | src/http.cc:790-793 | the header block is those lines |
| HttpRequest.StoredSorted | src/http.cc:688-691 | storing the lines of a sorted header map, in order, gives the map back (also lines 790-793) |
| HttpRequest.StoredKeys | src/http.cc:688-691 | the stored names are the old ones, the first line's name after the buffer's text, and the others |
| HttpRequest.HeaderBlockReadBack | src/http.cc:564-704 | with the buffer cleared, the header block `sendHeaders` writes is read back by `parse` as the same header map; as written the first name is stored with the version text before it, so the first header is lost under its own name (also lines 778-797) |
| HttpRequest.Response.constructor | src/http.cc:745-749 | a server error and no headers |
| HttpRequest.Response.SetStatus | src/http.cc:751-754 | only the status changes |
| HttpRequest.Response.SetHeader | src/http.cc:767-770 | `m[name] = value`: name finds value, every other name what it found before, and the map stays sorted |
| HttpRequest.Response.SetContentLength | src/http.cc:772-776 | the length in decimal under "Content-Length", for any length; a request carrying these headers reports that length whenever it fits the `long` that `atol` returns |
| HttpRequest.Response.SendHeaders | src/http.cc:778-797 | the text sent is "HTTP/1.1 ", the status line, a line per header in key order, and a blank line |
| HttpJson.EscapedPlain | src/http.cc:990-996 | as written a string without '"' is written unchanged between the quotes |
| HttpJson.SkipWsText | src/http.cc:1025-1028 | `_json_skip_ws` leaves a suffix that does not start with a blank |
| HttpJson.ReadLiteral | src/http.cc:1032-1050 | `_json_parse_null` and `_json_parse_true` never move the pointer back and move it on when they accept |
| HttpJson.ReadFalse | src/http.cc:1052-1060 | so does `_json_parse_false` |
| HttpJson.StringBody | src/http.cc:1066-1074 | the string loop consumes at least one character, or rejects at the end of the text |
| HttpJson.ReadString | src/http.cc:1062-1075 | `_json_parse_string` consumes at least the opening quote |
| HttpJson.IdEnd | src/http.cc:1105-1107 | the identifier loop stops inside the text |
| HttpJson.ReadIdent | src/http.cc:1099-1110 | an identifier read consumes at least one character |
| HttpJson.ReadValue | src/http.cc:1150-1164 | `_json_parse` never moves the pointer back and moves it on when it accepts |
| HttpJson.ReadList | src/http.cc:1077-1097 | so does `_json_parse_list` |
| HttpJson.ReadItems | src/http.cc:1084-1095 | and its loop |
| HttpJson.ItemsAfter | src/http.cc:1087-1094 | and the loop's end of an item |
| HttpJson.ReadTable | src/http.cc:1112-1138 | so does `_json_parse_table` |
| HttpJson.ReadKey | src/http.cc:1123-1127 | the identifier and ':' of an entry consume at least one character |
| HttpJson.ReadEntries | src/http.cc:1122-1136 | the table loop never moves the pointer back |
| HttpJson.EntryValue | src/http.cc:1128-1129 | nor does an entry's value |
| HttpJson.EntriesAfter | src/http.cc:1130-1135 | nor the loop's end of an entry |
| HttpJson.FirstChar | src/http.cc:975-1022 | the text of a value starts with one of "ntf\"[{", never a blank |
| HttpJson.WordBack | src/http.cc:1032-1060 | "null" and "true", and "false" when read as intended, followed by a delimiter read back as their values under either reading (also lines 1150-1164) |
| HttpJson.StringBack | src/http.cc:990-996 | an escaped string and its closing quote read back as the string: always when '\' is escaped too as intended, and as written when the string holds no '\' (also lines 1062-1075) |
| HttpJson.KeyBack | src/http.cc:1099-1127 | intended, an identifier, ':' and a value's text read back as the key and the value's text |
| HttpJson.ParseSerialized | src/http.cc:975-1022 | round trip under each reading: the text `serialize` writes reads back as the value, whatever the out-parameter held, and the pointer stops right after it; intended for every value without numbers and with identifier keys in order, as written for null, true, strings without '\', the empty table and lists of these (also lines 1150-1164) |
| HttpJson.ListBack | src/http.cc:999-1009 | under either reading, the text of a list of exchangeable values reads back as the list (also lines 1077-1097) |
| HttpJson.TableBack | src/http.cc:1011-1021 | read as intended, the text of a table of exchangeable values reads back as the table (also lines 1112-1138) |
| HttpJson.ItemsBack | src/http.cc:1084-1095 | under either reading, the items of a list from the k-th on and the closing ']' read back as the whole list |
| HttpJson.EntriesBack | src/http.cc:1122-1136 | the entries of a table from the k-th on and the closing '}' read back as the whole table |
| HttpJson.WordFollowed | src/http.cc:1032-1050 | "null" and "true" followed by a letter or digit are rejected, although the out-parameter already holds the value |
| HttpJson.FalseKeepsObject | src/http.cc:1052-1060 | as written "false" is accepted but leaves the out-parameter as it was, so "[false]" reads as a list holding null |
| HttpJson.TableAsWritten | src/http.cc:1099-1110 | with the identifier test as written, whatever the other two readings, the first identifier of a table swallows the rest of the text, so every table with an entry is rejected (also lines 77-83) |
| HttpJson.ClosedByBracket | src/http.cc:1133 | the closing test on its own, with the identifier test read as intended: "{a:null]" reads as the table holding a: null and "{a:null}" is rejected |
| HttpJson.AllIdent | src/http.cc:77-83 | with the identifier test as written the identifier loop runs to the end of the text (also lines 1105-1107) |
| HttpJson.BackslashAsWritten | src/http.cc:990-996 | as written the string "\" is written as three characters whose '\' escapes the closing quote, so the text is not read back (also lines 1062-1075) |
| HttpJson.SkipWs | src/http.cc:1025-1028 | the loop computes `_json_skip_ws` |
| HttpJson.ParseWord | src/http.cc:1032-1050 | the status, pointer and out-parameter of `_json_parse_null` and `_json_parse_true` |
| HttpJson.ParseFalse | src/http.cc:1052-1060 | those of `_json_parse_false`, which stores the value only when it fails as written |
| HttpJson.ParseString | src/http.cc:1062-1075 | those of `_json_parse_string` |
| HttpJson.ParseIdentifier | src/http.cc:1099-1110 | false, or the name and the text after it |
| HttpJson.ParseKey | src/http.cc:1123-1127 | the identifier, ':' and the blanks around it |
| HttpJson.ParseValue | src/http.cc:1150-1164 | the status, pointer and out-parameter of `_json_parse` |
| HttpJson.ParseList | src/http.cc:1077-1097 | those of `_json_parse_list` |
| HttpJson.ParseTable | src/http.cc:1112-1138 | those of `_json_parse_table`, a table closed by ']' as written |
| HttpJson.ParseText | src/http.cc:1166-1171 | `JSON::parse` returns whether the text starts with a value, and the out-parameter |
| HttpJson.Serialize | src/http.cc:974-1023 | `serialize` appends the text of the value to the stream |
| HttpJson.SerializeString | src/http.cc:990-996 | the characters between quotes, escaped |
| HttpJson.SerializeList | src/http.cc:999-1009 | the items separated by ',' between brackets |
| HttpJson.SerializeTable | src/http.cc:1011-1021 | `key:value` entries in key order separated by ',' between braces |
| HttpJson.SerializeText | src/http.hh:158-161 | the string version writes the same text as the stream version |
| SortedMaps.LessIrreflexive | src/http.hh:386 | no key is less than itself under `std::string`'s byte-wise order |
| SortedMaps.LessTransitive | src/http.hh:386 | the order is transitive |
| SortedMaps.LessTotal | src/http.hh:386 | any two different keys are ordered one way |
| SortedMaps.LessAsymmetric | src/http.hh:386 | and only one way |
| SortedMaps.KeysIndex | src/http.hh:386 | a key is in the map exactly when an entry holds it |
| SortedMaps.Find | src/http.cc:710-723 | `find` gives a value exactly for the keys in the map |
| SortedMaps.InsertKeys | src/http.cc:690 | `m[k] = v` adds k to the keys and nothing else (also line 769) |
| SortedMaps.InsertSorted | src/http.cc:690 | `m[k] = v` keeps the entries in key order (also line 769) |
| SortedMaps.FindInsert | src/http.cc:690 | after `m[k] = v`, k finds v and every other key what it found before (also line 769) |
| SortedMaps.InsertLast | src/http.cc:1129 | a key above every stored key is inserted at the end |
| SortedMaps.InsertMembers | src/http.cc:690 | `m[k] = v` stores nothing but the old entries and (k, v) (also line 769) |
| SortedMaps.SortedSplit | src/http.cc:1015-1019 | iterating a sorted map entry by entry, the entries passed stay sorted and below the next one |

## Left out

- Threads and locking: the queue's worker thread, mutex and condition variable are not modelled; the queue is run step by step on one thread, and the blocking sources' start/stop threads are not part of this model.
- Sockets and connections: `Connection` reading and writing, `Request::readBody`, and the actual sending in `Response::sendHeaders` are not modelled. The request text is an input sequence, and the header text is a returned string.
- Files: the `fstream` access in the WAV nodes. A file is its byte content, and opening one by name is an optional byte sequence.
- Logging: the `LogMessage` and `std::cerr` diagnostics (pocsag.cc, ax25.cc, aprs.cc, http.cc) have no effect on the state and are not modelled.
- Floating point is not modelled. This covers the DSP nodes, `BPSK31`, the float and double overloads of operators.hh, and `InpolSubSampler`, whose output index is never advanced. JSON numbers are also left out: `strtof`, the stream's formatting of doubles, and `_json_parse_number`. A JSON number is kept as its text.
- Aprs: the coordinates stay as degrees, minutes, hundredths and a sign, and are never converted to `double`. Time stamps are the fields `_readTime` fills in, with no `gmtime`/`mktime`. The `AX25::Message` that aprs.cc uses is not declared in ax25.hh, so the payload is its text, starting with the control and protocol bytes.
- resample.hh, options.cc, sha1.hh, the GUI, the example programs and the unit-test harness are not part of this model.
- HttpUrl.Url.HasProtocol and HttpUrl.Url.HasHost, and the JSON `isX` type predicates, have no contract of their own. The first two are the emptiness tests of the source. The `isX` predicates are the discriminators of the `Json` datatype.
- SubSampling.SubSample.Process: the running sum is an unbounded integer. The wrap-around of the `SScalar` accumulator is not modelled.
- HttpRequest.ContentLengthDecimal: requires the length to be below 2^63. `atol` overflow beyond that is not modelled.
- HttpRequest.Request.Parse: the `_version` of a request whose version is never read is uninitialised in the source. It is modelled as the unknown version.
- WavFiles.WavSource.Open: reads the header as corrected. The search stops at the end of the file, and frames are counted over the block alignment. The as-written reading, whose search can loop forever, is WavHeader.OpenAsWritten and is not run by the node. After a header error, the read position is taken to be the end of the file. The source leaves it wherever the failing read stopped.
- WavFiles.WavSink.Configure: requires a configured sample rate that fits the header's 32-bit field. The source truncates the `double` rate instead.
- Baudot.BaudotNode.Process and Psk31.VaricodeNode.Process: both require at most as many input bytes as the configured buffer size, which the source does not check. On a node built as written, both also require the decoded characters to fit the buffer the source allocates. The source writes past that buffer (see Findings), and the model does not follow that write. Each input byte is taken as the bit in its low end.
- Pocsag.PocsagNode.constructor, Baudot.BaudotNode.constructor and Psk31.VaricodeNode.constructor: the source leaves the decoder state uninitialised until `config`. The model starts it as `config` leaves it, so a `process` before `config` is not captured.
- Pocsag.PocsagNode.Process: each input byte is taken as the bit in its low end. The repair outcome of each codeword is returned as ghost values.
- Rechunking.BufferNode: the node requires a configured buffer size of at least one element.
- HttpUrl.Url: its `Encode`, `Decode` and `ToString` follow the source as written. The corrected percent-coding is given as separate functions.

## Findings

| source | as written | input that shows it | evidently intended | confidence | as-written member | corrected member |
|---|---|---|---|---|---|---|
| src/autocast.hh:93-96 | the identity case sends the input, then falls through and also sends a cast copy | an `int8` node fed `int8` samples sends two buffers for one | send the input once and return | not executed | AutoCasting.IdentityScenario | AutoCasting.AutoCast.HandleBuffer |
| src/autocast.hh:29-74 | a later `config` that selects no cast keeps the previously selected helper | an `int16` node configured for `uint8` input, then for `float` input: the second succeeds with the `uint8` helper | clear the helper before selecting | not executed | AutoCasting.StaleCastScenario | AutoCasting.AutoCast.ConfigureFresh |
| src/utils.cc:98 | the 16-bit paths (also line 186) send a view whose byte length is the sample count | `uint16` samples 0, 128 and 255 (six bytes) converted in place are sent as a 3-byte view, one `int16` sample | a byte length of two bytes per sample | not executed | SignCasting.UShortScenario | SignCasting.OffsetCast.HandleBuffer |
| src/operators.hh:116-122 | `mul2` on `complex<int8>` shifts right by `-n` also when n is positive (as at lines 131-137 and 146-152) | any n > 0 shifts by the negative count -n, which is undefined | shift left by n | not executed | Operators.Mul2CAsWrittenDiffers | Operators.Mul2C |
| src/wavfile.cc:119 | the chunk search continues while the end of the file is reached | the first 36 bytes of a written header, which have no data chunk | stop at the end of the file | not executed | WavHeader.NoDataChunk | WavHeader.FindData |
| src/wavfile.cc:138 | the frame count divides by 2 bytes per channel whatever the sample width | an 8-bit mono file of 100 frames (100 data bytes) is read as 50 frames | divide by the block alignment | not executed | WavHeader.EightBitFramesHalved | WavHeader.Open |
| src/wavfile.hh:88 | the RIFF size is 36 + 2 × frames for every format | a stereo 16-bit file of 10 frames gets 56 where its size is 76 | 36 + the data size | not executed | WavHeader.RiffSizeStereo16 | WavFiles.WavSink.Close |
| src/pocsag.cc:190 | the payload ORs `word & mask`, with the mask running from bit 30 down to bit 11, into a byte, where it is lost | any message word appended to an all-zero payload leaves every byte 0 | OR in the bit as 0 or 1 | not executed | Pocsag.PayloadAsWrittenIsZero | Pocsag.PayloadIsPacked |
| src/pocsag.cc:101 | the address keeps only `slot & 0x03` as its low bits, so frames 4 to 7 share addresses with frames 0 to 3 | an address word in frame 4 gives the address of frame 0 | the frame number, `slot & 0x07` | not executed | Pocsag.AddressDropsFrameBit | Pocsag.AddressFields |
| src/ax25.cc:101 | the terminator is written at index 512 of the 512-byte receive buffer | a flag, 512 zero bytes and a flag | a buffer one byte longer | not executed | Ax25.OverrunWritesPastBuffer | Ax25.Ax25Node.CloseFrame |
| src/buffernode.hh:90 | the leftover samples are copied from the start of the input | chunk size 2, input [1, 2, 3]: [1, 2] is sent and [1] is held instead of [3] | copy from `in_offset` | not executed | Rechunking.LeftoverAsWritten | Rechunking.LeftoverCorrected |
| src/buffernode.hh:46 | the pool is created empty and grown with buffers that are never marked free, so the first output finds no free buffer | an `int16` node of chunk size 2 configured for 2 buffers of 2 has no free buffer when its first chunk completes | put new buffers on the free list | not executed | Rechunking.NoFreeBufferScenario | Rechunking.BufferNode.ConfigureFreeing |
| src/baudot.cc:70 | the output buffer holds bufferSize / (2 × bitsPerSymbol) + 1 characters | with one stop bit, four frames of code 0 (56 half-bits) write 4 characters into a buffer of 3 | room for bufferSize / bitsPerSymbol + 1 characters | not executed | Baudot.OverflowAsWritten | Baudot.OutputFits |
| src/psk31.cc:62 | the output buffer holds 18 characters | 19 codes of 445 and their separators, 209 bits, write 19 characters | room for bufferSize / 3 + 1 characters | not executed | Psk31.OverflowAsWritten | Psk31.OutputFits |
| src/psk31.cc:38 | code 445 is assigned a second time, so '1' replaces ';' | the code of ';' decodes to '1' | '1' under its own code 189 | not executed | Psk31.SemicolonLost | Psk31.SemicolonKept |
| src/http.cc:624 | `buffer.str();` reads the buffer instead of clearing it | an HTTP/1.0 request with "Connection: Keep-alive" gets a first header named "HTTP/1.0Connection" and is not kept alive | `buffer.str("")` | not executed | HttpRequest.FirstHeaderPrefixed | HttpRequest.FirstHeaderKeptAlive |
| src/http.cc:536-538 | `decode` copies the two hex digits after the decoded byte | "%41" decodes to "A41" | skip the two digits | not executed | HttpUrl.DecodeKeepsDigits | HttpUrl.DecodeEncode |
| src/http.cc:519 | `encode` sign-extends a byte of 128 or more | byte 0xe9 becomes "%ffffffe9" | encode the byte as two hex digits | not executed | HttpUrl.EncodeSignExtends | HttpUrl.DecodeEncode |
| src/http.cc:1052-1060 | on success `false` is never stored; it is stored only on the failing path | "false" is accepted and leaves the value as it was; "[false]" reads as [null] | store `false` on success | not executed | HttpJson.FalseKeepsObject | HttpJson.WordBack |
| src/http.cc:1133 | a table is closed by ']' instead of '}' | with identifiers read as intended, "{a:null}" is rejected and "{a:null]" is read as a table | close on '}' | not executed | HttpJson.ClosedByBracket | HttpJson.TableBack |
| src/http.cc:77-83 | `is_id_start` and `is_id_part` hold for every character, because `'_'` is a non-zero constant | an identifier swallows the ':' after it, so "{a:null]" is rejected too | test `c == '_'` | not executed | HttpJson.TableAsWritten | HttpJson.KeyBack |
| src/http.cc:993 | a string is serialised without escaping '\\' | the string "\\" is written as three characters that do not read back | escape '\\' as well | not executed | HttpJson.BackslashAsWritten | HttpJson.StringBack |

