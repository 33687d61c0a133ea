# Riemann client core, modelled in Dafny

This project models the core of a C# client for the Riemann monitoring
collector:

- the tag context, a persistent stack of tags that a client attaches to
  every event it sends;
- the tick scheduler of `Client`, one shared one-second timer whose pulses
  count down every registration, fire the due ones, remove the ones whose
  handle was disposed, and send one batch per pulse;
- how an outgoing message is assembled: one wire event per input, with the
  host name and the tag snapshot;
- the transport choice: a datagram first, and a big-endian length-prefixed
  frame on the stream connection only when the datagram fails with socket
  error 10040 (message too long);
- the reply check after that fallback, and the ok/error rule of `Query`;
- the limit of 255 UTF-16 code units on an event's state;
- the older single-event client `Riemann`, with its own tag context and
  `SendEvent`.

Modules:

- `Wrappers`: `Option`, `Result`, and `Outcome` (a result that carries no
  value but may fail).
- `Primitives`: the .NET `int` and `byte`, byte arrays, and `float` as an
  opaque bit pattern. Also the unchecked decrement of an `int`, which wraps,
  and `String.Length`, which counts UTF-16 code units.
- `Events`: `Event.cs` (the event and its constructor), the value a tick
  callback returns, and the client's errors.
- `TagContext`: the tag node, its enumeration, and the stack discipline of
  `Tag`/`Dispose`.
- `Wire`: the wire event and message, the length prefix, and the frame with
  the collector's reading of it. Also `Transmit`, which says what one send
  puts on which channel.
- `TickSchedule`: one pulse stated on values, with its lemmas:
  - the sweep of the registrations and the events it collects;
  - the error that aborts it;
  - removal of the flagged registrations;
  - the periodicity of firings.
- `RiemannClient`: `Client.cs` as classes with mutable fields:
  - `Client`, with its tag pointer, registration list, timer flag, datagram
    log and stream bytes;
  - the handles `RiemannTags` and `TickDisposable`;
  - the sweep loop of `ProcessTicks`, proved against `TickSchedule`.
- `LegacyRiemann`: `Riemann.cs`, the class `Riemann` and its `RiemannTags`
  handle.

The outside world is reduced to values:

- How a datagram send ends (`SendOutcome`) and the collector's reply
  (`Reply`) are arguments of each send.
- The datagrams sent are a log.
- The stream connection is the sequence of bytes written to it.
- The protobuf serializer is an opaque function `serialize: Msg -> Bytes`
  that each client holds.
- The host name (`GetFqdn`) is a constant field `name`.
- Tick callbacks are functions `() -> TickEvent`.
- The timer is a boolean `timerActive`. Each call of `ProcessTicks` is one
  pulse.

The model follows the code as written, including where it departs from
what a reader of the client's interface might expect:

- A fired tick event has `ttl = TickTime`, not twice the interval.
- A callback whose state is too long for an event is not caught. Building
  that event throws, the pulse stops there, and nothing is removed or sent.
- `Client.cs` events have no per-event tags and no attributes. The tag
  snapshot is the whole tag list of every wire event.
- The stream fallback happens on every 10040 error. There is no
  connection-mode switch.
- The state limit counts the string's `Length`: UTF-16 code units, not
  characters and not bytes. A character outside the Basic Multilingual Plane
  is a surrogate pair and counts twice (`Utf16Length`), so 128 such
  characters are already refused.
- `metric` is a 32-bit `float`.

## Model

| member | source | states |
|---|---|---|
| Events.NewEvent | Event.cs:11-20 | the constructor succeeds exactly when the state's `Length` is at most 255 UTF-16 code units, fails with the state error otherwise, and on success every field is the argument given |
| Events.OmittedTtlIsZero | Event.cs:11 | with the `ttl` argument left out the event's TTL is 0 |
| Events.StateLengthBoundary | Event.cs:12-14 | the empty state and a state of 255 characters of the Basic Multilingual Plane are accepted; no state of 256 characters is |
| Events.AstralStateRefused | Event.cs:12-14 | a state of 128 characters outside the Basic Multilingual Plane, `Length` 256, is refused |
| Primitives.Utf16Length | Event.cs:12 | `String.Length` counts one code unit per character below U+10000 and two above, so it lies between the character count and twice it |
| Primitives.Utf16LengthOfBmp | Event.cs:12 | text of the Basic Multilingual Plane has `Length` equal to its character count |
| Primitives.Utf16LengthOfAstral | Event.cs:12 | text entirely above U+FFFF has `Length` twice its character count |
| Primitives.Dec32 | Client.cs:115 | `NextTick - 1` on a C# `int`: one less, except that `int.MinValue` wraps to `int.MaxValue` |
| TagContext.Tags | Client.cs:30-38 | a node enumerates as many tags as its chain is deep, its own tag last |
| TagContext.TagsOuterToInner | Client.cs:30-38 | position `depth-1-k` of the enumeration is the tag of the ancestor `k` steps up: outermost first, innermost last |
| TagContext.Current | Client.cs:166-169 | no tags without a current node; otherwise as many as the chain is deep, the current node's tag last |
| TagContext.Push | Client.cs:58-63 | the node `Tag(t)` makes current has the old current node as parent and enumerates the previous tags with `t` appended |
| TagContext.DisposeRestores | Client.cs:26-28 | disposing a push's handle restores exactly the tags active before the push |
| TagContext.OuterDisposeDropsInner | Client.cs:26-28 | with an outer and an inner tag open, disposing the outer handle restores the tags before both, so the inner tag goes too; disposing the inner handle afterwards brings the outer tag back |
| RiemannClient.DisposeOutOfOrder | Client.cs:26-28 | on a client: tag outer, tag inner, dispose outer (the tags before both), dispose inner (those plus outer), dispose outer again (the tags before both once more) |
| TagContext.ChainTags | Client.cs:30-38 | a chain of handles enumerates the root's tags followed by the handles' tags in push order |
| TagContext.PushKeepsMatch | Client.cs:58-63 | a push extends the chain of open handles by one, whose parent is the node that was current |
| TagContext.DisposeKeepsMatch | Client.cs:26-28 | disposing the latest handle shortens the chain by one and makes its parent current |
| TagContext.NestedScopesTrackStack | Client.cs:26-63 | for every sequence of pushes and strictly nested disposes, the enumerated tags are the starting context's followed by the tags pushed and not yet released, as a plain stack says |
| TagContext.NestedScopesFromEmpty | Client.cs:26-63 | from a client with no tag, the enumerated tags always equal the reference stack |
| Wire.Reverse | Client.cs:194 | `Array.Reverse` puts element `i` at position `n-1-i` |
| Wire.LittleEndianBytes | Client.cs:193 | `BitConverter.GetBytes` of an `int` gives four bytes that read back, least significant first, as its two's-complement value |
| Wire.LengthPrefix | Client.cs:193-195 | the reversed `BitConverter` bytes of the length are its big-endian bytes, most significant first |
| Wire.Frame | Client.cs:193-196 | a frame is the payload preceded by four bytes |
| Wire.LengthPrefixDecodes | RiemannClientTests/MockServer.cs:52 | reading the prefix as an unsigned big-endian 32-bit number, as the test collector does, gives the payload length |
| Wire.ParseFrame | RiemannClientTests/MockServer.cs:52 | the collector reads nothing from a stream shorter than four bytes or than the length they announce; otherwise the payload has the announced length and the stream is the prefix, the payload and the rest |
| Wire.FrameRoundTrip | Client.cs:193-196 | the collector reads back exactly the payload of a frame, and the rest of the stream after it |
| Wire.Transmit | Client.cs:189-205 | one send logs at most the one datagram, never both a datagram and stream bytes, nothing at all on a failure, and reads a reply exactly on the 10040 fallback |
| Wire.TransmitFallback | Client.cs:189-205 | the stream is written exactly when the datagram fails with 10040, and then with one frame that reads back as the payload; every other socket error surfaces with its code and writes nothing; a datagram is logged exactly when it was delivered |
| TickSchedule.Due | Client.cs:115-116 | a registration is due exactly when its countdown is at most 1 and not `int.MinValue`, whose decrement wraps |
| TickSchedule.Advance | Client.cs:115-119 | interval, service and flag stay; a due registration restarts at its interval, any other ends with a positive countdown one less than before unless it wrapped |
| TickSchedule.TickToEvent | Client.cs:117-118 | the event of a firing is built exactly when the callback's state is at most 255 UTF-16 code units, with the service, the callback's values and `ttl = TickTime`; otherwise the state error |
| TickSchedule.StepReg | Client.cs:115-120 | one registration fails exactly when due with a state too long; it fires exactly when due and not failing, with its event; without failure it is advanced, on failure only decremented |
| TickSchedule.DueIndices | Client.cs:116 | the positions of the due registrations, increasing, and every due position among them |
| TickSchedule.SweepUpToFails | Client.cs:116-118 | a partial sweep fails exactly when some due registration in it got a state over 255 UTF-16 code units, and then with the state error |
| TickSchedule.SweepFailsIffLongState | Client.cs:111-121 | a pulse aborts exactly when some due registration's callback returned a state over 255 UTF-16 code units, and the error is the state error |
| TickSchedule.StepWithoutError | Client.cs:115-120 | one registration swept without error is decremented or restarted, and fires exactly when due, with its service and `ttl = TickTime` |
| TickSchedule.EarlierWithoutError | Client.cs:111-121 | a sweep without error has no error at any shorter prefix, nor at its last registration |
| TickSchedule.SweptRegsWithoutError | Client.cs:115-120 | after a partial sweep without error, every registration swept is advanced |
| TickSchedule.SweptEventsWithoutError | Client.cs:116-118 | after a partial sweep without error, the events are one per due registration, in order |
| TickSchedule.SweepWithoutError | Client.cs:111-121 | a pulse without error decrements every registration, restarts exactly the due ones at their interval, and collects one event per due registration in registration order, with its service, the callback's values and `ttl = TickTime` |
| TickSchedule.SweepStopsAtError | Client.cs:111-121 | once the sweep has failed, later registrations are untouched and nothing more is collected |
| TickSchedule.SweepAdvance | Client.cs:111-121 | sweeping one more registration appends its step's state and event and takes its error |
| TickSchedule.FiresEveryInterval | Client.cs:115-120 | a registration with interval `k >= 1` and countdown in `0..k` fires first on its first due pulse and then every `k` pulses; a new registration, whose countdown starts at 0 (Client.cs:68), fires on its first pulse |
| TickSchedule.Keep | Client.cs:129-131 | the kept elements are those of the list not removed, every element not removed is kept, and the list does not grow |
| TickSchedule.KeepConcat | Client.cs:129-131 | removal keeps the relative order of the elements kept |
| TickSchedule.RemoveFirst | Client.cs:130 | `List.Remove` leaves a list without the element unchanged and shortens a list holding it by one |
| TickSchedule.RemoveFirstOccurrence | Client.cs:130 | `List.Remove` takes out exactly one occurrence of an element present and nothing else |
| TickSchedule.RemoveFirstIsKeep | Client.cs:130 | on a list without repeats, `List.Remove` of one more element is removing it together with the earlier ones |
| TickSchedule.KeepDistinct | Client.cs:129-131 | removal from a list without repeats leaves a list without repeats |
| TickSchedule.FlaggedUpToMembers | Client.cs:111-114 | only registrations seen so far are among the removals |
| TickSchedule.FlaggedUpToIffRequested | Client.cs:111-114 | among the registrations seen so far, one is a removal exactly when its flag is set |
| TickSchedule.FlaggedUpToCount | Client.cs:111-124 | the removals are at most the registrations seen, and as many exactly when all of them are flagged |
| TickSchedule.FlaggedIffRequested | Client.cs:111-124 | a registration is a removal exactly when its flag is set; removals are registrations; their count equals the list's exactly when all are flagged |
| TickSchedule.Flagged | Client.cs:110-114 | the removals are no more than the registrations |
| TickSchedule.Prune | Client.cs:122-133 | without flags the list stays as it is; a dropped list was not empty; a kept list is no longer than before and holds only registrations it had |
| TickSchedule.PruneKeepsUnflagged | Client.cs:122-133 | the list is dropped exactly when every registration was flagged; otherwise a registration stays exactly when it was not flagged |
| TickSchedule.FlaggedStillFires | Client.cs:111-131 | a registration disposed before the pulse still fires in it when due, and is removed afterwards, the extra tick the interface documents (IClient.cs:25) |
| RiemannClient.RiemannTags.constructor | Client.cs:20-24 | the handle records its owner and node |
| RiemannClient.RiemannTags.Dispose | Client.cs:26-28 | disposing sets the owner's current node to the node's parent |
| RiemannClient.TickDisposable.constructor | Client.cs:66-76 | a new registration has the given interval, service and callback, countdown 0 and no removal flag |
| RiemannClient.TickDisposable.Dispose | Client.cs:78-80 | disposing only sets the removal flag |
| RiemannClient.BatchEventsCopyFields | Client.cs:171-185 | one wire event per input in input order, host the client's name, service, state, description, metric and ttl copied, tags exactly the snapshot |
| RiemannClient.BatchMessage | Client.cs:171-185 | the message of a batch has no query and one wire event per input, in order, with host the client's name, the input's fields, `ttl` always set, and the tag snapshot |
| RiemannClient.BatchEventsConcat | Client.cs:171-185 | the conversion is event by event: splitting the batch splits its wire events |
| RiemannClient.SendSucceeds | Client.cs:189-205 | a send succeeds exactly when the datagram went out, or it fell back to the stream and the reply said `ok`; a reply that is not `ok` raises its error |
| RiemannClient.Client.constructor | Client.cs:51-56 | a new client has no tag, no registration list, no timer, and has sent nothing |
| RiemannClient.Client.Tag | Client.cs:58-63 | the new node's parent is the old current node, it becomes current, and the tags are the old ones with `t` appended |
| RiemannClient.Client.Tick | Client.cs:91-102 | the new registration is appended to the list; a dropped list is recreated and the timer restarted |
| RiemannClient.Client.AssembleMessage | Client.cs:171-185 | the message of the batch: one wire event per input with the host name and the tag snapshot, and no query |
| RiemannClient.Client.SendEvents | Client.cs:164-206 | the batch message with the current tags goes out as a datagram, or as a frame on the stream on 10040, and the result is the send's outcome with the reply check |
| RiemannClient.Client.SendPayload | Client.cs:186-205 | the payload is logged as a datagram when delivered; on 10040 the frame is appended to the stream and a reply that is not `ok` fails; any other code fails with that code and writes nothing |
| RiemannClient.Client.SendEvent | Client.cs:208-211 | a state over 255 UTF-16 code units fails before anything is sent; otherwise the one-event batch is sent |
| RiemannClient.Client.ProcessTicks | Client.cs:104-138 | one pulse: every registration ends in the state the sweep gives it; an aborted sweep fails with its error and removes and sends nothing; otherwise the flagged registrations are pruned and the events, if any, go out in one batch |
| RiemannClient.Client.FinishPulse | Client.cs:122-137 | after a sweep without error the list is pruned and the events are sent in one batch only when there are some |
| RiemannClient.Client.RemoveFlagged | Client.cs:122-134 | with removals, the list is dropped and the timer stopped when all were flagged, otherwise the flagged ones are removed; the list invariant is kept |
| RiemannClient.SweepRegistrations | Client.cs:110-121 | the sweep loop leaves every registration in the state the sweep gives it, returns the sweep's error, and without error the sweep's events and the flagged registrations in order |
| RiemannClient.SweptSnapshots | Client.cs:111-121 | where the sweep loop stops, the registrations hold the sweep's states and the collected events are the sweep's |
| RiemannClient.SweepAt | Client.cs:111-120 | the loop body advances the sweep by one registration and records it among the removals exactly when flagged |
| RiemannClient.SweepOne | Client.cs:115-120 | one registration is decremented and, when due, fires and restarts, or aborts on a state too long, as `StepReg` says |
| RiemannClient.RemoveEach | Client.cs:129-131 | removing the flagged registrations one by one leaves the others in order |
| RiemannClient.Client.Query | Client.cs:213-222 | the query goes on the stream as a frame; the result is the reply's states exactly when it is `ok`, otherwise its error |
| RiemannClient.Client.QueryAsWritten | Client.cs:213-222 | the query goes on the stream without a length prefix; the result is the reply's states exactly when it is `ok`, otherwise its error |
| RiemannClient.UnframedQueryIsMisread | Client.cs:216 | the collector, which reads a big-endian length first, never reads back an unframed payload |
| RiemannClient.FramedQueryIsRead | RiemannClientTests/MockServer.cs:52 | the test collector, reading a big-endian length prefix, reads back a framed query exactly |
| LegacyRiemann.SingleMessageFields | Riemann.cs:103-114 | the message has exactly one event with host the client's name, the arguments and tags given, and a `ttl` field present exactly when the argument is not 0 |
| LegacyRiemann.SingleAgreesWithBatch | Riemann.cs:103-114 | with a non-zero ttl the single-event message is the batch message of that event; with ttl 0 they differ only in the unset ttl |
| LegacyRiemann.LegacySendSucceeds | Riemann.cs:118-130 | a send succeeds exactly when the datagram went out or the stream fallback was taken; other socket errors are rethrown with their code |
| LegacyRiemann.FallbackIgnoresReply | Riemann.cs:118-130 | after the fallback this client succeeds where `Client` raises the reply's error |
| LegacyRiemann.RiemannTags.constructor | Riemann.cs:19-23 | the handle records its owner and node |
| LegacyRiemann.RiemannTags.Dispose | Riemann.cs:25-27 | disposing sets the owner's current node to the node's parent |
| LegacyRiemann.Riemann.constructor | Riemann.cs:50-55 | a new client has no tag and has sent nothing |
| LegacyRiemann.Riemann.Tag | Riemann.cs:57-62 | the new node's parent is the old current node, it becomes current, and the tags are the old ones with `t` appended |
| LegacyRiemann.Riemann.SendEvent | Riemann.cs:98-133 | a state over 255 UTF-16 code units fails with nothing sent; otherwise the one-event message with the current tags goes out as a datagram, or as a frame on 10040 with no reply read |
| LegacyRiemann.Riemann.TickElapsed | Riemann.cs:66-69 | one timer firing sends the callback's report for the service with `ttl` the interval |
| LegacyRiemann.Riemann.SendPayload | Riemann.cs:115-130 | the payload is logged as a datagram when delivered, framed on the stream on 10040, and any other code fails and writes nothing |

## Left out

- Sockets and streams (`MakeStream`, `MakeDatagram`, the `Lazy` wrappers,
  `Send`, `Write`, `Flush`) are I/O. They are reduced to a send outcome
  argument, a datagram log and the bytes written to the stream.
- The protobuf serializer and deserializer belong to a third-party library.
  Payloads are `serialize(message)` for an opaque `serialize`, and replies
  are arguments.
- `GetFqdn` is a host lookup; the name is a constant.
- Timers, locks and thread interleavings are left out. This includes the
  copy of the list taken under the lock, the count comparison racing with a
  concurrent `Tick`, and timer disposal. The timer is a flag and each pulse
  is one sequential call.
- LegacyRiemann.Riemann.TickElapsed: models one firing of the per-call timer
  that `Riemann.Tick` creates. The timer and its period are not modelled.
- `float` values are carried as opaque bit patterns; the client does no
  arithmetic on them.
- Tick callbacks are pure functions. An exception thrown by a callback, and
  any side effect it has, is not modelled. Only the exception thrown by the
  `Event` constructor is modelled.
  Since a callback is a function, a registration's callback returns the
  same `TickEvent` at every pulse, and no property relates the values a
  callback returns at different pulses.
- The host is assumed little-endian (`BitConverter.IsLittleEndian`). On a
  big-endian host `BitConverter.GetBytes` is already big-endian, so the
  reversal at Client.cs:194 and Riemann.cs:123 would write a little-endian
  prefix; `LittleEndianBytes` and `LengthPrefix` do not cover that case.
- The connection state machine, error suppression and reconnect loop exercised
  by the test files are left out. They do not exist in `Client.cs`.
- The client's own `Dispose` is left out for the same reason. The test
  files' timestamp assertion is left out too.
- Decoding the collector's reply from the stream is not modelled. The reply
  is an argument, and the bytes it would consume are not tracked.
- Neither client tracks which bytes belong to which message once they are on
  the stream.
- TagContext.NestedScopesTrackStack: states the stack discipline only for
  strictly nested disposes. Out-of-order disposal is described by
  `OuterDisposeDropsInner` and `DisposeOutOfOrder` instead.
- Null strings are not modelled, because a Dafny string cannot be null. In
  C# a null `state` makes `Event`'s constructor (Event.cs:12) and
  `Riemann.SendEvent` (Riemann.cs:99) throw `NullReferenceException` before
  any check. A null description, which the interface allows (IClient.cs:43),
  would be copied unchanged.
- The framing of the collector's reply is not modelled. `SendEvents` and
  `Query` read the reply with `Deserialize`, without a length prefix
  (Client.cs:198 and Client.cs:217). The test collector writes its reply
  with a big-endian length prefix (RiemannClientTests/MockServer.cs:59), so
  against it these reads would start at the prefix. The reply is an argument
  in the model, so neither side of this mismatch is represented.

## Findings

| source | as written | input that shows it | evidently intended | confidence | as-written member | corrected member |
|---|---|---|---|---|---|---|
| Client.cs:216 | `Query` serializes the query message straight onto the stream without the 4-byte big-endian length prefix that every other stream write carries and that the collector reads first (RiemannClientTests/MockServer.cs:52) | any query: the collector takes the payload's first four bytes as a length, so it never reads the query back as written | write the query as a length-prefixed frame, as the fallback of `SendEvents` does | medium, not executed | RiemannClient.Client.QueryAsWritten, RiemannClient.UnframedQueryIsMisread | RiemannClient.Client.Query, RiemannClient.FramedQueryIsRead |
