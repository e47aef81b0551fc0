# Verification of the remote gateway's codec, store-and-forward protocol and status deltas

Events of a vehicle gateway are sent to a remote client. What cannot be sent is kept in a local
database under the nanosecond it was stored in, replayed later in bounded passes, archived by date when too old, and
deleted afterwards. Status messages are renamed to short keys and sent as differences from the previous
one. The project models these parts and proves what they keep:

- **The wire codec** (`MachineInts`, `Varint`, `Wire`, `Codec`, `CodecLaws`, `FieldLaws`, `Messages`). Varints with
  64-bit wrap-around, the token skipper with its depth counter, and the three messages `RemoteMSG`,
  `RemoteMSG2` and `RemoteSnapshot`. `Messages` holds the classes with the backward buffer fill and the
  forward parse loop, proved against the functions of `Codec`; `CodecLaws` proves the laws of those
  functions, and `FieldLaws` what each field is byte by byte.
- **The store** (`Buckets`, `Repo`). A bucket is a sequence of entries in ascending byte order with a
  cursor; the scan loops are proved against a filter.
- **The database actor** (`Lifecycle`). State machine, behaviour, file handle and mailbox, over every run.
- **The replay protocol** (`Decimal`, `Prepare`, `Replay`, `ReplayPass`, `Lanes`, `Conservation`, `Deployment`,
  `Draining`, `Redelivery`). `Conservation` is a state machine over the store, the queued requests, any number
  of query children with their snapshots and unsent messages, and a record of every event received, every
  answer, and every request served with or without effect; `Lanes` says what the requests on their way may
  be. Its moves interleave freely, also calls of the closure that come after one returned false. It allows
  more interleavings than the actors do: a request may be served while a snapshot is still being read.
  `Deployment` runs it on the database actor of `Lifecycle` and shows each turn to be a move: there a request
  has effect when the actor is in `sWait` and its transaction commits. `Draining` shows the passes of
  `ReplayPass` to run on it and to empty the store from every reachable state; `Redelivery` says which events
  may be sent twice.
- **Statuses** (`Status`, `Delta`, `StatusActors`). The renaming for every iteration order of Go's maps
  (a `Walk` is a value together with the order `range` visits its maps in), the recursive diff, and what a
  receiver can rebuild from it.

## What turned out not to hold

- The reverse prefixed scan starts at the last key of the bucket. It yields the block of the prefix exactly
  when the block is empty or ends the bucket (`ReverseScanComplete`, `ReverseScanMisses`).
- A client's open request is answered with success also when opening the file failed
  (`OpenReply`, `OpenReplyCanMislead`).
- The live path takes any reply as delivery, so an event answered with `MsgError` is neither delivered nor
  stored (`ErrorAnswerLosesEvent`). Nor does storing it mean that it is kept: the reply above sets a flag that
  is never reset, and the database actor drops writes while it is not serving (`StoredEventIsDropped`).
  `ReceivedSafeExactly` has the exact condition, for every event and every run.
- Archiving is two messages, a write and a delete. `EventsLostExactly` says over every run, with anything
  between the two and the actor in any state, that a stored event is lost if and only if the client never
  answered it and its own write was served in vain, or its archive write was served in vain and never later
  with success while its delete had effect. `ArchivedEventIsLost` is a run that ends so.
- The age limit is compared correctly for all events at all clock readings exactly for `retryDays` up to
  106751 (`LimitIsExact`). At 106752 it is below zero (`LimitOverflows`).
- Byte order of decimal keys is not numeric order (`OrderCanDisagree`). An earlier identifier sorts first if and
  only if it is at most the number that the later one's leading digits, as many as it has itself, denote
  (`OrderExactly`). Instants between 2001 and the end of int64 nanoseconds all have 19 digits, for which the
  orders agree.
- Events are offered in order but not always delivered in order: the child goes on after a failed send
  (`LaterEventOvertakes`). A pass delivers in order exactly when no answered send follows a failed one among its
  first 31 entries (`DeliveryOrderExactly`).
- An event may be delivered twice (`EventsCanBeSentTwice`). Until another query is answered this is impossible exactly
  when no pass still offers an event that was acknowledged or that another pass offers
  (`DeliveredOnceExactly`), and answering a query keeps it so exactly when what it reads is apart from both
  (`ReadKeepsUnshared`).
- A version-2 message whose state or events have fewer than two bytes panics before it is sent or stored
  (`OnRemoteMSG2`).
- Renaming can depend on the iteration order (`ClashIsArbitrary`). It does not exactly when, wherever the renaming
  reaches, siblings that share an abbreviation rename to equal values (`OrderMattersExactly`).
- A delta carries a change exactly when no member outside the removed keys appears, disappears or becomes null
  and no list of strings is extended (`DeltaIsExact`). The comparison panics exactly when `Comparable` fails:
  somewhere a list of strings became shorter without differing earlier (`FuncCompare`, `PanicsExactly`).
- The depth counter does not look at field numbers, so a group may be closed by the end tag of another
  (`MismatchedGroupIsSkipped`); `StrictExactly` says which inputs that adds.

## Model

| member | source | states |
|---|---|---|
| Varint.EncodeVarintAt | messages/messages.pb.go:1672-1682 | fills exactly the `sovMessages(v)` bytes that end at the offset with the varint of v and changes nothing else |
| Varint.ReadVarintAt | messages/messages.pb.go:2699-2714 | the shift loop returns the varint at the index, or overflow after ten bytes, or unexpected end, with 64-bit wrap-around of the shifted digits |
| Varint.SovIsLength | messages/messages.pb.go:1869-1871 | the bit-length formula is the number of bytes written |
| Varint.SovMonotone | messages/messages.pb.go:1869-1871 | a larger value never takes fewer bytes |
| Varint.SovSubadditive | messages/messages.pb.go:1869-1871 | a sum takes no more bytes than its terms together |
| Varint.ReadEncoded | messages/messages.pb.go:1672-1682 | reading a written varint gives the value back and consumes exactly its bytes, whatever follows |
| Varint.EncodingIsMinimal | messages/messages.pb.go:1869-1871 | no accepted varint is shorter than the one written for the value it reads as |
| FieldLaws.ReadSpelled | messages/messages.pb.go:2699-2714 | any spelling of one to ten seven-bit groups, minimal or not, is read as the number it denotes modulo 2^64 |
| FieldLaws.ReadUnended | messages/messages.pb.go:2699-2714 | ten groups that all say more follow overflow; fewer at the end of the input are an unexpected end |
| Wire.SkipMessages | messages/messages.pb.go:3182-3259 | the loop with the depth counter returns what the recursive specification returns, error for error |
| Wire.SkipIsGrammar | messages/messages.pb.go:3182-3259 | it returns n exactly when the first n bytes are one well-formed record, groups nested to any depth |
| Wire.SkipSound | messages/messages.pb.go:3182-3259 | started at any depth d, what it consumes closes d groups of the grammar, and at least one byte is consumed |
| Wire.RecordsArePrefixFree | messages/messages.pb.go:3182-3259 | two prefixes of one input that are records are the same prefix, so the record skipped is unique |
| Wire.SkipAdvances | messages/messages.pb.go:3182-3259 | a successful skip moves forward by at least one byte; it may end past the input, which callers compare with its length |
| FieldLaws.FixedIsSkipped | messages/messages.pb.go:3216-3246 | wire type 1 is skipped with eight bytes and wire type 5 with four, for any field number and whatever follows |
| FieldLaws.VarintIsSkipped | messages/messages.pb.go:3204-3215 | wire type 0 is skipped with one varint |
| FieldLaws.BlockIsSkipped | messages/messages.pb.go:3218-3234 | wire type 2 is skipped with its length and that many bytes |
| FieldLaws.GroupIsSkipped | messages/messages.pb.go:3235-3241 | wire type 3 is skipped with any records behind it and an end tag |
| FieldLaws.NoSuchField | messages/messages.pb.go:3235-3246 | wire types 6 and 7, and an end tag with no group open, are the errors the source returns |
| Wire.StrictExactly | messages/messages.pb.go:3182-3259 | a prefix is a record whose groups end with the field number they start with if and only if it is what is skipped and a stack of field numbers finds every end tag matching |
| Wire.StrictIsRecord | messages/messages.pb.go:3182-3259 | every record of that strict grammar is one of the grammar skipped |
| Wire.MismatchedGroupIsSkipped | messages/messages.pb.go:3235-3243 | a group of field 1 closed by the end tag of field 2 is skipped |
| Messages.RemoteMSG.Size | messages/messages.pb.go:1797-1818 | the exact length of the encoding, omitted default fields included |
| Messages.RemoteMSG2.Size | messages/messages.pb.go:1819-1852 | the same for the six fields of `RemoteMSG2` |
| Messages.RemoteSnapshot.Size | messages/messages.pb.go:1853-1868 | the same with the nested message, present but empty included |
| Messages.RemoteMSG.MarshalToSizedBuffer | messages/messages.pb.go:1536-1564 | the backward fill writes the encoding into the last `Size()` bytes and nothing else |
| Messages.RemoteMSG2.MarshalToSizedBuffer | messages/messages.pb.go:1581-1630 | the same for `RemoteMSG2` |
| Messages.RemoteSnapshot.MarshalToSizedBuffer | messages/messages.pb.go:1647-1670 | the same with the nested message filled in first and its length prefix written after it |
| Messages.RemoteMSG.Marshal | messages/messages.pb.go:1521-1530 | the fill ends at index 0 of a buffer of `Size()` bytes, which then is the encoding |
| Messages.RemoteMSG2.Marshal | messages/messages.pb.go:1566-1575 | the same for `RemoteMSG2` |
| Messages.RemoteSnapshot.Marshal | messages/messages.pb.go:1632-1641 | the same for `RemoteSnapshot` |
| Messages.RemoteMSG.Unmarshal | messages/messages.pb.go:2695-2835 | the index loop succeeds exactly when the record-by-record parse does, with the same message or the same error |
| Messages.RemoteMSG2.Unmarshal | messages/messages.pb.go:2836-3076 | the same for `RemoteMSG2` |
| Messages.RemoteSnapshot.Unmarshal | messages/messages.pb.go:3077-3181 | the same, the nested message merged into the one already held |
| Messages.RemoteMSG.Equal | messages/messages.pb.go:987-1019 | nil only equals nil, another type nothing; by pointer or by value, equal fields, nil and empty bytes identified |
| Messages.RemoteMSG2.Equal | messages/messages.pb.go:1020-1061 | the same for `RemoteMSG2` |
| Messages.RemoteSnapshot.Equal | messages/messages.pb.go:1062-1088 | the same, an absent and an empty `LastMSG` told apart |
| CodecLaws.RoundTrip | messages/messages.pb.go:1536-1682 | every encoded message parses into a fresh one that is `Equal` to it, negative fields and empty `LastMSG` included |
| FieldLaws.Fields1 | messages/messages.pb.go:1536-1564 | the encoding of `RemoteMSG` field by field: tags, order, two's complement, defaults left out |
| FieldLaws.Fields2 | messages/messages.pb.go:1581-1630 | the same for the seven fields of `RemoteMSG2` |
| FieldLaws.FieldsSnap | messages/messages.pb.go:1647-1670 | the same for `RemoteSnapshot`, an empty `LastMSG` present |
| FieldLaws.LastNumberWins1 | messages/messages.pb.go:2758-2815 | after any accepted input, the bytes of an int64 field set that field to their value, zero included, and no other |
| FieldLaws.LastNumberWins2 | messages/messages.pb.go:2836-3076 | the same for the int64 fields of `RemoteMSG2` |
| FieldLaws.LastNumberWinsSnap | messages/messages.pb.go:3077-3181 | the same for the time stamp of `RemoteSnapshot` |
| FieldLaws.LastTextWins1 | messages/messages.pb.go:2724-2756 | the bytes of `Data` replace it, empty ones by present and empty |
| FieldLaws.LastTextWins2 | messages/messages.pb.go:2836-3076 | the same for the bytes and string fields of `RemoteMSG2`, each under its own tag |
| FieldLaws.LastMSGMerges | messages/messages.pb.go:3110-3145 | the bytes of `LastMSG` are parsed into the message held, or into an empty one, and its errors passed on |
| FieldLaws.BadTags | messages/messages.pb.go:2715-2835 | which error an end-group tag, a field number outside 1 to 2^31 - 1, and a wrong wire type give, for every tag |
| FieldLaws.BadLengths | messages/messages.pb.go:2728-2751 | a length negative as an int, and one past the input |
| CodecLaws.EqualIffSameBytes | messages/messages.pb.go:987-1088 | two messages of a type are `Equal` if and only if their encodings are the same bytes |
| CodecLaws.SizeIsLength | messages/messages.pb.go:1797-1871 | `Size` is the length of the encoding for all three types |
| CodecLaws.ReencodingNeverGrows | messages/messages.pb.go:1797-1871 | whatever is accepted, the `Size` of the result is at most the input's length |
| CodecLaws.NeverGrows | messages/messages.pb.go:2695-3181 | parsing into a message that already has contents adds at most the bytes consumed to its `Size` |
| CodecLaws.ConcatIsMerge | messages/messages.pb.go:3077-3181 | parsing a ++ b is parsing b into the result of parsing a |
| CodecLaws.RepeatedBlocksMerge | messages/messages.pb.go:3110-3145 | two `LastMSG` records act as one record with their payloads joined |
| CodecLaws.UnknownInsertion | messages/messages.pb.go:3160-3176 | an unknown well-formed record inserted between two parts changes nothing |
| CodecLaws.UnknownChangesNothing | messages/messages.pb.go:3160-3176 | a record of an unknown field, groups included, parses to the message unchanged |
| Buckets.Cursor.Seek | internal/database/repo.go:135 | every key before the cursor is below the prefix and none from it on is |
| Buckets.GetPut | internal/database/repo.go:43 | a put changes the value under its key and no other |
| Buckets.GetDelete | internal/database/repo.go:104 | a delete removes its key and no other |
| Repo.Database.PersistData | internal/database/repo.go:19-64 | the whole new store, and each error with the store unchanged: no bucket name, or an insert over an existing key |
| Repo.Database.RemoveData | internal/database/repo.go:93-110 | the whole new store; a missing collection is an error, a missing key is not |
| Repo.SearchCollections | internal/database/repo.go:118-155 | forward loops yield exactly the keys with the prefix in ascending order; reverse loops what `Scan` says |
| Repo.QueryData | internal/database/repo.go:157-235 | offers the scanned entries in order, less those whose hand-over timed out, up to the stop |
| Repo.ReverseScanComplete | internal/database/repo.go:128-133 | the reverse prefixed scan is the reversed filter if and only if the block is empty or ends the bucket |
| Repo.ReverseScanMisses | internal/database/repo.go:128-133 | a bucket on which it misses a matching key |
| Repo.EmptyPrefix | internal/database/repo.go:140-152 | the unprefixed reverse scan is the reversal of the forward one |
| Repo.FilterExactly | internal/database/repo.go:134-151 | a forward scan holds exactly the entries of the bucket with the prefix, in ascending order |
| Repo.KeysAt | internal/database/repo.go:130-149 | the keys returned are those of the entries scanned, place by place |
| Repo.OfferedExactly | internal/database/repo.go:192-199 | an entry is handed over if and only if its own turn hands over and no turn before it saw the stop |
| Repo.OfferedInOrder | internal/database/repo.go:192-199 | whatever times out or stops, the entries offered are a subsequence of the scan |
| Repo.OfferedAll | internal/database/repo.go:218-229 | with neither, the whole scan is offered |
| Lifecycle.DbActor.FireEvent | internal/database/fsm.go:42-90 | fields and mailbox after an event and the enter callback of its target |
| Lifecycle.DbActor.Receive | internal/database/actor.go:64-330 | fields, mailbox and store after one message, and the reply; the invariant is kept |
| Lifecycle.DbActor.Serve | internal/database/actor.go:113-325 | one request in the wait state: the transaction, its reply or refusal, and the errors after which the actor restarts |
| Lifecycle.AnsweredExactly | internal/database/actor.go:113-325 | a waiting actor acknowledges exactly the requests that commit, writes under their key; the conditions to commit for each operation |
| Lifecycle.StoredExactly | internal/database/actor.go:113-225 | what is under any key afterwards: the data written, or nothing, where the request committed, all else as before |
| Lifecycle.RestartsExactly | internal/database/actor.go:146-151 | the errors after which the actor restarts, for each operation, and the state it is left in |
| Lifecycle.ClosedDropsRequests | internal/database/actor.go:70-91 | while it is not in `sWait` the actor drops requests without an answer |
| Lifecycle.DeliverKeepsInv | internal/database/actor.go:70-330 | every delivery keeps state machine, behaviour, handle and pending messages in step |
| Lifecycle.Reachable | internal/database/fsm.go:42-90 | after every run: wait behaviour iff `sWait`, where the file is open; one outcome pending iff `sOpen`, none otherwise; one self-sent open pending in `sRestart`, none in `sWait` or `sClose`, any other ahead of the outcome |
| Lifecycle.RunKeepsInv | internal/database/fsm.go:42-90 | the invariant holds after every run from any state that has it |
| Lifecycle.ReopenStep | internal/database/actor.go:77-91 | in `sClose` one delivery reopens exactly when it is a client's open request |
| Lifecycle.ClosedStaysClosed | internal/database/fsm.go:78-84 | a closed database stays closed along every run that handles no client open request |
| Lifecycle.CloseCloses | internal/database/actor.go:104-106 | closing or stopping a waiting actor closes its file at once and touches nothing stored |
| Lifecycle.ClosedStoreIsFrozen | internal/database/fsm.go:78-84 | once closed, the store does not change along any run that handles no client open request |
| Lifecycle.Recovers | internal/database/fsm.go:85-89 | along every run whose opens succeed, whatever is sent meanwhile, an opening or restarting actor serves after at most two deliveries more than its mailbox holds and one for each message sent |
| Lifecycle.OpenReply | internal/database/actor.go:77-86 | a client's open is always answered with success; the file is open then if and only if it was, or its opening succeeded |
| Lifecycle.OpenReplyCanMislead | internal/database/actor.go:77-86 | a run from the start to a success reply with no file open |
| Decimal.ParseMinted | internal/remote/remote-actor.go:141 | `ParseInt` reads back every identifier that `Sprintf("%d")` mints |
| Decimal.ParseSigned | internal/remote/remote-actor.go:141 | a sign in front of digits, and the numbers that do not fit an int64 |
| Decimal.DigitsOnly | internal/remote/remote-actor.go:141 | a number is at least one digit and nothing but digits |
| Decimal.OrderIsNumeric | internal/remote/remote-actor.go:213 | for equal digit counts byte order of the keys is numeric order |
| Decimal.OrderExactly | internal/remote/remote-actor.go:213 | of any two identifiers the earlier sorts first if and only if it is at most the later one without its surplus digits |
| Decimal.OrderCanDisagree | internal/remote/remote-actor.go:213 | 10 sorts before 9 |
| Decimal.MintedLength | internal/remote/remote-actor.go:213 | identifiers minted since September 2001 have 19 digits |
| Replay.OlderIsTooOld | internal/remote/remote-actor.go:147 | at one clock reading, whatever is older than an event too old is too old |
| Replay.LimitIsExact | internal/remote/remote-actor.go:147 | the comparison is that of the true age with the true limit, for all events and clock readings, if and only if `retryDays` is at most 106751 |
| Replay.AgeByInstant | internal/remote/remote-actor.go:147 | too old or not by the instant minted and the instant judged, to within the millisecond the source cuts off |
| Replay.ArchiveByInstant | internal/remote/remote-actor.go:148 | the archive is named after the day of the millisecond the event was minted in |
| Replay.MintedEventFate | internal/remote/remote-actor.go:135-174 | what one call sends, counts and returns for an event minted at n and judged at now: archived, delivered and removed, or left |
| Replay.ForeignKeyFate | internal/remote/remote-actor.go:141-145 | a key that is no identifier is removed and nothing else is sent |
| Replay.LiveExactly | internal/remote/remote-actor.go:184-218 | flag, fields and write for every combination of connection, answer, database and setting |
| Replay.VerifyExactly | internal/remote/remote-actor.go:118-132 | a pass lowers the flag, and starts if and only if the database is open or opens |
| Prepare.PreparedText | internal/remote/remote-actor.go:228-238 | the bytes sent for version 2, host name, state members and events members in their places; the data for other versions |
| Prepare.PreparedKeepsBoth | internal/remote/remote-actor.go:228-238 | messages with equally long states are prepared alike if and only if states and events are the same |
| Replay.LimitOverflows | internal/remote/remote-actor.go:147 | at 106752 days an event of this instant is too old |
| Conservation.AnsweredOrStored | internal/remote/remote-actor.go:184-218 | with replay enabled, the database flagged open and no write served in vain, an event received is answered or kept, at every later moment, if and only if it was not answered with an error |
| Conservation.ReceivedExactly | internal/remote/remote-actor.go:184-218 | in every state of a run, which of the events received are neither delivered nor kept |
| Deployment.ReceivedSafeExactly | internal/remote/remote-actor.go:184-218 | on the database actor, over every run: an event received is delivered or kept unless it was answered with an error, or there was nowhere to store it, or its write or its archiving came to nothing |
| Deployment.StoredEventIsDropped | internal/database/actor.go:70-91 | a run from the first message on in which an event is stored after a success reply and dropped |
| Replay.ErrorAnswerLosesEvent | internal/remote/remote-actor.go:195-199 | a connected actor with an open database that loses an event |
| ReplayPass.RemoteActor.OnRemoteMSG2 | internal/remote/remote-actor.go:184-238 | a panic with nothing changed if and only if version 2 comes with fewer than two bytes of state or events; otherwise the fields and messages of `Replay.Live` on the prepared data, which for two objects is host name, state members and events members |
| ReplayPass.RemoteActor.OnVerifyReplay | internal/remote/remote-actor.go:118-182 | flag reset, database opened, and then the outcome of a whole pass over the entries offered |
| ReplayPass.RemoteActor.OnVerifyRetry | internal/remote/remote-actor.go:110-114 | another pass is asked for exactly when the flag is set, and nothing else changes |
| ReplayPass.RemoteActor.OnReconnect | internal/remote/remote-actor.go:115-117 | the client counts as connected and one pass is asked for |
| ReplayPass.RemoteActor.Query | internal/database/service.go:200-205 | the child calls the closure on every entry it is offered, also after one call returned false |
| ReplayPass.RemoteActor.Closure | internal/remote/remote-actor.go:134-175 | counter, flag, messages and result of one call are those of `Callback`, whose fates `Replay.MintedEventFate` gives |
| ReplayPass.PassIsBounded | internal/remote/remote-actor.go:135-140 | a pass acts on its first 31 entries only, whatever is answered, and sets the flag if and only if there are more |
| ReplayPass.PassRemoves | internal/remote/remote-actor.go:110-140 | with every send acknowledged a pass removes exactly the first min(N, 31) entries |
| ReplayPass.PassesDrain | internal/remote/remote-actor.go:110-140 | after k passes the first 31k entries are gone and no others, and the flag is set iff entries were left |
| ReplayPass.DrainedAfter | internal/remote/remote-actor.go:110-140 | the collection is empty, with no retry pending, if and only if at least N/31 passes, rounded up, have run |
| ReplayPass.MintedOrder | internal/remote/remote-actor.go:213 | minted keys sort by the instant they were minted |
| ReplayPass.ReplayIsFifo | internal/remote/remote-actor.go:134-176 | whatever the query times out on or is stopped at, minted events are offered in the order they were minted |
| ReplayPass.ArchivedComeFirst | internal/remote/remote-actor.go:147-153 | at a fixed clock reading the entries to archive are a prefix of the collection |
| ReplayPass.AckedExactly | internal/remote/remote-actor.go:134-175 | the entries a pass delivers are those of its first 31 that are sent and answered, whatever happened to the ones before |
| ReplayPass.OfflineDeliversNothing | internal/remote/remote-actor.go:154-157 | without a connection a pass delivers nothing |
| ReplayPass.DeliveryOrderExactly | internal/database/service.go:200-205 | a pass delivers in order if and only if no answered send follows a failed one among its first 31 entries |
| ReplayPass.LaterEventOvertakes | internal/database/service.go:200-205 | the first send fails, the second is answered |
| Conservation.NothingIsLost | internal/remote/remote-actor.go:134-175 | after every run a stored event is in `events`, on its way there, answered by the client with something other than `MsgError`, or in its dated archive, if and only if no write of it was served in vain in the way `IsLost` says |
| Draining.EventsCanBeDrained | internal/remote/remote-actor.go:110-182 | from every reachable state a course of acknowledged sends, successful opens and transactions empties `events`; every stored event is then answered, archived or lost as `IsLost` says |
| Draining.WholePass | internal/remote/remote-actor.go:118-182 | a pass on the deployed system takes the first 31 entries away and sets the flag if and only if more are left |
| Draining.PassTurns | internal/remote/remote-actor.go:134-175 | a query child left to itself, its messages sent and served one by one, does what `RunPass` says |
| Draining.Recovered | internal/database/fsm.go:42-90 | from every state with the invariant the actor can be brought to wait with an empty mailbox, through failures, restarts and closes still queued |
| Redelivery.DeliveredOnceExactly | internal/remote/remote-actor.go:158-174 | until another query is answered no event is delivered again, if and only if no pass offers what was acknowledged or what another pass offers |
| Redelivery.ReadKeepsUnshared | internal/database/actor.go:274-313 | answering a query keeps that condition if and only if no entry read was acknowledged or is still offered |
| Redelivery.HistoryKeepsSorted | internal/database/actor.go:274-313 | in every state of a run the snapshots still being read are in key order, which the exact condition supposes |
| Redelivery.EventsCanBeSentTwice | internal/remote/remote-actor.go:115-117 | two passes asked for before the first query is answered: every stored event may be delivered by both |
| Conservation.MoveKeeps | internal/remote/remote-actor.go:110-218 | each move keeps the invariant: every delete queued or unsent is provided for by an answer or an archive write ahead of it, and where an event is follows from which of its messages had effect |
| Conservation.HistoryKeeps | internal/remote/remote-actor.go:110-218 | that invariant holds along every run |
| Conservation.CallKeeps | internal/remote/remote-actor.go:134-175 | one call of the closure, whatever the answer and whenever it comes |
| Conservation.ServeKeeps | internal/database/actor.go:154-225 | one request served, with effect or without, keeps the books of every event |
| Deployment.TurnIsMove | internal/database/actor.go:70-330 | refinement: each turn of the database actor, the remote actor or a client is a move of the abstract system or leaves it as it was |
| Deployment.CourseKeeps | internal/database/actor.go:70-330 | the invariants of the actor and of the system hold together after every course of turns |
| Deployment.WriteHasEffect | internal/database/actor.go:154-197 | a write sent by the remote actor is served in vain if and only if the actor is not in `sWait` or its transaction meets a fault |
| Deployment.EventsLostExactly | internal/remote/remote-actor.go:147-152 | over every run, any messages between, any states: a stored event is lost if and only if it was never answered and its write came to nothing, or its archive write did while its delete had effect |
| Deployment.ArchivedEventIsLost | internal/remote/remote-actor.go:147-152 | a run from the first message on: the archive write's transaction fails, the actor keeps waiting, the delete behind it succeeds |
| Status.ReplaceKeys | internal/state/status.go:44-95 | the loop computes the renaming for the order its maps are visited in, later members overwriting earlier ones |
| Status.RenameIsRenamed | internal/state/status.go:44-95 | for every order: each non-null member under its abbreviation, objects and objects in arrays renamed unless left empty, and nothing else |
| Status.RenameTwice | internal/state/status.go:44-95 | renaming twice is renaming once, for every pair of iteration orders |
| Status.OrderMattersExactly | internal/state/status.go:44-95 | the result is the same for every order if and only if siblings sharing an abbreviation rename to equal values wherever the renaming reaches |
| Status.KeptInEveryOrder | internal/state/status.go:44-95 | a non-null member is found renamed in every order of its siblings if and only if those sharing its abbreviation rename to equal values |
| Status.ClashIsArbitrary | internal/state/status.go:47-87 | two numbers under keys with one abbreviation: the one visited later survives |
| StatusActors.TableIsClosed | internal/state/status.go:17-36 | no abbreviation of the actual table is itself renamed, which idempotence needs |
| Delta.CompareSlice | internal/state/status.go:238-248 | true exactly when the second list is a prefix of the first; a panic exactly when the first list is a proper prefix of the second |
| Delta.FuncCompare | internal/state/status.go:250-379 | the recursion with its map loop computes `Compare` for every iteration order, and panics exactly when the two are not `Comparable` |
| Delta.OverlayAgrees | internal/state/status.go:250-379 | a delta laid over anything that agrees with the last status agrees with the new one, where the change is one a delta carries |
| Delta.DeltaIsExact | internal/state/status.go:250-379 | the overlay on the last status agrees with the new one if and only if the change is one a delta carries |
| Delta.DeltaSound | internal/state/status.go:250-379 | every leaf of the delta is the new status's value at the same path |
| Delta.DeltaComplete | internal/state/status.go:269-279 | every changed non-null value on a path both statuses have, free of removed keys, is in the delta, extended string lists excepted |
| Delta.SentExactly | internal/state/status.go:250-379 | what a delta says at the end of any path through objects, exactly: nothing of removed keys, of members missing, gone, null or unchanged; static keys always; every other value that changed |
| Delta.NoEmptyObjects | internal/state/status.go:275-278 | two objects go out as the members with something to send, or not at all |
| Delta.OnlyChangesExactly | internal/state/status.go:103-117 | the first status whole, later ones as their delta, nothing when there is none |
| Delta.PanicsExactly | internal/state/status.go:238-248 | the comparison panics if and only if, somewhere below plain keys both have, a list of strings has lost only its tail |
| Delta.StaticIsSent | internal/state/status.go:97-99 | a static key that both have and that is not null is always sent |
| Delta.RebuiltAgrees | internal/state/status-actor.go:39-55 | the first status overlaid with all later deltas agrees with the current status, after any number of statuses |
| Delta.DeltasReconstruct | internal/state/status-actor.go:39-55 | the same member by member: the receiver has exactly the current members outside the removed keys, each agreeing |
| StatusActors.StatusActor.Receive | internal/state/status-actor.go:39-55 | the message sent, the group kept, the status remembered, and that a receiver of all messages so far can rebuild this status; when the comparison panics, nothing sent and the last status kept |
| StatusActors.StampedExactly | internal/state/status-actor.go:40-48 | the group name is found under its keys, the time stamp is rewritten if it is a number, and no other member changes |
| StatusActors.StampedInMilliseconds | internal/state/status-actor.go:41-43 | a time stamp of x thousandths of a second becomes x |
| StatusActors.MillisExactly | internal/state/status-actor.go:41-43 | other time stamps are cut off towards zero |
| StatusActors.Changes | internal/state/status.go:103-117 | the whole status the first time, afterwards the difference, or nothing, or the panic |

## Left out

- Go's `int` is taken to have 64 bits, and buffers to be shorter than 2^63 bytes.
- The contents of a message after an `Unmarshal` that returned an error, and nil receivers of `Size` and `Marshal`.
- Slices are values: `Unmarshal` reusing the capacity of an old slice, and `ReplaceKeys` overwriting array elements of its input, are not visible to other holders of them.
- The other generated messages, `String`, `GoString`, getters, reflection and descriptors: repetitions or easy.
- Go's floating point: JSON numbers are reals, and `int64(v * 1000)` neither rounds in the product nor leaves the range of int64 other than by wrapping.
- Varint.ReadVarintAt: stands for all the copies of this loop in the generated code, with the index and the error of each.
- StatusActors.StatusActor.Receive: what supervision does after a panic is not modelled; the answer to the group request is a parameter.
- Delta.FuncCompare: does not model the typed-slice branches, which parsed JSON never reaches; `funcCompare` (v1) is not called.
- Lifecycle.DbActor.Serve: a get, search or query only shows as an answer or a refusal; the goroutine and channel of a query are in `Repo.QueryData` and `Conservation`.
- Repo.QueryData: the `select` of each turn is a choice given from outside, and the channel is the sequence of entries handed over.
- Repo.Database.PersistData: one database is fixed, so its own bucket is not modelled; bbolt's limits on key and value size, and its page layout, are part of `fault`.
- ReplayPass.RemoteActor.Query: timeouts of the whole query and of single hand-overs are in which entries are offered; the reads of `isConnected` and `retryFlag` by the child are taken to be atomic.
- ReplayPass.PassesDrain: supposes that the callbacks of one pass have finished and their deletes are served before the next.
- Conservation.NothingIsLost: supposes that an identifier is fresh, so it is that of no event and stands in no collection of the file.
- Deployment.ReceivedSafeExactly: the outcome of `svc.Open` is a parameter of a move, not computed from the reply, so more runs are covered than there are.
- `lastRetry` and `lastReconnect` are never assigned, `lastSendedMsg` is never read, and sleeps only delay: none is modelled. A start with replay disabled and no database service at all is a database that never opens.
- ReplayPass.RemoteActor.OnRemoteMSG2: the host name comes quoted as a parameter; `Conservation` takes an event as prepared, so a message that panics is none of its events.
- `Last` in internal/database/repo.go copies after stepping past the last match and is not called.
- `svc.Close` awaits a reply that is never sent; restarts by supervision after a panic; `GetData`, `Insert` and `Delete` of the service as requests with a timeout.
- MQTT, NATS, Keycloak, tokens, environment, logging, `internal/app`, `internal/pubsub`, `internal/events`, `internal/remote-natsio`.
