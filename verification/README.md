# The libhoney event pipeline, proved

libhoney-go takes events from a program and sends them to the Honeycomb API. An event
is built from fields, sent (or sampled out), queued for a batching client, sorted into
buckets by destination, encoded into bodies of limited size, posted with one retry, and
every reply is matched back to its event and offered on a bounded response queue. The
project models that path and proves what it keeps, for all inputs and in every run.

| file | what it models |
|---|---|
| `Sequences.dfy` | facts about sequences of any kind |
| `Json.dfy`, `JsonStrings.dfy`, `JsonEscape.dfy` | byte strings; JSON texts (RFC 8259) with a printer, a parser, string decoding, and the escaping that encoding/json applies to texts it passes on |
| `Msgpack.dfy` | array headers of the MessagePack specification, and reading an array back |
| `Types.dfy` | events, responses, limits |
| `Packing.dfy` | how much of a bucket one request takes, body sizes, rounds of a fire, order |
| `Buckets.dfy` | buckets and their keys |
| `Firing.dfy` | the exchange with the server, the responses of one firing, the balance over a bucket |
| `BatchAgg.dfy` | `batchAgg` as a class: in-place refusal, encoding loops, overflow, retry, matching, the drain |
| `Accounting.dfy` | what a whole fire guarantees, key by key and over all keys |
| `FlushProtocol.dfy`, `FlushGuarantees.dfy`, `FlushCoverage.dfy`, `FlushQueues.dfy`, `FlushBatches.dfy` | Add, Flush and Stop as a state machine over any number of callers, with the response channel that they and the fires write to; what the two bounded queues let through, reject and drop, and what batches are made of |
| `ResponseQueue.dfy` | the bounded response channel as a class |
| `FieldPrinter.dfy`, `EventPrinter.dfy` | printing a map of fields, and an event, as JSON (the printer of `libhoney.go:475-524` is the same code) |
| `FieldModel.dfy`, `Fields.dfy` | events and builders as values, and the objects with shared maps that behave like them |
| `Pipeline.dfy` | from sends to responses, all parts together |

## What is assumed

The per-event encoder is any function from events to bytes or failure; where a theorem
reads the body back, it asks that the encoder prints JSON texts, or self-delimiting
MessagePack values. The server is any function of the requests so far. The batching
client (muster) is not in the repository: each item on its Work channel goes to exactly
one batch, each batch is fired once by its own aggregator, and its Stop closes Work and
returns when everything is fired; a fire offers at most twelve responses for each event,
which `Pipeline.FireOnce` proves. Stop does not overlap Add or Flush, as
`transmission/sender.go:13-16` demands of callers. The choice of sampling, the clock and
the order in which a map hands out its keys are arbitrary.

## Where the code differs from what one would expect

* The comma is counted after the size check, so a JSON body can have 5,000,001 bytes
  (`Packing.JsonOvershootIff` says exactly when; `Packing.JsonOvershootWitness`).
* `transmission/sender.go:22-30` speaks of one response for each event. A failed firing that also
  overflowed answers the left-over events too, which are answered again later
  (`Firing.DuplicateResponse`); and the cap on the drain can leave events without any
  response. `Firing.ExactlyOnceIff` and `Accounting.KeyExactlyOnceIff` say exactly when
  every event gets one response.
* The bucket key is not injective: `Buckets.SameTargetIff`, `Buckets.KeyTellsTargets`,
  `Buckets.KeyCollisions`.
* The comment at `transmission/transmission.go:332` expects that the cap on the drain is
  never met; 49 events of the largest size meet it (`Packing.LargestDrainIff`).
* A throttling reply that asks for a wait on the second attempt has been closed before it
  is read, so its status is reported only when a closed body can still be read, as an
  empty one can (`Firing.StatusReportedIff`, with all cases in `Firing.StatusCases`).
* `transmission/sender.go:18-19` says that Flush waits for everything in flight. When Flushes
  overlap, one can return while events accepted before it began are still queued
  (`FlushGuarantees.OverlapLeavesEvents`): exactly those that a Flush which swapped
  earlier still holds (`FlushCoverage.FlushCoversIff`, `FlushCoverage.EarlierReturnedSuffices`).
* With BlockOnResponse and no reader, Add, Flush and Stop can wait for ever, as
  `libhoney.go:111-115` warns; otherwise they return
  (`FlushGuarantees.StuckIff`, `FlushGuarantees.StuckOnlyWhenClogged`, `FlushGuarantees.AllWaysReturn`).
* The comment at `transmission/transmission.go:197-200` says that Add waits for a Flush
  to complete. It waits only while the lock is held, around the swap
  (`FlushGuarantees.AddDuringFlush`).
* `libhoney.go:845-846` says that an event is immutable once sent. One that sampling
  dropped is not (`FieldModel.ClosedAfterSendIff`).
* Different field maps can make the same event text, because what MarshalJSON returns is
  escaped afterwards (`EventPrinter.SameTextIff`, `EventPrinter.SpelledAlike`).
* Keys of fields are printed as they are, without escapes: `FieldPrinter.ReadsBackIff`
  says exactly when the print reads back, `FieldPrinter.InjectedKey` shows one that
  reads as something else.

## Model

| member | source | states |
|---|---|---|
| Packing.CutIff | transmission/transmission.go:590-631 | A request stops at the first sendable event that does not fit, and there is only one such place: for every pattern of rejected events before it. |
| Packing.CutInBytes | transmission/transmission.go:616-621 | In bytes: a sendable event goes in when it fits within 5,000,000 bytes next to what is there, and the request stops when it does not: two bytes of brackets with the commas so far for JSON, five of header for msgpack. |
| Packing.CutIsSendable | transmission/transmission.go:593-621 | An event that cannot be sent is never where a request stops. |
| Packing.FiltersPartition | transmission/transmission.go:590-614 | Screening only sorts events apart: accepted and rejected ones together are the events that came in. |
| Packing.FiltersSound | transmission/transmission.go:593-614 | What is accepted has an encoding of at most 1,000,000 bytes, what is rejected has none or a larger one. |
| Packing.OverflowTakesFour | transmission/transmission.go:616-621 | A request that leaves events over has at least four in it, in either format, so what it leaves is at least four shorter than what it got. |
| Packing.Firings | transmission/transmission.go:325-356 | Without the cap a bucket of n events would be drained after at most n/4 firings, rounded up: the drain ends by itself. |
| Packing.DrainedIff | transmission/transmission.go:329-337 | A capped drain leaves nothing exactly when the bucket needs no more firings than the cap allows. |
| Packing.FortyEightDrain | transmission/transmission.go:329-337 | A bucket of at most 48 events is always drained, whatever the sizes. |
| Packing.LargestDrainIff | transmission/transmission.go:329-337 | With events of the largest size the bucket is drained if and only if it holds at most 48 of them. |
| Packing.PrefixSize | transmission/transmission.go:588-630 | The size of the body after any number of events, in both formats. |
| Packing.BodySize | transmission/transmission.go:616-633 | A msgpack body never exceeds the batch limit; a JSON body exceeds it by one byte at most, and not at all with a single event. |
| Packing.JsonOvershootIff | transmission/transmission.go:616-632 | The JSON body exceeds the limit exactly when its last event was not the first and filled it to the byte before its comma was added. |
| Packing.JsonOvershootWitness | transmission/transmission.go:616-632 | Five events of 999,999 bytes make a body of 5,000,001 bytes with nothing left over. |
| Packing.JsonBodyReads | transmission/transmission.go:581-634 | For every pattern of rejected and left-over events the JSON body parses as the array of exactly the accepted events' values, in order. |
| Packing.MsgpackBodyReads | transmission/transmission.go:636-691 | The msgpack body has the number of accepted events as header, and reads back as exactly their encodings, in order. |
| Packing.ArrivalOrder | transmission/transmission.go:341-354 | Over all rounds a bucket is taken in arrival order: up to one point every event is sent or refused, each once and in order, and the rest is left over. |
| Packing.NextRound | transmission/transmission.go:348-354 | Each further firing takes what the one before left over. |
| Json.ParseIffPrinted | transmission/transmission.go:590-633 | A text is a JSON text exactly when it is the print of a well-formed value, and that value is what the parser returns. |
| Json.ArrayOfParts | transmission/transmission.go:587-632 | JSON texts between brackets with single commas are an array of exactly those values (RFC 8259, section 5). |
| Json.SampleArray | transmission/transmission.go:590-633 | A JSON text with a literal and a negative number, byte by byte, and its value. |
| Json.SampleObject | transmission/transmission.go:590-633 | One with an object, a null and a string. |
| Msgpack.ReadHeader | transmission/transmission.go:683-684 | An array header below 2^32 elements reads back, whatever follows it. |
| Msgpack.HeaderForms | transmission/transmission.go:683-684 | The bytes of the three header forms at their borders, 15, 16, 65,535 and 65,536 elements. |
| Msgpack.ShortestHeader | transmission/transmission.go:683-684 | No other header that reads as the same number is shorter. |
| Msgpack.ReadPackedArray | transmission/transmission.go:679-690 | Header and concatenated values read back as those values in order. |
| Buckets.PutAllSorts | transmission/transmission.go:293-296 | Filling buckets sorts the events by key and keeps their order. |
| Buckets.PutAllOfKey | transmission/transmission.go:307-315 | Putting back events of one key touches only the bucket of that key. |
| Buckets.KeyTellsTargets | transmission/transmission.go:293-296 | When the same two of host, key and dataset are free of underscores, events share a bucket if and only if they share their target. |
| Buckets.SameTargetIff | transmission/transmission.go:295 | In general events of one bucket share their target exactly when their hosts and their keys have the same lengths. |
| Buckets.KeyCollisions | transmission/transmission.go:295 | One coordinate free of underscores is not enough, whichever it is. |
| Firing.StatusReportedIff | transmission/transmission.go:424-539 | When the last attempt is a reply with a status other than 200 and 202, all responses carry that status and the body if and only if the body can be read (what a close leaves after 429 or 503 with a wait below a minute, else the body itself), and otherwise all say that it cannot. |
| Firing.OutcomeByStatus | transmission/transmission.go:422-557 | By status: one request, or two exactly when the first attempt times out or is a 429 or 503 asking for a wait below a minute; the answers count exactly when the last reply is a 200 or 202 with a readable list, without one all responses say so; no reply at all puts its error into every response; any other status is reported. |
| Firing.NothingRequestedIff | transmission/transmission.go:384-420 | A firing asks the server for something exactly when it has an event to send and its URL can be built; without events nothing is offered but the refusals, with a bad URL every event gets that error. |
| Firing.RequestCarries | transmission/transmission.go:375-437 | In either format, the body of a request reads back as exactly the encodings of the accepted events, under the host, key and dataset of the first. |
| Firing.StatusCases | transmission/transmission.go:452-516 | All four cases: a second throttling reply loses its status, keeps it with an empty body, keeps it when it asks for no wait; a first reply with an unreadable body loses it. |
| Firing.ReplyAlignment | transmission/transmission.go:559-577 | The j-th reply is offered behind the refusals with the metadata of the j-th event in the body, the status that the server gave it, and the server's error exactly when it named one, whatever was rejected or left over. |
| Firing.ReplyAlignmentThroughBody | transmission/transmission.go:559-577 | Read through the body: the j-th value of the JSON array is the encoding of the event whose metadata the j-th reply hands back. |
| Firing.ReplyAlignmentThroughMsgpack | transmission/transmission.go:559-577 | The same through a msgpack body, which reads back as one value for each accepted event. |
| Firing.RefusalsSayWhy | transmission/transmission.go:593-614 | A refused event is answered with its own metadata, and with the size error exactly when it has an encoding and that is larger than 1,000,000 bytes, else with the encoding error. |
| Firing.StrayRepliesIff | transmission/transmission.go:566-575 | The replies hand back the metadata of the request's events as far as they go, then that of left-over events; none of the latter exactly when there are no more replies than events in the request, or nothing was left over. |
| Firing.FiringBalance | transmission/transmission.go:480-577 | A firing offers one response for each event it deals with, and when it fails one more for each event it leaves over. |
| Firing.BucketBalance | transmission/transmission.go:317-577 | Over all its firings a bucket offers one response per event taken, and for each failed firing one more per event that firing left over. |
| Firing.ResponsesPerEvent | transmission/transmission.go:317-577 | For any metadata, summed over the events that carry it: one response for an event that the bucket takes, and one more for every failed firing that left it over. |
| Firing.ExactlyOnceIff | transmission/transmission.go:317-577 | A bucket's events get exactly one response each if and only if every firing but the last was answered, and the last one failed or the bucket needs no more firings than allowed. |
| Firing.DuplicateResponse | transmission/transmission.go:480-557 | Five events of 1,000,000 bytes, a first firing that fails and a second that is answered: the fifth event gets two responses, the others one. |
| Firing.OwnTarget | transmission/transmission.go:388-398 | When the same two coordinates are free of underscores in a bucket, every event travels in a request with its own host, key and dataset. |
| History.ExtendHistory | transmission/transmission.go:363-577 | One more firing adds its responses at the end, its requests to the server's log, and itself to its own key's firings and no other's. |
| History.PassStep | transmission/transmission.go:348-354 | Firing one key advances that key's rounds by one and leaves all other keys where they are. |
| History.LastPass | transmission/transmission.go:330-356 | When the drain ends, with nothing left or at the cap, every key has been fired in its rounds and keeps exactly its residue. |
| BatchAggregator.BatchAgg.Add | transmission/transmission.go:286-297 | The event is appended to the bucket of its key; the buckets hold exactly the added events, by key and in order. |
| BatchAggregator.BatchAgg.ReenqueueEvents | transmission/transmission.go:307-315 | The overflow buckets receive the events one by one under their keys. |
| BatchAggregator.BatchAgg.Refuse | transmission/transmission.go:593-614 | A refused event gets one error response, and its slot is emptied in place. |
| BatchAggregator.BatchAgg.EncodeBatchJSON | transmission/transmission.go:581-634 | The loop yields the body of exactly the accepted events before the cut, counts them, refuses the rejected ones in order, empties their slots, and re-enqueues everything from the cut on. |
| BatchAggregator.BatchAgg.EncodeBatchMsgp | transmission/transmission.go:636-691 | The same for msgpack. |
| BatchAggregator.BatchAgg.PatchHeader | transmission/transmission.go:683-688 | Chopping and patching the header in place yields header and values, and overwrites no event byte. |
| BatchAggregator.CopyOver | transmission/transmission.go:688 | The copy changes exactly the bytes it covers. |
| BatchAggregator.BatchAgg.EnqueueErrResponses | transmission/transmission.go:693-703 | One error response for every event still in its slot, in order, left-over events included. |
| BatchAggregator.BatchAgg.MatchResponses | transmission/transmission.go:563-576 | Replies and occupied slots are matched one to one in order, as far as both go. |
| BatchAggregator.BatchAgg.Send | transmission/transmission.go:422-557 | The retry loop makes exactly the requests, and has exactly the outcome, of the exchange. |
| BatchAggregator.BatchAgg.Post | transmission/transmission.go:388-420 | The request carries the coordinates of the first event still in its slot; a bad URL fails without a request. |
| BatchAggregator.BatchAgg.Deliver | transmission/transmission.go:384-577 | With nothing encoded nothing is sent or offered; otherwise the outcome decides the responses. |
| BatchAggregator.BatchAgg.FireBatch | transmission/transmission.go:363-577 | One firing is added to the history, with its outcome, responses and requests, and its tail goes back to the bucket of its key only. |
| BatchAggregator.BatchAgg.DrainOverflow | transmission/transmission.go:329-356 | Pass after pass over the keys found at its start, until nothing is left or the cap is reached. |
| BatchAggregator.BatchAgg.Fire | transmission/transmission.go:317-357 | A whole fire runs every key through its rounds, at most twelve, leaves exactly the residues, and accounts for every response and request. |
| Accounting.FireKeepsOrder | transmission/transmission.go:317-357 | After a fire each key's events were sent or refused in arrival order, each once, up to what the overflow keeps; and the overflow is empty exactly when the cap sufficed. |
| Accounting.KeyExactlyOnceIff | transmission/transmission.go:317-577 | With a server that answers in full, a key's events get one response each if and only if all its firings but the last were answered and the last one failed or the key needs no more firings than the cap allows. |
| Accounting.KeyResponsesPerEvent | transmission/transmission.go:317-577 | After a fire, for any metadata, summed over the key's events that carry it: one response if the bucket took the event, and one more for every failed firing that left it over. |
| Accounting.FiringsOfOneKey | transmission/transmission.go:317-357 | Every firing of a fire is of added events of one key. |
| Accounting.RequestsReadBack | transmission/transmission.go:363-473 | Over a whole fire, in either format: every request ever made carries exactly the accepted events of one of its firings. |
| Accounting.FiringWasRequested | transmission/transmission.go:384-447 | And every firing with something to send and a good URL is carried by some request. |
| Accounting.FireKeepsTargets | transmission/transmission.go:388-398 | With the same two coordinates free of underscores throughout, in a whole fire every event travels with its own host, key and dataset. |
| Accounting.FullAnswersSuffice | transmission/transmission.go:559-577 | Replies as long as the request are enough for the balance of every key. |
| Accounting.FireAnswersEachOnce | transmission/transmission.go:317-577 | When all keys meet that condition, the metadata handed back by a fire is the metadata that was added. |
| Accounting.FireOffersAtMost | transmission/transmission.go:317-577 | Whatever the server does, a fire offers at most twelve responses for each event. |
| Accounting.SmallFireAnswersEachOnce | transmission/transmission.go:317-577 | In particular with at most 48 events of each key and no failed firing that overflowed; nothing is left over then. |
| FlushProtocol.StepKeeps | transmission/transmission.go:173-239 | Every step of every caller and worker keeps the invariant: lock, ownership and stage of generations, conservation of events, marks of Flushes; offers wait for room in the response channel as configured. |
| FlushProtocol.RunKeeps | transmission/transmission.go:173-239 | The invariant holds in every interleaving of any number of Adds and Flushes, and one Stop after them. |
| FlushGuarantees.NoClosedChannelUsed | transmission/transmission.go:180-239 | In every run no event is sent on a closed Work channel, none is closed twice, and nothing is offered on the response channel after Stop has closed it. |
| FlushGuarantees.OneGenerationEach | transmission/transmission.go:218-239 | In every run an accepted event is in exactly one generation, once; any other is in none. |
| FlushGuarantees.AddsEndOneWay | transmission/transmission.go:201-216 | Every Add is accepted, or offers exactly one overflow response, never both. |
| FlushQueues.RejectedIff | transmission/transmission.go:218-239 | In every run an Add under the lock can be turned away if and only if sends do not block and the Work channel is full, and can go through exactly when there is room, or nothing queued and so a worker that may take it at once. |
| FlushQueues.BlockingNeverOverflows | transmission/transmission.go:228-230 | When sends block, no Add is ever turned away and no overflow is reported, in any run. |
| FlushQueues.SecondAddOverflows | transmission/transmission.go:231-238 | With one slot and sends that do not block, a run in which the second Add overflows. |
| FlushQueues.DroppedIff | transmission/response.go:84-95 | In every run the overflow response can be dropped exactly when responses do not block and the response channel is full, is buffered just when it has room, and handed on just when a reader is there with nothing waiting before it. |
| FlushQueues.QueuesAreBounded | transmission/transmission.go:163-171 | In every run no Work channel holds more than the capacity, and the response channel never more than twice the capacity. |
| FlushQueues.WaitingIff | transmission/transmission.go:132 | Some run has k responses waiting if and only if k is at most twice the capacity. |
| FlushQueues.NothingOvertakes | transmission/transmission.go:218-239 | In every run what is forming and queued in a generation is the end of what it has accepted, in that order. |
| FlushBatches.BatchesAreStretches | transmission/transmission.go:180-239 | In every run each batch, in flight or fired, is a non-empty stretch of consecutive events of its generation, in the order in which they were accepted. |
| FlushBatches.ResponsesAddUp | transmission/response.go:84-95 | In every run the responses that fires were to offer are those they have offered and those they still owe, and none is owed when all is drained; what entered the response channel is what was read and what waits in it. |
| FlushBatches.FailedFlushIsHarmless | transmission/transmission.go:185-189 | In every run a Flush whose new client does not start is over at once; nothing else changes, and exactly the same steps can follow as before. |
| FlushGuarantees.FlushFiresRetired | transmission/transmission.go:180-195 | When a Flush returns, the generation it retired is closed and has fired exactly what it accepted, each event once. |
| FlushCoverage.FiredIffNotPending | transmission/transmission.go:180-195 | In every run an accepted event has been fired once or is queued, forming or in flight in its generation, never both. |
| FlushCoverage.FlushCoversIff | transmission/transmission.go:180-195 | When a Flush has returned, an event accepted before it began has been fired once if and only if no Flush that has swapped and not returned holds it unfired. |
| FlushCoverage.EarlierReturnedSuffices | transmission/transmission.go:180-195 | So everything accepted before is fired when all Flushes that swapped earlier have returned. |
| FlushGuarantees.SoloFlushFiresAll | transmission/transmission.go:180-195 | In particular when no other Flush overlapped. |
| FlushGuarantees.OverlapLeavesEvents | transmission/transmission.go:180-195 | With an overlapping Flush it can fail: a run in which a Flush returns while an event accepted before it began is still queued. |
| FlushGuarantees.StopFiresAll | transmission/transmission.go:173-178 | After Stop everything ever accepted has been fired exactly once. |
| FlushGuarantees.AddDuringFlush | transmission/transmission.go:180-239 | A run in which an Add goes through while an earlier Flush has released the lock and not returned. |
| FlushGuarantees.StepProgress | transmission/transmission.go:173-239 | Every step that does not come from outside uses up work: a termination measure over calls, events and responses. |
| FlushGuarantees.RunsEnd | transmission/transmission.go:173-239 | A run with no further steps from outside is no longer than the work that was left. |
| FlushGuarantees.StuckOnlyWhenClogged | transmission/response.go:84-95 | In every run calls get stuck only when responses may not be dropped, nobody reads and the response channel is full. |
| FlushGuarantees.StuckIff | libhoney.go:111-115 | For every capacity: some run gets stuck if and only if responses may not be dropped. |
| FlushGuarantees.NoDeadlock | transmission/transmission.go:173-239 | While responses may be dropped or a reader takes them, something can happen by itself as long as a call is under way. |
| FlushGuarantees.AllWaysReturn | transmission/transmission.go:173-239 | Then whatever happens by itself comes to an end, and at that end every Add, Flush and Stop has returned. |
| FlushGuarantees.CallsReturn | transmission/transmission.go:173-239 | And such an end can be reached. |
| ResponseQueue.Queue.Write | transmission/response.go:84-95 | A response is dropped if and only if the queue does not block and is full; otherwise it is taken up behind all earlier ones. |
| ResponseQueue.Queue.Read | transmission/response.go:84-95 | Readers get the oldest response, and a waiting writer moves up. |
| ResponseQueue.Queue.Play | transmission/response.go:84-95 | In any run what was offered is what was delivered, queued and dropped; nothing is dropped within the capacity. |
| ResponseQueue.Queue.Drain | transmission/transmission.go:173-178 | After the close a reader still gets every kept response. |
| ResponseQueue.KeptInOrder | transmission/response.go:84-95 | The kept responses are a subsequence of the offered ones, and kept plus dropped is offered. |
| ResponseQueue.DeliveredInOrder | transmission/response.go:84-95 | What readers have got is a subsequence of the offers in their order; without drops it is a prefix of them. |
| FieldPrinter.MarshalJSON | transmission/event.go:92-121 | The output is the print of the marshallable fields under the one ascending order of the keys, whatever order the map hands them out in. |
| FieldPrinter.PrintSorted | transmission/event.go:100-119 | The loop with its `first` flag prints the entries joined by single commas. |
| FieldPrinter.OneOrder | transmission/event.go:99 | A set of keys has only one ascending order. |
| FieldPrinter.LessIff | transmission/event.go:99 | The order is that of bytes: the shorter of two where one begins the other, else the one with the smaller byte at the first difference. |
| FieldPrinter.SortSorts | transmission/event.go:93-99 | Sorting keys without repeats yields that order. |
| FieldPrinter.EntriesAreFields | transmission/event.go:102-104 | The printed entries are exactly the fields whose value the encoder has a text for and that are not a nil pointer, slice or map, each once and with that text. |
| FieldPrinter.ReadsBackIff | transmission/event.go:100-120 | The print reads back as exactly its entries if and only if no printed key has a quote, a backslash or a control byte. |
| FieldPrinter.FieldsReadBack | transmission/event.go:92-143 | For such keys, printing a map of fields and reading it back gives exactly those fields, each with the value that its text stands for, and no other name. |
| FieldPrinter.InjectedKey | transmission/event.go:111-115 | One field whose key holds quotes prints like two fields. |
| JsonStrings.NeverQuotedPrefix | transmission/event.go:111-113 | No string body starts with the text it stands for followed by a quote (RFC 8259, section 7). |
| JsonStrings.DecodeShortens | transmission/event.go:111-113 | Decoding never lengthens, and keeps the length only of text that needs no escape. |
| JsonStrings.ShortEscapesRead | transmission/event.go:111-113 | Each short escape and the byte it stands for (RFC 8259, section 7). |
| JsonStrings.CodePointsRead | transmission/event.go:111-113 | Escaped code points of one, two and three bytes in UTF-8, and half a pair, which reads as the replacement character. |
| JsonStrings.PairReads | transmission/event.go:111-113 | A surrogate pair reads as one code point of four bytes. |
| JsonEscape.EscapedReads | transmission/event.go:50-54 | A JSON text with less-than, greater-than, ampersand and line separators escaped reads as a value of the same meaning: equal once names and strings are decoded. |
| JsonEscape.EscapeForms | transmission/event.go:50-54 | The five escapes byte by byte. |
| JsonEscape.OthersStay | transmission/event.go:50-54 | A text with none of the five is left as it is. |
| JsonEscape.DecodeEscaped | transmission/event.go:50-54 | Escaping changes nothing of what a string body stands for. |
| JsonEscape.EscapeTwice | transmission/transmission.go:591 | Escaping an escaped text changes nothing. |
| EventPrinter.EventReadsBack | transmission/event.go:38-55 | The text of an event reads back as its fields, with names and strings decoded, its rate with zero read as one, and its time. |
| EventPrinter.EventInBytes | transmission/event.go:38-55 | The text byte by byte: data first, the rate only above one, the time only when it is set. |
| EventPrinter.SameTextIff | transmission/event.go:38-55 | Two events print alike exactly when the prints of their fields agree once escaped, their times agree, and their rates agree or both are left out. |
| EventPrinter.SpelledAlike | transmission/event.go:50-54 | A field under a less-than sign and one under the six bytes that escape it print differently and make the same event text. |
| EventPrinter.EventIsEscaped | transmission/transmission.go:591 | Encoding the event's text once more on the way into a batch leaves it as it is. |
| FieldModel.AddAllLookup | libhoney.go:746-756 | After additions one by one the last value of each key wins, over what was there. |
| FieldModel.AdditionLookup | libhoney.go:632-756 | After any addition, by field, map, struct or function, each key holds the last value added for it or else what it held; nothing changes when the event has been sent, and what cannot be added fails. |
| FieldModel.OneByOne | libhoney.go:638-657 | Adding the entries of a map one by one, in whatever order, is merging the map. |
| FieldModel.AddAllMerges | libhoney.go:746-756 | Adding items in turn is merging the map that they make on their own. |
| FieldModel.BuildersFollowPaths | libhoney.go:957-966 | In every run a builder holds, per key, the last static value on its path, a clone's path starting with its origin's at that time, and its functions in order. |
| FieldModel.EventStartsFromPath | libhoney.go:994-1022 | In every run an event starts with the static fields on its builder's path, overlaid by the dynamic ones: per key the last one wins. |
| FieldModel.NewcomersInherit | libhoney.go:994-1048 | A new event has its builder's host, key, dataset and rate, no metadata and no mark; a clone has all that its origin has. |
| FieldModel.BuildersStayApart | libhoney.go:1026-1048 | What is done to other builders, clones and origins included, does not show. |
| FieldModel.DestinationsFollow | libhoney.go:994-1048 | In every run an event or builder has the destination last given to it, an event starting with its builder's at that time without metadata and a clone with its origin's. |
| FieldModel.CallersKeepTheirMaps | libhoney.go:642-657 | In every run a map that a caller made holds, per key, what the caller last wrote into it: no operation writes to it. |
| FieldModel.SentStays | libhoney.go:779-934 | In every run a sent event keeps its fields, and nothing handed over changes. |
| FieldModel.SentTwice | libhoney.go:875-934 | A sent event can be handed over again later, and then with the same fields. |
| FieldModel.ClosedAfterSendIff | libhoney.go:838-859 | After a Send without error the event is closed to all later operations, in every run, if and only if sampling did not drop it or it had been sent before. |
| FieldModel.SampledOutStaysOpen | libhoney.go:847-859 | An event dropped by sampling is not marked as sent: the next addition changes it. |
| FieldModel.SendsAccountedFor | libhoney.go:847-934 | In every run each send without error hands its event over or offers a response for it, not both; a send with an error does neither. |
| FieldModel.SendChecks | libhoney.go:875-934 | Exactly when a presampled send fails, and with which error: no fields, no host, no key (both only asked for by the Honeycomb and mock senders), no dataset, in that order; else the event is marked and handed over, and nothing else changes. |
| FieldModel.SamplingDropsIff | libhoney.go:847-859 | A Send is dropped with one response exactly when the rate is above one and the draw is not zero; otherwise it is the presampled send. |
| Fields.Copy | libhoney.go:653-655 | Copying map entries in any order is a right-biased merge, even of a map into itself. |
| Fields.FieldHolder.AddFields | libhoney.go:642-657 | In all three branches the result is the right-biased merge, the caller's map is unchanged and never kept, and the map is replaced exactly when there was none or the added one is larger. |
| Fields.FieldHolder.Add | libhoney.go:662-741 | What reflection finds is added in order; an unacceptable argument or key type is an error that adds nothing. |
| Fields.FieldHolder.AddFunc | libhoney.go:746-756 | All items are added in their order. |
| Fields.Event.AddField | libhoney.go:779-786 | Goes through to the fields unless the event has been sent. |
| Fields.Event.AddFields | libhoney.go:793-800 | Likewise for a map. |
| Fields.Event.Add | libhoney.go:808-815 | Likewise for a struct or map, with its error. |
| Fields.Event.AddFunc | libhoney.go:823-830 | Likewise for a function's items. |
| Fields.Event.SendPresampled | libhoney.go:875-934 | The checks in their order; an event that passes is marked as sent and its own map, not a copy, is handed over. |
| Fields.Event.Send | libhoney.go:847-859 | Sampling either drops the event, with a response and no mark, or sends it on. |
| Fields.Builder.NewEventSized | libhoney.go:994-1022 | A new event has a new map with the builder's fields and its functions' values on top, in order. |
| Fields.Builder.Clone | libhoney.go:1026-1048 | A clone has equal fields and functions in a map and a list of its own. |
| Fields.Library.Perform | libhoney.go:632-1048 | Every operation on the shared objects has exactly the result and effect that it would have if every event, builder and caller's map had fields of its own. |
| Fields.Library.PerformAll | libhoney.go:779-934 | So does any sequence of operations; and no map that was in the transmission's hands has changed. |
| Pipeline.CallsDivide | transmission/transmission.go:201-239 | When all Adds have returned, accepted and overflowed ones together are all of them, each once. |
| Pipeline.OverflowSaysSo | transmission/transmission.go:207-215 | Each overflowed Add is answered with that error and its own event's metadata. |
| Pipeline.FiredOrOverflowed | transmission/transmission.go:180-239 | When all generations are drained, what they fired and what overflowed is every Add, each once. |
| Pipeline.FireOnce | transmission/transmission.go:286-357 | A batch whose events are added to a new aggregator that is fired: history, responses and bound, and it is fired well when the server answers in full and every key meets the condition. |
| Pipeline.FiredInRange | transmission/transmission.go:218-239 | In every reachable state a fired batch holds only events of Add calls that there were. |
| Pipeline.SendsReachTheirTargets | libhoney.go:919-932 | In every run an event that a fired batch puts into a request is one that was sent, and when the same two of host, key and dataset are free of underscores in all sent events, the request is for the host, key and dataset that it was sent with. |
| Pipeline.EachSendAnsweredOnce | transmission/transmission.go:201-577 | When every handover became an Add, everything is drained and every batch was fired well, the responses offered (for events sampled out, for queue overflow, by batches) are exactly one for each send that returned no error, and none for one that did. |

## Left out

- HTTP, zstd compression, URLs, user agents, authentication and the pooled request readers: only the outcome of an attempt is modelled.
- Retry-After parsing, sleeping, durations, clocks, metrics and logging.
- The insides of muster, encoding/json, msgpack and reflection: see "What is assumed".
- Sampling randomness: the draw is a parameter.
- The other senders, the deprecated Output wrappers with their double Stop, key masking, configuration defaults.
- Events and builders made by hand without a client or a map, for which the source panics.
- Writing through the map that Fields() shows, which the source warns about; it can be passed to AddFields.
- BatchAggregator.BatchAgg.Fire: starts without earlier overflow, because the batching client fires an aggregator once.
- BatchAggregator.BatchAgg.FireBatch: works on an array of slots copied from the bucket, so that an emptied slot does not show in the bucket; the source reads no bucket twice.
- BatchAggregator.BatchAgg.MatchResponses: durations and the decoding of single replies are not modelled.
- Firing.StatusReportedIff: what a closed body still yields is part of the attempt, not worked out from its length.
- Json.ParseIffPrinted: the parser reads compact texts, as encoders print them; white space between tokens is not modelled.
- JsonStrings.DecodeShortens: strings are bytes; invalid UTF-8 is not replaced.
- FlushProtocol.RunKeeps: a second Stop, a restart, and Stop beside Add or Flush are outside the callers' contract. The response channel is a count of waiting responses; which ones they are is in ResponseQueue. A limit on batches in flight is muster's.
- EventPrinter.EventReadsBack: prints of fields that are valid JSON only with white space between tokens, as a key with quotes can bring about, are left to encoding/json, which removes it; invalid ones make it refuse the event.
- Fields.FieldHolder.Add: struct tags, omitted empty values and the spelling of keys as strings are reflection's part; the items come as a parameter.
- Fields.Builder.NewEventSized: the size hint only preallocates, a dynamic function is a function of the clock, and times are not carried along.
- Packing.MsgpackBodyReads: the contents of the MessagePack values are opaque, only where each ends is known.
