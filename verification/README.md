# CoAP client and server: a verified model

The repository is a CoAP (RFC 7252) stack for a microcontroller. Its client, written in
C++, edits messages in place in a byte buffer and keeps a queue of timers for
retransmission. Its server, written in C, keeps options and interactions in linked lists
and takes all memory from one small pool with the BGET allocator. These Dafny modules
model the parts that hold state and prove what they are for. Code that changes objects
step by step is a class or a method here, with the same loops and branches; each such
method is tied to a function or a datatype of values, and the theorems are about those.

| module | models |
|---|---|
| `Common`, `Links` | buffers as sequences; the singly linked lists that the other modules walk and relink |
| `BgetHeap`, `BgetTheorems` | the allocator's pool as a map of blocks and the order of its free list; what every run of it keeps |
| `BgetMemory`, `BgetWrites`, `Bget` | the same pool as tags and links in an array of memory cells, and `bpool`, `bget`, `bgetz`, `bgetr`, `brel`, `bstats`, `bpoolv` on it |
| `OptionCodec` | the option format of section 3.1 of RFC 7252: an encoder and a reader over sequences, inverse to each other |
| `CoapPdu` | class `Pdu`: the client's message in its byte array |
| `OptionList` | the server's sorted option list, packed and parsed |
| `SameBytes` | both at once: they write the same bytes |
| `DeltaQueue`, `Retransmission`, `CoapClient` | the client's timer queue, its retransmission as a transition system, and the client class that refines it |
| `TimerTheorems`, `ClockTheorems` | over whole runs of the client: when who is due, against the waits on record and against the clock, and what callers are told |
| `ServerMessage` | the server's message: built, measured, parsed |
| `Blockwise` | block-wise transfer, RFC 7959 |
| `Registry`, `Interactions` | observers and interactions as values and as the lists that hold them, RFC 7641 |
| `NotifyTheorems` | a round of notifications, said over the fields of observers and interactions alone |
| `CoapUri` | the client's `setURI` and `getURI` |

A parameter `granted` says whether memory is there when it is asked for, `budget` for how
many options there is, `now` what the clock shows. `sent` says whether `sendPDU` took a
retransmission; the `sendPDU` of the repository always does (coap/client/CoapRequest.cpp:90-119).
An `Answer` is what memory and a resource's notify handler say. All contracts hold for
every value of these.

## Model

| member | source | states |
|---|---|---|
| `Bget.Pool.constructor` | coap/server/lobaro-coap/coap_mem.c:1092-1155 | a pool is one free block, all of it but one header and the sentinel, and nothing is in use |
| `Bget.Pool.BestFit` | coap/server/lobaro-coap/coap_mem.c:711-729 | the scan over the links finds the first of the smallest free blocks that fit, or comes back to the list head |
| `Bget.Pool.Bget` | coap/server/lobaro-coap/coap_mem.c:676-796 | tags and links again represent a well-formed heap, the one that best fit with a split from the top of the block gives; no byte held by a caller changes; without a fitting block nothing changes |
| `Bget.Pool.Bgetz` | coap/server/lobaro-coap/coap_mem.c:863-886 | as `Bget`, and every byte of the buffer is 0 |
| `Bget.Pool.Bgetr` | coap/server/lobaro-coap/coap_mem.c:893-924 | the new buffer starts with the old one's bytes, as many as the smaller of the request and the old block less its header; the old one is released; on failure it stays as it was |
| `Bget.Pool.Brel` | coap/server/lobaro-coap/coap_mem.c:928-1071 | releasing merges with a free block below and one above, in place, and yields the well-formed heap in which only this buffer is gone; no byte another caller holds changes |
| `Bget.Pool.Bstats` | coap/server/lobaro-coap/coap_mem.c:1161-1180 | what is counted as in use is the sum of the buffers that callers hold; with the free bytes it is the pool; the largest free block is the largest |
| `Bget.Pool.Bpoolv` | coap/server/lobaro-coap/coap_mem.c:1315-1353 | the walk over all tags and links ends and finds nothing wrong, in every valid pool |
| `BgetMemory.ClientWriteKeepsRep` | coap/server/lobaro-coap/coap_mem.c:676-796 | a caller that writes within its buffer breaks no tag and no link |
| `BgetTheorems.NeedFits` | coap/server/lobaro-coap/coap_mem.c:689-700 | a multiple of 4 that holds header and request, with less than 4 bytes to spare from 8 bytes on, and 12 below |
| `BgetTheorems.ScanHonest` | coap/server/lobaro-coap/coap_mem.c:711-729 | a request is refused exactly if every free block is too small; else the first smallest block that fits is taken |
| `BgetTheorems.HonestUpToWrap` | coap/server/lobaro-coap/coap_mem.c:689-729 | in 16 bits the size is right exactly up to 32760; the scan is then what it should be, and above that exactly if nothing is free |
| `BgetTheorems.WrapEscapes` | coap/server/lobaro-coap/coap_mem.c:689-796 | above 32760, with anything free, the address handed out lies behind the block it is cut from |
| `BgetTheorems.GetServes` | coap/server/lobaro-coap/coap_mem.c:689-796 | a served buffer is new to the callers, apart from every other, at most 12 bytes larger than needed, and comes off the free bytes |
| `BgetTheorems.ReleaseFrees` | coap/server/lobaro-coap/coap_mem.c:928-1044 | a release keeps the heap well formed, takes exactly one buffer from the callers and adds exactly its bytes to the free ones |
| `BgetTheorems.Accounts` | coap/server/lobaro-coap/coap_mem.c:1161-1180 | the sum along the free list and the sum of all held blocks along the pool add up to the pool |
| `BgetTheorems.Canonical` | coap/server/lobaro-coap/coap_mem.c:928-1044 | two well-formed heaps whose callers hold the same buffers have the same blocks: coalescing leaves exactly the maximal gaps |
| `BgetTheorems.ReleaseUndoesGet` | coap/server/lobaro-coap/coap_mem.c:676-1044 | getting and releasing leaves the blocks as they were |
| `BgetTheorems.ReleaseOrderIrrelevant` | coap/server/lobaro-coap/coap_mem.c:928-1044 | the same buffers released in another order leave the same blocks and the same free list up to order |
| `BgetTheorems.RunSound` | coap/server/lobaro-coap/coap_mem.c:676-1155 | every state of every run of requests and releases is well formed, `totalloc` plus the free bytes is the pool, and `totalloc` is the sum of the buffers that callers hold |
| `BgetTheorems.AllReleasedIsFresh` | coap/server/lobaro-coap/coap_mem.c:928-1155 | whenever everything has been released the pool is one free block again and `totalloc` is 0 |
| `OptionCodec.DecodeEncode` | coap/server/lobaro-coap/coap_options.c:35-119 | every ascending option list, with or without payload, is read back from its bytes |
| `OptionCodec.OptionBytes` | coap/server/lobaro-coap/coap_options.c:35-119 | the bytes of one option in numbers: delta and length in four bits each, 13 with one byte and 14 with two bytes behind it, then the value |
| `OptionCodec.EncodeDecode` | coap/server/lobaro-coap/coap_options.c:171-247 | whatever can be read is the encoding of what it reads as: each list has one form only |
| `OptionCodec.EncodeInsert` | coap/client/Coap.cpp:980-1114 | the bytes of a list with one option inserted: those in front, the new option, the next one with its smaller delta, the rest as it was |
| `OptionCodec.InsertAscending` | coap/server/lobaro-coap/coap_options.c:327-382 | insertion behind the last option with no greater number keeps the list ascending |
| `CoapPdu.Pdu.ShiftPDUUp` | coap/client/Coap.cpp:1322-1331 | the overlapping block arrives whole at the end of the message and nothing outside changes |
| `CoapPdu.Pdu.ShiftPDUDown` | coap/client/Coap.cpp:1341-1349 | the same towards the front |
| `CoapPdu.Pdu.SetOptionDelta` | coap/client/Coap.cpp:1472-1492 | the delta nibble and its extension bytes are those of the format, and no other byte changes |
| `CoapPdu.Pdu.InsertOption` | coap/client/Coap.cpp:1503-1552 | at its place stands the encoding of the option, with the value that `ValueSurvives` describes, and no other byte changes |
| `CoapPdu.Pdu.FindInsertionPosition` | coap/client/Coap.cpp:1416-1451 | position and predecessor of the stable insertion, or the end of the message if the recorded maximum says so |
| `CoapPdu.GapFits` | coap/client/Coap.cpp:1030-1077 | splitting a delta never needs less room than the new option, so the gap is never negative |
| `CoapPdu.Pdu.AddOption` | coap/client/Coap.cpp:980-1114 | in place, the message becomes the encoding of the stable sorted insertion; header and token are kept; without room nothing but the recorded maximum changes |
| `CoapPdu.LandedRight` | coap/client/Coap.cpp:980-1114 | the option has its own number exactly if the walk was needed or the recorded maximum is the last number |
| `CoapPdu.RecordKept` | coap/client/Coap.cpp:1004-1016 | a right record stays right through every addition that finds room |
| `CoapPdu.Add` | coap/client/Coap.cpp:980-1114 | with a right record and a value below 269 bytes an addition is stable sorted insertion, or leaves the options alone |
| `CoapPdu.ValueSurvives` | coap/client/Coap.cpp:1537-1551 | the value is stored whole exactly below 269 bytes, or if the buffer happened to hold its last 269 bytes already |
| `CoapPdu.ReadSame` | coap/client/Coap.cpp:1356-1406 | the client reads an option as the format does exactly if no field wraps 16 bits |
| `CoapPdu.Pdu.Validate` | coap/client/Coap.cpp:207-367 | accepts exactly the messages with version 1, a token of at most 8 bytes that is there, a code of those listed by class and detail, and options that lie end to end up to the end or a payload that is not empty; records their count and the payload |
| `CoapPdu.CodeOkIs` | coap/client/Coap.cpp:248-258 | the ranges of code bytes that are refused leave exactly class 0; 2.01 to 2.05; 4.00 to 4.06, 4.12, 4.13 and 4.15; 5.00 to 5.05 |
| `CoapPdu.OnlyThere` | coap/client/Coap.cpp:265-364 | the walk cannot be well formed for a second count |
| `CoapPdu.AcceptedIsDecoded` | coap/client/Coap.cpp:265-364 | where no field wraps, what is accepted is exactly what the format can read, and the count is its number of options |
| `CoapPdu.WrappedDiffers` | coap/client/Coap.cpp:1356-1406 | bytes that are one option for the format and two for the client |
| `CoapPdu.Pdu.GetOptions` | coap/client/Coap.cpp:924-967 | as many options as were counted, each where the walk that `Validate` checks puts it |
| `CoapPdu.RecordIs` | coap/client/Coap.cpp:924-967 | of a message laid out for an option list, each record has the number and shows the bytes of the option it stands for |
| `CoapPdu.Pdu.SetToken` | coap/client/Coap.cpp:730-813 | the token is replaced, longer or shorter, and options, code, type and message id stay; afterwards the options stand where the header says exactly if the length is at most 8 or the old one; a longer one without room changes nothing |
| `CoapPdu.OldLengthWraps` | coap/client/Coap.cpp:750-779 | a change of the token's length would shift up and read in front of the buffer exactly from 256 bytes on |
| `SameBytes.ClientArea` | coap/client/Coap.cpp:980-1114 | any sequence of additions leaves the encoding of the stably sorted options |
| `SameBytes.ServerArea` | coap/server/lobaro-coap/coap_options.c:35-166 | so does the list, in exactly as many bytes as were predicted |
| `SameBytes.EncodersAgree` | coap/server/lobaro-coap/coap_options.c:35-119 | for every sequence of insertions client and server write the same bytes, and they read as the sorted options |
| `Links.Remove` | coap/server/lobaro-coap/coap_options.c:250-281 | the node leaves, the others keep their order |
| `OptionList.AppendOptionToList` | coap/server/lobaro-coap/coap_options.c:327-382 | stable sorted insertion; what a failure leaves is stated too |
| `OptionList.FailKeeps` | coap/server/lobaro-coap/coap_options.c:346-348 | a refused insertion keeps the list exactly if it was empty or the option was not to come first; else nothing is left of it |
| `OptionList.Pack` | coap/server/lobaro-coap/coap_options.c:35-119 | writes exactly the encoding of the list and nothing else |
| `OptionList.NeededMem` | coap/server/lobaro-coap/coap_options.c:121-166 | the length of that encoding |
| `OptionList.ParseOptions` | coap/server/lobaro-coap/coap_options.c:171-247 | list, result and payload place are those of the reference walk `Parse`, whatever memory there is |
| `OptionList.ParseIsDecode` | coap/server/lobaro-coap/coap_options.c:171-247 | parsing accepts exactly what the format can read, without an overlong value and not starting with a marker, and sorts it: a refusal is always right, an acceptance exactly if no length on the way wraps |
| `OptionList.WrappedLength` | coap/server/lobaro-coap/coap_options.c:204-226 | three bytes with a length that wraps to 0, accepted though they cannot be read |
| `OptionList.ParseEncoded` | coap/server/lobaro-coap/coap_options.c:171-247 | what was packed is parsed again exactly if no value is too long and a payload follows an option |
| `DeltaQueue.AddNode` | coap/client/Queue.cpp:14-48 | stable insertion by absolute due time; every intermediate time fits 32 bits |
| `DeltaQueue.PopNext` | coap/client/Queue.cpp:111-124 | the head leaves and its due time is the new base of all others |
| `DeltaQueue.GetNodeById` | coap/client/Queue.cpp:50-72 | the first node with the id or null; it reads through null exactly if the queue is not empty and holds no such node |
| `DeltaQueue.RemoveNode` | coap/client/Queue.cpp:126-169 | the request leaves and no other due time changes |
| `Retransmission.StepKeeps` | coap/client/CoapClient.cpp:51-351 | every request, response and tick keeps the client's invariant |
| `Retransmission.InsertedRight` | coap/client/Queue.cpp:14-48 | a new timer stands behind all that are due no later and before all that are due later |
| `Retransmission.Doubled` | coap/client/CoapClient.cpp:313-314 | the n-th retransmission waits 2, 4, 8 or 16 times the first wait |
| `Retransmission.RunSound` | coap/client/CoapClient.cpp:51-351 | over every run: at most 5 sends of a request, the last within 44940 ms, waits of at most 92876 ms in all, at most one callback, exactly one end, no due time above 47936 ms, the timer armed for the head's time exactly while something is queued |
| `Retransmission.EndsHeard` | coap/client/CoapClient.cpp:296-336 | over every run: the caller of a request that is over has been told exactly once, if and only if no tick failed to send it again |
| `Retransmission.AlwaysHeard` | coap/client/CoapClient.cpp:51-336 | over every run in which, as in the repository, sending does not fail: exactly once for every request that is over |
| `Retransmission.TickDrains` | coap/client/CoapClient.cpp:296-336 | each tick takes at least one off the sends the queue still has in it |
| `Retransmission.Drains` | coap/client/CoapClient.cpp:51-351 | as many ticks as that sum empty the queue, whatever responses come between them |
| `TimerTheorems.StepDue` | coap/client/CoapClient.cpp:51-364 | one event: who has just been sent is due after exactly the wait on record, and everyone else waits on with the same time off: what has passed, but at most what the first of them had left; for a tick, what its first had left |
| `TimerTheorems.DueRight` | coap/client/CoapClient.cpp:51-364 | over every run: what is left of a queued request's time plus all that has come off since it was last sent is the wait of that send, its first wait doubled with each retransmission |
| `TimerTheorems.FiredRight` | coap/client/CoapClient.cpp:51-336 | over every run: success has been told exactly if a response came while the request was waiting, failure exactly if its wait ran out after its fifth send, or after its only one if it asks for no confirmation |
| `TimerTheorems.RunMakes` | coap/client/CoapClient.cpp:187-245 | over every run: what is queued was requested, with the same kind and the first wait that the random number gives |
| `ClockTheorems.NeverLate` | coap/client/CoapClient.cpp:284-364 | by the clock, over every run: no wait ends later than it should |
| `ClockTheorems.StepOnTime` | coap/client/CoapClient.cpp:284-364 | while all waits end when they should, the next event keeps it so exactly if it does not hurry: see Findings |
| `ClockTheorems.RunOnTime` | coap/client/CoapClient.cpp:284-364 | over every run: all waits have ended when they should so far exactly if no event has hurried |
| `ClockTheorems.TicksOnTime` | coap/client/CoapClient.cpp:296-364 | until an event hurries, each retransmission and each giving up comes exactly one wait after the last send |
| `ClockTheorems.Hurried` | coap/client/CoapClient.cpp:296-364 | a run of three events after which a wait of 4000 ms ends after 2000 |
| `CoapClient.Client.TimerUpdate` | coap/client/CoapClient.cpp:338-362 | all due times go down by the time that has passed, or by the head's if that is less |
| `CoapClient.Client.DoRequest` | coap/client/CoapClient.cpp:187-245 | the request step of the transition system, but for the callback; nothing without memory. What the step does is said by `TimerTheorems.StepDue` |
| `CoapClient.Client.Request` | coap/client/CoapClient.cpp:161-245 | the whole request step; the base time moves |
| `CoapClient.Client.OnResponse` | coap/client/CoapClient.cpp:51-129 | the response step, when the base time moves, and when it reads through null |
| `CoapClient.Client.TimerTick` | coap/client/CoapClient.cpp:296-336 | the tick step; the queue is not empty whenever the timer is armed; the base time does not move |
| `ServerMessage.CountFits` | coap/server/lobaro-coap/coap_message.c:24-34 | the token's byte count is enough and no smaller one is |
| `ServerMessage.TokenRoundTrip` | coap/server/lobaro-coap/coap_message.c:206-212 | every 64-bit token is read back from its bytes |
| `ServerMessage.Message.GetRawSize` | coap/server/lobaro-coap/coap_message.c:266-283 | exactly the length of the datagram that is built, empty messages included |
| `ServerMessage.Message.BuildDatagram` | coap/server/lobaro-coap/coap_message.c:285-339 | writes exactly the datagram of section 3 of RFC 7252; an empty message loses token and payload |
| `ServerMessage.KnownDatagram` | coap/server/lobaro-coap/coap_message.c:285-339 | ten bytes: the message id with its upper byte first, the token with its lowest, the marker before the payload |
| `ServerMessage.ParseDatagram` | coap/server/lobaro-coap/coap_message.c:164-264 | message or error of the reference reading, for every buffer and every outcome of memory; what that reading is, `HeaderDecides`, `ReadIsMeaning` and `MemoryOnly` say |
| `ServerMessage.HeaderDecides` | coap/server/lobaro-coap/coap_message.c:174-204 | too short below 4 bytes; unknown version exactly if it is not 1; a format error for a token length above 8, and then for the code exactly if it is 32 to 63 or 192 and more; any other code is taken like a GET's |
| `ServerMessage.ReadIsMeaning` | coap/server/lobaro-coap/coap_message.c:164-264 | a datagram whose token is there is read as header, token and what the format can read of its options and payload, format and payload errors included, unless a length on the way wraps; then it says nothing |
| `ServerMessage.MemoryOnly` | coap/server/lobaro-coap/coap_message.c:215-252 | the outcome is that with memory for everything, or the error that memory is missing |
| `ServerMessage.ReadBuilt` | coap/server/lobaro-coap/coap_message.c:164-339 | what becomes of a built datagram, error cases included |
| `ServerMessage.RoundTrip` | coap/server/lobaro-coap/coap_message.c:164-339 | a message comes back as it was exactly if it travels: see Findings |
| `Blockwise.EncodeBlock` | coap/server/lobaro-coap/option-types/coap_option_blockwise.c:45-98 | the option's value, with the exponent found by search for the highest bit |
| `Blockwise.BlockRoundTrip` | coap/server/lobaro-coap/option-types/coap_option_blockwise.c:45-156 | number, more bit and size are read back, the number in its low 20 bits, so exactly below 2^20 |
| `Blockwise.BlockShortest` | coap/server/lobaro-coap/option-types/coap_option_blockwise.c:45-156 | no shorter value reads the same |
| `Blockwise.SizesDouble` | coap/server/lobaro-coap/option-types/coap_option_blockwise.c:101-150 | the sizes are 16 and its doubles, and the exponent is that of the size |
| `Blockwise.AddBlock` | coap/server/lobaro-coap/option-types/coap_option_blockwise.c:45-98 | inserts that option; refuses other numbers |
| `Blockwise.GetBlock` | coap/server/lobaro-coap/option-types/coap_option_blockwise.c:101-156 | reads the first option with the number, tells none from malformed |
| `Blockwise.RemoveAll` | coap/server/lobaro-coap/option-types/coap_option_blockwise.c:168-184 | the other options in their order, whether there was one to remove |
| `Blockwise.RequestRead` | coap/server/lobaro-coap/option-types/coap_option_blockwise.c:101-156 | the bytes of a request for block k, parsed by the server, ask for block k, whatever other options there are |
| `Blockwise.Reassembled` | coap/server/lobaro-coap/option-types/coap_option_blockwise.c:190-275 | requests for blocks 0, 1, 2, ... read from their bytes are answered with slices that together are the payload; the answer's Block2 bytes say more on all but the last; there are no further blocks |
| `Blockwise.WholeAnswer` | coap/server/lobaro-coap/option-types/coap_option_blockwise.c:243-254 | a request that reads as having no Block2 option gets up to 256 bytes whole, without a Block2 option |
| `Blockwise.FirstAnswer` | coap/server/lobaro-coap/option-types/coap_option_blockwise.c:190-275 | of more, its answer's Block2 option reads as block 0 of 256 bytes, with the more bit exactly if bytes are left, and this answer followed by those to the requests for blocks 1, 2, ... of that size is the payload |
| `Blockwise.AnsweredRight` | coap/server/lobaro-coap/option-types/coap_option_blockwise.c:217-219 | the answer's other options stay, and its first Block2 option is the part's, if the request asked or there was none |
| `Blockwise.MoreIsRight` | coap/server/lobaro-coap/option-types/coap_option_blockwise.c:203-219 | the more bit is right exactly if the request left it clear or there is more |
| `Blockwise.Point` | coap/server/lobaro-coap/option-types/coap_option_blockwise.c:220-241 | moved in place, copied or pointed at, the payload is the wanted slice |
| `Blockwise.SetPayload` | coap/server/lobaro-coap/option-types/coap_option_blockwise.c:190-275 | the answer's payload, code and options for every request, the error answer included; nothing else of the message changes |
| `Registry.StepKeeps` | coap/server/lobaro-coap/coap_interaction.c:98-589 | every event, responses renumbered and notifications renewed or given up (coap/server/lobaro-coap/coap_main.c:395-545) included, keeps observers, notifications and request handlings unique |
| `Registry.RunUnique` | coap/server/lobaro-coap/coap_interaction.c:98-589 | from an empty server on, over every run: no observer twice on a resource, one notification per resource, interface and endpoint, one handling per interface, endpoint and message id |
| `Registry.NotifyCovers` | coap/server/lobaro-coap/coap_interaction.c:363-440 | with memory, every observer whose handler has something to say has a notification of its resource, interface and endpoint under way afterwards, and none that was is dropped |
| `NotifyTheorems.NotifyRight` | coap/server/lobaro-coap/coap_interaction.c:363-440 | the whole round: entries start for exactly the observers that are reached, have something to say and to whose interface and endpoint no notification of the resource was under way or started before, one each, in their order, with client, token, observer and message id; exactly those of them whose handler answers with an error are let go; exactly the entries that an observer is the client of are marked; memory was missing exactly if the round says so |
| `NotifyTheorems.AddsRight` | coap/server/lobaro-coap/coap_interaction.c:398-437 | the entries that are added, from any place of the walk on |
| `NotifyTheorems.MarksRight` | coap/server/lobaro-coap/coap_interaction.c:376-396 | an entry that was there stays in its place, marked exactly if the walk comes to its client |
| `NotifyTheorems.LetsGoRight` | coap/server/lobaro-coap/coap_interaction.c:418-421 | who is let go, and that the others keep their order |
| `NotifyTheorems.StopsRight` | coap/server/lobaro-coap/coap_interaction.c:398-400 | the round stops before its end exactly if memory is missing for an observer it comes to |
| `Registry.UniqueRegister` | coap/server/lobaro-coap/coap_interaction.c:531-568 | after a registration exactly the new observer and the old ones with another key are registered |
| `Registry.UnobservedGone` | coap/server/lobaro-coap/coap_interaction.c:571-585 | who deregisters is no observer of the resource any more, all others are |
| `Registry.GivenUpGone` | coap/server/lobaro-coap/coap_interaction.c:497-500 | a notification that is reset or never acknowledged (coap/server/lobaro-coap/coap_main.c:538-545) takes its own observer with it, no other, and no other interaction |
| `Registry.RenewedRight` | coap/server/lobaro-coap/coap_interaction.c:497-516 | a notification that is sent again has a new message id and no mark (coap/server/lobaro-coap/coap_main.c:395-440); if it is refused its own observer leaves and no other |
| `Registry.ResetHits` | coap/server/lobaro-coap/coap_interaction.c:98-131 | a reset ends the first interaction of that interface and endpoint one of whose messages has the id, and no other |
| `Registry.AbortHits` | coap/server/lobaro-coap/coap_interaction.c:574-585 | the abort that follows a deregistration ends this resource's notification exactly if the first with this token, interface and endpoint is of this resource, or there is none to end |
| `Registry.AbortSpares` | coap/server/lobaro-coap/coap_interaction.c:574-585 | it ends no other resource's notification exactly if what it finds first is this resource's, or it finds nothing |
| `Registry.AbortRight` | coap/server/lobaro-coap/coap_interaction.c:574-585 | both: this resource's and no other's, under the same condition |
| `Registry.WrongAbort` | coap/server/lobaro-coap/coap_interaction.c:571-585 | a run of five events after which the other resource's notification is gone and this one's is not |
| `Registry.StepLinked` | coap/server/lobaro-coap/coap_interaction.c:363-589 | while the observer that each pending notification keeps is in its resource's list, an event keeps it so exactly if it is not one of three: see Findings |
| `Registry.RunLinked` | coap/server/lobaro-coap/coap_interaction.c:363-589 | over every run: it has been so all along exactly if none of these three has happened |
| `Registry.Orphaned` | coap/server/lobaro-coap/coap_interaction.c:523-568 | a run of three events that breaks it |
| `Interactions.ObserveRoundTrip` | coap/server/lobaro-coap/option-types/coap_option_observe.c:24-92 | the counter is read back in its low 24 bits, so exactly below 2^24 |
| `Interactions.GetObserve` | coap/server/lobaro-coap/option-types/coap_option_observe.c:65-92 | the value of the first Observe option, or why there is none |
| `Interactions.WishRight` | coap/server/lobaro-coap/option-types/coap_option_observe.c:65-92 | the first option numbered 6 decides, its highest byte first; more than three bytes are malformed |
| `Interactions.StartServerInteraction` | coap/server/lobaro-coap/coap_interaction.c:443-492 | answered with Existing exactly if a request of this interface, endpoint and message id is being handled; else it comes last, with these fields, unless it is no request or memory is out |
| `Registry.NewUnlessReceived` | coap/server/lobaro-coap/coap_interaction.c:443-492 | the same on values: new exactly if no handling of this interface, endpoint and message id is there |
| `Interactions.StartClientInteraction` | coap/server/lobaro-coap/coap_interaction.c:327-347 | comes last, with these fields, unless the message is no request or memory is out |
| `Interactions.Abort` | coap/server/lobaro-coap/coap_interaction.c:98-131 | the first entry that matches leaves, the others keep their order |
| `Interactions.MoveToEnd` | coap/server/lobaro-coap/coap_interaction.c:157-188 | the interaction is last, also if it was not in the list; the others keep their order |
| `Interactions.HandleObservation` | coap/server/lobaro-coap/coap_interaction.c:519-589 | both lists are those of the value-level registration or deregistration; every result code |
| `Interactions.StartNotifyInteractions` | coap/server/lobaro-coap/coap_interaction.c:363-440 | both lists are those of the notification round that `NotifyTheorems.NotifyRight` is about, although observers leave the list while it is walked; out of memory exactly if the round stops before its end |
| `CoapUri.SplitUri` | coap/client/Coap.cpp:439-519 | what `setURI` makes of a URI: each segment and query, but for a lone query of one character |
| `CoapUri.KnownUri` | coap/client/Coap.cpp:439-519 | /a/b?x&y, for any plain a, b, x and y, is options 11 a, 11 b, 15 x and 15 y |
| `CoapUri.UriRoundTrip` | coap/client/Coap.cpp:439-652 | for a URI of plain segments, each behind a slash, and plain queries: rendering after splitting is the URI, whatever other options there are, exactly if it has no lone query of one character |
| `CoapUri.SetURI` | coap/client/Coap.cpp:439-519 | one stable insertion for each piece, up to the first that finds no room |
| `CoapUri.GetURI` | coap/client/Coap.cpp:545-652 | the rendering of the message's options and its length if there is room, else an error; what it leaves when it meets a single slash |
| `CoapUri.CutLength` | coap/client/Coap.cpp:616-622 | the length 1 reported with a single slash is the string's exactly if no path or query option comes before it |
| `CoapUri.ThereAndBack` | coap/client/Coap.cpp:439-652 | for a URI of plain segments, each behind a slash, and plain queries: `setURI` then `getURI` into length + 2 bytes succeeds and returns the same string and length, exactly if it has no lone query of one character |

## Findings

Promises that the code does not keep, each with the exact condition under which it does.

| promise | holds exactly if | member |
|---|---|---|
| `bget` returns NULL if nothing fits | the request is at most 32760 bytes, or nothing is free. Above, the rounded size wraps to a negative number, which every free block satisfies, and the address handed out is outside of the block | `BgetTheorems.HonestUpToWrap`, `BgetTheorems.WrapEscapes` |
| `addOption` adds the option with its own number | the message has options and the number is below the recorded maximum, or the record is right. An append that found no room has set the record all the same (coap/client/Coap.cpp:1004), and on a received message it is 0 | `CoapPdu.LandedRight` |
| `addOption` stores the value | it has fewer than 269 bytes, or the buffer held its last 269 bytes before. The count that is copied has lost 269 by then (coap/client/Coap.cpp:1543) | `CoapPdu.ValueSurvives` |
| `setToken` keeps within the buffer | the message has fewer than 256 bytes: the old length is kept in 8 bits | `CoapPdu.OldLengthWraps` |
| `setToken` returns 0 only for a token that is in place, with the options behind it | the token has at most 8 bytes or as many as before. Else the token and the options are moved, but the recorded length stays, as setTokenLength refuses it and its answer is not looked at (coap/client/Coap.cpp:785) | `CoapPdu.Pdu.SetToken` |
| the client reads options as RFC 7252 does | no field wraps 16 bits: 0xE0 0xFF 0x00 is one option with number 65549 and two for the client | `CoapPdu.ReadSame`, `CoapPdu.WrappedDiffers` |
| the server accepts only options that can be read | it met no length that wraps 16 bits: 0x0E 0xFE 0xF3 announces 65536 bytes and is taken for an empty option. A delta that wraps does no harm, as option numbers have 16 bits | `OptionList.ParseIsDecode`, `OptionList.WrappedLength` |
| an insertion that finds no memory leaves the list alone | the list is empty or the option was not to come first: else the start of the list has been overwritten with NULL, and all options are lost | `OptionList.FailKeeps` |
| `coapGetNodeById` returns null if there is no such request | the queue is empty or the request is there; else it reads through null | `DeltaQueue.GetNodeById` |
| a request is sent again, or given up, when the wait that went with its last message is over (coap/client/CoapClient.cpp:198-205) | no request or response that measures the time comes after a tick later than the base time, unless nobody is left to wait or the first who is left is due at that moment: `timerTick` arms the timer but leaves the base time where it was, so the time up to the tick comes off once more. Waits are cut short, never drawn out | `ClockTheorems.RunOnTime`, `ClockTheorems.NeverLate`, `ClockTheorems.Hurried` |
| a message that is built is parsed as it was | an empty message has no token and no payload; the code class is not 1, 6 or 7; the payload has at most 256 bytes and, if there is one, there are options; no option value has more than 1034 bytes | `ServerMessage.RoundTrip` |
| the more bit says whether more blocks follow | the request left it clear, or there are more: a set bit is copied into the last block's answer | `Blockwise.MoreIsRight` |
| deregistration ends the pending notification of that resource, and no other's | the first notification found with this token and endpoint is of that resource, or there is none: the search does not look at the resource | `Registry.AbortRight`, `Registry.WrongAbort` |
| the observer that a pending notification keeps is one of its resource's | none of these has happened while a notification for it was pending: its client registered again; it deregistered and another resource's notification was ended instead; the handler refused to renew the notification | `Registry.StepLinked`, `Registry.RunLinked`, `Registry.Orphaned` |
| the length that `getURI` reports is that of the string it writes | the options hold no single slash, or no path or query option comes before the first one: there it stops and reports 1 | `CoapUri.GetURI`, `CoapUri.CutLength` |
| `getURI` returns what `setURI` was given, for a URI of segments that are not empty, each behind a slash, and queries that are not empty, all free of the separators | the query is not a single one of one character: that one is dropped | `CoapUri.UriRoundTrip`, `CoapUri.ThereAndBack` |

## Left out

- Bget.Pool.Bget: requests of 32761 to 32767 bytes, which wrap; `HonestUpToWrap` and `WrapEscapes` say what becomes of them.
- Bget.Pool.Brel: a pointer that no `bget` handed out; the code asserts against some of these.
- Bget.Pool.constructor: a second pool, as the server has one; and pools of less than 16 bytes, whose only block is smaller than a free block has to be.
- The parts of `coap_mem.c` for growing and shrinking pools (`BECtl`), dumps and the test program are compiled out. Memory is an array of cells, a block's header or link standing in the cell of its first byte.
- CoapPdu.Pdu.SetToken: a change of the token's length in a message of 256 bytes or more, which reads out of bounds as `OldLengthWraps` says.
- CoapPdu.Pdu.AddOption: a message that already has its payload; the code does not look. Nor values of 65531 bytes and more, with which the 16 bits that `addOption` keeps an option's length in wrap.
- CoapUri.SetURI: segments and queries of 269 bytes and more, which `addOption` does not keep whole.
- CoapPdu.Pdu.SetToken: what a refused realloc leaves when the token gets shorter; the code itself calls the message broken then (coap/client/Coap.cpp:802-804).
- Setting a payload, content format, ETag, printing, the HTTP status table and the plain header setters of the client.
- ServerMessage.ParseDatagram: a token that is cut off lets the code read up to 64 KB behind the datagram; the contract asks that this memory is there.
- CoapClient.Client.TimerTick: says what happens if a retransmission is refused, but no `sendPDU` of the repository refuses one: it ignores what `send` returns, and its transaction ids are never COAP_INVALID_TID (coap/client/CoapRequest.cpp:90-119, coap/client/Hash.cpp:30-42).
- CoapClient.Client.OnResponse: callbacks that call the client again; sockets and name lookup. Transaction ids are parameters, a new request's being new.
- ClockTheorems.RunOnTime: times are whole milliseconds of a clock that does not wrap, and the timer fires at the moment it was armed for.
- `coapQueueSize`, which reads a cursor that was never set.
- Blockwise.SetPayload: a NULL from `coap_mem_get` is ignored (coap_option_blockwise.c:232 and 261) and copied into. Here a grown buffer always gets its memory; and giving back the old buffer is not part of this model.
- Registry.RunLinked: observers are told apart by a number that counts registrations; that memory given back can be handed out again for another observer is not part of this model.
- Registry.StepKeeps: the main loop is modelled by what it does to observers and interactions, in any order: timers, reliability states and which state follows which are not.
- Interactions.HandleObservation: the option list copied for each observer, and memory running out while it is copied.
- Endpoints are values that are equal or not, standing for type, port and address.
- Releasing the memory of nodes and messages.
- Observer storage in flash, the well-known text, resource handlers, drivers, DNS and all printing.
