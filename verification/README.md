# Event loops and their buffers: a verified model

The repository vendors two event libraries, libev and libevent 2.0.22, under a thin layer of Java bindings. This project
models the parts of them in which state, arithmetic or concurrency make errors easy, and proves what these parts are for.
`dafny verify dfyconfig.toml` checks everything.

| files | what they model |
|---|---|
| `WakeUp` | how senders and signal handlers wake a loop that is about to block (`ev.c`) |
| `Pending`, `Heap4`, `Timers`, `TimerRun` | pending events by priority, the 4-ary heap with back-indices, timers, their expiry and their callbacks (`ev.c`) |
| `FdInterest`, `PollTable`, `SelectBits` | interest in descriptors, told to a backend that may call back; two backends (`ev.c`, `ev_poll.c`, `ev_select.c`) |
| `Pieces`, `Evbuffer`, `EvbufferMove`, `EvbufferPullup`, `EvbufferSearch`, `EvbufferLines`, `EvbufferRun` | the byte queue as a list of chains (`buffer.c`) |
| `DnsName`, `DnsWire`, `DnsRoundTrip`, `DnsMessage`, `DnsServer` | domain names with compression (sections 3.1 and 4.1.4 of RFC 1035) and whole responses (`evdns.c`) |
| `TokenBucket`, `RateLimit`, `GroupShare`, `GroupLimit` | rate limits of one bufferevent and of a group (`bufferevent_ratelim.c`, `bufferevent.c`) |
| `EventQueues` | queues, counters and common timeouts of an event base (`event.c`) |
| `Arc4`, `Arithmetic`, `Bits`, `Bytes`, `Wrappers` | the random generator (`arc4random.c`); division, bits, octets, options |

**Form.** What the C code changes in place is a class with those fields, or an array; its methods are proved against
functions on sequences and maps, and the promises are lemmas about these. Concurrency is a transition system with one
atomic step per access to shared state, sequentially consistent, because the code has fences for that: `WakeUp` (any
number of senders, signal handlers and one loop) and `GroupLimit` (any number of threads and members; try-locks may
fail); `GroupShare` has the group's bucket over runs of its members. A callback is whatever it may do to the modelled
state: `Pending.Queues.InvokePending` and `TimerRun.RunTimers` take a script of actions for each call. Answers of the
system are parameters: the clock, random draws, and for `FdReify` the descriptors that the backend refuses.

**Invariants.** `Evbuffer.EvBuffer.Valid`: the chains linked from `first` to `last` hold the bytes, own their memory,
none is empty unless it is alone, and `last_with_datap` (as the chain before the one it designates) designates the last
chain with data. `Heap4.Heap.Valid`, `Pending.Queues.Valid`, `FdInterest.Fds.Valid`, `EventQueues.Base.Valid` and
`RateLimit.Bufferevent.Valid` say what their modules' rows promise; every method of these classes that a program can
call keeps them, so they hold over any run.

**Where the code differs from its comments or from what one expects.**

- `dnsname_to_labels` writes the closing zero without looking at the buffer length. Its result is one byte past the
  buffer exactly when the name ends right at the edge (`EncodeFits`; `EncodeOverruns` and `NamePastTheBuffer` are
  examples), and never further. Responses that are not cut off are not affected.
- A name with an empty label inside ("a..b") is encoded as written, but the decoder stops at the empty label, so the
  two indices differ (`InteriorEmptyLabel`); `RoundTrip` says exactly when they agree, `NoEmptyEnds` covers all names
  without empty labels.
- `name_parse` takes every length byte with one of the two top bits set as a pointer, also the values 64 to 191 that the
  standard reserves; its own test for lengths above 63 can never succeed. `StrictExact` says exactly when it reads what
  the standard says, `ReservedIsPointer` is a packet for which it does not; on all that the encoder writes it does
  (`RoundTrip`).
- MAX_TO_READ_EVER and MAX_TO_WRITE_EVER are documented as caps on every operation. With a configured limit they do not
  apply: `CapHolds` says exactly when the amount is within them, `ReadAboveTheCap` is a bufferevent for which it is not.
- The members of a group can together take more than its bucket gave, because of the least share and because a share is
  granted before others are accounted for. `TakenBounded` bounds this over every run, `OverdraftReached` shows that the
  bound is the least, `WithinExact` says exactly for which groups no run does it, `TurnsExceed` and `LateExceeds` are
  runs that do. With the least share of 64 that a group starts with (less if a rate is lower) some run does, unless a
  rate is 1 and the members, if there are several, are accounted for one by one.
- A response that overflows before byte 512 is sent with 512 bytes all the same (`EarlyOverflow`); `OverflowIsLate`
  says which items exclude this.
- A refund that lifts a bucket above its maximum makes the next update lift it further (`AddedExact` says exactly when,
  `RefundGrows` is an example).
- If a one-shot timer expires while it is pending for another reason, the earlier events are lost, because stopping it
  clears them first (`EventsKept` says exactly when, `LosesEvents` is an example).

## Model

| member | source | states |
|---|---|---|
| `WakeUp.NoLostWakeup` | jvmVer/src/main/jni/libev/ev.c:1844-1937 | Over every interleaving of any number of async senders, signal feeders and the loop: if the loop sleeps in the poll with `async_pending` or `sig_pending` set, the pipe is readable or some thread past its flag write is bound to write it. |
| `WakeUp.NoLostSource` | jvmVer/src/main/jni/libev/ev.c:1844-1937 | The same per source: while the loop sleeps, for a raised async watcher or signal the pipe is readable, or some sender is bound to write it, or a sender is about to set the flag of this kind of source. |
| `WakeUp.CommittedWrites` | jvmVer/src/main/jni/libev/ev.c:1844-1886 | A sender that is bound to write gets to the write within a fixed number of its own accesses, and no step of another thread takes that away while the loop stays in the poll. |
| `WakeUp.RaisedUntilFed` | jvmVer/src/main/jni/libev/ev.c:1889-1937 | Over every run, a source once raised stays raised until the scan feeds it (or it is unregistered): no `sent` or `pending` flag is cleared unseen. |
| `WakeUp.FeedsOnlyRaised` | jvmVer/src/main/jni/libev/ev.c:1907-1936 | The converse, over every run: only a source that is raised is fed, and feeding it lowers it. |
| `WakeUp.FedAtMostRaised` | jvmVer/src/main/jni/libev/ev.c:1907-1936 | Between any two points of any run a source is fed at most as often as it was raised in between, once more if it was raised before, and once less if it is still raised. |
| `WakeUp.LoopAloneFeeds` | jvmVer/src/main/jni/libev/ev.c:2999-3063 | From any reachable state without senders under way, the loop alone feeds a raised source, with an explicit rank as bound. |
| `WakeUp.Delivery` | jvmVer/src/main/jni/libev/ev.c:2999-3063 | The bound in terms of the table sizes only: at most 4 signals + 4 asyncs + 38 accesses of the loop, even if only the pipe can wake it. |
| `WakeUp.DeliveryAnyhow` | jvmVer/src/main/jni/libev/ev.c:1844-1937 | The same with any senders still under way: from any state of any run, in whatever order they and the loop make their accesses, a raised registered source is fed within a number of accesses fixed in that state, and until then some access can always be made; only a further raise is excluded. |
| `WakeUp.OnwardCounts` | jvmVer/src/main/jni/libev/ev.c:1844-1937 | Every access of a sender or of the loop uses up at least one of these, although a sender may add a turn of the loop. |
| `WakeUp.AccessesAtMost` | jvmVer/src/main/jni/libev/ev.c:1844-1937 | The bound in numbers: a turn of 2 signals + 2 asyncs + 20 accesses for each unread byte and three more, and six turns for each sender. |
| `WakeUp.SentIsFed` | jvmVer/src/main/jni/libev/ev.c:4285-4291 | So a send is delivered: from the step that raises a registered source, in whatever order everybody goes on, the source is fed within that bound. |
| `WakeUp.WritesOnlyWanted` | jvmVer/src/main/jni/libev/ev.c:1844-1886 | A thread writes the pipe only if it found the loop wanting it. |
| `WakeUp.InvRun` | jvmVer/src/main/jni/libev/ev.c:1844-1937 | The inductive invariant behind these results holds in every state of every run. |
| `WakeUp.InvLoop` | jvmVer/src/main/jni/libev/ev.c:2999-3063 | Every access of the loop (skip test, wanted flag, poll, `pipecb` and its two scans) keeps the invariant. |
| `WakeUp.InvSender` | jvmVer/src/main/jni/libev/ev.c:1844-1886 | Every access of `evpipe_write`, `ev_async_send` and the signal feeders keeps it, in any thread. |
| `WakeUp.InvStart` | jvmVer/src/main/jni/libev/ev.c:4246-4261 | Registering an async watcher while everybody else runs keeps it. |
| `WakeUp.InvStop` | jvmVer/src/main/jni/libev/ev.c:4265-4283 | So does unregistering. |
| `WakeUp.StartRegisters` | jvmVer/src/main/jni/libev/ev.c:4246-4261 | Starting adds exactly this watcher, with nothing sent. |
| `WakeUp.StopRemoves` | jvmVer/src/main/jni/libev/ev.c:4265-4283 | Stopping removes exactly the watcher in the slot, though another one takes its place. |
| `DnsName.JoinSplit` | jvmVer/src/main/jni/libevent/evdns.c:1585-1649 | Cutting a name at its dots and joining the labels with dots gives the name back. |
| `DnsName.CanonicalExact` | jvmVer/src/main/jni/libevent/evdns.c:943-997 | A name survives encoding and decoding unchanged exactly when it is empty or has no empty label. |
| `DnsName.CanonicalShorter` | jvmVer/src/main/jni/libevent/evdns.c:943-997 | What comes back is never longer than the name. |
| `DnsWire.WalkExtends` | jvmVer/src/main/jni/libevent/evdns.c:943-997 | A name that can be read keeps its reading, end and jump count when the packet grows and when more jumps are allowed. |
| `DnsWire.ReadableIf` | jvmVer/src/main/jni/libevent/evdns.c:943-997 | The labels that the walk meets lie in the memory for every name that can be read, and for every packet with 63 bytes behind it: what `name_parse` needs. |
| `DnsWire.StrictExact` | jvmVer/src/main/jni/libevent/evdns.c:957-977 | The walk of `name_parse` and that of section 4.1.4 of RFC 1035, which reads no length byte from 64 to 191, agree if and only if the walk comes to no such byte or finds no name anyway; for every packet, offset and jump budget. |
| `DnsWire.ReservedIsPointer` | jvmVer/src/main/jni/libevent/evdns.c:957-969 | The witness: the packet 64, 2, 0 reads as if it began with 192, and the standard reads nothing. |
| `DnsWire.NameParse` | jvmVer/src/main/jni/libevent/evdns.c:943-997 | `name_parse` on a buffer whose labels lie in the array: success exactly when the walk over labels and pointers succeeds within the packet, the jump budget and the output; then the output is the labels joined by dots and the index moves to the end of the name, otherwise it stays. |
| `DnsWire.CollectLabels` | jvmVer/src/main/jni/libevent/evdns.c:957-988 | Its loop: the labels read so far are in the output, joined by dots, whatever pointers were followed. |
| `DnsWire.AppendLabel` | jvmVer/src/main/jni/libevent/evdns.c:974-986 | One label of it: dot and bytes are appended to the output exactly if they fit with a terminator. |
| `DnsWire.LabelTable.GetPos` | jvmVer/src/main/jni/libevent/evdns.c:1545-1554 | The position of the first entry with exactly this key, or none. |
| `DnsWire.LabelTable.Add` | jvmVer/src/main/jni/libevent/evdns.c:1557-1572 | A new entry at the end; a full table stays as it is. |
| `DnsWire.DnsnameToLabels` | jvmVer/src/main/jni/libevent/evdns.c:1585-1649 | `dnsname_to_labels` in place: result code, bytes written, table and untouched part of the buffer are those of the recursive encoder, for every name, table, offset and buffer. |
| `DnsWire.PrefixedStep` | jvmVer/src/main/jni/libevent/evdns.c:1606-1640 | One turn of its loop against the recursive encoder: pointer, too long, no room, last label, or one label and the rest. |
| `DnsWire.PutTerminator` | jvmVer/src/main/jni/libevent/evdns.c:1641-1648 | The closing zero is written without a look at the buffer length. |
| `DnsRoundTrip.RoundTrip` | jvmVer/src/main/jni/libevent/evdns.c:943-997 | Name round trip with compression: for every name, any table made by earlier encodings and any offset in a buffer of at most 0x4000 bytes, decoding at the offset gives the canonical name within the jump budget, for `name_parse` and for a reader that keeps to the standard alike; the index returned is the encoder's exactly under a stated condition on the labels. |
| `DnsRoundTrip.SecondTime` | jvmVer/src/main/jni/libevent/evdns.c:1585-1649 | Compression: a name once written with a table of less than 128 entries takes two bytes wherever it is written again, and they point to where it was written first. |
| `DnsRoundTrip.DottedName` | jvmVer/src/main/jni/libevent/evdns.c:1585-1649 | "a.b" byte by byte on the wire, and read back. |
| `DnsRoundTrip.EncodeReads` | jvmVer/src/main/jni/libevent/evdns.c:1585-1649 | One encoding decodes and leaves the table sound: each entry decodes to its key at an earlier offset. |
| `DnsRoundTrip.EncodeRestReads` | jvmVer/src/main/jni/libevent/evdns.c:1606-1640 | The induction over the labels still to be written. |
| `DnsRoundTrip.PointerReads` | jvmVer/src/main/jni/libevent/evdns.c:962-969 | A pointer reads as the name it points to, with one more jump. |
| `DnsRoundTrip.NoEmptyEnds` | jvmVer/src/main/jni/libevent/evdns.c:943-997 | For a name without empty labels decoder and encoder end at the same index, whatever the table. |
| `DnsRoundTrip.InteriorEmptyLabel` | jvmVer/src/main/jni/libevent/evdns.c:1585-1649 | A concrete name, "a..b", for which they do not. |
| `DnsRoundTrip.EncodeFits` | jvmVer/src/main/jni/libevent/evdns.c:1606-1648 | The encoder ends in its buffer or one byte past it; past it if and only if the name ends with the byte before the last of the buffer, is not empty, has no dot at its end, and none of its suffixes is in the table, all of which can be seen before the call. |
| `DnsRoundTrip.NameFits` | jvmVer/src/main/jni/libevent/evdns.c:1585-1649 | The same for a whole call. |
| `DnsRoundTrip.EncodeOverruns` | jvmVer/src/main/jni/libevent/evdns.c:1641-1648 | In a buffer of any size, "a" two bytes before the end is one byte past it. |
| `DnsMessage.NamePastTheBuffer` | jvmVer/src/main/jni/libevent/evdns.c:1876-1896 | So it is in the 1500 bytes of a response. |
| `DnsMessage.ResponseReads` | jvmVer/src/main/jni/libevent/evdns.c:1876-1971 | Whole response round trip, independent reader: id, flags, the four counts, the questions and, cut by the counts, all records of the answer, authority and additional sections are read back, each with name, type, class, TTL and data, and nothing is left over. |
| `DnsMessage.ResponseOnWire` | jvmVer/src/main/jni/libevent/evdns.c:1876-1971 | One response byte by byte: header, question, and an address record whose name is a pointer to the question's. |
| `DnsMessage.PutQuestionsReads` | jvmVer/src/main/jni/libevent/evdns.c:1898-1912 | The question loop, with the suffix table sound at its end. |
| `DnsMessage.PutItemsReads` | jvmVer/src/main/jni/libevent/evdns.c:1914-1955 | The record loop, likewise. |
| `DnsMessage.PutDataReads` | jvmVer/src/main/jni/libevent/evdns.c:1932-1952 | RDATA, raw or a compressed name whose length is filled in afterwards. |
| `DnsMessage.NameReads` | jvmVer/src/main/jni/libevent/evdns.c:1585-1649 | A name appended to a message reads back there and in every longer message. |
| `DnsMessage.HeaderReads` | jvmVer/src/main/jni/libevent/evdns.c:1888-1896 | The six header words. |
| `DnsMessage.ItemsSize` | jvmVer/src/main/jni/libevent/evdns.c:1914-1955 | Records never shrink the message and stay within the buffer. |
| `DnsServer.ServerRequest.FormatResponse` | jvmVer/src/main/jni/libevent/evdns.c:1876-1971 | `evdns_server_request_format_response` in place: the buffer kept is the whole message if it has at most 512 bytes, and a reader gets the request's own questions and the items of its three sections from it; otherwise 512 bytes, of which as many as were written are the message's. Bit by bit, its flags are those of the request with the response bit, the error code in the lowest four and, if it was cut, the TC bit. Error codes; the request is otherwise unchanged. |
| `DnsServer.FlagBits` | jvmVer/src/main/jni/libevent/evdns.c:1891-1893 | The flags of the request or-ed with 0x8000 and the error code, bit by bit. |
| `DnsServer.TruncatedBits` | jvmVer/src/main/jni/libevent/evdns.c:1954-1958 | The third byte or-ed with 2, bit by bit. |
| `DnsServer.Finish` | jvmVer/src/main/jni/libevent/evdns.c:1953-1966 | The last part of it: the cut to 512 bytes, the TC bit, and what of the message is in the bytes kept. |
| `DnsServer.OverflowIsLate` | jvmVer/src/main/jni/libevent/evdns.c:1916-1957 | If every item has names that can be encoded and at most 989 raw bytes, at least 512 bytes were written before any overflow, so that what is sent is the message's. |
| `DnsServer.EncodableExact` | jvmVer/src/main/jni/libevent/evdns.c:1585-1649 | Exactly the names of at most 255 bytes with labels of at most 63 can be encoded, given room. |
| `DnsServer.EncodeFails` | jvmVer/src/main/jni/libevent/evdns.c:1585-1649 | A name of at most 255 bytes with labels of at most 63 fails only within 257 bytes of the buffer's end. |
| `DnsServer.EarlyOverflow` | jvmVer/src/main/jni/libevent/evdns.c:1940-1957 | One answer with 1490 raw bytes, for which only 23 of the 512 bytes are. |
| `DnsServer.ServerRequest.AddReply` | jvmVer/src/main/jni/libevent/evdns.c:1744-1815 | A record is appended to its section with its count, or refused once a response exists; the other sections stay. Raw data keeps no more bytes than its 16-bit length says. |
| `DnsServer.ServerRequest.AppendQuestions` | jvmVer/src/main/jni/libevent/evdns.c:1898-1912 | The loop writes what the specification builds, or stops where it stops. |
| `DnsServer.ServerRequest.AppendItems` | jvmVer/src/main/jni/libevent/evdns.c:1914-1955 | Likewise for one section. |
| `DnsServer.ServerRequest.AppendAll` | jvmVer/src/main/jni/libevent/evdns.c:1898-1955 | Likewise for the whole body, with one suffix table carried through. |
| `DnsServer.AppendName` | jvmVer/src/main/jni/libevent/evdns.c:1903-1924 | A name at the end of the message in the shared buffer, as `dnsname_to_labels` writes it. |
| `DnsServer.AppendTarget` | jvmVer/src/main/jni/libevent/evdns.c:1932-1944 | RDATA that is a name, with the length patched in front of it. |
| `Evbuffer.EvBuffer.Add` | jvmVer/src/main/jni/libevent/buffer.c:1543-1627 | Appends the bytes (nothing if frozen), in all three ways: into the last chain, after realigning it, or with a new chain; keeps the representation invariant (list end, lengths, no empty chain unless alone, `last_with_datap` on the last chain with data, nothing shared). |
| `Evbuffer.EvBuffer.Prepend` | jvmVer/src/main/jni/libevent/buffer.c:1636-1717 | Puts the bytes in front: misalignment of the first chain, realigning an empty one, or a new chain. |
| `Evbuffer.EvBuffer.Drain` | jvmVer/src/main/jni/libevent/buffer.c:958-1027 | Drops exactly the first `len` bytes, or all. |
| `Evbuffer.EvBuffer.WalkOff` | jvmVer/src/main/jni/libevent/buffer.c:993-1007 | Its chain loop finds the chain in which the drop ends and repairs `last_with_datap`. |
| `Evbuffer.EvBuffer.Copyout` | jvmVer/src/main/jni/libevent/buffer.c:1043-1088 | Copies the first bytes, changes nothing, and says how many. |
| `Evbuffer.EvBuffer.Remove` | jvmVer/src/main/jni/libevent/buffer.c:1029-1041 | Copies the first bytes out and drops exactly these. |
| `Evbuffer.EvBuffer.ChainInsert` | jvmVer/src/main/jni/libevent/buffer.c:290-319 | A chain behind the data, replacing an empty list of chains. |
| `Evbuffer.EvBuffer.Spill` | jvmVer/src/main/jni/libevent/buffer.c:1603-1618 | The rest of an add: the last chain is filled up and a new one takes what is left. |
| `Evbuffer.EvBuffer.PrependSpill` | jvmVer/src/main/jni/libevent/buffer.c:1688-1709 | The rest of a prepend. |
| `Evbuffer.Chain.Align` | jvmVer/src/main/jni/libevent/buffer.c:1719-1727 | Moves the data to the front of the memory and keeps it. |
| `EvbufferMove.AddBuffer` | jvmVer/src/main/jni/libevent/buffer.c:866-909 | dst becomes dst + src, src becomes empty, no chain is shared, both invariants hold. |
| `EvbufferMove.PrependBuffer` | jvmVer/src/main/jni/libevent/buffer.c:912-956 | dst becomes src + dst, likewise. |
| `EvbufferMove.RemoveBuffer` | jvmVer/src/main/jni/libevent/buffer.c:1093-1181 | dst becomes dst + src[..n], src keeps src[n..]: whole chains change owner and the rest is copied; n is what was asked for or all. |
| `EvbufferMove.MoveChains` | jvmVer/src/main/jni/libevent/buffer.c:1124-1163 | Whole chains change owner. |
| `EvbufferMove.AdvanceLastWithData` | jvmVer/src/main/jni/libevent/buffer.c:653-667 | `last_with_datap` moves to the last chain with data. |
| `EvbufferPullup.Pullup` | jvmVer/src/main/jni/libevent/buffer.c:1183-1293 | Keeps the bytes, makes the first n contiguous in the first chain, refuses what is not there, and keeps the invariant in all removal cases. |
| `EvbufferPullup.PullLoop` | jvmVer/src/main/jni/libevent/buffer.c:1237-1255 | Its chain loop: what is copied, which chains go, and whether the chain that holds `last_with_datap` went. |
| `EvbufferPullup.PullRelink` | jvmVer/src/main/jni/libevent/buffer.c:1257-1283 | The end when a chain stays, with `last_with_datap` repaired if its chain or only the one before was removed. |
| `EvbufferPullup.PullAll` | jvmVer/src/main/jni/libevent/buffer.c:1263-1283 | The end when every chain was taken in. |
| `EvbufferSearch.SearchRange` | jvmVer/src/main/jni/libevent/buffer.c:2542-2605 | The least match at or after the start that ends by the end, or -1 and then there is none, for every split of the bytes into chains; terminates. |
| `EvbufferSearch.SearchStep` | jvmVer/src/main/jni/libevent/buffer.c:2561-2597 | One turn of the loop gives the answer or passes bytes that start no match. |
| `EvbufferSearch.PtrMemcmp` | jvmVer/src/main/jni/libevent/buffer.c:2500-2534 | Comparison across chains equals comparison of the bytes. |
| `EvbufferLines.FindStop` | jvmVer/src/main/jni/libevent/buffer.c:1305-1375 | The first stop byte from a pointer on, across chains and 128-byte chunks. |
| `EvbufferLines.FindEolIn` | jvmVer/src/main/jni/libevent/buffer.c:1327-1352 | Chunk by chunk within one chain, with the two searches limited to each other. |
| `EvbufferLines.StrSpn` | jvmVer/src/main/jni/libevent/buffer.c:1376-1414 | The length of the maximal run of CR and LF. |
| `EvbufferLines.PtrSet` | jvmVer/src/main/jni/libevent/buffer.c:2449-2498 | Sets a pointer to a byte, or refuses one past the end. |
| `EvbufferLines.SearchEol` | jvmVer/src/main/jni/libevent/buffer.c:1425-1498 | Where the line ends and how long its terminator is, for each of the four styles. |
| `EvbufferLines.LineEndsAre` | jvmVer/src/main/jni/libevent/buffer.c:1425-1498 | For the bytes of "a", CR, LF, LF, "b": the one line end and terminator length of each style. |
| `EvbufferLines.ReadLn` | jvmVer/src/main/jni/libevent/buffer.c:1500-1537 | Line + terminator + what stays = old contents; nothing is taken without a terminator; for CRLF the cut is at the first LF with at most one CR joined, for ANY at the first CR or LF with the maximal run drained. |
| `EvbufferRun.Run` | jvmVer/src/main/jni/libevent/buffer.c:1543-1738 | A run of any operations from an empty buffer leaves, and hands out, what the same run does to a sequence of bytes. |
| `EvbufferRun.Conserved` | jvmVer/src/main/jni/libevent/buffer.c:958-1088 | In every run without prepends no byte is lost, made up or reordered: handed out or dropped at the front + left = added at the back; without drains and copies all of it is handed out. |
| `TokenBucket.AddedExact` | jvmVer/src/main/jni/libevent/bufferevent_ratelim.c:86-104 | The overflow-avoiding update, in wrapping arithmetic of any width, equals min(maximum, limit + ticks * rate) if and only if the limit is not above the maximum or the ticks exceed the wrapped difference. |
| `TokenBucket.RefundGrows` | jvmVer/src/main/jni/libevent/bufferevent_ratelim.c:86-104 | A concrete limit above the maximum that the update raises further. |
| `TokenBucket.UpdateIsRefill` | jvmVer/src/main/jni/libevent/bufferevent_ratelim.c:72-110 | Across 32-bit wrap of the tick counter an update after at most INT_MAX ticks refills by exactly these ticks. |
| `TokenBucket.RollbackIgnored` | jvmVer/src/main/jni/libevent/bufferevent_ratelim.c:81-84 | When the tick rolled back nothing changes. |
| `TokenBucket.RefillsCompose` | jvmVer/src/main/jni/libevent/bufferevent_ratelim.c:72-110 | Refilling in steps equals refilling at once. |
| `TokenBucket.DebtPaid` | jvmVer/src/main/jni/libevent/bufferevent_ratelim.c:395-441 | An exhausted bucket becomes positive after exactly the ticks that pay its debt. |
| `TokenBucket.RateHolds` | jvmVer/src/main/jni/libevent/bufferevent_ratelim.c:199-260 | Over any run of transfers, each within what `_bufferevent_get_rlim_max` allowed, no more passes than the bucket held plus ticks times rate; never more than burst plus ticks times rate. |
| `TokenBucket.NewConfig` | jvmVer/src/main/jni/libevent/bufferevent_ratelim.c:141-172 | A configuration is made exactly when 1 <= rate <= burst <= EV_RATE_LIMIT_MAX in both directions. |
| `TokenBucket.CapHolds` | jvmVer/src/main/jni/libevent/bufferevent_ratelim.c:199-260 | MAX_TO_READ_EVER and MAX_TO_WRITE_EVER bound the amount if and only if there is no own limit, or that limit or the group's share is within them. |
| `TokenBucket.CapFails` | jvmVer/src/main/jni/libevent/bufferevent_ratelim.c:226-229 | A bucket for which they do not. |
| `TokenBucket.SharesFit` | jvmVer/src/main/jni/libevent/bufferevent_ratelim.c:229-253 | One round: members that all ask at one moment and take their shares stay within the group's limit if and only if the least share is at most an equal part. |
| `TokenBucket.SharesExceed` | jvmVer/src/main/jni/libevent/bufferevent_ratelim.c:229-253 | Two members for which they do not. |
| `GroupShare.TakenBounded` | jvmVer/src/main/jni/libevent/bufferevent_ratelim.c:229-310 | Over every run of a group, its members asking and accounting in any order (at most one grant outstanding for each) and the bucket refilled in between: they take at most what the bucket held, or nothing if it was overdrawn, plus what refills added, plus an overdraft that depends on the configuration only; refills add at most the rate for every tick. |
| `GroupShare.OverdraftReached` | jvmVer/src/main/jni/libevent/bufferevent_ratelim.c:229-310 | The bound is the least: whenever the overdraft is not zero, some run from any start takes exactly that much. |
| `GroupShare.WithinExact` | jvmVer/src/main/jni/libevent/bufferevent_ratelim.c:229-310 | All runs stay within the bucket and its refills if and only if: the least share is at most 1, for one member or members that are accounted for one by one; otherwise the least share is 0 and the burst is below two bytes for each member. |
| `GroupShare.Recovers` | jvmVer/src/main/jni/libevent/bufferevent_ratelim.c:527-544 | A suspended group resumes exactly with the refill that pays its debt and the least share, and then whoever asks gets the larger of least share and equal part, up to MAX_TO_READ_EVER. |
| `GroupShare.MinShare` | jvmVer/src/main/jni/libevent/bufferevent_ratelim.c:699-718 | The least share asked for, but at most the rates of both directions. |
| `GroupShare.ConfiguredOk` | jvmVer/src/main/jni/libevent/bufferevent_ratelim.c:637-718 | Every configuration that `ev_token_bucket_cfg_new` makes, with any least share asked for, is one these results speak of. |
| `GroupShare.InvStep` | jvmVer/src/main/jni/libevent/bufferevent_ratelim.c:229-556 | The invariant behind these: limit, grants and records after every ask, account and refill. |
| `GroupShare.TurnsExceed` | jvmVer/src/main/jni/libevent/bufferevent_ratelim.c:229-310 | Least share 40, burst 100: two members accounted for one by one take 130. |
| `GroupShare.LateExceeds` | jvmVer/src/main/jni/libevent/bufferevent_ratelim.c:229-310 | No least share, burst 100: one late accounting, and they take 125. |
| `GroupShare.GroupBucket.MaxFor` | jvmVer/src/main/jni/libevent/bufferevent_ratelim.c:229-260 | The group's part of `_bufferevent_get_rlim_max` is the grant of these runs. |
| `GroupShare.GroupBucket.Decrement` | jvmVer/src/main/jni/libevent/bufferevent_ratelim.c:299-307 | The group's limit falls by the transfer, and the group is suspended exactly if nothing is left. |
| `GroupShare.GroupBucket.RefillTick` | jvmVer/src/main/jni/libevent/bufferevent_ratelim.c:527-544 | The limit is refilled up to the burst; a suspension ends exactly if the limit is at least the least share. |
| `GroupShare.Serve` | jvmVer/src/main/jni/libevent/bufferevent_ratelim.c:229-556 | A run on the fields the code updates goes as specified, so the bound holds for the code from `bufferevent_rate_limit_group_new` on. |
| `RateLimit.Bucket.Init` | jvmVer/src/main/jni/libevent/bufferevent_ratelim.c:48-70 | First use starts with one tick's rate; reconfiguration only clips. |
| `RateLimit.Bucket.Update` | jvmVer/src/main/jni/libevent/bufferevent_ratelim.c:72-110 | Both directions are refilled by the ticks since the last update; limits at most the maximum stay so and do not fall. |
| `RateLimit.Bufferevent.DecrementRead` | jvmVer/src/main/jni/libevent/bufferevent_ratelim.c:274-310 | Spends, suspends at zero or below with the timer running, resumes above; the timer is stopped only if the other direction does not need it. Invariant: whoever is suspended for bandwidth has a limit and a refill timer pending or firing. |
| `RateLimit.Bufferevent.DecrementWrite` | jvmVer/src/main/jni/libevent/bufferevent_ratelim.c:312-348 | The same for writing. |
| `RateLimit.Bufferevent.DecrementReadLimit` | jvmVer/src/main/jni/libevent/bufferevent_ratelim.c:900-925 | Only a crossing of zero changes suspension and timer; same invariant. |
| `RateLimit.Bufferevent.DecrementWriteLimit` | jvmVer/src/main/jni/libevent/bufferevent_ratelim.c:927-954 | The same for writing. |
| `RateLimit.Bufferevent.ReadMax` | jvmVer/src/main/jni/libevent/bufferevent_ratelim.c:199-260 | What may be read: own bucket after an update, clipped by the group's share, never negative; a member of a suspended group takes over the suspension and may read nothing; within the constant cap exactly when CapHolds says. |
| `RateLimit.Bufferevent.WriteMax` | jvmVer/src/main/jni/libevent/bufferevent_ratelim.c:199-260 | The same for writing. |
| `RateLimit.Bufferevent.JoinRead` | jvmVer/src/main/jni/libevent/bufferevent_ratelim.c:229-255 | The group's part: its suspension is taken over, or the share is an equal part but at least the least share. |
| `RateLimit.Bufferevent.JoinWrite` | jvmVer/src/main/jni/libevent/bufferevent_ratelim.c:229-255 | The same for writing. |
| `RateLimit.Bufferevent.UpdateBuckets` | jvmVer/src/main/jni/libevent/bufferevent_ratelim.c:112-123 | Both directions are brought up to the tick. |
| `RateLimit.ReadsBounded` | jvmVer/src/main/jni/libevent/bufferevent_ratelim.c:199-310 | Any run of reads done as the code does them (ask, read no more, account), whatever is wanted and whatever the group says: no more passes than the bucket held plus ticks times rate, never more than burst plus ticks times rate. |
| `RateLimit.Reads` | jvmVer/src/main/jni/libevent/bufferevent_ratelim.c:199-310 | Such a run is one to which `TokenBucket.RateHolds` applies. |
| `RateLimit.ReadAboveTheCap` | jvmVer/src/main/jni/libevent/bufferevent_ratelim.c:226-229 | A bufferevent that may read 20000 bytes at once. |
| `RateLimit.Bufferevent.Fire` | jvmVer/src/main/jni/libevent/bufferevent_ratelim.c:395-404 | From expiry of the timer to the callback's lock the invariant rests on the callback under way. |
| `RateLimit.Bufferevent.Refill` | jvmVer/src/main/jni/libevent/bufferevent_ratelim.c:395-441 | The refill callback, whatever happened since the timer expired: refills, resumes what is positive again, and runs the timer again exactly if something stays suspended. |
| `RateLimit.Bufferevent.SetRateLimit` | jvmVer/src/main/jni/libevent/bufferevent_ratelim.c:558-635 | Setting, changing, removing or repeating a limit: buckets, suspension and timer afterwards; same invariant. |
| `RateLimit.Bufferevent.SuspendRead` | jvmVer/src/main/jni/libevent/bufferevent.c:65-75 | The reason is added and the backend switched off; a direction is on in the backend exactly when enabled and not suspended. |
| `RateLimit.Bufferevent.UnsuspendRead` | jvmVer/src/main/jni/libevent/bufferevent.c:77-87 | The reason is dropped; the backend comes back only when none is left and the user enabled it. |
| `RateLimit.Bufferevent.SuspendWrite` | jvmVer/src/main/jni/libevent/bufferevent.c:89-99 | The same for writing. |
| `RateLimit.Bufferevent.UnsuspendWrite` | jvmVer/src/main/jni/libevent/bufferevent.c:101-111 | The same for writing. |
| `RateLimit.Bufferevent.Enable` | jvmVer/src/main/jni/libevent/bufferevent.c:406-427 | Enabling a suspended direction leaves the backend off. |
| `RateLimit.Bufferevent.Disable` | jvmVer/src/main/jni/libevent/bufferevent.c:497-510 | Disabling switches the backend off. |
| `GroupLimit.NotStuck` | jvmVer/src/main/jni/libevent/bufferevent_ratelim.c:230-255 | In every interleaving of member threads with the group's suspension and refill: whenever the group lock is free and the group is not suspended, a member that carries the group's suspension, or is about to set it after joining, is owed a refill. |
| `GroupLimit.OutsideIsFree` | jvmVer/src/main/jni/libevent/bufferevent_ratelim.c:784-806 | A bufferevent outside the group carries the suspension only during its own removal or destruction. |
| `GroupLimit.Refill` | jvmVer/src/main/jni/libevent/bufferevent_ratelim.c:486-503 | One undisturbed refill (a timer tick whose guard holds, or a refund), in any order of the members: exactly those that could not be locked stay suspended, and another refill is owed exactly if there are any. |
| `GroupLimit.Suspension` | jvmVer/src/main/jni/libevent/bufferevent_ratelim.c:350-372 | One undisturbed suspension, in any order of the members: it suspends exactly those that can be locked, and nothing is owed from before. |
| `GroupLimit.AskingSuspends` | jvmVer/src/main/jni/libevent/bufferevent_ratelim.c:230-241 | A member that missed it is suspended as soon as it asks. |
| `GroupLimit.JoiningSuspends` | jvmVer/src/main/jni/libevent/bufferevent_ratelim.c:731-776 | One that joins a suspended group is suspended when it has joined, whatever happens in between. |
| `GroupLimit.StaysSuspended` | jvmVer/src/main/jni/libevent/bufferevent_ratelim.c:350-391 | As long as the group stays suspended and the member does not leave, nothing takes the suspension from it. |
| `GroupLimit.LocksExclude` | jvmVer/src/main/jni/libevent/bufferevent_ratelim.c:350-391 | A member lock stays with its owner until the owner unlocks it, and only the owner asks, joins or leaves. |
| `GroupLimit.ThreadsGoOn` | jvmVer/src/main/jni/libevent/bufferevent_ratelim.c:350-391 | A thread outside these functions can take any free lock, give back its own, and enter any function once the group lock is free. |
| `GroupLimit.WindowsClose` | jvmVer/src/main/jni/libevent/bufferevent_ratelim.c:731-806 | Every window of joining or leaving can be closed at any time, and this closes no other. |
| `GroupLimit.IdleTick` | jvmVer/src/main/jni/libevent/bufferevent_ratelim.c:541-550 | A tick acts exactly if a member is owed, or the group is suspended and has the least share. |
| `GroupLimit.OwedIsPaid` | jvmVer/src/main/jni/libevent/bufferevent_ratelim.c:527-556 | What is owed is paid: when a member carries the suspension of a group that is not suspended, the next tick of the refill timer acts whatever the limit is, and if no member is locked elsewhere, afterwards no member is suspended and nothing is owed. |
| `GroupLimit.GroupNeverBlocks` | jvmVer/src/main/jni/libevent/bufferevent_ratelim.c:350-391 | The holder of the group lock always has an enabled step that brings its loop nearer its end, whoever holds the member locks. |
| `GroupLimit.InvRun` | jvmVer/src/main/jni/libevent/bufferevent_ratelim.c:350-391 | The invariant behind these results, over every run. |
| `GroupLimit.MemberStep` | jvmVer/src/main/jni/libevent/bufferevent_ratelim.c:731-806 | Joining and leaving, with their windows between group lock and flag, keep it. |
| `GroupLimit.GroupStep` | jvmVer/src/main/jni/libevent/bufferevent_ratelim.c:486-556 | Suspending and refilling, member by member with failed try-locks, keep it. |
| `Pending.Queues.FeedEvent` | jvmVer/src/main/jni/libev/ev.c:1415-1432 | Merges the events into the watcher's slot with a bitwise or, or pushes one; back-indices stay exact; only this watcher's events change. |
| `Pending.Queues.ClearPending` | jvmVer/src/main/jni/libev/ev.c:3171-3196 | The slot goes to the dummy and what was owed is returned. |
| `Pending.Queues.InvokePending` | jvmVer/src/main/jni/libev/ev.c:2675-2689 | For any callbacks that feed and clear: each call gets exactly what was owed; priorities of the calls never rise; what is still pending afterwards was fed during the call by a callback of lower priority; with any callbacks each stack is called top down: a watcher only after each one above it was called or cleared, unless it was itself cleared, and every watcher that was pending is called or cleared; with passive callbacks the calls are each stack from its top, highest priority first. |
| `Pending.OnlyAfter` | jvmVer/src/main/jni/libev/ev.c:2675-2689 | In such a history a watcher that is not cleared is called only after each one above it was called or cleared. |
| `Pending.UpperFirst` | jvmVer/src/main/jni/libev/ev.c:2675-2689 | If neither is cleared, the upper one's first call comes before any call of the lower one. |
| `Pending.Queues.Pop` | jvmVer/src/main/jni/libev/ev.c:2682-2685 | The top slot is taken and its watcher is free again. |
| `Pending.EachGetsItsDue` | jvmVer/src/main/jni/libev/ev.c:2675-2689 | In every such history each call gets the OR of all events fed to its watcher since its last call or clearing, and what is owed at the end is the same OR. |
| `Pending.CallBits` | jvmVer/src/main/jni/libev/ev.c:2675-2689 | Bit by bit: a callback gets an event exactly if its watcher was fed it, or owed it at the start, since its last call or clearing. |
| `Pending.DueBits` | jvmVer/src/main/jni/libev/ev.c:1415-1432 | The same for what is due at any moment. |
| `Pending.CalledOnce` | jvmVer/src/main/jni/libev/ev.c:2675-2689 | A watcher owed a call, not fed again and not cleared, is called exactly once if nothing is owed at the end. |
| `Pending.Queues.FeedReverseDone` | jvmVer/src/main/jni/libev/ev.c:1442-1448 | The collected watchers are fed last to first, and the list is empty. |
| `Pending.ReverseThenDrain` | jvmVer/src/main/jni/libev/ev.c:1435-1448 | Fed in reverse and called from the top, they are called first to last, before the rest of their stack. |
| `Pending.FedAllIs` | jvmVer/src/main/jni/libev/ev.c:1442-1448 | What feeding distinct watchers in reverse leaves owed to each. |
| `Heap4.Heap.Downheap` | jvmVer/src/main/jni/libev/ev.c:1671-1712 | Restores the heap if only edges below the slot may be wrong; same entries; every watcher's `active` is its slot, and nobody is started or stopped. |
| `Heap4.Heap.Upheap` | jvmVer/src/main/jni/libev/ev.c:1751-1770 | The same upwards, for the first n slots. |
| `Heap4.Heap.AdjustHeap` | jvmVer/src/main/jni/libev/ev.c:1773-1780 | The same when any edge at the slot may be wrong. |
| `Heap4.Heap.Reheap` | jvmVer/src/main/jni/libev/ev.c:1783-1792 | Any contents become a heap of the same entries. |
| `Heap4.Heap.LeastChild` | jvmVer/src/main/jni/libev/ev.c:1681-1699 | The child that the code's scan picks is a least one, on the fast and the slow path. |
| `Heap4.Heap.Insert` | jvmVer/src/main/jni/libev/ev.c:3278-3283 | One new entry, everything else as before. |
| `Heap4.Heap.Delete` | jvmVer/src/main/jni/libev/ev.c:3299-3312 | Exactly the entry of this watcher goes, wherever it was. |
| `Heap4.Heap.Rekey` | jvmVer/src/main/jni/libev/ev.c:3331-3333 | Exactly this entry gets a new time. |
| `Heap4.Heap.RekeyRoot` | jvmVer/src/main/jni/libev/ev.c:2738-2739 | The same for the first slot with `downheap` only. |
| `Heap4.SinkKeeps` | jvmVer/src/main/jni/libev/ev.c:1671-1712 | Moving the least child up leaves only edges below its old slot in doubt. |
| `Heap4.RiseKeeps` | jvmVer/src/main/jni/libev/ev.c:1751-1770 | Moving a greater parent down leaves only the edge above its old slot in doubt. |
| `Heap4.RootIsLeast` | jvmVer/src/main/jni/libev/ev.c:1671-1712 | The first slot of a heap has the least time. |
| `Heap4.HParentIs` | jvmVer/src/main/jni/libev/ev.c:1667 | HPARENT with C's division is the 4-ary parent, and the root is its own. |
| `Heap4.ChildrenAre` | jvmVer/src/main/jni/libev/ev.c:1681 | Its children are the four slots that `downheap` scans. |
| `Timers.Timers.Start` | jvmVer/src/main/jni/libev/ev.c:3266-3288 | The timer is armed at now + its time, the others stay; starting a running one does nothing. Invariant: heap, exact back-indices, cached times equal to the watchers' times. |
| `Timers.Timers.Stop` | jvmVer/src/main/jni/libev/ev.c:3290-3318 | Exactly this timer is disarmed, its pending event cleared, its time made relative again. |
| `Timers.Timers.Again` | jvmVer/src/main/jni/libev/ev.c:3320-3345 | A repeating timer is armed at now + repeat whether it ran or not; any other is stopped. |
| `Timers.Timers.Reify` | jvmVer/src/main/jni/libev/ev.c:2717-2752 | Takes expired timers, always a first one, until none is left, rearms or stops each, and feeds them in reverse; events already pending for an expired one-shot timer are lost. |
| `Timers.ExpiryOrder` | jvmVer/src/main/jni/libev/ev.c:2717-2752 | Doing so takes each timer at most once, with the time it had, in non-decreasing order of these times; a repeating one goes to the later of its next time and now. |
| `Timers.ExactlyExpired` | jvmVer/src/main/jni/libev/ev.c:2717-2752 | And it takes exactly the timers with a time before now. |
| `Timers.NewTimes` | jvmVer/src/main/jni/libev/ev.c:2723-2746 | What becomes of every timer, told from its old time alone: one not due keeps it; one due gets old time + repeat, or now if that has passed, and stops if it does not repeat. |
| `Timers.Timers.FireRoot` | jvmVer/src/main/jni/libev/ev.c:2723-2746 | One turn of the loop. |
| `TimerRun.RunTimers` | jvmVer/src/main/jni/libev/ev.c:3069-3091 | Reify, then invoke with any callbacks that feed and clear pending events and start, stop and restart timers: if no expired timer was pending before, each is called unless cleared or stopped, and of two of one priority the later one is called only after the earlier one was called, cleared or stopped, unless this happened to it before; if to neither, the earlier one is called first. Afterwards the timers run as the expiry and then the callbacks' actions, in the order of the calls, left them. Without actions, the calls of each priority are first the expired timers, then the rest. |
| `TimerRun.InvokeTimers` | jvmVer/src/main/jni/libev/ev.c:2675-2689 | `ev_invoke_pending` with such callbacks: every call gets its due, priorities never rise, each stack goes top down, and exactly the actions of the callbacks that were called change the timers. |
| `TimerRun.Act` | jvmVer/src/main/jni/libev/ev.c:3266-3345 | One action in a callback: its effect on the running timers, on all `at` fields and on what is owed. |
| `Timers.OrderOfExpiry` | jvmVer/src/main/jni/libev/ev.c:1435-1448 | That order, from the reverse feed and the top-down calls. |
| `Timers.Timers.OneShotsAre` | jvmVer/src/main/jni/libev/ev.c:2717-2752 | The timers whose pending events are cleared are, as can be told before the call, those with a time before now that do not repeat. |
| `Timers.Timers.EventsKept` | jvmVer/src/main/jni/libev/ev.c:2717-2752 | A pending watcher keeps its events, with EV_TIMER added if it is due, if and only if it is not a due one-shot timer with events beyond EV_TIMER. |
| `Timers.LosesEvents` | jvmVer/src/main/jni/libev/ev.c:2717-2752 | A one-shot timer pending for EV_READ that loses it. |
| `Timers.CalledInOrder` | jvmVer/src/main/jni/libev/ev.c:1435-1448 | And within a priority these calls are in non-decreasing order of expiry, none left out. |
| `FdInterest.Fds.FdChange` | jvmVer/src/main/jni/libev/ev.c:1556-1568 | A descriptor is in `fdchanges` exactly once if and only if its `reify` is non-zero. |
| `FdInterest.Fds.IoStart` | jvmVer/src/main/jni/libev/ev.c:3224-3245 | The watcher heads its descriptor's list and the change is noted with EV__IOFDSET if it was set; descriptors without noted changes have the OR of their watchers' masks. |
| `FdInterest.Fds.IoStop` | jvmVer/src/main/jni/libev/ev.c:3247-3264 | Exactly this watcher leaves its list, the others keep their order, its pending event is cleared, the change is noted. |
| `FdInterest.Fds.FdKill` | jvmVer/src/main/jni/libev/ev.c:1571-1581 | All watchers of the descriptor are stopped and get the error event, no others; outside `fd_reify` the invariant holds again. |
| `FdInterest.Fds.FdReify` | jvmVer/src/main/jni/libev/ev.c:1496-1553 | Afterwards nothing is left to tell and the backend holds exactly the non-empty masks of the watchers, also when the backend refuses descriptors and kills them during the loop: exactly their watchers are stopped and told; the loop terminates. |
| `FdInterest.Fds.ReifyOne` | jvmVer/src/main/jni/libev/ev.c:1522-1549 | One turn of the loop. |
| `FdInterest.Fds.BackendModify` | jvmVer/src/main/jni/libev/ev.c:1548-1549 | What any backend is asked: it takes the new mask, or drops and kills the descriptor. A backend that never refuses is always told, as the old mask, exactly what it holds, which is what the two backends below rely on. |
| `FdInterest.Fds.OrMasks` | jvmVer/src/main/jni/libev/ev.c:1540-1541 | The OR loop computes the union of the watchers' masks. |
| `FdInterest.Fds.WlistDel` | jvmVer/src/main/jni/libev/ev.c:3156-3168 | One occurrence is unlinked, the rest keeps its order. |
| `PollTable.Poll.Modify` | jvmVer/src/main/jni/libev/ev_poll.c:51-86 | The dense poll array with its sparse index refines the abstract table: exactly this descriptor's mask changes, every index and slot name each other, no slot is empty. |
| `PollTable.SwappedOut` | jvmVer/src/main/jni/libev/ev_poll.c:77-85 | Removal by moving the last slot into the gap. |
| `PollTable.PollBits` | jvmVer/src/main/jni/libev/ev_poll.c:72-75 | POLLIN and POLLOUT carry the mask losslessly. |
| `SelectBits.Select.Modify` | jvmVer/src/main/jni/libev/ev_select.c:71-130 | The bit vectors refine the same abstract table, growing as needed. |
| `SelectBits.Select.Scan` | jvmVer/src/main/jni/libev/ev_select.c:243-268 | The scan over the answer reports each descriptor with an event exactly once, with exactly its events, highest first. |
| `SelectBits.BitSet` | jvmVer/src/main/jni/libev/ev_select.c:121-127 | Setting or clearing one mask bit of a word changes no other bit. |
| `Arc4.LeastIs` | jvmVer/src/main/jni/libevent/arc4random.c:530-540 | The 32-bit computation of the least kept draw gives 2^32 mod bound, for every bound. |
| `Arc4.Uniform` | jvmVer/src/main/jni/libevent/arc4random.c:521-554 | The result is the first draw that is not below 2^32 mod bound, reduced; all draws before it are below. |
| `Arc4.Unbiased` | jvmVer/src/main/jni/libevent/arc4random.c:509-519 | Each number below the bound has exactly (2^32 - min) / bound kept draws. |
| `Arc4.MostKept` | jvmVer/src/main/jni/libevent/arc4random.c:542-547 | Fewer than half of all draws are rejected. |
| `Arc4.Generator.constructor` | jvmVer/src/main/jni/libevent/arc4random.c:95-104 | The identity table. |
| `Arc4.Generator.AddRandom` | jvmVer/src/main/jni/libevent/arc4random.c:106-121 | The in-place key schedule is the specified one, and the table stays a permutation of the bytes. |
| `Arc4.Generator.GetByte` | jvmVer/src/main/jni/libevent/arc4random.c:424-436 | One step and the output entry; the table stays a permutation. |
| `Arc4.SchedulePermutes` | jvmVer/src/main/jni/libevent/arc4random.c:106-121 | Any number of schedule steps with any data keeps a permutation. |
| `Arc4.ScheduleStep` | jvmVer/src/main/jni/libevent/arc4random.c:106-121 | What step n of the key schedule does to the indices and the table, with key byte n mod length. |
| `Arc4.KeyRecovered` | jvmVer/src/main/jni/libevent/arc4random.c:106-121 | The states before and after step n give that key byte back, so no byte of the key is without effect. |
| `Arc4.MixedEnds` | jvmVer/src/main/jni/libevent/arc4random.c:106-121 | After the 256 steps both indices are one before the old first index. |
| `Arc4.StepReversible` | jvmVer/src/main/jni/libevent/arc4random.c:424-436 | Each step can be undone, so no two states lead to the same one. |
| `EventQueues.Base.constructor` | jvmVer/src/main/jni/libevent/event.c:551-654 | A new base, nothing queued and every common-timeout list empty, satisfies the invariants. |
| `EventQueues.Base.InsertInserted` | jvmVer/src/main/jni/libevent/event.c:2590-2629 | Flag and membership of the inserted queue agree, and `event_count` is the number of pairs of a non-internal event and a queue it is on. |
| `EventQueues.Base.RemoveInserted` | jvmVer/src/main/jni/libevent/event.c:2520-2556 | The same on removal. |
| `EventQueues.Base.InsertActive` | jvmVer/src/main/jni/libevent/event.c:2590-2629 | The same for the active queues, one per priority, first in first out; inserting twice does nothing. |
| `EventQueues.Base.RemoveActive` | jvmVer/src/main/jni/libevent/event.c:2520-2556 | The same on removal. |
| `EventQueues.Base.InsertTimeout` | jvmVer/src/main/jni/libevent/event.c:2590-2629 | The event enters the heap or its common-timeout list, which stays sorted. |
| `EventQueues.Base.RemoveTimeout` | jvmVer/src/main/jni/libevent/event.c:2520-2556 | It leaves the one it is on, and no other. |
| `EventQueues.Base.InsertInOrder` | jvmVer/src/main/jni/libevent/event.c:2560-2588 | The place found from the back: behind every event that is not later, before every later one. |
| `EventQueues.Base.Add` | jvmVer/src/main/jni/libevent/event.c:2044-2192 | Flags, time and all queues afterwards, no change when the backend refuses; an active event's expired timeout is taken back; the event is in its place on its list, and if it is now the first there, the list's timeout event has its time, and no other timeout event changed. Invariant: every non-empty common-timeout list has its own timeout event in the heap no later than any event of the list, or active, or about to run. |
| `EventQueues.Base.AddTimeout` | jvmVer/src/main/jni/libevent/event.c:2117-2180 | The timeout part: the event in its place on its list or on the heap; if it became the first of its list the timeout event has its time, and is no longer active for an earlier one; no other timeout event changed. |
| `EventQueues.Base.Schedule` | jvmVer/src/main/jni/libevent/event.c:1144-1151 | The list's timeout event gets the given time, even if it was active. |
| `EventQueues.Base.Del` | jvmVer/src/main/jni/libevent/event.c:2214-2286 | The event leaves all queues, which keep the order of the others; same invariant. |
| `EventQueues.WithoutAt` | jvmVer/src/main/jni/libevent/event.c:2520-2556 | Removal takes out the one occurrence and keeps the order. |
| `EventQueues.Base.MakeActive` | jvmVer/src/main/jni/libevent/event.c:2288-2343 | The event is active with its results merged; same invariant. |
| `EventQueues.Base.TimeoutProcess` | jvmVer/src/main/jni/libevent/event.c:2493-2516 | Exactly the due events of the heap become active, in the order of their times, off all other queues; the rest is unchanged; same invariant, also for a list's timeout event. |
| `EventQueues.ExpiredIs` | jvmVer/src/main/jni/libevent/event.c:2493-2516 | What that means for each priority: those that stay come first, then the expired ones in that order. |
| `EventQueues.Base.CommonCallback` | jvmVer/src/main/jni/libevent/event.c:1156-1177 | Exactly the due events, the first of the list, become active in its order; the rest stays; if any is left the list's timeout event has the time of the first of them, and otherwise it is as it was. |
| `EventQueues.Base.TakeActive` | jvmVer/src/main/jni/libevent/event.c:1337-1368 | An event leaves the active queue, or all queues if it is not persistent; same invariant while its callback has yet to run. |
| `EventQueues.Base.NextTimeout` | jvmVer/src/main/jni/libevent/event.c:2397-2436 | With nothing active or about to run, the top of the heap is no later than any event's timeout, those on common-timeout lists included. |

## Left out

- WakeUp: nested `ev_run` calls, `ev_break`, fork handling and creating the pipe (it exists throughout); weak memory; signals blocked by the loop (signalfd).
- Evbuffer.EvBuffer.Add: callbacks and their byte counts, deferred callbacks, locking, failed allocation and SIZE_MAX overflow; pinned, reference, mapped-file and sendfile chains; `evbuffer_expand`, `reserve_space`, `commit_space` and `evbuffer_read`, which leave empty chains behind the data.
- EvbufferPullup.PullLoop: the length of the gathering chain is set before the copies instead of after them.
- EvbufferLines.ReadLn: the deprecated `evbuffer_readline` and the NUL that ends the returned line.
- EvbufferSearch.SearchRange: an empty pattern is answered before the search, as in the code, and states nothing more.
- DnsWire.NameParse: packets with a label that runs over the end of the array, which the code would read behind it.
- DnsRoundTrip.RoundTrip: buffers above 0x4000 bytes, where a pointer no longer holds every offset (the callers use 1500 bytes).
- DnsServer.ServerRequest.FormatResponse: sending the response, and freeing the request; what of a name that cannot be encoded was written before the error.
- DnsServer.ServerRequest.AddReply: a section number that is none of the three, and failed allocation.
- Requests of `evdns.c` (submit, pump, finish, cancel, probes, search domains, getaddrinfo, resolv.conf and hosts files), and parsing of replies and queries beyond names.
- Timers.Timers.Start: time as a real number without rounding; the clock, time jumps and `timers_reschedule`; periodic, signal, child, stat, idle, prepare, check, embed and fork watchers.
- Pending.Queues.InvokePending: priorities are constant and in range (`pri_adjust` clamps them when a watcher is started); the growth of the arrays.
- FdInterest.Fds.FdReify: the Windows handle pass; `fd_event` and `fd_rearm_all`; of the epoll, kqueue, port and devpoll backends only that they take, or refuse and kill.
- PollTable.Poll.Modify: `poll_poll`, which asks the kernel.
- SelectBits.Select.Modify: words of 32 bits, the `fd_mask` of Android on 32-bit systems; the FD_SET variant.
- Heap4.Heap.LeastChild: the code's test for a fourth child on the slow path, which cannot succeed.
- RateLimit.Bufferevent.ReadMax: the group's state is read at one moment and given; group configuration.
- TimerRun.RunTimers: callbacks that give a stopped timer new times (`ev_timer_set`).
- GroupShare.TakenBounded: the number of members and the configuration are fixed; `bufferevent_rate_limit_group_decrement_read` and refunds; one direction; no wrap-around (`AddedExact` has it).
- RateLimit.Bufferevent.Refill: failing `event_add`, and waiting for a callback in another thread.
- TokenBucket.RateHolds: one bufferevent; `GroupShare` has groups.
- GroupLimit.NotStuck: one direction; the code for the other is the same.
- EventQueues.Base.Add: notification of another thread, signal call counts, `evmap`, and remembering the interval of a persistent event.
- EventQueues.Base.TimeoutProcess: the heap of libevent is an abstract priority queue; clock jumps (`timeout_correct`); creating common-timeout lists.
- Arc4.Uniform: seeding and reseeding; draws are a given sequence.
- Everything else in the two libraries: HTTP, RPC, TLS, filters, listeners, IOCP and the Java bindings.
