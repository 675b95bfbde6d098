# Verified models of adb-fastboot-rs

Dafny models of six parts of the repository, and proofs about them.

- **mDNS discovery** (`Rr`, `IndexMinPq`, `RecordStore`, `Lifecycle`, `Replay`, `Discovery`, `Announcements`, `Questions`):
  every cached record is kept twice, in an indexed heap by deadline and in relational tables. The engine keeps the two and
  the last snapshot in step through any sequence of calls, and a consumer that applies its commands always holds the last
  snapshot. After a tick that is exactly the services which the latest unexpired records describe, and what the engine asks,
  and when, is stated from the calls alone.
- **Fastboot over UDP** (`Udp`): stop-and-wait over channels that lose and repeat datagrams but keep their order, against
  a device that follows "UDP Protocol v1" of the AOSP fastboot README. Every packet is handled exactly once, and reads and
  writes carry the bytes exactly, across continuations and the wrap of the 16-bit number.
- **Sparse images** (`LittleEndian`, `Sparse`, `SparseSplit`, `SparseFlash`): the file format both ways, expansion, and
  the greedy split for a download limit, with its exact success condition, its soundness, and its optimality.
- **AIDL** (`AidlExpression`, `AidlLexer`, `AidlLiterals`, `AidlTypes`, `AidlAnnotations`, `AidlParser`): the
  precedence-climbing parser that prints as it parses, against a grammar and down to characters, and the type parser with
  its annotations, which splits `>>` in its own token list.
- **Raw fastboot responses** (`Responses`, `Noise`, `RawTransport`): a scanner for a stream that marks no ends, exactly
  where two reads may part, and what becomes of other bytes.
- **Boot images, debouncing, quoting** (`BootPages`, `BootHeader`, `BootImage`, `Debouncer`, `ShellQuoting`): image layout
  both ways, the timing of a debounced callback, and shell quoting against section 2.2 of POSIX.1-2017, Shell Command
  Language.

Objects that the source updates in place are classes with their fields; loops are loops with invariants. Each such method is
proved against a specification function or a property, and the main results are lemmas about those. `Wrappers` holds what
several modules share. `dafny verify dfyconfig.toml` checks everything.

## Where the code falls short of a promise

- Full service names need not be unique: a label may hold dots, so a type can read in two ways, or extend another. Then the
  two copies of the cache can part. The exact condition is `Rr.FqNameInjectiveIff` and `Discovery.CopiesAgreeIff`; a delete
  command needs `Discovery.HandlesIff`. The engine is modelled for types that meet both, which its built-in ones do.
- The check at the top of `split` is not enough for blocks under four bytes (`SparseFlash.SmallBlocksCanFail`), nor for raw
  chunks that lack bytes (`SparseFlash.MissingBytesStop`); the exact condition is `SparseFlash.SplitSucceedsIff`.
- After a call over UDP has failed, the next packet goes out under the same number, and may be taken for answered although
  the device never handles it. The exact condition is `Udp.NextIsSafeIff`; a caller can only repeat the same packet
  (`Udp.OnlyRepeatIsSafe`).
- The boot image parser stops on some inputs of 12 to 43 bytes (`BootImage.StopsIff`).
- A boot image of version 0 to 2 whose kernel is 3 or 4 bytes long is taken for version 3 or 4 (`BootImage.BuildRoundTrip`).
- The builder writes a device tree for versions 3 and 4 that the parser does not give back, and drops their second stage
  (`BootImage.WhatIsLost`).
- Responses on a raw stream are misheard when they are not clean or when reads part badly, even between responses
  (`Responses.HeardInReads`, `Responses.BetweenIsNotEnough`).
- A pending network signal is dropped when its senders go away in its last wait (`Debouncer.AnsweredIff`,
  `Debouncer.SendersLeave`).
- The cap on debouncing is six seconds, but a callback can come later, up to nine seconds after the timer was armed
  (`Debouncer.CapKeptIff`, `Debouncer.CapPassed`).
- The AIDL lexer refuses `6/2`, and every `/` before an operand, so the parser never sees a division that it could parse
  (`AidlLexer.DivisionRefused`, `AidlLexer.NoTextDivides`).
- The text built for an expression has no escapes: exactly the strings with a quote or a backslash, and the character
  backslash, are not read back from it (`AidlLexer.NormalFormText`).
- A hexadecimal literal that ends in a small `f` loses that digit (`AidlLexer.HexReadIff`).

## Model

| member | source | states |
|---|---|---|
| `Rr.FqNameInjectiveIff` | crates/adb-mdns/src/rr.rs:54-57 | over the names packets can carry for the tracked types, full names tell services apart if and only if each type reads in at most one way as service type and domain, and none that reads extends another that does by what an instance label can hold |
| `Rr.ThreeDotsCollide` | crates/adb-mdns/src/rr.rs:54-57 | a tracked type of four short labels has two names that print the same, cut in two ways |
| `Rr.SameFqName` | crates/adb-mdns/src/rr.rs:42-57 | where each type reads in one way and none extends another, names that print the same are the same in every field |
| `Rr.Collision` | crates/adb-mdns/src/rr.rs:42-57 | otherwise, two different names of non-empty labels, within the lengths of section 2.3.4 of RFC 1035, that print the same |
| `Rr.PlainIsUnmistakable` | crates/adb-mdns/src/rr.rs:42-57 | types of at most two dots are such |
| `Rr.KeyIsEquality` | crates/adb-mdns/src/rr.rs:70-122 | the map key of a record is equal exactly when the record's own equality says so, kind by kind |
| `IndexMinPq.RootIsLeast` | crates/adb-mdns/src/index_min_pq.rs:89-91 | the root of an ordered heap has the least deadline of all entries |
| `IndexMinPq.SwimStep` | crates/adb-mdns/src/index_min_pq.rs:124-132 | a swap with the parent moves the only possible disorder to the parent |
| `IndexMinPq.SinkStep` | crates/adb-mdns/src/index_min_pq.rs:134-162 | a swap with the smallest child moves the only possible disorder to that child |
| `IndexMinPq.IndexMinPQ.Swap` | crates/adb-mdns/src/index_min_pq.rs:113-122 | exchanges two entries and keeps every index entry pointing at its record |
| `IndexMinPq.IndexMinPQ.Swim` | crates/adb-mdns/src/index_min_pq.rs:124-132 | repairs a heap whose only disorder is above one place, same records |
| `IndexMinPq.IndexMinPQ.Sink` | crates/adb-mdns/src/index_min_pq.rs:134-162 | repairs a heap whose only disorder is below one place, same records |
| `IndexMinPq.IndexMinPQ.Push` | crates/adb-mdns/src/index_min_pq.rs:46-69 | a record replaces the one with its key or is added; order and index hold again, whichever way the deadline moved |
| `IndexMinPq.IndexMinPQ.Pop` | crates/adb-mdns/src/index_min_pq.rs:71-87 | removes a record whose deadline is least of all, and only that; nothing only when empty |
| `IndexMinPq.IndexMinPQ.Peek` | crates/adb-mdns/src/index_min_pq.rs:89-91 | gives a held record whose deadline is least of all; nothing only when empty |
| `IndexMinPq.IndexMinPQ.IntoSortedVec` | crates/adb-mdns/src/index_min_pq.rs:164-172 | gives every held record once, by rising deadline, and leaves nothing |
| `IndexMinPq.IndexMinPQ.Clear` | crates/adb-mdns/src/index_min_pq.rs:15-20 | leaves an empty, ordered queue |
| `RecordStore.Store.Add` | crates/adb-mdns/src/store.rs:123-143 | exactly one place of the five tables changes, to what the record holds, and no host keeps an empty address set |
| `RecordStore.Store.Remove` | crates/adb-mdns/src/store.rs:145-177 | exactly one place of the five tables is emptied, and a host's entry goes with its last address |
| `RecordStore.Added` | crates/adb-mdns/src/store.rs:123-143 | a record changes what is found at its place to what it holds, and nothing else |
| `RecordStore.DropAddress` | crates/adb-mdns/src/store.rs:145-177 | exactly one address goes, and the host with its last |
| `RecordStore.Store.Len` | crates/adb-mdns/src/store.rs:66-77 | the number of occupied places, addresses counted one by one |
| `RecordStore.Store.Snapshot` | crates/adb-mdns/src/store.rs:79-121 | the services that have a pointer, a location and an address, with their details |
| `RecordStore.CountAddresses` | crates/adb-mdns/src/store.rs:66-77 | the loop over hosts counts pairs of host and address |
| `RecordStore.LocsAreHeld` | crates/adb-mdns/src/store.rs:26-33 | a place is counted if and only if something is stored there |
| `RecordStore.KeyLocInjective` | crates/adb-mdns/src/store.rs:123-177 | where full names tell services apart, different queue keys have different places in the store |
| `RecordStore.AgreesAdd` | crates/adb-mdns/src/zero_config.rs:213-219 | adding a record to queue and store keeps the two copies the same |
| `RecordStore.AgreesRemove` | crates/adb-mdns/src/zero_config.rs:411-414 | dropping a record from queue and store keeps the two copies the same |
| `RecordStore.AgreesSize` | crates/adb-mdns/src/zero_config.rs:443-443 | two copies that agree have the same number of records, the sizes the code logs side by side |
| `RecordStore.DescribedByEntries` | crates/adb-mdns/src/store.rs:79-121 | a service can be read off the tables if and only if the queue holds its pointer, location and an address |
| `RecordStore.SnapshotOfRecords` | crates/adb-mdns/src/store.rs:79-121 | the snapshot lists a service if and only if the queued records advertise it, with the details those records give |
| `Lifecycle.ProbeAdvances` | crates/adb-mdns/src/zero_config.rs:416-440 | a due record that has not expired moves to the next probe, strictly later, never past its expiry, with one probe fewer to go |
| `Lifecycle.FirstMark` | crates/adb-mdns/src/rr.rs:163-173 | a new record waits for 80 % of its TTL and expires at 100 % |
| `Lifecycle.NextMark` | crates/adb-mdns/src/zero_config.rs:417-437 | a probe moves the deadline to the first of 80, 85, 90, 95 and 100 % of the TTL after now, in nanoseconds |
| `Lifecycle.ProbesAreHits` | crates/adb-mdns/src/zero_config.rs:397-441 | ticks at rising times ask for a record once for each of the intervals from 80, 85, 90 and 95 % to the next mark in which one of them comes |
| `Lifecycle.FourProbes` | crates/adb-mdns/src/rr.rs:126-174 | a record nobody refreshes is asked for exactly four times if the engine ticks at its deadlines, and is then gone |
| `Lifecycle.ScheduledBeforeExpiry` | crates/adb-mdns/src/rr.rs:136-173 | a record on schedule needs attention between its creation and its expiry |
| `Lifecycle.UnrefreshedRecord` | crates/adb-mdns/src/zero_config.rs:397-441 | over any tick times, in any order, an unrefreshed record is asked for at most four times and is gone if and only if some tick came at or after its expiry |
| `Lifecycle.SweptIsFresh` | crates/adb-mdns/src/zero_config.rs:397-441 | after a sweep every queued record is on schedule, unexpired, and next due after now |
| `Lifecycle.SweepStep` | crates/adb-mdns/src/zero_config.rs:399-441 | each pass of the loop deals with one due record for good |
| `Lifecycle.SweepDone` | crates/adb-mdns/src/zero_config.rs:399-441 | when nothing is due the loop's result is the sweep of the whole queue |
| `Replay.DiffCommands` | crates/adb-mdns/src/zero_config.rs:318-364 | one command for each service that came, went or changed, and none for the others |
| `Replay.ReplayReports` | crates/adb-mdns/src/zero_config.rs:318-364 | applying the reports of some services in any order brings a consumer's copy up to date for exactly those |
| `Replay.ReplayDiff` | crates/adb-mdns/src/zero_config.rs:318-364 | a consumer that mirrored the old snapshot and applies the commands mirrors the new one |
| `Replay.DiffIsApt` | crates/adb-mdns/src/zero_config.rs:318-364 | no command of a diff is idle: a service is created when it is not there, updated when it is there and differs, deleted when it is there |
| `Replay.MirrorUnique` | crates/adb-mdns/src/zero_config.rs:318-364 | a snapshot has one mirror |
| `Replay.ApplyConcat` | crates/adb-mdns/src/zero_config.rs:318-364 | commands may be applied in batches |
| `Discovery.LastRecordWins` | crates/adb-mdns/src/zero_config.rs:237-316 | of the records of a packet with one key the last is kept, with its own time to live, from now on |
| `Discovery.NoRecordNoChange` | crates/adb-mdns/src/zero_config.rs:237-316 | a key that no record of a packet carries keeps its record |
| `Discovery.TrackedDistinguishable` | crates/adb-mdns/src/zero_config.rs:318-364 | for types that can be told apart, reported services have different instance names or types |
| `Discovery.HandlesIff` | crates/adb-mdns/src/zero_config.rs:318-364 | instance name and type, all a delete command carries, tell services apart if and only if tracked types with one service type have one domain |
| `Discovery.ReplayTick` | crates/adb-mdns/src/zero_config.rs:397-454 | a consumer that mirrored the snapshot before a tick mirrors the one after it, batched questions included |
| `Discovery.NothingExpiredIsStored` | crates/adb-mdns/src/zero_config.rs:397-441 | after a tick every entry of the store belongs to a queued record whose deadline is ahead and not after its expiry |
| `Discovery.PassDrops` | crates/adb-mdns/src/zero_config.rs:411-414 | dropping an expired record keeps queue, store and snapshot in step |
| `Discovery.PassProbes` | crates/adb-mdns/src/zero_config.rs:416-440 | putting a probed record back keeps queue, store and snapshot in step |
| `Discovery.MistakenTypesPart` | crates/adb-mdns/src/zero_config.rs:207-219 | where full names do not tell services apart, two records that can come after which no store agrees with the queue |
| `Discovery.CopiesAgreeIff` | crates/adb-mdns/src/zero_config.rs:207-219 | some store holds what the queue holds, whatever records arrive, if and only if full names tell the tracked services apart |
| `Discovery.BuiltInsAreSeparable` | crates/adb-mdns/src/zero_config.rs:151-167 | the three service types the engine is started with meet both conditions |
| `Discovery.ZeroConfig.constructor` | crates/adb-mdns/src/zero_config.rs:151-167 | an engine with nothing cached, all copies in step, tracking the given types, which can be told apart |
| `Discovery.ZeroConfig.TrackService` | crates/adb-mdns/src/zero_config.rs:207-211 | tracks a type that can be told apart from the others, from now on; everything stays in step |
| `Discovery.ZeroConfig.OnStart` | crates/adb-mdns/src/zero_config.rs:173-175 | every tracker is due now, nothing else changes |
| `Discovery.ZeroConfig.AddRR` | crates/adb-mdns/src/zero_config.rs:213-219 | the record replaces the one with its key in both copies |
| `Discovery.ZeroConfig.ProcessQueries` | crates/adb-mdns/src/zero_config.rs:221-235 | exactly the trackers that another host asked about are put off by the refresh interval |
| `Discovery.ZeroConfig.ProcessRecords` | crates/adb-mdns/src/zero_config.rs:237-316 | the queue becomes what the records make of it, in order, and the store follows |
| `Discovery.ZeroConfig.PushRecords` | crates/adb-mdns/src/zero_config.rs:370-387 | questions, then answers, additional and name server records, in that order |
| `Discovery.ZeroConfig.SweepDue` | crates/adb-mdns/src/zero_config.rs:397-441 | ends; the queue is swept, and there is one question for each due unexpired record |
| `Discovery.ZeroConfig.Attend` | crates/adb-mdns/src/zero_config.rs:404-440 | takes out a due record, drops it if expired, else asks for it and puts it back probed |
| `Discovery.ZeroConfig.CreateDiffCommands` | crates/adb-mdns/src/zero_config.rs:318-364 | reports the differences to the last snapshot and takes the new one |
| `Discovery.RefreshDue` | crates/adb-mdns/src/zero_config.rs:177-198 | asks for exactly the trackers that are due and puts them off |
| `Discovery.ZeroConfig.TickTrackerServices` | crates/adb-mdns/src/zero_config.rs:177-198 | with periodic refresh, asks for exactly the due trackers; without it, does nothing |
| `Discovery.EarliestTracker` | crates/adb-mdns/src/zero_config.rs:456-478 | a tracker whose next query is earliest |
| `Discovery.ZeroConfig.CalculateNextAttentionDuration` | crates/adb-mdns/src/zero_config.rs:456-478 | a positive sleep over no deadline, and exactly to one, or the idle time |
| `Discovery.ZeroConfig.BatchQuestions` | crates/adb-mdns/src/zero_config.rs:389-395 | all questions of a tick leave in one command, none if there are none |
| `Discovery.ZeroConfig.Tick` | crates/adb-mdns/src/zero_config.rs:397-454 | queue swept, snapshot taken, changes reported, questions batched, trackers refreshed, and the sleep right, all copies in step |
| `Discovery.ZeroConfig.OnStop` | crates/adb-mdns/src/zero_config.rs:200-205 | nothing is cached and the commands take every reported service back |
| `Discovery.ZeroConfig.CacheSizes` | crates/adb-mdns/src/zero_config.rs:443-443 | both copies report the same size |
| `Discovery.Handle` | crates/adb-mdns/src/zero_config.rs:151-454 | one call of any kind keeps the engine in step and an up-to-date consumer up to date |
| `Discovery.Run` | crates/adb-mdns/src/zero_config.rs:151-454 | after any sequence of calls, those that track further types included, with any clock readings, a consumer that applied every command holds exactly the last snapshot, and nothing after a stop; no command was idle |
| `Announcements.KeptAsSaid` | crates/adb-mdns/src/zero_config.rs:237-316 | of a record of each kind what is kept is what its fields say, under what it is about: a name of four labels read as instance, type and domain, an attribute without value as the empty one |
| `Announcements.HistoryFaithful` | crates/adb-mdns/src/zero_config.rs:237-316 | over any calls the queue holds the latest record about each host address and tracked service, unless it had expired by the last tick |
| `Announcements.SnapshotOfHistory` | crates/adb-mdns/src/zero_config.rs:237-316 | after any calls that end with a tick the snapshot lists exactly the services with a pointer, an endpoint and an address of its host among the latest records that have not expired, with the host, port, addresses and attributes these give |
| `Announcements.Watch` | crates/adb-mdns/src/zero_config.rs:151-454 | after any calls on a new engine, the clock not going back, that end with a tick, a consumer holds exactly the services so announced |
| `Questions.AskedByName` | crates/adb-mdns/src/zero_config.rs:480-508 | a record is asked for by the name and the kind it came under |
| `Questions.TickAsks` | crates/adb-mdns/src/zero_config.rs:397-508 | a tick asks for each due record that has not expired and for each type whose time has come, and for nothing else |
| `Questions.AskedIff` | crates/adb-mdns/src/zero_config.rs:173-198 | over any calls: at a tick or a stop a tracked type is asked for if and only if periodic refresh is on and nobody has asked for it, as far as was heard, in the 120 seconds before, unless it was started anew since |
| `Questions.AskedRarely` | crates/adb-mdns/src/zero_config.rs:173-198 | two ticks that ask for a type are 120 seconds apart, unless it is started anew between them |
| `Questions.BuiltInTypes` | crates/adb-mdns/src/zero_config.rs:117-119 | the three types an engine is started with |
| `Udp.HeaderRoundTrip` | crates/fastboot-protocol/src/udp.rs:34-67 | a four-byte header is read back whatever follows; a two-byte one keeps the flags and the low half of the number |
| `Udp.HeaderBytes` | crates/fastboot-protocol/src/udp.rs:40-49 | identifier, flags, and the number with its high half first; the short form has flags and the low half |
| `Udp.ClipIsFront` | crates/fastboot-protocol/src/udp.rs:207-211 | of an answer the client sees at most 8188 bytes, from its front |
| `Udp.MoveKeepsWaiting` | crates/fastboot-protocol/src/udp.rs:189-239 | while a packet is out, any loss, repetition or device step keeps: not yet handled and expected, or handled once and answered, with only this and the previous number in flight |
| `Udp.MovesKeepWaiting` | crates/fastboot-protocol/src/udp.rs:189-239 | the same over any sequence of such steps |
| `Udp.MovesKeepQuiet` | crates/fastboot-protocol/src/udp.rs:189-239 | between exchanges, stray copies of the past change nothing at the device |
| `Udp.TwoNumbers` | crates/fastboot-protocol/src/udp.rs:189-239 | the client's number is the device's or one behind it, wrap-around included, and only two numbers are in flight |
| `Udp.TakeAnswer` | crates/fastboot-protocol/src/udp.rs:189-239 | an answer with the client's number is the device's answer to this very packet, handled exactly once; any other is stale |
| `Udp.NextIsSafeIff` | crates/fastboot-protocol/src/udp.rs:189-239 | after a given-up exchange the next packet has the same number; whatever the network does, an answer the client accepts is the device's to that packet, if and only if the packet is the same, or the old one is gone unhandled, or its answer would not pass for one to the new |
| `Udp.OldAnswer` | crates/fastboot-protocol/src/udp.rs:189-239 | otherwise some behaviour of the network makes the client take the answer to the old packet for one to the new, which the device never handles |
| `Udp.OnlyRepeatIsSafe` | crates/fastboot-protocol/src/udp.rs:189-239 | not knowing what became of the old packet, a caller is safe with the next one under its number if and only if it is the same packet again |
| `Udp.DialogueFacts` | crates/fastboot-protocol/src/udp.rs:189-239 | a logical packet carries its payload once, prompts are empty, and the answers' bytes come back in order, errors apart |
| `Udp.DialogueSplits` | crates/fastboot-protocol/src/udp.rs:189-239 | the answers up to the first error are the data and those from it on the error; prompts repeat the packet's identifier, or that of an error once there was one |
| `Udp.PiecesFacts` | crates/fastboot-protocol/src/udp.rs:299-321 | a buffer is cut into packets in order, none over the limit, all but the last full and flagged as continued |
| `Udp.ConversationFacts` | crates/fastboot-protocol/src/udp.rs:299-321 | prompts add no bytes and no larger packet to what was asked for |
| `Udp.PlainConversation` | crates/fastboot-protocol/src/udp.rs:299-321 | a device that answers at once handles exactly the packets of the write |
| `Udp.WritingStep` | crates/fastboot-protocol/src/udp.rs:299-321 | one more packet of a write goes through with its continuations |
| `Udp.WritingStops` | crates/fastboot-protocol/src/udp.rs:299-321 | wherever a write stops, the device has consumed a front part of the buffer |
| `Udp.Network.Send` | crates/fastboot-protocol/src/udp.rs:189-239 | a datagram is put on the channel or not, then anything the network can do may happen |
| `Udp.Network.Recv` | crates/fastboot-protocol/src/udp.rs:189-239 | anything may happen, then the oldest datagram is taken, or a timeout or failure comes |
| `Udp.UdpTransport.Transmit` | crates/fastboot-protocol/src/udp.rs:189-239 | retransmits until the answer to this packet is in hand; the device handled it once, at most once after an error, also when the same packet is tried again; it gives up only when, since the call began, it sent the packet as often as allowed and each time nothing with its number came back, or the socket failed before that |
| `Udp.UdpTransport.SendPacketWithAck` | crates/fastboot-protocol/src/udp.rs:189-239 | the device handles exactly the packet and its prompts, and the result is its data, as far as the receive buffer holds it, or its errors; else its last exchange, with the number the client still has, was given up in that sense during this call |
| `Udp.UdpTransport.Read` | crates/fastboot-protocol/src/udp.rs:266-296 | gives what is left of an answer, or the whole of the next one across continuations, or refuses a buffer too small; fails only if the device answers with an error or an exchange of this call was given up |
| `Udp.UdpTransport.Write` | crates/fastboot-protocol/src/udp.rs:298-321 | on success the device consumed the buffer once and in order in packets within the negotiated size; after an error a front part of it, and the device refused or an exchange of this call was given up |
| `Udp.PlayConsumes` | crates/fastboot-protocol/src/udp.rs:266-321 | over any calls the device consumes the buffers written, once and in order, and nothing else |
| `Udp.MakeCall` | crates/fastboot-protocol/src/udp.rs:266-321 | one read or write does what the script says, or fails because the device refuses or an exchange of this call was given up |
| `Udp.Session` | crates/fastboot-protocol/src/udp.rs:266-321 | any sequence of reads and writes up to the first failure: each outcome is the scripted one, the consumed bytes are the concatenated writes, and of a failing write a front part; the failing call was refused by the device or one of its exchanges was given up |
| `Sparse.SpanIsProduct` | crates/fastboot-protocol/src/sparse.rs:363-392 | block spans are the products the code multiplies out |
| `Sparse.FitsIsQuotient` | crates/fastboot-protocol/src/sparse.rs:496-512 | block counts are the quotients the code divides out |
| `Sparse.ExpandSize` | crates/fastboot-protocol/src/sparse.rs:363-392 | a well-formed image never expands beyond its blocks, and to exactly its blocks if and only if every fill is of whole words and no checksum claims bytes |
| `Sparse.WordBlocksFill` | crates/fastboot-protocol/src/sparse.rs:363-392 | a well-formed image whose block size is a multiple of four and whose checksums claim no blocks expands to exactly its blocks |
| `Sparse.Low32IsRemainder` | crates/fastboot-protocol/src/sparse.rs:251-258 | the size fields are remainders modulo 2 to the 32 |
| `LittleEndian.ReadsWeighed` | crates/fastboot-protocol/src/sparse.rs:85-127 | integers of 16, 32 and 64 bits are read with the least significant byte first |
| `Sparse.ToRaw` | crates/fastboot-protocol/src/sparse.rs:363-392 | raw data as it is, fill words repeated, holes as zeros, checksums as nothing, in order |
| `Sparse.ExpandByte` | crates/fastboot-protocol/src/sparse.rs:363-392 | byte by byte: data as it is, the word of a fill repeated from its first byte on, zeros for a hole, each chunk where the blocks before it end |
| `Sparse.Encode` | crates/fastboot-protocol/src/sparse.rs:316-332 | the header with recomputed totals, then every chunk with its size cut to 32 bits |
| `Sparse.FromBytes` | crates/fastboot-protocol/src/sparse.rs:394-466 | the checks of the format in order, with their errors, and the chunks they accept |
| `Sparse.ReadsIff` | crates/fastboot-protocol/src/sparse.rs:394-466 | bytes are read as a file if and only if they are laid out as one, with headers of any length the format allows: fields at their offsets, chunk after chunk, each with the payload its type demands |
| `Sparse.HeaderRefusals` | crates/fastboot-protocol/src/sparse.rs:81-127 | the first thing wrong with a file header is reported, with these values |
| `Sparse.ChunkRefusals` | crates/fastboot-protocol/src/sparse.rs:399-453 | the first thing wrong with a chunk is reported, with these values |
| `Sparse.DecodedIsShaped` | crates/fastboot-protocol/src/sparse.rs:394-466 | whatever is accepted has the payload its type demands, and as many chunks as announced |
| `Sparse.DecodeEncodedHeader` | crates/fastboot-protocol/src/sparse.rs:50-127 | a header of standard sizes is read back from its bytes |
| `Sparse.DecodeEncodedFile` | crates/fastboot-protocol/src/sparse.rs:316-332 | a shaped file is read back from its encoding, totals filled in, of the size announced |
| `Sparse.PaddedIsLeast` | crates/fastboot-protocol/src/sparse.rs:334-361 | padding gives the least whole number of blocks that holds the data, zeros after it |
| `Sparse.FromRawExpands` | crates/fastboot-protocol/src/sparse.rs:334-361 | an image made of raw data expands to that data padded to whole blocks |
| `Sparse.FromRawHeader` | crates/fastboot-protocol/src/sparse.rs:334-361 | a header of version 1.0 that counts the blocks, of the given size or of 4096 bytes for none, and one chunk, or none for no data |
| `SparseSplit.TakeConserves` | crates/fastboot-protocol/src/sparse.rs:482-596 | filling one file conserves blocks and stays within its size |
| `SparseSplit.SplitFilesGood` | crates/fastboot-protocol/src/sparse.rs:482-596 | every file of a split is non-empty, well formed and within its size |
| `SparseSplit.SplitKeepsImage` | crates/fastboot-protocol/src/sparse.rs:482-596 | the files in order are the image: same expansion, same checksums, same blocks |
| `SparseSplit.LiveKeepsImage` | crates/fastboot-protocol/src/sparse.rs:485-489 | leaving out empty chunks and a checksum's block count does not change the image |
| `SparseSplit.TakeReaches` | crates/fastboot-protocol/src/sparse.rs:482-596 | a file filled greedily reaches as far as any that fits |
| `SparseSplit.StaysAhead` | crates/fastboot-protocol/src/sparse.rs:482-596 | from no earlier a start, the greedy split needs no more files than any other |
| `SparseSplit.PlaceRawSplits` | crates/fastboot-protocol/src/sparse.rs:494-523 | placing one raw chunk piece by piece is a step of the whole split |
| `SparseSplit.PlaceWholeSplits` | crates/fastboot-protocol/src/sparse.rs:524-586 | so is placing one chunk that is not cut |
| `SparseSplit.SplitRaw` | crates/fastboot-protocol/src/sparse.rs:494-523 | the inner loop ends and cuts a raw chunk at block boundaries into the open file and new ones, losing nothing; it stops on a slice out of range if and only if the chunk lacks bytes |
| `SparseSplit.SplitWhole` | crates/fastboot-protocol/src/sparse.rs:524-586 | places a chunk whole, and fails if and only if it has no place in an empty file |
| `SparseSplit.SplitChunk` | crates/fastboot-protocol/src/sparse.rs:486-589 | one chunk fails exactly with its own fault, whatever its payload; a well-formed one is placed in order, cut at block boundaries if it is raw and whole otherwise, and the block count stays within 32 bits |
| `SparseSplit.Split` | crates/fastboot-protocol/src/sparse.rs:468-597 | for any chunks, well formed or not, the first fault in order decides whether and how it fails; well-formed ones are split greedily |
| `SparseFlash.NoFaultIff` | crates/fastboot-protocol/src/sparse.rs:482-590 | nothing fails in the loops exactly when no chunk has a fault of its own |
| `SparseFlash.SplitSucceedsIff` | crates/fastboot-protocol/src/sparse.rs:468-597 | a split, as `SparseSplit.Split` is specified within its 32-bit bounds, succeeds if and only if there are blocks, the limit holds the two headers and a block, and every chunk not skipped is of a known type with room for its word and with all its raw bytes |
| `SparseFlash.SplitRefusals` | crates/fastboot-protocol/src/sparse.rs:468-597 | what a split reports: no blocks, then too small a limit, then the fault of the first chunk that has one |
| `SparseFlash.WideBlocksSucceedIff` | crates/fastboot-protocol/src/sparse.rs:468-480 | for blocks of four bytes or more and known types, the check at the top is the only one, apart from missing raw bytes |
| `SparseFlash.SmallBlocksCanFail` | crates/fastboot-protocol/src/sparse.rs:468-480 | for smaller blocks that check passes an image that cannot be split |
| `SparseFlash.MissingBytesStop` | crates/fastboot-protocol/src/sparse.rs:511-514 | a raw chunk of one block without payload passes the check and stops the split |
| `SparseFlash.DecodedNeverStops` | crates/fastboot-protocol/src/sparse.rs:394-597 | a file read from bytes is well formed, and its split never stops so |
| `SparseFlash.SplitIsSound` | crates/fastboot-protocol/src/sparse.rs:468-597 | every piece fits, survives encoding and decoding, and together they expand to the original; checksums and blocks are conserved in order |
| `SparseFlash.FewestFiles` | crates/fastboot-protocol/src/sparse.rs:468-597 | the split is one of the ways to cut the image in order at block boundaries within the limit, and none of those has fewer files |
| `SparseFlash.FlashPipeline` | crates/fastboot-protocol/src/sparse.rs:316-597 | raw data made sparse, split, encoded, decoded and expanded piece by piece is the data padded to whole blocks |
| `AidlExpression.ExpressionSound` | crates/aidl-rs/src/parser.rs:572-609 | what the parser gives is a tree of the precedence grammar over exactly the tokens it took, and it stopped where it had to |
| `AidlExpression.ExpressionReads` | crates/aidl-rs/src/parser.rs:572-609 | the tokens of any tree of the grammar parse to that tree |
| `AidlExpression.ParserIsGrammar` | crates/aidl-rs/src/parser.rs:568-638 | parser and grammar agree in both directions, on the tree and on what is left |
| `AidlExpression.Unambiguous` | crates/aidl-rs/src/parser.rs:568-638 | the grammar, with prefix operators taking multiplicative ones along, has one tree for a text |
| `AidlExpression.TwoOperators` | crates/aidl-rs/src/parser.rs:603-638 | of two operators from the ten levels, listed by their tokens, the one of the later level takes its operands first, and of one level the left one |
| `AidlExpression.PrefixAndOperator` | crates/aidl-rs/src/parser.rs:572-638 | a prefix operator takes multiplication, division and remainder after it with its operand, and no other operator |
| `AidlExpression.Smallest` | crates/aidl-rs/src/parser.rs:572-601 | a literal or name alone, after a prefix operator, or in parentheses |
| `AidlExpression.FirstToken` | crates/aidl-rs/src/parser.rs:572-601 | an expression starts with a literal, a name, one of four prefix operators or a parenthesis |
| `AidlExpression.OthersEnd` | crates/aidl-rs/src/parser.rs:603-638 | any other token ends the expression |
| `AidlExpression.Refusals` | crates/aidl-rs/src/parser.rs:572-601 | a token that starts no expression is reported, and so is the one found for a missing parenthesis |
| `AidlExpression.TextIsNormal` | crates/aidl-rs/src/parser.rs:584-606 | looking at the first and last character is enough: the text built is that of the tree with each operation in one pair of parentheses |
| `AidlExpression.NormalForm` | crates/aidl-rs/src/parser.rs:568-638 | the text built parses again to the same text and the same operators and operands, so to the same value under any meaning of them |
| `AidlLexer.DecimalRoundTrip` | crates/aidl-rs/src/parser.rs:390-419 | an integer printed in decimal is read back |
| `AidlLexer.HexReadIff` | crates/aidl-rs/src/parser.rs:390-419 | a hexadecimal literal is read as its value if and only if that is within 63 bits and its last digit is not a small f, which is taken for a suffix |
| `AidlLexer.StringReadIff` | crates/aidl-rs/src/parser.rs:331-358 | what a string says is read back between quotes if and only if it holds no quote and no backslash |
| `AidlLexer.CharRead` | crates/aidl-rs/src/parser.rs:359-375 | a character literal as it is printed is read back if and only if it is not the backslash |
| `AidlLexer.Tokenize` | crates/aidl-rs/src/parser.rs:126-329 | the loop over characters gives the tokens and the end mark, or fails |
| `AidlLexer.LexSpell` | crates/aidl-rs/src/parser.rs:126-329 | tokens that do not run together are read back from their characters if and only if no literal among them needs an escape and there is no single slash, which the lexer refuses |
| `AidlLexer.TextClear` | crates/aidl-rs/src/parser.rs:572-609 | in the text built no token runs into the next |
| `AidlLexer.TextLexes` | crates/aidl-rs/src/parser.rs:126-609 | the characters of the text of an expression give back its tokens if and only if it does not divide and no operand needs an escape |
| `AidlLexer.DivisionRefused` | crates/aidl-rs/src/parser.rs:134-165 | the lexer refuses 6/2 |
| `AidlLexer.NoTextDivides` | crates/aidl-rs/src/parser.rs:134-165 | no text is read as an expression that divides, wherever the expression stands in it |
| `AidlLexer.NormalFormText` | crates/aidl-rs/src/parser.rs:126-638 | from text to text: for an expression anywhere in any text, the characters of the text built for it are read back if and only if no operand needs an escape, and then parse to the same operators and operands and to the same text |
| `AidlLiterals.BlankSkipped` | crates/aidl-rs/src/parser.rs:129-132 | each of the 25 white-space characters of Unicode is skipped |
| `AidlLiterals.LettersAre` | crates/aidl-rs/src/parser.rs:377-388 | a word starts with a letter of the alphabet, small or capital, or an underscore |
| `AidlLiterals.HexDigitsAre` | crates/aidl-rs/src/parser.rs:390-419 | hexadecimal digits of either case count as they should, and there are no others |
| `AidlLiterals.LineComment` | crates/aidl-rs/src/parser.rs:134-165 | a comment up to the end of its line, or of the text, is skipped |
| `AidlLiterals.BlockComment` | crates/aidl-rs/src/parser.rs:134-165 | so is one up to its first closing mark, and without one the text is refused |
| `AidlLiterals.EscapedRead` | crates/aidl-rs/src/parser.rs:331-357 | any string is read from its escaped form |
| `AidlLiterals.StringTokenRead` | crates/aidl-rs/src/parser.rs:331-357 | and so is the token, with its quotes |
| `AidlLiterals.NeedlessEscape` | crates/aidl-rs/src/parser.rs:331-357 | a backslash before any other character stands for that character |
| `AidlLiterals.CharacterRead` | crates/aidl-rs/src/parser.rs:359-375 | a character between quotes, with or without a backslash |
| `AidlLiterals.SuffixIgnored` | crates/aidl-rs/src/parser.rs:390-419 | nor does one of the eleven suffixes after a decimal number |
| `AidlLiterals.UnderscoreIgnored` | crates/aidl-rs/src/parser.rs:390-419 | an underscore between digits says nothing |
| `AidlLiterals.FloatIff` | crates/aidl-rs/src/parser.rs:390-419 | a number with a point or an exponent is accepted if and only if it is digits, a point and digits or none, and an exponent of digits or none |
| `AidlTypes.FaultlessIsWellShaped` | crates/aidl-rs/src/parser.rs:934-976 | the shape checks pass if and only if only List and Map have arguments, one and two of them or none for Map, at every depth, and void is no array |
| `AidlTypes.Complaints` | crates/aidl-rs/src/parser.rs:934-973 | which complaint each kind of misshapen type gets, word by word |
| `AidlTypes.ComplaintsWithin` | crates/aidl-rs/src/parser.rs:974-986 | of the arguments the first complaint is passed on |
| `AidlTypes.TypeReads` | crates/aidl-rs/src/parser.rs:893-932 | however its closing brackets are paired, a well-shaped type of any depth parses to itself and leaves what follows |
| `AidlTypes.TypeRoundTrip` | crates/aidl-rs/src/parser.rs:893-986 | so with the brackets paired as a lexer pairs them |
| `AidlTypes.ParsedTypes` | crates/aidl-rs/src/parser.rs:893-986 | every type the parser gives is well shaped, and written out it parses to itself |
| `AidlTypes.TrailingComma` | crates/aidl-rs/src/parser.rs:903-915 | a comma after the last type argument changes nothing |
| `AidlAnnotations.AnnotationsRead` | crates/aidl-rs/src/parser.rs:528-566 | annotations are read as they are written: names, keys and the text of each value, in order |
| `AidlAnnotations.AnnotatedType` | crates/aidl-rs/src/parser.rs:893-932 | annotations, with or without arguments, change nothing about the type after them but that it is nullable if and only if one is called nullable |
| `AidlTypes.JoinSplit` | crates/aidl-rs/src/parser.rs:490-499 | a dotted name is put together again from its parts |
| `AidlTypes.WeightDrop` | crates/aidl-rs/src/parser.rs:978-986 | tokens counted with the double bracket as two go down with every token taken |
| `AidlParser.Parser.Advance` | crates/aidl-rs/src/parser.rs:438-452 | gives the next token and moves past it; past the end the last one again |
| `AidlParser.Parser.ParseExpressionBp` | crates/aidl-rs/src/parser.rs:572-609 | ends, and gives the text of the grammar's tree and leaves what the grammar leaves, or its error |
| `AidlParser.Parser.ParseOperators` | crates/aidl-rs/src/parser.rs:600-608 | the loop over binary operators, from what is read so far |
| `AidlParser.Parser.ParsePrimary` | crates/aidl-rs/src/parser.rs:573-598 | operand, prefix operation or parentheses |
| `AidlParser.Parser.ParseQualifiedIdent` | crates/aidl-rs/src/parser.rs:490-499 | identifiers joined by dots, as far as dots go |
| `AidlParser.Parser.ParseAnnotations` | crates/aidl-rs/src/parser.rs:528-566 | annotations with their keyed or plain arguments, as long as one follows |
| `AidlParser.Parser.ParseType` | crates/aidl-rs/src/parser.rs:893-932 | ends although it makes the token list longer, and gives the type of the specification or its error |
| `AidlParser.Parser.ParseTypeList` | crates/aidl-rs/src/parser.rs:901-915 | the loop over type arguments |
| `AidlParser.Parser.ExpectGenericClose` | crates/aidl-rs/src/parser.rs:978-986 | a double bracket closes one list and leaves a single one for the list around it |
| `AidlParser.Parser.ValidateTypeShape` | crates/aidl-rs/src/parser.rs:934-976 | the first complaint about a type, outermost first, or none |
| `Responses.HexRoundTrip` | crates/fastboot-protocol/src/response.rs:40-66 | a size written in hexadecimal digits is read back |
| `Noise.DigitsOfBothCases` | crates/fastboot-protocol/src/response.rs:47-66 | small and capital digits count as they should |
| `Noise.SizeIff` | crates/fastboot-protocol/src/response.rs:47-66 | the eight bytes of a size are a number if and only if they are hexadecimal digits, all or all after a plus sign |
| `Noise.WordsSpelled` | crates/fastboot-protocol/src/transport.rs:42-43 | the status words, letter by letter |
| `Responses.ScanInOrder` | crates/fastboot-protocol/src/transport.rs:504-582 | clean responses in the buffer are taken in order: messages logged up to the first answer, what follows it kept |
| `Responses.HeardInOrder` | crates/fastboot-protocol/src/transport.rs:504-582 | read at once, responses are heard once and in order if and only if no body holds a status word, makes one with the next, or is last and ends in part of one |
| `Responses.HeardInTwo` | crates/fastboot-protocol/src/transport.rs:504-592 | in two reads if and only if they are clean and the reads do not part inside a text, nor so that part of a status word seems to start in its end |
| `Responses.HeardInReads` | crates/fastboot-protocol/src/transport.rs:504-592 | in any number of reads that bring the stream, if and only if they are clean and all reads part at such places |
| `Responses.EndsIff` | crates/fastboot-protocol/src/transport.rs:80-106 | a body is taken to end where it does if and only if no word starts in it early and nothing at its end looks like part of one |
| `Responses.BetweenIsNotEnough` | crates/fastboot-protocol/src/transport.rs:92-100 | two responses that may not be read apart even between them |
| `Responses.HeardByReceives` | crates/fastboot-protocol/src/transport.rs:504-592 | single receives, with what each keeps for the next, hear what the stream holds |
| `Noise.BadSizeSkipped` | crates/fastboot-protocol/src/transport.rs:559-583 | a size that is no number is passed over, one byte at a time |
| `Noise.JunkSkipped` | crates/fastboot-protocol/src/transport.rs:527-557 | bytes in which no status word starts are dropped before one |
| `Noise.JunkDropped` | crates/fastboot-protocol/src/transport.rs:527-557 | a buffer without a status word is dropped but for the longest end that may grow into one |
| `Noise.ReceiveEnds` | crates/fastboot-protocol/src/transport.rs:504-592 | a receive that finds its answer leaves what comes later; one that does not ends with the stream or its error, and the messages logged until then |
| `RawTransport.FindWord` | crates/fastboot-protocol/src/transport.rs:85-90 | the first status word |
| `RawTransport.FindPartial` | crates/fastboot-protocol/src/transport.rs:93-100 | the part of a status word that the buffer ends in |
| `RawTransport.ParseOneResponse` | crates/fastboot-protocol/src/transport.rs:63-109 | one response with the bytes it takes, too short, or invalid |
| `RawTransport.ScanBuffer` | crates/fastboot-protocol/src/transport.rs:522-582 | the inner loop ends, as each pass that goes on has a shorter buffer, with the scan of the buffer |
| `RawTransport.Connection.RecvResponseWithInfo` | crates/fastboot-protocol/src/transport.rs:504-592 | reads until an answer is in the buffer, the peer closes or the socket fails; logs in order, leftovers kept |
| `BootPages.AndHighOnes` | crates/fastboot-protocol/src/boot_image.rs:942-944 | a mask of high ones clears exactly the low bits |
| `BootPages.AlignUpIsLeast` | crates/fastboot-protocol/src/boot_image.rs:942-944 | for powers of two the masked sum is the least multiple not below |
| `BootPages.PowersOnly` | crates/fastboot-protocol/src/boot_image.rs:690-697 | the test for page sizes accepts the powers of two and nothing else |
| `BootHeader.HeaderRoundTrip` | crates/fastboot-protocol/src/boot_image.rs:291-571 | a header of any version is read back with the fields its version stores, if and only if an old one does not give 3 or 4 as the kernel's size |
| `BootHeader.DecodeRefusals` | crates/fastboot-protocol/src/boot_image.rs:402-449 | the magic word letter by letter, and what is reported for too few bytes, another word or an unknown version |
| `BootHeader.FixedRoundTrip` | crates/fastboot-protocol/src/boot_image.rs:958-988 | a fixed string comes back cut to its field and at its first zero |
| `BootHeader.EncodeHeader` | crates/fastboot-protocol/src/boot_image.rs:291-386 | the buffer written field by field and padded is the header's layout |
| `BootImage.BuildIsPages` | crates/fastboot-protocol/src/boot_image.rs:683-769 | an image is a whole number of pages |
| `BootImage.BuildRoundTrip` | crates/fastboot-protocol/src/boot_image.rs:683-936 | parsing a built image gives kernel and ramdisk back, the second stage for versions 0 to 2 and the device tree for version 2, if and only if an old image's kernel is not 3 or 4 bytes long |
| `BootImage.WhatIsLost` | crates/fastboot-protocol/src/boot_image.rs:683-936 | then the second stage comes back if and only if the version is at most 2 or there is none, and the device tree if and only if it is 2 or there is none |
| `BootImage.BuiltFields` | crates/fastboot-protocol/src/boot_image.rs:683-727 | a build has the caller's page size if it is a power of two, 2048 otherwise, and 4096 from version 3 on, with its sizes and the customary addresses |
| `BootImage.ParsesIff` | crates/fastboot-protocol/src/boot_image.rs:774-936 | bytes are parsed as an image if and only if the header is read, the page size is a power of two, and kernel, ramdisk, second stage and device tree stand one after the other in whole pages, the recovery overlay of version 1 at its own offset behind them |
| `BootImage.FirstMissing` | crates/fastboot-protocol/src/boot_image.rs:808-936 | the first section without room is reported, by name, place and size |
| `BootImage.UnknownVersion` | crates/fastboot-protocol/src/boot_image.rs:291-305 | an image built with an unknown version is refused by the parser |
| `BootImage.StopsIff` | crates/fastboot-protocol/src/boot_image.rs:402-449 | parsing stops on a slice out of range if and only if there are 12 to 43 bytes with the magic word and no version 3 or 4 |
| `BootImage.BuildBootImage` | crates/fastboot-protocol/src/boot_image.rs:683-769 | the image grown section by section is the layout |
| `BootImage.ParseBootImage` | crates/fastboot-protocol/src/boot_image.rs:774-936 | the offset moved section by section gives the sections, or the first error, or the stop |
| `Debouncer.WaitsWindow` | crates/adb-mdns/src/netwatch.rs:69-95 | a round fires no sooner than three and less than nine seconds after it was armed |
| `Debouncer.WaitsReason` | crates/adb-mdns/src/netwatch.rs:73-92 | it fires three seconds after its last signal, or at a signal once six seconds have gone by |
| `Debouncer.CapKeptIff` | crates/adb-mdns/src/netwatch.rs:51-92 | a round keeps the six-second cap if and only if its last signal came three seconds before it or earlier, or exactly at it |
| `Debouncer.CapPassed` | crates/adb-mdns/src/netwatch.rs:51-92 | signals at 0, 2.9 and 5.8 seconds: one callback after 8.8 seconds |
| `Debouncer.CapReached` | crates/adb-mdns/src/netwatch.rs:51-92 | a further signal is answered at once from six seconds on, and after three more before that |
| `Debouncer.RoundsTimely` | crates/adb-mdns/src/netwatch.rs:57-98 | in every run all rounds are so, and callbacks are at least three seconds apart |
| `Debouncer.EverySignalAnswered` | crates/adb-mdns/src/netwatch.rs:57-98 | while the senders stay every signal is answered by one round, in order |
| `Debouncer.WaitsClose` | crates/adb-mdns/src/netwatch.rs:73-95 | senders that go away change a round only if they do in its last wait, with nothing queued |
| `Debouncer.AnsweredIff` | crates/adb-mdns/src/netwatch.rs:57-98 | every signal is answered if and only if the senders stay, or go away after the last callback there would be, or as it is made without being seen to, or it is made at a signal |
| `Debouncer.SignalsAnsweredInTime` | crates/adb-mdns/src/netwatch.rs:57-98 | with callbacks that take no time, less than nine seconds after it came |
| `Debouncer.SendersLeave` | crates/adb-mdns/src/netwatch.rs:93-93 | a lone signal is never answered if its senders are seen to go away within the cutoff, and is answered at the cutoff otherwise |
| `Debouncer.AwaitQuiet` | crates/adb-mdns/src/netwatch.rs:73-95 | one round: a callback after a quiet time or at a signal past the maximum, or the end when the senders are gone, with the signals it took off the queue, as `Debouncer.WaitsReason` and `Debouncer.WaitsClose` describe them |
| `Debouncer.Debounce` | crates/adb-mdns/src/netwatch.rs:62-97 | a round for each signal that finds the timer unarmed, the next one armed after the callback: the rounds of `Debouncer.RoundsTimely` and `Debouncer.AnsweredIff` |
| `ShellQuoting.EscapeArg` | crates/adb-protocol/src/adb_utils.rs:10-30 | copying the runs between quotes gives every quote closed, escaped and opened again |
| `ShellQuoting.EscapeRead` | crates/adb-protocol/src/adb_utils.rs:10-30 | whatever it holds, a shell reads a quoted argument as itself, as part of one word |
| `ShellQuoting.ExecServiceString` | crates/adb-protocol/src/adb_utils.rs:41-52 | the program text as it is, then each argument quoted after a space |
| `ShellQuoting.CommandRead` | crates/adb-protocol/src/adb_utils.rs:41-52 | a shell reads the words of the program text and then every argument exactly |
| `ShellQuoting.PassedOnIff` | crates/adb-protocol/src/adb_utils.rs:41-52 | every argument list is passed on exactly, after a fixed front, if and only if the program text can be read by itself |
| `ShellQuoting.CommandRoundTrip` | crates/adb-protocol/src/adb_utils.rs:41-52 | with a program name of ordinary characters it reads the argument list itself |
| `ShellQuoting.QuoteInProgram` | crates/adb-protocol/src/adb_utils.rs:81-84 | a quote in the program name is passed on and leaves the command open |

## Left out

- Discovery.ZeroConfig.TrackService: takes types that can be told apart from those tracked; the source takes any. Otherwise
  the invariant is false, as `Discovery.CopiesAgreeIff` and `Discovery.HandlesIff` show.
- Discovery.ZeroConfig.constructor: the same holds for the types it is given.
- Lifecycle.ProbeAdvances: deadlines are exact fractions of the time to live; the source's floating-point rounding of them is
  not modelled.
- Udp.UdpTransport.Read: starts after a handshake and between calls that did not fail on the wire; what the next packet may
  meet after such a failure is `Udp.NextIsSafeIff`.
- Udp.UdpTransport.Write: the same.
- Udp.Network.Send: datagrams are packets with four-byte headers; the two-byte form appears only in `Udp.HeaderRoundTrip`.
- Udp.Network.Recv: an answer longer than the receive buffer is cut where the device sends it, not where it is received,
  which is the same to the client.
- Sparse.Encode: block totals are within 32 bits; the source's sum wraps or stops beyond that.
- SparseSplit.Split: the same, and the limit is within 32 bits. For chunks whose payload does not have the length of their
  type it states whether the split fails and how, not the files.
- Sparse.DecodeEncodedFile: headers have the standard 28 and 12 bytes; larger ones are read but not written back.
- AidlExpression.NormalForm: texts are the tokens they spell; `AidlLexer.NormalFormText` goes on to characters.
- AidlLexer.NormalFormText: not for operands with a point or an exponent; such a number is kept as it is spelled, and its
  floating-point value and the printing of it are not modelled.
- AidlLexer.Tokenize: an error is that there is one, without its kind and place.
- AidlParser.Parser.ParseType: errors carry what was expected and found, not the place in the text.
- Responses.ScanInOrder: bodies are bytes; their conversion to text, which replaces invalid UTF-8, is not modelled.
- BootImage.BuildRoundTrip: sections shorter than 4 GiB; the source cuts longer lengths to 32 bits.
- BootImage.BuildBootImage: the same.
- BootImage.WhatIsLost: the same.
- BootHeader.HeaderRoundTrip: names and command lines are bytes, as above.
- Debouncer.Debounce: the thread reacts at once; only the callback takes time.
- ShellQuoting.CommandRead: unquoted special characters are not interpreted; a command with one has no reading here.
- mDNS packet decoding, sockets, threads and the driver around the engine, and the commands' wire form: they hold no state of
  the cache.
- The debug log of `tick` apart from the two sizes it prints.
- The length-prefixed mode of the TCP transport, which marks the ends of responses, the handshakes of TCP and UDP, USB, TLS,
  and everything of adb but the quoting: message headers, SYNC, authentication and the command line.
- AIDL declarations: each is a fixed sequence of the types, names and expressions modelled here, without the insertion of
  tokens or the climbing of precedences.
- The Rust text that the AIDL generator prints, whose meaning is that of another compiler.
- The packing of OS versions in boot images, a fixed set of bit fields, and the vendor boot image.
- The iteration order of hash maps is arbitrary: commands of one tick are modelled in any order.
