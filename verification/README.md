# Models and proofs for the client's stateful cores

A Dafny 4.11 project about the parts of the client that keep state across calls, across goroutines
or across the wire. Each module models one component as the Go code has it (same branches, same
constants, same error paths) and proves what that component is for. `dafny verify dfyconfig.toml`
checks everything.

| modules | component |
|---|---|
| MemBuffer, Wakeup, Tokens, Json, Unambiguous, LogEntry, LogRewrite, LogEncoder, EntryNames, Batching, Drain | log upload pipeline (`logtail`): bounded buffer, wake-up protocol between writers and the drainer, encoding of a write as one JSON entry, batching |
| Bytes, Net, DerpFrame, DerpClient | DERP framing over buffered connections and the client's receive loop (`derp`) |
| Disco, DiscoCodec | disco peer-to-peer messages: printing and parsing (`disco`) |
| Health, HealthDeps | health tracker: events, visibility timers, dependency suppression (`health`) |
| QueueProbe, QueuePacing | queuing-delay probe of the DERP prober (`prober`) |
| Order, Labels, LabelMap, FillOnce | metric map with several labels (`metrics`): label text, sorted index, concurrent fill |
| PortList, PortPoller | listening-port poller (`portlist`) |
| AppConn, RateLogger | app connector address tables and rate logger (`appc`) |
| PortRanges, Serve | serve config: port ranges and web handlers (`ipn`) |

Seqs and Options hold small shared helpers. Objects that the source updates in place are classes with
the same fields; a list or map it mutates is a field of type `seq` or `map`, a fixed buffer is an
`array`. Protocols between goroutines are state machines whose steps are the source's atomic sections,
and theorems about them are over every sequence of enabled steps. Values from clocks, files, the
network and libraries are parameters. A nil Go map is an empty map. Map iteration order is
nondeterministic. Times are integers (nanoseconds in RateLogger).

## Findings

Properties that turned out false of the code, each with a concrete input and the exact condition
under which it holds.

- The upload loop makes no progress at all exactly when an upload limit is configured and is at most 1, or at most 7 with little memory (Drain.StallsIff, SevenBytesStall).
- A queued nil line reads as "buffer empty" and hides the line behind it; in every run a nil read means an empty buffer exactly if writers never write nil or the queue holds at most one line (MemBuffer.NilReadMeansEmptyIff, QueuedNilHidesALine, NilsHideANotice).
- An entry contains an inner newline exactly when the write is one JSON object within the size limit and its reserved "logtail" member has a value spelt with a newline; text and objects over the limit never break (LogEncoder.EncodedFraming, FramingCanBreak).
- An entry repeats a name exactly when a level is set and the write is one JSON object within the size limit that already has a member "v" (EntryNames.EncodedNamesUnique, LevelRepeatsName). Exactly these entries are not uploaded as written: the drainer wraps the whole entry as text (Drain.UploadedVerbatimIff).
- Disco messages survive printing and parsing exactly when their addresses are plain, their relay address list is non-empty where one is carried, and a keyless probe has less than 32 bytes of padding; bytes survive parsing and printing exactly at version 0 with a canonical body (Disco.PrintThenParse, DiscoCodec.ParseThenPrint).
- A visibility timer can publish a state that is not current: one of an episode that is over (Health.StaleEpisode), or, when two timers of one episode expire together, the superseded one last (Health.RacingTimers). A callback publishes the current state exactly when, since its timer was armed, the warnable was not set healthy and the last SetUnhealthy, if any, gave the same arguments (Health.PublishedIsCurrentIffUndisturbed). In runs that never change the arguments of an unhealthy warnable, never set it healthy under a waiting callback and never close the tracker, the published events show its state exactly when no timer of it is pending (Health.ReplayLagsIffPending). Over every run they show it exactly if it is healthy, or the last step that published anything about it was a SetUnhealthy, or a callback that published the state it was then in (Health.EventsShowStateIff).
- Dependency suppression reports the root causes exactly when every other unhealthy warnable depends directly on a root; in a chain of three both ends are reported (HealthDeps.RootsIffDirect, ChainReportsBothEnds). The declared dependencies are transitively closed, so they meet that condition (HealthDeps.DeclaredIsClosed).
- A dependency that is not visible yet hides a visible warning and nothing is reported; every visible warning is reported or explained by a reported dependency, in every state, exactly if no warnable depends on one that takes time to become visible (HealthDeps.ExplainedIff). Most of the warnables in health/warnings.go that declare dependencies depend on the network status, which takes five seconds (HealthDeps.NetworkStatusHides).
- The probe's comment says that packets arriving after the timeout never count as measurements. A packet sent at time r is measured, however late, exactly if it was not received before, no sweep ran at or after r plus the timeout, and a full list did not evict its record (QueueProbe.MeasuredIff, LateButMeasured, EvictedNotMeasured).
- The probe calls an overflow of its record list unexpected. For a sender that sweeps before every send and keeps the pace of a ticker, each tick dealt with at most a given lateness after it came, the list never overflows exactly if the timeout and the lateness together are at most its capacity times the period (QueuePacing.NeverOverflowsIff, TickerKeepsPace). The capacity the source chooses meets this exactly if what rounding it up spares covers what whole-nanosecond ticks lose of a second for each place and what is sent during the lateness (QueuePacing.ChosenNeverOverflowsIff): so at every rate that divides a second when each tick is dealt with before the next (QueuePacing.EvenRateNeverOverflows), but not at 20,001 packets a second with the default timeout of five seconds, however punctual the sender (QueuePacing.UnevenRateOverflows).
- Port de-duplication compares with a zero value first, so port 0 with an empty protocol is never listed (PortList.PairsCovered, ZeroPairIsDropped).
- On Linux a socket is listed with the port its inode number had in the table, which need not be its own: a number that passes to another socket between two polls keeps the old port (PortPoller.ReusedInode). After a poll whose scan succeeds the table tells every row's own protocol and port exactly if no inode is seen with a pair other than the one known for it or first seen of it (PortPoller.RowsMatchIff); then, over every run, the pairs listed are exactly those of the rows read (PortPoller.ListsTheRowsRead).
- A domain listed twice after lower-casing loses its addresses without unadvertising them (AppConn.RepeatedNameIsLost). An address is forgotten without being unadvertised exactly if its domain is listed more than once and no domain removed with stored routes lists the same prefix, or its domain is removed without stored routes (AppConn.ForgottenIff, NothingConfigured).
- A prefix is unadvertised with a removed domain even if a kept domain still lists an address of it; no reconfiguration does this exactly if routes are not stored or no two domains list addresses with the same prefix, and addresses that differ in their zones only have the same prefix (AppConn.RemovalIsSafeIff, SharedIsUnadvertised, ZonesAreDropped).
- The rate logger divides by zero exactly when a period ends and the interval is under a millisecond (RateLogger.Logger.CountCall, DividesByZeroIff). Both of its users pass longer constants.
- "/foo/" and "/foo//" can be mounted side by side although mounts that differ by one trailing slash are meant to replace each other; the replacement works exactly for mounts that do not themselves end in a slash, and only if the two handlers are different objects (Serve.SlashPairIff, SlashPairCoexists, SetKeepsClashFreeIff, SharedHandlerClashes).
- Removing a web handler undoes setting it, on an unused host and port, exactly if the port had no TCP entry and no funnel entry is cleaned up; on a used one, exactly if the mount was new, no other spelling of it was dropped, other handlers remain and the port was served the same way (Serve.RemoveUndoesSetIff). Removing a host's last handler also takes the TCP port from other hosts on that port (Serve.RemoveKeepsBackedIff, SharedPortIsDropped).

## Model

| member | source | states |
|---|---|---|
| MemBuffer.WriteAccounted | logtail/buffer.go:100-120 | a write, accepted or dropped, keeps the accounting: lines read, then what the buffer still holds with its drop notices, then drops not yet announced, spell the write history |
| MemBuffer.ReadAccounted | logtail/buffer.go:73-98 | a read, of a line, a notice or nothing, keeps the same accounting |
| MemBuffer.LogOrder | logtail/buffer.go:73-120 | over every run of writes and reads the accounting holds: accepted lines in order, each notice counting exactly the failed writes just before the line that follows it |
| MemBuffer.NilReadMeansEmptyIff | logtail/buffer.go:73-98 | for writers whose lines come from a given set: in every run a nil read means an empty buffer if and only if nil is not in the set or the capacity is at most 1 |
| MemBuffer.QueuedNilHidesALine | logtail/buffer.go:73-98 | with any capacity of at least 2, a queued nil hides the line behind it from a read |
| MemBuffer.NilsHideANotice | logtail/buffer.go:73-120 | with any capacity of at least 2, writers of nothing but nil lose sight of a drop notice |
| MemBuffer.NoticeInjective | logtail/buffer.go:85-91 | notices for different drop counts are different text |
| MemBuffer.MemoryBuffer.constructor | logtail/buffer.go:32-36 | a new buffer is valid and empty with the given capacity |
| MemBuffer.MemoryBuffer.TryReadLine | logtail/buffer.go:73-98 | returns the specified line, leaves the specified buffer, and keeps bytes written equal to bytes read plus bytes held |
| MemBuffer.MemoryBuffer.Write | logtail/buffer.go:100-120 | leaves the specified buffer, reports full exactly when the line was dropped, and keeps the byte counts balanced |
| Wakeup.StepKeepsInv | logtail/logtail.go:282-342 | every atomic step of writers, timer callbacks, StartFlush and the drainer keeps the wake-up invariant |
| Wakeup.RunKeepsInv | logtail/logtail.go:565-653 | so does every run |
| Wakeup.NoLostWakeup | logtail/logtail.go:282-289 | in every interleaving, while the drainer waits and a line is buffered, a token, an armed timer, a wake in flight or a writer before its wake step exists; and a set flush-pending flag always has an owner who will clear it |
| Wakeup.InternalRunShrinks | logtail/logtail.go:616-653 | every step that finishes work already begun shrinks the outstanding work and disturbs neither buffer nor drainer |
| Wakeup.Unfinished | logtail/logtail.go:616-653 | while work is outstanding some such step is enabled |
| Wakeup.WakeArrives | logtail/logtail.go:616-653 | from any reachable state where the drainer waits on a non-empty buffer, finishing takes at most the outstanding work in steps and ends with the wake token set |
| Tokens.BodyConcat | logtail/logtail.go:740-751 | text that may stand between quotes stays so when joined: neither part ends inside an escape |
| Json.StripText | logtail/logtail.go:856-863 | dropping newlines from a value's text gives the text of the stripped tree |
| Json.StripKeepsMeaning | logtail/logtail.go:856-863 | dropping newlines keeps a well-formed value well-formed and changes no meaning |
| Json.StripMembersKeep | logtail/logtail.go:856-863 | the same for a list of members |
| Unambiguous.TextDeterminesMeaning | logtail/logtail.go:347 | however a JSON text is split into tokens and whitespace, it means the same, so validity is a property of the text |
| LogEntry.PutMember | logtail/logtail.go:658-715 | appends one optional member so that the text is that of the members appended so far, comma-terminated |
| LogEntry.CloseObject | logtail/logtail.go:658-715 | ends a nested object: its last comma goes, and the text is that of the object as one member |
| LogEntry.TrimTerminated | logtail/logtail.go:658-715 | trimming separators after comma-terminated members removes exactly the last comma |
| LogEntry.MetadataOk | logtail/logtail.go:658-715 | the metadata members are well-formed JSON, down to string escapes and number grammar, for every combination of optional parts |
| LogEntry.AppendLogtail | logtail/logtail.go:658-700 | the "logtail" object is appended as the members the settings call for |
| LogEntry.AppendMetadata | logtail/logtail.go:658-715 | the bytes appended are the text of the metadata members, each followed by a comma |
| LogRewrite.RewriteKeepsMeaning | logtail/logtail.go:755-852 | the entry is a well-formed object meaning the metadata members followed by the input's members in order, without the reserved one |
| LogRewrite.ReservedValueIsReported | logtail/logtail.go:827-839 | the removed member's value reappears as bad_data of the error report |
| LogEncoder.Scan | logtail/logtail.go:780-796 | the token loop finds the last reserved member and the offsets of its key and value |
| LogEncoder.AppendWithoutNewline | logtail/logtail.go:856-863 | appends the source text without its newlines |
| LogEncoder.AppendObject | logtail/logtail.go:755-852 | slicing, trimming and joining by byte offsets produces exactly the text of the rewritten tree |
| LogEncoder.AppendMembers | logtail/logtail.go:837-851 | the input's members are appended behind the metadata, all of them or all but the reserved one |
| LogEncoder.AppendEncoded | logtail/logtail.go:758-851 | text, an object over the limit and an object within it each append one entry of the specified members |
| LogEncoder.EncodedIsWellFormed | logtail/logtail.go:718-852 | every write becomes one object whose names are string tokens and whose scalars are string, number or literal tokens, whatever was written |
| LogEncoder.EncodedFraming | logtail/logtail.go:718-863 | for every write, an entry ends in a newline and has no other, except exactly when the write is an object within the limit whose reserved value's own text has one |
| LogEncoder.FramingCanBreak | logtail/logtail.go:755-863 | one input that breaks its entry exactly when there is room for it |
| EntryNames.EncodedNamesUnique | logtail/logtail.go:705-852 | for every write, no object in the entry, at any depth, repeats a name, except exactly when a level is put before an object within the limit that has a member "v" |
| EntryNames.LevelRepeatsName | logtail/logtail.go:705-712 | one entry with the name "v" twice |
| LogEncoder.AppendText | logtail/logtail.go:718-736 | non-JSON input becomes metadata plus a "text" member with the truncated text |
| LogEncoder.ReclosedToken | logtail/logtail.go:744-749 | a string token whose closing quote is cut, extended and closed again is a string token |
| LogEncoder.TruncatedOk | logtail/logtail.go:740-751 | truncated text is one JSON string token: no bare quote or control character inside, no escape cut short |
| LogEncoder.Encoder.AppendTextOrJSON | logtail/logtail.go:755-852 | one call appends one entry of the specified members and advances the 64-bit sequence number if it is in use |
| Batching.CloseBatch | logtail/logtail.go:295-304 | trimming commas and closing the bracket gives "[" entries joined by single commas "]" |
| Batching.FinishBatch | logtail/logtail.go:297-304 | the final cut yields the batch, or nothing when there are no entries |
| Batching.DrainStep | logtail/logtail.go:314-369 | each consumed event extends the open batch by exactly its entry |
| Batching.BatchSize | logtail/logtail.go:294-371 | a batch is at most the limit plus one entry long |
| Batching.ReturnPointIsFirst | logtail/logtail.go:314-342 | a call returns at the first event that makes it stop |
| Batching.FirstCall | logtail/logtail.go:374-378 | a call that returns consumes its share, and the calls after it see exactly the rest |
| Batching.BatchesPartitionLines | logtail/logtail.go:294-371 | of the batches repeated calls make and what the blocked call has read, every entry is in exactly one, in order |
| Batching.ReturnedIsAll | logtail/logtail.go:374-378 | when a call blocks, the texts returned so far are those of all these batches, one for one |
| Drain.AppendReadError | logtail/logtail.go:319-324 | a read error is appended as one closed metadata entry |
| Drain.UploadedVerbatimIff | logtail/logtail.go:344-368 | the drainer uploads an entry the encoder wrote as it is if and only if no name in it repeats |
| Drain.TakeEvent | logtail/logtail.go:315-368 | handles one buffer event as the batch specification says |
| Drain.DrainPending | logtail/logtail.go:294-371 | the loop returns exactly at the first stopping point, with the batch of the events consumed, or blocks because there is none |
| Drain.StallsIff | logtail/logtail.go:306-314 | a call returns before reading anything exactly for a configured limit of at most 1, or 7 with little memory |
| Drain.SevenBytesStall | logtail/logtail.go:306-314 | one configuration that never reads the line that is there |
| Drain.DrainAll | logtail/logtail.go:374-378 | repeated calls return exactly the texts of the batches the events' entries are cut into |
| Drain.EntriesAreLines | logtail/logtail.go:344-368 | without read errors the entries are those of the non-empty lines read, in order |
| Drain.EndToEnd | logtail/logtail.go:294-371 | buffer and batching together: the batches and what the blocked call has read hold the entries of exactly the non-empty lines of the write transcript that have been read, once each and in order; the rest of the transcript is in the buffer |
| Bytes.PutThenGet | derp/derp.go:173-186 | big-endian printing then reading is the identity on values that fit |
| Bytes.GetThenPut | disco/disco.go:630-659 | reading then printing is the identity on bytes |
| Net.AddrRoundTrip | disco/disco.go:255-281 | an address survives its 16-byte form exactly when it is valid, zone-free and not IPv4-mapped |
| Net.WireRoundTrip | disco/disco.go:266-281 | every 16-byte form survives being read as an address |
| DerpFrame.SplitAllEncoded | derp/derp.go:255-286 | the bytes of a list of frames split back into exactly those frames |
| DerpFrame.PrefixSplits | derp/derp.go:225-246 | any prefix of those bytes splits into a prefix of the frames |
| DerpFrame.Writer.WriteUint32 | derp/derp.go:173-186 | four big-endian bytes reach the buffer, or an error, through any buffer size |
| DerpFrame.Writer.WriteFrameHeader | derp/derp.go:255-272 | appends the five header bytes or fails |
| DerpFrame.Writer.WriteFrame | derp/derp.go:275-286 | appends one whole frame and flushes it, or fails; oversized bodies are refused |
| DerpFrame.WriteAll | derp/derp.go:275-286 | whatever the connection accepts, what was sent splits into a prefix of the frames, and into all of them on success |
| DerpFrame.Reader.ReadFrameHeader | derp/derp.go:206-213 | kind and length of the next five bytes, or an error that consumes nothing |
| DerpFrame.Reader.ReadFrame | derp/derp.go:225-246 | fills the caller's array or truncates as specified, consuming exactly one frame; each error case says what was consumed |
| DerpClient.RecvRefinesFrames | derp/derp_client.go:484-647 | on the bytes of any frame list and any buffer size, repeated Recv reports exactly what a byte-free reading of the frame list says, errors included |
| DerpClient.RecvStopsAtBoundary | derp/derp_client.go:484-647 | a delivered message leaves the stream at the boundary after its frame, having skipped only frames to be skipped |
| DerpClient.CutStream | derp/derp_client.go:484-533 | a stream cut anywhere inside a frame reports the messages before it, then the error of the cut |
| DerpClient.Client.constructor | derp/derp_client.go:98-122 | a new client has no error and everything unread |
| DerpClient.Client.ReadBody | derp/derp_client.go:515-533 | a body that fits the buffer is peeked at, a larger one is read; either way the unread bytes are those after it |
| DerpClient.Client.NextFrame | derp/derp_client.go:495-533 | skips what was peeked at and takes one frame off the stream, or fails as the specification says |
| DerpClient.Client.Recv | derp/derp_client.go:484-660 | result, unread bytes, sticky error and send rate are those of the specification; after an error every Recv returns it and consumes nothing |
| DerpClient.SendPingOrPong | derp/derp_client.go:294-304 | one ping or pong frame is sent, or an error |
| DerpClient.PingArrives | derp/derp_client.go:294-304 | a ping sent after any acceptable frames is received as that ping after their messages |
| Disco.AddrPortsRound | disco/disco.go:255-281 | an endpoint list survives exactly when all its addresses are plain |
| Disco.ProbeRound | disco/disco.go:157-223 | a ping or source-path probe survives exactly when it has a key or less than 32 bytes of padding |
| Disco.CommonRound | disco/disco.go:410-433 | the common part of the bind messages survives |
| Disco.EndpointRound | disco/disco.go:604-659 | a relay endpoint parses exactly when it lists an address, and survives exactly when all are plain |
| Disco.PrintThenParse | disco/disco.go:82-112 | for every message, parsing its printed form returns it if and only if it is representable |
| DiscoCodec.EndpointReprint | disco/disco.go:604-659 | endpoint bytes with whole addresses are reproduced exactly |
| DiscoCodec.ParseThenPrint | disco/disco.go:82-112 | for every byte string that parses, printing reproduces it if and only if its version is 0 and its body canonical |
| DiscoCodec.AppendMsgHeader | disco/disco.go:128-135 | header, prefix and room for the body are laid out as specified |
| DiscoCodec.AppendMarshal | disco/disco.go:157-170 | for every message kind the result is the prefix followed by the message's bytes |
| DiscoCodec.ParseAddrPorts | disco/disco.go:266-281 | the loop over 18-byte pieces reads exactly the specified list, every slice in bounds |
| DiscoCodec.DecodeEndpoint | disco/disco.go:630-659 | succeeds exactly on bodies of the right shape and returns the specified endpoint, with a non-negative allocation |
| DiscoCodec.Parse | disco/disco.go:82-112 | terminates on every byte string, in bounds, with the specified message or error |
| Health.UnhealthyKeepsInv | health/health.go:434-482 | reporting unhealthy keeps the tracker invariant: log, timers and values agree |
| Health.HealthyKeepsInv | health/health.go:494-513 | reporting healthy keeps it |
| Health.CallbackKeepsInv | health/health.go:469-479 | a timer callback keeps it |
| Health.StepKeepsInv | health/health.go:434-513 | every step, shutdown included, keeps it |
| Health.RunKeepsInv | health/health.go:164-174 | every run keeps it |
| Health.LogDeterminesState | health/health.go:434-513 | for a warnable without delay, replaying the published events gives its current state |
| Health.VisibilityTiming | health/health.go:402-407 | no unhealthy event is published before its state has been broken for the visibility time, and timers are pending only for unhealthy warnables |
| Health.BrokenSinceIsConstant | health/health.go:439-454 | within an unhealthy episode the time it began never changes |
| Health.SameEpisodeIff | health/health.go:439-454 | that time is unchanged if and only if no step cleared the warnable |
| Health.CallsDetermineState | health/health.go:434-513 | a warnable's state follows from the calls alone, whatever timers do |
| Health.PublishedIsCurrentIff | health/health.go:469-479 | a timer's callback publishes the current state if and only if the calls since it was armed lead back to the state it was armed for |
| Health.PublishedIsCurrentIffUndisturbed | health/health.go:469-479 | with a clock that moves on: if and only if the warnable was not set healthy since and the last SetUnhealthy, if any, gave the same arguments |
| Health.RacingTimers | health/health.go:465-480 | one run, without any SetHealthy, in which both timers have run and the last state published is the superseded one |
| Health.ReplayLagsIffPending | health/health.go:434-513 | over every run that does not change an unhealthy warnable's arguments, set it healthy under a waiting callback, or close: replaying the events gives its state if and only if no timer of it is pending |
| Health.EventsShowStateIff | health/health.go:434-513 | over every run the events show a warnable's state if and only if it is healthy, or the last step that published about it was a SetUnhealthy or a callback that published the state it was then in |
| Health.HealthyNeverShownUnhealthy | health/health.go:469-513 | over every run the events never show a healthy warnable as unhealthy |
| Health.StaleEpisode | health/health.go:465-480 | one run in which a timer of an earlier episode publishes that episode's state during a later one |
| Health.Tracker.Record | health/health.go:434-482 | without any invariant, the new tracker state is the specified one |
| Health.Tracker.SetUnhealthyLocked | health/health.go:434-482 | the new tracker state is the specified one and the invariant is kept |
| Health.Tracker.SetHealthyLocked | health/health.go:494-513 | the new tracker state is the specified one |
| Health.Tracker.TimerCallback | health/health.go:469-479 | the new tracker state is the specified one |
| HealthDeps.KernelIsKernel | health/state.go:188-202 | the effectively unhealthy warnables are a kernel: none depends directly on another, and every other unhealthy one depends directly on one of them |
| HealthDeps.KernelIsUnique | health/state.go:188-202 | it is the only kernel, so listing order cannot matter |
| HealthDeps.SomethingRemains | health/state.go:188-202 | suppression leaves nothing exactly when nothing is unhealthy |
| HealthDeps.RootsIffDirect | health/state.go:183-202 | only root causes are left if and only if every other unhealthy warnable depends directly on a root |
| HealthDeps.ClosedReportsRoots | health/state.go:188-202 | with transitively closed dependencies only root causes are left |
| HealthDeps.DeclaredIsClosed | health/warnings.go:104-248 | the dependencies the warnables declare are acyclic and transitively closed |
| HealthDeps.ChainReportsBothEnds | health/state.go:188-202 | in a chain of three both ends are left |
| HealthDeps.CurrentState | health/state.go:124-170 | whatever the clock reads for each warnable, the snapshot holds exactly the visible, effectively unhealthy ones with their states |
| HealthDeps.SnapshotReportsSome | health/state.go:124-170 | every visible root is reported |
| HealthDeps.ReportedIffVisibleRoot | health/state.go:124-202 | with transitively closed dependencies exactly the visible roots are reported |
| HealthDeps.VisibleDepsExplain | health/state.go:124-202 | if dependencies are visible at once, every visible warning is reported or depends directly on one that is |
| HealthDeps.HiddenByInvisible | health/state.go:124-202 | any dependency that takes time to become visible can hide a visible warning so that nothing is reported |
| HealthDeps.ExplainedIff | health/state.go:124-202 | in every state every visible warning is reported or depends directly on one that is, if and only if no warnable depends on one that takes time to become visible |
| HealthDeps.NetworkStatusHides | health/warnings.go:70-210 | the network status, five seconds from visible, hides a relay error that is visible at once |
| QueueProbe.SweepKeepsInv | prober/derp.go:432-446 | a sweep keeps the probe invariant: order, capacity, exactly-once ledger, and no overdue record from before the last sweep |
| QueueProbe.SendKeepsInv | prober/derp.go:467-476 | an append, with or without eviction, keeps it |
| QueueProbe.ReceiveKeepsInv | prober/derp.go:503-521 | a reception with any sequence number and time keeps it |
| QueueProbe.RunKeepsInv | prober/derp.go:427-521 | so does every interleaving of up to 2^64 sends |
| QueueProbe.Conservation | prober/derp.go:427-521 | in every interleaving, records appended are drops plus measurements plus records outstanding, and every number sent has exactly one fate or is outstanding once |
| QueueProbe.MeasuredDelayBound | prober/derp.go:503-521 | a measured delay exceeds the timeout by less than the time since the last sweep |
| QueueProbe.OutstandingIffUntouched | prober/derp.go:427-521 | over every run a record is still listed if and only if no step took it away |
| QueueProbe.MeasuredIff | prober/derp.go:427-521 | a packet sent at r is measured at a later reception if and only if it was not received before, no sweep ran at or after r plus the timeout, and its record was not evicted |
| QueuePacing.TickerKeepsPace | prober/derp.go:456-464 | sends that deal with ticks a period or more apart, each at most a given lateness after its tick, are on pace |
| QueuePacing.PacedKeepsRoom | prober/derp.go:427-476 | over every run on pace, when timeout and lateness are at most capacity times period, every record was sent before those behind it and all fit |
| QueuePacing.NeverOverflowsIff | prober/derp.go:464-473 | a send never finds the list full, in any run on pace, if and only if timeout and lateness are at most capacity times period or packets time out at once |
| QueuePacing.ChosenNeverOverflowsIff | prober/derp.go:427-456 | for every rate, timeout and lateness, the chosen capacity suffices if and only if what it spares covers what the ticks lose of a second for each place and what is sent during the lateness |
| QueuePacing.EvenRateNeverOverflows | prober/derp.go:427-456 | at a rate that divides a second it suffices whenever each tick is dealt with before the next |
| QueuePacing.UnevenRateOverflows | prober/derp.go:427-456 | at 20,001 packets a second and a timeout of five seconds it does not, even without lateness |
| QueueProbe.EvictedNotMeasured | prober/derp.go:468-472 | one packet that no sweep touched and that is not measured |
| QueueProbe.LateButMeasured | prober/derp.go:341-347 | one packet that is measured after the timeout |
| QueueProbe.Prober.Delete | prober/derp.go:469 | closing the gap in place removes exactly that record |
| QueueProbe.Prober.Filter | prober/derp.go:436-445 | compaction over the same array keeps exactly the records not due, in order, and counts the rest |
| QueueProbe.Prober.ApplyTimeouts | prober/derp.go:432-446 | the new state is that of a sweep |
| QueueProbe.Prober.Send | prober/derp.go:467-476 | the new state is that of an append, under the next sequence number |
| QueueProbe.Prober.Find | prober/derp.go:505-520 | the scan that stops at the first larger number finds the record whenever there is one |
| QueueProbe.Prober.Receive | prober/derp.go:503-521 | the new state is that of a reception |
| QueueProbe.Drive | prober/derp.go:427-521 | any interleaving carried out on the array keeps the books |
| Labels.LabelsIdentify | metrics/multilabelmap.go:56-91 | two keys of one struct type have the same label string if and only if they are equal |
| LabelMap.IndexIsUnique | metrics/multilabelmap.go:152-173 | the sorted slice is determined by the map, whatever the history |
| LabelMap.FoundIff | metrics/multilabelmap.go:160-166 | the key at the searched position is the key sought if and only if the map has it |
| LabelMap.PlacedIsIndex | metrics/multilabelmap.go:155-173 | inserting or replacing at that position keeps slice and map in agreement |
| LabelMap.RemovedIsIndex | metrics/multilabelmap.go:265-272 | removing there does too |
| LabelMap.SchemeIdentifies | metrics/multilabelmap.go:56-91 | the labelling of any struct type tells its keys apart |
| LabelMap.MultiLabelMap.constructor | metrics/multilabelmap.go:36-45 | a new map is valid and empty |
| LabelMap.MultiLabelMap.Search | metrics/multilabelmap.go:160-162 | binary search returns the first position whose label is not below the one sought |
| LabelMap.MultiLabelMap.Place | metrics/multilabelmap.go:163-172 | appends, replaces or inserts at the searched position |
| LabelMap.MultiLabelMap.AddKeyLocked | metrics/multilabelmap.go:155-173 | the slice becomes the index of the map with the key set |
| LabelMap.MultiLabelMap.Set | metrics/multilabelmap.go:208-213 | sets exactly that key; slice and map agree |
| LabelMap.MultiLabelMap.GetOrFill | metrics/multilabelmap.go:187-202 | returns the non-nil value there is, or stores and returns the filled one; slice and map agree |
| LabelMap.MultiLabelMap.Delete | metrics/multilabelmap.go:259-273 | removes exactly that key; slice and map agree |
| LabelMap.MultiLabelMap.Init | metrics/multilabelmap.go:141-150 | empties both |
| LabelMap.MultiLabelMap.Do | metrics/multilabelmap.go:278-284 | visits each of the map's entries once, in strictly increasing label order |
| FillOnce.StepKeepsInv | metrics/multilabelmap.go:187-202 | every step of concurrent getOrFill callers keeps mutual exclusion and the agreement of slice, map and fills |
| FillOnce.RunKeepsInv | metrics/multilabelmap.go:187-202 | so does every interleaving |
| FillOnce.CallersAgree | metrics/multilabelmap.go:185-202 | in every interleaving all calls for one key return one value, fill runs at most once per key, and slice equals map whenever the mutex is free |
| PortList.LessThanIsWeakOrder | portlist/portlist.go:27-35 | the comparison is a strict weak order, as the library sort needs |
| PortList.Incomparable | portlist/portlist.go:27-41 | neither of two ports is less if and only if they are equal in all but process ID |
| PortList.SortSlice | portlist/portlist.go:67-69 | sorts in place to a sorted permutation |
| PortList.Compact | portlist/portlist.go:70-79 | compaction over the same array is the de-duplication function |
| PortList.SortAndDedup | portlist/portlist.go:66-80 | leaves the de-duplicated form of a sorted permutation in the prefix |
| PortList.DedupShape | portlist/portlist.go:70-79 | on sorted input the pairs strictly increase and every entry is one read |
| PortList.DedupRepresents | portlist/portlist.go:70-79 | exactly the least process name of each pair but the zero pair is kept |
| PortList.ResultIgnoresOrder | portlist/portlist.go:66-80 | any two gatherings of the same ports, sorted in any way, give lists equal in all but process ID |
| PortList.PairsCovered | portlist/portlist.go:70-79 | a pair is listed if and only if it is not the zero pair, and at most once |
| PortList.ZeroPairIsDropped | portlist/portlist.go:70-79 | the zero pair alone gives an empty list |
| PortList.ListEqual | portlist/portlist.go:43-53 | true if and only if the lists agree in all but process IDs |
| PortPoller.TableIsExact | portlist/portlist_linux.go:107-141 | after a poll whose scan succeeds the table holds exactly the current listeners and no entry waits for a name, whatever earlier polls left |
| PortPoller.SocketsAreStable | portlist/portlist_linux.go:244-275 | of a surviving socket port and protocol never change, a settled name never changes, and none is wanted again |
| PortPoller.NamesStaySettled | portlist/portlist_linux.go:244-275 | the same over every run of polls, failed ones included |
| PortPoller.ReportIsDetermined | portlist/portlist_linux.go:143-147 | the report depends on the table alone, not on map order or the sort |
| PortPoller.ReportCovers | portlist/portlist_linux.go:143-147 | every socket in the table but one with the zero pair has its pair listed, and nothing else is listed |
| PortPoller.PollRemembers | portlist/portlist_linux.go:244-256 | after a scan that succeeds a socket has the protocol and port known for its inode, or else those of its first row |
| PortPoller.RowsMatchIff | portlist/portlist_linux.go:244-256 | the table tells every row's own protocol and port if and only if no inode is seen with a pair other than the one known for it or first seen of it |
| PortPoller.EveryListenerIsReported | portlist/portlist_linux.go:96-153 | over every run of polls of files that name their protocol, after a poll whose scan succeeds every socket seen is listed with the pair known for its inode, or else that of its first row |
| PortPoller.OnlyListenersAreReported | portlist/portlist_linux.go:96-148 | and every pair listed is that of a socket seen |
| PortPoller.ListsTheRowsRead | portlist/portlist_linux.go:96-256 | over every such run, if the last poll reused no inode, the pairs listed are exactly those of the rows read |
| PortPoller.NothingReused | portlist/portlist_linux.go:244-256 | in a run, failed polls included, in which all rows of an inode show the same pair, no poll reuses an inode |
| PortPoller.ReusedInode | portlist/portlist_linux.go:244-246 | one run of two polls in which a socket is listed with the port of another that had its inode number |
| PortPoller.LinuxImpl.MarkAllGone | portlist/portlist_linux.go:107-111 | clears every mark and nothing else |
| PortPoller.LinuxImpl.ParseRow | portlist/portlist_linux.go:196-256 | a listener is marked, or added with a mark; a bad row fails and changes nothing |
| PortPoller.LinuxImpl.ParseFile | portlist/portlist_linux.go:151-260 | marks or adds the listeners up to the first bad row or the row bound |
| PortPoller.LinuxImpl.ScanFiles | portlist/portlist_linux.go:113-124 | does so file by file and stops at the first failure |
| PortPoller.LinuxImpl.SweepGone | portlist/portlist_linux.go:126-137 | drops exactly the unmarked and collects exactly those that want a name |
| PortPoller.LinuxImpl.FindProcessNames | portlist/portlist_linux.go:266-340 | settles every wanted name, found or given up on, also when the walk fails |
| PortPoller.LinuxImpl.AppendListeningPorts | portlist/portlist_linux.go:96-148 | the table is that of one poll; it succeeds exactly if the scan did and no needed name walk failed, and then lists the table |
| PortPoller.Poller.Poll | portlist/poller.go:102-122 | reports a change exactly when the list differs from the last one in more than process IDs; errors leave the last list alone |
| AppConn.AddrTotal | appc/appconnector.go:513-515 | addresses of which neither is less are the same address |
| AppConn.AddrOrder | appc/appconnector.go:513-515 | the comparison is a strict weak order |
| AppConn.Search | appc/appconnector.go:501-504 | binary search on an ordered list is membership |
| AppConn.AddedIff | appc/appconnector.go:508-511 | append and sort keeps the list strictly ordered if and only if the address was new, and adds just it |
| AppConn.EachListOnce | appc/appconnector.go:289-318 | every old list stays whole under its name or is left over whole, never both; neither if and only if it is non-empty and its name is configured more than once |
| AppConn.ForgottenIff | appc/appconnector.go:289-328 | for every table, configuration and set of prefixes unadvertised, an address is neither listed any more nor unadvertised if and only if its name is repeated and no name removed with stored routes lists its prefix, or its name is removed without stored routes |
| AppConn.NothingConfigured | appc/appconnector.go:322 | one configuration without stored routes that forgets an address of a name not repeated |
| AppConn.RepeatedNameIsLost | appc/appconnector.go:296-307 | one configuration that loses a list |
| AppConn.SharedIsUnadvertised | appc/appconnector.go:320-328 | with stored routes, whenever two names list addresses with the same prefix, configuring only one of them unadvertises the prefix it keeps |
| AppConn.ZonesAreDropped | appc/appconnector.go:326 | one table without a shared address in which this happens, because prefixes carry no zone |
| AppConn.KeptConfigurable | appc/appconnector.go:289-318 | names that are in lower case and no wildcards stay the only ones |
| AppConn.RemovalIsSafeIff | appc/appconnector.go:296-328 | over all lists of names configured, what is unadvertised spares the lists kept if and only if routes are not stored or no two names share a prefix |
| AppConn.SparesIff | appc/appconnector.go:323-328 | the prefixes handed out for removal spare the kept lists if and only if kept and removed lists share none |
| AppConn.AppConnector.constructor | appc/appconnector.go:183-205 | a connector over ordered stored lists is valid and holds what was stored |
| AppConn.AppConnector.HasDomainAddr | appc/appconnector.go:501-504 | true if and only if the address is listed |
| AppConn.AppConnector.AddDomainAddr | appc/appconnector.go:508-511 | adds the address to that list only; order is kept if and only if it was not listed |
| AppConn.AppConnector.IsAddrKnown | appc/appconnector.go:456-469 | true if and only if listed or covered by a control route; a covered address becomes listed, order is kept, other lists are untouched |
| AppConn.AppConnector.Advertised | appc/appconnector.go:473-497 | after success the single-address routes are listed and nothing else changes; order is kept |
| AppConn.AppConnector.TakeNames | appc/appconnector.go:293-307 | the first loop moves each configured name's list over and collects the wildcards |
| AppConn.AppConnector.KeepMatching | appc/appconnector.go:309-318 | the second loop moves back exactly the lists whose name matches a wildcard |
| AppConn.AppConnector.UpdateDomains | appc/appconnector.go:289-343 | the new table, the wildcards and the prefixes unadvertised are the specified ones; order is kept; if routes are not stored or no two names shared a prefix, none unadvertised is still in use |
| RateLogger.StartIsAligned | appc/appconnector.go:43-46 | the computed period start lies in the call's own grid cell, less than a millisecond after its beginning |
| RateLogger.UpdateKeepsInv | appc/appconnector.go:48-59 | one call keeps the books and is counted in a period that contains it |
| RateLogger.CallsAreCounted | appc/appconnector.go:43-59 | over every run under a clock that does not go back, reported counts plus the pending count are the calls, and period starts are aligned with strictly increasing cells |
| RateLogger.WholeMilliseconds | appc/appconnector.go:43-46 | with a whole number of milliseconds the grid is the interval itself |
| RateLogger.DividesByZeroIff | appc/appconnector.go:43-59 | the first call after the first period divides by zero if and only if the interval is under a millisecond; no call does with a longer one |
| RateLogger.Logger.constructor | appc/appconnector.go:61-70 | a new logger starts its first period now |
| RateLogger.Logger.CountCall | appc/appconnector.go:43-59 | the new state and the callbacks made are the specified ones; it divides by zero exactly when a period ends and the interval is under a millisecond, after the callback |
| PortRanges.CanonicalIsUnique | ipn/serve.go:924-956 | two lists of sorted, non-adjacent ranges that cover the same ports are the same list |
| PortRanges.AddPortOk | ipn/serve.go:942-954 | a step keeps the list canonical; the 16-bit wrap of the last port cannot match |
| PortRanges.AddPortCovers | ipn/serve.go:942-954 | a step adds exactly the port to what is covered |
| PortRanges.Coalesce | ipn/serve.go:941-955 | the loop yields the canonical list that covers exactly the given ports |
| PortRanges.ServicePortRange | ipn/serve.go:924-956 | every port in Tun mode; otherwise the canonical list of exactly the configured ports but 0 |
| Serve.JoinInjective | ipn/serve.go:401 | no two pairs of host and port share a key |
| Serve.SetReplacesSpelling | ipn/serve.go:407-422 | setting takes over the mount, drops other spellings unless they carry the same handler object, and leaves the rest alone |
| Serve.SetKeepsClashFreeIff | ipn/serve.go:409-422 | no two spellings of a mount coexist after setting if and only if the handler object did not already serve the other one |
| Serve.SharedHandlerClashes | ipn/serve.go:409-412 | one run with two spellings side by side |
| Serve.SlashPairIff | ipn/serve.go:413-421 | a mount and the mount plus a slash count as the same if and only if the mount does not end in a slash |
| Serve.HandlersComeFromCalls | ipn/serve.go:381-423 | over every run, a handler served was in the first config or was set by a call |
| Serve.FreshCallsNeverClash | ipn/serve.go:381-423 | over every run of setting and removing on any hosts and ports, from any config without clashes and with handler objects not reused, no host and port serves two spellings of a mount |
| Serve.NoSlashPair | ipn/serve.go:413-421 | so in such a run no host and port serves a mount without a final slash together with the mount plus a slash |
| Serve.SlashPairCoexists | ipn/serve.go:413-421 | for a mount that ends in a slash both are served after setting the two in a row |
| Serve.RemoveUndoesSetIff | ipn/serve.go:381-517 | removing undoes setting, on an unused host and port, if and only if the port had no TCP entry and no funnel entry is cleaned up; on a used one, if and only if the mount was new, no spelling was dropped, other handlers remain and the port was served the same way |
| Serve.SetKeepsBacked | ipn/serve.go:400-406 | setting keeps every web server's port among the TCP ports |
| Serve.RemoveKeepsBackedIff | ipn/serve.go:495-505 | removing does if and only if handlers remain or no other host serves on that port |
| Serve.SharedPortIsDropped | ipn/serve.go:499-501 | one config in which another host loses its port |
| Serve.DropSpellings | ipn/serve.go:409-422 | the loop deletes exactly the other spellings with other handlers |
| Serve.ServeConfig.SetWebHandler | ipn/serve.go:381-423 | the new config is the specified one |
| Serve.ServeConfig.RemoveWebHandler | ipn/serve.go:492-517 | the new config is the specified one |

## Left out

- Sockets, HTTP upload, TLS, TUN devices, process execution and file access: the model takes what they return as parameters.
- NaCl boxes, ServerInfo and ClientInfo JSON, ETags and zstd: uninterpreted functions or not modelled.
- The JSON decoder is a parameter that is right about where members begin and end and refuses repeated names at any depth, as section 4 of RFC 8259 recommends; so are JSON quoting, which gives string tokens, and the formatters of timestamps and metrics, whose text needs no quoting. Whether bytes are valid UTF-8 is not modelled.
- The character escapes of Go's %q are a parameter of Labels; they must be a prefix code that never starts with a quote.
- Log levels parsed from text, standard-error echo, network-up waiting and whole-run liveness at shutdown in logtail.
- Read deadlines and write time-outs in derp; the connection handshake; every other client message than ping and pong on the sending side.
- Disco.PrintThenParse: padding is a natural number; for a negative Padding, which the Go field type allows, the bytes printed depend on the spare capacity of the caller's slice. No parsed message has one.
- Disco.ProbeRound: the same.
- Health.ReplayLagsIffPending: says nothing of runs that change the arguments of an unhealthy warnable; Health.EventsShowStateIff covers every run.
- HealthDeps members take a numbering that decreases along dependencies: the source recurses without end on a dependency cycle.
- Control-plane health messages, ETags and the periodic self-check of the health tracker.
- QueueProbe.Conservation: holds for up to 2^64 sends, after which sequence numbers repeat.
- LabelMap methods run one at a time; interleaving is modelled for getOrFill only, in FillOnce. Reading of the metric values themselves is not modelled.
- The library sorts are modelled by their contract (Order.Sort); stability is neither used nor promised.
- Parsing the text of a /proc/net row into its fields: a row is a listener, one passed over, or one that fails.
- AppConn: findRoutedDomainLocked, updateRoutes, the DNS response parser, stored-route persistence, and logging.
- RateLogger.CallsAreCounted: for intervals of a millisecond or more; a shorter one divides by zero when its first period ends.
- QueuePacing.NeverOverflowsIff: a ticker drops ticks when its reader is more than a period behind; for a lateness of more than a period the overflowing run may send for ticks that would have been dropped. That a ticker panics at more than a billion packets a second is not modelled, and the capacity is computed exactly, not in floating point.
- Drain.UploadedVerbatimIff: JSON validity has no limit on nesting. A JSON library has one, and a reserved value stands two levels deeper in its entry than in the object written, so an object at the limit is accepted by the encoder and its entry is wrapped as text although no name repeats.
- The warnables of net/dns, which declare dependencies of their own.
- RateLogger: the saturation of time differences beyond 292 years and 64-bit overflow of a count.
- Serve: service-name hosts, foreground configs, TCP forwarding, and calls on a nil config, whose effect is lost.
- Generated clone and view code, preference edits by reflection, and pretty-printers.
