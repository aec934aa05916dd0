# A model of the HTTP fast path

A program in the kernel answers some requests of a connection itself and forwards the rest to a server
in user space. The server never sees what was answered, yet it has to stay consistent with the client:
its HPACK table must be the one the client encodes against, and the window it spends must not include
what the kernel already spent. This project models both sides, the protocol between them and the pool
of dummy sockets the kernel side runs on, and proves that they fit together over whole runs.

## How it is laid out

| file | models |
|---|---|
| `wire.dfy` | bytes, big-endian integers and the frames of section 4.1 of RFC 7540 |
| `scanning.dfy`, `reading.dfy`, `session.dfy` | the reader as a value: a byte-at-a-time reference machine, one scan, one poll, and whole runs of arrivals, polls and drains |
| `listener.dfy` | the reader as the source has it: the handles, the scanner's loop, the stream and the connection loop, each proved against the values above |
| `hpack.dfy`, `dtsync.dfy`, `prepend.dfy` | the dynamic table, its rendering into the scratch buffer, and the sync frames |
| `message.dfy` | a message with the helpers that push, pop and expose, which may fail |
| `flow.dfy` | the flow control ledger and how it follows SETTINGS and WINDOW_UPDATE |
| `serve.dfy`, `render.dfy`, `arena.dfy` | rewriting a request into a response, rendering it, and laying the renderings out |
| `verdict.dfy` | the program that decides on each message, proved to take steps of the system |
| `system.dfy` | kernel and user space together, over whole runs |
| `witness.dfy` | one decoder worked out, and runs that show the theorems are about something |
| `pool.dfy`, `dummies.dfy` | the dummy sockets: the steps and what all of them keep, and the code that takes them |

A run of the system is a sequence of `Serve`, `Forward` and `Cut` steps of the kernel and, independently, a life
of the connection in user space: the protocol is found out, then round follows round, each of which
drains the handles and polls until the stream has nothing more, while the forwarded stream arrives in
chunks of any size. What a stream means is a `Trace`: bytes and reported spending, divided by table
updates. A report may be handed over ahead of bytes it arrived behind but never across an update.

## What the environment is taken to guarantee

- One run of a kernel program is one atomic step.
- A message given to `msg_verdict` starts and ends on a frame boundary. Nothing re-aligns it otherwise,
  as everything buffered is forwarded (hyper-fast-path/src/fast_path.bpf.c:1129).
- Only the first frame of a forwarded message carries a header block: the parser looks at one frame a run.
- Every HTTP/2 message parses. The path for those that do not (hyper-fast-path/src/fast_path.bpf.c:1111-1115)
  hands the connection over without a sync frame, which `System.RawNeedsTheTable` shows to be right only
  if the kernel's table is the one it last handed over.
- `SK_DROP` ends the connection.
- The client sends no frame of type 0xFA or 0xFB.
- `bpf_msg_pull_data` succeeds on what was just pushed in front of a message (`Msg.opens`). Every other
  pull may fail, and so may pushes and pops; what is only promised if none does says so.
- The codec polls the stream until there is nothing more for it before the handles are drained again.
  That is how the connection of the `h2` crate, which is not part of this model, reads.
- The client acknowledges the server's SETTINGS only once it has received them. They are sent by the
  handshake, by when finding out the protocol has read all that the opening reads, so the opening reads no
  further than the acknowledgement (`System.OpensWith`). The handshake of the `h2` crate reads the
  24 bytes of the preface.
- The client never changes the largest size its table may take up (section 6.3 of RFC 7541): what a frame
  does to a table depends on the table alone.
- The mirrored table holds whole strings: both sides decode a frame the same way.
- No connection is established under a key that is still live, and the map calls whose result the code
  does not look at succeed.
- A dummy whose quarantine is over has an empty backlog.
- The mirrored table is read as it stands before the message, which is the state `dt_count_before` counts.
- How a frame changes a table, how large an entry counts and how large the table may get are parameters,
  as is `BEEPER_H2_FIELD_MAXLEN`: beeper.h is not part of this model.

## What the proofs turned up

- Taking an update is only in order if everything ahead of it was read before (`Session.TakeKeepsOrder`,
  in both directions). `serve_h2` gets this from the codec reading until it has to wait
  (`Session.LifeOrdered`); `SyncHandle::take` itself would hand the update over ahead of bytes still in
  `out`, which is a state a stream can get to (`Listener.DrainOvertakes`).
- The path for a message that does not parse (hyper-fast-path/src/fast_path.bpf.c:1111-1115) goes wrong on
  a stale connection (`System.RawGoesWrong`, and `Witness.RawGoesWrongHere` for a concrete run).
- The comment on `conn_window` (hyper-fast-path/src/fast_path.bpf.c:272-273) says it can go negative. It
  cannot: SETTINGS only change the stream window and a response is only answered if it fits, so it stays
  between 0 and 2^31-1 (`System.AlwaysKept`). The check for a negative window never fires.
- The comment on `prepend_dt_sync` (hyper-fast-path/src/fast_path.bpf.c:467-468) promises an untouched
  message on failure. That needs the expose that follows the push to succeed (`Prepending.MakeRoom`).
- A window update that overflows is a connection error in section 6.9.1 of RFC 7540. The code saturates
  instead, and the model follows the code.
- Whether every table the kernel commits to can be handed over depends on how many bytes of a string the
  parser keeps (`DtSync.SyncAlwaysFits`). With 1 to 126 a connection may have to be dropped: the comment on
  `MAX_SYNC_BODY` (hyper-fast-path/src/fast_path.bpf.c:186-189) counts two bytes for an entry besides its
  strings, and an entry takes three.

## Model

| member | source | states |
|---|---|---|
| System.AlwaysKept | hyper-fast-path/src/fast_path.bpf.c:1044-1131 | on every run of serving, forwarding and cutting off: user space, once caught up, holds the kernel's table unless a request was served since (not dirty implies equal); what was forwarded, with the sync frames taken out, is the client's own bytes; what was served stays within what the client opened and granted; and no table update is forwarded before the client has acknowledged the server's SETTINGS |
| System.CoherentRuns | hyper-fast-path/src/fast_path.bpf.c:1060-1085 | for every run of the kernel, messages of any number of frames, and every life of a connection in user space whose opening reads no further than the handshake, stopped at any point: each frame the codec decoded was decoded against exactly the table mirrored before it, in order; each replacement of its table came after all spending reported by then; no update was one it could not apply; the bytes and blocks it got are a prefix of the forwarded messages and of the rendered tables |
| System.RunsInOrder | hyper-fast-path/src/fast_path.bpf.c:1022-1024 | on every run and in every such life no drain takes an update early, because nothing is answered before the handshake is over, and what was handed over followed by what is still to come is, in order, what the byte-at-a-time machine makes of what the kernel forwarded |
| System.OpensLevel | hyper-fast-path/src/fast_path.bpf.c:967-975 | an opening that reads no further than the handshake leaves nothing ahead of an update: there is none |
| System.CaughtUpMeansEqual | hyper-fast-path/src/fast_path.bpf.c:958-965 | a connection with nothing left to hand over has handed over exactly the forwarded messages and the rendered tables; its codec holds the kernel's table as of the last message forwarded, which is the kernel's table unless that is marked stale |
| System.SpendingConserved | hyper-fast-path/src/fast_path.bpf.c:1091-1106 | on every run and whenever the handles are drained: DATA bytes served = bytes the codec was told of + bytes waiting in the reader or in flight + bytes not yet reported, exactly until 4 GB were served and modulo 2^32 from then on |
| System.NeverBlind | hyper-fast-path/src/listener.rs:250-283 | nothing the kernel forwards makes the reader stop recognising sync frames, however it is cut up and drained |
| System.RawNeedsTheTable | hyper-fast-path/src/fast_path.bpf.c:1044-1081 | on every run, a message handed over without a sync frame is decoded against the right tables if and only if the kernel's table is the one it had when it last forwarded something, which it is whenever it is not marked stale |
| System.RawGoesWrong | hyper-fast-path/src/fast_path.bpf.c:1111-1115 | in every state in which a request can be answered, if answering it leaves another table than was handed over last, the message behind it, handed over as it is, is decoded against the wrong table; that is what the parse failure path does |
| Witness.TwoFramesGoThrough | hyper-fast-path/src/fast_path.bpf.c:1117-1128 | with a decoder that counts entries as section 4.1 of RFC 7541 does, a run acknowledges the server's SETTINGS, answers a request and then hands over a message of two frames behind the table and the report: what the whole-run theorems ask for can be had |
| Witness.RawGoesWrongHere | hyper-fast-path/src/fast_path.bpf.c:1111-1115 | the same run, handshake included, with the message behind the request handed over as it is: a concrete one that is decoded wrongly |
| Witness.AnswersARequest | hyper-fast-path/src/fast_path.bpf.c:910-1057 | the program upgrades a connection, hands the acknowledgement over, and answers the request behind it |
| System.FeedMessage | hyper-fast-path/src/server.rs:90-117 | a codec primed with a rendered table and then given a message ends up with the kernel's table behind that message, having decoded every frame against the kernel's tables |
| System.RunForwarded | hyper-fast-path/src/fast_path.bpf.c:1060-1131 | a forwarded message, with an optional 0xFA frame and then an optional 0xFB frame in front, is to the reader the report, the update and exactly the client's bytes, and leaves it between two frames |
| System.SyncReplays | hyper-fast-path/src/fast_path.bpf.c:408-457 | priming with what the kernel renders gives the decoder the kernel's table |
| System.WindowSafety | hyper-fast-path/src/fast_path.bpf.c:763-849 | on every run, whatever frames following the messages misses and whichever reports fail: the tracked window stays between 0 and 2^31-1 and the DATA bytes served never exceed 65535 plus what the client granted; while no report failed window + unreported stays within 2^31-1, so it never wraps |
| System.StreamWindowSafety | hyper-fast-path/src/fast_path.bpf.c:763-775 | on every run no response carries more than the connection and stream windows tracked when it is answered; if the messages forwarded before could be followed to their end, none carries more than the initial window last announced in their SETTINGS, 65535 if there was none |
| System.AnswersBehindAck | hyper-fast-path/src/fast_path.bpf.c:967-975 | whenever the handshake is over, a message went over before whose first frame is one of type 4 with the ACK flag set |
| System.ParseMessage | hyper-fast-path/src/fast_path.bpf.c:598-624 | a message of whole frames parses into exactly those frames |
| MsgVerdict.Program.Http2Verdict | hyper-fast-path/src/fast_path.bpf.c:952-1132 | each outcome for an HTTP/2 message is one step of the whole-run model, whichever helpers fail. With working helpers it is answered exactly if the handshake is over, the frame is neither SETTINGS nor WINDOW_UPDATE, a route was found, the table has at most 8 entries and the response fits windows and message. Otherwise all of it is handed over, and more only if the request reaches further, behind the sync frames the step calls for, and the spending is reported if the frame for it can be put in front. It is dropped, which ends the run, only if the table is stale and cannot be put in front, or answering failed midway |
| MsgVerdict.Program.Connection | hyper-fast-path/src/fast_path.bpf.c:910-1132 | the program on one message after the other is a run of the whole-run model, whose kernel state is what the maps hold and whose stream is the bytes that were applied; every message gets the verdict it deserves in the state the run was in |
| MsgVerdict.Program.OtherVerdict | hyper-fast-path/src/fast_path.bpf.c:990-1020 | the preface upgrades the connection with windows of 65535 and forwards 24 bytes; an unparsable message goes over untouched with the rest of the connection; an HTTP/1.1 request is answered exactly if its route fits, and otherwise handed over whole |
| MsgVerdict.Program.Forward | hyper-fast-path/src/fast_path.bpf.c:1060-1131 | the bytes handed over are the spending report, then the stale table, then the message, and all of them go over at once; the ledger is what following the message left of it, all of it if everything can be exposed and never more than was granted otherwise; the report is put off only if no frame can be put in front |
| MsgVerdict.Program.TryServe | hyper-fast-path/src/fast_path.bpf.c:1037-1057 | an answered request spends the response's DATA bytes and marks the table stale; a failed one leaves both alone |
| Listener.Scanner.Scan | hyper-fast-path/src/listener.rs:203-333 | one call scans up to the first table update and holds back the rest; with an update pending it holds back everything |
| Listener.Scanner.ScanPreface | hyper-fast-path/src/listener.rs:218-238 | a partial match advances, a full one starts framing, any divergence passes the whole input through for good |
| Listener.Scanner.ScanHeader | hyper-fast-path/src/listener.rs:240-284 | a header is passed on, or dropped for a sync frame or a rejected one |
| Listener.Scanner.ScanSyncBody | hyper-fast-path/src/listener.rs:312-330 | a complete update is handed over and everything behind it is held back |
| Listener.BeeperStream.PollRead | hyper-fast-path/src/listener.rs:409-453 | terminates apart from reads. It hands out at least one byte, and as many scanned ones as fit; waits only for an update to be taken, and then asks to be polled again, or for a socket with nothing more; and reports the end only if the socket did and nothing is left. A socket that fails loses nothing that was read |
| Listener.BeeperStream.Protocol | hyper-fast-path/src/listener.rs:370-392 | finding out the protocol is a sequence of looks that hand out nothing: what is still to come is unchanged; it answers HTTP/2 exactly if the preface matched, and gives up only if the socket fails or has nothing more |
| Listener.ConnectionLoop.Drain | hyper-fast-path/src/server.rs:90-117 | takes the reported spending first and then every update, oldest first; only if the codec turns one down does the connection end, and then nothing more is told |
| Listener.ConnectionLoop.Turn | hyper-fast-path/src/server.rs:85-122 | one turn is a complete round, for buffers of any size: what arrived, a drain, and polls until the stream has nothing more; or the connection ends |
| Listener.ConnectionLoop.Read | hyper-fast-path/src/server.rs:119-121 | the codec's polls end, and the last one finds nothing more unless the socket fails |
| Listener.ConnectionLoop.Serve | hyper-fast-path/src/server.rs:85-126 | the loop is one complete round after the other, for as long as the connection lives |
| Listener.ConnectionLoop.ServeConnection | hyper-fast-path/src/server.rs:46-54 | finding out the protocol, the handshake and the loop are together a life of a connection, with an opening that reads only what arrived first; it ends early only if the socket fails, the codec turns something down, or what arrived first does not lead into HTTP/2 framing |
| Listener.ConnectionLoop.Open | hyper-fast-path/src/server.rs:46-54 | the opening goes on to the loop exactly if what arrived first brings the reference machine into the framing, unless the socket fails |
| Listener.ConnectionLoop.Handshake | hyper-fast-path/src/server.rs:83 | reading the preface takes it from what was scanned already and never touches the socket |
| Listener.IngestMatches | hyper-fast-path/src/listener.rs:218-238 | until anything is handed out, the output starts with what was matched of the preface, whatever the chunks |
| Listener.DrainOvertakes | hyper-fast-path/src/listener.rs:90-93 | a chunk and one poll of one byte lead to a state in which taking the update hands it over ahead of bytes that came before it |
| Listener.IngestAhead | hyper-fast-path/src/listener.rs:203-333 | input without a complete update can be scanned ahead of the rest |
| Reading.PollEndsDrained | hyper-fast-path/src/listener.rs:416-452 | a poll that does not deliver leaves nothing scanned undelivered |
| Reading.PollAnswers | hyper-fast-path/src/listener.rs:414-452 | for every reader, socket and buffer: bytes are at least one and what fits, waiting means nothing is left to hand over but behind a pending update, and the end is only reported at the socket's with nothing scanned, held back or pending |
| Session.NoFalseEnd | hyper-fast-path/src/listener.rs:442-452 | in every life in which the client has not ended the stream no poll reports the end, whatever updates wait |
| Session.SplitDoesNotMatter | hyper-fast-path/src/listener.rs:203-333 | for every byte stream, well formed or not, every way of cutting it up and every order of polls and drains: total bytes, updates, reported spending and final state are those of the byte-at-a-time machine |
| Session.HandsOverInOrder | hyper-fast-path/src/listener.rs:195-207 | for every life of a connection in whose opening no update arrives, stopped at any point: what was handed over followed by what is still to come is, in order, what the byte-at-a-time machine makes of everything that arrived |
| Session.LifeOrdered | hyper-fast-path/src/server.rs:85-122 | an opening that leaves nothing ahead of an update, then any number of complete rounds and one under way, never takes an update ahead of what it arrived behind |
| Session.QuietOpening | hyper-fast-path/src/server.rs:83 | an opening in which no update arrives leaves nothing ahead of one |
| Session.BarrierHolds | hyper-fast-path/src/listener.rs:90-103 | in every reachable state, drains at any time included: a pending update is the next one of the stream, it is the only one, and the bytes handed over or ready to be are exactly those ahead of it |
| Session.MovesAhead | hyper-fast-path/src/listener.rs:409-453 | whatever moves are made and however early updates are taken, the bytes ahead of each update stay the same |
| Session.TakeKeepsOrder | hyper-fast-path/src/listener.rs:79-93 | taking an update keeps it in order with bytes and reports if and only if no byte and no report ahead of it is left in the reader |
| Session.RoundOrdered | hyper-fast-path/src/server.rs:85-122 | a complete round takes its updates in order and leaves nothing scanned that the next drain could overtake |
| Session.RunTotals | hyper-fast-path/src/listener.rs:203-453 | no sequence of moves, drains at any time included, loses or duplicates a byte, an update or a reported byte |
| Session.MoveSame | hyper-fast-path/src/listener.rs:409-453 | no move loses, invents or doubles anything; each keeps what was handed over together with what is still to come the same and in order, unless it is a drain that overtakes scanned bytes |
| Reading.PollValid | hyper-fast-path/src/listener.rs:408-453 | at most one update is ever pending, and none before the preface was matched |
| Reading.IngestFuture | hyper-fast-path/src/listener.rs:203-333 | scanning a chunk changes nothing about what is still to come, so bytes are never reordered around the barrier |
| Reading.PollFuture | hyper-fast-path/src/listener.rs:409-453 | what a poll returns followed by what is still to come is what was to come before it |
| Reading.ScanHoldsOnlyBehindBlock | hyper-fast-path/src/listener.rs:325-328 | bytes are only held back behind a pending update |
| Reading.PendingMeansDrained | hyper-fast-path/src/listener.rs:422-430 | a poll only waits with every byte ahead of the update delivered, and with the socket empty unless an update is pending |
| Reading.PollBacklog | hyper-fast-path/src/listener.rs:416-452 | each poll that delivers shrinks what is buffered, which is why polling ends |
| Reading.PrefaceDecides | hyper-fast-path/src/listener.rs:218-238 | on every input: a proper prefix of the preface leaves the machine matching, the whole preface starts the framing, anything else is passed through for good |
| Reading.NeverBackToPreface | hyper-fast-path/src/listener.rs:372-376 | once the preface is decided the reader never asks for it again |
| Scanning.ScanThenRun | hyper-fast-path/src/listener.rs:203-333 | a scan followed by the machine on what was held back is the machine on the whole input |
| Scanning.RunConcat | hyper-fast-path/src/listener.rs:137-166 | the byte-at-a-time machine does not depend on how its input is split |
| Scanning.ScanStopsAtBlock | hyper-fast-path/src/listener.rs:318-329 | one scan emits at most one update and nothing behind it |
| Scanning.ScanAhead | hyper-fast-path/src/listener.rs:211-332 | input on which the machine emits no update can be scanned ahead of what follows |
| Scanning.RunBadPreface | hyper-fast-path/src/listener.rs:221-229 | a preface that diverges anywhere leaves the whole input passed on |
| Scanning.ScanSync | hyper-fast-path/src/listener.rs:312-330 | the body of a sync frame becomes one update however it is chunked |
| Scanning.RunFlow | hyper-fast-path/src/listener.rs:297-310 | four bytes become one big-endian report, however they are chunked |
| Scanning.FrameMeans | hyper-fast-path/src/listener.rs:250-330 | frame by frame: type 0xFA with four bytes is taken out and counted, type 0xFB up to 65536 bytes is taken out and handed over, anything else passes; a rejected one of either type loses its header and everything from there on passes for good |
| Scanning.PrefaceText | hyper-fast-path/src/listener.rs:56 | the preface is the text of section 3.5 of RFC 7540 |
| Hpack.ReplayRoundTrip | hyper-fast-path/src/fast_path.bpf.c:426-457 | decoding a rendered table from an empty one (sections 5.2 and 6.2.1 of RFC 7541) rebuilds it entry for entry, each string with its own H bit, and evicts nothing if the table fits the decoder's limit |
| Hpack.ReplayFits | hyper-fast-path/src/fast_path.bpf.c:412-417 | whatever block is replayed, the table stays within the decoder's limit (section 4.4 of RFC 7541) |
| Hpack.EntryRoundTrip | hyper-fast-path/src/fast_path.bpf.c:437-453 | a rendered entry decodes to itself and leaves what follows it |
| Hpack.LongerStringsNeedMore | hyper-fast-path/src/fast_path.bpf.c:439-442 | a string of 127 bytes behind the single length byte the renderer writes would not be read back, so the bound of 126 is the right one |
| Hpack.HuffmanExample | hyper-fast-path/src/fast_path.bpf.c:444-453 | the field of section C.4.3 of RFC 7541 is rendered to the bytes given there |
| Hpack.EvictKeepsMost | hyper-fast-path/src/fast_path.bpf.c:412-417 | eviction, as section 4.4 of RFC 7541 has it, stops as soon as what is left fits |
| DtSync.SyncAlwaysFits | hyper-fast-path/src/fast_path.bpf.c:439-454 | every table of at most 8 entries the encoder can spell out, of strings the parser can hold, can be handed over if and only if the parser keeps at least 127 bytes of a string, or none at all |
| DtSync.SyncBuf.Put | hyper-fast-path/src/fast_path.bpf.c:373-393 | success appends exactly the bytes and failure leaves the buffer unchanged, so the index clamps never act |
| DtSync.SyncBuf.Render | hyper-fast-path/src/fast_path.bpf.c:426-457 | succeeds exactly if every entry is renderable and the block fits, and then the buffer holds the rendered table, oldest entry first |
| DtSync.RenderTableBound | hyper-fast-path/src/fast_path.bpf.c:426-457 | a renderable table takes at most three bytes and two strings of 126 an entry |
| Prepending.PrependDtSync | hyper-fast-path/src/fast_path.bpf.c:469-527 | the message becomes frame header, rendered block, original bytes; it fails exactly if the table does not render or the frame does not fit, and then leaves the message alone |
| Prepending.WriteBody | hyper-fast-path/src/fast_path.bpf.c:511-522 | the rendered block lands behind the header byte for byte, and the checks made for the verifier never fail |
| Prepending.PrependFcSync | hyper-fast-path/src/fast_path.bpf.c:632-659 | the message becomes a 13 byte report followed by the original bytes, or is left alone |
| Prepending.MakeRoom | hyper-fast-path/src/fast_path.bpf.c:489-490 | room is made in front and exposed; only a failed expose right after a successful push leaves the message grown |
| FlowControl.TrackIsProtocol | hyper-fast-path/src/fast_path.bpf.c:531-624 | for at most 16 frames whose SETTINGS have at most 16 parameters, and that do not end the connection, what is tracked is what sections 6.5, 6.5.2, 6.9, 6.9.1 and 6.9.2 of RFC 7540 make of the windows; overflow, a zero increment, an illegal window and a malformed frame are connection errors there |
| FlowControl.ReadSettingsStops | hyper-fast-path/src/fast_path.bpf.c:567-584 | a window that is not legal is not acted on, nor is anything behind it in the frame |
| FlowControl.TrackBounds | hyper-fast-path/src/fast_path.bpf.c:549-558 | tracking never shrinks the connection window, never lets it pass 2^31-1 nor grow by more than was granted, and never touches what is unreported |
| FlowControl.TrackFlow | hyper-fast-path/src/fast_path.bpf.c:598-624 | on a message of whole frames the ledger follows its first 16 frames, which is what the protocol makes of the windows if there are no more, their parameters are no more than 16 each and none ends the connection; on any message and with helpers failing it only ever grows, within what was granted |
| FlowControl.TrackSettings | hyper-fast-path/src/fast_path.bpf.c:561-584 | the last legal initial window wins and reading stops at an illegal one |
| FlowControl.TrackWindowUpdate | hyper-fast-path/src/fast_path.bpf.c:542-558 | only a connection level update counts, without its reserved bit, and the window stops at 2^31-1 |
| FlowControl.GrantedPrefix | hyper-fast-path/src/fast_path.bpf.c:604-623 | what the first frames of a message grant is never more than what all of them do, so frames missed behind the first 16 cannot open the window too far |
| Serving.ServeRoute | hyper-fast-path/src/fast_path.bpf.c:754-852 | on 0 the message is exactly the response followed by the bytes behind the request, the response fitted both the connection and the stream window, and the ledger is debited; -1 leaves message and ledger untouched; -2 never debits and comes only behind a resize that succeeded, unless there was nothing to resize or no room; with working helpers it is 0 exactly if the response fits |
| Serving.Grow | hyper-fast-path/src/fast_path.bpf.c:779-798 | fourteen pushes always reach the target, and the bytes on both sides of the gap are kept |
| Serving.Resize | hyper-fast-path/src/fast_path.bpf.c:779-801 | growing or shrinking leaves the bytes behind the request right behind room for the response |
| Serving.CopyResponse | hyper-fast-path/src/fast_path.bpf.c:803-824 | the windows cover the response exactly |
| Serving.CopyChunk | hyper-fast-path/src/fast_path.bpf.c:691-744 | blocks of 256 bytes and a tail copy exactly the bytes asked for, failing exactly if the window is short |
| Serving.PatchSids | hyper-fast-path/src/fast_path.bpf.c:826-838 | the stream id lands at every recorded offset and nowhere else |
| Serving.WriteSid | hyper-fast-path/src/fast_path.bpf.c:667-682 | the four bytes at the offset become the stream id, all others stay |
| Serving.PatchFront | hyper-fast-path/src/fast_path.bpf.c:826-838 | patching the response does not reach the bytes behind it |
| Rendering.ServedResponseWellFormed | hyper-fast-path/src/fast_path.rs:144-186 | parsing the patched rendering gives one END_HEADERS HEADERS frame and then DATA frames of at most 16384 bytes, all on the stream, END_STREAM on exactly the last, payloads adding up to the file (empty ones included) |
| Rendering.HeaderBlockDecodes | hyper-fast-path/src/fast_path.rs:156-160 | the header block decodes to status 200, the content length in decimal and the content type, at indices 8, 28 and 31 of the static table |
| Rendering.H1Reads | hyper-fast-path/src/fast_path.rs:106-119 | splitting the HTTP/1.1 rendering at its line breaks gives the status line, the three headers with the length of the file in decimal, and the file |
| Rendering.PatchedFrames | hyper-fast-path/src/fast_path.rs:164-182 | patching the recorded offsets of a rendering is rendering the frames with that stream id |
| Rendering.SidTableSuffices | hyper-fast-path/src/fast_path.rs:243-246 | a rendering within 448 KB never has more than 29 stream id offsets |
| Rendering.RenderH2 | hyper-fast-path/src/fast_path.rs:152-186 | the loop produces the frames, the offset of each stream id and the length of the file |
| Arena.LayoutTiles | hyper-fast-path/src/fast_path.rs:219-273 | the regions of all responses tile the arena from 0 to its length, which is at most 896 KB a route; the assets kept are exactly those that fit |
| Arena.TilesDisjoint | hyper-fast-path/src/fast_path.rs:237-255 | regions that tile are pairwise disjoint and inside |
| Arena.TilesCover | hyper-fast-path/src/fast_path.rs:237-255 | every arena byte below the length is in some region |
| Arena.Prepare | hyper-fast-path/src/fast_path.rs:219-273 | lays out exactly the assets whose HTTP/1.1 rendering fits, or refuses if a path is too long or there are too many |
| Arena.Load | hyper-fast-path/src/fast_path.rs:347-380 | every region holds its bytes after all writes, in just enough pages |
| Arena.Attach | hyper-fast-path/src/fast_path.rs:219-382 | the configured files end up in a table and an arena that hold everything the results below ask for, small enough for 32 bit offsets, or the configuration is refused |
| Arena.RoutesPlaced | hyper-fast-path/src/fast_path.rs:325-345 | every route's offsets lie inside the arena, point at its renderings and are not changed by being cut to 32 bits |
| Arena.ServedResponse | hyper-fast-path/src/fast_path.rs:325-380 | what is served over HTTP/2 for a route parses as the whole response of its asset on the stream, and the DATA debited is its length |
| Arena.ServedH1Response | hyper-fast-path/src/fast_path.rs:325-380 | what is served over HTTP/1.1 for a route splits into the status line, the headers and the file of its asset, with its length |
| DummyPool.AlwaysSound | hyper-fast-path/src/fast_path.bpf.c:1170-1225 | every step of kernel and recycler keeps the pool partitioned, paired, clean, tagged and in order |
| DummyPool.ExactlyOnePlace | hyper-fast-path/src/dummies.rs:128-198 | on every run each dummy is in exactly one of free, lent, released, quarantined, being reset, lost |
| DummyPool.OwnersMatch | hyper-fast-path/src/fast_path.bpf.c:1177-1212 | on every run live connections and active owners are in bijection |
| DummyPool.RecoversSender | hyper-fast-path/src/fast_path.bpf.c:914-933 | on every run, a message is taken to come from the connection that sent it exactly as long as that connection holds the dummy, and is dropped otherwise |
| DummyPool.LendsClean | hyper-fast-path/src/dummies.rs:170-193 | on every run a dummy that is lent has a fresh psock, no parser entry, an empty backlog and no active owner, and the connection's key is in none of the per-connection maps |
| DummyPool.QuarantineHolds | hyper-fast-path/src/dummies.rs:135-157 | on every run a dummy whose reset begins was taken off the ring buffer at least 100 milliseconds before, and none that still waits was taken off earlier |
| DummyPool.SentIsQueued | hyper-fast-path/src/fast_path.bpf.c:1150-1165 | in every reachable state what a live connection sends joins the end of its own dummy's backlog and no other |
| DummyPool.OneMessageProcessed | hyper-fast-path/src/fast_path.bpf.c:925-933 | running the program takes exactly the first message off a dummy's backlog |
| DummyPool.NeverOverflows | hyper-fast-path/src/fast_path.rs:352-361 | on every run no map outgrows the pool, a connection fits whenever a dummy is free, and a dummy that was reset fits the queue |
| DummyPool.NothingLeaks | hyper-fast-path/src/dummies.rs:154-156 | without a full ring buffer or a failed reset every dummy is free, lent or on its way back |
| DummyPool.CleanKept | hyper-fast-path/src/dummies.rs:165-198 | no step makes a free dummy carry anything over |
| DummyPool.TagsKept | hyper-fast-path/src/fast_path.bpf.c:1150-1165 | no step leaves something on a lent dummy's backlog that its connection did not send |
| Dummies.Maps.AddConn | hyper-fast-path/src/fast_path.bpf.c:1170-1200 | lends the next dummy, or rolls every step back whichever call failed |
| Dummies.Maps.RemoveConn | hyper-fast-path/src/fast_path.bpf.c:1204-1225 | takes the dummy back with the state kept for the connection; a full ring buffer loses the dummy |
| Dummies.Maps.Skb | hyper-fast-path/src/fast_path.bpf.c:1136-1166 | what a live connection sends goes to its own dummy, the end of its stream to user space |
| Dummies.Maps.Message | hyper-fast-path/src/fast_path.bpf.c:925-933 | the owner of the dummy is whom the message is from, if it is active |
| Dummies.Maps.Reset | hyper-fast-path/src/dummies.rs:165-198 | a dummy returns to the pool exactly if every call succeeded, each leaving what the reset of the whole-run model says |
| Dummies.Maps.OnReleased | hyper-fast-path/src/dummies.rs:134-141 | a released dummy is stamped with the time it was collected at, behind those collected before |
| Dummies.Maps.Recycle | hyper-fast-path/src/dummies.rs:148-157 | whatever the clock shows at each look, exactly the dummies at the front that were left alone for 100 milliseconds are reset, all others are younger, and every one whose reset succeeds is free again, in release order |
| Dummies.Maps.constructor | hyper-fast-path/src/dummies.rs:67-95 | opens the pool with every dummy free |
| Wire.ParseEncode | hyper-fast-path/src/fast_path.rs:132-142 | an encoded frame parses back (section 4.1 of RFC 7540), whatever follows it |
| Wire.HeaderBytes | hyper-fast-path/src/fast_path.rs:132-142 | a frame header is the nine bytes of section 4.1 of RFC 7540 |
| Wire.ParseEncodeAll | hyper-fast-path/src/fast_path.rs:152-186 | a sequence of encoded frames parses back into it |

## Left out

- FlowControl.TrackIsProtocol: stated for messages of at most 16 frames with at most 16 parameters each, because the code reads no further; what holds of every other message is `FlowControl.TrackFlow` and `FlowControl.GrantedPrefix`.
- System.SpendingConserved: exact only until 4 GB were served and modulo 2^32 from then on, because the report frame and the reader's counter are 32 bits wide.
- System.CoherentRuns: that the opening reads no further than the handshake is what a client that waits for the server's SETTINGS makes sure of; one that acknowledges them unseen is not covered.
- Listener.ConnectionLoop.Drain: when the codec turns down spending or an update is open, because that is decided inside `h2`; both are modelled as possible at any time.
- MsgVerdict.Program.Http2Verdict: parsing, the lookup of a route by its path and the arithmetic on content lengths are inputs of the method, not part of it; a length that overflows an `int` is not modelled.
- MsgVerdict.Program.Connection: follows a run of the system as long as every message that is not answered holds a header block only in its first frame, which is the assumption above.
- MsgVerdict.Program.OtherVerdict: takes the verdict of the HTTP/1.1 parser as an input too.
- Serving.CopyChunk: the eight byte words of a block are moved as eight bytes, alignment is not modelled.
- Rendering.H1Reads: which content type goes with which file extension is a table taken as it is.
- Dummies.Maps.Recycle: one pass over the deque; the loop around it, the stop flag and an error of the ring buffer poll are left out.
- Dummies.Maps.Reset: a call that fails with "not found" on the parser's table counts as one that succeeds, as in the code.
- The pool: which address belongs to which dummy (`dummy_idx`, `conn_key`) is taken to be one to one.
- The server's own DATA: it spends the client's window without the ledger seeing it, as the source documents.
- Whether a stale table can always be handed over: an answered request may leave it with more than 8 entries or with fields that do not fit, and the code then drops the connection.
- Huffman coding, file reading, HTTP/1.1 service, the async runtime, file descriptor limits, program lookup, logging and benchmarks: wrappers around libraries and I/O.
- Psock, cork and backlog internals: kept to whether a dummy's psock has been used and what is on its backlog.
