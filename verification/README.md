# Remote Assistance channel and monitor layout: a verified model

Two parts of the client are modelled in Dafny and proved about:

* the **Remote Assistance (remdesk) channel**, client and server: the codec of
  its control PDUs, the reassembly of channel chunks into messages, the queue and
  the worker thread behind it, the answers of both sides, the server's
  read-and-dispatch loop, and the protocol that these parts make together;
* **`xf_detect_monitors`**: which monitors are used, the rectangle around them
  under percentage scaling, the primary monitor, and the desktop size.

Code that changes things step by step is imperative here too: streams, the plugin,
the server and the X11 client context are classes whose methods carry the loops and
field updates of the C functions. Each method is proved against a function of its
inputs, and what the program promises is proved about those functions, for every
input, run and interleaving.

| file | what it holds |
|---|---|
| `Wire.dfy` | bytes, little-endian words, UTF-16 characters, 32-bit wrap-around, error codes |
| `WStream.dfy` | the byte stream: buffer, position, sealed length |
| `RemdeskCommon.dfy` | channel header, control header, whole PDUs; the round trips |
| `Reassembly.dfy` | chunks to messages as a function, and its theorems over event sequences |
| `ClientSpec.dfy`, `RemdeskClient.dfy` | what the client sends, as functions; the plugin class |
| `ServerSpec.dfy`, `RemdeskServer.dfy` | parsers, answers and framing, as functions; the server class |
| `Lifecycle.dfy` | event thread, worker and write completions interleaved: ownership and order |
| `Session.dfy` | what the client sends along those interleavings |
| `Progress.dfy` | which steps continue a run; that every session can be completed, and exists |
| `Exchange.dfy` | what each side does with a whole PDU of each type; that the server understands the client |
| `Handshake.dfy` | both programs over lossless channels, byte for byte: safety and termination |
| `MonitorSpec.dfy`, `XfMonitor.dfy` | monitor layout as functions; the client context class |
| `Layout.dfy` | the result of the whole computation in the coordinates of the screens X reports |

## What is taken from outside the code

* The header `freerdp/channels/remdesk.h` is not part of this model. From the code
  that uses it: `ChannelName` holds 32 chars (the fill loop's bound, and the reader's
  cap of 64 bytes), and `REMDESK_CHANNEL_CTL_SIZE` is 22. Control message types are
  1 to 12 as in section 2.2 of [MS-RA]. The code `REMDESK_ERROR_HELPEESAIDNO` is the
  parameter `helpeeSaidNo`; where a RESULT 0 has to be told apart from it, it is not zero.
* Chunk flags mean what sections 2.2.6.1.1 and 3.1.5.2.2.1 of [MS-RDPBCGR] say.
* String conversion, hex, encryption and blob construction are function parameters.
  Whether the length a UTF-16 conversion reports counts the terminator is the
  parameter `countsTerminator`. The only promise used is `RecoversText`: terminated
  7-bit text that fits the name buffer is recovered. Plain chars are signed.
* Settings, allocations, writes, waits and X queries answer through parameters, each
  of which may fail. A stream that must grow gets the capacity the allocator offers
  and is zero-filled. A write or seek past the capacity is an assertion of the stream
  library that stops the process; it and a read outside a buffer are the status `Abort`.
* A read from the server's channel yields one PDU whole, or fails and reports the
  size of the waiting one.

## Where the promise does not hold, and exactly when it does

* `remdesk_prepare_ctl_header` guards against overflow of `4 + msgSize`, but the senders
  then add 22 in 32 bits, and the server adds both header words and 8. The PDU fits
  its allocation and its computed length if and only if `DataLength <= 2^32 - 1 - 22`
  (`RemdeskCommon.ExactFit`).
* The server's AUTHENTICATE parser undoes the client's encoder if and only if the
  encoder's lengths count the terminators (`ServerSpec.AuthenticateUndoesEncoder`).
  REMOTE_CONTROL_DESKTOP without counted terminators is accepted if and only if the
  buffer happens to hold a zero behind the payload (`ServerSpec.RemoteControlUncounted`).
* Both scans may look behind the buffer for a terminator: that happens if and only if
  there is no zero to the buffer's end and the announced length is odd, where it wraps
  and bounds nothing, or reaches that end (`ServerSpec.OverrunsExactly`; for the two
  strings of AUTHENTICATE `ServerSpec.AuthenticateOverruns`).
* The server's loop relies on the length in a PDU's own header: under the channel
  contract no PDU is lost, repeated or reordered if and only if every PDU read is no
  longer than its header says (`ServerSpec.FramingExact`).
* A completed message is the bytes since its FIRST at the announced length if and
  only if those bytes do not exceed what was announced
  (`Reassembly.CompletedMessageIsIntact`, inputs in `Reassembly.OverlongMessages`).
* A chunk that is not a FIRST and finds no message open, because none was begun, its
  FIRST got no stream, or it was filled and ended, stops the process in the stream
  library. A sequence of events goes through if and only if it has no such chunk, which
  flags, lengths and the allocator's answers decide (`Reassembly.RunsExactly`). Theorems
  over runs are about runs up to such a stop.
* The handshake ends with RESULT 0 if and only if the blob built from the answers the
  client meets at VERSIONINFO has at least eight bytes (`Handshake.MaximalRun`).
* A percentage of 1 to 100 does not make the casts of the virtual screen's extents
  hold: the loop scales the rectangle again on every turn, and it may become empty. On
  one 1920 by 1080 monitor, two percent of width and height stops the process
  (`MonitorSpec.TwoPercentStops`). With percentages of at most 100 the cast on an axis
  holds if and only if some monitor's far edge, scaled by its own turn of the loop and
  all later ones, ends up beyond some monitor's near edge scaled likewise
  (`MonitorSpec.CastsExact`). No listed monitor being too small for the percentages
  suffices (`MonitorSpec.ExtentsFit`).
* For the same reason the far edge the loop computes, before the near edge is
  subtracted, is the true one if and only if widths are not scaled or it is 0
  (`MonitorSpec.RightEdgeExact`). What is stored is the greatest scaled far edge less
  the least scaled near edge, the true extent when the axis is not scaled
  (`MonitorSpec.StoredExtent`). Scaling down can enlarge it: two monitors 100 wide, side
  by side from column 1800, give 275 at fifty percent (`MonitorSpec.ScalingEnlarges`).
* The fallback search for a primary monitor uses a requested id as an index, which may
  lie outside the array. Altogether the computation stops if and only if a coordinate X
  reports does not fit 16 bits, a percentage exceeds 100, a cast of an extent or of a
  requested work area's rows fails, or that index exceeds the number of monitors while
  the first requested one is not active (`MonitorSpec.DetectCompletes`).
* A percentage of the screen is taken in 32 bits: it is exact if and only if the product
  fits (`MonitorSpec.ScaledSizeExact`), which it always does for a monitor and a percentage of at most 100.
* Modelled as written, against what the comments or names suggest: a client that
  receives an unsupported version logs it as an error, records it and returns none; a monitor's
  height is scaled by the width flag; the fallback monitor's height, where it is less than
  the height asked for, is replaced by its width.

## Model

| member | source | states |
|---|---|---|
| RemdeskCommon.WidenName | channels/remdesk/common/remdesk_common.c:31-36 | the fill loop leaves the name in UTF-16 with its terminator at the front of the 32 characters |
| RemdeskCommon.WidenKeepsSign | channels/remdesk/common/remdesk_common.c:32-36 | a char keeps its signed value modulo 2^16 when it is widened |
| RemdeskCommon.WriteChannelHeader | channels/remdesk/common/remdesk_common.c:26-46 | appends exactly the encoded header (name length in bytes, DataLength, terminated name) to what was written |
| RemdeskCommon.WriteCtlHeader | channels/remdesk/common/remdesk_common.c:48-61 | appends the encoded channel header and then the message type |
| RemdeskCommon.ReadChannelHeader | channels/remdesk/common/remdesk_common.c:63-91 | on every input: the parsed header with the position behind it, or the error code of the first failing test |
| RemdeskCommon.PrepareCtlHeader | channels/remdesk/common/remdesk_common.c:93-105 | refuses exactly the sizes whose sum with 4 needs a 33rd bit; otherwise the name is RC_CTL and DataLength is 4 more than the payload |
| RemdeskCommon.ChannelHeaderRoundTrip | channels/remdesk/common/remdesk_common.c:26-91 | reading what was written recovers name and DataLength for every 7-bit name of at most 15 characters, and consumes 8 + 2(len + 1) bytes whatever follows |
| RemdeskCommon.ParsesExactly | channels/remdesk/common/remdesk_common.c:63-91 | a header is accepted if and only if the buffer starts with its encoding, a field of whole characters of at most 64 bytes whose conversion is the name; fewer than eight bytes are one error, everything else the other |
| RemdeskCommon.ControlPduRoundTrip | channels/remdesk/client/remdesk_main.c:627-665 | for every type and payload the reader recovers RC_CTL, DataLength, type and payload, and leaves what follows unread |
| RemdeskCommon.ExactFit | channels/remdesk/client/remdesk_main.c:198-214 | a PDU fills its allocation, and equals the length the server computes, exactly when DataLength is at most 2^32 - 1 - 22; the sender with the wide sum always fits |
| RemdeskCommon.BuildsExactly | channels/remdesk/client/remdesk_main.c:192-214 | given memory a sender builds its PDU if and only if 22 more than DataLength needs no 33rd bit or is summed wide, with the error of each other case |
| RemdeskCommon.VersionInfoBytes | channels/remdesk/server/remdesk_main.c:96-128 | the announced version, byte for byte: header, RC_CTL, type 6, version 1 and 2 |
| RemdeskCommon.BuildPdu | channels/remdesk/client/remdesk_main.c:192-214 | a built stream holds the whole PDU and nothing else, sealed at its capacity; otherwise the error of the step that failed |
| Reassembly.Reassemble | channels/remdesk/client/remdesk_main.c:678-735 | however non-empty messages are cut and wherever SUSPEND and RESUME fall, the queue receives exactly the messages in order, byte for byte, without error, whatever was open before |
| Reassembly.CollectMessage | channels/remdesk/client/remdesk_main.c:705-732 | the events up to a message's last chunk post that one message and leave nothing open |
| Reassembly.CompletedMessageIsIntact | channels/remdesk/client/remdesk_main.c:707-732 | at every event of every run: a completed message is all bytes since the latest FIRST at the announced length, exactly when they do not exceed it; a short LAST completes nothing and is an error |
| Reassembly.FirstDiscardsPartial | channels/remdesk/client/remdesk_main.c:691-703 | a FIRST chunk has the same effect whatever was being collected |
| Reassembly.OverlongMessages | channels/remdesk/client/remdesk_main.c:707-721 | two concrete runs: a message longer than announced is posted, and one that lost a chunk is posted at its announced length |
| Reassembly.RunsExactly | channels/remdesk/client/remdesk_main.c:691-723 | a sequence of events goes through exactly when every continuation chunk comes while a message is begun, has its stream and is not ended; what is open then has the capacity and fill that flags and lengths give |
| Reassembly.RunConcat | channels/remdesk/client/remdesk_main.c:678-735 | a run over two event sequences in a row is the second run from where the first left off |
| RemdeskClient.RemdeskPlugin.EventDataReceived | channels/remdesk/client/remdesk_main.c:678-735 | the open stream, the queue and the error code become what the reassembly function says; the stream a FIRST replaces is freed; a chunk with no message open is the library's stop |
| RemdeskClient.RemdeskPlugin.AppendChunk | channels/remdesk/client/remdesk_main.c:705-732 | a chunk for an open message: growth refused and nothing changed, message still open, LAST too early and still open, or completed and posted or dropped |
| RemdeskClient.RemdeskPlugin.OpenMessage | channels/remdesk/client/remdesk_main.c:691-703 | the previous stream is freed; a new empty one of the announced capacity is open unless memory or length is missing |
| RemdeskClient.RemdeskPlugin.Append | channels/remdesk/client/remdesk_main.c:705-713 | the chunk is added behind what was written, the stream grown only when needed; a refused growth changes nothing |
| RemdeskClient.RemdeskPlugin.Complete | channels/remdesk/client/remdesk_main.c:715-732 | a full stream moves from data_in to the end of the queue; one that is not full stays open with an error; a failed post drops it |
| RemdeskClient.RemdeskPlugin.VirtualChannelWrite | channels/remdesk/client/remdesk_main.c:42-64 | an accepted write puts exactly the stream's sealed bytes on the wire; a refused one frees the stream and puts nothing |
| RemdeskClient.RemdeskPlugin.GenerateExpertBlob | channels/remdesk/client/remdesk_main.c:71-131 | the blob is built once, from the stub just stored and the user name or Expert; every failing library call is an error |
| RemdeskClient.RemdeskPlugin.Transmit | channels/remdesk/client/remdesk_main.c:186-220 | one message goes out whole, or none and the error of building or writing it |
| RemdeskClient.RemdeskPlugin.SendAuthenticate | channels/remdesk/client/remdesk_main.c:262-332 | sends ticket and blob; a failed string conversion sends nothing and is no error |
| RemdeskClient.RemdeskPlugin.SendRemoteControlDesktop | channels/remdesk/client/remdesk_main.c:339-388 | sends the ticket; a failed conversion is an error |
| RemdeskClient.RemdeskPlugin.SendVerifyPassword | channels/remdesk/client/remdesk_main.c:395-447 | sends the blob; a failed conversion sends nothing and is no error |
| RemdeskClient.RemdeskPlugin.SendExpertOnVista | channels/remdesk/client/remdesk_main.c:454-493 | sends the stub bytes the blob was built from |
| RemdeskClient.RemdeskPlugin.SendBurst | channels/remdesk/client/remdesk_main.c:541-593 | the sends a version sets off, in order, stopping at the first error |
| RemdeskClient.RemdeskPlugin.RecvCtlPdu | channels/remdesk/client/remdesk_main.c:500-620 | dispatch on the message type, every short and unknown message rejected, a refusal by the user reported |
| RemdeskClient.RemdeskPlugin.ProcessReceive | channels/remdesk/client/remdesk_main.c:627-665 | header errors are passed on, RC_CTL is dispatched, other names are ignored |
| RemdeskClient.RemdeskPlugin.ProcessNext | channels/remdesk/client/remdesk_main.c:817-829 | the head of the queue is processed and freed, the rest of the queue is untouched |
| RemdeskClient.RemdeskPlugin.ClientThread | channels/remdesk/client/remdesk_main.c:798-830 | queued messages are processed in order and freed up to the first error or the first failing wait; the wire grows by exactly the bursts of the processed ones |
| ClientSpec.BurstShape | channels/remdesk/client/remdesk_main.c:541-593 | a burst is the fixed list of its minor version, cut to a prefix by a failed write and thinned only of messages whose string conversion failed |
| ClientSpec.ProcessIsBurst | channels/remdesk/client/remdesk_main.c:500-620 | processing a VERSIONINFO is its burst, processing anything else sends nothing and keeps the state |
| ClientSpec.TraceIsBursts | channels/remdesk/client/remdesk_main.c:541-620 | against any server and any failures, each processed message contributes the burst its minor version fixes or nothing; only the last may be cut, and it is cut exactly when the worker ended in error |
| ClientSpec.BlobAgreement | channels/remdesk/client/remdesk_main.c:71-131 | over every run the blob and stub never change once built, and every AUTHENTICATE, VERIFY_PASSWORD and EXPERT_ON_VISTA sent carries them, the blob being built from that stub; AUTHENTICATE and REMOTE_CONTROL_DESKTOP carry the ticket their senders met |
| ServerSpec.ScanStops | channels/remdesk/server/remdesk_main.c:178-182 | where a scan stops there are only non-zero characters before it and, for an even length, no more than the length announces |
| ServerSpec.ScanReaches | channels/remdesk/server/remdesk_main.c:178-182 | the scan runs to the first zero or to the announced end and leaves the length it did not use |
| ServerSpec.TakesExactly | channels/remdesk/server/remdesk_main.c:174-188 | a string is taken if and only if the buffer starts with it, terminated, not empty and within the announced length |
| ServerSpec.AuthenticateExact | channels/remdesk/server/remdesk_main.c:208-243 | AUTHENTICATE is accepted with a given ticket and blob if and only if the buffer starts with those two strings within the announced length |
| ServerSpec.AuthenticatePayload | channels/remdesk/server/remdesk_main.c:214-243 | two terminated strings are recovered when both are non-empty, refused otherwise, and nothing behind them matters |
| ServerSpec.AuthenticateUncounted | channels/remdesk/server/remdesk_main.c:224-240 | a payload without terminators is never accepted, whatever lies behind it |
| ServerSpec.OverrunsExactly | channels/remdesk/server/remdesk_main.c:174-185 | a string is looked for behind the buffer if and only if no zero is left in it and the length is odd or reaches its end |
| ServerSpec.AuthenticateOverruns | channels/remdesk/server/remdesk_main.c:214-240 | the two-string scan reads behind the buffer if and only if the first string overruns, or is found and the second one overruns |
| ServerSpec.StringsAbort | channels/remdesk/server/remdesk_main.c:168-260 | serving either message stops the process exactly then; answering never does |
| ServerSpec.AuthenticateUndoesEncoder | channels/remdesk/client/remdesk_main.c:283-321 | the server recovers both strings the client encoded exactly when the client's lengths count the terminators |
| ServerSpec.RemoteControlUncounted | channels/remdesk/server/remdesk_main.c:168-188 | without a counted terminator the string is taken exactly when a zero happens to follow the payload |
| ServerSpec.DispatchExact | channels/remdesk/server/remdesk_main.c:501-536 | a PDU read into an empty buffer is dispatched if and only if it is no longer than its header says, and only then is the position zero again |
| ServerSpec.DispatchServes | channels/remdesk/server/remdesk_main.c:517-536 | the turn that dispatches a PDU writes and returns what serving exactly that PDU does |
| ServerSpec.LeftoverFrame | channels/remdesk/server/remdesk_main.c:501-536 | a PDU read over an incomplete one lands at the start, the position counts both, and what is dispatched is the new PDU with what the old one left behind it; both not fitting stops the process |
| ServerSpec.ReadyTurn | channels/remdesk/server/remdesk_main.c:495-536 | a ready turn lets the loop go on exactly when it reports no error, and which error it reports |
| ServerSpec.RunThen | channels/remdesk/server/remdesk_main.c:470-537 | a run over two schedules in a row is the second from where the first left off, or the first when that ended the loop |
| ServerSpec.StopEnds | channels/remdesk/server/remdesk_main.c:470-493 | a requested stop and a failed wait end the loop where they are met, with buffer, channel, dispatches and writes as they were; so does every error, and nothing follows an end |
| ServerSpec.IterateKeeps | channels/remdesk/server/remdesk_main.c:470-537 | one turn keeps the position at zero, never shrinks the buffer, and neither loses, repeats nor reorders a PDU |
| ServerSpec.TurnCounts | channels/remdesk/server/remdesk_main.c:470-537 | a turn reads at most one PDU and dispatches at most one, none without a read, and leaves nothing in the buffer that a later turn would dispatch unread |
| ServerSpec.FramingExact | channels/remdesk/server/remdesk_main.c:470-537 | over every schedule and whatever the channel holds: the PDUs dispatched, followed by those not read, are the PDUs received if and only if every PDU read was no longer than its header says |
| ServerSpec.FramingKeeps | channels/remdesk/server/remdesk_main.c:470-537 | so with complete PDUs none is lost, repeated or reordered, the position is zero and the buffer never shrinks |
| ServerSpec.FramingDrains | channels/remdesk/server/remdesk_main.c:470-537 | given memory, unless a turn ended the loop, half as many PDUs were dispatched as there were turns, in order, or the channel is empty |
| RemdeskServer.RemdeskServerContext.SendMessage | channels/remdesk/server/remdesk_main.c:53-134 | RESULT and VERSIONINFO go out as whole PDUs or not at all, with the error of the failing step |
| RemdeskServer.RemdeskServerContext.TakeString | channels/remdesk/server/remdesk_main.c:178-185 | the loop over characters with its wrapping length computes the scan function |
| RemdeskServer.RemdeskServerContext.RecvVersionInfo | channels/remdesk/server/remdesk_main.c:141-161 | accepts version 1.2 and nothing else |
| RemdeskServer.RemdeskServerContext.RecvRemoteControlDesktop | channels/remdesk/server/remdesk_main.c:168-201 | a taken and converted string is answered with RESULT 0, every other case is an error without an answer |
| RemdeskServer.RemdeskServerContext.RecvAuthenticate | channels/remdesk/server/remdesk_main.c:208-260 | accepted exactly when the parser finds both strings and both convert; nothing is written |
| RemdeskServer.RemdeskServerContext.RecvVerifyPassword | channels/remdesk/server/remdesk_main.c:267-291 | at least eight bytes and a converted blob are answered with RESULT 0 |
| RemdeskServer.RemdeskServerContext.RecvCtlPdu | channels/remdesk/server/remdesk_main.c:298-379 | dispatch on the message type, short and unknown messages rejected |
| RemdeskServer.RemdeskServerContext.ReceivePdu | channels/remdesk/server/remdesk_main.c:386-425 | header errors are passed on, RC_CTL is dispatched, other names are ignored |
| RemdeskServer.RemdeskServerContext.ReadChannel | channels/remdesk/server/remdesk_main.c:495-515 | a PDU that fits lands at the start of the buffer and moves the position behind it; otherwise the buffer grows and the PDU stays in the channel |
| RemdeskServer.RemdeskServerContext.DispatchFrame | channels/remdesk/server/remdesk_main.c:517-536 | a complete frame is sealed, rewound, served once and rewound; an incomplete one is left alone |
| RemdeskServer.RemdeskServerContext.LoopTurn | channels/remdesk/server/remdesk_main.c:470-537 | one turn of the loop in place equals one turn of the framing function |
| RemdeskServer.RemdeskServerContext.ServerThread | channels/remdesk/server/remdesk_main.c:427-547 | without a stream or the channel's event nothing is written; otherwise VERSIONINFO is first, then dispatches, writes and error code are those of the framing function over the whole schedule |
| Lifecycle.NextOwned | channels/remdesk/client/remdesk_main.c:678-924 | every step of every thread keeps each stream in exactly one place and never undoes a free |
| Lifecycle.NextInOrder | channels/remdesk/client/remdesk_main.c:787-924 | every step keeps posted = processed, in work, queued, with the quit where it belongs, and loses a stream only in a troubled session |
| Lifecycle.RunKeeps | channels/remdesk/client/remdesk_main.c:678-924 | both invariants hold in every reachable state |
| Lifecycle.LinearOwnership | channels/remdesk/client/remdesk_main.c:691-731 | over every interleaving a stream is held once, freed once or lost once; received and sent streams keep apart; after disconnect no received one is held; none is lost unless in some session a post, a message or a wait failed or a message came after the quit |
| Lifecycle.NoUseAfterFree | channels/remdesk/client/remdesk_main.c:765-771 | a stream any enabled step touches has been neither freed nor lost |
| Lifecycle.WorkerOrder | channels/remdesk/client/remdesk_main.c:787-838 | processed messages are a prefix of those posted, only the last may fail and nothing is taken after it, and a worker that left by the quit processed all that was posted before it |
| Lifecycle.PostedIsReassembled | channels/remdesk/client/remdesk_main.c:722-731 | in every interleaving the session's queue received what its chunks reassemble to |
| Lifecycle.EndToEnd | channels/remdesk/client/remdesk_main.c:678-838 | however a session's messages are cut and threads interleave, the worker processes them whole, in order, from the first, and all of them in a session that ends without trouble in that session; a worker that left by the quit has processed them all exactly when all were posted before it |
| Progress.StepsAvailable | channels/remdesk/client/remdesk_main.c:678-924 | after every run, exactly which step of which thread can come next, by what the threads hold; a waiting worker takes a lone message or quit |
| Progress.SessionCompletes | channels/remdesk/client/remdesk_main.c:787-924 | every reachable connected state with a healthy worker can be brought to a disconnect with everything posted processed, all writes complete, no new trouble, and no stream left unfreed |
| Progress.SessionExists | channels/remdesk/client/remdesk_main.c:678-924 | for every list of messages, however cut, there is a session that processes exactly them in order, ends without trouble and frees every stream |
| Session.SentIsWork | channels/remdesk/client/remdesk_main.c:787-838 | in every interleaving, what a session sent and the state it left are those of working off the messages it processed, and it failed exactly if that work does |
| Session.InterleavedBursts | channels/remdesk/client/remdesk_main.c:541-620 | in every interleaving each processed message contributes the burst its minor version fixes or nothing; only the last may be cut, exactly when it failed |
| Session.InterleavedAgreement | channels/remdesk/client/remdesk_main.c:71-131 | over every run and all its sessions blob and stub never change once built, and every message of a session carries them and its sender's ticket |
| Session.GenuineExtends | channels/remdesk/client/remdesk_main.c:787-838 | a run whose messages end as processing them does goes on so with any step, and processing is what then changes the plugin |
| Handshake.AnswerVersionInfo | channels/remdesk/client/remdesk_main.c:541-591 | version 1.2 is answered with EXPERT_ON_VISTA and VERIFY_PASSWORD, stub and blob matching |
| Handshake.AnswerResult | channels/remdesk/client/remdesk_main.c:227-255 | RESULT 0 ends the handshake without error or answer |
| Handshake.ServeExpertOnVista | channels/remdesk/server/remdesk_main.c:298-379 | the server takes an EXPERT_ON_VISTA of any stub without answer or error |
| Handshake.ServeVerifyPassword | channels/remdesk/server/remdesk_main.c:267-291 | a VERIFY_PASSWORD on the wire is answered with RESULT 0 exactly when its blob has eight bytes, and stops the server otherwise |
| Handshake.Keeps | channels/remdesk/client/remdesk_main.c:517-619 | every step of every thread keeps the protocol invariant over bytes in flight, queues and buffers |
| Handshake.Safety | channels/remdesk/client/remdesk_main.c:517-619 | in every reachable state the server wrote a prefix of VERSIONINFO 1.2, RESULT 0, the client a prefix of EXPERT_ON_VISTA, VERIFY_PASSWORD, between whose writes any other thread may run; the client is never in error, the server exactly after a blob built too short, and RESULT 0 is written exactly after one that is long enough |
| Handshake.SendKeeps | channels/remdesk/client/remdesk_main.c:572-590 | one write of the burst keeps the invariant and moves one message from the worker to the server's channel |
| Handshake.SentFromAnswers | channels/remdesk/client/remdesk_main.c:395-493 | what the client sent and has still to send is the stub and the blob built from the answers its first processed message met |
| Handshake.RestsAtResult | channels/remdesk/server/remdesk_main.c:267-291 | when no thread has anything left, the RESULT was consumed, or the server stopped at a too short blob |
| Handshake.SomeStep | channels/remdesk/server/remdesk_main.c:464-537 | before that, some thread can always move when its environment answers favourably |
| Handshake.Decreases | channels/remdesk/server/remdesk_main.c:464-537 | every step lowers one measure: messages ahead, writes of the burst, a buffer to grow, chunks in flight |
| Handshake.Termination | channels/remdesk/server/remdesk_main.c:464-537 | no run is infinite |
| Handshake.MaximalRun | channels/remdesk/server/remdesk_main.c:464-537 | a run that cannot go on has exchanged the whole handshake, ending in RESULT 0 consumed exactly when the blob built has eight bytes |
| Exchange.ServeRemoteControl | channels/remdesk/server/remdesk_main.c:168-201 | a whole REMOTE_CONTROL_DESKTOP with one terminated string is answered with RESULT 0, an empty string is refused, a failed conversion or write reported; what follows it does not matter |
| Exchange.ServeAuthenticate | channels/remdesk/server/remdesk_main.c:208-260 | a whole AUTHENTICATE with two terminated strings is taken without an answer, refused when either is empty |
| Exchange.ServeVersionInfo | channels/remdesk/server/remdesk_main.c:141-161 | a whole VERSIONINFO is taken if and only if it announces 1.2 |
| Exchange.ServeVerifyPassword | channels/remdesk/server/remdesk_main.c:267-291 | a whole VERIFY_PASSWORD of at least eight bytes is answered with RESULT 0 |
| Exchange.ServeOther | channels/remdesk/server/remdesk_main.c:298-379 | of the other types six are taken without an answer; RESULT, SERVER_ANNOUNCE and every number that is no type are refused |
| Exchange.OtherChannels | channels/remdesk/server/remdesk_main.c:386-425 | a PDU of another channel is taken and ignored by both sides; one without a message type is refused by both |
| Exchange.TakeResult | channels/remdesk/client/remdesk_main.c:227-255 | a RESULT ends the client with ConnectionRefused exactly when it carries the user's refusal |
| Exchange.TakeOther | channels/remdesk/client/remdesk_main.c:500-620 | the client ignores ten types and refuses every number that is no type and every message cut short |
| Exchange.TakeUnsupportedVersion | channels/remdesk/client/remdesk_main.c:155-179 | a VERSIONINFO of another minor version is recorded and answered with nothing |
| Exchange.TakeVersionOne | channels/remdesk/client/remdesk_main.c:543-570 | version 1 is answered with VERSIONINFO 1.2, AUTHENTICATE with the ticket and then the blob, REMOTE_CONTROL_DESKTOP with the ticket, as far as the writes go and with the failed write's error |
| Exchange.TakeVersionTwo | channels/remdesk/client/remdesk_main.c:572-591 | version 2 is answered with the stub in EXPERT_ON_VISTA and the blob in VERIFY_PASSWORD, as far as the writes go |
| Exchange.SendersWithout | channels/remdesk/client/remdesk_main.c:262-493 | without a blob a sender ends the burst with an error; a failed conversion does so in REMOTE_CONTROL_DESKTOP only and is skipped in the others |
| Exchange.VersionOneUnderstood | channels/remdesk/client/remdesk_main.c:283-321 | with counted terminators the server finds the very ticket and blob the client sent, takes the AUTHENTICATE and answers the REMOTE_CONTROL_DESKTOP; without, it never finds both strings |
| MonitorSpec.CurrentIsFirst | components/xf_monitor.c:264-278 | the current monitor is the first that contains the pointer, or number 0 when none does |
| MonitorSpec.ActiveIsFilter | components/xf_monitor.c:403-479 | the list is exactly the requested monitors, in strictly increasing order, each once, within its allocation |
| MonitorSpec.SingleMonitorCount | components/xf_monitor.c:280-308 | in single-monitor mode the final count is one, or zero without monitors |
| MonitorSpec.UnscaledFold | components/xf_monitor.c:521-569 | without scaling each side of the rectangle is the furthest any monitor reaches, and the edge names the first monitor that reaches it |
| MonitorSpec.ScaledFold | components/xf_monitor.c:535-569 | after any number of turns the compounded rectangle is not empty and lies between the origin and the true far edges |
| MonitorSpec.FoldIsOutermost | components/xf_monitor.c:521-569 | for any percentages each side of the rectangle is the outermost of the monitors' coordinates scaled by their own and all later turns, and the edge names a monitor it comes from |
| MonitorSpec.CastsExact | components/xf_monitor.c:571-576 | for percentages up to 100 the cast of each extent holds if and only if some monitor's scaled far edge ends beyond some monitor's scaled near edge on that axis |
| MonitorSpec.ExtentsFit | components/xf_monitor.c:571-576 | in particular both casts hold when no listed monitor, the fallback's included, is too small for the percentages |
| MonitorSpec.TwoPercentStops | components/xf_monitor.c:558-573 | the whole computation stops on one 1920 by 1080 monitor at two percent of both axes |
| MonitorSpec.RightEdgeExact | components/xf_monitor.c:558-568 | the far edge the loop computes, before the near edge is subtracted, is the true one if and only if widths are not scaled or it is 0 |
| MonitorSpec.StoredExtent | components/xf_monitor.c:571-583 | the stored extent on an axis is the greatest scaled far edge less the least scaled near edge, the true extent when unscaled; a requested work area replaces the rows |
| MonitorSpec.ScalingEnlarges | components/xf_monitor.c:558-573 | two monitors together 200 wide give an extent of 275 at fifty percent |
| MonitorSpec.ListingUnique | components/xf_monitor.c:471-475 | the filter marks at most one monitor, the first requested one, and exactly when it exists and is active |
| MonitorSpec.ChooseUnique | components/xf_monitor.c:585-629 | the fallback search keeps at most one primary, changes nothing when there is one, and leaves the array exactly when its index does |
| MonitorSpec.PrimaryUnique | components/xf_monitor.c:407-412 | across filter and fallback at most one listed monitor is primary, exactly the first requested one when it exists and is active; otherwise the lookup leaves the array if and only if its index exceeds the number of monitors |
| MonitorSpec.FirstRequestIsActive | components/xf_monitor.c:121-142 | the first requested id counts as active whenever a request names an id, and without a request every monitor does |
| MonitorSpec.ArrangeCompletes | components/xf_monitor.c:514-635 | with monitors the computation stops if and only if a percentage exceeds 100, an axis is not spanned, a requested work area's rows do not fit 16 bits, or the primary lookup leaves the array |
| MonitorSpec.DetectCompletes | components/xf_monitor.c:144-658 | the whole computation stops exactly there, or at a reported coordinate that does not fit 16 bits |
| MonitorSpec.ScaledSizeExact | components/xf_monitor.c:370-393 | the percentage is exact if and only if the 32-bit product does not wrap |
| MonitorSpec.AskedWithinMonitor | components/xf_monitor.c:354-379 | a percentage of at most 100 asks on each axis for that share of the current monitor, rounded down, never for more |
| MonitorSpec.WorkAreaRows | components/xf_monitor.c:310-342 | the work area is the window manager's, else covers exactly the one requested monitor, else the screen; a monitor's rows always fit 16 bits, the screen's if and only if it is 1 to 65536 high |
| MonitorSpec.DetectSound | components/xf_monitor.c:144-658 | whenever it completes: the stored count is the list's, at most one primary, one monitor in single-monitor mode, and the size is the one asked for cut to the virtual screen |
| Layout.EntriesScaled | components/xf_monitor.c:424-455 | every listed monitor has its percentage, rounded down, of its area: x and width by the width flag, y by the height flag, height by the width flag |
| Layout.FallbackEntry | components/xf_monitor.c:481-508 | the fallback entry is the current monitor, no wider than asked, its height its width where that is less than the height asked for |
| Layout.CurrentIsPointerScreen | components/xf_monitor.c:182-185 | the current monitor is the first screen the pointer is on, or number 0; an unknown pointer is in the corner |
| Layout.DetectSettings | components/xf_monitor.c:280-308 | only the request, the count and the layout flag change: single-monitor mode requests the pointer's screen or the first one asked for |
| Layout.DetectLists | components/xf_monitor.c:403-508 | unscaled, the result lists exactly the wanted screens with their own rectangles in order, or the pointer's screen alone when none is wanted |
| Layout.DetectExtent | components/xf_monitor.c:521-583 | unscaled, the stored virtual screen spans from the first wanted screen furthest out on one side to that on the other, and these define the edges; a requested work area replaces the rows |
| Layout.DetectSize | components/xf_monitor.c:344-401 | the resulting size is the screen's, the work area's, the share of the pointer's monitor or the desktop's, cut to the virtual screen |
| Layout.DetectNothing | components/xf_monitor.c:173-180 | embedded nothing is looked at; with no monitors, or more than 16, nothing is listed and the size is the one asked for |
| Layout.DetectWithoutExtension | components/xf_monitor.c:250-253 | without an extension everything is as if X had reported the previous monitors again |
| Layout.FallbackMarks | components/xf_monitor.c:606-629 | the fallback marks exactly the entry looked up when it is listed and not in the corner, else the first in the corner, and changes nothing else |
| Layout.DetectPrimary | components/xf_monitor.c:585-629 | in the result exactly the first requested monitor is primary when it exists and is wanted, otherwise exactly the one the fallback marks |
| XfMonitor.ClientContext.IsMonitorIdActive | components/xf_monitor.c:121-142 | true if and only if nothing was requested or the id is among the requested ones |
| XfMonitor.ClientContext.ReadScreens | components/xf_monitor.c:187-253 | the monitors as reported, none when there are more than 16, stopped by the first coordinate that is not 16 bits wide |
| XfMonitor.ClientContext.CurrentMonitor | components/xf_monitor.c:264-278 | the loop computes the first monitor that contains the pointer |
| XfMonitor.ClientContext.WorkAreaAndSize | components/xf_monitor.c:310-401 | leaves the work area and size that `WorkAreaRows` and `AskedWithinMonitor` describe; a percentage of at most 100 never asks for more than the current monitor |
| XfMonitor.ClientContext.FillMonitors | components/xf_monitor.c:403-508 | the zeroed array holds the list at its front and zeros behind it; the flag says whether a primary is among it |
| XfMonitor.ClientContext.BoundingRectangle | components/xf_monitor.c:521-569 | rectangle and edges are the fold over the list |
| XfMonitor.ClientContext.FindPrimary | components/xf_monitor.c:585-629 | one entry at most is marked, the one the search function names, or the lookup leaves the array |
| XfMonitor.ClientContext.ArrangeMonitors | components/xf_monitor.c:403-635 | list, edges, area, count and cut size together equal the specification, or it stops where the code asserts |
| XfMonitor.ClientContext.DetectMonitors | components/xf_monitor.c:144-658 | the whole computation with its field updates equals the specification function |

## Left out

- Lifecycle.LinearOwnership: connect, disconnect, open and init events are steps on values, not methods of the plugin class. Runs end where a chunk without an open message stops the process; a data event belongs to the current session; PostQuit and the wait for the worker's end succeed; a second CONNECTED without a disconnect does not occur; every accepted write completes or is cancelled once. The status a message ends with is arbitrary, so the results hold for whatever processing returns; `Session` fixes it to what processing does.
- RemdeskClient.RemdeskPlugin.ClientThread: a queue with the quit behind it; messages posted meanwhile are in `Lifecycle` and `Session`.
- RemdeskServer.RemdeskServerContext.ServerThread: the schedule of waits is finite, of any length.
- Handshake.Safety: conversions, allocations and writes succeed, the server's read, dispatch and one answer are one step, and a ready turn finds a PDU waiting (a turn without one changes nothing).
- ServerSpec.FramingKeeps: assumes the channel contract that one read yields one PDU; PDUs split or joined by reads are not modelled.
- MonitorSpec.DetectSound: on a list of monitors a percentage above 100 is one stop, though the code may stop at an earlier cast or at its own assertion.
- Messages whose length needs more than 32 bits: the wire receives the part the truncated length counts.
- Server start and stop, context creation and the plugin's entry point.
- Logging, error reporting to the context, handles, thread creation.
- Failures of settings setters and of the allocation in `xf_detect_monitors`, rotation and physical sizes, the sorted monitor array it hands to the settings, and `xf_list_monitors`.
- The ignored channels 70, 71, ".", 1000. and RA_FX and the functions that only hold a TODO: no behaviour.
- String conversion beyond 7-bit text, encryption, hex and blob formats: parameters.
- `components/xf_utils.c`, `client/client_hooks.c`, `client/client.c`, `errors/error.c`, `main.c`: not modelled.
