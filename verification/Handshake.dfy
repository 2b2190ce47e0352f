/** Server and client composed over lossless channels, byte for byte: the server
    writes PDUs, the transport cuts them into chunks, the client's event thread
    reassembles them, its worker answers one write at a time, and the server's
    loop reads whole PDUs into its buffer. All threads interleave. */
module Handshake {
  import opened Wire
  import opened RemdeskCommon
  import R = Reassembly
  import C = ClientSpec
  import S = ServerSpec

  /** Both programs and the channels between them. outbox holds what the client's
      worker has still to write for the message it is at; consumed counts the
      messages it has taken. */
  datatype World = World(
    started: bool,
    loop: S.Loop,
    serverStatus: Status,
    down: seq<R.Event>,
    dataIn: Option<R.Partial>,
    queue: seq<seq<byte>>,
    st: C.State,
    outbox: seq<Message>,
    sent: seq<Message>,
    clientStatus: Status,
    consumed: nat)

  function Init(buffer: seq<byte>): World {
    World(false, S.Loop(S.Frame(buffer, 0), [], [], []), Ok, [], None, [], C.State(2, None, None), [], [], Ok, 0)
  }

  /** One step of one thread, with the answers its environment gives: how the
      transport cuts what the server writes, what the libraries say. */
  datatype Step =
    | Start(o: S.Oracle, events: seq<R.Event>)
    | Turn(grown: nat, o: S.Oracle, events: seq<R.Event>)
    | Deliver
    | Work(a: C.Answers)
    | Send

  /** Chunks that carry exactly these messages, cut in any way. */
  ghost predicate Transports(events: seq<R.Event>, ms: seq<Message>) {
    R.Smooth(events) && exists pieces :: CutAs(events, ms, pieces)
  }

  ghost predicate CutAs(events: seq<R.Event>, ms: seq<Message>, pieces: seq<seq<seq<byte>>>) {
    R.AllFragmented(pieces) && R.Payload(events) == R.AllChunks(pieces) && R.Messages(pieces) == WireAll(ms)
  }

  predicate Serves(o: S.Oracle) {
    o.memory && o.write && o.firstConverts
  }

  function NameOf(o: C.Oracle): C.text {
    if o.username.Some? then o.username.value else C.DEFAULT_NAME
  }

  /** The blob the client would build from these answers, on the wire. */
  function BlobBytes(lib: C.Library, o: C.Oracle): seq<byte>
    requires o.encrypted.Some?
  {
    WideBytes(C.WireText(lib, lib.expertBlob(NameOf(o), lib.hex(o.encrypted.value))))
  }

  /** Settings are there, library calls and writes succeed, and stub and blob
      have lengths the PDUs can announce. */
  predicate Answers(lib: C.Library, a: C.Answers) {
    && a.a.password && a.a.encrypted.Some? && a.a.hexes && a.a.builds && a.a.memory && a.a.write.Ok?
    && a.b.blobConverts && a.b.memory && a.b.write.Ok?
    && |a.a.encrypted.value| <= U32_MAX - 26 && |BlobBytes(lib, a.a)| <= U32_MAX - 26
  }

  function TurnOf(lib: C.Library, w: World, grown: nat, o: S.Oracle): S.Turn
    requires w.loop.frame.position <= |w.loop.frame.buffer|
  {
    S.Iterate(w.loop, S.Ready(grown, o), lib.narrow)
  }

  ghost predicate Enabled(lib: C.Library, w: World, step: Step) {
    match step
    case Start(o, events) => !w.started && Serves(o) && Transports(events, [VERSION_INFO])
    case Turn(grown, o, events) =>
      && w.started && w.serverStatus.Ok? && w.loop.inbox != [] && Serves(o)
      && |w.loop.inbox[0]| <= grown <= U32_MAX
      && w.loop.frame.position <= |w.loop.frame.buffer|
      && var t := TurnOf(lib, w, grown, o);
         w.loop.messages <= t.loop.messages && Transports(events, t.loop.messages[|w.loop.messages|..])
    case Deliver => w.down != []
    case Work(a) => w.queue != [] && w.outbox == [] && w.clientStatus.Ok? && Answers(lib, a)
    case Send => w.outbox != []
  }

  function After(lib: C.Library, w: World, step: Step): World {
    match step
    case Start(o, events) =>
      var hello := S.SendMessage(VERSION_INFO, o);
      w.(started := true, serverStatus := hello.status, loop := w.loop.(messages := hello.messages),
         down := w.down + events)
    case Turn(grown, o, events) =>
      if w.loop.frame.position > |w.loop.frame.buffer| then w.(serverStatus := Abort)
      else
        var t := TurnOf(lib, w, grown, o);
        w.(loop := t.loop, serverStatus := t.status, down := w.down + events)
    case Deliver =>
      if w.down == [] then w
      else if !R.Accepts(w.dataIn, w.down[0].chunk) then w.(clientStatus := Abort)
      else
        var r := R.DataReceived(w.dataIn, w.down[0]);
        w.(down := w.down[1..], dataIn := r.dataIn, queue := w.queue + R.Queued(r, []),
           clientStatus := if w.clientStatus.Ok? then r.status else w.clientStatus)
    case Work(a) =>
      if w.queue == [] then w
      else
        var x := C.Process(w.st, lib, w.queue[0], a);
        w.(queue := w.queue[1..], st := x.st, clientStatus := x.status, consumed := w.consumed + 1,
           outbox := w.outbox + x.messages)
    case Send =>
      if w.outbox == [] then w
      else
        var m := w.outbox[0];
        w.(outbox := w.outbox[1..], sent := w.sent + [m], loop := w.loop.(inbox := w.loop.inbox + [WireBytes(m)]))
  }

  // ---------- single messages ----------

  function ExpertOnVista(stub: seq<byte>): Message {
    Message(CTL_EXPERT_ON_VISTA, stub)
  }

  function VerifyPassword(blob: seq<byte>): Message {
    Message(CTL_VERIFY_PASSWORD, blob)
  }

  /** A message that fits is on the wire whole and complete. */
  lemma OnTheWire(m: Message)
    requires |m.payload| <= U32_MAX - 26
    ensures WireBytes(m) == EncodePdu(m) && S.Complete(WireBytes(m)) && |WireBytes(m)| == 26 + |m.payload|
  {
    ExactFit(m);
  }

  /** What either side's parser finds in a message. */
  lemma ParsesAs(m: Message, prior: NameBuffer, narrow: Utf16ToUtf8)
    requires |m.payload| <= U32_MAX - 26 && RecoversText(narrow)
    ensures var b := WireBytes(m);
            var r := ParseChannelHeader(b, prior, narrow);
            && r.Header? && r.consumed == 22 && CString(r.header.name) == CTL_NAME
            && r.header.dataLength == 4 + |m.payload| && |b| == 26 + |m.payload|
            && ReadLE32(b[22..]) == m.msgType && b[22..][4..] == m.payload
  {
    OnTheWire(m);
    ControlPduRoundTrip(m, [], prior, narrow);
    var b := WireBytes(m);
    assert b + [] == b && b[22..][4..] == b[26..] == b[26..26 + |m.payload|];
  }

  lemma ServeExpertOnVista(stub: seq<byte>, slack: seq<byte>, narrow: Utf16ToUtf8, o: S.Oracle)
    requires |stub| <= U32_MAX - 26 && RecoversText(narrow)
    ensures S.Process(WireBytes(ExpertOnVista(stub)), slack, narrow, o) == S.Served([], Ok)
  {
    ParsesAs(ExpertOnVista(stub), o.prior, narrow);
  }

  /** VERIFY_PASSWORD is answered with RESULT 0 exactly when the blob has eight bytes. */
  lemma ServeVerifyPassword(blob: seq<byte>, slack: seq<byte>, narrow: Utf16ToUtf8, o: S.Oracle)
    requires |blob| <= U32_MAX - 26 && RecoversText(narrow) && Serves(o)
    ensures S.Process(WireBytes(VerifyPassword(blob)), slack, narrow, o) ==
              if |blob| >= 8 then S.Served([S.RESULT_OK], Ok) else S.Served([], InvalidData)
  {
    ParsesAs(VerifyPassword(blob), o.prior, narrow);
  }

  lemma AnswerVersionInfo(st: C.State, lib: C.Library, a: C.Answers)
    requires RecoversText(lib.narrow) && st.blob == None && Answers(lib, a)
    ensures var x := C.Process(st, lib, WireBytes(VERSION_INFO), a);
            x.status == Ok && x.messages == [ExpertOnVista(a.a.encrypted.value), VerifyPassword(BlobBytes(lib, a.a))]
  {
    ParsesAs(VERSION_INFO, a.prior, lib.narrow);
    LE32RoundTrip(1, LE32(2));
    assert VERSION_INFO.payload[4..] == LE32(2) == LE32(2) + [];
    LE32RoundTrip(2, []);
    assert [ExpertOnVista(a.a.encrypted.value)] + [VerifyPassword(BlobBytes(lib, a.a))]
        == [ExpertOnVista(a.a.encrypted.value), VerifyPassword(BlobBytes(lib, a.a))];
  }

  lemma AnswerResult(st: C.State, lib: C.Library, a: C.Answers)
    requires RecoversText(lib.narrow) && lib.helpeeSaidNo != 0
    ensures C.Process(st, lib, WireBytes(S.RESULT_OK), a) == C.Sent(st, [], Ok)
  {
    ParsesAs(S.RESULT_OK, a.prior, lib.narrow);
    assert S.RESULT_OK.payload == LE32(0) + [];
    LE32RoundTrip(0, []);
  }

  // ---------- the invariant ----------

  /** What the client answers with: sent, and still to send. */
  function Answer(w: World): seq<Message> {
    w.sent + w.outbox
  }

  /** The blob of the VERIFY_PASSWORD has eight bytes. */
  predicate Long(w: World) {
    |Answer(w)| == 2 && |Answer(w)[1].payload| >= 8
  }

  /** The server has read a VERIFY_PASSWORD whose blob is too short. */
  predicate Stopped(w: World) {
    |w.loop.dispatched| == 2 && !Long(w)
  }

  /** What the server has written, as a function of what it has read. */
  function Written(w: World): seq<Message> {
    if !w.started then []
    else if |w.loop.dispatched| == 2 && Long(w) then [VERSION_INFO, S.RESULT_OK]
    else [VERSION_INFO]
  }

  /** What the client answers, by what it has taken. */
  ghost predicate AnswersInOrder(w: World) {
    var b := Answer(w);
    if w.consumed == 0 then b == [] && w.st.blob == None
    else
      && |b| == 2 && b == [ExpertOnVista(b[0].payload), VerifyPassword(b[1].payload)]
      && |b[0].payload| <= U32_MAX - 26 && |b[1].payload| <= U32_MAX - 26
  }

  /** Everything the server wrote is processed, queued, or on its way in chunks. */
  ghost predicate Downstream(w: World) {
    var r := R.Run(w.dataIn, w.down);
    && r.Some? && r.value.clean && w.consumed <= |w.loop.messages|
    && w.queue + r.value.posted == WireAll(w.loop.messages)[w.consumed..]
  }

  ghost predicate Inv(w: World) {
    && w.loop.frame.position == 0 && |w.loop.frame.buffer| <= U32_MAX && S.AllComplete(w.loop.inbox)
    && w.loop.dispatched + w.loop.inbox == WireAll(w.sent)
    && w.loop.messages == Written(w)
    && w.serverStatus == (if Stopped(w) then InvalidData else Ok) && w.clientStatus == Ok
    && AnswersInOrder(w) && Downstream(w)
  }

  /** Chunks put behind those in flight add exactly their messages. */
  lemma TransportAdds(dataIn: Option<R.Partial>, down: seq<R.Event>, events: seq<R.Event>, ms: seq<Message>)
    requires Transports(events, ms) && R.Run(dataIn, down).Some? && R.Run(dataIn, down).value.clean
    ensures var r := R.Run(dataIn, down + events);
            r.Some? && r.value.clean && r.value.posted == R.Run(dataIn, down).value.posted + WireAll(ms)
  {
    hide R.DataReceived, WireAll;
    var pieces :| CutAs(events, ms, pieces);
    R.Reassemble(R.Run(dataIn, down).value.dataIn, pieces, events);
    R.RunConcat(dataIn, down, events);
  }

  lemma StartKeeps(lib: C.Library, w: World, step: Step)
    requires Inv(w) && Enabled(lib, w, step) && step.Start?
    ensures Inv(After(lib, w, step))
  {
    hide R.DataReceived, R.Run;
    var w' := After(lib, w, step);
    TransportAdds(w.dataIn, w.down, step.events, [VERSION_INFO]);
    assert w.queue == [] && w.consumed == 0 && R.Run(w.dataIn, w.down).value.posted == [];
    assert [] + WireAll([VERSION_INFO]) == WireAll([VERSION_INFO]) == WireAll([VERSION_INFO])[0..];
    assert WireAll(w.sent) == [] && w.loop.dispatched == [];
  }

  lemma DeliverAccepted(w: World)
    requires Downstream(w) && w.down != []
    ensures R.Accepts(w.dataIn, w.down[0].chunk)
  {
  }

  lemma DeliverKeeps(lib: C.Library, w: World)
    requires Inv(w) && w.down != []
    ensures Inv(After(lib, w, Deliver)) && R.Accepts(w.dataIn, w.down[0].chunk)
  {
    hide R.DataReceived, R.Run, R.Accepts, WireAll, S.AllComplete;
    DeliverAccepted(w);
    var e, rest := w.down[0], w.down[1..];
    assert w.down == [e] + rest;
    R.RunCons(w.dataIn, e, rest);
    var r := R.DataReceived(w.dataIn, e);
    var later := R.Run(r.dataIn, rest).value.posted;
    assert w.queue + R.Queued(r, later) == w.queue + R.Queued(r, []) + later;
  }

  /** The message at the head of the queue, and what is left downstream of it. */
  lemma WorkDownstream(lib: C.Library, w: World, a: C.Answers)
    requires Inv(w) && w.queue != []
    ensures w.consumed < |w.loop.messages| && w.queue[0] == WireBytes(w.loop.messages[w.consumed])
    ensures Downstream(After(lib, w, Work(a)))
  {
    hide R.DataReceived, R.Run, C.Process, WireBytes;
    var k, w' := w.consumed, After(lib, w, Work(a));
    var waiting := WireAll(w.loop.messages)[k..];
    assert k < |w.loop.messages| && w.queue[0] == waiting[0] == WireBytes(w.loop.messages[k]);
    assert w'.queue + R.Run(w.dataIn, w.down).value.posted == waiting[1..] == WireAll(w.loop.messages)[k + 1..];
  }

  lemma WorkKeeps(lib: C.Library, w: World, a: C.Answers)
    requires Inv(w) && Enabled(lib, w, Work(a)) && RecoversText(lib.narrow) && lib.helpeeSaidNo != 0
    ensures Inv(After(lib, w, Work(a)))
  {
    hide R.Run, C.Process, WireBytes, Downstream, S.Complete;
    WorkDownstream(lib, w, a);
    if w.consumed == 0 {
      AnswerVersionInfo(w.st, lib, a);
      assert w.sent == [] && w.loop.dispatched == [];
    } else {
      DownstreamCount(w);
      AnswerResult(w.st, lib, a);
      assert w.outbox + [] == w.outbox;
    }
  }

  lemma SendUpstream(lib: C.Library, w: World)
    requires Inv(w) && w.outbox != []
    ensures var w' := After(lib, w, Send);
            && Answer(w') == Answer(w)
            && S.AllComplete(w'.loop.inbox) && w'.loop.dispatched + w'.loop.inbox == WireAll(w'.sent)
  {
    hide R.Run, WireBytes, Downstream, S.Complete;
    var m, w' := w.outbox[0], After(lib, w, Send);
    assert Answer(w)[|w.sent|] == m;
    OnTheWire(m);
    WireAllConcat(w.sent, [m]);
    assert WireAll([m]) == [WireBytes(m)];
    assert w.loop.dispatched + w'.loop.inbox == w.loop.dispatched + w.loop.inbox + [WireBytes(m)];
  }

  /** The next write of the burst: the PDU is on its way to the server. */
  lemma SendKeeps(lib: C.Library, w: World)
    requires Inv(w) && w.outbox != []
    ensures Inv(After(lib, w, Send)) && Answer(After(lib, w, Send)) == Answer(w)
  {
    SendUpstream(lib, w);
    SendDownstream(lib, w);
    hide WireAll, WireBytes, Downstream, S.AllComplete, Answer;
  }

  lemma SendDownstream(lib: C.Library, w: World)
    requires Downstream(w)
    ensures Downstream(After(lib, w, Send))
  {
  }

  lemma DownstreamCount(w: World)
    requires Inv(w)
    ensures w.consumed <= |w.loop.messages|
  {
  }

  /** The PDU at the head of the channel is the next one the client sent. */
  lemma HeadOfChannel(w: World)
    requires Inv(w) && w.loop.inbox != []
    ensures |w.loop.dispatched| < |w.sent| <= |Answer(w)| == 2
    ensures w.loop.inbox[0] == WireBytes(w.sent[|w.loop.dispatched|])
    ensures S.Complete(w.loop.inbox[0]) && |w.loop.inbox[0]| <= U32_MAX
  {
    hide R.DataReceived, R.Run, WireBytes, Downstream, S.Complete;
    var d := |w.loop.dispatched|;
    assert |w.loop.dispatched| + |w.loop.inbox| == |w.sent| && w.sent[d] == Answer(w)[d];
    assert w.loop.inbox[0] == (w.loop.dispatched + w.loop.inbox)[d] == WireBytes(w.sent[d]);
    OnTheWire(w.sent[d]);
  }

  /** What the server does with the PDU at the head of the channel: nothing yet
      when the buffer must grow for it; otherwise the answer it calls for. */
  lemma TurnServes(lib: C.Library, w: World, grown: nat, o: S.Oracle)
    requires Inv(w) && w.loop.inbox != [] && Serves(o) && RecoversText(lib.narrow)
    requires |w.loop.inbox[0]| <= grown <= U32_MAX
    ensures var l, t := w.loop, TurnOf(lib, w, grown, o);
            && |t.loop.frame.buffer| <= U32_MAX && t.loop.frame.position == 0
            && S.AllComplete(t.loop.inbox) && t.loop.dispatched + t.loop.inbox == l.dispatched + l.inbox
            && if |l.inbox[0]| > |l.frame.buffer| then
                 && t.loop.inbox == l.inbox && |t.loop.frame.buffer| >= |l.inbox[0]|
                 && t.loop.dispatched == l.dispatched && t.loop.messages == l.messages && t.status == Ok
               else
                 && |t.loop.dispatched| == |l.dispatched| + 1
                 && t.loop.messages == l.messages + (if |l.dispatched| == 1 && Long(w) then [S.RESULT_OK] else [])
                 && t.status == (if |l.dispatched| == 1 && !Long(w) then InvalidData else Ok)
  {
    hide R.DataReceived, R.Run, S.Process, WireBytes, PduLength, WireAll, Downstream;
    var l, d := w.loop, |w.loop.dispatched|;
    var pdu := l.inbox[0];
    HeadOfChannel(w);
    S.IterateKeeps(l, S.Ready(grown, o), lib.narrow);
    if |pdu| <= |l.frame.buffer| {
      S.DispatchExact(l, grown, o, lib.narrow);
      S.DispatchServes(l, grown, o, lib.narrow);
      var slack := l.frame.buffer[|pdu|..];
      assert l.messages + [] == l.messages && w.sent[d] == Answer(w)[d];
      if d == 0 {
        ServeExpertOnVista(w.sent[0].payload, slack, lib.narrow, o);
      } else {
        ServeVerifyPassword(w.sent[1].payload, slack, lib.narrow, o);
      }
    }
  }

  /** A turn of the server's loop adds its answer to what is on its way down. */
  lemma TurnDownstream(w: World, w': World, events: seq<R.Event>)
    requires Downstream(w) && w.loop.messages <= w'.loop.messages
    requires Transports(events, w'.loop.messages[|w.loop.messages|..])
    requires w' == w.(loop := w'.loop, serverStatus := w'.serverStatus, down := w.down + events)
    ensures Downstream(w')
  {
    hide R.DataReceived, R.Run, Transports, WireBytes;
    var l := w.loop;
    var news := w'.loop.messages[|l.messages|..];
    assert w'.loop.messages == l.messages + news;
    TransportAdds(w.dataIn, w.down, events, news);
    WireAllConcat(l.messages, news);
    var k, posted := w.consumed, R.Run(w.dataIn, w.down).value.posted;
    assert w.queue + (posted + WireAll(news)) == (w.queue + posted) + WireAll(news)
        == WireAll(l.messages)[k..] + WireAll(news) == WireAll(w'.loop.messages)[k..];
  }

  lemma TurnKeeps(lib: C.Library, w: World, step: Step)
    requires Inv(w) && Enabled(lib, w, step) && step.Turn? && RecoversText(lib.narrow)
    ensures Inv(After(lib, w, step))
    ensures var w' := After(lib, w, step);
            if |w.loop.inbox[0]| > |w.loop.frame.buffer| then
              w'.loop.inbox == w.loop.inbox && |w'.loop.frame.buffer| >= |w.loop.inbox[0]|
              && |w'.loop.dispatched| == |w.loop.dispatched|
            else |w'.loop.dispatched| == |w.loop.dispatched| + 1
  {
    hide R.Run, S.Iterate, WireAll, Transports, Downstream, S.AllComplete;
    HeadOfChannel(w);
    TurnServes(lib, w, step.grown, step.o);
    TurnDownstream(w, After(lib, w, step), step.events);
    assert [VERSION_INFO] + [S.RESULT_OK] == [VERSION_INFO, S.RESULT_OK];
  }

  lemma Keeps(lib: C.Library, w: World, step: Step)
    requires Inv(w) && Enabled(lib, w, step) && RecoversText(lib.narrow) && lib.helpeeSaidNo != 0
    ensures Inv(After(lib, w, step))
  {
    hide Inv, After, Enabled;
    match step
    case Start(_, _) => StartKeeps(lib, w, step);
    case Turn(_, _, _) => TurnKeeps(lib, w, step);
    case Deliver =>
      DeliverHasChunk(lib, w);
      DeliverKeeps(lib, w);
    case Work(a) => WorkKeeps(lib, w, a);
    case Send =>
      SendHasMessage(lib, w);
      SendKeeps(lib, w);
  }

  lemma SendHasMessage(lib: C.Library, w: World)
    requires Enabled(lib, w, Send)
    ensures w.outbox != []
  {
  }

  lemma DeliverHasChunk(lib: C.Library, w: World)
    requires Enabled(lib, w, Deliver)
    ensures w.down != []
  {
  }

  // ---------- whole runs ----------

  lemma InitInv(buffer: seq<byte>)
    requires |buffer| <= U32_MAX
    ensures Inv(Init(buffer))
  {
    assert R.Run(None, []).value.posted == [] == WireAll([])[0..];
    assert WireAll([]) == [];
  }

  ghost function Run(lib: C.Library, buffer: seq<byte>, steps: seq<Step>): Option<World>
    decreases |steps|
  {
    if steps == [] then Some(Init(buffer))
    else
      var n := |steps| - 1;
      match Run(lib, buffer, steps[..n])
      case None => None
      case Some(w) => if Enabled(lib, w, steps[n]) then Some(After(lib, w, steps[n])) else None
  }

  lemma {:induction false} RunInv(lib: C.Library, buffer: seq<byte>, steps: seq<Step>)
    requires |buffer| <= U32_MAX && RecoversText(lib.narrow) && lib.helpeeSaidNo != 0
    requires Run(lib, buffer, steps).Some?
    ensures Inv(Run(lib, buffer, steps).value)
    decreases |steps|
  {
    hide Inv, After, Enabled;
    InitInv(buffer);
    if steps != [] {
      var n := |steps| - 1;
      RunInv(lib, buffer, steps[..n]);
      Keeps(lib, Run(lib, buffer, steps[..n]).value, steps[n]);
    }
  }

  /** The answers the client's first message, VERSIONINFO, is processed with. */
  function FirstWork(steps: seq<Step>): Option<C.Answers>
    decreases |steps|
  {
    if steps == [] then None
    else
      var n := |steps| - 1;
      var before := FirstWork(steps[..n]);
      if before.None? && steps[n].Work? then Some(steps[n].a) else before
  }

  /** The blob built from those answers is one the server takes. */
  predicate LongBlob(lib: C.Library, steps: seq<Step>) {
    var a := FirstWork(steps);
    a.Some? && a.value.a.encrypted.Some? && |BlobBytes(lib, a.value.a)| >= 8
  }

  /** The client's answer is built from those answers, sent or not yet. */
  lemma {:induction false} SentFromAnswers(lib: C.Library, buffer: seq<byte>, steps: seq<Step>)
    requires |buffer| <= U32_MAX && RecoversText(lib.narrow) && lib.helpeeSaidNo != 0
    requires Run(lib, buffer, steps).Some?
    ensures var w, a := Run(lib, buffer, steps).value, FirstWork(steps);
            && (w.consumed == 0 <==> a.None?)
            && (a.Some? ==>
                  && a.value.a.encrypted.Some?
                  && w.sent + w.outbox ==
                     [ExpertOnVista(a.value.a.encrypted.value), VerifyPassword(BlobBytes(lib, a.value.a))])
    decreases |steps|
  {
    hide Inv, S.Iterate, S.SendMessage, R.DataReceived, R.Accepts, Transports, C.Process, BlobBytes;
    if steps != [] {
      var n := |steps| - 1;
      SentFromAnswers(lib, buffer, steps[..n]);
      RunInv(lib, buffer, steps[..n]);
      if steps[n].Work? {
        WorkAnswers(lib, Run(lib, buffer, steps[..n]).value, steps[n].a);
      } else if steps[n].Send? {
        SendKeeps(lib, Run(lib, buffer, steps[..n]).value);
      }
    }
  }

  lemma WorkAnswers(lib: C.Library, w: World, a: C.Answers)
    requires Inv(w) && Enabled(lib, w, Work(a)) && RecoversText(lib.narrow) && lib.helpeeSaidNo != 0
    ensures Answer(After(lib, w, Work(a))) ==
              if w.consumed == 0 then [ExpertOnVista(a.a.encrypted.value), VerifyPassword(BlobBytes(lib, a.a))]
              else Answer(w)
  {
    hide R.Run, C.Process, WireBytes, Downstream, S.Complete;
    WorkDownstream(lib, w, a);
    if w.consumed == 0 {
      AnswerVersionInfo(w.st, lib, a);
      assert w.sent == [];
    } else {
      DownstreamCount(w);
      AnswerResult(w.st, lib, a);
    }
  }

  lemma LongExactly(lib: C.Library, buffer: seq<byte>, steps: seq<Step>)
    requires |buffer| <= U32_MAX && RecoversText(lib.narrow) && lib.helpeeSaidNo != 0
    requires Run(lib, buffer, steps).Some?
    ensures Long(Run(lib, buffer, steps).value) <==> LongBlob(lib, steps)
  {
    hide BlobBytes;
    SentFromAnswers(lib, buffer, steps);
    RunInv(lib, buffer, steps);
  }

  /** In every state any interleaving reaches: the server has written a prefix of
      VERSIONINFO 1.2, RESULT 0 and the client a prefix of EXPERT_ON_VISTA,
      VERIFY_PASSWORD; the client is never in error, and the server exactly when
      it has read a blob that was built shorter than eight bytes. */
  lemma Safety(lib: C.Library, buffer: seq<byte>, steps: seq<Step>)
    requires |buffer| <= U32_MAX && RecoversText(lib.narrow) && lib.helpeeSaidNo != 0
    requires Run(lib, buffer, steps).Some?
    ensures var w := Run(lib, buffer, steps).value;
            && w.loop.messages <= [VERSION_INFO, S.RESULT_OK]
            && C.Types(w.sent) <= [CTL_EXPERT_ON_VISTA, CTL_VERIFY_PASSWORD]
            && C.Types(w.sent + w.outbox) ==
               (if w.consumed == 0 then [] else [CTL_EXPERT_ON_VISTA, CTL_VERIFY_PASSWORD])
            && w.clientStatus == Ok
            && w.serverStatus == (if |w.loop.dispatched| == 2 && !LongBlob(lib, steps) then InvalidData else Ok)
            && (S.RESULT_OK in w.loop.messages <==> |w.loop.dispatched| == 2 && LongBlob(lib, steps))
            && w.loop.dispatched <= WireAll(w.sent) && w.consumed <= |w.loop.messages|
  {
    RunInv(lib, buffer, steps);
    LongExactly(lib, buffer, steps);
    hide LongBlob, R.Run, WireBytes;
    var w := Run(lib, buffer, steps).value;
    assert VERSION_INFO.msgType != S.RESULT_OK.msgType;
    assert |w.loop.dispatched| + |w.loop.inbox| == |w.sent| <= |Answer(w)|;
    assert forall i :: 0 <= i < |w.sent| ==> w.sent[i] == Answer(w)[i];
    if |w.loop.dispatched| == 2 && Long(w) {
      assert w.loop.messages[1] == S.RESULT_OK;
    }
  }

  /** No thread has anything left to do. */
  predicate Quiet(w: World) {
    w.started && w.down == [] && w.queue == [] && w.outbox == [] && (w.loop.inbox == [] || !w.serverStatus.Ok?)
  }

  /** A run can only come to rest with the RESULT consumed, when the blob has
      eight bytes, or with the server stopped before it, when it has not. */
  lemma RestsAtResult(w: World)
    requires Inv(w) && Quiet(w)
    ensures |w.loop.dispatched| == 2 == |w.sent| && w.consumed == if Long(w) then 2 else 1
    ensures Long(w) ==> w.loop.messages == [VERSION_INFO, S.RESULT_OK] && w.serverStatus == Ok
    ensures !Long(w) ==> w.loop.messages == [VERSION_INFO] && w.serverStatus == InvalidData
  {
    assert |w.loop.dispatched| + |w.loop.inbox| == |w.sent| && Answer(w) == w.sent;
    var left := WireAll(w.loop.messages)[w.consumed..];
    assert |w.queue + R.Run(w.dataIn, w.down).value.posted| == 0 == |left|;
  }

  /** Starts, messages to take and PDUs to dispatch still ahead. */
  function Ahead(w: World): int {
    (if w.started then 0 else 1) + (2 - w.consumed) + (2 - |w.loop.dispatched|)
  }

  function MustGrow(w: World): nat {
    if w.loop.inbox != [] && |w.loop.inbox[0]| > |w.loop.frame.buffer| then 1 else 0
  }

  lemma AheadBound(w: World)
    requires Inv(w)
    ensures Ahead(w) >= 0
  {
    assert |w.loop.dispatched| + |w.loop.inbox| == |w.sent| <= |Answer(w)|;
  }

  lemma Decreases(lib: C.Library, w: World, step: Step)
    requires Inv(w) && Enabled(lib, w, step) && RecoversText(lib.narrow) && lib.helpeeSaidNo != 0
    ensures var w' := After(lib, w, step);
            || Ahead(w') < Ahead(w)
            || (Ahead(w') == Ahead(w) && |w'.outbox| < |w.outbox|)
            || (Ahead(w') == Ahead(w) && |w'.outbox| == |w.outbox| && MustGrow(w') < MustGrow(w))
            || (Ahead(w') == Ahead(w) && |w'.outbox| == |w.outbox| && MustGrow(w') == MustGrow(w)
                && |w'.down| < |w.down|)
  {
    hide Inv;
    match step
    case Turn(_, _, _) =>
      hide S.Iterate, Transports;
      TurnKeeps(lib, w, step);
    case Start(_, _) => hide S.SendMessage;
    case Deliver => DeliverKeeps(lib, w);
    case Work(_) => hide C.Process;
    case Send =>
  }

  /** There is no infinite run: with the measure above every run ends. */
  lemma NoInfiniteRun(lib: C.Library, w: nat -> World, step: nat -> Step, i: nat)
    requires RecoversText(lib.narrow) && lib.helpeeSaidNo != 0 && Inv(w(i))
    requires forall n: nat :: Enabled(lib, w(n), step(n)) && w(n + 1) == After(lib, w(n), step(n))
    ensures false
    decreases Ahead(w(i)), |w(i).outbox|, MustGrow(w(i)), |w(i).down|
  {
    hide Inv, After, Enabled;
    Keeps(lib, w(i), step(i));
    Decreases(lib, w(i), step(i));
    AheadBound(w(i));
    NoInfiniteRun(lib, w, step, i + 1);
  }

  /** So every run from the start ends, and where it ends the RESULT has been
      consumed or the blob was too short. */
  lemma Termination(lib: C.Library, buffer: seq<byte>, w: nat -> World, step: nat -> Step)
    requires |buffer| <= U32_MAX && RecoversText(lib.narrow) && lib.helpeeSaidNo != 0 && w(0) == Init(buffer)
    ensures exists n: nat :: !(Enabled(lib, w(n), step(n)) && w(n + 1) == After(lib, w(n), step(n)))
  {
    if forall n: nat :: Enabled(lib, w(n), step(n)) && w(n + 1) == After(lib, w(n), step(n)) {
      InitInv(buffer);
      NoInfiniteRun(lib, w, step, 0);
    }
  }

  // ---------- some thread can always move ----------

  lemma CanTransport(ms: seq<Message>)
    requires |ms| <= 1 && forall m :: m in ms ==> |m.payload| <= U32_MAX - 26
    ensures exists events :: Transports(events, ms)
  {
    if ms == [] {
      assert CutAs([], ms, []);
      assert Transports([], ms);
    } else {
      OnTheWire(ms[0]);
      var b := WireBytes(ms[0]);
      var chunk := R.Chunk(false, false, true, true, |b|, b);
      var events := [R.Event(chunk, R.Answers(true, 0, true))];
      var one := [b];
      var pieces := [one];
      assert R.Flatten(one) == b + [] == b && one[1..] == [] && pieces[1..] == [] && events[1..] == [];
      assert R.ChunksOf(|b|, one, true, []) == [chunk] + [];
      assert R.Payload(events[1..]) == [] && R.Payload(events) == [chunk] + [];
      assert R.AllChunks(pieces[1..]) == [] && R.AllChunks(pieces) == [chunk];
      assert R.Messages(pieces) == one == WireAll(ms);
      assert CutAs(events, ms, pieces);
      assert Transports(events, ms);
    }
  }

  /** A run that is not at rest goes on, whenever libraries, memory and channels
      answer favourably. */
  lemma SomeStep(lib: C.Library, w: World, a: C.Answers, o: S.Oracle)
    requires Inv(w) && !Quiet(w) && Answers(lib, a) && Serves(o) && RecoversText(lib.narrow)
    ensures exists step :: Enabled(lib, w, step)
  {
    hide R.DataReceived, R.Run, S.Process, WireBytes;
    if !w.started {
      CanTransport([VERSION_INFO]);
      var events :| Transports(events, [VERSION_INFO]);
      assert Enabled(lib, w, Start(o, events));
    } else if w.down != [] {
      assert Enabled(lib, w, Deliver);
    } else if w.outbox != [] {
      assert Enabled(lib, w, Send);
    } else if w.queue != [] {
      assert Enabled(lib, w, Work(a));
    } else {
      TurnWrites(lib, w, o);
      var t := TurnOf(lib, w, U32_MAX, o);
      var events :| Transports(events, t.loop.messages[|w.loop.messages|..]);
      HeadOfChannel(w);
      assert Enabled(lib, w, Turn(U32_MAX, o, events));
    }
  }

  lemma TurnWrites(lib: C.Library, w: World, o: S.Oracle)
    requires Inv(w) && w.loop.inbox != [] && Serves(o) && RecoversText(lib.narrow)
    ensures var t := TurnOf(lib, w, U32_MAX, o);
            && w.loop.messages <= t.loop.messages
            && exists events :: Transports(events, t.loop.messages[|w.loop.messages|..])
  {
    hide S.Iterate, Transports, Downstream, WireAll;
    HeadOfChannel(w);
    TurnServes(lib, w, U32_MAX, o);
    var news := TurnOf(lib, w, U32_MAX, o).loop.messages[|w.loop.messages|..];
    assert news == [] || news == [S.RESULT_OK];
    CanTransport(news);
  }

  /** A run that cannot go on although libraries, memory and channels would answer
      favourably has ended with the RESULT consumed when the blob the client built has
      eight bytes, and with the server stopped by it when it has not. */
  lemma MaximalRun(lib: C.Library, buffer: seq<byte>, steps: seq<Step>, a: C.Answers, o: S.Oracle)
    requires |buffer| <= U32_MAX && RecoversText(lib.narrow) && lib.helpeeSaidNo != 0
    requires Answers(lib, a) && Serves(o) && Run(lib, buffer, steps).Some?
    requires forall step :: !Enabled(lib, Run(lib, buffer, steps).value, step)
    ensures var w := Run(lib, buffer, steps).value;
            && C.Types(w.sent) == [CTL_EXPERT_ON_VISTA, CTL_VERIFY_PASSWORD] && w.outbox == []
            && w.loop.dispatched == WireAll(w.sent)
            && if LongBlob(lib, steps) then
                 w.loop.messages == [VERSION_INFO, S.RESULT_OK] && w.consumed == 2 && w.serverStatus == Ok
               else w.loop.messages == [VERSION_INFO] && w.consumed == 1 && w.serverStatus == InvalidData
  {
    hide Enabled, After, Answers, Serves, Downstream, LongBlob;
    RunInv(lib, buffer, steps);
    LongExactly(lib, buffer, steps);
    var w := Run(lib, buffer, steps).value;
    if !Quiet(w) {
      SomeStep(lib, w, a, o);
      assert false;
    }
    RestsAtResult(w);
    assert Answer(w) == w.sent;
    assert |w.loop.dispatched| + |w.loop.inbox| == |w.sent| && w.loop.dispatched + [] == w.loop.dispatched;
  }
}
