/** What the client sends in answer to what it receives, as functions of its
    state, the message and the answers of the libraries, and what holds of every
    trace these functions produce. */
module ClientSpec {
  import opened Wire
  import opened RemdeskCommon

  /** A C string. */
  type text = seq<byte>

  /** "Expert" */
  const DEFAULT_NAME: text := [69, 120, 112, 101, 114, 116]

  /** The text functions of the libraries, and the result code that means the
      user declined. countsTerminator says whether the length the UTF-16
      conversion reports includes the terminating NUL. */
  datatype Library = Library(
    widen: text -> seq<wchar>,
    countsTerminator: bool,
    narrow: Utf16ToUtf8,
    hex: seq<byte> -> text,
    expertBlob: (text, text) -> text,
    helpeeSaidNo: u32)

  /** The answers one send may meet: settings, library calls that may fail, the
      allocation and the channel. */
  datatype Oracle = Oracle(
    password: bool,
    username: Option<text>,
    encrypted: Option<seq<byte>>,
    hexes: bool,
    builds: bool,
    ticket: Option<text>,
    ticketConverts: bool,
    blobConverts: bool,
    memory: bool,
    write: Status)

  /** The answers while one message is processed: what an uninitialised header
      holds, and one oracle for each send of a burst. */
  datatype Answers = Answers(prior: NameBuffer, a: Oracle, b: Oracle, c: Oracle)

  datatype State = State(version: u32, blob: Option<text>, stub: Option<seq<byte>>)

  /** The state after, the messages the channel accepted, and the error code. */
  datatype Sent = Sent(st: State, messages: seq<Message>, status: Status)

  /** The 16-bit characters a sender copies for a text. */
  function WireText(lib: Library, t: text): seq<wchar> {
    lib.widen(t) + if lib.countsTerminator then [0] else []
  }

  // ---------- senders ----------

  function GenerateExpertBlob(st: State, lib: Library, o: Oracle): (State, Status) {
    if st.blob.Some? then (st, Ok)
    else if !o.password then (st, InternalError)
    else
      var encrypted := st.(stub := o.encrypted);
      if o.encrypted.None? || !o.hexes || !o.builds then (encrypted, InternalError)
      else
        var name := if o.username.Some? then o.username.value else DEFAULT_NAME;
        (encrypted.(blob := Some(lib.expertBlob(name, lib.hex(o.encrypted.value)))), Ok)
  }

  /** Build, then write to the channel. */
  function Transmit(st: State, m: Message, wide: bool, o: Oracle): Sent {
    var built := BuildStatus(|m.payload|, wide, o.memory);
    if !built.Ok? then Sent(st, [], built)
    else if !o.write.Ok? then Sent(st, [], o.write)
    else Sent(st, [m], Ok)
  }

  function SendVersionInfo(st: State, o: Oracle): Sent {
    Transmit(st, VERSION_INFO, false, o)
  }

  /** The RC ticket in wire form, when the conversion succeeds. */
  function Ticket(lib: Library, o: Oracle): Option<seq<wchar>> {
    if o.ticket.Some? && o.ticketConverts then Some(WireText(lib, o.ticket.value)) else None
  }

  function SendAuthenticate(st: State, lib: Library, o: Oracle): Sent {
    var (st', status) := GenerateExpertBlob(st, lib, o);
    if !status.Ok? then Sent(st', [], status)
    else
      var ticket := Ticket(lib, o);
      if ticket.None? || |ticket.value| > U32_MAX / 2 || !o.blobConverts then Sent(st', [], Ok)
      else
        var payload := WideBytes(ticket.value) + WideBytes(WireText(lib, st'.blob.value));
        Transmit(st', Message(CTL_AUTHENTICATE, payload), false, o)
  }

  function SendRemoteControlDesktop(st: State, lib: Library, o: Oracle): Sent {
    match Ticket(lib, o)
    case None => Sent(st, [], InternalError)
    case Some(w) => Transmit(st, Message(CTL_REMOTE_CONTROL_DESKTOP, WideBytes(w)), false, o)
  }

  function SendVerifyPassword(st: State, lib: Library, o: Oracle): Sent {
    var (st', status) := GenerateExpertBlob(st, lib, o);
    if !status.Ok? then Sent(st', [], status)
    else if !o.blobConverts then Sent(st', [], Ok)
    else Transmit(st', Message(CTL_VERIFY_PASSWORD, WideBytes(WireText(lib, st'.blob.value))), true, o)
  }

  function SendExpertOnVista(st: State, lib: Library, o: Oracle): Sent {
    var (st', status) := GenerateExpertBlob(st, lib, o);
    if !status.Ok? then Sent(st', [], status)
    else
      var stub := if st'.stub.Some? then st'.stub.value else [];
      if |stub| > U32_MAX then Sent(st', [], InternalError)
      else Transmit(st', Message(CTL_EXPERT_ON_VISTA, stub), false, o)
  }

  /** Two sends in sequence: the second only after the first returned no error. */
  function Chain(first: Sent, second: Sent): Sent {
    if !first.status.Ok? then first else Sent(second.st, first.messages + second.messages, second.status)
  }

  /** What a VERSIONINFO sets off, by the version just recorded. */
  function Burst(st: State, lib: Library, a: Answers): Sent {
    if st.version == 1 then
      var one := SendVersionInfo(st, a.a);
      var two := SendAuthenticate(one.st, lib, a.b);
      Chain(one, Chain(two, SendRemoteControlDesktop(two.st, lib, a.c)))
    else if st.version == 2 then
      var one := SendExpertOnVista(st, lib, a.a);
      Chain(one, SendVerifyPassword(one.st, lib, a.b))
    else Sent(st, [], Ok)
  }

  // ---------- receiving ----------

  /** Types the client takes and does nothing about. */
  predicate IgnoredByClient(msgType: u32) {
    msgType in {CTL_REMOTE_CONTROL_DESKTOP, CTL_AUTHENTICATE, CTL_SERVER_ANNOUNCE, CTL_DISCONNECT, CTL_ISCONNECTED,
                CTL_VERIFY_PASSWORD, CTL_EXPERT_ON_VISTA, CTL_RANOVICE_NAME, CTL_RAEXPERT_NAME, CTL_TOKEN}
  }

  /** A control message, from its type on. */
  function RecvCtl(st: State, lib: Library, body: seq<byte>, a: Answers): Sent {
    if |body| < 4 then Sent(st, [], InvalidData)
    else
      var msgType := ReadLE32(body);
      var payload := body[4..];
      if msgType == CTL_RESULT then
        if |payload| < 4 then Sent(st, [], InvalidData)
        else Sent(st, [], if ReadLE32(payload) == lib.helpeeSaidNo then ConnectionRefused else Ok)
      else if msgType == CTL_VERSIONINFO then
        if |payload| < 8 then Sent(st, [], InvalidData)
        else Burst(st.(version := ReadLE32(payload[4..])), lib, a)
      else if IgnoredByClient(msgType) then Sent(st, [], Ok)
      else Sent(st, [], InvalidData)
  }

  /** A whole message from the queue. */
  function Process(st: State, lib: Library, b: seq<byte>, a: Answers): Sent {
    match ParseChannelHeader(b, a.prior, lib.narrow)
    case Malformed(status) => Sent(st, [], status)
    case Header(h, consumed) =>
      if CString(h.name) == CTL_NAME then RecvCtl(st, lib, b[consumed..], a) else Sent(st, [], Ok)
  }

  /** A run of the worker over queued messages: what each processed message made
      it send, and the error that ended the run, if any. */
  datatype Trace = Trace(st: State, bursts: seq<seq<Message>>, status: Status)

  function Work(st: State, lib: Library, queue: seq<seq<byte>>, answers: seq<Answers>): (t: Trace)
    requires |answers| >= |queue|
    ensures |t.bursts| <= |queue| && (t.status.Ok? ==> |t.bursts| == |queue|)
    ensures !t.status.Ok? ==> t.bursts != []
    decreases |queue|
  {
    if queue == [] then Trace(st, [], Ok)
    else
      var r := Process(st, lib, queue[0], answers[0]);
      if !r.status.Ok? then Trace(r.st, [r.messages], r.status)
      else
        var t := Work(r.st, lib, queue[1..], answers[1..]);
        Trace(t.st, [r.messages] + t.bursts, t.status)
  }

  // ---------- the shape of every trace ----------

  function BurstTypes(minor: u32): seq<u32> {
    if minor == 1 then [CTL_VERSIONINFO, CTL_AUTHENTICATE, CTL_REMOTE_CONTROL_DESKTOP]
    else if minor == 2 then [CTL_EXPERT_ON_VISTA, CTL_VERIFY_PASSWORD]
    else []
  }

  function Types(ms: seq<Message>): (ts: seq<u32>)
    ensures |ts| == |ms|
  {
    seq(|ms|, i requires 0 <= i < |ms| => ms[i].msgType)
  }

  /** ts is full without some of the messages whose sender shrugs off a failed
      string conversion and, when cut, without everything from some message on. */
  ghost predicate Thinned(ts: seq<u32>, full: seq<u32>, cut: bool) {
    if full == [] then ts == [] && !cut
    else
      || (cut && ts == [])
      || (ts != [] && ts[0] == full[0] && Thinned(ts[1..], full[1..], cut))
      || (full[0] in {CTL_AUTHENTICATE, CTL_VERIFY_PASSWORD} && Thinned(ts, full[1..], cut))
  }

  /** Every string a burst converts is converted, and the ticket's length is one
      AUTHENTICATE accepts. */
  predicate Converts(lib: Library, o: Oracle) {
    o.blobConverts && Ticket(lib, o).Some? && |Ticket(lib, o).value| <= U32_MAX / 2
  }

  /** The minor version a message announces, if it is a VERSIONINFO. */
  function AnnouncedMinor(lib: Library, b: seq<byte>, prior: NameBuffer): Option<u32> {
    match ParseChannelHeader(b, prior, lib.narrow)
    case Malformed(_) => None
    case Header(h, n) =>
      if CString(h.name) == CTL_NAME && |b| - n >= 12 && ReadLE32(b[n..]) == CTL_VERSIONINFO
      then Some(ReadLE32(b[n..][4..][4..])) else None
  }

  /** A send of one message: sent without error, not sent after a failed string
      conversion that is no error, or an error and nothing sent. */
  predicate SendsOne(x: Sent, msgType: u32, mayDrop: bool) {
    || (x.status.Ok? && Types(x.messages) == [msgType])
    || (x.status.Ok? && x.messages == [] && mayDrop)
    || (!x.status.Ok? && x.messages == [])
  }

  /** All of full, or a prefix of it and an error. */
  predicate Whole(x: Sent, full: seq<u32>) {
    Types(x.messages) <= full && (x.status.Ok? <==> Types(x.messages) == full)
  }

  lemma ChainShape(x: Sent, y: Sent, msgType: u32, full: seq<u32>)
    requires SendsOne(x, msgType, msgType in {CTL_AUTHENTICATE, CTL_VERIFY_PASSWORD})
    requires Thinned(Types(y.messages), full, !y.status.Ok?)
    ensures var r := Chain(x, y);
            && Thinned(Types(r.messages), [msgType] + full, !r.status.Ok?)
            && (SendsOne(x, msgType, false) && Whole(y, full) ==> Whole(r, [msgType] + full))
  {
    assert ([msgType] + full)[0] == msgType && ([msgType] + full)[1..] == full;
    if x.status.Ok? && x.messages != [] {
      assert x.messages[0].msgType == Types(x.messages)[0] == msgType;
      assert Types(x.messages + y.messages) == [msgType] + Types(y.messages);
      assert ([msgType] + Types(y.messages))[1..] == Types(y.messages);
    } else {
      assert [] + y.messages == y.messages;
    }
  }

  lemma AuthenticateShape(st: State, lib: Library, o: Oracle)
    ensures SendsOne(SendAuthenticate(st, lib, o), CTL_AUTHENTICATE, true)
    ensures Converts(lib, o) ==> SendsOne(SendAuthenticate(st, lib, o), CTL_AUTHENTICATE, false)
  {
  }

  lemma VerifyPasswordShape(st: State, lib: Library, o: Oracle)
    ensures SendsOne(SendVerifyPassword(st, lib, o), CTL_VERIFY_PASSWORD, true)
    ensures Converts(lib, o) ==> SendsOne(SendVerifyPassword(st, lib, o), CTL_VERIFY_PASSWORD, false)
  {
  }

  lemma VersionOneShape(one: Sent, two: Sent, three: Sent)
    requires SendsOne(one, CTL_VERSIONINFO, false) && SendsOne(two, CTL_AUTHENTICATE, true)
    requires SendsOne(three, CTL_REMOTE_CONTROL_DESKTOP, false)
    ensures var r := Chain(one, Chain(two, three));
            && Thinned(Types(r.messages), BurstTypes(1), !r.status.Ok?)
            && (SendsOne(two, CTL_AUTHENTICATE, false) ==> Whole(r, BurstTypes(1)))
  {
    var last := [CTL_REMOTE_CONTROL_DESKTOP];
    assert last[1..] == [];
    assert Thinned(Types(three.messages), last, !three.status.Ok?) && Whole(three, last);
    ChainShape(two, three, CTL_AUTHENTICATE, last);
    ChainShape(one, Chain(two, three), CTL_VERSIONINFO, [CTL_AUTHENTICATE] + last);
    assert BurstTypes(1) == [CTL_VERSIONINFO] + ([CTL_AUTHENTICATE] + last);
  }

  lemma VersionTwoShape(one: Sent, two: Sent)
    requires SendsOne(one, CTL_EXPERT_ON_VISTA, false) && SendsOne(two, CTL_VERIFY_PASSWORD, true)
    ensures var r := Chain(one, two);
            && Thinned(Types(r.messages), BurstTypes(2), !r.status.Ok?)
            && (SendsOne(two, CTL_VERIFY_PASSWORD, false) ==> Whole(r, BurstTypes(2)))
  {
    var last := [CTL_VERIFY_PASSWORD];
    assert last[1..] == [];
    assert Thinned(Types(two.messages), last, !two.status.Ok?);
    ChainShape(one, two, CTL_EXPERT_ON_VISTA, last);
    assert BurstTypes(2) == [CTL_EXPERT_ON_VISTA] + last;
  }

  lemma BurstShape(st: State, lib: Library, a: Answers)
    ensures var r := Burst(st, lib, a);
            && Thinned(Types(r.messages), BurstTypes(st.version), !r.status.Ok?)
            && (Converts(lib, a.b) && Converts(lib, a.c) ==> Whole(r, BurstTypes(st.version)))
  {
    if st.version == 1 {
      var one := SendVersionInfo(st, a.a);
      var two := SendAuthenticate(one.st, lib, a.b);
      AuthenticateShape(one.st, lib, a.b);
      VersionOneShape(one, two, SendRemoteControlDesktop(two.st, lib, a.c));
    } else if st.version == 2 {
      var one := SendExpertOnVista(st, lib, a.a);
      VerifyPasswordShape(one.st, lib, a.b);
      VersionTwoShape(one, SendVerifyPassword(one.st, lib, a.b));
    }
  }

  /** Processing a VERSIONINFO is its burst; processing anything else sends nothing. */
  lemma ProcessIsBurst(st: State, lib: Library, b: seq<byte>, a: Answers)
    ensures var minor := AnnouncedMinor(lib, b, a.prior);
            && (minor.Some? ==> Process(st, lib, b, a) == Burst(st.(version := minor.value), lib, a))
            && (minor.None? ==> Process(st, lib, b, a).messages == [] && Process(st, lib, b, a).st == st)
  {
  }

  /** Against any server and any failures: each processed VERSIONINFO yields the
      burst its minor version fixes, whole unless its last send failed, which
      only happens to the last message processed; every other message, nothing. */
  lemma {:induction false} TraceIsBursts(
    st: State, lib: Library, queue: seq<seq<byte>>, answers: seq<Answers>, i: nat)
    requires |answers| >= |queue| && i < |Work(st, lib, queue, answers).bursts|
    ensures var t := Work(st, lib, queue, answers);
            var cut := i == |t.bursts| - 1 && !t.status.Ok?;
            var full := match AnnouncedMinor(lib, queue[i], answers[i].prior)
                        case None => []
                        case Some(minor) => BurstTypes(minor);
            && (full == [] ==> t.bursts[i] == [])
            && (full != [] ==> Thinned(Types(t.bursts[i]), full, cut))
            && (full != [] && Converts(lib, answers[i].b) && Converts(lib, answers[i].c) ==>
                  Types(t.bursts[i]) <= full && (cut <==> Types(t.bursts[i]) != full))
    decreases i
  {
    hide Process, AnnouncedMinor, Burst, Thinned, Ticket;
    var r := Process(st, lib, queue[0], answers[0]);
    if i > 0 {
      TraceIsBursts(r.st, lib, queue[1..], answers[1..], i - 1);
    } else {
      var minor := AnnouncedMinor(lib, queue[0], answers[0].prior);
      ProcessIsBurst(st, lib, queue[0], answers[0]);
      if minor.Some? {
        BurstShape(st.(version := minor.value), lib, answers[0]);
      }
    }
  }

  // ---------- one blob for the whole session ----------

  /** Once there is a blob it was built from the stub that is kept with it. */
  ghost predicate Agrees(st: State, lib: Library) {
    st.blob.Some? ==>
      st.stub.Some? && exists name :: st.blob.value == lib.expertBlob(name, lib.hex(st.stub.value))
  }

  /** A message carries this session's blob and stub, and the ticket its sender
      met in the settings. */
  predicate Carries(m: Message, st: State, lib: Library, a: Answers) {
    && (m.msgType == CTL_VERSIONINFO ==> m == VERSION_INFO)
    && (m.msgType == CTL_EXPERT_ON_VISTA ==> st.blob.Some? && st.stub == Some(m.payload))
    && (m.msgType == CTL_VERIFY_PASSWORD ==>
          st.blob.Some? && m.payload == WideBytes(WireText(lib, st.blob.value)))
    && (m.msgType == CTL_AUTHENTICATE ==>
          && st.blob.Some? && a.b.ticket.Some?
          && m.payload == WideBytes(WireText(lib, a.b.ticket.value)) + WideBytes(WireText(lib, st.blob.value)))
    && (m.msgType == CTL_REMOTE_CONTROL_DESKTOP ==>
          a.c.ticket.Some? && m.payload == WideBytes(WireText(lib, a.c.ticket.value)))
  }

  ghost predicate Keeps(st: State, st': State) {
    st.blob.Some? ==> st'.blob == st.blob && st'.stub == st.stub
  }

  /** One send keeps the agreement and sends only what carries it. */
  ghost predicate SendAgrees(st: State, x: Sent, lib: Library, a: Answers) {
    Agrees(x.st, lib) && Keeps(st, x.st) && forall i :: 0 <= i < |x.messages| ==> Carries(x.messages[i], x.st, lib, a)
  }

  lemma ChainAgrees(st: State, x: Sent, y: Sent, lib: Library, a: Answers)
    requires SendAgrees(st, x, lib, a) && SendAgrees(x.st, y, lib, a)
    ensures SendAgrees(st, Chain(x, y), lib, a)
  {
  }

  lemma GenerateAgrees(st: State, lib: Library, o: Oracle)
    requires Agrees(st, lib)
    ensures var (st', status) := GenerateExpertBlob(st, lib, o);
            Agrees(st', lib) && Keeps(st, st') && (status.Ok? ==> st'.blob.Some?)
  {
  }

  lemma AuthenticateAgrees(st: State, lib: Library, a: Answers)
    requires Agrees(st, lib)
    ensures SendAgrees(st, SendAuthenticate(st, lib, a.b), lib, a)
  {
    GenerateAgrees(st, lib, a.b);
  }

  lemma RemoteControlAgrees(st: State, lib: Library, a: Answers)
    requires Agrees(st, lib)
    ensures SendAgrees(st, SendRemoteControlDesktop(st, lib, a.c), lib, a)
  {
  }

  lemma VersionTwoAgrees(st: State, lib: Library, o: Oracle, a: Answers)
    requires Agrees(st, lib)
    ensures SendAgrees(st, SendExpertOnVista(st, lib, o), lib, a)
    ensures SendAgrees(st, SendVerifyPassword(st, lib, o), lib, a)
  {
    GenerateAgrees(st, lib, o);
  }

  lemma BurstAgrees(st: State, lib: Library, a: Answers)
    requires Agrees(st, lib)
    ensures SendAgrees(st, Burst(st, lib, a), lib, a)
  {
    if st.version == 1 {
      var one := SendVersionInfo(st, a.a);
      var two := SendAuthenticate(one.st, lib, a.b);
      var three := SendRemoteControlDesktop(two.st, lib, a.c);
      AuthenticateAgrees(one.st, lib, a);
      RemoteControlAgrees(two.st, lib, a);
      ChainAgrees(one.st, two, three, lib, a);
      hide SendAuthenticate, SendRemoteControlDesktop, Agrees, Chain;
      ChainAgrees(st, one, Chain(two, three), lib, a);
    } else if st.version == 2 {
      var one := SendExpertOnVista(st, lib, a.a);
      VersionTwoAgrees(st, lib, a.a, a);
      VersionTwoAgrees(one.st, lib, a.b, a);
      hide SendExpertOnVista, SendVerifyPassword, Agrees;
      ChainAgrees(st, one, SendVerifyPassword(one.st, lib, a.b), lib, a);
    }
  }

  /** Over every run: the blob and the stub never change once built, and every
      AUTHENTICATE, VERIFY_PASSWORD and EXPERT_ON_VISTA ever sent carries them,
      the blob being the one built from that stub; tickets are those its senders met. */
  lemma {:induction false} BlobAgreement(st: State, lib: Library, queue: seq<seq<byte>>, answers: seq<Answers>)
    requires |answers| >= |queue| && Agrees(st, lib)
    ensures var t := Work(st, lib, queue, answers);
            && Agrees(t.st, lib) && Keeps(st, t.st)
            && forall i, j :: 0 <= i < |t.bursts| && 0 <= j < |t.bursts[i]| ==>
                 Carries(t.bursts[i][j], t.st, lib, answers[i])
    decreases |queue|
  {
    hide Process, AnnouncedMinor, Burst;
    if queue != [] {
      var r := Process(st, lib, queue[0], answers[0]);
      var minor := AnnouncedMinor(lib, queue[0], answers[0].prior);
      ProcessIsBurst(st, lib, queue[0], answers[0]);
      if minor.Some? {
        BurstAgrees(st.(version := minor.value), lib, answers[0]);
      }
      if r.status.Ok? {
        BlobAgreement(r.st, lib, queue[1..], answers[1..]);
      }
    }
  }
}
