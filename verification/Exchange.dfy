/** What each side does with a whole PDU of each type, and that the server
    understands what the client sends. Types are written as the numbers that
    section 2.2 of [MS-RA] gives them. */
module Exchange {
  import opened Wire
  import opened RemdeskCommon
  import C = ClientSpec
  import S = ServerSpec
  import H = Handshake

  /** A terminated string on the wire. */
  function Terminated(w: seq<wchar>): (b: seq<byte>)
    ensures |b| == 2 * (|w| + 1)
  {
    WideBytes(w + [0])
  }

  // ---------- the server ----------

  /** Serving a PDU is serving what follows its header. */
  lemma ServedAs(m: Message, slack: seq<byte>, narrow: Utf16ToUtf8, o: S.Oracle)
    requires |m.payload| <= U32_MAX - 26 && RecoversText(narrow)
    ensures var body := WireBytes(m)[22..];
            && S.Process(WireBytes(m), slack, narrow, o) == S.RecvCtl(body, slack, 4 + |m.payload|, o)
            && |body| >= 4 && ReadLE32(body) == m.msgType && body[4..] == m.payload
  {
    hide S.RecvCtl;
    H.ParsesAs(m, o.prior, narrow);
  }

  /** RESULT 0 goes out, or the error of the step that failed. */
  function Answered(o: S.Oracle): S.Served {
    if !o.memory then S.Served([], NoMemory)
    else if !o.write then S.Served([], InternalError)
    else S.Served([Message(2, [0, 0, 0, 0])], Ok)
  }

  /** A REMOTE_CONTROL_DESKTOP with one terminated string is answered with RESULT 0,
      unless the string is empty; never is anything behind it looked at. */
  lemma ServeRemoteControl(a: seq<wchar>, slack: seq<byte>, narrow: Utf16ToUtf8, o: S.Oracle)
    requires 0 !in a && 2 * (|a| + 1) <= U32_MAX - 26 && RecoversText(narrow)
    ensures S.Process(WireBytes(Message(1, Terminated(a))), slack, narrow, o) ==
              if a == [] then S.Served([], InvalidData)
              else if !o.firstConverts then S.Served([], InternalError)
              else Answered(o)
  {
    hide S.Process, S.SendMessage, WideChars, WideBytes, WireBytes, LE32, ReadLE32, S.TakeString;
    var m := Message(1, Terminated(a));
    ServedAs(m, slack, narrow, o);
    WideRoundTrip(a + [0], slack);
    var mem := WideChars(Terminated(a) + slack);
    assert mem == a + [0] + WideChars(slack);
    FirstString(mem, a, WideChars(slack), 2 * (|a| + 1));
    AnswersResult(o);
  }

  /** An answer is a RESULT of zero, whatever the message it answers. */
  lemma AnswersResult(o: S.Oracle)
    ensures S.SendMessage(S.RESULT_OK, o) == Answered(o)
  {
    assert LE32(0) == [0, 0, 0, 0];
  }

  lemma FirstString(mem: seq<wchar>, a: seq<wchar>, tail: seq<wchar>, n: u32)
    requires mem == a + [0] + tail && 0 !in a && n % 2 == 0 && n >= 2 * (|a| + 1)
    ensures a == [] ==> S.TakeString(mem, n) == S.Rejected
    ensures a != [] ==> S.TakeString(mem, n) == S.Text(|a|, Wrap32(n - 2 * |a|))
  {
    if a == [] {
      assert mem[0] == 0;
    } else {
      S.TakesExactly(mem, n, a);
    }
  }

  /** An AUTHENTICATE with two terminated strings is taken without an answer, unless
      one is empty. */
  lemma ServeAuthenticate(a: seq<wchar>, b: seq<wchar>, slack: seq<byte>, narrow: Utf16ToUtf8, o: S.Oracle)
    requires 0 !in a && 0 !in b && 2 * (|a| + |b| + 2) <= U32_MAX - 26 && RecoversText(narrow)
    ensures S.Process(WireBytes(Message(3, Terminated(a) + Terminated(b))), slack, narrow, o) ==
              if a == [] || b == [] then S.Served([], InvalidData)
              else S.Served([], if o.firstConverts && o.secondConverts then Ok else InternalError)
  {
    hide S.Process, S.ParseAuthenticate, WideChars, WideBytes, WireBytes, LE32, ReadLE32;
    var m := Message(3, Terminated(a) + Terminated(b));
    ServedAs(m, slack, narrow, o);
    S.EncodedStrings(a + [0], b + [0], slack);
    var mem := WideChars(m.payload + slack);
    assert mem == a + [0] + b + [0] + WideChars(slack);
    S.AuthenticatePayload(a, b, WideChars(slack));
  }

  /** A VERSIONINFO is taken exactly when it announces 1.2. */
  lemma ServeVersionInfo(major: u32, minor: u32, slack: seq<byte>, narrow: Utf16ToUtf8, o: S.Oracle)
    requires RecoversText(narrow)
    ensures S.Process(WireBytes(Message(6, LE32(major) + LE32(minor))), slack, narrow, o) ==
              S.Served([], if major == 1 && minor == 2 then Ok else InvalidData)
  {
    hide S.Process, WireBytes, LE32, ReadLE32;
    ServedAs(Message(6, LE32(major) + LE32(minor)), slack, narrow, o);
    TwoWords(major, minor);
  }

  lemma TwoWords(x: u32, y: u32)
    ensures ReadLE32(LE32(x) + LE32(y)) == x && ReadLE32((LE32(x) + LE32(y))[4..]) == y
  {
    LE32RoundTrip(x, LE32(y));
    assert (LE32(x) + LE32(y))[4..] == LE32(y) == LE32(y) + [];
    LE32RoundTrip(y, []);
  }

  /** A VERIFY_PASSWORD of at least eight bytes is answered with RESULT 0. */
  lemma ServeVerifyPassword(blob: seq<byte>, slack: seq<byte>, narrow: Utf16ToUtf8, o: S.Oracle)
    requires |blob| <= U32_MAX - 26 && RecoversText(narrow)
    ensures S.Process(WireBytes(Message(8, blob)), slack, narrow, o) ==
              if |blob| < 8 then S.Served([], InvalidData)
              else if !o.firstConverts then S.Served([], InternalError)
              else Answered(o)
  {
    hide S.Process, WireBytes, LE32, ReadLE32, WideChars, S.SendMessage;
    ServedAs(Message(8, blob), slack, narrow, o);
    AnswersResult(o);
  }

  /** DISCONNECT, ISCONNECTED, EXPERT_ON_VISTA, RANOVICE_NAME, RAEXPERT_NAME and
      TOKEN are taken without an answer; RESULT, SERVER_ANNOUNCE and every number
      that is no type are refused, and so is a VERSIONINFO cut short. */
  lemma ServeOther(m: Message, slack: seq<byte>, narrow: Utf16ToUtf8, o: S.Oracle)
    requires |m.payload| <= U32_MAX - 26 && RecoversText(narrow)
    ensures var r := S.Process(WireBytes(m), slack, narrow, o);
            && (m.msgType in {5, 7, 9, 10, 11, 12} ==> r == S.Served([], Ok))
            && (m.msgType in {0, 2, 4} || m.msgType > 12 ==> r == S.Served([], InvalidData))
            && (m.msgType == 6 && |m.payload| < 8 ==> r == S.Served([], InvalidData))
  {
    ServedAs(m, slack, narrow, o);
    hide S.Process, WireBytes, LE32, S.RecvRemoteControlDesktop, S.RecvAuthenticate, S.RecvVerifyPassword;
  }

  // ---------- the client ----------

  lemma TakenAs(m: Message, st: C.State, lib: C.Library, a: C.Answers)
    requires |m.payload| <= U32_MAX - 26 && RecoversText(lib.narrow)
    ensures var body := WireBytes(m)[22..];
            && C.Process(st, lib, WireBytes(m), a) == C.RecvCtl(st, lib, body, a)
            && |body| >= 4 && ReadLE32(body) == m.msgType && body[4..] == m.payload
  {
    hide C.RecvCtl;
    H.ParsesAs(m, a.prior, lib.narrow);
  }

  /** A RESULT is an error exactly when it carries the user's refusal, or nothing. */
  lemma TakeResult(code: u32, rest: seq<byte>, st: C.State, lib: C.Library, a: C.Answers)
    requires |rest| <= U32_MAX - 30 && RecoversText(lib.narrow)
    ensures C.Process(st, lib, WireBytes(Message(2, LE32(code) + rest)), a) ==
              C.Sent(st, [], if code == lib.helpeeSaidNo then ConnectionRefused else Ok)
  {
    TakenAs(Message(2, LE32(code) + rest), st, lib, a);
    LE32RoundTrip(code, rest);
    hide C.Process, WireBytes, LE32, C.Burst;
  }

  /** Messages the client does nothing about, and those it refuses. */
  lemma TakeOther(m: Message, st: C.State, lib: C.Library, a: C.Answers)
    requires |m.payload| <= U32_MAX - 26 && RecoversText(lib.narrow)
    ensures var r := C.Process(st, lib, WireBytes(m), a);
            && (m.msgType in {1, 3, 4, 5, 7, 8, 9, 10, 11, 12} ==> r == C.Sent(st, [], Ok))
            && (m.msgType == 0 || m.msgType > 12 ==> r == C.Sent(st, [], InvalidData))
            && (m.msgType == 2 && |m.payload| < 4 ==> r == C.Sent(st, [], InvalidData))
            && (m.msgType == 6 && |m.payload| < 8 ==> r == C.Sent(st, [], InvalidData))
  {
    TakenAs(m, st, lib, a);
    hide C.Process, WireBytes, LE32, C.Burst;
  }

  /** A VERSIONINFO of another minor version is recorded and answered with nothing. */
  lemma TakeUnsupportedVersion(major: u32, minor: u32, st: C.State, lib: C.Library, a: C.Answers)
    requires minor != 1 && minor != 2 && RecoversText(lib.narrow)
    ensures C.Process(st, lib, WireBytes(Message(6, LE32(major) + LE32(minor))), a) ==
              C.Sent(st.(version := minor), [], Ok)
  {
    TakenAs(Message(6, LE32(major) + LE32(minor)), st, lib, a);
    TwoWords(major, minor);
    hide C.Process, WireBytes, LE32, ReadLE32;
  }

  /** A PDU of any other channel, or without a message type, on either side. */
  lemma OtherChannels(name: seq<byte>, dataLength: u32, rest: seq<byte>, slack: seq<byte>,
                      st: C.State, lib: C.Library, a: C.Answers, o: S.Oracle)
    requires IsText(name) && |name| <= 15 && RecoversText(lib.narrow)
    ensures var pdu := EncodeHeader(name, dataLength) + rest;
            && (name != CTL_NAME ==>
                  && C.Process(st, lib, pdu, a) == C.Sent(st, [], Ok)
                  && S.Process(pdu, slack, lib.narrow, o) == S.Served([], Ok))
            && (name == CTL_NAME && |rest| < 4 ==>
                  && C.Process(st, lib, pdu, a) == C.Sent(st, [], InvalidData)
                  && S.Process(pdu, slack, lib.narrow, o) == S.Served([], InvalidData))
  {
    ChannelHeaderRoundTrip(name, dataLength, rest, a.prior, lib.narrow);
    ChannelHeaderRoundTrip(name, dataLength, rest, o.prior, lib.narrow);
    assert (EncodeHeader(name, dataLength) + rest)[8 + 2 * (|name| + 1)..] == rest;
    hide ParseChannelHeader, EncodeHeader, C.Burst;
  }

  // ---------- the bursts ----------

  /** The blob is there, or can be built. */
  predicate Builds(st: C.State, o: C.Oracle) {
    st.blob.Some? || (o.password && o.encrypted.Some? && o.hexes && o.builds)
  }

  /** The blob used: the one kept, or one built from the stub and the user name,
      "Expert" without one. */
  function Blob(st: C.State, lib: C.Library, o: C.Oracle): C.text
    requires Builds(st, o)
  {
    if st.blob.Some? then st.blob.value
    else lib.expertBlob(if o.username.Some? then o.username.value else [69, 120, 112, 101, 114, 116],
                        lib.hex(o.encrypted.value))
  }

  /** The characters that go out for a text. */
  function Characters(lib: C.Library, t: C.text): seq<wchar> {
    if lib.countsTerminator then lib.widen(t) + [0] else lib.widen(t)
  }

  function Kept(st: C.State, minor: u32, blob: C.text, o: C.Oracle): C.State {
    C.State(minor, Some(blob), if st.blob.Some? then st.stub else o.encrypted)
  }

  /** Strings convert, there is memory, and the strings fit a PDU. */
  predicate ConvertsAll(st: C.State, lib: C.Library, a: C.Answers) {
    && Builds(st, a.b) && a.b.blobConverts && a.a.memory && a.b.memory && a.c.memory
    && a.b.ticket.Some? && a.b.ticketConverts && a.c.ticket.Some? && a.c.ticketConverts
    && 2 * |Characters(lib, a.b.ticket.value)| + 2 * |Characters(lib, Blob(st, lib, a.b))| <= U32_MAX - 26
    && 2 * |Characters(lib, a.c.ticket.value)| <= U32_MAX - 26
  }

  function Authenticate(st: C.State, lib: C.Library, o: C.Oracle): Message
    requires Builds(st, o) && o.ticket.Some?
  {
    Message(3, WideBytes(Characters(lib, o.ticket.value)) + WideBytes(Characters(lib, Blob(st, lib, o))))
  }

  function RemoteControl(lib: C.Library, o: C.Oracle): Message
    requires o.ticket.Some?
  {
    Message(1, WideBytes(Characters(lib, o.ticket.value)))
  }

  /** Any VERSIONINFO of minor version 1 is answered with VERSIONINFO 1.2, then an
      AUTHENTICATE with the ticket and then the blob, then a REMOTE_CONTROL_DESKTOP
      with the ticket: as far as the writes go, and with the first failed write's
      error. */
  lemma TakeVersionOne(major: u32, st: C.State, lib: C.Library, a: C.Answers)
    requires RecoversText(lib.narrow) && ConvertsAll(st, lib, a)
    ensures var one, two, three := VERSION_INFO, Authenticate(st, lib, a.b), RemoteControl(lib, a.c);
            var kept := Kept(st, 1, Blob(st, lib, a.b), a.b);
            C.Process(st, lib, WireBytes(Message(6, LE32(major) + LE32(1))), a) ==
              if !a.a.write.Ok? then C.Sent(st.(version := 1), [], a.a.write)
              else if !a.b.write.Ok? then C.Sent(kept, [one], a.b.write)
              else if !a.c.write.Ok? then C.Sent(kept, [one, two], a.c.write)
              else C.Sent(kept, [one, two, three], Ok)
  {
    TakenAs(Message(6, LE32(major) + LE32(1)), st, lib, a);
    TwoWords(major, 1);
    var now := st.(version := 1);
    AuthenticateSends(now, lib, a.b);
    RemoteControlSends(Kept(st, 1, Blob(st, lib, a.b), a.b), lib, a.c);
    hide C.Process, C.SendAuthenticate, C.SendRemoteControlDesktop, WireBytes, LE32, ReadLE32, WideBytes;
    assert [VERSION_INFO] + ([Authenticate(st, lib, a.b)] + [RemoteControl(lib, a.c)])
        == [VERSION_INFO, Authenticate(st, lib, a.b), RemoteControl(lib, a.c)];
    assert [VERSION_INFO] + ([Authenticate(st, lib, a.b)] + []) == [VERSION_INFO, Authenticate(st, lib, a.b)];
  }

  lemma AuthenticateSends(st: C.State, lib: C.Library, o: C.Oracle)
    requires Builds(st, o) && o.blobConverts && o.memory && o.ticket.Some? && o.ticketConverts
    requires 2 * |Characters(lib, o.ticket.value)| + 2 * |Characters(lib, Blob(st, lib, o))| <= U32_MAX - 26
    ensures C.SendAuthenticate(st, lib, o) ==
              C.Sent(Kept(st, st.version, Blob(st, lib, o), o),
                     if o.write.Ok? then [Authenticate(st, lib, o)] else [], o.write)
  {
    WireIsCharacters(lib, o.ticket.value);
    WireIsCharacters(lib, Blob(st, lib, o));
    hide WideBytes, C.WireText, Characters;
  }

  lemma RemoteControlSends(st: C.State, lib: C.Library, o: C.Oracle)
    requires o.memory && o.ticket.Some? && o.ticketConverts
    requires 2 * |Characters(lib, o.ticket.value)| <= U32_MAX - 26
    ensures C.SendRemoteControlDesktop(st, lib, o) ==
              C.Sent(st, if o.write.Ok? then [RemoteControl(lib, o)] else [], o.write)
  {
    WireIsCharacters(lib, o.ticket.value);
    hide WideBytes, C.WireText, Characters;
  }

  lemma WireIsCharacters(lib: C.Library, t: C.text)
    ensures C.WireText(lib, t) == Characters(lib, t)
  {
    assert lib.widen(t) + [] == lib.widen(t);
  }

  /** Blob and stub fit a PDU, and there is memory. */
  predicate Encrypts(st: C.State, lib: C.Library, a: C.Answers) {
    && Builds(st, a.a) && (st.blob.Some? ==> st.stub.Some?)
    && a.a.memory && a.b.memory && a.b.blobConverts
    && |Stub(st, a.a)| <= U32_MAX - 26 && 2 * |Characters(lib, Blob(st, lib, a.a))| <= U32_MAX - 26
  }

  function Stub(st: C.State, o: C.Oracle): seq<byte> {
    var stub := if st.blob.Some? then st.stub else o.encrypted;
    if stub.Some? then stub.value else []
  }

  /** Any VERSIONINFO of minor version 2 is answered with the stub in an
      EXPERT_ON_VISTA, then the blob in a VERIFY_PASSWORD. */
  lemma TakeVersionTwo(major: u32, st: C.State, lib: C.Library, a: C.Answers)
    requires RecoversText(lib.narrow) && Encrypts(st, lib, a)
    ensures var one := Message(9, Stub(st, a.a));
            var two := Message(8, WideBytes(Characters(lib, Blob(st, lib, a.a))));
            var kept := Kept(st, 2, Blob(st, lib, a.a), a.a);
            C.Process(st, lib, WireBytes(Message(6, LE32(major) + LE32(2))), a) ==
              if !a.a.write.Ok? then C.Sent(kept, [], a.a.write)
              else if !a.b.write.Ok? then C.Sent(kept, [one], a.b.write)
              else C.Sent(kept, [one, two], Ok)
  {
    TakenAs(Message(6, LE32(major) + LE32(2)), st, lib, a);
    TwoWords(major, 2);
    var now := st.(version := 2);
    ExpertSends(now, lib, a.a);
    VerifySends(Kept(st, 2, Blob(st, lib, a.a), a.a), lib, a.b);
    hide C.Process, C.SendExpertOnVista, C.SendVerifyPassword, WireBytes, LE32, ReadLE32, WideBytes, Characters;
    var one, two := Message(9, Stub(st, a.a)), Message(8, WideBytes(Characters(lib, Blob(st, lib, a.a))));
    assert [one] + [two] == [one, two] && [one] + [] == [one];
  }

  lemma ExpertSends(st: C.State, lib: C.Library, o: C.Oracle)
    requires Builds(st, o) && o.memory && |Stub(st, o)| <= U32_MAX - 26
    ensures C.SendExpertOnVista(st, lib, o) ==
              C.Sent(Kept(st, st.version, Blob(st, lib, o), o),
                     if o.write.Ok? then [Message(9, Stub(st, o))] else [], o.write)
  {
  }

  lemma VerifySends(st: C.State, lib: C.Library, o: C.Oracle)
    requires st.blob.Some? && o.memory && o.blobConverts && 2 * |Characters(lib, st.blob.value)| <= U32_MAX - 26
    ensures C.SendVerifyPassword(st, lib, o) ==
              C.Sent(st, if o.write.Ok? then [Message(8, WideBytes(Characters(lib, st.blob.value)))] else [], o.write)
  {
    WireIsCharacters(lib, st.blob.value);
    hide WideBytes, C.WireText, Characters;
  }

  predicate Fails(x: C.Sent) {
    x.messages == [] && x.status == InternalError
  }

  /** What the senders do when something is missing: without a blob they end the
      burst with an error, and so does a ticket that cannot be had or converted in
      REMOTE_CONTROL_DESKTOP; a failed conversion in the two others sends nothing
      and goes on. */
  lemma SendersWithout(st: C.State, lib: C.Library, o: C.Oracle)
    ensures !Builds(st, o) ==>
              && Fails(C.SendAuthenticate(st, lib, o)) && Fails(C.SendVerifyPassword(st, lib, o))
              && Fails(C.SendExpertOnVista(st, lib, o))
    ensures Builds(st, o) && (o.ticket.None? || !o.ticketConverts || !o.blobConverts) ==>
              C.SendAuthenticate(st, lib, o) == C.Sent(Kept(st, st.version, Blob(st, lib, o), o), [], Ok)
    ensures Builds(st, o) && !o.blobConverts ==>
              C.SendVerifyPassword(st, lib, o) == C.Sent(Kept(st, st.version, Blob(st, lib, o), o), [], Ok)
    ensures o.ticket.None? || !o.ticketConverts ==>
              C.SendRemoteControlDesktop(st, lib, o) == C.Sent(st, [], InternalError)
  {
  }

  // ---------- one side understands the other ----------

  predicate Proper(w: seq<wchar>) {
    w != [] && 0 !in w
  }

  /** When lengths count terminators the server finds in the burst for version 1
      the very ticket and blob the client sent: it takes the AUTHENTICATE and
      answers the REMOTE_CONTROL_DESKTOP with RESULT 0. When they do not, it never
      finds both strings. */
  lemma VersionOneUnderstood(st: C.State, lib: C.Library, a: C.Answers, slack: seq<byte>, o: S.Oracle)
    requires RecoversText(lib.narrow) && ConvertsAll(st, lib, a)
    requires Proper(lib.widen(a.b.ticket.value)) && Proper(lib.widen(Blob(st, lib, a.b)))
    requires Proper(lib.widen(a.c.ticket.value))
    requires o.firstConverts && o.secondConverts && o.memory && o.write
    ensures var two, three := Authenticate(st, lib, a.b), RemoteControl(lib, a.c);
            var found := S.ParseAuthenticate(WideChars(two.payload + slack), 4 + |two.payload|);
            && (found.Authenticated? <==> lib.countsTerminator)
            && (lib.countsTerminator ==>
                  && found == S.Authenticated(lib.widen(a.b.ticket.value), lib.widen(Blob(st, lib, a.b)))
                  && S.Process(WireBytes(two), slack, lib.narrow, o) == S.Served([], Ok)
                  && S.Process(WireBytes(three), slack, lib.narrow, o) == S.Served([Message(2, [0, 0, 0, 0])], Ok))
  {
    var ticket, blob, again := lib.widen(a.b.ticket.value), lib.widen(Blob(st, lib, a.b)), lib.widen(a.c.ticket.value);
    if lib.countsTerminator {
      assert Authenticate(st, lib, a.b) == Message(3, Terminated(ticket) + Terminated(blob));
      assert RemoteControl(lib, a.c) == Message(1, Terminated(again));
      assert 2 * (|ticket| + |blob| + 2) <= U32_MAX - 26 && 2 * (|again| + 1) <= U32_MAX - 26;
      Counted(ticket, blob, again, slack, lib.narrow, o);
    } else {
      assert Authenticate(st, lib, a.b) == Message(3, WideBytes(ticket) + WideBytes(blob));
      assert 2 * (|ticket| + |blob|) <= U32_MAX - 4;
      Uncounted(ticket, blob, slack);
    }
    hide Authenticate, RemoteControl, Terminated, S.Process, S.ParseAuthenticate, ConvertsAll, Blob;
  }

  lemma Counted(a: seq<wchar>, b: seq<wchar>, c: seq<wchar>, slack: seq<byte>, narrow: Utf16ToUtf8, o: S.Oracle)
    requires Proper(a) && Proper(b) && Proper(c) && RecoversText(narrow)
    requires 2 * (|a| + |b| + 2) <= U32_MAX - 26 && 2 * (|c| + 1) <= U32_MAX - 26
    requires o.firstConverts && o.secondConverts && o.memory && o.write
    ensures var two, three := Message(3, Terminated(a) + Terminated(b)), Message(1, Terminated(c));
            && S.ParseAuthenticate(WideChars(two.payload + slack), 4 + |two.payload|) == S.Authenticated(a, b)
            && S.Process(WireBytes(two), slack, narrow, o) == S.Served([], Ok)
            && S.Process(WireBytes(three), slack, narrow, o) == S.Served([Message(2, [0, 0, 0, 0])], Ok)
  {
    S.AuthenticateUndoesEncoder(a, b, true, slack);
    hide S.Process, S.ParseAuthenticate, WideBytes, WideChars, WireBytes;
    ServeAuthenticate(a, b, slack, narrow, o);
    ServeRemoteControl(c, slack, narrow, o);
  }

  lemma Uncounted(a: seq<wchar>, b: seq<wchar>, slack: seq<byte>)
    requires Proper(a) && Proper(b) && 2 * (|a| + |b|) <= U32_MAX - 4
    ensures var payload := WideBytes(a) + WideBytes(b);
            !S.ParseAuthenticate(WideChars(payload + slack), 4 + |payload|).Authenticated?
  {
    hide S.ParseAuthenticate, WideBytes, WideChars;
    S.EncodedStrings(a, b, slack);
    S.AuthenticateUncounted(a + b, WideChars(slack));
  }
}
