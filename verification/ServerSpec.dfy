/** The server's parsers, its answers and its framing loop as functions, and
    what they guarantee for every payload and every schedule of reads. */
module ServerSpec {
  import opened Wire
  import opened RemdeskCommon

  /** What the libraries answer while one PDU is served: the bytes of an
      uninitialised header, whether each string converts, whether memory is
      available and whether the channel takes a write. */
  datatype Oracle = Oracle(prior: NameBuffer, firstConverts: bool, secondConverts: bool, memory: bool, write: bool)

  /** The messages written, and the error code. */
  datatype Served = Served(messages: seq<Message>, status: Status)

  // ---------- string scans ----------

  datatype Scan = Stop(cch: nat, msgLength: u32) | Overrun

  /** The scan loop: mem is everything from the payload to the end of the buffer;
      reading past it is an Overrun. */
  function ScanFrom(mem: seq<wchar>, cch: nat, msgLength: u32): Scan
    decreases |mem| - cch
  {
    if msgLength == 0 then Stop(cch, 0)
    else if cch >= |mem| then Overrun
    else if mem[cch] == 0 then Stop(cch, msgLength)
    else ScanFrom(mem, cch + 1, Wrap32(msgLength - 2))
  }

  datatype StringResult = Text(cch: nat, msgLength: u32) | Rejected | OutOfBuffer

  /** The scan and the check behind it: a terminator, and something before it. */
  function TakeString(mem: seq<wchar>, msgLength: u32): (r: StringResult)
    ensures r.Text? ==> r.cch < |mem|
  {
    match ScanFrom(mem, 0, msgLength)
    case Overrun => OutOfBuffer
    case Stop(cch, left) =>
      if cch >= |mem| then OutOfBuffer
      else if mem[cch] != 0 || cch == 0 then Rejected
      else Text(cch, left)
  }

  datatype Authentication = Authenticated(ticket: seq<wchar>, blob: seq<wchar>) | Refused | BeyondBuffer

  function ParseAuthenticate(mem: seq<wchar>, dataLength: u32): Authentication {
    match TakeString(mem, Wrap32(dataLength - 4))
    case OutOfBuffer => BeyondBuffer
    case Rejected => Refused
    case Text(n, left) =>
      match TakeString(mem[n + 1..], left)
      case OutOfBuffer => BeyondBuffer
      case Rejected => Refused
      case Text(k, _) => Authenticated(mem[..n], mem[n + 1..][..k])
  }

  /** mem starts with the terminated string a, within msgLength bytes when that
      number is even. (An odd number wraps past zero and bounds nothing.) */
  predicate StartsWith(mem: seq<wchar>, msgLength: u32, a: seq<wchar>) {
    && a != [] && 0 !in a && a + [0] <= mem
    && (msgLength % 2 == 0 ==> 2 * |a| <= msgLength)
  }

  lemma {:induction false} ScanStops(mem: seq<wchar>, cch: nat, msgLength: u32)
    requires cch <= |mem| && ScanFrom(mem, cch, msgLength).Stop?
    ensures var n, left := ScanFrom(mem, cch, msgLength).cch, ScanFrom(mem, cch, msgLength).msgLength;
            && cch <= n <= |mem| && (forall i :: cch <= i < n ==> mem[i] != 0)
            && (msgLength % 2 == 0 ==> 2 * (n - cch) <= msgLength)
    decreases |mem| - cch
  {
    if msgLength != 0 && mem[cch] != 0 {
      var next := Wrap32(msgLength - 2);
      assert next % 2 == msgLength % 2;
      ScanStops(mem, cch + 1, next);
    }
  }

  lemma WrapTwice(x: int, y: int)
    ensures Wrap32(Wrap32(x) - y) == Wrap32(x - y)
  {
    var q := x / 0x1_0000_0000;
    assert x == q * 0x1_0000_0000 + Wrap32(x);
    var r := (Wrap32(x) - y) / 0x1_0000_0000;
    assert x - y == (q + r) * 0x1_0000_0000 + Wrap32(Wrap32(x) - y);
  }

  /** The scan runs to the first zero, or to the announced end. */
  lemma {:induction false} ScanReaches(mem: seq<wchar>, cch: nat, n: nat, msgLength: u32)
    requires cch <= n <= |mem| && (forall i :: cch <= i < n ==> mem[i] != 0)
    requires msgLength % 2 == 0 ==> 2 * (n - cch) <= msgLength
    requires (n < |mem| && mem[n] == 0) || msgLength == 2 * (n - cch)
    ensures ScanFrom(mem, cch, msgLength) == Stop(n, Wrap32(msgLength - 2 * (n - cch)))
    decreases n - cch
  {
    if cch < n {
      var next := Wrap32(msgLength - 2);
      assert next % 2 == msgLength % 2;
      ScanReaches(mem, cch + 1, n, next);
      WrapTwice(msgLength - 2, 2 * (n - cch - 1));
    }
  }

  /** A string is taken exactly when the buffer starts with it. */
  lemma TakesExactly(mem: seq<wchar>, msgLength: u32, a: seq<wchar>)
    ensures StartsWith(mem, msgLength, a) <==>
              TakeString(mem, msgLength).Text? && mem[..TakeString(mem, msgLength).cch] == a
    ensures StartsWith(mem, msgLength, a) ==>
              TakeString(mem, msgLength) == Text(|a|, Wrap32(msgLength - 2 * |a|))
  {
    if StartsWith(mem, msgLength, a) {
      assert mem[|a|] == (a + [0])[|a|] && mem[..|a|] == (a + [0])[..|a|] == a;
      assert forall i :: 0 <= i < |a| ==> a[i] in a && mem[i] == a[i];
      ScanReaches(mem, 0, |a|, msgLength);
    }
    var r := TakeString(mem, msgLength);
    if r.Text? {
      ScanStops(mem, 0, msgLength);
      assert mem[..r.cch] + [0] == mem[..r.cch + 1];
    }
  }

  /** AUTHENTICATE is accepted exactly on a ticket and a blob, both terminated,
      not empty and within the announced length; what follows is never looked at. */
  lemma AuthenticateExact(mem: seq<wchar>, dataLength: u32, ticket: seq<wchar>, blob: seq<wchar>)
    ensures var msgLength := Wrap32(dataLength - 4);
            ParseAuthenticate(mem, dataLength) == Authenticated(ticket, blob) <==>
              && StartsWith(mem, msgLength, ticket)
              && StartsWith(mem[|ticket| + 1..], Wrap32(msgLength - 2 * |ticket|), blob)
  {
    var msgLength := Wrap32(dataLength - 4);
    TakesExactly(mem, msgLength, ticket);
    var first := TakeString(mem, msgLength);
    if first.Text? {
      TakesExactly(mem[first.cch + 1..], first.msgLength, blob);
    }
  }

  /** A payload of two terminated strings is recovered when both are non-empty
      and refused otherwise; never is anything read behind it. */
  lemma AuthenticatePayload(a: seq<wchar>, b: seq<wchar>, slack: seq<wchar>)
    requires 0 !in a && 0 !in b && 2 * (|a| + |b| + 2) <= U32_MAX - 4
    ensures ParseAuthenticate(a + [0] + b + [0] + slack, 4 + 2 * (|a| + |b| + 2)) ==
              if a != [] && b != [] then Authenticated(a, b) else Refused
  {
    var mem := a + [0] + b + [0] + slack;
    var n := 2 * (|a| + |b| + 2);
    assert mem == (a + [0]) + (b + [0] + slack);
    if a != [] {
      TakesExactly(mem, n, a);
      assert mem[|a| + 1..] == (b + [0]) + slack;
      var rest := n - 2 * |a|;
      if b != [] {
        TakesExactly(mem[|a| + 1..], rest, b);
        assert mem[..|a|] == a && mem[|a| + 1..][..|b|] == b;
      } else {
        assert mem[|a| + 1..][0] == 0;
      }
    } else {
      assert mem[0] == 0;
    }
  }

  /** No zero in the buffer, and a length that is no bound or reaches its end. */
  predicate Overruns(mem: seq<wchar>, msgLength: u32) {
    0 !in mem && (msgLength % 2 == 1 || msgLength >= 2 * |mem|)
  }

  lemma {:induction false} ScanOverruns(mem: seq<wchar>, cch: nat, msgLength: u32)
    requires cch <= |mem|
    ensures var left := 2 * (|mem| - cch);
            var noZero := forall i :: cch <= i < |mem| ==> mem[i] != 0;
            && (ScanFrom(mem, cch, msgLength).Overrun? <==> noZero && (msgLength % 2 == 1 || msgLength > left))
            && (ScanFrom(mem, cch, msgLength).Stop? && ScanFrom(mem, cch, msgLength).cch == |mem| <==>
                  noZero && msgLength == left)
    decreases |mem| - cch
  {
    if msgLength != 0 && cch < |mem| && mem[cch] != 0 {
      var next := Wrap32(msgLength - 2);
      assert next % 2 == msgLength % 2 && (msgLength >= 2 ==> next == msgLength - 2);
      ScanOverruns(mem, cch + 1, next);
    } else if msgLength == 0 && cch < |mem| {
      assert ScanFrom(mem, cch, msgLength) == Stop(cch, 0);
    }
  }

  /** A string is looked for behind the buffer's end exactly then. */
  lemma OverrunsExactly(mem: seq<wchar>, msgLength: u32)
    ensures TakeString(mem, msgLength).OutOfBuffer? <==> Overruns(mem, msgLength)
  {
    ScanOverruns(mem, 0, msgLength);
    if TakeString(mem, msgLength).OutOfBuffer? && ScanFrom(mem, 0, msgLength).Stop? {
      ScanStops(mem, 0, msgLength);
    }
  }

  /** The parser of AUTHENTICATE reads behind the buffer exactly when its first
      string overruns, or is found and the second one overruns. */
  lemma AuthenticateOverruns(mem: seq<wchar>, dataLength: u32)
    ensures var msgLength := Wrap32(dataLength - 4);
            ParseAuthenticate(mem, dataLength).BeyondBuffer? <==>
              || Overruns(mem, msgLength)
              || exists ticket :: StartsWith(mem, msgLength, ticket) && |ticket| < |mem|
                                  && Overruns(mem[|ticket| + 1..], Wrap32(msgLength - 2 * |ticket|))
  {
    hide TakeString, Overruns, StartsWith;
    var msgLength := Wrap32(dataLength - 4);
    OverrunsExactly(mem, msgLength);
    var first := TakeString(mem, msgLength);
    forall ticket | StartsWith(mem, msgLength, ticket)
      ensures first == Text(|ticket|, Wrap32(msgLength - 2 * |ticket|)) && ticket == mem[..|ticket|]
    {
      TakesExactly(mem, msgLength, ticket);
    }
    if first.Text? {
      var ticket := mem[..first.cch];
      TakesExactly(mem, msgLength, ticket);
      OverrunsExactly(mem[first.cch + 1..], first.msgLength);
    }
  }

  /** Without terminators the first scan runs to the end of the payload and
      leaves nothing for the second. */
  lemma AuthenticateUncounted(a: seq<wchar>, slack: seq<wchar>)
    requires 0 !in a && 2 * |a| <= U32_MAX - 4
    ensures !ParseAuthenticate(a + slack, 4 + 2 * |a|).Authenticated?
  {
    assert forall i :: 0 <= i < |a| ==> a[i] in a && (a + slack)[i] == a[i];
    ScanReaches(a + slack, 0, |a|, 2 * |a|);
  }

  lemma EncodedStrings(v: seq<wchar>, w: seq<wchar>, slack: seq<byte>)
    ensures WideChars(WideBytes(v) + WideBytes(w) + slack) == v + w + WideChars(slack)
  {
    WideBytesConcat(v, w);
    WideRoundTrip(v + w, slack);
  }

  /** The parser undoes the client's encoder exactly when the encoder's lengths
      count the terminators, whatever the buffer holds behind the payload. */
  lemma AuthenticateUndoesEncoder(a: seq<wchar>, b: seq<wchar>, counts: bool, slack: seq<byte>)
    requires a != [] && b != [] && 0 !in a && 0 !in b && 2 * (|a| + |b| + 2) <= U32_MAX - 4
    ensures var end: seq<wchar> := if counts then [0] else [];
            var payload := WideBytes(a + end) + WideBytes(b + end);
            var r := ParseAuthenticate(WideChars(payload + slack), 4 + |payload|);
            if counts then r == Authenticated(a, b) else !r.Authenticated?
  {
    hide ParseAuthenticate, WideChars, WideBytes;
    var end: seq<wchar> := if counts then [0] else [];
    var tail := WideChars(slack);
    EncodedStrings(a + end, b + end, slack);
    if counts {
      assert a + end + (b + end) + tail == a + [0] + b + [0] + tail;
      AuthenticatePayload(a, b, tail);
    } else {
      assert a + end == a && b + end == b;
      AuthenticateUncounted(a + b, tail);
    }
  }

  /** With uncounted terminators the one-string message is accepted exactly when
      the buffer happens to hold a zero right behind the payload. */
  lemma RemoteControlUncounted(a: seq<wchar>, slack: seq<wchar>)
    requires a != [] && 0 !in a && 2 * |a| <= U32_MAX - 4
    ensures TakeString(a + slack, 2 * |a|).Text? <==> slack != [] && slack[0] == 0
  {
    assert forall i :: 0 <= i < |a| ==> a[i] in a && (a + slack)[i] == a[i];
    ScanReaches(a + slack, 0, |a|, 2 * |a|);
  }

  // ---------- serving one PDU ----------

  function SendMessage(m: Message, o: Oracle): Served {
    var built := BuildStatus(|m.payload|, false, o.memory);
    if !built.Ok? then Served([], built)
    else if !o.write then Served([], InternalError)
    else Served([m], Ok)
  }

  const RESULT_OK := Message(CTL_RESULT, LE32(0))

  function RecvRemoteControlDesktop(mem: seq<wchar>, dataLength: u32, o: Oracle): Served {
    match TakeString(mem, Wrap32(dataLength - 4))
    case OutOfBuffer => Served([], Abort)
    case Rejected => Served([], InvalidData)
    case Text(_, _) => if o.firstConverts then SendMessage(RESULT_OK, o) else Served([], InternalError)
  }

  function RecvAuthenticate(mem: seq<wchar>, dataLength: u32, o: Oracle): Served {
    match ParseAuthenticate(mem, dataLength)
    case BeyondBuffer => Served([], Abort)
    case Refused => Served([], InvalidData)
    case Authenticated(_, _) => Served([], if o.firstConverts && o.secondConverts then Ok else InternalError)
  }

  /** Both messages stop the process exactly when their parsers read behind the
      buffer; answering never does. */
  lemma StringsAbort(mem: seq<wchar>, dataLength: u32, o: Oracle)
    ensures RecvRemoteControlDesktop(mem, dataLength, o).status == Abort <==> Overruns(mem, Wrap32(dataLength - 4))
    ensures RecvAuthenticate(mem, dataLength, o).status == Abort <==> ParseAuthenticate(mem, dataLength).BeyondBuffer?
  {
    hide TakeString;
    OverrunsExactly(mem, Wrap32(dataLength - 4));
  }

  function RecvVersionInfo(payload: seq<byte>): Served {
    if |payload| < 8 then Served([], InvalidData)
    else Served([], if ReadLE32(payload) == 1 && ReadLE32(payload[4..]) == 2 then Ok else InvalidData)
  }

  /** Converting n characters reads up to a zero, or all of them. */
  predicate ReadsPast(mem: seq<wchar>, n: nat) {
    n > |mem| && 0 !in mem
  }

  function RecvVerifyPassword(payload: seq<byte>, slack: seq<byte>, dataLength: u32, o: Oracle): Served {
    if |payload| < 8 then Served([], InvalidData)
    else if dataLength < 4 then Served([], InvalidParameter)
    else if ReadsPast(WideChars(payload + slack), (dataLength - 4) / 2) then Served([], Abort)
    else if !o.firstConverts then Served([], InternalError)
    else SendMessage(RESULT_OK, o)
  }

  /** A control message from its type on; slack is the buffer behind the PDU. */
  function RecvCtl(body: seq<byte>, slack: seq<byte>, dataLength: u32, o: Oracle): Served {
    if |body| < 4 then Served([], InvalidData)
    else
      var msgType := ReadLE32(body);
      var mem := WideChars(body[4..] + slack);
      if msgType == CTL_REMOTE_CONTROL_DESKTOP then RecvRemoteControlDesktop(mem, dataLength, o)
      else if msgType == CTL_AUTHENTICATE then RecvAuthenticate(mem, dataLength, o)
      else if msgType == CTL_VERSIONINFO then RecvVersionInfo(body[4..])
      else if msgType == CTL_VERIFY_PASSWORD then RecvVerifyPassword(body[4..], slack, dataLength, o)
      else if msgType in {CTL_DISCONNECT, CTL_ISCONNECTED, CTL_EXPERT_ON_VISTA,
                          CTL_RANOVICE_NAME, CTL_RAEXPERT_NAME, CTL_TOKEN} then Served([], Ok)
      else Served([], InvalidData)
  }

  function Process(pdu: seq<byte>, slack: seq<byte>, narrow: Utf16ToUtf8, o: Oracle): Served {
    match ParseChannelHeader(pdu, o.prior, narrow)
    case Malformed(status) => Served([], status)
    case Header(h, n) =>
      if CString(h.name) == CTL_NAME then RecvCtl(pdu[n..], slack, h.dataLength, o) else Served([], Ok)
  }

  // ---------- the framing loop ----------

  /** One turn of the loop: what the waits report and, when the channel is ready,
      the capacity the allocator offers should the buffer have to grow. */
  datatype Tick = WaitFailed(code: u32) | StopRequested | Ready(grown: nat, o: Oracle)

  /** The read buffer between two turns. */
  datatype Frame = Frame(buffer: seq<byte>, position: nat)

  /** The server between two turns: its buffer, the PDUs the channel still holds,
      the PDUs dispatched so far and the messages written. */
  datatype Loop = Loop(frame: Frame, inbox: seq<seq<byte>>, dispatched: seq<seq<byte>>, messages: seq<Message>)

  /** A turn ends with the loop going on or left, with an error code. */
  datatype Turn = Turn(loop: Loop, on: bool, status: Status)

  /** A read: the next PDU whole, at the start of the buffer, when it fits; its
      size, and the buffer grown for it, when it does not. */
  function Read(l: Loop, grown: nat): (r: (Loop, Status))
    requires l.frame.position <= |l.frame.buffer|
    ensures r.0.frame.position <= |r.0.frame.buffer|
  {
    var f := l.frame;
    if l.inbox == [] then (l, Ok)
    else
      var pdu := l.inbox[0];
      if |pdu| <= |f.buffer| then
        if f.position + |pdu| > |f.buffer| then (l, Abort)
        else (l.(frame := Frame(pdu + f.buffer[|pdu|..], f.position + |pdu|), inbox := l.inbox[1..]), Ok)
      else if f.position + |pdu| > grown then (l, NoMemory)
      else (l.(frame := Frame(f.buffer + seq(grown - |f.buffer|, _ => 0), f.position)), Ok)
  }

  /** Dispatch of what the buffer holds before the position. */
  function Dispatch(l: Loop, narrow: Utf16ToUtf8, o: Oracle): (t: Turn)
    requires l.frame.position <= |l.frame.buffer|
    ensures t.loop.frame.position <= |t.loop.frame.buffer| && l.dispatched <= t.loop.dispatched
    ensures (t.on <==> t.status.Ok?) && t.loop.inbox == l.inbox
  {
    var f := l.frame;
    if f.position >= 8 && PduLength(f.buffer) >= f.position then
      var pdu := f.buffer[..f.position];
      var s := Process(pdu, f.buffer[f.position..], narrow, o);
      Turn(Loop(Frame(f.buffer, 0), l.inbox, l.dispatched + [pdu], l.messages + s.messages), s.status.Ok?, s.status)
    else Turn(l, true, Ok)
  }

  function Iterate(l: Loop, tick: Tick, narrow: Utf16ToUtf8): (t: Turn)
    requires l.frame.position <= |l.frame.buffer|
    ensures t.loop.frame.position <= |t.loop.frame.buffer| && l.dispatched <= t.loop.dispatched
  {
    match tick
    case WaitFailed(code) => Turn(l, false, ChannelFailure(code))
    case StopRequested => Turn(l, false, Ok)
    case Ready(grown, o) =>
      if |l.frame.buffer| > U32_MAX then Turn(l, false, InternalError)
      else
        var (l', status) := Read(l, grown);
        if !status.Ok? then Turn(l', false, status) else Dispatch(l', narrow, o)
  }

  function Run(l: Loop, ticks: seq<Tick>, narrow: Utf16ToUtf8): Turn
    requires l.frame.position <= |l.frame.buffer|
    decreases |ticks|
  {
    if ticks == [] then Turn(l, true, Ok)
    else
      var t := Iterate(l, ticks[0], narrow);
      if t.on then Run(t.loop, ticks[1..], narrow) else t
  }

  /** A turn only adds to what was dispatched and written before it. */
  lemma IterateAdds(l: Loop, tick: Tick, narrow: Utf16ToUtf8)
    requires l.frame.position <= |l.frame.buffer|
    ensures var d := Iterate(Loop(l.frame, l.inbox, [], []), tick, narrow);
            Iterate(l, tick, narrow) ==
            Turn(Loop(d.loop.frame, d.loop.inbox, l.dispatched + d.loop.dispatched, l.messages + d.loop.messages),
                 d.on, d.status)
  {
    hide Dispatch;
    assert l.dispatched + [] == l.dispatched && l.messages + [] == l.messages;
    if tick.Ready? {
      var (r, status) := Read(l, tick.grown);
      assert Read(Loop(l.frame, l.inbox, [], []), tick.grown) == (r.(dispatched := [], messages := []), status);
      DispatchAdds(r, narrow, tick.o);
    }
  }

  lemma DispatchAdds(l: Loop, narrow: Utf16ToUtf8, o: Oracle)
    requires l.frame.position <= |l.frame.buffer|
    ensures var d := Dispatch(Loop(l.frame, l.inbox, [], []), narrow, o);
            Dispatch(l, narrow, o) ==
            Turn(Loop(d.loop.frame, d.loop.inbox, l.dispatched + d.loop.dispatched, l.messages + d.loop.messages),
                 d.on, d.status)
  {
    hide Process, PduLength;
    var d := Dispatch(Loop(l.frame, l.inbox, [], []), narrow, o);
    if d.loop.dispatched == [] {
      assert l.dispatched + [] == l.dispatched && l.messages + [] == l.messages;
    } else {
      var sent := Process(l.frame.buffer[..l.frame.position], l.frame.buffer[l.frame.position..], narrow, o);
      assert [] + sent.messages == sent.messages;
    }
  }

  lemma RunAt(l: Loop, ticks: seq<Tick>, n: nat, narrow: Utf16ToUtf8)
    requires l.frame.position <= |l.frame.buffer| && n < |ticks|
    ensures var t := Iterate(l, ticks[n], narrow);
            Run(l, ticks[n..], narrow) == if t.on then Run(t.loop, ticks[n + 1..], narrow) else t
  {
    hide Iterate;
    assert ticks[n..][0] == ticks[n] && ticks[n..][1..] == ticks[n + 1..];
  }

  lemma RunNothing(l: Loop, ticks: seq<Tick>, narrow: Utf16ToUtf8)
    requires l.frame.position <= |l.frame.buffer| && ticks == []
    ensures Run(l, ticks, narrow) == Turn(l, true, Ok)
  {
  }

  /** A run over two schedules in a row. */
  lemma {:induction false} RunThen(l: Loop, a: seq<Tick>, b: seq<Tick>, narrow: Utf16ToUtf8)
    requires l.frame.position <= |l.frame.buffer|
    ensures var t := Run(l, a, narrow);
            && t.loop.frame.position <= |t.loop.frame.buffer|
            && Run(l, a + b, narrow) == if t.on then Run(t.loop, b, narrow) else t
    decreases |a|
  {
    hide Iterate;
    if a == [] {
      assert a + b == b;
    } else {
      assert (a + b)[1..] == a[1..] + b;
      var t := Iterate(l, a[0], narrow);
      if t.on {
        RunThen(t.loop, a[1..], b, narrow);
      }
    }
  }

  /** A requested stop and a failed wait end the loop where they are met: buffer,
      channel, dispatches and writes stay as they were. So does whatever ended it
      before, and an error always does. */
  lemma StopEnds(l: Loop, ticks: seq<Tick>, n: nat, narrow: Utf16ToUtf8)
    requires l.frame.position <= |l.frame.buffer| && n < |ticks|
    ensures var before, whole := Run(l, ticks[..n], narrow), Run(l, ticks, narrow);
            && (!before.on ==> whole == before)
            && (before.on && ticks[n].StopRequested? ==> whole == Turn(before.loop, false, Ok))
            && (before.on && ticks[n].WaitFailed? ==> whole == Turn(before.loop, false, ChannelFailure(ticks[n].code)))
            && (!before.status.Ok? ==> !before.on)
  {
    hide Iterate, Run;
    var before := Run(l, ticks[..n], narrow);
    assert ticks == ticks[..n] + ticks[n..];
    RunThen(l, ticks[..n], ticks[n..], narrow);
    ErrorEnds(l, ticks[..n], narrow);
    RunAt(before.loop, ticks, n, narrow);
    NotReady(before.loop, ticks[n], narrow);
  }

  lemma NotReady(l: Loop, tick: Tick, narrow: Utf16ToUtf8)
    requires l.frame.position <= |l.frame.buffer|
    ensures tick.StopRequested? ==> Iterate(l, tick, narrow) == Turn(l, false, Ok)
    ensures tick.WaitFailed? ==> Iterate(l, tick, narrow) == Turn(l, false, ChannelFailure(tick.code))
  {
  }

  lemma {:induction false} ErrorEnds(l: Loop, ticks: seq<Tick>, narrow: Utf16ToUtf8)
    requires l.frame.position <= |l.frame.buffer|
    ensures Run(l, ticks, narrow).on ==> Run(l, ticks, narrow).status.Ok?
    decreases |ticks|
  {
    hide Iterate;
    if ticks != [] && Iterate(l, ticks[0], narrow).on {
      ErrorEnds(Iterate(l, ticks[0], narrow).loop, ticks[1..], narrow);
    }
  }

  /** A PDU no longer than its own header says. */
  predicate Complete(pdu: seq<byte>) {
    8 <= |pdu| <= PduLength(pdu)
  }

  predicate AllComplete(inbox: seq<seq<byte>>) {
    forall i :: 0 <= i < |inbox| ==> Complete(inbox[i])
  }

  /** A whole PDU read into an empty frame is dispatched exactly when it is
      complete; otherwise it stays in the frame and the position is off zero. */
  lemma DispatchExact(l: Loop, grown: nat, o: Oracle, narrow: Utf16ToUtf8)
    requires l.frame.position == 0 && l.inbox != [] && 0 < |l.inbox[0]| <= |l.frame.buffer| <= U32_MAX
    ensures var t := Iterate(l, Ready(grown, o), narrow);
            && t.loop.inbox == l.inbox[1..]
            && (t.loop.frame.position == 0 <==> Complete(l.inbox[0]))
            && t.loop.dispatched == l.dispatched + if Complete(l.inbox[0]) then [l.inbox[0]] else []
  {
    var pdu := l.inbox[0];
    var buffer := pdu + l.frame.buffer[|pdu|..];
    assert buffer[..|pdu|] == pdu;
    if |pdu| >= 8 {
      assert buffer[0] == pdu[0] && buffer[1] == pdu[1] && buffer[2] == pdu[2] && buffer[3] == pdu[3];
      assert buffer[4..][..4] == pdu[4..][..4];
      assert PduLength(buffer) == PduLength(pdu);
    }
    assert l.dispatched + [] == l.dispatched;
  }

  /** A PDU read while the frame still holds an incomplete one: it lands at the
      start, the position counts both, and what is dispatched, if its own header
      allows for that much, is the new PDU with what the old one left behind it.
      Both together not fitting the buffer stops the process. */
  lemma LeftoverFrame(l: Loop, grown: nat, o: Oracle, narrow: Utf16ToUtf8)
    requires l.frame.position <= |l.frame.buffer| <= U32_MAX && l.inbox != [] && |l.inbox[0]| <= |l.frame.buffer|
    ensures var t := Iterate(l, Ready(grown, o), narrow);
            var pdu := l.inbox[0];
            var n := l.frame.position + |pdu|;
            var overlaid := pdu + l.frame.buffer[|pdu|..];
            if n > |l.frame.buffer| then t == Turn(l, false, Abort)
            else
              && t.loop.inbox == l.inbox[1..] && t.loop.frame.buffer == overlaid
              && if n >= 8 && PduLength(overlaid) >= n then
                   t.loop.dispatched == l.dispatched + [overlaid[..n]] && t.loop.frame.position == 0
                 else t.on && t.loop.dispatched == l.dispatched && t.loop.frame.position == n
  {
    hide Process;
  }

  /** What the turn that dispatches a PDU answers to it. */
  lemma DispatchServes(l: Loop, grown: nat, o: Oracle, narrow: Utf16ToUtf8)
    requires l.frame.position == 0 && l.inbox != [] && |l.inbox[0]| <= |l.frame.buffer| <= U32_MAX
    requires Complete(l.inbox[0])
    ensures var t := Iterate(l, Ready(grown, o), narrow);
            var s := Process(l.inbox[0], l.frame.buffer[|l.inbox[0]|..], narrow, o);
            && t.status == s.status && t.loop.messages == l.messages + s.messages
            && |t.loop.frame.buffer| == |l.frame.buffer|
  {
    hide Process;
    DispatchExact(l, grown, o, narrow);
    var pdu := l.inbox[0];
    var buffer := pdu + l.frame.buffer[|pdu|..];
    assert buffer[..|pdu|] == pdu && buffer[|pdu|..] == l.frame.buffer[|pdu|..];
  }

  lemma IterateKeeps(l: Loop, tick: Tick, narrow: Utf16ToUtf8)
    requires l.frame.position == 0 && AllComplete(l.inbox)
    ensures var t := Iterate(l, tick, narrow);
            && t.loop.frame.position == 0 && |t.loop.frame.buffer| >= |l.frame.buffer|
            && AllComplete(t.loop.inbox)
            && t.loop.dispatched + t.loop.inbox == l.dispatched + l.inbox
  {
    hide Process, PduLength;
    if tick.Ready? && |l.frame.buffer| <= U32_MAX && l.inbox != [] && |l.inbox[0]| <= |l.frame.buffer| {
      DispatchExact(l, tick.grown, tick.o, narrow);
      assert l.inbox == [l.inbox[0]] + l.inbox[1..];
    }
  }

  /** Nothing in the frame is dispatched before another read. */
  predicate Unready(f: Frame) {
    f.position <= |f.buffer| && (f.position >= 8 ==> PduLength(f.buffer) < f.position)
  }

  /** Between two turns the frame is unready, and a turn reads at most one PDU and
      dispatches at most one, and none without a read. */
  lemma TurnCounts(l: Loop, tick: Tick, narrow: Utf16ToUtf8)
    requires Unready(l.frame)
    ensures var t := Iterate(l, tick, narrow);
            && |t.loop.frame.buffer| >= |l.frame.buffer| && (t.on ==> Unready(t.loop.frame))
            && if t.loop.inbox == l.inbox then
                 t.loop.dispatched == l.dispatched && t.loop.frame.position == l.frame.position
               else l.inbox != [] && t.loop.inbox == l.inbox[1..] && |t.loop.dispatched| <= |l.dispatched| + 1
  {
    hide Process, PduLength;
    if tick.Ready? && |l.frame.buffer| <= U32_MAX && l.inbox != [] {
      assert |l.inbox[1..]| < |l.inbox|;
      var zeros: seq<byte> := seq(if tick.grown > |l.frame.buffer| then tick.grown - |l.frame.buffer| else 0, _ => 0);
      if |l.frame.buffer| >= 8 {
        HeaderKept(l.frame.buffer, l.frame.buffer + zeros);
      }
    }
  }

  lemma HeaderKept(b: seq<byte>, c: seq<byte>)
    requires 8 <= |b| <= |c| && c[..8] == b[..8]
    ensures PduLength(c) == PduLength(b)
  {
    assert forall i :: 0 <= i < 8 ==> c[i] == c[..8][i] == b[..8][i] == b[i];
    assert forall i :: 0 <= i < 4 ==> c[4..][i] == c[4 + i] && b[4..][i] == b[4 + i];
  }

  /** Over every schedule at most one PDU is dispatched for each one read. */
  lemma {:induction false} RunCounts(l: Loop, ticks: seq<Tick>, narrow: Utf16ToUtf8)
    requires Unready(l.frame)
    ensures var t := Run(l, ticks, narrow);
            && |t.loop.dispatched| + |t.loop.inbox| <= |l.dispatched| + |l.inbox|
            && |t.loop.inbox| <= |l.inbox| && |t.loop.frame.buffer| >= |l.frame.buffer|
    decreases |ticks|
  {
    hide Iterate, PduLength;
    if ticks != [] {
      TurnCounts(l, ticks[0], narrow);
      var t := Iterate(l, ticks[0], narrow);
      if t.on {
        RunCounts(t.loop, ticks[1..], narrow);
      }
    }
  }

  predicate FirstComplete(inbox: seq<seq<byte>>, n: nat)
    requires n <= |inbox|
  {
    forall i :: 0 <= i < n ==> Complete(inbox[i])
  }

  /** A turn from an empty frame that reads. */
  lemma FirstRead(l: Loop, tick: Tick, narrow: Utf16ToUtf8)
    requires l.frame.position == 0 && Iterate(l, tick, narrow).loop.inbox != l.inbox
    ensures var t := Iterate(l, tick, narrow);
            && l.inbox != []
            && (Complete(l.inbox[0]) ==> t.loop.frame.position == 0)
            && t.loop.dispatched == l.dispatched + if Complete(l.inbox[0]) then [l.inbox[0]] else []
  {
    hide Process, PduLength;
    if l.inbox[0] == [] {
      assert l.dispatched + [] == l.dispatched;
    } else {
      DispatchExact(l, tick.grown, tick.o, narrow);
    }
  }

  /** Exactly when a ready turn lets the loop go on, and with which error it ends
      it: a buffer too large for a read, a PDU memory is missing for, or what
      serving the PDU reports. */
  lemma ReadyTurn(l: Loop, grown: nat, o: Oracle, narrow: Utf16ToUtf8)
    requires l.frame.position == 0 && AllComplete(l.inbox)
    ensures var t := Iterate(l, Ready(grown, o), narrow);
            && (t.on <==> t.status.Ok?)
            && t.status ==
               if |l.frame.buffer| > U32_MAX then InternalError
               else if l.inbox == [] then Ok
               else if |l.inbox[0]| > |l.frame.buffer| then if |l.inbox[0]| > grown then NoMemory else Ok
               else Process(l.inbox[0], l.frame.buffer[|l.inbox[0]|..], narrow, o).status
  {
    hide Process, PduLength;
    if l.inbox != [] && |l.inbox[0]| <= |l.frame.buffer| <= U32_MAX {
      assert Complete(l.inbox[0]);
      DispatchServes(l, grown, o, narrow);
    }
  }

  /** Over every schedule and whatever the channel holds: the PDUs dispatched,
      followed by those not read, are the PDUs the channel was given, each once
      and in order, exactly when every PDU read was complete. Then the frame is
      empty again; the buffer never shrinks. */
  lemma {:induction false} FramingExact(l: Loop, ticks: seq<Tick>, narrow: Utf16ToUtf8)
    requires l.frame.position == 0
    ensures var t := Run(l, ticks, narrow);
            && |t.loop.frame.buffer| >= |l.frame.buffer| && |t.loop.inbox| <= |l.inbox|
            && var sound := FirstComplete(l.inbox, |l.inbox| - |t.loop.inbox|);
               && (t.loop.dispatched + t.loop.inbox == l.dispatched + l.inbox <==> sound)
               && (sound ==> t.loop.frame.position == 0)
    decreases |ticks|
  {
    hide Iterate, Complete;
    RunCounts(l, ticks, narrow);
    if ticks != [] {
      var t := Iterate(l, ticks[0], narrow);
      TurnCounts(l, ticks[0], narrow);
      var whole := Run(l, ticks, narrow);
      if t.loop.inbox == l.inbox {
        if t.on {
          FramingExact(t.loop, ticks[1..], narrow);
        }
      } else {
        FirstRead(l, ticks[0], narrow);
        if t.on {
          RunCounts(t.loop, ticks[1..], narrow);
        }
        var pdu, rest := l.inbox[0], l.inbox[1..];
        assert l.inbox == [pdu] + rest && l.dispatched + l.inbox == (l.dispatched + [pdu]) + rest;
        if !Complete(pdu) {
          assert |whole.loop.dispatched + whole.loop.inbox| < |l.dispatched + l.inbox|;
        } else {
          if t.on {
            FramingExact(t.loop, ticks[1..], narrow);
          }
          CompleteCons(pdu, rest, |rest| - |whole.loop.inbox|);
        }
      }
    }
  }

  lemma CompleteCons(pdu: seq<byte>, rest: seq<seq<byte>>, n: nat)
    requires n <= |rest| && Complete(pdu)
    ensures FirstComplete([pdu] + rest, n + 1) <==> FirstComplete(rest, n)
  {
    var inbox := [pdu] + rest;
    assert forall i :: 0 <= i < |rest| ==> rest[i] == inbox[i + 1];
    if FirstComplete(inbox, n + 1) {
      forall i | 0 <= i < n ensures Complete(rest[i]) {
        assert Complete(inbox[i + 1]);
      }
    }
  }

  /** So when the channel holds complete PDUs only, none is lost, repeated or
      reordered, and at each turn's end the position is zero. */
  lemma FramingKeeps(l: Loop, ticks: seq<Tick>, narrow: Utf16ToUtf8)
    requires l.frame.position == 0 && AllComplete(l.inbox)
    ensures var t := Run(l, ticks, narrow);
            && t.loop.frame.position == 0 && |t.loop.frame.buffer| >= |l.frame.buffer|
            && AllComplete(t.loop.inbox)
            && t.loop.dispatched + t.loop.inbox == l.dispatched + l.inbox
  {
    hide Run, Complete;
    FramingExact(l, ticks, narrow);
    var t := Run(l, ticks, narrow).loop;
    var n := |l.inbox| - |t.inbox|;
    assert t.inbox == (t.dispatched + t.inbox)[|t.dispatched|..]
        == (l.dispatched + l.inbox)[|t.dispatched|..] == l.inbox[n..];
  }

  /** Turns that find the channel ready and memory for every PDU it holds. */
  predicate Roomy(ticks: seq<Tick>, inbox: seq<seq<byte>>) {
    forall i, j :: 0 <= i < |ticks| && 0 <= j < |inbox| ==>
      ticks[i].Ready? && |inbox[j]| <= ticks[i].grown <= U32_MAX
  }

  function HeadFits(l: Loop): nat {
    if l.inbox != [] && |l.inbox[0]| <= |l.frame.buffer| then 1 else 0
  }

  /** One such turn: the head of the channel is dispatched, or the buffer now has
      room for it. */
  lemma RoomyTurn(l: Loop, grown: nat, o: Oracle, narrow: Utf16ToUtf8)
    requires l.frame.position == 0 && AllComplete(l.inbox) && l.inbox != [] && |l.frame.buffer| <= U32_MAX
    requires |l.inbox[0]| <= grown <= U32_MAX
    ensures var t := Iterate(l, Ready(grown, o), narrow);
            && |t.loop.frame.buffer| <= U32_MAX
            && if HeadFits(l) == 1 then t.loop.inbox == l.inbox[1..]
               else t.loop.inbox == l.inbox && HeadFits(t.loop) == 1
  {
    hide Process, PduLength;
    if HeadFits(l) == 1 {
      assert Complete(l.inbox[0]);
      DispatchExact(l, grown, o, narrow);
    }
  }

  /** Given memory, two ready turns a PDU are enough: unless a turn ended the loop,
      the channel is empty or half as many PDUs were dispatched as there were turns. */
  lemma {:induction false} FramingDrains(l: Loop, ticks: seq<Tick>, narrow: Utf16ToUtf8)
    requires l.frame.position == 0 && AllComplete(l.inbox) && |l.frame.buffer| <= U32_MAX
    requires Roomy(ticks, l.inbox)
    ensures var t := Run(l, ticks, narrow);
            && t.loop.dispatched + t.loop.inbox == l.dispatched + l.inbox
            && (t.on ==> t.loop.inbox == [] || |ticks| + HeadFits(l) <= 2 * (|t.loop.dispatched| - |l.dispatched|) + 1)
            && (t.on && |ticks| >= 2 * |l.inbox| ==> t.loop.dispatched == l.dispatched + l.inbox)
    decreases |ticks|
  {
    hide Iterate;
    FramingKeeps(l, ticks, narrow);
    if ticks != [] {
      var t := Iterate(l, ticks[0], narrow);
      IterateKeeps(l, ticks[0], narrow);
      if l.inbox == [] {
        EmptyTurn(l, ticks[0], narrow);
      } else {
        assert ticks[0].Ready? && |l.inbox[0]| <= ticks[0].grown;
        RoomyTurn(l, ticks[0].grown, ticks[0].o, narrow);
      }
      if t.on {
        FramingDrains(t.loop, ticks[1..], narrow);
      }
    }
    var t := Run(l, ticks, narrow).loop;
    assert |t.dispatched| + |t.inbox| == |l.dispatched| + |l.inbox|;
    assert t.inbox == [] ==> t.dispatched == t.dispatched + t.inbox;
  }

  lemma EmptyTurn(l: Loop, tick: Tick, narrow: Utf16ToUtf8)
    requires l.frame.position == 0 && l.inbox == []
    ensures Iterate(l, tick, narrow).loop == l
  {
  }
}
