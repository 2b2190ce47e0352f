/** The server: its parsers, its answers and the read-and-dispatch loop over one
    stream, each against its function in ServerSpec. */
module RemdeskServer {
  import opened Wire
  import opened Streams
  import opened RemdeskCommon
  import opened ServerSpec

  class RemdeskServerContext {
    /** What the channel took so far. */
    var wire: seq<seq<byte>>

    constructor ()
      ensures wire == []
    {
      wire := [];
    }

    ghost predicate Follows(r: Served, before: seq<seq<byte>>, status: Status)
      reads this
    {
      status == r.status && wire == before + WireAll(r.messages)
    }

    // ---------- sending ----------

    /** The stream is freed whether or not the channel took it. */
    method SendMessage(m: Message, o: Oracle) returns (status: Status)
      modifies this`wire
      ensures Follows(ServerSpec.SendMessage(m, o), old(wire), status)
    {
      assert wire == wire + WireAll([]);
      var s: WStream?;
      status, s := BuildPdu(m, false, o.memory, o.prior);
      if !status.Ok? {
        return;
      }
      if o.write {
        assert s.buffer[..s.length] == s.buffer[..] == EncodePdu(m) == WireBytes(m);
        assert WireAll([m]) == [WireBytes(m)];
        wire := wire + [s.buffer[..s.length]];
      } else {
        status := InternalError;
      }
      s.Free();
    }

    // ---------- string scans ----------

    /** The characters from the stream's position to the end of its buffer. */
    static function Pointer(s: WStream): seq<wchar>
      reads s, s.buffer
      requires s.Valid()
    {
      WideChars(s.buffer[s.position..])
    }

    static method TakeString(pStringW: seq<wchar>, length: u32) returns (r: StringResult)
      ensures r == ServerSpec.TakeString(pStringW, length)
    {
      var msgLength, cch := length, 0;
      while msgLength > 0
        invariant cch <= |pStringW|
        invariant ScanFrom(pStringW, 0, length) == ScanFrom(pStringW, cch, msgLength)
        decreases |pStringW| - cch
      {
        if cch >= |pStringW| {
          return OutOfBuffer;
        }
        if pStringW[cch] == 0 {
          break;
        }
        msgLength := Wrap32(msgLength as int - 2);
        cch := cch + 1;
      }
      if cch >= |pStringW| {
        return OutOfBuffer;
      }
      if pStringW[cch] != 0 || cch == 0 {
        return Rejected;
      }
      return Text(cch, msgLength);
    }

    // ---------- receiving ----------

    method RecvRemoteControlDesktop(s: WStream, header: ChannelHeader, o: Oracle) returns (status: Status)
      requires s.Valid()
      modifies this`wire
      ensures Follows(ServerSpec.RecvRemoteControlDesktop(old(Pointer(s)), header.dataLength, o), old(wire), status)
    {
      assert wire == wire + WireAll([]);
      var msgLength := Wrap32(header.dataLength - 4);
      var r := TakeString(Pointer(s), msgLength);
      match r
      case OutOfBuffer => return Abort;
      case Rejected => return InvalidData;
      case Text(_, _) =>
        if !o.firstConverts {
          return InternalError;
        }
        status := SendMessage(RESULT_OK, o);
    }

    method RecvAuthenticate(s: WStream, header: ChannelHeader, o: Oracle) returns (status: Status)
      requires s.Valid()
      ensures status == ServerSpec.RecvAuthenticate(Pointer(s), header.dataLength, o).status
    {
      hide ServerSpec.TakeString, Pointer;
      var pStringW := Pointer(s);
      var msgLength := Wrap32(header.dataLength - 4);
      var ticket := TakeString(pStringW, msgLength);
      if !ticket.Text? {
        return if ticket.Rejected? then InvalidData else Abort;
      }
      var blob := TakeString(pStringW[ticket.cch + 1..], ticket.msgLength);
      if !blob.Text? {
        return if blob.Rejected? then InvalidData else Abort;
      }
      if !o.firstConverts {
        return InternalError;
      }
      return if o.secondConverts then Ok else InternalError;
    }

    method RecvVersionInfo(s: WStream) returns (status: Status)
      requires s.Valid()
      modifies s`position
      ensures s.Valid() && status == ServerSpec.RecvVersionInfo(old(s.Remaining())).status
    {
      if s.length < s.position + 8 {
        return InvalidData;
      }
      var major := s.ReadU32();
      var minor := s.ReadU32();
      if major != 1 || minor != 2 {
        return InvalidData;
      }
      return Ok;
    }

    method RecvVerifyPassword(s: WStream, header: ChannelHeader, o: Oracle) returns (status: Status)
      requires s.Valid()
      modifies this`wire
      ensures Follows(ServerSpec.RecvVerifyPassword(old(s.Remaining()), old(Slack(s)), header.dataLength, o),
                      old(wire), status)
    {
      assert wire == wire + WireAll([]);
      if s.length < s.position + 8 {
        return InvalidData;
      }
      if header.dataLength < 4 {
        return InvalidParameter;
      }
      SliceJoin(s.buffer[..], s.position, s.length);
      if ReadsPast(Pointer(s), (header.dataLength - 4) / 2) {
        return Abort;
      }
      if !o.firstConverts {
        return InternalError;
      }
      status := SendMessage(RESULT_OK, o);
    }

    /** The buffer behind the sealed length. */
    static function Slack(s: WStream): seq<byte>
      reads s, s.buffer
      requires s.Valid()
    {
      s.buffer[s.length..]
    }

    method RecvCtlPdu(s: WStream, header: ChannelHeader, o: Oracle) returns (status: Status)
      requires s.Valid() && s.position <= s.length
      modifies this`wire, s`position
      ensures s.Valid() && s.position <= s.buffer.Length
      ensures Follows(ServerSpec.RecvCtl(old(s.Remaining()), old(Slack(s)), header.dataLength, o), old(wire), status)
    {
      assert wire == wire + WireAll([]);
      if s.length < s.position + 4 {
        return InvalidData;
      }
      var msgType := s.ReadU32();
      SliceJoin(s.buffer[..], s.position, s.length);
      if msgType == CTL_REMOTE_CONTROL_DESKTOP {
        status := RecvRemoteControlDesktop(s, header, o);
      } else if msgType == CTL_AUTHENTICATE {
        status := RecvAuthenticate(s, header, o);
      } else if msgType == CTL_VERSIONINFO {
        status := RecvVersionInfo(s);
      } else if msgType == CTL_VERIFY_PASSWORD {
        status := RecvVerifyPassword(s, header, o);
      } else if msgType in {CTL_DISCONNECT, CTL_ISCONNECTED, CTL_EXPERT_ON_VISTA,
                            CTL_RANOVICE_NAME, CTL_RAEXPERT_NAME, CTL_TOKEN} {
        status := Ok;
      } else {
        status := InvalidData;
      }
    }

    method ReceivePdu(s: WStream, narrow: Utf16ToUtf8, o: Oracle) returns (status: Status)
      requires s.Valid() && s.position == 0
      modifies this`wire, s`position
      ensures s.Valid()
      ensures Follows(ServerSpec.Process(old(s.Remaining()), old(Slack(s)), narrow, o), old(wire), status)
    {
      hide ServerSpec.RecvCtl;
      ghost var pdu := s.Remaining();
      assert wire == wire + WireAll([]);
      var header;
      status, header := ReadChannelHeader(s, o.prior, narrow);
      if !status.Ok? {
        return;
      }
      assert s.Remaining() == pdu[s.position..];
      if CString(header.name) == CTL_NAME {
        status := RecvCtlPdu(s, header, o);
      }
    }

    // ---------- the loop ----------

    /** The channel read: see ServerSpec.Read. */
    method ReadChannel(s: WStream, inbox: seq<seq<byte>>, grown: nat) returns (left: seq<seq<byte>>, status: Status)
      requires s.Valid()
      modifies s`buffer, s`length, s`position, s.buffer
      ensures s.Valid() && (s.buffer == old(s.buffer) || fresh(s.buffer))
      ensures var l := Loop(Frame(old(s.buffer[..]), old(s.position)), inbox, [], []);
              var (l', st) := Read(l, grown);
              status == st && l' == Loop(Frame(s.buffer[..], s.position), left, [], [])
    {
      left := inbox;
      if inbox == [] {
        return inbox, Ok;
      }
      var pdu := inbox[0];
      if |pdu| <= s.buffer.Length {
        if s.position + |pdu| > s.buffer.Length {
          return inbox, Abort;
        }
        ghost var before := s.buffer[..];
        forall k | 0 <= k < |pdu| {
          s.buffer[k] := pdu[k];
        }
        assert s.buffer[..] == pdu + before[|pdu|..];
        s.Seek(|pdu|);
        return inbox[1..], Ok;
      }
      var ok := s.EnsureRemainingCapacity(|pdu|, grown);
      if !ok {
        return inbox, NoMemory;
      }
      return inbox, Ok;
    }

    /** A buffer that holds a PDU no longer than its header says is sealed,
        rewound, served and rewound again. */
    method DispatchFrame(s: WStream, ghost left: seq<seq<byte>>, narrow: Utf16ToUtf8, o: Oracle)
      returns (status: Status, ghost dispatched: seq<seq<byte>>)
      requires s.Valid()
      modifies this`wire, s`length, s`position
      ensures s.Valid()
      ensures var t := Dispatch(Loop(Frame(old(s.buffer[..]), old(s.position)), left, [], []), narrow, o);
              && status == t.status && dispatched == t.loop.dispatched
              && Frame(s.buffer[..], s.position) == t.loop.frame
              && wire == old(wire) + WireAll(t.loop.messages)
    {
      hide ServerSpec.Process;
      assert wire == wire + WireAll([]);
      status, dispatched := Ok, [];
      if s.position >= 8 {
        var pduLength := PduLength(s.buffer[..]);
        if pduLength >= s.position {
          ghost var n := s.position;
          s.SealLength();
          s.SetPosition(0);
          assert s.Remaining() == s.buffer[..][..n] && Slack(s) == s.buffer[..][n..];
          dispatched := [s.buffer[..n]];
          status := ReceivePdu(s, narrow, o);
          s.SetPosition(0);
          assert forall ms: seq<Message> :: [] + ms == ms;
        }
      }
    }

    /** One turn of the loop. */
    method LoopTurn(s: WStream, inbox: seq<seq<byte>>, narrow: Utf16ToUtf8, tick: Tick)
      returns (on: bool, left: seq<seq<byte>>, status: Status, ghost dispatched: seq<seq<byte>>)
      requires s.Valid()
      modifies this`wire, s`buffer, s`length, s`position, s.buffer
      ensures !tick.Ready? ==>
                && !on && left == inbox && dispatched == [] && wire == old(wire)
                && status == (if tick.StopRequested? then Ok else ChannelFailure(tick.code))
      ensures s.Valid() && (s.buffer == old(s.buffer) || fresh(s.buffer))
      ensures var t := Iterate(Loop(Frame(old(s.buffer[..]), old(s.position)), inbox, [], []), tick, narrow);
              && on == t.on && status == t.status && left == t.loop.inbox && dispatched == t.loop.dispatched
              && Frame(s.buffer[..], s.position) == t.loop.frame
              && wire == old(wire) + WireAll(t.loop.messages)
    {
      hide ServerSpec.Process, Read, Dispatch, PduLength;
      assert wire == wire + WireAll([]);
      on, left, status, dispatched := false, inbox, Ok, [];
      match tick
      case WaitFailed(code) => status := ChannelFailure(code);
      case StopRequested =>
      case Ready(grown, o) =>
        if s.buffer.Length > U32_MAX {
          status := InternalError;
          return;
        }
        left, status := ReadChannel(s, inbox, grown);
        if !status.Ok? {
          return;
        }
        status, dispatched := DispatchFrame(s, left, narrow, o);
        on := status.Ok?;
    }

    /** The thread: announce the version, then a turn of the loop for each tick
        until one ends it. The stream is the thread's own and is freed at the end. */
    method ServerThread(ticks: seq<Tick>, inbox: seq<seq<byte>>, narrow: Utf16ToUtf8, memory: bool, query: bool,
                        start: Oracle)
      returns (status: Status, ghost first: seq<byte>, ghost dispatched: seq<seq<byte>>)
      modifies this`wire
      ensures |first| == 4096
      ensures !memory || !query ==>
                wire == old(wire) && dispatched == [] && status == if memory then InternalError else NoMemory
      ensures var hello := ServerSpec.SendMessage(VERSION_INFO, start);
              memory && query ==>
              if !hello.status.Ok? then Follows(hello, old(wire), status) && dispatched == []
              else
                var t := Run(Loop(Frame(first, 0), inbox, [], hello.messages), ticks, narrow);
                && status == t.status && dispatched == t.loop.dispatched
                && wire == old(wire) + WireAll(t.loop.messages)
    {
      hide Iterate, Run, WireAll, ServerSpec.SendMessage;
      dispatched := [];
      first := seq(4096, _ => 0);
      if !memory {
        return NoMemory, first, [];
      }
      var s := new WStream(4096);
      first := s.buffer[..];
      if !query {
        s.Free();
        return InternalError, first, [];
      }
      status := SendMessage(VERSION_INFO, start);
      if !status.Ok? {
        s.Free();
        return;
      }
      ghost var messages := ServerSpec.SendMessage(VERSION_INFO, start).messages;
      ghost var whole := Run(Loop(Frame(first, 0), inbox, [], messages), ticks, narrow);
      var left, n, on := inbox, 0, true;
      assert ticks[0..] == ticks;
      while n < |ticks| && on
        invariant n <= |ticks| && s.Valid() && fresh(s) && fresh(s.buffer)
        invariant wire == old(wire) + WireAll(messages)
        invariant var l := Loop(Frame(s.buffer[..], s.position), left, dispatched, messages);
                  whole == if on then Run(l, ticks[n..], narrow) else Turn(l, false, status)
      {
        ghost var l := Loop(Frame(s.buffer[..], s.position), left, dispatched, messages);
        RunAt(l, ticks, n, narrow);
        IterateAdds(l, ticks[n], narrow);
        ghost var t := Iterate(Loop(l.frame, left, [], []), ticks[n], narrow);
        ghost var now;
        on, left, status, now := LoopTurn(s, left, narrow, ticks[n]);
        dispatched := dispatched + now;
        WireAllConcat(messages, t.loop.messages);
        messages := messages + t.loop.messages;
        n := n + 1;
      }
      if on {
        RunNothing(Loop(Frame(s.buffer[..], s.position), left, dispatched, messages), ticks[n..], narrow);
        status := Ok;
      }
      s.Free();
    }
  }

  lemma SliceJoin<T>(b: seq<T>, p: nat, n: nat)
    requires p <= n <= |b|
    ensures b[p..n] + b[n..] == b[p..]
  {
  }
}
