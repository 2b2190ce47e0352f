/** The channel header, the control header and the control PDUs both ends of
    the Remote Assistance channel build and read: the codec and its round trip. */
module RemdeskCommon {
  import opened Wire
  import opened Streams

  const CHANNEL_CTL_SIZE := 22

  const CTL_REMOTE_CONTROL_DESKTOP: u32 := 1
  const CTL_RESULT: u32 := 2
  const CTL_AUTHENTICATE: u32 := 3
  const CTL_SERVER_ANNOUNCE: u32 := 4
  const CTL_DISCONNECT: u32 := 5
  const CTL_VERSIONINFO: u32 := 6
  const CTL_ISCONNECTED: u32 := 7
  const CTL_VERIFY_PASSWORD: u32 := 8
  const CTL_EXPERT_ON_VISTA: u32 := 9
  const CTL_RANOVICE_NAME: u32 := 10
  const CTL_RAEXPERT_NAME: u32 := 11
  const CTL_TOKEN: u32 := 12

  /** The 32 chars of a header's ChannelName; the name ends at the first NUL. */
  type NameBuffer = b: seq<byte> | |b| == 32 witness seq(32, _ => 0)

  /** "RC_CTL" */
  const CTL_NAME: seq<byte> := [82, 67, 95, 67, 84, 76]

  datatype ChannelHeader = ChannelHeader(name: NameBuffer, dataLength: u32)
  datatype CtlHeader = CtlHeader(ch: ChannelHeader, msgType: u32)

  /** A control message: its type and what follows the type on the wire. */
  datatype Message = Message(msgType: u32, payload: seq<byte>)

  /** Conversion of a UTF-16 field into a name buffer that held prior. It may
      refuse, and what an empty field leaves behind is not specified. */
  type Utf16ToUtf8 = (seq<wchar>, NameBuffer) -> Option<NameBuffer>

  // ---------- names ----------

  function StrnLen(b: seq<byte>): (n: nat)
    ensures n <= |b|
    ensures forall i :: 0 <= i < n ==> b[i] != 0
    ensures n < |b| ==> b[n] == 0
  {
    if b == [] || b[0] == 0 then 0 else 1 + StrnLen(b[1..])
  }

  function CString(b: seq<byte>): seq<byte> {
    b[..StrnLen(b)]
  }

  predicate IsText(a: seq<byte>) {
    forall c :: c in a ==> 0 < c < 128
  }

  /** A signed char widened to 16 bits. */
  function Widen(c: byte): wchar {
    if c < 128 then c else 0xFF00 + c
  }

  /** It keeps the value the signed char had, modulo 2^16. */
  lemma WidenKeepsSign(c: byte)
    ensures Widen(c) == (if c < 128 then c as int else c as int - 256) % 0x1_0000
  {
  }

  /** A name in UTF-16 with its terminator. */
  function WideText(a: seq<byte>): (w: seq<wchar>)
    ensures |w| == |a| + 1
  {
    seq(|a|, i requires 0 <= i < |a| => Widen(a[i])) + [0]
  }

  /** What the conversion promises: terminated 7-bit text that fits is recovered. */
  ghost predicate RecoversText(conv: Utf16ToUtf8) {
    forall a: seq<byte>, prior: NameBuffer {:trigger conv(WideText(a), prior)} ::
      IsText(a) && |a| < 32 ==> conv(WideText(a), prior).Some? && CString(conv(WideText(a), prior).value) == a
  }

  lemma CStringOfText(a: seq<byte>, tail: seq<byte>)
    requires IsText(a)
    ensures StrnLen(a + [0] + tail) == |a| && CString(a + [0] + tail) == a
  {
    var b := a + [0] + tail;
    assert b[|a|] == 0;
    var n := StrnLen(b);
    assert forall i :: 0 <= i < |a| ==> b[i] == a[i] && a[i] in a;
    assert b[..|a|] == a;
  }

  // ---------- writing ----------

  function EncodeHeader(name: seq<byte>, dataLength: u32): (b: seq<byte>)
    requires |name| <= 15
    ensures |b| == 8 + 2 * (|name| + 1)
  {
    LE32((|name| + 1) * 2) + LE32(dataLength) + WideBytes(WideText(name))
  }

  /** The loop that fills ChannelNameW. */
  method WidenName(name: NameBuffer) returns (channelNameW: array<wchar>)
    requires StrnLen(name) < 32
    ensures fresh(channelNameW) && channelNameW.Length == 32
    ensures channelNameW[..StrnLen(name) + 1] == WideText(CString(name))
  {
    channelNameW := new wchar[32](_ => 0);
    for index := 0 to 32
      modifies channelNameW
      invariant forall k :: 0 <= k < index ==> channelNameW[k] == Widen(name[k])
    {
      channelNameW[index] := Widen(name[index]);
    }
  }

  method WriteChannelHeader(s: WStream, header: ChannelHeader)
    requires StrnLen(header.name) <= 15
    requires s.Valid() && s.position + 8 + 2 * (StrnLen(header.name) + 1) <= s.buffer.Length
    modifies s`position, s.buffer
    ensures s.Valid()
    ensures s.Written() == old(s.Written()) + EncodeHeader(CString(header.name), header.dataLength)
  {
    hide LE32, WideBytes, StrnLen, WideText;
    var channelNameW := WidenName(header.name);
    var n := StrnLen(header.name) + 1;
    var field := WideBytes(channelNameW[..])[..2 * n];
    assert field == WideBytes(WideText(CString(header.name))) by {
      assert channelNameW[..n] + channelNameW[n..] == channelNameW[..];
      WideBytesConcat(channelNameW[..n], channelNameW[n..]);
    }
    ghost var before := s.Written();
    s.Write(LE32(n * 2));
    s.Write(LE32(header.dataLength));
    assert s.Written() == before + (LE32(n * 2) + LE32(header.dataLength));
    s.Write(field);
    assert s.Written() == before + (LE32(n * 2) + LE32(header.dataLength) + field);
  }

  method WriteCtlHeader(s: WStream, h: CtlHeader)
    requires StrnLen(h.ch.name) <= 15
    requires s.Valid() && s.position + 12 + 2 * (StrnLen(h.ch.name) + 1) <= s.buffer.Length
    modifies s`position, s.buffer
    ensures s.Valid()
    ensures s.Written() == old(s.Written()) + EncodeHeader(CString(h.ch.name), h.ch.dataLength) + LE32(h.msgType)
  {
    WriteChannelHeader(s, h.ch);
    assert s.position == |s.Written()|;
    s.Write(LE32(h.msgType));
  }

  method PrepareCtlHeader(msgType: u32, msgSize: nat, prior: NameBuffer) returns (status: Status, h: CtlHeader)
    ensures status == if msgSize > U32_MAX - 4 then InvalidParameter else Ok
    ensures status.Ok? ==> h.msgType == msgType && h.ch.dataLength == 4 + msgSize && CString(h.ch.name) == CTL_NAME
  {
    h := CtlHeader(ChannelHeader(prior, 0), 0);
    if msgSize > U32_MAX - 4 {
      return InvalidParameter, h;
    }
    CStringOfText(CTL_NAME, prior[7..]);
    assert |CTL_NAME + [0] + prior[7..]| == 32;
    return Ok, CtlHeader(ChannelHeader(CTL_NAME + [0] + prior[7..], 4 + msgSize), msgType);
  }

  // ---------- reading ----------

  datatype HeaderResult = Header(header: ChannelHeader, consumed: nat) | Malformed(status: Status)

  function ParseChannelHeader(b: seq<byte>, prior: NameBuffer, conv: Utf16ToUtf8): (r: HeaderResult)
    ensures r.Header? ==> r.consumed <= |b|
    ensures r.Malformed? ==> r.status in {NoMemory, InvalidData}
  {
    if |b| < 8 then Malformed(NoMemory)
    else
      var n := ReadLE32(b);
      if n > 64 || n % 2 != 0 || |b| - 8 < n then Malformed(InvalidData)
      else match conv(WideChars(b[8..8 + n]), prior)
           case None => Malformed(InvalidData)
           case Some(name) => Header(ChannelHeader(name, ReadLE32(b[4..])), 8 + n)
  }

  method ReadChannelHeader(s: WStream, prior: NameBuffer, conv: Utf16ToUtf8)
    returns (status: Status, header: ChannelHeader)
    requires s.Valid()
    modifies s`position
    ensures s.Valid()
    ensures var r := ParseChannelHeader(old(s.Remaining()), prior, conv);
            && (r.Header? ==> status == Ok && header == r.header && s.position == old(s.position) + r.consumed)
            && (r.Malformed? ==> status == r.status)
  {
    header := ChannelHeader(prior, 0);
    if s.length < s.position + 8 {
      return NoMemory, header;
    }
    ghost var b := s.Remaining();
    var channelNameLen := s.ReadU32();
    var dataLength := s.ReadU32();
    assert s.Remaining() == b[4..][4..] == b[8..];
    header := ChannelHeader(prior, dataLength);
    if channelNameLen > 64 {
      return InvalidData, header;
    }
    if channelNameLen % 2 != 0 {
      return InvalidData, header;
    }
    if s.length - s.position < channelNameLen {
      return InvalidData, header;
    }
    var field := s.buffer[s.position..s.length][..channelNameLen];
    assert field == s.Remaining()[..channelNameLen] == b[8..8 + channelNameLen];
    s.Seek(channelNameLen);
    match conv(WideChars(field), prior)
    case None => return InvalidData, header;
    case Some(name) => return Ok, ChannelHeader(name, dataLength);
  }

  /** Reading back a written channel header returns it and consumes exactly it. */
  lemma ChannelHeaderRoundTrip(
    name: seq<byte>, dataLength: u32, rest: seq<byte>, prior: NameBuffer, conv: Utf16ToUtf8)
    requires |name| <= 15 && IsText(name) && RecoversText(conv)
    ensures var r := ParseChannelHeader(EncodeHeader(name, dataLength) + rest, prior, conv);
            && r.Header? && r.consumed == 8 + 2 * (|name| + 1)
            && CString(r.header.name) == name && r.header.dataLength == dataLength
  {
    var n := (|name| + 1) * 2;
    var b := EncodeHeader(name, dataLength) + rest;
    var field := WideBytes(WideText(name));
    assert b == LE32(n) + (LE32(dataLength) + field + rest);
    LE32RoundTrip(n, LE32(dataLength) + field + rest);
    assert b[4..] == LE32(dataLength) + (field + rest);
    LE32RoundTrip(dataLength, field + rest);
    assert b[8..8 + n] == field == field + [];
    WideRoundTrip(WideText(name), []);
    assert WideChars(b[8..8 + n]) == WideText(name);
  }

  /** A header is accepted exactly when the buffer starts with its encoding: both
      words, and a field of whole characters, at most 64 bytes, whose conversion
      is the name. Fewer than eight bytes are one error, everything else the other. */
  lemma ParsesExactly(b: seq<byte>, prior: NameBuffer, conv: Utf16ToUtf8, h: ChannelHeader, consumed: nat)
    ensures ParseChannelHeader(b, prior, conv) == Header(h, consumed) <==>
              && 8 <= consumed <= |b| && consumed % 2 == 0 && consumed <= 72
              && b[..8] == LE32(consumed - 8) + LE32(h.dataLength)
              && conv(WideChars(b[8..consumed]), prior) == Some(h.name)
    ensures ParseChannelHeader(b, prior, conv) == Malformed(NoMemory) <==> |b| < 8
  {
    if |b| >= 8 {
      assert b[..8] == b[..4] + b[4..][..4] && b[..8][..4] == b[..4] && b[..8][4..] == b[4..][..4];
      LE32Exact(b[4..], h.dataLength);
      if consumed >= 8 && consumed <= 72 {
        LE32Exact(b, consumed - 8);
        assert (LE32(consumed - 8) + LE32(h.dataLength))[..4] == LE32(consumed - 8);
        assert (LE32(consumed - 8) + LE32(h.dataLength))[4..] == LE32(h.dataLength);
      }
    }
  }

  // ---------- control PDUs ----------

  /** The bytes of a whole control PDU. */
  function EncodePdu(m: Message): (b: seq<byte>)
    requires |m.payload| <= U32_MAX - 4
    ensures |b| == 26 + |m.payload|
  {
    EncodeHeader(CTL_NAME, 4 + |m.payload|) + LE32(m.msgType) + m.payload
  }

  /** The length the server derives from the first two words of a PDU. */
  function PduLength(b: seq<byte>): u32
    requires |b| >= 8
  {
    Wrap32(ReadLE32(b) + ReadLE32(b[4..]) + 8)
  }

  /** Header, type and payload of a control PDU are recovered, and the bytes
      that follow it stay unread. */
  lemma ControlPduRoundTrip(m: Message, rest: seq<byte>, prior: NameBuffer, conv: Utf16ToUtf8)
    requires |m.payload| <= U32_MAX - 4 && RecoversText(conv)
    ensures var b := EncodePdu(m) + rest;
            var r := ParseChannelHeader(b, prior, conv);
            && r.Header? && r.consumed == 22
            && CString(r.header.name) == CTL_NAME && r.header.dataLength == 4 + |m.payload|
            && ReadLE32(b[22..]) == m.msgType
            && b[26..26 + |m.payload|] == m.payload && b[26 + |m.payload|..] == rest
  {
    var b := EncodePdu(m) + rest;
    var head := EncodeHeader(CTL_NAME, 4 + |m.payload|);
    assert b == head + (LE32(m.msgType) + m.payload + rest);
    ChannelHeaderRoundTrip(CTL_NAME, 4 + |m.payload|, LE32(m.msgType) + m.payload + rest, prior, conv);
    assert b[22..] == LE32(m.msgType) + (m.payload + rest);
    LE32RoundTrip(m.msgType, m.payload + rest);
  }

  /** The size a sender allocates: 32-bit arithmetic in all but one of them. */
  function AllocationSize(dataLength: u32, wide: bool): nat {
    if wide then CHANNEL_CTL_SIZE + dataLength else Wrap32(CHANNEL_CTL_SIZE + dataLength)
  }

  /** The written PDU fills its allocation, and is as long as the server derives
      from its header, exactly when 22 + DataLength needs no 33rd bit. The guard
      of PrepareCtlHeader alone admits more. */
  lemma ExactFit(m: Message)
    requires |m.payload| <= U32_MAX - 4
    ensures var dataLength := 4 + |m.payload|;
            && |EncodePdu(m)| == CHANNEL_CTL_SIZE + dataLength == AllocationSize(dataLength, true)
            && (AllocationSize(dataLength, false) == |EncodePdu(m)| <==> dataLength <= U32_MAX - 22)
            && (PduLength(EncodePdu(m)) == |EncodePdu(m)| <==> dataLength <= U32_MAX - 22)
  {
    var d := 4 + |m.payload|;
    var b := EncodePdu(m);
    var tail := WideBytes(WideText(CTL_NAME)) + LE32(m.msgType) + m.payload;
    assert b == LE32(14) + (LE32(d) + tail);
    LE32RoundTrip(14, LE32(d) + tail);
    assert b[4..] == LE32(d) + tail;
    LE32RoundTrip(d, tail);
  }

  /** What a sender's allocation makes of a message: refused by the header guard,
      by an empty or failed allocation, or stopped by the stream's own bound check. */
  function BuildStatus(payloadSize: nat, wide: bool, memory: bool): Status {
    if payloadSize > U32_MAX - 4 then InvalidParameter
    else
      var size := AllocationSize(4 + payloadSize, wide);
      if size == 0 || !memory then NoMemory
      else if size < 26 + payloadSize then Abort
      else Ok
  }

  /** Given memory a PDU is built exactly when 22 more than its DataLength needs no
      33rd bit, or the size is summed wide; otherwise the header guard refuses it,
      the size wraps to nothing, or the stream's bound stops the process. */
  lemma BuildsExactly(n: nat, wide: bool)
    ensures BuildStatus(n, wide, true) ==
              if n > U32_MAX - 4 then InvalidParameter
              else if wide || 4 + n <= U32_MAX - 22 then Ok
              else if 4 + n == U32_MAX - 21 then NoMemory
              else Abort
    ensures n <= U32_MAX - 4 ==> BuildStatus(n, wide, false) == NoMemory
  {
  }

  method WritePdu(s: WStream, h: CtlHeader, payload: seq<byte>)
    requires CString(h.ch.name) == CTL_NAME && |payload| <= U32_MAX - 4 && h.ch.dataLength == 4 + |payload|
    requires s.Valid() && s.position == 0 && 26 + |payload| <= s.buffer.Length
    modifies s`position, s`length, s.buffer
    ensures s.Valid() && s.length == s.position && s.Written() == EncodePdu(Message(h.msgType, payload))
  {
    WriteCtlHeader(s, h);
    ghost var head := s.Written();
    assert head == EncodeHeader(CTL_NAME, 4 + |payload|) + LE32(h.msgType);
    assert s.position == |head| == 26;
    s.Write(payload);
    s.SealLength();
    assert s.Written() == head + payload;
  }

  /** Version 1.2, as either side announces it. */
  const VERSION_INFO := Message(CTL_VERSIONINFO, LE32(1) + LE32(2))

  /** The announcement, byte for byte: 14 bytes of name, 12 of data, "RC_CTL" with
      its terminator, type 6, version 1 and 2. */
  lemma VersionInfoBytes()
    ensures EncodePdu(VERSION_INFO) ==
              [14, 0, 0, 0, 12, 0, 0, 0, 82, 0, 67, 0, 95, 0, 67, 0, 84, 0, 76, 0, 0, 0,
               6, 0, 0, 0, 1, 0, 0, 0, 2, 0, 0, 0]
  {
    NameBytes();
    SmallWords();
    hide LE32, WideBytes, WideText;
  }

  lemma NameBytes()
    ensures WideBytes(WideText(CTL_NAME)) == [82, 0, 67, 0, 95, 0, 67, 0, 84, 0, 76, 0, 0, 0]
  {
    var w := WideText(CTL_NAME);
    assert w[0] == 82 && w[1] == 67 && w[2] == 95 && w[3] == 67 && w[4] == 84 && w[5] == 76 && w[6] == 0;
    var b := WideBytes(w);
    assert b[0] == 82 && b[1] == 0 && b[2] == 67 && b[3] == 0 && b[4] == 95 && b[5] == 0 && b[6] == 67;
    assert b[7] == 0 && b[8] == 84 && b[9] == 0 && b[10] == 76 && b[11] == 0 && b[12] == 0 && b[13] == 0;
  }

  lemma SmallWords()
    ensures LE32(14) == [14, 0, 0, 0] && LE32(12) == [12, 0, 0, 0] && LE32(6) == [6, 0, 0, 0]
    ensures LE32(1) == [1, 0, 0, 0] && LE32(2) == [2, 0, 0, 0]
  {
  }

  /** The bytes the channel is handed: a 32-bit length counts them. */
  function WireBytes(m: Message): seq<byte> {
    if |m.payload| > U32_MAX - 4 then [] else EncodePdu(m)[..Wrap32(26 + |m.payload|)]
  }

  function WireAll(ms: seq<Message>): seq<seq<byte>> {
    seq(|ms|, i requires 0 <= i < |ms| => WireBytes(ms[i]))
  }

  lemma WireAllConcat(a: seq<Message>, b: seq<Message>)
    ensures WireAll(a + b) == WireAll(a) + WireAll(b)
    ensures WireAll([]) == []
  {
  }

  /** The common part of all senders: header, allocation, payload, seal. */
  method BuildPdu(m: Message, wide: bool, memory: bool, prior: NameBuffer) returns (status: Status, s: WStream?)
    ensures status == BuildStatus(|m.payload|, wide, memory)
    ensures status.Ok? ==> s != null && fresh(s) && fresh(s.buffer) && s.Valid()
                           && s.position == s.length == s.buffer.Length && s.buffer[..] == EncodePdu(m)
  {
    s := null;
    var h: CtlHeader;
    status, h := PrepareCtlHeader(m.msgType, |m.payload|, prior);
    if !status.Ok? {
      return;
    }
    var size := AllocationSize(h.ch.dataLength, wide);
    if size == 0 || !memory {
      return NoMemory, null;
    }
    if size < 26 + |m.payload| {
      return Abort, null;
    }
    s := new WStream(size);
    WritePdu(s, h, m.payload);
    assert s.buffer[..] == s.Written();
  }
}
