/** The client plugin: its fields, the channel events that fill the queue, the
    senders and the worker that drains the queue, each against its function in
    Reassembly or ClientSpec. */
module RemdeskClient {
  import opened Wire
  import opened Streams
  import opened RemdeskCommon
  import opened ClientSpec
  import Reassembly

  class RemdeskPlugin {
    var dataIn: WStream?
    var queue: seq<WStream>
    var version: u32
    var expertBlob: Option<text>
    var encryptedPassStub: Option<seq<byte>>
    /** What the channel accepted so far. */
    var wire: seq<seq<byte>>

    constructor ()
      ensures Valid() && St() == State(2, None, None) && DataIn() == None && queue == [] && wire == []
    {
      dataIn, queue, version, expertBlob, encryptedPassStub, wire := null, [], 2, None, None, [];
    }

    ghost predicate Valid()
      reads this, dataIn, queue
    {
      && (dataIn != null ==> dataIn.Valid() && dataIn.length == dataIn.buffer.Length)
      && (forall i :: 0 <= i < |queue| ==>
            && queue[i].Valid() && queue[i].position == 0 && queue[i].length == queue[i].buffer.Length
            && (dataIn != null ==> queue[i] != dataIn && queue[i].buffer != dataIn.buffer))
      && (forall i, j :: 0 <= i < j < |queue| ==> queue[i] != queue[j])
    }

    function St(): State
      reads this
    {
      State(version, expertBlob, encryptedPassStub)
    }

    /** The open message. */
    ghost function DataIn(): Option<Reassembly.Partial>
      reads this, dataIn, if dataIn == null then {} else {dataIn.buffer}
      requires dataIn != null ==> dataIn.Valid()
    {
      if dataIn == null then None else Some(Reassembly.Partial(dataIn.buffer.Length, dataIn.Written()))
    }

    /** The messages waiting for the worker. */
    ghost function Queued(): (q: seq<seq<byte>>)
      reads this, queue, set i | 0 <= i < |queue| :: queue[i].buffer
      ensures |q| == |queue|
    {
      seq(|queue|, i requires 0 <= i < |queue| reads this, queue, set j | 0 <= j < |queue| :: queue[j].buffer
        => queue[i].buffer[..])
    }

    // ---------- channel events ----------

    method EventDataReceived(e: Reassembly.Event) returns (status: Status)
      requires Valid()
      modifies this`dataIn, this`queue, dataIn, if dataIn == null then {} else {dataIn.buffer}
      ensures Valid()
      ensures var r := Reassembly.DataReceived(old(DataIn()), e);
              && status == r.status && DataIn() == r.dataIn
              && Queued() == old(Queued()) + Reassembly.Queued(r, [])
      ensures !e.chunk.Ignored() && e.chunk.first && old(dataIn) != null ==> !old(dataIn).live
    {
      var c := e.chunk;
      assert Queued() == old(Queued()) + [];
      if c.suspend || c.resume {
        return Ok;
      }
      if c.first {
        OpenMessage(c.total, e.answers.memory);
        if dataIn == null {
          return NoMemory;
        }
      }
      if dataIn == null {
        return Abort;
      }
      status := AppendChunk(c.data, c.last, e.answers);
    }

    /** The chunk joins the open message; with LAST the message is completed. */
    method AppendChunk(data: seq<byte>, last: bool, answers: Reassembly.Answers) returns (status: Status)
      requires Valid() && dataIn != null
      modifies this`dataIn, this`queue, dataIn, dataIn.buffer
      ensures Valid()
      ensures var p := old(DataIn()).value;
              var need := |p.data| + |data|;
              var q := Reassembly.Partial(if need > p.capacity then answers.grown else p.capacity, p.data + data);
              if need > q.capacity then
                status == NoMemory && DataIn() == Some(p) && Queued() == old(Queued())
              else if !last then
                status == Ok && DataIn() == Some(q) && Queued() == old(Queued())
              else if q.capacity != need then
                status == InternalError && DataIn() == Some(q) && Queued() == old(Queued())
              else
                && DataIn() == None && status == (if answers.post then Ok else InternalError)
                && Queued() == old(Queued()) + if answers.post then [q.data] else []
    {
      var s := dataIn;
      status := Append(s, data, answers.grown);
      assert Queued() == old(Queued());
      if !status.Ok? {
        return;
      }
      if last {
        status := Complete(answers.post);
      }
    }

    /** FIRST: the open message, if any, is freed and a new one allocated. */
    method OpenMessage(total: u32, memory: bool)
      requires Valid()
      modifies this`dataIn, dataIn
      ensures Valid() && queue == old(queue) && Queued() == old(Queued())
      ensures dataIn == null <==> !memory || total == 0
      ensures dataIn != null ==>
                fresh(dataIn) && fresh(dataIn.buffer) && DataIn() == Some(Reassembly.Partial(total, []))
      ensures old(dataIn) != null ==> !old(dataIn).live
    {
      if dataIn != null {
        dataIn.Free();
      }
      dataIn := null;
      if memory && total > 0 {
        dataIn := new WStream(total);
      }
    }

    /** LAST: a full message is sealed, rewound and handed to the queue. */
    method Complete(post: bool) returns (status: Status)
      requires Valid() && dataIn != null
      modifies this`dataIn, this`queue, dataIn`length, dataIn`position
      ensures Valid()
      ensures var p := old(DataIn()).value;
              if p.capacity != |p.data| then
                status == InternalError && DataIn() == old(DataIn()) && Queued() == old(Queued())
              else
                && DataIn() == None && status == (if post then Ok else InternalError)
                && Queued() == old(Queued()) + if post then [p.data] else []
    {
      var s := dataIn;
      if s.buffer.Length != s.position {
        return InternalError;
      }
      ghost var data := s.Written();
      assert s.buffer[..] == data;
      dataIn := null;
      s.SealLength();
      s.SetPosition(0);
      assert Queued() == old(Queued()) + [];
      if !post {
        return InternalError;
      }
      queue := queue + [s];
      assert Queued() == old(Queued()) + [data];
      return Ok;
    }

    static method Append(s: WStream, data: seq<byte>, grown: nat) returns (status: Status)
      requires s.Valid() && s.length == s.buffer.Length
      modifies s, s.buffer
      ensures s.Valid() && s.length == s.buffer.Length
      ensures s.buffer == old(s.buffer) || fresh(s.buffer)
      ensures var need := old(s.position) + |data|;
              var room := old(s.buffer.Length);
              if need > room && need > grown then status == NoMemory && unchanged(s) && unchanged(s.buffer)
              else && status == Ok && s.buffer.Length == (if need > room then grown else room)
                   && s.Written() == old(s.Written()) + data
    {
      ghost var before := s.Written();
      var ok := s.EnsureRemainingCapacity(|data|, grown);
      if !ok {
        return NoMemory;
      }
      assert s.Written() == before;
      s.Write(data);
      return Ok;
    }

    // ---------- senders ----------

    /** The fields and the wire are what one send, or a sequence of them, makes
        of an earlier state and an earlier wire. */
    ghost predicate Follows(r: Sent, before: seq<seq<byte>>, status: Status)
      reads this
    {
      status == r.status && St() == r.st && wire == before + WireAll(r.messages)
    }

    method VirtualChannelWrite(s: WStream, answer: Status) returns (status: Status)
      requires s.Valid()
      modifies this`wire, s`live
      ensures status == answer
      ensures wire == old(wire) + if status.Ok? then [s.buffer[..Wrap32(s.length)]] else []
      ensures !status.Ok? ==> !s.live
    {
      if answer.Ok? {
        wire := wire + [s.buffer[..Wrap32(s.length)]];
      } else {
        s.Free();
      }
      return answer;
    }

    method Transmit(m: Message, wide: bool, o: Oracle, prior: NameBuffer) returns (status: Status)
      modifies this`wire
      ensures Follows(ClientSpec.Transmit(old(St()), m, wide, o), old(wire), status)
    {
      var s: WStream?;
      assert wire == wire + WireAll([]);
      status, s := BuildPdu(m, wide, o.memory, prior);
      if !status.Ok? {
        return;
      }
      assert s.buffer[..] == EncodePdu(m) && s.length == 26 + |m.payload|;
      assert s.buffer[..Wrap32(s.length)] == EncodePdu(m)[..Wrap32(s.length)] == WireBytes(m);
      assert WireAll([m]) == [WireBytes(m)];
      status := VirtualChannelWrite(s, o.write);
    }

    method GenerateExpertBlob(lib: Library, o: Oracle) returns (status: Status)
      modifies this`expertBlob, this`encryptedPassStub
      ensures (St(), status) == ClientSpec.GenerateExpertBlob(old(St()), lib, o)
    {
      if expertBlob.Some? {
        return Ok;
      }
      if !o.password {
        return InternalError;
      }
      var name := if o.username.Some? then o.username.value else DEFAULT_NAME;
      encryptedPassStub := o.encrypted;
      if encryptedPassStub.None? {
        return InternalError;
      }
      if !o.hexes {
        return InternalError;
      }
      var pass := lib.hex(encryptedPassStub.value);
      if !o.builds {
        return InternalError;
      }
      expertBlob := Some(lib.expertBlob(name, pass));
      return Ok;
    }

    method SendAuthenticate(lib: Library, o: Oracle, prior: NameBuffer) returns (status: Status)
      modifies this`expertBlob, this`encryptedPassStub, this`wire
      ensures Follows(ClientSpec.SendAuthenticate(old(St()), lib, o), old(wire), status)
    {
      assert wire == wire + WireAll([]);
      status := GenerateExpertBlob(lib, o);
      if !status.Ok? {
        return;
      }
      var ticket := Ticket(lib, o);
      if ticket.None? || |ticket.value| > U32_MAX / 2 {
        return Ok;
      }
      if !o.blobConverts {
        return Ok;
      }
      var payload := WideBytes(ticket.value) + WideBytes(WireText(lib, expertBlob.value));
      status := Transmit(Message(CTL_AUTHENTICATE, payload), false, o, prior);
    }

    method SendRemoteControlDesktop(lib: Library, o: Oracle, prior: NameBuffer) returns (status: Status)
      modifies this`wire
      ensures Follows(ClientSpec.SendRemoteControlDesktop(old(St()), lib, o), old(wire), status)
    {
      assert wire == wire + WireAll([]);
      var ticket := Ticket(lib, o);
      if ticket.None? {
        return InternalError;
      }
      status := Transmit(Message(CTL_REMOTE_CONTROL_DESKTOP, WideBytes(ticket.value)), false, o, prior);
    }

    method SendVerifyPassword(lib: Library, o: Oracle, prior: NameBuffer) returns (status: Status)
      modifies this`expertBlob, this`encryptedPassStub, this`wire
      ensures Follows(ClientSpec.SendVerifyPassword(old(St()), lib, o), old(wire), status)
    {
      assert wire == wire + WireAll([]);
      status := GenerateExpertBlob(lib, o);
      if !status.Ok? {
        return;
      }
      if !o.blobConverts {
        return Ok;
      }
      status := Transmit(Message(CTL_VERIFY_PASSWORD, WideBytes(WireText(lib, expertBlob.value))), true, o, prior);
    }

    method SendExpertOnVista(lib: Library, o: Oracle, prior: NameBuffer) returns (status: Status)
      modifies this`expertBlob, this`encryptedPassStub, this`wire
      ensures Follows(ClientSpec.SendExpertOnVista(old(St()), lib, o), old(wire), status)
    {
      assert wire == wire + WireAll([]);
      status := GenerateExpertBlob(lib, o);
      if !status.Ok? {
        return;
      }
      var stub := if encryptedPassStub.Some? then encryptedPassStub.value else [];
      if |stub| > U32_MAX {
        return InternalError;
      }
      status := Transmit(Message(CTL_EXPERT_ON_VISTA, stub), false, o, prior);
    }

    // ---------- receiving ----------

    /** The sends a VERSIONINFO sets off, in order, up to the first error. */
    method SendBurst(lib: Library, a: Answers) returns (status: Status)
      modifies this`expertBlob, this`encryptedPassStub, this`wire
      ensures Follows(ClientSpec.Burst(old(St()), lib, a), old(wire), status)
    {
      hide ClientSpec.Transmit, ClientSpec.SendAuthenticate, ClientSpec.SendRemoteControlDesktop;
      hide ClientSpec.SendExpertOnVista, ClientSpec.SendVerifyPassword, WireAll;
      ghost var st, w := St(), wire;
      WireAllConcat([], []);
      assert w + [] == w;
      if version == 1 {
        status := Transmit(VERSION_INFO, false, a.a, a.prior);
        ghost var one := ClientSpec.SendVersionInfo(st, a.a);
        if !status.Ok? {
          return;
        }
        status := SendAuthenticate(lib, a.b, a.prior);
        ghost var two := ClientSpec.SendAuthenticate(one.st, lib, a.b);
        WireTwice(w, one.messages, two.messages);
        if !status.Ok? {
          return;
        }
        status := SendRemoteControlDesktop(lib, a.c, a.prior);
        ghost var three := ClientSpec.SendRemoteControlDesktop(two.st, lib, a.c);
        WireTwice(w + WireAll(one.messages), two.messages, three.messages);
        WireTwice(w, one.messages, two.messages + three.messages);
      } else if version == 2 {
        status := SendExpertOnVista(lib, a.a, a.prior);
        ghost var one := ClientSpec.SendExpertOnVista(st, lib, a.a);
        if !status.Ok? {
          return;
        }
        status := SendVerifyPassword(lib, a.b, a.prior);
        WireTwice(w, one.messages, ClientSpec.SendVerifyPassword(one.st, lib, a.b).messages);
      } else {
        status := Ok;
      }
    }

    method RecvCtlPdu(s: WStream, lib: Library, a: Answers) returns (status: Status)
      requires s.Valid()
      modifies this`version, this`expertBlob, this`encryptedPassStub, this`wire, s`position
      ensures s.Valid()
      ensures Follows(ClientSpec.RecvCtl(old(St()), lib, old(s.Remaining()), a), old(wire), status)
    {
      assert wire == wire + WireAll([]);
      if s.length < s.position + 4 {
        return InvalidData;
      }
      var msgType := s.ReadU32();
      if msgType == CTL_RESULT {
        if s.length < s.position + 4 {
          return InvalidData;
        }
        var result := s.ReadU32();
        return if result == lib.helpeeSaidNo then ConnectionRefused else Ok;
      } else if msgType == CTL_VERSIONINFO {
        if s.length < s.position + 8 {
          return InvalidData;
        }
        var major := s.ReadU32();
        version := s.ReadU32();
        status := SendBurst(lib, a);
      } else if IgnoredByClient(msgType) {
        return Ok;
      } else {
        return InvalidData;
      }
    }

    method ProcessReceive(s: WStream, lib: Library, a: Answers) returns (status: Status)
      requires s.Valid()
      modifies this`version, this`expertBlob, this`encryptedPassStub, this`wire, s`position
      ensures s.Valid()
      ensures Follows(ClientSpec.Process(old(St()), lib, old(s.Remaining()), a), old(wire), status)
    {
      ghost var b, start := s.Remaining(), s.position;
      assert wire == wire + WireAll([]);
      var header;
      status, header := ReadChannelHeader(s, a.prior, lib.narrow);
      if !status.Ok? {
        return;
      }
      assert s.Remaining() == b[s.position - start..];
      if CString(header.name) == CTL_NAME {
        status := RecvCtlPdu(s, lib, a);
      }
    }

    // ---------- the worker ----------

    /** Takes the head of the queue, processes it and frees it. */
    method ProcessNext(lib: Library, a: Answers) returns (status: Status)
      requires Valid() && queue != []
      modifies this`queue, this`version, this`expertBlob, this`encryptedPassStub, this`wire
      modifies queue[0]
      ensures Valid() && queue == old(queue)[1..] && Queued() == old(Queued())[1..]
      ensures Follows(ClientSpec.Process(old(St()), lib, old(Queued())[0], a), old(wire), status)
      ensures !old(queue)[0].live
    {
      var s := queue[0];
      assert s.Remaining() == s.buffer[..] == Queued()[0];
      queue := queue[1..];
      assert Queued() == old(Queued())[1..];
      status := ProcessReceive(s, lib, a);
      s.Free();
    }

    /** The worker when the producer has posted its quit behind the queue: messages
        are processed in order and freed, up to the first error. fails is the turn,
        if any, whose wait or look at the queue fails. */
    method ClientThread(lib: Library, answers: seq<Answers>, fails: Option<nat>) returns (status: Status)
      requires Valid() && |answers| >= |queue|
      modifies this`queue, this`version, this`expertBlob, this`encryptedPassStub, this`wire, queue
      ensures var broken := fails.Some? && fails.value <= |old(queue)|;
              var t := Work(old(St()), lib, old(Queued())[..if broken then fails.value else |old(queue)|], answers);
              && status == (if t.status.Ok? && broken then InternalError else t.status) && St() == t.st
              && wire == old(wire) + WireAll(Reassembly.Flatten(t.bursts))
              && queue == old(queue)[|t.bursts|..]
              && forall i :: 0 <= i < |t.bursts| ==> !old(queue)[i].live
    {
      hide ClientSpec.Process, Work, WireAll, Reassembly.Flatten, Valid, Queued;
      ghost var all, waiting := queue, Queued();
      ghost var m := if fails.Some? && fails.value <= |queue| then fails.value else |queue|;
      ghost var contents := waiting[..m];
      ghost var whole := Work(St(), lib, contents, answers);
      ghost var total := wire + WireAll(Reassembly.Flatten(whole.bursts));
      var n := 0;
      status := Ok;
      assert contents[0..] == contents && answers[0..] == answers && all[0..] == all && waiting[0..] == waiting;
      while true
        invariant n <= m <= |all| && queue == all[n..] && status == Ok
        invariant Valid() && Queued() == waiting[n..]
        invariant var w := Work(St(), lib, contents[n..], answers[n..]);
                  && whole.st == w.st && whole.status == w.status && |whole.bursts| == n + |w.bursts|
                  && total == wire + WireAll(Reassembly.Flatten(w.bursts))
        invariant forall i :: 0 <= i < n ==> !all[i].live
        decreases |queue|
      {
        if fails == Some(n) {
          WorkNothing(St(), lib, contents[n..], answers[n..]);
          status := InternalError;
          break;
        }
        if queue == [] {
          WorkNothing(St(), lib, contents[n..], answers[n..]);
          break;
        }
        WorkAt(St(), lib, contents, answers, n, wire, total);
        assert waiting[n..][0] == contents[n] && waiting[n..][1..] == waiting[n + 1..];
        status := ProcessNext(lib, answers[n]);
        assert all[n..][1..] == all[n + 1..];
        n := n + 1;
        if !status.Ok? {
          break;
        }
      }
    }
  }

  lemma WireTwice(before: seq<seq<byte>>, a: seq<Message>, b: seq<Message>)
    ensures before + WireAll(a) + WireAll(b) == before + WireAll(a + b)
  {
    WireAllConcat(a, b);
  }

  lemma WorkNothing(st: State, lib: Library, queue: seq<seq<byte>>, answers: seq<Answers>)
    requires queue == []
    ensures var w := Work(st, lib, queue, answers);
            w.st == st && w.status == Ok && w.bursts == [] && WireAll(Reassembly.Flatten(w.bursts)) == []
  {
  }

  /** One message processed, as seen in the work over the whole queue. */
  lemma WorkStep(st: State, lib: Library, queue: seq<seq<byte>>, answers: seq<Answers>)
    requires queue != [] && |answers| >= |queue|
    ensures var r := ClientSpec.Process(st, lib, queue[0], answers[0]);
            var w := Work(st, lib, queue, answers);
            if !r.status.Ok? then
              w.st == r.st && w.status == r.status && |w.bursts| == 1
              && WireAll(Reassembly.Flatten(w.bursts)) == WireAll(r.messages)
            else
              var later := Work(r.st, lib, queue[1..], answers[1..]);
              && w.st == later.st && w.status == later.status && |w.bursts| == 1 + |later.bursts|
              && WireAll(Reassembly.Flatten(w.bursts))
                 == WireAll(r.messages) + WireAll(Reassembly.Flatten(later.bursts))
  {
    var r := ClientSpec.Process(st, lib, queue[0], answers[0]);
    if r.status.Ok? {
      var later := Work(r.st, lib, queue[1..], answers[1..]);
      assert ([r.messages] + later.bursts)[1..] == later.bursts;
      WireAllConcat(r.messages, Reassembly.Flatten(later.bursts));
    } else {
      assert [r.messages][1..] == [] && r.messages + [] == r.messages;
    }
  }

  /** The same at position n of the queue, with what is on the wire before it. */
  lemma WorkAt(st: State, lib: Library, queue: seq<seq<byte>>, answers: seq<Answers>, n: nat,
               before: seq<seq<byte>>, total: seq<seq<byte>>)
    requires n < |queue| <= |answers|
    requires total == before + WireAll(Reassembly.Flatten(Work(st, lib, queue[n..], answers[n..]).bursts))
    ensures var r := ClientSpec.Process(st, lib, queue[n], answers[n]);
            var w := Work(st, lib, queue[n..], answers[n..]);
            var now := before + WireAll(r.messages);
            if !r.status.Ok? then w.st == r.st && w.status == r.status && |w.bursts| == 1 && total == now
            else
              var later := Work(r.st, lib, queue[n + 1..], answers[n + 1..]);
              && w.st == later.st && w.status == later.status && |w.bursts| == 1 + |later.bursts|
              && total == now + WireAll(Reassembly.Flatten(later.bursts))
  {
    hide ClientSpec.Process;
    WorkStep(st, lib, queue[n..], answers[n..]);
    assert queue[n..][0] == queue[n] && queue[n..][1..] == queue[n + 1..];
    assert answers[n..][0] == answers[n] && answers[n..][1..] == answers[n + 1..];
  }
}
