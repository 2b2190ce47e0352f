/** The rules by which the client turns channel chunks into whole messages, as a
    function of the open message and one chunk, and what they guarantee over any
    sequence of chunks. */
module Reassembly {
  import opened Wire

  /** One DATA_RECEIVED event: the flags that matter, the announced total length
      of the message and the bytes of this chunk. */
  datatype Chunk = Chunk(suspend: bool, resume: bool, first: bool, last: bool, total: u32, data: seq<byte>) {
    predicate Ignored() {
      suspend || resume
    }
  }

  /** What the rest of the system answers while a chunk is handled: whether a new
      stream can be allocated, the capacity offered when the stream must grow,
      and whether the queue takes the message. */
  datatype Answers = Answers(memory: bool, grown: nat, post: bool)

  datatype Event = Event(chunk: Chunk, answers: Answers)

  /** The message being collected: the capacity of its stream, what is written. */
  datatype Partial = Partial(capacity: nat, data: seq<byte>)

  /** The new open message, the message completed by the chunk if any, whether
      the queue took it, and the error code. */
  datatype Received = Received(dataIn: Option<Partial>, completed: Option<seq<byte>>, posted: bool, status: Status)

  /** A chunk that does not open a message needs one open. */
  predicate Accepts(dataIn: Option<Partial>, c: Chunk) {
    c.Ignored() || c.first || dataIn.Some?
  }

  /** The stream the chunk is appended to. An empty allocation yields none. */
  function OpenFor(dataIn: Option<Partial>, c: Chunk, memory: bool): Option<Partial> {
    if !c.first then dataIn else if memory && c.total > 0 then Some(Partial(c.total, [])) else None
  }

  /** One event. A chunk that finds no message open stops the process in the
      stream library. */
  function DataReceived(dataIn: Option<Partial>, e: Event): Received {
    var c := e.chunk;
    if c.Ignored() then Received(dataIn, None, false, Ok)
    else if !Accepts(dataIn, c) then Received(None, None, false, Abort)
    else match OpenFor(dataIn, c, e.answers.memory)
         case None => Received(None, None, false, NoMemory)
         case Some(p) =>
           var need := |p.data| + |c.data|;
           if need > p.capacity && need > e.answers.grown then Received(Some(p), None, false, NoMemory)
           else
             var q := Partial(if need > p.capacity then e.answers.grown else p.capacity, p.data + c.data);
             if !c.last then Received(Some(q), None, false, Ok)
             else if q.capacity != need then Received(Some(q), None, false, InternalError)
             else Received(None, Some(q.data), e.answers.post, if e.answers.post then Ok else InternalError)
  }

  // ---------- runs ----------

  /** What the queue receives: a message completed and taken now, then later ones. */
  function Queued(r: Received, later: seq<seq<byte>>): seq<seq<byte>> {
    if r.completed.Some? && r.posted then [r.completed.value] + later else later
  }

  /** The open message after a run, the messages the queue received in it, and
      whether no event reported an error. */
  datatype Outcome = Outcome(dataIn: Option<Partial>, posted: seq<seq<byte>>, clean: bool)

  /** A run over a sequence of events; none when a chunk arrives that needs an
      open message and finds none. */
  function Run(dataIn: Option<Partial>, events: seq<Event>): Option<Outcome>
    decreases |events|
  {
    if events == [] then Some(Outcome(dataIn, [], true))
    else if !Accepts(dataIn, events[0].chunk) then None
    else
      var r := DataReceived(dataIn, events[0]);
      match Run(r.dataIn, events[1..])
      case None => None
      case Some(o) => Some(Outcome(o.dataIn, Queued(r, o.posted), r.status.Ok? && o.clean))
  }

  lemma RunCons(dataIn: Option<Partial>, e: Event, rest: seq<Event>)
    requires Accepts(dataIn, e.chunk)
    ensures var r := DataReceived(dataIn, e);
            && (Run(r.dataIn, rest).None? ==> Run(dataIn, [e] + rest) == None)
            && (Run(r.dataIn, rest).Some? ==>
                  Run(dataIn, [e] + rest) ==
                  Some(Outcome(Run(r.dataIn, rest).value.dataIn, Queued(r, Run(r.dataIn, rest).value.posted),
                               r.status.Ok? && Run(r.dataIn, rest).value.clean)))
  {
    assert ([e] + rest)[0] == e && ([e] + rest)[1..] == rest;
  }

  function Then(o: Option<Outcome>, b: seq<Event>): Option<Outcome> {
    if o.None? then None
    else
      match Run(o.value.dataIn, b)
      case None => None
      case Some(p) => Some(Outcome(p.dataIn, o.value.posted + p.posted, o.value.clean && p.clean))
  }

  lemma {:induction false} RunConcat(dataIn: Option<Partial>, a: seq<Event>, b: seq<Event>)
    ensures Run(dataIn, a + b) == Then(Run(dataIn, a), b)
    decreases |a|
  {
    if a == [] {
      assert a + b == b;
      var r := Run(dataIn, b);
      assert r.Some? ==> [] + r.value.posted == r.value.posted;
    } else if Accepts(dataIn, a[0].chunk) {
      var r := DataReceived(dataIn, a[0]);
      assert (a + b)[1..] == a[1..] + b;
      RunConcat(r.dataIn, a[1..], b);
      var o := Run(r.dataIn, a[1..]);
      if o.Some? && Run(o.value.dataIn, b).Some? {
        var p := Run(o.value.dataIn, b).value;
        assert Queued(r, o.value.posted + p.posted) == Queued(r, o.value.posted) + p.posted;
      }
    }
  }

  // ---------- fragmentation and its inverse ----------

  function Flatten<T>(pieces: seq<seq<T>>): seq<T> {
    if pieces == [] then [] else pieces[0] + Flatten(pieces[1..])
  }

  /** The chunks that carry the pieces of one message, followed by later ones. */
  function ChunksOf(total: u32, pieces: seq<seq<byte>>, first: bool, later: seq<Chunk>): seq<Chunk> {
    if pieces == [] then later
    else [Chunk(false, false, first, |pieces| == 1, total, pieces[0])] + ChunksOf(total, pieces[1..], false, later)
  }

  /** A message cut in at least one piece, not empty, of announceable length. */
  predicate Fragmented(pieces: seq<seq<byte>>) {
    pieces != [] && 0 < |Flatten(pieces)| <= U32_MAX
  }

  predicate AllFragmented(messages: seq<seq<seq<byte>>>) {
    forall i :: 0 <= i < |messages| ==> Fragmented(messages[i])
  }

  function AllChunks(messages: seq<seq<seq<byte>>>): seq<Chunk>
    requires AllFragmented(messages)
  {
    if messages == [] then []
    else ChunksOf(|Flatten(messages[0])|, messages[0], true, AllChunks(messages[1..]))
  }

  function Messages(messages: seq<seq<seq<byte>>>): seq<seq<byte>> {
    seq(|messages|, i requires 0 <= i < |messages| => Flatten(messages[i]))
  }

  /** The chunks that are not SUSPEND or RESUME notifications. */
  function Payload(events: seq<Event>): seq<Chunk> {
    if events == [] then []
    else if events[0].chunk.Ignored() then Payload(events[1..])
    else [events[0].chunk] + Payload(events[1..])
  }

  /** Allocations succeed and the queue takes every message. */
  predicate Smooth(events: seq<Event>) {
    events == [] || (events[0].answers.memory && events[0].answers.post && Smooth(events[1..]))
  }

  lemma IgnoredChunk(dataIn: Option<Partial>, e: Event, rest: seq<Event>)
    requires e.chunk.Ignored()
    ensures Run(dataIn, [e] + rest) == Run(dataIn, rest)
  {
    RunCons(dataIn, e, rest);
  }

  /** One chunk of a message that is collected as announced. */
  lemma CollectPiece(dataIn: Option<Partial>, done: seq<byte>, first: bool, total: u32, e: Event, rest: seq<Event>)
    requires !e.chunk.Ignored() && e.chunk.first == first && e.chunk.total == total > 0
    requires e.answers.memory && e.answers.post
    requires if first then done == [] else dataIn == Some(Partial(total, done))
    requires |done| + |e.chunk.data| <= total
    ensures var now := done + e.chunk.data;
            && (!e.chunk.last ==> Run(dataIn, [e] + rest) == Run(Some(Partial(total, now)), rest))
            && (e.chunk.last && |now| == total ==> Run(dataIn, [e]) == Some(Outcome(None, [now], true)))
  {
    RunCons(dataIn, e, rest);
    if e.chunk.last {
      RunCons(dataIn, e, []);
      var now := done + e.chunk.data;
      assert [e] + [] == [e] && [now] + [] == [now];
    }
  }

  /** The chunk at hand, and what is left, when events carry the rest of a
      message and then whole messages. */
  lemma NextChunk(pieces: seq<seq<byte>>, first: bool, total: u32, later: seq<Chunk>, events: seq<Event>)
    requires pieces != [] && Payload(events) == ChunksOf(total, pieces, first, later)
    ensures events != []
    ensures if events[0].chunk.Ignored() then Payload(events[1..]) == Payload(events)
            else && events[0].chunk == Chunk(false, false, first, |pieces| == 1, total, pieces[0])
                 && Payload(events[1..]) == ChunksOf(total, pieces[1..], false, later)
  {
    var head := Chunk(false, false, first, |pieces| == 1, total, pieces[0]);
    var tail := ChunksOf(total, pieces[1..], false, later);
    assert |[head] + tail| > 0;
    if !events[0].chunk.Ignored() {
      ConsInjective(events[0].chunk, Payload(events[1..]), head, tail);
    }
  }

  lemma ConsInjective<T>(a: T, x: seq<T>, b: T, y: seq<T>)
    requires [a] + x == [b] + y
    ensures a == b && x == y
  {
    assert ([a] + x)[0] == a && ([b] + y)[0] == b;
    assert ([a] + x)[1..] == x && ([b] + y)[1..] == y;
  }

  /** The events up to the last chunk of a message post that message and leave
      nothing open; n is how many events that takes. */
  lemma {:induction false} CollectMessage(
    dataIn: Option<Partial>, done: seq<byte>, pieces: seq<seq<byte>>, first: bool, total: u32,
    later: seq<Chunk>, events: seq<Event>) returns (n: nat)
    requires Smooth(events) && pieces != [] && total > 0 && |done| + |Flatten(pieces)| == total
    requires if first then done == [] else dataIn == Some(Partial(total, done))
    requires Payload(events) == ChunksOf(total, pieces, first, later)
    ensures 0 < n <= |events| && Payload(events[n..]) == later && Smooth(events[n..])
    ensures Run(dataIn, events[..n]) == Some(Outcome(None, [done + Flatten(pieces)], true))
    decreases |events|
  {
    assert Flatten(pieces) == pieces[0] + Flatten(pieces[1..]) && (|pieces| == 1 ==> Flatten(pieces[1..]) == []);
    hide DataReceived, Run, Payload, ChunksOf, Flatten;
    NextChunk(pieces, first, total, later, events);
    var e, rest := events[0], events[1..];
    var whole := done + Flatten(pieces);
    if e.chunk.Ignored() {
      var k := CollectMessage(dataIn, done, pieces, first, total, later, rest);
      n := k + 1;
      IgnoredChunk(dataIn, e, rest[..k]);
    } else {
      var now := done + pieces[0];
      assert now + Flatten(pieces[1..]) == whole;
      if |pieces| == 1 {
        assert now == whole;
        n := 1;
        CollectPiece(dataIn, done, first, total, e, []);
        assert [e] + rest[..0] == [e];
      } else {
        var k := CollectMessage(Some(Partial(total, now)), now, pieces[1..], false, total, later, rest);
        n := k + 1;
        CollectPiece(dataIn, done, first, total, e, rest[..k]);
      }
    }
    assert events[n..] == rest[n - 1..] && events[..n] == [e] + rest[..n - 1];
  }

  /** Whatever message was left open, however each message is cut, and wherever
      SUSPEND and RESUME fall, the queue receives exactly the messages, and no
      event is an error. */
  lemma {:induction false} Reassemble(dataIn: Option<Partial>, messages: seq<seq<seq<byte>>>, events: seq<Event>)
    requires AllFragmented(messages)
    requires Smooth(events) && Payload(events) == AllChunks(messages)
    ensures var r := Run(dataIn, events);
            r.Some? && r.value.posted == Messages(messages) && r.value.clean
    decreases |events|
  {
    hide DataReceived;
    if messages != [] {
      var m := messages[0];
      assert Fragmented(m);
      var n := CollectMessage(dataIn, [], m, true, |Flatten(m)|, AllChunks(messages[1..]), events);
      Reassemble(None, messages[1..], events[n..]);
      assert events == events[..n] + events[n..];
      RunConcat(dataIn, events[..n], events[n..]);
      assert [] + Flatten(m) == Flatten(m);
      assert Messages(messages) == [Flatten(m)] + Messages(messages[1..]);
    } else if events != [] {
      Reassemble(dataIn, messages, events[1..]);
      IgnoredChunk(dataIn, events[0], events[1..]);
      assert events == [events[0]] + events[1..];
    }
  }

  // ---------- abandoned, truncated and overlong messages ----------

  /** All chunk bytes since the latest FIRST. */
  function SinceFirst(events: seq<Event>): seq<byte> {
    if events == [] then []
    else
      var n := |events| - 1;
      var c := events[n].chunk;
      if c.Ignored() then SinceFirst(events[..n])
      else if c.first then c.data
      else SinceFirst(events[..n]) + c.data
  }

  /** The length the latest FIRST announced. */
  function Announced(events: seq<Event>): nat {
    if events == [] then 0
    else
      var n := |events| - 1;
      var c := events[n].chunk;
      if !c.Ignored() && c.first then c.total else Announced(events[..n])
  }

  /** The event after any prefix of a run meets the open message it needs. */
  lemma PrefixRun(events: seq<Event>, n: nat)
    requires n < |events| && Run(None, events).Some?
    ensures Run(None, events[..n]).Some? && Run(None, events[..n + 1]).Some?
    ensures var open := Run(None, events[..n]).value.dataIn;
            && Accepts(open, events[n].chunk)
            && Run(None, events[..n + 1]).value.dataIn == DataReceived(open, events[n]).dataIn
  {
    var head, e := events[..n], [events[n]];
    assert events == events[..n + 1] + events[n + 1..] && events[..n + 1] == head + e;
    RunConcat(None, events[..n + 1], events[n + 1..]);
    RunConcat(None, head, e);
    var open := Run(None, head).value.dataIn;
    assert Run(open, e).Some?;
    assert e[1..] == [] && Run(open, e).value.dataIn == DataReceived(open, e[0]).dataIn;
  }

  /** What is collected while a message keeps to its announced length. */
  lemma {:induction false} OpenIsSinceFirst(events: seq<Event>)
    requires Run(None, events).Some?
    ensures var open := Run(None, events).value.dataIn;
            open.Some? && |SinceFirst(events)| <= Announced(events) ==>
              open.value == Partial(Announced(events), SinceFirst(events))
    decreases |events|
  {
    if events != [] {
      var n := |events| - 1;
      PrefixRun(events, n);
      OpenIsSinceFirst(events[..n]);
      assert events[..n + 1] == events && [] + events[n].chunk.data == events[n].chunk.data;
    }
  }

  /** At every event of every run: a completed message is all the bytes since the
      latest FIRST and as long as announced, exactly when those bytes are no more
      than announced; a LAST that leaves the message short completes nothing and
      is an error. */
  lemma CompletedMessageIsIntact(events: seq<Event>, n: nat)
    requires n < |events| && Run(None, events).Some?
    ensures Run(None, events[..n]).Some? && Accepts(Run(None, events[..n]).value.dataIn, events[n].chunk)
    ensures var r := DataReceived(Run(None, events[..n]).value.dataIn, events[n]);
            var now := events[..n + 1];
            && (r.completed.Some? ==>
                  ((r.completed.value == SinceFirst(now) && |r.completed.value| == Announced(now))
                   <==> |SinceFirst(now)| <= Announced(now)))
            && (!events[n].chunk.Ignored() && events[n].chunk.last && |SinceFirst(now)| < Announced(now)
                ==> r.completed.None? && !r.status.Ok?)
  {
    PrefixRun(events, n);
    OpenIsSinceFirst(events[..n]);
    assert events[..n + 1][..n] == events[..n] && [] + events[n].chunk.data == events[n].chunk.data;
  }

  /** The open message as a capacity and a number of bytes, from flags, lengths
      and allocator answers alone. */
  datatype Fill = Fill(capacity: nat, used: nat)

  function Level(events: seq<Event>): Option<Fill> {
    if events == [] then None
    else
      var n := |events| - 1;
      var c, a, before := events[n].chunk, events[n].answers, Level(events[..n]);
      var open :=
        if c.Ignored() || !c.first then before
        else if a.memory && c.total > 0 then Some(Fill(c.total, 0)) else None;
      if c.Ignored() || open.None? then open
      else
        var need := open.value.used + |c.data|;
        var capacity := if need <= open.value.capacity then open.value.capacity else a.grown;
        if need > capacity then open
        else if c.last && capacity == need then None
        else Some(Fill(capacity, need))
  }

  /** A run goes through exactly when every chunk that is not a FIRST comes while a
      message is begun, got its stream, and has not been filled and ended. */
  predicate Bracketed(events: seq<Event>) {
    forall n :: 0 <= n < |events| && !events[n].chunk.Ignored() && !events[n].chunk.first ==>
      Level(events[..n]).Some?
  }

  function FillOf(dataIn: Option<Partial>): Option<Fill> {
    if dataIn.None? then None else Some(Fill(dataIn.value.capacity, |dataIn.value.data|))
  }

  lemma {:induction false} RunsExactly(events: seq<Event>)
    ensures Run(None, events).Some? <==> Bracketed(events)
    ensures Run(None, events).Some? ==> FillOf(Run(None, events).value.dataIn) == Level(events)
    decreases |events|
  {
    if events != [] {
      var n := |events| - 1;
      var head, e := events[..n], events[n];
      RunsExactly(head);
      BracketedSnoc(head, e);
      assert events == head + [e] && [e][1..] == [];
      RunConcat(None, head, [e]);
      var before := Run(None, head);
      if before.Some? {
        LevelStep(head, e, before.value.dataIn);
        if Accepts(before.value.dataIn, e.chunk) {
          RunCons(before.value.dataIn, e, []);
          assert [e] + [] == [e];
        } else {
          assert Run(before.value.dataIn, [e]) == None;
        }
      }
    }
  }

  lemma BracketedSnoc(head: seq<Event>, e: Event)
    ensures Bracketed(head + [e]) <==>
              Bracketed(head) && (!e.chunk.Ignored() && !e.chunk.first ==> Level(head).Some?)
  {
    var events, n := head + [e], |head|;
    assert events[n] == e && events[..n] == head;
    assert forall k :: 0 <= k < n ==> head[k] == events[k] && head[..k] == events[..k];
    if Bracketed(events) {
      forall k | 0 <= k < n && !head[k].chunk.Ignored() && !head[k].chunk.first ensures Level(head[..k]).Some? {
        assert events[k] == head[k];
      }
    }
  }

  lemma LevelStep(head: seq<Event>, e: Event, dataIn: Option<Partial>)
    requires Accepts(dataIn, e.chunk) ==> FillOf(dataIn) == Level(head)
    ensures Accepts(dataIn, e.chunk) ==> FillOf(DataReceived(dataIn, e).dataIn) == Level(head + [e])
  {
    assert (head + [e])[..|head|] == head;
  }

  /** A FIRST chunk does the same whatever was open: the partial message is gone. */
  lemma FirstDiscardsPartial(p: Option<Partial>, q: Option<Partial>, e: Event)
    requires e.chunk.first && !e.chunk.Ignored()
    ensures DataReceived(p, e) == DataReceived(q, e)
  {
  }

  /** Growth breaks the promise both ways: an overlong message whose stream grew
      to fit is posted longer than announced, and one whose growth was refused
      loses the chunk and can still be posted at the announced length. */
  lemma OverlongMessages()
    ensures var long := [Event(Chunk(false, false, true, true, 1, [7, 7]), Answers(true, 2, true))];
            Run(None, long) == Some(Outcome(None, [[7, 7]], true))
    ensures var lossy := [Event(Chunk(false, false, true, false, 2, [1]), Answers(true, 0, true)),
                          Event(Chunk(false, false, false, false, 2, [8, 8]), Answers(true, 0, true)),
                          Event(Chunk(false, false, false, true, 2, [2]), Answers(true, 0, true))];
            Run(None, lossy) == Some(Outcome(None, [[1, 2]], false))
  {
    var none: seq<byte> := [];
    assert none + [7, 7] == [7, 7] && none + [1] == [1] && [1] + [2] == [1, 2];
    assert [[7, 7]] + [] == [[7, 7]] && [[1, 2]] + [] == [[1, 2]];
    var long := [Event(Chunk(false, false, true, true, 1, [7, 7]), Answers(true, 2, true))];
    assert Run(None, long[1..]) == Some(Outcome(None, [], true));
    var lossy := [Event(Chunk(false, false, true, false, 2, [1]), Answers(true, 0, true)),
                  Event(Chunk(false, false, false, false, 2, [8, 8]), Answers(true, 0, true)),
                  Event(Chunk(false, false, false, true, 2, [2]), Answers(true, 0, true))];
    var open := Some(Partial(2, [1]));
    assert DataReceived(None, lossy[0]).dataIn == open;
    assert DataReceived(open, lossy[1]).dataIn == open;
    assert DataReceived(open, lossy[2]).completed == Some([1, 2]);
    assert lossy[1..][0] == lossy[1] && lossy[1..][1..] == [lossy[2]] && [lossy[2]][1..] == [];
    assert Run(open, [lossy[2]]) == Some(Outcome(None, [[1, 2]], true));
    assert Run(open, lossy[1..]) == Some(Outcome(None, [[1, 2]], false));
  }
}
