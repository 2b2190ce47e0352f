/** The client over whole runs of the program: channel events, the worker and
    the completion of writes interleave in any order. Who owns each stream at
    each moment, and in which order messages are processed. */
module Lifecycle {
  import opened Wire
  import Reassembly

  /** A stream is named by its allocation. */
  datatype Stream = Stream(id: nat, bytes: seq<byte>)
  datatype Open = Open(id: nat, part: Reassembly.Partial)
  datatype Item = Data(s: Stream) | Quit
  /** Gone is a worker whose wait for the queue, or whose look at it, failed. */
  datatype Worker = Waiting | Processing(s: Stream) | Exited(status: Status) | Gone
  datatype Phase = Disconnected | Connected | Quitting

  /** The fields of the plugin that hold streams, the worker, the completions the
      channel owes, and for the record what was freed, what no one holds any
      more, the ids of received messages, and the order of posts and processing
      in the current session. A session is troubled by a failed post, message or
      wait and by a message that comes behind the quit. */
  datatype State = State(
    next: nat,
    dataIn: Option<Open>,
    queue: seq<Item>,
    worker: Worker,
    sender: Option<nat>,
    pending: multiset<nat>,
    phase: Phase,
    freed: multiset<nat>,
    lost: multiset<nat>,
    inbound: set<nat>,
    posted: seq<seq<byte>>,
    processed: seq<seq<byte>>,
    statuses: seq<Status>,
    beforeQuit: nat,
    troubled: bool,
    everTroubled: bool)

  const INIT :=
    State(0, None, [], Exited(Ok), None, multiset{}, Disconnected, multiset{}, multiset{}, {}, [], [], [], 0,
          false, false)

  /** One atomic step of some thread. A write completes or is cancelled by the
      same event; Cleanup is the disconnect handler after its wait. A connect that
      gets no queue or no thread leaves everything as it was. */
  datatype Step =
    | Connect
    | ConnectFails
    | DataEvent(e: Reassembly.Event)
    | Take
    | WaitFails
    | Build
    | WriteAccepted
    | WriteRefused
    | Finish(status: Status)
    | WriteDone(id: nat)
    | PostQuit
    | Cleanup

  /** The worker thread has ended. */
  predicate Left(w: Worker) {
    w.Exited? || w.Gone?
  }

  function PartOf(o: Option<Open>): Option<Reassembly.Partial> {
    if o.None? then None else Some(o.value.part)
  }

  predicate Enabled(s: State, step: Step) {
    match step
    case Connect => s.phase == Disconnected
    case ConnectFails => s.phase == Disconnected
    case DataEvent(e) => s.phase != Disconnected && Reassembly.Accepts(PartOf(s.dataIn), e.chunk)
    case Take => s.worker.Waiting? && s.queue != []
    case WaitFails => s.worker.Waiting?
    case Build => s.worker.Processing? && s.sender == None
    case WriteAccepted => s.worker.Processing? && s.sender.Some?
    case WriteRefused => s.worker.Processing? && s.sender.Some?
    case Finish(_) => s.worker.Processing? && s.sender == None
    case WriteDone(id) => id in s.pending
    case PostQuit => s.phase == Connected
    case Cleanup => s.phase == Quitting && Left(s.worker)
  }

  function Ids(o: Option<Open>): multiset<nat> {
    if o.None? then multiset{} else multiset{o.value.id}
  }

  function QueueIds(q: seq<Item>): multiset<nat> {
    if q == [] then multiset{}
    else (if q[0].Data? then multiset{q[0].s.id} else multiset{}) + QueueIds(q[1..])
  }

  /** FIRST frees the open stream and allocates one, when there is memory and
      something to allocate. */
  function Opened(s: State, e: Reassembly.Event): State {
    if e.chunk.Ignored() || !e.chunk.first then s
    else if e.answers.memory && e.chunk.total > 0 then
      s.(next := s.next + 1, inbound := s.inbound + {s.next}, freed := s.freed + Ids(s.dataIn),
         dataIn := Some(Open(s.next, Reassembly.Partial(e.chunk.total, []))))
    else s.(freed := s.freed + Ids(s.dataIn), dataIn := None)
  }

  /** A full message goes to the queue, or is dropped by a failed post. */
  function Receive(s: State, e: Reassembly.Event): State
    requires Enabled(s, DataEvent(e))
  {
    var r := Reassembly.DataReceived(PartOf(s.dataIn), e);
    var o := Opened(s, e);
    var id := if o.dataIn.None? then 0 else o.dataIn.value.id;
    if r.completed.None? then o.(dataIn := if r.dataIn.None? then None else Some(Open(id, r.dataIn.value)))
    else if !r.posted then o.(dataIn := None, lost := s.lost + multiset{id}, troubled := true)
    else o.(
      dataIn := None,
      queue := s.queue + [Data(Stream(id, r.completed.value))],
      posted := s.posted + [r.completed.value],
      troubled := s.troubled || s.phase == Quitting)
  }

  function Next(s: State, step: Step): State
    requires Enabled(s, step)
  {
    match step
    case Connect =>
      s.(queue := [], worker := Waiting, phase := Connected, posted := [], processed := [], statuses := [],
         beforeQuit := 0, troubled := false, everTroubled := s.everTroubled || s.troubled)
    case ConnectFails => s
    case DataEvent(e) => Receive(s, e)
    case Take =>
      var head := s.queue[0];
      s.(queue := s.queue[1..], worker := if head.Quit? then Exited(Ok) else Processing(head.s))
    case WaitFails => s.(worker := Gone, troubled := true)
    case Build => s.(next := s.next + 1, sender := Some(s.next))
    case WriteAccepted => s.(sender := None, pending := s.pending + multiset{s.sender.value})
    case WriteRefused => s.(sender := None, freed := s.freed + multiset{s.sender.value})
    case Finish(status) =>
      s.(worker := if status.Ok? then Waiting else Exited(status),
         freed := s.freed + multiset{s.worker.s.id},
         processed := s.processed + [s.worker.s.bytes], statuses := s.statuses + [status],
         troubled := s.troubled || !status.Ok?)
    case WriteDone(id) => s.(pending := s.pending - multiset{id}, freed := s.freed + multiset{id})
    case PostQuit => s.(queue := s.queue + [Quit], phase := Quitting, beforeQuit := |s.posted|)
    case Cleanup =>
      s.(queue := [], dataIn := None, phase := Disconnected,
         freed := s.freed + Ids(s.dataIn), lost := s.lost + QueueIds(s.queue))
  }

  /** The state after a run of steps, none if one of them cannot be taken. */
  function Run(steps: seq<Step>): Option<State>
    decreases |steps|
  {
    if steps == [] then Some(INIT)
    else
      var n := |steps| - 1;
      match Run(steps[..n])
      case None => None
      case Some(s) => if Enabled(s, steps[n]) then Some(Next(s, steps[n])) else None
  }

  // ---------- ownership ----------

  function Count(b: bool): nat {
    if b then 1 else 0
  }

  function QueueCount(q: seq<Item>, id: nat): nat {
    if q == [] then 0 else Count(q[0].Data? && q[0].s.id == id) + QueueCount(q[1..], id)
  }

  /** How often an id is held where received messages are held. */
  function Inside(s: State, id: nat): nat {
    Count(s.dataIn.Some? && s.dataIn.value.id == id) + QueueCount(s.queue, id)
    + Count(s.worker.Processing? && s.worker.s.id == id)
  }

  /** How often an id is held where messages to send are held. */
  function Outside(s: State, id: nat): nat {
    Count(s.sender == Some(id)) + s.pending[id]
  }

  /** An allocated id is in exactly one place: held once on one side, freed once
      or lost once; an id not yet allocated is nowhere. */
  predicate OwnedOnce(s: State, id: nat) {
    && Inside(s, id) + Outside(s, id) + s.freed[id] + s.lost[id] == Count(id < s.next)
    && (Inside(s, id) + s.lost[id] > 0 ==> id in s.inbound)
    && (Outside(s, id) > 0 ==> id !in s.inbound)
    && (id in s.inbound ==> id < s.next)
  }

  /** The receiving side holds nothing and no one is at work. */
  predicate Idle(s: State) {
    s.dataIn == None && s.queue == [] && Left(s.worker) && s.sender == None
  }

  lemma {:induction false} QueueCountConcat(q: seq<Item>, r: seq<Item>, id: nat)
    ensures QueueCount(q + r, id) == QueueCount(q, id) + QueueCount(r, id)
  {
    if q == [] {
      assert q + r == r;
    } else {
      assert (q + r)[1..] == q[1..] + r;
      QueueCountConcat(q[1..], r, id);
    }
  }

  /** Which of the open message and a completed one a chunk leaves. */
  lemma ReceivedShape(dataIn: Option<Reassembly.Partial>, e: Reassembly.Event)
    requires Reassembly.Accepts(dataIn, e.chunk)
    ensures var r := Reassembly.DataReceived(dataIn, e);
            && (r.posted ==> r.completed.Some?)
            && (if e.chunk.Ignored() then r.dataIn == dataIn && r.completed == None
                else if e.chunk.first && !(e.answers.memory && e.chunk.total > 0) then
                  r.dataIn == None && r.completed == None
                else r.dataIn.Some? <==> r.completed.None?)
  {
  }

  lemma OpenedOwned(s: State, e: Reassembly.Event, id: nat)
    requires OwnedOnce(s, id)
    ensures OwnedOnce(Opened(s, e), id) && s.freed <= Opened(s, e).freed && s.lost == Opened(s, e).lost
  {
  }

  /** A chunk appended to the open stream, or a full stream handed on or lost. */
  lemma HandedOver(o: State, part: Reassembly.Partial, bytes: seq<byte>, troubled: bool, id: nat)
    requires OwnedOnce(o, id) && o.dataIn.Some?
    ensures var at := o.dataIn.value.id;
            && OwnedOnce(o.(dataIn := Some(Open(at, part))), id)
            && OwnedOnce(o.(dataIn := None, lost := o.lost + multiset{at}, troubled := true), id)
            && OwnedOnce(o.(dataIn := None, queue := o.queue + [Data(Stream(at, bytes))],
                            posted := o.posted + [bytes], troubled := troubled), id)
  {
    QueueCountSnoc(o.queue, Stream(o.dataIn.value.id, bytes), id);
  }

  lemma ReceiveOwned(s: State, e: Reassembly.Event, id: nat)
    requires OwnedOnce(s, id) && Enabled(s, DataEvent(e))
    ensures OwnedOnce(Receive(s, e), id)
    ensures s.freed <= Receive(s, e).freed && s.lost <= Receive(s, e).lost
  {
    OpenedOwned(s, e, id);
    OpenedShape(s, e);
    hide Reassembly.DataReceived, Opened, OwnedOnce, Enabled;
    var r, o := Reassembly.DataReceived(PartOf(s.dataIn), e), Opened(s, e);
    if o.dataIn.Some? {
      var part := if r.dataIn.Some? then r.dataIn.value else o.dataIn.value.part;
      var bytes := if r.completed.Some? then r.completed.value else [];
      HandedOver(o, part, bytes, s.troubled || s.phase == Quitting, id);
    } else {
      assert Receive(s, e) == o;
    }
  }

  /** A chunk that leaves or completes a message had one open. */
  lemma OpenedShape(s: State, e: Reassembly.Event)
    requires Enabled(s, DataEvent(e))
    ensures var r, o := Reassembly.DataReceived(PartOf(s.dataIn), e), Opened(s, e);
            && o.worker == s.worker && o.processed == s.processed
            && o.queue == s.queue && o.posted == s.posted && o.troubled == s.troubled && o.lost == s.lost
            && (r.posted ==> r.completed.Some?)
            && (r.completed.Some? ==> r.dataIn == None)
            && (o.dataIn.Some? <==> r.dataIn.Some? || r.completed.Some?)
  {
  }

  lemma QueueCountSnoc(q: seq<Item>, s: Stream, id: nat)
    ensures QueueCount(q + [Data(s)], id) == QueueCount(q, id) + Count(s.id == id)
  {
    QueueCountConcat(q, [Data(s)], id);
    assert QueueCount([Data(s)], id) == Count(s.id == id);
  }

  /** What a disconnect with messages still queued takes out of anyone's hands. */
  lemma {:induction false} QueueIdsCount(q: seq<Item>, id: nat)
    ensures QueueIds(q)[id] == QueueCount(q, id)
  {
    if q != [] {
      QueueIdsCount(q[1..], id);
    }
  }

  lemma SendingOwned(s: State, step: Step, id: nat)
    requires OwnedOnce(s, id) && Enabled(s, step)
    requires step.Build? || step.WriteAccepted? || step.WriteRefused? || step.WriteDone?
    ensures OwnedOnce(Next(s, step), id)
    ensures s.freed <= Next(s, step).freed && s.lost <= Next(s, step).lost
  {
  }

  lemma WorkerOwned(s: State, step: Step, id: nat)
    requires OwnedOnce(s, id) && Enabled(s, step)
    requires step.Take? || step.WaitFails? || step.Finish?
    ensures OwnedOnce(Next(s, step), id)
    ensures s.freed <= Next(s, step).freed && s.lost <= Next(s, step).lost
  {
  }

  lemma SessionOwned(s: State, step: Step, id: nat)
    requires OwnedOnce(s, id) && Enabled(s, step) && (s.phase == Disconnected ==> Idle(s))
    requires step.Connect? || step.ConnectFails? || step.PostQuit? || step.Cleanup?
    ensures OwnedOnce(Next(s, step), id)
    ensures s.freed <= Next(s, step).freed && s.lost <= Next(s, step).lost
  {
    QueueIdsCount(s.queue, id);
    QueueCountConcat(s.queue, [Quit], id);
    assert QueueCount([Quit], id) == 0;
  }

  lemma NextOwned(s: State, step: Step, id: nat)
    requires OwnedOnce(s, id) && Enabled(s, step) && (s.phase == Disconnected ==> Idle(s))
    ensures OwnedOnce(Next(s, step), id)
    ensures s.freed <= Next(s, step).freed && s.lost <= Next(s, step).lost
  {
    match step
    case DataEvent(e) =>
      ReceiveOwned(s, e, id);
    case Take | WaitFails | Finish(_) => WorkerOwned(s, step, id);
    case Connect | ConnectFails | PostQuit | Cleanup => SessionOwned(s, step, id);
    case _ => SendingOwned(s, step, id);
  }

  // ---------- order of processing ----------

  /** The messages in a queue. */
  function Bytes(q: seq<Item>): seq<seq<byte>> {
    if q == [] then [] else if q[0].Data? then [q[0].s.bytes] + Bytes(q[1..]) else Bytes(q[1..])
  }

  /** The position of the first quit, or the length of the queue. */
  function QuitIndex(q: seq<Item>): (k: nat)
    ensures k <= |q|
  {
    if q == [] || q[0].Quit? then 0 else 1 + QuitIndex(q[1..])
  }

  lemma {:induction false} QueueSnoc(q: seq<Item>, item: Item)
    ensures Bytes(q + [item]) == Bytes(q) + if item.Data? then [item.s.bytes] else []
    ensures QuitIndex(q + [item]) ==
              if QuitIndex(q) < |q| then QuitIndex(q) else if item.Quit? then |q| else |q| + 1
    ensures QuitIndex(q) == |q| ==> |Bytes(q)| == |q|
  {
    if q == [] {
      assert [] + [item] == [item] && [item][1..] == [];
    } else {
      assert (q + [item])[1..] == q[1..] + [item];
      QueueSnoc(q[1..], item);
    }
  }

  function Held(w: Worker): seq<seq<byte>> {
    if w.Processing? then [w.s.bytes] else []
  }

  predicate Failed(w: Worker) {
    w.Exited? && !w.status.Ok?
  }

  /** Every message but the last one processed was processed without error, and
      the last one failed exactly when the worker exited with its error. */
  ghost predicate StatusesInOrder(statuses: seq<Status>, worker: Worker) {
    && (forall i :: 0 <= i < |statuses| - 1 ==> statuses[i] == Ok)
    && (Failed(worker) ==> statuses != [] && statuses[|statuses| - 1] == worker.status)
    && (!Failed(worker) && statuses != [] ==> statuses[|statuses| - 1] == Ok)
  }

  /** Where the quit is, and what it has in front of it; done counts the messages
      processed. */
  ghost predicate QuitInPlace(phase: Phase, queue: seq<Item>, worker: Worker, done: nat, beforeQuit: nat,
                              troubled: bool)
  {
    match phase
    case Connected => QuitIndex(queue) == |queue| && worker != Exited(Ok)
    case Quitting =>
      if worker == Exited(Ok) then done == beforeQuit && (!troubled ==> queue == [])
      else
        && QuitIndex(queue) < |queue|
        && done + |Held(worker)| + QuitIndex(queue) == beforeQuit
        && (!troubled ==> QuitIndex(queue) == |queue| - 1)
    case Disconnected => worker == Exited(Ok) ==> done == beforeQuit
  }

  ghost predicate InOrder(s: State) {
    && (s.phase == Disconnected ==> Idle(s) && s.processed <= s.posted && (!s.troubled ==> s.processed == s.posted))
    && (s.phase != Disconnected ==> s.posted == s.processed + Held(s.worker) + Bytes(s.queue))
    && (s.sender.Some? ==> s.worker.Processing?)
    && |s.statuses| == |s.processed| && StatusesInOrder(s.statuses, s.worker)
    && QuitInPlace(s.phase, s.queue, s.worker, |s.processed|, s.beforeQuit, s.troubled)
    && (Failed(s.worker) || s.worker.Gone? ==> s.troubled)
    && (!s.troubled && !s.everTroubled ==> s.lost == multiset{})
  }

  lemma OpenedInOrder(s: State, e: Reassembly.Event)
    requires InOrder(s) && s.phase != Disconnected
    ensures InOrder(Opened(s, e)) && Opened(s, e).phase == s.phase
  {
    hide QuitInPlace, StatusesInOrder, Bytes;
  }

  lemma KeptOrLostInOrder(o: State, dataIn: Option<Open>, id: nat)
    requires InOrder(o) && o.phase != Disconnected
    ensures InOrder(o.(dataIn := dataIn))
    ensures InOrder(o.(dataIn := None, lost := o.lost + multiset{id}, troubled := true))
  {
    hide QuitIndex, Bytes;
  }

  lemma PostedInOrder(o: State, s: Stream)
    requires InOrder(o) && o.phase != Disconnected
    ensures InOrder(o.(dataIn := None, queue := o.queue + [Data(s)], posted := o.posted + [s.bytes],
                       troubled := o.troubled || o.phase == Quitting))
  {
    hide QuitIndex, Bytes;
    QueueSnoc(o.queue, Data(s));
    assert o.processed + Held(o.worker) + Bytes(o.queue) + [s.bytes]
        == o.processed + Held(o.worker) + (Bytes(o.queue) + [s.bytes]);
  }

  lemma ReceiveInOrder(s: State, e: Reassembly.Event)
    requires InOrder(s) && Enabled(s, DataEvent(e))
    ensures InOrder(Receive(s, e)) && (Receive(s, e).lost == s.lost || Receive(s, e).troubled)
  {
    OpenedInOrder(s, e);
    OpenedShape(s, e);
    hide Reassembly.DataReceived, Opened, InOrder;
    var r, o := Reassembly.DataReceived(PartOf(s.dataIn), e), Opened(s, e);
    var id := if o.dataIn.None? then 0 else o.dataIn.value.id;
    KeptOrLostInOrder(o, Receive(s, e).dataIn, id);
    if r.completed.Some? {
      PostedInOrder(o, Stream(id, r.completed.value));
    }
  }

  lemma TakeInOrder(s: State)
    requires InOrder(s) && Enabled(s, Take)
    ensures InOrder(Next(s, Take))
  {
    var s' := Next(s, Take);
    assert s.processed + [] + Bytes(s.queue) == s.processed + Held(s'.worker) + Bytes(s'.queue);
  }

  lemma FinishInOrder(s: State, status: Status)
    requires InOrder(s) && Enabled(s, Finish(status))
    ensures InOrder(Next(s, Finish(status)))
  {
    hide QuitIndex, Bytes;
    var s' := Next(s, Finish(status));
    assert s.processed + Held(s.worker) == s'.processed;
    assert s'.processed + [] + Bytes(s.queue) == s'.processed + Bytes(s.queue);
  }

  lemma ConnectInOrder(s: State)
    requires InOrder(s) && Enabled(s, Connect)
    ensures InOrder(Next(s, Connect)) && Next(s, Connect).lost == s.lost
  {
  }

  lemma QuitInOrder(s: State)
    requires InOrder(s) && Enabled(s, PostQuit)
    ensures InOrder(Next(s, PostQuit)) && Next(s, PostQuit).lost == s.lost
  {
    hide QuitIndex, Bytes;
    QueueSnoc(s.queue, Quit);
    assert Bytes(s.queue) + [] == Bytes(s.queue);
  }

  lemma CleanupInOrder(s: State)
    requires InOrder(s) && Enabled(s, Cleanup)
    ensures InOrder(Next(s, Cleanup)) && (Next(s, Cleanup).lost == s.lost || s.troubled)
  {
    assert Bytes([]) == [] && QueueIds([]) == multiset{};
    hide QuitIndex, Bytes, QueueIds;
    assert s.posted == s.processed + Bytes(s.queue);
    assert s.lost + multiset{} == s.lost;
  }

  lemma SendingInOrder(s: State, step: Step)
    requires InOrder(s) && Enabled(s, step)
    requires step.Build? || step.WriteAccepted? || step.WriteRefused? || step.WriteDone? || step.ConnectFails?
    ensures InOrder(Next(s, step)) && Next(s, step).lost == s.lost
  {
    hide QuitInPlace, StatusesInOrder, Bytes;
  }

  lemma WaitInOrder(s: State)
    requires InOrder(s) && Enabled(s, WaitFails)
    ensures InOrder(Next(s, WaitFails))
  {
    hide QuitIndex, Bytes;
  }

  /** Every step keeps the order, and a stream is lost only in a troubled session. */
  lemma NextInOrder(s: State, step: Step)
    requires InOrder(s) && Enabled(s, step)
    ensures InOrder(Next(s, step))
    ensures Next(s, step).lost == s.lost || Next(s, step).troubled
  {
    hide InOrder;
    match step
    case DataEvent(e) =>
      hide Receive;
      ReceiveInOrder(s, e);
    case Take => TakeInOrder(s);
    case WaitFails => WaitInOrder(s);
    case Finish(status) => FinishInOrder(s, status);
    case Connect => ConnectInOrder(s);
    case PostQuit => QuitInOrder(s);
    case Cleanup => CleanupInOrder(s);
    case _ => SendingInOrder(s, step);
  }

  // ---------- over whole runs ----------

  lemma {:induction false} RunKeeps(steps: seq<Step>, id: nat)
    requires Run(steps).Some?
    ensures OwnedOnce(Run(steps).value, id) && InOrder(Run(steps).value)
    decreases |steps|
  {
    if steps != [] {
      var n := |steps| - 1;
      RunKeeps(steps[..n], id);
      NextOwned(Run(steps[..n]).value, steps[n], id);
      NextInOrder(Run(steps[..n]).value, steps[n]);
    }
  }

  /** Over every interleaving: a stream allocated is in exactly one place, so it
      is freed at most once and never after being lost; received and sent ones
      keep apart; and once disconnected no received one is still held. */
  lemma LinearOwnership(steps: seq<Step>, id: nat)
    requires Run(steps).Some?
    ensures var s := Run(steps).value;
            && Inside(s, id) + Outside(s, id) + s.freed[id] + s.lost[id] == Count(id < s.next)
            && (id in s.inbound ==> Outside(s, id) == 0)
            && (id < s.next && id !in s.inbound ==> Inside(s, id) == 0 && s.lost[id] == 0)
            && (s.phase == Disconnected && id in s.inbound ==> s.freed[id] + s.lost[id] == 1)
            && (!s.troubled && !s.everTroubled ==> s.lost == multiset{})
  {
    RunKeeps(steps, id);
  }

  /** The streams a step reads, writes, hands over or frees. */
  function Uses(s: State, step: Step): set<nat>
    requires Enabled(s, step)
  {
    match step
    case DataEvent(_) => if s.dataIn.Some? then {s.dataIn.value.id} else {}
    case Take => if s.queue[0].Data? then {s.queue[0].s.id} else {}
    case WriteAccepted => {s.sender.value}
    case WriteRefused => {s.sender.value}
    case Finish(_) => {s.worker.s.id}
    case WriteDone(id) => {id}
    case Cleanup => if s.dataIn.Some? then {s.dataIn.value.id} else {}
    case _ => {}
  }

  lemma NoUseAfterFree(steps: seq<Step>, step: Step, id: nat)
    requires Run(steps).Some? && Enabled(Run(steps).value, step) && id in Uses(Run(steps).value, step)
    ensures id < Run(steps).value.next && Run(steps).value.freed[id] == 0 && Run(steps).value.lost[id] == 0
  {
    RunKeeps(steps, id);
  }

  /** Over every interleaving: what was processed is a prefix of what was posted,
      all without error but the last; after an error nothing more is taken; and
      when the worker left by the quit, everything posted before it was processed. */
  lemma WorkerOrder(steps: seq<Step>)
    requires Run(steps).Some?
    ensures var s := Run(steps).value;
            && s.processed <= s.posted && |s.statuses| == |s.processed|
            && (forall i :: 0 <= i < |s.statuses| && !s.statuses[i].Ok? ==>
                  i == |s.statuses| - 1 && s.worker == Exited(s.statuses[i]) && !Enabled(s, Take))
            && (s.phase != Connected && s.worker == Exited(Ok) ==>
                  s.beforeQuit <= |s.posted| && s.processed == s.posted[..s.beforeQuit])
  {
    RunKeeps(steps, 0);
    OrderMeans(Run(steps).value);
  }

  lemma OrderMeans(s: State)
    requires InOrder(s)
    ensures s.processed <= s.posted
    ensures forall i :: 0 <= i < |s.statuses| && !s.statuses[i].Ok? ==>
              i == |s.statuses| - 1 && s.worker == Exited(s.statuses[i])
    ensures s.phase != Connected && s.worker == Exited(Ok) ==> |s.processed| == s.beforeQuit
  {
    if s.phase != Disconnected {
      assert s.posted == s.processed + (Held(s.worker) + Bytes(s.queue));
    }
  }

  // ---------- from chunks to processing ----------

  /** The data events since the latest Connect. */
  function SessionEvents(steps: seq<Step>): seq<Reassembly.Event> {
    if steps == [] then []
    else
      var n := |steps| - 1;
      match steps[n]
      case Connect => []
      case DataEvent(e) => SessionEvents(steps[..n]) + [e]
      case _ => SessionEvents(steps[..n])
  }

  /** The queue of a session receives what the chunks of that session reassemble to. */
  lemma {:induction false} PostedIsReassembled(steps: seq<Step>)
    requires Run(steps).Some?
    ensures var s := Run(steps).value;
            var r := Reassembly.Run(None, SessionEvents(steps));
            r.Some? && r.value.posted == s.posted && (s.phase != Disconnected ==> r.value.dataIn == PartOf(s.dataIn))
    decreases |steps|
  {
    if steps != [] {
      hide Reassembly.DataReceived, Next, Receive;
      var n := |steps| - 1;
      PostedIsReassembled(steps[..n]);
      RunKeeps(steps[..n], 0);
      if !steps[n].DataEvent? {
        OtherSteps(Run(steps[..n]).value, steps[n]);
      }
      var s, events := Run(steps[..n]).value, SessionEvents(steps[..n]);
      if steps[n].DataEvent? {
        var e := steps[n].e;
        Reassembly.RunConcat(None, events, [e]);
        Reassembly.RunCons(PartOf(s.dataIn), e, []);
        assert [e] + [] == [e];
        var r := Reassembly.DataReceived(PartOf(s.dataIn), e);
        ReceivePosts(s, e);
        assert s.posted + Reassembly.Queued(r, []) == Receive(s, e).posted;
      }
    }
  }

  lemma OtherSteps(s: State, step: Step)
    requires InOrder(s) && Enabled(s, step) && !step.DataEvent?
    ensures var s' := Next(s, step);
            && (step.Connect? ==> s'.posted == [] && s'.dataIn == None)
            && (!step.Connect? ==> s'.posted == s.posted && (s'.phase == Disconnected || s'.dataIn == s.dataIn))
            && (!step.Connect? && s.phase == Disconnected ==> s'.phase == Disconnected)
  {
  }

  lemma ReceivePosts(s: State, e: Reassembly.Event)
    requires Enabled(s, DataEvent(e))
    ensures var r := Reassembly.DataReceived(PartOf(s.dataIn), e);
            && PartOf(Receive(s, e).dataIn) == r.dataIn
            && Receive(s, e).posted == s.posted + Reassembly.Queued(r, [])
            && Next(s, DataEvent(e)) == Receive(s, e) && Receive(s, e).phase == s.phase
  {
    hide Reassembly.DataReceived;
    ReceivedShape(PartOf(s.dataIn), e);
    var r := Reassembly.DataReceived(PartOf(s.dataIn), e);
    assert s.posted + [] == s.posted;
    if r.completed.Some? {
      assert [r.completed.value] + [] == [r.completed.value];
    }
  }

  /** From the wire to the worker, under every interleaving: however the messages
      of a session are cut into chunks, the worker processes them whole, in order
      and from the first; a session that ends without trouble processes them all. */
  lemma EndToEnd(steps: seq<Step>, messages: seq<seq<seq<byte>>>)
    requires Run(steps).Some? && Reassembly.AllFragmented(messages)
    requires Reassembly.Smooth(SessionEvents(steps))
    requires Reassembly.Payload(SessionEvents(steps)) == Reassembly.AllChunks(messages)
    ensures var s := Run(steps).value;
            && s.processed <= s.posted == Reassembly.Messages(messages)
            && (s.phase == Disconnected && !s.troubled ==> s.processed == Reassembly.Messages(messages))
            && (s.phase == Disconnected && s.worker == Exited(Ok) ==>
                  (s.processed == Reassembly.Messages(messages) <==> s.beforeQuit == |messages|))
  {
    WorkerOrder(steps);
    RunKeeps(steps, 0);
    PostedIsReassembled(steps);
    Reassembly.Reassemble(None, messages, SessionEvents(steps));
  }
}
