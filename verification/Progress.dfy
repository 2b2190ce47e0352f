/** That the client's threads can go on: which steps continue a run, and that
    every session with a healthy worker can be brought to a clean end. */
module Progress {
  import opened Wire
  import L = Lifecycle
  import R = Reassembly

  /** Which steps continue a run, by what the threads hold. */
  lemma StepsAvailable(steps: seq<L.Step>, step: L.Step)
    requires L.Run(steps).Some?
    ensures var s := L.Run(steps).value;
            L.Run(steps + [step]).Some? <==>
              match step
              case Connect | ConnectFails => s.phase == L.Disconnected
              case DataEvent(e) => s.phase != L.Disconnected && (s.dataIn.Some? || e.chunk.Ignored() || e.chunk.first)
              case Take => s.worker == L.Waiting && |s.queue| >= 1
              case WaitFails => s.worker == L.Waiting
              case Build | Finish(_) => s.worker.Processing? && s.sender.None?
              case WriteAccepted | WriteRefused => s.worker.Processing? && s.sender.Some?
              case WriteDone(id) => s.pending[id] >= 1
              case PostQuit => s.phase == L.Connected
              case Cleanup => s.phase == L.Quitting && !s.worker.Waiting? && !s.worker.Processing?
  {
    Extended(steps, step);
  }

  lemma Extended(steps: seq<L.Step>, step: L.Step)
    requires L.Run(steps).Some?
    ensures var s := L.Run(steps).value;
            L.Run(steps + [step]) == if L.Enabled(s, step) then Some(L.Next(s, step)) else None
  {
    assert (steps + [step])[..|steps|] == steps;
  }

  /** The session a run is in goes on: nothing is received, and neither what was
      posted nor whether there was trouble changes. */
  predicate GoesOn(s: L.State, t: L.State) {
    t.posted == s.posted && t.troubled == s.troubled && t.everTroubled == s.everTroubled
  }

  /** Steps of the worker, of the disconnect handler and of completing writes. */
  predicate NoReceipt(more: seq<L.Step>) {
    forall i :: 0 <= i < |more| ==> !more[i].Connect? && !more[i].DataEvent?
  }

  ghost predicate Reaches(steps: seq<L.Step>, more: seq<L.Step>) {
    && L.Run(steps).Some? && L.Run(steps + more).Some? && NoReceipt(more)
    && GoesOn(L.Run(steps).value, L.Run(steps + more).value)
  }

  lemma ReachesNothing(steps: seq<L.Step>)
    requires L.Run(steps).Some?
    ensures Reaches(steps, []) && steps + [] == steps
  {
    assert steps + [] == steps;
  }

  lemma ReachesThen(steps: seq<L.Step>, a: seq<L.Step>, b: seq<L.Step>)
    requires Reaches(steps, a) && Reaches(steps + a, b)
    ensures Reaches(steps, a + b) && steps + (a + b) == steps + a + b
  {
    hide L.Run;
    assert steps + (a + b) == steps + a + b;
    forall i | 0 <= i < |a + b| ensures !(a + b)[i].Connect? && !(a + b)[i].DataEvent? {
      assert (a + b)[i] == if i < |a| then a[i] else b[i - |a|];
    }
  }

  /** One step of that kind. */
  lemma ReachesBy(steps: seq<L.Step>, step: L.Step)
    requires L.Run(steps).Some? && L.Enabled(L.Run(steps).value, step)
    requires step.Take? || step.WriteAccepted? || step == L.Finish(Ok) || step.WriteDone? || step.PostQuit?
             || step.Cleanup?
    ensures Reaches(steps, [step]) && L.Run(steps + [step]).value == L.Next(L.Run(steps).value, step)
  {
    Extended(steps, step);
  }

  /** The message at hand can be finished. */
  lemma Settle(steps: seq<L.Step>) returns (more: seq<L.Step>)
    requires L.Run(steps).Some? && L.Run(steps).value.worker.Processing?
    ensures Reaches(steps, more)
    ensures var s, t := L.Run(steps).value, L.Run(steps + more).value;
            t.worker == L.Waiting && t.phase == s.phase && t.queue == s.queue
  {
    hide L.Run;
    var s := L.Run(steps).value;
    if s.sender.Some? {
      ReachesBy(steps, L.WriteAccepted);
      ReachesBy(steps + [L.WriteAccepted], L.Finish(Ok));
      more := [L.WriteAccepted] + [L.Finish(Ok)];
      ReachesThen(steps, [L.WriteAccepted], [L.Finish(Ok)]);
    } else {
      more := [L.Finish(Ok)];
      ReachesBy(steps, L.Finish(Ok));
    }
  }

  /** Whatever is queued can be worked off. */
  lemma {:induction false} Drain(steps: seq<L.Step>) returns (more: seq<L.Step>)
    requires L.Run(steps).Some? && L.Run(steps).value.worker == L.Waiting && L.Run(steps).value.phase == L.Connected
    ensures Reaches(steps, more)
    ensures var t := L.Run(steps + more).value;
            t.worker == L.Waiting && t.phase == L.Connected && t.queue == []
    decreases |L.Run(steps).value.queue|
  {
    var s := L.Run(steps).value;
    if s.queue == [] {
      more := [];
      ReachesNothing(steps);
    } else {
      L.RunKeeps(steps, 0);
      hide L.Run;
      HeadIsData(s);
      ReachesBy(steps, L.Take);
      var taken := steps + [L.Take];
      var a := Settle(taken);
      var b := Drain(taken + a);
      ReachesThen(steps, [L.Take], a);
      assert steps + ([L.Take] + a) == taken + a;
      more := [L.Take] + a + b;
      ReachesThen(steps, [L.Take] + a, b);
    }
  }

  lemma HeadIsData(s: L.State)
    requires L.InOrder(s) && s.phase == L.Connected && s.queue != []
    ensures s.queue[0].Data?
  {
  }

  /** With nothing queued the session can be closed. */
  lemma Close(steps: seq<L.Step>) returns (more: seq<L.Step>)
    requires L.Run(steps).Some? && L.Run(steps).value.worker == L.Waiting
    requires L.Run(steps).value.phase == L.Connected && L.Run(steps).value.queue == []
    ensures Reaches(steps, more)
    ensures var t := L.Run(steps + more).value;
            t.phase == L.Disconnected && t.processed == t.posted
  {
    L.RunKeeps(steps, 0);
    var s := L.Run(steps).value;
    assert s.posted == s.processed + L.Held(s.worker) + L.Bytes(s.queue);
    hide L.Run;
    ReachesBy(steps, L.PostQuit);
    ReachesBy(steps + [L.PostQuit], L.Take);
    ReachesThen(steps, [L.PostQuit], [L.Take]);
    var gone := [L.PostQuit] + [L.Take];
    ReachesBy(steps + gone, L.Cleanup);
    ReachesThen(steps, gone, [L.Cleanup]);
    more := gone + [L.Cleanup];
  }

  /** Writes under way can be completed. */
  lemma {:induction false} CompleteWrites(steps: seq<L.Step>) returns (more: seq<L.Step>)
    requires L.Run(steps).Some?
    ensures Reaches(steps, more)
    ensures var s, t := L.Run(steps).value, L.Run(steps + more).value;
            t.pending == multiset{} && t.phase == s.phase && t.processed == s.processed
    decreases |L.Run(steps).value.pending|
  {
    hide L.Run;
    var s := L.Run(steps).value;
    if s.pending == multiset{} {
      more := [];
      ReachesNothing(steps);
    } else {
      var id :| id in s.pending;
      ReachesBy(steps, L.WriteDone(id));
      var rest := CompleteWrites(steps + [L.WriteDone(id)]);
      more := [L.WriteDone(id)] + rest;
      ReachesThen(steps, [L.WriteDone(id)], rest);
    }
  }

  /** From every reachable connected state whose worker has neither failed nor
      gone, the session can go on to its end: everything posted is processed, all
      writes are complete, trouble there is none unless there was, and then not a
      single stream is left unfreed. */
  lemma SessionCompletes(steps: seq<L.Step>) returns (more: seq<L.Step>)
    requires L.Run(steps).Some? && L.Run(steps).value.phase == L.Connected
    requires !L.Run(steps).value.worker.Gone? && !L.Failed(L.Run(steps).value.worker)
    ensures L.Run(steps + more).Some? && NoReceipt(more)
    ensures var s, t := L.Run(steps).value, L.Run(steps + more).value;
            && t.phase == L.Disconnected && t.processed == t.posted == s.posted
            && t.troubled == s.troubled && t.pending == multiset{}
            && (!s.troubled && !s.everTroubled ==> forall id: nat :: t.freed[id] == L.Count(id < t.next))
  {
    L.RunKeeps(steps, 0);
    hide L.Run;
    var a: seq<L.Step> := [];
    if L.Run(steps).value.worker.Processing? {
      a := Settle(steps);
    } else {
      ReachesNothing(steps);
    }
    var b := Drain(steps + a);
    ReachesThen(steps, a, b);
    var c := Close(steps + a + b);
    ReachesThen(steps, a + b, c);
    var d := CompleteWrites(steps + (a + b + c));
    ReachesThen(steps, a + b + c, d);
    more := a + b + c + d;
    NothingHeld(steps + more);
  }

  lemma NothingHeld(steps: seq<L.Step>)
    requires L.Run(steps).Some?
    ensures var t := L.Run(steps).value;
            t.phase == L.Disconnected && t.pending == multiset{} && !t.troubled && !t.everTroubled ==>
              forall id: nat :: t.freed[id] == L.Count(id < t.next)
  {
    var t := L.Run(steps).value;
    L.RunKeeps(steps, 0);
    if t.phase == L.Disconnected && t.pending == multiset{} && !t.troubled && !t.everTroubled {
      forall id: nat ensures t.freed[id] == L.Count(id < t.next) {
        L.LinearOwnership(steps, id);
      }
    }
  }

  // ---------- sessions exist ----------

  function Deliveries(events: seq<R.Event>): seq<L.Step> {
    seq(|events|, i requires 0 <= i < |events| => L.DataEvent(events[i]))
  }

  /** Every sequence of chunks that reassembly goes through with can be received. */
  lemma {:induction false} Received(events: seq<R.Event>)
    requires R.Run(None, events).Some?
    ensures var steps := [L.Connect] + Deliveries(events);
            && L.Run(steps).Some? && L.SessionEvents(steps) == events
            && var s := L.Run(steps).value;
               s.phase == L.Connected && s.worker == L.Waiting && !s.everTroubled && (R.Smooth(events) ==> !s.troubled)
    decreases |events|
  {
    hide L.Next, L.Receive, L.Enabled, R.DataReceived, R.Run;
    var steps := [L.Connect] + Deliveries(events);
    if events == [] {
      assert steps == [L.Connect];
      Connected();
    } else {
      var n := |events| - 1;
      var head, e := [L.Connect] + Deliveries(events[..n]), events[n];
      R.PrefixRun(events, n);
      Received(events[..n]);
      L.PostedIsReassembled(head);
      assert steps == head + [L.DataEvent(e)] && steps[..n + 1] == head;
      Delivered(head, e);
      SmoothPrefix(events, n);
    }
  }

  lemma Connected()
    ensures var steps := [L.Connect];
            && L.Run(steps).Some? && L.SessionEvents(steps) == []
            && var s := L.Run(steps).value;
               s.phase == L.Connected && s.worker == L.Waiting && !s.everTroubled && !s.troubled
  {
    Extended([], L.Connect);
    assert [] + [L.Connect] == [L.Connect];
  }

  lemma Delivered(head: seq<L.Step>, e: R.Event)
    requires L.Run(head).Some? && L.Run(head).value.phase == L.Connected
    requires R.Accepts(L.PartOf(L.Run(head).value.dataIn), e.chunk)
    ensures var steps := head + [L.DataEvent(e)];
            && L.Run(steps).Some? && L.SessionEvents(steps) == L.SessionEvents(head) + [e]
            && var s, t := L.Run(head).value, L.Run(steps).value;
               && t.phase == s.phase && t.worker == s.worker && t.everTroubled == s.everTroubled
               && (!s.troubled && e.answers.post ==> !t.troubled)
  {
    hide L.Next, L.Receive;
    assert (head + [L.DataEvent(e)])[..|head|] == head;
    Extended(head, L.DataEvent(e));
    ReceiveUntroubled(L.Run(head).value, e);
  }

  lemma {:induction false} SmoothPrefix(events: seq<R.Event>, n: nat)
    requires n < |events|
    ensures R.Smooth(events) ==> R.Smooth(events[..n]) && events[n].answers.memory && events[n].answers.post
    decreases n
  {
    if R.Smooth(events) && n > 0 {
      SmoothPrefix(events[1..], n - 1);
      assert events[..n][1..] == events[1..][..n - 1];
    }
  }

  lemma ReceiveUntroubled(s: L.State, e: R.Event)
    requires L.Enabled(s, L.DataEvent(e)) && s.phase == L.Connected
    ensures var t := L.Next(s, L.DataEvent(e));
            && t.phase == s.phase && t.worker == s.worker && t.everTroubled == s.everTroubled
            && (!s.troubled && e.answers.post ==> !t.troubled)
  {
    hide L.Opened;
    L.OpenedShape(s, e);
    OpenedRest(s, e);
  }

  lemma OpenedRest(s: L.State, e: R.Event)
    ensures L.Opened(s, e).phase == s.phase && L.Opened(s, e).everTroubled == s.everTroubled
  {
  }

  lemma {:induction false} SameEvents(steps: seq<L.Step>, more: seq<L.Step>)
    requires NoReceipt(more)
    ensures L.SessionEvents(steps + more) == L.SessionEvents(steps)
    decreases |more|
  {
    if more == [] {
      assert steps + more == steps;
    } else {
      var n := |more| - 1;
      assert (steps + more)[..|steps| + n] == steps + more[..n];
      SameEvents(steps, more[..n]);
    }
  }

  /** For every list of messages, however cut into chunks, there is a session that
      processes exactly them, in order, ends clean and leaves no stream unfreed. */
  lemma SessionExists(messages: seq<seq<seq<byte>>>, events: seq<R.Event>) returns (steps: seq<L.Step>)
    requires R.AllFragmented(messages) && R.Smooth(events) && R.Payload(events) == R.AllChunks(messages)
    ensures L.Run(steps).Some? && L.SessionEvents(steps) == events
    ensures var t := L.Run(steps).value;
            && t.phase == L.Disconnected && !t.troubled && t.processed == R.Messages(messages)
            && forall id: nat :: t.freed[id] == L.Count(id < t.next)
  {
    R.Reassemble(None, messages, events);
    Received(events);
    var start := [L.Connect] + Deliveries(events);
    var more := SessionCompletes(start);
    SameEvents(start, more);
    steps := start + more;
    L.EndToEnd(steps, messages);
  }
}
