/** What the client sends along any interleaving of its threads: Lifecycle says
    which message is processed when, ClientSpec what processing it does. */
module Session {
  import opened Wire
  import opened RemdeskCommon
  import C = ClientSpec
  import L = Lifecycle

  /** The plugin's state, the state the current session began with, and for each
      message processed in it the answers it met and what was sent for it. */
  datatype Client = Client(st: C.State, began: C.State, answers: seq<C.Answers>, bursts: seq<seq<Message>>)

  const NEW_PLUGIN := C.State(2, None, None)

  /** Only a message that is finished with and a new session change the client. */
  function After(lib: C.Library, c: Client, s: L.State, step: L.Step, a: C.Answers): Client {
    if step.Connect? then Client(c.st, c.st, [], [])
    else if step.Finish? && s.worker.Processing? then
      var x := C.Process(c.st, lib, s.worker.s.bytes, a);
      Client(x.st, c.began, c.answers + [a], c.bursts + [x.messages])
    else c
  }

  /** The client after a run; each step has the answers it would meet. */
  function Along(lib: C.Library, steps: seq<L.Step>, answers: seq<C.Answers>): Client
    requires |answers| == |steps|
    decreases |steps|
  {
    if steps == [] then Client(NEW_PLUGIN, NEW_PLUGIN, [], [])
    else
      var n := |steps| - 1;
      var before := Along(lib, steps[..n], answers[..n]);
      match L.Run(steps[..n])
      case None => before
      case Some(s) => After(lib, before, s, steps[n], answers[n])
  }

  /** Every message ends with the error code that processing it yields. */
  predicate Genuine(lib: C.Library, steps: seq<L.Step>, answers: seq<C.Answers>)
    requires |answers| == |steps|
    decreases |steps|
  {
    if steps == [] then true
    else
      var n := |steps| - 1;
      && Genuine(lib, steps[..n], answers[..n])
      && (steps[n].Finish? && L.Run(steps[..n]).Some? && L.Run(steps[..n]).value.worker.Processing? ==>
            steps[n].status ==
            C.Process(Along(lib, steps[..n], answers[..n]).st, lib, L.Run(steps[..n]).value.worker.s.bytes,
                      answers[n]).status)
  }

  /** A genuine run goes on genuinely with any step, and with the end of a message
      when its error code is the one processing yields. */
  lemma GenuineExtends(lib: C.Library, steps: seq<L.Step>, answers: seq<C.Answers>, step: L.Step, a: C.Answers)
    requires |answers| == |steps| && L.Run(steps).Some? && Genuine(lib, steps, answers)
    ensures var s, c := L.Run(steps).value, Along(lib, steps, answers);
            && Genuine(lib, steps + [step], answers + [a]) ==
               (step.Finish? && s.worker.Processing? ==>
                  step.status == C.Process(c.st, lib, s.worker.s.bytes, a).status)
            && Along(lib, steps + [step], answers + [a]) == After(lib, c, s, step, a)
  {
    hide C.Process;
    assert (steps + [step])[..|steps|] == steps && (answers + [a])[..|steps|] == answers;
  }

  /** One more message behind a queue that was worked off without error. */
  lemma {:induction false} WorkSnoc(st: C.State, lib: C.Library, queue: seq<seq<byte>>, answers: seq<C.Answers>,
                                    b: seq<byte>, a: C.Answers)
    requires |answers| == |queue| && C.Work(st, lib, queue, answers).status.Ok?
    ensures var w := C.Work(st, lib, queue, answers);
            var x := C.Process(w.st, lib, b, a);
            C.Work(st, lib, queue + [b], answers + [a]) == C.Trace(x.st, w.bursts + [x.messages], x.status)
    decreases |queue|
  {
    hide C.Process;
    if queue == [] {
      assert [] + [b] == [b] && [] + [a] == [a] && [b][1..] == [] && [a][1..] == [];
      var x := C.Process(st, lib, b, a);
      assert [x.messages] + [] == [x.messages] == [] + [x.messages];
    } else {
      var x := C.Process(st, lib, queue[0], answers[0]);
      assert (queue + [b])[1..] == queue[1..] + [b] && (answers + [a])[1..] == answers[1..] + [a];
      WorkSnoc(x.st, lib, queue[1..], answers[1..], b, a);
      var w := C.Work(x.st, lib, queue[1..], answers[1..]);
      var y := C.Process(w.st, lib, b, a);
      assert [x.messages] + (w.bursts + [y.messages]) == [x.messages] + w.bursts + [y.messages];
    }
  }

  /** The session so far is the work over the messages processed in it. */
  ghost predicate IsWork(lib: C.Library, s: L.State, c: Client) {
    && |c.answers| == |s.processed| == |c.bursts|
    && var w := C.Work(c.began, lib, s.processed, c.answers);
       && c.bursts == w.bursts && c.st == w.st
       && w.status == if L.Failed(s.worker) then s.worker.status else Ok
  }

  lemma FinishIsWork(lib: C.Library, s: L.State, c: Client, status: Status, a: C.Answers)
    requires IsWork(lib, s, c) && L.Enabled(s, L.Finish(status))
    requires status == C.Process(c.st, lib, s.worker.s.bytes, a).status
    ensures IsWork(lib, L.Next(s, L.Finish(status)), After(lib, c, s, L.Finish(status), a))
  {
    hide C.Process;
    WorkSnoc(c.began, lib, s.processed, c.answers, s.worker.s.bytes, a);
  }

  /** The other steps process nothing, and no worker fails in them. */
  lemma OtherSteps(s: L.State, step: L.Step)
    requires L.Enabled(s, step) && !step.Finish? && !step.DataEvent?
    ensures var s' := L.Next(s, step);
            if step.Connect? then s'.processed == [] && !L.Failed(s'.worker)
            else && s'.processed == s.processed && (L.Failed(s'.worker) <==> L.Failed(s.worker))
                 && (L.Failed(s.worker) ==> s'.worker == s.worker)
  {
  }

  lemma StepIsWork(lib: C.Library, s: L.State, c: Client, step: L.Step, a: C.Answers)
    requires IsWork(lib, s, c) && L.Enabled(s, step)
    requires step.Finish? ==> step.status == C.Process(c.st, lib, s.worker.s.bytes, a).status
    ensures IsWork(lib, L.Next(s, step), After(lib, c, s, step, a))
  {
    match step
    case Finish(status) =>
      hide IsWork, L.Next, After;
      FinishIsWork(lib, s, c, status, a);
    case DataEvent(e) =>
      hide C.Process, L.Next, L.Receive;
      ReceiveUnprocessed(s, e);
    case _ =>
      hide C.Process, L.Next, L.Enabled, L.Failed;
      OtherSteps(s, step);
  }

  lemma ReceiveUnprocessed(s: L.State, e: L.Reassembly.Event)
    requires L.Enabled(s, L.DataEvent(e))
    ensures L.Receive(s, e).processed == s.processed && L.Receive(s, e).worker == s.worker
    ensures L.Next(s, L.DataEvent(e)) == L.Receive(s, e)
  {
    L.OpenedShape(s, e);
    hide L.Reassembly.DataReceived, L.Opened;
  }

  /** In every interleaving, what a session sent is what working off the messages
      it processed sends, and it failed exactly if that work does. */
  lemma {:induction false} SentIsWork(lib: C.Library, steps: seq<L.Step>, answers: seq<C.Answers>)
    requires |answers| == |steps| && L.Run(steps).Some? && Genuine(lib, steps, answers)
    ensures IsWork(lib, L.Run(steps).value, Along(lib, steps, answers))
    decreases |steps|
  {
    hide IsWork, L.Enabled, L.Next, After, C.Process, L.InOrder;
    if steps == [] {
      NothingIsWork(lib);
    } else {
      var n := |steps| - 1;
      SentIsWork(lib, steps[..n], answers[..n]);
      if steps[n].Finish? {
        FinishesProcessing(L.Run(steps[..n]).value, steps[n]);
      }
      StepIsWork(lib, L.Run(steps[..n]).value, Along(lib, steps[..n], answers[..n]), steps[n], answers[n]);
    }
  }

  lemma NothingIsWork(lib: C.Library)
    ensures IsWork(lib, L.INIT, Client(NEW_PLUGIN, NEW_PLUGIN, [], []))
  {
  }

  lemma FinishesProcessing(s: L.State, step: L.Step)
    requires L.Enabled(s, step) && step.Finish?
    ensures s.worker.Processing?
  {
  }

  /** In every interleaving each processed message contributes the burst its minor
      version fixes, or nothing; only the last may be cut, and it is cut exactly
      when it failed. */
  lemma InterleavedBursts(lib: C.Library, steps: seq<L.Step>, answers: seq<C.Answers>, i: nat)
    requires |answers| == |steps| && L.Run(steps).Some? && Genuine(lib, steps, answers)
    requires i < |L.Run(steps).value.processed|
    ensures var s, c := L.Run(steps).value, Along(lib, steps, answers);
            && |c.bursts| == |s.processed| == |c.answers|
            && var cut := i == |c.bursts| - 1 && L.Failed(s.worker);
               var full := match C.AnnouncedMinor(lib, s.processed[i], c.answers[i].prior)
                           case None => []
                           case Some(minor) => C.BurstTypes(minor);
               && (full == [] ==> c.bursts[i] == [])
               && (full != [] ==> C.Thinned(C.Types(c.bursts[i]), full, cut))
               && (full != [] && C.Converts(lib, c.answers[i].b) && C.Converts(lib, c.answers[i].c) ==>
                     C.Types(c.bursts[i]) <= full && (cut <==> C.Types(c.bursts[i]) != full))
  {
    hide C.AnnouncedMinor, C.Thinned, C.Converts, C.Process, L.InOrder, L.Run, Along, Genuine;
    var s, c := L.Run(steps).value, Along(lib, steps, answers);
    SentIsWork(lib, steps, answers);
    C.TraceIsBursts(c.began, lib, s.processed, c.answers, i);
  }

  /** Over every run and all its sessions: blob and stub never change once built,
      and every message of the current session carries them. */
  lemma {:induction false} InterleavedAgreement(lib: C.Library, steps: seq<L.Step>, answers: seq<C.Answers>, m: nat)
    requires |answers| == |steps| && L.Run(steps).Some? && Genuine(lib, steps, answers) && m <= |steps|
    ensures var c := Along(lib, steps, answers);
            && C.Agrees(c.began, lib) && C.Agrees(c.st, lib) && C.Keeps(Along(lib, steps[..m], answers[..m]).st, c.st)
            && |c.bursts| == |c.answers|
            && forall i, j :: 0 <= i < |c.bursts| && 0 <= j < |c.bursts[i]| ==>
                 C.Carries(c.bursts[i][j], c.st, lib, c.answers[i])
    decreases |steps|
  {
    hide C.Process, C.Carries, C.Agrees, L.Enabled, L.Next;
    if steps == [] {
      NewPluginAgrees(lib);
    } else {
      var n := |steps| - 1;
      var before := Along(lib, steps[..n], answers[..n]);
      if m <= n {
        InterleavedAgreement(lib, steps[..n], answers[..n], m);
        assert steps[..n][..m] == steps[..m] && answers[..n][..m] == answers[..m];
      } else {
        InterleavedAgreement(lib, steps[..n], answers[..n], n);
        assert steps[..m] == steps && answers[..m] == answers;
      }
      var s := L.Run(steps[..n]).value;
      if steps[n].Finish? && s.worker.Processing? {
        ProcessAgrees(before.st, lib, s.worker.s.bytes, answers[n]);
      }
    }
    SentIsWork(lib, steps, answers);
    var c := Along(lib, steps, answers);
    C.BlobAgreement(c.began, lib, L.Run(steps).value.processed, c.answers);
  }

  lemma NewPluginAgrees(lib: C.Library)
    ensures C.Agrees(NEW_PLUGIN, lib)
  {
  }

  lemma ProcessAgrees(st: C.State, lib: C.Library, b: seq<byte>, a: C.Answers)
    requires C.Agrees(st, lib)
    ensures var x := C.Process(st, lib, b, a);
            C.Agrees(x.st, lib) && C.Keeps(st, x.st)
  {
    hide C.Process;
    C.BlobAgreement(st, lib, [b], [a]);
    assert C.Work(st, lib, [b], [a]).st == C.Process(st, lib, b, a).st;
  }
}
