/** The two callers of the gate as programs of small steps, any number of them interleaved,
    every statement free to throw: who holds a slot, who releases it, and what a response
    consists of. Nothing keeps a client from calling release() but its own program. */
module GateClients {
  import opened JsText
  import G = ConcurrencyGate

  type Id = G.Id

  /** runStreamingCompletion and generateEntitySummary. */
  datatype Program = Streaming | Summary

  /** The statement that comes next. */
  datatype Pc =
    | AtSettings | AtDisabled | AtPrompt | AtAcquire
    | AtAwait                                        // the promise of acquireSlot
    | AtHeaders | AtAdapter | AtGenerate | AtAudit | AtWrite | AtEnd
    | AtFinally
    | Finished

  /** The HTTP response and the variables about it. History: how often headers were set
      and which pieces were streamed. */
  datatype Response = Response(
    headersFlushed: bool, wroteViaChunk: bool, text: Option<Text>, body: Text, ended: bool, headersSet: nat, pieces: seq<Text>)

  /** A call under way. `failed`: an exception is on its way out, or has got out. History:
      how often release() was called, and whether onQueued threw. */
  datatype Client = Client(program: Program, pc: Pc, failed: bool, response: Response, releases: nat, lost: bool)

  /** What the statement does: go on, throw, stream a piece, answer with a text; or, at
      acquireSlot, find its signal aborted. */
  datatype Event = Continue | Throw | Piece(piece: Text) | Answer(answer: Text) | SignalAborted

  datatype System = System(gate: G.State, clients: map<Id, Client>)

  datatype Step =
    | Start(id: Id, program: Program)
    | Go(id: Id, event: Event)
    | Abort(id: Id)

  const EMPTY := System(G.EMPTY, map[])

  const NEW_CALL := Client(Streaming, AtSettings, false, Response(false, false, None, [], false, 0, []), 0, false)

  function Concat(pieces: seq<Text>): Text {
    if pieces == [] then [] else Concat(pieces[..|pieces| - 1]) + pieces[|pieces| - 1]
  }

  /** An exception before the second `try`, and one inside it. */
  function Escapes(c: Client): Client { c.(pc := Finished, failed := true) }
  function Caught(c: Client): Client { c.(pc := AtFinally, failed := true) }

  function WithHeaders(r: Response): Response { r.(headersSet := r.headersSet + 1) }

  function To(s: System, id: Id, c: Client): System { s.(clients := s.clients[id := c]) }

  /** acquireSlot with onQueued, which the summary does not pass. */
  function DoAcquire(s: System, id: Id, event: Event, l: G.Limits): System
    requires id in s.clients
  {
    var c, aborted := s.clients[id], event == SignalAborted;
    var s' := s.(gate := G.DoAcquire(s.gate, id, aborted, l));
    if c.program == Streaming && G.ReplyTo(s.gate, aborted, l).Waiting? then
      if event == Throw then To(s', id, Escapes(c).(lost := true))
      else To(s', id, c.(pc := AtAwait, response := WithHeaders(c.response).(headersFlushed := true)))
    else To(s', id, c.(pc := AtAwait))
  }

  /** The awaited promise: nothing to do while it is pending. */
  function DoAwait(s: System, id: Id): System
    requires id in s.clients
  {
    var c := s.clients[id];
    if id !in s.gate.outcomes then s
    else if s.gate.outcomes[id] != G.Granted then To(s, id, Escapes(c))
    else To(s, id, c.(pc := if c.program == Streaming then AtHeaders else AtAdapter))
  }

  /** Whether the statement of the second `try` throws. */
  predicate Throws(c: Client, event: Event) {
    (event == Throw && c.pc != AtAudit) || (c.pc == AtWrite && c.response.text.None?)  // a failed audit is logged and swallowed
  }

  /** Where it leads otherwise. */
  function NextPc(c: Client, event: Event): Pc {
    match c.pc
    case AtHeaders => AtAdapter
    case AtAdapter => AtGenerate
    case AtGenerate => if !event.Answer? then AtGenerate else if c.program == Streaming then AtAudit else AtFinally
    case AtAudit => AtWrite
    case AtWrite => AtEnd
    case _ => AtFinally
  }

  /** And what it does to the response. */
  function Respond(c: Client, event: Event): Response {
    var r := c.response;
    match c.pc
    case AtHeaders => if r.headersFlushed then r else WithHeaders(r)
    case AtGenerate =>
      if event.Answer? then r.(text := Some(event.answer))
      else if event.Piece? && c.program == Streaming
      then r.(wroteViaChunk := true, body := r.body + event.piece, pieces := r.pieces + [event.piece])
      else r
    case AtWrite => if r.wroteViaChunk || r.text.None? then r else r.(body := r.body + r.text.value)
    case AtEnd => r.(ended := true)
    case _ => r
  }

  function InTry(c: Client, event: Event): Client {
    if Throws(c, event) then Caught(c) else c.(pc := NextPc(c, event), response := Respond(c, event))
  }

  /** The statements that do not touch the gate. */
  function Locally(c: Client, event: Event): Client {
    match c.pc
    case AtSettings => if event == Throw then Escapes(c) else c.(pc := AtDisabled)
    case AtDisabled => if event == Throw then Escapes(c) else c.(pc := AtPrompt)
    case AtPrompt => if event == Throw then Escapes(c) else c.(pc := AtAcquire)
    case Finished => c
    case _ => InTry(c, event)
  }

  function DoGo(s: System, id: Id, event: Event, l: G.Limits): System
    requires id in s.clients
  {
    var c := s.clients[id];
    if c.pc == AtAcquire then DoAcquire(s, id, event, l)
    else if c.pc == AtAwait then DoAwait(s, id)
    else if c.pc == AtFinally then
      To(s.(gate := G.DoRelease(s.gate, id)), id, c.(pc := Finished, releases := c.releases + 1))
    else To(s, id, Locally(c, event))
  }

  function Next(s: System, step: Step, l: G.Limits): System {
    match step
    case Start(id, program) => if id in s.clients then s else To(s, id, NEW_CALL.(program := program))
    case Go(id, event) => if id in s.clients then DoGo(s, id, event, l) else s
    case Abort(id) => s.(gate := G.DoAbort(s.gate, id))
  }

  function Run(s: System, steps: seq<Step>, l: G.Limits): System {
    if steps == [] then s else Next(Run(s, steps[..|steps| - 1], l), steps[|steps| - 1], l)
  }

  // ------------------------------------------------------- slots and programs

  datatype Stage = Before | Waiting | Holding | Over

  function StageOf(pc: Pc): Stage {
    match pc
    case AtSettings => Before
    case AtDisabled => Before
    case AtPrompt => Before
    case AtAcquire => Before
    case AtAwait => Waiting
    case Finished => Over
    case _ => Holding
  }

  predicate WasGranted(g: G.State, id: Id) { id in g.outcomes && g.outcomes[id] == G.Granted }

  /** Where a call may be, as the gate sees it. */
  predicate Fits(g: G.State, id: Id, c: Client) {
    && (c.releases == if StageOf(c.pc) == Over && !c.lost && WasGranted(g, id) then 1 else 0)
    && (c.lost ==> StageOf(c.pc) == Over && c.program == Streaming)
    && match StageOf(c.pc)
       case Before => G.IsNew(g, id)
       case Waiting => !G.IsNew(g, id) && (WasGranted(g, id) ==> id in g.holders)
       case Holding => id in g.holders
       case Over =>
         if c.lost then !G.IsNew(g, id) && (WasGranted(g, id) ==> id in g.holders) else id !in g.holders && id !in g.queue
  }

  ghost predicate Invariant(s: System, l: G.Limits) {
    && G.Invariant(s.gate, l)
    && (forall id :: id !in s.clients ==> G.IsNew(s.gate, id))
    && (forall id :: id in s.clients ==> Fits(s.gate, id, s.clients[id]))
  }

  /** What the step does to the gate, if anything. */
  function GateStep(s: System, step: Step): Option<G.Step> {
    match step
    case Start(_, _) => None
    case Abort(id) => Some(G.Abort(id))
    case Go(id, event) =>
      if id !in s.clients then None
      else if s.clients[id].pc == AtAcquire then Some(G.Acquire(id, event == SignalAborted))
      else if s.clients[id].pc == AtFinally then Some(G.Release(id))
      else None
  }

  /** The programs keep the gate's rules of their own accord: a request is made once, and
      a release comes from a holder. */
  lemma ClientsKeepRules(s: System, step: Step, l: G.Limits)
    requires Invariant(s, l)
    ensures GateStep(s, step).Some? ==>
              G.Enabled(s.gate, GateStep(s, step).value) && Next(s, step, l).gate == G.Next(s.gate, GateStep(s, step).value, l)
    ensures GateStep(s, step).None? ==> Next(s, step, l).gate == s.gate
  {
    hide G.Invariant, Locally;
    if step.Go? && step.id in s.clients { assert Fits(s.gate, step.id, s.clients[step.id]); }
  }

  /** A gate step moves other requests only from waiting to granted. */
  lemma OthersAtGate(g: G.State, step: G.Step, id: Id, c: Client, l: G.Limits)
    requires G.Invariant(g, l) && G.Enabled(g, step) && Fits(g, id, c) && id != step.id
    ensures Fits(G.Next(g, step, l), id, c)
  {
    hide Fits, G.Invariant, G.DoAcquire, G.DoAbort, G.DoRelease;
    match step
    case Acquire(k, aborted) => OthersAtAcquire(g, k, aborted, id, c, l);
    case Abort(k) => OthersAtAbort(g, k, id, c, l);
    case Release(k) => OthersAtRelease(g, k, id, c, l);
  }

  lemma OthersAtAcquire(g: G.State, k: Id, aborted: bool, id: Id, c: Client, l: G.Limits)
    requires G.Invariant(g, l) && Fits(g, id, c) && id != k
    ensures Fits(G.DoAcquire(g, k, aborted, l), id, c)
  {
  }

  lemma OthersAtAbort(g: G.State, k: Id, id: Id, c: Client, l: G.Limits)
    requires G.Invariant(g, l) && Fits(g, id, c) && id != k
    ensures Fits(G.DoAbort(g, k), id, c)
  {
    G.WithoutKeeps(g.queue, k);
    hide G.Without;
  }

  lemma OthersAtRelease(g: G.State, k: Id, id: Id, c: Client, l: G.Limits)
    requires G.Invariant(g, l) && Fits(g, id, c) && id != k
    ensures Fits(G.DoRelease(g, k), id, c)
  {
    if g.queue != [] { assert g.queue == [g.queue[0]] + g.queue[1..]; }
  }

  lemma NewAtGate(g: G.State, step: G.Step, id: Id, l: G.Limits)
    requires G.Invariant(g, l) && G.Enabled(g, step) && G.IsNew(g, id) && id != step.id
    ensures G.IsNew(G.Next(g, step, l), id)
  {
    match step
    case Acquire(k, _) =>
    case Abort(k) => G.WithoutKeeps(g.queue, k);
    case Release(k) =>
      if g.queue != [] { assert g.queue == [g.queue[0]] + g.queue[1..]; }
  }

  lemma AbortedFits(g: G.State, id: Id, c: Client, l: G.Limits)
    requires G.Invariant(g, l) && Fits(g, id, c)
    ensures Fits(G.DoAbort(g, id), id, c)
  {
    G.WithoutKeeps(g.queue, id);
  }

  /** The step of a call keeps its own place. */
  lemma OwnFits(s: System, id: Id, event: Event, l: G.Limits)
    requires Invariant(s, l) && id in s.clients
    ensures var s' := DoGo(s, id, event, l); id in s'.clients && Fits(s'.gate, id, s'.clients[id])
  {
    var c := s.clients[id];
    assert Fits(s.gate, id, c);
    hide G.Invariant, Fits, G.DoAcquire, G.DoRelease, Locally, DoAcquire, DoAwait;
    if c.pc == AtFinally { ReleasedFits(s.gate, id, c, l); }
    else if c.pc == AtAcquire { AcquiredFits(s, id, event, l); }
    else if c.pc == AtAwait { AwaitedFits(s, id, l); }
    else { LocallyFits(s.gate, id, c, event, l); }
  }

  lemma LocallyFits(g: G.State, id: Id, c: Client, event: Event, l: G.Limits)
    requires G.Invariant(g, l) && Fits(g, id, c) && c.pc != AtAcquire && c.pc != AtAwait && c.pc != AtFinally
    ensures Fits(g, id, Locally(c, event))
  {
    if StageOf(c.pc) == Before { EarlyFits(g, id, c); }
    else if StageOf(c.pc) == Holding { TriedFits(g, id, c, event); }
    hide Fits, InTry;
  }

  lemma EarlyFits(g: G.State, id: Id, c: Client)
    requires Fits(g, id, c) && StageOf(c.pc) == Before
    requires forall k :: k in g.holders ==> k in g.outcomes
    ensures Fits(g, id, Escapes(c)) && Fits(g, id, c.(pc := AtDisabled)) && Fits(g, id, c.(pc := AtPrompt)) && Fits(g, id, c.(pc := AtAcquire))
  {
  }

  lemma TriedFits(g: G.State, id: Id, c: Client, event: Event)
    requires Fits(g, id, c) && StageOf(c.pc) == Holding
    ensures Fits(g, id, InTry(c, event))
  {
    hide Respond;
  }

  lemma AwaitedFits(s: System, id: Id, l: G.Limits)
    requires id in s.clients && Fits(s.gate, id, s.clients[id]) && s.clients[id].pc == AtAwait
    requires G.Invariant(s.gate, l)
    ensures var s' := DoAwait(s, id); s'.gate == s.gate && id in s'.clients && Fits(s.gate, id, s'.clients[id])
  {
  }

  lemma AcquiredFits(s: System, id: Id, event: Event, l: G.Limits)
    requires id in s.clients && Fits(s.gate, id, s.clients[id]) && s.clients[id].pc == AtAcquire
    requires G.Invariant(s.gate, l)
    ensures var s' := DoAcquire(s, id, event, l); id in s'.clients && Fits(s'.gate, id, s'.clients[id])
  {
  }

  lemma ReleasedFits(g: G.State, id: Id, c: Client, l: G.Limits)
    requires G.Invariant(g, l) && Fits(g, id, c) && c.pc == AtFinally
    ensures Fits(G.DoRelease(g, id), id, c.(pc := Finished, releases := c.releases + 1))
  {
    if g.queue != [] { assert g.queue[0] in g.queue && g.queue == [g.queue[0]] + g.queue[1..]; }
  }

  lemma NextKeeps(s: System, step: Step, l: G.Limits)
    requires Invariant(s, l)
    ensures Invariant(Next(s, step, l), l)
  {
    var s', at := Next(s, step, l), GateStep(s, step);
    ClientsKeepRules(s, step, l);
    if at.Some? { G.NextKeeps(s.gate, at.value, l); }
    hide G.Invariant, Fits, G.Next, G.Enabled, DoGo;
    forall id | id !in s'.clients ensures G.IsNew(s'.gate, id) {
      StrangerNew(s, step, id, l);
    }
    forall id | id in s'.clients ensures Fits(s'.gate, id, s'.clients[id]) {
      ClientFits(s, step, id, l);
    }
  }

  lemma StrangerNew(s: System, step: Step, id: Id, l: G.Limits)
    requires Invariant(s, l) && id !in Next(s, step, l).clients
    ensures G.IsNew(Next(s, step, l).gate, id)
  {
    var at := GateStep(s, step);
    ClientsKeepRules(s, step, l);
    hide G.Invariant, Fits, G.Next, G.Enabled, Locally;
    if at.Some? {
      if id != at.value.id { NewAtGate(s.gate, at.value, id, l); } else { AbortNobody(s.gate, id); }
    }
  }

  lemma AbortNobody(g: G.State, id: Id)
    requires G.IsNew(g, id)
    ensures G.DoAbort(g, id) == g
  {
  }

  lemma ClientFits(s: System, step: Step, id: Id, l: G.Limits)
    requires Invariant(s, l) && id in Next(s, step, l).clients
    ensures Fits(Next(s, step, l).gate, id, Next(s, step, l).clients[id])
  {
    var s', at := Next(s, step, l), GateStep(s, step);
    ClientsKeepRules(s, step, l);
    if id !in s.clients {
      assert G.IsNew(s.gate, id);
    } else {
      assert Fits(s.gate, id, s.clients[id]);
      hide G.Invariant, Fits, G.Next, G.Enabled, G.DoAcquire, G.DoRelease, G.DoAbort, Locally;
      if step.Go? && step.id == id { OwnFits(s, id, step.event, l); }
      else if step == Abort(id) { AbortedFits(s.gate, id, s.clients[id], l); }
      else if at.Some? { OthersAtGate(s.gate, at.value, id, s.clients[id], l); }
    }
  }

  lemma {:induction false} RunKeeps(steps: seq<Step>, l: G.Limits)
    ensures Invariant(Run(EMPTY, steps, l), l)
  {
    if steps == [] {
      EmptyFits(l);
    } else {
      hide Invariant, Next;
      RunKeeps(steps[..|steps| - 1], l);
      NextKeeps(Run(EMPTY, steps[..|steps| - 1], l), steps[|steps| - 1], l);
    }
  }

  lemma EmptyFits(l: G.Limits)
    ensures Invariant(EMPTY, l)
  {
  }

  /** In every run, whatever throws: a call that is about to release holds a slot, and so
      does every call past the gate. */
  lemma ReleasesAreByHolders(steps: seq<Step>, l: G.Limits, id: Id)
    requires id in Run(EMPTY, steps, l).clients && StageOf(Run(EMPTY, steps, l).clients[id].pc) == Holding
    ensures id in Run(EMPTY, steps, l).gate.holders
  {
    RunKeeps(steps, l);
    assert Fits(Run(EMPTY, steps, l).gate, id, Run(EMPTY, steps, l).clients[id]);
  }

  /** A call that has returned or thrown holds a slot if and only if its onQueued threw and
      its entry has been granted one since, and can only wait in that case; otherwise it
      called release() exactly once if it was granted a slot and never if not. */
  lemma FinishedHoldsIffLost(steps: seq<Step>, l: G.Limits, id: Id)
    requires var s := Run(EMPTY, steps, l); id in s.clients && s.clients[id].pc == Finished
    ensures var s := Run(EMPTY, steps, l); var c := s.clients[id];
      && (id in s.gate.holders <==> c.lost && WasGranted(s.gate, id))
      && (id in s.gate.queue <==> c.lost && id !in s.gate.outcomes)
      && (c.lost ==> c.program == Streaming)
      && c.releases == if WasGranted(s.gate, id) && !c.lost then 1 else 0
  {
    RunKeeps(steps, l);
    var s := Run(EMPTY, steps, l);
    assert Fits(s.gate, id, s.clients[id]);
  }

  /** Every run of the clients is, at the gate, a run of the gate's own steps: all that is
      proved of those holds of these. */
  lemma {:induction false} ClientsRefineGate(steps: seq<Step>, l: G.Limits) returns (gateSteps: seq<G.Step>)
    ensures Run(EMPTY, steps, l).gate == G.Run(G.EMPTY, gateSteps, l)
  {
    if steps == [] {
      gateSteps := [];
    } else {
      hide Invariant, Next, G.Next;
      var before, step := Run(EMPTY, steps[..|steps| - 1], l), steps[|steps| - 1];
      gateSteps := ClientsRefineGate(steps[..|steps| - 1], l);
      RunKeeps(steps[..|steps| - 1], l);
      ClientsKeepRules(before, step, l);
      if GateStep(before, step).Some? {
        assert (gateSteps + [GateStep(before, step).value])[..|gateSteps|] == gateSteps;
        gateSteps := gateSteps + [GateStep(before, step).value];
      }
    }
  }

  // ------------------------------------------------- an onQueued that throws

  /** The entry was pushed before onQueued ran, so it stays: if it comes to the front, a
      call that is over gets the slot. */
  lemma LostCallGetsSlot(s: System, id: Id, holder: Id, l: G.Limits)
    requires Invariant(s, l) && id in s.clients && s.clients[id].pc == AtAcquire && s.clients[id].program == Streaming
    requires holder in s.clients && s.clients[holder].pc == AtFinally
    requires s.gate.queue == [] && s.gate.inFlight == l.maxConcurrent && l.queueMaxDepth >= 1
    ensures var s' := Next(Next(s, Go(id, Throw), l), Go(holder, Continue), l);
      id in s'.clients && s'.clients[id].pc == Finished && s'.clients[id].lost && id in s'.gate.holders
  {
    hide G.Invariant;
    assert Next(s, Go(id, Throw), l).gate.queue == [id];
  }

  /** And nobody ever gives that slot back. */
  lemma {:induction false} LostSlotStaysTaken(s: System, steps: seq<Step>, l: G.Limits, id: Id)
    requires Invariant(s, l) && id in s.clients && s.clients[id].lost && id in s.gate.holders
    ensures var s' := Run(s, steps, l); Invariant(s', l) && id in s'.clients && s'.clients[id].lost && id in s'.gate.holders
  {
    if steps == [] {
    } else {
      hide Invariant, Next;
      var t, step := Run(s, steps[..|steps| - 1], l), steps[|steps| - 1];
      LostSlotStaysTaken(s, steps[..|steps| - 1], l, id);
      NextKeeps(t, step, l);
      LostStays(t, step, l, id);
    }
  }

  lemma LostStays(s: System, step: Step, l: G.Limits, id: Id)
    requires Invariant(s, l) && id in s.clients && s.clients[id].lost && id in s.gate.holders
    ensures var s' := Next(s, step, l); id in s'.clients && s'.clients[id].lost && id in s'.gate.holders
  {
    assert Fits(s.gate, id, s.clients[id]);
    hide G.Invariant, Locally;
  }

  lemma RunSnoc(steps: seq<Step>, step: Step, l: G.Limits)
    ensures Run(EMPTY, steps + [step], l) == Next(Run(EMPTY, steps, l), step, l)
  {
    assert (steps + [step])[..|steps|] == steps;
  }

  const AT_GATE := NEW_CALL.(pc := AtAcquire)

  /** A new streaming call that gets as far as the gate. */
  lemma CallsGate(steps: seq<Step>, id: Id, l: G.Limits) returns (more: seq<Step>)
    requires id !in Run(EMPTY, steps, l).clients
    ensures Run(EMPTY, more, l) == To(Run(EMPTY, steps, l), id, AT_GATE)
  {
    hide Run;
    more := steps + [Start(id, Streaming)];
    RunSnoc(steps, Start(id, Streaming), l);
    RunSnoc(more, Go(id, Continue), l);
    RunSnoc(more + [Go(id, Continue)], Go(id, Continue), l);
    RunSnoc(more + [Go(id, Continue)] + [Go(id, Continue)], Go(id, Continue), l);
    more := more + [Go(id, Continue)] + [Go(id, Continue)] + [Go(id, Continue)];
    assert Run(EMPTY, more, l).clients == Run(EMPTY, steps, l).clients[id := AT_GATE];
  }

  /** Call 0 gets the one slot. */
  lemma GetsSlot(l: G.Limits) returns (steps: seq<Step>)
    requires l.maxConcurrent == 1
    ensures var s := Run(EMPTY, steps, l);
      s.gate == G.State(1, [], {0}, map[0 := G.Granted]) && s.clients == map[0 := AT_GATE.(pc := AtAwait)]
  {
    assert Run(EMPTY, [], l) == EMPTY;
    hide Run;
    steps := CallsGate([], 0, l);
    RunSnoc(steps, Go(0, Continue), l);
    steps := steps + [Go(0, Continue)];
  }

  /** Then it fails and is about to release. */
  lemma FailsWithSlot(l: G.Limits) returns (steps: seq<Step>)
    requires l.maxConcurrent == 1
    ensures var s := Run(EMPTY, steps, l);
      s.gate == G.State(1, [], {0}, map[0 := G.Granted]) && s.clients == map[0 := AT_GATE.(pc := AtFinally, failed := true)]
  {
    hide Run, DoAcquire;
    steps := GetsSlot(l);
    RunSnoc(steps, Go(0, Continue), l);
    RunSnoc(steps + [Go(0, Continue)], Go(0, Throw), l);
    steps := steps + [Go(0, Continue)] + [Go(0, Throw)];
  }

  /** From the empty system, with one slot and room in the queue: call 0 gets the slot and
      fails, call 1 is queued while its onQueued throws, call 0 releases. */
  lemma LostSlotReachable(l: G.Limits) returns (steps: seq<Step>)
    requires l.maxConcurrent == 1 && l.queueMaxDepth >= 1
    ensures var s := Run(EMPTY, steps, l); 1 in s.clients && s.clients[1].lost && 1 in s.gate.holders
  {
    hide Run, Invariant, Next;
    var before := FailsWithSlot(l);
    steps := CallsGate(before, 1, l);
    RunKeeps(steps, l);
    LostCallGetsSlot(Run(EMPTY, steps, l), 1, 0, l);
    RunSnoc(steps, Go(1, Throw), l);
    RunSnoc(steps + [Go(1, Throw)], Go(0, Continue), l);
    steps := steps + [Go(1, Throw)] + [Go(0, Continue)];
  }

  // ------------------------------------------------------------- the response

  /** Headers are set at most once, before any of the body; the body is what has been
      streamed, or else nothing until the whole text is written. */
  predicate ResponseFits(r: Response) {
    && r.headersSet <= 1
    && (r.headersFlushed || r.body != [] ==> r.headersSet == 1)
    && (r.wroteViaChunk <==> r.pieces != [])
    && (r.pieces != [] ==> r.body == Concat(r.pieces))
  }

  /** How far it is at each statement. */
  predicate ProgressFits(c: Client) {
    var r, pc := c.response, c.pc;
    && (c.failed ==> !r.ended && (pc == AtFinally || pc == Finished))
    && (c.program == Summary ==> pc != AtHeaders && pc != AtAudit && pc != AtWrite && pc != AtEnd)
    && match pc
       case AtFinally => c.failed || IsComplete(c)
       case Finished => c.failed || IsComplete(c)
       case AtEnd => !r.ended && r.headersSet == 1 && r.text.Some? && (r.pieces == [] ==> r.body == r.text.value)
       case AtWrite => !r.ended && r.headersSet == 1 && r.text.Some? && (r.pieces == [] ==> r.body == [])
       case AtAudit => !r.ended && r.headersSet == 1 && r.text.Some? && (r.pieces == [] ==> r.body == [])
       case AtGenerate => !r.ended && (c.program == Streaming ==> r.headersSet == 1) && (r.pieces == [] ==> r.body == [])
       case AtAdapter => !r.ended && (c.program == Streaming ==> r.headersSet == 1) && r.pieces == [] && r.body == []
       case _ =>
         && !r.ended && r.pieces == [] && r.body == [] && (r.headersSet == 1 ==> r.headersFlushed)
         && (StageOf(pc) == Before ==> r.headersSet == 0)
  }

  /** The provider's text is there, and a streaming response ended with it or its pieces. */
  predicate IsComplete(c: Client) {
    var r := c.response;
    && r.text.Some?
    && (c.program == Streaming ==>
          r.ended && r.headersSet == 1 && r.body == if r.pieces != [] then Concat(r.pieces) else r.text.value)
  }

  predicate IsSound(c: Client) { ResponseFits(c.response) && ProgressFits(c) }

  lemma InTryFits(c: Client, event: Event)
    requires IsSound(c) && StageOf(c.pc) == Holding && c.pc != AtFinally
    ensures IsSound(InTry(c, event))
  {
    if !Throws(c, event) {
      if c.pc == AtGenerate { GenerateFits(c, event); }
      hide Concat;
    }
  }

  lemma GenerateFits(c: Client, event: Event)
    requires IsSound(c) && c.pc == AtGenerate && event != Throw
    ensures IsSound(InTry(c, event))
  {
    if event.Piece? { assert (c.response.pieces + [event.piece])[..|c.response.pieces|] == c.response.pieces; }
  }

  lemma NewSound(program: Program)
    ensures IsSound(NEW_CALL.(program := program))
  {
  }

  lemma EarlySound(c: Client)
    requires IsSound(c) && StageOf(c.pc) == Before
    ensures IsSound(Escapes(c)) && IsSound(c.(pc := AtDisabled)) && IsSound(c.(pc := AtPrompt)) && IsSound(c.(pc := AtAcquire))
    ensures IsSound(Escapes(c).(lost := true)) && IsSound(c.(pc := AtAwait))
    ensures IsSound(c.(pc := AtAwait, response := WithHeaders(c.response).(headersFlushed := true)))
  {
  }

  lemma AcquiredSound(s: System, id: Id, event: Event, l: G.Limits)
    requires id in s.clients && IsSound(s.clients[id]) && s.clients[id].pc == AtAcquire
    ensures id in DoAcquire(s, id, event, l).clients && IsSound(DoAcquire(s, id, event, l).clients[id])
  {
    hide IsSound, G.DoAcquire;
    EarlySound(s.clients[id]);
  }

  lemma AwaitedSound(s: System, id: Id)
    requires id in s.clients && IsSound(s.clients[id]) && s.clients[id].pc == AtAwait
    ensures id in DoAwait(s, id).clients && IsSound(DoAwait(s, id).clients[id])
  {
  }

  lemma FinallySound(c: Client)
    requires IsSound(c) && c.pc == AtFinally
    ensures IsSound(c.(pc := Finished, releases := c.releases + 1))
  {
  }

  lemma DoGoSound(s: System, id: Id, event: Event, l: G.Limits)
    requires id in s.clients && IsSound(s.clients[id])
    ensures id in DoGo(s, id, event, l).clients && IsSound(DoGo(s, id, event, l).clients[id])
  {
    var c := s.clients[id];
    hide IsSound, Locally, DoAcquire, DoAwait, G.DoRelease;
    if c.pc == AtAcquire { AcquiredSound(s, id, event, l); }
    else if c.pc == AtAwait { AwaitedSound(s, id); }
    else if c.pc == AtFinally { FinallySound(c); }
    else { LocallySound(c, event); }
  }

  lemma LocallySound(c: Client, event: Event)
    requires IsSound(c) && c.pc != AtAcquire && c.pc != AtAwait && c.pc != AtFinally
    ensures IsSound(Locally(c, event))
  {
    if StageOf(c.pc) == Before { EarlySound(c); }
    else if StageOf(c.pc) == Holding { InTryFits(c, event); }
    hide IsSound, InTry;
  }

  /** A step of one call changes no other. */
  lemma DoGoOthers(s: System, k: Id, event: Event, l: G.Limits, id: Id)
    requires k in s.clients
    ensures id in DoGo(s, k, event, l).clients <==> id in s.clients
    ensures id in s.clients && id != k ==> DoGo(s, k, event, l).clients[id] == s.clients[id]
  {
    hide Locally, G.DoAcquire, G.DoRelease, G.DoAbort;
  }

  lemma {:induction false} ResponseKeeps(steps: seq<Step>, l: G.Limits, id: Id)
    requires id in Run(EMPTY, steps, l).clients
    ensures IsSound(Run(EMPTY, steps, l).clients[id])
  {
    if steps == [] {
    } else {
      hide IsSound, Next;
      var s, step := Run(EMPTY, steps[..|steps| - 1], l), steps[|steps| - 1];
      if id in s.clients { ResponseKeeps(steps[..|steps| - 1], l, id); }
      ResponseNext(s, step, l, id);
    }
  }

  lemma ResponseNext(s: System, step: Step, l: G.Limits, id: Id)
    requires id in s.clients ==> IsSound(s.clients[id])
    ensures id in Next(s, step, l).clients ==> IsSound(Next(s, step, l).clients[id])
  {
    hide IsSound, DoGo, G.DoAcquire, G.DoRelease, G.DoAbort;
    match step
    case Abort(_) =>
    case Start(k, program) => NewSound(program);
    case Go(k, event) =>
      if k in s.clients {
        DoGoOthers(s, k, event, l, id);
        if k == id { DoGoSound(s, id, event, l); }
      }
  }

  /** A returned call has the provider's text; a streaming one has set its headers
      once, written the pieces it streamed, or else the whole text, and ended the response.
      One that threw has not ended it. */
  lemma ReturnedIsComplete(steps: seq<Step>, l: G.Limits, id: Id)
    requires var s := Run(EMPTY, steps, l); id in s.clients && s.clients[id].pc == Finished
    ensures var c := Run(EMPTY, steps, l).clients[id];
      if c.failed then !c.response.ended && c.response.headersSet <= 1 else IsComplete(c)
  {
    ResponseKeeps(steps, l, id);
  }
}
