/** A call that meets no exception, its audit's apart: from any state that a run of calls reaches with a slot
    free, it gets the slot, answers in full and gives the slot back. */
module GateProgress {
  import opened JsText
  import opened GateClients
  import G = ConcurrencyGate

  /** The statement that comes next does not touch the gate. */
  predicate IsLocal(c: Client) { c.pc != AtAcquire && c.pc != AtAwait && c.pc != AtFinally }

  /** The call after these events, all at local statements. */
  function AfterAll(c: Client, events: seq<Event>): Client {
    if events == [] then c else Locally(AfterAll(c, events[..|events| - 1]), events[|events| - 1])
  }

  predicate AllLocal(c: Client, events: seq<Event>) {
    events == [] || (AllLocal(c, events[..|events| - 1]) && IsLocal(AfterAll(c, events[..|events| - 1])))
  }

  function Goes(id: Id, events: seq<Event>): seq<Step> {
    if events == [] then [] else Goes(id, events[..|events| - 1]) + [Go(id, events[|events| - 1])]
  }

  lemma {:induction false} LocalRun(steps: seq<Step>, id: Id, events: seq<Event>, l: G.Limits)
    requires id in Run(EMPTY, steps, l).clients && AllLocal(Run(EMPTY, steps, l).clients[id], events)
    ensures var s := Run(EMPTY, steps, l);
      Run(EMPTY, steps + Goes(id, events), l) == To(s, id, AfterAll(s.clients[id], events))
  {
    hide Run, Locally, IsLocal, DoAcquire, DoAwait, G.DoRelease;
    var s := Run(EMPTY, steps, l);
    if events == [] {
      assert steps + [] == steps;
      assert s.clients[id := s.clients[id]] == s.clients;
    } else {
      var before, event := events[..|events| - 1], events[|events| - 1];
      LocalRun(steps, id, before, l);
      RunSnoc(steps + Goes(id, before), Go(id, event), l);
      assert steps + Goes(id, events) == steps + Goes(id, before) + [Go(id, event)];
      LocalGo(Run(EMPTY, steps + Goes(id, before), l), id, event, l);
      assert s.clients[id := AfterAll(s.clients[id], before)][id := AfterAll(s.clients[id], events)]
          == s.clients[id := AfterAll(s.clients[id], events)];
    }
  }

  lemma LocalGo(s: System, id: Id, event: Event, l: G.Limits)
    requires id in s.clients && IsLocal(s.clients[id])
    ensures Next(s, Go(id, event), l) == To(s, id, Locally(s.clients[id], event))
  {
  }

  // ----------------------------------------------------------- the call's own events

  function Pieces(pieces: seq<Text>): seq<Event> {
    if pieces == [] then [] else Pieces(pieces[..|pieces| - 1]) + [Piece(pieces[|pieces| - 1])]
  }

  /** Between the grant and the release: the headers and the adapter, the pieces and the
      answer, then the audit, which may throw, the write and the end; a summary has the
      adapter and the answer. */
  function Events(program: Program, pieces: seq<Text>, answer: Text, audited: bool): seq<Event> {
    if program == Summary then [Continue, Answer(answer)]
    else [Continue, Continue] + Pieces(pieces) + [Answer(answer)] + [if audited then Continue else Throw] + [Continue] + [Continue]
  }

  lemma AfterSnoc(c: Client, events: seq<Event>, event: Event)
    ensures AfterAll(c, events + [event]) == Locally(AfterAll(c, events), event)
    ensures AllLocal(c, events + [event]) <==> AllLocal(c, events) && IsLocal(AfterAll(c, events))
  {
    assert (events + [event])[..|events|] == events;
  }

  /** The call as it is when its slot has been granted. */
  function Granted(program: Program): Client {
    NEW_CALL.(program := program, pc := if program == Streaming then AtHeaders else AtAdapter)
  }

  function Response1(pieces: seq<Text>): Response {
    Response(false, pieces != [], None, Concat(pieces), false, 1, pieces)
  }

  function Generating(pieces: seq<Text>): Client { Granted(Streaming).(pc := AtGenerate, response := Response1(pieces)) }

  lemma StartsStream()
    ensures Locally(Locally(Granted(Streaming), Continue), Continue) == Generating([])
    ensures IsLocal(Granted(Streaming)) && IsLocal(Locally(Granted(Streaming), Continue))
  {
  }

  lemma StreamsPiece(pieces: seq<Text>, last: Text)
    ensures Locally(Generating(pieces), Piece(last)) == Generating(pieces + [last]) && IsLocal(Generating(pieces))
  {
    assert (pieces + [last])[..|pieces|] == pieces;
  }

  lemma {:induction false} Streams(pieces: seq<Text>)
    ensures AllLocal(Granted(Streaming), [Continue, Continue] + Pieces(pieces))
    ensures AfterAll(Granted(Streaming), [Continue, Continue] + Pieces(pieces)) == Generating(pieces)
  {
    hide AfterAll, AllLocal, Locally, IsLocal, Generating, Granted;
    var c, start := Granted(Streaming), [Continue, Continue];
    if pieces == [] {
      NoEvents(c);
      AfterSnoc(c, [], Continue);
      AfterSnoc(c, [] + [Continue], Continue);
      StartsStream();
      assert [] + [Continue] + [Continue] == start && start + Pieces([]) == start;
    } else {
      var before, last := pieces[..|pieces| - 1], pieces[|pieces| - 1];
      Streams(before);
      AfterSnoc(c, start + Pieces(before), Piece(last));
      StreamsPiece(before, last);
      assert start + Pieces(before) + [Piece(last)] == start + Pieces(pieces);
      assert before + [last] == pieces;
    }
  }

  lemma NoEvents(c: Client)
    ensures AfterAll(c, []) == c && AllLocal(c, [])
  {
  }

  /** From the answer on: audit, write, end. */
  lemma Finishes(pieces: seq<Text>, answer: Text, audited: bool)
    ensures var c1 := Locally(Generating(pieces), Answer(answer));
      var c2 := Locally(c1, if audited then Continue else Throw);
      var c3 := Locally(c2, Continue);
      && IsLocal(Generating(pieces)) && IsLocal(c1) && IsLocal(c2) && IsLocal(c3)
      && Locally(c3, Continue) == Generating(pieces).(pc := AtFinally, response :=
           Response1(pieces).(text := Some(answer), ended := true, body := if pieces == [] then answer else Concat(pieces)))
  {
    hide Concat;
    assert Concat([]) == [] by { ConcatNone(); }
  }

  lemma ConcatNone()
    ensures Concat([]) == []
  {
  }

  /** The call has returned, with its answer in full, and released once. */
  predicate Succeeded(c: Client, pieces: seq<Text>, answer: Text) {
    && c.pc == Finished && !c.failed && c.releases == 1 && c.response.text == Some(answer)
    && (c.program == Streaming ==>
          c.response.ended && c.response.headersSet == 1 && c.response.body == if pieces == [] then answer else Concat(pieces))
  }

  /** With no exception the response ends in full. */
  lemma Answers(program: Program, pieces: seq<Text>, answer: Text, audited: bool)
    ensures AllLocal(Granted(program), Events(program, pieces, answer, audited))
    ensures var c := AfterAll(Granted(program), Events(program, pieces, answer, audited));
      && c.pc == AtFinally && !c.failed && c.releases == 0 && c.program == program
      && Succeeded(c.(pc := Finished, releases := 1), pieces, answer)
  {
    hide AfterAll, AllLocal, Locally, IsLocal, Pieces, Succeeded, Granted;
    if program == Summary { SummaryAnswers(pieces, answer, audited); } else { StreamAnswers(pieces, answer, audited); }
    ReleaseSucceeds(program, pieces, answer);
  }

  /** The call at its release. */
  function AtRelease(program: Program, pieces: seq<Text>, answer: Text): Client {
    if program == Summary then Granted(Summary).(pc := AtFinally, response := Granted(Summary).response.(text := Some(answer)))
    else Generating(pieces).(pc := AtFinally, response :=
           Response1(pieces).(text := Some(answer), ended := true, body := if pieces == [] then answer else Concat(pieces)))
  }

  lemma ReleaseSucceeds(program: Program, pieces: seq<Text>, answer: Text)
    ensures var c := AtRelease(program, pieces, answer);
      && c.pc == AtFinally && !c.failed && c.releases == 0 && c.program == program
      && Succeeded(c.(pc := Finished, releases := 1), pieces, answer)
  {
    hide Concat;
  }

  lemma SummaryAnswers(pieces: seq<Text>, answer: Text, audited: bool)
    ensures AllLocal(Granted(Summary), Events(Summary, pieces, answer, audited))
    ensures AfterAll(Granted(Summary), Events(Summary, pieces, answer, audited)) == AtRelease(Summary, pieces, answer)
  {
    var c := Granted(Summary);
    NoEvents(c);
    AfterSnoc(c, [], Continue);
    AfterSnoc(c, [] + [Continue], Answer(answer));
    assert [] + [Continue] + [Answer(answer)] == [Continue, Answer(answer)];
    hide AfterAll, AllLocal;
  }

  lemma StreamAnswers(pieces: seq<Text>, answer: Text, audited: bool)
    ensures AllLocal(Granted(Streaming), Events(Streaming, pieces, answer, audited))
    ensures AfterAll(Granted(Streaming), Events(Streaming, pieces, answer, audited)) == AtRelease(Streaming, pieces, answer)
  {
    hide AfterAll, AllLocal, Locally, IsLocal, Pieces, Granted, Generating, Concat;
    Streams(pieces);
    Finishes(pieces, answer, audited);
    var c, streamed := Granted(Streaming), [Continue, Continue] + Pieces(pieces);
    AfterSnoc(c, streamed, Answer(answer));
    var audit := if audited then Continue else Throw;
    AfterSnoc(c, streamed + [Answer(answer)], audit);
    AfterSnoc(c, streamed + [Answer(answer)] + [audit], Continue);
    AfterSnoc(c, streamed + [Answer(answer)] + [audit] + [Continue], Continue);
  }

  // ------------------------------------------------------------------- the whole call

  /** From the start until the promise is settled. */
  function Opening(id: Id, program: Program): seq<Step> {
    [Start(id, program)] + Goes(id, [Continue, Continue, Continue]) + [Go(id, Continue)] + [Go(id, Continue)]
  }

  /** Then the call's own statements, and the release. */
  function CallSteps(id: Id, program: Program, pieces: seq<Text>, answer: Text, audited: bool): seq<Step> {
    Opening(id, program) + Goes(id, Events(program, pieces, answer, audited)) + [Go(id, Continue)]
  }

  lemma ReachesGate(steps: seq<Step>, id: Id, program: Program, l: G.Limits)
    requires id !in Run(EMPTY, steps, l).clients
    ensures Run(EMPTY, steps + [Start(id, program)] + Goes(id, [Continue, Continue, Continue]), l) ==
            To(Run(EMPTY, steps, l), id, AT_GATE.(program := program))
  {
    var started, c := steps + [Start(id, program)], NEW_CALL.(program := program);
    var s := Run(EMPTY, steps, l);
    RunSnoc(steps, Start(id, program), l);
    Early(program);
    hide Run, AfterAll, AllLocal, Goes;
    LocalRun(started, id, [Continue, Continue, Continue], l);
    assert s.clients[id := c][id := AT_GATE.(program := program)] == s.clients[id := AT_GATE.(program := program)];
  }

  lemma EarlySteps(program: Program)
    ensures var c0 := NEW_CALL.(program := program);
      var c1 := Locally(c0, Continue);
      var c2 := Locally(c1, Continue);
      IsLocal(c0) && IsLocal(c1) && IsLocal(c2) && Locally(c2, Continue) == AT_GATE.(program := program)
  {
  }

  lemma Early(program: Program)
    ensures var c, events := NEW_CALL.(program := program), [Continue, Continue, Continue];
      AllLocal(c, events) && AfterAll(c, events) == AT_GATE.(program := program)
  {
    EarlySteps(program);
    var c := NEW_CALL.(program := program);
    NoEvents(c);
    hide AfterAll, AllLocal, Locally, IsLocal;
    assert [] + [Continue] + [Continue] + [Continue] == [Continue, Continue, Continue];
    AfterSnoc(c, [], Continue);
    AfterSnoc(c, [] + [Continue], Continue);
    AfterSnoc(c, [] + [Continue] + [Continue], Continue);
  }

  lemma GetsSlotAtOnce(s: System, id: Id, program: Program, l: G.Limits)
    requires id in s.clients && s.clients[id] == AT_GATE.(program := program) && s.gate.inFlight < l.maxConcurrent
    ensures var t := Next(Next(s, Go(id, Continue), l), Go(id, Continue), l);
      && t.clients == s.clients[id := Granted(program)]
      && t.gate == s.gate.(inFlight := s.gate.inFlight + 1, holders := s.gate.holders + {id}, outcomes := s.gate.outcomes[id := G.Granted])
  {
    assert s.clients[id := AT_GATE.(program := program, pc := AtAwait)][id := Granted(program)] == s.clients[id := Granted(program)];
  }

  lemma GivesBack(s: System, id: Id, l: G.Limits)
    requires id in s.clients && s.clients[id].pc == AtFinally && s.gate.queue == []
    ensures var t := Next(s, Go(id, Continue), l);
      && t.clients == s.clients[id := s.clients[id].(pc := Finished, releases := s.clients[id].releases + 1)]
      && t.gate.holders == s.gate.holders - {id} && t.gate.queue == []
      && t.gate.inFlight == if s.gate.inFlight == 0 then 0 else s.gate.inFlight - 1
  {
  }

  lemma Opens(steps: seq<Step>, id: Id, program: Program, l: G.Limits)
    requires var s := Run(EMPTY, steps, l); id !in s.clients && s.gate.inFlight < l.maxConcurrent
    ensures var s, t := Run(EMPTY, steps, l), Run(EMPTY, steps + Opening(id, program), l);
      && t.clients == s.clients[id := Granted(program)] && t.gate.queue == s.gate.queue
      && t.gate.inFlight == s.gate.inFlight + 1 && t.gate.holders == s.gate.holders + {id}
  {
    var s := Run(EMPTY, steps, l);
    var atGate := steps + [Start(id, program)] + Goes(id, [Continue, Continue, Continue]);
    hide Run, Next, Goes;
    ReachesGate(steps, id, program, l);
    RunSnoc(atGate, Go(id, Continue), l);
    RunSnoc(atGate + [Go(id, Continue)], Go(id, Continue), l);
    GetsSlotAtOnce(Run(EMPTY, atGate, l), id, program, l);
    assert s.clients[id := AT_GATE.(program := program)][id := Granted(program)] == s.clients[id := Granted(program)];
    assert steps + Opening(id, program) == atGate + [Go(id, Continue)] + [Go(id, Continue)];
  }

  /** From every state that a run of calls reaches with a slot free, a new call with no
      exception but perhaps the audit's succeeds, and leaves the slots as it found them. */
  lemma CallSucceeds(steps: seq<Step>, id: Id, program: Program, pieces: seq<Text>, answer: Text, audited: bool, l: G.Limits)
    requires var s := Run(EMPTY, steps, l); id !in s.clients && s.gate.inFlight < l.maxConcurrent
    ensures var s, t := Run(EMPTY, steps, l), Run(EMPTY, steps + CallSteps(id, program, pieces, answer, audited), l);
      && id in t.clients && t.clients[id].program == program && Succeeded(t.clients[id], pieces, answer)
      && (forall k :: k != id ==> (k in t.clients <==> k in s.clients) && (k in s.clients ==> t.clients[k] == s.clients[k]))
      && t.gate.inFlight == s.gate.inFlight && t.gate.holders == s.gate.holders - {id} && t.gate.queue == []
  {
    RunKeeps(steps, l);
    assert Run(EMPTY, steps, l).gate.queue == [];
    hide Run, Invariant, Goes, Events, AfterAll, AllLocal, Concat, Opening, CallSteps, Next, Succeeded;
    Opens(steps, id, program, l);
    Answers(program, pieces, answer, audited);
    var held := steps + Opening(id, program);
    var events := Events(program, pieces, answer, audited);
    SplitCall(steps, id, program, pieces, answer, audited);
    LocalRun(held, id, events, l);
    RunSnoc(held + Goes(id, events), Go(id, Continue), l);
    Returns(Run(EMPTY, steps, l), Run(EMPTY, held, l), id, program, AfterAll(Granted(program), events), pieces, answer, l);
  }

  lemma SplitCall(steps: seq<Step>, id: Id, program: Program, pieces: seq<Text>, answer: Text, audited: bool)
    ensures steps + CallSteps(id, program, pieces, answer, audited)
         == steps + Opening(id, program) + Goes(id, Events(program, pieces, answer, audited)) + [Go(id, Continue)]
  {
    hide Opening, Goes, Events;
  }

  /** The call at its release, once it has been through its statements. */
  lemma Returns(s: System, h: System, id: Id, program: Program, c: Client, pieces: seq<Text>, answer: Text, l: G.Limits)
    requires id !in s.clients && s.gate.queue == []
    requires h.clients == s.clients[id := Granted(program)] && h.gate.queue == s.gate.queue
    requires h.gate.inFlight == s.gate.inFlight + 1 && h.gate.holders == s.gate.holders + {id}
    requires c.pc == AtFinally && !c.failed && c.releases == 0 && c.program == program && Succeeded(c.(pc := Finished, releases := 1), pieces, answer)
    ensures var t := Next(To(h, id, c), Go(id, Continue), l);
      && id in t.clients && t.clients[id].program == program && Succeeded(t.clients[id], pieces, answer)
      && (forall k :: k != id ==> (k in t.clients <==> k in s.clients) && (k in s.clients ==> t.clients[k] == s.clients[k]))
      && t.gate.inFlight == s.gate.inFlight && t.gate.holders == s.gate.holders - {id} && t.gate.queue == []
  {
    hide Succeeded, DoAcquire, DoAwait, Locally;
    GivesBack(To(h, id, c), id, l);
  }

  /** An exception elsewhere: before the gate the call is over; between grant and release
      only the release is left to do, and the response stays as it is. */
  lemma ExceptionsExactly(c: Client)
    ensures c.pc == AtSettings || c.pc == AtDisabled || c.pc == AtPrompt ==> Locally(c, Throw) == c.(pc := Finished, failed := true)
    ensures c.pc == AtHeaders || c.pc == AtAdapter || c.pc == AtGenerate || c.pc == AtWrite || c.pc == AtEnd ==>
              Locally(c, Throw) == c.(pc := AtFinally, failed := true)
    ensures c.pc == AtAudit ==> Locally(c, Throw) == c.(pc := AtWrite)
  {
  }
}
