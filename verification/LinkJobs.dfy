/** The entity-link jobs over whole runs of sends, edits, toggles, alias patches, worker
    statements, failures, crashes and backfills: what a finished job's links are worth. */
module LinkJobs {
  import opened JsText
  import opened TaskScanner
  import opened TaskToggle
  import opened References
  import opened Naming
  import opened EntityLinks
  import Q = JobQueue

  /** `workspaceId` is the message's channel's; direct messages have none. */
  datatype Message = Message(workspaceId: Option<Id>, content: Text)

  datatype Settings = Settings(alias: Text, lower: Text -> Text)

  /** A finished job: the content it had loaded and the entities as it left them. */
  datatype Receipt = Receipt(content: Text, entities: map<Id, Entity>)

  /** `jobs` are the ENTITY_LINK rows; `loaded` what each running job has read. History:
      `receipts` of the last finished job, `edited` since the message was last loaded. */
  datatype State = State(
    tables: Tables, messages: map<Id, Message>, jobs: map<Id, Q.Status>, held: set<Id>, loaded: map<Id, Text>,
    receipts: map<Id, Receipt>, edited: set<Id>)

  datatype Step =
    | Send(m: Id, workspaceId: Option<Id>, content: Text, enqueued: bool)
    | Edit(m: Id, content: Text, enqueued: bool)
    | Toggle(m: Id, index: int, checked: bool)
    | Patch(ws: Id, entity: Id, aliases: seq<Text>)
    | Backfill
    | Claim(m: Id)
    | Load(m: Id)
    | Finish(m: Id)
    | Fail(m: Id, stage: nat, dead: bool)
    | Drop(m: Id)

  const EMPTY := State(Tables(map[], {}, 0), map[], map[], {}, map[], map[], {})

  predicate Is(s: State, m: Id, status: Q.Status) { m in s.jobs && s.jobs[m] == status }

  /** The conditional upsert, for messages that live in a workspace. */
  function Requeued(s: State, m: Id): map<Id, Q.Status>
    requires m in s.messages
  {
    if s.messages[m].workspaceId.Some? && (m !in s.jobs || s.jobs[m] == Q.Completed || s.jobs[m] == Q.Failed)
    then s.jobs[m := Q.Pending] else s.jobs
  }

  function WithContent(s: State, m: Id, content: Text): State
    requires m in s.messages
  {
    s.(messages := s.messages[m := s.messages[m].(content := content)])
  }

  function DoSend(s: State, m: Id, ws: Option<Id>, content: Text, enqueued: bool): State {
    if m in s.messages then s else
    var s' := s.(messages := s.messages[m := Message(ws, content)]);
    if enqueued then s'.(jobs := Requeued(s', m)) else s'
  }

  /** The edit with its enqueue, which may fail and is then only logged. */
  function DoEdit(s: State, m: Id, content: Text, enqueued: bool): State {
    if m !in s.messages then s else
    var s' := WithContent(s, m, content).(edited := s.edited + {m});
    if enqueued then s'.(jobs := Requeued(s', m)) else s'
  }

  function DoToggle(s: State, m: Id, index: int, checked: bool, c: Settings): State {
    if m !in s.messages then s else
    match Toggled(s.messages[m].content, index, checked, c.alias)
    case None => s
    case Some(content) => WithContent(s, m, content)
  }

  function DoBackfill(s: State): State {
    s.(jobs := map m | m in s.jobs.Keys + s.messages.Keys && (m in s.jobs || s.messages[m].workspaceId.Some?) ::
                 if m in s.jobs then s.jobs[m] else Q.Pending)
  }

  function DoLoad(s: State, m: Id): State {
    if m !in s.held || m in s.loaded || m !in s.messages then s
    else s.(loaded := s.loaded[m := s.messages[m].content], edited := s.edited - {m})
  }

  predicate Runs(s: State, m: Id) { m in s.held && m in s.loaded && m in s.messages && s.messages[m].workspaceId.Some? }

  function NamesLoaded(s: State, m: Id, c: Settings): seq<EntityName>
    requires m in s.loaded
  {
    EntityNames(s.loaded[m], c.lower)
  }

  ghost function DoFinish(s: State, m: Id, c: Settings): State {
    if !Runs(s, m) then s else
    var tables := Link(s.tables, m, s.messages[m].workspaceId.value, NamesLoaded(s, m, c));
    s.(tables := tables, jobs := s.jobs[m := Q.Completed], held := s.held - {m}, loaded := s.loaded - {m},
       receipts := s.receipts[m := Receipt(s.loaded[m], tables.entities)])
  }

  ghost function DoFail(s: State, m: Id, stage: nat, dead: bool, c: Settings): State {
    if !Runs(s, m) then s else
    s.(tables := LinkPart(s.tables, m, s.messages[m].workspaceId.value, NamesLoaded(s, m, c), stage),
       jobs := s.jobs[m := if dead then Q.Failed else Q.Pending], held := s.held - {m}, loaded := s.loaded - {m})
  }

  ghost function Next(s: State, step: Step, c: Settings): State {
    match step
    case Send(m, ws, content, enqueued) => DoSend(s, m, ws, content, enqueued)
    case Edit(m, content, enqueued) => DoEdit(s, m, content, enqueued)
    case Toggle(m, index, checked) => DoToggle(s, m, index, checked, c)
    case Patch(ws, entity, aliases) => s.(tables := PatchAliases(s.tables, ws, entity, aliases, c.lower))
    case Backfill => DoBackfill(s)
    case Claim(m) => if Is(s, m, Q.Pending) then s.(jobs := s.jobs[m := Q.Processing], held := s.held + {m}) else s
    case Load(m) => DoLoad(s, m)
    case Finish(m) => DoFinish(s, m, c)
    case Fail(m, stage, dead) => DoFail(s, m, stage, dead, c)
    case Drop(m) => s.(held := s.held - {m}, loaded := s.loaded - {m})
  }

  ghost function Run(steps: seq<Step>, c: Settings): State {
    if steps == [] then EMPTY else Next(Run(steps[..|steps| - 1], c), steps[|steps| - 1], c)
  }

  // ------------------------------------------------------- the steps, message by message

  /** A send or an edit: the text is there, and the job row that an enqueue asks for is
      pending unless it waits or runs already. Direct messages have none. */
  lemma WritesExactly(s: State, m: Id, ws: Option<Id>, content: Text, enqueued: bool, c: Settings)
    ensures var t := Next(s, Send(m, ws, content, enqueued), c);
      if m in s.messages then t == s
      else
        && t.messages == s.messages[m := Message(ws, content)] && t.tables == s.tables && t.edited == s.edited
        && JobAfter(s, t, m, enqueued && ws.Some?)
    ensures var t := Next(s, Edit(m, content, enqueued), c);
      if m !in s.messages then t == s
      else
        && t.messages == s.messages[m := Message(s.messages[m].workspaceId, content)] && t.tables == s.tables
        && t.edited == s.edited + {m} && JobAfter(s, t, m, enqueued && s.messages[m].workspaceId.Some?)
  {
  }

  /** The job rows, `m`'s put back to the start if asked for and finished or missing. */
  ghost predicate JobAfter(s: State, t: State, m: Id, asked: bool) {
    && t.held == s.held && t.loaded == s.loaded && t.receipts == s.receipts
    && (forall k :: k != m ==> (k in t.jobs <==> k in s.jobs) && (k in s.jobs ==> t.jobs[k] == s.jobs[k]))
    && if asked && !(Is(s, m, Q.Pending) || Is(s, m, Q.Processing)) then Is(t, m, Q.Pending)
       else (m in t.jobs <==> m in s.jobs) && (m in s.jobs ==> t.jobs[m] == s.jobs[m])
  }

  /** The backfill gives every message of a workspace a job row and changes none. */
  lemma BackfillExactly(s: State, c: Settings, m: Id)
    ensures var t := Next(s, Step.Backfill, c);
      && t.(jobs := s.jobs) == s
      && (if m in s.jobs then m in t.jobs && t.jobs[m] == s.jobs[m]
          else if m in s.messages && s.messages[m].workspaceId.Some? then Is(t, m, Q.Pending)
          else m !in t.jobs)
  {
  }

  /** A pending job is claimed, then loads the text as it is by then. */
  lemma ClaimsExactly(s: State, m: Id, c: Settings)
    ensures var t := Next(s, Step.Claim(m), c);
      t == if Is(s, m, Q.Pending) then s.(jobs := s.jobs[m := Q.Processing], held := s.held + {m}) else s
    ensures var t := Next(s, Step.Load(m), c);
      t == if m in s.held && m !in s.loaded && m in s.messages
           then s.(loaded := s.loaded[m := s.messages[m].content], edited := s.edited - {m}) else s
    ensures var t := Next(s, Step.Drop(m), c);
      && t == s.(held := t.held, loaded := t.loaded) && t.held == s.held - {m} && m !in t.loaded
      && forall k :: k != m ==> (k in t.loaded <==> k in s.loaded) && (k in s.loaded ==> t.loaded[k] == s.loaded[k])
  {
  }

  /** A toggle sets the mark of that entry and touches no job. */
  lemma TogglesExactly(s: State, m: Id, index: int, checked: bool, c: Settings)
    requires OneLine(c.alias) && m in s.messages
    ensures var t := Next(s, Toggle(m, index, checked), c);
      && t == s.(messages := t.messages) && t.messages == s.messages[m := Message(s.messages[m].workspaceId, t.messages[m].content)]
      && Tasks(t.messages[m].content, c.alias) == WithFlag(Tasks(s.messages[m].content, c.alias), index, checked)
  {
    ToggledText(s, m, index, checked, c);
    hide DoSend, DoEdit, DoToggle, DoBackfill, DoLoad, DoFinish, DoFail, PatchAliases, Tasks, OneLine, WithFlag;
  }

  lemma ToggledText(s: State, m: Id, index: int, checked: bool, c: Settings)
    requires OneLine(c.alias) && m in s.messages
    ensures var t := DoToggle(s, m, index, checked, c);
      && t == s.(messages := t.messages) && t.messages == s.messages[m := Message(s.messages[m].workspaceId, t.messages[m].content)]
      && Tasks(t.messages[m].content, c.alias) == WithFlag(Tasks(s.messages[m].content, c.alias), index, checked)
  {
    ToggleRefinesParse(s.messages[m].content, index, checked, c.alias);
    hide Toggled, Tasks, OneLine;
    var r := Toggled(s.messages[m].content, index, checked, c.alias);
    if r.None? {
      assert DoToggle(s, m, index, checked, c) == s;
      assert s.messages[m := s.messages[m]] == s.messages;
    } else {
      assert DoToggle(s, m, index, checked, c) == WithContent(s, m, r.value);
    }
  }

  function WithFlag(tasks: seq<Task>, index: int, checked: bool): seq<Task> {
    if 0 <= index < |tasks| then tasks[index := tasks[index].(checked := checked)] else tasks
  }

  /** A patch that is acceptable gives its entity those aliases and touches nothing else. */
  lemma PatchesExactly(s: State, ws: Id, id: Id, aliases: seq<Text>, c: Settings)
    requires id in s.tables.entities && s.tables.entities[id].workspaceId == ws
    ensures var t := Next(s, Patch(ws, id, aliases), c);
      && t.(tables := s.tables) == s && t.tables.links == s.tables.links && t.tables.entities.Keys == s.tables.entities.Keys
      && (forall k :: k in s.tables.entities && k != id ==> t.tables.entities[k] == s.tables.entities[k])
      && (IsAcceptable(s.tables.entities, ws, id, aliases, c.lower) ==>
            (set n | n in t.tables.entities[id].aliases) == AliasNames(aliases, c.lower))
  {
    PatchExactly(s.tables, ws, id, aliases, c.lower);
    hide PatchAliases, AliasNames, IsAcceptable;
  }

  /** A job that has loaded its text can finish, and then is completed with the links of that
      text; or fail, and then is pending or dead-lettered. */
  lemma EndsExactly(s: State, m: Id, stage: nat, dead: bool, c: Settings)
    requires Invariant(s, c) && m in s.loaded
    ensures var t := Next(s, Step.Finish(m), c);
      && Is(t, m, Q.Completed) && m !in t.held && m !in t.loaded && m in t.messages && t.messages == s.messages
      && s.messages[m].workspaceId.Some?
      && LinksOf(t.tables.links, m) == Meant(t.tables.entities, s.messages[m].workspaceId.value, EntityNames(s.loaded[m], c.lower))
    ensures var t := Next(s, Step.Fail(m, stage, dead), c);
      Is(t, m, if dead then Q.Failed else Q.Pending) && m !in t.held && m !in t.loaded && t.messages == s.messages
  {
    assert Fits(s, m, c);
    LinkReconciles(s.tables, m, s.messages[m].workspaceId.value, NamesLoaded(s, m, c));
    hide Link, LinkPart, Meant, LinksOf, EntityNames, Valid;
  }

  // -------------------------------------------------------------- the invariant

  /** The links are what the names of the receipt's content meant when the job ended. */
  ghost predicate Linked(s: State, m: Id, c: Settings)
    requires m in s.messages && s.messages[m].workspaceId.Some? && m in s.receipts
  {
    var r, ws := s.receipts[m], s.messages[m].workspaceId.value;
    && OneEntityPerName(r.entities)
    && LinksOf(s.tables.links, m) == Meant(r.entities, ws, EntityNames(r.content, c.lower))
    && forall i :: 0 <= i < |EntityNames(r.content, c.lower)| ==> Find(r.entities, ws, EntityNames(r.content, c.lower)[i].normalized).Some?
  }

  /** What is known of one message's job. */
  ghost predicate Fits(s: State, m: Id, c: Settings) {
    && (m in s.jobs ==> m in s.messages && s.messages[m].workspaceId.Some?)
    && (m in s.held ==> Is(s, m, Q.Processing))
    && (m in s.loaded ==> m in s.held)
    && (m in s.loaded && m !in s.edited ==> SameReferences(s.loaded[m], s.messages[m].content))
    && (Is(s, m, Q.Completed) ==> m in s.receipts && Linked(s, m, c))
    && (Is(s, m, Q.Completed) && m !in s.edited ==> SameReferences(s.receipts[m].content, s.messages[m].content))
    && (m in s.edited ==> m in s.messages)
  }

  ghost predicate Invariant(s: State, c: Settings) {
    Valid(s.tables) && forall m :: Fits(s, m, c)
  }

  /** The parts of the system that `Fits` looks at for message `m`. */
  predicate SameFor(s: State, t: State, m: Id) {
    && (m in s.messages <==> m in t.messages) && (m in s.messages ==> s.messages[m] == t.messages[m])
    && (m in s.jobs <==> m in t.jobs) && (m in s.jobs ==> s.jobs[m] == t.jobs[m])
    && (m in s.held <==> m in t.held)
    && (m in s.loaded <==> m in t.loaded) && (m in s.loaded ==> s.loaded[m] == t.loaded[m])
    && (m in s.receipts <==> m in t.receipts) && (m in s.receipts ==> s.receipts[m] == t.receipts[m])
    && (m in s.edited <==> m in t.edited)
    && LinksOf(s.tables.links, m) == LinksOf(t.tables.links, m)
  }

  lemma FitsSame(s: State, t: State, m: Id, c: Settings)
    requires Fits(s, m, c) && SameFor(s, t, m)
    ensures Fits(t, m, c)
  {
    hide OneEntityPerName, Meant, EntityNames, LinksOf, SameReferences;
  }

  lemma FinishFits(s: State, m: Id, c: Settings, k: Id)
    requires Invariant(s, c)
    ensures Valid(DoFinish(s, m, c).tables) && Fits(DoFinish(s, m, c), k, c)
  {
    var s' := DoFinish(s, m, c);
    assert Fits(s, m, c) && Fits(s, k, c);
    if Runs(s, m) {
      LinkReconciles(s.tables, m, s.messages[m].workspaceId.value, NamesLoaded(s, m, c));
      hide Link, Meant, EntityNames, LinksOf, SameReferences, OneEntityPerName;
      if k != m { FitsSame(s, s', k, c); }
    }
  }

  lemma FailFits(s: State, m: Id, stage: nat, dead: bool, c: Settings, k: Id)
    requires Invariant(s, c)
    ensures Valid(DoFail(s, m, stage, dead, c).tables) && Fits(DoFail(s, m, stage, dead, c), k, c)
  {
    var s' := DoFail(s, m, stage, dead, c);
    assert Fits(s, m, c) && Fits(s, k, c);
    if Runs(s, m) {
      LinkPartKeeps(s.tables, m, s.messages[m].workspaceId.value, NamesLoaded(s, m, c), stage);
      hide LinkPart, Meant, EntityNames, LinksOf, SameReferences, OneEntityPerName;
      if k != m { FitsSame(s, s', k, c); }
    }
  }

  lemma EditFits(s: State, m: Id, content: Text, enqueued: bool, c: Settings, k: Id)
    requires Fits(s, k, c)
    ensures Fits(DoEdit(s, m, content, enqueued), k, c)
  {
  }

  lemma ToggleFits(s: State, m: Id, index: int, checked: bool, c: Settings, k: Id)
    requires Fits(s, k, c)
    ensures Fits(DoToggle(s, m, index, checked, c), k, c)
  {
    hide Meant, EntityNames, LinksOf, SameReferences, OneEntityPerName, Toggled;
    var s' := DoToggle(s, m, index, checked, c);
    if k != m {
      FitsSame(s, s', k, c);
    } else if m in s.messages && Toggled(s.messages[m].content, index, checked, c.alias).Some? {
      ToggleKeepsReferences(s.messages[m].content, index, checked, c.alias);
      NewTextFits(s, m, s'.messages[m].content, c);
    }
  }

  lemma NewTextFits(s: State, m: Id, content: Text, c: Settings)
    requires Fits(s, m, c) && m in s.messages && SameReferences(s.messages[m].content, content)
    ensures Fits(WithContent(s, m, content), m, c)
  {
  }

  lemma LoadFits(s: State, m: Id, c: Settings, k: Id)
    requires Fits(s, k, c)
    ensures Fits(DoLoad(s, m), k, c)
  {
  }

  lemma OtherFits(s: State, step: Step, c: Settings, k: Id)
    requires Fits(s, k, c) && (step.Send? || step.Patch? || step.Backfill? || step.Claim? || step.Drop?)
    ensures Fits(Next(s, step, c), k, c)
  {
  }

  lemma NextFits(s: State, step: Step, c: Settings, k: Id)
    requires Invariant(s, c)
    ensures Fits(Next(s, step, c), k, c)
  {
    assert Fits(s, k, c);
    hide Fits, Invariant, DoToggle, DoEdit, DoSend, DoLoad, DoFinish, DoFail;
    match step
    case Edit(m, content, enqueued) => EditFits(s, m, content, enqueued, c, k);
    case Toggle(m, index, checked) => ToggleFits(s, m, index, checked, c, k);
    case Load(m) => LoadFits(s, m, c, k);
    case Finish(m) => FinishFits(s, m, c, k);
    case Fail(m, stage, dead) => FailFits(s, m, stage, dead, c, k);
    case _ => OtherFits(s, step, c, k);
  }

  lemma NextValid(s: State, step: Step, c: Settings)
    requires Invariant(s, c)
    ensures Valid(Next(s, step, c).tables)
  {
    hide Fits, Valid, Link, LinkPart, PatchAliases;
    match step
    case Patch(ws, entity, aliases) => PatchKeeps(s.tables, ws, entity, aliases, c.lower);
    case Finish(m) => FinishFits(s, m, c, m);
    case Fail(m, stage, dead) => FailFits(s, m, stage, dead, c, m);
    case _ =>
  }

  lemma {:induction false} RunKeeps(steps: seq<Step>, c: Settings)
    ensures Invariant(Run(steps, c), c)
  {
    hide Fits, Valid, Next;
    if steps != [] {
      var before, step := Run(steps[..|steps| - 1], c), steps[|steps| - 1];
      RunKeeps(steps[..|steps| - 1], c);
      NextValid(before, step, c);
      forall k ensures Fits(Next(before, step, c), k, c) { NextFits(before, step, c, k); }
    } else {
      assert Valid(EMPTY.tables) && forall k :: Fits(EMPTY, k, c) by { EmptyKeeps(c); }
    }
  }

  lemma EmptyKeeps(c: Settings)
    ensures Invariant(EMPTY, c)
  {
  }

  // ------------------------------------------------------------- the main results

  /** Whatever happened, each name means at most one entity of its workspace. */
  lemma NamesUnambiguous(steps: seq<Step>, c: Settings)
    ensures OneEntityPerName(Run(steps, c).tables.entities)
  {
    RunKeeps(steps, c);
  }

  /** A completed job's links are what the names of the content it had loaded meant when
      it ran, each name one entity, and that content is the present one, up to marks,
      unless an edit came after the load. */
  lemma LinksAgree(steps: seq<Step>, c: Settings, m: Id)
    requires Is(Run(steps, c), m, Q.Completed)
    ensures var s := Run(steps, c);
      && m in s.messages && s.messages[m].workspaceId.Some? && m in s.receipts && Linked(s, m, c)
      && (m !in s.edited ==> EntityNames(s.receipts[m].content, c.lower) == EntityNames(s.messages[m].content, c.lower))
  {
    RunKeeps(steps, c);
    hide Linked;
    assert Fits(Run(steps, c), m, c);
  }

  /** Every edit of message `m` is enqueued, and none finds it loaded by a running job. */
  ghost predicate EditsRequeue(steps: seq<Step>, c: Settings, m: Id) {
    steps == [] ||
    (var last := steps[|steps| - 1];
     && EditsRequeue(steps[..|steps| - 1], c, m)
     && (last.Edit? && last.m == m ==> last.enqueued && m !in Run(steps[..|steps| - 1], c).loaded))
  }

  predicate EditAwaitsJob(s: State, m: Id) {
    m in s.edited ==> m !in s.loaded && !Is(s, m, Q.Completed)
  }

  lemma NextAwaits(s: State, step: Step, c: Settings, m: Id)
    requires Fits(s, m, c) && EditAwaitsJob(s, m) && (step.Edit? && step.m == m ==> step.enqueued && m !in s.loaded)
    ensures EditAwaitsJob(Next(s, step, c), m)
  {
    hide Linked, SameReferences, Link, LinkPart, PatchAliases, Toggled;
  }

  lemma {:induction false} RunAwaits(steps: seq<Step>, c: Settings, m: Id)
    requires EditsRequeue(steps, c, m)
    ensures EditAwaitsJob(Run(steps, c), m)
  {
    hide Next, Fits, Valid, EditAwaitsJob;
    if steps != [] {
      var init := steps[..|steps| - 1];
      RunKeeps(init, c);
      RunAwaits(init, c, m);
      assert Fits(Run(init, c), m, c);
      NextAwaits(Run(init, c), steps[|steps| - 1], c, m);
    } else {
      assert EditAwaitsJob(EMPTY, m) by { NothingEdited(m); }
    }
  }

  lemma NothingEdited(m: Id)
    ensures EditAwaitsJob(EMPTY, m)
  {
  }

  /** When no edit of the message lands on a job that has loaded it, a completed job's links
      are exactly what the names of the current content meant when the job ran. */
  lemma LinksAgreeWithContent(steps: seq<Step>, c: Settings, m: Id)
    requires EditsRequeue(steps, c, m) && Is(Run(steps, c), m, Q.Completed)
    ensures var s := Run(steps, c);
      && m in s.messages && s.messages[m].workspaceId.Some? && m in s.receipts
      && LinksOf(s.tables.links, m)
         == Meant(s.receipts[m].entities, s.messages[m].workspaceId.value, EntityNames(s.messages[m].content, c.lower))
  {
    LinksAgree(steps, c, m);
    RunAwaits(steps, c, m);
    hide Run, Meant, EntityNames, LinksOf;
  }

  /** An edit that does land on one is lost to the links, although its enqueue worked: the
      row ends up completed with the links of the text before the edit. */
  lemma EditWhileLoadedIsLost(s: State, m: Id, after: Text, c: Settings)
    requires Invariant(s, c) && Runs(s, m)
    ensures var s' := Next(Next(s, Edit(m, after, true), c), Finish(m), c);
      && Is(s', m, Q.Completed) && m in s'.messages && s'.messages[m].content == after
      && LinksOf(s'.tables.links, m) == Meant(s'.tables.entities, s.messages[m].workspaceId.value, NamesLoaded(s, m, c))
      && (NamesLoaded(s, m, c) != [] ==> LinksOf(s'.tables.links, m) != {})
  {
    hide Link, Meant, LinksOf, EntityNames, Valid;
    assert Fits(s, m, c);
    var ws, names := s.messages[m].workspaceId.value, NamesLoaded(s, m, c);
    LinkReconciles(s.tables, m, ws, names);
    if names != [] { NameIsMeant(Link(s.tables, m, ws, names).entities, ws, names); }
  }

  lemma NameIsMeant(entities: map<Id, Entity>, ws: Id, names: seq<EntityName>)
    requires names != [] && Find(entities, ws, names[0].normalized).Some?
    ensures Meant(entities, ws, names) != {}
  {
    assert Find(entities, ws, names[0].normalized).value in Meant(entities, ws, names);
  }
}
