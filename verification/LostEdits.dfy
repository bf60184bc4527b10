/** An edit that lands on a link job which has loaded its message: what becomes of the
    links, in a run from the empty system. */
module LostEdits {
  import opened JsText
  import opened TaskScanner
  import opened References
  import opened Naming
  import opened EntityLinks
  import opened LinkJobs
  import Q = JobQueue

  /** One message, one job; the edit comes between the job's load and its end. */
  function LostRun(m: Id, ws: Id, before: Text, after: Text): seq<Step> {
    [Step.Send(m, Some(ws), before, true), Step.Claim(m), Step.Load(m), Step.Edit(m, after, true), Step.Finish(m)]
  }

  lemma LostRunEnds(m: Id, ws: Id, before: Text, after: Text, c: Settings)
    ensures var s := Run(LostRun(m, ws, before, after), c);
      && s.tables == Link(LinkJobs.EMPTY.tables, m, ws, EntityNames(before, c.lower))
      && s.messages == map[m := Message(Some(ws), after)]
      && s.jobs == map[m := Q.Completed]
  {
    var steps := LostRun(m, ws, before, after);
    RunFive(steps[0], steps[1], steps[2], steps[3], steps[4], c);
    hide Run, Link, EntityNames, Next;
    LoadedAlone(m, ws, before, c);
    EditThenFinish(Next(Next(Next(LinkJobs.EMPTY, steps[0], c), steps[1], c), steps[2], c), m, ws, before, after, c);
  }

  /** Message `m` alone, its job running with the text loaded. */
  predicate IsLoadedAlone(s: State, m: Id, ws: Id, text: Text) {
    && s.tables == LinkJobs.EMPTY.tables && s.messages == map[m := Message(Some(ws), text)]
    && s.jobs == map[m := Q.Processing] && s.held == {m} && s.loaded == map[m := text]
  }

  lemma LoadedAlone(m: Id, ws: Id, text: Text, c: Settings)
    ensures var sent := Next(LinkJobs.EMPTY, Step.Send(m, Some(ws), text, true), c);
      IsLoadedAlone(Next(Next(sent, Step.Claim(m), c), Step.Load(m), c), m, ws, text)
  {
    var sent := Next(LinkJobs.EMPTY, Step.Send(m, Some(ws), text, true), c);
    assert sent.jobs == map[m := Q.Pending] && sent.messages == map[m := Message(Some(ws), text)];
  }

  lemma EditThenFinish(s: State, m: Id, ws: Id, before: Text, after: Text, c: Settings)
    requires IsLoadedAlone(s, m, ws, before)
    ensures var s' := Next(Next(s, Step.Edit(m, after, true), c), Step.Finish(m), c);
      && s'.tables == Link(LinkJobs.EMPTY.tables, m, ws, EntityNames(before, c.lower))
      && s'.messages == map[m := Message(Some(ws), after)]
      && s'.jobs == map[m := Q.Completed]
  {
    hide Link, EntityNames;
  }

  lemma RunSnoc(steps: seq<Step>, step: Step, c: Settings)
    ensures Run(steps + [step], c) == Next(Run(steps, c), step, c)
  {
    assert (steps + [step])[..|steps|] == steps;
  }

  lemma RunFive(p: Step, q: Step, r: Step, s: Step, t: Step, c: Settings)
    ensures Run([p, q, r, s, t], c) == Next(Next(Next(Next(Next(LinkJobs.EMPTY, p, c), q, c), r, c), s, c), t, c)
  {
    assert Run([], c) == LinkJobs.EMPTY;
    hide Run, Next;
    RunSnoc([], p, c);
    RunSnoc([p], q, c);
    RunSnoc([p, q], r, c);
    RunSnoc([p, q, r], s, c);
    RunSnoc([p, q, r, s], t, c);
    assert [] + [p] == [p] && [p] + [q] == [p, q] && [p, q] + [r] == [p, q, r];
    assert [p, q, r] + [s] == [p, q, r, s] && [p, q, r, s] + [t] == [p, q, r, s, t];
  }

  // ------------------------------------------------- entities made from names alone

  ghost predicate MadeFrom(entities: map<Id, Entity>, ws: Id, names: set<Text>) {
    forall id :: id in entities ==>
      entities[id].workspaceId == ws && entities[id].aliases == [] && entities[id].normalized in names
  }

  lemma MadeOne(t: Tables, ws: Id, name: EntityName, names: set<Text>)
    requires MadeFrom(t.entities, ws, names) && name.normalized in names
    ensures MadeFrom(FindOrCreate(t, ws, name).0.entities, ws, names)
  {
  }

  lemma {:induction false} MadeAll(t: Tables, ws: Id, names: seq<EntityName>, all: set<Text>)
    requires MadeFrom(t.entities, ws, all) && NormalizedIn(names) <= all
    ensures MadeFrom(ResolveAll(t, ws, names).0.entities, ws, all)
  {
    hide FindOrCreate, MadeFrom;
    if names == [] {
    } else {
      var n := |names| - 1;
      assert names == names[..n] + [names[n]];
      NormalizedInSnoc(names[..n], names[n]);
      MadeAll(t, ws, names[..n], all);
      MadeOne(ResolveAll(t, ws, names[..n]).0, ws, names[n], all);
    }
  }

  /** Among such entities a name resolves only if it is one of those. */
  lemma ResolvesOnly(entities: map<Id, Entity>, ws: Id, names: set<Text>, name: Text, id: Id)
    requires MadeFrom(entities, ws, names) && Resolves(entities, ws, name, id)
    ensures name in names && entities[id].normalized == name
  {
  }

  lemma MeantBy(entities: map<Id, Entity>, ws: Id, names: seq<EntityName>, id: Id)
    ensures id in Meant(entities, ws, names) <==> exists n :: n in NormalizedIn(names) && Resolves(entities, ws, n, id)
  {
    hide Resolves;
    if n :| n in NormalizedIn(names) && Resolves(entities, ws, n, id) {
      var i :| 0 <= i < |names| && names[i].normalized == n;
      assert Resolves(entities, ws, names[i].normalized, id);
      assert id in entities by { Defined(entities, ws, n, id); }
    }
    if id in Meant(entities, ws, names) {
      var i :| 0 <= i < |names| && Resolves(entities, ws, names[i].normalized, id);
      assert names[i].normalized in NormalizedIn(names);
    }
  }

  lemma Defined(entities: map<Id, Entity>, ws: Id, name: Text, id: Id)
    requires Resolves(entities, ws, name, id)
    ensures id in entities
  {
  }

  // -------------------------------------------------------------- the exact condition

  /** The message's links are what the names of its present text mean, each an entity. */
  ghost predicate IsCurrent(s: State, m: Id, c: Settings)
    requires m in s.messages && s.messages[m].workspaceId.Some?
  {
    var ws, names := s.messages[m].workspaceId.value, EntityNames(s.messages[m].content, c.lower);
    && LinksOf(s.tables.links, m) == Meant(s.tables.entities, ws, names)
    && forall n :: n in NormalizedIn(names) ==> Find(s.tables.entities, ws, n).Some?
  }

  lemma CurrentIffSame(entities: map<Id, Entity>, ws: Id, before: seq<EntityName>, after: seq<EntityName>)
    requires MadeFrom(entities, ws, NormalizedIn(before))
    requires forall n :: n in NormalizedIn(before) ==> Find(entities, ws, n).Some?
    ensures Meant(entities, ws, before) == Meant(entities, ws, after) && (forall n :: n in NormalizedIn(after) ==> Find(entities, ws, n).Some?)
            <==> NormalizedIn(before) == NormalizedIn(after)
  {
    hide Meant, NormalizedIn, MadeFrom, Resolves;
    if NormalizedIn(before) == NormalizedIn(after) {
      forall id ensures id in Meant(entities, ws, before) <==> id in Meant(entities, ws, after) {
        MeantBy(entities, ws, before, id);
        MeantBy(entities, ws, after, id);
      }
    }
    if Meant(entities, ws, before) == Meant(entities, ws, after) && forall n :: n in NormalizedIn(after) ==> Find(entities, ws, n).Some? {
      forall n | n in NormalizedIn(after) ensures n in NormalizedIn(before) {
        ResolvesOnly(entities, ws, NormalizedIn(before), n, Find(entities, ws, n).value);
      }
      forall n | n in NormalizedIn(before) ensures n in NormalizedIn(after) {
        var id := Find(entities, ws, n).value;
        MeantBy(entities, ws, before, id);
        MeantBy(entities, ws, after, id);
        var k :| k in NormalizedIn(after) && Resolves(entities, ws, k, id);
        ResolvesOnly(entities, ws, NormalizedIn(before), n, id);
        ResolvesOnly(entities, ws, NormalizedIn(before), k, id);
      }
    }
  }

  lemma FoundByName(entities: map<Id, Entity>, ws: Id, names: seq<EntityName>)
    requires forall i :: 0 <= i < |names| ==> Find(entities, ws, names[i].normalized).Some?
    ensures forall n :: n in NormalizedIn(names) ==> Find(entities, ws, n).Some?
  {
  }

  /** The job is completed and the edit was enqueued, yet the links are those of the text
      before; they fit the present text if and only if both texts name the same names. */
  lemma LostEditIffNewNames(m: Id, ws: Id, before: Text, after: Text, c: Settings)
    ensures var s := Run(LostRun(m, ws, before, after), c);
      && Is(s, m, Q.Completed) && s.messages == map[m := Message(Some(ws), after)]
      && LinksOf(s.tables.links, m) == Meant(s.tables.entities, ws, EntityNames(before, c.lower))
      && (IsCurrent(s, m, c) <==> NormalizedIn(EntityNames(before, c.lower)) == NormalizedIn(EntityNames(after, c.lower)))
  {
    LostRunEnds(m, ws, before, after, c);
    var t, names := LinkJobs.EMPTY.tables, EntityNames(before, c.lower);
    var t' := Link(t, m, ws, names);
    MadeAll(t, ws, names, NormalizedIn(names));
    LinkReconciles(t, m, ws, names);
    hide Run, LostRun, EntityNames, Meant, LinksOf, Find, MadeFrom, Resolves, ResolveAll, NormalizedIn;
    FoundByName(t'.entities, ws, names);
    hide Link;
    CurrentIffSame(t'.entities, ws, names, EntityNames(after, c.lower));
  }

  // ------------------------------------------------------------------- an instance

  const BRACKETED_A: Text := [LBRACKET, LBRACKET, 0x61, RBRACKET, RBRACKET]

  /** `[[a]]` names the entity `a`, a lone dash names nothing. */
  lemma ExampleNames(lower: Text -> Text)
    requires lower([0x61]) == [0x61]
    ensures NormalizedIn(EntityNames(BRACKETED_A, lower)) == {[0x61]}
    ensures EntityNames([DASH], lower) == []
  {
    ExampleTokens();
    ExampleName(lower);
    hide EntityTokens, NameOf;
    assert [[0x61]][..0] == [];
    assert NamesFrom([[0x61]], lower) == [EntityName([0x61], [0x61])];
  }

  lemma ExampleTokens()
    ensures EntityTokens(BRACKETED_A, 0) == [[0x61]] && EntityTokens([DASH], 0) == []
  {
    assert IsEntityMatch(BRACKETED_A, 0, 3);
    EntityAtExact(BRACKETED_A, 0, 3);
    assert EntityAt([DASH], 0).None?;
    hide EntityAt;
    assert BRACKETED_A[2..3] == [0x61];
    assert EntityTokens(BRACKETED_A, 5) == [] && EntityTokens([DASH], 1) == [];
  }

  lemma ExampleName(lower: Text -> Text)
    requires lower([0x61]) == [0x61]
    ensures NameOf([0x61], lower) == EntityName([0x61], [0x61])
  {
    var a: Text := [0x61];
    assert a[1..] == [] && CollapseSpaces(a) == a;
    assert CanonicalName(a) == a;
  }

  /** `[[a]]`, edited to a dash while its job runs, keeps its link for good. */
  lemma EditedAwayLinkRemains(m: Id, ws: Id, c: Settings)
    requires c.lower([0x61]) == [0x61]
    ensures var s := Run(LostRun(m, ws, BRACKETED_A, [DASH]), c);
      Is(s, m, Q.Completed) && m in s.messages && s.messages[m] == Message(Some(ws), [DASH]) && !IsCurrent(s, m, c)
  {
    ExampleNames(c.lower);
    assert NormalizedIn([]) == {};
    hide Run, LostRun, EntityNames, NormalizedIn, IsCurrent;
    LostEditIffNewNames(m, ws, BRACKETED_A, [DASH], c);
  }
}
