/** Alias patches and entity creations with their check and their write apart, any number
    of them interleaved: which names stay unambiguous, and exactly when all do. */
module EntityRaces {
  import opened JsText
  import opened Naming
  import opened EntityLinks

  /** What a request or job has read and is about to write. */
  datatype Pending = Aliases(ws: Id, id: Id, aliases: seq<Text>) | Creation(ws: Id, name: EntityName)

  datatype State = State(tables: Tables, pending: map<nat, Pending>)

  datatype Step =
    | Validate(r: nat, ws: Id, id: Id, raws: seq<Text>)  // normalizeAndValidateAliases
    | LookUp(r: nat, ws: Id, name: EntityName)            // findEntityByName finds nothing
    | Write(r: nat)                                       // the update, or the insert
    | Abandon(r: nat)

  const EMPTY := State(Tables(map[], {}, 0), map[])

  function WithAliases(t: Tables, id: Id, aliases: seq<Text>): Tables
    requires id in t.entities
  {
    t.(entities := t.entities[id := t.entities[id].(aliases := aliases)])
  }

  /** The unique index on workspace and normalized name has such a row. */
  ghost predicate InIndex(entities: map<Id, Entity>, ws: Id, name: Text) {
    exists id :: id in entities && entities[id].workspaceId == ws && entities[id].normalized == name
  }

  /** INSERT ... ON CONFLICT (workspace_id, normalized_name) DO NOTHING. */
  ghost function Inserted(t: Tables, ws: Id, name: EntityName): Tables {
    if InIndex(t.entities, ws, name.normalized) then t
    else t.(entities := t.entities[t.nextId := Entity(ws, name.canonical, name.normalized, [])], nextId := t.nextId + 1)
  }

  ghost function Written(t: Tables, p: Pending): Tables {
    match p
    case Aliases(ws, id, aliases) =>
      if id in t.entities && t.entities[id].workspaceId == ws then WithAliases(t, id, aliases) else t
    case Creation(ws, name) => Inserted(t, ws, name)
  }

  ghost function Next(s: State, step: Step, lower: Text -> Text): State {
    match step
    case Validate(r, ws, id, raws) =>
      if r in s.pending || id !in s.tables.entities || s.tables.entities[id].workspaceId != ws then s else
      (match ValidateAliases(s.tables.entities, ws, id, raws, lower)
       case Rejected(_) => s
       case Accepted(aliases) => s.(pending := s.pending[r := Aliases(ws, id, aliases)]))
    case LookUp(r, ws, name) =>
      if r in s.pending || Find(s.tables.entities, ws, name.normalized).Some? then s
      else s.(pending := s.pending[r := Creation(ws, name)])
    case Write(r) =>
      if r !in s.pending then s else State(Written(s.tables, s.pending[r]), s.pending - {r})
    case Abandon(r) => s.(pending := s.pending - {r})
  }

  ghost function Run(steps: seq<Step>, lower: Text -> Text): State {
    if steps == [] then EMPTY else Next(Run(steps[..|steps| - 1], lower), steps[|steps| - 1], lower)
  }

  // ------------------------------------------------------- the exact condition

  /** What a late write must not meet: an alias that another entity of the workspace has
      taken since, or a name that has become an alias and so is not in the index. */
  ghost predicate Clashes(t: Tables, p: Pending) {
    match p
    case Aliases(ws, id, aliases) => id in t.entities && t.entities[id].workspaceId == ws && Collides(t.entities, ws, id, aliases)
    case Creation(ws, name) =>
      !InIndex(t.entities, ws, name.normalized) && exists id :: Resolves(t.entities, ws, name.normalized, id)
  }

  /** The validated list written late: names stay unambiguous if and only if it collides
      with no other entity as they are by then. */
  lemma StalePatch(t: Tables, id: Id, aliases: seq<Text>)
    requires OneEntityPerName(t.entities) && id in t.entities
    ensures OneEntityPerName(WithAliases(t, id, aliases).entities) <==>
            !Collides(t.entities, t.entities[id].workspaceId, id, aliases)
  {
    var ws, after := t.entities[id].workspaceId, WithAliases(t, id, aliases).entities;
    if Collides(t.entities, ws, id, aliases) {
      var name, other := CollidingName(t.entities, ws, id, aliases);
      assert Resolves(after, ws, name, id) && Resolves(after, ws, name, other);
    } else {
      forall w: Id, n, i: Id, j: Id | Resolves(after, w, n, i) && Resolves(after, w, n, j) ensures i == j {
        PatchedResolves(t, id, aliases, w, n, i);
        PatchedResolves(t, id, aliases, w, n, j);
      }
    }
  }

  lemma CollidingName(entities: map<Id, Entity>, ws: Id, self: Id, aliases: seq<Text>) returns (name: Text, other: Id)
    requires Collides(entities, ws, self, aliases)
    ensures name in aliases && other != self && Resolves(entities, ws, name, other)
  {
    other :| other in entities && entities[other].workspaceId == ws && other != self &&
      (entities[other].normalized in aliases || exists k :: 0 <= k < |entities[other].aliases| && entities[other].aliases[k] in aliases);
    name := entities[other].normalized;
    if name !in aliases {
      var k :| 0 <= k < |entities[other].aliases| && entities[other].aliases[k] in aliases;
      name := entities[other].aliases[k];
    }
  }

  /** Who resolves after a patch: as before, or the patched entity by a new alias that
      nobody else has. */
  lemma PatchedResolves(t: Tables, id: Id, aliases: seq<Text>, ws: Id, name: Text, i: Id)
    requires id in t.entities && !Collides(t.entities, t.entities[id].workspaceId, id, aliases)
    requires Resolves(WithAliases(t, id, aliases).entities, ws, name, i)
    ensures Resolves(t.entities, ws, name, i) || (i == id && ws == t.entities[id].workspaceId && name in aliases)
    ensures ws == t.entities[id].workspaceId && name in aliases ==> i == id
  {
  }

  /** A late insert: names stay unambiguous if and only if the index has the name, so that
      nothing is inserted, or no entity has taken it as an alias. */
  lemma StaleInsert(t: Tables, ws: Id, name: EntityName)
    requires Valid(t)
    ensures OneEntityPerName(Inserted(t, ws, name).entities) <==> !Clashes(t, Creation(ws, name))
  {
    if !InIndex(t.entities, ws, name.normalized) {
      var after := Inserted(t, ws, name).entities;
      assert Resolves(after, ws, name.normalized, t.nextId);
      if id :| Resolves(t.entities, ws, name.normalized, id) {
        assert Resolves(after, ws, name.normalized, id);
      } else {
        forall w: Id, n, i: Id, j: Id | Resolves(after, w, n, i) && Resolves(after, w, n, j) ensures i == j {
          assert i < t.nextId ==> Resolves(t.entities, w, n, i);
          assert j < t.nextId ==> Resolves(t.entities, w, n, j);
        }
      }
    }
  }

  lemma WriteExactly(t: Tables, p: Pending)
    requires Valid(t)
    ensures OneEntityPerName(Written(t, p).entities) <==> !Clashes(t, p)
  {
    hide OneEntityPerName, Inserted, Collides;
    match p
    case Aliases(ws, id, aliases) =>
      if id in t.entities && t.entities[id].workspaceId == ws { StalePatch(t, id, aliases); }
    case Creation(ws, name) => StaleInsert(t, ws, name);
  }

  // ------------------------------------------------------------------ whole runs

  predicate SameName(e: Entity, f: Entity) { e.workspaceId == f.workspaceId && e.normalized == f.normalized }

  /** What the index guarantees, whatever happens: a canonical name is one entity's. */
  ghost predicate Indexed(t: Tables) {
    && (forall id :: id in t.entities ==> id < t.nextId)
    && (forall i, j :: i in t.entities && j in t.entities && SameName(t.entities[i], t.entities[j]) ==> i == j)
  }

  lemma {:induction false} RunIndexed(steps: seq<Step>, lower: Text -> Text)
    ensures Indexed(Run(steps, lower).tables)
  {
    if steps == [] {
    } else {
      hide ValidateAliases;
      RunIndexed(steps[..|steps| - 1], lower);
    }
  }

  ghost predicate MeetsClash(s: State, step: Step) {
    step.Write? && step.r in s.pending && Clashes(s.tables, s.pending[step.r])
  }

  /** No write of the run met a clash. */
  ghost predicate NeverClashes(steps: seq<Step>, lower: Text -> Text) {
    steps == [] ||
    (var before := steps[..|steps| - 1];
     NeverClashes(before, lower) && !MeetsClash(Run(before, lower), steps[|steps| - 1]))
  }

  /** After every step of the run. */
  ghost predicate AlwaysUnambiguous(steps: seq<Step>, lower: Text -> Text) {
    OneEntityPerName(Run(steps, lower).tables.entities) && (steps == [] || AlwaysUnambiguous(steps[..|steps| - 1], lower))
  }

  lemma NextExactly(s: State, step: Step, lower: Text -> Text)
    requires Valid(s.tables)
    ensures OneEntityPerName(Next(s, step, lower).tables.entities) <==> !MeetsClash(s, step)
  {
    hide OneEntityPerName, Clashes, Written, ValidateAliases, Find;
    if step.Write? && step.r in s.pending { WriteExactly(s.tables, s.pending[step.r]); }
  }

  /** What the statements leave pending: a check that passes puts its write in, and the write,
      or giving up, takes it out; tables change by writes alone. */
  lemma PendingExactly(s: State, r: nat, ws: Id, id: Id, raws: seq<Text>, name: EntityName, lower: Text -> Text)
    ensures var t := Next(s, LookUp(r, ws, name), lower);
      && t.tables == s.tables
      && t.pending == if r in s.pending || exists k :: Resolves(s.tables.entities, ws, name.normalized, k) then s.pending
                      else s.pending[r := Creation(ws, name)]
    ensures var t, entities := Next(s, Validate(r, ws, id, raws), lower), s.tables.entities;
      && t.tables == s.tables
      && (if r !in s.pending && id in entities && entities[id].workspaceId == ws && IsAcceptable(entities, ws, id, raws, lower)
          then
            && r in t.pending && t.pending[r].Aliases? && t.pending[r] == Aliases(ws, id, t.pending[r].aliases)
            && (set n | n in t.pending[r].aliases) == AliasNames(raws, lower) && t.pending - {r} == s.pending
          else t.pending == s.pending)
    ensures var t := Next(s, Write(r), lower);
      t.pending == s.pending - {r} && (r !in s.pending ==> t.tables == s.tables)
    ensures var t := Next(s, Abandon(r), lower);
      t.tables == s.tables && t.pending == s.pending - {r}
  {
    AliasErrorsExactly(s.tables.entities, ws, id, raws, lower);
    hide ValidateAliases, Written, IsAcceptable, AliasNames, IsAlias;
    assert r !in s.pending ==> s.pending - {r} == s.pending;
  }

  /** In any run each name means one entity at every moment if and only if no write meets
      a clash: the statements between a check and its write are all that matters. */
  lemma {:induction false} UnambiguousIffNoClash(steps: seq<Step>, lower: Text -> Text)
    ensures AlwaysUnambiguous(steps, lower) <==> NeverClashes(steps, lower)
  {
    hide OneEntityPerName, Next, MeetsClash;
    if steps == [] {
      EmptyUnambiguous();
    } else {
      var init := steps[..|steps| - 1];
      UnambiguousIffNoClash(init, lower);
      RunIndexed(init, lower);
      var before := Run(init, lower);
      if OneEntityPerName(before.tables.entities) { NextExactly(before, steps[|steps| - 1], lower); }
    }
  }

  lemma EmptyUnambiguous()
    ensures OneEntityPerName(EMPTY.tables.entities)
  {
  }

  /** With nothing in between, check and write are the one step of the other modules. */
  lemma UninterruptedIsAtomic(t: Tables, ws: Id, id: Id, raws: seq<Text>, name: EntityName, lower: Text -> Text)
    requires id in t.entities && t.entities[id].workspaceId == ws
    ensures PatchAliases(t, ws, id, raws, lower) ==
            match ValidateAliases(t.entities, ws, id, raws, lower)
            case Rejected(_) => t
            case Accepted(aliases) => Written(t, Aliases(ws, id, aliases))
    ensures FindOrCreate(t, ws, name).0 ==
            if Find(t.entities, ws, name.normalized).Some? then t else Written(t, Creation(ws, name))
  {
    hide ValidateAliases;
    if InIndex(t.entities, ws, name.normalized) {
      var k :| k in t.entities && t.entities[k].workspaceId == ws && t.entities[k].normalized == name.normalized;
      assert Resolves(t.entities, ws, name.normalized, k);
    }
  }

  // ------------------------------------------------------------ runs that fail

  lemma RunSnoc(steps: seq<Step>, step: Step, lower: Text -> Text)
    ensures Run(steps + [step], lower) == Next(Run(steps, lower), step, lower)
  {
    assert (steps + [step])[..|steps|] == steps;
  }

  /** One alias that no other entity has is accepted. */
  lemma OneAliasAccepted(entities: map<Id, Entity>, ws: Id, self: Id, raw: Text, lower: Text -> Text)
    requires IsAlias(raw) && NormalizeEntityName(raw, lower) != []
    requires !Collides(entities, ws, self, [NormalizeEntityName(raw, lower)])
    ensures ValidateAliases(entities, ws, self, [raw], lower) == Accepted([NormalizeEntityName(raw, lower)])
  {
    hide NormalizeEntityName, Collides;
    assert [raw][..0] == [];
    assert DistinctAliases([raw], lower) == [NormalizeEntityName(raw, lower)];
  }

  function Named(ws: Id, name: EntityName, aliases: seq<Text>): Entity { Entity(ws, name.canonical, name.normalized, aliases) }

  /** A look-up and its insert, of a name that nothing resolves to yet. */
  lemma Creates(steps: seq<Step>, r: nat, ws: Id, name: EntityName, lower: Text -> Text) returns (more: seq<Step>)
    requires var s := Run(steps, lower); r !in s.pending && forall id :: !Resolves(s.tables.entities, ws, name.normalized, id)
    ensures var s := Run(steps, lower);
      Run(more, lower) == s.(tables := s.tables.(
        entities := s.tables.entities[s.tables.nextId := Named(ws, name, [])], nextId := s.tables.nextId + 1))
  {
    var s := Run(steps, lower);
    NothingFound(s.tables.entities, ws, name.normalized);
    hide Run, Resolves, Find, InIndex;
    RunSnoc(steps, LookUp(r, ws, name), lower);
    RunSnoc(steps + [LookUp(r, ws, name)], Write(r), lower);
    more := steps + [LookUp(r, ws, name)] + [Write(r)];
    assert Next(s, LookUp(r, ws, name), lower) == s.(pending := s.pending[r := Creation(ws, name)]);
    assert s.pending[r := Creation(ws, name)] - {r} == s.pending;
  }

  lemma NothingFound(entities: map<Id, Entity>, ws: Id, name: Text)
    requires forall id :: !Resolves(entities, ws, name, id)
    ensures Find(entities, ws, name).None? && !InIndex(entities, ws, name)
  {
    if InIndex(entities, ws, name) {
      var id :| id in entities && entities[id].workspaceId == ws && entities[id].normalized == name;
      assert Resolves(entities, ws, name, id);
    }
  }

  /** From the empty system: two entities, the same alias validated for both, and then
      written for both. Any names and any alias will do. */
  lemma RacingPatches(ws: Id, a: EntityName, b: EntityName, raw: Text, lower: Text -> Text) returns (steps: seq<Step>)
    requires IsAlias(raw) && NormalizeEntityName(raw, lower) != [] && a.normalized != b.normalized
    requires NormalizeEntityName(raw, lower) != a.normalized && NormalizeEntityName(raw, lower) != b.normalized
    ensures var entities, n := Run(steps, lower).tables.entities, NormalizeEntityName(raw, lower);
      Resolves(entities, ws, n, 0) && Resolves(entities, ws, n, 1)
  {
    hide NormalizeEntityName, ValidateAliases, IsAlias;
    var n := NormalizeEntityName(raw, lower);
    steps := Creates([], 0, ws, a, lower);
    assert Run(steps, lower) == State(Tables(map[0 := Named(ws, a, [])], {}, 1), map[]);
    steps := Creates(steps, 0, ws, b, lower);
    var s := Run(steps, lower);
    assert s == State(Tables(map[0 := Named(ws, a, []), 1 := Named(ws, b, [])], {}, 2), map[]);
    OneAliasAccepted(s.tables.entities, ws, 0, raw, lower);
    OneAliasAccepted(s.tables.entities, ws, 1, raw, lower);
    hide Run, Collides;
    RunSnoc(steps, Validate(0, ws, 0, [raw]), lower);
    steps := steps + [Validate(0, ws, 0, [raw])];
    RunSnoc(steps, Validate(1, ws, 1, [raw]), lower);
    steps := steps + [Validate(1, ws, 1, [raw])];
    assert Run(steps, lower) == s.(pending := map[0 := Aliases(ws, 0, [n]), 1 := Aliases(ws, 1, [n])]);
    RunSnoc(steps, Write(0), lower);
    steps := steps + [Write(0)];
    RunSnoc(steps, Write(1), lower);
    steps := steps + [Write(1)];
  }

  /** A name looked up, then taken as an alias, then created all the same: the index does
      not hold aliases. */
  lemma RacingCreation(ws: Id, a: EntityName, b: EntityName, raw: Text, lower: Text -> Text) returns (steps: seq<Step>)
    requires IsAlias(raw) && NormalizeEntityName(raw, lower) == b.normalized != [] && a.normalized != b.normalized
    ensures var entities := Run(steps, lower).tables.entities;
      Resolves(entities, ws, b.normalized, 0) && Resolves(entities, ws, b.normalized, 1)
  {
    hide NormalizeEntityName, ValidateAliases, IsAlias;
    steps := Creates([], 0, ws, a, lower);
    var s := Run(steps, lower);
    assert s == State(Tables(map[0 := Named(ws, a, [])], {}, 1), map[]);
    OneAliasAccepted(s.tables.entities, ws, 0, raw, lower);
    NothingFound(s.tables.entities, ws, b.normalized);
    hide Run, Collides, Find;
    RunSnoc(steps, LookUp(1, ws, b), lower);
    steps := steps + [LookUp(1, ws, b)];
    RunSnoc(steps, Validate(0, ws, 0, [raw]), lower);
    steps := steps + [Validate(0, ws, 0, [raw])];
    assert Run(steps, lower) == s.(pending := map[0 := Aliases(ws, 0, [b.normalized]), 1 := Creation(ws, b)]);
    RunSnoc(steps, Write(0), lower);
    steps := steps + [Write(0)];
    assert Run(steps, lower).tables.entities == map[0 := Named(ws, a, [b.normalized])];
    RunSnoc(steps, Write(1), lower);
    steps := steps + [Write(1)];
  }
}
