/** Entities, their aliases and the links from messages to them: every name means at
    most one entity of a workspace, and linking a message is a reconciliation. */
module EntityLinks {
  import opened JsText
  import opened Naming

  type Id = nat

  const MAX_ALIASES := 20
  const MAX_ALIAS_LENGTH := 255

  datatype Entity = Entity(workspaceId: Id, canonical: Text, normalized: Text, aliases: seq<Text>)

  /** The rows of `entities` and `message_entities`; ids from `nextId` on are unused. */
  datatype Tables = Tables(entities: map<Id, Entity>, links: set<(Id, Id)>, nextId: Id)

  predicate HasName(e: Entity, name: Text) { name == e.normalized || name in e.aliases }

  predicate Resolves(entities: map<Id, Entity>, ws: Id, name: Text, id: Id) {
    id in entities && entities[id].workspaceId == ws && HasName(entities[id], name)
  }

  ghost predicate OneEntityPerName(entities: map<Id, Entity>) {
    forall ws, name, i, j :: Resolves(entities, ws, name, i) && Resolves(entities, ws, name, j) ==> i == j
  }

  ghost predicate Valid(t: Tables) {
    OneEntityPerName(t.entities) && forall id :: id in t.entities ==> id < t.nextId
  }

  // ------------------------------------------------------------ find or create

  /** The row that findEntityByName's `.first()` gives. */
  ghost function Find(entities: map<Id, Entity>, ws: Id, name: Text): (r: Option<Id>)
    ensures r.Some? ==> Resolves(entities, ws, name, r.value)
    ensures r.None? ==> forall id :: !Resolves(entities, ws, name, id)
  {
    if id :| Resolves(entities, ws, name, id) then Some(id) else None
  }

  ghost function FindOrCreate(t: Tables, ws: Id, name: EntityName): (r: (Tables, Id))
    ensures Resolves(r.0.entities, ws, name.normalized, r.1)
  {
    match Find(t.entities, ws, name.normalized)
    case Some(id) => (t, id)
    case None =>
      var entity := Entity(ws, name.canonical, name.normalized, []);
      (t.(entities := t.entities[t.nextId := entity], nextId := t.nextId + 1), t.nextId)
  }

  /** The ids of the names, in order, and the tables with what had to be created. */
  ghost function ResolveAll(t: Tables, ws: Id, names: seq<EntityName>): (r: (Tables, seq<Id>))
    ensures |r.1| == |names| && r.0.links == t.links
  {
    if names == [] then (t, []) else
    var before := ResolveAll(t, ws, names[..|names| - 1]);
    var last := FindOrCreate(before.0, ws, names[|names| - 1]);
    (last.0, before.1 + [last.1])
  }

  /** Only links of message `m` to one of `ids` stay, and those to all of `ids` are added. */
  function Unlinked(links: set<(Id, Id)>, m: Id, ids: seq<Id>): set<(Id, Id)> {
    set l | l in links && (l.0 != m || l.1 in ids)
  }

  function Linked(links: set<(Id, Id)>, m: Id, ids: seq<Id>): set<(Id, Id)> {
    Unlinked(links, m, ids) + set id | id in ids :: (m, id)
  }

  ghost function Link(t: Tables, m: Id, ws: Id, names: seq<EntityName>): Tables {
    var r := ResolveAll(t, ws, names);
    r.0.(links := Linked(t.links, m, r.1))
  }

  /** What a link job that throws has done: `stage` names resolved; then the old links
      gone; then the new ones there, only the job's own update missing. */
  ghost function LinkPart(t: Tables, m: Id, ws: Id, names: seq<EntityName>, stage: nat): Tables {
    if stage < |names| then ResolveAll(t, ws, names[..stage]).0 else
    var r := ResolveAll(t, ws, names);
    if stage == |names| then r.0
    else if stage == |names| + 1 then r.0.(links := Unlinked(t.links, m, r.1))
    else Link(t, m, ws, names)
  }

  // ------------------------------------------------------------------- aliases

  datatype AliasError = TooMany | BadAlias | Collision
  datatype AliasResult = Accepted(aliases: seq<Text>) | Rejected(error: AliasError)

  predicate IsAlias(raw: Text) { TrimEnd(TrimStart(raw)) != [] && |raw| <= MAX_ALIAS_LENGTH }

  /** The normalized aliases, each once, in the order given. */
  function DistinctAliases(raws: seq<Text>, lower: Text -> Text): seq<Text> {
    if raws == [] then [] else
    var before, n := DistinctAliases(raws[..|raws| - 1], lower), NormalizeEntityName(raws[|raws| - 1], lower);
    if n == [] || n in before then before else before + [n]
  }

  function AliasNames(raws: seq<Text>, lower: Text -> Text): set<Text> {
    (set raw | raw in raws :: NormalizeEntityName(raw, lower)) - {[]}
  }

  lemma AliasNamesSnoc(raws: seq<Text>, raw: Text, lower: Text -> Text)
    ensures AliasNames(raws + [raw], lower) == AliasNames(raws, lower) + ({NormalizeEntityName(raw, lower)} - {[]})
  {
    hide NormalizeEntityName;
  }

  predicate NoRepeats(names: seq<Text>) {
    forall i, j :: 0 <= i < j < |names| ==> names[i] != names[j]
  }

  /** Every alias of the list, however written, survives exactly once. */
  lemma {:induction false} DistinctAliasesComplete(raws: seq<Text>, lower: Text -> Text)
    ensures (set n | n in DistinctAliases(raws, lower)) == AliasNames(raws, lower)
    ensures NoRepeats(DistinctAliases(raws, lower))
  {
    if raws == [] {
    } else {
      hide NormalizeEntityName, AliasNames;
      var k := |raws| - 1;
      DistinctAliasesComplete(raws[..k], lower);
      AliasNamesSnoc(raws[..k], raws[k], lower);
      assert raws == raws[..k] + [raws[k]];
      var before, n := DistinctAliases(raws[..k], lower), NormalizeEntityName(raws[k], lower);
      assert (set m | m in before + [n]) == (set m | m in before) + {n};
    }
  }

  predicate Collides(entities: map<Id, Entity>, ws: Id, self: Id, aliases: seq<Text>) {
    exists id :: id in entities && entities[id].workspaceId == ws && id != self &&
      (entities[id].normalized in aliases || exists k :: 0 <= k < |entities[id].aliases| && entities[id].aliases[k] in aliases)
  }

  function ValidateAliases(entities: map<Id, Entity>, ws: Id, self: Id, raws: seq<Text>, lower: Text -> Text): AliasResult {
    if |raws| > MAX_ALIASES then Rejected(TooMany)
    else if exists i :: 0 <= i < |raws| && !IsAlias(raws[i]) then Rejected(BadAlias)
    else
      var aliases := DistinctAliases(raws, lower);
      if aliases != [] && Collides(entities, ws, self, aliases) then Rejected(Collision) else Accepted(aliases)
  }

  /** The metadata route's update of one entity's aliases. */
  function PatchAliases(t: Tables, ws: Id, id: Id, raws: seq<Text>, lower: Text -> Text): Tables {
    if id !in t.entities || t.entities[id].workspaceId != ws then t else
    match ValidateAliases(t.entities, ws, id, raws, lower)
    case Rejected(_) => t
    case Accepted(aliases) => t.(entities := t.entities[id := t.entities[id].(aliases := aliases)])
  }

  // -------------------------------------------------------------- the invariant

  lemma FindUnique(entities: map<Id, Entity>, ws: Id, name: Text, id: Id)
    requires OneEntityPerName(entities) && Resolves(entities, ws, name, id)
    ensures Find(entities, ws, name) == Some(id)
  {
  }

  lemma FindOrCreateKeeps(t: Tables, ws: Id, name: EntityName)
    requires Valid(t)
    ensures var t' := FindOrCreate(t, ws, name).0;
      Valid(t') && t'.links == t.links && (forall id :: id in t.entities ==> id in t'.entities && t'.entities[id] == t.entities[id])
  {
    var t' := FindOrCreate(t, ws, name).0;
    forall w: Id, n, i: Id, j: Id | Resolves(t'.entities, w, n, i) && Resolves(t'.entities, w, n, j) ensures i == j {
      assert i < t.nextId ==> Resolves(t.entities, w, n, i);
      assert j < t.nextId ==> Resolves(t.entities, w, n, j);
    }
  }

  /** A name that an entity of the workspace has, as its own or as an alias, finds it and
      creates nothing; another makes one new entity with that name and no alias. */
  lemma FindOrCreateExactly(t: Tables, ws: Id, name: EntityName)
    requires Valid(t)
    ensures var (t', id) := FindOrCreate(t, ws, name);
      if exists k :: Resolves(t.entities, ws, name.normalized, k)
      then t' == t && Resolves(t.entities, ws, name.normalized, id)
      else
        && id !in t.entities && t'.links == t.links
        && t'.entities == t.entities[id := Entity(ws, name.canonical, name.normalized, [])]
  {
  }

  /** At most 20 aliases, and no other entity of the workspace has one of them. */
  ghost predicate IsAcceptable(entities: map<Id, Entity>, ws: Id, self: Id, raws: seq<Text>, lower: Text -> Text) {
    && |raws| <= 20 && (forall raw :: raw in raws ==> IsAlias(raw))
    && forall n, k :: n in AliasNames(raws, lower) && Resolves(entities, ws, n, k) ==> k == self
  }

  /** A list that is acceptable replaces the old one, and no other does. */
  lemma PatchExactly(t: Tables, ws: Id, id: Id, raws: seq<Text>, lower: Text -> Text)
    requires id in t.entities && t.entities[id].workspaceId == ws
    ensures var t' := PatchAliases(t, ws, id, raws, lower);
      if IsAcceptable(t.entities, ws, id, raws, lower) then
        && t'.entities.Keys == t.entities.Keys && t'.links == t.links
        && (forall k :: k in t.entities && k != id ==> t'.entities[k] == t.entities[k])
        && t'.entities[id].(aliases := t.entities[id].aliases) == t.entities[id]
        && (set n | n in t'.entities[id].aliases) == AliasNames(raws, lower) && NoRepeats(t'.entities[id].aliases)
      else t' == t
  {
    var aliases := DistinctAliases(raws, lower);
    DistinctAliasesComplete(raws, lower);
    assert forall n :: n in aliases <==> n in AliasNames(raws, lower) by {
      forall n ensures n in aliases <==> n in AliasNames(raws, lower) {
        assert n in aliases <==> n in set a | a in aliases;
      }
    }
    CollidesIff(t.entities, ws, id, aliases);
    hide DistinctAliases, AliasNames, IsAlias, Collides;
    assert (exists i :: 0 <= i < |raws| && !IsAlias(raws[i])) <==> exists raw :: raw in raws && !IsAlias(raw);
  }

  lemma CollidesIff(entities: map<Id, Entity>, ws: Id, self: Id, aliases: seq<Text>)
    ensures Collides(entities, ws, self, aliases) <==> exists n, k :: n in aliases && Resolves(entities, ws, n, k) && k != self
  {
    if Collides(entities, ws, self, aliases) {
      var k :| k in entities && entities[k].workspaceId == ws && k != self &&
        (entities[k].normalized in aliases || exists j :: 0 <= j < |entities[k].aliases| && entities[k].aliases[j] in aliases);
      if entities[k].normalized in aliases {
        assert Resolves(entities, ws, entities[k].normalized, k);
      } else {
        var j :| 0 <= j < |entities[k].aliases| && entities[k].aliases[j] in aliases;
        assert Resolves(entities, ws, entities[k].aliases[j], k);
      }
    }
    if n, k :| n in aliases && Resolves(entities, ws, n, k) && k != self {
      assert n == entities[k].normalized || exists j :: 0 <= j < |entities[k].aliases| && entities[k].aliases[j] == n;
    }
  }

  /** What an alias has to be: more than white space, and 255 units at most. */
  lemma AliasExactly(raw: Text)
    ensures IsAlias(raw) <==> |raw| <= 255 && exists i :: 0 <= i < |raw| && !IsSpace(raw[i])
  {
    TrimsToNothing(raw);
  }

  lemma TrimsToNothing(t: Text)
    ensures TrimEnd(TrimStart(t)) == [] <==> forall i :: 0 <= i < |t| ==> IsSpace(t[i])
  {
    StartTrims(t);
    EndTrims(TrimStart(t));
  }

  lemma {:induction false} StartTrims(t: Text)
    ensures (forall i :: 0 <= i < |t| ==> IsSpace(t[i])) <==> TrimStart(t) == []
    ensures TrimStart(t) != [] ==> !IsSpace(TrimStart(t)[0])
  {
    if t != [] && IsSpace(t[0]) {
      StartTrims(t[1..]);
      assert forall i :: 1 <= i < |t| ==> t[i] == t[1..][i - 1];
    }
  }

  lemma {:induction false} EndTrims(t: Text)
    ensures t != [] && !IsSpace(t[0]) ==> TrimEnd(t) != []
    ensures t == [] ==> TrimEnd(t) == []
  {
    if t != [] && IsSpace(t[|t| - 1]) { EndTrims(t[..|t| - 1]); }
  }

  /** Linking makes entities for the names that had none and for nothing else. */
  lemma {:induction false} ResolveAllExactly(t: Tables, ws: Id, names: seq<EntityName>, id: Id)
    requires Valid(t) && id in ResolveAll(t, ws, names).0.entities && id !in t.entities
    ensures var e := ResolveAll(t, ws, names).0.entities[id];
      exists i :: 0 <= i < |names| && e == Entity(ws, names[i].canonical, names[i].normalized, [])
    ensures forall k :: !Resolves(t.entities, ws, ResolveAll(t, ws, names).0.entities[id].normalized, k)
  {
    var n := |names| - 1;
    var before := ResolveAll(t, ws, names[..n]).0;
    ResolveAllKeeps(t, ws, names[..n]);
    FindOrCreateExactly(before, ws, names[n]);
    if id in before.entities {
      ResolveAllExactly(t, ws, names[..n], id);
      var i :| 0 <= i < n && before.entities[id] == Entity(ws, names[i].canonical, names[i].normalized, []);
    } else {
      assert forall k :: Resolves(t.entities, ws, names[n].normalized, k) ==> Resolves(before.entities, ws, names[n].normalized, k);
    }
  }

  /** A patch that is accepted takes no name that another entity of the workspace has. */
  lemma PatchKeeps(t: Tables, ws: Id, id: Id, raws: seq<Text>, lower: Text -> Text)
    requires Valid(t)
    ensures Valid(PatchAliases(t, ws, id, raws, lower))
  {
    var t' := PatchAliases(t, ws, id, raws, lower);
    if t' != t {
      var aliases := t'.entities[id].aliases;
      forall w: Id, n, i: Id, j: Id | Resolves(t'.entities, w, n, i) && Resolves(t'.entities, w, n, j) ensures i == j {
        assert i != id ==> Resolves(t.entities, w, n, i);
        assert j != id ==> Resolves(t.entities, w, n, j);
        assert n !in aliases && n == t.entities[id].normalized && w == ws ==> Resolves(t.entities, w, n, id);
      }
    }
  }

  /** Resolving keeps the invariant and every entity there is, and each name has its id. */
  lemma {:induction false} ResolveAllKeeps(t: Tables, ws: Id, names: seq<EntityName>)
    requires Valid(t)
    ensures var r := ResolveAll(t, ws, names);
      && Valid(r.0)
      && (forall id :: id in t.entities ==> id in r.0.entities && r.0.entities[id] == t.entities[id])
      && (forall i :: 0 <= i < |names| ==> Resolves(r.0.entities, ws, names[i].normalized, r.1[i]))
  {
    if names == [] {
    } else {
      hide Valid, FindOrCreate;
      var n := |names| - 1;
      ResolveAllKeeps(t, ws, names[..n]);
      FindOrCreateKeeps(ResolveAll(t, ws, names[..n]).0, ws, names[n]);
    }
  }

  /** The entities of the workspace that one of the names means. */
  ghost function Meant(entities: map<Id, Entity>, ws: Id, names: seq<EntityName>): set<Id> {
    set id | id in entities && exists i :: 0 <= i < |names| && Resolves(entities, ws, names[i].normalized, id)
  }

  function LinksOf(links: set<(Id, Id)>, m: Id): set<Id> { set l | l in links && l.0 == m :: l.1 }

  lemma LinkedLinks(links: set<(Id, Id)>, m: Id, ids: seq<Id>)
    ensures LinksOf(Linked(links, m, ids), m) == set id | id in ids
    ensures forall k :: k != m ==> LinksOf(Linked(links, m, ids), k) == LinksOf(links, k)
    ensures forall k :: k != m ==> LinksOf(Unlinked(links, m, ids), k) == LinksOf(links, k)
  {
    forall id ensures id in LinksOf(Linked(links, m, ids), m) <==> id in ids {
      assert id in ids ==> (m, id) in Linked(links, m, ids);
    }
    forall k | k != m
      ensures LinksOf(Linked(links, m, ids), k) == LinksOf(links, k) == LinksOf(Unlinked(links, m, ids), k)
    {
      assert forall l: (Id, Id) :: l.0 == k ==> (l in Linked(links, m, ids) <==> l in links) && (l in Unlinked(links, m, ids) <==> l in links);
    }
  }

  lemma MeantIds(entities: map<Id, Entity>, ws: Id, names: seq<EntityName>, ids: seq<Id>)
    requires OneEntityPerName(entities) && |ids| == |names|
    requires forall i :: 0 <= i < |names| ==> Resolves(entities, ws, names[i].normalized, ids[i])
    ensures Meant(entities, ws, names) == set id | id in ids
  {
  }

  /** After linking, the message's links are exactly what its names mean, each name means
      one entity, and no other message's links and no entity already there has changed. */
  lemma LinkReconciles(t: Tables, m: Id, ws: Id, names: seq<EntityName>)
    requires Valid(t)
    ensures var t' := Link(t, m, ws, names);
      && Valid(t')
      && LinksOf(t'.links, m) == Meant(t'.entities, ws, names)
      && (forall i :: 0 <= i < |names| ==> Find(t'.entities, ws, names[i].normalized).Some?)
      && (forall k :: k != m ==> LinksOf(t'.links, k) == LinksOf(t.links, k))
      && (forall id :: id in t.entities ==> id in t'.entities && t'.entities[id] == t.entities[id])
  {
    hide Resolves, Meant, LinksOf, Linked;
    var r := ResolveAll(t, ws, names);
    ResolveAllKeeps(t, ws, names);
    MeantIds(r.0.entities, ws, names, r.1);
    forall i | 0 <= i < |names| ensures Find(r.0.entities, ws, names[i].normalized).Some? {
      assert Resolves(r.0.entities, ws, names[i].normalized, r.1[i]);
    }
    LinkedLinks(t.links, m, r.1);
  }

  lemma {:induction false} ResolveAgain(t: Tables, ws: Id, names: seq<EntityName>, ids: seq<Id>)
    requires OneEntityPerName(t.entities) && |ids| == |names|
    requires forall i :: 0 <= i < |names| ==> Resolves(t.entities, ws, names[i].normalized, ids[i])
    ensures ResolveAll(t, ws, names) == (t, ids)
  {
    if names == [] {
    } else {
      hide Resolves, OneEntityPerName;
      var n := |names| - 1;
      ResolveAgain(t, ws, names[..n], ids[..n]);
      FindUnique(t.entities, ws, names[n].normalized, ids[n]);
      assert ids[..n] + [ids[n]] == ids;
    }
  }

  /** Running the job again changes nothing. */
  lemma LinkIdempotent(t: Tables, m: Id, ws: Id, names: seq<EntityName>)
    requires Valid(t)
    ensures Link(Link(t, m, ws, names), m, ws, names) == Link(t, m, ws, names)
  {
    hide Resolves;
    var r := ResolveAll(t, ws, names);
    ResolveAllKeeps(t, ws, names);
    var t' := Link(t, m, ws, names);
    ResolveAgain(t', ws, names, r.1);
    assert Linked(Linked(t.links, m, r.1), m, r.1) == Linked(t.links, m, r.1);
  }

  /** A job that throws half way keeps the invariant and leaves other messages alone. */
  lemma LinkPartKeeps(t: Tables, m: Id, ws: Id, names: seq<EntityName>, stage: nat)
    requires Valid(t)
    ensures var t' := LinkPart(t, m, ws, names, stage);
      Valid(t') && forall k :: k != m ==> LinksOf(t'.links, k) == LinksOf(t.links, k)
  {
    hide Resolves, LinksOf, Linked, Unlinked, Meant;
    if stage < |names| {
      ResolveAllKeeps(t, ws, names[..stage]);
    } else {
      ResolveAllKeeps(t, ws, names);
      LinkedLinks(t.links, m, ResolveAll(t, ws, names).1);
      LinkReconciles(t, m, ws, names);
    }
  }

  /** How far such a job has come: so many names resolved with the links as they were; then
      the links that are no longer meant gone; then the links that are meant. */
  lemma LinkPartExactly(t: Tables, m: Id, ws: Id, names: seq<EntityName>, stage: nat, i: nat)
    requires Valid(t)
    ensures stage <= |names| ==> LinkPart(t, m, ws, names, stage).links == t.links
    ensures i < stage && i < |names| ==>
              exists id :: Resolves(LinkPart(t, m, ws, names, stage).entities, ws, names[i].normalized, id)
    ensures var t' := LinkPart(t, m, ws, names, stage);
      stage == |names| + 1 ==> LinksOf(t'.links, m) == LinksOf(t.links, m) * Meant(t'.entities, ws, names)
    ensures var t' := LinkPart(t, m, ws, names, stage);
      stage > |names| + 1 ==> LinksOf(t'.links, m) == Meant(t'.entities, ws, names)
  {
    hide Resolves, Meant, LinksOf, Linked, Unlinked;
    if stage < |names| {
      ResolveAllKeeps(t, ws, names[..stage]);
      assert i < stage ==> names[..stage][i] == names[i];
    } else {
      var r := ResolveAll(t, ws, names);
      ResolveAllKeeps(t, ws, names);
      MeantIds(r.0.entities, ws, names, r.1);
      LinkReconciles(t, m, ws, names);
      UnlinkedLinks(t.links, m, r.1);
      assert LinkPart(t, m, ws, names, stage).entities == r.0.entities;
      assert i < |names| ==> Resolves(r.0.entities, ws, names[i].normalized, r.1[i]);
    }
  }

  lemma UnlinkedLinks(links: set<(Id, Id)>, m: Id, ids: seq<Id>)
    ensures LinksOf(Unlinked(links, m, ids), m) == LinksOf(links, m) * set id | id in ids
  {
    forall id ensures id in LinksOf(Unlinked(links, m, ids), m) <==> id in LinksOf(links, m) && id in ids {
      assert (m, id) in Unlinked(links, m, ids) <==> (m, id) in links && id in ids;
    }
  }

  /** The answer names the first thing wrong with a list: its length, an entry, a collision. */
  lemma AliasErrorsExactly(entities: map<Id, Entity>, ws: Id, self: Id, raws: seq<Text>, lower: Text -> Text)
    ensures var r := ValidateAliases(entities, ws, self, raws, lower);
      && (r == Rejected(TooMany) <==> |raws| > 20)
      && (r == Rejected(BadAlias) <==> |raws| <= 20 && exists raw :: raw in raws && !IsAlias(raw))
      && (r.Accepted? <==> IsAcceptable(entities, ws, self, raws, lower))
      && (r.Accepted? ==> (set n | n in r.aliases) == AliasNames(raws, lower) && NoRepeats(r.aliases))
      && (r == Rejected(Collision) ==> exists n, k :: n in AliasNames(raws, lower) && Resolves(entities, ws, n, k) && k != self)
  {
    var aliases := DistinctAliases(raws, lower);
    DistinctAliasesComplete(raws, lower);
    assert forall n :: n in aliases <==> n in AliasNames(raws, lower) by {
      forall n ensures n in aliases <==> n in AliasNames(raws, lower) { assert n in aliases <==> n in set a | a in aliases; }
    }
    CollidesIff(entities, ws, self, aliases);
    hide DistinctAliases, AliasNames, IsAlias, Collides, Resolves;
    assert (exists i :: 0 <= i < |raws| && !IsAlias(raws[i])) <==> exists raw :: raw in raws && !IsAlias(raw);
  }

  // ----------------------------------------------------------- the statements

  class EntityStore {
    var tables: Tables

    constructor ()
      ensures tables == Tables(map[], {}, 0) && Valid(tables)
    {
      tables := Tables(map[], {}, 0);
    }

    method FindOrCreateEntity(ws: Id, name: EntityName) returns (id: Id)
      requires Valid(tables)
      modifies this
      ensures (tables, id) == FindOrCreate(old(tables), ws, name)
    {
      hide OneEntityPerName;
      if i :| i in tables.entities && Resolves(tables.entities, ws, name.normalized, i) {
        FindUnique(tables.entities, ws, name.normalized, i);
        return i;
      }
      id := tables.nextId;
      tables := tables.(entities := tables.entities[id := Entity(ws, name.canonical, name.normalized, [])], nextId := id + 1);
    }

    /** linkMessageEntities on the names of a content, in a message of workspace `ws`. */
    method LinkMessageEntities(m: Id, ws: Id, extracted: seq<EntityName>)
      requires Valid(tables)
      modifies this
      ensures tables == Link(old(tables), m, ws, extracted)
    {
      hide Valid, FindOrCreate;
      var resolved: seq<Id> := [];
      if |extracted| == 0 {
        tables := tables.(links := Unlinked(tables.links, m, []));
        return;
      }
      assert extracted[..|extracted|] == extracted;
      for i := 0 to |extracted|
        invariant Valid(tables) && (tables, resolved) == ResolveAll(old(tables), ws, extracted[..i])
      {
        FindOrCreateKeeps(tables, ws, extracted[i]);
        var id := FindOrCreateEntity(ws, extracted[i]);
        resolved := resolved + [id];
        assert extracted[..i + 1][..i] == extracted[..i];
      }
      tables := tables.(links := Unlinked(tables.links, m, resolved));
      tables := tables.(links := tables.links + set id | id in resolved :: (m, id));
    }

    method NormalizeAndValidateAliases(ws: Id, entityId: Id, aliases: seq<Text>, lower: Text -> Text) returns (r: AliasResult)
      ensures r == ValidateAliases(tables.entities, ws, entityId, aliases, lower)
    {
      hide NormalizeEntityName, IsAlias, Collides;
      if |aliases| > MAX_ALIASES { return Rejected(TooMany); }
      var normalizedAliases: seq<Text> := [];
      assert aliases[..|aliases|] == aliases;
      for i := 0 to |aliases|
        invariant normalizedAliases == DistinctAliases(aliases[..i], lower)
        invariant forall k :: 0 <= k < i ==> IsAlias(aliases[k])
      {
        if !IsAlias(aliases[i]) { return Rejected(BadAlias); }
        var normalized := NormalizeEntityName(aliases[i], lower);
        assert aliases[..i + 1][..i] == aliases[..i];
        if normalized == [] || normalized in normalizedAliases { continue; }
        normalizedAliases := normalizedAliases + [normalized];
      }
      if |normalizedAliases| == 0 { return Accepted([]); }
      if Collides(tables.entities, ws, entityId, normalizedAliases) { return Rejected(Collision); }
      return Accepted(normalizedAliases);
    }
  }
}
