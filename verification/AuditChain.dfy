/** The audit log's rows: what is hashed for an event, and what a verified chain
    of them commits to. SHA-256 is a parameter `h`. */
module AuditChain {
  import opened JsText
  import opened Json
  import opened CanonicalText
  import opened HashChain

  type Hash = Text -> Text

  /** What a caller asks to record; an absent payload is null. */
  datatype Event = Event(actorId: Text, actorIp: Text, actionType: Text, target: Option<Text>, payload: Json)

  function HashedRecord(e: Event): Json {
    Obj(Field(Lit("actorId"), Str(e.actorId),
        Field(Lit("actorIp"), Str(e.actorIp),
        Field(Lit("actionType"), Str(e.actionType),
        Field(Lit("targetResource"), if e.target.Some? then Str(e.target.value) else Null,
        Field(Lit("payload"), e.payload, NoFields))))))
  }

  function HashInput(prev: Text, e: Event): Text {
    prev + CanonicalJSONStringify(HashedRecord(e))
  }

  function ComputeRowHash(h: Hash): RowHash<Event> {
    (prev: Text, e: Event) => h(HashInput(prev, e))
  }

  /** The events are the same record, payload keys in any order. */
  predicate SameEvent(e: Event, f: Event) {
    e.(payload := Null) == f.(payload := Null) && SameUpToKeyOrder(e.payload, f.payload)
  }

  lemma RecordKeysDistinct()
    ensures Lit("actorId") != Lit("actorIp") && Lit("actorId") != Lit("payload") && Lit("actorIp") != Lit("payload")
    ensures |Lit("actorId")| == |Lit("actorIp")| == |Lit("payload")| == 7
    ensures |Lit("actionType")| == 10 && |Lit("targetResource")| == 14
  {
    assert |Lit("actionType")| == 10 && |Lit("targetResource")| == 14;
    assert |Lit("actorId")| == |Lit("actorIp")| == |Lit("payload")| == 7;
    assert Lit("actorId")[6] == 'd' as int && Lit("actorIp")[6] == 'p' as int && Lit("payload")[0] == 'p' as int;
    assert Lit("actorId")[0] == 'a' as int && Lit("actorIp")[0] == 'a' as int;
  }

  /** What is hashed: the previous hash, then the canonical text of an object with these five
      members. */
  lemma HashedExactly(h: Hash, prev: Text, e: Event)
    requires Valid(e.payload)
    ensures var record := HashedRecord(e);
      && ComputeRowHash(h)(prev, e) == h(prev + CanonicalJSONStringify(record))
      && record.Obj? && Valid(record)
      && FieldMap(record.fields) ==
         map[Lit("actorId") := Str(e.actorId), Lit("actorIp") := Str(e.actorIp), Lit("actionType") := Str(e.actionType),
             Lit("targetResource") := if e.target.Some? then Str(e.target.value) else Null, Lit("payload") := e.payload]
  {
    RecordKeysDistinct();
    RecordValid(e);
    assert HashInput(prev, e) == prev + CanonicalJSONStringify(HashedRecord(e));
    hide Lit, CanonicalJSONStringify, Valid;
    var f := HashedRecord(e).fields;
    assert FieldMap(f.rest.rest.rest.rest) == map[Lit("payload") := e.payload];
    assert FieldMap(f.rest.rest) == FieldMap(f.rest.rest.rest)[Lit("actionType") := Str(e.actionType)];
    assert FieldMap(f) == FieldMap(f.rest)[Lit("actorId") := Str(e.actorId)];
  }

  lemma RecordValid(e: Event)
    requires Valid(e.payload)
    ensures Valid(HashedRecord(e))
  {
    RecordKeysDistinct();
    var f5 := Field(Lit("payload"), e.payload, NoFields);
    assert Keys(f5) == Keys(NoFields) + {Lit("payload")} == {Lit("payload")} && ValidFields(f5);
    var f4 := HashedRecord(e).fields.rest.rest.rest;
    assert Keys(f4) == Keys(f5) + {Lit("targetResource")} && ValidFields(f4);
    var f3 := HashedRecord(e).fields.rest.rest;
    assert Keys(f3) == Keys(f4) + {Lit("actionType")} && ValidFields(f3);
    var f2 := HashedRecord(e).fields.rest;
    assert Keys(f2) == Keys(f3) + {Lit("actorIp")} && ValidFields(f2);
  }

  /** The records hashed for two events are the same up to key order exactly when the events are. */
  lemma RecordSameIffEventSame(d: Event, e: Event)
    requires Valid(d.payload) && Valid(e.payload)
    ensures SameUpToKeyOrder(HashedRecord(d), HashedRecord(e)) <==> SameEvent(d, e)
  {
    RecordValid(d);
    var f, g := HashedRecord(d).fields, HashedRecord(e).fields;
    var f3, g3 := f.rest.rest, g.rest.rest;
    var f5, g5 := f3.rest.rest, g3.rest.rest;
    assert Keys(f5) == Keys(g5) && SameKeyList(f5, g5);
    assert SameFieldList(f5, g5) <==> SameUpToKeyOrder(d.payload, e.payload);
    assert Keys(f3) == Keys(g3) && SameKeyList(f3, g3);
    assert SameFieldList(f3, g3) <==> d.actionType == e.actionType && d.target == e.target && SameFieldList(f5, g5);
    WithinIffSameFieldList(f, g);
  }

  lemma RecordTextEqualIffEventSame(d: Event, e: Event)
    requires Valid(d.payload) && Valid(e.payload)
    ensures CanonicalJSONStringify(HashedRecord(d)) == CanonicalJSONStringify(HashedRecord(e)) <==> SameEvent(d, e)
  {
    RecordValid(d);
    RecordValid(e);
    RecordSameIffEventSame(d, e);
    StringifyEqualIffSame(HashedRecord(d), HashedRecord(e));
  }

  predicate ValidPayloads(rows: seq<Row<Event>>) {
    forall r :: r in rows ==> Valid(r.event.payload)
  }

  /** The texts hashed by the rows of a table. */
  function Inputs(rows: seq<Row<Event>>): set<Text> {
    set r | r in rows :: HashInput(r.prev, r.event)
  }

  /** 64 characters out, no collision among the texts in `s` and none of them
      hashed to the genesis value: SHA-256 as far as `s` can tell. */
  ghost predicate Faithful(h: Hash, s: set<Text>) {
    && (forall x, y :: x in s && y in s && h(x) == h(y) ==> x == y)
    && (forall x :: x in s ==> |h(x)| == 64 && h(x) != GENESIS_HASH)
  }

  lemma PredecessorLength(h: Hash, rows: seq<Row<Event>>, s: set<Text>, r: Row<Event>)
    requires Linked(ComputeRowHash(h), rows) && Inputs(rows) <= s && Faithful(h, s) && r in rows
    ensures |r.prev| == 64
  {
    var i :| 0 <= i < |rows| && rows[i] == r;
    assert RowLinked(ComputeRowHash(h), rows, GENESIS_HASH, i);
    if i > 0 {
      var p := rows[i - 1];
      assert RowLinked(ComputeRowHash(h), rows, GENESIS_HASH, i - 1);
      assert HashInput(p.prev, p.event) in Inputs(rows);
    }
  }

  lemma InputSplits(p: Text, d: Event, q: Text, e: Event)
    requires |p| == |q| && HashInput(p, d) == HashInput(q, e)
    requires Valid(d.payload) && Valid(e.payload)
    ensures p == q && SameEvent(d, e)
  {
    var x, y := CanonicalJSONStringify(HashedRecord(d)), CanonicalJSONStringify(HashedRecord(e));
    assert p == (p + x)[..|p|] && q == (q + y)[..|q|];
    assert x == (p + x)[|p|..] && y == (q + y)[|q|..];
    RecordTextEqualIffEventSame(d, e);
  }

  lemma FaithfulIsBinding(h: Hash, a: seq<Row<Event>>, b: seq<Row<Event>>)
    requires Linked(ComputeRowHash(h), a) && Linked(ComputeRowHash(h), b)
    requires ValidPayloads(a) && ValidPayloads(b) && Faithful(h, Inputs(a) + Inputs(b))
    ensures Binding(ComputeRowHash(h), SameEvent, a, b)
  {
    var s := Inputs(a) + Inputs(b);
    forall r | r in a || r in b
      ensures HashInput(r.prev, r.event) in s && |r.prev| == 64
    {
      if r in a { PredecessorLength(h, a, s, r); } else { PredecessorLength(h, b, s, r); }
    }
    forall q, r | q in a && r in b && h(HashInput(q.prev, q.event)) == h(HashInput(r.prev, r.event))
      ensures q.prev == r.prev && SameEvent(q.event, r.event)
    {
      InputSplits(q.prev, q.event, r.prev, r.event);
    }
  }

  lemma SameEventSameHash(h: Hash, prev: Text, d: Event, e: Event)
    requires Valid(d.payload) && Valid(e.payload) && SameEvent(d, e)
    ensures ComputeRowHash(h)(prev, d) == ComputeRowHash(h)(prev, e)
  {
    RecordTextEqualIffEventSame(d, e);
    assert HashInput(prev, d) == HashInput(prev, e);
  }

  /** The same events, whatever ids and key orders they were stored with, give
      the same head hash. No assumption on the hash. */
  lemma {:induction false} SameLogSameHead(h: Hash, a: seq<Row<Event>>, b: seq<Row<Event>>)
    requires Linked(ComputeRowHash(h), a) && Linked(ComputeRowHash(h), b)
    requires ValidPayloads(a) && ValidPayloads(b) && SameLog(SameEvent, a, b)
    ensures HeadHash(a) == HeadHash(b)
    decreases |a|
  {
    if a == [] {
    } else {
      hide Linked, SameEvent, ComputeRowHash, Valid;
      var m := |a| - 1;
      LinkedPrefix(ComputeRowHash(h), a, m);
      LinkedPrefix(ComputeRowHash(h), b, m);
      SameLogSameHead(h, a[..m], b[..m]);
      LastLinked(ComputeRowHash(h), a);
      LastLinked(ComputeRowHash(h), b);
      SameEventSameHash(h, a[m].prev, a[m].event, b[m].event);
    }
  }

  /** Two tables that verify have the same head hash exactly when they record the same
      events in the same order. (A table verifies exactly when it is linked.) */
  lemma HeadHashIdentifiesLog(h: Hash, a: seq<Row<Event>>, b: seq<Row<Event>>)
    requires Linked(ComputeRowHash(h), a) && Linked(ComputeRowHash(h), b)
    requires ValidPayloads(a) && ValidPayloads(b) && Faithful(h, Inputs(a) + Inputs(b))
    ensures HeadHash(a) == HeadHash(b) <==> SameLog(SameEvent, a, b)
  {
    if HeadHash(a) == HeadHash(b) {
      FaithfulIsBinding(h, a, b);
      HeadDeterminesLog(ComputeRowHash(h), SameEvent, a, b);
    }
    if SameLog(SameEvent, a, b) {
      SameLogSameHead(h, a, b);
    }
  }

  /** No two rows of a table that verifies name the same predecessor. */
  lemma NoFork(h: Hash, rows: seq<Row<Event>>, i: nat, j: nat)
    requires Linked(ComputeRowHash(h), rows) && ValidPayloads(rows) && Faithful(h, Inputs(rows))
    requires i < j < |rows|
    ensures rows[i].prev != rows[j].prev
  {
    assert Inputs(rows) + Inputs(rows) == Inputs(rows);
    FaithfulIsBinding(h, rows, rows);
    PredecessorsDistinct(ComputeRowHash(h), SameEvent, rows, i, j);
  }
}
