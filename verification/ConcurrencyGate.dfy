/** The gate in front of the language model: at most `maxConcurrent` holders, a bounded
    first-in-first-out queue, waiters that can abort. */
module ConcurrencyGate {
  import opened JsText

  type Id = nat

  datatype Outcome = Granted | Aborted | Refused

  /** What acquireSlot answers at once; `Waiting` is the 1-based queue position. */
  datatype Reply = Settled(outcome: Outcome) | Waiting(position: nat)

  /** `holders` and `outcomes` are history: who was granted a slot and has not released
      it, and how each request's promise was settled. */
  datatype State = State(inFlight: nat, queue: seq<Id>, holders: set<Id>, outcomes: map<Id, Outcome>)

  const EMPTY := State(0, [], {}, map[])

  datatype Limits = Limits(maxConcurrent: nat, queueMaxDepth: nat)

  datatype Step = Acquire(id: Id, aborted: bool) | Abort(id: Id) | Release(id: Id)

  function Without(queue: seq<Id>, id: Id): seq<Id> {
    if queue == [] then []
    else if queue[0] == id then Without(queue[1..], id) else [queue[0]] + Without(queue[1..], id)
  }

  function ReplyTo(s: State, aborted: bool, l: Limits): Reply {
    if aborted then Settled(Aborted)
    else if s.inFlight < l.maxConcurrent then Settled(Granted)
    else if |s.queue| >= l.queueMaxDepth then Settled(Refused)
    else Waiting(|s.queue| + 1)
  }

  predicate IsNew(s: State, id: Id) { id !in s.outcomes && id !in s.queue }

  function DoAcquire(s: State, id: Id, aborted: bool, l: Limits): State {
    match ReplyTo(s, aborted, l)
    case Waiting(_) => s.(queue := s.queue + [id])
    case Settled(Granted) => s.(inFlight := s.inFlight + 1, holders := s.holders + {id}, outcomes := s.outcomes[id := Granted])
    case Settled(o) => s.(outcomes := s.outcomes[id := o])
  }

  /** The abort listener of a waiter; it is detached once the waiter is granted. */
  function DoAbort(s: State, id: Id): State {
    if id !in s.queue then s
    else s.(queue := Without(s.queue, id), outcomes := s.outcomes[id := Aborted])
  }

  /** release(), called by holder `id`: the slot goes to the longest-waiting request. */
  function DoRelease(s: State, id: Id): State {
    if s.queue != [] then
      s.(queue := s.queue[1..], holders := s.holders - {id} + {s.queue[0]}, outcomes := s.outcomes[s.queue[0] := Granted])
    else s.(inFlight := if s.inFlight == 0 then 0 else s.inFlight - 1, holders := s.holders - {id})
  }

  /** A request is made once, and a slot is released by who holds it. */
  predicate Enabled(s: State, step: Step) {
    (step.Acquire? ==> IsNew(s, step.id)) && (step.Release? ==> step.id in s.holders)
  }

  function Next(s: State, step: Step, l: Limits): State {
    if !Enabled(s, step) then s else
    match step
    case Acquire(id, aborted) => DoAcquire(s, id, aborted, l)
    case Abort(id) => DoAbort(s, id)
    case Release(id) => DoRelease(s, id)
  }

  function Run(s: State, steps: seq<Step>, l: Limits): State {
    if steps == [] then s else Next(Run(s, steps[..|steps| - 1], l), steps[|steps| - 1], l)
  }

  /** A call that comes when a slot is free has it at once; when none is, it waits at the end of
      the queue or is refused because that is full; an aborted call never waits. */
  lemma AcquireExactly(s: State, id: Id, aborted: bool, l: Limits)
    requires IsNew(s, id)
    ensures var t, reply := Next(s, Acquire(id, aborted), l), ReplyTo(s, aborted, l);
      && (reply == Settled(Granted) <==> !aborted && s.inFlight < l.maxConcurrent)
      && (reply == Settled(Refused) <==> !aborted && s.inFlight >= l.maxConcurrent && |s.queue| >= l.queueMaxDepth)
      && (reply == Settled(Aborted) <==> aborted)
      && (reply.Waiting? ==> reply.position == |t.queue| && t.queue == s.queue + [id] && t == s.(queue := t.queue))
      && (reply.Settled? ==> t.queue == s.queue && id in t.outcomes && t.outcomes[id] == reply.outcome)
      && (if reply == Settled(Granted) then t.inFlight == s.inFlight + 1 && t.holders == s.holders + {id}
          else t.inFlight == s.inFlight && t.holders == s.holders)
      && (forall k :: k != id ==> (k in t.outcomes <==> k in s.outcomes) && (k in s.outcomes ==> t.outcomes[k] == s.outcomes[k]))
  {
  }

  /** A released slot goes to the first of the queue and to nobody else; with nobody waiting
      it becomes free. */
  lemma ReleaseExactly(s: State, id: Id, l: Limits)
    requires Invariant(s, l) && id in s.holders
    ensures var t := Next(s, Release(id), l);
      && id !in t.holders
      && (if s.queue == [] then
            t.inFlight == s.inFlight - 1 && t.holders == s.holders - {id} && t.queue == [] && t.outcomes == s.outcomes
          else
            && t.inFlight == s.inFlight && t.holders == s.holders - {id} + {s.queue[0]}
            && [s.queue[0]] + t.queue == s.queue && t.outcomes == s.outcomes[s.queue[0] := Granted])
  {
    assert s.holders != {};
    if s.queue != [] { assert s.queue[0] in s.queue; }
  }

  /** An abort takes the waiter out, and no other, and settles it; on anybody else it does
      nothing. */
  lemma AbortExactly(s: State, id: Id, l: Limits)
    requires Invariant(s, l)
    ensures var t := Next(s, Abort(id), l);
      && t.inFlight == s.inFlight && t.holders == s.holders
      && (forall k :: k in t.queue <==> k in s.queue && k != id)
      && t.outcomes == if id in s.queue then s.outcomes[id := Aborted] else s.outcomes
  {
    WithoutKeeps(s.queue, id);
  }

  predicate Distinct(queue: seq<Id>) {
    forall i, j :: 0 <= i < j < |queue| ==> queue[i] != queue[j]
  }

  ghost predicate Invariant(s: State, l: Limits) {
    && s.inFlight == |s.holders| <= l.maxConcurrent
    && (s.queue != [] ==> s.inFlight == l.maxConcurrent)
    && |s.queue| <= l.queueMaxDepth && Distinct(s.queue)
    && (forall id :: id in s.queue ==> id !in s.outcomes)
    && (forall id :: id in s.holders ==> id in s.outcomes && s.outcomes[id] == Granted)
  }

  lemma {:induction false} WithoutKeeps(queue: seq<Id>, id: Id)
    requires Distinct(queue)
    ensures var q := Without(queue, id);
      && Distinct(q) && |q| == |queue| - (if id in queue then 1 else 0)
      && (forall k :: k in q <==> k in queue && k != id)
  {
    if queue == [] {
    } else {
      var rest := queue[1..];
      assert queue == [queue[0]] + rest;
      assert queue[0] !in rest by { assert forall i :: 0 <= i < |rest| ==> rest[i] == queue[i + 1]; }
      WithoutKeeps(rest, id);
      assert queue[0] !in Without(rest, id);
    }
  }

  lemma ReleaseKeeps(s: State, id: Id, l: Limits)
    requires Invariant(s, l) && id in s.holders
    ensures Invariant(DoRelease(s, id), l)
  {
  }

  lemma NextKeeps(s: State, step: Step, l: Limits)
    requires Invariant(s, l)
    ensures Invariant(Next(s, step, l), l)
  {
    if Enabled(s, step) {
      hide Invariant, DoAcquire, DoAbort, DoRelease;
      match step
      case Abort(id) => AbortKeeps(s, id, l);
      case Acquire(id, aborted) => AcquireKeeps(s, id, aborted, l);
      case Release(id) => ReleaseKeeps(s, id, l);
    }
  }

  lemma AcquireKeeps(s: State, id: Id, aborted: bool, l: Limits)
    requires Invariant(s, l) && IsNew(s, id)
    ensures Invariant(DoAcquire(s, id, aborted, l), l)
  {
    assert id !in s.holders;
  }

  lemma AbortKeeps(s: State, id: Id, l: Limits)
    requires Invariant(s, l)
    ensures Invariant(DoAbort(s, id), l)
  {
    WithoutKeeps(s.queue, id);
    hide Without;
  }

  /** After every run: no more holders than slots and none uncounted, no waiter while a
      slot is free, and no request both waiting and settled. */
  lemma {:induction false} RunKeeps(steps: seq<Step>, l: Limits)
    ensures Invariant(Run(EMPTY, steps, l), l)
  {
    if steps == [] {
    } else {
      RunKeeps(steps[..|steps| - 1], l);
      NextKeeps(Run(EMPTY, steps[..|steps| - 1], l), steps[|steps| - 1], l);
    }
  }

  /** Settled once is settled for good: a grant is never taken back, and an aborted or
      refused request never holds a slot. */
  lemma {:induction false} SettlesOnce(s: State, steps: seq<Step>, l: Limits, id: Id)
    requires Invariant(s, l) && id in s.outcomes
    ensures var s' := Run(s, steps, l);
      Invariant(s', l) && id in s'.outcomes && s'.outcomes[id] == s.outcomes[id] && (s.outcomes[id] != Granted ==> id !in s'.holders)
  {
    if steps == [] {
    } else {
      SettlesOnce(s, steps[..|steps| - 1], l, id);
      NextKeeps(Run(s, steps[..|steps| - 1], l), steps[|steps| - 1], l);
    }
  }

  /** The place of a waiter in the queue. */
  function Place(queue: seq<Id>, id: Id): (i: nat)
    requires id in queue
    ensures i < |queue| && queue[i] == id
  {
    if queue[0] == id then 0 else 1 + Place(queue[1..], id)
  }

  lemma PlaceCons(x: Id, rest: seq<Id>, a: Id)
    requires a == x || a in rest
    ensures a in [x] + rest && Place([x] + rest, a) == if a == x then 0 else 1 + Place(rest, a)
  {
    assert ([x] + rest)[1..] == rest;
  }

  /** An abort moves everybody up or leaves them in place, and keeps their order. */
  lemma {:induction false} WithoutOrder(queue: seq<Id>, gone: Id, a: Id, b: Id)
    requires Distinct(queue) && a in queue && b in queue && a != gone && b != gone
    ensures a in Without(queue, gone) && b in Without(queue, gone)
    ensures Place(Without(queue, gone), a) <= Place(queue, a)
    ensures Place(queue, a) < Place(queue, b) <==> Place(Without(queue, gone), a) < Place(Without(queue, gone), b)
  {
    var head, rest := queue[0], queue[1..];
    WithoutKeeps(queue, gone);
    assert queue == [head] + rest;
    assert Distinct(rest) by { assert forall i :: 0 <= i < |rest| ==> rest[i] == queue[i + 1]; }
    var q := Without(rest, gone);
    assert Without(queue, gone) == if head == gone then q else [head] + q;
    WithoutKeeps(rest, gone);
    hide Without, Place, Distinct;
    PlaceCons(head, rest, a);
    PlaceCons(head, rest, b);
    if head != gone {
      PlaceCons(head, q, a);
      PlaceCons(head, q, b);
    }
    if a != head && b != head { WithoutOrder(rest, gone, a, b); }
    else if a != head { WithoutOrder(rest, gone, a, a); }
    else if b != head { WithoutOrder(rest, gone, b, b); }
  }

  /** No barging: a request that arrives while others wait is not granted before them. */
  lemma NoBarging(s: State, id: Id, l: Limits)
    requires Invariant(s, l) && s.queue != []
    ensures ReplyTo(s, false, l) != Settled(Granted)
  {
  }

  predicate Waits(s: State, id: Id) { id in s.queue }

  /** First in, first out: while the earlier of two waiters waits, so does the later one,
      behind it, unless it aborts. */
  lemma NextFifo(s: State, step: Step, l: Limits, a: Id, b: Id)
    requires Invariant(s, l) && Waits(s, a) && Waits(s, b) && Place(s.queue, a) < Place(s.queue, b)
    ensures var s' := Next(s, step, l);
      && (Waits(s', a) && Waits(s', b) ==> Place(s'.queue, a) < Place(s'.queue, b))
      && (Waits(s', a) && !Waits(s', b) ==> step == Abort(b))
  {
    if Enabled(s, step) {
      hide Invariant, Place, DoAcquire, DoAbort, DoRelease, Waits;
      match step
      case Abort(id) => AbortFifo(s, id, l, a, b);
      case Acquire(id, aborted) => AcquireFifo(s, id, aborted, l, a, b);
      case Release(id) => ReleaseFifo(s, id, l, a, b);
    }
  }

  lemma AbortFifo(s: State, id: Id, l: Limits, a: Id, b: Id)
    requires Invariant(s, l) && Waits(s, a) && Waits(s, b) && Place(s.queue, a) < Place(s.queue, b)
    ensures var s' := DoAbort(s, id);
      && (Waits(s', a) && Waits(s', b) ==> Place(s'.queue, a) < Place(s'.queue, b))
      && (Waits(s', a) && !Waits(s', b) ==> id == b)
  {
    WithoutKeeps(s.queue, id);
    if a != id && b != id { WithoutOrder(s.queue, id, a, b); }
    hide Without, Place;
  }

  lemma AcquireFifo(s: State, id: Id, aborted: bool, l: Limits, a: Id, b: Id)
    requires Waits(s, a) && Waits(s, b) && Place(s.queue, a) < Place(s.queue, b)
    ensures var s' := DoAcquire(s, id, aborted, l);
      Waits(s', a) && Waits(s', b) && Place(s'.queue, a) < Place(s'.queue, b)
  {
    PlaceAppend(s.queue, id, a);
    PlaceAppend(s.queue, id, b);
    hide Place;
  }

  lemma ReleaseFifo(s: State, id: Id, l: Limits, a: Id, b: Id)
    requires Invariant(s, l) && Waits(s, a) && Waits(s, b) && Place(s.queue, a) < Place(s.queue, b)
    ensures var s' := DoRelease(s, id);
      && Waits(s', b)
      && (Waits(s', a) ==> Place(s'.queue, a) < Place(s'.queue, b))
  {
    WithoutFirst(s.queue, a, b);
    hide Place, Distinct;
  }

  lemma WithoutFirst(queue: seq<Id>, a: Id, b: Id)
    requires Distinct(queue) && a in queue && b in queue && Place(queue, a) < Place(queue, b)
    ensures b in queue[1..] && (a in queue[1..] ==> Place(queue[1..], a) < Place(queue[1..], b))
  {
    var head, rest := queue[0], queue[1..];
    assert queue == [head] + rest;
    assert head !in rest by { assert forall i :: 0 <= i < |rest| ==> rest[i] == queue[i + 1]; }
    PlaceCons(head, rest, b);
    if a in rest { PlaceCons(head, rest, a); }
    hide Place, Distinct;
  }

  /** Of two waiters the later one is granted a slot only after the earlier is settled. */
  lemma {:induction false} Fifo(s: State, steps: seq<Step>, l: Limits, a: Id, b: Id)
    requires Invariant(s, l) && Waits(s, a) && Waits(s, b) && Place(s.queue, a) < Place(s.queue, b)
    ensures var s' := Run(s, steps, l);
      && Invariant(s', l)
      && (Waits(s', a) && Waits(s', b) ==> Place(s'.queue, a) < Place(s'.queue, b))
      && (!Waits(s', a) ==> a in s'.outcomes) && (!Waits(s', b) ==> b in s'.outcomes)
      && (b in s'.outcomes && s'.outcomes[b] == Granted ==> a in s'.outcomes)
  {
    if steps == [] {
    } else {
      hide Invariant, Next, Place;
      var before, step := steps[..|steps| - 1], steps[|steps| - 1];
      Fifo(s, before, l, a, b);
      var t := Run(s, before, l);
      NextKeeps(t, step, l);
      if Waits(t, a) { NextMovesUp(t, step, l, a); } else { StaysSettled(t, step, l, a); }
      if Waits(t, b) { NextMovesUp(t, step, l, b); } else { StaysSettled(t, step, l, b); }
      if Waits(t, a) && Waits(t, b) {
        NextFifo(t, step, l, a, b);
        AbortOutcome(t, step, l, b);
      }
      WaitersUnsettled(Next(t, step, l), l, a);
      WaitersUnsettled(Next(t, step, l), l, b);
    }
  }

  lemma WaitersUnsettled(s: State, l: Limits, id: Id)
    requires Invariant(s, l)
    ensures Waits(s, id) ==> id !in s.outcomes
  {
  }

  lemma AbortOutcome(s: State, step: Step, l: Limits, id: Id)
    requires Waits(s, id)
    ensures step == Abort(id) ==> id in Next(s, step, l).outcomes && Next(s, step, l).outcomes[id] == Aborted
  {
  }

  lemma {:induction false} PlaceAppend(queue: seq<Id>, id: Id, a: Id)
    requires a in queue
    ensures a in queue + [id] && Place(queue + [id], a) == Place(queue, a)
  {
    if queue[0] != a {
      assert (queue + [id])[1..] == queue[1..] + [id] && queue == [queue[0]] + queue[1..];
      PlaceAppend(queue[1..], id, a);
    }
  }

  /** The releases of a run that reached the gate. */
  function Releases(s: State, steps: seq<Step>, l: Limits): nat {
    if steps == [] then 0 else
    Releases(s, steps[..|steps| - 1], l) +
    if steps[|steps| - 1].Release? && Enabled(Run(s, steps[..|steps| - 1], l), steps[|steps| - 1]) then 1 else 0
  }

  lemma NextMovesUp(s: State, step: Step, l: Limits, id: Id)
    requires Invariant(s, l) && Waits(s, id)
    ensures var s' := Next(s, step, l);
      if Waits(s', id) then
        Place(s'.queue, id) + (if step.Release? && Enabled(s, step) then 1 else 0) <= Place(s.queue, id)
      else id in s'.outcomes
  {
    if Enabled(s, step) {
      match step
      case Abort(gone) =>
        WithoutKeeps(s.queue, gone);
        if gone != id { WithoutOrder(s.queue, gone, id, id); }
      case Acquire(new_, _) => PlaceAppend(s.queue, new_, id);
      case Release(_) => assert s.queue == [s.queue[0]] + s.queue[1..];
    }
  }

  /** A waiter that was told position `p` is settled within `p` releases, whoever arrives,
      aborts or releases in between. */
  lemma {:induction false} SettledWithinPosition(s: State, steps: seq<Step>, l: Limits, id: Id)
    requires Invariant(s, l) && Waits(s, id)
    ensures var s', p := Run(s, steps, l), Place(s.queue, id) + 1;
      && Invariant(s', l)
      && (Waits(s', id) ==> Place(s'.queue, id) + 1 + Releases(s, steps, l) <= p)
      && (!Waits(s', id) ==> id in s'.outcomes)
      && (Releases(s, steps, l) >= p ==> id in s'.outcomes)
  {
    if steps == [] {
    } else {
      hide Invariant, Next, Place;
      var before, step := steps[..|steps| - 1], steps[|steps| - 1];
      SettledWithinPosition(s, before, l, id);
      var t := Run(s, before, l);
      NextKeeps(t, step, l);
      if Waits(t, id) {
        NextMovesUp(t, step, l, id);
      } else {
        StaysSettled(t, step, l, id);
      }
    }
  }

  /** The position that a new waiter is told is its place, so the bound above is about it. */
  lemma AnnouncedPosition(s: State, steps: seq<Step>, l: Limits, id: Id)
    requires Invariant(s, l) && IsNew(s, id) && ReplyTo(s, false, l).Waiting?
    ensures var t, p := Next(s, Acquire(id, false), l), ReplyTo(s, false, l).position;
      && Waits(t, id) && Place(t.queue, id) + 1 == p == |t.queue| <= l.queueMaxDepth
      && (Waits(Run(t, steps, l), id) ==> Place(Run(t, steps, l).queue, id) + 1 + Releases(t, steps, l) <= p)
      && (Releases(t, steps, l) >= p ==> id in Run(t, steps, l).outcomes)
  {
    var t := Next(s, Acquire(id, false), l);
    assert t.queue[|s.queue|] == id;
    NextKeeps(s, Acquire(id, false), l);
    var k := Place(t.queue, id);
    SettledWithinPosition(t, steps, l, id);
  }

  lemma StaysSettled(s: State, step: Step, l: Limits, id: Id)
    requires Invariant(s, l) && id in s.outcomes
    ensures var s' := Next(s, step, l); id in s'.outcomes && s'.outcomes[id] == s.outcomes[id] && !Waits(s', id)
  {
    assert [step][..0] == [];
    SettlesOnce(s, [step], l, id);
  }

  class Gate {
    const limits: Limits
    var inFlight: nat
    var queue: seq<Id>
    ghost var holders: set<Id>
    ghost var outcomes: map<Id, Outcome>

    ghost function Value(): State
      reads this
    {
      State(inFlight, queue, holders, outcomes)
    }

    constructor (limits: Limits)
      ensures Value() == EMPTY && this.limits == limits
    {
      this.limits := limits;
      inFlight := 0;
      queue := [];
      holders := {};
      outcomes := map[];
    }

    method AcquireSlot(id: Id, aborted: bool) returns (reply: Reply)
      requires IsNew(Value(), id)
      modifies this
      ensures reply == ReplyTo(old(Value()), aborted, limits)
      ensures Value() == Next(old(Value()), Acquire(id, aborted), limits)
    {
      if aborted {
        outcomes := outcomes[id := Aborted];
        return Settled(Aborted);
      }
      if inFlight < limits.maxConcurrent {
        inFlight := inFlight + 1;
        holders, outcomes := holders + {id}, outcomes[id := Granted];
        return Settled(Granted);
      }
      if |queue| >= limits.queueMaxDepth {
        outcomes := outcomes[id := Refused];
        return Settled(Refused);
      }
      queue := queue + [id];
      return Waiting(|queue|);
    }

    method OnAbort(id: Id)
      modifies this
      ensures Value() == Next(old(Value()), Abort(id), limits)
    {
      if id in queue {
        queue := Without(queue, id);
        outcomes := outcomes[id := Aborted];
      }
    }

    /** Whose promise is resolved, if anybody's. */
    method ReleaseSlot(ghost holder: Id) returns (next: Option<Id>)
      requires holder in holders
      modifies this
      ensures Value() == Next(old(Value()), Release(holder), limits)
      ensures next == if old(queue) == [] then None else Some(old(queue)[0])
    {
      if queue != [] {
        next := Some(queue[0]);
        holders, outcomes := holders - {holder} + {queue[0]}, outcomes[queue[0] := Granted];
        queue := queue[1..];
        return;
      }
      inFlight := if inFlight == 0 then 0 else inFlight - 1;
      holders := holders - {holder};
      return None;
    }
  }
}
