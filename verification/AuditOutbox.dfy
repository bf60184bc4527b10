/** The retry outbox of the audit log, statement by statement: an event that was
    enqueued is never in neither table, and is replayed a bounded number of times,
    whichever statements fail, half-fail or are never reached. */
module AuditOutbox {
  import opened JobQueue

  type Id = nat

  datatype Row<E> = Row(event: E, status: Status, attempts: nat)

  /** Where a worker is with a row it claimed. */
  datatype Phase =
    | Claimed    // not yet appended
    | Appended   // appendAuditEvent returned: the row is to be deleted
    | Caught     // something threw: the attempt is to be recorded

  /** The row as the claim returned it, in the hands of a worker. */
  datatype Hold<E> = Hold(worker: nat, event: E, attempts: nat, phase: Phase)

  /** `logs` counts the copies of each enqueued event in audit_logs; `enqueued` is
      history: every event that enqueueAuditRetry inserted. */
  datatype State<E(==)> = State(outbox: map<Id, Row<E>>, held: map<Id, Hold<E>>, logs: multiset<(Id, E)>, enqueued: map<Id, E>)

  /** How a statement ends. `Lost`: it took effect, but its reply never arrived. */
  datatype Reply = Ok | Failure | Lost

  datatype Step<E> =
    | Enqueue(id: Id, event: E)
    | Claim(worker: nat, ids: set<Id>)
    | Append(id: Id, reply: Reply)
    | Delete(id: Id, reply: Reply)
    | Record(id: Id, reply: Reply)
    | Crash(worker: nat)

  function Empty<E>(): State<E> { State(map[], map[], multiset{}, map[]) }

  function Without<E>(held: map<Id, Hold<E>>, worker: nat): map<Id, Hold<E>> {
    map id | id in held && held[id].worker != worker :: held[id]
  }

  function SetPhase<E>(s: State<E>, id: Id, phase: Phase): State<E>
    requires id in s.held
  {
    s.(held := s.held[id := s.held[id].(phase := phase)])
  }

  /** UPDATE ... SET status, attempts WHERE id. */
  function Recorded<E>(outbox: map<Id, Row<E>>, id: Id, attempts: nat, maxAttempts: nat): map<Id, Row<E>> {
    if id !in outbox then outbox
    else outbox[id := outbox[id].(attempts := attempts, status := if attempts >= maxAttempts then Failed else Pending)]
  }

  function DoEnqueue<E>(s: State<E>, id: Id, e: E): State<E> {
    if id in s.enqueued then s
    else s.(outbox := s.outbox[id := Row(e, Pending, 0)], enqueued := s.enqueued[id := e])
  }

  function DoClaim<E>(s: State<E>, w: nat, ids: set<Id>): State<E> {
    if !(forall id :: id in ids ==> id in s.outbox && s.outbox[id].status == Pending) then s
    else s.(outbox := map id | id in s.outbox :: if id in ids then s.outbox[id].(status := Processing) else s.outbox[id],
            held := map id | id in s.held.Keys + ids ::
              if id in ids then Hold(w, s.outbox[id].event, s.outbox[id].attempts, Phase.Claimed) else s.held[id])
  }

  function DoAppend<E>(s: State<E>, id: Id, reply: Reply): State<E> {
    if id !in s.held || s.held[id].phase != Phase.Claimed then s else
    var s' := SetPhase(s, id, if reply == Ok then Appended else Caught);
    if reply == Failure then s' else s'.(logs := s.logs + multiset{(id, s.held[id].event)})
  }

  function DoDelete<E>(s: State<E>, id: Id, reply: Reply): State<E> {
    if id !in s.held || s.held[id].phase != Appended then s
    else if reply == Ok then s.(outbox := s.outbox - {id}, held := s.held - {id})
    else if reply == Lost then SetPhase(s, id, Caught).(outbox := s.outbox - {id})
    else SetPhase(s, id, Caught)
  }

  /** The update in the catch block; if it throws as well, the batch is dropped. */
  function DoRecord<E>(s: State<E>, id: Id, reply: Reply, maxAttempts: nat): State<E> {
    if id !in s.held || s.held[id].phase != Caught then s else
    var held := if reply == Ok then s.held - {id} else Without(s.held, s.held[id].worker);
    if reply == Failure then s.(held := held)
    else s.(held := held, outbox := Recorded(s.outbox, id, s.held[id].attempts + 1, maxAttempts))
  }

  /** One statement, or a crash; a step that is not enabled does nothing. */
  function Next<E>(s: State<E>, step: Step<E>, maxAttempts: nat): State<E> {
    match step
    case Enqueue(id, e) => DoEnqueue(s, id, e)
    case Claim(w, ids) => DoClaim(s, w, ids)
    case Append(id, reply) => DoAppend(s, id, reply)
    case Delete(id, reply) => DoDelete(s, id, reply)
    case Record(id, reply) => DoRecord(s, id, reply, maxAttempts)
    case Crash(w) => s.(held := Without(s.held, w))
  }

  function Run<E>(steps: seq<Step<E>>, maxAttempts: nat): State<E> {
    if steps == [] then Empty() else Next(Run(steps[..|steps| - 1], maxAttempts), steps[|steps| - 1], maxAttempts)
  }

  // ------------------------------------------------------ the statements, row by row

  /** An event is put in once, to be replayed from the first attempt on. */
  lemma EnqueueExactly<E(!new)>(s: State<E>, id: Id, e: E, maxAttempts: nat)
    ensures var t := Next(s, Step.Enqueue(id, e), maxAttempts);
      if id in s.enqueued then t == s
      else t.outbox == s.outbox[id := Row(e, Pending, 0)] && t.enqueued == s.enqueued[id := e] && t.logs == s.logs && t.held == s.held
  {
  }

  /** A claim takes pending rows, hands each to the worker as it is, and marks it. */
  lemma ClaimExactly<E(!new)>(s: State<E>, w: nat, ids: set<Id>, maxAttempts: nat)
    ensures var t := Next(s, Step.Claim(w, ids), maxAttempts);
      && t.logs == s.logs && t.enqueued == s.enqueued
      && (if forall id :: id in ids ==> id in s.outbox && s.outbox[id].status == Pending then
            && t.outbox.Keys == s.outbox.Keys && t.held.Keys == s.held.Keys + ids
            && (forall id :: id in ids ==> t.outbox[id] == s.outbox[id].(status := Processing))
            && (forall id :: id in ids ==> t.held[id] == Hold(w, s.outbox[id].event, s.outbox[id].attempts, Phase.Claimed))
            && (forall id :: id in s.outbox && id !in ids ==> t.outbox[id] == s.outbox[id])
            && (forall id :: id in s.held && id !in ids ==> t.held[id] == s.held[id])
          else t == s)
  {
  }

  /** An append logs the event once more unless it failed, and is followed by the delete only
      if its reply said so. */
  lemma AppendExactly<E(!new)>(s: State<E>, id: Id, reply: Reply, maxAttempts: nat)
    ensures var t := Next(s, Append(id, reply), maxAttempts);
      if id in s.held && s.held[id].phase == Phase.Claimed then
        && t.outbox == s.outbox && t.enqueued == s.enqueued
        && t.logs == s.logs + (if reply == Failure then multiset{} else multiset{(id, s.held[id].event)})
        && t.held == s.held[id := s.held[id].(phase := if reply == Ok then Appended else Caught)]
      else t == s
  {
  }

  /** A delete takes the row out unless it failed; only a reply ends the job. */
  lemma DeleteExactly<E(!new)>(s: State<E>, id: Id, reply: Reply, maxAttempts: nat)
    ensures var t := Next(s, Delete(id, reply), maxAttempts);
      if id in s.held && s.held[id].phase == Appended then
        && t.logs == s.logs && t.enqueued == s.enqueued
        && t.outbox == (if reply == Failure then s.outbox else s.outbox - {id})
        && t.held == if reply == Ok then s.held - {id} else s.held[id := s.held[id].(phase := Caught)]
      else t == s
  {
  }

  /** A recorded failure is one attempt more, the last of which dead-letters the row; if the
      update's reply is missing, the worker drops its whole batch. */
  lemma RecordExactly<E(!new)>(s: State<E>, id: Id, reply: Reply, maxAttempts: nat)
    ensures var t := Next(s, Record(id, reply), maxAttempts);
      if id in s.held && s.held[id].phase == Caught then
        var hold := s.held[id];
        var status := if hold.attempts + 1 < maxAttempts then Pending else Failed;
        && t.logs == s.logs && t.enqueued == s.enqueued && t.outbox.Keys == s.outbox.Keys
        && (forall k :: k in s.outbox && (k != id || reply == Failure) ==> t.outbox[k] == s.outbox[k])
        && (id in s.outbox && reply != Failure ==> t.outbox[id] == Row(s.outbox[id].event, status, hold.attempts + 1))
        && (forall k :: k in t.held <==> k in s.held && if reply == Ok then k != id else s.held[k].worker != hold.worker)
        && (forall k :: k in t.held ==> t.held[k] == s.held[k])
      else t == s
  {
  }

  /** A crash takes the worker's rows out of its hands and changes no table. */
  lemma CrashExactly<E(!new)>(s: State<E>, w: nat, maxAttempts: nat)
    ensures var t := Next(s, Step.Crash(w), maxAttempts);
      && t.outbox == s.outbox && t.logs == s.logs && t.enqueued == s.enqueued
      && (forall k :: k in t.held <==> k in s.held && s.held[k].worker != w) && forall k :: k in t.held ==> t.held[k] == s.held[k]
  {
  }

  function Copies<E>(s: State<E>, id: Id): nat
    requires id in s.enqueued
  {
    s.logs[(id, s.enqueued[id])]
  }

  /** The copies that row `id` may have by now. */
  predicate RowFits<E>(s: State<E>, id: Id, maxAttempts: nat)
    requires id in s.enqueued
  {
    id in s.outbox ==>
      var row := s.outbox[id];
      && row.event == s.enqueued[id]
      && (if row.status == Failed then row.attempts == maxAttempts else row.attempts < maxAttempts)
      && row.status != Completed
      && Copies(s, id) <= row.attempts + (if row.status == Processing then 1 else 0)
  }

  /** A held row is being processed, and before its append it has no more copies than
      attempts; after its append it has one at least. */
  predicate HoldFits<E>(s: State<E>, id: Id)
    requires id in s.enqueued
  {
    id in s.held ==>
      var hold := s.held[id];
      && hold.event == s.enqueued[id]
      && (id in s.outbox ==> s.outbox[id].status == Processing && s.outbox[id].attempts == hold.attempts)
      && (hold.phase == Phase.Claimed ==> id in s.outbox && Copies(s, id) <= hold.attempts)
      && (hold.phase == Appended ==> id in s.outbox && Copies(s, id) >= 1)
  }

  /** In the outbox or in the log at least once; in the log at most `maxAttempts` times. */
  predicate Safe<E>(s: State<E>, id: Id, maxAttempts: nat)
    requires id in s.enqueued
  {
    && RowFits(s, id, maxAttempts) && HoldFits(s, id)
    && (id in s.outbox || Copies(s, id) >= 1) && Copies(s, id) <= maxAttempts
  }

  predicate Known<E(==)>(s: State<E>) {
    && s.outbox.Keys <= s.enqueued.Keys && s.held.Keys <= s.enqueued.Keys
    && forall entry :: entry in s.logs ==> entry.0 in s.enqueued && s.enqueued[entry.0] == entry.1
  }

  ghost predicate Invariant<E(!new)>(s: State<E>, maxAttempts: nat) {
    Known(s) && forall id :: id in s.enqueued ==> Safe(s, id, maxAttempts)
  }

  lemma StepSafe<E(!new)>(s: State<E>, step: Step<E>, id: Id, maxAttempts: nat)
    requires id in s.enqueued && Safe(s, id, maxAttempts)
    ensures id in Next(s, step, maxAttempts).enqueued && Safe(Next(s, step, maxAttempts), id, maxAttempts)
  {
    match step
    case Append(i, reply) => AppendSafe(s, i, reply, id, maxAttempts);
    case Delete(i, reply) => DeleteSafe(s, i, reply, id, maxAttempts);
    case Record(i, reply) => RecordSafe(s, i, reply, id, maxAttempts);
    case _ => hide DoAppend, DoDelete, DoRecord;
  }

  lemma AppendSafe<E(!new)>(s: State<E>, i: Id, reply: Reply, id: Id, maxAttempts: nat)
    requires id in s.enqueued && Safe(s, id, maxAttempts)
    ensures id in DoAppend(s, i, reply).enqueued && Safe(DoAppend(s, i, reply), id, maxAttempts)
  {
  }

  lemma DeleteSafe<E(!new)>(s: State<E>, i: Id, reply: Reply, id: Id, maxAttempts: nat)
    requires id in s.enqueued && Safe(s, id, maxAttempts)
    ensures id in DoDelete(s, i, reply).enqueued && Safe(DoDelete(s, i, reply), id, maxAttempts)
  {
  }

  lemma RecordSafe<E(!new)>(s: State<E>, i: Id, reply: Reply, id: Id, maxAttempts: nat)
    requires id in s.enqueued && Safe(s, id, maxAttempts)
    ensures var s' := DoRecord(s, i, reply, maxAttempts); id in s'.enqueued && Safe(s', id, maxAttempts)
  {
  }

  lemma StepKnown<E(!new)>(s: State<E>, step: Step<E>, maxAttempts: nat)
    requires Invariant(s, maxAttempts)
    ensures Known(Next(s, step, maxAttempts))
  {
    hide RowFits, HoldFits, Recorded;
    match step
    case Append(i, reply) =>
      if i in s.held { HeldEvent(s, i, maxAttempts); }
      AppendKnown(s, i, reply);
    case Delete(i, reply) => DeleteKnown(s, i, reply);
    case Record(i, reply) => RecordKnown(s, i, reply, maxAttempts);
    case _ => hide DoAppend, DoDelete, DoRecord;
  }

  lemma AppendKnown<E(!new)>(s: State<E>, id: Id, reply: Reply)
    requires Known(s) && (id in s.held ==> id in s.enqueued && s.held[id].event == s.enqueued[id])
    ensures Known(DoAppend(s, id, reply))
  {
  }

  lemma DeleteKnown<E(!new)>(s: State<E>, id: Id, reply: Reply)
    requires Known(s)
    ensures Known(DoDelete(s, id, reply))
  {
  }

  lemma RecordKnown<E(!new)>(s: State<E>, id: Id, reply: Reply, maxAttempts: nat)
    requires Known(s)
    ensures Known(DoRecord(s, id, reply, maxAttempts))
  {
  }

  lemma HeldEvent<E(!new)>(s: State<E>, id: Id, maxAttempts: nat)
    requires Invariant(s, maxAttempts) && id in s.held
    ensures id in s.enqueued && s.held[id].event == s.enqueued[id]
  {
  }

  lemma NextKeeps<E(!new)>(s: State<E>, step: Step<E>, maxAttempts: nat)
    requires Invariant(s, maxAttempts) && maxAttempts >= 1
    ensures Invariant(Next(s, step, maxAttempts), maxAttempts)
  {
    var s' := Next(s, step, maxAttempts);
    StepKnown(s, step, maxAttempts);
    forall id | id in s'.enqueued ensures Safe(s', id, maxAttempts) {
      if id in s.enqueued { StepSafe(s, step, id, maxAttempts); } else { NewSafe(s, step, id, maxAttempts); }
    }
  }

  lemma NewSafe<E(!new)>(s: State<E>, step: Step<E>, id: Id, maxAttempts: nat)
    requires Known(s) && id !in s.enqueued && id in Next(s, step, maxAttempts).enqueued && maxAttempts >= 1
    ensures Safe(Next(s, step, maxAttempts), id, maxAttempts)
  {
  }

  lemma {:induction false} RunKeeps<E(!new)>(steps: seq<Step<E>>, maxAttempts: nat)
    requires maxAttempts >= 1
    ensures Invariant(Run(steps, maxAttempts), maxAttempts)
  {
    if steps != [] {
      hide Next, Invariant;
      RunKeeps(steps[..|steps| - 1], maxAttempts);
      NextKeeps(Run(steps[..|steps| - 1], maxAttempts), steps[|steps| - 1], maxAttempts);
    } else {
      assert Invariant(Empty<E>(), maxAttempts);
    }
  }

  /** After every statement of every run, an enqueued event is in the outbox, as it was
      enqueued, or in the log, and the log holds at most `maxAttempts` copies of it. */
  lemma NothingLost<E(!new)>(steps: seq<Step<E>>, maxAttempts: nat, id: Id)
    requires maxAttempts >= 1 && id in Run(steps, maxAttempts).enqueued
    ensures var s := Run(steps, maxAttempts);
      && (id in s.outbox ==> s.outbox[id].event == s.enqueued[id])
      && (id !in s.outbox ==> Copies(s, id) >= 1)
      && Copies(s, id) <= maxAttempts
  {
    RunKeeps(steps, maxAttempts);
    assert Safe(Run(steps, maxAttempts), id, maxAttempts);
  }

  /** The statement took effect on row `id` and makes the worker replay an event that is
      in the log already: a lost reply to its append, or a delete that failed. */
  predicate Misleads<E>(s: State<E>, step: Step<E>, id: Id) {
    id in s.held && ((step == Append(id, Lost) && s.held[id].phase == Phase.Claimed) || (step == Delete(id, Failure) && s.held[id].phase == Appended))
  }

  /** How often that happened to row `id` in a run. */
  function Misled<E(==)>(steps: seq<Step<E>>, id: Id, maxAttempts: nat): nat {
    if steps == [] then 0 else
    Misled(steps[..|steps| - 1], id, maxAttempts)
    + if Misleads(Run(steps[..|steps| - 1], maxAttempts), steps[|steps| - 1], id) then 1 else 0
  }

  /** In the log once and `k` times more at most, and `k` times while it is still to be
      replayed. */
  predicate AtMost<E>(s: State<E>, id: Id, k: nat)
    requires id in s.enqueued
  {
    && Copies(s, id) <= 1 + k
    && (id in s.outbox && s.outbox[id].status == Pending ==> Copies(s, id) <= k)
    && (id in s.held && s.held[id].phase == Phase.Claimed ==> Copies(s, id) <= k)
    && (id in s.held && s.held[id].phase == Caught && id in s.outbox ==> Copies(s, id) <= k)
  }

  lemma StepAtMost<E(!new)>(s: State<E>, step: Step<E>, id: Id, k: nat, maxAttempts: nat)
    requires id in s.enqueued && Safe(s, id, maxAttempts) && AtMost(s, id, k)
    ensures var s' := Next(s, step, maxAttempts); id in s'.enqueued && AtMost(s', id, if Misleads(s, step, id) then k + 1 else k)
  {
    match step
    case Append(i, reply) => AppendAtMost(s, i, reply, id, k, maxAttempts);
    case Delete(i, reply) => DeleteAtMost(s, i, reply, id, k, maxAttempts);
    case Record(i, reply) => RecordAtMost(s, i, reply, id, k, maxAttempts);
    case _ => hide DoAppend, DoDelete, DoRecord;
  }

  lemma AppendAtMost<E(!new)>(s: State<E>, i: Id, reply: Reply, id: Id, k: nat, maxAttempts: nat)
    requires id in s.enqueued && Safe(s, id, maxAttempts) && AtMost(s, id, k)
    ensures var s' := DoAppend(s, i, reply);
      id in s'.enqueued && AtMost(s', id, if Misleads(s, Append(i, reply), id) then k + 1 else k)
  {
  }

  lemma DeleteAtMost<E(!new)>(s: State<E>, i: Id, reply: Reply, id: Id, k: nat, maxAttempts: nat)
    requires id in s.enqueued && Safe(s, id, maxAttempts) && AtMost(s, id, k)
    ensures var s' := DoDelete(s, i, reply);
      id in s'.enqueued && AtMost(s', id, if Misleads(s, Delete(i, reply), id) then k + 1 else k)
  {
  }

  lemma RecordAtMost<E(!new)>(s: State<E>, i: Id, reply: Reply, id: Id, k: nat, maxAttempts: nat)
    requires id in s.enqueued && Safe(s, id, maxAttempts) && AtMost(s, id, k)
    ensures var s' := DoRecord(s, i, reply, maxAttempts); id in s'.enqueued && AtMost(s', id, k)
  {
  }

  lemma {:induction false} RunAtMost<E(!new)>(steps: seq<Step<E>>, maxAttempts: nat, id: Id)
    requires maxAttempts >= 1 && id in Run(steps, maxAttempts).enqueued
    ensures AtMost(Run(steps, maxAttempts), id, Misled(steps, id, maxAttempts))
  {
    hide Next, Invariant, AtMost, Safe, Known, Misleads;
    var before, step := Run(steps[..|steps| - 1], maxAttempts), steps[|steps| - 1];
    RunKeeps(steps[..|steps| - 1], maxAttempts);
    assert Known(before) && (id in before.enqueued ==> Safe(before, id, maxAttempts)) by { InvariantGives(before, id, maxAttempts); }
    if id in before.enqueued {
      RunAtMost(steps[..|steps| - 1], maxAttempts, id);
      StepAtMost(before, step, id, Misled(steps[..|steps| - 1], id, maxAttempts), maxAttempts);
    } else {
      NewAtMost(before, step, id, Misled(steps, id, maxAttempts), maxAttempts);
    }
  }

  /** An event is in the log once, and once more at most for each misleading reply about
      its own row; crashes and what happens to other rows never add a copy. */
  lemma CopiesWithinMisled<E(!new)>(steps: seq<Step<E>>, maxAttempts: nat, id: Id)
    requires maxAttempts >= 1 && id in Run(steps, maxAttempts).enqueued
    ensures Copies(Run(steps, maxAttempts), id) <= 1 + Misled(steps, id, maxAttempts)
  {
    RunAtMost(steps, maxAttempts, id);
    hide Run, Misled;
  }

  /** Without a lost reply to the row's append and a failed delete of it, no event is in the
      log twice, and none at all that is still to be replayed. */
  lemma AtMostOnceUnlessMisled<E(!new)>(steps: seq<Step<E>>, maxAttempts: nat, id: Id)
    requires maxAttempts >= 1 && id in Run(steps, maxAttempts).enqueued
    requires forall i :: 0 <= i < |steps| ==> steps[i] != Append(id, Lost) && steps[i] != Delete(id, Failure)
    ensures AtMost(Run(steps, maxAttempts), id, 0)
  {
    RunAtMost(steps, maxAttempts, id);
    NeverMisled(steps, maxAttempts, id);
    hide Run, Misled, AtMost;
  }

  lemma {:induction false} NeverMisled<E(!new)>(steps: seq<Step<E>>, maxAttempts: nat, id: Id)
    requires forall i :: 0 <= i < |steps| ==> steps[i] != Append(id, Lost) && steps[i] != Delete(id, Failure)
    ensures Misled(steps, id, maxAttempts) == 0
  {
    hide Run;
    if steps == [] {
    } else {
      NeverMisled(steps[..|steps| - 1], maxAttempts, id);
    }
  }

  lemma InvariantGives<E(!new)>(s: State<E>, id: Id, maxAttempts: nat)
    requires Invariant(s, maxAttempts)
    ensures Known(s) && (id in s.enqueued ==> Safe(s, id, maxAttempts))
  {
  }

  lemma NewAtMost<E(!new)>(s: State<E>, step: Step<E>, id: Id, k: nat, maxAttempts: nat)
    requires Known(s) && id !in s.enqueued && id in Next(s, step, maxAttempts).enqueued
    ensures AtMost(Next(s, step, maxAttempts), id, k)
  {
  }

  // ----------------------------------------------------- the bound is reached

  /** One more attempt, misled: the reply to the append is lost, or the delete fails. */
  function MisledAttempt<E>(w: nat, id: Id, byDelete: bool): seq<Step<E>> {
    if byDelete then [Step.Claim(w, {id}), Append(id, Ok), Delete(id, Failure), Record(id, Ok)]
    else [Step.Claim(w, {id}), Append(id, Lost), Record(id, Ok)]
  }

  function MisledRun<E>(w: nat, id: Id, e: E, byDelete: bool, n: nat): seq<Step<E>> {
    if n == 0 then [Step.Enqueue(id, e)] else MisledRun(w, id, e, byDelete, n - 1) + MisledAttempt(w, id, byDelete)
  }

  lemma RunSnoc<E>(steps: seq<Step<E>>, step: Step<E>, maxAttempts: nat)
    ensures Run(steps + [step], maxAttempts) == Next(Run(steps, maxAttempts), step, maxAttempts)
  {
    assert (steps + [step])[..|steps|] == steps;
  }

  /** The row after `n` attempts, with a copy in the log for each. */
  predicate IsLoggedOften<E>(s: State<E>, id: Id, e: E, n: nat, maxAttempts: nat) {
    && s.outbox == map[id := Row(e, if n >= maxAttempts then Failed else Pending, n)]
    && s.held == map[] && s.enqueued == map[id := e] && Copies(s, id) == n
  }

  lemma LostReplyCopies<E>(s: State<E>, w: nat, id: Id, e: E, n: nat, maxAttempts: nat)
    requires n < maxAttempts && IsLoggedOften(s, id, e, n, maxAttempts)
    ensures IsLoggedOften(DoRecord(DoAppend(DoClaim(s, w, {id}), id, Lost), id, Ok, maxAttempts), id, e, n + 1, maxAttempts)
  {
    var s1 := DoClaim(s, w, {id});
    assert s1.outbox == map[id := Row(e, Processing, n)] && s1.held == map[id := Hold(w, e, n, Phase.Claimed)];
    hide DoClaim;
    var s2 := DoAppend(s1, id, Lost);
    assert s2.held == map[id := Hold(w, e, n, Caught)] && Copies(s2, id) == n + 1;
  }

  lemma FailedDeleteCopies<E>(s: State<E>, w: nat, id: Id, e: E, n: nat, maxAttempts: nat)
    requires n < maxAttempts && IsLoggedOften(s, id, e, n, maxAttempts)
    ensures IsLoggedOften(DoRecord(DoDelete(DoAppend(DoClaim(s, w, {id}), id, Ok), id, Failure), id, Ok, maxAttempts), id, e, n + 1, maxAttempts)
  {
    var s1 := DoClaim(s, w, {id});
    assert s1.outbox == map[id := Row(e, Processing, n)] && s1.held == map[id := Hold(w, e, n, Phase.Claimed)];
    hide DoClaim;
    var s2 := DoAppend(s1, id, Ok);
    assert s2.held == map[id := Hold(w, e, n, Appended)] && Copies(s2, id) == n + 1;
    hide DoAppend;
    assert DoDelete(s2, id, Failure).held == map[id := Hold(w, e, n, Caught)];
  }

  lemma OneMoreCopy<E>(steps: seq<Step<E>>, w: nat, id: Id, e: E, byDelete: bool, n: nat, maxAttempts: nat)
    requires n < maxAttempts && IsLoggedOften(Run(steps, maxAttempts), id, e, n, maxAttempts)
    ensures IsLoggedOften(Run(steps + MisledAttempt(w, id, byDelete), maxAttempts), id, e, n + 1, maxAttempts)
  {
    hide Run, IsLoggedOften, DoClaim, DoAppend, DoDelete, DoRecord;
    var s, more := Run(steps, maxAttempts), MisledAttempt<E>(w, id, byDelete);
    RunSnoc(steps, more[0], maxAttempts);
    RunSnoc(steps + [more[0]], more[1], maxAttempts);
    RunSnoc(steps + [more[0]] + [more[1]], more[2], maxAttempts);
    if byDelete {
      RunSnoc(steps + [more[0]] + [more[1]] + [more[2]], more[3], maxAttempts);
      assert steps + [more[0]] + [more[1]] + [more[2]] + [more[3]] == steps + more;
      FailedDeleteCopies(s, w, id, e, n, maxAttempts);
    } else {
      assert steps + [more[0]] + [more[1]] + [more[2]] == steps + more;
      LostReplyCopies(s, w, id, e, n, maxAttempts);
    }
  }

  lemma EnqueuedOnly<E>(id: Id, e: E, maxAttempts: nat)
    requires 1 <= maxAttempts
    ensures IsLoggedOften(Run([Step.Enqueue(id, e)], maxAttempts), id, e, 0, maxAttempts)
  {
    assert [Step.Enqueue(id, e)][..0] == [];
    assert Run([Step.Enqueue(id, e)], maxAttempts) == DoEnqueue(Empty(), id, e);
  }

  lemma {:induction false} MisledRunCopies<E>(w: nat, id: Id, e: E, byDelete: bool, n: nat, maxAttempts: nat)
    requires 1 <= maxAttempts && n <= maxAttempts
    ensures IsLoggedOften(Run(MisledRun(w, id, e, byDelete, n), maxAttempts), id, e, n, maxAttempts)
  {
    hide MisledAttempt, IsLoggedOften, Run;
    if n == 0 {
      EnqueuedOnly(id, e, maxAttempts);
    } else {
      MisledRunCopies(w, id, e, byDelete, n - 1, maxAttempts);
      OneMoreCopy(MisledRun(w, id, e, byDelete, n - 1), w, id, e, byDelete, n - 1, maxAttempts);
    }
  }

  /** An event can be in the log as often as it was attempted, up to the bound, by either
      of the misleading replies: two misled attempts log it twice. */
  lemma BoundReached<E>(w: nat, id: Id, e: E, byDelete: bool, n: nat, maxAttempts: nat)
    requires 1 <= maxAttempts && n <= maxAttempts
    ensures var s := Run(MisledRun(w, id, e, byDelete, n), maxAttempts); id in s.enqueued && Copies(s, id) == n
  {
    MisledRunCopies(w, id, e, byDelete, n, maxAttempts);
    hide Run, MisledRun, MisledAttempt;
  }
}
