/** What a schedule of append transactions puts into the table, counted in its steps: one row
    for each commit of a prepared row and no other, and always a way to append one more. */
module AuditAppends {
  import opened JsText
  import opened Json
  import opened HashChain
  import opened AuditChain
  import opened AuditWriter

  /** The step commits a transaction that has inserted its row. */
  ghost predicate Commits(s: Db, step: Step) {
    step.Commit? && step.t in s.txs && s.txs[step.t].phase.Inserted?
  }

  /** The events of the transactions that the schedule commits, in commit order. */
  ghost function CommittedEvents(h: Hash, steps: seq<Step>): seq<Event> {
    if steps == [] then [] else
    var before, step := Run(h, steps[..|steps| - 1]), steps[|steps| - 1];
    CommittedEvents(h, steps[..|steps| - 1]) + if Commits(before, step) then [before.txs[step.t].event] else []
  }

  /** The statements of appendAuditEvent in transaction `t`, up to its commit. */
  function Statements(t: TxId, stored: Json): seq<Step> {
    [TakeLock(t), ReadHead(t), Insert(t, stored), Commit(t)]
  }

  // ------------------------------------------------------------- rows and commits

  /** A step appends the row that a commit finds prepared; every other step leaves the
      table alone. */
  lemma StepAppends(h: Hash, s: Db, step: Step)
    ensures Next(h, s, step).rows == s.rows + if Commits(s, step) then [s.txs[step.t].phase.row] else []
    ensures Next(h, s, step).log == s.log + if Commits(s, step) then [s.txs[step.t].event] else []
  {
    hide Valid, SameUpToKeyOrder, ComputeRowHash;
  }

  lemma {:induction false} LogIsCommitted(h: Hash, steps: seq<Step>)
    ensures Run(h, steps).log == CommittedEvents(h, steps)
  {
    hide Next;
    if steps == [] {
    } else {
      LogIsCommitted(h, steps[..|steps| - 1]);
      StepAppends(h, Run(h, steps[..|steps| - 1]), steps[|steps| - 1]);
    }
  }

  /** After every schedule there are as many rows as its steps committed transactions, and
      row `i` records the event of the one committed as number `i`. */
  lemma RowsAreCommits(h: Hash, steps: seq<Step>)
    ensures var rows, events := Run(h, steps).rows, CommittedEvents(h, steps);
      |rows| == |events| && forall i :: 0 <= i < |rows| ==> SameEvent(rows[i].event, events[i])
  {
    AuditWriter.RunKeeps(h, steps);
    LogIsCommitted(h, steps);
    hide Run, Linked, Ascending, Fits, Valid, SameEvent;
  }

  /** Rows that are there stay, whatever follows. */
  lemma {:induction false} RowsOnlyGrow(h: Hash, steps: seq<Step>, k: nat)
    requires k <= |steps|
    ensures Run(h, steps[..k]).rows <= Run(h, steps).rows
    decreases |steps|
  {
    hide Next;
    if k == |steps| {
      assert steps[..k] == steps;
    } else {
      var before := steps[..|steps| - 1];
      RowsOnlyGrow(h, before, k);
      assert before[..k] == steps[..k];
      StepAppends(h, Run(h, before), steps[|steps| - 1]);
    }
  }

  /** Transaction `t` was begun with event `e` at step `j`, and has not ended since. */
  ghost predicate BeganAt(h: Hash, steps: seq<Step>, j: nat, t: TxId, e: Event) {
    && j < |steps| && steps[j] == Begin(t, e) && t !in Run(h, steps[..j]).txs
    && forall i :: j < i < |steps| ==> !Commits(Run(h, steps[..i]), steps[i]) || steps[i].t != t
  }

  lemma StepKeepsEvents(h: Hash, s: Db, step: Step, t: TxId)
    requires t in Next(h, s, step).txs
    ensures if t in s.txs then Next(h, s, step).txs[t].event == s.txs[t].event && (Commits(s, step) ==> step.t != t)
            else step.Begin? && step.t == t && Next(h, s, step).txs[t].event == step.event && Complete(step.event)
  {
    hide Valid, SameUpToKeyOrder, ComputeRowHash;
  }

  /** A transaction is begun exactly for an event that names actor, address and action. */
  lemma BeginsExactly(h: Hash, s: Db, t: TxId, e: Event)
    requires t !in s.txs && Valid(e.payload)
    ensures var s' := Next(h, s, Begin(t, e));
      && (t in s'.txs <==> e.actorId != [] && e.actorIp != [] && e.actionType != [])
      && (t in s'.txs ==> s' == s.(txs := s.txs[t := Tx(e, Waiting)])) && (t !in s'.txs ==> s' == s)
  {
  }

  /** The event of a transaction is the one that it was begun with, and is complete. */
  lemma {:induction false} EventWasGiven(h: Hash, steps: seq<Step>, t: TxId) returns (j: nat)
    requires t in Run(h, steps).txs
    ensures BeganAt(h, steps, j, t, Run(h, steps).txs[t].event) && Complete(Run(h, steps).txs[t].event)
  {
    hide Next, Commits, Complete;
    var n := |steps| - 1;
    var before := Run(h, steps[..n]);
    StepKeepsEvents(h, before, steps[n], t);
    if t in before.txs {
      j := EventWasGiven(h, steps[..n], t);
      assert steps[..n][..j] == steps[..j];
      forall i | j < i < |steps| ensures !Commits(Run(h, steps[..i]), steps[i]) || steps[i].t != t {
        if i < n { assert steps[..n][..i] == steps[..i] && steps[..n][i] == steps[i]; }
      }
    } else {
      j := n;
    }
  }

  // ------------------------------------------------------------------- progress

  lemma RunSnoc(h: Hash, steps: seq<Step>, step: Step)
    ensures Run(h, steps + [step]) == Next(h, Run(h, steps), step)
  {
    assert (steps + [step])[..|steps|] == steps;
  }

  /** The row that an append of `e` adds to these rows. */
  ghost predicate IsRowFor(h: Hash, rows: seq<Row<Event>>, row: Row<Event>, e: Event) {
    && SameEvent(row.event, e) && row.prev == HeadHash(rows) && row.curr == HeadAfter(h, HeadHash(rows), e)
    && (rows != [] ==> rows[|rows| - 1].id < row.id)
  }

  ghost predicate AddsRow(h: Hash, s: Db, s': Db, e: Event) {
    |s'.rows| == |s.rows| + 1 && s'.rows[..|s.rows|] == s.rows && IsRowFor(h, s.rows, s'.rows[|s.rows|], e)
  }

  lemma PreparesRow(h: Hash, s: Db, t: TxId, stored: Json)
    requires s.lock == None && t in s.txs && s.txs[t].phase.Waiting? && Valid(stored) && SameUpToKeyOrder(stored, s.txs[t].event.payload)
    ensures var s', e := Next(h, Next(h, Next(h, s, TakeLock(t)), ReadHead(t)), Insert(t, stored)), s.txs[t].event;
      && s'.rows == s.rows && s'.lock == Some(t)
      && s'.txs == s.txs[t := Tx(e, Inserted(Row(s.nextId, e.(payload := stored), HeadHash(s.rows), HeadAfter(h, HeadHash(s.rows), e))))]
  {
    hide SameUpToKeyOrder, Valid;
  }

  lemma StoredSame(e: Event, stored: Json)
    requires SameUpToKeyOrder(stored, e.payload)
    ensures SameEvent(e.(payload := stored), e)
  {
  }

  /** A waiting transaction with the lock free commits by its four statements one row, the
      one of its event, on top of the rows that are there. */
  lemma StatementsAppend(h: Hash, steps: seq<Step>, t: TxId, stored: Json)
    requires var s := Run(h, steps);
      s.lock == None && t in s.txs && Valid(stored) && SameUpToKeyOrder(stored, s.txs[t].event.payload)
    ensures var s, s' := Run(h, steps), Run(h, steps + Statements(t, stored));
      AddsRow(h, s, s', s.txs[t].event) && s'.lock == None && s'.txs == s.txs - {t}
  {
    AuditWriter.RunKeeps(h, steps);
    var s := Run(h, steps);
    assert s.txs[t].phase.Waiting? && LastId(s.rows) < s.nextId;
    hide Run, Next, Invariant, SameUpToKeyOrder, Valid, AddsRow;
    RunFour(h, steps, TakeLock(t), ReadHead(t), Insert(t, stored), Commit(t));
    NextFour(h, s, t, stored);
  }

  lemma RunFour(h: Hash, steps: seq<Step>, a: Step, b: Step, c: Step, d: Step)
    ensures Run(h, steps + [a, b, c, d]) == Next(h, Next(h, Next(h, Next(h, Run(h, steps), a), b), c), d)
  {
    hide Run, Next;
    RunSnoc(h, steps, a);
    RunSnoc(h, steps + [a], b);
    RunSnoc(h, steps + [a] + [b], c);
    RunSnoc(h, steps + [a] + [b] + [c], d);
    assert steps + [a] + [b] + [c] + [d] == steps + [a, b, c, d];
  }

  lemma NextFour(h: Hash, s: Db, t: TxId, stored: Json)
    requires s.lock == None && t in s.txs && s.txs[t].phase.Waiting? && Valid(stored) && SameUpToKeyOrder(stored, s.txs[t].event.payload)
    requires LastId(s.rows) < s.nextId
    ensures var s' := Next(h, Next(h, Next(h, Next(h, s, TakeLock(t)), ReadHead(t)), Insert(t, stored)), Commit(t));
      AddsRow(h, s, s', s.txs[t].event) && s'.lock == None && s'.txs == s.txs - {t}
  {
    var e := s.txs[t].event;
    StoredSame(e, stored);
    PreparesRow(h, s, t, stored);
    hide Next, SameUpToKeyOrder, Valid, HeadAfter, SameEvent;
    CommitsPrepared(h, Next(h, Next(h, Next(h, s, TakeLock(t)), ReadHead(t)), Insert(t, stored)), t);
  }

  lemma CommitsPrepared(h: Hash, s: Db, t: TxId)
    requires t in s.txs && s.txs[t].phase.Inserted?
    ensures var s' := Next(h, s, Commit(t)); s'.rows == s.rows + [s.txs[t].phase.row] && s'.lock == None && s'.txs == s.txs - {t}
  {
  }

  /** The lock is held by a transaction that is there and past it, if by any. */
  lemma {:induction false} HolderIsPresent(h: Hash, steps: seq<Step>)
    ensures var s := Run(h, steps); s.lock.Some? ==> s.lock.value in s.txs && !s.txs[s.lock.value].phase.Waiting?
  {
    hide Next, Invariant;
    if steps == [] {
    } else {
      HolderIsPresent(h, steps[..|steps| - 1]);
      AuditWriter.RunKeeps(h, steps[..|steps| - 1]);
      HolderStays(h, Run(h, steps[..|steps| - 1]), steps[|steps| - 1]);
    }
  }

  lemma HolderStays(h: Hash, s: Db, step: Step)
    requires Invariant(h, s) && (s.lock.Some? ==> s.lock.value in s.txs && !s.txs[s.lock.value].phase.Waiting?)
    ensures var s' := Next(h, s, step); s'.lock.Some? ==> s'.lock.value in s'.txs && !s'.txs[s'.lock.value].phase.Waiting?
  {
    hide Valid, SameUpToKeyOrder, ComputeRowHash, Linked, Ascending, ValidPayloads, Fits;
  }

  /** The statements that free the lock: its holder's transaction is rolled back. */
  function Freeing(lock: Option<TxId>): seq<Step> { if lock.Some? then [Rollback(lock.value)] else [] }

  lemma FreeingFrees(h: Hash, steps: seq<Step>)
    ensures var s, s' := Run(h, steps), Run(h, steps + Freeing(Run(h, steps).lock));
      s'.lock == None && s'.rows == s.rows && forall t :: t !in s.txs ==> t !in s'.txs
  {
    HolderIsPresent(h, steps);
    var s := Run(h, steps);
    hide Run;
    if s.lock.Some? { RunSnoc(h, steps, Rollback(s.lock.value)); } else { assert steps + [] == steps; }
  }

  /** From every state that a schedule reaches, a new transaction can append its event: the
      holder of the lock, if any, aside, its five statements add exactly its row. */
  lemma AppendsFromAnywhere(h: Hash, steps: seq<Step>, t: TxId, e: Event, stored: Json) returns (more: seq<Step>)
    requires t !in Run(h, steps).txs && Complete(e) && Valid(e.payload) && Valid(stored) && SameUpToKeyOrder(stored, e.payload)
    ensures more == Freeing(Run(h, steps).lock) + [Begin(t, e)] + Statements(t, stored)
    ensures AddsRow(h, Run(h, steps), Run(h, steps + more), e)
    ensures Run(h, steps + more).lock == None && t !in Run(h, steps + more).txs
  {
    var s := Run(h, steps);
    FreeingFrees(h, steps);
    var free := steps + Freeing(s.lock);
    RunSnoc(h, free, Begin(t, e));
    hide Run, SameUpToKeyOrder, Valid, Complete;
    var begun := free + [Begin(t, e)];
    assert Run(h, begun).rows == s.rows && Run(h, begun).lock == None && Run(h, begun).txs[t].event == e;
    StatementsAppend(h, begun, t, stored);
    more := Freeing(s.lock) + [Begin(t, e)] + Statements(t, stored);
    assert begun + Statements(t, stored) == steps + more;
  }
}
