/** Concurrent appends to the audit log: each caller's transaction takes the
    advisory lock, reads the head, inserts and commits (or rolls back), and the
    statements of different transactions interleave in any order. */
module AuditWriter {
  import opened JsText
  import opened Json
  import opened HashChain
  import opened AuditChain

  type TxId = nat

  datatype Phase =
    | Waiting                    // begun, lock not yet granted
    | Locked
    | HeadRead(prev: Text)
    | Inserted(row: Row<Event>)  // visible to its own transaction only

  datatype Tx = Tx(event: Event, phase: Phase)

  /** `rows` are the committed rows; `log` is the history of committed events. */
  datatype Db = Db(rows: seq<Row<Event>>, nextId: int, lock: Option<TxId>, txs: map<TxId, Tx>, log: seq<Event>)

  datatype Step =
    | Begin(t: TxId, event: Event)
    | TakeLock(t: TxId)
    | ReadHead(t: TxId)
    | Insert(t: TxId, stored: Json)  // the payload as the JSONB column gives it back
    | Commit(t: TxId)
    | Rollback(t: TxId)

  /** appendAuditEvent throws before opening a transaction unless these are given. */
  predicate Complete(e: Event) {
    e.actorId != [] && e.actorIp != [] && e.actionType != []
  }

  ghost const EMPTY: Db := Db([], 1, None, map[], [])

  /** One statement of transaction `step.t`; a step that is not enabled does nothing. */
  ghost function Next(h: Hash, s: Db, step: Step): Db {
    match step
    case Begin(t, e) =>
      if t in s.txs || !Complete(e) || !Valid(e.payload) then s else s.(txs := s.txs[t := Tx(e, Waiting)])
    case TakeLock(t) =>
      if t in s.txs && s.txs[t].phase.Waiting? && s.lock == None
      then s.(lock := Some(t), txs := s.txs[t := s.txs[t].(phase := Locked)]) else s
    case ReadHead(t) =>
      if t in s.txs && s.txs[t].phase.Locked?
      then s.(txs := s.txs[t := s.txs[t].(phase := HeadRead(HeadHash(s.rows)))]) else s
    case Insert(t, stored) =>
      if t in s.txs && s.txs[t].phase.HeadRead? && Valid(stored) && SameUpToKeyOrder(stored, s.txs[t].event.payload)
      then
        var tx := s.txs[t];
        var row := Row(s.nextId, tx.event.(payload := stored), tx.phase.prev, ComputeRowHash(h)(tx.phase.prev, tx.event));
        s.(nextId := s.nextId + 1, txs := s.txs[t := tx.(phase := Inserted(row))])
      else s
    case Commit(t) =>
      if t in s.txs && s.txs[t].phase.Inserted?
      then s.(rows := s.rows + [s.txs[t].phase.row], log := s.log + [s.txs[t].event], lock := None, txs := s.txs - {t})
      else s
    case Rollback(t) =>
      if t in s.txs
      then s.(lock := if s.lock == Some(t) then None else s.lock, txs := s.txs - {t})
      else s
  }

  ghost function Run(h: Hash, steps: seq<Step>): Db {
    if steps == [] then EMPTY else Next(h, Run(h, steps[..|steps| - 1]), steps[|steps| - 1])
  }

  /** The row a transaction has prepared fits the head of the committed table. */
  ghost predicate Fits(h: Hash, s: Db, tx: Tx) {
    match tx.phase
    case HeadRead(prev) => prev == HeadHash(s.rows)
    case Inserted(row) =>
      && row.prev == HeadHash(s.rows)
      && row.curr == ComputeRowHash(h)(row.prev, row.event)
      && Valid(row.event.payload) && SameEvent(row.event, tx.event)
      && row.id < s.nextId && LastId(s.rows) < row.id
    case _ => true
  }

  function LastId(rows: seq<Row<Event>>): int {
    if rows == [] then 0 else rows[|rows| - 1].id
  }

  ghost predicate Invariant(h: Hash, s: Db) {
    && Linked(ComputeRowHash(h), s.rows) && ValidPayloads(s.rows)
    && Ascending(s.rows, 0) && LastId(s.rows) < s.nextId
    && (forall t :: t in s.txs && !s.txs[t].phase.Waiting? ==> s.lock == Some(t))
    && (forall t :: t in s.txs ==> Valid(s.txs[t].event.payload) && Fits(h, s, s.txs[t]))
    && |s.log| == |s.rows|
    && forall i :: 0 <= i < |s.rows| ==> Valid(s.log[i].payload) && SameEvent(s.rows[i].event, s.log[i])
  }

  lemma {:induction false} AscendingSnoc(rows: seq<Row<Event>>, row: Row<Event>, low: int)
    requires Ascending(rows, low)
    requires if rows == [] then low < row.id else rows[|rows| - 1].id < row.id
    ensures Ascending(rows + [row], low)
  {
    if rows == [] {
    } else {
      AscendingSnoc(rows[1..], row, rows[0].id);
      assert (rows + [row])[1..] == rows[1..] + [row];
    }
  }

  lemma CommitKeeps(h: Hash, s: Db, t: TxId)
    requires Invariant(h, s) && t in s.txs && s.txs[t].phase.Inserted?
    ensures Invariant(h, Next(h, s, Commit(t)))
  {
    hide SameUpToKeyOrder, Valid, ComputeRowHash;
    var row := s.txs[t].phase.row;
    LastIdPositive(s.rows, 0);
    LinkedSnoc(ComputeRowHash(h), s.rows, row);
    AscendingSnoc(s.rows, row, 0);
    assert forall u :: u in s.txs && u != t ==> s.txs[u].phase.Waiting?;
  }

  lemma {:induction false} LastIdPositive(rows: seq<Row<Event>>, low: int)
    requires Ascending(rows, low)
    ensures rows != [] ==> low < LastId(rows)
  {
    if rows == [] {
    } else {
      LastIdPositive(rows[1..], rows[0].id);
    }
  }

  lemma InsertKeeps(h: Hash, s: Db, t: TxId, stored: Json)
    requires Invariant(h, s)
    ensures Invariant(h, Next(h, s, Insert(t, stored)))
  {
    hide Linked, Ascending, LastId, ValidPayloads;
    if t in s.txs && Valid(stored) {
      var e := s.txs[t].event;
      if SameUpToKeyOrder(stored, e.payload) {
        SameEventSameHash(h, HeadHash(s.rows), e.(payload := stored), e);
      }
    }
  }

  lemma NextKeeps(h: Hash, s: Db, step: Step)
    requires Invariant(h, s)
    ensures Invariant(h, Next(h, s, step))
  {
    hide Linked, SameUpToKeyOrder, Valid, Ascending, LastId, SameEvent, ComputeRowHash, ValidPayloads, Complete;
    match step
    case Insert(t, stored) => InsertKeeps(h, s, t, stored);
    case Commit(t) => if t in s.txs && s.txs[t].phase.Inserted? { CommitKeeps(h, s, t); }
    case _ =>
  }

  lemma {:induction false} RunKeeps(h: Hash, steps: seq<Step>)
    ensures Invariant(h, Run(h, steps))
  {
    if steps == [] {
    } else {
      RunKeeps(h, steps[..|steps| - 1]);
      NextKeeps(h, Run(h, steps[..|steps| - 1]), steps[|steps| - 1]);
    }
  }

  /** The head hash after appending the events one at a time. */
  function SerialHead(h: Hash, events: seq<Event>): Text {
    if events == [] then GENESIS_HASH
    else HeadAfter(h, SerialHead(h, events[..|events| - 1]), events[|events| - 1])
  }

  function HeadAfter(h: Hash, head: Text, e: Event): Text { ComputeRowHash(h)(head, e) }

  lemma {:induction false} LinkedSerialHead(h: Hash, rows: seq<Row<Event>>, log: seq<Event>)
    requires Linked(ComputeRowHash(h), rows) && ValidPayloads(rows) && |log| == |rows|
    requires forall i :: 0 <= i < |rows| ==> Valid(log[i].payload) && SameEvent(rows[i].event, log[i])
    ensures HeadHash(rows) == SerialHead(h, log)
    decreases |rows|
  {
    if rows == [] {
    } else {
      hide Valid, SameUpToKeyOrder, HashInput;
      var m := |rows| - 1;
      LinkedPrefix(ComputeRowHash(h), rows, m);
      LinkedSerialHead(h, rows[..m], log[..m]);
      assert RowLinked(ComputeRowHash(h), rows, GENESIS_HASH, m);
      SameEventSameHash(h, rows[m].prev, rows[m].event, log[m]);
    }
  }

  /** After any schedule the table verifies, holds the committed events in commit
      order, and has the head hash of appending them one at a time. */
  lemma EveryScheduleIsSerial(h: Hash, steps: seq<Step>)
    ensures var s := Run(h, steps);
      && Check(ComputeRowHash(h), s.rows, GENESIS_HASH) == Verified
      && Ascending(s.rows, 0)
      && |s.rows| == |s.log|
      && (forall i :: 0 <= i < |s.rows| ==> SameEvent(s.rows[i].event, s.log[i]))
      && HeadHash(s.rows) == SerialHead(h, s.log)
  {
    RunKeeps(h, steps);
    VerifiedIffLinked(ComputeRowHash(h), Run(h, steps).rows);
    LinkedSerialHead(h, Run(h, steps).rows, Run(h, steps).log);
  }

  /** At most one transaction is past the lock, whatever the schedule. */
  lemma LockExcludes(h: Hash, steps: seq<Step>, t: TxId, u: TxId)
    requires var s := Run(h, steps); t in s.txs && u in s.txs && !s.txs[t].phase.Waiting? && !s.txs[u].phase.Waiting?
    ensures t == u
  {
    RunKeeps(h, steps);
  }

  /** The table as one caller sees it who holds the lock: appendAuditEvent in sequence. */
  class AuditLog {
    const h: Hash
    var rows: seq<Row<Event>>
    var nextId: int

    ghost predicate Verifies()
      reads this
    {
      && Linked(ComputeRowHash(h), rows) && ValidPayloads(rows)
      && Ascending(rows, 0) && 0 < nextId && LastId(rows) < nextId
    }

    constructor (h: Hash)
      ensures Verifies() && rows == [] && this.h == h
    {
      this.h := h;
      rows := [];
      nextId := 1;
    }

    /** `stored` is the payload as the JSONB column gives it back. */
    method AppendAuditEvent(e: Event, stored: Json) returns (accepted: bool)
      requires Verifies() && Valid(e.payload) && Valid(stored) && SameUpToKeyOrder(stored, e.payload)
      modifies this
      ensures Verifies()
      ensures accepted == Complete(e)
      ensures !accepted ==> rows == old(rows)
      ensures accepted ==> |rows| == |old(rows)| + 1 && old(rows) <= rows && SameEvent(rows[|old(rows)|].event, e)
      ensures accepted ==> HeadHash(rows) == HeadAfter(h, HeadHash(old(rows)), e)
    {
      hide SameUpToKeyOrder, Valid;
      if |e.actorId| == 0 || |e.actorIp| == 0 || |e.actionType| == 0 { return false; }
      var prevHash := HeadHash(rows);
      var row := Row(nextId, e.(payload := stored), prevHash, ComputeRowHash(h)(prevHash, e));
      SameEventSameHash(h, prevHash, row.event, e);
      LinkedSnoc(ComputeRowHash(h), rows, row);
      LastIdPositive(rows, 0);
      AscendingSnoc(rows, row, 0);
      rows := rows + [row];
      nextId := nextId + 1;
      return true;
    }
  }
}
