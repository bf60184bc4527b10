/** The hash chain of `audit_logs` and its verifiers, for any row hash
    `rowHash(previous hash, event)`. */
module HashChain {
  import opened JsText

  /** 64 zero characters: the "previous hash" of the first row. */
  const GENESIS_HASH: Text := Lit("0000000000000000000000000000000000000000000000000000000000000000")

  datatype Row<E> = Row(id: int, event: E, prev: Text, curr: Text)

  type RowHash<!E> = (Text, E) -> Text

  /** The hash the next row must name as its predecessor. */
  function HeadHash<E>(rows: seq<Row<E>>): Text {
    if rows == [] then GENESIS_HASH else rows[|rows| - 1].curr
  }

  /** Row `i` is well linked, seen from a table whose first row should name `expected`. */
  predicate RowLinked<E>(rowHash: RowHash<E>, rows: seq<Row<E>>, expected: Text, i: nat)
    requires i < |rows|
  {
    && rows[i].prev == (if i == 0 then expected else rows[i - 1].curr)
    && rows[i].curr == rowHash(rows[i].prev, rows[i].event)
  }

  /** Every row names its predecessor's hash and carries its own. */
  predicate Linked<E>(rowHash: RowHash<E>, rows: seq<Row<E>>) {
    forall i :: 0 <= i < |rows| ==> RowLinked(rowHash, rows, GENESIS_HASH, i)
  }

  lemma LinkedPrefix<E>(rowHash: RowHash<E>, rows: seq<Row<E>>, n: nat)
    requires Linked(rowHash, rows) && n <= |rows|
    ensures Linked(rowHash, rows[..n])
  {
    forall i | 0 <= i < n
      ensures RowLinked(rowHash, rows[..n], GENESIS_HASH, i)
    {
      assert RowLinked(rowHash, rows, GENESIS_HASH, i);
    }
  }

  lemma LinkedSnoc<E>(rowHash: RowHash<E>, rows: seq<Row<E>>, row: Row<E>)
    requires Linked(rowHash, rows) && row.prev == HeadHash(rows) && row.curr == rowHash(row.prev, row.event)
    ensures Linked(rowHash, rows + [row])
  {
    forall i | 0 <= i < |rows|
      ensures RowLinked(rowHash, rows + [row], GENESIS_HASH, i)
    {
      assert RowLinked(rowHash, rows, GENESIS_HASH, i);
    }
  }

  // ------------------------------------------------- what the head commits to

  /** Among the rows of two tables the row hash collides only on the same
      predecessor and on events related by `same`, and never hits the genesis value. */
  ghost predicate Binding<E(!new)>(rowHash: RowHash<E>, same: (E, E) -> bool, a: seq<Row<E>>, b: seq<Row<E>>) {
    && (forall r, s :: r in a && s in b && rowHash(r.prev, r.event) == rowHash(s.prev, s.event) ==>
          r.prev == s.prev && same(r.event, s.event))
    && (forall r :: r in a || r in b ==> rowHash(r.prev, r.event) != GENESIS_HASH)
  }

  predicate SameLog<E>(same: (E, E) -> bool, a: seq<Row<E>>, b: seq<Row<E>>) {
    |a| == |b| && forall i :: 0 <= i < |a| ==> same(a[i].event, b[i].event)
  }

  lemma SameLogSnoc<E>(same: (E, E) -> bool, a: seq<Row<E>>, b: seq<Row<E>>)
    requires a != [] && b != [] && SameLog(same, a[..|a| - 1], b[..|b| - 1])
    requires same(a[|a| - 1].event, b[|b| - 1].event)
    ensures SameLog(same, a, b)
  {
  }

  lemma SameLogEmpty<E>(same: (E, E) -> bool, a: seq<Row<E>>, b: seq<Row<E>>)
    requires a == b == []
    ensures SameLog(same, a, b)
  {
  }

  lemma BindingPair<E(!new)>(rowHash: RowHash<E>, same: (E, E) -> bool, a: seq<Row<E>>, b: seq<Row<E>>, r: Row<E>, s: Row<E>)
    requires Binding(rowHash, same, a, b)
    ensures r in a && s in b && rowHash(r.prev, r.event) == rowHash(s.prev, s.event) ==>
              r.prev == s.prev && same(r.event, s.event)
    ensures r in a || r in b ==> rowHash(r.prev, r.event) != GENESIS_HASH
  {
  }

  lemma BindingPrefix<E(!new)>(rowHash: RowHash<E>, same: (E, E) -> bool, a: seq<Row<E>>, b: seq<Row<E>>, m: nat, n: nat)
    requires Binding(rowHash, same, a, b) && m <= |a| && n <= |b|
    ensures Binding(rowHash, same, a[..m], b[..n])
  {
  }

  lemma LastLinked<E>(rowHash: RowHash<E>, rows: seq<Row<E>>)
    requires Linked(rowHash, rows)
    ensures rows != [] ==> var last := rows[|rows| - 1];
      last in rows && last.prev == HeadHash(rows[..|rows| - 1]) && HeadHash(rows) == rowHash(last.prev, last.event)
  {
    if rows != [] {
      assert RowLinked(rowHash, rows, GENESIS_HASH, |rows| - 1);
    }
  }

  /** Two verified tables with the same head hash record the same events. */
  lemma {:induction false} HeadDeterminesLog<E(!new)>(rowHash: RowHash<E>, same: (E, E) -> bool, a: seq<Row<E>>, b: seq<Row<E>>)
    requires Linked(rowHash, a) && Linked(rowHash, b) && Binding(rowHash, same, a, b)
    requires HeadHash(a) == HeadHash(b)
    ensures SameLog(same, a, b)
    decreases |a|
  {
    hide Binding, Linked, SameLog;
    LastLinked(rowHash, a);
    LastLinked(rowHash, b);
    if a == [] {
      if b != [] { BindingPair(rowHash, same, a, b, b[|b| - 1], b[|b| - 1]); }
      assert b == [];
      assert SameLog(same, a, b) by { SameLogEmpty(same, a, b); }
    } else {
      var m, n := |a| - 1, |b| - 1;
      BindingPair(rowHash, same, a, b, a[m], a[m]);
      assert b != [];
      BindingPair(rowHash, same, a, b, a[m], b[n]);
      LinkedPrefix(rowHash, a, m);
      LinkedPrefix(rowHash, b, n);
      BindingPrefix(rowHash, same, a, b, m, n);
      HeadDeterminesLog(rowHash, same, a[..m], b[..n]);
      SameLogSnoc(same, a, b);
    }
  }

  /** No two rows of a well-linked table name the same predecessor. */
  lemma PredecessorsDistinct<E(!new)>(rowHash: RowHash<E>, same: (E, E) -> bool, rows: seq<Row<E>>, i: nat, j: nat)
    requires Linked(rowHash, rows) && Binding(rowHash, same, rows, rows) && i < j < |rows|
    ensures rows[i].prev != rows[j].prev
  {
    assert RowLinked(rowHash, rows, GENESIS_HASH, i) && RowLinked(rowHash, rows, GENESIS_HASH, j);
    LinkedPrefix(rowHash, rows, i);
    LinkedPrefix(rowHash, rows, j);
    assert HeadHash(rows[..i]) == rows[i].prev && HeadHash(rows[..j]) == rows[j].prev;
    if rows[i].prev == rows[j].prev {
      BindingPrefix(rowHash, same, rows, rows, i, j);
      HeadDeterminesLog(rowHash, same, rows[..i], rows[..j]);
    }
  }

  // ------------------------------------------------------------- verification

  datatype Reason = PrevMismatch | CurrMismatch
  datatype Verdict = Verified | Failed(id: int, reason: Reason)

  /** A one-pass check of the whole table. */
  function Check<E>(rowHash: RowHash<E>, rows: seq<Row<E>>, expected: Text): Verdict {
    if rows == [] then Verified
    else if rows[0].prev != expected then Failed(rows[0].id, PrevMismatch)
    else if rowHash(rows[0].prev, rows[0].event) != rows[0].curr then Failed(rows[0].id, CurrMismatch)
    else Check(rowHash, rows[1..], rows[0].curr)
  }

  function FaultOf<E>(rows: seq<Row<E>>, expected: Text, i: nat): Reason
    requires i < |rows|
  {
    if rows[i].prev != (if i == 0 then expected else rows[i - 1].curr) then PrevMismatch else CurrMismatch
  }

  /** The verdict in terms of the rows: the first ill-linked row, and which of the two faults it has. */
  lemma {:induction false} CheckFindsFirst<E>(rowHash: RowHash<E>, rows: seq<Row<E>>, expected: Text) returns (i: nat)
    ensures i <= |rows| && forall j :: 0 <= j < i ==> RowLinked(rowHash, rows, expected, j)
    ensures i == |rows| ==> Check(rowHash, rows, expected) == Verified
    ensures i < |rows| ==> !RowLinked(rowHash, rows, expected, i)
    ensures i < |rows| ==> Check(rowHash, rows, expected) == Failed(rows[i].id, FaultOf(rows, expected, i))
  {
    if rows == [] || !RowLinked(rowHash, rows, expected, 0) {
      i := 0;
    } else {
      var rest := rows[1..];
      var k := CheckFindsFirst(rowHash, rest, rows[0].curr);
      i := k + 1;
      forall j | 0 <= j < i ensures RowLinked(rowHash, rows, expected, j) {
        if j > 0 { assert RowLinked(rowHash, rest, rows[0].curr, j - 1); }
      }
    }
  }

  /** The one-pass check accepts exactly the well-linked tables. */
  lemma VerifiedIffLinked<E>(rowHash: RowHash<E>, rows: seq<Row<E>>)
    ensures Check(rowHash, rows, GENESIS_HASH) == Verified <==> Linked(rowHash, rows)
  {
    var i := CheckFindsFirst(rowHash, rows, GENESIS_HASH);
  }

  /** Rows in primary-key order, all keys above `low`. A BIGSERIAL counts from 1. */
  predicate Ascending<E>(rows: seq<Row<E>>, low: int) {
    rows != [] ==> low < rows[0].id && Ascending(rows[1..], rows[0].id)
  }

  /** `WHERE id > lastId ORDER BY id`. */
  function AfterId<E>(rows: seq<Row<E>>, lastId: int): seq<Row<E>> {
    if rows == [] || rows[0].id > lastId then rows else AfterId(rows[1..], lastId)
  }

  function Page<E>(rows: seq<Row<E>>, lastId: int, limit: nat): seq<Row<E>> {
    var rest := AfterId(rows, lastId);
    if |rest| <= limit then rest else rest[..limit]
  }

  lemma {:induction false} AfterIdIsSuffix<E>(rows: seq<Row<E>>, low: int, n: nat, lastId: int)
    requires Ascending(rows, low) && n <= |rows|
    requires if n == 0 then lastId == low else lastId == rows[n - 1].id
    ensures low <= lastId && AfterId(rows, lastId) == rows[n..]
  {
    if n == 0 {
    } else {
      AfterIdIsSuffix(rows[1..], rows[0].id, n - 1, lastId);
      assert rows[1..][n - 1..] == rows[n..];
    }
  }

  /** The states of a table that other writers append to. */
  ghost predicate Growing<E>(tables: seq<seq<Row<E>>>) {
    tables != [] ==>
      && Ascending(tables[0], 0)
      && (|tables| > 1 ==> tables[0] <= tables[1])
      && Growing(tables[1..])
  }

  /** The table as fetch number `k` sees it. */
  function Snapshot<E>(tables: seq<seq<Row<E>>>, k: nat): seq<Row<E>>
    requires tables != []
  {
    if k < |tables| then tables[k] else tables[|tables| - 1]
  }

  lemma {:induction false} SnapshotGrows<E>(tables: seq<seq<Row<E>>>, k: nat)
    requires tables != [] && Growing(tables)
    ensures Ascending(Snapshot(tables, k), 0)
    ensures Snapshot(tables, k) <= Snapshot(tables, k + 1)
    ensures |Snapshot(tables, k)| <= |tables[|tables| - 1]|
    decreases |tables|
  {
    if |tables| > 1 {
      SnapshotGrows(tables[1..], if k == 0 then 0 else k - 1);
    }
  }

  function Min(a: nat, b: nat): nat { if a <= b then a else b }

  /** The rows that `pages` full pages hold. */
  function FullPages(pages: nat, batchSize: nat): nat {
    if pages == 0 then 0 else FullPages(pages - 1, batchSize) + batchSize
  }

  /** A check splits at any row. */
  lemma {:induction false} CheckAppend<E>(rowHash: RowHash<E>, a: seq<Row<E>>, b: seq<Row<E>>, expected: Text)
    ensures var first := Check(rowHash, a, expected);
      Check(rowHash, a + b, expected) ==
      if first.Failed? then first else Check(rowHash, b, if a == [] then expected else a[|a| - 1].curr)
  {
    if a == [] {
      assert a + b == b;
    } else {
      assert (a + b)[1..] == a[1..] + b;
      CheckAppend(rowHash, a[1..], b, a[0].curr);
    }
  }

  /** What the verifier knows after the rows `seen` of a table. */
  ghost predicate Passed<E>(rowHash: RowHash<E>, rows: seq<Row<E>>, seen: seq<Row<E>>, head: Text) {
    seen <= rows && Check(rowHash, seen, GENESIS_HASH) == Verified && head == HeadHash(seen)
  }

  lemma CheckSplit<E>(rowHash: RowHash<E>, seen: seq<Row<E>>, rest: seq<Row<E>>)
    requires Check(rowHash, seen, GENESIS_HASH) == Verified
    ensures Check(rowHash, seen + rest, GENESIS_HASH) == Check(rowHash, rest, HeadHash(seen))
  {
    CheckAppend(rowHash, seen, rest, GENESIS_HASH);
  }

  lemma CheckAfterPassed<E>(rowHash: RowHash<E>, rows: seq<Row<E>>, seen: seq<Row<E>>, head: Text)
    requires Passed(rowHash, rows, seen, head)
    ensures seen == rows ==> Check(rowHash, rows, GENESIS_HASH) == Verified
    ensures |seen| < |rows| ==> var row := rows[|seen|];
      if row.prev != head then Check(rowHash, rows, GENESIS_HASH) == Failed(row.id, PrevMismatch)
      else if rowHash(row.prev, row.event) != row.curr then Check(rowHash, rows, GENESIS_HASH) == Failed(row.id, CurrMismatch)
      else Passed(rowHash, rows, seen + [row], row.curr)
  {
    hide HeadHash;
    var rest := rows[|seen|..];
    assert rows == seen + rest;
    CheckSplit(rowHash, seen, rest);
    if rest != [] {
      CheckSplit(rowHash, seen, [rest[0]]);
      assert HeadHash(seen + [rest[0]]) == rest[0].curr by { LastIsHead(seen, rest[0]); }
    }
  }

  lemma LastIsHead<E>(rows: seq<Row<E>>, row: Row<E>)
    ensures HeadHash(rows + [row]) == row.curr
  {
  }

  /** The loop over one page, the rows of the table that follow `seen`. */
  method CheckPage<E>(rowHash: RowHash<E>, ghost table: seq<Row<E>>, ghost seen: seq<Row<E>>, rows: seq<Row<E>>, expected: Text)
    returns (verdict: Verdict, head: Text)
    requires Passed(rowHash, table, seen, expected) && seen + rows <= table
    ensures verdict.Failed? ==> verdict == Check(rowHash, table, GENESIS_HASH)
    ensures verdict.Verified? ==> Passed(rowHash, table, seen + rows, head)
  {
    head := expected;
    assert seen + rows[..0] == seen;
    for i := 0 to |rows|
      invariant Passed(rowHash, table, seen + rows[..i], head)
    {
      var row := rows[i];
      CheckAfterPassed(rowHash, table, seen + rows[..i], head);
      assert row == (seen + rows)[|seen| + i];
      if row.prev != head { return Failed(row.id, PrevMismatch), head; }
      if rowHash(row.prev, row.event) != row.curr { return Failed(row.id, CurrMismatch), head; }
      assert seen + rows[..i] + [row] == seen + rows[..i + 1];
      head := row.curr;
    }
    assert rows[..|rows|] == rows;
    return Verified, head;
  }

  lemma PageFollows<E>(tables: seq<seq<Row<E>>>, k: nat, seen: seq<Row<E>>, lastId: int, limit: nat)
    requires tables != [] && Growing(tables) && seen <= Snapshot(tables, k)
    requires if seen == [] then lastId == 0 else lastId == seen[|seen| - 1].id
    ensures var page := Page(Snapshot(tables, k), lastId, limit);
      seen + page <= Snapshot(tables, k) && |page| == Min(limit, |Snapshot(tables, k)| - |seen|) &&
      seen + page <= Snapshot(tables, k + 1)
    ensures |Snapshot(tables, k)| <= |tables[|tables| - 1]|
  {
    SnapshotGrows(tables, k);
    AfterIdIsSuffix(Snapshot(tables, k), 0, |seen|, lastId);
    assert Snapshot(tables, k) == seen + Snapshot(tables, k)[|seen|..];
  }

  /** The answer given after `fetches` page fetches: the one-pass check of the table as
      the last fetch saw it, and the rows of the pages fetched. */
  ghost predicate AnswerAfter<E>(rowHash: RowHash<E>, tables: seq<seq<Row<E>>>, batchSize: nat, fetches: nat, verdict: Verdict, rowsChecked: nat)
    requires tables != [] && fetches >= 1
  {
    var last := Snapshot(tables, fetches - 1);
    && verdict == Check(rowHash, last, GENESIS_HASH)
    && rowsChecked == Min(|last|, FullPages(fetches, batchSize))
    && (verdict.Verified? ==> rowsChecked == |last|)
  }

  /** Before fetch number `fetch`: the rows `seen` passed, full pages all of them. */
  ghost predicate Progress<E>(rowHash: RowHash<E>, tables: seq<seq<Row<E>>>, batchSize: nat, fetch: nat, seen: seq<Row<E>>, head: Text, lastId: int)
    requires tables != []
  {
    && |seen| == FullPages(fetch, batchSize) && Passed(rowHash, Snapshot(tables, fetch), seen, head)
    && if seen == [] then lastId == 0 else lastId == seen[|seen| - 1].id
  }

  lemma NoProgress<E>(rowHash: RowHash<E>, tables: seq<seq<Row<E>>>, batchSize: nat)
    requires tables != []
    ensures Progress(rowHash, tables, batchSize, 0, [], GENESIS_HASH, 0)
  {
  }

  lemma PageReady<E>(rowHash: RowHash<E>, tables: seq<seq<Row<E>>>, batchSize: nat, fetch: nat, seen: seq<Row<E>>, head: Text, lastId: int)
    requires tables != [] && Growing(tables) && Progress(rowHash, tables, batchSize, fetch, seen, head, lastId)
    ensures var table := Snapshot(tables, fetch); var rows := Page(table, lastId, batchSize);
      && Passed(rowHash, table, seen, head) && seen + rows <= table && |rows| == Min(batchSize, |table| - |seen|)
      && |seen| == FullPages(fetch, batchSize) && |table| <= |tables[|tables| - 1]|
  {
    hide Growing, Page, Check;
    PageFollows(tables, fetch, seen, lastId, batchSize);
  }

  lemma PagePassed<E>(rowHash: RowHash<E>, tables: seq<seq<Row<E>>>, batchSize: nat, fetch: nat, seen: seq<Row<E>>, before: Text, lastId: int, head: Text)
    requires tables != [] && Growing(tables) && batchSize >= 1 && Progress(rowHash, tables, batchSize, fetch, seen, before, lastId)
    requires var rows := Page(Snapshot(tables, fetch), lastId, batchSize);
      |rows| == batchSize && Passed(rowHash, Snapshot(tables, fetch), seen + rows, head)
    ensures var rows := Page(Snapshot(tables, fetch), lastId, batchSize);
      Progress(rowHash, tables, batchSize, fetch + 1, seen + rows, head, rows[|rows| - 1].id)
  {
    hide Growing, Page, Check;
    PageFollows(tables, fetch, seen, lastId, batchSize);
    var rows := Page(Snapshot(tables, fetch), lastId, batchSize);
    assert (seen + rows)[|seen + rows| - 1] == rows[|rows| - 1];
  }

  /** A page that is not full is the table's last. */
  lemma LastPage<E>(rowHash: RowHash<E>, tables: seq<seq<Row<E>>>, batchSize: nat, fetch: nat, seen: seq<Row<E>>, rows: seq<Row<E>>, head: Text)
    requires tables != [] && |seen| == FullPages(fetch, batchSize) && Passed(rowHash, Snapshot(tables, fetch), seen + rows, head)
    requires |rows| == Min(batchSize, |Snapshot(tables, fetch)| - |seen|) && |rows| < batchSize
    ensures AnswerAfter(rowHash, tables, batchSize, fetch + 1, Verified, |seen| + |rows|)
    ensures |tables| == 1 ==> Check(rowHash, tables[0], GENESIS_HASH) == Verified
  {
    hide Check;
    assert seen + rows == Snapshot(tables, fetch);
  }

  lemma FailedPage<E>(rowHash: RowHash<E>, tables: seq<seq<Row<E>>>, batchSize: nat, fetch: nat, seen: seq<Row<E>>, rows: seq<Row<E>>, verdict: Verdict)
    requires tables != [] && |seen| == FullPages(fetch, batchSize) && |seen| <= |Snapshot(tables, fetch)|
    requires |rows| == Min(batchSize, |Snapshot(tables, fetch)| - |seen|)
    requires verdict.Failed? && verdict == Check(rowHash, Snapshot(tables, fetch), GENESIS_HASH)
    ensures AnswerAfter(rowHash, tables, batchSize, fetch + 1, verdict, |seen| + |rows|)
    ensures |tables| == 1 ==> Check(rowHash, tables[0], GENESIS_HASH) == verdict
  {
    hide Check;
  }

  /** verifyAuditChain: pages of `batchSize` rows, other writers appending between
      pages. Whatever the page size, the verdict is the one-pass check of the table; of
      the table as the last page fetch saw it, if it grew meanwhile. */
  method VerifyAuditChain<E>(rowHash: RowHash<E>, tables: seq<seq<Row<E>>>, batchSize: nat)
    returns (verdict: Verdict, rowsChecked: nat, ghost fetches: nat)
    requires tables != [] && Growing(tables) && batchSize >= 1
    ensures |tables| == 1 ==> verdict == Check(rowHash, tables[0], GENESIS_HASH)
    ensures fetches >= 1 && AnswerAfter(rowHash, tables, batchSize, fetches, verdict, rowsChecked)
  {
    hide Growing, Page, AfterId, Passed, Check, AnswerAfter, FullPages, Progress;
    var expectedPrevHash := GENESIS_HASH;
    var lastId := 0;
    rowsChecked := 0;
    var fetch: nat := 0;
    ghost var seen: seq<Row<E>> := [];
    NoProgress(rowHash, tables, batchSize);
    while true
      invariant rowsChecked == |seen| && Progress(rowHash, tables, batchSize, fetch, seen, expectedPrevHash, lastId)
      decreases |tables[|tables| - 1]| - |seen|
    {
      var table := Snapshot(tables, fetch);
      PageReady(rowHash, tables, batchSize, fetch, seen, expectedPrevHash, lastId);
      var rows := Page(table, lastId, batchSize);
      if |rows| == 0 {
        assert seen + rows == seen;
        LastPage(rowHash, tables, batchSize, fetch, seen, rows, expectedPrevHash);
        return Verified, rowsChecked, fetch + 1;
      }
      ghost var before := expectedPrevHash;
      rowsChecked := rowsChecked + |rows|;
      verdict, expectedPrevHash := CheckPage(rowHash, table, seen, rows, expectedPrevHash);
      if verdict.Failed? {
        FailedPage(rowHash, tables, batchSize, fetch, seen, rows, verdict);
        return verdict, rowsChecked, fetch + 1;
      }
      if |rows| < batchSize {
        LastPage(rowHash, tables, batchSize, fetch, seen, rows, expectedPrevHash);
        return Verified, rowsChecked, fetch + 1;
      }
      PagePassed(rowHash, tables, batchSize, fetch, seen, before, lastId, expectedPrevHash);
      seen := seen + rows;
      lastId := rows[|rows| - 1].id;
      fetch := fetch + 1;
    }
  }
}
