/** The renderer's first pass: the content cut into plain segments and task rows. The
    rows are the server's tasks, and a click on row k comes back as row k changed. */
module TaskRows {
  import opened JsText
  import opened TaskScanner
  import opened TaskToggle

  const NEWLINE: Unit := 0x0A

  /** A segment knows whether a newline was cut off its start or its end, a row its match
      and where in it the description begins. */
  datatype Piece =
    | Segment(text: Text, cutBefore: bool, cutAfter: bool)
    | Row(task: Task, disabled: bool, source: Text, textAt: nat)

  function TextOf(p: Piece): Text {
    match p
    case Segment(text, before, after) => (if before then [NEWLINE] else []) + text + (if after then [NEWLINE] else [])
    case Row(_, _, source, _) => source
  }

  /** `before.endsWith('\\n')`, then without it. */
  function CutEnd(text: Text): Piece {
    if text != [] && text[|text| - 1] == NEWLINE then Segment(text[..|text| - 1], false, true) else Segment(text, false, false)
  }

  function CutStart(text: Text): Piece {
    if text != [] && text[0] == NEWLINE then Segment(text[1..], true, false) else Segment(text, false, false)
  }

  /** The row of match number `k`; an optimistic toggle in flight overrides and disables it. */
  function RowOf(s: Text, m: Match, k: nat, overrides: map<nat, bool>): Piece
    requires Fits(s, m)
  {
    var task := TaskOf(s, m, k);
    Row(if k in overrides then task.(checked := overrides[k]) else task, k in overrides, s[m.start..m.end], m.textStart - m.start)
  }

  predicate InOrder(s: Text, ms: seq<Match>, cursor: nat) {
    cursor <= |s| && (ms != [] ==> Fits(s, ms[0]) && cursor <= ms[0].start && InOrder(s, ms[1..], ms[0].end))
  }

  /** Segment, row, segment, ..., row, segment, from `cursor` on. */
  function PiecesFrom(s: Text, ms: seq<Match>, k: nat, cursor: nat, overrides: map<nat, bool>): seq<Piece>
    requires InOrder(s, ms, cursor)
  {
    if ms == [] then [CutStart(s[cursor..])]
    else [CutEnd(s[cursor..ms[0].start]), RowOf(s, ms[0], k, overrides)] + PiecesFrom(s, ms[1..], k + 1, ms[0].end, overrides)
  }

  /** What is pushed: every row, and the segments that are not empty. */
  function Shown(ps: seq<Piece>): seq<Piece> {
    if ps == [] then []
    else if ps[0].Row? || ps[0].text != [] then [ps[0]] + Shown(ps[1..]) else Shown(ps[1..])
  }

  lemma {:induction false} MatchesInOrder(s: Text, from: nat, alias: Text)
    requires from <= |s|
    ensures InOrder(s, Matches(s, from, alias), from)
    decreases |s| - from
  {
    hide MatchAt, OpensTask;
    var ms := Matches(s, from, alias);
    if ms == [] {
    } else {
      assert ms[1..] == Matches(s, ms[0].end, alias);
      MatchesInOrder(s, ms[0].end, alias);
    }
  }

  function AllPieces(s: Text, alias: Text, overrides: map<nat, bool>): seq<Piece> {
    MatchesInOrder(s, 0, alias);
    var ms := Matches(s, 0, alias);
    if ms == [] then [Segment(s, false, false)] else PiecesFrom(s, ms, 0, 0, overrides)
  }

  function TaskPass(s: Text, alias: Text, overrides: map<nat, bool>): seq<Piece> {
    if Matches(s, 0, alias) == [] then AllPieces(s, alias, overrides) else Shown(AllPieces(s, alias, overrides))
  }

  /** A row, after the segment before it unless that is empty. */
  function Pushed(before: Piece, row: Piece): seq<Piece>
    requires before.Segment?
  {
    if before.text != [] then [before, row] else [row]
  }

  lemma Associates(a: seq<Piece>, b: seq<Piece>, c: seq<Piece>)
    ensures a + b + c == a + (b + c)
  {
  }

  method ApplyTaskPass(content: Text, alias: Text, overrides: map<nat, bool>) returns (result: seq<Piece>)
    ensures result == TaskPass(content, alias, overrides)
  {
    hide Matches, Fits, RowOf, CutEnd, CutStart, InOrder, Shown, PiecesFrom, Pushed;
    var matches := Matches(content, 0, alias);
    MatchesInOrder(content, 0, alias);
    if |matches| == 0 { return [Segment(content, false, false)]; }
    result := [];
    var cursor: nat := 0;
    var taskOrdinal: nat := 0;
    ghost var all := PiecesFrom(content, matches, 0, 0, overrides);
    assert matches[0..] == matches;
    while taskOrdinal < |matches|
      invariant taskOrdinal <= |matches| && InOrder(content, matches[taskOrdinal..], cursor)
      invariant result + Shown(PiecesFrom(content, matches[taskOrdinal..], taskOrdinal, cursor, overrides)) == Shown(all)
    {
      var rest := matches[taskOrdinal..];
      var m := rest[0];
      assert rest[1..] == matches[taskOrdinal + 1..];
      FirstPieces(content, rest, taskOrdinal, cursor, overrides);
      var before := CutEnd(content[cursor..m.start]);
      var row := RowOf(content, m, taskOrdinal, overrides);
      ghost var shown := Shown(PiecesFrom(content, rest[1..], taskOrdinal + 1, m.end, overrides));
      Associates(result, Pushed(before, row), shown);
      result := result + Pushed(before, row);
      taskOrdinal := taskOrdinal + 1;
      cursor := m.end;
    }
    assert matches[taskOrdinal..] == [];
    LastPiece(content, taskOrdinal, cursor, overrides);
    assert Shown(all) == TaskPass(content, alias, overrides);
    var after := CutStart(content[cursor..]);
    if after.text != [] { result := result + [after]; }
  }

  lemma FirstPieces(s: Text, ms: seq<Match>, k: nat, cursor: nat, overrides: map<nat, bool>)
    requires ms != [] && InOrder(s, ms, cursor)
    ensures Fits(s, ms[0]) && cursor <= ms[0].start <= ms[0].end <= |s| && InOrder(s, ms[1..], ms[0].end)
    ensures CutEnd(s[cursor..ms[0].start]).Segment?
    ensures var before, row := CutEnd(s[cursor..ms[0].start]), RowOf(s, ms[0], k, overrides);
      var shown := Shown(PiecesFrom(s, ms[1..], k + 1, ms[0].end, overrides));
      Shown(PiecesFrom(s, ms, k, cursor, overrides)) == Pushed(before, row) + shown
  {
  }

  lemma LastPiece(s: Text, k: nat, cursor: nat, overrides: map<nat, bool>)
    requires InOrder(s, [], cursor)
    ensures cursor <= |s| && CutStart(s[cursor..]).Segment?
    ensures var after := CutStart(s[cursor..]);
      Shown(PiecesFrom(s, [], k, cursor, overrides)) == if after.text != [] then [after] else []
  {
  }

  // -------------------------------------------------------------- conservation

  function Joined(ps: seq<Piece>): Text {
    if ps == [] then [] else TextOf(ps[0]) + Joined(ps[1..])
  }

  lemma {:induction false} PiecesConserve(s: Text, ms: seq<Match>, k: nat, cursor: nat, overrides: map<nat, bool>)
    requires InOrder(s, ms, cursor)
    ensures Joined(PiecesFrom(s, ms, k, cursor, overrides)) == s[cursor..]
    decreases |ms|
  {
    if ms == [] {
      CutsRestore(s[cursor..]);
      assert Joined([CutStart(s[cursor..])]) == TextOf(CutStart(s[cursor..]));
    } else {
      var m, rest := ms[0], PiecesFrom(s, ms[1..], k + 1, ms[0].end, overrides);
      PiecesConserve(s, ms[1..], k + 1, m.end, overrides);
      CutsRestore(s[cursor..m.start]);
      JoinedTwo(CutEnd(s[cursor..m.start]), RowOf(s, m, k, overrides), rest);
      SplitRest(s, cursor, m.start, m.end);
    }
  }

  lemma SplitRest(s: Text, a: nat, b: nat, c: nat)
    requires a <= b <= c <= |s|
    ensures s[a..b] + (s[b..c] + s[c..]) == s[a..]
  {
  }

  lemma JoinedTwo(a: Piece, b: Piece, rest: seq<Piece>)
    ensures Joined([a, b] + rest) == TextOf(a) + (TextOf(b) + Joined(rest))
  {
  }

  lemma CutsRestore(text: Text)
    ensures TextOf(CutEnd(text)) == text && TextOf(CutStart(text)) == text
  {
  }

  predicate IsEmpty(p: Piece) { p.Segment? && p.text == [] }

  /** `shown` is what remains of `all`, in its order, when some empty segments go. */
  predicate DropsOnlyEmpty(all: seq<Piece>, shown: seq<Piece>) {
    if all == [] then shown == []
    else (shown != [] && shown[0] == all[0] && DropsOnlyEmpty(all[1..], shown[1..])) || (IsEmpty(all[0]) && DropsOnlyEmpty(all[1..], shown))
  }

  lemma {:induction false} ShownDropsOnlyEmpty(ps: seq<Piece>)
    ensures DropsOnlyEmpty(ps, Shown(ps)) && forall p :: p in Shown(ps) ==> !IsEmpty(p)
  {
    if ps == [] {
    } else {
      ShownDropsOnlyEmpty(ps[1..]);
      assert ([ps[0]] + Shown(ps[1..]))[1..] == Shown(ps[1..]);
    }
  }

  /** The pass cuts the text into pieces and loses nothing but one newline at the end of
      the segments before rows and one at the start of the segment after the last. */
  lemma TaskPassConserves(s: Text, alias: Text, overrides: map<nat, bool>)
    ensures Joined(AllPieces(s, alias, overrides)) == s
    ensures DropsOnlyEmpty(AllPieces(s, alias, overrides), TaskPass(s, alias, overrides))
    ensures Matches(s, 0, alias) != [] ==> forall p :: p in TaskPass(s, alias, overrides) ==> !IsEmpty(p)
  {
    hide Matches;
    MatchesInOrder(s, 0, alias);
    var ms := Matches(s, 0, alias);
    var all := AllPieces(s, alias, overrides);
    if ms == [] {
      assert all[1..] == [] && TaskPass(s, alias, overrides) == all;
      assert DropsOnlyEmpty([], []);
    } else {
      PiecesConserve(s, ms, 0, 0, overrides);
      assert s[0..] == s;
      ShownDropsOnlyEmpty(all);
    }
  }

  // ---------------------------------------------------------------------- rows

  /** The rows whose toggle is under way, and no others, are disabled. */
  lemma RowsDisabled(s: Text, alias: Text, overrides: map<nat, bool>, p: Piece)
    requires p in TaskPass(s, alias, overrides) && p.Row?
    ensures p.disabled <==> p.task.index in overrides
  {
    hide Matches, PiecesFrom;
    MatchesInOrder(s, 0, alias);
    ShownDropsOnlyEmpty(AllPieces(s, alias, overrides));
    ShownAmong(AllPieces(s, alias, overrides), p);
    PiecesDisabled(s, Matches(s, 0, alias), 0, 0, overrides, p);
  }

  lemma {:induction false} ShownAmong(ps: seq<Piece>, p: Piece)
    requires p in Shown(ps)
    ensures p in ps
  {
    if p in Shown(ps[1..]) { ShownAmong(ps[1..], p); }
  }

  lemma {:induction false} PiecesDisabled(s: Text, ms: seq<Match>, k: nat, cursor: nat, overrides: map<nat, bool>, p: Piece)
    requires InOrder(s, ms, cursor) && p in PiecesFrom(s, ms, k, cursor, overrides) && p.Row?
    ensures p.disabled <==> p.task.index in overrides
    decreases |ms|
  {
    hide TaskScanner.Fits;
    if ms != [] && p in PiecesFrom(s, ms[1..], k + 1, ms[0].end, overrides) {
      PiecesDisabled(s, ms[1..], k + 1, ms[0].end, overrides, p);
    }
  }

  function Rows(ps: seq<Piece>): seq<Task> {
    if ps == [] then [] else if ps[0].Row? then [ps[0].task] + Rows(ps[1..]) else Rows(ps[1..])
  }

  function Overridden(tasks: seq<Task>, overrides: map<nat, bool>): (r: seq<Task>)
    ensures |r| == |tasks|
  {
    seq(|tasks|, k requires 0 <= k < |tasks| => if k in overrides then tasks[k].(checked := overrides[k]) else tasks[k])
  }

  lemma {:induction false} RowsShown(ps: seq<Piece>)
    ensures Rows(Shown(ps)) == Rows(ps)
  {
    if ps == [] {
    } else {
      RowsShown(ps[1..]);
      assert ([ps[0]] + Shown(ps[1..]))[1..] == Shown(ps[1..]);
    }
  }

  predicate AllFit(s: Text, ms: seq<Match>) { forall i :: 0 <= i < |ms| ==> Fits(s, ms[i]) }

  function RowTasks(s: Text, ms: seq<Match>, k: nat, overrides: map<nat, bool>): (r: seq<Task>)
    requires AllFit(s, ms)
    ensures |r| == |ms|
  {
    if ms == [] then [] else [RowOf(s, ms[0], k, overrides).task] + RowTasks(s, ms[1..], k + 1, overrides)
  }

  lemma {:induction false} RowTaskAt(s: Text, ms: seq<Match>, k: nat, overrides: map<nat, bool>, i: nat)
    requires AllFit(s, ms) && i < |ms|
    ensures RowTasks(s, ms, k, overrides)[i] == RowOf(s, ms[i], k + i, overrides).task
    decreases |ms|
  {
    hide RowOf, Fits;
    if i == 0 {
    } else {
      RowTaskAt(s, ms[1..], k + 1, overrides, i - 1);
    }
  }

  lemma {:induction false} RowsOfPieces(s: Text, ms: seq<Match>, k: nat, cursor: nat, overrides: map<nat, bool>)
    requires InOrder(s, ms, cursor) && AllFit(s, ms)
    ensures Rows(PiecesFrom(s, ms, k, cursor, overrides)) == RowTasks(s, ms, k, overrides)
    decreases |ms|
  {
    hide RowOf, Fits, CutEnd, CutStart, Rows;
    OrderBounds(s, ms, cursor);
    if ms != [] {
      var rest := PiecesFrom(s, ms[1..], k + 1, ms[0].end, overrides);
      RowsOfPieces(s, ms[1..], k + 1, ms[0].end, overrides);
      CutsAreSegments(s[cursor..ms[0].start]);
      RowIsRow(s, ms[0], k, overrides);
      RowsTwo(CutEnd(s[cursor..ms[0].start]), RowOf(s, ms[0], k, overrides), rest);
    } else {
      CutsAreSegments(s[cursor..]);
      RowsNone(CutStart(s[cursor..]));
    }
  }

  lemma OrderBounds(s: Text, ms: seq<Match>, cursor: nat)
    requires InOrder(s, ms, cursor)
    ensures cursor <= |s| && (ms != [] ==> cursor <= ms[0].start <= ms[0].end <= |s|)
  {
  }

  lemma CutsAreSegments(text: Text)
    ensures CutStart(text).Segment? && CutEnd(text).Segment?
  {
  }

  lemma RowIsRow(s: Text, m: Match, k: nat, overrides: map<nat, bool>)
    requires Fits(s, m)
    ensures RowOf(s, m, k, overrides).Row?
  {
  }

  lemma RowsNone(p: Piece)
    requires p.Segment?
    ensures Rows([p]) == []
  {
  }

  lemma RowsTwo(a: Piece, b: Piece, rest: seq<Piece>)
    requires a.Segment? && b.Row?
    ensures Rows([a, b] + rest) == [b.task] + Rows(rest)
  {
  }

  /** The rows shown are the tasks that the server parses, in order and with the indices
      the toggle endpoint takes, toggles in flight overriding. */
  lemma RowsAreTasks(s: Text, alias: Text, overrides: map<nat, bool>)
    ensures Rows(TaskPass(s, alias, overrides)) == Overridden(Tasks(s, alias), overrides)
  {
    hide Matches, Fits, PiecesFrom, RowOf, Rows, Shown, Tasks, Overridden;
    var ms := Matches(s, 0, alias);
    MatchesInOrder(s, 0, alias);
    MatchesFit(s, alias);
    RowTasksAreTasks(s, alias, overrides);
    if ms != [] {
      RowsOfPieces(s, ms, 0, 0, overrides);
      RowsShown(AllPieces(s, alias, overrides));
    } else {
      RowsNone(Segment(s, false, false));
    }
  }

  lemma RowTasksAreTasks(s: Text, alias: Text, overrides: map<nat, bool>)
    ensures AllFit(s, Matches(s, 0, alias))
    ensures RowTasks(s, Matches(s, 0, alias), 0, overrides) == Overridden(Tasks(s, alias), overrides)
  {
    hide Matches, Fits, RowOf, RowTasks, Tasks, Overridden, TaskOf;
    MatchesFit(s, alias);
    TaskPerMatch(s, alias);
    var ms := Matches(s, 0, alias);
    forall i | 0 <= i < |ms| ensures RowTasks(s, ms, 0, overrides)[i] == Overridden(Tasks(s, alias), overrides)[i] {
      RowTaskAt(s, ms, 0, overrides, i);
      RowIsTask(s, ms[i], i, overrides);
      OverriddenAt(Tasks(s, alias), overrides, i);
    }
  }

  lemma OverriddenAt(tasks: seq<Task>, overrides: map<nat, bool>, i: nat)
    requires i < |tasks|
    ensures Overridden(tasks, overrides)[i] == if i in overrides then tasks[i].(checked := overrides[i]) else tasks[i]
  {
  }

  lemma RowIsTask(s: Text, m: Match, k: nat, overrides: map<nat, bool>)
    requires Fits(s, m)
    ensures var task := TaskOf(s, m, k);
      RowOf(s, m, k, overrides).Row? && RowOf(s, m, k, overrides).task == if k in overrides then task.(checked := overrides[k]) else task
  {
  }

  lemma MatchesFit(s: Text, alias: Text)
    ensures AllFit(s, Matches(s, 0, alias))
  {
  }

  /** A click on row `index` that the server accepts changes that row and no other. */
  lemma ClickChangesRow(s: Text, alias: Text, index: nat, checked: bool)
    requires OneLine(alias) && index < |Rows(TaskPass(s, alias, map[]))|
    ensures var rows := Rows(TaskPass(s, alias, map[]));
      Toggled(s, index, checked, alias).Some? &&
      Rows(TaskPass(Toggled(s, index, checked, alias).value, alias, map[])) == rows[index := rows[index].(checked := checked)]
  {
    hide TaskPass, Tasks, Toggled, OneLine;
    RowsAreTasks(s, alias, map[]);
    assert Overridden(Tasks(s, alias), map[]) == Tasks(s, alias);
    ToggleRefinesParse(s, index, checked, alias);
    var t := Toggled(s, index, checked, alias).value;
    RowsAreTasks(t, alias, map[]);
    assert Overridden(Tasks(t, alias), map[]) == Tasks(t, alias);
  }
}
