/** The inline-task tokenizer: the regular expression
      ^-\s\[([ xX])\]\s+(.*?)(?:\s+\[alias::\s*@([a-zA-Z0-9_.-]{3,50})\])?\s*$   (flags g, m)
    as a scanner without backtracking, and the proof that the scanner finds what
    the backtracking matcher of section 22.2 of ECMA-262 tries first. */
module TaskScanner {
  import opened JsText

  const DASH: Unit := 0x2D
  const LBRACKET: Unit := 0x5B
  const RBRACKET: Unit := 0x5D
  const AT: Unit := 0x40
  const COLON: Unit := 0x3A
  const UNCHECKED: Unit := 0x20
  const CHECKED: Unit := 0x78

  /** `^` and `$` with the m flag. */
  predicate AtLineStart(s: Text, p: nat) { p <= |s| && (p == 0 || IsLineTerminator(s[p - 1])) }
  predicate AtLineEnd(s: Text, p: nat) { p == |s| || (p < |s| && IsLineTerminator(s[p])) }

  predicate IsMark(u: Unit) { u == UNCHECKED || u == CHECKED || u == 0x58 }

  /** `^-\s\[[ xX]\]\s` matches at `p`. */
  predicate OpensTask(s: Text, p: nat) {
    && p + 6 <= |s| && AtLineStart(s, p)
    && s[p] == DASH && IsSpace(s[p + 1]) && s[p + 2] == LBRACKET
    && IsMark(s[p + 3]) && s[p + 4] == RBRACKET && IsSpace(s[p + 5])
  }

  /** The end of the run of white space that starts at `p`. */
  function SpaceEnd(s: Text, p: nat): (r: nat)
    requires p <= |s|
    ensures p <= r <= |s| && forall i :: p <= i < r ==> IsSpace(s[i])
    ensures r < |s| ==> !IsSpace(s[r])
    decreases |s| - p
  {
    if p < |s| && IsSpace(s[p]) then SpaceEnd(s, p + 1) else p
  }

  /** The end of the run of username characters that starts at `p`. */
  function UserEnd(s: Text, p: nat): (r: nat)
    requires p <= |s|
    ensures p <= r <= |s| && forall i :: p <= i < r ==> IsUserUnit(s[i])
    ensures r < |s| ==> !IsUserUnit(s[r])
    decreases |s| - p
  {
    if p < |s| && IsUserUnit(s[p]) then UserEnd(s, p + 1) else p
  }

  /** The last line end in `low..high`, both included. */
  function LastLineEnd(s: Text, low: nat, high: nat): (r: Option<nat>)
    requires low <= high <= |s|
    ensures r.Some? ==> low <= r.value <= high && AtLineEnd(s, r.value)
    ensures forall k :: low <= k <= high && AtLineEnd(s, k) ==> r.Some? && k <= r.value
    decreases high
  {
    if AtLineEnd(s, high) then Some(high)
    else if high > low then LastLineEnd(s, low, high - 1) else None
  }

  /** `\s*$` from `e`: where the greedy run ends, once it has backed up to a line end. */
  function TrailEnd(s: Text, e: nat): Option<nat>
    requires e <= |s|
  {
    LastLineEnd(s, e, SpaceEnd(s, e))
  }

  /** `[alias::`, the alias taken literally. */
  function Opener(alias: Text): Text { [LBRACKET] + alias + [COLON, COLON] }

  predicate HasAt(s: Text, p: nat, lit: Text) {
    p + |lit| <= |s| && s[p..p + |lit|] == lit
  }

  /** The positions of an owner token's `[`, `@` and `]`. */
  datatype Owner = Owner(open: nat, at: nat, close: nat)

  /** `\s*@(user)\]` from `p`: the positions of the `@` and the `]`. */
  function NameAt(s: Text, p: nat): (r: Option<(nat, nat)>)
    requires p <= |s|
    ensures r.Some? ==> p <= r.value.0 < r.value.1 < |s|
  {
    var at := SpaceEnd(s, p);
    if at == |s| || s[at] != AT then None else
    var close := UserEnd(s, at + 1);
    if 3 <= close - (at + 1) <= 50 && close < |s| && s[close] == RBRACKET then Some((at, close)) else None
  }

  /** `\s+\[alias::\s*@(user)\]` from `e`. */
  function OwnerAt(s: Text, e: nat, alias: Text): (r: Option<Owner>)
    requires e <= |s|
    ensures r.Some? ==> e < r.value.open < r.value.at < r.value.close < |s|
  {
    var open := SpaceEnd(s, e);
    if open == e || !HasAt(s, open, Opener(alias)) then None else
    match NameAt(s, open + |alias| + 3)
    case None => None
    case Some((at, close)) => Some(Owner(open, at, close))
  }

  datatype Tail = Tail(owner: Option<Owner>, end: nat)

  /** `(?:owner)?\s*$` from `e`, the group tried first. */
  function TailAt(s: Text, e: nat, alias: Text): (r: Option<Tail>)
    requires e <= |s|
    ensures r.Some? ==> e <= r.value.end <= |s| && AtLineEnd(s, r.value.end)
    ensures r.Some? && r.value.owner.Some? ==> r.value.owner.value.close < r.value.end && r.value.owner == OwnerAt(s, e, alias)
    ensures AtLineEnd(s, e) ==> r.Some?
  {
    var owner := OwnerAt(s, e, alias);
    if owner.Some? && TrailEnd(s, owner.value.close + 1).Some? then
      Some(Tail(owner, TrailEnd(s, owner.value.close + 1).value))
    else if TrailEnd(s, e).Some? then Some(Tail(None, TrailEnd(s, e).value))
    else None
  }

  /** `(.*?)` from `e`: the first end from which the tail matches, at the latest the end of the line. */
  function TextEnd(s: Text, e: nat, alias: Text): (r: nat)
    requires e <= |s|
    ensures e <= r <= |s| && TailAt(s, r, alias).Some?
    ensures forall i :: e <= i < r ==> !IsLineTerminator(s[i]) && TailAt(s, i, alias).None?
    decreases |s| - e
  {
    if TailAt(s, e, alias).Some? then e else TextEnd(s, e + 1, alias)
  }

  /** One match: its start, the description's bounds, the owner token and its end. */
  datatype Match = Match(start: nat, textStart: nat, textEnd: nat, owner: Option<Owner>, end: nat)

  function MatchAt(s: Text, p: nat, alias: Text): (m: Match)
    requires OpensTask(s, p)
    ensures m.start == p && Fits(s, m)
  {
    var textStart := SpaceEnd(s, p + 5);
    var textEnd := TextEnd(s, textStart, alias);
    var tail := TailAt(s, textEnd, alias).value;
    Match(p, textStart, textEnd, tail.owner, tail.end)
  }

  // ----------------------------------------- the expression, with backtracking

  predicate AllSpace(s: Text, p: nat, q: nat) {
    p <= q <= |s| && forall i :: p <= i < q ==> IsSpace(s[i])
  }

  predicate OwnerToken(s: Text, e: nat, alias: Text, o: Owner) {
    && e < o.open && AllSpace(s, e, o.open) && HasAt(s, o.open, Opener(alias))
    && AllSpace(s, o.open + |alias| + 3, o.at) && o.at < |s| && s[o.at] == AT
    && 3 <= o.close - (o.at + 1) <= 50 && o.close < |s|
    && (forall i :: o.at < i < o.close ==> IsUserUnit(s[i])) && s[o.close] == RBRACKET
  }

  /** `m` is a way to read the whole expression at `m.start`. */
  predicate Parses(s: Text, alias: Text, m: Match) {
    var p := m.start;
    && p + 6 <= |s| && AtLineStart(s, p)
    && s[p] == DASH && IsSpace(s[p + 1]) && s[p + 2] == LBRACKET && IsMark(s[p + 3]) && s[p + 4] == RBRACKET
    && p + 6 <= m.textStart && AllSpace(s, p + 5, m.textStart)
    && m.textStart <= m.textEnd <= |s| && (forall i :: m.textStart <= i < m.textEnd ==> !IsLineTerminator(s[i]))
    && (m.owner.Some? ==> OwnerToken(s, m.textEnd, alias, m.owner.value))
    && AllSpace(s, if m.owner.Some? then m.owner.value.close + 1 else m.textEnd, m.end)
    && AtLineEnd(s, m.end)
  }

  predicate OwnerTriedBefore(o: Owner, o': Owner) {
    o.open > o'.open || (o.open == o'.open && (o.at > o'.at || (o.at == o'.at && o.close > o'.close)))
  }

  /** The matcher tries `m` before `n`: `\s+` longest first, `.*?` shortest first,
      the group present first, its parts and the trailing `\s*` longest first. */
  predicate TriedBefore(m: Match, n: Match) {
    || m.textStart > n.textStart
    || (m.textStart == n.textStart &&
        (|| m.textEnd < n.textEnd
         || (m.textEnd == n.textEnd &&
             (|| (m.owner.Some? && n.owner.None?)
              || (m.owner.Some? && n.owner.Some? && OwnerTriedBefore(m.owner.value, n.owner.value))
              || (m.owner == n.owner && m.end > n.end)))))
  }

  lemma SpaceEndUnique(s: Text, p: nat, q: nat)
    requires AllSpace(s, p, q)
    ensures q <= SpaceEnd(s, p)
    ensures q < |s| && !IsSpace(s[q]) ==> q == SpaceEnd(s, p)
  {
  }

  lemma UserEndUnique(s: Text, p: nat, q: nat)
    requires p <= q < |s| && (forall i :: p <= i < q ==> IsUserUnit(s[i])) && !IsUserUnit(s[q])
    ensures q == UserEnd(s, p)
  {
  }

  lemma UnitClasses()
    ensures !IsSpace(LBRACKET) && !IsSpace(AT) && !IsUserUnit(RBRACKET)
  {
  }

  /** No owner token can be read at `e` but the one the scanner finds. */
  lemma OwnerUnique(s: Text, e: nat, alias: Text, o: Owner)
    requires e <= |s|
    ensures OwnerToken(s, e, alias, o) <==> OwnerAt(s, e, alias) == Some(o)
  {
    hide IsSpace, IsUserUnit, SpaceEnd, UserEnd;
    if OwnerToken(s, e, alias, o) {
      assert !IsSpace(LBRACKET) && !IsSpace(AT) && !IsUserUnit(RBRACKET) by { UnitClasses(); }
      assert s[o.open] == Opener(alias)[0];
      SpaceEndUnique(s, e, o.open);
      SpaceEndUnique(s, o.open + |alias| + 3, o.at);
      UserEndUnique(s, o.at + 1, o.close);
    }
  }

  lemma TrailComplete(s: Text, e: nat, end: nat)
    requires AllSpace(s, e, end) && AtLineEnd(s, end)
    ensures TrailEnd(s, e).Some? && end <= TrailEnd(s, e).value
  {
  }

  /** Once the opening matches, the whole expression does: the scanner's reading is one. */
  lemma ScannerParses(s: Text, alias: Text, p: nat)
    requires OpensTask(s, p)
    ensures Parses(s, alias, MatchAt(s, p, alias))
  {
    var m := MatchAt(s, p, alias);
    TailParses(s, m.textEnd, alias);
  }

  lemma TailParses(s: Text, e: nat, alias: Text)
    requires e <= |s| && TailAt(s, e, alias).Some?
    ensures var t := TailAt(s, e, alias).value;
      && (t.owner.Some? ==> OwnerToken(s, e, alias, t.owner.value))
      && AllSpace(s, if t.owner.Some? then t.owner.value.close + 1 else e, t.end)
  {
  }

  lemma ParseEndsWithTail(s: Text, alias: Text, m: Match)
    requires Parses(s, alias, m)
    ensures m.owner.Some? ==> OwnerAt(s, m.textEnd, alias) == m.owner
    ensures var tail := TailAt(s, m.textEnd, alias);
      tail.Some? && (tail.value.owner == m.owner ==> m.end <= tail.value.end) &&
      (tail.value.owner == m.owner || m.owner.None?)
  {
    if m.owner.Some? {
      OwnerUnique(s, m.textEnd, alias, m.owner.value);
      TrailComplete(s, m.owner.value.close + 1, m.end);
    } else {
      TrailComplete(s, m.textEnd, m.end);
    }
  }

  /** Every other reading of the expression at the same start would be tried later,
      and there is none where no task opens. */
  lemma ScannerIsFirstParse(s: Text, alias: Text, m: Match)
    requires Parses(s, alias, m)
    ensures OpensTask(s, m.start)
    ensures m == MatchAt(s, m.start, alias) || TriedBefore(MatchAt(s, m.start, alias), m)
  {
    hide IsSpace, IsUserUnit, TailAt, OwnerAt, HasAt;
    SpaceEndUnique(s, m.start + 5, m.textStart);
    ParseEndsWithTail(s, alias, m);
  }

  // ------------------------------------------------------------- all the tasks

  /** The first opening at or after `p`; the length of `s` when there is none. */
  function NextOpening(s: Text, p: nat): (r: nat)
    requires p <= |s|
    ensures p <= r <= |s| && (r < |s| ==> OpensTask(s, r))
    ensures forall i :: p <= i < r ==> !OpensTask(s, i)
    decreases |s| - p
  {
    if p == |s| || OpensTask(s, p) then p else NextOpening(s, p + 1)
  }

  predicate IsMatch(s: Text, m: Match, alias: Text) {
    OpensTask(s, m.start) && m == MatchAt(s, m.start, alias)
  }

  /** `matchAll` from position `from` on. */
  function Matches(s: Text, from: nat, alias: Text): (ms: seq<Match>)
    requires from <= |s|
    ensures forall i :: 0 <= i < |ms| ==> IsMatch(s, ms[i], alias)
    decreases |s| - from
  {
    var p := NextOpening(s, from);
    if p == |s| then [] else
    var m := MatchAt(s, p, alias);
    [m] + Matches(s, m.end, alias)
  }

  lemma MatchesHead(s: Text, from: nat, alias: Text)
    requires from <= |s| && Matches(s, from, alias) != []
    ensures var ms := Matches(s, from, alias);
      && from <= ms[0].start < ms[0].end <= |s|
      && var rest := Matches(s, ms[0].end, alias); |rest| == |ms| - 1 && forall j :: 0 <= j < |rest| ==> ms[j + 1] == rest[j]
  {
    hide MatchAt, NextOpening, OpensTask;
  }

  /** Matches follow one another without overlap. */
  lemma {:induction false} MatchesOrdered(s: Text, from: nat, alias: Text, i: nat)
    requires from <= |s| && i < |Matches(s, from, alias)|
    ensures var ms := Matches(s, from, alias);
      from <= ms[0].start && (forall j :: 0 <= j < i ==> ms[j].end <= ms[i].start)
    decreases |s| - from
  {
    hide Matches, IsMatch;
    var ms := Matches(s, from, alias);
    MatchesHead(s, from, alias);
    if i == 0 {
    } else {
      var rest := Matches(s, ms[0].end, alias);
      MatchesOrdered(s, ms[0].end, alias, i - 1);
      MatchesAfter(s, ms[0].end, alias, i - 1);
      assert ms[i] == rest[i - 1];
      forall j | 0 <= j < i ensures ms[j].end <= ms[i].start {
        if j > 0 { assert ms[j] == rest[j - 1]; }
      }
    }
  }

  lemma {:induction false} MatchesAfter(s: Text, from: nat, alias: Text, i: nat)
    requires from <= |s| && i < |Matches(s, from, alias)|
    ensures from <= Matches(s, from, alias)[i].start
    decreases |s| - from
  {
    hide Matches, IsMatch;
    var ms := Matches(s, from, alias);
    MatchesHead(s, from, alias);
    if i == 0 {
    } else {
      MatchesAfter(s, ms[0].end, alias, i - 1);
      assert ms[i] == Matches(s, ms[0].end, alias)[i - 1];
    }
  }

  datatype Task = Task(index: nat, checked: bool, text: Text, owner: Option<Text>)

  predicate Fits(s: Text, m: Match) {
    && m.start + 6 <= m.textStart <= m.textEnd <= m.end <= |s|
    && (m.owner.Some? ==> m.textEnd <= m.owner.value.at < m.owner.value.close < m.end)
  }

  function TaskOf(s: Text, m: Match, index: nat): Task
    requires Fits(s, m)
  {
    Task(index, s[m.start + 3] != UNCHECKED, s[m.textStart..m.textEnd],
         if m.owner.Some? then Some(s[m.owner.value.at + 1..m.owner.value.close]) else None)
  }

  function Tasks(s: Text, alias: Text): (tasks: seq<Task>) {
    var ms := Matches(s, 0, alias);
    seq(|ms|, i requires 0 <= i < |ms| => TaskOf(s, ms[i], i))
  }

  lemma TaskPerMatch(s: Text, alias: Text)
    ensures var ms, tasks := Matches(s, 0, alias), Tasks(s, alias);
      |tasks| == |ms| && forall i :: 0 <= i < |tasks| ==> Fits(s, ms[i]) && tasks[i] == TaskOf(s, ms[i], i)
  {
    hide TaskOf, MatchAt, OpensTask;
  }

  /** What remains of the matches is the next one and what remains after it. */
  lemma NextMatch(s: Text, from: nat, alias: Text, ms: seq<Match>, k: nat)
    requires from <= |s| && k <= |ms| && Matches(s, from, alias) == ms[k..]
    ensures var p := NextOpening(s, from);
      if p == |s| then k == |ms|
      else k < |ms| && ms[k] == MatchAt(s, p, alias) && from < ms[k].end && Matches(s, ms[k].end, alias) == ms[k + 1..]
  {
    hide MatchAt, NextOpening, OpensTask;
    if NextOpening(s, from) < |s| {
      assert ms[k..][0] == ms[k] && ms[k..][1..] == ms[k + 1..];
    }
  }

  method ParseTasks(content: Text, alias: Text) returns (tasks: seq<Task>)
    ensures tasks == Tasks(content, alias)
  {
    hide Matches, MatchAt, NextOpening, OpensTask, Tasks, TaskOf;
    tasks := [];
    var lastIndex := 0;
    ghost var ms, all := Matches(content, 0, alias), Tasks(content, alias);
    TaskPerMatch(content, alias);
    while true
      invariant lastIndex <= |content| && |tasks| <= |all| && tasks == all[..|tasks|]
      invariant Matches(content, lastIndex, alias) == ms[|tasks|..]
      decreases |content| - lastIndex
    {
      NextMatch(content, lastIndex, alias, ms, |tasks|);
      var p := NextOpening(content, lastIndex);
      if p == |content| { return; }
      var m := MatchAt(content, p, alias);
      tasks := tasks + [TaskOf(content, m, |tasks|)];
      lastIndex := m.end;
    }
  }

  // ---------------------------------------------------------------- the toggle

  function MarkFor(checked: bool): Unit { if checked then CHECKED else UNCHECKED }

  /** The text with the mark set of the checkbox that opens at `p`. */
  function WithMark(s: Text, p: nat, checked: bool): Text
    requires OpensTask(s, p)
  {
    s[p + 3 := MarkFor(checked)]
  }

  function Toggled(s: Text, index: int, checked: bool, alias: Text): Option<Text> {
    var ms := Matches(s, 0, alias);
    if 0 <= index < |ms| then Some(WithMark(s, ms[index].start, checked)) else None
  }

  method SetTaskChecked(content: Text, index: int, checked: bool, alias: Text) returns (result: Option<Text>)
    ensures result == Toggled(content, index, checked, alias)
  {
    hide Matches, MatchAt, NextOpening, OpensTask;
    var taskOrdinal := -1;
    var lastIndex := 0;
    ghost var ms := Matches(content, 0, alias);
    while true
      invariant lastIndex <= |content| && -1 <= taskOrdinal < |ms|
      invariant Matches(content, lastIndex, alias) == ms[taskOrdinal + 1..]
      invariant !(0 <= index <= taskOrdinal)
      decreases |content| - lastIndex
    {
      NextMatch(content, lastIndex, alias, ms, taskOrdinal + 1);
      var p := NextOpening(content, lastIndex);
      if p == |content| { return None; }
      var m := MatchAt(content, p, alias);
      taskOrdinal := taskOrdinal + 1;
      if taskOrdinal == index {
        var mark := MarkFor(checked);
        var checkboxCharIndex := m.start + 3;
        Splice(content, checkboxCharIndex, mark);
        return Some(content[..checkboxCharIndex] + [mark] + content[checkboxCharIndex + 1..]);
      }
      lastIndex := m.end;
    }
  }

  lemma Splice(s: Text, i: nat, u: Unit)
    requires i < |s|
    ensures s[..i] + [u] + s[i + 1..] == s[i := u]
  {
  }
}
