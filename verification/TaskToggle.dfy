/** Setting a checkbox changes one entry of the parsed task list and nothing else. */
module TaskToggle {
  import opened JsText
  import opened TaskScanner

  /** The alias stays on one line; the configured alias is a word of letters,
      digits, `_` and `-`. */
  predicate OneLine(alias: Text) {
    forall i :: 0 <= i < |alias| ==> !IsLineTerminator(alias[i])
  }

  /** `s` and `t` agree on `low..high`, and the window reaches the end of the text
      or ends in a dash that starts a line. */
  predicate Window(s: Text, t: Text, low: nat, high: nat) {
    && |s| == |t| && low <= high <= |s|
    && (forall i :: low <= i < high ==> s[i] == t[i])
    && (high < |s| ==> low + 2 <= high && s[high - 1] == DASH && IsLineTerminator(s[high - 2]))
  }

  lemma {:induction false} SpaceEndLocal(s: Text, t: Text, low: nat, high: nat, p: nat)
    requires Window(s, t, low, high) && low <= p <= high && (high < |s| ==> p < high)
    ensures SpaceEnd(s, p) == SpaceEnd(t, p) <= high && (high < |s| ==> SpaceEnd(s, p) < high)
    decreases high - p
  {
    if p < |s| && IsSpace(s[p]) {
      SpaceEndLocal(s, t, low, high, p + 1);
    }
  }

  lemma {:induction false} UserEndLocal(s: Text, t: Text, low: nat, high: nat, p: nat)
    requires Window(s, t, low, high) && low <= p <= high && (high < |s| ==> p + 2 <= high)
    ensures UserEnd(s, p) == UserEnd(t, p) && (high < |s| ==> UserEnd(s, p) + 2 <= high)
    decreases high - p
  {
    if p < |s| && IsUserUnit(s[p]) {
      UserEndLocal(s, t, low, high, p + 1);
    }
  }

  lemma {:induction false} LastLineEndLocal(s: Text, t: Text, low: nat, high: nat, e: nat, k: nat)
    requires Window(s, t, low, high) && low <= e <= k <= high && (high < |s| ==> k < high)
    ensures LastLineEnd(s, e, k) == LastLineEnd(t, e, k)
    decreases k
  {
    if !AtLineEnd(s, k) && k > e {
      LastLineEndLocal(s, t, low, high, e, k - 1);
    }
  }

  lemma TrailEndLocal(s: Text, t: Text, low: nat, high: nat, e: nat)
    requires Window(s, t, low, high) && low <= e <= high && (high < |s| ==> e < high)
    ensures TrailEnd(s, e) == TrailEnd(t, e)
  {
    SpaceEndLocal(s, t, low, high, e);
    LastLineEndLocal(s, t, low, high, e, SpaceEnd(s, e));
  }

  /** `[alias::` holds no line break, so it cannot reach across the window's end. */
  lemma OpenerLocal(s: Text, t: Text, low: nat, high: nat, p: nat, alias: Text)
    requires Window(s, t, low, high) && OneLine(alias) && low <= p <= high && (high < |s| ==> p < high)
    ensures HasAt(s, p, Opener(alias)) <==> HasAt(t, p, Opener(alias))
    ensures HasAt(s, p, Opener(alias)) ==> p + |alias| + 3 <= high
    ensures HasAt(s, p, Opener(alias)) && high < |s| ==> p + |alias| + 3 + 2 <= high
  {
    var o := Opener(alias);
    assert forall i :: 0 <= i < |o| ==> !IsLineTerminator(o[i]);
    OpenerStaysInside(s, low, high, p, alias);
    OpenerStaysInside(t, low, high, p, alias);
    if p + |o| <= high {
      assert s[p..p + |o|] == t[p..p + |o|];
    }
  }

  lemma OpenerStaysInside(s: Text, low: nat, high: nat, p: nat, alias: Text)
    requires OneLine(alias) && low <= p <= high <= |s|
    requires high < |s| ==> p < high && low + 2 <= high && s[high - 1] == DASH && IsLineTerminator(s[high - 2])
    ensures HasAt(s, p, Opener(alias)) && high < |s| ==> p + |alias| + 3 + 2 <= high
  {
    var o := Opener(alias);
    if HasAt(s, p, o) && high < |s| {
      assert o[0] == LBRACKET && forall i :: 0 <= i < |o| ==> s[p + i] == o[i];
      var i := high - 2 - p;
      assert 0 <= i < |o| ==> s[p + i] == o[i] && !IsLineTerminator(o[i]);
      assert s[p] == LBRACKET;
    }
  }

  lemma NameLocal(s: Text, t: Text, low: nat, high: nat, p: nat)
    requires Window(s, t, low, high) && low <= p <= high && (high < |s| ==> p + 2 <= high)
    ensures NameAt(s, p) == NameAt(t, p)
    ensures NameAt(s, p).Some? && high < |s| ==> NameAt(s, p).value.1 + 1 < high
  {
    SpaceEndLocal(s, t, low, high, p);
    var at := SpaceEnd(s, p);
    if at < |s| && s[at] == AT {
      assert high < |s| ==> s[at] != s[high - 1] && s[at] != s[high - 2];
      UserEndLocal(s, t, low, high, at + 1);
      var close := UserEnd(s, at + 1);
      assert high < |s| && s[close] == RBRACKET ==> s[close] != s[high - 2];
    }
  }

  lemma OwnerLocal(s: Text, t: Text, low: nat, high: nat, e: nat, alias: Text)
    requires Window(s, t, low, high) && OneLine(alias) && low <= e <= high && (high < |s| ==> e < high)
    ensures OwnerAt(s, e, alias) == OwnerAt(t, e, alias)
    ensures OwnerAt(s, e, alias).Some? && high < |s| ==> OwnerAt(s, e, alias).value.close + 1 < high
  {
    hide Window, OneLine, SpaceEnd, NameAt, HasAt;
    SpaceEndLocal(s, t, low, high, e);
    var open := SpaceEnd(s, e);
    OpenerLocal(s, t, low, high, open, alias);
    if HasAt(s, open, Opener(alias)) {
      NameLocal(s, t, low, high, open + |alias| + 3);
    }
  }

  lemma TailLocal(s: Text, t: Text, low: nat, high: nat, e: nat, alias: Text)
    requires Window(s, t, low, high) && OneLine(alias) && low <= e <= high && (high < |s| ==> e < high)
    ensures TailAt(s, e, alias) == TailAt(t, e, alias)
  {
    hide OneLine, TrailEnd, OwnerAt;
    OwnerLocal(s, t, low, high, e, alias);
    TrailEndLocal(s, t, low, high, e);
    if OwnerAt(s, e, alias).Some? {
      TrailEndLocal(s, t, low, high, OwnerAt(s, e, alias).value.close + 1);
    }
  }

  lemma {:induction false} TextEndLocal(s: Text, t: Text, low: nat, high: nat, e: nat, alias: Text)
    requires Window(s, t, low, high) && OneLine(alias) && low <= e <= high && (high < |s| ==> e + 2 <= high)
    ensures TextEnd(s, e, alias) == TextEnd(t, e, alias) <= high && (high < |s| ==> TextEnd(s, e, alias) + 2 <= high)
    decreases high - e
  {
    TailLocal(s, t, low, high, e, alias);
    if TailAt(s, e, alias).None? {
      TextEndLocal(s, t, low, high, e + 1, alias);
    }
  }

  /** A match depends on the text from its first `\s+` to its end only. */
  lemma MatchLocal(s: Text, t: Text, high: nat, p: nat, alias: Text)
    requires OpensTask(s, p) && OpensTask(t, p) && Window(s, t, p + 5, high) && OneLine(alias)
    requires high < |s| ==> MatchAt(s, p, alias).end < high
    ensures MatchAt(s, p, alias) == MatchAt(t, p, alias)
  {
    assert p + 5 <= high <= |s| && p + 5 < |s| && |t| == |s|;
    hide TailAt, TextEnd, Window, OneLine, OpensTask;
    SpaceEndLocal(s, t, p + 5, high, p + 5);
    var q := SpaceEnd(s, p + 5);
    if high < |s| {
      DashIsNoTail(s, q, alias);
    }
    TextEndLocal(s, t, p + 5, high, q, alias);
    TailLocal(s, t, p + 5, high, TextEnd(s, q, alias), alias);
  }

  /** A description cannot end in front of a dash. */
  lemma DashIsNoTail(s: Text, e: nat, alias: Text)
    requires e < |s|
    ensures s[e] == DASH ==> TailAt(s, e, alias).None?
    ensures s[e] == DASH ==> TextEnd(s, e, alias) > e
  {
  }

  /** Setting a mark opens no task and closes none. */
  lemma OpensSame(s: Text, b: nat, checked: bool, p: nat)
    requires OpensTask(s, b)
    ensures OpensTask(WithMark(s, b, checked), p) <==> OpensTask(s, p)
  {
  }

  lemma {:induction false} NextOpeningSame(s: Text, b: nat, checked: bool, p: nat)
    requires OpensTask(s, b) && p <= |s|
    ensures NextOpening(WithMark(s, b, checked), p) == NextOpening(s, p)
    decreases |s| - p
  {
    OpensSame(s, b, checked, p);
    if p < |s| && !OpensTask(s, p) {
      NextOpeningSame(s, b, checked, p + 1);
    }
  }

  /** Setting a mark leaves a match where it was: its own, an earlier or a later one. */
  lemma MatchSame(s: Text, b: nat, checked: bool, p: nat, alias: Text)
    requires OpensTask(s, b) && OpensTask(s, p) && OneLine(alias)
    requires p == b || MatchAt(s, p, alias).end <= b || b + 6 <= p
    ensures OpensTask(WithMark(s, b, checked), p)
    ensures MatchAt(WithMark(s, b, checked), p, alias) == MatchAt(s, p, alias)
  {
    hide OneLine, TextEnd, TailAt;
    OpensSame(s, b, checked, p);
    MatchLocal(s, WithMark(s, b, checked), if p < b then b + 1 else |s|, p, alias);
  }

  /** Matches from beyond a mark do not see it. */
  lemma {:induction false} MatchesBeyond(s: Text, b: nat, checked: bool, from: nat, alias: Text)
    requires OpensTask(s, b) && b + 6 <= from <= |s| && OneLine(alias)
    ensures Matches(WithMark(s, b, checked), from, alias) == Matches(s, from, alias)
    decreases |s| - from
  {
    hide OneLine, MatchAt;
    NextOpeningSame(s, b, checked, from);
    var p := NextOpening(s, from);
    if p < |s| {
      MatchSame(s, b, checked, p, alias);
      MatchesBeyond(s, b, checked, MatchAt(s, p, alias).end, alias);
    }
  }

  /** Setting the mark of match `i` leaves every match where it was. */
  lemma {:induction false} MatchesSame(s: Text, from: nat, alias: Text, i: nat, b: nat, checked: bool)
    requires from <= |s| && OneLine(alias) && i < |Matches(s, from, alias)| && b == Matches(s, from, alias)[i].start
    ensures OpensTask(s, b) && Matches(WithMark(s, b, checked), from, alias) == Matches(s, from, alias)
    decreases |s| - from
  {
    hide OneLine, MatchAt, OpensTask;
    var ms := Matches(s, from, alias);
    assert IsMatch(s, ms[i], alias);
    NextOpeningSame(s, b, checked, from);
    var p := NextOpening(s, from);
    MatchesOrdered(s, from, alias, i);
    MatchSame(s, b, checked, p, alias);
    if i == 0 {
      MatchesBeyond(s, b, checked, ms[0].end, alias);
    } else {
      MatchesSame(s, ms[0].end, alias, i - 1, b, checked);
    }
  }

  /** The start of match `index`, which toggling does not move. */
  lemma MatchStart(s: Text, alias: Text, index: nat, checked: bool) returns (b: nat)
    requires OneLine(alias) && index < |Matches(s, 0, alias)|
    ensures b == Matches(s, 0, alias)[index].start && OpensTask(s, b)
    ensures Toggled(s, index, checked, alias) == Some(WithMark(s, b, checked))
    ensures Matches(WithMark(s, b, checked), 0, alias) == Matches(s, 0, alias)
  {
    hide OneLine, Matches, OpensTask;
    b := Matches(s, 0, alias)[index].start;
    MatchesSame(s, 0, alias, index, b, checked);
  }

  lemma MatchesApart(s: Text, alias: Text, i: nat, j: nat)
    requires i < |Matches(s, 0, alias)| && j < |Matches(s, 0, alias)| && i != j
    ensures var m, n := Matches(s, 0, alias)[i], Matches(s, 0, alias)[j];
      Fits(s, m) && Fits(s, n) && (m.end <= n.start || n.end <= m.start)
  {
    hide Matches, OpensTask;
    assert IsMatch(s, Matches(s, 0, alias)[i], alias) && IsMatch(s, Matches(s, 0, alias)[j], alias);
    MatchesOrdered(s, 0, alias, if i < j then j else i);
  }

  /** The toggled text parses to the same tasks, the toggled one's `checked` set. */
  lemma ToggleRefinesParse(s: Text, index: int, checked: bool, alias: Text)
    requires OneLine(alias)
    ensures Toggled(s, index, checked, alias) == None <==> !(0 <= index < |Tasks(s, alias)|)
    ensures 0 <= index < |Tasks(s, alias)| ==>
              var t := Toggled(s, index, checked, alias).value;
              Tasks(t, alias) == Tasks(s, alias)[index := Tasks(s, alias)[index].(checked := checked)]
  {
    hide OneLine, Matches, OpensTask, TaskOf;
    if 0 <= index < |Tasks(s, alias)| {
      var b := MatchStart(s, alias, index, checked);
      forall j | 0 <= j < |Tasks(s, alias)|
        ensures Tasks(WithMark(s, b, checked), alias)[j] ==
                if j == index then Tasks(s, alias)[j].(checked := checked) else Tasks(s, alias)[j]
      {
        assert IsMatch(s, Matches(s, 0, alias)[j], alias);
        if j != index { MatchesApart(s, alias, index, j); }
        TaskSame(s, b, checked, Matches(s, 0, alias)[j], j);
      }
    }
  }

  lemma TaskSame(s: Text, b: nat, checked: bool, m: Match, j: nat)
    requires OpensTask(s, b) && Fits(s, m) && (m.start == b || m.end <= b || b + 6 <= m.start)
    ensures var old_, new_ := TaskOf(s, m, j), TaskOf(WithMark(s, b, checked), m, j);
      new_ == if m.start == b then old_.(checked := checked) else old_
  {
    var t := WithMark(s, b, checked);
    assert s[m.textStart..m.textEnd] == t[m.textStart..m.textEnd];
    if m.owner.Some? {
      assert s[m.owner.value.at + 1..m.owner.value.close] == t[m.owner.value.at + 1..m.owner.value.close];
    }
  }

  /** One character at most is changed, and it is a checkbox mark. */
  lemma ToggleIsLocal(s: Text, index: int, checked: bool, alias: Text)
    requires 0 <= index < |Matches(s, 0, alias)|
    ensures var t := Toggled(s, index, checked, alias).value; var m := Matches(s, 0, alias)[index].start + 3;
      |t| == |s| && m < |s| && IsMark(s[m]) && t[m] == MarkFor(checked) && forall i :: 0 <= i < |s| && i != m ==> t[i] == s[i]
  {
    assert IsMatch(s, Matches(s, 0, alias)[index], alias);
  }

  /** Toggles of distinct tasks commute; the last toggle of a task wins. */
  lemma TogglesCommute(s: Text, i: int, b: bool, j: int, c: bool, alias: Text)
    requires OneLine(alias) && 0 <= i < |Tasks(s, alias)| && 0 <= j < |Tasks(s, alias)|
    ensures i != j ==> Toggled(Toggled(s, i, b, alias).value, j, c, alias) == Toggled(Toggled(s, j, c, alias).value, i, b, alias)
    ensures i == j ==> Toggled(Toggled(s, i, b, alias).value, j, c, alias) == Toggled(s, j, c, alias)
  {
    hide OneLine, Matches, WithMark;
    var p := MatchStart(s, alias, i, b);
    var q := MatchStart(s, alias, j, c);
    if i != j { MatchesApart(s, alias, i, j); }
    MarksCommute(s, p, b, q, c);
  }

  lemma MarksCommute(s: Text, p: nat, b: bool, q: nat, c: bool)
    requires OpensTask(s, p) && OpensTask(s, q)
    ensures OpensTask(WithMark(s, p, b), q) && OpensTask(WithMark(s, q, c), p)
    ensures p != q ==> WithMark(WithMark(s, p, b), q, c) == WithMark(WithMark(s, q, c), p, b)
    ensures p == q ==> WithMark(WithMark(s, p, b), q, c) == WithMark(s, q, c)
  {
    OpensSame(s, p, b, q);
    OpensSame(s, q, c, p);
  }

  /** An alias that breaks a line can hold a task opening. */
  const BROKEN_ALIAS: Text := [0x0A, 0x2D, 0x20, 0x5B, 0x78, 0x5D, 0x20]  // LF "- [x] "

  /** "- [ ] a [" LF "- [ ] ::@abc]" */
  const TWO_TASKS: Text :=
    [0x2D, 0x20, 0x5B, 0x20, 0x5D, 0x20, 0x61, 0x20, 0x5B, 0x0A,
     0x2D, 0x20, 0x5B, 0x20, 0x5D, 0x20, 0x3A, 0x3A, 0x40, 0x61, 0x62, 0x63, 0x5D]

  /** The same with the second mark set. */
  const ONE_TASK: Text :=
    [0x2D, 0x20, 0x5B, 0x20, 0x5D, 0x20, 0x61, 0x20, 0x5B, 0x0A,
     0x2D, 0x20, 0x5B, 0x78, 0x5D, 0x20, 0x3A, 0x3A, 0x40, 0x61, 0x62, 0x63, 0x5D]

  lemma SecondMarkSet()
    ensures OpensTask(TWO_TASKS, 10) && WithMark(TWO_TASKS, 10, true) == ONE_TASK
  {
    var s := TWO_TASKS;
    assert s[9] == 0x0A && s[10] == DASH && s[11] == 0x20 && s[12] == LBRACKET && s[13] == 0x20 && s[14] == RBRACKET && s[15] == 0x20;
  }

  /** No tail at a character of a word, nor at a lone blank that no owner token follows. */
  lemma NoTail(s: Text, e: nat, alias: Text)
    requires e + 1 < |s| && !IsLineTerminator(s[e])
    requires !IsSpace(s[e]) || (!IsSpace(s[e + 1]) && !IsLineTerminator(s[e + 1]) && !HasAt(s, e + 1, Opener(alias)))
    ensures TailAt(s, e, alias).None?
  {
    if IsSpace(s[e]) {
      assert SpaceEnd(s, e) == e + 1;
    }
  }

  /** A description of one blank-free character that starts at 6. */
  lemma ShortOpening(s: Text)
    requires |s| > 7 && s[..7] == [0x2D, 0x20, 0x5B, 0x20, 0x5D, 0x20, 0x61]
    ensures OpensTask(s, 0) && SpaceEnd(s, 5) == 6
  {
    assert s[0] == s[..7][0] && s[1] == s[..7][1] && s[2] == s[..7][2] && s[3] == s[..7][3];
    assert s[4] == s[..7][4] && s[5] == s[..7][5] && s[6] == s[..7][6];
    assert SpaceEnd(s, 6) == 6;
  }

  lemma FirstOfTwo()
    ensures OpensTask(TWO_TASKS, 0) && MatchAt(TWO_TASKS, 0, BROKEN_ALIAS).end == 9
  {
    var s, a := TWO_TASKS, BROKEN_ALIAS;
    hide HasAt, OpensTask, TailAt;
    ShortOpening(s);
    assert s[6] == 0x61 && s[7] == 0x20 && s[8] == LBRACKET;
    NoTail(s, 6, a);
    NoSecondOpener();
    NoTail(s, 7, a);
    NoTail(s, 8, a);
    TailBeforeDash();
    assert TextEnd(s, 8, a) == 9 && TextEnd(s, 7, a) == 9;
    assert TextEnd(s, 6, a) == 9;
  }

  lemma NoSecondOpener()
    ensures !HasAt(TWO_TASKS, 8, Opener(BROKEN_ALIAS)) && !HasAt(TWO_TASKS, 10, Opener(BROKEN_ALIAS))
  {
    var s, o := TWO_TASKS, Opener(BROKEN_ALIAS);
    assert s[8..18][5] == s[13] == 0x20 && o[5] == 0x78;
    assert s[10..20][0] == s[10] == DASH && o[0] == LBRACKET;
  }

  lemma TailBeforeDash()
    ensures TailAt(TWO_TASKS, 9, BROKEN_ALIAS) == Some(Tail(None, 9))
  {
    var s, a := TWO_TASKS, BROKEN_ALIAS;
    hide HasAt;
    NoSecondOpener();
    assert s[9] == 0x0A && s[10] == DASH;
    assert SpaceEnd(s, 10) == 10 && SpaceEnd(s, 9) == 10;
    assert LastLineEnd(s, 9, 9) == Some(9) && !AtLineEnd(s, 10);
  }

  lemma OnlyOfOne()
    ensures OpensTask(ONE_TASK, 0) && MatchAt(ONE_TASK, 0, BROKEN_ALIAS).end == 23
  {
    var t, a := ONE_TASK, BROKEN_ALIAS;
    hide OpensTask, TailAt;
    ShortOpening(t);
    assert t[6] == 0x61;
    NoTail(t, 6, a);
    OwnerOfOne();
    assert TextEnd(t, 7, a) == 7;
    assert TextEnd(t, 6, a) == 7;
  }

  lemma OwnerOfOne()
    ensures TailAt(ONE_TASK, 7, BROKEN_ALIAS) == Some(Tail(Some(Owner(8, 18, 22)), 23))
  {
    var t, a := ONE_TASK, BROKEN_ALIAS;
    hide HasAt, NameAt;
    assert t[7] == 0x20 && t[8] == LBRACKET;
    assert SpaceEnd(t, 8) == 8 && SpaceEnd(t, 7) == 8;
    assert HasAt(t, 8, Opener(a)) by { OpenerInOne(); }
    assert NameAt(t, 18) == Some((18, 22)) by { NameInOne(); }
    assert SpaceEnd(t, 23) == 23;
  }

  lemma OpenerInOne()
    ensures HasAt(ONE_TASK, 8, Opener(BROKEN_ALIAS))
  {
    assert ONE_TASK[8..18] == Opener(BROKEN_ALIAS);
  }

  lemma NameInOne()
    ensures NameAt(ONE_TASK, 18) == Some((18, 22))
  {
    var t := ONE_TASK;
    assert t[18] == AT && t[19] == 0x61 && t[20] == 0x62 && t[21] == 0x63 && t[22] == RBRACKET;
    assert UserEnd(t, 22) == 22 && UserEnd(t, 21) == 22;
    assert UserEnd(t, 20) == 22 && UserEnd(t, 19) == 22;
    assert SpaceEnd(t, 18) == 18;
  }

  /** Without OneLine a toggle can turn a task into part of another one's owner
      token: here two tasks become one. */
  lemma BrokenAliasLosesTask()
    ensures Toggled(TWO_TASKS, 1, true, BROKEN_ALIAS) == Some(ONE_TASK)
    ensures |Tasks(ONE_TASK, BROKEN_ALIAS)| == 1 && |Tasks(TWO_TASKS, BROKEN_ALIAS)| >= 2
  {
    var a := BROKEN_ALIAS;
    hide MatchAt, OpensTask, WithMark;
    FirstOfTwo();
    SecondMarkSet();
    OnlyOfOne();
    assert NextOpening(TWO_TASKS, 0) == 0 && NextOpening(TWO_TASKS, 10) == 10;
    assert NextOpening(TWO_TASKS, 9) == 10 by { NoOpening(TWO_TASKS, 9); }
    assert NextOpening(ONE_TASK, 0) == 0 && NextOpening(ONE_TASK, 23) == 23;
    assert Matches(TWO_TASKS, 0, a) == [MatchAt(TWO_TASKS, 0, a)] + Matches(TWO_TASKS, 9, a);
    assert Matches(TWO_TASKS, 9, a)[0].start == 10;
    assert Matches(ONE_TASK, 0, a) == [MatchAt(ONE_TASK, 0, a)] + Matches(ONE_TASK, 23, a);
  }

  lemma NoOpening(s: Text, p: nat)
    requires p < |s| && s[p] != DASH
    ensures !OpensTask(s, p)
  {
  }
}
