/** What an entry of the parsed list says, read off the text itself; that no task is missed;
    and that a printed task line is read back. */
module TaskReading {
  import opened JsText
  import opened TaskScanner
  import opened TaskToggle

  // ----------------------------------------------------------------- every opening counts

  lemma {:induction false} NoOpeningMissed(s: Text, from: nat, alias: Text, q: nat) returns (i: nat)
    requires from <= q && OpensTask(s, q)
    ensures i < |Matches(s, from, alias)| && Matches(s, from, alias)[i].start <= q < Matches(s, from, alias)[i].end
    decreases |s| - from
  {
    var p := NextOpening(s, from);
    var m := MatchAt(s, p, alias);
    if q < m.end {
      i := 0;
    } else {
      i := NoOpeningMissed(s, m.end, alias, q);
      i := i + 1;
    }
    hide NextOpening, MatchAt, OpensTask;
  }

  // ------------------------------------------------------------------ what an entry says

  /** `s[p..q]` is white space. */
  predicate IsBlank(s: Text, p: nat, q: nat) { p <= q <= |s| && forall i :: p <= i < q ==> IsSpace(s[i]) }

  /** White space, `[alias::`, white space, `@name]` from `b` to `end`, the name of 3 to 50
      characters out of `a-zA-Z0-9_.-`. */
  predicate IsOwnerText(s: Text, b: nat, end: nat, alias: Text, name: Text) {
    exists open: nat, at: nat ::
      && b < open && open + |alias| + 3 <= at && at + |name| + 2 == end <= |s| && IsBlank(s, b, open) && IsBlank(s, open + |alias| + 3, at)
      && s[open..open + |alias| + 3] == [0x5B] + alias + [0x3A, 0x3A] && s[at] == 0x40 && s[at + 1..end - 1] == name && s[end - 1] == 0x5D
      && 3 <= |name| <= 50 && forall c :: c in name ==> IsNameUnit(c)
  }

  predicate IsNameUnit(c: Unit) {
    0x61 <= c <= 0x7A || 0x41 <= c <= 0x5A || 0x30 <= c <= 0x39 || c == 0x5F || c == 0x2E || c == 0x2D
  }

  /** The character classes, unit by unit. */
  lemma ClassesExactly(c: Unit)
    ensures IsUserUnit(c) <==> IsNameUnit(c)
    ensures IsLineTerminator(c) <==> c in {0x0A, 0x0D, 0x2028, 0x2029}
    ensures IsSpace(c) <==>
      c in {0x09, 0x0A, 0x0B, 0x0C, 0x0D, 0x20, 0xA0, 0x1680, 0x2000, 0x2001, 0x2002, 0x2003, 0x2004, 0x2005, 0x2006, 0x2007,
            0x2008, 0x2009, 0x200A, 0x2028, 0x2029, 0x202F, 0x205F, 0x3000, 0xFEFF}
  {
  }

  /** From `p` to `end` the text is a dash, a blank, a mark in brackets, blanks, then the
      description at `a..b`, the owner if there is one, and blanks up to a line's end. */
  ghost predicate SaysTask(s: Text, alias: Text, p: nat, a: nat, b: nat, end: nat, task: Task) {
    && p + 6 <= a <= b <= end <= |s| && (p == 0 || IsLineTerminator(s[p - 1]))
    && s[p] == 0x2D && IsSpace(s[p + 1]) && s[p + 2] == 0x5B && s[p + 4] == 0x5D && IsBlank(s, p + 5, a)
    && (s[p + 3] == 0x20 || s[p + 3] == 0x78 || s[p + 3] == 0x58)
    && (task.checked <==> s[p + 3] == 0x78 || s[p + 3] == 0x58)
    && task.text == s[a..b] && (forall c :: c in task.text ==> !IsLineTerminator(c)) && (a < |s| ==> !IsSpace(s[a]))
    && (end == |s| || IsLineTerminator(s[end])) && SaysOwner(s, alias, b, end, task.owner)
  }

  ghost predicate SaysOwner(s: Text, alias: Text, b: nat, end: nat, owner: Option<Text>) {
    match owner
    case None => IsBlank(s, b, end)
    case Some(name) => exists close: nat :: IsOwnerText(s, b, close, alias, name) && IsBlank(s, close, end)
  }

  lemma OwnerSays(s: Text, e: nat, alias: Text, o: Owner)
    requires e <= |s| && OwnerToken(s, e, alias, o)
    ensures IsOwnerText(s, e, o.close + 1, alias, s[o.at + 1..o.close])
  {
    var name := s[o.at + 1..o.close];
    assert forall i :: 0 <= i < |name| ==> IsUserUnit(name[i]);
    assert IsBlank(s, e, o.open) && IsBlank(s, o.open + |alias| + 3, o.at);
    assert o.at + |name| + 2 == o.close + 1 && s[o.at + 1..o.close + 1 - 1] == name;
    hide OwnerToken;
  }

  lemma ParseSays(s: Text, alias: Text, m: Match, k: nat)
    requires Parses(s, alias, m) && TaskScanner.Fits(s, m) && (m.textStart < |s| ==> !IsSpace(s[m.textStart]))
    ensures SaysTask(s, alias, m.start, m.textStart, m.textEnd, m.end, TaskOf(s, m, k))
  {
    if m.owner.Some? {
      OwnerSays(s, m.textEnd, alias, m.owner.value);
      assert IsBlank(s, m.owner.value.close + 1, m.end);
    }
    assert SaysOwner(s, alias, m.textEnd, m.end, TaskOf(s, m, k).owner);
    hide OwnerToken, IsOwnerText, SaysOwner, IsSpace;
    assert forall c :: c in s[m.textStart..m.textEnd] ==> !IsLineTerminator(c);
  }

  lemma ScannedSays(s: Text, alias: Text, p: nat, k: nat)
    requires OpensTask(s, p)
    ensures var m := MatchAt(s, p, alias); SaysTask(s, alias, p, m.textStart, m.textEnd, m.end, TaskOf(s, m, k))
  {
    var m := MatchAt(s, p, alias);
    ScannerParses(s, alias, p);
    assert m.textStart < |s| ==> !IsSpace(s[m.textStart]);
    hide MatchAt, OpensTask, Parses, SaysTask;
    ParseSays(s, alias, m, k);
  }

  /** A dash at the start of a line, a blank, a mark in brackets and a blank. */
  predicate StartsTask(s: Text, q: nat) {
    && q + 6 <= |s| && (q == 0 || IsLineTerminator(s[q - 1]))
    && s[q] == 0x2D && IsSpace(s[q + 1]) && s[q + 2] == 0x5B && s[q + 4] == 0x5D && IsSpace(s[q + 5])
    && (s[q + 3] == 0x20 || s[q + 3] == 0x78 || s[q + 3] == 0x58)
  }

  lemma StartsIffOpens(s: Text, q: nat)
    ensures StartsTask(s, q) <==> OpensTask(s, q)
  {
  }

  predicate LiesIn(m: Match, q: nat) { m.start <= q < m.end }

  /** No opening lies outside the matches. */
  lemma OpeningsLieIn(s: Text, alias: Text, q: nat)
    requires OpensTask(s, q)
    ensures exists m :: m in Matches(s, 0, alias) && LiesIn(m, q)
  {
    var i := NoOpeningMissed(s, 0, alias, q);
    hide Matches, OpensTask;
    assert Matches(s, 0, alias)[i] in Matches(s, 0, alias) && LiesIn(Matches(s, 0, alias)[i], q);
  }

  lemma EntrySays(s: Text, alias: Text, i: nat)
    requires i < |Matches(s, 0, alias)|
    ensures var m := Matches(s, 0, alias)[i];
      && i < |Tasks(s, alias)| && Tasks(s, alias)[i].index == i
      && SaysTask(s, alias, m.start, m.textStart, m.textEnd, m.end, Tasks(s, alias)[i])
  {
    TaskPerMatch(s, alias);
    var m := Matches(s, 0, alias)[i];
    assert IsMatch(s, m, alias);
    hide Matches, Tasks, MatchAt, OpensTask, SaysTask;
    ScannedSays(s, alias, m.start, i);
  }

  /** Entry `i` of the list says what stands at match `i`: its mark, its description and its
      owner; the matches follow one another, and no opening lies outside them. */
  lemma EntriesSay(s: Text, alias: Text)
    ensures var ms, tasks := Matches(s, 0, alias), Tasks(s, alias);
      && |tasks| == |ms|
      && (forall i :: 0 <= i < |ms| ==> var m := ms[i];
            tasks[i].index == i && SaysTask(s, alias, m.start, m.textStart, m.textEnd, m.end, tasks[i]))
      && (forall i, j :: 0 <= i < j < |ms| ==> ms[i].end <= ms[j].start)
      && (forall q :: StartsTask(s, q) ==> exists m :: m in ms && LiesIn(m, q))
  {
    var ms, tasks := Matches(s, 0, alias), Tasks(s, alias);
    TaskPerMatch(s, alias);
    hide SaysTask, IsMatch, Matches, Tasks, OpensTask, LiesIn;
    forall i | 0 <= i < |ms| ensures var m := ms[i];
        tasks[i].index == i && SaysTask(s, alias, m.start, m.textStart, m.textEnd, m.end, tasks[i]) {
      EntrySays(s, alias, i);
    }
    forall i, j | 0 <= i < j < |ms| ensures ms[i].end <= ms[j].start { MatchesOrdered(s, 0, alias, j); }
    forall q | StartsTask(s, q) ensures exists m :: m in ms && LiesIn(m, q) {
      StartsIffOpens(s, q);
      OpeningsLieIn(s, alias, q);
    }
  }

  // ----------------------------------------------------------------------- round trip

  /** A task line as people write it. */
  function Line(mark: Unit, description: Text, owner: Option<Text>, alias: Text): Text {
    [0x2D, 0x20, 0x5B, mark, 0x5D, 0x20] + description
    + match owner case None => [] case Some(name) => [0x20, 0x5B] + alias + [0x3A, 0x3A, 0x20, 0x40] + name + [0x5D]
  }

  predicate IsPlain(t: Text) { forall i :: 0 <= i < |t| ==> !IsLineTerminator(t[i]) }

  /** Not empty, on one line, no blank at either end. */
  predicate IsDescription(t: Text) { t != [] && IsPlain(t) && !IsSpace(t[0]) && !IsSpace(t[|t| - 1]) }

  predicate IsName(t: Text) { 3 <= |t| <= 50 && forall i :: 0 <= i < |t| ==> IsUserUnit(t[i]) }

  /** The text ends in something that would be read as an owner. */
  ghost predicate EndsInOwner(t: Text, alias: Text) {
    exists e: nat, o: Owner :: e <= |t| && OwnerToken(t, e, alias, o) && o.close == |t| - 1
  }

  /** What the characters of a printed line are. */
  lemma LineUnits(mark: Unit, d: Text, owner: Option<Text>, alias: Text)
    ensures var s, b := Line(mark, d, owner, alias), 6 + |d|;
      && |s| == b + (if owner.Some? then |alias| + |owner.value| + 7 else 0)
      && s[0] == 0x2D && s[1] == 0x20 && s[2] == 0x5B && s[3] == mark && s[4] == 0x5D && s[5] == 0x20 && s[6..b] == d
      && (forall i :: 6 <= i < b ==> s[i] == d[i - 6])
      && (owner.Some? ==> var n := |alias|;
            && s[b] == 0x20 && s[b + 1..b + n + 4] == Opener(alias) && s[b + n + 4] == 0x20 && s[b + n + 5] == AT
            && s[b + n + 6..|s| - 1] == owner.value && s[|s| - 1] == RBRACKET)
  {
    var s, b := Line(mark, d, owner, alias), 6 + |d|;
    if owner.Some? {
      assert s[b + 1..b + |alias| + 4] == Opener(alias);
      assert s[b + |alias| + 6..|s| - 1] == owner.value;
    }
  }

  lemma UnitClass()
    ensures IsSpace(0x20) && !IsSpace(0x2D) && !IsSpace(RBRACKET) && !IsSpace(LBRACKET) && !IsSpace(AT) && !IsSpace(COLON)
    ensures !IsUserUnit(AT) && !IsUserUnit(RBRACKET) && !IsUserUnit(0x20)
    ensures forall u: Unit :: IsUserUnit(u) || IsMark(u) ==> !IsLineTerminator(u)
    ensures !IsLineTerminator(0x20) && !IsLineTerminator(0x2D) && !IsLineTerminator(LBRACKET) && !IsLineTerminator(RBRACKET)
    ensures !IsLineTerminator(AT) && !IsLineTerminator(COLON)
  {
  }

  lemma LineIsPlain(mark: Unit, d: Text, owner: Option<Text>, alias: Text)
    requires IsMark(mark) && IsDescription(d) && OneLine(alias) && (owner.Some? ==> IsName(owner.value))
    ensures IsPlain(Line(mark, d, owner, alias))
  {
    UnitClass();
    hide IsLineTerminator, IsUserUnit, IsMark, IsSpace;
    if owner.Some? { assert forall i :: 0 <= i < |owner.value| ==> !IsLineTerminator(owner.value[i]); }
  }

  /** A line without breaks opens a task at its start at most. */
  lemma PlainOpensOnce(s: Text, k: nat)
    requires IsPlain(s) && k >= 1
    ensures !OpensTask(s, k)
  {
    assert k <= |s| ==> !IsLineTerminator(s[k - 1]);
  }

  function WrittenOwner(s: Text, b: nat, alias: Text): Owner
    requires s != []
  {
    Owner(b + 1, b + |alias| + 5, |s| - 1)
  }

  lemma LineOwner(mark: Unit, d: Text, name: Text, alias: Text)
    requires IsName(name)
    ensures var s, b := Line(mark, d, Some(name), alias), 6 + |d|;
      var o := WrittenOwner(s, b, alias);
      OwnerToken(s, b, alias, o) && o.at < o.close && s[o.at + 1..o.close] == name
  {
    var s, b := Line(mark, d, Some(name), alias), 6 + |d|;
    var o := WrittenOwner(s, b, alias);
    LineUnits(mark, d, Some(name), alias);
    UnitClass();
    hide IsSpace, IsUserUnit, Line;
    assert s[o.at + 1..o.close] == name;
    assert forall i :: o.at < i < o.close ==> s[i] == s[o.at + 1..o.close][i - o.at - 1];
  }

  /** An owner that ends where the written one ends is the written one. */
  lemma SameOwner(s: Text, b: nat, alias: Text, own: Owner, e: nat, o: Owner)
    requires OwnerToken(s, b, alias, own) && own == WrittenOwner(s, b, alias) && s[own.at - 1] == 0x20
    requires OwnerToken(s, e, alias, o) && o.close == own.close
    ensures o == own
  {
    UnitClass();
    hide IsSpace, IsUserUnit;
    assert s[own.at] == AT && s[o.at] == AT;
    OpenerEnds(s, o.open, alias);
    OpenerEnds(s, own.open, alias);
    var end := o.open + |alias| + 3;
    assert s[own.at - 2] == COLON && end <= o.at;
  }

  lemma OpenerEnds(s: Text, p: nat, alias: Text)
    requires HasAt(s, p, Opener(alias))
    ensures s[p + |alias| + 2] == COLON
  {
    assert Opener(alias)[|alias| + 2] == COLON;
    assert s[p..p + |alias| + 3][|alias| + 2] == COLON;
  }

  /** No tail can be read in front of the description's last character. */
  lemma NoTailBefore(s: Text, b: nat, alias: Text, owner: Option<Owner>, e: nat)
    requires IsPlain(s) && e < b <= |s| && 0 < b && !IsSpace(s[b - 1]) && s != [] && !IsSpace(s[|s| - 1])
    requires forall o :: OwnerToken(s, e, alias, o) ==> o.close < |s| - 1
    ensures TailAt(s, e, alias).None?
  {
    assert SpaceEnd(s, e) <= b - 1;
    PlainTrail(s, e);
    var found := OwnerAt(s, e, alias);
    if found.Some? {
      OwnerUnique(s, e, alias, found.value);
      PlainTrail(s, found.value.close + 1);
      assert SpaceEnd(s, found.value.close + 1) < |s|;
    }
    hide TrailEnd, OwnerAt, SpaceEnd, IsSpace, IsPlain, OwnerToken;
  }

  /** In a text without line breaks the trailing white space has to reach its end. */
  lemma PlainTrail(s: Text, e: nat)
    requires IsPlain(s) && e <= |s|
    ensures TrailEnd(s, e) == if SpaceEnd(s, e) == |s| then Some(|s|) else None
  {
    var r := LastLineEnd(s, e, SpaceEnd(s, e));
    hide LastLineEnd, SpaceEnd;
    assert forall k :: e <= k < |s| ==> !AtLineEnd(s, k);
    assert AtLineEnd(s, |s|);
  }

  lemma {:induction false} TextEndIs(s: Text, e: nat, b: nat, alias: Text)
    requires e <= b <= |s| && TailAt(s, b, alias).Some? && forall i :: e <= i < b ==> TailAt(s, i, alias).None?
    ensures TextEnd(s, e, alias) == b
    decreases b - e
  {
    hide TailAt;
    if e == b {
    } else {
      TextEndIs(s, e + 1, b, alias);
    }
  }

  lemma LineMatch(s: Text, b: nat, alias: Text, owner: Option<Owner>)
    requires IsPlain(s) && OpensTask(s, 0) && 6 < b <= |s| && IsSpace(s[5]) && !IsSpace(s[6]) && !IsSpace(s[b - 1]) && !IsSpace(s[|s| - 1])
    requires if owner.None? then |s| == b && (forall e, o :: 6 <= e <= b && OwnerToken(s, e, alias, o) ==> o.close != |s| - 1)
             else owner == Some(WrittenOwner(s, b, alias)) && OwnerToken(s, b, alias, owner.value) && s[owner.value.at - 1] == 0x20
    ensures MatchAt(s, 0, alias) == Match(0, 6, b, owner, |s|)
  {
    assert SpaceEnd(s, 5) == 6;
    forall e | 6 <= e < b ensures TailAt(s, e, alias).None? {
      forall o | OwnerToken(s, e, alias, o) ensures o.close < |s| - 1 {
        if owner.Some? && o.close == |s| - 1 {
          SameOwner(s, b, alias, owner.value, e, o);
          assert false;
        }
      }
      NoTailBefore(s, b, alias, owner, e);
    }
    TailIs(s, b, alias, owner);
    TextEndIs(s, 6, b, alias);
    hide OwnerToken, TailAt, SpaceEnd, TextEnd, OpensTask;
  }

  lemma TailIs(s: Text, b: nat, alias: Text, owner: Option<Owner>)
    requires IsPlain(s) && b <= |s|
    requires if owner.None? then b == |s| else OwnerToken(s, b, alias, owner.value) && owner.value.close == |s| - 1
    ensures TailAt(s, b, alias) == Some(Tail(owner, |s|))
  {
    if owner.Some? { OwnerUnique(s, b, alias, owner.value); }
    PlainTrail(s, |s|);
    hide OwnerToken, TrailEnd, IsPlain;
  }

  lemma WholeLine(s: Text, m: Match, alias: Text)
    requires IsPlain(s) && OpensTask(s, 0) && MatchAt(s, 0, alias) == m && m.end == |s|
    ensures Tasks(s, alias) == [TaskOf(s, m, 0)]
  {
    assert NextOpening(s, 0) == 0 && NextOpening(s, |s|) == |s|;
    hide MatchAt, OpensTask, NextOpening, TaskOf;
    assert Matches(s, |s|, alias) == [];
    assert Matches(s, 0, alias) == [m];
  }

  lemma NoOwnerInLine(s: Text, d: Text, alias: Text)
    requires |s| == 6 + |d| && s[6..] == d && !EndsInOwner(d, alias)
    ensures forall e, o :: 6 <= e <= |s| && OwnerToken(s, e, alias, o) ==> o.close != |s| - 1
  {
    forall e, o | 6 <= e <= |s| && OwnerToken(s, e, alias, o) ensures o.close != |s| - 1 {
      OwnerShifts(s, d, e, alias, o);
    }
  }

  lemma OwnerShifts(s: Text, d: Text, e: nat, alias: Text, o: Owner)
    requires |s| == 6 + |d| && s[6..] == d && 6 <= e <= |s| && OwnerToken(s, e, alias, o)
    ensures OwnerToken(d, e - 6, alias, Owner(o.open - 6, o.at - 6, o.close - 6))
  {
    assert forall i :: 6 <= i < |s| ==> s[i] == d[i - 6];
    assert d[o.open - 6..o.open - 6 + |alias| + 3] == s[o.open..o.open + |alias| + 3];
    hide IsSpace, IsUserUnit;
  }

  /** A written line is read back as that one task, its description, mark and owner, unless
      the description itself ends in what would be read as an owner and none is written. */
  lemma LineIsReadBack(mark: Unit, d: Text, owner: Option<Text>, alias: Text)
    requires IsMark(mark) && IsDescription(d) && OneLine(alias)
    requires if owner.Some? then IsName(owner.value) else !EndsInOwner(d, alias)
    ensures Tasks(Line(mark, d, owner, alias), alias) == [Task(0, mark != 0x20, d, owner)]
  {
    LineIsMatched(mark, d, owner, alias);
    hide Line, IsPlain, IsDescription, IsName, EndsInOwner, IsMark, OpensTask, OneLine, MatchAt, Tasks, TaskOf, LineMatched;
    var s, m := Line(mark, d, owner, alias), MatchAt(Line(mark, d, owner, alias), 0, alias);
    MatchedTask(mark, d, owner, alias, m);
    WholeLine(s, m, alias);
  }

  lemma MatchedTask(mark: Unit, d: Text, owner: Option<Text>, alias: Text, m: Match)
    requires IsMark(mark) && d != [] && (owner.Some? ==> IsName(owner.value))
    requires var s := Line(mark, d, owner, alias); s != [] && TaskScanner.Fits(s, m) && m == LineMatched(s, 6 + |d|, owner, alias)
    ensures m.end == |Line(mark, d, owner, alias)| && TaskOf(Line(mark, d, owner, alias), m, 0) == Task(0, mark != 0x20, d, owner)
  {
    LineUnits(mark, d, owner, alias);
    if owner.Some? { LineOwner(mark, d, owner.value, alias); }
    hide Line, IsName, OwnerToken, WrittenOwner, IsMark;
  }

  function LineMatched(s: Text, b: nat, owner: Option<Text>, alias: Text): Match
    requires s != []
  {
    Match(0, 6, b, if owner.None? then None else Some(WrittenOwner(s, b, alias)), |s|)
  }

  lemma LineIsMatched(mark: Unit, d: Text, owner: Option<Text>, alias: Text)
    requires IsMark(mark) && IsDescription(d) && OneLine(alias)
    requires if owner.Some? then IsName(owner.value) else !EndsInOwner(d, alias)
    ensures var s := Line(mark, d, owner, alias);
      s != [] && IsPlain(s) && OpensTask(s, 0) && MatchAt(s, 0, alias) == LineMatched(s, 6 + |d|, owner, alias)
  {
    LineUnits(mark, d, owner, alias);
    LineIsPlain(mark, d, owner, alias);
    LineEnds(mark, d, owner, alias);
    if owner.Some? { LineOwner(mark, d, owner.value, alias); } else { NoOwnerInLine(Line(mark, d, owner, alias), d, alias); }
    hide Line, IsPlain, IsDescription, IsName, EndsInOwner, IsSpace, IsMark, OwnerToken, OpensTask, OneLine;
    var s, b := Line(mark, d, owner, alias), 6 + |d|;
    LineMatch(s, b, alias, if owner.None? then None else Some(WrittenOwner(s, b, alias)));
  }

  lemma LineEnds(mark: Unit, d: Text, owner: Option<Text>, alias: Text)
    requires IsMark(mark) && IsDescription(d) && (owner.Some? ==> IsName(owner.value))
    ensures var s, b := Line(mark, d, owner, alias), 6 + |d|;
      && 6 < b <= |s| && OpensTask(s, 0) && IsSpace(s[5]) && !IsSpace(s[6]) && !IsSpace(s[b - 1]) && !IsSpace(s[|s| - 1])
      && (owner.None? ==> s[6..] == d)
      && (owner.Some? ==> s[WrittenOwner(s, b, alias).at - 1] == 0x20)
  {
    LineUnits(mark, d, owner, alias);
    UnitClass();
    hide Line, IsSpace, IsUserUnit, IsLineTerminator, IsMark;
  }
}
