/** renderMessageContent: the task pass, the inline passes in each description, and the
    inline passes over the segments left. When a message loses text on the way. */
module MessageRenderer {
  import opened JsText
  import opened TaskScanner
  import opened TaskRows
  import opened Markdown
  import opened MarkdownLinks

  /** The description is where the row says it is. */
  predicate RowFits(p: Piece) {
    p.Row? ==> p.textAt + |p.task.text| <= |p.source| && p.source[p.textAt..p.textAt + |p.task.text|] == p.task.text
  }

  predicate RowsFit(ps: seq<Piece>) { forall p :: p in ps ==> RowFits(p) }

  /** A segment is a string; a row is an element for its match, the description being what
      the inline passes make of it. */
  ghost function NodeOf(p: Piece, ps: seq<Pass>): Node
    requires ArePasses(ps) && RowFits(p)
  {
    match p
    case Segment(text, _, _) => Plain(text)
    case Row(task, _, source, at) =>
      Element(source[..at] + Source(RunPasses([Plain(task.text)], ps)) + source[at + |task.text|..])
  }

  ghost function NodesOf(pieces: seq<Piece>, ps: seq<Pass>): seq<Node>
    requires ArePasses(ps) && RowsFit(pieces)
  {
    if pieces == [] then [] else NodesOf(pieces[..|pieces| - 1], ps) + [NodeOf(pieces[|pieces| - 1], ps)]
  }

  ghost function Rendered(content: Text, alias: Text, overrides: map<nat, bool>, ps: seq<Pass>): seq<Node>
    requires ArePasses(ps)
  {
    PassRowsFit(content, alias, overrides);
    RunPasses(NodesOf(TaskPass(content, alias, overrides), ps), ps)
  }

  method RenderMessageContent(content: Text, alias: Text, overrides: map<nat, bool>, ps: seq<Pass>) returns (nodes: seq<Node>)
    requires ArePasses(ps)
    ensures nodes == Rendered(content, alias, overrides, ps)
  {
    hide TaskPass, ArePasses, RunPasses, RowFits;
    PassRowsFit(content, alias, overrides);
    var pieces := ApplyTaskPass(content, alias, overrides);
    var result: seq<Node> := [];
    assert pieces[..|pieces|] == pieces;
    for k := 0 to |pieces|
      invariant result == NodesOf(pieces[..k], ps)
    {
      assert pieces[..k + 1][..k] == pieces[..k];
      var p := pieces[k];
      if p.Segment? {
        result := result + [Plain(p.text)];
      } else {
        var description := ApplyInlinePasses([Plain(p.task.text)], ps);
        RowInBounds(p);
        result := result + [Element(p.source[..p.textAt] + Source(description) + p.source[p.textAt + |p.task.text|..])];
      }
    }
    nodes := ApplyInlinePasses(result, ps);
  }

  lemma RowInBounds(p: Piece)
    requires RowFits(p) && p.Row?
    ensures p.textAt + |p.task.text| <= |p.source|
  {
  }

  // ------------------------------------------------------------------ rows are in place

  lemma {:induction false} PiecesRowsFit(s: Text, ms: seq<Match>, k: nat, cursor: nat, overrides: map<nat, bool>)
    requires InOrder(s, ms, cursor)
    ensures RowsFit(PiecesFrom(s, ms, k, cursor, overrides))
    decreases |ms|
  {
    if ms == [] {
    } else {
      PiecesRowsFit(s, ms[1..], k + 1, ms[0].end, overrides);
      RowOfFits(s, ms[0], k, overrides);
      hide RowOf, RowFits, CutStart;
      assert RowFits(CutEnd(s[cursor..ms[0].start])) by { SegmentFits(s[cursor..ms[0].start]); }
    }
  }

  lemma SegmentFits(text: Text)
    ensures RowFits(CutEnd(text)) && RowFits(CutStart(text))
  {
  }

  lemma RowOfFits(s: Text, m: Match, k: nat, overrides: map<nat, bool>)
    requires TaskScanner.Fits(s, m)
    ensures RowFits(RowOf(s, m, k, overrides))
  {
    var at, n := m.textStart - m.start, m.textEnd - m.textStart;
    assert s[m.start..m.end][at..at + n] == s[m.textStart..m.textEnd];
  }

  lemma {:induction false} ShownRowsFit(ps: seq<Piece>)
    requires RowsFit(ps)
    ensures RowsFit(Shown(ps))
  {
    hide RowFits;
    if ps == [] {
    } else {
      ShownRowsFit(ps[1..]);
    }
  }

  lemma PassRowsFit(content: Text, alias: Text, overrides: map<nat, bool>)
    ensures RowsFit(AllPieces(content, alias, overrides)) && RowsFit(TaskPass(content, alias, overrides))
  {
    hide Matches, PiecesFrom, Shown;
    MatchesInOrder(content, 0, alias);
    var ms := Matches(content, 0, alias);
    if ms != [] { PiecesRowsFit(content, ms, 0, 0, overrides); }
    ShownRowsFit(AllPieces(content, alias, overrides));
  }

  // ------------------------------------------------------------ what gets lost, and where

  predicate IsCut(p: Piece) { p.Segment? && (p.cutBefore || p.cutAfter) }

  function ShownText(p: Piece): Text { if p.Segment? then p.text else p.task.text }

  /** All links in the segment, or in the row's description, are safe. */
  predicate LinksSafe(p: Piece, isSafe: Text -> bool) { AllSafe(Urls(ShownText(p), 0), isSafe) }

  predicate AnyCut(ps: seq<Piece>) { exists i :: 0 <= i < |ps| && IsCut(ps[i]) }

  predicate AnyUnsafe(ps: seq<Piece>, isSafe: Text -> bool) { exists i :: 0 <= i < |ps| && !LinksSafe(ps[i], isSafe) }

  /** What is shown of a piece before any inline pass. */
  function KeptOf(p: Piece): Text { if p.Segment? then p.text else p.source }

  function KeptText(ps: seq<Piece>): Text {
    if ps == [] then [] else KeptOf(ps[0]) + KeptText(ps[1..])
  }

  lemma AnyCutHead(ps: seq<Piece>)
    requires ps != []
    ensures AnyCut(ps) <==> IsCut(ps[0]) || AnyCut(ps[1..])
  {
    hide IsCut;
    var rest := ps[1..];
    if i :| 0 <= i < |ps| && IsCut(ps[i]) && i > 0 { assert IsCut(rest[i - 1]); }
    if i :| 0 <= i < |rest| && IsCut(rest[i]) { assert IsCut(ps[i + 1]); }
  }

  /** Of the pieces only cut newlines are not shown. */
  lemma {:induction false} ShownKept(ps: seq<Piece>)
    ensures KeptOr(AnyCut(ps), Joined(ps), KeptText(Shown(ps)))
  {
    if ps == [] {
    } else {
      ShownKept(ps[1..]);
      AnyCutHead(ps);
      ShownHead(ps);
      PieceKept(ps[0]);
      hide KeptOr, AnyCut, Joined, KeptText, Shown, TextOf, IsCut;
      assert Joined(ps) == TextOf(ps[0]) + Joined(ps[1..]) by { JoinedHead(ps); }
      KeptAppend(IsCut(ps[0]), TextOf(ps[0]), KeptOf(ps[0]), AnyCut(ps[1..]), Joined(ps[1..]), KeptText(Shown(ps[1..])));
    }
  }

  lemma JoinedHead(ps: seq<Piece>)
    requires ps != []
    ensures Joined(ps) == TextOf(ps[0]) + Joined(ps[1..])
  {
  }

  lemma ShownHead(ps: seq<Piece>)
    requires ps != []
    ensures KeptText(Shown(ps)) == KeptOf(ps[0]) + KeptText(Shown(ps[1..]))
  {
    var rest := Shown(ps[1..]);
    assert ([ps[0]] + rest)[1..] == rest;
  }

  lemma PieceKept(p: Piece)
    ensures KeptOr(IsCut(p), TextOf(p), KeptOf(p))
  {
  }

  lemma TaskPassKept(content: Text, alias: Text, overrides: map<nat, bool>)
    ensures KeptOr(AnyCut(AllPieces(content, alias, overrides)), content, KeptText(TaskPass(content, alias, overrides)))
  {
    hide Matches, Shown, Joined, KeptOr, PiecesFrom;
    var all := AllPieces(content, alias, overrides);
    TaskPassConserves(content, alias, overrides);
    ShownKept(all);
    if Matches(content, 0, alias) == [] { WholeKept(content); }
  }

  lemma WholeKept(content: Text)
    ensures KeptOr(AnyCut([Segment(content, false, false)]), content, KeptText([Segment(content, false, false)]))
  {
    assert [Segment(content, false, false)][1..] == [];
  }

  // -------------------------------------------------------- the passes over the pieces

  predicate RowUnsafe(p: Piece, isSafe: Text -> bool) { p.Row? && !LinksSafe(p, isSafe) }

  predicate SegmentUnsafe(p: Piece, isSafe: Text -> bool) { p.Segment? && !LinksSafe(p, isSafe) }

  predicate AnyRowUnsafe(ps: seq<Piece>, isSafe: Text -> bool) { exists i :: 0 <= i < |ps| && RowUnsafe(ps[i], isSafe) }

  predicate AnySegmentUnsafe(ps: seq<Piece>, isSafe: Text -> bool) { exists i :: 0 <= i < |ps| && SegmentUnsafe(ps[i], isSafe) }

  /** The nested passes lose what an unsafe link in the description has but its label. */
  lemma NodeKept(p: Piece, isSafe: Text -> bool, rest: seq<Pass>)
    requires AreLaterPasses(rest) && RowFits(p)
    ensures KeptOr(RowUnsafe(p, isSafe), KeptOf(p), SourceOf(NodeOf(p, InlinePasses(isSafe, rest))))
  {
    hide AllSafe, Urls, Source, RunPasses, AreLaterPasses, InlinePasses;
    if p.Row? {
      InlineTextKeptIffSafe(p.task.text, isSafe, rest);
      var at, text := p.textAt, p.task.text;
      var inner := Source(RunPasses([Plain(text)], InlinePasses(isSafe, rest)));
      var x, before, after := RowUnsafe(p, isSafe), p.source[..at], p.source[at + |text|..];
      assert p.source == before + text + after by { Around(p.source, at, at + |text|); }
      hide KeptOr;
      assert KeptOr(false, before, before) && KeptOr(false, after, after) by { Same(before); Same(after); }
      KeptAppend(false, before, before, x, text, inner);
      KeptAppend(x, before + text, before + inner, false, after, after);
    }
  }

  lemma Same(a: Text)
    ensures KeptOr(false, a, a)
  {
  }

  lemma Around(s: Text, a: nat, b: nat)
    requires a <= b <= |s|
    ensures s == s[..a] + s[a..b] + s[b..]
  {
  }

  lemma LastRowUnsafe(ps: seq<Piece>, isSafe: Text -> bool)
    requires ps != []
    ensures AnyRowUnsafe(ps, isSafe) <==> AnyRowUnsafe(ps[..|ps| - 1], isSafe) || RowUnsafe(ps[|ps| - 1], isSafe)
  {
    hide RowUnsafe;
    var front := ps[..|ps| - 1];
    if i :| 0 <= i < |ps| && RowUnsafe(ps[i], isSafe) && i < |front| { assert RowUnsafe(front[i], isSafe); }
    if i :| 0 <= i < |front| && RowUnsafe(front[i], isSafe) { assert RowUnsafe(ps[i], isSafe); }
  }

  lemma {:induction false} KeptTextAppend(a: seq<Piece>, b: seq<Piece>)
    ensures KeptText(a + b) == KeptText(a) + KeptText(b)
  {
    if a == [] {
      assert a + b == b;
    } else {
      assert (a + b)[1..] == a[1..] + b;
      KeptTextAppend(a[1..], b);
    }
  }

  lemma LastKept(ps: seq<Piece>)
    requires ps != []
    ensures KeptText(ps) == KeptText(ps[..|ps| - 1]) + KeptOf(ps[|ps| - 1])
  {
    var front, last := ps[..|ps| - 1], ps[|ps| - 1];
    assert ps == front + [last] && [last][1..] == [];
    KeptTextAppend(front, [last]);
  }

  lemma LastNode(ps: seq<Piece>, passes: seq<Pass>)
    requires ps != [] && ArePasses(passes) && RowsFit(ps)
    ensures RowsFit(ps[..|ps| - 1])
    ensures Source(NodesOf(ps, passes)) == Source(NodesOf(ps[..|ps| - 1], passes)) + SourceOf(NodeOf(ps[|ps| - 1], passes))
  {
    hide NodeOf, RowFits, ArePasses;
    var node := NodeOf(ps[|ps| - 1], passes);
    SourceAppend(NodesOf(ps[..|ps| - 1], passes), [node]);
    SourceOne(node);
  }

  lemma {:induction false} NodesKeptOr(ps: seq<Piece>, isSafe: Text -> bool, rest: seq<Pass>)
    requires AreLaterPasses(rest) && RowsFit(ps)
    ensures KeptOr(AnyRowUnsafe(ps, isSafe), KeptText(ps), Source(NodesOf(ps, InlinePasses(isSafe, rest))))
  {
    hide AreLaterPasses, InlinePasses, RowFits, NodeOf;
    if ps == [] {
    } else {
      hide KeptOr, AnyRowUnsafe, KeptText, Source, NodesOf, KeptOf, RowUnsafe;
      var passes, front, last := InlinePasses(isSafe, rest), ps[..|ps| - 1], ps[|ps| - 1];
      LastNode(ps, passes);
      LastKept(ps);
      LastRowUnsafe(ps, isSafe);
      NodesKeptOr(front, isSafe, rest);
      NodeKept(last, isSafe, rest);
      KeptAppend(AnyRowUnsafe(front, isSafe), KeptText(front), Source(NodesOf(front, passes)),
                 RowUnsafe(last, isSafe), KeptOf(last), SourceOf(NodeOf(last, passes)));
    }
  }

  /** The link pass over the nodes scans the segments. */
  lemma {:induction false} NodesUnwrapIff(ps: seq<Piece>, passes: seq<Pass>, isSafe: Text -> bool)
    requires ArePasses(passes) && RowsFit(ps) && IsPass(LinkPass(isSafe))
    ensures PassUnwraps(NodesOf(ps, passes), LinkPass(isSafe)) <==> AnySegmentUnsafe(ps, isSafe)
  {
    hide IsPass, LinkPass, ArePasses, RowFits;
    if ps == [] {
    } else {
      var front, last := ps[..|ps| - 1], ps[|ps| - 1];
      NodesUnwrapIff(front, passes, isSafe);
      LastSegmentUnsafe(ps, isSafe);
      NodeUnwrapsIff(last, passes, isSafe);
      hide PassUnwraps, NodeUnwraps, AnySegmentUnsafe, SegmentUnsafe, NodeOf;
      var nodes := NodesOf(ps, passes);
      assert nodes[..|nodes| - 1] == NodesOf(front, passes) && nodes[|nodes| - 1] == NodeOf(last, passes);
      LastUnwraps(nodes, LinkPass(isSafe));
    }
  }

  lemma NodeUnwrapsIff(p: Piece, passes: seq<Pass>, isSafe: Text -> bool)
    requires ArePasses(passes) && RowFits(p) && IsPass(LinkPass(isSafe))
    ensures NodeUnwraps(NodeOf(p, passes), LinkPass(isSafe)) <==> SegmentUnsafe(p, isSafe)
  {
    UnwrapsIffUnsafe(ShownText(p), 0, isSafe);
    hide LinkPass, IsPass, ArePasses, Urls, AllSafe, Unwraps, RunPasses, Source;
  }

  lemma LastSegmentUnsafe(ps: seq<Piece>, isSafe: Text -> bool)
    requires ps != []
    ensures AnySegmentUnsafe(ps, isSafe) <==> AnySegmentUnsafe(ps[..|ps| - 1], isSafe) || SegmentUnsafe(ps[|ps| - 1], isSafe)
  {
    hide SegmentUnsafe;
    var front := ps[..|ps| - 1];
    if i :| 0 <= i < |ps| && SegmentUnsafe(ps[i], isSafe) && i < |front| { assert SegmentUnsafe(front[i], isSafe); }
    if i :| 0 <= i < |front| && SegmentUnsafe(front[i], isSafe) { assert SegmentUnsafe(ps[i], isSafe); }
  }

  lemma UnsafeParts(ps: seq<Piece>, isSafe: Text -> bool)
    ensures AnyUnsafe(ps, isSafe) <==> AnyRowUnsafe(ps, isSafe) || AnySegmentUnsafe(ps, isSafe)
  {
    hide LinksSafe;
    if i :| 0 <= i < |ps| && !LinksSafe(ps[i], isSafe) { assert RowUnsafe(ps[i], isSafe) || SegmentUnsafe(ps[i], isSafe); }
    if i :| 0 <= i < |ps| && RowUnsafe(ps[i], isSafe) { assert !LinksSafe(ps[i], isSafe); }
    if i :| 0 <= i < |ps| && SegmentUnsafe(ps[i], isSafe) { assert !LinksSafe(ps[i], isSafe); }
  }

  // -------------------------------------------------------------------- the newlines

  /** A newline stands right before a row, or right after the last. */
  predicate TouchesNewline(s: Text, ms: seq<Match>, cursor: nat)
    requires InOrder(s, ms, cursor)
  {
    if ms == [] then cursor < |s| && s[cursor] == NEWLINE
    else (cursor < ms[0].start && s[ms[0].start - 1] == NEWLINE) || TouchesNewline(s, ms[1..], ms[0].end)
  }

  /** Which newlines the rows take with them, in terms of the text and its matches. */
  predicate RowsTakeNewline(content: Text, alias: Text) {
    MatchesInOrder(content, 0, alias);
    var ms := Matches(content, 0, alias);
    ms != [] && TouchesNewline(content, ms, 0)
  }

  lemma {:induction false} CutIffTouches(s: Text, ms: seq<Match>, k: nat, cursor: nat, overrides: map<nat, bool>)
    requires InOrder(s, ms, cursor)
    ensures AnyCut(PiecesFrom(s, ms, k, cursor, overrides)) <==> TouchesNewline(s, ms, cursor)
    decreases |ms|
  {
    if ms == [] {
      assert PiecesFrom(s, ms, k, cursor, overrides)[0] == CutStart(s[cursor..]);
    } else {
      var before, row, rest := CutEnd(s[cursor..ms[0].start]), RowOf(s, ms[0], k, overrides), PiecesFrom(s, ms[1..], k + 1, ms[0].end, overrides);
      CutIffTouches(s, ms[1..], k + 1, ms[0].end, overrides);
      AnyCutTwo(before, row, rest);
      hide RowOf, AnyCut;
    }
  }

  lemma AnyCutTwo(a: Piece, b: Piece, rest: seq<Piece>)
    ensures AnyCut([a, b] + rest) <==> IsCut(a) || IsCut(b) || AnyCut(rest)
  {
    var ps := [a, b] + rest;
    hide AnyCut, IsCut;
    AnyCutHead(ps);
    AnyCutHead(ps[1..]);
    assert ps[1..][1..] == rest;
  }

  lemma CutIffTakes(content: Text, alias: Text, overrides: map<nat, bool>)
    ensures AnyCut(AllPieces(content, alias, overrides)) <==> RowsTakeNewline(content, alias)
  {
    hide Matches, PiecesFrom;
    MatchesInOrder(content, 0, alias);
    var ms := Matches(content, 0, alias);
    if ms != [] { CutIffTouches(content, ms, 0, 0, overrides); }
  }

  // ------------------------------------------------------------------- the main result

  /** Rendering a message keeps its text exactly when no newline touches a row and all links
      in the segments and in the descriptions are safe, and otherwise makes it shorter. */
  lemma MessageTextKeptIff(content: Text, alias: Text, overrides: map<nat, bool>, isSafe: Text -> bool, rest: seq<Pass>)
    requires AreLaterPasses(rest)
    ensures var result := Rendered(content, alias, overrides, InlinePasses(isSafe, rest));
      var lost := RowsTakeNewline(content, alias) || AnyUnsafe(TaskPass(content, alias, overrides), isSafe);
      (Source(result) == content <==> !lost) && KeptOr(lost, content, Source(result))
  {
    LinkPassIsPass(isSafe);
    PassRowsFit(content, alias, overrides);
    hide AreLaterPasses, InlinePasses, LinkPass, IsPass, RowsFit, TaskPass, AllPieces, RowsTakeNewline, Source, NodesOf, RunPasses;
    hide AnyCut, AnyUnsafe, AnyRowUnsafe, AnySegmentUnsafe, PassUnwraps, KeptText;
    var shown, passes := TaskPass(content, alias, overrides), InlinePasses(isSafe, rest);
    var nodes := NodesOf(shown, passes);
    TaskPassKept(content, alias, overrides);
    CutIffTakes(content, alias, overrides);
    NodesKeptOr(shown, isSafe, rest);
    InlineNodesKept(nodes, isSafe, rest);
    NodesUnwrapIff(shown, passes, isSafe);
    UnsafeParts(shown, isSafe);
  }

  /** A message whose first row follows a newline loses that. */
  lemma RowTakesNewline(content: Text, alias: Text, p: nat)
    requires 0 < p && OpensTask(content, p) && content[p - 1] == NEWLINE && forall i :: 0 <= i < p ==> !OpensTask(content, i)
    ensures RowsTakeNewline(content, alias)
  {
    assert p < |content|;
    hide OpensTask, MatchAt, NextOpening;
    assert NextOpening(content, 0) == p;
    MatchesInOrder(content, 0, alias);
    assert Matches(content, 0, alias)[0].start == p;
  }

  const LINE_AND_TASK: Text := [0x61, NEWLINE, DASH, 0x20, LBRACKET, 0x20, RBRACKET, 0x20, 0x62]

  /** For one `a`, newline, `- [ ] b`: no link at all, and yet text is lost. */
  lemma LinklessTextLost(alias: Text, overrides: map<nat, bool>, isSafe: Text -> bool, rest: seq<Pass>)
    requires AreLaterPasses(rest)
    ensures Urls(LINE_AND_TASK, 0) == []
    ensures Source(Rendered(LINE_AND_TASK, alias, overrides, InlinePasses(isSafe, rest))) != LINE_AND_TASK
  {
    NoLinkThere(0);
    assert OpensTask(LINE_AND_TASK, 2);
    RowTakesNewline(LINE_AND_TASK, alias, 2);
    hide AreLaterPasses, RowsTakeNewline, Rendered, InlinePasses, AnyUnsafe;
    MessageTextKeptIff(LINE_AND_TASK, alias, overrides, isSafe, rest);
  }

  lemma {:induction false} NoLinkThere(p: nat)
    requires p <= |LINE_AND_TASK|
    ensures FindLink(LINE_AND_TASK, p).None?
    decreases |LINE_AND_TASK| - p
  {
    LinkAtMatches(LINE_AND_TASK, p);
    hide LinkAt;
    if p < |LINE_AND_TASK| { NoLinkThere(p + 1); }
  }
}
