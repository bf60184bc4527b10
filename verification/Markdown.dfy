/** The message renderer's tokenizer passes: they end, keep earlier tokens in place and
    lose no text, unless a callback returns a bare string for a match. */
module Markdown {
  import opened JsText
  import opened TaskScanner
  import opened TaskToggle

  /** A child of the rendered message: a string, or an element with the slice of the
      content that it was made from. */
  datatype Node = Plain(text: Text) | Element(source: Text)

  /** What a `toNode` callback makes of a match: null, an element, or a bare string. */
  datatype Rendered = Rejected | Accepted | Unwrapped(inner: Text)

  datatype Hit = Hit(index: nat, length: nat)

  /** `exec` from a position, and the callback. */
  datatype Pass = Pass(exec: (Text, nat) -> Option<Hit>, toNode: (Text, Hit) -> Rendered)

  /** The regular expression only finds non-empty matches, at or after lastIndex. */
  ghost predicate IsPass(p: Pass) {
    forall s: Text, from: nat :: from <= |s| && p.exec(s, from).Some? ==>
      var h := p.exec(s, from).value; from <= h.index && 1 <= h.length && h.index + h.length <= |s|
  }

  /** The bare string for a match is shorter than the match. */
  ghost predicate Shortens(p: Pass) {
    forall s: Text, from: nat :: from <= |s| && p.exec(s, from).Some? ==>
      var h := p.exec(s, from).value; var r := p.toNode(s, h); r.Unwrapped? ==> |r.inner| < h.length
  }

  function NodeFor(s: Text, h: Hit, r: Rendered): Node
    requires h.index + h.length <= |s|
  {
    if r.Unwrapped? then Plain(r.inner) else Element(s[h.index..h.index + h.length])
  }

  /** The plain text between the last token and position `to`, if there is any. */
  function Before(s: Text, last: nat, to: nat): seq<Node>
    requires last <= |s| && to <= |s|
  {
    if to > last then [Plain(s[last..to])] else []
  }

  /** One string, scanned from `from`, with everything before `last` done. */
  function Pieces(s: Text, last: nat, from: nat, p: Pass): seq<Node>
    requires IsPass(p) && last <= from <= |s|
    decreases |s| - from
  {
    match p.exec(s, from)
    case None => Before(s, last, |s|)
    case Some(h) =>
      var r := p.toNode(s, h);
      if r.Rejected? then Pieces(s, last, h.index + 1, p)
      else Before(s, last, h.index) + [NodeFor(s, h, r)] + Pieces(s, h.index + h.length, h.index + h.length, p)
  }

  function Expand(node: Node, p: Pass): seq<Node>
    requires IsPass(p)
  {
    if node.Element? then [node] else Pieces(node.text, 0, 0, p)
  }

  function ExpandAll(nodes: seq<Node>, p: Pass): seq<Node>
    requires IsPass(p)
  {
    if nodes == [] then [] else ExpandAll(nodes[..|nodes| - 1], p) + Expand(nodes[|nodes| - 1], p)
  }

  method ApplyPass(nodes: seq<Node>, p: Pass) returns (result: seq<Node>)
    requires IsPass(p)
    ensures result == ExpandAll(nodes, p)
  {
    hide Pieces, IsPass;
    result := [];
    assert nodes[..|nodes|] == nodes;
    for k := 0 to |nodes|
      invariant result == ExpandAll(nodes[..k], p)
    {
      assert nodes[..k + 1][..k] == nodes[..k];
      var node := nodes[k];
      ghost var before := result;
      if node.Element? {
        result := result + [node];
        continue;
      }
      var lastIndex: nat, regexLastIndex: nat := 0, 0;
      var hit := p.exec(node.text, 0);
      while hit.Some?
        invariant lastIndex <= regexLastIndex <= |node.text| && hit == p.exec(node.text, regexLastIndex)
        invariant result + Pieces(node.text, lastIndex, regexLastIndex, p) == before + Pieces(node.text, 0, 0, p)
        decreases |node.text| - regexLastIndex
      {
        var h := hit.value;
        HitFits(node.text, regexLastIndex, p);
        var rendered := p.toNode(node.text, h);
        PiecesStep(result, node.text, lastIndex, regexLastIndex, p);
        if rendered.Rejected? {
          regexLastIndex := h.index + 1;
        } else {
          result := result + Before(node.text, lastIndex, h.index) + [NodeFor(node.text, h, rendered)];
          lastIndex := h.index + h.length;
          regexLastIndex := lastIndex;
        }
        hit := p.exec(node.text, regexLastIndex);
      }
      PiecesEnd(node.text, lastIndex, regexLastIndex, p);
      result := result + Before(node.text, lastIndex, |node.text|);
    }
  }

  lemma HitFits(s: Text, from: nat, p: Pass)
    requires IsPass(p) && from <= |s| && p.exec(s, from).Some?
    ensures var h := p.exec(s, from).value; from <= h.index && 1 <= h.length && h.index + h.length <= |s|
  {
  }

  lemma PiecesStep(done: seq<Node>, s: Text, last: nat, from: nat, p: Pass)
    requires IsPass(p) && last <= from <= |s| && p.exec(s, from).Some?
    ensures var h := p.exec(s, from).value; var r := p.toNode(s, h);
      && h.index < h.index + h.length <= |s| && last <= h.index
      && done + Pieces(s, last, from, p) ==
           if r.Rejected? then done + Pieces(s, last, h.index + 1, p)
           else done + Before(s, last, h.index) + [NodeFor(s, h, r)] + Pieces(s, h.index + h.length, h.index + h.length, p)
  {
    HitFits(s, from, p);
    hide IsPass, Before, NodeFor;
  }

  lemma PiecesEnd(s: Text, last: nat, from: nat, p: Pass)
    requires IsPass(p) && last <= from <= |s| && p.exec(s, from).None?
    ensures Pieces(s, last, from, p) == Before(s, last, |s|)
  {
  }

  // -------------------------------------------------------------- conservation

  function SourceOf(node: Node): Text { if node.Plain? then node.text else node.source }

  function Source(nodes: seq<Node>): Text {
    if nodes == [] then [] else SourceOf(nodes[0]) + Source(nodes[1..])
  }

  lemma {:induction false} SourceAppend(a: seq<Node>, b: seq<Node>)
    ensures Source(a + b) == Source(a) + Source(b)
  {
    if a == [] {
      assert a + b == b;
    } else {
      assert (a + b)[1..] == a[1..] + b;
      SourceAppend(a[1..], b);
    }
  }

  lemma SourceOne(node: Node)
    ensures Source([node]) == SourceOf(node)
  {
  }

  lemma SplitTwice(s: Text, a: nat, b: nat, c: nat)
    requires a <= b <= c <= |s|
    ensures s[a..] == s[a..b] + s[b..c] + s[c..]
  {
  }

  lemma BeforeSource(s: Text, last: nat, to: nat)
    requires last <= to <= |s|
    ensures Source(Before(s, last, to)) == s[last..to]
  {
  }

  /** Whether the scan of a string from `from` meets a match that becomes a bare string. */
  predicate Unwraps(s: Text, from: nat, p: Pass)
    requires IsPass(p) && from <= |s|
    decreases |s| - from
  {
    match p.exec(s, from)
    case None => false
    case Some(h) =>
      var r := p.toNode(s, h);
      if r.Rejected? then Unwraps(s, h.index + 1, p) else r.Unwrapped? || Unwraps(s, h.index + h.length, p)
  }

  predicate NodeUnwraps(node: Node, p: Pass)
    requires IsPass(p)
  {
    node.Plain? && Unwraps(node.text, 0, p)
  }

  /** Whether a pass over these nodes meets one. */
  predicate PassUnwraps(nodes: seq<Node>, p: Pass)
    requires IsPass(p)
  {
    exists i :: 0 <= i < |nodes| && NodeUnwraps(nodes[i], p)
  }

  /** `b` is `a`, or shorter. */
  predicate KeptOr(shorter: bool, a: Text, b: Text) { if shorter then |b| < |a| else b == a }

  lemma KeptAppend(x: bool, a: Text, a': Text, y: bool, b: Text, b': Text)
    requires KeptOr(x, a, a') && KeptOr(y, b, b')
    ensures KeptOr(x || y, a + b, a' + b')
  {
  }

  lemma {:induction false} PiecesConserve(s: Text, last: nat, from: nat, p: Pass)
    requires IsPass(p) && Shortens(p) && last <= from <= |s|
    ensures KeptOr(Unwraps(s, from, p), s[last..], Source(Pieces(s, last, from, p)))
    decreases |s| - from
  {
    hide Source, Before, IsPass, Shortens;
    if p.exec(s, from).None? {
      BeforeSource(s, last, |s|);
    } else {
      var h := p.exec(s, from).value;
      HitFits(s, from, p);
      if p.toNode(s, h).Rejected? {
        PiecesConserve(s, last, h.index + 1, p);
      } else {
        var end := h.index + h.length;
        PiecesConserve(s, end, end, p);
        TokenConserves(s, last, from, p);
        var r := p.toNode(s, h);
        var before, token, rest := s[last..h.index], NodeFor(s, h, r), Pieces(s, end, end, p);
        hide KeptOr, Pieces, Unwraps;
        PiecesStep([], s, last, from, p);
        SourceAround(s, last, h.index, token, rest);
        KeptAppend(r.Unwrapped?, before + s[h.index..end], before + SourceOf(token), Unwraps(s, end, p), s[end..], Source(rest));
        SplitTwice(s, last, h.index, end);
      }
    }
  }

  lemma TokenConserves(s: Text, last: nat, from: nat, p: Pass)
    requires IsPass(p) && Shortens(p) && last <= from <= |s| && p.exec(s, from).Some?
    ensures var h := p.exec(s, from).value; var r, end := p.toNode(s, h), h.index + h.length;
      && last <= h.index < end <= |s|
      && KeptOr(r.Unwrapped?, s[last..h.index] + s[h.index..end], s[last..h.index] + SourceOf(NodeFor(s, h, r)))
  {
    HitFits(s, from, p);
    var h := p.exec(s, from).value;
    var r, end := p.toNode(s, h), h.index + h.length;
    assert r.Unwrapped? ==> |r.inner| < h.length;
    hide IsPass, Shortens;
    KeptAppend(false, s[last..h.index], s[last..h.index], r.Unwrapped?, s[h.index..end], SourceOf(NodeFor(s, h, r)));
  }

  lemma SourceAround(s: Text, last: nat, to: nat, token: Node, rest: seq<Node>)
    requires last <= to <= |s|
    ensures Source(Before(s, last, to) + [token] + rest) == s[last..to] + SourceOf(token) + Source(rest)
  {
    hide Source, Before;
    SourceOne(token);
    SourceAppend(Before(s, last, to) + [token], rest);
    SourceAppend(Before(s, last, to), [token]);
    BeforeSource(s, last, to);
  }

  lemma ExpandConserves(node: Node, p: Pass)
    requires IsPass(p) && Shortens(p)
    ensures KeptOr(NodeUnwraps(node, p), SourceOf(node), Source(Expand(node, p)))
  {
    if node.Plain? {
      PiecesConserve(node.text, 0, 0, p);
      assert node.text[0..] == node.text;
    }
  }

  lemma {:induction false} PassKeeps(nodes: seq<Node>, p: Pass)
    requires IsPass(p) && Shortens(p)
    ensures KeptOr(PassUnwraps(nodes, p), Source(nodes), Source(ExpandAll(nodes, p)))
  {
    hide IsPass, Shortens, Expand, NodeUnwraps;
    if nodes == [] {
    } else {
      hide Source, PassUnwraps, KeptOr, ExpandAll;
      var front, last := nodes[..|nodes| - 1], nodes[|nodes| - 1];
      PassKeeps(front, p);
      ExpandConserves(last, p);
      LastUnwraps(nodes, p);
      LastSource(nodes, p);
      KeptAppend(PassUnwraps(front, p), Source(front), Source(ExpandAll(front, p)),
                 NodeUnwraps(last, p), SourceOf(last), Source(Expand(last, p)));
    }
  }

  lemma LastSource(nodes: seq<Node>, p: Pass)
    requires IsPass(p) && nodes != []
    ensures var front, last := nodes[..|nodes| - 1], nodes[|nodes| - 1];
      && Source(nodes) == Source(front) + SourceOf(last)
      && Source(ExpandAll(nodes, p)) == Source(ExpandAll(front, p)) + Source(Expand(last, p))
  {
    hide IsPass, Expand, Source;
    var front, last := nodes[..|nodes| - 1], nodes[|nodes| - 1];
    SourceAppend(ExpandAll(front, p), Expand(last, p));
    SourceAppend(front, [last]);
    assert nodes == front + [last];
    SourceOne(last);
  }

  /** A pass loses no character and moves none, unless it meets a match that becomes a
      bare string: then the text gets shorter. */
  lemma PassConserves(nodes: seq<Node>, p: Pass)
    requires IsPass(p) && Shortens(p)
    ensures Source(ExpandAll(nodes, p)) == Source(nodes) <==> !PassUnwraps(nodes, p)
    ensures KeptOr(PassUnwraps(nodes, p), Source(nodes), Source(ExpandAll(nodes, p)))
  {
    hide IsPass, Shortens, PassUnwraps, Source, ExpandAll;
    PassKeeps(nodes, p);
  }

  lemma LastUnwraps(nodes: seq<Node>, p: Pass)
    requires IsPass(p) && nodes != []
    ensures PassUnwraps(nodes, p) <==> PassUnwraps(nodes[..|nodes| - 1], p) || NodeUnwraps(nodes[|nodes| - 1], p)
  {
    hide IsPass, NodeUnwraps;
    var front := nodes[..|nodes| - 1];
    if PassUnwraps(front, p) {
      var i :| 0 <= i < |front| && NodeUnwraps(front[i], p);
      assert NodeUnwraps(nodes[i], p);
    }
    if PassUnwraps(nodes, p) {
      var i :| 0 <= i < |nodes| && NodeUnwraps(nodes[i], p);
      if i < |front| { assert NodeUnwraps(front[i], p); }
    }
  }

  // ------------------------------------------------------------------- the tokens

  /** The slices of the matches that a scan from `from` turns into elements. */
  function Taken(s: Text, from: nat, p: Pass): seq<Text>
    requires IsPass(p) && from <= |s|
    decreases |s| - from
  {
    match p.exec(s, from)
    case None => []
    case Some(h) =>
      var end := h.index + h.length;
      match p.toNode(s, h)
      case Rejected => Taken(s, h.index + 1, p)
      case Accepted => [s[h.index..end]] + Taken(s, end, p)
      case Unwrapped(_) => Taken(s, end, p)
  }

  function Elements(nodes: seq<Node>): seq<Text> {
    if nodes == [] then []
    else (if nodes[0].Element? then [nodes[0].source] else []) + Elements(nodes[1..])
  }

  lemma {:induction false} ElementsAppend(a: seq<Node>, b: seq<Node>)
    ensures Elements(a + b) == Elements(a) + Elements(b)
  {
    if a == [] {
      assert a + b == b;
    } else {
      assert (a + b)[1..] == a[1..] + b;
      ElementsAppend(a[1..], b);
      var first := if a[0].Element? then [a[0].source] else [];
      assert first + (Elements(a[1..]) + Elements(b)) == first + Elements(a[1..]) + Elements(b);
    }
  }

  lemma PlainElements(s: Text, last: nat, to: nat)
    requires last <= |s| && to <= |s|
    ensures Elements(Before(s, last, to)) == []
  {
  }

  lemma OneElement(node: Node)
    ensures Elements([node]) == if node.Element? then [node.source] else []
  {
    assert [node][1..] == [];
  }

  /** Every match that the callback accepts becomes an element, and nothing else does. */
  lemma {:induction false} ElementsAreTaken(s: Text, last: nat, from: nat, p: Pass)
    requires IsPass(p) && last <= from <= |s|
    ensures Elements(Pieces(s, last, from, p)) == Taken(s, from, p)
    decreases |s| - from
  {
    hide Elements, Before, IsPass;
    if p.exec(s, from).None? {
      PlainElements(s, last, |s|);
    } else {
      var h := p.exec(s, from).value;
      HitFits(s, from, p);
      var end, r := h.index + h.length, p.toNode(s, h);
      if r.Rejected? {
        ElementsAreTaken(s, last, h.index + 1, p);
      } else {
        ElementsAreTaken(s, end, end, p);
        var before, token, rest := Before(s, last, h.index), NodeFor(s, h, r), Pieces(s, end, end, p);
        ElementsAppend(before + [token], rest);
        ElementsAppend(before, [token]);
        PlainElements(s, last, h.index);
        OneElement(token);
      }
    }
  }

  /** Every token of an earlier pass stays, between the expansions of its neighbours. */
  lemma {:induction false} TokensStay(nodes: seq<Node>, i: nat, p: Pass)
    requires IsPass(p) && i < |nodes| && nodes[i].Element?
    ensures ExpandAll(nodes, p) == ExpandAll(nodes[..i], p) + [nodes[i]] + ExpandAll(nodes[i + 1..], p)
  {
    hide Expand;
    ExpandAppend(nodes[..i + 1], nodes[i + 1..], p);
    assert nodes[..i + 1] + nodes[i + 1..] == nodes && nodes[..i + 1][..i] == nodes[..i];
    assert Expand(nodes[i], p) == [nodes[i]] by { ElementKept(nodes[i], p); }
  }

  lemma ElementKept(node: Node, p: Pass)
    requires IsPass(p) && node.Element?
    ensures Expand(node, p) == [node]
  {
  }

  lemma {:induction false} ExpandAppend(a: seq<Node>, b: seq<Node>, p: Pass)
    requires IsPass(p)
    ensures ExpandAll(a + b, p) == ExpandAll(a, p) + ExpandAll(b, p)
    decreases |b|
  {
    hide Expand, IsPass;
    if b == [] {
      assert a + b == a;
    } else {
      var n := |b| - 1;
      ExpandAppend(a, b[..n], p);
      assert (a + b)[..|a + b| - 1] == a + b[..n];
    }
  }

  ghost predicate ArePasses(ps: seq<Pass>) { forall i :: 0 <= i < |ps| ==> IsPass(ps[i]) }

  /** applyInlinePasses: the passes one after the other. */
  ghost function RunPasses(nodes: seq<Node>, ps: seq<Pass>): seq<Node>
    requires ArePasses(ps)
  {
    if ps == [] then nodes else ExpandAll(RunPasses(nodes, ps[..|ps| - 1]), ps[|ps| - 1])
  }

  method ApplyInlinePasses(nodes: seq<Node>, ps: seq<Pass>) returns (result: seq<Node>)
    requires ArePasses(ps)
    ensures result == RunPasses(nodes, ps)
  {
    hide IsPass;
    result := nodes;
    assert ps[..|ps|] == ps;
    for k := 0 to |ps|
      invariant result == RunPasses(nodes, ps[..k])
    {
      assert ps[..k + 1][..k] == ps[..k];
      result := ApplyPass(result, ps[k]);
    }
  }

  /** Whether any pass of the run meets a match that becomes a bare string. */
  ghost predicate RunUnwraps(nodes: seq<Node>, ps: seq<Pass>)
    requires ArePasses(ps)
  {
    ps != [] &&
    (RunUnwraps(nodes, ps[..|ps| - 1]) || PassUnwraps(RunPasses(nodes, ps[..|ps| - 1]), ps[|ps| - 1]))
  }

  /** The whole pipeline conserves the text exactly when no match of the run becomes a
      bare string, and never makes it longer. */
  lemma {:induction false} PipelineConserves(nodes: seq<Node>, ps: seq<Pass>)
    requires ArePasses(ps) && forall i :: 0 <= i < |ps| ==> Shortens(ps[i])
    ensures Source(RunPasses(nodes, ps)) == Source(nodes) <==> !RunUnwraps(nodes, ps)
    ensures KeptOr(RunUnwraps(nodes, ps), Source(nodes), Source(RunPasses(nodes, ps)))
  {
    hide IsPass, Shortens, PassUnwraps, Source, ExpandAll;
    if ps == [] {
    } else {
      PipelineConserves(nodes, ps[..|ps| - 1]);
      PassConserves(RunPasses(nodes, ps[..|ps| - 1]), ps[|ps| - 1]);
    }
  }
}
