/** The renderer's first inline pass, `\[([^\]\n]+)\]\(([^\s]+)\)` with mdLinkToNode, and
    when the inline passes lose text. */
module MarkdownLinks {
  import opened JsText
  import opened TaskScanner
  import opened Markdown

  const LPAREN: Unit := 0x28
  const RPAREN: Unit := 0x29
  const LINE_FEED: Unit := 0x0A

  /** The positions of the `]` and of the last `)`. */
  datatype Link = Link(labelEnd: nat, close: nat)

  predicate EndsLabel(u: Unit) { u == RBRACKET || u == LINE_FEED }

  /** The end of the run of `[^\]\n]` that starts at `p`. */
  function LabelEnd(s: Text, p: nat): (r: nat)
    requires p <= |s|
    ensures p <= r <= |s| && (forall i :: p <= i < r ==> !EndsLabel(s[i])) && (r < |s| ==> EndsLabel(s[r]))
    decreases |s| - p
  {
    if p < |s| && !EndsLabel(s[p]) then LabelEnd(s, p + 1) else p
  }

  /** The end of the run of `[^\s]` that starts at `p`. */
  function WordEnd(s: Text, p: nat): (r: nat)
    requires p <= |s|
    ensures p <= r <= |s| && (forall i :: p <= i < r ==> !IsSpace(s[i])) && (r < |s| ==> IsSpace(s[r]))
    decreases |s| - p
  {
    if p < |s| && !IsSpace(s[p]) then WordEnd(s, p + 1) else p
  }

  /** The last `)` in `low..high`: where the greedy run has backed up to. */
  function LastClose(s: Text, low: nat, high: nat): (r: Option<nat>)
    requires high <= |s|
    ensures r.Some? ==> low <= r.value < high && s[r.value] == RPAREN
    ensures forall k :: low <= k < high && s[k] == RPAREN ==> r.Some? && k <= r.value
    decreases high
  {
    if high <= low then None else if s[high - 1] == RPAREN then Some(high - 1) else LastClose(s, low, high - 1)
  }

  function LinkAt(s: Text, p: nat): (r: Option<Link>)
    requires p <= |s|
    ensures r.Some? ==> p + 1 < r.value.labelEnd && r.value.labelEnd + 2 < r.value.close < |s|
  {
    if p == |s| || s[p] != LBRACKET then None else
    var e := LabelEnd(s, p + 1);
    if e == p + 1 || |s| < e + 2 || s[e] != RBRACKET || s[e + 1] != LPAREN then None else
    match LastClose(s, e + 3, WordEnd(s, e + 2))
    case None => None
    case Some(q) => Some(Link(e, q))
  }

  /** The expression can match at `p` with these positions. */
  predicate IsLinkMatch(s: Text, p: nat, l: Link) {
    && p + 1 < l.labelEnd && l.labelEnd + 2 < l.close < |s|
    && s[p] == 0x5B && s[l.labelEnd] == 0x5D && s[l.labelEnd + 1] == 0x28 && s[l.close] == 0x29
    && (forall i :: p < i < l.labelEnd ==> s[i] != 0x5D && s[i] != 0x0A)
    && (forall i :: l.labelEnd + 2 <= i < l.close ==> !IsSpace(s[i]))
  }

  /** The scanner takes the longest match there is. */
  lemma LinkAtLongest(s: Text, p: nat, l: Link)
    requires p <= |s|
    ensures LinkAt(s, p) == Some(l) <==> IsLinkMatch(s, p, l) && forall k: Link :: IsLinkMatch(s, p, k) ==> k.close <= l.close
  {
    LinkAtMatches(s, p);
    if LinkAt(s, p).Some? { LinkAtCovers(s, p, LinkAt(s, p).value); }
    if IsLinkMatch(s, p, l) { LinkAtCovers(s, p, l); }
    hide LinkAt;
    if IsLinkMatch(s, p, l) && forall k: Link :: IsLinkMatch(s, p, k) ==> k.close <= l.close {
      assert IsLinkMatch(s, p, LinkAt(s, p).value);
    }
    if LinkAt(s, p) == Some(l) {
      forall k: Link | IsLinkMatch(s, p, k) ensures k.close <= l.close { LinkAtCovers(s, p, k); }
    }
  }

  lemma LinkAtMatches(s: Text, p: nat)
    requires p <= |s|
    ensures LinkAt(s, p).Some? ==> IsLinkMatch(s, p, LinkAt(s, p).value)
  {
  }

  lemma LinkAtCovers(s: Text, p: nat, l: Link)
    requires p <= |s| && IsLinkMatch(s, p, l)
    ensures LinkAt(s, p).Some? && LinkAt(s, p).value.labelEnd == l.labelEnd && l.close <= LinkAt(s, p).value.close
  {
    var e, w := LabelEnd(s, p + 1), WordEnd(s, l.labelEnd + 2);
    assert EndsLabel(s[l.labelEnd]);
    assert e == l.labelEnd;
    assert !IsSpace(s[l.close]);
    assert l.close < w;
  }

  /** `exec` with the g flag: the leftmost match from `from`. */
  function FindLink(s: Text, from: nat): (r: Option<Hit>)
    requires from <= |s|
    ensures r.Some? ==> from <= r.value.index <= |s| && LinkAt(s, r.value.index).Some?
    ensures r.Some? ==> r.value.index + r.value.length == LinkAt(s, r.value.index).value.close + 1
    decreases |s| - from
  {
    if LinkAt(s, from).Some? then Some(Hit(from, LinkAt(s, from).value.close + 1 - from))
    else if from == |s| then None
    else FindLink(s, from + 1)
  }

  /** The search misses no match: it finds the first position from `from` on that has one. */
  lemma {:induction false} FindLinkFirst(s: Text, from: nat, p: nat)
    requires from <= p <= |s|
    ensures (FindLink(s, from).Some? && FindLink(s, from).value.index == p) <==>
            LinkAt(s, p).Some? && forall k :: from <= k < p ==> LinkAt(s, k).None?
    decreases |s| - from
  {
    hide LinkAt;
    if LinkAt(s, from).Some? || from == p {
    } else {
      FindLinkFirst(s, from + 1, p);
    }
  }

  function UrlOf(s: Text, p: nat): Text
    requires p <= |s| && LinkAt(s, p).Some?
  {
    var l := LinkAt(s, p).value;
    s[l.labelEnd + 2..l.close]
  }

  /** mdLinkToNode: an unsafe target leaves the label, as a string. */
  function LinkNode(s: Text, h: Hit, isSafe: Text -> bool): Rendered {
    if h.index > |s| || LinkAt(s, h.index).None? then Rejected
    else if isSafe(UrlOf(s, h.index)) then Accepted
    else Unwrapped(s[h.index + 1..LinkAt(s, h.index).value.labelEnd])
  }

  /** `isSafe` is isSafeHttpUrl. */
  function LinkPass(isSafe: Text -> bool): Pass {
    Pass((s: Text, from: nat) => if from <= |s| then FindLink(s, from) else None, (s, h) => LinkNode(s, h, isSafe))
  }

  lemma LinkPassIsPass(isSafe: Text -> bool)
    ensures IsPass(LinkPass(isSafe)) && Shortens(LinkPass(isSafe))
  {
    hide LinkAt, FindLink;
  }

  /** The targets of the links that the pass finds. */
  function Urls(s: Text, from: nat): seq<Text>
    requires from <= |s|
    decreases |s| - from
  {
    match FindLink(s, from)
    case None => []
    case Some(h) => [UrlOf(s, h.index)] + Urls(s, h.index + h.length)
  }

  predicate AllSafe(urls: seq<Text>, isSafe: Text -> bool) { forall i :: 0 <= i < |urls| ==> isSafe(urls[i]) }

  lemma LinkPassAt(s: Text, from: nat, isSafe: Text -> bool)
    requires from <= |s|
    ensures LinkPass(isSafe).exec(s, from) == FindLink(s, from)
    ensures FindLink(s, from).Some? ==>
              var h := FindLink(s, from).value;
              LinkPass(isSafe).toNode(s, h) ==
              if isSafe(UrlOf(s, h.index)) then Accepted else Unwrapped(s[h.index + 1..LinkAt(s, h.index).value.labelEnd])
  {
    hide LinkAt, FindLink;
  }

  lemma {:induction false} UnwrapsIffUnsafe(s: Text, from: nat, isSafe: Text -> bool)
    requires from <= |s| && IsPass(LinkPass(isSafe))
    ensures Unwraps(s, from, LinkPass(isSafe)) <==> !AllSafe(Urls(s, from), isSafe)
    decreases |s| - from
  {
    hide IsPass, LinkPass, LinkAt, FindLink, UrlOf;
    LinkPassAt(s, from, isSafe);
    if FindLink(s, from).Some? {
      var h := FindLink(s, from).value;
      UnwrapsIffUnsafe(s, h.index + h.length, isSafe);
      AllSafeCons(UrlOf(s, h.index), Urls(s, h.index + h.length), isSafe);
      hide AllSafe;
    }
  }

  lemma AllSafeCons(url: Text, rest: seq<Text>, isSafe: Text -> bool)
    ensures AllSafe([url] + rest, isSafe) <==> isSafe(url) && AllSafe(rest, isSafe)
  {
    if AllSafe([url] + rest, isSafe) {
      assert ([url] + rest)[0] == url;
      forall i | 0 <= i < |rest| ensures isSafe(rest[i]) { assert ([url] + rest)[i + 1] == rest[i]; }
    }
  }

  /** The callbacks of the other passes: an element or null. */
  ghost predicate NeverUnwraps(p: Pass) {
    forall s: Text, from: nat :: from <= |s| && p.exec(s, from).Some? ==> !p.toNode(s, p.exec(s, from).value).Unwrapped?
  }

  lemma {:induction false} StringKept(s: Text, from: nat, p: Pass)
    requires IsPass(p) && NeverUnwraps(p) && from <= |s|
    ensures !Unwraps(s, from, p)
    decreases |s| - from
  {
    hide IsPass;
    match p.exec(s, from)
    case None =>
    case Some(h) =>
      HitFits(s, from, p);
      StringKept(s, if p.toNode(s, h).Rejected? then h.index + 1 else h.index + h.length, p);
  }

  lemma NodesKept(nodes: seq<Node>, p: Pass)
    requires IsPass(p) && NeverUnwraps(p)
    ensures !PassUnwraps(nodes, p) && Shortens(p)
  {
    assert Shortens(p);
    hide IsPass, NeverUnwraps, Shortens;
    forall i | 0 <= i < |nodes| ensures !NodeUnwraps(nodes[i], p) {
      if nodes[i].Plain? { StringKept(nodes[i].text, 0, p); }
    }
  }

  lemma {:induction false} OnlyLinksUnwrap(nodes: seq<Node>, first: Pass, rest: seq<Pass>)
    requires IsPass(first) && ArePasses(rest) && forall i :: 0 <= i < |rest| ==> NeverUnwraps(rest[i])
    ensures ArePasses([first] + rest)
    ensures RunUnwraps(nodes, [first] + rest) <==> PassUnwraps(nodes, first)
    decreases |rest|
  {
    hide IsPass, NeverUnwraps, PassUnwraps;
    var ps := [first] + rest;
    if rest == [] {
      assert ps == [first] && ps[..0] == [];
    } else {
      var n := |rest| - 1;
      assert ps[..|ps| - 1] == [first] + rest[..n];
      OnlyLinksUnwrap(nodes, first, rest[..n]);
      NodesKept(RunPasses(nodes, ps[..|ps| - 1]), rest[n]);
    }
  }

  ghost predicate AreLaterPasses(rest: seq<Pass>) { ArePasses(rest) && forall i :: 0 <= i < |rest| ==> NeverUnwraps(rest[i]) }

  /** The inline passes: the links, then the others. */
  ghost function InlinePasses(isSafe: Text -> bool, rest: seq<Pass>): (ps: seq<Pass>)
    requires AreLaterPasses(rest)
    ensures ArePasses(ps)
  {
    LinkPassIsPass(isSafe);
    [LinkPass(isSafe)] + rest
  }

  lemma InlineShortens(isSafe: Text -> bool, rest: seq<Pass>)
    requires AreLaterPasses(rest)
    ensures forall i :: 0 <= i < |InlinePasses(isSafe, rest)| ==> Shortens(InlinePasses(isSafe, rest)[i])
  {
    LinkPassIsPass(isSafe);
    forall i | 0 <= i < |rest| ensures Shortens(rest[i]) { NodesKept([], rest[i]); }
    hide LinkPass, IsPass, NeverUnwraps, Shortens;
  }

  /** The inline passes over any nodes: the text is kept, or shorter when the link pass
      meets an unsafe link in one of the strings. */
  lemma InlineNodesKept(nodes: seq<Node>, isSafe: Text -> bool, rest: seq<Pass>)
    requires AreLaterPasses(rest) && IsPass(LinkPass(isSafe))
    ensures KeptOr(PassUnwraps(nodes, LinkPass(isSafe)), Source(nodes), Source(RunPasses(nodes, InlinePasses(isSafe, rest))))
  {
    InlineShortens(isSafe, rest);
    hide LinkPass, IsPass, NeverUnwraps, Shortens, PassUnwraps, KeptOr;
    OnlyLinksUnwrap(nodes, LinkPass(isSafe), rest);
    PipelineConserves(nodes, InlinePasses(isSafe, rest));
  }

  /** applyInlinePasses on one string loses no text exactly when the targets of all the
      links in it pass isSafeHttpUrl, and otherwise makes it shorter. */
  lemma InlineTextKeptIffSafe(content: Text, isSafe: Text -> bool, rest: seq<Pass>)
    requires AreLaterPasses(rest)
    ensures var result := RunPasses([Plain(content)], InlinePasses(isSafe, rest));
      && (Source(result) == content <==> AllSafe(Urls(content, 0), isSafe))
      && KeptOr(!AllSafe(Urls(content, 0), isSafe), content, Source(result))
  {
    LinkPassIsPass(isSafe);
    InlineNodesKept([Plain(content)], isSafe, rest);
    SourceOne(Plain(content));
    UnwrapsIffUnsafe(content, 0, isSafe);
    OneNode(Plain(content), LinkPass(isSafe));
    hide LinkPass, IsPass, AreLaterPasses, PassUnwraps, Source, RunPasses, InlinePasses, Urls, AllSafe;
  }

  lemma OneNode(node: Node, p: Pass)
    requires IsPass(p)
    ensures PassUnwraps([node], p) <==> NodeUnwraps(node, p)
  {
    assert [node][0] == node;
  }

  /** A message that is one link with an unsafe target comes out as the bare label. */
  lemma UnsafeLinkLeavesLabel(s: Text, l: Link, isSafe: Text -> bool)
    requires LinkAt(s, 0) == Some(l) && l.close + 1 == |s| && !isSafe(UrlOf(s, 0))
    ensures IsPass(LinkPass(isSafe))
    ensures ExpandAll([Plain(s)], LinkPass(isSafe)) == [Plain(s[1..l.labelEnd])]
  {
    LinkPassIsPass(isSafe);
    LinkPassAt(s, 0, isSafe);
    LinkPassAt(s, |s|, isSafe);
    assert FindLink(s, 0) == Some(Hit(0, |s|)) && FindLink(s, |s|).None?;
    hide LinkPass, IsPass, LinkAt, FindLink, UrlOf;
    var p := LinkPass(isSafe);
    PiecesEnd(s, |s|, |s|, p);
    PiecesStep([], s, 0, 0, p);
    assert [Plain(s)][..0] == [];
  }

  function LinkText(shown: Text, url: Text): Text { [LBRACKET] + shown + [RBRACKET, LPAREN] + url + [RPAREN] }

  /** Every label and unsafe target make such a message. */
  lemma UnsafeLinkLosesText(shown: Text, url: Text, isSafe: Text -> bool)
    requires shown != [] && forall i :: 0 <= i < |shown| ==> !EndsLabel(shown[i])
    requires url != [] && !isSafe(url) && forall i :: 0 <= i < |url| ==> !IsSpace(url[i])
    ensures IsPass(LinkPass(isSafe))
    ensures ExpandAll([Plain(LinkText(shown, url))], LinkPass(isSafe)) == [Plain(shown)]
  {
    var s, l := LinkText(shown, url), Link(|shown| + 1, |shown| + |url| + 3);
    LinkTextMatches(shown, url);
    hide LinkAt, IsLinkMatch, LinkText, LinkPass;
    LastIsLongest(s, 0, l);
    UnsafeLinkLeavesLabel(s, l, isSafe);
  }

  lemma LinkTextMatches(shown: Text, url: Text)
    requires shown != [] && forall i :: 0 <= i < |shown| ==> !EndsLabel(shown[i])
    requires url != [] && forall i :: 0 <= i < |url| ==> !IsSpace(url[i])
    ensures var s, n := LinkText(shown, url), |shown| + 1;
      && |s| == n + |url| + 3 && s[1..n] == shown && s[n + 2..n + 2 + |url|] == url
      && IsLinkMatch(s, 0, Link(n, n + 2 + |url|))
  {
    hide IsSpace;
  }

  lemma LastIsLongest(s: Text, p: nat, l: Link)
    requires IsLinkMatch(s, p, l) && l.close + 1 == |s|
    ensures p <= |s| && LinkAt(s, p) == Some(l)
  {
    LinkAtLongest(s, p, l);
  }

  /** For one, `[x](javascript:1)`. */
  lemma ScriptLinkLosesText(isSafe: Text -> bool)
    requires !isSafe(Lit("javascript:1"))
    ensures IsPass(LinkPass(isSafe))
    ensures ExpandAll([Plain(LinkText(Lit("x"), Lit("javascript:1")))], LinkPass(isSafe)) == [Plain(Lit("x"))]
  {
    hide LinkPass, LinkText;
    UnsafeLinkLosesText(Lit("x"), Lit("javascript:1"), isSafe);
  }
}
