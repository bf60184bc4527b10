/** Entity names: the normal form that tells whether two spellings are the same name, and
    the names that a message contributes. */
module Naming {
  import opened JsText
  import opened References

  const MAX_ENTITIES_PER_MESSAGE := 20

  /** `.trim()` on the left, on the right, and `.replace(/\s+/g, ' ')`. */
  function TrimStart(t: Text): Text {
    if t != [] && IsSpace(t[0]) then TrimStart(t[1..]) else t
  }

  function TrimEnd(t: Text): Text {
    if t != [] && IsSpace(t[|t| - 1]) then TrimEnd(t[..|t| - 1]) else t
  }

  function CollapseSpaces(t: Text): Text
    decreases |t|
  {
    if t == [] then []
    else if IsSpace(t[0]) then [0x20] + CollapseSpaces(TrimStartShorter(t))
    else [t[0]] + CollapseSpaces(t[1..])
  }

  function TrimStartShorter(t: Text): (r: Text)
    requires t != [] && IsSpace(t[0])
    ensures |r| < |t|
  {
    TrimShortens(t[1..]);
    TrimStart(t)
  }

  lemma TrimShortens(t: Text)
    ensures |TrimStart(t)| <= |t|
  {
  }

  function CanonicalName(raw: Text): Text { CollapseSpaces(TrimEnd(TrimStart(raw))) }

  /** normalizeEntityName; `lower` is String.prototype.toLowerCase. */
  function NormalizeEntityName(name: Text, lower: Text -> Text): Text { lower(CanonicalName(name)) }

  // ------------------------------------------------------------ the normal form

  function WordLength(t: Text): (n: nat)
    ensures n <= |t| && (forall i :: 0 <= i < n ==> !IsSpace(t[i])) && (n < |t| ==> IsSpace(t[n]))
  {
    if t == [] || IsSpace(t[0]) then 0 else 1 + WordLength(t[1..])
  }

  /** The maximal runs without white space. */
  function Words(t: Text): seq<Text>
    decreases |t|
  {
    if t == [] then []
    else if IsSpace(t[0]) then Words(t[1..])
    else [t[..WordLength(t)]] + Words(t[WordLength(t)..])
  }

  /** The words with one blank between each two. */
  function Join(ws: seq<Text>): Text {
    if ws == [] then [] else if |ws| == 1 then ws[0] else ws[0] + [0x20] + Join(ws[1..])
  }

  lemma {:induction false} WordsTrimStart(t: Text)
    ensures Words(TrimStart(t)) == Words(t)
    ensures TrimStart(t) != [] ==> !IsSpace(TrimStart(t)[0]) && t != [] && TrimStart(t)[|TrimStart(t)| - 1] == t[|t| - 1]
    ensures t != [] && !IsSpace(t[|t| - 1]) ==> TrimStart(t) != []
  {
    if t != [] && IsSpace(t[0]) { WordsTrimStart(t[1..]); }
  }

  lemma {:induction false} WordsSpaceAfter(t: Text, u: Unit)
    requires IsSpace(u)
    ensures Words(t + [u]) == Words(t)
    decreases |t|
  {
    hide IsSpace;
    if t == [] {
      assert (t + [u])[1..] == [];
    } else if IsSpace(t[0]) {
      assert (t + [u])[1..] == t[1..] + [u];
      WordsSpaceAfter(t[1..], u);
    } else {
      var n := WordLength(t);
      WordLengthAppend(t, [u]);
      assert (t + [u])[..n] == t[..n] && (t + [u])[n..] == t[n..] + [u];
      WordsSpaceAfter(t[n..], u);
    }
  }

  /** A word does not grow by what follows a blank. */
  lemma {:induction false} WordLengthAppend(t: Text, rest: Text)
    requires rest != [] && IsSpace(rest[0])
    ensures WordLength(t + rest) == WordLength(t)
  {
    hide IsSpace;
    if t == [] {
      assert t + rest == rest;
    } else {
      assert (t + rest)[1..] == t[1..] + rest;
      if !IsSpace(t[0]) { WordLengthAppend(t[1..], rest); }
    }
  }

  lemma {:induction false} WordsTrimEnd(t: Text)
    ensures Words(TrimEnd(t)) == Words(t)
    ensures TrimEnd(t) != [] ==> !IsSpace(TrimEnd(t)[|TrimEnd(t)| - 1]) && t != [] && TrimEnd(t)[0] == t[0]
  {
    if t != [] && IsSpace(t[|t| - 1]) {
      var n := |t| - 1;
      WordsTrimEnd(t[..n]);
      WordsSpaceAfter(t[..n], t[n]);
      assert t == t[..n] + [t[n]];
    }
  }

  lemma {:induction false} CollapseWord(w: Text, rest: Text)
    requires forall i :: 0 <= i < |w| ==> !IsSpace(w[i])
    ensures CollapseSpaces(w + rest) == w + CollapseSpaces(rest)
  {
    hide IsSpace;
    if w == [] {
      assert w + rest == rest;
    } else {
      assert (w + rest)[1..] == w[1..] + rest;
      CollapseWord(w[1..], rest);
    }
  }

  /** Trimmed at both ends, collapsing the white space joins the words. */
  lemma {:induction false} CollapseJoins(t: Text)
    requires t != [] ==> !IsSpace(t[0]) && !IsSpace(t[|t| - 1])
    ensures CollapseSpaces(t) == Join(Words(t))
    decreases |t|
  {
    hide IsSpace;
    if t == [] {
    } else {
      var n := WordLength(t);
      var w, rest := t[..n], t[n..];
      assert t == w + rest;
      CollapseWord(w, rest);
      if rest != [] {
        var next := TrimStart(rest);
        WordsTrimStart(rest);
        TrimShortens(rest[1..]);
        CollapseJoins(next);
        WordsNonEmpty(next);
        assert Words(rest) == Words(next);
      }
    }
  }

  lemma WordsNonEmpty(t: Text)
    requires t != [] && !IsSpace(t[0])
    ensures Words(t) != []
  {
  }

  /** The canonical name is the words with single blanks between. */
  lemma CanonicalJoinsWords(raw: Text)
    ensures CanonicalName(raw) == Join(Words(raw))
  {
    hide IsSpace;
    WordsTrimStart(raw);
    WordsTrimEnd(TrimStart(raw));
    CollapseJoins(TrimEnd(TrimStart(raw)));
  }

  lemma {:induction false} WordsAreWords(t: Text)
    ensures forall k :: 0 <= k < |Words(t)| ==> IsWord(Words(t)[k])
    decreases |t|
  {
    hide IsSpace;
    if t == [] {
    } else {
      if IsSpace(t[0]) { WordsAreWords(t[1..]); } else { WordsAreWords(t[WordLength(t)..]); }
    }
  }

  predicate IsWord(w: Text) { w != [] && forall i :: 0 <= i < |w| ==> !IsSpace(w[i]) }

  lemma {:induction false} WordsOfJoin(ws: seq<Text>)
    requires forall k :: 0 <= k < |ws| ==> IsWord(ws[k])
    ensures Words(Join(ws)) == ws
  {
    if ws == [] {
    } else {
      hide IsSpace;
      assert IsWord(ws[0]) && IsSpace(0x20) by { BlankIsSpace(); }
      if |ws| == 1 {
        WordLengthWhole(ws[0]);
        assert ws[0][|ws[0]|..] == [] && ws[0][..|ws[0]|] == ws[0] && ws == [ws[0]];
      } else {
        var rest := [0x20] + Join(ws[1..]);
        WordsOfJoin(ws[1..]);
        WordLengthAppend(ws[0], rest);
        WordLengthWhole(ws[0]);
        assert Join(ws) == ws[0] + rest && (ws[0] + rest)[|ws[0]|..] == rest && rest[1..] == Join(ws[1..]);
        assert (ws[0] + rest)[..|ws[0]|] == ws[0];
      }
    }
  }

  lemma BlankIsSpace()
    ensures IsSpace(0x20)
  {
  }

  lemma WordLengthWhole(w: Text)
    requires IsWord(w)
    ensures WordLength(w) == |w|
  {
  }

  /** Two spellings have the same canonical name exactly when they have the same words. */
  lemma SameNameIffSameWords(a: Text, b: Text)
    ensures CanonicalName(a) == CanonicalName(b) <==> Words(a) == Words(b)
    ensures CanonicalName(CanonicalName(a)) == CanonicalName(a)
  {
    hide IsSpace, CanonicalName;
    CanonicalJoinsWords(a);
    CanonicalJoinsWords(b);
    CanonicalJoinsWords(CanonicalName(a));
    WordsAreWords(a);
    WordsAreWords(b);
    WordsOfJoin(Words(a));
    WordsOfJoin(Words(b));
  }

  // ----------------------------------------------------- the names of a message

  datatype EntityName = EntityName(canonical: Text, normalized: Text)

  function NameOf(raw: Text, lower: Text -> Text): EntityName {
    EntityName(CanonicalName(raw), NormalizeEntityName(CanonicalName(raw), lower))
  }

  /** A token in a message and an alias typed the same way are normalized the same way. */
  lemma TokenAndAliasAgree(raw: Text, lower: Text -> Text)
    ensures NameOf(raw, lower).normalized == NormalizeEntityName(raw, lower)
  {
    SameNameIffSameWords(raw, raw);
  }

  predicate Holds(names: seq<EntityName>, normalized: Text) {
    exists i :: 0 <= i < |names| && names[i].normalized == normalized
  }

  /** One more token: its name, if that is new, not empty and no more than the twentieth. */
  function WithName(names: seq<EntityName>, name: EntityName): seq<EntityName> {
    if |names| >= MAX_ENTITIES_PER_MESSAGE || name.normalized == [] || Holds(names, name.normalized) then names
    else names + [name]
  }

  function NamesFrom(tokens: seq<Text>, lower: Text -> Text): (names: seq<EntityName>) {
    if tokens == [] then []
    else WithName(NamesFrom(tokens[..|tokens| - 1], lower), NameOf(tokens[|tokens| - 1], lower))
  }

  function EntityNames(content: Text, lower: Text -> Text): seq<EntityName> {
    NamesFrom(EntityTokens(content, 0), lower)
  }

  predicate Distinct(names: seq<EntityName>) {
    forall i, j :: 0 <= i < j < |names| ==> names[i].normalized != names[j].normalized
  }

  /** The normalized names of the tokens, the empty name left out. */
  function NormalizedOf(tokens: seq<Text>, lower: Text -> Text): set<Text> {
    (set t | t in tokens :: NameOf(t, lower).normalized) - {[]}
  }

  function NormalizedIn(names: seq<EntityName>): set<Text> {
    set n | n in names :: n.normalized
  }

  lemma NormalizedOfSnoc(tokens: seq<Text>, t: Text, lower: Text -> Text)
    ensures NormalizedOf(tokens + [t], lower) == NormalizedOf(tokens, lower) + ({NameOf(t, lower).normalized} - {[]})
  {
    hide NameOf;
  }

  lemma NormalizedInSnoc(names: seq<EntityName>, name: EntityName)
    ensures NormalizedIn(names + [name]) == NormalizedIn(names) + {name.normalized}
    ensures Holds(names, name.normalized) <==> name.normalized in NormalizedIn(names)
  {
  }

  lemma WithNameKeeps(names: seq<EntityName>, name: EntityName)
    requires |names| <= MAX_ENTITIES_PER_MESSAGE && Distinct(names)
    ensures |WithName(names, name)| <= MAX_ENTITIES_PER_MESSAGE && Distinct(WithName(names, name))
    ensures |names| == MAX_ENTITIES_PER_MESSAGE ==> WithName(names, name) == names
    ensures |names| < MAX_ENTITIES_PER_MESSAGE ==>
              NormalizedIn(WithName(names, name)) == NormalizedIn(names) + ({name.normalized} - {[]})
  {
    hide NormalizedIn;
    NormalizedInSnoc(names, name);
  }

  lemma NoNames(lower: Text -> Text)
    ensures NormalizedIn([]) == NormalizedOf([], lower) && Distinct([])
  {
  }

  /** The names are distinct and are those of the first `k` tokens, all of them unless
      the twentieth name cuts off the rest. */
  lemma {:induction false} NamesAreFirstDistinct(tokens: seq<Text>, lower: Text -> Text) returns (k: nat)
    ensures var names := NamesFrom(tokens, lower);
      && |names| <= 20 && Distinct(names)
      && k <= |tokens| && NormalizedIn(names) == NormalizedOf(tokens[..k], lower)
      && (k == |tokens| || |names| == 20)
  {
    NoNames(lower);
    hide NameOf, NormalizedOf, NormalizedIn, Distinct, WithName;
    if tokens == [] {
      k := 0;
    } else {
      var m := |tokens| - 1;
      k := NamesAreFirstDistinct(tokens[..m], lower);
      assert tokens[..m][..k] == tokens[..k];
      var before, name := NamesFrom(tokens[..m], lower), NameOf(tokens[m], lower);
      WithNameKeeps(before, name);
      if |before| < MAX_ENTITIES_PER_MESSAGE {
        assert tokens[..m] + [tokens[m]] == tokens == tokens[..|tokens|];
        NormalizedOfSnoc(tokens[..m], tokens[m], lower);
        k := |tokens|;
      }
    }
  }

  /** Each name is written as a token of the text is, its words with single blanks between,
      and normalized from that; what follows in the text only adds names at the end. */
  lemma {:induction false} NamesAreWritten(tokens: seq<Text>, lower: Text -> Text, i: nat) returns (j: nat)
    requires i < |NamesFrom(tokens, lower)|
    ensures j < |tokens|
    ensures NamesFrom(tokens, lower)[i] == EntityName(Join(Words(tokens[j])), lower(Join(Words(tokens[j]))))
    ensures NamesFrom(tokens[..|tokens| - 1], lower) <= NamesFrom(tokens, lower)
  {
    var n := |tokens| - 1;
    if i < |NamesFrom(tokens[..n], lower)| {
      j := NamesAreWritten(tokens[..n], lower, i);
    } else {
      j := n;
      TokenAndAliasAgree(tokens[n], lower);
      CanonicalJoinsWords(tokens[n]);
    }
  }

  /** extractEntityNames: the loop over the tokens, cut off at the twentieth name. */
  method ExtractEntityNames(content: Text, lower: Text -> Text) returns (names: seq<EntityName>)
    ensures names == EntityNames(content, lower)
  {
    names := [];
    var tokens := EntityTokens(content, 0);
    var k := 0;
    assert tokens[..|tokens|] == tokens;
    while k < |tokens|
      invariant 0 <= k <= |tokens| && names == NamesFrom(tokens[..k], lower)
      invariant |names| < MAX_ENTITIES_PER_MESSAGE
    {
      var name := NameOf(tokens[k], lower);
      assert tokens[..k + 1][..k] == tokens[..k];
      k := k + 1;
      if name.normalized == [] || Holds(names, name.normalized) { continue; }
      names := names + [name];
      if |names| >= MAX_ENTITIES_PER_MESSAGE {
        FullStays(tokens, k, lower);
        break;
      }
    }
  }

  lemma {:induction false} FullStays(tokens: seq<Text>, k: nat, lower: Text -> Text)
    requires k <= |tokens| && |NamesFrom(tokens[..k], lower)| >= MAX_ENTITIES_PER_MESSAGE
    ensures NamesFrom(tokens, lower) == NamesFrom(tokens[..k], lower)
  {
    if k < |tokens| {
      assert tokens[..|tokens| - 1][..k] == tokens[..k];
      FullStays(tokens[..|tokens| - 1], k, lower);
    } else {
      assert tokens[..k] == tokens;
    }
  }
}
