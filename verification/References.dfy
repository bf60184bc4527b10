/** What a message's text refers to: `[[Entity]]` tokens and `@mention` tokens,
    and the proof that a checkbox toggle changes neither. */
module References {
  import opened JsText
  import opened TaskScanner

  predicate IsBracket(u: Unit) { u == LBRACKET || u == RBRACKET }

  /** The end of the run of characters other than brackets that starts at `p`. */
  function NameEnd(s: Text, p: nat): (r: nat)
    requires p <= |s|
    ensures p <= r <= |s| && forall i :: p <= i < r ==> !IsBracket(s[i])
    decreases |s| - p
  {
    if p < |s| && !IsBracket(s[p]) then NameEnd(s, p + 1) else p
  }

  /** `\[\[([^\[\]]{1,255})\]\]` at `p`: the end of the name. */
  function EntityAt(s: Text, p: nat): (r: Option<nat>)
    requires p <= |s|
    ensures r.Some? ==> p + 2 < r.value && r.value + 2 <= |s|
  {
    if p + 2 <= |s| && s[p] == LBRACKET && s[p + 1] == LBRACKET then
      var r := NameEnd(s, p + 2);
      if 1 <= r - (p + 2) <= 255 && r + 2 <= |s| && s[r] == RBRACKET && s[r + 1] == RBRACKET then Some(r) else None
    else None
  }

  /** The expression `\[\[([^\[\]]{1,255})\]\]` matches at `p`, its group ending at `r`. */
  predicate IsEntityMatch(s: Text, p: nat, r: nat) {
    && p + 2 < r && r + 2 <= |s| && r - (p + 2) <= 255
    && s[p] == s[p + 1] == 0x5B && s[r] == s[r + 1] == 0x5D
    && forall i :: p + 2 <= i < r ==> s[i] != 0x5B && s[i] != 0x5D
  }

  lemma NameEndUnique(s: Text, p: nat, r: nat)
    requires p <= r < |s| && (forall i :: p <= i < r ==> !IsBracket(s[i])) && IsBracket(s[r])
    ensures NameEnd(s, p) == r
  {
    NameEndStops(s, p);
  }

  lemma NameEndStops(s: Text, p: nat)
    requires p <= |s|
    ensures NameEnd(s, p) < |s| ==> IsBracket(s[NameEnd(s, p)])
    decreases |s| - p
  {
  }

  /** The scanner finds the match at a position, and there is only one. */
  lemma EntityAtExact(s: Text, p: nat, r: nat)
    requires p <= |s|
    ensures IsEntityMatch(s, p, r) <==> EntityAt(s, p) == Some(r)
  {
    if IsEntityMatch(s, p, r) { NameEndUnique(s, p + 2, r); }
  }

  /** The names of all entity tokens from position `p` on. */
  function EntityTokens(s: Text, p: nat): seq<Text>
    requires p <= |s|
    decreases |s| - p
  {
    if p == |s| then []
    else if EntityAt(s, p).Some? then [s[p + 2..EntityAt(s, p).value]] + EntityTokens(s, EntityAt(s, p).value + 2)
    else EntityTokens(s, p + 1)
  }

  /** `@([a-zA-Z0-9_.-]{3,50})` at `p`: the end of the name. */
  function MentionAt(s: Text, p: nat): (r: Option<nat>)
    requires p <= |s|
    ensures r.Some? ==> p + 4 <= r.value <= |s|
  {
    if p < |s| && s[p] == AT then
      var r := UserEnd(s, p + 1);
      if r - (p + 1) < 3 then None else if r - (p + 1) > 50 then Some(p + 51) else Some(r)
    else None
  }

  /** `@([a-zA-Z0-9_.-]{3,50})` can match at `p` with its group ending at `r`. */
  predicate IsMentionMatch(s: Text, p: nat, r: nat) {
    p < |s| && s[p] == 0x40 && r <= |s| && 3 <= r - (p + 1) <= 50 && forall i :: p < i < r ==> IsUserUnit(s[i])
  }

  /** The scanner takes the longest match, as a greedy quantifier does. */
  lemma MentionAtLongest(s: Text, p: nat, r: nat)
    requires p <= |s|
    ensures MentionAt(s, p) == Some(r) <==> IsMentionMatch(s, p, r) && !IsMentionMatch(s, p, r + 1)
    ensures IsMentionMatch(s, p, r) ==> MentionAt(s, p).Some? && r <= MentionAt(s, p).value
  {
  }

  function MentionTokens(s: Text, p: nat): seq<Text>
    requires p <= |s|
    decreases |s| - p
  {
    if p == |s| then []
    else if MentionAt(s, p).Some? then [s[p + 1..MentionAt(s, p).value]] + MentionTokens(s, MentionAt(s, p).value)
    else MentionTokens(s, p + 1)
  }

  // -------------------------------------------------------- every match, in order

  /** The names at all positions from `p` on at which the expression can match. */
  function MentionsFrom(s: Text, p: nat): seq<Text>
    requires p <= |s|
    decreases |s| - p
  {
    (if MentionAt(s, p).Some? then [s[p + 1..MentionAt(s, p).value]] else []) + if p < |s| then MentionsFrom(s, p + 1) else []
  }

  function EntitiesFrom(s: Text, p: nat): seq<Text>
    requires p <= |s|
    decreases |s| - p
  {
    (if EntityAt(s, p).Some? then [s[p + 2..EntityAt(s, p).value]] else []) + if p < |s| then EntitiesFrom(s, p + 1) else []
  }

  /** The scan that goes on after each match finds all of them, in the order of the text:
      none is missed, and none hides another. */
  lemma {:induction false} NoMentionMissed(s: Text, p: nat)
    requires p <= |s|
    ensures MentionTokens(s, p) == MentionsFrom(s, p)
    decreases |s| - p
  {
    hide MentionAt;
    assert MentionAt(s, |s|).None? by { NothingAtEnd(s); }
    if p == |s| {
    } else if MentionAt(s, p).Some? {
      var end := MentionAt(s, p).value;
      NoMentionMissed(s, end);
      NoMentionInside(s, p);
      SkipMentions(s, p + 1, end);
    } else {
      NoMentionMissed(s, p + 1);
    }
  }

  lemma NothingAtEnd(s: Text)
    ensures MentionAt(s, |s|).None? && EntityAt(s, |s|).None?
  {
  }

  lemma {:induction false} SkipMentions(s: Text, p: nat, q: nat)
    requires p <= q <= |s| && forall k :: p <= k < q ==> MentionAt(s, k).None?
    ensures MentionsFrom(s, p) == MentionsFrom(s, q)
    decreases q - p
  {
    hide MentionAt;
    if p == q {
    } else {
      SkipMentions(s, p + 1, q);
    }
  }

  lemma NoMentionInside(s: Text, p: nat)
    requires p <= |s| && MentionAt(s, p).Some?
    ensures forall q :: p < q < MentionAt(s, p).value ==> MentionAt(s, q).None?
  {
    forall q | p < q < MentionAt(s, p).value ensures MentionAt(s, q).None? {
      assert IsUserUnit(s[q]);
      assert !IsUserUnit(AT);
    }
  }

  lemma {:induction false} NoEntityMissed(s: Text, p: nat)
    requires p <= |s|
    ensures EntityTokens(s, p) == EntitiesFrom(s, p)
    decreases |s| - p
  {
    hide EntityAt;
    assert EntityAt(s, |s|).None? by { NothingAtEnd(s); }
    if p == |s| {
    } else if EntityAt(s, p).Some? {
      var end := EntityAt(s, p).value + 2;
      NoEntityMissed(s, end);
      NoEntityInside(s, p);
      SkipEntities(s, p + 1, end);
    } else {
      NoEntityMissed(s, p + 1);
    }
  }

  lemma {:induction false} SkipEntities(s: Text, p: nat, q: nat)
    requires p <= q <= |s| && forall k :: p <= k < q ==> EntityAt(s, k).None?
    ensures EntitiesFrom(s, p) == EntitiesFrom(s, q)
    decreases q - p
  {
    hide EntityAt;
    if p == q {
    } else {
      SkipEntities(s, p + 1, q);
    }
  }

  lemma NoEntityInside(s: Text, p: nat)
    requires p <= |s| && EntityAt(s, p).Some?
    ensures forall q :: p < q < EntityAt(s, p).value + 2 ==> EntityAt(s, q).None?
  {
    var r := EntityAt(s, p).value;
    EntityAtExact(s, p, r);
    assert !IsBracket(s[p + 2]) && s[r] == RBRACKET && s[r + 1] == RBRACKET;
    forall q | p < q < r + 2 ensures EntityAt(s, q).None? {
      assert p + 2 <= q < r ==> !IsBracket(s[q]);
    }
  }

  // ------------------------------------------------ what a toggle leaves alone

  lemma {:induction false} NameEndSame(s: Text, b: nat, checked: bool, p: nat)
    requires OpensTask(s, b) && p <= |s|
    ensures NameEnd(WithMark(s, b, checked), p) == NameEnd(s, p)
    decreases |s| - p
  {
    if p < |s| && !IsBracket(s[p]) { NameEndSame(s, b, checked, p + 1); }
  }

  /** The mark stands alone between single brackets, so no entity name holds it. */
  lemma EntitySame(s: Text, b: nat, checked: bool, p: nat)
    requires OpensTask(s, b) && p <= |s|
    ensures EntityAt(WithMark(s, b, checked), p) == EntityAt(s, p)
    ensures EntityAt(s, p).Some? ==> var r := EntityAt(s, p).value;
      WithMark(s, b, checked)[p + 2..r] == s[p + 2..r]
  {
    var t := WithMark(s, b, checked);
    if p + 2 <= |s| && s[p] == LBRACKET && s[p + 1] == LBRACKET {
      NameEndSame(s, b, checked, p + 2);
      var r := NameEnd(s, p + 2);
      assert IsBracket(s[b + 2]);
      assert t[p + 2..r] == s[p + 2..r];
    }
  }

  lemma {:induction false} EntityTokensSame(s: Text, b: nat, checked: bool, p: nat)
    requires OpensTask(s, b) && p <= |s|
    ensures EntityTokens(WithMark(s, b, checked), p) == EntityTokens(s, p)
    decreases |s| - p
  {
    hide EntityAt, OpensTask, WithMark;
    assert |WithMark(s, b, checked)| == |s| by { MarkKeepsLength(s, b, checked); }
    if p < |s| {
      EntitySame(s, b, checked, p);
      EntityTokensSame(s, b, checked, if EntityAt(s, p).Some? then EntityAt(s, p).value + 2 else p + 1);
    }
  }

  lemma MarkKeepsLength(s: Text, b: nat, checked: bool)
    requires OpensTask(s, b)
    ensures |WithMark(s, b, checked)| == |s|
  {
  }

  lemma {:induction false} UserEndSame(s: Text, b: nat, checked: bool, p: nat)
    requires OpensTask(s, b) && p <= |s| && p != b + 3
    ensures UserEnd(WithMark(s, b, checked), p) == UserEnd(s, p)
    ensures !(p <= b + 3 < UserEnd(s, p))
    decreases |s| - p
  {
    if p < |s| && IsUserUnit(s[p]) { UserEndSame(s, b, checked, p + 1); }
  }

  /** The mark follows a bracket, so no mention holds it. */
  lemma MentionSame(s: Text, b: nat, checked: bool, p: nat)
    requires OpensTask(s, b) && p <= |s|
    ensures MentionAt(WithMark(s, b, checked), p) == MentionAt(s, p)
    ensures MentionAt(s, p).Some? ==> var r := MentionAt(s, p).value;
      WithMark(s, b, checked)[p + 1..r] == s[p + 1..r]
  {
    if p < |s| && s[p] == AT {
      UserEndSame(s, b, checked, p + 1);
      var r := UserEnd(s, p + 1);
      assert WithMark(s, b, checked)[p + 1..r] == s[p + 1..r];
      if r > p + 51 { assert WithMark(s, b, checked)[p + 1..p + 51] == s[p + 1..p + 51]; }
    }
  }

  lemma {:induction false} MentionTokensSame(s: Text, b: nat, checked: bool, p: nat)
    requires OpensTask(s, b) && p <= |s|
    ensures MentionTokens(WithMark(s, b, checked), p) == MentionTokens(s, p)
    decreases |s| - p
  {
    hide MentionAt, OpensTask, WithMark;
    assert |WithMark(s, b, checked)| == |s| by { MarkKeepsLength(s, b, checked); }
    if p < |s| {
      MentionSame(s, b, checked, p);
      MentionTokensSame(s, b, checked, if MentionAt(s, p).Some? then MentionAt(s, p).value else p + 1);
    }
  }

  /** The two texts refer to the same entities and mention the same names. */
  predicate SameReferences(s: Text, t: Text) {
    EntityTokens(s, 0) == EntityTokens(t, 0) && MentionTokens(s, 0) == MentionTokens(t, 0)
  }

  /** A toggle, whatever the alias, never changes what a message refers to. */
  lemma ToggleKeepsReferences(s: Text, index: int, checked: bool, alias: Text)
    requires Toggled(s, index, checked, alias).Some?
    ensures SameReferences(s, Toggled(s, index, checked, alias).value)
  {
    var m := Matches(s, 0, alias)[index];
    assert IsMatch(s, m, alias);
    EntityTokensSame(s, m.start, checked, 0);
    MentionTokensSame(s, m.start, checked, 0);
  }
}
