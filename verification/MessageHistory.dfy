/** A sent message under checkbox toggles and edits, and what its append-only
    revision history is worth after any run of them. */
module MessageHistory {
  import opened JsText
  import opened TaskScanner
  import opened TaskToggle
  import opened References

  type Id = nat

  const MAX_MESSAGE_LENGTH := 10000
  const MAX_TASK_INDEX := 1666  // MAX_MESSAGE_LENGTH / 6, rounded down

  datatype Outcome = Done | NotFound | Forbidden | Invalid

  /** A row of `messages` and the rows of `message_edits` that belong to it. */
  datatype Message = Message(channelId: Id, userId: Id, createdAt: int, content: Text, history: seq<Text>)

  /** What the two PATCH routes are asked, once the channel check has passed. */
  datatype Request =
    | ToggleTask(channelId: Id, index: int, checked: bool)
    | Edit(channelId: Id, callerId: Id, content: Text, now: int)

  /** The deployment's owner-token alias and edit window. */
  datatype Settings = Settings(alias: Text, editWindowMs: int)

  predicate IsContent(t: Text) { 0 < |t| <= MAX_MESSAGE_LENGTH }

  function Answer(m: Message, r: Request, c: Settings): Outcome {
    match r
    case ToggleTask(channelId, index, checked) =>
      if !(0 <= index <= MAX_TASK_INDEX) then Invalid
      else if m.channelId != channelId || Toggled(m.content, index, checked, c.alias).None? then NotFound
      else Done
    case Edit(channelId, callerId, content, now) =>
      if !IsContent(content) then Invalid
      else if m.channelId != channelId then NotFound
      else if m.userId != callerId then Forbidden
      else if now - m.createdAt > c.editWindowMs then Invalid
      else Done
  }

  /** The rows after the request: an edit first files the text it replaces. */
  function Apply(m: Message, r: Request, c: Settings): Message {
    if Answer(m, r, c) != Done then m else
    match r
    case ToggleTask(_, index, checked) => m.(content := Toggled(m.content, index, checked, c.alias).value)
    case Edit(_, _, content, _) => m.(content := content, history := m.history + [m.content])
  }

  class StoredMessage {
    const channelId: Id
    const userId: Id
    const createdAt: int
    var content: Text
    var history: seq<Text>

    function Row(): Message
      reads this
    {
      Message(channelId, userId, createdAt, content, history)
    }

    constructor (channelId: Id, userId: Id, createdAt: int, content: Text)
      ensures Row() == Message(channelId, userId, createdAt, content, [])
    {
      this.channelId := channelId;
      this.userId := userId;
      this.createdAt := createdAt;
      this.content := content;
      history := [];
    }

    method PatchTask(pathChannelId: Id, index: int, checked: bool, settings: Settings) returns (outcome: Outcome)
      modifies this
      ensures outcome == Answer(old(Row()), ToggleTask(pathChannelId, index, checked), settings)
      ensures Row() == Apply(old(Row()), ToggleTask(pathChannelId, index, checked), settings)
    {
      hide Toggled;
      if !(0 <= index <= MAX_TASK_INDEX) { return Invalid; }
      if channelId != pathChannelId { return NotFound; }
      var newContent := SetTaskChecked(content, index, checked, settings.alias);
      if newContent.None? { return NotFound; }
      content := newContent.value;
      return Done;
    }

    method PatchContent(pathChannelId: Id, callerId: Id, newContent: Text, now: int, settings: Settings) returns (outcome: Outcome)
      modifies this
      ensures outcome == Answer(old(Row()), Edit(pathChannelId, callerId, newContent, now), settings)
      ensures Row() == Apply(old(Row()), Edit(pathChannelId, callerId, newContent, now), settings)
    {
      if |newContent| == 0 || |newContent| > MAX_MESSAGE_LENGTH { return Invalid; }
      if channelId != pathChannelId { return NotFound; }
      if userId != callerId { return Forbidden; }
      if now - createdAt > settings.editWindowMs { return Invalid; }
      history := history + [content];
      content := newContent;
      return Done;
    }
  }

  /** An edit succeeds for its author, in its channel, within the window, with a text of 1 to
      10000 units, and for nobody else; the text then is the given one, and the one before is
      the last row of the history. */
  lemma EditExactly(m: Message, channelId: Id, callerId: Id, content: Text, now: int, c: Settings)
    ensures var r := Edit(channelId, callerId, content, now);
      && (Answer(m, r, c) == Done <==>
            channelId == m.channelId && callerId == m.userId && 1 <= |content| <= 10000 && now - m.createdAt <= c.editWindowMs)
      && (if Answer(m, r, c) == Done
          then Apply(m, r, c) == Message(m.channelId, m.userId, m.createdAt, content, m.history + [m.content])
          else Apply(m, r, c) == m)
      && (Answer(m, r, c) == NotFound <==> 1 <= |content| <= 10000 && channelId != m.channelId)
      && (Answer(m, r, c) == Forbidden <==> 1 <= |content| <= 10000 && channelId == m.channelId && callerId != m.userId)
  {
  }

  /** A toggle succeeds, for anybody in the channel, exactly when the index is that of an entry
      of the parsed list and at most 1666; then that entry has the mark asked for, and the
      history is as it was. */
  lemma ToggleExactly(m: Message, channelId: Id, index: int, checked: bool, c: Settings)
    requires OneLine(c.alias)
    ensures var r := ToggleTask(channelId, index, checked);
      && (Answer(m, r, c) == Done <==> channelId == m.channelId && 0 <= index <= 1666 && index < |Tasks(m.content, c.alias)|)
      && (if Answer(m, r, c) == Done
          then
            && Apply(m, r, c) == Message(m.channelId, m.userId, m.createdAt, Apply(m, r, c).content, m.history)
            && Tasks(Apply(m, r, c).content, c.alias)
               == Tasks(m.content, c.alias)[index := Tasks(m.content, c.alias)[index].(checked := checked)]
          else Apply(m, r, c) == m)
      && (Answer(m, r, c) == Invalid <==> !(0 <= index <= 1666)) && Answer(m, r, c) != Forbidden
  {
    ToggledInRange(m.content, index, checked, c.alias);
    if 0 <= index < |Tasks(m.content, c.alias)| { ToggleRefinesParse(m.content, index, checked, c.alias); }
    hide Toggled, Tasks, Matches, OneLine;
  }

  // ------------------------------------------------------------ what is kept

  /** `i` is the mark of one of the matches. */
  predicate IsMarkPosition(ms: seq<Match>, i: int) {
    exists k :: 0 <= k < |ms| && ms[k].start + 3 == i
  }

  predicate SameTask(t: Task, u: Task) { t.(checked := u.checked) == u }

  /** The texts differ at most in the marks of their tasks: same length, same tasks
      with the same descriptions and owners, same references. */
  predicate SameButMarks(s: Text, t: Text, alias: Text) {
    && |s| == |t|
    && Matches(s, 0, alias) == Matches(t, 0, alias)
    && (forall i :: 0 <= i < |s| && s[i] != t[i] ==> IsMarkPosition(Matches(s, 0, alias), i) && IsMark(s[i]) && IsMark(t[i]))
    && |Tasks(s, alias)| == |Tasks(t, alias)|
    && (forall k :: 0 <= k < |Tasks(s, alias)| ==> SameTask(Tasks(s, alias)[k], Tasks(t, alias)[k]))
    && SameReferences(s, t)
  }

  lemma SameButMarksReflexive(s: Text, alias: Text)
    ensures SameButMarks(s, s, alias)
  {
    hide Tasks, Matches, EntityTokens, MentionTokens;
  }

  lemma SameButMarksTransitive(s: Text, t: Text, u: Text, alias: Text)
    requires SameButMarks(s, t, alias) && SameButMarks(t, u, alias)
    ensures SameButMarks(s, u, alias)
  {
    hide Tasks, Matches, EntityTokens, MentionTokens, IsMarkPosition, IsMark;
    forall k | 0 <= k < |Tasks(s, alias)|
      ensures SameTask(Tasks(s, alias)[k], Tasks(u, alias)[k])
    {
      assert SameTask(Tasks(s, alias)[k], Tasks(t, alias)[k]) && SameTask(Tasks(t, alias)[k], Tasks(u, alias)[k]);
    }
  }

  lemma ToggleKeepsTasks(s: Text, index: int, checked: bool, alias: Text)
    requires OneLine(alias) && 0 <= index < |Tasks(s, alias)|
    ensures Toggled(s, index, checked, alias).Some?
    ensures var old_, new_ := Tasks(s, alias), Tasks(Toggled(s, index, checked, alias).value, alias);
      |old_| == |new_| && forall k :: 0 <= k < |old_| ==> SameTask(old_[k], new_[k])
  {
    ToggleRefinesParse(s, index, checked, alias);
    hide Tasks, Toggled, OneLine;
  }

  lemma ToggleChangesMark(s: Text, index: int, checked: bool, alias: Text)
    requires OneLine(alias) && 0 <= index < |Matches(s, 0, alias)|
    ensures var t := Toggled(s, index, checked, alias).value;
      && |s| == |t| && Matches(s, 0, alias) == Matches(t, 0, alias)
      && forall i :: 0 <= i < |s| && s[i] != t[i] ==> IsMarkPosition(Matches(s, 0, alias), i) && IsMark(s[i]) && IsMark(t[i])
  {
    hide Matches, OneLine, OpensTask, Toggled, WithMark, IsMark;
    var b := MatchStart(s, alias, index, checked);
    assert IsMarkPosition(Matches(s, 0, alias), b + 3);
    MarkDiffers(s, b, checked);
  }

  lemma MarkDiffers(s: Text, b: nat, checked: bool)
    requires OpensTask(s, b)
    ensures var t := WithMark(s, b, checked);
      |s| == |t| && forall i :: 0 <= i < |s| && s[i] != t[i] ==> i == b + 3 && IsMark(s[i]) && IsMark(t[i])
  {
  }

  lemma ToggleSameButMarks(s: Text, index: int, checked: bool, alias: Text)
    requires OneLine(alias) && Toggled(s, index, checked, alias).Some?
    ensures SameButMarks(s, Toggled(s, index, checked, alias).value, alias)
  {
    ToggledInRange(s, index, checked, alias);
    ToggleKeepsTasks(s, index, checked, alias);
    ToggleChangesMark(s, index, checked, alias);
    ToggleKeepsReferences(s, index, checked, alias);
    hide Matches, Tasks, Toggled, OneLine, IsMarkPosition, SameReferences, IsMark, SameTask;
  }

  lemma ToggledInRange(s: Text, index: int, checked: bool, alias: Text)
    ensures |Tasks(s, alias)| == |Matches(s, 0, alias)|
    ensures Toggled(s, index, checked, alias).Some? <==> 0 <= index < |Tasks(s, alias)|
  {
    hide Matches, Tasks;
    TaskPerMatch(s, alias);
  }

  // -------------------------------------------------------------------- runs

  function After(m: Message, rs: seq<Request>, c: Settings): Message {
    if rs == [] then m else Apply(After(m, rs[..|rs| - 1], c), rs[|rs| - 1], c)
  }

  /** The texts that people wrote: the original and that of every successful edit. */
  function Written(m: Message, rs: seq<Request>, c: Settings): (ts: seq<Text>)
    ensures ts != []
  {
    if rs == [] then [m.content] else
    var before, r := Written(m, rs[..|rs| - 1], c), rs[|rs| - 1];
    if r.Edit? && Answer(After(m, rs[..|rs| - 1], c), r, c) == Done then before + [r.content] else before
  }

  /** History rows number exactly the successful edits; row `k` is the text number
      `k` that was written, and the message shows the last one, up to task marks. */
  lemma {:induction false} HistoryLosesNothing(m: Message, rs: seq<Request>, c: Settings)
    requires m.history == [] && OneLine(c.alias)
    ensures var now, texts := After(m, rs, c), Written(m, rs, c);
      && |now.history| == |texts| - 1
      && (forall k :: 0 <= k < |now.history| ==> SameButMarks(texts[k], now.history[k], c.alias))
      && SameButMarks(texts[|texts| - 1], now.content, c.alias)
  {
    hide SameButMarks, OneLine, Toggled;
    if rs == [] {
      SameButMarksReflexive(m.content, c.alias);
    } else {
      var before, r := After(m, rs[..|rs| - 1], c), rs[|rs| - 1];
      HistoryLosesNothing(m, rs[..|rs| - 1], c);
      var texts := Written(m, rs[..|rs| - 1], c);
      if r.Edit? {
        SameButMarksReflexive(r.content, c.alias);
      } else if Answer(before, r, c) == Done {
        ToggleSameButMarks(before.content, r.index, r.checked, c.alias);
        SameButMarksTransitive(texts[|texts| - 1], before.content, Apply(before, r, c).content, c.alias);
      }
    }
  }

  /** Every text after the original was written by the author, within the window counted
      from sending, however often the message was edited before. */
  lemma {:induction false} WrittenByAuthor(m: Message, rs: seq<Request>, c: Settings, k: nat) returns (j: nat)
    requires 1 <= k < |Written(m, rs, c)|
    ensures j < |rs| && rs[j].Edit? && rs[j].content == Written(m, rs, c)[k]
    ensures rs[j].callerId == m.userId && rs[j].channelId == m.channelId && rs[j].now - m.createdAt <= c.editWindowMs
  {
    hide Toggled;
    var n := |rs| - 1;
    OriginStays(m, rs[..n], c);
    if k < |Written(m, rs[..n], c)| {
      j := WrittenByAuthor(m, rs[..n], c, k);
    } else {
      j := n;
    }
  }

  lemma {:induction false} OriginStays(m: Message, rs: seq<Request>, c: Settings)
    ensures var now := After(m, rs, c);
      now.userId == m.userId && now.channelId == m.channelId && now.createdAt == m.createdAt
  {
    hide Toggled;
    if rs == [] {
    } else {
      OriginStays(m, rs[..|rs| - 1], c);
    }
  }

  /** No request rewrites or drops a history row, and the length limits survive. */
  lemma {:induction false} HistoryOnlyGrows(m: Message, rs: seq<Request>, c: Settings)
    requires IsContent(m.content)
    ensures m.history <= After(m, rs, c).history
    ensures IsContent(After(m, rs, c).content)
  {
    if rs == [] {
    } else {
      hide Matches;
      var before, r := After(m, rs[..|rs| - 1], c), rs[|rs| - 1];
      HistoryOnlyGrows(m, rs[..|rs| - 1], c);
      if r.ToggleTask? && Answer(before, r, c) == Done {
        ToggleIsLocal(before.content, r.index, r.checked, c.alias);
      }
    }
  }

  lemma {:induction false} MatchesNeedSix(s: Text, from: nat, alias: Text)
    requires from <= |s|
    ensures 6 * |Matches(s, from, alias)| <= |s| - from
    decreases |s| - from
  {
    hide MatchAt, OpensTask;
    var ms := Matches(s, from, alias);
    if ms == [] {
    } else {
      assert ms[1..] == Matches(s, ms[0].end, alias);
      MatchesNeedSix(s, ms[0].end, alias);
    }
  }

  /** The route's bound on the index turns none of the message's tasks away. */
  lemma EveryTaskReachable(m: Message, channelId: Id, index: int, checked: bool, c: Settings)
    requires IsContent(m.content) && m.channelId == channelId
    ensures Answer(m, ToggleTask(channelId, index, checked), c) == Done <==> 0 <= index < |Tasks(m.content, c.alias)|
  {
    hide Matches;
    MatchesNeedSix(m.content, 0, c.alias);
  }
}
