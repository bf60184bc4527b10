/** Mention notifications: whom a text mentions, the insert that returns only new rows,
    and the frames that are pushed for those rows, over whole runs of re-run jobs. */
module Mentions {
  import opened JsText
  import opened TaskScanner
  import opened References

  type Id = nat

  const MAX_MENTIONS_PER_MESSAGE := 20

  datatype Message = Message(channelId: Id, userId: Id, content: Text)

  /** The channel's members with their usernames. */
  type Members = map<Id, Text>

  // -------------------------------------------------------------- who is meant

  /** A Set filled in a loop, read back in insertion order. */
  function DistinctTokens(tokens: seq<Text>): seq<Text> {
    if tokens == [] then [] else
    var before, last := DistinctTokens(tokens[..|tokens| - 1]), tokens[|tokens| - 1];
    if last in before then before else before + [last]
  }

  function FirstNames(content: Text): seq<Text> {
    var names := DistinctTokens(MentionTokens(content, 0));
    if |names| <= MAX_MENTIONS_PER_MESSAGE then names else names[..MAX_MENTIONS_PER_MESSAGE]
  }

  function Mentioned(message: Message, members: Members): set<Id> {
    set u | u in members && u != message.userId && members[u] in FirstNames(message.content)
  }

  function TokenSet(tokens: seq<Text>): (r: set<Text>)
    ensures forall t :: t in r <==> t in tokens
  {
    set t | t in tokens
  }

  lemma {:induction false} DistinctTokensComplete(tokens: seq<Text>)
    ensures TokenSet(DistinctTokens(tokens)) == TokenSet(tokens)
    ensures forall i, j :: 0 <= i < j < |DistinctTokens(tokens)| ==> DistinctTokens(tokens)[i] != DistinctTokens(tokens)[j]
  {
    if tokens == [] {
    } else {
      var k := |tokens| - 1;
      DistinctTokensComplete(tokens[..k]);
      assert tokens == tokens[..k] + [tokens[k]];
      var before := DistinctTokens(tokens[..k]);
      assert TokenSet(tokens) == TokenSet(tokens[..k]) + {tokens[k]};
      assert TokenSet(before + [tokens[k]]) == TokenSet(before) + {tokens[k]};
    }
  }

  /** A member other than the author whose name is one of the text's tokens. */
  predicate IsMentioned(message: Message, members: Members, u: Id) {
    u in members && u != message.userId && members[u] in MentionTokens(message.content, 0)
  }

  lemma {:induction false} DistinctCount(names: seq<Text>)
    requires forall i, j :: 0 <= i < j < |names| ==> names[i] != names[j]
    ensures |TokenSet(names)| == |names|
  {
    if names == [] {
    } else {
      var k := |names| - 1;
      DistinctCount(names[..k]);
      assert TokenSet(names) == TokenSet(names[..k]) + {names[k]};
    }
  }

  /** Short of the cap, exactly those. */
  lemma MentionedExactly(message: Message, members: Members, u: Id)
    requires |TokenSet(MentionTokens(message.content, 0))| <= 20
    ensures u in Mentioned(message, members) <==> IsMentioned(message, members, u)
  {
    var tokens := MentionTokens(message.content, 0);
    DistinctTokensComplete(tokens);
    DistinctCount(DistinctTokens(tokens));
    hide DistinctTokens, MentionTokens;
    assert u in members ==> (members[u] in TokenSet(tokens) <==> members[u] in TokenSet(DistinctTokens(tokens)));
  }

  lemma MentionedUnderCap(message: Message, members: Members)
    ensures |TokenSet(MentionTokens(message.content, 0))| <= 20 ==>
              forall u :: u in Mentioned(message, members) <==> IsMentioned(message, members, u)
  {
    hide Mentioned, MentionTokens;
    if |TokenSet(MentionTokens(message.content, 0))| <= 20 {
      forall u ensures u in Mentioned(message, members) <==> IsMentioned(message, members, u) {
        MentionedExactly(message, members, u);
      }
    }
  }

  lemma {:induction false} FirstTwenty(tokens: seq<Text>) returns (k: nat)
    requires |DistinctTokens(tokens)| > MAX_MENTIONS_PER_MESSAGE
    ensures k <= |tokens| && DistinctTokens(tokens[..k]) == DistinctTokens(tokens)[..MAX_MENTIONS_PER_MESSAGE]
  {
    var n := |tokens| - 1;
    var before := DistinctTokens(tokens[..n]);
    if |before| > MAX_MENTIONS_PER_MESSAGE {
      k := FirstTwenty(tokens[..n]);
      assert tokens[..n][..k] == tokens[..k];
    } else {
      k := n;
      assert before == DistinctTokens(tokens)[..MAX_MENTIONS_PER_MESSAGE];
    }
  }

  /** Beyond the cap, those whose names are among the first tokens, as many as hold twenty
      different names. */
  lemma MentionedBeyondCap(message: Message, members: Members) returns (k: nat)
    requires |TokenSet(MentionTokens(message.content, 0))| > 20
    ensures var tokens := MentionTokens(message.content, 0);
      && k <= |tokens| && |TokenSet(tokens[..k])| == 20
      && forall u :: u in Mentioned(message, members) <==> u in members && u != message.userId && members[u] in tokens[..k]
  {
    var tokens := MentionTokens(message.content, 0);
    DistinctTokensComplete(tokens);
    DistinctCount(DistinctTokens(tokens));
    k := FirstTwenty(tokens);
    DistinctTokensComplete(tokens[..k]);
    DistinctCount(DistinctTokens(tokens[..k]));
    hide DistinctTokens, MentionTokens;
    assert forall t :: t in TokenSet(DistinctTokens(tokens[..k])) <==> t in TokenSet(tokens[..k]);
  }

  /** A toggle leaves the people mentioned as they were. */
  lemma ToggleMentionsSame(message: Message, members: Members, index: int, checked: bool, alias: Text)
    requires Toggled(message.content, index, checked, alias).Some?
    ensures Mentioned(message.(content := Toggled(message.content, index, checked, alias).value), members) == Mentioned(message, members)
  {
    ToggleKeepsReferences(message.content, index, checked, alias);
    hide Toggled, DistinctTokens;
  }

  method ExtractMentionedUserIds(message: Message, members: Members) returns (ids: set<Id>)
    ensures ids == Mentioned(message, members)
  {
    var seen: seq<Text> := [];
    var tokens := MentionTokens(message.content, 0);
    assert tokens[..|tokens|] == tokens;
    for i := 0 to |tokens|
      invariant seen == DistinctTokens(tokens[..i])
    {
      assert tokens[..i + 1][..i] == tokens[..i];
      if tokens[i] !in seen { seen := seen + [tokens[i]]; }
    }
    if |seen| == 0 { return {}; }
    var usernames := if |seen| <= MAX_MENTIONS_PER_MESSAGE then seen else seen[..MAX_MENTIONS_PER_MESSAGE];
    ids := set u | u in members && members[u] in usernames;
    ids := set u | u in ids && u != message.userId;
  }

  // ------------------------------------------------------------------- one job

  function RowsFor(m: Id, recipients: set<Id>): set<(Id, Id)> { set u | u in recipients :: (u, m) }

  /** The rows of mention_notifications (unique per recipient and message) and the
      `mention` frames handed to the sockets so far. */
  class NotificationStore {
    var rows: set<(Id, Id)>
    var frames: multiset<(Id, Id)>

    constructor ()
      ensures rows == {} && frames == multiset{}
    {
      rows := {};
      frames := multiset{};
    }

    /** INSERT ... ON CONFLICT DO NOTHING RETURNING. */
    method CreateMentionNotifications(m: Id, recipients: set<Id>) returns (inserted: set<(Id, Id)>)
      modifies this`rows
      ensures inserted == RowsFor(m, recipients) - old(rows)
      ensures rows == old(rows) + inserted
      ensures forall u: Id, k: Id :: (u, k) in rows <==> (u, k) in old(rows) || (k == m && u in recipients)
      ensures forall u: Id, k: Id :: (u, k) in inserted <==> (u, k) in rows && (u, k) !in old(rows)
    {
      if recipients == {} { return {}; }
      inserted := RowsFor(m, recipients) - rows;
      rows := rows + inserted;
    }

    /** A job that meets no failure: up to the cap, a row for each member other than the
        author whose name is a token, and a frame for each row that is new. */
    method ProcessNotificationJob(m: Id, message: Message, members: Members)
      modifies this
      ensures rows == old(rows) + RowsFor(m, Mentioned(message, members))
      ensures frames == old(frames) + multiset(RowsFor(m, Mentioned(message, members)) - old(rows))
      ensures |TokenSet(MentionTokens(message.content, 0))| <= 20 ==>
                forall u: Id, k: Id :: (u, k) in rows <==> (u, k) in old(rows) || (k == m && IsMentioned(message, members, u))
      ensures forall u: Id, k: Id :: frames[(u, k)] == old(frames)[(u, k)] + if (u, k) in rows && (u, k) !in old(rows) then 1 else 0
    {
      MentionedUnderCap(message, members);
      RowsForExactly(m, Mentioned(message, members));
      hide Mentioned, RowsFor;
      var mentionedUserIds := ExtractMentionedUserIds(message, members);
      var inserted := CreateMentionNotifications(m, mentionedUserIds);
      var rest := inserted;
      while rest != {}
        invariant rest <= inserted && frames == old(frames) + multiset(inserted - rest)
        decreases |rest|
        modifies this`frames
      {
        var row :| row in rest;
        frames := frames + multiset{row};
        OneMore(inserted, rest, row);
        rest := rest - {row};
      }
      assert inserted - {} == inserted;
      OneEach(inserted);
    }
  }

  lemma RowsForExactly(m: Id, recipients: set<Id>)
    ensures forall u: Id, k: Id :: (u, k) in RowsFor(m, recipients) <==> k == m && u in recipients
  {
  }

  lemma OneEach(inserted: set<(Id, Id)>)
    ensures forall row :: multiset(inserted)[row] == if row in inserted then 1 else 0
  {
  }

  lemma OneMore(inserted: set<(Id, Id)>, rest: set<(Id, Id)>, row: (Id, Id))
    requires row in rest && rest <= inserted
    ensures multiset(inserted - (rest - {row})) == multiset(inserted - rest) + multiset{row}
  {
  }

  // ---------------------------------------------------------------- whole runs

  /** `runs` are the notification jobs under way, each with the rows it inserted and has
      not pushed yet. Claims, retries, re-enqueues and backfills decide which runs there
      are, and edits and memberships whom each has read as recipients, some time before its
      insert; nothing below depends on either. */
  datatype State = State(rows: set<(Id, Id)>, frames: multiset<(Id, Id)>, runs: map<nat, set<(Id, Id)>>)

  datatype Step =
    | Insert(run: nat, m: Id, recipients: set<Id>)
    | Push(run: nat, row: (Id, Id))
    | Abandon(run: nat)                       // a throw or a crash before the next push

  const EMPTY := State({}, multiset{}, map[])

  function Next(s: State, step: Step): State {
    match step
    case Insert(run, m, recipients) =>
      if run in s.runs then s
      else s.(rows := s.rows + RowsFor(m, recipients), runs := s.runs[run := RowsFor(m, recipients) - s.rows])
    case Push(run, row) =>
      if run !in s.runs || row !in s.runs[run] then s
      else s.(frames := s.frames + multiset{row}, runs := s.runs[run := s.runs[run] - {row}])
    case Abandon(run) => s.(runs := s.runs - {run})
  }

  /** What each step does, row by row. */
  lemma NextExactly(s: State, run: nat, m: Id, recipients: set<Id>, row: (Id, Id))
    ensures var t := Next(s, Insert(run, m, recipients));
      && t.frames == s.frames
      && (if run in s.runs then t == s
          else
            && (forall u: Id, k: Id :: (u, k) in t.rows <==> (u, k) in s.rows || (k == m && u in recipients))
            && (forall u: Id, k: Id :: IsDue(t, (u, k), run) <==> (u, k) in t.rows && (u, k) !in s.rows)
            && t.runs.Keys == s.runs.Keys + {run} && forall q :: q in s.runs ==> t.runs[q] == s.runs[q])
    ensures var t := Next(s, Push(run, row));
      && t.rows == s.rows
      && (if !IsDue(s, row, run) then t == s
          else
            && (forall q :: t.frames[q] == s.frames[q] + if q == row then 1 else 0)
            && (forall q, r :: IsDue(t, q, r) <==> IsDue(s, q, r) && !(q == row && r == run)))
    ensures var t := Next(s, Abandon(run));
      t.rows == s.rows && t.frames == s.frames && forall q, r :: IsDue(t, q, r) <==> IsDue(s, q, r) && r != run
  {
    RowsForExactly(m, recipients);
    hide RowsFor;
  }

  function Run(s: State, steps: seq<Step>): State {
    if steps == [] then s else Next(Run(s, steps[..|steps| - 1]), steps[|steps| - 1])
  }

  predicate IsDue(s: State, row: (Id, Id), run: nat) { run in s.runs && row in s.runs[run] }

  /** A row that is due is due in one run and has had no frame; no row has had two. */
  ghost predicate Fits(s: State, row: (Id, Id)) {
    && (s.frames[row] > 0 ==> row in s.rows) && s.frames[row] <= 1
    && (forall run :: IsDue(s, row, run) ==> row in s.rows && s.frames[row] == 0)
    && (forall p, q :: IsDue(s, row, p) && IsDue(s, row, q) ==> p == q)
  }

  lemma NextFits(s: State, step: Step, row: (Id, Id))
    requires Fits(s, row)
    ensures Fits(Next(s, step), row)
  {
    hide RowsFor;
    var s' := Next(s, step);
    match step
    case Insert(run, _, _) => assert forall p :: IsDue(s', row, p) && p != run ==> IsDue(s, row, p);
    case Push(run, pushed) =>
      assert forall p :: IsDue(s', row, p) ==> IsDue(s, row, p);
      assert pushed == row && s' != s ==> IsDue(s, row, run);
    case _ => assert forall p :: IsDue(s', row, p) ==> IsDue(s, row, p);
  }

  lemma {:induction false} RunFits(steps: seq<Step>, row: (Id, Id))
    ensures Fits(Run(EMPTY, steps), row)
  {
    if steps == [] {
    } else {
      RunFits(steps[..|steps| - 1], row);
      NextFits(Run(EMPTY, steps[..|steps| - 1]), steps[|steps| - 1], row);
    }
  }

  /** At most one frame per recipient and message, whatever is re-run how often. */
  lemma AtMostOneFrame(steps: seq<Step>, row: (Id, Id))
    ensures Run(EMPTY, steps).frames[row] <= 1
    ensures Run(EMPTY, steps).frames[row] == 1 ==> row in Run(EMPTY, steps).rows
  {
    RunFits(steps, row);
  }

  /** Run `run` is the one that inserts the row at this step. */
  predicate InsertsRow(s: State, step: Step, run: nat, row: (Id, Id)) {
    step.Insert? && step.run == run && row !in s.rows && row in Next(s, step).rows
  }

  ghost predicate Abandons(steps: seq<Step>, from: nat, to: nat, run: nat) {
    exists i :: from < i < to <= |steps| && steps[i] == Abandon(run)
  }

  lemma NewlyDue(s: State, step: Step, row: (Id, Id), run: nat)
    requires IsDue(Next(s, step), row, run)
    ensures if IsDue(s, row, run) then step != Abandon(run) else InsertsRow(s, step, run, row)
  {
    hide RowsFor;
  }

  /** What a run has yet to push it has inserted itself, and not been abandoned since. */
  lemma {:induction false} DueWasInserted(steps: seq<Step>, row: (Id, Id), run: nat) returns (j: nat)
    requires IsDue(Run(EMPTY, steps), row, run)
    ensures j < |steps| && InsertsRow(Run(EMPTY, steps[..j]), steps[j], run, row) && !Abandons(steps, j, |steps|, run)
  {
    hide InsertsRow, Next;
    var n := |steps| - 1;
    var before := Run(EMPTY, steps[..n]);
    NewlyDue(before, steps[n], row, run);
    j := n;
    if IsDue(before, row, run) {
      j := DueWasInserted(steps[..n], row, run);
      assert steps[..n][..j] == steps[..j];
      forall i | j < i < |steps| ensures steps[i] != Abandon(run) {
        if i < n { assert steps[..n][i] == steps[i]; }
      }
    }
  }

  /** Every frame was pushed by the run that inserted its row earlier, and that was not
      abandoned in between: a row found already there is never pushed for. */
  lemma {:induction false} FrameFollowsOwnInsert(steps: seq<Step>, row: (Id, Id)) returns (j: nat, k: nat, run: nat)
    requires Run(EMPTY, steps).frames[row] > 0
    ensures j < k < |steps| && steps[k] == Push(run, row) && IsDue(Run(EMPTY, steps[..k]), row, run)
    ensures InsertsRow(Run(EMPTY, steps[..j]), steps[j], run, row) && !Abandons(steps, j, k, run)
  {
    hide InsertsRow, RowsFor;
    var n := |steps| - 1;
    var before := Run(EMPTY, steps[..n]);
    if before.frames[row] > 0 {
      j, k, run := FrameFollowsOwnInsert(steps[..n], row);
      assert steps[..n][..j] == steps[..j] && steps[..n][..k] == steps[..k] && steps[..n][j] == steps[j];
      forall i | j < i < k ensures steps[i] != Abandon(run) { assert steps[..n][i] == steps[i]; }
    } else {
      k, run := n, steps[n].run;
      j := DueWasInserted(steps[..n], row, run);
      assert steps[..n][..j] == steps[..j] && steps[..n][j] == steps[j];
      forall i | j < i < k ensures steps[i] != Abandon(run) { assert steps[..n][i] == steps[i]; }
    }
  }

  /** Who was notified once, or whose run gave up before the push, is never pushed to
      again: a lost frame is not made up for. */
  lemma {:induction false} SettledForever(s: State, steps: seq<Step>, row: (Id, Id))
    requires row in s.rows && forall run :: !IsDue(s, row, run)
    ensures var s' := Run(s, steps);
      row in s'.rows && s'.frames[row] == s.frames[row] && forall run :: !IsDue(s', row, run)
  {
    if steps == [] {
    } else {
      SettledForever(s, steps[..|steps| - 1], row);
      SettledNext(Run(s, steps[..|steps| - 1]), steps[|steps| - 1], row);
    }
  }

  lemma SettledNext(s: State, step: Step, row: (Id, Id))
    requires row in s.rows && forall run :: !IsDue(s, row, run)
    ensures var s' := Next(s, step);
      row in s'.rows && s'.frames[row] == s.frames[row] && forall run :: !IsDue(s', row, run)
  {
    hide RowsFor;
    assert step.Push? ==> !IsDue(s, row, step.run);
    forall run ensures !IsDue(Next(s, step), row, run) { assert !IsDue(s, row, run); }
  }
}
