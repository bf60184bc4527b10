/** The per-user fixed-window counter for message sends, and the bound on any interval,
    aligned with the windows or not, that follows from it. */
module RateLimiter {
  type Id = nat

  datatype Window = Window(windowStart: int, count: nat)

  datatype Settings = Settings(messageWindowMs: nat, maxMessagesPerWindow: nat)

  predicate IsCurrent(windows: map<Id, Window>, u: Id, now: int, c: Settings) {
    u in windows && now - windows[u].windowStart <= c.messageWindowMs
  }

  predicate Limits(windows: map<Id, Window>, u: Id, now: int, c: Settings) {
    IsCurrent(windows, u, now, c) && windows[u].count >= c.maxMessagesPerWindow
  }

  function Counted(windows: map<Id, Window>, u: Id, now: int, c: Settings): map<Id, Window> {
    if !IsCurrent(windows, u, now, c) then windows[u := Window(now, 1)]
    else if Limits(windows, u, now, c) then windows
    else windows[u := windows[u].(count := windows[u].count + 1)]
  }

  class Limiter {
    const settings: Settings
    var windowByUser: map<Id, Window>

    constructor (settings: Settings)
      ensures windowByUser == map[] && this.settings == settings
    {
      this.settings := settings;
      windowByUser := map[];
    }

    method IsMessageRateLimited(u: Id, now: int) returns (limited: bool)
      modifies this`windowByUser
      ensures limited == Limits(old(windowByUser), u, now, settings)
      ensures windowByUser == Counted(old(windowByUser), u, now, settings)
    {
      if u !in windowByUser || now - windowByUser[u].windowStart > settings.messageWindowMs {
        windowByUser := windowByUser[u := Window(now, 1)];
        return false;
      }
      var entry := windowByUser[u];
      if entry.count >= settings.maxMessagesPerWindow { return true; }
      windowByUser := windowByUser[u := entry.(count := entry.count + 1)];
      return false;
    }
  }

  // -------------------------------------------------------------------- runs

  datatype Call = Call(user: Id, time: int)

  function Windows(calls: seq<Call>, c: Settings): map<Id, Window> {
    if calls == [] then map[] else
    var last := calls[|calls| - 1];
    Counted(Windows(calls[..|calls| - 1], c), last.user, last.time, c)
  }

  predicate InOrder(calls: seq<Call>) {
    forall i, j :: 0 <= i < j < |calls| ==> calls[i].time <= calls[j].time
  }

  /** Call number `k` goes through and falls into the closed window-long interval from `t`. */
  predicate Passes(calls: seq<Call>, k: int, u: Id, t: int, c: Settings)
    requires 0 <= k < |calls|
  {
    && calls[k].user == u && t <= calls[k].time <= t + c.messageWindowMs
    && !Limits(Windows(calls[..k], c), u, calls[k].time, c)
  }

  /** The sends of user `u` accepted between `t` and `t + messageWindowMs`, both included. */
  function AcceptedWithin(calls: seq<Call>, u: Id, t: int, c: Settings): nat {
    if calls == [] then 0 else
    AcceptedWithin(calls[..|calls| - 1], u, t, c) + if Passes(calls, |calls| - 1, u, t, c) then 1 else 0
  }

  /** What one window lets through: the first send of a window is never refused. */
  function Cap(c: Settings): nat { if c.maxMessagesPerWindow == 0 then 1 else c.maxMessagesPerWindow }

  /** The count so far, by where the user's current window begins relative to `t`. */
  predicate Bounded(windows: map<Id, Window>, accepted: nat, last: int, u: Id, t: int, c: Settings) {
    if u !in windows then accepted == 0 else
    var w, max := windows[u], Cap(c);
    && w.windowStart <= last && 1 <= w.count <= max
    && (w.windowStart + c.messageWindowMs < t ==> accepted == 0)
    && accepted <= (if w.windowStart < t then w.count - 1 else if w.windowStart == t then w.count
                    else if w.windowStart <= t + c.messageWindowMs then max - 1 + w.count else 2 * max - 1)
  }

  lemma CallBounded(windows: map<Id, Window>, accepted: nat, last: int, call: Call, u: Id, t: int, c: Settings)
    requires Bounded(windows, accepted, last, u, t, c) && last <= call.time
    ensures var hit := call.user == u && t <= call.time <= t + c.messageWindowMs && !Limits(windows, u, call.time, c);
      Bounded(Counted(windows, call.user, call.time, c), accepted + (if hit then 1 else 0), call.time, u, t, c)
  {
  }

  lemma {:induction false} RunBounded(calls: seq<Call>, u: Id, t: int, c: Settings, last: int)
    requires InOrder(calls) && (calls != [] ==> last == calls[|calls| - 1].time)
    ensures Bounded(Windows(calls, c), AcceptedWithin(calls, u, t, c), last, u, t, c)
  {
    if calls != [] {
      hide Bounded, Limits, Counted;
      var n := |calls| - 1;
      assert InOrder(calls[..n]);
      RunBounded(calls[..n], u, t, c, if n > 0 then calls[n - 1].time else last);
      CallBounded(Windows(calls[..n], c), AcceptedWithin(calls[..n], u, t, c), if n > 0 then calls[n - 1].time else last, calls[n], u, t, c);
    } else {
      NoneBounded(last, u, t, c);
    }
  }

  lemma NoneBounded(last: int, u: Id, t: int, c: Settings)
    ensures Bounded(map[], 0, last, u, t, c)
  {
  }

  /** In any closed interval as long as the window, wherever it starts, fewer than twice
      the maximum go through; and no counter exceeds the maximum. */
  lemma SlidingBound(calls: seq<Call>, u: Id, t: int, c: Settings)
    requires InOrder(calls)
    ensures AcceptedWithin(calls, u, t, c) <= 2 * Cap(c) - 1
    ensures u in Windows(calls, c) ==> 1 <= Windows(calls, c)[u].count <= Cap(c)
  {
    RunBounded(calls, u, t, c, if calls == [] then 0 else calls[|calls| - 1].time);
  }

  /** The sends of user `u` that went through from time `t` on. */
  function AcceptedSince(calls: seq<Call>, u: Id, t: int, c: Settings): nat {
    if calls == [] then 0 else
    var n := |calls| - 1;
    AcceptedSince(calls[..n], u, t, c)
    + if calls[n].user == u && calls[n].time >= t && !Limits(Windows(calls[..n], c), u, calls[n].time, c) then 1 else 0
  }

  /** What the user's window says: it began with a send that went through, and counts those
      that went through since. */
  lemma {:induction false} WindowCounts(calls: seq<Call>, u: Id, t: int, c: Settings)
    requires InOrder(calls)
    ensures u !in Windows(calls, c) ==> AcceptedSince(calls, u, t, c) == 0
    ensures u in Windows(calls, c) ==> var w := Windows(calls, c)[u];
      1 <= w.count && (t <= w.windowStart ==> w.count <= AcceptedSince(calls, u, t, c))
    ensures u in Windows(calls, c) && calls != [] ==> Windows(calls, c)[u].windowStart <= calls[|calls| - 1].time
  {
    if calls == [] {
    } else {
      var n := |calls| - 1;
      WindowCounts(calls[..n], u, t, c);
      assert n > 0 ==> calls[..n][n - 1] == calls[n - 1];
    }
  }

  /** A user is limited only after as many sends as the maximum, one at least, went through
      within the last window; who has sent fewer is let through. */
  lemma LimitedOnlyAfterMax(calls: seq<Call>, u: Id, now: int, c: Settings)
    requires InOrder(calls) && Limits(Windows(calls, c), u, now, c)
    ensures AcceptedSince(calls, u, now - c.messageWindowMs, c) >= Cap(c)
  {
    WindowCounts(calls, u, now - c.messageWindowMs, c);
  }

  function Of(calls: seq<Call>, u: Id): seq<Call> {
    if calls == [] then [] else
    var rest, last := Of(calls[..|calls| - 1], u), calls[|calls| - 1];
    if last.user == u then rest + [last] else rest
  }

  /** What a user is allowed depends on that user's calls only. */
  lemma {:induction false} UsersIndependent(calls: seq<Call>, u: Id, now: int, c: Settings)
    ensures u in Windows(calls, c) <==> u in Windows(Of(calls, u), c)
    ensures u in Windows(calls, c) ==> Windows(calls, c)[u] == Windows(Of(calls, u), c)[u]
    ensures Limits(Windows(calls, c), u, now, c) <==> Limits(Windows(Of(calls, u), c), u, now, c)
  {
    if calls == [] {
    } else {
      UsersIndependent(calls[..|calls| - 1], u, now, c);
      var rest, last := Of(calls[..|calls| - 1], u), calls[|calls| - 1];
      if last.user == u { assert (rest + [last])[..|rest|] == rest; }
    }
  }

  /** One send at t - 1, then `n` at t. */
  function FirstBurst(u: Id, t: int, n: nat): seq<Call> {
    if n == 0 then [Call(u, t - 1)] else FirstBurst(u, t, n - 1) + [Call(u, t)]
  }

  /** All that the first window takes, and `n` sends when it has just run out. */
  function BothBursts(u: Id, t: int, c: Settings, n: nat): seq<Call>
    requires c.maxMessagesPerWindow >= 1
  {
    if n == 0 then FirstBurst(u, t, c.maxMessagesPerWindow - 1)
    else BothBursts(u, t, c, n - 1) + [Call(u, t + c.messageWindowMs)]
  }

  lemma OneMoreCall(calls: seq<Call>, call: Call, t: int, c: Settings)
    ensures Windows(calls + [call], c) == Counted(Windows(calls, c), call.user, call.time, c)
    ensures AcceptedWithin(calls + [call], call.user, t, c) == AcceptedWithin(calls, call.user, t, c)
            + if t <= call.time <= t + c.messageWindowMs && !Limits(Windows(calls, c), call.user, call.time, c) then 1 else 0
  {
    assert (calls + [call])[..|calls|] == calls;
  }

  lemma FirstCallCounts(u: Id, t: int, c: Settings)
    ensures Windows([Call(u, t - 1)], c) == map[u := Window(t - 1, 1)] && AcceptedWithin([Call(u, t - 1)], u, t, c) == 0
  {
    assert [Call(u, t - 1)][..0] == [];
  }

  lemma {:induction false} FirstBurstPasses(u: Id, t: int, c: Settings, n: nat)
    requires n < c.maxMessagesPerWindow && c.messageWindowMs >= 1
    ensures Windows(FirstBurst(u, t, n), c) == map[u := Window(t - 1, n + 1)]
    ensures AcceptedWithin(FirstBurst(u, t, n), u, t, c) == n
  {
    hide Windows, AcceptedWithin, Passes;
    if n == 0 {
      FirstCallCounts(u, t, c);
    } else {
      FirstBurstPasses(u, t, c, n - 1);
      OneMoreCall(FirstBurst(u, t, n - 1), Call(u, t), t, c);
    }
  }

  lemma {:induction false} BothBurstsPass(u: Id, t: int, c: Settings, n: nat)
    requires n <= c.maxMessagesPerWindow && c.maxMessagesPerWindow >= 1 && c.messageWindowMs >= 1
    ensures Windows(BothBursts(u, t, c, n), c) ==
            map[u := if n == 0 then Window(t - 1, c.maxMessagesPerWindow) else Window(t + c.messageWindowMs, n)]
    ensures AcceptedWithin(BothBursts(u, t, c, n), u, t, c) == c.maxMessagesPerWindow - 1 + n
  {
    hide Windows, AcceptedWithin, Passes, FirstBurst;
    if n == 0 {
      FirstBurstPasses(u, t, c, c.maxMessagesPerWindow - 1);
    } else {
      BothBurstsPass(u, t, c, n - 1);
      OneMoreCall(BothBursts(u, t, c, n - 1), Call(u, t + c.messageWindowMs), t, c);
    }
  }

  lemma {:induction false} BurstsInOrder(u: Id, t: int, c: Settings, n: nat)
    requires c.maxMessagesPerWindow >= 1
    ensures InOrder(BothBursts(u, t, c, n))
    ensures forall i :: 0 <= i < |BothBursts(u, t, c, n)| ==> BothBursts(u, t, c, n)[i].time <= t + c.messageWindowMs
    decreases n
  {
    if n == 0 { FirstInOrder(u, t, c.maxMessagesPerWindow - 1); } else { BurstsInOrder(u, t, c, n - 1); }
  }

  lemma {:induction false} FirstInOrder(u: Id, t: int, n: nat)
    ensures InOrder(FirstBurst(u, t, n))
    ensures forall i :: 0 <= i < |FirstBurst(u, t, n)| ==> FirstBurst(u, t, n)[i].time <= t
  {
    if n == 0 {
    } else {
      FirstInOrder(u, t, n - 1);
    }
  }

  /** The bound is reached, for every maximum and every window: one send at t - 1, the
      rest of that window's at t, and a whole window's at t + messageWindowMs. */
  lemma BoundReached(u: Id, t: int, c: Settings)
    requires c.maxMessagesPerWindow >= 1 && c.messageWindowMs >= 1
    ensures var calls := BothBursts(u, t, c, c.maxMessagesPerWindow);
      InOrder(calls) && AcceptedWithin(calls, u, t, c) == 2 * Cap(c) - 1
  {
    hide Windows, AcceptedWithin, BothBursts;
    BothBurstsPass(u, t, c, c.maxMessagesPerWindow);
    BurstsInOrder(u, t, c, c.maxMessagesPerWindow);
  }
}
