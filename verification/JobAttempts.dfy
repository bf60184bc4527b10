/** What the statements of a job's life do to the rows, one by one, and what the attempts
    column counts over any run: the throws of the row's own job since it was last put in. */
module JobAttempts {
  import opened JobQueue

  // -------------------------------------------------------- single statements, row by row

  /** Row `k` is the same in both tables, or in neither. */
  predicate SameRow<K>(t: map<K, Job>, u: map<K, Job>, k: K) {
    (k in t <==> k in u) && (k in t ==> t[k] == u[k])
  }

  predicate IsFinished(j: Job) { j.status == Completed || j.status == Failed }

  lemma EnqueueExactly<K(!new)>(t: map<K, Job>, k: K, now: int, c: Config)
    ensures var u := Enqueued(t, k, now, c);
      && (forall j :: j != k ==> SameRow(t, u, j))
      && (if k !in t then k in u && u[k] == Job(Pending, 0, now)
          else if c.keepCompleted && IsFinished(t[k]) then k in u && u[k] == Job(Pending, 0, t[k].createdAt)
          else SameRow(t, u, k))
  {
  }

  lemma BackfillExactly<K(!new)>(t: map<K, Job>, missing: set<K>, now: int, k: K)
    ensures var u := Backfilled(t, missing, now);
      if k !in t && k in missing then k in u && u[k] == Job(Pending, 0, now) else SameRow(t, u, k)
  {
  }

  /** A claim marks the rows that it takes and hands them out as they were. */
  lemma ClaimExactly<K(!new)>(s: System<K>, w: nat, locked: set<K>, ks: seq<K>, c: Config, k: K)
    requires w !in s.batches && ks != [] && IsClaim(s.jobs, locked, ks, c)
    ensures var t := Next(s, Claim(w, locked, ks), c);
      && (if k in ks then k in s.jobs && k in t.jobs && t.jobs[k] == s.jobs[k].(status := Processing) else SameRow(s.jobs, t.jobs, k))
      && t.batches.Keys == s.batches.Keys + {w} && (forall v :: v in s.batches ==> t.batches[v] == s.batches[v])
      && |t.batches[w]| == |ks|
      && forall i :: 0 <= i < |ks| ==> ks[i] in s.jobs && t.batches[w][i] == Ticket(ks[i], s.jobs[ks[i]].attempts)
  {
    forall j | j in ks ensures IsPending(s.jobs, j) { }
  }

  /** How each outcome leaves the row of the job, and the worker's batch. */
  lemma WorkExactly<K(!new)>(s: System<K>, w: nat, o: Outcome, c: Config, k: K)
    requires Invariant(s, c) && w in s.batches && s.batches[w] != []
    ensures var t, job := Next(s, Work(w, o), c), s.batches[w][0].key;
      && job in s.jobs
      && (k != job || o == Escaped ==> SameRow(s.jobs, t.jobs, k))
      && (k == job && (o == MessageMissing || (o == Succeeded && !c.keepCompleted)) ==> k !in t.jobs)
      && (k == job && o == Succeeded && c.keepCompleted ==> k in t.jobs && t.jobs[k] == s.jobs[k].(status := Completed))
      && (k == job && o == Threw ==>
            k in t.jobs && t.jobs[k] == Job(if s.jobs[k].attempts + 1 < c.maxAttempts then Pending else Failed,
                                            s.jobs[k].attempts + 1, s.jobs[k].createdAt))
      && (forall v :: v in s.batches && v != w ==> v in t.batches && t.batches[v] == s.batches[v])
      && (if o == Escaped || |s.batches[w]| == 1 then w !in t.batches else w in t.batches && t.batches[w] == s.batches[w][1..])
  {
    assert Holds(s.batches, w, 0);
  }

  // --------------------------------------------------------------------- the counts

  /** The step puts row `k` in, or puts it back to the start. */
  predicate PutsIn<K>(s: System<K>, step: Step<K>, k: K, c: Config) {
    || (step.Enqueue? && step.key == k && (k !in s.jobs || (c.keepCompleted && IsFinished(s.jobs[k]))))
    || (step.Backfill? && k in step.missing && k !in s.jobs)
  }

  /** The step is a job of row `k` that ends by throwing. */
  predicate Throws<K>(s: System<K>, step: Step<K>, k: K) {
    step.Work? && step.outcome == Threw && step.worker in s.batches && s.batches[step.worker] != [] && s.batches[step.worker][0].key == k
  }

  ghost function From<K(!new)>(steps: seq<Step<K>>, c: Config): System<K> { Run(System(map[], map[]), steps, c) }

  /** How often the job of row `k` threw since the row was last put in. */
  ghost function Failures<K(!new)>(steps: seq<Step<K>>, k: K, c: Config): nat {
    if steps == [] then 0 else
    var init, step := steps[..|steps| - 1], steps[|steps| - 1];
    if PutsIn(From(init, c), step, k, c) then 0
    else Failures(init, k, c) + if Throws(From(init, c), step, k) then 1 else 0
  }

  /** The row fits the count. */
  predicate Counts<K>(t: map<K, Job>, k: K, failures: nat, c: Config) {
    k in t ==> t[k].attempts == failures && (t[k].status == Failed <==> failures == c.maxAttempts)
  }

  lemma NextCounts<K(!new)>(s: System<K>, step: Step<K>, k: K, failures: nat, c: Config)
    requires Invariant(s, c) && ValidConfig(c) && Counts(s.jobs, k, failures, c)
    ensures Counts(Next(s, step, c).jobs, k, if PutsIn(s, step, k, c) then 0 else failures + if Throws(s, step, k) then 1 else 0, c)
  {
    assert k in s.jobs ==> JobFits(s.jobs[k], c);
    match step
    case Enqueue(j, now) => EnqueueExactly(s.jobs, j, now, c); assert k != j ==> SameRow(s.jobs, Enqueued(s.jobs, j, now, c), k);
    case Backfill(missing, now) => BackfillExactly(s.jobs, missing, now, k);
    case Claim(w, locked, ks) =>
      if w !in s.batches && ks != [] && IsClaim(s.jobs, locked, ks, c) { ClaimExactly(s, w, locked, ks, c, k); }
    case Work(w, o) =>
      if w in s.batches && s.batches[w] != [] { WorkExactly(s, w, o, c, k); }
    case Crash(_) =>
  }

  /** In every run, whatever the interleaving: the attempts of a row are the throws of its own
      job since it was put in, and it is dead-lettered if and only if these are as many as
      allowed. */
  lemma {:induction false} AttemptsAreFailures<K(!new)>(steps: seq<Step<K>>, k: K, c: Config)
    requires ValidConfig(c)
    ensures Counts(From(steps, c).jobs, k, Failures(steps, k, c), c)
  {
    hide Next, Invariant, Counts, PutsIn, Throws;
    if steps == [] {
      NothingCounts(k, c);
    } else {
      var init, step := steps[..|steps| - 1], steps[|steps| - 1];
      AttemptsAreFailures(init, k, c);
      JobQueue.RunKeeps(init, c);
      NextCounts(From(init, c), step, k, Failures(init, k, c), c);
    }
  }

  lemma NothingCounts<K>(k: K, c: Config)
    ensures Counts(map[], k, 0, c)
  {
  }

  /** So a row whose job throws again is pending again, until it is the last time. */
  lemma RetriedUntilLast<K(!new)>(steps: seq<Step<K>>, w: nat, k: K, c: Config)
    requires ValidConfig(c) && Throws(From(steps, c), Work(w, Threw), k)
    ensures var t, n := Next(From(steps, c), Work(w, Threw), c).jobs, Failures(steps, k, c) + 1;
      && n <= c.maxAttempts && k in t && t[k].attempts == n
      && t[k].status == if n < c.maxAttempts then Pending else Failed
  {
    AttemptsAreFailures(steps, k, c);
    JobQueue.RunKeeps(steps, c);
    var s := From(steps, c);
    WorkExactly(s, w, Threw, c, k);
    assert Holds(s.batches, w, 0) && TicketFits(s.jobs, s.batches[w][0]) && JobFits(s.jobs[k], c);
    hide Run;
  }

  // --------------------------------------------------------------------- the claim

  predicate IsFree<K>(t: map<K, Job>, locked: set<K>, k: K) { k in t && t[k].status == Pending && k !in locked }

  /** A claim takes pending rows that nobody locks, the oldest first, and leaves some only
      when its batch is full. */
  lemma ClaimTakesOldest<K(!new)>(t: map<K, Job>, locked: set<K>, ks: seq<K>, c: Config)
    requires IsClaim(t, locked, ks, c)
    ensures |ks| <= c.batchSize
    ensures forall k :: k in ks ==> IsFree(t, locked, k)
    ensures forall j, k :: j in ks && IsFree(t, locked, k) && t[k].createdAt < t[j].createdAt ==> k in ks
    ensures |ks| < c.batchSize ==> forall k :: IsFree(t, locked, k) ==> k in ks
  {
    forall j, k | j in ks && IsFree(t, locked, k) && t[k].createdAt < t[j].createdAt ensures k in ks {
      assert IsPending(t, k);
    }
    forall k | |ks| < c.batchSize && IsFree(t, locked, k) ensures k in ks { assert IsPending(t, k); }
    forall k | k in ks ensures IsFree(t, locked, k) { assert IsPending(t, k); }
  }

  /** There always is one. */
  lemma {:induction false} ClaimExists<K(!new)>(t: map<K, Job>, locked: set<K>, c: Config) returns (ks: seq<K>)
    ensures IsClaim(t, locked, ks, c)
    decreases c.batchSize
  {
    if c.batchSize == 0 {
      ks := [];
    } else {
      var n := c.batchSize - 1;
      ks := ClaimExists(t, locked, c.(batchSize := n));
      var rest := set k | k in t && IsPending(t, k) && k !in locked && k !in ks;
      forall k | IsPending(t, k) && k !in locked && k !in ks ensures k in rest {}
      if rest != {} {
        ghost var before := ks;
        var k := Oldest(t, rest);
        ks := before + [k];
        ClaimExtends(t, locked, before, k, c);
      }
    }
  }

  lemma ClaimExtends<K(!new)>(t: map<K, Job>, locked: set<K>, ks: seq<K>, k: K, c: Config)
    requires c.batchSize >= 1 && IsClaim(t, locked, ks, c.(batchSize := c.batchSize - 1)) && IsPending(t, k) && k !in locked && k !in ks
    requires forall j :: IsPending(t, j) && j !in locked && j !in ks ==> t[k].createdAt <= t[j].createdAt
    ensures IsClaim(t, locked, ks + [k], c)
  {
  }

  lemma {:induction false} Oldest<K>(t: map<K, Job>, ks: set<K>) returns (k: K)
    requires ks != {} && ks <= t.Keys
    ensures k in ks && forall j :: j in ks ==> t[k].createdAt <= t[j].createdAt
    decreases |ks|
  {
    k :| k in ks;
    if ks == {k} {
    } else {
      var j := Oldest(t, ks - {k});
      assert forall i :: i in ks ==> i == k || i in ks - {k};
      if t[j].createdAt < t[k].createdAt { k := j; }
    }
  }
}
