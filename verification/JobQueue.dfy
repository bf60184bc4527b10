/** The durable job tables and their workers: claim, process, retry, dead-letter,
    re-enqueue and backfill, with any number of worker processes interleaving. */
module JobQueue {
  import opened Sets

  datatype Status = Pending | Processing | Completed | Failed

  datatype Job = Job(status: Status, attempts: nat, createdAt: int)

  /** `keepCompleted` tells message_side_effect_jobs, whose finished rows stay and can
      be reset by a re-enqueue, from the tables whose finished rows are deleted. */
  datatype Config = Config(maxAttempts: nat, batchSize: nat, keepCompleted: bool)

  predicate ValidConfig(c: Config) { c.maxAttempts >= 1 && c.batchSize >= 1 }

  /** How processing one claimed row ends. `Escaped`: loading the row's context, or
      the failure's own bookkeeping, threw past processJob and out of the tick. */
  datatype Outcome = Succeeded | Threw | MessageMissing | Escaped

  /** A claimed row as the claim query returned it. */
  datatype Ticket<K> = Ticket(key: K, attempts: nat)

  // -------------------------------------------------------- single statements

  /** The conditional upsert (or, without kept rows, ON CONFLICT DO NOTHING). */
  function Enqueued<K>(t: map<K, Job>, k: K, now: int, c: Config): map<K, Job> {
    if k !in t then t[k := Job(Pending, 0, now)]
    else if c.keepCompleted && (t[k].status == Completed || t[k].status == Failed)
    then t[k := t[k].(status := Pending, attempts := 0)]
    else t
  }

  /** The reconciliation's anti-join insert: a row for every key that has none. */
  function Backfilled<K>(t: map<K, Job>, keys: set<K>, now: int): map<K, Job> {
    map k | k in t.Keys + keys :: if k in t then t[k] else Job(Pending, 0, now)
  }

  predicate Distinct<K(==)>(ks: seq<K>) {
    forall i, j :: 0 <= i < j < |ks| ==> ks[i] != ks[j]
  }

  predicate IsPending<K>(t: map<K, Job>, k: K) { k in t && t[k].status == Pending }

  /** The rows that ORDER BY created_at LIMIT batchSize FOR UPDATE SKIP LOCKED may pick
      while other transactions hold `locked`. */
  ghost predicate IsClaim<K(!new)>(t: map<K, Job>, locked: set<K>, ks: seq<K>, c: Config) {
    && |ks| <= c.batchSize && Distinct(ks)
    && (forall k :: k in ks ==> IsPending(t, k) && k !in locked)
    && (forall k :: IsPending(t, k) && k !in locked && k !in ks ==>
          |ks| == c.batchSize && forall j :: j in ks ==> t[j].createdAt <= t[k].createdAt)
  }

  function Claimed<K>(t: map<K, Job>, ks: seq<K>): map<K, Job> {
    map k | k in t :: if k in ks then t[k].(status := Processing) else t[k]
  }

  function Tickets<K>(t: map<K, Job>, ks: seq<K>): (r: seq<Ticket<K>>)
    requires forall k :: k in ks ==> k in t
    ensures |r| == |ks|
  {
    seq(|ks|, i requires 0 <= i < |ks| => Ticket(ks[i], t[ks[i]].attempts))
  }

  /** What processJob leaves of the row it was given. */
  function Processed<K>(t: map<K, Job>, job: Ticket<K>, o: Outcome, c: Config): map<K, Job> {
    match o
    case Succeeded => if !c.keepCompleted then t - {job.key} else Update(t, job.key, job.attempts, Completed)
    case MessageMissing => t - {job.key}
    case Threw => Update(t, job.key, job.attempts + 1, if job.attempts + 1 >= c.maxAttempts then Failed else Pending)
    case Escaped => t
  }

  /** UPDATE ... WHERE key. (A success writes no attempts; they are the claimed ones.) */
  function Update<K>(t: map<K, Job>, k: K, attempts: nat, status: Status): map<K, Job> {
    if k in t then t[k := t[k].(attempts := attempts, status := status)] else t
  }

  // ------------------------------------------------------- interleaved workers

  /** The table and, for each process whose `running` flag is set, the rest of its batch. */
  datatype System<K> = System(jobs: map<K, Job>, batches: map<nat, seq<Ticket<K>>>)

  datatype Step<K> =
    | Enqueue(key: K, now: int)
    | Backfill(missing: set<K>, now: int)
    | Claim(worker: nat, locked: set<K>, keys: seq<K>)
    | Work(worker: nat, outcome: Outcome)
    | Crash(worker: nat)

  ghost function Next<K(!new)>(s: System<K>, step: Step<K>, c: Config): System<K> {
    match step
    case Enqueue(k, now) => s.(jobs := Enqueued(s.jobs, k, now, c))
    case Backfill(missing, now) => s.(jobs := Backfilled(s.jobs, missing, now))
    case Claim(w, locked, ks) =>
      if w in s.batches || ks == [] || !IsClaim(s.jobs, locked, ks, c) then s
      else System(Claimed(s.jobs, ks), s.batches[w := Tickets(s.jobs, ks)])
    case Work(w, o) =>
      if w !in s.batches || s.batches[w] == [] then s else
      var rest := s.batches[w][1..];
      System(Processed(s.jobs, s.batches[w][0], o, c),
             if o == Escaped || rest == [] then s.batches - {w} else s.batches[w := rest])
    case Crash(w) => s.(batches := s.batches - {w})
  }

  ghost function Run<K(!new)>(s: System<K>, steps: seq<Step<K>>, c: Config): System<K> {
    if steps == [] then s else Next(Run(s, steps[..|steps| - 1], c), steps[|steps| - 1], c)
  }

  predicate JobFits(j: Job, c: Config) {
    if j.status == Failed then j.attempts == c.maxAttempts else j.attempts < c.maxAttempts
  }

  predicate TicketFits<K>(t: map<K, Job>, job: Ticket<K>) {
    job.key in t && t[job.key].status == Processing && t[job.key].attempts == job.attempts
  }

  predicate Holds<K>(batches: map<nat, seq<Ticket<K>>>, w: nat, i: int) {
    w in batches && 0 <= i < |batches[w]|
  }

  ghost predicate Disjoint<K(!new)>(bs: map<nat, seq<Ticket<K>>>) {
    forall v, i, w, j :: Holds(bs, v, i) && Holds(bs, w, j) && bs[v][i].key == bs[w][j].key ==> v == w && i == j
  }

  ghost predicate Invariant<K(!new)>(s: System<K>, c: Config) {
    && (forall k :: k in s.jobs ==> JobFits(s.jobs[k], c))
    && (forall w, i :: Holds(s.batches, w, i) ==> TicketFits(s.jobs, s.batches[w][i]))
    && Disjoint(s.batches)
  }

  lemma ClaimKeeps<K(!new)>(s: System<K>, w: nat, locked: set<K>, ks: seq<K>, c: Config)
    requires Invariant(s, c) && w !in s.batches && IsClaim(s.jobs, locked, ks, c)
    ensures Invariant(System(Claimed(s.jobs, ks), s.batches[w := Tickets(s.jobs, ks)]), c)
  {
  }

  lemma WorkKeeps<K(!new)>(s: System<K>, w: nat, o: Outcome, c: Config)
    requires Invariant(s, c) && w in s.batches && s.batches[w] != []
    ensures Invariant(Next(s, Work(w, o), c), c)
  {
  }

  lemma NextKeeps<K(!new)>(s: System<K>, step: Step<K>, c: Config)
    requires Invariant(s, c) && ValidConfig(c)
    ensures Invariant(Next(s, step, c), c)
  {
    match step
    case Claim(w, locked, ks) =>
      if w !in s.batches && IsClaim(s.jobs, locked, ks, c) { ClaimKeeps(s, w, locked, ks, c); }
    case Work(w, o) =>
      if w in s.batches && s.batches[w] != [] { WorkKeeps(s, w, o, c); }
    case Enqueue(k, now) =>
      assert forall w, i :: Holds(s.batches, w, i) ==> TicketFits(s.jobs, s.batches[w][i]);
    case Backfill(_, _) =>
      assert forall w, i :: Holds(s.batches, w, i) ==> TicketFits(s.jobs, s.batches[w][i]);
    case Crash(_) =>
  }

  /** Whatever the interleaving: pending rows have attempts left, dead-lettered rows
      have used them all, and no row is in two batches or twice in one. */
  lemma {:induction false} RunKeeps<K(!new)>(steps: seq<Step<K>>, c: Config)
    requires ValidConfig(c)
    ensures Invariant(Run(System(map[], map[]), steps, c), c)
  {
    if steps == [] {
    } else {
      RunKeeps(steps[..|steps| - 1], c);
      NextKeeps(Run(System(map[], map[]), steps[..|steps| - 1], c), steps[|steps| - 1], c);
    }
  }

  // ------------------------------------------------------------- stranded rows

  predicate InBatch<K(==)>(batch: seq<Ticket<K>>, k: K) {
    exists i :: 0 <= i < |batch| && batch[i].key == k
  }

  /** Some running worker's batch holds the row. */
  ghost predicate Held<K(!new)>(batches: map<nat, seq<Ticket<K>>>, k: K) {
    exists w :: w in batches && InBatch(batches[w], k)
  }

  /** Claimed by nobody that still runs: no claim, upsert or backfill touches the row. */
  ghost predicate Stranded<K(!new)>(s: System<K>, k: K) {
    k in s.jobs && s.jobs[k].status == Processing && !Held(s.batches, k)
  }

  /** The step makes a worker drop what is left of its batch. */
  predicate Drops<K(!new)>(s: System<K>, step: Step<K>, k: K) {
    && (step.Crash? || (step.Work? && step.outcome == Escaped))
    && step.worker in s.batches && InBatch(s.batches[step.worker], k)
  }

  /** A row is stranded exactly by an exception that escapes its tick, or a crash of
      its worker, and then for good. */
  lemma StrandedExactly<K(!new)>(s: System<K>, step: Step<K>, k: K, c: Config)
    requires Invariant(s, c)
    ensures Stranded(Next(s, step, c), k) <==> Stranded(s, k) || Drops(s, step, k)
    ensures Stranded(s, k) ==> k in Next(s, step, c).jobs && Next(s, step, c).jobs[k] == s.jobs[k]
  {
    if Stranded(s, k) { StrandedUntouched(s, step, k, c); }
    match step
    case Enqueue(_, _) => HeldRow(s, k, c);
    case Backfill(_, _) => HeldRow(s, k, c);
    case Claim(w, locked, ks) => StrandedByClaim(s, w, locked, ks, k, c);
    case Work(w, o) => StrandedByWork(s, w, o, k, c);
    case Crash(w) =>
      HeldWithout(s.batches, w, k);
      if w in s.batches && InBatch(s.batches[w], k) { HeldOnce(s, w, k, c); }
  }

  lemma HeldRow<K(!new)>(s: System<K>, k: K, c: Config)
    requires Invariant(s, c)
    ensures Held(s.batches, k) ==> k in s.jobs && s.jobs[k].status == Processing
  {
  }

  lemma HeldWithout<K(!new)>(batches: map<nat, seq<Ticket<K>>>, w: nat, k: K)
    ensures Held(batches - {w}, k) <==> exists v :: v in batches && v != w && InBatch(batches[v], k)
    ensures w in batches ==> (Held(batches, k) <==> Held(batches - {w}, k) || InBatch(batches[w], k))
    ensures w !in batches ==> batches - {w} == batches
  {
    var rest := batches - {w};
    assert forall v :: v in rest ==> rest[v] == batches[v];
    if v :| v in batches && v != w && InBatch(batches[v], k) { assert v in rest && InBatch(rest[v], k); }
  }

  lemma HeldWith<K(!new)>(batches: map<nat, seq<Ticket<K>>>, w: nat, b: seq<Ticket<K>>, k: K)
    ensures Held(batches[w := b], k) <==> Held(batches - {w}, k) || InBatch(b, k)
  {
    var more, rest := batches[w := b], batches - {w};
    assert more[w] == b;
    assert forall v :: v in rest ==> v in more && rest[v] == more[v];
    assert forall v :: v in more && v != w ==> v in rest;
  }

  lemma HeldOnce<K(!new)>(s: System<K>, w: nat, k: K, c: Config)
    requires Invariant(s, c) && w in s.batches && InBatch(s.batches[w], k)
    ensures k in s.jobs && s.jobs[k].status == Processing
    ensures forall v :: v in s.batches && v != w ==> !InBatch(s.batches[v], k)
  {
  }

  lemma StrandedUntouched<K(!new)>(s: System<K>, step: Step<K>, k: K, c: Config)
    requires Stranded(s, k)
    ensures k in Next(s, step, c).jobs && Next(s, step, c).jobs[k] == s.jobs[k]
  {
  }

  /** A row goes away only with its message, or when its own work is done and done rows
      are not kept. */
  lemma RowLeavesDone<K(!new)>(s: System<K>, step: Step<K>, k: K, c: Config)
    requires k in s.jobs && k !in Next(s, step, c).jobs
    ensures step.Work? && step.worker in s.batches && s.batches[step.worker] != []
    ensures s.batches[step.worker][0].key == k
    ensures step.outcome == MessageMissing || (step.outcome == Succeeded && !c.keepCompleted)
  {
  }

  /** Where finished rows are deleted, re-enqueues ignore a dead-lettered one: it stays, and
      its key is never worked on again. */
  lemma {:induction false} DeadLetterStays<K(!new)>(s: System<K>, steps: seq<Step<K>>, k: K, c: Config)
    requires Invariant(s, c) && ValidConfig(c) && !c.keepCompleted && k in s.jobs && s.jobs[k].status == Failed
    ensures var s' := Run(s, steps, c); Invariant(s', c) && k in s'.jobs && s'.jobs[k] == s.jobs[k]
  {
    if steps == [] {
    } else {
      hide Invariant, Next;
      DeadLetterStays(s, steps[..|steps| - 1], k, c);
      var t := Run(s, steps[..|steps| - 1], c);
      NextKeeps(t, steps[|steps| - 1], c);
      DeadLetterNext(t, steps[|steps| - 1], k, c);
    }
  }

  lemma DeadLetterNext<K(!new)>(s: System<K>, step: Step<K>, k: K, c: Config)
    requires Invariant(s, c) && !c.keepCompleted && k in s.jobs && s.jobs[k].status == Failed
    ensures k in Next(s, step, c).jobs && Next(s, step, c).jobs[k] == s.jobs[k]
  {
  }

  lemma StrandedByClaim<K(!new)>(s: System<K>, w: nat, locked: set<K>, ks: seq<K>, k: K, c: Config)
    requires Invariant(s, c)
    ensures Stranded(Next(s, Claim(w, locked, ks), c), k) <==> Stranded(s, k)
  {
    if w !in s.batches && ks != [] && IsClaim(s.jobs, locked, ks, c) {
      assert k in ks ==> IsPending(s.jobs, k);
      var tickets := Tickets(s.jobs, ks);
      assert InBatch(tickets, k) <==> k in ks by {
        if i :| 0 <= i < |ks| && ks[i] == k { assert tickets[i].key == k; }
      }
      HeldRow(s, k, c);
      HeldWithout(s.batches, w, k);
      HeldWith(s.batches, w, tickets, k);
    }
  }

  lemma StrandedByWork<K(!new)>(s: System<K>, w: nat, o: Outcome, k: K, c: Config)
    requires Invariant(s, c)
    ensures Stranded(Next(s, Work(w, o), c), k) <==> Stranded(s, k) || Drops(s, Work(w, o), k)
  {
    if w in s.batches && s.batches[w] != [] {
      var b := s.batches[w];
      InBatchHead(b, k);
      HeldWithout(s.batches, w, k);
      HeldWith(s.batches, w, b[1..], k);
      HeldRow(s, k, c);
      if InBatch(b, k) { HeldOnce(s, w, k, c); }
      HeadOnce(s, w, c);
    }
  }

  lemma InBatchHead<K>(b: seq<Ticket<K>>, k: K)
    requires b != []
    ensures InBatch(b, k) <==> b[0].key == k || InBatch(b[1..], k)
  {
  }

  lemma HeadOnce<K(!new)>(s: System<K>, w: nat, c: Config)
    requires Invariant(s, c) && w in s.batches && s.batches[w] != []
    ensures !InBatch(s.batches[w][1..], s.batches[w][0].key)
  {
  }

  // ---------------------------------------------------------------- the budget

  predicate AttemptLeft(j: Job, i: int) {
    (j.status == Pending && j.attempts <= i) || (j.status == Processing && j.attempts < i)
  }

  /** The attempts that pending rows and running jobs still have; its size is the sum
      of maxAttempts - attempts over the pending rows, plus the retries of running ones. */
  function Budget<K>(t: map<K, Job>, c: Config): set<(K, int)> {
    set k, i | k in t && 0 <= i < c.maxAttempts && AttemptLeft(t[k], i) :: (k, i)
  }

  function Spent<K>(t: map<K, Job>, ks: seq<K>): set<(K, int)>
    requires forall k :: k in ks ==> k in t
  {
    set k | k in ks :: (k, t[k].attempts)
  }

  lemma {:induction false} SpentSize<K>(t: map<K, Job>, ks: seq<K>)
    requires Distinct(ks) && forall k :: k in ks ==> k in t
    ensures |Spent(t, ks)| == |ks|
  {
    if ks == [] {
    } else {
      var n := |ks| - 1;
      SpentSize(t, ks[..n]);
      assert Spent(t, ks) == Spent(t, ks[..n]) + {(ks[n], t[ks[n]].attempts)};
      assert (ks[n], t[ks[n]].attempts) !in Spent(t, ks[..n]);
    }
  }

  /** A claim spends one attempt of each row it takes. */
  lemma ClaimSpends<K(!new)>(t: map<K, Job>, locked: set<K>, ks: seq<K>, c: Config)
    requires IsClaim(t, locked, ks, c) && forall k :: k in t ==> JobFits(t[k], c)
    ensures |Budget(Claimed(t, ks), c)| + |ks| == |Budget(t, c)|
  {
    forall k | k in ks ensures IsPending(t, k) && t[k].attempts < c.maxAttempts {
      assert IsPending(t, k) && JobFits(t[k], c);
    }
    hide IsClaim, JobFits, Budget, Claimed, Spent;
    SpentSize(t, ks);
    BudgetAfterClaim(t, ks, c);
    SubsetSize(Spent(t, ks), Budget(t, c));
  }

  lemma BudgetAfterClaim<K>(t: map<K, Job>, ks: seq<K>, c: Config)
    requires forall k :: k in ks ==> k in t && t[k].status == Pending && t[k].attempts < c.maxAttempts
    ensures Spent(t, ks) <= Budget(t, c)
    ensures Budget(Claimed(t, ks), c) == Budget(t, c) - Spent(t, ks)
  {
  }

  /** However a job ends, it gives nothing back. */
  lemma WorkSpends<K(!new)>(t: map<K, Job>, job: Ticket<K>, o: Outcome, c: Config)
    requires TicketFits(t, job)
    ensures |Budget(Processed(t, job, o, c), c)| <= |Budget(t, c)|
  {
    SubsetSize(Budget(Processed(t, job, o, c), c), Budget(t, c));
  }

  predicate AddsNoWork<K(!new)>(step: Step<K>) { !step.Enqueue? && !step.Backfill? }

  /** How many rows the run's claims took, retries included. */
  ghost function Claims<K(!new)>(s: System<K>, steps: seq<Step<K>>, c: Config): nat {
    if steps == [] then 0 else
    var before, step := Run(s, steps[..|steps| - 1], c), steps[|steps| - 1];
    Claims(s, steps[..|steps| - 1], c) +
    if step.Claim? && step.worker !in before.batches && IsClaim(before.jobs, step.locked, step.keys, c) then |step.keys| else 0
  }

  lemma NextSpends<K(!new)>(s: System<K>, step: Step<K>, c: Config)
    requires Invariant(s, c) && AddsNoWork(step)
    ensures |Budget(Next(s, step, c).jobs, c)| + Claims(s, [step], c) <= |Budget(s.jobs, c)|
  {
    assert [step][..0] == [];
    hide Budget;
    match step
    case Claim(w, locked, ks) =>
      if w !in s.batches && IsClaim(s.jobs, locked, ks, c) { ClaimSpends(s.jobs, locked, ks, c); }
    case Work(w, o) =>
      if w in s.batches && s.batches[w] != [] {
        assert Holds(s.batches, w, 0);
        WorkSpends(s.jobs, s.batches[w][0], o, c);
      }
    case Crash(_) =>
  }

  /** Without new work, all workers together claim no more than the budget: every run of
      retries ends, however the workers interleave and fail. */
  lemma {:induction false} ClaimsWithinBudget<K(!new)>(s: System<K>, steps: seq<Step<K>>, c: Config)
    requires Invariant(s, c) && ValidConfig(c) && forall i :: 0 <= i < |steps| ==> AddsNoWork(steps[i])
    ensures Invariant(Run(s, steps, c), c)
    ensures |Budget(Run(s, steps, c).jobs, c)| + Claims(s, steps, c) <= |Budget(s.jobs, c)|
  {
    if steps == [] {
    } else {
      hide Budget, Invariant, IsClaim;
      var n := |steps| - 1;
      ClaimsWithinBudget(s, steps[..n], c);
      NextKeeps(Run(s, steps[..n], c), steps[n], c);
      NextSpends(Run(s, steps[..n], c), steps[n], c);
      assert [steps[n]][..0] == [];
    }
  }

  // ----------------------------------------------------------------- the tick

  /** The loop over a claimed batch; an escaping exception leaves the rest as claimed. */
  function WorkAll<K>(t: map<K, Job>, jobs: seq<Ticket<K>>, os: seq<Outcome>, c: Config): map<K, Job>
    requires |os| == |jobs|
  {
    if jobs == [] || os[0] == Escaped then t
    else WorkAll(Processed(t, jobs[0], os[0], c), jobs[1..], os[1..], c)
  }

  function TickTable<K>(t: map<K, Job>, ks: seq<K>, os: seq<Outcome>, c: Config): map<K, Job>
    requires |os| == |ks| && forall k :: k in ks ==> k in t
  {
    WorkAll(Claimed(t, ks), Tickets(t, ks), os, c)
  }

  /** What throws before the loop. */
  datatype Fault<K> = NoFault | BackfillThrows(inserted: set<K>) | ClaimThrows

  /** One process's worker with the table it polls. */
  class Worker<K(==, !new)> {
    const config: Config
    const reconciliationIntervalMs: int
    var jobs: map<K, Job>
    var running: bool
    var lastReconciledAt: int

    predicate IsDue(now: int)
      reads this
    {
      now - lastReconciledAt >= reconciliationIntervalMs
    }

    /** The table that the claim query sees: backfilled when the interval has passed, in
        part if that throws. */
    function Reconciled(missing: set<K>, now: int, fault: Fault<K>): map<K, Job>
      reads this
    {
      if !IsDue(now) then jobs
      else Backfilled(jobs, if fault.BackfillThrows? then fault.inserted else missing, now)
    }

    predicate ReachesLoop(now: int, fault: Fault<K>)
      reads this
    {
      !fault.ClaimThrows? && !(fault.BackfillThrows? && IsDue(now))
    }

    constructor (config: Config, reconciliationIntervalMs: int)
      ensures this.config == config && jobs == map[] && !running
    {
      this.config := config;
      this.reconciliationIntervalMs := reconciliationIntervalMs;
      jobs := map[];
      running := false;
      lastReconciledAt := 0;
    }

    /** `ks` is what the claim query returns and `os` how each job ends; the flag is
        cleared however the tick ends, and a backfill that threw waits for the next interval. */
    method Tick(missing: set<K>, now: int, fault: Fault<K>, ks: seq<K>, os: seq<Outcome>)
      requires ReachesLoop(now, fault) ==> IsClaim(Reconciled(missing, now, fault), {}, ks, config) && |os| == |ks|
      modifies this
      ensures old(running) ==> running && jobs == old(jobs) && lastReconciledAt == old(lastReconciledAt)
      ensures !old(running) ==> !running
      ensures !old(running) ==>
                lastReconciledAt == if now - old(lastReconciledAt) >= reconciliationIntervalMs then now else old(lastReconciledAt)
      ensures !old(running) ==>
                jobs == if old(ReachesLoop(now, fault)) then TickTable(old(Reconciled(missing, now, fault)), ks, os, config)
                        else old(Reconciled(missing, now, fault))
      ensures !old(running) && fault.ClaimThrows? ==>
                jobs.Keys == old(jobs).Keys + if now - old(lastReconciledAt) >= reconciliationIntervalMs then missing else {}
      ensures !old(running) && (fault.ClaimThrows? || (fault.BackfillThrows? && now - old(lastReconciledAt) >= reconciliationIntervalMs)) ==>
                forall k :: k in old(jobs) ==> k in jobs && jobs[k] == old(jobs)[k]
    {
      if running { return; }
      running := true;
      if now - lastReconciledAt >= reconciliationIntervalMs {
        lastReconciledAt := now;
        jobs := Backfilled(jobs, if fault.BackfillThrows? then fault.inserted else missing, now);
        if fault.BackfillThrows? {
          running := false;
          return;
        }
      }
      if fault.ClaimThrows? {
        running := false;
        return;
      }
      hide IsClaim, Claimed, WorkAll;
      ClaimedRows(jobs, ks, config);
      var claimed := Tickets(jobs, ks);
      jobs := Claimed(jobs, ks);
      ProcessAll(claimed, os);
      running := false;
    }

    /** The loop of the tick, up to an exception that escapes. */
    method ProcessAll(claimed: seq<Ticket<K>>, os: seq<Outcome>)
      requires |os| == |claimed|
      modifies this`jobs
      ensures jobs == WorkAll(old(jobs), claimed, os, config)
    {
      hide Processed, WorkAll;
      var i := 0;
      assert claimed[0..] == claimed && os[0..] == os;
      while i < |claimed| && os[i] != Escaped
        invariant 0 <= i <= |claimed|
        invariant WorkAll(jobs, claimed[i..], os[i..], config) == WorkAll(old(jobs), claimed, os, config)
      {
        WorkAllStep(jobs, claimed[i..], os[i..], config);
        assert claimed[i..][1..] == claimed[i + 1..] && os[i..][1..] == os[i + 1..];
        jobs := Processed(jobs, claimed[i], os[i], config);
        i := i + 1;
      }
      WorkAllEnd(jobs, claimed[i..], os[i..], config);
    }
  }

  lemma ClaimedRows<K(!new)>(t: map<K, Job>, ks: seq<K>, c: Config)
    requires IsClaim(t, {}, ks, c)
    ensures forall k :: k in ks ==> k in t
  {
    forall k | k in ks ensures k in t { assert IsPending(t, k); }
  }

  lemma WorkAllStep<K>(t: map<K, Job>, jobs: seq<Ticket<K>>, os: seq<Outcome>, c: Config)
    requires |os| == |jobs| && jobs != [] && os[0] != Escaped
    ensures WorkAll(t, jobs, os, c) == WorkAll(Processed(t, jobs[0], os[0], c), jobs[1..], os[1..], c)
  {
    hide Processed;
  }

  lemma WorkAllEnd<K>(t: map<K, Job>, jobs: seq<Ticket<K>>, os: seq<Outcome>, c: Config)
    requires |os| == |jobs| && (jobs == [] || os[0] == Escaped)
    ensures WorkAll(t, jobs, os, c) == t
  {
  }

  /** A tick as the statements of worker `w`. */
  function TickSteps<K>(w: nat, ks: seq<K>, os: seq<Outcome>): seq<Step<K>> {
    [Claim(w, {}, ks)] + Works(w, os)
  }

  function Works<K>(w: nat, os: seq<Outcome>): seq<Step<K>> {
    seq(|os|, i requires 0 <= i < |os| => Work(w, os[i]))
  }

  lemma {:induction false} RunFront<K(!new)>(s: System<K>, step: Step<K>, steps: seq<Step<K>>, c: Config)
    ensures Run(s, [step] + steps, c) == Run(Next(s, step, c), steps, c)
    decreases |steps|
  {
    var all := [step] + steps;
    if steps == [] {
      assert all[..0] == [] && all == [step];
    } else {
      RunFront(s, step, steps[..|steps| - 1], c);
      assert all[..|all| - 1] == [step] + steps[..|steps| - 1];
    }
  }

  /** With its batch gone a worker has no work. */
  lemma {:induction false} IdleWorks<K(!new)>(s: System<K>, w: nat, os: seq<Outcome>, c: Config)
    requires w !in s.batches
    ensures Run(s, Works(w, os), c) == s
  {
    if os == [] {
    } else {
      IdleWorks(s, w, os[..|os| - 1], c);
      assert Works<K>(w, os)[..|os| - 1] == Works<K>(w, os[..|os| - 1]);
    }
  }

  lemma {:induction false} WorksAreLoop<K(!new)>(s: System<K>, w: nat, os: seq<Outcome>, c: Config)
    requires w in s.batches && |os| == |s.batches[w]| > 0
    ensures Run(s, Works(w, os), c) == System(WorkAll(s.jobs, s.batches[w], os, c), s.batches - {w})
    decreases |os|
  {
    assert Works<K>(w, os) == [Work(w, os[0])] + Works(w, os[1..]);
    RunFront(s, Work(w, os[0]), Works(w, os[1..]), c);
    var s' := Next(s, Work(w, os[0]), c);
    if os[0] == Escaped || |os| == 1 {
      IdleWorks(s', w, os[1..], c);
    } else {
      WorksAreLoop(s', w, os[1..], c);
      assert s'.batches - {w} == s.batches - {w};
    }
  }

  /** The tick's loop is a run of the interleaving model with nobody else stepping. */
  lemma TickIsRun<K(!new)>(s: System<K>, w: nat, ks: seq<K>, os: seq<Outcome>, c: Config)
    requires w !in s.batches && IsClaim(s.jobs, {}, ks, c) && |os| == |ks|
    ensures forall k :: k in ks ==> k in s.jobs
    ensures Run(s, TickSteps(w, ks, os), c) == System(TickTable(s.jobs, ks, os, c), s.batches)
  {
    assert forall k :: k in ks ==> IsPending(s.jobs, k);
    RunFront(s, Claim(w, {}, ks), Works(w, os), c);
    var s' := Next(s, Claim(w, {}, ks), c);
    if ks == [] {
      assert Works<K>(w, os) == [];
      assert Claimed(s.jobs, ks) == s.jobs;
    } else {
      WorksAreLoop(s', w, os, c);
      assert s'.batches - {w} == s.batches;
    }
  }

  lemma TickSpends<K(!new)>(s: System<K>, w: nat, ks: seq<K>, os: seq<Outcome>, c: Config)
    requires Invariant(s, c) && ValidConfig(c)
    requires w !in s.batches && IsClaim(s.jobs, {}, ks, c) && |os| == |ks|
    ensures var s' := Run(s, TickSteps(w, ks, os), c);
      Invariant(s', c) && |Budget(s'.jobs, c)| + |ks| <= |Budget(s.jobs, c)|
  {
    hide Budget;
    var claim := Claim(w, {}, ks);
    NextKeeps(s, claim, c);
    NextSpends(s, claim, c);
    assert [claim][..0] == [];
    ClaimsWithinBudget(Next(s, claim, c), Works(w, os), c);
    RunFront(s, claim, Works(w, os), c);
  }

  datatype Round<K> = Round(keys: seq<K>, outcomes: seq<Outcome>)

  /** Ticks of one worker, one after the other: each claims what its query may return. */
  ghost predicate AreTicks<K(!new)>(t: map<K, Job>, rounds: seq<Round<K>>, c: Config)
    decreases |rounds|
  {
    rounds == [] ||
    (&& IsClaim(t, {}, rounds[0].keys, c) && |rounds[0].outcomes| == |rounds[0].keys|
     && (forall k :: k in rounds[0].keys ==> k in t)
     && AreTicks(TickTable(t, rounds[0].keys, rounds[0].outcomes, c), rounds[1..], c))
  }

  ghost function AfterTicks<K(!new)>(t: map<K, Job>, rounds: seq<Round<K>>, c: Config): map<K, Job>
    requires AreTicks(t, rounds, c)
    decreases |rounds|
  {
    if rounds == [] then t
    else AfterTicks(TickTable(t, rounds[0].keys, rounds[0].outcomes, c), rounds[1..], c)
  }

  ghost predicate Drained<K(!new)>(t: map<K, Job>) { forall k :: !IsPending(t, k) }

  lemma PendingHasBudget<K(!new)>(t: map<K, Job>, c: Config)
    requires forall k :: k in t ==> JobFits(t[k], c)
    ensures !Drained(t) ==> |Budget(t, c)| > 0
  {
    if k :| IsPending(t, k) {
      assert JobFits(t[k], c);
      assert (k, t[k].attempts) in Budget(t, c);
    }
  }

  /** As many ticks as the budget leave no row pending, whatever each job's fate. */
  lemma {:induction false} TicksDrain<K(!new)>(t: map<K, Job>, rounds: seq<Round<K>>, c: Config)
    requires ValidConfig(c) && (forall k :: k in t ==> JobFits(t[k], c)) && AreTicks(t, rounds, c)
    ensures |rounds| >= |Budget(t, c)| || Drained(t) ==> Drained(AfterTicks(t, rounds, c))
    decreases |rounds|
  {
    PendingHasBudget(t, c);
    if rounds == [] {
    } else {
      hide Budget, JobFits;
      var s, r := System(t, map[]), rounds[0];
      TickSpends(s, 0, r.keys, r.outcomes, c);
      TickIsRun(s, 0, r.keys, r.outcomes, c);
      if r.keys == [] {
        assert Drained(t);
        assert Claimed(t, r.keys) == t;
      }
      TicksDrain(TickTable(t, r.keys, r.outcomes, c), rounds[1..], c);
    }
  }
}
