/** The two ways a row gets into message_side_effect_jobs: the enqueue of a send or an
    edit, and the reconciliation that backfills what an enqueue failed to insert. */
module SideEffectQueue {
  import opened JsText
  import opened JobQueue

  type Id = nat

  datatype JobType = NOTIFICATION | ENTITY_LINK

  type Key = (Id, JobType)

  /** Entity links are for messages of a workspace only. */
  function JobTypes(workspaceId: Option<Id>): seq<JobType> {
    if workspaceId.Some? then [NOTIFICATION, ENTITY_LINK] else [NOTIFICATION]
  }

  /** The rows there ought to be for the messages, given with their workspaces. */
  function Wanted(messages: map<Id, Option<Id>>): set<Key> {
    (set m | m in messages :: (m, NOTIFICATION)) + set m | m in messages && messages[m].Some? :: (m, ENTITY_LINK)
  }

  /** The upserts for `types`, in order. */
  function Upserted(t: map<Key, Job>, m: Id, types: seq<JobType>, now: int, c: Config): map<Key, Job> {
    if types == [] then t
    else Enqueued(Upserted(t, m, types[..|types| - 1], now, c), (m, types[|types| - 1]), now, c)
  }

  /** Notifications for every message, entity links for those of a workspace. */
  lemma WantedExactly(messages: map<Id, Option<Id>>, workspaceId: Option<Id>, m: Id, jobType: JobType)
    ensures (m, jobType) in Wanted(messages) <==> m in messages && (jobType == NOTIFICATION || messages[m].Some?)
    ensures jobType in JobTypes(workspaceId) <==> jobType == NOTIFICATION || workspaceId.Some?
    ensures |JobTypes(workspaceId)| == if workspaceId.Some? then 2 else 1
  {
  }

  /** The row at `k` is pending, or has been claimed. A claimed row may be stranded, and an
      enqueue does not revive it. */
  predicate IsPendingOrClaimed(t: map<Key, Job>, k: Key) {
    k in t && (t[k].status == Pending || t[k].status == Processing)
  }

  /** Every row that was asked for is pending afterwards, but for those that had been
      claimed and not finished, and those are untouched; no other row changes. */
  lemma {:induction false} UpsertedRows(t: map<Key, Job>, m: Id, types: seq<JobType>, now: int, c: Config, k: Key)
    requires c.keepCompleted
    ensures var t' := Upserted(t, m, types, now, c);
      && (k.0 == m && k.1 in types ==> IsPendingOrClaimed(t', k))
      && (k in t && (k.0 != m || k.1 !in types || IsPendingOrClaimed(t, k)) ==> k in t' && t'[k] == t[k])
      && (k !in t && (k.0 != m || k.1 !in types) ==> k !in t')
  {
    if types == [] {
    } else {
      var n := |types| - 1;
      assert types == types[..n] + [types[n]];
      UpsertedRows(t, m, types[..n], now, c, k);
    }
  }

  /** After a backfill nothing is missing, and a second one adds nothing. */
  lemma BackfillCompletes(t: map<Key, Job>, messages: map<Id, Option<Id>>, now: int, later: int)
    ensures var t' := Backfilled(t, Wanted(messages), now);
      && Wanted(messages) <= t'.Keys == t.Keys + Wanted(messages)
      && (forall k :: k in t ==> t'[k] == t[k])
      && Backfilled(t', Wanted(messages), later) == t'
  {
  }

  class SideEffectJobs {
    const config: Config
    var jobs: map<Key, Job>

    constructor (config: Config)
      requires config.keepCompleted
      ensures jobs == map[] && this.config == config
    {
      this.config := config;
      jobs := map[];
    }

    /** `working` statements succeed before the database fails; the error is only logged. */
    method EnqueueMessageSideEffectJobs(m: Id, workspaceId: Option<Id>, now: int, working: nat)
      modifies this`jobs
      ensures var types := JobTypes(workspaceId);
        jobs == Upserted(old(jobs), m, if working < |types| then types[..working] else types, now, config)
    {
      var jobTypes := [NOTIFICATION];
      if workspaceId.Some? { jobTypes := jobTypes + [ENTITY_LINK]; }
      assert jobTypes == JobTypes(workspaceId) && jobTypes[..|jobTypes|] == jobTypes;
      for i := 0 to |jobTypes|
        invariant i <= working && jobs == Upserted(old(jobs), m, jobTypes[..i], now, config)
      {
        if i == working { return; }
        assert jobTypes[..i + 1][..i] == jobTypes[..i];
        jobs := Enqueued(jobs, (m, jobTypes[i]), now, config);
      }
    }

    /** One anti-join insert per job type. */
    method EnqueueMissingMessageSideEffectJobs(messages: map<Id, Option<Id>>, now: int)
      modifies this`jobs
      ensures jobs == Backfilled(old(jobs), Wanted(messages), now)
    {
      jobs := Backfilled(jobs, set m | m in messages :: (m, NOTIFICATION), now);
      jobs := Backfilled(jobs, set m | m in messages && messages[m].Some? :: (m, ENTITY_LINK), now);
    }
  }
}
