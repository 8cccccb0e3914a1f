/** The two submitting endpoints as they run when nothing interrupts them. */
module SubmissionServices {
  import opened Wrappers
  import opened Json
  import opened Redis
  import opened TaskTable
  import opened RcsClient
  import opened Idempotency
  import opened Submission
  import opened SubmissionSolo

  class SubmissionServer {
    const repo: TaskHistoryRepository
    const redis: RedisStore
    var robotTypes: map<string, string>
    /** The calls made through the RCS client. */
    var calls: seq<Call>

    constructor (repo: TaskHistoryRepository, redis: RedisStore)
      ensures this.repo == repo && this.redis == redis && calls == [] && robotTypes == map[]
    {
      this.repo := repo;
      this.redis := redis;
      calls := [];
      robotTypes := map[];
    }

    ghost function View(): Shared
      reads this, repo, redis
    {
      Shared(repo.rows, redis.entries, redis.now, robotTypes, calls)
    }

    /** Insert and commit under the unique columns; `dbUp` is false when the database fails. */
    method Persist(job: Job, code: string, dbUp: bool) returns (inserted: bool)
      requires repo.Valid()
      modifies repo
      ensures repo.Valid()
      ensures inserted <==> dbUp && Admits(old(repo.rows), RowOf(job, code))
      ensures repo.rows == if inserted then old(repo.rows) + [RowOf(job, code)] else old(repo.rows)
      ensures inserted <==> dbUp && Free(old(repo.rows), code, job.key)
      ensures inserted ==>
                var row := repo.rows[|repo.rows| - 1];
                && row == TaskRow(code, Pending, None, row.sourceCode, row.targetCode, job.key, None, None, None)
                && (job.CreateJob? ==> row.sourceCode == Some(job.create.sourceCode) && row.targetCode == Some(job.create.targetCode))
                && (job.RawJob? ==> MetaFits(job.raw.body, row.sourceCode, row.targetCode))
    {
      hide MetaFits, Free;
      FreeIsAdmitted(repo.rows, RowOf(job, code));
      if !dbUp {
        return false;
      }
      var source, target;
      match job {
        case CreateJob(request, _) =>
          source, target := Some(request.sourceCode), Some(request.targetCode);
        case RawJob(request, _) =>
          source, target := Meta(request.body);
      }
      var created := repo.Create(code, Pending, source, target, None, job.key);
      inserted := created.Ok?;
    }

    /** `_meta_from_body`, with its loop over the steps of the route. */
    method Meta(body: Option<map<string, Json>>) returns (source: Option<string>, target: Option<string>)
      ensures (source, target) == MetaFromBody(body)
      ensures MetaFits(body, source, target)
    {
      hide MetaFits;
      MetaFromBodyFits(body);
      var m := BodyOrEmpty(body);
      source := TextField(m, "sourceCode");
      target := None;
      var route := Get(m, "targetRoute");
      if route.Arr? {
        var codes: seq<string> := [];
        for i := 0 to |route.items|
          invariant codes == StepCodes(route.items[..i])
        {
          assert route.items[..i + 1][..i] == route.items[..i];
          var code := StepCode(route.items[i]);
          if code.Some? {
            codes := codes + [code.value];
          }
        }
        assert route.items[..|route.items|] == route.items;
        if codes != [] {
          target := Some(Joined(codes));
        }
      } else if route.Obj? {
        target := TextField(route.members, "targetCode");
      }
      if target.None? {
        target := TextField(m, "targetCode");
      }
    }

    /** `_save_idempotency` for a call that has a usable key, and the answer. */
    method SaveAndAnswer(job: Job, answer: Answer) returns (outcome: Pc)
      modifies redis`entries
      ensures outcome == Answered(answer)
      ensures redis.entries ==
                if CacheSlot(job).None? then old(redis.entries)
                else Stored(old(redis.entries), redis.now, CacheSlot(job).value, Envelope(Fingerprint(job), answer),
                            IDEMPOTENCY_KEY_TTL_SECONDS)
      ensures redis.entries ==
                if !Keyed(job.key) then old(redis.entries)
                else old(redis.entries)[(if job.CreateJob? then "idempotency:" else "idempotency:rcs_raw:") + job.key.value :=
                       Entry(Envelope(Fingerprint(job), answer), Some(redis.now + 86400))]
    {
      hide Envelope, Fingerprint;
      var slot := CacheSlot(job);
      if slot.Some? {
        redis.SetEx(slot.value, IDEMPOTENCY_KEY_TTL_SECONDS, Envelope(Fingerprint(job), answer));
      }
      outcome := Answered(answer);
    }

    /** `_lookup_idempotency`; without a usable key the cache is not consulted. */
    method LookupIdempotency(job: Job) returns (found: Cached<Answer>)
      ensures CacheSlot(job).None? ==> found.Miss?
      ensures CacheSlot(job).Some? ==>
                found == ReadCache(job, Redis.Lookup(redis.entries, redis.now, CacheSlot(job).value))
      ensures !Keyed(job.key) ==> found.Miss?
      ensures Keyed(job.key) ==>
                found == ReadCache(job, Redis.Lookup(redis.entries, redis.now,
                  (if job.CreateJob? then "idempotency:" else "idempotency:rcs_raw:") + job.key.value))
    {
      hide ReadCache;
      found := Miss;
      if CacheSlot(job).Some? {
        var raw := redis.Get(CacheSlot(job).value);
        found := ReadCache(job, raw);
      }
    }

    /** What both endpoints do once RCS has answered: insert when there is a code to keep, cache, answer. */
    method Complete(ghost id: nat, job: Job, called: Pc, ghost result: CallResult, dbUp: bool) returns (outcome: Pc)
      requires repo.Valid()
      requires called.Insert? || called.Save? || Final(called)
      requires called.Save? ==> CacheSlot(job).Some?
      modifies repo, redis`entries
      ensures repo.Valid() && Final(outcome)
      ensures (View(), outcome) == Solo(old(View()), id, job, called, result, dbUp, 2)
      ensures !outcome.Replayed? || outcome == called
    {
      hide RowOf, Envelope, Fingerprint;
      if called.Insert? {
        var inserted := Persist(job, called.code, dbUp);
        if inserted {
          outcome := SaveAndAnswer(job, CommittedAnswer(job, called.code, called.reply));
        } else {
          outcome := Rejected(InsertRefused, Submitted);
          assert View() == old(View());
        }
      } else if called.Save? {
        outcome := SaveAndAnswer(job, called.answer);
      } else {
        outcome := called;
        SoloStopsWhenFinal(View(), id, job, outcome, result, dbUp, 2);
      }
      SoloStopsWhenFinal(View(), id, job, outcome, result, dbUp, 1);
    }

    /**
     * `create_task` from start to end: cache, robot type, RCS, insert, cache. `result` is what RCS
     * answers, should it be asked.
     */
    method CreateTask(id: nat, request: CreateRequest, key: Option<string>, result: CallResult, dbUp: bool)
      returns (outcome: Pc)
      requires repo.Valid()
      modifies this`calls, repo, redis`entries
      ensures repo.Valid() && Final(outcome)
      ensures (View(), outcome) == Solo(old(View()), id, CreateJob(request, key), Start, result, dbUp, 5)
      ensures CreateEnds(id, request, key, result, dbUp, old(View()), View(), outcome)
      ensures calls == old(calls) || calls == old(calls) + [Call(id, true, result)]
      ensures outcome.Replayed? ==> calls == old(calls) && repo.rows == old(repo.rows)
    {
      hide CacheSlot, ReadCache, ExtractTaskCode, CreateEnds;
      CreateTaskEnds(View(), id, request, key, result, dbUp);
      var job := CreateJob(request, key);
      var found := LookupIdempotency(job);
      outcome := match found
        case Hit(answer) => Replayed(answer)
        case Mismatch => Rejected(KeyReused, Unsubmitted)
        case Unreadable => Rejected(UnreadableCache, Unsubmitted)
        case Miss => Resolve;
      assert outcome == AfterLookup(View(), job);
      if outcome != Resolve {
        SoloStopsWhenFinal(View(), id, job, outcome, result, dbUp, 4);
        return;
      }
      if request.robotType !in robotTypes {
        outcome := Rejected(UnknownRobotType, Unsubmitted);
        SoloStopsWhenFinal(View(), id, job, outcome, result, dbUp, 3);
        return;
      }
      calls := calls + [Call(id, true, result)];
      outcome := AfterCall(job, result);
      assert Solo(old(View()), id, job, Start, result, dbUp, 5) == Solo(View(), id, job, outcome, result, dbUp, 2);
      outcome := Complete(id, job, outcome, result, dbUp);
    }

    /** `submit_raw` from start to end, on a request whose path is already normalised. */
    method SubmitRaw(id: nat, request: RawRequest, key: Option<string>, result: CallResult, dbUp: bool)
      returns (outcome: Pc)
      requires repo.Valid()
      modifies this`calls, repo, redis`entries
      ensures repo.Valid() && Final(outcome)
      ensures (View(), outcome) == Solo(old(View()), id, RawJob(request, key), Start, result, dbUp, 4)
      ensures RawEnds(id, request, key, result, dbUp, old(View()), View(), outcome)
      ensures calls == old(calls) || calls == old(calls) + [Call(id, false, result)]
      ensures outcome.Replayed? ==> calls == old(calls) && repo.rows == old(repo.rows)
    {
      hide CacheSlot, ReadCache, ExtractTaskCode, ValidPath, RawEnds;
      SubmitRawEnds(View(), id, request, key, result, dbUp);
      var job := RawJob(request, key);
      if !ValidPath(request.path) {
        outcome := Rejected(BadPath, Unsubmitted);
        SoloStopsWhenFinal(View(), id, job, outcome, result, dbUp, 3);
        return;
      }
      var found := LookupIdempotency(job);
      outcome := match found
        case Hit(answer) => Replayed(answer)
        case Mismatch => Rejected(KeyReused, Unsubmitted)
        case Unreadable => Rejected(UnreadableCache, Unsubmitted)
        case Miss => Submit;
      assert outcome == AfterLookup(View(), job);
      if outcome != Submit {
        SoloStopsWhenFinal(View(), id, job, outcome, result, dbUp, 3);
        return;
      }
      calls := calls + [Call(id, false, result)];
      outcome := AfterCall(job, result);
      assert Solo(old(View()), id, job, Start, result, dbUp, 4) == Solo(View(), id, job, outcome, result, dbUp, 2);
      outcome := Complete(id, job, outcome, result, dbUp);
    }
  }
}
