/** One client running alone: a run of the whole system, and how it ends, written out case by case. */
module SubmissionSolo {
  import opened Wrappers
  import opened Json
  import opened Redis
  import opened TaskTable
  import opened RcsClient
  import opened Idempotency
  import opened Submission

  /** `n` steps of one client with nobody else moving. */
  function Solo(sh: Shared, id: nat, job: Job, pc: Pc, result: CallResult, dbUp: bool, n: nat): (Shared, Pc)
    decreases n
  {
    if n == 0 then (sh, pc)
    else
      var (sh', pc') := Act(sh, id, job, pc, result, dbUp);
      Solo(sh', id, job, pc', result, dbUp, n - 1)
  }

  lemma SoloStopsWhenFinal(sh: Shared, id: nat, job: Job, pc: Pc, result: CallResult, dbUp: bool, n: nat)
    requires Final(pc)
    ensures Solo(sh, id, job, pc, result, dbUp, n) == (sh, pc)
  {
  }

  /** A solo run is one of the interleavings of the whole system. */
  lemma {:induction false} SoloIsARun(w: World, id: nat, result: CallResult, dbUp: bool, n: nat)
    requires id < |w.clients|
    ensures var (sh, pc) := Solo(w.shared, id, w.clients[id].job, w.clients[id].pc, result, dbUp, n);
            Run(w, seq(n, _ => Advance(id, result, dbUp))) ==
            World(sh, w.clients[id := w.clients[id].(pc := pc)])
    decreases n
  {
    hide Act;
    if n == 0 {
      assert w.clients[id := w.clients[id]] == w.clients;
    } else {
      var e := Advance(id, result, dbUp);
      var next := Step(w, e);
      SoloIsARun(next, id, result, dbUp, n - 1);
      assert seq(n, _ => e) == [e] + seq(n - 1, _ => e);
      RunFromFront(w, e, seq(n - 1, _ => e));
    }
  }

  lemma RunFromFront(w: World, e: Event, es: seq<Event>)
    ensures Run(w, [e] + es) == Run(Step(w, e), es)
  {
    hide Step;
    RunSplits(w, [e], es);
    assert [e][..0] == [];
  }

  lemma {:induction false} RunSplits(w: World, front: seq<Event>, back: seq<Event>)
    ensures Run(w, front + back) == Run(Run(w, front), back)
  {
    hide Step;
    if back == [] {
      assert front + back == front;
    } else {
      var n := |back| - 1;
      assert (front + back)[..|front + back| - 1] == front + back[..n];
      RunSplits(w, front, back[..n]);
    }
  }

  // ---------------------------------------------------------------- the cache, written out

  /** An absent or empty key does not touch the cache. */
  predicate Keyed(key: Option<string>) {
    key.Some? && key.value != ""
  }

  /** What Redis answers under the prefix and the key, if there is a key to ask with. */
  function CachedUnder(sh: Shared, prefix: string, key: Option<string>): Option<Json> {
    if Keyed(key) then Lookup(sh.store, sh.now, prefix + key.value) else None
  }

  /** The cache afterwards: the entry under prefix and key for a day, and nothing else new. */
  predicate SavedUnder(before: Shared, after: Shared, prefix: string, key: Option<string>, entry: Json) {
    after.store == if Keyed(key) then before.store[prefix + key.value := Entry(entry, Some(before.now + 86400))] else before.store
  }

  /** No row has the code, and none has the key when there is one. */
  ghost predicate Free(rows: Table, code: string, key: Option<string>) {
    forall i | 0 <= i < |rows| :: rows[i].robotTaskCode != code && (key.Some? ==> rows[i].idempotencyKey != key)
  }

  lemma FreeIsAdmitted(rows: Table, row: TaskRow)
    ensures Free(rows, row.robotTaskCode, row.idempotencyKey) <==> Admits(rows, row)
  {
  }

  // ---------------------------------------------------------------- how create_task ends

  ghost predicate Carries(entry: Json, name: string, text: string) {
    entry.Obj? && name in entry.members && entry.members[name] == Str(text)
  }

  /** What a create call makes of a cached entry. */
  ghost predicate CreateHit(request: CreateRequest, entry: Json, outcome: Pc) {
    if !entry.Obj? then outcome == Rejected(UnreadableCache, Unsubmitted)
    else if !Carries(entry, "request_fingerprint", CreateFingerprint(request)) then
      outcome == Rejected(KeyReused, Unsubmitted)
    else if "response" in entry.members && entry.members["response"].Obj?
            && HasText(entry.members["response"].members, "robotTaskCode")
            && HasText(entry.members["response"].members, "status")
    then
      var response := entry.members["response"].members;
      outcome == Replayed(CreateAnswer(CreateResult(response["robotTaskCode"].s, response["status"].s, true)))
    else outcome == Rejected(UnreadableCache, Unsubmitted)
  }

  /** What a create call commits, caches and answers under the code it was given. */
  ghost predicate CreateCommitted(request: CreateRequest, key: Option<string>, code: string, before: Shared, after: Shared,
                                  outcome: Pc) {
    && after.rows == before.rows +
         [TaskRow(code, Pending, None, Some(request.sourceCode), Some(request.targetCode), key, None, None, None)]
    && outcome == Answered(CreateAnswer(CreateResult(code, "pending", false)))
    && SavedUnder(before, after, "idempotency:", key,
                  Obj(map[
                    "request_fingerprint" := Str(CreateFingerprint(request)),
                    "response" := Obj(map[
                      "robotTaskCode" := Str(code),
                      "status" := Str("pending"),
                      "cached" := Bool(false)])]))
  }

  /** How `create_task` ends, and what it leaves: every branch of it. */
  ghost predicate CreateEnds(id: nat, request: CreateRequest, key: Option<string>, result: CallResult, dbUp: bool,
                             before: Shared, after: Shared, outcome: Pc) {
    if CachedUnder(before, "idempotency:", key).Some? then
      after == before && CreateHit(request, CachedUnder(before, "idempotency:", key).value, outcome)
    else if request.robotType !in before.robotTypes then
      after == before && outcome == Rejected(UnknownRobotType, Unsubmitted)
    else
      && after.now == before.now && after.robotTypes == before.robotTypes
      && after.calls == before.calls + [Call(id, true, result)]
      && match result
         case Refused(e) =>
           after.rows == before.rows && after.store == before.store && outcome == Rejected(Upstream(e), Submitted)
         case Escaped5xx | EscapedNoObject =>
           after.rows == before.rows && after.store == before.store && outcome == Rejected(Unhandled, Submitted)
         case Reply(body) =>
           match ExtractTaskCode(body)
           case Broken =>
             after.rows == before.rows && after.store == before.store && outcome == Rejected(Unhandled, Submitted)
           case Missing =>
             && after.rows == before.rows && after.store == before.store
             && outcome == Rejected(Upstream(ClientError("RCS_MALFORMED_RESPONSE")), Submitted)
           case Code(code) =>
             if dbUp && Free(before.rows, code, key) then CreateCommitted(request, key, code, before, after, outcome)
             else after.rows == before.rows && after.store == before.store && outcome == Rejected(InsertRefused, Submitted)
  }

  lemma CreateLookupEnds(sh: Shared, request: CreateRequest, key: Option<string>)
    ensures var found, next := CachedUnder(sh, "idempotency:", key), AfterLookup(sh, CreateJob(request, key));
            if found.None? then next == Resolve else CreateHit(request, found.value, next)
  {
    hide Lookup, CreateFingerprint;
  }

  lemma CreateInsertEnds(sh: Shared, id: nat, request: CreateRequest, key: Option<string>, code: string,
                         reply: map<string, Json>, result: CallResult, dbUp: bool)
    ensures var (after, outcome) := Solo(sh, id, CreateJob(request, key), Insert(code, reply), result, dbUp, 2);
            && after.now == sh.now && after.robotTypes == sh.robotTypes && after.calls == sh.calls
            && if dbUp && Free(sh.rows, code, key) then CreateCommitted(request, key, code, sh, after, outcome)
               else after.rows == sh.rows && after.store == sh.store && outcome == Rejected(InsertRefused, Submitted)
  {
    hide CreateFingerprint, Admits, Free;
    FreeIsAdmitted(sh.rows, RowOf(CreateJob(request, key), code));
  }

  lemma CreateTaskEnds(sh: Shared, id: nat, request: CreateRequest, key: Option<string>, result: CallResult, dbUp: bool)
    ensures var (after, outcome) := Solo(sh, id, CreateJob(request, key), Start, result, dbUp, 5);
            CreateEnds(id, request, key, result, dbUp, sh, after, outcome)
  {
    hide CreateHit, CreateCommitted, CachedUnder, AfterLookup, ExtractTaskCode, Free;
    var job := CreateJob(request, key);
    CreateLookupEnds(sh, request, key);
    var looked := AfterLookup(sh, job);
    if CachedUnder(sh, "idempotency:", key).Some? {
      HitIsFinal(request, CachedUnder(sh, "idempotency:", key).value, looked);
      SoloStopsWhenFinal(sh, id, job, looked, result, dbUp, 4);
    } else if request.robotType !in sh.robotTypes {
      assert Solo(sh, id, job, Resolve, result, dbUp, 4) ==
          Solo(sh, id, job, Rejected(UnknownRobotType, Unsubmitted), result, dbUp, 3);
      SoloStopsWhenFinal(sh, id, job, Rejected(UnknownRobotType, Unsubmitted), result, dbUp, 3);
    } else {
      var called := sh.(calls := sh.calls + [Call(id, true, result)]);
      var next := AfterCall(job, result);
      if next.Insert? {
        CreateInsertEnds(called, id, request, key, next.code, next.reply, result, dbUp);
        CommittedIgnoresCalls(request, key, next.code, sh, called, Solo(called, id, job, next, result, dbUp, 2).0,
                              Solo(called, id, job, next, result, dbUp, 2).1);
      } else {
        SoloStopsWhenFinal(called, id, job, next, result, dbUp, 2);
      }
    }
  }

  lemma HitIsFinal(request: CreateRequest, entry: Json, outcome: Pc)
    requires CreateHit(request, entry, outcome)
    ensures Final(outcome)
  {
    hide CreateFingerprint;
  }

  lemma CommittedIgnoresCalls(request: CreateRequest, key: Option<string>, code: string, before: Shared, called: Shared,
                              after: Shared, outcome: Pc)
    requires called == before.(calls := called.calls)
    ensures CreateCommitted(request, key, code, called, after, outcome) ==
            CreateCommitted(request, key, code, before, after, outcome)
  {
    hide CreateFingerprint;
  }

  // ---------------------------------------------------------------- how submit_raw ends

  /** The path begins with the RCS prefix and has no two dots in a row. */
  ghost predicate GoodPath(path: string) {
    "/rcs/rtas" <= path && forall front: string, back: string :: path != front + ".." + back
  }

  lemma GoodPathIsValid(path: string)
    ensures GoodPath(path) <==> ValidPath(path)
  {
    if i :| 0 <= i < |path| - 1 && path[i] == '.' && path[i + 1] == '.' {
      assert path == path[..i] + ".." + path[i + 2..];
    }
    if front: string, back: string :| path == front + ".." + back {
      assert path[|front|] == '.' && path[|front| + 1] == '.';
    }
  }

  ghost predicate OptionalTextUnder(m: map<string, Json>, name: string, text: Option<string>) {
    if name !in m || m[name] == Null then text == None else m[name].Str? && text == Some(m[name].s)
  }

  /** A flag that is missing is off. */
  ghost predicate FlagUnder(m: map<string, Json>, name: string, flag: bool) {
    if name !in m then !flag else m[name] == Bool(flag)
  }

  /** The cached members validate as this result. */
  ghost predicate ReadsAs(m: map<string, Json>, r: RawResult) {
    && OptionalTextUnder(m, "robotTaskCode", r.robotTaskCode)
    && OptionalTextUnder(m, "status", r.status)
    && FlagUnder(m, "cached", r.cached)
    && FlagUnder(m, "persisted", r.persisted)
    && "rcsResponse" in m && m["rcsResponse"] == Obj(r.rcs)
  }

  /** What a raw call makes of a cached entry. */
  ghost predicate RawHit(request: RawRequest, entry: Json, outcome: Pc) {
    if !entry.Obj? then outcome == Rejected(UnreadableCache, Unsubmitted)
    else if !Carries(entry, "fingerprint", RawFingerprint(request)) then outcome == Rejected(KeyReused, Unsubmitted)
    else if "result" in entry.members && entry.members["result"].Obj?
            && exists r :: ReadsAs(entry.members["result"].members, r)
    then
      exists r :: ReadsAs(entry.members["result"].members, r) && outcome == Replayed(RawAnswer(r))
    else outcome == Rejected(UnreadableCache, Unsubmitted)
  }

  /** The answer, and the cache it leaves. */
  ghost predicate RawAnswered(request: RawRequest, key: Option<string>, r: RawResult, before: Shared, after: Shared,
                              outcome: Pc) {
    && outcome == Answered(RawAnswer(r))
    && SavedUnder(before, after, "idempotency:rcs_raw:", key,
                  Obj(map[
                    "fingerprint" := Str(RawFingerprint(request)),
                    "result" := Obj(map[
                      "robotTaskCode" := if r.robotTaskCode.Some? then Str(r.robotTaskCode.value) else Null,
                      "status" := if r.status.Some? then Str(r.status.value) else Null,
                      "cached" := Bool(r.cached),
                      "persisted" := Bool(r.persisted),
                      "rcsResponse" := Obj(r.rcs)])]))
  }

  /** The rows before, and one pending row with the key, the code and what the body spells out. */
  ghost predicate RawRowAdded(request: RawRequest, key: Option<string>, code: string, before: Table, after: Table) {
    exists source, target :: MetaFits(request.body, source, target)
      && after == before + [TaskRow(code, Pending, None, source, target, key, None, None, None)]
  }

  /** How `submit_raw` ends, and what it leaves: every branch of it. */
  ghost predicate RawEnds(id: nat, request: RawRequest, key: Option<string>, result: CallResult, dbUp: bool,
                          before: Shared, after: Shared, outcome: Pc) {
    if !GoodPath(request.path) then after == before && outcome == Rejected(BadPath, Unsubmitted)
    else if CachedUnder(before, "idempotency:rcs_raw:", key).Some? then
      after == before && RawHit(request, CachedUnder(before, "idempotency:rcs_raw:", key).value, outcome)
    else
      && after.now == before.now && after.robotTypes == before.robotTypes
      && after.calls == before.calls + [Call(id, false, result)]
      && match result
         case Refused(e) =>
           after.rows == before.rows && after.store == before.store && outcome == Rejected(Upstream(e), Submitted)
         case Escaped5xx | EscapedNoObject =>
           && after.rows == before.rows && after.store == before.store
           && outcome == Rejected(Upstream(ClientError("RCS_NETWORK_ERROR")), Submitted)
         case Reply(body) =>
           match ExtractTaskCode(body)
           case Broken =>
             after.rows == before.rows && after.store == before.store && outcome == Rejected(Unhandled, Submitted)
           case Missing =>
             && after.rows == before.rows
             && RawAnswered(request, key, RawResult(None, None, false, false, body), before, after, outcome)
           case Code(code) =>
             if !request.persistTask then
               && after.rows == before.rows
               && RawAnswered(request, key, RawResult(Some(code), Some("pending"), false, false, body), before, after, outcome)
             else if dbUp && Free(before.rows, code, key) then
               && RawRowAdded(request, key, code, before.rows, after.rows)
               && RawAnswered(request, key, RawResult(Some(code), Some("pending"), false, true, body), before, after, outcome)
             else after.rows == before.rows && after.store == before.store && outcome == Rejected(InsertRefused, Submitted)
  }

  lemma RawEntryEnds(request: RawRequest, entry: Json)
    ensures var next := match ReadRawEnvelope(Some(entry), RawFingerprint(request))
                        case Hit(r) => Replayed(RawAnswer(r))
                        case Mismatch => Rejected(KeyReused, Unsubmitted)
                        case _ => Rejected(UnreadableCache, Unsubmitted);
            RawHit(request, entry, next)
  {
    hide RawFingerprint;
    var read := ReadRawEnvelope(Some(entry), RawFingerprint(request));
    if read.Hit? {
      assert ReadsAs(entry.members["result"].members, read.value);
    }
  }

  lemma RawLookupEnds(sh: Shared, request: RawRequest, key: Option<string>)
    requires ValidPath(request.path)
    ensures var found, next := CachedUnder(sh, "idempotency:rcs_raw:", key), AfterLookup(sh, RawJob(request, key));
            if found.None? then next == Submit else RawHit(request, found.value, next)
  {
    hide Lookup, RawFingerprint, ValidPath, RawHit, ReadRawEnvelope;
    var found := CachedUnder(sh, "idempotency:rcs_raw:", key);
    if found.Some? {
      RawEntryEnds(request, found.value);
      ReadMisses(found.value, RawFingerprint(request));
    } else {
      MissWithoutEntry(RawFingerprint(request));
    }
  }

  lemma MissWithoutEntry(fingerprint: string)
    ensures ReadRawEnvelope(None, fingerprint) == Miss
  {
  }

  lemma ReadMisses(entry: Json, fingerprint: string)
    ensures ReadRawEnvelope(Some(entry), fingerprint) != Miss
  {
  }

  lemma RawSaveEnds(sh: Shared, id: nat, request: RawRequest, key: Option<string>, r: RawResult, result: CallResult,
                    dbUp: bool, n: nat)
    requires n > 0
    ensures var (after, outcome) := Solo(sh, id, RawJob(request, key), Finish(RawJob(request, key), RawAnswer(r)), result, dbUp, n);
            && after == sh.(store := after.store)
            && RawAnswered(request, key, r, sh, after, outcome)
  {
    hide RawFingerprint;
    var job := RawJob(request, key);
    var (next, pc) := Act(sh, id, job, Finish(job, RawAnswer(r)), result, dbUp);
    assert pc == Answered(RawAnswer(r));
    SoloStopsWhenFinal(next, id, job, pc, result, dbUp, n - 1);
  }

  lemma RawInsertEnds(sh: Shared, id: nat, request: RawRequest, key: Option<string>, code: string,
                      reply: map<string, Json>, result: CallResult, dbUp: bool)
    ensures var (after, outcome) := Solo(sh, id, RawJob(request, key), Insert(code, reply), result, dbUp, 2);
            && after.now == sh.now && after.robotTypes == sh.robotTypes && after.calls == sh.calls
            && if dbUp && Free(sh.rows, code, key) then
                 && RawRowAdded(request, key, code, sh.rows, after.rows)
                 && RawAnswered(request, key, RawResult(Some(code), Some("pending"), false, true, reply), sh, after, outcome)
               else after.rows == sh.rows && after.store == sh.store && outcome == Rejected(InsertRefused, Submitted)
  {
    hide RawFingerprint, Admits, Free, MetaFromBody, MetaFits, RawAnswered;
    var job := RawJob(request, key);
    var row := RowOf(job, code);
    FreeIsAdmitted(sh.rows, row);
    MetaFromBodyFits(request.body);
    if dbUp && Admits(sh.rows, row) {
      var r := RawResult(Some(code), Some("pending"), false, true, reply);
      var inserted := sh.(rows := sh.rows + [row]);
      assert Act(sh, id, job, Insert(code, reply), result, dbUp) == (inserted, Finish(job, RawAnswer(r)));
      RawSaveEnds(inserted, id, request, key, r, result, dbUp, 1);
      RawAnsweredIgnores(request, key, r, sh, inserted, Solo(inserted, id, job, Finish(job, RawAnswer(r)), result, dbUp, 1).0,
                         Solo(inserted, id, job, Finish(job, RawAnswer(r)), result, dbUp, 1).1);
    }
  }

  /** Only the cache and the clock of the state before matter. */
  lemma RawAnsweredIgnores(request: RawRequest, key: Option<string>, r: RawResult, before: Shared, other: Shared,
                           after: Shared, outcome: Pc)
    requires other.store == before.store && other.now == before.now
    ensures RawAnswered(request, key, r, other, after, outcome) == RawAnswered(request, key, r, before, after, outcome)
  {
    hide RawFingerprint;
  }

  lemma SubmitRawEnds(sh: Shared, id: nat, request: RawRequest, key: Option<string>, result: CallResult, dbUp: bool)
    ensures var (after, outcome) := Solo(sh, id, RawJob(request, key), Start, result, dbUp, 4);
            RawEnds(id, request, key, result, dbUp, sh, after, outcome)
  {
    hide GoodPath, ValidPath, RawHit, RawAnswered, RawRowAdded, CachedUnder, AfterLookup, ExtractTaskCode, Free, Finish;
    var job := RawJob(request, key);
    GoodPathIsValid(request.path);
    var looked := AfterLookup(sh, job);
    if !ValidPath(request.path) {
      BadPathEnds(sh, job);
      SoloStopsWhenFinal(sh, id, job, looked, result, dbUp, 3);
    } else {
      RawLookupEnds(sh, request, key);
      if CachedUnder(sh, "idempotency:rcs_raw:", key).Some? {
        RawHitIsFinal(request, CachedUnder(sh, "idempotency:rcs_raw:", key).value, looked);
        SoloStopsWhenFinal(sh, id, job, looked, result, dbUp, 3);
      } else {
        CallEnds(sh, id, request, key, result, dbUp);
      }
    }
  }

  lemma BadPathEnds(sh: Shared, job: Job)
    requires job.RawJob? && !ValidPath(job.raw.path)
    ensures AfterLookup(sh, job) == Rejected(BadPath, Unsubmitted)
  {
  }

  lemma RawHitIsFinal(request: RawRequest, entry: Json, outcome: Pc)
    requires RawHit(request, entry, outcome)
    ensures Final(outcome)
  {
    hide RawFingerprint;
  }

  lemma FinishEnds()
    ensures forall job, a :: Finish(job, a).Save? || Finish(job, a).Answered?
  {
  }

  /** From the call on. */
  lemma CallEnds(sh: Shared, id: nat, request: RawRequest, key: Option<string>, result: CallResult, dbUp: bool)
    requires GoodPath(request.path) && CachedUnder(sh, "idempotency:rcs_raw:", key).None?
    ensures var (after, outcome) := Solo(sh, id, RawJob(request, key), Submit, result, dbUp, 3);
            RawEnds(id, request, key, result, dbUp, sh, after, outcome)
  {
    hide GoodPath, RawHit, RawAnswered, RawRowAdded, CachedUnder, ExtractTaskCode, Free, Finish;
    var job := RawJob(request, key);
    var called := sh.(calls := sh.calls + [Call(id, false, result)]);
    var next := AfterCall(job, result);
    var (after, outcome) := Solo(called, id, job, next, result, dbUp, 2);
    assert Solo(sh, id, job, Submit, result, dbUp, 3) == (after, outcome);
    FinishEnds();
    if next.Insert? {
      assert result.Reply? && ExtractTaskCode(result.body) == Code(next.code) && next.reply == result.body;
      RawInsertEnds(called, id, request, key, next.code, next.reply, result, dbUp);
      RawAnsweredIgnores(request, key, RawResult(Some(next.code), Some("pending"), false, true, next.reply), sh, called,
                         after, outcome);
    } else if next.Rejected? {
      SoloStopsWhenFinal(called, id, job, next, result, dbUp, 2);
    } else {
      var r := UnpersistedAnswer(if ExtractTaskCode(result.body).Code? then Some(ExtractTaskCode(result.body).code) else None,
                                 result.body).result;
      assert next == Finish(job, RawAnswer(r));
      RawSaveEnds(called, id, request, key, r, result, dbUp, 2);
      RawAnsweredIgnores(request, key, r, sh, called, after, outcome);
    }
  }
}
