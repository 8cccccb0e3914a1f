/**
 * Both submitting endpoints as one small-step system. Any number of clients run `create_task` or
 * `submit_raw`, one atomic step per await; steps interleave freely with feedback workers, the
 * clock, lost cache entries and crashes. RCS may be called again for a key it has already served.
 */
module Submission {
  import opened Wrappers
  import opened Json
  import opened Redis
  import opened TaskTable
  import opened RcsClient
  import opened Idempotency
  import opened Feedback

  // ---------------------------------------------------------------- clients

  datatype Job =
    | CreateJob(create: CreateRequest, key: Option<string>)
    | RawJob(raw: RawRequest, key: Option<string>)

  datatype Answer = CreateAnswer(created: CreateResult) | RawAnswer(result: RawResult)

  /** Why a call ends in an error response; `Unhandled` is any exception no handler translates. */
  datatype Failure =
    | BadPath
    | KeyReused
    | UnreadableCache
    | UnknownRobotType
    | Upstream(error: RcsError)
    | Unhandled
    | InsertRefused

  /** How far a call has got: before RCS, after RCS, after the committed insert. */
  datatype Stage = Unsubmitted | Submitted | Committed

  /** The next atomic step of a call, or how it ended. */
  datatype Pc =
    | Start
    | Resolve
    | Submit
    | Insert(code: string, reply: map<string, Json>)
    | Save(answer: Answer)
    | Answered(answer: Answer)
    | Replayed(answer: Answer)
    | Rejected(failure: Failure, at: Stage)
    | Crashed(at: Stage)

  datatype Client = Client(job: Job, pc: Pc)

  predicate Final(pc: Pc) {
    pc.Answered? || pc.Replayed? || pc.Rejected? || pc.Crashed?
  }

  predicate SameKind(job: Job, a: Answer) {
    job.CreateJob? == a.CreateAnswer?
  }

  predicate Persisted(a: Answer) {
    a.RawAnswer? ==> a.result.persisted
  }

  function AnswerCode(a: Answer): Option<string> {
    if a.CreateAnswer? then Some(a.created.robotTaskCode) else a.result.robotTaskCode
  }

  function StageOf(pc: Pc): Stage {
    match pc
    case Insert(_, _) => Submitted
    case Save(a) => if Persisted(a) then Committed else Submitted
    case Answered(a) => if Persisted(a) then Committed else Submitted
    case Rejected(_, at) => at
    case Crashed(at) => at
    case _ => Unsubmitted
  }

  /** Where a call caches its answer; an absent or empty key never touches the cache. */
  function CacheSlot(job: Job): Option<string> {
    if job.key.None? || job.key.value == "" then None
    else Some(if job.CreateJob? then IdempotencyKey(job.key.value) else RawIdempotencyKey(job.key.value))
  }

  function Fingerprint(job: Job): string {
    if job.CreateJob? then CreateFingerprint(job.create) else RawFingerprint(job.raw)
  }

  function Envelope(fingerprint: string, a: Answer): Json {
    if a.CreateAnswer? then CreateEnvelope(fingerprint, a.created) else RawEnvelope(fingerprint, a.result)
  }

  function ReadCache(job: Job, raw: Option<Json>): Cached<Answer> {
    if job.CreateJob? then
      match ReadCreateEnvelope(raw, Fingerprint(job))
      case Hit(r) => Hit(CreateAnswer(r))
      case Miss => Miss
      case Mismatch => Mismatch
      case Unreadable => Unreadable
    else
      match ReadRawEnvelope(raw, Fingerprint(job))
      case Hit(r) => Hit(RawAnswer(r))
      case Miss => Miss
      case Mismatch => Mismatch
      case Unreadable => Unreadable
  }

  /** What a saved answer looks like when it is served again; only `create_task` marks it cached. */
  function AsReplay(a: Answer): Answer {
    if a.CreateAnswer? then CreateAnswer(a.created.(cached := true)) else a
  }

  // ---------------------------------------------------------------- rows and answers of a job

  /** A step's `code`, when the step is an object and its code a text. */
  function StepCode(step: Json): Option<string> {
    if step.Obj? && Get(step.members, "code").Str? then Some(Get(step.members, "code").s) else None
  }

  function StepCodes(steps: seq<Json>): seq<string> {
    if steps == [] then []
    else StepCodes(steps[..|steps| - 1]) +
         if StepCode(steps[|steps| - 1]).Some? then [StepCode(steps[|steps| - 1]).value] else []
  }

  /** `" → ".join(codes)` */
  function Joined(codes: seq<string>): string {
    if codes == [] then ""
    else if |codes| == 1 then codes[0]
    else codes[0] + " \U{2192} " + Joined(codes[1..])
  }

  function TextField(members: map<string, Json>, k: string): Option<string> {
    if Get(members, k).Str? then Some(Get(members, k).s) else None
  }

  /** Best-effort source and target of a raw body, whatever its shape. */
  function MetaFromBody(body: Option<map<string, Json>>): (Option<string>, Option<string>) {
    var m := BodyOrEmpty(body);
    var route := Get(m, "targetRoute");
    var target :=
      if route.Arr? && StepCodes(route.items) != [] then Some(Joined(StepCodes(route.items)))
      else if route.Obj? then TextField(route.members, "targetCode")
      else None;
    (TextField(m, "sourceCode"), OrElse(target, TextField(m, "targetCode")))
  }

  // ---------------------------------------------------------------- source and target, written out

  ghost predicate HasText(members: map<string, Json>, name: string) {
    name in members && members[name].Str?
  }

  /** The text the members hold under the name, or nothing when there is none. */
  ghost predicate TextUnder(members: map<string, Json>, name: string, text: Option<string>) {
    if HasText(members, name) then text == Some(members[name].s) else text == None
  }

  ghost predicate HasCode(step: Json) {
    step.Obj? && HasText(step.members, "code")
  }

  /** `at` lists in order all the steps that have a code, and `codes` their codes. */
  ghost predicate CodesAt(steps: seq<Json>, at: seq<nat>, codes: seq<string>) {
    && |at| == |codes|
    && (forall j, k | 0 <= j < k < |at| :: at[j] < at[k])
    && (forall j | 0 <= j < |at| :: at[j] < |steps| && HasCode(steps[at[j]]) && steps[at[j]].members["code"].s == codes[j])
    && (forall i | 0 <= i < |steps| && HasCode(steps[i]) :: i in at)
  }

  ghost predicate CodesOf(steps: seq<Json>, codes: seq<string>) {
    exists at :: CodesAt(steps, at, codes)
  }

  /** The text is the codes with an arrow between each two. */
  ghost predicate ArrowJoined(text: string, codes: seq<string>)
    requires codes != []
    decreases |codes|
  {
    var n := |codes| - 1;
    if n == 0 then text == codes[0]
    else exists front :: ArrowJoined(front, codes[..n]) && text == front + " \U{2192} " + codes[n]
  }

  /** The codes of a route's steps, joined; without any code the body's own target. */
  ghost predicate TargetOfSteps(m: map<string, Json>, steps: seq<Json>, codes: seq<string>, target: Option<string>) {
    && CodesOf(steps, codes)
    && if codes == [] then TextUnder(m, "targetCode", target) else target.Some? && ArrowJoined(target.value, codes)
  }

  /** What a row must hold of a raw body. */
  ghost predicate MetaFits(body: Option<map<string, Json>>, source: Option<string>, target: Option<string>) {
    var m := if body.Some? then body.value else map[];
    && TextUnder(m, "sourceCode", source)
    && if "targetRoute" in m && m["targetRoute"].Arr? then
         exists codes :: TargetOfSteps(m, m["targetRoute"].items, codes, target)
       else if "targetRoute" in m && m["targetRoute"].Obj? && HasText(m["targetRoute"].members, "targetCode") then
         TextUnder(m["targetRoute"].members, "targetCode", target)
       else TextUnder(m, "targetCode", target)
  }

  lemma CodesAtOneMore(steps: seq<Json>, at: seq<nat>, codes: seq<string>)
    requires steps != [] && CodesAt(steps[..|steps| - 1], at, codes)
    ensures var n := |steps| - 1;
            if HasCode(steps[n]) then CodesAt(steps, at + [n], codes + [steps[n].members["code"].s])
            else CodesAt(steps, at, codes)
  {
    hide HasText;
    var n := |steps| - 1;
    assert forall i | 0 <= i < n :: steps[..n][i] == steps[i];
    var at' := if HasCode(steps[n]) then at + [n] else at;
    forall i | 0 <= i < |steps| && HasCode(steps[i])
      ensures i in at'
    {
      if i < n {
        assert HasCode(steps[..n][i]) && i in at;
      }
    }
  }

  lemma {:induction false} StepCodesAt(steps: seq<Json>) returns (at: seq<nat>)
    ensures CodesAt(steps, at, StepCodes(steps))
  {
    at := [];
    if steps != [] {
      var n := |steps| - 1;
      at := StepCodesAt(steps[..n]);
      CodesAtOneMore(steps, at, StepCodes(steps[..n]));
      hide CodesAt;
      if HasCode(steps[n]) {
        at := at + [n];
      }
    }
  }

  lemma {:induction false} JoinedOneMore(codes: seq<string>, last: string)
    requires codes != []
    ensures Joined(codes + [last]) == Joined(codes) + " \U{2192} " + last
  {
    if |codes| == 1 {
      assert (codes + [last])[1..] == [last];
    } else {
      JoinedOneMore(codes[1..], last);
      assert (codes + [last])[1..] == codes[1..] + [last];
    }
  }

  lemma {:induction false} JoinedIsArrowJoined(codes: seq<string>)
    requires codes != []
    ensures ArrowJoined(Joined(codes), codes)
    decreases |codes|
  {
    var n := |codes| - 1;
    if n > 0 {
      JoinedIsArrowJoined(codes[..n]);
      JoinedOneMore(codes[..n], codes[n]);
      assert codes == codes[..n] + [codes[n]];
    }
  }

  lemma StepsTarget(m: map<string, Json>, steps: seq<Json>, target: Option<string>)
    requires target == if StepCodes(steps) != [] then Some(Joined(StepCodes(steps))) else TextField(m, "targetCode")
    ensures TargetOfSteps(m, steps, StepCodes(steps), target)
  {
    hide StepCodes, Joined, ArrowJoined, CodesAt;
    var at := StepCodesAt(steps);
    if StepCodes(steps) != [] {
      JoinedIsArrowJoined(StepCodes(steps));
    }
  }

  lemma MetaFromBodyFits(body: Option<map<string, Json>>)
    ensures MetaFits(body, MetaFromBody(body).0, MetaFromBody(body).1)
  {
    hide StepCodes, Joined, TargetOfSteps;
    var m := BodyOrEmpty(body);
    var route := Get(m, "targetRoute");
    if route.Arr? {
      StepsTarget(m, route.items, MetaFromBody(body).1);
    }
  }

  function RowOf(job: Job, code: string): TaskRow {
    if job.CreateJob? then
      FreshRow(code, Pending, Some(job.create.sourceCode), Some(job.create.targetCode), None, job.key)
    else
      var (source, target) := MetaFromBody(job.raw.body);
      FreshRow(code, Pending, source, target, None, job.key)
  }

  function CommittedAnswer(job: Job, code: string, reply: map<string, Json>): Answer {
    if job.CreateJob? then CreateAnswer(CreateResult(code, "pending", false))
    else RawAnswer(RawResult(Some(code), Some("pending"), false, true, reply))
  }

  function UnpersistedAnswer(code: Option<string>, reply: map<string, Json>): Answer {
    RawAnswer(RawResult(code, if code.Some? then Some("pending") else None, false, false, reply))
  }

  // ---------------------------------------------------------------- one client's steps

  /** One call of the RCS client; the attempts of a signed GET, which the client retries, are inside one call. */
  datatype Call = Call(client: nat, byCreate: bool, result: CallResult)

  datatype Shared = Shared(rows: Table, store: Store, now: nat, robotTypes: map<string, string>, calls: seq<Call>)

  function Finish(job: Job, a: Answer): Pc {
    if CacheSlot(job).Some? then Save(a) else Answered(a)
  }

  function AfterMiss(job: Job): Pc {
    if job.CreateJob? then Resolve else Submit
  }

  function AfterLookup(sh: Shared, job: Job): Pc {
    if job.RawJob? && !ValidPath(job.raw.path) then Rejected(BadPath, Unsubmitted)
    else if CacheSlot(job).None? then AfterMiss(job)
    else
      match ReadCache(job, Lookup(sh.store, sh.now, CacheSlot(job).value))
      case Miss => AfterMiss(job)
      case Hit(a) => Replayed(a)
      case Mismatch => Rejected(KeyReused, Unsubmitted)
      case Unreadable => Rejected(UnreadableCache, Unsubmitted)
  }

  function AfterCall(job: Job, result: CallResult): Pc {
    match result
    case Refused(e) => Rejected(Upstream(e), Submitted)
    case Escaped5xx | EscapedNoObject =>
      if job.CreateJob? then Rejected(Unhandled, Submitted)
      else Rejected(Upstream(ClientError(NETWORK_CODE)), Submitted)
    case Reply(body) =>
      match ExtractTaskCode(body)
      case Broken => Rejected(Unhandled, Submitted)
      case Missing =>
        if job.CreateJob? then Rejected(Upstream(ClientError("RCS_MALFORMED_RESPONSE")), Submitted)
        else Finish(job, UnpersistedAnswer(None, body))
      case Code(code) =>
        if job.CreateJob? || job.raw.persistTask then Insert(code, body)
        else Finish(job, UnpersistedAnswer(Some(code), body))
  }

  /**
   * The next atomic step of client `id`. `result` is what RCS answers if this step submits, `dbUp`
   * whether the database accepts a commit if this step inserts.
   */
  function Act(sh: Shared, id: nat, job: Job, pc: Pc, result: CallResult, dbUp: bool): (Shared, Pc) {
    match pc
    case Start => (sh, AfterLookup(sh, job))
    case Resolve =>
      (sh, if job.CreateJob? && job.create.robotType !in sh.robotTypes then Rejected(UnknownRobotType, Unsubmitted)
           else Submit)
    case Submit => (sh.(calls := sh.calls + [Call(id, job.CreateJob?, result)]), AfterCall(job, result))
    case Insert(code, reply) =>
      if dbUp && Admits(sh.rows, RowOf(job, code))
      then (sh.(rows := sh.rows + [RowOf(job, code)]), Finish(job, CommittedAnswer(job, code, reply)))
      else (sh, Rejected(InsertRefused, Submitted))
    case Save(a) =>
      if CacheSlot(job).None? then (sh, Answered(a))
      else
        (sh.(store := Stored(sh.store, sh.now, CacheSlot(job).value, Envelope(Fingerprint(job), a),
                             IDEMPOTENCY_KEY_TTL_SECONDS)),
         Answered(a))
    case _ => (sh, pc)
  }

  // ---------------------------------------------------------------- the whole system

  datatype World = World(shared: Shared, clients: seq<Client>)

  /** `Crash` stands for any exception or process death between two awaits. */
  datatype Event =
    | Advance(client: nat, result: CallResult, dbUp: bool)
    | Crash(client: nat)
    | Evict(slot: string)
    | Tick(seconds: nat)
    | Worker(payload: Payload)

  function Step(w: World, e: Event): World {
    match e
    case Advance(i, result, dbUp) =>
      if i >= |w.clients| then w
      else
        var c := w.clients[i];
        var (sh, pc) := Act(w.shared, i, c.job, c.pc, result, dbUp);
        World(sh, w.clients[i := c.(pc := pc)])
    case Crash(i) =>
      if i >= |w.clients| || Final(w.clients[i].pc) then w
      else w.(clients := w.clients[i := w.clients[i].(pc := Crashed(StageOf(w.clients[i].pc)))])
    case Evict(slot) => w.(shared := w.shared.(store := w.shared.store - {slot}))
    case Tick(seconds) => w.(shared := w.shared.(now := w.shared.now + seconds))
    case Worker(p) =>
      var d := Received(p, w.shared.now);
      if d.None? then w else w.(shared := w.shared.(rows := Process(w.shared.rows, d.value)))
  }

  function Run(w: World, es: seq<Event>): World {
    if es == [] then w else Step(Run(w, es[..|es| - 1]), es[|es| - 1])
  }

  /** Any sound table, an empty cache, no calls yet, and any number of clients about to begin. */
  ghost predicate Initial(w: World) {
    && Unique(w.shared.rows)
    && w.shared.store == map[]
    && w.shared.calls == []
    && forall c | c in w.clients :: c.pc.Start?
  }
}
