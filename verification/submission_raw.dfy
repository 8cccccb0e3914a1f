/**
 * Raw submissions that may not persist: exactly when the successes of a key, of both endpoints
 * together, agree and name a committed row, the runs in which they do not, and the run in which a
 * raw call overwrites the envelope of a `create_task`.
 */
module SubmissionRaw {
  import opened Wrappers
  import opened Json
  import opened Redis
  import opened TaskTable
  import opened RcsClient
  import opened Idempotency
  import opened Submission
  import opened SubmissionSafety
  import opened SubmissionSolo
  import opened SubmissionAccounting

  // ---------------------------------------------------------------- what each client keeps

  /** A raw call past its path check has a valid path, and asked to persist it persists every code. */
  predicate RawInOrder(c: Client) {
    c.job.RawJob? ==>
      && (c.pc.Resolve? || c.pc.Submit? || c.pc.Insert? || c.pc.Save? || Succeeded(c) ==> ValidPath(c.job.raw.path))
      && (c.job.raw.persistTask && (c.pc.Save? || c.pc.Answered?) && AnswerCode(c.pc.answer).Some? ==>
            Persisted(c.pc.answer))
  }

  lemma ActKeepsRawInOrder(sh: Shared, id: nat, c: Client, result: CallResult, dbUp: bool)
    requires RawInOrder(c)
    ensures RawInOrder(c.(pc := Act(sh, id, c.job, c.pc, result, dbUp).1))
  {
    hide ValidPath, ReadCache, Lookup, ExtractTaskCode, MetaFromBody, Envelope, Fingerprint, CacheSlot, Stored, Admits;
  }

  ghost predicate AllRawInOrder(w: World) {
    forall i | 0 <= i < |w.clients| :: RawInOrder(w.clients[i])
  }

  lemma StepKeepsRawInOrder(w: World, e: Event)
    requires AllRawInOrder(w)
    ensures AllRawInOrder(Step(w, e))
  {
    hide Act, RawInOrder;
    if e.Advance? && e.client < |w.clients| {
      ActKeepsRawInOrder(w.shared, e.client, w.clients[e.client], e.result, e.dbUp);
    } else if e.Crash? && e.client < |w.clients| {
      CrashedInOrder(w.clients[e.client].job, StageOf(w.clients[e.client].pc));
    }
  }

  lemma CrashedInOrder(job: Job, at: Stage)
    ensures RawInOrder(Client(job, Crashed(at)))
  {
  }

  lemma {:induction false} RunKeepsRawInOrder(w: World, es: seq<Event>)
    requires Initial(w)
    ensures AllRawInOrder(Run(w, es))
  {
    hide Step;
    if es == [] {
      assert forall i | 0 <= i < |w.clients| :: w.clients[i] in w.clients;
    } else {
      hide AllRawInOrder;
      RunKeepsRawInOrder(w, es[..|es| - 1]);
      StepKeepsRawInOrder(Run(w, es[..|es| - 1]), es[|es| - 1]);
    }
  }

  // ---------------------------------------------------------------- the steps of an undisturbed raw call

  /** The smallest reply that grants a code. */
  function ReplyOf(code: string): map<string, Json> {
    map["robotTaskCode" := Str(code)]
  }

  function Granting(i: nat, code: string): Event {
    Advance(i, Reply(ReplyOf(code)), true)
  }

  /** A raw call that will not persist and has found nothing in the cache is told the code RCS grants. */
  function TransientAnswer(code: string): Answer {
    UnpersistedAnswer(Some(code), ReplyOf(code))
  }

  predicate Transient(job: Job) {
    job.RawJob? && ValidPath(job.raw.path) && !job.raw.persistTask
  }

  predicate FindsNothing(sh: Shared, job: Job) {
    CacheSlot(job).Some? ==> Lookup(sh.store, sh.now, CacheSlot(job).value).None?
  }

  lemma LookupStep(w: World, i: nat, code: string)
    requires i < |w.clients| && w.clients[i].pc.Start? && w.clients[i].job.RawJob?
    requires ValidPath(w.clients[i].job.raw.path) && FindsNothing(w.shared, w.clients[i].job)
    ensures Step(w, Granting(i, code)) == w.(clients := w.clients[i := w.clients[i].(pc := Submit)])
  {
    hide ValidPath, CacheSlot, Lookup;
    ReadsOwnEnvelopes(w.clients[i].job, "", TransientAnswer(code));
  }

  lemma CallStep(w: World, i: nat, code: string)
    requires i < |w.clients| && w.clients[i].pc.Submit? && Transient(w.clients[i].job) && code != ""
    ensures var job, w' := w.clients[i].job, Step(w, Granting(i, code));
            && w'.shared == w.shared.(calls := w'.shared.calls)
            && w'.clients == w.clients[i := Client(job, Finish(job, TransientAnswer(code)))]
  {
    hide ValidPath, CacheSlot;
    assert ExtractTaskCode(ReplyOf(code)) == Code(code);
  }

  lemma SaveStep(w: World, i: nat, code: string, a: Answer)
    requires i < |w.clients| && w.clients[i].pc == Finish(w.clients[i].job, a)
    ensures var job, w' := w.clients[i].job, Step(w, Granting(i, code));
            && w'.clients == w.clients[i := Client(job, Answered(a))]
            && w'.shared == w.shared.(store := w'.shared.store)
            && w'.shared.store == if CacheSlot(job).None? then w.shared.store
                                  else Stored(w.shared.store, w.shared.now, CacheSlot(job).value,
                                              Envelope(Fingerprint(job), a), IDEMPOTENCY_KEY_TTL_SECONDS)
  {
    hide CacheSlot, Envelope, Fingerprint, Stored;
    assert w.clients[i := w.clients[i]] == w.clients;
  }

  /** Alone, such a call is answered with a code that no row carries. */
  lemma TransientRun(w: World, i: nat, code: string)
    requires Initial(w) && i < |w.clients| && Transient(w.clients[i].job) && code != ""
    ensures var e := Granting(i, code);
            var w' := Run(w, [e, e, e]);
            && w'.clients == w.clients[i := Client(w.clients[i].job, Answered(TransientAnswer(code)))]
            && w'.shared.rows == w.shared.rows
            && w'.shared.now == w.shared.now
            && w'.shared.store == if CacheSlot(w.clients[i].job).None? then w.shared.store
                                  else Stored(w.shared.store, w.shared.now, CacheSlot(w.clients[i].job).value,
                                              Envelope(Fingerprint(w.clients[i].job), TransientAnswer(code)),
                                              IDEMPOTENCY_KEY_TTL_SECONDS)
  {
    hide Step, CacheSlot, Envelope, Fingerprint, Stored, ValidPath;
    var e := Granting(i, code);
    assert w.clients[i] in w.clients;
    LookupStep(w, i, code);
    var w1 := Step(w, e);
    CallStep(w1, i, code);
    var w2 := Step(w1, e);
    SaveStep(w2, i, code, TransientAnswer(code));
    ThreeSteps(w, e, e, e);
  }

  lemma ThreeSteps(w: World, a: Event, b: Event, c: Event)
    ensures Run(w, [a, b, c]) == Step(Step(Step(w, a), b), c)
  {
    hide Step;
    assert [a, b, c] == [a] + [b, c] && [b, c] == [b] + [c] && [c] == [c] + [];
    RunFromFront(w, a, [b, c]);
    RunFromFront(Step(w, a), b, [c]);
    RunFromFront(Step(Step(w, a), b), c, []);
  }

  // ---------------------------------------------------------------- what goes wrong

  /** Two raw calls that do not persist, under one key, whatever they ask: both succeed, with different codes. */
  lemma TwoCodesForOneKey(w: World, i: nat, j: nat, c: string, d: string)
    requires Initial(w) && i < |w.clients| && j < |w.clients| && i != j && c != "" && d != ""
    requires Transient(w.clients[i].job) && Transient(w.clients[j].job)
    ensures var a, b := Granting(i, c), Granting(j, d);
            var w' := Run(w, [a, b, a] + [b, a, b]);
            && |w'.clients| == |w.clients|
            && w'.clients[i] == Client(w.clients[i].job, Answered(TransientAnswer(c)))
            && w'.clients[j] == Client(w.clients[j].job, Answered(TransientAnswer(d)))
            && w'.shared.rows == w.shared.rows
  {
    hide Step, CacheSlot, Envelope, Fingerprint, Stored, ValidPath, Finish;
    var a, b := Granting(i, c), Granting(j, d);
    assert w.clients[i] in w.clients && w.clients[j] in w.clients;
    LookupStep(w, i, c);
    var w1 := Step(w, a);
    LookupStep(w1, j, d);
    var w2 := Step(w1, b);
    CallStep(w2, i, c);
    var w3 := Step(w2, a);
    CallStep(w3, j, d);
    var w4 := Step(w3, b);
    SaveStep(w4, i, c, TransientAnswer(c));
    var w5 := Step(w4, a);
    SaveStep(w5, j, d, TransientAnswer(d));
    ThreeSteps(w, a, b, a);
    ThreeSteps(w3, b, a, b);
    RunSplits(w, [a, b, a], [b, a, b]);
  }

  /**
   * A raw call that asks to persist is answered from the cache by one that did not: it succeeds
   * with a code, and no row is committed, for the fingerprint leaves `persistTask` out.
   */
  lemma ReplayCommitsNothing(w: World, i: nat, j: nat, code: string)
    requires Initial(w) && i < |w.clients| && j < |w.clients| && i != j && code != ""
    requires Transient(w.clients[i].job) && CacheSlot(w.clients[i].job).Some?
    requires w.clients[j].job.RawJob? && w.clients[j].job.raw.persistTask
    requires SameRequest(w.clients[i].job, w.clients[j].job) && w.clients[i].job.key == w.clients[j].job.key
    ensures var e := Granting(i, code);
            var w' := Run(w, [e, e, e] + [Granting(j, code)]);
            && |w'.clients| == |w.clients|
            && w'.clients[j].pc == Replayed(TransientAnswer(code))
            && w'.shared.rows == w.shared.rows
  {
    hide CacheSlot, Envelope, Fingerprint, ValidPath, ReadCache;
    var e := Granting(i, code);
    var saved := Run(w, [e, e, e]);
    assert w.clients[j] in w.clients;
    TransientRun(w, i, code);
    SameSlot(w.clients[i].job, w.clients[j].job);
    FingerprintsDecide(w.clients[i].job, w.clients[j].job);
    ReadsOwnEnvelopes(w.clients[j].job, Fingerprint(w.clients[i].job), TransientAnswer(code));
    RunSplits(w, [e, e, e], [Granting(j, code)]);
    assert AfterLookup(saved.shared, w.clients[j].job) == Replayed(TransientAnswer(code));
    assert [Granting(j, code)][..0] == [];
  }

  lemma SameSlot(a: Job, b: Job)
    requires a.RawJob? && b.RawJob? && a.key == b.key
    ensures CacheSlot(a) == CacheSlot(b)
  {
  }

  // ---------------------------------------------------------------- a raw call that overwrites a create envelope

  /** A `create_task` of a known robot type that will be granted a code the table can take. */
  predicate Creatable(sh: Shared, job: Job, code: string) {
    job.CreateJob? && job.create.robotType in sh.robotTypes && code != "" && Admits(sh.rows, RowOf(job, code))
  }

  lemma CreateSteps(w: World, i: nat, code: string)
    requires i < |w.clients| && w.clients[i].pc.Start?
    requires Creatable(w.shared, w.clients[i].job, code) && FindsNothing(w.shared, w.clients[i].job)
    ensures var e, c := Granting(i, code), w.clients[i];
            var w' := Step(Step(Step(w, e), e), e);
            && w'.shared == w.shared.(calls := w'.shared.calls)
            && w'.clients == w.clients[i := c.(pc := Insert(code, ReplyOf(code)))]
  {
    hide CacheSlot, Lookup, Admits, RowOf;
    ReadsOwnEnvelopes(w.clients[i].job, "", TransientAnswer(code));
    var e := Granting(i, code);
    var w1 := Step(w, e);
    assert w1 == w.(clients := w.clients[i := w.clients[i].(pc := Resolve)]);
    var w2 := Step(w1, e);
    assert w2 == w.(clients := w.clients[i := w.clients[i].(pc := Submit)]);
    assert ExtractTaskCode(ReplyOf(code)) == Code(code);
  }

  lemma InsertStep(w: World, i: nat, code: string)
    requires i < |w.clients| && w.clients[i].pc == Insert(code, ReplyOf(code))
    requires Creatable(w.shared, w.clients[i].job, code)
    ensures var job, w' := w.clients[i].job, Step(w, Granting(i, code));
            && w'.shared == w.shared.(rows := w.shared.rows + [RowOf(job, code)])
            && w'.clients == w.clients[i := Client(job, Finish(job, CommittedAnswer(job, code, ReplyOf(code))))]
  {
    hide CacheSlot, Admits, RowOf, CommittedAnswer;
  }

  lemma FiveSteps(w: World, e: Event)
    ensures Run(w, [e, e, e] + [e, e]) == Step(Step(Step(Step(Step(w, e), e), e), e), e)
  {
    hide Step;
    ThreeSteps(w, e, e, e);
    RunSplits(w, [e, e, e], [e, e]);
    var w3 := Run(w, [e, e, e]);
    assert [e, e] == [e] + [e] && [e] == [e] + [];
    RunFromFront(w3, e, [e]);
    RunFromFront(Step(w3, e), e, []);
  }

  /** Alone, such a call commits its row, caches its envelope and answers. */
  lemma CreateRun(w: World, i: nat, code: string)
    requires i < |w.clients| && w.clients[i].pc.Start?
    requires Creatable(w.shared, w.clients[i].job, code) && FindsNothing(w.shared, w.clients[i].job)
    requires CacheSlot(w.clients[i].job).Some?
    ensures var e, job := Granting(i, code), w.clients[i].job;
            var w', a := Run(w, [e, e, e] + [e, e]), CommittedAnswer(job, code, ReplyOf(code));
            && w'.clients == w.clients[i := Client(job, Answered(a))]
            && w'.shared.rows == w.shared.rows + [RowOf(job, code)]
            && w'.shared.now == w.shared.now
            && w'.shared.store == Stored(w.shared.store, w.shared.now, CacheSlot(job).value,
                                         Envelope(Fingerprint(job), a), IDEMPOTENCY_KEY_TTL_SECONDS)
  {
    hide Step, CacheSlot, Admits, RowOf, CommittedAnswer, Envelope, Fingerprint, Stored;
    var e, job := Granting(i, code), w.clients[i].job;
    CreateSteps(w, i, code);
    var w3 := Step(Step(Step(w, e), e), e);
    InsertStep(w3, i, code);
    SaveStep(Step(w3, e), i, code, CommittedAnswer(job, code, ReplyOf(code)));
    FiveSteps(w, e);
  }

  /**
   * A raw call that looked its key up first and saves last overwrites the envelope of a
   * `create_task` whose key spells out the raw prefix: the same request is refused right after it was
   * answered, well before expiry.
   */
  lemma OverwrittenEnvelope(w: World, i: nat, r: nat, j: nat, code: string, other: string)
    requires Initial(w) && i < |w.clients| && r < |w.clients| && j < |w.clients| && i != r && i != j && r != j
    requires Creatable(w.shared, w.clients[i].job, code) && w.clients[j].job == w.clients[i].job
    requires Transient(w.clients[r].job) && other != ""
    requires CacheSlot(w.clients[i].job).Some? && CacheSlot(w.clients[r].job) == CacheSlot(w.clients[i].job)
    ensures var a, b := Granting(i, code), Granting(r, other);
            var w' := Run(w, (([b] + ([a, a, a] + [a, a])) + [b, b]) + [Granting(j, code)]);
            && |w'.clients| == |w.clients|
            && w'.shared.now == w.shared.now
            && w'.clients[i].pc == Answered(CommittedAnswer(w.clients[i].job, code, ReplyOf(code)))
            && w'.clients[j].pc == Rejected(KeyReused, Unsubmitted)
  {
    hide Step, CacheSlot, Admits, RowOf, CommittedAnswer, Envelope, Fingerprint, ValidPath, AfterLookup, Finish;
    var a, b, c := Granting(i, code), Granting(r, other), Granting(j, code);
    assert w.clients[i] in w.clients && w.clients[r] in w.clients && w.clients[j] in w.clients;
    LookupStep(w, r, other);
    var w1 := Step(w, b);
    CreateRun(w1, i, code);
    var w2 := Run(w1, [a, a, a] + [a, a]);
    CallStep(w2, r, other);
    var w3 := Step(w2, b);
    SaveStep(w3, r, other, TransientAnswer(other));
    var w4 := Step(w3, b);
    RefusedLookup(w4, j, w.clients[r].job, TransientAnswer(other), code);
    RunFromFront(w, b, [a, a, a] + [a, a]);
    TwoMore(w2, b);
    RunSplits(w, [b] + ([a, a, a] + [a, a]), [b, b]);
    RunSplits(w, ([b] + ([a, a, a] + [a, a])) + [b, b], [c]);
    OneMore(w4, c);
  }

  lemma OneMore(w: World, e: Event)
    ensures Run(w, [e]) == Step(w, e)
  {
    hide Step;
    assert [e] == [e] + [];
    RunFromFront(w, e, []);
  }

  lemma TwoMore(w: World, e: Event)
    ensures Run(w, [e, e]) == Step(Step(w, e), e)
  {
    hide Step;
    assert [e, e] == [e] + [e];
    RunFromFront(w, e, [e]);
    OneMore(Step(w, e), e);
  }

  /** A `create_task` that meets a fresh raw envelope under its slot is refused. */
  lemma RefusedLookup(w: World, j: nat, saver: Job, a: Answer, code: string)
    requires j < |w.clients| && w.clients[j].pc.Start? && w.clients[j].job.CreateJob? && a.RawAnswer?
    requires CacheSlot(w.clients[j].job).Some?
    requires Lookup(w.shared.store, w.shared.now, CacheSlot(w.clients[j].job).value) == Some(Envelope(Fingerprint(saver), a))
    ensures Step(w, Granting(j, code)) ==
              w.(clients := w.clients[j := w.clients[j].(pc := Rejected(KeyReused, Unsubmitted))])
  {
    hide CacheSlot, Lookup, Envelope, Fingerprint;
    ReadsOwnEnvelopes(w.clients[j].job, Fingerprint(saver), a);
  }

  // ---------------------------------------------------------------- exactly when it does not

  /** The client has been told a task code under this key, by either endpoint. */
  predicate Told(c: Client, key: string) {
    c.job.key == Some(key) && Succeeded(c) && AnswerCode(c.pc.answer).Some?
  }

  /** Whoever has been told a code under the key has been told the same, for the same request, and it has a row. */
  ghost predicate KeySound(w: World, key: string) {
    && (forall i, j | 0 <= i < |w.clients| && 0 <= j < |w.clients| && Told(w.clients[i], key) && Told(w.clients[j], key) ::
         && AnswerCode(w.clients[i].pc.answer) == AnswerCode(w.clients[j].pc.answer)
         && SameRequest(w.clients[i].job, w.clients[j].job))
    && (forall i | 0 <= i < |w.clients| && Told(w.clients[i], key) ::
         HasRow(w.shared.rows, w.clients[i].job, AnswerCode(w.clients[i].pc.answer).value))
  }

  ghost predicate AlwaysSound(w: World, key: string) {
    forall es :: KeySound(Run(w, es), key)
  }

  /** Every raw call under the key that passes the path check asks to persist. */
  predicate AllPersist(w: World, key: string) {
    forall i | 0 <= i < |w.clients| && w.clients[i].job.key == Some(key) :: !Transient(w.clients[i].job)
  }

  lemma ToldIsPersisted(w: World, key: string, i: nat)
    requires Inv(w) && AllRawInOrder(w) && AllPersist(w, key)
    requires i < |w.clients| && Told(w.clients[i], key)
    ensures SucceededPersisted(w.clients[i])
  {
    hide ValidPath, Fingerprint;
    CreateSuccessIsPersisted(w, i);
    assert RawInOrder(w.clients[i]);
    if w.clients[i].job.RawJob? && w.clients[i].pc.Replayed? {
      assert ReplayBacked(w.clients[i], w.clients);
      var s :| s in w.clients && SourceOf(s, w.clients[i]);
      var k :| 0 <= k < |w.clients| && w.clients[k] == s;
      assert RawInOrder(w.clients[k]);
    }
  }

  lemma PersistingIsSound(w: World, es: seq<Event>, key: string)
    requires Initial(w) && AllPersist(w, key)
    ensures KeySound(Run(w, es), key)
  {
    hide Inv, AllRawInOrder, Persisted, SameRequest, HasRow, Step, Transient;
    var w' := Run(w, es);
    InitialInv(w);
    RunKeepsInv(w, es);
    RunKeepsRawInOrder(w, es);
    RunKeepsJobs(w, es);
    assert AllPersist(w', key);
    forall i | 0 <= i < |w'.clients| && Told(w'.clients[i], key)
      ensures SucceededPersisted(w'.clients[i])
      ensures HasRow(w'.shared.rows, w'.clients[i].job, AnswerCode(w'.clients[i].pc.answer).value)
    {
      ToldIsPersisted(w', key, i);
      SuccessIsRecorded(w', i);
    }
    forall i, j | 0 <= i < |w'.clients| && 0 <= j < |w'.clients| && Told(w'.clients[i], key) && Told(w'.clients[j], key)
      ensures AnswerCode(w'.clients[i].pc.answer) == AnswerCode(w'.clients[j].pc.answer)
      ensures SameRequest(w'.clients[i].job, w'.clients[j].job)
    {
      ClientsAgree(w', i, j);
    }
  }

  /** A code no row carries. */
  lemma UnusedCode(rows: Table) returns (code: string)
    ensures code != "" && forall r | 0 <= r < |rows| :: |rows[r].robotTaskCode| < |code|
  {
    if rows == [] {
      code := "x";
    } else {
      code := UnusedCode(rows[1..]);
      if |code| <= |rows[0].robotTaskCode| {
        code := rows[0].robotTaskCode + "x";
      }
    }
  }

  lemma TransientBreaksKey(w: World, key: string, i: nat) returns (es: seq<Event>)
    requires Initial(w) && i < |w.clients| && w.clients[i].job.key == Some(key) && Transient(w.clients[i].job)
    ensures !KeySound(Run(w, es), key)
  {
    hide Run, Step, RowOf, Transient, Stored, CacheSlot, Envelope, Fingerprint;
    var code := UnusedCode(w.shared.rows);
    es := [Granting(i, code), Granting(i, code), Granting(i, code)];
    TransientRun(w, i, code);
    var c := Run(w, es).clients[i];
    assert Told(c, key);
    UnusedHasNoRow(w.shared.rows, c.job, code);
  }

  lemma UnusedHasNoRow(rows: Table, job: Job, code: string)
    requires forall r | 0 <= r < |rows| :: |rows[r].robotTaskCode| < |code|
    ensures !HasRow(rows, job, code)
  {
    hide RowOf;
    RowOfJob(job, code);
    assert forall row | row in rows :: row.robotTaskCode != code;
  }

  /**
   * Exactly when successes can be trusted: in all runs, whoever is told a code under a key, by
   * either endpoint, fresh or replayed, is told the same code for the same request, and the code has
   * the row of that request, if and only if every raw call under the key with a valid path asks to
   * persist.
   */
  lemma KeySoundIffAllPersist(w: World, key: string)
    requires Initial(w)
    ensures AlwaysSound(w, key) <==> AllPersist(w, key)
  {
    hide KeySound, Run, Transient, Initial;
    if AllPersist(w, key) {
      forall es
        ensures KeySound(Run(w, es), key)
      {
        PersistingIsSound(w, es, key);
      }
    } else {
      var i :| 0 <= i < |w.clients| && w.clients[i].job.key == Some(key) && Transient(w.clients[i].job);
      var es := TransientBreaksKey(w, key, i);
      assert !KeySound(Run(w, es), key);
    }
  }
}
