/** Safety of the submitting endpoints over every interleaving: agreement and isolation. */
module SubmissionSafety {
  import opened Wrappers
  import opened Json
  import opened Redis
  import opened TaskTable
  import opened RcsClient
  import opened Idempotency
  import opened Feedback
  import opened Submission

  // ---------------------------------------------------------------- the invariant

  /** The client has committed a row and still knows its answer. */
  predicate Holds(c: Client) {
    (c.pc.Save? || c.pc.Answered?) && Persisted(c.pc.answer)
  }

  /** The table has the row this job writes for this code: same key, same route. */
  ghost predicate HasRow(rows: Table, job: Job, code: string) {
    exists row :: row in rows && SameIdentity(row, RowOf(job, code))
  }

  lemma RowOfJob(job: Job, code: string)
    ensures RowOf(job, code).robotTaskCode == code && RowOf(job, code).idempotencyKey == job.key
    ensures job.CreateJob? ==> RowOf(job, code).sourceCode == Some(job.create.sourceCode)
    ensures job.CreateJob? ==> RowOf(job, code).targetCode == Some(job.create.targetCode)
  {
    hide MetaFromBody;
  }

  /** Every answer is of its job's kind; an answer that is not a replay is marked fresh. */
  predicate AnswerFits(c: Client) {
    && (c.pc.Save? || c.pc.Answered? || c.pc.Replayed? ==> SameKind(c.job, c.pc.answer))
    && (c.pc.Save? || c.pc.Answered? ==>
          && (Persisted(c.pc.answer) ==> AnswerCode(c.pc.answer).Some?)
          && (c.job.CreateJob? ==> c.pc.answer.created.status == "pending" && !c.pc.answer.created.cached))
  }

  ghost predicate RowBehind(rows: Table, c: Client) {
    Holds(c) ==> AnswerCode(c.pc.answer).Some? && HasRow(rows, c.job, AnswerCode(c.pc.answer).value)
  }

  /** Client c has answered and its envelope is what slot holds. */
  predicate Backs(c: Client, slot: string, value: Json) {
    && c.pc.Answered?
    && SameKind(c.job, c.pc.answer)
    && CacheSlot(c.job) == Some(slot)
    && value == Envelope(Fingerprint(c.job), c.pc.answer)
  }

  ghost predicate CacheBacked(store: Store, clients: seq<Client>) {
    forall slot | slot in store :: exists s :: s in clients && Backs(s, slot, store[slot].value)
  }

  /** The replay c received is what s, of the same endpoint, key and fingerprint, answered first. */
  predicate SourceOf(s: Client, c: Client) {
    && c.pc.Replayed?
    && s.pc.Answered?
    && SameKind(s.job, s.pc.answer)
    && s.job.CreateJob? == c.job.CreateJob?
    && s.job.key == c.job.key
    && Fingerprint(s.job) == Fingerprint(c.job)
    && c.pc.answer == AsReplay(s.pc.answer)
  }

  ghost predicate ReplayBacked(c: Client, clients: seq<Client>) {
    c.pc.Replayed? ==> exists s :: s in clients && SourceOf(s, c)
  }

  /** At most one client holds a committed row for a key. */
  predicate KeysApart(a: Client, b: Client) {
    Holds(a) && Holds(b) ==> a.job.key.None? || a.job.key != b.job.key
  }

  ghost predicate Inv(w: World) {
    && Unique(w.shared.rows)
    && (forall i | 0 <= i < |w.clients| :: AnswerFits(w.clients[i]))
    && (forall i | 0 <= i < |w.clients| :: RowBehind(w.shared.rows, w.clients[i]))
    && (forall i | 0 <= i < |w.clients| :: ReplayBacked(w.clients[i], w.clients))
    && (forall i, j | 0 <= i < j < |w.clients| :: KeysApart(w.clients[i], w.clients[j]))
    && CacheBacked(w.shared.store, w.clients)
  }

  // ---------------------------------------------------------------- reading the cache

  /** A cache hit comes from the same endpoint with the same fingerprint; anything else is refused. */
  lemma ReadsOwnEnvelopes(job: Job, fingerprint: string, a: Answer)
    ensures ReadCache(job, None) == Miss
    ensures ReadCache(job, Some(Envelope(fingerprint, a))) ==
              if SameKind(job, a) && fingerprint == Fingerprint(job) then Hit(AsReplay(a)) else Mismatch
  {
    hide CreateFingerprint, RawFingerprint, CreateEnvelope, RawEnvelope;
    var asked := Fingerprint(job);
    if a.CreateAnswer? {
      CreateEnvelopeRoundTrip(fingerprint, asked, a.created);
      ForeignEnvelopesMismatch(fingerprint, asked, a.created, RawResult(None, None, false, false, map[]));
    } else {
      RawEnvelopeRoundTrip(fingerprint, asked, a.result);
      ForeignEnvelopesMismatch(fingerprint, asked, CreateResult("", "", false), a.result);
    }
  }

  /** Within one endpoint the cache slot identifies the key. */
  lemma SlotIdentifiesKey(a: Job, b: Job)
    requires a.CreateJob? == b.CreateJob? && CacheSlot(a).Some? && CacheSlot(a) == CacheSlot(b)
    ensures a.key == b.key
  {
    IdempotencyKeysInjective(a.key.value, b.key.value);
  }

  // ---------------------------------------------------------------- steps preserve the invariant

  ghost predicate RowsKept(before: Table, after: Table) {
    forall row | row in before :: exists row' :: row' in after && SameIdentity(row, row')
  }

  lemma HasRowKept(before: Table, after: Table, job: Job, code: string)
    requires RowsKept(before, after) && HasRow(before, job, code)
    ensures HasRow(after, job, code)
  {
    hide RowOf;
    var row :| row in before && SameIdentity(row, RowOf(job, code));
    var row' :| row' in after && SameIdentity(row, row');
  }

  lemma IdentitiesKeepRows(before: Table, after: Table)
    requires SameIdentities(before, after)
    ensures RowsKept(before, after)
  {
    forall row | row in before
      ensures exists row' :: row' in after && SameIdentity(row, row')
    {
      var i :| 0 <= i < |before| && before[i] == row;
      assert after[i] in after && SameIdentity(row, after[i]);
    }
  }

  /** An answered client stays in the population under any update of another client's state. */
  predicate AnswersKept(before: seq<Client>, after: seq<Client>) {
    forall s | s in before && s.pc.Answered? :: s in after
  }

  lemma UpdateKeepsAnswers(clients: seq<Client>, i: nat, c: Client)
    requires i < |clients| && (clients[i].pc.Answered? ==> c == clients[i])
    ensures AnswersKept(clients, clients[i := c])
    ensures c in clients[i := c]
  {
    assert clients[i := c][i] == c;
    forall s | s in clients && s.pc.Answered?
      ensures s in clients[i := c]
    {
      var k :| 0 <= k < |clients| && clients[k] == s;
      assert clients[i := c][k] == s;
    }
  }

  lemma BackingKept(store: Store, before: seq<Client>, after: seq<Client>)
    requires CacheBacked(store, before) && AnswersKept(before, after)
    ensures CacheBacked(store, after)
  {
    forall slot | slot in store
      ensures exists s :: s in after && Backs(s, slot, store[slot].value)
    {
      var s :| s in before && Backs(s, slot, store[slot].value);
      assert s in after;
    }
  }

  lemma ReplaysKept(c: Client, before: seq<Client>, after: seq<Client>)
    requires ReplayBacked(c, before) && AnswersKept(before, after)
    ensures ReplayBacked(c, after)
  {
    if c.pc.Replayed? {
      var s :| s in before && SourceOf(s, c);
      assert s in after;
    }
  }

  /**
   * Replacing client i by c keeps the invariant when c itself is in order, holds nothing another
   * client holds, and i had not answered; rows may grow and the cache may only gain c's envelope.
   */
  lemma ReplaceClient(w: World, w': World, i: nat, c: Client)
    requires Inv(w) && i < |w.clients| && w'.clients == w.clients[i := c]
    requires w.clients[i].pc.Answered? ==> c == w.clients[i]
    requires Unique(w'.shared.rows) && RowsKept(w.shared.rows, w'.shared.rows)
    requires AnswerFits(c) && RowBehind(w'.shared.rows, c) && ReplayBacked(c, w.clients)
    requires forall j | 0 <= j < |w.clients| && j != i :: KeysApart(w.clients[j], c) && KeysApart(c, w.clients[j])
    requires CacheBacked(w'.shared.store, w.clients[i := c])
    ensures Inv(w')
  {
    UpdateKeepsAnswers(w.clients, i, c);
    forall k | 0 <= k < |w'.clients|
      ensures AnswerFits(w'.clients[k]) && RowBehind(w'.shared.rows, w'.clients[k])
      ensures ReplayBacked(w'.clients[k], w'.clients)
    {
      ReplaysKept(w'.clients[k], w.clients, w'.clients);
      if k != i && Holds(w.clients[k]) {
        assert RowBehind(w.shared.rows, w.clients[k]);
        HasRowKept(w.shared.rows, w'.shared.rows, w.clients[k].job, AnswerCode(w.clients[k].pc.answer).value);
      }
    }
    forall j, k | 0 <= j < k < |w'.clients|
      ensures KeysApart(w'.clients[j], w'.clients[k])
    {
      if j != i && k != i {
        assert KeysApart(w.clients[j], w.clients[k]);
      }
    }
  }

  /** A step that leaves client i without a committed answer touches nothing else that matters. */
  lemma ReplaceWithUncommitted(w: World, w': World, i: nat, c: Client)
    requires Inv(w) && i < |w.clients| && w'.clients == w.clients[i := c]
    requires !w.clients[i].pc.Answered?
    requires w'.shared.rows == w.shared.rows && w'.shared.store == w.shared.store
    requires !Holds(c) && AnswerFits(c) && ReplayBacked(c, w.clients)
    ensures Inv(w')
  {
    UpdateKeepsAnswers(w.clients, i, c);
    BackingKept(w.shared.store, w.clients, w'.clients);
    assert RowsKept(w.shared.rows, w'.shared.rows) by {
      assert forall row | row in w.shared.rows :: SameIdentity(row, row);
    }
    ReplaceClient(w, w', i, c);
  }

  lemma LookupKeepsInv(w: World, i: nat, result: CallResult, dbUp: bool)
    requires Inv(w) && i < |w.clients| && w.clients[i].pc.Start?
    ensures Inv(Step(w, Advance(i, result, dbUp)))
  {
    hide Fingerprint, Envelope, ReadCache, ValidPath;
    var w' := Step(w, Advance(i, result, dbUp));
    var c, c' := w.clients[i], w'.clients[i];
    if c'.pc.Replayed? {
      HitIsBacked(w, c);
    }
    ReplaceWithUncommitted(w, w', i, c');
  }

  /** A hit on a backed cache is the replay of a client's answer. */
  lemma HitIsBacked(w: World, c: Client)
    requires Inv(w) && AfterLookup(w.shared, c.job).Replayed?
    ensures var c' := c.(pc := AfterLookup(w.shared, c.job));
            AnswerFits(c') && ReplayBacked(c', w.clients)
  {
    hide Fingerprint, Envelope, ReadCache, ValidPath, Unique, KeysApart, RowBehind;
    var slot := CacheSlot(c.job).value;
    ReadsOwnEnvelopes(c.job, "", UnpersistedAnswer(None, map[]));
    var s :| s in w.clients && Backs(s, slot, w.shared.store[slot].value);
    ReadsOwnEnvelopes(c.job, Fingerprint(s.job), s.pc.answer);
    SlotIdentifiesKey(s.job, c.job);
    assert SourceOf(s, c.(pc := AfterLookup(w.shared, c.job)));
  }

  lemma InsertKeepsInv(w: World, i: nat, result: CallResult, dbUp: bool)
    requires Inv(w) && i < |w.clients| && w.clients[i].pc.Insert?
    ensures Inv(Step(w, Advance(i, result, dbUp)))
  {
    hide RowOf, CacheSlot;
    var w' := Step(w, Advance(i, result, dbUp));
    var c, c' := w.clients[i], w'.clients[i];
    var row := RowOf(c.job, c.pc.code);
    RowOfJob(c.job, c.pc.code);
    if w'.shared.rows == w.shared.rows {
      assert c'.pc.Rejected?;
      ReplaceWithUncommitted(w, w', i, c');
    } else {
      assert w'.shared.rows == w.shared.rows + [row] && row in w'.shared.rows;
      assert Admits(w.shared.rows, row);
      if row.idempotencyKey.Some? {
        InsertedKeyIsNew(w, i, row);
      }
      UpdateKeepsAnswers(w.clients, i, c');
      BackingKept(w.shared.store, w.clients, w'.clients);
      assert RowsKept(w.shared.rows, w'.shared.rows) by {
        assert forall r | r in w.shared.rows :: r in w'.shared.rows && SameIdentity(r, r);
      }
      assert Unique(w'.shared.rows);
      ReplaceClient(w, w', i, c');
    }
  }

  /** The unique columns keep a second client from committing a key another client holds. */
  lemma InsertedKeyIsNew(w: World, i: nat, row: TaskRow)
    requires Inv(w) && Admits(w.shared.rows, row) && row.idempotencyKey.Some?
    ensures forall j | 0 <= j < |w.clients| && Holds(w.clients[j]) :: w.clients[j].job.key != row.idempotencyKey
  {
    forall j | 0 <= j < |w.clients| && Holds(w.clients[j])
      ensures w.clients[j].job.key != row.idempotencyKey
    {
      assert RowBehind(w.shared.rows, w.clients[j]);
      var code := AnswerCode(w.clients[j].pc.answer).value;
      RowOfJob(w.clients[j].job, code);
      var held :| held in w.shared.rows && SameIdentity(held, RowOf(w.clients[j].job, code));
      var k :| 0 <= k < |w.shared.rows| && w.shared.rows[k] == held;
      assert !Clash(w.shared.rows[k], row);
    }
  }

  lemma StoredIsBacked(store: Store, clients: seq<Client>, slot: string, entry: Entry, c: Client)
    requires CacheBacked(store, clients) && c in clients && Backs(c, slot, entry.value)
    ensures CacheBacked(store[slot := entry], clients)
  {
    hide Backs;
  }

  /** What saving changes: the client's state, and its slot when it has one. */
  lemma SaveEffect(w: World, i: nat, result: CallResult, dbUp: bool)
    requires i < |w.clients| && w.clients[i].pc.Save?
    ensures var w', c := Step(w, Advance(i, result, dbUp)), w.clients[i];
            && w'.shared.rows == w.shared.rows
            && w'.clients == w.clients[i := c.(pc := Answered(c.pc.answer))]
            && (CacheSlot(c.job).None? ==> w'.shared.store == w.shared.store)
            && (CacheSlot(c.job).Some? ==> w'.shared.store == w.shared.store[CacheSlot(c.job).value :=
                 Entry(Envelope(Fingerprint(c.job), c.pc.answer), Some(w.shared.now + IDEMPOTENCY_KEY_TTL_SECONDS))])
  {
    hide Fingerprint, Envelope, CacheSlot, AfterLookup, AfterCall, RowOf, CommittedAnswer;
  }

  lemma SaveKeepsCache(w: World, i: nat, result: CallResult, dbUp: bool)
    requires Inv(w) && i < |w.clients| && w.clients[i].pc.Save?
    ensures CacheBacked(Step(w, Advance(i, result, dbUp)).shared.store, Step(w, Advance(i, result, dbUp)).clients)
  {
    hide Fingerprint, Envelope, Step, CacheSlot, RowBehind, KeysApart, ReplayBacked, Unique;
    SaveEffect(w, i, result, dbUp);
    var w' := Step(w, Advance(i, result, dbUp));
    var c, c' := w.clients[i], w'.clients[i];
    UpdateKeepsAnswers(w.clients, i, c');
    BackingKept(w.shared.store, w.clients, w'.clients);
    assert AnswerFits(c);
    if slot :| CacheSlot(c.job) == Some(slot) {
      StoredIsBacked(w.shared.store, w'.clients, slot, w'.shared.store[slot], c');
    }
  }

  lemma SaveKeepsInv(w: World, i: nat, result: CallResult, dbUp: bool)
    requires Inv(w) && i < |w.clients| && w.clients[i].pc.Save?
    ensures Inv(Step(w, Advance(i, result, dbUp)))
  {
    hide Fingerprint, Envelope, Step, CacheSlot, CacheBacked, ReplayBacked, HasRow, Unique;
    SaveEffect(w, i, result, dbUp);
    SaveKeepsCache(w, i, result, dbUp);
    var w' := Step(w, Advance(i, result, dbUp));
    var c, c' := w.clients[i], w'.clients[i];
    assert RowsKept(w.shared.rows, w'.shared.rows) by {
      assert forall row | row in w.shared.rows :: SameIdentity(row, row);
    }
    assert AnswerFits(c) && RowBehind(w.shared.rows, c);
    assert ReplayBacked(c', w.clients) by {
      AnsweredIsNoReplay(c', w.clients);
    }
    ReplaceClient(w, w', i, c');
  }

  lemma AnsweredIsNoReplay(c: Client, clients: seq<Client>)
    requires c.pc.Answered?
    ensures ReplayBacked(c, clients)
  {
  }

  lemma AdvanceKeepsInv(w: World, i: nat, result: CallResult, dbUp: bool)
    requires Inv(w)
    ensures Inv(Step(w, Advance(i, result, dbUp)))
  {
    hide AfterLookup, MetaFromBody, Envelope, CommittedAnswer, ExtractTaskCode;
    if i < |w.clients| {
      var w' := Step(w, Advance(i, result, dbUp));
      match w.clients[i].pc
      case Start => LookupKeepsInv(w, i, result, dbUp);
      case Insert(_, _) => InsertKeepsInv(w, i, result, dbUp);
      case Save(_) => SaveKeepsInv(w, i, result, dbUp);
      case Resolve => ReplaceWithUncommitted(w, w', i, w'.clients[i]);
      case Submit => ReplaceWithUncommitted(w, w', i, w'.clients[i]);
      case _ => assert w' == w;
    }
  }

  lemma CrashKeepsInv(w: World, i: nat)
    requires Inv(w)
    ensures Inv(Step(w, Crash(i)))
  {
    if i < |w.clients| && !Final(w.clients[i].pc) {
      var w' := Step(w, Crash(i));
      ReplaceWithUncommitted(w, w', i, w'.clients[i]);
    }
  }

  lemma WorkerKeepsInv(w: World, p: Payload)
    requires Inv(w)
    ensures Inv(Step(w, Worker(p)))
  {
    hide Received, Process;
    var w' := Step(w, Worker(p));
    if Received(p, w.shared.now).Some? {
      ProcessIsPointwise(w.shared.rows, Received(p, w.shared.now).value);
      IdentitiesKeepRows(w.shared.rows, w'.shared.rows);
      forall i | 0 <= i < |w'.clients|
        ensures RowBehind(w'.shared.rows, w'.clients[i])
      {
        if Holds(w.clients[i]) {
          assert RowBehind(w.shared.rows, w.clients[i]);
          HasRowKept(w.shared.rows, w'.shared.rows, w.clients[i].job, AnswerCode(w.clients[i].pc.answer).value);
        }
      }
    }
  }

  lemma StepKeepsInv(w: World, e: Event)
    requires Inv(w)
    ensures Inv(Step(w, e))
  {
    match e
    case Advance(i, result, dbUp) => AdvanceKeepsInv(w, i, result, dbUp);
    case Crash(i) => CrashKeepsInv(w, i);
    case Worker(p) => WorkerKeepsInv(w, p);
    case Evict(slot) =>
    case Tick(seconds) =>
  }

  lemma {:induction false} RunKeepsInv(w: World, es: seq<Event>)
    requires Inv(w)
    ensures Inv(Run(w, es))
  {
    hide Inv, Step;
    if es != [] {
      RunKeepsInv(w, es[..|es| - 1]);
      StepKeepsInv(Run(w, es[..|es| - 1]), es[|es| - 1]);
    }
  }

  lemma InitialInv(w: World)
    requires Initial(w)
    ensures Inv(w)
  {
    assert forall i | 0 <= i < |w.clients| :: w.clients[i] in w.clients;
  }

  // ---------------------------------------------------------------- agreement

  /** The client has received a success, fresh or replayed. */
  predicate Succeeded(c: Client) {
    c.pc.Answered? || c.pc.Replayed?
  }

  /** The client has received a success of either endpoint whose answer says a row was committed. */
  predicate SucceededPersisted(c: Client) {
    Succeeded(c) && SameKind(c.job, c.pc.answer) && Persisted(c.pc.answer)
  }

  /** Every success of `create_task` is one. */
  lemma CreateSuccessIsPersisted(w: World, i: nat)
    requires Inv(w) && i < |w.clients| && Succeeded(w.clients[i])
    ensures SameKind(w.clients[i].job, w.clients[i].pc.answer)
    ensures w.clients[i].job.CreateJob? ==> SucceededPersisted(w.clients[i])
  {
    assert AnswerFits(w.clients[i]);
  }

  /** Such a success goes back to a client of the same endpoint that holds the committed row of its key. */
  lemma SuccessHasHolder(w: World, i: nat) returns (s: nat)
    requires Inv(w) && i < |w.clients| && SucceededPersisted(w.clients[i])
    ensures s < |w.clients| && Holds(w.clients[s])
    ensures w.clients[s].job.CreateJob? == w.clients[i].job.CreateJob?
    ensures w.clients[s].job.key == w.clients[i].job.key
    ensures Fingerprint(w.clients[s].job) == Fingerprint(w.clients[i].job)
    ensures AnswerCode(w.clients[i].pc.answer) == AnswerCode(w.clients[s].pc.answer)
  {
    hide Fingerprint;
    s := i;
    assert AnswerFits(w.clients[i]);
    if w.clients[i].pc.Replayed? {
      assert ReplayBacked(w.clients[i], w.clients);
      var source :| source in w.clients && SourceOf(source, w.clients[i]);
      s :| 0 <= s < |w.clients| && w.clients[s] == source;
      assert AnswerFits(w.clients[s]);
    }
  }

  /** The two jobs ask the same endpoint for the same thing. */
  predicate SameRequest(a: Job, b: Job) {
    if a.CreateJob? then b.CreateJob? && a.create == b.create else b.RawJob? && SameRawCall(a.raw, b.raw)
  }

  /** Two such successes for one key carry the same code and answer the same request of one endpoint. */
  ghost predicate Agree(a: Client, b: Client) {
    && a.job.key.Some? && a.job.key == b.job.key
    && SucceededPersisted(a) && SucceededPersisted(b)
    ==> AnswerCode(a.pc.answer) == AnswerCode(b.pc.answer) && SameRequest(a.job, b.job)
  }

  lemma OneHolder(w: World, s: nat, t: nat)
    requires Inv(w) && s < |w.clients| && t < |w.clients|
    requires Holds(w.clients[s]) && Holds(w.clients[t])
    requires w.clients[s].job.key.Some? && w.clients[s].job.key == w.clients[t].job.key
    ensures s == t
  {
    assert !KeysApart(w.clients[s], w.clients[t]) && !KeysApart(w.clients[t], w.clients[s]);
  }

  lemma FingerprintsDecide(a: Job, b: Job)
    requires a.CreateJob? == b.CreateJob?
    ensures Fingerprint(a) == Fingerprint(b) <==> SameRequest(a, b)
  {
    hide CreateFingerprint, RawFingerprint, SameRawCall;
    if a.CreateJob? {
      CreateFingerprintsAgree(a.create, b.create);
    } else {
      RawFingerprintsAgree(a.raw, b.raw);
    }
  }

  lemma ClientsAgree(w: World, i: nat, j: nat)
    requires Inv(w) && i < |w.clients| && j < |w.clients|
    ensures Agree(w.clients[i], w.clients[j])
  {
    hide Inv, Fingerprint, SameRequest;
    var a, b := w.clients[i], w.clients[j];
    if a.job.key.Some? && a.job.key == b.job.key && SucceededPersisted(a) && SucceededPersisted(b) {
      var s := SuccessHasHolder(w, i);
      var t := SuccessHasHolder(w, j);
      OneHolder(w, s, t);
      FingerprintsDecide(a.job, b.job);
    }
  }

  /**
   * Agreement: in every interleaving, with crashes at any await, any cache loss and repeated RCS
   * submission, successful responses for one key agree, in both endpoints together. `create_task`
   * always answers with a committed row; a raw answer says whether it does.
   */
  lemma Agreement(w: World, es: seq<Event>)
    requires Initial(w)
    ensures forall i, j | 0 <= i < |Run(w, es).clients| && 0 <= j < |Run(w, es).clients| ::
              Agree(Run(w, es).clients[i], Run(w, es).clients[j])
    ensures forall i | 0 <= i < |Run(w, es).clients| && Run(w, es).clients[i].job.CreateJob? ::
              Succeeded(Run(w, es).clients[i]) ==> SucceededPersisted(Run(w, es).clients[i])
  {
    hide Inv, Agree, Persisted, SameKind;
    InitialInv(w);
    RunKeepsInv(w, es);
    forall i, j | 0 <= i < |Run(w, es).clients| && 0 <= j < |Run(w, es).clients|
      ensures Agree(Run(w, es).clients[i], Run(w, es).clients[j])
    {
      ClientsAgree(Run(w, es), i, j);
    }
    forall i | 0 <= i < |Run(w, es).clients| && Run(w, es).clients[i].job.CreateJob?
      ensures Succeeded(Run(w, es).clients[i]) ==> SucceededPersisted(Run(w, es).clients[i])
    {
      if Succeeded(Run(w, es).clients[i]) {
        CreateSuccessIsPersisted(Run(w, es), i);
      }
    }
  }

  /** The table has the row of this client's own request, under its key and the code it was told. */
  ghost predicate Recorded(rows: Table, c: Client) {
    SucceededPersisted(c) ==>
      AnswerCode(c.pc.answer).Some? && HasRow(rows, c.job, AnswerCode(c.pc.answer).value)
  }

  /** The row of a job depends on what its fingerprint shows, and on its key. */
  lemma SameRequestSameRow(a: Job, b: Job, code: string)
    requires SameRequest(a, b) && a.key == b.key
    ensures RowOf(a, code) == RowOf(b, code)
  {
    if a.RawJob? {
      MetaOfBody(a.raw.body, b.raw.body);
    }
  }

  lemma MetaOfBody(a: Option<map<string, Json>>, b: Option<map<string, Json>>)
    requires BodyOrEmpty(a) == BodyOrEmpty(b)
    ensures MetaFromBody(a) == MetaFromBody(b)
  {
  }

  lemma SuccessIsRecorded(w: World, i: nat)
    requires Inv(w) && i < |w.clients|
    ensures Recorded(w.shared.rows, w.clients[i])
  {
    hide Fingerprint, RowOf, SameRequest;
    var c := w.clients[i];
    if SucceededPersisted(c) {
      var s := SuccessHasHolder(w, i);
      assert RowBehind(w.shared.rows, w.clients[s]);
      FingerprintsDecide(c.job, w.clients[s].job);
      SameRequestSameRow(c.job, w.clients[s].job, AnswerCode(c.pc.answer).value);
    }
  }

  /**
   * Over all runs a success of either endpoint that says it was persisted, fresh or replayed, with
   * or without a key, tells its client the code of a committed row that carries that key and the
   * source and target of that client's own request.
   */
  lemma SuccessesAreRecorded(w: World, es: seq<Event>)
    requires Initial(w)
    ensures forall c | c in Run(w, es).clients :: Recorded(Run(w, es).shared.rows, c)
    ensures forall c | c in Run(w, es).clients && c.job.CreateJob? && Succeeded(c) ::
              CreateRecorded(Run(w, es).shared.rows, c)
    ensures forall c | c in Run(w, es).clients && c.job.RawJob? && SucceededPersisted(c) ::
              RawRecorded(Run(w, es).shared.rows, c)
  {
    hide Inv, Recorded, RowOf, MetaFits;
    InitialInv(w);
    RunKeepsInv(w, es);
    var w' := Run(w, es);
    forall c | c in w'.clients
      ensures Recorded(w'.shared.rows, c)
      ensures c.job.CreateJob? && Succeeded(c) ==> CreateRecorded(w'.shared.rows, c)
      ensures c.job.RawJob? && SucceededPersisted(c) ==> RawRecorded(w'.shared.rows, c)
    {
      var i :| 0 <= i < |w'.clients| && w'.clients[i] == c;
      SuccessIsRecorded(w', i);
      if c.job.CreateJob? && Succeeded(c) {
        CreateSuccessIsPersisted(w', i);
        CreateIsRecorded(w'.shared.rows, c);
      }
      if c.job.RawJob? && SucceededPersisted(c) {
        RawIsRecorded(w'.shared.rows, c);
      }
    }
  }

  /** The same for `create_task`, column by column. */
  ghost predicate CreateRecorded(rows: Table, c: Client)
    requires c.job.CreateJob? && Succeeded(c)
  {
    exists row :: row in rows
      && Some(row.robotTaskCode) == AnswerCode(c.pc.answer)
      && row.idempotencyKey == c.job.key
      && row.sourceCode == Some(c.job.create.sourceCode)
      && row.targetCode == Some(c.job.create.targetCode)
  }

  /** The same for a raw call: source and target are those its own body spells out. */
  ghost predicate RawRecorded(rows: Table, c: Client)
    requires c.job.RawJob? && Succeeded(c)
  {
    exists row :: row in rows
      && Some(row.robotTaskCode) == AnswerCode(c.pc.answer)
      && row.idempotencyKey == c.job.key
      && MetaFits(c.job.raw.body, row.sourceCode, row.targetCode)
  }

  lemma RawIsRecorded(rows: Table, c: Client)
    requires c.job.RawJob? && SucceededPersisted(c) && Recorded(rows, c)
    ensures RawRecorded(rows, c)
  {
    hide MetaFromBody, MetaFits;
    var code := AnswerCode(c.pc.answer).value;
    var row :| row in rows && SameIdentity(row, RowOf(c.job, code));
    MetaFromBodyFits(c.job.raw.body);
  }

  lemma CreateIsRecorded(rows: Table, c: Client)
    requires c.job.CreateJob? && SucceededPersisted(c) && Recorded(rows, c)
    ensures CreateRecorded(rows, c)
  {
    hide RowOf;
    var code := AnswerCode(c.pc.answer).value;
    var row :| row in rows && SameIdentity(row, RowOf(c.job, code));
    RowOfJob(c.job, code);
  }

  // ---------------------------------------------------------------- known robot types

  /** The request asks for a robot type the table of types has. */
  predicate KnownType(types: map<string, string>, job: Job) {
    job.CreateJob? ==> job.create.robotType in types
  }

  /** The client is past the robot-type check, on its own and not through the cache. */
  predicate PastTypeCheck(pc: Pc) {
    pc.Submit? || pc.Insert? || pc.Save? || pc.Answered?
  }

  /** Whoever is past the check, and whoever has called RCS, asked for a known type. */
  ghost predicate TypesChecked(w: World) {
    && (forall i | 0 <= i < |w.clients| && PastTypeCheck(w.clients[i].pc) ::
         KnownType(w.shared.robotTypes, w.clients[i].job))
    && (forall k | 0 <= k < |w.shared.calls| ::
         && w.shared.calls[k].client < |w.clients|
         && w.shared.calls[k].byCreate == w.clients[w.shared.calls[k].client].job.CreateJob?
         && KnownType(w.shared.robotTypes, w.clients[w.shared.calls[k].client].job))
  }

  /** What one step of a client does to its place before or behind the check, and to the log. */
  lemma ActChecksType(sh: Shared, id: nat, job: Job, pc: Pc, result: CallResult, dbUp: bool)
    ensures var (sh', pc') := Act(sh, id, job, pc, result, dbUp);
            && sh'.robotTypes == sh.robotTypes
            && (sh'.calls == sh.calls || (pc.Submit? && sh'.calls == sh.calls + [Call(id, job.CreateJob?, result)]))
            && (PastTypeCheck(pc') ==> PastTypeCheck(pc) || KnownType(sh.robotTypes, job))
  {
    hide ReadCache, Lookup, ValidPath, ExtractTaskCode, RowOf, Admits, Stored, Envelope, Fingerprint, CacheSlot;
  }

  lemma StepChecksTypes(w: World, e: Event)
    requires TypesChecked(w)
    ensures TypesChecked(Step(w, e)) && Step(w, e).shared.robotTypes == w.shared.robotTypes
  {
    hide Act, KnownType, Received, Process;
    if e.Advance? && e.client < |w.clients| {
      var c := w.clients[e.client];
      ActChecksType(w.shared, e.client, c.job, c.pc, e.result, e.dbUp);
    }
  }

  /**
   * Over all runs of both endpoints, no `create_task` with an unknown robot type gets past its check:
   * RCS is never called for it, and it never has anything to insert, to save or to answer.
   */
  lemma {:induction false} UnknownTypesAreRefused(w: World, es: seq<Event>)
    requires Initial(w)
    ensures Run(w, es).shared.robotTypes == w.shared.robotTypes
    ensures forall i | 0 <= i < |Run(w, es).clients| && Run(w, es).clients[i].job.CreateJob?
                && Run(w, es).clients[i].job.create.robotType !in w.shared.robotTypes ::
              && !Run(w, es).clients[i].pc.Submit? && !Run(w, es).clients[i].pc.Insert?
              && !Run(w, es).clients[i].pc.Save? && !Run(w, es).clients[i].pc.Answered?
              && forall k | 0 <= k < |Run(w, es).shared.calls| :: Run(w, es).shared.calls[k].client != i
    ensures TypesChecked(Run(w, es))
  {
    hide Step;
    if es == [] {
      assert forall i | 0 <= i < |w.clients| :: w.clients[i] in w.clients;
    } else {
      UnknownTypesAreRefused(w, es[..|es| - 1]);
      StepChecksTypes(Run(w, es[..|es| - 1]), es[|es| - 1]);
    }
  }

  // ---------------------------------------------------------------- isolation

  /**
   * Over all runs of both endpoints the table has at most one row per key, and every replay is
   * what a client of the same endpoint, with the same key and fingerprint, was answered first.
   */
  lemma Isolation(w: World, es: seq<Event>)
    requires Initial(w)
    ensures Unique(Run(w, es).shared.rows)
    ensures forall c | c in Run(w, es).clients && c.pc.Replayed? ::
              exists s :: s in Run(w, es).clients && SourceOf(s, c)
  {
    hide SourceOf;
    InitialInv(w);
    RunKeepsInv(w, es);
    forall c | c in Run(w, es).clients && c.pc.Replayed?
      ensures exists s :: s in Run(w, es).clients && SourceOf(s, c)
    {
      var i :| 0 <= i < |Run(w, es).clients| && Run(w, es).clients[i] == c;
      assert ReplayBacked(Run(w, es).clients[i], Run(w, es).clients);
    }
  }

  /**
   * An endpoint meets the other's envelope only under a create key that spells out the raw
   * prefix, and then the lookup refuses the call.
   */
  lemma ForeignEnvelopeIsRefused(w: World, i: nat)
    requires Inv(w) && i < |w.clients| && w.clients[i].pc.Start?
    requires w.clients[i].job.RawJob? ==> ValidPath(w.clients[i].job.raw.path)
    requires CacheSlot(w.clients[i].job).Some?
    requires Lookup(w.shared.store, w.shared.now, CacheSlot(w.clients[i].job).value).Some?
    ensures AfterLookup(w.shared, w.clients[i].job) == Rejected(KeyReused, Unsubmitted)
            || exists s :: s in w.clients && s.pc.Answered? && s.job.CreateJob? == w.clients[i].job.CreateJob?
                           && s.job.key == w.clients[i].job.key
                           && AfterLookup(w.shared, w.clients[i].job) == Replayed(AsReplay(s.pc.answer))
  {
    hide Fingerprint, Envelope, ReadCache, ValidPath;
    var job := w.clients[i].job;
    var slot := CacheSlot(job).value;
    var s :| s in w.clients && Backs(s, slot, w.shared.store[slot].value);
    ReadsOwnEnvelopes(job, Fingerprint(s.job), s.pc.answer);
    if s.job.CreateJob? == job.CreateJob? {
      SlotIdentifiesKey(s.job, job);
    }
  }
}
