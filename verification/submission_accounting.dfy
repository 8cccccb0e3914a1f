/** Conservation of RCS submissions, and the window in which a saved answer is replayed. */
module SubmissionAccounting {
  import opened Wrappers
  import opened Json
  import opened Redis
  import opened TaskTable
  import opened RcsClient
  import opened Idempotency
  import opened Feedback
  import opened Submission
  import opened SubmissionSafety

  // ---------------------------------------------------------------- what one event can move

  /** The client an event acts on keeps its job; every other client is left alone. */
  lemma StepIsLocal(w: World, e: Event)
    ensures |Step(w, e).clients| == |w.clients|
    ensures forall i | 0 <= i < |w.clients| :: Step(w, e).clients[i].job == w.clients[i].job
    ensures forall i | 0 <= i < |w.clients| && Step(w, e).clients[i] != w.clients[i] ::
              (e.Advance? || e.Crash?) && e.client == i && !Final(w.clients[i].pc)
  {
    hide AfterLookup, AfterCall, Finish, Stored, Process, Received;
  }

  lemma {:induction false} RunKeepsJobs(w: World, es: seq<Event>)
    ensures |Run(w, es).clients| == |w.clients|
    ensures forall i | 0 <= i < |w.clients| :: Run(w, es).clients[i].job == w.clients[i].job
  {
    hide Step;
    if es != [] {
      RunKeepsJobs(w, es[..|es| - 1]);
      StepIsLocal(Run(w, es[..|es| - 1]), es[|es| - 1]);
    }
  }

  lemma AfterLookupUnsubmitted(sh: Shared, job: Job)
    ensures StageOf(AfterLookup(sh, job)) == Unsubmitted
  {
    hide ReadCache, Lookup, ValidPath;
  }

  lemma AfterCallSubmitted(job: Job, result: CallResult)
    ensures StageOf(AfterCall(job, result)) == Submitted
    ensures AfterCall(job, result).Insert? ==>
              result.Reply? && ExtractTaskCode(result.body) == Code(AfterCall(job, result).code)
  {
    hide ExtractTaskCode, CacheSlot;
  }

  /** The client has just submitted and carries on with the code RCS replied. */
  predicate GrantsNow(pc: Pc, result: CallResult, pc': Pc) {
    pc.Submit? && pc'.Insert? && result.Reply? && ExtractTaskCode(result.body) == Code(pc'.code)
  }

  /** The call log, the table and the client's stage after a step of one client. */
  lemma ActEffect(sh: Shared, id: nat, job: Job, pc: Pc, result: CallResult, dbUp: bool)
    ensures var (sh', pc') := Act(sh, id, job, pc, result, dbUp);
            var commits := pc.Insert? && dbUp && Admits(sh.rows, RowOf(job, pc.code));
            && sh'.calls == (if pc.Submit? then sh.calls + [Call(id, job.CreateJob?, result)] else sh.calls)
            && sh'.rows == (if commits then sh.rows + [RowOf(job, pc.code)] else sh.rows)
            && StageOf(pc') == (if pc.Submit? then Submitted else if commits then Committed else StageOf(pc))
            && (pc'.Insert? && pc' != pc ==> GrantsNow(pc, result, pc'))
  {
    hide AfterLookup, AfterCall, RowOf, CacheSlot, Envelope, Fingerprint, Stored, ExtractTaskCode;
    AfterLookupUnsubmitted(sh, job);
    AfterCallSubmitted(job, result);
  }

  // ---------------------------------------------------------------- counting

  function Count(clients: seq<Client>, p: Client -> bool): nat {
    if clients == [] then 0 else Count(clients[..|clients| - 1], p) + if p(clients[|clients| - 1]) then 1 else 0
  }

  lemma {:induction false} CountUpdate(clients: seq<Client>, p: Client -> bool, i: nat, c: Client)
    requires i < |clients|
    ensures Count(clients[i := c], p) + (if p(clients[i]) then 1 else 0) == Count(clients, p) + (if p(c) then 1 else 0)
  {
    var n := |clients| - 1;
    if i == n {
      assert clients[i := c][..n] == clients[..n];
    } else {
      assert clients[i := c][..n] == clients[..n][i := c];
      CountUpdate(clients[..n], p, i, c);
    }
  }

  lemma {:induction false} CountPartition(clients: seq<Client>, p: Client -> bool, q: Client -> bool, r: Client -> bool,
                                          s: Client -> bool)
    requires forall c | c in clients ::
               (if p(c) then 1 else 0) == (if q(c) then 1 else 0) + (if r(c) then 1 else 0) + (if s(c) then 1 else 0)
    ensures Count(clients, p) == Count(clients, q) + Count(clients, r) + Count(clients, s)
  {
    if clients != [] {
      CountPartition(clients[..|clients| - 1], p, q, r, s);
    }
  }

  lemma {:induction false} CountNone(clients: seq<Client>, p: Client -> bool)
    requires forall c | c in clients :: !p(c)
    ensures Count(clients, p) == 0
  {
    if clients != [] {
      CountNone(clients[..|clients| - 1], p);
    }
  }

  function CreateCalls(calls: seq<Call>): nat {
    if calls == [] then 0 else CreateCalls(calls[..|calls| - 1]) + if calls[|calls| - 1].byCreate then 1 else 0
  }

  predicate CreatePastRcs(c: Client) {
    c.job.CreateJob? && StageOf(c.pc) != Unsubmitted
  }

  predicate CommittedCreate(c: Client) {
    c.job.CreateJob? && StageOf(c.pc) == Committed
  }

  /** Failed or crashed at or after submission, without a committed row. */
  predicate StoppedCreate(c: Client) {
    c.job.CreateJob? && StageOf(c.pc) == Submitted && Final(c.pc)
  }

  predicate InFlightCreate(c: Client) {
    c.job.CreateJob? && StageOf(c.pc) == Submitted && !Final(c.pc)
  }

  predicate CommittedClient(c: Client) {
    StageOf(c.pc) == Committed
  }

  /** RCS replied with this task code. */
  predicate RepliedWith(call: Call, code: string) {
    call.result.Reply? && ExtractTaskCode(call.result.body) == Code(code)
  }

  /** RCS gave this code in reply to a call of client i. */
  ghost predicate GrantedTo(calls: seq<Call>, i: nat, code: string) {
    exists k :: 0 <= k < |calls| && calls[k].client == i && RepliedWith(calls[k], code)
  }

  /** Row r is what client i committed, under the code RCS gave that client in reply to its own call. */
  ghost predicate Owns(w: World, i: nat, r: nat) {
    && i < |w.clients| && r < |w.shared.rows|
    && StageOf(w.clients[i].pc) == Committed
    && SameIdentity(w.shared.rows[r], RowOf(w.clients[i].job, w.shared.rows[r].robotTaskCode))
    && GrantedTo(w.shared.calls, i, w.shared.rows[r].robotTaskCode)
  }

  /** The counters of the log, the table and the clients agree; `base` rows were there at the start. */
  ghost predicate Balanced(w: World, base: nat) {
    && CreateCalls(w.shared.calls) == Count(w.clients, CreatePastRcs)
    && |w.shared.rows| == base + Count(w.clients, CommittedClient)
  }

  ghost predicate HasOwner(w: World, r: nat) {
    exists i :: Owns(w, i, r)
  }

  ghost predicate OwnsNewRow(w: World, i: nat, base: nat) {
    exists r :: base <= r && Owns(w, i, r)
  }

  /** New rows and committed clients belong together; rows about to be inserted have codes granted to their client. */
  ghost predicate RowsOwned(w: World, base: nat) {
    && base <= |w.shared.rows|
    && (forall r | base <= r < |w.shared.rows| :: HasOwner(w, r))
    && (forall i | 0 <= i < |w.clients| && StageOf(w.clients[i].pc) == Committed :: OwnsNewRow(w, i, base))
    && (forall i | 0 <= i < |w.clients| && w.clients[i].pc.Insert? :: GrantedTo(w.shared.calls, i, w.clients[i].pc.code))
  }

  lemma GrantsLast(before: seq<Call>, after: seq<Call>, i: nat, code: string)
    requires before <= after && GrantedTo(before, i, code)
    ensures GrantedTo(after, i, code)
  {
    var k :| 0 <= k < |before| && before[k].client == i && RepliedWith(before[k], code);
    assert after[k] == before[k];
  }

  /** What keeps every ownership: calls and rows only grow, identities, jobs and commitments stay. */
  ghost predicate OwnersKept(w: World, w': World) {
    && w.shared.calls <= w'.shared.calls
    && |w.clients| == |w'.clients| && |w.shared.rows| <= |w'.shared.rows|
    && (forall r | 0 <= r < |w.shared.rows| :: SameIdentity(w.shared.rows[r], w'.shared.rows[r]))
    && (forall i | 0 <= i < |w.clients| :: w'.clients[i].job == w.clients[i].job)
    && (forall i | 0 <= i < |w.clients| && StageOf(w.clients[i].pc) == Committed :: StageOf(w'.clients[i].pc) == Committed)
  }

  lemma OwnershipLasts(w: World, w': World, i: nat, r: nat)
    requires OwnersKept(w, w') && Owns(w, i, r)
    ensures Owns(w', i, r)
  {
    hide RowOf, StageOf, GrantedTo;
    GrantsLast(w.shared.calls, w'.shared.calls, i, w.shared.rows[r].robotTaskCode);
  }

  /** A step that neither inserts a row nor commits a client nor brings a client to its insert. */
  lemma QuietStepKeepsOwned(w: World, w': World, base: nat)
    requires RowsOwned(w, base) && OwnersKept(w, w') && |w'.shared.rows| == |w.shared.rows|
    requires forall i | 0 <= i < |w.clients| && StageOf(w'.clients[i].pc) == Committed :: StageOf(w.clients[i].pc) == Committed
    requires forall i | 0 <= i < |w.clients| && w'.clients[i].pc.Insert? ::
               w'.clients[i].pc == w.clients[i].pc || GrantedTo(w'.shared.calls, i, w'.clients[i].pc.code)
    ensures RowsOwned(w', base)
  {
    hide Owns, StageOf, GrantedTo;
    forall r | base <= r < |w'.shared.rows|
      ensures HasOwner(w', r)
    {
      assert HasOwner(w, r);
      var i :| Owns(w, i, r);
      OwnershipLasts(w, w', i, r);
    }
    forall i | 0 <= i < |w'.clients| && StageOf(w'.clients[i].pc) == Committed
      ensures OwnsNewRow(w', i, base)
    {
      assert OwnsNewRow(w, i, base);
      var r :| base <= r && Owns(w, i, r);
      OwnershipLasts(w, w', i, r);
    }
    forall i | 0 <= i < |w'.clients| && w'.clients[i].pc.Insert?
      ensures GrantedTo(w'.shared.calls, i, w'.clients[i].pc.code)
    {
      if w'.clients[i].pc == w.clients[i].pc {
        GrantsLast(w.shared.calls, w'.shared.calls, i, w'.clients[i].pc.code);
      }
    }
  }

  lemma AppendedCall(calls: seq<Call>, call: Call)
    ensures CreateCalls(calls + [call]) == CreateCalls(calls) + if call.byCreate then 1 else 0
  {
    assert (calls + [call])[..|calls|] == calls;
  }

  lemma AdvanceBalances(w: World, e: Event, base: nat)
    requires e.Advance? && Balanced(w, base)
    ensures Balanced(Step(w, e), base)
  {
    hide Act, Admits, RowOf, StageOf, Count, CreateCalls, GrantsNow;
    if e.client < |w.clients| {
      var c := w.clients[e.client];
      ActEffect(w.shared, e.client, c.job, c.pc, e.result, e.dbUp);
      var c' := Step(w, e).clients[e.client];
      CountUpdate(w.clients, CreatePastRcs, e.client, c');
      CountUpdate(w.clients, CommittedClient, e.client, c');
      AppendedCall(w.shared.calls, Call(e.client, c.job.CreateJob?, e.result));
      EarlyStages(c.pc);
    }
  }

  lemma EarlyStages(pc: Pc)
    ensures pc.Submit? ==> StageOf(pc) == Unsubmitted
    ensures pc.Insert? ==> StageOf(pc) == Submitted
  {
  }

  lemma StepBalances(w: World, e: Event, base: nat)
    requires Balanced(w, base)
    ensures Balanced(Step(w, e), base)
  {
    hide Act, Received, Process;
    match e
    case Advance(_, _, _) => AdvanceBalances(w, e, base);
    case Crash(i) =>
      if i < |w.clients| && !Final(w.clients[i].pc) {
        var c' := Step(w, e).clients[i];
        CountUpdate(w.clients, CreatePastRcs, i, c');
        CountUpdate(w.clients, CommittedClient, i, c');
      }
    case _ =>
  }

  /** A committing insert gives its row to its client. */
  lemma CommitKeepsOwned(w: World, e: Event, base: nat)
    requires e.Advance? && e.client < |w.clients| && RowsOwned(w, base)
    requires var pc := w.clients[e.client].pc;
             pc.Insert? && Step(w, e).shared.rows == w.shared.rows + [RowOf(w.clients[e.client].job, pc.code)]
    requires StageOf(Step(w, e).clients[e.client].pc) == Committed && OwnersKept(w, Step(w, e))
    ensures RowsOwned(Step(w, e), base)
  {
    hide Act, StageOf, GrantedTo, RowOf;
    var c, w', n := w.clients[e.client], Step(w, e), |w.shared.rows|;
    RowOfJob(c.job, c.pc.code);
    GrantsLast(w.shared.calls, w'.shared.calls, e.client, c.pc.code);
    assert Owns(w', e.client, n);
    forall r | base <= r < |w'.shared.rows|
      ensures HasOwner(w', r)
    {
      if r < n {
        assert HasOwner(w, r);
        var i :| Owns(w, i, r);
        OwnershipLasts(w, w', i, r);
      }
    }
    forall i | 0 <= i < |w'.clients| && StageOf(w'.clients[i].pc) == Committed
      ensures OwnsNewRow(w', i, base)
    {
      if i != e.client {
        assert OwnsNewRow(w, i, base);
        var r :| base <= r && Owns(w, i, r);
        OwnershipLasts(w, w', i, r);
      }
    }
    forall i | 0 <= i < |w'.clients| && w'.clients[i].pc.Insert?
      ensures GrantedTo(w'.shared.calls, i, w'.clients[i].pc.code)
    {
      CommittedIsPastInsert(w'.clients[i].pc);
      GrantsLast(w.shared.calls, w'.shared.calls, i, w'.clients[i].pc.code);
    }
  }

  lemma CommittedIsPastInsert(pc: Pc)
    ensures StageOf(pc) == Committed ==> !pc.Insert? && !pc.Submit?
  {
  }

  lemma AdvanceKeepsOwned(w: World, e: Event, base: nat)
    requires e.Advance? && RowsOwned(w, base)
    ensures RowsOwned(Step(w, e), base)
  {
    hide Act, Admits, Owns, GrantedTo, RowOf, StageOf, RowsOwned, RepliedWith;
    if e.client < |w.clients| {
      var c := w.clients[e.client];
      ActEffect(w.shared, e.client, c.job, c.pc, e.result, e.dbUp);
      CommittedIsPastInsert(c.pc);
      EarlyStages(c.pc);
      var w' := Step(w, e);
      var c' := w'.clients[e.client];
      assert OwnersKept(w, w');
      if w'.shared.rows != w.shared.rows {
        CommitKeepsOwned(w, e, base);
      } else {
        if c'.pc.Insert? && c'.pc != c.pc {
          FreshGrant(w.shared.calls, Call(e.client, c.job.CreateJob?, e.result), c'.pc.code);
        }
        QuietStepKeepsOwned(w, w', base);
      }
    }
  }

  lemma FreshGrant(calls: seq<Call>, call: Call, code: string)
    requires RepliedWith(call, code)
    ensures GrantedTo(calls + [call], call.client, code)
  {
    assert (calls + [call])[|calls|] == call;
  }

  lemma StepKeepsOwned(w: World, e: Event, base: nat)
    requires Unique(w.shared.rows) && RowsOwned(w, base)
    ensures RowsOwned(Step(w, e), base)
  {
    hide Act, Received, Process, Owns, GrantedTo, RowsOwned, Unique;
    match e
    case Advance(_, _, _) => AdvanceKeepsOwned(w, e, base);
    case Worker(p) =>
      if Received(p, w.shared.now).Some? {
        ProcessIsPointwise(w.shared.rows, Received(p, w.shared.now).value);
      }
      QuietStepKeepsOwned(w, Step(w, e), base);
    case _ => QuietStepKeepsOwned(w, Step(w, e), base);
  }

  lemma {:induction false} RunAccounts(w: World, es: seq<Event>)
    requires Initial(w)
    ensures Balanced(Run(w, es), |w.shared.rows|)
    ensures RowsOwned(Run(w, es), |w.shared.rows|)
  {
    hide Step, Inv;
    if es == [] {
      CountNone(w.clients, CreatePastRcs);
      CountNone(w.clients, CommittedClient);
      assert forall i | 0 <= i < |w.clients| :: w.clients[i] in w.clients;
    } else {
      hide Balanced, RowsOwned;
      var init := es[..|es| - 1];
      RunAccounts(w, init);
      InitialInv(w);
      RunKeepsInv(w, init);
      InvMeansUnique(Run(w, init));
      StepBalances(Run(w, init), es[|es| - 1], |w.shared.rows|);
      StepKeepsOwned(Run(w, init), es[|es| - 1], |w.shared.rows|);
    }
  }

  lemma InvMeansUnique(w: World)
    requires Inv(w)
    ensures Unique(w.shared.rows)
  {
  }

  /**
   * Conservation of submissions, in every reachable state of both endpoints. The `create_task`
   * submissions, never retried, are its committed rows, plus the attempts that failed or crashed at or
   * after submission, plus those still in flight; the table has grown by exactly the committed
   * clients of both endpoints; each new row was committed by a client under the code RCS gave in
   * reply to that client's own call, each committed client has such a row, and no client has two.
   */
  lemma Conservation(w: World, es: seq<Event>)
    requires Initial(w)
    ensures var w' := Run(w, es);
            && CreateCalls(w'.shared.calls) ==
               Count(w'.clients, CommittedCreate) + Count(w'.clients, StoppedCreate) + Count(w'.clients, InFlightCreate)
            && |w'.shared.rows| == |w.shared.rows| + Count(w'.clients, CommittedClient)
    ensures RowsOwned(Run(w, es), |w.shared.rows|)
    ensures forall i, r, s | Owns(Run(w, es), i, r) && Owns(Run(w, es), i, s) :: r == s
    ensures forall r, s, call | 0 <= r < |Run(w, es).shared.rows| && 0 <= s < |Run(w, es).shared.rows| &&
                RepliedWith(call, Run(w, es).shared.rows[r].robotTaskCode) &&
                RepliedWith(call, Run(w, es).shared.rows[s].robotTaskCode) :: r == s
  {
    hide Inv, Step, Owns, RowsOwned;
    RunAccounts(w, es);
    InitialInv(w);
    RunKeepsInv(w, es);
    var w' := Run(w, es);
    InvMeansUnique(w');
    CountPartition(w'.clients, CreatePastRcs, CommittedCreate, StoppedCreate, InFlightCreate);
    forall r, s, call | 0 <= r < |w'.shared.rows| && 0 <= s < |w'.shared.rows| &&
        RepliedWith(call, w'.shared.rows[r].robotTaskCode) && RepliedWith(call, w'.shared.rows[s].robotTaskCode)
      ensures r == s
    {
      OneRowPerReply(w', call, r, s);
    }
    CacheAnswersAvoidRcs(w, es);
    forall i, r, s | Owns(w', i, r) && Owns(w', i, s)
      ensures r == s
    {
      OneRowPerClient(w', i, r, s);
    }
  }

  lemma OneRowPerReply(w: World, call: Call, r: nat, s: nat)
    requires Unique(w.shared.rows) && r < |w.shared.rows| && s < |w.shared.rows|
    requires RepliedWith(call, w.shared.rows[r].robotTaskCode) && RepliedWith(call, w.shared.rows[s].robotTaskCode)
    ensures r == s
  {
    assert Clash(w.shared.rows[r], w.shared.rows[s]) && Clash(w.shared.rows[s], w.shared.rows[r]);
  }

  lemma OneRowPerClient(w: World, i: nat, r: nat, s: nat)
    requires Unique(w.shared.rows) && CallsAccounted(w) && Owns(w, i, r) && Owns(w, i, s)
    ensures r == s
  {
    var rows, calls := w.shared.rows, w.shared.calls;
    var k :| 0 <= k < |calls| && calls[k].client == i && RepliedWith(calls[k], rows[r].robotTaskCode);
    var l :| 0 <= l < |calls| && calls[l].client == i && RepliedWith(calls[l], rows[s].robotTaskCode);
    assert k == l;
    OneRowPerReply(w, calls[k], r, s);
  }

  // ---------------------------------------------------------------- who has called RCS

  /** Every call in the log is by a client that is past submission, and no client calls the RCS client twice. */
  ghost predicate CallsAccounted(w: World) {
    && (forall k | 0 <= k < |w.shared.calls| ::
          && w.shared.calls[k].client < |w.clients|
          && StageOf(w.clients[w.shared.calls[k].client].pc) != Unsubmitted
          && w.shared.calls[k].byCreate == w.clients[w.shared.calls[k].client].job.CreateJob?)
    && (forall k, l | 0 <= k < l < |w.shared.calls| :: w.shared.calls[k].client != w.shared.calls[l].client)
  }

  lemma StepAccountsCalls(w: World, e: Event)
    requires CallsAccounted(w)
    ensures CallsAccounted(Step(w, e))
  {
    hide Act, Received, Process, Admits, RowOf;
    if e.Advance? && e.client < |w.clients| {
      var c := w.clients[e.client];
      ActEffect(w.shared, e.client, c.job, c.pc, e.result, e.dbUp);
    }
  }

  /** A request answered from the cache, or refused for a reused key, never reaches the RCS client in any run. */
  lemma {:induction false} CacheAnswersAvoidRcs(w: World, es: seq<Event>)
    requires Initial(w)
    ensures CallsAccounted(Run(w, es))
    ensures forall k, i | 0 <= k < |Run(w, es).shared.calls| && 0 <= i < |Run(w, es).clients| &&
                (Run(w, es).clients[i].pc.Replayed? || Run(w, es).clients[i].pc == Rejected(KeyReused, Unsubmitted)) ::
              Run(w, es).shared.calls[k].client != i
  {
    hide Step;
    if es != [] {
      CacheAnswersAvoidRcs(w, es[..|es| - 1]);
      StepAccountsCalls(Run(w, es[..|es| - 1]), es[|es| - 1]);
    }
  }

  // ---------------------------------------------------------------- the replay window

  /** Client i is a `create_task` that has answered and caches its answer. */
  predicate SavedClient(w: World, i: nat) {
    i < |w.clients| && w.clients[i].job.CreateJob? && w.clients[i].pc.Answered? && CacheSlot(w.clients[i].job).Some?
  }

  /** Its envelope stands in the cache, with this expiry. */
  predicate SavedUntil(w: World, i: nat, expiry: nat) {
    && SavedClient(w, i)
    && var slot := CacheSlot(w.clients[i].job).value;
       slot in w.shared.store
       && w.shared.store[slot] == Entry(Envelope(Fingerprint(w.clients[i].job), w.clients[i].pc.answer), Some(expiry))
  }

  /** What stands in its slot, if anything, is another envelope. */
  predicate Lost(w: World, i: nat) {
    && SavedClient(w, i)
    && var slot := CacheSlot(w.clients[i].job).value;
       slot in w.shared.store ==>
         w.shared.store[slot].value != Envelope(Fingerprint(w.clients[i].job), w.clients[i].pc.answer)
  }

  /** The event evicts the slot, or is the save of a raw call that has the same slot. */
  predicate Loses(w: World, e: Event, slot: string) {
    || (e.Evict? && e.slot == slot)
    || (e.Advance? && e.client < |w.clients| && w.clients[e.client].pc.Save?
        && w.clients[e.client].job.RawJob? && CacheSlot(w.clients[e.client].job) == Some(slot))
  }

  /** No event of the run does, in the state that meets it. */
  predicate NothingLoses(w: World, es: seq<Event>, slot: string) {
    es != [] ==>
      NothingLoses(w, es[..|es| - 1], slot) && !Loses(Run(w, es[..|es| - 1]), es[|es| - 1], slot)
  }

  lemma SlotHasKey(job: Job)
    requires CacheSlot(job).Some?
    ensures job.key.Some?
  {
  }

  /** No other `create_task` is about to save under the slot of one that has answered. */
  lemma OneCreateSaver(w: World, i: nat, j: nat)
    requires Inv(w) && SavedClient(w, i)
    requires j < |w.clients| && w.clients[j].pc.Save? && CacheSlot(w.clients[j].job) == CacheSlot(w.clients[i].job)
    ensures w.clients[j].job.RawJob?
  {
    hide CacheSlot;
    if w.clients[j].job.CreateJob? {
      SlotIdentifiesKey(w.clients[i].job, w.clients[j].job);
      assert AnswerFits(w.clients[i]) && AnswerFits(w.clients[j]);
      SlotHasKey(w.clients[i].job);
      OneHolder(w, j, i);
    }
  }

  /** The endpoints never write the same envelope. */
  lemma EnvelopesDiffer(job: Job, a: Answer, other: string, b: Answer)
    requires a.CreateAnswer? && b.RawAnswer?
    ensures Envelope(other, b) != Envelope(Fingerprint(job), a)
  {
    hide Fingerprint, CreateEnvelope, RawEnvelope;
    ForeignEnvelopesMismatch(other, Fingerprint(job), a.created, b.result);
    CreateEnvelopeRoundTrip(Fingerprint(job), Fingerprint(job), a.created);
  }

  /** Whether one event changes what stands in the slot of a client that has answered. */
  lemma SlotAfterStep(w: World, e: Event, i: nat)
    requires Inv(w) && SavedClient(w, i)
    ensures var slot, w' := CacheSlot(w.clients[i].job).value, Step(w, e);
            && i < |w'.clients| && w'.clients[i] == w.clients[i]
            && (!Loses(w, e, slot) ==>
                 (slot in w'.shared.store <==> slot in w.shared.store)
                 && (slot in w.shared.store ==> w'.shared.store[slot] == w.shared.store[slot]))
            && (Loses(w, e, slot) ==>
                 slot in w'.shared.store ==>
                   w'.shared.store[slot].value != Envelope(Fingerprint(w.clients[i].job), w.clients[i].pc.answer))
  {
    hide Envelope, Fingerprint, Received, Process, AfterLookup, AfterCall, RowOf, CacheSlot;
    StepIsLocal(w, e);
    if e.Advance? && e.client < |w.clients| && w.clients[e.client].pc.Save? {
      var c := w.clients[e.client];
      SaveEffect(w, e.client, e.result, e.dbUp);
      if CacheSlot(c.job) == CacheSlot(w.clients[i].job) {
        OneCreateSaver(w, i, e.client);
        assert AnswerFits(c) && AnswerFits(w.clients[i]);
        EnvelopesDiffer(w.clients[i].job, w.clients[i].pc.answer, Fingerprint(c.job), c.pc.answer);
      }
    }
  }

  /** Exactly which events take a saved envelope away, for every key; whatever is lost stays lost. */
  lemma StepKeepsSavedIff(w: World, e: Event, i: nat, expiry: nat)
    requires Inv(w) && SavedClient(w, i)
    ensures SavedUntil(w, i, expiry) ==>
              var slot := CacheSlot(w.clients[i].job).value;
              && (SavedUntil(Step(w, e), i, expiry) <==> !Loses(w, e, slot))
              && (Lost(Step(w, e), i) <==> Loses(w, e, slot))
    ensures Lost(w, i) ==> Lost(Step(w, e), i)
  {
    hide Envelope, Fingerprint, CacheSlot, Step, Inv, Loses;
    SlotAfterStep(w, e, i);
  }

  /** Over whole runs: the envelope stands exactly when no event has taken it away, and otherwise is lost for good. */
  lemma {:induction false} RunKeepsSavedIff(w: World, es: seq<Event>, i: nat, expiry: nat)
    requires Inv(w) && SavedUntil(w, i, expiry)
    ensures var slot := CacheSlot(w.clients[i].job).value;
            && (SavedUntil(Run(w, es), i, expiry) <==> NothingLoses(w, es, slot))
            && (Lost(Run(w, es), i) <==> !NothingLoses(w, es, slot))
    ensures i < |Run(w, es).clients| && Run(w, es).clients[i] == w.clients[i]
  {
    hide Inv, Step, Loses, Envelope, Fingerprint, CacheSlot;
    if es != [] {
      var init := es[..|es| - 1];
      RunKeepsSavedIff(w, init, i, expiry);
      RunKeepsInv(w, init);
      SavedOrLost(w, init, i, expiry);
      StepKeepsSavedIff(Run(w, init), es[|es| - 1], i, expiry);
      StepIsLocal(Run(w, init), es[|es| - 1]);
    }
  }

  lemma SavedOrLost(w: World, es: seq<Event>, i: nat, expiry: nat)
    requires SavedUntil(w, i, expiry) && i < |Run(w, es).clients| && Run(w, es).clients[i] == w.clients[i]
    ensures SavedClient(Run(w, es), i)
    ensures SavedUntil(Run(w, es), i, expiry) ==> !Lost(Run(w, es), i)
  {
    hide Run, Envelope, Fingerprint, CacheSlot;
  }

  /** What a lookup of the key answers an equal request as long as the envelope stands. */
  function SavedReplay(answer: Answer): Pc
    requires answer.CreateAnswer?
  {
    Replayed(CreateAnswer(CreateResult(answer.created.robotTaskCode, "pending", true)))
  }

  lemma SavedIsReplayed(w: World, i: nat, expiry: nat, job: Job)
    requires Inv(w) && SavedUntil(w, i, expiry) && w.shared.now < expiry
    requires job.CreateJob? && job.key == w.clients[i].job.key
    ensures w.clients[i].pc.answer.CreateAnswer?
    ensures AfterLookup(w.shared, job) ==
              if job.create == w.clients[i].job.create then SavedReplay(w.clients[i].pc.answer)
              else Rejected(KeyReused, Unsubmitted)
  {
    hide Fingerprint, Envelope, ReadCache, Inv;
    ReadsOwnEnvelopes(job, Fingerprint(w.clients[i].job), w.clients[i].pc.answer);
    CreateJobsAgree(job, w.clients[i].job);
    AnswerShape(w, i);
  }

  lemma LostIsNotReplayed(w: World, i: nat, job: Job)
    requires Inv(w) && Lost(w, i) && job.CreateJob? && job.key == w.clients[i].job.key
    ensures !AfterLookup(w.shared, job).Replayed?
  {
    hide Fingerprint, Envelope, ReadCache, ValidPath;
    var slot := CacheSlot(job).value;
    ReadsOwnEnvelopes(job, "", UnpersistedAnswer(None, map[]));
    if Lookup(w.shared.store, w.shared.now, slot).Some? {
      BackedElsewhere(w, i, slot);
    }
    if AfterLookup(w.shared, job).Replayed? {
      var s :| s in w.clients && Backs(s, slot, w.shared.store[slot].value);
      ReadsOwnEnvelopes(job, Fingerprint(s.job), s.pc.answer);
      assert false;
    }
  }

  /** The only `create_task` that backs the slot of one that has answered is that one itself. */
  lemma CreateBacker(w: World, i: nat, k: nat, slot: string, value: Json)
    requires Inv(w) && SavedClient(w, i) && CacheSlot(w.clients[i].job) == Some(slot)
    requires k < |w.clients| && w.clients[k].job.CreateJob? && Backs(w.clients[k], slot, value)
    ensures k == i
  {
    hide Fingerprint, Envelope, CacheSlot;
    SlotIdentifiesKey(w.clients[k].job, w.clients[i].job);
    SlotHasKey(w.clients[k].job);
    assert AnswerFits(w.clients[k]) && AnswerFits(w.clients[i]);
    OneHolder(w, k, i);
  }

  /** What stands in a slot after the envelope was lost is a raw envelope. */
  lemma BackedElsewhere(w: World, i: nat, slot: string)
    requires Inv(w) && Lost(w, i) && CacheSlot(w.clients[i].job) == Some(slot) && slot in w.shared.store
    ensures forall s | s in w.clients && Backs(s, slot, w.shared.store[slot].value) :: s.job.RawJob?
  {
    hide Fingerprint, Envelope, Inv;
    forall s | s in w.clients && Backs(s, slot, w.shared.store[slot].value)
      ensures s.job.RawJob?
    {
      if s.job.CreateJob? {
        var k :| 0 <= k < |w.clients| && w.clients[k] == s;
        CreateBacker(w, i, k, slot, w.shared.store[slot].value);
      }
    }
  }

  /**
   * Replay window, for every key: from the moment `create_task` has saved its envelope, over any
   * further events, a lookup of the key before expiry by an equal request is answered with the saved
   * code and status, marked cached, if and only if nothing has evicted the slot and no raw call has
   * saved under it; as long as that is so, a different request is refused.
   */
  lemma ReplayWindow(w: World, i: nat, result: CallResult, dbUp: bool, es: seq<Event>, j: nat)
    requires Inv(w) && i < |w.clients| && w.clients[i].pc.Save?
    requires w.clients[i].job.CreateJob? && CacheSlot(w.clients[i].job).Some?
    requires j < |w.clients| && w.clients[j].job.CreateJob? && w.clients[j].job.key == w.clients[i].job.key
    requires Run(Step(w, Advance(i, result, dbUp)), es).shared.now < w.shared.now + 86400
    ensures w.clients[i].pc.answer.CreateAnswer?
    ensures var saved := Step(w, Advance(i, result, dbUp));
            var found := AfterLookup(Run(saved, es).shared, w.clients[j].job);
            var kept := NothingLoses(saved, es, CacheSlot(w.clients[i].job).value);
            && (w.clients[j].job.create == w.clients[i].job.create ==>
                 (found == SavedReplay(w.clients[i].pc.answer) <==> kept))
            && (w.clients[j].job.create != w.clients[i].job.create && kept ==> found == Rejected(KeyReused, Unsubmitted))
  {
    hide Fingerprint, Envelope, ReadCache, Step, Inv, AfterLookup, CacheSlot, NothingLoses, SavedUntil, Lost;
    var saved := Step(w, Advance(i, result, dbUp));
    var expiry := w.shared.now + IDEMPOTENCY_KEY_TTL_SECONDS;
    AnswerShape(w, i);
    StepKeepsInv(w, Advance(i, result, dbUp));
    SavingSaves(w, i, result, dbUp);
    RunKeepsSavedIff(saved, es, i, expiry);
    RunKeepsInv(saved, es);
    if SavedUntil(Run(saved, es), i, expiry) {
      SavedIsReplayed(Run(saved, es), i, expiry, w.clients[j].job);
    } else {
      LostIsNotReplayed(Run(saved, es), i, w.clients[j].job);
    }
  }

  lemma SavingSaves(w: World, i: nat, result: CallResult, dbUp: bool)
    requires i < |w.clients| && w.clients[i].pc.Save? && w.clients[i].job.CreateJob? && CacheSlot(w.clients[i].job).Some?
    ensures SavedUntil(Step(w, Advance(i, result, dbUp)), i, w.shared.now + IDEMPOTENCY_KEY_TTL_SECONDS)
    ensures Step(w, Advance(i, result, dbUp)).clients[i] == w.clients[i].(pc := Answered(w.clients[i].pc.answer))
  {
    hide Fingerprint, Envelope, Step, CacheSlot;
    SaveEffect(w, i, result, dbUp);
  }

  lemma CreateJobsAgree(a: Job, b: Job)
    requires a.CreateJob? && b.CreateJob?
    ensures Fingerprint(a) == Fingerprint(b) <==> a.create == b.create
  {
    hide Fingerprint;
    FingerprintsDecide(a, b);
  }

  lemma AnswerShape(w: World, i: nat)
    requires Inv(w) && i < |w.clients| && (w.clients[i].pc.Save? || w.clients[i].pc.Answered?) && w.clients[i].job.CreateJob?
    ensures w.clients[i].pc.answer.CreateAnswer? && w.clients[i].pc.answer.created.status == "pending"
  {
    assert AnswerFits(w.clients[i]);
  }

  // ---------------------------------------------------------------- which keys are safe from the other endpoint

  /** The key does not spell out the other endpoint's prefix. */
  predicate PlainKey(key: Option<string>) {
    key.Some? ==> !("rcs_raw:" <= key.value)
  }

  /** Under a plain key only an eviction takes the envelope away: no raw call shares its slot. */
  lemma PlainKeyLosesByEviction(w: World, es: seq<Event>, job: Job)
    requires job.CreateJob? && CacheSlot(job).Some? && PlainKey(job.key)
    ensures NothingLoses(w, es, CacheSlot(job).value) <==>
              forall e | e in es && e.Evict? :: e.slot != CacheSlot(job).value
  {
    hide CacheSlot, Run, PlainKey;
    if es != [] {
      var init := es[..|es| - 1];
      PlainKeyLosesByEviction(w, init, job);
      assert es == init + [es[|es| - 1]];
      forall c: Client | c.job.RawJob?
        ensures CacheSlot(c.job) != CacheSlot(job)
      {
        PlainKeysHaveOwnSlots(job, c.job);
      }
    }
  }

  lemma PlainKeysHaveOwnSlots(a: Job, b: Job)
    requires a.CreateJob? && b.RawJob? && CacheSlot(a).Some? && PlainKey(a.key)
    ensures CacheSlot(a) != CacheSlot(b)
  {
    if CacheSlot(a) == CacheSlot(b) {
      EndpointKeysCoincide(a.key.value, b.key.value);
    }
  }

  /** Two jobs of different endpoints share a slot exactly when the create key is the raw key behind the raw prefix. */
  lemma SharedSlots(a: Job, b: Job)
    requires a.CreateJob? && b.RawJob? && CacheSlot(a).Some? && CacheSlot(b).Some?
    ensures CacheSlot(a) == CacheSlot(b) <==> a.key.value == "rcs_raw:" + b.key.value
  {
    EndpointKeysCoincide(a.key.value, b.key.value);
  }
}
