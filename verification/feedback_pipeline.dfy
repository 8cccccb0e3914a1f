/** From the webhook to the row: what an acknowledgement is worth once the queue has been worked off. */
module FeedbackPipeline {
  import opened Wrappers
  import opened Text
  import opened Redis
  import opened TaskTable
  import opened Feedback
  import opened Webhook

  // ---------------------------------------------------------------- what an acknowledgement rests on

  ghost predicate ClaimedOnce(claims: seq<Claim>, key: string) {
    exists k :: 0 <= k < |claims| && claims[k].key == key
  }

  ghost predicate CameIn(handlers: seq<Handler>, p: Payload) {
    exists i :: 0 <= i < |handlers| && handlers[i].payload == p
  }

  /** The handler has been told of a claim, or has made one. */
  predicate KnowsClaim(pc: Pc) {
    pc.LogDuplicate? || pc.Acked? || Between(pc) || HasQueued(pc)
  }

  ghost predicate ClaimBehind(claims: seq<Claim>, h: Handler) {
    KnowsClaim(h.pc) ==> ClaimedOnce(claims, KeyOf(h.payload))
  }

  /** Marked keys have been claimed, claims stand behind what handlers answer, queued calls have come in. */
  ghost predicate Traced(s: State) {
    && (forall key | key in s.store :: ClaimedOnce(s.claims, key))
    && (forall i | 0 <= i < |s.handlers| :: ClaimBehind(s.claims, s.handlers[i]))
    && (forall k | 0 <= k < |s.queue| :: CameIn(s.handlers, s.queue[k]))
  }

  lemma StepIsLocal(s: State, e: Event)
    ensures |Step(s, e).handlers| == |s.handlers|
    ensures forall i | 0 <= i < |s.handlers| :: Step(s, e).handlers[i].payload == s.handlers[i].payload
    ensures forall i | 0 <= i < |s.handlers| && Step(s, e).handlers[i] != s.handlers[i] :: !e.Tick? && e.handler == i
    ensures s.claims <= Step(s, e).claims
    ensures Step(s, e).queue == s.queue ||
            (!e.Tick? && e.handler < |s.handlers| && Step(s, e).queue == s.queue + [s.handlers[e.handler].payload])
    ensures forall key | key in Step(s, e).store && key !in s.store :: ClaimedOnce(Step(s, e).claims, key)
  {
    hide KeyOf, Lookup;
    if e.Advance? && e.handler < |s.handlers| && |Step(s, e).claims| > |s.claims| {
      assert Step(s, e).claims[|s.claims|].key == KeyOf(s.handlers[e.handler].payload);
    }
  }

  lemma ClaimsLast(claims: seq<Claim>, claims': seq<Claim>, key: string)
    requires claims <= claims' && ClaimedOnce(claims, key)
    ensures ClaimedOnce(claims', key)
  {
    var k :| 0 <= k < |claims| && claims[k].key == key;
    assert claims'[k] == claims[k];
  }

  /** A handler learns of a claim only when it makes it or meets its mark in Redis. */
  lemma MoverHasClaim(s: State, i: nat, e: Event)
    requires Traced(s) && i < |s.handlers|
    ensures ClaimBehind(Step(s, e).claims, Step(s, e).handlers[i])
  {
    hide KeyOf;
    StepIsLocal(s, e);
    var s', key := Step(s, e), KeyOf(s.handlers[i].payload);
    if KnowsClaim(s'.handlers[i].pc) {
      if KnowsClaim(s.handlers[i].pc) {
        assert ClaimBehind(s.claims, s.handlers[i]);
        ClaimsLast(s.claims, s'.claims, key);
      } else if key in s.store {
        ClaimsLast(s.claims, s'.claims, key);
      } else {
        assert key in s'.store;
      }
    }
  }

  lemma StepKeepsTraced(s: State, e: Event)
    requires Traced(s)
    ensures Traced(Step(s, e))
  {
    hide Step, ClaimBehind, ClaimedOnce;
    StepIsLocal(s, e);
    var s' := Step(s, e);
    forall key | key in s'.store
      ensures ClaimedOnce(s'.claims, key)
    {
      if key in s.store {
        ClaimsLast(s.claims, s'.claims, key);
      }
    }
    forall i | 0 <= i < |s'.handlers|
      ensures ClaimBehind(s'.claims, s'.handlers[i])
    {
      MoverHasClaim(s, i, e);
    }
    forall k | 0 <= k < |s'.queue|
      ensures CameIn(s'.handlers, s'.queue[k])
    {
      var i := if k < |s.queue| then var i :| 0 <= i < |s.handlers| && s.handlers[i].payload == s.queue[k]; i
               else e.handler;
      assert s'.handlers[i].payload == s'.queue[k];
    }
  }

  lemma {:induction false} RunIsTraced(s: State, es: seq<Event>)
    requires Initial(s)
    ensures Traced(Run(s, es))
  {
    hide Step;
    if es == [] {
      assert forall i | 0 <= i < |s.handlers| :: s.handlers[i] in s.handlers;
    } else {
      RunIsTraced(s, es[..|es| - 1]);
      StepKeepsTraced(Run(s, es[..|es| - 1]), es[|es| - 1]);
    }
  }

  // ---------------------------------------------------------------- counting back to an element

  lemma {:induction false} ClaimIsCounted(claims: seq<Claim>, key: string)
    requires ClaimedOnce(claims, key)
    ensures ClaimsOf(claims, key) > 0
  {
    var k :| 0 <= k < |claims| && claims[k].key == key;
    if k < |claims| - 1 {
      assert claims[..|claims| - 1][k].key == key;
      ClaimIsCounted(claims[..|claims| - 1], key);
    }
  }

  /** A message of this key is in the queue. */
  ghost predicate Queued(queue: seq<Payload>, key: string) {
    exists k :: 0 <= k < |queue| && KeyOf(queue[k]) == key
  }

  /** A handler has put a call of this key in the queue. */
  ghost predicate QueuedBySome(handlers: seq<Handler>, key: string) {
    exists i :: 0 <= i < |handlers| && HasQueued(handlers[i].pc) && KeyOf(handlers[i].payload) == key
  }

  lemma {:induction false} QueuedIffCounted(queue: seq<Payload>, key: string)
    ensures Queued(queue, key) <==> QueuedOf(queue, key) > 0
  {
    hide KeyOf;
    if queue != [] {
      var n := |queue| - 1;
      QueuedIffCounted(queue[..n], key);
      assert forall k | 0 <= k < n :: queue[..n][k] == queue[k];
    }
  }

  lemma {:induction false} QueuedByIffCounted(handlers: seq<Handler>, key: string)
    ensures QueuedBySome(handlers, key) <==> QueuersOf(handlers, key) > 0
  {
    hide KeyOf, HasQueued;
    if handlers != [] {
      var n := |handlers| - 1;
      QueuedByIffCounted(handlers[..n], key);
      assert forall i | 0 <= i < n :: handlers[..n][i] == handlers[i];
    }
  }

  lemma {:induction false} NobodyBetween(handlers: seq<Handler>, key: string)
    requires forall i | 0 <= i < |handlers| && KeyOf(handlers[i].payload) == key :: !Between(handlers[i].pc)
    ensures BetweenOf(handlers, key) == 0
  {
    hide KeyOf;
    if handlers != [] {
      var init := handlers[..|handlers| - 1];
      assert forall i | 0 <= i < |init| :: init[i] == handlers[i];
      NobodyBetween(init, key);
    }
  }

  /**
   * Exactly when a call of a key has reached the queue, in every reachable state: when the key was
   * claimed more often than handlers stand or have stopped between claim and enqueue. Earlier claims
   * that died and expired do not matter.
   */
  lemma QueuedIffClaimed(s: State, es: seq<Event>, key: string)
    requires Initial(s)
    ensures Queued(Run(s, es).queue, key) <==> ClaimsOf(Run(s, es).claims, key) > BetweenOf(Run(s, es).handlers, key)
    ensures Queued(Run(s, es).queue, key) <==> QueuedBySome(Run(s, es).handlers, key)
  {
    hide KeyOf, Step, HasQueued;
    ClaimsAreAccounted(s, es, key);
    QueuedIffCounted(Run(s, es).queue, key);
    QueuedByIffCounted(Run(s, es).handlers, key);
  }

  /** An acknowledgement that is not a duplicate vouches for a queued message of its key. */
  lemma FreshAckIsQueued(s: State, es: seq<Event>, i: nat)
    requires Initial(s) && i < |Run(s, es).handlers| && Run(s, es).handlers[i].pc == Acked(false)
    ensures Queued(Run(s, es).queue, KeyOf(Run(s, es).handlers[i].payload))
  {
    hide KeyOf, Step;
    QueuedIffClaimed(s, es, KeyOf(Run(s, es).handlers[i].payload));
  }

  /** Not the other way round: a handler that stops between enqueue and answer leaves a message nobody acknowledged. */
  lemma QueuedWithoutAnswer(s: State, i: nat, logged: bool)
    requires i < |s.handlers| && s.handlers[i].pc.Arrived? && s.handlers[i].signatureValid
    requires Lookup(s.store, s.now, KeyOf(s.handlers[i].payload)).None?
    ensures var e := Advance(i, logged);
            var s' := Step(Step(Step(Step(s, e), e), e), Crash(i));
            s'.queue == s.queue + [s.handlers[i].payload] && s'.handlers == s.handlers[i := s.handlers[i].(pc := Stopped(AfterQueue))]
  {
    hide KeyOf;
  }

  /** No handler of this key stands, or has stopped, between its claim and its enqueue. */
  ghost predicate Settled(s: State, key: string) {
    forall i | 0 <= i < |s.handlers| && KeyOf(s.handlers[i].payload) == key :: !Between(s.handlers[i].pc)
  }

  /** An acknowledged call, duplicate or not, has a call of its key in the queue once its key is settled. */
  lemma AcknowledgedIsQueued(s: State, es: seq<Event>, i: nat)
    requires Initial(s) && i < |Run(s, es).handlers| && Run(s, es).handlers[i].pc.Acked?
    requires Settled(Run(s, es), KeyOf(Run(s, es).handlers[i].payload))
    ensures Queued(Run(s, es).queue, KeyOf(Run(s, es).handlers[i].payload))
  {
    hide KeyOf, Step, Queued, QueuedBySome;
    var s' := Run(s, es);
    var key := KeyOf(s'.handlers[i].payload);
    RunIsTraced(s, es);
    assert ClaimBehind(s'.claims, s'.handlers[i]);
    ClaimIsCounted(s'.claims, key);
    NobodyBetween(s'.handlers, key);
    QueuedIffClaimed(s, es, key);
  }

  // ---------------------------------------------------------------- from the acknowledgement to the row

  /** Every queued message has been processed at least once, in any order, with anything else around it. */
  ghost predicate WorkedOff(queue: seq<Payload>, ds: seq<Delivery>) {
    forall p | p in queue && Received(p, 0).Some? ::
      exists n :: 0 <= n < |ds| && SameCall(ds[n], Received(p, 0).value)
  }

  /** The calls that came in under this key are all one call, once received. */
  ghost predicate OneCall(handlers: seq<Handler>, key: string) {
    forall i, j | 0 <= i < |handlers| && 0 <= j < |handlers| && KeyOf(handlers[i].payload) == KeyOf(handlers[j].payload) == key ::
      ReceivedAlike(handlers[i].payload, handlers[j].payload)
  }

  /** Both are discarded, or both arrive as the same call. */
  predicate ReceivedAlike(a: Payload, b: Payload) {
    && Received(a, 0).Some? == Received(b, 0).Some?
    && (Received(a, 0).Some? ==> SameCall(Received(a, 0).value, Received(b, 0).value))
  }

  /** Methods without a `:` leave only one call to a key. */
  lemma PlainActionsAreOneCall(handlers: seq<Handler>, key: string)
    requires forall i | 0 <= i < |handlers| && KeyOf(handlers[i].payload) == key :: ':' !in handlers[i].payload.action
    ensures OneCall(handlers, key)
  {
    hide Strip, WebhookDedupeKey, ReceivedAlike;
    forall i, j | 0 <= i < |handlers| && 0 <= j < |handlers| && KeyOf(handlers[i].payload) == KeyOf(handlers[j].payload) == key
      ensures ReceivedAlike(handlers[i].payload, handlers[j].payload)
    {
      var a, b := handlers[i].payload, handlers[j].payload;
      DedupeKeyIdentifies(a.robotTaskCode, a.action, b.robotTaskCode, b.action);
      SameTextsAlike(a, b);
    }
  }

  lemma SameTextsAlike(a: Payload, b: Payload)
    requires a.robotTaskCode == b.robotTaskCode && a.action == b.action
    ensures ReceivedAlike(a, b)
  {
    hide Strip;
  }

  /** When a message is processed decides its stamps and nothing else. */
  lemma ReceivedAnyTime(p: Payload, now: nat)
    ensures Received(p, now).Some? == Received(p, 0).Some?
    ensures Received(p, now).Some? ==> SameCall(Received(p, now).value, Received(p, 0).value)
  {
    hide Strip;
  }

  /** A state some run of the webhook endpoint leads to. */
  ghost predicate Reachable(w: State) {
    exists s, es :: Initial(s) && w == Run(s, es)
  }

  /** The key has reached the queue. */
  predicate ReachedQueue(w: State, key: string) {
    ClaimsOf(w.claims, key) > BetweenOf(w.handlers, key)
  }

  lemma MessageOfKey(w: State, key: string) returns (p: Payload)
    requires Reachable(w) && ReachedQueue(w, key)
    ensures p in w.queue && KeyOf(p) == key && CameIn(w.handlers, p)
  {
    hide Step, Run, KeyOf, Initial;
    var s, es :| Initial(s) && w == Run(s, es);
    QueuedIffClaimed(s, es, key);
    RunIsTraced(s, es);
    var k :| 0 <= k < |w.queue| && KeyOf(w.queue[k]) == key;
    p := w.queue[k];
  }

  /**
   * A call takes effect once its key has reached the queue: when the workers have processed each
   * queued message at least once, the row shows all the call can do to it, however the queue
   * reordered and repeated; one more copy would change neither its status nor its times.
   */
  lemma AcknowledgedTakesEffect(w: State, call: Payload, row: TaskRow, ds: seq<Delivery>, now: nat)
    requires Reachable(w) && CameIn(w.handlers, call) && OneCall(w.handlers, KeyOf(call))
    requires ReachedQueue(w, KeyOf(call))
    requires WorkedOff(w.queue, ds)
    requires Received(call, now).Some?
    ensures var again := Received(call, now).value;
            && (Concerns(row, again) ==> HasAbsorbed(AbsorbAll(row, ds), again.action))
            && (Concerns(row, again) && again.action == "end" ==> Terminal(AbsorbAll(row, ds).status))
            && CoreOf(Absorb(AbsorbAll(row, ds), again)) == CoreOf(AbsorbAll(row, ds))
  {
    hide Reachable, ReachedQueue, KeyOf, Received, Absorb, AbsorbAll;
    var p := MessageOfKey(w, KeyOf(call));
    assert ReceivedAlike(p, call);
    ReceivedAnyTime(call, now);
    var n :| 0 <= n < |ds| && SameCall(ds[n], Received(p, 0).value);
    var again := Received(call, now).value;
    if Concerns(row, again) {
      ProcessedIsAbsorbed(row, ds, n);
    }
    RepeatIsInvisible(row, ds, n, again);
  }

  /**
   * Without that, an acknowledged call can be lost for good: two different calls of one key, the
   * second acknowledged as a duplicate of the first and never queued.
   */
  lemma CollidingCallIsLost(s: State, i: nat, j: nat, logged: bool)
    requires i < |s.handlers| && j < |s.handlers| && i != j && s.queue == []
    requires s.handlers[i].pc.Arrived? && s.handlers[i].signatureValid
    requires s.handlers[j].pc.Arrived? && s.handlers[j].signatureValid
    requires KeyOf(s.handlers[i].payload) == KeyOf(s.handlers[j].payload)
    requires Lookup(s.store, s.now, KeyOf(s.handlers[i].payload)).None?
    ensures var a, b := Advance(i, logged), Advance(j, logged);
            var s' := Step(Step(Step(Step(Step(Step(s, a), a), a), a), b), b);
            && s'.handlers == s.handlers[i := s.handlers[i].(pc := Acked(false))][j := s.handlers[j].(pc := Acked(true))]
            && s'.queue == [s.handlers[i].payload]
    ensures Strip(s.handlers[i].payload.robotTaskCode) != Strip(s.handlers[j].payload.robotTaskCode) ==>
              !Guaranteed([s.handlers[i].payload], Strip(s.handlers[j].payload.robotTaskCode),
                          Strip(s.handlers[j].payload.action))
  {
    hide KeyOf, Strip, Guaranteed;
    GuaranteedIffCovered([s.handlers[i].payload], Strip(s.handlers[j].payload.robotTaskCode),
                         Strip(s.handlers[j].payload.action));
  }

  /** There are such calls: any code, and any method behind a `:`. */
  lemma CollidingCallsExist(code: string, piece: string, action: string)
    ensures WebhookDedupeKey(code, piece + (":" + action)) == WebhookDedupeKey(code + (":" + piece), action)
    ensures code != code + (":" + piece)
  {
    hide WebhookDedupeKey;
    OverlapMeansSameKey(code, piece + (":" + action), code + (":" + piece), action);
    assert |code + (":" + piece)| > |code|;
  }

  // ---------------------------------------------------------------- which queues guarantee an effect

  /** Whatever this method has done to a row includes all the other can do. */
  predicate Covers(done: string, action: string) {
    || Terminal(TargetOf(done))
    || (TargetOf(action).Running? && (action == "start" ==> done == "start"))
  }

  ghost predicate Covered(queue: seq<Payload>, code: string, action: string) {
    exists p :: p in queue && Received(p, 0).Some? && Received(p, 0).value.code == code
                && Covers(Received(p, 0).value.action, action)
  }

  /** Working off the queue shows the call on any row of the task, in any order, with any repeats. */
  ghost predicate Guaranteed(queue: seq<Payload>, code: string, action: string) {
    forall row: TaskRow, ds | row.robotTaskCode == code && WorkedOff(queue, ds) :: HasAbsorbed(AbsorbAll(row, ds), action)
  }

  /** The queue worked off once, in its own order. */
  function InOrder(queue: seq<Payload>): (ds: seq<Delivery>)
    ensures forall p | p in queue && Received(p, 0).Some? :: Received(p, 0).value in ds
    ensures forall d | d in ds :: exists p :: p in queue && Received(p, 0) == Some(d)
  {
    if queue == [] then []
    else
      var first := Received(queue[0], 0);
      assert queue[0] in queue;
      (if first.Some? then [first.value] else []) + InOrder(queue[1..])
  }

  lemma InOrderWorksOff(queue: seq<Payload>)
    ensures WorkedOff(queue, InOrder(queue))
  {
    hide Received;
    forall p | p in queue && Received(p, 0).Some?
      ensures exists n :: 0 <= n < |InOrder(queue)| && SameCall(InOrder(queue)[n], Received(p, 0).value)
    {
      var n :| 0 <= n < |InOrder(queue)| && InOrder(queue)[n] == Received(p, 0).value;
      assert SameCall(InOrder(queue)[n], Received(p, 0).value);
    }
  }

  lemma CoveredIsAbsorbed(queue: seq<Payload>, row: TaskRow, ds: seq<Delivery>, action: string)
    requires Covered(queue, row.robotTaskCode, action) && WorkedOff(queue, ds)
    ensures HasAbsorbed(AbsorbAll(row, ds), action)
  {
    hide Received, AbsorbAll;
    var p :| p in queue && Received(p, 0).Some? && Received(p, 0).value.code == row.robotTaskCode
             && Covers(Received(p, 0).value.action, action);
    var n :| 0 <= n < |ds| && SameCall(ds[n], Received(p, 0).value);
    ProcessedIsAbsorbed(row, ds, n);
  }

  /** A fresh row shows only what some delivery for it covers. */
  lemma UncoveredIsNotAbsorbed(ds: seq<Delivery>, row: TaskRow, action: string)
    requires row == FreshRow(row.robotTaskCode, Pending, None, None, None, None)
    requires forall d | d in ds && Concerns(row, d) :: !Covers(d.action, action)
    ensures !HasAbsorbed(AbsorbAll(row, ds), action)
  {
    hide AbsorbAll, TargetOf;
    assert forall i | 0 <= i < |ds| :: ds[i] in ds;
    ClosedFormUndecided(row, ds);
    ClosedFormStart(row, ds);
  }

  /**
   * Exactly when working off a queue is bound to show a call: when the queue holds a message of the
   * task whose method covers it. The call itself does, and so does any final method.
   */
  lemma GuaranteedIffCovered(queue: seq<Payload>, code: string, action: string)
    ensures Guaranteed(queue, code, action) <==> Covered(queue, code, action)
    ensures Covers(action, action)
  {
    hide Received, AbsorbAll, HasAbsorbed, WorkedOff, Covers;
    if Covered(queue, code, action) {
      forall row: TaskRow, ds | row.robotTaskCode == code && WorkedOff(queue, ds)
        ensures HasAbsorbed(AbsorbAll(row, ds), action)
      {
        CoveredIsAbsorbed(queue, row, ds, action);
      }
    } else {
      var row := FreshRow(code, Pending, None, None, None, None);
      InOrderWorksOff(queue);
      UncoveredIsNotAbsorbed(InOrder(queue), row, action);
      assert !HasAbsorbed(AbsorbAll(row, InOrder(queue)), action);
    }
    CoversItself(action);
  }

  lemma CoversItself(action: string)
    ensures Covers(action, action)
  {
  }
}
