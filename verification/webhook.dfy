/**
 * The webhook endpoint: verify, claim the call with SET NX, log, enqueue. Handlers interleave at
 * every await, may stop anywhere, and claims expire with the clock.
 */
module Webhook {
  import opened Wrappers
  import opened Json
  import opened Redis
  import opened Feedback

  // ---------------------------------------------------------------- handlers and their steps

  /** How far a stopped handler had got. */
  datatype Progress = BeforeClaim | BeforeQueue | AfterQueue

  /** The next step of a handler, or how it ended. */
  datatype Pc =
    | Arrived
    | LogInvalid
    | LogDuplicate
    | LogClaimed
    | Enqueue
    | Answer
    | Acked(duplicate: bool)
    | Unauthorized
    | Stopped(at: Progress)

  datatype Handler = Handler(payload: Payload, signatureValid: bool, pc: Pc)

  datatype LogRow = LogRow(payload: Payload, signatureValid: bool, duplicate: bool)

  /** One successful claim, kept as history. */
  datatype Claim = Claim(key: string, time: nat)

  datatype State = State(store: Store, now: nat, handlers: seq<Handler>, queue: seq<Payload>,
                         logs: seq<LogRow>, claims: seq<Claim>)

  function KeyOf(p: Payload): string {
    WebhookDedupeKey(p.robotTaskCode, p.action)
  }

  /** `logged` is false when the log insert fails, which the handler survives. */
  datatype Event =
    | Advance(handler: nat, logged: bool)
    | Crash(handler: nat)
    | Tick(seconds: nat)

  function Logged(s: State, h: Handler, duplicate: bool, logged: bool): State {
    if logged then s.(logs := s.logs + [LogRow(h.payload, h.signatureValid, duplicate)]) else s
  }

  function WithPc(s: State, i: nat, pc: Pc): State
    requires i < |s.handlers|
  {
    s.(handlers := s.handlers[i := s.handlers[i].(pc := pc)])
  }

  function Claimed(s: State, p: Payload): State {
    s.(store := Stored(s.store, s.now, KeyOf(p), Str("1"), WEBHOOK_DEDUPE_TTL_SECONDS),
       claims := s.claims + [Claim(KeyOf(p), s.now)])
  }

  /** Has claimed, and not put anything in the queue. */
  predicate Between(pc: Pc) {
    pc.LogClaimed? || pc.Enqueue? || pc == Stopped(BeforeQueue)
  }

  /** Has put its message in the queue, whether or not it lived to answer. */
  predicate HasQueued(pc: Pc) {
    pc.Answer? || pc == Acked(false) || pc == Stopped(AfterQueue)
  }

  function ProgressOf(pc: Pc): Progress {
    if Between(pc) then BeforeQueue else if HasQueued(pc) then AfterQueue else BeforeClaim
  }

  function Step(s: State, e: Event): State {
    match e
    case Tick(seconds) => s.(now := s.now + seconds)
    case Crash(i) =>
      if i >= |s.handlers| || s.handlers[i].pc.Acked? || s.handlers[i].pc.Unauthorized? || s.handlers[i].pc.Stopped?
      then s
      else WithPc(s, i, Stopped(ProgressOf(s.handlers[i].pc)))
    case Advance(i, logged) =>
      if i >= |s.handlers| then s
      else
        var h := s.handlers[i];
        match h.pc
        case Arrived =>
          if !h.signatureValid then WithPc(s, i, LogInvalid)
          else if Lookup(s.store, s.now, KeyOf(h.payload)).Some? then WithPc(s, i, LogDuplicate)
          else WithPc(Claimed(s, h.payload), i, LogClaimed)
        case LogInvalid => WithPc(Logged(s, h, false, logged), i, Unauthorized)
        case LogDuplicate => WithPc(Logged(s, h, true, logged), i, Acked(true))
        case LogClaimed => WithPc(Logged(s, h, false, logged), i, Enqueue)
        case Enqueue => WithPc(s.(queue := s.queue + [h.payload]), i, Answer)
        case Answer => WithPc(s, i, Acked(false))
        case _ => s
  }

  function Run(s: State, es: seq<Event>): State {
    if es == [] then s else Step(Run(s, es[..|es| - 1]), es[|es| - 1])
  }

  ghost predicate Initial(s: State) {
    s.store == map[] && s.queue == [] && s.claims == [] && forall h | h in s.handlers :: h.pc.Arrived?
  }

  // ---------------------------------------------------------------- claims are far apart

  /** Every claim lies in the past and its key is still guarded for a whole TTL after it. */
  ghost predicate ClaimGuarded(s: State, c: Claim) {
    && c.time <= s.now
    && c.key in s.store
    && s.store[c.key].expiry.Some?
    && c.time + WEBHOOK_DEDUPE_TTL_SECONDS <= s.store[c.key].expiry.value
  }

  ghost predicate Spaced(claims: seq<Claim>) {
    forall k, l | 0 <= k < l < |claims| && claims[k].key == claims[l].key ::
      claims[l].time - claims[k].time >= WEBHOOK_DEDUPE_TTL_SECONDS
  }

  ghost predicate ClaimsInOrder(s: State) {
    Spaced(s.claims) && forall k | 0 <= k < |s.claims| :: ClaimGuarded(s, s.claims[k])
  }

  lemma StepKeepsClaims(s: State, e: Event)
    requires ClaimsInOrder(s)
    ensures ClaimsInOrder(Step(s, e))
  {
    hide WebhookDedupeKey;
  }

  /** Successful claims of one dedupe key are at least an hour apart, over all interleavings. */
  lemma {:induction false} ClaimsAreSpaced(s: State, es: seq<Event>)
    requires Initial(s)
    ensures ClaimsInOrder(Run(s, es))
    ensures forall k, l | 0 <= k < l < |Run(s, es).claims| && Run(s, es).claims[k].key == Run(s, es).claims[l].key ::
              Run(s, es).claims[l].time - Run(s, es).claims[k].time >= 3600
  {
    hide Step;
    if es != [] {
      ClaimsAreSpaced(s, es[..|es| - 1]);
      StepKeepsClaims(Run(s, es[..|es| - 1]), es[|es| - 1]);
    }
  }

  /** The claims of a key whose time lies in a span. */
  function ClaimsWithin(claims: seq<Claim>, key: string, lo: int, hi: int): nat {
    if claims == [] then 0
    else
      var last := claims[|claims| - 1];
      ClaimsWithin(claims[..|claims| - 1], key, lo, hi) + if last.key == key && lo <= last.time <= hi then 1 else 0
  }

  lemma {:induction false} ShorterSpan(claims: seq<Claim>, key: string, lo: int, hi: int, cut: int)
    requires forall k | 0 <= k < |claims| && claims[k].key == key :: claims[k].time <= cut
    requires cut <= hi
    ensures ClaimsWithin(claims, key, lo, hi) == ClaimsWithin(claims, key, lo, cut)
  {
    if claims != [] {
      ShorterSpan(claims[..|claims| - 1], key, lo, hi, cut);
    }
  }

  lemma {:induction false} SpacedClaimsFit(claims: seq<Claim>, key: string, lo: int, hi: int)
    requires Spaced(claims)
    ensures ClaimsWithin(claims, key, lo, hi) > 0 ==>
              (ClaimsWithin(claims, key, lo, hi) - 1) * WEBHOOK_DEDUPE_TTL_SECONDS <= hi - lo
    ensures hi < lo ==> ClaimsWithin(claims, key, lo, hi) == 0
  {
    if claims != [] {
      var init, last := claims[..|claims| - 1], claims[|claims| - 1];
      if last.key == key && lo <= last.time <= hi {
        var cut := last.time - WEBHOOK_DEDUPE_TTL_SECONDS;
        ShorterSpan(init, key, lo, hi, cut);
        SpacedClaimsFit(init, key, lo, cut);
      } else {
        SpacedClaimsFit(init, key, lo, hi);
      }
    }
  }

  /** Any span of T seconds holds at most T / 3600 + 1 successful claims of one key. */
  lemma ClaimRate(s: State, es: seq<Event>, key: string, start: nat, span: nat)
    requires Initial(s)
    ensures ClaimsWithin(Run(s, es).claims, key, start, start + span) <= span / 3600 + 1
  {
    ClaimsAreSpaced(s, es);
    SpacedClaimsFit(Run(s, es).claims, key, start, start + span);
  }

  // ---------------------------------------------------------------- accounting

  function ClaimsOf(claims: seq<Claim>, key: string): nat {
    if claims == [] then 0
    else ClaimsOf(claims[..|claims| - 1], key) + if claims[|claims| - 1].key == key then 1 else 0
  }

  function QueuedOf(queue: seq<Payload>, key: string): nat {
    if queue == [] then 0
    else QueuedOf(queue[..|queue| - 1], key) + if KeyOf(queue[|queue| - 1]) == key then 1 else 0
  }

  /** Handlers of a key that stand, or stopped, between their claim and their enqueue. */
  function BetweenOf(handlers: seq<Handler>, key: string): nat {
    if handlers == [] then 0
    else
      var last := handlers[|handlers| - 1];
      BetweenOf(handlers[..|handlers| - 1], key) + if Between(last.pc) && KeyOf(last.payload) == key then 1 else 0
  }

  /** Handlers of a key that have put their message in the queue. */
  function QueuersOf(handlers: seq<Handler>, key: string): nat {
    if handlers == [] then 0
    else
      var last := handlers[|handlers| - 1];
      QueuersOf(handlers[..|handlers| - 1], key) + if HasQueued(last.pc) && KeyOf(last.payload) == key then 1 else 0
  }

  function Indicator(b: bool): nat {
    if b then 1 else 0
  }

  lemma {:induction false} HandlerUpdate(handlers: seq<Handler>, key: string, i: nat, h: Handler)
    requires i < |handlers| && h.payload == handlers[i].payload
    ensures BetweenOf(handlers[i := h], key) + Indicator(Between(handlers[i].pc) && KeyOf(h.payload) == key) ==
            BetweenOf(handlers, key) + Indicator(Between(h.pc) && KeyOf(h.payload) == key)
    ensures QueuersOf(handlers[i := h], key) + Indicator(HasQueued(handlers[i].pc) && KeyOf(h.payload) == key) ==
            QueuersOf(handlers, key) + Indicator(HasQueued(h.pc) && KeyOf(h.payload) == key)
  {
    hide KeyOf;
    var n := |handlers| - 1;
    if i == n {
      assert handlers[i := h][..n] == handlers[..n];
    } else {
      assert handlers[i := h][..n] == handlers[..n][i := h];
      HandlerUpdate(handlers[..n], key, i, h);
    }
  }

  ghost predicate Accounted(s: State, key: string) {
    && ClaimsOf(s.claims, key) == QueuedOf(s.queue, key) + BetweenOf(s.handlers, key)
    && QueuedOf(s.queue, key) == QueuersOf(s.handlers, key)
  }

  lemma Appended(claims: seq<Claim>, c: Claim, queue: seq<Payload>, p: Payload, key: string)
    ensures ClaimsOf(claims + [c], key) == ClaimsOf(claims, key) + Indicator(c.key == key)
    ensures QueuedOf(queue + [p], key) == QueuedOf(queue, key) + Indicator(KeyOf(p) == key)
  {
    assert (claims + [c])[..|claims|] == claims && (queue + [p])[..|queue|] == queue;
  }

  lemma StepAccounts(s: State, e: Event, key: string)
    requires Accounted(s, key)
    ensures Accounted(Step(s, e), key)
  {
    hide KeyOf, Lookup, Stored, ClaimsOf, QueuedOf, BetweenOf, QueuersOf;
    if !e.Tick? && e.handler < |s.handlers| {
      var s', p := Step(s, e), s.handlers[e.handler].payload;
      HandlerUpdate(s.handlers, key, e.handler, s'.handlers[e.handler]);
      Appended(s.claims, Claim(KeyOf(p), s.now), s.queue, p, key);
      assert s'.handlers == s.handlers[e.handler := s'.handlers[e.handler]];
    }
  }

  lemma NothingYet(handlers: seq<Handler>, key: string)
    requires forall h | h in handlers :: h.pc.Arrived?
    ensures BetweenOf(handlers, key) == 0 && QueuersOf(handlers, key) == 0
  {
  }

  /**
   * For every dedupe key, over all interleavings: claims are the messages enqueued plus the
   * handlers in flight or stopped between claim and enqueue, and the messages enqueued are the
   * handlers acknowledged as not duplicate, about to be, or stopped just before that.
   */
  lemma {:induction false} ClaimsAreAccounted(s: State, es: seq<Event>, key: string)
    requires Initial(s)
    ensures Accounted(Run(s, es), key)
  {
    hide Step;
    if es == [] {
      NothingYet(s.handlers, key);
    } else {
      hide Accounted;
      ClaimsAreAccounted(s, es[..|es| - 1], key);
      StepAccounts(Run(s, es[..|es| - 1]), es[|es| - 1], key);
    }
  }

  /**
   * A handler that stops after its claim loses the call until the claim expires: a copy is
   * acknowledged as duplicate, and nothing queued, exactly within the hour; from then on a copy is
   * claimed afresh and does reach the queue.
   */
  lemma StoppedClaimSwallowsCopies(s: State, i: nat, j: nat, seconds: nat, logged: bool)
    requires i < |s.handlers| && j < |s.handlers| && i != j
    requires s.handlers[i].pc.Arrived? && s.handlers[i].signatureValid
    requires Lookup(s.store, s.now, KeyOf(s.handlers[i].payload)).None?
    requires s.handlers[j].pc.Arrived? && s.handlers[j].signatureValid
    requires KeyOf(s.handlers[j].payload) == KeyOf(s.handlers[i].payload)
    ensures var s1 := Step(Step(Step(s, Advance(i, logged)), Crash(i)), Tick(seconds));
            var s2 := Step(Step(s1, Advance(j, logged)), Advance(j, logged));
            var s3 := Step(Step(s2, Advance(j, logged)), Advance(j, logged));
            && (s2.handlers[j].pc == Acked(true) <==> seconds < 3600)
            && (s3.handlers[j].pc == Acked(false) <==> seconds >= 3600)
            && s3.queue == s.queue + if seconds < 3600 then [] else [s.handlers[j].payload]
  {
    hide KeyOf;
    var s1 := Step(Step(Step(s, Advance(i, logged)), Crash(i)), Tick(seconds));
    assert s1.handlers[j] == s.handlers[j];
    assert Lookup(s1.store, s1.now, KeyOf(s.handlers[j].payload)) ==
        if seconds < WEBHOOK_DEDUPE_TTL_SECONDS then Some(Str("1")) else None;
  }

  // ---------------------------------------------------------------- the service

  datatype Ack = Accepted | Duplicate | SignatureError

  class WebhookService {
    const redis: RedisStore
    var logs: seq<LogRow>
    var queue: seq<Payload>

    constructor (redis: RedisStore)
      ensures this.redis == redis && logs == [] && queue == []
    {
      this.redis := redis;
      logs, queue := [], [];
    }

    /** A failed insert is rolled back and ignored. */
    method LogEvent(p: Payload, signatureValid: bool, duplicate: bool, logged: bool)
      modifies this`logs
      ensures logs == if logged then old(logs) + [LogRow(p, signatureValid, duplicate)] else old(logs)
    {
      if logged {
        logs := logs + [LogRow(p, signatureValid, duplicate)];
      }
    }

    /** What the small-step system sees of the service. */
    ghost predicate Shows(s: State)
      reads this, redis
    {
      s.store == redis.entries && s.now == redis.now && s.queue == queue && s.logs == logs
    }

    /**
     * A call is queued exactly when its signature holds and no live claim stands on its key. Seen in
     * any state `s` of the small-step system, the method is handler i running alone to its end.
     */
    method HandleTaskFeedback(p: Payload, signatureValid: bool, logged: bool, ghost s: State, ghost i: nat)
      returns (ack: Ack)
      requires Shows(s) && i < |s.handlers| && s.handlers[i] == Handler(p, signatureValid, Arrived)
      modifies this`logs, this`queue, redis`entries
      ensures ack.SignatureError? <==> !signatureValid
      ensures ack.Accepted? <==> signatureValid && Lookup(old(redis.entries), redis.now, KeyOf(p)).None?
      ensures queue == if ack.Accepted? then old(queue) + [p] else old(queue)
      ensures logs == if logged then old(logs) + [LogRow(p, signatureValid, ack.Duplicate?)] else old(logs)
      ensures !ack.Accepted? ==> redis.entries == old(redis.entries)
      ensures ack.Accepted? ==>
                redis.entries == Stored(old(redis.entries), redis.now, KeyOf(p), Str("1"), WEBHOOK_DEDUPE_TTL_SECONDS)
      ensures ack.Accepted? ==>
                redis.entries == old(redis.entries)["webhook:dedupe:" + (p.robotTaskCode + (":" + p.action)) :=
                  Entry(Str("1"), Some(redis.now + 3600))]
      ensures var e := Advance(i, logged);
              Shows(Run(s, [e, e, e, e])) && Run(s, [e, e, e, e]).handlers == s.handlers[i := Handler(p, signatureValid, EndOf(ack))]
    {
      HandlerAlone(s, i, logged);
      KeyIsSpelt(p);
      hide KeyOf, Lookup, Stored, Run;
      var isDuplicate := false;
      if !signatureValid {
        LogEvent(p, false, false, logged);
        return SignatureError;
      }
      var first := redis.SetNx(KeyOf(p), Str("1"), WEBHOOK_DEDUPE_TTL_SECONDS);
      if !first {
        isDuplicate := true;
        LogEvent(p, signatureValid, isDuplicate, logged);
        return Duplicate;
      }
      LogEvent(p, signatureValid, isDuplicate, logged);
      queue := queue + [p];
      ack := Accepted;
    }
  }

  lemma KeyIsSpelt(p: Payload)
    ensures KeyOf(p) == "webhook:dedupe:" + (p.robotTaskCode + (":" + p.action))
  {
  }

  function AnswerTo(s: State, h: Handler): Ack {
    if !h.signatureValid then SignatureError
    else if Lookup(s.store, s.now, KeyOf(h.payload)).Some? then Duplicate
    else Accepted
  }

  /** A handler that runs alone to its end. */
  lemma HandlerAlone(s: State, i: nat, logged: bool)
    requires i < |s.handlers| && s.handlers[i].pc.Arrived?
    ensures var e, h := Advance(i, logged), s.handlers[i];
            var s', ack := Run(s, [e, e, e, e]), AnswerTo(s, h);
            && s'.handlers == s.handlers[i := h.(pc := EndOf(ack))]
            && s'.now == s.now
            && s'.queue == s.queue + (if ack.Accepted? then [h.payload] else [])
            && s'.logs == LogsAfter(s, h, ack.Duplicate?, logged)
            && s'.store == if ack.Accepted?
                           then Stored(s.store, s.now, KeyOf(h.payload), Str("1"), WEBHOOK_DEDUPE_TTL_SECONDS) else s.store
  {
    hide KeyOf, Lookup, Stored, Step, Run;
    FourSteps(s, Advance(i, logged));
    match AnswerTo(s, s.handlers[i])
    case SignatureError => InvalidAlone(s, i, logged);
    case Duplicate => DuplicateAlone(s, i, logged);
    case Accepted => FreshAlone(s, i, logged);
  }

  /** The log after an event is recorded, or not when the insert fails. */
  function LogsAfter(s: State, h: Handler, duplicate: bool, logged: bool): seq<LogRow> {
    s.logs + if logged then [LogRow(h.payload, h.signatureValid, duplicate)] else []
  }

  lemma InvalidAlone(s: State, i: nat, logged: bool)
    requires i < |s.handlers| && s.handlers[i].pc.Arrived? && !s.handlers[i].signatureValid
    ensures var e, h := Advance(i, logged), s.handlers[i];
            Step(Step(Step(Step(s, e), e), e), e) ==
            s.(handlers := s.handlers[i := h.(pc := Unauthorized)], logs := LogsAfter(s, h, false, logged))
  {
    hide KeyOf;
    var e, h := Advance(i, logged), s.handlers[i];
    var s1 := Step(s, e);
    assert s1 == s.(handlers := s.handlers[i := h.(pc := LogInvalid)]);
    var s2 := Step(s1, e);
    assert s2.handlers == s.handlers[i := h.(pc := Unauthorized)];
    assert Step(s2, e) == s2;
  }

  lemma DuplicateAlone(s: State, i: nat, logged: bool)
    requires i < |s.handlers| && s.handlers[i].pc.Arrived? && s.handlers[i].signatureValid
    requires Lookup(s.store, s.now, KeyOf(s.handlers[i].payload)).Some?
    ensures var e, h := Advance(i, logged), s.handlers[i];
            Step(Step(Step(Step(s, e), e), e), e) ==
            s.(handlers := s.handlers[i := h.(pc := Acked(true))], logs := LogsAfter(s, h, true, logged))
  {
    hide KeyOf, Lookup;
    var e, h := Advance(i, logged), s.handlers[i];
    var s1 := Step(s, e);
    assert s1 == s.(handlers := s.handlers[i := h.(pc := LogDuplicate)]);
    var s2 := Step(s1, e);
    assert s2.handlers == s.handlers[i := h.(pc := Acked(true))];
    assert Step(s2, e) == s2;
  }

  lemma FreshAlone(s: State, i: nat, logged: bool)
    requires i < |s.handlers| && s.handlers[i].pc.Arrived? && s.handlers[i].signatureValid
    requires Lookup(s.store, s.now, KeyOf(s.handlers[i].payload)).None?
    ensures var e, h := Advance(i, logged), s.handlers[i];
            Step(Step(Step(Step(s, e), e), e), e) ==
            Claimed(s, h.payload).(handlers := s.handlers[i := h.(pc := Acked(false))],
                                   logs := LogsAfter(s, h, false, logged), queue := s.queue + [h.payload])
  {
    hide KeyOf, Lookup, Stored;
    var e, h := Advance(i, logged), s.handlers[i];
    var s1 := Step(s, e);
    assert s1 == Claimed(s, h.payload).(handlers := s.handlers[i := h.(pc := LogClaimed)]);
    var s2 := Step(s1, e);
    assert s2 == s1.(handlers := s.handlers[i := h.(pc := Enqueue)], logs := LogsAfter(s, h, false, logged));
    var s3 := Step(s2, e);
    assert s3 == s2.(handlers := s.handlers[i := h.(pc := Answer)], queue := s.queue + [h.payload]);
  }

  /** How a handler that gave this answer has ended. */
  function EndOf(ack: Ack): Pc {
    match ack
    case Accepted => Acked(false)
    case Duplicate => Acked(true)
    case SignatureError => Unauthorized
  }

  lemma FourSteps(s: State, e: Event)
    ensures Run(s, [e, e, e, e]) == Step(Step(Step(Step(s, e), e), e), e)
  {
    hide Step;
    assert [e][..0] == [] && Run(s, [e]) == Step(s, e);
    assert [e, e][..1] == [e] && Run(s, [e, e]) == Step(Step(s, e), e);
    assert [e, e, e][..2] == [e, e] && Run(s, [e, e, e]) == Step(Step(Step(s, e), e), e);
    assert [e, e, e, e][..3] == [e, e, e];
  }
}
