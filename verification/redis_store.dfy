/** Redis as the services see it: string keys, JSON values, optional expiry, and the key builders. */
module Redis {
  import opened Wrappers
  import opened Json

  datatype Entry = Entry(value: Json, expiry: Option<nat>)

  type Store = map<string, Entry>

  /** `GET`: an entry answers until its expiry instant. */
  function Lookup(store: Store, now: nat, key: string): Option<Json> {
    if key in store && (store[key].expiry.Some? ==> now < store[key].expiry.value)
    then Some(store[key].value)
    else None
  }

  function Stored(store: Store, now: nat, key: string, value: Json, ttl: nat): Store {
    store[key := Entry(value, Some(now + ttl))]
  }

  class RedisStore {
    var entries: Store
    var now: nat

    constructor ()
      ensures entries == map[] && now == 0
    {
      entries := map[];
      now := 0;
    }

    method Get(key: string) returns (value: Option<Json>)
      ensures value == Lookup(entries, now, key)
      ensures value.Some? <==> key in entries && (entries[key].expiry.None? || now < entries[key].expiry.value)
      ensures value.Some? ==> value.value == entries[key].value
    {
      value := Lookup(entries, now, key);
    }

    method Set(key: string, value: Json)
      modifies this`entries
      ensures entries == old(entries)[key := Entry(value, None)]
    {
      entries := entries[key := Entry(value, None)];
    }

    method SetEx(key: string, ttl: nat, value: Json)
      modifies this`entries
      ensures entries == Stored(old(entries), now, key, value, ttl)
      ensures entries == old(entries)[key := Entry(value, Some(now + ttl))]
      ensures ttl > 0 ==> Lookup(entries, now, key) == Some(value)
    {
      entries := Stored(entries, now, key, value, ttl);
    }

    /** `SET key value NX EX ttl`: stores only where no live entry stands. */
    method SetNx(key: string, value: Json, ttl: nat) returns (first: bool)
      modifies this`entries
      ensures first <==> Lookup(old(entries), now, key).None?
      ensures entries == if first then Stored(old(entries), now, key, value, ttl) else old(entries)
      ensures first <==> !(key in old(entries) && (old(entries)[key].expiry.None? || now < old(entries)[key].expiry.value))
      ensures first ==> entries == old(entries)[key := Entry(value, Some(now + ttl))]
    {
      var present := Get(key);
      first := present.None?;
      if first {
        entries := Stored(entries, now, key, value, ttl);
      }
    }
  }

  // ---------------------------------------------------------------- key builders

  const IDEMPOTENCY_KEY_TTL_SECONDS: nat := 86400
  const ROBOT_STATE_TTL_SECONDS: nat := 300
  const WEBHOOK_DEDUPE_TTL_SECONDS: nat := 3600

  function IdempotencyKey(key: string): string {
    "idempotency:" + key
  }

  function RawIdempotencyKey(key: string): string {
    "idempotency:rcs_raw:" + key
  }

  function RobotStateKey(amrCode: string): string {
    "robot:" + amrCode + ":state"
  }

  function WebhookDedupeKey(robotTaskCode: string, action: string): string {
    "webhook:dedupe:" + (robotTaskCode + (":" + action))
  }

  function SysConfigKey(key: string): string {
    "sysconfig:" + key
  }

  lemma IdempotencyKeysInjective(a: string, b: string)
    ensures IdempotencyKey(a) == IdempotencyKey(b) <==> a == b
    ensures RawIdempotencyKey(a) == RawIdempotencyKey(b) <==> a == b
  {
    if IdempotencyKey(a) == IdempotencyKey(b) {
      CancelPrefix("idempotency:", a, b);
    }
    if RawIdempotencyKey(a) == RawIdempotencyKey(b) {
      CancelPrefix("idempotency:rcs_raw:", a, b);
    }
  }

  /** The two endpoints share a Redis key in exactly one family of cases. */
  lemma EndpointKeysCoincide(create: string, raw: string)
    ensures IdempotencyKey(create) == RawIdempotencyKey(raw) <==> create == "rcs_raw:" + raw
  {
    assert RawIdempotencyKey(raw) == "idempotency:" + ("rcs_raw:" + raw);
    if IdempotencyKey(create) == RawIdempotencyKey(raw) {
      CancelPrefix("idempotency:", create, "rcs_raw:" + raw);
    }
  }

  /** The longer code swallows a `:` and a piece of the other's action. */
  ghost predicate Overlaps(code: string, action: string, code': string, action': string) {
    exists piece: string :: code' == code + (":" + piece) && action == piece + (":" + action')
  }

  lemma OverlapMeansSameKey(code: string, action: string, code': string, action': string)
    requires Overlaps(code, action, code', action')
    ensures WebhookDedupeKey(code, action) == WebhookDedupeKey(code', action')
  {
    var piece: string :| code' == code + (":" + piece) && action == piece + (":" + action');
    assert code + (":" + (piece + (":" + action'))) == (code + (":" + piece)) + (":" + action');
  }

  lemma SameKeyOverlaps(code: string, action: string, code': string, action': string)
    requires code + (":" + action) == code' + (":" + action')
    requires |code| < |code'|
    ensures Overlaps(code, action, code', action')
  {
    var piece := code'[|code| + 1..];
    var u, v := code + (":" + action), code' + (":" + action');
    assert u[..|code|] == code && v[..|code|] == code'[..|code|];
    assert u[|code|] == ':' && v[|code|] == code'[|code|];
    assert code' == code + (":" + piece);
    assert v == code + (":" + (piece + (":" + action')));
    CancelPrefix(code, ":" + action, ":" + (piece + (":" + action')));
    CancelPrefix(":", action, piece + (":" + action'));
  }

  lemma OverlapNeedsColon(code: string, action: string, code': string, action': string)
    requires Overlaps(code, action, code', action')
    ensures ':' in action
  {
    var piece: string :| code' == code + (":" + piece) && action == piece + (":" + action');
    assert action[|piece|] == ':';
  }

  /** Exactly when two feedback calls share a dedupe key. */
  lemma DedupeKeyCollision(code: string, action: string, code': string, action': string)
    ensures WebhookDedupeKey(code, action) == WebhookDedupeKey(code', action') <==>
              || (code == code' && action == action')
              || Overlaps(code, action, code', action')
              || Overlaps(code', action', code, action)
  {
    if Overlaps(code, action, code', action') {
      OverlapMeansSameKey(code, action, code', action');
    }
    if Overlaps(code', action', code, action) {
      OverlapMeansSameKey(code', action', code, action);
    }
    if WebhookDedupeKey(code, action) == WebhookDedupeKey(code', action') {
      CancelPrefix("webhook:dedupe:", code + (":" + action), code' + (":" + action'));
      if |code| == |code'| {
        CancelEqualLengths(code, ":" + action, code', ":" + action');
        CancelPrefix(":", action, action');
      } else if |code| < |code'| {
        SameKeyOverlaps(code, action, code', action');
      } else {
        SameKeyOverlaps(code', action', code, action);
      }
    }
  }

  /** Without a `:` in either action, the key identifies the call. */
  lemma DedupeKeyIdentifies(code: string, action: string, code': string, action': string)
    requires ':' !in action && ':' !in action'
    ensures WebhookDedupeKey(code, action) == WebhookDedupeKey(code', action') <==>
              code == code' && action == action'
  {
    DedupeKeyCollision(code, action, code', action');
    if Overlaps(code, action, code', action') {
      OverlapNeedsColon(code, action, code', action');
    }
    if Overlaps(code', action', code, action) {
      OverlapNeedsColon(code', action', code, action);
    }
  }
}
