/** The RCS-2000 HTTP client: classification of one response, and the retry loop around it. */
module RcsClient {
  import opened Wrappers
  import opened Text
  import opened Json

  /** What the transport yields for one attempt. A body is absent when it is not JSON; it need not be an object. */
  datatype Outcome =
    | NetworkError
    | OtherHttpError
    | Response(status: nat, body: Option<Json>)

  /** `RCSClientError` with its code, and its subclass. */
  datatype RcsError = ClientError(code: string) | TaskNotStarted

  /**
   * How one attempt ends: data, a typed error, one of the two conditions worth retrying, or an
   * attribute error because the body is no object.
   */
  datatype Attempt =
    | Data(body: map<string, Json>)
    | Typed(error: RcsError)
    | Upstream5xx
    | NetworkDown
    | NoObject

  /** How a whole call ends for its caller; the last two are exceptions that leave the client untyped. */
  datatype CallResult =
    | Reply(body: map<string, Json>)
    | Refused(error: RcsError)
    | Escaped5xx
    | EscapedNoObject

  const DEFAULT_CODE := "RCS_UPSTREAM_ERROR"
  const NETWORK_CODE := "RCS_NETWORK_ERROR"
  const UPSTREAM_CODE := "RCS_UPSTREAM_5XX"

  function BusinessError(code: string): RcsError {
    if code == "Err_TaskNotStart" then TaskNotStarted else ClientError("RCS_" + code)
  }

  /** `envelope_code in (0, "0", ..., True)`: in Python the number 1 equals `True`. */
  predicate SuccessCode(code: Json) {
    || code == Num(0) || code == Num(1) || code == Bool(true)
    || (code.Str? && code.s in {"0", "0x00000000", "Success", "OK", "success"})
  }

  function ParseResponse(status: nat, body: Option<Json>): Attempt {
    if status >= 500 then Upstream5xx
    else if body.None? then Typed(ClientError(DEFAULT_CODE))
    else if !body.value.Obj? then NoObject
    else
      var data := body.value.members;
      var code := Get(data, "code");
      if status >= 400 then Typed(BusinessError(if "code" in data then PyStr(code) else "HTTP_" + IntText(status)))
      else if Truthy(code) && !SuccessCode(code) then Typed(BusinessError(PyStr(code)))
      else Data(data)
  }

  function DoRequest(outcome: Outcome, preserveRetryable: bool): Attempt {
    match outcome
    case NetworkError => if preserveRetryable then NetworkDown else Typed(ClientError(NETWORK_CODE))
    case OtherHttpError => Typed(ClientError(DEFAULT_CODE))
    case Response(status, body) => ParseResponse(status, body)
  }

  /** A condition the retry policy repeats on. */
  predicate Transient(outcome: Outcome) {
    outcome.NetworkError? || (outcome.Response? && outcome.status >= 500)
  }

  const MAX_ATTEMPTS := 3
  const MAX_WAIT := 8

  /** `wait_exponential(multiplier=1, max=8)` after attempt number `attempt`. */
  function Wait(attempt: nat): nat
    requires attempt > 0
  {
    var pause := Pow2(attempt - 1);
    if pause < MAX_WAIT then pause else MAX_WAIT
  }

  function Pow2(n: nat): (p: nat)
    ensures p > n
  {
    if n == 0 then 1 else 2 * Pow2(n - 1)
  }

  // ---------------------------------------------------------------- what a caller gets, written out

  /** The codes an envelope below 400 may carry and still be data: falsy ones, and seven that mean success. */
  ghost predicate GoodCode(code: Json) {
    || code == Null || code == Bool(false) || code == Num(0) || code == Str("") || code == Arr([]) || code == Obj(map[])
    || code == Bool(true) || code == Num(1)
    || code == Str("0") || code == Str("0x00000000") || code == Str("Success") || code == Str("OK") || code == Str("success")
  }

  /** `str(code)` of the codes that are not containers. */
  ghost predicate Reads(code: Json, text: string) {
    match code
    case Null => text == "None"
    case Bool(b) => text == if b then "True" else "False"
    case Num(n) => text == IntText(n)
    case Str(s) => text == s
    case _ => text == Dumps(code)
  }

  /** The typed error of an RCS error code. */
  ghost predicate ErrorOf(code: string, error: RcsError) {
    if code == "Err_TaskNotStart" then error == TaskNotStarted else error == ClientError("RCS_" + code)
  }

  /** How a call ends that stopped at this outcome. */
  ghost predicate EndsAs(o: Outcome, idempotent: bool, result: CallResult) {
    match o
    case NetworkError => result == Refused(ClientError("RCS_NETWORK_ERROR"))
    case OtherHttpError => result == Refused(ClientError("RCS_UPSTREAM_ERROR"))
    case Response(status, body) =>
      if status >= 500 then result == if idempotent then Refused(ClientError("RCS_UPSTREAM_5XX")) else Escaped5xx
      else if body.None? then result == Refused(ClientError("RCS_UPSTREAM_ERROR"))
      else if !body.value.Obj? then result == EscapedNoObject
      else
        var data := body.value.members;
        if status >= 400 then
          result.Refused? &&
          if "code" in data then exists text :: Reads(data["code"], text) && ErrorOf(text, result.error)
          else ErrorOf("HTTP_" + IntText(status), result.error)
        else if "code" !in data || GoodCode(data["code"]) then result == Reply(data)
        else result.Refused? && exists text :: Reads(data["code"], text) && ErrorOf(text, result.error)
  }

  lemma VerdictEndsAs(o: Outcome, idempotent: bool, result: CallResult)
    requires match DoRequest(o, idempotent)
             case Data(body) => result == Reply(body)
             case Typed(error) => result == Refused(error)
             case NetworkDown => result == Refused(ClientError(NETWORK_CODE))
             case Upstream5xx => result == if idempotent then Refused(ClientError(UPSTREAM_CODE)) else Escaped5xx
             case NoObject => result == EscapedNoObject
    ensures EndsAs(o, idempotent, result)
  {
    hide Dumps;
    if o.Response? && o.status < 500 && o.body.Some? && o.body.value.Obj? {
      var data := o.body.value.members;
      if "code" in data {
        GoodCodes(data["code"]);
        assert Reads(data["code"], PyStr(data["code"]));
      } else {
        assert !Truthy(Get(data, "code"));
      }
    }
  }

  lemma GoodCodes(code: Json)
    ensures GoodCode(code) <==> !Truthy(code) || SuccessCode(code)
  {
  }

  /**
   * `outcomes(n)` is what the transport would yield for attempt n + 1. A retryable call stops at the
   * first attempt that is neither a network error nor a 5xx, or at the third, after waits of one and
   * two seconds.
   */
  method Request(outcomes: nat -> Outcome, idempotent: bool)
    returns (result: CallResult, attempts: nat, waits: seq<nat>)
    ensures 1 <= attempts <= if idempotent then 3 else 1
    ensures forall j | 0 <= j < attempts - 1 ::
              outcomes(j).NetworkError? || (outcomes(j).Response? && outcomes(j).status >= 500)
    ensures idempotent && attempts < 3 ==>
              !outcomes(attempts - 1).NetworkError? && (outcomes(attempts - 1).Response? ==> outcomes(attempts - 1).status < 500)
    ensures waits == [1, 2][..attempts - 1]
    ensures EndsAs(outcomes(attempts - 1), idempotent, result)
  {
    attempts, waits := 0, [];
    if idempotent {
      while true
        invariant 0 <= attempts < MAX_ATTEMPTS
        invariant forall j | 0 <= j < attempts :: Transient(outcomes(j))
        invariant waits == [1, 2][..attempts]
        decreases MAX_ATTEMPTS - attempts
      {
        var verdict := DoRequest(outcomes(attempts), true);
        attempts := attempts + 1;
        match verdict {
          case Data(body) =>
            result := Reply(body);
            VerdictEndsAs(outcomes(attempts - 1), true, result);
            return;
          case Typed(error) =>
            result := Refused(error);
            VerdictEndsAs(outcomes(attempts - 1), true, result);
            return;
          case NoObject =>
            result := EscapedNoObject;
            VerdictEndsAs(outcomes(attempts - 1), true, result);
            return;
          case NetworkDown =>
            if attempts == MAX_ATTEMPTS {
              result := Refused(ClientError(NETWORK_CODE));
              VerdictEndsAs(outcomes(attempts - 1), true, result);
              return;
            }
          case Upstream5xx =>
            if attempts == MAX_ATTEMPTS {
              result := Refused(ClientError(UPSTREAM_CODE));
              VerdictEndsAs(outcomes(attempts - 1), true, result);
              return;
            }
        }
        WaitsAre(attempts);
        waits := waits + [Wait(attempts)];
      }
    } else {
      attempts := 1;
      match DoRequest(outcomes(0), false) {
        case Data(body) => result := Reply(body);
        case Typed(error) => result := Refused(error);
        case NoObject => result := EscapedNoObject;
        case Upstream5xx => result := Escaped5xx;
      }
      VerdictEndsAs(outcomes(0), false, result);
    }
  }

  lemma WaitsAre(attempt: nat)
    requires attempt > 0
    ensures attempt == 1 ==> Wait(attempt) == 1
    ensures attempt == 2 ==> Wait(attempt) == 2
    ensures Wait(attempt) <= 8
  {
    assert attempt == 2 ==> Pow2(attempt - 1) == 2 * Pow2(attempt - 2);
  }
}
