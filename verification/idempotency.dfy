/** Requests of the two submitting endpoints, their fingerprints, and the cached envelopes. */
module Idempotency {
  import opened Wrappers
  import opened Text
  import opened Json

  // ---------------------------------------------------------------- requests

  datatype CreateRequest = CreateRequest(robotType: string, sourceCode: string, targetCode: string, priority: int)

  /** The two verbs the schema admits; both are already upper case. */
  datatype Verb = POST | GET

  /** A raw request whose path has already been normalised. */
  datatype RawRequest = RawRequest(verb: Verb, path: string, body: Option<map<string, Json>>,
                                   sendSigned: bool, persistTask: bool)

  function VerbText(v: Verb): string {
    if v.POST? then "POST" else "GET"
  }

  const RCS_PATH_PREFIX := "/rcs/rtas"

  /** `".." not in path and path.startswith(prefix)`; the prefix also rules the empty path out. */
  predicate ValidPath(path: string) {
    RCS_PATH_PREFIX <= path && forall i | 0 <= i < |path| - 1 :: !(path[i] == '.' && path[i + 1] == '.')
  }

  // ---------------------------------------------------------------- fingerprints

  function CreateFingerprint(r: CreateRequest): string {
    Dumps(Obj(map[
      "robotType" := Str(r.robotType),
      "sourceCode" := Str(r.sourceCode),
      "targetCode" := Str(r.targetCode),
      "priority" := Num(r.priority)]))
  }

  /** `body or {}` */
  function BodyOrEmpty(body: Option<map<string, Json>>): map<string, Json> {
    if body.Some? then body.value else map[]
  }

  function RawFingerprint(r: RawRequest): string {
    Dumps(Obj(map[
      "method" := Str(VerbText(r.verb)),
      "path" := Str(r.path),
      "body" := Obj(BodyOrEmpty(r.body)),
      "sendSigned" := Bool(r.sendSigned)]))
  }

  // ---------------------------------------------------------------- the fingerprints, spelt out

  /** One member of an object: a plain name, and the printed value. */
  function Field(name: string, text: string): string {
    "\"" + name + "\":" + text
  }

  predicate PlainName(name: string) {
    name != [] && forall i | 0 <= i < |name| :: 'A' <= name[i] <= 'Z' || 'a' <= name[i] <= 'z'
  }

  /** Plain names are printed as they are. */
  lemma MembersNamed(members: map<string, Json>, names: seq<string>)
    requires forall k | k in names :: k in members
    requires forall k | k in names :: PlainName(k)
    ensures forall i | 0 <= i < |names| :: MemberTexts(members, names)[i] == Field(names[i], Dumps(members[names[i]]))
  {
    hide Dumps, StringTail;
    forall i | 0 <= i < |names|
      ensures MemberTexts(members, names)[i] == Field(names[i], Dumps(members[names[i]]))
    {
      assert names[i] in names;
      PlainText(names[i]);
    }
  }

  /** An object of four plain names that differ in their first characters. */
  lemma FourFields(members: map<string, Json>, a: string, b: string, c: string, d: string)
    requires members.Keys == {a, b, c, d}
    requires PlainName(a) && PlainName(b) && PlainName(c) && PlainName(d)
    requires a[0] < b[0] < c[0] < d[0]
    ensures Dumps(Obj(members)) ==
              "{" + Commas([Field(a, Dumps(members[a])), Field(b, Dumps(members[b])),
                            Field(c, Dumps(members[c])), Field(d, Dumps(members[d]))]) + "}"
  {
    hide Dumps, StringTail, Commas, SortedKeys, Field, MemberTexts;
    FourSorted(a, b, c, d);
    DumpsSpelt(Obj(members));
    hide PlainName;
    var names := [a, b, c, d];
    MembersNamed(members, names);
    var texts := MemberTexts(members, names);
    assert texts[0] == Field(names[0], Dumps(members[names[0]])) && texts[1] == Field(names[1], Dumps(members[names[1]]));
    assert texts[2] == Field(names[2], Dumps(members[names[2]])) && texts[3] == Field(names[3], Dumps(members[names[3]]));
    assert texts ==
        [Field(a, Dumps(members[a])), Field(b, Dumps(members[b])), Field(c, Dumps(members[c])), Field(d, Dumps(members[d]))];
  }

  lemma CreateFingerprintSpelt(r: CreateRequest)
    ensures CreateFingerprint(r) ==
              "{" + Commas([Field("priority", IntText(r.priority)), Field("robotType", Dumps(Str(r.robotType))),
                            Field("sourceCode", Dumps(Str(r.sourceCode))), Field("targetCode", Dumps(Str(r.targetCode)))]) + "}"
  {
    var members := map["robotType" := Str(r.robotType), "sourceCode" := Str(r.sourceCode),
                       "targetCode" := Str(r.targetCode), "priority" := Num(r.priority)];
    assert members.Keys == {"priority", "robotType", "sourceCode", "targetCode"};
    DumpsSpelt(Num(r.priority));
    hide Dumps, Commas, Field;
    FourFields(members, "priority", "robotType", "sourceCode", "targetCode");
  }

  /** The verb is spelt out, an absent body is an empty object, and `persistTask` does not appear. */
  lemma RawFingerprintSpelt(r: RawRequest)
    ensures var body := if r.body.Some? then r.body.value else map[];
            RawFingerprint(r) ==
              "{" + Commas([Field("body", Dumps(Obj(body))), Field("method", Dumps(Str(if r.verb.POST? then "POST" else "GET"))),
                            Field("path", Dumps(Str(r.path))), Field("sendSigned", if r.sendSigned then "true" else "false")]) + "}"
  {
    var members := map["method" := Str(VerbText(r.verb)), "path" := Str(r.path), "body" := Obj(BodyOrEmpty(r.body)),
                       "sendSigned" := Bool(r.sendSigned)];
    assert members.Keys == {"body", "method", "path", "sendSigned"};
    DumpsSpelt(Bool(r.sendSigned));
    hide Dumps, Commas, Field;
    FourFields(members, "body", "method", "path", "sendSigned");
  }

  /** Create fingerprints agree exactly when all four request fields agree. */
  lemma CreateFingerprintsAgree(a: CreateRequest, b: CreateRequest)
    ensures CreateFingerprint(a) == CreateFingerprint(b) <==> a == b
  {
    hide Dumps;
    if CreateFingerprint(a) == CreateFingerprint(b) {
      var x := map["robotType" := Str(a.robotType), "sourceCode" := Str(a.sourceCode),
                   "targetCode" := Str(a.targetCode), "priority" := Num(a.priority)];
      var y := map["robotType" := Str(b.robotType), "sourceCode" := Str(b.sourceCode),
                   "targetCode" := Str(b.targetCode), "priority" := Num(b.priority)];
      DumpsInjective(Obj(x), Obj(y));
      assert x["robotType"] == y["robotType"] && x["sourceCode"] == y["sourceCode"];
      assert x["targetCode"] == y["targetCode"] && x["priority"] == y["priority"];
    }
  }

  /** What a raw fingerprint distinguishes; `persistTask` is not part of it. */
  predicate SameRawCall(a: RawRequest, b: RawRequest) {
    a.verb == b.verb && a.path == b.path && BodyOrEmpty(a.body) == BodyOrEmpty(b.body) && a.sendSigned == b.sendSigned
  }

  lemma RawFingerprintsAgree(a: RawRequest, b: RawRequest)
    ensures RawFingerprint(a) == RawFingerprint(b) <==> SameRawCall(a, b)
  {
    hide Dumps;
    if RawFingerprint(a) == RawFingerprint(b) {
      var x := map["method" := Str(VerbText(a.verb)), "path" := Str(a.path),
                   "body" := Obj(BodyOrEmpty(a.body)), "sendSigned" := Bool(a.sendSigned)];
      var y := map["method" := Str(VerbText(b.verb)), "path" := Str(b.path),
                   "body" := Obj(BodyOrEmpty(b.body)), "sendSigned" := Bool(b.sendSigned)];
      DumpsInjective(Obj(x), Obj(y));
      assert x["method"] == y["method"] && x["path"] == y["path"];
      assert x["body"] == y["body"] && x["sendSigned"] == y["sendSigned"];
    }
  }

  // ---------------------------------------------------------------- task code of an RCS reply

  /** `Broken` stands for an attribute error: a truthy `data` that is no object. */
  datatype Extracted = Code(code: string) | Missing | Broken

  /** The code inside `data` wins over the one beside it; whichever is taken is truthy and not empty. */
  function ExtractTaskCode(reply: map<string, Json>): (r: Extracted)
    ensures r.Code? ==> r.code != ""
    ensures r.Broken? <==> Truthy(Get(reply, "data")) && !Get(reply, "data").Obj?
    ensures Get(reply, "data").Obj? && Truthy(Get(Get(reply, "data").members, "robotTaskCode")) ==>
              r == Code(PyStr(Get(Get(reply, "data").members, "robotTaskCode")))
    ensures Get(reply, "data").Obj? && !Truthy(Get(Get(reply, "data").members, "robotTaskCode")) ==>
              (r.Missing? <==> !Truthy(Get(reply, "robotTaskCode")))
    ensures !Truthy(Get(reply, "data")) ==> (r.Missing? <==> !Truthy(Get(reply, "robotTaskCode")))
    ensures r.Code? ==>
              || r.code == PyStr(Get(reply, "robotTaskCode"))
              || (Get(reply, "data").Obj? && Truthy(Get(Get(reply, "data").members, "robotTaskCode")))
  {
    var data := if Truthy(Get(reply, "data")) then Get(reply, "data") else Obj(map[]);
    if !data.Obj? then Broken
    else
      var inner := Get(data.members, "robotTaskCode");
      var code := if Truthy(inner) then inner else Get(reply, "robotTaskCode");
      if !Truthy(code) then Missing
      else
        FirstChar(code);
        Code(PyStr(code))
  }

  // ---------------------------------------------------------------- results and their envelopes

  datatype CreateResult = CreateResult(robotTaskCode: string, status: string, cached: bool)

  datatype RawResult = RawResult(robotTaskCode: Option<string>, status: Option<string>,
                                 cached: bool, persisted: bool, rcs: map<string, Json>)

  /** What reading a cached envelope gives; `Unreadable` is an uncaught key or validation error. */
  datatype Cached<T> = Miss | Hit(value: T) | Mismatch | Unreadable

  function CreateEnvelope(fingerprint: string, r: CreateResult): Json {
    Obj(map[
      "request_fingerprint" := Str(fingerprint),
      "response" := Obj(map[
        "robotTaskCode" := Str(r.robotTaskCode),
        "status" := Str(r.status),
        "cached" := Bool(r.cached)])])
  }

  function ReadCreateEnvelope(raw: Option<Json>, fingerprint: string): Cached<CreateResult> {
    if raw.None? then Miss
    else if !raw.value.Obj? then Unreadable
    else if Get(raw.value.members, "request_fingerprint") != Str(fingerprint) then Mismatch
    else
      var response := Get(raw.value.members, "response");
      if !response.Obj? then Unreadable
      else
        var code, status := Get(response.members, "robotTaskCode"), Get(response.members, "status");
        if code.Str? && status.Str? then Hit(CreateResult(code.s, status.s, true)) else Unreadable
  }

  function OptionalText(t: Option<string>): Json {
    if t.Some? then Str(t.value) else Null
  }

  function RawEnvelope(fingerprint: string, r: RawResult): Json {
    Obj(map[
      "fingerprint" := Str(fingerprint),
      "result" := Obj(map[
        "robotTaskCode" := OptionalText(r.robotTaskCode),
        "status" := OptionalText(r.status),
        "cached" := Bool(r.cached),
        "persisted" := Bool(r.persisted),
        "rcsResponse" := Obj(r.rcs)])])
  }

  function ReadOptionalText(j: Json): Option<string> {
    if j.Str? then Some(j.s) else None
  }

  function ReadRawEnvelope(raw: Option<Json>, fingerprint: string): Cached<RawResult> {
    if raw.None? then Miss
    else if !raw.value.Obj? then Unreadable
    else if Get(raw.value.members, "fingerprint") != Str(fingerprint) then Mismatch
    else
      var result := Get(raw.value.members, "result");
      if !result.Obj? then Unreadable
      else
        var m := result.members;
        var code, status := Get(m, "robotTaskCode"), Get(m, "status");
        var cached := if "cached" in m then m["cached"] else Bool(false);
        var persisted := if "persisted" in m then m["persisted"] else Bool(false);
        var rcs := Get(m, "rcsResponse");
        if (code.Str? || code.Null?) && (status.Str? || status.Null?) && cached.Bool? && persisted.Bool? && rcs.Obj?
        then Hit(RawResult(ReadOptionalText(code), ReadOptionalText(status), cached.b, persisted.b, rcs.members))
        else Unreadable
  }

  /** A saved create envelope reads back as its result, marked cached, for its own fingerprint only. */
  lemma CreateEnvelopeRoundTrip(saved: string, asked: string, r: CreateResult)
    ensures ReadCreateEnvelope(Some(CreateEnvelope(saved, r)), asked) ==
              if saved == asked then Hit(r.(cached := true)) else Mismatch
  {
    var members := CreateEnvelope(saved, r).members;
    assert members["request_fingerprint"] == Str(saved);
    assert members["response"].members["robotTaskCode"] == Str(r.robotTaskCode);
    assert members["response"].members["status"] == Str(r.status);
  }

  /** A saved raw envelope reads back unchanged, for its own fingerprint only. */
  lemma RawEnvelopeRoundTrip(saved: string, asked: string, r: RawResult)
    ensures ReadRawEnvelope(Some(RawEnvelope(saved, r)), asked) == if saved == asked then Hit(r) else Mismatch
  {
    var members := RawEnvelope(saved, r).members;
    assert members["fingerprint"] == Str(saved);
    var m := members["result"].members;
    assert m["robotTaskCode"] == OptionalText(r.robotTaskCode) && m["status"] == OptionalText(r.status);
    assert m["cached"] == Bool(r.cached) && m["persisted"] == Bool(r.persisted) && m["rcsResponse"] == Obj(r.rcs);
  }

  /** Neither endpoint accepts the other's envelope: the fingerprint field has another name. */
  lemma ForeignEnvelopesMismatch(saved: string, asked: string, c: CreateResult, r: RawResult)
    ensures ReadCreateEnvelope(Some(RawEnvelope(saved, r)), asked) == Mismatch
    ensures ReadRawEnvelope(Some(CreateEnvelope(saved, c)), asked) == Mismatch
  {
    assert "request_fingerprint" !in RawEnvelope(saved, r).members;
    assert "fingerprint" !in CreateEnvelope(saved, c).members;
  }
}
