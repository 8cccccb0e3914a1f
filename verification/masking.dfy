/** Redaction of log events: what the masking of nested dictionaries guarantees, and what it misses. */
module Masking {
  import opened Wrappers
  import opened Text
  import opened Json

  /**
   * `str.lower()` as far as it can produce an ASCII letter: the Latin capitals and the Kelvin
   * sign. No sensitive word is affected by what other characters become.
   */
  function Lower(c: char): char {
    if 'A' <= c <= 'Z' then (c as int + 32) as char else if c == '\U{212a}' then 'k' else c
  }

  function Lowered(s: string): string {
    seq(|s|, i requires 0 <= i < |s| => Lower(s[i]))
  }

  predicate Contains(s: string, word: string) {
    exists i :: 0 <= i <= |s| && word <= s[i..]
  }

  const SENSITIVE_LOG_FIELDS: set<string> :=
    {"password", "secret", "token", "authorization", "x-api-key", "x-webhook-signature"}

  predicate Sensitive(key: string) {
    var k := Lowered(key);
    k in SENSITIVE_LOG_FIELDS || Contains(k, "secret") || Contains(k, "token") || Contains(k, "password")
  }

  const MASK := Str("***")

  /** `_mask_dict` on a value: dictionaries are descended into, anything else is kept. */
  function Mask(j: Json): (r: Json)
    ensures j.Obj? ==> r.Obj? && r.members.Keys == j.members.Keys
    ensures !j.Obj? ==> r == j
    decreases j
  {
    if !j.Obj? then j
    else Obj(map k | k in j.members :: if Sensitive(k) then MASK else Mask(j.members[k]))
  }

  /** Masking twice is masking once. */
  lemma {:induction false} MaskIdempotent(j: Json)
    ensures Mask(Mask(j)) == Mask(j)
    decreases j
  {
    hide Sensitive;
    if j.Obj? {
      forall k | k in j.members
        ensures Mask(Mask(j)).members[k] == Mask(j).members[k]
      {
        MaskIdempotent(j.members[k]);
      }
    }
  }

  // ---------------------------------------------------------------- which keys, character by character

  /** The character is the lower-case letter, its ASCII capital, or for `k` the Kelvin sign. */
  predicate SameLetter(c: char, lower: char) {
    || c == lower
    || ('a' <= lower <= 'z' && 'A' <= c <= 'Z' && c as int + 32 == lower as int)
    || (lower == 'k' && c == '\U{212a}')
  }

  /** From place i on the text spells the lower-case word, in any mixture of cases. */
  predicate SpellsAt(text: string, word: string, i: int) {
    0 <= i <= |text| - |word| && forall j | 0 <= j < |word| :: SameLetter(text[i + j], word[j])
  }

  predicate Spells(text: string, word: string) {
    |text| == |word| && SpellsAt(text, word, 0)
  }

  ghost predicate SpellsInside(text: string, word: string) {
    exists i :: SpellsAt(text, word, i)
  }

  /** The keys whose values must not be logged. */
  ghost predicate NamesSecret(key: string) {
    || Spells(key, "password") || Spells(key, "secret") || Spells(key, "token")
    || Spells(key, "authorization") || Spells(key, "x-api-key") || Spells(key, "x-webhook-signature")
    || SpellsInside(key, "secret") || SpellsInside(key, "token") || SpellsInside(key, "password")
  }

  predicate LowerCaseWord(word: string) {
    forall i | 0 <= i < |word| :: 'a' <= word[i] <= 'z' || word[i] == '-'
  }

  lemma LoweredAt(text: string, word: string, i: nat)
    requires LowerCaseWord(word) && i <= |text|
    ensures word <= Lowered(text)[i..] <==> SpellsAt(text, word, i)
  {
    hide SameLetter, Lower;
    var low := Lowered(text)[i..];
    assert forall j | 0 <= j < |low| :: low[j] == Lower(text[i + j]);
    forall j | 0 <= j < |word|
      ensures forall c :: Lower(c) == word[j] <==> SameLetter(c, word[j])
    {
      LetterIff(word[j]);
    }
    if SpellsAt(text, word, i) {
      assert forall j | 0 <= j < |word| :: low[j] == word[j];
    } else if |word| <= |low| {
      var j :| 0 <= j < |word| && !SameLetter(text[i + j], word[j]);
      assert low[j] != word[j];
    }
  }

  lemma LetterIff(lower: char)
    requires 'a' <= lower <= 'z' || lower == '-'
    ensures forall c :: Lower(c) == lower <==> SameLetter(c, lower)
  {
  }

  lemma LoweredSpells(text: string, word: string)
    requires LowerCaseWord(word)
    ensures Lowered(text) == word <==> Spells(text, word)
  {
    hide SameLetter, Lower;
    LoweredAt(text, word, 0);
    assert Lowered(text)[0..] == Lowered(text);
  }

  lemma LoweredContains(text: string, word: string)
    requires LowerCaseWord(word)
    ensures Contains(Lowered(text), word) <==> SpellsInside(text, word)
  {
    hide SameLetter, Lower, SpellsAt;
    forall i | 0 <= i <= |text|
      ensures word <= Lowered(text)[i..] <==> SpellsAt(text, word, i)
    {
      LoweredAt(text, word, i);
    }
    assert forall i | SpellsAt(text, word, i) :: 0 <= i <= |text| by {
      SpellsInRange(text, word);
    }
  }

  lemma SpellsInRange(text: string, word: string)
    ensures forall i | SpellsAt(text, word, i) :: 0 <= i <= |text|
  {
  }

  /** The check on a lowered key is the check on its letters. */
  lemma SensitiveIff(key: string)
    ensures Sensitive(key) <==> NamesSecret(key)
  {
    hide Lowered, Spells, SpellsInside, Contains, LowerCaseWord;
    LowerCaseWords();
    LoweredSpells(key, "password");
    LoweredSpells(key, "secret");
    LoweredSpells(key, "token");
    LoweredSpells(key, "authorization");
    LoweredSpells(key, "x-api-key");
    LoweredSpells(key, "x-webhook-signature");
    LoweredContains(key, "secret");
    LoweredContains(key, "token");
    LoweredContains(key, "password");
    ListedNames();
  }

  lemma LowerCaseWords()
    ensures LowerCaseWord("password") && LowerCaseWord("secret") && LowerCaseWord("token")
    ensures LowerCaseWord("authorization") && LowerCaseWord("x-api-key") && LowerCaseWord("x-webhook-signature")
  {
  }

  lemma ListedNames()
    ensures SENSITIVE_LOG_FIELDS ==
              {"password", "secret", "token", "authorization", "x-api-key", "x-webhook-signature"}
  {
  }

  /** All six listed names are themselves sensitive. */
  lemma ListedNamesAreSensitive(name: string)
    requires name in {"password", "secret", "token", "authorization", "x-api-key", "x-webhook-signature"}
    ensures Sensitive(name)
  {
    WordsAreLowered(name);
  }

  lemma WordsAreLowered(name: string)
    requires LowerCaseWord(name)
    ensures Lowered(name) == name
  {
  }

  /**
   * What redaction must make of a value: under a secret key the mask, under any other key the same
   * again, and whatever is no dictionary stays as it is.
   */
  ghost predicate Redacted(before: Json, after: Json)
    decreases before
  {
    if !before.Obj? then after == before
    else
      && after.Obj?
      && after.members.Keys == before.members.Keys
      && forall k | k in before.members ::
           if NamesSecret(k) then after.members[k] == Str("***") else Redacted(before.members[k], after.members[k])
  }

  lemma {:induction false} MaskRedacts(j: Json)
    ensures Redacted(j, Mask(j))
    decreases j
  {
    hide Sensitive, NamesSecret;
    if j.Obj? {
      forall k | k in j.members
        ensures if NamesSecret(k) then Mask(j).members[k] == Str("***") else Redacted(j.members[k], Mask(j).members[k])
      {
        SensitiveIff(k);
        MaskRedacts(j.members[k]);
      }
    }
  }

  // ---------------------------------------------------------------- through dictionaries

  /** The value a chain of dictionary keys leads to. */
  function At(j: Json, path: seq<string>): Option<Json> {
    if path == [] then Some(j)
    else if j.Obj? && path[0] in j.members then At(j.members[path[0]], path[1..])
    else None
  }

  /** No sensitive key reachable through dictionaries keeps its value. */
  lemma {:induction false} NoSecretReachable(j: Json, path: seq<string>)
    requires path != [] && Sensitive(path[|path| - 1]) && At(Mask(j), path).Some?
    ensures At(Mask(j), path) == Some(MASK)
    decreases |path|
  {
    hide Sensitive;
    var rest := path[1..];
    if rest == [] {
      assert At(Mask(j), path) == Some(Mask(j).members[path[0]]);
    } else {
      assert rest[|rest| - 1] == path[|path| - 1];
      assert At(Mask(j), path) == At(Mask(j).members[path[0]], rest);
      NoSecretReachable(j.members[path[0]], rest);
    }
  }

  /** Along harmless keys nothing is lost: the masked event leads to the masked value. */
  lemma {:induction false} HarmlessPathsKept(j: Json, path: seq<string>)
    requires forall k | k in path :: !Sensitive(k)
    ensures At(Mask(j), path) == if At(j, path).Some? then Some(Mask(At(j, path).value)) else None
    decreases |path|
  {
    hide Sensitive;
    if path != [] && j.Obj? && path[0] in j.members {
      HarmlessPathsKept(j.members[path[0]], path[1..]);
    }
  }

  // ---------------------------------------------------------------- anywhere at all

  /** Every sensitive key anywhere, inside lists too, has been masked. */
  predicate Clean(j: Json)
    decreases j
  {
    match j
    case Obj(members) => forall k | k in members :: if Sensitive(k) then members[k] == MASK else Clean(members[k])
    case Arr(items) => forall i | 0 <= i < |items| :: Clean(items[i])
    case _ => true
  }

  /** The lists that dictionaries lead to along harmless keys are clean as they stand. */
  predicate ListsClean(j: Json)
    decreases j
  {
    match j
    case Obj(members) => forall k | k in members && !Sensitive(k) :: ListsClean(members[k])
    case Arr(_) => Clean(j)
    case _ => true
  }

  /** Masking leaves no secret anywhere in an event exactly when its lists held none. */
  lemma {:induction false} MaskedEverywhereIff(j: Json)
    ensures Clean(Mask(j)) <==> ListsClean(j)
    decreases j
  {
    hide Sensitive;
    if j.Obj? {
      forall k | k in j.members && !Sensitive(k)
        ensures Clean(Mask(j).members[k]) <==> ListsClean(j.members[k])
      {
        MaskedEverywhereIff(j.members[k]);
      }
    }
  }

  const LISTED_SECRET := Obj(map["ids" := Arr([Obj(map["password" := Str("hunter2")])])])

  /** A secret inside a list survives, although the redaction is meant to reach everywhere. */
  lemma ListedSecretSurvives()
    ensures Mask(LISTED_SECRET) == LISTED_SECRET
    ensures !Clean(Mask(LISTED_SECRET))
  {
    assert |Lowered("ids")| < 4;
    assert !Sensitive("ids");
    assert Lowered("password") == "password";
    assert Sensitive("password");
    var hidden := LISTED_SECRET.members["ids"];
    assert Mask(LISTED_SECRET).members == LISTED_SECRET.members;
    assert !Clean(hidden.items[0]);
    assert !Clean(hidden);
  }

  // ---------------------------------------------------------------- the loops

  /** What one entry becomes. */
  function MaskedEntry(key: string, value: Json): Json {
    if Sensitive(key) then MASK else Mask(value)
  }

  lemma MaskIsEntrywise(m: map<string, Json>)
    ensures Mask(Obj(m)).Obj?
    ensures Mask(Obj(m)).members == map k | k in m :: MaskedEntry(k, m[k])
  {
    hide Sensitive;
  }

  lemma EntryCases(key: string, value: Json)
    ensures Sensitive(key) ==> MaskedEntry(key, value) == MASK
    ensures !Sensitive(key) && value.Obj? ==> MaskedEntry(key, value) == Obj(Mask(Obj(value.members)).members)
    ensures !Sensitive(key) && !value.Obj? ==> MaskedEntry(key, value) == value
  {
    hide Sensitive;
  }

  /** `list(d.keys())`: every key once. */
  method ListKeys(m: map<string, Json>) returns (keys: seq<string>)
    ensures forall j | 0 <= j < |keys| :: keys[j] in m
    ensures forall i, j | 0 <= i < j < |keys| :: keys[i] != keys[j]
    ensures forall k | k in m :: exists j :: 0 <= j < |keys| && keys[j] == k
  {
    hide SortedKeys, LexLe;
    SortedKeysAscend(m.Keys);
    keys := SortedKeys(m.Keys);
  }

  /** `_mask_dict`: fills a fresh dictionary and leaves its input alone. */
  method MaskDict(value: map<string, Json>) returns (masked: map<string, Json>)
    ensures masked == Mask(Obj(value)).members
    ensures Redacted(Obj(value), Obj(masked))
    decreases Obj(value)
  {
    MaskRedacts(Obj(value));
    MaskIsEntrywise(value);
    hide Sensitive, Redacted;
    masked := map[];
    var keys := ListKeys(value);
    for i := 0 to |keys|
      invariant forall k | k in masked :: k in value && masked[k] == MaskedEntry(k, value[k])
      invariant forall j | 0 <= j < i :: keys[j] in masked
    {
      var k := keys[i];
      if Sensitive(k) {
        masked := masked[k := MASK];
      } else if value[k].Obj? {
        var inner := MaskDict(value[k].members);
        assert Mask(value[k]) == Obj(inner);
        masked := masked[k := Obj(inner)];
      } else {
        masked := masked[k := value[k]];
      }
    }
  }

  class LogEvent {
    var fields: map<string, Json>

    constructor (fields: map<string, Json>)
      ensures this.fields == fields
    {
      this.fields := fields;
    }

    /** The body of the loop: one field is overwritten in place, or left alone. */
    method MaskField(key: string)
      requires key in fields
      modifies this
      ensures fields == old(fields)[key := MaskedEntry(key, old(fields)[key])]
    {
      EntryCases(key, fields[key]);
      hide Sensitive, MaskedEntry, Mask;
      if Sensitive(key) {
        fields := fields[key := MASK];
      } else if fields[key].Obj? {
        var inner := MaskDict(fields[key].members);
        fields := fields[key := Obj(inner)];
      }
    }

    /** `_mask_sensitive`: the in-place loop over a snapshot of the keys does what the recursion does. */
    method MaskSensitive()
      modifies this
      ensures fields == Mask(Obj(old(fields))).members
      ensures Redacted(Obj(old(fields)), Obj(fields))
      ensures fields.Keys == old(fields).Keys
    {
      MaskRedacts(Obj(fields));
      MaskIsEntrywise(fields);
      hide MaskedEntry, Mask, Redacted;
      ghost var before := fields;
      var keys := ListKeys(fields);
      for i := 0 to |keys|
        invariant fields.Keys == before.Keys
        invariant forall j | 0 <= j < i :: fields[keys[j]] == MaskedEntry(keys[j], before[keys[j]])
        invariant forall j | i <= j < |keys| :: fields[keys[j]] == before[keys[j]]
      {
        MaskField(keys[i]);
      }
    }
  }
}
