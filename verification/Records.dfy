/** internal/outbox/record.go: record identity, payload clean-up before persistence, and the
    record a result envelope turns into. */
module Records {
  import opened GoStrings
  import opened Protocol
  import opened Redaction

  datatype Record = Record(
    recordId: string,
    commandId: string,
    createdAt: int,
    updatedAt: int,
    attempts: int,
    lastError: string,
    nextRetryAt: int,
    envelope: Envelope)

  // ----- record ids -----

  predicate IsSafeChar(c: char) {
    'A' <= c <= 'Z' || 'a' <= c <= 'z' || '0' <= c <= '9' || c == '.' || c == '_' || c == '-'
  }

  predicate IsTrimChar(c: char) { c == '.' || c == '-' || c == '_' }

  predicate AllSafe(s: string) { forall i :: 0 <= i < |s| ==> IsSafeChar(s[i]) }

  function DropUnsafe(s: string): (r: string)
    ensures |r| <= |s|
    ensures r != [] ==> IsSafeChar(r[0])
    ensures s != [] && !IsSafeChar(s[0]) ==> |r| < |s|
  {
    if s == [] || IsSafeChar(s[0]) then s else DropUnsafe(s[1..])
  }

  /** Every maximal run of unsafe characters becomes one underscore. */
  function ReplaceUnsafe(s: string): (r: string)
    ensures AllSafe(r)
    decreases |s|
  {
    if s == [] then []
    else if IsSafeChar(s[0]) then [s[0]] + ReplaceUnsafe(s[1..])
    else "_" + ReplaceUnsafe(DropUnsafe(s))
  }

  function TrimLeft(s: string): (r: string)
    ensures |r| <= |s| && (AllSafe(s) ==> AllSafe(r))
    ensures r != [] ==> !IsTrimChar(r[0])
    ensures s != [] && !IsTrimChar(s[0]) ==> r == s
  {
    if s == [] || !IsTrimChar(s[0]) then s else TrimLeft(s[1..])
  }

  function TrimRight(s: string): (r: string)
    ensures |r| <= |s| && (AllSafe(s) ==> AllSafe(r))
    ensures r != [] ==> r[0] == s[0] && !IsTrimChar(r[|r| - 1])
    ensures s != [] && !IsTrimChar(s[|s| - 1]) ==> r == s
  {
    if s == [] || !IsTrimChar(s[|s| - 1]) then s else TrimRight(s[..|s| - 1])
  }

  const UNKNOWN := "unknown"

  function SanitizeRecordId(commandId: string): string {
    var id := TrimRight(TrimLeft(ReplaceUnsafe(commandId)));
    if id == "" then UNKNOWN else id
  }

  /** The safe characters again, by what they leave out of ASCII. */
  lemma SafeCharExactly(c: char)
    ensures IsSafeChar(c) <==> !(c < '-' || c == '/' || ':' <= c <= '@' || '[' <= c <= '^' || c == '`' || 'z' < c)
    ensures IsTrimChar(c) <==> c as int == 45 || c as int == 46 || c as int == 95
  {
  }

  /** Replacement, run by run: a run of unsafe characters between safe text becomes one underscore. */
  lemma {:induction false} ReplacesRunByRun(a: string, run: string, b: string)
    requires AllSafe(a) && run != "" && (forall i :: 0 <= i < |run| ==> !IsSafeChar(run[i])) && (b != "" ==> IsSafeChar(b[0]))
    ensures ReplaceUnsafe(a + run + b) == a + "_" + ReplaceUnsafe(b)
  {
    assert a + run + b == a + (run + b);
    ReplaceAfterSafe(a, run + b);
    DropsRun(run, b);
    assert (run + b)[0] == run[0];
    assert a + ("_" + ReplaceUnsafe(b)) == a + "_" + ReplaceUnsafe(b);
  }

  lemma {:induction false} DropsRun(run: string, b: string)
    requires (forall i :: 0 <= i < |run| ==> !IsSafeChar(run[i])) && (b != "" ==> IsSafeChar(b[0]))
    ensures DropUnsafe(run + b) == b
  {
    if run == "" {
      assert run + b == b;
    } else {
      assert (run + b)[1..] == run[1..] + b;
      DropsRun(run[1..], b);
    }
  }

  /** Trimming cuts off trim characters at both ends and nothing else. */
  lemma {:induction false} TrimsLeft(s: string) returns (cut: string)
    ensures s == cut + TrimLeft(s) && forall i :: 0 <= i < |cut| ==> IsTrimChar(cut[i])
  {
    cut := "";
    if s != "" && IsTrimChar(s[0]) {
      var rest := TrimsLeft(s[1..]);
      cut := [s[0]] + rest;
    }
  }

  lemma {:induction false} TrimsRight(s: string) returns (cut: string)
    ensures s == TrimRight(s) + cut && forall i :: 0 <= i < |cut| ==> IsTrimChar(cut[i])
  {
    cut := "";
    if s != "" && IsTrimChar(s[|s| - 1]) {
      var rest := TrimsRight(s[..|s| - 1]);
      cut := rest + [s[|s| - 1]];
    }
  }

  /** Not empty, only safe characters, and no '.', '-' or '_' at either end. */
  predicate IsCanonicalId(id: string) {
    && id != ""
    && AllSafe(id)
    && !IsTrimChar(id[0]) && !IsTrimChar(id[|id| - 1])
  }

  /** Sanitising always yields a canonical id, and canonical ids are exactly its fixed points;
      in particular it is idempotent. */
  lemma SanitizeYieldsCanonicalId(commandId: string)
    ensures IsCanonicalId(SanitizeRecordId(commandId))
    ensures SanitizeRecordId(commandId) == commandId <==> IsCanonicalId(commandId)
    ensures SanitizeRecordId(SanitizeRecordId(commandId)) == SanitizeRecordId(commandId)
  {
    if IsCanonicalId(commandId) { CanonicalIsFixed(commandId); }
    TrimmedIsCanonical(commandId);
    CanonicalIsFixed(SanitizeRecordId(commandId));
  }

  lemma TrimmedIsCanonical(commandId: string)
    ensures IsCanonicalId(SanitizeRecordId(commandId))
  {
  }

  lemma CanonicalIsFixed(id: string)
    requires IsCanonicalId(id)
    ensures SanitizeRecordId(id) == id
  {
    SafeIsKept(id);
  }

  lemma {:induction false} SafeIsKept(s: string)
    requires AllSafe(s)
    ensures ReplaceUnsafe(s) == s
  {
    if s != [] { SafeIsKept(s[1..]); }
  }

  /** Distinct command ids can share one record: the id is not injective.  Any unsafe character
      between two canonical parts collides with an underscore there. */
  lemma RecordIdsCollide(a: string, c: char, b: string)
    requires IsCanonicalId(a) && IsCanonicalId(b) && !IsSafeChar(c)
    ensures SanitizeRecordId(a + [c] + b) == SanitizeRecordId(a + "_" + b) == a + "_" + b
  {
    var x := [c] + b;
    assert a + [c] + b == a + x;
    assert x[1..] == b && DropUnsafe(b) == b && DropUnsafe(x) == b;
    SafeIsKept(b);
    ReplaceAfterSafe(a, x);
    assert a + ("_" + b) == a + "_" + b;
    var id := a + "_" + b;
    assert id[0] == a[0] && id[|id| - 1] == b[|b| - 1];
    CanonicalIsFixed(id);
  }

  lemma EmptyIdIsUnknown()
    ensures SanitizeRecordId("") == UNKNOWN == SanitizeRecordId(UNKNOWN)
  {
    CanonicalIsFixed(UNKNOWN);
  }

  lemma {:induction false} ReplaceAfterSafe(a: string, b: string)
    requires AllSafe(a)
    ensures ReplaceUnsafe(a + b) == a + ReplaceUnsafe(b)
  {
    if a == [] {
      assert a + b == b;
    } else {
      assert (a + b)[1..] == a[1..] + b;
      ReplaceAfterSafe(a[1..], b);
    }
  }

  // ----- file names -----

  /** A file name read from its end: record file, temporary, quarantined file, or anything else.
      `Render` and `Parse` below show that this is the same as the name's text. */
  datatype Name = Json(stem: string) | Tmp(base: Name) | Bad(base: Name) | Other(text: string)

  /** The final, temporary and quarantine names of a record. */
  function PathOf(recordId: string): Name { Json(recordId) }
  function TmpPathOf(recordId: string): Name { Tmp(PathOf(recordId)) }
  function BadPathOf(name: Name): Name { Bad(name) }

  function Render(n: Name): string {
    match n
    case Json(stem) => stem + ".json"
    case Tmp(base) => Render(base) + ".tmp"
    case Bad(base) => Render(base) + ".bad"
    case Other(text) => text
  }

  /** The three files of a record, by name. */
  lemma PathTexts(id: string)
    ensures Render(PathOf(id)) == id + ".json"
    ensures Render(TmpPathOf(id)) == id + ".json" + ".tmp"
    ensures Render(BadPathOf(PathOf(id))) == id + ".json" + ".bad"
  {
  }

  function Parse(s: string): Name
    decreases |s|
  {
    if HasSuffix(s, ".json") then Json(s[..|s| - 5])
    else if HasSuffix(s, ".tmp") then Tmp(Parse(s[..|s| - 4]))
    else if HasSuffix(s, ".bad") then Bad(Parse(s[..|s| - 4]))
    else Other(s)
  }

  /** The `Other` text at the bottom, if any, has none of the three suffixes. */
  predicate IsProper(n: Name) {
    match n
    case Json(_) => true
    case Tmp(base) => IsProper(base)
    case Bad(base) => IsProper(base)
    case Other(s) => !HasSuffix(s, ".json") && !HasSuffix(s, ".tmp") && !HasSuffix(s, ".bad")
  }

  lemma SuffixOf(a: string, suffix: string)
    ensures HasSuffix(a + suffix, suffix) && (a + suffix)[..|a|] == a
  {
  }

  lemma LastCharsDiffer(name: string, suffix: string)
    requires name != "" && suffix != "" && name[|name| - 1] != suffix[|suffix| - 1]
    ensures !HasSuffix(name, suffix)
  {
  }

  /** Reading a name and writing it back are inverse, so two names are different exactly when
      their texts are: final, temporary and quarantine paths never collide. */
  lemma {:induction false} NamesRoundTrip(n: Name)
    requires IsProper(n)
    ensures Parse(Render(n)) == n
  {
    match n
    case Json(stem) => SuffixOf(stem, ".json");
    case Tmp(base) =>
      NamesRoundTrip(base);
      SuffixOf(Render(base), ".tmp");
      LastCharsDiffer(Render(n), ".json");
    case Bad(base) =>
      NamesRoundTrip(base);
      SuffixOf(Render(base), ".bad");
      LastCharsDiffer(Render(n), ".json");
      LastCharsDiffer(Render(n), ".tmp");
    case Other(_) =>
  }

  /** Every text is some proper name, and the suffix tests see the outermost layer. */
  lemma {:induction false} TextsAreNames(s: string)
    ensures IsProper(Parse(s)) && Render(Parse(s)) == s
    ensures Parse(s).Json? <==> HasSuffix(s, ".json")
    ensures Parse(s).Tmp? <==> HasSuffix(s, ".tmp")
    decreases |s|
  {
    if HasSuffix(s, ".json") {
      assert s == s[..|s| - 5] + s[|s| - 5..];
      assert s[|s| - 5..][4] == s[|s| - 1];
      LastCharsDiffer(s, ".tmp");
    } else if HasSuffix(s, ".tmp") || HasSuffix(s, ".bad") {
      assert s == s[..|s| - 4] + s[|s| - 4..];
      TextsAreNames(s[..|s| - 4]);
    }
  }

  // ----- payload clean-up -----

  const TEXT_KEYS: seq<string> := ["stdout", "stderr"]

  function RedactTextField(m: map<string, Value>, key: string): map<string, Value> {
    if key in m && m[key].Str? then m[key := Str(Redacted(m[key].s))] else m
  }

  function SanitizedPayload(p: Payload): Payload {
    match p
    case Undecodable(_) => p
    case NullPayload => Object(map[])
    case Object(m) => Object(RedactTextField(RedactTextField(Redact(Obj(m)).fields, "stdout"), "stderr"))
  }

  function SanitizedEnvelope(env: Envelope): Envelope {
    env.(payload := SanitizedPayload(env.payload))
  }

  method SanitizeEnvelope(env: Envelope) returns (r: Envelope)
    ensures r == SanitizedEnvelope(env)
  {
    if env.payload.Undecodable? {
      return env;
    }
    // decoding `null` into a map succeeds and leaves the map empty
    var fields := if env.payload.NullPayload? then map[] else env.payload.fields;
    var copy := RedactValue(Obj(fields));
    var redacted := copy.fields;
    for i := 0 to |TEXT_KEYS|
      invariant redacted == (if i == 0 then Redact(Obj(fields)).fields
                             else if i == 1 then RedactTextField(Redact(Obj(fields)).fields, "stdout")
                             else RedactTextField(RedactTextField(Redact(Obj(fields)).fields, "stdout"), "stderr"))
    {
      var key := TEXT_KEYS[i];
      if key in redacted && redacted[key].Str? {
        var text := RedactText(redacted[key].s);
        redacted := redacted[key := Str(text)];
      }
    }
    r := env.(payload := Object(redacted));
  }

  /** The JSON object a result payload is encoded as. */
  function StateName(s: CommandState): string {
    match s
    case Queued => "queued" case Running => "running" case Succeeded => "succeeded"
    case Failed => "failed" case TimedOut => "timed_out" case Rejected => "rejected"
    case Cancelled => "cancelled"
  }

  const RESULT_KEYS: seq<string> :=
    ["stdout", "stderr", "command_id", "action", "state", "exit_code", "output_truncated",
     "started_at", "ended_at", "duration_ms", "error_code"]

  function TextlessField(r: ResultPayload, key: string): (v: Value)
    ensures !v.Obj? && !v.List?
  {
    if key == "command_id" then Str(r.commandId)
    else if key == "action" then Str(r.action)
    else if key == "state" then Str(StateName(r.state))
    else if key == "exit_code" then Num(r.exitCode)
    else if key == "output_truncated" then Bool(r.outputTruncated)
    else if key == "started_at" then Num(r.startedAt)
    else if key == "ended_at" then Num(r.endedAt)
    else if key == "duration_ms" then Num(r.durationMs)
    else Str(r.errorCode)
  }

  function FieldOf(r: ResultPayload, key: string): (v: Value)
    ensures !v.Obj? && !v.List?
  {
    if key == "stdout" then Str(r.stdout)
    else if key == "stderr" then Str(r.stderr)
    else TextlessField(r.(stdout := "", stderr := ""), key)
  }

  function FieldMap(r: ResultPayload, keys: seq<string>): map<string, Value> {
    map key | key in keys :: FieldOf(r, key)
  }

  function Encode(r: ResultPayload): Payload {
    Object(FieldMap(r, RESULT_KEYS))
  }

  /** The encoding, field by field. */
  lemma EncodedText(r: ResultPayload)
    ensures FieldOf(r, "stdout") == Str(r.stdout) && FieldOf(r, "stderr") == Str(r.stderr)
    ensures FieldOf(r, "command_id") == Str(r.commandId) && FieldOf(r, "action") == Str(r.action)
  {
  }

  lemma EncodedOutcome(r: ResultPayload)
    ensures FieldOf(r, "state") == Str(StateName(r.state)) && FieldOf(r, "exit_code") == Num(r.exitCode)
    ensures FieldOf(r, "error_code") == Str(r.errorCode) && FieldOf(r, "output_truncated") == Bool(r.outputTruncated)
  {
  }

  lemma EncodedTimes(r: ResultPayload)
    ensures FieldOf(r, "started_at") == Num(r.startedAt) && FieldOf(r, "ended_at") == Num(r.endedAt)
    ensures FieldOf(r, "duration_ms") == Num(r.durationMs)
  {
  }

  lemma StateNames()
    ensures StateName(Queued) == "queued" && StateName(Running) == "running" && StateName(Succeeded) == "succeeded"
    ensures StateName(Failed) == "failed" && StateName(TimedOut) == "timed_out" && StateName(Rejected) == "rejected"
    ensures StateName(Cancelled) == "cancelled"
  {
  }

  /** An encoded result has exactly these eleven fields. */
  lemma EncodedExactly(r: ResultPayload)
    ensures Encode(r).Object? && forall key :: key in Encode(r).fields <==> key in RESULT_KEYS
    ensures forall key :: key in Encode(r).fields ==> Encode(r).fields[key] == FieldOf(r, key)
    ensures |RESULT_KEYS| == 11
  {
  }

  /** Lower-case keys that lack the letters every sensitive key has. */
  predicate IsPlainKey(k: string) {
    && (forall i :: 0 <= i < |k| ==> (k[i] == '_' || 'a' <= k[i] <= 'z') && k[i] != 'w' && k[i] != 'k')
    && ((forall i :: 0 <= i < |k| ==> k[i] != 's') || (forall i :: 0 <= i < |k| ==> k[i] != 'c'))
  }

  lemma {:induction false} LowerCaseIsFixed(s: string)
    requires forall i :: 0 <= i < |s| ==> s[i] <= '\U{7F}' && !('A' <= s[i] <= 'Z')
    ensures ToLower(s) == s
  {
    if s != [] {
      assert s[0] <= '\U{7F}';
      assert FirstLower(s).1 == 1;
      LowerCaseIsFixed(s[1..]);
    }
  }

  lemma LacksLetter(k: string, w: string, j: nat)
    requires j < |w| && w[j] !in k
    ensures !Contains(k, w)
  {
  }

  lemma PlainKeyIsPublic(k: string)
    requires IsPlainKey(k)
    ensures !IsSensitiveKey(k)
  {
    LowerCaseIsFixed(k);
    PlainKeyContainsNoWord(k);
    PlainKeyIsNoName(k);
  }

  lemma PlainKeyContainsNoWord(k: string)
    requires IsPlainKey(k)
    ensures !Contains(k, "password") && !Contains(k, "token") && !Contains(k, "secret")
  {
    LacksLetter(k, "password", 4);
    LacksLetter(k, "token", 2);
    if 's' !in k { LacksLetter(k, "secret", 0); } else { LacksLetter(k, "secret", 2); }
  }

  lemma PlainKeyIsNoName(k: string)
    requires IsPlainKey(k)
    ensures k != "psk" && k != "key" && k != "device_secret" && !HasSuffix(k, "_key")
  {
    assert |k| >= 4 ==> k[|k| - 4..][1] == k[|k| - 3];
    assert "psk"[2] == 'k' && "key"[0] == 'k' && "_key"[1] == 'k';
    assert "device_secret"[7] == 's' && "device_secret"[9] == 'c';
  }

  lemma ResultKeyIsPlain(i: nat)
    requires i < |RESULT_KEYS|
    ensures IsPlainKey(RESULT_KEYS[i])
  {
    TextAndIdKeysArePlain();
    OutcomeKeysArePlain();
    FlagKeyIsPlain();
    TimeKeysArePlain();
  }

  lemma TextAndIdKeysArePlain()
    ensures IsPlainKey("stdout") && IsPlainKey("stderr") && IsPlainKey("command_id") && IsPlainKey("action")
  {
  }

  lemma OutcomeKeysArePlain()
    ensures IsPlainKey("state") && IsPlainKey("exit_code") && IsPlainKey("error_code")
  {
  }

  lemma FlagKeyIsPlain()
    ensures IsPlainKey("output_truncated")
  {
  }

  lemma TimeKeysArePlain()
    ensures IsPlainKey("started_at") && IsPlainKey("ended_at") && IsPlainKey("duration_ms")
  {
  }

  lemma ResultKeysArePublic()
    ensures forall k :: k in RESULT_KEYS ==> !IsSensitiveKey(k)
  {
    forall k | k in RESULT_KEYS ensures !IsSensitiveKey(k) {
      var i: nat :| i < |RESULT_KEYS| && RESULT_KEYS[i] == k;
      ResultKeyIsPlain(i);
      PlainKeyIsPublic(k);
    }
  }

  lemma FlatTreeIsPublic(m: map<string, Value>)
    requires forall k :: k in m ==> !IsSensitiveKey(k) && !m[k].Obj? && !m[k].List?
    ensures Redact(Obj(m)).fields == m
  {
  }

  lemma UpdateTextFields(r: ResultPayload, keys: seq<string>, out: string, err: string)
    requires "stdout" in keys && "stderr" in keys
    ensures FieldMap(r, keys)["stdout" := Str(out)]["stderr" := Str(err)] ==
            FieldMap(r.(stdout := out, stderr := err), keys)
  {
  }

  lemma TextKeysDiffer()
    ensures "stdout" != "stderr"
  {
  }

  lemma PersistingFieldMap(r: ResultPayload, keys: seq<string>)
    requires "stdout" in keys && "stderr" in keys
    requires forall k :: k in keys ==> !IsSensitiveKey(k)
    ensures SanitizedPayload(Object(FieldMap(r, keys))) ==
            Object(FieldMap(r.(stdout := Redacted(r.stdout), stderr := Redacted(r.stderr)), keys))
  {
    FlatTreeIsPublic(FieldMap(r, keys));
    TextKeysDiffer();
    UpdateTextFields(r, keys, Redacted(r.stdout), Redacted(r.stderr));
  }

  /** Persisting a result rewrites its two text fields and nothing else. */
  lemma PersistingRedactsTextOnly(r: ResultPayload)
    ensures SanitizedPayload(Encode(r)) == Encode(r.(stdout := Redacted(r.stdout), stderr := Redacted(r.stderr)))
  {
    ResultKeysArePublic();
    TextFields(r);
    PersistingFieldMap(r, RESULT_KEYS);
  }

  /** Persisting a result changes it exactly when its output still contains a sensitive word. */
  lemma PersistingResultExactly(r: ResultPayload)
    ensures SanitizedPayload(Encode(r)) == Encode(r) <==>
            !ContainsSensitiveWord(r.stdout) && !ContainsSensitiveWord(r.stderr)
  {
    var r' := r.(stdout := Redacted(r.stdout), stderr := Redacted(r.stderr));
    PersistingRedactsTextOnly(r);
    RedactTextRemovesSensitiveWords(r.stdout);
    RedactTextRemovesSensitiveWords(r.stderr);
    TextFields(r);
    TextFields(r');
  }

  lemma TextFields(r: ResultPayload)
    ensures "stdout" in Encode(r).fields && Encode(r).fields["stdout"] == Str(r.stdout)
    ensures "stderr" in Encode(r).fields && Encode(r).fields["stderr"] == Str(r.stderr)
  {
  }

  lemma NamedKeysArePublic()
    ensures !IsSensitiveKey("stdout") && !IsSensitiveKey("stderr") && !IsSensitiveKey("command_id")
  {
    ResultKeysArePublic();
    assert RESULT_KEYS[0] == "stdout" && RESULT_KEYS[1] == "stderr" && RESULT_KEYS[2] == "command_id";
  }

  /** Overwriting a public text field keeps a masked tree masked. */
  lemma MaskedAfterUpdate(m: map<string, Value>, key: string, text: string)
    requires Masked(Obj(m)) && !IsSensitiveKey(key)
    ensures Masked(Obj(m[key := Str(text)]))
  {
  }

  lemma RedactTextFieldTwice(m: map<string, Value>, key: string)
    ensures RedactTextField(RedactTextField(m, key), key) == RedactTextField(m, key)
  {
    if key in m && m[key].Str? { RedactTextIdempotent(m[key].s); }
  }

  lemma RedactTextFieldsCommute(m: map<string, Value>, a: string, b: string)
    requires a != b
    ensures RedactTextField(RedactTextField(m, a), b) == RedactTextField(RedactTextField(m, b), a)
  {
  }

  /** Cleaning a payload twice is cleaning it once, for arbitrary payload trees. */
  lemma SanitizePayloadIdempotent(p: Payload)
    ensures SanitizedPayload(SanitizedPayload(p)) == SanitizedPayload(p)
  {
    if p.Object? {
      CleanFieldsIdempotent(p.fields);
    } else if p.NullPayload? {
      assert Redact(Obj(map[])).fields == map[];
    }
  }

  lemma CleanFieldsIdempotent(fields: map<string, Value>)
    ensures SanitizedPayload(SanitizedPayload(Object(fields))) == SanitizedPayload(Object(fields))
  {
    NamedKeysArePublic();
    TextKeysDiffer();
    RedactFixedPoints(Obj(fields));
    CleanTwice(Redact(Obj(fields)).fields, "stdout", "stderr");
  }

  lemma CleanTwice(m0: map<string, Value>, out: string, err: string)
    requires Masked(Obj(m0)) && out != err && !IsSensitiveKey(out) && !IsSensitiveKey(err)
    ensures var m2 := RedactTextField(RedactTextField(m0, out), err);
            && Redact(Obj(m2)).fields == m2
            && RedactTextField(RedactTextField(m2, out), err) == m2
  {
    var m1 := RedactTextField(m0, out);
    var m2 := RedactTextField(m1, err);
    if out in m0 && m0[out].Str? { MaskedAfterUpdate(m0, out, Redacted(m0[out].s)); }
    if err in m1 && m1[err].Str? { MaskedAfterUpdate(m1, err, Redacted(m1[err].s)); }
    RedactFixedPoints(Obj(m2));
    RedactTextFieldTwice(m0, out);
    RedactTextFieldTwice(m1, err);
    RedactTextFieldsCommute(m1, err, out);
  }

  /** Exactly the payloads that persisting leaves alone: those that do not decode, and objects that
      are masked already and whose two texts contain no sensitive word.  Never `null`. */
  lemma PersistingPayloadExactly(p: Payload)
    ensures SanitizedPayload(p) == p <==>
            p.Undecodable? || (p.Object? && Masked(Obj(p.fields)) && IsCleanText(p.fields, "stdout") && IsCleanText(p.fields, "stderr"))
  {
    if p.Object? {
      NamedKeysArePublic();
      TextKeysDiffer();
      CleanFieldsExactly(p.fields, "stdout", "stderr");
    }
  }

  predicate IsCleanText(m: map<string, Value>, key: string) {
    key in m && m[key].Str? ==> !ContainsSensitiveWord(m[key].s)
  }

  lemma CleanFieldsExactly(m: map<string, Value>, out: string, err: string)
    requires out != err && !IsSensitiveKey(out) && !IsSensitiveKey(err)
    ensures RedactTextField(RedactTextField(Redact(Obj(m)).fields, out), err) == m <==>
            Masked(Obj(m)) && IsCleanText(m, out) && IsCleanText(m, err)
  {
    var m0 := Redact(Obj(m)).fields;
    RedactFixedPoints(Obj(m));
    CleanTwice(m0, out, err);
    if RedactTextField(RedactTextField(m0, out), err) == m {
      assert Redact(Obj(m)) == Obj(m);
    }
    if m0 == m { TextFieldsUnchanged(m, out, err); }
  }

  lemma TextFieldsUnchanged(m: map<string, Value>, out: string, err: string)
    requires out != err
    ensures RedactTextField(RedactTextField(m, out), err) == m <==> IsCleanText(m, out) && IsCleanText(m, err)
  {
    OneTextFieldUnchanged(m, out);
    OneTextFieldUnchanged(m, err);
    RedactTextFieldsCommute(m, out, err);
    RedactTextFieldTwice(RedactTextField(m, out), err);
    RedactTextFieldTwice(RedactTextField(m, err), out);
  }

  lemma OneTextFieldUnchanged(m: map<string, Value>, key: string)
    ensures RedactTextField(m, key) == m <==> IsCleanText(m, key)
  {
    if key in m && m[key].Str? {
      RedactTextRemovesSensitiveWords(m[key].s);
      assert RedactTextField(m, key)[key] == Str(Redacted(m[key].s));
    }
  }

  /** An instance: a `null` payload is stored as an empty object. */
  lemma NullPayloadIsChanged(env: Envelope)
    requires env.payload == NullPayload
    ensures SanitizedEnvelope(env).payload == Object(map[]) != env.payload
  {
  }

  // ----- new records -----

  datatype RecordError = NotAResult | UndecodableCommandId

  datatype NewRecordResult = Accepted(record: Record) | Refused(error: RecordError)

  /** The correlation id, or else the payload's command_id field.  Decoding a payload that is
      not an object, or whose command_id is not a string, fails. */
  function CommandIdOf(env: Envelope): Option<string> {
    if env.correlationId != "" then Some(env.correlationId)
    else match env.payload
      case Undecodable(_) => None
      case NullPayload => Some("")
      case Object(m) =>
        if "command_id" !in m || m["command_id"].Null? then Some("")
        else if m["command_id"].Str? then Some(m["command_id"].s)
        else None
  }

  function NewRecord(env: Envelope, now: int): (r: NewRecordResult)
    ensures r.Accepted? ==>
      && IsCanonicalId(r.record.recordId)
      && r.record.createdAt == r.record.updatedAt == r.record.nextRetryAt == now
      && r.record.attempts == 0 && r.record.lastError == ""
  {
    if env.kind != Result then Refused(NotAResult)
    else
      var clean := SanitizedEnvelope(env);
      match CommandIdOf(clean)
      case None => Refused(UndecodableCommandId)
      case Some(commandId) =>
        SanitizeYieldsCanonicalId(commandId);
        Accepted(Record(SanitizeRecordId(commandId), commandId, now, now, 0, "", now, clean))
  }

  /** Which envelopes are refused, and which command the others belong to: the correlation id if there
      is one, otherwise the payload's command_id, which may be missing or null but not something else. */
  lemma NewRecordExactly(env: Envelope, now: int)
    ensures env.kind != Result ==> NewRecord(env, now) == Refused(NotAResult)
    ensures env.kind == Result && env.correlationId != "" ==> NewRecord(env, now).Accepted? && NewRecord(env, now).record.commandId == env.correlationId
    ensures env.kind == Result && env.correlationId == "" && env.payload.Undecodable? ==> NewRecord(env, now) == Refused(UndecodableCommandId)
    ensures env.kind == Result && env.correlationId == "" && env.payload.NullPayload? ==>
              NewRecord(env, now).Accepted? && NewRecord(env, now).record.commandId == ""
    ensures NewRecord(env, now).Accepted? ==>
              var r := NewRecord(env, now).record;
              r.recordId == SanitizeRecordId(r.commandId) && r.envelope == env.(payload := SanitizedPayload(env.payload))
  {
    SanitizeKeepsCommandId(env);
  }

  lemma CommandIdInPayload(env: Envelope, now: int)
    requires env.kind == Result && env.correlationId == "" && env.payload.Object?
    ensures var m := env.payload.fields;
            if "command_id" !in m || m["command_id"] == Null then
              NewRecord(env, now).Accepted? && NewRecord(env, now).record.commandId == ""
            else if m["command_id"].Str? then
              NewRecord(env, now).Accepted? && NewRecord(env, now).record.commandId == m["command_id"].s
            else NewRecord(env, now) == Refused(UndecodableCommandId)
  {
    SanitizeKeepsCommandId(env);
  }

  /** Clean-up never changes which command a result belongs to. */
  lemma SanitizeKeepsCommandId(env: Envelope)
    ensures CommandIdOf(SanitizedEnvelope(env)) == CommandIdOf(env)
  {
    if env.payload.Object? {
      NamedKeysArePublic();
      var k := "command_id";
      assert k[0] == 'c' && "stdout"[0] == 's' && "stderr"[0] == 's';
      CleanFieldsKeepOthers(env.payload.fields, k);
    }
  }

  lemma CleanFieldsKeepOthers(m: map<string, Value>, k: string)
    requires k != "stdout" && k != "stderr" && !IsSensitiveKey(k)
    ensures var clean := SanitizedPayload(Object(m)).fields;
            (k in clean <==> k in m) && (k in m ==> clean[k] == Redact(m[k]))
  {
  }
}
