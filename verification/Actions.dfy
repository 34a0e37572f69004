/** internal/actions/validators.go, and the timeout rule that is split between
    internal/commands/handler.go and internal/runner/runner.go. */
module Actions {
  import opened GoStrings
  import opened Protocol

  datatype ArgType = StringArg | OtherArg(name: string)

  datatype ArgSpec = ArgSpec(name: string, kind: ArgType, required: bool, minLen: int, maxLen: int, pattern: string)

  datatype Spec = Spec(name: string, args: seq<ArgSpec>, timeout: int)

  type ValidatedArgs = map<string, string>

  /** Regular expression matching: nothing if the pattern does not compile. */
  type Matcher = (string, string) -> Option<bool>

  const DANGEROUS_CHARS := "\U{0}\r\n`"
  const DANGEROUS_TOKENS: seq<string> := ["..", "$(", ";", "&&", "||"]

  predicate IsDangerous(value: string) {
    || (exists i | 0 <= i < |value| :: value[i] in DANGEROUS_CHARS)
    || ContainsAnyOf(value, DANGEROUS_TOKENS)
  }

  method ContainsDangerousToken(value: string) returns (found: bool)
    ensures found == IsDangerous(value)
  {
    if exists i | 0 <= i < |value| :: value[i] in DANGEROUS_CHARS {
      return true;
    }
    var tokens := DANGEROUS_TOKENS;
    for k := 0 to |tokens|
      invariant forall j :: 0 <= j < k ==> !Contains(value, tokens[j])
    {
      if Contains(value, tokens[k]) {
        return true;
      }
    }
    return false;
  }

  predicate AcceptsString(arg: ArgSpec, value: string, matches: Matcher) {
    && arg.minLen <= |value| <= arg.maxLen
    && !IsDangerous(value)
    && (arg.pattern == "" || matches(arg.pattern, value) == Some(true))
  }

  predicate AcceptsArg(arg: ArgSpec, raw: map<string, Value>, matches: Matcher) {
    if arg.name !in raw then !arg.required
    else arg.kind.StringArg? && raw[arg.name].Str? && AcceptsString(arg, raw[arg.name].s, matches)
  }

  predicate Declares(args: seq<ArgSpec>, name: string) {
    exists i | 0 <= i < |args| :: args[i].name == name
  }

  /** The declarative meaning of an argument specification: nothing undeclared, nothing required
      missing, and every declaration of a present argument satisfied. */
  predicate Accepts(spec: Spec, raw: map<string, Value>, matches: Matcher) {
    && (forall name :: name in raw ==> Declares(spec.args, name))
    && (forall i :: 0 <= i < |spec.args| ==> AcceptsArg(spec.args[i], raw, matches))
  }

  /** Control characters and back quotes anywhere, or one of five token sequences. */
  lemma DangerousExactly(value: string)
    ensures IsDangerous(value) <==>
            || (exists i | 0 <= i < |value| :: value[i] as int == 0 || value[i] as int == 10 || value[i] as int == 13 || value[i] as int == 96)
            || Contains(value, "..") || Contains(value, "$(") || Contains(value, ";") || Contains(value, "&&") || Contains(value, "||")
  {
    DangerousCharExactly(value);
    var t := DANGEROUS_TOKENS;
    assert t[0] == ".." && t[1] == "$(" && t[2] == ";" && t[3] == "&&" && t[4] == "||";
    assert ContainsAnyOf(value, t) <==>
           Contains(value, t[0]) || Contains(value, t[1]) || Contains(value, t[2]) || Contains(value, t[3]) || Contains(value, t[4]);
  }

  lemma DangerousCharExactly(value: string)
    ensures forall i :: 0 <= i < |value| ==>
              (value[i] in DANGEROUS_CHARS <==>
               value[i] as int == 0 || value[i] as int == 10 || value[i] as int == 13 || value[i] as int == 96)
  {
    var d := DANGEROUS_CHARS;
    assert d[0] as int == 0 && d[1] as int == 13 && d[2] as int == 10 && d[3] as int == 96 && |d| == 4;
  }

  /** Acceptance spelled out: no undeclared name, and for every declaration either the argument is
      absent and optional, or it is a string of permitted length and content that fits the pattern. */
  lemma AcceptsExactly(spec: Spec, raw: map<string, Value>, matches: Matcher)
    ensures Accepts(spec, raw, matches) <==>
            && (forall name :: name in raw ==> exists i :: 0 <= i < |spec.args| && spec.args[i].name == name)
            && (forall i :: 0 <= i < |spec.args| ==>
                  var arg := spec.args[i];
                  if arg.name in raw then
                    && arg.kind == StringArg && raw[arg.name].Str?
                    && var v := raw[arg.name].s;
                       !(|v| < arg.minLen) && !(arg.maxLen < |v|) && !IsDangerous(v)
                       && (arg.pattern != "" ==> matches(arg.pattern, v).Some? && matches(arg.pattern, v).value)
                  else !arg.required)
  {
  }

  method ValidateArgs(spec: Spec, raw: map<string, Value>, matches: Matcher) returns (r: Option<ValidatedArgs>)
    ensures r.Some? <==> Accepts(spec, raw, matches)
    ensures r.Some? ==> r.value == ArgStrings(raw) && r.value.Keys == raw.Keys
  {
    var known := AllDeclared(spec.args, raw);
    if !known {
      return None;
    }
    r := ValidateEach(spec.args, raw, matches);
    if r.Some? {
      forall name | name in raw ensures name in r.value {
        var i :| 0 <= i < |spec.args| && spec.args[i].name == name;
      }
    }
  }

  method AllDeclared(args: seq<ArgSpec>, raw: map<string, Value>) returns (ok: bool)
    ensures ok <==> forall name :: name in raw ==> Declares(args, name)
  {
    var argSpecs: map<string, ArgSpec> := map[];
    for i := 0 to |args|
      invariant forall name :: name in argSpecs <==> Declares(args[..i], name)
    {
      DeclaresOneMore(args, i);
      argSpecs := argSpecs[args[i].name := args[i]];
    }
    assert args[..|args|] == args;
    var rest := raw.Keys;
    while rest != {}
      invariant rest <= raw.Keys
      invariant forall name :: name in raw && name !in rest ==> Declares(args, name)
      decreases |rest|
    {
      var name :| name in rest;
      if name !in argSpecs {
        return false;
      }
      rest := rest - {name};
    }
    return true;
  }

  method ValidateEach(args: seq<ArgSpec>, raw: map<string, Value>, matches: Matcher) returns (r: Option<ValidatedArgs>)
    ensures r.Some? <==> forall i :: 0 <= i < |args| ==> AcceptsArg(args[i], raw, matches)
    ensures r.Some? ==>
      && (forall name :: name in r.value ==> name in raw && raw[name] == Str(r.value[name]))
      && (forall i :: 0 <= i < |args| && args[i].name in raw ==> args[i].name in r.value)
  {
    var validated: ValidatedArgs := map[];
    for i := 0 to |args|
      invariant forall j :: 0 <= j < i ==> AcceptsArg(args[j], raw, matches)
      invariant forall name :: name in validated ==> name in raw && raw[name] == Str(validated[name])
      invariant forall j :: 0 <= j < i && args[j].name in raw ==> args[j].name in validated
    {
      var arg := args[i];
      if arg.name !in raw {
        if arg.required {
          return None;
        }
      } else if arg.kind.StringArg? {
        if !raw[arg.name].Str? {
          return None;
        }
        var s := raw[arg.name].s;
        var ok := ValidateStringArg(arg, s, matches);
        if !ok {
          return None;
        }
        validated := validated[arg.name := s];
      } else {
        return None;
      }
    }
    r := Some(validated);
  }

  method ValidateStringArg(arg: ArgSpec, value: string, matches: Matcher) returns (ok: bool)
    ensures ok == AcceptsString(arg, value, matches)
  {
    if |value| < arg.minLen || |value| > arg.maxLen {
      return false;
    }
    var dangerous := ContainsDangerousToken(value);
    if dangerous {
      return false;
    }
    if arg.pattern != "" {
      var m := matches(arg.pattern, value);
      if m.None? || !m.value {
        return false;
      }
    }
    return true;
  }

  lemma DeclaresOneMore(args: seq<ArgSpec>, i: nat)
    requires i < |args|
    ensures forall name :: Declares(args[..i + 1], name) <==> Declares(args[..i], name) || args[i].name == name
  {
  }

  /** The string arguments, as validation returns them. */
  function ArgStrings(raw: map<string, Value>): ValidatedArgs {
    map name | name in raw && raw[name].Str? :: raw[name].s
  }

  // ----- timeouts, with 64-bit durations -----

  /** The handler's half: the requested timeout in nanoseconds, after 64-bit wrap-around. */
  function ResolveTimeout(spec: Spec, timeoutSec: Option<int>): Option<int> {
    match timeoutSec
    case None => Some(spec.timeout)
    case Some(n) =>
      if n <= 0 then None
      else
        var requested := Wrap64(n * SECOND);
        if requested > spec.timeout then None else Some(requested)
  }

  /** The runner's half: fall back to the action's timeout, then to 30 s. */
  function EffectiveTimeout(spec: Spec, requested: int): int {
    if requested > 0 then requested
    else if spec.timeout > 0 then spec.timeout
    else 30 * SECOND
  }

  /** The first positive of the request, the action's timeout and half a minute. */
  lemma EffectiveTimeoutExactly(spec: Spec, requested: int)
    ensures requested > 0 ==> EffectiveTimeout(spec, requested) == requested
    ensures requested <= 0 < spec.timeout ==> EffectiveTimeout(spec, requested) == spec.timeout
    ensures requested <= 0 && spec.timeout <= 0 ==> EffectiveTimeout(spec, requested) == 30_000_000_000
  {
  }

  /** For an action with a timeout, whatever was requested and even if the multiplication wraps,
      an accepted command runs under a positive timeout no longer than the action's. */
  lemma TimeoutIsBounded(spec: Spec, timeoutSec: Option<int>)
    requires spec.timeout > 0 && ResolveTimeout(spec, timeoutSec).Some?
    ensures 0 < EffectiveTimeout(spec, ResolveTimeout(spec, timeoutSec).value) <= spec.timeout
  {
  }

  /** Without wrap-around the rule is the documented one, in both directions. */
  lemma TimeoutIsAsRequested(spec: Spec, n: int)
    requires n * SECOND <= MAX_INT64
    ensures ResolveTimeout(spec, Some(n)).Some? <==> 0 < n && n * SECOND <= spec.timeout
    ensures ResolveTimeout(spec, Some(n)).Some? ==> EffectiveTimeout(spec, ResolveTimeout(spec, Some(n)).value) == n * SECOND
  {
  }

  /** In general a positive request is treated by that rule exactly if the multiplication does not
      overflow, or overflows to something that is refused anyway. */
  lemma TimeoutRuleHoldsExactly(spec: Spec, n: int)
    requires n > 0 && spec.timeout <= MAX_INT64
    ensures (ResolveTimeout(spec, Some(n)).Some? <==> n * SECOND <= spec.timeout) <==>
            n * SECOND <= MAX_INT64 || Wrap64(n * SECOND) > spec.timeout
  {
  }

  /** With it, a request for more seconds than a duration can hold is accepted and runs under the
      action's own timeout instead of being refused. */
  lemma OverlongTimeoutIsAccepted(spec: Spec, n: int)
    requires 0 < spec.timeout <= MAX_INT64 < n * SECOND <= MAX_INT64 - MIN_INT64
    ensures ResolveTimeout(spec, Some(n)) == Some(n * SECOND - TWO64)
    ensures EffectiveTimeout(spec, n * SECOND - TWO64) == spec.timeout < n * SECOND
  {
  }
}
