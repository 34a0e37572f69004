/** internal/audit/redact.go: masking of sensitive keys in value trees and of sensitive lines
    in captured text. */
module Redaction {
  import opened GoStrings
  import opened Protocol

  const REDACTED := "***REDACTED***"

  // ----- value trees -----

  predicate IsSensitiveKey(key: string) {
    var k := ToLower(key);
    || k == "psk" || k == "key" || k == "device_secret"
    || Contains(k, "password") || Contains(k, "token") || Contains(k, "secret")
    || HasSuffix(k, "_key")
  }

  /** The sensitive keys: case does not matter, three names are sensitive in full, three words
      anywhere, and one ending. */
  lemma SensitiveKeyExactly(key: string)
    ensures var k := ToLower(key);
            IsSensitiveKey(key) <==>
            || k == "psk" || k == "key" || k == "device_secret" || EndsInKey(k)
            || Contains(k, "password") || Contains(k, "token") || Contains(k, "secret")
  {
  }

  predicate EndsInKey(k: string) { |k| >= 4 && k[|k| - 4..] == "_key" }

  function Redact(v: Value): (r: Value) {
    match v
    case Obj(m) => Obj(map k | k in m :: if IsSensitiveKey(k) then Str(REDACTED) else Redact(m[k]))
    case List(xs) => List(seq(|xs|, i requires 0 <= i < |xs| => Redact(xs[i])))
    case _ => v
  }

  /** The recursive copy as it is written: fresh containers filled entry by entry. */
  method RedactValue(v: Value) returns (r: Value)
    ensures r == Redact(v)
    decreases v, 1
  {
    match v {
      case Obj(_) => r := RedactFields(v);
      case List(_) => r := RedactItems(v);
      case _ => r := v;
    }
  }

  method RedactFields(v: Value) returns (r: Value)
    requires v.Obj?
    ensures r == Redact(v)
    decreases v, 0
  {
    var m := v.fields;
    var out: map<string, Value> := map[];
    var rest := m.Keys;
    while rest != {}
      invariant rest <= m.Keys
      invariant out.Keys == m.Keys - rest
      invariant forall k :: k in out ==> out[k] == if IsSensitiveKey(k) then Str(REDACTED) else Redact(m[k])
      decreases |rest|
    {
      var k :| k in rest;
      if IsSensitiveKey(k) {
        out := out[k := Str(REDACTED)];
      } else {
        var item := RedactValue(m[k]);
        out := out[k := item];
      }
      rest := rest - {k};
    }
    assert out == Redact(v).fields;
    r := Obj(out);
  }

  method RedactItems(v: Value) returns (r: Value)
    requires v.List?
    ensures r == Redact(v)
    decreases v, 0
  {
    var out: seq<Value> := [];
    for i := 0 to |v.items|
      invariant |out| == i
      invariant forall j :: 0 <= j < i ==> out[j] == Redact(v.items[j])
    {
      var item := RedactValue(v.items[i]);
      out := out + [item];
    }
    assert out == Redact(v).items;
    r := List(out);
  }

  /** Every sensitive key, at any depth, already holds the mask. */
  predicate Masked(v: Value) {
    match v
    case Obj(m) => forall k :: k in m ==> if IsSensitiveKey(k) then m[k] == Str(REDACTED) else Masked(m[k])
    case List(xs) => forall i :: 0 <= i < |xs| ==> Masked(xs[i])
    case _ => true
  }

  predicate HasNoSensitiveKey(v: Value) {
    match v
    case Obj(m) => forall k :: k in m ==> !IsSensitiveKey(k) && HasNoSensitiveKey(m[k])
    case List(xs) => forall i :: 0 <= i < |xs| ==> HasNoSensitiveKey(xs[i])
    case _ => true
  }

  /** Redaction masks everything, and the trees it leaves alone are exactly the masked ones. */
  lemma {:induction false} RedactFixedPoints(v: Value)
    ensures Masked(Redact(v))
    ensures Redact(v) == v <==> Masked(v)
  {
    match v
    case Obj(m) =>
      forall k | k in m ensures Masked(Redact(m[k])) && (Redact(m[k]) == m[k] <==> Masked(m[k])) {
        RedactFixedPoints(m[k]);
      }
      var out := Redact(v).fields;
      if Masked(v) {
        assert out == m;
      } else {
        var k :| k in m && !(if IsSensitiveKey(k) then m[k] == Str(REDACTED) else Masked(m[k]));
        assert out[k] != m[k];
      }
    case List(xs) =>
      forall i | 0 <= i < |xs| ensures Masked(Redact(xs[i])) && (Redact(xs[i]) == xs[i] <==> Masked(xs[i])) {
        RedactFixedPoints(xs[i]);
      }
      var out := Redact(v).items;
      if Masked(v) {
        assert out == xs;
      } else {
        var i :| 0 <= i < |xs| && !Masked(xs[i]);
        assert out[i] != xs[i];
      }
    case _ =>
  }

  lemma RedactIdempotent(v: Value)
    ensures Redact(Redact(v)) == Redact(v)
  {
    RedactFixedPoints(v);
    RedactFixedPoints(Redact(v));
  }

  lemma {:induction false} RedactIdentity(v: Value)
    requires HasNoSensitiveKey(v)
    ensures Redact(v) == v
  {
    match v
    case Obj(m) =>
      forall k | k in m ensures Redact(m[k]) == m[k] { RedactIdentity(m[k]); }
      assert Redact(v).fields == m;
    case List(xs) =>
      forall i | 0 <= i < |xs| ensures Redact(xs[i]) == xs[i] { RedactIdentity(xs[i]); }
      assert Redact(v).items == xs;
    case _ =>
  }

  /** One step into a tree: a map key or a list index. */
  datatype Step = Key(name: string) | Index(i: nat)

  function Lookup(v: Value, path: seq<Step>): Option<Value> {
    if path == [] then Some(v)
    else match path[0]
      case Key(k) => if v.Obj? && k in v.fields then Lookup(v.fields[k], path[1..]) else None
      case Index(i) => if v.List? && i < |v.items| then Lookup(v.items[i], path[1..]) else None
  }

  predicate SensitiveStep(s: Step) { s.Key? && IsSensitiveKey(s.name) }

  predicate PathIsPublic(path: seq<Step>) { forall i :: 0 <= i < |path| ==> !SensitiveStep(path[i]) }

  /** Whatever is reachable without passing a sensitive key is still there, itself redacted:
      redaction neither adds nor drops anything outside the masked positions. */
  lemma {:induction false} RedactKeepsPublicPaths(v: Value, path: seq<Step>)
    requires PathIsPublic(path)
    ensures Lookup(Redact(v), path) ==
            match Lookup(v, path) { case Some(w) => Some(Redact(w)) case None => None }
  {
    if path != [] {
      assert !SensitiveStep(path[0]);
      match path[0]
      case Key(k) => if v.Obj? && k in v.fields { RedactKeepsPublicPaths(v.fields[k], path[1..]); }
      case Index(i) => if v.List? && i < |v.items| { RedactKeepsPublicPaths(v.items[i], path[1..]); }
    }
  }

  /** The first sensitive key on a path holds the mask, and nothing below it is reachable. */
  lemma {:induction false} RedactMasksSensitivePaths(v: Value, path: seq<Step>, rest: seq<Step>)
    requires path != [] && PathIsPublic(path[..|path| - 1]) && SensitiveStep(path[|path| - 1])
    ensures Lookup(Redact(v), path) == if Lookup(v, path).Some? then Some(Str(REDACTED)) else None
    ensures rest != [] ==> Lookup(Redact(v), path + rest) == None
  {
    var tail := path[1..];
    assert (path + rest)[1..] == tail + rest;
    if |path| == 1 {
      assert tail + rest == rest;
      assert rest != [] ==> Lookup(Str(REDACTED), rest) == None;
    } else {
      assert !SensitiveStep(path[..|path| - 1][0]);
      assert tail[..|tail| - 1] == path[..|path| - 1][1..];
      assert forall i {:trigger tail[..|tail| - 1][i]} :: 0 <= i < |tail| - 1 ==> !SensitiveStep(path[..|path| - 1][i + 1]);
      match path[0]
      case Key(k) => if v.Obj? && k in v.fields { RedactMasksSensitivePaths(v.fields[k], tail, rest); }
      case Index(i) => if v.List? && i < |v.items| { RedactMasksSensitivePaths(v.items[i], tail, rest); }
    }
  }

  // ----- captured text -----

  const SENSITIVE_WORDS: seq<string> :=
    ["psk", "password", "passwd", "token", "secret", "key", "device_secret", "signature"]

  predicate ContainsSensitiveWord(text: string) {
    ContainsAnyOf(ToLower(text), SENSITIVE_WORDS)
  }

  /** The sensitive words. */
  lemma SensitiveWordsExactly(text: string)
    ensures var t := ToLower(text);
            ContainsSensitiveWord(text) <==>
            Contains(t, "psk") || Contains(t, "password") || Contains(t, "passwd") || Contains(t, "token")
            || Contains(t, "secret") || Contains(t, "key") || Contains(t, "device_secret") || Contains(t, "signature")
  {
    var w, t := SENSITIVE_WORDS, ToLower(text);
    assert w[0] == "psk" && w[1] == "password" && w[2] == "passwd" && w[3] == "token";
    assert w[4] == "secret" && w[5] == "key" && w[6] == "device_secret" && w[7] == "signature";
    assert ContainsAnyOf(t, w) <==> Contains(t, w[0]) || Contains(t, w[1]) || Contains(t, w[2]) || Contains(t, w[3])
                                    || Contains(t, w[4]) || Contains(t, w[5]) || Contains(t, w[6]) || Contains(t, w[7]);
  }

  function FirstNewline(s: string): (i: nat)
    ensures i <= |s| && '\n' !in s[..i] && (i < |s| ==> s[i] == '\n')
  {
    if s == [] || s[0] == '\n' then 0
    else
      var j := FirstNewline(s[1..]);
      assert s[..j + 1] == [s[0]] + s[1..][..j];
      j + 1
  }

  /** The pieces of s, each newline staying at the end of its piece. */
  function SplitLines(s: string): (lines: seq<string>)
    ensures AreLines(lines) && Join(lines) == s
    decreases |s|
  {
    var i := FirstNewline(s);
    if i == |s| then [s]
    else
      var rest := SplitLines(s[i + 1..]);
      assert ([s[..i + 1]] + rest)[1..] == rest;
      assert s[..i + 1][..i] == s[..i];
      assert s == s[..i + 1] + s[i + 1..];
      [s[..i + 1]] + rest
  }

  function Join(lines: seq<string>): string {
    if lines == [] then "" else lines[0] + Join(lines[1..])
  }

  predicate IsFullLine(line: string) {
    line != [] && line[|line| - 1] == '\n' && '\n' !in line[..|line| - 1]
  }

  /** Full lines followed by one unterminated line, which may be empty. */
  predicate AreLines(lines: seq<string>) {
    && lines != []
    && (if |lines| == 1 then '\n' !in lines[0] else IsFullLine(lines[0]) && AreLines(lines[1..]))
  }

  function RedactLine(line: string): string {
    if ContainsSensitiveWord(line) then
      if HasSuffix(line, "\n") then REDACTED + "\n" else REDACTED
    else line
  }

  /** A sensitive line becomes the mask and keeps its line break; any other stays. */
  lemma RedactLineExactly(text: string)
    requires '\n' !in text
    ensures RedactLine(text) == if ContainsSensitiveWord(text) then "***REDACTED***" else text
    ensures RedactLine(text + "\n") == if ContainsSensitiveWord(text + "\n") then "***REDACTED***" + "\n" else text + "\n"
  {
    assert (text + "\n")[|text|..] == "\n";
    if text != "" {
      assert text[|text| - 1..][0] == text[|text| - 1] && text[|text| - 1] in text;
    }
  }

  function RedactLines(lines: seq<string>): (r: seq<string>)
    ensures |r| == |lines|
    ensures forall i :: 0 <= i < |lines| ==> r[i] == RedactLine(lines[i])
  {
    seq(|lines|, i requires 0 <= i < |lines| => RedactLine(lines[i]))
  }

  function Redacted(s: string): string {
    Join(RedactLines(SplitLines(s)))
  }

  /** The loop that overwrites the slice of lines in place. */
  method RedactText(s: string) returns (r: string)
    ensures r == Redacted(s)
  {
    if s == "" {
      MarkIsPublic();
      assert SplitLines(s) == [""];
      return "";
    }
    var lines := SplitLines(s);
    ghost var before := lines;
    for i := 0 to |lines|
      invariant |lines| == |before|
      invariant forall j :: 0 <= j < i ==> lines[j] == RedactLine(before[j])
      invariant forall j :: i <= j < |lines| ==> lines[j] == before[j]
    {
      if ContainsSensitiveWord(lines[i]) {
        if HasSuffix(lines[i], "\n") {
          lines := lines[i := REDACTED + "\n"];
        } else {
          lines := lines[i := REDACTED];
        }
      }
    }
    assert lines == RedactLines(before);
    r := Join(lines);
  }

  // -- the mask itself is not sensitive: every word has a letter the mask lacks --

  const MASK_LETTERS := "*REDACT\n"
  const MASK_LOWER := "*redact\n"

  lemma {:induction false} LowerOfMaskLetters(s: string)
    requires forall i :: 0 <= i < |s| ==> s[i] in MASK_LETTERS
    ensures forall i :: 0 <= i < |ToLower(s)| ==> ToLower(s)[i] in MASK_LOWER
  {
    if s != [] {
      assert s[0] in MASK_LETTERS;
      assert forall i :: 0 <= i < |s[1..]| ==> s[1..][i] == s[i + 1];
      LowerOfMaskLetters(s[1..]);
      assert LowerByte(s[0]) in MASK_LOWER;
    }
  }

  lemma NoWordOverMaskLetters(lower: string, k: nat)
    requires forall i :: 0 <= i < |lower| ==> lower[i] in MASK_LOWER
    requires k < |SENSITIVE_WORDS|
    ensures !Contains(lower, SENSITIVE_WORDS[k])
  {
    var w := SENSITIVE_WORDS[k];
    var alien := [0, 0, 0, 1, 0, 0, 2, 0][k];
    assert w[alien] !in MASK_LOWER;
    forall i | 0 <= i <= |lower| ensures !OccursAt(lower, w, i) {
      assert i + |w| <= |lower| ==> lower[i..i + |w|][alien] == lower[i + alien];
    }
  }

  lemma MarkIsPublic()
    ensures !ContainsSensitiveWord("")
    ensures !ContainsSensitiveWord(REDACTED)
    ensures !ContainsSensitiveWord(REDACTED + "\n")
  {
    LowerOfMaskLetters("");
    LowerOfMaskLetters(REDACTED);
    LowerOfMaskLetters(REDACTED + "\n");
    forall k: nat | k < |SENSITIVE_WORDS|
      ensures !Contains(ToLower(""), SENSITIVE_WORDS[k])
      ensures !Contains(ToLower(REDACTED), SENSITIVE_WORDS[k])
      ensures !Contains(ToLower(REDACTED + "\n"), SENSITIVE_WORDS[k])
    {
      NoWordOverMaskLetters(ToLower(""), k);
      NoWordOverMaskLetters(ToLower(REDACTED), k);
      NoWordOverMaskLetters(ToLower(REDACTED + "\n"), k);
    }
  }

  lemma RedactLineIsPublic(line: string)
    ensures !ContainsSensitiveWord(RedactLine(line))
    ensures RedactLine(line) == line <==> !ContainsSensitiveWord(line)
  {
    MarkIsPublic();
  }

  // -- line structure --

  /** Splitting undoes joining, for anything that is a list of lines. */
  lemma {:induction false} SplitJoin(lines: seq<string>)
    requires AreLines(lines)
    ensures SplitLines(Join(lines)) == lines
  {
    var s := Join(lines);
    if |lines| == 1 {
      assert s == lines[0];
      assert FirstNewline(s) == |s|;
    } else {
      var n := |lines[0]|;
      assert s == lines[0] + Join(lines[1..]);
      assert s[..n] == lines[0] && s[n - 1] == '\n' && '\n' !in s[..n][..n - 1];
      var i := FirstNewline(s);
      assert forall j :: 0 <= j < n - 1 ==> s[j] == s[..n][..n - 1][j];
      assert forall j :: 0 <= j < i ==> s[j] == s[..i][j];
      assert s[n..] == Join(lines[1..]);
      SplitJoin(lines[1..]);
    }
  }

  lemma {:induction false} RedactedLinesAreLines(lines: seq<string>)
    requires AreLines(lines)
    ensures AreLines(RedactLines(lines))
  {
    if |lines| > 1 {
      assert RedactLines(lines)[1..] == RedactLines(lines[1..]);
      RedactedLinesAreLines(lines[1..]);
    }
  }

  /** Line k of the redacted text is line k of the text, redacted: same number of lines, same
      line breaks. */
  lemma RedactTextLineByLine(s: string)
    ensures SplitLines(Redacted(s)) == RedactLines(SplitLines(s))
  {
    RedactedLinesAreLines(SplitLines(s));
    SplitJoin(RedactLines(SplitLines(s)));
  }

  lemma RedactTextIdempotent(s: string)
    ensures Redacted(Redacted(s)) == Redacted(s)
  {
    RedactTextLineByLine(s);
    var lines := SplitLines(s);
    forall i | 0 <= i < |lines| ensures RedactLine(RedactLine(lines[i])) == RedactLine(lines[i]) {
      RedactLineIsPublic(lines[i]);
      RedactLineIsPublic(RedactLine(lines[i]));
    }
    assert RedactLines(RedactLines(lines)) == RedactLines(lines);
  }

  // -- what the redacted text no longer contains --

  lemma OccurrenceStaysOnOneLine(x: string, y: string, w: string)
    requires x != [] && x[|x| - 1] == '\n' && '\n' !in w && Contains(x + y, w)
    ensures Contains(x, w) || Contains(y, w)
  {
    var i :| 0 <= i <= |x + y| && OccursAt(x + y, w, i);
    assert forall j :: 0 <= j < |w| ==> w[j] == (x + y)[i..i + |w|][j] == (x + y)[i + j];
    assert (x + y)[|x| - 1] == '\n' && '\n' !in (x + y)[i..i + |w|];
    if i + |w| <= |x| {
      assert x[i..i + |w|] == (x + y)[i..i + |w|];
      assert OccursAt(x, w, i);
    } else {
      assert y[i - |x|..i - |x| + |w|] == (x + y)[i..i + |w|];
      assert OccursAt(y, w, i - |x|);
    }
  }

  /** A word without line breaks occurs in a text exactly when it occurs in one of its lines. */
  lemma {:induction false} WordsStayOnLines(lines: seq<string>, w: string)
    requires AreLines(lines) && '\n' !in w
    ensures Contains(ToLower(Join(lines)), w) <==> exists i :: 0 <= i < |lines| && Contains(ToLower(lines[i]), w)
  {
    if |lines| == 1 {
      assert Join(lines) == lines[0];
    } else {
      var x, y := ToLower(lines[0]), ToLower(Join(lines[1..]));
      WordsStayOnLines(lines[1..], w);
      ToLowerAcrossNewline(lines[0], Join(lines[1..]));
      ToLowerKeepsLastNewline(lines[0]);
      if Contains(x + y, w) { OccurrenceStaysOnOneLine(x, y, w); }
      ContainsConcat(x, y, w);
      if Contains(y, w) {
        var i :| 0 <= i < |lines[1..]| && Contains(ToLower(lines[1..][i]), w);
        assert lines[i + 1] == lines[1..][i];
      }
      assert forall i :: 0 < i < |lines| ==> lines[i] == lines[1..][i - 1];
    }
  }

  lemma ContainsConcat(x: string, y: string, w: string)
    ensures Contains(x, w) || Contains(y, w) ==> Contains(x + y, w)
  {
    if Contains(x, w) {
      var j :| 0 <= j <= |x| && OccursAt(x, w, j);
      assert (x + y)[j..j + |w|] == x[j..j + |w|];
      assert OccursAt(x + y, w, j);
    }
    if Contains(y, w) {
      var j :| 0 <= j <= |y| && OccursAt(y, w, j);
      assert (x + y)[|x| + j..|x| + j + |w|] == y[j..j + |w|];
      assert OccursAt(x + y, w, |x| + j);
    }
  }

  lemma AnyWordStaysOnLine(lines: seq<string>, words: seq<string>)
    requires AreLines(lines) && forall k :: 0 <= k < |words| ==> '\n' !in words[k]
    ensures ContainsAnyOf(ToLower(Join(lines)), words) <==>
            exists i :: 0 <= i < |lines| && ContainsAnyOf(ToLower(lines[i]), words)
  {
    if ContainsAnyOf(ToLower(Join(lines)), words) {
      var k :| 0 <= k < |words| && Contains(ToLower(Join(lines)), words[k]);
      WordsStayOnLines(lines, words[k]);
    }
    if i :| 0 <= i < |lines| && ContainsAnyOf(ToLower(lines[i]), words) {
      var k :| 0 <= k < |words| && Contains(ToLower(lines[i]), words[k]);
      WordsStayOnLines(lines, words[k]);
    }
  }

  lemma SensitiveTextHasSensitiveLine(lines: seq<string>)
    requires AreLines(lines)
    ensures ContainsSensitiveWord(Join(lines)) <==>
            exists i :: 0 <= i < |lines| && ContainsSensitiveWord(lines[i])
  {
    WordsHaveNoNewline();
    var words := SENSITIVE_WORDS;
    AnyWordStaysOnLine(lines, words);
    if i :| 0 <= i < |lines| && ContainsSensitiveWord(lines[i]) {
      assert ContainsAnyOf(ToLower(lines[i]), words);
    }
  }

  lemma WordsHaveNoNewline()
    ensures forall k :: 0 <= k < |SENSITIVE_WORDS| ==> '\n' !in SENSITIVE_WORDS[k]
  {
  }

  lemma RedactedLinesArePublic(lines: seq<string>)
    requires AreLines(lines)
    ensures !ContainsSensitiveWord(Join(RedactLines(lines)))
  {
    RedactedLinesAreLines(lines);
    SensitiveTextHasSensitiveLine(RedactLines(lines));
    forall i | 0 <= i < |lines| ensures !ContainsSensitiveWord(RedactLines(lines)[i]) {
      RedactLineIsPublic(lines[i]);
    }
  }

  /** No sensitive word is left anywhere in the output, and text is changed exactly when it
      contains one. */
  lemma RedactTextRemovesSensitiveWords(s: string)
    ensures !ContainsSensitiveWord(Redacted(s))
    ensures Redacted(s) == s <==> !ContainsSensitiveWord(s)
  {
    var lines := SplitLines(s);
    RedactedLinesArePublic(lines);
    if !ContainsSensitiveWord(s) {
      SensitiveTextHasSensitiveLine(lines);
      assert RedactLines(lines) == lines;
    }
  }

  // -- growth --

  /** A sensitive line has at least three bytes before its line break. */
  lemma SensitiveLineIsLong(line: string)
    requires ContainsSensitiveWord(line)
    ensures |line| >= if HasSuffix(line, "\n") then 4 else 3
  {
    var lower := ToLower(line);
    var k :| 0 <= k < |SENSITIVE_WORDS| && Contains(lower, SENSITIVE_WORDS[k]);
    var w := SENSITIVE_WORDS[k];
    var i :| 0 <= i <= |lower| && OccursAt(lower, w, i);
    assert |w| >= 3 && '\n' !in w;
    if HasSuffix(line, "\n") {
      assert line[|line| - 1] == line[|line| - 1..][0] == '\n';
      ToLowerKeepsLastNewline(line);
      assert w[|w| - 1] == lower[i..i + |w|][|w| - 1] == lower[i + |w| - 1];
    }
  }

  lemma {:induction false} RedactedLinesGrowth(lines: seq<string>)
    ensures 3 * |Join(RedactLines(lines))| <= 14 * |Join(lines)|
  {
    if lines != [] {
      assert RedactLines(lines)[1..] == RedactLines(lines[1..]);
      RedactedLinesGrowth(lines[1..]);
      if ContainsSensitiveWord(lines[0]) { SensitiveLineIsLong(lines[0]); }
    }
  }

  /** Redaction can lengthen text, but by at most the factor 14/3. */
  lemma RedactTextGrowth(s: string)
    ensures 3 * |Redacted(s)| <= 14 * |s|
  {
    RedactedLinesGrowth(SplitLines(s));
  }
}
