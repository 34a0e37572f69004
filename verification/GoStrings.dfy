/** Byte strings as the agent's standard library sees them.  A Dafny `char` stands for ONE BYTE
    of the original string, so lengths are byte lengths and text that is not valid UTF-8 is
    covered too. */
module GoStrings {

  predicate HasPrefix(s: string, prefix: string) {
    |prefix| <= |s| && s[..|prefix|] == prefix
  }

  predicate HasSuffix(s: string, suffix: string) {
    |suffix| <= |s| && s[|s| - |suffix|..] == suffix
  }

  predicate OccursAt(s: string, sub: string, i: int) {
    0 <= i <= |s| - |sub| && s[i..i + |sub|] == sub
  }

  predicate Contains(s: string, sub: string) {
    exists i | 0 <= i <= |s| :: OccursAt(s, sub, i)
  }

  predicate ContainsAnyOf(s: string, subs: seq<string>) {
    exists k | 0 <= k < |subs| :: Contains(s, subs[k])
  }

  /** UTF-8 bytes of the two non-ASCII runes whose lower case is an ASCII letter: U+212A and
      U+0130.  Their first byte can never continue another rune, so looking for the byte
      pattern agrees with decoding the text rune by rune. */
  const KELVIN_SIGN := "\U{E2}\U{84}\U{AA}"
  const DOTTED_I := "\U{C4}\U{B0}"

  function LowerByte(c: char): (r: char)
  {
    if 'A' <= c <= 'Z' then (c as int + 32) as char else c
  }

  /** The lower-case form of the first rune of s, and how many bytes that rune takes. */
  function FirstLower(s: string): (r: (char, nat))
    requires s != []
    ensures 1 <= r.1 <= |s|
    ensures r.1 == 1 ==> r.0 == LowerByte(s[0])
    ensures forall i :: 0 <= i < r.1 && r.1 > 1 ==> s[i] > '\U{7F}'
  {
    if HasPrefix(s, KELVIN_SIGN) then
      assert s[0] == s[..3][0] && s[1] == s[..3][1] && s[2] == s[..3][2];
      ('k', 3)
    else if HasPrefix(s, DOTTED_I) then
      assert s[0] == s[..2][0] && s[1] == s[..2][1];
      ('i', 2)
    else (LowerByte(s[0]), 1)
  }

  /** Lower-casing, exact for every ASCII character of the result.  Other runes are left alone:
      their lower case has no ASCII byte, and the agent only ever compares with ASCII words. */
  function ToLower(s: string): (r: string)
    ensures |r| <= |s|
    decreases |s|
  {
    if s == [] then []
    else var (c, n) := FirstLower(s); [c] + ToLower(s[n..])
  }

  /** U+212A and U+0130, byte by byte, have an ASCII lower case. */
  lemma NonAsciiLetters()
    ensures KELVIN_SIGN == [226 as char, 132 as char, 170 as char] && ToLower(KELVIN_SIGN) == "k"
    ensures DOTTED_I == [196 as char, 176 as char] && ToLower(DOTTED_I) == "i"
  {
    assert FirstLower(KELVIN_SIGN) == ('k', 3) && KELVIN_SIGN[3..] == [];
    assert !HasPrefix(DOTTED_I, KELVIN_SIGN) && FirstLower(DOTTED_I) == ('i', 2) && DOTTED_I[2..] == [];
  }

  /** Byte for byte: 65 to 90 move up by 32, everything else stays. */
  lemma LowerByteExactly(c: char)
    ensures LowerByte(c) as int - c as int == if 64 < c as int < 91 then 32 else 0
  {
  }

  /** On ASCII text lower-casing goes byte by byte. */
  lemma {:induction false} ToLowerAscii(s: string)
    requires forall i :: 0 <= i < |s| ==> s[i] <= '\U{7F}'
    ensures |ToLower(s)| == |s| && forall i :: 0 <= i < |s| ==> ToLower(s)[i] == LowerByte(s[i])
  {
    if s != [] {
      assert s[0] <= '\U{7F}';
      assert FirstLower(s).1 == 1;
      ToLowerAscii(s[1..]);
    }
  }

  /** Trailing newlines survive lower-casing. */
  lemma {:induction false} ToLowerKeepsLastNewline(s: string)
    requires s != [] && s[|s| - 1] == '\n'
    ensures var r := ToLower(s); r != [] && r[|r| - 1] == '\n'
    decreases |s|
  {
    var n := FirstLower(s).1;
    if n < |s| { ToLowerKeepsLastNewline(s[n..]); }
  }

  /** No rune reaches over a newline. */
  lemma FirstLowerBeforeNewline(a: string, b: string)
    requires a != [] && a[|a| - 1] == '\n'
    ensures FirstLower(a + b) == FirstLower(a)
  {
    var s := a + b;
    assert |a| >= 3 ==> s[..3] == a[..3];
    assert |a| >= 2 ==> s[..2] == a[..2];
    assert s[|a| - 1] == '\n';
  }

  lemma {:induction false} ToLowerAcrossNewline(a: string, b: string)
    requires a != [] && a[|a| - 1] == '\n'
    ensures ToLower(a + b) == ToLower(a) + ToLower(b)
    decreases |a|
  {
    FirstLowerBeforeNewline(a, b);
    var n := FirstLower(a).1;
    assert (a + b)[n..] == a[n..] + b;
    if n < |a| {
      ToLowerAcrossNewline(a[n..], b);
    } else {
      assert a[n..] + b == b;
    }
  }
}
