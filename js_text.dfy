/**
 * JavaScript strings as the service sees them: sequences of UTF-16 code
 * units, so that `|s|` is the value of `s.length`, together with the
 * string methods the service calls (`includes`, `endsWith`).
 */
module JsText {

  /** One UTF-16 code unit. */
  newtype CodeUnit = x: int | 0 <= x < 0x1_0000

  type JsString = seq<CodeUnit>

  /** The code units of a literal written with characters of the Basic Multilingual Plane. */
  function Js(s: string): (r: JsString)
    requires forall i :: 0 <= i < |s| ==> s[i] as int < 0x1_0000
    ensures |r| == |s|
    ensures forall i :: 0 <= i < |s| ==> r[i] == s[i] as int as CodeUnit
  {
    seq(|s|, i requires 0 <= i < |s| => s[i] as int as CodeUnit)
  }

  const Dot: CodeUnit := 0x2E
  const Slash: CodeUnit := 0x2F
  const Space: CodeUnit := 0x20

  /** The needle `".."`. */
  const DotDot: JsString := [Dot, Dot]

  predicate IsAsciiDigit(c: CodeUnit) { 0x30 <= c <= 0x39 }
  predicate IsAsciiUpper(c: CodeUnit) { 0x41 <= c <= 0x5A }
  predicate IsAsciiLower(c: CodeUnit) { 0x61 <= c <= 0x7A }

  /** An ASCII letter or digit: what `[a-z0-9]` matches under the `i` flag. */
  predicate IsAsciiAlnum(c: CodeUnit)
  {
    IsAsciiDigit(c) || IsAsciiUpper(c) || IsAsciiLower(c)
  }

  /** `part` occurs in `s` starting at index `i`. */
  predicate OccursAt(s: JsString, part: JsString, i: int)
  {
    0 <= i <= |s| - |part| && s[i..i + |part|] == part
  }

  /**
   * `s.includes(part)`: the empty needle occurs in every string, and a
   * needle longer than the string occurs in none.
   */
  predicate Includes(s: JsString, part: JsString)
    ensures part == [] ==> Includes(s, part)
    ensures |part| > |s| ==> !Includes(s, part)
  {
    assert part == [] ==> OccursAt(s, part, 0);
    exists i :: 0 <= i <= |s| - |part| && OccursAt(s, part, i)
  }

  /** `s.endsWith(suffix)`; every string ends with the empty string. */
  predicate EndsWith(s: JsString, suffix: JsString)
    ensures suffix == [] ==> EndsWith(s, suffix)
  {
    |suffix| <= |s| && s[|s| - |suffix|..] == suffix
  }

  /** `endsWith` unit by unit: the last `|suffix|` units of `s` are those of `suffix`, in order. */
  lemma EndsWithByUnits(s: JsString, suffix: JsString)
    ensures EndsWith(s, suffix) <==>
              |suffix| <= |s| && forall i :: 0 <= i < |suffix| ==> s[|s| - |suffix| + i] == suffix[i]
  {
    if |suffix| <= |s| && forall i :: 0 <= i < |suffix| ==> s[|s| - |suffix| + i] == suffix[i] {
      assert s[|s| - |suffix|..] == suffix;
    }
  }

  /** A one-unit needle occurs exactly when that unit is an element of the string. */
  lemma IncludesUnit(s: JsString, c: CodeUnit)
    ensures Includes(s, [c]) <==> c in s
  {
    if c in s {
      var i :| 0 <= i < |s| && s[i] == c;
      assert OccursAt(s, [c], i);
    }
    if Includes(s, [c]) {
      var i :| 0 <= i <= |s| - 1 && OccursAt(s, [c], i);
      assert s[i] == s[i..i + 1][0] == c;
    }
  }

  /** A two-unit needle `cc` occurs exactly when two adjacent units both equal `c`. */
  lemma IncludesPair(s: JsString, c: CodeUnit)
    ensures Includes(s, [c, c]) <==> exists i :: 0 <= i < |s| - 1 && s[i] == c && s[i + 1] == c
  {
    if exists i :: 0 <= i < |s| - 1 && s[i] == c && s[i + 1] == c {
      var i :| 0 <= i < |s| - 1 && s[i] == c && s[i + 1] == c;
      assert s[i..i + 2] == [c, c];
      assert OccursAt(s, [c, c], i);
    }
    if Includes(s, [c, c]) {
      var i :| 0 <= i <= |s| - 2 && OccursAt(s, [c, c], i);
      assert s[i] == s[i..i + 2][0] && s[i + 1] == s[i..i + 2][1];
    }
  }

  /** An occurrence in `s` is still an occurrence once text is added on either side. */
  lemma IncludesInContext(a: JsString, s: JsString, b: JsString, part: JsString)
    requires Includes(s, part)
    ensures Includes(a + s + b, part)
  {
    var i :| 0 <= i <= |s| - |part| && OccursAt(s, part, i);
    var t := a + s + b;
    assert t[|a| + i..|a| + i + |part|] == s[i..i + |part|];
    assert OccursAt(t, part, |a| + i);
  }
}
