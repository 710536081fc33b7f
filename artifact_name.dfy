/**
 * The name under which an audio artifact is stored and looked up:
 * `title.replace(/[^a-z0-9]/gi, '_').toLowerCase() + '.mp3'`.
 * The character class is ASCII-only and the expression has no `u` flag, so
 * case-insensitive matching never folds a non-ASCII unit into the class:
 * exactly the ASCII letters and digits survive, and every other code unit,
 * surrogate halves included, becomes `_`.
 */
module ArtifactName {
  import opened JsText

  const Underscore: CodeUnit := 0x5F

  /** The suffix `".mp3"`. */
  const Mp3Suffix: JsString := Js(".mp3")

  /** The units a stored name is made of before its suffix: `[a-z0-9_]`. */
  predicate IsStemUnit(c: CodeUnit)
  {
    IsAsciiLower(c) || IsAsciiDigit(c) || c == Underscore
  }

  function LowerUnit(c: CodeUnit): CodeUnit
  {
    if IsAsciiUpper(c) then c + 0x20 else c
  }

  /** What one code unit of the title becomes in the file name. */
  function NameUnit(c: CodeUnit): CodeUnit
  {
    if IsAsciiAlnum(c) then LowerUnit(c) else Underscore
  }

  /** `s.replace(/[^a-z0-9]/gi, '_')`; its result is pure ASCII. */
  function ReplaceNonAlnum(s: JsString): (r: JsString)
    ensures |r| == |s|
    ensures forall i :: 0 <= i < |r| ==> r[i] < 0x80
  {
    seq(|s|, i requires 0 <= i < |s| => if IsAsciiAlnum(s[i]) then s[i] else Underscore)
  }

  /**
   * `s.toLowerCase()`, with the ASCII table only: the service applies it to
   * the output of ReplaceNonAlnum, which is ASCII.
   */
  function ToLowerCase(s: JsString): (r: JsString)
    requires forall i :: 0 <= i < |s| ==> s[i] < 0x80
    ensures |r| == |s|
    ensures forall i :: 0 <= i < |s| ==> !IsAsciiUpper(r[i])
    ensures forall i :: 0 <= i < |s| && IsAsciiUpper(s[i]) ==> IsAsciiLower(r[i]) && r[i] == s[i] + 0x20
    ensures forall i :: 0 <= i < |s| && !IsAsciiUpper(s[i]) ==> r[i] == s[i]
  {
    seq(|s|, i requires 0 <= i < |s| => LowerUnit(s[i]))
  }

  /** The file name without its suffix: what each title unit becomes, in order. */
  function Stem(title: JsString): (r: JsString)
    ensures |r| == |title|
    ensures forall i :: 0 <= i < |title| ==> r[i] == NameUnit(title[i])
  {
    ToLowerCase(ReplaceNonAlnum(title))
  }

  /**
   * The stored name: one unit of `[a-z0-9_]` per code unit of the title, each
   * the lower-cased letter or digit or else `_`, followed by `.mp3`.
   */
  function FileName(title: JsString): (name: JsString)
    ensures |name| == |title| + 4
    ensures EndsWith(name, Mp3Suffix)
    ensures forall i :: 0 <= i < |title| ==> name[i] == NameUnit(title[i]) && IsStemUnit(name[i])
  {
    Stem(title) + Mp3Suffix
  }

  /**
   * Two titles share a file name exactly when they have the same length and
   * agree unit by unit once case and non-alphanumerics are erased.
   */
  lemma SameFileNameIff(t1: JsString, t2: JsString)
    ensures FileName(t1) == FileName(t2) <==>
              |t1| == |t2| && forall i :: 0 <= i < |t1| ==> NameUnit(t1[i]) == NameUnit(t2[i])
  {
  }

  /** Distinct titles can collide: `A!` and `a?` are both stored as `a_.mp3`. */
  lemma FileNameNotInjective()
    ensures Js("A!") != Js("a?")
    ensures FileName(Js("A!")) == FileName(Js("a?")) == Js("a_.mp3")
  {
    assert Js("A!") == [0x41, 0x21];
    assert Js("a?") == [0x61, 0x3F];
    assert Js("a_.mp3") == [0x61, Underscore] + Mp3Suffix;
    assert Stem([0x41, 0x21]) == [0x61, Underscore] == Stem([0x61, 0x3F]);
  }

  /** Deriving a stem from a stem changes nothing. */
  lemma StemIdempotent(title: JsString)
    ensures Stem(Stem(title)) == Stem(title)
  {
  }

  /** A stored name never contains `..` or `/`, so it always names an entry of the working directory itself. */
  lemma FileNameHasNoTraversal(title: JsString)
    ensures !Includes(FileName(title), DotDot)
    ensures !Includes(FileName(title), [Slash])
  {
    var n := FileName(title);
    IncludesPair(n, Dot);
    IncludesUnit(n, Slash);
    var k := |title|;
    assert n[k..] == Mp3Suffix;
    forall i | 0 <= i < |n|
      ensures n[i] != Slash
      ensures n[i] == Dot ==> i == k
    {
      if i >= k {
        assert n[i] == Mp3Suffix[i - k];
      }
    }
  }

  /** Derivation works code unit by code unit, so it distributes over concatenation. */
  lemma StemOfConcat(a: JsString, b: JsString)
    ensures Stem(a + b) == Stem(a) + Stem(b)
  {
  }
}
