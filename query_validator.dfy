/**
 * The checks the `/:query` route applies to its path parameter before any
 * search is made. Three rules, tried in order; the first that fails decides
 * the reason of the 400 answer, and a query that passes all three is handed
 * on unchanged.
 */
module QueryValidator {
  import opened JsText

  /** Longest query accepted, in code units. */
  const MaxQueryLength := 100

  const QueryTooLong := "Consulta muito longa"
  const InvalidQuery := "Consulta inválida"
  const InvalidCharacters := "Caracteres inválidos na consulta"


  /** The members of the character class `[<>{}[\]()"'`!@#$%^&*+=]`. */
  const Denylist: JsString := Js("<>{}[]()\"'`!@#$%^&*+=")

  /**
   * The 21 code units of the class, by number: `!` to `+`, `<` to `>`, `@`,
   * `[`, `]`, `^`, the backquote, `{` and `}`.
   */
  predicate IsDeniedUnit(c: CodeUnit)
  {
    0x21 <= c <= 0x2B || 0x3C <= c <= 0x3E || c == 0x40 || c == 0x5B || c == 0x5D ||
    c == 0x5E || c == 0x60 || c == 0x7B || c == 0x7D
  }

  /** The code units of the class literal, in the order written. */
  lemma DenylistSpelled()
    ensures Denylist == [0x3C, 0x3E, 0x7B, 0x7D, 0x5B, 0x5D, 0x28, 0x29, 0x22, 0x27, 0x60,
                         0x21, 0x40, 0x23, 0x24, 0x25, 0x5E, 0x26, 0x2A, 0x2B, 0x3D]
  {
  }

  /** The class literal holds exactly the denied units, all ASCII punctuation. */
  lemma DenylistIsDeniedUnits()
    ensures forall c :: c in Denylist <==> IsDeniedUnit(c)
    ensures forall c :: IsDeniedUnit(c) ==> c < 0x80 && !IsAsciiAlnum(c) && c != Space
  {
    DenylistSpelled();
  }

  /**
   * The regular-expression test: some code unit of `q` is one of the 21
   * units of the class; the test is false on the empty query.
   */
  predicate HasDeniedUnit(q: JsString)
    ensures HasDeniedUnit(q) <==> exists i :: 0 <= i < |q| && IsDeniedUnit(q[i])
    ensures HasDeniedUnit(q) ==> |q| > 0
  {
    DenylistIsDeniedUnits();
    exists i :: 0 <= i < |q| && q[i] in Denylist
  }

  datatype Verdict = Accepted(query: JsString) | Rejected(reason: string)

  function Validate(query: JsString): (v: Verdict)
    ensures v.Accepted? ==> v.query == query
    ensures v.Rejected? ==> v.reason in {QueryTooLong, InvalidQuery, InvalidCharacters}
  {
    if |query| > MaxQueryLength then Rejected(QueryTooLong)
    else if Includes(query, DotDot) || Includes(query, [Slash]) then Rejected(InvalidQuery)
    else if HasDeniedUnit(query) then Rejected(InvalidCharacters)
    else Accepted(query)
  }

  /** Two dots stand next to each other somewhere in `q`. */
  predicate AdjacentDots(q: JsString)
  {
    exists i :: 0 <= i < |q| - 1 && q[i] == Dot && q[i + 1] == Dot
  }

  /**
   * The three rules restated unit by unit, without `includes`: each reason is
   * given exactly when its rule is the first one that fails, and the query
   * passes exactly when no rule fails.
   */
  lemma ValidateByCodeUnits(q: JsString)
    ensures Validate(q) == Rejected(QueryTooLong) <==> |q| > MaxQueryLength
    ensures Validate(q) == Rejected(InvalidQuery) <==>
              |q| <= MaxQueryLength && (AdjacentDots(q) || Slash in q)
    ensures Validate(q) == Rejected(InvalidCharacters) <==>
              |q| <= MaxQueryLength && !AdjacentDots(q) && Slash !in q &&
              exists i :: 0 <= i < |q| && q[i] in Denylist
    ensures Validate(q) == Accepted(q) <==>
              |q| <= MaxQueryLength && !AdjacentDots(q) &&
              forall i :: 0 <= i < |q| ==> q[i] != Slash && q[i] !in Denylist
  {
    IncludesPair(q, Dot);
    IncludesUnit(q, Slash);
  }

  /** A lone dot is not a traversal: `a.b` is accepted. */
  lemma SingleDotAllowed()
    ensures Validate(Js("a.b")) == Accepted(Js("a.b"))
  {
    var q := Js("a.b");
    ValidateByCodeUnits(q);
    assert q[0] == 0x61 && q[1] == Dot && q[2] == 0x62;
    assert !AdjacentDots(q);
  }

  /** A query of at most 100 units made only of ASCII letters, digits and spaces is accepted. */
  lemma PlainQueryAccepted(q: JsString)
    requires |q| <= MaxQueryLength
    requires forall c :: c in q ==> IsAsciiAlnum(c) || c == Space
    ensures Validate(q) == Accepted(q)
  {
    ValidateByCodeUnits(q);
    forall i | 0 <= i < |q|
      ensures q[i] != Dot && q[i] != Slash && q[i] !in Denylist
    {
      assert q[i] in q;
      if q[i] in Denylist {
        var k :| 0 <= k < |Denylist| && Denylist[k] == q[i];
      }
    }
  }

  /**
   * The root route's message speaks of queries made only of spaces, but the
   * `/:query` route accepts them: none of the three rules concerns spaces.
   */
  lemma SpacesOnlyQueryAccepted(q: JsString)
    requires 0 < |q| <= MaxQueryLength
    requires forall c :: c in q ==> c == Space
    ensures Validate(q) == Accepted(q)
  {
    PlainQueryAccepted(q);
  }

  /** Position in the rule order of the rule that decided `v`; 3 when every rule passed. */
  function RuleIndex(v: Verdict): nat
  {
    if v == Rejected(QueryTooLong) then 0
    else if v == Rejected(InvalidQuery) then 1
    else if v == Rejected(InvalidCharacters) then 2
    else 3
  }

  /**
   * Text added on either side of a query can only make an earlier rule fail:
   * a rejected query stays rejected inside any longer query, and every piece
   * of an accepted query is itself accepted.
   */
  lemma RejectionSurvivesContext(a: JsString, q: JsString, b: JsString)
    ensures RuleIndex(Validate(a + q + b)) <= RuleIndex(Validate(q))
    ensures Validate(q).Rejected? ==> Validate(a + q + b).Rejected?
  {
    var t := a + q + b;
    if |t| <= MaxQueryLength && |q| <= MaxQueryLength {
      if Includes(q, DotDot) {
        IncludesInContext(a, q, b, DotDot);
      } else if Includes(q, [Slash]) {
        IncludesInContext(a, q, b, [Slash]);
      } else if HasDeniedUnit(q) {
        var i :| 0 <= i < |q| && q[i] in Denylist;
        assert t[|a| + i] == q[i];
        assert HasDeniedUnit(t);
      }
    }
  }
}
