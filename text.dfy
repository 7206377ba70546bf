/**
 * String helpers shared by the interview page and the details form:
 * JavaScript's `String.prototype.trim` and the notion of a blank string.
 */
module Text {

  /** ECMAScript WhiteSpace and LineTerminator code points, the characters `trim` removes. */
  predicate IsWhiteSpace(c: char)
  {
    // line terminators: LF, CR, LINE SEPARATOR, PARAGRAPH SEPARATOR
    c == '\n' || c == '\r' || c == '\U{2028}' || c == '\U{2029}' ||
    // TAB, VT, FF and ZERO WIDTH NO-BREAK SPACE
    c == '\t' || c == '\U{000B}' || c == '\U{000C}' || c == '\U{FEFF}' ||
    // the Unicode space separators (category Zs)
    c == ' ' || c == '\U{00A0}' || c == '\U{1680}' || ('\U{2000}' <= c <= '\U{200A}') ||
    c == '\U{202F}' || c == '\U{205F}' || c == '\U{3000}'
  }

  /** A string is blank when every one of its characters is white space (the empty string included). */
  predicate IsBlank(s: string)
  {
    forall i :: 0 <= i < |s| ==> IsWhiteSpace(s[i])
  }

  /**
   * `s.trim()`: `s` without its leading and trailing white space. What is left
   * neither starts nor ends with white space, and it is empty exactly when `s`
   * is blank.
   */
  function Trim(s: string): (r: string)
    ensures |r| <= |s|
    ensures r != [] ==> !IsWhiteSpace(r[0]) && !IsWhiteSpace(r[|r| - 1])
    ensures r == [] <==> IsBlank(s)
  {
    if s == [] then s
    else if IsWhiteSpace(s[0]) then
      assert forall i :: 1 <= i < |s| ==> s[i] == s[1..][i - 1];
      Trim(s[1..])
    else if IsWhiteSpace(s[|s| - 1]) then
      assert s[..|s| - 1][0] == s[0];
      Trim(s[..|s| - 1])
    else s
  }

  /** Trimming only strips the two ends: `s` is blank text, then `Trim(s)`, then blank text. */
  lemma {:induction false} TrimStripsEnds(s: string)
    ensures exists lead, trail :: IsBlank(lead) && IsBlank(trail) && s == lead + Trim(s) + trail
    decreases |s|, 1
  {
    if s == [] || (!IsWhiteSpace(s[0]) && !IsWhiteSpace(s[|s| - 1])) {
      assert IsBlank([]) && s == [] + Trim(s) + [];
    } else if IsWhiteSpace(s[0]) {
      TrimStripsLeading(s);
    } else {
      TrimStripsTrailing(s);
    }
  }

  lemma {:induction false} TrimStripsLeading(s: string)
    requires s != [] && IsWhiteSpace(s[0])
    ensures exists lead, trail :: IsBlank(lead) && IsBlank(trail) && s == lead + Trim(s) + trail
    decreases |s|, 0
  {
    var rest := s[1..];
    TrimStripsEnds(rest);
    var lead, trail :| IsBlank(lead) && IsBlank(trail) && rest == lead + Trim(rest) + trail;
    assert Trim(s) == Trim(rest);
    BlankCons(s[0], lead);
    assert s == ([s[0]] + lead) + Trim(s) + trail by {
      calc {
        s;
        [s[0]] + rest;
        [s[0]] + (lead + Trim(rest) + trail);
        ([s[0]] + lead) + Trim(rest) + trail;
      }
    }
  }

  lemma {:induction false} TrimStripsTrailing(s: string)
    requires s != [] && !IsWhiteSpace(s[0]) && IsWhiteSpace(s[|s| - 1])
    ensures exists lead, trail :: IsBlank(lead) && IsBlank(trail) && s == lead + Trim(s) + trail
    decreases |s|, 0
  {
    var rest := s[..|s| - 1];
    TrimStripsEnds(rest);
    var lead, trail :| IsBlank(lead) && IsBlank(trail) && rest == lead + Trim(rest) + trail;
    assert Trim(s) == Trim(rest);
    BlankSnoc(trail, s[|s| - 1]);
    assert s == lead + Trim(s) + (trail + [s[|s| - 1]]) by {
      calc {
        s;
        rest + [s[|s| - 1]];
        (lead + Trim(rest) + trail) + [s[|s| - 1]];
        lead + Trim(rest) + (trail + [s[|s| - 1]]);
      }
    }
  }

  lemma BlankCons(c: char, s: string)
    requires IsWhiteSpace(c) && IsBlank(s)
    ensures IsBlank([c] + s)
  {
  }

  lemma BlankSnoc(s: string, c: char)
    requires IsWhiteSpace(c) && IsBlank(s)
    ensures IsBlank(s + [c])
  {
  }
}
