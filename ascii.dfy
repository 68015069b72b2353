/** ASCII case folding and the case-insensitive string comparison that
    `String.equalsIgnoreCase` performs, restricted to the ASCII letters. */
module Ascii {

  /** `Character.toUpperCase` on the ASCII letters; every other char is kept. */
  function ToUpper(ch: char): char
  {
    if 'a' <= ch <= 'z' then (ch as int - 32) as char else ch
  }

  /** `Character.toLowerCase` on the ASCII letters; every other char is kept. */
  function ToLower(ch: char): char
  {
    if 'A' <= ch <= 'Z' then (ch as int + 32) as char else ch
  }

  /** The per-character test of `equalsIgnoreCase`: the chars are equal, or
      equal once upper-cased, or equal once the upper-cased forms are
      lower-cased again. */
  predicate CharsMatchIgnoreCase(a: char, b: char)
  {
    a == b || ToUpper(a) == ToUpper(b) || ToLower(ToUpper(a)) == ToLower(ToUpper(b))
  }

  /** Walks two strings of equal length char by char, as `regionMatches` does. */
  predicate MatchesIgnoreCase(s: string, t: string)
    requires |s| == |t|
  {
    s == [] || (CharsMatchIgnoreCase(s[0], t[0]) && MatchesIgnoreCase(s[1..], t[1..]))
  }

  /** `s.equalsIgnoreCase(t)`: same length, and every position matches. */
  predicate EqualsIgnoreCase(s: string, t: string)
  {
    |s| == |t| && MatchesIgnoreCase(s, t)
  }

  /** The string with every ASCII capital replaced by its small letter. */
  function LowerCase(s: string): (lowered: seq<char>)
  {
    seq(|s|, i requires 0 <= i < |s| => ToLower(s[i]))
  }

  /** Two chars match ignoring case exactly when their lower-case forms agree. */
  lemma CharsMatchIffSameLower(a: char, b: char)
    ensures CharsMatchIgnoreCase(a, b) <==> ToLower(a) == ToLower(b)
  {
  }

  /** The comparison is an equality of lower-cased strings, so it is an
      equivalence relation that ignores nothing but letter case. */
  lemma {:induction false} EqualsIgnoreCaseIffSameLowerCase(s: string, t: string)
    ensures EqualsIgnoreCase(s, t) <==> LowerCase(s) == LowerCase(t)
  {
    if |s| == |t| {
      MatchesIffSameLowerCase(s, t);
    }
  }

  lemma {:induction false} MatchesIffSameLowerCase(s: string, t: string)
    requires |s| == |t|
    ensures MatchesIgnoreCase(s, t) <==> LowerCase(s) == LowerCase(t)
  {
    if s != [] {
      MatchesIffSameLowerCase(s[1..], t[1..]);
      CharsMatchIffSameLower(s[0], t[0]);
      assert LowerCase(s) == [ToLower(s[0])] + LowerCase(s[1..]);
      assert LowerCase(t) == [ToLower(t[0])] + LowerCase(t[1..]);
      if LowerCase(s) == LowerCase(t) {
        assert LowerCase(s)[0] == LowerCase(t)[0];
        assert LowerCase(s)[1..] == LowerCase(t)[1..];
      }
    }
  }

  /** Reflexive, symmetric and transitive. */
  lemma EqualsIgnoreCaseIsEquivalence(s: string, t: string, u: string)
    ensures EqualsIgnoreCase(s, s)
    ensures EqualsIgnoreCase(s, t) ==> EqualsIgnoreCase(t, s)
    ensures EqualsIgnoreCase(s, t) && EqualsIgnoreCase(t, u) ==> EqualsIgnoreCase(s, u)
  {
    EqualsIgnoreCaseIffSameLowerCase(s, s);
    EqualsIgnoreCaseIffSameLowerCase(s, t);
    EqualsIgnoreCaseIffSameLowerCase(t, s);
    EqualsIgnoreCaseIffSameLowerCase(t, u);
    EqualsIgnoreCaseIffSameLowerCase(s, u);
  }
}
