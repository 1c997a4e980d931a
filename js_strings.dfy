/** The two string operations of the JavaScript runtime that the scripts
    rely on: `toLowerCase`, here on the ASCII letters only, and `trim`,
    with the whitespace and line-terminator set of ECMAScript. */
module JsStrings {

  predicate IsUpper(c: char) { 'A' <= c <= 'Z' }
  predicate IsLower(c: char) { 'a' <= c <= 'z' }
  predicate IsDigit(c: char) { '0' <= c <= '9' }

  /** Lower-cases an ASCII capital letter and leaves every other character. */
  function LowerChar(c: char): (r: char)
    ensures !IsUpper(r)
    ensures IsUpper(c) ==> IsLower(r) && r as int - c as int == 'a' as int - 'A' as int
    ensures !IsUpper(c) ==> r == c
  {
    if IsUpper(c) then (c as int - 'A' as int + 'a' as int) as char else c
  }

  /** `s.toLowerCase()`, character by character: the length is kept, each
      capital becomes its lower-case letter, every other character stays,
      and no capital is left. */
  function ToLower(s: string): (r: string)
    ensures |r| == |s|
    ensures forall i :: 0 <= i < |s| && IsUpper(s[i]) ==> IsLower(r[i]) && r[i] as int - s[i] as int == 'a' as int - 'A' as int
    ensures forall i :: 0 <= i < |s| && !IsUpper(s[i]) ==> r[i] == s[i]
    ensures HasNoUpper(r)
  {
    seq(|s|, i requires 0 <= i < |s| => LowerChar(s[i]))
  }

  predicate HasNoUpper(s: string) {
    forall i :: 0 <= i < |s| ==> !IsUpper(s[i])
  }

  /** The result of lower-casing holds no capital letter, and lower-casing
      it again changes nothing. */
  lemma ToLowerIdempotent(s: string)
    ensures HasNoUpper(ToLower(s))
    ensures ToLower(ToLower(s)) == ToLower(s)
  {
  }

  /** A string without capitals is its own lower-case form, and only such a
      string is. */
  lemma ToLowerFixedPoints(s: string)
    ensures ToLower(s) == s <==> HasNoUpper(s)
  {
    if ToLower(s) == s {
      forall i | 0 <= i < |s| ensures !IsUpper(s[i]) {
        assert LowerChar(s[i]) == s[i];
      }
    }
  }

  /** Lower-casing works character by character, so it distributes over
      concatenation. */
  lemma ToLowerAppend(a: string, b: string)
    ensures ToLower(a + b) == ToLower(a) + ToLower(b)
  {
  }

  /** `WhiteSpace` and `LineTerminator` of ECMAScript, which `trim` removes:
      tab, line feed, vertical tab, form feed, carriage return, space,
      no-break space, the Unicode space separators U+1680, U+2000 to U+200A,
      U+202F, U+205F and U+3000, the line and paragraph separators, and the
      byte order mark. */
  const JsSpaces: set<char> := {
    '\t', '\n', '\U{000B}', '\U{000C}', '\r', ' ', '\U{00A0}', '\U{1680}',
    '\U{2000}', '\U{2001}', '\U{2002}', '\U{2003}', '\U{2004}', '\U{2005}',
    '\U{2006}', '\U{2007}', '\U{2008}', '\U{2009}', '\U{200A}',
    '\U{2028}', '\U{2029}', '\U{202F}', '\U{205F}', '\U{3000}', '\U{FEFF}'
  }

  predicate IsJsSpace(c: char) {
    c in JsSpaces
  }

  predicate AllSpace(s: string) {
    forall i :: 0 <= i < |s| ==> IsJsSpace(s[i])
  }

  /** How many whitespace characters the string starts with. */
  function LeadingSpaces(s: string): (n: nat)
    ensures n <= |s|
    ensures forall i :: 0 <= i < n ==> IsJsSpace(s[i])
    ensures n < |s| ==> !IsJsSpace(s[n])
  {
    if s != [] && IsJsSpace(s[0]) then 1 + LeadingSpaces(s[1..]) else 0
  }

  /** How many whitespace characters the string ends with. */
  function TrailingSpaces(s: string): (n: nat)
    ensures n <= |s|
    ensures forall i :: |s| - n <= i < |s| ==> IsJsSpace(s[i])
    ensures n < |s| ==> !IsJsSpace(s[|s| - 1 - n])
  {
    if s != [] && IsJsSpace(s[|s| - 1]) then 1 + TrailingSpaces(s[..|s| - 1]) else 0
  }

  /** Drops the leading whitespace. */
  function TrimStart(s: string): (r: string)
    ensures |r| <= |s| && r == s[|s| - |r|..]
    ensures AllSpace(s[..|s| - |r|])
    ensures r != [] ==> !IsJsSpace(r[0])
  {
    s[LeadingSpaces(s)..]
  }

  /** Drops the trailing whitespace. */
  function TrimEnd(s: string): (r: string)
    ensures |r| <= |s| && r == s[..|r|]
    ensures AllSpace(s[|r|..])
    ensures r != [] ==> !IsJsSpace(r[|r| - 1])
  {
    s[..|s| - TrailingSpaces(s)]
  }

  /** `s.trim()`: a contiguous part of the input, with only whitespace
      before and after it, that neither starts nor ends with whitespace; it
      is empty exactly when the input is all whitespace. */
  function Trim(s: string): (r: string)
    ensures exists k ::
      0 <= k <= |s| - |r| && r == s[k..k + |r|] && AllSpace(s[..k]) && AllSpace(s[k + |r|..])
    ensures r != [] ==> !IsJsSpace(r[0]) && !IsJsSpace(r[|r| - 1])
    ensures r == [] <==> AllSpace(s)
  {
    var t := TrimStart(s);
    var k := |s| - |t|;
    var r := TrimEnd(t);
    assert r == s[k..k + |r|];
    assert s[k + |r|..] == t[|r|..];
    assert AllSpace(s[..k]);
    r
  }

  lemma {:induction false} LeadingSpacesOfPadded(lead: string, s: string)
    requires AllSpace(lead)
    requires s != [] ==> !IsJsSpace(s[0])
    ensures LeadingSpaces(lead + s) == |lead|
    decreases |lead|
  {
    if lead != [] {
      assert (lead + s)[1..] == lead[1..] + s;
      LeadingSpacesOfPadded(lead[1..], s);
    } else {
      assert lead + s == s;
    }
  }

  lemma {:induction false} TrailingSpacesOfPadded(s: string, trail: string)
    requires AllSpace(trail)
    requires s != [] ==> !IsJsSpace(s[|s| - 1])
    ensures TrailingSpaces(s + trail) == |trail|
    decreases |trail|
  {
    if trail != [] {
      assert (s + trail)[..|s + trail| - 1] == s + trail[..|trail| - 1];
      TrailingSpacesOfPadded(s, trail[..|trail| - 1]);
    } else {
      assert s + trail == s;
    }
  }

  /** Leading whitespace is all that `TrimStart` removes. */
  lemma TrimStartOfPadded(lead: string, s: string)
    requires AllSpace(lead)
    requires s != [] ==> !IsJsSpace(s[0])
    ensures TrimStart(lead + s) == s
  {
    LeadingSpacesOfPadded(lead, s);
    assert (lead + s)[|lead|..] == s;
  }

  /** Trailing whitespace is all that `TrimEnd` removes. */
  lemma TrimEndOfPadded(s: string, trail: string)
    requires AllSpace(trail)
    requires s != [] ==> !IsJsSpace(s[|s| - 1])
    ensures TrimEnd(s + trail) == s
  {
    TrailingSpacesOfPadded(s, trail);
    assert (s + trail)[..|s|] == s;
  }

  /** A string that neither starts nor ends with whitespace comes out of
      `trim` unchanged, whatever whitespace surrounds it. */
  lemma TrimOfPadded(lead: string, s: string, trail: string)
    requires AllSpace(lead) && AllSpace(trail)
    requires s != [] ==> !IsJsSpace(s[0]) && !IsJsSpace(s[|s| - 1])
    ensures Trim(lead + s + trail) == s
  {
    assert lead + s + trail == lead + (s + trail);
    if s != [] {
      TrimStartOfPadded(lead, s + trail);
    } else {
      assert s + trail == trail;
      TrimStartOfPadded(lead + trail, []);
      assert lead + trail + [] == lead + trail;
    }
    TrimEndOfPadded(s, trail);
  }
}
