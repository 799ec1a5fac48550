/** Upper-casing as JavaScript's String.prototype.toUpperCase does it, to the
    extent that matters for matching enumeration names. */
module Strings {

  /** The uppercase of one character. ASCII letters are mapped, and so is
      every non-ASCII character whose uppercase is plain ASCII (sharp s,
      dotless i, long s and the Latin ligatures). Any other character is kept:
      its true uppercase contains a non-ASCII character anyway, so it can never
      make a string equal to an ASCII enumeration name. */
  function UpperChar(c: char): string
  {
    if 'a' <= c <= 'z' then [(c as int - 32) as char]
    else if c == '\U{00DF}' then "SS"
    else if c == '\U{0131}' then "I"
    else if c == '\U{017F}' then "S"
    else if c == '\U{FB00}' then "FF"
    else if c == '\U{FB01}' then "FI"
    else if c == '\U{FB02}' then "FL"
    else if c == '\U{FB03}' then "FFI"
    else if c == '\U{FB04}' then "FFL"
    else if c == '\U{FB05}' then "ST"
    else if c == '\U{FB06}' then "ST"
    else [c]
  }

  function Upper(s: string): string
  {
    if |s| == 0 then [] else UpperChar(s[0]) + Upper(s[1..])
  }

  function LowerChar(c: char): char
  {
    if 'A' <= c <= 'Z' then (c as int + 32) as char else c
  }

  /** ASCII lower-casing, used only to state case-insensitivity. */
  function Lower(s: string): (r: string)
    ensures |r| == |s|
    ensures forall i :: 0 <= i < |s| ==> r[i] == LowerChar(s[i])
  {
    if |s| == 0 then [] else [LowerChar(s[0])] + Lower(s[1..])
  }

  /** The alphabet of every enumeration name in the system. */
  predicate NameChar(c: char) {
    'A' <= c <= 'Z' || c == '_'
  }

  predicate Canonical(s: string) {
    forall i :: 0 <= i < |s| ==> NameChar(s[i])
  }

  lemma {:induction false} UpperAppend(a: string, b: string)
    ensures Upper(a + b) == Upper(a) + Upper(b)
    decreases |a|
  {
    if |a| == 0 {
      assert a + b == b;
    } else {
      assert (a + b)[0] == a[0];
      assert (a + b)[1..] == a[1..] + b;
      UpperAppend(a[1..], b);
    }
  }

  /** A canonical name is its own uppercase. */
  lemma {:induction false} UpperOfCanonical(s: string)
    requires Canonical(s)
    ensures Upper(s) == s
    decreases |s|
  {
    if |s| > 0 {
      UpperOfCanonical(s[1..]);
      assert [s[0]] + s[1..] == s;
    }
  }

  /** Lower-casing a canonical name and upper-casing it again gives the name
      back: name matching is case-insensitive. */
  lemma {:induction false} UpperOfLower(s: string)
    requires Canonical(s)
    ensures Upper(Lower(s)) == s
    decreases |s|
  {
    if |s| > 0 {
      var l := Lower(s);
      assert l[1..] == Lower(s[1..]);
      UpperOfLowerChar(s[0]);
      assert UpperChar(l[0]) == [s[0]];
      UpperOfLower(s[1..]);
      assert [s[0]] + s[1..] == s;
    }
  }

  lemma UpperOfLowerChar(c: char)
    requires NameChar(c)
    ensures UpperChar(LowerChar(c)) == [c]
  {
    if 'A' <= c <= 'Z' {
      assert 'a' <= LowerChar(c) <= 'z';
    }
  }

  /** Every character UpperChar produces is a fixed point of UpperChar. */
  lemma UpperCharStable(c: char)
    ensures Upper(UpperChar(c)) == UpperChar(c)
  {
    var u := UpperChar(c);
    if 'a' <= c <= 'z' || c == '\U{00DF}' || c == '\U{0131}' || c == '\U{017F}'
       || ('\U{FB00}' <= c <= '\U{FB06}') {
      assert Canonical(u);
      UpperOfCanonical(u);
    } else {
      assert u == [c];
      assert Upper(u) == UpperChar(c) + Upper([]);
    }
  }

  /** Upper-casing is idempotent. */
  lemma {:induction false} UpperIdempotent(s: string)
    ensures Upper(Upper(s)) == Upper(s)
    decreases |s|
  {
    if |s| > 0 {
      UpperAppend(UpperChar(s[0]), Upper(s[1..]));
      UpperCharStable(s[0]);
      UpperIdempotent(s[1..]);
    }
  }
}
