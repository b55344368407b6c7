/**
 The Python `str` operations the application relies on, restricted to ASCII:
 `strip()`, `lower()`, `title()`, `isdigit()`, `replace()` of one character,
 the `in` substring test and `str()` of a non-negative integer.
 */
module Text {

  // ---------------------------------------------------------------------------
  // Characters
  // ---------------------------------------------------------------------------

  /** The ASCII characters Python's `str.strip()` removes by default. */
  predicate IsSpace(c: char) {
    c == ' ' || c == '\t' || c == '\n' || c == '\r' || c == '\U{0B}' || c == '\U{0C}'
    || ('\U{1C}' <= c <= '\U{1F}')
  }

  predicate IsUpper(c: char) { 'A' <= c <= 'Z' }

  predicate IsLower(c: char) { 'a' <= c <= 'z' }

  /** The ASCII "cased" characters of Python's `str.title()`. */
  predicate IsLetter(c: char) { IsUpper(c) || IsLower(c) }

  predicate IsDigit(c: char) { '0' <= c <= '9' }

  function LowerChar(c: char): (d: char)
    ensures !IsUpper(d)
    ensures IsLetter(d) <==> IsLetter(c)
    ensures IsSpace(d) <==> IsSpace(c)
    ensures IsUpper(c) ==> d as int == c as int + 32
    ensures !IsUpper(c) ==> d == c
  {
    if IsUpper(c) then (c as int + 32) as char else c
  }

  function UpperChar(c: char): (d: char)
    ensures !IsLower(d)
    ensures IsLetter(d) <==> IsLetter(c)
    ensures IsLower(c) ==> d as int == c as int - 32
    ensures !IsLower(c) ==> d == c
  {
    if IsLower(c) then (c as int - 32) as char else c
  }

  // ---------------------------------------------------------------------------
  // lower()
  // ---------------------------------------------------------------------------

  /** Python's `s.lower()` on ASCII. */
  function Lower(s: string): (r: string)
    ensures |r| == |s|
    ensures forall i :: 0 <= i < |s| ==> r[i] == LowerChar(s[i])
  {
    if s == [] then [] else [LowerChar(s[0])] + Lower(s[1..])
  }

  lemma LowerAppend(a: string, b: string)
    ensures Lower(a + b) == Lower(a) + Lower(b)
  {
    assert forall i :: 0 <= i < |a + b| ==> Lower(a + b)[i] == (Lower(a) + Lower(b))[i];
  }

  /** Lower-casing twice is lower-casing once. */
  lemma LowerIdempotent(s: string)
    ensures Lower(Lower(s)) == Lower(s)
  {
    assert forall i :: 0 <= i < |s| ==> Lower(Lower(s))[i] == Lower(s)[i];
  }

  // ---------------------------------------------------------------------------
  // strip()
  // ---------------------------------------------------------------------------

  predicate AllSpace(s: string) {
    forall i :: 0 <= i < |s| ==> IsSpace(s[i])
  }

  /** Neither end of `s` is whitespace: what `strip()` leaves behind. */
  predicate Trimmed(s: string) {
    s == [] || (!IsSpace(s[0]) && !IsSpace(s[|s| - 1]))
  }

  /** The number of whitespace characters `s` starts with. */
  function LeadingSpaces(s: string): (n: nat)
    ensures n <= |s|
    ensures AllSpace(s[..n])
    ensures n < |s| ==> !IsSpace(s[n])
  {
    if s == [] || !IsSpace(s[0]) then 0 else 1 + LeadingSpaces(s[1..])
  }

  /** The number of whitespace characters `s` ends with. */
  function TrailingSpaces(s: string): (n: nat)
    ensures n <= |s|
    ensures AllSpace(s[|s| - n..])
    ensures n < |s| ==> !IsSpace(s[|s| - n - 1])
  {
    if s == [] || !IsSpace(s[|s| - 1]) then 0 else 1 + TrailingSpaces(s[..|s| - 1])
  }

  /**
   Python's `s.strip()` on ASCII: `s` is whitespace, then the result, then
   whitespace, and the result is trimmed at both ends.
   */
  function Strip(s: string): (r: string)
    ensures Trimmed(r)
    ensures LeadingSpaces(s) + |r| <= |s|
    ensures s[LeadingSpaces(s)..LeadingSpaces(s) + |r|] == r
    ensures AllSpace(s[..LeadingSpaces(s)])
    ensures AllSpace(s[LeadingSpaces(s) + |r|..])
  {
    var k := LeadingSpaces(s);
    var rest := s[k..];
    var t := TrailingSpaces(rest);
    assert rest[|rest| - t..] == s[k + |rest| - t..];
    rest[..|rest| - t]
  }

  lemma {:induction false} LeadingSpacesBefore(a: string, t: string)
    requires AllSpace(a) && t != [] && !IsSpace(t[0])
    ensures LeadingSpaces(a + t) == |a|
  {
    if a != [] {
      assert (a + t)[1..] == a[1..] + t;
      LeadingSpacesBefore(a[1..], t);
    }
  }

  lemma {:induction false} TrailingSpacesAfter(t: string, b: string)
    requires AllSpace(b) && t != [] && !IsSpace(t[|t| - 1])
    ensures TrailingSpaces(t + b) == |b|
  {
    if b != [] {
      assert (t + b)[..|t + b| - 1] == t + b[..|b| - 1];
      TrailingSpacesAfter(t, b[..|b| - 1]);
    }
  }

  /** Whatever whitespace surrounds a trimmed string, `strip()` recovers exactly that string. */
  lemma StripUnique(a: string, r: string, b: string)
    requires AllSpace(a) && AllSpace(b) && Trimmed(r)
    ensures Strip(a + r + b) == r
  {
    var s := a + r + b;
    if r == [] {
      assert s == a + b;
      assert AllSpace(s) by {
        forall i | 0 <= i < |s| ensures IsSpace(s[i]) {
          if i < |a| { assert s[i] == a[i]; } else { assert s[i] == b[i - |a|]; }
        }
      }
      assert LeadingSpaces(s) == |s|;
    } else {
      assert s == a + (r + b);
      LeadingSpacesBefore(a, r + b);
      assert s[|a|..] == r + b;
      TrailingSpacesAfter(r, b);
      assert (r + b)[..|r|] == r;
    }
  }

  /** Every string is its stripped form wrapped in whitespace. */
  lemma StripSplit(s: string) returns (a: string, b: string)
    ensures AllSpace(a) && AllSpace(b)
    ensures s == a + Strip(s) + b
  {
    var k := LeadingSpaces(s);
    var r := Strip(s);
    a := s[..k];
    b := s[k + |r|..];
    assert s == s[..k] + s[k..k + |r|] + s[k + |r|..];
  }

  lemma AllSpaceAppend(a: string, b: string)
    requires AllSpace(a) && AllSpace(b)
    ensures AllSpace(a + b)
  {
    forall i | 0 <= i < |a + b| ensures IsSpace((a + b)[i]) {
      if i >= |a| { assert (a + b)[i] == b[i - |a|]; }
    }
  }

  /** `strip()` ignores any extra whitespace added around its argument. */
  lemma StripPadded(p: string, s: string, q: string)
    requires AllSpace(p) && AllSpace(q)
    ensures Strip(p + s + q) == Strip(s)
  {
    var a, b := StripSplit(s);
    var r := Strip(s);
    assert p + s + q == (p + a) + r + (b + q);
    AllSpaceAppend(p, a);
    AllSpaceAppend(b, q);
    StripUnique(p + a, r, b + q);
  }

  /** Stripping twice is stripping once. */
  lemma StripIdempotent(s: string)
    ensures Strip(Strip(s)) == Strip(s)
  {
    assert Strip(s) == [] + Strip(s) + [];
    StripUnique([], Strip(s), []);
  }

  /** Lower-casing leaves whitespace alone. */
  lemma LowerSpaces(a: string)
    requires AllSpace(a)
    ensures Lower(a) == a
  {
    assert forall i :: 0 <= i < |a| ==> Lower(a)[i] == a[i];
  }

  /** Lower-casing a trimmed string leaves it trimmed. */
  lemma LowerTrimmed(r: string)
    requires Trimmed(r)
    ensures Trimmed(Lower(r))
  {
  }

  /** `strip()` and `lower()` commute, because lower-casing never creates or removes whitespace. */
  lemma LowerStripCommute(s: string)
    ensures Lower(Strip(s)) == Strip(Lower(s))
  {
    var a, b := StripSplit(s);
    var r := Strip(s);
    LowerAppend(a, r);
    LowerAppend(a + r, b);
    LowerSpaces(a);
    LowerSpaces(b);
    LowerTrimmed(r);
    assert Lower(s) == a + Lower(r) + b;
    StripUnique(a, Lower(r), b);
  }

  // ---------------------------------------------------------------------------
  // Substring test (`needle in hay`)
  // ---------------------------------------------------------------------------

  predicate StartsWith(s: string, prefix: string) {
    |prefix| <= |s| && s[..|prefix|] == prefix
  }

  /** Python's `needle in hay` for two strings. */
  predicate Contains(hay: string, needle: string)
    decreases |hay|
  {
    StartsWith(hay, needle) || (|hay| > 0 && Contains(hay[1..], needle))
  }

  /** `needle` occurs in `hay` starting at index `i`. */
  predicate OccursAt(hay: string, needle: string, i: int) {
    0 <= i <= |hay| - |needle| && hay[i..i + |needle|] == needle
  }

  /** `needle in hay` holds exactly when `needle` occurs at some position of `hay`. */
  lemma {:induction false} ContainsIff(hay: string, needle: string)
    ensures Contains(hay, needle) <==> exists i :: OccursAt(hay, needle, i)
    decreases |hay|
  {
    if Contains(hay, needle) {
      if StartsWith(hay, needle) {
        assert OccursAt(hay, needle, 0);
      } else {
        ContainsIff(hay[1..], needle);
        var j :| OccursAt(hay[1..], needle, j);
        assert hay[j + 1..j + 1 + |needle|] == hay[1..][j..j + |needle|];
        assert OccursAt(hay, needle, j + 1);
      }
    }
    if exists i :: OccursAt(hay, needle, i) {
      var i :| OccursAt(hay, needle, i);
      if i > 0 {
        assert hay[1..][i - 1..i - 1 + |needle|] == hay[i..i + |needle|];
        assert OccursAt(hay[1..], needle, i - 1);
        ContainsIff(hay[1..], needle);
      }
    }
  }

  /** A string contains everything it is built around. */
  lemma ContainsMiddle(p: string, m: string, q: string)
    ensures Contains(p + m + q, m)
  {
    var s := p + m + q;
    assert s[|p|..|p| + |m|] == m;
    assert OccursAt(s, m, |p|);
    ContainsIff(s, m);
  }

  // ---------------------------------------------------------------------------
  // isdigit()
  // ---------------------------------------------------------------------------

  predicate AllDigits(s: string) {
    forall i :: 0 <= i < |s| ==> IsDigit(s[i])
  }

  /** Python's `s.isdigit()` on ASCII: false on the empty string. */
  predicate IsDigitString(s: string) {
    |s| > 0 && AllDigits(s)
  }

  // ---------------------------------------------------------------------------
  // replace() and title()
  // ---------------------------------------------------------------------------

  /** Python's `s.replace(from, to)` for one-character `from` and `to`. */
  function ReplaceChar(s: string, from: char, to: char): (r: string)
    ensures |r| == |s|
    ensures forall i :: 0 <= i < |s| ==> r[i] == (if s[i] == from then to else s[i])
  {
    if s == [] then [] else [if s[0] == from then to else s[0]] + ReplaceChar(s[1..], from, to)
  }

  /**
   What `title()` makes of `s[i]`: a letter directly after a letter is
   lower-cased, any other letter upper-cased; `afterLetter` tells whether the
   text before `s` ended in a letter.
   */
  function TitleCharAt(s: string, i: nat, afterLetter: bool): char
    requires i < |s|
  {
    var prev := if i == 0 then afterLetter else IsLetter(s[i - 1]);
    if prev then LowerChar(s[i]) else UpperChar(s[i])
  }

  function TitleFrom(s: string, afterLetter: bool): (r: string)
    ensures |r| == |s|
    ensures forall i :: 0 <= i < |s| ==> r[i] == TitleCharAt(s, i, afterLetter)
  {
    if s == [] then []
    else
      var rest := TitleFrom(s[1..], IsLetter(s[0]));
      assert forall i :: 1 <= i < |s| ==> TitleCharAt(s[1..], i - 1, IsLetter(s[0])) == TitleCharAt(s, i, afterLetter);
      [if afterLetter then LowerChar(s[0]) else UpperChar(s[0])] + rest
  }

  /** Python's `s.title()` on ASCII. */
  function Title(s: string): (r: string)
    ensures |r| == |s|
    ensures forall i :: 0 <= i < |s| && !IsLetter(s[i]) ==> r[i] == s[i]
    ensures forall i :: 0 <= i < |s| && IsLetter(s[i]) ==>
      IsLetter(r[i]) && (IsUpper(r[i]) <==> (i == 0 || !IsLetter(s[i - 1])))
    ensures forall i :: 0 <= i < |s| ==> LowerChar(r[i]) == LowerChar(s[i])
  {
    TitleFrom(s, false)
  }

  /** Title-casing twice is title-casing once. */
  lemma TitleIdempotent(s: string)
    ensures Title(Title(s)) == Title(s)
  {
    var r := Title(s);
    forall i | 0 <= i < |s| ensures Title(r)[i] == r[i] {
      assert IsLetter(r[i]) <==> IsLetter(s[i]);
      if i > 0 {
        assert IsLetter(r[i - 1]) <==> IsLetter(s[i - 1]);
      }
    }
  }

  // ---------------------------------------------------------------------------
  // str() of a non-negative integer, and its inverse
  // ---------------------------------------------------------------------------

  function DigitChar(d: nat): (c: char)
    requires d < 10
    ensures IsDigit(c)
  {
    ('0' as int + d) as char
  }

  function DigitValue(c: char): (d: nat)
    requires IsDigit(c)
    ensures d < 10
  {
    c as int - '0' as int
  }

  /** Python's `str(n)` for `n >= 0`: decimal digits, no leading zero. */
  function NatToString(n: nat): (r: string)
    ensures IsDigitString(r)
    ensures r[0] == '0' ==> r == "0"
    decreases n
  {
    if n < 10 then [DigitChar(n)] else NatToString(n / 10) + [DigitChar(n % 10)]
  }

  /** The value of a string of decimal digits (`int(s)`), 0 for the empty string. */
  function ParseDecimal(s: string): nat
    requires AllDigits(s)
  {
    if s == [] then 0 else ParseDecimal(s[..|s| - 1]) * 10 + DigitValue(s[|s| - 1])
  }

  /** `int(str(n)) == n`. */
  lemma {:induction false} ParseNatToString(n: nat)
    ensures ParseDecimal(NatToString(n)) == n
    decreases n
  {
    var s := NatToString(n);
    if n >= 10 {
      ParseNatToString(n / 10);
      assert s[..|s| - 1] == NatToString(n / 10);
    }
  }

  /** Distinct numbers print differently. */
  lemma NatToStringInjective(m: nat, n: nat)
    ensures NatToString(m) == NatToString(n) ==> m == n
  {
    ParseNatToString(m);
    ParseNatToString(n);
  }
}
