/**
 * Character classes and string operations with Python's meaning:
 * whitespace as `str.isspace`, `strip`, slicing to a length, `split(sep)[0]`,
 * and the code-point lexicographic order that both Python's string `<` and
 * SQLite's BINARY collation on UTF-8 text use.
 */
module Text {

  /** The characters for which Python's `str.isspace()` holds; `\s` in a
      `str` regular expression and `str.strip()` use the same set. */
  predicate IsSpace(c: char)
  {
    ('\t' <= c <= '\r') || ('\U{1C}' <= c <= '\U{1F}') || c == ' ' ||
    c == '\U{85}' || c == '\U{A0}' || c == '\U{1680}' ||
    ('\U{2000}' <= c <= '\U{200A}') || c == '\U{2028}' || c == '\U{2029}' ||
    c == '\U{202F}' || c == '\U{205F}' || c == '\U{3000}'
  }

  predicate IsDigit(c: char)
  {
    '0' <= c <= '9'
  }

  function DigitChar(k: int): char
    requires 0 <= k < 10
  {
    ('0' as int + k) as char
  }

  predicate AllDigits(t: string)
  {
    forall k :: 0 <= k < |t| ==> IsDigit(t[k])
  }

  function Pow10(w: nat): (p: nat)
    ensures p >= 1
  {
    if w == 0 then 1 else 10 * Pow10(w - 1)
  }

  /** The number an all-digit string denotes (Python's `int(t)` for such `t`). */
  function NumeralValue(t: string): (n: nat)
    requires AllDigits(t)
    ensures n < Pow10(|t|)
  {
    if t == [] then 0
    else NumeralValue(t[..|t| - 1]) * 10 + (t[|t| - 1] as int - '0' as int)
  }

  /** Every character of `s` is whitespace (so is the empty string). */
  predicate Blank(s: string)
  {
    forall k :: 0 <= k < |s| ==> IsSpace(s[k])
  }

  /** Number of whitespace characters at the front of `s`. */
  function LeadingSpaces(s: string): (n: nat)
    ensures n <= |s|
  {
    if s == [] || !IsSpace(s[0]) then 0 else 1 + LeadingSpaces(s[1..])
  }

  lemma {:induction false} LeadingSpacesSpec(s: string)
    ensures forall k :: 0 <= k < LeadingSpaces(s) ==> IsSpace(s[k])
    ensures LeadingSpaces(s) < |s| ==> !IsSpace(s[LeadingSpaces(s)])
    decreases |s|
  {
    if s != [] && IsSpace(s[0]) {
      LeadingSpacesSpec(s[1..]);
    }
  }

  /** `s` is blank exactly when its leading whitespace run covers all of it. */
  lemma {:induction false} BlankLeadingSpaces(s: string)
    ensures Blank(s) <==> LeadingSpaces(s) == |s|
    decreases |s|
  {
    if s != [] {
      BlankLeadingSpaces(s[1..]);
      assert Blank(s) <==> IsSpace(s[0]) && Blank(s[1..]) by {
        assert forall k :: 1 <= k < |s| ==> s[k] == s[1..][k - 1];
      }
    }
  }

  /** Number of whitespace characters at the end of `s`. */
  function TrailingSpaces(s: string): (n: nat)
    ensures n <= |s|
  {
    if s == [] || !IsSpace(s[|s| - 1]) then 0 else 1 + TrailingSpaces(s[..|s| - 1])
  }

  lemma {:induction false} TrailingSpacesSpec(s: string)
    ensures forall k :: |s| - TrailingSpaces(s) <= k < |s| ==> IsSpace(s[k])
    ensures TrailingSpaces(s) < |s| ==> !IsSpace(s[|s| - 1 - TrailingSpaces(s)])
    decreases |s|
  {
    if s != [] && IsSpace(s[|s| - 1]) {
      TrailingSpacesSpec(s[..|s| - 1]);
    }
  }

  /** Python's `s.strip()`: `s` without its leading and trailing whitespace,
      which is the part of `s` after its leading whitespace. */
  function Strip(s: string): (r: string)
    ensures var i := LeadingSpaces(s);
      i + |r| <= |s| && r == s[i..i + |r|]
  {
    var lead := LeadingSpaces(s);
    if lead == |s| then
      []
    else
      LeadingSpacesSpec(s);
      TrailingSpacesSpec(s);
      var trail := TrailingSpaces(s);
      s[lead..|s| - trail]
  }

  /** On a string that is not blank, `strip` keeps exactly what lies between
      the leading and the trailing whitespace runs. */
  lemma StripNonBlank(s: string)
    requires !Blank(s)
    ensures var i, j := LeadingSpaces(s), |s| - TrailingSpaces(s);
      i < j && Strip(s) == s[i..j] && !IsSpace(s[i]) && !IsSpace(s[j - 1])
  {
    BlankLeadingSpaces(s);
    LeadingBeforeTrailing(s);
    LeadingSpacesSpec(s);
    TrailingSpacesSpec(s);
  }

  /** The leading whitespace run of a string that is not blank ends before
      its trailing run starts. */
  lemma LeadingBeforeTrailing(s: string)
    requires LeadingSpaces(s) < |s|
    ensures LeadingSpaces(s) < |s| - TrailingSpaces(s)
  {
    LeadingSpacesSpec(s);
    TrailingSpacesSpec(s);
  }

  /** The text `strip` keeps neither starts nor ends with whitespace. */
  lemma StripSpec(s: string)
    ensures var r := Strip(s);
      r == [] || (!IsSpace(r[0]) && !IsSpace(r[|r| - 1]))
  {
    var lead, trail := LeadingSpaces(s), TrailingSpaces(s);
    if lead < |s| {
      LeadingSpacesSpec(s);
      TrailingSpacesSpec(s);
      var r := s[lead..|s| - trail];
      assert Strip(s) == r;
      assert r[0] == s[lead] && r[|r| - 1] == s[|s| - 1 - trail];
    }
  }

  /** Everything `strip` drops after the kept text is whitespace. */
  lemma StripDrops(s: string)
    ensures var r, i := Strip(s), LeadingSpaces(s);
      forall k :: i + |r| <= k < |s| ==> IsSpace(s[k])
  {
    var lead, trail := LeadingSpaces(s), TrailingSpaces(s);
    if lead < |s| {
      LeadingSpacesSpec(s);
      TrailingSpacesSpec(s);
      assert Strip(s) == s[lead..|s| - trail];
    }
  }

  /** Python's `s.split(sep)[0]`: everything before the first `sep`. */
  function BeforeFirst(s: string, sep: char): (r: string)
    ensures |r| <= |s| && r == s[..|r|]
    ensures sep !in r
    ensures |r| < |s| ==> s[|r|] == sep
  {
    if s == [] || s[0] == sep then [] else [s[0]] + BeforeFirst(s[1..], sep)
  }

  /** Python's `s[:n]`. */
  function Truncate(s: string, n: nat): (r: string)
    ensures |r| <= n && |r| <= |s| && r == s[..|r|]
    ensures |s| <= n ==> r == s
  {
    if |s| <= n then s else s[..n]
  }

  function LowerAsciiChar(c: char): char
  {
    if 'A' <= c <= 'Z' then (c as int + 32) as char else c
  }

  /** Lower-cases the ASCII letters of `s` and leaves every other character. */
  function LowerAscii(s: string): (r: string)
    ensures |r| == |s|
    ensures forall k :: 0 <= k < |s| ==> r[k] == LowerAsciiChar(s[k])
  {
    if s == [] then [] else [LowerAsciiChar(s[0])] + LowerAscii(s[1..])
  }

  /** `a <= b` in code-point lexicographic order: a proper prefix comes first. */
  predicate LexLe(a: string, b: string)
    decreases |a|
  {
    if a == [] then true
    else if b == [] then false
    else if a[0] != b[0] then a[0] < b[0]
    else LexLe(a[1..], b[1..])
  }

  lemma {:induction false} LexLeReflexive(a: string)
    ensures LexLe(a, a)
    decreases |a|
  {
    if a != [] { LexLeReflexive(a[1..]); }
  }

  lemma {:induction false} LexLeAntisymmetric(a: string, b: string)
    requires LexLe(a, b) && LexLe(b, a)
    ensures a == b
    decreases |a|
  {
    if a != [] && b != [] {
      LexLeAntisymmetric(a[1..], b[1..]);
      assert a == [a[0]] + a[1..] && b == [b[0]] + b[1..];
    }
  }

  lemma {:induction false} LexLeTransitive(a: string, b: string, c: string)
    requires LexLe(a, b) && LexLe(b, c)
    ensures LexLe(a, c)
    decreases |a|
  {
    if a != [] && b != [] && c != [] && a[0] == b[0] && b[0] == c[0] {
      LexLeTransitive(a[1..], b[1..], c[1..]);
    }
  }

  lemma {:induction false} LexLeTotal(a: string, b: string)
    ensures LexLe(a, b) || LexLe(b, a)
    decreases |a|
  {
    if a != [] && b != [] && a[0] == b[0] { LexLeTotal(a[1..], b[1..]); }
  }

  /** Comparing two strings that start with parts of equal length: the first
      parts decide unless they are equal. */
  lemma {:induction false} LexLeAppend(a: string, b: string, c: string, d: string)
    requires |a| == |b|
    ensures LexLe(a + c, b + d) == if a == b then LexLe(c, d) else LexLe(a, b)
    decreases |a|
  {
    if a != [] {
      assert (a + c)[0] == a[0] && (b + d)[0] == b[0];
      assert (a + c)[1..] == a[1..] + c && (b + d)[1..] == b[1..] + d;
      LexLeAppend(a[1..], b[1..], c, d);
      if a[0] == b[0] {
        assert a == b <==> a[1..] == b[1..] by {
          assert a == [a[0]] + a[1..] && b == [b[0]] + b[1..];
        }
      }
    } else {
      assert a + c == c && b + d == d;
    }
  }
}
