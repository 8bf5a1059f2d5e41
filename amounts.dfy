/**
 * The amount extractor: a hand-written matcher for the pattern
 *
 *     (?:₹|INR|Rs\.?)\s*([0-9][0-9,]*(?:\.[0-9]{1,2})?)     (case-insensitive)
 *
 * that finds every leftmost, non-overlapping match the way `finditer` does,
 * converts each captured numeral after removing its commas, and keeps the
 * largest value.
 */
module Amounts {
  import opened Common
  import opened Text
  import opened Dates

  const RUPEE_SIGN: char := '\U{20B9}'

  // Letters of the textual markers under Unicode IGNORECASE matching. Besides
  // the two ASCII cases, 'i' also matches U+0130 and U+0131, and 's' also
  // matches U+017F (LATIN SMALL LETTER LONG S); 'n' and 'r' have no others.
  predicate IsLetterI(c: char) { c == 'i' || c == 'I' || c == '\U{130}' || c == '\U{131}' }
  predicate IsLetterN(c: char) { c == 'n' || c == 'N' }
  predicate IsLetterR(c: char) { c == 'r' || c == 'R' }
  predicate IsLetterS(c: char) { c == 's' || c == 'S' || c == '\U{17F}' }

  /** `s[i..m]` spells one of the alternatives `₹`, `INR`, `Rs` and `Rs.`. */
  predicate IsMarker(s: string, i: nat, m: nat)
  {
    i < m <= |s| &&
    ((m == i + 1 && s[i] == RUPEE_SIGN)
    || (m == i + 3 && IsLetterI(s[i]) && IsLetterN(s[i + 1]) && IsLetterR(s[i + 2]))
    || (m == i + 2 && IsLetterR(s[i]) && IsLetterS(s[i + 1]))
    || (m == i + 3 && IsLetterR(s[i]) && IsLetterS(s[i + 1]) && s[i + 2] == '.'))
  }

  /**
   * Where the currency marker that begins at `i` ends, if one does. The
   * alternatives are tried in order and "Rs" takes a following period
   * greedily; falling back to "Rs" without it could never lead to a match,
   * because the next pattern element would then face the period, which is
   * neither whitespace nor a digit.
   */
  function MarkerEnd(s: string, i: nat): (r: Option<nat>)
    ensures r.Some? ==> i < r.value <= |s| && IsMarker(s, i, r.value)
    ensures forall m: nat :: IsMarker(s, i, m) ==>
      r.Some? && (m == r.value || (m == i + 2 && r.value == i + 3 && s[i + 2] == '.'))
  {
    if i < |s| && s[i] == RUPEE_SIGN then Some(i + 1)
    else if i + 3 <= |s| && IsLetterI(s[i]) && IsLetterN(s[i + 1]) && IsLetterR(s[i + 2]) then Some(i + 3)
    else if i + 2 <= |s| && IsLetterR(s[i]) && IsLetterS(s[i + 1]) then
      (if i + 3 <= |s| && s[i + 2] == '.' then Some(i + 3) else Some(i + 2))
    else None
  }

  /** End of the greedy run `\s*` that starts at `j`. */
  function SpacesEnd(s: string, j: nat): (k: nat)
    requires j <= |s|
    ensures j <= k <= |s|
    decreases |s| - j
  {
    if j < |s| && IsSpace(s[j]) then SpacesEnd(s, j + 1) else j
  }

  /** `s[a..b]` is whitespace only. */
  predicate AllSpaces(s: string, a: nat, b: nat)
  {
    a <= b <= |s| && forall t :: a <= t < b ==> IsSpace(s[t])
  }

  /** The run `\s*` takes every whitespace character from `j` on and stops
      at the first other one. */
  lemma {:induction false} SpacesEndSpec(s: string, j: nat)
    requires j <= |s|
    ensures AllSpaces(s, j, SpacesEnd(s, j))
    ensures SpacesEnd(s, j) < |s| ==> !IsSpace(s[SpacesEnd(s, j)])
    decreases |s| - j
  {
    if j < |s| && IsSpace(s[j]) {
      SpacesEndSpec(s, j + 1);
    }
  }

  predicate IsDigitOrComma(c: char) { IsDigit(c) || c == ',' }

  /** End of the greedy run `[0-9,]*` that starts at `j`. */
  function DigitRunEnd(s: string, j: nat): (k: nat)
    requires j <= |s|
    ensures j <= k <= |s|
    ensures forall t :: j <= t < k ==> IsDigitOrComma(s[t])
    ensures k < |s| ==> !IsDigitOrComma(s[k])
    decreases |s| - j
  {
    if j < |s| && IsDigitOrComma(s[j]) then DigitRunEnd(s, j + 1) else j
  }

  /** `s[k..e]` is empty, or a period followed by one or two digits. */
  predicate IsFraction(s: string, k: nat, e: nat)
  {
    k <= e <= |s| &&
    (e == k || ((e == k + 2 || e == k + 3) && s[k] == '.' && forall t :: k + 1 <= t < e ==> IsDigit(s[t])))
  }

  /** End of the optional group `(?:\.[0-9]{1,2})` at `k`: the longest
      fraction there, so two digits when it can. */
  function FractionEnd(s: string, k: nat): (e: nat)
    requires k <= |s|
    ensures IsFraction(s, k, e)
    ensures forall e': nat :: IsFraction(s, k, e') ==> e' <= e
  {
    if k + 1 < |s| && s[k] == '.' && IsDigit(s[k + 1]) then
      (if k + 2 < |s| && IsDigit(s[k + 2]) then k + 3 else k + 2)
    else k
  }

  /** A match: where it ends, and its capture split into the part before the
      decimal point and the fraction (empty, or a period and 1–2 digits). */
  datatype Match = Match(end: nat, whole: string, fraction: string)
  {
    function Capture(): string { whole + fraction }
  }

  /** The shape every capture has: a digit, then digits and commas, then an
      optional period with one or two digits. */
  predicate WellShaped(m: Match)
  {
    && m.whole != [] && IsDigit(m.whole[0])
    && (forall t :: 0 <= t < |m.whole| ==> IsDigitOrComma(m.whole[t]))
    && (m.fraction == [] ||
         (2 <= |m.fraction| <= 3 && m.fraction[0] == '.' && AllDigits(m.fraction[1..])))
  }

  /** The match of the pattern that starts exactly at `i`, if there is one. */
  function MatchAt(s: string, i: nat): (r: Option<Match>)
    ensures r.Some? ==> i < r.value.end <= |s| && MarkerEnd(s, i).Some?
    ensures r.Some? ==> WellShaped(r.value)
  {
    match MarkerEnd(s, i)
    case None => None
    case Some(m) =>
      var d := SpacesEnd(s, m);
      if d < |s| && IsDigit(s[d]) then
        var k := DigitRunEnd(s, d + 1);
        var e := FractionEnd(s, k);
        Some(Match(e, s[d..k], s[k..e]))
      else None
  }

  /**
   * The pattern matches `s[i..e]`: a marker `s[i..m]`, whitespace `s[m..d]`,
   * the digit `s[d]`, digits and commas `s[d + 1..k]`, then the optional
   * fraction `s[k..e]`; the group captures `s[d..e]`.
   */
  ghost predicate PatternAt(s: string, i: nat, m: nat, d: nat, k: nat, e: nat)
  {
    && IsMarker(s, i, m)
    && AllSpaces(s, m, d)
    && d < k <= |s| && IsDigit(s[d])
    && (forall t :: d + 1 <= t < k ==> IsDigitOrComma(s[t]))
    && IsFraction(s, k, e)
  }

  /** A match the matcher reports is a match of the pattern, and its capture
      is the text the group spans. */
  lemma MatchAtSound(s: string, i: nat)
    requires MatchAt(s, i).Some?
    ensures var r := MatchAt(s, i).value;
      exists m: nat, d: nat, k: nat :: PatternAt(s, i, m, d, k, r.end) && r.whole == s[d..k] && r.fraction == s[k..r.end]
  {
    var m := MarkerEnd(s, i).value;
    var d := SpacesEnd(s, m);
    SpacesEndSpec(s, m);
    var k := DigitRunEnd(s, d + 1);
    assert PatternAt(s, i, m, d, k, MatchAt(s, i).value.end);
  }

  /** Wherever the pattern matches at `i`, the matcher finds a match there
      that is at least as long: greedy quantifiers give the longest match. */
  lemma MatchAtComplete(s: string, i: nat, m: nat, d: nat, k: nat, e: nat)
    requires PatternAt(s, i, m, d, k, e)
    ensures MatchAt(s, i).Some? && e <= MatchAt(s, i).value.end
  {
    // "Rs" without the period cannot be followed by whitespace or a digit.
    assert d == m || IsSpace(s[m]);
    assert s[m] != '.';
    assert MarkerEnd(s, i) == Some(m);
    SpacesEndSpec(s, m);
    var d0 := SpacesEnd(s, m);
    assert d0 == d by {
      assert d0 <= d;
      assert !IsSpace(s[d]);
    }
    var k0 := DigitRunEnd(s, d + 1);
    assert k <= k0;
    if k < k0 {
      assert IsDigitOrComma(s[k]);
      assert e == k;
    }
  }

  /** The matcher finds a match at `i` exactly when the pattern matches there. */
  lemma MatchAtIff(s: string, i: nat)
    ensures MatchAt(s, i).Some? <==> exists m: nat, d: nat, k: nat, e: nat :: PatternAt(s, i, m, d, k, e)
  {
    if MatchAt(s, i).Some? {
      MatchAtSound(s, i);
    }
    forall m: nat, d: nat, k: nat, e: nat | PatternAt(s, i, m, d, k, e) ensures MatchAt(s, i).Some? {
      MatchAtComplete(s, i, m, d, k, e);
    }
  }

  /** A match starts at some position of `s`. */
  ghost predicate HasMatch(s: string)
  {
    exists i :: 0 <= i < |s| && MatchAt(s, i).Some?
  }

  /** The captures `finditer` yields when it resumes searching at `i`: try
      each position in turn and continue after every match found. */
  function Captures(s: string, i: nat): seq<string>
    decreases |s| - i
  {
    if i >= |s| then []
    else match MatchAt(s, i)
      case Some(m) => [m.Capture()] + Captures(s, m.end)
      case None => Captures(s, i + 1)
  }

  /** `c.replace(",", "")`. */
  function StripCommas(c: string): (r: string)
    ensures ',' !in r
  {
    if c == [] then []
    else (if c[0] == ',' then [] else [c[0]]) + StripCommas(c[1..])
  }

  /** `y / 10^k`: the value of `k` fraction digits that read as `y`. */
  function Scaled(y: nat, k: nat): (r: real)
    ensures 0.0 <= r <= y as real
  {
    y as real / Pow10(k) as real
  }

  /** The number the decimal numeral `w.f` denotes. */
  function DecimalOf(w: string, f: string): real
    requires AllDigits(w) && AllDigits(f)
  {
    NumeralValue(w) as real + Scaled(NumeralValue(f), |f|)
  }

  /**
   * `float(t)` on plain decimal numerals: digits, optionally followed by a
   * period and more digits. Every other text is `None`, the ValueError
   * branch; `float` would accept a few of those ("12.", ".5", "1e3"), but no
   * capture with its commas removed has such a shape (`CaptureConverts`).
   */
  function DecimalValue(t: string): (r: Option<real>)
    ensures r.Some? ==> r.value >= 0.0
  {
    var whole := BeforeFirst(t, '.');
    if whole == [] || !AllDigits(whole) then None
    else if |whole| == |t| then Some(NumeralValue(whole) as real)
    else
      var frac := t[|whole| + 1..];
      if frac == [] || !AllDigits(frac) then None
      else Some(DecimalOf(whole, frac))
  }

  /** The loop that converts each capture and skips the ones that fail. */
  function Convert(cs: seq<string>): (vs: seq<real>)
    ensures |vs| <= |cs|
    ensures forall k :: 0 <= k < |vs| ==> vs[k] >= 0.0
    ensures (forall k :: 0 <= k < |cs| ==> DecimalValue(StripCommas(cs[k])).Some?) ==>
      |vs| == |cs| && forall k :: 0 <= k < |cs| ==> vs[k] == DecimalValue(StripCommas(cs[k])).value
  {
    if cs == [] then []
    else
      var rest := Convert(cs[1..]);
      match DecimalValue(StripCommas(cs[0]))
      case Some(v) => [v] + rest
      case None => rest
  }

  function Max(xs: seq<real>): (m: real)
    requires xs != []
    ensures m in xs
    ensures forall k :: 0 <= k < |xs| ==> xs[k] <= m
  {
    if |xs| == 1 then xs[0]
    else
      var rest := Max(xs[1..]);
      if xs[0] >= rest then xs[0] else rest
  }

  /** `parse_amount`: the largest amount that follows a currency marker, or
      `None` when the text holds no such amount. */
  function ParseAmount(text: Option<string>): (r: Option<real>)
    ensures r.Some? ==> r.value >= 0.0
  {
    var matches := Captures(OrEmpty(text), 0);
    if matches == [] then None
    else
      var nums := Convert(matches);
      if nums == [] then None else Some(Max(nums))
  }

  // ---- properties ----

  lemma {:induction false} StripCommasAppend(a: string, b: string)
    ensures StripCommas(a + b) == StripCommas(a) + StripCommas(b)
    decreases |a|
  {
    if a == [] {
      assert a + b == b;
    } else {
      assert (a + b)[0] == a[0] && (a + b)[1..] == a[1..] + b;
      StripCommasAppend(a[1..], b);
      if a[0] != ',' {
        assert [a[0]] + (StripCommas(a[1..]) + StripCommas(b)) == ([a[0]] + StripCommas(a[1..])) + StripCommas(b);
      }
    }
  }

  /** Removing the commas keeps every other character, as often as it
      occurs, and shortens the text by the number of commas. */
  lemma {:induction false} StripCommasCount(c: string)
    ensures multiset(StripCommas(c)) == multiset(c)[',' := 0]
    ensures |StripCommas(c)| == |c| - multiset(c)[',']
    decreases |c|
  {
    if c != [] {
      StripCommasCount(c[1..]);
      assert c == [c[0]] + c[1..];
    }
  }

  lemma {:induction false} StripCommasKeeps(a: string)
    requires ',' !in a
    ensures StripCommas(a) == a
    decreases |a|
  {
    if a != [] {
      StripCommasKeeps(a[1..]);
      assert a == [a[0]] + a[1..];
    }
  }

  lemma {:induction false} StripCommasOfRun(a: string)
    requires a != [] && IsDigit(a[0])
    requires forall t :: 0 <= t < |a| ==> IsDigitOrComma(a[t])
    ensures StripCommas(a) != [] && AllDigits(StripCommas(a))
    decreases |a|
  {
    if |a| > 1 && IsDigit(a[1]) {
      StripCommasOfRun(a[1..]);
    } else if |a| > 1 {
      DigitsOnlyAfterCommaRun(a[1..]);
    }
  }

  lemma {:induction false} DigitsOnlyAfterCommaRun(a: string)
    requires forall t :: 0 <= t < |a| ==> IsDigitOrComma(a[t])
    ensures AllDigits(StripCommas(a))
    decreases |a|
  {
    if a != [] { DigitsOnlyAfterCommaRun(a[1..]); }
  }

  lemma {:induction false} BeforeFirstAppend(a: string, b: string, sep: char)
    requires sep !in a
    requires b == [] || b[0] == sep
    ensures BeforeFirst(a + b, sep) == a
    decreases |a|
  {
    if a == [] {
      assert a + b == b;
    } else {
      assert (a + b)[0] == a[0] && (a + b)[1..] == a[1..] + b;
      BeforeFirstAppend(a[1..], b, sep);
    }
  }

  /** `float` of a numeral is its value, and `float` of a numeral, a period
      and more digits is the decimal they denote. */
  lemma DecimalOfNumerals(w: string, f: string)
    requires w != [] && AllDigits(w) && AllDigits(f)
    ensures DecimalValue(w) == Some(NumeralValue(w) as real)
    ensures f != [] ==> DecimalValue(w + "." + f) == Some(DecimalOf(w, f))
  {
    assert '.' !in w by {
      forall t | 0 <= t < |w| ensures w[t] != '.' { assert IsDigit(w[t]); }
    }
    BeforeFirstAppend(w, [], '.');
    assert w + [] == w;
    if f != [] {
      var t := w + "." + f;
      BeforeFirstAppend(w, "." + f, '.');
      assert t == w + ("." + f);
      assert BeforeFirst(t, '.') == w;
      assert t[|w| + 1..] == f;
    }
  }

  /** A numeral denoting `x` converts to `x`. */
  lemma NumeralReadsAs(a: string, x: nat)
    requires a != [] && AllDigits(a) && NumeralValue(a) == x
    ensures DecimalValue(a) == Some(x as real)
  {
    DecimalOfNumerals(a, []);
  }

  /** Numerals denoting `x` and `y`, the second `k` digits long, joined by a
      period convert to `x + y / 10^k`. */
  lemma DecimalReadsAs(a: string, b: string, x: nat, y: nat, k: nat)
    requires a != [] && AllDigits(a) && b != [] && AllDigits(b) && |b| == k
    requires NumeralValue(a) == x && NumeralValue(b) == y
    ensures DecimalValue(a + "." + b) == Some(x as real + Scaled(y, k))
  {
    DecimalOfNumerals(a, b);
  }

  /** A zero-padded numeral converts back to the number written. */
  lemma DecimalOfPad(x: nat, w: nat)
    requires 1 <= w && x < Pow10(w)
    ensures DecimalValue(Pad(x, w)) == Some(x as real)
  {
    NumeralOfPad(x, w);
    NumeralReadsAs(Pad(x, w), x);
  }

  /** Zero-padded numerals joined by a period convert back to the decimal
      written: `x.y` with `k` fraction digits reads as `x + y / 10^k`. */
  lemma DecimalOfPads(x: nat, w: nat, y: nat, k: nat)
    requires 1 <= w && x < Pow10(w) && 1 <= k && y < Pow10(k)
    ensures DecimalValue(Pad(x, w) + "." + Pad(y, k)) == Some(x as real + Scaled(y, k))
  {
    NumeralOfPad(x, w);
    NumeralOfPad(y, k);
    DecimalReadsAs(Pad(x, w), Pad(y, k), x, y, k);
  }

  /** The number a capture stands for: its whole part with the commas
      dropped, plus the fraction digits over the matching power of ten. */
  function CaptureValue(m: Match): real
    requires WellShaped(m)
  {
    DigitsOnlyAfterCommaRun(m.whole);
    if m.fraction == [] then NumeralValue(StripCommas(m.whole)) as real
    else DecimalOf(StripCommas(m.whole), m.fraction[1..])
  }

  /** Dropping the commas of a capture leaves a numeral followed by the
      fraction as written. */
  lemma CaptureStripped(m: Match)
    requires WellShaped(m)
    ensures StripCommas(m.whole) != [] && AllDigits(StripCommas(m.whole))
    ensures StripCommas(m.Capture()) == StripCommas(m.whole) + m.fraction
  {
    StripCommasAppend(m.whole, m.fraction);
    StripCommasKeeps(m.fraction);
    StripCommasOfRun(m.whole);
  }

  /** Every capture converts, to the number it stands for, so the ValueError
      branch of the conversion loop is never taken. */
  lemma CaptureConverts(m: Match)
    requires WellShaped(m)
    ensures DecimalValue(StripCommas(m.Capture())) == Some(CaptureValue(m))
  {
    CaptureStripped(m);
    if m.fraction == [] {
      WholeCaptureConverts(m, StripCommas(m.whole));
    } else {
      FractionCaptureConverts(m, StripCommas(m.whole), m.fraction[1..]);
    }
  }

  /** A capture without a fraction reads as its numeral. */
  lemma WholeCaptureConverts(m: Match, w: string)
    requires WellShaped(m) && m.fraction == []
    requires w == StripCommas(m.whole) && w != [] && AllDigits(w)
    requires StripCommas(m.Capture()) == w + m.fraction
    ensures DecimalValue(StripCommas(m.Capture())) == Some(CaptureValue(m))
  {
    assert w + m.fraction == w;
    DecimalOfNumerals(w, []);
  }

  /** A capture with a fraction reads as its numeral plus the fraction digits
      over the matching power of ten. */
  lemma FractionCaptureConverts(m: Match, w: string, f: string)
    requires WellShaped(m) && m.fraction != [] && f == m.fraction[1..]
    requires w == StripCommas(m.whole) && w != [] && AllDigits(w)
    requires StripCommas(m.Capture()) == w + m.fraction
    ensures DecimalValue(StripCommas(m.Capture())) == Some(CaptureValue(m))
  {
    assert w + m.fraction == w + "." + f by {
      assert m.fraction == "." + f;
    }
    assert CaptureValue(m) == DecimalOf(w, f);
    DecimalOfNumerals(w, f);
  }

  lemma {:induction false} CapturesConvert(s: string, i: nat)
    ensures |Convert(Captures(s, i))| == |Captures(s, i)|
    decreases |s| - i
  {
    if i < |s| {
      match MatchAt(s, i)
      case Some(m) =>
        CaptureConverts(m);
        CapturesConvert(s, m.end);
        assert ([m.Capture()] + Captures(s, m.end))[1..] == Captures(s, m.end);
      case None =>
        CapturesConvert(s, i + 1);
    }
  }

  lemma {:induction false} CapturesFindMatch(s: string, i: nat)
    requires Captures(s, i) != []
    ensures exists j :: i <= j < |s| && MatchAt(s, j).Some?
    decreases |s| - i
  {
    assert i < |s|;
    if MatchAt(s, i).None? {
      assert Captures(s, i + 1) == Captures(s, i);
      CapturesFindMatch(s, i + 1);
    }
  }

  lemma {:induction false} MatchYieldsCapture(s: string, i: nat, j: nat)
    requires i <= j < |s| && MatchAt(s, j).Some?
    ensures Captures(s, i) != []
    decreases j - i
  {
    if MatchAt(s, i).None? { MatchYieldsCapture(s, i + 1, j); }
  }

  /** The first characters a match needs at `j`: the first character of a
      marker, and for "Rs" its second one too. */
  predicate CanStartMatch(s: string, j: nat)
  {
    j < |s| &&
    (s[j] == RUPEE_SIGN || IsLetterI(s[j]) || (IsLetterR(s[j]) && j + 1 < |s| && IsLetterS(s[j + 1])))
  }

  lemma MatchStart(s: string, j: nat)
    ensures MatchAt(s, j).Some? ==> CanStartMatch(s, j)
  {
  }

  /** Whitespace is not a letter or sign a marker is made of. */
  lemma SpaceStartsNothing(c: char)
    requires IsSpace(c)
    ensures c != RUPEE_SIGN && !IsLetterI(c) && !IsLetterR(c) && !IsLetterS(c)
  {
  }

  /** Inside a marker no match starts: only the 'R' of "INR" begins a marker,
      and the marker is followed by something other than an 'S'. */
  lemma InsideMarker(s: string, p: nat, m: nat, j: nat)
    requires IsMarker(s, p, m) && p < j < m
    requires m < |s| && !IsLetterS(s[m])
    ensures !CanStartMatch(s, j)
  {
  }

  /**
   * No match starts strictly inside another. After its first character a
   * match covers only the rest of its marker, whitespace, digits, commas and
   * a period; none of these starts a marker, except the 'R' of "INR", and
   * that one is followed by whitespace or a digit rather than an 'S'.
   */
  lemma NoMatchInside(s: string, p: nat, j: nat)
    requires MatchAt(s, p).Some? && p < j
    ensures j < MatchAt(s, p).value.end ==> MatchAt(s, j).None?
  {
    var m := MarkerEnd(s, p).value;
    var d := SpacesEnd(s, m);
    SpacesEndSpec(s, m);
    var k := DigitRunEnd(s, d + 1);
    var e := FractionEnd(s, k);
    assert MatchAt(s, p).value.end == e;
    MatchStart(s, j);
    if j < e {
      if j < m {
        if d == m { assert IsDigit(s[m]); } else { SpaceStartsNothing(s[m]); }
        InsideMarker(s, p, m, j);
      } else if j < d {
        SpaceStartsNothing(s[j]);
      } else if j < k {
        assert IsDigitOrComma(s[j]);
      } else {
        assert s[j] == '.' || IsDigit(s[j]);
      }
      assert !CanStartMatch(s, j);
    }
  }

  /** Every capture `finditer` yields from `i` on is the capture of a match
      that starts at or after `i`. */
  lemma {:induction false} CapturesSound(s: string, i: nat)
    ensures forall c :: c in Captures(s, i) ==>
      (exists j :: i <= j < |s| && MatchAt(s, j).Some? && c == MatchAt(s, j).value.Capture())
    decreases |s| - i
  {
    if i < |s| {
      match MatchAt(s, i)
      case Some(m) =>
        CapturesSound(s, m.end);
      case None =>
        CapturesSound(s, i + 1);
    }
  }

  /** One step of the scan: a match at `i` is yielded and the scan resumes
      where it ends; otherwise the scan moves on by one position. */
  lemma CapturesStep(s: string, i: nat)
    requires i < |s|
    ensures MatchAt(s, i).Some? ==> Captures(s, i) == [MatchAt(s, i).value.Capture()] + Captures(s, MatchAt(s, i).value.end)
    ensures MatchAt(s, i).None? ==> Captures(s, i) == Captures(s, i + 1)
  {
  }

  /** `finditer` resumed at `i` yields the capture of every match that starts
      at or after `i`: the scan never jumps over the start of a match. */
  lemma {:induction false} CapturesComplete(s: string, i: nat, j: nat)
    requires i <= j < |s| && MatchAt(s, j).Some?
    ensures MatchAt(s, j).value.Capture() in Captures(s, i)
    decreases |s| - i
  {
    CapturesStep(s, i);
    if MatchAt(s, i).None? {
      CapturesComplete(s, i + 1, j);
    } else if i < j {
      NoMatchInside(s, i, j);
      CapturesComplete(s, MatchAt(s, i).value.end, j);
    }
  }

  /** A match starts at `j`, and its capture stands for `v`. */
  predicate MatchWorth(s: string, j: nat, v: real)
  {
    j < |s| && MatchAt(s, j).Some? && v == CaptureValue(MatchAt(s, j).value)
  }

  /** Each capture of the text converts, to the value of some match. */
  lemma CapturesValued(s: string, cs: seq<string>)
    requires cs == Captures(s, 0)
    ensures forall k :: 0 <= k < |cs| ==>
      DecimalValue(StripCommas(cs[k])).Some? && exists j :: MatchWorth(s, j, DecimalValue(StripCommas(cs[k])).value)
  {
    CapturesSound(s, 0);
    forall k | 0 <= k < |cs|
      ensures DecimalValue(StripCommas(cs[k])).Some? && exists j :: MatchWorth(s, j, DecimalValue(StripCommas(cs[k])).value)
    {
      assert cs[k] in cs;
      var j :| 0 <= j < |s| && MatchAt(s, j).Some? && cs[k] == MatchAt(s, j).value.Capture();
      CaptureConverts(MatchAt(s, j).value);
      assert MatchWorth(s, j, DecimalValue(StripCommas(cs[k])).value);
    }
  }

  /** The amount `parse_amount` returns is the value of some match. */
  lemma ParseAmountAttained(text: Option<string>)
    requires ParseAmount(text).Some?
    ensures exists j :: MatchWorth(OrEmpty(text), j, ParseAmount(text).value)
  {
    var s := OrEmpty(text);
    var cs := Captures(s, 0);
    CapturesValued(s, cs);
    var vs := Convert(cs);
    assert ParseAmount(text) == Some(Max(vs));
    var k :| 0 <= k < |vs| && vs[k] == Max(vs);
    assert vs[k] == DecimalValue(StripCommas(cs[k])).value;
  }

  /** No match in the text is worth more than what `parse_amount` returns:
      the maximum is taken over every match `finditer` finds. */
  lemma ParseAmountBounds(text: Option<string>, j: nat)
    requires j < |OrEmpty(text)| && MatchAt(OrEmpty(text), j).Some?
    ensures ParseAmount(text).Some?
    ensures CaptureValue(MatchAt(OrEmpty(text), j).value) <= ParseAmount(text).value
  {
    var s := OrEmpty(text);
    var cs := Captures(s, 0);
    var m := MatchAt(s, j).value;
    CapturesValued(s, cs);
    CapturesComplete(s, 0, j);
    CaptureConverts(m);
    var k :| 0 <= k < |cs| && cs[k] == m.Capture();
    var vs := Convert(cs);
    assert |vs| == |cs| && vs[k] == CaptureValue(m);
    assert ParseAmount(text) == Some(Max(vs));
    assert vs[k] <= Max(vs);
  }

  /**
   * `parse_amount` returns `None` exactly when no marker-plus-numeral match
   * occurs anywhere in the text (a missing text counting as ""); otherwise it
   * returns the largest of the converted captures, which is one of them.
   */
  lemma ParseAmountSpec(text: Option<string>)
    ensures ParseAmount(text).None? <==> !HasMatch(OrEmpty(text))
    ensures ParseAmount(text).Some? ==>
      var vs := Convert(Captures(OrEmpty(text), 0));
      ParseAmount(text).value in vs && forall k :: 0 <= k < |vs| ==> vs[k] <= ParseAmount(text).value
  {
    var s := OrEmpty(text);
    CapturesConvert(s, 0);
    if Captures(s, 0) != [] {
      CapturesFindMatch(s, 0);
    }
    if HasMatch(s) {
      var j :| 0 <= j < |s| && MatchAt(s, j).Some?;
      MatchYieldsCapture(s, 0, j);
    }
  }

  /** `parse_amount` returns `None` exactly when the pattern matches
      nowhere in the text. */
  lemma ParseAmountPattern(text: Option<string>)
    ensures ParseAmount(text).None? <==>
      !exists i: nat, m: nat, d: nat, k: nat, e: nat :: PatternAt(OrEmpty(text), i, m, d, k, e)
  {
    var s := OrEmpty(text);
    ParseAmountSpec(text);
    if HasMatch(s) {
      var i :| 0 <= i < |s| && MatchAt(s, i).Some?;
      MatchAtSound(s, i);
    }
    forall i: nat, m: nat, d: nat, k: nat, e: nat | PatternAt(s, i, m, d, k, e) ensures HasMatch(s) {
      MatchAtComplete(s, i, m, d, k, e);
    }
  }

  /** Digits standing alone are never an amount: without a currency marker
      anywhere, the result is `None`. */
  lemma NoMarkerNoAmount(s: string)
    requires forall i :: 0 <= i < |s| ==> MarkerEnd(s, i).None?
    ensures ParseAmount(Some(s)) == None
  {
    ParseAmountSpec(Some(s));
  }

  /** In particular a text of digits, commas, periods and spaces has no amount. */
  lemma PlainNumberNoAmount(s: string)
    requires forall k :: 0 <= k < |s| ==> IsDigitOrComma(s[k]) || s[k] == '.' || s[k] == ' '
    ensures ParseAmount(Some(s)) == None
  {
    NoMarkerNoAmount(s);
  }
}
