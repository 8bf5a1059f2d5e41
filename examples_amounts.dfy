/**
 * Worked inputs of the amount extractor, each showing one rule of the
 * pattern: the fraction keeps at most two digits, the Rs marker is found
 * inside a word, and the largest of several amounts wins.
 */
module AmountExamples {
  import opened Common
  import opened Text
  import opened Amounts

  /** Reduces a worked example to its captures and their values. */
  lemma ParseAmountFrom(s: string, cs: seq<string>, vs: seq<real>)
    requires Captures(s, 0) == cs && cs != []
    requires Convert(cs) == vs && vs != []
    ensures ParseAmount(Some(s)) == Some(Max(vs))
  {
  }

  lemma ConvertOne(c: string, v: real)
    requires DecimalValue(StripCommas(c)) == Some(v)
    ensures Convert([c]) == [v]
  {
    assert [c][1..] == [];
  }

  lemma ConvertTwo(c: string, v: real, d: string, w: real)
    requires DecimalValue(StripCommas(c)) == Some(v)
    requires DecimalValue(StripCommas(d)) == Some(w)
    ensures Convert([c, d]) == [v, w]
  {
    ConvertOne(d, w);
    assert [c, d][1..] == [d];
  }

  lemma RunOf1234()
    ensures DigitRunEnd("Rs 1234.567", 4) == 7
  {
    var s := "Rs 1234.567";
    assert s[7] == '.' && DigitRunEnd(s, 7) == 7;
    assert DigitRunEnd(s, 6) == 7 && DigitRunEnd(s, 5) == 7;
  }

  lemma MatchTruncatedFraction()
    ensures MatchAt("Rs 1234.567", 0) == Some(Match(10, "1234", ".56"))
  {
    var s := "Rs 1234.567";
    assert MarkerEnd(s, 0) == Some(2);
    assert s[2] == ' ' && s[3] == '1';
    assert SpacesEnd(s, 2) == 3;
    RunOf1234();
    assert FractionEnd(s, 7) == 10;
    assert s[3..7] == "1234" && s[7..10] == ".56";
  }

  lemma NothingAfterFraction()
    ensures Captures("Rs 1234.567", 10) == []
  {
    var s := "Rs 1234.567";
    assert |s| == 11 && s[10] == '7';
    assert MarkerEnd(s, 10) == None;
    assert MatchAt(s, 10) == None;
    assert Captures(s, 11) == [];
  }

  lemma CapturesTruncatedFraction()
    ensures Captures("Rs 1234.567", 0) == ["1234.56"]
  {
    var s := "Rs 1234.567";
    MatchTruncatedFraction();
    NothingAfterFraction();
    assert Captures(s, 0) == [Match(10, "1234", ".56").Capture()] + Captures(s, 10);
    assert Match(10, "1234", ".56").Capture() == "1234.56";
  }

  lemma Numerals()
    ensures AllDigits("1234") && NumeralValue("1234") == 1234
    ensures AllDigits("56") && NumeralValue("56") == 56
  {
    assert "1234"[..3] == "123" && "123"[..2] == "12" && "12"[..1] == "1" && "1"[..0] == "";
    assert NumeralValue("1") == 1;
    assert NumeralValue("12") == 12;
    assert NumeralValue("123") == 123;
    assert "56"[..1] == "5";
  }

  lemma WholePart()
    ensures BeforeFirst("1234.56", '.') == "1234"
  {
    BeforeFirstAppend("1234", ".56", '.');
    assert "1234" + ".56" == "1234.56";
  }

  lemma Decimal1234_56()
    ensures DecimalValue("1234.56") == Some(1234.56)
  {
    Numerals();
    WholePart();
    assert "1234.56"[5..] == "56";
    assert Pow10(2) == 100;
  }

  lemma ValueOf1234_56()
    ensures DecimalValue(StripCommas("1234.56")) == Some(1234.56)
  {
    StripCommasKeeps("1234.56");
    Decimal1234_56();
  }

  /** "Rs 1234.567" yields 1234.56: the third decimal is not part of the amount. */
  lemma FractionKeepsTwoDigits()
    ensures ParseAmount(Some("Rs 1234.567")) == Some(1234.56)
  {
    CapturesTruncatedFraction();
    ValueOf1234_56();
    ConvertOne("1234.56", 1234.56);
    ParseAmountFrom("Rs 1234.567", ["1234.56"], [1234.56]);
  }

  lemma MatchInsideWord()
    ensures MatchAt("hours 5", 3) == Some(Match(7, "5", ""))
  {
    var s := "hours 5";
    assert MarkerEnd(s, 3) == Some(5);
    assert s[5] == ' ' && s[6] == '5';
    assert SpacesEnd(s, 5) == 6;
    assert DigitRunEnd(s, 7) == 7;
    assert FractionEnd(s, 7) == 7;
    assert s[6..7] == "5" && s[7..7] == "";
  }

  lemma CapturesInsideWord()
    ensures Captures("hours 5", 0) == ["5"]
  {
    var s := "hours 5";
    MatchInsideWord();
    assert Captures(s, 7) == [];
    assert Match(7, "5", "").Capture() == "5";
    assert Captures(s, 3) == ["5"];
    assert MarkerEnd(s, 2) == None && MatchAt(s, 2) == None;
    assert Captures(s, 2) == ["5"];
    assert MarkerEnd(s, 1) == None && MatchAt(s, 1) == None;
    assert Captures(s, 1) == ["5"];
    assert MarkerEnd(s, 0) == None && MatchAt(s, 0) == None;
  }

  /** "hours 5" yields 5: the marker "rs" ends the word "hours". */
  lemma MarkerInsideWord()
    ensures ParseAmount(Some("hours 5")) == Some(5.0)
  {
    CapturesInsideWord();
    Decimal5();
    ConvertOne("5", 5.0);
    ParseAmountFrom("hours 5", ["5"], [5.0]);
  }

  lemma Decimal5()
    ensures DecimalValue(StripCommas("5")) == Some(5.0)
  {
    StripCommasKeeps("5");
    assert BeforeFirst("5", '.') == "5";
    assert "5"[..0] == "";
    assert NumeralValue("5") == 5;
  }

  lemma RunOf100()
    ensures DigitRunEnd("INR 100, INR 2,500", 5) == 8
  {
    var s := "INR 100, INR 2,500";
    assert s[8] == ' ' && DigitRunEnd(s, 8) == 8;
    assert DigitRunEnd(s, 7) == 8 && DigitRunEnd(s, 6) == 8;
  }

  lemma FirstOfTwo()
    ensures MatchAt("INR 100, INR 2,500", 0) == Some(Match(8, "100,", ""))
  {
    var s := "INR 100, INR 2,500";
    assert MarkerEnd(s, 0) == Some(3);
    assert s[3] == ' ' && s[4] == '1';
    assert SpacesEnd(s, 3) == 4;
    RunOf100();
    assert FractionEnd(s, 8) == 8;
    assert s[4..8] == "100," && s[8..8] == "";
  }

  lemma RunOf2500()
    ensures DigitRunEnd("INR 100, INR 2,500", 14) == 18
  {
    var s := "INR 100, INR 2,500";
    assert |s| == 18 && DigitRunEnd(s, 18) == 18;
    assert DigitRunEnd(s, 17) == 18 && DigitRunEnd(s, 16) == 18 && DigitRunEnd(s, 15) == 18;
  }

  lemma SecondOfTwo()
    ensures MatchAt("INR 100, INR 2,500", 9) == Some(Match(18, "2,500", ""))
  {
    var s := "INR 100, INR 2,500";
    assert MarkerEnd(s, 9) == Some(12);
    assert s[12] == ' ' && s[13] == '2';
    assert SpacesEnd(s, 12) == 13;
    RunOf2500();
    assert FractionEnd(s, 18) == 18;
    assert s[13..18] == "2,500" && s[18..18] == "";
  }

  lemma LastOfTwo()
    ensures Captures("INR 100, INR 2,500", 9) == ["2,500"]
  {
    var s := "INR 100, INR 2,500";
    SecondOfTwo();
    assert Captures(s, 18) == [];
    assert Match(18, "2,500", "").Capture() == "2,500";
  }

  lemma TailOfTwo()
    ensures Captures("INR 100, INR 2,500", 8) == ["2,500"]
  {
    var s := "INR 100, INR 2,500";
    assert s[8] == ' ';
    assert MarkerEnd(s, 8) == None;
    assert MatchAt(s, 8) == None;
    assert Captures(s, 8) == Captures(s, 9);
    LastOfTwo();
  }

  lemma CapturesTwoAmounts()
    ensures Captures("INR 100, INR 2,500", 0) == ["100,", "2,500"]
  {
    FirstOfTwo();
    TailOfTwo();
    assert Match(8, "100,", "").Capture() == "100,";
  }

  lemma Strip100()
    ensures StripCommas("100,") == "100"
  {
    assert "100,"[1..] == "00," && "00,"[1..] == "0," && "0,"[1..] == ",";
    assert ","[1..] == [];
  }

  lemma Decimal100()
    ensures DecimalValue("100") == Some(100.0)
  {
    assert "100"[..2] == "10" && "10"[..1] == "1" && "1"[..0] == "";
    assert NumeralValue("100") == 100;
    assert BeforeFirst("100", '.') == "100";
  }

  lemma Strip2500()
    ensures StripCommas("2,500") == "2500"
  {
    assert "2,500"[1..] == ",500" && ",500"[1..] == "500";
    StripCommasKeeps("500");
  }

  lemma Decimal2500()
    ensures DecimalValue("2500") == Some(2500.0)
  {
    assert "2500"[..3] == "250" && "250"[..2] == "25" && "25"[..1] == "2" && "2"[..0] == "";
    assert NumeralValue("2500") == 2500;
    assert BeforeFirst("2500", '.') == "2500";
  }

  lemma ConvertTwoAmounts()
    ensures Convert(["100,", "2,500"]) == [100.0, 2500.0]
  {
    Strip100();
    Decimal100();
    Strip2500();
    Decimal2500();
    ConvertTwo("100,", 100.0, "2,500", 2500.0);
  }

  /** Thousands separators are dropped and the larger amount is reported,
      though it comes second. */
  lemma LargestAmountWins()
    ensures ParseAmount(Some("INR 100, INR 2,500")) == Some(2500.0)
  {
    CapturesTwoAmounts();
    ConvertTwoAmounts();
    assert [100.0, 2500.0][1..] == [2500.0];
    ParseAmountFrom("INR 100, INR 2,500", ["100,", "2,500"], [100.0, 2500.0]);
  }
}
