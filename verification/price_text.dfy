/**
 * JavaScript numbers as far as the storefront can observe them, and the
 * price extraction `text.match(/[\d,]+\.?\d*\/g)[0]`, commas removed, then
 * `parseFloat`, that three source files repeat.
 */
module JsNum {

  /** A JavaScript number: exact when finite; `NaN` compares false with everything. */
  datatype Num = Finite(value: real) | NaN
  {
    predicate Ge(bound: real)
    {
      Finite? && value >= bound
    }

    predicate Le(bound: real)
    {
      Finite? && value <= bound
    }

    predicate Gt(bound: real)
    {
      Finite? && value > bound
    }

    /** `this >= other`: false as soon as either side is NaN. */
    predicate AtLeast(other: Num)
    {
      Finite? && other.Finite? && value >= other.value
    }

    /** `this <= other`: false as soon as either side is NaN. */
    predicate AtMost(other: Num)
    {
      Finite? && other.Finite? && value <= other.value
    }

    /** `x || fallback`: zero and NaN are falsy. */
    function OrElse(fallback: real): (r: real)
      ensures Finite? && value != 0.0 ==> r == value
      ensures NaN? || value == 0.0 ==> r == fallback
    {
      if Finite? && value != 0.0 then value else fallback
    }
  }
}

module PriceText {
  import opened JsNum
  import opened Text
  import opened Wrappers
  import opened Seqs

  predicate InRun(c: char)
  {
    IsDigit(c) || c == ','
  }

  /** Length of the longest prefix of `s` whose characters satisfy `p`. */
  function RunLength(s: string, p: char -> bool): (n: nat)
    ensures n <= |s|
    ensures forall k :: 0 <= k < n ==> p(s[k])
    ensures n < |s| ==> !p(s[n])
  {
    if |s| > 0 && p(s[0]) then 1 + RunLength(s[1..], p) else 0
  }

  /** Index of the first digit or comma, if any. */
  function FirstRunStart(s: string): (r: Option<nat>)
    ensures r.None? <==> forall k :: 0 <= k < |s| ==> !InRun(s[k])
    ensures r.Some? ==> r.value < |s| && InRun(s[r.value])
    ensures r.Some? ==> forall k :: 0 <= k < r.value ==> !InRun(s[k])
  {
    if |s| == 0 then None
    else if InRun(s[0]) then Some(0)
    else
      match FirstRunStart(s[1..])
      case None => None
      case Some(i) => Some(i + 1)
  }

  /** `m` has the shape `[\d,]+\.?\d*`. */
  ghost predicate PriceShaped(m: string)
  {
    exists n :: 1 <= n <= |m| && PriceShapedAt(m, n)
  }

  /** `m` is a run of `n` digits or commas followed by `\.?\d*`. */
  ghost predicate PriceShapedAt(m: string, n: int)
  {
    && 1 <= n <= |m|
    && (forall k :: 0 <= k < n ==> InRun(m[k]))
    && (n == |m| || (m[n] == '.' && forall k :: n < k < |m| ==> IsDigit(m[k])))
  }

  /**
   * `m` is what the greedy regex `[\d,]+\.?\d*` matches at the start of
   * `rest`: the longest price-shaped prefix.
   */
  ghost predicate LongestShapedPrefix(rest: string, m: string)
  {
    && m <= rest
    && PriceShaped(m)
    && forall j :: |m| < j <= |rest| ==> !PriceShaped(rest[..j])
  }

  /** The greedy match at the start of `rest`. */
  function MatchFrom(rest: string): (m: string)
    requires |rest| > 0 && InRun(rest[0])
    ensures LongestShapedPrefix(rest, m)
  {
    GreedyFacts(rest);
    Greedy(rest)
  }

  /** The run of digits and commas, then a point and its digits when a point follows. */
  function Greedy(rest: string): string
  {
    var n := RunLength(rest, InRun);
    if n < |rest| && rest[n] == '.' then rest[..n + 1 + RunLength(rest[n + 1..], IsDigit)]
    else rest[..n]
  }

  lemma GreedyFacts(rest: string)
    requires |rest| > 0 && InRun(rest[0])
    ensures LongestShapedPrefix(rest, Greedy(rest))
  {
    var n := RunLength(rest, InRun);
    assert PriceShapedAt(Greedy(rest), n);
    forall j | |Greedy(rest)| < j <= |rest| ensures !PriceShaped(rest[..j]) {
      NotShapedBeyond(rest, j);
    }
  }

  /** No prefix longer than the greedy match is price-shaped. */
  lemma NotShapedBeyond(rest: string, j: int)
    requires |rest| > 0 && InRun(rest[0])
    requires |Greedy(rest)| < j <= |rest|
    ensures !PriceShaped(rest[..j])
  {
    var n := RunLength(rest, InRun);
    var p := rest[..j];
    forall n' | 1 <= n' <= |p| ensures !PriceShapedAt(p, n') {
      if n' > n {
        assert p[n] == rest[n] && !InRun(rest[n]);
      } else if n' < n {
        assert p[n'] == rest[n'] && InRun(rest[n']);
      } else if n < |rest| && rest[n] == '.' {
        var f := RunLength(rest[n + 1..], IsDigit);
        assert p[n + 1 + f] == rest[n + 1..][f] && !IsDigit(rest[n + 1..][f]);
      } else {
        assert p[n] == rest[n];
      }
    }
  }

  /** `m` occurs in `s` at `i`, and no digit or comma occurs before `i`. */
  ghost predicate FirstOccurrence(s: string, i: int, m: string)
  {
    && 0 <= i <= |s| - |m|
    && s[i..i + |m|] == m
    && forall k :: 0 <= k < i ==> !InRun(s[k])
  }

  /**
   * The first match of the global regex `[\d,]+\.?\d*`: it starts at the
   * first digit or comma, the earliest place a match can start, and is the
   * longest price-shaped text there.
   */
  function FirstMatch(s: string): (r: Option<string>)
    ensures r.None? <==> forall k :: 0 <= k < |s| ==> !InRun(s[k])
    ensures r.Some? ==> exists i :: FirstOccurrence(s, i, r.value) && LongestShapedPrefix(s[i..], r.value)
  {
    match FirstRunStart(s)
    case None => None
    case Some(i) =>
      var m := MatchFrom(s[i..]);
      assert FirstOccurrence(s, i, m);
      Some(m)
  }

  predicate NotComma(c: char)
  {
    c != ','
  }

  /**
   * `m.replace(/,/g, "")`: the characters of `m` other than commas, in
   * order; `StripCommasIsFilter` states it as a filter.
   */
  function StripCommas(m: string): (r: string)
    ensures forall c :: c in r <==> c in m && c != ','
    ensures (forall k :: 0 <= k < |m| ==> InRun(m[k])) ==> AllDigits(r)
  {
    DropCommasKept(m);
    KeptFacts(m, NotComma);
    DropCommas(m)
  }

  /** The recursion behind `StripCommas`, dropping one comma at a time. */
  function DropCommas(m: string): string
  {
    if |m| == 0 then ""
    else if m[0] == ',' then DropCommas(m[1..])
    else [m[0]] + DropCommas(m[1..])
  }

  lemma {:induction false} DropCommasKept(m: string)
    ensures DropCommas(m) == Kept(m, NotComma)
  {
    if |m| > 0 {
      DropCommasKept(m[1..]);
    }
  }

  lemma StripCommasIsFilter(m: string)
    ensures StripCommas(m) == Filter(m, NotComma)
  {
    DropCommasKept(m);
  }

  lemma StripCommasAppend(a: string, b: string)
    ensures StripCommas(a + b) == StripCommas(a) + StripCommas(b)
  {
    KeptAppend(a, b, NotComma);
    DropCommasKept(a + b);
    DropCommasKept(a);
    DropCommasKept(b);
  }

  lemma {:induction false} StripCommasWithout(s: string)
    requires forall k :: 0 <= k < |s| ==> s[k] != ','
    ensures StripCommas(s) == s
  {
    if |s| > 0 {
      StripCommasWithout(s[1..]);
      assert s == [s[0]] + s[1..];
    }
  }

  function Pow10(k: nat): (r: nat)
    ensures r >= 1
  {
    if k == 0 then 1 else 10 * Pow10(k - 1)
  }

  /** The value of the numeral with integer digits `whole` and fraction digits `fraction`. */
  function DecimalValue(whole: string, fraction: string): (v: real)
    requires AllDigits(whole) && AllDigits(fraction)
    ensures v >= 0.0
  {
    FractionNonNegative(DigitsValue(fraction), Pow10(|fraction|));
    DigitsValue(whole) as real + DigitsValue(fraction) as real / Pow10(|fraction|) as real
  }

  /**
   * `parseFloat` of text made of digits and points: the decimal value of its
   * leading numeral, or NaN when that holds no digit.
   */
  function ParseDecimal(t: string): (r: Num)
    requires forall k :: 0 <= k < |t| ==> IsDigit(t[k]) || t[k] == '.'
    ensures r.Finite? ==> r.value >= 0.0
    ensures (forall k :: 0 <= k < |t| ==> !IsDigit(t[k])) ==> r == NaN
  {
    var n := RunLength(t, IsDigit);
    var whole := t[..n];
    var frac := if n < |t| then t[n + 1..] else "";
    var f := RunLength(frac, IsDigit);
    var fracDigits := frac[..f];
    if n == 0 && f == 0 then NaN
    else Finite(DecimalValue(whole, fracDigits))
  }

  lemma FractionNonNegative(d: nat, p: nat)
    requires p >= 1
    ensures d as real / p as real >= 0.0
  {
  }

  /** A run of characters with `p` that stops where `rest` begins has the run's length. */
  lemma {:induction false} RunLengthOfPrefix(run: string, rest: string, p: char -> bool)
    requires forall k :: 0 <= k < |run| ==> p(run[k])
    requires rest == "" || !p(rest[0])
    ensures RunLength(run + rest, p) == |run|
  {
    if |run| == 0 {
      assert run + rest == rest;
    } else {
      RunLengthOfPrefix(run[1..], rest, p);
      assert (run + rest)[0] == run[0];
      assert (run + rest)[1..] == run[1..] + rest;
    }
  }

  /** Digits, then a point and more digits when `dot` holds: the text of a decimal numeral. */
  function Numeral(whole: string, dot: bool, fraction: string): string
  {
    whole + (if dot then "." + fraction else "")
  }

  /**
   * `parseFloat` reads digits, optionally followed by a point and more
   * digits, as the decimal they spell, and reads NaN when there is no digit.
   */
  lemma ParseDecimalOf(whole: string, dot: bool, fraction: string)
    requires AllDigits(whole) && AllDigits(fraction) && (dot || fraction == "")
    ensures forall k :: 0 <= k < |Numeral(whole, dot, fraction)| ==> IsDigit(Numeral(whole, dot, fraction)[k]) || Numeral(whole, dot, fraction)[k] == '.'
    ensures ParseDecimal(Numeral(whole, dot, fraction)) == if |whole| + |fraction| == 0 then NaN else Finite(DecimalValue(whole, fraction))
  {
    var tail := if dot then "." + fraction else "";
    var t := whole + tail;
    RunLengthOfPrefix(whole, tail, IsDigit);
    assert t[..|whole|] == whole;
    if dot {
      assert t[|whole| + 1..] == fraction;
      RunLengthOfPrefix(fraction, "", IsDigit);
      assert fraction + "" == fraction && fraction[..|fraction|] == fraction;
    } else {
      assert t == whole;
    }
  }

  lemma StripCommasShape(m: string)
    requires PriceShaped(m)
    ensures forall k :: 0 <= k < |StripCommas(m)| ==> IsDigit(StripCommas(m)[k]) || StripCommas(m)[k] == '.'
  {
    var n :| 1 <= n <= |m| && PriceShapedAt(m, n);
    forall k | 0 <= k < |StripCommas(m)|
      ensures IsDigit(StripCommas(m)[k]) || StripCommas(m)[k] == '.'
    {
      assert StripCommas(m)[k] in StripCommas(m);
      assert StripCommas(m)[k] in m;
    }
  }

  /** The number `parseFloat` reads from the first price-shaped run of `s`, or 0. */
  function MatchValue(s: string): (r: Num)
    ensures r.Finite? ==> r.value >= 0.0
    ensures (forall k :: 0 <= k < |s| ==> !InRun(s[k])) ==> r == Finite(0.0)
  {
    match FirstMatch(s)
    case None => Finite(0.0)
    case Some(m) =>
      StripCommasShape(m);
      ParseDecimal(StripCommas(m))
  }

  /**
   * `extractPrice` of the products route: empty or missing text is 0,
   * otherwise the value of the first match, or 0 when nothing matches;
   * `ExtractPriceOfMatch` gives the value of every match.
   */
  function ExtractPrice(priceText: string): (r: Num)
    ensures priceText == "" ==> r == Finite(0.0)
    ensures (forall k :: 0 <= k < |priceText| ==> !InRun(priceText[k])) ==> r == Finite(0.0)
    ensures r.Finite? ==> r.value >= 0.0
  {
    if priceText == "" then Finite(0.0) else MatchValue(priceText)
  }

  /**
   * The price of any text with a digit or comma. Split it as `lead`, with no
   * digit or comma, then the match, then `trail`: the match is a run of
   * digits and commas, and a point with the digits after it when the text
   * goes on with a point. Its commas are dropped and it reads as the decimal
   * it spells, or NaN when it holds no digit.
   */
  lemma ExtractPriceOfMatch(lead: string, run: string, dot: bool, fraction: string, trail: string)
    requires forall k :: 0 <= k < |lead| ==> !InRun(lead[k])
    requires |run| > 0 && forall k :: 0 <= k < |run| ==> InRun(run[k])
    requires AllDigits(fraction) && (dot || fraction == "")
    requires dot ==> trail == "" || !IsDigit(trail[0])
    requires !dot ==> trail == "" || (!InRun(trail[0]) && trail[0] != '.')
    ensures AllDigits(StripCommas(run))
    ensures ExtractPrice(lead + Numeral(run, dot, fraction) + trail)
         == if |StripCommas(run)| + |fraction| == 0 then NaN else Finite(DecimalValue(StripCommas(run), fraction))
  {
    var m := Numeral(run, dot, fraction);
    var s := lead + m + trail;
    var digits := StripCommas(run);
    FirstMatchOfSplit(lead, run, dot, fraction, trail);
    StripCommasOfMatch(run, dot, fraction);
    ParseDecimalOf(digits, dot, fraction);
    MatchValueOfMatch(s, m);
    assert ExtractPrice(s) == MatchValue(s);
    assert StripCommas(m) == Numeral(digits, dot, fraction);
  }

  /** The value read from a text is `parseFloat` of its first match without commas. */
  lemma MatchValueOfMatch(s: string, m: string)
    requires FirstMatch(s) == Some(m)
    ensures forall k :: 0 <= k < |StripCommas(m)| ==> IsDigit(StripCommas(m)[k]) || StripCommas(m)[k] == '.'
    ensures MatchValue(s) == ParseDecimal(StripCommas(m))
  {
    StripCommasShape(m);
  }

  /** The match of such a text is the run with its point and fraction. */
  lemma FirstMatchOfSplit(lead: string, run: string, dot: bool, fraction: string, trail: string)
    requires forall k :: 0 <= k < |lead| ==> !InRun(lead[k])
    requires |run| > 0 && forall k :: 0 <= k < |run| ==> InRun(run[k])
    requires AllDigits(fraction) && (dot || fraction == "")
    requires dot ==> trail == "" || !IsDigit(trail[0])
    requires !dot ==> trail == "" || (!InRun(trail[0]) && trail[0] != '.')
    ensures FirstMatch(lead + Numeral(run, dot, fraction) + trail) == Some(Numeral(run, dot, fraction))
  {
    var m := Numeral(run, dot, fraction);
    var s := lead + m + trail;
    GreedyOf(run, dot, fraction, trail);
    FirstRunStartAfter(lead, m + trail);
    assert s == lead + (m + trail);
    assert s[|lead|..] == m + trail;
  }

  /** Dropping the commas of the match leaves the run's digits, then the point and fraction untouched. */
  lemma StripCommasOfMatch(run: string, dot: bool, fraction: string)
    requires AllDigits(fraction)
    ensures StripCommas(Numeral(run, dot, fraction)) == Numeral(StripCommas(run), dot, fraction)
  {
    var tail := if dot then "." + fraction else "";
    StripCommasAppend(run, tail);
    if dot {
      StripCommasAppend(".", fraction);
      StripCommasWithout(".");
      StripCommasWithout(fraction);
    } else {
      StripCommasWithout("");
    }
  }

  /** The first digit or comma of `lead + rest` is the first of `rest`, when `lead` has none. */
  lemma FirstRunStartAfter(lead: string, rest: string)
    requires forall k :: 0 <= k < |lead| ==> !InRun(lead[k])
    requires |rest| > 0 && InRun(rest[0])
    ensures FirstRunStart(lead + rest) == Some(|lead|)
  {
    var s := lead + rest;
    assert s[|lead|] == rest[0];
    assert forall k :: 0 <= k < |lead| ==> s[k] == lead[k];
  }

  /** The greedy match of a run, an optional point and digits, then a trail that cannot extend it. */
  lemma GreedyOf(run: string, dot: bool, fraction: string, trail: string)
    requires |run| > 0 && forall k :: 0 <= k < |run| ==> InRun(run[k])
    requires AllDigits(fraction) && (dot || fraction == "")
    requires dot ==> trail == "" || !IsDigit(trail[0])
    requires !dot ==> trail == "" || (!InRun(trail[0]) && trail[0] != '.')
    ensures |Numeral(run, dot, fraction) + trail| > 0 && InRun((Numeral(run, dot, fraction) + trail)[0])
    ensures Greedy(Numeral(run, dot, fraction) + trail) == Numeral(run, dot, fraction)
  {
    var tail := if dot then "." + fraction else "";
    var rest := run + tail + trail;
    assert rest == run + (tail + trail);
    RunLengthOfPrefix(run, tail + trail, InRun);
    if dot {
      assert rest[|run|] == '.';
      assert rest[|run| + 1..] == fraction + trail;
      RunLengthOfPrefix(fraction, trail, IsDigit);
      assert rest[..|run| + 1 + |fraction|] == run + tail;
    } else {
      assert rest[..|run|] == run;
    }
  }

  /** `"$1,199.99"` reads as 1199.99: commas are thousands separators. */
  lemma ExtractPriceThousands()
    ensures ExtractPrice("$1,199.99") == Finite(1199.99)
  {
    FirstMatchOfThousands();
    StripCommasOfThousands();
    ParseOfThousands();
  }

  lemma FirstMatchOfThousands()
    ensures FirstMatch("$1,199.99") == Some("1,199.99")
  {
    assert FirstRunStart("$1,199.99") == Some(1);
    assert "$1,199.99"[1..] == "1,199.99";
    MatchOfThousands();
  }

  lemma StripCommasOfThousands()
    ensures StripCommas("1,199.99") == "1199.99"
  {
    DropCommasOfThousands();
  }

  lemma DropCommasOfThousands()
    ensures DropCommas("1,199.99") == "1199.99"
  {
    assert DropCommas("99") == "99";
    assert DropCommas(".99") == ".99";
    assert DropCommas("9.99") == "9.99";
    assert DropCommas("99.99") == "99.99";
    assert DropCommas("199.99") == "199.99";
    assert DropCommas(",199.99") == "199.99";
  }

  lemma MatchOfThousands()
    ensures MatchFrom("1,199.99") == "1,199.99"
  {
    RunOfThousands();
    assert "1,199.99"[6..] == "99";
    assert RunLength("99", IsDigit) == 2;
  }

  lemma RunOfThousands()
    ensures RunLength("1,199.99", InRun) == 5
  {
    assert RunLength(".99", InRun) == 0;
    assert RunLength("9.99", InRun) == 1;
    assert RunLength("99.99", InRun) == 2;
    assert RunLength("199.99", InRun) == 3;
    assert RunLength(",199.99", InRun) == 4;
  }

  lemma ParseOfThousands()
    ensures ParseDecimal("1199.99") == Finite(1199.99)
  {
    WholeDigitsOfThousands();
    assert "1199.99"[..4] == "1199" && "1199.99"[5..] == "99";
    assert RunLength("99", IsDigit) == 2;
    DigitsOfThousands();
    assert "99"[..2] == "99";
    assert Pow10(2) == 100;
  }

  lemma WholeDigitsOfThousands()
    ensures RunLength("1199.99", IsDigit) == 4
  {
    assert RunLength(".99", IsDigit) == 0;
  }

  lemma DigitsOfThousands()
    ensures DigitsValue("1199") == 1199 && DigitsValue("99") == 99
  {
    assert "1199"[..3] == "119" && "119"[..2] == "11" && "11"[..1] == "1" && "1"[..0] == "";
    assert "99"[..1] == "9" && "9"[..0] == "";
  }

  /** A run made only of commas reads as NaN. */
  lemma ExtractPriceCommaOnly()
    ensures ExtractPrice("$,") == NaN
  {
    var s := "$,";
    assert FirstRunStart(s) == Some(1);
    assert s[1..] == ",";
    assert RunLength(",", InRun) == 1;
    assert MatchFrom(",") == ",";
    assert StripCommas(",") == "";
  }
}
