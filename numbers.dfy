/**
  Conversion of a cleaned cell text to a number, as Python's `float()` does
  it for texts made of an optional sign, decimal digits and at most one dot,
  with any whitespace around them. Values are exact reals; a text `float()`
  rejects yields `None`.
*/
module Numbers {
  import opened Wrappers
  import opened Text

  predicate AllDigits(s: string) {
    forall i :: 0 <= i < |s| ==> IsDigit(s[i])
  }

  function DigitValue(c: char): (d: nat)
    requires IsDigit(c)
    ensures d < 10
  {
    (c as int) - ('0' as int)
  }

  /** The value of a run of decimal digits, most significant first. */
  function DigitsValue(d: string): nat
    requires AllDigits(d)
  {
    if d == [] then 0 else DigitsValue(d[..|d| - 1]) * 10 + DigitValue(d[|d| - 1])
  }

  function Pow10(n: nat): (p: nat)
    ensures p >= 1
  {
    if n == 0 then 1 else 10 * Pow10(n - 1)
  }

  /** `v` with its decimal point moved `n` places to the left. */
  function Shift(v: real, n: nat): (r: real)
    ensures v >= 0.0 ==> r >= 0.0
  {
    if n == 0 then v else Shift(v, n - 1) / 10.0
  }

  /** Moving the point `n` places divides by `10^n`. */
  lemma {:induction false} ShiftIsDivision(v: real, n: nat)
    ensures Shift(v, n) == v / Pow10(n) as real
  {
    if n > 0 {
      ShiftIsDivision(v, n - 1);
      var p := Pow10(n - 1) as real;
      assert p >= 1.0;
      assert Pow10(n) as real == 10.0 * p;
      assert (v / p) / 10.0 == v / (10.0 * p);
    }
  }

  /** The fraction part counts as `frac / 10^places`. */
  lemma DecimalValueIsDivision(whole: nat, frac: nat, places: nat)
    ensures DecimalValue(whole, frac, places) == whole as real + frac as real / Pow10(places) as real
  {
    ShiftIsDivision(frac as real, places);
  }

  /** Index of the first dot of `s`, or `|s|` when there is none. */
  function DotIndex(s: string): (i: nat)
    ensures i <= |s|
    ensures i < |s| ==> s[i] == '.'
    ensures forall j :: 0 <= j < i ==> s[j] != '.'
  {
    if s == [] then 0
    else if s[0] == '.' then 0
    else 1 + DotIndex(s[1..])
  }

  /** The value of a whole part `whole` and a fraction part `frac` of `places` digits. */
  function DecimalValue(whole: nat, frac: nat, places: nat): (r: real)
    ensures r >= whole as real
  {
    whole as real + Shift(frac as real, places)
  }

  /**
    Digits, an optional dot and more digits, with at least one digit in all:
    "12", "12.5", "12." and ".5" are numbers; "", "." and "1.2.3" are not.
  */
  function ParseUnsigned(s: string): (r: Option<real>)
    ensures r.Some? ==> r.value >= 0.0
  {
    var i := DotIndex(s);
    var whole := s[..i];
    var frac := if i < |s| then s[i + 1..] else [];
    if AllDigits(whole) && AllDigits(frac) && |whole| + |frac| > 0 then
      Some(DecimalValue(DigitsValue(whole), DigitsValue(frac), |frac|))
    else
      None
  }

  /** `float(s)` for a text with an optional leading `-` or `+`. */
  function ParseDecimal(s: string): Option<real> {
    if s != [] && s[0] == '-' then
      match ParseUnsigned(s[1..])
      case Some(v) => Some(-v)
      case None => None
    else if s != [] && s[0] == '+' then ParseUnsigned(s[1..])
    else ParseUnsigned(s)
  }

  /**
    Python's `float(s)`: whitespace at either end of the text is ignored,
    one character at a time, and what is left goes to `ParseDecimal`.
  */
  function ParseFloat(s: string): Option<real>
    decreases |s|
  {
    if s != [] && IsSpace(s[0]) then ParseFloat(s[1..])
    else if s != [] && IsSpace(s[|s| - 1]) then ParseFloat(s[..|s| - 1])
    else ParseDecimal(s)
  }

  /**
    Whitespace before and after a number does not change what `float()`
    makes of it: " 5" and "5 " parse as 5.
  */
  lemma {:induction false} ParseFloatIgnoresSpace(before: string, s: string, after: string)
    requires AllSpace(before) && AllSpace(after)
    requires s != [] && !IsSpace(s[0]) && !IsSpace(s[|s| - 1])
    ensures ParseFloat(before + s + after) == ParseDecimal(s)
  {
    if before != [] {
      assert (before + s + after)[1..] == before[1..] + s + after;
      ParseFloatIgnoresSpace(before[1..], s, after);
    } else if after != [] {
      var n := |after| - 1;
      assert before + s + after == s + after;
      assert (s + after)[0] == s[0];
      assert (s + after)[..|s + after| - 1] == [] + s + after[..n];
      ParseFloatIgnoresSpace(before, s, after[..n]);
    } else {
      assert before + s + after == s;
    }
  }

  /** The decimal text of a natural number; the reference the parser is checked against. */
  function NatText(n: nat): (t: string)
    ensures t != [] && AllDigits(t)
  {
    if n < 10 then ['0' + n as char]
    else NatText(n / 10) + ['0' + (n % 10) as char]
  }

  lemma {:induction false} DigitsValueOfNatText(n: nat)
    ensures DigitsValue(NatText(n)) == n
  {
    var t := NatText(n);
    if n >= 10 {
      DigitsValueOfNatText(n / 10);
      assert t[..|t| - 1] == NatText(n / 10);
    }
  }

  /** Parsing the text of a number, with or without a minus sign, gives the number back. */
  lemma ParseNatText(n: nat)
    ensures ParseDecimal(NatText(n)) == Some(n as real)
    ensures ParseDecimal("-" + NatText(n)) == Some(-(n as real))
  {
    var t := NatText(n);
    DigitsValueOfNatText(n);
    DotIndexOfDigits(t);
    assert t[..|t|] == t;
    assert ("-" + t)[1..] == t;
  }

  /** Digits, a dot and digits parse as the whole part plus the fraction moved `|f|` places right of the point. */
  lemma ParseDotted(w: string, f: string)
    requires AllDigits(w) && AllDigits(f) && |w| + |f| > 0
    ensures ParseDecimal(w + "." + f) == Some(DecimalValue(DigitsValue(w), DigitsValue(f), |f|))
  {
    var s := w + "." + f;
    assert s[..|w|] == w;
    assert s[|w| + 1..] == f;
    DotIndexAt(s, |w|);
    ParseUnsignedSplit(s);
  }

  /** The first dot of a text is the one with no dot before it. */
  lemma DotIndexAt(s: string, i: nat)
    requires i < |s| && s[i] == '.' && AllDigits(s[..i])
    ensures DotIndex(s) == i
  {
    assert forall j :: 0 <= j < i ==> s[j] == s[..i][j];
  }

  /** `ParseUnsigned` at a text whose first dot and both parts are known. */
  lemma ParseUnsignedSplit(s: string)
    requires DotIndex(s) < |s| && |s| > 1
    requires AllDigits(s[..DotIndex(s)]) && AllDigits(s[DotIndex(s) + 1..])
    requires s[0] == '.' || IsDigit(s[0])
    ensures ParseDecimal(s) == Some(DecimalValue(DigitsValue(s[..DotIndex(s)]), DigitsValue(s[DotIndex(s) + 1..]), |s| - DotIndex(s) - 1))
  {
    assert s[0] != '-' && s[0] != '+';
    assert ParseDecimal(s) == ParseUnsigned(s);
  }

  /** A minus sign negates the value of a number `ParseDecimal` reads without one. */
  lemma ParseNegated(s: string, v: real)
    requires s != [] && (s[0] == '.' || IsDigit(s[0]))
    requires ParseDecimal(s) == Some(v)
    ensures ParseDecimal("-" + s) == Some(-v)
  {
    assert ("-" + s)[1..] == s;
    assert ParseDecimal(s) == ParseUnsigned(s);
  }

  /** `ParseDotted` for texts whose values are known. */
  lemma ParseDottedValues(w: string, f: string, a: nat, b: nat)
    requires AllDigits(w) && AllDigits(f) && |w| + |f| > 0
    requires DigitsValue(w) == a && DigitsValue(f) == b
    ensures ParseDecimal(w + "." + f) == Some(DecimalValue(a, b, |f|))
  {
    ParseDotted(w, f);
  }

  /**
    Parsing a decimal fraction `a.b` gives `a` plus `b` moved as many places
    right of the point as it has digits (see `DecimalValueIsDivision`):
    "12.5" is 12 + 5/10 (for a fraction with leading zeros, such as "12.05",
    see `ParseDotted`).
  */
  lemma ParseFractionText(a: nat, b: nat)
    ensures ParseDecimal(NatText(a) + "." + NatText(b)) == Some(DecimalValue(a, b, |NatText(b)|))
  {
    var w, f := NatText(a), NatText(b);
    DigitsValueOfNatText(a);
    DigitsValueOfNatText(b);
    ParseDottedValues(w, f, a, b);
  }

  /** With a minus sign in front, a decimal fraction parses as its negation: "-12.5" is -(12 + 5/10). */
  lemma ParseNegatedFractionText(a: nat, b: nat)
    ensures ParseDecimal("-" + NatText(a) + "." + NatText(b)) == Some(-DecimalValue(a, b, |NatText(b)|))
  {
    var w, f := NatText(a), NatText(b);
    ParseFractionText(a, b);
    assert IsDigit(w[0]);
    ParseNegatedDotted(w, f, DecimalValue(a, b, |f|));
  }

  /** `ParseNegated` for a text with a dot whose whole part starts with a digit. */
  lemma ParseNegatedDotted(w: string, f: string, v: real)
    requires w != [] && IsDigit(w[0])
    requires ParseDecimal(w + "." + f) == Some(v)
    ensures ParseDecimal("-" + w + "." + f) == Some(-v)
  {
    var s := w + "." + f;
    assert s[0] == w[0];
    ParseNegated(s, v);
    assert "-" + w + "." + f == "-" + s;
  }

  /** The value of a run of zeros is 0. */
  lemma {:induction false} DigitsValueOfZeros(d: string)
    requires forall i :: 0 <= i < |d| ==> d[i] == '0'
    ensures AllDigits(d) && DigitsValue(d) == 0
  {
    if d != [] {
      DigitsValueOfZeros(d[..|d| - 1]);
    }
  }

  /** Moving the point of zero leaves zero. */
  lemma {:induction false} ShiftZero(n: nat)
    ensures Shift(0.0, n) == 0.0
  {
    if n > 0 {
      ShiftZero(n - 1);
    }
  }

  /**
    Zeros with or without a dot among them, such as the unsettled profit
    "0.00", ".0" or "0", parse as 0.
  */
  lemma ParseZeros(w: string, f: string)
    requires forall i :: 0 <= i < |w| ==> w[i] == '0'
    requires forall i :: 0 <= i < |f| ==> f[i] == '0'
    requires |w| + |f| > 0
    ensures ParseDecimal(w + "." + f) == Some(0.0)
    ensures w != [] ==> ParseDecimal(w) == Some(0.0)
  {
    DigitsValueOfZeros(w);
    DigitsValueOfZeros(f);
    ShiftZero(|f|);
    ParseDotted(w, f);
    assert DecimalValue(0, 0, |f|) == 0.0;
    if w != [] {
      DotIndexOfDigits(w);
      assert w[..|w|] == w;
      assert ParseDecimal(w) == ParseUnsigned(w);
    }
  }

  lemma DotIndexOfDigits(s: string)
    requires AllDigits(s)
    ensures DotIndex(s) == |s|
  {
    if DotIndex(s) < |s| {
      assert IsDigit(s[DotIndex(s)]);
    }
  }

  predicate DigitsAndDots(s: string) {
    forall i :: 0 <= i < |s| ==> IsDigit(s[i]) || s[i] == '.'
  }

  predicate HasDigit(s: string) {
    exists i :: 0 <= i < |s| && IsDigit(s[i])
  }

  lemma DigitsIffNoDot(t: string)
    requires DigitsAndDots(t)
    ensures AllDigits(t) <==> '.' !in t
  {
    if '.' in t {
      var j :| 0 <= j < |t| && t[j] == '.';
    }
  }

  /** Splitting at the first dot: that dot is the only one before the fraction part. */
  lemma DotCount(s: string, i: nat)
    requires i < |s| && s[i] == '.' && '.' !in s[..i]
    ensures multiset(s)['.'] == 1 + multiset(s[i + 1..])['.']
  {
    assert s == s[..i] + ['.'] + s[i + 1..];
  }

  /** The part after the first dot is all digits exactly when there is no second dot. */
  lemma FracDigitsIffOneDot(s: string)
    requires DigitsAndDots(s)
    ensures var i := DotIndex(s);
      AllDigits(if i < |s| then s[i + 1..] else []) <==> multiset(s)['.'] <= 1
  {
    var i := DotIndex(s);
    assert '.' !in s[..i];
    if i < |s| {
      var frac := s[i + 1..];
      assert DigitsAndDots(frac);
      DigitsIffNoDot(frac);
      DotCount(s, i);
    } else {
      assert s[..i] == s;
    }
  }

  /** When the part after the first dot is all digits, there is some digit around the dot exactly when the text has one. */
  lemma DigitAroundDot(s: string)
    requires DigitsAndDots(s)
    requires var i := DotIndex(s); AllDigits(if i < |s| then s[i + 1..] else [])
    ensures var i := DotIndex(s);
      i + (if i < |s| then |s| - i - 1 else 0) > 0 <==> HasDigit(s)
  {
    var i := DotIndex(s);
    if HasDigit(s) {
      var j :| 0 <= j < |s| && IsDigit(s[j]);
      assert j != i || i == |s|;
    }
    if i > 0 {
      assert IsDigit(s[0]);
    } else if i + 1 < |s| {
      assert s[i + 1..][0] == s[i + 1];
    }
  }

  /** A text of digits and dots has no whitespace for `float()` to ignore. */
  lemma ParseFloatOfDigitsAndDots(s: string)
    requires DigitsAndDots(s)
    ensures ParseFloat(s) == ParseDecimal(s)
  {
    if s != [] {
      assert IsDigit(s[0]) || s[0] == '.';
      assert IsDigit(s[|s| - 1]) || s[|s| - 1] == '.';
    }
  }

  /**
    A text of digits and dots, which is what the price and quantity clean-up
    leaves, is a number exactly when it has at most one dot and some digit;
    its value is never negative.
  */
  lemma ParseDigitsAndDots(s: string)
    requires DigitsAndDots(s)
    ensures ParseDecimal(s).Some? <==> multiset(s)['.'] <= 1 && HasDigit(s)
    ensures ParseDecimal(s).Some? ==> ParseDecimal(s).value >= 0.0
  {
    if s != [] {
      assert IsDigit(s[0]) || s[0] == '.';
    }
    assert ParseDecimal(s) == ParseUnsigned(s);
    var i := DotIndex(s);
    assert AllDigits(s[..i]);
    FracDigitsIffOneDot(s);
    if AllDigits(if i < |s| then s[i + 1..] else []) {
      DigitAroundDot(s);
    }
  }

  /**
    A profit cell such as "-12 USDT" is read as the amount it shows: the
    currency and the space go, and the signed number that is left parses
    back to the number.
  */
  lemma ProfitCellOfNat(n: nat)
    ensures ParseFloat(CleanProfit(NatText(n) + " USDT")) == Some(n as real)
    ensures ParseFloat(CleanProfit("-" + NatText(n) + " USDT")) == Some(-(n as real))
  {
    var t := NatText(n);
    ProfitAmountText(t);
    var m := "-" + t;
    assert m[|m| - 1] == t[|t| - 1];
    assert forall i :: 0 < i < |m| ==> m[i] == t[i - 1];
    ProfitAmountText(m);
    ParseNatText(n);
  }

  /** A signed run of digits survives the profit clean-up and `float()` reads it as `ParseDecimal` does. */
  lemma ProfitAmountText(t: string)
    requires t != [] && (t[0] == '-' || IsDigit(t[0])) && IsDigit(t[|t| - 1])
    requires forall i :: 0 <= i < |t| ==> t[i] == '-' || IsDigit(t[i])
    ensures ParseFloat(CleanProfit(t + " USDT")) == ParseDecimal(t)
  {
    assert 'U' !in t && ',' !in t;
    CleanProfitOfAmount(t);
    assert [] + t + [] == t;
    ParseFloatIgnoresSpace([], t, []);
  }

  /** The text `ParseDecimal` reads as digits and a dot: `s` without its leading sign, if any. */
  function Unsigned(s: string): (u: string)
    ensures |u| <= |s|
  {
    if s != [] && (s[0] == '-' || s[0] == '+') then s[1..] else s
  }

  /** Every character of a text `ParseUnsigned` accepts is a digit or a dot. */
  lemma ParseUnsignedShape(u: string)
    ensures ParseUnsigned(u).Some? ==> DigitsAndDots(u)
  {
    var i := DotIndex(u);
    if ParseUnsigned(u).Some? {
      forall j | 0 <= j < |u| ensures IsDigit(u[j]) || u[j] == '.' {
        if j < i {
          assert u[j] == u[..i][j];
        } else if j > i {
          assert u[j] == u[i + 1..][j - i - 1];
        }
      }
    }
  }

  /** `ParseUnsigned` accepts exactly the texts of digits with at most one dot and some digit. */
  lemma ParseUnsignedAccepts(u: string)
    ensures ParseUnsigned(u).Some? <==> DigitsAndDots(u) && multiset(u)['.'] <= 1 && HasDigit(u)
  {
    ParseUnsignedShape(u);
    if DigitsAndDots(u) {
      ParseDigitsAndDots(u);
      if u != [] {
        assert IsDigit(u[0]) || u[0] == '.';
      }
      assert ParseDecimal(u) == ParseUnsigned(u);
    }
  }

  /**
    What `float()` accepts, for every text without surrounding whitespace:
    after an optional `-` or `+`, only digits and at most one dot, with at
    least one digit. Anything else, such as "5 USD", "1.2.3", "." or "--5",
    is refused, which in the row reader ends the polling loop.
  */
  lemma ParseDecimalAccepts(s: string)
    ensures var u := Unsigned(s);
      ParseDecimal(s).Some? <==> DigitsAndDots(u) && multiset(u)['.'] <= 1 && HasDigit(u)
  {
    ParseUnsignedAccepts(Unsigned(s));
  }
}
