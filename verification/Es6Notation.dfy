/**
 Which notation a number is printed in, told by its value, and what the printed text looks
 like, character by character.
 */
module Es6Notation {
  import opened Wrappers
  import opened Es6Number

  /* ---------- powers of ten ---------- */

  lemma {:induction false} TenToIsShifted(n: nat)
    ensures TenTo(n) == Shifted(1, n)
    decreases n
  {
    if 0 < n {
      TenToIsShifted(n - 1);
    }
  }

  /** Ten to a whole power. */
  function Power(e: int): real {
    Scale(1, e)
  }

  lemma ScaledPower(n: nat, e: int)
    ensures Scale(TenTo(n), e) == Power(e + n)
  {
    TenToIsShifted(n);
    ScaleShift(1, n, e);
  }

  lemma {:induction false} ScaleKeepsOrder(x: nat, y: nat, e: int)
    ensures x < y <==> Scale(x, e) < Scale(y, e)
    decreases if e < 0 then -e else e
  {
    if 0 < e {
      ScaleKeepsOrder(x * 10, y * 10, e - 1);
    } else if e < 0 {
      ScaleKeepsOrder(x, y, e + 1);
    }
  }

  lemma {:induction false} PowersGrow(e: int, f: int)
    requires e < f
    ensures Power(e) < Power(f)
    decreases f - e
  {
    ScaleTen(1, f - 1);
    ScaleKeepsOrder(1, 10, f - 1);
    if e < f - 1 {
      PowersGrow(e, f - 1);
    }
  }

  lemma LargeBound()
    ensures Power(21) == 1000000000000000000000.0
  {
    assert TenTo(7) == 10000000 by {
      assert TenTo(0) == 1 && TenTo(1) == 10 && TenTo(2) == 100 && TenTo(3) == 1000;
      assert TenTo(4) == 10000 && TenTo(5) == 100000 && TenTo(6) == 1000000;
    }
    assert TenTo(10) == 10000000000 by {
      assert TenTo(8) == 100000000 && TenTo(9) == 1000000000;
    }
    assert TenTo(13) == 10000000000000 by {
      assert TenTo(11) == 100000000000 && TenTo(12) == 1000000000000;
    }
    assert TenTo(16) == 10000000000000000 by {
      assert TenTo(14) == 100000000000000 && TenTo(15) == 1000000000000000;
    }
    assert TenTo(19) == 10000000000000000000 by {
      assert TenTo(17) == 100000000000000000 && TenTo(18) == 1000000000000000000;
    }
    assert TenTo(21) == 1000000000000000000000 by {
      assert TenTo(20) == 100000000000000000000;
    }
    ScaledPower(21, 0);
  }

  lemma SmallBound()
    ensures Power(-6) == 0.000001
  {
    assert Power(0) == 1.0 && Power(-1) == 0.1 && Power(-2) == 0.01 && Power(-3) == 0.001;
    assert Power(-4) == 0.0001 && Power(-5) == 0.00001;
  }

  /** Digits with the point behind the n-th lie between two powers of ten. */
  lemma ValueLies(digits: string, n: int)
    requires Normal(digits)
    ensures Power(n - 1) <= Scaled(digits, n) < Power(n)
  {
    var k := |digits|;
    NumberBounds(digits);
    ScaleKeepsOrder(Number(digits), TenTo(k - 1), n - k);
    ScaleKeepsOrder(Number(digits), TenTo(k), n - k);
    ScaledPower(k - 1, n - k);
    ScaledPower(k, n - k);
  }

  /** The place of the point is told by the value. */
  lemma PlaceByValue(digits: string, n: int)
    requires Normal(digits)
    ensures -6 < n <= 21 <==> 0.000001 <= Scaled(digits, n) < 1000000000000000000000.0
  {
    ValueLies(digits, n);
    LargeBound();
    SmallBound();
    if n - 1 < -6 {
      PowersAtMost(n, -6);
    } else {
      PowersAtMost(-6, n - 1);
    }
    if n <= 21 {
      PowersAtMost(n, 21);
    } else {
      PowersAtMost(21, n - 1);
    }
  }

  lemma PowersAtMost(e: int, f: int)
    requires e <= f
    ensures Power(e) <= Power(f)
  {
    if e < f {
      PowersGrow(e, f);
    }
  }

  /* ---------- the printed text ---------- */

  /** Digits, and perhaps a point with digits on both sides; no closing zero behind the point, no leading zero but one in front of it. */
  predicate FixedText(s: string) {
    && s != "" && 'e' !in s && '0' <= s[0] <= '9'
    && (forall i :: 0 <= i < |s| ==> '0' <= s[i] <= '9' || s[i] == '.')
    && (forall i, j :: 0 <= i < j < |s| ==> s[i] != '.' || s[j] != '.')
    && ('.' in s ==> '1' <= s[|s| - 1] <= '9')
    && (s[0] == '0' ==> 1 < |s| && s[1] == '.')
  }

  /** A power of ten behind an e: a sign, and digits that do not begin with a zero. */
  predicate PowerText(x: string) {
    && 1 < |x| && (x[0] == '+' || x[0] == '-')
    && (forall i :: 1 <= i < |x| ==> '0' <= x[i] <= '9') && (x[1] == '0' ==> |x| == 2)
  }

  /** One digit that is not zero, perhaps a point and digits the last of which is not zero, and a power of ten. */
  predicate ExponentText(s: string) {
    exists k :: 1 <= k < |s| && s[k] == 'e' && PowerText(s[k + 1..])
      && '1' <= s[0] <= '9'
      && (k == 1 || (2 < k && s[1] == '.' && (forall i :: 2 <= i < k ==> '0' <= s[i] <= '9') && s[k - 1] != '0'))
  }

  lemma {:induction false} DecimalText(n: nat)
    ensures AllDigits(Decimal(n)) && (Decimal(n)[0] == '0' <==> n == 0) && (n == 0 ==> |Decimal(n)| == 1)
    decreases n
  {
    if 10 <= n {
      DecimalText(n / 10);
    }
  }

  lemma WholeIsFixed(digits: string, c: nat)
    requires Normal(digits)
    ensures FixedText(Written(Numeral(digits + Zeros(c), "", 0), false))
  {
    var s := digits + Zeros(c);
    assert Written(Numeral(s, "", 0), false) == s;
  }

  lemma SplitIsFixed(digits: string, n: nat)
    requires Normal(digits) && 0 < n < |digits|
    ensures FixedText(Written(Numeral(digits[..n], digits[n..], 0), false))
  {
    var s := digits[..n] + "." + digits[n..];
    assert Written(Numeral(digits[..n], digits[n..], 0), false) == digits[..n] + ("." + digits[n..]) == s;
    assert s[n] == '.' && s[|s| - 1] == digits[|digits| - 1];
    assert forall i :: 0 <= i < |s| && i != n ==> s[i] == if i < n then digits[i] else digits[i - 1];
  }

  lemma SmallIsFixed(digits: string, c: nat)
    requires Normal(digits)
    ensures FixedText(Written(Numeral("0", Zeros(c) + digits, 0), false))
  {
    var f := Zeros(c) + digits;
    var s := "0" + "." + f;
    assert Written(Numeral("0", f, 0), false) == "0" + ("." + f) == s;
    assert s[1] == '.' && forall i :: 2 <= i < |s| ==> s[i] == f[i - 2];
    assert s[|s| - 1] == digits[|digits| - 1];
  }

  /** One digit that is not zero, and perhaps a point and digits the last of which is not zero. */
  predicate LeadText(t: string) {
    && t != "" && '1' <= t[0] <= '9'
    && (|t| == 1 || (2 < |t| && t[1] == '.' && (forall i :: 2 <= i < |t| ==> '0' <= t[i] <= '9') && t[|t| - 1] != '0'))
  }

  lemma LeadIs(digits: string)
    requires Normal(digits)
    ensures LeadText(digits[..1] + if digits[1..] == "" then "" else "." + digits[1..])
  {
    var f := digits[1..];
    if f != "" {
      var t := digits[..1] + ("." + f);
      assert t[|t| - 1] == digits[|digits| - 1];
      assert forall i :: 2 <= i < |t| ==> t[i] == digits[i - 1];
    }
  }

  lemma PowerIs(e: int)
    ensures PowerText((if 0 <= e then "+" else "-") + Decimal(if e < 0 then -e else e))
  {
    DecimalText(if e < 0 then -e else e);
  }

  lemma LeadAndPower(t: string, x: string)
    requires LeadText(t) && PowerText(x)
    ensures ExponentText(t + "e" + x) && 'e' in t + "e" + x
  {
    var s, k := t + "e" + x, |t|;
    assert s[k] == 'e' && s[k + 1..] == x;
    assert forall i :: 0 <= i < k ==> s[i] == t[i];
  }

  lemma SplitIsExponent(digits: string, e: int)
    requires Normal(digits)
    ensures ExponentText(Written(Numeral(digits[..1], digits[1..], e), true)) && 'e' in Written(Numeral(digits[..1], digits[1..], e), true)
  {
    var t := digits[..1] + if digits[1..] == "" then "" else "." + digits[1..];
    var x := (if 0 <= e then "+" else "-") + Decimal(if e < 0 then -e else e);
    LeadIs(digits);
    PowerIs(e);
    LeadAndPower(t, x);
    WrittenIs(Numeral(digits[..1], digits[1..], e), t, x);
  }

  lemma WrittenIs(m: Numeral, t: string, x: string)
    requires t == m.ip + (if m.fp == "" then "" else "." + m.fp)
    requires x == (if 0 <= m.exp then "+" else "-") + Decimal(if m.exp < 0 then -m.exp else m.exp)
    ensures Written(m, true) == t + "e" + x
  {
  }

  /**
   A number that is not zero is printed without an exponent if and only if its value lies from
   1e-6 up to below 1e21, and each notation has one form.
   */
  lemma NotationByValue(m: Numeral)
    requires IsNumeral(m) && Number(m.ip + m.fp) != 0
    ensures 'e' !in Es6(false, m) <==> 0.000001 <= Value(m) < 1000000000000000000000.0
    ensures 'e' !in Es6(false, m) ==> FixedText(Es6(false, m))
    ensures 'e' in Es6(false, m) ==> ExponentText(Es6(false, m))
    ensures Es6(true, m) == "-" + Es6(false, m)
  {
    var (digits, n) := Digits(m);
    DigitsKeepValue(m);
    SignShows(m);
    PlaceByValue(digits, n);
    var (p, withExp) := Placed(digits, n);
    assert Es6(false, m) == "" + Written(p, withExp) == Written(p, withExp);
    PlacedText(digits, n);
  }

  lemma PlacedText(digits: string, n: int)
    requires Normal(digits)
    ensures var (p, withExp) := Placed(digits, n);
            if -6 < n <= 21 then FixedText(Written(p, withExp))
            else ExponentText(Written(p, withExp)) && 'e' in Written(p, withExp)
  {
    if -6 < n <= 21 {
      PlacedFixed(digits, n);
    } else {
      SplitIsExponent(digits, n - 1);
      assert Placed(digits, n) == (Numeral(digits[..1], digits[1..], n - 1), true);
    }
  }

  lemma PlacedFixed(digits: string, n: int)
    requires Normal(digits) && -6 < n <= 21
    ensures !Placed(digits, n).1 && FixedText(Written(Placed(digits, n).0, false))
  {
    var k := |digits|;
    if k <= n {
      WholeIsFixed(digits, n - k);
    } else if 0 < n {
      SplitIsFixed(digits, n);
    } else {
      SmallIsFixed(digits, -n);
    }
  }

  /** Zero is printed as one digit, whatever its sign and however it was written. */
  lemma ZeroText(negative: bool, m: Numeral)
    requires IsNumeral(m) && Value(m) == 0.0
    ensures Es6(negative, m) == "0"
  {
    if Number(m.ip + m.fp) != 0 {
      ScaleKeepsOrder(0, Number(m.ip + m.fp), m.exp - |m.fp|);
      ZeroScaled(m.exp - |m.fp|);
    }
  }

  lemma {:induction false} ZeroScaled(e: int)
    ensures Scale(0, e) == 0.0
    decreases if e < 0 then -e else e
  {
    if 0 < e {
      ZeroScaled(e - 1);
    } else if e < 0 {
      ZeroScaled(e + 1);
    }
  }
}
