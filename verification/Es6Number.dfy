/**
 How a number is printed under the JSON canonicalization scheme: the shortest digits are
 given as a decimal text, and placed by the rules of ES6. The printed text has the value
 of the given one, and one value has one text.

 Between the two texts stand digits without a zero at either end and the place of the
 point; equal values have equal digits and one place. DigitsKeepValue leads from the given
 text to them, PlacedKeepsValue through each of the four placements, and PrintedHasValue
 and OneValueOneText join the two. Which digits denote a floating-point number is not the
 printer's choice: they come with the given text.
 */
module Es6Number {
  import opened Wrappers

  predicate IsDigit(c: char) {
    '0' <= c <= '9'
  }

  predicate AllDigits(s: string) {
    forall i :: 0 <= i < |s| ==> IsDigit(s[i])
  }

  /** A decimal text taken apart: digits before and behind the point, and the exponent. */
  datatype Numeral = Numeral(ip: string, fp: string, exp: int)

  predicate IsNumeral(m: Numeral) {
    m.ip != "" && AllDigits(m.ip) && AllDigits(m.fp)
  }

  function Number(s: string): nat
    requires AllDigits(s)
  {
    if s == "" then 0 else Number(s[..|s| - 1]) * 10 + (s[|s| - 1] - '0') as nat
  }

  /** A whole number times ten to a whole power. */
  function Scale(x: nat, e: int): real
    decreases if e < 0 then -e else e
  {
    if e == 0 then x as real
    else if 0 < e then Scale(x * 10, e - 1)
    else Scale(x, e + 1) / 10.0
  }

  /** The value of a decimal text. */
  function Value(m: Numeral): real
    requires IsNumeral(m)
  {
    Scale(Number(m.ip + m.fp), m.exp - |m.fp|)
  }

  function DropZeros(s: string): string {
    if s != "" && s[0] == '0' then DropZeros(s[1..]) else s
  }

  function CutZeros(s: string): string {
    if s != "" && s[|s| - 1] == '0' then CutZeros(s[..|s| - 1]) else s
  }

  function Zeros(n: nat): (z: string)
    ensures |z| == n && AllDigits(z) && forall i :: 0 <= i < n ==> z[i] == '0'
  {
    if n == 0 then "" else Zeros(n - 1) + "0"
  }

  /* ---------- printing ---------- */

  /** The digits without zeros at either end, and where the point stands relative to them. */
  function Digits(m: Numeral): (string, int)
    requires IsNumeral(m)
  {
    var fp := CutZeros(m.fp);
    var ip := DropZeros(m.ip);
    var n := if ip != "" then |ip| + m.exp else m.exp - (|fp| - |DropZeros(fp)|);
    var digits := CutZeros(if ip != "" then DropZeros(m.ip + fp) else DropZeros(fp));
    (if digits == "" then "0" else digits, n)
  }

  /** Fixed notation from 1e-7 up to below 1e21, exponential notation beyond. */
  function Placed(digits: string, n: int): (p: (Numeral, bool))
    requires digits != "" && AllDigits(digits)
    ensures IsNumeral(p.0) && (!p.1 ==> p.0.exp == 0)
  {
    var k := |digits|;
    if k <= n <= 21 then (Numeral(digits + Zeros(n - k), "", 0), false)
    else if 0 < n <= 21 then (Numeral(digits[..n], digits[n..], 0), false)
    else if -6 < n <= 0 then (Numeral("0", Zeros(-n) + digits, 0), false)
    else (Numeral(digits[..1], digits[1..], n - 1), true)
  }

  function Decimal(n: nat): (d: string)
    ensures d != "" && AllDigits(d)
  {
    if n < 10 then [('0' as int + n) as char] else Decimal(n / 10) + [('0' as int + n % 10) as char]
  }

  /** The text of a numeral, with or without an exponent. */
  function Written(m: Numeral, withExp: bool): string {
    m.ip + (if m.fp == "" then "" else "." + m.fp)
    + if withExp then "e" + (if 0 <= m.exp then "+" else "-") + Decimal(if m.exp < 0 then -m.exp else m.exp) else ""
  }

  /* ---------- reading ---------- */

  /** The text up to a character, and what comes behind it. */
  function SplitAt(s: string, c: char): (string, Option<string>) {
    if s == "" then ("", None)
    else if s[0] == c then ("", Some(s[1..]))
    else
      var (a, b) := SplitAt(s[1..], c);
      ([s[0]] + a, b)
  }

  function Exponent(s: string): Option<int> {
    if s == "" then None
    else if s[0] == '+' then (if s[1..] != "" && AllDigits(s[1..]) then Some(Number(s[1..])) else None)
    else if s[0] == '-' then (if s[1..] != "" && AllDigits(s[1..]) then Some(0 - Number(s[1..])) else None)
    else if AllDigits(s) then Some(Number(s))
    else None
  }

  /** A decimal text taken apart at its e and its point. */
  function Read(s: string): Option<Numeral> {
    var (mant, rest) := SplitAt(s, 'e');
    var exp := match rest case None => Some(0) case Some(x) => Exponent(x);
    var (ip, fp) := SplitAt(mant, '.');
    var m := Numeral(ip, match fp case None => "" case Some(f) => f, if exp.Some? then exp.value else 0);
    if exp.Some? && IsNumeral(m) then Some(m) else None
  }

  /** The whole printer: minus zero is zero. */
  function Es6(negative: bool, m: Numeral): string
    requires IsNumeral(m)
  {
    if Number(m.ip + m.fp) == 0 then "0"
    else
      var (digits, n) := Digits(m);
      assert AllDigits(digits) by {
        DigitsAreDigits(m);
      }
      var (p, withExp) := Placed(digits, n);
      (if negative then "-" else "") + Written(p, withExp)
  }

  lemma {:induction false} DropZerosIs(s: string)
    ensures |DropZeros(s)| <= |s| && s == Zeros(|s| - |DropZeros(s)|) + DropZeros(s)
    ensures DropZeros(s) == "" || DropZeros(s)[0] != '0'
    ensures AllDigits(s) ==> AllDigits(DropZeros(s))
    decreases |s|
  {
    if s != "" && s[0] == '0' {
      DropZerosIs(s[1..]);
      var n := |s| - |DropZeros(s)|;
      assert s[1..] == Zeros(n - 1) + DropZeros(s);
      assert s == Zeros(n) + DropZeros(s);
    } else {
      assert s == Zeros(0) + s;
    }
  }

  lemma {:induction false} CutZerosIs(s: string)
    ensures |CutZeros(s)| <= |s| && s == CutZeros(s) + Zeros(|s| - |CutZeros(s)|)
    ensures CutZeros(s) == "" || CutZeros(s)[|CutZeros(s)| - 1] != '0'
    ensures AllDigits(s) ==> AllDigits(CutZeros(s))
    decreases |s|
  {
    if s != "" && s[|s| - 1] == '0' {
      var front := s[..|s| - 1];
      CutZerosIs(front);
      var n := |s| - |CutZeros(s)|;
      assert front == CutZeros(s) + Zeros(n - 1);
      assert s == front + "0" && CutZeros(s) + Zeros(n - 1) + "0" == CutZeros(s) + Zeros(n);
    } else {
      assert s == s + Zeros(0);
    }
  }

  lemma DigitsAreDigits(m: Numeral)
    requires IsNumeral(m)
    ensures AllDigits(Digits(m).0) && Digits(m).0 != ""
  {
    CutZerosIs(m.fp);
    TrimmedDigits(m.ip + CutZeros(m.fp));
    TrimmedDigits(CutZeros(m.fp));
  }

  lemma TrimmedDigits(s: string)
    requires AllDigits(s)
    ensures AllDigits(CutZeros(DropZeros(s)))
  {
    DropZerosIs(s);
    CutZerosIs(DropZeros(s));
  }

  /* ---------- digits and powers of ten ---------- */

  function TenTo(n: nat): (p: nat)
    ensures 0 < p
  {
    if n == 0 then 1 else TenTo(n - 1) * 10
  }

  /** A number with c zeros put behind it. */
  function Shifted(x: nat, c: nat): nat {
    if c == 0 then x else Shifted(x, c - 1) * 10
  }

  lemma {:induction false} ScaleTen(x: nat, e: int)
    ensures Scale(x * 10, e) == Scale(x, e + 1)
    decreases if e < 0 then -e else e
  {
    if e < 0 {
      ScaleTen(x, e + 1);
    }
  }

  /** Zeros go from the number to the power. */
  lemma {:induction false} ScaleShift(x: nat, c: nat, e: int)
    ensures Scale(Shifted(x, c), e) == Scale(x, e + c)
    decreases c
  {
    if 0 < c {
      ScaleTen(Shifted(x, c - 1), e);
      ScaleShift(x, c - 1, e + 1);
    }
  }

  lemma {:induction false} ScaleIsFaithful(x: nat, y: nat, e: int)
    requires Scale(x, e) == Scale(y, e)
    ensures x == y
    decreases if e < 0 then -e else e
  {
    if 0 < e {
      ScaleIsFaithful(x * 10, y * 10, e - 1);
    } else if e < 0 {
      ScaleIsFaithful(x, y, e + 1);
    }
  }

  lemma {:induction false} ShiftedIsZero(x: nat, c: nat)
    ensures Shifted(x, c) == 0 <==> x == 0
    decreases c
  {
    if 0 < c {
      ShiftedIsZero(x, c - 1);
    }
  }

  lemma ShiftedEndsInZero(x: nat, c: nat)
    requires 0 < c
    ensures Shifted(x, c) % 10 == 0
  {
    TenfoldEndsInZero(Shifted(x, c - 1));
  }

  lemma TenfoldEndsInZero(x: nat)
    ensures x * 10 % 10 == 0
  {
  }

  lemma {:induction false} ZerosBehind(s: string, c: nat)
    requires AllDigits(s)
    ensures AllDigits(s + Zeros(c)) && Number(s + Zeros(c)) == Shifted(Number(s), c)
    decreases c
  {
    if c == 0 {
      assert s + Zeros(0) == s;
    } else {
      ZerosBehind(s, c - 1);
      assert (s + Zeros(c))[..|s| + c - 1] == s + Zeros(c - 1);
    }
  }

  lemma {:induction false} ZerosBefore(c: nat, s: string)
    requires AllDigits(s)
    ensures AllDigits(Zeros(c) + s) && Number(Zeros(c) + s) == Number(s)
    decreases |s|, c
  {
    if s != "" {
      var front := s[..|s| - 1];
      ZerosBefore(c, front);
      assert (Zeros(c) + s)[..c + |s| - 1] == Zeros(c) + front;
    } else if c != 0 {
      ZerosBefore(c - 1, s);
      assert Zeros(c) + "" == Zeros(c) && Zeros(c - 1) + "" == Zeros(c - 1);
      assert Zeros(c)[..c - 1] == Zeros(c - 1);
    }
  }

  /** Digits without a zero at either end. */
  predicate Normal(d: string) {
    d != "" && AllDigits(d) && d[0] != '0' && d[|d| - 1] != '0'
  }

  lemma {:induction false} NumberBounds(d: string)
    requires AllDigits(d) && d != "" && d[0] != '0'
    ensures TenTo(|d| - 1) <= Number(d) < TenTo(|d|)
    decreases |d|
  {
    var front := d[..|d| - 1];
    if front == "" {
      assert TenTo(1) == 10;
    } else {
      NumberBounds(front);
    }
  }

  lemma {:induction false} NumberFixesDigits(a: string, b: string)
    requires AllDigits(a) && AllDigits(b) && |a| == |b| && Number(a) == Number(b)
    ensures a == b
    decreases |a|
  {
    if a != "" {
      var x, y := a[..|a| - 1], b[..|b| - 1];
      assert Number(a) / 10 == Number(x) && Number(b) / 10 == Number(y);
      NumberFixesDigits(x, y);
      assert a == x + [a[|a| - 1]] && b == y + [b[|b| - 1]];
    }
  }

  /* ---------- the value of the digits ---------- */

  /** The value of digits with the point behind the n-th of them. */
  function Scaled(digits: string, n: int): real
    requires AllDigits(digits)
  {
    Scale(Number(digits), n - |digits|)
  }

  /** The fraction's closing zeros do not count. */
  lemma ValueCut(m: Numeral)
    requires IsNumeral(m)
    ensures AllDigits(CutZeros(m.fp))
    ensures Value(m) == Scale(Number(m.ip + CutZeros(m.fp)), m.exp - |CutZeros(m.fp)|)
    ensures Number(m.ip + m.fp) == 0 <==> Number(m.ip + CutZeros(m.fp)) == 0
  {
    var f := CutZeros(m.fp);
    CutZerosIs(m.fp);
    var t: nat := |m.fp| - |f|;
    assert m.ip + m.fp == (m.ip + f) + Zeros(t);
    ZerosBehind(m.ip + f, t);
    ShiftedIsZero(Number(m.ip + f), t);
    ScaleShift(Number(m.ip + f), t, m.exp - |m.fp|);
  }

  /** Digits behind leading zeros, and before closing ones. */
  lemma Core(s: string) returns (lead: nat, tail: nat)
    requires AllDigits(s) && Number(s) != 0
    ensures s == Zeros(lead) + CutZeros(DropZeros(s)) + Zeros(tail)
    ensures |DropZeros(s)| == |s| - lead
    ensures Normal(CutZeros(DropZeros(s)))
    ensures Number(s) == Shifted(Number(CutZeros(DropZeros(s))), tail)
  {
    var g := DropZeros(s);
    DropZerosIs(s);
    CutZerosIs(g);
    lead, tail := |s| - |g|, |g| - |CutZeros(g)|;
    assert s == Zeros(lead) + CutZeros(g) + Zeros(tail);
    ZerosBefore(lead, g);
    ZerosBehind(CutZeros(g), tail);
    ShiftedIsZero(Number(CutZeros(g)), tail);
    assert CutZeros(g) != "";
    assert CutZeros(g)[0] == g[0];
  }

  lemma {:induction false} DropZerosOver(a: string, b: string)
    ensures DropZeros(a + b) == if DropZeros(a) != "" then DropZeros(a) + b else DropZeros(b)
    decreases |a|
  {
    if a == "" {
      assert a + b == b;
    } else {
      assert (a + b)[1..] == a[1..] + b;
      DropZerosOver(a[1..], b);
    }
  }

  lemma PointPlace(m: Numeral, lead: nat, tail: nat)
    requires IsNumeral(m)
    requires var s := m.ip + CutZeros(m.fp);
             s == Zeros(lead) + CutZeros(DropZeros(s)) + Zeros(tail) && |DropZeros(s)| == |s| - lead
    requires CutZeros(DropZeros(m.ip + CutZeros(m.fp))) != ""
    ensures Digits(m).0 == CutZeros(DropZeros(m.ip + CutZeros(m.fp)))
    ensures Digits(m).1 - |Digits(m).0| == m.exp - |CutZeros(m.fp)| + tail
  {
    DropZerosOver(m.ip, CutZeros(m.fp));
  }

  /** The digits and the place of the point give the value of the text. */
  lemma DigitsKeepValue(m: Numeral)
    requires IsNumeral(m) && Number(m.ip + m.fp) != 0
    ensures Normal(Digits(m).0)
    ensures Scaled(Digits(m).0, Digits(m).1) == Value(m)
  {
    var f := CutZeros(m.fp);
    ValueCut(m);
    var lead, tail := Core(m.ip + f);
    PointPlace(m, lead, tail);
    SameScale(Number(Digits(m).0), tail, m.exp - |f|, Number(m.ip + f));
  }

  lemma SameScale(x: nat, c: nat, e: int, y: nat)
    requires y == Shifted(x, c)
    ensures Scale(y, e) == Scale(x, e + c)
  {
    ScaleShift(x, c, e);
  }

  lemma PlacedWhole(digits: string, c: nat)
    requires digits != "" && AllDigits(digits)
    ensures Value(Numeral(digits + Zeros(c), "", 0)) == Scale(Number(digits), c)
  {
    ZerosBehind(digits, c);
    ValueOfWhole(digits + Zeros(c), Number(digits), c);
  }

  lemma ValueOfWhole(s: string, x: nat, c: nat)
    requires s != "" && AllDigits(s) && Number(s) == Shifted(x, c)
    ensures Value(Numeral(s, "", 0)) == Scale(x, c)
  {
    assert s + "" == s;
    ScaleShift(x, c, 0);
  }

  lemma PlacedSmall(digits: string, c: nat, m: Numeral)
    requires digits != "" && AllDigits(digits) && IsNumeral(m)
    requires m.ip == "0" && m.fp == Zeros(c) + digits && m.exp == 0
    ensures Value(m) == Scale(Number(digits), 0 - |m.fp|)
  {
    FrontZero(c, digits);
    ZerosBefore(c + 1, digits);
  }

  lemma FrontZero(c: nat, s: string)
    ensures "0" + (Zeros(c) + s) == Zeros(c + 1) + s
  {
    var z := Zeros(c + 1);
    assert |z| == c + 1 && forall i :: 0 <= i < c + 1 ==> z[i] == '0';
    assert "0" + Zeros(c) == z;
    assert "0" + (Zeros(c) + s) == "0" + Zeros(c) + s;
  }

  lemma PlacedSplit(digits: string, n: nat, exp: int)
    requires 0 < n <= |digits| && AllDigits(digits)
    ensures Value(Numeral(digits[..n], digits[n..], exp)) == Scale(Number(digits), exp - (|digits| - n))
  {
    assert digits[..n] + digits[n..] == digits;
  }

  /** Placing the digits keeps their value. */
  lemma PlacedKeepsValue(digits: string, n: int)
    requires digits != "" && AllDigits(digits)
    ensures Value(Placed(digits, n).0) == Scaled(digits, n)
  {
    var k := |digits|;
    if k <= n <= 21 {
      PlacedWhole(digits, n - k);
    } else if 0 < n <= 21 {
      PlacedSplit(digits, n, 0);
    } else if -6 < n <= 0 {
      PlacedSmall(digits, -n, Placed(digits, n).0);
    } else {
      PlacedSplit(digits, 1, n - 1);
    }
  }

  lemma LastDigit(d: string)
    requires AllDigits(d) && d != ""
    ensures Number(d) % 10 == (d[|d| - 1] - '0') as nat
  {
    TenfoldAndDigit(Number(d[..|d| - 1]), (d[|d| - 1] - '0') as nat);
  }

  lemma TenfoldAndDigit(x: nat, r: nat)
    requires r < 10
    ensures (x * 10 + r) % 10 == r
  {
  }

  lemma ScalesApart(a: string, p: int, b: string, q: int)
    requires Normal(a) && Normal(b) && Scaled(a, p) == Scaled(b, q) && p - |a| <= q - |b|
    ensures p - |a| == q - |b| && Number(a) == Number(b)
  {
    var e := p - |a|;
    var c := (q - |b|) - e;
    ScaleShift(Number(b), c, e);
    ScaleIsFaithful(Number(a), Shifted(Number(b), c), e);
    if 0 < c {
      ShiftedEndsInZero(Number(b), c);
      LastDigit(a);
    }
  }

  /** One value has one series of digits and one place of the point. */
  lemma ValueFixesDigits(a: string, p: int, b: string, q: int)
    requires Normal(a) && Normal(b) && Scaled(a, p) == Scaled(b, q)
    ensures a == b && p == q
  {
    if p - |a| <= q - |b| {
      ScalesApart(a, p, b, q);
    } else {
      ScalesApart(b, q, a, p);
    }
    NumberBounds(a);
    NumberBounds(b);
    SameLength(|a|, |b|, Number(a));
    NumberFixesDigits(a, b);
  }

  lemma {:induction false} TenToGrows(a: nat, b: nat)
    requires a <= b
    ensures TenTo(a) <= TenTo(b)
    decreases b
  {
    if a < b {
      TenToGrows(a, b - 1);
    }
  }

  lemma SameLength(a: nat, b: nat, x: nat)
    requires 0 < a && 0 < b && TenTo(a - 1) <= x < TenTo(a) && TenTo(b - 1) <= x < TenTo(b)
    ensures a == b
  {
    if a < b {
      TenToGrows(a, b - 1);
    } else if b < a {
      TenToGrows(b, a - 1);
    }
  }

  /* ---------- reading back ---------- */

  lemma {:induction false} SplitAtFirst(a: string, c: char, b: string)
    requires forall i :: 0 <= i < |a| ==> a[i] != c
    ensures SplitAt(a + [c] + b, c) == (a, Some(b))
    ensures SplitAt(a, c) == (a, None)
    decreases |a|
  {
    if a != "" {
      assert (a + [c] + b)[1..] == a[1..] + [c] + b;
      SplitAtFirst(a[1..], c, b);
      assert [a[0]] + a[1..] == a;
    }
  }

  lemma {:induction false} DecimalIs(n: nat)
    ensures Number(Decimal(n)) == n
  {
    if n < 10 {
      assert Decimal(n)[..0] == "";
    } else {
      DecimalIs(n / 10);
      assert Decimal(n)[..|Decimal(n)| - 1] == Decimal(n / 10);
    }
  }

  lemma ExponentRead(e: int)
    ensures Exponent((if 0 <= e then "+" else "-") + Decimal(if e < 0 then -e else e)) == Some(e)
  {
    var d := Decimal(if e < 0 then -e else e);
    DecimalIs(if e < 0 then -e else e);
    assert ("+" + d)[1..] == d && ("-" + d)[1..] == d;
  }

  function Mantissa(m: Numeral): string {
    m.ip + (if m.fp == "" then "" else "." + m.fp)
  }

  lemma MantissaRead(m: Numeral)
    requires IsNumeral(m)
    ensures SplitAt(Mantissa(m), '.') == (m.ip, if m.fp == "" then None else Some(m.fp))
    ensures forall i :: 0 <= i < |Mantissa(m)| ==> Mantissa(m)[i] != 'e'
  {
    SplitAtFirst(m.ip, '.', m.fp);
    assert m.ip + "." + m.fp == m.ip + ("." + m.fp) && m.ip + "" == m.ip;
  }

  /** A mantissa with an exponent behind it, or none. */
  lemma PartsRead(m: Numeral, s: string, rest: Option<string>)
    requires IsNumeral(m) && SplitAt(s, 'e') == (Mantissa(m), rest)
    requires (match rest case None => Some(0) case Some(x) => Exponent(x)) == Some(m.exp)
    ensures Read(s) == Some(m)
  {
    MantissaRead(m);
  }

  /** What is written is read back. */
  lemma WrittenIsRead(m: Numeral, withExp: bool)
    requires IsNumeral(m) && (withExp || m.exp == 0)
    ensures Read(Written(m, withExp)) == Some(m)
  {
    var mant := Mantissa(m);
    MantissaRead(m);
    if withExp {
      var x := (if 0 <= m.exp then "+" else "-") + Decimal(if m.exp < 0 then -m.exp else m.exp);
      ExponentRead(m.exp);
      SplitAtFirst(mant, 'e', x);
      assert Written(m, true) == mant + "e" + x;
      PartsRead(m, Written(m, true), Some(x));
    } else {
      SplitAtFirst(mant, 'e', "");
      assert Written(m, false) == mant;
      PartsRead(m, mant, None);
    }
  }

  /* ---------- the printed text ---------- */

  /** The printed text of a number that is not zero reads back as a numeral of the same value. */
  lemma PrintedHasValue(m: Numeral)
    requires IsNumeral(m) && Number(m.ip + m.fp) != 0
    ensures Read(Es6(false, m)).Some? && Value(Read(Es6(false, m)).value) == Value(m)
  {
    var (digits, n) := Digits(m);
    DigitsKeepValue(m);
    PlacedKeepsValue(digits, n);
    var (p, withExp) := Placed(digits, n);
    WrittenIsRead(p, withExp);
    assert "" + Written(p, withExp) == Written(p, withExp);
  }

  /** Two texts of numbers that are not zero are printed alike exactly when they have one value and one sign. */
  lemma OneValueOneText(m: Numeral, negative: bool, k: Numeral, other: bool)
    requires IsNumeral(m) && IsNumeral(k) && Number(m.ip + m.fp) != 0 && Number(k.ip + k.fp) != 0
    ensures Es6(negative, m) == Es6(other, k) <==> Value(m) == Value(k) && negative == other
  {
    DigitsKeepValue(m);
    DigitsKeepValue(k);
    if Value(m) == Value(k) {
      ValueFixesDigits(Digits(m).0, Digits(m).1, Digits(k).0, Digits(k).1);
    }
    SignShows(m);
    SignShows(k);
    if Es6(negative, m) == Es6(other, k) {
      PrintedHasValue(m);
      PrintedHasValue(k);
      assert Es6(true, m)[1..] == Es6(false, m) && Es6(true, k)[1..] == Es6(false, k);
    }
  }

  lemma SignShows(m: Numeral)
    requires IsNumeral(m) && Number(m.ip + m.fp) != 0
    ensures Es6(false, m) != "" && IsDigit(Es6(false, m)[0])
    ensures Es6(true, m) == "-" + Es6(false, m)
  {
    var (digits, n) := Digits(m);
    DigitsAreDigits(m);
    var (p, withExp) := Placed(digits, n);
    assert "" + Written(p, withExp) == Written(p, withExp);
    assert Written(p, withExp)[0] == p.ip[0];
  }
}
