/**
 Code points of UTF-16 text, their UTF-8 bytes (RFC 3629), and the key order the
 canonical form uses: sorting by code points and sorting by UTF-8 bytes agree.
 */
module CodePoints {
  import opened JsonText

  /* ---------- lexicographic order ---------- */

  predicate LexLess(a: seq<int>, b: seq<int>) {
    if b == [] then false
    else if a == [] then true
    else a[0] < b[0] || (a[0] == b[0] && LexLess(a[1..], b[1..]))
  }

  lemma {:induction false} LexTotal(a: seq<int>, b: seq<int>)
    ensures LexLess(a, b) || a == b || LexLess(b, a)
    ensures !(LexLess(a, b) && LexLess(b, a))
    ensures !LexLess(a, a)
    decreases |a|
  {
    if a != [] {
      LexTotal(a[1..], a[1..]);
      if b != [] {
        LexTotal(a[1..], b[1..]);
        if a[0] == b[0] && a[1..] == b[1..] {
          assert a == [a[0]] + a[1..] && b == [b[0]] + b[1..];
        }
      }
    }
  }

  lemma {:induction false} LexTransitive(a: seq<int>, b: seq<int>, c: seq<int>)
    requires LexLess(a, b) && LexLess(b, c)
    ensures LexLess(a, c)
    decreases |a|
  {
    if a != [] && a[0] == b[0] == c[0] {
      LexTransitive(a[1..], b[1..], c[1..]);
    }
  }

  /** A common prefix does not matter to the order. */
  lemma {:induction false} LexSkipsPrefix(p: seq<int>, a: seq<int>, b: seq<int>)
    ensures LexLess(p + a, p + b) <==> LexLess(a, b)
    decreases |p|
  {
    if p == [] {
      assert p + a == a && p + b == b;
    } else {
      assert (p + a)[1..] == p[1..] + a && (p + b)[1..] == p[1..] + b;
      LexSkipsPrefix(p[1..], a, b);
    }
  }

  /** The place where the order of two texts is decided: the first difference, or the end of the one that begins the other. */
  predicate DecidedAt(a: seq<int>, b: seq<int>, k: int) {
    0 <= k <= |a| && k < |b| && a[..k] == b[..k] && (k == |a| || a[k] < b[k])
  }

  lemma {:induction false} LexLessIs(a: seq<int>, b: seq<int>)
    ensures LexLess(a, b) <==> exists k :: DecidedAt(a, b, k)
    decreases |a|
  {
    if b == [] {
    } else if a == [] || a[0] < b[0] {
      assert DecidedAt(a, b, 0);
    } else {
      LexLessIs(a[1..], b[1..]);
      if LexLess(a, b) {
        var k :| DecidedAt(a[1..], b[1..], k);
        assert a[..k + 1] == [a[0]] + a[1..][..k] && b[..k + 1] == [b[0]] + b[1..][..k];
        assert DecidedAt(a, b, k + 1);
      }
      if k :| DecidedAt(a, b, k) {
        DecidedInRest(a, b, k);
      }
    }
  }

  lemma DecidedInRest(a: seq<int>, b: seq<int>, k: int)
    requires DecidedAt(a, b, k) && a != [] && b != [] && !(a[0] < b[0])
    ensures a[0] == b[0] && DecidedAt(a[1..], b[1..], k - 1)
  {
    assert 0 < k && a[..k][0] == a[0] && b[..k][0] == b[0];
    assert a[1..][..k - 1] == a[..k][1..] && b[1..][..k - 1] == b[..k][1..];
  }

  /* ---------- code points of UTF-16 ---------- */

  /** The code points of a text; an unpaired surrogate stands for itself. */
  function Points(s: Text): seq<int> {
    if s == [] then []
    else if IsHigh(s[0]) && 1 < |s| && IsLow(s[1]) then [Astral(s[0], s[1])] + Points(s[2..])
    else [s[0]] + Points(s[1..])
  }

  function Astral(hi: int, lo: int): int {
    (hi - 0xD800) * 0x400 + (lo - 0xDC00) + 0x10000
  }

  /** The code points determine the text. */
  lemma {:induction false} PointsInjective(a: Text, b: Text)
    requires Points(a) == Points(b)
    ensures a == b
    decreases |a|
  {
    if a != [] && b != [] {
      var i := if IsHigh(a[0]) && 1 < |a| && IsLow(a[1]) then 2 else 1;
      var j := if IsHigh(b[0]) && 1 < |b| && IsLow(b[1]) then 2 else 1;
      assert Points(a)[0] == Points(b)[0];
      assert i == j && a[..i] == b[..j];
      assert Points(a[i..]) == Points(a)[1..] && Points(b[j..]) == Points(b)[1..];
      PointsInjective(a[i..], b[j..]);
      assert a == a[..i] + a[i..] && b == b[..j] + b[j..];
    }
  }

  predicate IsScalar(c: int) {
    0 <= c < 0x110000 && !(0xD800 <= c <= 0xDFFF)
  }

  /** A paired text has only scalar values for code points. */
  lemma {:induction false} PairedPointsAreScalars(s: Text)
    requires !Lone(s)
    ensures forall i :: 0 <= i < |Points(s)| ==> IsScalar(Points(s)[i])
    decreases |s|
  {
    if s != [] {
      if IsHigh(s[0]) {
        PairedPointsAreScalars(s[2..]);
      } else {
        PairedPointsAreScalars(s[1..]);
      }
    }
  }

  /* ---------- UTF-8 ---------- */

  /** The UTF-8 bytes of one code point. */
  function Utf8Of(c: int): (bytes: seq<int>)
    requires IsScalar(c)
    ensures bytes != []
  {
    if c < 0x80 then [c]
    else if c < 0x800 then [0xC0 + c / 0x40, 0x80 + c % 0x40]
    else if c < 0x10000 then [0xE0 + c / 0x40 / 0x40, 0x80 + c / 0x40 % 0x40, 0x80 + c % 0x40]
    else [0xF0 + c / 0x40 / 0x40 / 0x40, 0x80 + c / 0x40 / 0x40 % 0x40, 0x80 + c / 0x40 % 0x40, 0x80 + c % 0x40]
  }

  /** The byte forms of section 3 of RFC 3629: how many bytes, which lead byte, and the six bits of each byte that follows. */
  lemma Utf8Decodes(c: int)
    requires IsScalar(c)
    ensures var b := Utf8Of(c);
            && |b| == (if c <= 0x7F then 1 else if c <= 0x7FF then 2 else if c <= 0xFFFF then 3 else 4)
            && (forall i :: 1 <= i < |b| ==> 0x80 <= b[i] <= 0xBF)
            && (|b| == 1 ==> c == b[0])
            && (|b| == 2 ==> 0xC2 <= b[0] <= 0xDF && c == (b[0] - 0xC0) * 64 + (b[1] - 0x80))
            && (|b| == 3 ==> 0xE0 <= b[0] <= 0xEF && c == ((b[0] - 0xE0) * 64 + (b[1] - 0x80)) * 64 + (b[2] - 0x80))
            && (|b| == 4 ==> 0xF0 <= b[0] <= 0xF4 && c == (((b[0] - 0xF0) * 64 + (b[1] - 0x80)) * 64 + (b[2] - 0x80)) * 64 + (b[3] - 0x80))
  {
    SixLow(c);
    SixLow(c / 0x40);
    SixLow(c / 0x40 / 0x40);
  }

  lemma SixLow(c: nat)
    ensures c == c / 0x40 * 64 + c % 0x40 && 0 <= c % 0x40 < 64
  {
  }

  predicate AllScalars(cs: seq<int>) {
    forall i :: 0 <= i < |cs| ==> IsScalar(cs[i])
  }

  function Utf8(cs: seq<int>): seq<int>
    requires AllScalars(cs)
  {
    if cs == [] then [] else Utf8Of(cs[0]) + Utf8(cs[1..])
  }

  /** The bytes of a smaller code point come first, whatever follows either. */
  lemma Utf8KeepsOrder(c: int, d: int, s: seq<int>, t: seq<int>)
    requires IsScalar(c) && IsScalar(d) && c < d
    ensures LexLess(Utf8Of(c) + s, Utf8Of(d) + t) && !LexLess(Utf8Of(d) + t, Utf8Of(c) + s)
  {
    var x, y := Utf8Of(c), Utf8Of(d);
    if |x| == |y| {
      var k := FirstDifference(c, d);
      LessFrom(x, s, y, t, k);
    } else {
      LongerIsGreater(c, d);
      LessFrom(x, s, y, t, 0);
    }
  }

  /** What decides the order: the first place where two texts differ. */
  lemma LessFrom(x: seq<int>, s: seq<int>, y: seq<int>, t: seq<int>, k: nat)
    requires k < |x| && k < |y| && x[..k] == y[..k] && x[k] < y[k]
    ensures LexLess(x + s, y + t) && !LexLess(y + t, x + s)
  {
    assert x + s == x[..k] + (x[k..] + s) && y + t == y[..k] + (y[k..] + t);
    LexSkipsPrefix(x[..k], x[k..] + s, y[k..] + t);
    LexTotal(x + s, y + t);
  }

  lemma LongerIsGreater(c: int, d: int)
    requires IsScalar(c) && IsScalar(d) && c < d && |Utf8Of(c)| != |Utf8Of(d)|
    ensures Utf8Of(c)[0] < Utf8Of(d)[0]
  {
  }

  /** Of two numbers the smaller has the smaller upper part, or the same and the smaller last six bits. */
  lemma SixBits(c: nat, d: nat)
    requires c < d
    ensures c / 0x40 < d / 0x40 || (c / 0x40 == d / 0x40 && c % 0x40 < d % 0x40)
  {
  }

  /** Where the bytes of two code points of one length first differ. */
  lemma FirstDifference(c: int, d: int) returns (k: nat)
    requires IsScalar(c) && IsScalar(d) && c < d && |Utf8Of(c)| == |Utf8Of(d)|
    ensures k < |Utf8Of(c)| && Utf8Of(c)[..k] == Utf8Of(d)[..k] && Utf8Of(c)[k] < Utf8Of(d)[k]
  {
    var n := |Utf8Of(c)|;
    if n == 1 || c / 0x40 == d / 0x40 {
      k := n - 1;
    } else if c / 0x40 / 0x40 == d / 0x40 / 0x40 {
      SixBits(c, d);
      k := n - 2;
    } else if c / 0x40 / 0x40 / 0x40 == d / 0x40 / 0x40 / 0x40 {
      SixBits(c, d);
      SixBits(c / 0x40, d / 0x40);
      k := n - 3;
    } else {
      SixBits(c, d);
      SixBits(c / 0x40, d / 0x40);
      SixBits(c / 0x40 / 0x40, d / 0x40 / 0x40);
      k := 0;
    }
  }

  /** Sorting by UTF-8 bytes is sorting by code points. */
  lemma {:induction false} ByteOrderIsPointOrder(a: seq<int>, b: seq<int>)
    requires AllScalars(a) && AllScalars(b)
    ensures LexLess(Utf8(a), Utf8(b)) <==> LexLess(a, b)
    decreases |a|
  {
    if a != [] && b != [] {
      var s, t := Utf8(a[1..]), Utf8(b[1..]);
      if a[0] < b[0] {
        Utf8KeepsOrder(a[0], b[0], s, t);
      } else if b[0] < a[0] {
        Utf8KeepsOrder(b[0], a[0], t, s);
      } else {
        LexSkipsPrefix(Utf8Of(a[0]), s, t);
        ByteOrderIsPointOrder(a[1..], b[1..]);
      }
    }
  }

  /* ---------- the key order ---------- */

  /** The order of keys by code points. */
  predicate KeyLess(a: Text, b: Text) {
    LexLess(Points(a), Points(b))
  }

  lemma KeyOrderIsTotal(a: Text, b: Text)
    ensures KeyLess(a, b) || a == b || KeyLess(b, a)
    ensures !(KeyLess(a, b) && KeyLess(b, a))
    ensures !KeyLess(a, a)
  {
    LexTotal(Points(a), Points(b));
    LexTotal(Points(a), Points(a));
    if Points(a) == Points(b) {
      PointsInjective(a, b);
    }
  }

  lemma KeyOrderIsTransitive(a: Text, b: Text, c: Text)
    requires KeyLess(a, b) && KeyLess(b, c)
    ensures KeyLess(a, c)
  {
    LexTransitive(Points(a), Points(b), Points(c));
  }

  /** The loop that compares two keys code point by code point. */
  method CompareKeys(a: Text, b: Text) returns (order: int)
    ensures order < 0 <==> KeyLess(a, b)
    ensures order > 0 <==> KeyLess(b, a)
    ensures order == 0 <==> a == b
  {
    var x, y := Points(a), Points(b);
    KeyOrderIsTotal(a, b);
    var k := 0;
    while k < |x| && k < |y|
      invariant k <= |x| && k <= |y|
      invariant x[..k] == y[..k]
    {
      assert x == x[..k] + x[k..] && y == y[..k] + y[k..];
      LexSkipsPrefix(x[..k], x[k..], y[k..]);
      LexSkipsPrefix(x[..k], y[k..], x[k..]);
      if x[k] != y[k] {
        return if x[k] < y[k] then -1 else 1;
      }
      k := k + 1;
    }
    assert x == x[..k] + x[k..] && y == y[..k] + y[k..];
    LexSkipsPrefix(x[..k], x[k..], y[k..]);
    LexSkipsPrefix(x[..k], y[k..], x[k..]);
    if |x| == |y| {
      PointsInjective(a, b);
    }
    order := |x| - |y|;
  }
}
