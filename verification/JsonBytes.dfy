/**
 The scans that run before a parser, over the UTF-8 bytes of a text: they tell the same as
 over its UTF-16 units. Every byte of a character beyond ASCII is at least 0x80, as are its
 units, and to the scans one such unit is as good as several.
 */
module JsonBytes {
  import opened Wrappers
  import opened JsonText
  import opened JsonGrammar
  import opened JsonNesting
  import opened JsonSurrogates
  import opened CodePoints

  /* ---------- the bytes of a text ---------- */

  predicate BeyondAscii(s: Text) {
    s != [] && forall i :: 0 <= i < |s| ==> 0x80 <= s[i]
  }

  /** The bytes of one code point, as units below 0x100. */
  function BytesOf(c: int): (bytes: Text)
    requires IsScalar(c)
    ensures bytes == Utf8Of(c) && forall i :: 0 <= i < |bytes| ==> bytes[i] < 0x100
    ensures if c < 0x80 then bytes == [c] else BeyondAscii(bytes)
  {
    Utf8Of(c)
  }

  function Bytes(s: Text): Text
    requires !Lone(s)
  {
    if s == [] then []
    else if IsHigh(s[0]) then BytesOf(Astral(s[0], s[1])) + Bytes(s[2..])
    else BytesOf(s[0]) + Bytes(s[1..])
  }

  /** They are the UTF-8 bytes of the text's code points. */
  lemma {:induction false} BytesAreUtf8(s: Text)
    requires !Lone(s)
    ensures AllScalars(Points(s)) && Bytes(s) == Utf8(Points(s))
    decreases |s|
  {
    PairedPointsAreScalars(s);
    if s != [] {
      var n := if IsHigh(s[0]) then 2 else 1;
      BytesAreUtf8(s[n..]);
      assert Points(s)[1..] == Points(s[n..]);
    }
  }

  /* ---------- one unit is as good as several ---------- */

  /** Behind units beyond ASCII the depth scan is where one of them would leave it. */
  lemma {:induction false} DepthRunBeyond(st: DepthState, xs: Text)
    requires BeyondAscii(xs)
    ensures DepthRun(st, xs) == if st.inStr then st.(esc := false) else st
    decreases |xs|
  {
    if |xs| == 1 {
      DepthOfUnit(st, xs[0]);
      assert xs == [xs[0]];
    } else {
      DepthRunBeyond(DepthStep(st, xs[0]), xs[1..]);
    }
  }

  /** The depth scan over the bytes ends where it ends over the units. */
  lemma {:induction false} DepthRunOfBytes(st: DepthState, s: Text)
    requires !Lone(s)
    ensures DepthRun(st, Bytes(s)) == DepthRun(st, s)
    decreases |s|
  {
    if s != [] {
      var n := if IsHigh(s[0]) then 2 else 1;
      var front, bytes := s[..n], if n == 2 then BytesOf(Astral(s[0], s[1])) else BytesOf(s[0]);
      assert s == front + s[n..];
      DepthRunAppend(st, front, s[n..]);
      DepthRunAppend(st, bytes, Bytes(s[n..]));
      if 0x80 <= s[0] {
        DepthRunBeyond(st, front);
        DepthRunBeyond(st, bytes);
      }
      DepthRunOfBytes(DepthRun(st, front), s[n..]);
    }
  }

  lemma {:induction false} ScanSkips(xs: Text, rest: Text)
    requires forall i :: 0 <= i < |xs| ==> 0x80 <= xs[i]
    ensures LoneScan(xs + rest) == LoneScan(rest)
    decreases |xs|
  {
    if xs == [] {
      assert xs + rest == rest;
    } else {
      assert (xs + rest)[1..] == xs[1..] + rest;
      ScanSkips(xs[1..], rest);
    }
  }

  lemma HexAtFront(p: Text, rest: Text, k: nat)
    requires k + 4 <= |p|
    ensures HexAt((p + rest)[k..]) == if IsHex4(p[k..k + 4]) then Some(Hex4(p[k..k + 4])) else None
  {
    assert (p + rest)[k..][..4] == p[k..k + 4];
  }

  lemma HexAtBeyond(p: Text, xs: Text, rest: Text, k: nat)
    requires k <= |p| < k + 4 && BeyondAscii(xs)
    ensures HexAt((p + (xs + rest))[k..]) == None
  {
    var s := (p + (xs + rest))[k..];
    assert 0x80 <= s[|p| - k];
    if 4 <= |s| {
      assert s[..4][|p| - k] == s[|p| - k];
    }
  }

  /** Behind a prefix, any units beyond ASCII do for any others. */
  lemma {:induction false} ScanIgnoresBeyond(p: Text, xs: Text, ys: Text, rest: Text)
    requires BeyondAscii(xs) && BeyondAscii(ys)
    ensures LoneScan(p + (xs + rest)) == LoneScan(p + (ys + rest))
    decreases |p|, 0
  {
    ScanSkips(xs, rest);
    ScanSkips(ys, rest);
    if p == [] {
      assert p + (xs + rest) == xs + rest && p + (ys + rest) == ys + rest;
    } else if p[0] != BACKSLASH {
      ScanFrom(p, xs, ys, rest, 1);
    } else if |p| == 1 {
      assert (p + (xs + rest))[2..] == xs[1..] + rest && (p + (ys + rest))[2..] == ys[1..] + rest;
      ScanSkips(xs[1..], rest);
      ScanSkips(ys[1..], rest);
    } else if p[1] != LOWER_U || |p| < 6 || !IsHex4(p[2..6]) {
      ScanFrom(p, xs, ys, rest, 2);
      NoEscape(p, xs, rest);
      NoEscape(p, ys, rest);
    } else if IsHigh(Hex4(p[2..6])) {
      HighSurrogate(p, xs, rest);
      HighSurrogate(p, ys, rest);
      if 12 <= |p| {
        ScanFrom(p, xs, ys, rest, 12);
      }
    } else {
      ScanFrom(p, xs, ys, rest, 6);
      HexAtFront(p, xs + rest, 2);
      HexAtFront(p, ys + rest, 2);
    }
  }

  lemma {:induction false} ScanFrom(p: Text, xs: Text, ys: Text, rest: Text, k: nat)
    requires BeyondAscii(xs) && BeyondAscii(ys) && 0 < k <= |p|
    ensures LoneScan((p + (xs + rest))[k..]) == LoneScan((p + (ys + rest))[k..])
    decreases |p| - k, 1
  {
    assert (p + (xs + rest))[k..] == p[k..] + (xs + rest) && (p + (ys + rest))[k..] == p[k..] + (ys + rest);
    ScanIgnoresBeyond(p[k..], xs, ys, rest);
  }

  /** A backslash that begins no escape with four digits. */
  lemma NoEscape(p: Text, xs: Text, rest: Text)
    requires BeyondAscii(xs) && 2 <= |p| && p[0] == BACKSLASH
    requires p[1] != LOWER_U || |p| < 6 || !IsHex4(p[2..6])
    ensures LoneScan(p + (xs + rest)) == LoneScan((p + (xs + rest))[2..])
  {
    if 6 <= |p| {
      HexAtFront(p, xs + rest, 2);
    } else {
      HexAtBeyond(p, xs, rest, 2);
    }
  }

  /** An escaped high surrogate: everything is decided by what stands in front of xs. */
  lemma HighSurrogate(p: Text, xs: Text, rest: Text)
    requires BeyondAscii(xs) && 6 <= |p| && p[0] == BACKSLASH && p[1] == LOWER_U && IsHex4(p[2..6]) && IsHigh(Hex4(p[2..6]))
    ensures LoneScan(p + (xs + rest)) ==
            if 12 <= |p| && p[6] == BACKSLASH && p[7] == LOWER_U && IsHex4(p[8..12]) && IsLow(Hex4(p[8..12]))
            then LoneScan((p + (xs + rest))[12..]) else true
  {
    var s := p + (xs + rest);
    HexAtFront(p, xs + rest, 2);
    if |p| <= 7 {
      assert 0x80 <= s[|p|];
    } else if |p| < 12 {
      HexAtBeyond(p, xs, rest, 8);
    } else {
      HexAtFront(p, xs + rest, 8);
    }
  }

  /** The scan for surrogate escapes sees in the bytes what it sees in the units, behind any units already read. */
  lemma {:induction false} LoneScanBehind(p: Text, s: Text)
    requires !Lone(s)
    ensures LoneScan(p + Bytes(s)) == LoneScan(p + s)
    decreases |s|
  {
    if s != [] {
      var n := if IsHigh(s[0]) then 2 else 1;
      var front, bytes := s[..n], if n == 2 then BytesOf(Astral(s[0], s[1])) else BytesOf(s[0]);
      var rest := s[n..];
      assert s == front + rest && Bytes(s) == bytes + Bytes(rest);
      assert s[0] < 0x80 ==> front == bytes;
      Assoc(p, bytes, Bytes(rest));
      Assoc(p, bytes, rest);
      LoneScanBehind(p + bytes, rest);
      if 0x80 <= s[0] {
        ScanIgnoresBeyond(p, bytes, front, rest);
      }
    }
  }

  /* ---------- the scans over bytes ---------- */

  /** Over the bytes of every text, whether or not it is valid JSON, both scans tell what they tell over its units. */
  lemma ScansOfBytes(s: Text)
    requires !Lone(s)
    ensures DepthScan(Bytes(s)) == DepthScan(s)
    ensures LoneScan(Bytes(s)) == LoneScan(s)
  {
    DepthRunOfBytes(DEPTH_START, s);
    LoneScanBehind([], s);
    assert [] + Bytes(s) == Bytes(s) && [] + s == s;
  }

  /** Over the bytes of a valid text: the depth of its value, and whether one of its strings holds an unpaired surrogate. */
  lemma ByteScansAreRight(d: Document)
    requires !Lone(DocumentText(d))
    ensures DepthScan(Bytes(DocumentText(d))) == Depth(d.tree)
    ensures LoneScan(Bytes(DocumentText(d))) == HasLone(d.tree)
  {
    ScansOfBytes(DocumentText(d));
    DepthScanIsDepth(d);
    LoneScanIsHasLone(d);
  }
}
