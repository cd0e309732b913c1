/**
 RFC 6962 Merkle trees: the root and the audit path of sections 2.1 and 2.1.1, the
 bottom-up form of both, and what a path tells.
 */
module Merkle {
  import opened Wrappers

  type Bytes = seq<bv8>

  /**
   A digest is a free constructor over its preimage, so two digests are equal exactly
   when their preimages are: collision resistance holds by construction, and the domain
   bytes 0x00 and 0x01 are the two constructors LeafHash and NodeHash.
   */
  datatype Digest =
    | EmptyHash                             // SHA-256 of the empty string
    | LeafHash(record: Bytes)               // SHA-256(0x00 || record)
    | NodeHash(left: Digest, right: Digest) // SHA-256(0x01 || left || right)
    | OtherHash(bits: Bytes)                // any other 32-byte value

  datatype Side = Left | Right

  /** One step of an audit path: the sibling and the side it sits on. */
  datatype Step = Step(hash: Digest, side: Side)

  /* ---------- the split point ---------- */

  function SplitFrom(k: nat, n: nat): nat
    requires 0 < k
    decreases n - k
  {
    if k * 2 < n then SplitFrom(k * 2, n) else k
  }

  /** The largest power of two below n. */
  function Split(n: nat): nat {
    SplitFrom(1, n)
  }

  lemma {:induction false} SplitFromBounds(k: nat, n: nat)
    requires 0 < k < n
    ensures k <= SplitFrom(k, n) < n <= 2 * SplitFrom(k, n)
    decreases n - k
  {
    if k * 2 < n {
      SplitFromBounds(k * 2, n);
    }
  }

  /** The split point is below n and at least half of it. */
  lemma SplitBounds(n: nat)
    requires 2 <= n
    ensures 0 < Split(n) < n <= 2 * Split(n)
  {
    SplitFromBounds(1, n);
  }

  lemma {:induction false} SplitFromHalves(k: nat, n: nat)
    requires 0 < k && 2 * k < n
    ensures SplitFrom(2 * k, n) == 2 * SplitFrom(k, (n + 1) / 2)
    decreases n - k
  {
    if 4 * k < n {
      assert k * 2 < (n + 1) / 2;
      SplitFromHalves(2 * k, n);
      assert SplitFrom(k, (n + 1) / 2) == SplitFrom(2 * k, (n + 1) / 2);
    } else {
      assert !(k * 2 < (n + 1) / 2);
    }
  }

  /** Pairing the leaves up halves the split point. */
  lemma SplitHalves(n: nat)
    requires 2 < n
    ensures Split(n) == 2 * Split((n + 1) / 2)
  {
    SplitFromHalves(1, n);
  }

  /** m shifted left by j bits: m times 2^j. */
  function Shl(m: nat, j: nat): nat {
    if j == 0 then m else 2 * Shl(m, j - 1)
  }

  /** The split point is the one power of two k with k < n <= 2k. */
  lemma {:induction false} SplitIsPowerOfTwo(n: nat, j: nat)
    requires 2 <= n
    ensures Split(n) == Shl(1, j) <==> Shl(1, j) < n <= 2 * Shl(1, j)
  {
    SplitBounds(n);
    if j == 0 {
      if 2 < n {
        SplitHalves(n);
      }
    } else if 2 < n {
      SplitHalves(n);
      SplitIsPowerOfTwo((n + 1) / 2, j - 1);
    }
  }

  /** The loop that finds the split point. */
  method FindSplit(n: nat) returns (k: nat)
    requires 2 <= n
    ensures k == Split(n)
  {
    k := 1;
    while k * 2 < n
      invariant 0 < k
      invariant SplitFrom(k, n) == Split(n)
      decreases n - k
    {
      k := k * 2;
    }
  }

  /* ---------- the recursive tree ---------- */

  /** MTH of RFC 6962 section 2.1. */
  function Mth(leaves: seq<Digest>): Digest
    decreases |leaves|
  {
    if leaves == [] then EmptyHash
    else if |leaves| == 1 then leaves[0]
    else
      SplitBounds(|leaves|);
      var k := Split(|leaves|);
      NodeHash(Mth(leaves[..k]), Mth(leaves[k..]))
  }

  /** PATH of RFC 6962 section 2.1.1, each step with the side of the sibling. */
  function AuditPath(leaves: seq<Digest>, index: nat): seq<Step>
    requires index < |leaves|
    decreases |leaves|
  {
    if |leaves| == 1 then []
    else
      SplitBounds(|leaves|);
      var k := Split(|leaves|);
      if index < k then AuditPath(leaves[..k], index) + [Step(Mth(leaves[k..]), Right)]
      else AuditPath(leaves[k..], index - k) + [Step(Mth(leaves[..k]), Left)]
  }

  method MerkleRoot(leaves: seq<Digest>) returns (root: Digest)
    ensures root == Mth(leaves)
    decreases |leaves|
  {
    if leaves == [] {
      return EmptyHash;
    }
    if |leaves| == 1 {
      return leaves[0];
    }
    var k := FindSplit(|leaves|);
    SplitBounds(|leaves|);
    var left := MerkleRoot(leaves[..k]);
    var right := MerkleRoot(leaves[k..]);
    root := NodeHash(left, right);
  }

  method FindAuditPath(leaves: seq<Digest>, index: int) returns (path: Option<seq<Step>>)
    ensures path == if 0 <= index < |leaves| then Some(AuditPath(leaves, index)) else None
    decreases |leaves|
  {
    if !(0 <= index < |leaves|) {
      return None;
    }
    if |leaves| == 1 {
      return Some([]);
    }
    var k := FindSplit(|leaves|);
    SplitBounds(|leaves|);
    if index < k {
      var below := FindAuditPath(leaves[..k], index);
      var sibling := MerkleRoot(leaves[k..]);
      path := Some(below.value + [Step(sibling, Right)]);
    } else {
      var below := FindAuditPath(leaves[k..], index - k);
      var sibling := MerkleRoot(leaves[..k]);
      path := Some(below.value + [Step(sibling, Left)]);
    }
  }

  /* ---------- the bottom-up tree ---------- */

  /** One level up: pairs are hashed, an unpaired last node is promoted unchanged. */
  function NextLevel(cur: seq<Digest>): seq<Digest> {
    seq((|cur| + 1) / 2, i requires 0 <= i < (|cur| + 1) / 2 =>
      if 2 * i + 1 < |cur| then NodeHash(cur[2 * i], cur[2 * i + 1]) else cur[2 * i])
  }

  /** Taking an even number of nodes off a level commutes with going one level up. */
  lemma NextLevelSplits(cur: seq<Digest>, k: nat)
    requires 2 * k <= |cur|
    ensures NextLevel(cur[..2 * k]) == NextLevel(cur)[..k]
    ensures NextLevel(cur[2 * k..]) == NextLevel(cur)[k..]
  {
  }

  /** Going one level up keeps the recursive root. */
  lemma {:induction false} NextLevelKeepsRoot(cur: seq<Digest>)
    ensures Mth(NextLevel(cur)) == Mth(cur)
    decreases |cur|
  {
    var n := |cur|;
    if n == 2 {
      assert NextLevel(cur) == [NodeHash(cur[0], cur[1])];
      assert Mth(cur[..1]) == cur[0] && Mth(cur[1..]) == cur[1];
    } else if 2 < n {
      SplitBounds(n);
      SplitHalves(n);
      SplitBounds((n + 1) / 2);
      var k := Split((n + 1) / 2);
      NextLevelSplits(cur, k);
      NextLevelKeepsRoot(cur[..2 * k]);
      NextLevelKeepsRoot(cur[2 * k..]);
    }
  }

  /** The step a leaf's path takes on one level: none when its node was promoted. */
  function LevelStep(level: seq<Digest>, pos: nat): seq<Step>
    requires pos < |level|
  {
    if pos % 2 == 1 then [Step(level[pos - 1], Left)]
    else if pos + 1 < |level| then [Step(level[pos + 1], Right)]
    else []
  }

  /** A leaf's audit path is its step on this level and then its path one level up. */
  lemma {:induction false} NextLevelKeepsPath(cur: seq<Digest>, pos: nat)
    requires pos < |cur| && 2 <= |cur|
    ensures AuditPath(cur, pos) == LevelStep(cur, pos) + AuditPath(NextLevel(cur), pos / 2)
    decreases |cur|
  {
    if |cur| == 2 {
      assert Mth(cur[..1]) == cur[0] && Mth(cur[1..]) == cur[1];
    } else {
      SplitHalves(|cur|);
      SplitBounds(|NextLevel(cur)|);
      var k := Split(|NextLevel(cur)|);
      if pos < 2 * k {
        StepInLeftHalf(cur, k, pos);
        PathGoesLeft(cur, pos);
        PathGoesLeft(NextLevel(cur), pos / 2);
        NextLevelSplits(cur, k);
        NextLevelKeepsRoot(cur[2 * k..]);
      } else {
        StepInRightHalf(cur, k, pos);
        PathGoesRight(cur, pos);
        PathGoesRight(NextLevel(cur), pos / 2);
        NextLevelSplits(cur, k);
        NextLevelKeepsRoot(cur[..2 * k]);
      }
    }
  }

  lemma PathGoesLeft(leaves: seq<Digest>, index: nat)
    requires 2 <= |leaves| && index < Split(|leaves|) <= |leaves|
    ensures AuditPath(leaves, index)
         == AuditPath(leaves[..Split(|leaves|)], index) + [Step(Mth(leaves[Split(|leaves|)..]), Right)]
  {
  }

  lemma PathGoesRight(leaves: seq<Digest>, index: nat)
    requires 2 <= |leaves| && Split(|leaves|) <= index < |leaves|
    ensures AuditPath(leaves, index)
         == AuditPath(leaves[Split(|leaves|)..], index - Split(|leaves|)) + [Step(Mth(leaves[..Split(|leaves|)]), Left)]
  {
  }

  lemma {:induction false} StepInLeftHalf(cur: seq<Digest>, k: nat, pos: nat)
    requires 0 < k && pos < 2 * k < |cur|
    ensures AuditPath(cur[..2 * k], pos) == LevelStep(cur, pos) + AuditPath(NextLevel(cur)[..k], pos / 2)
    decreases |cur|, 0
  {
    NextLevelSplits(cur, k);
    NextLevelKeepsPath(cur[..2 * k], pos);
  }

  lemma {:induction false} StepInRightHalf(cur: seq<Digest>, k: nat, pos: nat)
    requires 0 < k && 2 * k <= pos < |cur|
    ensures AuditPath(cur[2 * k..], pos - 2 * k)
         == LevelStep(cur, pos) + AuditPath(NextLevel(cur)[k..], pos / 2 - k)
    decreases |cur|, 0
  {
    var right := cur[2 * k..];
    NextLevelSplits(cur, k);
    StepShifts(cur, k, pos);
    if |right| == 1 {
      assert NextLevel(right) == right;
    } else {
      NextLevelKeepsPath(right, pos - 2 * k);
    }
  }

  lemma StepShifts(cur: seq<Digest>, k: nat, pos: nat)
    requires 2 * k <= pos < |cur|
    ensures LevelStep(cur[2 * k..], pos - 2 * k) == LevelStep(cur, pos) && (pos - 2 * k) / 2 == pos / 2 - k
  {
  }

  /** Level j of the bottom-up tree. */
  function Level(leaves: seq<Digest>, j: nat): seq<Digest>
    decreases j
  {
    if j == 0 then leaves else Level(NextLevel(leaves), j - 1)
  }

  lemma {:induction false} LevelStepsUp(leaves: seq<Digest>, j: nat)
    ensures Level(leaves, j + 1) == NextLevel(Level(leaves, j))
    decreases j
  {
    if j != 0 {
      LevelStepsUp(NextLevel(leaves), j - 1);
    }
  }

  /** Node m of level j is the recursive root of the m-th aligned slice of width 2^j. */
  lemma {:induction false} NodeIsRootOfSlice(leaves: seq<Digest>, j: nat, m: nat)
    requires m < |Level(leaves, j)|
    ensures Shl(m, j) < |leaves|
    ensures Level(leaves, j)[m] == Mth(Window(leaves, Shl(m, j), Shl(1, j)))
    decreases j
  {
    if j == 0 {
      assert Window(leaves, m, 1) == [leaves[m]];
    } else {
      NodeIsRootOfSlice(NextLevel(leaves), j - 1, m);
      DoubledWindow(leaves, Shl(m, j - 1), Shl(1, j - 1));
    }
  }

  /** At most width elements from position lo on. */
  function Window(s: seq<Digest>, lo: nat, width: nat): seq<Digest>
    requires lo <= |s|
  {
    s[lo..if lo + width < |s| then lo + width else |s|]
  }

  lemma DoubledWindow(leaves: seq<Digest>, lo: nat, width: nat)
    requires lo < |NextLevel(leaves)|
    ensures Mth(Window(NextLevel(leaves), lo, width)) == Mth(Window(leaves, 2 * lo, 2 * width))
  {
    var next, end := NextLevel(leaves), lo + width;
    if end < |next| {
      NextLevelSplits(leaves, end);
      NextLevelSplits(leaves[..2 * end], lo);
      assert Window(leaves, 2 * lo, 2 * width) == leaves[..2 * end][2 * lo..];
      assert Window(next, lo, width) == next[..end][lo..];
    } else {
      NextLevelSplits(leaves, lo);
      assert Window(leaves, 2 * lo, 2 * width) == leaves[2 * lo..];
      assert Window(next, lo, width) == next[lo..];
    }
    NextLevelKeepsRoot(Window(leaves, 2 * lo, 2 * width));
  }

  /** What a bottom-up build of a non-empty tree hands over: every level, up to a single node. */
  ghost predicate IsTree(leaves: seq<Digest>, levels: seq<seq<Digest>>) {
    && levels != []
    && |levels[|levels| - 1]| == 1
    && (forall j :: 0 <= j < |levels| ==> levels[j] == Level(leaves, j))
    && (forall j :: 0 <= j < |levels| - 1 ==> 2 <= |levels[j]|)
  }

  /** The bottom-up tree: its last level holds the recursive root. */
  method MerkleLevels(leaves: seq<Digest>) returns (levels: seq<seq<Digest>>)
    ensures levels != [] && levels[|levels| - 1] == [Mth(leaves)]
    ensures leaves != [] ==> IsTree(leaves, levels)
  {
    if leaves == [] {
      return [[EmptyHash]];
    }
    levels := [leaves];
    while 1 < |levels[|levels| - 1]|
      invariant levels != [] && levels[|levels| - 1] != []
      invariant forall j :: 0 <= j < |levels| ==> levels[j] == Level(leaves, j)
      invariant forall j :: 0 <= j < |levels| - 1 ==> 2 <= |levels[j]|
      invariant Mth(levels[|levels| - 1]) == Mth(leaves)
      decreases |levels[|levels| - 1]|
    {
      var cur := levels[|levels| - 1];
      LevelStepsUp(leaves, |levels| - 1);
      NextLevelKeepsRoot(cur);
      levels := levels + [NextLevel(cur)];
    }
    assert levels[|levels| - 1] == [Mth(leaves)];
  }

  /** A path from a node of one level is its step and a path from its parent, one level up. */
  lemma LevelGoesUp(leaves: seq<Digest>, j: nat, pos: nat)
    requires pos < |Level(leaves, j)| && 2 <= |Level(leaves, j)|
    ensures pos / 2 < |Level(leaves, j + 1)|
    ensures AuditPath(Level(leaves, j), pos) == LevelStep(Level(leaves, j), pos) + AuditPath(Level(leaves, j + 1), pos / 2)
  {
    LevelStepsUp(leaves, j);
    NextLevelKeepsPath(Level(leaves, j), pos);
  }

  lemma Regroup(a: seq<Step>, b: seq<Step>, c: seq<Step>)
    ensures a + b + c == a + (b + c)
  {
  }

  /** One leaf's path, level by level. */
  method PathThrough(leaves: seq<Digest>, levels: seq<seq<Digest>>, i: nat) returns (path: seq<Step>)
    requires i < |leaves| && IsTree(leaves, levels)
    ensures path == AuditPath(leaves, i)
  {
    path := [];
    var pos: nat := i;
    for j := 0 to |levels| - 1
      invariant pos < |Level(leaves, j)|
      invariant path + AuditPath(Level(leaves, j), pos) == AuditPath(leaves, i)
    {
      var lvl := levels[j];
      var sib := if pos % 2 == 0 then pos + 1 else pos - 1;
      LevelGoesUp(leaves, j, pos);
      Regroup(path, LevelStep(lvl, pos), AuditPath(Level(leaves, j + 1), pos / 2));
      if sib < |lvl| {
        path := path + [Step(lvl[sib], if sib < pos then Left else Right)];
      } else {
        assert path + LevelStep(lvl, pos) == path;
      }
      pos := pos / 2;
    }
  }

  /** Every audit path, read off one bottom-up tree. */
  method AuditPaths(leaves: seq<Digest>) returns (out: seq<seq<Step>>)
    ensures |out| == |leaves|
    ensures forall i :: 0 <= i < |leaves| ==> out[i] == AuditPath(leaves, i)
  {
    var levels := MerkleLevels(leaves);
    out := [];
    for i := 0 to |leaves|
      invariant |out| == i
      invariant forall k :: 0 <= k < i ==> out[k] == AuditPath(leaves, k)
    {
      var path := PathThrough(leaves, levels, i);
      out := out + [path];
    }
  }

  /* ---------- the decoders ---------- */

  /** The index a path proves in a tree of n leaves, read from the root down. */
  function IndexOf(path: seq<Step>, n: nat): Option<nat> {
    if path == [] then (if n == 1 then Some(0) else None)
    else if n <= 1 then None
    else
      SplitBounds(n);
      var k := Split(n);
      var rest := path[..|path| - 1];
      if path[|path| - 1].side == Right then IndexOf(rest, k)
      else match IndexOf(rest, n - k) case None => None case Some(i) => Some(k + i)
  }

  method IndexFromPath(path: seq<Step>, n: nat) returns (index: Option<nat>)
    ensures index == IndexOf(path, n)
  {
    var lo, size := 0, n;
    var left := |path|;
    assert path[..left] == path;
    while left != 0
      invariant 0 <= left <= |path|
      invariant IndexOf(path, n)
             == match IndexOf(path[..left], size) case None => None case Some(i) => Some(lo + i)
    {
      if size <= 1 {
        return None;
      }
      var step := path[left - 1];
      assert path[..left][..left - 1] == path[..left - 1];
      left := left - 1;
      var k := FindSplit(size);
      SplitBounds(size);
      if step.side == Right {
        size := k;
      } else {
        lo, size := lo + k, size - k;
      }
    }
    if size != 1 {
      return None;
    }
    return Some(lo);
  }

  /** The root a leaf reaches along a path. */
  function RootOf(leaf: Digest, path: seq<Step>): Digest {
    if path == [] then leaf
    else
      var below := RootOf(leaf, path[..|path| - 1]);
      var step := path[|path| - 1];
      if step.side == Left then NodeHash(step.hash, below) else NodeHash(below, step.hash)
  }

  method RootFromPath(leaf: Digest, path: seq<Step>) returns (root: Digest)
    ensures root == RootOf(leaf, path)
  {
    root := leaf;
    for i := 0 to |path|
      invariant root == RootOf(leaf, path[..i])
    {
      assert path[..i + 1][..i] == path[..i];
      var step := path[i];
      root := if step.side == Left then NodeHash(step.hash, root) else NodeHash(root, step.hash);
    }
    assert path[..|path|] == path;
  }

  /* ---------- soundness and completeness ---------- */

  /** Every leaf's own path leads to the root and decodes to the leaf's index. */
  lemma {:induction false} PathIsComplete(leaves: seq<Digest>, index: nat)
    requires index < |leaves|
    ensures RootOf(leaves[index], AuditPath(leaves, index)) == Mth(leaves)
    ensures IndexOf(AuditPath(leaves, index), |leaves|) == Some(index)
    decreases |leaves|
  {
    if |leaves| != 1 {
      SplitBounds(|leaves|);
      var k := Split(|leaves|);
      var path := AuditPath(leaves, index);
      if index < k {
        PathIsComplete(leaves[..k], index);
        assert path[..|path| - 1] == AuditPath(leaves[..k], index);
      } else {
        PathIsComplete(leaves[k..], index - k);
        assert path[..|path| - 1] == AuditPath(leaves[k..], index - k);
      }
    }
  }

  /** A path that decodes to an index and leads to the root is that leaf's own path. */
  lemma {:induction false} PathIsSound(leaves: seq<Digest>, leaf: Digest, path: seq<Step>)
    requires IndexOf(path, |leaves|).Some?
    requires RootOf(leaf, path) == Mth(leaves)
    ensures var j := IndexOf(path, |leaves|).value;
            j < |leaves| && leaf == leaves[j] && path == AuditPath(leaves, j)
    decreases |leaves|
  {
    if path != [] {
      SplitBounds(|leaves|);
      var k := Split(|leaves|);
      var rest, last := path[..|path| - 1], path[|path| - 1];
      assert path == rest + [last];
      if last.side == Right {
        assert last.hash == Mth(leaves[k..]);
        PathIsSound(leaves[..k], leaf, rest);
      } else {
        assert last.hash == Mth(leaves[..k]);
        PathIsSound(leaves[k..], leaf, rest);
      }
    }
  }

  /** Lists of equal length with equal roots are equal, whatever digests they hold. */
  lemma {:induction false} RootFixesLeaves(a: seq<Digest>, b: seq<Digest>)
    requires |a| == |b| && Mth(a) == Mth(b)
    ensures a == b
    decreases |a|
  {
    if 2 <= |a| {
      SplitBounds(|a|);
      var k := Split(|a|);
      RootFixesLeaves(a[..k], b[..k]);
      RootFixesLeaves(a[k..], b[k..]);
      assert a == a[..k] + a[k..] && b == b[..k] + b[k..];
    }
  }

  ghost predicate AllLeafHashes(leaves: seq<Digest>) {
    forall i :: 0 <= i < |leaves| ==> leaves[i].LeafHash?
  }

  /** The domain bytes make the root fix the length too: no list of leaf hashes shares its root with another. */
  lemma {:induction false} RootFixesLeafHashes(a: seq<Digest>, b: seq<Digest>)
    requires AllLeafHashes(a) && AllLeafHashes(b)
    requires Mth(a) == Mth(b)
    ensures a == b
    decreases |a|
  {
    if 2 <= |a| && 2 <= |b| {
      SplitBounds(|a|);
      SplitBounds(|b|);
      var i, j := Split(|a|), Split(|b|);
      RootFixesLeafHashes(a[..i], b[..j]);
      RootFixesLeafHashes(a[i..], b[j..]);
      assert a == a[..i] + a[i..] && b == b[..j] + b[j..];
    } else if |a| == 1 || |b| == 1 {
      assert |a| == |b| == 1;
    }
  }
}
