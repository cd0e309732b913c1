/**
 The shape of the tree of RFC 6962, told by powers of two and by the bits of an index.
 */
module MerkleShape {
  import opened Wrappers
  import opened Merkle

  function Two(j: nat): (p: nat)
    ensures 0 < p
  {
    if j == 0 then 1 else 2 * Two(j - 1)
  }

  lemma {:induction false} TwoIsShl(j: nat)
    ensures Shl(1, j) == Two(j)
    decreases j
  {
    if 0 < j {
      TwoIsShl(j - 1);
    }
  }

  /** The head of no leaves, of one, and of more: the first 2^j of them on the left, the others on the right, for the one j with 2^j < n <= 2^(j+1). */
  lemma HeadOfHalves(leaves: seq<Digest>, j: nat)
    ensures Mth([]) == EmptyHash
    ensures |leaves| == 1 ==> Mth(leaves) == leaves[0]
    ensures Two(j) < |leaves| <= Two(j + 1) ==> Mth(leaves) == NodeHash(Mth(leaves[..Two(j)]), Mth(leaves[Two(j)..]))
  {
    if Two(j) < |leaves| <= Two(j + 1) {
      TwoIsShl(j);
      SplitIsPowerOfTwo(|leaves|, j);
    }
  }

  /** Bit j of a number, the lowest being bit 0. */
  predicate Bit(i: nat, j: nat)
    decreases j
  {
    if j == 0 then i % 2 == 1 else Bit(i / 2, j - 1)
  }

  /** A higher bit set or not, the lower ones are the same. */
  lemma {:induction false} LowerBits(i: nat, m: nat, j: nat)
    requires j < m
    ensures Bit(Two(m) + i, j) == Bit(i, j)
    decreases j
  {
    assert (Two(m) + i) / 2 == Two(m - 1) + i / 2;
    if 0 < j {
      LowerBits(i / 2, m - 1, j - 1);
    }
  }

  lemma {:induction false} TopBit(i: nat, m: nat)
    requires i < Two(m + 1)
    ensures Bit(i, m) <==> Two(m) <= i
    decreases m
  {
    if 0 < m {
      TopBit(i / 2, m - 1);
    }
  }

  /** In a full tree of 2^m leaves every path has m steps, and a sibling stands on the left exactly where the bit of the index is set. */
  lemma {:induction false} SidesAreBits(leaves: seq<Digest>, m: nat, i: nat, j: nat)
    requires |leaves| == Two(m) && i < |leaves| && j < m
    ensures |AuditPath(leaves, i)| == m
    ensures AuditPath(leaves, i)[j].side == if Bit(i, j) then Left else Right
    decreases m
  {
    var k := Two(m - 1);
    TwoIsShl(m - 1);
    SplitIsPowerOfTwo(|leaves|, m - 1);
    TopBit(i, m - 1);
    PathLength(leaves, m, i);
    if i < k {
      PathLength(leaves[..k], m - 1, i);
      if j < m - 1 {
        SidesAreBits(leaves[..k], m - 1, i, j);
      }
    } else {
      PathLength(leaves[k..], m - 1, i - k);
      if j < m - 1 {
        SidesAreBits(leaves[k..], m - 1, i - k, j);
        LowerBits(i - k, m - 1, j);
      }
    }
  }

  lemma {:induction false} PathLength(leaves: seq<Digest>, m: nat, i: nat)
    requires |leaves| == Two(m) && i < |leaves|
    ensures |AuditPath(leaves, i)| == m
    decreases m
  {
    if 0 < m {
      var k := Two(m - 1);
      TwoIsShl(m - 1);
      SplitIsPowerOfTwo(|leaves|, m - 1);
      PathLength(if i < k then leaves[..k] else leaves[k..], m - 1, if i < k then i else i - k);
    }
  }
}
