/**
 * The shape of a Merkle tree: on which side of its sibling each node of a path lies.
 * RFC 6962 defines it from the root down, proof.rs computes it from the leaf up; this
 * module proves that the two agree. `true` means that the sibling is on the left.
 */
module MerkleShape {
  import opened Bits
  import opened MerkleTree

  /** The sides along PATH(i, D[n]), leaf first, from the RFC's recursion. */
  function Dirs(n: nat, i: nat): seq<bool>
    requires i < n
  {
    if n == 1 then []
    else
      var k := Split(n);
      if i < k then Dirs(k, i) + [false] else Dirs(n - k, i - k) + [true]
  }

  /** The sides along PROOF(m, D[n]), above the node that holds leaf m - 1 last. */
  function ConsistencyDirs(n: nat, m: nat): seq<bool>
    requires 0 < m <= n
  {
    if m == n then []
    else
      var k := Split(n);
      if m <= k then ConsistencyDirs(k, m) + [false]
      else ConsistencyDirs(n - k, m - k) + [true]
  }

  /** The same sides level by level from the leaves: a last node without sibling is promoted. */
  function LevelDirs(i: nat, last: nat): seq<bool>
    requires i <= last
    decreases last
  {
    if last == 0 then []
    else if i == last && last % 2 == 0 then LevelDirs(i / 2, last / 2)
    else [i % 2 == 1] + LevelDirs(i / 2, last / 2)
  }

  lemma {:induction false} DoubleBelowLargest(n: nat, k: nat, p: nat)
    requires 0 < k < n && IsPow2(k)
    ensures IsPow2(DoubleBelow(n, k))
    ensures IsPow2(p) && k <= p < n <= 2 * p ==> p == DoubleBelow(n, k)
    decreases n - k
  {
    if 2 * k < n {
      assert k <= p < 2 * k && IsPow2(p) ==> p == k by { Pow2Gap(k, p); }
      DoubleBelowLargest(n, 2 * k, p);
    } else {
      Pow2Gap(k, p);
    }
  }

  /** There is no power of two strictly between one and its double. */
  lemma {:induction false} Pow2Gap(k: nat, p: nat)
    requires IsPow2(k)
    ensures IsPow2(p) && k <= p < 2 * k ==> p == k
  {
    if IsPow2(p) && k <= p < 2 * k && k > 1 {
      Pow2Gap(k / 2, p / 2);
    }
  }

  /** The split point is a power of two, and the only one from which doubling reaches `n`. */
  lemma {:induction false} SplitIsLargestPow2(n: nat, p: nat)
    requires n >= 2
    ensures IsPow2(Split(n))
    ensures IsPow2(p) && p < n <= 2 * p ==> p == Split(n)
  {
    DoubleBelowLargest(n, 1, p);
  }

  lemma {:induction false} DoubleBelowLevel(n: nat, k: nat, up: nat)
    requires 0 < k && 2 * k < n && 2 * up - 1 <= n <= 2 * up
    ensures DoubleBelow(n, 2 * k) == 2 * DoubleBelow(up, k)
    decreases n - k
  {
    if 4 * k < n {
      DoubleBelowLevel(n, 2 * k, up);
    }
  }

  /** A list cut beyond its split point still splits there. */
  lemma {:induction false} SplitOfPrefix(n: nat, m: nat)
    requires n >= 2 && Split(n) < m <= n
    ensures Split(m) == Split(n)
  {
    SplitIsLargestPow2(n, 1);
    SplitIsLargestPow2(m, Split(n));
  }

  /** What the lowest level contributes: nothing for a promoted node, else the side of its sibling. */
  function LowestDir(n: nat, i: nat, odd: bool): seq<bool> {
    if i == n - 1 && !odd then [] else [odd]
  }

  /** One level up: the parents of `n` nodes form a tree of `up` nodes, in which node `a` is the parent of `i`. */
  lemma {:induction false} DirsLevel(n: nat, i: nat, up: nat, a: nat)
    requires i < n && n >= 2 && 2 * up - 1 <= n <= 2 * up && 2 * a <= i <= 2 * a + 1
    ensures Dirs(n, i) == LowestDir(n, i, i != 2 * a) + Dirs(up, a)
    decreases n
  {
    if n > 2 {
      var h := Split(up);
      DoubleBelowLevel(n, 1, up);
      if i < 2 * h {
        DirsLevel(2 * h, i, h, a);
        SameTop(n, i, up, a, LowestDir(n, i, i != 2 * a), Dirs(2 * h, i), Dirs(h, a));
      } else {
        var q, j, low := n - 2 * h, i - 2 * h, LowestDir(n, i, i != 2 * a);
        if q >= 2 {
          DirsLevel(q, j, up - h, a - h);
          assert low == LowestDir(q, j, j != 2 * (a - h));
        } else {
          assert low == [] && up - h == 1 && a - h == 0;
        }
        SameTop(n, i, up, a, low, Dirs(q, j), Dirs(up - h, a - h));
      }
    } else {
      assert Dirs(1, 0) == [];
    }
  }

  /** Both trees turn the same way at their roots. */
  lemma {:induction false} SameTop(n: nat, i: nat, up: nat, a: nat, low: seq<bool>, below: seq<bool>,
        belowUp: seq<bool>)
    requires i < n && n > 2 && a < up && up >= 2 && Split(n) == 2 * Split(up) && 2 * a <= i <= 2 * a + 1
    requires below == low + belowUp
    requires if i < Split(n)
             then below == Dirs(Split(n), i) && belowUp == Dirs(Split(up), a)
             else below == Dirs(n - Split(n), i - Split(n)) && belowUp == Dirs(up - Split(up), a - Split(up))
    ensures Dirs(n, i) == low + Dirs(up, a)
  {
    var top := [i >= Split(n)];
    assert Dirs(n, i) == below + top && Dirs(up, a) == belowUp + top;
    assert (low + belowUp) + top == low + (belowUp + top);
  }

  /** Top-down and bottom-up give the same sides. */
  lemma {:induction false} LevelDirsCorrect(i: nat, n: nat)
    requires i < n
    ensures LevelDirs(i, n - 1) == Dirs(n, i)
    decreases n
  {
    if n > 1 {
      var last, a := (n - 1) / 2, i / 2;
      LevelDirsCorrect(a, last + 1);
      DirsLevel(n, i, last + 1, a);
    }
  }

  /** `inner` siblings are placed by the bits of the index, `border` siblings on the left. */
  function InnerBorderDirs(i: nat, inner: nat, border: nat): seq<bool> {
    seq(inner, j requires 0 <= j => ShiftDown(i, j) % 2 == 1) + seq(border, _ => true)
  }

  /** decompose_inclusion_proof is exact: bit length of the xor, then the bits set above it. */
  lemma {:induction false} LevelDirsDecompose(i: nat, last: nat)
    requires i <= last
    ensures var inner := BitLen(Xor(i, last));
            LevelDirs(i, last) == InnerBorderDirs(i, inner, PopCount(ShiftDown(i, inner)))
    decreases last
  {
    XorZero(i, last);
    if last > 0 {
      LevelDirsDecompose(i / 2, last / 2);
      var inner := BitLen(Xor(i / 2, last / 2));
      XorZero(i / 2, last / 2);
      if i < last {
        assert BitLen(Xor(i, last)) == 1 + inner;
        var border := PopCount(ShiftDown(i / 2, inner));
        assert LevelDirs(i, last) == [i % 2 == 1] + InnerBorderDirs(i / 2, inner, border);
      }
    }
  }

  // ----- Consistency proofs

  function Trues(n: nat): seq<bool> {
    seq(n, _ => true)
  }

  lemma {:induction false} TrailingZerosOfSum(k: nat, d: nat)
    requires IsPow2(k) && 0 < d < k
    ensures TrailingZeros(k + d) == TrailingZeros(d)
  {
    if d % 2 == 0 {
      TrailingZerosOfSum(k / 2, d / 2);
    }
  }

  lemma {:induction false} Pow2Shape(k: nat)
    requires IsPow2(k)
    ensures Dirs(k, k - 1) == Trues(TrailingZeros(k))
  {
    if k > 1 {
      SplitIsLargestPow2(k, k / 2);
      Pow2Shape(k / 2);
    }
  }

  /**
   * The consistency path starts at the largest complete subtree that ends at leaf m - 1:
   * below it, the path of that leaf turns left trailing_zeros(m) times.
   */
  lemma {:induction false} ConsistencyDirsAbovePath(n: nat, m: nat)
    requires 0 < m < n
    ensures Dirs(n, m - 1) == Trues(TrailingZeros(m)) + ConsistencyDirs(n, m)
  {
    var k := Split(n);
    SplitIsLargestPow2(n, k);
    if m < k {
      ConsistencyDirsAbovePath(k, m);
    } else if m == k {
      Pow2Shape(k);
    } else {
      ConsistencyDirsAbovePath(n - k, m - k);
      TrailingZerosOfSum(k, m - k);
    }
  }

  /** `inner` is more than the shift: `saturating_sub` in proof.rs never saturates. */
  lemma {:induction false} ShiftBelowInner(m: nat, n: nat)
    requires 0 < m < n
    ensures TrailingZeros(m) < BitLen(Xor(m - 1, n - 1))
    decreases m
  {
    XorZero(m - 1, n - 1);
    if m % 2 == 0 {
      assert (m - 1) / 2 == m / 2 - 1 && (n - 1) / 2 == (n + 1) / 2 - 1;
      ShiftBelowInner(m / 2, (n + 1) / 2);
    }
  }

  lemma {:induction false} DropInner(i: nat, inner: nat, border: nat, shift: nat, above: seq<bool>)
    requires shift <= inner && InnerBorderDirs(i, inner, border) == Trues(shift) + above
    ensures above == InnerBorderDirs(ShiftDown(i, shift), inner - shift, border)
  {
    var whole, short := InnerBorderDirs(i, inner, border), InnerBorderDirs(ShiftDown(i, shift), inner - shift, border);
    assert |above| == |short|;
    forall j | 0 <= j < |short|
      ensures above[j] == short[j]
    {
      assert above[j] == whole[shift + j];
      ShiftDownAdd(i, shift, j);
    }
  }

  /** The bit tests of the `chain_*` loops walk exactly the RFC's consistency path. */
  lemma {:induction false} ConsistencyDirsDecompose(m: nat, n: nat)
    requires 0 < m < n
    ensures var shift, inner := TrailingZeros(m), BitLen(Xor(m - 1, n - 1));
            shift < inner &&
            ConsistencyDirs(n, m) ==
            InnerBorderDirs(ShiftDown(m - 1, shift), inner - shift, PopCount(ShiftDown(m - 1, inner)))
  {
    ShiftBelowInner(m, n);
    LevelDirsCorrect(m - 1, n);
    LevelDirsDecompose(m - 1, n - 1);
    ConsistencyDirsAbovePath(n, m);
    var inner := BitLen(Xor(m - 1, n - 1));
    DropInner(m - 1, inner, PopCount(ShiftDown(m - 1, inner)), TrailingZeros(m), ConsistencyDirs(n, m));
  }

  /** The largest tree below 2^64 leaves has paths of at most 64 siblings: ceil(log2 n). */
  lemma {:induction false} PathLengthBound(n: nat, i: nat, w: nat)
    requires i < n <= Pow2(w)
    ensures |Dirs(n, i)| <= w
    decreases n
  {
    if n > 1 {
      DirsLevel(n, i, (n + 1) / 2, i / 2);
      PathLengthBound((n + 1) / 2, i / 2, w - 1);
    }
  }

  /** The seed of a consistency proof is implied exactly when `m` is a power of two. */
  lemma {:induction false} Pow2IffShift(m: nat)
    requires m > 0
    ensures IsPow2(m) <==> m == Pow2(TrailingZeros(m))
  {
    if m % 2 == 0 {
      Pow2IffShift(m / 2);
    }
  }
}
