/**
 * Section 2.1 of RFC 6962 in bytes: its equations with the hash inputs and the power of two written out, and
 * its example of seven entries.
 */
module Rfc6962 {
  import opened Prelude
  import opened Bits
  import opened MerkleTree
  import opened MerkleShape
  import opened MerkleProof

  /** `k` is the largest power of two smaller than `n`. */
  ghost predicate LargestPow2Below(k: nat, n: nat) {
    (exists e: nat :: k == Pow2(e)) && k < n <= 2 * k
  }

  lemma {:induction false} PowersOfTwo(e: nat)
    ensures IsPow2(Pow2(e))
  {
    if e > 0 { PowersOfTwo(e - 1); }
  }

  lemma {:induction false} SplitIsLargest(k: nat, n: nat)
    requires LargestPow2Below(k, n)
    ensures n >= 2 && k == Split(n)
  {
    var e: nat :| k == Pow2(e);
    PowersOfTwo(e);
    SplitIsLargestPow2(n, k);
  }

  /** MTH: a leaf is hashed behind the byte 0, two subtrees behind the byte 1, left one first. */
  lemma {:induction false} TreeHash(sha: HashFn, leaves: seq<Bytes>, k: nat)
    ensures leaves == [] ==> MTH(sha, leaves) == sha([])
    ensures |leaves| == 1 ==> MTH(sha, leaves) == sha([0] + leaves[0])
    ensures LargestPow2Below(k, |leaves|) ==>
              MTH(sha, leaves) == sha([1] + MTH(sha, leaves[..k]) + MTH(sha, leaves[k..]))
  {
    if LargestPow2Below(k, |leaves|) { SplitIsLargest(k, |leaves|); }
  }

  /** PATH (section 2.1.1). */
  lemma {:induction false} AuditPath(sha: HashFn, m: nat, leaves: seq<Bytes>, k: nat)
    requires m < |leaves|
    ensures |leaves| == 1 ==> Path(sha, m, leaves) == []
    ensures LargestPow2Below(k, |leaves|) ==>
              Path(sha, m, leaves) ==
              if m < k then Path(sha, m, leaves[..k]) + [MTH(sha, leaves[k..])]
              else Path(sha, m - k, leaves[k..]) + [MTH(sha, leaves[..k])]
  {
    if LargestPow2Below(k, |leaves|) { SplitIsLargest(k, |leaves|); }
  }

  /** PROOF and SUBPROOF (section 2.1.2). */
  lemma {:induction false} ConsistencyProof(sha: HashFn, m: nat, leaves: seq<Bytes>, known: bool, k: nat)
    requires 0 < m <= |leaves|
    ensures Proof(sha, m, leaves) == Subproof(sha, m, leaves, true)
    ensures m == |leaves| ==> Subproof(sha, m, leaves, known) == if known then [] else [MTH(sha, leaves)]
    ensures m < |leaves| && LargestPow2Below(k, |leaves|) ==>
              Subproof(sha, m, leaves, known) ==
              if m <= k then Subproof(sha, m, leaves[..k], known) + [MTH(sha, leaves[k..])]
              else Subproof(sha, m - k, leaves[k..], false) + [MTH(sha, leaves[..k])]
  {
    if LargestPow2Below(k, |leaves|) { SplitIsLargest(k, |leaves|); }
  }

  // ----- The example of section 2.1.3

  function Parent(sha: HashFn, left: Digest, right: Digest): Digest {
    sha([1] + left + right)
  }

  function Leaf(sha: HashFn, data: Bytes): Digest {
    sha([0] + data)
  }

  lemma {:induction false} One(sha: HashFn, x: Bytes)
    ensures MTH(sha, [x]) == Leaf(sha, x) && Path(sha, 0, [x]) == []
    ensures Subproof(sha, 1, [x], false) == [Leaf(sha, x)]
  {
  }

  lemma {:induction false} Two(sha: HashFn, x: Bytes, y: Bytes)
    ensures MTH(sha, [x, y]) == Parent(sha, Leaf(sha, x), Leaf(sha, y))
    ensures Path(sha, 0, [x, y]) == [Leaf(sha, y)] && Path(sha, 1, [x, y]) == [Leaf(sha, x)]
    ensures Subproof(sha, 2, [x, y], false) == [MTH(sha, [x, y])]
    ensures Subproof(sha, 1, [x, y], false) == [Leaf(sha, x), Leaf(sha, y)]
  {
    assert Split(2) == 1;
    assert [x, y][..1] == [x] && [x, y][1..] == [y];
    One(sha, x);
    One(sha, y);
  }

  lemma {:induction false} Three(sha: HashFn, x: Bytes, y: Bytes, z: Bytes)
    ensures MTH(sha, [x, y, z]) == Parent(sha, MTH(sha, [x, y]), Leaf(sha, z))
    ensures Path(sha, 0, [x, y, z]) == [Leaf(sha, y), Leaf(sha, z)] && Path(sha, 2, [x, y, z]) == [MTH(sha, [x, y])]
    ensures Subproof(sha, 2, [x, y, z], false) == [MTH(sha, [x, y]), Leaf(sha, z)]
  {
    assert Split(3) == 2;
    assert [x, y, z][..2] == [x, y] && [x, y, z][2..] == [z];
    Two(sha, x, y);
    One(sha, z);
  }

  lemma {:induction false} Four(sha: HashFn, w: Bytes, x: Bytes, y: Bytes, z: Bytes)
    ensures MTH(sha, [w, x, y, z]) == Parent(sha, MTH(sha, [w, x]), MTH(sha, [y, z]))
    ensures Path(sha, 0, [w, x, y, z]) == [Leaf(sha, x), MTH(sha, [y, z])]
    ensures Path(sha, 3, [w, x, y, z]) == [Leaf(sha, y), MTH(sha, [w, x])]
    ensures Subproof(sha, 3, [w, x, y, z], true) == [Leaf(sha, y), Leaf(sha, z), MTH(sha, [w, x])]
    ensures Subproof(sha, 4, [w, x, y, z], true) == []
  {
    assert Split(4) == 2;
    assert [w, x, y, z][..2] == [w, x] && [w, x, y, z][2..] == [y, z];
    Two(sha, w, x);
    Two(sha, y, z);
  }

  /** Seven entries; the letters are those of the standard, for entries `d0` to `d6`. */
  lemma {:induction false} SevenEntries(sha: HashFn, d: seq<Bytes>)
    requires |d| == 7
    ensures var (a, b, c, d', e, f, j) := (Leaf(sha, d[0]), Leaf(sha, d[1]), Leaf(sha, d[2]), Leaf(sha, d[3]),
                                           Leaf(sha, d[4]), Leaf(sha, d[5]), Leaf(sha, d[6]));
            var (g, h, i) := (Parent(sha, a, b), Parent(sha, c, d'), Parent(sha, e, f));
            var (k, l) := (Parent(sha, g, h), Parent(sha, i, j));
            && MTH(sha, d) == Parent(sha, k, l)
            && Path(sha, 0, d) == [b, h, l] && Path(sha, 3, d) == [c, g, l]
            && Path(sha, 4, d) == [f, j, k] && Path(sha, 6, d) == [i, k]
            && Proof(sha, 3, d) == [c, d', g, l] && Proof(sha, 4, d) == [l] && Proof(sha, 6, d) == [i, j, k]
  {
    hide Parent, Leaf;
    assert Split(7) == 4;
    var (left, right) := ([d[0], d[1], d[2], d[3]], [d[4], d[5], d[6]]);
    assert d[..4] == left && d[4..] == right;
    Two(sha, d[0], d[1]);
    Two(sha, d[2], d[3]);
    Two(sha, d[4], d[5]);
    Four(sha, d[0], d[1], d[2], d[3]);
    Three(sha, d[4], d[5], d[6]);
    Whole(sha, d, left, right);
  }

  lemma {:induction false} Whole(sha: HashFn, d: seq<Bytes>, left: seq<Bytes>, right: seq<Bytes>)
    requires |d| == 7 && Split(7) == 4 && d[..4] == left && d[4..] == right
    ensures MTH(sha, d) == Parent(sha, MTH(sha, left), MTH(sha, right))
    ensures Path(sha, 0, d) == Path(sha, 0, left) + [MTH(sha, right)]
    ensures Path(sha, 3, d) == Path(sha, 3, left) + [MTH(sha, right)]
    ensures Path(sha, 4, d) == Path(sha, 0, right) + [MTH(sha, left)]
    ensures Path(sha, 6, d) == Path(sha, 2, right) + [MTH(sha, left)]
    ensures Proof(sha, 3, d) == Subproof(sha, 3, left, true) + [MTH(sha, right)]
    ensures Proof(sha, 4, d) == Subproof(sha, 4, left, true) + [MTH(sha, right)]
    ensures Proof(sha, 6, d) == Subproof(sha, 2, right, false) + [MTH(sha, left)]
  {
  }

  /** What is accepted for two entries, in bytes. */
  lemma {:induction false} TwoEntries(sha: HashFn, leafHash: Digest, sibling: Digest, root: Digest)
    ensures InclusionAccepts(sha, leafHash, 0, 2, [sibling], root) <==> root == sha([1] + leafHash + sibling)
    ensures InclusionAccepts(sha, leafHash, 1, 2, [sibling], root) <==> root == sha([1] + sibling + leafHash)
    ensures ConsistencyAccepts(sha, 1, 2, [sibling], leafHash, root) <==> root == sha([1] + leafHash + sibling)
  {
    assert Split(2) == 1;
    assert Dirs(1, 0) == [] && ConsistencyDirs(1, 1) == [];
    assert Dirs(2, 0) == [false] && Dirs(2, 1) == [true] && ConsistencyDirs(2, 1) == [false];
    assert IsPow2(1);
    OneTurn(sha, leafHash, sibling, false);
    OneTurn(sha, leafHash, sibling, true);
  }

  lemma {:induction false} OneTurn(sha: HashFn, seed: Digest, sibling: Digest, left: bool)
    ensures RouteOf([sibling], [left]) == Down(left, sibling, Here)
    ensures Climb(sha, seed, Down(left, sibling, Here)) ==
            if left then sha([1] + sibling + seed) else sha([1] + seed + sibling)
    ensures ClimbOld(sha, seed, Down(false, sibling, Here)) == seed
  {
    assert RouteUpTo([sibling], [left], 0) == Here;
  }
}
