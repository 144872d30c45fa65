/** The proof verifiers of proof.rs, against a fold over the RFC's path. */
module MerkleProof {
  import opened Prelude
  import opened Bits
  import opened MerkleTree
  import opened MerkleShape

  datatype MerkleError =
    | InvalidProof
    | VerificationFailed
    | InvalidTreeSize
    | InvalidLeafIndex
    | HashMismatch(expected: Digest, actual: Digest)

  /** A way from the root down to a node, with the sibling at each turn; `left` is the sibling's side. */
  datatype Route = Here | Down(left: bool, sibling: Digest, rest: Route)

  /** A proof lists the siblings from the bottom, `dirs` their sides. */
  function RouteOf(proof: seq<Digest>, dirs: seq<bool>): Route
    requires |proof| == |dirs|
  {
    RouteUpTo(proof, dirs, |proof|)
  }

  /** The part of the route below the first `len` siblings. */
  function RouteUpTo(proof: seq<Digest>, dirs: seq<bool>, len: nat): Route
    requires len <= |proof| && len <= |dirs|
  {
    if len == 0 then Here else Down(dirs[len - 1], proof[len - 1], RouteUpTo(proof, dirs, len - 1))
  }

  /** Hash from `seed` up to the root. */
  function Climb(sha: HashFn, seed: Digest, route: Route): Digest {
    match route
    case Here => seed
    case Down(left, sibling, rest) =>
      var below := Climb(sha, seed, rest);
      if left then NodeHash(sha, sibling, below) else NodeHash(sha, below, sibling)
  }

  /** The same for the old tree of a consistency proof, which has no siblings on the right. */
  function ClimbOld(sha: HashFn, seed: Digest, route: Route): Digest {
    match route
    case Here => seed
    case Down(left, sibling, rest) =>
      var below := ClimbOld(sha, seed, rest);
      if left then NodeHash(sha, sibling, below) else below
  }

  /** What it means for an inclusion proof to be accepted, in terms of the RFC's path. */
  predicate InclusionAccepts(sha: HashFn, leafHash: Digest, i: nat, n: nat, proof: seq<Digest>, root: Digest) {
    i < n && |proof| == |Dirs(n, i)| && Climb(sha, leafHash, RouteOf(proof, Dirs(n, i))) == root
  }

  /** The seed and the rest of a consistency proof: the old root itself when `m` is a power of two. */
  function SeedAndRest(m: nat, proof: seq<Digest>, oldRoot: Digest): (r: (Digest, seq<Digest>))
    requires proof != []
  {
    if IsPow2(m) then (oldRoot, proof) else (proof[0], proof[1..])
  }

  /** The length of a proof between different sizes: the seed is part of it unless it is the old root itself. */
  function ConsistencyLength(m: nat, n: nat): nat
    requires 0 < m < n
  {
    (if IsPow2(m) then 0 else 1) + |ConsistencyDirs(n, m)|
  }

  lemma {:induction false} ProofIsNeeded(m: nat, n: nat)
    requires 0 < m < n
    ensures ConsistencyLength(m, n) > 0
  {
  }

  predicate ConsistencyAccepts(sha: HashFn, m: nat, n: nat, proof: seq<Digest>, oldRoot: Digest, newRoot: Digest) {
    if m == 0 then proof == [] && (n == 0 ==> oldRoot == newRoot)
    else if m == n then proof == [] && oldRoot == newRoot
    else
      m < n && proof != [] &&
      var (seed, rest) := SeedAndRest(m, proof, oldRoot);
      var dirs := ConsistencyDirs(n, m);
      |rest| == |dirs| &&
      ClimbOld(sha, seed, RouteOf(rest, dirs)) == oldRoot &&
      Climb(sha, seed, RouteOf(rest, dirs)) == newRoot
  }

  // ----- Inclusion

  /** The turns that the verification loop takes, which never skips a level. */
  function LoopDirs(i: nat, last: nat, len: nat): (dirs: seq<bool>)
    ensures |dirs| == len
  {
    if len == 0 then [] else [i % 2 == 1 || i == last] + LoopDirs(i / 2, last / 2, len - 1)
  }

  /** Although it never skips a level, the loop turns as the tree does, for a proof of the right length. */
  lemma {:induction false} LoopDirsCorrect(i: nat, last: nat)
    requires i <= last
    ensures LoopDirs(i, last, |LevelDirs(i, last)|) == LevelDirs(i, last)
    decreases last
  {
    if last > 0 {
      LoopDirsCorrect(i / 2, last / 2);
      if i == last && last % 2 == 0 {
        RightEdge(i / 2);
        RightEdgeLoop(i, |LevelDirs(i / 2, i / 2)|);
      }
    }
  }

  lemma {:induction false} RightEdge(i: nat)
    ensures LevelDirs(i, i) == Trues(|LevelDirs(i, i)|)
  {
    if i > 0 { RightEdge(i / 2); }
  }

  lemma {:induction false} RightEdgeLoop(i: nat, len: nat)
    ensures LoopDirs(i, i, len) == Trues(len)
    decreases len
  {
    if len > 0 { RightEdgeLoop(i / 2, len - 1); }
  }

  lemma {:induction false} LoopDirsAt(i: nat, last: nat, len: nat, j: nat)
    requires j < len
    ensures LoopDirs(i, last, len)[j] ==
            (ShiftDown(i, j) % 2 == 1 || ShiftDown(i, j) == ShiftDown(last, j))
    decreases j
  {
    if j > 0 {
      LoopDirsAt(i / 2, last / 2, len - 1, j - 1);
      assert LoopDirs(i, last, len)[j] == LoopDirs(i / 2, last / 2, len - 1)[j - 1];
    }
  }

  /** expected_inclusion_proof_length: halve the level until one node is left. */
  method ExpectedInclusionProofLength(leafIndex: U64, treeSize: U64) returns (count: nat)
    requires leafIndex < treeSize
    ensures count == |Dirs(treeSize, leafIndex)|
  {
    if treeSize <= 1 {
      return 0;
    }
    count := 0;
    var index: U64, size: U64 := leafIndex, treeSize;
    while size > 1
      invariant index < size
      invariant count + |LevelDirs(index, size - 1)| == |LevelDirs(leafIndex, treeSize - 1)|
    {
      assert (size / 2 + size % 2) - 1 == (size - 1) / 2;
      if !(size % 2 == 1 && index == size - 1) {
        count := count + 1;
      }
      index, size := index / 2, size / 2 + size % 2;
    }
    LevelDirsCorrect(leafIndex, treeSize);
  }

  method VerifyInclusionProof(sha: HashFn, leafHash: Digest, leafIndex: U64, treeSize: U64,
                              proofHashes: seq<Digest>, expectedRoot: Digest)
    returns (r: Result<Unit, MerkleError>)
    ensures r.Success? <==> InclusionAccepts(sha, leafHash, leafIndex, treeSize, proofHashes, expectedRoot)
    ensures treeSize == 0 ==> r == Failure(InvalidTreeSize)
    ensures 0 < treeSize <= leafIndex ==> r == Failure(InvalidLeafIndex)
    ensures leafIndex < treeSize && |proofHashes| != |Dirs(treeSize, leafIndex)| ==> r == Failure(InvalidProof)
    ensures leafIndex < treeSize && |proofHashes| == |Dirs(treeSize, leafIndex)| && r.Failure? ==>
              var route := RouteOf(proofHashes, Dirs(treeSize, leafIndex));
              r.error == HashMismatch(expectedRoot, Climb(sha, leafHash, route))
  {
    if treeSize == 0 {
      return Failure(InvalidTreeSize);
    }
    if leafIndex >= treeSize {
      return Failure(InvalidLeafIndex);
    }
    var expectedLen := ExpectedInclusionProofLength(leafIndex, treeSize);
    if |proofHashes| != expectedLen {
      return Failure(InvalidProof);
    }

    ghost var dirs := Dirs(treeSize, leafIndex);
    var hash := leafHash;
    var index: U64, lastNode: U64 := leafIndex, treeSize - 1;
    for j := 0 to |proofHashes|
      invariant index == ShiftDown(leafIndex, j) && lastNode == ShiftDown(treeSize - 1, j)
      invariant hash == Climb(sha, leafHash, RouteUpTo(proofHashes, dirs, j))
    {
      var proofHash := proofHashes[j];
      InclusionStep(sha, leafHash, leafIndex, treeSize, proofHashes, j);
      if index % 2 == 1 || index == lastNode {
        hash := HashChildren(sha, proofHash, hash);
      } else {
        hash := HashChildren(sha, hash, proofHash);
      }
      index, lastNode := index / 2, lastNode / 2;
    }
    if hash != expectedRoot {
      return Failure(HashMismatch(expectedRoot, hash));
    }
    return Success(Unit.Unit);
  }

  /** One round of the verification loop climbs one step of the RFC's path. */
  lemma {:induction false} InclusionStep(sha: HashFn, leafHash: Digest, i: nat, n: nat, proof: seq<Digest>, j: nat)
    requires i < n && |proof| == |Dirs(n, i)| && j < |proof|
    ensures var below := Climb(sha, leafHash, RouteUpTo(proof, Dirs(n, i), j));
            Climb(sha, leafHash, RouteUpTo(proof, Dirs(n, i), j + 1)) ==
            if ShiftDown(i, j) % 2 == 1 || ShiftDown(i, j) == ShiftDown(n - 1, j)
            then NodeHash(sha, proof[j], below) else NodeHash(sha, below, proof[j])
    ensures ShiftDown(i, j + 1) == ShiftDown(i, j) / 2 && ShiftDown(n - 1, j + 1) == ShiftDown(n - 1, j) / 2
  {
    hide Dirs, LevelDirs, NodeHash;
    var dirs := Dirs(n, i);
    assert dirs == LoopDirs(i, n - 1, |dirs|) by {
      LevelDirsCorrect(i, n);
      LoopDirsCorrect(i, n - 1);
    }
    LoopDirsAt(i, n - 1, |dirs|, j);
    ShiftDownBits(i, j);
    ShiftDownBits(n - 1, j);
  }

  lemma {:induction false} SameRoute(p: seq<Digest>, d: seq<bool>, q: seq<Digest>, e: seq<bool>, len: nat)
    requires len <= |p| && len <= |d| && len <= |q| && len <= |e|
    requires forall j :: 0 <= j < len ==> p[j] == q[j] && d[j] == e[j]
    ensures RouteUpTo(p, d, len) == RouteUpTo(q, e, len)
  {
    if len > 0 { SameRoute(p, d, q, e, len - 1); }
  }

  // ----- Consistency

  method InnerProofSize(index: U64, treeSize: U64) returns (inner: nat)
    requires treeSize > 0
    ensures inner == BitLen(Xor(index, treeSize - 1)) <= 64
  {
    PowerOf64();
    XorBound(index, treeSize - 1, 64);
    var diff: U64 := Xor(index, treeSize - 1);
    inner := 64 - LeadingZeros(diff);
    BitLenBound(diff, 64);
  }

  /** `checked_shr` yields nothing for a shift of 64, for which the code takes 0. */
  method DecomposeInclusionProof(index: U64, treeSize: U64) returns (inner: nat, border: nat)
    requires treeSize > 0
    ensures inner == BitLen(Xor(index, treeSize - 1)) <= 64
    ensures border == PopCount(ShiftDown(index, inner))
  {
    inner := InnerProofSize(index, treeSize);
    var high: U64 := 0;
    if inner < 64 {
      high := Shr(index, inner);
    } else {
      PowerOf64();
      ShiftDownAll(index, 64);
    }
    border := PopCount(high);
  }

  function BitDirs(index: nat, len: nat): seq<bool> {
    InnerBorderDirs(index, len, 0)
  }

  method ChainInner(sha: HashFn, seed: Digest, proof: seq<Digest>, index: U64) returns (hash: Digest)
    requires |proof| <= 64
    ensures hash == Climb(sha, seed, RouteOf(proof, BitDirs(index, |proof|)))
  {
    ghost var dirs := BitDirs(index, |proof|);
    hash := seed;
    for i := 0 to |proof|
      invariant hash == Climb(sha, seed, RouteUpTo(proof, dirs, i))
    {
      if Shr(index, i) % 2 == 0 {
        hash := HashChildren(sha, hash, proof[i]);
      } else {
        hash := HashChildren(sha, proof[i], hash);
      }
    }
  }

  method ChainInnerRight(sha: HashFn, seed: Digest, proof: seq<Digest>, index: U64) returns (hash: Digest)
    requires |proof| <= 64
    ensures hash == ClimbOld(sha, seed, RouteOf(proof, BitDirs(index, |proof|)))
  {
    ghost var dirs := BitDirs(index, |proof|);
    hash := seed;
    for i := 0 to |proof|
      invariant hash == ClimbOld(sha, seed, RouteUpTo(proof, dirs, i))
    {
      if Shr(index, i) % 2 == 1 {
        hash := HashChildren(sha, proof[i], hash);
      }
    }
  }

  method ChainBorderRight(sha: HashFn, seed: Digest, proof: seq<Digest>) returns (hash: Digest)
    ensures var route := RouteOf(proof, Trues(|proof|));
            hash == Climb(sha, seed, route) == ClimbOld(sha, seed, route)
  {
    ghost var dirs := Trues(|proof|);
    hash := seed;
    for i := 0 to |proof|
      invariant hash == Climb(sha, seed, RouteUpTo(proof, dirs, i)) == ClimbOld(sha, seed, RouteUpTo(proof, dirs, i))
    {
      hash := HashChildren(sha, proof[i], hash);
    }
  }

  /** Two stretches of a proof climbed one after the other. */
  lemma {:induction false} ClimbAppend(sha: HashFn, seed: Digest, p: seq<Digest>, d: seq<bool>, q: seq<Digest>,
        e: seq<bool>, len: nat)
    requires |p| == |d| && len <= |q| && len <= |e|
    ensures Climb(sha, seed, RouteUpTo(p + q, d + e, |p| + len)) ==
            Climb(sha, Climb(sha, seed, RouteOf(p, d)), RouteUpTo(q, e, len))
    ensures ClimbOld(sha, seed, RouteUpTo(p + q, d + e, |p| + len)) ==
            ClimbOld(sha, ClimbOld(sha, seed, RouteOf(p, d)), RouteUpTo(q, e, len))
    decreases len
  {
    if len == 0 {
      SameRoute(p + q, d + e, p, d, |p|);
    } else {
      ClimbAppend(sha, seed, p, d, q, e, len - 1);
    }
  }

  /** The border follows the inner part, in both trees. */
  lemma {:induction false} ClimbInTwo(sha: HashFn, seed: Digest, proof: seq<Digest>, dirs: seq<bool>, mask: nat,
        inner: nat)
    requires inner <= |proof| == |dirs| && dirs == InnerBorderDirs(mask, inner, |proof| - inner)
    ensures Climb(sha, seed, RouteOf(proof, dirs)) ==
            Climb(sha, Climb(sha, seed, RouteOf(proof[..inner], BitDirs(mask, inner))),
                  RouteOf(proof[inner..], Trues(|proof| - inner)))
    ensures ClimbOld(sha, seed, RouteOf(proof, dirs)) ==
            ClimbOld(sha, ClimbOld(sha, seed, RouteOf(proof[..inner], BitDirs(mask, inner))),
                     RouteOf(proof[inner..], Trues(|proof| - inner)))
  {
    var p, q, d, e := proof[..inner], proof[inner..], BitDirs(mask, inner), Trues(|proof| - inner);
    assert dirs == d + e && proof == p + q;
    ClimbAppend(sha, seed, p, d, q, e, |q|);
  }

  /** The two walks of a consistency proof, over the same siblings. */
  method VerifyBothRoots(sha: HashFn, seed: Digest, proof: seq<Digest>, inner: nat, mask: U64,
                         oldRoot: Digest, newRoot: Digest)
    returns (r: Result<Unit, MerkleError>)
    requires inner <= |proof| && inner <= 64
    ensures var route := RouteOf(proof, InnerBorderDirs(mask, inner, |proof| - inner));
            r.Success? <==> ClimbOld(sha, seed, route) == oldRoot && Climb(sha, seed, route) == newRoot
    ensures r.Failure? ==> r.error == VerificationFailed
  {
    ClimbInTwo(sha, seed, proof, InnerBorderDirs(mask, inner, |proof| - inner), mask, inner);
    var hash1 := ChainInnerRight(sha, seed, proof[..inner], mask);
    var calcOldRoot := ChainBorderRight(sha, hash1, proof[inner..]);
    var hash2 := ChainInner(sha, seed, proof[..inner], mask);
    var calcNewRoot := ChainBorderRight(sha, hash2, proof[inner..]);

    if calcOldRoot != oldRoot {
      return Failure(VerificationFailed);
    }
    if calcNewRoot != newRoot {
      return Failure(VerificationFailed);
    }
    return Success(Unit.Unit);
  }

  method VerifyConsistencyProof(sha: HashFn, oldSize: U64, newSize: U64, proofHashes: seq<Digest>,
                                oldRoot: Digest, newRoot: Digest)
    returns (r: Result<Unit, MerkleError>)
    ensures r.Success? <==> ConsistencyAccepts(sha, oldSize, newSize, proofHashes, oldRoot, newRoot)
    ensures oldSize > newSize ==> r == Failure(InvalidTreeSize)
    ensures 0 == oldSize <= newSize ==>
              r == if proofHashes != [] then Failure(InvalidProof)
                   else if newSize == 0 && oldRoot != newRoot then Failure(HashMismatch(oldRoot, newRoot))
                   else Success(Unit.Unit)
    ensures 0 < oldSize == newSize ==>
              r == if oldRoot != newRoot then Failure(HashMismatch(oldRoot, newRoot))
                   else if proofHashes != [] then Failure(InvalidProof) else Success(Unit.Unit)
    ensures 0 < oldSize < newSize && r.Failure? ==>
              r.error == if |proofHashes| == ConsistencyLength(oldSize, newSize) then VerificationFailed
                         else InvalidProof
  {
    hide ConsistencyDirs, TrailingZeros, Pow2, IsPow2, BitLen, Xor, PopCount, ShiftDown, Climb, ClimbOld, RouteUpTo;
    if oldSize > newSize {
      return Failure(InvalidTreeSize);
    }
    if oldSize == 0 {
      if proofHashes != [] {
        return Failure(InvalidProof);
      }
      if newSize == 0 && oldRoot != newRoot {
        return Failure(HashMismatch(oldRoot, newRoot));
      }
      return Success(Unit.Unit);
    }
    if oldSize == newSize {
      if oldRoot != newRoot {
        return Failure(HashMismatch(oldRoot, newRoot));
      }
      if proofHashes != [] {
        return Failure(InvalidProof);
      }
      return Success(Unit.Unit);
    }
    ProofIsNeeded(oldSize, newSize);
    if proofHashes == [] {
      return Failure(InvalidProof);
    }

    var shift := TrailingZeros(oldSize);
    var innerAll, border := DecomposeInclusionProof(oldSize - 1, newSize);
    ConsistencyDirsDecompose(oldSize, newSize);
    Pow2IffShift(oldSize);
    var inner := innerAll - shift;  // saturating_sub; the lemma above shows that it never saturates

    var seed, start := proofHashes[0], 1;
    if oldSize == Pow2(shift) {
      seed, start := oldRoot, 0;
    }
    var expectedLen := start + inner + border;
    if |proofHashes| != expectedLen {
      return Failure(InvalidProof);
    }
    var proof := proofHashes[start..];
    var mask := Shr(oldSize - 1, shift);
    r := VerifyBothRoots(sha, seed, proof, inner, mask, oldRoot, newRoot);
  }
}
