/** Domain-separated hashing (tree.rs) and the tree definitions of RFC 6962, section 2.1. */
module MerkleTree {
  import opened Prelude

  type Digest = d: Bytes | |d| == 32 witness seq(32, _ => 0)

  /** SHA-256 is not modelled: every statement holds for every function of this type. */
  type HashFn = Bytes -> Digest

  const LEAF_HASH_PREFIX: Byte := 0x00
  const NODE_HASH_PREFIX: Byte := 0x01

  function LeafInput(data: Bytes): Bytes {
    [LEAF_HASH_PREFIX] + data
  }

  function NodeInput(left: Digest, right: Digest): Bytes {
    [NODE_HASH_PREFIX] + left + right
  }

  function LeafHash(sha: HashFn, data: Bytes): Digest {
    sha(LeafInput(data))
  }

  function NodeHash(sha: HashFn, left: Digest, right: Digest): Digest {
    sha(NodeInput(left, right))
  }

  /** The hasher is fed the prefix and then the data. */
  method HashLeaf(sha: HashFn, data: Bytes) returns (digest: Digest)
    ensures digest == sha([0] + data) == LeafHash(sha, data)
  {
    var fed: Bytes := [];
    fed := fed + [LEAF_HASH_PREFIX];
    fed := fed + data;
    assert fed == LeafInput(data);
    digest := sha(fed);
  }

  method HashChildren(sha: HashFn, left: Digest, right: Digest) returns (digest: Digest)
    ensures digest == sha([1] + left + right) == NodeHash(sha, left, right)
  {
    var fed: Bytes := [];
    fed := fed + [NODE_HASH_PREFIX];
    fed := fed + left;
    fed := fed + right;
    assert fed == NodeInput(left, right);
    digest := sha(fed);
  }

  /** A leaf input is never a node input, and a node input determines both children. */
  lemma {:induction false} DomainSeparation(data: Bytes, data': Bytes, l: Digest, r: Digest, l': Digest, r': Digest)
    ensures LeafInput(data) != NodeInput(l, r)
    ensures LeafInput(data) == LeafInput(data') ==> data == data'
    ensures NodeInput(l, r) == NodeInput(l', r') ==> l == l' && r == r'
  {
    assert LeafInput(data)[0] != NodeInput(l, r)[0];
    assert data == LeafInput(data)[1..] && data' == LeafInput(data')[1..];
    assert l == NodeInput(l, r)[1..33] && l' == NodeInput(l', r')[1..33];
    assert r == NodeInput(l, r)[33..] && r' == NodeInput(l', r')[33..];
  }

  // ----- RFC 6962, section 2.1

  /** Double `k` as long as the result is smaller than `n`. */
  function DoubleBelow(n: nat, k: nat): (r: nat)
    requires 0 < k < n
    ensures k <= r < n <= 2 * r
    decreases n - k
  {
    if 2 * k < n then DoubleBelow(n, 2 * k) else k
  }

  /** The largest power of two smaller than `n`. */
  function Split(n: nat): (k: nat)
    requires n >= 2
    ensures 0 < k < n <= 2 * k
  {
    DoubleBelow(n, 1)
  }

  /** MTH, the Merkle tree hash of a list of leaves. */
  function MTH(sha: HashFn, leaves: seq<Bytes>): Digest {
    if |leaves| == 0 then sha([])
    else if |leaves| == 1 then LeafHash(sha, leaves[0])
    else
      var k := Split(|leaves|);
      NodeHash(sha, MTH(sha, leaves[..k]), MTH(sha, leaves[k..]))
  }

  /** PATH, the audit path of leaf `i` (section 2.1.1). */
  function Path(sha: HashFn, i: nat, leaves: seq<Bytes>): seq<Digest>
    requires i < |leaves|
    decreases |leaves|
  {
    if |leaves| == 1 then []
    else
      var k := Split(|leaves|);
      if i < k then Path(sha, i, leaves[..k]) + [MTH(sha, leaves[k..])]
      else Path(sha, i - k, leaves[k..]) + [MTH(sha, leaves[..k])]
  }

  /** SUBPROOF (section 2.1.2). */
  function Subproof(sha: HashFn, m: nat, leaves: seq<Bytes>, known: bool): seq<Digest>
    requires 0 < m <= |leaves|
    decreases |leaves|
  {
    if m == |leaves| then
      if known then [] else [MTH(sha, leaves)]
    else
      var k := Split(|leaves|);
      if m <= k then Subproof(sha, m, leaves[..k], known) + [MTH(sha, leaves[k..])]
      else Subproof(sha, m - k, leaves[k..], false) + [MTH(sha, leaves[..k])]
  }

  /** PROOF, the consistency proof between the first `m` leaves and all of them. */
  function Proof(sha: HashFn, m: nat, leaves: seq<Bytes>): seq<Digest>
    requires 0 < m <= |leaves|
  {
    Subproof(sha, m, leaves, true)
  }

  // ----- Collisions

  /** Two inputs offered as a collision of the hash function. */
  datatype Collision = Collision(a: Bytes, b: Bytes) {
    predicate Breaks(sha: HashFn) {
      a != b && sha(a) == sha(b)
    }
  }
}
