/**
 * What an accepted Merkle proof proves. Hash functions have collisions, so each soundness
 * theorem comes with a function that computes two inputs from the proof and the leaves:
 * either the conclusion holds, or these two inputs are a collision.
 */
module MerkleTheorems {
  import opened Prelude
  import opened Bits
  import opened MerkleTree
  import opened MerkleShape
  import opened MerkleProof

  // ----- Routes into a tree

  /** The leaves below the root's child on the given side. */
  function Child(leaves: seq<Bytes>, right: bool): (r: seq<Bytes>)
    requires |leaves| >= 2
    ensures 0 < |r| < |leaves|
  {
    if right then leaves[Split(|leaves|)..] else leaves[..Split(|leaves|)]
  }

  /** The tree is deep enough for the route. */
  predicate Fits(leaves: seq<Bytes>, route: Route) {
    route.Down? ==> |leaves| >= 2 && Fits(Child(leaves, route.left), route.rest)
  }

  /** The leaves below the node that the route leads to. */
  function NodeAt(leaves: seq<Bytes>, route: Route): seq<Bytes>
    requires Fits(leaves, route)
  {
    if route.Here? then leaves else NodeAt(Child(leaves, route.left), route.rest)
  }

  /** The siblings on the route are those of the tree. */
  predicate InTree(sha: HashFn, leaves: seq<Bytes>, route: Route)
    requires Fits(leaves, route)
  {
    route.Down? ==>
      route.sibling == MTH(sha, Child(leaves, !route.left)) && InTree(sha, Child(leaves, route.left), route.rest)
  }

  /** The siblings of a node lead from its hash to the root. */
  lemma {:induction false} ClimbToRoot(sha: HashFn, leaves: seq<Bytes>, route: Route)
    requires Fits(leaves, route) && InTree(sha, leaves, route)
    ensures Climb(sha, MTH(sha, NodeAt(leaves, route)), route) == MTH(sha, leaves)
  {
    if route.Down? {
      ClimbToRoot(sha, Child(leaves, route.left), route.rest);
    }
  }

  lemma {:induction false} SameChildren(l: Digest, r: Digest, l': Digest, r': Digest)
    ensures NodeInput(l, r) == NodeInput(l', r') <==> l == l' && r == r'
  {
    DomainSeparation([], [], l, r, l', r');
  }

  /** What is hashed at the top of a route. */
  function TopInput(sha: HashFn, seed: Digest, route: Route): Bytes
    requires route.Down?
  {
    var below := Climb(sha, seed, route.rest);
    if route.left then NodeInput(route.sibling, below) else NodeInput(below, route.sibling)
  }

  /** What is hashed at the root of a tree. */
  function RootInput(sha: HashFn, leaves: seq<Bytes>): Bytes {
    if |leaves| == 0 then []
    else if |leaves| == 1 then LeafInput(leaves[0])
    else NodeInput(MTH(sha, Child(leaves, false)), MTH(sha, Child(leaves, true)))
  }

  lemma {:induction false} RootInputHashes(sha: HashFn, leaves: seq<Bytes>)
    ensures MTH(sha, leaves) == sha(RootInput(sha, leaves))
  {
  }

  /** Descend from the root to the first node where the proof and the tree hash different children. */
  function RouteCollision(sha: HashFn, seed: Digest, leaves: seq<Bytes>, route: Route): Collision
    requires Fits(leaves, route)
  {
    if route.Here? then Collision([], [])
    else if TopInput(sha, seed, route) != RootInput(sha, leaves)
    then Collision(TopInput(sha, seed, route), RootInput(sha, leaves))
    else RouteCollision(sha, seed, Child(leaves, route.left), route.rest)
  }

  /** Whatever climbs to the root starts from the node's hash and passes the node's siblings. */
  lemma {:induction false} ClimbExact(sha: HashFn, seed: Digest, leaves: seq<Bytes>, route: Route)
    requires Fits(leaves, route) && Climb(sha, seed, route) == MTH(sha, leaves)
    ensures || (seed == MTH(sha, NodeAt(leaves, route)) && InTree(sha, leaves, route))
            || RouteCollision(sha, seed, leaves, route).Breaks(sha)
    decreases route
  {
    if route.Down? {
      RootInputHashes(sha, leaves);
      assert sha(TopInput(sha, seed, route)) == Climb(sha, seed, route);
      if TopInput(sha, seed, route) == RootInput(sha, leaves) {
        var below := Climb(sha, seed, route.rest);
        var l, r := MTH(sha, Child(leaves, false)), MTH(sha, Child(leaves, true));
        SameChildren(below, route.sibling, l, r);
        SameChildren(route.sibling, below, l, r);
        ClimbExact(sha, seed, Child(leaves, route.left), route.rest);
      }
    }
  }

  // ----- Inclusion

  /** The route to leaf `i`. */
  predicate LeadsToLeaf(leaves: seq<Bytes>, i: nat, route: Route)
    requires i < |leaves|
    decreases route
  {
    if route.Here? then |leaves| == 1
    else
      |leaves| >= 2 && route.left == (i >= Split(|leaves|)) &&
      LeadsToLeaf(Child(leaves, route.left), if route.left then i - Split(|leaves|) else i, route.rest)
  }

  lemma {:induction false} LeafFound(leaves: seq<Bytes>, i: nat, route: Route)
    requires i < |leaves| && LeadsToLeaf(leaves, i, route)
    ensures Fits(leaves, route) && NodeAt(leaves, route) == [leaves[i]]
    decreases route
  {
    if route.Down? {
      LeafFound(Child(leaves, route.left), if route.left then i - Split(|leaves|) else i, route.rest);
    }
  }

  /** The tree's own siblings on the route to leaf `i` are the RFC's path. */
  lemma {:induction false} PathInTree(sha: HashFn, i: nat, leaves: seq<Bytes>, proof: seq<Digest>)
    requires i < |leaves| && |proof| == |Dirs(|leaves|, i)|
    ensures var route := RouteOf(proof, Dirs(|leaves|, i));
            LeadsToLeaf(leaves, i, route) && Fits(leaves, route) &&
            (InTree(sha, leaves, route) <==> proof == Path(sha, i, leaves))
    decreases |leaves|
  {
    if |leaves| > 1 {
      var k, top := Split(|leaves|), |proof| - 1;
      var right := i >= k;
      var j, near := if right then i - k else i, Child(leaves, right);
      PathInTree(sha, j, near, proof[..top]);
      RouteTop(proof, Dirs(|leaves|, i), Dirs(|near|, j), right);
      TopsEqual(Path(sha, j, near), MTH(sha, Child(leaves, !right)), proof);
    }
  }

  lemma {:induction false} RouteTop(proof: seq<Digest>, dirs: seq<bool>, below: seq<bool>, side: bool)
    requires |proof| == |dirs| && dirs == below + [side]
    ensures var top := |proof| - 1; RouteOf(proof, dirs) == Down(side, proof[top], RouteOf(proof[..top], below))
  {
    SameRoute(proof, dirs, proof[..|below|], below, |below|);
  }

  lemma {:induction false} TopsEqual(p: seq<Digest>, x: Digest, rest: seq<Digest>)
    requires rest != []
    ensures p + [x] == rest <==> p == rest[..|rest| - 1] && x == rest[|rest| - 1]
    ensures p != [] ==> (p + [x])[0] == p[0] && (p + [x])[1..] == p[1..] + [x]
    ensures p != [] ==> (p[1..] + [x] == rest <==> p[1..] == rest[..|rest| - 1] && x == rest[|rest| - 1])
  {
    assert rest == rest[..|rest| - 1] + [rest[|rest| - 1]];
    if p + [x] == rest { assert (p + [x])[..|p|] == p; }
    if p != [] && p[1..] + [x] == rest { assert (p[1..] + [x])[..|p| - 1] == p[1..]; }
  }

  lemma {:induction false} PathLength(sha: HashFn, i: nat, leaves: seq<Bytes>)
    requires i < |leaves|
    ensures |Path(sha, i, leaves)| == |Dirs(|leaves|, i)|
    decreases |leaves|
  {
    if |leaves| > 1 {
      var k := Split(|leaves|);
      if i < k { PathLength(sha, i, leaves[..k]); } else { PathLength(sha, i - k, leaves[k..]); }
    }
  }

  /** The honest audit path is accepted. */
  lemma {:induction false} InclusionComplete(sha: HashFn, i: nat, leaves: seq<Bytes>)
    requires i < |leaves|
    ensures InclusionAccepts(sha, LeafHash(sha, leaves[i]), i, |leaves|, Path(sha, i, leaves), MTH(sha, leaves))
  {
    PathLength(sha, i, leaves);
    PathInTree(sha, i, leaves, Path(sha, i, leaves));
    LeafFound(leaves, i, RouteOf(Path(sha, i, leaves), Dirs(|leaves|, i)));
    ClimbToRoot(sha, leaves, RouteOf(Path(sha, i, leaves), Dirs(|leaves|, i)));
  }

  function InclusionCollision(sha: HashFn, h: Digest, i: nat, leaves: seq<Bytes>, proof: seq<Digest>): Collision
    requires i < |leaves| && |proof| == |Dirs(|leaves|, i)|
  {
    PathInTree(sha, i, leaves, proof);
    RouteCollision(sha, h, leaves, RouteOf(proof, Dirs(|leaves|, i)))
  }

  /** Only the right leaf hash with the right path is accepted at index `i`. */
  lemma {:induction false} InclusionExact(sha: HashFn, h: Digest, i: nat, leaves: seq<Bytes>, proof: seq<Digest>)
    requires InclusionAccepts(sha, h, i, |leaves|, proof, MTH(sha, leaves))
    ensures || (h == LeafHash(sha, leaves[i]) && proof == Path(sha, i, leaves))
            || InclusionCollision(sha, h, i, leaves, proof).Breaks(sha)
  {
    PathInTree(sha, i, leaves, proof);
    LeafFound(leaves, i, RouteOf(proof, Dirs(|leaves|, i)));
    ClimbExact(sha, h, leaves, RouteOf(proof, Dirs(|leaves|, i)));
  }

  // ----- Membership, whatever position is claimed

  /** What the verifier hashed last on its way up from a leaf. */
  function LastInput(sha: HashFn, body: Bytes, route: Route): Bytes {
    if route.Here? then LeafInput(body) else TopInput(sha, LeafHash(sha, body), route)
  }

  /** Descend along the claimed route, whether or not the tree has that shape. */
  function MembershipCollision(sha: HashFn, body: Bytes, leaves: seq<Bytes>, route: Route): Collision {
    var mine, theirs := LastInput(sha, body, route), RootInput(sha, leaves);
    if mine != theirs || |leaves| < 2 || route.Here? then Collision(mine, theirs)
    else MembershipCollision(sha, body, Child(leaves, route.left), route.rest)
  }

  /** The same input was hashed: the same body, or two nodes with the same children. */
  lemma {:induction false} SameInput(sha: HashFn, body: Bytes, leaves: seq<Bytes>, route: Route)
    requires LastInput(sha, body, route) == RootInput(sha, leaves)
    ensures |leaves| > 0 && (|leaves| == 1 ==> body == leaves[0])
    ensures |leaves| >= 2 ==>
              route.Down? && Climb(sha, LeafHash(sha, body), route.rest) == MTH(sha, Child(leaves, route.left))
  {
    var any := sha([]);
    if |leaves| == 1 {
      DomainSeparation(body, leaves[0], any, any, any, any);
    }
    if |leaves| >= 2 {
      DomainSeparation(body, [], MTH(sha, Child(leaves, false)), MTH(sha, Child(leaves, true)), any, any);
    }
    if route.Down? {
      var below := Climb(sha, LeafHash(sha, body), route.rest);
      var l, r := if route.left then route.sibling else below, if route.left then below else route.sibling;
      if |leaves| == 1 {
        DomainSeparation(leaves[0], [], l, r, any, any);
      } else if |leaves| >= 2 {
        SameChildren(l, r, MTH(sha, Child(leaves, false)), MTH(sha, Child(leaves, true)));
      }
    }
  }

  /** Leaf `k` is `body`, and the route is its own. */
  predicate LeafOnRoute(sha: HashFn, body: Bytes, leaves: seq<Bytes>, route: Route, k: nat) {
    && k < |leaves| && leaves[k] == body
    && LeadsToLeaf(leaves, k, route) && Fits(leaves, route) && InTree(sha, leaves, route)
  }

  /** A body that hashes up to the root is a leaf of the list, and has climbed that leaf's own route. */
  lemma {:induction false} MembershipExact(sha: HashFn, body: Bytes, leaves: seq<Bytes>, route: Route) returns (k: nat)
    requires Climb(sha, LeafHash(sha, body), route) == MTH(sha, leaves)
    ensures LeafOnRoute(sha, body, leaves, route, k) || MembershipCollision(sha, body, leaves, route).Breaks(sha)
    decreases route
  {
    k := 0;
    RootInputHashes(sha, leaves);
    if LastInput(sha, body, route) == RootInput(sha, leaves) {
      SameInput(sha, body, leaves, route);
      if |leaves| >= 2 {
        var near := Child(leaves, route.left);
        var j := MembershipExact(sha, body, near, route.rest);
        SameSibling(sha, body, leaves, route);
        k := if route.left then j + Split(|leaves|) else j;
      } else {
        OneLeafIsTheTop(sha, body, leaves, route);
      }
    }
  }

  /** A body that hashes up to the root of a list is an element of the list, at whatever index and size. */
  lemma {:induction false} Membership(sha: HashFn, body: Bytes, leaves: seq<Bytes>, route: Route)
    requires Climb(sha, LeafHash(sha, body), route) == MTH(sha, leaves)
    ensures body in leaves || MembershipCollision(sha, body, leaves, route).Breaks(sha)
  {
    var k := MembershipExact(sha, body, leaves, route);
  }

  lemma {:induction false} SameSibling(sha: HashFn, body: Bytes, leaves: seq<Bytes>, route: Route)
    requires |leaves| >= 2 && route.Down? && LastInput(sha, body, route) == RootInput(sha, leaves)
    ensures route.sibling == MTH(sha, Child(leaves, !route.left))
  {
    var below := Climb(sha, LeafHash(sha, body), route.rest);
    var l, r := if route.left then route.sibling else below, if route.left then below else route.sibling;
    SameChildren(l, r, MTH(sha, Child(leaves, false)), MTH(sha, Child(leaves, true)));
  }

  lemma {:induction false} OneLeafIsTheTop(sha: HashFn, body: Bytes, leaves: seq<Bytes>, route: Route)
    requires |leaves| == 1 && LastInput(sha, body, route) == RootInput(sha, leaves)
    ensures route.Here?
  {
    if route.Down? {
      var below, any := Climb(sha, LeafHash(sha, body), route.rest), sha([]);
      DomainSeparation(leaves[0], [], route.sibling, below, any, any);
      DomainSeparation(leaves[0], [], below, route.sibling, any, any);
    }
  }

  // ----- Which position an accepted proof stands for

  /** A route to leaf `k` has the sides of leaf `k`. */
  lemma {:induction false} RouteHasDirs(leaves: seq<Bytes>, k: nat, proof: seq<Digest>, dirs: seq<bool>)
    requires k < |leaves| && |proof| == |dirs| && LeadsToLeaf(leaves, k, RouteOf(proof, dirs))
    ensures dirs == Dirs(|leaves|, k)
    decreases |dirs|
  {
    hide Split;
    if dirs != [] {
      var top := |dirs| - 1;
      var side := dirs[top];
      assert dirs == dirs[..top] + [side];
      RouteTop(proof, dirs, dirs[..top], side);
      assert side == (k >= Split(|leaves|));
      RouteHasDirs(Child(leaves, side), if side then k - Split(|leaves|) else k, proof[..top], dirs[..top]);
    }
  }

  /** Claimed index and size describe a path of the same shape as that of leaf `k` of the list. */
  predicate SameShape(i: nat, n: nat, k: nat, size: nat) {
    i < n && k < size && Dirs(n, i) == Dirs(size, k)
  }

  /** What an accepted proof stands for: leaf `k`, with its own audit path, under a claim of the same shape. */
  predicate StandsFor(sha: HashFn, body: Bytes, i: nat, n: nat, leaves: seq<Bytes>, proof: seq<Digest>, k: nat) {
    SameShape(i, n, k, |leaves|) && leaves[k] == body && proof == Path(sha, k, leaves)
  }

  /** Every accepted proof stands for some leaf, or a collision is extracted. */
  lemma {:induction false} AcceptedStandsFor(sha: HashFn, body: Bytes, i: nat, n: nat, leaves: seq<Bytes>,
        proof: seq<Digest>) returns (k: nat)
    requires InclusionAccepts(sha, LeafHash(sha, body), i, n, proof, MTH(sha, leaves))
    ensures || StandsFor(sha, body, i, n, leaves, proof, k)
            || MembershipCollision(sha, body, leaves, RouteOf(proof, Dirs(n, i))).Breaks(sha)
  {
    k := MembershipExact(sha, body, leaves, RouteOf(proof, Dirs(n, i)));
    if LeafOnRoute(sha, body, leaves, RouteOf(proof, Dirs(n, i)), k) {
      RouteHasDirs(leaves, k, proof, Dirs(n, i));
      PathInTree(sha, k, leaves, proof);
    }
  }

  /** And every proof that stands for a leaf is accepted, whatever index and size are claimed for it. */
  lemma {:induction false} StandsForAccepted(sha: HashFn, body: Bytes, i: nat, n: nat, leaves: seq<Bytes>,
        proof: seq<Digest>, k: nat)
    requires StandsFor(sha, body, i, n, leaves, proof, k)
    ensures InclusionAccepts(sha, LeafHash(sha, body), i, n, proof, MTH(sha, leaves))
  {
    InclusionComplete(sha, k, leaves);
  }

  /** In a tree of known size, the sides of a path tell the leaf. */
  lemma {:induction false} DirsTellLeaf(n: nat, i: nat, k: nat)
    requires i < n && k < n && Dirs(n, i) == Dirs(n, k)
    ensures i == k
    decreases n
  {
    if n > 1 {
      var half := Split(n);
      var top := |Dirs(n, i)| - 1;
      assert Dirs(n, i)[top] == (i >= half) && Dirs(n, k)[top] == (k >= half);
      if i < half {
        assert Dirs(n, i)[..top] == Dirs(half, i) && Dirs(n, k)[..top] == Dirs(half, k);
        DirsTellLeaf(half, i, k);
      } else {
        assert Dirs(n, i)[..top] == Dirs(n - half, i - half) && Dirs(n, k)[..top] == Dirs(n - half, k - half);
        DirsTellLeaf(n - half, i - half, k - half);
      }
    }
  }

  /**
   * The claimed index is the leaf's own exactly when the claim has the shape of that index in the real
   * tree; in particular whenever the claimed size is the real one.
   */
  lemma {:induction false} ClaimedIndexExact(sha: HashFn, body: Bytes, i: nat, n: nat, leaves: seq<Bytes>,
        proof: seq<Digest>, k: nat)
    requires StandsFor(sha, body, i, n, leaves, proof, k)
    ensures k == i <==> SameShape(i, n, i, |leaves|)
    ensures n == |leaves| ==> k == i
  {
    if SameShape(i, n, i, |leaves|) { DirsTellLeaf(|leaves|, i, k); }
  }

  // ----- Consistency

  /** Whether SUBPROOF lists the seed before its siblings. */
  predicate ListsSeed(m: nat, known: bool) {
    !(known && IsPow2(m))
  }

  /** The RFC's consistency proof: the seed, unless the verifier knows it, and the tree's siblings above it. */
  lemma {:induction false} SubproofInTree(sha: HashFn, m: nat, leaves: seq<Bytes>, rest: seq<Digest>, known: bool)
    requires 0 < m <= |leaves| && |rest| == |ConsistencyDirs(|leaves|, m)|
    ensures var route := RouteOf(rest, ConsistencyDirs(|leaves|, m));
            Fits(leaves, route) && LeadsToSeed(leaves, m, route) &&
            (m < |leaves| ==>
               var p := Subproof(sha, m, leaves, known);
               if ListsSeed(m, known)
               then |p| == 1 + |rest| && p[0] == MTH(sha, NodeAt(leaves, route)) &&
                    (InTree(sha, leaves, route) <==> p[1..] == rest)
               else |p| == |rest| && (InTree(sha, leaves, route) <==> p == rest))
    decreases |leaves|
  {
    if m < |leaves| {
      var k, top := Split(|leaves|), |rest| - 1;
      var right := m > k;
      var j, near := if right then m - k else m, Child(leaves, right);
      SubproofInTree(sha, j, near, rest[..top], known && !right);
      RouteTop(rest, ConsistencyDirs(|leaves|, m), ConsistencyDirs(|near|, j), right);
      SplitIsLargestPow2(|leaves|, m);
      SplitIsLargestPow2(|leaves|, k);
      TopsEqual(Subproof(sha, j, near, known && !right), MTH(sha, Child(leaves, !right)), rest);
    }
  }

  /** The route to the largest complete subtree that ends at leaf m - 1. */
  predicate LeadsToSeed(leaves: seq<Bytes>, m: nat, route: Route)
    requires 0 < m <= |leaves|
    decreases route
  {
    if route.Here? then m == |leaves|
    else
      m < |leaves| && route.left == (m > Split(|leaves|)) &&
      LeadsToSeed(Child(leaves, route.left), if route.left then m - Split(|leaves|) else m, route.rest)
  }

  /** The seed and the siblings on the left climb to the old root. */
  lemma {:induction false} ClimbToOldRoot(sha: HashFn, m: nat, leaves: seq<Bytes>, before: seq<Bytes>, route: Route)
    requires 0 < m <= |leaves| && before == leaves[..m]
    requires Fits(leaves, route) && InTree(sha, leaves, route) && LeadsToSeed(leaves, m, route)
    ensures ClimbOld(sha, MTH(sha, NodeAt(leaves, route)), route) == MTH(sha, before)
    decreases route
  {
    if route.Here? {
      assert before == leaves;
    } else if route.left {
      OldTreeSplits(sha, m, leaves, before);
      ClimbToOldRoot(sha, m - Split(|leaves|), Child(leaves, true), before[Split(|leaves|)..], route.rest);
    } else {
      ClimbToOldRoot(sha, m, Child(leaves, false), before, route.rest);
    }
  }

  /** An old tree that reaches beyond the new tree's split point splits there, too. */
  lemma {:induction false} OldTreeSplits(sha: HashFn, m: nat, leaves: seq<Bytes>, before: seq<Bytes>)
    requires |leaves| >= 2 && Split(|leaves|) < m <= |leaves| && before == leaves[..m]
    ensures MTH(sha, before) == NodeHash(sha, MTH(sha, Child(leaves, false)), MTH(sha, before[Split(|leaves|)..]))
  {
    SplitOfPrefix(|leaves|, m);
    assert before[..Split(|leaves|)] == Child(leaves, false);
  }

  /** When the old tree is complete, it is the seed. */
  lemma {:induction false} SeedIsOldTree(m: nat, leaves: seq<Bytes>, route: Route)
    requires 0 < m <= |leaves| && IsPow2(m) && Fits(leaves, route) && LeadsToSeed(leaves, m, route)
    ensures NodeAt(leaves, route) == leaves[..m]
    decreases route
  {
    if route.Down? {
      SplitIsLargestPow2(|leaves|, m);
      SeedIsOldTree(m, Child(leaves, false), route.rest);
    }
  }

  /** The honest consistency proof is accepted. */
  lemma {:induction false} ConsistencyComplete(sha: HashFn, m: nat, leaves: seq<Bytes>)
    requires 0 < m <= |leaves|
    ensures ConsistencyAccepts(sha, m, |leaves|, Proof(sha, m, leaves), MTH(sha, leaves[..m]), MTH(sha, leaves))
  {
    if m == |leaves| {
      assert leaves[..m] == leaves;
    } else {
      var p, dirs := Proof(sha, m, leaves), ConsistencyDirs(|leaves|, m);
      SubproofInTree(sha, m, leaves, seq(|dirs|, _ => sha([])), true);
      var rest := if IsPow2(m) then p else p[1..];
      SubproofInTree(sha, m, leaves, rest, true);
      if IsPow2(m) {
        SeedIsOldTree(m, leaves, RouteOf(rest, dirs));
      }
      ClimbToRoot(sha, leaves, RouteOf(rest, dirs));
      ClimbToOldRoot(sha, m, leaves, leaves[..m], RouteOf(rest, dirs));
    }
  }

  function ConsistencyCollision(sha: HashFn, m: nat, leaves: seq<Bytes>, proof: seq<Digest>, oldRoot: Digest): Collision
    requires 0 < m <= |leaves|
    requires ConsistencyAccepts(sha, m, |leaves|, proof, oldRoot, MTH(sha, leaves))
  {
    if m == |leaves| then Collision([], [])
    else
      var (seed, rest) := SeedAndRest(m, proof, oldRoot);
      SubproofInTree(sha, m, leaves, rest, true);
      RouteCollision(sha, seed, leaves, RouteOf(rest, ConsistencyDirs(|leaves|, m)))
  }

  /** A proof with the tree's own seed and siblings is the RFC's, and leads to the RFC's old root. */
  lemma {:induction false} HonestParts(sha: HashFn, m: nat, leaves: seq<Bytes>, proof: seq<Digest>, rest: seq<Digest>)
    requires 0 < m < |leaves| && |rest| == |ConsistencyDirs(|leaves|, m)|
    requires proof != [] && rest == if IsPow2(m) then proof else proof[1..]
    ensures var route := RouteOf(rest, ConsistencyDirs(|leaves|, m));
            Fits(leaves, route) &&
            (InTree(sha, leaves, route) ==>
               var seed := MTH(sha, NodeAt(leaves, route));
               ClimbOld(sha, seed, route) == MTH(sha, leaves[..m]) &&
               (IsPow2(m) || proof[0] == seed ==> proof == Proof(sha, m, leaves)))
  {
    var route := RouteOf(rest, ConsistencyDirs(|leaves|, m));
    SubproofInTree(sha, m, leaves, rest, true);
    if InTree(sha, leaves, route) {
      ClimbToOldRoot(sha, m, leaves, leaves[..m], route);
      SameHeadAndTail(proof, Proof(sha, m, leaves));
    }
  }

  lemma {:induction false} SameHeadAndTail(p: seq<Digest>, q: seq<Digest>)
    ensures p != [] && q != [] && p[0] == q[0] && p[1..] == q[1..] ==> p == q
  {
    if p != [] && q != [] {
      assert p == [p[0]] + p[1..] && q == [q[0]] + q[1..];
    }
  }

  /** An accepted proof is the RFC's, and the old tree is a prefix of the new one. */
  lemma {:induction false} ConsistencySound(sha: HashFn, m: nat, leaves: seq<Bytes>, proof: seq<Digest>,
        oldRoot: Digest)
    requires 0 < m <= |leaves|
    requires ConsistencyAccepts(sha, m, |leaves|, proof, oldRoot, MTH(sha, leaves))
    ensures || (oldRoot == MTH(sha, leaves[..m]) && proof == Proof(sha, m, leaves))
            || ConsistencyCollision(sha, m, leaves, proof, oldRoot).Breaks(sha)
  {
    if m == |leaves| {
      assert leaves[..m] == leaves;
    } else {
      var (seed, rest) := SeedAndRest(m, proof, oldRoot);
      HonestParts(sha, m, leaves, proof, rest);
      ClimbExact(sha, seed, leaves, RouteOf(rest, ConsistencyDirs(|leaves|, m)));
    }
  }

  // ----- A history of tree heads

  /** A tree head, and the proof that it extends the head before it. */
  datatype Head = Head(size: nat, root: Digest, proof: seq<Digest>)

  /** Every head was accepted as an extension of the one before; the first is taken as it is. */
  predicate VerifiedChain(sha: HashFn, heads: seq<Head>) {
    && heads != [] && heads[0].size > 0
    && forall j :: 0 < j < |heads| ==> Extends(sha, heads[j - 1], heads[j])
  }

  predicate Extends(sha: HashFn, a: Head, b: Head) {
    ConsistencyAccepts(sha, a.size, b.size, b.proof, a.root, b.root)
  }

  /** The head commits to this list of leaves. */
  predicate Commits(sha: HashFn, head: Head, leaves: seq<Bytes>) {
    head.size == |leaves| && head.root == MTH(sha, leaves)
  }

  lemma {:induction false} SizesGrow(sha: HashFn, heads: seq<Head>, j: nat, l: nat)
    requires VerifiedChain(sha, heads) && j <= l < |heads|
    ensures 0 < heads[j].size <= heads[l].size
  {
    if j < l {
      SizesGrow(sha, heads, j, l - 1);
      assert Extends(sha, heads[l - 1], heads[l]);
    } else if j > 0 {
      SizesGrow(sha, heads, j - 1, l - 1);
      assert Extends(sha, heads[l - 1], heads[l]);
    }
  }

  /** Walk back from head `l` to head `j`, and stop at the first broken step. */
  function ChainCollision(sha: HashFn, heads: seq<Head>, leaves: seq<Bytes>, j: nat, l: nat): Collision
    requires VerifiedChain(sha, heads) && j <= l < |heads| && Commits(sha, heads[l], leaves)
    decreases l
  {
    if j == l then Collision([], [])
    else
      SizesGrow(sha, heads, l - 1, l);
      assert Extends(sha, heads[l - 1], heads[l]);
      var before := leaves[..heads[l - 1].size];
      if Commits(sha, heads[l - 1], before) then ChainCollision(sha, heads, before, j, l - 1)
      else ConsistencyCollision(sha, heads[l - 1].size, leaves, heads[l].proof, heads[l - 1].root)
  }

  lemma {:induction false} ChainStep(sha: HashFn, a: Head, b: Head, leaves: seq<Bytes>)
    requires 0 < a.size && Extends(sha, a, b) && Commits(sha, b, leaves)
    ensures a.size <= |leaves|
    ensures || Commits(sha, a, leaves[..a.size])
            || ConsistencyCollision(sha, a.size, leaves, b.proof, a.root).Breaks(sha)
  {
    ConsistencySound(sha, a.size, leaves, b.proof, a.root);
  }

  /** The log is append-only: each head commits to a prefix of what a later head commits to. */
  lemma {:induction false} AppendOnly(sha: HashFn, heads: seq<Head>, leaves: seq<Bytes>, j: nat, l: nat)
    requires VerifiedChain(sha, heads) && j <= l < |heads| && Commits(sha, heads[l], leaves)
    ensures 0 < heads[j].size <= |leaves|
    ensures || Commits(sha, heads[j], leaves[..heads[j].size])
            || ChainCollision(sha, heads, leaves, j, l).Breaks(sha)
    decreases l
  {
    SizesGrow(sha, heads, j, l);
    if j == l {
      assert leaves[..|leaves|] == leaves;
    } else {
      SizesGrow(sha, heads, l - 1, l);
      assert Extends(sha, heads[l - 1], heads[l]);
      var before := leaves[..heads[l - 1].size];
      ChainStep(sha, heads[l - 1], heads[l], leaves);
      if Commits(sha, heads[l - 1], before) {
        AppendOnly(sha, heads, before, j, l - 1);
        assert before[..heads[j].size] == leaves[..heads[j].size];
      }
    }
  }

  /** An entry proved at index `i` of any head stays at index `i` of every later one. */
  lemma {:induction false} EntryKeepsIndex(sha: HashFn, heads: seq<Head>, leaves: seq<Bytes>, j: nat, l: nat,
                        h: Digest, i: nat, proof: seq<Digest>)
    requires VerifiedChain(sha, heads) && j <= l < |heads| && Commits(sha, heads[l], leaves)
    requires InclusionAccepts(sha, h, i, heads[j].size, proof, heads[j].root)
    ensures i < heads[j].size <= |leaves|
    ensures || h == LeafHash(sha, leaves[i])
            || ChainCollision(sha, heads, leaves, j, l).Breaks(sha)
            || InclusionCollision(sha, h, i, leaves[..heads[j].size], proof).Breaks(sha)
  {
    AppendOnly(sha, heads, leaves, j, l);
    if Commits(sha, heads[j], leaves[..heads[j].size]) {
      InclusionExact(sha, h, i, leaves[..heads[j].size], proof);
    }
  }
}
