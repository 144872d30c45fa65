/** The inclusion check as section 2.1.3.2 of RFC 9162 writes it, and its equivalence to proof.rs. */
module Rfc9162 {
  import opened Prelude
  import opened MerkleTree
  import opened MerkleShape
  import opened MerkleProof

  /** Shift both numbers until the least significant bit of `fn` is set or `fn` is 0. */
  function ShiftUntilSet(fn: nat, sn: nat): (r: (nat, nat))
    ensures r.1 <= sn
    decreases fn
  {
    if fn % 2 == 1 || fn == 0 then (fn, sn) else ShiftUntilSet(fn / 2, sn / 2)
  }

  /** Step 4 over the whole path; `None` is a failed verification. */
  function Iterate(sha: HashFn, fn: nat, sn: nat, r: Digest, path: seq<Digest>): Option<(nat, Digest)>
    decreases |path|
  {
    if path == [] then Some((sn, r))
    else if sn == 0 then None
    else if fn % 2 == 1 || fn == sn then
      var (fn', sn') := if fn % 2 == 1 then (fn, sn) else ShiftUntilSet(fn, sn);
      Iterate(sha, fn' / 2, sn' / 2, NodeHash(sha, path[0], r), path[1..])
    else Iterate(sha, fn / 2, sn / 2, NodeHash(sha, r, path[0]), path[1..])
  }

  predicate Accepts(sha: HashFn, leafHash: Digest, leafIndex: nat, treeSize: nat, path: seq<Digest>, root: Digest) {
    leafIndex < treeSize && Iterate(sha, leafIndex, treeSize - 1, leafHash, path) == Some((0, root))
  }

  lemma {:induction false} ShiftKeepsDirs(i: nat)
    requires i > 0
    ensures var (fn, sn) := ShiftUntilSet(i, i);
            fn == sn && fn % 2 == 1 && LevelDirs(fn, fn) == LevelDirs(i, i)
  {
    if i % 2 == 0 {
      ShiftKeepsDirs(i / 2);
    }
  }

  lemma {:induction false} LevelDirsEmpty(i: nat, last: nat)
    requires i <= last
    ensures LevelDirs(i, last) == [] <==> last == 0
    decreases last
  {
    if last > 0 { LevelDirsEmpty(i / 2, last / 2); }
  }

  /** The standard's loop takes the turns of the level-by-level path, and needs all of them. */
  lemma {:induction false} IterateClimbs(sha: HashFn, fn: nat, sn: nat, r: Digest, path: seq<Digest>, root: Digest)
    requires fn <= sn
    ensures Iterate(sha, fn, sn, r, path) == Some((0, root)) <==>
            |path| == |LevelDirs(fn, sn)| && Climb(sha, r, RouteOf(path, LevelDirs(fn, sn))) == root
    decreases |path|
  {
    var dirs := LevelDirs(fn, sn);
    LevelDirsEmpty(fn, sn);
    if path != [] && sn > 0 {
      if fn == sn { ShiftKeepsDirs(fn); }
      var (fn', sn') := if fn == sn then ShiftUntilSet(fn, sn) else (fn, sn);
      assert LevelDirs(fn', sn') == dirs && dirs[0] == (fn' % 2 == 1) && dirs[1..] == LevelDirs(fn' / 2, sn' / 2);
      var r' := if dirs[0] then NodeHash(sha, path[0], r) else NodeHash(sha, r, path[0]);
      IterateClimbs(sha, fn' / 2, sn' / 2, r', path[1..], root);
      if |path| == |dirs| {
        assert path == path[..1] + path[1..] && dirs == dirs[..1] + dirs[1..];
        assert RouteUpTo(path[..1], dirs[..1], 1) == Down(dirs[0], path[0], RouteUpTo(path[..1], dirs[..1], 0));
        ClimbAppend(sha, r, path[..1], dirs[..1], path[1..], dirs[1..], |path| - 1);
      }
    }
  }

  /** proof.rs without the inner shift loop accepts exactly what the standard accepts. */
  lemma {:induction false} SameAsStandard(sha: HashFn, leafHash: Digest, leafIndex: nat, treeSize: nat,
        path: seq<Digest>, root: Digest)
    ensures InclusionAccepts(sha, leafHash, leafIndex, treeSize, path, root) <==>
            Accepts(sha, leafHash, leafIndex, treeSize, path, root)
  {
    if leafIndex < treeSize {
      IterateClimbs(sha, leafIndex, treeSize - 1, leafHash, path, root);
      LevelDirsCorrect(leafIndex, treeSize);
    }
  }
}
