/** tlog.rs: how an entry, its inclusion proof, and a signed checkpoint are tied together. */
module Tlog {
  import opened Prelude
  import opened Utf8Text
  import opened MerkleTree
  import opened MerkleShape
  import opened MerkleProof
  import opened MerkleTheorems
  import opened Checkpoint

  const I64_LIMIT: int := 0x8000_0000_0000_0000

  /** The 64-bit signed integers of the bundle format. */
  type I64 = n: int | -I64_LIMIT <= n < I64_LIMIT

  datatype InclusionProof = InclusionProof(
    logIndex: I64, rootHash: Digest, treeSize: I64, hashes: seq<Digest>, checkpoint: string)

  datatype Entry = Entry(canonicalizedBody: Bytes, inclusionProof: Option<InclusionProof>,
        inclusionPromise: Option<Bytes>)

  datatype RekorKey = RekorKey(hint: Bytes, der: Bytes)

  /** The trusted root: its log keys, unless they cannot be read, and the checks of unseen libraries. */
  datatype Trust = Trust(
    rekorKeys: Option<seq<RekorKey>>,
    verifies: (Bytes, Bytes, Bytes) -> bool,  // key, signature, message
    setVerifies: Entry -> bool)

  datatype TlogError =
    | InvalidIndex
    | InvalidSize
    | InclusionFailed
    | UnparsableCheckpoint
    | RootMismatch
    | NoRekorKeys
    | BadCheckpointSignature
    | NoMatchingKey
    | BadSet

  // ----- The inclusion proof

  predicate InclusionOk(sha: HashFn, body: Bytes, proof: InclusionProof) {
    && proof.logIndex >= 0 && proof.treeSize >= 0
    && InclusionAccepts(sha, LeafHash(sha, body), proof.logIndex, proof.treeSize, proof.hashes, proof.rootHash)
  }

  method VerifyMerkleInclusion(sha: HashFn, entry: Entry, proof: InclusionProof) returns (r: Result<Unit, TlogError>)
    ensures r.Success? <==> InclusionOk(sha, entry.canonicalizedBody, proof)
    ensures r == if proof.logIndex < 0 then Failure(InvalidIndex)
                 else if proof.treeSize < 0 then Failure(InvalidSize)
                 else if !InclusionOk(sha, entry.canonicalizedBody, proof) then Failure(InclusionFailed)
                 else Success(Unit.Unit)
  {
    if proof.logIndex < 0 {
      return Failure(InvalidIndex);
    }
    if proof.treeSize < 0 {
      return Failure(InvalidSize);
    }
    var leafHash := HashLeaf(sha, entry.canonicalizedBody);
    var verified := VerifyInclusionProof(sha, leafHash, proof.logIndex, proof.treeSize, proof.hashes, proof.rootHash);
    return if verified.Success? then Success(Unit.Unit) else Failure(InclusionFailed);
  }

  /** No index and no size below zero, and a proof that climbs from the hash of the byte 0 and the body. */
  lemma {:induction false} InclusionOkIff(sha: HashFn, body: Bytes, proof: InclusionProof)
    ensures InclusionOk(sha, body, proof) <==>
            0 <= proof.logIndex < proof.treeSize &&
            InclusionAccepts(sha, sha([0] + body), proof.logIndex, proof.treeSize, proof.hashes, proof.rootHash)
  {
  }

  // ----- The checkpoint

  predicate Matches(s: CheckpointSignature, k: RekorKey) {
    s.keyId == k.hint
  }

  predicate NoMatch(s: CheckpointSignature, keys: seq<RekorKey>, n: nat)
    requires n <= |keys|
  {
    forall j :: 0 <= j < n ==> !Matches(s, keys[j])
  }

  /** The first pair of a signature and a key with its hint, signatures first. */
  predicate FirstMatch(sigs: seq<CheckpointSignature>, keys: seq<RekorKey>, i: nat, j: nat) {
    && i < |sigs| && j < |keys| && Matches(sigs[i], keys[j]) && NoMatch(sigs[i], keys, j)
    && forall k :: 0 <= k < i ==> NoMatch(sigs[k], keys, |keys|)
  }

  predicate VerifiesUnder(trust: Trust, cp: SignedTreeHead, s: CheckpointSignature, k: RekorKey) {
    trust.verifies(k.der, s.signature, Utf8(cp.signedNoteText, 0))
  }

  /** The signature that decides is good. */
  ghost predicate SignedHead(trust: Trust, cp: SignedTreeHead) {
    trust.rekorKeys.Some? &&
    exists i: nat, j: nat :: FirstMatch(cp.signatures, trust.rekorKeys.value, i, j) &&
                   VerifiesUnder(trust, cp, cp.signatures[i], trust.rekorKeys.value[j])
  }

  lemma {:induction false} FirstMatchUnique(sigs: seq<CheckpointSignature>, keys: seq<RekorKey>, i: nat, j: nat,
        k: nat, l: nat)
    requires FirstMatch(sigs, keys, i, j) && FirstMatch(sigs, keys, k, l)
    ensures i == k && j == l
  {
    assert !NoMatch(sigs[i], keys, |keys|) && !NoMatch(sigs[k], keys, |keys|);
    assert i == k;
  }

  ghost predicate CheckpointOk(trust: Trust, text: string, root: Digest) {
    Parsed(text).Success? && Parsed(text).value.rootHash == root && SignedHead(trust, Parsed(text).value)
  }

  ghost predicate EarliestPair(sigs: seq<CheckpointSignature>, keys: seq<RekorKey>, i: nat, j: nat) {
    && i < |sigs| && j < |keys| && sigs[i].keyId == keys[j].hint
    && forall n, k | 0 <= n < |sigs| && 0 <= k < |keys| && sigs[n].keyId == keys[k].hint :: i < n || (i == n && j <= k)
  }

  /** The first pair with the same four bytes decides by its signature over the text before the blank line. */
  ghost predicate Decided(trust: Trust, cp: SignedTreeHead, keys: seq<RekorKey>, r: Result<Unit, TlogError>) {
    && ((forall s, k :: s in cp.signatures && k in keys ==> s.keyId != k.hint) <==> r == Failure(NoMatchingKey))
    && forall i: nat, j: nat | EarliestPair(cp.signatures, keys, i, j) ::
         r == if trust.verifies(keys[j].der, cp.signatures[i].signature, Utf8(cp.signedNoteText, 0))
              then Success(Unit.Unit) else Failure(BadCheckpointSignature)
  }

  method VerifyCheckpoint(trust: Trust, text: string, proof: InclusionProof) returns (r: Result<Unit, TlogError>)
    ensures r.Success? <==> CheckpointOk(trust, text, proof.rootHash)
    ensures r == Failure(UnparsableCheckpoint) <==> Parsed(text).Failure?
    ensures r == Failure(RootMismatch) <==> Parsed(text).Success? && Parsed(text).value.rootHash != proof.rootHash
    ensures Parsed(text).Success? && Parsed(text).value.rootHash == proof.rootHash && trust.rekorKeys.None? ==>
              r == Failure(NoRekorKeys)
    ensures Parsed(text).Success? && Parsed(text).value.rootHash == proof.rootHash && trust.rekorKeys.Some? ==>
              Decided(trust, Parsed(text).value, trust.rekorKeys.value, r)
  {
    hide Parsed, Utf8;
    var parsed := FromText(text);
    if parsed.Failure? {
      return Failure(UnparsableCheckpoint);
    }
    var cp := parsed.value;
    if cp.rootHash != proof.rootHash {
      return Failure(RootMismatch);
    }
    if trust.rekorKeys.None? {
      return Failure(NoRekorKeys);
    }
    var keys := trust.rekorKeys.value;
    for i := 0 to |cp.signatures|
      invariant forall k :: 0 <= k < i ==> NoMatch(cp.signatures[k], keys, |keys|)
    {
      for j := 0 to |keys|
        invariant NoMatch(cp.signatures[i], keys, j)
      {
        if Matches(cp.signatures[i], keys[j]) {
          assert FirstMatch(cp.signatures, keys, i, j);
          forall k: nat, l: nat | FirstMatch(cp.signatures, keys, k, l) ensures k == i && l == j {
            FirstMatchUnique(cp.signatures, keys, i, j, k, l);
          }
          return if VerifiesUnder(trust, cp, cp.signatures[i], keys[j]) then Success(Unit.Unit)
                 else Failure(BadCheckpointSignature);
        }
      }
    }
    return Failure(NoMatchingKey);
  }

  // ----- The entry

  ghost predicate EntryOk(sha: HashFn, trust: Trust, entry: Entry) {
    && (entry.inclusionProof.Some? ==>
          && InclusionOk(sha, entry.canonicalizedBody, entry.inclusionProof.value)
          && CheckpointOk(trust, entry.inclusionProof.value.checkpoint, entry.inclusionProof.value.rootHash))
    && (entry.inclusionPromise.Some? ==> trust.setVerifies(entry))
  }

  method VerifyEntryInclusion(sha: HashFn, trust: Trust, entry: Entry) returns (r: Result<Unit, TlogError>)
    ensures r.Success? <==> EntryOk(sha, trust, entry)
    ensures entry.inclusionPromise.Some? && !trust.setVerifies(entry) ==> r.Failure?
    ensures entry.inclusionProof.None? ==>
              r == if entry.inclusionPromise.Some? && !trust.setVerifies(entry) then Failure(BadSet)
                   else Success(Unit.Unit)
    ensures entry.inclusionProof.Some? ==>
              var proof := entry.inclusionProof.value;
              r.Success? <==>
                && InclusionOk(sha, entry.canonicalizedBody, proof)
                && CheckpointOk(trust, proof.checkpoint, proof.rootHash)
                && (entry.inclusionPromise.None? || trust.setVerifies(entry))
  {
    hide InclusionOk, CheckpointOk;
    if entry.inclusionProof.Some? {
      var _ :- VerifyMerkleInclusion(sha, entry, entry.inclusionProof.value);
      var _ :- VerifyCheckpoint(trust, entry.inclusionProof.value.checkpoint, entry.inclusionProof.value);
    }
    if entry.inclusionPromise.Some? && !trust.setVerifies(entry) {
      return Failure(BadSet);
    }
    return Success(Unit.Unit);
  }

  // ----- What acceptance means

  /** The route that an accepted proof claims. */
  function ClaimedRoute(proof: InclusionProof): Route {
    if 0 <= proof.logIndex < proof.treeSize && |proof.hashes| == |Dirs(proof.treeSize, proof.logIndex)|
    then RouteOf(proof.hashes, Dirs(proof.treeSize, proof.logIndex))
    else Here
  }

  /**
   * If the root of an accepted proof is the root of a list of any size, then the body is on the list,
   * or two inputs with the same hash have been found; the claimed index and size need not fit the list.
   */
  lemma {:induction false} AcceptedBodyIsListed(sha: HashFn, body: Bytes, proof: InclusionProof, leaves: seq<Bytes>)
    requires InclusionOk(sha, body, proof) && proof.rootHash == MTH(sha, leaves)
    ensures body in leaves || MembershipCollision(sha, body, leaves, ClaimedRoute(proof)).Breaks(sha)
  {
    hide MTH, Dirs, RouteOf;
    Membership(sha, body, leaves, ClaimedRoute(proof));
  }

  /**
   * An accepted entry with a proof was committed to by a log key: a key of the trusted root verifies a
   * signature over a prefix of the checkpoint, that prefix states the root, and whatever list of
   * entries has this root contains the body.
   */
  lemma {:induction false} AcceptedEntryIsCommitted(sha: HashFn, trust: Trust, entry: Entry, leaves: seq<Bytes>)
      returns (s: CheckpointSignature, k: RekorKey)
    requires EntryOk(sha, trust, entry) && entry.inclusionProof.Some?
    requires entry.inclusionProof.value.rootHash == MTH(sha, leaves)
    ensures var proof := entry.inclusionProof.value;
            && Parsed(proof.checkpoint).Success? && trust.rekorKeys.Some? && k in trust.rekorKeys.value
            && var cp := Parsed(proof.checkpoint).value;
            && cp.rootHash == proof.rootHash && s in cp.signatures && s.keyId == k.hint
            && trust.verifies(k.der, s.signature, Utf8(cp.signedNoteText, 0)) && cp.signedNoteText <= proof.checkpoint
            && (|| entry.canonicalizedBody in leaves
                || MembershipCollision(sha, entry.canonicalizedBody, leaves, ClaimedRoute(proof)).Breaks(sha))
  {
    hide Parsed, MTH, Utf8, InclusionOk;
    var proof := entry.inclusionProof.value;
    var cp := Parsed(proof.checkpoint).value;
    var i: nat, j: nat :| FirstMatch(cp.signatures, trust.rekorKeys.value, i, j) &&
                VerifiesUnder(trust, cp, cp.signatures[i], trust.rekorKeys.value[j]);
    s, k := cp.signatures[i], trust.rekorKeys.value[j];
    AcceptedWellFormed(proof.checkpoint);
    AcceptedBodyIsListed(sha, entry.canonicalizedBody, proof, leaves);
  }

  /** Equal signed bytes state equal heads: a signature cannot be carried over to another tree. */
  lemma {:induction false} SignedBytesDetermineHead(a: string, b: string)
    requires Parsed(a).Success? && Parsed(b).Success?
    requires Utf8(Parsed(a).value.signedNoteText, 0) == Utf8(Parsed(b).value.signedNoteText, 0)
    ensures Parsed(a).value.rootHash == Parsed(b).value.rootHash
    ensures Parsed(a).value.treeSize == Parsed(b).value.treeSize && Parsed(a).value.origin == Parsed(b).value.origin
  {
    hide Parsed, Utf8;
    var s, t := Parsed(a).value.signedNoteText, Parsed(b).value.signedNoteText;
    Utf8Injective(s, 0, t, 0);
    assert s[0..] == s && t[0..] == t;
    SignedTextDeterminesHeader(a, b);
  }

  // ----- What acceptance does not mean: the claimed position

  /** The leaf that an accepted proof stands for; the claim need only have the shape of its path. */
  ghost predicate StandsForLeaf(sha: HashFn, body: Bytes, proof: InclusionProof, leaves: seq<Bytes>, k: nat) {
    && proof.logIndex >= 0 && proof.treeSize >= 0 && proof.rootHash == MTH(sha, leaves)
    && StandsFor(sha, body, proof.logIndex, proof.treeSize, leaves, proof.hashes, k)
  }

  /**
   * Exactly which claims are accepted with a signed root MTH(D): those that stand for some leaf of D, with
   * that leaf's audit path; otherwise a collision is extracted.
   */
  lemma {:induction false} AcceptedEntryStandsFor(sha: HashFn, trust: Trust, entry: Entry, leaves: seq<Bytes>)
      returns (k: nat)
    requires EntryOk(sha, trust, entry) && entry.inclusionProof.Some?
    requires entry.inclusionProof.value.rootHash == MTH(sha, leaves)
    ensures var (body, proof) := (entry.canonicalizedBody, entry.inclusionProof.value);
            || StandsForLeaf(sha, body, proof, leaves, k)
            || MembershipCollision(sha, body, leaves, ClaimedRoute(proof)).Breaks(sha)
  {
    hide CheckpointOk, MTH, Dirs, RouteOf;
    var (body, proof) := (entry.canonicalizedBody, entry.inclusionProof.value);
    k := AcceptedStandsFor(sha, body, proof.logIndex, proof.treeSize, leaves, proof.hashes);
  }

  lemma {:induction false} StandsForLeafAccepted(sha: HashFn, trust: Trust, body: Bytes, proof: InclusionProof,
        leaves: seq<Bytes>, k: nat)
    requires StandsForLeaf(sha, body, proof, leaves, k) && CheckpointOk(trust, proof.checkpoint, MTH(sha, leaves))
    ensures EntryOk(sha, trust, Entry(body, Some(proof), None))
  {
    hide CheckpointOk, MTH, Dirs, StandsFor;
    StandsForAccepted(sha, body, proof.logIndex, proof.treeSize, leaves, proof.hashes, k);
  }

  /** The check that the code does not make: the proof claims the size that the checkpoint states. */
  predicate SizesAgree(proof: InclusionProof) {
    Parsed(proof.checkpoint).Success? && proof.treeSize == Parsed(proof.checkpoint).value.treeSize
  }

  /** The checkpoint states the size and the root of the list. */
  ghost predicate CommitsTo(sha: HashFn, text: string, leaves: seq<Bytes>) {
    && Parsed(text).Success? && Parsed(text).value.rootHash == MTH(sha, leaves)
    && Parsed(text).value.treeSize == |leaves|
  }

  /** With that check, the body is the entry at the claimed index of the list that the checkpoint commits to. */
  lemma {:induction false} IndexBoundIfSizesAgree(sha: HashFn, trust: Trust, entry: Entry, leaves: seq<Bytes>)
    requires EntryOk(sha, trust, entry) && entry.inclusionProof.Some?
    requires SizesAgree(entry.inclusionProof.value) && CommitsTo(sha, entry.inclusionProof.value.checkpoint, leaves)
    ensures var (body, proof) := (entry.canonicalizedBody, entry.inclusionProof.value);
            || (0 <= proof.logIndex < |leaves| && body == leaves[proof.logIndex])
            || MembershipCollision(sha, body, leaves, ClaimedRoute(proof)).Breaks(sha)
  {
    hide Parsed, MTH, Dirs, SignedHead, InclusionOk, StandsFor, MembershipCollision;
    var (body, proof) := (entry.canonicalizedBody, entry.inclusionProof.value);
    var k := AcceptedEntryStandsFor(sha, trust, entry, leaves);
    if StandsForLeaf(sha, body, proof, leaves, k) {
      ClaimedIndexExact(sha, body, proof.logIndex, proof.treeSize, leaves, proof.hashes, k);
      LeafStoodFor(sha, body, proof.logIndex, proof.treeSize, leaves, proof.hashes, k);
    }
  }

  lemma {:induction false} LeafStoodFor(sha: HashFn, body: Bytes, i: nat, n: nat, leaves: seq<Bytes>,
        proof: seq<Digest>, k: nat)
    requires StandsFor(sha, body, i, n, leaves, proof, k)
    ensures k < |leaves| && leaves[k] == body
  {
  }

  /**
   * Without it, the index is right exactly when the claim has the shape of that index in a tree of the
   * checkpoint's size, which a caller can compute from the two sizes and the index.
   */
  lemma {:induction false} IndexRightIff(sha: HashFn, body: Bytes, proof: InclusionProof, leaves: seq<Bytes>, k: nat)
    requires StandsForLeaf(sha, body, proof, leaves, k) && CommitsTo(sha, proof.checkpoint, leaves)
    ensures k == proof.logIndex <==>
            SameShape(proof.logIndex, proof.treeSize, proof.logIndex, Parsed(proof.checkpoint).value.treeSize)
  {
    hide Parsed, MTH, Dirs, StandsFor, SameShape;
    ClaimedIndexExact(sha, body, proof.logIndex, proof.treeSize, leaves, proof.hashes, k);
  }

  /** The size is not bound: with a checkpoint of three entries, a proof is accepted under size four. */
  lemma {:induction false} SizeIsNotBound(sha: HashFn, trust: Trust, leaves: seq<Bytes>, text: string)
    requires |leaves| == 3 && CommitsTo(sha, text, leaves) && CheckpointOk(trust, text, MTH(sha, leaves))
    ensures var proof := InclusionProof(0, MTH(sha, leaves), 4, Path(sha, 0, leaves), text);
            EntryOk(sha, trust, Entry(leaves[0], Some(proof), None)) && !SizesAgree(proof)
  {
    hide CheckpointOk, MTH, Parsed;
    assert Split(3) == Split(4) == 2;
    assert Dirs(3, 0) == Dirs(4, 0);
    var proof := InclusionProof(0, MTH(sha, leaves), 4, Path(sha, 0, leaves), text);
    StandsForLeafAccepted(sha, trust, leaves[0], proof, leaves, 0);
  }

  /** Nor is the index: the third of three entries is accepted as the second of two. */
  lemma {:induction false} IndexIsNotBound(sha: HashFn, trust: Trust, leaves: seq<Bytes>, text: string)
    requires |leaves| == 3 && CommitsTo(sha, text, leaves) && CheckpointOk(trust, text, MTH(sha, leaves))
    ensures var proof := InclusionProof(1, MTH(sha, leaves), 2, Path(sha, 2, leaves), text);
            EntryOk(sha, trust, Entry(leaves[2], Some(proof), None)) && !SizesAgree(proof)
  {
    hide CheckpointOk, MTH, Parsed;
    assert Split(3) == 2 && Split(2) == 1;
    assert Dirs(1, 0) == [];
    assert Dirs(3, 2) == Dirs(2, 1) == [true];
    var proof := InclusionProof(1, MTH(sha, leaves), 2, Path(sha, 2, leaves), text);
    StandsForLeafAccepted(sha, trust, leaves[2], proof, leaves, 2);
  }
}
