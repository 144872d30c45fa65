# Verification of the sigstore-rust trust core

A Dafny model of the parts of sigstore-rust that decide what a client believes, with proofs of what
those decisions guarantee. It covers the Merkle proof verifiers, the TUF client, the canonical JSON
that TUF signatures cover, the DSSE pre-authentication encoding, the checkpoint format, and the code
that binds an inclusion proof to a signed checkpoint.

`dafny verify dfyconfig.toml` checks the whole project.

## How it is organised

| files | subject |
|---|---|
| `Prelude`, `Bits`, `Decimal`, `Utf8Text`, `Base64`, `TextLines` | machine words, bits, numerals, UTF-8, base64, and the text operations that the parser uses |
| `MerkleTree`, `MerkleShape` | MTH, PATH and PROOF of RFC 6962, and the shape of a path: top-down, level by level, and by bits |
| `MerkleProof`, `MerkleTheorems` | the verifiers of `proof.rs` as loops, soundness and completeness |
| `Rfc6962`, `Rfc9162` | the equations and the example of the one standard in bytes, and equivalence to the algorithm of the other |
| `CanonicalJson`, `Dsse` | the two encodings that signatures cover, and why they are unambiguous |
| `CanonicalReader` | an independent reader that accepts exactly the canonical texts |
| `TufMetadata`, `TufTrusted`, `TufHistory`, `TufSnapshotRollback` | metadata, thresholds, `TrustedMetadataSet` as a class with a ghost history, what every history keeps, and the run in which a snapshot version moves back |
| `TufAcceptance` | which files are accepted, in terms of bytes, field names, versions, hashes, times and signatures |
| `TufRefresh`, `TufDelegation`, `TufClient`, `RoleNames` | the refresh workflow and the delegation search as functions with their guarantees, and `Updater` as a class proved to compute them |
| `TufProgress` | refreshes that succeed: what is requested, held and stored, and what the next run needs |
| `TufSearchOrder`, `TufSearchComplete` | the first answer in pre-order, told from the delegation graph alone, and that the search gives it |
| `TufStore`, `TufRestart`, `TufPinLoss` | the store of metadata files, what it carries over from one run of the client to the next, and the pairs of runs between which a pin is lost |
| `TufSample` | canonical JSON documents with their reader, for the examples |
| `Checkpoint`, `Tlog` | the checkpoint parser and printer, and the verification of a log entry |

Code that changes state is modelled as classes and loops. Each such method is proved equal to a function
of its inputs and the old state (`RootStep`, `Refresh`, `Search`, `Parsed`, ...), and the theorems are
about those functions, so they hold for every run of the methods.

A definition that a method and the theorems about it share could be wrong in both. So each main one is compared
with an independent one: the tree hash with the bytes of RFC 6962 (`TreeHash`, `SevenEntries`), canonical JSON with a
reader (`ReadIffCanonical`), the updates with conditions spelled out (`TimestampAcceptedIff` and the like, `SignedByIff`),
the search with the first answer in the graph (`SearchAnswersFirst`, `FirstAnswerUnique`), and the refresh with the
requests, files and stored names of a run that succeeds (`RefreshSucceeds`, `SecondRunIsShort`).

What the model does not look into is a parameter: SHA-256 (any function from bytes to 32 bytes), signature
verification, JSON and typed deserialization, time parsing and glob matching (`TufMetadata.Env`), and the
repository, which may answer anything and differently at each call. Statements about hashing name their
exception: a function of the proof and the leaves returns two inputs, and the theorem says that the
conclusion holds or that these two inputs differ and have the same hash (`Collision.Breaks`).

## Results that are not what one might expect

* Snapshot versions can move back under one root. A timestamp that pins no snapshot makes the client forget
  the last pin, because pins are compared only when both sides have one. `FloorLostIff` says exactly which
  accepted timestamp loses the floor, `SnapshotMovesBackIff` that exactly then the next accepted snapshot moves
  back, and `SnapshotNeverMovesBack` that nothing else does. `SnapshotCanMoveBack` is the run, for every
  environment and all files of this kind, and `GoodRunExists` gives such files.
* A pin of the snapshot can be lost between two runs with one store, because an accepted timestamp is stored before
  there is a snapshot that it pins. In one form, a run rejects a newer snapshot that drops or lowers a pin; but the
  timestamp that pins it is stored already, so the next run cannot adopt the stored snapshot, has no pins to compare,
  and takes the file that was rejected: `RejectedThenTaken`, with an instance in `RejectedThenTakenExists`. In the other
  form, a held snapshot is used again under a timestamp with its version and other hashes, because only versions are
  compared (`ReuseLeavesUnpinned`); the next run does compare the hashes: `PinsRegressAcrossRuns` and `LossExists`.
  `ReadoptedIff` has the exact condition, for every state that a run can end in: the stored snapshot is adopted again
  if and only if it and the timestamp are unexpired and the timestamp pins its version, length and hashes. Where this
  holds, no pin is lost whatever the repository serves (`NoRollbackAcrossRuns`); where it does not, the next run takes
  any snapshot that comes with a good timestamp (`NoFloorIfUnadopted`). The root and the unexpired timestamp are floors
  in either case, also after a refresh that was broken off at any stage.
* A stored timestamp is a floor for the next run only while it is unexpired: `StoredTimestampIsFloor`. An expired
  one is skipped, and the next client ends with whatever good timestamp it is served, of any version:
  `ExpiredTimestampIsNoFloor`.
* An accepted inclusion proof authenticates neither the index nor the tree size: `SizeIsNotBound` and
  `IndexIsNotBound` are proofs for three entries that are accepted under size four and as the second of two.
  `AcceptedEntryStandsFor` and `StandsForLeafAccepted` say exactly which claims are accepted, `IndexRightIff` when
  the claimed index is the right one. With one check that the code does not make, that the proof and the
  checkpoint state the same size, the index is bound: `IndexBoundIfSizesAgree`.
* If a role has two delegations of the same name, the search follows either one that matches the path, while the
  keys and the threshold are those of the first: `SecondUnderKeysOfFirst`. So keys that were trusted for one set
  of paths can sign for another. `AuthorityMatchesIff` says exactly when they cannot, and `DistinctNamesHandOff`
  that they cannot when each name is delegated to once.
* The comment on `matches_path` says that a role authorizes a path by its hash prefixes or by its globs; the
  code looks at the globs only when there are no hash prefixes, and the model follows the code. The comment on
  `max_delegations` calls it a depth; the code counts the roles it visits, and so does the model.

## Model

| member | source | states |
|---|---|---|
| `MerkleTree.HashLeaf` | crates/sigstore-merkle/src/tree.rs:19-24 | the digest is sha([0] + data) |
| `MerkleTree.HashChildren` | crates/sigstore-merkle/src/tree.rs:29-35 | the digest is sha([1] + left + right) |
| `MerkleTree.DomainSeparation` | crates/sigstore-merkle/src/tree.rs:19-35 | no leaf input is a node input, and either kind of input determines its parts |
| `Rfc6962.TreeHash` | crates/sigstore-merkle/src/tree.rs:19-35 | MTH in bytes: sha of nothing, of the byte 0 and the entry, or of the byte 1 and the hashes of both parts, cut at the largest power of two below the size |
| `Rfc6962.AuditPath` | crates/sigstore-merkle/src/proof.rs:22-83 | PATH by the equations of section 2.1.1, for that power of two |
| `Rfc6962.ConsistencyProof` | crates/sigstore-merkle/src/proof.rs:97-206 | PROOF and SUBPROOF by the equations of section 2.1.2, for that power of two |
| `Rfc6962.SevenEntries` | crates/sigstore-merkle/src/proof.rs:22-206 | the example of section 2.1.3: root, four audit paths and three consistency proofs of seven entries, node by node |
| `Rfc6962.TwoEntries` | crates/sigstore-merkle/src/proof.rs:60-82 | which proofs are accepted for two entries, in bytes |
| `MerkleShape.SplitIsLargestPow2` | crates/sigstore-merkle/src/proof.rs:228-249 | the split point of the recursive tree is the one power of two below n from which doubling reaches n |
| `MerkleShape.LevelDirsCorrect` | crates/sigstore-merkle/src/proof.rs:228-249 | halving level by level, with promotion of a last node without sibling, gives the same sides as splitting at the largest power of two |
| `MerkleShape.LevelDirsDecompose` | crates/sigstore-merkle/src/proof.rs:211-221 | the sides of PATH(i, n) are the low bits of i, as many as the bit length of i xor (n - 1), and then popcount(i >> inner) times left |
| `MerkleShape.ShiftBelowInner` | crates/sigstore-merkle/src/proof.rs:158-160 | trailing_zeros(old) is below the inner size, so `saturating_sub` never saturates |
| `MerkleShape.ConsistencyDirsAbovePath` | crates/sigstore-merkle/src/proof.rs:156-186 | the consistency path of RFC 6962 is the path of leaf old - 1 without its first trailing_zeros(old) turns |
| `MerkleShape.ConsistencyDirsDecompose` | crates/sigstore-merkle/src/proof.rs:156-186 | shift, inner and border as computed by the code describe exactly the sides of RFC 6962's PROOF |
| `MerkleShape.PathLengthBound` | crates/sigstore-merkle/src/proof.rs:228-249 | a path in a tree of at most 2^w leaves has at most w siblings, so at most 64 for every u64 size |
| `MerkleProof.ExpectedInclusionProofLength` | crates/sigstore-merkle/src/proof.rs:228-249 | the halving loop counts the siblings of RFC 6962's PATH |
| `MerkleProof.VerifyInclusionProof` | crates/sigstore-merkle/src/proof.rs:22-83 | success exactly when the length is that of PATH(i, n) and hashing along PATH's sides gives the root; which error is reported otherwise |
| `MerkleProof.InnerProofSize` | crates/sigstore-merkle/src/proof.rs:218-221 | the bit length of index xor (size - 1), at most 64 |
| `MerkleProof.DecomposeInclusionProof` | crates/sigstore-merkle/src/proof.rs:211-215 | the inner size and the number of bits set above it |
| `MerkleProof.ChainInner` | crates/sigstore-merkle/src/proof.rs:252-262 | hashing up with the side of each sibling given by a bit of the index |
| `MerkleProof.ChainInnerRight` | crates/sigstore-merkle/src/proof.rs:267-276 | the same climb in the old tree, which has only the siblings on the left |
| `MerkleProof.ChainBorderRight` | crates/sigstore-merkle/src/proof.rs:279-285 | a climb with all siblings on the left, alike in both trees |
| `MerkleProof.VerifyConsistencyProof` | crates/sigstore-merkle/src/proof.rs:97-206 | success exactly when the proof has the length of RFC 6962's PROOF and climbs to both roots from the right seed; the whole outcome where the old size is 0 or the sizes agree, and which error otherwise |
| `MerkleTheorems.InclusionComplete` | crates/sigstore-merkle/src/proof.rs:22-83 | the honest PATH(i, D) is accepted for the i-th leaf against MTH(D), for every D and i |
| `MerkleTheorems.InclusionExact` | crates/sigstore-merkle/src/proof.rs:22-83 | against MTH(D) with the size of D, an accepted hash and proof are the i-th leaf hash and PATH(i, D), or a collision is extracted |
| `MerkleTheorems.Membership` | crates/sigstore-merkle/src/proof.rs:60-72 | a body that climbs to MTH(D) along any route is an element of D, or a collision is extracted |
| `MerkleTheorems.MembershipExact` | crates/sigstore-merkle/src/proof.rs:60-72 | such a body is a leaf of D, and the route is that leaf's own in the tree of D, siblings included, or a collision is extracted |
| `MerkleTheorems.AcceptedStandsFor` | crates/sigstore-merkle/src/proof.rs:22-83 | a proof accepted under any index and size against MTH(D) is the audit path of some leaf of D with a path of the claimed shape, or a collision is extracted |
| `MerkleTheorems.StandsForAccepted` | crates/sigstore-merkle/src/proof.rs:22-83 | conversely, the audit path of a leaf is accepted under every index and size whose path has the same shape |
| `MerkleTheorems.ClaimedIndexExact` | crates/sigstore-merkle/src/proof.rs:22-83 | the claimed index is the leaf's own exactly when the claim has the shape of that index in the real tree, in particular under the real size |
| `MerkleTheorems.ConsistencyComplete` | crates/sigstore-merkle/src/proof.rs:152-205 | the honest PROOF(m, D) is accepted with MTH(D[..m]) and MTH(D), with and without an explicit seed |
| `MerkleTheorems.ConsistencySound` | crates/sigstore-merkle/src/proof.rs:97-206 | for 0 < old <= new: if the new root is MTH(D), then an accepted old root is MTH(D[..old]) and the proof is PROOF(old, D), or a collision is extracted |
| `MerkleTheorems.AppendOnly` | crates/sigstore-merkle/src/proof.rs:97-206 | over any chain of verified steps, every earlier root commits to a prefix of the last list, or a collision is extracted |
| `MerkleTheorems.EntryKeepsIndex` | crates/sigstore-merkle/src/proof.rs:22-206 | an entry proved at an index under an earlier head is at that index of the last list, or a collision is extracted |
| `Rfc9162.SameAsStandard` | crates/sigstore-merkle/src/proof.rs:42-82 | for all inputs, the code without the inner shift loop accepts exactly what section 2.1.3.2 of RFC 9162 accepts |
| `Decimal.DecInjective` | crates/sigstore-tuf/src/canonical_json.rs:101-103 | different numbers have different numerals |
| `CanonicalJson.ToCanonicalBytes` | crates/sigstore-tuf/src/canonical_json.rs:32-36 | the encoder succeeds exactly when no float occurs anywhere in the value, and then returns its canonical bytes |
| `CanonicalJson.Encode` | crates/sigstore-tuf/src/canonical_json.rs:38-84 | what one call appends to the shared buffer, also for nested values, and that it never removes anything |
| `CanonicalJson.EncodeString` | crates/sigstore-tuf/src/canonical_json.rs:88-98 | a string is quoted, and only backslash and quote are escaped |
| `CanonicalJson.SortedKeyList` | crates/sigstore-tuf/src/canonical_json.rs:66-70 | the keys of an object, each once; of two keys the earlier one is a proper prefix, or has the smaller byte at the first difference |
| `CanonicalJson.SortedKeysUnique` | crates/sigstore-tuf/src/canonical_json.rs:66-70 | the order of the keys in the source text cannot matter: there is one sorted list of a set of keys |
| `CanonicalJson.Unambiguous` | crates/sigstore-tuf/src/canonical_json.rs:32-98 | with any following text that does not start with a digit, the bytes determine the value, objects as maps, and the text |
| `CanonicalJson.CanonicalUnambiguous` | crates/sigstore-tuf/src/canonical_json.rs:32-98 | the same of the canonical bytes themselves: followed by texts that start with no digit, equal bytes come from the same value and the same following text |
| `CanonicalJson.CanonicalInjective` | crates/sigstore-tuf/src/canonical_json.rs:32-98 | equal canonical bytes come from equal values |
| `CanonicalReader.ReadIffCanonical` | crates/sigstore-tuf/src/canonical_json.rs:32-98 | a reader that takes text apart byte by byte and insists on key order, shortest numerals and no needless escape returns a value for a text exactly when the text is the value's canonical bytes |
| `CanonicalReader.ValueIsRead` | crates/sigstore-tuf/src/canonical_json.rs:32-98 | in front of any text that does not start with a digit, the reader returns the value that was encoded and leaves that text |
| `CanonicalReader.ReadValueIsEncoded` | crates/sigstore-tuf/src/canonical_json.rs:32-98 | whatever the reader accepts is the encoding of what it returns, in front of what it leaves |
| `Dsse.Pae` | crates/sigstore-types/src/dsse.rs:63-83 | the result is "DSSEv1", the length of the type, the type, the length of the payload and the payload, with single spaces, byte by byte |
| `Dsse.EncodingInjective` | crates/sigstore-types/src/dsse.rs:63-83 | equal encodings have the same payload type and the same payload |
| `TufMetadata.FromSlice` | crates/sigstore-tuf/src/metadata/mod.rs:93-139 | parsing succeeds or fails as specified, and captures the canonical bytes of `signed` |
| `TufMetadata.SignedBytesDeterminePayload` | crates/sigstore-tuf/src/metadata/mod.rs:130-138 | files with the same captured bytes have the same payload, whatever the deserializer |
| `TufMetadata.VerifyThreshold` | crates/sigstore-tuf/src/metadata/mod.rs:151-224 | the loop over signatures with its two sets reports the specified outcome |
| `TufMetadata.ThresholdMeaning` | crates/sigstore-tuf/src/metadata/mod.rs:151-224 | success exactly when the threshold is positive, no authorized key has two non-empty signatures, and enough distinct authorized keys have a valid one |
| `TufMetadata.SignedUnderIff` | crates/sigstore-tuf/src/metadata/mod.rs:151-224 | the same spelled out: the threshold is positive, no listed key has two non-empty signatures, and there is a set of at least that many listed keys each with a signature that the key verifies |
| `TufMetadata.ThresholdUnchanged` | crates/sigstore-tuf/src/metadata/mod.rs:165-215 | permuting signatures, and adding or dropping unauthorized or empty ones, changes neither Ok nor Err |
| `TufMetadata.MatchesPathMeaning` | crates/sigstore-tuf/src/metadata/role.rs:121-143 | with hash prefixes, whether one of them starts the hash of the path; else the first pattern that is not a plain mismatch decides, by its match or by being invalid |
| `TufTrusted.CheckIntegrity` | crates/sigstore-tuf/src/trusted.rs:404-440 | the length matches if pinned, and if hashes are pinned then some supported one is and all supported ones match |
| `TufTrusted.SignedByIff` | crates/sigstore-tuf/src/trusted.rs:372-377 | verify_with_root passes exactly when the root lists the role and enough of its keys have signed the file |
| `TufAcceptance.ParsedIff` | crates/sigstore-tuf/src/metadata/mod.rs:93-141 | what from_slice returns: type and specification version fit, and the captured bytes are the canonical text of the signed part |
| `TufAcceptance.IntegrityIff` | crates/sigstore-tuf/src/trusted.rs:404-440 | the integrity check passes exactly with the pinned length and, where hashes are pinned, a SHA-256 or SHA-512 one, and every such hash equal up to case |
| `TufAcceptance.BootstrapIff` | crates/sigstore-tuf/src/trusted.rs:39-48 | from_root accepts exactly a root that enough of its own keys have signed |
| `TufAcceptance.RootAcceptedIff` | crates/sigstore-tuf/src/trusted.rs:79-104 | update_root accepts exactly the next version, signed by enough keys of the held root and of itself; all else is dropped |
| `TufAcceptance.TimestampAcceptedIff` | crates/sigstore-tuf/src/trusted.rs:150-188 | update_timestamp accepts exactly a signed, unexpired and newer timestamp that does not lower the pin of the snapshot |
| `TufAcceptance.SnapshotAcceptedIff` | crates/sigstore-tuf/src/trusted.rs:193-245 | update_snapshot accepts exactly a signed and unexpired snapshot with the pinned length, hashes and version, which keeps the held pins, under an unexpired timestamp |
| `TufAcceptance.TargetsAcceptedIff` | crates/sigstore-tuf/src/trusted.rs:260-266 | update_targets accepts exactly a signed and unexpired file as the unexpired snapshot pins it |
| `TufAcceptance.DelegatedAcceptedIff` | crates/sigstore-tuf/src/trusted.rs:274-298 | update_delegated_targets accepts exactly an unexpired file, as pinned, of a role that is not reserved, signed by enough keys of the delegator's first delegation of that name |
| `TufTrusted.TrustedMetadataSet.FromRoot` | crates/sigstore-tuf/src/trusted.rs:39-48 | a set starts exactly with a root that meets its own threshold, and holds nothing else |
| `TufTrusted.TrustedMetadataSet.UpdateRoot` | crates/sigstore-tuf/src/trusted.rs:79-103 | the new state is that of RootStep, or the state and the history are unchanged and the error is its error |
| `TufTrusted.TrustedMetadataSet.UpdateTimestamp` | crates/sigstore-tuf/src/trusted.rs:150-185 | the same for TimestampStep, equal versions included |
| `TufTrusted.TrustedMetadataSet.UpdateSnapshot` | crates/sigstore-tuf/src/trusted.rs:193-247 | the same for SnapshotStep; the targets are dropped |
| `TufTrusted.TrustedMetadataSet.UpdateTargets` | crates/sigstore-tuf/src/trusted.rs:260-266 | the same for TargetsStep |
| `TufTrusted.TrustedMetadataSet.UpdateDelegatedTargets` | crates/sigstore-tuf/src/trusted.rs:274-296 | the same for DelegatedStep |
| `TufTrusted.TrustedMetadataSet.VerifyTargetsPin` | crates/sigstore-tuf/src/trusted.rs:301-331 | which targets file the held snapshot lets through |
| `TufTrusted.TrustedMetadataSet.CheckPinsKept` | crates/sigstore-tuf/src/trusted.rs:222-240 | passes exactly when no pin of the held snapshot is missing or lower |
| `TufHistory.AcceptedChanges` | crates/sigstore-tuf/src/trusted.rs:79-296 | an accepted update replaces the root, the timestamp, the snapshot or one targets role, with the signatures and pins that this needs, and touches nothing else it should keep |
| `TufHistory.EveryStateCoherent` | crates/sigstore-tuf/src/trusted.rs:79-331 | in every reachable state: root, timestamp, snapshot and targets met their thresholds under the held root, targets imply a snapshot and that a timestamp, every targets file has exactly the pinned version, and no delegated entry has a reserved name |
| `TufHistory.RootChain` | crates/sigstore-tuf/src/trusted.rs:39-103 | the root version is the first one plus the number of accepted roots, and each met the threshold of its predecessor and its own |
| `TufHistory.NothingMovesBack` | crates/sigstore-tuf/src/trusted.rs:150-247 | between any two states the root version does not fall, and while it stays, timestamps only grow and no snapshot pin disappears or decreases |
| `TufHistory.TargetsNeverMoveBack` | crates/sigstore-tuf/src/trusted.rs:243-331 | a targets role held at two moments under one root never has a lower version at the later one, though the map is cleared in between |
| `TufHistory.AheadIffFloorLost` | crates/sigstore-tuf/src/trusted.rs:79-331 | any accepted update leaves the held snapshot ahead of what the timestamp pins exactly when it loses the floor |
| `TufHistory.FloorLostIff` | crates/sigstore-tuf/src/trusted.rs:168-180 | an accepted timestamp falls behind the held snapshot exactly when the timestamp it replaces pins none and it pins an older one |
| `TufHistory.SnapshotNeverMovesBack` | crates/sigstore-tuf/src/trusted.rs:168-216 | as long as no accepted update loses the floor, snapshot versions do not decrease under one root |
| `TufHistory.PinningTimestampsKeepFloor` | crates/sigstore-tuf/src/trusted.rs:168-180 | no update loses the floor if every accepted timestamp pins snapshot.json |
| `TufHistory.AheadSinceFloorLost` | crates/sigstore-tuf/src/trusted.rs:168-216 | a held snapshot is ahead only after an update that lost the floor, with the same snapshot and root held ever since |
| `TufHistory.SnapshotMovesBackIff` | crates/sigstore-tuf/src/trusted.rs:201-216 | an accepted snapshot is older than the held one exactly when the held one was ahead of the timestamp |
| `TufHistory.GoodTimestampAccepted` | crates/sigstore-tuf/src/trusted.rs:150-185 | a signed and unexpired timestamp is accepted exactly when it advances the held one, and fails with that check's error |
| `TufHistory.GoodSnapshotAccepted` | crates/sigstore-tuf/src/trusted.rs:193-247 | a signed and unexpired snapshot of the pinned version is accepted exactly when it has the pinned hashes and keeps the held pins |
| `TufHistory.DelegatedRolesVouchedFor` | crates/sigstore-tuf/src/trusted.rs:274-296 | every held delegated role met the threshold that some role, held earlier under the same root and snapshot, set for it |
| `TufSnapshotRollback.SnapshotCanMoveBack` | crates/sigstore-tuf/src/trusted.rs:168-180 | for every environment: signed and unexpired files, the second timestamp without a pin and the third with an older one, take a client back to an older snapshot under one root |
| `TufSnapshotRollback.GoodRunExists` | crates/sigstore-tuf/src/trusted.rs:168-180 | there are such files, from snapshot version 5 to version 1, as canonical JSON documents |
| `TufRefresh.RefreshedIsCurrent` | crates/sigstore-tuf/src/client.rs:92-250 | for every repository and store: after a successful refresh nothing held has expired, the snapshot version is the timestamp's pin and the targets version is the snapshot's, on the reuse and the fetch paths |
| `TufProgress.RefreshSucceeds` | crates/sigstore-tuf/src/client.rs:92-250 | if the repository serves new roots, each signed as it must be, and then a good timestamp, snapshot and targets, under names and limits that are spelled out, a fresh client ends with exactly these, in one request each, and stores each under its names |
| `TufProgress.NothingIsFetchedAgain` | crates/sigstore-tuf/src/client.rs:111-250 | with these files in the store and the same timestamp served, two requests lead to the same state and nothing is stored |
| `TufProgress.SecondRunIsShort` | crates/sigstore-tuf/src/client.rs:69-250 | so after a first run whose writes took effect, the next run needs two requests |
| `TufProgress.RootsAreAdopted` | crates/sigstore-tuf/src/client.rs:140-164 | the walk adopts every root that is served under its numbered name, as long as there are fewer than the limit, and stores each under root_history and as root.json |
| `TufRefresh.RefreshNeverMovesBack` | crates/sigstore-tuf/src/client.rs:92-250 | a refresh, successful or not, never lowers the root version, and with the same root version moves no timestamp or pin back |
| `TufRefresh.RootWalkCounts` | crates/sigstore-tuf/src/client.rs:140-164 | refresh_root succeeds only after adopting fewer than max_root_rotations roots, when the repository had no next one |
| `TufRefresh.StoredTimestampIsFloor` | crates/sigstore-tuf/src/client.rs:111-183 | a fresh client whose stored timestamp is signed under the refreshed root and unexpired never ends with a lower one |
| `TufRefresh.StoredTimestampTakenUpIff` | crates/sigstore-tuf/src/client.rs:111-130 | a stored timestamp that is signed under the root is taken up exactly while it is unexpired |
| `TufRefresh.ExpiredTimestampIsNoFloor` | crates/sigstore-tuf/src/client.rs:111-183 | with an expired stored timestamp, a client that holds nothing below the root ends with whatever good timestamp the repository serves, of any version |
| `TufRefresh.StoredSnapshotIsFloor` | crates/sigstore-tuf/src/client.rs:111-224 | if the stored snapshot is adopted, no pin of it is missing or lower in the end |
| `TufRefresh.SnapshotAcceptedAgain` | crates/sigstore-tuf/src/client.rs:111-130 | a snapshot that one run accepted is accepted again from the store by another one, under the same root and timestamp, until it expires |
| `TufRestart.RefreshKeepsFiles` | crates/sigstore-tuf/src/client.rs:92-250 | if the store held the files of the trusted timestamp and snapshot, it does so after a refresh whose writes take effect |
| `TufRestart.RefreshReachable` | crates/sigstore-tuf/src/client.rs:92-250 | whatever a refresh ends with, successful or not, is a state that accepted updates lead to |
| `TufRestart.StartBacked` | crates/sigstore-tuf/src/client.rs:69-82 | whoever starts from a self-signed root and the stored ones holds nothing that the store does not have |
| `TufRestart.RefreshKeepsBacked` | crates/sigstore-tuf/src/client.rs:92-250 | whatever the repository serves: after a refresh, successful or not, whose writes take effect, the stored roots lead to the held root, and the store has the files of the held timestamp and snapshot |
| `TufRestart.BackedRootIsFloor` | crates/sigstore-tuf/src/client.rs:69-82 | a held root that the store backs is a floor for every client that starts from the same root, and is its root unless the store has a newer one |
| `TufRestart.BackedIsFloor` | crates/sigstore-tuf/src/client.rs:69-224 | a refresh with a store that backs an earlier state ends with no lower root; and unless it found a newer root, with no lower timestamp while the last one is unexpired, and no lower or missing pin if the stored snapshot can be adopted again |
| `TufRestart.RootFloor` | crates/sigstore-tuf/src/client.rs:69-158 | after a refresh, successful or not, whose writes take effect, the next client that starts from the same root gets by the store to the last root of the one before, or beyond |
| `TufRestart.ReadoptedIff` | crates/sigstore-tuf/src/client.rs:111-130 | for every backed state that holds a snapshot: the next client adopts the stored snapshot if and only if it and the last timestamp are unexpired and this timestamp pins its version, length and hashes; what it adopts is the snapshot that was held |
| `TufRestart.NoRollbackAcrossRuns` | crates/sigstore-tuf/src/client.rs:69-224 | two refreshes with one store, whose writes take effect; whatever the repository serves and at whatever stage the first one fails: no lower root, and unless a newer root was found, no lower timestamp while the last one is unexpired, and no lower or missing pin if the stored snapshot can be adopted again |
| `TufRestart.FetchedIsPinned` | crates/sigstore-tuf/src/client.rs:210-224 | a snapshot that was fetched under a timestamp is pinned by it, and is in the store |
| `TufRestart.ReuseLeavesUnpinned` | crates/sigstore-tuf/src/client.rs:166-224 | with a newer timestamp of the same snapshot version and other hashes, the stages end with that timestamp and the old snapshot, in the client and in the store, where the one does not pin the other |
| `TufPinLoss.PinsRegressAcrossRuns` | crates/sigstore-tuf/src/client.rs:111-224 | with such files and one store, two runs end with two snapshots of one version under one root, and the second one lacks or lowers a pin of the first |
| `TufPinLoss.RejectedThenTaken` | crates/sigstore-tuf/src/client.rs:166-224 | a first run fails because a newer snapshot drops or lowers a pin of the one it holds, and the second run with the same store, under the same root, ends with the snapshot that was rejected |
| `TufPinLoss.RejectionKeepsTimestamp` | crates/sigstore-tuf/src/client.rs:166-224 | the stages reject such a snapshot, and end with the timestamp that pins it, which is the only file they store |
| `TufPinLoss.NoFloorIfUnadopted` | crates/sigstore-tuf/src/client.rs:111-224 | if the stored snapshot cannot be adopted again, the next client under the same root ends with any snapshot that is served with a good timestamp that pins it, whatever pins it drops or lowers |
| `TufPinLoss.RejectedThenTakenExists` | crates/sigstore-tuf/src/client.rs:111-224 | there are such files and one repository for both runs: a snapshot that pins targets.json, and a newer one that does not |
| `TufPinLoss.LossExists` | crates/sigstore-tuf/src/client.rs:111-224 | there are such files for the form with equal versions: canonical JSON documents, a snapshot that pins targets.json and one that does not |
| `TufRefresh.AdoptStoredStops` | crates/sigstore-tuf/src/client.rs:69-82 | stored roots are adopted version by version, until the next one is missing or not accepted |
| `TufRefresh.AdoptStoredFailsOnlyAtLimit` | crates/sigstore-tuf/src/client.rs:69-82 | no content of a stored file makes with_store fail |
| `TufRefresh.AdoptedAtMostStored` | crates/sigstore-tuf/src/client.rs:69-82 | with_store adopts at most as many roots as the store has files |
| `TufDelegation.VisitAppend` | crates/sigstore-tuf/src/client.rs:297-367 | searching two lists of delegations in turn is searching their concatenation |
| `TufDelegation.WorkListTurn` | crates/sigstore-tuf/src/client.rs:302-367 | one turn of the work list, with children put first and the rest dropped at a terminating match, leads to the answer and the state of the recursive search with cut |
| `TufDelegation.SearchSound` | crates/sigstore-tuf/src/client.rs:286-370 | for every repository: at most max_delegations roles are visited; roles are only added, each at the end of a chain of delegations that match the path and whose files meet the thresholds they set, from a role trusted before; an answer comes from a role that matching delegations reach |
| `TufDelegation.FirstSearchSigned` | crates/sigstore-tuf/src/client.rs:286-370 | in the first search after the targets map was cleared, an answer comes from a role to which a chain of signed and matching delegations leads from targets |
| `TufSearchComplete.SearchAnswersFirst` | crates/sigstore-tuf/src/client.rs:286-370 | unless it runs out of steps: the answer is that of the first role in pre-order that gives one (a target, an error, or the end at a terminating delegation); where no role gives one, no role that matching delegations lead to lists the path, and each of them is held in the end or is not pinned |
| `TufSearchOrder.FirstAnswerUnique` | crates/sigstore-tuf/src/client.rs:286-370 | the roles held in the end determine that answer, up to which error it is |
| `TufSearchComplete.StepsSpentOnRoles` | crates/sigstore-tuf/src/client.rs:302-312 | the steps taken are at most as many as the roles held in the end, unless a matching delegation led to a role that is not pinned |
| `TufSearchComplete.TopLevelTargetFound` | crates/sigstore-tuf/src/client.rs:337-341 | a target that the top-level role lists is found, with nothing loaded |
| `TufDelegation.SearchStores` | crates/sigstore-tuf/src/client.rs:316-335 | for every repository: the files that a search stores are exactly the accepted files of the roles that it adds, each under its encoded name |
| `TufDelegation.FirstOfNameDecides` | crates/sigstore-tuf/src/trusted.rs:335-362 | the keys and the threshold for a name are those of the first delegation of that name |
| `TufDelegation.AuthorityMatchesIff` | crates/sigstore-tuf/src/trusted.rs:335-362 | where the path is delegated to a name, the keys and the threshold that count are those of a matching delegation exactly when a matching one grants what the first grants |
| `TufDelegation.AuthorityMatchesIffFirstDoes` | crates/sigstore-tuf/src/trusted.rs:335-362 | if no other delegation of the name grants the same, exactly when the first one matches the path |
| `TufDelegation.DistinctNamesHandOff` | crates/sigstore-tuf/src/trusted.rs:335-362 | if a role names each delegation once, one and the same delegation matches the path and sets the threshold that the file meets |
| `TufDelegation.SecondUnderKeysOfFirst` | crates/sigstore-tuf/src/client.rs:344-366 | of two delegations of one name, the second is followed for a path that only it matches, under the keys and the threshold of the first |
| `TufStore.MetadataStore.Load` | crates/sigstore-tuf/src/cache.rs:23-25 | the blob under a name, if there is one |
| `TufStore.MetadataStore.Store` | crates/sigstore-tuf/src/cache.rs:27-28 | a write takes effect as a whole or not at all |
| `TufStore.EachFileUnchangedOrWritten` | crates/sigstore-tuf/src/client.rs:132-138 | whichever of a sequence of writes take effect, each file is as it was or holds the bytes of a write to it |
| `TufStore.WroteAll` | crates/sigstore-tuf/src/client.rs:132-138 | if every write took effect, the store has the content that all of them in order lead to |
| `TufClient.Updater.WithStore` | crates/sigstore-tuf/src/client.rs:69-82 | the loop computes AdoptStored, ends for every store, and leaves the store alone |
| `TufClient.Updater.CachePut` | crates/sigstore-tuf/src/client.rs:132-138 | one write is offered to the store, if there is one, and its failure changes nothing else |
| `TufClient.Updater.TryRoot` | crates/sigstore-tuf/src/client.rs:142-158 | one round of the loop: the reply for the next version ends it, or is adopted and stored under root_history and as root.json |
| `TufClient.Updater.RefreshRoot` | crates/sigstore-tuf/src/client.rs:140-164 | result, state, number of requests and the files offered to the store are those of the walk from root to root |
| `TufClient.Updater.SeedLowerFromStore` | crates/sigstore-tuf/src/client.rs:111-130 | each stored file that passes is adopted, in order, and one that does not is skipped |
| `TufClient.Updater.RefreshTimestamp` | crates/sigstore-tuf/src/client.rs:166-183 | the specified stage; an equal version is kept, is not an error and is not stored; an accepted timestamp is offered to the store |
| `TufClient.Updater.RefreshSnapshot` | crates/sigstore-tuf/src/client.rs:185-224 | the specified stage, with its expiry check, reuse and fetch; a fetched snapshot is offered to the store under both names |
| `TufClient.Updater.FetchSnapshot` | crates/sigstore-tuf/src/client.rs:210-224 | the request by its plain or versioned name, the update, and the two writes of what passes |
| `TufClient.Updater.RefreshTargets` | crates/sigstore-tuf/src/client.rs:226-250 | the specified stage, with its expiry check, reuse and fetch; fetched targets are offered to the store |
| `TufClient.Updater.FetchTargets` | crates/sigstore-tuf/src/client.rs:246-250 | the request, the update under the pin and the root, and the write of what passes |
| `TufClient.Updater.FetchTargetsMetadata` | crates/sigstore-tuf/src/client.rs:258-277 | the file that is requested for a role, version and encoded name spelled out, and what comes back |
| `TufClient.Updater.Refresh` | crates/sigstore-tuf/src/client.rs:92-100 | the whole workflow is the specified one, with the files it offers to the store in order; if all of these writes take effect, the store holds what they lead to; the history only grows, and success means a current state |
| `TufClient.Updater.SearchByWorkList` | crates/sigstore-tuf/src/client.rs:297-370 | the loop over a work list terminates with the answer and the state of the recursive search, and offers the store the files of that search, in order; the stored top-level files and root history stay |
| `TufClient.Updater.GetTargetInfo` | crates/sigstore-tuf/src/client.rs:286-370 | an error before a refresh, else the recursive search, with the files that it offers to the store; what the top-level role lists is found; in the first search an answer rests on a chain of signed and matching delegations from targets |
| `TufClient.Updater.LoadRole` | crates/sigstore-tuf/src/client.rs:316-335 | a trusted role is not fetched again, an unpinned one is skipped, any other is fetched and verified under its delegator, and then the accepted file is offered to the store under the encoded name, and nothing else is |
| `TufClient.Updater.MatchingChildren` | crates/sigstore-tuf/src/client.rs:344-366 | the matching delegations in order, up to the first terminating one |
| `TufClient.DelegatedFileIsNotCore` | crates/sigstore-tuf/src/client.rs:334 | the stored file of a delegated role never has the name of a top-level role's file or a place in the root history |
| `RoleNames.EncodeRole` | crates/sigstore-tuf/src/client.rs:476-487 | the loop computes the percent-encoding of the UTF-8 bytes |
| `RoleNames.EncodedRoleInjective` | crates/sigstore-tuf/src/client.rs:476-487 | different role names have different file names |
| `RoleNames.PlainNameIsOwn` | crates/sigstore-tuf/src/client.rs:476-487 | a plain file name belongs to the role of that very name only |
| `RoleNames.EncodedRoleIsRead` | crates/sigstore-tuf/src/client.rs:476-487 | a reader of percent-encoding gets the UTF-8 bytes back from the file name, and a reader of UTF-8 the role |
| `Base64.DecodeEncode` | crates/sigstore-types/src/encoding.rs:147-149 | decoding undoes encoding |
| `Base64.EncodeDecode` | crates/sigstore-types/src/encoding.rs:721-726 | an accepted text is the encoding of what it decodes to |
| `Base64.GroupValue` | crates/sigstore-types/src/encoding.rs:147-149 | the four letters of a group are the base-64 digits of its 24 bits |
| `Base64.Alphabet` | crates/sigstore-types/src/encoding.rs:147-149 | the letters are those of RFC 4648 |
| `Base64.TestVectors` | crates/sigstore-types/src/encoding.rs:147-149 | the test vectors of RFC 4648 |
| `Checkpoint.FromText` | crates/sigstore-types/src/checkpoint.rs:82-201 | the line by line parser computes the specified result, with its errors in order |
| `Checkpoint.ToSignedNoteBody` | crates/sigstore-types/src/checkpoint.rs:206-220 | the printed text is the header lines, each ended by a newline |
| `Checkpoint.ParserUndoesPrinter` | crates/sigstore-types/src/checkpoint.rs:82-220 | for every well-formed checkpoint, parsing the printed body, a blank line and the signature lines gives back every field, with the printed body as the signed text |
| `Checkpoint.PrintedText` | crates/sigstore-types/src/checkpoint.rs:206-220 | the printed form with one signature, character by character |
| `Checkpoint.RestIsIgnored` | crates/sigstore-types/src/checkpoint.rs:87-95 | what follows a second blank line changes nothing |
| `TextLines.TrimRemovesPadding` | crates/sigstore-types/src/checkpoint.rs:101-135 | white space around a line is removed, and nothing else |
| `TextLines.ParseSpelledOut` | crates/sigstore-types/src/checkpoint.rs:117-123 | a tree size may have a plus sign and leading zeros |
| `Checkpoint.SignatureLayout` | crates/sigstore-types/src/checkpoint.rs:142-178 | any white space separates the dash, the name and the signature, and more words after them do not count |
| `Checkpoint.ContentIs` | crates/sigstore-types/src/checkpoint.rs:136-140 | the other content is that of the lines with something on them, trimmed and in order |
| `Checkpoint.AcceptedWellFormed` | crates/sigstore-types/src/checkpoint.rs:82-201 | every accepted checkpoint is well-formed, and its signed text is an exact prefix of the text |
| `Checkpoint.ReprintingChangesNothing` | crates/sigstore-types/src/checkpoint.rs:82-220 | printing any accepted checkpoint and parsing it again changes no field |
| `Checkpoint.SignedTextDeterminesHeader` | crates/sigstore-types/src/checkpoint.rs:97-140 | what the signatures cover determines origin, size, root hash and other content |
| `Tlog.VerifyMerkleInclusion` | crates/sigstore-verify/src/verify_impl/tlog.rs:121-141 | success exactly when index and size are not negative and the proof is accepted for the leaf hash of the body; which error otherwise |
| `Tlog.InclusionOkIff` | crates/sigstore-verify/src/verify_impl/tlog.rs:121-141 | the accepted proofs, with the leaf hash in bytes |
| `Tlog.VerifyCheckpoint` | crates/sigstore-verify/src/verify_impl/tlog.rs:144-192 | success exactly when the text parses, states the proof's root, and the earliest pair of a signature and a trusted key with the same hint verifies over the signed text; which error otherwise |
| `Tlog.VerifyEntryInclusion` | crates/sigstore-verify/src/verify_impl/tlog.rs:94-112 | success exactly when every part that is present verifies: proof, checkpoint and promise |
| `Tlog.AcceptedBodyIsListed` | crates/sigstore-verify/src/verify_impl/tlog.rs:121-141 | if the accepted proof's root is MTH(D) for a list D of any size, the body is on D or a collision is extracted |
| `Tlog.AcceptedEntryIsCommitted` | crates/sigstore-verify/src/verify_impl/tlog.rs:94-192 | an accepted entry's root is stated in a prefix of the checkpoint that a trusted key signed, and whatever list has this root contains the body, or a collision is extracted |
| `Tlog.SignedBytesDetermineHead` | crates/sigstore-verify/src/verify_impl/tlog.rs:177-182 | checkpoints with the same signed bytes state the same origin, size and root |
| `Tlog.AcceptedEntryStandsFor` | crates/sigstore-verify/src/verify_impl/tlog.rs:94-141 | an accepted entry whose root is MTH(D) stands for some leaf of D with that leaf's audit path, under a claim of the same shape, or a collision is extracted |
| `Tlog.StandsForLeafAccepted` | crates/sigstore-verify/src/verify_impl/tlog.rs:94-192 | and with a good checkpoint for that root, every such claim is accepted |
| `Tlog.IndexBoundIfSizesAgree` | crates/sigstore-verify/src/verify_impl/tlog.rs:121-165 | if the proof claims the size that the checkpoint states, and the checkpoint commits to D, then the body is the entry of D at the claimed index, or a collision is extracted |
| `Tlog.IndexRightIff` | crates/sigstore-verify/src/verify_impl/tlog.rs:121-165 | without that check, the claimed index is right exactly when the claim has the shape of that index in a tree of the checkpoint's size |
| `Tlog.SizeIsNotBound` | crates/sigstore-verify/src/verify_impl/tlog.rs:153-165 | with a checkpoint of three entries, an entry is accepted under a claimed size of four |
| `Tlog.IndexIsNotBound` | crates/sigstore-verify/src/verify_impl/tlog.rs:153-165 | with a checkpoint of three entries, the third is accepted as the second of two |

## Left out

- The HTTP clients, OAuth, file and TTL caches, and the atomic renames behind the store: input and output. A repository is any function of the number of the request, the file name and the length limit; a store is a map whose writes may fail.
- SHA-256, signature schemes, X.509, CMS and SCT parsing: uninterpreted, as described above.
- serde's field mapping and the parsing of JSON text: parameters of `TufMetadata.Env`. JSON strings are modelled as their UTF-8 bytes.
- Glob matching: a parameter that may fail, as globset does for an invalid pattern.
- `verify_tlog_entries`: its loop over entries adds single comparisons of the integrated time with the clock and the certificate's validity.
- `verify_set`: the signed entry timestamp is one uninterpreted check in `Tlog.Trust`, and so is the selection of the log keys that are valid now.
- The certificate, policy and bundle checks of `verify.rs`, `helpers.rs`, `hashedrekord.rs` and `rekor.rs`: long sequences of single-branch checks.
- `find_target`, `find_cached_target`, `download_target` and target hash checks: one-step lookups and comparisons.
- The accessors and the default configuration of the TUF crate.
- Error texts. Each error is a constructor, with the numbers that the code reports where the model needs them.
- An old size of 0 in consistency checking: the code accepts any pair of roots there by design, as `VerifyConsistencyProof` states, and the soundness theorem is about 0 < old.
- Distinctness of key material in thresholds: the code takes declared key IDs at their word, and the theorems are about distinct key IDs.
- `u64` arithmetic on versions: a version above 2^64 - 1, where a debug build panics, is the failure `Overflow`; the wrap-around of a release build is not modelled.
- TufTrusted.TrustedMetadataSet.UpdateSnapshot: reports one error, `PinRegression`, for a removed and for a lowered pin; the code's two errors depend on which pin comes first.
- TufTrusted.TrustedMetadataSet.CheckPinsKept: reports one error for a removed and for a lowered pin, as above.
- TufMetadata.VerifyThreshold: reports a repeated signature without its key ID, which in the code is that of the first repetition.
- TextLines: `str::lines` also removes a carriage return before a newline; the parser trims every line, so the model leaves that to trimming.
- TufDelegation.SearchSound: the chain of signed delegations starts at some role trusted before the search, because a role that is already trusted is not verified again; for the first search that is targets.
