/** The TUF metadata model: metadata/mod.rs, metadata/role.rs, metadata/snapshot.rs and metadata/targets.rs. */
module TufMetadata {
  import opened Prelude
  import opened CanonicalJson

  type Version = U64

  datatype Signature = Signature(keyid: string, sig: string)

  datatype Key = Key(keytype: string, scheme: string, public: string)

  datatype RoleKeys = RoleKeys(keyids: seq<string>, threshold: nat)

  datatype Root = Root(
    version: Version, expires: string, consistentSnapshot: bool,
    keys: map<string, Key>, roles: map<string, RoleKeys>)

  datatype MetaFile = MetaFile(version: Version, length: Option<U64>, hashes: Option<map<string, string>>)

  datatype Timestamp = Timestamp(version: Version, expires: string, meta: map<string, MetaFile>) {
    function SnapshotMeta(): Option<MetaFile> {
      if "snapshot.json" in meta then Some(meta["snapshot.json"]) else None
    }
  }

  datatype Snapshot = Snapshot(version: Version, expires: string, meta: map<string, MetaFile>)

  datatype TargetFile = TargetFile(length: U64, hashes: map<string, string>)

  datatype DelegatedRole = DelegatedRole(
    name: string, keyids: seq<string>, threshold: nat, terminating: bool,
    paths: Option<seq<string>>, pathHashPrefixes: Option<seq<string>>)

  datatype Delegations = Delegations(keys: map<string, Key>, roles: seq<DelegatedRole>)

  datatype Targets = Targets(
    version: Version, expires: string,
    targets: map<string, TargetFile>, delegations: Option<Delegations>)

  /** A parsed file: its typed payload, and the canonical bytes that its signatures cover. */
  datatype Metadata<T> = Metadata(signatures: seq<Signature>, signed: T, canonicalSigned: Bytes)

  datatype TufError =
    | JsonSyntax
    | Malformed
    | NonIntegerNumber
    | UnknownRole(role: string)
    | DuplicateSignature(role: string)
    | ThresholdNotMet(role: string, found: nat, threshold: nat)
    | Rollback(role: string, trusted: Version, offered: Version)
    | EqualVersion(role: string, version: Version)
    | PinRegression  // a removed pin (IntegrityMismatch) or a lowered one (Rollback), whichever comes first
    | BadRootVersion(trusted: Version, offered: Version)
    | Expired(role: string)
    | IntegrityMismatch
    | InvalidTimestamp
    | Transport
    | Overflow  // a version above 2^64 - 1, where the code panics

  /**
   * The libraries this model does not look into: JSON and typed deserialization, signature
   * verification, hashing, time parsing and glob matching. Every statement holds for all of them.
   */
  datatype Env = Env(
    parseJson: Bytes -> Option<Json>,
    asSignatures: Json -> Option<seq<Signature>>,
    asRoot: Json -> Option<Root>,
    asTimestamp: Json -> Option<Timestamp>,
    asSnapshot: Json -> Option<Snapshot>,
    asTargets: Json -> Option<Targets>,
    verifies: (Key, Bytes, string) -> bool,
    parseTime: string -> Option<int>,
    sha256Hex: Bytes -> string,
    sha512Hex: Bytes -> string,
    pathHashHex: string -> string,
    glob: (string, string) -> Option<bool>)

  // ----- Parsing

  /** The bytes of the names this model spells out, all of them ASCII. */
  function Ascii(s: string): Bytes {
    seq(|s|, i requires 0 <= i < |s| => (s[i] as int % 256) as Byte)
  }

  function Field(v: Json, name: string): Option<Json> {
    if v.Object? && Ascii(name) in v.members then Some(v.members[Ascii(name)]) else None
  }

  /** The part of a version string before its first dot is "1". */
  predicate MajorVersionOne(sv: Bytes) {
    sv == Ascii("1") || (|sv| >= 2 && sv[..2] == Ascii("1."))
  }

  /** The role discriminator, where there is one, and the specification version are acceptable. */
  predicate AcceptableHeader(signed: Json, kind: string) {
    var t, sv := Field(signed, "_type"), Field(signed, "spec_version");
    && (t.Some? && t.value.String? ==> t.value.s == Ascii(kind))
    && (sv.Some? && sv.value.String? ==> MajorVersionOne(sv.value.s))
  }

  /** Metadata::from_slice. */
  ghost function Parsed<T>(env: Env, kind: string, decode: Json -> Option<T>, bytes: Bytes):
      Result<Metadata<T>, TufError> {
    match env.parseJson(bytes)
    case None => Failure(JsonSyntax)
    case Some(value) =>
      var signed, signatures := Field(value, "signed"), Field(value, "signatures");
      if signed.None? || signatures.None? || !AcceptableHeader(signed.value, kind) then Failure(Malformed)
      else if !Encodable(signed.value) then Failure(TufError.NonIntegerNumber)
      else
        match (env.asSignatures(signatures.value), decode(signed.value))
        case (Some(sigs), Some(payload)) => Success(Metadata(sigs, payload, Canonical(signed.value)))
        case _ => Failure(JsonSyntax)
  }

  method FromSlice<T>(env: Env, kind: string, decode: Json -> Option<T>, bytes: Bytes)
    returns (r: Result<Metadata<T>, TufError>)
    ensures r == Parsed(env, kind, decode, bytes)
  {
    var value := env.parseJson(bytes);
    if value.None? {
      return Failure(JsonSyntax);
    }
    var signed, signatures := Field(value.value, "signed"), Field(value.value, "signatures");
    if signed.None? || signatures.None? {
      return Failure(Malformed);
    }
    if !AcceptableHeader(signed.value, kind) {
      return Failure(Malformed);
    }
    var canonical := ToCanonicalBytes(signed.value);
    if canonical.Failure? {
      return Failure(TufError.NonIntegerNumber);
    }
    var sigs, payload := env.asSignatures(signatures.value), decode(signed.value);
    if sigs.None? || payload.None? {
      return Failure(JsonSyntax);
    }
    return Success(Metadata(sigs.value, payload.value, canonical.value));
  }

  /** What a signature covers determines the payload: equal canonical bytes, equal payloads. */
  lemma {:induction false} SignedBytesDeterminePayload<T>(env: Env, kind: string, decode: Json -> Option<T>,
        a: Bytes, b: Bytes)
    requires Parsed(env, kind, decode, a).Success? && Parsed(env, kind, decode, b).Success?
    requires Parsed(env, kind, decode, a).value.canonicalSigned == Parsed(env, kind, decode, b).value.canonicalSigned
    ensures Parsed(env, kind, decode, a).value.signed == Parsed(env, kind, decode, b).value.signed
  {
    var x := Field(env.parseJson(a).value, "signed").value;
    var y := Field(env.parseJson(b).value, "signed").value;
    CanonicalInjective(x, y);
  }

  // ----- Signature thresholds

  /** One of the first `n` names. */
  predicate Listed(names: seq<string>, n: nat, name: string)
    requires n <= |names|
  {
    n > 0 && (names[n - 1] == name || Listed(names, n - 1, name))
  }

  lemma {:induction false} ListedMeaning(names: seq<string>, n: nat, name: string)
    requires n <= |names|
    ensures Listed(names, n, name) <==> exists i :: 0 <= i < n && names[i] == name
  {
    if n > 0 { ListedMeaning(names, n - 1, name); }
  }

  /** By an authorized key, and not an empty placeholder. */
  predicate Counts(s: Signature, keyids: seq<string>) {
    Listed(keyids, |keyids|, s.keyid) && s.sig != ""
  }

  predicate Valid(env: Env, keys: map<string, Key>, message: Bytes, s: Signature) {
    s.keyid in keys && env.verifies(keys[s.keyid], message, s.sig)
  }

  /** One of the first `n` signatures counts for this key. */
  predicate Signed(sigs: seq<Signature>, n: nat, keyids: seq<string>, keyid: string)
    requires n <= |sigs|
  {
    n > 0 && ((Counts(sigs[n - 1], keyids) && sigs[n - 1].keyid == keyid) || Signed(sigs, n - 1, keyids, keyid))
  }

  /** Among the first `n` signatures, one counts for the key of an earlier one. */
  predicate Repeated(sigs: seq<Signature>, n: nat, keyids: seq<string>)
    requires n <= |sigs|
  {
    n > 0 && (|| (Counts(sigs[n - 1], keyids) && Signed(sigs, n - 1, keyids, sigs[n - 1].keyid))
              || Repeated(sigs, n - 1, keyids))
  }

  /** How many of the first `n` signatures count and are valid. */
  function ValidCount(env: Env, keys: map<string, Key>, message: Bytes, sigs: seq<Signature>, n: nat,
        keyids: seq<string>): nat
    requires n <= |sigs|
  {
    if n == 0 then 0
    else
      ValidCount(env, keys, message, sigs, n - 1, keyids) +
      if Counts(sigs[n - 1], keyids) && Valid(env, keys, message, sigs[n - 1]) then 1 else 0
  }

  /** Metadata::verify_threshold. */
  function ThresholdResult(env: Env, sigs: seq<Signature>, message: Bytes,
                           keys: map<string, Key>, role: RoleKeys, name: string): Result<Unit, TufError> {
    var good := ValidCount(env, keys, message, sigs, |sigs|, role.keyids);
    if role.threshold == 0 then Failure(Malformed)
    else if Repeated(sigs, |sigs|, role.keyids) then Failure(DuplicateSignature(name))
    else if good < role.threshold then Failure(ThresholdNotMet(name, good, role.threshold))
    else Success(Unit.Unit)
  }

  lemma {:induction false} AddOne(a: set<string>, x: string)
    ensures |a + {x}| == |a| + if x in a then 0 else 1
    ensures x in a ==> a + {x} == a
  {
    if x in a { assert a + {x} == a; }
  }

  lemma {:induction false} RepetitionStays(sigs: seq<Signature>, n: nat, keyids: seq<string>)
    requires n <= |sigs| && Repeated(sigs, n, keyids)
    ensures Repeated(sigs, |sigs|, keyids)
    decreases |sigs| - n
  {
    if n < |sigs| { RepetitionStays(sigs, n + 1, keyids); }
  }

  method VerifyThreshold(env: Env, sigs: seq<Signature>, message: Bytes,
                         keys: map<string, Key>, role: RoleKeys, name: string)
    returns (r: Result<Unit, TufError>)
    ensures r == ThresholdResult(env, sigs, message, keys, role, name)
  {
    if role.threshold == 0 {
      return Failure(Malformed);
    }
    var good: set<string>, seen: set<string> := {}, {};
    for i := 0 to |sigs|
      invariant good <= seen && !Repeated(sigs, i, role.keyids)
      invariant forall k: string :: k in seen <==> Signed(sigs, i, role.keyids, k)
      invariant |good| == ValidCount(env, keys, message, sigs, i, role.keyids)
    {
      var sig := sigs[i];
      if !Listed(role.keyids, |role.keyids|, sig.keyid) {
        continue;
      }
      if sig.sig == "" {
        continue;
      }
      if sig.keyid in seen {
        RepetitionStays(sigs, i + 1, role.keyids);
        return Failure(DuplicateSignature(name));
      }
      seen := seen + {sig.keyid};
      if Valid(env, keys, message, sig) {
        good := good + {sig.keyid};
      }
    }
    if |good| >= role.threshold {
      return Success(Unit.Unit);
    }
    return Failure(ThresholdNotMet(name, |good|, role.threshold));
  }

  /** Some authorized key has two non-empty signatures. */
  predicate SignedTwice(sigs: seq<Signature>, n: nat, keyids: seq<string>)
    requires n <= |sigs|
  {
    exists i, j :: 0 <= i < j < n && Counts(sigs[i], keyids) && Counts(sigs[j], keyids)
      && sigs[i].keyid == sigs[j].keyid
  }

  lemma {:induction false} SignedMeaning(sigs: seq<Signature>, n: nat, keyids: seq<string>, keyid: string)
    requires n <= |sigs|
    ensures Signed(sigs, n, keyids, keyid) <==>
              exists i :: 0 <= i < n && Counts(sigs[i], keyids) && sigs[i].keyid == keyid
  {
    if n > 0 { SignedMeaning(sigs, n - 1, keyids, keyid); }
  }

  lemma {:induction false} RepeatedMeaning(sigs: seq<Signature>, n: nat, keyids: seq<string>)
    requires n <= |sigs|
    ensures Repeated(sigs, n, keyids) <==> SignedTwice(sigs, n, keyids)
  {
    if n > 0 {
      RepeatedMeaning(sigs, n - 1, keyids);
      SignedMeaning(sigs, n - 1, keyids, sigs[n - 1].keyid);
    }
  }

  /** The distinct authorized keys with a valid non-empty signature, among the first `n`. */
  function ValidSigners(env: Env, keys: map<string, Key>, message: Bytes, sigs: seq<Signature>, n: nat,
        keyids: seq<string>): set<string>
    requires n <= |sigs|
  {
    set i | 0 <= i < n && sigs[i].keyid in keyids && sigs[i].sig != ""
      && Valid(env, keys, message, sigs[i]) :: sigs[i].keyid
  }

  lemma {:induction false} ValidSignersStep(env: Env, keys: map<string, Key>, message: Bytes, sigs: seq<Signature>,
        n: nat, keyids: seq<string>)
    requires 0 < n <= |sigs|
    ensures ValidSigners(env, keys, message, sigs, n, keyids) ==
            ValidSigners(env, keys, message, sigs, n - 1, keyids) +
            if Counts(sigs[n - 1], keyids) && Valid(env, keys, message, sigs[n - 1]) then {sigs[n - 1].keyid} else {}
  {
    ListedMeaning(keyids, |keyids|, sigs[n - 1].keyid);
  }

  lemma {:induction false} ValidSignersSigned(env: Env, keys: map<string, Key>, message: Bytes,
        sigs: seq<Signature>, n: nat, keyids: seq<string>, keyid: string)
    requires n <= |sigs| && keyid in ValidSigners(env, keys, message, sigs, n, keyids)
    ensures Signed(sigs, n, keyids, keyid)
  {
    SignedMeaning(sigs, n, keyids, keyid);
    ListedMeaning(keyids, |keyids|, keyid);
  }

  /** Unless a key signed twice, the valid signatures are as many as the keys behind them. */
  lemma {:induction false} ValidCountMeaning(env: Env, keys: map<string, Key>, message: Bytes, sigs: seq<Signature>,
        n: nat, keyids: seq<string>)
    requires n <= |sigs| && !Repeated(sigs, n, keyids)
    ensures ValidCount(env, keys, message, sigs, n, keyids) == |ValidSigners(env, keys, message, sigs, n, keyids)|
  {
    if n > 0 {
      var before := ValidSigners(env, keys, message, sigs, n - 1, keyids);
      ValidCountMeaning(env, keys, message, sigs, n - 1, keyids);
      ValidSignersStep(env, keys, message, sigs, n, keyids);
      AddOne(before, sigs[n - 1].keyid);
      if sigs[n - 1].keyid in before {
        ValidSignersSigned(env, keys, message, sigs, n - 1, keyids, sigs[n - 1].keyid);
      }
    }
  }

  /** A threshold is met exactly when it is positive, no key signed twice, and enough distinct keys signed. */
  lemma {:induction false} ThresholdMeaning(env: Env, sigs: seq<Signature>, message: Bytes,
                                            keys: map<string, Key>, role: RoleKeys, name: string)
    ensures ThresholdResult(env, sigs, message, keys, role, name).Success? <==>
            role.threshold >= 1 && !SignedTwice(sigs, |sigs|, role.keyids) &&
            |ValidSigners(env, keys, message, sigs, |sigs|, role.keyids)| >= role.threshold
  {
    RepeatedMeaning(sigs, |sigs|, role.keyids);
    if !Repeated(sigs, |sigs|, role.keyids) {
      ValidCountMeaning(env, keys, message, sigs, |sigs|, role.keyids);
    }
  }

  // ----- The same without the vocabulary of the check

  /** A valid signature by this key, which the role lists and the key table has. */
  predicate SignsFor(env: Env, sigs: seq<Signature>, message: Bytes, keys: map<string, Key>, role: RoleKeys, k: string)
  {
    && k in role.keyids && k in keys
    && exists i :: 0 <= i < |sigs| && sigs[i].keyid == k && sigs[i].sig != "" &&
         env.verifies(keys[k], message, sigs[i].sig)
  }

  /** At least `threshold` different keys have signed, and none that the role lists has two signatures. */
  ghost predicate SignedUnder(env: Env, sigs: seq<Signature>, message: Bytes, keys: map<string, Key>, role: RoleKeys) {
    && role.threshold >= 1
    && (forall i, j :: 0 <= i < j < |sigs| && sigs[i].keyid in role.keyids && sigs[i].sig != "" && sigs[j].sig != "" ==>
          sigs[i].keyid != sigs[j].keyid)
    && exists signers: set<string> ::
         |signers| >= role.threshold && forall k :: k in signers ==> SignsFor(env, sigs, message, keys, role, k)
  }

  lemma {:induction false} SignedUnderIff(env: Env, sigs: seq<Signature>, message: Bytes,
                                          keys: map<string, Key>, role: RoleKeys, name: string)
    ensures ThresholdResult(env, sigs, message, keys, role, name).Success? <==>
            SignedUnder(env, sigs, message, keys, role)
  {
    hide ThresholdResult;
    ThresholdMeaning(env, sigs, message, keys, role, name);
    forall k ensures Listed(role.keyids, |role.keyids|, k) <==> k in role.keyids {
      ListedMeaning(role.keyids, |role.keyids|, k);
    }
    var all := ValidSigners(env, keys, message, sigs, |sigs|, role.keyids);
    forall k ensures k in all <==> SignsFor(env, sigs, message, keys, role, k) {
    }
    if signers: set<string> :|
         |signers| >= role.threshold && forall k :: k in signers ==> SignsFor(env, sigs, message, keys, role, k) {
      SubsetSize(signers, all);
    }
  }

  lemma {:induction false} SubsetSize(a: set<string>, b: set<string>)
    requires a <= b
    ensures |a| <= |b|
  {
    assert b == a + (b - a);
  }

  // ----- Only the signatures that count matter

  /** How often a signature occurs among the first `n`. */
  function Occurrences(sigs: seq<Signature>, n: nat, s: Signature): nat
    requires n <= |sigs|
  {
    if n == 0 then 0 else Occurrences(sigs, n - 1, s) + if sigs[n - 1] == s then 1 else 0
  }

  /** The same authorized non-empty signatures, each as often, in any order, among any others. */
  ghost predicate SameCounting(a: seq<Signature>, b: seq<Signature>, keyids: seq<string>) {
    forall s: Signature :: Counts(s, keyids) ==> Occurrences(a, |a|, s) == Occurrences(b, |b|, s)
  }

  lemma {:induction false} OccursOnce(sigs: seq<Signature>, n: nat, s: Signature)
    requires n <= |sigs|
    ensures Occurrences(sigs, n, s) >= 1 <==> exists i :: 0 <= i < n && sigs[i] == s
  {
    if n > 0 { OccursOnce(sigs, n - 1, s); }
  }

  lemma {:induction false} OccursTwice(sigs: seq<Signature>, n: nat, s: Signature)
    requires n <= |sigs|
    ensures Occurrences(sigs, n, s) >= 2 <==> exists i, j :: 0 <= i < j < n && sigs[i] == s && sigs[j] == s
  {
    if n > 0 {
      OccursTwice(sigs, n - 1, s);
      OccursOnce(sigs, n - 1, s);
    }
  }

  /** Two signatures, or two occurrences of one, that count for the same key. */
  predicate Clash(sigs: seq<Signature>, keyids: seq<string>, s: Signature, t: Signature) {
    && Counts(s, keyids) && Counts(t, keyids) && s.keyid == t.keyid
    && if s == t then Occurrences(sigs, |sigs|, s) >= 2
       else Occurrences(sigs, |sigs|, s) >= 1 && Occurrences(sigs, |sigs|, t) >= 1
  }

  lemma {:induction false} TwiceMeansClash(sigs: seq<Signature>, keyids: seq<string>)
    ensures SignedTwice(sigs, |sigs|, keyids) <==> exists s, t :: Clash(sigs, keyids, s, t)
  {
    if i, j :|
         0 <= i < j < |sigs| && Counts(sigs[i], keyids) && Counts(sigs[j], keyids) && sigs[i].keyid == sigs[j].keyid {
      OccursOnce(sigs, |sigs|, sigs[i]);
      OccursOnce(sigs, |sigs|, sigs[j]);
      OccursTwice(sigs, |sigs|, sigs[i]);
      assert Clash(sigs, keyids, sigs[i], sigs[j]);
    }
    if s, t :| Clash(sigs, keyids, s, t) {
      OccursTwice(sigs, |sigs|, s);
      OccursOnce(sigs, |sigs|, s);
      OccursOnce(sigs, |sigs|, t);
    }
  }

  lemma {:induction false} SameRepeated(a: seq<Signature>, b: seq<Signature>, keyids: seq<string>)
    requires SameCounting(a, b, keyids)
    ensures Repeated(a, |a|, keyids) <==> Repeated(b, |b|, keyids)
  {
    RepeatedMeaning(a, |a|, keyids);
    RepeatedMeaning(b, |b|, keyids);
    TwiceMeansClash(a, keyids);
    TwiceMeansClash(b, keyids);
    forall s, t ensures Clash(a, keyids, s, t) <==> Clash(b, keyids, s, t) {
    }
  }

  lemma {:induction false} ValidSignersWithin(env: Env, a: seq<Signature>, b: seq<Signature>, message: Bytes,
                                              keys: map<string, Key>, keyids: seq<string>)
    requires SameCounting(a, b, keyids)
    ensures ValidSigners(env, keys, message, a, |a|, keyids) <= ValidSigners(env, keys, message, b, |b|, keyids)
  {
    forall k | k in ValidSigners(env, keys, message, a, |a|, keyids)
      ensures k in ValidSigners(env, keys, message, b, |b|, keyids)
    {
      var i :| 0 <= i < |a| && a[i].keyid in keyids && a[i].sig != "" && Valid(env, keys, message, a[i])
        && a[i].keyid == k;
      ListedMeaning(keyids, |keyids|, k);
      OccursOnce(a, |a|, a[i]);
      OccursOnce(b, |b|, a[i]);
    }
  }

  /**
   * Reordering signatures, and adding or dropping unauthorized or empty ones, changes nothing:
   * only how often each authorized non-empty signature occurs matters.
   */
  lemma {:induction false} ThresholdUnchanged(env: Env, a: seq<Signature>, b: seq<Signature>, message: Bytes,
                                              keys: map<string, Key>, role: RoleKeys, name: string)
    requires SameCounting(a, b, role.keyids)
    ensures ThresholdResult(env, a, message, keys, role, name) == ThresholdResult(env, b, message, keys, role, name)
  {
    SameRepeated(a, b, role.keyids);
    if !Repeated(a, |a|, role.keyids) {
      ValidCountMeaning(env, keys, message, a, |a|, role.keyids);
      ValidCountMeaning(env, keys, message, b, |b|, role.keyids);
      ValidSignersWithin(env, a, b, message, keys, role.keyids);
      ValidSignersWithin(env, b, a, message, keys, role.keyids);
      assert ValidSigners(env, keys, message, a, |a|, role.keyids) ==
             ValidSigners(env, keys, message, b, |b|, role.keyids);
    }
  }

  // ----- Delegation paths

  /** DelegatedRole::matches_path; `None` is an invalid glob. */
  function MatchesPath(env: Env, role: DelegatedRole, path: string): Option<bool> {
    match role.pathHashPrefixes
    case Some(prefixes) => Some(exists i :: 0 <= i < |prefixes| && prefixes[i] <= env.pathHashHex(path))
    case None => if role.paths.Some? then AnyGlob(env, role.paths.value, 0, path) else Some(false)
  }

  /** From the `i`-th on, the first pattern that is invalid or matches decides. */
  function AnyGlob(env: Env, patterns: seq<string>, i: nat, path: string): Option<bool>
    requires i <= |patterns|
    decreases |patterns| - i
  {
    if i == |patterns| then Some(false)
    else
      var m := env.glob(patterns[i], path);
      if m.None? || m.value then m else AnyGlob(env, patterns, i + 1, path)
  }

  /** The pattern at this place gives this result, and all before it are valid and do not match. */
  predicate DecidedAt(env: Env, patterns: seq<string>, path: string, i: nat, result: Option<bool>) {
    && i < |patterns| && env.glob(patterns[i], path) == result
    && forall j :: 0 <= j < i ==> env.glob(patterns[j], path) == Some(false)
  }

  lemma {:induction false} FirstPatternDecides(env: Env, patterns: seq<string>, i: nat, path: string)
    requires i <= |patterns| && forall j :: 0 <= j < i ==> env.glob(patterns[j], path) == Some(false)
    ensures AnyGlob(env, patterns, i, path) == Some(true) <==>
            exists k: nat :: DecidedAt(env, patterns, path, k, Some(true))
    ensures AnyGlob(env, patterns, i, path) == None <==> exists k: nat :: DecidedAt(env, patterns, path, k, None)
    decreases |patterns| - i
  {
    if i < |patterns| {
      if env.glob(patterns[i], path) == Some(false) {
        FirstPatternDecides(env, patterns, i + 1, path);
      } else {
        assert DecidedAt(env, patterns, path, i, env.glob(patterns[i], path));
      }
    }
  }

  /** With hash prefixes, one of them starts the hash of the path; else the first pattern that is not false decides. */
  lemma {:induction false} MatchesPathMeaning(env: Env, role: DelegatedRole, path: string)
    ensures role.pathHashPrefixes.Some? ==>
              var hash := env.pathHashHex(path);
              MatchesPath(env, role, path) ==
              Some(exists p :: p in role.pathHashPrefixes.value && |p| <= |hash| && p == hash[..|p|])
    ensures role.pathHashPrefixes.None? && role.paths.None? ==> MatchesPath(env, role, path) == Some(false)
    ensures role.pathHashPrefixes.None? && role.paths.Some? ==>
              && (MatchesPath(env, role, path) == Some(true) <==>
                    exists k: nat :: DecidedAt(env, role.paths.value, path, k, Some(true)))
              && (MatchesPath(env, role, path) == None <==>
                    exists k: nat :: DecidedAt(env, role.paths.value, path, k, None))
  {
    if role.pathHashPrefixes.None? && role.paths.Some? { FirstPatternDecides(env, role.paths.value, 0, path); }
  }
}
