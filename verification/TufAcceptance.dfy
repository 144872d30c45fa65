/**
 * Which files a TrustedMetadataSet accepts, and what it then holds, spelled out: bytes, field names, versions,
 * hashes, times and signatures, without the vocabulary of the checks.
 */
module TufAcceptance {
  import opened Prelude
  import opened CanonicalJson
  import opened CanonicalReader
  import opened TufMetadata
  import opened TufTrusted
  import opened TufHistory

  // ----- What a file says

  const SIGNED: Bytes := [115, 105, 103, 110, 101, 100]
  const SIGNATURES: Bytes := [115, 105, 103, 110, 97, 116, 117, 114, 101, 115]
  const TYPE: Bytes := [95, 116, 121, 112, 101]
  const SPEC_VERSION: Bytes := [115, 112, 101, 99, 95, 118, 101, 114, 115, 105, 111, 110]

  lemma {:induction false} NamesInBytes()
    ensures Ascii("signed") == SIGNED && Ascii("signatures") == SIGNATURES
    ensures Ascii("_type") == TYPE && Ascii("spec_version") == SPEC_VERSION
  {
  }

  predicate SameText(b: Bytes, s: string) {
    |b| == |s| && forall i :: 0 <= i < |s| ==> b[i] as int == s[i] as int
  }

  /** Where the type is given as text it is this one, and so for a specification version of 1 or 1.something. */
  predicate HeaderSays(signed: Json, kind: string) {
    signed.Object? ==>
      && (TYPE in signed.members && signed.members[TYPE].String? ==> SameText(signed.members[TYPE].s, kind))
      && (SPEC_VERSION in signed.members && signed.members[SPEC_VERSION].String? ==>
            var text := signed.members[SPEC_VERSION].s;
            text != [] && text[0] == 49 && (|text| == 1 || text[1] == 46))
  }

  /** An object with a signed part and signatures, and the signed part again as canonical text. */
  ghost predicate Says<T>(env: Env, kind: string, decode: Json -> Option<T>, bytes: Bytes, m: Metadata<T>) {
    var v := env.parseJson(bytes);
    && v.Some? && v.value.Object? && SIGNED in v.value.members && SIGNATURES in v.value.members
    && var signed := v.value.members[SIGNED];
    && HeaderSays(signed, kind) && Read(m.canonicalSigned) == Some(signed)
    && decode(signed) == Some(m.signed) && env.asSignatures(v.value.members[SIGNATURES]) == Some(m.signatures)
  }

  predicate IsAscii(s: string) {
    forall i :: 0 <= i < |s| ==> s[i] as int < 128
  }

  lemma {:induction false} AsciiIsSameText(b: Bytes, s: string)
    requires IsAscii(s)
    ensures b == Ascii(s) <==> SameText(b, s)
  {
  }

  lemma {:induction false} MajorVersionIsFirst(text: Bytes)
    ensures MajorVersionOne(text) <==> text != [] && text[0] == 49 && (|text| == 1 || text[1] == 46)
  {
    assert Ascii("1") == [49] && Ascii("1.") == [49, 46];
    assert |text| == 1 ==> text == [text[0]];
    assert |text| >= 2 ==> text[..2] == [text[0], text[1]];
  }

  lemma {:induction false} HeaderSaysIff(signed: Json, kind: string)
    requires IsAscii(kind)
    ensures AcceptableHeader(signed, kind) <==> HeaderSays(signed, kind)
  {
    hide Ascii, MajorVersionOne, SameText;
    NamesInBytes();
    if signed.Object? {
      if TYPE in signed.members && signed.members[TYPE].String? { AsciiIsSameText(signed.members[TYPE].s, kind); }
      if SPEC_VERSION in signed.members && signed.members[SPEC_VERSION].String? {
        MajorVersionIsFirst(signed.members[SPEC_VERSION].s);
      }
    }
  }

  lemma {:induction false} ParsedIff<T>(env: Env, kind: string, decode: Json -> Option<T>, bytes: Bytes, m: Metadata<T>)
    requires IsAscii(kind)
    ensures Parsed(env, kind, decode, bytes) == Success(m) <==> Says(env, kind, decode, bytes, m)
  {
    hide Ascii, AcceptableHeader, HeaderSays, Canonical, Encodable, Read;
    NamesInBytes();
    var v := env.parseJson(bytes);
    if v.Some? && v.value.Object? && SIGNED in v.value.members {
      var signed := v.value.members[SIGNED];
      HeaderSaysIff(signed, kind);
      if Encodable(signed) { ReadIffCanonical(Canonical(signed), signed); }
      ReadIffCanonical(m.canonicalSigned, signed);
    }
  }

  // ----- Times, pins and delegations

  predicate Unexpired(env: Env, expires: string, now: int) {
    env.parseTime(expires).Some? && now <= env.parseTime(expires).value
  }

  /** The same text up to the case of ASCII letters. */
  predicate SameUpToCase(a: string, b: string) {
    |a| == |b| && forall i :: 0 <= i < |a| ==>
      || a[i] == b[i]
      || ('A' <= a[i] <= 'Z' && b[i] as int == a[i] as int + 32)
      || ('A' <= b[i] <= 'Z' && a[i] as int == b[i] as int + 32)
  }

  /** The pinned length, and, if there are hashes, a SHA-256 or SHA-512 one, and both where both are there. */
  predicate HasPinned(env: Env, bytes: Bytes, pin: MetaFile) {
    && (pin.length.Some? ==> |bytes| == pin.length.value)
    && (pin.hashes.Some? ==>
          var hashes := pin.hashes.value;
          && ("sha256" in hashes || "sha512" in hashes)
          && ("sha256" in hashes ==> SameUpToCase(env.sha256Hex(bytes), hashes["sha256"]))
          && ("sha512" in hashes ==> SameUpToCase(env.sha512Hex(bytes), hashes["sha512"])))
  }

  lemma {:induction false} SameUpToCaseIff(a: string, b: string)
    ensures EqIgnoreAsciiCase(a, b) <==> SameUpToCase(a, b)
  {
    if |a| == |b| {
      forall i | 0 <= i < |a|
        ensures Lower(a[i]) == Lower(b[i]) <==>
                || a[i] == b[i]
                || ('A' <= a[i] <= 'Z' && b[i] as int == a[i] as int + 32)
                || ('A' <= b[i] <= 'Z' && a[i] as int == b[i] as int + 32)
      {
        SameLetter(a[i], b[i]);
      }
    }
  }

  lemma {:induction false} SameLetter(a: char, b: char)
    ensures Lower(a) == Lower(b) <==>
            || a == b
            || ('A' <= a <= 'Z' && b as int == a as int + 32) || ('A' <= b <= 'Z' && a as int == b as int + 32)
  {
    assert (Lower(a) as int == if 'A' <= a <= 'Z' then a as int + 32 else a as int);
    assert (Lower(b) as int == if 'A' <= b <= 'Z' then b as int + 32 else b as int);
  }

  lemma {:induction false} IntegrityIff(env: Env, bytes: Bytes, pin: MetaFile)
    ensures Integrity(env, bytes, pin).Success? <==> HasPinned(env, bytes, pin)
  {
    hide EqIgnoreAsciiCase, SameUpToCase;
    if pin.hashes.Some? {
      var hashes := pin.hashes.value;
      if "sha256" in hashes {
        assert Supported("sha256");
        SameUpToCaseIff(env.sha256Hex(bytes), hashes["sha256"]);
      }
      if "sha512" in hashes {
        assert Supported("sha512");
        SameUpToCaseIff(env.sha512Hex(bytes), hashes["sha512"]);
      }
    }
  }

  /** The `k`-th delegation is the first one of this name, and enough of its keys have signed. */
  ghost predicate SignedAsDelegated(env: Env, m: Metadata<Targets>, delegations: Delegations, role: string, k: nat) {
    && k < |delegations.roles| && delegations.roles[k].name == role
    && (forall j :: 0 <= j < k ==> delegations.roles[j].name != role)
    && var d := delegations.roles[k];
    SignedUnder(env, m.signatures, m.canonicalSigned, delegations.keys, RoleKeys(d.keyids, d.threshold))
  }

  lemma {:induction false} FindRoleIs(roles: seq<DelegatedRole>, i: nat, name: string, k: nat)
    requires i <= k < |roles| && roles[k].name == name && forall j :: i <= j < k ==> roles[j].name != name
    ensures FindRole(roles, i, name) == Some(roles[k])
    decreases k - i
  {
    if i < k { FindRoleIs(roles, i + 1, name, k); }
  }

  lemma {:induction false} FindRoleFirst(roles: seq<DelegatedRole>, i: nat, name: string) returns (k: nat)
    requires i <= |roles| && FindRole(roles, i, name).Some?
    ensures i <= k < |roles| && roles[k].name == name && forall j :: i <= j < k ==> roles[j].name != name
    decreases |roles| - i
  {
    k := i;
    if roles[i].name != name { k := FindRoleFirst(roles, i + 1, name); }
  }

  /** A role's keys are looked up among those that it lists, which are all that count. */
  lemma {:induction false} AllowedKeysSuffice(env: Env, m: Metadata<Targets>, keys: map<string, Key>, role: RoleKeys)
    ensures SignedUnder(env, m.signatures, m.canonicalSigned, AllowedKeys(keys, role.keyids), role) <==>
            SignedUnder(env, m.signatures, m.canonicalSigned, keys, role)
  {
    forall k ensures Listed(role.keyids, |role.keyids|, k) <==> k in role.keyids {
      ListedMeaning(role.keyids, |role.keyids|, k);
    }
    forall k ensures SignsFor(env, m.signatures, m.canonicalSigned, AllowedKeys(keys, role.keyids), role, k) <==>
                     SignsFor(env, m.signatures, m.canonicalSigned, keys, role, k) {
    }
  }

  lemma {:induction false} VouchedByIff(env: Env, st: TrustedState, delegator: string, role: string,
        m: Metadata<Targets>)
    ensures VouchedBy(env, st, delegator, role, m) <==>
            && delegator in st.targets && st.targets[delegator].signed.delegations.Some?
            && exists k: nat :: SignedAsDelegated(env, m, st.targets[delegator].signed.delegations.value, role, k)
  {
    hide ThresholdResult, SignedUnder, AllowedKeys;
    if delegator in st.targets && st.targets[delegator].signed.delegations.Some? {
      var delegations := st.targets[delegator].signed.delegations.value;
      if FindRole(delegations.roles, 0, role).Some? {
        var k := FindRoleFirst(delegations.roles, 0, role);
        FirstDelegationDecides(env, st, delegator, role, m, k);
      }
      forall k: nat | SignedAsDelegated(env, m, delegations, role, k) ensures VouchedBy(env, st, delegator, role, m) {
        FirstDelegationDecides(env, st, delegator, role, m, k);
      }
    }
  }

  lemma {:induction false} FirstDelegationDecides(env: Env, st: TrustedState, delegator: string, role: string,
        m: Metadata<Targets>, k: nat)
    requires delegator in st.targets && st.targets[delegator].signed.delegations.Some?
    requires var roles := st.targets[delegator].signed.delegations.value.roles;
             k < |roles| && roles[k].name == role && forall j :: 0 <= j < k ==> roles[j].name != role
    ensures VouchedBy(env, st, delegator, role, m) <==>
            SignedAsDelegated(env, m, st.targets[delegator].signed.delegations.value, role, k)
  {
    hide ThresholdResult, SignedUnder, AllowedKeys;
    var delegations := st.targets[delegator].signed.delegations.value;
    FindRoleIs(delegations.roles, 0, role, k);
    var d := delegations.roles[k];
    SignedUnderIff(env, m.signatures, m.canonicalSigned, AllowedKeys(delegations.keys, d.keyids),
      RoleKeys(d.keyids, d.threshold), role);
    AllowedKeysSuffice(env, m, delegations.keys, RoleKeys(d.keyids, d.threshold));
  }

  // ----- What is accepted

  /** from_root: a root that enough of its own keys have signed; nothing else is held. */
  lemma {:induction false} BootstrapIff(env: Env, bytes: Bytes, after: TrustedState)
    ensures Bootstrap(env, bytes) == Success(after) <==>
            && after == TrustedState(after.root, None, None, map[])
            && Says(env, "root", env.asRoot, bytes, after.root)
            && MeetsThreshold(env, after.root, after.root.signed, "root")
  {
    hide ThresholdResult, MeetsThreshold, Says, Parsed;
    ParsedIff(env, "root", env.asRoot, bytes, after.root);
    SignedByIff(env, after.root, after.root.signed, "root");
  }

  /** update_root: the next version, signed under the held root and under itself; all else is dropped. */
  lemma {:induction false} RootAcceptedIff(env: Env, st: TrustedState, bytes: Bytes, after: TrustedState)
    ensures RootStep(env, st, bytes) == Success(after) <==>
            && after == TrustedState(after.root, None, None, map[])
            && Says(env, "root", env.asRoot, bytes, after.root)
            && after.root.signed.version == st.root.signed.version + 1
            && MeetsThreshold(env, after.root, st.root.signed, "root")
            && MeetsThreshold(env, after.root, after.root.signed, "root")
  {
    hide ThresholdResult, MeetsThreshold, Says, Parsed;
    ParsedIff(env, "root", env.asRoot, bytes, after.root);
    SignedByIff(env, after.root, st.root.signed, "root");
    SignedByIff(env, after.root, after.root.signed, "root");
  }

  /** A newer version, and no lower pin of the snapshot where both timestamps have one. */
  predicate Advances(held: Option<Metadata<Timestamp>>, offered: Timestamp) {
    held.Some? ==>
      && held.value.signed.version < offered.version
      && ("snapshot.json" in held.value.signed.meta && "snapshot.json" in offered.meta ==>
            held.value.signed.meta["snapshot.json"].version <= offered.meta["snapshot.json"].version)
  }

  /** update_timestamp. */
  lemma {:induction false} TimestampAcceptedIff(env: Env, st: TrustedState, bytes: Bytes, now: int, after: TrustedState)
    ensures TimestampStep(env, st, bytes, now) == Success(after) <==>
            && after.timestamp.Some? && after == st.(timestamp := after.timestamp)
            && var ts := after.timestamp.value;
            && Says(env, "timestamp", env.asTimestamp, bytes, ts)
            && MeetsThreshold(env, ts, st.root.signed, "timestamp")
            && Advances(st.timestamp, ts.signed) && Unexpired(env, ts.signed.expires, now)
  {
    hide ThresholdResult, MeetsThreshold, Says, Parsed;
    var parsed := Parsed(env, "timestamp", env.asTimestamp, bytes);
    if parsed.Success? {
      ParsedIff(env, "timestamp", env.asTimestamp, bytes, parsed.value);
      SignedByIff(env, parsed.value, st.root.signed, "timestamp");
    }
    if after.timestamp.Some? { ParsedIff(env, "timestamp", env.asTimestamp, bytes, after.timestamp.value); }
  }

  /** No pin of the held snapshot is missing or lower. */
  predicate KeepsPins(held: Option<Metadata<Snapshot>>, offered: Snapshot) {
    held.Some? ==>
      forall name :: name in held.value.signed.meta ==>
        name in offered.meta && held.value.signed.meta[name].version <= offered.meta[name].version
  }

  /** update_snapshot: as the held timestamp pins it, which must be unexpired; the targets are dropped. */
  lemma {:induction false} SnapshotAcceptedIff(env: Env, st: TrustedState, bytes: Bytes, now: int, after: TrustedState)
    ensures SnapshotStep(env, st, bytes, now) == Success(after) <==>
            && after.snapshot.Some? && after == st.(snapshot := after.snapshot, targets := map[])
            && st.timestamp.Some? && Unexpired(env, st.timestamp.value.signed.expires, now)
            && "snapshot.json" in st.timestamp.value.signed.meta
            && var (snap, pin) := (after.snapshot.value, st.timestamp.value.signed.meta["snapshot.json"]);
            && HasPinned(env, bytes, pin) && Says(env, "snapshot", env.asSnapshot, bytes, snap)
            && MeetsThreshold(env, snap, st.root.signed, "snapshot")
            && snap.signed.version == pin.version && KeepsPins(st.snapshot, snap.signed)
            && Unexpired(env, snap.signed.expires, now)
  {
    hide ThresholdResult, MeetsThreshold, Says, Parsed, Integrity, HasPinned;
    var parsed := Parsed(env, "snapshot", env.asSnapshot, bytes);
    if parsed.Success? {
      ParsedIff(env, "snapshot", env.asSnapshot, bytes, parsed.value);
      SignedByIff(env, parsed.value, st.root.signed, "snapshot");
    }
    if after.snapshot.Some? { ParsedIff(env, "snapshot", env.asSnapshot, bytes, after.snapshot.value); }
    if st.timestamp.Some? && "snapshot.json" in st.timestamp.value.signed.meta {
      IntegrityIff(env, bytes, st.timestamp.value.signed.meta["snapshot.json"]);
    }
  }

  /** A targets file as the held snapshot pins it for the role, which must be unexpired. */
  ghost predicate AsPinned(env: Env, st: TrustedState, bytes: Bytes, role: string, now: int, m: Metadata<Targets>) {
    && st.snapshot.Some? && Unexpired(env, st.snapshot.value.signed.expires, now)
    && role + ".json" in st.snapshot.value.signed.meta
    && var pin := st.snapshot.value.signed.meta[role + ".json"];
    HasPinned(env, bytes, pin) && Says(env, "targets", env.asTargets, bytes, m) && m.signed.version == pin.version
  }

  lemma {:induction false} PinnedTargetsIff(env: Env, st: TrustedState, bytes: Bytes, role: string, now: int,
        m: Metadata<Targets>)
    ensures PinnedTargets(env, st, bytes, role, now) == Success(m) <==> AsPinned(env, st, bytes, role, now, m)
  {
    hide Says, Parsed, Integrity, HasPinned;
    ParsedIff(env, "targets", env.asTargets, bytes, m);
    if st.snapshot.Some? && role + ".json" in st.snapshot.value.signed.meta {
      IntegrityIff(env, bytes, st.snapshot.value.signed.meta[role + ".json"]);
    }
  }

  /** update_targets. */
  lemma {:induction false} TargetsAcceptedIff(env: Env, st: TrustedState, bytes: Bytes, now: int, after: TrustedState)
    ensures TargetsStep(env, st, bytes, now) == Success(after) <==>
            && "targets" in after.targets
            && var m := after.targets["targets"];
            && after == st.(targets := st.targets["targets" := m]) && AsPinned(env, st, bytes, "targets", now, m)
            && MeetsThreshold(env, m, st.root.signed, "targets") && Unexpired(env, m.signed.expires, now)
  {
    hide ThresholdResult, MeetsThreshold, AsPinned, PinnedTargets;
    var pinned := PinnedTargets(env, st, bytes, "targets", now);
    if pinned.Success? {
      PinnedTargetsIff(env, st, bytes, "targets", now, pinned.value);
      SignedByIff(env, pinned.value, st.root.signed, "targets");
    }
    if "targets" in after.targets { PinnedTargetsIff(env, st, bytes, "targets", now, after.targets["targets"]); }
  }

  predicate Reserved(role: string) {
    role in {"root", "timestamp", "snapshot", "targets"}
  }

  /** update_delegated_targets. */
  lemma {:induction false} DelegatedAcceptedIff(env: Env, st: TrustedState, bytes: Bytes, role: string,
        delegator: string, now: int, after: TrustedState)
    ensures DelegatedStep(env, st, bytes, role, delegator, now) == Success(after) <==>
            && !Reserved(role) && role in after.targets
            && var m := after.targets[role];
            && after == st.(targets := st.targets[role := m]) && AsPinned(env, st, bytes, role, now, m)
            && delegator in st.targets && st.targets[delegator].signed.delegations.Some?
            && (exists k: nat :: SignedAsDelegated(env, m, st.targets[delegator].signed.delegations.value, role, k))
            && Unexpired(env, m.signed.expires, now)
  {
    hide SignedAsDelegated, ThresholdResult, DelegationAuthority, AsPinned, PinnedTargets;
    var pinned := PinnedTargets(env, st, bytes, role, now);
    if pinned.Success? {
      PinnedTargetsIff(env, st, bytes, role, now, pinned.value);
      VouchedByIff(env, st, delegator, role, pinned.value);
    }
    if role in after.targets { PinnedTargetsIff(env, st, bytes, role, now, after.targets[role]); }
  }
}
