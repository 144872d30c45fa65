/** trusted.rs: the metadata a client trusts, and the checks that let new metadata in. */
module TufTrusted {
  import opened Prelude
  import opened TufMetadata

  /** The value of a TrustedMetadataSet. */
  datatype TrustedState = TrustedState(
    root: Metadata<Root>,
    timestamp: Option<Metadata<Timestamp>>,
    snapshot: Option<Metadata<Snapshot>>,
    targets: map<string, Metadata<Targets>>)

  type Outcome = Result<TrustedState, TufError>

  // ----- The checks

  /** verify_with_root: the threshold of a role as `root` defines it. */
  function RootAuthority<T>(env: Env, m: Metadata<T>, root: Root, role: string): Result<Unit, TufError> {
    if role !in root.roles then Failure(UnknownRole(role))
    else ThresholdResult(env, m.signatures, m.canonicalSigned, root.keys, root.roles[role], role)
  }

  predicate SignedBy<T>(env: Env, m: Metadata<T>, root: Root, role: string) {
    RootAuthority(env, m, root, role).Success?
  }

  /** Enough of the keys that `root` lists for the role have signed the file. */
  ghost predicate MeetsThreshold<T>(env: Env, m: Metadata<T>, root: Root, role: string) {
    role in root.roles && SignedUnder(env, m.signatures, m.canonicalSigned, root.keys, root.roles[role])
  }

  lemma {:induction false} SignedByIff<T>(env: Env, m: Metadata<T>, root: Root, role: string)
    ensures SignedBy(env, m, root, role) <==> MeetsThreshold(env, m, root, role)
  {
    hide ThresholdResult, SignedUnder;
    if role in root.roles {
      SignedUnderIff(env, m.signatures, m.canonicalSigned, root.keys, root.roles[role], role);
    }
  }

  /** ensure_not_expired. */
  function Freshness(env: Env, expires: string, role: string, now: int): Result<Unit, TufError> {
    match env.parseTime(expires)
    case None => Failure(InvalidTimestamp)
    case Some(t) => if t < now then Failure(Expired(role)) else Success(Unit.Unit)
  }

  predicate Fresh(env: Env, expires: string, now: int) {
    env.parseTime(expires).Some? && env.parseTime(expires).value >= now
  }

  function Lower(c: char): char {
    if 'A' <= c <= 'Z' then c - 'A' + 'a' else c
  }

  predicate EqIgnoreAsciiCase(a: string, b: string) {
    |a| == |b| && forall i :: 0 <= i < |a| ==> Lower(a[i]) == Lower(b[i])
  }

  predicate Supported(algo: string) {
    algo == "sha256" || algo == "sha512"
  }

  predicate HashMatches(env: Env, algo: string, expected: string, bytes: Bytes) {
    EqIgnoreAsciiCase(if algo == "sha256" then env.sha256Hex(bytes) else env.sha512Hex(bytes), expected)
  }

  /** Every pinned hash that the client supports matches, and there is one. */
  predicate HashesOk(env: Env, bytes: Bytes, hashes: map<string, string>) {
    && (exists algo :: algo in hashes && Supported(algo))
    && forall algo :: algo in hashes && Supported(algo) ==> HashMatches(env, algo, hashes[algo], bytes)
  }

  /** check_integrity. */
  function Integrity(env: Env, bytes: Bytes, pin: MetaFile): Result<Unit, TufError> {
    if pin.length.Some? && |bytes| != pin.length.value then Failure(IntegrityMismatch)
    else if pin.hashes.Some? && !HashesOk(env, bytes, pin.hashes.value) then Failure(IntegrityMismatch)
    else Success(Unit.Unit)
  }

  method CheckIntegrity(env: Env, bytes: Bytes, pin: MetaFile) returns (r: Result<Unit, TufError>)
    ensures r == Integrity(env, bytes, pin)
  {
    if pin.length.Some? && |bytes| != pin.length.value {
      return Failure(IntegrityMismatch);
    }
    if pin.hashes.None? {
      return Success(Unit.Unit);
    }
    var hashes := pin.hashes.value;
    var rest, verifiedAny := hashes.Keys, false;
    while rest != {}
      invariant rest <= hashes.Keys
      invariant forall algo :: algo in hashes && algo !in rest && Supported(algo) ==>
                HashMatches(env, algo, hashes[algo], bytes)
      invariant verifiedAny <==> exists algo :: algo in hashes && algo !in rest && Supported(algo)
      decreases rest
    {
      var algo :| algo in rest;
      rest := rest - {algo};
      if Supported(algo) {
        if !HashMatches(env, algo, hashes[algo], bytes) {
          return Failure(IntegrityMismatch);
        }
        verifiedAny := true;
      }
    }
    return if verifiedAny then Success(Unit.Unit) else Failure(IntegrityMismatch);
  }

  predicate IsTopLevelRole(name: string) {
    name == "root" || name == "timestamp" || name == "snapshot" || name == "targets"
  }

  /** The version after `v`; adding one to the largest `u64` panics. */
  function Next(v: Version): Result<Version, TufError> {
    if v + 1 < U64_LIMIT then Success(v + 1) else Failure(Overflow)
  }

  // ----- The updates, as functions of the trusted state

  ghost function Bootstrap(env: Env, bytes: Bytes): Outcome {
    var root :- Parsed(env, "root", env.asRoot, bytes);
    var _ :- RootAuthority(env, root, root.signed, "root");
    Success(TrustedState(root, None, None, map[]))
  }

  ghost function RootStep(env: Env, st: TrustedState, bytes: Bytes): Outcome {
    var root :- Parsed(env, "root", env.asRoot, bytes);
    var next :- Next(st.root.signed.version);
    if root.signed.version != next then Failure(BadRootVersion(st.root.signed.version, root.signed.version))
    else
      var _ :- RootAuthority(env, root, st.root.signed, "root");
      var _ :- RootAuthority(env, root, root.signed, "root");
      Success(TrustedState(root, None, None, map[]))
  }

  /** What a new timestamp may not do to the one it replaces. */
  function TimestampAdvance(current: Option<Metadata<Timestamp>>, offered: Timestamp): Result<Unit, TufError> {
    if current.None? then Success(Unit.Unit)
    else
      var held := current.value.signed;
      if offered.version < held.version then Failure(Rollback("timestamp", held.version, offered.version))
      else if offered.version == held.version then Failure(EqualVersion("timestamp", offered.version))
      else
        match (offered.SnapshotMeta(), held.SnapshotMeta())
        case (Some(a), Some(b)) =>
          if a.version < b.version then Failure(Rollback("snapshot (via timestamp)", b.version, a.version))
          else Success(Unit.Unit)
        case _ => Success(Unit.Unit)
  }

  ghost function TimestampStep(env: Env, st: TrustedState, bytes: Bytes, now: int): Outcome {
    var ts :- Parsed(env, "timestamp", env.asTimestamp, bytes);
    var _ :- RootAuthority(env, ts, st.root.signed, "timestamp");
    var _ :- TimestampAdvance(st.timestamp, ts.signed);
    var _ :- Freshness(env, ts.signed.expires, "timestamp", now);
    Success(st.(timestamp := Some(ts)))
  }

  /** Nothing that was pinned is dropped or moves back. */
  predicate PinsKept(held: map<string, MetaFile>, offered: map<string, MetaFile>) {
    forall name :: name in held ==> name in offered && held[name].version <= offered[name].version
  }

  ghost function SnapshotStep(env: Env, st: TrustedState, bytes: Bytes, now: int): Outcome {
    if st.timestamp.None? then Failure(Malformed)
    else
      var ts := st.timestamp.value.signed;
      var _ :- Freshness(env, ts.expires, "timestamp", now);
      if ts.SnapshotMeta().None? then Failure(Malformed)
      else
        var pin := ts.SnapshotMeta().value;
        var _ :- Integrity(env, bytes, pin);
        var snap :- Parsed(env, "snapshot", env.asSnapshot, bytes);
        var _ :- RootAuthority(env, snap, st.root.signed, "snapshot");
        if snap.signed.version != pin.version then Failure(IntegrityMismatch)
        else
          var _ :- SnapshotAdvance(st.snapshot, snap.signed);
          var _ :- Freshness(env, snap.signed.expires, "snapshot", now);
          Success(st.(snapshot := Some(snap), targets := map[]))
  }

  /** The new snapshot keeps every pin of the one it replaces. */
  function SnapshotAdvance(current: Option<Metadata<Snapshot>>, offered: Snapshot): Result<Unit, TufError> {
    if current.None? || PinsKept(current.value.signed.meta, offered.meta) then Success(Unit.Unit)
    else Failure(PinRegression)
  }

  /** verify_targets_pin. */
  ghost function PinnedTargets(env: Env, st: TrustedState, bytes: Bytes, role: string, now: int):
      Result<Metadata<Targets>, TufError> {
    if st.snapshot.None? then Failure(Malformed)
    else
      var snap := st.snapshot.value.signed;
      var _ :- Freshness(env, snap.expires, "snapshot", now);
      if role + ".json" !in snap.meta then Failure(Malformed)
      else
        var pin := snap.meta[role + ".json"];
        var _ :- Integrity(env, bytes, pin);
        var targets :- Parsed(env, "targets", env.asTargets, bytes);
        if targets.signed.version != pin.version then Failure(IntegrityMismatch) else Success(targets)
  }

  ghost function TargetsStep(env: Env, st: TrustedState, bytes: Bytes, now: int): Outcome {
    var targets :- PinnedTargets(env, st, bytes, "targets", now);
    var _ :- RootAuthority(env, targets, st.root.signed, "targets");
    var _ :- Freshness(env, targets.signed.expires, "targets", now);
    Success(st.(targets := st.targets["targets" := targets]))
  }

  // ----- Delegations

  /** The first delegation to `name`, from the `i`-th on. */
  function FindRole(roles: seq<DelegatedRole>, i: nat, name: string): Option<DelegatedRole>
    requires i <= |roles|
    decreases |roles| - i
  {
    if i == |roles| then None
    else if roles[i].name == name then Some(roles[i])
    else FindRole(roles, i + 1, name)
  }

  /** The keys of a delegations block that a delegated role may use. */
  function AllowedKeys(keys: map<string, Key>, keyids: seq<string>): map<string, Key> {
    map k | k in keys && Listed(keyids, |keyids|, k) :: keys[k]
  }

  /** delegation_authority. */
  function DelegationAuthority(st: TrustedState, delegator: string, role: string):
      Result<(map<string, Key>, RoleKeys), TufError> {
    if delegator !in st.targets then Failure(UnknownRole(delegator))
    else
      match st.targets[delegator].signed.delegations
      case None => Failure(Malformed)
      case Some(delegations) =>
        match FindRole(delegations.roles, 0, role)
        case None => Failure(UnknownRole(role))
        case Some(r) => Success((AllowedKeys(delegations.keys, r.keyids), RoleKeys(r.keyids, r.threshold)))
  }

  ghost function DelegatedStep(env: Env, st: TrustedState, bytes: Bytes, role: string, delegator: string,
        now: int): Outcome {
    if IsTopLevelRole(role) then Failure(Malformed)
    else
      var (keys, roleKeys) :- DelegationAuthority(st, delegator, role);
      var targets :- PinnedTargets(env, st, bytes, role, now);
      var _ :- ThresholdResult(env, targets.signatures, targets.canonicalSigned, keys, roleKeys, role);
      var _ :- Freshness(env, targets.signed.expires, role, now);
      Success(st.(targets := st.targets[role := targets]))
  }

  // ----- Histories

  /** A call of one of the public update methods. */
  datatype Update =
    | UpdateRoot(bytes: Bytes)
    | UpdateTimestamp(bytes: Bytes, now: int)
    | UpdateSnapshot(bytes: Bytes, now: int)
    | UpdateTargets(bytes: Bytes, now: int)
    | UpdateDelegated(bytes: Bytes, role: string, delegator: string, now: int)

  ghost function Apply(env: Env, st: TrustedState, u: Update): Outcome {
    match u
    case UpdateRoot(bytes) => RootStep(env, st, bytes)
    case UpdateTimestamp(bytes, now) => TimestampStep(env, st, bytes, now)
    case UpdateSnapshot(bytes, now) => SnapshotStep(env, st, bytes, now)
    case UpdateTargets(bytes, now) => TargetsStep(env, st, bytes, now)
    case UpdateDelegated(bytes, role, delegator, now) => DelegatedStep(env, st, bytes, role, delegator, now)
  }

  ghost predicate Bootstrapped(env: Env, st: TrustedState) {
    exists bytes :: Bootstrap(env, bytes) == Success(st)
  }

  ghost predicate Accepted(env: Env, before: TrustedState, after: TrustedState) {
    exists u :: Apply(env, before, u) == Success(after)
  }

  /** The states a set went through: one for the bootstrap, and one for each accepted update. */
  ghost predicate IsHistory(env: Env, h: seq<TrustedState>) {
    h != [] && Bootstrapped(env, h[0]) && forall i :: 0 < i < |h| ==> StepAt(env, h, i)
  }

  ghost predicate StepAt(env: Env, h: seq<TrustedState>, i: nat)
    requires 0 < i < |h|
  {
    Accepted(env, h[i - 1], h[i])
  }

  lemma {:induction false} HistoryGrows(env: Env, h: seq<TrustedState>, u: Update, after: TrustedState)
    requires IsHistory(env, h) && Apply(env, h[|h| - 1], u) == Success(after)
    ensures IsHistory(env, h + [after])
  {
    assert Accepted(env, h[|h| - 1], after);
    HistoryExtends(env, h, after);
  }

  lemma {:induction false} HistoryExtends(env: Env, h: seq<TrustedState>, after: TrustedState)
    requires IsHistory(env, h) && Accepted(env, h[|h| - 1], after)
    ensures IsHistory(env, h + [after])
  {
    var longer := h + [after];
    forall i | 0 < i < |longer| ensures StepAt(env, longer, i) {
      if i < |h| { assert StepAt(env, h, i); }
    }
  }

  /** TrustedMetadataSet. */
  class TrustedMetadataSet {
    const env: Env
    var root: Metadata<Root>
    var timestamp: Option<Metadata<Timestamp>>
    var snapshot: Option<Metadata<Snapshot>>
    var targets: map<string, Metadata<Targets>>
    ghost var history: seq<TrustedState>

    function View(): TrustedState
      reads this
    {
      TrustedState(root, timestamp, snapshot, targets)
    }

    ghost predicate Valid()
      reads this
    {
      IsHistory(env, history) && history[|history| - 1] == View()
    }

    /** A successful update appends its result to the history; a failed one changes nothing. */
    twostate predicate Steps(outcome: Outcome)
      reads this
    {
      && Valid()
      && View() == (if outcome.Success? then outcome.value else old(View()))
      && history == (if outcome.Success? then old(history) + [outcome.value] else old(history))
    }

    constructor FromVerified(env: Env, root: Metadata<Root>, ghost bytes: Bytes)
      requires Bootstrap(env, bytes) == Success(TrustedState(root, None, None, map[]))
      ensures Valid() && this.env == env && View() == TrustedState(root, None, None, map[]) && history == [View()]
    {
      this.env := env;
      this.root := root;
      timestamp, snapshot, targets := None, None, map[];
      history := [TrustedState(root, None, None, map[])];
    }

    /** from_root: trust on first use of a root that meets its own threshold. */
    static method FromRoot(env: Env, bytes: Bytes) returns (r: Result<TrustedMetadataSet, TufError>)
      ensures r.Success? <==> Bootstrap(env, bytes).Success?
      ensures r.Failure? ==> r.error == Bootstrap(env, bytes).error
      ensures r.Success? ==> fresh(r.value) && r.value.Valid() && r.value.env == env
      ensures r.Success? ==> r.value.View() == Bootstrap(env, bytes).value && r.value.history == [r.value.View()]
    {
      var root :- FromSlice(env, "root", env.asRoot, bytes);
      var _ :- VerifyWithRoot(env, root, root.signed, "root");
      var s := new TrustedMetadataSet.FromVerified(env, root, bytes);
      return Success(s);
    }

    static method VerifyWithRoot<T>(env: Env, m: Metadata<T>, root: Root, role: string)
      returns (r: Result<Unit, TufError>)
      ensures r == RootAuthority(env, m, root, role)
    {
      if role !in root.roles {
        return Failure(UnknownRole(role));
      }
      r := VerifyThreshold(env, m.signatures, m.canonicalSigned, root.keys, root.roles[role], role);
    }

    method UpdateRoot(bytes: Bytes) returns (r: Result<Unit, TufError>)
      requires Valid()
      modifies this
      ensures var outcome := RootStep(env, old(View()), bytes);
              Steps(outcome) && (r.Success? <==> outcome.Success?) && (r.Failure? ==> r.error == outcome.error)
    {
      ghost var before := View();
      var newRoot :- FromSlice(env, "root", env.asRoot, bytes);
      var next :- Next(root.signed.version);
      if newRoot.signed.version != next {
        return Failure(BadRootVersion(root.signed.version, newRoot.signed.version));
      }
      var _ :- VerifyWithRoot(env, newRoot, root.signed, "root");
      var _ :- VerifyWithRoot(env, newRoot, newRoot.signed, "root");
      root := newRoot;
      timestamp, snapshot, targets := None, None, map[];
      HistoryGrows(env, history, Update.UpdateRoot(bytes), View());
      history := history + [View()];
      return Success(Unit.Unit);
    }

    method CheckRootExpired(now: int) returns (r: Result<Unit, TufError>)
      ensures r == Freshness(env, root.signed.expires, "root", now)
    {
      return Freshness(env, root.signed.expires, "root", now);
    }

    method CheckTimestampExpired(now: int) returns (r: Result<Unit, TufError>)
      ensures r == if timestamp.None? then Success(Unit.Unit)
                else Freshness(env, timestamp.value.signed.expires, "timestamp", now)
    {
      match timestamp
      case Some(ts) => return Freshness(env, ts.signed.expires, "timestamp", now);
      case None => return Success(Unit.Unit);
    }

    method CheckSnapshotExpired(now: int) returns (r: Result<Unit, TufError>)
      ensures r == if snapshot.None? then Success(Unit.Unit)
                else Freshness(env, snapshot.value.signed.expires, "snapshot", now)
    {
      match snapshot
      case Some(snap) => return Freshness(env, snap.signed.expires, "snapshot", now);
      case None => return Success(Unit.Unit);
    }

    method UpdateTimestamp(bytes: Bytes, now: int) returns (r: Result<Unit, TufError>)
      requires Valid()
      modifies this
      ensures var outcome := TimestampStep(env, old(View()), bytes, now);
              Steps(outcome) && (r.Success? <==> outcome.Success?) && (r.Failure? ==> r.error == outcome.error)
    {
      var ts :- FromSlice(env, "timestamp", env.asTimestamp, bytes);
      var _ :- VerifyWithRoot(env, ts, root.signed, "timestamp");
      if timestamp.Some? {
        var current := timestamp.value.signed;
        if ts.signed.version < current.version {
          return Failure(Rollback("timestamp", current.version, ts.signed.version));
        }
        if ts.signed.version == current.version {
          return Failure(EqualVersion("timestamp", ts.signed.version));
        }
        var newMeta, curMeta := ts.signed.SnapshotMeta(), current.SnapshotMeta();
        if newMeta.Some? && curMeta.Some? && newMeta.value.version < curMeta.value.version {
          return Failure(Rollback("snapshot (via timestamp)", curMeta.value.version, newMeta.value.version));
        }
      }
      var _ :- Freshness(env, ts.signed.expires, "timestamp", now);
      timestamp := Some(ts);
      HistoryGrows(env, history, Update.UpdateTimestamp(bytes, now), View());
      history := history + [View()];
      return Success(Unit.Unit);
    }

    /** Compare the pins of an offered snapshot with those of the held one, name by name. */
    method CheckPinsKept(offered: Snapshot) returns (r: Result<Unit, TufError>)
      ensures r == SnapshotAdvance(snapshot, offered)
    {
      if snapshot.None? {
        return Success(Unit.Unit);
      }
      var held := snapshot.value.signed.meta;
      var names := held.Keys;
      while names != {}
        invariant names <= held.Keys
        invariant forall n :: n in held && n !in names ==>
                  n in offered.meta && held[n].version <= offered.meta[n].version
        decreases names
      {
        var name :| name in names;
        if name !in offered.meta || offered.meta[name].version < held[name].version {
          return Failure(PinRegression);
        }
        names := names - {name};
      }
      return Success(Unit.Unit);
    }

    method UpdateSnapshot(bytes: Bytes, now: int) returns (r: Result<Unit, TufError>)
      requires Valid()
      modifies this
      ensures var outcome := SnapshotStep(env, old(View()), bytes, now);
              Steps(outcome) && (r.Success? <==> outcome.Success?) && (r.Failure? ==> r.error == outcome.error)
    {
      if timestamp.None? {
        return Failure(Malformed);
      }
      var ts := timestamp.value.signed;
      var _ :- Freshness(env, ts.expires, "timestamp", now);
      if ts.SnapshotMeta().None? {
        return Failure(Malformed);
      }
      var pin := ts.SnapshotMeta().value;
      var _ :- CheckIntegrity(env, bytes, pin);
      var snap :- FromSlice(env, "snapshot", env.asSnapshot, bytes);
      var _ :- VerifyWithRoot(env, snap, root.signed, "snapshot");
      if snap.signed.version != pin.version {
        return Failure(IntegrityMismatch);
      }
      var _ :- CheckPinsKept(snap.signed);
      var _ :- Freshness(env, snap.signed.expires, "snapshot", now);
      snapshot := Some(snap);
      targets := map[];
      HistoryGrows(env, history, Update.UpdateSnapshot(bytes, now), View());
      history := history + [View()];
      return Success(Unit.Unit);
    }

    method VerifyTargetsPin(bytes: Bytes, role: string, now: int) returns (r: Result<Metadata<Targets>, TufError>)
      ensures r == PinnedTargets(env, View(), bytes, role, now)
    {
      if snapshot.None? {
        return Failure(Malformed);
      }
      var snap := snapshot.value.signed;
      var _ :- Freshness(env, snap.expires, "snapshot", now);
      if role + ".json" !in snap.meta {
        return Failure(Malformed);
      }
      var pin := snap.meta[role + ".json"];
      var _ :- CheckIntegrity(env, bytes, pin);
      var newTargets :- FromSlice(env, "targets", env.asTargets, bytes);
      if newTargets.signed.version != pin.version {
        return Failure(IntegrityMismatch);
      }
      return Success(newTargets);
    }

    method UpdateTargets(bytes: Bytes, now: int) returns (r: Result<Unit, TufError>)
      requires Valid()
      modifies this
      ensures var outcome := TargetsStep(env, old(View()), bytes, now);
              Steps(outcome) && (r.Success? <==> outcome.Success?) && (r.Failure? ==> r.error == outcome.error)
    {
      var newTargets :- VerifyTargetsPin(bytes, "targets", now);
      var _ :- VerifyWithRoot(env, newTargets, root.signed, "targets");
      var _ :- Freshness(env, newTargets.signed.expires, "targets", now);
      targets := targets["targets" := newTargets];
      HistoryGrows(env, history, Update.UpdateTargets(bytes, now), View());
      history := history + [View()];
      return Success(Unit.Unit);
    }

    method UpdateDelegatedTargets(bytes: Bytes, role: string, delegator: string, now: int)
      returns (r: Result<Unit, TufError>)
      requires Valid()
      modifies this
      ensures var outcome := DelegatedStep(env, old(View()), bytes, role, delegator, now);
              Steps(outcome) && (r.Success? <==> outcome.Success?) && (r.Failure? ==> r.error == outcome.error)
    {
      if IsTopLevelRole(role) {
        return Failure(Malformed);
      }
      var authority :- DelegationAuthority(View(), delegator, role);
      var newTargets :- VerifyTargetsPin(bytes, role, now);
      var _ :- VerifyThreshold(env, newTargets.signatures, newTargets.canonicalSigned, authority.0, authority.1, role);
      var _ :- Freshness(env, newTargets.signed.expires, role, now);
      targets := targets[role := newTargets];
      HistoryGrows(env, history, Update.UpdateDelegated(bytes, role, delegator, now), View());
      history := history + [View()];
      return Success(Unit.Unit);
    }
  }
}
