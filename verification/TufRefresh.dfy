/**
 * The refresh workflow of client.rs as functions: the state a client ends in, and the result it
 * reports, for every behaviour of the repository and every content of the store.
 */
module TufRefresh {
  import opened Prelude
  import opened TufMetadata
  import opened TufTrusted
  import opened TufHistory
  import opened TufDelegation
  import opened RoleNames
  import opened TufStore
  import opened Decimal

  /** UpdaterConfig. */
  datatype Config = Config(
    maxRootRotations: U64, maxDelegations: nat,
    rootMaxLength: U64, timestampMaxLength: U64, snapshotMaxLength: U64, targetsMaxLength: U64)

  /** What stays the same during one refresh. */
  datatype Client = Client(env: Env, repo: Repository, config: Config)

  /** The trusted metadata, and how many requests the repository has answered. */
  datatype ClientState = ClientState(trusted: TrustedState, calls: nat)

  /** What a stage reports, where it ends, and the files that it stores, in order. */
  datatype Refreshed = Refreshed(result: Result<Unit, TufError>, st: ClientState, writes: seq<Write>)

  /** A stage that stores nothing. */
  function Quiet(result: Result<Unit, TufError>, st: ClientState): Refreshed {
    Refreshed(result, st, [])
  }

  /** A stage after one that stored these files. */
  function After(writes: seq<Write>, r: Refreshed): Refreshed {
    r.(writes := writes + r.writes)
  }

  const OK: Result<Unit, TufError> := Success(Unit.Unit)

  // ----- The stages

  function RootName(version: nat): string {
    Numeral(version) + ".root.json"
  }

  function StoredRootName(version: nat): string {
    "root_history/" + RootName(version)
  }

  /** Adopt stored roots as long as the next one is there and is accepted. */
  ghost function AdoptStored(env: Env, st: TrustedState, blobs: Blobs): Result<TrustedState, TufError>
    decreases U64_LIMIT - st.root.signed.version
  {
    var next :- Next(st.root.signed.version);
    if StoredRootName(next) !in blobs then Success(st)
    else
      match RootStep(env, st, blobs[StoredRootName(next)])
      case Failure(_) => Success(st)
      case Success(after) => AdoptStored(env, after, blobs)
  }

  /** A root is stored under its version, in a name space of its own, and as the latest one. */
  function RootWrites(version: nat, bytes: Bytes): (writes: seq<Write>)
    ensures |writes| == 2
  {
    [Write(StoredRootName(version), bytes), Write("root.json", bytes)]
  }

  /** One round of refresh_root either ends it, or adopts the next root. */
  datatype Round = Stop(result: Result<Unit, TufError>, st: ClientState) | Adopted(st: ClientState, writes: seq<Write>)

  ghost function RootRound(c: Client, st: ClientState): Round {
    var after := st.(calls := st.calls + 1);
    match c.repo(st.calls, RootName(st.trusted.root.signed.version + 1), c.config.rootMaxLength)
    case Broken => Stop(Failure(Transport), after)
    case NotFound => Stop(OK, after)
    case Found(bytes) =>
      match RootStep(c.env, st.trusted, bytes)
      case Failure(error) => Stop(Failure(error), after)
      case Success(t) => Adopted(after.(trusted := t), RootWrites(t.root.signed.version, bytes))
  }

  /** Up to `left` more roots. */
  ghost function RootWalk(c: Client, st: ClientState, left: nat): Refreshed
    decreases left
  {
    if left == 0 then Quiet(Failure(Transport), st)
    else
      match RootRound(c, st)
      case Stop(result, after) => Quiet(result, after)
      case Adopted(after, writes) => After(writes, RootWalk(c, after, left - 1))
  }

  /** refresh_root; the ends of the range of versions to try must not overflow. */
  ghost function RefreshRoot(c: Client, st: ClientState): Refreshed {
    var start := st.trusted.root.signed.version;
    if start + 1 >= U64_LIMIT || start + c.config.maxRootRotations >= U64_LIMIT then Quiet(Failure(Overflow), st)
    else RootWalk(c, st, c.config.maxRootRotations)
  }

  /** An update that is skipped when it fails. */
  function BestEffort(st: TrustedState, outcome: Outcome): TrustedState {
    if outcome.Success? then outcome.value else st
  }

  ghost function SeedTimestamp(env: Env, st: TrustedState, blobs: Blobs, now: int): TrustedState {
    if "timestamp.json" in blobs then BestEffort(st, TimestampStep(env, st, blobs["timestamp.json"], now)) else st
  }

  ghost function SeedSnapshot(env: Env, st: TrustedState, blobs: Blobs, now: int): TrustedState {
    if "snapshot.json" in blobs then BestEffort(st, SnapshotStep(env, st, blobs["snapshot.json"], now)) else st
  }

  ghost function SeedTargets(env: Env, st: TrustedState, blobs: Blobs, now: int): TrustedState {
    if "targets.json" in blobs then BestEffort(st, TargetsStep(env, st, blobs["targets.json"], now)) else st
  }

  /** seed_lower_from_store. */
  ghost function Seeded(env: Env, st: TrustedState, blobs: Blobs, now: int): TrustedState {
    SeedTargets(env, SeedSnapshot(env, SeedTimestamp(env, st, blobs, now), blobs, now), blobs, now)
  }

  ghost function RefreshTimestamp(c: Client, st: ClientState, now: int): Refreshed {
    var after := st.(calls := st.calls + 1);
    match c.repo(st.calls, "timestamp.json", c.config.timestampMaxLength)
    case Broken => Quiet(Failure(Transport), after)
    case NotFound => Quiet(Failure(Transport), after)
    case Found(bytes) =>
      match TimestampStep(c.env, st.trusted, bytes, now)
      case Success(t) => Refreshed(OK, after.(trusted := t), [Write("timestamp.json", bytes)])
      case Failure(error) => Quiet(if error.EqualVersion? then OK else Failure(error), after)
  }

  /** is_expired. */
  function Expiry(env: Env, expires: string, now: int): Result<bool, TufError> {
    match env.parseTime(expires)
    case None => Failure(InvalidTimestamp)
    case Some(t) => Success(t < now)
  }

  /** A held file of the pinned version can be used again unless it has expired. */
  function Reusable(env: Env, version: Version, expires: string, pinned: Version, now: int): Result<bool, TufError> {
    if version != pinned then Success(false)
    else
      var expired :- Expiry(env, expires, now);
      Success(!expired)
  }

  /** The version of snapshot.json that the held timestamp pins. */
  function PinnedSnapshotVersion(st: TrustedState): Option<Version> {
    if st.timestamp.None? || st.timestamp.value.signed.SnapshotMeta().None? then None
    else Some(st.timestamp.value.signed.SnapshotMeta().value.version)
  }

  /** The version of targets.json that the held snapshot pins. */
  function PinnedTargetsVersion(st: TrustedState): Option<Version> {
    if st.snapshot.None? || "targets.json" !in st.snapshot.value.signed.meta then None
    else Some(st.snapshot.value.signed.meta["targets.json"].version)
  }

  function SnapshotReusable(env: Env, st: TrustedState, pinned: Version, now: int): Result<bool, TufError> {
    if st.snapshot.None? then Success(false)
    else Reusable(env, st.snapshot.value.signed.version, st.snapshot.value.signed.expires, pinned, now)
  }

  function TargetsReusable(env: Env, st: TrustedState, now: int): Result<bool, TufError> {
    if "targets" !in st.targets || PinnedTargetsVersion(st).None? then Success(false)
    else Reusable(env, st.targets["targets"].signed.version, st.targets["targets"].signed.expires,
      PinnedTargetsVersion(st).value, now)
  }

  ghost function RefreshSnapshot(c: Client, st: ClientState, now: int): Refreshed {
    var pinned := PinnedSnapshotVersion(st.trusted);
    if pinned.None? then Quiet(Failure(Malformed), st)
    else
      var checked := Freshness(c.env, st.trusted.timestamp.value.signed.expires, "timestamp", now);
      if checked.Failure? then Quiet(checked, st)
      else
        match SnapshotReusable(c.env, st.trusted, pinned.value, now)
        case Failure(error) => Quiet(Failure(error), st)
        case Success(reuse) => if reuse then Quiet(OK, st) else FetchSnapshot(c, st, pinned.value, now)
  }

  /** The name that a snapshot is fetched under. */
  function SnapshotName(st: TrustedState, pinned: Version): string {
    if st.root.signed.consistentSnapshot then VersionPrefix(pinned) + "snapshot.json" else "snapshot.json"
  }

  ghost function FetchSnapshot(c: Client, st: ClientState, pinned: Version, now: int): Refreshed {
    var after := st.(calls := st.calls + 1);
    var name := SnapshotName(st.trusted, pinned);
    match c.repo(st.calls, name, c.config.snapshotMaxLength)
    case Broken => Quiet(Failure(Transport), after)
    case NotFound => Quiet(Failure(Transport), after)
    case Found(bytes) =>
      Adopt(after, SnapshotStep(c.env, st.trusted, bytes, now), [Write(name, bytes), Write("snapshot.json", bytes)])
  }

  /** An update whose failure is reported; what passes is stored. */
  function Adopt(st: ClientState, outcome: Outcome, writes: seq<Write>): Refreshed {
    match outcome
    case Success(t) => Refreshed(OK, st.(trusted := t), writes)
    case Failure(error) => Quiet(Failure(error), st)
  }

  ghost function RefreshTargets(c: Client, st: ClientState, now: int): Refreshed {
    var checked := if st.trusted.snapshot.None? then OK
                 else Freshness(c.env, st.trusted.snapshot.value.signed.expires, "snapshot", now);
    if checked.Failure? then Quiet(checked, st)
    else
      match TargetsReusable(c.env, st.trusted, now)
      case Failure(error) => Quiet(Failure(error), st)
      case Success(reuse) => if reuse then Quiet(OK, st) else FetchTargets(c, st, now)
  }

  ghost function FetchTargets(c: Client, st: ClientState, now: int): Refreshed {
    match TargetsFileName(st.trusted, "targets")
    case Failure(error) => Quiet(Failure(error), st)
    case Success(name) =>
      var after := st.(calls := st.calls + 1);
      match c.repo(st.calls, name, c.config.targetsMaxLength)
      case Broken => Quiet(Failure(Transport), after)
      case NotFound => Quiet(Failure(Transport), after)
      case Found(bytes) =>
        Adopt(after, TargetsStep(c.env, st.trusted, bytes, now), [Write("targets.json", bytes)])
  }

  // ----- The whole workflow

  /** refresh. */
  ghost function Refresh(c: Client, st: ClientState, blobs: Blobs, now: int): Refreshed {
    var r := RefreshRoot(c, st);
    if r.result.Failure? then r else After(r.writes, RefreshLower(c, r.st, blobs, now))
  }

  /** Everything below the root, once the root is up to date. */
  ghost function RefreshLower(c: Client, st: ClientState, blobs: Blobs, now: int): Refreshed {
    var checked := Freshness(c.env, st.trusted.root.signed.expires, "root", now);
    if checked.Failure? then Quiet(checked, st)
    else RefreshFromTimestamp(c, st.(trusted := Seeded(c.env, st.trusted, blobs, now)), now)
  }

  ghost function RefreshFromTimestamp(c: Client, st: ClientState, now: int): Refreshed {
    var r := RefreshTimestamp(c, st, now);
    if r.result.Failure? then r else After(r.writes, RefreshFromSnapshot(c, r.st, now))
  }

  ghost function RefreshFromSnapshot(c: Client, st: ClientState, now: int): Refreshed {
    var r := RefreshSnapshot(c, st, now);
    if r.result.Failure? then r else After(r.writes, RefreshTargets(c, r.st, now))
  }

  // ----- What a successful refresh means

  /** Nothing has expired, and the versions are those that the level above pins. */
  predicate Current(env: Env, st: TrustedState, now: int) {
    && Fresh(env, st.root.signed.expires, now)
    && SnapshotCurrent(env, st, now)
    && "targets" in st.targets && Fresh(env, st.targets["targets"].signed.expires, now)
    && PinnedTargetsVersion(st) == Some(st.targets["targets"].signed.version)
  }

  predicate SnapshotCurrent(env: Env, st: TrustedState, now: int) {
    && st.timestamp.Some? && Fresh(env, st.timestamp.value.signed.expires, now)
    && st.snapshot.Some? && Fresh(env, st.snapshot.value.signed.expires, now)
    && PinnedSnapshotVersion(st) == Some(st.snapshot.value.signed.version)
  }

  lemma {:induction false} SnapshotStageCurrent(c: Client, st: ClientState, now: int)
    requires RefreshSnapshot(c, st, now).result.Success?
    ensures var after := RefreshSnapshot(c, st, now).st.trusted;
            SnapshotCurrent(c.env, after, now) && after.root == st.trusted.root
  {
    var pinned := PinnedSnapshotVersion(st.trusted).value;
    if SnapshotReusable(c.env, st.trusted, pinned, now) == Success(false) {
      FetchedSnapshotCurrent(c, st, pinned, now);
    }
  }

  lemma {:induction false} FetchedSnapshotCurrent(c: Client, st: ClientState, pinned: Version, now: int)
    requires PinnedSnapshotVersion(st.trusted) == Some(pinned)
              && Fresh(c.env, st.trusted.timestamp.value.signed.expires, now)
    requires FetchSnapshot(c, st, pinned, now).result.Success?
    ensures var after := FetchSnapshot(c, st, pinned, now).st.trusted;
            SnapshotCurrent(c.env, after, now) && after.root == st.trusted.root
  {
    hide VersionPrefix, ThresholdResult;
    var bytes :| SnapshotStep(c.env, st.trusted, bytes, now) == Success(FetchSnapshot(c, st, pinned, now).st.trusted);
    SnapshotEffect(c.env, st.trusted, bytes, now);
  }

  lemma {:induction false} TargetsStageCurrent(c: Client, st: ClientState, now: int)
    requires Fresh(c.env, st.trusted.root.signed.expires, now) && SnapshotCurrent(c.env, st.trusted, now)
    requires RefreshTargets(c, st, now).result.Success?
    ensures Current(c.env, RefreshTargets(c, st, now).st.trusted, now)
  {
    if TargetsReusable(c.env, st.trusted, now) == Success(false) {
      FetchedTargetsCurrent(c, st, now);
    }
  }

  lemma {:induction false} FetchedTargetsCurrent(c: Client, st: ClientState, now: int)
    requires Fresh(c.env, st.trusted.root.signed.expires, now) && SnapshotCurrent(c.env, st.trusted, now)
    requires FetchTargets(c, st, now).result.Success?
    ensures Current(c.env, FetchTargets(c, st, now).st.trusted, now)
  {
    hide EncodedRole, VersionPrefix, ThresholdResult;
    var bytes :| TargetsStep(c.env, st.trusted, bytes, now) == Success(FetchTargets(c, st, now).st.trusted);
    TargetsEffect(c.env, st.trusted, bytes, now);
    assert TargetsPinned(FetchTargets(c, st, now).st.trusted, "targets");
    assert "targets" + ".json" == "targets.json";
  }

  lemma {:induction false} FromSnapshotCurrent(c: Client, st: ClientState, now: int)
    requires Fresh(c.env, st.trusted.root.signed.expires, now) && RefreshFromSnapshot(c, st, now).result.Success?
    ensures Current(c.env, RefreshFromSnapshot(c, st, now).st.trusted, now)
  {
    SnapshotStageCurrent(c, st, now);
    TargetsStageCurrent(c, RefreshSnapshot(c, st, now).st, now);
  }

  lemma {:induction false} TimestampStageKeepsRoot(c: Client, st: ClientState, now: int)
    ensures RefreshTimestamp(c, st, now).st.trusted.root == st.trusted.root
  {
  }

  lemma {:induction false} FromTimestampCurrent(c: Client, st: ClientState, now: int)
    requires Fresh(c.env, st.trusted.root.signed.expires, now) && RefreshFromTimestamp(c, st, now).result.Success?
    ensures Current(c.env, RefreshFromTimestamp(c, st, now).st.trusted, now)
  {
    TimestampStageKeepsRoot(c, st, now);
    FromSnapshotCurrent(c, RefreshTimestamp(c, st, now).st, now);
  }

  lemma {:induction false} LowerCurrent(c: Client, st: ClientState, blobs: Blobs, now: int)
    requires RefreshLower(c, st, blobs, now).result.Success?
    ensures Current(c.env, RefreshLower(c, st, blobs, now).st.trusted, now)
  {
    SeededForward(c.env, st.trusted, blobs, now);
    FromTimestampCurrent(c, st.(trusted := Seeded(c.env, st.trusted, blobs, now)), now);
  }

  /**
   * Whatever the repository answers and the store holds: after a successful refresh nothing that is
   * trusted has expired, and the snapshot and the targets are exactly the pinned versions.
   */
  lemma {:induction false} RefreshedIsCurrent(c: Client, st: ClientState, blobs: Blobs, now: int)
    ensures var r := Refresh(c, st, blobs, now);
            r.result.Success? ==> Current(c.env, r.st.trusted, now)
  {
    hide RefreshRoot, RefreshLower;
    if Refresh(c, st, blobs, now).result.Success? {
      LowerCurrent(c, RefreshRoot(c, st).st, blobs, now);
    }
  }

  // ----- Nothing moves back

  lemma {:induction false} TimestampForward(env: Env, st: TrustedState, bytes: Bytes, now: int)
    ensures NoRollback(st, BestEffort(st, TimestampStep(env, st, bytes, now)))
  {
    if TimestampStep(env, st, bytes, now).Success? {
      TimestampEffect(env, st, bytes, now);
    }
  }

  lemma {:induction false} SnapshotForward(env: Env, st: TrustedState, bytes: Bytes, now: int)
    ensures NoRollback(st, BestEffort(st, SnapshotStep(env, st, bytes, now)))
  {
    if SnapshotStep(env, st, bytes, now).Success? {
      SnapshotEffect(env, st, bytes, now);
    }
  }

  lemma {:induction false} TargetsForward(env: Env, st: TrustedState, bytes: Bytes, now: int)
    ensures NoRollback(st, BestEffort(st, TargetsStep(env, st, bytes, now)))
  {
    if TargetsStep(env, st, bytes, now).Success? {
      TargetsEffect(env, st, bytes, now);
    }
  }

  lemma {:induction false} SeedTimestampForward(env: Env, st: TrustedState, blobs: Blobs, now: int)
    ensures NoRollback(st, SeedTimestamp(env, st, blobs, now))
  {
    if "timestamp.json" in blobs { TimestampForward(env, st, blobs["timestamp.json"], now); }
  }

  lemma {:induction false} SeedSnapshotForward(env: Env, st: TrustedState, blobs: Blobs, now: int)
    ensures NoRollback(st, SeedSnapshot(env, st, blobs, now))
  {
    if "snapshot.json" in blobs { SnapshotForward(env, st, blobs["snapshot.json"], now); }
  }

  lemma {:induction false} SeedTargetsForward(env: Env, st: TrustedState, blobs: Blobs, now: int)
    ensures NoRollback(st, SeedTargets(env, st, blobs, now))
  {
    if "targets.json" in blobs { TargetsForward(env, st, blobs["targets.json"], now); }
  }

  lemma {:induction false} SeededForward(env: Env, st: TrustedState, blobs: Blobs, now: int)
    ensures NoRollback(st, Seeded(env, st, blobs, now))
  {
    var a := SeedTimestamp(env, st, blobs, now);
    var b := SeedSnapshot(env, a, blobs, now);
    SeedTimestampForward(env, st, blobs, now);
    SeedSnapshotForward(env, a, blobs, now);
    SeedTargetsForward(env, b, blobs, now);
    NoRollbackTransitive(st, a, b);
    NoRollbackTransitive(st, b, SeedTargets(env, b, blobs, now));
  }

  lemma {:induction false} TimestampStageForward(c: Client, st: ClientState, now: int)
    ensures NoRollback(st.trusted, RefreshTimestamp(c, st, now).st.trusted)
  {
    var reply := c.repo(st.calls, "timestamp.json", c.config.timestampMaxLength);
    if reply.Found? { TimestampForward(c.env, st.trusted, reply.bytes, now); }
  }

  lemma {:induction false} SnapshotStageForward(c: Client, st: ClientState, now: int)
    ensures NoRollback(st.trusted, RefreshSnapshot(c, st, now).st.trusted)
  {
    var pinned := PinnedSnapshotVersion(st.trusted);
    if pinned.Some? { FetchSnapshotForward(c, st, pinned.value, now); }
  }

  lemma {:induction false} FetchSnapshotForward(c: Client, st: ClientState, pinned: Version, now: int)
    ensures NoRollback(st.trusted, FetchSnapshot(c, st, pinned, now).st.trusted)
  {
    var name := SnapshotName(st.trusted, pinned);
    var reply := c.repo(st.calls, name, c.config.snapshotMaxLength);
    if reply.Found? { SnapshotForward(c.env, st.trusted, reply.bytes, now); }
  }

  lemma {:induction false} FetchTargetsForward(c: Client, st: ClientState, now: int)
    ensures NoRollback(st.trusted, FetchTargets(c, st, now).st.trusted)
  {
    var name := TargetsFileName(st.trusted, "targets");
    if name.Success? {
      var reply := c.repo(st.calls, name.value, c.config.targetsMaxLength);
      if reply.Found? { TargetsForward(c.env, st.trusted, reply.bytes, now); }
    }
  }

  lemma {:induction false} TargetsStageForward(c: Client, st: ClientState, now: int)
    ensures NoRollback(st.trusted, RefreshTargets(c, st, now).st.trusted)
  {
    FetchTargetsForward(c, st, now);
  }

  lemma {:induction false} FromSnapshotForward(c: Client, st: ClientState, now: int)
    ensures NoRollback(st.trusted, RefreshFromSnapshot(c, st, now).st.trusted)
  {
    var r := RefreshSnapshot(c, st, now);
    SnapshotStageForward(c, st, now);
    TargetsStageForward(c, r.st, now);
    NoRollbackTransitive(st.trusted, r.st.trusted, RefreshTargets(c, r.st, now).st.trusted);
  }

  lemma {:induction false} FromTimestampForward(c: Client, st: ClientState, now: int)
    ensures NoRollback(st.trusted, RefreshFromTimestamp(c, st, now).st.trusted)
  {
    var r := RefreshTimestamp(c, st, now);
    TimestampStageForward(c, st, now);
    FromSnapshotForward(c, r.st, now);
    NoRollbackTransitive(st.trusted, r.st.trusted, RefreshFromSnapshot(c, r.st, now).st.trusted);
  }

  lemma {:induction false} LowerForward(c: Client, st: ClientState, blobs: Blobs, now: int)
    ensures NoRollback(st.trusted, RefreshLower(c, st, blobs, now).st.trusted)
    ensures Fresh(c.env, st.trusted.root.signed.expires, now) ==>
              NoRollback(Seeded(c.env, st.trusted, blobs, now), RefreshLower(c, st, blobs, now).st.trusted)
  {
    var seeded := Seeded(c.env, st.trusted, blobs, now);
    SeededForward(c.env, st.trusted, blobs, now);
    FromTimestampForward(c, st.(trusted := seeded), now);
    NoRollbackTransitive(st.trusted, seeded, RefreshFromTimestamp(c, st.(trusted := seeded), now).st.trusted);
  }

  /**
   * Walking the roots adopts at most `left` of them, one version at a time; it succeeds only with
   * fewer than that, when the repository has no next root.
   */
  lemma {:induction false} RootWalkCounts(c: Client, st: ClientState, left: nat)
    ensures var r := RootWalk(c, st, left);
            var adopted := r.st.trusted.root.signed.version - st.trusted.root.signed.version;
            && 0 <= adopted <= left
            && (r.result.Success? ==>
                  && adopted < left && r.st.calls == st.calls + adopted + 1
                  && c.repo(r.st.calls - 1, RootName(r.st.trusted.root.signed.version + 1),
                    c.config.rootMaxLength).NotFound?)
    decreases left
  {
    hide RootStep, RootName, RootWrites;
    if left > 0 {
      var reply := c.repo(st.calls, RootName(st.trusted.root.signed.version + 1), c.config.rootMaxLength);
      if reply.Found? && RootStep(c.env, st.trusted, reply.bytes).Success? {
        var t := RootStep(c.env, st.trusted, reply.bytes).value;
        RootStepCounts(c.env, st.trusted, reply.bytes);
        RootWalkCounts(c, ClientState(t, st.calls + 1), left - 1);
      }
    }
  }

  lemma {:induction false} RootWalkUnmoved(c: Client, st: ClientState, left: nat)
    requires RootWalk(c, st, left).st.trusted.root.signed.version == st.trusted.root.signed.version
    ensures RootWalk(c, st, left).st.trusted == st.trusted
  {
    hide RootStep;
    if left > 0 {
      var reply := c.repo(st.calls, RootName(st.trusted.root.signed.version + 1), c.config.rootMaxLength);
      if reply.Found? && RootStep(c.env, st.trusted, reply.bytes).Success? {
        RootStepCounts(c.env, st.trusted, reply.bytes);
        RootWalkCounts(c, ClientState(RootStep(c.env, st.trusted, reply.bytes).value, st.calls + 1), left - 1);
      }
    }
  }

  /** The root moves forward or stays, and then nothing below it moves back, whether or not the refresh succeeds. */
  lemma {:induction false} RefreshNeverMovesBack(c: Client, st: ClientState, blobs: Blobs, now: int)
    ensures var after := Refresh(c, st, blobs, now).st.trusted;
            && st.trusted.root.signed.version <= after.root.signed.version
            && (st.trusted.root.signed.version == after.root.signed.version ==> NoRollback(st.trusted, after))
  {
    hide RootWalk, RefreshLower;
    RootWalkCounts(c, st, c.config.maxRootRotations);
    if RootWalk(c, st, c.config.maxRootRotations).st.trusted.root.signed.version == st.trusted.root.signed.version {
      RootWalkUnmoved(c, st, c.config.maxRootRotations);
    }
    LowerForward(c, RefreshRoot(c, st).st, blobs, now);
  }

  // ----- The store as a floor

  /** The root is up to date, so that the lower roles are looked at. */
  ghost predicate RootReady(c: Client, st: ClientState, now: int) {
    RefreshRoot(c, st).result.Success? && Fresh(c.env, RefreshRoot(c, st).st.trusted.root.signed.expires, now)
  }

  ghost function Rooted(c: Client, st: ClientState): TrustedState {
    RefreshRoot(c, st).st.trusted
  }

  lemma {:induction false} GoodTimestampSeeds(env: Env, st: TrustedState, blobs: Blobs, ts: Metadata<Timestamp>,
        now: int)
    requires st.timestamp.None? && "timestamp.json" in blobs
    requires GoodTimestamp(env, st.root.signed, blobs["timestamp.json"], ts, now)
    ensures SeedTimestamp(env, st, blobs, now) == st.(timestamp := Some(ts))
  {
  }

  /** A client that holds no timestamp yet cannot end below the stored one. */
  lemma {:induction false} StoredTimestampIsFloor(c: Client, st: ClientState, blobs: Blobs, ts: Metadata<Timestamp>,
        now: int)
    requires RootReady(c, st, now) && Rooted(c, st).timestamp.None? && "timestamp.json" in blobs
    requires GoodTimestamp(c.env, Rooted(c, st).root.signed, blobs["timestamp.json"], ts, now)
    ensures var after := Refresh(c, st, blobs, now).st.trusted;
            after.timestamp.Some? && ts.signed.version <= after.timestamp.value.signed.version
  {
    var rooted, after := Rooted(c, st), Refresh(c, st, blobs, now).st.trusted;
    GoodTimestampSeeds(c.env, rooted, blobs, ts, now);
    SeededFromTimestamp(c.env, rooted, blobs, now);
    LowerForward(c, RefreshRoot(c, st).st, blobs, now);
    NoRollbackTransitive(SeedTimestamp(c.env, rooted, blobs, now), Seeded(c.env, rooted, blobs, now), after);
  }

  /** A stored timestamp that is signed under the root is taken up exactly while it is unexpired. */
  lemma {:induction false} StoredTimestampTakenUpIff(env: Env, st: TrustedState, blobs: Blobs, ts: Metadata<Timestamp>,
        now: int)
    requires st.timestamp.None? && "timestamp.json" in blobs
    requires Parsed(env, "timestamp", env.asTimestamp, blobs["timestamp.json"]) == Success(ts)
    requires SignedBy(env, ts, st.root.signed, "timestamp")
    ensures SeedTimestamp(env, st, blobs, now).timestamp == Some(ts) <==> Fresh(env, ts.signed.expires, now)
    ensures !Fresh(env, ts.signed.expires, now) ==> SeedTimestamp(env, st, blobs, now) == st
  {
    hide Parsed, ThresholdResult;
  }

  lemma {:induction false} NothingSeeded(env: Env, st: TrustedState, blobs: Blobs, now: int)
    requires st.timestamp.None? && st.snapshot.None? && SeedTimestamp(env, st, blobs, now) == st
    ensures Seeded(env, st, blobs, now) == st
  {
    hide Parsed, TimestampStep;
  }

  /**
   * An expired one is no floor: a client that holds nothing below the root ends with whatever good timestamp
   * the repository serves, of any version.
   */
  lemma {:induction false} ExpiredTimestampIsNoFloor(c: Client, st: ClientState, blobs: Blobs, ts: Metadata<Timestamp>,
        now: int, file: Bytes, served: Metadata<Timestamp>)
    requires RootReady(c, st, now) && Rooted(c, st).timestamp.None? && Rooted(c, st).snapshot.None?
    requires "timestamp.json" in blobs
    requires Parsed(c.env, "timestamp", c.env.asTimestamp, blobs["timestamp.json"]) == Success(ts)
    requires SignedBy(c.env, ts, Rooted(c, st).root.signed, "timestamp") && !Fresh(c.env, ts.signed.expires, now)
    requires c.repo(RefreshRoot(c, st).st.calls, "timestamp.json", c.config.timestampMaxLength) == Found(file)
    requires GoodTimestamp(c.env, Rooted(c, st).root.signed, file, served, now)
    ensures Refresh(c, st, blobs, now).st.trusted.timestamp == Some(served)
  {
    hide Parsed, SignedBy, TimestampStep, RefreshRoot, GoodTimestamp;
    var root := RefreshRoot(c, st);
    StoredTimestampTakenUpIff(c.env, root.st.trusted, blobs, ts, now);
    NothingSeeded(c.env, root.st.trusted, blobs, now);
    GoodTimestampAccepted(c.env, root.st.trusted, file, served, now);
    FromSnapshotKeepsTimestamp(c, RefreshTimestamp(c, root.st, now).st, now);
  }

  lemma {:induction false} FromSnapshotKeepsTimestamp(c: Client, st: ClientState, now: int)
    ensures RefreshFromSnapshot(c, st, now).st.trusted.timestamp == st.trusted.timestamp
  {
    hide SnapshotStep, TargetsStep, SnapshotName, TargetsFileName, SnapshotReusable, TargetsReusable;
    var second := RefreshSnapshot(c, st, now);
    var pinned := PinnedSnapshotVersion(st.trusted);
    if pinned.Some? {
      var reply := c.repo(st.calls, SnapshotName(st.trusted, pinned.value), c.config.snapshotMaxLength);
      if reply.Found? && SnapshotStep(c.env, st.trusted, reply.bytes, now).Success? {
        SnapshotEffect(c.env, st.trusted, reply.bytes, now);
      }
    }
    var name := TargetsFileName(second.st.trusted, "targets");
    if name.Success? {
      var reply := c.repo(second.st.calls, name.value, c.config.targetsMaxLength);
      if reply.Found? && TargetsStep(c.env, second.st.trusted, reply.bytes, now).Success? {
        TargetsEffect(c.env, second.st.trusted, reply.bytes, now);
      }
    }
  }

  lemma {:induction false} SeededFromTimestamp(env: Env, st: TrustedState, blobs: Blobs, now: int)
    ensures NoRollback(SeedTimestamp(env, st, blobs, now), Seeded(env, st, blobs, now))
    ensures NoRollback(SeedSnapshot(env, SeedTimestamp(env, st, blobs, now), blobs, now), Seeded(env, st, blobs, now))
  {
    var a := SeedTimestamp(env, st, blobs, now);
    var b := SeedSnapshot(env, a, blobs, now);
    SeedSnapshotForward(env, a, blobs, now);
    SeedTargetsForward(env, b, blobs, now);
    NoRollbackTransitive(a, b, SeedTargets(env, b, blobs, now));
  }

  /** If the stored snapshot is adopted, then no pin of it can be missing or lower in the end. */
  lemma {:induction false} StoredSnapshotIsFloor(c: Client, st: ClientState, blobs: Blobs, now: int)
    requires RootReady(c, st, now) && "snapshot.json" in blobs
    requires SnapshotStep(c.env, SeedTimestamp(c.env, Rooted(c, st), blobs, now), blobs["snapshot.json"], now).Success?
    ensures var seeded := SeedTimestamp(c.env, Rooted(c, st), blobs, now);
            var stored := SnapshotStep(c.env, seeded, blobs["snapshot.json"], now).value.snapshot;
            var after := Refresh(c, st, blobs, now).st.trusted;
            stored.Some? && after.snapshot.Some? && PinsKept(stored.value.signed.meta, after.snapshot.value.signed.meta)
  {
    var rooted, after := Rooted(c, st), Refresh(c, st, blobs, now).st.trusted;
    var adopted := SeedSnapshot(c.env, SeedTimestamp(c.env, rooted, blobs, now), blobs, now);
    SnapshotEffect(c.env, SeedTimestamp(c.env, rooted, blobs, now), blobs["snapshot.json"], now);
    SeededFromTimestamp(c.env, rooted, blobs, now);
    LowerForward(c, RefreshRoot(c, st).st, blobs, now);
    NoRollbackTransitive(adopted, Seeded(c.env, rooted, blobs, now), after);
  }

  /** What one run accepted, another one accepts again, as long as it has not expired. */
  lemma {:induction false} SnapshotAcceptedAgain(env: Env, first: TrustedState, bytes: Bytes, earlier: int,
        second: TrustedState, now: int)
    requires SnapshotStep(env, first, bytes, earlier).Success?
    requires second.root.signed == first.root.signed && second.timestamp == first.timestamp && second.snapshot.None?
    requires Fresh(env, first.timestamp.value.signed.expires, now)
    requires Fresh(env, SnapshotStep(env, first, bytes, earlier).value.snapshot.value.signed.expires, now)
    ensures SnapshotStep(env, second, bytes, now).Success?
    ensures SnapshotStep(env, second, bytes, now).value.snapshot ==
            SnapshotStep(env, first, bytes, earlier).value.snapshot
  {
  }

  // ----- The files that seed

  /** The files that seed the lower roles. */
  predicate SeedFile(name: string) {
    name == "timestamp.json" || name == "snapshot.json" || name == "targets.json"
  }

  ghost predicate SameSeeds(a: Blobs, b: Blobs) {
    forall name | SeedFile(name) :: if name in a then name in b && b[name] == a[name] else name !in b
  }

  lemma {:induction false} RootFilesAreNotSeeds(version: nat)
    ensures !SeedFile(StoredRootName(version)) && !SeedFile("root.json")
  {
    hide Numeral;
    assert StoredRootName(version)[0] == 'r';
  }

  predicate NoSeeds(writes: seq<Write>) {
    forall i :: 0 <= i < |writes| ==> !SeedFile(writes[i].name)
  }

  lemma {:induction false} SeedsUnwritten(a: Blobs, o: seq<bool>, ws: seq<Write>, b: Blobs, p: seq<bool>)
    requires Wrote(a, o, ws, b, p) && NoSeeds(ws)
    ensures SameSeeds(a, b)
  {
    forall name | SeedFile(name) ensures if name in a then name in b && b[name] == a[name] else name !in b {
      EachFileUnchangedOrWritten(a, ws, p, |o|, |ws|, name);
    }
  }

  lemma {:induction false} RootWritesNoSeed(c: Client, st: ClientState)
    ensures NoSeeds(RefreshRoot(c, st).writes)
  {
    hide RootWalk;
    RootWalkNoSeed(c, st, c.config.maxRootRotations);
  }

  lemma {:induction false} RootWalkNoSeed(c: Client, st: ClientState, left: nat)
    ensures NoSeeds(RootWalk(c, st, left).writes)
    decreases left
  {
    hide RootStep, Numeral, StoredRootName, SeedFile;
    if left > 0 {
      var reply := c.repo(st.calls, RootName(st.trusted.root.signed.version + 1), c.config.rootMaxLength);
      if reply.Found? && RootStep(c.env, st.trusted, reply.bytes).Success? {
        var t := RootStep(c.env, st.trusted, reply.bytes).value;
        RootFilesAreNotSeeds(t.root.signed.version);
        RootWalkNoSeed(c, ClientState(t, st.calls + 1), left - 1);
      }
    }
  }

  lemma {:induction false} SameSeedsSeedTheSame(env: Env, st: TrustedState, a: Blobs, b: Blobs, now: int)
    requires SameSeeds(a, b)
    ensures Seeded(env, st, a, now) == Seeded(env, st, b, now)
  {
    hide TimestampStep, SnapshotStep, TargetsStep;
    assert SeedFile("timestamp.json") && SeedFile("snapshot.json") && SeedFile("targets.json");
  }

  // ----- Stored roots

  /** The names under which the roots after `low`, up to `high`, are stored. */
  function StoredNames(low: nat, high: nat): set<string> {
    set v | low < v <= high :: StoredRootName(v)
  }

  lemma {:induction false} StoredNamesDistinct(low: nat, high: nat)
    requires low <= high
    ensures |StoredNames(low, high)| == high - low
    decreases high
  {
    if low == high {
      assert StoredNames(low, high) == {};
    } else {
      StoredNamesDistinct(low, high - 1);
      forall v | low < v < high ensures StoredRootName(v) != StoredRootName(high) {
        StoredNameInjective(v, high);
      }
      assert StoredNames(low, high) == StoredNames(low, high - 1) + {StoredRootName(high)};
    }
  }

  lemma {:induction false} StoredNameInjective(a: nat, b: nat)
    ensures StoredRootName(a) == StoredRootName(b) ==> a == b
  {
    hide Numeral;
    if StoredRootName(a) == StoredRootName(b) {
      var p, q := "root_history/", ".root.json";
      var n := StoredRootName(a);
      assert n == p + (Numeral(a) + q) && n == p + (Numeral(b) + q);
      assert Numeral(a) == n[|p|..|n| - |q|] && Numeral(b) == n[|p|..|n| - |q|];
      NumeralInjective(a, b);
    }
  }

  lemma {:induction false} RootStepCounts(env: Env, st: TrustedState, bytes: Bytes)
    ensures RootStep(env, st, bytes).Success? ==>
              RootStep(env, st, bytes).value.root.signed.version == st.root.signed.version + 1
  {
  }

  predicate Stored(blobs: Blobs, version: nat) {
    StoredRootName(version) in blobs
  }

  /** The next root is not in the store, or is not accepted. */
  ghost predicate NoNextStored(env: Env, st: TrustedState, blobs: Blobs) {
    Stored(blobs, st.root.signed.version + 1) ==>
      RootStep(env, st, blobs[StoredRootName(st.root.signed.version + 1)]).Failure?
  }

  /** Adopting stored roots goes through consecutive versions, and stops where the next one is missing or bad. */
  lemma {:induction false} AdoptStoredStops(env: Env, st: TrustedState, blobs: Blobs)
    requires AdoptStored(env, st, blobs).Success?
    ensures var after := AdoptStored(env, st, blobs).value;
            && st.root.signed.version <= after.root.signed.version
            && NoNextStored(env, after, blobs)
            && forall v :: st.root.signed.version < v <= after.root.signed.version ==> Stored(blobs, v)
    decreases U64_LIMIT - st.root.signed.version
  {
    hide RootStep, Numeral;
    if !NoNextStored(env, st, blobs) {
      var next := RootStep(env, st, blobs[StoredRootName(st.root.signed.version + 1)]).value;
      RootStepCounts(env, st, blobs[StoredRootName(st.root.signed.version + 1)]);
      AdoptStoredStops(env, next, blobs);
    }
  }

  /** It does not fail because of what is stored: a root that is not accepted is left alone. */
  lemma {:induction false} AdoptStoredFailsOnlyAtLimit(env: Env, st: TrustedState, blobs: Blobs)
    requires AdoptStored(env, st, blobs).Failure?
    ensures AdoptStored(env, st, blobs) == Failure(Overflow)
    ensures forall v :: st.root.signed.version < v < U64_LIMIT ==> Stored(blobs, v)
    decreases U64_LIMIT - st.root.signed.version
  {
    hide RootStep, Numeral;
    if st.root.signed.version + 1 < U64_LIMIT {
      var bytes := blobs[StoredRootName(st.root.signed.version + 1)];
      RootStepCounts(env, st, bytes);
      AdoptStoredFailsOnlyAtLimit(env, RootStep(env, st, bytes).value, blobs);
    }
  }

  /** However large the store: it takes at most as many steps as there are files. */
  lemma {:induction false} AdoptedAtMostStored(env: Env, st: TrustedState, blobs: Blobs)
    requires AdoptStored(env, st, blobs).Success?
    ensures AdoptStored(env, st, blobs).value.root.signed.version - st.root.signed.version <= |blobs|
  {
    var after := AdoptStored(env, st, blobs).value;
    AdoptStoredStops(env, st, blobs);
    var names := StoredNames(st.root.signed.version, after.root.signed.version);
    StoredNamesDistinct(st.root.signed.version, after.root.signed.version);
    forall name | name in names ensures name in blobs.Keys {
      var v :| st.root.signed.version < v <= after.root.signed.version && name == StoredRootName(v);
      assert Stored(blobs, v);
    }
    SubsetSize(names, blobs.Keys);
  }
}
