/**
 * Two runs of the client with one store: what the first one leaves in it, what the second one takes from
 * it, and in which case a pin can nevertheless be lost in between.
 */
module TufRestart {
  import opened Prelude
  import opened TufMetadata
  import opened TufTrusted
  import opened TufHistory
  import opened TufDelegation
  import opened TufRefresh
  import opened TufStore
  import opened Decimal

  // ----- The store holds the files of what is trusted

  ghost predicate TimestampKept(env: Env, t: TrustedState, b: Blobs) {
    t.timestamp.Some? ==>
      "timestamp.json" in b &&
      Parsed(env, "timestamp", env.asTimestamp, b["timestamp.json"]) == Success(t.timestamp.value)
  }

  ghost predicate SnapshotKept(env: Env, t: TrustedState, b: Blobs) {
    t.snapshot.Some? ==>
      "snapshot.json" in b && Parsed(env, "snapshot", env.asSnapshot, b["snapshot.json"]) == Success(t.snapshot.value)
  }

  ghost predicate FilesKept(env: Env, t: TrustedState, b: Blobs) {
    TimestampKept(env, t, b) && SnapshotKept(env, t, b)
  }

  /** The content of the store after a stage, if every write takes effect. */
  function AfterWrites(b: Blobs, r: Refreshed): Blobs {
    WriteAll(b, r.writes, |r.writes|)
  }

  lemma {:induction false} AfterWritesThen(b: Blobs, ws: seq<Write>, r: Refreshed)
    ensures AfterWrites(b, After(ws, r)) == AfterWrites(WriteAll(b, ws, |ws|), r)
  {
    WriteAllThen(b, ws, r.writes, |r.writes|);
  }

  lemma {:induction false} TimestampParsed(env: Env, st: TrustedState, bytes: Bytes, now: int)
    requires TimestampStep(env, st, bytes, now).Success?
    ensures var after := TimestampStep(env, st, bytes, now).value;
            && after == st.(timestamp := after.timestamp) && after.timestamp.Some?
            && Parsed(env, "timestamp", env.asTimestamp, bytes) == Success(after.timestamp.value)
  {
    hide Parsed, RootAuthority, TimestampAdvance, Freshness;
  }

  lemma {:induction false} SnapshotParsed(env: Env, st: TrustedState, bytes: Bytes, now: int)
    requires SnapshotStep(env, st, bytes, now).Success?
    ensures var after := SnapshotStep(env, st, bytes, now).value;
            && after == st.(snapshot := after.snapshot, targets := map[]) && after.snapshot.Some?
            && Parsed(env, "snapshot", env.asSnapshot, bytes) == Success(after.snapshot.value)
            && Integrity(env, bytes, st.timestamp.value.signed.SnapshotMeta().value).Success?
  {
    hide Parsed, RootAuthority, Integrity, SnapshotAdvance, Freshness;
  }

  lemma {:induction false} TargetsStepKeepsFiles(env: Env, st: TrustedState, bytes: Bytes, now: int, b: Blobs)
    requires FilesKept(env, st, b)
    ensures FilesKept(env, BestEffort(st, TargetsStep(env, st, bytes, now)), b)
  {
    hide Parsed, TargetsStep;
    if TargetsStep(env, st, bytes, now).Success? { TargetsEffect(env, st, bytes, now); }
  }

  lemma {:induction false} SeedKeepsFiles(env: Env, st: TrustedState, b: Blobs, now: int)
    requires FilesKept(env, st, b)
    ensures FilesKept(env, Seeded(env, st, b, now), b)
  {
    hide Parsed, TimestampStep, SnapshotStep, TargetsStep;
    var first := SeedTimestamp(env, st, b, now);
    if "timestamp.json" in b && TimestampStep(env, st, b["timestamp.json"], now).Success? {
      TimestampParsed(env, st, b["timestamp.json"], now);
    }
    var second := SeedSnapshot(env, first, b, now);
    if "snapshot.json" in b && SnapshotStep(env, first, b["snapshot.json"], now).Success? {
      SnapshotParsed(env, first, b["snapshot.json"], now);
    }
    if "targets.json" in b {
      TargetsStepKeepsFiles(env, second, b["targets.json"], now, b);
    }
  }

  lemma {:induction false} RootWalkKeepsFiles(c: Client, st: ClientState, left: nat, b: Blobs)
    requires FilesKept(c.env, st.trusted, b)
    ensures FilesKept(c.env, RootWalk(c, st, left).st.trusted, AfterWrites(b, RootWalk(c, st, left)))
    decreases left
  {
    hide Parsed, RootStep, RootWrites, RootName;
    if left > 0 && RootRound(c, st).Adopted? {
      var round := RootRound(c, st);
      RootStepDropsLower(c.env, st.trusted,
        c.repo(st.calls, RootName(st.trusted.root.signed.version + 1), c.config.rootMaxLength).bytes);
      var after := WriteAll(b, round.writes, |round.writes|);
      RootWalkKeepsFiles(c, round.st, left - 1, after);
      AfterWritesThen(b, round.writes, RootWalk(c, round.st, left - 1));
    }
  }

  lemma {:induction false} RootStepDropsLower(env: Env, st: TrustedState, bytes: Bytes)
    ensures RootStep(env, st, bytes).Success? ==>
              RootStep(env, st, bytes).value == TrustedState(RootStep(env, st, bytes).value.root, None, None, map[])
  {
    hide Parsed, RootAuthority;
  }

  lemma {:induction false} TimestampStageKeepsFiles(c: Client, st: ClientState, now: int, b: Blobs)
    requires FilesKept(c.env, st.trusted, b)
    ensures var r := RefreshTimestamp(c, st, now); FilesKept(c.env, r.st.trusted, AfterWrites(b, r))
  {
    hide Parsed, TimestampStep;
    var reply := c.repo(st.calls, "timestamp.json", c.config.timestampMaxLength);
    if reply.Found? && TimestampStep(c.env, st.trusted, reply.bytes, now).Success? {
      TimestampParsed(c.env, st.trusted, reply.bytes, now);
      OneWrite(b, Write("timestamp.json", reply.bytes));
    }
  }

  lemma {:induction false} OneWrite(b: Blobs, w: Write)
    ensures WriteAll(b, [w], 1) == b[w.name := w.bytes]
  {
    assert WriteAll(b, [w], 0) == b;
  }

  lemma {:induction false} TwoWrites(b: Blobs, v: Write, w: Write)
    ensures WriteAll(b, [v, w], 2) == b[v.name := v.bytes][w.name := w.bytes]
  {
    assert WriteAll(b, [v, w], 0) == b;
    assert WriteAll(b, [v, w], 1) == b[v.name := v.bytes];
  }

  lemma {:induction false} FetchSnapshotKeepsFiles(c: Client, st: ClientState, pinned: Version, now: int, b: Blobs)
    requires FilesKept(c.env, st.trusted, b)
    ensures var r := FetchSnapshot(c, st, pinned, now); FilesKept(c.env, r.st.trusted, AfterWrites(b, r))
  {
    hide Parsed, SnapshotStep, VersionPrefix;
    var name := SnapshotName(st.trusted, pinned);
    var reply := c.repo(st.calls, name, c.config.snapshotMaxLength);
    if reply.Found? && SnapshotStep(c.env, st.trusted, reply.bytes, now).Success? {
      SnapshotParsed(c.env, st.trusted, reply.bytes, now);
      TwoWrites(b, Write(name, reply.bytes), Write("snapshot.json", reply.bytes));
      SnapshotNameIsNoOther(st.trusted, pinned);
    }
  }

  /** A versioned name starts with a digit. */
  lemma {:induction false} SnapshotNameIsNoOther(st: TrustedState, pinned: Version)
    ensures SnapshotName(st, pinned) != "timestamp.json"
    ensures SnapshotName(st, pinned) != "" && SnapshotName(st, pinned)[0] != 'r'
  {
    NumeralDigits(pinned);
    assert VersionPrefix(pinned)[0] == Numeral(pinned)[0];
  }

  lemma {:induction false} FetchTargetsKeepsFiles(c: Client, st: ClientState, now: int, b: Blobs)
    requires FilesKept(c.env, st.trusted, b)
    ensures var r := FetchTargets(c, st, now); FilesKept(c.env, r.st.trusted, AfterWrites(b, r))
  {
    hide Parsed, TargetsStep, TargetsFileName;
    var name := TargetsFileName(st.trusted, "targets");
    if name.Success? {
      var reply := c.repo(st.calls, name.value, c.config.targetsMaxLength);
      if reply.Found? {
        TargetsStepKeepsFiles(c.env, st.trusted, reply.bytes, now, b);
        OneWrite(b, Write("targets.json", reply.bytes));
      }
    }
  }

  lemma {:induction false} FromSnapshotKeepsFiles(c: Client, st: ClientState, now: int, b: Blobs)
    requires FilesKept(c.env, st.trusted, b)
    ensures var r := RefreshFromSnapshot(c, st, now); FilesKept(c.env, r.st.trusted, AfterWrites(b, r))
  {
    hide FilesKept, FetchSnapshot, FetchTargets;
    var first := RefreshSnapshot(c, st, now);
    var pinned := PinnedSnapshotVersion(st.trusted);
    if pinned.Some? { FetchSnapshotKeepsFiles(c, st, pinned.value, now, b); }
    var after := AfterWrites(b, first);
    FetchTargetsKeepsFiles(c, first.st, now, after);
    AfterWritesThen(b, first.writes, RefreshTargets(c, first.st, now));
  }

  lemma {:induction false} FromTimestampKeepsFiles(c: Client, st: ClientState, now: int, b: Blobs)
    requires FilesKept(c.env, st.trusted, b)
    ensures var r := RefreshFromTimestamp(c, st, now); FilesKept(c.env, r.st.trusted, AfterWrites(b, r))
  {
    hide FilesKept, RefreshTimestamp, RefreshFromSnapshot;
    var first := RefreshTimestamp(c, st, now);
    TimestampStageKeepsFiles(c, st, now, b);
    FromSnapshotKeepsFiles(c, first.st, now, AfterWrites(b, first));
    AfterWritesThen(b, first.writes, RefreshFromSnapshot(c, first.st, now));
  }

  lemma {:induction false} SeedsSurviveWrites(b: Blobs, ws: seq<Write>, n: nat)
    requires n <= |ws| && NoSeeds(ws)
    ensures SameSeeds(b, WriteAll(b, ws, n))
  {
    if n > 0 { SeedsSurviveWrites(b, ws, n - 1); }
  }

  /**
   * Whatever the repository answers: if the store held the files of what is trusted, it does so after a
   * refresh, successful or not, whose writes all take effect; a fresh client holds nothing at first.
   */
  lemma {:induction false} RefreshKeepsFiles(c: Client, st: ClientState, b: Blobs, now: int)
    requires FilesKept(c.env, st.trusted, b)
    ensures var r := Refresh(c, st, b, now); FilesKept(c.env, r.st.trusted, AfterWrites(b, r))
  {
    hide FilesKept, RootWalk, RefreshFromTimestamp, Seeded, SameSeeds, NoSeeds;
    var root := RefreshRoot(c, st);
    RootWalkKeepsFiles(c, st, c.config.maxRootRotations, b);
    RootWritesNoSeed(c, st);
    SeedsSurviveWrites(b, root.writes, |root.writes|);
    var after := AfterWrites(b, root);
    SameSeedsSeedTheSame(c.env, root.st.trusted, b, after, now);
    SeedKeepsFiles(c.env, root.st.trusted, after, now);
    FromTimestampKeepsFiles(c, root.st.(trusted := Seeded(c.env, root.st.trusted, b, now)), now, after);
    AfterWritesThen(b, root.writes, RefreshLower(c, root.st, b, now));
  }

  // ----- The root history

  /** Both stores have the same roots up to a version. */
  ghost predicate SameHistory(a: Blobs, b: Blobs, upTo: nat) {
    forall v: nat :: v <= upTo ==> SameRoot(a, b, v)
  }

  predicate SameRoot(a: Blobs, b: Blobs, version: nat) {
    var name := StoredRootName(version);
    if name in a then name in b && b[name] == a[name] else name !in b
  }

  /** A client that holds this root, and nothing below it. */
  function Bare(t: TrustedState): TrustedState {
    TrustedState(t.root, None, None, map[])
  }

  lemma {:induction false} RootStepBare(env: Env, st: TrustedState, bytes: Bytes)
    ensures RootStep(env, st, bytes) == RootStep(env, Bare(st), bytes)
  {
    hide Parsed, RootAuthority;
  }

  /** Follow the stored roots up to a version. */
  ghost function AdoptTo(env: Env, st: TrustedState, b: Blobs, version: nat): Option<TrustedState>
    decreases U64_LIMIT - st.root.signed.version
  {
    if st.root.signed.version == version then Some(st)
    else if st.root.signed.version > version || !Stored(b, st.root.signed.version + 1) then None
    else
      var bytes := b[StoredRootName(st.root.signed.version + 1)];
      match RootStep(env, st, bytes)
      case Failure(_) => None
      case Success(next) => RootStepCounts(env, st, bytes); AdoptTo(env, next, b, version)
  }

  lemma {:induction false} AdoptToThenOn(env: Env, st: TrustedState, b: Blobs, version: nat)
    requires AdoptTo(env, st, b, version).Some?
    ensures AdoptStored(env, st, b) == AdoptStored(env, AdoptTo(env, st, b, version).value, b)
    decreases U64_LIMIT - st.root.signed.version
  {
    hide RootStep, StoredRootName;
    if st.root.signed.version < version {
      var bytes := b[StoredRootName(st.root.signed.version + 1)];
      RootStepCounts(env, st, bytes);
      AdoptToThenOn(env, RootStep(env, st, bytes).value, b, version);
    }
  }

  lemma {:induction false} AdoptToSame(env: Env, st: TrustedState, a: Blobs, b: Blobs, version: nat)
    requires AdoptTo(env, st, a, version).Some? && SameHistory(a, b, version)
    ensures AdoptTo(env, st, b, version) == AdoptTo(env, st, a, version)
    decreases U64_LIMIT - st.root.signed.version
  {
    hide RootStep, StoredRootName;
    if st.root.signed.version < version {
      var bytes := a[StoredRootName(st.root.signed.version + 1)];
      RootStepCounts(env, st, bytes);
      assert SameRoot(a, b, st.root.signed.version + 1);
      AdoptToSame(env, RootStep(env, st, bytes).value, a, b, version);
    }
  }

  lemma {:induction false} AdoptToNext(env: Env, st: TrustedState, b: Blobs, version: nat)
    requires AdoptTo(env, st, b, version).Some? && Stored(b, version + 1)
    requires RootStep(env, AdoptTo(env, st, b, version).value, b[StoredRootName(version + 1)]).Success?
    ensures AdoptTo(env, st, b, version + 1) ==
            Some(RootStep(env, AdoptTo(env, st, b, version).value, b[StoredRootName(version + 1)]).value)
    decreases U64_LIMIT - st.root.signed.version
  {
    hide RootStep, StoredRootName;
    var bytes := b[StoredRootName(st.root.signed.version + 1)];
    RootStepCounts(env, st, bytes);
    if st.root.signed.version < version {
      AdoptToNext(env, RootStep(env, st, bytes).value, b, version);
    }
  }

  /** Adopting stored roots follows them up to where it stops. */
  lemma {:induction false} AdoptStoredFollows(env: Env, st: TrustedState, b: Blobs)
    requires st == Bare(st) && AdoptStored(env, st, b).Success?
    ensures var after := AdoptStored(env, st, b).value;
            after == Bare(after) && AdoptTo(env, st, b, after.root.signed.version) == Some(after)
    decreases U64_LIMIT - st.root.signed.version
  {
    hide RootStep, StoredRootName;
    if !NoNextStored(env, st, b) {
      var bytes := b[StoredRootName(st.root.signed.version + 1)];
      var next := RootStep(env, st, bytes).value;
      RootStepCounts(env, st, bytes);
      RootStepDropsLower(env, st, bytes);
      AdoptStoredFollows(env, next, b);
      AdoptStoredStops(env, next, b);
    }
  }

  lemma {:induction false} RootWritesAt(a: Blobs, version: nat, bytes: Bytes, v: nat)
    ensures var b := WriteAll(a, RootWrites(version, bytes), 2);
            if v == version then StoredRootName(v) in b && b[StoredRootName(v)] == bytes else SameRoot(a, b, v)
  {
    hide Numeral;
    TwoWrites(a, Write(StoredRootName(version), bytes), Write("root.json", bytes));
    StoredNameInjective(v, version);
    assert StoredRootName(v)[4] == '_';
  }

  /** The stored roots lead from `boot` to the root that is held. */
  ghost predicate RootsKept(env: Env, boot: TrustedState, t: TrustedState, b: Blobs) {
    AdoptTo(env, boot, b, t.root.signed.version) == Some(Bare(t))
  }

  /** A client stores the roots that it walks to, and leaves the older ones alone. */
  lemma {:induction false} RootWalkKeepsRoots(boot: TrustedState, c: Client, st: ClientState, left: nat, b: Blobs)
    requires RootsKept(c.env, boot, st.trusted, b)
    ensures var walk := RootWalk(c, st, left); RootsKept(c.env, boot, walk.st.trusted, AfterWrites(b, walk))
    decreases left
  {
    hide RootStep, StoredRootName, RootWrites, RootName, RootsKept;
    if left > 0 && RootRound(c, st).Adopted? {
      var round := RootRound(c, st);
      var bytes := c.repo(st.calls, RootName(st.trusted.root.signed.version + 1), c.config.rootMaxLength).bytes;
      RootRoundWrites(c, st);
      NextRootKept(c.env, boot, st.trusted, bytes, b);
      RootWalkKeepsRoots(boot, c, round.st, left - 1, WriteAll(b, round.writes, |round.writes|));
      AfterWritesThen(b, round.writes, RootWalk(c, round.st, left - 1));
    }
  }

  lemma {:induction false} NextRootKept(env: Env, boot: TrustedState, t: TrustedState, bytes: Bytes, b: Blobs)
    requires RootsKept(env, boot, t, b) && RootStep(env, t, bytes).Success?
    ensures var after := WriteAll(b, RootWrites(t.root.signed.version + 1, bytes), 2);
            RootsKept(env, boot, RootStep(env, t, bytes).value, after)
  {
    hide RootStep, StoredRootName, RootWrites, AdoptTo;
    var version: nat := t.root.signed.version;
    var after := WriteAll(b, RootWrites(version + 1, bytes), 2);
    forall v: nat | v <= version ensures SameRoot(b, after, v) {
      RootWritesAt(b, version + 1, bytes, v);
    }
    AdoptToSame(env, boot, b, after, version);
    RootWritesAt(b, version + 1, bytes, version + 1);
    RootStepBare(env, t, bytes);
    RootStepCounts(env, t, bytes);
    RootStepDropsLower(env, t, bytes);
    AdoptToNext(env, boot, after, version);
  }

  lemma {:induction false} RootRoundWrites(c: Client, st: ClientState)
    requires RootRound(c, st).Adopted?
    ensures var bytes := c.repo(st.calls, RootName(st.trusted.root.signed.version + 1), c.config.rootMaxLength).bytes;
            var writes := RootRound(c, st).writes;
            writes == RootWrites(st.trusted.root.signed.version + 1, bytes) && |writes| == 2
  {
    hide RootStep, StoredRootName, RootName;
    RootStepCounts(c.env, st.trusted,
      c.repo(st.calls, RootName(st.trusted.root.signed.version + 1), c.config.rootMaxLength).bytes);
  }

  // ----- Writes below the root leave the root history alone

  predicate NoRoots(writes: seq<Write>) {
    forall i :: 0 <= i < |writes| ==> writes[i].name != "" && writes[i].name[0] != 'r'
  }

  lemma {:induction false} HistorySurvives(a: Blobs, ws: seq<Write>, n: nat, upTo: nat)
    requires n <= |ws| && NoRoots(ws)
    ensures SameHistory(a, WriteAll(a, ws, n), upTo)
  {
    hide Numeral;
    if n > 0 {
      HistorySurvives(a, ws, n - 1, upTo);
      forall v: nat | v <= upTo ensures SameRoot(a, WriteAll(a, ws, n), v) {
        assert SameRoot(a, WriteAll(a, ws, n - 1), v);
        assert StoredRootName(v)[0] == 'r';
      }
    }
  }

  lemma {:induction false} LowerWritesNoRoots(c: Client, st: ClientState, b: Blobs, now: int)
    ensures NoRoots(RefreshLower(c, st, b, now).writes)
  {
    hide RefreshFromTimestamp, Seeded;
    FromTimestampWritesNoRoots(c, st.(trusted := Seeded(c.env, st.trusted, b, now)), now);
  }

  lemma {:induction false} FromTimestampWritesNoRoots(c: Client, st: ClientState, now: int)
    ensures NoRoots(RefreshFromTimestamp(c, st, now).writes)
  {
    hide TimestampStep, RefreshFromSnapshot;
    FromSnapshotWritesNoRoots(c, RefreshTimestamp(c, st, now).st, now);
  }

  lemma {:induction false} FromSnapshotWritesNoRoots(c: Client, st: ClientState, now: int)
    ensures NoRoots(RefreshFromSnapshot(c, st, now).writes)
  {
    hide SnapshotStep, TargetsStep, TargetsFileName, SnapshotName, SnapshotReusable, TargetsReusable;
    var pinned := PinnedSnapshotVersion(st.trusted);
    if pinned.Some? { SnapshotNameIsNoOther(st.trusted, pinned.value); }
  }

  // ----- Every state of a refresh is reachable

  ghost predicate Reachable(env: Env, t: TrustedState) {
    exists h :: IsHistory(env, h) && h[|h| - 1] == t
  }

  lemma {:induction false} ReachableNext(env: Env, before: TrustedState, u: Update)
    requires Reachable(env, before)
    ensures Reachable(env, BestEffort(before, Apply(env, before, u)))
  {
    hide Bootstrapped, StepAt, Apply;
    if Apply(env, before, u).Success? {
      var h :| IsHistory(env, h) && h[|h| - 1] == before;
      HistoryGrows(env, h, u, Apply(env, before, u).value);
    }
  }

  lemma {:induction false} ReachableCoherent(env: Env, t: TrustedState)
    requires Reachable(env, t)
    ensures Coherent(env, t)
  {
    hide Bootstrapped, StepAt, Coherent;
    var h :| IsHistory(env, h) && h[|h| - 1] == t;
    EveryStateCoherent(env, h, |h| - 1);
  }

  lemma {:induction false} AdoptStoredReachable(env: Env, st: TrustedState, b: Blobs)
    requires Reachable(env, st) && AdoptStored(env, st, b).Success?
    ensures Reachable(env, AdoptStored(env, st, b).value)
    decreases U64_LIMIT - st.root.signed.version
  {
    hide Reachable, RootStep, StoredRootName;
    if !NoNextStored(env, st, b) {
      var bytes := b[StoredRootName(st.root.signed.version + 1)];
      RootStepCounts(env, st, bytes);
      ReachableNext(env, st, UpdateRoot(bytes));
      AdoptStoredReachable(env, RootStep(env, st, bytes).value, b);
    }
  }

  lemma {:induction false} RootWalkReachable(c: Client, st: ClientState, left: nat)
    requires Reachable(c.env, st.trusted)
    ensures Reachable(c.env, RootWalk(c, st, left).st.trusted)
    decreases left
  {
    hide Reachable, RootStep, RootName, RootWrites;
    if left > 0 && RootRound(c, st).Adopted? {
      ReachableNext(c.env, st.trusted,
        UpdateRoot(c.repo(st.calls, RootName(st.trusted.root.signed.version + 1), c.config.rootMaxLength).bytes));
      RootWalkReachable(c, RootRound(c, st).st, left - 1);
    }
  }

  lemma {:induction false} SeededReachable(env: Env, st: TrustedState, b: Blobs, now: int)
    requires Reachable(env, st)
    ensures Reachable(env, Seeded(env, st, b, now))
  {
    hide Reachable, TimestampStep, SnapshotStep, TargetsStep;
    var first := SeedTimestamp(env, st, b, now);
    if "timestamp.json" in b { ReachableNext(env, st, UpdateTimestamp(b["timestamp.json"], now)); }
    var second := SeedSnapshot(env, first, b, now);
    if "snapshot.json" in b { ReachableNext(env, first, UpdateSnapshot(b["snapshot.json"], now)); }
    if "targets.json" in b { ReachableNext(env, second, UpdateTargets(b["targets.json"], now)); }
  }

  lemma {:induction false} TimestampStageReachable(c: Client, st: ClientState, now: int)
    requires Reachable(c.env, st.trusted)
    ensures Reachable(c.env, RefreshTimestamp(c, st, now).st.trusted)
  {
    hide Reachable, TimestampStep;
    var reply := c.repo(st.calls, "timestamp.json", c.config.timestampMaxLength);
    if reply.Found? { ReachableNext(c.env, st.trusted, UpdateTimestamp(reply.bytes, now)); }
  }

  lemma {:induction false} FetchSnapshotReachable(c: Client, st: ClientState, pinned: Version, now: int)
    requires Reachable(c.env, st.trusted)
    ensures Reachable(c.env, FetchSnapshot(c, st, pinned, now).st.trusted)
  {
    hide Reachable, SnapshotStep, SnapshotName;
    var reply := c.repo(st.calls, SnapshotName(st.trusted, pinned), c.config.snapshotMaxLength);
    if reply.Found? { ReachableNext(c.env, st.trusted, UpdateSnapshot(reply.bytes, now)); }
  }

  lemma {:induction false} FetchTargetsReachable(c: Client, st: ClientState, now: int)
    requires Reachable(c.env, st.trusted)
    ensures Reachable(c.env, FetchTargets(c, st, now).st.trusted)
  {
    hide Reachable, TargetsStep, TargetsFileName;
    var name := TargetsFileName(st.trusted, "targets");
    if name.Success? {
      var reply := c.repo(st.calls, name.value, c.config.targetsMaxLength);
      if reply.Found? { ReachableNext(c.env, st.trusted, UpdateTargets(reply.bytes, now)); }
    }
  }

  lemma {:induction false} FromTimestampReachable(c: Client, st: ClientState, now: int)
    requires Reachable(c.env, st.trusted)
    ensures Reachable(c.env, RefreshFromTimestamp(c, st, now).st.trusted)
  {
    hide Reachable, RefreshTimestamp, FetchSnapshot, FetchTargets;
    var first := RefreshTimestamp(c, st, now);
    TimestampStageReachable(c, st, now);
    var second := RefreshSnapshot(c, first.st, now);
    var pinned := PinnedSnapshotVersion(first.st.trusted);
    if pinned.Some? { FetchSnapshotReachable(c, first.st, pinned.value, now); }
    FetchTargetsReachable(c, second.st, now);
  }

  lemma {:induction false} RefreshReachable(c: Client, st: ClientState, b: Blobs, now: int)
    requires Reachable(c.env, st.trusted)
    ensures Reachable(c.env, Refresh(c, st, b, now).st.trusted)
  {
    hide Reachable, RootWalk, RefreshFromTimestamp, Seeded;
    var root := RefreshRoot(c, st);
    RootWalkReachable(c, st, c.config.maxRootRotations);
    SeededReachable(c.env, root.st.trusted, b, now);
    FromTimestampReachable(c, root.st.(trusted := Seeded(c.env, root.st.trusted, b, now)), now);
  }

  // ----- A store that backs what is trusted

  /** A client that started from `boot` can hold this, and all the files that it rests on are in the store. */
  ghost predicate Backed(env: Env, boot: TrustedState, t: TrustedState, b: Blobs) {
    boot == Bare(boot) && Reachable(env, t) && FilesKept(env, t, b) && RootsKept(env, boot, t, b)
  }

  /** A client that starts from the same root again, and adopts the roots that the store has. */
  ghost predicate StartedFrom(env: Env, boot: TrustedState, b: Blobs, st: ClientState) {
    boot == Bare(boot) && Bootstrapped(env, boot) && AdoptStored(env, boot, b) == Success(st.trusted)
  }

  lemma {:induction false} StartBacked(env: Env, boot: TrustedState, b: Blobs, st: ClientState)
    requires StartedFrom(env, boot, b, st)
    ensures Backed(env, boot, st.trusted, b)
  {
    hide Bootstrapped, AdoptStored, AdoptTo;
    assert IsHistory(env, [boot]);
    AdoptStoredReachable(env, boot, b);
    AdoptStoredFollows(env, boot, b);
  }

  /**
   * Whatever the repository answers: every refresh, successful or not, whose writes all take effect leaves
   * the store backing what is trusted.
   */
  lemma {:induction false} RefreshKeepsBacked(boot: TrustedState, c: Client, st: ClientState, b: Blobs, now: int)
    requires Backed(c.env, boot, st.trusted, b)
    ensures var r := Refresh(c, st, b, now); Backed(c.env, boot, r.st.trusted, AfterWrites(b, r))
  {
    hide Refresh, Reachable, FilesKept, RootsKept;
    RefreshReachable(c, st, b, now);
    RefreshKeepsFiles(c, st, b, now);
    RefreshKeepsRoots(boot, c, st, b, now);
  }

  lemma {:induction false} RefreshKeepsRoots(boot: TrustedState, c: Client, st: ClientState, b: Blobs, now: int)
    requires RootsKept(c.env, boot, st.trusted, b)
    ensures var r := Refresh(c, st, b, now); RootsKept(c.env, boot, r.st.trusted, AfterWrites(b, r))
  {
    hide RootWalk, RefreshLower, AdoptTo, SameHistory;
    var walk := RefreshRoot(c, st);
    var lower := RefreshLower(c, walk.st, b, now);
    RootWalkKeepsRoots(boot, c, st, c.config.maxRootRotations, b);
    AfterWritesThen(b, walk.writes, lower);
    LowerWritesNoRoots(c, walk.st, b, now);
    var version := walk.st.trusted.root.signed.version;
    HistorySurvives(AfterWrites(b, walk), lower.writes, |lower.writes|, version);
    LowerForward(c, walk.st, b, now);
    AdoptToSame(c.env, boot, AfterWrites(b, walk), AfterWrites(AfterWrites(b, walk), lower), version);
  }

  // ----- The root floor

  /**
   * A root that is backed by the store is a floor for the next client that starts from the same root, and as
   * long as the store has no newer one it is the very same root.
   */
  lemma {:induction false} BackedRootIsFloor(env: Env, boot: TrustedState, last: TrustedState, stored: Blobs,
        st: ClientState)
    requires Backed(env, boot, last, stored) && StartedFrom(env, boot, stored, st)
    ensures last.root.signed.version <= st.trusted.root.signed.version
    ensures last.root.signed.version == st.trusted.root.signed.version ==> st.trusted == Bare(last)
  {
    hide AdoptStored, AdoptTo, Reachable, FilesKept, Bootstrapped;
    AdoptToThenOn(env, boot, stored, last.root.signed.version);
    AdoptStoredEnds(env, Bare(last), stored);
  }

  /** The case of one refresh, successful or not, in between. */
  lemma {:induction false} RootFloor(boot: TrustedState, c: Client, st: ClientState, b: Blobs, now: int,
        st': ClientState)
    requires StartedFrom(c.env, boot, b, st) && StartedFrom(c.env, boot, AfterWrites(b, Refresh(c, st, b, now)), st')
    ensures var last := Refresh(c, st, b, now).st.trusted;
            && last.root.signed.version <= st'.trusted.root.signed.version
            && (last.root.signed.version == st'.trusted.root.signed.version ==> st'.trusted == Bare(last))
  {
    hide Refresh, StartedFrom, Backed;
    StartBacked(c.env, boot, b, st);
    RefreshKeepsBacked(boot, c, st, b, now);
    var stored := AfterWrites(b, Refresh(c, st, b, now));
    BackedRootIsFloor(c.env, boot, Refresh(c, st, b, now).st.trusted, stored, st');
  }

  lemma {:induction false} AdoptStoredEnds(env: Env, st: TrustedState, b: Blobs)
    requires AdoptStored(env, st, b).Success?
    ensures var after := AdoptStored(env, st, b).value;
            && st.root.signed.version <= after.root.signed.version
            && (st.root.signed.version == after.root.signed.version ==> after == st)
  {
    hide RootStep, StoredRootName;
    if !NoNextStored(env, st, b) {
      var bytes := b[StoredRootName(st.root.signed.version + 1)];
      RootStepCounts(env, st, bytes);
      AdoptStoredStops(env, RootStep(env, st, bytes).value, b);
    }
  }

  // ----- The floor for timestamps and pins

  /** The stored snapshot has the hashes and the length that the held timestamp pins. */
  ghost predicate StillPinned(env: Env, last: TrustedState, stored: Blobs) {
    && last.timestamp.Some? && last.timestamp.value.signed.SnapshotMeta().Some? && "snapshot.json" in stored
    && Integrity(env, stored["snapshot.json"], last.timestamp.value.signed.SnapshotMeta().value).Success?
  }

  /** The held snapshot has the version that the held timestamp pins. */
  predicate PinnedVersionHeld(t: TrustedState) {
    t.snapshot.Some? && PinnedSnapshotVersion(t) == Some(t.snapshot.value.signed.version)
  }

  /** A second client with the same root accepts the stored files again as long as they are unexpired. */
  lemma {:induction false} BackedAgain(env: Env, boot: TrustedState, last: TrustedState, stored: Blobs, now: int)
    requires Backed(env, boot, last, stored)
    requires last.timestamp.Some? && Fresh(env, last.timestamp.value.signed.expires, now)
    ensures "timestamp.json" in stored
    ensures GoodTimestamp(env, last.root.signed, stored["timestamp.json"], last.timestamp.value, now)
    ensures PinnedVersionHeld(last) && Fresh(env, last.snapshot.value.signed.expires, now) ==>
              "snapshot.json" in stored &&
              GoodSnapshot(env, last.root.signed, stored["snapshot.json"], last.snapshot.value,
                           last.timestamp.value.signed.SnapshotMeta().value, now)
  {
    hide Parsed, SignedBy, TargetsPinned, Reachable, RootsKept;
    ReachableCoherent(env, last);
  }

  /** What it takes to adopt the stored snapshot again: unexpired files, and a timestamp that pins it in full. */
  ghost predicate Readoptable(env: Env, last: TrustedState, stored: Blobs, now: int) {
    && last.timestamp.Some? && Fresh(env, last.timestamp.value.signed.expires, now)
    && PinnedVersionHeld(last) && Fresh(env, last.snapshot.value.signed.expires, now) && StillPinned(env, last, stored)
  }

  /** Then, and only then, the next client adopts the stored snapshot, and it is the one that was held. */
  lemma {:induction false} ReadoptedIff(env: Env, boot: TrustedState, last: TrustedState, stored: Blobs, now: int)
    requires Backed(env, boot, last, stored) && last.snapshot.Some?
    ensures "timestamp.json" in stored && "snapshot.json" in stored
    ensures var seeded := SeedTimestamp(env, Bare(last), stored, now);
            var outcome := SnapshotStep(env, seeded, stored["snapshot.json"], now);
            && seeded == Bare(last).(timestamp := FreshTimestamp(env, last, now))
            && (outcome.Success? <==> Readoptable(env, last, stored, now))
            && (outcome.Success? ==> outcome.value.snapshot == last.snapshot)
  {
    hide SignedBy, Parsed, SnapshotStep, GoodSnapshot, TimestampStep, Backed, HashesOk, PinsKept, TargetsPinned;
    HeldFiles(env, boot, last, stored);
    SeededTimestampIs(env, boot, last, stored, now);
    var seeded := Bare(last).(timestamp := FreshTimestamp(env, last, now));
    var outcome := SnapshotStep(env, seeded, stored["snapshot.json"], now);
    if outcome.Success? {
      SnapshotParsed(env, seeded, stored["snapshot.json"], now);
      SnapshotEffect(env, seeded, stored["snapshot.json"], now);
    } else if Readoptable(env, last, stored, now) {
      BackedAgain(env, boot, last, stored, now);
      GoodSnapshotAccepted(env, seeded, stored["snapshot.json"], last.snapshot.value, now);
    }
  }

  /** The last timestamp, while it is unexpired. */
  function FreshTimestamp(env: Env, last: TrustedState, now: int): Option<Metadata<Timestamp>> {
    if last.timestamp.Some? && Fresh(env, last.timestamp.value.signed.expires, now) then last.timestamp else None
  }

  lemma {:induction false} HeldFiles(env: Env, boot: TrustedState, last: TrustedState, stored: Blobs)
    requires Backed(env, boot, last, stored)
    ensures last.timestamp.Some? ==>
              "timestamp.json" in stored && SignedBy(env, last.timestamp.value, last.root.signed, "timestamp") &&
              Parsed(env, "timestamp", env.asTimestamp, stored["timestamp.json"]) == Success(last.timestamp.value)
    ensures last.snapshot.Some? ==>
              last.timestamp.Some? && "snapshot.json" in stored &&
              Parsed(env, "snapshot", env.asSnapshot, stored["snapshot.json"]) == Success(last.snapshot.value)
  {
    hide Parsed, SignedBy, TargetsPinned, Reachable, RootsKept;
    ReachableCoherent(env, last);
  }

  lemma {:induction false} SeededTimestampIs(env: Env, boot: TrustedState, last: TrustedState, stored: Blobs, now: int)
    requires Backed(env, boot, last, stored) && last.timestamp.Some?
    ensures SeedTimestamp(env, Bare(last), stored, now) == Bare(last).(timestamp := FreshTimestamp(env, last, now))
  {
    hide Parsed, SignedBy, Backed, TimestampStep;
    HeldFiles(env, boot, last, stored);
    if Fresh(env, last.timestamp.value.signed.expires, now) {
      GoodTimestampSeeds(env, Bare(last), stored, last.timestamp.value, now);
    } else {
      StoredTimestampTakenUpIff(env, Bare(last), stored, last.timestamp.value, now);
    }
  }

  /** What is left of the lower roles when it does not: the timestamp, while it is unexpired. */
  lemma {:induction false} SeedsWithoutSnapshot(env: Env, boot: TrustedState, last: TrustedState, stored: Blobs,
        now: int)
    requires Backed(env, boot, last, stored) && last.snapshot.Some?
    requires !Readoptable(env, last, stored, now)
    ensures Seeded(env, Bare(last), stored, now) == Bare(last).(timestamp := FreshTimestamp(env, last, now))
  {
    hide Parsed, SignedBy, Backed, TimestampStep, SnapshotStep, Readoptable, FreshTimestamp;
    ReadoptedIff(env, boot, last, stored, now);
  }

  lemma {:induction false} UnmovedRoot(c: Client, st: ClientState, b: Blobs, now: int)
    ensures var after := Refresh(c, st, b, now).st.trusted;
            && st.trusted.root.signed.version <= after.root.signed.version
            && (RootReady(c, st, now) && after.root.signed.version == st.trusted.root.signed.version ==>
                  after.root == st.trusted.root && Rooted(c, st) == st.trusted)
  {
    hide RootWalk, RefreshLower;
    RootWalkCounts(c, st, c.config.maxRootRotations);
    LowerForward(c, RefreshRoot(c, st).st, b, now);
    if RootWalk(c, st, c.config.maxRootRotations).st.trusted.root.signed.version == st.trusted.root.signed.version {
      RootWalkUnmoved(c, st, c.config.maxRootRotations);
    }
  }

  /** Neither the last timestamp, while it is unexpired, nor the last snapshot, if it is adopted again, is undercut. */
  ghost predicate FloorsKept(env: Env, last: TrustedState, stored: Blobs, after: TrustedState, now: int) {
    && (FreshTimestamp(env, last, now).Some? ==>
          after.timestamp.Some? && last.timestamp.value.signed.version <= after.timestamp.value.signed.version)
    && (Readoptable(env, last, stored, now) ==>
          after.snapshot.Some? && PinsKept(last.snapshot.value.signed.meta, after.snapshot.value.signed.meta))
  }

  /**
   * Whatever the repository serves: a client that starts from the same root and gets to look at the lower
   * roles never ends with a lower root than one that is backed by the store. Unless it found a newer root,
   * it ends with no lower timestamp while the last one is unexpired, and with no lower or missing pin
   * exactly where the stored snapshot can be adopted again; TufPinLoss.NoFloorIfUnadopted is the other case.
   */
  lemma {:induction false} BackedIsFloor(boot: TrustedState, last: TrustedState, stored: Blobs,
        c: Client, st: ClientState, now: int)
    requires Backed(c.env, boot, last, stored) && StartedFrom(c.env, boot, stored, st) && RootReady(c, st, now)
    ensures var after := Refresh(c, st, stored, now).st.trusted;
            && last.root.signed.version <= after.root.signed.version
            && (last.root.signed.version == after.root.signed.version ==>
                  after.root == last.root && FloorsKept(c.env, last, stored, after, now))
  {
    hide Refresh, RefreshRoot, Backed, StartedFrom, FloorsKept, RootReady;
    BackedRootIsFloor(c.env, boot, last, stored, st);
    UnmovedRoot(c, st, stored, now);
    if last.root.signed.version == Refresh(c, st, stored, now).st.trusted.root.signed.version {
      FloorsHold(boot, last, stored, c, st, now);
    }
  }

  lemma {:induction false} FloorsHold(boot: TrustedState, last: TrustedState, stored: Blobs,
        c: Client, st: ClientState, now: int)
    requires Backed(c.env, boot, last, stored) && RootReady(c, st, now) && Rooted(c, st) == Bare(last)
    ensures FloorsKept(c.env, last, stored, Refresh(c, st, stored, now).st.trusted, now)
  {
    hide Refresh, RefreshRoot, StillPinned, PinsKept, Parsed, SnapshotStep, Backed, Fresh;
    if FreshTimestamp(c.env, last, now).Some? {
      BackedAgain(c.env, boot, last, stored, now);
      StoredTimestampIsFloor(c, st, stored, last.timestamp.value, now);
    }
    if Readoptable(c.env, last, stored, now) {
      ReadoptedIff(c.env, boot, last, stored, now);
      StoredSnapshotIsFloor(c, st, stored, now);
    }
  }

  /**
   * Two refreshes with one store, whose writes take effect, by clients that start from the same root. The
   * first may fail at any stage; the root and the unexpired timestamp that it held in the end are floors for
   * the second, and its snapshot is one if it is Readoptable.
   */
  lemma {:induction false} NoRollbackAcrossRuns(boot: TrustedState, c: Client, st: ClientState, b: Blobs, now: int,
        c': Client, st': ClientState, now': int)
    requires StartedFrom(c.env, boot, b, st) && c'.env == c.env
    requires StartedFrom(c.env, boot, AfterWrites(b, Refresh(c, st, b, now)), st') && RootReady(c', st', now')
    ensures var last := Refresh(c, st, b, now).st.trusted;
            var stored := AfterWrites(b, Refresh(c, st, b, now));
            var after := Refresh(c', st', stored, now').st.trusted;
            && last.root.signed.version <= after.root.signed.version
            && (last.root.signed.version == after.root.signed.version ==>
                  after.root == last.root && FloorsKept(c.env, last, stored, after, now'))
  {
    hide Refresh, StartedFrom, Backed, FloorsKept, RootReady;
    StartBacked(c.env, boot, b, st);
    RefreshKeepsBacked(boot, c, st, b, now);
    BackedIsFloor(boot, Refresh(c, st, b, now).st.trusted, AfterWrites(b, Refresh(c, st, b, now)), c', st', now');
  }

  // ----- When the timestamp still pins the stored snapshot

  /** A snapshot that was fetched under a timestamp is pinned by it. */
  lemma {:induction false} FetchedIsPinned(c: Client, st: ClientState, pinned: Version, now: int, b: Blobs)
    requires FetchSnapshot(c, st, pinned, now).result.Success?
    ensures var r := FetchSnapshot(c, st, pinned, now); StillPinned(c.env, r.st.trusted, AfterWrites(b, r))
  {
    hide Integrity, Parsed, VersionPrefix;
    var name := SnapshotName(st.trusted, pinned);
    var bytes := c.repo(st.calls, name, c.config.snapshotMaxLength).bytes;
    SnapshotParsed(c.env, st.trusted, bytes, now);
    TwoWrites(b, Write(name, bytes), Write("snapshot.json", bytes));
  }

  /** A snapshot that is used again is compared with the timestamp by its version only. */
  lemma {:induction false} ReuseComparesVersions(c: Client, st: ClientState, now: int)
    requires SnapshotCurrent(c.env, st.trusted, now)
    ensures RefreshSnapshot(c, st, now) == Quiet(OK, st)
  {
  }

  /**
   * So a newer timestamp with the same version and other hashes takes the place of the old one, in the client
   * and in the store, while the old snapshot stays in both although it is not pinned any more.
   */
  lemma {:induction false} ReuseLeavesUnpinned(c: Client, st: ClientState, b: Blobs, file: Bytes,
        newer: Metadata<Timestamp>, now: int)
    requires st.trusted.snapshot.Some? && Fresh(c.env, st.trusted.snapshot.value.signed.expires, now)
    requires "snapshot.json" in b && TimestampAdvance(st.trusted.timestamp, newer.signed).Success?
    requires GoodTimestamp(c.env, st.trusted.root.signed, file, newer, now)
    requires c.repo(st.calls, "timestamp.json", c.config.timestampMaxLength) == Found(file)
    requires var pin := newer.signed.SnapshotMeta();
             && pin.Some? && pin.value.version == st.trusted.snapshot.value.signed.version
             && Integrity(c.env, b["snapshot.json"], pin.value).Failure?
    ensures var r := RefreshFromTimestamp(c, st, now);
            var stored := AfterWrites(b, r);
            && r.st.trusted.root == st.trusted.root
            && r.st.trusted.timestamp == Some(newer) && r.st.trusted.snapshot == st.trusted.snapshot
            && "timestamp.json" in stored && stored["timestamp.json"] == file
            && "snapshot.json" in stored && stored["snapshot.json"] == b["snapshot.json"]
            && !StillPinned(c.env, r.st.trusted, stored)
  {
    hide GoodTimestamp, TimestampStep, TimestampAdvance, HashesOk, TufRefresh.RefreshTargets;
    GoodTimestampAccepted(c.env, st.trusted, file, newer, now);
    FreshOf(c.env, st.trusted.root.signed, file, newer, now);
    var first := RefreshTimestamp(c, st, now);
    var after := ClientState(st.trusted.(timestamp := Some(newer)), st.calls + 1);
    assert first == Refreshed(OK, after, [Write("timestamp.json", file)]);
    ReuseComparesVersions(c, first.st, now);
    var third := RefreshTargets(c, first.st, now);
    TargetsStageKeepsSnapshot(c, first.st, now);
    assert RefreshFromSnapshot(c, first.st, now) == After([], third);
    assert [] + third.writes == third.writes;
    OneWrite(b, Write("timestamp.json", file));
    AfterWritesThen(b, first.writes, third);
    TargetsStageWrites(c, first.st, now, AfterWrites(b, first));
  }

  lemma {:induction false} FreshOf(env: Env, root: Root, file: Bytes, ts: Metadata<Timestamp>, now: int)
    requires GoodTimestamp(env, root, file, ts, now)
    ensures Fresh(env, ts.signed.expires, now)
  {
  }

  lemma {:induction false} TargetsStageWrites(c: Client, st: ClientState, now: int, b: Blobs)
    ensures var stored := AfterWrites(b, RefreshTargets(c, st, now));
            && ("timestamp.json" in b ==> "timestamp.json" in stored && stored["timestamp.json"] == b["timestamp.json"])
            && ("snapshot.json" in b ==> "snapshot.json" in stored && stored["snapshot.json"] == b["snapshot.json"])
  {
    hide TargetsStep, TargetsFileName;
    var name := TargetsFileName(st.trusted, "targets");
    if name.Success? {
      var reply := c.repo(st.calls, name.value, c.config.targetsMaxLength);
      if reply.Found? { OneWrite(b, Write("targets.json", reply.bytes)); }
    }
  }

  lemma {:induction false} TargetsStageKeepsSnapshot(c: Client, st: ClientState, now: int)
    ensures var after := RefreshTargets(c, st, now).st.trusted;
            && after.root == st.trusted.root && after.timestamp == st.trusted.timestamp
            && after.snapshot == st.trusted.snapshot
  {
    hide TargetsStep, TargetsFileName;
    var name := TargetsFileName(st.trusted, "targets");
    if name.Success? {
      var reply := c.repo(st.calls, name.value, c.config.targetsMaxLength);
      if reply.Found? && TargetsStep(c.env, st.trusted, reply.bytes, now).Success? {
        TargetsEffect(c.env, st.trusted, reply.bytes, now);
      }
    }
  }
}
