/**
 * How a pin of the snapshot is lost between two runs with one store. A newer timestamp is stored as soon as it
 * is accepted. If the stored snapshot is not the one that it pins, because the first run used its snapshot
 * again under other hashes, or failed before it had another one, then the second run cannot adopt it from the
 * store, and takes whatever the timestamp pins, whatever pins that drops or lowers.
 */
module TufPinLoss {
  import opened Prelude
  import opened TufMetadata
  import opened TufTrusted
  import opened TufHistory
  import opened TufRefresh
  import opened TufDelegation
  import opened TufStore
  import opened TufRestart
  import opened TufSample
  import opened Decimal

  // ----- For every environment

  /** The files of the two runs, and what they parse to. */
  datatype Loss = Loss(
    earlierFile: Bytes, earlier: Metadata<Timestamp>, heldFile: Bytes, held: Metadata<Snapshot>,
    newerFile: Bytes, newer: Metadata<Timestamp>, otherFile: Bytes, other: Metadata<Snapshot>)

  /** Signed and unexpired files: each timestamp pins its own snapshot, and the other one drops or lowers a pin. */
  ghost predicate GoodLoss(env: Env, root: Root, l: Loss, now: int) {
    && GoodTimestamp(env, root, l.earlierFile, l.earlier, now) && GoodTimestamp(env, root, l.newerFile, l.newer, now)
    && l.earlier.signed.version < l.newer.signed.version
    && Pinning(env, root, l.earlier, l.heldFile, l.held, now) && Pinning(env, root, l.newer, l.otherFile, l.other, now)
    && l.held.signed.version <= l.other.signed.version && !PinsKept(l.held.signed.meta, l.other.signed.meta)
  }

  /** Two snapshots of one version, told apart by the hashes in the newer timestamp. */
  ghost predicate Replaced(env: Env, l: Loss)
    requires l.newer.signed.SnapshotMeta().Some?
  {
    && l.held.signed.version == l.other.signed.version
    && Integrity(env, l.heldFile, l.newer.signed.SnapshotMeta().value).Failure?
  }

  ghost predicate Pinning(env: Env, root: Root, ts: Metadata<Timestamp>, file: Bytes, snap: Metadata<Snapshot>,
        now: int) {
    && ts.signed.SnapshotMeta().Some? && Integrity(env, file, ts.signed.SnapshotMeta().value).Success?
    && GoodSnapshot(env, root, file, snap, ts.signed.SnapshotMeta().value, now)
  }

  /** A client that starts from `boot` finds no newer root, in the store or in the repository. */
  ghost predicate NoNewerRoot(c: Client, boot: TrustedState, b: Blobs, calls: nat, now: int) {
    var version := boot.root.signed.version;
    && boot == Bare(boot) && Bootstrapped(c.env, boot) && Fresh(c.env, boot.root.signed.expires, now)
    && !Stored(b, version + 1)
    && version + 1 < U64_LIMIT && 0 < c.config.maxRootRotations && version + c.config.maxRootRotations < U64_LIMIT
    && c.repo(calls, RootName(version + 1), c.config.rootMaxLength).NotFound?
  }

  /** From this call on, the repository serves the newer timestamp with its snapshot. */
  predicate ServesNewer(c: Client, boot: TrustedState, calls: nat, l: Loss) {
    && c.repo(calls, "timestamp.json", c.config.timestampMaxLength) == Found(l.newerFile)
    && c.repo(calls + 1, SnapshotName(boot, l.other.signed.version), c.config.snapshotMaxLength) == Found(l.otherFile)
  }

  /** The store has the earlier timestamp with its snapshot, the repository the newer one with the other. */
  ghost predicate LosingRuns(c: Client, c': Client, boot: TrustedState, b: Blobs, calls: nat, calls': nat,
        l: Loss, now: int) {
    && c'.env == c.env && GoodLoss(c.env, boot.root.signed, l, now)
    && NoNewerRoot(c, boot, b, calls, now) && NoNewerRoot(c', boot, b, calls', now)
    && "timestamp.json" in b && b["timestamp.json"] == l.earlierFile
    && "snapshot.json" in b && b["snapshot.json"] == l.heldFile
    && c.repo(calls + 1, "timestamp.json", c.config.timestampMaxLength) == Found(l.newerFile)
    && ServesNewer(c', boot, calls' + 1, l)
  }

  /** Such a client goes on with the lower roles under the root that it started from. */
  lemma {:induction false} RootStays(c: Client, boot: TrustedState, b: Blobs, calls: nat, stored: Blobs, now: int)
    requires NoNewerRoot(c, boot, b, calls, now)
    ensures var st := ClientState(boot, calls);
            && RefreshRoot(c, st) == Quiet(OK, ClientState(boot, calls + 1)) && RootReady(c, st, now)
            && StartedFrom(c.env, boot, b, st)
            && Refresh(c, st, stored, now) ==
               RefreshFromTimestamp(c, ClientState(Seeded(c.env, boot, stored, now), calls + 1), now)
  {
    hide Seeded, RefreshFromTimestamp, RootName, StoredRootName, Bootstrapped, RootStep;
    var st := ClientState(boot, calls);
    assert RootRound(c, st) == Stop(OK, ClientState(boot, calls + 1));
    var lower := RefreshFromTimestamp(c, ClientState(Seeded(c.env, boot, stored, now), calls + 1), now);
    assert Refresh(c, st, stored, now) == After([], lower);
    assert [] + lower.writes == lower.writes;
  }

  lemma {:induction false} StaysUnstored(c: Client, st: ClientState, b: Blobs, now: int, version: nat)
    requires !Stored(b, version)
    ensures !Stored(AfterWrites(b, RefreshFromTimestamp(c, st, now)), version)
  {
    hide RefreshFromTimestamp, StoredRootName;
    var r := RefreshFromTimestamp(c, st, now);
    FromTimestampWritesNoRoots(c, st, now);
    HistorySurvives(b, r.writes, |r.writes|, version);
    assert SameRoot(b, AfterWrites(b, r), version);
  }

  /** What a client adopts from a store with a good timestamp and a snapshot that it pins. */
  lemma {:induction false} SeedsPinned(env: Env, boot: TrustedState, b: Blobs, ts: Metadata<Timestamp>,
        snap: Metadata<Snapshot>, now: int)
    requires boot == Bare(boot) && "timestamp.json" in b && "snapshot.json" in b
    requires GoodTimestamp(env, boot.root.signed, b["timestamp.json"], ts, now)
    requires Pinning(env, boot.root.signed, ts, b["snapshot.json"], snap, now)
    ensures var seeded := Seeded(env, boot, b, now);
            seeded.root == boot.root && seeded.timestamp == Some(ts) && seeded.snapshot == Some(snap)
  {
    hide GoodTimestamp, GoodSnapshot, TimestampStep, SnapshotStep, TargetsStep, Integrity;
    FreshOf(env, boot.root.signed, b["timestamp.json"], ts, now);
    GoodTimestampAccepted(env, boot, b["timestamp.json"], ts, now);
    var first := boot.(timestamp := Some(ts));
    GoodSnapshotAccepted(env, first, b["snapshot.json"], snap, now);
    var second := first.(snapshot := Some(snap), targets := map[]);
    assert SeedSnapshot(env, SeedTimestamp(env, boot, b, now), b, now) == second;
    if "targets.json" in b && TargetsStep(env, second, b["targets.json"], now).Success? {
      TargetsEffect(env, second, b["targets.json"], now);
    }
  }

  /** A good timestamp is taken, or is held already. */
  predicate Acceptable(held: Option<Metadata<Timestamp>>, offered: Metadata<Timestamp>) {
    held == Some(offered) || TimestampAdvance(held, offered.signed).Success?
  }

  /** The repository serves a good timestamp, and a snapshot that this one pins. */
  ghost predicate Serves(c: Client, st: ClientState, ts: Metadata<Timestamp>, snap: Metadata<Snapshot>, now: int) {
    var first := c.repo(st.calls, "timestamp.json", c.config.timestampMaxLength);
    var name := SnapshotName(st.trusted, snap.signed.version);
    var second := c.repo(st.calls + 1, name, c.config.snapshotMaxLength);
    && first.Found? && GoodTimestamp(c.env, st.trusted.root.signed, first.bytes, ts, now)
    && second.Found? && Pinning(c.env, st.trusted.root.signed, ts, second.bytes, snap, now)
  }

  lemma {:induction false} TakesTimestamp(c: Client, st: ClientState, file: Bytes, ts: Metadata<Timestamp>, now: int)
    requires Acceptable(st.trusted.timestamp, ts) && GoodTimestamp(c.env, st.trusted.root.signed, file, ts, now)
    requires c.repo(st.calls, "timestamp.json", c.config.timestampMaxLength) == Found(file)
    ensures RefreshTimestamp(c, st, now).result == OK
    ensures RefreshTimestamp(c, st, now).st == ClientState(st.trusted.(timestamp := Some(ts)), st.calls + 1)
    ensures st.trusted.timestamp != Some(ts) ==>
              RefreshTimestamp(c, st, now).writes == [Write("timestamp.json", file)]
  {
    hide GoodTimestamp, TimestampStep;
    GoodTimestampAccepted(c.env, st.trusted, file, ts, now);
  }

  /** A client that holds no snapshot compares no pins: it takes the one that the timestamp pins. */
  lemma {:induction false} TakesPinned(c: Client, st: ClientState, ts: Metadata<Timestamp>, snap: Metadata<Snapshot>,
        now: int)
    requires st.trusted.snapshot.None? && Acceptable(st.trusted.timestamp, ts) && Serves(c, st, ts, snap, now)
    ensures var after := RefreshFromTimestamp(c, st, now).st.trusted;
            after.root == st.trusted.root && after.timestamp == Some(ts) && after.snapshot == Some(snap)
  {
    hide GoodTimestamp, RefreshTimestamp, SnapshotStep, Integrity, VersionPrefix, TufRefresh.RefreshTargets, Acceptable;
    var file := c.repo(st.calls, "timestamp.json", c.config.timestampMaxLength).bytes;
    var other := c.repo(st.calls + 1, SnapshotName(st.trusted, snap.signed.version), c.config.snapshotMaxLength).bytes;
    FreshOf(c.env, st.trusted.root.signed, file, ts, now);
    TakesTimestamp(c, st, file, ts, now);
    var first := RefreshTimestamp(c, st, now).st;
    VersionPinned(c.env, st.trusted.root.signed, ts, other, snap, now);
    hide GoodSnapshot;
    GoodSnapshotAccepted(c.env, first.trusted, other, snap, now);
    var second := RefreshSnapshot(c, first, now);
    assert second == FetchSnapshot(c, first, snap.signed.version, now);
    assert second.st == ClientState(first.trusted.(snapshot := Some(snap), targets := map[]), st.calls + 2);
    TargetsStageKeepsSnapshot(c, second.st, now);
  }

  /**
   * The other side of TufRestart.BackedIsFloor: where the stored snapshot cannot be adopted again, the next
   * client under the same root takes any snapshot that it is served with a good timestamp, whatever pins
   * that one drops or lowers.
   */
  lemma {:induction false} NoFloorIfUnadopted(boot: TrustedState, last: TrustedState, stored: Blobs, c: Client,
        st: ClientState, ts: Metadata<Timestamp>, snap: Metadata<Snapshot>, now: int)
    requires Backed(c.env, boot, last, stored) && RootReady(c, st, now) && Rooted(c, st) == Bare(last)
    requires last.snapshot.Some? && !Readoptable(c.env, last, stored, now)
    requires Acceptable(FreshTimestamp(c.env, last, now), ts) && Serves(c, RefreshRoot(c, st).st, ts, snap, now)
    ensures var after := Refresh(c, st, stored, now).st.trusted;
            after.root == last.root && after.timestamp == Some(ts) && after.snapshot == Some(snap)
  {
    hide Readoptable, Backed, FreshTimestamp, Acceptable, RefreshRoot, Seeded, RefreshFromTimestamp, GoodTimestamp,
         Pinning;
    var root := RefreshRoot(c, st);
    SeedsWithoutSnapshot(c.env, boot, last, stored, now);
    var seeded := root.st.(trusted := Seeded(c.env, root.st.trusted, stored, now));
    assert SnapshotName(seeded.trusted, snap.signed.version) == SnapshotName(root.st.trusted, snap.signed.version);
    TakesPinned(c, seeded, ts, snap, now);
  }

  lemma {:induction false} VersionPinned(env: Env, root: Root, ts: Metadata<Timestamp>, file: Bytes,
        snap: Metadata<Snapshot>, now: int)
    requires Pinning(env, root, ts, file, snap, now)
    ensures ts.signed.SnapshotMeta().Some? && ts.signed.SnapshotMeta().value.version == snap.signed.version
    ensures Fresh(env, snap.signed.expires, now)
  {
  }

  /** The first run gets to the timestamp stage with the earlier files, and its writes go on from there. */
  lemma {:induction false} FirstRun(c: Client, c': Client, boot: TrustedState, b: Blobs, calls: nat, calls': nat,
        l: Loss, now: int) returns (st: ClientState)
    requires LosingRuns(c, c', boot, b, calls, calls', l, now)
    ensures st.calls == calls + 1 && st.trusted.root == boot.root
    ensures st.trusted.timestamp == Some(l.earlier) && st.trusted.snapshot == Some(l.held)
    ensures var r := Refresh(c, ClientState(boot, calls), b, now);
            && r == RefreshFromTimestamp(c, st, now) && StartedFrom(c.env, boot, b, ClientState(boot, calls))
            && Backed(c.env, boot, r.st.trusted, AfterWrites(b, r))
            && NoNewerRoot(c', boot, AfterWrites(b, r), calls', now)
    ensures Acceptable(st.trusted.timestamp, l.newer)
    ensures TimestampAdvance(st.trusted.timestamp, l.newer.signed).Success?
  {
    hide Seeded, GoodTimestamp, GoodSnapshot, Integrity, Refresh, RefreshFromTimestamp, RefreshRoot, Backed;
    hide Bootstrapped, AfterWrites, PinsKept, RootName, SnapshotName, RootReady, StartedFrom;
    st := ClientState(Seeded(c.env, boot, b, now), calls + 1);
    RootStays(c, boot, b, calls, b, now);
    SeedsPinned(c.env, boot, b, l.earlier, l.held, now);
    VersionPinned(c.env, boot.root.signed, l.earlier, l.heldFile, l.held, now);
    VersionPinned(c.env, boot.root.signed, l.newer, l.otherFile, l.other, now);
    StaysUnstored(c, st, b, now, boot.root.signed.version + 1);
    StartBacked(c.env, boot, b, ClientState(boot, calls));
    RefreshKeepsBacked(boot, c, ClientState(boot, calls), b, now);
  }

  /** The second run ends with the other snapshot, if the first one left one that cannot be adopted again. */
  lemma {:induction false} SecondRun(c': Client, boot: TrustedState, last: TrustedState, stored: Blobs, calls': nat,
        l: Loss, now: int)
    requires GoodLoss(c'.env, boot.root.signed, l, now) && NoNewerRoot(c', boot, stored, calls', now)
    requires Backed(c'.env, boot, last, stored) && !Readoptable(c'.env, last, stored, now)
    requires last.root == boot.root && last.timestamp == Some(l.newer) && last.snapshot == Some(l.held)
    requires ServesNewer(c', boot, calls' + 1, l)
    ensures var st' := ClientState(boot, calls');
            var after := Refresh(c', st', stored, now).st.trusted;
            && StartedFrom(c'.env, boot, stored, st') && RootReady(c', st', now)
            && after.root == boot.root && after.timestamp == Some(l.newer) && after.snapshot == Some(l.other)
  {
    hide Seeded, GoodTimestamp, Integrity, Refresh, RefreshFromTimestamp, RefreshRoot, Backed, Readoptable, Pinning;
    hide Bootstrapped, AfterWrites, PinsKept, RootName, RootReady, StartedFrom, SnapshotName;
    RootStays(c', boot, stored, calls', stored, now);
    FreshOf(c'.env, boot.root.signed, l.newerFile, l.newer, now);
    NoFloorIfUnadopted(boot, last, stored, c', ClientState(boot, calls'), l.newer, l.other, now);
  }

  /** What both runs of a loss come to. */
  ghost predicate PinLost(c: Client, c': Client, boot: TrustedState, b: Blobs, calls: nat, calls': nat, l: Loss,
        now: int) {
    var (st, st') := (ClientState(boot, calls), ClientState(boot, calls'));
    var r := Refresh(c, st, b, now);
    var stored := AfterWrites(b, r);
    var after := Refresh(c', st', stored, now).st.trusted;
    && StartedFrom(c.env, boot, b, st) && StartedFrom(c.env, boot, stored, st') && RootReady(c', st', now)
    && after.root == r.st.trusted.root
    && r.st.trusted.snapshot == Some(l.held) && after.snapshot == Some(l.other)
    && !PinsKept(l.held.signed.meta, l.other.signed.meta)
  }

  /**
   * Two runs with one store, whose writes take effect, under one root and with no file expired: the second
   * one ends with a snapshot that lacks or lowers a pin of the snapshot that the first one ended with. Here
   * both snapshots have one version, and the first run reports no failure before the targets.
   */
  lemma {:induction false} PinsRegressAcrossRuns(c: Client, c': Client, boot: TrustedState, b: Blobs,
        calls: nat, calls': nat, l: Loss, now: int)
    requires LosingRuns(c, c', boot, b, calls, calls', l, now) && Replaced(c.env, l)
    ensures PinLost(c, c', boot, b, calls, calls', l, now)
    ensures var r := Refresh(c, ClientState(boot, calls), b, now);
            r.st.trusted.timestamp == Some(l.newer) && !StillPinned(c.env, r.st.trusted, AfterWrites(b, r))
  {
    hide Refresh, RefreshFromTimestamp, GoodTimestamp, GoodSnapshot, NoNewerRoot, PinsKept, AfterWrites, StillPinned;
    hide StartedFrom, RootReady, Integrity, Backed, Acceptable, SnapshotName;
    var st := FirstRun(c, c', boot, b, calls, calls', l, now);
    VersionPinned(c.env, boot.root.signed, l.earlier, l.heldFile, l.held, now);
    VersionPinned(c.env, boot.root.signed, l.newer, l.otherFile, l.other, now);
    ReuseLeavesUnpinned(c, st, b, l.newerFile, l.newer, now);
    var r := Refresh(c, ClientState(boot, calls), b, now);
    SecondRun(c', boot, r.st.trusted, AfterWrites(b, r), calls', l, now);
  }

  /** A snapshot that drops or lowers a pin is rejected, but the timestamp that pins it stays, in the store as well. */
  lemma {:induction false} RejectionKeepsTimestamp(c: Client, st: ClientState, ts: Metadata<Timestamp>,
        snap: Metadata<Snapshot>, now: int)
    requires st.trusted.timestamp != Some(ts) && Acceptable(st.trusted.timestamp, ts) && Serves(c, st, ts, snap, now)
    requires st.trusted.snapshot.Some? && st.trusted.snapshot.value.signed.version != snap.signed.version
    requires !PinsKept(st.trusted.snapshot.value.signed.meta, snap.signed.meta)
    ensures RefreshFromTimestamp(c, st, now) ==
            Refreshed(Failure(PinRegression), ClientState(st.trusted.(timestamp := Some(ts)), st.calls + 2),
              [Write("timestamp.json", c.repo(st.calls, "timestamp.json", c.config.timestampMaxLength).bytes)])
  {
    hide GoodTimestamp, RefreshTimestamp, SnapshotStep, Integrity, VersionPrefix, Acceptable, PinsKept;
    var file := c.repo(st.calls, "timestamp.json", c.config.timestampMaxLength).bytes;
    var other := c.repo(st.calls + 1, SnapshotName(st.trusted, snap.signed.version), c.config.snapshotMaxLength).bytes;
    FreshOf(c.env, st.trusted.root.signed, file, ts, now);
    TakesTimestamp(c, st, file, ts, now);
    var first := RefreshTimestamp(c, st, now).st;
    VersionPinned(c.env, st.trusted.root.signed, ts, other, snap, now);
    hide GoodSnapshot;
    GoodSnapshotAccepted(c.env, first.trusted, other, snap, now);
    var second := RefreshSnapshot(c, first, now);
    assert second == FetchSnapshot(c, first, snap.signed.version, now);
    assert second == Quiet(Failure(PinRegression), ClientState(first.trusted, st.calls + 2));
  }

  /**
   * Here the other snapshot is newer. The first run rejects it because of the pin that it drops or lowers,
   * but has stored the timestamp that pins it; so the second run cannot adopt the stored snapshot, has
   * nothing to compare with, and takes the very file that the first one rejected.
   */
  lemma {:induction false} RejectedThenTaken(c: Client, c': Client, boot: TrustedState, b: Blobs,
        calls: nat, calls': nat, l: Loss, now: int)
    requires LosingRuns(c, c', boot, b, calls, calls', l, now) && l.held.signed.version < l.other.signed.version
    requires ServesNewer(c, boot, calls + 1, l)
    ensures Refresh(c, ClientState(boot, calls), b, now).result == Failure(PinRegression)
    ensures PinLost(c, c', boot, b, calls, calls', l, now)
  {
    hide Refresh, RefreshFromTimestamp, GoodTimestamp, GoodSnapshot, NoNewerRoot, PinsKept, AfterWrites, StillPinned;
    hide StartedFrom, RootReady, Integrity, Backed, Acceptable;
    var st := FirstRun(c, c', boot, b, calls, calls', l, now);
    VersionPinned(c.env, boot.root.signed, l.newer, l.otherFile, l.other, now);
    RejectionKeepsTimestamp(c, st, l.newer, l.other, now);
    var r := Refresh(c, ClientState(boot, calls), b, now);
    SecondRun(c', boot, r.st.trusted, AfterWrites(b, r), calls', l, now);
  }

  // ----- There are such files

  const EARLIER := Payload("timestamp", 1, PinOf(5, Some("aa")))
  const NEWER := Payload("timestamp", 2, PinOf(5, Some("bb")))
  const NEWEST := Payload("timestamp", 2, PinOf(6, None))
  const HELD := Payload("snapshot", 5, TargetsPin(2))
  const OTHER := Payload("snapshot", 5, NO_PIN)
  const NEXT := Payload("snapshot", 6, NO_PIN)

  /** The repository of both runs. */
  ghost function Serve(timestamp: Bytes, snapshot: Bytes): Repository {
    (_, name, _) => if name == "timestamp.json" then Found(timestamp)
                    else if name == "snapshot.json" then Found(snapshot) else NotFound
  }

  /** The store of the first run. */
  ghost function EarlierFiles(): Blobs {
    map["timestamp.json" := TextOf(EARLIER), "snapshot.json" := TextOf(HELD)]
  }

  lemma {:induction false} EarlierSample() returns (earlier: Metadata<Timestamp>, held: Metadata<Snapshot>)
    ensures GoodTimestamp(World(TextOf(OTHER)), ROOT, TextOf(EARLIER), earlier, 0)
    ensures Pinning(World(TextOf(OTHER)), ROOT, earlier, TextOf(HELD), held, 0)
    ensures earlier.signed.version == 1
    ensures held.signed.version == 5 && held.signed.meta == map["targets.json" := MetaFile(2, None, None)]
  {
    hide GoodTimestamp, GoodSnapshot, MetaIn, TextOf, Payload, Integrity, TargetsPin, PinOf, NO_PIN;
    var marked := TextOf(OTHER);
    PinsRead(1, 5, Some("aa"));
    TargetsPinRead(5, 2);
    earlier := TimestampDocument(marked, 1, PinOf(5, Some("aa")));
    held := SnapshotDocument(marked, 5, TargetsPin(2), earlier.signed.SnapshotMeta().value);
    SnapshotTextsDiffer();
    HashTells(marked, TextOf(HELD), 5, "aa");
  }

  lemma {:induction false} SampleReplaced() returns (l: Loss)
    ensures GoodLoss(World(TextOf(OTHER)), ROOT, l, 0) && Replaced(World(TextOf(OTHER)), l)
    ensures l.held.signed.meta.Keys == {"targets.json"} && l.other.signed.meta == map[]
    ensures l.earlierFile == TextOf(EARLIER) && l.heldFile == TextOf(HELD)
    ensures l.newerFile == TextOf(NEWER) && l.otherFile == TextOf(OTHER)
  {
    hide GoodTimestamp, GoodSnapshot, MetaIn, TextOf, Payload, Integrity, TargetsPin, PinOf, NO_PIN;
    var marked := TextOf(OTHER);
    PinsRead(2, 5, Some("bb"));
    NoPinsRead("snapshot", 5);
    var earlier, held := EarlierSample();
    var newer := TimestampDocument(marked, 2, PinOf(5, Some("bb")));
    var other := SnapshotDocument(marked, 5, NO_PIN, newer.signed.SnapshotMeta().value);
    SnapshotTextsDiffer();
    HashTells(marked, TextOf(HELD), 5, "bb");
    HashTells(marked, TextOf(OTHER), 5, "bb");
    assert "targets.json" in held.signed.meta && "targets.json" !in other.signed.meta;
    l := Loss(TextOf(EARLIER), earlier, TextOf(HELD), held, TextOf(NEWER), newer, TextOf(OTHER), other);
  }

  lemma {:induction false} SampleNewer() returns (l: Loss)
    ensures GoodLoss(World(TextOf(OTHER)), ROOT, l, 0) && l.held.signed.version == 5 && l.other.signed.version == 6
    ensures l.held.signed.meta.Keys == {"targets.json"} && l.other.signed.meta == map[]
    ensures l.earlierFile == TextOf(EARLIER) && l.heldFile == TextOf(HELD)
    ensures l.newerFile == TextOf(NEWEST) && l.otherFile == TextOf(NEXT)
  {
    hide GoodTimestamp, GoodSnapshot, MetaIn, TextOf, Payload, TargetsPin, PinOf, NO_PIN;
    var marked := TextOf(OTHER);
    PinsRead(2, 6, None);
    NoPinsRead("snapshot", 6);
    var earlier, held := EarlierSample();
    var newer := TimestampDocument(marked, 2, PinOf(6, None));
    var other := SnapshotDocument(marked, 6, NO_PIN, newer.signed.SnapshotMeta().value);
    assert "targets.json" in held.signed.meta && "targets.json" !in other.signed.meta;
    l := Loss(TextOf(EARLIER), earlier, TextOf(HELD), held, TextOf(NEWEST), newer, TextOf(NEXT), other);
  }

  lemma {:induction false} SnapshotTextsDiffer()
    ensures TextOf(HELD) != TextOf(OTHER)
  {
    hide TextOf, Ascii;
    TargetsPinRead(5, 2);
    NoPinsRead("snapshot", 5);
    PayloadFields("snapshot", 5, TargetsPin(2));
    PayloadFields("snapshot", 5, NO_PIN);
    assert TargetsPin(2) != NO_PIN;
    TextsDiffer(HELD, OTHER);
  }

  lemma {:induction false} SecondRootUnserved()
    ensures RootName(2) != "timestamp.json" && RootName(2) != "snapshot.json"
    ensures !Stored(EarlierFiles(), 2)
  {
    hide Numeral;
    NumeralDigits(2);
    assert StoredRootName(2)[0] == 'r';
  }

  /** A client with one key, one root, and a repository that serves these two files. */
  lemma {:induction false} SampleClient(timestamp: Bytes, snapshot: Bytes) returns (c: Client, boot: TrustedState)
    ensures c.env == World(TextOf(OTHER)) && c.repo == Serve(timestamp, snapshot) && boot.root.signed == ROOT
    ensures NoNewerRoot(c, boot, EarlierFiles(), 0, 0)
  {
    hide ThresholdResult, Parsed, RootName, TextOf, Payload;
    var marked := TextOf(OTHER);
    c := Client(World(marked), Serve(timestamp, snapshot), Config(2, 1, 1000, 1000, 1000, 1000));
    var root := RootDocument(marked);
    boot := TrustedState(root, None, None, map[]);
    assert Bootstrap(c.env, TextOf(Payload("root", 1, NO_PIN))) == Success(boot);
    SecondRootUnserved();
  }

  /** From a snapshot that pins targets.json to one of the same version that does not. */
  lemma {:induction false} LossExists() returns (c: Client, boot: TrustedState, b: Blobs, l: Loss)
    ensures LosingRuns(c, c, boot, b, 0, 0, l, 0) && Replaced(c.env, l)
    ensures l.held.signed.meta.Keys == {"targets.json"} && l.other.signed.meta == map[]
  {
    hide GoodLoss, Replaced, Bootstrapped, RootName, TextOf, Payload, NoNewerRoot;
    c, boot := SampleClient(TextOf(NEWER), TextOf(OTHER));
    b := EarlierFiles();
    l := SampleReplaced();
  }

  /** From version 5 with this pin to version 6 without it; the repository is the same in both runs. */
  lemma {:induction false} RejectedThenTakenExists() returns (c: Client, boot: TrustedState, b: Blobs, l: Loss)
    ensures LosingRuns(c, c, boot, b, 0, 0, l, 0) && l.held.signed.version < l.other.signed.version
    ensures ServesNewer(c, boot, 1, l)
    ensures l.held.signed.meta.Keys == {"targets.json"} && l.other.signed.meta == map[]
  {
    hide GoodLoss, Bootstrapped, RootName, TextOf, Payload, NoNewerRoot;
    c, boot := SampleClient(TextOf(NEWEST), TextOf(NEXT));
    b := EarlierFiles();
    l := SampleNewer();
  }
}
