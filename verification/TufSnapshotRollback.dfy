/**
 * Where the floor of TufHistory.FloorLost is lost, snapshot versions move back: a timestamp that pins
 * no snapshot, accepted in between, makes the client forget how new the last pin was.
 */
module TufSnapshotRollback {
  import opened Prelude
  import opened TufMetadata
  import opened TufTrusted
  import opened TufHistory
  import opened TufSample

  // ----- For every environment

  /** The files of the run, and what they parse to. */
  datatype Run = Run(
    rootFile: Bytes, root: Metadata<Root>,
    firstFile: Bytes, first: Metadata<Timestamp>, newFile: Bytes, newer: Metadata<Snapshot>,
    unpinnedFile: Bytes, unpinned: Metadata<Timestamp>,
    lastFile: Bytes, last: Metadata<Timestamp>, staleFile: Bytes, stale: Metadata<Snapshot>)

  /** Signed and unexpired files: the second timestamp pins no snapshot, the third one an older one than the first. */
  ghost predicate GoodRun(env: Env, r: Run, now: int) {
    var root := r.root.signed;
    && Parsed(env, "root", env.asRoot, r.rootFile) == Success(r.root) && SignedBy(env, r.root, root, "root")
    && GoodTimestamp(env, root, r.firstFile, r.first, now)
    && GoodTimestamp(env, root, r.unpinnedFile, r.unpinned, now)
    && GoodTimestamp(env, root, r.lastFile, r.last, now)
    && r.first.signed.version < r.unpinned.signed.version < r.last.signed.version
    && r.unpinned.signed.SnapshotMeta().None?
    && PinnedBy(env, root, r.first, r.newFile, r.newer, now) && PinnedBy(env, root, r.last, r.staleFile, r.stale, now)
    && r.stale.signed.version < r.newer.signed.version && PinsKept(r.newer.signed.meta, r.stale.signed.meta)
  }

  ghost predicate PinnedBy(env: Env, root: Root, ts: Metadata<Timestamp>, file: Bytes, snap: Metadata<Snapshot>,
        now: int) {
    && ts.signed.SnapshotMeta().Some? && Integrity(env, file, ts.signed.SnapshotMeta().value).Success?
    && GoodSnapshot(env, root, file, snap, ts.signed.SnapshotMeta().value, now)
  }

  function Last(h: seq<TrustedState>): TrustedState
    requires h != []
  {
    h[|h| - 1]
  }

  /** Whatever the libraries do: such files take a client from one snapshot to an older one under one root. */
  lemma {:induction false} SnapshotCanMoveBack(env: Env, r: Run, now: int) returns (h: seq<TrustedState>)
    requires GoodRun(env, r, now)
    ensures IsHistory(env, h) && |h| == 6 && h[2].root == h[5].root == r.root
    ensures h[2].snapshot == Some(r.newer) && h[5].snapshot == Some(r.stale)
    ensures r.stale.signed.version < r.newer.signed.version && FloorLost(h[3], h[4])
  {
    hide Bootstrapped, StepAt, Parsed, PinnedBy, SignedBy, PinsKept;
    h := Start(env, r);
    h := AddTimestamp(env, h, r.firstFile, r.first, now);
    h := AddSnapshot(env, h, r.newFile, r.newer, now);
    h := AddTimestamp(env, h, r.unpinnedFile, r.unpinned, now);
    h := AddTimestamp(env, h, r.lastFile, r.last, now);
    PinnedVersion(env, r.root.signed, r.last, r.staleFile, r.stale, now);
    h := AddSnapshot(env, h, r.staleFile, r.stale, now);
  }

  lemma {:induction false} PinnedVersion(env: Env, root: Root, ts: Metadata<Timestamp>, file: Bytes,
        snap: Metadata<Snapshot>, now: int)
    requires PinnedBy(env, root, ts, file, snap, now)
    ensures ts.signed.SnapshotMeta().Some? && ts.signed.SnapshotMeta().value.version == snap.signed.version
  {
  }

  lemma {:induction false} Start(env: Env, r: Run) returns (h: seq<TrustedState>)
    requires Parsed(env, "root", env.asRoot, r.rootFile) == Success(r.root)
    requires SignedBy(env, r.root, r.root.signed, "root")
    ensures IsHistory(env, h) && |h| == 1 && Last(h) == TrustedState(r.root, None, None, map[])
  {
    hide Parsed, ThresholdResult;
    h := [TrustedState(r.root, None, None, map[])];
    assert Bootstrap(env, r.rootFile) == Success(h[0]);
  }

  lemma {:induction false} AddTimestamp(env: Env, h: seq<TrustedState>, file: Bytes, ts: Metadata<Timestamp>, now: int)
      returns (longer: seq<TrustedState>)
    requires IsHistory(env, h) && GoodTimestamp(env, Last(h).root.signed, file, ts, now)
    requires TimestampAdvance(Last(h).timestamp, ts.signed).Success?
    ensures IsHistory(env, longer) && longer == h + [Last(h).(timestamp := Some(ts))]
  {
    hide Bootstrapped, StepAt, GoodTimestamp, TimestampStep;
    var after := Last(h).(timestamp := Some(ts));
    GoodTimestampAccepted(env, Last(h), file, ts, now);
    HistoryGrows(env, h, UpdateTimestamp(file, now), after);
    longer := h + [after];
  }

  lemma {:induction false} AddSnapshot(env: Env, h: seq<TrustedState>, file: Bytes, snap: Metadata<Snapshot>, now: int)
      returns (longer: seq<TrustedState>)
    requires IsHistory(env, h) && Last(h).timestamp.Some? && Fresh(env, Last(h).timestamp.value.signed.expires, now)
    requires PinnedBy(env, Last(h).root.signed, Last(h).timestamp.value, file, snap, now)
    requires SnapshotAdvance(Last(h).snapshot, snap.signed).Success?
    ensures IsHistory(env, longer) && longer == h + [Last(h).(snapshot := Some(snap), targets := map[])]
  {
    hide Bootstrapped, StepAt, GoodSnapshot, SnapshotStep, Integrity, PinsKept;
    var after := Last(h).(snapshot := Some(snap), targets := map[]);
    GoodSnapshotAccepted(env, Last(h), file, snap, now);
    HistoryGrows(env, h, UpdateSnapshot(file, now), after);
    longer := h + [after];
  }

  // ----- There are such files

  /** From snapshot version 5 to version 1. */
  lemma {:induction false} GoodRunExists() returns (env: Env, r: Run)
    ensures GoodRun(env, r, 0) && r.newer.signed.version == 5 && r.stale.signed.version == 1
  {
    hide GoodTimestamp, GoodSnapshot, SignedBy, MetaIn, TextOf, Payload, Parsed;
    env := World([]);
    PinsRead(1, 5, None);
    NoPinsRead("timestamp", 2);
    PinsRead(3, 1, None);
    NoPinsRead("snapshot", 5);
    NoPinsRead("snapshot", 1);
    var root := RootDocument([]);
    var first := TimestampDocument([], 1, PinOf(5, None));
    var unpinned := TimestampDocument([], 2, NO_PIN);
    var last := TimestampDocument([], 3, PinOf(1, None));
    var newer := SnapshotDocument([], 5, NO_PIN, MetaFile(5, None, None));
    var stale := SnapshotDocument([], 1, NO_PIN, MetaFile(1, None, None));
    r := Run(TextOf(Payload("root", 1, NO_PIN)), root,
             TextOf(Payload("timestamp", 1, PinOf(5, None))), first, TextOf(Payload("snapshot", 5, NO_PIN)), newer,
             TextOf(Payload("timestamp", 2, NO_PIN)), unpinned,
             TextOf(Payload("timestamp", 3, PinOf(1, None))), last, TextOf(Payload("snapshot", 1, NO_PIN)), stale);
  }
}
