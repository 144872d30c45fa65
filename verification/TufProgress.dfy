/**
 * Refreshes that succeed: what a client requests, under which names, and what it holds and stores in the end, when
 * the repository serves what it should; and how little the next run needs.
 */
module TufProgress {
  import opened Prelude
  import opened Decimal
  import opened TufMetadata
  import opened TufTrusted
  import opened TufHistory
  import opened TufDelegation
  import opened TufRefresh
  import opened TufStore
  import opened TufRestart
  import opened RoleNames

  // ----- What the repository serves

  /** The next roots one by one, each signed under the one before and under itself, and then no more. */
  ghost predicate ServesRoots(c: Client, held: Metadata<Root>, calls: nat, roots: seq<Metadata<Root>>,
        files: seq<Bytes>)
    decreases roots
  {
    && |files| == |roots|
    && var reply := c.repo(calls, Numeral(held.signed.version + 1) + ".root.json", c.config.rootMaxLength);
    if roots == [] then reply.NotFound?
    else
      && reply == Found(files[0]) && Parsed(c.env, "root", c.env.asRoot, files[0]) == Success(roots[0])
      && roots[0].signed.version == held.signed.version + 1
      && SignedBy(c.env, roots[0], held.signed, "root") && SignedBy(c.env, roots[0], roots[0].signed, "root")
      && ServesRoots(c, roots[0], calls + 1, roots[1..], files[1..])
  }

  function LastRoot(held: Metadata<Root>, roots: seq<Metadata<Root>>): Metadata<Root> {
    if roots == [] then held else roots[|roots| - 1]
  }

  /** The files of the lower roles, and what they parse to. */
  datatype Lower = Lower(
    tsFile: Bytes, ts: Metadata<Timestamp>, snapFile: Bytes, snap: Metadata<Snapshot>,
    targetsFile: Bytes, targets: Metadata<Targets>)

  /** A file is a signed and unexpired targets role under `root`, and the one that the snapshot pins. */
  ghost predicate GoodTargets(env: Env, root: Root, file: Bytes, m: Metadata<Targets>, snap: Snapshot, now: int) {
    && "targets.json" in snap.meta && m.signed.version == snap.meta["targets.json"].version
    && Integrity(env, file, snap.meta["targets.json"]).Success?
    && Parsed(env, "targets", env.asTargets, file) == Success(m)
    && SignedBy(env, m, root, "targets") && Fresh(env, m.signed.expires, now)
  }

  /** Each file is signed, unexpired, and as its parent pins it. */
  ghost predicate GoodLower(env: Env, root: Root, l: Lower, now: int) {
    && GoodTimestamp(env, root, l.tsFile, l.ts, now) && l.ts.signed.SnapshotMeta().Some?
    && GoodSnapshot(env, root, l.snapFile, l.snap, l.ts.signed.SnapshotMeta().value, now)
    && Integrity(env, l.snapFile, l.ts.signed.SnapshotMeta().value).Success?
    && GoodTargets(env, root, l.targetsFile, l.targets, l.snap.signed, now)
  }

  /** A role's file, behind its version where snapshots are consistent. */
  function Versioned(root: Root, version: Version, name: string): string {
    if root.consistentSnapshot then Numeral(version) + "." + name else name
  }

  ghost predicate ServesLower(c: Client, root: Root, calls: nat, l: Lower) {
    && c.repo(calls, "timestamp.json", c.config.timestampMaxLength) == Found(l.tsFile)
    && c.repo(calls + 1, Versioned(root, l.snap.signed.version, "snapshot.json"), c.config.snapshotMaxLength) ==
       Found(l.snapFile)
    && c.repo(calls + 2, Versioned(root, l.targets.signed.version, "targets.json"), c.config.targetsMaxLength) ==
       Found(l.targetsFile)
  }

  // ----- The roots

  /** The files that walking to these roots stores. */
  function RootFiles(roots: seq<Metadata<Root>>, files: seq<Bytes>): seq<Write>
    requires |roots| == |files|
  {
    if roots == [] then []
    else
      var name := "root_history/" + Numeral(roots[0].signed.version) + ".root.json";
      [Write(name, files[0]), Write("root.json", files[0])] + RootFiles(roots[1..], files[1..])
  }

  lemma {:induction false} StoredNameIs(version: nat)
    ensures StoredRootName(version) == "root_history/" + Numeral(version) + ".root.json"
  {
    hide Numeral;
    assert "root_history/" + (Numeral(version) + ".root.json") == "root_history/" + Numeral(version) + ".root.json";
  }

  lemma {:induction false} GoodRootAccepted(env: Env, st: TrustedState, file: Bytes, root: Metadata<Root>)
    requires Parsed(env, "root", env.asRoot, file) == Success(root) && root.signed.version == st.root.signed.version + 1
    requires SignedBy(env, root, st.root.signed, "root") && SignedBy(env, root, root.signed, "root")
    ensures RootStep(env, st, file) == Success(TrustedState(root, None, None, map[]))
  {
    hide Parsed, ThresholdResult;
  }

  lemma {:induction false} RootsAreAdopted(c: Client, st: ClientState, left: nat, roots: seq<Metadata<Root>>,
        files: seq<Bytes>)
    requires st.trusted == Bare(st.trusted) && |roots| < left
    requires ServesRoots(c, st.trusted.root, st.calls, roots, files)
    ensures RootWalk(c, st, left) ==
            Refreshed(OK, ClientState(TrustedState(LastRoot(st.trusted.root, roots), None, None, map[]),
                                      st.calls + |roots| + 1), RootFiles(roots, files))
    decreases roots
  {
    hide Parsed, SignedBy, RootStep, Numeral, StoredRootName;
    if roots != [] {
      GoodRootAccepted(c.env, st.trusted, files[0], roots[0]);
      StoredNameIs(roots[0].signed.version);
      var after := ClientState(TrustedState(roots[0], None, None, map[]), st.calls + 1);
      assert RootRound(c, st) == Adopted(after, RootWrites(roots[0].signed.version, files[0]));
      RootsAreAdopted(c, after, left - 1, roots[1..], files[1..]);
      assert LastRoot(roots[0], roots[1..]) == LastRoot(st.trusted.root, roots);
    }
  }

  // ----- The lower roles

  lemma {:induction false} GoodTargetsAccepted(env: Env, st: TrustedState, file: Bytes, m: Metadata<Targets>, now: int)
    requires st.snapshot.Some? && Fresh(env, st.snapshot.value.signed.expires, now)
    requires GoodTargets(env, st.root.signed, file, m, st.snapshot.value.signed, now)
    ensures TargetsStep(env, st, file, now) == Success(st.(targets := st.targets["targets" := m]))
  {
    hide Parsed, ThresholdResult, HashesOk;
    assert "targets" + ".json" == "targets.json";
  }

  lemma {:induction false} VersionedNames(st: TrustedState, snap: Version, targets: Version)
    ensures SnapshotName(st, snap) == Versioned(st.root.signed, snap, "snapshot.json")
    ensures st.snapshot.Some? && "targets.json" in st.snapshot.value.signed.meta &&
            st.snapshot.value.signed.meta["targets.json"].version == targets ==>
              TargetsFileName(st, "targets") == Success(Versioned(st.root.signed, targets, "targets.json"))
  {
    hide Numeral, EncodedRole;
    PlainNameIsOwn("targets", "targets");
    assert "targets" + ".json" == "targets.json";
    assert VersionPrefix(targets) + "targets" + ".json" == Numeral(targets) + "." + "targets.json";
  }

  function Complete(root: Metadata<Root>, l: Lower): TrustedState {
    TrustedState(root, Some(l.ts), Some(l.snap), map["targets" := l.targets])
  }

  function LowerFiles(root: Root, l: Lower): seq<Write> {
    [Write("timestamp.json", l.tsFile),
     Write(Versioned(root, l.snap.signed.version, "snapshot.json"), l.snapFile), Write("snapshot.json", l.snapFile),
     Write("targets.json", l.targetsFile)]
  }

  lemma {:induction false} LowerIsFetched(c: Client, st: ClientState, l: Lower, now: int)
    requires st.trusted == Bare(st.trusted) && GoodLower(c.env, st.trusted.root.signed, l, now)
    requires ServesLower(c, st.trusted.root.signed, st.calls, l)
    ensures RefreshFromTimestamp(c, st, now) ==
            Refreshed(OK, ClientState(Complete(st.trusted.root, l), st.calls + 3),
                      LowerFiles(st.trusted.root.signed, l))
  {
    hide GoodSnapshot, GoodTimestamp, GoodTargets, TimestampStep, SnapshotStep, TargetsStep, Integrity, SnapshotName,
      TargetsFileName, Versioned;
    var root := st.trusted.root.signed;
    GoodTimestampAccepted(c.env, st.trusted, l.tsFile, l.ts, now);
    FreshOf(c.env, root, l.tsFile, l.ts, now);
    var a := ClientState(st.trusted.(timestamp := Some(l.ts)), st.calls + 1);
    assert RefreshTimestamp(c, st, now) == Refreshed(OK, a, [Write("timestamp.json", l.tsFile)]);
    SnapshotIsFetched(c, a, l, now);
    var b := ClientState(a.trusted.(snapshot := Some(l.snap), targets := map[]), st.calls + 2);
    TargetsAreFetched(c, b, l, now);
    assert Complete(st.trusted.root, l) == b.trusted.(targets := map["targets" := l.targets]);
    assert LowerFiles(root, l) ==
           RefreshTimestamp(c, st, now).writes + (RefreshSnapshot(c, a, now).writes + RefreshTargets(c, b, now).writes);
  }

  lemma {:induction false} SnapshotIsFetched(c: Client, st: ClientState, l: Lower, now: int)
    requires st.trusted.snapshot.None? && st.trusted.timestamp == Some(l.ts)
    requires GoodLower(c.env, st.trusted.root.signed, l, now)
    requires var name := Versioned(st.trusted.root.signed, l.snap.signed.version, "snapshot.json");
             c.repo(st.calls, name, c.config.snapshotMaxLength) == Found(l.snapFile)
    ensures var name := Versioned(st.trusted.root.signed, l.snap.signed.version, "snapshot.json");
            RefreshSnapshot(c, st, now) ==
            Refreshed(OK, ClientState(st.trusted.(snapshot := Some(l.snap), targets := map[]), st.calls + 1),
                      [Write(name, l.snapFile), Write("snapshot.json", l.snapFile)])
  {
    hide GoodTimestamp, GoodTargets, SnapshotStep, Integrity, SnapshotName, Versioned;
    FreshOf(c.env, st.trusted.root.signed, l.tsFile, l.ts, now);
    GoodSnapshotAccepted(c.env, st.trusted, l.snapFile, l.snap, now);
    VersionedNames(st.trusted, l.snap.signed.version, 0);
  }

  lemma {:induction false} TargetsAreFetched(c: Client, st: ClientState, l: Lower, now: int)
    requires st.trusted.snapshot == Some(l.snap) && st.trusted.targets == map[]
    requires GoodLower(c.env, st.trusted.root.signed, l, now)
    requires var name := Versioned(st.trusted.root.signed, l.targets.signed.version, "targets.json");
             c.repo(st.calls, name, c.config.targetsMaxLength) == Found(l.targetsFile)
    ensures RefreshTargets(c, st, now) ==
            Refreshed(OK, ClientState(st.trusted.(targets := map["targets" := l.targets]), st.calls + 1),
                      [Write("targets.json", l.targetsFile)])
  {
    hide GoodTimestamp, Parsed, SignedBy, TargetsStep, Integrity, TargetsFileName, Versioned;
    GoodTargetsAccepted(c.env, st.trusted, l.targetsFile, l.targets, now);
    VersionedNames(st.trusted, 0, l.targets.signed.version);
  }

  // ----- A refresh that succeeds

  /** The client may look for one root more than there are, and versions stay below 2^64. */
  predicate RoomFor(c: Client, held: Metadata<Root>, n: nat) {
    n < c.config.maxRootRotations && held.signed.version + c.config.maxRootRotations < U64_LIMIT
  }

  /**
   * A client that holds a root and nothing else, with a store that has no timestamp, ends with the newest root
   * and with the files that are served, in one request each, and stores them all.
   */
  lemma {:induction false} RefreshSucceeds(c: Client, st: ClientState, b: Blobs, roots: seq<Metadata<Root>>,
        files: seq<Bytes>, l: Lower, now: int)
    requires st.trusted == Bare(st.trusted) && "timestamp.json" !in b
    requires ServesRoots(c, st.trusted.root, st.calls, roots, files) && RoomFor(c, st.trusted.root, |roots|)
    requires var last := LastRoot(st.trusted.root, roots);
             && Fresh(c.env, last.signed.expires, now) && GoodLower(c.env, last.signed, l, now)
             && ServesLower(c, last.signed, st.calls + |roots| + 1, l)
    ensures var last := LastRoot(st.trusted.root, roots);
            Refresh(c, st, b, now) ==
            Refreshed(OK, ClientState(Complete(last, l), st.calls + |roots| + 4),
                      RootFiles(roots, files) + LowerFiles(last.signed, l))
  {
    hide RootWalk, RefreshFromTimestamp, ServesRoots, GoodLower, ServesLower, RootFiles, LowerFiles, TimestampStep,
      SnapshotStep, TargetsStep;
    RootsAreAdopted(c, st, c.config.maxRootRotations, roots, files);
    var root := RefreshRoot(c, st).st;
    NothingSeeded(c.env, root.trusted, b, now);
    LowerIsFetched(c, root, l, now);
  }

  // ----- The next run

  /** The store has these files. */
  predicate Holds(b: Blobs, l: Lower) {
    && "timestamp.json" in b && b["timestamp.json"] == l.tsFile
    && "snapshot.json" in b && b["snapshot.json"] == l.snapFile
    && "targets.json" in b && b["targets.json"] == l.targetsFile
  }

  lemma {:induction false} AllAreSeeded(env: Env, st: TrustedState, b: Blobs, l: Lower, now: int)
    requires st == Bare(st) && Holds(b, l) && GoodLower(env, st.root.signed, l, now)
    ensures Seeded(env, st, b, now) == Complete(st.root, l)
  {
    hide GoodTimestamp, GoodTargets, TimestampStep, SnapshotStep, TargetsStep, Integrity;
    GoodTimestampAccepted(env, st, l.tsFile, l.ts, now);
    FreshOf(env, st.root.signed, l.tsFile, l.ts, now);
    var a := st.(timestamp := Some(l.ts));
    GoodSnapshotAccepted(env, a, l.snapFile, l.snap, now);
    var s := a.(snapshot := Some(l.snap), targets := map[]);
    GoodTargetsAccepted(env, s, l.targetsFile, l.targets, now);
    assert SeedSnapshot(env, SeedTimestamp(env, st, b, now), b, now) == s;
  }

  lemma {:induction false} AllIsCurrent(c: Client, st: ClientState, l: Lower, now: int)
    requires st.trusted == Complete(st.trusted.root, l) && GoodLower(c.env, st.trusted.root.signed, l, now)
    requires c.repo(st.calls, "timestamp.json", c.config.timestampMaxLength) == Found(l.tsFile)
    ensures RefreshFromTimestamp(c, st, now) == Quiet(OK, ClientState(st.trusted, st.calls + 1))
  {
    hide Parsed, SignedBy, TimestampStep, Integrity, FetchSnapshot, FetchTargets;
    GoodTimestampAccepted(c.env, st.trusted, l.tsFile, l.ts, now);
    var after := ClientState(st.trusted, st.calls + 1);
    assert RefreshTimestamp(c, st, now) == Quiet(OK, after);
    assert RefreshSnapshot(c, after, now) == Quiet(OK, after);
    assert RefreshTargets(c, after, now) == Quiet(OK, after);
  }

  /**
   * With these files in the store, and a repository that has no next root and still serves the same
   * timestamp, two requests suffice for the same state, and nothing is stored.
   */
  lemma {:induction false} NothingIsFetchedAgain(c: Client, st: ClientState, b: Blobs, l: Lower, now: int)
    requires st.trusted == Bare(st.trusted) && Holds(b, l)
    requires ServesRoots(c, st.trusted.root, st.calls, [], []) && RoomFor(c, st.trusted.root, 0)
    requires Fresh(c.env, st.trusted.root.signed.expires, now) && GoodLower(c.env, st.trusted.root.signed, l, now)
    requires c.repo(st.calls + 1, "timestamp.json", c.config.timestampMaxLength) == Found(l.tsFile)
    ensures Refresh(c, st, b, now) == Quiet(OK, ClientState(Complete(st.trusted.root, l), st.calls + 2))
  {
    hide RootWalk, RefreshFromTimestamp, ServesRoots, GoodLower, Seeded;
    RootsAreAdopted(c, st, c.config.maxRootRotations, [], []);
    AllAreSeeded(c.env, st.trusted, b, l, now);
    AllIsCurrent(c, ClientState(Complete(st.trusted.root, l), st.calls + 1), l, now);
  }

  lemma {:induction false} LowerFilesHeld(b: Blobs, root: Root, l: Lower)
    ensures Holds(WriteAll(b, LowerFiles(root, l), 4), l)
  {
    hide Numeral;
    var ws := LowerFiles(root, l);
    NumeralDigits(l.snap.signed.version);
    assert ws[1].name != "timestamp.json";
    assert WriteAll(b, ws, 1) == WriteAll(b, ws, 0)[ws[0].name := ws[0].bytes];
    assert WriteAll(b, ws, 2) == WriteAll(b, ws, 1)[ws[1].name := ws[1].bytes];
    assert WriteAll(b, ws, 3) == WriteAll(b, ws, 2)[ws[2].name := ws[2].bytes];
  }

  /** So it is after a first run, if its writes took effect and the files are still unexpired. */
  lemma {:induction false} SecondRunIsShort(c: Client, st: ClientState, b: Blobs, roots: seq<Metadata<Root>>,
        files: seq<Bytes>, l: Lower, now: int, c': Client, calls': nat, now': int)
    requires st.trusted == Bare(st.trusted) && "timestamp.json" !in b
    requires ServesRoots(c, st.trusted.root, st.calls, roots, files) && RoomFor(c, st.trusted.root, |roots|)
    requires var last := LastRoot(st.trusted.root, roots);
             && Fresh(c.env, last.signed.expires, now) && GoodLower(c.env, last.signed, l, now)
             && ServesLower(c, last.signed, st.calls + |roots| + 1, l)
             && Fresh(c'.env, last.signed.expires, now') && GoodLower(c'.env, last.signed, l, now')
             && ServesRoots(c', last, calls', [], []) && RoomFor(c', last, 0)
    requires c'.repo(calls' + 1, "timestamp.json", c'.config.timestampMaxLength) == Found(l.tsFile)
    ensures var first := Refresh(c, st, b, now);
            Refresh(c', ClientState(Bare(first.st.trusted), calls'), AfterWrites(b, first), now') ==
            Quiet(OK, ClientState(first.st.trusted, calls' + 2))
  {
    hide Refresh, GoodLower, ServesLower, RootFiles, LowerFiles, Holds, Parsed, SignedBy;
    RefreshSucceeds(c, st, b, roots, files, l, now);
    var root, first := LastRoot(st.trusted.root, roots), Refresh(c, st, b, now);
    FourFiles(root.signed, l);
    WriteAllThen(b, RootFiles(roots, files), LowerFiles(root.signed, l), 4);
    LowerFilesHeld(WriteAll(b, RootFiles(roots, files), |RootFiles(roots, files)|), root.signed, l);
    NothingIsFetchedAgain(c', ClientState(Bare(first.st.trusted), calls'), AfterWrites(b, first), l, now');
  }

  lemma {:induction false} FourFiles(root: Root, l: Lower)
    ensures |LowerFiles(root, l)| == 4
  {
  }
}
