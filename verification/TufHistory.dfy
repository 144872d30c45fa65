/** What every sequence of updates of a TrustedMetadataSet keeps, whatever bytes and times it is fed. */
module TufHistory {
  import opened Prelude
  import opened TufMetadata
  import opened TufTrusted

  // ----- What an accepted update changes

  /** The new root is the next version, signed under the old root and under itself; all else is dropped. */
  predicate RootRotates(env: Env, before: TrustedState, after: TrustedState) {
    && after == TrustedState(after.root, None, None, map[])
    && after.root.signed.version == before.root.signed.version + 1
    && SignedBy(env, after.root, before.root.signed, "root")
    && SignedBy(env, after.root, after.root.signed, "root")
  }

  predicate TimestampReplaced(env: Env, before: TrustedState, after: TrustedState) {
    && after.timestamp.Some?
    && after == before.(timestamp := after.timestamp)
    && SignedBy(env, after.timestamp.value, before.root.signed, "timestamp")
    && TimestampAdvance(before.timestamp, after.timestamp.value.signed).Success?
  }

  predicate SnapshotReplaced(env: Env, before: TrustedState, after: TrustedState) {
    && after.snapshot.Some? && before.timestamp.Some?
    && after == before.(snapshot := after.snapshot, targets := map[])
    && SignedBy(env, after.snapshot.value, before.root.signed, "snapshot")
    && before.timestamp.value.signed.SnapshotMeta().Some?
    && after.snapshot.value.signed.version == before.timestamp.value.signed.SnapshotMeta().value.version
    && (before.snapshot.Some? ==> PinsKept(before.snapshot.value.signed.meta, after.snapshot.value.signed.meta))
  }

  ghost predicate TargetsReplaced(env: Env, before: TrustedState, after: TrustedState, role: string) {
    && role in after.targets
    && after == before.(targets := before.targets[role := after.targets[role]])
    && TargetsPinned(after, role)
    && if role == "targets" then SignedBy(env, after.targets[role], before.root.signed, "targets")
       else VouchedFor(env, before, role, after.targets[role])
  }

  /** A held targets file has the version that the held snapshot pins, and no reserved name. */
  predicate TargetsPinned(st: TrustedState, role: string)
    requires role in st.targets
  {
    && st.snapshot.Some?
    && role + ".json" in st.snapshot.value.signed.meta
    && st.targets[role].signed.version == st.snapshot.value.signed.meta[role + ".json"].version
    && (role == "targets" || !IsTopLevelRole(role))
  }

  /** The file met the threshold that some held role set for `role`. */
  ghost predicate VouchedFor(env: Env, st: TrustedState, role: string, m: Metadata<Targets>) {
    exists delegator :: VouchedBy(env, st, delegator, role, m)
  }

  predicate VouchedBy(env: Env, st: TrustedState, delegator: string, role: string, m: Metadata<Targets>) {
    var authority := DelegationAuthority(st, delegator, role);
    authority.Success? &&
    ThresholdResult(env, m.signatures, m.canonicalSigned, authority.value.0, authority.value.1, role).Success?
  }

  lemma {:induction false} RootEffect(env: Env, st: TrustedState, bytes: Bytes)
    requires RootStep(env, st, bytes).Success?
    ensures RootRotates(env, st, RootStep(env, st, bytes).value)
  {
  }

  lemma {:induction false} TimestampEffect(env: Env, st: TrustedState, bytes: Bytes, now: int)
    requires TimestampStep(env, st, bytes, now).Success?
    ensures TimestampReplaced(env, st, TimestampStep(env, st, bytes, now).value)
    ensures Fresh(env, TimestampStep(env, st, bytes, now).value.timestamp.value.signed.expires, now)
  {
  }

  lemma {:induction false} SnapshotEffect(env: Env, st: TrustedState, bytes: Bytes, now: int)
    requires SnapshotStep(env, st, bytes, now).Success?
    ensures SnapshotReplaced(env, st, SnapshotStep(env, st, bytes, now).value)
    ensures Fresh(env, SnapshotStep(env, st, bytes, now).value.snapshot.value.signed.expires, now)
  {
  }

  lemma {:induction false} PinnedEffect(env: Env, st: TrustedState, bytes: Bytes, role: string, now: int)
    requires PinnedTargets(env, st, bytes, role, now).Success?
    ensures st.snapshot.Some? && role + ".json" in st.snapshot.value.signed.meta
    ensures var pin := st.snapshot.value.signed.meta[role + ".json"];
            PinnedTargets(env, st, bytes, role, now).value.signed.version == pin.version
  {
  }

  lemma {:induction false} TargetsEffect(env: Env, st: TrustedState, bytes: Bytes, now: int)
    requires TargetsStep(env, st, bytes, now).Success?
    ensures TargetsReplaced(env, st, TargetsStep(env, st, bytes, now).value, "targets")
    ensures Fresh(env, TargetsStep(env, st, bytes, now).value.targets["targets"].signed.expires, now)
  {
    PinnedEffect(env, st, bytes, "targets", now);
  }

  lemma {:induction false} DelegatedEffect(env: Env, st: TrustedState, bytes: Bytes, role: string,
        delegator: string, now: int)
    requires DelegatedStep(env, st, bytes, role, delegator, now).Success?
    ensures TargetsReplaced(env, st, DelegatedStep(env, st, bytes, role, delegator, now).value, role)
    ensures role != "targets"
    ensures VouchedBy(env, st, delegator, role, DelegatedStep(env, st, bytes, role, delegator, now).value.targets[role])
  {
    PinnedEffect(env, st, bytes, role, now);
    assert VouchedBy(env, st, delegator, role, DelegatedStep(env, st, bytes, role, delegator, now).value.targets[role]);
  }

  // ----- Which files an update accepts

  /** A file is a signed and unexpired timestamp under `root`. */
  ghost predicate GoodTimestamp(env: Env, root: Root, bytes: Bytes, ts: Metadata<Timestamp>, now: int) {
    && Parsed(env, "timestamp", env.asTimestamp, bytes) == Success(ts)
    && SignedBy(env, ts, root, "timestamp") && Fresh(env, ts.signed.expires, now)
  }

  /** A file is a signed and unexpired snapshot under `root`, of the pinned version. */
  ghost predicate GoodSnapshot(env: Env, root: Root, bytes: Bytes, snap: Metadata<Snapshot>, pin: MetaFile, now: int) {
    && Parsed(env, "snapshot", env.asSnapshot, bytes) == Success(snap)
    && SignedBy(env, snap, root, "snapshot") && Fresh(env, snap.signed.expires, now)
    && snap.signed.version == pin.version
  }

  lemma {:induction false} GoodTimestampAccepted(env: Env, st: TrustedState, bytes: Bytes, ts: Metadata<Timestamp>,
        now: int)
    requires GoodTimestamp(env, st.root.signed, bytes, ts, now)
    ensures TimestampStep(env, st, bytes, now) ==
            match TimestampAdvance(st.timestamp, ts.signed)
            case Failure(error) => Failure(error)
            case Success(_) => Success(st.(timestamp := Some(ts)))
  {
    hide Parsed, ThresholdResult;
  }

  /** Such a snapshot is accepted exactly when it has the pinned hashes and keeps the held pins. */
  lemma {:induction false} GoodSnapshotAccepted(env: Env, st: TrustedState, bytes: Bytes, snap: Metadata<Snapshot>,
        now: int)
    requires st.timestamp.Some? && Fresh(env, st.timestamp.value.signed.expires, now)
    requires st.timestamp.value.signed.SnapshotMeta().Some?
    requires GoodSnapshot(env, st.root.signed, bytes, snap, st.timestamp.value.signed.SnapshotMeta().value, now)
    ensures var pin := st.timestamp.value.signed.SnapshotMeta().value;
            SnapshotStep(env, st, bytes, now) ==
            if Integrity(env, bytes, pin).Failure? then Failure(Integrity(env, bytes, pin).error)
            else if SnapshotAdvance(st.snapshot, snap.signed).Failure? then Failure(PinRegression)
            else Success(st.(snapshot := Some(snap), targets := map[]))
  {
    hide Parsed, ThresholdResult, Integrity, PinsKept;
  }

  // ----- What every accepted update does

  /** One of the four replacements, and nothing else, is what an accepted update does. */
  ghost predicate Changes(env: Env, before: TrustedState, after: TrustedState) {
    || RootRotates(env, before, after)
    || TimestampReplaced(env, before, after)
    || SnapshotReplaced(env, before, after)
    || exists role :: TargetsReplaced(env, before, after, role)
  }

  lemma {:induction false} AcceptedChanges(env: Env, before: TrustedState, after: TrustedState)
    requires Accepted(env, before, after)
    ensures Changes(env, before, after)
  {
    var u :| Apply(env, before, u) == Success(after);
    match u
    case UpdateRoot(bytes) => RootEffect(env, before, bytes);
    case UpdateTimestamp(bytes, now) => TimestampEffect(env, before, bytes, now);
    case UpdateSnapshot(bytes, now) => SnapshotEffect(env, before, bytes, now);
    case UpdateTargets(bytes, now) => TargetsEffect(env, before, bytes, now);
    case UpdateDelegated(bytes, role, delegator, now) => DelegatedEffect(env, before, bytes, role, delegator, now);
  }

  lemma {:induction false} HistoryStep(env: Env, h: seq<TrustedState>, i: nat)
    requires IsHistory(env, h) && 0 < i < |h|
    ensures Changes(env, h[i - 1], h[i])
  {
    assert StepAt(env, h, i);
    AcceptedChanges(env, h[i - 1], h[i]);
  }

  lemma {:induction false} NothingHeldAtFirst(env: Env, h: seq<TrustedState>)
    requires IsHistory(env, h)
    ensures h[0] == TrustedState(h[0].root, None, None, map[])
    ensures SignedBy(env, h[0].root, h[0].root.signed, "root")
  {
  }

  // ----- What holds in every reachable state

  /** Every held role is vouched for by the held root, and every held file is the one its parent pins. */
  ghost predicate Coherent(env: Env, st: TrustedState) {
    var root := st.root.signed;
    && SignedBy(env, st.root, root, "root")
    && (st.timestamp.Some? ==> SignedBy(env, st.timestamp.value, root, "timestamp"))
    && (st.snapshot.Some? ==> st.timestamp.Some? && SignedBy(env, st.snapshot.value, root, "snapshot"))
    && (st.targets != map[] ==> st.snapshot.Some?)
    && ("targets" in st.targets ==> SignedBy(env, st.targets["targets"], root, "targets"))
    && (forall role :: role in st.targets ==> TargetsPinned(st, role))
  }

  /** Whatever is held at the top level was signed by enough of the keys that the held root lists for it. */
  ghost predicate HeldSigned(env: Env, st: TrustedState) {
    var root := st.root.signed;
    && MeetsThreshold(env, st.root, root, "root")
    && (st.timestamp.Some? ==> MeetsThreshold(env, st.timestamp.value, root, "timestamp"))
    && (st.snapshot.Some? ==> MeetsThreshold(env, st.snapshot.value, root, "snapshot"))
    && ("targets" in st.targets ==> MeetsThreshold(env, st.targets["targets"], root, "targets"))
  }

  lemma {:induction false} CoherentIsSigned(env: Env, st: TrustedState)
    requires Coherent(env, st)
    ensures HeldSigned(env, st)
  {
    hide SignedBy, MeetsThreshold, TargetsPinned;
    var root := st.root.signed;
    SignedByIff(env, st.root, root, "root");
    if st.timestamp.Some? { SignedByIff(env, st.timestamp.value, root, "timestamp"); }
    if st.snapshot.Some? { SignedByIff(env, st.snapshot.value, root, "snapshot"); }
    if "targets" in st.targets { SignedByIff(env, st.targets["targets"], root, "targets"); }
  }

  lemma {:induction false} UpdateKeepsCoherence(env: Env, before: TrustedState, after: TrustedState)
    requires Coherent(env, before) && Changes(env, before, after)
    ensures Coherent(env, after)
  {
    if role :| TargetsReplaced(env, before, after, role) {
      OtherRolesPinned(before, after, role);
    } else if TimestampReplaced(env, before, after) {
      forall r | r in after.targets ensures TargetsPinned(after, r) {
        assert TargetsPinned(before, r);
      }
    }
  }

  lemma {:induction false} OtherRolesPinned(before: TrustedState, after: TrustedState, role: string)
    requires role in after.targets && after == before.(targets := before.targets[role := after.targets[role]])
    requires forall r :: r in before.targets ==> TargetsPinned(before, r)
    requires TargetsPinned(after, role)
    ensures forall r :: r in after.targets ==> TargetsPinned(after, r)
  {
    forall r | r in after.targets ensures TargetsPinned(after, r) {
      if r != role { assert TargetsPinned(before, r); }
    }
  }

  lemma {:induction false} EveryStateCoherent(env: Env, h: seq<TrustedState>, i: nat)
    requires IsHistory(env, h) && i < |h|
    ensures Coherent(env, h[i]) && HeldSigned(env, h[i])
  {
    hide HeldSigned;
    if i == 0 {
      NothingHeldAtFirst(env, h);
    } else {
      EveryStateCoherent(env, h, i - 1);
      HistoryStep(env, h, i);
      UpdateKeepsCoherence(env, h[i - 1], h[i]);
    }
    CoherentIsSigned(env, h[i]);
  }

  // ----- The chain of roots

  lemma {:induction false} RotatesOrKeepsRoot(env: Env, before: TrustedState, after: TrustedState)
    requires Changes(env, before, after)
    ensures RootRotates(env, before, after) || NoRollback(before, after)
  {
  }

  /** How many of the first `n` updates replaced the root. */
  function Rotations(h: seq<TrustedState>, n: nat): nat
    requires n < |h|
  {
    if n == 0 then 0 else Rotations(h, n - 1) + if h[n].root == h[n - 1].root then 0 else 1
  }

  /** The root version counts the accepted roots, and each accepted root is linked to the one before. */
  lemma {:induction false} RootChain(env: Env, h: seq<TrustedState>, n: nat)
    requires IsHistory(env, h) && n < |h|
    ensures h[n].root.signed.version == h[0].root.signed.version + Rotations(h, n)
    ensures forall i :: 0 < i <= n && h[i].root != h[i - 1].root ==>
              && RootRotates(env, h[i - 1], h[i])
              && MeetsThreshold(env, h[i].root, h[i - 1].root.signed, "root")
              && MeetsThreshold(env, h[i].root, h[i].root.signed, "root")
  {
    hide SignedBy, MeetsThreshold;
    if n > 0 {
      RootChain(env, h, n - 1);
      HistoryStep(env, h, n);
      RotatesOrKeepsRoot(env, h[n - 1], h[n]);
      SignedByIff(env, h[n].root, h[n - 1].root.signed, "root");
      SignedByIff(env, h[n].root, h[n].root.signed, "root");
    }
  }

  // ----- No version moves back while the root stays

  predicate NoRollback(before: TrustedState, after: TrustedState) {
    && after.root == before.root
    && (before.timestamp.Some? ==>
          after.timestamp.Some? &&
          (after.timestamp == before.timestamp ||
           after.timestamp.value.signed.version > before.timestamp.value.signed.version))
    && (before.snapshot.Some? ==>
          after.snapshot.Some? && PinsKept(before.snapshot.value.signed.meta, after.snapshot.value.signed.meta))
  }

  lemma {:induction false} NoRollbackTransitive(a: TrustedState, b: TrustedState, c: TrustedState)
    ensures NoRollback(a, b) && NoRollback(b, c) ==> NoRollback(a, c)
  {
  }

  /** Between two states with the same root version, whatever happened in between. */
  lemma {:induction false} NothingMovesBack(env: Env, h: seq<TrustedState>, i: nat, j: nat)
    requires IsHistory(env, h) && i <= j < |h|
    ensures h[i].root.signed.version <= h[j].root.signed.version
    ensures h[i].root.signed.version == h[j].root.signed.version ==> NoRollback(h[i], h[j])
    decreases j
  {
    if i < j {
      NothingMovesBack(env, h, i, j - 1);
      HistoryStep(env, h, j);
      RotatesOrKeepsRoot(env, h[j - 1], h[j]);
      NoRollbackTransitive(h[i], h[j - 1], h[j]);
    }
  }

  /** A targets role that is held twice is never held at a lower version, although the map was cleared in between. */
  lemma {:induction false} TargetsNeverMoveBack(env: Env, h: seq<TrustedState>, i: nat, j: nat, role: string)
    requires IsHistory(env, h) && i <= j < |h| && h[i].root.signed.version == h[j].root.signed.version
    requires role in h[i].targets && role in h[j].targets
    ensures h[i].targets[role].signed.version <= h[j].targets[role].signed.version
  {
    NothingMovesBack(env, h, i, j);
    EveryStateCoherent(env, h, i);
    EveryStateCoherent(env, h, j);
    assert TargetsPinned(h[i], role) && TargetsPinned(h[j], role);
  }

  // ----- Snapshot versions

  /** The held snapshot is at most as new as the held timestamp says, if it says anything. */
  predicate SnapshotNotAhead(st: TrustedState) {
    st.timestamp.Some? && st.timestamp.value.signed.SnapshotMeta().Some? && st.snapshot.Some? ==>
      st.snapshot.value.signed.version <= st.timestamp.value.signed.SnapshotMeta().value.version
  }

  /**
   * A timestamp without a pin gives way to one that pins less than what is held: pins are compared only
   * when both timestamps have one.
   */
  predicate FloorLost(before: TrustedState, after: TrustedState) {
    && before.timestamp.Some? && before.snapshot.Some? && before.timestamp.value.signed.SnapshotMeta().None?
    && after.timestamp.Some? && after.snapshot == before.snapshot && after.root == before.root
    && after.timestamp.value.signed.SnapshotMeta().Some?
    && after.timestamp.value.signed.SnapshotMeta().value.version < before.snapshot.value.signed.version
  }

  /** An accepted update leaves the held snapshot ahead of the timestamp exactly when it loses the floor. */
  lemma {:induction false} AheadIffFloorLost(env: Env, before: TrustedState, after: TrustedState)
    requires Changes(env, before, after) && SnapshotNotAhead(before)
    requires before.snapshot.Some? ==> before.timestamp.Some?
    ensures !SnapshotNotAhead(after) <==> FloorLost(before, after)
  {
    hide ThresholdResult, Listed, TargetsPinned;
  }

  /** For the update at which protection is lost: the offered timestamp and the held state tell. */
  lemma {:induction false} FloorLostIff(env: Env, before: TrustedState, bytes: Bytes, now: int)
    requires TimestampStep(env, before, bytes, now).Success? && before.timestamp.Some? && before.snapshot.Some?
    requires SnapshotNotAhead(before)
    ensures var after := TimestampStep(env, before, bytes, now).value;
            var held := before.timestamp.value.signed.SnapshotMeta();
            var offered := after.timestamp.value.signed.SnapshotMeta();
            !SnapshotNotAhead(after) <==>
            held.None? && offered.Some? && offered.value.version < before.snapshot.value.signed.version
  {
    hide TimestampStep, ThresholdResult;
    TimestampEffect(env, before, bytes, now);
    AheadIffFloorLost(env, before, TimestampStep(env, before, bytes, now).value);
  }

  lemma {:induction false} SnapshotStepForward(env: Env, h: seq<TrustedState>, j: nat)
    requires IsHistory(env, h) && 0 < j < |h| && SnapshotNotAhead(h[j - 1])
    ensures !SnapshotNotAhead(h[j]) <==> FloorLost(h[j - 1], h[j])
    ensures h[j - 1].root == h[j].root && h[j - 1].snapshot.Some? ==>
              h[j].snapshot.Some? && h[j - 1].snapshot.value.signed.version <= h[j].snapshot.value.signed.version
  {
    hide IsHistory, ThresholdResult, TargetsPinned;
    EveryStateCoherent(env, h, j - 1);
    HistoryStep(env, h, j);
    AheadIffFloorLost(env, h[j - 1], h[j]);
  }

  ghost predicate FloorKept(h: seq<TrustedState>, j: nat)
    requires j < |h|
  {
    forall k :: 0 < k <= j ==> !FloorLost(h[k - 1], h[k])
  }

  /** As long as no update loses the floor, snapshot versions do not move back either. */
  lemma {:induction false} SnapshotNeverMovesBack(env: Env, h: seq<TrustedState>, i: nat, j: nat)
    requires IsHistory(env, h) && i <= j < |h| && FloorKept(h, j)
    ensures SnapshotNotAhead(h[j])
    ensures h[i].root.signed.version == h[j].root.signed.version && h[i].snapshot.Some? ==>
              h[j].snapshot.Some? && h[i].snapshot.value.signed.version <= h[j].snapshot.value.signed.version
    decreases j
  {
    hide FloorLost;
    if j == 0 {
      NothingHeldAtFirst(env, h);
    } else {
      hide IsHistory;
      var k := if i < j then i else j - 1;
      SnapshotNeverMovesBack(env, h, k, j - 1);
      SnapshotStepForward(env, h, j);
      NothingMovesBack(env, h, k, j - 1);
      NothingMovesBack(env, h, j - 1, j);
    }
  }

  predicate PinsSnapshot(st: TrustedState) {
    st.timestamp.Some? ==> st.timestamp.value.signed.SnapshotMeta().Some?
  }

  /** In particular if every accepted timestamp pins snapshot.json. */
  lemma {:induction false} PinningTimestampsKeepFloor(h: seq<TrustedState>, j: nat)
    requires j < |h| && forall k :: 0 <= k < j ==> PinsSnapshot(h[k])
    ensures FloorKept(h, j)
  {
    forall k | 0 < k <= j ensures !FloorLost(h[k - 1], h[k]) {
      assert PinsSnapshot(h[k - 1]);
    }
  }

  /** While the held snapshot is ahead of the timestamp, and only then, the next accepted one moves back. */
  lemma {:induction false} SnapshotMovesBackIff(env: Env, before: TrustedState, bytes: Bytes, now: int)
    requires SnapshotStep(env, before, bytes, now).Success? && before.snapshot.Some?
    ensures var after := SnapshotStep(env, before, bytes, now).value;
            after.snapshot.value.signed.version < before.snapshot.value.signed.version <==> !SnapshotNotAhead(before)
  {
    hide SnapshotStep, ThresholdResult;
    SnapshotEffect(env, before, bytes, now);
  }

  /** A snapshot gets ahead only where the floor was lost, with the same snapshot and root held ever since. */
  lemma {:induction false} AheadSinceFloorLost(env: Env, h: seq<TrustedState>, j: nat) returns (k: nat)
    requires IsHistory(env, h) && j < |h| && !SnapshotNotAhead(h[j])
    ensures 0 < k <= j && FloorLost(h[k - 1], h[k])
    ensures h[k].snapshot == h[j].snapshot && h[k].root == h[j].root
    decreases j
  {
    hide FloorLost;
    if j == 0 {
      NothingHeldAtFirst(env, h);
    } else if SnapshotNotAhead(h[j - 1]) {
      hide IsHistory;
      SnapshotStepForward(env, h, j);
      k := j;
    } else {
      StaysAhead(env, h, j);
      k := AheadSinceFloorLost(env, h, j - 1);
    }
  }

  lemma {:induction false} StaysAhead(env: Env, h: seq<TrustedState>, j: nat)
    requires IsHistory(env, h) && 0 < j < |h| && !SnapshotNotAhead(h[j - 1]) && !SnapshotNotAhead(h[j])
    ensures h[j - 1].snapshot == h[j].snapshot && h[j - 1].root == h[j].root
  {
    hide IsHistory, ThresholdResult, TargetsPinned;
    HistoryStep(env, h, j);
  }

  // ----- Delegations

  /** Every held delegated role was vouched for by a role held at an earlier moment, under the same snapshot. */
  lemma {:induction false} DelegatedRolesVouchedFor(env: Env, h: seq<TrustedState>, j: nat, role: string)
      returns (i: nat)
    requires IsHistory(env, h) && j < |h| && role in h[j].targets && role != "targets"
    ensures i < j && h[i].root == h[j].root && h[i].snapshot == h[j].snapshot
    ensures VouchedFor(env, h[i], role, h[j].targets[role])
    decreases j
  {
    if j == 0 {
      NothingHeldAtFirst(env, h);
    }
    HistoryStep(env, h, j);
    if TargetsReplaced(env, h[j - 1], h[j], role) {
      i := j - 1;
    } else {
      i := DelegatedRolesVouchedFor(env, h, j - 1, role);
    }
  }
}
