/** client.rs: the updater that drives a TrustedMetadataSet against a repository and a store. */
module TufClient {
  import opened Prelude
  import opened TufMetadata
  import opened TufTrusted
  import opened TufDelegation
  import opened TufSearchComplete
  import opened TufRefresh
  import opened TufStore
  import opened Decimal
  import opened Utf8Text
  import opened RoleNames

  lemma {:induction false} NothingWritten(blobs: Blobs, outcomes: seq<bool>)
    ensures Wrote(blobs, outcomes, [], blobs, outcomes)
  {
  }

  lemma {:induction false} AfterNothing(r: Refreshed)
    ensures After([], r) == r
  {
    assert [] + r.writes == r.writes;
  }

  lemma {:induction false} AfterTwice(a: seq<Write>, b: seq<Write>, r: Refreshed)
    ensures After(a, After(b, r)) == After(a + b, r)
  {
    assert a + (b + r.writes) == a + b + r.writes;
  }

  /** The files that the client reads again by itself: the top-level roles, and the root history. */
  ghost predicate CoreFile(name: string) {
    (exists role | IsTopLevelRole(role) :: name == role + ".json") || '/' in name
  }

  ghost predicate SameCoreFiles(a: Blobs, b: Blobs) {
    forall name | CoreFile(name) :: if name in a then name in b && b[name] == a[name] else name !in b
  }

  lemma {:induction false} SameCoreFilesReflexive(a: Blobs)
    ensures SameCoreFiles(a, a)
  {
  }

  lemma {:induction false} SameCoreFilesTransitive(a: Blobs, b: Blobs, c: Blobs)
    requires SameCoreFiles(a, b) && SameCoreFiles(b, c)
    ensures SameCoreFiles(a, c)
  {
    hide CoreFile;
  }

  /** A delegated role cannot take the place of any of them in the store. */
  lemma {:induction false} DelegatedFileIsNotCore(role: string)
    requires !IsTopLevelRole(role)
    ensures !CoreFile(EncodedRole(role) + ".json")
  {
    hide EncodedRole;
    var name := EncodedRole(role) + ".json";
    EncodedHasNoSlash(role);
    if top :| IsTopLevelRole(top) && name == top + ".json" {
      assert EncodedRole(role) == name[..|name| - 5] && top == (top + ".json")[..|name| - 5];
      PlainNameIsOwn(role, top);
      assert false;
    }
  }

  lemma {:induction false} NoReservedRole(env: Env, st: TrustedState, bytes: Bytes, role: string, delegator: string,
        now: int)
    requires DelegatedStep(env, st, bytes, role, delegator, now).Success?
    ensures !IsTopLevelRole(role)
  {
  }

  lemma {:induction false} EncodedHasNoSlash(role: string)
    ensures '/' !in EncodedRole(role) + ".json"
  {
    NoSlash(Utf8(role, 0), 0);
  }

  class Updater {
    const env: Env
    const repo: Repository
    const trusted: TrustedMetadataSet
    var config: Config
    var store: MetadataStore?
    var calls: nat

    function Constants(): Client
      reads this
    {
      Client(env, repo, config)
    }

    function View(): ClientState
      reads this, trusted
    {
      ClientState(trusted.View(), calls)
    }

    function Blobs(): Blobs
      reads this, store
    {
      if store == null then map[] else store.blobs
    }

    ghost function Outcomes(): seq<bool>
      reads this, store
    {
      if store == null then [] else store.outcomes
    }

    /** If there is a store, these writes and no others have gone to it since it was as given. */
    ghost predicate Offered(blobs: Blobs, outcomes: seq<bool>, writes: seq<Write>)
      reads this, store
    {
      store != null ==> Wrote(blobs, outcomes, writes, store.blobs, store.outcomes)
    }

    /** The method offered these files to the store, in this order; each write took effect or did not. */
    twostate predicate Cached(writes: seq<Write>)
      reads this, store
    {
      store == old(store) && Offered(old(Blobs()), old(Outcomes()), writes)
    }

    /** Walking the roots stores no file that seeds a lower role. */
    lemma {:induction false} SeedsSurvive(c: Client, st: ClientState, b: Blobs, o: seq<bool>)
      requires Offered(b, o, TufRefresh.RefreshRoot(c, st).writes) && (store == null ==> b == map[])
      ensures SameSeeds(b, Blobs())
    {
      hide TufRefresh.RefreshRoot, Wrote;
      RootWritesNoSeed(c, st);
      if store != null { SeedsUnwritten(b, o, TufRefresh.RefreshRoot(c, st).writes, store.blobs, store.outcomes); }
    }

    lemma {:induction false} OfferedThen(b: Blobs, o: seq<bool>, ws: seq<Write>, b': Blobs, o': seq<bool>,
          vs: seq<Write>)
      requires store != null ==> Wrote(b, o, ws, b', o')
      requires Offered(b', o', vs)
      ensures Offered(b, o, ws + vs)
    {
      if store != null { WroteThen(b, o, ws, b', o', vs, store.blobs, store.outcomes); }
    }

    ghost predicate Valid()
      reads this, trusted
    {
      trusted.env == env && trusted.Valid()
    }

    /** The updater went through to `st`, adding to the history of what it trusted. */
    twostate predicate Reached(st: ClientState)
      reads this, trusted
    {
      Valid() && View() == st && old(trusted.history) <= trusted.history
    }

    constructor FromTrusted(trusted: TrustedMetadataSet, repo: Repository, config: Config)
      requires trusted.Valid()
      ensures Valid() && this.trusted == trusted && this.env == trusted.env && this.repo == repo
      ensures this.config == config && store == null && calls == 0
    {
      this.env := trusted.env;
      this.trusted := trusted;
      this.repo := repo;
      this.config := config;
      store := null;
      calls := 0;
    }

    method WithConfig(config: Config)
      modifies this`config
      ensures this.config == config
    {
      this.config := config;
    }

    /** with_store. */
    method WithStore(store: MetadataStore) returns (r: Result<Unit, TufError>)
      requires Valid()
      modifies this`store, trusted
      ensures var adopted := AdoptStored(env, old(trusted.View()), old(store.blobs));
              && (r.Success? <==> adopted.Success?) && (r.Failure? ==> r.error == adopted.error)
              && (r.Success? ==> Reached(ClientState(adopted.value, old(calls))) && this.store == store)
      ensures store.blobs == old(store.blobs)
    {
      ghost var goal := AdoptStored(env, trusted.View(), store.blobs);
      var going := true;
      while going
        invariant Valid() && old(trusted.history) <= trusted.history
        invariant going ==> AdoptStored(env, trusted.View(), store.blobs) == goal
        invariant !going ==> Success(trusted.View()) == goal
        decreases going, U64_LIMIT - trusted.root.signed.version
      {
        ghost var before := trusted.View();
        var next :- Next(trusted.root.signed.version);
        var stored := store.Load(StoredRootName(next));
        if stored.None? {
          going := false;
        } else {
          var accepted := trusted.UpdateRoot(stored.value);
          RootStepCounts(env, before, stored.value);
          going := accepted.Success?;
        }
      }
      this.store := store;
      return Success(Unit.Unit);
    }

    method Fetch(name: string, maxLength: U64) returns (reply: Reply)
      modifies this`calls
      ensures reply == repo(old(calls), name, maxLength) && calls == old(calls) + 1
    {
      reply := repo(calls, name, maxLength);
      calls := calls + 1;
    }

    /** cache_put: a file that cannot be stored is not an error. */
    method CachePut(name: string, bytes: Bytes)
      modifies store
      ensures Cached([Write(name, bytes)])
      ensures Blobs() == old(Blobs()) || (store != null && Blobs() == old(Blobs())[name := bytes])
    {
      if store != null {
        var ok := store.Store(name, bytes);
        WroteOne(old(store.blobs), old(store.outcomes), Write(name, bytes), ok);
      }
    }

    method CacheBoth(name: string, latest: string, bytes: Bytes)
      modifies store
      ensures Cached([Write(name, bytes), Write(latest, bytes)])
    {
      hide Wrote;
      CachePut(name, bytes);
      ghost var blobs, outcomes := Blobs(), Outcomes();
      CachePut(latest, bytes);
      OfferedThen(old(Blobs()), old(Outcomes()), [Write(name, bytes)], blobs, outcomes, [Write(latest, bytes)]);
      assert [Write(name, bytes)] + [Write(latest, bytes)] == [Write(name, bytes), Write(latest, bytes)];
    }

    /** One round of the loop of refresh_root; the outcome, if it ends there. */
    method TryRoot(next: nat) returns (end: Option<Result<Unit, TufError>>)
      requires Valid() && next == trusted.root.signed.version + 1
      modifies this`calls, trusted, store
      ensures match RootRound(Constants(), old(View()))
              case Stop(result, after) => end == Some(result) && Reached(after) && Cached([])
              case Adopted(after, writes) =>
                && end.None? && Reached(after) && Cached(writes)
                && trusted.root.signed.version == next
    {
      hide TrustedMetadataSet.Valid, RootStep, RootName, Wrote;
      NothingWritten(Blobs(), Outcomes());
      ghost var before := trusted.View();
      var reply := Fetch(RootName(next), config.rootMaxLength);
      match reply {
        case Broken => return Some(Failure(Transport));
        case NotFound => return Some(Success(Unit.Unit));
        case Found(bytes) =>
          var updated := trusted.UpdateRoot(bytes);
          if updated.Failure? {
            return Some(updated);
          }
          RootStepCounts(env, before, bytes);
          CacheBoth(StoredRootName(next), "root.json", bytes);
          return None;
      }
    }

    /** refresh_root. */
    method RefreshRoot() returns (r: Result<Unit, TufError>)
      requires Valid()
      modifies this`calls, trusted, store
      ensures var spec := TufRefresh.RefreshRoot(Constants(), old(View()));
              r == spec.result && Reached(spec.st) && Cached(spec.writes)
    {
      hide TrustedMetadataSet.Valid, RootRound, Wrote;
      NothingWritten(Blobs(), Outcomes());
      var start := trusted.root.signed.version;
      if start + 1 >= U64_LIMIT || start + config.maxRootRotations >= U64_LIMIT {
        return Failure(Overflow);
      }
      ghost var goal := RootWalk(Constants(), View(), config.maxRootRotations);
      ghost var done: seq<Write> := [];
      AfterNothing(goal);
      var next := start + 1;
      while next <= start + config.maxRootRotations
        invariant Valid() && old(trusted.history) <= trusted.history
        invariant next == trusted.root.signed.version + 1 <= start + config.maxRootRotations + 1
        invariant After(done, RootWalk(Constants(), View(), start + config.maxRootRotations + 1 - next)) == goal
        invariant Cached(done)
      {
        ghost var round, blobs, outcomes := RootRound(Constants(), View()), Blobs(), Outcomes();
        ghost var offered := if round.Stop? then [] else round.writes;
        var end := TryRoot(next);
        OfferedThen(old(Blobs()), old(Outcomes()), done, blobs, outcomes, offered);
        if end.Some? {
          assert done + [] == done;
          return end.value;
        }
        AfterTwice(done, offered, RootWalk(Constants(), View(), start + config.maxRootRotations - next));
        done := done + offered;
        next := next + 1;
      }
      assert done + [] == done;
      return Failure(Transport);
    }

    /** seed_lower_from_store: each file that is there and passes is adopted, and failures are ignored. */
    method SeedLowerFromStore(now: int)
      requires Valid()
      modifies trusted
      ensures Reached(ClientState(Seeded(env, old(trusted.View()), Blobs(), now), calls))
    {
      hide TrustedMetadataSet.Valid, TimestampStep, SnapshotStep, TargetsStep;
      if store == null {
        return;
      }
      var timestamp := store.Load("timestamp.json");
      var snapshot := store.Load("snapshot.json");
      var targets := store.Load("targets.json");
      if timestamp.Some? {
        var _ := trusted.UpdateTimestamp(timestamp.value, now);
      }
      if snapshot.Some? {
        var _ := trusted.UpdateSnapshot(snapshot.value, now);
      }
      if targets.Some? {
        var _ := trusted.UpdateTargets(targets.value, now);
      }
    }

    /** refresh_timestamp. */
    method RefreshTimestamp(now: int) returns (r: Result<Unit, TufError>)
      requires Valid()
      modifies this`calls, trusted, store
      ensures var spec := TufRefresh.RefreshTimestamp(Constants(), old(View()), now);
              r == spec.result && Reached(spec.st) && Cached(spec.writes)
    {
      hide TrustedMetadataSet.Valid, TimestampStep, Wrote;
      NothingWritten(Blobs(), Outcomes());
      var reply := Fetch("timestamp.json", config.timestampMaxLength);
      if !reply.Found? {
        return Failure(Transport);
      }
      var updated := trusted.UpdateTimestamp(reply.bytes, now);
      if updated.Success? {
        CachePut("timestamp.json", reply.bytes);
      } else if !updated.error.EqualVersion? {
        return updated;
      }
      return Success(Unit.Unit);
    }

    /** refresh_snapshot. */
    method RefreshSnapshot(now: int) returns (r: Result<Unit, TufError>)
      requires Valid()
      modifies this`calls, trusted, store
      ensures var spec := TufRefresh.RefreshSnapshot(Constants(), old(View()), now);
              r == spec.result && Reached(spec.st) && Cached(spec.writes)
    {
      hide TrustedMetadataSet.Valid, TufRefresh.FetchSnapshot, Wrote;
      NothingWritten(Blobs(), Outcomes());
      if trusted.timestamp.None? {
        return Failure(Malformed);
      }
      var meta := trusted.timestamp.value.signed.SnapshotMeta();
      if meta.None? {
        return Failure(Malformed);
      }
      var version := meta.value.version;
      var _ :- trusted.CheckTimestampExpired(now);
      if trusted.snapshot.Some? && trusted.snapshot.value.signed.version == version {
        var expired :- Expiry(env, trusted.snapshot.value.signed.expires, now);
        if !expired {
          return Success(Unit.Unit);
        }
      }
      r := FetchSnapshot(version, now);
    }

    /** The fetching half of refresh_snapshot. */
    method FetchSnapshot(version: Version, now: int) returns (r: Result<Unit, TufError>)
      requires Valid()
      modifies this`calls, trusted, store
      ensures var spec := TufRefresh.FetchSnapshot(Constants(), old(View()), version, now);
              r == spec.result && Reached(spec.st) && Cached(spec.writes)
    {
      hide TrustedMetadataSet.Valid, SnapshotStep, VersionPrefix, Wrote;
      NothingWritten(Blobs(), Outcomes());
      var name := if trusted.root.signed.consistentSnapshot then VersionPrefix(version) + "snapshot.json"
        else "snapshot.json";
      var reply := Fetch(name, config.snapshotMaxLength);
      if !reply.Found? {
        return Failure(Transport);
      }
      var _ :- trusted.UpdateSnapshot(reply.bytes, now);
      CacheBoth(name, "snapshot.json", reply.bytes);
      return Success(Unit.Unit);
    }

    /** refresh_targets. */
    method RefreshTargets(now: int) returns (r: Result<Unit, TufError>)
      requires Valid()
      modifies this`calls, trusted, store
      ensures var spec := TufRefresh.RefreshTargets(Constants(), old(View()), now);
              r == spec.result && Reached(spec.st) && Cached(spec.writes)
    {
      hide TrustedMetadataSet.Valid, TufRefresh.FetchTargets, Wrote;
      NothingWritten(Blobs(), Outcomes());
      var _ :- trusted.CheckSnapshotExpired(now);
      if "targets" in trusted.targets && trusted.snapshot.Some?
        && "targets.json" in trusted.snapshot.value.signed.meta {
        var pinned := trusted.snapshot.value.signed.meta["targets.json"].version;
        var held := trusted.targets["targets"].signed;
        if held.version == pinned {
          var expired :- Expiry(env, held.expires, now);
          if !expired {
            return Success(Unit.Unit);
          }
        }
      }
      r := FetchTargets(now);
    }

    /** The fetching half of refresh_targets. */
    method FetchTargets(now: int) returns (r: Result<Unit, TufError>)
      requires Valid()
      modifies this`calls, trusted, store
      ensures var spec := TufRefresh.FetchTargets(Constants(), old(View()), now);
              r == spec.result && Reached(spec.st) && Cached(spec.writes)
    {
      hide TrustedMetadataSet.Valid, TargetsStep, TargetsFileName, Wrote;
      NothingWritten(Blobs(), Outcomes());
      var bytes :- FetchTargetsMetadata("targets");
      var _ :- trusted.UpdateTargets(bytes, now);
      CachePut("targets.json", bytes);
      return Success(Unit.Unit);
    }

    /** fetch_targets_metadata. */
    method FetchTargetsMetadata(role: string) returns (r: Result<Bytes, TufError>)
      modifies this`calls
      ensures var name := TargetsFileName(trusted.View(), role);
              if name.Failure? then r == Failure(name.error) && calls == old(calls)
              else
                var reply := repo(old(calls), name.value, config.targetsMaxLength);
                calls == old(calls) + 1 && r == if reply.Found? then Success(reply.bytes) else Failure(Transport)
      ensures trusted.snapshot.Some? && role + ".json" in trusted.snapshot.value.signed.meta ==>
                var version := trusted.snapshot.value.signed.meta[role + ".json"].version;
                var prefix := if trusted.root.signed.consistentSnapshot then Numeral(version) + "." else "";
                var reply := repo(old(calls), prefix + EncodedRole(role) + ".json", config.targetsMaxLength);
                r == if reply.Found? then Success(reply.bytes) else Failure(Transport)
    {
      if trusted.snapshot.None? || role + ".json" !in trusted.snapshot.value.signed.meta {
        return Failure(Malformed);
      }
      var version := trusted.snapshot.value.signed.meta[role + ".json"].version;
      var encoded := EncodeRole(role);
      assert "" + encoded == encoded;
      var name := if trusted.root.signed.consistentSnapshot then VersionPrefix(version) + encoded + ".json"
        else encoded + ".json";
      var reply := Fetch(name, config.targetsMaxLength);
      return if reply.Found? then Success(reply.bytes) else Failure(Transport);
    }

    /** refresh. */
    method Refresh(now: int) returns (r: Result<Unit, TufError>)
      requires Valid()
      modifies this`calls, trusted, store
      ensures var spec := TufRefresh.Refresh(Constants(), old(View()), old(Blobs()), now);
              r == spec.result && Reached(spec.st) && Cached(spec.writes)
      ensures var spec := TufRefresh.Refresh(Constants(), old(View()), old(Blobs()), now);
              store != null && AllEffective(old(Outcomes()), Outcomes()) ==>
                Blobs() == WriteAll(old(Blobs()), spec.writes, |spec.writes|)
      ensures r.Success? ==> Current(env, trusted.View(), now)
    {
      hide TrustedMetadataSet.Valid, TufRefresh.Refresh, Wrote, Current, AllEffective;
      ghost var writes := TufRefresh.Refresh(Constants(), View(), Blobs(), now).writes;
      r := RefreshInOrder(now);
      if store != null && AllEffective(old(Outcomes()), Outcomes()) {
        WroteAll(old(Blobs()), old(Outcomes()), writes, Blobs(), Outcomes());
      }
    }

    /** The stages of `refresh`, in order. */
    method RefreshInOrder(now: int) returns (r: Result<Unit, TufError>)
      requires Valid()
      modifies this`calls, trusted, store
      ensures var spec := TufRefresh.Refresh(Constants(), old(View()), old(Blobs()), now);
              r == spec.result && Reached(spec.st) && Cached(spec.writes)
      ensures r.Success? ==> Current(env, trusted.View(), now)
    {
      hide TrustedMetadataSet.Valid, Seeded, Wrote, Current, SameSeeds, TufRefresh.RefreshRoot,
        TufRefresh.RefreshTimestamp, TufRefresh.RefreshSnapshot, TufRefresh.RefreshTargets;
      RefreshedIsCurrent(Constants(), View(), Blobs(), now);
      ghost var done := TufRefresh.RefreshRoot(Constants(), View()).writes;
      r := RefreshRoot();
      if r.Failure? {
        return;
      }
      SeedsSurvive(Constants(), old(View()), old(Blobs()), old(Outcomes()));
      r := trusted.CheckRootExpired(now);
      if r.Failure? {
        assert done + [] == done;
        return;
      }
      SameSeedsSeedTheSame(env, trusted.View(), old(Blobs()), Blobs(), now);
      SeedLowerFromStore(now);
      ghost var blobs, outcomes := Blobs(), Outcomes();
      ghost var stage := TufRefresh.RefreshFromTimestamp(Constants(), View(), now);
      r := RefreshFromTimestamp(now);
      OfferedThen(old(Blobs()), old(Outcomes()), done, blobs, outcomes, stage.writes);
    }

    /** The part of `refresh` after the root and the seeds. */
    method RefreshFromTimestamp(now: int) returns (r: Result<Unit, TufError>)
      requires Valid()
      modifies this`calls, trusted, store
      ensures var spec := TufRefresh.RefreshFromTimestamp(Constants(), old(View()), now);
              r == spec.result && Reached(spec.st) && Cached(spec.writes)
    {
      hide TrustedMetadataSet.Valid, Wrote, TufRefresh.RefreshTimestamp, TufRefresh.RefreshSnapshot,
        TufRefresh.RefreshTargets;
      ghost var first := TufRefresh.RefreshTimestamp(Constants(), View(), now);
      r := RefreshTimestamp(now);
      if r.Failure? {
        return;
      }
      ghost var blobs, outcomes := Blobs(), Outcomes();
      ghost var second := TufRefresh.RefreshSnapshot(Constants(), View(), now);
      r := RefreshSnapshot(now);
      OfferedThen(old(Blobs()), old(Outcomes()), first.writes, blobs, outcomes, second.writes);
      if r.Failure? {
        return;
      }
      ghost var blobs', outcomes' := Blobs(), Outcomes();
      ghost var third := TufRefresh.RefreshTargets(Constants(), View(), now);
      r := RefreshTargets(now);
      OfferedThen(old(Blobs()), old(Outcomes()), first.writes + second.writes, blobs', outcomes', third.writes);
      assert first.writes + (second.writes + third.writes) == first.writes + second.writes + third.writes;
    }

    function Request(path: string, now: int): Query
      reads this
    {
      Query(env, repo, config.targetsMaxLength, config.maxDelegations, path, now)
    }

    /** get_targetinfo, once there is a top-level targets role: the loop over a work list is the recursive search. */
    method SearchByWorkList(path: string, now: int) returns (r: Result<Option<TargetFile>, TufError>)
      requires Valid() && "targets" in trusted.targets
      modifies this`calls, trusted, store
      ensures var (answer, st) := Search(Request(path, now), old(trusted.View()), old(calls));
              r == Reported(answer) && Reached(ClientState(st.trusted, st.calls)) && Cached(st.writes)
      ensures SameCoreFiles(old(Blobs()), Blobs())
    {
      hide TrustedMetadataSet.Valid, Load, Visit, ChildrenOf, SameCoreFiles, Wrote;
      SameCoreFilesReflexive(Blobs());
      ghost var q := Request(path, now);
      ghost var goal := Search(q, trusted.View(), calls);
      var toVisit := [Entry("targets", "root")];
      var visited: set<string> := {};
      var steps := 0;
      ghost var writes := [];
      NothingWritten(Blobs(), Outcomes());
      while toVisit != []
        invariant Valid() && old(trusted.history) <= trusted.history && q == Request(path, now)
        invariant Started(WalkState(trusted.View(), visited, steps, calls, writes)) && steps <= config.maxDelegations
        invariant Final(VisitAll(q, toVisit, WalkState(trusted.View(), visited, steps, calls, writes))) == goal
        invariant store == old(store) && Offered(old(Blobs()), old(Outcomes()), writes)
        invariant SameCoreFiles(old(Blobs()), Blobs())
        decreases config.maxDelegations - steps, |toVisit|
      {
        ghost var before := WalkState(trusted.View(), visited, steps, calls, writes);
        ghost var blobs, outcomes := Blobs(), Outcomes();
        WorkListTurn(q, toVisit, before);
        var entry, role := toVisit[0], toVisit[0].role;
        toVisit := toVisit[1..];
        if role in visited {
          continue;
        }
        if steps >= config.maxDelegations {
          break;
        }
        steps := steps + 1;
        ghost var stored;
        var loaded;
        loaded, stored := LoadRole(entry, path, now, before.(steps := steps));
        OfferedThen(old(Blobs()), old(Outcomes()), writes, blobs, outcomes, stored);
        SameCoreFilesTransitive(old(Blobs()), blobs, Blobs());
        writes := writes + stored;
        var ready :- loaded;
        if !ready {
          continue;
        }
        visited := visited + {role};
        var targets := trusted.targets[role].signed;
        if path in targets.targets {
          return Success(Some(targets.targets[path]));
        }
        var children :- MatchingChildren(targets, path, now);
        if children.1 {
          toVisit := [];
        }
        toVisit := Entries(children.0, role) + toVisit;
      }
      return Success(None);
    }

    /** get_targetinfo. */
    method GetTargetInfo(path: string, now: int) returns (r: Result<Option<TargetFile>, TufError>)
      requires Valid()
      modifies this`calls, trusted, store
      ensures "targets" !in old(trusted.targets) ==> r == Failure(Malformed) && Reached(old(View()))
      ensures "targets" in old(trusted.targets) ==>
                var (answer, st) := Search(Request(path, now), old(trusted.View()), old(calls));
                r == Reported(answer) && Reached(ClientState(st.trusted, st.calls)) && Cached(st.writes)
      ensures "targets" in old(trusted.targets) && config.maxDelegations > 0 &&
              path in old(trusted.targets)["targets"].signed.targets ==>
                r == Success(Some(old(trusted.targets)["targets"].signed.targets[path]))
      ensures old(trusted.targets.Keys) == {"targets"} && r.Success? && r.value.Some? ==>
                SignedAnswer(Request(path, now), trusted.View(), r.value.value)
      ensures SameCoreFiles(old(Blobs()), Blobs())
    {
      hide TrustedMetadataSet.Valid, Search, SignedAnswer, AnswerOk, HandedOn;
      if "targets" !in trusted.targets {
        return Failure(Malformed);
      }
      if trusted.targets.Keys == {"targets"} {
        FirstSearchSigned(Request(path, now), trusted.View(), calls);
      }
      if path in trusted.targets["targets"].signed.targets && config.maxDelegations > 0 {
        TopLevelTargetFound(Request(path, now), trusted.View(), calls);
      }
      r := SearchByWorkList(path, now);
    }

    /**
     * Fetch, verify and store a role unless it is trusted already; one that the snapshot does not pin is
     * skipped. What is stored is the accepted file.
     */
    method LoadRole(entry: Entry, path: string, now: int, ghost before: WalkState)
      returns (r: Result<bool, TufError>, ghost stored: seq<Write>)
      requires Valid() && before.trusted == trusted.View() && before.calls == calls
      modifies this`calls, trusted, store
      ensures Load(Request(path, now), entry, before) ==
              Loading(r, before.(trusted := trusted.View(), calls := calls, writes := before.writes + stored))
      ensures Cached(stored)
      ensures Valid() && old(trusted.history) <= trusted.history
      ensures SameCoreFiles(old(Blobs()), Blobs())
    {
      hide TrustedMetadataSet.Valid, DelegatedStep, EncodedRole, VersionPrefix, Wrote;
      stored := [];
      assert before.writes + stored == before.writes;
      NothingWritten(Blobs(), Outcomes());
      if entry.role == "targets" || entry.role in trusted.targets {
        return Success(true), stored;
      }
      if trusted.snapshot.None? || entry.role + ".json" !in trusted.snapshot.value.signed.meta {
        return Success(false), stored;
      }
      var bytes :- FetchTargetsMetadata(entry.role);
      var _ :- trusted.UpdateDelegatedTargets(bytes, entry.role, entry.delegator, now);
      NoReservedRole(env, before.trusted, bytes, entry.role, entry.delegator, now);
      DelegatedFileIsNotCore(entry.role);
      var encoded := EncodeRole(entry.role);
      CachePut(encoded + ".json", bytes);
      return Success(true), [RoleWrite(entry.role, bytes)];
    }

    /** The delegations that match, and whether a terminating one ended the list. */
    method MatchingChildren(targets: Targets, path: string, now: int) returns (r: ChildList)
      ensures r == ChildrenOf(Request(path, now), targets)
    {
      if targets.delegations.None? {
        return Success(([], false));
      }
      var roles := targets.delegations.value.roles;
      var names := [];
      PrependNothing(Children(Request(path, now), roles, 0));
      for i := 0 to |roles|
        invariant Children(Request(path, now), roles, 0) == Prepend(names, Children(Request(path, now), roles, i))
      {
        if IsTopLevelRole(roles[i].name) {
          continue;
        }
        var matches := MatchesPath(env, roles[i], path);
        if matches.None? {
          return Failure(Malformed);
        }
        if matches.value {
          PrependNext(Request(path, now), roles, i, names);
          names := names + [roles[i].name];
          if roles[i].terminating {
            return Success((names, true));
          }
        }
      }
      assert names + [] == names;
      return Success((names, false));
    }
  }

  /** What loading a role reported, together with the state it led to. */
  function Loading(r: Result<bool, TufError>, st: WalkState): LoadOutcome {
    match r
    case Success(ready) => Success((ready, st))
    case Failure(error) => Failure((error, st))
  }

  function Reported(answer: Answer): Result<Option<TargetFile>, TufError> {
    match answer
    case Target(file, _) => Success(Some(file))
    case NoTarget => Success(None)
    case Error(error) => Failure(error)
  }
}
