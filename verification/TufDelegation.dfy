/**
 * The delegation search as a recursion: a pre-order, depth-first search of the delegation tree
 * in which a matching `terminating` delegation, once explored, ends the whole search.
 */
module TufDelegation {
  import opened Prelude
  import opened TufMetadata
  import opened TufTrusted
  import opened TufHistory
  import opened RoleNames
  import opened TufStore
  import opened Decimal

  /** What a repository answers; it may answer differently at each call. */
  datatype Reply = Found(bytes: Bytes) | NotFound | Broken

  type Repository = (nat, string, U64) -> Reply

  /** What stays the same during one search. */
  datatype Query = Query(
    env: Env, repo: Repository,
    maxLength: U64, maxDelegations: nat, path: string, now: int)

  /** The trusted metadata, the roles visited, the steps and requests made, and the files stored, in order. */
  datatype WalkState = WalkState(
    trusted: TrustedState, visited: set<string>, steps: nat, calls: nat, writes: seq<Write>)

  datatype Answer =
    | Target(file: TargetFile, role: string)
    | NoTarget
    | Error(error: TufError)

  /** Either the search goes on with the next delegation, or it is over. */
  datatype Walk = Continue(st: WalkState) | Over(answer: Answer, st: WalkState)

  /** Whether a role is there after all, and the state after trying to load it. */
  type LoadOutcome = Result<(bool, WalkState), (TufError, WalkState)>

  /** Names of delegated roles to visit, and whether a terminating delegation ended the list. */
  type ChildList = Result<(seq<string>, bool), TufError>

  /** A delegation to visit, and the role that declared it. */
  datatype Entry = Entry(role: string, delegator: string)

  // ----- One role

  /** The file that a targets role is fetched as, where the snapshot pins it. */
  function TargetsFileName(st: TrustedState, role: string): Result<string, TufError> {
    if st.snapshot.None? || role + ".json" !in st.snapshot.value.signed.meta then Failure(Malformed)
    else if st.root.signed.consistentSnapshot
    then Success(VersionPrefix(st.snapshot.value.signed.meta[role + ".json"].version) + EncodedRole(role) + ".json")
    else Success(EncodedRole(role) + ".json")
  }

  function VersionPrefix(v: Version): string {
    Numeral(v) + "."
  }

  /** A role is stored under its encoded name. */
  function RoleWrite(role: string, bytes: Bytes): Write {
    Write(EncodedRole(role) + ".json", bytes)
  }

  /** Fetch and verify a role that is not trusted yet; one that the snapshot does not pin is passed over. */
  ghost function Load(q: Query, e: Entry, st: WalkState): LoadOutcome {
    if e.role == "targets" || e.role in st.trusted.targets then Success((true, st))
    else
      match TargetsFileName(st.trusted, e.role)
      case Failure(_) => Success((false, st))
      case Success(name) =>
        var after := st.(calls := st.calls + 1);
        match q.repo(st.calls, name, q.maxLength)
        case Broken => Failure((Transport, after))
        case NotFound => Failure((Transport, after))
        case Found(bytes) =>
          match DelegatedStep(q.env, st.trusted, bytes, e.role, e.delegator, q.now)
          case Failure(error) => Failure((error, after))
          case Success(t) => Success((true, after.(trusted := t, writes := st.writes + [RoleWrite(e.role, bytes)])))
  }

  /** The delegations from the `i`-th on that match the path, in order, up to the first terminating one. */
  function Children(q: Query, roles: seq<DelegatedRole>, i: nat): ChildList
    requires i <= |roles|
    decreases |roles| - i
  {
    if i == |roles| then Success(([], false))
    else if IsTopLevelRole(roles[i].name) then Children(q, roles, i + 1)
    else
      match MatchesPath(q.env, roles[i], q.path)
      case None => Failure(Malformed)
      case Some(matches) =>
        if !matches then Children(q, roles, i + 1)
        else if roles[i].terminating then Success(([roles[i].name], true))
        else
          var rest :- Children(q, roles, i + 1);
          Success(([roles[i].name] + rest.0, rest.1))
  }

  function ChildrenOf(q: Query, targets: Targets): ChildList {
    match targets.delegations
    case None => Success(([], false))
    case Some(d) => Children(q, d.roles, 0)
  }

  function Entries(names: seq<string>, delegator: string): (r: seq<Entry>)
    ensures |r| == |names|
  {
    seq(|names|, i requires 0 <= i < |names| => Entry(names[i], delegator))
  }

  // ----- The search

  function StepsLeft(q: Query, st: WalkState): nat {
    if st.steps < q.maxDelegations then q.maxDelegations - st.steps else 0
  }

  predicate Started(st: WalkState) {
    "targets" in st.trusted.targets
  }

  function Loaded(loaded: LoadOutcome): WalkState {
    match loaded
    case Failure((_, after)) => after
    case Success((_, after)) => after
  }

  predicate LoadedFrom(role: string, loaded: LoadOutcome) {
    Started(Loaded(loaded)) && (loaded.Success? && loaded.value.0 ==> role in Loaded(loaded).trusted.targets)
  }

  lemma {:induction false} LoadBehaves(q: Query, e: Entry, st: WalkState)
    requires Started(st)
    ensures LoadedFrom(e.role, Load(q, e, st))
    ensures Loaded(Load(q, e, st)).steps == st.steps && Loaded(Load(q, e, st)).visited == st.visited
  {
  }

  /** Explore one delegation, and everything below it. */
  ghost function Visit(q: Query, e: Entry, st: WalkState): (r: Walk)
    requires Started(st)
    ensures Started(r.st) && r.st.steps >= st.steps
    decreases StepsLeft(q, st), 0
  {
    if e.role in st.visited then Continue(st)
    else if st.steps >= q.maxDelegations then Over(NoTarget, st)
    else
      LoadBehaves(q, e, st.(steps := st.steps + 1));
      Enter(q, e.role, Load(q, e, st.(steps := st.steps + 1)))
  }

  /** Mark a role as visited and explore it, once it is loaded. */
  ghost function Enter(q: Query, role: string, loaded: LoadOutcome): (r: Walk)
    requires LoadedFrom(role, loaded)
    ensures Started(r.st) && r.st.steps >= Loaded(loaded).steps
    decreases StepsLeft(q, Loaded(loaded)), |Below(q, role, Loaded(loaded))| + 2
  {
    match loaded
    case Failure((error, after)) => Over(Error(error), after)
    case Success((ready, after)) =>
      if !ready then Continue(after) else Explore(q, role, after.(visited := after.visited + {role}))
  }

  /** Look the path up in a loaded role, and then in the roles it delegates to. */
  ghost function Explore(q: Query, role: string, st: WalkState): (r: Walk)
    requires Started(st) && role in st.trusted.targets
    ensures Started(r.st) && r.st.steps >= st.steps
    decreases StepsLeft(q, st), |Below(q, role, st)| + 1
  {
    var targets := st.trusted.targets[role].signed;
    if q.path in targets.targets then Over(Target(targets.targets[q.path], role), st)
    else
      match ChildrenOf(q, targets)
      case Failure(error) => Over(Error(error), st)
      case Success((names, cut)) =>
        var r := VisitAll(q, Entries(names, role), st);
        if r.Continue? && cut then Over(NoTarget, r.st) else r
  }

  /** The delegations that exploring a role visits. */
  ghost function Below(q: Query, role: string, st: WalkState): seq<string> {
    if role !in st.trusted.targets then []
    else
      match ChildrenOf(q, st.trusted.targets[role].signed)
      case Failure(_) => []
      case Success((names, _)) => names
  }

  ghost function VisitAll(q: Query, entries: seq<Entry>, st: WalkState): (r: Walk)
    requires Started(st)
    ensures Started(r.st) && r.st.steps >= st.steps
    decreases StepsLeft(q, st), |entries|
  {
    if entries == [] then Continue(st)
    else
      match Visit(q, entries[0], st)
      case Over(answer, after) => Over(answer, after)
      case Continue(after) => VisitAll(q, entries[1..], after)
  }

  function Final(r: Walk): (Answer, WalkState) {
    match r
    case Continue(st) => (NoTarget, st)
    case Over(answer, st) => (answer, st)
  }

  /** The whole search, from the top-level targets role. */
  ghost function Search(q: Query, trusted: TrustedState, calls: nat): (Answer, WalkState)
    requires "targets" in trusted.targets
  {
    Final(VisitAll(q, [Entry("targets", "root")], WalkState(trusted, {}, 0, calls, [])))
  }

  // ----- A work list does the same

  /** Visiting two lists in turn is visiting their concatenation. */
  lemma {:induction false} VisitAppend(q: Query, a: seq<Entry>, b: seq<Entry>, st: WalkState)
    requires Started(st)
    ensures VisitAll(q, a + b, st) ==
            match VisitAll(q, a, st)
            case Over(answer, after) => Over(answer, after)
            case Continue(after) => VisitAll(q, b, after)
    decreases |a|
  {
    if a == [] {
      assert a + b == b;
    } else {
      assert (a + b)[0] == a[0] && (a + b)[1..] == a[1..] + b;
      var first := Visit(q, a[0], st);
      if first.Continue? {
        VisitAppend(q, a[1..], b, first.st);
      }
    }
  }

  /**
   * Prepending the children to the work list, or dropping the rest of it at a terminating
   * delegation, leads to the same answer as exploring the role and then the rest.
   */
  lemma {:induction false} ExploreByWorkList(q: Query, role: string, rest: seq<Entry>, st: WalkState)
    requires Started(st) && role in st.trusted.targets
    requires q.path !in st.trusted.targets[role].signed.targets
              && ChildrenOf(q, st.trusted.targets[role].signed).Success?
    ensures var (names, cut) := ChildrenOf(q, st.trusted.targets[role].signed).value;
            Final(VisitAll(q, Entries(names, role) + if cut then [] else rest, st)) ==
            Final(match Explore(q, role, st)
                  case Over(answer, after) => Over(answer, after)
                  case Continue(after) => VisitAll(q, rest, after))
  {
    var (names, cut) := ChildrenOf(q, st.trusted.targets[role].signed).value;
    var children := Entries(names, role);
    if cut {
      assert children + [] == children;
    } else {
      VisitAppend(q, children, rest, st);
    }
  }

  /** What a work list does once its first role is loaded, or could not be. */
  ghost function AfterLoading(q: Query, role: string, rest: seq<Entry>, loaded: LoadOutcome): (Answer, WalkState)
    requires LoadedFrom(role, loaded)
  {
    match loaded
    case Failure((error, after)) => (Error(error), after)
    case Success((ready, after)) =>
      if !ready then Final(VisitAll(q, rest, after))
        else AfterEntering(q, role, rest, after.(visited := after.visited + {role}))
  }

  /** What a work list does at a role: answer, or go on with its children before the rest. */
  ghost function AfterEntering(q: Query, role: string, rest: seq<Entry>, st: WalkState): (Answer, WalkState)
    requires Started(st) && role in st.trusted.targets
  {
    var targets := st.trusted.targets[role].signed;
    if q.path in targets.targets then (Target(targets.targets[q.path], role), st)
    else
      match ChildrenOf(q, targets)
      case Failure(error) => (Error(error), st)
      case Success((names, cut)) => Final(VisitAll(q, Entries(names, role) + if cut then [] else rest, st))
  }

  lemma {:induction false} EnteringByWorkList(q: Query, role: string, rest: seq<Entry>, st: WalkState)
    requires Started(st) && role in st.trusted.targets
    ensures AfterEntering(q, role, rest, st) ==
            Final(match Explore(q, role, st)
                  case Over(answer, after) => Over(answer, after)
                  case Continue(after) => VisitAll(q, rest, after))
  {
    if q.path !in st.trusted.targets[role].signed.targets && ChildrenOf(q, st.trusted.targets[role].signed).Success? {
      ExploreByWorkList(q, role, rest, st);
    }
  }

  lemma {:induction false} LoadingByWorkList(q: Query, role: string, rest: seq<Entry>, loaded: LoadOutcome)
    requires LoadedFrom(role, loaded)
    ensures AfterLoading(q, role, rest, loaded) ==
            Final(match Enter(q, role, loaded)
                  case Over(answer, after) => Over(answer, after)
                  case Continue(after) => VisitAll(q, rest, after))
  {
    hide Explore, VisitAll, AfterEntering;
    if loaded.Success? && loaded.value.0 {
      EnteringByWorkList(q, role, rest, loaded.value.1.(visited := loaded.value.1.visited + {role}));
    }
  }

  /** One turn of the loop over the work list leads to the same answer as the recursion. */
  lemma {:induction false} WorkListTurn(q: Query, entries: seq<Entry>, st: WalkState)
    requires Started(st) && entries != []
    ensures var (e, rest) := (entries[0], entries[1..]);
            var loaded := Load(q, e, st.(steps := st.steps + 1));
            && LoadedFrom(e.role, loaded)
            && Final(VisitAll(q, entries, st)) ==
               if e.role in st.visited then Final(VisitAll(q, rest, st))
               else if st.steps >= q.maxDelegations then (NoTarget, st)
               else AfterLoading(q, e.role, rest, loaded)
  {
    hide Load, Explore, AfterLoading, Enter;
    var (e, rest) := (entries[0], entries[1..]);
    LoadBehaves(q, e, st.(steps := st.steps + 1));
    LoadingByWorkList(q, e.role, rest, Load(q, e, st.(steps := st.steps + 1)));
  }

  // ----- Collecting the children in a loop

  function Prepend(names: seq<string>, rest: ChildList): ChildList {
    match rest
    case Failure(error) => Failure(error)
    case Success((more, cut)) => Success((names + more, cut))
  }

  lemma {:induction false} PrependNothing(rest: ChildList)
    ensures Prepend([], rest) == rest
  {
    if rest.Success? { assert [] + rest.value.0 == rest.value.0; }
  }

  /** The `i`-th delegation joins the children, and ends them if it is terminating. */
  lemma {:induction false} PrependNext(q: Query, roles: seq<DelegatedRole>, i: nat, names: seq<string>)
    requires i < |roles| && !IsTopLevelRole(roles[i].name) && MatchesPath(q.env, roles[i], q.path) == Some(true)
    ensures Prepend(names, Children(q, roles, i)) ==
            if roles[i].terminating then Success((names + [roles[i].name], true))
            else Prepend(names + [roles[i].name], Children(q, roles, i + 1))
  {
    var rest := Children(q, roles, i + 1);
    if rest.Success? {
      assert names + ([roles[i].name] + rest.value.0) == names + [roles[i].name] + rest.value.0;
    }
  }

  // ----- What the search guarantees

  predicate DelegatesTo(q: Query, d: DelegatedRole, name: string) {
    d.name == name && !IsTopLevelRole(name) && MatchesPath(q.env, d, q.path) == Some(true)
  }

  ghost predicate DelegatesAmong(q: Query, roles: seq<DelegatedRole>, name: string) {
    exists i :: 0 <= i < |roles| && DelegatesTo(q, roles[i], name)
  }

  /** Role `a` is trusted and has a delegation to `b` that matches the path. */
  ghost predicate Delegates(q: Query, t: TrustedState, a: string, b: string) {
    && a in t.targets && t.targets[a].signed.delegations.Some?
    && DelegatesAmong(q, t.targets[a].signed.delegations.value.roles, b)
  }

  ghost predicate IsChain(q: Query, t: TrustedState, chain: seq<string>) {
    chain != [] && chain[0] == "targets" && forall i :: 0 < i < |chain| ==> Link(q, t, chain, i)
  }

  ghost predicate Link(q: Query, t: TrustedState, chain: seq<string>, i: nat)
    requires 0 < i < |chain|
  {
    Delegates(q, t, chain[i - 1], chain[i])
  }

  /** Delegations lead from the top-level targets role to `role`, and all of them match the path. */
  ghost predicate Reaches(q: Query, t: TrustedState, role: string) {
    exists chain :: IsChain(q, t, chain) && chain[|chain| - 1] == role
  }

  /** A role that is held delegates the path to the next one, and that one's file meets the threshold it sets. */
  ghost predicate SignedLink(q: Query, t: TrustedState, chain: seq<string>, i: nat)
    requires 0 < i < |chain|
  {
    && Link(q, t, chain, i) && chain[i] in t.targets
    && VouchedBy(q.env, t, chain[i - 1], chain[i], t.targets[chain[i]])
  }

  ghost predicate IsSignedChain(q: Query, t: TrustedState, base: set<string>, chain: seq<string>) {
    chain != [] && chain[0] in base && forall i :: 0 < i < |chain| ==> SignedLink(q, t, chain, i)
  }

  /** Signed and matching delegations lead to `role` from a role of `base`. */
  ghost predicate HandedOn(q: Query, t: TrustedState, base: set<string>, role: string) {
    exists chain :: IsSignedChain(q, t, base, chain) && chain[|chain| - 1] == role
  }

  ghost predicate AllHandedOn(q: Query, t: TrustedState, base: set<string>) {
    forall r :: r in t.targets ==> HandedOn(q, t, base, r)
  }

  /** Whatever the trust in `a` rests on, the trust in `b` rests on it as well. */
  ghost predicate HandsOn(q: Query, a: TrustedState, b: TrustedState) {
    forall base :: AllHandedOn(q, a, base) ==> AllHandedOn(q, b, base)
  }

  /** Roles were only added, each of them vouched for by a role that delegates the path to it. */
  ghost predicate Grew(q: Query, a: TrustedState, b: TrustedState) {
    && a.root == b.root && a.timestamp == b.timestamp && a.snapshot == b.snapshot
    && (forall r :: r in a.targets ==> r in b.targets && b.targets[r] == a.targets[r])
    && (forall r :: r in b.targets && r !in a.targets ==> Vouched(q, b, r))
    && HandsOn(q, a, b)
  }

  ghost predicate Vouched(q: Query, t: TrustedState, role: string)
    requires role in t.targets
  {
    exists d :: VouchedBy(q.env, t, d, role, t.targets[role]) && Delegates(q, t, d, role)
  }

  lemma {:induction false} GrewReflexive(q: Query, t: TrustedState)
    ensures Grew(q, t, t)
  {
  }

  lemma {:induction false} GrewTransitive(q: Query, a: TrustedState, b: TrustedState, c: TrustedState)
    requires Grew(q, a, b) && Grew(q, b, c)
    ensures Grew(q, a, c)
  {
    hide AllHandedOn, VouchedBy, Delegates;
    forall r | r in c.targets && r !in a.targets ensures Vouched(q, c, r) {
      if r in b.targets { VouchedStays(q, b, c, r); }
    }
  }

  lemma {:induction false} VouchedStays(q: Query, b: TrustedState, c: TrustedState, role: string)
    requires role in b.targets && Vouched(q, b, role)
    requires forall r :: r in b.targets ==> r in c.targets && c.targets[r] == b.targets[r]
    ensures Vouched(q, c, role)
  {
    var d :| VouchedBy(q.env, b, d, role, b.targets[role]) && Delegates(q, b, d, role);
    assert VouchedBy(q.env, c, d, role, c.targets[role]) && Delegates(q, c, d, role);
  }

  lemma {:induction false} ReachesGrows(q: Query, a: TrustedState, b: TrustedState, role: string)
    requires Grew(q, a, b) && Reaches(q, a, role)
    ensures Reaches(q, b, role)
  {
    hide HandsOn, Vouched;
    var chain :| IsChain(q, a, chain) && chain[|chain| - 1] == role;
    forall i | 0 < i < |chain| ensures Link(q, b, chain, i) {
      assert Link(q, a, chain, i);
    }
    assert IsChain(q, b, chain);
  }

  lemma {:induction false} ReachesNext(q: Query, t: TrustedState, role: string, next: string)
    requires Reaches(q, t, role) && Delegates(q, t, role, next)
    ensures Reaches(q, t, next)
  {
    var chain :| IsChain(q, t, chain) && chain[|chain| - 1] == role;
    var longer := chain + [next];
    forall i | 0 < i < |longer| ensures Link(q, t, longer, i) {
      if i < |chain| { assert Link(q, t, chain, i); }
    }
    assert IsChain(q, t, longer) && longer[|longer| - 1] == next;
  }

  /** The accepted file of a role that is held, under its encoded name. */
  ghost predicate FileOf(q: Query, t: TrustedState, role: string, w: Write) {
    && role in t.targets && w.name == EncodedRole(role) + ".json"
    && Parsed(q.env, "targets", q.env.asTargets, w.bytes) == Success(t.targets[role])
  }

  ghost predicate FileOfAdded(q: Query, a: TrustedState, b: TrustedState, w: Write) {
    exists role :: role !in a.targets && FileOf(q, b, role, w)
  }

  ghost predicate FileAmong(q: Query, t: TrustedState, role: string, writes: seq<Write>, low: nat) {
    exists i :: low <= i < |writes| && FileOf(q, t, role, writes[i])
  }

  /** The files that were stored on the way from `a` to `b` are those of the roles that were added. */
  ghost predicate StoresAdded(q: Query, a: WalkState, b: WalkState) {
    && a.writes <= b.writes
    && (forall i :: |a.writes| <= i < |b.writes| ==> FileOfAdded(q, a.trusted, b.trusted, b.writes[i]))
    && (forall role :: role in b.trusted.targets && role !in a.trusted.targets ==>
          FileAmong(q, b.trusted, role, b.writes, |a.writes|))
  }

  lemma {:induction false} StoresAddedReflexive(q: Query, st: WalkState)
    ensures StoresAdded(q, st, st)
  {
  }

  lemma {:induction false} StoresAddedTransitive(q: Query, a: WalkState, b: WalkState, c: WalkState)
    requires Grew(q, a.trusted, b.trusted) && Grew(q, b.trusted, c.trusted)
    requires StoresAdded(q, a, b) && StoresAdded(q, b, c)
    ensures StoresAdded(q, a, c)
  {
    hide HandsOn, Vouched, FileOfAdded, FileAmong;
    forall i | |a.writes| <= i < |c.writes| ensures FileOfAdded(q, a.trusted, c.trusted, c.writes[i]) {
      assert i < |b.writes| ==> c.writes[i] == b.writes[i];
      FileOfAddedStays(q, a.trusted, b.trusted, c.trusted, c.writes[i]);
    }
    forall role | role in c.trusted.targets && role !in a.trusted.targets
      ensures FileAmong(q, c.trusted, role, c.writes, |a.writes|)
    {
      FileAmongStays(q, b, c, role, |a.writes|);
    }
  }

  lemma {:induction false} FileOfAddedStays(q: Query, a: TrustedState, b: TrustedState, c: TrustedState, w: Write)
    requires Grew(q, a, b) && Grew(q, b, c) && (FileOfAdded(q, a, b, w) || FileOfAdded(q, b, c, w))
    ensures FileOfAdded(q, a, c, w)
  {
    hide HandsOn, Vouched, Parsed, RoleWrite;
    if FileOfAdded(q, a, b, w) {
      var role :| role !in a.targets && FileOf(q, b, role, w);
      assert FileOf(q, c, role, w);
    }
  }

  lemma {:induction false} FileAmongStays(q: Query, b: WalkState, c: WalkState, role: string, low: nat)
    requires Grew(q, b.trusted, c.trusted) && b.writes <= c.writes && low <= |b.writes|
    requires if role in b.trusted.targets then FileAmong(q, b.trusted, role, b.writes, low)
             else FileAmong(q, c.trusted, role, c.writes, |b.writes|)
    ensures FileAmong(q, c.trusted, role, c.writes, low)
  {
    hide HandsOn, Vouched, Parsed, RoleWrite;
    if role in b.trusted.targets {
      var i :| low <= i < |b.writes| && FileOf(q, b.trusted, role, b.writes[i]);
      assert FileOf(q, c.trusted, role, c.writes[i]);
    }
  }

  lemma {:induction false} LoadStores(q: Query, e: Entry, st: WalkState)
    ensures StoresAdded(q, st, Loaded(Load(q, e, st)))
  {
    hide TargetsFileName, DelegatedStep, Parsed, EncodedRole;
    var name := TargetsFileName(st.trusted, e.role);
    if e.role != "targets" && e.role !in st.trusted.targets && name.Success? {
      var reply := q.repo(st.calls, name.value, q.maxLength);
      if reply.Found? && DelegatedStep(q.env, st.trusted, reply.bytes, e.role, e.delegator, q.now).Success? {
        var after := Loaded(Load(q, e, st));
        DelegatedParsed(q.env, st.trusted, reply.bytes, e.role, e.delegator, q.now);
        assert after.writes == st.writes + [RoleWrite(e.role, reply.bytes)];
        assert FileOf(q, after.trusted, e.role, after.writes[|st.writes|]);
      }
    }
  }

  lemma {:induction false} DelegatedParsed(env: Env, st: TrustedState, bytes: Bytes, role: string, delegator: string,
        now: int)
    requires DelegatedStep(env, st, bytes, role, delegator, now).Success?
    ensures var after := DelegatedStep(env, st, bytes, role, delegator, now).value;
            && role in after.targets && after == st.(targets := st.targets[role := after.targets[role]])
            && Parsed(env, "targets", env.asTargets, bytes) == Success(after.targets[role])
  {
    hide Parsed, DelegationAuthority, ThresholdResult, Integrity;
  }

  /** An entry of the search: the root of the tree, or a matching delegation of a role that was reached. */
  ghost predicate EntryOk(q: Query, t: TrustedState, e: Entry) {
    e.role == "targets" || (Reaches(q, t, e.delegator) && Delegates(q, t, e.delegator, e.role))
  }

  /** The state after a walk, and its answer if it found the target. */
  ghost predicate WalkOk(q: Query, before: WalkState, r: Walk) {
    && Grew(q, before.trusted, r.st.trusted) && StoresAdded(q, before, r.st)
    && (before.steps <= q.maxDelegations ==> r.st.steps <= q.maxDelegations)
    && (r.Over? && r.answer.Target? ==> AnswerOk(q, r.st.trusted, r.answer))
  }

  /** The answer is what a reachable role says about the path. */
  ghost predicate AnswerOk(q: Query, t: TrustedState, answer: Answer)
    requires answer.Target?
  {
    && answer.role in t.targets && Reaches(q, t, answer.role)
    && q.path in t.targets[answer.role].signed.targets
    && answer.file == t.targets[answer.role].signed.targets[q.path]
  }

  lemma {:induction false} LoadGrows(q: Query, e: Entry, st: WalkState)
    requires Started(st) && EntryOk(q, st.trusted, e)
    ensures match Load(q, e, st)
            case Success((_, after)) => Grew(q, st.trusted, after.trusted)
            case Failure((_, after)) => after.trusted == st.trusted && after.steps == st.steps
  {
    var name := TargetsFileName(st.trusted, e.role);
    if e.role != "targets" && e.role !in st.trusted.targets && name.Success? {
      match q.repo(st.calls, name.value, q.maxLength)
      case Broken =>
      case NotFound =>
      case Found(bytes) =>
        if DelegatedStep(q.env, st.trusted, bytes, e.role, e.delegator, q.now).Success? {
          LoadedVouched(q, e, st.trusted, bytes);
        }
    }
  }

  lemma {:induction false} LoadedVouched(q: Query, e: Entry, t: TrustedState, bytes: Bytes)
    requires e.role != "targets" && e.role !in t.targets && EntryOk(q, t, e)
    requires DelegatedStep(q.env, t, bytes, e.role, e.delegator, q.now).Success?
    ensures Grew(q, t, DelegatedStep(q.env, t, bytes, e.role, e.delegator, q.now).value)
  {
    hide DelegatedStep, HandsOn;
    var after := DelegatedStep(q.env, t, bytes, e.role, e.delegator, q.now).value;
    DelegatedEffect(q.env, t, bytes, e.role, e.delegator, q.now);
    assert VouchedBy(q.env, after, e.delegator, e.role, after.targets[e.role]);
    assert Delegates(q, after, e.delegator, e.role);
    AddedHandsOn(q, t, after, e.delegator, e.role);
  }

  /** Adding one role, vouched for by a held role that delegates the path to it, hands trust on. */
  lemma {:induction false} AddedHandsOn(q: Query, a: TrustedState, b: TrustedState, delegator: string, role: string)
    requires delegator in a.targets && role in b.targets && b.targets.Keys == a.targets.Keys + {role}
    requires forall r :: r in a.targets ==> b.targets[r] == a.targets[r]
    requires Delegates(q, b, delegator, role) && VouchedBy(q.env, b, delegator, role, b.targets[role])
    ensures HandsOn(q, a, b)
  {
    hide VouchedBy, Delegates, HandedOn;
    forall base | AllHandedOn(q, a, base) ensures AllHandedOn(q, b, base) {
      forall r | r in b.targets ensures HandedOn(q, b, base, r) {
        if r in a.targets {
          HandedOnStays(q, a, b, base, r);
        } else {
          HandedOnStays(q, a, b, base, delegator);
          HandedOnNext(q, b, base, delegator, role);
        }
      }
    }
  }

  lemma {:induction false} HandedOnStays(q: Query, a: TrustedState, b: TrustedState, base: set<string>, role: string)
    requires HandedOn(q, a, base, role)
    requires forall r :: r in a.targets ==> r in b.targets && b.targets[r] == a.targets[r]
    ensures HandedOn(q, b, base, role)
  {
    var chain :| IsSignedChain(q, a, base, chain) && chain[|chain| - 1] == role;
    forall i | 0 < i < |chain| ensures SignedLink(q, b, chain, i) {
      assert SignedLink(q, a, chain, i);
    }
    assert IsSignedChain(q, b, base, chain);
  }

  lemma {:induction false} HandedOnNext(q: Query, t: TrustedState, base: set<string>, role: string, next: string)
    requires HandedOn(q, t, base, role) && next in t.targets
    requires Delegates(q, t, role, next) && VouchedBy(q.env, t, role, next, t.targets[next])
    ensures HandedOn(q, t, base, next)
  {
    hide VouchedBy, Delegates;
    var chain :| IsSignedChain(q, t, base, chain) && chain[|chain| - 1] == role;
    var longer := chain + [next];
    forall i | 0 < i < |longer| ensures SignedLink(q, t, longer, i) {
      if i < |chain| { assert SignedLink(q, t, chain, i); }
    }
    assert IsSignedChain(q, t, base, longer) && longer[|longer| - 1] == next;
  }

  lemma {:induction false} ChildrenMatch(q: Query, roles: seq<DelegatedRole>, i: nat, name: string)
    requires i <= |roles| && Children(q, roles, i).Success? && name in Children(q, roles, i).value.0
    ensures DelegatesAmong(q, roles, name)
    decreases |roles| - i
  {
    if !IsTopLevelRole(roles[i].name) && MatchesPath(q.env, roles[i], q.path) == Some(true) && roles[i].name == name {
      assert DelegatesTo(q, roles[i], name);
    } else {
      ChildrenMatch(q, roles, i + 1, name);
    }
  }

  lemma {:induction false} VisitOk(q: Query, e: Entry, st: WalkState)
    requires Started(st) && EntryOk(q, st.trusted, e)
    ensures WalkOk(q, st, Visit(q, e, st))
    decreases StepsLeft(q, st), 0
  {
    hide Load, Reaches, Grew, StoresAdded;
    GrewReflexive(q, st.trusted);
    StoresAddedReflexive(q, st);
    if e.role !in st.visited && st.steps < q.maxDelegations {
      var loaded := LoadOk(q, e, st.(steps := st.steps + 1));
      EnterOk(q, e.role, st, loaded);
    }
  }

  lemma {:induction false} EnterOk(q: Query, role: string, st: WalkState, loaded: LoadOutcome)
    requires Started(st) && LoadedFrom(role, loaded) && LoadOkFor(q, role, st, loaded)
    ensures WalkOk(q, st, Enter(q, role, loaded))
    decreases StepsLeft(q, Loaded(loaded)), |Below(q, role, Loaded(loaded))| + 2
  {
    hide FileOfAdded, FileAmong;
    if loaded.Success? && loaded.value.0 {
      var entered := loaded.value.1.(visited := loaded.value.1.visited + {role});
      ExploreOk(q, role, entered);
      GrewTransitive(q, st.trusted, entered.trusted, Explore(q, role, entered).st.trusted);
      StoresAddedTransitive(q, st, entered, Explore(q, role, entered).st);
    }
  }

  /** What loading a role, as a step of the search from `st`, comes to. */
  ghost predicate LoadOkFor(q: Query, role: string, st: WalkState, loaded: LoadOutcome) {
    && Grew(q, st.trusted, Loaded(loaded).trusted) && StoresAdded(q, st, Loaded(loaded))
    && st.steps < q.maxDelegations && Loaded(loaded).steps == st.steps + 1
    && (loaded.Success? ==> Reaches(q, Loaded(loaded).trusted, role))
  }

  lemma {:induction false} LoadOk(q: Query, e: Entry, st: WalkState)
    returns (loaded: LoadOutcome)
    requires Started(st) && EntryOk(q, st.trusted, e) && 0 < st.steps <= q.maxDelegations
    ensures loaded == Load(q, e, st) && LoadedFrom(e.role, loaded)
    ensures LoadOkFor(q, e.role, st.(steps := st.steps - 1), loaded)
  {
    hide FileOfAdded, FileAmong;
    loaded := Load(q, e, st);
    LoadGrows(q, e, st);
    LoadStores(q, e, st);
    LoadBehaves(q, e, st);
    if loaded.Success? {
      LoadedReached(q, e, st.trusted, loaded.value.1.trusted);
    }
  }

  lemma {:induction false} LoadedReached(q: Query, e: Entry, a: TrustedState, b: TrustedState)
    requires EntryOk(q, a, e) && Grew(q, a, b)
    ensures Reaches(q, b, e.role)
  {
    if e.role == "targets" {
      assert IsChain(q, b, ["targets"]);
    } else {
      ReachesNext(q, a, e.delegator, e.role);
      ReachesGrows(q, a, b, e.role);
    }
  }

  lemma {:induction false} ExploreOk(q: Query, role: string, st: WalkState)
    requires Started(st) && role in st.trusted.targets && Reaches(q, st.trusted, role)
    ensures WalkOk(q, st, Explore(q, role, st))
    decreases StepsLeft(q, st), |Below(q, role, st)| + 1
  {
    var targets := st.trusted.targets[role].signed;
    var children := ChildrenOf(q, targets);
    if q.path !in targets.targets && children.Success? {
      var names := children.value.0;
      forall i | 0 <= i < |names| ensures EntryOk(q, st.trusted, Entries(names, role)[i]) {
        ChildrenMatch(q, targets.delegations.value.roles, 0, names[i]);
      }
      VisitAllOk(q, Entries(names, role), st);
    }
  }

  lemma {:induction false} VisitAllOk(q: Query, entries: seq<Entry>, st: WalkState)
    requires Started(st) && forall i :: 0 <= i < |entries| ==> EntryOk(q, st.trusted, entries[i])
    ensures WalkOk(q, st, VisitAll(q, entries, st))
    decreases StepsLeft(q, st), |entries|
  {
    if entries != [] {
      VisitOk(q, entries[0], st);
      var first := Visit(q, entries[0], st);
      if first.Continue? {
        forall i | 0 <= i < |entries[1..]| ensures EntryOk(q, first.st.trusted, entries[1..][i]) {
          EntryGrows(q, st.trusted, first.st.trusted, entries[i + 1]);
        }
        VisitAllOk(q, entries[1..], first.st);
        GrewTransitive(q, st.trusted, first.st.trusted, VisitAll(q, entries, st).st.trusted);
        StoresAddedTransitive(q, st, first.st, VisitAll(q, entries, st).st);
      }
    }
  }

  lemma {:induction false} EntryGrows(q: Query, a: TrustedState, b: TrustedState, e: Entry)
    requires Grew(q, a, b) && EntryOk(q, a, e)
    ensures EntryOk(q, b, e)
  {
    if e.role != "targets" {
      ReachesGrows(q, a, b, e.delegator);
    }
  }

  lemma {:induction false} HeldHandsItselfOn(q: Query, t: TrustedState)
    ensures AllHandedOn(q, t, t.targets.Keys)
  {
    forall r | r in t.targets ensures HandedOn(q, t, t.targets.Keys, r) {
      assert IsSignedChain(q, t, t.targets.Keys, [r]);
    }
  }

  /**
   * Whatever the repository answers: the search takes at most `max_delegations` steps, it only adds roles,
   * each at the end of a chain of signed delegations that match the path and start at a role trusted
   * before, and an answer comes from a role that matching delegations reach from the top.
   */
  lemma {:induction false} SearchSound(q: Query, trusted: TrustedState, calls: nat)
    requires "targets" in trusted.targets
    ensures var (answer, st) := Search(q, trusted, calls);
            Grew(q, trusted, st.trusted) && st.steps <= q.maxDelegations &&
            AllHandedOn(q, st.trusted, trusted.targets.Keys) &&
            (answer.Target? ==> AnswerOk(q, st.trusted, answer))
  {
    hide VisitAll, AllHandedOn, Reaches;
    HeldHandsItselfOn(q, trusted);
    VisitAllOk(q, [Entry("targets", "root")], WalkState(trusted, {}, 0, calls, []));
  }

  /** What the search stores are the accepted files of the roles that it adds, each under its encoded name. */
  lemma {:induction false} SearchStores(q: Query, trusted: TrustedState, calls: nat)
    requires "targets" in trusted.targets
    ensures var after := Search(q, trusted, calls).1;
            && (forall i :: 0 <= i < |after.writes| ==> FileOfAdded(q, trusted, after.trusted, after.writes[i]))
            && (forall role :: role in after.trusted.targets && role !in trusted.targets ==>
                  FileAmong(q, after.trusted, role, after.writes, 0))
  {
    hide VisitAll, Reaches, Grew, FileOfAdded, FileAmong, AnswerOk;
    VisitAllOk(q, [Entry("targets", "root")], WalkState(trusted, {}, 0, calls, []));
  }

  /**
   * The first search after the targets map was cleared and the top-level role loaded: an answer comes from
   * a role to which signed delegations lead from "targets", each of them matching the path.
   */
  lemma {:induction false} FirstSearchSigned(q: Query, trusted: TrustedState, calls: nat)
    requires trusted.targets.Keys == {"targets"}
    ensures var (answer, st) := Search(q, trusted, calls);
            answer.Target? ==>
              AnswerOk(q, st.trusted, answer) && HandedOn(q, st.trusted, {"targets"}, answer.role) &&
              SignedAnswer(q, st.trusted, answer.file)
  {
    hide Search, HandedOn, AnswerOk, Grew, SignedAnswer;
    SearchSound(q, trusted, calls);
    var (answer, st) := Search(q, trusted, calls);
    if answer.Target? { AnswerSigned(q, st.trusted, answer); }
  }

  /** The file is what some role says about the path to which signed and matching delegations lead from the top. */
  ghost predicate SignedAnswer(q: Query, t: TrustedState, file: TargetFile) {
    exists role :: SaysAboutPath(q, t, role, file) && HandedOn(q, t, {"targets"}, role)
  }

  predicate SaysAboutPath(q: Query, t: TrustedState, role: string, file: TargetFile) {
    && role in t.targets && q.path in t.targets[role].signed.targets
    && t.targets[role].signed.targets[q.path] == file
  }

  lemma {:induction false} AnswerSigned(q: Query, t: TrustedState, answer: Answer)
    requires answer.Target? && AnswerOk(q, t, answer) && AllHandedOn(q, t, {"targets"})
    ensures HandedOn(q, t, {"targets"}, answer.role) && SignedAnswer(q, t, answer.file)
  {
    hide HandedOn, Reaches;
    assert SaysAboutPath(q, t, answer.role, answer.file);
  }

  // ----- Which delegation's keys count

  /** The keys and the threshold that one delegation grants. */
  function Granted(delegations: Delegations, d: DelegatedRole): (map<string, Key>, RoleKeys) {
    (AllowedKeys(delegations.keys, d.keyids), RoleKeys(d.keyids, d.threshold))
  }

  predicate SameGrant(a: DelegatedRole, b: DelegatedRole) {
    a.keyids == b.keyids && a.threshold == b.threshold
  }

  /** The file of `name` is held to the keys and the threshold of a delegation that matches the path. */
  ghost predicate AuthorityMatches(q: Query, t: TrustedState, a: string, name: string)
    requires Delegates(q, t, a, name)
  {
    var delegations := t.targets[a].signed.delegations.value;
    exists i :: 0 <= i < |delegations.roles| && DelegatesTo(q, delegations.roles[i], name) &&
                DelegationAuthority(t, a, name) == Success(Granted(delegations, delegations.roles[i]))
  }

  /** A delegation that matches the path grants what the first delegation of that name grants. */
  ghost predicate MatchGrantsAlike(q: Query, roles: seq<DelegatedRole>, name: string) {
    FindRole(roles, 0, name).Some? &&
    exists i :: 0 <= i < |roles| && DelegatesTo(q, roles[i], name) &&
                SameGrant(roles[i], FindRole(roles, 0, name).value)
  }

  lemma {:induction false} FindRoleFinds(roles: seq<DelegatedRole>, i: nat, name: string, j: nat) returns (k: nat)
    requires i <= j < |roles| && roles[j].name == name
    ensures i <= k <= j && FindRole(roles, i, name) == Some(roles[k]) && roles[k].name == name
    decreases |roles| - i
  {
    if roles[i].name == name { k := i; } else { k := FindRoleFinds(roles, i + 1, name, j); }
  }

  /** The authority over a name is always the grant of the first delegation of that name. */
  lemma {:induction false} FirstOfNameDecides(q: Query, t: TrustedState, a: string, name: string) returns (k: nat)
    requires Delegates(q, t, a, name)
    ensures var delegations := t.targets[a].signed.delegations.value;
            && k < |delegations.roles| && FindRole(delegations.roles, 0, name) == Some(delegations.roles[k])
            && delegations.roles[k].name == name
            && DelegationAuthority(t, a, name) == Success(Granted(delegations, delegations.roles[k]))
  {
    hide AllowedKeys;
    var roles := t.targets[a].signed.delegations.value.roles;
    var j :| 0 <= j < |roles| && DelegatesTo(q, roles[j], name);
    k := FindRoleFinds(roles, 0, name, j);
  }

  /**
   * Where a role delegates the path to a name, the keys and the threshold that count are those of a
   * delegation that matches the path exactly when a matching one grants what the first of that name grants.
   */
  lemma {:induction false} AuthorityMatchesIff(q: Query, t: TrustedState, a: string, name: string)
    requires Delegates(q, t, a, name)
    ensures AuthorityMatches(q, t, a, name) <==> MatchGrantsAlike(q, t.targets[a].signed.delegations.value.roles, name)
  {
    hide AllowedKeys, FindRole, DelegationAuthority, MatchesPath;
    var k := FirstOfNameDecides(q, t, a, name);
  }

  /** If no other delegation of the name has the first one's grant: exactly when the first one matches the path. */
  lemma {:induction false} AuthorityMatchesIffFirstDoes(q: Query, t: TrustedState, a: string, name: string)
    requires Delegates(q, t, a, name)
    requires var roles := t.targets[a].signed.delegations.value.roles;
             forall i :: 0 <= i < |roles| && roles[i].name == name && FindRole(roles, 0, name).Some? &&
                         SameGrant(roles[i], FindRole(roles, 0, name).value) ==>
                         roles[i] == FindRole(roles, 0, name).value
    ensures var first := FindRole(t.targets[a].signed.delegations.value.roles, 0, name);
            AuthorityMatches(q, t, a, name) <==> first.Some? && DelegatesTo(q, first.value, name)
  {
    hide AllowedKeys, FindRole, DelegationAuthority, MatchesPath;
    var k := FirstOfNameDecides(q, t, a, name);
    AuthorityMatchesIff(q, t, a, name);
    assert SameGrant(t.targets[a].signed.delegations.value.roles[k], t.targets[a].signed.delegations.value.roles[k]);
  }

  predicate DistinctNames(roles: seq<DelegatedRole>) {
    forall i, j :: 0 <= i < j < |roles| ==> roles[i].name != roles[j].name
  }

  /** One and the same delegation matches the path and sets the threshold that the file meets. */
  ghost predicate HandedOff(q: Query, t: TrustedState, a: string, name: string, m: Metadata<Targets>) {
    && a in t.targets && t.targets[a].signed.delegations.Some?
    && var delegations := t.targets[a].signed.delegations.value;
       exists i :: 0 <= i < |delegations.roles| && DelegatesTo(q, delegations.roles[i], name) &&
                   MeetsGrant(q.env, m, Granted(delegations, delegations.roles[i]), name)
  }

  predicate MeetsGrant(env: Env, m: Metadata<Targets>, grant: (map<string, Key>, RoleKeys), name: string) {
    ThresholdResult(env, m.signatures, m.canonicalSigned, grant.0, grant.1, name).Success?
  }

  /** As long as a role names each of its delegations once, each link of a signed chain is one delegation. */
  lemma {:induction false} DistinctNamesHandOff(q: Query, t: TrustedState, a: string, name: string,
        m: Metadata<Targets>)
    requires Delegates(q, t, a, name) && VouchedBy(q.env, t, a, name, m)
    requires DistinctNames(t.targets[a].signed.delegations.value.roles)
    ensures AuthorityMatches(q, t, a, name) && HandedOff(q, t, a, name, m)
  {
    hide AllowedKeys, FindRole, DelegationAuthority, MatchesPath, ThresholdResult;
    var delegations := t.targets[a].signed.delegations.value;
    var k := FirstOfNameDecides(q, t, a, name);
    var j :| 0 <= j < |delegations.roles| && DelegatesTo(q, delegations.roles[j], name);
    assert j == k;
    assert MeetsGrant(q.env, m, Granted(delegations, delegations.roles[k]), name);
  }

  /**
   * Where a name occurs twice this fails: the second delegation matches the path and is followed, but the
   * file is held to the keys and the threshold of the first, which was given other paths.
   */
  lemma {:induction false} SecondUnderKeysOfFirst(q: Query, t: TrustedState, a: string, keys: map<string, Key>,
        first: DelegatedRole, second: DelegatedRole)
    requires a in t.targets && t.targets[a].signed.delegations == Some(Delegations(keys, [first, second]))
    requires first.name == second.name && !IsTopLevelRole(first.name)
    requires MatchesPath(q.env, first, q.path) == Some(false) && MatchesPath(q.env, second, q.path) == Some(true)
    ensures ChildrenOf(q, t.targets[a].signed) == Success(([second.name], second.terminating))
    ensures DelegationAuthority(t, a, second.name) == Success(Granted(Delegations(keys, [first, second]), first))
    ensures Delegates(q, t, a, second.name)
    ensures !SameGrant(first, second) ==> !AuthorityMatches(q, t, a, second.name)
  {
    hide AllowedKeys, MatchesPath;
    var roles := [first, second];
    assert Children(q, roles, 2) == Success(([], false));
    assert [second.name] + [] == [second.name];
    assert Children(q, roles, 1) == Success(([second.name], second.terminating));
    assert DelegatesTo(q, roles[1], second.name);
    AuthorityMatchesIff(q, t, a, second.name);
  }
}
