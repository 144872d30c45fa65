/** The delegation search gives the first answer in pre-order, and overlooks nothing. */
module TufSearchComplete {
  import opened Prelude
  import opened TufMetadata
  import opened TufTrusted
  import opened TufHistory
  import opened TufDelegation
  import opened TufSearchOrder

  // ----- Roles are only added, and only pinned ones

  ghost predicate Extends(a: TrustedState, b: TrustedState) {
    && b.snapshot == a.snapshot
    && (forall r :: r in a.targets ==> r in b.targets && b.targets[r] == a.targets[r])
    && (forall r :: r in b.targets && r !in a.targets ==> Pinned(b, r))
  }

  lemma {:induction false} ExtendsTransitive(a: TrustedState, b: TrustedState, c: TrustedState)
    requires Extends(a, b) && Extends(b, c)
    ensures Extends(a, c)
  {
  }

  /** Nothing is left to do for a role: it was visited, or it cannot be held at all. */
  predicate Done(t: TrustedState, visited: set<string>, x: string) {
    x in visited || (x !in t.targets && !Pinned(t, x))
  }

  ghost predicate DoneBelow(q: Query, t: TrustedState, visited: set<string>, x: string, k: nat)
    requires k <= |RolesOf(t, x)|
  {
    forall j :: 0 <= j < k && Follows(q, RolesOf(t, x)[j]) ==> Passed(t, visited, RolesOf(t, x)[j])
  }

  predicate Passed(t: TrustedState, visited: set<string>, d: DelegatedRole) {
    !d.terminating && Done(t, visited, d.name)
  }

  /** A role without an answer, all of whose matching delegations are done. */
  ghost predicate ClosedRole(q: Query, t: TrustedState, visited: set<string>, x: string) {
    && x in t.targets && Harmless(q, t, x) && DoneBelow(q, t, visited, x, |RolesOf(t, x)|)
  }

  /** So it is with every visited role but those that are being explored. */
  ghost predicate Closed(q: Query, t: TrustedState, visited: set<string>, above: set<string>) {
    above <= visited && forall x :: x in visited && x !in above ==> ClosedRole(q, t, visited, x)
  }

  lemma {:induction false} DoneBelowLater(q: Query, a: TrustedState, v: set<string>, b: TrustedState, w: set<string>,
        x: string, k: nat)
    requires Extends(a, b) && v <= w && x in a.targets && k <= |RolesOf(a, x)| && DoneBelow(q, a, v, x, k)
    ensures RolesOf(b, x) == RolesOf(a, x) && DoneBelow(q, b, w, x, k)
  {
    hide Follows;
  }

  lemma {:induction false} ClosedLater(q: Query, a: TrustedState, b: TrustedState, visited: set<string>,
        above: set<string>)
    requires Extends(a, b) && Closed(q, a, visited, above)
    ensures Closed(q, b, visited, above)
  {
    hide Extends, DoneBelow, Passes;
    forall x | x in visited && x !in above ensures ClosedRole(q, b, visited, x) {
      assert ClosedRole(q, a, visited, x);
      SameRole(q, a, b, x);
      DoneBelowLater(q, a, visited, b, visited, x, |RolesOf(a, x)|);
    }
  }

  lemma {:induction false} SameRole(q: Query, a: TrustedState, b: TrustedState, x: string)
    requires Extends(a, b) && x in a.targets
    ensures x in b.targets && b.targets[x] == a.targets[x] && RolesOf(b, x) == RolesOf(a, x)
    ensures HasTarget(q, b, x) <==> HasTarget(q, a, x)
  {
  }

  /** From a role that is done, only harmless roles can be reached without one that is being explored. */
  lemma {:induction false} DoneIsClean(q: Query, t: TrustedState, visited: set<string>, above: set<string>, x: string)
    requires Closed(q, t, visited, above) && Done(t, visited, x)
    ensures Clean(q, t, above, x)
  {
    hide Closed, Harmless, Done;
    forall way | IsWay(q, t, above, x, way) ensures Harmless(q, t, way[|way| - 1]) {
      WayIsDone(q, t, visited, above, x, way, |way| - 1);
      DoneIsHarmless(q, t, visited, above, way[|way| - 1]);
    }
  }

  lemma {:induction false} DoneIsHarmless(q: Query, t: TrustedState, visited: set<string>, above: set<string>,
        x: string)
    requires Closed(q, t, visited, above) && Done(t, visited, x) && x !in above
    ensures Harmless(q, t, x)
  {
    hide DoneBelow, Passes;
  }

  lemma {:induction false} WayIsDone(q: Query, t: TrustedState, visited: set<string>, above: set<string>, x: string,
        way: seq<string>, n: nat)
    requires Closed(q, t, visited, above) && Done(t, visited, x) && IsWay(q, t, above, x, way) && n < |way|
    ensures Done(t, visited, way[n])
  {
    hide Harmless, Closed, Done, Delegates;
    if n > 0 {
      WayIsDone(q, t, visited, above, x, way, n - 1);
      assert Link(q, t, way, n);
      NextIsDone(q, t, visited, above, way[n - 1], way[n]);
    }
  }

  lemma {:induction false} NextIsDone(q: Query, t: TrustedState, visited: set<string>, above: set<string>, x: string,
        y: string)
    requires Closed(q, t, visited, above) && Done(t, visited, x) && x !in above && Delegates(q, t, x, y)
    ensures Done(t, visited, y)
  {
    hide Harmless, MatchesPath, IsTopLevelRole;
    var k :| 0 <= k < |RolesOf(t, x)| && DelegatesTo(q, RolesOf(t, x)[k], y);
    assert Follows(q, RolesOf(t, x)[k]);
  }

  /** So the delegations before one that is taken are clean, in the end as well. */
  lemma {:induction false} EarlierAreClean(q: Query, a: TrustedState, visited: set<string>, above: set<string>,
        x: string, k: nat, b: TrustedState)
    requires Extends(a, b) && Closed(q, a, visited, above) && x in a.targets && k <= |RolesOf(a, x)|
    requires DoneBelow(q, a, visited, x, k)
    ensures RolesOf(b, x) == RolesOf(a, x) && EarlierClean(q, b, above, x, k)
  {
    hide Closed, Follows, Clean;
    DoneBelowLater(q, a, visited, b, visited, x, k);
    ClosedLater(q, a, b, visited, above);
    forall j | 0 <= j < k && Follows(q, RolesOf(b, x)[j]) ensures PassedClean(q, b, above, RolesOf(b, x)[j]) {
      assert Passed(b, visited, RolesOf(b, x)[j]);
      DoneIsClean(q, b, visited, above, RolesOf(b, x)[j].name);
    }
  }

  // ----- The budget

  /** A matching delegation to a role that the snapshot does not pin; each visit of it costs a step. */
  ghost predicate Skips(q: Query, t: TrustedState) {
    exists x, k: nat :: SkipsAt(q, t, x, k)
  }

  predicate SkipsAt(q: Query, t: TrustedState, x: string, k: nat) {
    && k < |RolesOf(t, x)| && Follows(q, RolesOf(t, x)[k])
    && RolesOf(t, x)[k].name !in t.targets && !Pinned(t, RolesOf(t, x)[k].name)
  }

  /** Every other step visits a new role. */
  ghost predicate Accounted(q: Query, a: WalkState, b: WalkState) {
    b.steps - |b.visited| == a.steps - |a.visited| || Skips(q, b.trusted)
  }

  lemma {:induction false} SkipsLater(q: Query, a: TrustedState, b: TrustedState)
    requires Extends(a, b) && Skips(q, a)
    ensures Skips(q, b)
  {
    hide Follows;
    var x, k: nat :| SkipsAt(q, a, x, k);
    assert SkipsAt(q, b, x, k);
  }

  predicate AllHeld(st: WalkState) {
    st.visited <= st.trusted.targets.Keys
  }

  // ----- What a part of the search comes to

  ghost predicate Moves(q: Query, st: WalkState, r: Walk, above: set<string>) {
    && Extends(st.trusted, r.st.trusted) && st.visited <= r.st.visited && AllHeld(r.st)
    && (r.Continue? ==> Closed(q, r.st.trusted, r.st.visited, above))
    && (Accounted(q, st, r.st) || (r.Over? && r.answer.Error?))
  }

  predicate Spent(q: Query, r: Walk) {
    r.Over? && r.answer == NoTarget && r.st.steps >= q.maxDelegations
  }

  ghost predicate AnswersFirst(q: Query, r: Walk, above: set<string>, x: string, delegator: string) {
    r.Over? ==> Spent(q, r) || exists trail :: FirstAt(q, r.st.trusted, above, x, delegator, trail, r.answer)
  }

  lemma {:induction false} MovesThen(q: Query, a: WalkState, r: Walk, r': Walk, above: set<string>)
    requires r.Continue? && Moves(q, a, r, above) && Moves(q, r.st, r', above)
    ensures Moves(q, a, r', above)
  {
    hide Closed, Skips, Extends;
    ExtendsTransitive(a.trusted, r.st.trusted, r'.st.trusted);
    if Skips(q, r.st.trusted) { SkipsLater(q, r.st.trusted, r'.st.trusted); }
  }

  ghost predicate Ready(q: Query, st: WalkState, above: set<string>) {
    Started(st) && AllHeld(st) && Closed(q, st.trusted, st.visited, above)
  }

  /** The top-level role, or a matching delegation of a role that is held. */
  ghost predicate IsEntry(q: Query, t: TrustedState, e: Entry) {
    e.role == "targets" || exists k: nat :: EntryAt(q, t, e, k)
  }

  predicate EntryAt(q: Query, t: TrustedState, e: Entry, k: nat) {
    k < |RolesOf(t, e.delegator)| && Follows(q, RolesOf(t, e.delegator)[k]) && RolesOf(t, e.delegator)[k].name == e.role
  }

  // ----- Loading a role

  lemma {:induction false} LoadMoves(q: Query, e: Entry, st: WalkState)
    requires Started(st)
    ensures var after := Loaded(Load(q, e, st));
            Extends(st.trusted, after.trusted) && after.visited == st.visited && after.steps == st.steps
    ensures Load(q, e, st).Success? && !Load(q, e, st).value.0 ==>
              Loaded(Load(q, e, st)) == st && e.role != "targets" && Done(st.trusted, {}, e.role)
    ensures Load(q, e, st).Failure? ==>
              Loaded(Load(q, e, st)).trusted == st.trusted &&
              LoadFails(q, st.trusted, e.role, e.delegator, Error(Load(q, e, st).error.0))
  {
    hide DelegatedStep;
    var name := TargetsFileName(st.trusted, e.role);
    if e.role != "targets" && e.role !in st.trusted.targets && name.Success? {
      var reply := q.repo(st.calls, name.value, q.maxLength);
      if reply.Found? && DelegatedStep(q.env, st.trusted, reply.bytes, e.role, e.delegator, q.now).Success? {
        DelegatedEffect(q.env, st.trusted, reply.bytes, e.role, e.delegator, q.now);
      } else {
        assert Load(q, e, st).Failure?;
        assert FailsAt(q, st.trusted, e.role, e.delegator, Load(q, e, st).error.0, st.calls);
      }
    }
  }

  // ----- The search, part by part

  lemma {:induction false} VisitFirst(q: Query, e: Entry, st: WalkState, above: set<string>)
    requires Ready(q, st, above) && IsEntry(q, st.trusted, e)
    ensures var r := Visit(q, e, st);
            && Moves(q, st, r, above) && AnswersFirst(q, r, above, e.role, e.delegator)
            && (r.Continue? ==> Done(r.st.trusted, r.st.visited, e.role))
    decreases StepsLeft(q, st), 0
  {
    hide Load, Closed, Explore, FirstAt, Pinned, Skips;
    if e.role !in st.visited && st.steps < q.maxDelegations {
      var next := st.(steps := st.steps + 1);
      var loaded := Load(q, e, next);
      LoadBehaves(q, e, next);
      LoadMoves(q, e, next);
      ClosedLater(q, st.trusted, Loaded(loaded).trusted, st.visited, above);
      if loaded.Failure? {
        NotAbove(q, st, above, e.role);
        UnloadableFirst(q, st.trusted, above, e, loaded.error.0);
      } else if !loaded.value.0 {
        SkippedEntry(q, st, e);
      } else {
        EnterFirst(q, e, st, loaded.value.1, above);
      }
    }
  }

  lemma {:induction false} NotAbove(q: Query, st: WalkState, above: set<string>, x: string)
    requires Closed(q, st.trusted, st.visited, above) && x !in st.visited
    ensures x !in above
  {
  }

  lemma {:induction false} UnloadableFirst(q: Query, t: TrustedState, above: set<string>, e: Entry, error: TufError)
    requires LoadFails(q, t, e.role, e.delegator, Error(error)) && e.role !in above
    ensures FirstAt(q, t, above, e.role, e.delegator, Unloadable, Error(error))
  {
  }

  lemma {:induction false} SkippedEntry(q: Query, st: WalkState, e: Entry)
    requires IsEntry(q, st.trusted, e) && e.role != "targets" && Done(st.trusted, {}, e.role)
    ensures Skips(q, st.trusted)
  {
    hide Follows;
    var k: nat :| EntryAt(q, st.trusted, e, k);
    assert SkipsAt(q, st.trusted, e.delegator, k);
  }

  lemma {:induction false} EnterFirst(q: Query, e: Entry, st: WalkState, after: WalkState, above: set<string>)
    requires Ready(q, st, above) && e.role !in st.visited && st.steps < q.maxDelegations
    requires Extends(st.trusted, after.trusted) && after.visited == st.visited && after.steps == st.steps + 1
    requires Started(after) && e.role in after.trusted.targets && st.visited <= after.trusted.targets.Keys
    requires Closed(q, after.trusted, st.visited, above)
    ensures var r := Explore(q, e.role, after.(visited := after.visited + {e.role}));
            && Moves(q, st, r, above) && AnswersFirst(q, r, above, e.role, e.delegator)
            && (r.Continue? ==> Done(r.st.trusted, r.st.visited, e.role))
    decreases StepsLeft(q, after), 2 * |RolesOf(after.trusted, e.role)| + 3
  {
    hide FirstAt, Extends, Skips, Explore, ClosedRole;
    var entered := after.(visited := after.visited + {e.role});
    var r := Explore(q, e.role, entered);
    OneMoreAbove(q, after.trusted, st.visited, above, e.role);
    ExploreFirst(q, e.role, entered, above, e.delegator);
    ExtendsTransitive(st.trusted, after.trusted, r.st.trusted);
    assert |entered.visited| == |st.visited| + 1;
  }

  lemma {:induction false} OneMoreAbove(q: Query, t: TrustedState, visited: set<string>, above: set<string>, x: string)
    requires Closed(q, t, visited, above)
    ensures Closed(q, t, visited + {x}, above + {x})
  {
    hide Follows, Harmless, Pinned;
    forall y | y in visited + {x} && y !in above + {x} ensures ClosedRole(q, t, visited + {x}, y) {
      assert ClosedRole(q, t, visited, y);
    }
  }

  lemma {:induction false} ExploreFirst(q: Query, x: string, st: WalkState, above: set<string>, delegator: string)
    requires Ready(q, st, above + {x}) && x in st.trusted.targets && x !in above
    ensures var r := Explore(q, x, st); Moves(q, st, r, above) && AnswersFirst(q, r, above, x, delegator)
    decreases StepsLeft(q, st), 2 * |RolesOf(st.trusted, x)| + 2
  {
    hide Closed, FirstAt, Skips, Readable, MatchesPath, IsTopLevelRole;
    var targets, roles := st.trusted.targets[x].signed, RolesOf(st.trusted, x);
    ChildrenOfRoles(q, st.trusted, x);
    ChildrenReadable(q, roles, 0);
    if q.path in targets.targets || Children(q, roles, 0).Failure? {
      HereFirst(q, st.trusted, above, x, delegator, Explore(q, x, st).answer);
    } else {
      ChildrenFirst(q, x, 0, st, above, delegator);
      ChildrenToRole(q, x, st, above, delegator);
    }
  }

  lemma {:induction false} ChildrenOfRoles(q: Query, t: TrustedState, x: string)
    requires x in t.targets
    ensures ChildrenOf(q, t.targets[x].signed) == Children(q, RolesOf(t, x), 0)
  {
  }

  lemma {:induction false} ChildrenReadable(q: Query, roles: seq<DelegatedRole>, i: nat)
    requires i <= |roles| && forall j :: 0 <= j < i ==> !Stops(q, roles[j]) && !BadPattern(q, roles[j])
    ensures Children(q, roles, i).Success? <==> Readable(q, roles)
    ensures Children(q, roles, i).Failure? ==> Children(q, roles, i).error == Malformed
    decreases |roles| - i
  {
    hide MatchesPath, IsTopLevelRole;
    if i < |roles| {
      if Stops(q, roles[i]) {
        forall k | 0 <= k < |roles| && BadPattern(q, roles[k]) ensures StopsBefore(q, roles, k) {
          assert k > i;
        }
      } else if BadPattern(q, roles[i]) {
        assert !StopsBefore(q, roles, i);
      } else {
        ChildrenReadable(q, roles, i + 1);
      }
    }
  }

  lemma {:induction false} HereFirst(q: Query, t: TrustedState, above: set<string>, x: string, delegator: string,
        answer: Answer)
    requires x !in above && x in t.targets && DecidedHere(q, t, above + {x}, x, answer)
    ensures FirstAt(q, t, above, x, delegator, Here, answer)
  {
  }

  lemma {:induction false} TurnFirst(q: Query, t: TrustedState, above: set<string>, x: string, delegator: string,
        k: nat, rest: Trail, answer: Answer)
    requires x !in above && !HasTarget(q, t, x) && Readable(q, RolesOf(t, x))
    requires k < |RolesOf(t, x)| && Follows(q, RolesOf(t, x)[k]) && EarlierClean(q, t, above + {x}, x, k)
    requires FirstAt(q, t, above + {x}, RolesOf(t, x)[k].name, x, rest, answer)
    ensures FirstAt(q, t, above, x, delegator, Turn(k, rest), answer)
  {
  }

  /** The matching delegations were visited, up to the end or up to one that ends the search. */
  ghost predicate ListDone(q: Query, r: Walk, x: string, cut: bool) {
    if cut then exists k: nat :: CutDone(q, r.st.trusted, r.st.visited, x, k)
    else DoneBelow(q, r.st.trusted, r.st.visited, x, |RolesOf(r.st.trusted, x)|)
  }

  ghost predicate CutDone(q: Query, t: TrustedState, visited: set<string>, x: string, k: nat) {
    && k < |RolesOf(t, x)| && DoneBelow(q, t, visited, x, k)
    && Stops(q, RolesOf(t, x)[k]) && Done(t, visited, RolesOf(t, x)[k].name)
  }

  /** The delegations of `x` from the `k`-th on, when the ones before are done. */
  lemma {:induction false} ChildrenFirst(q: Query, x: string, k: nat, st: WalkState, above: set<string>,
        delegator: string)
    requires Ready(q, st, above + {x}) && x in st.trusted.targets && x !in above
    requires !HasTarget(q, st.trusted, x) && Readable(q, RolesOf(st.trusted, x))
    requires k <= |RolesOf(st.trusted, x)| && DoneBelow(q, st.trusted, st.visited, x, k)
    requires Children(q, RolesOf(st.trusted, x), k).Success?
    ensures var (names, cut) := Children(q, RolesOf(st.trusted, x), k).value;
            var r := VisitAll(q, Entries(names, x), st);
            && Moves(q, st, r, above + {x}) && AnswersFirst(q, r, above, x, delegator)
            && RolesOf(r.st.trusted, x) == RolesOf(st.trusted, x) && (r.Continue? ==> ListDone(q, r, x, cut))
    decreases StepsLeft(q, st), 2 * (|RolesOf(st.trusted, x)| - k) + 1
  {
    hide Closed, FirstAt, Skips, Readable, MatchesPath, IsTopLevelRole, Visit, Moves;
    var roles := RolesOf(st.trusted, x);
    if k == |roles| {
      assert Entries([], x) == [];
      StaysPut(q, st, above + {x});
    } else if !Follows(q, roles[k]) {
      ChildrenFirst(q, x, k + 1, st, above, delegator);
    } else {
      FollowedFirst(q, x, k, st, above, delegator);
    }
  }

  lemma {:induction false} StaysPut(q: Query, st: WalkState, above: set<string>)
    requires Ready(q, st, above)
    ensures Moves(q, st, Continue(st), above)
  {
  }

  lemma {:induction false} FollowedFirst(q: Query, x: string, k: nat, st: WalkState, above: set<string>,
        delegator: string)
    requires Ready(q, st, above + {x}) && x in st.trusted.targets && x !in above
    requires !HasTarget(q, st.trusted, x) && Readable(q, RolesOf(st.trusted, x))
    requires k < |RolesOf(st.trusted, x)| && DoneBelow(q, st.trusted, st.visited, x, k)
    requires Follows(q, RolesOf(st.trusted, x)[k]) && Children(q, RolesOf(st.trusted, x), k).Success?
    ensures var (names, cut) := Children(q, RolesOf(st.trusted, x), k).value;
            var r := VisitAll(q, Entries(names, x), st);
            && Moves(q, st, r, above + {x}) && AnswersFirst(q, r, above, x, delegator)
            && RolesOf(r.st.trusted, x) == RolesOf(st.trusted, x) && (r.Continue? ==> ListDone(q, r, x, cut))
    decreases StepsLeft(q, st), 2 * (|RolesOf(st.trusted, x)| - k)
  {
    hide Closed, FirstAt, Skips, Readable, MatchesPath, IsTopLevelRole, Visit;
    var d, e := RolesOf(st.trusted, x)[k], Entry(RolesOf(st.trusted, x)[k].name, x);
    var (names, cut) := Children(q, RolesOf(st.trusted, x), k).value;
    var entries := Entries(names, x);
    assert names[0] == d.name && entries[0] == e && entries[1..] == Entries(names[1..], x);
    assert EntryAt(q, st.trusted, e, k);
    VisitFirst(q, e, st, above + {x});
    var first := Visit(q, e, st);
    SameRole(q, st.trusted, first.st.trusted, x);
    if first.Over? {
      TurnTaken(q, x, k, st, first, above, delegator);
    } else {
      DoneBelowLater(q, st.trusted, st.visited, first.st.trusted, first.st.visited, x, k);
      if d.terminating {
        assert names == [d.name] && cut && entries[1..] == [];
        assert VisitAll(q, entries, st) == Continue(first.st);
        CutListDone(q, first, x, k);
      } else {
        assert names[1..] == Children(q, RolesOf(st.trusted, x), k + 1).value.0;
        ChildrenFirst(q, x, k + 1, first.st, above, delegator);
        MovesThen(q, st, first, VisitAll(q, entries[1..], first.st), above + {x});
      }
    }
  }

  lemma {:induction false} CutListDone(q: Query, r: Walk, x: string, k: nat)
    requires CutDone(q, r.st.trusted, r.st.visited, x, k)
    ensures ListDone(q, r, x, true)
  {
  }

  /** An answer below the `k`-th delegation is the first one below `x`. */
  lemma {:induction false} TurnTaken(q: Query, x: string, k: nat, st: WalkState, r: Walk, above: set<string>,
        delegator: string)
    requires Ready(q, st, above + {x}) && x in st.trusted.targets && x !in above
    requires !HasTarget(q, st.trusted, x) && Readable(q, RolesOf(st.trusted, x))
    requires k < |RolesOf(st.trusted, x)| && DoneBelow(q, st.trusted, st.visited, x, k)
    requires Follows(q, RolesOf(st.trusted, x)[k]) && Extends(st.trusted, r.st.trusted)
    requires AnswersFirst(q, r, above + {x}, RolesOf(st.trusted, x)[k].name, x)
    ensures AnswersFirst(q, r, above, x, delegator)
  {
    hide Closed, FirstAt, Readable, MatchesPath, IsTopLevelRole, EarlierClean, DoneBelow;
    if r.Over? && !Spent(q, r) {
      var y := RolesOf(st.trusted, x)[k].name;
      var rest :| FirstAt(q, r.st.trusted, above + {x}, y, x, rest, r.answer);
      SameRole(q, st.trusted, r.st.trusted, x);
      EarlierAreClean(q, st.trusted, st.visited, above + {x}, x, k, r.st.trusted);
      TurnFirst(q, r.st.trusted, above, x, delegator, k, rest, r.answer);
    }
  }

  /** Once the list is done, the role is, or the search ends here. */
  lemma {:induction false} ChildrenToRole(q: Query, x: string, st: WalkState, above: set<string>, delegator: string)
    requires Ready(q, st, above + {x}) && x in st.trusted.targets && x !in above
    requires !HasTarget(q, st.trusted, x) && Readable(q, RolesOf(st.trusted, x))
    requires Children(q, RolesOf(st.trusted, x), 0).Success?
    requires var (names, cut) := Children(q, RolesOf(st.trusted, x), 0).value;
             var r := VisitAll(q, Entries(names, x), st);
             && Moves(q, st, r, above + {x}) && AnswersFirst(q, r, above, x, delegator)
             && RolesOf(r.st.trusted, x) == RolesOf(st.trusted, x) && (r.Continue? ==> ListDone(q, r, x, cut))
    ensures var (names, cut) := Children(q, RolesOf(st.trusted, x), 0).value;
            var all := VisitAll(q, Entries(names, x), st);
            var r := if all.Continue? && cut then Over(NoTarget, all.st) else all;
            Moves(q, st, r, above) && AnswersFirst(q, r, above, x, delegator)
  {
    hide Closed, FirstAt, Readable, MatchesPath, IsTopLevelRole, DoneBelow, VisitAll, Children;
    var (names, cut) := Children(q, RolesOf(st.trusted, x), 0).value;
    var all := VisitAll(q, Entries(names, x), st);
    SameRole(q, st.trusted, all.st.trusted, x);
    if all.Continue? && cut {
      CutHere(q, all.st.trusted, all.st.visited, above, x);
      HereFirst(q, all.st.trusted, above, x, delegator, NoTarget);
    } else if all.Continue? {
      RoleCloses(q, all.st.trusted, all.st.visited, above, x);
    }
  }

  lemma {:induction false} CutHere(q: Query, t: TrustedState, visited: set<string>, above: set<string>, x: string)
    requires Closed(q, t, visited, above + {x}) && x in t.targets && exists k: nat :: CutDone(q, t, visited, x, k)
    requires !HasTarget(q, t, x) && Readable(q, RolesOf(t, x))
    ensures DecidedHere(q, t, above + {x}, x, NoTarget)
  {
    hide Closed, Readable, MatchesPath, IsTopLevelRole, DoneBelow, Clean, EarlierClean;
    var k: nat :| CutDone(q, t, visited, x, k);
    EarlierAreClean(q, t, visited, above + {x}, x, k, t);
    DoneIsClean(q, t, visited, above + {x}, RolesOf(t, x)[k].name);
    assert CutAt(q, t, above + {x}, x, k);
  }

  lemma {:induction false} RoleCloses(q: Query, t: TrustedState, visited: set<string>, above: set<string>, x: string)
    requires Closed(q, t, visited, above + {x}) && x in t.targets && x !in above
    requires !HasTarget(q, t, x) && Readable(q, RolesOf(t, x)) && DoneBelow(q, t, visited, x, |RolesOf(t, x)|)
    ensures Closed(q, t, visited, above)
  {
    hide MatchesPath, IsTopLevelRole, Done;
    forall k | 0 <= k < |RolesOf(t, x)| ensures Passes(q, RolesOf(t, x)[k]) {
      assert forall j :: 0 <= j < |RolesOf(t, x)| && Follows(q, RolesOf(t, x)[j]) ==>
               Passed(t, visited, RolesOf(t, x)[j]);
    }
    assert ClosedRole(q, t, visited, x);
    forall y | y in visited && y !in above ensures ClosedRole(q, t, visited, y) {
      assert y == x || ClosedRole(q, t, visited, y);
    }
  }

  // ----- The search as a whole

  /**
   * For every repository: unless it runs out of steps, a search says that there is no target only if none can
   * be found at any role that matching delegations lead to, or if a terminating delegation comes first; and any
   * other answer is that of the first role in pre-order that gives one. Every role on the way is held in
   * the end, or its file was requested in vain, or the snapshot does not pin it.
   */
  lemma {:induction false} SearchAnswersFirst(q: Query, trusted: TrustedState, calls: nat)
    requires "targets" in trusted.targets
    ensures var (answer, st) := Search(q, trusted, calls);
            || (answer == NoTarget && st.steps >= q.maxDelegations)
            || (answer == NoTarget && Clean(q, st.trusted, {}, "targets"))
            || exists trail :: FirstAt(q, st.trusted, {}, "targets", "root", trail, answer)
  {
    hide VisitAll, FirstAt, Clean, Moves, Visit;
    var st, e := WalkState(trusted, {}, 0, calls, []), Entry("targets", "root");
    VisitFirst(q, e, st, {});
    OneEntry(q, e, st);
    var r := Visit(q, e, st);
    assert Search(q, trusted, calls) == Final(r);
    if r.Continue? {
      LastIsClean(q, st, r);
    } else if !Spent(q, r) {
      var trail :| FirstAt(q, r.st.trusted, {}, "targets", "root", trail, r.answer);
      assert FirstAt(q, Search(q, trusted, calls).1.trusted, {}, "targets", "root", trail, Search(q, trusted, calls).0);
    }
  }

  lemma {:induction false} OneEntry(q: Query, e: Entry, st: WalkState)
    requires Started(st)
    ensures VisitAll(q, [e], st) == Visit(q, e, st)
  {
    hide Visit;
    assert [e][1..] == [];
  }

  lemma {:induction false} LastIsClean(q: Query, st: WalkState, r: Walk)
    requires r.Continue? && Moves(q, st, r, {}) && Done(r.st.trusted, r.st.visited, "targets")
    ensures Clean(q, r.st.trusted, {}, "targets")
  {
    hide Closed, Clean;
    DoneIsClean(q, r.st.trusted, r.st.visited, {}, "targets");
  }

  /** It runs out of steps only if that many roles are held, or if it met roles that the snapshot does not pin. */
  lemma {:induction false} StepsSpentOnRoles(q: Query, trusted: TrustedState, calls: nat)
    requires "targets" in trusted.targets
    ensures var (answer, st) := Search(q, trusted, calls);
            !answer.Error? ==> Skips(q, st.trusted) || st.steps <= |st.trusted.targets|
  {
    hide VisitAll, FirstAt, Clean, Visit, Closed, Skips, AnswersFirst;
    var st, e := WalkState(trusted, {}, 0, calls, []), Entry("targets", "root");
    FirstIsReady(q, trusted, calls);
    VisitFirst(q, e, st, {});
    OneEntry(q, e, st);
    var r := Visit(q, e, st);
    SubsetSize(r.st.visited, r.st.trusted.targets.Keys);
    assert |r.st.trusted.targets.Keys| == |r.st.trusted.targets|;
  }

  lemma {:induction false} FirstIsReady(q: Query, trusted: TrustedState, calls: nat)
    requires "targets" in trusted.targets
    ensures Ready(q, WalkState(trusted, {}, 0, calls, []), {})
  {
  }

  /** What the top-level role lists is found at once. */
  lemma {:induction false} TopLevelTargetFound(q: Query, trusted: TrustedState, calls: nat)
    requires "targets" in trusted.targets && q.path in trusted.targets["targets"].signed.targets
    requires q.maxDelegations > 0
    ensures Search(q, trusted, calls).0 == Target(trusted.targets["targets"].signed.targets[q.path], "targets")
    ensures Search(q, trusted, calls).1.trusted == trusted
  {
    var st, e := WalkState(trusted, {}, 0, calls, []), Entry("targets", "root");
    OneEntry(q, e, st);
    var entered := st.(steps := 1, visited := {} + {"targets"});
    assert Load(q, e, st.(steps := 1)) == Success((true, st.(steps := 1)));
    assert Visit(q, e, st) == Explore(q, "targets", entered);
    assert Search(q, trusted, calls) == Final(Visit(q, e, st));
  }
}
