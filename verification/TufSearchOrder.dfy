/**
 * Which answer the delegation search gives, told from the delegation graph alone: the first role in pre-order
 * that answers, or nothing if no role that matching delegations lead to could. No notion of the search itself
 * (work list, visited roles, children) occurs in the statements.
 */
module TufSearchOrder {
  import opened Prelude
  import opened TufMetadata
  import opened TufTrusted
  import opened TufDelegation

  // ----- The graph

  function RolesOf(t: TrustedState, x: string): seq<DelegatedRole> {
    if x in t.targets && t.targets[x].signed.delegations.Some? then t.targets[x].signed.delegations.value.roles else []
  }

  predicate HasTarget(q: Query, t: TrustedState, x: string) {
    x in t.targets && q.path in t.targets[x].signed.targets
  }

  /** The snapshot pins a file for the role. */
  predicate Pinned(t: TrustedState, x: string) {
    t.snapshot.Some? && x + ".json" in t.snapshot.value.signed.meta
  }

  predicate Follows(q: Query, d: DelegatedRole) {
    !IsTopLevelRole(d.name) && MatchesPath(q.env, d, q.path) == Some(true)
  }

  predicate Stops(q: Query, d: DelegatedRole) {
    Follows(q, d) && d.terminating
  }

  predicate BadPattern(q: Query, d: DelegatedRole) {
    !IsTopLevelRole(d.name) && MatchesPath(q.env, d, q.path) == None
  }

  /** Nothing to be found or reported at this role, and no delegation that would end the search. */
  ghost predicate Harmless(q: Query, t: TrustedState, x: string) {
    if x in t.targets
    then !HasTarget(q, t, x) && forall k :: 0 <= k < |RolesOf(t, x)| ==> Passes(q, RolesOf(t, x)[k])
    else !Pinned(t, x)
  }

  predicate Passes(q: Query, d: DelegatedRole) {
    !Stops(q, d) && !BadPattern(q, d)
  }

  /** Matching delegations lead from `x` along these roles, none of which is in `avoid`. */
  ghost predicate IsWay(q: Query, t: TrustedState, avoid: set<string>, x: string, way: seq<string>) {
    && way != [] && way[0] == x && (forall i :: 0 <= i < |way| ==> way[i] !in avoid)
    && forall i :: 0 < i < |way| ==> Link(q, t, way, i)
  }

  ghost predicate Clean(q: Query, t: TrustedState, avoid: set<string>, x: string) {
    forall way :: IsWay(q, t, avoid, x, way) ==> Harmless(q, t, way[|way| - 1])
  }

  // ----- The first role that answers

  /** Which delegations to take: down to a role that decides, or to one that cannot be loaded. */
  datatype Trail = Here | Unloadable | Turn(k: nat, rest: Trail)

  /** A broken pattern counts only if no delegation before it ends the list. */
  ghost predicate Readable(q: Query, roles: seq<DelegatedRole>) {
    forall k :: 0 <= k < |roles| && BadPattern(q, roles[k]) ==> StopsBefore(q, roles, k)
  }

  predicate StopsBefore(q: Query, roles: seq<DelegatedRole>, k: nat)
    requires k <= |roles|
  {
    exists j :: 0 <= j < k && Stops(q, roles[j])
  }

  /** The matching delegations before the `k`-th do not end the search, and nothing is to be found below them. */
  ghost predicate EarlierClean(q: Query, t: TrustedState, avoid: set<string>, x: string, k: nat)
    requires k <= |RolesOf(t, x)|
  {
    forall j :: 0 <= j < k && Follows(q, RolesOf(t, x)[j]) ==> PassedClean(q, t, avoid, RolesOf(t, x)[j])
  }

  ghost predicate PassedClean(q: Query, t: TrustedState, avoid: set<string>, d: DelegatedRole) {
    !d.terminating && Clean(q, t, avoid, d.name)
  }

  /** The search ends with nothing at the `k`-th delegation of `x`, a matching and terminating one. */
  ghost predicate CutAt(q: Query, t: TrustedState, avoid: set<string>, x: string, k: nat) {
    && k < |RolesOf(t, x)| && EarlierClean(q, t, avoid, x, k)
    && Stops(q, RolesOf(t, x)[k]) && Clean(q, t, avoid, RolesOf(t, x)[k].name)
  }

  ghost predicate DecidedHere(q: Query, t: TrustedState, avoid: set<string>, x: string, answer: Answer) {
    match answer
    case Target(file, role) => role == x && HasTarget(q, t, x) && file == t.targets[x].signed.targets[q.path]
    case NoTarget =>
      !HasTarget(q, t, x) && Readable(q, RolesOf(t, x)) && exists k: nat :: CutAt(q, t, avoid, x, k)
    case Error(error) => error == Malformed && !HasTarget(q, t, x) && !Readable(q, RolesOf(t, x))
  }

  /** The pinned file of a role that is not held was requested; it was not served, or it was not accepted. */
  ghost predicate LoadFails(q: Query, t: TrustedState, x: string, delegator: string, answer: Answer) {
    && answer.Error? && x !in t.targets && Pinned(t, x)
    && exists call: nat :: FailsAt(q, t, x, delegator, answer.error, call)
  }

  ghost predicate FailsAt(q: Query, t: TrustedState, x: string, delegator: string, error: TufError, call: nat) {
    && TargetsFileName(t, x).Success?
    && var reply := q.repo(call, TargetsFileName(t, x).value, q.maxLength);
    if reply.Found? then DelegatedStep(q.env, t, reply.bytes, x, delegator, q.now) == Failure(error)
    else error == Transport
  }

  /**
   * The trail leads to the first role in pre-order that gives an answer: at every turn nothing is to be found
   * at the role itself or below an earlier delegation, except through the roles above, which are on the trail.
   */
  ghost predicate FirstAt(q: Query, t: TrustedState, above: set<string>, x: string, delegator: string, trail: Trail,
        answer: Answer)
    decreases trail
  {
    && x !in above
    && match trail
       case Unloadable => LoadFails(q, t, x, delegator, answer)
       case Here => x in t.targets && DecidedHere(q, t, above + {x}, x, answer)
       case Turn(k, rest) =>
         && !HasTarget(q, t, x) && Readable(q, RolesOf(t, x))
         && k < |RolesOf(t, x)| && Follows(q, RolesOf(t, x)[k]) && EarlierClean(q, t, above + {x}, x, k)
         && FirstAt(q, t, above + {x}, RolesOf(t, x)[k].name, x, rest, answer)
  }

  // ----- There is at most one such answer

  lemma {:induction false} TurnIsLink(q: Query, t: TrustedState, x: string, k: nat)
    requires k < |RolesOf(t, x)| && Follows(q, RolesOf(t, x)[k])
    ensures Delegates(q, t, x, RolesOf(t, x)[k].name)
  {
    assert DelegatesTo(q, RolesOf(t, x)[k], RolesOf(t, x)[k].name);
  }

  lemma {:induction false} AnswersAreNotClean(q: Query, t: TrustedState, above: set<string>, x: string,
        delegator: string, trail: Trail, answer: Answer)
    requires FirstAt(q, t, above, x, delegator, trail, answer)
    ensures !Clean(q, t, above, x)
  {
    var way := WayToAnswer(q, t, above, x, delegator, trail, answer);
  }

  lemma {:induction false} WayToAnswer(q: Query, t: TrustedState, above: set<string>, x: string, delegator: string,
        trail: Trail, answer: Answer) returns (way: seq<string>)
    requires FirstAt(q, t, above, x, delegator, trail, answer)
    ensures IsWay(q, t, above, x, way) && !Harmless(q, t, way[|way| - 1])
    decreases trail
  {
    hide MatchesPath, LoadFails, EarlierClean, Delegates, IsTopLevelRole, Clean;
    if trail.Turn? {
      var y := RolesOf(t, x)[trail.k].name;
      TurnIsLink(q, t, x, trail.k);
      var rest := WayToAnswer(q, t, above + {x}, y, x, trail.rest, answer);
      way := [x] + rest;
      forall i | 0 < i < |way| ensures Link(q, t, way, i) {
        if i > 1 { assert Link(q, t, rest, i - 1); }
      }
      assert way[|way| - 1] == rest[|rest| - 1];
    } else {
      way := [x];
      EndIsHarmful(q, t, above, x, delegator, trail, answer);
    }
  }

  lemma {:induction false} EndIsHarmful(q: Query, t: TrustedState, above: set<string>, x: string, delegator: string,
        trail: Trail, answer: Answer)
    requires FirstAt(q, t, above, x, delegator, trail, answer) && !trail.Turn?
    ensures !Harmless(q, t, x)
  {
    hide MatchesPath, FailsAt, EarlierClean, IsTopLevelRole, Clean;
    if trail.Here? && answer.NoTarget? {
      var k: nat :| CutAt(q, t, above + {x}, x, k);
      assert !Passes(q, RolesOf(t, x)[k]);
    } else if trail.Here? && answer.Error? {
      var k :| 0 <= k < |RolesOf(t, x)| && BadPattern(q, RolesOf(t, x)[k]) && !StopsBefore(q, RolesOf(t, x), k);
      assert !Passes(q, RolesOf(t, x)[k]);
    }
  }

  /** The answer is determined by the roles that are held in the end; only one error may stand for another. */
  lemma {:induction false} FirstAnswerUnique(q: Query, t: TrustedState, above: set<string>, x: string, d1: string,
        trail1: Trail, answer1: Answer, d2: string, trail2: Trail, answer2: Answer)
    requires FirstAt(q, t, above, x, d1, trail1, answer1) && FirstAt(q, t, above, x, d2, trail2, answer2)
    ensures answer1 == answer2 || (answer1.Error? && answer2.Error?)
    decreases trail1
  {
    hide MatchesPath, FailsAt, Clean, IsTopLevelRole, Readable;
    if trail1.Turn? && trail2.Turn? {
      if trail1.k == trail2.k {
        FirstAnswerUnique(q, t, above + {x}, RolesOf(t, x)[trail1.k].name, x, trail1.rest, answer1,
          x, trail2.rest, answer2);
      } else if trail1.k < trail2.k {
        AnswersAreNotClean(q, t, above + {x}, RolesOf(t, x)[trail1.k].name, x, trail1.rest, answer1);
        assert false;
      } else {
        AnswersAreNotClean(q, t, above + {x}, RolesOf(t, x)[trail2.k].name, x, trail2.rest, answer2);
        assert false;
      }
    } else if trail1.Turn? && trail2.Here? {
      TurnOrCut(q, t, above, x, d1, trail1, answer1, d2, answer2);
    } else if trail2.Turn? && trail1.Here? {
      TurnOrCut(q, t, above, x, d2, trail2, answer2, d1, answer1);
    }
  }

  lemma {:induction false} TurnOrCut(q: Query, t: TrustedState, above: set<string>, x: string, d1: string,
        trail1: Trail, answer1: Answer, d2: string, answer2: Answer)
    requires FirstAt(q, t, above, x, d1, trail1, answer1) && trail1.Turn?
    ensures !FirstAt(q, t, above, x, d2, Here, answer2)
  {
    hide MatchesPath, FailsAt, Clean, IsTopLevelRole, Readable;
    var j := trail1.k;
    AnswersAreNotClean(q, t, above + {x}, RolesOf(t, x)[j].name, x, trail1.rest, answer1);
    forall k: nat ensures !CutAt(q, t, above + {x}, x, k) {
      if j < k {
        assert !PassedClean(q, t, above + {x}, RolesOf(t, x)[j]);
      }
    }
  }
}
