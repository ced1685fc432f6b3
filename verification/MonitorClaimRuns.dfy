/** Runs of the monitor-claim store. */
module MonitorClaimRuns {
  import opened Records
  import opened StableSort
  import opened MonitorClaims
  import opened Authorities
  import opened Lists

  // ---- issuing ----

  lemma PrunedKeepsInv(s: State, now: nat)
    requires Inv(s)
    ensures Inv(Pruned(s, now)) && forall c :: c in Pruned(s, now).claims <==> c in s.claims && Live(now)(c)
  {
    var at := FilterPicks(s.claims, Live(now));
    PickedKeepsInv(s, Filter(s.claims, Live(now)), at);
  }

  lemma ClearedKeepsInv(s: State, job: nat, owner: Owner, now: nat)
    requires Inv(s)
    ensures var c := Cleared(s, job, owner, now);
            && Inv(c) && |c.claims| < MAX_JOB_MONITOR_CLAIMS && c.sequence == s.sequence
            && forall x :: x in c.claims ==> x in s.claims && (x.job != job || x.owner != owner)
  {
    PrunedKeepsInv(s, now);
    var p := Pruned(s, now);
    var at := FilterPicks(p.claims, OfOthers(job, owner));
    var f := p.(claims := Filter(p.claims, OfOthers(job, owner)));
    PickedKeepsInv(p, f.claims, at);
    EvictedKeepsInv(f);
    forall x | x in Evicted(f.claims) ensures x in s.claims && (x.job != job || x.owner != owner) {
      assert x in f.claims;
      assert OfOthers(job, owner)(x) && x in p.claims;
    }
  }

  lemma AppendedKeepsInv(s: State, c: Claim)
    requires Inv(s) && |s.claims| < MAX_JOB_MONITOR_CLAIMS && s.sequence < MAX_SAFE_INTEGER - 1
    requires c.sequence == s.sequence + 1 && c.expiresAt > 0
    requires forall x :: x in s.claims ==> x.id != c.id && (x.job != c.job || x.owner != c.owner)
    ensures Inv(State(s.sequence + 1, s.claims + [c]))
  {
    var claims := s.claims + [c];
    forall i, j | 0 <= i < j < |claims|
      ensures claims[i].id != claims[j].id && claims[i].sequence != claims[j].sequence
              && (claims[i].job != claims[j].job || claims[i].owner != claims[j].owner)
    {
      assert claims[i] in s.claims;
    }
  }

  predicate NewId(s: State, id: nat) {
    forall i :: 0 <= i < |s.claims| ==> s.claims[i].id != id
  }

  /**
   * Issuing keeps the invariant and drops every earlier claim of the same job and owner. The claim whose id it returns
   * is stored exactly if the counter is below its renumbering threshold.
   */
  lemma IssueKeepsInv(s: State, job: nat, id: nat, owner: Owner, now: nat)
    requires Inv(s) && NewId(s, id)
    ensures var s' := AfterIssue(s, job, id, owner, now);
            && Inv(s')
            && (forall x :: x in s'.claims && x.id != id ==> HasTwin(s.claims, x) && (x.job != job || x.owner != owner))
            && ((exists x :: x in s'.claims && x.id == id) <==> s.sequence < MAX_SAFE_INTEGER - 1)
            && (s.sequence < MAX_SAFE_INTEGER - 1 ==> NewClaim(job, id, owner, now, s.sequence + 1) in s'.claims)
  {
    if s.sequence < MAX_SAFE_INTEGER - 1 {
      IssueBelowThreshold(s, job, id, owner, now);
    } else {
      IssueAtThreshold(s, job, id, owner, now);
    }
  }

  lemma IssueBelowThreshold(s: State, job: nat, id: nat, owner: Owner, now: nat)
    requires Inv(s) && NewId(s, id) && s.sequence < MAX_SAFE_INTEGER - 1
    ensures var s' := AfterIssue(s, job, id, owner, now);
            && Inv(s') && NewClaim(job, id, owner, now, s.sequence + 1) in s'.claims
            && forall x :: x in s'.claims && x.id != id ==> HasTwin(s.claims, x) && (x.job != job || x.owner != owner)
  {
    hide Cleared;
    ClearedKeepsInv(s, job, owner, now);
    var cleared, c := Cleared(s, job, owner, now), NewClaim(job, id, owner, now, s.sequence + 1);
    AppendedKeepsInv(cleared, c);
    forall x | x in cleared.claims ensures HasTwin(s.claims, x) {
      assert x == x.(sequence := x.sequence);
    }
    assert AfterIssue(s, job, id, owner, now) == State(s.sequence + 1, cleared.claims + [c]);
  }

  lemma IssueAtThreshold(s: State, job: nat, id: nat, owner: Owner, now: nat)
    requires Inv(s) && NewId(s, id) && s.sequence >= MAX_SAFE_INTEGER - 1
    ensures var s' := AfterIssue(s, job, id, owner, now);
            Inv(s') && forall x :: x in s'.claims ==> x.id != id && HasTwin(s.claims, x) && (x.job != job || x.owner != owner)
  {
    hide Cleared, Bumped, KeepsOrder, Inv;
    ClearedKeepsInv(s, job, owner, now);
    var cleared := Cleared(s, job, owner, now);
    BumpedKeepsInv(cleared);
    forall x | x in Bumped(cleared).claims ensures x.id != id && HasTwin(s.claims, x) && (x.job != job || x.owner != owner) {
      assert HasTwin(cleared.claims, x);
      var y :| y in cleared.claims && y == x.(sequence := y.sequence);
    }
  }

  // ---- touching ----

  ghost predicate Others(claims: seq<Claim>, id: nat, sequence: int) {
    forall x :: x in claims && x.id != id ==> x.sequence < sequence
  }

  function Fresh(s: State, c: Claim, state: ClaimState, now: nat): Claim {
    c.(state := state, expiresAt := now + JOB_MONITOR_CLAIM_TTL_MS, sequence := Bumped(s).sequence)
  }

  /** Where the touched claim is, after a possible renumbering. */
  lemma TouchesItsClaim(s: State, c: Claim, state: ClaimState, now: nat) returns (i: nat)
    requires Inv(s) && c in s.claims
    ensures i < |Bumped(s).claims| && Bumped(s).claims[i].id == c.id
    ensures Bumped(s).claims[i].job == c.job && Bumped(s).claims[i].owner == c.owner
    ensures Touched(s, c, state, now) == Bumped(s).(claims := Bumped(s).claims[i := Fresh(s, c, state, now)])
  {
    BumpedKeepsInv(s);
    var bumped := Bumped(s);
    assert HasTwin(bumped.claims, c);
    var twin :| twin in bumped.claims && twin == c.(sequence := twin.sequence);
    var k :| 0 <= k < |bumped.claims| && bumped.claims[k] == twin;
    i := Find(bumped.claims, Named(c.id));
    assert Named(c.id)(bumped.claims[k]);
    SameIdSame(bumped, twin, bumped.claims[i]);
  }

  /**
   * Activating, claiming or refreshing makes that claim the most recent one, and changes nothing but numbers about the
   * others.
   */
  lemma TouchKeepsInv(s: State, c: Claim, state: ClaimState, now: nat)
    requires Inv(s) && c in s.claims
    ensures var s' := Touched(s, c, state, now);
            && Inv(s') && Fresh(s, c, state, now) in s'.claims
            && Others(s'.claims, c.id, Fresh(s, c, state, now).sequence)
            && (forall x :: x in s'.claims && x.id != c.id ==> x in Bumped(s).claims)
  {
    BumpedKeepsInv(s);
    var i := TouchesItsClaim(s, c, state, now);
    ReplacedKeepsInv(Bumped(s), i, Fresh(s, c, state, now));
  }

  /** The other claims keep their order of use, even when all are renumbered. */
  lemma TouchKeepsOrder(s: State, c: Claim, state: ClaimState, now: nat, x: Claim, y: Claim, x': Claim, y': Claim)
    requires Inv(s) && c in s.claims && x in s.claims && y in s.claims
    requires x' in Touched(s, c, state, now).claims && y' in Touched(s, c, state, now).claims
    requires x.id == x'.id != c.id && y.id == y'.id != c.id
    ensures x.sequence < y.sequence <==> x'.sequence < y'.sequence
  {
    TouchKeepsInv(s, c, state, now);
    BumpedKeepsInv(s);
    assert SamePairOrder(x, y, x', y');
  }

  lemma ReplacedKeepsInv(s: State, i: nat, c: Claim)
    requires Inv(s) && i < |s.claims| && c.id == s.claims[i].id && c.job == s.claims[i].job && c.owner == s.claims[i].owner
    requires c.sequence == s.sequence && c.expiresAt > 0
    requires forall j :: 0 <= j < |s.claims| ==> s.claims[j].sequence < s.sequence
    ensures Inv(s.(claims := s.claims[i := c]))
    ensures c in s.claims[i := c] && Others(s.claims[i := c], c.id, s.sequence)
    ensures forall x :: x in s.claims[i := c] && x.id != c.id ==> x in s.claims
  {
    assert s.claims[i := c][i] == c;
  }

  // ---- runs ----

  /** The store, every id that was ever issued, and those that were ever activated. */
  datatype System = System(state: State, ever: set<nat>, activated: set<nat>)

  const GENESIS := System(State(0, []), {}, {})

  datatype Action =
    | Issue(job: nat, id: nat, owner: Owner, now: nat)
    | Activate(job: nat, id: nat, owner: Owner, now: nat)
    | TakeClaim(job: nat, id: nat, owner: Owner, now: nat)
    | Refresh(job: nat, id: nat, owner: Owner, now: nat)
    | Cancel(revocation: Scope)

  /** The random 128-bit ids never repeat. */
  predicate Enabled(sys: System, a: Action) {
    a.Issue? ==> a.id !in sys.ever
  }

  function Step(sys: System, a: Action): System {
    match a
    case Issue(job, id, owner, now) => System(AfterIssue(sys.state, job, id, owner, now), sys.ever + {id}, sys.activated)
    case Activate(job, id, owner, now) =>
      var o := AfterActivate(sys.state, job, id, owner, now);
      System(o.state, sys.ever, if o.ok then sys.activated + {id} else sys.activated)
    case TakeClaim(job, id, owner, now) => sys.(state := AfterClaim(sys.state, job, id, owner, now).state)
    case Refresh(job, id, owner, now) => sys.(state := AfterRefresh(sys.state, job, id, owner, now).state)
    case Cancel(r) => sys.(state := AfterCancel(sys.state, r))
  }

  function Run(sys: System, actions: seq<Action>): System
    decreases |actions|
  {
    if actions == [] then sys else Run(Step(sys, actions[0]), actions[1..])
  }

  predicate Possible(sys: System, actions: seq<Action>)
    decreases |actions|
  {
    actions == [] || (Enabled(sys, actions[0]) && Possible(Step(sys, actions[0]), actions[1..]))
  }

  ghost predicate Known(sys: System, c: Claim) {
    c.id in sys.ever && (c.state != Issued ==> c.id in sys.activated)
  }

  ghost predicate SystemOk(sys: System) {
    && Inv(sys.state)
    && (forall c :: c in sys.state.claims ==> Known(sys, c))
    && sys.activated <= sys.ever
  }

  /** Every claim after the step was there before, but for its number, or is the one the step is about. */
  ghost predicate OnlyAbout(s: State, s': State, id: nat) {
    forall x :: x in s'.claims && x.id != id ==> HasTwin(s.claims, x)
  }

  lemma TouchIsAbout(s: State, p: State, c: Claim, state: ClaimState, now: nat)
    requires Inv(p) && c in p.claims && forall x :: x in p.claims ==> x in s.claims
    ensures Inv(Touched(p, c, state, now)) && OnlyAbout(s, Touched(p, c, state, now), c.id)
    ensures forall x :: x in Touched(p, c, state, now).claims && x.id == c.id ==> x.state == state
  {
    TouchKeepsInv(p, c, state, now);
    BumpedKeepsInv(p);
    var s' := Touched(p, c, state, now);
    forall x | x in s'.claims && x.id != c.id ensures HasTwin(s.claims, x) {
      assert HasTwin(p.claims, x);
    }
    forall x | x in s'.claims && x.id == c.id ensures x.state == state {
      SameIdSame(s', x, Fresh(p, c, state, now));
    }
  }

  lemma KnownStays(sys: System, sys': System, id: nat)
    requires SystemOk(sys) && Inv(sys'.state) && OnlyAbout(sys.state, sys'.state, id)
    requires sys.ever <= sys'.ever && sys.activated <= sys'.activated <= sys'.ever
    requires forall x :: x in sys'.state.claims && x.id == id ==> Known(sys', x)
    ensures SystemOk(sys')
  {
    forall x | x in sys'.state.claims ensures Known(sys', x) {
      if x.id != id {
        assert HasTwin(sys.state.claims, x);
        var y :| y in sys.state.claims && y == x.(sequence := y.sequence);
        assert Known(sys, y);
      }
    }
  }

  lemma IssueStep(sys: System, a: Action)
    requires SystemOk(sys) && a.Issue? && Enabled(sys, a)
    ensures SystemOk(Step(sys, a)) && OnlyAbout(sys.state, Step(sys, a).state, a.id)
  {
    forall i | 0 <= i < |sys.state.claims| ensures sys.state.claims[i].id != a.id {
      assert Known(sys, sys.state.claims[i]);
    }
    IssueKeepsInv(sys.state, a.job, a.id, a.owner, a.now);
    var sys' := Step(sys, a);
    forall x | x in sys'.state.claims && x.id == a.id ensures Known(sys', x) {
      SameIdSame(sys'.state, x, NewClaim(a.job, a.id, a.owner, a.now, sys.state.sequence + 1));
    }
    KnownStays(sys, sys', a.id);
  }

  /** The claim that an operation would touch, among those that its pruning leaves. */
  lemma FindsExact(s: State, p: State, job: nat, id: nat, owner: Owner) returns (i: nat)
    requires forall x :: x in p.claims ==> x in s.claims
    ensures i == Find(p.claims, Exact(job, id, owner))
    ensures i < |p.claims| ==> p.claims[i] in s.claims && p.claims[i] in p.claims && p.claims[i].id == id
  {
    i := Find(p.claims, Exact(job, id, owner));
    assert i < |p.claims| ==> Exact(job, id, owner)(p.claims[i]) && p.claims[i] in p.claims;
  }

  lemma NothingChanges(sys: System, id: nat)
    requires SystemOk(sys)
    ensures OnlyAbout(sys.state, sys.state, id)
  {
    SameClaims(sys.state);
  }

  lemma TouchedIsOk(sys: System, sys': System, p: State, c: Claim, state: ClaimState, now: nat)
    requires SystemOk(sys) && Inv(p) && c in p.claims && forall x :: x in p.claims ==> x in sys.state.claims
    requires sys'.state == Touched(p, c, state, now) && sys'.ever == sys.ever && sys.activated <= sys'.activated <= sys'.ever
    requires state != Issued ==> c.id in sys'.activated
    ensures SystemOk(sys') && OnlyAbout(sys.state, sys'.state, c.id)
  {
    TouchIsAbout(sys.state, p, c, state, now);
    assert Known(sys, c);
    KnownStays(sys, sys', c.id);
  }

  lemma TouchStep(sys: System, a: Action)
    requires SystemOk(sys) && (a.Activate? || a.TakeClaim? || a.Refresh?)
    ensures SystemOk(Step(sys, a)) && OnlyAbout(sys.state, Step(sys, a).state, a.id)
  {
    hide Touched, OnlyAbout, Pruned, Inv;
    NothingChanges(sys, a.id);
    PrunedKeepsInv(sys.state, a.now);
    var p := Pruned(sys.state, a.now);
    match a
    case Activate(job, id, owner, now) =>
      var i := FindsExact(sys.state, p, job, id, owner);
      if AfterActivate(sys.state, job, id, owner, now).ok {
        assert Known(sys, p.claims[i]);
        TouchedIsOk(sys, Step(sys, a), p, p.claims[i], Active, now);
      }
    case TakeClaim(job, id, owner, now) =>
      var i := FindsExact(sys.state, p, job, id, owner);
      if AfterClaim(sys.state, job, id, owner, now).ok {
        assert Known(sys, p.claims[i]);
        TouchedIsOk(sys, Step(sys, a), p, p.claims[i], Claimed, now);
      }
    case Refresh(job, id, owner, now) =>
      var i := FindsExact(sys.state, sys.state, job, id, owner);
      if AfterRefresh(sys.state, job, id, owner, now).ok {
        assert Known(sys, sys.state.claims[i]);
        TouchedIsOk(sys, Step(sys, a), sys.state, sys.state.claims[i], Claimed, now);
      }
  }

  lemma CancelStep(sys: System, a: Action)
    requires SystemOk(sys) && a.Cancel?
    ensures SystemOk(Step(sys, a)) && forall id :: OnlyAbout(sys.state, Step(sys, a).state, id)
  {
    var at := FilterPicks(sys.state.claims, OutOfReach(a.revocation));
    PickedKeepsInv(sys.state, Filter(sys.state.claims, OutOfReach(a.revocation)), at);
    SameClaims(sys.state);
    forall x | x in Step(sys, a).state.claims ensures HasTwin(sys.state.claims, x) && Known(sys, x) {
      assert x in sys.state.claims;
    }
  }

  lemma StepKeepsOk(sys: System, a: Action)
    requires SystemOk(sys) && Enabled(sys, a)
    ensures SystemOk(Step(sys, a))
    ensures forall x :: x in Step(sys, a).state.claims && x.id in sys.ever && (a.Cancel? || x.id != a.id) ==> HasTwin(sys.state.claims, x)
  {
    match a
    case Issue(_, _, _, _) => IssueStep(sys, a);
    case Cancel(_) =>
      CancelStep(sys, a);
      assert OnlyAbout(sys.state, Step(sys, a).state, 0) && OnlyAbout(sys.state, Step(sys, a).state, 1);
    case _ => TouchStep(sys, a);
  }

  lemma {:induction false} RunKeepsOk(sys: System, actions: seq<Action>)
    requires SystemOk(sys) && Possible(sys, actions)
    ensures SystemOk(Run(sys, actions))
    decreases |actions|
  {
    if actions != [] {
      StepKeepsOk(sys, actions[0]);
      RunKeepsOk(Step(sys, actions[0]), actions[1..]);
    }
  }

  /**
   * In every run the claims are a bounded recency map: at most 128, under distinct ids and distinct sequences up to
   * the counter, and at most one per job and owner.
   */
  lemma ClaimsAreBounded(actions: seq<Action>)
    requires Possible(GENESIS, actions)
    ensures var s := Run(GENESIS, actions).state;
            && 0 <= s.sequence <= MAX_SAFE_INTEGER && |s.claims| <= 128
            && (forall c :: c in s.claims ==> 0 < c.sequence <= s.sequence)
            && (forall c, d :: c in s.claims && d in s.claims && c != d ==>
                  c.id != d.id && c.sequence != d.sequence && (c.job != d.job || c.owner != d.owner))
  {
    RunKeepsOk(GENESIS, actions);
  }

  /** A claim is taken, refreshed or found only under an id that an activation accepted earlier in the run. */
  lemma NotClaimedBeforeActivation(actions: seq<Action>, job: nat, id: nat, owner: Owner, now: nat)
    requires Possible(GENESIS, actions) && id !in Run(GENESIS, actions).activated
    ensures var s := Run(GENESIS, actions).state;
            && !AfterClaim(s, job, id, owner, now).ok && !AfterRefresh(s, job, id, owner, now).ok && !Has(s, job, id, owner, now)
  {
    RunKeepsOk(GENESIS, actions);
    var sys := Run(GENESIS, actions);
    PrunedKeepsInv(sys.state, now);
    var i := FindsExact(sys.state, Pruned(sys.state, now), job, id, owner);
    var j := FindsExact(sys.state, sys.state, job, id, owner);
    assert i < |Pruned(sys.state, now).claims| ==> Known(sys, Pruned(sys.state, now).claims[i]);
    assert j < |sys.state.claims| ==> Known(sys, sys.state.claims[j]);
  }

  /** An id that was issued and is no longer in the store never comes back. */
  lemma {:induction false} RetiredStaysRetired(sys: System, actions: seq<Action>, id: nat)
    requires SystemOk(sys) && Possible(sys, actions) && id in sys.ever && NewId(sys.state, id)
    ensures NewId(Run(sys, actions).state, id)
    decreases |actions|
  {
    if actions != [] {
      var a := actions[0];
      StepKeepsOk(sys, a);
      RetiredAfterStep(sys, a, id);
      RetiredStaysRetired(Step(sys, a), actions[1..], id);
    }
  }

  lemma RetiredAfterStep(sys: System, a: Action, id: nat)
    requires SystemOk(sys) && Enabled(sys, a) && id in sys.ever && NewId(sys.state, id)
    ensures NewId(Step(sys, a).state, id)
  {
    StepKeepsOk(sys, a);
    var s' := Step(sys, a).state;
    if a.Cancel? || a.Issue? || a.id != id {
      forall i | 0 <= i < |s'.claims| ensures s'.claims[i].id != id {
        if s'.claims[i].id in sys.ever && (a.Cancel? || s'.claims[i].id != a.id) {
          assert HasTwin(sys.state.claims, s'.claims[i]);
        }
      }
    } else {
      PrunedKeepsInv(sys.state, a.now);
      var i := FindsExact(sys.state, if a.Refresh? then sys.state else Pruned(sys.state, a.now), a.job, a.id, a.owner);
    }
  }

  /** An id that a newer issue for the same job and owner replaced is never accepted again. */
  lemma ReplacedIsNeverAccepted(before: seq<Action>, replaced: Claim, a: Action, after: seq<Action>, job: nat, owner: Owner, now: nat)
    requires Possible(GENESIS, before) && replaced in Run(GENESIS, before).state.claims
    requires a.Issue? && a.job == replaced.job && a.owner == replaced.owner && Enabled(Run(GENESIS, before), a)
    requires Possible(Step(Run(GENESIS, before), a), after)
    ensures var s := Run(Step(Run(GENESIS, before), a), after).state;
            && !AfterActivate(s, job, replaced.id, owner, now).ok && !AfterClaim(s, job, replaced.id, owner, now).ok
            && !AfterRefresh(s, job, replaced.id, owner, now).ok && !Has(s, job, replaced.id, owner, now)
  {
    var sys := Run(GENESIS, before);
    RunKeepsOk(GENESIS, before);
    assert Known(sys, replaced);
    ReplacedIsGone(sys, replaced, a);
    StepKeepsOk(sys, a);
    RetiredStaysRetired(Step(sys, a), after, replaced.id);
    RunKeepsOk(Step(sys, a), after);
    GoneIsRefused(Run(Step(sys, a), after).state, job, replaced.id, owner, now);
  }

  lemma ReplacedIsGone(sys: System, replaced: Claim, a: Action)
    requires SystemOk(sys) && replaced in sys.state.claims && a.Issue? && a.job == replaced.job && a.owner == replaced.owner && Enabled(sys, a)
    requires Known(sys, replaced)
    ensures NewId(Step(sys, a).state, replaced.id)
  {
    forall i | 0 <= i < |sys.state.claims| ensures sys.state.claims[i].id != a.id {
      assert Known(sys, sys.state.claims[i]);
    }
    IssueKeepsInv(sys.state, a.job, a.id, a.owner, a.now);
    var s' := Step(sys, a).state;
    forall i | 0 <= i < |s'.claims| ensures s'.claims[i].id != replaced.id {
      if s'.claims[i].id == replaced.id {
        assert HasTwin(sys.state.claims, s'.claims[i]);
        var y :| y in sys.state.claims && y == s'.claims[i].(sequence := y.sequence);
        SameIdSame(sys.state, y, replaced);
      }
    }
  }

  lemma GoneIsRefused(s: State, job: nat, id: nat, owner: Owner, now: nat)
    requires Inv(s) && NewId(s, id)
    ensures !AfterActivate(s, job, id, owner, now).ok && !AfterClaim(s, job, id, owner, now).ok
            && !AfterRefresh(s, job, id, owner, now).ok && !Has(s, job, id, owner, now)
  {
    PrunedKeepsInv(s, now);
    var i := FindsExact(s, Pruned(s, now), job, id, owner);
    var j := FindsExact(s, s, job, id, owner);
  }
}
