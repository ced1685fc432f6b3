/** What the monitor-claim store answers, to whom, and what becomes of every other claim. */
module MonitorClaimAccess {
  import opened Records
  import opened MonitorClaims
  import opened MonitorClaimRuns
  import opened Authorities
  import opened Lists

  /** The claim is for this job, under this id, and was issued to exactly this authority. */
  predicate Own(c: Claim, job: nat, id: nat, owner: Owner) {
    && c.job == job && c.id == id
    && c.owner.account == owner.account && c.owner.version == owner.version && c.owner.client == owner.client
    && c.owner.family == owner.family && c.owner.role == owner.role
  }

  /** A claim that was taken is kept whatever the time; any other expires. */
  predicate Standing(c: Claim, now: nat) {
    c.state == Claimed || now < c.expiresAt
  }

  lemma FindsOwn(s: State, job: nat, id: nat, owner: Owner)
    requires Inv(s)
    ensures var i := Find(s.claims, Exact(job, id, owner));
            if i < |s.claims| then Own(s.claims[i], job, id, owner) && s.claims[i] in s.claims
            else forall c :: c in s.claims ==> !Own(c, job, id, owner)
    ensures forall c, d :: c in s.claims && d in s.claims && c.id == d.id ==> c == d
  {
    var i := Find(s.claims, Exact(job, id, owner));
    if i == |s.claims| {
      forall c | c in s.claims ensures !Own(c, job, id, owner) {
        var j :| 0 <= j < |s.claims| && s.claims[j] == c;
        assert !Exact(job, id, owner)(s.claims[j]);
      }
    }
    forall c, d | c in s.claims && d in s.claims && c.id == d.id ensures c == d {
      SameIdSame(s, c, d);
    }
  }

  lemma StandingRemain(s: State, now: nat)
    requires Inv(s)
    ensures Inv(Pruned(s, now)) && forall c :: c in Pruned(s, now).claims <==> c in s.claims && Standing(c, now)
  {
    PrunedKeepsInv(s, now);
  }

  // ---- which requests succeed ----

  /** Activation takes the holder's own claim, unexpired, and only once. */
  lemma ActivatesIff(s: State, job: nat, id: nat, owner: Owner, now: nat)
    requires Inv(s)
    ensures AfterActivate(s, job, id, owner, now).ok
            <==> exists c :: c in s.claims && Own(c, job, id, owner) && c.state == Issued && now < c.expiresAt
    ensures !AfterActivate(s, job, id, owner, now).ok ==> AfterActivate(s, job, id, owner, now).state == s
  {
    StandingRemain(s, now);
    FindsOwn(Pruned(s, now), job, id, owner);
    FindsOwn(s, job, id, owner);
    hide Touched, Pruned, Inv, Own;
  }

  /** A claim is taken, or taken again, by its own holder once it was activated; a taken one does not expire. */
  lemma ClaimsIff(s: State, job: nat, id: nat, owner: Owner, now: nat)
    requires Inv(s)
    ensures AfterClaim(s, job, id, owner, now).ok
            <==> exists c :: c in s.claims && Own(c, job, id, owner) && (c.state == Claimed || (c.state == Active && now < c.expiresAt))
    ensures !AfterClaim(s, job, id, owner, now).ok ==> AfterClaim(s, job, id, owner, now).state == s
  {
    StandingRemain(s, now);
    FindsOwn(Pruned(s, now), job, id, owner);
    FindsOwn(s, job, id, owner);
    hide Touched, Pruned, Inv, Own;
  }

  /** Refreshing takes a claim that was taken, however long ago; asking for it also looks at the time. */
  lemma RefreshesIff(s: State, job: nat, id: nat, owner: Owner, now: nat)
    requires Inv(s)
    ensures AfterRefresh(s, job, id, owner, now).ok <==> exists c :: c in s.claims && Own(c, job, id, owner) && c.state == Claimed
    ensures !AfterRefresh(s, job, id, owner, now).ok ==> AfterRefresh(s, job, id, owner, now).state == s
    ensures Has(s, job, id, owner, now) <==> exists c :: c in s.claims && Own(c, job, id, owner) && c.state == Claimed && now < c.expiresAt
  {
    FindsOwn(s, job, id, owner);
    hide Touched, Inv, Own;
  }

  // ---- what a success changes ----

  /**
   * From `claims` to `claims'`: the claim `c` has this state, five more minutes and the latest number; the other claims
   * that stand are all there, but for their numbers, and no others.
   */
  ghost predicate Moves(claims: seq<Claim>, claims': seq<Claim>, c: Claim, state: ClaimState, now: nat) {
    && (exists y :: y in claims' && y == Claim(c.job, c.id, state, now + 300_000, y.sequence, c.owner)
                    && forall z :: z in claims' && z.id != c.id ==> z.sequence < y.sequence)
    && (forall x :: x in claims && x.id != c.id ==> HasTwin(claims', x))
    && (forall y :: y in claims' && y.id != c.id ==> HasTwin(claims, y))
    && (forall y, z :: y in claims' && z in claims' && y.id == z.id ==> y == z)
  }

  lemma TouchMoves(s: State, c: Claim, state: ClaimState, now: nat)
    requires Inv(s) && c in s.claims
    ensures Moves(s.claims, Touched(s, c, state, now).claims, c, state, now)
  {
    TouchKeepsInv(s, c, state, now);
    BumpedKeepsInv(s);
    var i := TouchesItsClaim(s, c, state, now);
    var s' := Touched(s, c, state, now);
    var y := MonitorClaimRuns.Fresh(s, c, state, now);
    assert y == Claim(c.job, c.id, state, now + 300_000, y.sequence, c.owner);
    forall x | x in s.claims && x.id != c.id ensures HasTwin(s'.claims, x) {
      OtherTwin(Bumped(s).claims, i, y, x);
    }
    forall z | z in s'.claims && z.id != c.id ensures HasTwin(s.claims, z) {
      assert z in Bumped(s).claims;
    }
    forall y, z | y in s'.claims && z in s'.claims && y.id == z.id ensures y == z {
      SameIdSame(s', y, z);
    }
  }

  lemma OtherTwin(claims: seq<Claim>, i: nat, c: Claim, x: Claim)
    requires i < |claims| && claims[i].id == c.id && HasTwin(claims, x) && x.id != c.id
    ensures HasTwin(claims[i := c], x)
  {
    var y :| y in claims && y == x.(sequence := y.sequence);
    var k :| 0 <= k < |claims| && claims[k] == y;
    assert claims[i := c][k] == y;
  }

  /** Activating, taking and refreshing move the holder's claim; only the first two drop what has expired. */
  lemma SuccessMoves(s: State, c: Claim, now: nat)
    requires Inv(s) && c in s.claims
    ensures AfterActivate(s, c.job, c.id, c.owner, now).ok
            ==> Moves(Pruned(s, now).claims, AfterActivate(s, c.job, c.id, c.owner, now).state.claims, c, Active, now)
    ensures AfterClaim(s, c.job, c.id, c.owner, now).ok
            ==> Moves(Pruned(s, now).claims, AfterClaim(s, c.job, c.id, c.owner, now).state.claims, c, Claimed, now)
    ensures AfterRefresh(s, c.job, c.id, c.owner, now).ok
            ==> Moves(s.claims, AfterRefresh(s, c.job, c.id, c.owner, now).state.claims, c, Claimed, now)
  {
    StandingRemain(s, now);
    var p := Pruned(s, now);
    FindsOwn(p, c.job, c.id, c.owner);
    FindsOwn(s, c.job, c.id, c.owner);
    var i, j := Find(p.claims, Exact(c.job, c.id, c.owner)), Find(s.claims, Exact(c.job, c.id, c.owner));
    hide Moves, Touched, Inv;
    if i < |p.claims| {
      assert p.claims[i] == c;
      TouchMoves(p, c, Active, now);
      TouchMoves(p, c, Claimed, now);
    }
    if j < |s.claims| {
      assert s.claims[j] == c;
      TouchMoves(s, c, Claimed, now);
    }
  }

  // ---- issuing ----

  /** The claims that an issue does not replace: standing, and of another job or another holder. */
  predicate Untouched(c: Claim, job: nat, owner: Owner, now: nat) {
    Standing(c, now) && !(c.job == job && Own(c, job, c.id, owner))
  }

  ghost function Remaining(s: State, job: nat, owner: Owner, now: nat): set<Claim> {
    set c | c in s.claims && Untouched(c, job, owner, now)
  }

  lemma ClearedFirst(s: State, job: nat, owner: Owner, now: nat)
    requires Inv(s)
    ensures var f := Filter(Pruned(s, now).claims, OfOthers(job, owner));
            && Inv(s.(claims := f)) && Members(f) == Remaining(s, job, owner, now) && |f| == |Remaining(s, job, owner, now)|
  {
    StandingRemain(s, now);
    var p := Pruned(s, now);
    var at := FilterPicks(p.claims, OfOthers(job, owner));
    var f := Filter(p.claims, OfOthers(job, owner));
    PickedKeepsInv(p, f, at);
    assert forall c: Claim :: OfOthers(job, owner)(c) <==> !(c.job == job && Own(c, job, c.id, owner));
    assert Members(f) == Remaining(s, job, owner, now);
    assert Distinct(f);
    DistinctSize(f);
  }

  /** Fewer than 128 others: all of them stay. With 128, the least recently used one goes, and no other. */
  lemma IssueSpares(s: State, job: nat, id: nat, owner: Owner, now: nat, c: Claim)
    requires Inv(s) && NewId(s, id) && c in s.claims && Untouched(c, job, owner, now)
    ensures var others := Remaining(s, job, owner, now);
            HasTwin(AfterIssue(s, job, id, owner, now).claims, c)
            <==> |others| < 128 || exists d :: d in others && d.sequence < c.sequence
  {
    ClearedFirst(s, job, owner, now);
    var f := Filter(Pruned(s, now).claims, OfOthers(job, owner));
    var others := Remaining(s, job, owner, now);
    assert c in Members(f);
    assert c in Cleared(s, job, owner, now).claims <==> |others| < 128 || exists d :: d in others && d.sequence < c.sequence by {
      EvictionSpares(s.(claims := f), c);
    }
    hide Filter, Inv;
    IssueKeepsTwins(s, job, id, owner, now, c);
  }

  /** Below the renumbering threshold the new claim is issued for five minutes, under the next number. */
  lemma IssueFiles(s: State, job: nat, id: nat, owner: Owner, now: nat)
    requires Inv(s) && NewId(s, id) && s.sequence < MAX_SAFE_INTEGER - 1
    ensures var s' := AfterIssue(s, job, id, owner, now);
            && Claim(job, id, Issued, now + 300_000, s.sequence + 1, owner) in s'.claims && s'.sequence == s.sequence + 1
            && forall c :: c in s'.claims && c.id != id ==> c.sequence <= s.sequence
  {
    IssueBelowThreshold(s, job, id, owner, now);
    var cleared := Cleared(s, job, owner, now);
    ClearedKeepsInv(s, job, owner, now);
    hide Cleared;
    forall c | c in AfterIssue(s, job, id, owner, now).claims && c.id != id ensures c.sequence <= s.sequence {
      assert c in cleared.claims;
    }
  }

  lemma EvictionSpares(s: State, c: Claim)
    requires Inv(s) && c in s.claims
    ensures c in Evicted(s.claims) <==> |s.claims| < 128 || exists d :: d in s.claims && d.sequence < c.sequence
  {
    EvictedOnce(s.claims);
    if |s.claims| == MAX_JOB_MONITOR_CLAIMS {
      var i := Oldest(s.claims);
      if c != s.claims[i] {
        WithoutKeeps(s.claims, i, c);
        SameSequence(s, c, s.claims[i]);
        assert s.claims[i] in s.claims;
      } else {
        var w := WithoutAt(s.claims, i);
        forall k | 0 <= k < |w| ensures w[k] != c {
        }
      }
    }
  }

  /** After an issue there are the bumped remaining claims and, unless they were renumbered, the new one. */
  lemma IssuedAmong(s: State, job: nat, id: nat, owner: Owner, now: nat)
    ensures var bumped, s' := Bumped(Cleared(s, job, owner, now)), AfterIssue(s, job, id, owner, now);
            && (forall y :: y in bumped.claims ==> y in s'.claims)
            && (forall y :: y in s'.claims && y.id != id ==> y in bumped.claims)
  {
    hide Cleared, Renumbered;
  }

  lemma TwinThrough(a: seq<Claim>, b: seq<Claim>, c: Claim)
    requires SameButNumbers(a, b)
    ensures HasTwin(a, c) <==> HasTwin(b, c)
  {
    if y :| y in a && y == c.(sequence := y.sequence) {
      assert HasTwin(b, y);
      var z :| z in b && z == y.(sequence := z.sequence);
      assert z == c.(sequence := z.sequence);
    }
    if y :| y in b && y == c.(sequence := y.sequence) {
      assert HasTwin(a, y);
      var z :| z in a && z == y.(sequence := z.sequence);
      assert z == c.(sequence := z.sequence);
    }
  }

  lemma IssueKeepsTwins(s: State, job: nat, id: nat, owner: Owner, now: nat, c: Claim)
    requires Inv(s) && NewId(s, id) && c in s.claims
    ensures HasTwin(AfterIssue(s, job, id, owner, now).claims, c) <==> c in Cleared(s, job, owner, now).claims
  {
    var cleared, s' := Cleared(s, job, owner, now), AfterIssue(s, job, id, owner, now);
    ClearedKeepsInv(s, job, owner, now);
    BumpedKeepsInv(cleared);
    IssuedAmong(s, job, id, owner, now);
    TwinThrough(cleared.claims, Bumped(cleared).claims, c);
    forall x | x in s.claims && x.id == c.id ensures x == c {
      SameIdSame(s, x, c);
    }
    assert c.id != id;
    hide Cleared, Bumped, AfterIssue, KeepsOrder, SameButNumbers, Inv;
    if c in cleared.claims {
      assert c == c.(sequence := c.sequence) && HasTwin(cleared.claims, c);
    }
    assert HasTwin(s'.claims, c) <==> HasTwin(Bumped(cleared).claims, c);
  }

  // ---- revoking ----

  /** The revoked authority is the holder's: its account version, and its client and family where they are named. */
  predicate Revokes(r: Scope, o: Owner) {
    && o.account == r.account && o.version == r.version
    && (r.client == None || r.client == Some(o.client))
    && (r.family == None || r.family == Some(o.family))
  }

  /** Revoking an authority removes exactly its claims; the counter starts over once there is no claim left. */
  lemma CancelAnswers(s: State, r: Scope)
    requires Inv(s)
    ensures var s' := AfterCancel(s, r);
            && (forall c :: c in s'.claims <==> c in s.claims && !Revokes(r, c.owner))
            && s'.sequence == (if s.claims != [] && s'.claims == [] then 0 else s.sequence)
  {
    var at := FilterPicks(s.claims, OutOfReach(r));
    var rest := Filter(s.claims, OutOfReach(r));
    if |rest| == |s.claims| {
      PicksAll(rest, s.claims, at);
    }
  }

  lemma PicksAll(a: seq<Claim>, b: seq<Claim>, at: seq<nat>)
    requires Picks(a, b, at) && |a| == |b|
    ensures a == b
  {
    forall i | 0 <= i < |a| ensures a[i] == b[i] {
      PickedIsShorter(a, b, at, i);
      PickedIsLow(a, b, at, i);
    }
  }

  lemma {:induction false} PickedIsLow(a: seq<Claim>, b: seq<Claim>, at: seq<nat>, i: nat)
    requires Picks(a, b, at) && i < |a|
    ensures at[i] + |a| - i <= |b|
    decreases |a| - i
  {
    if i + 1 < |a| {
      PickedIsLow(a, b, at, i + 1);
    }
  }
}
