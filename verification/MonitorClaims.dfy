/** Claims on managed-job monitors, the most recent 128: src/worker/mcp-job-monitor-store.ts. */
module MonitorClaims {
  import opened Records
  import opened StableSort
  import E = ExpiryPruning
  import opened Authorities
  import opened Lists

  const JOB_MONITOR_CLAIM_TTL_MS := 5 * 60 * 1000
  const MAX_JOB_MONITOR_CLAIMS := 128
  const MAX_SAFE_INTEGER := 0x1F_FFFF_FFFF_FFFF

  datatype ClaimState = Issued | Active | Claimed

  datatype Claim = Claim(job: nat, id: nat, state: ClaimState, expiresAt: int, sequence: int, owner: Owner)

  datatype State = State(sequence: int, claims: seq<Claim>)

  predicate ValidState(s: State) {
    && 0 <= s.sequence <= MAX_SAFE_INTEGER
    && |s.claims| <= MAX_JOB_MONITOR_CLAIMS
    && (forall i :: 0 <= i < |s.claims| ==> s.claims[i].expiresAt > 0 && 0 < s.claims[i].sequence <= s.sequence)
    && (forall i, j :: 0 <= i < j < |s.claims| ==> s.claims[i].id != s.claims[j].id && s.claims[i].sequence != s.claims[j].sequence)
  }

  // ---- the operations ----

  function Live(now: nat): Claim -> bool { (c: Claim) => c.state == Claimed || c.expiresAt > now }

  function OfOthers(job: nat, owner: Owner): Claim -> bool { (c: Claim) => c.job != job || c.owner != owner }

  function Exact(job: nat, id: nat, owner: Owner): Claim -> bool { (c: Claim) => c.job == job && c.id == id && c.owner == owner }

  function Named(id: nat): Claim -> bool { (c: Claim) => c.id == id }

  function Pruned(s: State, now: nat): State { s.(claims := Filter(s.claims, Live(now))) }

  function BySequence(): Claim -> Rank { (c: Claim) => (c.sequence, 0) }

  function Renumbered(claims: seq<Claim>): seq<Claim> {
    var sorted := Sort(claims, BySequence());
    seq(|sorted|, i requires 0 <= i < |sorted| => sorted[i].(sequence := i + 1))
  }

  /** bumpSequence: the counter that it returns is the new one. */
  function Bumped(s: State): State {
    if s.sequence >= MAX_SAFE_INTEGER - 1 then State(|Renumbered(s.claims)| + 1, Renumbered(s.claims))
    else s.(sequence := s.sequence + 1)
  }

  /** The index of the smallest sequence, the first one of them. */
  function Oldest(claims: seq<Claim>): (best: nat)
    requires claims != []
    ensures best < |claims| && forall j :: 0 <= j < |claims| ==> claims[best].sequence <= claims[j].sequence
  {
    if |claims| == 1 then 0
    else
      var best := Oldest(claims[..|claims| - 1]);
      if claims[|claims| - 1].sequence < claims[best].sequence then |claims| - 1 else best
  }

  function WithoutAt(claims: seq<Claim>, i: nat): seq<Claim>
    requires i < |claims|
  {
    claims[..i] + claims[i + 1..]
  }

  function Evicted(claims: seq<Claim>): seq<Claim>
    decreases |claims|
  {
    if |claims| >= MAX_JOB_MONITOR_CLAIMS then Evicted(WithoutAt(claims, Oldest(claims))) else claims
  }

  /** Room for one more claim of this job and owner. */
  function Cleared(s: State, job: nat, owner: Owner, now: nat): State {
    s.(claims := Evicted(Filter(Pruned(s, now).claims, OfOthers(job, owner))))
  }

  function NewClaim(job: nat, id: nat, owner: Owner, now: nat, sequence: int): Claim {
    Claim(job, id, Issued, now + JOB_MONITOR_CLAIM_TTL_MS, sequence, owner)
  }

  /** The array is taken before the counter moves: if that renumbers, the claim goes to the array that is replaced. */
  function AfterIssue(s: State, job: nat, id: nat, owner: Owner, now: nat): State {
    var cleared := Cleared(s, job, owner, now);
    var bumped := Bumped(cleared);
    if cleared.sequence >= MAX_SAFE_INTEGER - 1 then bumped
    else bumped.(claims := cleared.claims + [NewClaim(job, id, owner, now, bumped.sequence)])
  }

  datatype Outcome = Outcome(state: State, ok: bool)

  /** The claim gets a new state, expiry and sequence. */
  function Touched(s: State, c: Claim, state: ClaimState, now: nat): State {
    var bumped := Bumped(s);
    var i := Find(bumped.claims, Named(c.id));
    if i == |bumped.claims| then bumped
    else bumped.(claims := bumped.claims[i := c.(state := state, expiresAt := now + JOB_MONITOR_CLAIM_TTL_MS, sequence := bumped.sequence)])
  }

  function AfterActivate(s: State, job: nat, id: nat, owner: Owner, now: nat): Outcome {
    var p := Pruned(s, now);
    var i := Find(p.claims, Exact(job, id, owner));
    if i == |p.claims| || p.claims[i].state != Issued then Outcome(s, false) else Outcome(Touched(p, p.claims[i], Active, now), true)
  }

  function AfterClaim(s: State, job: nat, id: nat, owner: Owner, now: nat): Outcome {
    var p := Pruned(s, now);
    var i := Find(p.claims, Exact(job, id, owner));
    if i == |p.claims| || p.claims[i].state == Issued then Outcome(s, false) else Outcome(Touched(p, p.claims[i], Claimed, now), true)
  }

  predicate Has(s: State, job: nat, id: nat, owner: Owner, now: nat) {
    var i := Find(s.claims, Exact(job, id, owner));
    i < |s.claims| && s.claims[i].state == Claimed && s.claims[i].expiresAt > now
  }

  /** refresh does not prune first. */
  function AfterRefresh(s: State, job: nat, id: nat, owner: Owner, now: nat): Outcome {
    var i := Find(s.claims, Exact(job, id, owner));
    if i == |s.claims| || s.claims[i].state != Claimed then Outcome(s, false) else Outcome(Touched(s, s.claims[i], Claimed, now), true)
  }

  function OutOfReach(r: Scope): Claim -> bool { (c: Claim) => !Denies(r, c.owner) }

  /** When the last claim goes, so does the record, and with it the counter. */
  function AfterCancel(s: State, r: Scope): State {
    var rest := Filter(s.claims, OutOfReach(r));
    if |rest| == |s.claims| then s else if rest == [] then State(0, []) else s.(claims := rest)
  }

  // ---- what every operation keeps ----

  /** At most one claim per job and owner. */
  ghost predicate OnePerJob(claims: seq<Claim>) {
    forall i, j :: 0 <= i < j < |claims| ==> claims[i].job != claims[j].job || claims[i].owner != claims[j].owner
  }

  ghost predicate Inv(s: State) {
    ValidState(s) && OnePerJob(s.claims)
  }

  /** `a` keeps the claims of `b` at the places `at`, in their order. */
  ghost predicate Picks(a: seq<Claim>, b: seq<Claim>, at: seq<nat>) {
    && |at| == |a|
    && (forall i :: 0 <= i < |a| ==> at[i] < |b| && a[i] == b[at[i]])
    && (forall i, j :: 0 <= i < j < |a| ==> at[i] < at[j])
  }

  lemma {:induction false} FilterPicks(claims: seq<Claim>, keep: Claim -> bool) returns (at: seq<nat>)
    ensures Picks(Filter(claims, keep), claims, at)
    ensures forall c :: c in Filter(claims, keep) <==> c in claims && keep(c)
  {
    if claims == [] {
      at := [];
    } else {
      var rest := FilterPicks(claims[1..], keep);
      assert claims == [claims[0]] + claims[1..];
      at := PicksOneMore(Filter(claims[1..], keep), claims, rest, keep(claims[0]));
    }
  }

  lemma PicksOneMore(a: seq<Claim>, claims: seq<Claim>, at: seq<nat>, first: bool) returns (more: seq<nat>)
    requires claims != [] && Picks(a, claims[1..], at)
    ensures Picks((if first then [claims[0]] else []) + a, claims, more)
  {
    more := seq(|at|, i requires 0 <= i < |at| => at[i] + 1);
    assert [] + a == a;
    if first {
      PicksFirst(a, claims, more);
      more := [0] + more;
    }
  }

  lemma PicksFirst(a: seq<Claim>, claims: seq<Claim>, at: seq<nat>)
    requires claims != [] && Picks(a, claims, at) && forall i :: 0 <= i < |at| ==> at[i] > 0
    ensures Picks([claims[0]] + a, claims, [0] + at)
  {
    var b, more := [claims[0]] + a, [0] + at;
    forall i | 0 <= i < |b| ensures more[i] < |claims| && b[i] == claims[more[i]] {
      if i > 0 {
        assert b[i] == a[i - 1] && more[i] == at[i - 1];
      }
    }
    forall i, j | 0 <= i < j < |b| ensures more[i] < more[j] {
      assert more[j] == at[j - 1];
      assert i > 0 ==> more[i] == at[i - 1];
    }
  }

  lemma WithoutPicks(claims: seq<Claim>, i: nat) returns (at: seq<nat>)
    requires i < |claims|
    ensures Picks(WithoutAt(claims, i), claims, at)
  {
    at := seq(|claims| - 1, k requires 0 <= k < |claims| - 1 => if k < i then k else k + 1);
  }

  lemma PickedKeepsInv(s: State, kept: seq<Claim>, at: seq<nat>)
    requires Inv(s) && Picks(kept, s.claims, at)
    ensures Inv(s.(claims := kept))
  {
    if |kept| > 0 {
      PickedIsShorter(kept, s.claims, at, |kept| - 1);
    }
  }

  lemma {:induction false} PickedIsShorter(a: seq<Claim>, b: seq<Claim>, at: seq<nat>, i: nat)
    requires Picks(a, b, at) && i < |a|
    ensures at[i] >= i
  {
    if i > 0 {
      PickedIsShorter(a, b, at, i - 1);
    }
  }

  lemma EvictedOnce(claims: seq<Claim>)
    requires |claims| <= MAX_JOB_MONITOR_CLAIMS
    ensures Evicted(claims) == if |claims| == MAX_JOB_MONITOR_CLAIMS then WithoutAt(claims, Oldest(claims)) else claims
  {
  }

  lemma EvictedKeepsInv(s: State)
    requires Inv(s)
    ensures Inv(s.(claims := Evicted(s.claims))) && |Evicted(s.claims)| < MAX_JOB_MONITOR_CLAIMS
    ensures forall c :: c in Evicted(s.claims) ==> c in s.claims
  {
    EvictedOnce(s.claims);
    if |s.claims| == MAX_JOB_MONITOR_CLAIMS {
      var at := WithoutPicks(s.claims, Oldest(s.claims));
      PickedKeepsInv(s, WithoutAt(s.claims, Oldest(s.claims)), at);
    }
  }

  lemma WithoutKeeps(claims: seq<Claim>, i: nat, d: Claim)
    requires i < |claims| && d in claims && d != claims[i]
    ensures d in WithoutAt(claims, i)
  {
    var k :| 0 <= k < |claims| && claims[k] == d;
    assert WithoutAt(claims, i)[if k < i then k else k - 1] == d;
  }

  /** Eviction drops the claim that was used least recently. */
  lemma EvictsLeastRecent(s: State, kept: Claim, dropped: Claim)
    requires Inv(s) && kept in Evicted(s.claims) && dropped in s.claims && dropped !in Evicted(s.claims)
    ensures dropped.sequence < kept.sequence
  {
    EvictedOnce(s.claims);
    EvictedKeepsInv(s);
    var i := Oldest(s.claims);
    if dropped != s.claims[i] {
      WithoutKeeps(s.claims, i, dropped);
    }
    SameSequence(s, kept, dropped);
  }

  // ---- renumbering ----

  /** The same claim, perhaps under another number, is in `claims`. */
  ghost predicate HasTwin(claims: seq<Claim>, x: Claim) {
    exists y :: y in claims && y == x.(sequence := y.sequence)
  }

  ghost predicate SameButNumbers(a: seq<Claim>, b: seq<Claim>) {
    && |a| == |b|
    && (forall x :: x in a ==> HasTwin(b, x))
    && (forall y :: y in b ==> HasTwin(a, y))
  }

  ghost predicate Ordered(claims: seq<Claim>) {
    forall i, j :: 0 <= i < j < |claims| ==> claims[i].sequence < claims[j].sequence
  }

  lemma SortedClaims(s: State)
    requires ValidState(s)
    ensures var sorted := Sort(s.claims, BySequence());
            && |sorted| == |s.claims| && Members(sorted) == Members(s.claims) && Distinct(sorted)
            && Ordered(sorted)
  {
    var sorted := Sort(s.claims, BySequence());
    SortSorts(s.claims, BySequence());
    assert Distinct(s.claims);
    E.SamePermutation(s.claims, sorted);
    forall i, j | 0 <= i < j < |sorted| ensures sorted[i].sequence < sorted[j].sequence {
      assert !Less(BySequence()(sorted[j]), BySequence()(sorted[i]));
      assert sorted[i] in Members(s.claims) && sorted[j] in Members(s.claims);
      SameSequence(s, sorted[i], sorted[j]);
    }
  }

  lemma SameSequence(s: State, x: Claim, y: Claim)
    requires ValidState(s) && x in s.claims && y in s.claims && x != y
    ensures x.sequence != y.sequence && x.id != y.id
  {
  }

  /** Renumbering keeps everything about the claims but their numbers. */
  lemma RenumberedIsSame(s: State)
    requires ValidState(s)
    ensures SameButNumbers(s.claims, Renumbered(s.claims))
    ensures forall i :: 0 <= i < |s.claims| ==> Renumbered(s.claims)[i].sequence == i + 1
  {
    SortedClaims(s);
    var sorted, r := Sort(s.claims, BySequence()), Renumbered(s.claims);
    forall x | x in s.claims ensures HasTwin(r, x) {
      assert x in Members(sorted);
      var i :| 0 <= i < |sorted| && sorted[i] == x;
      assert r[i] in r;
    }
    forall y | y in r ensures HasTwin(s.claims, y) {
      var i :| 0 <= i < |r| && r[i] == y;
      assert sorted[i] in Members(s.claims);
    }
  }

  ghost predicate SamePairOrder(x: Claim, y: Claim, x': Claim, y': Claim) {
    x.id == x'.id && y.id == y'.id ==> (x.sequence < y.sequence <==> x'.sequence < y'.sequence)
  }

  /** Any two claims keep their order of use. */
  ghost predicate KeepsOrder(a: seq<Claim>, b: seq<Claim>) {
    forall x, y, x', y' :: x in a && y in a && x' in b && y' in b ==> SamePairOrder(x, y, x', y')
  }

  lemma RenumberedOrder(s: State)
    requires ValidState(s)
    ensures KeepsOrder(s.claims, Renumbered(s.claims))
  {
    var r := Renumbered(s.claims);
    forall x, y, x', y' | x in s.claims && y in s.claims && x' in r && y' in r ensures SamePairOrder(x, y, x', y') {
      RenumberedPair(s, x, y, x', y');
    }
  }

  lemma RenumberedPair(s: State, x: Claim, y: Claim, x': Claim, y': Claim)
    requires ValidState(s) && x in s.claims && y in s.claims && x' in Renumbered(s.claims) && y' in Renumbered(s.claims)
    ensures SamePairOrder(x, y, x', y')
  {
    if x.id == x'.id && y.id == y'.id {
      SortedClaims(s);
      var i := RenumberedFrom(s, x, x');
      var j := RenumberedFrom(s, y, y');
    }
  }

  lemma RenumberedFrom(s: State, x: Claim, x': Claim) returns (i: nat)
    requires ValidState(s) && x in s.claims && x' in Renumbered(s.claims) && x.id == x'.id
    ensures i < |s.claims| == |Sort(s.claims, BySequence())| && Sort(s.claims, BySequence())[i] == x && x'.sequence == i + 1
  {
    SortedClaims(s);
    i :| i < |Renumbered(s.claims)| && Renumbered(s.claims)[i] == x';
    assert Sort(s.claims, BySequence())[i] in Members(s.claims);
    SameIdSame(s, x, Sort(s.claims, BySequence())[i]);
  }

  lemma SameIdSame(s: State, x: Claim, y: Claim)
    requires ValidState(s) && x in s.claims && y in s.claims && x.id == y.id
    ensures x == y
  {
    if x != y {
      SameSequence(s, x, y);
    }
  }

  lemma RenumberedKeepsInv(s: State)
    requires Inv(s)
    ensures Inv(State(|Renumbered(s.claims)|, Renumbered(s.claims)))
  {
    RenumberedIsSame(s);
    SortedClaims(s);
    var sorted, r := Sort(s.claims, BySequence()), Renumbered(s.claims);
    forall i, j | 0 <= i < j < |r| ensures r[i].id != r[j].id && (r[i].job != r[j].job || r[i].owner != r[j].owner) {
      assert sorted[i] in Members(s.claims) && sorted[j] in Members(s.claims);
      SameSequence(s, sorted[i], sorted[j]);
      SameJobSame(s, sorted[i], sorted[j]);
    }
    forall i | 0 <= i < |r| ensures r[i].expiresAt > 0 && 0 < r[i].sequence <= |r| {
      assert sorted[i] in Members(s.claims);
    }
  }

  lemma SameJobSame(s: State, x: Claim, y: Claim)
    requires Inv(s) && x in s.claims && y in s.claims && x != y
    ensures x.job != y.job || x.owner != y.owner
  {
  }

  /** After a bump the counter is above every sequence in use, and nothing but sequences has changed. */
  lemma BumpedKeepsInv(s: State)
    requires Inv(s)
    ensures Inv(Bumped(s)) && KeepsOrder(s.claims, Bumped(s).claims) && SameButNumbers(s.claims, Bumped(s).claims)
    ensures forall i :: 0 <= i < |Bumped(s).claims| ==> Bumped(s).claims[i].sequence < Bumped(s).sequence
  {
    if s.sequence >= MAX_SAFE_INTEGER - 1 {
      RenumberedKeepsInv(s);
      RenumberedIsSame(s);
      RenumberedOrder(s);
    } else {
      SameClaims(s);
    }
  }

  lemma SameClaims(s: State)
    requires ValidState(s)
    ensures KeepsOrder(s.claims, s.claims) && SameButNumbers(s.claims, s.claims)
  {
    forall x, y, x', y' | x in s.claims && y in s.claims && x' in s.claims && y' in s.claims ensures SamePairOrder(x, y, x', y') {
      if x.id == x'.id && y.id == y'.id {
        SameIdSame(s, x, x');
        SameIdSame(s, y, y');
      }
    }
    forall y | y in s.claims ensures HasTwin(s.claims, y) {
      assert y == y.(sequence := y.sequence);
    }
  }
}
