/** The queue of authority revocations that a daemon has not acknowledged yet: src/worker/authority-revocations.ts. */
module AuthorityRevocations {
  import opened Records
  import opened Authorities
  import opened Lists

  const MAX_AUTHORITY_REVOCATIONS := 1024

  datatype Revocation = Revocation(id: nat, scope: Scope, queuedAt: nat)

  /** What the normalizer requires: a family names its client too. */
  predicate WellFormed(s: Scope) {
    s.family.Some? ==> s.client.Some?
  }

  ghost predicate Denied(records: seq<Revocation>, o: Owner) {
    exists i :: 0 <= i < |records| && Denies(records[i].scope, o)
  }

  predicate SameAccountVersion(a: Scope, b: Scope) {
    a.account == b.account && a.version == b.version
  }

  predicate Covers(left: Scope, right: Scope) {
    if !SameAccountVersion(left, right) then false
    else if left.client.None? then true
    else if left.client != right.client then false
    else left.family.None? || left.family == right.family
  }

  // ---- covering is inclusion ----

  lemma CoversIsPreorder(a: Scope, b: Scope, c: Scope)
    ensures Covers(a, a)
    ensures Covers(a, b) && Covers(b, c) ==> Covers(a, c)
  {
  }

  /** Someone whom `right` denies and `left`, not covering it, does not. */
  function Uncovered(left: Scope, right: Scope): Owner {
    Owner(right.account, right.version,
          if right.client.Some? then right.client.value else if left.client.Some? then left.client.value + 1 else 0,
          if right.family.Some? then right.family.value else if left.family.Some? then left.family.value + 1 else 0, 0)
  }

  /** One revocation covers another exactly if it denies everyone whom the other denies. */
  lemma CoversIsInclusion(left: Scope, right: Scope)
    requires WellFormed(left) && WellFormed(right)
    ensures Covers(left, right) <==> forall o :: Denies(right, o) ==> Denies(left, o)
  {
    if !Covers(left, right) {
      var o := Uncovered(left, right);
      assert Denies(right, o) && !Denies(left, o);
    }
  }

  // ---- merging ----

  predicate SomeCovers(records: seq<Revocation>, s: Scope) {
    exists i :: 0 <= i < |records| && Covers(records[i].scope, s)
  }

  function NotCoveredBy(s: Scope): Revocation -> bool { (r: Revocation) => !Covers(s, r.scope) }

  function NotOf(s: Scope): Revocation -> bool { (r: Revocation) => !SameAccountVersion(r.scope, s) }

  function NotNamed(id: nat): Revocation -> bool { (r: Revocation) => r.id != id }

  function Collapsed(candidate: Revocation): Revocation {
    candidate.(scope := Scope(candidate.scope.account, candidate.scope.version, None, None))
  }

  /** Whether the candidate is widened to its whole account version for want of room. */
  predicate Collapses(records: seq<Revocation>, candidate: Revocation) {
    !SomeCovers(records, candidate.scope) && |Filter(records, NotCoveredBy(candidate.scope))| >= MAX_AUTHORITY_REVOCATIONS
  }

  /** mergeRevocation; None where it throws. */
  function Merged(records: seq<Revocation>, candidate: Revocation): Option<seq<Revocation>> {
    if SomeCovers(records, candidate.scope) then Some(records)
    else
      var rest := Filter(records, NotCoveredBy(candidate.scope));
      var next :=
        if |rest| >= MAX_AUTHORITY_REVOCATIONS then
          var others, collapsed := Filter(rest, NotOf(candidate.scope)), Collapsed(candidate);
          if SomeCovers(others, collapsed.scope) then others else others + [collapsed]
        else rest + [candidate];
      if |next| > MAX_AUTHORITY_REVOCATIONS then None else Some(next)
  }

  /** A bounded antichain of well-formed records under distinct ids. */
  ghost predicate QueueOk(records: seq<Revocation>) {
    && |records| <= MAX_AUTHORITY_REVOCATIONS
    && (forall i :: 0 <= i < |records| ==> WellFormed(records[i].scope))
    && (forall i, j :: 0 <= i < |records| && 0 <= j < |records| && i != j ==> !Covers(records[i].scope, records[j].scope))
    && (forall i, j :: 0 <= i < j < |records| ==> records[i].id != records[j].id)
  }

  lemma {:induction false} FilterMembers(records: seq<Revocation>, keep: Revocation -> bool)
    ensures forall r :: r in Filter(records, keep) <==> r in records && keep(r)
    ensures |Filter(records, keep)| <= |records|
    ensures (exists r :: r in records && !keep(r)) ==> |Filter(records, keep)| < |records|
    ensures (forall r :: r in records ==> keep(r)) ==> Filter(records, keep) == records
  {
    if records != [] {
      FilterMembers(records[1..], keep);
      assert records == [records[0]] + records[1..];
    }
  }

  /** A filtered queue keeps what holds of pairs of records in order. */
  lemma {:induction false} FilterKeepsPairs(records: seq<Revocation>, keep: Revocation -> bool)
    requires QueueOk(records)
    ensures QueueOk(Filter(records, keep))
  {
    if records != [] {
      var tail := records[1..];
      forall i, j | 0 <= i < |tail| && 0 <= j < |tail| && i != j ensures !Covers(tail[i].scope, tail[j].scope) {
        assert tail[i] == records[i + 1] && tail[j] == records[j + 1];
      }
      assert QueueOk(tail);
      FilterKeepsPairs(tail, keep);
      FilterMembers(tail, keep);
      var rest := Filter(tail, keep);
      if keep(records[0]) {
        forall j | 0 <= j < |rest|
          ensures !Covers(records[0].scope, rest[j].scope) && !Covers(rest[j].scope, records[0].scope) && rest[j].id != records[0].id
        {
          assert rest[j] in tail;
          var k :| 0 <= k < |tail| && tail[k] == rest[j];
          assert records[k + 1] == rest[j];
        }
        PushedIsOk(records[0], rest);
      } else {
        assert Filter(records, keep) == rest;
      }
    }
  }

  lemma PushedIsOk(first: Revocation, rest: seq<Revocation>)
    requires QueueOk(rest) && WellFormed(first.scope) && |rest| < MAX_AUTHORITY_REVOCATIONS
    requires forall j :: 0 <= j < |rest| ==>
               !Covers(first.scope, rest[j].scope) && !Covers(rest[j].scope, first.scope) && rest[j].id != first.id
    ensures QueueOk([first] + rest)
  {
  }

  lemma AppendedIsOk(front: seq<Revocation>, last: Revocation)
    requires QueueOk(front) && WellFormed(last.scope) && |front| < MAX_AUTHORITY_REVOCATIONS
    requires forall j :: 0 <= j < |front| ==>
               !Covers(last.scope, front[j].scope) && !Covers(front[j].scope, last.scope) && front[j].id != last.id
    ensures QueueOk(front + [last])
  {
  }

  predicate NewId(records: seq<Revocation>, id: nat) {
    forall i :: 0 <= i < |records| ==> records[i].id != id
  }

  /** A merge that does not throw keeps the queue a bounded antichain under distinct ids. */
  lemma MergeKeepsQueueOk(records: seq<Revocation>, candidate: Revocation)
    requires QueueOk(records) && WellFormed(candidate.scope) && NewId(records, candidate.id) && Merged(records, candidate).Some?
    ensures QueueOk(Merged(records, candidate).value)
  {
    if !SomeCovers(records, candidate.scope) {
      var rest := Filter(records, NotCoveredBy(candidate.scope));
      FilterKeepsPairs(records, NotCoveredBy(candidate.scope));
      FilterMembers(records, NotCoveredBy(candidate.scope));
      if |rest| >= MAX_AUTHORITY_REVOCATIONS {
        var others := Filter(rest, NotOf(candidate.scope));
        FilterKeepsPairs(rest, NotOf(candidate.scope));
        FilterMembers(rest, NotOf(candidate.scope));
        forall j | 0 <= j < |others|
          ensures !SameAccountVersion(others[j].scope, candidate.scope) && others[j].id != candidate.id
        {
          assert others[j] in rest && others[j] in records;
        }
        AppendedIsOk(others, Collapsed(candidate));
      } else {
        forall j | 0 <= j < |rest|
          ensures !Covers(candidate.scope, rest[j].scope) && !Covers(rest[j].scope, candidate.scope) && rest[j].id != candidate.id
        {
          assert rest[j] in records;
        }
        AppendedIsOk(rest, candidate);
      }
    }
  }

  // ---- what merging denies ----

  lemma DeniedByMember(records: seq<Revocation>, r: Revocation, o: Owner)
    requires r in records && Denies(r.scope, o)
    ensures Denied(records, o)
  {
    var i :| 0 <= i < |records| && records[i] == r;
  }

  lemma DeniedAppend(records: seq<Revocation>, r: Revocation, o: Owner)
    ensures Denied(records + [r], o) <==> Denied(records, o) || Denies(r.scope, o)
  {
    if Denied(records, o) {
      var i :| 0 <= i < |records| && Denies(records[i].scope, o);
      assert (records + [r])[i] == records[i];
    }
    assert (records + [r])[|records|] == r;
  }

  /** Dropping records that deny nobody but those whom `s` denies. */
  lemma DeniedFilter(records: seq<Revocation>, keep: Revocation -> bool, s: Scope, o: Owner)
    requires forall r :: r in records && !keep(r) && Denies(r.scope, o) ==> Denies(s, o)
    ensures Denied(Filter(records, keep), o) || Denies(s, o) <==> Denied(records, o) || Denies(s, o)
  {
    FilterMembers(records, keep);
    if Denied(records, o) && !Denies(s, o) {
      var i :| 0 <= i < |records| && Denies(records[i].scope, o);
      DeniedByMember(Filter(records, keep), records[i], o);
    }
    if Denied(Filter(records, keep), o) {
      var i :| 0 <= i < |Filter(records, keep)| && Denies(Filter(records, keep)[i].scope, o);
      DeniedByMember(records, Filter(records, keep)[i], o);
    }
  }

  /**
   * A merge denies whoever was denied before and whom the candidate denies: exactly those, unless it collapses, and
   * then besides them only owners of the candidate's own account version.
   */
  lemma MergeIsSound(records: seq<Revocation>, candidate: Revocation, o: Owner)
    requires QueueOk(records) && WellFormed(candidate.scope) && Merged(records, candidate).Some?
    ensures var next := Merged(records, candidate).value;
            if Collapses(records, candidate)
            then Denied(next, o) <==> Denied(records, o) || (o.account == candidate.scope.account && o.version == candidate.scope.version)
            else Denied(next, o) <==> Denied(records, o) || Denies(candidate.scope, o)
  {
    var s := candidate.scope;
    if SomeCovers(records, s) {
      var i :| 0 <= i < |records| && Covers(records[i].scope, s);
      if Denies(s, o) {
        DeniedByMember(records, records[i], o);
      }
    } else {
      var rest := Filter(records, NotCoveredBy(s));
      DeniedFilter(records, NotCoveredBy(s), s, o);
      if |rest| >= MAX_AUTHORITY_REVOCATIONS {
        CollapseDenies(records, candidate, o);
      } else {
        DeniedAppend(rest, candidate, o);
      }
    }
  }

  lemma NobodyCovers(others: seq<Revocation>, s: Scope)
    requires forall r :: r in others ==> !SameAccountVersion(r.scope, s)
    ensures !SomeCovers(others, s)
  {
  }

  lemma CollapseDenies(records: seq<Revocation>, candidate: Revocation, o: Owner)
    requires Collapses(records, candidate)
    ensures var others := Filter(Filter(records, NotCoveredBy(candidate.scope)), NotOf(candidate.scope));
            && !SomeCovers(others, Collapsed(candidate).scope)
            && (Denied(others + [Collapsed(candidate)], o)
                <==> Denied(records, o) || (o.account == candidate.scope.account && o.version == candidate.scope.version))
  {
    var s, wide := candidate.scope, Collapsed(candidate).scope;
    var rest := Filter(records, NotCoveredBy(s));
    var others := Filter(rest, NotOf(s));
    FilterMembers(rest, NotOf(s));
    NobodyCovers(others, wide);
    DeniedFilter(records, NotCoveredBy(s), wide, o);
    DeniedFilter(rest, NotOf(s), wide, o);
    DeniedAppend(others, Collapsed(candidate), o);
  }

  /**
   * A merge throws exactly when the queue is full of records that the candidate neither is covered by nor covers, none
   * of its account version.
   */
  lemma MergeThrowsIff(records: seq<Revocation>, candidate: Revocation)
    requires QueueOk(records)
    ensures Merged(records, candidate).None?
            <==> |records| == MAX_AUTHORITY_REVOCATIONS && forall r :: r in records ==> !SameAccountVersion(r.scope, candidate.scope)
  {
    var s := candidate.scope;
    var rest := Filter(records, NotCoveredBy(s));
    var others := Filter(rest, NotOf(s));
    FilterMembers(records, NotCoveredBy(s));
    FilterMembers(rest, NotOf(s));
    NobodyCovers(others, Collapsed(candidate).scope);
    if forall r :: r in records ==> !SameAccountVersion(r.scope, s) {
      assert forall r :: r in records ==> NotCoveredBy(s)(r) && NotOf(s)(r);
      NobodyCovers(records, s);
    } else if Collapses(records, candidate) {
      var r :| r in records && SameAccountVersion(r.scope, s);
      assert r in rest ==> !NotOf(s)(r);
      assert r !in rest ==> !NotCoveredBy(s)(r);
    }
  }

  /**
   * With fewer than 1024 records a merge never throws and never widens: afterwards exactly those are denied who were
   * denied before, and the owners of the revoked account version, client and family.
   */
  lemma MergeIsExactWithRoom(records: seq<Revocation>, candidate: Revocation)
    requires QueueOk(records) && WellFormed(candidate.scope) && |records| < 1024
    ensures Merged(records, candidate).Some?
    ensures var s := candidate.scope;
            forall o :: Denied(Merged(records, candidate).value, o) <==>
              || Denied(records, o)
              || (o.account == s.account && o.version == s.version
                  && (s.client == None || s.client == Some(o.client)) && (s.family == None || s.family == Some(o.family)))
  {
    MergeThrowsIff(records, candidate);
    FilterMembers(records, NotCoveredBy(candidate.scope));
    hide Merged, QueueOk, Denied, WellFormed;
    forall o ensures Denied(Merged(records, candidate).value, o) <==> Denied(records, o) || Denies(candidate.scope, o) {
      MergeIsSound(records, candidate, o);
    }
  }

  // ---- acknowledging ----

  function Acknowledged(records: seq<Revocation>, id: nat): seq<Revocation> {
    Filter(records, NotNamed(id))
  }

  /** An acknowledgement drops one record, and what it no longer denies was denied by that record alone. */
  lemma AcknowledgeRemovesOnlyItsRecord(records: seq<Revocation>, id: nat)
    requires QueueOk(records)
    ensures QueueOk(Acknowledged(records, id))
    ensures forall r :: r in Acknowledged(records, id) <==> r in records && r.id != id
    ensures forall o :: Denied(records, o) && !Denied(Acknowledged(records, id), o) ==>
              exists i :: 0 <= i < |records| && records[i].id == id && Denies(records[i].scope, o)
  {
    FilterKeepsPairs(records, NotNamed(id));
    FilterMembers(records, NotNamed(id));
    forall o | Denied(records, o) && !Denied(Acknowledged(records, id), o)
      ensures exists i :: 0 <= i < |records| && records[i].id == id && Denies(records[i].scope, o)
    {
      var i :| 0 <= i < |records| && Denies(records[i].scope, o);
      if records[i].id != id {
        DeniedByMember(Acknowledged(records, id), records[i], o);
      }
    }
  }

  // ---- runs ----

  /** writeAuthorityRevocations: all candidates, or none where one merge throws. */
  function MergedAll(records: seq<Revocation>, candidates: seq<Revocation>): Option<seq<Revocation>> {
    if candidates == [] then Some(records)
    else
      var before := MergedAll(records, candidates[..|candidates| - 1]);
      if before.None? then None else Merged(before.value, candidates[|candidates| - 1])
  }

  datatype Action = Write(candidates: seq<Revocation>) | Acknowledge(id: nat)

  function Step(records: seq<Revocation>, a: Action): seq<Revocation> {
    match a
    case Write(candidates) => var next := MergedAll(records, candidates); if next.Some? then next.value else records
    case Acknowledge(id) => Acknowledged(records, id)
  }

  function Run(actions: seq<Action>): seq<Revocation> {
    if actions == [] then [] else Step(Run(actions[..|actions| - 1]), actions[|actions| - 1])
  }

  function IdsOf(records: seq<Revocation>): set<nat> {
    set i | 0 <= i < |records| :: records[i].id
  }

  /** Each write draws its ids at random: well-formed candidates, with ids that are new and differ. */
  ghost predicate Drawn(records: seq<Revocation>, candidates: seq<Revocation>) {
    && (forall i :: 0 <= i < |candidates| ==> WellFormed(candidates[i].scope) && candidates[i].id !in IdsOf(records))
    && (forall i, j :: 0 <= i < j < |candidates| ==> candidates[i].id != candidates[j].id)
  }

  ghost predicate Possible(actions: seq<Action>) {
    actions == [] ||
    (Possible(actions[..|actions| - 1])
     && (actions[|actions| - 1].Write? ==> Drawn(Run(actions[..|actions| - 1]), actions[|actions| - 1].candidates)))
  }

  lemma MergedIds(records: seq<Revocation>, candidate: Revocation)
    requires Merged(records, candidate).Some?
    ensures IdsOf(Merged(records, candidate).value) <= IdsOf(records) + {candidate.id}
  {
    var s := candidate.scope;
    var rest := Filter(records, NotCoveredBy(s));
    FilterMembers(records, NotCoveredBy(s));
    FilterMembers(rest, NotOf(s));
    var next := Merged(records, candidate).value;
    forall i | 0 <= i < |next| ensures next[i].id in IdsOf(records) + {candidate.id} {
      if next[i].id != candidate.id {
        assert next[i] in records;
      }
    }
  }

  lemma {:induction false} MergedAllKeepsQueueOk(records: seq<Revocation>, candidates: seq<Revocation>)
    requires QueueOk(records) && Drawn(records, candidates) && MergedAll(records, candidates).Some?
    ensures var next := MergedAll(records, candidates).value;
            QueueOk(next) && IdsOf(next) <= IdsOf(records) + IdsOf(candidates)
  {
    if candidates != [] {
      var front, last := candidates[..|candidates| - 1], candidates[|candidates| - 1];
      MergedAllKeepsQueueOk(records, front);
      var before := MergedAll(records, front).value;
      forall i | 0 <= i < |before| ensures before[i].id != last.id {
        assert before[i].id in IdsOf(before);
      }
      MergeKeepsQueueOk(before, last);
      MergedIds(before, last);
      assert IdsOf(candidates) == IdsOf(front) + {last.id} by {
        assert candidates[|candidates| - 1].id in IdsOf(candidates);
        forall i | 0 <= i < |front| ensures front[i].id in IdsOf(candidates) {
          assert candidates[i] == front[i];
        }
      }
    }
  }

  /** In every run the queue is a bounded antichain of well-formed records under distinct ids. */
  lemma {:induction false} RunKeepsQueueOk(actions: seq<Action>)
    requires Possible(actions)
    ensures QueueOk(Run(actions))
  {
    if actions != [] {
      var front, a := actions[..|actions| - 1], actions[|actions| - 1];
      RunKeepsQueueOk(front);
      match a
      case Write(candidates) =>
        if MergedAll(Run(front), candidates).Some? {
          MergedAllKeepsQueueOk(Run(front), candidates);
        }
      case Acknowledge(id) => AcknowledgeRemovesOnlyItsRecord(Run(front), id);
    }
  }

  lemma {:induction false} MergedAllDenies(records: seq<Revocation>, candidates: seq<Revocation>, o: Owner)
    requires QueueOk(records) && Drawn(records, candidates) && MergedAll(records, candidates).Some?
    ensures Denied(records, o) || Denied(candidates, o) ==> Denied(MergedAll(records, candidates).value, o)
    ensures Denied(MergedAll(records, candidates).value, o) ==>
              || Denied(records, o)
              || exists i :: 0 <= i < |candidates| && o.account == candidates[i].scope.account && o.version == candidates[i].scope.version
  {
    if candidates != [] {
      var front, last := candidates[..|candidates| - 1], candidates[|candidates| - 1];
      assert candidates == front + [last];
      MergedAllDenies(records, front, o);
      MergedAllKeepsQueueOk(records, front);
      DeniedAppend(front, last, o);
      MergeIsSound(MergedAll(records, front).value, last, o);
      assert candidates[|candidates| - 1] == last;
      assert forall i :: 0 <= i < |front| ==> candidates[i] == front[i];
    }
  }

  /** A write denies all its candidates and whoever was denied before, or, where one merge throws, changes nothing. */
  lemma WriteIsAtomic(actions: seq<Action>, candidates: seq<Revocation>)
    requires Possible(actions) && Drawn(Run(actions), candidates)
    ensures var records, next := Run(actions), Run(actions + [Write(candidates)]);
            if MergedAll(records, candidates).None? then next == records
            else forall o :: Denied(records, o) || Denied(candidates, o) ==> Denied(next, o)
    ensures |Run(actions)| + |candidates| <= 1024 ==> MergedAll(Run(actions), candidates).Some?
  {
    var records := Run(actions);
    assert (actions + [Write(candidates)])[..|actions|] == actions;
    RunKeepsQueueOk(actions);
    if MergedAll(records, candidates).Some? {
      forall o | Denied(records, o) || Denied(candidates, o) ensures Denied(MergedAll(records, candidates).value, o) {
        MergedAllDenies(records, candidates, o);
      }
    }
    if |records| + |candidates| <= 1024 {
      RoomForAll(records, candidates);
    }
  }

  lemma {:induction false} RoomForAll(records: seq<Revocation>, candidates: seq<Revocation>)
    requires QueueOk(records) && Drawn(records, candidates) && |records| + |candidates| <= 1024
    ensures MergedAll(records, candidates).Some? && |MergedAll(records, candidates).value| <= |records| + |candidates|
  {
    if candidates != [] {
      var front, last := candidates[..|candidates| - 1], candidates[|candidates| - 1];
      RoomForAll(records, front);
      MergedAllKeepsQueueOk(records, front);
      var before := MergedAll(records, front).value;
      MergeThrowsIff(before, last);
      FilterMembers(before, NotCoveredBy(last.scope));
      FilterMembers(Filter(before, NotCoveredBy(last.scope)), NotOf(last.scope));
    }
  }

  /**
   * A revocation is never forgotten: an owner denied at some point of a run and not at its end was denied by a record
   * that an action in between acknowledged.
   */
  lemma {:induction false} NothingIsForgotten(actions: seq<Action>, n: nat, o: Owner) returns (k: nat)
    requires Possible(actions) && n <= |actions| && Denied(Run(actions[..n]), o) && !Denied(Run(actions), o)
    ensures n <= k < |actions| && actions[k].Acknowledge?
    ensures var records := Run(actions[..k]);
            exists i :: 0 <= i < |records| && records[i].id == actions[k].id && Denies(records[i].scope, o)
  {
    assert actions[..|actions|] == actions;
    var front, a := actions[..|actions| - 1], actions[|actions| - 1];
    assert front[..n] == actions[..n];
    if Denied(Run(front), o) {
      k := |actions| - 1;
      assert actions[..k] == front;
      assert !Denied(Step(Run(front), a), o);
      RunKeepsQueueOk(front);
      match a
      case Write(candidates) =>
        if MergedAll(Run(front), candidates).Some? {
          MergedAllDenies(Run(front), candidates, o);
        }
      case Acknowledge(id) => AcknowledgeRemovesOnlyItsRecord(Run(front), id);
    } else {
      k := NothingIsForgotten(front, n, o);
      assert front[..k] == actions[..k];
    }
  }

  // ---- the transaction ----

  class RevocationQueue {
    var records: seq<Revocation>

    constructor ()
      ensures records == []
    {
      records := [];
    }

    /** False where the source throws; the caller then abandons the queue it read. */
    method MergeRevocation(candidate: Revocation) returns (ok: bool)
      modifies this
      ensures ok == Merged(old(records), candidate).Some?
      ensures ok ==> records == Merged(old(records), candidate).value
    {
      if SomeCovers(records, candidate.scope) {
        return true;
      }
      records := Filter(records, NotCoveredBy(candidate.scope));
      if |records| >= MAX_AUTHORITY_REVOCATIONS {
        var collapsed := Collapsed(candidate);
        records := Filter(records, NotOf(candidate.scope));
        if !SomeCovers(records, collapsed.scope) {
          records := records + [collapsed];
        }
      } else {
        records := records + [candidate];
      }
      return |records| <= MAX_AUTHORITY_REVOCATIONS;
    }

    method WriteAuthorityRevocations(candidates: seq<Revocation>) returns (ok: bool)
      modifies this
      ensures records == Step(old(records), Write(candidates))
      ensures ok == MergedAll(old(records), candidates).Some?
    {
      var before := records;
      assert candidates[..0] == [];
      for i := 0 to |candidates|
        invariant MergedAll(before, candidates[..i]) == Some(records)
      {
        assert candidates[..i + 1][..i] == candidates[..i];
        var merged := MergeRevocation(candidates[i]);
        if !merged {
          NoneStays(before, candidates, i + 1);
          records := before;
          return false;
        }
      }
      assert candidates[..|candidates|] == candidates;
      return true;
    }

    method AcknowledgeAuthorityRevocation(id: nat) returns (removed: bool)
      modifies this
      ensures records == Step(old(records), Acknowledge(id))
      ensures removed <==> exists i :: 0 <= i < |old(records)| && old(records)[i].id == id
    {
      var next := Filter(records, NotNamed(id));
      FilterMembers(records, NotNamed(id));
      if |next| == |records| {
        forall i | 0 <= i < |records| ensures records[i].id != id {
          assert records[i] in records;
          assert NotNamed(id)(records[i]);
        }
        return false;
      }
      records := next;
      return true;
    }
  }

  lemma {:induction false} NoneStays(records: seq<Revocation>, candidates: seq<Revocation>, i: nat)
    requires i <= |candidates| && MergedAll(records, candidates[..i]).None?
    ensures MergedAll(records, candidates).None?
  {
    if i == |candidates| {
      assert candidates[..i] == candidates;
    } else {
      assert candidates[..|candidates| - 1][..i] == candidates[..i];
      NoneStays(records, candidates[..|candidates| - 1], i);
    }
  }
}
