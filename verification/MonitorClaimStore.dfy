/** The monitor-claim store as it runs, with its claims in an array that several references may share. */
module MonitorClaimStore {
  import opened Records
  import opened StableSort
  import opened MonitorClaims
  import opened Authorities
  import opened Lists

  class ClaimArray {
    var items: seq<Claim>

    constructor (items: seq<Claim>)
      ensures this.items == items
    {
      this.items := items;
    }

    method Push(c: Claim)
      modifies this
      ensures items == old(items) + [c]
    {
      items := items + [c];
    }
  }

  /** The state object of one transaction. */
  class WorkingState {
    var sequence: int
    var claims: ClaimArray

    ghost function Value(): State
      reads this, claims
    {
      State(sequence, claims.items)
    }

    constructor (s: State)
      ensures Value() == s && fresh(claims)
    {
      sequence := s.sequence;
      claims := new ClaimArray(s.claims);
    }

    /** `state.claims = state.claims.filter(keep)` */
    method KeepOnly(keep: Claim -> bool)
      modifies this`claims
      ensures Value() == old(Value()).(claims := Filter(old(claims.items), keep)) && fresh(claims)
    {
      claims := new ClaimArray(Filter(claims.items, keep));
    }

    method EvictOldest()
      requires claims.items != []
      modifies claims
      ensures claims.items == WithoutAt(old(claims.items), Oldest(old(claims.items)))
    {
      var all := claims.items;
      var best := 0;
      for index := 1 to |all|
        invariant best == Oldest(all[..index])
      {
        assert all[..index + 1][..index] == all[..index];
        if all[index].sequence < all[best].sequence {
          best := index;
        }
      }
      assert all[..|all|] == all;
      claims.items := all[..best] + all[best + 1..];
    }

    /** The array is sorted in place, and then replaced by a new one with new numbers. */
    method BumpSequence() returns (next: int)
      modifies this, claims
      ensures Value() == Bumped(old(Value())) && next == sequence
      ensures if old(sequence) >= MAX_SAFE_INTEGER - 1 then fresh(claims) else claims == old(claims) && claims.items == old(claims.items)
    {
      hide Sort;
      if sequence >= MAX_SAFE_INTEGER - 1 {
        claims.items := Sort(claims.items, BySequence());
        var sorted := claims.items;
        SortSorts(old(claims.items), BySequence());
        var renumbered: seq<Claim> := [];
        for index := 0 to |sorted|
          invariant |renumbered| == index
          invariant forall i :: 0 <= i < index ==> renumbered[i] == sorted[i].(sequence := i + 1)
          invariant claims == old(claims) && claims.items == sorted && sequence == old(sequence)
        {
          renumbered := renumbered + [sorted[index].(sequence := index + 1)];
        }
        assert renumbered == Renumbered(old(claims.items));
        claims := new ClaimArray(renumbered);
        sequence := |renumbered|;
      }
      sequence := sequence + 1;
      return sequence;
    }

    method ReplaceClaim(id: nat, next: Claim)
      modifies claims
      ensures var i := Find(old(claims.items), Named(id));
              claims.items == if i == |old(claims.items)| then old(claims.items) else old(claims.items)[i := next]
    {
      var i := Find(claims.items, Named(id));
      if i < |claims.items| {
        claims.items := claims.items[i := next];
      }
    }

    method Touch(c: Claim, state: ClaimState, now: nat)
      modifies this, claims
      ensures Value() == Touched(old(Value()), c, state, now)
    {
      var next := BumpSequence();
      ReplaceClaim(c.id, c.(state := state, expiresAt := now + JOB_MONITOR_CLAIM_TTL_MS, sequence := next));
    }
  }

  datatype Reply = Answered(ok: bool) | Threw

  class ManagedJobMonitorClaimStore {
    var stored: State

    constructor ()
      ensures stored == State(0, [])
    {
      stored := State(0, []);
    }

    /** `id` is the first random id that no stored claim has. */
    method Issue(job: nat, id: nat, owner: Owner, now: nat) returns (reply: Reply)
      modifies this
      ensures if ValidState(old(stored)) then reply == Answered(true) && stored == AfterIssue(old(stored), job, id, owner, now)
              else reply == Threw && stored == old(stored)
    {
      if !ValidState(stored) {
        return Threw;
      }
      var state := new WorkingState(stored);
      state.KeepOnly(Live(now));
      state.KeepOnly(OfOthers(job, owner));
      while |state.claims.items| >= MAX_JOB_MONITOR_CLAIMS
        invariant fresh(state) && fresh(state.claims) && state.sequence == stored.sequence && stored == old(stored)
        invariant Evicted(state.claims.items) == Cleared(stored, job, owner, now).claims
        decreases |state.claims.items|
      {
        state.EvictOldest();
      }
      assert Evicted(state.claims.items) == state.claims.items;
      ghost var cleared := state.Value();
      assert cleared == Cleared(stored, job, owner, now);
      var target := state.claims;
      var sequence := state.BumpSequence();
      assert State(state.sequence, state.claims.items) == Bumped(cleared);
      target.Push(NewClaim(job, id, owner, now, sequence));
      stored := State(state.sequence, state.claims.items);
      return Answered(true);
    }

    method Activate(job: nat, id: nat, owner: Owner, now: nat) returns (reply: Reply)
      modifies this
      ensures if ValidState(old(stored)) then Outcome(stored, reply.Answered? && reply.ok) == AfterActivate(old(stored), job, id, owner, now)
              else reply == Threw && stored == old(stored)
    {
      if !ValidState(stored) {
        return Threw;
      }
      var state := new WorkingState(stored);
      state.KeepOnly(Live(now));
      var i := Find(state.claims.items, Exact(job, id, owner));
      if i == |state.claims.items| || state.claims.items[i].state != Issued {
        return Answered(false);
      }
      state.Touch(state.claims.items[i], Active, now);
      stored := State(state.sequence, state.claims.items);
      return Answered(true);
    }

    method TakeClaim(job: nat, id: nat, owner: Owner, now: nat) returns (reply: Reply)
      modifies this
      ensures if ValidState(old(stored)) then Outcome(stored, reply.Answered? && reply.ok) == AfterClaim(old(stored), job, id, owner, now)
              else reply == Threw && stored == old(stored)
    {
      if !ValidState(stored) {
        return Threw;
      }
      var state := new WorkingState(stored);
      state.KeepOnly(Live(now));
      var i := Find(state.claims.items, Exact(job, id, owner));
      if i == |state.claims.items| || state.claims.items[i].state == Issued {
        return Answered(false);
      }
      state.Touch(state.claims.items[i], Claimed, now);
      stored := State(state.sequence, state.claims.items);
      return Answered(true);
    }

    method Refresh(job: nat, id: nat, owner: Owner, now: nat) returns (reply: Reply)
      modifies this
      ensures if ValidState(old(stored)) then Outcome(stored, reply.Answered? && reply.ok) == AfterRefresh(old(stored), job, id, owner, now)
              else reply == Threw && stored == old(stored)
    {
      if !ValidState(stored) {
        return Threw;
      }
      var state := new WorkingState(stored);
      var i := Find(state.claims.items, Exact(job, id, owner));
      if i == |state.claims.items| || state.claims.items[i].state != Claimed {
        return Answered(false);
      }
      state.Touch(state.claims.items[i], Claimed, now);
      stored := State(state.sequence, state.claims.items);
      return Answered(true);
    }

    method CancelAuthority(r: Scope) returns (removed: Option<int>)
      modifies this
      ensures if ValidState(old(stored)) then
                && stored == AfterCancel(old(stored), r)
                && removed == Some(|old(stored).claims| - |Filter(old(stored).claims, OutOfReach(r))|)
              else removed == None && stored == old(stored)
    {
      if !ValidState(stored) {
        return None;
      }
      var before := |stored.claims|;
      var state := new WorkingState(stored);
      state.KeepOnly(OutOfReach(r));
      var gone := before - |state.claims.items|;
      if gone == 0 {
        return Some(0);
      }
      stored := if state.claims.items == [] then State(0, []) else State(state.sequence, state.claims.items);
      return Some(gone);
    }
  }
}
