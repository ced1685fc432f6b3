/** The authorities that revoking a family queues for the daemon: of exactly the families that were revoked with a token. */
module RefreshAuthorities {
  import opened Records
  import opened ExpiryPruning
  import opened OAuthStores
  import opened RefreshFamilies
  import opened RefreshExchange
  import opened RefreshRuns
  import opened RefreshBounds
  import opened RefreshGuarantees

  // ---- only owners are queued ----

  ghost predicate NamesOwner(a: Authority, h: History) {
    && a.family in h.families
    && a == Authority(h.families[a.family].account, h.families[a.family].accountVersion, h.families[a.family].client, a.family)
  }

  lemma FamilyAuthorityIsOwner(s: Stores, h: History, key: Secret)
    requires Inv(s, h) && key in s.refresh.consumed.at
    ensures var m := s.refresh.consumed.at[key];
            var authority := FamilyAuthority(MarkerSource(m), s, m.family);
            authority.Some? ==> NamesOwner(authority.value, h)
  {
    assert MarkerOk(key, s.refresh.consumed.at[key], h);
  }

  lemma {:induction false} EvictedAuthoritiesAreOwners(s: Stores, h: History, victims: seq<Secret>)
    requires Inv(s, h)
    ensures forall a :: a in EvictMarkers(s, victims).revocations ==> NamesOwner(a, h)
    decreases |victims|
  {
    if victims != [] && victims[0] in s.refresh.consumed.at {
      var family := s.refresh.consumed.at[victims[0]].family;
      FamilyAuthorityIsOwner(s, h, victims[0]);
      EvictKeepsInv(s, h, [victims[0]]);
      assert EvictMarkers(EvictOne(s, victims[0]), [victims[0]][1..]) == Pruning(EvictOne(s, victims[0]), [], {});
      assert EvictMarkers(s, [victims[0]]).killed == {family};
      EvictedAuthoritiesAreOwners(EvictOne(s, victims[0]), h.(revoked := h.revoked + {family}), victims[1..]);
    }
  }

  /** Every authority that a load or an exchange queues for revocation is that of the family it revoked, and of no other. */
  lemma QueuedAuthoritiesAreOwners(actions: seq<Action>, a: Action)
    requires Possible(GENESIS, actions) && a.Refresh?
    ensures var sys := Run(GENESIS, actions);
            && (forall q :: q in Loaded(sys.stores, a.loadedAt, a.server.hash).revocations ==> NamesOwner(q, sys.history))
            && (forall q :: q in ExchangeOf(sys, a).revocations ==> NamesOwner(q, sys.history))
  {
    var sys := Run(GENESIS, actions);
    var loaded, key := AfterLoad(sys, a.loadedAt, a.server.hash), a.request.secret;
    Reachable(actions);
    ReachableLoad(actions, a.loadedAt, a.server.hash);
    ExpiredKeepsInv(sys.stores, sys.history, a.loadedAt);
    EvictedAuthoritiesAreOwners(Expired(sys.stores, a.loadedAt), sys.history,
                                ExcessMarkers(Expired(sys.stores, a.loadedAt).refresh.consumed, a.server.hash));
    ExchangeAuthorities(loaded.stores, loaded.history, a.request, a.server, a.now);
    assert forall q :: NamesOwner(q, loaded.history) <==> NamesOwner(q, sys.history);
  }

  lemma ExchangeAuthorities(s: Stores, h: History, req: Request, server: Server, now: int)
    requires Inv(s, h)
    ensures forall q :: q in Exchanged(s, req, server, now).revocations ==> NamesOwner(q, h)
  {
    var e := Exchanged(s, req, server, now);
    if req.secret in s.refresh.tokens.at {
      if e.rotation.Some? {
        var bound, scope := RotationEffect(s, req, server, now);
        var marked := WithMarker(Moved(s, bound, req.secret, e.rotation.value, scope, now), req.secret,
                                 NewMarker(bound, bound.familyExpiresAt, now, scope));
        RotationKeepsInv(s, h, req.secret, bound, e.rotation.value, scope, now);
        EvictedAuthoritiesAreOwners(marked, SpentHistory(h, req.secret, e.rotation.value), ExcessMarkers(marked.refresh.consumed, server.hash));
        assert e.revocations == EvictMarkers(marked, ExcessMarkers(marked.refresh.consumed, server.hash)).revocations;
      }
    } else if req.secret in s.refresh.consumed.at {
      ReplayEffect(s, s.refresh.consumed.at[req.secret], req, server, now);
      FamilyAuthorityIsOwner(s, h, req.secret);
    }
  }

  // ---- every revoked family with a token is queued ----

  ghost predicate Names(queue: seq<Authority>, family: Id) {
    exists i :: 0 <= i < |queue| && queue[i].family == family
  }

  lemma FamilyAuthorityNames(source: Option<RefreshToken>, s: Stores, family: Id)
    requires ValidStores(s) && !NoTokenOf(s, family)
    ensures FamilyAuthority(source, s, family).Some? && FamilyAuthority(source, s, family).value.family == family
  {
    if FamilyAuthority(source, s, family).None? {
      NoAuthorityNoToken(source, s, family);
    }
  }

  lemma OthersKeepTokens(s: Stores, victim: Secret, family: Id)
    requires victim in s.refresh.consumed.at && s.refresh.consumed.at[victim].family != family && !NoTokenOf(s, family)
    ensures !NoTokenOf(EvictOne(s, victim), family)
  {
    var s' := EvictOne(s, victim);
    if k :| k in s.refresh.tokens.at && s.refresh.tokens.at[k].grant.family == family {
      assert k in s'.refresh.tokens.at && s'.refresh.tokens.at[k].grant.family == family;
    } else {
      var k :| k in s.oauth.tokens.at && s.oauth.tokens.at[k].grant.family == family;
      assert k in s'.oauth.tokens.at && s'.oauth.tokens.at[k].grant.family == family;
    }
  }

  lemma NamesFirst(a: Authority)
    ensures Names([a], a.family)
  {
    assert [a][0] == a;
  }

  lemma NamesAppend(a: seq<Authority>, b: seq<Authority>, family: Id)
    requires Names(a, family) || Names(b, family)
    ensures Names(a + b, family)
  {
    if Names(a, family) {
      var i :| 0 <= i < |a| && a[i].family == family;
      assert (a + b)[i].family == family;
    } else {
      var i :| 0 <= i < |b| && b[i].family == family;
      assert (a + b)[|a| + i].family == family;
    }
  }

  lemma {:induction false} EvictedAreQueued(s: Stores, victims: seq<Secret>, family: Id)
    requires ValidStores(s) && family in EvictMarkers(s, victims).killed && !NoTokenOf(s, family)
    ensures Names(EvictMarkers(s, victims).revocations, family)
    decreases |victims|
  {
    var marker, next, rest := s.refresh.consumed.at[victims[0]], EvictOne(s, victims[0]), victims[1..];
    var authority := FamilyAuthority(MarkerSource(marker), s, marker.family);
    var first := if authority.Some? then [authority.value] else [];
    hide NoTokenOf, FamilyAuthority, EvictOne, Names;
    if marker.family == family {
      FamilyAuthorityNames(MarkerSource(marker), s, family);
      NamesFirst(authority.value);
    } else {
      OthersKeepTokens(s, victims[0], family);
      EvictOneEffect(s, victims[0]);
      EvictedAreQueued(next, rest, family);
    }
    NamesAppend(first, EvictMarkers(next, rest).revocations, family);
  }

  /** A rotation with its marker filed, as it enters the final prune; any other exchange prunes what it was given. */
  function BeforePrune(s: Stores, req: Request, server: Server, now: int): Stores {
    if req.secret !in s.refresh.tokens.at || server.tokenVersion.None? then s
    else
      match Validate(s.refresh.tokens.at[req.secret], req, server, s.oauth, true)
      case Granted(bound, scope) =>
        WithMarker(Moved(s, bound, req.secret, server.tokenVersion.value, scope, now), req.secret,
                   NewMarker(bound, bound.familyExpiresAt, now, scope))
      case _ => s
  }

  lemma ExchangedAreQueued(s: Stores, h: History, req: Request, server: Server, now: int, family: Id)
    requires Inv(s, h) && Capped(s)
    requires family in Exchanged(s, req, server, now).killed && !NoTokenOf(BeforePrune(s, req, server, now), family)
    ensures Names(Exchanged(s, req, server, now).revocations, family)
  {
    hide NoTokenOf, Capped, Names;
    if req.secret in s.refresh.tokens.at {
      RotatedAreQueued(s, h, req, server, now, family);
    } else if req.secret in s.refresh.consumed.at {
      ReplayedAreQueued(s, req, server, now, family);
    }
  }

  lemma RotatedAreQueued(s: Stores, h: History, req: Request, server: Server, now: int, family: Id)
    requires Inv(s, h) && req.secret in s.refresh.tokens.at
    requires var e := Rotate(s, s.refresh.tokens.at[req.secret], req, server, now);
             family in e.killed && !NoTokenOf(BeforePrune(s, req, server, now), family)
    ensures Names(Rotate(s, s.refresh.tokens.at[req.secret], req, server, now).revocations, family)
  {
    hide NoTokenOf, Names, Rotate;
    PrunesTheMarked(s, h, req, server, now);
    hide Inv, BeforePrune;
    var marked := BeforePrune(s, req, server, now);
    EvictedAreQueued(marked, ExcessMarkers(marked.refresh.consumed, server.hash), family);
  }

  lemma PrunesTheMarked(s: Stores, h: History, req: Request, server: Server, now: int)
    requires Inv(s, h) && req.secret in s.refresh.tokens.at
    ensures var marked, e := BeforePrune(s, req, server, now), Rotate(s, s.refresh.tokens.at[req.secret], req, server, now);
            && ValidStores(marked)
            && (e.rotation.None? ==> e.killed == {})
            && (e.rotation.Some? ==>
                  var p := EvictMarkers(marked, ExcessMarkers(marked.refresh.consumed, server.hash));
                  e.killed == p.killed && e.revocations == p.revocations)
  {
    hide Moved, NewMarker, EvictMarkers, ExcessMarkers;
    match Validate(s.refresh.tokens.at[req.secret], req, server, s.oauth, true)
    case Granted(bound, scope) =>
      RotationKeepsInv(s, h, req.secret, bound, server.tokenVersion.value, scope, now);
    case _ =>
  }

  lemma ReplayedAreQueued(s: Stores, req: Request, server: Server, now: int, family: Id)
    requires ValidStores(s) && Capped(s) && req.secret in s.refresh.consumed.at
    requires var e := Replay(s, s.refresh.consumed.at[req.secret], req, server, now);
             family in e.killed && !NoTokenOf(s, family)
    ensures Names(Replay(s, s.refresh.consumed.at[req.secret], req, server, now).revocations, family)
  {
    hide NoTokenOf, TokensCapped;
    var marker := s.refresh.consumed.at[req.secret];
    var e := Replay(s, marker, req, server, now);
    ReplayEffect(s, marker, req, server, now);
    RevokedValid(s, marker.family, marker.expiresAt);
    PruningWithinCap(Revoked(s, marker.family, marker.expiresAt), server.hash);
    FamilyAuthorityNames(MarkerSource(marker), s, family);
    assert e.revocations[0].family == family;
  }

  /**
   * No revoked family goes unreported: whenever a load or an exchange revokes a family that still has a token of either
   * kind, its authority is queued.
   */
  lemma RevokedFamiliesAreQueued(actions: seq<Action>, a: Action, family: Id)
    requires Possible(GENESIS, actions) && a.Refresh?
    ensures var sys := Run(GENESIS, actions);
            var p := Loaded(sys.stores, a.loadedAt, a.server.hash);
            family in p.killed && !NoTokenOf(Expired(sys.stores, a.loadedAt), family) ==> Names(p.revocations, family)
    ensures var sys := Run(GENESIS, actions);
            var s, e := AfterLoad(sys, a.loadedAt, a.server.hash).stores, ExchangeOf(sys, a);
            family in e.killed && !NoTokenOf(BeforePrune(s, a.request, a.server, a.now), family) ==> Names(e.revocations, family)
  {
    hide NoTokenOf, Names, Exchanged, Expired, BeforePrune;
    var sys := Run(GENESIS, actions);
    var loaded := AfterLoad(sys, a.loadedAt, a.server.hash);
    Reachable(actions);
    RunsAreCapped(actions);
    ReachableLoad(actions, a.loadedAt, a.server.hash);
    LoadCaps(sys.stores, a.loadedAt, a.server.hash);
    ExpiredValid(sys.stores, a.loadedAt);
    var quiet := Expired(sys.stores, a.loadedAt);
    if family in Loaded(sys.stores, a.loadedAt, a.server.hash).killed && !NoTokenOf(quiet, family) {
      EvictedAreQueued(quiet, ExcessMarkers(quiet.refresh.consumed, a.server.hash), family);
    }
    if family in ExchangeOf(sys, a).killed && !NoTokenOf(BeforePrune(loaded.stores, a.request, a.server, a.now), family) {
      ExchangedAreQueued(loaded.stores, loaded.history, a.request, a.server, a.now, family);
    }
  }
}
