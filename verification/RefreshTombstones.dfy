/** How long a revoked family is remembered: the tombstones of src/worker/oauth-refresh-families.ts. */
module RefreshTombstones {
  import opened Records
  import opened StableSort
  import opened ExpiryPruning
  import opened OAuthStores
  import opened RefreshFamilies
  import opened RefreshExchange
  import opened RefreshRuns
  import opened RefreshBounds
  import opened RefreshGuarantees

  // ---- which tombstones are dropped ----

  /** Pruning keeps the tombstones that expire last, and no more are dropped than exceed 1024. */
  lemma TombstonesDropEarliest(revoked: Record<Id, int>)
    requires revoked.Valid()
    ensures var kept := Without(revoked, Members(ExcessTombstones(revoked)));
            && kept.Valid() && Part(kept, revoked)
            && |kept.at| == (if |revoked.at| > MAX_REVOKED_REFRESH_FAMILIES then MAX_REVOKED_REFRESH_FAMILIES else |revoked.at|)
            && forall f, g :: f in kept.at && g in revoked.at && g !in kept.at ==> revoked.at[g] <= revoked.at[f]
  {
    var victims, sorted := ExcessTombstones(revoked), Sort(revoked.order, TombstoneAge(revoked));
    TombstoneVictims(revoked);
    hide Sort, ExcessTombstones, TombstoneAge, Sorted, Distinct;
    var kept := Without(revoked, Members(victims));
    KeepValid(revoked, revoked.at.Keys - Members(victims));
    KeptSize(revoked, kept, victims);
    forall f, g | f in kept.at && g in revoked.at && g !in kept.at ensures revoked.at[g] <= revoked.at[f] {
      assert f in Members(sorted) && g in victims && f !in victims;
      FrontExpiresFirst(revoked, sorted, victims, g, f);
    }
  }

  lemma KeptSize(revoked: Record<Id, int>, kept: Record<Id, int>, victims: seq<Id>)
    requires kept == Without(revoked, Members(victims)) && Distinct(victims) && Members(victims) <= revoked.at.Keys
    ensures |kept.at| == |revoked.at| - |victims|
  {
    DistinctSize(victims);
    assert kept.at.Keys == revoked.at.Keys - Members(victims);
    assert |revoked.at| == |revoked.at.Keys| && |kept.at| == |kept.at.Keys|;
  }

  lemma FrontExpiresFirst(revoked: Record<Id, int>, sorted: seq<Id>, front: seq<Id>, g: Id, f: Id)
    requires Sorted(sorted, TombstoneAge(revoked)) && front <= sorted
    requires g in front && f in sorted && f !in front && g in revoked.at && f in revoked.at
    ensures revoked.at[g] <= revoked.at[f]
  {
    var age := TombstoneAge(revoked);
    var i, j :| 0 <= i < |front| && front[i] == g && 0 <= j < |sorted| && sorted[j] == f;
    assert i < j && !Less(age(sorted[j]), age(sorted[i]));
  }

  // ---- what they say ----

  /** A tombstone stands until its family would have expired anyway. */
  ghost predicate TombstonesOk(s: Stores, h: History) {
    forall f :: f in s.refresh.revoked.at ==> f in h.families && s.refresh.revoked.at[f] == h.families[f].expiresAt
  }

  lemma RevokedTombstones(s: Stores, h: History, family: Id, expiresAt: int)
    requires TombstonesOk(s, h) && family in h.families && expiresAt == h.families[family].expiresAt
    ensures TombstonesOk(Revoked(s, family, expiresAt), h)
  {
  }

  lemma {:induction false} EvictedTombstones(s: Stores, h: History, victims: seq<Secret>)
    requires Inv(s, h) && TombstonesOk(s, h)
    ensures TombstonesOk(EvictMarkers(s, victims).stores, h)
    decreases |victims|
  {
    if victims != [] && victims[0] in s.refresh.consumed.at {
      var marker := s.refresh.consumed.at[victims[0]];
      assert MarkerOk(victims[0], marker, h);
      RevokedTombstones(s, h, marker.family, marker.expiresAt);
      var next, h1 := EvictOne(s, victims[0]), h.(revoked := h.revoked + {marker.family});
      EvictOneKeepsInv(s, h, victims[0]);
      assert next.refresh.revoked == Revoked(s, marker.family, marker.expiresAt).refresh.revoked;
      hide Inv, EvictOne;
      EvictedTombstones(next, h1, victims[1..]);
    }
  }

  lemma PrunedTombstones(s: Stores, h: History, hash: Secret -> int)
    requires Inv(s, h) && TombstonesOk(s, h)
    ensures TombstonesOk(PrunedReplayState(s, hash).stores, h)
  {
    EvictedTombstones(s, h, ExcessMarkers(s.refresh.consumed, hash));
  }

  lemma LoadedTombstones(s: Stores, h: History, now: int, hash: Secret -> int)
    requires Inv(s, h) && TombstonesOk(s, h)
    ensures TombstonesOk(Loaded(s, now, hash).stores, h)
  {
    ExpiredKeepsInv(s, h, now);
    hide Inv, PrunedReplayState;
    PrunedTombstones(Expired(s, now), h, hash);
  }

  lemma RotateTombstones(s: Stores, h: History, req: Request, server: Server, now: int)
    requires Inv(s, h) && TombstonesOk(s, h) && req.secret in s.refresh.tokens.at
    ensures TombstonesOk(Rotate(s, s.refresh.tokens.at[req.secret], req, server, now).stores, h)
  {
    hide Rotate, Moved, NewMarker, PrunedReplayState;
    var e := Rotate(s, s.refresh.tokens.at[req.secret], req, server, now);
    if e.rotation.Some? {
      var bound, scope := RotationEffect(s, req, server, now);
      var version, key := e.rotation.value, req.secret;
      var marked := WithMarker(Moved(s, bound, key, version, scope, now), key, NewMarker(bound, bound.familyExpiresAt, now, scope));
      RotationKeepsInv(s, h, key, bound, version, scope, now);
      assert marked.refresh.revoked == s.refresh.revoked by { MovedTokens(s, bound, key, version, scope, now); }
      hide Inv;
      PrunedTombstones(marked, SpentHistory(h, key, version), server.hash);
    } else {
      NoRotationEffect(s, req, server, now);
    }
  }

  lemma ReplayTombstones(s: Stores, h: History, req: Request, server: Server, now: int)
    requires Inv(s, h) && TombstonesOk(s, h) && req.secret in s.refresh.consumed.at
    ensures TombstonesOk(Replay(s, s.refresh.consumed.at[req.secret], req, server, now).stores, h)
  {
    var marker := s.refresh.consumed.at[req.secret];
    ReplayEffect(s, marker, req, server, now);
    assert MarkerOk(req.secret, marker, h);
    hide Replay, PrunedReplayState;
    RevokedTombstones(s, h, marker.family, marker.expiresAt);
    RevokedKeepsInv(s, h, marker.family, marker.expiresAt);
    hide Inv;
    PrunedTombstones(Revoked(s, marker.family, marker.expiresAt), h.(revoked := h.revoked + {marker.family}), server.hash);
  }

  lemma StepTombstones(sys: System, a: Action)
    requires Inv(sys.stores, sys.history) && Enabled(sys, a) && TombstonesOk(sys.stores, sys.history)
    ensures TombstonesOk(Step(sys, a).stores, Step(sys, a).history)
  {
    hide Rotate, Replay, Loaded, Issued, LiveOk, Linear, AccessOk, MarkersOk, Remembered, HistoryOk;
    var s, h := sys.stores, sys.history;
    match a
    case Administer(_, _, _, _) =>
    case Load(now, hash) => LoadedTombstones(s, h, now, hash);
    case Redeem(grant, scope, pair, version, now) =>
      IssuedIsBounded(s, CodeSource(grant, scope, now), pair, version, scope, now);
    case Refresh(request, server, now, loadedAt, saved) =>
      LoadKeepsInv(s, h, loadedAt, server.hash);
      LoadedTombstones(s, h, loadedAt, server.hash);
      var loaded := AfterLoad(sys, loadedAt, server.hash);
      if request.secret in loaded.stores.refresh.tokens.at {
        RotateTombstones(loaded.stores, loaded.history, request, server, now);
      } else if request.secret in loaded.stores.refresh.consumed.at {
        ReplayTombstones(loaded.stores, loaded.history, request, server, now);
      }
  }

  lemma {:induction false} RunTombstones(sys: System, actions: seq<Action>)
    requires Inv(sys.stores, sys.history) && Possible(sys, actions) && TombstonesOk(sys.stores, sys.history)
    ensures TombstonesOk(Run(sys, actions).stores, Run(sys, actions).history)
    decreases |actions|
  {
    hide Inv, TombstonesOk;
    if actions != [] {
      StepKeepsInv(sys, actions[0]);
      StepTombstones(sys, actions[0]);
      RunTombstones(Step(sys, actions[0]), actions[1..]);
    }
  }

  /** In every run each tombstone is that of a revoked family and stands exactly as long as the family would have lived. */
  lemma TombstonesOutliveTokens(actions: seq<Action>)
    requires Possible(GENESIS, actions)
    ensures var sys := Run(GENESIS, actions);
            forall f :: f in sys.stores.refresh.revoked.at ==>
              f in sys.history.revoked && f in sys.history.families
              && sys.stores.refresh.revoked.at[f] == sys.history.families[f].expiresAt
  {
    RunTombstones(GENESIS, actions);
    Reachable(actions);
  }
}
