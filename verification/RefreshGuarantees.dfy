/** What holds in every run of the refresh-token service, from an empty store on. */
module RefreshGuarantees {
  import opened Records
  import opened StableSort
  import opened ExpiryPruning
  import opened OAuthStores
  import opened RefreshFamilies
  import opened RefreshExchange
  import opened RefreshRuns
  import opened RefreshBounds

  function Run(sys: System, actions: seq<Action>): System
    decreases |actions|
  {
    if actions == [] then sys else Run(Step(sys, actions[0]), actions[1..])
  }

  /** Every random value the actions draw is new when it is drawn. */
  ghost predicate Possible(sys: System, actions: seq<Action>)
    decreases |actions|
  {
    actions == [] || (Enabled(sys, actions[0]) && Possible(Step(sys, actions[0]), actions[1..]))
  }

  lemma {:induction false} RunKeepsInv(sys: System, actions: seq<Action>)
    requires Inv(sys.stores, sys.history) && Possible(sys, actions)
    ensures Inv(Run(sys, actions).stores, Run(sys, actions).history)
    decreases |actions|
  {
    if actions != [] {
      StepKeepsInv(sys, actions[0]);
      RunKeepsInv(Step(sys, actions[0]), actions[1..]);
    }
  }

  lemma Reachable(actions: seq<Action>)
    requires Possible(GENESIS, actions)
    ensures Inv(Run(GENESIS, actions).stores, Run(GENESIS, actions).history)
  {
    RunKeepsInv(GENESIS, actions);
  }

  // ---- linear rotation ----

  /**
   * At every step boundary a family has at most one live refresh token, no live secret is also marked consumed, and
   * every live token carries the expiry its family was given when the code was redeemed.
   */
  lemma RotationIsLinear(actions: seq<Action>)
    requires Possible(GENESIS, actions)
    ensures var sys := Run(GENESIS, actions);
            var live := sys.stores.refresh.tokens.at;
            && (forall j, k :: j in live && k in live && live[j].grant.family == live[k].grant.family ==> j == k)
            && live.Keys !! sys.stores.refresh.consumed.at.Keys
            && (forall k :: k in live ==> live[k].grant.family in sys.history.families
                                          && live[k].familyExpiresAt == sys.history.families[live[k].grant.family].expiresAt)
  {
    Reachable(actions);
    var sys := Run(GENESIS, actions);
    forall k | k in sys.stores.refresh.consumed.at ensures k !in sys.stores.refresh.tokens.at {
      assert MarkerOk(k, sys.stores.refresh.consumed.at[k], sys.history);
    }
  }

  ghost predicate Extends(h: History, h': History) {
    && (forall f :: f in h.families ==> f in h'.families && h'.families[f] == h.families[f])
    && (forall k :: k in h.issued ==> k in h'.issued && h'.issued[k] == h.issued[k])
    && (forall k :: k in h.spent ==> k in h'.spent && h'.spent[k].version == h.spent[k].version
                                     && h'.spent[k].retries >= h.spent[k].retries)
    && h.revoked <= h'.revoked
  }

  /** No step forgets what was issued, spent or revoked, or moves a family's expiry. */
  lemma StepExtends(sys: System, a: Action)
    requires Inv(sys.stores, sys.history) && Enabled(sys, a)
    ensures Extends(sys.history, Step(sys, a).history)
  {
    hide Exchanged, Loaded, Issued, Recorded, LiveOk, Linear, AccessOk, MarkersOk, Remembered, HistoryOk;
    if a.Refresh? {
      var loaded := AfterLoad(sys, a.loadedAt, a.server.hash);
      LoadKeepsInv(sys.stores, sys.history, a.loadedAt, a.server.hash);
      RecordedExtends(loaded.stores, loaded.history, a.request, a.server, a.now);
    }
  }

  lemma SpentExtends(s: Stores, h: History, key: Secret, version: Id, killed: set<Id>)
    requires Inv(s, h) && key in s.refresh.tokens.at
    ensures var h' := SpentHistory(h, key, version);
            Extends(h, h'.(revoked := h'.revoked + killed))
  {
    SpentHistoryOk(h, key, version);
  }

  lemma RetriedExtends(h: History, key: Secret, killed: set<Id>)
    ensures var h' := RetriedHistory(h, key);
            Extends(h, h'.(revoked := h'.revoked + killed))
    ensures Extends(h, h.(revoked := h.revoked + killed))
  {
  }

  lemma RecordedExtends(s: Stores, h: History, req: Request, server: Server, now: int)
    requires Inv(s, h)
    ensures Extends(h, Recorded(h, Exchanged(s, req, server, now), req.secret))
  {
    hide Rotate, Replay, Extends, SpentHistory, RetriedHistory, Inv;
    var e := Exchanged(s, req, server, now);
    RetriedExtends(h, req.secret, e.killed);
    if req.secret in s.refresh.tokens.at {
      SpentExtends(s, h, req.secret, if e.rotation.Some? then e.rotation.value else 0, e.killed);
    } else if req.secret in s.refresh.consumed.at {
      ReplayEffect(s, s.refresh.consumed.at[req.secret], req, server, now);
    }
  }

  lemma {:induction false} RunExtends(sys: System, actions: seq<Action>)
    requires Inv(sys.stores, sys.history) && Possible(sys, actions)
    ensures Extends(sys.history, Run(sys, actions).history)
    decreases |actions|
  {
    if actions != [] {
      StepKeepsInv(sys, actions[0]);
      StepExtends(sys, actions[0]);
      RunExtends(Step(sys, actions[0]), actions[1..]);
    }
  }

  // ---- permanent revocation ----

  ghost predicate NoTokenOf(s: Stores, family: Id) {
    && (forall k :: k in s.refresh.tokens.at ==> s.refresh.tokens.at[k].grant.family != family)
    && (forall k :: k in s.oauth.tokens.at ==> s.oauth.tokens.at[k].grant.family != family)
  }

  /** Once revoked, a family has no token in either store ever again, whatever became of its tombstone. */
  lemma RevocationIsPermanent(before: seq<Action>, after: seq<Action>, family: Id)
    requires Possible(GENESIS, before) && family in Run(GENESIS, before).history.revoked
    requires Possible(Run(GENESIS, before), after)
    ensures NoTokenOf(Run(Run(GENESIS, before), after).stores, family)
  {
    Reachable(before);
    RunKeepsInv(Run(GENESIS, before), after);
    RunExtends(Run(GENESIS, before), after);
  }

  // ---- rotation and replay detection ----

  ghost predicate DropsOnly(s: Stores, s': Stores) {
    && Part(s'.refresh.tokens, s.refresh.tokens)
    && Part(s'.oauth.tokens, s.oauth.tokens)
    && s'.refresh.consumed.at.Keys <= s.refresh.consumed.at.Keys
  }

  lemma {:induction false} EvictDropsOnly(s: Stores, victims: seq<Secret>)
    ensures DropsOnly(s, EvictMarkers(s, victims).stores)
    decreases |victims|
  {
    if victims != [] && victims[0] in s.refresh.consumed.at {
      var next := EvictOne(s, victims[0]);
      EvictDropsOnly(next, victims[1..]);
      assert DropsOnly(s, next);
    }
  }

  lemma PruneDropsOnly(s: Stores, hash: Secret -> int)
    ensures DropsOnly(s, PrunedReplayState(s, hash).stores)
  {
    EvictDropsOnly(s, ExcessMarkers(s.refresh.consumed, hash));
  }

  lemma LoadDropsOnly(s: Stores, now: int, hash: Secret -> int)
    ensures DropsOnly(s, Loaded(s, now, hash).stores)
  {
    PruneDropsOnly(Expired(s, now), hash);
  }

  lemma ReachableLoad(actions: seq<Action>, now: int, hash: Secret -> int)
    requires Possible(GENESIS, actions)
    ensures var loaded := AfterLoad(Run(GENESIS, actions), now, hash);
            && Inv(loaded.stores, loaded.history)
            && DropsOnly(Run(GENESIS, actions).stores, loaded.stores)
  {
    Reachable(actions);
    LoadKeepsInv(Run(GENESIS, actions).stores, Run(GENESIS, actions).history, now, hash);
    LoadDropsOnly(Run(GENESIS, actions).stores, now, hash);
  }

  lemma ExchangeRotates(s: Stores, h: History, req: Request, server: Server, now: int)
    requires Inv(s, h) && Exchanged(s, req, server, now).outcome.Rotated?
    ensures var e := Exchanged(s, req, server, now);
            && req.secret in s.refresh.tokens.at
            && e.rotation.Some? && e.outcome.pair == DerivedPair(e.rotation.value, req.secret)
  {
    if req.secret !in s.refresh.tokens.at && req.secret in s.refresh.consumed.at {
      ReplayNeverRotates(s, s.refresh.consumed.at[req.secret], req, server, now);
    }
  }

  lemma ReplayNeverRotates(s: Stores, marker: Marker, req: Request, server: Server, now: int)
    ensures !Replay(s, marker, req, server, now).outcome.Rotated?
  {
  }

  /** A rotation spends a secret that was not spent before, for a pair derived from it that was never issued before. */
  lemma RotationSpends(actions: seq<Action>, a: Action)
    requires Possible(GENESIS, actions) && a.Refresh?
    requires Response(Run(GENESIS, actions), a).Rotated?
    ensures var h, h', secret := Run(GENESIS, actions).history, Step(Run(GENESIS, actions), a).history, a.request.secret;
            var pair := Response(Run(GENESIS, actions), a).pair;
            && secret !in h.spent && secret in h'.spent
            && pair == DerivedPair(h'.spent[secret].version, secret)
            && secret in h.issued && pair.refresh !in h.issued
            && h'.issued == h.issued[pair.refresh := h.issued[secret]]
  {
    hide Exchanged, Loaded;
    var loaded := AfterLoad(Run(GENESIS, actions), a.loadedAt, a.server.hash);
    ReachableLoad(actions, a.loadedAt, a.server.hash);
    ExchangeRotates(loaded.stores, loaded.history, a.request, a.server, a.now);
    SpentHistoryOk(loaded.history, a.request.secret, ExchangeOf(Run(GENESIS, actions), a).rotation.value);
  }

  lemma ExchangeOfSpent(s: Stores, h: History, req: Request, server: Server, now: int)
    requires Inv(s, h) && req.secret in h.spent
    ensures var e := Exchanged(s, req, server, now);
            !e.outcome.Rotated? && e.rotation.None? && DropsOnly(s, e.stores)
  {
    if req.secret in s.refresh.consumed.at {
      var marker := s.refresh.consumed.at[req.secret];
      ReplayEffect(s, marker, req, server, now);
      ReplayNeverRotates(s, marker, req, server, now);
      PruneDropsOnly(Revoked(s, marker.family, marker.expiresAt), server.hash);
    }
  }

  /** Presenting a secret that was ever spent mints nothing: no new secret, and no token that was not there before. */
  lemma ReplayNeverMints(actions: seq<Action>, a: Action)
    requires Possible(GENESIS, actions) && a.Refresh? && a.request.secret in Run(GENESIS, actions).history.spent
    ensures var sys := Run(GENESIS, actions);
            && !Response(sys, a).Rotated?
            && Step(sys, a).history.issued == sys.history.issued
            && DropsOnly(sys.stores, Step(sys, a).stores)
  {
    hide Exchanged, Loaded, Inv;
    var loaded := AfterLoad(Run(GENESIS, actions), a.loadedAt, a.server.hash);
    ReachableLoad(actions, a.loadedAt, a.server.hash);
    ExchangeOfSpent(loaded.stores, loaded.history, a.request, a.server, a.now);
  }

  predicate GraceOver(m: Marker, now: int) {
    m.retry.Some? ==> m.retry.value.until < now
  }

  lemma ReplayedFamilyIsGone(s: Stores, h: History, key: Secret, server: Server)
    requires Inv(s, h) && key in s.refresh.consumed.at
    ensures var e := RevokeReplayed(s, s.refresh.consumed.at[key], server);
            && key in h.issued && h.issued[key] in e.killed
            && NoTokenOf(e.stores, h.issued[key])
  {
    ReplayedKeepsInv(s, h, key, server);
    assert MarkerOk(key, s.refresh.consumed.at[key], h);
  }

  lemma ExchangeOfLateReplay(s: Stores, h: History, req: Request, server: Server, now: int, live: Secret)
    requires Inv(s, h) && req.secret in h.spent
    requires live in s.refresh.tokens.at && s.refresh.tokens.at[live].grant.family == h.issued[req.secret]
    requires s.refresh.tokens.at[live].familyExpiresAt > now
    ensures req.secret in s.refresh.consumed.at
    ensures var e := Exchanged(s, req, server, now);
            GraceOver(s.refresh.consumed.at[req.secret], now) ==>
              && e.outcome == FamilyRevoked
              && e.rotation.None?
              && h.issued[req.secret] in e.killed
              && NoTokenOf(e.stores, h.issued[req.secret])
  {
    assert MarkerOk(req.secret, s.refresh.consumed.at[req.secret], h);
    ReplayedFamilyIsGone(s, h, req.secret, server);
  }

  lemma CommittedLateReplay(loaded: System, e: Exchange, key: Secret, family: Id)
    requires e.outcome == FamilyRevoked && e.rotation.None? && family in e.killed
    ensures family in Recorded(loaded.history, e, key).revoked
  {
  }

  /**
   * While a family has a live token, each of its spent secrets is still marked; presenting one after its grace, in a
   * request whose transaction commits, is answered by revoking the family.
   */
  lemma LateReplayRevokesFamily(actions: seq<Action>, a: Action, live: Secret)
    requires Possible(GENESIS, actions) && a.Refresh? && a.saved && a.now <= a.loadedAt
    requires a.request.secret in Run(GENESIS, actions).history.spent
    requires var s := AfterLoad(Run(GENESIS, actions), a.loadedAt, a.server.hash).stores;
             && live in s.refresh.tokens.at
             && a.request.secret in Run(GENESIS, actions).history.issued
             && s.refresh.tokens.at[live].grant.family == Run(GENESIS, actions).history.issued[a.request.secret]
    ensures a.request.secret in AfterLoad(Run(GENESIS, actions), a.loadedAt, a.server.hash).stores.refresh.consumed.at
    ensures var sys, family := Run(GENESIS, actions), Run(GENESIS, actions).history.issued[a.request.secret];
            GraceOver(AfterLoad(sys, a.loadedAt, a.server.hash).stores.refresh.consumed.at[a.request.secret], a.now) ==>
              && Response(sys, a) == FamilyRevoked
              && family in Step(sys, a).history.revoked
              && NoTokenOf(Step(sys, a).stores, family)
  {
    hide Exchanged, Loaded, Inv, NoTokenOf;
    var sys := Run(GENESIS, actions);
    ReachableLoad(actions, a.loadedAt, a.server.hash);
    LiveIsUnexpired(sys.stores, a.loadedAt, a.server.hash, live);
    var loaded, e := AfterLoad(sys, a.loadedAt, a.server.hash), ExchangeOf(sys, a);
    assert loaded.history.issued == sys.history.issued && loaded.history.spent == sys.history.spent;
    ExchangeOfLateReplay(loaded.stores, loaded.history, a.request, a.server, a.now, live);
    if GraceOver(loaded.stores.refresh.consumed.at[a.request.secret], a.now) {
      CommittedLateReplay(loaded, e, a.request.secret, sys.history.issued[a.request.secret]);
      assert Step(sys, a) == System(e.stores, Recorded(loaded.history, e, a.request.secret));
      assert Response(sys, a) == e.outcome;
    }
  }

  /** The request passes validation against what the marker kept of the spent token, within its grace and allowance. */
  predicate AcceptableRetry(m: Marker, req: Request, server: Server, oauth: OAuthStore, now: int) {
    && Retryable(m, now)
    && var verdict := Validate(m.retry.value.source, req, server, oauth, false);
       verdict.Granted? && verdict.accessScope == m.retry.value.accessScope
  }

  /** The replacement of the presented secret was itself spent, so no pair that could be handed out again is live. */
  lemma SpentReplacementIsNotLive(s: Stores, h: History, key: Secret, version: Id)
    requires Inv(s, h) && key in h.spent && Replacement(h.spent[key].version, key) in h.spent
    ensures Replacement(version, key) !in s.refresh.tokens.at
  {
  }

  lemma ExchangeOfEarlyReplay(s: Stores, h: History, req: Request, server: Server, now: int, live: Secret)
    requires Inv(s, h) && req.secret in h.spent && Replacement(h.spent[req.secret].version, req.secret) in h.spent
    requires live in s.refresh.tokens.at && s.refresh.tokens.at[live].grant.family == h.issued[req.secret]
    requires s.refresh.tokens.at[live].familyExpiresAt > now
    ensures req.secret in s.refresh.consumed.at
    ensures var e := Exchanged(s, req, server, now);
            AcceptableRetry(s.refresh.consumed.at[req.secret], req, server, s.oauth, now) ==>
              && e.outcome == FamilyRevoked
              && e.rotation.None?
              && h.issued[req.secret] in e.killed
              && NoTokenOf(e.stores, h.issued[req.secret])
  {
    assert MarkerOk(req.secret, s.refresh.consumed.at[req.secret], h);
    if AcceptableRetry(s.refresh.consumed.at[req.secret], req, server, s.oauth, now) {
      GrantedIsConfigured(s.refresh.consumed.at[req.secret].retry.value.source, req, server, s.oauth);
      SpentReplacementIsNotLive(s, h, req.secret, server.tokenVersion.value);
    }
    ReplayedFamilyIsGone(s, h, req.secret, server);
    hide NoTokenOf, Validate;
  }

  lemma GrantedIsConfigured(t: RefreshToken, req: Request, server: Server, oauth: OAuthStore)
    requires Validate(t, req, server, oauth, false).Granted?
    ensures server.tokenVersion.Some?
  {
  }

  /**
   * Within the grace too: while a family has a live token, presenting a secret whose replacement was itself spent, in a
   * request that passes validation and commits, is answered by revoking the family.
   */
  lemma EarlyReplayRevokesFamily(actions: seq<Action>, a: Action, live: Secret)
    requires Possible(GENESIS, actions) && a.Refresh? && a.saved && a.now <= a.loadedAt
    requires var h := Run(GENESIS, actions).history;
             a.request.secret in h.spent && Replacement(h.spent[a.request.secret].version, a.request.secret) in h.spent
    requires var s := AfterLoad(Run(GENESIS, actions), a.loadedAt, a.server.hash).stores;
             && live in s.refresh.tokens.at
             && a.request.secret in Run(GENESIS, actions).history.issued
             && s.refresh.tokens.at[live].grant.family == Run(GENESIS, actions).history.issued[a.request.secret]
    ensures a.request.secret in AfterLoad(Run(GENESIS, actions), a.loadedAt, a.server.hash).stores.refresh.consumed.at
    ensures var sys, family := Run(GENESIS, actions), Run(GENESIS, actions).history.issued[a.request.secret];
            var s := AfterLoad(sys, a.loadedAt, a.server.hash).stores;
            AcceptableRetry(s.refresh.consumed.at[a.request.secret], a.request, a.server, s.oauth, a.now) ==>
              && Response(sys, a) == FamilyRevoked
              && family in Step(sys, a).history.revoked
              && NoTokenOf(Step(sys, a).stores, family)
  {
    hide Exchanged, Loaded, Inv, NoTokenOf, AcceptableRetry;
    var sys := Run(GENESIS, actions);
    ReachableLoad(actions, a.loadedAt, a.server.hash);
    LiveIsUnexpired(sys.stores, a.loadedAt, a.server.hash, live);
    var loaded, e := AfterLoad(sys, a.loadedAt, a.server.hash), ExchangeOf(sys, a);
    assert loaded.history.issued == sys.history.issued && loaded.history.spent == sys.history.spent;
    ExchangeOfEarlyReplay(loaded.stores, loaded.history, a.request, a.server, a.now, live);
    if AcceptableRetry(loaded.stores.refresh.consumed.at[a.request.secret], a.request, a.server, loaded.stores.oauth, a.now) {
      CommittedLateReplay(loaded, e, a.request.secret, sys.history.issued[a.request.secret]);
      assert Step(sys, a) == System(e.stores, Recorded(loaded.history, e, a.request.secret));
      assert Response(sys, a) == e.outcome;
    }
  }

  lemma LiveIsUnexpired(s: Stores, now: int, hash: Secret -> int, live: Secret)
    requires live in Loaded(s, now, hash).stores.refresh.tokens.at
    ensures Loaded(s, now, hash).stores.refresh.tokens.at[live].familyExpiresAt > now
  {
    PruneDropsOnly(Expired(s, now), hash);
  }

  // ---- idempotent retries ----

  lemma ExchangeRetries(s: Stores, h: History, req: Request, server: Server, now: int)
    requires Inv(s, h) && Exchanged(s, req, server, now).outcome.RetryIssued?
    ensures var e := Exchanged(s, req, server, now);
            && req.secret in h.spent
            && e.outcome.pair == DerivedPair(h.spent[req.secret].version, req.secret)
            && e.outcome.pair.refresh in e.stores.refresh.tokens.at && e.outcome.pair.access in e.stores.oauth.tokens.at
            && e.stores.refresh.tokens == s.refresh.tokens && e.stores.oauth.tokens == s.oauth.tokens
            && e.rotation.None? && h.spent[req.secret].retries < MAX_REFRESH_RETRY_ISSUES
  {
    if req.secret in s.refresh.tokens.at {
      RotateNeverRetries(s, req, server, now);
    }
    var marker := s.refresh.consumed.at[req.secret];
    assert MarkerOk(req.secret, marker, h);
    ReplayEffect(s, marker, req, server, now);
    RetryAnswersTheDerivedPair(s, marker, req, server, now);
    assert Exchanged(s, req, server, now).outcome.pair.refresh in h.issued;
  }

  /**
   * A retry hands out exactly the pair its rotation issued, both halves live, and changes neither token table; a spent
   * secret is answered that way at most twice in the whole run.
   */
  lemma RetryIsIdempotent(actions: seq<Action>, a: Action)
    requires Possible(GENESIS, actions) && a.Refresh?
    requires Response(Run(GENESIS, actions), a).RetryIssued?
    ensures var sys, secret := Run(GENESIS, actions), a.request.secret;
            var s, s', pair := AfterLoad(sys, a.loadedAt, a.server.hash).stores, Step(sys, a).stores, Response(sys, a).pair;
            && secret in sys.history.spent
            && pair == DerivedPair(sys.history.spent[secret].version, secret)
            && pair.refresh in s'.refresh.tokens.at && pair.access in s'.oauth.tokens.at
            && s'.refresh.tokens == s.refresh.tokens && s'.oauth.tokens == s.oauth.tokens
            && secret in Step(sys, a).history.spent
            && Step(sys, a).history.spent[secret].retries == sys.history.spent[secret].retries + 1 <= MAX_REFRESH_RETRY_ISSUES
  {
    hide Exchanged, Loaded, Inv;
    var loaded := AfterLoad(Run(GENESIS, actions), a.loadedAt, a.server.hash);
    ReachableLoad(actions, a.loadedAt, a.server.hash);
    ExchangeRetries(loaded.stores, loaded.history, a.request, a.server, a.now);
  }

  lemma RotateNeverRetries(s: Stores, req: Request, server: Server, now: int)
    requires req.secret in s.refresh.tokens.at
    ensures !Rotate(s, s.refresh.tokens.at[req.secret], req, server, now).outcome.RetryIssued?
  {
  }

  lemma RetryAnswersTheDerivedPair(s: Stores, marker: Marker, req: Request, server: Server, now: int)
    requires Replay(s, marker, req, server, now).outcome.RetryIssued?
    ensures server.tokenVersion.Some?
    ensures var pair := Replay(s, marker, req, server, now).outcome.pair;
            && pair == DerivedPair(server.tokenVersion.value, req.secret)
            && pair.refresh in s.refresh.tokens.at && pair.access in s.oauth.tokens.at
  {
  }

  // ---- caps ----

  ghost predicate Capped(s: Stores) {
    && |s.refresh.consumed.at| <= MAX_CONSUMED_REFRESH_TOKENS
    && |s.refresh.revoked.at| <= MAX_REVOKED_REFRESH_FAMILIES
    && TokensCapped(s)
  }

  ghost predicate TokensCapped(s: Stores) {
    && |s.refresh.tokens.at| <= MAX_REFRESH_TOKENS
    && |s.oauth.tokens.at| <= MAX_ACCESS_TOKENS
    && forall client: Id :: ClientCapped(s, client)
  }

  ghost predicate ClientCapped(s: Stores, client: Id) {
    && |OwnedKeys(s.refresh.tokens, OfClientRefresh(client))| <= MAX_REFRESH_TOKENS_PER_CLIENT
    && |OwnedKeys(s.oauth.tokens, OfClientAccess(client))| <= MAX_ACCESS_TOKENS_PER_CLIENT
  }

  lemma PartSize<K(!new), V>(a: Record<K, V>, b: Record<K, V>)
    requires Part(a, b)
    ensures |a.at| <= |b.at|
  {
    SubsetSize(a.at.Keys, b.at.Keys);
    assert |a.at| == |a.at.Keys| && |b.at| == |b.at.Keys|;
  }

  lemma OwnedPartSize<K(!new), V>(a: Record<K, V>, b: Record<K, V>, owned: V -> bool)
    requires Part(a, b)
    ensures |OwnedKeys(a, owned)| <= |OwnedKeys(b, owned)|
  {
    SubsetSize(OwnedKeys(a, owned), OwnedKeys(b, owned));
  }

  lemma FewerTokensCapped(s: Stores, s': Stores)
    requires TokensCapped(s) && Part(s'.refresh.tokens, s.refresh.tokens) && Part(s'.oauth.tokens, s.oauth.tokens)
    ensures TokensCapped(s')
  {
    PartSize(s'.refresh.tokens, s.refresh.tokens);
    PartSize(s'.oauth.tokens, s.oauth.tokens);
    forall client: Id ensures ClientCapped(s', client) {
      assert ClientCapped(s, client);
      OwnedPartSize(s'.refresh.tokens, s.refresh.tokens, OfClientRefresh(client));
      OwnedPartSize(s'.oauth.tokens, s.oauth.tokens, OfClientAccess(client));
    }
  }

  lemma PruneCaps(s: Stores, hash: Secret -> int)
    requires ValidStores(s) && TokensCapped(s)
    ensures Capped(PrunedReplayState(s, hash).stores)
  {
    PruningIsBounded(s, hash);
    PruneDropsOnly(s, hash);
    FewerTokensCapped(s, PrunedReplayState(s, hash).stores);
  }

  lemma LoadCaps(s: Stores, now: int, hash: Secret -> int)
    requires ValidStores(s) && TokensCapped(s)
    ensures Capped(Loaded(s, now, hash).stores)
  {
    ExpiredValid(s, now);
    FewerTokensCapped(s, Expired(s, now));
    PruneCaps(Expired(s, now), hash);
  }

  /** After a pair was issued, at most 20 tokens of its client and 500 in all are left in either table. */
  lemma TablesCapped(s: Stores, source: Source, pair: TokenPair, version: Id, accessScope: Scope, now: int)
    requires ValidStores(s)
    ensures var r, client := Issued(s, source, pair, version, accessScope, now), source.grant.client;
            && |r.refresh.tokens.at| <= MAX_REFRESH_TOKENS && |r.oauth.tokens.at| <= MAX_ACCESS_TOKENS
            && |OwnedKeys(r.refresh.tokens, OfClientRefresh(client))| <= MAX_REFRESH_TOKENS_PER_CLIENT
            && |OwnedKeys(r.oauth.tokens, OfClientAccess(client))| <= MAX_ACCESS_TOKENS_PER_CLIENT
  {
    hide PrunedTwice, OwnedKeys;
    var client := source.grant.client;
    var access := s.oauth.tokens.Put(pair.access, NewAccess(source, version, accessScope, now));
    var refresh := s.refresh.tokens.Put(pair.refresh, NewRefresh(source, version, now));
    PutValid(s.oauth.tokens, pair.access, NewAccess(source, version, accessScope, now));
    PutValid(s.refresh.tokens, pair.refresh, NewRefresh(source, version, now));
    PrunedTwiceIsCapped(access, OfClientAccess(client), AccessExpiry, MAX_ACCESS_TOKENS_PER_CLIENT, MAX_ACCESS_TOKENS);
    PrunedTwiceIsCapped(refresh, OfClientRefresh(client), RefreshExpiry, MAX_REFRESH_TOKENS_PER_CLIENT, MAX_REFRESH_TOKENS);
  }

  /** Issuing to one client leaves no other client with more than it had. */
  lemma IssuedCaps(s: Stores, source: Source, pair: TokenPair, version: Id, accessScope: Scope, now: int)
    requires ValidStores(s) && TokensCapped(s)
    ensures TokensCapped(Issued(s, source, pair, version, accessScope, now))
  {
    hide PrunedTwice, OwnedKeys;
    var r := Issued(s, source, pair, version, accessScope, now);
    TablesCapped(s, source, pair, version, accessScope, now);
    IssuedIsBounded(s, source, pair, version, accessScope, now);
    hide Issued;
    forall client: Id ensures ClientCapped(r, client) {
      if client != source.grant.client {
        assert ClientCapped(s, client);
        OthersUnmoved(r.refresh.tokens, s.refresh.tokens, pair.refresh, NewRefresh(source, version, now), OfClientRefresh(client));
        OthersUnmoved(r.oauth.tokens, s.oauth.tokens, pair.access, NewAccess(source, version, accessScope, now), OfClientAccess(client));
      }
    }
  }

  lemma OthersUnmoved<K(!new), V>(a: Record<K, V>, b: Record<K, V>, k: K, v: V, owned: V -> bool)
    requires Part(a, b.Put(k, v)) && !owned(v)
    ensures |OwnedKeys(a, owned)| <= |OwnedKeys(b, owned)|
  {
    SubsetSize(OwnedKeys(a, owned), OwnedKeys(b, owned));
  }

  lemma RotateCaps(s: Stores, h: History, req: Request, server: Server, now: int)
    requires Inv(s, h) && Capped(s) && req.secret in s.refresh.tokens.at
    ensures Capped(Rotate(s, s.refresh.tokens.at[req.secret], req, server, now).stores)
  {
    var e := Rotate(s, s.refresh.tokens.at[req.secret], req, server, now);
    if e.rotation.Some? {
      var bound, scope := RotationEffect(s, req, server, now);
      RotationCaps(s, req.secret, bound, e.rotation.value, scope, server.hash, now);
    } else {
      NoRotationEffect(s, req, server, now);
      DeleteCaps(s, req.secret);
    }
  }

  lemma DeleteCaps(s: Stores, key: Secret)
    requires Capped(s)
    ensures Capped(s.(refresh := s.refresh.(tokens := s.refresh.tokens.Delete(key))))
  {
    FewerTokensCapped(s, s.(refresh := s.refresh.(tokens := s.refresh.tokens.Delete(key))));
  }

  lemma ExchangeCaps(s: Stores, h: History, req: Request, server: Server, now: int)
    requires Inv(s, h) && Capped(s)
    ensures Capped(Exchanged(s, req, server, now).stores)
  {
    if req.secret in s.refresh.tokens.at {
      RotateCaps(s, h, req, server, now);
    } else if req.secret in s.refresh.consumed.at {
      var marker := s.refresh.consumed.at[req.secret];
      ReplayEffect(s, marker, req, server, now);
      ReplayCaps(s, req.secret, marker, Replay(s, marker, req, server, now), server, now);
    }
  }

  lemma RotationCaps(s: Stores, key: Secret, bound: RefreshToken, version: Id, scope: Scope, hash: Secret -> int, now: int)
    requires ValidStores(s) && TokensCapped(s)
    ensures var p := Consumed(Moved(s, bound, key, version, scope, now), key, NewMarker(bound, bound.familyExpiresAt, now, scope), hash);
            Capped(p.stores.(oauth := Touched(p.stores.oauth, bound.grant.client, now)))
  {
    hide Moved, PrunedReplayState;
    MovedCaps(s, key, bound, version, scope, now);
    var m, marker := Moved(s, bound, key, version, scope, now), NewMarker(bound, bound.familyExpiresAt, now, scope);
    assert ValidStores(m) by { MovedTokens(s, bound, key, version, scope, now); }
    PutValid(m.refresh.consumed, key, marker);
    hide TokensCapped, NewMarker;
    FewerTokensCapped(m, WithMarker(m, key, marker));
    PruneCaps(WithMarker(m, key, marker), hash);
    var p := PrunedReplayState(WithMarker(m, key, marker), hash);
    FewerTokensCapped(p.stores, p.stores.(oauth := Touched(p.stores.oauth, bound.grant.client, now)));
  }

  lemma MovedCaps(s: Stores, key: Secret, bound: RefreshToken, version: Id, scope: Scope, now: int)
    requires ValidStores(s) && TokensCapped(s)
    ensures TokensCapped(Moved(s, bound, key, version, scope, now))
  {
    hide Issued;
    IssuedCaps(s, RefreshSource(bound), DerivedPair(version, key), version, scope, now);
    FewerTokensCapped(Issued(s, RefreshSource(bound), DerivedPair(version, key), version, scope, now),
                      Moved(s, bound, key, version, scope, now));
  }

  lemma ReplayCaps(s: Stores, key: Secret, marker: Marker, e: Exchange, server: Server, now: int)
    requires ValidStores(s) && Capped(s) && key in s.refresh.consumed.at && marker == s.refresh.consumed.at[key]
    requires || e == RevokeReplayed(s, marker, server)
             || (marker.retry.Some? && e.stores == Reissued(s, key, marker, marker.retry.value.source.grant.client, now))
             || e.stores == s
    ensures Capped(e.stores)
  {
    hide TokensCapped, PrunedReplayState;
    if e == RevokeReplayed(s, marker, server) {
      var revoked := Revoked(s, marker.family, marker.expiresAt);
      RevokedValid(s, marker.family, marker.expiresAt);
      FewerTokensCapped(s, revoked);
      PruneCaps(revoked, server.hash);
    } else if e.stores != s {
      FewerTokensCapped(s, e.stores);
      assert e.stores.refresh.consumed.at.Keys == s.refresh.consumed.at.Keys;
      SubsetSize(e.stores.refresh.consumed.at.Keys, s.refresh.consumed.at.Keys);
    }
  }

  lemma StepCaps(sys: System, a: Action)
    requires Inv(sys.stores, sys.history) && Enabled(sys, a) && Capped(sys.stores)
    ensures Capped(Step(sys, a).stores)
  {
    hide LiveOk, Linear, AccessOk, MarkersOk, Remembered, HistoryOk, Exchanged, Loaded, Issued;
    match a
    case Administer(_, _, access, refresh) =>
      FewerTokensCapped(sys.stores, Step(sys, a).stores);
    case Load(now, hash) =>
      LoadCaps(sys.stores, now, hash);
    case Redeem(grant, scope, pair, version, now) =>
      var source := CodeSource(grant, scope, now);
      IssuedCaps(sys.stores, source, pair, version, source.scope, now);
      IssuedIsBounded(sys.stores, source, pair, version, source.scope, now);
    case Refresh(request, server, now, loadedAt, saved) =>
      LoadCaps(sys.stores, loadedAt, server.hash);
      LoadKeepsInv(sys.stores, sys.history, loadedAt, server.hash);
      var loaded := AfterLoad(sys, loadedAt, server.hash);
      ExchangeCaps(loaded.stores, loaded.history, request, server, now);
  }

  lemma {:induction false} RunCaps(sys: System, actions: seq<Action>)
    requires Inv(sys.stores, sys.history) && Possible(sys, actions) && Capped(sys.stores)
    ensures Capped(Run(sys, actions).stores)
    decreases |actions|
  {
    if actions != [] {
      StepKeepsInv(sys, actions[0]);
      StepCaps(sys, actions[0]);
      RunCaps(Step(sys, actions[0]), actions[1..]);
    }
  }

  /** No run ever holds more than 4096 markers, 1024 tombstones, or 500 tokens of a kind and 20 of any one client. */
  lemma RunsAreCapped(actions: seq<Action>)
    requires Possible(GENESIS, actions)
    ensures Capped(Run(GENESIS, actions).stores)
  {
    RunCaps(GENESIS, actions);
  }

  // ---- success ----

  /**
   * With room for one more token of the client in each table, and one more marker, a rotation answered as a success
   * leaves both halves of its pair standing and the spent secret marked with a full retry allowance.
   */
  lemma RotationWithRoom(actions: seq<Action>, a: Action)
    requires Possible(GENESIS, actions) && a.Refresh?
    requires Response(Run(GENESIS, actions), a).Rotated?
    requires var s := AfterLoad(Run(GENESIS, actions), a.loadedAt, a.server.hash).stores;
             && a.request.secret in s.refresh.tokens.at
             && HasRoom(s, s.refresh.tokens.at[a.request.secret].grant.client)
             && |s.refresh.consumed.at| < MAX_CONSUMED_REFRESH_TOKENS
    ensures Succeeded(Step(Run(GENESIS, actions), a).stores, a.request.secret, Response(Run(GENESIS, actions), a).pair)
  {
    hide Exchanged, Loaded, HasRoom, Inv;
    var loaded := AfterLoad(Run(GENESIS, actions), a.loadedAt, a.server.hash);
    ReachableLoad(actions, a.loadedAt, a.server.hash);
    RotateWithRoom(loaded.stores, loaded.history, a.request, a.server, a.now);
  }

  /** Both halves of the pair stand, and the spent secret is marked with a full retry allowance. */
  ghost predicate Succeeded(s: Stores, key: Secret, pair: TokenPair) {
    && pair.refresh in s.refresh.tokens.at
    && pair.access in s.oauth.tokens.at
    && key !in s.refresh.tokens.at
    && key in s.refresh.consumed.at
    && s.refresh.consumed.at[key].retry.Some?
    && s.refresh.consumed.at[key].retry.value.issues == 0
  }

  lemma RotateWithRoom(s: Stores, h: History, req: Request, server: Server, now: int)
    requires Inv(s, h) && Exchanged(s, req, server, now).outcome.Rotated?
    requires req.secret in s.refresh.tokens.at && HasRoom(s, s.refresh.tokens.at[req.secret].grant.client)
    requires |s.refresh.consumed.at| < MAX_CONSUMED_REFRESH_TOKENS
    ensures var e := Exchanged(s, req, server, now);
            Succeeded(e.stores, req.secret, e.outcome.pair)
  {
    ExchangeRotates(s, h, req, server, now);
    hide Rotate, Replay, Moved, Consumed, NewMarker, HasRoom;
    var e := Exchanged(s, req, server, now);
    var bound, scope := RotationEffect(s, req, server, now);
    RoomyRotation(s, h, req.secret, bound, e.rotation.value, scope, server.hash, now);
  }

  lemma MovedWithRoom(s: Stores, key: Secret, bound: RefreshToken, version: Id, scope: Scope, now: int)
    requires ValidStores(s) && HasRoom(s, bound.grant.client)
    ensures var m, pair := Moved(s, bound, key, version, scope, now), DerivedPair(version, key);
            pair.refresh in m.refresh.tokens.at && pair.access in m.oauth.tokens.at && key !in m.refresh.tokens.at
  {
    hide PrunedTwice, HasRoom;
    IssuedWithRoom(s, RefreshSource(bound), DerivedPair(version, key), version, scope, now);
    assert Replacement(version, key) != key;
  }

  lemma RoomyRotation(s: Stores, h: History, key: Secret, bound: RefreshToken, version: Id, scope: Scope, hash: Secret -> int, now: int)
    requires Inv(s, h) && key in s.refresh.tokens.at
    requires bound == s.refresh.tokens.at[key].(grant := s.refresh.tokens.at[key].grant.(dpop := bound.grant.dpop))
    requires HasRoom(s, bound.grant.client) && |s.refresh.consumed.at| < MAX_CONSUMED_REFRESH_TOKENS
    ensures Succeeded(Consumed(Moved(s, bound, key, version, scope, now), key, NewMarker(bound, bound.familyExpiresAt, now, scope), hash).stores,
                      key, DerivedPair(version, key))
  {
    var marker := NewMarker(bound, bound.familyExpiresAt, now, scope);
    var marked := WithMarker(Moved(s, bound, key, version, scope, now), key, marker);
    assert ValidStores(marked) by { RotationKeepsInv(s, h, key, bound, version, scope, now); }
    assert marked.refresh.consumed == s.refresh.consumed.Put(key, marker) by { MovedTokens(s, bound, key, version, scope, now); }
    MovedWithRoom(s, key, bound, version, scope, now);
    PutSize(s.refresh.consumed, key, marker, m => true);
    PruningWithinCap(marked, hash);
  }
}
