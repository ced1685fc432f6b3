/**
 * Whole runs of the refresh-token service, against the ideal history of what was ever issued, spent and revoked.
 * The grant is that of section 6 of RFC 6749, with the rotation and replay detection of section 4.14.2 of RFC 9700.
 */
module RefreshRuns {
  import opened Records
  import opened ExpiryPruning
  import opened OAuthStores
  import opened RefreshFamilies
  import opened RefreshExchange

  // ---- the ideal history ----

  datatype Family = Family(account: Id, accountVersion: nat, client: Id, expiresAt: int)
  /** The version a spent secret's replacement was derived under, and how often that pair was handed out again. */
  datatype Spent = Spent(version: Id, retries: nat)
  datatype History = History(families: map<Id, Family>, issued: map<Secret, Id>, spent: map<Secret, Spent>,
                             revoked: set<Id>)

  datatype System = System(stores: Stores, history: History)

  const GENESIS := System(NO_STORES, History(map[], map[], map[], {}))

  // ---- steps ----

  datatype Action =
    /** What the rest of the service does: accounts and clients change, tokens of either kind are deleted. */
    | Administer(accounts: map<Id, Account>, clients: map<Id, Client>, access: set<AccessSecret>, refresh: set<Secret>)
    /** Any request that loads the refresh store. */
    | Load(now: int, hash: Secret -> int)
    /** A redeemed authorization code: random secrets and a random family. */
    | Redeem(grant: Grant, scope: Scope, pair: TokenPair, version: Id, now: int)
    /** A refresh grant; `saved` tells whether the final transaction commits. */
    | Refresh(request: Request, server: Server, now: int, loadedAt: int, saved: bool)

  /** Random values are new. */
  ghost predicate Enabled(sys: System, a: Action) {
    a.Redeem? ==>
      && a.pair.refresh.Minted?
      && a.pair.access.MintedAccess?
      && a.pair.refresh !in sys.history.issued
      && a.grant.family !in sys.history.families
  }

  function FamilyOf(source: Source): Family {
    Family(source.grant.account, source.grant.accountVersion, source.grant.client, source.familyExpiresAt)
  }

  /** The system after the refresh store was loaded, and whatever the load deleted was deleted. */
  function AfterLoad(sys: System, now: int, hash: Secret -> int): System {
    var p := Loaded(sys.stores, now, hash);
    System(p.stores, sys.history.(revoked := sys.history.revoked + p.killed))
  }

  function ExchangeOf(sys: System, a: Action): Exchange
    requires a.Refresh?
  {
    Exchanged(AfterLoad(sys, a.loadedAt, a.server.hash).stores, a.request, a.server, a.now)
  }

  /** What the client of a refresh grant is answered; a failed commit turns every answer that needed it into an error. */
  function Response(sys: System, a: Action): Outcome
    requires a.Refresh?
  {
    var outcome := ExchangeOf(sys, a).outcome;
    if !a.saved && (outcome.Rotated? || outcome.RetryIssued? || outcome.FamilyRevoked?) then ServerError else outcome
  }

  /** The history after `key` was spent for a replacement derived under `version`. */
  function SpentHistory(h: History, key: Secret, version: Id): History {
    if key !in h.issued then h
    else h.(spent := h.spent[key := Spent(version, 0)], issued := h.issued[Replacement(version, key) := h.issued[key]])
  }

  function RetriedHistory(h: History, key: Secret): History {
    if key !in h.spent then h
    else h.(spent := h.spent[key := h.spent[key].(retries := h.spent[key].retries + 1)])
  }

  function Recorded(h: History, e: Exchange, key: Secret): History {
    var h1 :=
      if e.rotation.Some? then SpentHistory(h, key, e.rotation.value)
      else if e.outcome.RetryIssued? then RetriedHistory(h, key)
      else h;
    h1.(revoked := h1.revoked + e.killed)
  }

  function Step(sys: System, a: Action): System {
    var s, h := sys.stores, sys.history;
    match a
    case Administer(accounts, clients, access, refresh) =>
      System(Stores(OAuthStore(accounts, clients, s.oauth.tokens.Keep(access)),
                    s.refresh.(tokens := s.refresh.tokens.Keep(refresh))), h)
    case Load(now, hash) => AfterLoad(sys, now, hash)
    case Redeem(grant, scope, pair, version, now) =>
      var source := CodeSource(grant, scope, now);
      System(Issued(s, source, pair, version, source.scope, now),
             h.(families := h.families[source.grant.family := FamilyOf(source)],
                issued := h.issued[pair.refresh := source.grant.family]))
    case Refresh(request, server, now, loadedAt, saved) =>
      var loaded, e := AfterLoad(sys, loadedAt, server.hash), ExchangeOf(sys, a);
      if !saved then loaded else System(e.stores, Recorded(loaded.history, e, request.secret))
  }

  // ---- the invariant ----

  predicate OfFamily(g: Grant, f: Family) {
    g.account == f.account && g.accountVersion == f.accountVersion && g.client == f.client
  }

  ghost predicate HistoryOk(h: History) {
    && (forall k :: k in h.issued ==> h.issued[k] in h.families)
    && (forall k :: k in h.spent ==> k in h.issued && h.spent[k].retries <= MAX_REFRESH_RETRY_ISSUES)
    && (forall k :: k in h.issued && k.Replacement? ==>
          k.seed in h.spent && h.spent[k.seed].version == k.version && h.issued[k.seed] == h.issued[k])
    && h.revoked <= h.families.Keys
  }

  /** A live refresh token was issued, is unspent, and carries its unrevoked family's owner and expiry. */
  ghost predicate LiveOk(t: map<Secret, RefreshToken>, h: History) {
    forall k :: k in t ==>
      && k in h.issued
      && k !in h.spent
      && t[k].grant.family == h.issued[k]
      && h.issued[k] in h.families
      && h.issued[k] !in h.revoked
      && OfFamily(t[k].grant, h.families[h.issued[k]])
      && t[k].familyExpiresAt == h.families[h.issued[k]].expiresAt
  }

  ghost predicate Linear(t: map<Secret, RefreshToken>) {
    forall j, k :: j in t && k in t && t[j].grant.family == t[k].grant.family ==> j == k
  }

  /** An access token is of an unrevoked family and its owner; a derived one was derived from a spent secret. */
  ghost predicate AccessOk(t: map<AccessSecret, AccessToken>, h: History) {
    forall k :: k in t ==>
      && (k.ReplacementAccess? ==> k.seed in h.spent)
      && t[k].grant.family in h.families
      && t[k].grant.family !in h.revoked
      && OfFamily(t[k].grant, h.families[t[k].grant.family])
  }

  ghost predicate MarkerOk(k: Secret, m: Marker, h: History) {
    && k in h.spent
    && k in h.issued
    && m.family == h.issued[k]
    && h.issued[k] in h.families
    && m.expiresAt == h.families[h.issued[k]].expiresAt
    && (m.retry.Some? ==>
          && m.retry.value.issues == h.spent[k].retries
          && m.retry.value.source.grant.family == m.family
          && OfFamily(m.retry.value.source.grant, h.families[h.issued[k]]))
  }

  ghost predicate MarkersOk(c: map<Secret, Marker>, h: History) {
    forall k :: k in c ==> MarkerOk(k, c[k], h)
  }

  /** While a family has a live token, no secret ever spent in it has lost its marker. */
  ghost predicate Remembered(t: map<Secret, RefreshToken>, c: map<Secret, Marker>, h: History) {
    forall k, j :: k in h.spent && k in h.issued && j in t && j in h.issued && h.issued[j] == h.issued[k] ==> k in c
  }

  ghost predicate Inv(s: Stores, h: History) {
    && ValidStores(s)
    && HistoryOk(h)
    && LiveOk(s.refresh.tokens.at, h)
    && Linear(s.refresh.tokens.at)
    && AccessOk(s.oauth.tokens.at, h)
    && MarkersOk(s.refresh.consumed.at, h)
    && Remembered(s.refresh.tokens.at, s.refresh.consumed.at, h)
    && s.refresh.revoked.at.Keys <= h.revoked
  }

  // ---- each piece keeps it ----

  lemma FewerTokensKeepInv(s: Stores, s': Stores, h: History)
    requires Inv(s, h)
    requires forall k :: k in s'.refresh.tokens.at ==> k in s.refresh.tokens.at && s'.refresh.tokens.at[k] == s.refresh.tokens.at[k]
    requires forall k :: k in s'.oauth.tokens.at ==> k in s.oauth.tokens.at && s'.oauth.tokens.at[k] == s.oauth.tokens.at[k]
    requires s'.refresh.consumed == s.refresh.consumed
    requires ValidStores(s') && s'.refresh.revoked.at.Keys <= h.revoked
    ensures Inv(s', h)
  {
  }

  lemma RevokedKeepsInv(s: Stores, h: History, family: Id, expiresAt: int)
    requires Inv(s, h) && family in h.families
    ensures Inv(Revoked(s, family, expiresAt), h.(revoked := h.revoked + {family}))
  {
    RevokedValid(s, family, expiresAt);
  }

  lemma EvictOneKeepsInv(s: Stores, h: History, victim: Secret)
    requires Inv(s, h) && victim in s.refresh.consumed.at
    ensures Inv(EvictOne(s, victim), h.(revoked := h.revoked + {s.refresh.consumed.at[victim].family}))
  {
    var marker := s.refresh.consumed.at[victim];
    assert MarkerOk(victim, marker, h);
    RevokedKeepsInv(s, h, marker.family, marker.expiresAt);
    KeepValid(s.refresh.consumed, s.refresh.consumed.at.Keys - {victim});
  }

  lemma EvictKeepsInv(s: Stores, h: History, victims: seq<Secret>)
    requires Inv(s, h)
    ensures var p := EvictMarkers(s, victims);
            Inv(p.stores, h.(revoked := h.revoked + p.killed))
    decreases |victims|
  {
    if victims == [] || victims[0] !in s.refresh.consumed.at {
      assert h.revoked + {} == h.revoked;
    } else {
      var marker := s.refresh.consumed.at[victims[0]];
      var next, h1 := EvictOne(s, victims[0]), h.(revoked := h.revoked + {marker.family});
      EvictOneKeepsInv(s, h, victims[0]);
      hide Inv, EvictOne;
      EvictKeepsInv(next, h1, victims[1..]);
      var killed := EvictMarkers(next, victims[1..]).killed;
      assert h.revoked + {marker.family} + killed == h.revoked + ({marker.family} + killed);
    }
  }

  lemma PruneKeepsInv(s: Stores, h: History, hash: Secret -> int)
    requires Inv(s, h)
    ensures var p := PrunedReplayState(s, hash);
            Inv(p.stores, h.(revoked := h.revoked + p.killed))
  {
    EvictKeepsInv(s, h, ExcessMarkers(s.refresh.consumed, hash));
    var tombstones := EvictMarkers(s, ExcessMarkers(s.refresh.consumed, hash)).stores.refresh.revoked;
    KeepValid(tombstones, tombstones.at.Keys - Members(ExcessTombstones(tombstones)));
  }

  lemma ExpiredKeepsInv(s: Stores, h: History, now: int)
    requires Inv(s, h)
    ensures Inv(Expired(s, now), h)
  {
    ExpiredValid(s, now);
  }

  lemma LoadKeepsInv(s: Stores, h: History, now: int, hash: Secret -> int)
    requires Inv(s, h)
    ensures var p := Loaded(s, now, hash);
            Inv(p.stores, h.(revoked := h.revoked + p.killed))
  {
    ExpiredKeepsInv(s, h, now);
    PruneKeepsInv(Expired(s, now), h, hash);
  }

  /** Filing a pair and pruning: the new tokens may be there, and everything else was there before. */
  lemma IssuedIsBounded(s: Stores, source: Source, pair: TokenPair, version: Id, accessScope: Scope, now: int)
    requires ValidStores(s)
    ensures var r := Issued(s, source, pair, version, accessScope, now);
            && ValidStores(r)
            && r.refresh.consumed == s.refresh.consumed && r.refresh.revoked == s.refresh.revoked
            && Part(r.refresh.tokens, s.refresh.tokens.Put(pair.refresh, NewRefresh(source, version, now)))
            && Part(r.oauth.tokens, s.oauth.tokens.Put(pair.access, NewAccess(source, version, accessScope, now)))
  {
    var client := source.grant.client;
    var access := s.oauth.tokens.Put(pair.access, NewAccess(source, version, accessScope, now));
    var refresh := s.refresh.tokens.Put(pair.refresh, NewRefresh(source, version, now));
    PutValid(s.oauth.tokens, pair.access, NewAccess(source, version, accessScope, now));
    PutValid(s.refresh.tokens, pair.refresh, NewRefresh(source, version, now));
    PrunedTwiceIsPart(access, OfClientAccess(client), AccessExpiry, MAX_ACCESS_TOKENS_PER_CLIENT, MAX_ACCESS_TOKENS);
    PrunedTwiceIsPart(refresh, OfClientRefresh(client), RefreshExpiry, MAX_REFRESH_TOKENS_PER_CLIENT, MAX_REFRESH_TOKENS);
  }

  // ---- rotation ----

  lemma MovedTokens(s: Stores, source: RefreshToken, key: Secret, version: Id, accessScope: Scope, now: int)
    requires ValidStores(s)
    ensures var m := Moved(s, source, key, version, accessScope, now);
            && ValidStores(m)
            && m.refresh.consumed == s.refresh.consumed && m.refresh.revoked == s.refresh.revoked
            && (forall k :: k in m.refresh.tokens.at ==>
                  k != key &&
                  (if k == Replacement(version, key) then m.refresh.tokens.at[k] == NewRefresh(RefreshSource(source), version, now)
                   else k in s.refresh.tokens.at && m.refresh.tokens.at[k] == s.refresh.tokens.at[k]))
            && (forall k :: k in m.oauth.tokens.at ==>
                  if k == ReplacementAccess(version, key) then
                    m.oauth.tokens.at[k] == NewAccess(RefreshSource(source), version, accessScope, now)
                  else k in s.oauth.tokens.at && m.oauth.tokens.at[k] == s.oauth.tokens.at[k])
  {
    IssuedIsBounded(s, RefreshSource(source), DerivedPair(version, key), version, accessScope, now);
    var issued := Issued(s, RefreshSource(source), DerivedPair(version, key), version, accessScope, now);
    KeepValid(issued.refresh.tokens, issued.refresh.tokens.at.Keys - {key});
  }

  lemma SpentHistoryOk(h: History, key: Secret, version: Id)
    requires HistoryOk(h) && key in h.issued && key !in h.spent
    ensures HistoryOk(SpentHistory(h, key, version))
    ensures Replacement(version, key) !in h.issued
  {
    var next := Replacement(version, key);
    var h' := SpentHistory(h, key, version);
    assert next !in h.issued;
    forall k | k in h'.issued && k.Replacement?
      ensures k.seed in h'.spent && h'.spent[k.seed].version == k.version && h'.issued[k.seed] == h'.issued[k]
    {
      if k != next {
        assert k.seed in h.spent && k.seed != next;
      }
    }
  }

  lemma MovedLive(t: map<Secret, RefreshToken>, t': map<Secret, RefreshToken>, h: History, key: Secret, next: RefreshToken, version: Id)
    requires HistoryOk(h) && LiveOk(t, h) && Linear(t) && key in t
    requires next.grant.(version := 0, dpop := None) == t[key].grant.(version := 0, dpop := None)
    requires next.familyExpiresAt == t[key].familyExpiresAt
    requires forall k :: k in t' ==> k != key && if k == Replacement(version, key) then t'[k] == next else k in t && t'[k] == t[k]
    ensures LiveOk(t', SpentHistory(h, key, version)) && Linear(t')
    ensures forall k :: k in t' && t'[k].grant.family == t[key].grant.family ==> k == Replacement(version, key)
  {
    SpentHistoryOk(h, key, version);
  }

  lemma MovedMarkers(t: map<Secret, RefreshToken>, t': map<Secret, RefreshToken>, c: map<Secret, Marker>, h: History, key: Secret,
                     marker: Marker, version: Id)
    requires HistoryOk(h) && LiveOk(t, h) && MarkersOk(c, h) && Remembered(t, c, h) && key in t
    requires MarkerOk(key, marker, SpentHistory(h, key, version))
    requires forall k :: k in t' ==> k in SpentHistory(h, key, version).issued
    requires forall k :: k in t' ==> k == Replacement(version, key) || k in t
    ensures MarkersOk(c[key := marker], SpentHistory(h, key, version))
    ensures Remembered(t', c[key := marker], SpentHistory(h, key, version))
  {
    var h' := SpentHistory(h, key, version);
    SpentHistoryOk(h, key, version);
    forall k | k in c && k != key ensures MarkerOk(k, c[k], h') {
      assert MarkerOk(k, c[k], h);
    }
    forall k, j | k in h'.spent && k in h'.issued && j in t' && j in h'.issued && h'.issued[j] == h'.issued[k]
      ensures k in c[key := marker]
    {
      if k != key {
        assert h.issued[k] == h'.issued[k];
        var live := if j in t then j else key;
        assert live in t && h.issued[live] == h.issued[k];
      }
    }
  }

  lemma MovedAccess(a: map<AccessSecret, AccessToken>, a': map<AccessSecret, AccessToken>, h: History, key: Secret, next: AccessToken,
                    version: Id)
    requires AccessOk(a, h) && key in h.issued && h.issued[key] in h.families
    requires next.grant.family == h.issued[key] && next.grant.family !in h.revoked
    requires OfFamily(next.grant, h.families[h.issued[key]])
    requires forall k :: k in a' ==> if k == ReplacementAccess(version, key) then a'[k] == next else k in a && a'[k] == a[k]
    ensures AccessOk(a', SpentHistory(h, key, version))
  {
  }

  lemma RotationKeepsInv(s: Stores, h: History, key: Secret, source: RefreshToken, version: Id, accessScope: Scope, now: int)
    requires Inv(s, h) && key in s.refresh.tokens.at
    requires source == s.refresh.tokens.at[key].(grant := s.refresh.tokens.at[key].grant.(dpop := source.grant.dpop))
    ensures Inv(WithMarker(Moved(s, source, key, version, accessScope, now), key,
                           NewMarker(source, source.familyExpiresAt, now, accessScope)),
                SpentHistory(h, key, version))
  {
    var m := Moved(s, source, key, version, accessScope, now);
    var marker := NewMarker(source, source.familyExpiresAt, now, accessScope);
    MovedTokens(s, source, key, version, accessScope, now);
    SpentHistoryOk(h, key, version);
    PutValid(s.refresh.consumed, key, marker);
    MovedLive(s.refresh.tokens.at, m.refresh.tokens.at, h, key, NewRefresh(RefreshSource(source), version, now), version);
    MovedMarkers(s.refresh.tokens.at, m.refresh.tokens.at, s.refresh.consumed.at, h, key, marker, version);
    MovedAccess(s.oauth.tokens.at, m.oauth.tokens.at, h, key, NewAccess(RefreshSource(source), version, accessScope, now), version);
  }

  lemma DroppedKeepsInv(s: Stores, h: History, key: Secret)
    requires Inv(s, h)
    ensures Inv(s.(refresh := s.refresh.(tokens := s.refresh.tokens.Delete(key))), h)
  {
    KeepValid(s.refresh.tokens, s.refresh.tokens.at.Keys - {key});
    FewerTokensKeepInv(s, s.(refresh := s.refresh.(tokens := s.refresh.tokens.Delete(key))), h);
  }

  lemma RotatedKeepsInv(s: Stores, h: History, key: Secret, bound: RefreshToken, version: Id, scope: Scope, hash: Secret -> int, now: int)
    requires Inv(s, h) && key in s.refresh.tokens.at
    requires bound == s.refresh.tokens.at[key].(grant := s.refresh.tokens.at[key].grant.(dpop := bound.grant.dpop))
    ensures var p := Consumed(Moved(s, bound, key, version, scope, now), key, NewMarker(bound, bound.familyExpiresAt, now, scope), hash);
            var h' := SpentHistory(h, key, version);
            Inv(p.stores.(oauth := Touched(p.stores.oauth, bound.grant.client, now)), h'.(revoked := h'.revoked + p.killed))
  {
    var marked := WithMarker(Moved(s, bound, key, version, scope, now), key, NewMarker(bound, bound.familyExpiresAt, now, scope));
    var h' := SpentHistory(h, key, version);
    RotationKeepsInv(s, h, key, bound, version, scope, now);
    PruneKeepsInv(marked, h', hash);
    var p := PrunedReplayState(marked, hash);
    FewerTokensKeepInv(p.stores, p.stores.(oauth := Touched(p.stores.oauth, bound.grant.client, now)),
                       h'.(revoked := h'.revoked + p.killed));
  }

  /** What a rotation does to the stores. */
  lemma RotationEffect(s: Stores, req: Request, server: Server, now: int) returns (bound: RefreshToken, scope: Scope)
    requires req.secret in s.refresh.tokens.at
    requires Rotate(s, s.refresh.tokens.at[req.secret], req, server, now).rotation.Some?
    ensures var record := s.refresh.tokens.at[req.secret];
            bound == record.(grant := record.grant.(dpop := req.dpop))
    ensures Rotate(s, s.refresh.tokens.at[req.secret], req, server, now).rotation == server.tokenVersion
    ensures var e := Rotate(s, s.refresh.tokens.at[req.secret], req, server, now);
            && e.outcome == (if bound.grant.family in e.stores.refresh.revoked.at then FamilyRevoked
                             else Rotated(DerivedPair(e.rotation.value, req.secret), scope))
    ensures var e := Rotate(s, s.refresh.tokens.at[req.secret], req, server, now);
            var p := Consumed(Moved(s, bound, req.secret, e.rotation.value, scope, now), req.secret,
                              NewMarker(bound, bound.familyExpiresAt, now, scope), server.hash);
            && e.stores == p.stores.(oauth := Touched(p.stores.oauth, bound.grant.client, now))
            && e.killed == p.killed && e.revocations == p.revocations
  {
    var verdict := Validate(s.refresh.tokens.at[req.secret], req, server, s.oauth, true);
    bound, scope := verdict.record, verdict.accessScope;
  }

  lemma NoRotationEffect(s: Stores, req: Request, server: Server, now: int)
    requires req.secret in s.refresh.tokens.at
    requires Rotate(s, s.refresh.tokens.at[req.secret], req, server, now).rotation.None?
    ensures var e := Rotate(s, s.refresh.tokens.at[req.secret], req, server, now);
            && e.killed == {} && e.revocations == []
            && (e.outcome.Rejected? || e.outcome.ServerError?)
            && (e.stores == s || e.stores == s.(refresh := s.refresh.(tokens := s.refresh.tokens.Delete(req.secret))))
  {
  }

  lemma RecordedKeepsInv(s: Stores, h: History, h': History, key: Secret, e: Exchange)
    requires e.rotation.None? && !e.outcome.RetryIssued?
    requires h' == h.(revoked := h.revoked + e.killed) && Inv(e.stores, h')
    ensures Inv(e.stores, Recorded(h, e, key))
  {
  }

  lemma RotateKeepsInv(s: Stores, h: History, req: Request, server: Server, now: int)
    requires Inv(s, h) && req.secret in s.refresh.tokens.at
    ensures var e := Rotate(s, s.refresh.tokens.at[req.secret], req, server, now);
            Inv(e.stores, Recorded(h, e, req.secret))
  {
    var e := Rotate(s, s.refresh.tokens.at[req.secret], req, server, now);
    if e.rotation.Some? {
      var bound, scope := RotationEffect(s, req, server, now);
      RotatedKeepsInv(s, h, req.secret, bound, e.rotation.value, scope, server.hash, now);
    } else {
      NoRotationEffect(s, req, server, now);
      DroppedKeepsInv(s, h, req.secret);
      assert h.(revoked := h.revoked + {}) == h by { assert h.revoked + {} == h.revoked; }
      RecordedKeepsInv(s, h, h, req.secret, e);
    }
  }

  // ---- replay ----

  lemma RetryKeepsInv(s: Stores, h: History, key: Secret, client: Id, now: int)
    requires Inv(s, h) && key in s.refresh.consumed.at
    requires s.refresh.consumed.at[key].retry.Some?
    requires s.refresh.consumed.at[key].retry.value.issues < MAX_REFRESH_RETRY_ISSUES
    ensures Inv(Reissued(s, key, s.refresh.consumed.at[key], client, now), RetriedHistory(h, key))
  {
    var marker := s.refresh.consumed.at[key];
    var r, h' := Reissued(s, key, marker, client, now), RetriedHistory(h, key);
    assert MarkerOk(key, marker, h);
    PutValid(s.refresh.consumed, key, r.refresh.consumed.at[key]);
    forall k | k in r.refresh.consumed.at ensures MarkerOk(k, r.refresh.consumed.at[k], h') {
      assert MarkerOk(k, s.refresh.consumed.at[k], h);
    }
  }

  lemma ReplayedKeepsInv(s: Stores, h: History, key: Secret, server: Server)
    requires Inv(s, h) && key in s.refresh.consumed.at
    ensures var e := RevokeReplayed(s, s.refresh.consumed.at[key], server);
            Inv(e.stores, h.(revoked := h.revoked + e.killed))
  {
    var marker := s.refresh.consumed.at[key];
    assert MarkerOk(key, marker, h);
    var revoked, h1 := Revoked(s, marker.family, marker.expiresAt), h.(revoked := h.revoked + {marker.family});
    RevokedKeepsInv(s, h, marker.family, marker.expiresAt);
    PruneKeepsInv(revoked, h1, server.hash);
    var killed := PrunedReplayState(revoked, server.hash).killed;
    assert h.revoked + (killed + {marker.family}) == h.revoked + {marker.family} + killed;
  }

  /** What presenting a consumed secret does: revoke its family, count one more retry, or nothing. */
  lemma ReplayEffect(s: Stores, marker: Marker, req: Request, server: Server, now: int)
    ensures var e := Replay(s, marker, req, server, now);
            && e.rotation.None?
            && (if e.outcome.FamilyRevoked? then e == RevokeReplayed(s, marker, server)
                else if e.outcome.RetryIssued? then
                  && Retryable(marker, now)
                  && e.stores == Reissued(s, req.secret, marker, marker.retry.value.source.grant.client, now)
                  && e.killed == {} && e.revocations == []
                else e.stores == s && e.killed == {} && e.revocations == [])
  {
    hide Validate, PairActive, Reissued, PrunedReplayState;
  }

  lemma ReplayKeepsInv(s: Stores, h: History, req: Request, server: Server, now: int)
    requires Inv(s, h) && req.secret in s.refresh.consumed.at
    ensures var e := Replay(s, s.refresh.consumed.at[req.secret], req, server, now);
            Inv(e.stores, Recorded(h, e, req.secret))
  {
    var marker := s.refresh.consumed.at[req.secret];
    var e := Replay(s, marker, req, server, now);
    ReplayEffect(s, marker, req, server, now);
    if e.outcome.RetryIssued? {
      RetryKeepsInv(s, h, req.secret, marker.retry.value.source.grant.client, now);
      var h' := RetriedHistory(h, req.secret);
      assert h'.(revoked := h'.revoked + {}) == h' by { assert h'.revoked + {} == h'.revoked; }
    } else if e.outcome.FamilyRevoked? {
      ReplayedKeepsInv(s, h, req.secret, server);
      RecordedKeepsInv(s, h, h.(revoked := h.revoked + e.killed), req.secret, e);
    } else {
      assert h.(revoked := h.revoked + {}) == h by { assert h.revoked + {} == h.revoked; }
      RecordedKeepsInv(s, h, h, req.secret, e);
    }
  }

  // ---- a new family, and any step ----

  lemma RedeemKeepsInv(s: Stores, h: History, source: Source, pair: TokenPair, version: Id, now: int)
    requires Inv(s, h)
    requires pair.refresh.Minted? && pair.access.MintedAccess?
    requires pair.refresh !in h.issued && source.grant.family !in h.families
    ensures Inv(Issued(s, source, pair, version, source.scope, now),
                h.(families := h.families[source.grant.family := FamilyOf(source)],
                   issued := h.issued[pair.refresh := source.grant.family]))
  {
    IssuedIsBounded(s, source, pair, version, source.scope, now);
    var r := Issued(s, source, pair, version, source.scope, now);
    var h' := h.(families := h.families[source.grant.family := FamilyOf(source)],
                 issued := h.issued[pair.refresh := source.grant.family]);
    assert HistoryOk(h') by {
      assert pair.refresh !in h.spent;
    }
    NewFamilyTokens(s, h, r, h', source, pair, version, now);
    NewFamilyMarkers(s, h, r, h', source, pair);
  }

  lemma NewFamilyTokens(s: Stores, h: History, r: Stores, h': History, source: Source, pair: TokenPair, version: Id, now: int)
    requires Inv(s, h) && pair.refresh !in h.issued && pair.access.MintedAccess? && source.grant.family !in h.families
    requires h' == h.(families := h.families[source.grant.family := FamilyOf(source)],
                      issued := h.issued[pair.refresh := source.grant.family])
    requires Part(r.refresh.tokens, s.refresh.tokens.Put(pair.refresh, NewRefresh(source, version, now)))
    requires Part(r.oauth.tokens, s.oauth.tokens.Put(pair.access, NewAccess(source, version, source.scope, now)))
    ensures LiveOk(r.refresh.tokens.at, h') && Linear(r.refresh.tokens.at) && AccessOk(r.oauth.tokens.at, h')
  {
    var t := r.refresh.tokens.at;
    forall j, k | j in t && k in t && t[j].grant.family == t[k].grant.family ensures j == k {
      assert j != pair.refresh ==> h.issued[j] in h.families;
      assert k != pair.refresh ==> h.issued[k] in h.families;
    }
  }

  lemma NewFamilyMarkers(s: Stores, h: History, r: Stores, h': History, source: Source, pair: TokenPair)
    requires Inv(s, h) && pair.refresh !in h.issued && source.grant.family !in h.families
    requires h' == h.(families := h.families[source.grant.family := FamilyOf(source)],
                      issued := h.issued[pair.refresh := source.grant.family])
    requires r.refresh.consumed == s.refresh.consumed
    requires forall k :: k in r.refresh.tokens.at ==> k == pair.refresh || k in s.refresh.tokens.at
    ensures MarkersOk(r.refresh.consumed.at, h')
    ensures Remembered(r.refresh.tokens.at, r.refresh.consumed.at, h')
  {
    forall k | k in r.refresh.consumed.at ensures MarkerOk(k, r.refresh.consumed.at[k], h') {
      assert MarkerOk(k, s.refresh.consumed.at[k], h);
    }
    forall k, j | k in h'.spent && k in h'.issued && j in r.refresh.tokens.at && j in h'.issued && h'.issued[j] == h'.issued[k]
      ensures k in r.refresh.consumed.at
    {
      assert h.issued[k] in h.families;
      assert j in s.refresh.tokens.at;
    }
  }

  lemma StepKeepsInv(sys: System, a: Action)
    requires Inv(sys.stores, sys.history) && Enabled(sys, a)
    ensures Inv(Step(sys, a).stores, Step(sys, a).history)
  {
    hide Rotate, Replay, Loaded, Issued, LiveOk, Linear, AccessOk, MarkersOk, Remembered;
    var s, h := sys.stores, sys.history;
    match a
    case Administer(accounts, clients, access, refresh) =>
      KeepValid(s.oauth.tokens, access);
      KeepValid(s.refresh.tokens, refresh);
      FewerTokensKeepInv(s, Step(sys, a).stores, h);
    case Load(now, hash) =>
      LoadKeepsInv(s, h, now, hash);
    case Redeem(grant, scope, pair, version, now) =>
      RedeemKeepsInv(s, h, CodeSource(grant, scope, now), pair, version, now);
    case Refresh(request, server, now, loadedAt, saved) =>
      LoadKeepsInv(s, h, loadedAt, server.hash);
      var p := Loaded(s, loadedAt, server.hash);
      var h1 := h.(revoked := h.revoked + p.killed);
      if request.secret in p.stores.refresh.tokens.at {
        RotateKeepsInv(p.stores, h1, request, server, now);
      } else if request.secret in p.stores.refresh.consumed.at {
        ReplayKeepsInv(p.stores, h1, request, server, now);
      } else {
        assert h1.revoked + {} == h1.revoked;
      }
  }
}
