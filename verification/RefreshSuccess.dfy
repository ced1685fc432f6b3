/** What an answer of success is worth: exactly when the pair it hands out still stands once the caps were enforced. */
module RefreshSuccess {
  import opened Records
  import opened StableSort
  import opened ExpiryPruning
  import opened OAuthStores
  import opened RefreshFamilies
  import opened RefreshExchange
  import opened RefreshRuns
  import opened RefreshBounds
  import opened RefreshGuarantees

  // ---- issuing ----

  /** Few enough refresh tokens, of the client and in all, expire at `at` or later. */
  ghost predicate RefreshRoom(tokens: Record<Secret, RefreshToken>, client: Id, at: int) {
    && |OwnedOutlasting(tokens, OfClientRefresh(client), RefreshExpiry, at)| < MAX_REFRESH_TOKENS_PER_CLIENT
    && |Outlasting(tokens, RefreshExpiry, at)| < MAX_REFRESH_TOKENS
  }

  ghost predicate AccessRoom(tokens: Record<AccessSecret, AccessToken>, client: Id, at: int) {
    && |OwnedOutlasting(tokens, OfClientAccess(client), AccessExpiry, at)| < MAX_ACCESS_TOKENS_PER_CLIENT
    && |Outlasting(tokens, AccessExpiry, at)| < MAX_ACCESS_TOKENS
  }

  /**
   * Either half of a newly issued pair is there afterwards exactly when few enough older tokens of its table expire no
   * earlier than it does. An older token that expires at the same second is kept in its stead.
   */
  lemma IssuedSurvives(s: Stores, source: Source, pair: TokenPair, version: Id, accessScope: Scope, now: int)
    requires ValidStores(s) && pair.refresh !in s.refresh.tokens.at && pair.access !in s.oauth.tokens.at
    ensures var r, client := Issued(s, source, pair, version, accessScope, now), source.grant.client;
            && (pair.refresh in r.refresh.tokens.at
                <==> RefreshRoom(s.refresh.tokens, client, NewRefresh(source, version, now).expiresAt))
            && (pair.access in r.oauth.tokens.at
                <==> AccessRoom(s.oauth.tokens, client, now + ACCESS_TOKEN_TTL_SECONDS))
  {
    hide PrunedTwice, Outlasting, OwnedOutlasting;
    var client := source.grant.client;
    var access, refresh := NewAccess(source, version, accessScope, now), NewRefresh(source, version, now);
    FiledSurvives(s.oauth.tokens, pair.access, access, OfClientAccess(client), AccessExpiry,
                  MAX_ACCESS_TOKENS_PER_CLIENT, MAX_ACCESS_TOKENS);
    FiledSurvives(s.refresh.tokens, pair.refresh, refresh, OfClientRefresh(client), RefreshExpiry,
                  MAX_REFRESH_TOKENS_PER_CLIENT, MAX_REFRESH_TOKENS);
  }

  // ---- rotating ----

  /** The presented token as it is bound to the caller's key. */
  function Bound(t: RefreshToken, req: Request): RefreshToken {
    t.(grant := t.grant.(dpop := req.dpop))
  }

  /** The expiry of the token that replaces `t`, which that of its family clips. */
  function NextExpiry(t: RefreshToken, now: int): int {
    NewRefresh(RefreshSource(t), 0, now).expiresAt
  }

  /** The markers once the presented secret is marked consumed, before any of them is evicted. */
  function MarkedAfter(s: Stores, t: RefreshToken, req: Request, scope: Scope, now: int): Record<Secret, Marker> {
    s.refresh.consumed.Put(req.secret, NewMarker(Bound(t, req), t.familyExpiresAt, now, scope))
  }

  /** Some marker of the family, maybe the one just filed, is among the oldest beyond the cap. */
  ghost predicate FamilyEvicted(markers: Record<Secret, Marker>, hash: Secret -> int, family: Id) {
    family in FamiliesOf(markers, ExcessMarkers(markers, hash))
  }

  /** A rotation before its final prune, in the terms of the state it started from. */
  lemma RotationBeforePrune(s: Stores, h: History, req: Request, server: Server, now: int) returns (marked: Stores, scope: Scope)
    requires Inv(s, h) && req.secret in s.refresh.tokens.at
    requires Rotate(s, s.refresh.tokens.at[req.secret], req, server, now).rotation.Some?
    ensures var t, e := s.refresh.tokens.at[req.secret], Rotate(s, s.refresh.tokens.at[req.secret], req, server, now);
            var pair := DerivedPair(e.rotation.value, req.secret);
            && ValidStores(marked)
            && marked.refresh.consumed == MarkedAfter(s, t, req, scope, now)
            && marked.refresh.revoked == s.refresh.revoked
            && (pair.refresh in marked.refresh.tokens.at <==> RefreshRoom(s.refresh.tokens, t.grant.client, NextExpiry(t, now)))
            && (pair.access in marked.oauth.tokens.at
                <==> AccessRoom(s.oauth.tokens, t.grant.client, now + ACCESS_TOKEN_TTL_SECONDS))
            && (pair.refresh in marked.refresh.tokens.at ==> marked.refresh.tokens.at[pair.refresh].grant.family == t.grant.family)
            && (pair.access in marked.oauth.tokens.at ==> marked.oauth.tokens.at[pair.access].grant.family == t.grant.family)
            && req.secret !in marked.refresh.tokens.at
            && e.stores.refresh == PrunedReplayState(marked, server.hash).stores.refresh
            && e.stores.oauth.tokens == PrunedReplayState(marked, server.hash).stores.oauth.tokens
            && e.outcome == (if t.grant.family in e.stores.refresh.revoked.at then FamilyRevoked else Rotated(pair, scope))
  {
    hide Issued, PrunedReplayState, RefreshRoom, AccessRoom;
    var e := Rotate(s, s.refresh.tokens.at[req.secret], req, server, now);
    var bound;
    bound, scope := RotationEffect(s, req, server, now);
    var version, pair := e.rotation.value, DerivedPair(e.rotation.value, req.secret);
    SpentHistoryOk(h, req.secret, version);
    IssuedSurvives(s, RefreshSource(bound), pair, version, scope, now);
    MovedTokens(s, bound, req.secret, version, scope, now);
    marked := WithMarker(Moved(s, bound, req.secret, version, scope, now), req.secret, NewMarker(bound, bound.familyExpiresAt, now, scope));
    RotationKeepsInv(s, h, req.secret, bound, version, scope, now);
  }

  lemma PruneEffect(s: Stores, hash: Secret -> int)
    requires ValidStores(s)
    ensures var p, victims := PrunedReplayState(s, hash), ExcessMarkers(s.refresh.consumed, hash);
            && p.killed == FamiliesOf(s.refresh.consumed, victims)
            && p.stores.refresh.tokens.at == SparedRefresh(s.refresh.tokens.at, p.killed)
            && p.stores.oauth.tokens.at == SparedAccess(s.oauth.tokens.at, p.killed)
            && p.stores.refresh.consumed.at == s.refresh.consumed.at - Members(victims)
  {
    ExcessIsOldest(s.refresh.consumed, hash);
    EvictionEffect(s, ExcessMarkers(s.refresh.consumed, hash));
  }

  /**
   * From `s`, where `req` presents a live token, to `s'`: a half of the handed-out pair is there exactly when few
   * enough tokens of its table expire no earlier and no marker of the family was evicted.
   */
  ghost predicate PairFate(s: Stores, s': Stores, req: Request, hash: Secret -> int, now: int, pair: TokenPair, scope: Scope)
    requires req.secret in s.refresh.tokens.at
  {
    var t := s.refresh.tokens.at[req.secret];
    var markers := MarkedAfter(s, t, req, scope, now);
    var client, evicted := t.grant.client, FamilyEvicted(markers, hash, t.grant.family);
    && (pair.refresh in s'.refresh.tokens.at <==> RefreshRoom(s.refresh.tokens, client, NextExpiry(t, now)) && !evicted)
    && (pair.access in s'.oauth.tokens.at <==> AccessRoom(s.oauth.tokens, client, now + ACCESS_TOKEN_TTL_SECONDS) && !evicted)
    && req.secret !in s'.refresh.tokens.at
    && (req.secret in s'.refresh.consumed.at <==> req.secret !in ExcessMarkers(markers, hash))
  }

  lemma RotatedPairFate(s: Stores, h: History, req: Request, server: Server, now: int)
    requires Inv(s, h) && Exchanged(s, req, server, now).outcome.Rotated?
    ensures req.secret in s.refresh.tokens.at
    ensures var e := Exchanged(s, req, server, now);
            PairFate(s, e.stores, req, server.hash, now, e.outcome.pair, e.outcome.scope)
  {
    hide Rotate, Inv, RefreshRoom, AccessRoom, ExcessMarkers, PrunedReplayState;
    ExchangeRotates(s, h, req, server, now);
    var marked, scope := RotationBeforePrune(s, h, req, server, now);
    PruneEffect(marked, server.hash);
    assert req.secret in marked.refresh.consumed.at;
    var victims := ExcessMarkers(marked.refresh.consumed, server.hash);
    assert req.secret in Members(victims) <==> req.secret in victims;
  }

  /** In every run, that decides for each answer of success whether its pair is live. */
  lemma SuccessIsLiveIff(actions: seq<Action>, a: Action)
    requires Possible(GENESIS, actions) && a.Refresh?
    requires Response(Run(GENESIS, actions), a).Rotated?
    ensures var sys := Run(GENESIS, actions);
            var s, answer := AfterLoad(sys, a.loadedAt, a.server.hash).stores, Response(sys, a);
            && a.request.secret in s.refresh.tokens.at
            && PairFate(s, Step(sys, a).stores, a.request, a.server.hash, a.now, answer.pair, answer.scope)
  {
    hide Exchanged, Loaded, Inv, PairFate;
    var loaded := AfterLoad(Run(GENESIS, actions), a.loadedAt, a.server.hash);
    ReachableLoad(actions, a.loadedAt, a.server.hash);
    RotatedPairFate(loaded.stores, loaded.history, a.request, a.server, a.now);
  }

  // ---- a success that signs out ----

  /** Where a marker of the family was evicted, nothing of the family is left, whatever the answer. */
  lemma EvictedIsSignedOut(s: Stores, h: History, req: Request, server: Server, now: int)
    requires Inv(s, h) && Exchanged(s, req, server, now).outcome.Rotated? && req.secret in s.refresh.tokens.at
    requires var t := s.refresh.tokens.at[req.secret];
             FamilyEvicted(MarkedAfter(s, t, req, Exchanged(s, req, server, now).outcome.scope, now), server.hash, t.grant.family)
    ensures NoTokenOf(Exchanged(s, req, server, now).stores, s.refresh.tokens.at[req.secret].grant.family)
  {
    hide Rotate, Inv, RefreshRoom, AccessRoom, ExcessMarkers, PrunedReplayState;
    ExchangeRotates(s, h, req, server, now);
    var marked, scope := RotationBeforePrune(s, h, req, server, now);
    PruneEffect(marked, server.hash);
  }

  /** An overflow by one removes the one element that comes before all others. */
  lemma LeastOverflows<K>(keys: seq<K>, least: K, rank: K -> Rank, cap: nat)
    requires Distinct(keys) && |keys| == cap + 1 && least in keys
    requires forall k :: k in keys && k != least ==> Less(rank(least), rank(k))
    ensures Excess(Sort(keys, rank), cap) == [least]
  {
    var sorted := Sort(keys, rank);
    SortSorts(keys, rank);
    SamePermutation(keys, sorted);
    assert least in Members(sorted) && sorted[0] in Members(sorted);
    var i :| 0 <= i < |sorted| && sorted[i] == least;
    assert sorted[0] in keys;
    assert sorted[0] == least;
  }

  /** The marker that `req` files will be the oldest one, though it is the newest: it loses a tie of times by its hash. */
  ghost predicate OldestMarker(c: Record<Secret, Marker>, key: Secret, now: int, hash: Secret -> int) {
    forall k :: k in c.at ==> now < c.at[k].consumedAt || (now == c.at[k].consumedAt && hash(key) < hash(k))
  }

  ghost predicate FirstTombstone(revoked: Record<Id, int>, family: Id, expiresAt: int) {
    forall f :: f in revoked.at ==> expiresAt < revoked.at[f] || (expiresAt == revoked.at[f] && family < f)
  }

  lemma OverflowByOne<K, V>(r: Record<K, V>, k: K, v: V, rank: K -> Rank, cap: nat)
    requires r.Valid() && k !in r.at && |r.at| == cap
    requires forall q :: q in r.at ==> Less(rank(k), rank(q))
    ensures Excess(Sort(r.Put(k, v).order, rank), cap) == [k]
  {
    var filed := r.Put(k, v);
    PutValid(r, k, v);
    DistinctSize(r.order);
    assert |r.at| == |r.at.Keys|;
    assert filed.order[|r.order|] == k;
    forall q | q in filed.order && q != k ensures Less(rank(k), rank(q)) {
      assert q in Members(filed.order);
    }
    LeastOverflows(filed.order, k, rank, cap);
  }

  /**
   * With both caps full, the presented secret's own marker can be the oldest and its family's tombstone the first to
   * expire. Then the prune that signs the family out also drops the tombstone, and the answer is still a success.
   */
  lemma EvictedWithoutTrace(s: Stores, h: History, req: Request, server: Server, now: int)
    requires Inv(s, h) && req.secret in s.refresh.tokens.at
    requires Exchanged(s, req, server, now).rotation.Some?
    requires |s.refresh.consumed.at| == MAX_CONSUMED_REFRESH_TOKENS && OldestMarker(s.refresh.consumed, req.secret, now, server.hash)
    requires |s.refresh.revoked.at| == MAX_REVOKED_REFRESH_FAMILIES
    requires var t := s.refresh.tokens.at[req.secret]; FirstTombstone(s.refresh.revoked, t.grant.family, t.familyExpiresAt)
    ensures var e := Exchanged(s, req, server, now);
            e.outcome.Rotated? && NoTokenOf(e.stores, s.refresh.tokens.at[req.secret].grant.family)
  {
    hide Rotate, RefreshRoom, AccessRoom;
    var t, key := s.refresh.tokens.at[req.secret], req.secret;
    var marked, scope := RotationBeforePrune(s, h, req, server, now);
    UnmarkedAndUnrevoked(s, h, key);
    hide Inv;
    var consumed, marker := marked.refresh.consumed, NewMarker(Bound(t, req), t.familyExpiresAt, now, scope);
    OverflowByOne(s.refresh.consumed, key, marker, MarkerAge(consumed, server.hash), MAX_CONSUMED_REFRESH_TOKENS);
    OnlyTombstone(marked, key, server.hash);
    PruneEffect(marked, server.hash);
  }

  lemma UnmarkedAndUnrevoked(s: Stores, h: History, key: Secret)
    requires Inv(s, h) && key in s.refresh.tokens.at
    ensures ValidStores(s) && key !in s.refresh.consumed.at
    ensures s.refresh.tokens.at[key].grant.family !in s.refresh.revoked.at
  {
  }

  /** Evicting that one marker leaves no tombstone for its family. */
  lemma OnlyTombstone(s: Stores, key: Secret, hash: Secret -> int)
    requires ValidStores(s) && key in s.refresh.consumed.at && ExcessMarkers(s.refresh.consumed, hash) == [key]
    requires var m := s.refresh.consumed.at[key];
             && m.family !in s.refresh.revoked.at && |s.refresh.revoked.at| == MAX_REVOKED_REFRESH_FAMILIES
             && FirstTombstone(s.refresh.revoked, m.family, m.expiresAt)
    ensures s.refresh.consumed.at[key].family !in PrunedReplayState(s, hash).stores.refresh.revoked.at
    ensures s.refresh.consumed.at[key].family in FamiliesOf(s.refresh.consumed, ExcessMarkers(s.refresh.consumed, hash))
  {
    var m, evicted := s.refresh.consumed.at[key], EvictOne(s, key);
    assert [key][1..] == [];
    assert EvictMarkers(s, [key]).stores == EvictMarkers(evicted, []).stores == evicted;
    var tombstones := evicted.refresh.revoked;
    OverflowByOne(s.refresh.revoked, m.family, m.expiresAt, TombstoneAge(tombstones), MAX_REVOKED_REFRESH_FAMILIES);
    assert m.family in Members([m.family]);
    assert key in [key];
  }
}
