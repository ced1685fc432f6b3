/**
 * The refresh-token service as it runs: stores read from durable storage, edited in place by loops, and written back
 * only where something changed. Each method is proved against the functions that RefreshRuns reasons about.
 */
module RefreshService {
  import opened Records
  import opened StableSort
  import opened ExpiryPruning
  import opened OAuthStores
  import opened RefreshFamilies
  import opened RefreshExchange
  import opened RefreshBounds

  class OAuthStoreObject {
    var accounts: map<Id, Account>
    var clients: map<Id, Client>
    var tokens: Record<AccessSecret, AccessToken>

    constructor (value: OAuthStore)
      ensures Value() == value
    {
      accounts, clients, tokens := value.accounts, value.clients, value.tokens;
    }

    function Value(): OAuthStore
      reads this
    {
      OAuthStore(accounts, clients, tokens)
    }
  }

  class RefreshStoreObject {
    var tokens: Record<Secret, RefreshToken>
    var consumed: Record<Secret, Marker>
    var revoked: Record<Id, int>

    constructor (value: RefreshStore)
      ensures Value() == value
    {
      tokens, consumed, revoked := value.tokens, value.consumed, value.revoked;
    }

    function Value(): RefreshStore
      reads this
    {
      RefreshStore(tokens, consumed, revoked)
    }
  }

  function Both(oauth: OAuthStoreObject, refresh: RefreshStoreObject): Stores
    reads oauth, refresh
  {
    Stores(oauth.Value(), refresh.Value())
  }

  /** revokeRefreshFamilyRecords */
  method RevokeRefreshFamilyRecords(oauth: OAuthStoreObject, refresh: RefreshStoreObject, family: Id, expiresAt: int)
    requires ValidStores(Both(oauth, refresh))
    modifies oauth`tokens, refresh`tokens, refresh`revoked
    ensures Both(oauth, refresh) == Revoked(old(Both(oauth, refresh)), family, expiresAt)
    ensures ValidStores(Both(oauth, refresh))
  {
    RevokedValid(Both(oauth, refresh), family, expiresAt);
    var ofFamily := (k: Secret, t: RefreshToken) => t.grant.family == family;
    KeepSame(refresh.tokens, Spared(refresh.tokens, ofFamily), set k | k in refresh.tokens.at && refresh.tokens.at[k].grant.family != family);
    refresh.tokens := DeleteWhere(refresh.tokens, ofFamily);
    var accessOfFamily := (k: AccessSecret, t: AccessToken) => t.grant.family == family;
    KeepSame(oauth.tokens, Spared(oauth.tokens, accessOfFamily), set k | k in oauth.tokens.at && oauth.tokens.at[k].grant.family != family);
    oauth.tokens := DeleteWhere(oauth.tokens, accessOfFamily);
    refresh.revoked := refresh.revoked.Put(family, expiresAt);
  }

  /** Evicting `rest` from here still completes the eviction of `victims` from `before`. */
  ghost predicate Pending(before: Stores, victims: seq<Secret>, now: Stores, queued: seq<Authority>, rest: seq<Secret>) {
    && ValidStores(now)
    && Distinct(rest) && Members(rest) <= now.refresh.consumed.at.Keys
    && EvictMarkers(before, victims).stores == EvictMarkers(now, rest).stores
    && EvictMarkers(before, victims).revocations == queued + EvictMarkers(now, rest).revocations
  }

  function AuthorityList(authority: Option<Authority>): seq<Authority> {
    if authority.Some? then [authority.value] else []
  }

  lemma PendingStep(before: Stores, victims: seq<Secret>, now: Stores, queued: seq<Authority>, rest: seq<Secret>)
    requires Pending(before, victims, now, queued, rest) && rest != []
    ensures rest[0] in now.refresh.consumed.at
    ensures var marker := now.refresh.consumed.at[rest[0]];
            Pending(before, victims, EvictOne(now, rest[0]),
                    queued + AuthorityList(FamilyAuthority(MarkerSource(marker), now, marker.family)), rest[1..])
  {
    hide EvictOne, FamilyAuthority, ValidStores;
    assert rest[0] in Members(rest);
    var marker := now.refresh.consumed.at[rest[0]];
    var next, authority := EvictOne(now, rest[0]), AuthorityList(FamilyAuthority(MarkerSource(marker), now, marker.family));
    EvictOneEffect(now, rest[0]);
    assert EvictMarkers(now, rest).stores == EvictMarkers(next, rest[1..]).stores;
    assert queued + (authority + EvictMarkers(next, rest[1..]).revocations) == queued + authority + EvictMarkers(next, rest[1..]).revocations;
    assert next.refresh.consumed.at == now.refresh.consumed.at - {rest[0]};
    forall k | k in rest[1..] ensures k in next.refresh.consumed.at {
      assert k in Members(rest) && k != rest[0];
    }
  }

  /** The first loop of pruneOAuthRefreshReplayState. */
  method EvictExcessMarkers(oauth: OAuthStoreObject, refresh: RefreshStoreObject, hash: Secret -> int)
    returns (changed: bool, revocations: seq<Authority>)
    requires ValidStores(Both(oauth, refresh))
    modifies oauth`tokens, refresh
    ensures var p := EvictMarkers(old(Both(oauth, refresh)), ExcessMarkers(old(refresh.consumed), hash));
            Both(oauth, refresh) == p.stores && revocations == p.revocations
    ensures ValidStores(Both(oauth, refresh))
    ensures !changed ==> Both(oauth, refresh) == old(Both(oauth, refresh)) && revocations == []
  {
    changed, revocations := false, [];
    ghost var before, victims := Both(oauth, refresh), ExcessMarkers(refresh.consumed, hash);
    ExcessIsOldest(refresh.consumed, hash);
    var consumed := Sort(refresh.consumed.order, MarkerAge(refresh.consumed, hash));
    while |consumed| > MAX_CONSUMED_REFRESH_TOKENS
      invariant Pending(before, victims, Both(oauth, refresh), revocations, Excess(consumed, MAX_CONSUMED_REFRESH_TOKENS))
      invariant !changed ==> Both(oauth, refresh) == before && revocations == []
      decreases |consumed|
    {
      var tokenHash := consumed[0];
      PendingStep(before, victims, Both(oauth, refresh), revocations, Excess(consumed, MAX_CONSUMED_REFRESH_TOKENS));
      ghost var s := Both(oauth, refresh);
      var marker := refresh.consumed.at[tokenHash];
      var authority := FamilyAuthority(MarkerSource(marker), Both(oauth, refresh), marker.family);
      revocations := revocations + AuthorityList(authority);
      RevokeRefreshFamilyRecords(oauth, refresh, marker.family, marker.expiresAt);
      refresh.consumed := refresh.consumed.Delete(tokenHash);
      assert Both(oauth, refresh) == EvictOne(s, tokenHash);
      ExcessShift(consumed, MAX_CONSUMED_REFRESH_TOKENS);
      changed, consumed := true, consumed[1..];
    }
  }

  lemma ExcessShift<K>(sorted: seq<K>, cap: nat)
    requires |sorted| > cap
    ensures Excess(sorted, cap)[0] == sorted[0]
    ensures Excess(sorted, cap)[1..] == Excess(sorted[1..], cap)
  {
  }

  /** Its second loop. */
  method DropExcessTombstones(refresh: RefreshStoreObject) returns (changed: bool)
    requires refresh.revoked.Valid()
    modifies refresh`revoked
    ensures refresh.revoked == Without(old(refresh.revoked), Members(ExcessTombstones(old(refresh.revoked))))
    ensures refresh.revoked.Valid()
    ensures !changed ==> refresh.revoked == old(refresh.revoked)
  {
    changed := false;
    var tombstones := refresh.revoked;
    var revoked := Sort(tombstones.order, TombstoneAge(tombstones));
    ghost var gone: set<Id>, rest := {}, ExcessTombstones(tombstones);
    WithoutNothing(tombstones);
    while |revoked| > MAX_REVOKED_REFRESH_FAMILIES
      invariant rest == Excess(revoked, MAX_REVOKED_REFRESH_FAMILIES)
      invariant gone + Members(rest) == Members(ExcessTombstones(tombstones))
      invariant refresh.revoked == Without(tombstones, gone)
      invariant !changed ==> gone == {}
      decreases |revoked|
    {
      var family := revoked[0];
      ExcessShift(revoked, MAX_REVOKED_REFRESH_FAMILIES);
      MembersShift(rest);
      WithoutOneMore(tombstones, gone, family);
      refresh.revoked := refresh.revoked.Delete(family);
      changed, revoked, gone, rest := true, revoked[1..], gone + {family}, rest[1..];
    }
    assert gone == Members(ExcessTombstones(tombstones)) by {
      assert Members(rest) == {};
    }
    KeepValid(tombstones, tombstones.at.Keys - gone);
  }

  lemma MembersShift<K>(s: seq<K>)
    requires s != []
    ensures Members(s) == {s[0]} + Members(s[1..])
  {
    assert s == [s[0]] + s[1..];
  }

  /** pruneOAuthRefreshReplayState */
  method PruneOAuthRefreshReplayState(oauth: OAuthStoreObject, refresh: RefreshStoreObject, hash: Secret -> int)
    returns (changed: bool, revocations: seq<Authority>)
    requires ValidStores(Both(oauth, refresh))
    modifies oauth`tokens, refresh
    ensures var p := PrunedReplayState(old(Both(oauth, refresh)), hash);
            Both(oauth, refresh) == p.stores && revocations == p.revocations
    ensures ValidStores(Both(oauth, refresh))
    ensures !changed ==> Both(oauth, refresh) == old(Both(oauth, refresh)) && revocations == []
  {
    var evicted, dropped: bool;
    evicted, revocations := EvictExcessMarkers(oauth, refresh, hash);
    dropped := DropExcessTombstones(refresh);
    changed := evicted || dropped;
  }

  /** recordConsumedRefreshToken; its callers have checked that the family outlives `consumedAt`. */
  method RecordConsumedRefreshToken(oauth: OAuthStoreObject, refresh: RefreshStoreObject, key: Secret, source: RefreshToken,
                                    expiresAt: int, consumedAt: int, accessScope: Scope, hash: Secret -> int)
    returns (revocations: seq<Authority>)
    requires ValidStores(Both(oauth, refresh))
    modifies oauth`tokens, refresh
    ensures var p := Consumed(old(Both(oauth, refresh)), key, NewMarker(source, expiresAt, consumedAt, accessScope), hash);
            Both(oauth, refresh) == p.stores && revocations == p.revocations
    ensures ValidStores(Both(oauth, refresh))
  {
    PutValid(refresh.consumed, key, NewMarker(source, expiresAt, consumedAt, accessScope));
    refresh.consumed := refresh.consumed.Put(key, NewMarker(source, expiresAt, consumedAt, accessScope));
    var changed;
    changed, revocations := PruneOAuthRefreshReplayState(oauth, refresh, hash);
  }

  /** `at` holds the markers of `kept`, the first `n` of them compacted. */
  ghost predicate Compacting(at: map<Secret, Marker>, kept: Record<Secret, Marker>, now: int, n: nat)
    requires n <= |kept.order|
  {
    && at.Keys == kept.at.Keys
    && forall k :: k in at ==> at[k] == if k in kept.order[..n] then Compacted(kept.at[k], now) else kept.at[k]
  }

  lemma CompactOne(at: map<Secret, Marker>, kept: Record<Secret, Marker>, now: int, n: nat)
    requires kept.Valid() && n < |kept.order| && Compacting(at, kept, now, n)
    ensures kept.order[n] in at && at[kept.order[n]] == kept.at[kept.order[n]]
    ensures Compacting(at[kept.order[n] := Compacted(at[kept.order[n]], now)], kept, now, n + 1)
  {
    var key := kept.order[n];
    hide Compacted;
    assert key in Members(kept.order);
    assert key !in kept.order[..n];
    assert kept.order[..n + 1] == kept.order[..n] + [key];
  }

  lemma CompactedAll(at: map<Secret, Marker>, kept: Record<Secret, Marker>, now: int)
    requires kept.Valid() && Compacting(at, kept, now, |kept.order|)
    ensures at == map k | k in kept.at :: Compacted(kept.at[k], now)
  {
    hide Compacted;
    assert kept.order[..|kept.order|] == kept.order;
    forall k | k in at ensures k in kept.order {
      assert k in Members(kept.order);
    }
  }

  /** The marker loop of loadOAuthRefreshStore: drop expired markers, compact those whose grace is over. */
  method CompactMarkers(consumed: Record<Secret, Marker>, now: int) returns (markers: Record<Secret, Marker>)
    requires consumed.Valid()
    ensures markers == CompactedMarkers(consumed, now)
  {
    var expired := (k: Secret, m: Marker) => m.expiresAt <= now;
    markers := DeleteWhere(consumed, expired);
    KeepSame(consumed, Spared(consumed, expired), set k | k in consumed.at && consumed.at[k].expiresAt > now);
    ghost var kept := markers;
    hide Compacting;
    assert Compacting(markers.at, kept, now, 0) by { NothingCompacted(kept, now); }
    for i := 0 to |markers.order|
      invariant markers.order == kept.order && Compacting(markers.at, kept, now, i)
    {
      var key := markers.order[i];
      CompactOne(markers.at, kept, now, i);
      var marker := markers.at[key];
      if marker.retry.Some? && marker.retry.value.until < now {
        markers := Record(markers.order, markers.at[key := marker.(retry := None)]);
      } else {
        assert markers.at[key := marker] == markers.at;
      }
    }
    CompactedAll(markers.at, kept, now);
  }

  lemma NothingCompacted(kept: Record<Secret, Marker>, now: int)
    ensures Compacting(kept.at, kept, now, 0)
  {
  }

  /** The three expiry loops of loadOAuthRefreshStore. */
  method DropExpired(oauth: OAuthStoreObject, store: RefreshStoreObject, now: int) returns (changed: bool)
    requires ValidStores(Both(oauth, store))
    modifies store
    ensures store.Value() == Expired(old(Both(oauth, store)), now).refresh
    ensures !changed ==> store.Value() == old(store.Value())
  {
    ghost var s := Both(oauth, store);
    var before := store.Value();
    var view := Stores(oauth.Value(), before);
    var unusable := (k: Secret, t: RefreshToken) => !Usable(t, view, now);
    KeepSame(store.tokens, Spared(store.tokens, unusable), set k | k in s.refresh.tokens.at && Usable(s.refresh.tokens.at[k], s, now));
    store.tokens := DeleteWhere(store.tokens, unusable);
    store.consumed := CompactMarkers(store.consumed, now);
    var lapsed := (f: Id, expiresAt: int) => expiresAt <= now;
    KeepSame(store.revoked, Spared(store.revoked, lapsed), set f | f in s.refresh.revoked.at && s.refresh.revoked.at[f] > now);
    store.revoked := DeleteWhere(store.revoked, lapsed);
    changed := store.Value() != before;
  }

  /** The access half: filed, then pruned with its client's and with all. */
  method FileAccessToken(oauth: OAuthStoreObject, key: AccessSecret, token: AccessToken)
    requires oauth.tokens.Valid()
    modifies oauth`tokens
    ensures oauth.tokens == PrunedAccess(old(oauth.tokens).Put(key, token), token.grant.client) && oauth.tokens.Valid()
  {
    hide Pruned, PrunedWithin;
    PutValid(oauth.tokens, key, token);
    oauth.tokens := oauth.tokens.Put(key, token);
    oauth.tokens := PruneClientRecordByExpiry(oauth.tokens, OfClientAccess(token.grant.client), AccessExpiry, MAX_ACCESS_TOKENS_PER_CLIENT);
    oauth.tokens := PruneRecordByExpiry(oauth.tokens, AccessExpiry, MAX_ACCESS_TOKENS);
  }

  /** The refresh half. */
  method FileRefreshToken(refresh: RefreshStoreObject, key: Secret, token: RefreshToken)
    requires refresh.tokens.Valid()
    modifies refresh`tokens
    ensures refresh.tokens == PrunedRefresh(old(refresh.tokens).Put(key, token), token.grant.client) && refresh.tokens.Valid()
  {
    hide Pruned, PrunedWithin;
    PutValid(refresh.tokens, key, token);
    refresh.tokens := refresh.tokens.Put(key, token);
    refresh.tokens := PruneClientRecordByExpiry(refresh.tokens, OfClientRefresh(token.grant.client), RefreshExpiry, MAX_REFRESH_TOKENS_PER_CLIENT);
    refresh.tokens := PruneRecordByExpiry(refresh.tokens, RefreshExpiry, MAX_REFRESH_TOKENS);
  }

  /** issueTokenPair for a source whose family and pair are settled; refused when the family has expired. */
  method IssueTokenPair(oauth: OAuthStoreObject, refresh: RefreshStoreObject, source: Source, pair: TokenPair, version: Id,
                        accessScope: Scope, now: int) returns (issued: bool)
    requires ValidStores(Both(oauth, refresh))
    modifies oauth`tokens, refresh`tokens
    ensures issued <==> source.familyExpiresAt > now
    ensures Both(oauth, refresh) == if issued then Issued(old(Both(oauth, refresh)), source, pair, version, accessScope, now)
                                    else old(Both(oauth, refresh))
    ensures ValidStores(Both(oauth, refresh))
  {
    if source.familyExpiresAt <= now {
      return false;
    }
    hide PrunedAccess, PrunedRefresh;
    FileAccessToken(oauth, pair.access, NewAccess(source, version, accessScope, now));
    FileRefreshToken(refresh, pair.refresh, NewRefresh(source, version, now));
    return true;
  }

  /** Durable storage: the two stores and the queue of authorities the daemon still has to be told about. */
  class DurableStorage {
    var oauth: OAuthStore
    var refresh: RefreshStore
    var queued: seq<Authority>

    function Stored(): Stores
      reads this
    {
      Stores(oauth, refresh)
    }

    /** loadOAuthRefreshStore, with the OAuth store as just read from `this`. */
    method LoadOAuthRefreshStore(oauthStore: OAuthStoreObject, now: int, hash: Secret -> int)
      returns (store: RefreshStoreObject)
      requires ValidStores(Stored()) && oauthStore.Value() == oauth
      modifies this, oauthStore`tokens
      ensures var p := Loaded(old(Stored()), now, hash);
              && Both(oauthStore, store) == p.stores
              && Stored() == p.stores
              && queued == old(queued) + p.revocations
      ensures fresh(store) && ValidStores(Stored())
    {
      hide PrunedReplayState;
      ghost var s := Stored();
      ExpiredValid(s, now);
      store := new RefreshStoreObject(refresh);
      var expired := DropExpired(oauthStore, store, now);
      assert Both(oauthStore, store) == Expired(s, now);
      var pruned, revocations := PruneOAuthRefreshReplayState(oauthStore, store, hash);
      if revocations != [] {
        oauth, refresh, queued := oauthStore.Value(), store.Value(), queued + revocations;
      } else {
        SilentLoadSparesOAuth(s, now, hash);
        if expired || pruned {
          refresh := store.Value();
        }
      }
    }

    /** One committed transaction, or none of it. */
    method Save(oauthStore: OAuthStoreObject, store: RefreshStoreObject, revocations: seq<Authority>, commits: bool)
      returns (saved: bool)
      modifies this
      ensures saved == commits
      ensures Stored() == if commits then Both(oauthStore, store) else old(Stored())
      ensures queued == if commits then old(queued) + revocations else old(queued)
    {
      if commits {
        oauth, refresh, queued := oauthStore.Value(), store.Value(), queued + revocations;
      }
      return commits;
    }

    /**
     * exchangeRefreshToken, under the lock. `commits` tells whether its final transaction goes through; a refused
     * request reaches none.
     */
    method ExchangeRefreshToken(req: Request, server: Server, now: int, loadedAt: int, commits: bool)
      returns (outcome: Outcome)
      requires ValidStores(Stored())
      modifies this
      ensures var p := Loaded(old(Stored()), loadedAt, server.hash);
              var e := Exchanged(p.stores, req, server, now);
              if commits then
                outcome == e.outcome && Stored() == e.stores && queued == old(queued) + p.revocations + e.revocations
              else
                && Stored() == p.stores && queued == old(queued) + p.revocations
                && (e.outcome.Rotated? || e.outcome.RetryIssued? || e.outcome.FamilyRevoked? ==> outcome == ServerError)
    {
      var oauthStore := new OAuthStoreObject(oauth);
      var store := LoadOAuthRefreshStore(oauthStore, loadedAt, server.hash);
      if req.secret in store.tokens.at {
        outcome := RotateToken(oauthStore, store, req, server, now, commits);
      } else if req.secret in store.consumed.at {
        outcome := ReplayToken(oauthStore, store, req, server, now, commits);
      } else {
        outcome := Rejected;
      }
    }

    ghost predicate Freshly(oauthStore: OAuthStoreObject, store: RefreshStoreObject)
      reads this, oauthStore, store
    {
      ValidStores(Stored()) && Both(oauthStore, store) == Stored()
    }

    /** What an exchange must leave in storage. */
    twostate predicate Performed(e: Exchange, outcome: Outcome, commits: bool)
      reads this
    {
      && (commits ==> outcome == e.outcome && Stored() == e.stores && queued == old(queued) + e.revocations)
      && (!commits ==> Stored() == old(Stored()) && queued == old(queued)
                       && ((e.outcome.Rotated? || e.outcome.RetryIssued? || e.outcome.FamilyRevoked?) ==> outcome == ServerError))
    }

    /** The live half of exchangeRefreshToken. */
    method RotateToken(oauthStore: OAuthStoreObject, store: RefreshStoreObject, req: Request, server: Server, now: int, commits: bool)
      returns (outcome: Outcome)
      requires Freshly(oauthStore, store) && req.secret in store.tokens.at
      modifies this, oauthStore, store
      ensures Performed(Rotate(old(Stored()), old(store.tokens.at[req.secret]), req, server, now), outcome, commits)
    {
      hide Authorized, ScopeSubset, Issued, PrunedReplayState;
      var verdict := Validate(store.tokens.at[req.secret], req, server, oauthStore.Value(), true);
      if verdict.Refused? {
        return Rejected;
      }
      if verdict.Unconfigured? {
        return ServerError;
      }
      if req.dpop.Some? && !req.dpopUnused {
        return Rejected;
      }
      var record, version := verdict.record, server.tokenVersion.value;
      var pair := DerivedPair(version, req.secret);
      var issued := IssueTokenPair(oauthStore, store, RefreshSource(record), pair, version, verdict.accessScope, now);
      KeepValid(store.tokens, store.tokens.at.Keys - {req.secret});
      store.tokens := store.tokens.Delete(req.secret);
      if !issued {
        var saved := Save(oauthStore, store, [], commits);
        return if saved then Rejected else ServerError;
      }
      var revocations := RecordConsumedRefreshToken(oauthStore, store, req.secret, record, record.familyExpiresAt, now,
                                                    verdict.accessScope, server.hash);
      oauthStore.clients := Touched(oauthStore.Value(), record.grant.client, now).clients;
      var saved := Save(oauthStore, store, revocations, commits);
      if !saved {
        return ServerError;
      }
      return if record.grant.family in store.revoked.at then FamilyRevoked else Rotated(pair, verdict.accessScope);
    }

    /** The consumed half. */
    method ReplayToken(oauthStore: OAuthStoreObject, store: RefreshStoreObject, req: Request, server: Server, now: int, commits: bool)
      returns (outcome: Outcome)
      requires Freshly(oauthStore, store) && req.secret in store.consumed.at
      modifies this, oauthStore, store
      ensures Performed(Replay(old(Stored()), old(store.consumed.at[req.secret]), req, server, now), outcome, commits)
    {
      hide PairActive, PrunedReplayState, FamilyAuthority, Revoked;
      var marker := store.consumed.at[req.secret];
      if marker.expiresAt <= now || marker.family in store.revoked.at {
        return Rejected;
      }
      var unavailable := false;
      if Retryable(marker, now) {
        var retry := marker.retry.value;
        var verdict := Validate(retry.source, req, server, oauthStore.Value(), false);
        if verdict.Refused? {
          return Rejected;
        }
        if verdict.Unconfigured? {
          return ServerError;
        }
        if verdict.accessScope != retry.accessScope {
          return Rejected;
        }
        var pair := DerivedPair(server.tokenVersion.value, req.secret);
        if PairActive(pair, retry.source, marker.family, retry.accessScope, Both(oauthStore, store), now) {
          if req.dpop.Some? && !req.dpopUnused {
            return Rejected;
          }
          store.consumed := store.consumed.Put(req.secret, marker.(retry := Some(retry.(issues := retry.issues + 1))));
          oauthStore.clients := Touched(oauthStore.Value(), retry.source.grant.client, now).clients;
          var saved := Save(oauthStore, store, [], commits);
          return if saved then RetryIssued(pair, retry.accessScope) else ServerError;
        }
        unavailable := true;
      }
      if !unavailable && marker.retry.Some? && marker.retry.value.until >= now
         && marker.retry.value.issues >= MAX_REFRESH_RETRY_ISSUES {
        return RetryExhausted;
      }
      var authority := FamilyAuthority(MarkerSource(marker), Both(oauthStore, store), marker.family);
      RevokeRefreshFamilyRecords(oauthStore, store, marker.family, marker.expiresAt);
      var changed, dropped := PruneOAuthRefreshReplayState(oauthStore, store, server.hash);
      var saved := Save(oauthStore, store, AuthorityList(authority), commits);
      return if saved then FamilyRevoked else ServerError;
    }
  }
}
