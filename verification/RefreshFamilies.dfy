/** Refresh-token families: src/worker/oauth-refresh-families.ts and src/worker/oauth-refresh-authority.ts. */
module RefreshFamilies {
  import opened Records
  import opened StableSort
  import opened OAuthStores

  // ---- revoking a family ----

  function WithoutAccess(tokens: Record<AccessSecret, AccessToken>, family: Id): Record<AccessSecret, AccessToken> {
    tokens.Keep(set k | k in tokens.at && tokens.at[k].grant.family != family)
  }

  function WithoutRefresh(tokens: Record<Secret, RefreshToken>, family: Id): Record<Secret, RefreshToken> {
    tokens.Keep(set k | k in tokens.at && tokens.at[k].grant.family != family)
  }

  /** No token of `family` remains in either store, and its tombstone stands until `expiresAt`. */
  function Revoked(s: Stores, family: Id, expiresAt: int): Stores {
    Stores(
      s.oauth.(tokens := WithoutAccess(s.oauth.tokens, family)),
      s.refresh.(tokens := WithoutRefresh(s.refresh.tokens, family), revoked := s.refresh.revoked.Put(family, expiresAt)))
  }

  lemma RevokedValid(s: Stores, family: Id, expiresAt: int)
    requires ValidStores(s)
    ensures ValidStores(Revoked(s, family, expiresAt))
  {
    KeepValid(s.oauth.tokens, set k | k in s.oauth.tokens.at && s.oauth.tokens.at[k].grant.family != family);
    KeepValid(s.refresh.tokens, set k | k in s.refresh.tokens.at && s.refresh.tokens.at[k].grant.family != family);
    PutValid(s.refresh.revoked, family, expiresAt);
  }

  function FirstWhere<K(==)>(keys: seq<K>, wanted: K -> bool): (r: Option<K>)
    ensures r.Some? ==> r.value in keys && wanted(r.value)
    ensures r.None? ==> forall k :: k in keys ==> !wanted(k)
  {
    if keys == [] then None
    else if wanted(keys[0]) then Some(keys[0])
    else FirstWhere(keys[1..], wanted)
  }

  function AuthorityOf(g: Grant, family: Id): Authority {
    Authority(g.account, g.accountVersion, g.client, family)
  }

  /** Whose authority the family carried: its marker's source, else its first refresh token, else its first access token. */
  function FamilyAuthority(source: Option<RefreshToken>, s: Stores, family: Id): Option<Authority> {
    var refresh := s.refresh.tokens;
    var access := s.oauth.tokens;
    if source.Some? then Some(AuthorityOf(source.value.grant, family))
    else
      match FirstWhere(refresh.order, k => k in refresh.at && refresh.at[k].grant.family == family)
      case Some(k) => Some(AuthorityOf(refresh.at[k].grant, family))
      case None =>
        match FirstWhere(access.order, k => k in access.at && access.at[k].grant.family == family)
        case Some(k) => Some(AuthorityOf(access.at[k].grant, family))
        case None => None
  }

  // ---- bounded replay state ----

  /** What pruning leaves, the authorities it queues for revocation, and the families it revoked on the way. */
  datatype Pruning = Pruning(stores: Stores, revocations: seq<Authority>, killed: set<Id>)

  function MarkerSource(m: Marker): Option<RefreshToken> {
    if m.retry.Some? then Some(m.retry.value.source) else None
  }

  /** Evicting a marker first revokes the whole family it belongs to. */
  function EvictOne(s: Stores, victim: Secret): Stores
    requires victim in s.refresh.consumed.at
  {
    var marker := s.refresh.consumed.at[victim];
    var revoked := Revoked(s, marker.family, marker.expiresAt);
    revoked.(refresh := revoked.refresh.(consumed := revoked.refresh.consumed.Delete(victim)))
  }

  function EvictMarkers(s: Stores, victims: seq<Secret>): Pruning
    decreases |victims|
  {
    if victims == [] || victims[0] !in s.refresh.consumed.at then Pruning(s, [], {})
    else
      var marker := s.refresh.consumed.at[victims[0]];
      var authority := FamilyAuthority(MarkerSource(marker), s, marker.family);
      var rest := EvictMarkers(EvictOne(s, victims[0]), victims[1..]);
      Pruning(rest.stores, (if authority.Some? then [authority.value] else []) + rest.revocations,
              {marker.family} + rest.killed)
  }

  /** The front of `sorted` that `while (sorted.length > cap) sorted.shift()` removes. */
  function Excess<K>(sorted: seq<K>, cap: nat): seq<K> {
    if |sorted| > cap then sorted[..|sorted| - cap] else []
  }

  /** Oldest marker first; equal times in the order of their hashes. */
  function MarkerAge(consumed: Record<Secret, Marker>, hash: Secret -> int): Secret -> Rank {
    k => (if k in consumed.at then consumed.at[k].consumedAt else 0, hash(k))
  }

  function TombstoneAge(revoked: Record<Id, int>): Id -> Rank {
    k => (if k in revoked.at then revoked.at[k] else 0, k)
  }

  function ExcessMarkers(consumed: Record<Secret, Marker>, hash: Secret -> int): seq<Secret> {
    Excess(Sort(consumed.order, MarkerAge(consumed, hash)), MAX_CONSUMED_REFRESH_TOKENS)
  }

  function ExcessTombstones(revoked: Record<Id, int>): seq<Id> {
    Excess(Sort(revoked.order, TombstoneAge(revoked)), MAX_REVOKED_REFRESH_FAMILIES)
  }

  function PrunedReplayState(s: Stores, hash: Secret -> int): Pruning {
    var evicted := EvictMarkers(s, ExcessMarkers(s.refresh.consumed, hash));
    var refresh := evicted.stores.refresh;
    evicted.(stores := evicted.stores.(refresh :=
      refresh.(revoked := Without(refresh.revoked, Members(ExcessTombstones(refresh.revoked))))))
  }

  /** revokeOAuthRefreshFamily */
  function RevokedAndPruned(s: Stores, family: Id, expiresAt: int, hash: Secret -> int): Pruning {
    var p := PrunedReplayState(Revoked(s, family, expiresAt), hash);
    p.(killed := p.killed + {family})
  }

  /** recordConsumedRefreshToken: file the marker with a full retry allowance, then prune. */
  function NewMarker(source: RefreshToken, expiresAt: int, consumedAt: int, accessScope: Scope): Marker {
    var grace := consumedAt + OAUTH_REFRESH_RETRY_GRACE_SECONDS;
    Marker(source.grant.family, consumedAt, expiresAt,
           Some(Retry(if expiresAt < grace then expiresAt else grace, 0, source, accessScope)))
  }

  function WithMarker(s: Stores, key: Secret, marker: Marker): Stores {
    s.(refresh := s.refresh.(consumed := s.refresh.consumed.Put(key, marker)))
  }

  function Consumed(s: Stores, key: Secret, marker: Marker, hash: Secret -> int): Pruning {
    PrunedReplayState(WithMarker(s, key, marker), hash)
  }

  // ---- loading ----

  /** A refresh token that loading keeps: unexpired, of an unrevoked family, under the same account authority. */
  predicate Usable(t: RefreshToken, s: Stores, now: int) {
    && t.expiresAt > now
    && t.familyExpiresAt > now
    && t.grant.family !in s.refresh.revoked.at
    && t.grant.account in s.oauth.accounts
    && (var account := s.oauth.accounts[t.grant.account];
        account.active && account.version == t.grant.accountVersion && account.role == t.grant.role)
    && t.grant.client in s.oauth.clients
  }

  /** Once its grace is over a marker keeps nothing but its identity. */
  function Compacted(m: Marker, now: int): Marker {
    if m.retry.Some? && m.retry.value.until < now then m.(retry := None) else m
  }

  function CompactedMarkers(consumed: Record<Secret, Marker>, now: int): Record<Secret, Marker> {
    var kept := consumed.Keep(set k | k in consumed.at && consumed.at[k].expiresAt > now);
    Record(kept.order, map k | k in kept.at :: Compacted(kept.at[k], now))
  }

  function Expired(s: Stores, now: int): Stores {
    s.(refresh := RefreshStore(
      s.refresh.tokens.Keep(set k | k in s.refresh.tokens.at && Usable(s.refresh.tokens.at[k], s, now)),
      CompactedMarkers(s.refresh.consumed, now),
      s.refresh.revoked.Keep(set f | f in s.refresh.revoked.at && s.refresh.revoked.at[f] > now)))
  }

  /** loadOAuthRefreshStore */
  function Loaded(s: Stores, now: int, hash: Secret -> int): Pruning {
    PrunedReplayState(Expired(s, now), hash)
  }

  lemma ExpiredValid(s: Stores, now: int)
    requires ValidStores(s)
    ensures ValidStores(Expired(s, now))
    ensures Expired(s, now).refresh.consumed.at.Keys <= s.refresh.consumed.at.Keys
  {
    var unexpired := set k | k in s.refresh.consumed.at && s.refresh.consumed.at[k].expiresAt > now;
    KeepValid(s.refresh.tokens, set k | k in s.refresh.tokens.at && Usable(s.refresh.tokens.at[k], s, now));
    KeepValid(s.refresh.consumed, unexpired);
    KeepValid(s.refresh.revoked, set f | f in s.refresh.revoked.at && s.refresh.revoked.at[f] > now);
    assert Expired(s, now).refresh.consumed.at.Keys == s.refresh.consumed.Keep(unexpired).at.Keys;
  }
}
