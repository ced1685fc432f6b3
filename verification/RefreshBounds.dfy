/** What the caps of the refresh-token service cost: which entries pruning takes, and when it takes none. */
module RefreshBounds {
  import opened Records
  import opened StableSort
  import opened ExpiryPruning
  import opened OAuthStores
  import opened RefreshFamilies
  import opened RefreshExchange

  // ---- eviction ----

  ghost function FamiliesOf(consumed: Record<Secret, Marker>, victims: seq<Secret>): set<Id> {
    set k | k in victims && k in consumed.at :: consumed.at[k].family
  }

  ghost function SparedRefresh(t: map<Secret, RefreshToken>, killed: set<Id>): map<Secret, RefreshToken> {
    map k | k in t && t[k].grant.family !in killed :: t[k]
  }

  ghost function SparedAccess(t: map<AccessSecret, AccessToken>, killed: set<Id>): map<AccessSecret, AccessToken> {
    map k | k in t && t[k].grant.family !in killed :: t[k]
  }

  /** From `s` to `s'` the markers in `gone` went, and with them the tokens, of both kinds, of the families in `killed`. */
  ghost predicate Evicted(s: Stores, s': Stores, gone: set<Secret>, killed: set<Id>) {
    && s'.refresh.consumed.at == s.refresh.consumed.at - gone
    && s'.refresh.tokens.at == SparedRefresh(s.refresh.tokens.at, killed)
    && s'.oauth.tokens.at == SparedAccess(s.oauth.tokens.at, killed)
    && s'.refresh.revoked.at.Keys == s.refresh.revoked.at.Keys + killed
  }

  /**
   * Evicting markers removes exactly the victims, and with them exactly the tokens, of both kinds, of their families;
   * each of those families gets a tombstone.
   */
  lemma {:induction false} EvictionEffect(s: Stores, victims: seq<Secret>)
    requires ValidStores(s) && Distinct(victims) && Members(victims) <= s.refresh.consumed.at.Keys
    ensures ValidStores(EvictMarkers(s, victims).stores)
    ensures EvictMarkers(s, victims).killed == FamiliesOf(s.refresh.consumed, victims)
    ensures Evicted(s, EvictMarkers(s, victims).stores, Members(victims), EvictMarkers(s, victims).killed)
    decreases |victims|
  {
    if victims == [] {
      assert SparedRefresh(s.refresh.tokens.at, {}) == s.refresh.tokens.at;
      assert SparedAccess(s.oauth.tokens.at, {}) == s.oauth.tokens.at;
    } else {
      var first, others := victims[0], victims[1..];
      assert victims == [first] + others && first in Members(victims);
      EvictOneEffect(s, first);
      OthersRemain(s, victims);
      EvictionEffect(EvictOne(s, first), others);
      EvictionStep(s, first, others);
    }
  }

  lemma OthersRemain(s: Stores, victims: seq<Secret>)
    requires Distinct(victims) && Members(victims) <= s.refresh.consumed.at.Keys && victims != []
    requires EvictOne(s, victims[0]).refresh.consumed.at == s.refresh.consumed.at - {victims[0]}
    ensures Distinct(victims[1..]) && victims[0] !in victims[1..]
    ensures Members(victims[1..]) <= EvictOne(s, victims[0]).refresh.consumed.at.Keys
  {
    hide EvictOne;
    forall k | k in victims[1..] ensures k in EvictOne(s, victims[0]).refresh.consumed.at {
      assert k in Members(victims) && k != victims[0];
    }
  }

  lemma EvictionStep(s: Stores, first: Secret, others: seq<Secret>)
    requires first in s.refresh.consumed.at && first !in others
    requires var next := EvictOne(s, first);
             var p := EvictMarkers(next, others);
             && Evicted(s, next, {first}, {s.refresh.consumed.at[first].family})
             && ValidStores(p.stores) && p.killed == FamiliesOf(next.refresh.consumed, others)
             && Evicted(next, p.stores, Members(others), p.killed)
    ensures ValidStores(EvictMarkers(s, [first] + others).stores)
    ensures EvictMarkers(s, [first] + others).killed == FamiliesOf(s.refresh.consumed, [first] + others)
    ensures Evicted(s, EvictMarkers(s, [first] + others).stores, Members([first] + others), EvictMarkers(s, [first] + others).killed)
  {
    hide EvictOne, ValidStores;
    var next := EvictOne(s, first);
    var p, family := EvictMarkers(next, others), s.refresh.consumed.at[first].family;
    assert ([first] + others)[1..] == others;
    assert EvictMarkers(s, [first] + others).stores == p.stores && EvictMarkers(s, [first] + others).killed == {family} + p.killed;
    EvictedTwice(s, next, p.stores, {first}, Members(others), {family}, p.killed);
    FamiliesOfMore(s.refresh.consumed, next.refresh.consumed, first, others);
    assert Members([first] + others) == {first} + Members(others);
  }

  lemma EvictOneEffect(s: Stores, victim: Secret)
    requires ValidStores(s) && victim in s.refresh.consumed.at
    ensures ValidStores(EvictOne(s, victim))
    ensures Evicted(s, EvictOne(s, victim), {victim}, {s.refresh.consumed.at[victim].family})
  {
    var marker := s.refresh.consumed.at[victim];
    RevokedValid(s, marker.family, marker.expiresAt);
    KeepValid(s.refresh.consumed, s.refresh.consumed.at.Keys - {victim});
  }

  lemma EvictedTwice(s: Stores, m: Stores, s': Stores, gone: set<Secret>, gone': set<Secret>, killed: set<Id>, killed': set<Id>)
    requires Evicted(s, m, gone, killed) && Evicted(m, s', gone', killed')
    ensures Evicted(s, s', gone + gone', killed + killed')
  {
    assert s.refresh.consumed.at - gone - gone' == s.refresh.consumed.at - (gone + gone');
  }

  lemma FamiliesOfMore(c: Record<Secret, Marker>, c': Record<Secret, Marker>, first: Secret, others: seq<Secret>)
    requires first in c.at && c'.at == c.at - {first} && first !in others
    ensures FamiliesOf(c, [first] + others) == {c.at[first].family} + FamiliesOf(c', others)
  {
    forall f ensures f in FamiliesOf(c, [first] + others) <==> f in {c.at[first].family} + FamiliesOf(c', others) {
      if f in FamiliesOf(c', others) {
        var k :| k in others && k in c'.at && c'.at[k].family == f;
        assert k in [first] + others && k in c.at;
      }
      if f == c.at[first].family {
        assert first in [first] + others;
      }
    }
  }

  // ---- which markers, and how many remain ----

  lemma ExcessIsOldest(consumed: Record<Secret, Marker>, hash: Secret -> int)
    requires consumed.Valid()
    ensures var victims := ExcessMarkers(consumed, hash);
            && Distinct(victims) && Members(victims) <= consumed.at.Keys
            && |victims| == (if |consumed.at| > MAX_CONSUMED_REFRESH_TOKENS then |consumed.at| - MAX_CONSUMED_REFRESH_TOKENS else 0)
            && (forall v, k :: v in victims && k in consumed.at && k !in victims ==> consumed.at[v].consumedAt <= consumed.at[k].consumedAt)
  {
    var age := MarkerAge(consumed, hash);
    var sorted := Sort(consumed.order, age);
    SortSorts(consumed.order, age);
    SamePermutation(consumed.order, sorted);
    DistinctSize(consumed.order);
    assert |consumed.at| == |consumed.at.Keys|;
    var victims := ExcessMarkers(consumed, hash);
    assert forall i :: 0 <= i < |victims| ==> victims[i] == sorted[i] && sorted[i] in Members(sorted);
    hide Sort, ExcessMarkers, MarkerAge;
    forall v, k | v in victims && k in consumed.at && k !in victims ensures consumed.at[v].consumedAt <= consumed.at[k].consumedAt {
      assert k in Members(sorted);
      FrontIsOlder(consumed, hash, sorted, victims, v, k);
    }
  }

  lemma FrontIsOlder(consumed: Record<Secret, Marker>, hash: Secret -> int, sorted: seq<Secret>, front: seq<Secret>, v: Secret, k: Secret)
    requires Sorted(sorted, MarkerAge(consumed, hash)) && front <= sorted
    requires v in front && k in sorted && k !in front && v in consumed.at && k in consumed.at
    ensures consumed.at[v].consumedAt <= consumed.at[k].consumedAt
  {
    var age := MarkerAge(consumed, hash);
    var i, j :| 0 <= i < |front| && front[i] == v && 0 <= j < |sorted| && sorted[j] == k;
    assert i < j && !Less(age(sorted[j]), age(sorted[i]));
  }

  ghost predicate KeepsNewest(c: map<Secret, Marker>, c': map<Secret, Marker>) {
    forall k, d :: k in c' && d in c && d !in c' ==> k in c && c[d].consumedAt <= c[k].consumedAt
  }

  /** A dropped marker's family is a revoked one. */
  ghost predicate DropsRevoked(c: map<Secret, Marker>, c': map<Secret, Marker>, killed: set<Id>) {
    forall d :: d in c && d !in c' ==> c[d].family in killed
  }

  lemma WithoutOldest(c: Record<Secret, Marker>, c': map<Secret, Marker>, hash: Secret -> int)
    requires c.Valid() && c' == c.at - Members(ExcessMarkers(c, hash))
    ensures |c'| == if |c.at| > MAX_CONSUMED_REFRESH_TOKENS then MAX_CONSUMED_REFRESH_TOKENS else |c.at|
    ensures KeepsNewest(c.at, c')
    ensures DropsRevoked(c.at, c', FamiliesOf(c, ExcessMarkers(c, hash)))
  {
    var victims := ExcessMarkers(c, hash);
    ExcessIsOldest(c, hash);
    DistinctSize(victims);
    SizeWithout(c.at, c', Members(victims));
    forall d | d in c.at && d !in c' ensures c.at[d].family in FamiliesOf(c, victims) {
      assert d in victims;
    }
  }

  /**
   * Pruning the replay state leaves at most 4096 markers and 1024 tombstones; a dropped marker is no newer than a kept
   * one, and no token of its family is left.
   */
  lemma PruningIsBounded(s: Stores, hash: Secret -> int)
    requires ValidStores(s)
    ensures var p := PrunedReplayState(s, hash);
            var c, c' := s.refresh.consumed.at, p.stores.refresh.consumed.at;
            && |c'| == (if |c| > MAX_CONSUMED_REFRESH_TOKENS then MAX_CONSUMED_REFRESH_TOKENS else |c|)
            && KeepsNewest(c, c')
            && DropsRevoked(c, c', p.killed)
            && p.stores.refresh.tokens.at == SparedRefresh(s.refresh.tokens.at, p.killed)
            && p.stores.oauth.tokens.at == SparedAccess(s.oauth.tokens.at, p.killed)
            && |p.stores.refresh.revoked.at| <= MAX_REVOKED_REFRESH_FAMILIES
  {
    var victims := ExcessMarkers(s.refresh.consumed, hash);
    ExcessIsOldest(s.refresh.consumed, hash);
    EvictionEffect(s, victims);
    var evicted := EvictMarkers(s, victims);
    WithoutOldest(s.refresh.consumed, evicted.stores.refresh.consumed.at, hash);
    TombstonesBounded(evicted.stores.refresh.revoked);
  }

  lemma SizeWithout<V>(m: map<Secret, V>, m': map<Secret, V>, gone: set<Secret>)
    requires m' == m - gone && gone <= m.Keys
    ensures |m'| == |m| - |gone|
  {
    assert m'.Keys == m.Keys - gone;
    assert |m| == |m.Keys| && |m'| == |m'.Keys|;
  }

  lemma TombstoneVictims(revoked: Record<Id, int>)
    requires revoked.Valid()
    ensures var victims, sorted := ExcessTombstones(revoked), Sort(revoked.order, TombstoneAge(revoked));
            && Sorted(sorted, TombstoneAge(revoked)) && victims <= sorted
            && Members(sorted) == revoked.at.Keys && Distinct(victims) && Members(victims) <= revoked.at.Keys
            && |victims| == if |revoked.at| > MAX_REVOKED_REFRESH_FAMILIES then |revoked.at| - MAX_REVOKED_REFRESH_FAMILIES else 0
  {
    var age, victims := TombstoneAge(revoked), ExcessTombstones(revoked);
    var sorted := Sort(revoked.order, age);
    SortSorts(revoked.order, age);
    SamePermutation(revoked.order, sorted);
    DistinctSize(revoked.order);
    assert |revoked.at| == |revoked.at.Keys|;
    hide Sort, Sorted;
    assert forall i :: 0 <= i < |victims| ==> victims[i] == sorted[i] && sorted[i] in Members(sorted);
  }

  lemma TombstonesBounded(revoked: Record<Id, int>)
    requires revoked.Valid()
    ensures |Without(revoked, Members(ExcessTombstones(revoked))).at| <= MAX_REVOKED_REFRESH_FAMILIES
  {
    var victims := ExcessTombstones(revoked);
    TombstoneVictims(revoked);
    hide Sort, ExcessTombstones, Distinct;
    DistinctSize(victims);
    assert |revoked.at| == |revoked.at.Keys|;
    assert |revoked.at.Keys - Members(victims)| == |revoked.at.Keys| - |Members(victims)|;
    var kept := Without(revoked, Members(victims)).at;
    assert kept.Keys == revoked.at.Keys - Members(victims) && |kept| == |kept.Keys|;
  }

  // ---- what the queued authorities say ----

  /** A family without an authority has no token in either store. */
  lemma NoAuthorityNoToken(source: Option<RefreshToken>, s: Stores, family: Id)
    requires ValidStores(s) && FamilyAuthority(source, s, family).None?
    ensures forall k :: k in s.refresh.tokens.at ==> s.refresh.tokens.at[k].grant.family != family
    ensures forall k :: k in s.oauth.tokens.at ==> s.oauth.tokens.at[k].grant.family != family
  {
    forall k | k in s.refresh.tokens.at ensures s.refresh.tokens.at[k].grant.family != family {
      assert k in Members(s.refresh.tokens.order);
    }
    forall k | k in s.oauth.tokens.at ensures s.oauth.tokens.at[k].grant.family != family {
      assert k in Members(s.oauth.tokens.order);
    }
  }

  lemma {:induction false} SilentEvictionSparesOAuth(s: Stores, victims: seq<Secret>)
    requires ValidStores(s) && EvictMarkers(s, victims).revocations == []
    ensures EvictMarkers(s, victims).stores.oauth == s.oauth
    decreases |victims|
  {
    if victims != [] && victims[0] in s.refresh.consumed.at {
      var marker, next := s.refresh.consumed.at[victims[0]], EvictOne(s, victims[0]);
      NoAuthorityNoToken(MarkerSource(marker), s, marker.family);
      KeepAll(s.oauth.tokens, set k | k in s.oauth.tokens.at && s.oauth.tokens.at[k].grant.family != marker.family);
      EvictOneEffect(s, victims[0]);
      SilentEvictionSparesOAuth(next, victims[1..]);
    }
  }

  /**
   * Loading may leave the OAuth store unsaved when it queued no revocation: then it did not change that store. This is
   * what makes the load path that writes the refresh store alone keep both stores in agreement.
   */
  lemma SilentLoadSparesOAuth(s: Stores, now: int, hash: Secret -> int)
    requires ValidStores(s) && Loaded(s, now, hash).revocations == []
    ensures Loaded(s, now, hash).stores.oauth == s.oauth
  {
    ExpiredValid(s, now);
    SilentEvictionSparesOAuth(Expired(s, now), ExcessMarkers(Expired(s, now).refresh.consumed, hash));
  }

  // ---- room for a rotation ----

  lemma NothingPruned<K, V>(r: Record<K, V>, keys: seq<K>, expiry: V -> int, keep: nat)
    requires Distinct(keys) && Members(keys) <= r.at.Keys && |keys| <= keep
    ensures Longest(r, keys, expiry, keep) == Members(keys)
  {
    LongestIsTop(r, keys, expiry, keep);
    DistinctSize(keys);
    SubsetOfEqualSize(Longest(r, keys, expiry, keep), Members(keys));
  }

  lemma SubsetOfEqualSize<K>(a: set<K>, b: set<K>)
    requires a <= b && |a| == |b|
    ensures a == b
  {
    assert |b - a| == |b| - |a|;
  }

  lemma PrunedTwiceKeepsAll<K, V>(r: Record<K, V>, owned: V -> bool, expiry: V -> int, keepOwned: nat, keep: nat)
    requires r.Valid() && |OwnedKeys(r, owned)| <= keepOwned && |r.at| <= keep
    ensures PrunedTwice(r, owned, expiry, keepOwned, keep) == r
  {
    var mine := OwnedKeys(r, owned);
    SelectIsSubsequence(r.order, mine);
    OwnedOrder(r, mine);
    DistinctSize(Select(r.order, mine));
    NothingPruned(r, Select(r.order, mine), expiry, keepOwned);
    KeepAll(r, (r.at.Keys - mine) + mine);
    DistinctSize(r.order);
    assert |r.at| == |r.at.Keys|;
    NothingPruned(r, r.order, expiry, keep);
    KeepAll(r, r.at.Keys);
  }

  ghost predicate HasRoom(s: Stores, client: Id) {
    && |OwnedKeys(s.oauth.tokens, OfClientAccess(client))| < MAX_ACCESS_TOKENS_PER_CLIENT
    && |s.oauth.tokens.at| < MAX_ACCESS_TOKENS
    && |OwnedKeys(s.refresh.tokens, OfClientRefresh(client))| < MAX_REFRESH_TOKENS_PER_CLIENT
    && |s.refresh.tokens.at| < MAX_REFRESH_TOKENS
  }

  lemma PutSize<K, V>(r: Record<K, V>, k: K, v: V, owned: V -> bool)
    ensures |r.Put(k, v).at| <= |r.at| + 1
    ensures |OwnedKeys(r.Put(k, v), owned)| <= |OwnedKeys(r, owned)| + 1
  {
    var r' := r.Put(k, v);
    assert r'.at.Keys == r.at.Keys + {k};
    assert |r'.at| == |r'.at.Keys| && |r.at| == |r.at.Keys|;
    assert |r.at.Keys + {k}| <= |r.at.Keys| + 1;
    assert OwnedKeys(r', owned) <= OwnedKeys(r, owned) + {k};
    SubsetSize(OwnedKeys(r', owned), OwnedKeys(r, owned) + {k});
    assert |OwnedKeys(r, owned) + {k}| <= |OwnedKeys(r, owned)| + 1;
  }

  lemma SubsetSize<K>(a: set<K>, b: set<K>)
    requires a <= b
    ensures |a| <= |b|
  {
    assert |b| == |a| + |b - a|;
  }

  /** With room for one more token of the client and of the tables, issuing a pair drops nothing and both halves stand. */
  lemma IssuedWithRoom(s: Stores, source: Source, pair: TokenPair, version: Id, accessScope: Scope, now: int)
    requires ValidStores(s) && HasRoom(s, source.grant.client)
    ensures var r := Issued(s, source, pair, version, accessScope, now);
            && r.oauth.tokens == s.oauth.tokens.Put(pair.access, NewAccess(source, version, accessScope, now))
            && r.refresh.tokens == s.refresh.tokens.Put(pair.refresh, NewRefresh(source, version, now))
  {
    var client := source.grant.client;
    var access, refresh := NewAccess(source, version, accessScope, now), NewRefresh(source, version, now);
    PutValid(s.oauth.tokens, pair.access, access);
    PutValid(s.refresh.tokens, pair.refresh, refresh);
    PutSize(s.oauth.tokens, pair.access, access, OfClientAccess(client));
    PutSize(s.refresh.tokens, pair.refresh, refresh, OfClientRefresh(client));
    PrunedTwiceKeepsAll(s.oauth.tokens.Put(pair.access, access), OfClientAccess(client), AccessExpiry, MAX_ACCESS_TOKENS_PER_CLIENT,
                        MAX_ACCESS_TOKENS);
    PrunedTwiceKeepsAll(s.refresh.tokens.Put(pair.refresh, refresh), OfClientRefresh(client), RefreshExpiry, MAX_REFRESH_TOKENS_PER_CLIENT,
                        MAX_REFRESH_TOKENS);
  }

  lemma PruningWithinCap(s: Stores, hash: Secret -> int)
    requires ValidStores(s) && |s.refresh.consumed.at| <= MAX_CONSUMED_REFRESH_TOKENS
    ensures var p := PrunedReplayState(s, hash);
            && p.killed == {} && p.revocations == []
            && p.stores.oauth == s.oauth && p.stores.refresh.tokens == s.refresh.tokens && p.stores.refresh.consumed == s.refresh.consumed
  {
    ExcessIsOldest(s.refresh.consumed, hash);
    assert ExcessMarkers(s.refresh.consumed, hash) == [];
  }
}
