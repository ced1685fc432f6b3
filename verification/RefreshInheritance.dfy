/**
 * Authority only shrinks along a token family, from the code it began with to the last access token; and with that, what
 * a refresh grant is answered in any run.
 */
module RefreshInheritance {
  import opened Records
  import opened OAuthStores
  import opened RefreshFamilies
  import opened RefreshExchange
  import opened RefreshRuns
  import opened RefreshGuarantees
  import opened RefreshSuccess
  import opened RefreshEntitlement

  // ---- what every token keeps of the code its family began with ----

  /** What the redeemed code of a family granted. */
  datatype Code = Code(grant: Grant, scope: Scope)

  function CodesAfter(codes: map<Id, Code>, actions: seq<Action>): map<Id, Code>
    decreases |actions|
  {
    if actions == [] then codes
    else CodesAfter(if actions[0].Redeem? then codes[actions[0].grant.family := Code(actions[0].grant, actions[0].scope)] else codes,
                    actions[1..])
  }

  /** All that a grant holds but its version, and its key binding unless the code had one. */
  predicate Inherits(g: Grant, code: Grant) {
    && g.client == code.client && g.account == code.account && g.accountVersion == code.accountVersion
    && g.role == code.role && g.resource == code.resource && g.family == code.family
    && (code.dpop == None || g.dpop == code.dpop)
  }

  ghost predicate RefreshInherits(t: RefreshToken, codes: map<Id, Code>) {
    && t.grant.family in codes
    && Inherits(t.grant, codes[t.grant.family].grant)
    && t.scope == codes[t.grant.family].scope
  }

  ghost predicate AccessInherits(t: AccessToken, codes: map<Id, Code>) {
    && t.grant.family in codes
    && Inherits(t.grant, codes[t.grant.family].grant)
    && Within(t.scope, codes[t.grant.family].scope)
  }

  ghost predicate TokensInherit(s: Stores, codes: map<Id, Code>) {
    && (forall k :: k in s.refresh.tokens.at ==> RefreshInherits(s.refresh.tokens.at[k], codes))
    && (forall k :: k in s.oauth.tokens.at ==> AccessInherits(s.oauth.tokens.at[k], codes))
  }

  /** A derived access token is of the family of the secret it was derived from. */
  ghost predicate DerivedAccessOk(a: map<AccessSecret, AccessToken>, h: History) {
    forall k :: k in a && k.ReplacementAccess? ==> k.seed in h.issued && a[k].grant.family == h.issued[k.seed]
  }

  /** A retry source is what its secret was; the access token issued for it has the scope the marker remembers. */
  ghost predicate RetryInherits(k: Secret, m: Marker, a: map<AccessSecret, AccessToken>, h: History, codes: map<Id, Code>) {
    m.retry.Some? ==>
      && RefreshInherits(m.retry.value.source, codes)
      && k in h.spent
      && m.retry.value.source.grant.family == m.family
      && (ReplacementAccess(h.spent[k].version, k) in a
          ==> a[ReplacementAccess(h.spent[k].version, k)].scope == m.retry.value.accessScope)
  }

  ghost predicate RetriesInherit(c: map<Secret, Marker>, a: map<AccessSecret, AccessToken>, h: History, codes: map<Id, Code>) {
    forall k :: k in c ==> RetryInherits(k, c[k], a, h, codes)
  }

  ghost predicate Inherited(s: Stores, h: History, codes: map<Id, Code>) {
    && codes.Keys == h.families.Keys
    && TokensInherit(s, codes)
    && DerivedAccessOk(s.oauth.tokens.at, h)
    && RetriesInherit(s.refresh.consumed.at, s.oauth.tokens.at, h, codes)
  }

  /** From `c` to `c'` markers are dropped, or lose their retry. */
  ghost predicate MarkersWane(c: map<Secret, Marker>, c': map<Secret, Marker>) {
    forall k :: k in c' ==> k in c && (c'[k] == c[k] || c'[k].retry == None)
  }

  lemma FewerInherit(s: Stores, s': Stores, h: History, h': History, codes: map<Id, Code>)
    requires Inherited(s, h, codes)
    requires Part(s'.refresh.tokens, s.refresh.tokens) && Part(s'.oauth.tokens, s.oauth.tokens)
    requires MarkersWane(s.refresh.consumed.at, s'.refresh.consumed.at)
    requires h'.families == h.families && h'.issued == h.issued && h'.spent == h.spent
    ensures Inherited(s', h', codes)
  {
    forall k | k in s'.refresh.consumed.at ensures RetryInherits(k, s'.refresh.consumed.at[k], s'.oauth.tokens.at, h', codes) {
      assert RetryInherits(k, s.refresh.consumed.at[k], s.oauth.tokens.at, h, codes);
    }
  }

  lemma PruneWanes(s: Stores, hash: Secret -> int)
    requires ValidStores(s)
    ensures MarkersWane(s.refresh.consumed.at, PrunedReplayState(s, hash).stores.refresh.consumed.at)
  {
    PruneEffect(s, hash);
  }

  lemma LoadInherits(s: Stores, h: History, codes: map<Id, Code>, now: int, hash: Secret -> int)
    requires ValidStores(s) && Inherited(s, h, codes)
    ensures var p := Loaded(s, now, hash);
            Inherited(p.stores, h.(revoked := h.revoked + p.killed), codes)
  {
    var expired := Expired(s, now);
    ExpiredValid(s, now);
    PruneWanes(expired, hash);
    LoadDropsOnly(s, now, hash);
    hide Inherited, PrunedReplayState;
    FewerInherit(s, Loaded(s, now, hash).stores, h, h.(revoked := h.revoked + Loaded(s, now, hash).killed), codes);
  }

  /** Filing a token whose grant is that of `source`. */
  lemma NewTokensInherit(source: Source, version: Id, accessScope: Scope, now: int, codes: map<Id, Code>)
    requires source.grant.family in codes && Inherits(source.grant, codes[source.grant.family].grant)
    requires source.scope == codes[source.grant.family].scope && Within(accessScope, source.scope)
    ensures RefreshInherits(NewRefresh(source, version, now), codes)
    ensures AccessInherits(NewAccess(source, version, accessScope, now), codes)
  {
  }

  lemma MovedInherits(s: Stores, m: Stores, h: History, codes: map<Id, Code>, key: Secret, bound: RefreshToken, version: Id, scope: Scope,
                      now: int)
    requires HistoryOk(h) && key in h.issued && key !in h.spent && bound.grant.family == h.issued[key]
    requires TokensInherit(s, codes) && DerivedAccessOk(s.oauth.tokens.at, h)
    requires RefreshInherits(bound, codes) && Within(scope, bound.scope)
    requires forall k :: k in m.refresh.tokens.at ==>
               if k == Replacement(version, key) then m.refresh.tokens.at[k] == NewRefresh(RefreshSource(bound), version, now)
               else k in s.refresh.tokens.at && m.refresh.tokens.at[k] == s.refresh.tokens.at[k]
    requires forall k :: k in m.oauth.tokens.at ==>
               if k == ReplacementAccess(version, key) then m.oauth.tokens.at[k] == NewAccess(RefreshSource(bound), version, scope, now)
               else k in s.oauth.tokens.at && m.oauth.tokens.at[k] == s.oauth.tokens.at[k]
    ensures TokensInherit(m, codes) && DerivedAccessOk(m.oauth.tokens.at, SpentHistory(h, key, version))
  {
    NewTokensInherit(RefreshSource(bound), version, scope, now, codes);
    SpentHistoryOk(h, key, version);
    hide RefreshInherits, AccessInherits;
  }

  lemma MovedRetriesInherit(c: map<Secret, Marker>, a: map<AccessSecret, AccessToken>, a': map<AccessSecret, AccessToken>, h: History,
                            codes: map<Id, Code>, key: Secret, bound: RefreshToken, version: Id, scope: Scope, now: int)
    requires HistoryOk(h) && RetriesInherit(c, a, h, codes) && key in h.issued && key !in h.spent
    requires RefreshInherits(bound, codes)
    requires forall k :: k in a' ==>
               if k == ReplacementAccess(version, key) then a'[k] == NewAccess(RefreshSource(bound), version, scope, now)
               else k in a && a'[k] == a[k]
    ensures RetriesInherit(c[key := NewMarker(bound, bound.familyExpiresAt, now, scope)], a', SpentHistory(h, key, version), codes)
  {
    var c', h' := c[key := NewMarker(bound, bound.familyExpiresAt, now, scope)], SpentHistory(h, key, version);
    forall k | k in c' ensures RetryInherits(k, c'[k], a', h', codes) {
      if k != key {
        assert RetryInherits(k, c[k], a, h, codes);
      }
    }
  }

  lemma RotationInherits(s: Stores, h: History, codes: map<Id, Code>, key: Secret, bound: RefreshToken, version: Id, scope: Scope, now: int)
    requires Inv(s, h) && Inherited(s, h, codes) && key in s.refresh.tokens.at
    requires var t := s.refresh.tokens.at[key];
             && bound == t.(grant := t.grant.(dpop := bound.grant.dpop))
             && (t.grant.dpop == None || t.grant.dpop == bound.grant.dpop)
             && Within(scope, t.scope)
    ensures Inherited(WithMarker(Moved(s, bound, key, version, scope, now), key, NewMarker(bound, bound.familyExpiresAt, now, scope)),
                      SpentHistory(h, key, version), codes)
  {
    hide Moved, Remembered, MarkersOk, AccessOk, Linear, TokensInherit, DerivedAccessOk, RetriesInherit, NewMarker;
    MovedTokens(s, bound, key, version, scope, now);
    BoundInherits(s, codes, key, bound);
    MovedInherits(s, Moved(s, bound, key, version, scope, now), h, codes, key, bound, version, scope, now);
    MovedRetriesInherit(s.refresh.consumed.at, s.oauth.tokens.at, Moved(s, bound, key, version, scope, now).oauth.tokens.at, h, codes, key,
                        bound, version, scope, now);
    MarkingInherits(Moved(s, bound, key, version, scope, now), SpentHistory(h, key, version), codes, key,
                    NewMarker(bound, bound.familyExpiresAt, now, scope));
  }

  lemma BoundInherits(s: Stores, codes: map<Id, Code>, key: Secret, bound: RefreshToken)
    requires TokensInherit(s, codes) && key in s.refresh.tokens.at
    requires var t := s.refresh.tokens.at[key];
             && bound == t.(grant := t.grant.(dpop := bound.grant.dpop))
             && (t.grant.dpop == None || t.grant.dpop == bound.grant.dpop)
    ensures RefreshInherits(bound, codes)
  {
    assert RefreshInherits(s.refresh.tokens.at[key], codes);
  }

  lemma MarkingInherits(m: Stores, h: History, codes: map<Id, Code>, key: Secret, marker: Marker)
    requires codes.Keys == h.families.Keys && TokensInherit(m, codes) && DerivedAccessOk(m.oauth.tokens.at, h)
    requires RetriesInherit(m.refresh.consumed.at[key := marker], m.oauth.tokens.at, h, codes)
    ensures Inherited(WithMarker(m, key, marker), h, codes)
  {
  }

  lemma RotateInherits(s: Stores, h: History, codes: map<Id, Code>, req: Request, server: Server, now: int)
    requires Inv(s, h) && Inherited(s, h, codes) && req.secret in s.refresh.tokens.at
    ensures var e := Rotate(s, s.refresh.tokens.at[req.secret], req, server, now);
            Inherited(e.stores, Recorded(h, e, req.secret), codes)
  {
    hide Rotate, Moved, NewMarker, PrunedReplayState, Inherited;
    var e := Rotate(s, s.refresh.tokens.at[req.secret], req, server, now);
    if e.rotation.Some? {
      var bound, scope := RotationSource(s, req, server, now);
      var version, key := e.rotation.value, req.secret;
      var h' := SpentHistory(h, key, version);
      var marked := WithMarker(Moved(s, bound, key, version, scope, now), key, NewMarker(bound, bound.familyExpiresAt, now, scope));
      RotationKeepsInv(s, h, key, bound, version, scope, now);
      assert ValidStores(marked);
      RotationInherits(s, h, codes, key, bound, version, scope, now);
      hide Inv;
      PruneWanes(marked, server.hash);
      PruneDropsOnly(marked, server.hash);
      FewerInherit(marked, e.stores, h', Recorded(h, e, key), codes);
    } else {
      NoRotationEffect(s, req, server, now);
      assert ValidStores(s);
      hide Inv;
      FewerInherit(s, e.stores, h, Recorded(h, e, req.secret), codes);
    }
  }

  lemma ReissueInherits(s: Stores, h: History, codes: map<Id, Code>, key: Secret, client: Id, now: int)
    requires Inherited(s, h, codes) && key in s.refresh.consumed.at && s.refresh.consumed.at[key].retry.Some?
    ensures Inherited(Reissued(s, key, s.refresh.consumed.at[key], client, now), RetriedHistory(h, key), codes)
  {
    var r, h' := Reissued(s, key, s.refresh.consumed.at[key], client, now), RetriedHistory(h, key);
    forall k | k in r.refresh.consumed.at ensures RetryInherits(k, r.refresh.consumed.at[k], r.oauth.tokens.at, h', codes) {
      assert RetryInherits(k, s.refresh.consumed.at[k], s.oauth.tokens.at, h, codes);
    }
  }

  lemma ReplayInherits(s: Stores, h: History, codes: map<Id, Code>, req: Request, server: Server, now: int)
    requires Inv(s, h) && Inherited(s, h, codes) && req.secret in s.refresh.consumed.at
    ensures var e := Replay(s, s.refresh.consumed.at[req.secret], req, server, now);
            Inherited(e.stores, Recorded(h, e, req.secret), codes)
  {
    var marker := s.refresh.consumed.at[req.secret];
    var e := Replay(s, marker, req, server, now);
    ReplayEffect(s, marker, req, server, now);
    hide Replay, Inherited, PrunedReplayState, Reissued;
    if e.outcome.RetryIssued? {
      ReissueInherits(s, h, codes, req.secret, marker.retry.value.source.grant.client, now);
      var h' := RetriedHistory(h, req.secret);
      assert h'.(revoked := h'.revoked + {}) == h' by { assert h'.revoked + {} == h'.revoked; }
    } else {
      if e.outcome.FamilyRevoked? {
        var revoked := Revoked(s, marker.family, marker.expiresAt);
        RevokedValid(s, marker.family, marker.expiresAt);
        PruneWanes(revoked, server.hash);
        PruneDropsOnly(revoked, server.hash);
      }
      FewerInherit(s, e.stores, h, Recorded(h, e, req.secret), codes);
    }
  }

  lemma NewFamilyInherits(s: Stores, r: Stores, h: History, codes: map<Id, Code>, source: Source, pair: TokenPair, version: Id, now: int)
    requires TokensInherit(s, codes) && DerivedAccessOk(s.oauth.tokens.at, h) && source.grant.family !in codes
    requires Part(r.refresh.tokens, s.refresh.tokens.Put(pair.refresh, NewRefresh(source, version, now)))
    requires Part(r.oauth.tokens, s.oauth.tokens.Put(pair.access, NewAccess(source, version, source.scope, now)))
    requires pair.access.MintedAccess? && pair.refresh !in h.issued
    ensures TokensInherit(r, codes[source.grant.family := Code(source.grant, source.scope)])
    ensures DerivedAccessOk(r.oauth.tokens.at, h.(issued := h.issued[pair.refresh := source.grant.family]))
  {
    NewTokensInherit(source, version, source.scope, now, codes[source.grant.family := Code(source.grant, source.scope)]);
    hide NewRefresh, NewAccess;
  }

  lemma NewFamilyRetries(c: map<Secret, Marker>, a: map<AccessSecret, AccessToken>, a': map<AccessSecret, AccessToken>, h: History, h': History,
                         codes: map<Id, Code>, codes': map<Id, Code>)
    requires RetriesInherit(c, a, h, codes) && h'.spent == h.spent
    requires forall k :: k in a' && k.ReplacementAccess? ==> k in a && a'[k] == a[k]
    requires forall f :: f in codes ==> f in codes' && codes'[f] == codes[f]
    ensures RetriesInherit(c, a', h', codes')
  {
    forall k | k in c ensures RetryInherits(k, c[k], a', h', codes') {
      assert RetryInherits(k, c[k], a, h, codes);
    }
  }

  lemma OnlyMinted(a: Record<AccessSecret, AccessToken>, b: Record<AccessSecret, AccessToken>, minted: AccessSecret, t: AccessToken)
    requires minted.MintedAccess? && Part(a, b.Put(minted, t))
    ensures forall k :: k in a.at && k.ReplacementAccess? ==> k in b.at && a.at[k] == b.at[k]
  {
  }

  lemma RedeemInherits(s: Stores, h: History, codes: map<Id, Code>, grant: Grant, scope: Scope, pair: TokenPair, version: Id, now: int)
    requires Inv(s, h) && Inherited(s, h, codes)
    requires pair.refresh.Minted? && pair.access.MintedAccess?
    requires pair.refresh !in h.issued && grant.family !in h.families
    ensures var source := CodeSource(grant, scope, now);
            Inherited(Issued(s, source, pair, version, scope, now),
                      h.(families := h.families[grant.family := FamilyOf(source)], issued := h.issued[pair.refresh := grant.family]),
                      codes[grant.family := Code(grant, scope)])
  {
    hide Inherited, Issued, Part, FamilyOf, NewRefresh, NewAccess;
    var source := CodeSource(grant, scope, now);
    IssuedIsBounded(s, source, pair, version, scope, now);
    hide Inv, ValidStores;
    FiledInherits(s, Issued(s, source, pair, version, scope, now), h, codes, source, pair, version, now);
  }

  lemma FiledInherits(s: Stores, r: Stores, h: History, codes: map<Id, Code>, source: Source, pair: TokenPair, version: Id, now: int)
    requires Inherited(s, h, codes) && pair.access.MintedAccess? && pair.refresh !in h.issued && source.grant.family !in h.families
    requires r.refresh.consumed == s.refresh.consumed
    requires Part(r.refresh.tokens, s.refresh.tokens.Put(pair.refresh, NewRefresh(source, version, now)))
    requires Part(r.oauth.tokens, s.oauth.tokens.Put(pair.access, NewAccess(source, version, source.scope, now)))
    ensures var family := source.grant.family;
            Inherited(r, h.(families := h.families[family := FamilyOf(source)], issued := h.issued[pair.refresh := family]),
                      codes[family := Code(source.grant, source.scope)])
  {
    hide Part, TokensInherit, DerivedAccessOk, RetriesInherit, NewRefresh, NewAccess, FamilyOf;
    assert source.grant.family !in codes.Keys;
    var family := source.grant.family;
    var h' := h.(families := h.families[family := FamilyOf(source)], issued := h.issued[pair.refresh := family]);
    NewFamilyInherits(s, r, h, codes, source, pair, version, now);
    OnlyMinted(r.oauth.tokens, s.oauth.tokens, pair.access, NewAccess(source, version, source.scope, now));
    NewFamilyRetries(s.refresh.consumed.at, s.oauth.tokens.at, r.oauth.tokens.at, h, h', codes, codes[family := Code(source.grant, source.scope)]);
    NewFamilyHistory(r, h, codes, source, pair);
  }

  lemma NewFamilyHistory(r: Stores, h: History, codes: map<Id, Code>, source: Source, pair: TokenPair)
    requires codes.Keys == h.families.Keys
    requires var family := source.grant.family;
             var h' := h.(families := h.families[family := FamilyOf(source)], issued := h.issued[pair.refresh := family]);
             var codes' := codes[family := Code(source.grant, source.scope)];
             && TokensInherit(r, codes') && DerivedAccessOk(r.oauth.tokens.at, h.(issued := h'.issued))
             && RetriesInherit(r.refresh.consumed.at, r.oauth.tokens.at, h', codes')
    ensures var family := source.grant.family;
            Inherited(r, h.(families := h.families[family := FamilyOf(source)], issued := h.issued[pair.refresh := family]),
                      codes[family := Code(source.grant, source.scope)])
  {
    hide TokensInherit, RetriesInherit;
  }

  lemma StepInherits(sys: System, codes: map<Id, Code>, a: Action)
    requires Inv(sys.stores, sys.history) && Enabled(sys, a) && Inherited(sys.stores, sys.history, codes)
    ensures Inherited(Step(sys, a).stores, Step(sys, a).history, CodesAfter(codes, [a]))
  {
    hide Rotate, Replay, Loaded, Issued, LiveOk, Linear, AccessOk, MarkersOk, Remembered, HistoryOk, Inherited;
    var s, h := sys.stores, sys.history;
    assert [a][1..] == [];
    match a
    case Administer(accounts, clients, access, refresh) =>
      FewerInherit(s, Step(sys, a).stores, h, h, codes);
    case Load(now, hash) =>
      LoadInherits(s, h, codes, now, hash);
    case Redeem(grant, scope, pair, version, now) =>
      RedeemInherits(s, h, codes, grant, scope, pair, version, now);
    case Refresh(request, server, now, loadedAt, saved) =>
      LoadKeepsInv(s, h, loadedAt, server.hash);
      LoadInherits(s, h, codes, loadedAt, server.hash);
      var loaded := AfterLoad(sys, loadedAt, server.hash);
      if request.secret in loaded.stores.refresh.tokens.at {
        RotateInherits(loaded.stores, loaded.history, codes, request, server, now);
      } else if request.secret in loaded.stores.refresh.consumed.at {
        ReplayInherits(loaded.stores, loaded.history, codes, request, server, now);
      } else {
        assert loaded.history.revoked + {} == loaded.history.revoked;
      }
  }

  lemma {:induction false} RunInherits(sys: System, codes: map<Id, Code>, actions: seq<Action>)
    requires Inv(sys.stores, sys.history) && Possible(sys, actions) && Inherited(sys.stores, sys.history, codes)
    ensures Inherited(Run(sys, actions).stores, Run(sys, actions).history, CodesAfter(codes, actions))
    decreases |actions|
  {
    hide Inherited;
    if actions != [] {
      StepKeepsInv(sys, actions[0]);
      StepInherits(sys, codes, actions[0]);
      assert [actions[0]][1..] == [];
      RunInherits(Step(sys, actions[0]), CodesAfter(codes, [actions[0]]), actions[1..]);
    }
  }

  /**
   * Authority never grows. In every run each token, of either kind, is for the client, account, account version, role and
   * resource that its family's code was redeemed with, and under that code's key if it had one; a refresh token has
   * exactly the code's scope and an access token no more.
   */
  lemma AuthorityNeverGrows(actions: seq<Action>)
    requires Possible(GENESIS, actions)
    ensures TokensInherit(Run(GENESIS, actions).stores, CodesAfter(map[], actions))
  {
    assert Inherited(GENESIS.stores, GENESIS.history, map[]);
    RunInherits(GENESIS, map[], actions);
  }

  // ---- replays ----

  /** A pair derived from a spent secret stands as soon as both halves are there and unexpired. */
  lemma StandingPairIsActive(s: Stores, h: History, codes: map<Id, Code>, key: Secret, now: int)
    requires Inv(s, h) && Inherited(s, h, codes) && key in s.refresh.consumed.at
    requires var m := s.refresh.consumed.at[key]; m.retry.Some? && now < m.expiresAt
    ensures var m := s.refresh.consumed.at[key];
            forall version: Id ::
              var pair := DerivedPair(version, key);
              PairActive(pair, m.retry.value.source, m.family, m.retry.value.accessScope, s, now) <==> PairStands(pair, s, now)
  {
    var m := s.refresh.consumed.at[key];
    assert MarkerOk(key, m, h) && RetryInherits(key, m, s.oauth.tokens.at, h, codes);
    forall version: Id
      ensures var pair := DerivedPair(version, key);
              PairActive(pair, m.retry.value.source, m.family, m.retry.value.accessScope, s, now) <==> PairStands(pair, s, now)
    {
      var pair := DerivedPair(version, key);
      if PairStands(pair, s, now) {
        assert h.issued[pair.refresh] == h.issued[key] && h.spent[key].version == version;
      }
    }
  }

  lemma ReplayAnswers(s: Stores, h: History, codes: map<Id, Code>, req: Request, server: Server, now: int)
    requires Inv(s, h) && Inherited(s, h, codes) && req.secret in s.refresh.consumed.at
    ensures var m := s.refresh.consumed.at[req.secret];
            Replay(s, m, req, server, now).outcome == ReplayAnswer(m, req, server, s, now)
  {
    hide Inv, Inherited, Validate, PairActive, PairStands, Presents, Standing, AnsweredScope, Reissued;
    var m := s.refresh.consumed.at[req.secret];
    if m.retry.Some? && now < m.expiresAt {
      StandingPairIsActive(s, h, codes, req.secret, now);
      ValidationVerdict(m.retry.value.source, req, server, s.oauth, false);
      PresentedStands(m.retry.value.source, req, server, s.oauth);
    }
  }

  // ---- every answer in every run ----

  lemma ExchangeAnswers(s: Stores, h: History, codes: map<Id, Code>, req: Request, server: Server, now: int)
    requires Inv(s, h) && Inherited(s, h, codes)
    ensures var answer, outcome := ExchangeAnswer(s, req, server, now), Exchanged(s, req, server, now).outcome;
            || outcome == answer
            || (answer.Rotated? && outcome == FamilyRevoked && |s.refresh.consumed.at| >= MAX_CONSUMED_REFRESH_TOKENS)
  {
    hide Inv, Inherited, Rotate, Replay, RotationAnswer, ReplayAnswer;
    if req.secret in s.refresh.tokens.at {
      RotateAnswers(s, h, req, server, now);
    } else if req.secret in s.refresh.consumed.at {
      ReplayAnswers(s, h, codes, req, server, now);
    }
  }

  lemma ReachableInherits(actions: seq<Action>, now: int, hash: Secret -> int)
    requires Possible(GENESIS, actions)
    ensures var loaded := AfterLoad(Run(GENESIS, actions), now, hash);
            Inv(loaded.stores, loaded.history) && Inherited(loaded.stores, loaded.history, CodesAfter(map[], actions))
  {
    assert Inherited(GENESIS.stores, GENESIS.history, map[]);
    RunInherits(GENESIS, map[], actions);
    Reachable(actions);
    ReachableLoad(actions, now, hash);
    hide Inherited;
    LoadInherits(Run(GENESIS, actions).stores, Run(GENESIS, actions).history, CodesAfter(map[], actions), now, hash);
  }

  /**
   * In every run a committed refresh grant is answered exactly as the table says. The one exception is a rotation at the
   * cap of markers, which can evict its own family and is then answered by its revocation.
   */
  lemma EveryAnswer(actions: seq<Action>, a: Action)
    requires Possible(GENESIS, actions) && a.Refresh? && a.saved
    ensures var sys := Run(GENESIS, actions);
            var s := AfterLoad(sys, a.loadedAt, a.server.hash).stores;
            var answer := ExchangeAnswer(s, a.request, a.server, a.now);
            || Response(sys, a) == answer
            || (answer.Rotated? && Response(sys, a) == FamilyRevoked && |s.refresh.consumed.at| >= MAX_CONSUMED_REFRESH_TOKENS)
  {
    hide Inv, Inherited, Loaded, Exchanged, ExchangeAnswer;
    var loaded := AfterLoad(Run(GENESIS, actions), a.loadedAt, a.server.hash);
    ReachableInherits(actions, a.loadedAt, a.server.hash);
    ExchangeAnswers(loaded.stores, loaded.history, CodesAfter(map[], actions), a.request, a.server, a.now);
  }

  /** The token a secret stands for: the live one, or what the marker of the spent one kept of it. */
  function Presented(s: Stores, key: Secret): Option<RefreshToken> {
    if key in s.refresh.tokens.at then Some(s.refresh.tokens.at[key])
    else if key in s.refresh.consumed.at && s.refresh.consumed.at[key].retry.Some? then Some(s.refresh.consumed.at[key].retry.value.source)
    else None
  }

  lemma AnswerIsEntitled(s: Stores, req: Request, server: Server, now: int)
    requires ExchangeAnswer(s, req, server, now).Rotated? || ExchangeAnswer(s, req, server, now).RetryIssued?
    ensures Presented(s, req.secret).Some?
    ensures var t, answer := Presented(s, req.secret).value, ExchangeAnswer(s, req, server, now);
            && Presents(t, req, server.resource) && Standing(t.grant, server, s.oauth) && ProofIsFresh(req)
            && answer.scope == AnsweredScope(t, req) && answer.pair == DerivedPair(t.grant.version, req.secret)
  {
    hide Presents, Standing, ProofIsFresh, AnsweredScope, PairStands;
  }

  /**
   * No success without entitlement: whoever is handed a pair is the client the presented token was issued to, holds its
   * key, asks for its resource and no more than its scope, and acts for an account and under a trust that still stand.
   */
  lemma SuccessIsEntitled(actions: seq<Action>, a: Action)
    requires Possible(GENESIS, actions) && a.Refresh?
    requires Response(Run(GENESIS, actions), a).Rotated? || Response(Run(GENESIS, actions), a).RetryIssued?
    ensures Presented(AfterLoad(Run(GENESIS, actions), a.loadedAt, a.server.hash).stores, a.request.secret).Some?
    ensures var s, req := AfterLoad(Run(GENESIS, actions), a.loadedAt, a.server.hash).stores, a.request;
            var t, scope := Presented(s, req.secret).value, Response(Run(GENESIS, actions), a).scope;
            && req.client == Given(t.grant.client)
            && (req.resource.Given? ==> req.resource.value == t.grant.resource) && !req.resource.Malformed?
            && t.grant.resource == a.server.resource
            && (t.grant.dpop.Some? ==> req.dpop == t.grant.dpop) && (req.dpop.Some? ==> req.dpopUnused)
            && scope == (if req.scope.Given? then req.scope.value else t.scope) && !req.scope.Malformed?
            && (scope == t.scope || (scope == ServerScope && t.scope == ServerOfflineScope)) && !scope.StaleScope?
            && a.server.tokenVersion == Some(t.grant.version)
            && t.grant.account in s.oauth.accounts && t.grant.client in s.oauth.clients
            && s.oauth.accounts[t.grant.account] == Account(true, t.grant.accountVersion, t.grant.role)
            && s.oauth.clients[t.grant.client].trust == Some(Trust(t.grant.account, t.grant.accountVersion, t.grant.role))
            && Response(Run(GENESIS, actions), a).pair == DerivedPair(t.grant.version, req.secret)
  {
    assert a.saved;
    hide Exchanged, Loaded, ExchangeAnswer;
    EveryAnswer(actions, a);
    AnswerIsEntitled(AfterLoad(Run(GENESIS, actions), a.loadedAt, a.server.hash).stores, a.request, a.server, a.now);
  }
}
