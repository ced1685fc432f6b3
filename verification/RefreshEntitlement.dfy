/**
 * What a refresh grant has to show before it is given tokens, what it is answered otherwise, and what the tokens then
 * carry: the checks of src/worker/oauth-refresh-exchange.ts told by their effect on every run.
 */
module RefreshEntitlement {
  import opened Records
  import opened ExpiryPruning
  import opened OAuthStores
  import opened RefreshFamilies
  import opened RefreshExchange
  import opened RefreshRuns
  import opened RefreshBounds
  import opened RefreshGuarantees
  import opened RefreshSuccess

  // ---- what a request has to show ----

  /** The request is made for this token, by its client and under its key, and asks for no more than it grants. */
  predicate Presents(t: RefreshToken, req: Request, resource: Id) {
    && req.client == Given(t.grant.client)
    && (t.grant.dpop == None || t.grant.dpop == req.dpop)
    && (req.resource == Absent || req.resource == Given(t.grant.resource))
    && t.grant.resource == resource
    && (t.scope == ServerScope || t.scope == ServerOfflineScope)
    && (req.scope == Absent || req.scope == Given(t.scope) || req.scope == Given(ServerScope))
  }

  /** The token's account and its client's trust are still what they were when it was issued. */
  predicate Standing(g: Grant, server: Server, oauth: OAuthStore) {
    && server.tokenVersion == Some(g.version)
    && g.account in oauth.accounts
    && oauth.accounts[g.account] == Account(true, g.accountVersion, g.role)
    && g.client in oauth.clients
    && oauth.clients[g.client].trust == Some(Trust(g.account, g.accountVersion, g.role))
  }

  predicate ProofIsFresh(req: Request) {
    req.dpop == None || req.dpopUnused
  }

  /** The scope of the access token: the requested one, or else the refresh token's. */
  function AnsweredScope(t: RefreshToken, req: Request): Scope {
    if req.scope.Given? then req.scope.value else t.scope
  }

  /** What presenting the live token `t` is answered while there is room for one more marker. */
  function RotationAnswer(t: RefreshToken, req: Request, server: Server, oauth: OAuthStore, now: int): Outcome {
    if !Presents(t, req, server.resource) then Rejected
    else if server.tokenVersion == None then ServerError
    else if Standing(t.grant, server, oauth) && ProofIsFresh(req) && now < t.familyExpiresAt then
      Rotated(DerivedPair(t.grant.version, req.secret), AnsweredScope(t, req))
    else Rejected
  }

  predicate Within(scope: Scope, granted: Scope) {
    scope == granted || (scope == ServerScope && granted == ServerOfflineScope)
  }

  /** Both halves of the pair are in their tables and unexpired. */
  predicate PairStands(pair: TokenPair, s: Stores, now: int) {
    && pair.refresh in s.refresh.tokens.at && now < s.refresh.tokens.at[pair.refresh].expiresAt
    && pair.access in s.oauth.tokens.at && now < s.oauth.tokens.at[pair.access].expiresAt
  }

  /** What presenting a consumed secret is answered. */
  function ReplayAnswer(m: Marker, req: Request, server: Server, s: Stores, now: int): Outcome {
    if m.expiresAt <= now || m.family in s.refresh.revoked.at then Rejected
    else if m.retry == None || m.retry.value.until < now then FamilyRevoked
    else if m.retry.value.issues >= MAX_REFRESH_RETRY_ISSUES then RetryExhausted
    else
      var t, pair := m.retry.value.source, DerivedPair(m.retry.value.source.grant.version, req.secret);
      if !Presents(t, req, server.resource) || req.dpop != t.grant.dpop then Rejected
      else if server.tokenVersion == None then ServerError
      else if !Standing(t.grant, server, s.oauth) || AnsweredScope(t, req) != m.retry.value.accessScope then Rejected
      else if !PairStands(pair, s, now) then FamilyRevoked
      else if !ProofIsFresh(req) then Rejected
      else RetryIssued(pair, AnsweredScope(t, req))
  }

  function ExchangeAnswer(s: Stores, req: Request, server: Server, now: int): Outcome {
    if req.secret in s.refresh.tokens.at then RotationAnswer(s.refresh.tokens.at[req.secret], req, server, s.oauth, now)
    else if req.secret in s.refresh.consumed.at then ReplayAnswer(s.refresh.consumed.at[req.secret], req, server, s, now)
    else Rejected
  }

  lemma ValidationVerdict(t: RefreshToken, req: Request, server: Server, oauth: OAuthStore, allowBinding: bool)
    ensures Validate(t, req, server, oauth, allowBinding)
            == if !Presents(t, req, server.resource) || (req.dpop != t.grant.dpop && !allowBinding) then Refused
               else if server.tokenVersion == None then Unconfigured
               else if Standing(t.grant, server, oauth) then Granted(Bound(t, req), AnsweredScope(t, req))
               else Refused
  {
  }

  /** Only the final prune can turn the answer into that of a revoked family. */
  lemma RotateOutcome(s: Stores, req: Request, server: Server, now: int)
    requires req.secret in s.refresh.tokens.at
    ensures var t := s.refresh.tokens.at[req.secret];
            var answer, e := RotationAnswer(t, req, server, s.oauth, now), Rotate(s, t, req, server, now);
            && e.rotation.Some? == answer.Rotated?
            && (if answer.Rotated? then e.outcome == answer || e.outcome == FamilyRevoked else e.outcome == answer)
  {
    ValidationVerdict(s.refresh.tokens.at[req.secret], req, server, s.oauth, true);
    hide Validate, Presents, AnsweredScope, Consumed, Moved, NewMarker, Touched;
  }

  lemma RotateAnswers(s: Stores, h: History, req: Request, server: Server, now: int)
    requires Inv(s, h) && req.secret in s.refresh.tokens.at
    ensures var t := s.refresh.tokens.at[req.secret];
            var answer, outcome := RotationAnswer(t, req, server, s.oauth, now), Rotate(s, t, req, server, now).outcome;
            || outcome == answer
            || (answer.Rotated? && outcome == FamilyRevoked && |s.refresh.consumed.at| >= MAX_CONSUMED_REFRESH_TOKENS)
  {
    RotateOutcome(s, req, server, now);
    hide Rotate, RotationAnswer, RefreshRoom, AccessRoom, ExcessMarkers, PrunedReplayState, NewMarker;
    var e := Rotate(s, s.refresh.tokens.at[req.secret], req, server, now);
    if e.rotation.Some? && |s.refresh.consumed.at| < MAX_CONSUMED_REFRESH_TOKENS {
      var marked, scope := RotationBeforePrune(s, h, req, server, now);
      UnmarkedAndUnrevoked(s, h, req.secret);
      hide Inv;
      PutSize(s.refresh.consumed, req.secret, marked.refresh.consumed.at[req.secret], m => true);
      PruningKeepsFamilies(marked, server.hash);
    }
  }

  lemma PruningKeepsFamilies(s: Stores, hash: Secret -> int)
    requires ValidStores(s) && |s.refresh.consumed.at| <= MAX_CONSUMED_REFRESH_TOKENS
    ensures PrunedReplayState(s, hash).stores.refresh.revoked.at.Keys <= s.refresh.revoked.at.Keys
  {
    ExcessIsOldest(s.refresh.consumed, hash);
    assert ExcessMarkers(s.refresh.consumed, hash) == [];
  }

  lemma PresentedStands(t: RefreshToken, req: Request, server: Server, oauth: OAuthStore)
    ensures Presents(t, req, server.resource) ==> (t.grant.dpop == None || t.grant.dpop == req.dpop) && Within(AnsweredScope(t, req), t.scope)
    ensures Standing(t.grant, server, oauth) ==> server.tokenVersion == Some(t.grant.version)
  {
  }

  /** A rotation keeps what `Presents` compared, and files the token with the answered scope. */
  lemma RotationSource(s: Stores, req: Request, server: Server, now: int) returns (bound: RefreshToken, scope: Scope)
    requires req.secret in s.refresh.tokens.at
    requires Rotate(s, s.refresh.tokens.at[req.secret], req, server, now).rotation.Some?
    ensures var t, e := s.refresh.tokens.at[req.secret], Rotate(s, s.refresh.tokens.at[req.secret], req, server, now);
            && bound == Bound(t, req) && (t.grant.dpop == None || t.grant.dpop == bound.grant.dpop)
            && scope == AnsweredScope(t, req) && Within(scope, t.scope)
            && e.rotation == server.tokenVersion == Some(t.grant.version)
            && e.outcome == (if bound.grant.family in e.stores.refresh.revoked.at then FamilyRevoked
                             else Rotated(DerivedPair(e.rotation.value, req.secret), scope))
            && (var p := Consumed(Moved(s, bound, req.secret, e.rotation.value, scope, now), req.secret,
                                  NewMarker(bound, bound.familyExpiresAt, now, scope), server.hash);
                && e.stores == p.stores.(oauth := Touched(p.stores.oauth, bound.grant.client, now))
                && e.killed == p.killed)
  {
    var t := s.refresh.tokens.at[req.secret];
    ValidationVerdict(t, req, server, s.oauth, true);
    PresentedStands(t, req, server, s.oauth);
    hide Validate, Consumed, Moved, NewMarker, Touched, Presents, Standing, AnsweredScope, Within;
    bound, scope := Bound(t, req), AnsweredScope(t, req);
  }

  // ---- what a success hands out ----

  /** The tokens filed for an answer, wherever they are kept, and the marker that stands for the spent one. */
  ghost predicate Handed(s: Stores, t: RefreshToken, req: Request, version: Id, scope: Scope, now: int) {
    var grant := Grant(t.grant.client, t.grant.account, t.grant.accountVersion, t.grant.role, t.grant.resource, version, t.grant.family, req.dpop);
    var pair, idle, grace := DerivedPair(version, req.secret), now + 14 * 86400, now + 30;
    && (pair.access in s.oauth.tokens.at ==> s.oauth.tokens.at[pair.access] == AccessToken(grant, scope, now + 900))
    && (pair.refresh in s.refresh.tokens.at ==>
          s.refresh.tokens.at[pair.refresh]
          == RefreshToken(grant, t.scope, t.familyExpiresAt, now, if idle < t.familyExpiresAt then idle else t.familyExpiresAt))
    && (req.secret in s.refresh.consumed.at ==>
          s.refresh.consumed.at[req.secret]
          == Marker(t.grant.family, now, t.familyExpiresAt,
                    Some(Retry(if t.familyExpiresAt < grace then t.familyExpiresAt else grace, 0,
                               t.(grant := t.grant.(dpop := req.dpop)), scope))))
  }

  /** The client was used at `now`; nothing else about accounts and clients changed. */
  ghost predicate OnlyTouches(oauth: OAuthStore, oauth': OAuthStore, client: Id, now: int) {
    && oauth'.accounts == oauth.accounts
    && oauth'.clients.Keys == oauth.clients.Keys
    && forall c :: c in oauth.clients ==>
         oauth'.clients[c] == if c == client then Client(oauth.clients[c].trust, now) else oauth.clients[c]
  }

  lemma MarkedHands(s: Stores, t: RefreshToken, req: Request, version: Id, scope: Scope, now: int)
    requires ValidStores(s) && Replacement(version, req.secret) !in s.refresh.tokens.at
    requires ReplacementAccess(version, req.secret) !in s.oauth.tokens.at
    ensures var bound := Bound(t, req);
            var marked := WithMarker(Moved(s, bound, req.secret, version, scope, now), req.secret,
                                     NewMarker(bound, bound.familyExpiresAt, now, scope));
            Handed(marked, t, req, version, scope, now)
  {
    MovedTokens(s, Bound(t, req), req.secret, version, scope, now);
    hide Moved;
  }

  lemma FewerHanded(s: Stores, s': Stores, t: RefreshToken, req: Request, version: Id, scope: Scope, now: int)
    requires Handed(s, t, req, version, scope, now)
    requires Part(s'.refresh.tokens, s.refresh.tokens) && Part(s'.oauth.tokens, s.oauth.tokens)
    requires forall k :: k in s'.refresh.consumed.at ==> k in s.refresh.consumed.at && s'.refresh.consumed.at[k] == s.refresh.consumed.at[k]
    ensures Handed(s', t, req, version, scope, now)
  {
  }

  lemma {:induction false} EvictionSparesAccounts(s: Stores, victims: seq<Secret>)
    ensures EvictMarkers(s, victims).stores.oauth == s.oauth.(tokens := EvictMarkers(s, victims).stores.oauth.tokens)
    decreases |victims|
  {
    if victims != [] && victims[0] in s.refresh.consumed.at {
      EvictionSparesAccounts(EvictOne(s, victims[0]), victims[1..]);
    }
  }

  lemma PruningSparesAccounts(s: Stores, hash: Secret -> int)
    ensures var p := PrunedReplayState(s, hash);
            p.stores.oauth == s.oauth.(tokens := p.stores.oauth.tokens)
  {
    EvictionSparesAccounts(s, ExcessMarkers(s.refresh.consumed, hash));
  }

  lemma MarkersPart(s: Stores, hash: Secret -> int)
    requires ValidStores(s)
    ensures Part(PrunedReplayState(s, hash).stores.refresh.consumed, s.refresh.consumed)
    ensures Part(PrunedReplayState(s, hash).stores.oauth.tokens, s.oauth.tokens)
    ensures Part(PrunedReplayState(s, hash).stores.refresh.tokens, s.refresh.tokens)
  {
    PruneEffect(s, hash);
    PruneDropsOnly(s, hash);
  }

  lemma ExchangeHands(s: Stores, h: History, req: Request, server: Server, now: int)
    requires Inv(s, h) && Exchanged(s, req, server, now).outcome.Rotated?
    ensures req.secret in s.refresh.tokens.at
    ensures var t, e := s.refresh.tokens.at[req.secret], Exchanged(s, req, server, now);
            && Handed(e.stores, t, req, t.grant.version, e.outcome.scope, now)
            && OnlyTouches(s.oauth, e.stores.oauth, t.grant.client, now)
  {
    hide Rotate, Replay, Moved, PrunedReplayState, Handed, NewMarker;
    ExchangeRotates(s, h, req, server, now);
    var t, e := s.refresh.tokens.at[req.secret], Exchanged(s, req, server, now);
    var bound, scope := RotationSource(s, req, server, now);
    var version := t.grant.version;
    SpentHistoryOk(h, req.secret, version);
    MarkedHands(s, t, req, version, scope, now);
    RotationKeepsInv(s, h, req.secret, bound, version, scope, now);
    var marked := WithMarker(Moved(s, bound, req.secret, version, scope, now), req.secret, NewMarker(bound, bound.familyExpiresAt, now, scope));
    assert ValidStores(marked);
    hide Inv;
    MarkersPart(marked, server.hash);
    FewerHanded(marked, e.stores, t, req, version, scope, now);
    RotationTouches(s, bound, req.secret, version, scope, server.hash, now);
  }

  lemma RotationTouches(s: Stores, bound: RefreshToken, key: Secret, version: Id, scope: Scope, hash: Secret -> int, now: int)
    ensures var p := Consumed(Moved(s, bound, key, version, scope, now), key, NewMarker(bound, bound.familyExpiresAt, now, scope), hash);
            OnlyTouches(s.oauth, Touched(p.stores.oauth, bound.grant.client, now), bound.grant.client, now)
  {
    var marked := WithMarker(Moved(s, bound, key, version, scope, now), key, NewMarker(bound, bound.familyExpiresAt, now, scope));
    hide NewMarker, PrunedReplayState;
    PruningSparesAccounts(marked, hash);
  }

  /**
   * A rotation answered as a success files an access token of the answered scope for fifteen minutes and a refresh token
   * of the old scope for fourteen days or what is left of the family, both under the presented key, and a marker good for
   * thirty seconds of retries. Apart from the client's time of use, accounts and clients stay as they are.
   */
  lemma RotationHands(actions: seq<Action>, a: Action)
    requires Possible(GENESIS, actions) && a.Refresh?
    requires Response(Run(GENESIS, actions), a).Rotated?
    ensures a.request.secret in AfterLoad(Run(GENESIS, actions), a.loadedAt, a.server.hash).stores.refresh.tokens.at
    ensures var sys := Run(GENESIS, actions);
            var s, s' := AfterLoad(sys, a.loadedAt, a.server.hash).stores, Step(sys, a).stores;
            var t := s.refresh.tokens.at[a.request.secret];
            && Handed(s', t, a.request, t.grant.version, Response(sys, a).scope, a.now)
            && OnlyTouches(s.oauth, s'.oauth, t.grant.client, a.now)
  {
    hide Exchanged, Loaded, Inv, Handed, OnlyTouches;
    var loaded := AfterLoad(Run(GENESIS, actions), a.loadedAt, a.server.hash);
    ReachableLoad(actions, a.loadedAt, a.server.hash);
    ExchangeHands(loaded.stores, loaded.history, a.request, a.server, a.now);
  }

  /** A redeemed code's pair: what the code granted, for fifteen minutes and for fourteen days of a family of thirty. */
  lemma RedeemHands(s: Stores, grant: Grant, scope: Scope, pair: TokenPair, version: Id, now: int)
    requires ValidStores(s)
    ensures var r, day := Issued(s, CodeSource(grant, scope, now), pair, version, scope, now), 86400;
            var held := Grant(grant.client, grant.account, grant.accountVersion, grant.role, grant.resource, version, grant.family, grant.dpop);
            && (pair.access in r.oauth.tokens.at ==> r.oauth.tokens.at[pair.access] == AccessToken(held, scope, now + 900))
            && (pair.refresh in r.refresh.tokens.at ==>
                  r.refresh.tokens.at[pair.refresh] == RefreshToken(held, scope, now + 30 * day, now, now + 14 * day))
  {
    IssuedIsBounded(s, CodeSource(grant, scope, now), pair, version, scope, now);
    hide Issued;
  }

  /** A retry counts itself in the marker and touches the client; a refusal leaves the stores alone, but for an expired family's token. */
  lemma OtherAnswersEffect(s: Stores, req: Request, server: Server, now: int)
    ensures var e, live, spent := Exchanged(s, req, server, now), s.refresh.tokens.at, s.refresh.consumed.at;
            && (e.outcome.RetryIssued? ==>
                  && req.secret in spent && spent[req.secret].retry.Some?
                  && var m := spent[req.secret];
                     var retry := m.retry.value;
                     && e.stores.refresh.consumed.at
                        == spent[req.secret := m.(retry := Some(Retry(retry.until, retry.issues + 1, retry.source, retry.accessScope)))]
                     && e.stores.refresh == s.refresh.(consumed := e.stores.refresh.consumed)
                     && e.stores.oauth.tokens == s.oauth.tokens
                     && OnlyTouches(s.oauth, e.stores.oauth, retry.source.grant.client, now))
            && (e.outcome.Rejected? || e.outcome.ServerError? || e.outcome.RetryExhausted? ==>
                  || e.stores == s
                  || (&& req.secret in live && live[req.secret].familyExpiresAt <= now
                      && e.stores == s.(refresh := s.refresh.(tokens := s.refresh.tokens.Delete(req.secret)))))
  {
    hide PairActive, PrunedReplayState, Moved, NewMarker, Consumed;
    if req.secret in s.refresh.tokens.at {
      ValidationVerdict(s.refresh.tokens.at[req.secret], req, server, s.oauth, true);
      hide Validate, Presents, Standing;
      RotateNeverRetries(s, req, server, now);
    } else if req.secret in s.refresh.consumed.at {
      hide Validate;
      ReplayEffect(s, s.refresh.consumed.at[req.secret], req, server, now);
    }
  }

  // ---- loading ----

  /** A refresh token that is still good for its account at `now`. */
  predicate Good(t: RefreshToken, s: Stores, now: int) {
    && now < t.expiresAt && now < t.familyExpiresAt
    && t.grant.family !in s.refresh.revoked.at
    && t.grant.account in s.oauth.accounts && t.grant.client in s.oauth.clients
    && s.oauth.accounts[t.grant.account] == Account(true, t.grant.accountVersion, t.grant.role)
  }

  /** A marker at `now`: its retry goes once the grace is over. */
  ghost predicate Aged(m: Marker, m': Marker, now: int) {
    && now < m.expiresAt
    && m' == if m.retry.Some? && m.retry.value.until < now then Marker(m.family, m.consumedAt, m.expiresAt, None) else m
  }

  lemma ExpiryKeepsTheGood(s: Stores, now: int)
    ensures var tokens, markers, e := s.refresh.tokens.at, s.refresh.consumed.at, Expired(s, now);
            && e.refresh.tokens.at == (map k | k in tokens && Good(tokens[k], s, now) :: tokens[k])
            && e.oauth == s.oauth
            && (forall k :: k in markers && now < markers[k].expiresAt ==> k in e.refresh.consumed.at)
            && (forall k :: k in e.refresh.consumed.at ==> k in markers && Aged(markers[k], e.refresh.consumed.at[k], now))
  {
    forall k | k in s.refresh.tokens.at ensures Good(s.refresh.tokens.at[k], s, now) <==> Usable(s.refresh.tokens.at[k], s, now) {
    }
    hide Good, Usable;
  }

  /**
   * Loading keeps exactly the good refresh tokens of families it did not evict, and every access token of such families;
   * an unexpired marker keeps its retry until its grace is over; accounts and clients are untouched.
   */
  lemma LoadKeepsTheGood(s: Stores, now: int, hash: Secret -> int)
    requires ValidStores(s)
    ensures var p := Loaded(s, now, hash);
            var tokens, access, markers := s.refresh.tokens.at, s.oauth.tokens.at, s.refresh.consumed.at;
            && (forall k :: k in p.stores.refresh.tokens.at <==> k in tokens && Good(tokens[k], s, now) && tokens[k].grant.family !in p.killed)
            && Part(p.stores.refresh.tokens, s.refresh.tokens)
            && (forall k :: k in p.stores.oauth.tokens.at <==> k in access && access[k].grant.family !in p.killed)
            && Part(p.stores.oauth.tokens, s.oauth.tokens)
            && (forall k :: k in markers && now < markers[k].expiresAt && markers[k].family !in p.killed ==> k in p.stores.refresh.consumed.at)
            && (forall k :: k in p.stores.refresh.consumed.at ==> k in markers && Aged(markers[k], p.stores.refresh.consumed.at[k], now))
            && p.stores.oauth == s.oauth.(tokens := p.stores.oauth.tokens)
  {
    hide PrunedReplayState, Expired, Good, Aged, KeepsNewest, ValidStores;
    var expired, p := Expired(s, now), Loaded(s, now, hash);
    ExpiredValid(s, now);
    ExpiryKeepsTheGood(s, now);
    PruningIsBounded(expired, hash);
    MarkersPart(expired, hash);
    PruningSparesAccounts(expired, hash);
    forall k | k in s.refresh.consumed.at && now < s.refresh.consumed.at[k].expiresAt && s.refresh.consumed.at[k].family !in p.killed
      ensures k in p.stores.refresh.consumed.at
    {
      assert Aged(s.refresh.consumed.at[k], expired.refresh.consumed.at[k], now);
      AgedFamily(s.refresh.consumed.at[k], expired.refresh.consumed.at[k], now);
    }
  }

  lemma AgedFamily(m: Marker, m': Marker, now: int)
    requires Aged(m, m', now)
    ensures m'.family == m.family
  {
  }
}
