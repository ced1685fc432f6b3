/**
 * Issuing and exchanging tokens: src/worker/oauth-token-issuance.ts, src/worker/oauth-refresh-retry.ts and
 * src/worker/oauth-refresh-exchange.ts.
 */
module RefreshExchange {
  import opened Records
  import opened ExpiryPruning
  import opened OAuthStores
  import opened RefreshFamilies

  /** The deployment: its token version if configured, its `${base}/mcp` resource, and the order of token hashes. */
  datatype Server = Server(tokenVersion: Option<Id>, resource: Id, hash: Secret -> int)

  datatype Param<+T> = Absent | Malformed | Given(value: T)
  /** A refresh grant. `dpopUnused` is what consuming the DPoP proof's nonce answers. */
  datatype Request = Request(secret: Secret, client: Param<Id>, resource: Param<Id>, scope: Param<Scope>,
                             dpop: Option<Id>, dpopUnused: bool)

  // ---- issuance ----

  /** An authorization code or a refresh token, as the source of a pair. */
  datatype Source = Source(grant: Grant, scope: Scope, familyExpiresAt: int)

  function RefreshSource(t: RefreshToken): Source {
    Source(t.grant, t.scope, t.familyExpiresAt)
  }

  /** A redeemed code starts a family, which lives for thirty days. */
  function CodeSource(grant: Grant, scope: Scope, now: int): Source {
    Source(grant, scope, now + REFRESH_TOKEN_FAMILY_TTL_SECONDS)
  }

  function AccessExpiry(t: AccessToken): int { t.expiresAt }

  function RefreshExpiry(t: RefreshToken): int { t.expiresAt }

  function NewAccess(source: Source, version: Id, accessScope: Scope, now: int): AccessToken {
    AccessToken(source.grant.(version := version), accessScope, now + ACCESS_TOKEN_TTL_SECONDS)
  }

  function NewRefresh(source: Source, version: Id, now: int): RefreshToken {
    var idle := now + REFRESH_TOKEN_IDLE_TTL_SECONDS;
    RefreshToken(source.grant.(version := version), source.scope, source.familyExpiresAt, now,
                 if idle < source.familyExpiresAt then idle else source.familyExpiresAt)
  }

  function OfClientAccess(client: Id): AccessToken -> bool { (t: AccessToken) => t.grant.client == client }

  function OfClientRefresh(client: Id): RefreshToken -> bool { (t: RefreshToken) => t.grant.client == client }

  function PrunedAccess(tokens: Record<AccessSecret, AccessToken>, client: Id): Record<AccessSecret, AccessToken> {
    PrunedTwice(tokens, OfClientAccess(client), AccessExpiry, MAX_ACCESS_TOKENS_PER_CLIENT, MAX_ACCESS_TOKENS)
  }

  function PrunedRefresh(tokens: Record<Secret, RefreshToken>, client: Id): Record<Secret, RefreshToken> {
    PrunedTwice(tokens, OfClientRefresh(client), RefreshExpiry, MAX_REFRESH_TOKENS_PER_CLIENT, MAX_REFRESH_TOKENS)
  }

  /** Both stores with the pair filed and each token table pruned by expiry. */
  function Issued(s: Stores, source: Source, pair: TokenPair, version: Id, accessScope: Scope, now: int): Stores {
    Stores(
      s.oauth.(tokens := PrunedAccess(s.oauth.tokens.Put(pair.access, NewAccess(source, version, accessScope, now)),
                                      source.grant.client)),
      s.refresh.(tokens := PrunedRefresh(s.refresh.tokens.Put(pair.refresh, NewRefresh(source, version, now)),
                                         source.grant.client)))
  }

  // ---- validation ----

  datatype Verdict = Refused | Unconfigured | Granted(record: RefreshToken, accessScope: Scope)

  predicate ScopeSubset(requested: Scope, granted: Scope) {
    requested == granted || (requested == ServerScope && granted == ServerOfflineScope)
  }

  /** The account still has the authority the token was issued under, and the client is still bound to it. */
  predicate Authorized(g: Grant, oauth: OAuthStore) {
    && g.account in oauth.accounts
    && g.client in oauth.clients
    && (var account := oauth.accounts[g.account];
        && account.active
        && account.version == g.accountVersion
        && account.role == g.role
        && oauth.clients[g.client].trust == Some(Trust(g.account, g.accountVersion, g.role)))
  }

  /** validateRefreshGrant; a bearer token is bound to the caller's key where binding is allowed. */
  function Validate(record: RefreshToken, req: Request, server: Server, oauth: OAuthStore, allowBinding: bool): Verdict {
    var g := record.grant;
    if g.dpop.Some? && g.dpop != req.dpop then Refused
    else if g.dpop.None? && req.dpop.Some? && !allowBinding then Refused
    else if req.client != Given(g.client) then Refused
    else if req.resource.Malformed? || (req.resource.Given? && req.resource.value != g.resource)
            || g.resource != server.resource then Refused
    else if record.scope.StaleScope? then Refused
    else if req.scope.Malformed? || (req.scope.Given? && req.scope.value.StaleScope?) then Refused
    else
      var accessScope := if req.scope.Given? then req.scope.value else record.scope;
      if !ScopeSubset(accessScope, record.scope) then Refused
      else if server.tokenVersion.None? then Unconfigured
      else if Some(g.version) != server.tokenVersion || !Authorized(g, oauth) then Refused
      else Granted(record.(grant := g.(dpop := req.dpop)), accessScope)
  }

  // ---- retries ----

  /** consumedRefreshRetrySource */
  predicate Retryable(m: Marker, now: int) {
    m.retry.Some? && m.retry.value.until >= now && m.retry.value.issues < MAX_REFRESH_RETRY_ISSUES
  }

  predicate SameOwner(a: Grant, b: Grant) {
    a.client == b.client && a.account == b.account && a.accountVersion == b.accountVersion
  }

  /** activeConsumedRefreshRetryPair: the pair derived from the consumed secret is still the live one of its family. */
  predicate PairActive(pair: TokenPair, source: RefreshToken, family: Id, accessScope: Scope, s: Stores, now: int) {
    && pair.refresh in s.refresh.tokens.at
    && pair.access in s.oauth.tokens.at
    && pair.refresh !in s.refresh.consumed.at
    && (var refresh, access := s.refresh.tokens.at[pair.refresh], s.oauth.tokens.at[pair.access];
        && refresh.grant.family == family
        && access.grant.family == family
        && SameOwner(refresh.grant, source.grant)
        && SameOwner(access.grant, source.grant)
        && refresh.expiresAt > now
        && refresh.familyExpiresAt > now
        && access.expiresAt > now
        && access.scope == accessScope)
  }

  // ---- the exchange ----

  datatype Outcome =
    | Rejected
    | ServerError
    | Rotated(pair: TokenPair, scope: Scope)
    | RetryIssued(pair: TokenPair, scope: Scope)
    | RetryExhausted
    | FamilyRevoked

  /** `rotation` is the version a rotation was derived under, if the exchange consumed the presented secret. */
  datatype Exchange = Exchange(outcome: Outcome, stores: Stores, revocations: seq<Authority>, killed: set<Id>,
                               rotation: Option<Id>)

  function Unchanged(outcome: Outcome, s: Stores): Exchange {
    Exchange(outcome, s, [], {}, None)
  }

  function Touched(oauth: OAuthStore, client: Id, now: int): OAuthStore {
    if client in oauth.clients then
      oauth.(clients := oauth.clients[client := oauth.clients[client].(lastUsedAt := now)])
    else oauth
  }

  /** The stores once the replacement pair of `key` is issued and `key` itself deleted. */
  function Moved(s: Stores, source: RefreshToken, key: Secret, version: Id, accessScope: Scope, now: int): Stores {
    var issued := Issued(s, RefreshSource(source), DerivedPair(version, key), version, accessScope, now);
    issued.(refresh := issued.refresh.(tokens := issued.refresh.tokens.Delete(key)))
  }

  /** Presenting a live refresh token. */
  function Rotate(s: Stores, record: RefreshToken, req: Request, server: Server, now: int): Exchange {
    match Validate(record, req, server, s.oauth, true)
    case Refused => Unchanged(Rejected, s)
    case Unconfigured => Unchanged(ServerError, s)
    case Granted(bound, scope) =>
      if req.dpop.Some? && !req.dpopUnused then Unchanged(Rejected, s)
      else if bound.familyExpiresAt <= now then
        Unchanged(Rejected, s.(refresh := s.refresh.(tokens := s.refresh.tokens.Delete(req.secret))))
      else
        var version := server.tokenVersion.value;
        var pair := DerivedPair(version, req.secret);
        var p := Consumed(Moved(s, bound, req.secret, version, scope, now), req.secret,
                          NewMarker(bound, bound.familyExpiresAt, now, scope), server.hash);
        var stores := p.stores.(oauth := Touched(p.stores.oauth, bound.grant.client, now));
        Exchange(if bound.grant.family in stores.refresh.revoked.at then FamilyRevoked else Rotated(pair, scope),
                 stores, p.revocations, p.killed, Some(version))
  }

  /** Revoking the family of a replayed token, with its authority. */
  function RevokeReplayed(s: Stores, marker: Marker, server: Server): Exchange {
    var authority := FamilyAuthority(MarkerSource(marker), s, marker.family);
    var p := RevokedAndPruned(s, marker.family, marker.expiresAt, server.hash);
    Exchange(FamilyRevoked, p.stores, if authority.Some? then [authority.value] else [], p.killed, None)
  }

  function Reissued(s: Stores, key: Secret, marker: Marker, client: Id, now: int): Stores
    requires marker.retry.Some?
  {
    var retry := marker.retry.value;
    var counted := marker.(retry := Some(retry.(issues := retry.issues + 1)));
    Stores(Touched(s.oauth, client, now), s.refresh.(consumed := s.refresh.consumed.Put(key, counted)))
  }

  /** Presenting a consumed one. */
  function Replay(s: Stores, marker: Marker, req: Request, server: Server, now: int): Exchange {
    if marker.expiresAt <= now || marker.family in s.refresh.revoked.at then Unchanged(Rejected, s)
    else if Retryable(marker, now) then
      var retry := marker.retry.value;
      match Validate(retry.source, req, server, s.oauth, false) {
        case Refused => Unchanged(Rejected, s)
        case Unconfigured => Unchanged(ServerError, s)
        case Granted(_, scope) =>
          if scope != retry.accessScope then Unchanged(Rejected, s)
          else
            var pair := DerivedPair(server.tokenVersion.value, req.secret);
            if !PairActive(pair, retry.source, marker.family, retry.accessScope, s, now) then
              RevokeReplayed(s, marker, server)
            else if req.dpop.Some? && !req.dpopUnused then Unchanged(Rejected, s)
            else
              Exchange(RetryIssued(pair, retry.accessScope),
                       Reissued(s, req.secret, marker, retry.source.grant.client, now), [], {}, None)
      }
    else if marker.retry.Some? && marker.retry.value.until >= now
            && marker.retry.value.issues >= MAX_REFRESH_RETRY_ISSUES then
      Unchanged(RetryExhausted, s)
    else RevokeReplayed(s, marker, server)
  }

  /** exchangeRefreshToken on freshly loaded stores. */
  function Exchanged(s: Stores, req: Request, server: Server, now: int): Exchange {
    if req.secret in s.refresh.tokens.at then Rotate(s, s.refresh.tokens.at[req.secret], req, server, now)
    else if req.secret in s.refresh.consumed.at then Replay(s, s.refresh.consumed.at[req.secret], req, server, now)
    else Unchanged(Rejected, s)
  }
}
