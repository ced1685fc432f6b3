/** The durable OAuth records: src/worker/oauth-state.ts and the constants of the modules that maintain them. */
module OAuthStores {
  import opened Records

  /** Identifiers (accounts, clients, families, resources, key thumbprints), numbered in their localeCompare order. */
  type Id = nat

  /**
   * Refresh-token secrets as free terms: random ones never repeat, and the HMAC-derived replacement of a secret is
   * injective in the deployment's token version and the seed. Records are filed under the SHA-256 of a secret, which
   * is injective too, so the secret itself stands for its hash.
   */
  datatype Secret = Minted(nonce: nat) | Replacement(version: Id, seed: Secret)
  datatype AccessSecret = MintedAccess(nonce: nat) | ReplacementAccess(version: Id, seed: Secret)
  datatype TokenPair = TokenPair(access: AccessSecret, refresh: Secret)

  function DerivedPair(version: Id, seed: Secret): TokenPair {
    TokenPair(ReplacementAccess(version, seed), Replacement(version, seed))
  }

  datatype Role = Reviewer | Editor | Operator | Owner
  /** The two canonical scope strings, and any stored text that is not canonical for this server. */
  datatype Scope = ServerScope | ServerOfflineScope | StaleScope

  datatype Account = Account(active: bool, version: nat, role: Role)
  datatype Trust = Trust(account: Id, accountVersion: nat, role: Role)
  datatype Client = Client(trust: Option<Trust>, lastUsedAt: int)

  /** The fields every token of a pair shares. */
  datatype Grant = Grant(client: Id, account: Id, accountVersion: nat, role: Role, resource: Id, version: Id,
                         family: Id, dpop: Option<Id>)
  datatype AccessToken = AccessToken(grant: Grant, scope: Scope, expiresAt: int)
  datatype RefreshToken = RefreshToken(grant: Grant, scope: Scope, familyExpiresAt: int, issuedAt: int, expiresAt: int)

  /** What a consumed marker keeps while its retry grace lasts. */
  datatype Retry = Retry(until: int, issues: nat, source: RefreshToken, accessScope: Scope)
  datatype Marker = Marker(family: Id, consumedAt: int, expiresAt: int, retry: Option<Retry>)

  datatype OAuthStore = OAuthStore(accounts: map<Id, Account>, clients: map<Id, Client>,
                                   tokens: Record<AccessSecret, AccessToken>)
  /** `revoked` maps a revoked family to the expiry of its tombstone. */
  datatype RefreshStore = RefreshStore(tokens: Record<Secret, RefreshToken>, consumed: Record<Secret, Marker>,
                                       revoked: Record<Id, int>)
  datatype Stores = Stores(oauth: OAuthStore, refresh: RefreshStore)

  datatype Authority = Authority(account: Id, accountVersion: nat, client: Id, family: Id)

  const MAX_CONSUMED_REFRESH_TOKENS := 4096
  const MAX_REVOKED_REFRESH_FAMILIES := 1024
  const OAUTH_REFRESH_RETRY_GRACE_SECONDS := 30
  const MAX_REFRESH_RETRY_ISSUES := 2
  const ACCESS_TOKEN_TTL_SECONDS := 15 * 60
  const REFRESH_TOKEN_IDLE_TTL_SECONDS := 60 * 60 * 24 * 14
  const REFRESH_TOKEN_FAMILY_TTL_SECONDS := 60 * 60 * 24 * 30
  const MAX_ACCESS_TOKENS := 500
  const MAX_ACCESS_TOKENS_PER_CLIENT := 20
  const MAX_REFRESH_TOKENS := 500
  const MAX_REFRESH_TOKENS_PER_CLIENT := 20

  const NO_STORES := Stores(OAuthStore(map[], map[], Empty()), RefreshStore(Empty(), Empty(), Empty()))

  ghost predicate ValidStores(s: Stores) {
    && s.oauth.tokens.Valid()
    && s.refresh.tokens.Valid()
    && s.refresh.consumed.Valid()
    && s.refresh.revoked.Valid()
  }
}
