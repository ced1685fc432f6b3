/** Who owns a token, task or claim, and which owners a revoked authority denies: src/shared/authority-revocation.mjs. */
module Authorities {
  import opened Records

  datatype Owner = Owner(account: nat, version: nat, client: nat, family: nat, role: nat)

  /** A revoked authority: a whole account version, one of its clients, or one token family of a client. */
  datatype Scope = Scope(account: nat, version: nat, client: Option<nat>, family: Option<nat>)

  /** recordMatchesAuthorityRevocation */
  predicate Denies(s: Scope, o: Owner) {
    && o.account == s.account && o.version == s.version
    && (s.client.Some? ==> o.client == s.client.value)
    && (s.family.Some? ==> o.family == s.family.value)
  }
}
