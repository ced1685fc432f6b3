/** Concrete runs and states in which a refresh grant is answered as a success with a pair that is already dead. */
module RefreshWitnesses {
  import opened Records
  import opened StableSort
  import opened ExpiryPruning
  import opened OAuthStores
  import opened RefreshFamilies
  import opened RefreshExchange
  import opened RefreshRuns
  import opened RefreshBounds
  import opened RefreshGuarantees
  import opened RefreshSuccess

  // ---- one account and one client ----

  const ACCOUNTS: map<Id, Account> := map[0 := Account(true, 1, Owner)]
  const CLIENTS: map<Id, Client> := map[0 := Client(Some(Trust(0, 1, Owner)), 0)]

  function GrantOf(family: Id): Grant { Grant(0, 0, 1, Owner, 0, 0, family, None) }

  function Ask(key: Secret): Request { Request(key, Given(0), Absent, Absent, None, true) }

  // ---- a run in which the old token outlasts the new one ----

  const DAY := 24 * 60 * 60
  const SERVER := Server(Some(0), 0, NoOrder())

  function NoOrder(): Secret -> int { k => 0 }

  function Login(n: nat, now: int): Action {
    Redeem(GrantOf(n), ServerScope, TokenPair(MintedAccess(n), Minted(n)), 0, now)
  }

  function Grants(key: Secret, now: int): Action { Refresh(Ask(key), SERVER, now, now, true) }

  function Logins(n: nat, end: nat, now: int): seq<Action>
    requires n <= end
    decreases end - n
  {
    if n == end then [] else [Login(n, now)] + Logins(n + 1, end, now)
  }

  function LoginToken(n: nat, now: int): RefreshToken {
    NewRefresh(CodeSource(GrantOf(n), ServerScope, now), 0, now)
  }

  function NextToken(t: RefreshToken, now: int): RefreshToken {
    NewRefresh(RefreshSource(t), 0, now)
  }

  /** `live` are the refresh tokens, families 0 to n - 1 exist, and there is no tombstone. */
  ghost predicate Stage(sys: System, live: map<Secret, RefreshToken>, n: nat, spent: nat) {
    Inv(sys.stores, sys.history) && Staged(sys, live, n, spent)
  }

  ghost predicate Staged(sys: System, live: map<Secret, RefreshToken>, n: nat, spent: nat) {
    && sys.stores.refresh.tokens.at == live
    && (forall k :: k in live ==> live[k].grant == GrantOf(live[k].grant.family) && live[k].scope == ServerScope)
    && sys.stores.refresh.revoked.at == map[]
    && |sys.stores.refresh.consumed.at| <= spent
    && sys.stores.oauth.accounts == ACCOUNTS
    && 0 in sys.stores.oauth.clients && sys.stores.oauth.clients[0].trust == Some(Trust(0, 1, Owner))
    && (forall f :: f in sys.history.families ==> f < n)
    && (forall k :: k in sys.history.issued && k.Minted? ==> k.nonce < n)
  }

  lemma AllOwned(tokens: Record<Secret, RefreshToken>)
    requires forall k :: k in tokens.at ==> tokens.at[k].grant.client == 0
    ensures OwnedKeys(tokens, OfClientRefresh(0)) == tokens.at.Keys && |tokens.at.Keys| == |tokens.at|
  {
  }

  lemma FiledWithRoom(s: Stores, source: Source, pair: TokenPair, version: Id, accessScope: Scope, now: int)
    requires ValidStores(s) && source.grant.client == 0 && |s.refresh.tokens.at| < MAX_REFRESH_TOKENS_PER_CLIENT
    requires forall k :: k in s.refresh.tokens.at ==> s.refresh.tokens.at[k].grant.client == 0
    ensures var r := Issued(s, source, pair, version, accessScope, now);
            r.refresh.tokens == s.refresh.tokens.Put(pair.refresh, NewRefresh(source, version, now))
  {
    var refresh := NewRefresh(source, version, now);
    var filed := s.refresh.tokens.Put(pair.refresh, refresh);
    PutValid(s.refresh.tokens, pair.refresh, refresh);
    PutSize(s.refresh.tokens, pair.refresh, refresh, OfClientRefresh(0));
    AllOwned(filed);
    PrunedTwiceKeepsAll(filed, OfClientRefresh(0), RefreshExpiry, MAX_REFRESH_TOKENS_PER_CLIENT, MAX_REFRESH_TOKENS);
  }

  lemma LoginTokenGrant(n: nat, now: int)
    ensures LoginToken(n, now).grant == GrantOf(n) && LoginToken(n, now).scope == ServerScope
  {
  }

  lemma LoginStage(sys: System, live: map<Secret, RefreshToken>, n: nat, spent: nat, now: int)
    requires Stage(sys, live, n, spent) && |live| < MAX_REFRESH_TOKENS_PER_CLIENT
    ensures Enabled(sys, Login(n, now))
    ensures Stage(Step(sys, Login(n, now)), live[Minted(n) := LoginToken(n, now)], n + 1, spent)
  {
    hide PrunedTwice, HistoryOk, LiveOk, Linear, AccessOk, MarkersOk, Remembered, ValidStores, NewRefresh, NewAccess;
    var source, pair := CodeSource(GrantOf(n), ServerScope, now), TokenPair(MintedAccess(n), Minted(n));
    StepKeepsInv(sys, Login(n, now));
    FiledWithRoom(sys.stores, source, pair, 0, ServerScope, now);
    hide Inv;
    LoginTokenGrant(n, now);
  }

  lemma NoTombstones(s: Stores, hash: Secret -> int)
    requires ValidStores(s) && s.refresh.revoked.at == map[] && |s.refresh.consumed.at| <= MAX_CONSUMED_REFRESH_TOKENS
    ensures PrunedReplayState(s, hash).stores.refresh.revoked.at == map[]
  {
    ExcessIsOldest(s.refresh.consumed, hash);
    assert ExcessMarkers(s.refresh.consumed, hash) == [];
  }

  /** Nothing has expired, and nothing is over its cap: loading changes no token. */
  lemma QuietLoad(s: Stores, now: int, hash: Secret -> int)
    requires ValidStores(s) && s.refresh.revoked.at == map[] && |s.refresh.consumed.at| <= MAX_CONSUMED_REFRESH_TOKENS
    requires forall k :: k in s.refresh.tokens.at ==> Usable(s.refresh.tokens.at[k], s, now)
    ensures var p := Loaded(s, now, hash);
            && p.stores.refresh.tokens == s.refresh.tokens && p.stores.oauth == s.oauth
            && |p.stores.refresh.consumed.at| <= |s.refresh.consumed.at|
            && p.stores.refresh.revoked.at == map[] && p.killed == {}
  {
    var quiet := Expired(s, now);
    ExpiredValid(s, now);
    KeepAll(s.refresh.tokens, set k | k in s.refresh.tokens.at && Usable(s.refresh.tokens.at[k], s, now));
    SubsetSize(quiet.refresh.consumed.at.Keys, s.refresh.consumed.at.Keys);
    assert |quiet.refresh.consumed.at| == |quiet.refresh.consumed.at.Keys| && |s.refresh.consumed.at| == |s.refresh.consumed.at.Keys|;
    PruningWithinCap(quiet, hash);
    assert quiet.refresh.revoked.at == map[];
    NoTombstones(quiet, hash);
  }

  ghost predicate Unexpired(live: map<Secret, RefreshToken>, now: int) {
    forall k :: k in live ==> live[k].expiresAt > now && live[k].familyExpiresAt > now
  }

  lemma LoadStage(sys: System, live: map<Secret, RefreshToken>, n: nat, spent: nat, now: int)
    requires Stage(sys, live, n, spent) && spent <= MAX_CONSUMED_REFRESH_TOKENS && Unexpired(live, now)
    ensures Stage(AfterLoad(sys, now, SERVER.hash), live, n, spent)
  {
    hide HistoryOk, LiveOk, Linear, AccessOk, MarkersOk, Remembered, Loaded;
    LoadKeepsInv(sys.stores, sys.history, now, SERVER.hash);
    QuietLoad(sys.stores, now, SERVER.hash);
  }

  lemma GrantIsValid(sys: System, live: map<Secret, RefreshToken>, n: nat, spent: nat, key: Secret)
    requires Stage(sys, live, n, spent) && key in live
    ensures Validate(live[key], Ask(key), SERVER, sys.stores.oauth, true) == Granted(live[key], ServerScope)
  {
    assert live[key].grant == GrantOf(live[key].grant.family);
  }

  /** The mark of one more spent secret, within the caps. */
  lemma MarkWithRoom(s: Stores, t: RefreshToken, key: Secret, spent: nat, now: int)
    requires ValidStores(s) && s.refresh.revoked.at == map[] && |s.refresh.consumed.at| <= spent < MAX_CONSUMED_REFRESH_TOKENS
    ensures var m := Moved(s, t, key, 0, ServerScope, now);
            var p := Consumed(m, key, NewMarker(t, t.familyExpiresAt, now, ServerScope), SERVER.hash);
            && p.stores.refresh.tokens == m.refresh.tokens && p.stores.oauth == m.oauth
            && p.stores.refresh.revoked.at == map[] && |p.stores.refresh.consumed.at| <= spent + 1
            && m.oauth.accounts == s.oauth.accounts && m.oauth.clients == s.oauth.clients
  {
    var marker := NewMarker(t, t.familyExpiresAt, now, ServerScope);
    var marked := WithMarker(Moved(s, t, key, 0, ServerScope, now), key, marker);
    MovedTokens(s, t, key, 0, ServerScope, now);
    hide PrunedReplayState, PrunedTwice;
    PutValid(s.refresh.consumed, key, marker);
    PutSize(s.refresh.consumed, key, marker, m => true);
    PruningWithinCap(marked, SERVER.hash);
    NoTombstones(marked, SERVER.hash);
  }

  lemma GrantIsAnswered(sys: System, live: map<Secret, RefreshToken>, n: nat, spent: nat, key: Secret, now: int)
    requires Stage(sys, live, n, spent) && spent < MAX_CONSUMED_REFRESH_TOKENS && key in live && live[key].familyExpiresAt > now
    ensures var e := Exchanged(sys.stores, Ask(key), SERVER, now);
            && e.rotation == Some(0) && e.outcome == Rotated(DerivedPair(0, key), ServerScope)
            && e.stores.refresh.tokens == Moved(sys.stores, live[key], key, 0, ServerScope, now).refresh.tokens
            && e.stores.refresh.revoked.at == map[] && |e.stores.refresh.consumed.at| <= spent + 1
            && e.stores.oauth.accounts == ACCOUNTS
            && 0 in e.stores.oauth.clients && e.stores.oauth.clients[0].trust == Some(Trust(0, 1, Owner))
  {
    hide HistoryOk, LiveOk, Linear, AccessOk, MarkersOk, Remembered, Moved, Consumed, Validate, NewMarker;
    GrantIsValid(sys, live, n, spent, key);
    MarkWithRoom(sys.stores, live[key], key, spent, now);
  }

  lemma GrantStage(sys: System, live: map<Secret, RefreshToken>, n: nat, spent: nat, key: Secret, now: int)
    requires Stage(sys, live, n, spent) && spent < MAX_CONSUMED_REFRESH_TOKENS && key in live && Unexpired(live, now)
    requires |live| < MAX_REFRESH_TOKENS_PER_CLIENT
    ensures Stage(Step(sys, Grants(key, now)), (live - {key})[Replacement(0, key) := NextToken(live[key], now)], n, spent + 1)
  {
    LoadStage(sys, live, n, spent, now);
    StepKeepsInv(sys, Grants(key, now));
    StepOfGrant(sys, key, now);
    hide Step, Loaded, Exchanged, NewRefresh, Inv, Unexpired, Staged, Recorded, AfterLoad;
    GrantStaged(AfterLoad(sys, now, SERVER.hash), live, n, spent, key, now);
  }

  lemma StepOfGrant(sys: System, key: Secret, now: int)
    ensures var loaded := AfterLoad(sys, now, SERVER.hash);
            var e := Exchanged(loaded.stores, Ask(key), SERVER, now);
            Step(sys, Grants(key, now)) == System(e.stores, Recorded(loaded.history, e, key))
  {
    hide Loaded, Exchanged, Recorded;
  }

  lemma GrantStaged(sys: System, live: map<Secret, RefreshToken>, n: nat, spent: nat, key: Secret, now: int)
    requires Stage(sys, live, n, spent) && spent < MAX_CONSUMED_REFRESH_TOKENS && key in live && Unexpired(live, now)
    requires |live| < MAX_REFRESH_TOKENS_PER_CLIENT
    ensures var e := Exchanged(sys.stores, Ask(key), SERVER, now);
            Staged(System(e.stores, Recorded(sys.history, e, key)),
                   (live - {key})[Replacement(0, key) := NextToken(live[key], now)], n, spent + 1)
  {
    hide HistoryOk, LiveOk, Linear, AccessOk, MarkersOk, Remembered, ValidStores, Exchanged, NewRefresh, Moved, Recorded;
    GrantIsAnswered(sys, live, n, spent, key, now);
    MovedLiveTokens(sys.stores, live, key, now);
    NextTokenGrant(live[key], now);
    RecordedNames(sys.history, Exchanged(sys.stores, Ask(key), SERVER, now), key, n);
    hide Inv;
  }

  lemma RecordedNames(h: History, e: Exchange, key: Secret, n: nat)
    requires (forall f :: f in h.families ==> f < n) && forall k :: k in h.issued && k.Minted? ==> k.nonce < n
    requires e.rotation.Some?
    ensures var h' := Recorded(h, e, key);
            (forall f :: f in h'.families ==> f < n) && forall k :: k in h'.issued && k.Minted? ==> k.nonce < n
  {
  }

  lemma MovedLiveTokens(s: Stores, live: map<Secret, RefreshToken>, key: Secret, now: int)
    requires ValidStores(s) && s.refresh.tokens.at == live && key in live && |live| < MAX_REFRESH_TOKENS_PER_CLIENT
    requires forall k :: k in live ==> live[k].grant.client == 0
    ensures Moved(s, live[key], key, 0, ServerScope, now).refresh.tokens.at
            == (live - {key})[Replacement(0, key) := NextToken(live[key], now)]
  {
    hide PrunedTwice, NewRefresh, NewAccess;
    FiledWithRoom(s, RefreshSource(live[key]), DerivedPair(0, key), 0, ServerScope, now);
    assert Replacement(0, key) != key;
  }

  lemma NextTokenGrant(t: RefreshToken, now: int)
    requires t.grant == GrantOf(t.grant.family)
    ensures NextToken(t, now).grant == t.grant && NextToken(t, now).scope == t.scope
  {
  }

  lemma {:induction false} RunAppend(sys: System, a: seq<Action>, b: seq<Action>)
    requires Possible(sys, a) && Possible(Run(sys, a), b)
    ensures Possible(sys, a + b) && Run(sys, a + b) == Run(Run(sys, a), b)
    decreases |a|
  {
    hide Step, Enabled;
    if a == [] {
      assert a + b == b;
    } else {
      RunAppend(Step(sys, a[0]), a[1..], b);
      assert (a + b)[1..] == a[1..] + b;
    }
  }

  lemma RunOne(sys: System, a: Action)
    requires Enabled(sys, a)
    ensures Possible(sys, [a]) && Run(sys, [a]) == Step(sys, a)
  {
    assert [a][1..] == [];
    assert Run(Step(sys, a), []) == Step(sys, a);
  }

  lemma NotYetMinted(sys: System, live: map<Secret, RefreshToken>, n: nat, spent: nat)
    requires Stage(sys, live, n, spent)
    ensures Minted(n) !in live
  {
  }

  lemma LoginTokenTimes(n: nat, now: int)
    ensures LoginToken(n, now).expiresAt == now + REFRESH_TOKEN_IDLE_TTL_SECONDS
    ensures LoginToken(n, now).familyExpiresAt == now + REFRESH_TOKEN_FAMILY_TTL_SECONDS
  {
  }

  /** The tokens of `live`, and one of each family from n to end - 1. */
  ghost predicate Joined(live: map<Secret, RefreshToken>, all: map<Secret, RefreshToken>, now: int, count: nat) {
    && |all| == |live| + count
    && (forall k :: k in live ==> k in all && all[k] == live[k])
    && (forall k :: k in all && k !in live ==> all[k].expiresAt == now + REFRESH_TOKEN_IDLE_TTL_SECONDS
                                               && all[k].familyExpiresAt == now + REFRESH_TOKEN_FAMILY_TTL_SECONDS)
  }

  lemma {:induction false} LoginsStage(sys: System, live: map<Secret, RefreshToken>, n: nat, end: nat, spent: nat, now: int)
    returns (all: map<Secret, RefreshToken>)
    requires Stage(sys, live, n, spent) && n <= end && |live| + (end - n) <= MAX_REFRESH_TOKENS_PER_CLIENT
    ensures Possible(sys, Logins(n, end, now))
    ensures Stage(Run(sys, Logins(n, end, now)), all, end, spent) && Joined(live, all, now, end - n)
    decreases end - n
  {
    hide Stage, Step, Enabled, NewRefresh;
    if n == end {
      all := live;
    } else {
      NotYetMinted(sys, live, n, spent);
      LoginStage(sys, live, n, spent, now);
      LoginTokenTimes(n, now);
      all := LoginsStage(Step(sys, Login(n, now)), live[Minted(n) := LoginToken(n, now)], n + 1, end, spent, now);
      var rest := Logins(n + 1, end, now);
      assert ([Login(n, now)] + rest)[1..] == rest;
    }
  }

  const FIRST := Minted(0)
  const SECOND := Replacement(0, FIRST)
  const THIRD := Replacement(0, SECOND)
  const SETUP := Administer(ACCOUNTS, CLIENTS, {}, {})

  lemma SetupStage()
    ensures Stage(Step(GENESIS, SETUP), map[], 0, 0)
  {
    StepKeepsInv(GENESIS, SETUP);
  }

  ghost predicate Reached(actions: seq<Action>, live: map<Secret, RefreshToken>, n: nat, spent: nat) {
    Possible(GENESIS, actions) && Stage(Run(GENESIS, actions), live, n, spent)
  }

  lemma ThenLogin(actions: seq<Action>, live: map<Secret, RefreshToken>, n: nat, spent: nat, now: int)
    requires Reached(actions, live, n, spent) && |live| < MAX_REFRESH_TOKENS_PER_CLIENT
    ensures Reached(actions + [Login(n, now)], live[Minted(n) := LoginToken(n, now)], n + 1, spent)
  {
    hide Stage, Step, Enabled, NewRefresh;
    LoginStage(Run(GENESIS, actions), live, n, spent, now);
    RunOne(Run(GENESIS, actions), Login(n, now));
    RunAppend(GENESIS, actions, [Login(n, now)]);
  }

  lemma ThenGrant(actions: seq<Action>, live: map<Secret, RefreshToken>, n: nat, spent: nat, key: Secret, now: int)
    requires Reached(actions, live, n, spent) && spent < MAX_CONSUMED_REFRESH_TOKENS && key in live && Unexpired(live, now)
    requires |live| < MAX_REFRESH_TOKENS_PER_CLIENT
    ensures Reached(actions + [Grants(key, now)], (live - {key})[Replacement(0, key) := NextToken(live[key], now)], n, spent + 1)
  {
    hide Stage, Step, NewRefresh, Unexpired;
    GrantStage(Run(GENESIS, actions), live, n, spent, key, now);
    RunOne(Run(GENESIS, actions), Grants(key, now));
    RunAppend(GENESIS, actions, [Grants(key, now)]);
  }

  lemma ThenLogins(actions: seq<Action>, live: map<Secret, RefreshToken>, n: nat, end: nat, spent: nat, now: int)
    returns (all: map<Secret, RefreshToken>)
    requires Reached(actions, live, n, spent) && n <= end && |live| + (end - n) <= MAX_REFRESH_TOKENS_PER_CLIENT
    ensures Reached(actions + Logins(n, end, now), all, end, spent) && Joined(live, all, now, end - n)
  {
    hide Stage, Step, Logins, Joined;
    all := LoginsStage(Run(GENESIS, actions), live, n, end, spent, now);
    RunAppend(GENESIS, actions, Logins(n, end, now));
  }

  /** A family that began at time 0, rotated on its thirteenth and seventeenth day; then nineteen more sign-ins. */
  function BeforeTie(): seq<Action> {
    [SETUP] + [Login(0, 0)] + [Grants(FIRST, 13 * DAY)] + [Grants(SECOND, 17 * DAY)] + Logins(1, 20, 17 * DAY)
  }

  /** The third token of the family expires with it, after thirty days, and every other token of the client after 31. */
  ghost predicate Tied(live: map<Secret, RefreshToken>) {
    && |live| == MAX_REFRESH_TOKENS_PER_CLIENT
    && THIRD in live && live[THIRD].grant.family == 0
    && live[THIRD].expiresAt == live[THIRD].familyExpiresAt == 30 * DAY
    && forall k :: k in live && k != THIRD ==> live[k].expiresAt == 31 * DAY && live[k].familyExpiresAt == 47 * DAY
  }

  lemma ThirdToken()
    ensures var second := NextToken(LoginToken(0, 0), 13 * DAY);
            && LoginToken(0, 0).expiresAt == 14 * DAY && LoginToken(0, 0).familyExpiresAt == 30 * DAY
            && second.expiresAt == 27 * DAY && second.familyExpiresAt == 30 * DAY
            && NextToken(second, 17 * DAY).grant.family == 0
            && NextToken(second, 17 * DAY).expiresAt == NextToken(second, 17 * DAY).familyExpiresAt == 30 * DAY
  {
  }

  lemma BeforeTieIsReached() returns (live: map<Secret, RefreshToken>)
    ensures Reached(BeforeTie(), live, 20, 2) && Tied(live)
  {
    hide Stage, Step, Logins, Reached, NewRefresh;
    var first, second := LoginToken(0, 0), NextToken(LoginToken(0, 0), 13 * DAY);
    var third := NextToken(second, 17 * DAY);
    ThirdToken();
    assert Reached([SETUP], map[], 0, 0) by {
      SetupIsReached();
    }
    ThenLogin([SETUP], map[], 0, 0, 0);
    assert map[][FIRST := first] == map[FIRST := first];
    ThenGrant([SETUP] + [Login(0, 0)], map[FIRST := first], 1, 0, FIRST, 13 * DAY);
    assert (map[FIRST := first] - {FIRST})[SECOND := second] == map[SECOND := second];
    ThenGrant([SETUP] + [Login(0, 0)] + [Grants(FIRST, 13 * DAY)], map[SECOND := second], 1, 1, SECOND, 17 * DAY);
    assert (map[SECOND := second] - {SECOND})[THIRD := third] == map[THIRD := third];
    live := ThenLogins([SETUP] + [Login(0, 0)] + [Grants(FIRST, 13 * DAY)] + [Grants(SECOND, 17 * DAY)],
                       map[THIRD := third], 1, 20, 2, 17 * DAY);
  }

  lemma SetupIsReached()
    ensures Reached([SETUP], map[], 0, 0)
  {
    SetupStage();
    hide Stage, Step;
    RunOne(GENESIS, SETUP);
  }

  /**
   * On the eighteenth day the family's token is rotated once more. The new token ties with the one it replaces, and
   * with nineteen longer-lived ones ahead it is the one that is pruned; then the old one is deleted. The answer is a
   * success, and the family has no refresh token.
   */
  lemma SuccessCanCarryDeadPair()
    ensures Possible(GENESIS, BeforeTie() + [Grants(THIRD, 18 * DAY)])
    ensures var sys, last := Run(GENESIS, BeforeTie()), Grants(THIRD, 18 * DAY);
            && Response(sys, last) == Rotated(DerivedPair(0, THIRD), ServerScope)
            && Response(sys, last).pair.refresh !in Step(sys, last).stores.refresh.tokens.at
            && forall k :: k in Step(sys, last).stores.refresh.tokens.at ==> Step(sys, last).stores.refresh.tokens.at[k].grant.family != 0
  {
    var live := BeforeTieIsReached();
    TieIsLost(BeforeTie(), live);
    hide Stage, Step, Logins, BeforeTie;
    RunOne(Run(GENESIS, BeforeTie()), Grants(THIRD, 18 * DAY));
    RunAppend(GENESIS, BeforeTie(), [Grants(THIRD, 18 * DAY)]);
  }

  lemma NoRoom(tokens: Record<Secret, RefreshToken>)
    requires Tied(tokens.at) && forall k :: k in tokens.at ==> tokens.at[k].grant.client == 0
    ensures !RefreshRoom(tokens, 0, 30 * DAY)
  {
    assert OwnedOutlasting(tokens, OfClientRefresh(0), RefreshExpiry, 30 * DAY) == tokens.at.Keys;
    assert |tokens.at| == |tokens.at.Keys|;
  }

  lemma TieIsLost(actions: seq<Action>, live: map<Secret, RefreshToken>)
    requires Reached(actions, live, 20, 2) && Tied(live)
    ensures var sys, last := Run(GENESIS, actions), Grants(THIRD, 18 * DAY);
            && Response(sys, last) == Rotated(DerivedPair(0, THIRD), ServerScope)
            && Response(sys, last).pair.refresh !in Step(sys, last).stores.refresh.tokens.at
            && forall k :: k in Step(sys, last).stores.refresh.tokens.at ==> Step(sys, last).stores.refresh.tokens.at[k].grant.family != 0
  {
    hide Loaded, Exchanged, Stage, Tied, PairFate, RefreshRoom, AccessRoom, Step;
    var sys, last := Run(GENESIS, actions), Grants(THIRD, 18 * DAY);
    var loaded := AfterLoad(sys, 18 * DAY, SERVER.hash);
    LastIsAnswered(sys, live);
    OneClient(loaded, live);
    NoRoom(loaded.stores.refresh.tokens);
    SuccessIsLiveIff(actions, last);
    LastHasNoRoom(loaded.stores, Step(sys, last).stores, live);
    OthersAreOfOtherFamilies(loaded, live);
  }

  lemma TiedIsUnexpired(live: map<Secret, RefreshToken>)
    requires Tied(live)
    ensures Unexpired(live, 18 * DAY) && THIRD in live && live[THIRD].familyExpiresAt > 18 * DAY
  {
  }

  lemma LastIsAnswered(sys: System, live: map<Secret, RefreshToken>)
    requires Stage(sys, live, 20, 2) && Tied(live)
    ensures THIRD in live
    ensures Stage(AfterLoad(sys, 18 * DAY, SERVER.hash), live, 20, 2)
    ensures Response(sys, Grants(THIRD, 18 * DAY)) == Rotated(DerivedPair(0, THIRD), ServerScope)
    ensures Step(sys, Grants(THIRD, 18 * DAY)).stores.refresh.tokens
            == Moved(AfterLoad(sys, 18 * DAY, SERVER.hash).stores, live[THIRD], THIRD, 0, ServerScope, 18 * DAY).refresh.tokens
  {
    hide Stage, Loaded, Exchanged, Moved, Tied;
    TiedIsUnexpired(live);
    LoadStage(sys, live, 20, 2, 18 * DAY);
    hide Unexpired;
    GrantIsAnswered(AfterLoad(sys, 18 * DAY, SERVER.hash), live, 20, 2, THIRD, 18 * DAY);
  }

  lemma OneClient(sys: System, live: map<Secret, RefreshToken>)
    requires Stage(sys, live, 20, 2)
    ensures sys.stores.refresh.tokens.at == live && forall k :: k in live ==> live[k].grant.client == 0
  {
  }

  lemma LastHasNoRoom(s: Stores, s': Stores, live: map<Secret, RefreshToken>)
    requires s.refresh.tokens.at == live && Tied(live) && live[THIRD].grant.client == 0
    requires !RefreshRoom(s.refresh.tokens, 0, 30 * DAY)
    requires PairFate(s, s', Ask(THIRD), SERVER.hash, 18 * DAY, DerivedPair(0, THIRD), ServerScope)
    ensures Replacement(0, THIRD) !in s'.refresh.tokens.at
  {
    hide RefreshRoom, AccessRoom, FamilyEvicted, ExcessMarkers;
    assert NextExpiry(live[THIRD], 18 * DAY) == 30 * DAY;
  }

  lemma OthersAreOfOtherFamilies(sys: System, live: map<Secret, RefreshToken>)
    requires Stage(sys, live, 20, 2) && Tied(live)
    ensures var m := Moved(sys.stores, live[THIRD], THIRD, 0, ServerScope, 18 * DAY).refresh.tokens.at;
            forall k :: k in m && k != Replacement(0, THIRD) ==> m[k].grant.family != 0
  {
    hide Moved;
    MovedTokens(sys.stores, live[THIRD], THIRD, 0, ServerScope, 18 * DAY);
  }

  // ---- a full state in which a success signs out ----

  const NOON := 43200
  const SOON := NOON + 600
  const LATER := NOON + 700

  const LAST_TOKEN := RefreshToken(GrantOf(0), ServerScope, SOON, NOON - 60, SOON)

  function FirstHash(): Secret -> int {
    k => if k == Minted(0) then 0 else 1
  }

  const SOME_SERVER := Server(Some(0), 0, FirstHash())

  function MintedNumbers(n: nat): (s: seq<Secret>)
    ensures |s| == n && forall i :: 0 <= i < n ==> s[i] == Minted(i + 1)
  {
    if n == 0 then [] else MintedNumbers(n - 1) + [Minted(n)]
  }

  function Numbers(first: nat, n: nat): (s: seq<Id>)
    ensures |s| == n && forall i :: 0 <= i < n ==> s[i] == first + i
  {
    if n == 0 then [] else Numbers(first, n - 1) + [first + n - 1]
  }

  lemma RecordSize<K, V>(r: Record<K, V>)
    requires r.Valid()
    ensures |r.at| == |r.order|
  {
    DistinctSize(r.order);
    assert |r.at| == |r.at.Keys|;
  }

  /** The marker of a token of family `n` that was rotated in this very second, with its whole retry grace ahead. */
  function FreshMarker(n: nat): Marker {
    NewMarker(RefreshToken(GrantOf(n), ServerScope, LATER, NOON - 60, LATER), LATER, NOON, ServerScope)
  }

  lemma FreshMarkerIs(n: nat)
    ensures var m := FreshMarker(n);
            && m.family == n && m.consumedAt == NOON && m.expiresAt == LATER
            && m.retry.Some? && m.retry.value.until == NOON + OAUTH_REFRESH_RETRY_GRACE_SECONDS && m.retry.value.issues == 0
            && m.retry.value.source.grant == GrantOf(n)
  {
  }

  /** A marker of each of the families 1 to n, all of the same second. */
  lemma FullMarkers(n: nat) returns (r: Record<Secret, Marker>)
    ensures r.Valid() && |r.at| == n
    ensures forall k :: k in r.at ==> k.Minted? && 1 <= k.nonce <= n && r.at[k] == FreshMarker(k.nonce)
  {
    hide FreshMarker;
    r := Record(MintedNumbers(n), AllMarkers(n));
    hide AllMarkers, MintedNumbers;
    forall k ensures k in r.order <==> k in r.at {
      if k in r.at {
        assert r.order[k.nonce - 1] == k;
      }
    }
    RecordSize(r);
  }

  function AllMarkers(n: nat): (m: map<Secret, Marker>)
    ensures forall k :: k in m <==> k.Minted? && 1 <= k.nonce <= n
    ensures forall k :: k in m ==> m[k] == FreshMarker(k.nonce)
  {
    if n == 0 then map[] else AllMarkers(n - 1)[Minted(n) := FreshMarker(n)]
  }

  /** Tombstones of `n` families, from `first` on. */
  lemma FullTombstones(first: nat, n: nat) returns (r: Record<Id, int>)
    ensures r.Valid() && |r.at| == n
    ensures forall f :: f in r.at ==> first <= f < first + n && r.at[f] == LATER
  {
    var keys := Numbers(first, n);
    r := Record(keys, map f | f in keys :: LATER);
    hide Numbers;
    RecordSize(r);
  }

  /** Every family up to 5120 exists, each with one secret; that of family 0 alone is unspent, and the last 1024 are revoked. */
  ghost predicate FullHistory(h: History) {
    && (forall f :: f in h.families ==> h.families[f] == Family(0, 1, 0, if f == 0 then SOON else LATER))
    && (forall f: Id :: f < 5121 ==> f in h.families)
    && (forall k :: k in h.issued ==> k.Minted? && k.nonce <= 4096 && h.issued[k] == k.nonce)
    && (forall n: nat :: n <= 4096 ==> Minted(n) in h.issued)
    && (forall k :: k in h.spent ==> k.Minted? && 1 <= k.nonce <= 4096 && h.spent[k].retries == 0)
    && (forall n: nat :: 1 <= n <= 4096 ==> Minted(n) in h.spent)
    && (forall f: Id :: f in h.revoked <==> 4097 <= f < 5121)
  }

  lemma SomeHistory() returns (h: History)
    ensures FullHistory(h)
  {
    hide AllIssued, AllSpent, AllFamilies;
    var revoked := LastFamilies();
    h := History(AllFamilies(5121), AllIssued(4096), AllSpent(4096), revoked);
  }

  lemma LastFamilies() returns (revoked: set<Id>)
    ensures forall f: Id :: f in revoked <==> 4097 <= f < 5121
  {
    revoked := Members(Numbers(4097, 1024));
    forall f: Id | 4097 <= f < 5121 ensures f in revoked {
      assert Numbers(4097, 1024)[f - 4097] == f;
    }
  }

  function AllFamilies(n: nat): (m: map<Id, Family>)
    ensures forall f: Id :: f in m <==> f < n
    ensures forall f :: f in m ==> m[f] == Family(0, 1, 0, if f == 0 then SOON else LATER)
  {
    if n == 0 then map[] else AllFamilies(n - 1)[n - 1 := Family(0, 1, 0, if n == 1 then SOON else LATER)]
  }

  function AllIssued(n: nat): (m: map<Secret, Id>)
    ensures forall k :: k in m <==> k.Minted? && k.nonce <= n
    ensures forall k :: k in m ==> m[k] == k.nonce
  {
    (if n == 0 then map[] else AllIssued(n - 1))[Minted(n) := n]
  }

  function AllSpent(n: nat): (m: map<Secret, Spent>)
    ensures forall k :: k in m <==> k.Minted? && 1 <= k.nonce <= n
    ensures forall k :: k in m ==> m[k] == Spent(0, 0)
  {
    if n == 0 then map[] else AllSpent(n - 1)[Minted(n) := Spent(0, 0)]
  }

  function LastStores(markers: Record<Secret, Marker>, tombstones: Record<Id, int>): Stores {
    Stores(OAuthStore(ACCOUNTS, CLIENTS, Empty()),
           RefreshStore(Record([Minted(0)], map[Minted(0) := LAST_TOKEN]), markers, tombstones))
  }

  /** Family 0 has a token left and dies before every other family. */
  ghost predicate Full(s: Stores) {
    var markers, tombstones := s.refresh.consumed, s.refresh.revoked;
    && s == LastStores(markers, tombstones)
    && markers.Valid() && |markers.at| == MAX_CONSUMED_REFRESH_TOKENS
    && (forall k :: k in markers.at ==> k.Minted? && 1 <= k.nonce <= 4096 && markers.at[k] == FreshMarker(k.nonce))
    && tombstones.Valid() && |tombstones.at| == MAX_REVOKED_REFRESH_FAMILIES
    && (forall f :: f in tombstones.at ==> 4097 <= f < 5121 && tombstones.at[f] == LATER)
  }

  lemma FullHasInv(s: Stores, h: History)
    requires Full(s) && FullHistory(h)
    ensures Inv(s, h)
  {
    hide FreshMarker, ValidStores, HistoryOk, LiveOk, MarkersOk;
    FullTokens(s, h);
    FullMarks(s, h);
    assert Remembered(s.refresh.tokens.at, s.refresh.consumed.at, h);
  }

  lemma FullTokens(s: Stores, h: History)
    requires Full(s) && FullHistory(h)
    ensures ValidStores(s) && HistoryOk(h) && LiveOk(s.refresh.tokens.at, h)
  {
    hide FreshMarker;
  }

  lemma FullMarks(s: Stores, h: History)
    requires Full(s) && FullHistory(h)
    ensures MarkersOk(s.refresh.consumed.at, h)
  {
    hide FreshMarker;
    forall k | k in s.refresh.consumed.at ensures MarkerOk(k, s.refresh.consumed.at[k], h) {
      FreshMarkerIs(k.nonce);
    }
  }

  lemma FullIsGranted(s: Stores)
    requires Full(s)
    ensures Minted(0) in s.refresh.tokens.at && s.refresh.tokens.at[Minted(0)] == LAST_TOKEN
    ensures Exchanged(s, Ask(Minted(0)), SOME_SERVER, NOON).rotation.Some?
  {
    hide Moved, Consumed, NewMarker;
    assert Validate(LAST_TOKEN, Ask(Minted(0)), SOME_SERVER, s.oauth, true) == Granted(LAST_TOKEN, ServerScope);
  }

  lemma FullIsTied(s: Stores)
    requires Full(s)
    ensures OldestMarker(s.refresh.consumed, Minted(0), NOON, SOME_SERVER.hash) && FirstTombstone(s.refresh.revoked, 0, SOON)
  {
  }

  /** The presented token is live, its rotation is answered as a success, and its family is signed out by that very step. */
  lemma SuccessCanSignOut() returns (s: Stores, h: History)
    ensures Full(s) && Inv(s, h)
    ensures var e := Exchanged(s, Ask(Minted(0)), SOME_SERVER, NOON);
            e.outcome.Rotated? && NoTokenOf(e.stores, 0)
  {
    var markers := FullMarkers(4096);
    var tombstones := FullTombstones(4097, 1024);
    s := LastStores(markers, tombstones);
    h := SomeHistory();
    FullHasInv(s, h);
    FullIsGranted(s);
    FullIsTied(s);
    hide Inv, Exchanged, OldestMarker, FirstTombstone, NoTokenOf;
    EvictedWithoutTrace(s, h, Ask(Minted(0)), SOME_SERVER, NOON);
  }
}
