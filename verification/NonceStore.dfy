/**
 * Single use of nonces within their life: src/worker/nonce-store.ts, and what it gives the signed daemon requests of
 * src/worker/daemon-auth.ts and daemon-http-auth.ts and the DPoP proofs of src/worker/dpop.ts.
 */
module NonceStore {
  import opened Records

  const MAX_SAFE_INTEGER := 0x1F_FFFF_FFFF_FFFF

  /** What one caller always passes: its nonce pattern, its maximum and its future window. */
  datatype Options = Options(pattern: string -> bool, maximum: int, maxFutureSeconds: int)

  datatype Attempt = Attempt(nonce: string, expiresAt: int, now: int)

  /** validateOptions; a caller that fails it gets an exception. */
  predicate ValidOptions(o: Options, a: Attempt) {
    && o.pattern(a.nonce)
    && 0 < a.now <= MAX_SAFE_INTEGER
    && 1 <= o.maximum <= 4096
    && 1 <= o.maxFutureSeconds && a.now + o.maxFutureSeconds <= MAX_SAFE_INTEGER
    && a.now < a.expiresAt <= a.now + o.maxFutureSeconds
  }

  datatype Reply = Accepted | Refused | Threw

  type Nonces = Record<string, int>

  ghost predicate ValidRecord(r: Nonces, o: Options, latest: int) {
    && |r.order| <= o.maximum
    && forall n :: n in r.at ==> o.pattern(n) && 0 < r.at[n] <= latest
  }

  function Expired(now: int): (string, int) -> bool {
    (n: string, expiresAt: int) => expiresAt <= now
  }

  function Live(r: Nonces, now: int): Nonces {
    r.Keep(Spared(r, Expired(now)))
  }

  function NoncesOf(stored: Option<Nonces>): Nonces {
    if stored.Some? then stored.value else Empty()
  }

  datatype Consumption = Consumption(stored: Option<Nonces>, reply: Reply)

  ghost function Consume(stored: Option<Nonces>, o: Options, a: Attempt): Consumption {
    if !ValidOptions(o, a) then Consumption(stored, Threw)
    else if stored.Some? && !ValidRecord(stored.value, o, a.now + o.maxFutureSeconds) then Consumption(stored, Refused)
    else
      var live := Live(NoncesOf(stored), a.now);
      if a.nonce in live.at then Consumption(stored, Refused)
      else if |live.order| >= o.maximum then Consumption(stored, Refused)
      else Consumption(Some(live.Put(a.nonce, a.expiresAt)), Accepted)
  }

  // ---- runs ----

  ghost function Run(o: Options, attempts: seq<Attempt>): Option<Nonces> {
    if attempts == [] then None else Consume(Run(o, attempts[..|attempts| - 1]), o, attempts[|attempts| - 1]).stored
  }

  ghost function ReplyAt(o: Options, attempts: seq<Attempt>, i: nat): Reply
    requires i < |attempts|
  {
    Consume(Run(o, attempts[..i]), o, attempts[i]).reply
  }

  ghost predicate Monotone(attempts: seq<Attempt>) {
    forall i, j :: 0 <= i <= j < |attempts| ==> attempts[i].now <= attempts[j].now
  }

  /** What was stored is a well-formed record that every later reading accepts. */
  ghost predicate StoredOk(stored: Option<Nonces>, o: Options, clock: int) {
    stored.Some? ==> stored.value.Valid() && ValidRecord(stored.value, o, clock + o.maxFutureSeconds)
  }

  lemma LiveIsPart(r: Nonces, now: int)
    requires r.Valid()
    ensures Live(r, now).Valid() && |Live(r, now).order| <= |r.order|
    ensures forall n :: n in Live(r, now).at <==> n in r.at && r.at[n] > now
    ensures forall n :: n in Live(r, now).at ==> Live(r, now).at[n] == r.at[n]
  {
    KeepValid(r, Spared(r, Expired(now)));
    SelectShorter(r.order, Spared(r, Expired(now)));
  }

  lemma {:induction false} SelectShorter<K>(s: seq<K>, wanted: set<K>)
    ensures |Select(s, wanted)| <= |s|
  {
    if s != [] {
      SelectShorter(s[1..], wanted);
    }
  }

  lemma {:induction false} SelectNone<K>(s: seq<K>, wanted: set<K>)
    requires forall k :: k in s ==> k !in wanted
    ensures Select(s, wanted) == []
  {
    if s != [] {
      SelectNone(s[1..], wanted);
    }
  }

  lemma ConsumeKeepsStored(stored: Option<Nonces>, o: Options, a: Attempt, clock: int)
    requires StoredOk(stored, o, clock) && clock <= a.now
    ensures StoredOk(Consume(stored, o, a).stored, o, a.now)
  {
    if Consume(stored, o, a).reply == Accepted {
      var r := NoncesOf(stored);
      LiveIsPart(r, a.now);
      PutValid(Live(r, a.now), a.nonce, a.expiresAt);
    }
  }

  lemma {:induction false} RunKeepsStored(o: Options, attempts: seq<Attempt>, clock: int)
    requires Monotone(attempts) && (attempts != [] ==> attempts[|attempts| - 1].now <= clock)
    ensures StoredOk(Run(o, attempts), o, clock)
  {
    if attempts != [] {
      var front, last := attempts[..|attempts| - 1], attempts[|attempts| - 1];
      RunKeepsStored(o, front, last.now);
      ConsumeKeepsStored(Run(o, front), o, last, last.now);
    }
  }

  /** The record never exceeds its maximum. */
  lemma RecordIsBounded(o: Options, attempts: seq<Attempt>)
    requires Monotone(attempts) && Run(o, attempts).Some?
    ensures |Run(o, attempts).value.at| <= o.maximum
  {
    RunKeepsStored(o, attempts, attempts[|attempts| - 1].now);
    KeysOnce(Run(o, attempts).value.order);
  }

  lemma {:induction false} KeysOnce<K>(s: seq<K>)
    ensures |Members(s)| <= |s|
  {
    if s != [] {
      KeysOnce(s[..|s| - 1]);
      MembersGrow(s, |s| - 1);
      assert s[..|s| - 1 + 1] == s;
    }
  }

  /** In a run the stored record is never the reason for a refusal: only an unexpired use, or a full record, is. */
  lemma AcceptsIff(o: Options, attempts: seq<Attempt>, a: Attempt)
    requires Monotone(attempts + [a]) && ValidOptions(o, a)
    ensures var r := NoncesOf(Run(o, attempts));
            Consume(Run(o, attempts), o, a).reply == Accepted
            <==> !(a.nonce in r.at && r.at[a.nonce] > a.now) && |Live(r, a.now).order| < o.maximum
  {
    var all := attempts + [a];
    if attempts != [] {
      assert all[|attempts| - 1] == attempts[|attempts| - 1] && all[|attempts|] == a;
      assert Monotone(attempts) by {
        assert forall i :: 0 <= i < |attempts| ==> attempts[i] == all[i];
      }
    }
    RunKeepsStored(o, attempts, a.now);
    LiveIsPart(NoncesOf(Run(o, attempts)), a.now);
  }

  /** What is accepted is a nonce of the pattern that expires after now and within the window; anything else leaves the store alone. */
  lemma AcceptedIsValid(stored: Option<Nonces>, o: Options, a: Attempt)
    ensures Consume(stored, o, a).reply == Accepted ==>
              && o.pattern(a.nonce) && 0 < a.now < a.expiresAt <= a.now + o.maxFutureSeconds <= MAX_SAFE_INTEGER
              && 1 <= o.maximum <= 4096 && o.maxFutureSeconds >= 1
    ensures Consume(stored, o, a).reply != Accepted ==> Consume(stored, o, a).stored == stored
  {
    hide Live, ValidRecord;
  }

  // ---- single use ----

  /** After an acceptance the nonce is in the record, until its recorded expiry. */
  lemma {:induction false} AcceptedIsRemembered(o: Options, attempts: seq<Attempt>, i: nat, n: nat)
    requires Monotone(attempts) && i < n <= |attempts| && ReplyAt(o, attempts, i) == Accepted
    requires attempts[n - 1].now < attempts[i].expiresAt
    ensures var stored := Run(o, attempts[..n]);
            stored.Some? && attempts[i].nonce in stored.value.at && stored.value.at[attempts[i].nonce] == attempts[i].expiresAt
  {
    assert attempts[..n][..n - 1] == attempts[..n - 1];
    var a := attempts[n - 1];
    if n > i + 1 {
      AcceptedIsRemembered(o, attempts, i, n - 1);
      RunKeepsStored(o, attempts[..n - 1], a.now);
      hide Consume, StoredOk;
      UnexpiredStays(Run(o, attempts[..n - 1]), o, a, attempts[i].nonce);
    }
  }

  lemma UnexpiredStays(stored: Option<Nonces>, o: Options, a: Attempt, nonce: string)
    requires StoredOk(stored, o, a.now) && stored.Some? && nonce in stored.value.at && stored.value.at[nonce] > a.now
    ensures var next := Consume(stored, o, a).stored;
            next.Some? && nonce in next.value.at && next.value.at[nonce] == stored.value.at[nonce]
  {
    hide Live, ValidOptions, ValidRecord;
    LiveIsPart(stored.value, a.now);
  }

  lemma RememberedIsRefused(o: Options, attempts: seq<Attempt>, i: nat, j: nat)
    requires Monotone(attempts) && i < j < |attempts| && attempts[j].nonce == attempts[i].nonce
    requires ReplyAt(o, attempts, i) == Accepted && attempts[j].now < attempts[i].expiresAt
    ensures ReplyAt(o, attempts, j) != Accepted
  {
    AcceptedIsRemembered(o, attempts, i, j);
    RunKeepsStored(o, attempts[..j], attempts[j].now);
    LiveIsPart(Run(o, attempts[..j]).value, attempts[j].now);
  }

  /** Each nonce is accepted at most once before its recorded expiry. */
  lemma SingleUse(o: Options, attempts: seq<Attempt>, i: nat, j: nat)
    requires Monotone(attempts) && i < j < |attempts| && attempts[j].nonce == attempts[i].nonce
    requires ReplyAt(o, attempts, i) == Accepted && ReplyAt(o, attempts, j) == Accepted
    ensures attempts[j].now >= attempts[i].expiresAt
  {
    if attempts[j].now < attempts[i].expiresAt {
      RememberedIsRefused(o, attempts, i, j);
    }
  }

  // ---- signed requests with a half-open window ----

  /** A daemon preflight or relay request, signed at `issuedAt`, that passed its time check. */
  predicate SignedWithin(a: Attempt, issuedAt: int, ttl: int) {
    && a.expiresAt == issuedAt + ttl
    && a.now < issuedAt + ttl && issuedAt - a.now <= ttl
  }

  /**
   * Such a request never makes the store throw, and it is consumed at most once in any run, whatever other requests
   * carry its nonce.
   */
  lemma SignedRequestIsConsumedOnce(o: Options, attempts: seq<Attempt>, issuedAt: int, ttl: int, i: nat, j: nat)
    requires Monotone(attempts) && i < j < |attempts| && attempts[j].nonce == attempts[i].nonce
    requires o.maxFutureSeconds == 2 * ttl && SignedWithin(attempts[i], issuedAt, ttl) && SignedWithin(attempts[j], issuedAt, ttl)
    ensures !(ReplyAt(o, attempts, i) == Accepted && ReplyAt(o, attempts, j) == Accepted)
    ensures attempts[i].now < attempts[i].expiresAt <= attempts[i].now + o.maxFutureSeconds
  {
    if ReplyAt(o, attempts, i) == Accepted && ReplyAt(o, attempts, j) == Accepted {
      SingleUse(o, attempts, i, j);
    }
  }

  // ---- DPoP proofs ----

  const DPOP_WINDOW_SECONDS := 5 * 60

  function MaxInt(a: int, b: int): int { if a >= b then a else b }

  /**
   * A proof issued at `issuedAt` that passed its time check, which includes both ends of the window, with the expiry
   * that is recorded.
   */
  predicate ProofWithin(a: Attempt, issuedAt: int) {
    && -DPOP_WINDOW_SECONDS <= a.now - issuedAt <= DPOP_WINDOW_SECONDS
    && a.expiresAt == MaxInt(a.now + 1, issuedAt + DPOP_WINDOW_SECONDS)
  }

  /** A proof is consumed a second time only in the very last second of its window, and then for the last time. */
  lemma ProofIsConsumedTwiceOnlyAtTheEnd(o: Options, attempts: seq<Attempt>, issuedAt: int, i: nat, j: nat)
    requires Monotone(attempts) && i < j < |attempts| && attempts[j].nonce == attempts[i].nonce
    requires ProofWithin(attempts[i], issuedAt) && ProofWithin(attempts[j], issuedAt)
    requires ReplyAt(o, attempts, i) == Accepted && ReplyAt(o, attempts, j) == Accepted
    ensures attempts[i].now < attempts[j].now == issuedAt + DPOP_WINDOW_SECONDS
    ensures forall k :: j < k < |attempts| && attempts[k].nonce == attempts[i].nonce && ProofWithin(attempts[k], issuedAt)
                        ==> ReplyAt(o, attempts, k) != Accepted
  {
    SingleUse(o, attempts, i, j);
    forall k | j < k < |attempts| && attempts[k].nonce == attempts[i].nonce && ProofWithin(attempts[k], issuedAt)
      ensures ReplyAt(o, attempts, k) != Accepted
    {
      if ReplyAt(o, attempts, k) == Accepted {
        SingleUse(o, attempts, j, k);
      }
    }
  }

  /** What the record holds was put there by an acceptance. */
  lemma {:induction false} RecordedWasAccepted(o: Options, attempts: seq<Attempt>, n: nat, nonce: string) returns (k: nat)
    requires Monotone(attempts) && n <= |attempts|
    requires Run(o, attempts[..n]).Some? && nonce in Run(o, attempts[..n]).value.at
    ensures k < n && ReplyAt(o, attempts, k) == Accepted && attempts[k].nonce == nonce
    ensures attempts[k].expiresAt == Run(o, attempts[..n]).value.at[nonce]
  {
    assert attempts[..n][..n - 1] == attempts[..n - 1] && attempts[..n][n - 1] == attempts[n - 1];
    var before, a := Run(o, attempts[..n - 1]), attempts[n - 1];
    assert Run(o, attempts[..n]) == Consume(before, o, a).stored;
    RunKeepsStored(o, attempts[..n - 1], a.now);
    if ReplyAt(o, attempts, n - 1) == Accepted && a.nonce == nonce {
      k := n - 1;
    } else {
      EarlierRecord(before, o, a, nonce);
      k := RecordedWasAccepted(o, attempts, n - 1, nonce);
    }
  }

  lemma EarlierRecord(stored: Option<Nonces>, o: Options, a: Attempt, nonce: string)
    requires StoredOk(stored, o, a.now) && Consume(stored, o, a).stored.Some? && nonce in Consume(stored, o, a).stored.value.at
    requires !(Consume(stored, o, a).reply == Accepted && a.nonce == nonce)
    ensures stored.Some? && nonce in stored.value.at && stored.value.at[nonce] == Consume(stored, o, a).stored.value.at[nonce]
  {
    LiveIsPart(NoncesOf(stored), a.now);
  }

  /** In any run, a nonce has an unexpired record exactly when some earlier acceptance of it has not expired. */
  lemma UnexpiredUse(o: Options, attempts: seq<Attempt>, j: nat)
    requires Monotone(attempts) && j < |attempts|
    ensures var r, a := NoncesOf(Run(o, attempts[..j])), attempts[j];
            a.nonce in r.at && r.at[a.nonce] > a.now
            <==> exists k :: 0 <= k < j && attempts[k].nonce == a.nonce && ReplyAt(o, attempts, k) == Accepted && attempts[k].expiresAt > a.now
  {
    var r, a := NoncesOf(Run(o, attempts[..j])), attempts[j];
    if a.nonce in r.at && r.at[a.nonce] > a.now {
      var k := RecordedWasAccepted(o, attempts, j, a.nonce);
    }
    if k :| 0 <= k < j && attempts[k].nonce == a.nonce && ReplyAt(o, attempts, k) == Accepted && attempts[k].expiresAt > a.now {
      AcceptedIsRemembered(o, attempts, k, j);
    }
  }

  /**
   * In any run, a proof that was consumed at `i` is consumed again at `j` exactly if that is the last second of its
   * window and a later one than before, no acceptance of the nonce in between is still unexpired, and there is room.
   */
  lemma SecondUseIff(o: Options, attempts: seq<Attempt>, issuedAt: int, i: nat, j: nat)
    requires Monotone(attempts) && i < j < |attempts| && attempts[j].nonce == attempts[i].nonce
    requires ProofWithin(attempts[i], issuedAt) && ProofWithin(attempts[j], issuedAt)
    requires ReplyAt(o, attempts, i) == Accepted && ValidOptions(o, attempts[j])
    ensures ReplyAt(o, attempts, j) == Accepted
            <==> && attempts[i].now < attempts[j].now == issuedAt + DPOP_WINDOW_SECONDS
                 && (forall k :: i < k < j && attempts[k].nonce == attempts[i].nonce && ReplyAt(o, attempts, k) == Accepted
                                 ==> attempts[k].expiresAt <= attempts[j].now)
                 && |Live(NoncesOf(Run(o, attempts[..j])), attempts[j].now).order| < o.maximum
  {
    var a := attempts[j];
    assert attempts[..j] + [a] == attempts[..j + 1];
    assert Monotone(attempts[..j + 1]) by {
      assert forall k :: 0 <= k < j + 1 ==> attempts[..j + 1][k] == attempts[k];
    }
    hide Consume, Run, Live, ValidOptions;
    AcceptedIsIf(o, attempts, j);
    UnexpiredUse(o, attempts, j);
    if ReplyAt(o, attempts, j) == Accepted {
      SingleUse(o, attempts, i, j);
    }
    forall k | 0 <= k < i && attempts[k].nonce == a.nonce && ReplyAt(o, attempts, k) == Accepted ensures attempts[k].expiresAt <= a.now {
      SingleUse(o, attempts, k, i);
    }
  }

  /** That second happens: a proof that is used alone, within its window and then in its last second, is consumed twice. */
  lemma SecondUseHappens(o: Options, first: Attempt, second: Attempt, issuedAt: int)
    requires first.nonce == second.nonce && first.now < second.now == issuedAt + DPOP_WINDOW_SECONDS
    requires ProofWithin(first, issuedAt) && ProofWithin(second, issuedAt) && ValidOptions(o, first) && ValidOptions(o, second)
    ensures ReplyAt(o, [first, second], 0) == Accepted && ReplyAt(o, [first, second], 1) == Accepted
  {
    var attempts := [first, second];
    assert attempts[..0] == [] && attempts[..1] == [first] && [first][..0] == [];
    LiveIsPart(Empty<string, int>(), first.now);
    var live := Live(Empty<string, int>(), first.now);
    assert live == Empty<string, int>();
    var r := live.Put(first.nonce, first.expiresAt);
    assert Run(o, [first]) == Some(r);
    PutValid(live, first.nonce, first.expiresAt);
    LiveIsPart(r, second.now);
    SelectNone(r.order, Spared(r, Expired(second.now)));
  }

  lemma AcceptedIsIf(o: Options, attempts: seq<Attempt>, j: nat)
    requires j < |attempts| && Monotone(attempts[..j] + [attempts[j]]) && ValidOptions(o, attempts[j])
    ensures var r, a := NoncesOf(Run(o, attempts[..j])), attempts[j];
            ReplyAt(o, attempts, j) == Accepted <==> !(a.nonce in r.at && r.at[a.nonce] > a.now) && |Live(r, a.now).order| < o.maximum
  {
    AcceptsIff(o, attempts[..j], attempts[j]);
  }

  // ---- the store as it runs ----

  class NonceStorage {
    var stored: Option<Nonces>

    constructor ()
      ensures stored == None
    {
      stored := None;
    }

    method ConsumeBoundedNonce(o: Options, a: Attempt) returns (reply: Reply)
      requires stored.Some? ==> stored.value.Valid()
      modifies this
      ensures Consumption(stored, reply) == Consume(old(stored), o, a)
      ensures stored.Some? ==> stored.value.Valid()
    {
      if !ValidOptions(o, a) {
        return Threw;
      }
      if stored.Some? {
        var valid := ValidNonceRecord(stored.value, o, a.now + o.maxFutureSeconds);
        if !valid {
          return Refused;
        }
      }
      var nonces := if stored.Some? then stored.value else Empty();
      nonces := DeleteWhere(nonces, Expired(a.now));
      if a.nonce in nonces.at {
        return Refused;
      }
      if |nonces.order| >= o.maximum {
        return Refused;
      }
      PutValid(nonces, a.nonce, a.expiresAt);
      stored := Some(nonces.Put(a.nonce, a.expiresAt));
      return Accepted;
    }
  }

  method ValidNonceRecord(value: Nonces, o: Options, latestExpiry: int) returns (valid: bool)
    requires value.Valid() && o.maximum >= 0
    ensures valid <==> ValidRecord(value, o, latestExpiry)
  {
    var count := 0;
    for i := 0 to |value.order|
      invariant count == i <= o.maximum
      invariant forall k :: 0 <= k < i ==>
                  value.order[k] in value.at && o.pattern(value.order[k]) && 0 < value.at[value.order[k]] <= latestExpiry
    {
      count := count + 1;
      if count > o.maximum {
        return false;
      }
      var nonce := value.order[i];
      assert nonce in Members(value.order);
      if !o.pattern(nonce) || value.at[nonce] <= 0 || value.at[nonce] > latestExpiry {
        return false;
      }
    }
    forall n | n in value.at ensures o.pattern(n) && 0 < value.at[n] <= latestExpiry {
      assert n in Members(value.order);
    }
    return true;
  }
}
