/** Consumed markers in eight storage shards: src/worker/oauth-refresh-persistence.ts. */
module RefreshShards {
  import opened Records

  const CONSUMED_SHARD_COUNT := 8
  const MAX_CONSUMED_PER_SHARD := 1024

  // ---- keys ----

  predicate HexDigit(c: char) {
    '0' <= c <= '9' || 'a' <= c <= 'f'
  }

  function HexValue(c: char): nat
    requires HexDigit(c)
  {
    if c <= '9' then (c - '0') as nat else (c - 'a') as nat + 10
  }

  /** The shard of a well-formed key, `sha256:` and 64 hexadecimal digits: its first digit modulo eight. */
  function ShardOf(h: string): (index: Option<nat>)
    ensures index.Some? ==> index.value < CONSUMED_SHARD_COUNT
  {
    if |h| == 71 && h[..7] == "sha256:" && forall i :: 7 <= i < 71 ==> HexDigit(h[i])
    then Some(HexValue(h[7]) % CONSUMED_SHARD_COUNT)
    else None
  }

  const DIGITS := "0123456789abcdef"

  predicate KeyOk(h: string) {
    |h| == 71 && h[..7] == "sha256:" && forall i :: 7 <= i < 71 ==> h[i] in DIGITS
  }

  /** A shard holds the well-formed keys whose hash begins with one of two digits, eight apart; no other key has one. */
  lemma ShardHoldsTwoDigits(h: string, i: nat)
    ensures ShardOf(h) == Some(i) <==> KeyOk(h) && i < 8 && (h[7] == DIGITS[i] || h[7] == DIGITS[i + 8])
  {
    forall c: char ensures HexDigit(c) <==> c in DIGITS {
      DigitsAreHex(c);
    }
    if KeyOk(h) && i < 8 {
      ValueOfDigit(h[7], i);
    }
  }

  lemma DigitsAreHex(c: char)
    ensures HexDigit(c) <==> c in DIGITS
  {
    assert |DIGITS| == 16;
    if HexDigit(c) {
      assert DIGITS[HexValue(c)] == c;
    }
  }

  lemma ValueOfDigit(c: char, i: nat)
    requires HexDigit(c) && i < 8
    ensures HexValue(c) % 8 == i <==> c == DIGITS[i] || c == DIGITS[i + 8]
  {
    assert |DIGITS| == 16;
  }

  // ---- saving ----

  /** The markers of shard `i`. */
  function ShardPart<M>(c: map<string, M>, i: nat): map<string, M> {
    map h | h in c && ShardOf(h) == Some(i) :: c[h]
  }

  ghost predicate Filed<M>(c: map<string, M>, shards: seq<map<string, M>>) {
    |shards| == CONSUMED_SHARD_COUNT && forall i :: 0 <= i < CONSUMED_SHARD_COUNT ==> shards[i] == ShardPart(c, i)
  }

  ghost predicate Fits<M>(c: map<string, M>) {
    forall i: nat :: i < CONSUMED_SHARD_COUNT ==> |ShardPart(c, i)| <= MAX_CONSUMED_PER_SHARD
  }

  ghost predicate AllKeysOk<M>(c: map<string, M>) {
    forall h :: h in c ==> ShardOf(h).Some?
  }

  lemma PartGrows<M>(c: map<string, M>, h: string, m: M, i: nat)
    requires h !in c
    ensures ShardPart(c[h := m], i) == if ShardOf(h) == Some(i) then ShardPart(c, i)[h := m] else ShardPart(c, i)
    ensures |ShardPart(c[h := m], i)| == |ShardPart(c, i)| + if ShardOf(h) == Some(i) then 1 else 0
  {
    if ShardOf(h) == Some(i) {
      assert ShardPart(c[h := m], i) == ShardPart(c, i)[h := m];
    } else {
      assert ShardPart(c[h := m], i) == ShardPart(c, i);
    }
  }

  lemma MorePartsOverflow<M>(c: map<string, M>, c': map<string, M>, i: nat)
    requires c.Keys <= c'.Keys && |ShardPart(c, i)| > MAX_CONSUMED_PER_SHARD && i < CONSUMED_SHARD_COUNT
    ensures !Fits(c')
  {
    var a, b := ShardPart(c, i), ShardPart(c', i);
    assert a.Keys <= b.Keys;
    assert |b.Keys| == |a.Keys| + |b.Keys - a.Keys|;
    assert |a| == |a.Keys| && |b| == |b.Keys|;
  }

  lemma MoreOverflows<M>(c: map<string, M>, c': map<string, M>)
    requires c.Keys <= c'.Keys && !Fits(c)
    ensures !Fits(c')
  {
    var i: nat :| i < CONSUMED_SHARD_COUNT && |ShardPart(c, i)| > MAX_CONSUMED_PER_SHARD;
    MorePartsOverflow(c, c', i);
  }

  /** The entries of the first `n` keys. */
  function Front<M>(r: Record<string, M>, n: nat): map<string, M>
    requires n <= |r.order|
  {
    map h | h in r.order[..n] && h in r.at :: r.at[h]
  }

  lemma FrontIsEmpty<M>(r: Record<string, M>)
    ensures Front(r, 0) == map[]
  {
  }

  lemma FrontGrows<M>(r: Record<string, M>, n: nat)
    requires r.Valid() && n < |r.order|
    ensures r.order[n] in r.at && r.order[n] !in Front(r, n)
    ensures Front(r, n + 1) == Front(r, n)[r.order[n] := r.at[r.order[n]]]
  {
    assert r.order[n] in Members(r.order);
    assert r.order[..n + 1] == r.order[..n] + [r.order[n]];
  }

  lemma FrontIsAll<M>(r: Record<string, M>)
    requires r.Valid()
    ensures Front(r, |r.order|) == r.at
  {
    assert r.order[..|r.order|] == r.order;
    assert forall h :: h in r.at <==> h in Members(r.order);
  }

  lemma FrontIsPart<M>(r: Record<string, M>, n: nat)
    requires r.Valid() && n <= |r.order|
    ensures Front(r, n).Keys <= r.at.Keys
  {
  }

  /** How far the saving loop has come. */
  ghost predicate Filing<M>(c: map<string, M>, shards: seq<map<string, M>>, counts: seq<nat>) {
    && Filed(c, shards) && AllKeysOk(c) && Fits(c)
    && |counts| == CONSUMED_SHARD_COUNT && forall i :: 0 <= i < CONSUMED_SHARD_COUNT ==> counts[i] == |shards[i]|
  }

  lemma FileOne<M>(c: map<string, M>, shards: seq<map<string, M>>, counts: seq<nat>, h: string, m: M)
    requires Filing(c, shards, counts) && h !in c && ShardOf(h).Some?
    ensures var i := ShardOf(h).value;
            && |ShardPart(c[h := m], i)| == counts[i] + 1
            && (counts[i] + 1 <= MAX_CONSUMED_PER_SHARD ==>
                  Filing(c[h := m], shards[i := shards[i][h := m]], counts[i := counts[i] + 1]))
  {
    var i := ShardOf(h).value;
    forall j: nat | j < CONSUMED_SHARD_COUNT
      ensures ShardPart(c[h := m], j) == (if j == i then ShardPart(c, j)[h := m] else ShardPart(c, j))
      ensures |ShardPart(c[h := m], j)| == |ShardPart(c, j)| + (if j == i then 1 else 0)
    {
      PartGrows(c, h, m, j);
    }
  }

  lemma FilingMeans<M>(c: map<string, M>, shards: seq<map<string, M>>, counts: seq<nat>)
    requires Filing(c, shards, counts)
    ensures |shards| == |counts| == CONSUMED_SHARD_COUNT && Filed(c, shards) && AllKeysOk(c) && Fits(c)
  {
  }

  lemma NothingFiled<M>(shards: seq<map<string, M>>, counts: seq<nat>)
    requires |shards| == |counts| == CONSUMED_SHARD_COUNT
    requires forall i :: 0 <= i < CONSUMED_SHARD_COUNT ==> shards[i] == map[] && counts[i] == 0
    ensures Filing(map[], shards, counts)
  {
    forall i | 0 <= i < CONSUMED_SHARD_COUNT ensures ShardPart<M>(map[], i) == map[] {
    }
  }

  method NewShards<M>() returns (shards: seq<map<string, M>>, counts: seq<nat>)
    ensures Filing(map[], shards, counts)
  {
    shards, counts := seq(CONSUMED_SHARD_COUNT, i => map[]), seq(CONSUMED_SHARD_COUNT, i => 0);
    NothingFiled(shards, counts);
  }

  /** One round of the saving loop; not `ok` where it throws. */
  method FileMarker<M>(ghost c: map<string, M>, shards: seq<map<string, M>>, counts: seq<nat>, tokenHash: string, marker: M)
    returns (ok: bool, filed: seq<map<string, M>>, counted: seq<nat>)
    requires Filing(c, shards, counts) && tokenHash !in c
    ensures ok ==> Filing(c[tokenHash := marker], filed, counted)
    ensures !ok ==> ShardOf(tokenHash).None? || !Fits(c[tokenHash := marker])
  {
    hide Filing, ShardOf;
    FilingMeans(c, shards, counts);
    if ShardOf(tokenHash).None? {
      return false, shards, counts;
    }
    var index := ShardOf(tokenHash).value;
    FileOne(c, shards, counts, tokenHash, marker);
    if counts[index] + 1 > MAX_CONSUMED_PER_SHARD {
      return false, shards, counts;
    }
    return true, shards[index := shards[index][tokenHash := marker]], counts[index := counts[index] + 1];
  }

  /**
   * oauthRefreshPersistenceEntries; None stands for its exceptions, thrown exactly for an ill-formed key or a shard
   * that would overflow.
   */
  method PersistenceEntries<M>(consumed: Record<string, M>) returns (r: Option<seq<map<string, M>>>)
    requires consumed.Valid()
    ensures r.Some? ==> Filed(consumed.at, r.value)
    ensures r.Some? <==> AllKeysOk(consumed.at) && Fits(consumed.at)
  {
    hide Filing, AllKeysOk, Fits, Filed, ShardOf, Front, ShardPart;
    var shards, counts := NewShards<M>();
    FrontIsEmpty(consumed);
    for n := 0 to |consumed.order|
      invariant Filing(Front(consumed, n), shards, counts)
    {
      var tokenHash := consumed.order[n];
      FrontGrows(consumed, n);
      var ok;
      ok, shards, counts := FileMarker(Front(consumed, n), shards, counts, tokenHash, consumed.at[tokenHash]);
      if !ok {
        CannotBeFiled(consumed, n);
        return None;
      }
    }
    FrontIsAll(consumed);
    FilingMeans(consumed.at, shards, counts);
    return Some(shards);
  }

  lemma CannotBeFiled<M>(consumed: Record<string, M>, n: nat)
    requires consumed.Valid() && n < |consumed.order| && consumed.order[n] in consumed.at
    requires ShardOf(consumed.order[n]).None? || !Fits(Front(consumed, n + 1))
    ensures !(AllKeysOk(consumed.at) && Fits(consumed.at))
  {
    if ShardOf(consumed.order[n]).Some? {
      FrontIsPart(consumed, n + 1);
      MoreOverflows(Front(consumed, n + 1), consumed.at);
    }
  }

  // ---- loading ----

  /** A stored value under one shard key; `Malformed` stands for what the envelope and field checks refuse. */
  datatype Shard<M> = Absent | Malformed | Stored(records: Record<string, M>)

  ghost predicate KeysOf<M>(c: map<string, M>, i: nat) {
    forall h :: h in c ==> ShardOf(h) == Some(i)
  }

  ghost predicate Acceptable<M>(shard: Shard<M>, i: nat) {
    match shard
    case Absent => true
    case Malformed => false
    case Stored(records) => |records.order| <= MAX_CONSUMED_PER_SHARD && KeysOf(records.at, i)
  }

  /** The first `n` shards are acceptable. */
  ghost predicate AcceptableUpTo<M>(shards: seq<Shard<M>>, n: nat)
    requires n <= |shards|
  {
    forall i: nat :: i < n ==> Acceptable(shards[i], i)
  }

  /** The first `n` shards as one dictionary. */
  function Merged<M>(shards: seq<Shard<M>>, n: nat): map<string, M>
    requires n <= |shards|
  {
    if n == 0 then map[]
    else Merged(shards, n - 1) + if shards[n - 1].Stored? then shards[n - 1].records.at else map[]
  }

  function CountPresent<M>(shards: seq<Shard<M>>, n: nat): (count: nat)
    requires n <= |shards|
    ensures count <= n
  {
    if n == 0 then 0 else CountPresent(shards, n - 1) + if shards[n - 1].Absent? then 0 else 1
  }

  ghost predicate Below<M>(c: map<string, M>, n: nat) {
    forall h :: h in c ==> ShardOf(h).Some? && ShardOf(h).value < n
  }

  lemma {:induction false} MergedIsBelow<M>(shards: seq<Shard<M>>, n: nat)
    requires n <= |shards| && AcceptableUpTo(shards, n)
    ensures Below(Merged(shards, n), n)
  {
    if n > 0 {
      MergedIsBelow(shards, n - 1);
      assert Acceptable(shards[n - 1], n - 1);
    }
  }

  datatype LoadedShards<M> = LoadedShards(consumed: map<string, M>, present: bool, complete: bool, valid: bool)

  lemma LoadOne<M>(records: Record<string, M>, i: nat, before: map<string, M>, n: nat)
    requires records.Valid() && Below(before, i) && n < |records.order| && KeysOf(Front(records, n), i)
    ensures var h := records.order[n];
            && h in records.at
            && (ShardOf(h) == Some(i) ==> h !in before + Front(records, n) && KeysOf(Front(records, n + 1), i))
            && (ShardOf(h) != Some(i) ==> !KeysOf(records.at, i))
            && (before + Front(records, n))[h := records.at[h]] == before + Front(records, n + 1)
  {
    hide ShardOf, Front;
    FrontGrows(records, n);
  }

  /** The marker loop of one shard, onto what the shards before it held. */
  method LoadShard<M>(records: Record<string, M>, i: nat, before: map<string, M>) returns (ok: bool, consumed: map<string, M>)
    requires records.Valid() && Below(before, i)
    ensures ok <==> KeysOf(records.at, i)
    ensures ok ==> consumed == before + records.at
  {
    consumed := before;
    assert Front(records, 0) == map[];
    for n := 0 to |records.order|
      invariant KeysOf(Front(records, n), i)
      invariant consumed == before + Front(records, n)
    {
      var tokenHash := records.order[n];
      LoadOne(records, i, before, n);
      if ShardOf(tokenHash) != Some(i) || tokenHash in consumed {
        return false, consumed;
      }
      consumed := consumed[tokenHash := records.at[tokenHash]];
    }
    FrontIsAll(records);
    ok := true;
  }

  /** loadConsumedRefreshShards: valid exactly when no present shard is malformed, overfull, or holds a marker of another. */
  method LoadShards<M>(shards: seq<Shard<M>>) returns (r: LoadedShards<M>)
    requires |shards| == CONSUMED_SHARD_COUNT
    requires forall i :: 0 <= i < CONSUMED_SHARD_COUNT && shards[i].Stored? ==> shards[i].records.Valid()
    ensures r.valid <==> AcceptableUpTo(shards, CONSUMED_SHARD_COUNT)
    ensures r == if r.valid
                 then LoadedShards(Merged(shards, CONSUMED_SHARD_COUNT), CountPresent(shards, CONSUMED_SHARD_COUNT) > 0,
                                   CountPresent(shards, CONSUMED_SHARD_COUNT) == CONSUMED_SHARD_COUNT, true)
                 else LoadedShards(map[], true, false, false)
  {
    var consumed: map<string, M> := map[];
    var presentCount := 0;
    for index := 0 to CONSUMED_SHARD_COUNT
      invariant AcceptableUpTo(shards, index)
      invariant presentCount == CountPresent(shards, index) && consumed == Merged(shards, index)
    {
      if shards[index].Absent? {
        assert consumed + map[] == consumed;
      } else {
        presentCount := presentCount + 1;
        if shards[index].Malformed? || |shards[index].records.order| > MAX_CONSUMED_PER_SHARD {
          assert !Acceptable(shards[index], index);
          return LoadedShards(map[], true, false, false);
        }
        MergedIsBelow(shards, index);
        var ok;
        ok, consumed := LoadShard(shards[index].records, index, consumed);
        if !ok {
          assert !Acceptable(shards[index], index);
          return LoadedShards(map[], true, false, false);
        }
      }
    }
    return LoadedShards(consumed, presentCount > 0, presentCount == CONSUMED_SHARD_COUNT, true);
  }

  // ---- round trip ----

  /** The shards as they are found again after `saved` was written. */
  ghost predicate Written<M>(saved: seq<map<string, M>>, shards: seq<Shard<M>>) {
    && |saved| == |shards|
    && forall i :: 0 <= i < |shards| ==> shards[i].Stored? && shards[i].records.Valid() && shards[i].records.at == saved[i]
  }

  lemma {:induction false} MergedParts<M>(c: map<string, M>, saved: seq<map<string, M>>, shards: seq<Shard<M>>, n: nat)
    requires Filed(c, saved) && Written(saved, shards) && n <= CONSUMED_SHARD_COUNT
    ensures Merged(shards, n) == map h | h in c && ShardOf(h).Some? && ShardOf(h).value < n :: c[h]
    ensures CountPresent(shards, n) == n
  {
    if n > 0 {
      MergedParts(c, saved, shards, n - 1);
      assert shards[n - 1].records.at == ShardPart(c, n - 1);
    }
  }

  /**
   * Whatever is saved is accepted by the load as complete, and gives back exactly the markers that were saved: the
   * shards part them by their first digit.
   */
  lemma ShardsRoundTrip<M>(c: map<string, M>, saved: seq<map<string, M>>, shards: seq<Shard<M>>)
    requires Filed(c, saved) && Written(saved, shards) && AllKeysOk(c) && Fits(c)
    ensures AcceptableUpTo(shards, CONSUMED_SHARD_COUNT)
    ensures Merged(shards, CONSUMED_SHARD_COUNT) == c
    ensures CountPresent(shards, CONSUMED_SHARD_COUNT) == CONSUMED_SHARD_COUNT
  {
    MergedParts(c, saved, shards, CONSUMED_SHARD_COUNT);
    assert forall h :: h in c ==> ShardOf(h).Some? && ShardOf(h).value < CONSUMED_SHARD_COUNT;
    forall i: nat | i < CONSUMED_SHARD_COUNT ensures Acceptable(shards[i], i) {
      SavedIsAcceptable(c, saved, shards, i);
    }
  }

  lemma SavedIsAcceptable<M>(c: map<string, M>, saved: seq<map<string, M>>, shards: seq<Shard<M>>, i: nat)
    requires Filed(c, saved) && Written(saved, shards) && Fits(c) && i < CONSUMED_SHARD_COUNT
    ensures Acceptable(shards[i], i)
  {
    var records := shards[i].records;
    assert records.at == ShardPart(c, i);
    assert |ShardPart(c, i)| <= MAX_CONSUMED_PER_SHARD;
    DistinctSize(records.order);
    assert |records.at| == |records.at.Keys|;
  }
}
