/** Pruning by expiry: src/worker/oauth-state.ts, pruneClientRecordByExpiry and pruneRecordByExpiry. */
module ExpiryPruning {
  import opened Records
  import opened StableSort

  /** Descending by expiry; the sort is stable, so equal expiries stay in insertion order. */
  function ByExpiry<K, V>(r: Record<K, V>, expiry: V -> int): K -> Rank {
    k => (if k in r.at then -expiry(r.at[k]) else 0, 0)
  }

  /** The first `keep` of `keys`, latest expiry first. */
  function Longest<K, V>(r: Record<K, V>, keys: seq<K>, expiry: V -> int, keep: nat): set<K> {
    Members(Slice(Sort(keys, ByExpiry(r, expiry)), keep))
  }

  function Pruned<K, V>(r: Record<K, V>, expiry: V -> int, keep: nat): Record<K, V> {
    r.Keep(Longest(r, r.order, expiry, keep))
  }

  function OwnedKeys<K, V>(r: Record<K, V>, owned: V -> bool): set<K> {
    set k | k in r.at && owned(r.at[k])
  }

  /** Pruning confined to the entries that satisfy `owned` (one client's). */
  function PrunedWithin<K, V>(r: Record<K, V>, owned: V -> bool, expiry: V -> int, keep: nat): Record<K, V> {
    var mine := OwnedKeys(r, owned);
    r.Keep((r.at.Keys - mine) + Longest(r, Select(r.order, mine), expiry, keep))
  }

  /** Both prunes, a client's own entries first: what issuing a token does to its table. */
  function PrunedTwice<K, V>(r: Record<K, V>, owned: V -> bool, expiry: V -> int, keepOwned: nat, keep: nat): Record<K, V> {
    Pruned(PrunedWithin(r, owned, expiry, keepOwned), expiry, keep)
  }

  lemma PrunedTwiceIsPart<K(!new), V>(r: Record<K, V>, owned: V -> bool, expiry: V -> int, keepOwned: nat, keep: nat)
    requires r.Valid()
    ensures PrunedTwice(r, owned, expiry, keepOwned, keep).Valid()
    ensures Part(PrunedTwice(r, owned, expiry, keepOwned, keep), r)
  {
    var mine := OwnedKeys(r, owned);
    var once := PrunedWithin(r, owned, expiry, keepOwned);
    KeepValid(r, (r.at.Keys - mine) + Longest(r, Select(r.order, mine), expiry, keepOwned));
    KeepValid(once, Longest(once, once.order, expiry, keep));
  }

  method PruneRecordByExpiry<K(==), V>(record: Record<K, V>, expiry: V -> int, keep: nat)
    returns (pruned: Record<K, V>)
    requires record.Valid()
    ensures pruned == Pruned(record, expiry, keep) && pruned.Valid()
  {
    var allowed := Longest(record, record.order, expiry, keep);
    var notAllowed := (k, v) => k !in allowed;
    pruned := DeleteWhere(record, notAllowed);
    KeepSame(record, Spared(record, notAllowed), allowed);
  }

  method PruneClientRecordByExpiry<K(==), V>(record: Record<K, V>, owned: V -> bool, expiry: V -> int, keep: nat)
    returns (pruned: Record<K, V>)
    requires record.Valid()
    ensures pruned == PrunedWithin(record, owned, expiry, keep) && pruned.Valid()
  {
    var allowed := Longest(record, Select(record.order, OwnedKeys(record, owned)), expiry, keep);
    var notAllowed := (k, v) => owned(v) && k !in allowed;
    pruned := DeleteWhere(record, notAllowed);
    KeepSame(record, Spared(record, notAllowed), (record.at.Keys - OwnedKeys(record, owned)) + allowed);
  }

  lemma SamePermutation<K>(s: seq<K>, t: seq<K>)
    requires multiset(s) == multiset(t)
    ensures Members(s) == Members(t)
    ensures Distinct(s) ==> Distinct(t)
  {
    forall k ensures k in Members(s) <==> k in Members(t) {
      assert k in s <==> k in multiset(s);
      assert k in t <==> k in multiset(t);
    }
    if Distinct(s) {
      forall k ensures multiset(t)[k] <= 1 {
        OccursOnce(s, k);
      }
      DistinctWhenOnce(t);
    }
  }

  lemma {:induction false} DistinctWhenOnce<K>(s: seq<K>)
    requires forall k :: multiset(s)[k] <= 1
    ensures Distinct(s)
  {
    if s != [] {
      var t := s[1..];
      assert s == [s[0]] + t;
      assert multiset(s) == multiset{s[0]} + multiset(t);
      forall k ensures multiset(t)[k] <= 1 {
        assert multiset(t)[k] <= multiset(s)[k];
      }
      DistinctWhenOnce(t);
      assert multiset(s)[s[0]] == 1 + multiset(t)[s[0]];
    }
  }

  lemma {:induction false} OccursOnce<K>(s: seq<K>, k: K)
    requires Distinct(s)
    ensures multiset(s)[k] <= 1
  {
    if s != [] {
      OccursOnce(s[1..], k);
      assert s == [s[0]] + s[1..];
      if s[0] == k {
        assert k !in s[1..];
      }
    }
  }

  /** `Longest` takes min(keep, n) of the keys, and no key it leaves out expires later than one it takes. */
  lemma LongestIsTop<K, V>(r: Record<K, V>, keys: seq<K>, expiry: V -> int, keep: nat)
    requires Distinct(keys) && Members(keys) <= r.at.Keys
    ensures Longest(r, keys, expiry, keep) <= Members(keys)
    ensures |Longest(r, keys, expiry, keep)| == if keep < |keys| then keep else |keys|
    ensures forall k, d :: k in Longest(r, keys, expiry, keep) && d in Members(keys) - Longest(r, keys, expiry, keep)
                           ==> expiry(r.at[d]) <= expiry(r.at[k])
  {
    var rank := ByExpiry(r, expiry);
    var sorted := Sort(keys, rank);
    SortSorts(keys, rank);
    SamePermutation(keys, sorted);
    var top := Slice(sorted, keep);
    DistinctSize(top);
    forall k, d | k in top && d in Members(keys) && d !in top ensures expiry(r.at[d]) <= expiry(r.at[k]) {
      assert d in sorted;
      var i, j :| 0 <= i < |top| && top[i] == k && 0 <= j < |sorted| && sorted[j] == d;
      assert i < j && !Less(rank(sorted[j]), rank(sorted[i]));
    }
  }

  /** pruneRecordByExpiry leaves min(keep, n) entries, unchanged, and drops none that expires after a kept one. */
  lemma PrunedKeepsLongest<K, V>(r: Record<K, V>, expiry: V -> int, keep: nat)
    requires r.Valid()
    ensures var p := Pruned(r, expiry, keep);
            && p.Valid()
            && |p.at| == (if keep < |r.at| then keep else |r.at|)
            && (forall k :: k in p.at ==> k in r.at && p.at[k] == r.at[k])
            && (forall k, d :: k in p.at && d in r.at && d !in p.at ==> expiry(r.at[d]) <= expiry(r.at[k]))
  {
    var p := Pruned(r, expiry, keep);
    LongestIsTop(r, r.order, expiry, keep);
    DistinctSize(r.order);
    KeepValid(r, Longest(r, r.order, expiry, keep));
    assert p.at.Keys == Longest(r, r.order, expiry, keep);
    assert |r.at| == |r.at.Keys| && |p.at| == |p.at.Keys|;
  }

  /** pruneClientRecordByExpiry does the same to one client's entries and leaves all others in place. */
  lemma PrunedWithinKeepsLongest<K, V>(r: Record<K, V>, owned: V -> bool, expiry: V -> int, keep: nat)
    requires r.Valid()
    ensures var p := PrunedWithin(r, owned, expiry, keep);
            && p.Valid()
            && |OwnedKeys(p, owned)| == (if keep < |OwnedKeys(r, owned)| then keep else |OwnedKeys(r, owned)|)
            && (forall k :: k in p.at ==> k in r.at && p.at[k] == r.at[k])
            && (forall k :: k in r.at && !owned(r.at[k]) ==> k in p.at)
            && (forall k, d :: k in p.at && owned(r.at[k]) && d in r.at && d !in p.at ==> expiry(r.at[d]) <= expiry(r.at[k]))
  {
    var mine := OwnedKeys(r, owned);
    var keys := Select(r.order, mine);
    SelectIsSubsequence(r.order, mine);
    OwnedOrder(r, mine);
    hide Longest, Select, Distinct, OwnedKeys;
    LongestIsTop(r, keys, expiry, keep);
    DistinctSize(keys);
    KeptWithin(r, owned, Longest(r, keys, expiry, keep));
    assert mine == Members(keys);
    forall k | k in r.at ensures k in mine <==> owned(r.at[k]) {
      OwnedMeans(r, owned, k);
    }
  }

  /** Both prunes together: each cap holds, and what is left was there before. */
  lemma PrunedTwiceIsCapped<K(!new), V>(r: Record<K, V>, owned: V -> bool, expiry: V -> int, keepOwned: nat, keep: nat)
    requires r.Valid()
    ensures var p := PrunedTwice(r, owned, expiry, keepOwned, keep);
            p.Valid() && |OwnedKeys(p, owned)| <= keepOwned && |p.at| <= keep
  {
    var once, p := PrunedWithin(r, owned, expiry, keepOwned), PrunedTwice(r, owned, expiry, keepOwned, keep);
    PrunedWithinKeepsLongest(r, owned, expiry, keepOwned);
    PrunedKeepsLongest(once, expiry, keep);
    hide Pruned, PrunedWithin;
    assert OwnedKeys(p, owned) <= OwnedKeys(once, owned);
    assert |OwnedKeys(once, owned)| == |OwnedKeys(p, owned)| + |OwnedKeys(once, owned) - OwnedKeys(p, owned)|;
  }

  lemma OwnedMeans<K, V>(r: Record<K, V>, owned: V -> bool, k: K)
    ensures k in OwnedKeys(r, owned) <==> k in r.at && owned(r.at[k])
  {
  }

  lemma KeptWithin<K, V>(r: Record<K, V>, owned: V -> bool, top: set<K>)
    requires r.Valid() && top <= OwnedKeys(r, owned)
    ensures var p := r.Keep((r.at.Keys - OwnedKeys(r, owned)) + top);
            && p.Valid()
            && p.at.Keys == (r.at.Keys - OwnedKeys(r, owned)) + top
            && OwnedKeys(p, owned) == top
            && (forall k :: k in p.at ==> k in r.at && p.at[k] == r.at[k])
  {
    KeepValid(r, (r.at.Keys - OwnedKeys(r, owned)) + top);
  }

  lemma OwnedOrder<K, V>(r: Record<K, V>, mine: set<K>)
    requires r.Valid() && mine <= r.at.Keys
    ensures Members(Select(r.order, mine)) == mine
  {
    SelectIsSubsequence(r.order, mine);
    forall k | k in mine ensures k in Select(r.order, mine) {
      assert k in Members(r.order);
    }
  }

  /** The entries inserted before `k` that do not expire before it: the ones a stable descending sort ranks higher. */
  ghost function Rivals<K, V>(r: Record<K, V>, before: seq<K>, k: K, expiry: V -> int): set<K>
    requires k in r.at
  {
    set q | q in before && q in r.at && expiry(r.at[q]) >= expiry(r.at[k])
  }

  lemma RivalsStandInFront<K, V>(r: Record<K, V>, older: seq<K>, newest: K, expiry: V -> int)
    requires Distinct(older) && Members(older) <= r.at.Keys && newest in r.at
    ensures var sorted, rank := Sort(older, ByExpiry(r, expiry)), ByExpiry(r, expiry);
            && Position(sorted, newest, rank) == |Rivals(r, older, newest, expiry)|
            && Members(sorted[..Position(sorted, newest, rank)]) == Rivals(r, older, newest, expiry)
  {
    var rank := ByExpiry(r, expiry);
    var sorted := Sort(older, rank);
    SortSorts(older, rank);
    SamePermutation(older, sorted);
    PositionSplits(sorted, newest, rank);
    var p := Position(sorted, newest, rank);
    DistinctSize(sorted[..p]);
    forall q ensures q in Members(sorted[..p]) <==> q in Rivals(r, older, newest, expiry) {
      assert q in older <==> q in Members(sorted);
      if q in sorted {
        assert q in Members(older);
        var i :| 0 <= i < |sorted| && sorted[i] == q;
        assert i < p <==> expiry(r.at[q]) >= expiry(r.at[newest]);
        if i < p {
          assert sorted[..p][i] == q;
        } else {
          assert forall j :: 0 <= j < p ==> sorted[..p][j] == sorted[j] != sorted[i];
        }
      }
    }
    assert Members(sorted[..p]) == Rivals(r, older, newest, expiry);
  }

  /** The entry inserted last survives exactly when fewer than `keep` older entries expire no earlier: on a tie it loses. */
  lemma NewestSurvives<K, V>(r: Record<K, V>, older: seq<K>, newest: K, expiry: V -> int, keep: nat)
    requires Distinct(older + [newest]) && Members(older + [newest]) <= r.at.Keys
    ensures newest in Members(older + [newest])
    ensures newest in Longest(r, older + [newest], expiry, keep) <==> |Rivals(r, older, newest, expiry)| < keep
    ensures newest in Longest(r, older + [newest], expiry, keep)
            ==> Rivals(r, older, newest, expiry) <= Longest(r, older + [newest], expiry, keep)
  {
    var keys, rank := older + [newest], ByExpiry(r, expiry);
    assert keys[..|keys| - 1] == older && keys[|older|] == newest;
    assert Distinct(older) by { assert forall i :: 0 <= i < |older| ==> older[i] == keys[i]; }
    assert Members(older) <= Members(keys) && newest in Members(keys);
    RivalsStandInFront(r, older, newest, expiry);
    var sorted := Sort(keys, rank);
    SortSorts(keys, rank);
    SamePermutation(keys, sorted);
    var p := Position(Sort(older, rank), newest, rank);
    assert sorted[p] == newest && sorted[..p] == Sort(older, rank)[..p];
    hide Sort, Position, Sorted, Rivals;
    TopOfSorted(sorted, p, newest, Rivals(r, older, newest, expiry), keep);
  }

  lemma TopOfSorted<K>(sorted: seq<K>, p: nat, newest: K, rivals: set<K>, keep: nat)
    requires Distinct(sorted) && p < |sorted| && sorted[p] == newest && Members(sorted[..p]) == rivals
    ensures newest in Members(Slice(sorted, keep)) <==> p < keep
    ensures p < keep ==> rivals <= Members(Slice(sorted, keep))
  {
    var top := Slice(sorted, keep);
    if p < keep {
      assert top[p] == newest;
      forall q | q in rivals ensures q in top {
        var i :| 0 <= i < p && sorted[..p][i] == q;
        assert top[i] == q;
      }
    } else {
      assert forall i :: 0 <= i < |top| ==> top[i] == sorted[i] != sorted[p];
    }
  }

  /** The entries that expire no earlier than `at`; of them, one client's. */
  ghost function Outlasting<K, V>(r: Record<K, V>, expiry: V -> int, at: int): set<K> {
    set k | k in r.at && expiry(r.at[k]) >= at
  }

  ghost function OwnedOutlasting<K, V>(r: Record<K, V>, owned: V -> bool, expiry: V -> int, at: int): set<K> {
    set k | k in r.at && owned(r.at[k]) && expiry(r.at[k]) >= at
  }

  lemma {:induction false} SelectAppend<K>(s: seq<K>, k: K, wanted: set<K>)
    requires k in wanted
    ensures Select(s + [k], wanted) == Select(s, wanted) + [k]
  {
    if s == [] {
      assert s + [k] == [k] && [k][1..] == [];
    } else {
      SelectAppend(s[1..], k, wanted);
      assert (s + [k])[1..] == s[1..] + [k];
    }
  }

  /** One prune among the entries of `mine`, with the newest of them last. */
  lemma NewestSelected<K, V>(r: Record<K, V>, newest: K, mine: set<K>, expiry: V -> int, keep: nat)
    requires r.Valid() && r.order != [] && r.order[|r.order| - 1] == newest && newest in mine && mine <= r.at.Keys
    ensures var top := Longest(r, Select(r.order, mine), expiry, keep);
            var ahead := set q | q in mine && q != newest && expiry(r.at[q]) >= expiry(r.at[newest]);
            && (newest in top <==> |ahead| < keep)
            && (newest in top ==> ahead <= top)
  {
    var older := r.order[..|r.order| - 1];
    var others := Select(older, mine);
    assert r.order == older + [newest];
    SelectAppend(older, newest, mine);
    SelectIsSubsequence(r.order, mine);
    SelectIsSubsequence(older, mine);
    OwnedOrder(r, mine);
    var ahead := set q | q in mine && q != newest && expiry(r.at[q]) >= expiry(r.at[newest]);
    assert Distinct(older + [newest]);
    assert (older + [newest])[|older|] == newest;
    forall q ensures q in ahead <==> q in Rivals(r, others, newest, expiry) {
      if q in ahead {
        assert q in Members(r.order) && q in older;
      }
      if q in others {
        var i :| 0 <= i < |older| && older[i] == q;
        assert (older + [newest])[i] == q;
      }
    }
    assert ahead == Rivals(r, others, newest, expiry);
    NewestSurvives(r, others, newest, expiry, keep);
  }

  /** Among the client's own entries; the ones that outlast the new one stay with it. */
  lemma FiledOnce<K(!new), V>(r: Record<K, V>, k: K, v: V, owned: V -> bool, expiry: V -> int, keep: nat)
    requires r.Valid() && k !in r.at && owned(v)
    ensures var once := PrunedWithin(r.Put(k, v), owned, expiry, keep);
            && once.Valid() && Part(once, r.Put(k, v))
            && (k in once.at <==> |OwnedOutlasting(r, owned, expiry, expiry(v))| < keep)
            && (k in once.at ==> Outlasting(r, expiry, expiry(v)) <= once.at.Keys)
            && (k in once.at ==> once.order != [] && once.order[|once.order| - 1] == k)
  {
    var filed := r.Put(k, v);
    var mine := OwnedKeys(filed, owned);
    PutValid(r, k, v);
    NewestSelected(filed, k, mine, expiry, keep);
    var top := Longest(filed, Select(filed.order, mine), expiry, keep);
    var ahead := set q | q in mine && q != k && expiry(filed.at[q]) >= expiry(v);
    assert ahead == OwnedOutlasting(r, owned, expiry, expiry(v));
    var survivors := (filed.at.Keys - mine) + top;
    KeepValid(filed, survivors);
    if k in top {
      SelectAppend(r.order, k, survivors);
      forall q | q in Outlasting(r, expiry, expiry(v)) ensures q in survivors {
        assert q in mine ==> q in ahead;
      }
    }
  }

  lemma SelectOwnKeys<K, V>(r: Record<K, V>)
    requires r.Valid()
    ensures Select(r.order, r.at.Keys) == r.order
  {
    SelectAll(r.order, r.at.Keys);
  }

  lemma LastSurvives<K, V>(r: Record<K, V>, k: K, expiry: V -> int, keep: nat)
    requires r.Valid() && r.order != [] && r.order[|r.order| - 1] == k && k in r.at
    ensures k in Pruned(r, expiry, keep).at <==> |Outlasting(r, expiry, expiry(r.at[k])) - {k}| < keep
  {
    hide Longest;
    SelectOwnKeys(r);
    NewestSelected(r, k, r.at.Keys, expiry, keep);
    assert (set q | q in r.at.Keys && q != k && expiry(r.at[q]) >= expiry(r.at[k])) == Outlasting(r, expiry, expiry(r.at[k])) - {k};
  }

  /**
   * An entry that is filed and then pruned with its client's and with all entries stays exactly when fewer than
   * `keepOwned` entries of the client, and fewer than `keep` of all, expire at its time or later.
   */
  lemma FiledSurvives<K(!new), V>(r: Record<K, V>, k: K, v: V, owned: V -> bool, expiry: V -> int, keepOwned: nat, keep: nat)
    requires r.Valid() && k !in r.at && owned(v)
    ensures k in PrunedTwice(r.Put(k, v), owned, expiry, keepOwned, keep).at
            <==> |OwnedOutlasting(r, owned, expiry, expiry(v))| < keepOwned && |Outlasting(r, expiry, expiry(v))| < keep
  {
    FiledOnce(r, k, v, owned, expiry, keepOwned);
    var once := PrunedWithin(r.Put(k, v), owned, expiry, keepOwned);
    hide PrunedWithin, Pruned;
    if k in once.at {
      LastSurvives(once, k, expiry, keep);
      assert Outlasting(once, expiry, expiry(v)) - {k} == Outlasting(r, expiry, expiry(v));
    } else {
      PrunedKeepsLongest(once, expiry, keep);
    }
  }
}
