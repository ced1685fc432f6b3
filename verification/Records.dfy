/** JavaScript objects used as dictionaries, and the stable sorts that the prune functions apply to them. */
module Records {

  datatype Option<+T> = None | Some(value: T)

  type byte = b: int | 0 <= b < 256

  /** An object with own string keys: `order` lists the keys as inserted, `at` maps them to their values. */
  datatype Record<K(==), V> = Record(order: seq<K>, at: map<K, V>) {

    ghost predicate Valid() {
      && Members(order) == at.Keys
      && Distinct(order)
    }

    /** Assignment `record[k] = v`: a key that is already present keeps its place. */
    function Put(k: K, v: V): Record<K, V> {
      Record(if k in at then order else order + [k], at[k := v])
    }

    /** What is left after every key outside `survivors` was deleted. */
    function Keep(survivors: set<K>): Record<K, V> {
      Record(Select(order, survivors), map k | k in at && k in survivors :: at[k])
    }

    /** `delete record[k]` */
    function Delete(k: K): Record<K, V> {
      Keep(at.Keys - {k})
    }
  }

  function Empty<K(==), V>(): Record<K, V> {
    Record([], map[])
  }

  function Members<K(==)>(s: seq<K>): set<K> {
    set k | k in s
  }

  /** `s.slice(0, n)` */
  function Slice<K>(s: seq<K>, n: nat): seq<K> {
    if n < |s| then s[..n] else s
  }

  ghost predicate Distinct<K>(s: seq<K>) {
    forall i, j :: 0 <= i < j < |s| ==> s[i] != s[j]
  }

  function Select<K(==)>(s: seq<K>, wanted: set<K>): seq<K> {
    if s == [] then []
    else if s[0] in wanted then [s[0]] + Select(s[1..], wanted)
    else Select(s[1..], wanted)
  }

  lemma {:induction false} SelectIsSubsequence<K>(s: seq<K>, wanted: set<K>)
    ensures forall k :: k in Select(s, wanted) ==> k in s && k in wanted
    ensures forall k :: k in s && k in wanted ==> k in Select(s, wanted)
    ensures Distinct(s) ==> Distinct(Select(s, wanted))
  {
    if s != [] {
      SelectIsSubsequence(s[1..], wanted);
      assert s == [s[0]] + s[1..];
      if Distinct(s) {
        assert s[0] !in s[1..];
      }
    }
  }

  lemma {:induction false} SelectTwice<K>(s: seq<K>, a: set<K>, b: set<K>)
    ensures Select(Select(s, a), b) == Select(s, a * b)
  {
    if s != [] {
      SelectTwice(s[1..], a, b);
      if s[0] in a {
        assert ([s[0]] + Select(s[1..], a))[1..] == Select(s[1..], a);
      }
    }
  }

  lemma {:induction false} SelectAll<K>(s: seq<K>, wanted: set<K>)
    requires forall k :: k in s ==> k in wanted
    ensures Select(s, wanted) == s
  {
    if s != [] {
      assert s == [s[0]] + s[1..];
      SelectAll(s[1..], wanted);
    }
  }

  lemma KeepValid<K, V>(r: Record<K, V>, survivors: set<K>)
    requires r.Valid()
    ensures r.Keep(survivors).Valid()
  {
    SelectIsSubsequence(r.order, survivors);
    var order, at := Select(r.order, survivors), r.Keep(survivors).at;
    assert forall k :: k in r.at.Keys <==> k in Members(r.order);
    forall k | k in order ensures k in at {
      assert k in Members(r.order);
    }
    assert forall k :: k in at ==> k in order;
    assert Members(order) == at.Keys;
  }

  lemma KeepTwice<K, V>(r: Record<K, V>, a: set<K>, b: set<K>)
    ensures r.Keep(a).Keep(b) == r.Keep(a * b)
  {
    SelectTwice(r.order, a, b);
  }

  lemma KeepAll<K, V>(r: Record<K, V>, survivors: set<K>)
    requires r.Valid() && r.at.Keys <= survivors
    ensures r.Keep(survivors) == r
  {
    SelectAll(r.order, survivors);
  }

  lemma PutValid<K, V>(r: Record<K, V>, k: K, v: V)
    requires r.Valid()
    ensures r.Put(k, v).Valid()
  {
  }

  /** Every entry of `a` is one of `b`'s. */
  ghost predicate Part<K(!new), V>(a: Record<K, V>, b: Record<K, V>) {
    forall k :: k in a.at ==> k in b.at && a.at[k] == b.at[k]
  }

  /** Only what a survivor set says about the record's own keys matters. */
  lemma KeepSame<K, V>(r: Record<K, V>, a: set<K>, b: set<K>)
    requires r.Valid() && r.at.Keys * a == r.at.Keys * b
    ensures r.Keep(a) == r.Keep(b)
  {
    forall k | k in r.order ensures k in a <==> k in b {
      assert k in r.at.Keys;
      assert k in a <==> k in r.at.Keys * a;
    }
    SelectSame(r.order, a, b);
  }

  lemma {:induction false} SelectSame<K>(s: seq<K>, a: set<K>, b: set<K>)
    requires forall k :: k in s ==> (k in a <==> k in b)
    ensures Select(s, a) == Select(s, b)
  {
    if s != [] {
      SelectSame(s[1..], a, b);
    }
  }

  /** The record after the keys in `gone` were deleted. */
  function Without<K, V>(r: Record<K, V>, gone: set<K>): Record<K, V> {
    r.Keep(r.at.Keys - gone)
  }

  lemma WithoutNothing<K, V>(r: Record<K, V>)
    requires r.Valid()
    ensures Without(r, {}) == r
  {
    KeepAll(r, r.at.Keys - {});
  }

  /** One more `delete` in a loop that deletes keys one at a time. */
  lemma WithoutOneMore<K, V>(r: Record<K, V>, gone: set<K>, k: K)
    requires r.Valid()
    ensures Without(r, gone).Delete(k) == Without(r, gone + {k})
  {
    var kept := Without(r, gone);
    KeepTwice(r, r.at.Keys - gone, kept.at.Keys - {k});
    assert kept.at.Keys == r.at.Keys - gone;
    KeepSame(r, (r.at.Keys - gone) * (kept.at.Keys - {k}), r.at.Keys - (gone + {k}));
  }

  lemma MembersGrow<K>(s: seq<K>, i: nat)
    requires i <= |s|
    ensures i < |s| ==> Members(s[..i + 1]) == Members(s[..i]) + {s[i]}
    ensures Members(s[..|s|]) == Members(s)
  {
    if i < |s| {
      assert s[..i + 1] == s[..i] + [s[i]];
    }
    assert s[..|s|] == s;
  }

  lemma {:induction false} DistinctSize<K>(s: seq<K>)
    requires Distinct(s)
    ensures |Members(s)| == |s|
  {
    if s != [] {
      var t := s[..|s| - 1];
      DistinctSize(t);
      MembersGrow(s, |s| - 1);
      assert s[|s| - 1] !in Members(t);
      hide Members, Distinct;
      assert s[..|s| - 1 + 1] == s;
    }
  }

  function Spared<K, V>(r: Record<K, V>, doomed: (K, V) -> bool): set<K> {
    set k | k in r.at && !doomed(k, r.at[k])
  }

  /** `for (const [key, value] of Object.entries(record)) if (doomed) delete record[key]` */
  method DeleteWhere<K(==), V>(record: Record<K, V>, doomed: (K, V) -> bool) returns (kept: Record<K, V>)
    requires record.Valid()
    ensures kept == record.Keep(Spared(record, doomed)) && kept.Valid()
  {
    kept := record;
    ghost var gone: set<K> := {};
    WithoutNothing(record);
    for i := 0 to |record.order|
      invariant gone == Members(record.order[..i]) - Spared(record, doomed)
      invariant kept == Without(record, gone)
    {
      var key := record.order[i];
      MembersGrow(record.order, i);
      assert key in Members(record.order);
      if doomed(key, record.at[key]) {
        WithoutOneMore(record, gone, key);
        kept, gone := kept.Delete(key), gone + {key};
      }
    }
    MembersGrow(record.order, |record.order|);
    KeepSame(record, record.at.Keys - gone, Spared(record, doomed));
    KeepValid(record, Spared(record, doomed));
  }
}
