/** The stable sort of ECMAScript's Array.prototype.sort, as insertion of one element after another. */
module StableSort {
  import opened Records

  /** Sort keys are compared first component first. */
  type Rank = (int, int)

  predicate Less(a: Rank, b: Rank) {
    a.0 < b.0 || (a.0 == b.0 && a.1 < b.1)
  }

  /** Where a stable sort puts a later `x`: in front of the first element it is strictly less than. */
  function Position<K>(s: seq<K>, x: K, rank: K -> Rank): (p: nat)
    ensures p <= |s|
  {
    if s == [] || Less(rank(x), rank(s[0])) then 0 else 1 + Position(s[1..], x, rank)
  }

  function Insert<K>(s: seq<K>, x: K, rank: K -> Rank): seq<K> {
    var p := Position(s, x, rank);
    s[..p] + [x] + s[p..]
  }

  function Sort<K>(s: seq<K>, rank: K -> Rank): seq<K> {
    if s == [] then [] else Insert(Sort(s[..|s| - 1], rank), s[|s| - 1], rank)
  }

  ghost predicate Sorted<K>(s: seq<K>, rank: K -> Rank) {
    forall i, j :: 0 <= i < j < |s| ==> !Less(rank(s[j]), rank(s[i]))
  }

  lemma {:induction false} PositionSplits<K>(s: seq<K>, x: K, rank: K -> Rank)
    requires Sorted(s, rank)
    ensures forall i :: 0 <= i < |s| ==> (i < Position(s, x, rank) <==> !Less(rank(x), rank(s[i])))
  {
    if s != [] && !Less(rank(x), rank(s[0])) {
      PositionSplits(s[1..], x, rank);
      forall i | 0 < i < |s| ensures i < Position(s, x, rank) <==> !Less(rank(x), rank(s[i])) {
        assert s[i] == s[1..][i - 1];
      }
    }
  }

  lemma InsertSorts<K>(s: seq<K>, x: K, rank: K -> Rank)
    requires Sorted(s, rank)
    ensures multiset(Insert(s, x, rank)) == multiset(s) + multiset{x}
    ensures Sorted(Insert(s, x, rank), rank)
  {
    hide Position;
    var p, r := Position(s, x, rank), Insert(s, x, rank);
    assert multiset(r) == multiset(s) + multiset{x} by {
      assert s == s[..p] + s[p..];
    }
    hide Insert;
    forall i, j | 0 <= i < j < |r| ensures !Less(rank(r[j]), rank(r[i])) {
      InsertedPair(s, x, rank, i, j);
    }
  }

  lemma InsertedPair<K>(s: seq<K>, x: K, rank: K -> Rank, i: nat, j: nat)
    requires Sorted(s, rank) && i < j <= |s|
    ensures !Less(rank(Insert(s, x, rank)[j]), rank(Insert(s, x, rank)[i]))
  {
    PositionSplits(s, x, rank);
    hide Position;
    var p, r := Position(s, x, rank), Insert(s, x, rank);
    assert r[i] == if i < p then s[i] else if i == p then x else s[i - 1];
    assert r[j] == if j < p then s[j] else if j == p then x else s[j - 1];
  }

  /** Sorting permutes, orders, and puts the last element right behind the earlier ones it does not precede. */
  lemma {:induction false} SortSorts<K>(s: seq<K>, rank: K -> Rank)
    ensures multiset(Sort(s, rank)) == multiset(s)
    ensures |Sort(s, rank)| == |s|
    ensures Sorted(Sort(s, rank), rank)
  {
    if s != [] {
      var t := s[..|s| - 1];
      SortSorts(t, rank);
      InsertSorts(Sort(t, rank), s[|s| - 1], rank);
      assert s == t + [s[|s| - 1]];
    }
    assert |multiset(Sort(s, rank))| == |Sort(s, rank)|;
  }
}
