/** Array.prototype.filter and findIndex. */
module Lists {

  function Filter<A>(s: seq<A>, keep: A -> bool): seq<A> {
    if s == [] then []
    else (if keep(s[0]) then [s[0]] else []) + Filter(s[1..], keep)
  }

  /** The first element that is wanted, or the length. */
  function Find<A>(s: seq<A>, wanted: A -> bool): (i: nat)
    ensures i <= |s| && (i < |s| ==> wanted(s[i]))
    ensures forall j :: 0 <= j < i ==> !wanted(s[j])
  {
    if s == [] || wanted(s[0]) then 0 else 1 + Find(s[1..], wanted)
  }
}
