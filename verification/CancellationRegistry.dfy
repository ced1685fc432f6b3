/** Cancellation by request key, before or after the request opens: src/worker/mcp-request-cancellation.ts. */
module CancellationRegistry {
  import opened Records

  type Key = nat

  /** `active` maps keys to controllers, `cancelled` the tombstones to their expiry. */
  datatype Registry = Registry(active: map<Key, nat>, cancelled: map<Key, nat>, failClosedUntil: nat,
                               aborted: set<nat>, controllers: nat)

  datatype Limits = Limits(ttl: nat, maximum: nat)

  predicate ValidLimits(l: Limits) { l.ttl > 0 && l.maximum > 0 }

  const EMPTY := Registry(map[], map[], 0, {}, 0)

  function Pruned(r: Registry, now: nat): Registry {
    Registry(r.active, map k | k in r.cancelled && r.cancelled[k] > now :: r.cancelled[k],
             if r.failClosedUntil <= now then 0 else r.failClosedUntil, r.aborted, r.controllers)
  }

  function Max(a: nat, b: nat): nat { if a >= b then a else b }

  /** A cancel with a key; without one it does nothing. */
  function Cancelled(r: Registry, key: Option<Key>, now: nat, l: Limits): Registry {
    if key.None? then r
    else
      var p := Pruned(r, now);
      if key.value in p.active then p.(aborted := p.aborted + {p.active[key.value]})
      else if key.value in p.cancelled || |p.cancelled| < l.maximum then p.(cancelled := p.cancelled[key.value := now + l.ttl])
      else p.(failClosedUntil := Max(p.failClosedUntil, now + l.ttl))
  }

  predicate OpensAborted(p: Registry, key: Option<Key>, requestAborted: bool, now: nat) {
    requestAborted || (key.Some? && (key.value in p.cancelled || now < p.failClosedUntil))
  }

  predicate Duplicate(r: Registry, key: Option<Key>) {
    key.Some? && key.value in r.active
  }

  /** An open that does not throw: the new controller's number is the old count. */
  function Opened(r: Registry, key: Option<Key>, requestAborted: bool, now: nat): Registry {
    var p := Pruned(r, now);
    if Duplicate(p, key) then p
    else
      Registry(if key.Some? then p.active[key.value := p.controllers] else p.active,
               if key.Some? then p.cancelled - {key.value} else p.cancelled,
               p.failClosedUntil,
               if OpensAborted(p, key, requestAborted, now) then p.aborted + {p.controllers} else p.aborted,
               p.controllers + 1)
  }

  function Released(r: Registry, key: Option<Key>, controller: nat): Registry {
    if key.Some? && key.value in r.active && r.active[key.value] == controller then r.(active := r.active - {key.value}) else r
  }

  // ---- runs ----

  datatype Action =
    | Cancel(key: Option<Key>, now: nat)
    | Open(key: Option<Key>, requestAborted: bool, now: nat)
    | Release(key: Option<Key>, controller: nat)
    | Abort(controller: nat)  // through its lease or its request's signal

  /** The registry next to an unbounded one: `ideal` keeps every cancellation of a key that was not active, to its expiry. */
  datatype System = System(registry: Registry, ideal: map<Key, nat>, clock: nat)

  const GENESIS := System(EMPTY, map[], 0)

  function Step(sys: System, a: Action, l: Limits): System {
    var r := sys.registry;
    match a
    case Cancel(key, now) =>
      System(Cancelled(r, key, now, l),
             if key.Some? && key.value !in r.active then sys.ideal[key.value := now + l.ttl] else sys.ideal, now)
    case Open(key, requestAborted, now) =>
      System(Opened(r, key, requestAborted, now),
             if key.Some? && key.value !in r.active then sys.ideal - {key.value} else sys.ideal, now)
    case Release(key, controller) => sys.(registry := Released(r, key, controller))
    case Abort(controller) => if controller < r.controllers then sys.(registry := r.(aborted := r.aborted + {controller})) else sys
  }

  function Run(actions: seq<Action>, l: Limits): System {
    if actions == [] then GENESIS else Step(Run(actions[..|actions| - 1], l), actions[|actions| - 1], l)
  }

  function TimeOf(a: Action, clock: nat): nat {
    match a
    case Cancel(_, now) => now
    case Open(_, _, now) => now
    case _ => clock
  }

  /** The clock never goes back. */
  ghost predicate Monotone(actions: seq<Action>, l: Limits) {
    actions == [] || (Monotone(actions[..|actions| - 1], l)
                      && TimeOf(actions[|actions| - 1], Run(actions[..|actions| - 1], l).clock) >= Run(actions[..|actions| - 1], l).clock)
  }

  /** An unexpired cancellation has its tombstone, or falls into a time in which everything opens aborted. */
  ghost predicate Kept(r: Registry, key: Key, expiry: nat, clock: nat) {
    expiry > clock ==> (key in r.cancelled && r.cancelled[key] == expiry) || r.failClosedUntil >= expiry
  }

  ghost predicate AllKept(sys: System) {
    forall k :: k in sys.ideal ==> Kept(sys.registry, k, sys.ideal[k], sys.clock)
  }

  /** A tombstone stands for a cancellation that has not been followed by an open. */
  ghost predicate AllGenuine(sys: System) {
    forall k :: k in sys.registry.cancelled ==> k in sys.ideal && sys.ideal[k] == sys.registry.cancelled[k]
  }

  /** Controllers are numbered in the order in which they are made. */
  ghost predicate Numbered(r: Registry) {
    && (forall c :: c in r.aborted ==> c < r.controllers)
    && (forall k :: k in r.active ==> r.active[k] < r.controllers)
  }

  ghost predicate Inv(sys: System, l: Limits) {
    && AllKept(sys) && AllGenuine(sys) && Numbered(sys.registry)
    && |sys.registry.cancelled| <= l.maximum
    && sys.registry.failClosedUntil <= sys.clock + l.ttl
  }

  lemma PrunedIsSmaller(r: Registry, now: nat)
    ensures |Pruned(r, now).cancelled| <= |r.cancelled|
  {
    var p := Pruned(r, now).cancelled;
    assert p.Keys <= r.cancelled.Keys;
    assert |r.cancelled.Keys| == |p.Keys| + |r.cancelled.Keys - p.Keys|;
    assert |p| == |p.Keys| && |r.cancelled| == |r.cancelled.Keys|;
  }

  lemma PruneKeepsInv(sys: System, now: nat, l: Limits)
    requires Inv(sys, l) && now >= sys.clock
    ensures Inv(sys.(registry := Pruned(sys.registry, now), clock := now), l)
  {
    PrunedIsSmaller(sys.registry, now);
    var sys' := sys.(registry := Pruned(sys.registry, now), clock := now);
    forall k | k in sys'.ideal ensures Kept(sys'.registry, k, sys'.ideal[k], now) {
      assert Kept(sys.registry, k, sys.ideal[k], sys.clock);
    }
  }

  lemma CancelKeepsInv(sys: System, key: Key, l: Limits)
    requires Inv(sys, l) && ValidLimits(l) && key !in sys.registry.active
    requires Pruned(sys.registry, sys.clock) == sys.registry
    ensures Inv(System(Cancelled(sys.registry, Some(key), sys.clock, l), sys.ideal[key := sys.clock + l.ttl], sys.clock), l)
  {
    var sys' := System(Cancelled(sys.registry, Some(key), sys.clock, l), sys.ideal[key := sys.clock + l.ttl], sys.clock);
    forall k | k in sys'.ideal ensures Kept(sys'.registry, k, sys'.ideal[k], sys.clock) {
      if k != key {
        assert Kept(sys.registry, k, sys.ideal[k], sys.clock);
      }
    }
    PutSize(sys.registry.cancelled, key, sys.clock + l.ttl);
  }

  lemma PutSize(c: map<Key, nat>, key: Key, value: nat)
    ensures |c[key := value]| == |c| + if key in c then 0 else 1
  {
    assert c[key := value].Keys == c.Keys + {key};
    assert key in c ==> c.Keys + {key} == c.Keys;
    assert |c[key := value]| == |c[key := value].Keys| && |c| == |c.Keys|;
  }

  lemma OpenKeepsInv(sys: System, key: Key, requestAborted: bool, l: Limits)
    requires Inv(sys, l) && key !in sys.registry.active && Pruned(sys.registry, sys.clock) == sys.registry
    ensures Inv(System(Opened(sys.registry, Some(key), requestAborted, sys.clock), sys.ideal - {key}, sys.clock), l)
  {
    var opening := Opened(sys.registry, Some(key), requestAborted, sys.clock);
    OpenedMeans(sys.registry, key, requestAborted, sys.clock);
    hide Opened;
    DroppedKeepsInv(sys, System(opening, sys.ideal - {key}, sys.clock), key, l);
  }

  lemma OpenedMeans(r: Registry, key: Key, requestAborted: bool, now: nat)
    requires key !in r.active && Pruned(r, now) == r && Numbered(r)
    ensures var o := Opened(r, Some(key), requestAborted, now);
            Numbered(o) && o.cancelled == r.cancelled - {key} && o.failClosedUntil == r.failClosedUntil
  {
    hide Pruned, OpensAborted;
  }

  lemma DroppedKeepsInv(sys: System, sys': System, key: Key, l: Limits)
    requires Inv(sys, l) && Numbered(sys'.registry) && sys'.ideal == sys.ideal - {key} && sys'.clock == sys.clock
    requires sys'.registry.cancelled == sys.registry.cancelled - {key} && sys'.registry.failClosedUntil == sys.registry.failClosedUntil
    ensures Inv(sys', l)
  {
    hide Numbered, AllKept, AllGenuine;
    DroppedKept(sys, sys', key);
    DroppedGenuine(sys, sys', key);
    DeleteSize(sys.registry.cancelled, key);
  }

  lemma DroppedKept(sys: System, sys': System, key: Key)
    requires AllKept(sys) && sys'.ideal == sys.ideal - {key} && sys'.clock == sys.clock
    requires sys'.registry.cancelled == sys.registry.cancelled - {key} && sys'.registry.failClosedUntil == sys.registry.failClosedUntil
    ensures AllKept(sys')
  {
    forall k | k in sys'.ideal ensures Kept(sys'.registry, k, sys'.ideal[k], sys.clock) {
      assert k != key && k in sys.ideal;
      assert Kept(sys.registry, k, sys.ideal[k], sys.clock);
    }
  }

  lemma DroppedGenuine(sys: System, sys': System, key: Key)
    requires AllGenuine(sys) && sys'.ideal == sys.ideal - {key}
    requires sys'.registry.cancelled == sys.registry.cancelled - {key}
    ensures AllGenuine(sys')
  {
  }

  lemma DeleteSize(c: map<Key, nat>, key: Key)
    ensures |c - {key}| <= |c|
  {
    assert (c - {key}).Keys == c.Keys - {key};
    assert |c - {key}| == |(c - {key}).Keys| && |c| == |c.Keys|;
  }

  lemma PruneTwice(r: Registry, now: nat)
    ensures Pruned(Pruned(r, now), now) == Pruned(r, now)
  {
  }

  lemma StepKeepsInv(sys: System, a: Action, l: Limits)
    requires Inv(sys, l) && ValidLimits(l) && TimeOf(a, sys.clock) >= sys.clock
    ensures Inv(Step(sys, a, l), l)
  {
    if a.Cancel? {
      CancelStep(sys, a, l);
    } else if a.Open? {
      OpenStep(sys, a, l);
    } else {
      SameTombstones(sys, sys, Step(sys, a, l), l);
    }
  }

  lemma CancelStep(sys: System, a: Action, l: Limits)
    requires Inv(sys, l) && ValidLimits(l) && a.Cancel? && a.now >= sys.clock
    ensures Inv(Step(sys, a, l), l)
  {
    var p := sys.(registry := Pruned(sys.registry, a.now), clock := a.now);
    PruneKeepsInv(sys, a.now, l);
    PruneTwice(sys.registry, a.now);
    if a.key.Some? && a.key.value !in sys.registry.active {
      CancelKeepsInv(p, a.key.value, l);
      assert Cancelled(p.registry, a.key, a.now, l) == Cancelled(sys.registry, a.key, a.now, l);
    } else {
      SameTombstones(p, sys, Step(sys, a, l), l);
    }
  }

  lemma OpenStep(sys: System, a: Action, l: Limits)
    requires Inv(sys, l) && a.Open? && a.now >= sys.clock
    ensures Inv(Step(sys, a, l), l)
  {
    var p := sys.(registry := Pruned(sys.registry, a.now), clock := a.now);
    PruneKeepsInv(sys, a.now, l);
    PruneTwice(sys.registry, a.now);
    if a.key.Some? && a.key.value !in sys.registry.active {
      OpenKeepsInv(p, a.key.value, a.requestAborted, l);
      assert Opened(p.registry, a.key, a.requestAborted, a.now) == Opened(sys.registry, a.key, a.requestAborted, a.now);
    } else {
      SameTombstones(p, sys, Step(sys, a, l), l);
    }
  }

  /** Only tombstones and times matter. */
  lemma SameTombstones(p: System, unpruned: System, sys': System, l: Limits)
    requires Inv(p, l) && Inv(unpruned, l) && sys'.ideal == p.ideal == unpruned.ideal && p.clock >= unpruned.clock
    requires sys'.clock == p.clock && Numbered(sys'.registry)
    requires (sys'.registry.cancelled == p.registry.cancelled && sys'.registry.failClosedUntil == p.registry.failClosedUntil)
             || (sys'.registry.cancelled == unpruned.registry.cancelled && sys'.registry.failClosedUntil == unpruned.registry.failClosedUntil)
    ensures Inv(sys', l)
  {
    forall k | k in sys'.ideal ensures Kept(sys'.registry, k, sys'.ideal[k], sys'.clock) {
      assert Kept(p.registry, k, p.ideal[k], p.clock);
      assert Kept(unpruned.registry, k, unpruned.ideal[k], unpruned.clock);
    }
  }

  lemma {:induction false} RunKeepsInv(actions: seq<Action>, l: Limits)
    requires ValidLimits(l) && Monotone(actions, l)
    ensures Inv(Run(actions, l), l)
  {
    if actions != [] {
      RunKeepsInv(actions[..|actions| - 1], l);
      StepKeepsInv(Run(actions[..|actions| - 1], l), actions[|actions| - 1], l);
    }
  }

  // ---- no cancellation is lost ----

  /**
   * In every run a request whose key an unbounded registry would still remember as cancelled opens already aborted.
   * It opens aborted otherwise only if the request itself was aborted or the registry is failing closed.
   */
  lemma OpensAbortedExactlyIf(actions: seq<Action>, key: Key, requestAborted: bool, now: nat, l: Limits)
    requires ValidLimits(l) && Monotone(actions, l) && now >= Run(actions, l).clock && key !in Run(actions, l).registry.active
    ensures var sys := Run(actions, l);
            var next := Opened(sys.registry, Some(key), requestAborted, now);
            && next.active[key] == sys.registry.controllers
            && (sys.registry.controllers in next.aborted
                <==> requestAborted || (key in sys.ideal && sys.ideal[key] > now) || now < sys.registry.failClosedUntil)
  {
    RunKeepsInv(actions, l);
    var sys := Run(actions, l);
    if key in sys.ideal {
      assert Kept(sys.registry, key, sys.ideal[key], sys.clock);
    }
  }

  lemma TombstonesAreBounded(actions: seq<Action>, l: Limits)
    requires ValidLimits(l) && Monotone(actions, l)
    ensures |Run(actions, l).registry.cancelled| <= l.maximum
    ensures Run(actions, l).registry.failClosedUntil <= Run(actions, l).clock + l.ttl
  {
    RunKeepsInv(actions, l);
  }

  predicate OpensKey(a: Action, key: Key) {
    a.Open? && a.key == Some(key)
  }

  /** Cancelled while not active, a key stays remembered until it is opened or cancelled again. */
  lemma {:induction false} CancellationIsRemembered(before: seq<Action>, key: Key, now: nat, after: seq<Action>, l: Limits)
    requires key !in Run(before, l).registry.active
    requires forall i :: 0 <= i < |after| ==> !OpensKey(after[i], key)
    requires Monotone(before + [Cancel(Some(key), now)] + after, l)
    ensures var sys := Run(before + [Cancel(Some(key), now)] + after, l);
            Remembers(sys, key, now, l)
  {
    var all := before + [Cancel(Some(key), now)] + after;
    if after == [] {
      assert all[..|all| - 1] == before;
    } else {
      hide Step;
      var front, a := after[..|after| - 1], after[|after| - 1];
      assert all[..|all| - 1] == before + [Cancel(Some(key), now)] + front;
      CancellationIsRemembered(before, key, now, front, l);
      assert all[|all| - 1] == a && !OpensKey(a, key);
      StepRemembers(Run(all[..|all| - 1], l), a, key, now, l);
    }
  }

  ghost predicate Remembers(sys: System, key: Key, since: nat, l: Limits) {
    key !in sys.registry.active && key in sys.ideal && sys.ideal[key] >= since + l.ttl && sys.clock >= since
  }

  lemma StepRemembers(sys: System, a: Action, key: Key, since: nat, l: Limits)
    requires Remembers(sys, key, since, l) && !OpensKey(a, key) && TimeOf(a, sys.clock) >= sys.clock
    ensures Remembers(Step(sys, a, l), key, since, l)
  {
  }

  /**
   * A key cancelled while not active and first opened within the time to live opens already aborted, whatever happens
   * in between, even when the tombstones overflow.
   */
  lemma NoCancellationIsLost(before: seq<Action>, key: Key, now: nat, after: seq<Action>, openedAt: nat, l: Limits)
    requires ValidLimits(l) && key !in Run(before, l).registry.active
    requires forall i :: 0 <= i < |after| ==> !OpensKey(after[i], key)
    requires Monotone(before + [Cancel(Some(key), now)] + after, l)
    requires Run(before + [Cancel(Some(key), now)] + after, l).clock <= openedAt < now + l.ttl
    ensures var r := Run(before + [Cancel(Some(key), now)] + after, l).registry;
            var next := Opened(r, Some(key), false, openedAt);
            key in next.active && next.active[key] in next.aborted
  {
    CancellationIsRemembered(before, key, now, after, l);
    OpensAbortedExactlyIf(before + [Cancel(Some(key), now)] + after, key, false, openedAt, l);
  }

  // ---- when the registry fails closed ----

  /** The action cancels a key that is neither open nor remembered, while as many others as may be are. */
  ghost predicate Overflows(r: Registry, a: Action, l: Limits) {
    && a.Cancel? && a.key.Some? && a.key.value !in r.active
    && !(a.key.value in r.cancelled && r.cancelled[a.key.value] > a.now)
    && |set k | k in r.cancelled && r.cancelled[k] > a.now| >= l.maximum
  }

  /**
   * In every run the registry fails closed only on account of a cancellation for which there was no room, and no longer
   * than that one would have been remembered.
   */
  lemma {:induction false} FailsClosedOnlyWhenFull(actions: seq<Action>, l: Limits) returns (i: nat)
    requires Run(actions, l).registry.failClosedUntil > 0
    ensures i < |actions| && Overflows(Run(actions[..i], l).registry, actions[i], l)
    ensures Run(actions, l).registry.failClosedUntil == actions[i].now + l.ttl
  {
    var front, last := actions[..|actions| - 1], actions[|actions| - 1];
    FailClosedStep(Run(front, l), last, l);
    if Run(actions, l).registry.failClosedUntil == Run(front, l).registry.failClosedUntil {
      i := FailsClosedOnlyWhenFull(front, l);
      assert actions[..i] == front[..i];
    } else {
      i := |actions| - 1;
    }
  }

  lemma FailClosedStep(sys: System, a: Action, l: Limits)
    ensures var before, after := sys.registry.failClosedUntil, Step(sys, a, l).registry.failClosedUntil;
            after == before || after == 0 || (Overflows(sys.registry, a, l) && after == a.now + l.ttl)
  {
    if a.Cancel? {
      var p := Pruned(sys.registry, a.now);
      assert p.cancelled.Keys == set k | k in sys.registry.cancelled && sys.registry.cancelled[k] > a.now;
      assert |p.cancelled| == |p.cancelled.Keys|;
    }
  }

  // ---- what a cancellation aborts ----

  /** The tombstones and the fail-closed time of `r` are ones that `q` has too. */
  ghost predicate NoMoreTombstones(q: Registry, r: Registry) {
    && (forall k :: k in r.cancelled ==> k in q.cancelled && r.cancelled[k] == q.cancelled[k])
    && (r.failClosedUntil == q.failClosedUntil || r.failClosedUntil == 0)
  }

  /**
   * In every run cancelling the key of an open request aborts the controller of that request and no other; the request
   * stays registered until it is released, and nothing is remembered for later.
   */
  lemma CancelAbortsTheActive(actions: seq<Action>, key: Key, now: nat, l: Limits)
    requires key in Run(actions, l).registry.active
    ensures var r, next := Run(actions, l).registry, Run(actions + [Cancel(Some(key), now)], l).registry;
            && next.aborted == r.aborted + {r.active[key]}
            && next.active == r.active && next.controllers == r.controllers
            && NoMoreTombstones(r, next)
  {
    assert (actions + [Cancel(Some(key), now)])[..|actions|] == actions;
  }

  /** Cancelling a key that is not open aborts nothing yet. */
  lemma EarlyCancelAbortsNothing(actions: seq<Action>, key: Option<Key>, now: nat, l: Limits)
    requires key.Some? ==> key.value !in Run(actions, l).registry.active
    ensures var r, next := Run(actions, l).registry, Run(actions + [Cancel(key, now)], l).registry;
            next.aborted == r.aborted && next.active == r.active && next.controllers == r.controllers
  {
    assert (actions + [Cancel(key, now)])[..|actions|] == actions;
  }

  /** The action aborts controller `c` of `r`, or opens it aborted. */
  predicate Aborts(r: Registry, a: Action, c: nat) {
    match a
    case Cancel(key, _) => key.Some? && key.value in r.active && r.active[key.value] == c
    case Open(key, requestAborted, now) =>
      && c == r.controllers
      && (key.Some? ==> key.value !in r.active)
      && (requestAborted
          || (key.Some? && ((key.value in r.cancelled && now < r.cancelled[key.value]) || now < r.failClosedUntil)))
    case Release(_, _) => false
    case Abort(controller) => controller == c && c < r.controllers
  }

  ghost predicate AbortedAt(actions: seq<Action>, i: nat, c: nat, l: Limits)
    requires i < |actions|
  {
    Aborts(Run(actions[..i], l).registry, actions[i], c)
  }

  /**
   * The whole story of an abort: in every run a controller is aborted exactly if its key was cancelled while it was the
   * active one, its own lease or request aborted it, or it was opened aborted; and nothing undoes that.
   */
  lemma {:induction false} AbortedIff(actions: seq<Action>, c: nat, l: Limits)
    ensures c in Run(actions, l).registry.aborted <==> exists i: nat :: i < |actions| && AbortedAt(actions, i, c, l)
  {
    if actions != [] {
      var front, n := actions[..|actions| - 1], |actions| - 1;
      AbortedIff(front, c, l);
      forall i: nat | i < n ensures AbortedAt(actions, i, c, l) == AbortedAt(front, i, c, l) {
        assert actions[..i] == front[..i];
      }
      AbortsNow(Run(front, l), actions[n], c, l);
      hide Aborts, Step;
      assert AbortedAt(actions, n, c, l) == Aborts(Run(front, l).registry, actions[n], c);
      hide AbortedAt;
      if c in Run(front, l).registry.aborted {
        var i: nat :| i < n && AbortedAt(front, i, c, l);
        assert AbortedAt(actions, i, c, l);
      }
    }
  }

  lemma AbortsNow(sys: System, a: Action, c: nat, l: Limits)
    ensures c in Step(sys, a, l).registry.aborted <==> c in sys.registry.aborted || Aborts(sys.registry, a, c)
  {
  }

  lemma AbortedStays(actions: seq<Action>, later: seq<Action>, c: nat, l: Limits)
    requires c in Run(actions, l).registry.aborted
    ensures c in Run(actions + later, l).registry.aborted
  {
    AbortedIff(actions, c, l);
    AbortedIff(actions + later, c, l);
    var i: nat :| i < |actions| && AbortedAt(actions, i, c, l);
    assert (actions + later)[..i] == actions[..i];
    assert AbortedAt(actions + later, i, c, l);
  }

  /** The action registers controller `c` under the key. */
  predicate Opens(r: Registry, a: Action, key: Key, c: nat) {
    a.Open? && a.key == Some(key) && key !in r.active && c == r.controllers
  }

  ghost predicate OpenedAt(actions: seq<Action>, i: nat, key: Key, c: nat, l: Limits)
    requires i < |actions|
  {
    Opens(Run(actions[..i], l).registry, actions[i], key, c)
  }

  predicate Holds(r: Registry, key: Key, c: nat) {
    key in r.active && r.active[key] == c
  }

  /**
   * A key stands for a controller exactly from the open that made it until its own lease is released: a release by an
   * earlier lease of the same key, a cancellation or an abort does not take it off.
   */
  lemma {:induction false} ActiveIff(actions: seq<Action>, key: Key, c: nat, l: Limits)
    ensures Holds(Run(actions, l).registry, key, c)
            <==> exists i: nat :: i < |actions| && OpenedAt(actions, i, key, c, l) && Release(Some(key), c) !in actions[i..]
  {
    if actions != [] {
      var front, n := actions[..|actions| - 1], |actions| - 1;
      ActiveIff(front, key, c, l);
      forall i: nat | i < n ensures OpenedAt(actions, i, key, c, l) == OpenedAt(front, i, key, c, l) {
        assert actions[..i] == front[..i];
      }
      forall i: nat | i < n
        ensures Release(Some(key), c) in actions[i..] <==> Release(Some(key), c) in front[i..] || actions[n] == Release(Some(key), c)
      {
        assert actions[i..] == front[i..] + [actions[n]];
      }
      assert actions[n..] == [actions[n]];
      ActiveNow(Run(front, l), actions[n], key, c, l);
      hide Opens, Step, Holds;
      assert OpenedAt(actions, n, key, c, l) == Opens(Run(front, l).registry, actions[n], key, c);
      hide OpenedAt;
      if Holds(Run(front, l).registry, key, c) && actions[n] != Release(Some(key), c) {
        var i: nat :| i < n && OpenedAt(front, i, key, c, l) && Release(Some(key), c) !in front[i..];
        assert OpenedAt(actions, i, key, c, l) && Release(Some(key), c) !in actions[i..];
      }
      if OpenedAt(actions, n, key, c, l) {
        assert Release(Some(key), c) !in actions[n..] by { OpensDoNotRelease(actions, n, key, c, l); }
      }
    }
  }

  lemma OpensDoNotRelease(actions: seq<Action>, i: nat, key: Key, c: nat, l: Limits)
    requires i < |actions| && OpenedAt(actions, i, key, c, l)
    ensures actions[i].Open?
  {
  }

  lemma ActiveNow(sys: System, a: Action, key: Key, c: nat, l: Limits)
    ensures Holds(Step(sys, a, l).registry, key, c)
            <==> (Holds(sys.registry, key, c) && a != Release(Some(key), c)) || Opens(sys.registry, a, key, c)
  {
  }

  // ---- the registry as it runs ----

  class McpRequestCancellationRegistry {
    const limits: Limits
    var active: map<Key, nat>
    var cancelledBeforeOpen: map<Key, nat>
    var failClosedUntil: nat
    var aborted: set<nat>
    var controllers: nat

    ghost function State(): Registry
      reads this
    {
      Registry(active, cancelledBeforeOpen, failClosedUntil, aborted, controllers)
    }

    constructor (limits: Limits)
      ensures State() == EMPTY && this.limits == limits
    {
      this.limits := limits;
      active, cancelledBeforeOpen, failClosedUntil, aborted, controllers := map[], map[], 0, {}, 0;
    }

    method Prune(now: nat)
      modifies this`cancelledBeforeOpen, this`failClosedUntil
      ensures State() == Pruned(old(State()), now)
    {
      var keys := cancelledBeforeOpen.Keys;
      var expired: set<Key> := {};
      var todo := keys;
      while todo != {}
        invariant todo <= keys == old(cancelledBeforeOpen).Keys && failClosedUntil == old(failClosedUntil)
        invariant cancelledBeforeOpen
                  == map k | k in old(cancelledBeforeOpen) && (k in todo || old(cancelledBeforeOpen)[k] > now) :: old(cancelledBeforeOpen)[k]
        decreases |todo|
      {
        var key :| key in todo;
        if cancelledBeforeOpen[key] <= now {
          cancelledBeforeOpen := cancelledBeforeOpen - {key};
        }
        todo := todo - {key};
      }
      if failClosedUntil <= now {
        failClosedUntil := 0;
      }
    }

    method Cancel(requestKey: Option<Key>, now: nat) returns (known: bool)
      modifies this
      ensures State() == Cancelled(old(State()), requestKey, now, limits)
      ensures known == requestKey.Some?
      ensures requestKey.Some? && requestKey.value in old(active) ==> active == old(active) && aborted == old(aborted) + {active[requestKey.value]}
    {
      if requestKey.None? {
        return false;
      }
      var key := requestKey.value;
      Prune(now);
      if key in active {
        aborted := aborted + {active[key]};
        return true;
      }
      var expiresAt := now + limits.ttl;
      if key in cancelledBeforeOpen || |cancelledBeforeOpen| < limits.maximum {
        cancelledBeforeOpen := cancelledBeforeOpen[key := expiresAt];
      } else {
        failClosedUntil := Max(failClosedUntil, expiresAt);
      }
      return true;
    }

    /** None where the source throws. */
    method Open(requestKey: Option<Key>, requestAborted: bool, now: nat) returns (controller: Option<nat>)
      modifies this
      ensures State() == Opened(old(State()), requestKey, requestAborted, now)
      ensures controller == if Duplicate(old(State()), requestKey) then None else Some(old(controllers))
    {
      Prune(now);
      if requestKey.Some? && requestKey.value in active {
        return None;
      }
      var created := controllers;
      controllers := controllers + 1;
      if requestAborted {
        aborted := aborted + {created};
      }
      if requestKey.Some? {
        var cancelled := requestKey.value in cancelledBeforeOpen;
        cancelledBeforeOpen := cancelledBeforeOpen - {requestKey.value};
        if (cancelled || now < failClosedUntil) && !requestAborted {
          aborted := aborted + {created};
        }
        active := active[requestKey.value := created];
      }
      return Some(created);
    }

    method Release(requestKey: Option<Key>, controller: nat)
      modifies this`active
      ensures State() == Released(old(State()), requestKey, controller)
    {
      if requestKey.Some? && requestKey.value in active && active[requestKey.value] == controller {
        active := active - {requestKey.value};
      }
    }
  }
}
