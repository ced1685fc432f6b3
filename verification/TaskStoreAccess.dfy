/** Who may read and change a task, and what exactly each operation answers in a reachable state of the task store. */
module TaskStoreAccess {
  import opened Records
  import opened Utf8
  import opened TaskResultCodec
  import opened TaskStore
  import opened TaskStoreRuns
  import opened Authorities
  import opened Lists

  /** The task is unexpired, has this id, and was created under exactly this authority. */
  predicate Accessible(t: Task, id: string, owner: Owner, now: Time) {
    && t.id == id && now < t.expiresAt
    && t.owner.account == owner.account && t.owner.version == owner.version && t.owner.client == owner.client
    && t.owner.family == owner.family && t.owner.role == owner.role
  }

  ghost predicate NoneAccessible(tasks: seq<Task>, id: string, owner: Owner, now: Time) {
    forall t :: t in tasks ==> !Accessible(t, id, owner, now)
  }

  /** What is left after pruning: the unexpired tasks, all of them. */
  ghost predicate Unexpired(tasks: seq<Task>, tasks': seq<Task>, now: Time) {
    forall t :: t in tasks' <==> t in tasks && now < t.expiresAt
  }

  lemma PruningKeepsUnexpired(s: Store, now: Time)
    ensures Unexpired(s.tasks, Pruned(s, now).tasks, now)
  {
    FilterMembers(s.tasks, Live(now));
  }

  lemma FindsAccessible(s: Store, id: string, owner: Owner, now: Time)
    ensures var tasks, i := Pruned(s, now).tasks, Find(Pruned(s, now).tasks, Mine(id, owner));
            if i < |tasks| then tasks[i] in s.tasks && Accessible(tasks[i], id, owner, now) else NoneAccessible(s.tasks, id, owner, now)
  {
    PruningKeepsUnexpired(s, now);
    var tasks := Pruned(s, now).tasks;
    var i := Find(tasks, Mine(id, owner));
    if i == |tasks| {
      forall t | t in s.tasks ensures !Accessible(t, id, owner, now) {
        if t in tasks {
          var j :| 0 <= j < |tasks| && tasks[j] == t;
          assert !Mine(id, owner)(tasks[j]);
        }
      }
    } else {
      assert tasks[i] in tasks;
    }
  }

  /** Ids are distinct, so nobody else's task answers to this id. */
  lemma OnlyAccessible(tasks: seq<Task>, t: Task, u: Task, id: string, owner: Owner, now: Time)
    requires DistinctIds(tasks) && t in tasks && u in tasks && Accessible(t, id, owner, now) && u.id == id
    ensures u == t
  {
  }

  // ---- reading ----

  /** Get answers with a task exactly when the caller owns it and it has not expired. */
  lemma GetAnswers(sys: System, id: string, owner: Owner, now: Time, sha: seq<byte> -> nat)
    requires Holding(sys, sha)
    ensures var reply := Get(sys.store, id, owner, now).reply;
            && reply != Threw
            && (forall t :: reply == Got(t) <==> t in sys.store.tasks && Accessible(t, id, owner, now))
    ensures Unexpired(sys.store.tasks, Get(sys.store, id, owner, now).store.tasks, now)
  {
    var s := sys.store;
    FindsAccessible(s, id, owner, now);
    PruningKeepsUnexpired(s, now);
    var p := Pruned(s, now);
    var i := Find(p.tasks, Mine(id, owner));
    forall t ensures Get(s, id, owner, now).reply == Got(t) <==> t in s.tasks && Accessible(t, id, owner, now) {
      if i < |p.tasks| && t in s.tasks && Accessible(t, id, owner, now) {
        OnlyAccessible(s.tasks, p.tasks[i], t, id, owner, now);
      }
    }
  }

  /**
   * GetResult answers with bytes exactly when the caller owns an unexpired task of that id with a stored result, and they
   * are that result; to anyone else the task does not exist.
   */
  lemma ResultAnswers(sys: System, id: string, owner: Owner, now: Time, sha: seq<byte> -> nat)
    requires Holding(sys, sha)
    ensures var reply := GetResult(sys.store, id, owner, now, sha).reply;
            && reply != Threw
            && (forall b :: reply == Got(b) <==>
                  (exists t :: t in sys.store.tasks && Accessible(t, id, owner, now) && t.chunkCount > 0)
                  && id in sys.results && b == sys.results[id])
    ensures Unexpired(sys.store.tasks, GetResult(sys.store, id, owner, now, sha).store.tasks, now)
  {
    var s := sys.store;
    FindsAccessible(s, id, owner, now);
    PruningKeepsUnexpired(s, now);
    var p := Pruned(s, now);
    var i := Find(p.tasks, Mine(id, owner));
    if i < |p.tasks| {
      var t := p.tasks[i];
      if t.chunkCount > 0 {
        ResultIsReadBack(sys, t, now, sha);
      } else {
        forall u | u in s.tasks && Accessible(u, id, owner, now) ensures u.chunkCount == 0 {
          OnlyAccessible(s.tasks, t, u, id, owner, now);
        }
      }
    }
  }

  // ---- creating ----

  /** A new task runs for a day and reserves the largest result. */
  function Fresh(id: string, owner: Owner, now: Time): Task {
    Task(id, Working, "Accepted for execution.", now, now, now + 86_400_000, 0, 0, None, 8_388_608, owner)
  }

  /** Fewer than 128 unexpired tasks, and 8 MiB of the 32 neither stored nor reserved. */
  ghost predicate RoomForTask(s: Store, now: Time) {
    |Pruned(s, now).tasks| < 128 && Retained(Pruned(s, now).tasks) <= 3 * 8_388_608
  }

  /**
   * Creating answers with the caller's own unexpired task of that id, or with a new one where nobody has one and there is
   * room; otherwise with nothing, which is also all that the owner of no such task learns of another's.
   */
  lemma CreateAnswers(sys: System, id: string, owner: Owner, now: Time, sha: seq<byte> -> nat)
    requires Holding(sys, sha)
    ensures var s, d := sys.store, Create(sys.store, id, owner, now);
            var taken := exists t :: t in s.tasks && t.id == id && now < t.expiresAt;
            var created := IsTaskJobId(id) && !taken && RoomForTask(s, now);
            && d.reply != Threw
            && (forall t :: d.reply == Got(t) <==>
                  (IsTaskJobId(id) && t in s.tasks && Accessible(t, id, owner, now)) || (created && t == Fresh(id, owner, now)))
            && (if created then d.store.tasks == Pruned(s, now).tasks + [Fresh(id, owner, now)] && d.store.chunks == Pruned(s, now).chunks
                else d.store == if IsTaskJobId(id) then Pruned(s, now) else s)
  {
    var s, d := sys.store, Create(sys.store, id, owner, now);
    PruningKeepsUnexpired(s, now);
    var p := Pruned(s, now);
    var i := Find(p.tasks, Named(id));
    if i < |p.tasks| {
      assert p.tasks[i] in p.tasks;
      forall t | t in s.tasks && t.id == id ensures t == p.tasks[i] {
        SameId(s.tasks, t, p.tasks[i]);
      }
    } else {
      forall t | t in s.tasks && now < t.expiresAt ensures t.id != id {
        var j :| 0 <= j < |p.tasks| && p.tasks[j] == t;
        assert !Named(id)(p.tasks[j]);
      }
    }
  }

  // ---- updating ----

  /** What the caller's task `t` becomes; a task that is still active, or completed without its result, has nothing stored. */
  function Next(t: Task, status: Status, message: string, result: Result, now: Time, sha: seq<byte> -> nat): Task {
    var text := if |message| <= 512 then message else message[..512];
    if !t.status.Working? && !t.status.InputRequired? && !(t.status.Completed? && t.chunkCount == 0 && status.Failed?) then t
    else if t.status == status && t.message == text then t
    else if status.Working? || status.InputRequired? then
      Task(t.id, status, text, t.createdAt, now, t.expiresAt, 0, 0, None, 8_388_608, t.owner)
    else if status.Completed? && result.Encoded? && |result.bytes| <= 8_388_608 then
      Task(t.id, status, text, t.createdAt, now, t.expiresAt, ChunkCount(|result.bytes|), |result.bytes|, Some(sha(result.bytes)), 0, t.owner)
    else
      Task(t.id, status, text, t.createdAt, now, t.expiresAt, 0, 0, None, 0, t.owner)
  }

  lemma NextIsUpdated(s: Store, i: nat, status: Status, message: string, result: Result, now: Time,
                      results: map<string, seq<byte>>, sha: seq<byte> -> nat)
    requires Inv(s, results, sha) && i < |s.tasks| && !Frozen(s.tasks[i], status)
    requires s.tasks[i].status != status || s.tasks[i].message != Slice(message, MAX_MESSAGE)
    ensures Updated(s.tasks, s.tasks[i], status, message, result, now, sha) == Next(s.tasks[i], status, message, result, now, sha)
  {
    assert ValidTask(s.tasks[i]);
    NotFrozenHasNoChunks(s, i, status, results, sha);
  }

  /** Of the tasks, the caller's own became `next`, and every other is there as it was. */
  ghost predicate OnlyOwnChanges(tasks: seq<Task>, tasks': seq<Task>, t: Task, next: Task) {
    && next in tasks' && next.id == t.id && next.owner == t.owner
    && (forall u :: u in tasks && u != t ==> u in tasks')
    && (forall u :: u in tasks' ==> u == next || u in tasks)
  }

  /**
   * An update finds the caller's own task or nothing; it changes that task alone, to exactly what the table says, and
   * writes no chunk but that task's.
   */
  lemma UpdateAnswers(sys: System, a: Action, sha: seq<byte> -> nat)
    requires Holding(sys, sha) && a.Update? && Enabled(a)
    ensures var s, p, d := sys.store, Pruned(sys.store, a.now),
                           UpdateStatus(sys.store, a.id, a.owner, a.status, a.message, a.result, a.now, sha);
            && d.reply != Threw
            && (d.reply == Nothing <==> NoneAccessible(s.tasks, a.id, a.owner, a.now))
            && (d.reply == Nothing ==> d.store == p)
            && forall t :: t in s.tasks && Accessible(t, a.id, a.owner, a.now) ==>
                 var next := Next(t, a.status, a.message, a.result, a.now, sha);
                 && d.reply == Got(next)
                 && OnlyOwnChanges(p.tasks, d.store.tasks, t, next)
                 && (forall k :: k in p.chunks && !Owned([next], k) ==> k in d.store.chunks && d.store.chunks[k] == p.chunks[k])
                 && (forall k :: k in d.store.chunks ==> k in p.chunks || Owned([next], k))
  {
    var s, p := sys.store, Pruned(sys.store, a.now);
    FindsAccessible(s, a.id, a.owner, a.now);
    PruningKeepsUnexpired(s, a.now);
    RemovedKeepsInv(s, Live(a.now), sys.results, sha);
    var i := Find(p.tasks, Mine(a.id, a.owner));
    var d := UpdateStatus(s, a.id, a.owner, a.status, a.message, a.result, a.now, sha);
    if i < |p.tasks| {
      var t := p.tasks[i];
      var next := Next(t, a.status, a.message, a.result, a.now, sha);
      UpdateOfOwn(sys, a, i, sha);
      forall u | u in s.tasks && Accessible(u, a.id, a.owner, a.now) ensures u == t {
        OnlyAccessible(s.tasks, t, u, a.id, a.owner, a.now);
      }
    }
  }

  lemma UpdateOfOwn(sys: System, a: Action, i: nat, sha: seq<byte> -> nat)
    requires Holding(sys, sha) && a.Update? && Enabled(a) && Inv(Pruned(sys.store, a.now), sys.results, sha)
    requires i == Find(Pruned(sys.store, a.now).tasks, Mine(a.id, a.owner)) < |Pruned(sys.store, a.now).tasks|
    ensures var p, d := Pruned(sys.store, a.now), UpdateStatus(sys.store, a.id, a.owner, a.status, a.message, a.result, a.now, sha);
            var next := Next(p.tasks[i], a.status, a.message, a.result, a.now, sha);
            && d.reply == Got(next)
            && OnlyOwnChanges(p.tasks, d.store.tasks, p.tasks[i], next)
            && (forall k :: k in p.chunks && !Owned([next], k) ==> k in d.store.chunks && d.store.chunks[k] == p.chunks[k])
            && (forall k :: k in d.store.chunks ==> k in p.chunks || Owned([next], k))
  {
    var p, d := Pruned(sys.store, a.now), UpdateStatus(sys.store, a.id, a.owner, a.status, a.message, a.result, a.now, sha);
    var t, next := p.tasks[i], Next(p.tasks[i], a.status, a.message, a.result, a.now, sha);
    if !Frozen(t, a.status) && !(t.status == a.status && t.message == Slice(a.message, MAX_MESSAGE)) {
      NextIsUpdated(p, i, a.status, a.message, a.result, a.now, sys.results, sha);
      ReplacedOne(p.tasks, i, next);
      hide Owned, OnlyOwnChanges, Updated;
      if Stores(p.tasks, t, a.status, a.result) {
        assert ValidTask(t);
        ChunksOfOne(p.chunks, next, a.result.bytes);
      }
    }
  }

  lemma ChunksOfOne(chunks: map<string, string>, t: Task, b: seq<byte>)
    requires IsTaskJobId(t.id)
    ensures var chunks' := WithChunks(chunks, t.id, b, t.chunkCount);
            && (forall k :: k in chunks && !Owned([t], k) ==> k in chunks' && chunks'[k] == chunks[k])
            && (forall k :: k in chunks' ==> k in chunks || Owned([t], k))
  {
    var chunks' := WithChunks(chunks, t.id, b, t.chunkCount);
    forall k ensures k in chunks && !Owned([t], k) ==> k in chunks' && chunks'[k] == chunks[k]
             ensures k in chunks' ==> k in chunks || Owned([t], k)
    {
      KeyWrittenOrOld(chunks, t.id, b, t.chunkCount, k);
      if m: nat :| m < t.chunkCount && k == ResultChunkKey(t.id, m) {
        OwnedBy([t], t, m);
      }
    }
  }

  lemma ReplacedOne(tasks: seq<Task>, i: nat, next: Task)
    requires DistinctIds(tasks) && i < |tasks| && next.id == tasks[i].id && next.owner == tasks[i].owner
    ensures OnlyOwnChanges(tasks, tasks[i := next], tasks[i], next)
  {
    var tasks' := tasks[i := next];
    assert tasks'[i] == next;
    forall u | u in tasks && u != tasks[i] ensures u in tasks' {
      var j :| 0 <= j < |tasks| && tasks[j] == u;
      assert tasks'[j] == u;
    }
    forall u | u in tasks' ensures u == next || u in tasks {
      var j :| 0 <= j < |tasks'| && tasks'[j] == u;
    }
  }

  // ---- revoking ----

  /** The revoked authority is the owner's: its account version, and its client and family where they are named. */
  predicate Revokes(r: Scope, o: Owner) {
    && o.account == r.account && o.version == r.version
    && (r.client == None || r.client == Some(o.client))
    && (r.family == None || r.family == Some(o.family))
  }

  lemma {:induction false} FilterParts(tasks: seq<Task>, keep: Task -> bool)
    ensures |Filter(tasks, keep)| + |Filter(tasks, Not(keep))| == |tasks|
  {
    if tasks != [] {
      FilterParts(tasks[1..], keep);
    }
  }

  lemma DistinctTasks(tasks: seq<Task>)
    requires DistinctIds(tasks)
    ensures |Members(tasks)| == |tasks|
  {
    assert Distinct(tasks);
    DistinctSize(tasks);
  }

  lemma OutOfReachMeans(r: Scope, t: Task)
    ensures OutOfReach(r)(t) <==> !Revokes(r, t.owner)
  {
  }

  lemma RevokedTasks(tasks: seq<Task>, r: Scope)
    requires DistinctIds(tasks)
    ensures forall t :: t in Filter(tasks, OutOfReach(r)) <==> t in tasks && !Revokes(r, t.owner)
    ensures |tasks| - |Filter(tasks, OutOfReach(r))| == |set t | t in tasks && Revokes(r, t.owner)|
    ensures forall t :: t in tasks && Revokes(r, t.owner) ==> t in Filter(tasks, Not(OutOfReach(r)))
  {
    var gone := Filter(tasks, Not(OutOfReach(r)));
    FilterIsPart(tasks, OutOfReach(r));
    FilterIsPart(tasks, Not(OutOfReach(r)));
    hide Revokes, OutOfReach;
    forall t: Task ensures OutOfReach(r)(t) <==> !Revokes(r, t.owner) {
      OutOfReachMeans(r, t);
    }
    assert (set t | t in tasks && Revokes(r, t.owner)) == Members(gone);
    FilterParts(tasks, OutOfReach(r));
    DistinctTasks(gone);
  }

  /**
   * Revoking an authority removes exactly the tasks it covers, and says how many those were; what is left of them in
   * storage is nothing.
   */
  lemma CancelAnswers(sys: System, r: Scope, sha: seq<byte> -> nat)
    requires Holding(sys, sha)
    ensures var s, d := sys.store, CancelAuthority(sys.store, r);
            && (forall t :: t in d.store.tasks <==> t in s.tasks && !Revokes(r, t.owner))
            && d.reply == Got(|set t | t in s.tasks && Revokes(r, t.owner)|)
            && (forall t, i: nat :: t in s.tasks && Revokes(r, t.owner) && i < t.chunkCount ==> ResultChunkKey(t.id, i) !in d.store.chunks)
  {
    var s := sys.store;
    RevokedTasks(s.tasks, r);
    hide Revokes, OutOfReach, TasksOk, NoStrays, ValidTask, Retained;
    forall t, i: nat | t in s.tasks && Revokes(r, t.owner) && i < t.chunkCount
      ensures ResultChunkKey(t.id, i) !in CancelAuthority(s, r).store.chunks
    {
      OwnedBy(Filter(s.tasks, Not(OutOfReach(r))), t, i);
    }
  }

  // ---- strangers ----

  /** In every run, whoever does not own the task of that id neither reads it nor its result, nor changes it. */
  lemma StrangersGetNothing(actions: seq<Action>, a: Action, sha: seq<byte> -> nat)
    requires AllEnabled(actions) && a.Update? && Enabled(a)
    requires forall t :: t in Run(GENESIS, actions, sha).store.tasks && t.id == a.id ==> t.owner != a.owner
    ensures var s := Run(GENESIS, actions, sha).store;
            && Get(s, a.id, a.owner, a.now).reply == Nothing
            && GetResult(s, a.id, a.owner, a.now, sha).reply == Nothing
            && UpdateStatus(s, a.id, a.owner, a.status, a.message, a.result, a.now, sha).reply == Nothing
            && Unexpired(s.tasks, UpdateStatus(s, a.id, a.owner, a.status, a.message, a.result, a.now, sha).store.tasks, a.now)
  {
    hide Get, GetResult, UpdateStatus;
    var sys := Run(GENESIS, actions, sha);
    RunKeepsInv(GENESIS, actions, sha);
    hide Holding;
    GetAnswers(sys, a.id, a.owner, a.now, sha);
    ResultAnswers(sys, a.id, a.owner, a.now, sha);
    UpdateAnswers(sys, a, sha);
    PruningKeepsUnexpired(sys.store, a.now);
    assert forall t :: t in sys.store.tasks ==> !Accessible(t, a.id, a.owner, a.now);
  }

  // ---- invalid storage ----

  /** Whatever was stored, an operation that reads it throws, and leaves it, unless it is a state that an operation could have written. */
  lemma InvalidStateIsRefused(s: Store, a: Action, r: Scope, sha: seq<byte> -> nat)
    requires a.Update? && IsTaskJobId(a.id)
    requires || |s.tasks| > 128
             || Retained(s.tasks) > 32 * 1024 * 1024
             || (exists i, j :: 0 <= i < j < |s.tasks| && s.tasks[i].id == s.tasks[j].id)
             || (exists i :: 0 <= i < |s.tasks| && !(IsTaskJobId(s.tasks[i].id) && s.tasks[i].bytes <= 8 * 1024 * 1024 && s.tasks[i].expiresAt > 0))
    ensures Create(s, a.id, a.owner, a.now) == Done(s, Threw) && Get(s, a.id, a.owner, a.now) == Done(s, Threw)
    ensures GetResult(s, a.id, a.owner, a.now, sha) == Done(s, Threw) && CancelAuthority(s, r) == Done(s, Threw)
    ensures UpdateStatus(s, a.id, a.owner, a.status, a.message, a.result, a.now, sha) == Done(s, Threw)
  {
    hide Pruned, Removed;
    assert !ValidState(s.tasks);
  }
}
