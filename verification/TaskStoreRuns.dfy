/** What holds of the MCP task store in every run of its operations. */
module TaskStoreRuns {
  import opened Records
  import opened Utf8
  import opened Base64
  import opened TaskResultCodec
  import opened TaskStore
  import opened Authorities
  import opened Lists

  /** The store, and for each task the serialized result it was last completed with. */
  datatype System = System(store: Store, results: map<string, seq<byte>>)

  const GENESIS := System(Store([], map[]), map[])

  datatype Action =
    | CreateTask(id: string, owner: Owner, now: Time)
    | GetTask(id: string, owner: Owner, now: Time)
    | GetTaskResult(id: string, owner: Owner, now: Time)
    | Update(id: string, owner: Owner, status: Status, message: string, result: Result, now: Time)
    | Cancel(revocation: Scope)

  /** Authorities have a positive version, and JSON text is never empty. */
  predicate Enabled(a: Action) {
    match a
    case CreateTask(_, owner, _) => owner.version > 0
    case Update(_, _, _, _, result, _) => result.Encoded? ==> result.bytes != []
    case _ => true
  }

  /** Whether this update stores its result. */
  ghost predicate Recorded(s: Store, id: string, owner: Owner, status: Status, message: string, result: Result, now: Time) {
    var p := Pruned(s, now);
    var i := Find(p.tasks, Mine(id, owner));
    && ValidState(s.tasks) && i < |p.tasks| && !Frozen(p.tasks[i], status)
    && !(p.tasks[i].status == status && p.tasks[i].message == Slice(message, MAX_MESSAGE))
    && Stores(p.tasks, p.tasks[i], status, result)
  }

  ghost function Step(sys: System, a: Action, sha: seq<byte> -> nat): System {
    var s := sys.store;
    match a
    case CreateTask(id, owner, now) => sys.(store := Create(s, id, owner, now).store)
    case GetTask(id, owner, now) => sys.(store := Get(s, id, owner, now).store)
    case GetTaskResult(id, owner, now) => sys.(store := GetResult(s, id, owner, now, sha).store)
    case Update(id, owner, status, message, result, now) =>
      System(UpdateStatus(s, id, owner, status, message, result, now, sha).store,
             if Recorded(s, id, owner, status, message, result, now) then sys.results[id := result.bytes] else sys.results)
    case Cancel(r) => sys.(store := CancelAuthority(s, r).store)
  }

  ghost function Run(sys: System, actions: seq<Action>, sha: seq<byte> -> nat): System
    decreases |actions|
  {
    if actions == [] then sys else Run(Step(sys, actions[0], sha), actions[1..], sha)
  }

  predicate AllEnabled(actions: seq<Action>) {
    forall i :: 0 <= i < |actions| ==> Enabled(actions[i])
  }

  ghost predicate Holding(sys: System, sha: seq<byte> -> nat) {
    Inv(sys.store, sys.results, sha)
  }

  // ---- creating ----

  lemma {:induction false} RetainedAppend(a: seq<Task>, b: seq<Task>)
    ensures Retained(a + b) == Retained(a) + Retained(b)
  {
    if a == [] {
      assert a + b == b;
    } else {
      RetainedAppend(a[1..], b);
      assert (a + b)[1..] == a[1..] + b;
    }
  }

  lemma OwnedMore(tasks: seq<Task>, more: seq<Task>, key: string)
    requires Owned(tasks, key)
    ensures Owned(tasks + more, key)
  {
    var j: nat, i: nat :| j < |tasks| && i < tasks[j].chunkCount && key == ResultChunkKey(tasks[j].id, i);
    assert (tasks + more)[j] == tasks[j];
  }

  lemma AddTaskKeepsInv(s: Store, t: Task, results: map<string, seq<byte>>, sha: seq<byte> -> nat)
    requires Inv(s, results, sha) && ValidTask(t) && t.chunkCount == 0 && |s.tasks| < MAX_MCP_TASKS
    requires Retained(s.tasks) + t.bytes + t.reserved <= MAX_MCP_TASK_RESULT_BYTES_TOTAL
    requires forall i :: 0 <= i < |s.tasks| ==> s.tasks[i].id != t.id
    ensures Inv(s.(tasks := s.tasks + [t]), results, sha)
  {
    var s' := s.(tasks := s.tasks + [t]);
    RetainedAppend(s.tasks, [t]);
    forall i | 0 <= i < |s'.tasks| ensures TaskOk(s', s'.tasks[i], results, sha) {
      if i < |s.tasks| {
        assert TaskOk(s, s.tasks[i], results, sha);
      }
    }
    forall k | k in s'.chunks ensures Owned(s'.tasks, k) {
      OwnedMore(s.tasks, [t], k);
    }
  }

  lemma CreateKeepsInv(s: Store, id: string, owner: Owner, now: Time, results: map<string, seq<byte>>, sha: seq<byte> -> nat)
    requires Inv(s, results, sha) && owner.version > 0
    ensures Inv(Create(s, id, owner, now).store, results, sha)
  {
    RemovedKeepsInv(s, Live(now), results, sha);
    var p := Pruned(s, now);
    if Create(s, id, owner, now).store != s && Create(s, id, owner, now).store != p {
      AddTaskKeepsInv(p, NewTask(id, owner, now), results, sha);
    }
  }

  // ---- updating ----

  lemma {:induction false} ChunkWritten(chunks: map<string, string>, id: string, b: seq<byte>, n: nat, i: nat)
    requires IsTaskJobId(id) && i < n
    ensures var c, key := WithChunks(chunks, id, b, n), ResultChunkKey(id, i);
            key in c && c[key] == ToBase64(Chunk(b, i))
  {
    if i < n - 1 {
      ChunkWritten(chunks, id, b, n - 1, i);
      if ResultChunkKey(id, i) == ResultChunkKey(id, n - 1) {
        ResultChunkKeyInjective(id, i, id, n - 1);
      }
    }
  }

  lemma {:induction false} KeyWrittenOrOld(chunks: map<string, string>, id: string, b: seq<byte>, n: nat, k: string)
    requires IsTaskJobId(id)
    ensures var c := WithChunks(chunks, id, b, n);
            && (k in chunks ==> k in c)
            && (k in c ==> (exists i: nat :: i < n && k == ResultChunkKey(id, i)) || (k in chunks && c[k] == chunks[k]))
  {
    if n > 0 {
      KeyWrittenOrOld(chunks, id, b, n - 1, k);
    }
  }

  lemma WithChunksEffect(chunks: map<string, string>, id: string, b: seq<byte>, n: nat)
    requires IsTaskJobId(id)
    ensures var c := WithChunks(chunks, id, b, n);
            && (forall i: nat :: i < n ==> ResultChunkKey(id, i) in c && c[ResultChunkKey(id, i)] == ToBase64(Chunk(b, i)))
            && (forall k :: k in chunks ==> k in c)
            && (forall k :: k in c ==> (exists i: nat :: i < n && k == ResultChunkKey(id, i)) || (k in chunks && c[k] == chunks[k]))
  {
    var c := WithChunks(chunks, id, b, n);
    forall i: nat | i < n ensures ResultChunkKey(id, i) in c && c[ResultChunkKey(id, i)] == ToBase64(Chunk(b, i)) {
      ChunkWritten(chunks, id, b, n, i);
    }
    forall k ensures (k in chunks ==> k in c)
      && (k in c ==> (exists i: nat :: i < n && k == ResultChunkKey(id, i)) || (k in chunks && c[k] == chunks[k]))
    {
      KeyWrittenOrOld(chunks, id, b, n, k);
    }
  }

  lemma {:induction false} RetainedReplace(tasks: seq<Task>, i: nat, t: Task)
    requires i < |tasks|
    ensures Retained(tasks[i := t]) == Retained(tasks) - tasks[i].bytes - tasks[i].reserved + t.bytes + t.reserved
  {
    if i > 0 {
      RetainedReplace(tasks[1..], i - 1, t);
      assert tasks[i := t][1..] == tasks[1..][i - 1 := t];
    } else {
      assert tasks[i := t][1..] == tasks[1..];
    }
  }

  lemma ReplaceKeepsValid(tasks: seq<Task>, i: nat, t: Task)
    requires ValidState(tasks) && i < |tasks| && ValidTask(t) && t.id == tasks[i].id
    requires Retained(tasks) - tasks[i].bytes - tasks[i].reserved + t.bytes + t.reserved <= MAX_MCP_TASK_RESULT_BYTES_TOTAL
    ensures ValidState(tasks[i := t])
  {
    RetainedReplace(tasks, i, t);
  }

  lemma SomeChunk(bytes: nat)
    ensures bytes > 0 ==> ChunkCount(bytes) > 0
  {
  }

  /** What may still change has no stored result. */
  lemma NotFrozenHasNoChunks(s: Store, i: nat, status: Status, results: map<string, seq<byte>>, sha: seq<byte> -> nat)
    requires Inv(s, results, sha) && i < |s.tasks| && !Frozen(s.tasks[i], status)
    ensures s.tasks[i].chunkCount == 0 && s.tasks[i].bytes == 0
    ensures s.tasks[i].status == Completed ==> status == Failed
  {
    assert TaskOk(s, s.tasks[i], results, sha);
    assert ValidTask(s.tasks[i]);
    SomeChunk(s.tasks[i].bytes);
  }

  lemma UpdatedIsValid(tasks: seq<Task>, i: nat, status: Status, message: string, result: Result, now: Time, sha: seq<byte> -> nat)
    requires ValidState(tasks) && i < |tasks| && tasks[i].chunkCount == 0 && tasks[i].bytes == 0
    requires Active(tasks[i].status) || (tasks[i].status == Completed && status == Failed)
    requires result.Encoded? ==> result.bytes != []
    ensures var t := Updated(tasks, tasks[i], status, message, result, now, sha);
            ValidTask(t) && ValidState(tasks[i := t])
  {
    assert ValidTask(tasks[i]);
    var t := Updated(tasks, tasks[i], status, message, result, now, sha);
    RetainedReplace(tasks, i, t);
    assert Retained(tasks) >= tasks[i].bytes + tasks[i].reserved by {
      RetainedReplace(tasks, i, tasks[i].(bytes := 0, reserved := 0));
    }
    ReplaceKeepsValid(tasks, i, t);
  }

  /** Replacing a task without chunks by another without chunks. */
  lemma ReplaceKeepsInv(s: Store, i: nat, t: Task, results: map<string, seq<byte>>, sha: seq<byte> -> nat)
    requires Inv(s, results, sha) && i < |s.tasks| && s.tasks[i].chunkCount == 0 && t.chunkCount == 0 && t.id == s.tasks[i].id
    requires ValidState(s.tasks[i := t])
    ensures Inv(s.(tasks := s.tasks[i := t]), results, sha)
  {
    var s' := s.(tasks := s.tasks[i := t]);
    forall j | 0 <= j < |s'.tasks| ensures TaskOk(s', s'.tasks[j], results, sha) {
      if j != i {
        assert TaskOk(s, s.tasks[j], results, sha);
      }
    }
    forall k | k in s'.chunks ensures Owned(s'.tasks, k) {
      OwnedByOther(s.tasks, i, t, k);
    }
  }

  lemma OwnedByOther(tasks: seq<Task>, i: nat, t: Task, key: string)
    requires i < |tasks| && tasks[i].chunkCount == 0 && Owned(tasks, key)
    ensures Owned(tasks[i := t], key)
  {
    var j: nat, m: nat :| j < |tasks| && m < tasks[j].chunkCount && key == ResultChunkKey(tasks[j].id, m);
    assert tasks[i := t][j] == tasks[j];
  }

  /** Storing a result: its chunks are new keys, and every other task's chunks are as before. */
  lemma StoreKeepsInv(s: Store, i: nat, t: Task, b: seq<byte>, results: map<string, seq<byte>>, sha: seq<byte> -> nat)
    requires Inv(s, results, sha) && i < |s.tasks| && s.tasks[i].chunkCount == 0 && t.id == s.tasks[i].id
    requires ValidState(s.tasks[i := t]) && ValidTask(t)
    requires t.status == Completed && t.chunkCount == ChunkCount(|b|) && t.bytes == |b| && t.sha256 == Some(sha(b))
    ensures Inv(Store(s.tasks[i := t], WithChunks(s.chunks, t.id, b, t.chunkCount)), results[t.id := b], sha)
  {
    var s' := Store(s.tasks[i := t], WithChunks(s.chunks, t.id, b, t.chunkCount));
    WithChunksEffect(s.chunks, t.id, b, t.chunkCount);
    forall j | 0 <= j < |s'.tasks| ensures TaskOk(s', s'.tasks[j], results[t.id := b], sha) {
      if j == i {
        assert Holds(s'.chunks, t, b, sha);
      } else {
        OthersKeepChunks(s, i, j, t, b, results, sha);
      }
    }
    forall k | k in s'.chunks ensures Owned(s'.tasks, k) {
      if k in s.chunks {
        OwnedByOther(s.tasks, i, t, k);
      } else {
        var m: nat :| m < t.chunkCount && k == ResultChunkKey(t.id, m);
        assert s'.tasks[i] == t;
        OwnedBy(s'.tasks, t, m);
      }
    }
  }

  lemma OthersKeepChunks(s: Store, i: nat, j: nat, t: Task, b: seq<byte>, results: map<string, seq<byte>>, sha: seq<byte> -> nat)
    requires Inv(s, results, sha) && i < |s.tasks| && j < |s.tasks| && i != j && t.id == s.tasks[i].id && ValidTask(t)
    ensures TaskOk(Store(s.tasks[i := t], WithChunks(s.chunks, t.id, b, t.chunkCount)), s.tasks[j], results[t.id := b], sha)
  {
    var u := s.tasks[j];
    var c := WithChunks(s.chunks, t.id, b, t.chunkCount);
    assert TaskOk(s, u, results, sha);
    assert ValidTask(u) && u.id != t.id;
    WithChunksEffect(s.chunks, t.id, b, t.chunkCount);
    if u.chunkCount > 0 {
      forall m: nat | m < u.chunkCount
        ensures ResultChunkKey(u.id, m) in c && c[ResultChunkKey(u.id, m)] == ToBase64(Chunk(results[u.id], m))
      {
        forall n: nat | n < t.chunkCount ensures ResultChunkKey(u.id, m) != ResultChunkKey(t.id, n) {
          OtherKey(u.id, m, t.id, n);
        }
        assert ResultChunkKey(u.id, m) in s.chunks;
      }
      assert Holds(c, u, results[u.id], sha);
    }
  }

  lemma OtherKey(id: string, m: nat, id': string, n: nat)
    requires IsTaskJobId(id) && IsTaskJobId(id') && id != id'
    ensures ResultChunkKey(id, m) != ResultChunkKey(id', n)
  {
    if ResultChunkKey(id, m) == ResultChunkKey(id', n) {
      ResultChunkKeyInjective(id, m, id', n);
    }
  }

  lemma UpdateKeepsInv(sys: System, a: Action, sha: seq<byte> -> nat)
    requires Holding(sys, sha) && a.Update? && Enabled(a)
    ensures Holding(Step(sys, a, sha), sha)
  {
    var p := Pruned(sys.store, a.now);
    RemovedKeepsInv(sys.store, Live(a.now), sys.results, sha);
    var i := Find(p.tasks, Mine(a.id, a.owner));
    if i < |p.tasks| && !Frozen(p.tasks[i], a.status)
       && !(p.tasks[i].status == a.status && p.tasks[i].message == Slice(a.message, MAX_MESSAGE)) {
      NotFrozenHasNoChunks(p, i, a.status, sys.results, sha);
      UpdatedIsValid(p.tasks, i, a.status, a.message, a.result, a.now, sha);
      var t := Updated(p.tasks, p.tasks[i], a.status, a.message, a.result, a.now, sha);
      if Stores(p.tasks, p.tasks[i], a.status, a.result) {
        StoreKeepsInv(p, i, t, a.result.bytes, sys.results, sha);
      } else {
        ReplaceKeepsInv(p, i, t, sys.results, sha);
      }
    }
  }

  // ---- every run ----

  lemma StepKeepsInv(sys: System, a: Action, sha: seq<byte> -> nat)
    requires Holding(sys, sha) && Enabled(a)
    ensures Holding(Step(sys, a, sha), sha)
  {
    match a
    case CreateTask(id, owner, now) => CreateKeepsInv(sys.store, id, owner, now, sys.results, sha);
    case GetTask(_, _, now) => RemovedKeepsInv(sys.store, Live(now), sys.results, sha);
    case GetTaskResult(_, _, now) => RemovedKeepsInv(sys.store, Live(now), sys.results, sha);
    case Update(_, _, _, _, _, _) => UpdateKeepsInv(sys, a, sha);
    case Cancel(r) => RemovedKeepsInv(sys.store, OutOfReach(r), sys.results, sha);
  }

  lemma {:induction false} RunKeepsInv(sys: System, actions: seq<Action>, sha: seq<byte> -> nat)
    requires Holding(sys, sha) && AllEnabled(actions)
    ensures Holding(Run(sys, actions, sha), sha)
    decreases |actions|
  {
    if actions != [] {
      StepKeepsInv(sys, actions[0], sha);
      RunKeepsInv(Step(sys, actions[0], sha), actions[1..], sha);
    }
  }

  /**
   * From an empty store on, whatever is created, updated, read, pruned and revoked: the state stays valid, results and
   * reservations stay within the total, and the chunk keys in storage are exactly those of the tasks in the state.
   */
  lemma StorageIsAccountedFor(actions: seq<Action>, sha: seq<byte> -> nat)
    requires AllEnabled(actions)
    ensures var s := Run(GENESIS, actions, sha).store;
            && |s.tasks| <= 128 && Retained(s.tasks) <= 32 * 1024 * 1024
            && (forall i, j :: 0 <= i < j < |s.tasks| ==> s.tasks[i].id != s.tasks[j].id)
            && (forall t :: t in s.tasks ==>
                  && t.bytes <= 8 * 1024 * 1024 && (t.chunkCount > 0 ==> t.status == Completed)
                  && t.reserved == if t.status == Working || t.status == InputRequired then 8 * 1024 * 1024 else 0)
            && forall key :: key in s.chunks <==> Owned(s.tasks, key)
  {
    RunKeepsInv(GENESIS, actions, sha);
    var sys := Run(GENESIS, actions, sha);
    forall key ensures key in sys.store.chunks <==> Owned(sys.store.tasks, key) {
      ChunksAreOwned(sys.store, sys.results, sha, key);
    }
    forall t | t in sys.store.tasks ensures ValidTask(t) && (t.chunkCount > 0 ==> t.status == Completed) {
      var i :| 0 <= i < |sys.store.tasks| && sys.store.tasks[i] == t;
      assert TaskOk(sys.store, sys.store.tasks[i], sys.results, sha);
    }
  }

  // ---- results ----

  lemma {:induction false} ReadsBackChunks(chunks: map<string, string>, t: Task, b: seq<byte>, sha: seq<byte> -> nat, n: nat)
    requires Holds(chunks, t, b, sha) && n <= t.chunkCount
    ensures ReadChunks(chunks, t.id, n) == Some(FirstChunks(b, n))
  {
    if n > 0 {
      ReadsBackChunks(chunks, t, b, sha, n - 1);
      Base64RoundTrip(Chunk(b, n - 1));
      assert ResultChunkKey(t.id, n - 1) in chunks;
    }
  }

  lemma HeldResultIsRead(chunks: map<string, string>, t: Task, b: seq<byte>, sha: seq<byte> -> nat)
    requires ValidTask(t) && t.chunkCount > 0 && Holds(chunks, t, b, sha)
    ensures var r := ReadChunks(chunks, t.id, t.chunkCount);
            r.Some? && Flat(r.value) == b
  {
    ReadsBackChunks(chunks, t, b, sha, t.chunkCount);
    ChunksJoin(b, t.chunkCount);
  }

  lemma FindsMine(tasks: seq<Task>, t: Task)
    requires DistinctIds(tasks) && t in tasks
    ensures var i := Find(tasks, Mine(t.id, t.owner)); i < |tasks| && tasks[i] == t
  {
    var j: nat :| j < |tasks| && tasks[j] == t;
    var i := Find(tasks, Mine(t.id, t.owner));
    assert Mine(t.id, t.owner)(tasks[j]);
  }

  lemma SurvivesPruning(s: Store, t: Task, now: Time)
    requires ValidState(s.tasks) && t in s.tasks && t.expiresAt > now
    ensures t in Pruned(s, now).tasks && ValidState(Pruned(s, now).tasks)
  {
    FilterIsPart(s.tasks, Live(now));
    FilterKeepsValid(s.tasks, Live(now));
    assert Live(now)(t);
  }

  /** In every reachable state the owner of an unexpired task with a result reads back that result. */
  lemma ResultIsReadBack(sys: System, t: Task, now: Time, sha: seq<byte> -> nat)
    requires Holding(sys, sha) && t in sys.store.tasks && t.chunkCount > 0 && t.expiresAt > now
    ensures t.id in sys.results && GetResult(sys.store, t.id, t.owner, now, sha).reply == Got(sys.results[t.id])
  {
    var p := Pruned(sys.store, now);
    SurvivesPruning(sys.store, t, now);
    RemovedKeepsInv(sys.store, Live(now), sys.results, sha);
    HoldsIn(p, t, sys.results, sha);
    HeldIsGot(sys.store, t, sys.results[t.id], now, sha);
  }

  lemma HoldsIn(s: Store, t: Task, results: map<string, seq<byte>>, sha: seq<byte> -> nat)
    requires Inv(s, results, sha) && t in s.tasks && t.chunkCount > 0
    ensures ValidTask(t) && t.status == Completed && t.id in results && Holds(s.chunks, t, results[t.id], sha)
  {
    var j: nat :| j < |s.tasks| && s.tasks[j] == t;
    assert TaskOk(s, s.tasks[j], results, sha);
  }

  lemma HeldIsGot(s: Store, t: Task, b: seq<byte>, now: Time, sha: seq<byte> -> nat)
    requires ValidState(s.tasks) && ValidState(Pruned(s, now).tasks) && t in Pruned(s, now).tasks
    requires ValidTask(t) && t.status == Completed && t.chunkCount > 0 && Holds(Pruned(s, now).chunks, t, b, sha)
    ensures GetResult(s, t.id, t.owner, now, sha).reply == Got(b)
  {
    var p := Pruned(s, now);
    FindsMine(p.tasks, t);
    HeldResultIsRead(p.chunks, t, b, sha);
  }

  /** Neither expiry nor revocation removes the task in this step. */
  predicate Leaves(a: Action, t: Task) {
    match a
    case Cancel(r) => !Denies(r, t.owner)
    case CreateTask(_, _, now) => t.expiresAt > now
    case GetTask(_, _, now) => t.expiresAt > now
    case GetTaskResult(_, _, now) => t.expiresAt > now
    case Update(_, _, _, _, _, now) => t.expiresAt > now
  }

  predicate AllLeave(actions: seq<Action>, t: Task) {
    forall i :: 0 <= i < |actions| ==> Leaves(actions[i], t)
  }

  /** A task with a stored result is not changed any more, nor is the result. */
  lemma StoredTaskStays(sys: System, a: Action, t: Task, sha: seq<byte> -> nat)
    requires Holding(sys, sha) && Enabled(a) && t in sys.store.tasks && t.chunkCount > 0 && Leaves(a, t)
    ensures t in Step(sys, a, sha).store.tasks
    ensures t.id in sys.results && t.id in Step(sys, a, sha).results && Step(sys, a, sha).results[t.id] == sys.results[t.id]
  {
    var n: nat :| n < |sys.store.tasks| && sys.store.tasks[n] == t;
    assert TaskOk(sys.store, sys.store.tasks[n], sys.results, sha);
    match a
    case CreateTask(_, _, now) => SurvivesPruning(sys.store, t, now);
    case GetTask(_, _, now) => SurvivesPruning(sys.store, t, now);
    case GetTaskResult(_, _, now) => SurvivesPruning(sys.store, t, now);
    case Cancel(r) =>
      FilterIsPart(sys.store.tasks, OutOfReach(r));
      assert OutOfReach(r)(t);
    case Update(id, owner, status, message, result, now) =>
      SurvivesPruning(sys.store, t, now);
      RemovedKeepsInv(sys.store, Live(now), sys.results, sha);
      var p := Pruned(sys.store, now);
      var i := Find(p.tasks, Mine(id, owner));
      if i < |p.tasks| && !Frozen(p.tasks[i], status) {
        NotFrozenHasNoChunks(p, i, status, sys.results, sha);
        OtherTaskStays(p.tasks, i, t, Updated(p.tasks, p.tasks[i], status, message, result, now, sha));
      }
  }

  lemma OtherTaskStays(tasks: seq<Task>, i: nat, t: Task, u: Task)
    requires DistinctIds(tasks) && i < |tasks| && t in tasks && t != tasks[i]
    ensures t.id != tasks[i].id && t in tasks[i := u]
  {
    var j: nat :| j < |tasks| && tasks[j] == t;
    assert tasks[i := u][j] == t;
  }

  lemma {:induction false} StoredTaskStaysInRun(sys: System, actions: seq<Action>, t: Task, sha: seq<byte> -> nat)
    requires Holding(sys, sha) && AllEnabled(actions) && t in sys.store.tasks && t.chunkCount > 0 && AllLeave(actions, t)
    ensures t in Run(sys, actions, sha).store.tasks
    ensures t.id in sys.results && t.id in Run(sys, actions, sha).results && Run(sys, actions, sha).results[t.id] == sys.results[t.id]
    decreases |actions|
  {
    if actions == [] {
      var n: nat :| n < |sys.store.tasks| && sys.store.tasks[n] == t;
      assert TaskOk(sys.store, sys.store.tasks[n], sys.results, sha);
    } else {
      StoredTaskStays(sys, actions[0], t, sha);
      StepKeepsInv(sys, actions[0], sha);
      StoredTaskStaysInRun(Step(sys, actions[0], sha), actions[1..], t, sha);
    }
  }

  /** The reservation: completing an active task stores any result of at most 8 MiB, whatever other tasks hold. */
  lemma ReservationSuffices(sys: System, t: Task, message: string, b: seq<byte>, now: Time, sha: seq<byte> -> nat)
    requires Holding(sys, sha) && t in sys.store.tasks && Active(t.status) && t.expiresAt > now && b != []
    ensures Recorded(sys.store, t.id, t.owner, Completed, message, Encoded(b), now) <==> |b| <= MAX_MCP_TASK_RESULT_BYTES
    ensures var d := UpdateStatus(sys.store, t.id, t.owner, Completed, message, Encoded(b), now, sha);
            && d.reply.Got? && d.reply.value in d.store.tasks
            && d.reply.value.status == Completed && d.reply.value.id == t.id && d.reply.value.owner == t.owner
            && d.reply.value.expiresAt == t.expiresAt
            && d.reply.value.chunkCount == (if |b| <= MAX_MCP_TASK_RESULT_BYTES then ChunkCount(|b|) else 0)
  {
    var p := Pruned(sys.store, now);
    SurvivesPruning(sys.store, t, now);
    FindsMine(p.tasks, t);
    var i := Find(p.tasks, Mine(t.id, t.owner));
    assert ValidTask(p.tasks[i]);
    var next := Updated(p.tasks, t, Completed, message, Encoded(b), now, sha);
    assert p.tasks[i := next][i] == next;
  }

  /**
   * From the completion of a task in any reachable state, through any later operations on this and other tasks that
   * neither outlive its expiry nor revoke its owner, its owner reads back exactly the bytes it was completed with.
   */
  lemma CompletedResultSurvives(before: seq<Action>, t: Task, message: string, b: seq<byte>, completedAt: Time,
                                actions: seq<Action>, now: Time, sha: seq<byte> -> nat)
    requires AllEnabled(before) && AllEnabled(actions)
    requires t in Run(GENESIS, before, sha).store.tasks && Active(t.status) && 0 < |b| <= MAX_MCP_TASK_RESULT_BYTES
    requires t.expiresAt > completedAt && t.expiresAt > now && AllLeave(actions, t)
    ensures var completed := Step(Run(GENESIS, before, sha), Update(t.id, t.owner, Completed, message, Encoded(b), completedAt), sha);
            GetResult(Run(completed, actions, sha).store, t.id, t.owner, now, sha).reply == Got(b)
  {
    var sys := Run(GENESIS, before, sha);
    RunKeepsInv(GENESIS, before, sha);
    var t' := Completes(sys, t, message, b, completedAt, sha);
    var completed := Step(sys, Update(t.id, t.owner, Completed, message, Encoded(b), completedAt), sha);
    forall i | 0 <= i < |actions| ensures Leaves(actions[i], t') {
      assert Leaves(actions[i], t);
    }
    StoredTaskStaysInRun(completed, actions, t', sha);
    RunKeepsInv(completed, actions, sha);
    ResultIsReadBack(Run(completed, actions, sha), t', now, sha);
  }

  lemma Completes(sys: System, t: Task, message: string, b: seq<byte>, now: Time, sha: seq<byte> -> nat) returns (t': Task)
    requires Holding(sys, sha) && t in sys.store.tasks && Active(t.status) && 0 < |b| <= MAX_MCP_TASK_RESULT_BYTES && t.expiresAt > now
    ensures var completed := Step(sys, Update(t.id, t.owner, Completed, message, Encoded(b), now), sha);
            && Holding(completed, sha) && t' in completed.store.tasks
            && t.id in completed.results && completed.results[t.id] == b
    ensures t'.id == t.id && t'.owner == t.owner && t'.expiresAt == t.expiresAt && t'.chunkCount > 0
  {
    var a := Update(t.id, t.owner, Completed, message, Encoded(b), now);
    StepKeepsInv(sys, a, sha);
    ReservationSuffices(sys, t, message, b, now, sha);
    t' := UpdateStatus(sys.store, t.id, t.owner, Completed, message, Encoded(b), now, sha).reply.value;
    SomeChunk(|b|);
  }

  // ---- terminal states ----

  /** A task as it was, one that was still active, or a completed one whose missing result makes it fail. */
  predicate MayBecome(t: Task, u: Task) {
    u == t || (u.owner == t.owner && u.expiresAt == t.expiresAt
               && (Active(t.status) || (t.status == Completed && t.chunkCount == 0 && u.status == Failed && u.chunkCount == 0)))
  }

  /** No step moves a task out of a terminal state, but for that; only after its expiry may its id be used again. */
  lemma TerminalStatesAbsorb(sys: System, a: Action, t: Task, u: Task, sha: seq<byte> -> nat)
    requires Holding(sys, sha) && Enabled(a) && t in sys.store.tasks && u in Step(sys, a, sha).store.tasks && u.id == t.id
    ensures MayBecome(t, u) || (a.CreateTask? && t.expiresAt <= a.now && u == NewTask(a.id, a.owner, a.now))
  {
    if u in sys.store.tasks {
      SameId(sys.store.tasks, t, u);
    } else if a.Update? {
      RemovedKeepsInv(sys.store, Live(a.now), sys.results, sha);
      FilterIsPart(sys.store.tasks, Live(a.now));
      UpdatedMayBecome(sys, a, t, u, sha);
    } else if a.CreateTask? {
      FilterIsPart(sys.store.tasks, Live(a.now));
      CreatedIsNew(sys.store, a, t, u);
    } else if a.Cancel? {
      FilterIsPart(sys.store.tasks, OutOfReach(a.revocation));
    } else {
      FilterIsPart(sys.store.tasks, Live(a.now));
    }
  }

  lemma UpdatedMayBecome(sys: System, a: Action, t: Task, u: Task, sha: seq<byte> -> nat)
    requires Holding(sys, sha) && a.Update? && t in sys.store.tasks && u.id == t.id && u !in sys.store.tasks
    requires Inv(Pruned(sys.store, a.now), sys.results, sha)
    requires u in Step(sys, a, sha).store.tasks && forall v :: v in Pruned(sys.store, a.now).tasks ==> v in sys.store.tasks
    ensures MayBecome(t, u)
  {
    var p := Pruned(sys.store, a.now);
    var i := Find(p.tasks, Mine(a.id, a.owner));
    assert i < |p.tasks| && !Frozen(p.tasks[i], a.status);
    NotFrozenHasNoChunks(p, i, a.status, sys.results, sha);
    assert p.tasks[i] in p.tasks;
    var next := Updated(p.tasks, p.tasks[i], a.status, a.message, a.result, a.now, sha);
    assert u == next by {
      var n: nat :| n < |p.tasks| && p.tasks[i := next][n] == u;
      assert p.tasks[n] in p.tasks;
    }
    SameId(sys.store.tasks, t, p.tasks[i]);
  }

  lemma CreatedIsNew(s: Store, a: Action, t: Task, u: Task)
    requires a.CreateTask? && ValidState(s.tasks) && t in s.tasks && u.id == t.id
    requires u in Create(s, a.id, a.owner, a.now).store.tasks && u !in Pruned(s, a.now).tasks && u !in s.tasks
    ensures t.expiresAt <= a.now && u == NewTask(a.id, a.owner, a.now)
  {
    var p := Pruned(s, a.now);
    FilterIsPart(s.tasks, Live(a.now));
    forall j | 0 <= j < |p.tasks| ensures p.tasks[j] != t {
      assert !Named(a.id)(p.tasks[j]);
    }
    assert !Live(a.now)(t);
  }
}
