/** The MCP task store as it runs, transaction by transaction: src/worker/mcp-task-store.ts. */
module TaskStoreService {
  import opened Records
  import opened Utf8
  import opened Base64
  import opened TaskResultCodec
  import opened TaskStore
  import opened Authorities
  import opened Lists

  ghost function Unowned(chunks: map<string, string>, tasks: seq<Task>): map<string, string> {
    map k | k in chunks && !Owned(tasks, k) :: chunks[k]
  }

  /** The first `n` chunk keys of a task. */
  ghost predicate AmongFirst(t: Task, n: nat, key: string) {
    exists i: nat :: i < n && key == ResultChunkKey(t.id, i)
  }

  lemma OneMoreKey(t: Task, n: nat, key: string)
    ensures AmongFirst(t, n + 1, key) <==> AmongFirst(t, n, key) || key == ResultChunkKey(t.id, n)
  {
    if key == ResultChunkKey(t.id, n) {
      assert n < n + 1;
    } else if AmongFirst(t, n + 1, key) {
      var i: nat :| i < n + 1 && key == ResultChunkKey(t.id, i);
    }
  }

  lemma OwnedOneMore(tasks: seq<Task>, j: nat, key: string)
    requires j < |tasks|
    ensures Owned(tasks[..j + 1], key) <==> Owned(tasks[..j], key) || AmongFirst(tasks[j], tasks[j].chunkCount, key)
  {
    var more := tasks[..j + 1];
    if Owned(tasks[..j], key) {
      var m: nat, i: nat :| m < j && i < tasks[..j][m].chunkCount && key == ResultChunkKey(tasks[..j][m].id, i);
      assert more[m] == tasks[..j][m];
    } else if AmongFirst(tasks[j], tasks[j].chunkCount, key) {
      assert more[j] == tasks[j];
      var i: nat :| i < tasks[j].chunkCount && key == ResultChunkKey(tasks[j].id, i);
      assert j < |more| && i < more[j].chunkCount && key == ResultChunkKey(more[j].id, i);
    }
    if Owned(more, key) {
      var m: nat, i: nat :| m < |more| && i < more[m].chunkCount && key == ResultChunkKey(more[m].id, i);
      if m < j {
        assert tasks[..j][m] == more[m];
      }
    }
  }

  class McpTaskStore {
    var tasks: seq<Task>
    var chunks: map<string, string>

    ghost function State(): Store
      reads this
    {
      Store(tasks, chunks)
    }

    constructor (s: Store)
      ensures State() == s
    {
      tasks, chunks := s.tasks, s.chunks;
    }

    method DeleteTaskResult(task: Task)
      modifies this`chunks
      ensures chunks == map k | k in old(chunks) && !AmongFirst(task, task.chunkCount, k) :: old(chunks)[k]
    {
      for index := 0 to task.chunkCount
        invariant chunks == map k | k in old(chunks) && !AmongFirst(task, index, k) :: old(chunks)[k]
      {
        forall k ensures AmongFirst(task, index + 1, k) <==> AmongFirst(task, index, k) || k == ResultChunkKey(task.id, index) {
          OneMoreKey(task, index, k);
        }
        chunks := chunks - {ResultChunkKey(task.id, index)};
      }
    }

    method DeleteTaskResults(removed: seq<Task>)
      modifies this`chunks
      ensures chunks == Unowned(old(chunks), removed)
    {
      for j := 0 to |removed|
        invariant chunks == Unowned(old(chunks), removed[..j])
      {
        DeleteTaskResult(removed[j]);
        forall k ensures Owned(removed[..j + 1], k) <==> Owned(removed[..j], k) || AmongFirst(removed[j], removed[j].chunkCount, k) {
          OwnedOneMore(removed, j, k);
        }
      }
      assert removed[..|removed|] == removed;
    }

    /** prune, and the same loop in cancelAuthority. */
    method RemoveOthers(keep: Task -> bool)
      modifies this
      ensures State() == Removed(old(State()), keep)
    {
      var removed := Filter(tasks, Not(keep));
      tasks := Filter(tasks, keep);
      DeleteTaskResults(removed);
    }

    method Create(id: string, owner: Owner, now: Time) returns (reply: Reply<Task>)
      modifies this
      ensures Done(State(), reply) == TaskStore.Create(old(State()), id, owner, now)
    {
      if !IsTaskJobId(id) {
        return Nothing;
      }
      if !ValidState(tasks) {
        return Threw;
      }
      RemoveOthers(Live(now));
      var i := Find(tasks, Named(id));
      if i < |tasks| {
        return if tasks[i].owner == owner then Got(tasks[i]) else Nothing;
      }
      if |tasks| >= MAX_MCP_TASKS {
        return Nothing;
      }
      var retainedResultBytes := TotalRetained(tasks);
      if retainedResultBytes + MAX_MCP_TASK_RESULT_BYTES > MAX_MCP_TASK_RESULT_BYTES_TOTAL {
        return Nothing;
      }
      if now + MCP_TASK_TTL_MS > MAX_SAFE_INTEGER {
        return Nothing;
      }
      var task := NewTask(id, owner, now);
      tasks := tasks + [task];
      return Got(task);
    }

    method Get(id: string, owner: Owner, now: Time) returns (reply: Reply<Task>)
      modifies this
      ensures Done(State(), reply) == TaskStore.Get(old(State()), id, owner, now)
    {
      if !ValidState(tasks) {
        return Threw;
      }
      RemoveOthers(Live(now));
      var i := Find(tasks, Mine(id, owner));
      return if i < |tasks| && tasks[i].expiresAt > now then Got(tasks[i]) else Nothing;
    }

    method GetResult(id: string, owner: Owner, now: Time, sha: seq<byte> -> nat) returns (reply: Reply<seq<byte>>)
      modifies this
      ensures Done(State(), reply) == TaskStore.GetResult(old(State()), id, owner, now, sha)
    {
      if !ValidState(tasks) {
        return Threw;
      }
      var before := (tasks, chunks);
      RemoveOthers(Live(now));
      var i := Find(tasks, Mine(id, owner));
      if i == |tasks| || tasks[i].status != Completed || tasks[i].chunkCount == 0 {
        return Nothing;
      }
      var read := LoadChunks(chunks, id, tasks[i].chunkCount);
      if read.None? {
        tasks, chunks := before.0, before.1;
        return Threw;
      }
      var serialized := Concatenate(read.value, tasks[i].bytes);
      if serialized.None? || Some(sha(serialized.value)) != tasks[i].sha256 {
        tasks, chunks := before.0, before.1;
        return Threw;
      }
      return Got(serialized.value);
    }

    method UpdateStatus(id: string, owner: Owner, status: Status, message: string, result: Result, now: Time, sha: seq<byte> -> nat)
      returns (reply: Reply<Task>)
      modifies this
      ensures Done(State(), reply) == TaskStore.UpdateStatus(old(State()), id, owner, status, message, result, now, sha)
    {
      if !ValidState(tasks) {
        return Threw;
      }
      RemoveOthers(Live(now));
      var index := Find(tasks, Mine(id, owner));
      if index == |tasks| {
        return Nothing;
      }
      var previous := tasks[index];
      var terminalResultMissing := previous.status == Completed && previous.chunkCount == 0 && status == Failed;
      if previous.status != Working && previous.status != InputRequired && !terminalResultMissing {
        return Got(previous);
      }
      var normalizedMessage := Slice(message, MAX_MESSAGE);
      if previous.status == status && previous.message == normalizedMessage {
        return Got(previous);
      }
      var next := previous.(status := status, message := normalizedMessage, lastUpdatedAt := now);
      if status != Working && status != InputRequired {
        next := next.(chunkCount := 0, bytes := 0, sha256 := None, reserved := 0);
      }
      if status == Completed && result.Encoded? {
        var total := TotalRetained(tasks);
        var others := total - previous.bytes - previous.reserved;
        if |result.bytes| <= MAX_MCP_TASK_RESULT_BYTES && others + |result.bytes| <= MAX_MCP_TASK_RESULT_BYTES_TOTAL {
          var chunkCount := ChunkCount(|result.bytes|);
          PutChunks(id, result.bytes, chunkCount);
          next := next.(chunkCount := chunkCount, bytes := |result.bytes|, sha256 := Some(sha(result.bytes)), reserved := 0);
        }
      }
      tasks := tasks[index := next];
      return Got(next);
    }

    method PutChunks(id: string, bytes: seq<byte>, chunkCount: nat)
      modifies this`chunks
      ensures chunks == WithChunks(old(chunks), id, bytes, chunkCount)
    {
      for chunkIndex := 0 to chunkCount
        invariant chunks == WithChunks(old(chunks), id, bytes, chunkIndex)
      {
        var encoded := EncodeBase64(Chunk(bytes, chunkIndex));
        chunks := chunks[ResultChunkKey(id, chunkIndex) := encoded];
      }
    }

    method CancelAuthority(r: Scope) returns (reply: Reply<int>)
      modifies this
      ensures Done(State(), reply) == TaskStore.CancelAuthority(old(State()), r)
    {
      if !ValidState(tasks) {
        return Threw;
      }
      var before := |tasks|;
      RemoveOthers(OutOfReach(r));
      return Got(before - |tasks|);
    }
  }

  /** `tasks.reduce((total, task) => total + task.result_bytes + task.reserved_result_bytes, 0)` */
  method TotalRetained(tasks: seq<Task>) returns (total: nat)
    ensures total == Retained(tasks)
  {
    total := 0;
    for i := 0 to |tasks|
      invariant total + Retained(tasks[i..]) == Retained(tasks)
    {
      total := total + tasks[i].bytes + tasks[i].reserved;
    }
  }

  /** The read loop of getResult. */
  method LoadChunks(chunks: map<string, string>, id: string, count: nat) returns (r: Option<seq<seq<byte>>>)
    ensures r == ReadChunks(chunks, id, count)
  {
    var read: seq<seq<byte>> := [];
    for index := 0 to count
      invariant ReadChunks(chunks, id, index) == Some(read)
    {
      var key := ResultChunkKey(id, index);
      if key !in chunks || FromBase64(chunks[key]).None? {
        MissingStays(chunks, id, index + 1, count);
        return None;
      }
      read := read + [FromBase64(chunks[key]).value];
    }
    return Some(read);
  }

  lemma {:induction false} MissingStays(chunks: map<string, string>, id: string, m: nat, n: nat)
    requires m <= n && ReadChunks(chunks, id, m) == None
    ensures ReadChunks(chunks, id, n) == None
  {
    if m < n {
      MissingStays(chunks, id, m, n - 1);
    }
  }
}
