/** The MCP task store: src/worker/mcp-task-store.ts. What each operation leaves in durable storage. */
module TaskStore {
  import opened Records
  import opened Utf8
  import opened Base64
  import opened TaskResultCodec
  import opened Authorities
  import opened Lists

  const MAX_MCP_TASKS := 128
  const MAX_MCP_TASK_RESULT_BYTES := 8 * 1024 * 1024
  const MAX_MCP_TASK_RESULT_BYTES_TOTAL := 32 * 1024 * 1024
  const MAX_MESSAGE := 512
  const MCP_TASK_TTL_MS := 24 * 60 * 60 * 1000
  const MAX_SAFE_INTEGER := 0x1F_FFFF_FFFF_FFFF

  /** Milliseconds that a Date can hold. */
  type Time = t: nat | t <= 8_640_000_000_000_000

  datatype Status = Working | InputRequired | Completed | Cancelled | Failed

  datatype Task = Task(id: string, status: Status, message: string, createdAt: Time, lastUpdatedAt: Time, expiresAt: int,
                       chunkCount: nat, bytes: nat, sha256: Option<nat>, reserved: nat, owner: Owner)

  /** The state record, absent when there is no task, and the base64 chunks under their keys. */
  datatype Store = Store(tasks: seq<Task>, chunks: map<string, string>)

  predicate Active(s: Status) { s.Working? || s.InputRequired? }

  predicate ValidTask(t: Task) {
    && IsTaskJobId(t.id) && |t.message| <= MAX_MESSAGE && 0 < t.expiresAt <= MAX_SAFE_INTEGER
    && t.bytes <= MAX_MCP_TASK_RESULT_BYTES
    && t.reserved == (if Active(t.status) then MAX_MCP_TASK_RESULT_BYTES else 0)
    && (if t.bytes == 0 then t.chunkCount == 0 && t.sha256 == None else t.chunkCount == ChunkCount(t.bytes) && t.sha256.Some?)
    && t.owner.version > 0
  }

  function Retained(tasks: seq<Task>): nat {
    if tasks == [] then 0 else tasks[0].bytes + tasks[0].reserved + Retained(tasks[1..])
  }

  predicate DistinctIds(tasks: seq<Task>) {
    forall i, j :: 0 <= i < j < |tasks| ==> tasks[i].id != tasks[j].id
  }

  predicate ValidState(tasks: seq<Task>) {
    && |tasks| <= MAX_MCP_TASKS
    && (forall i :: 0 <= i < |tasks| ==> ValidTask(tasks[i]))
    && DistinctIds(tasks)
    && Retained(tasks) <= MAX_MCP_TASK_RESULT_BYTES_TOTAL
  }

  // ---- the operations ----

  function Not(keep: Task -> bool): Task -> bool { (t: Task) => !keep(t) }

  function Live(now: Time): Task -> bool { (t: Task) => t.expiresAt > now }

  function Named(id: string): Task -> bool { (t: Task) => t.id == id }

  function Mine(id: string, owner: Owner): Task -> bool { (t: Task) => t.id == id && t.owner == owner }

  /** The key of one of these tasks' result chunks. */
  ghost predicate Owned(tasks: seq<Task>, key: string) {
    exists j: nat, i: nat :: j < |tasks| && i < tasks[j].chunkCount && key == ResultChunkKey(tasks[j].id, i)
  }

  /** The tasks outside `keep` are gone, and so is every chunk of theirs. */
  ghost function Removed(s: Store, keep: Task -> bool): Store {
    Store(Filter(s.tasks, keep), map k | k in s.chunks && !Owned(Filter(s.tasks, Not(keep)), k) :: s.chunks[k])
  }

  ghost function Pruned(s: Store, now: Time): Store {
    Removed(s, Live(now))
  }

  datatype Reply<T> = Got(value: T) | Nothing | Threw

  datatype Done<T> = Done(store: Store, reply: Reply<T>)

  function NewTask(id: string, owner: Owner, now: Time): Task {
    Task(id, Working, "Accepted for execution.", now, now, now + MCP_TASK_TTL_MS, 0, 0, None, MAX_MCP_TASK_RESULT_BYTES, owner)
  }

  ghost function Create(s: Store, id: string, owner: Owner, now: Time): Done<Task> {
    if !IsTaskJobId(id) then Done(s, Nothing)
    else if !ValidState(s.tasks) then Done(s, Threw)
    else
      var p := Pruned(s, now);
      var i := Find(p.tasks, Named(id));
      if i < |p.tasks| then Done(p, if p.tasks[i].owner == owner then Got(p.tasks[i]) else Nothing)
      else if |p.tasks| >= MAX_MCP_TASKS then Done(p, Nothing)
      else if Retained(p.tasks) + MAX_MCP_TASK_RESULT_BYTES > MAX_MCP_TASK_RESULT_BYTES_TOTAL then Done(p, Nothing)
      else if now + MCP_TASK_TTL_MS > MAX_SAFE_INTEGER then Done(p, Nothing)
      else Done(p.(tasks := p.tasks + [NewTask(id, owner, now)]), Got(NewTask(id, owner, now)))
  }

  ghost function Get(s: Store, id: string, owner: Owner, now: Time): Done<Task> {
    if !ValidState(s.tasks) then Done(s, Threw)
    else
      var p := Pruned(s, now);
      var i := Find(p.tasks, Mine(id, owner));
      Done(p, if i < |p.tasks| && p.tasks[i].expiresAt > now then Got(p.tasks[i]) else Nothing)
  }

  /** The chunks 0 to n - 1 of one task; None when one is missing or does not decode. */
  function ReadChunks(chunks: map<string, string>, id: string, n: nat): Option<seq<seq<byte>>> {
    if n == 0 then Some([])
    else
      var front, key := ReadChunks(chunks, id, n - 1), ResultChunkKey(id, n - 1);
      if front.None? || key !in chunks || FromBase64(chunks[key]).None? then None
      else Some(front.value + [FromBase64(chunks[key]).value])
  }

  /** The serialized result, before it is parsed. A failure throws, and the transaction is rolled back. */
  ghost function GetResult(s: Store, id: string, owner: Owner, now: Time, sha: seq<byte> -> nat): Done<seq<byte>> {
    if !ValidState(s.tasks) then Done(s, Threw)
    else
      var p := Pruned(s, now);
      var i := Find(p.tasks, Mine(id, owner));
      if i == |p.tasks| || p.tasks[i].status != Completed || p.tasks[i].chunkCount == 0 then Done(p, Nothing)
      else
        var chunks := ReadChunks(p.chunks, id, p.tasks[i].chunkCount);
        if chunks.None? || |Flat(chunks.value)| != p.tasks[i].bytes || Some(sha(Flat(chunks.value))) != p.tasks[i].sha256
        then Done(s, Threw)
        else Done(p, Got(Flat(chunks.value)))
  }

  /** A result as the caller gives it: none, one that JSON cannot express, or its JSON text, which is never empty. */
  datatype Result = NoResult | Inexpressible | Encoded(bytes: seq<byte>)

  function WithChunks(chunks: map<string, string>, id: string, b: seq<byte>, n: nat): map<string, string> {
    if n == 0 then chunks else WithChunks(chunks, id, b, n - 1)[ResultChunkKey(id, n - 1) := ToBase64(Chunk(b, n - 1))]
  }

  predicate Frozen(t: Task, status: Status) {
    !Active(t.status) && !(t.status == Completed && t.chunkCount == 0 && status == Failed)
  }

  predicate Stores(tasks: seq<Task>, previous: Task, status: Status, result: Result) {
    && status == Completed && result.Encoded? && |result.bytes| <= MAX_MCP_TASK_RESULT_BYTES
    && Retained(tasks) - previous.bytes - previous.reserved + |result.bytes| <= MAX_MCP_TASK_RESULT_BYTES_TOTAL
  }

  function Updated(tasks: seq<Task>, previous: Task, status: Status, message: string, result: Result, now: Time, sha: seq<byte> -> nat): Task {
    var next := previous.(status := status, message := Slice(message, MAX_MESSAGE), lastUpdatedAt := now);
    if Active(status) then next
    else if Stores(tasks, previous, status, result)
    then next.(chunkCount := ChunkCount(|result.bytes|), bytes := |result.bytes|, sha256 := Some(sha(result.bytes)), reserved := 0)
    else next.(chunkCount := 0, bytes := 0, sha256 := None, reserved := 0)
  }

  ghost function UpdateStatus(s: Store, id: string, owner: Owner, status: Status, message: string, result: Result, now: Time,
                              sha: seq<byte> -> nat): Done<Task> {
    if !ValidState(s.tasks) then Done(s, Threw)
    else
      var p := Pruned(s, now);
      var i := Find(p.tasks, Mine(id, owner));
      if i == |p.tasks| then Done(p, Nothing)
      else
        var previous := p.tasks[i];
        if Frozen(previous, status) then Done(p, Got(previous))
        else if previous.status == status && previous.message == Slice(message, MAX_MESSAGE) then Done(p, Got(previous))
        else
          var next := Updated(p.tasks, previous, status, message, result, now, sha);
          var chunks := if Stores(p.tasks, previous, status, result)
                        then WithChunks(p.chunks, id, result.bytes, ChunkCount(|result.bytes|)) else p.chunks;
          Done(Store(p.tasks[i := next], chunks), Got(next))
  }

  function OutOfReach(r: Scope): Task -> bool { (t: Task) => !Denies(r, t.owner) }

  ghost function CancelAuthority(s: Store, r: Scope): Done<int> {
    if !ValidState(s.tasks) then Done(s, Threw)
    else
      var p := Removed(s, OutOfReach(r));
      Done(p, Got(|s.tasks| - |p.tasks|))
  }

  // ---- what holds of the store ----

  /** The stored chunks of a task are those of this serialized result. */
  ghost predicate Holds(chunks: map<string, string>, t: Task, b: seq<byte>, sha: seq<byte> -> nat) {
    && |b| == t.bytes && t.sha256 == Some(sha(b))
    && forall i: nat :: i < t.chunkCount ==> ResultChunkKey(t.id, i) in chunks && chunks[ResultChunkKey(t.id, i)] == ToBase64(Chunk(b, i))
  }

  /** Every chunk belongs to a task. */
  ghost predicate NoStrays(s: Store) {
    forall k :: k in s.chunks ==> Owned(s.tasks, k)
  }

  ghost predicate TaskOk(s: Store, t: Task, results: map<string, seq<byte>>, sha: seq<byte> -> nat) {
    t.chunkCount > 0 ==> t.status == Completed && t.id in results && Holds(s.chunks, t, results[t.id], sha)
  }

  ghost predicate TasksOk(s: Store, results: map<string, seq<byte>>, sha: seq<byte> -> nat) {
    forall i :: 0 <= i < |s.tasks| ==> TaskOk(s, s.tasks[i], results, sha)
  }

  /** `results` remembers the serialized result that each task was last completed with. */
  ghost predicate Inv(s: Store, results: map<string, seq<byte>>, sha: seq<byte> -> nat) {
    ValidState(s.tasks) && NoStrays(s) && TasksOk(s, results, sha)
  }

  /** The chunk keys are exactly those of the tasks. */
  lemma ChunksAreOwned(s: Store, results: map<string, seq<byte>>, sha: seq<byte> -> nat, key: string)
    requires Inv(s, results, sha)
    ensures key in s.chunks <==> Owned(s.tasks, key)
  {
    if Owned(s.tasks, key) {
      var j: nat, i: nat :| j < |s.tasks| && i < s.tasks[j].chunkCount && key == ResultChunkKey(s.tasks[j].id, i);
      assert TaskOk(s, s.tasks[j], results, sha);
    }
  }

  // ---- removing tasks ----

  lemma {:induction false} FilterMembers(tasks: seq<Task>, keep: Task -> bool)
    ensures forall t :: t in Filter(tasks, keep) <==> t in tasks && keep(t)
    ensures |Filter(tasks, keep)| <= |tasks|
  {
    if tasks != [] {
      FilterMembers(tasks[1..], keep);
      assert tasks == [tasks[0]] + tasks[1..];
    }
  }

  lemma {:induction false} FilterRetains(tasks: seq<Task>, keep: Task -> bool)
    ensures Retained(Filter(tasks, keep)) <= Retained(tasks)
  {
    if tasks != [] {
      FilterRetains(tasks[1..], keep);
      var rest := Filter(tasks[1..], keep);
      assert keep(tasks[0]) ==> Filter(tasks, keep)[1..] == rest;
      assert [] + rest == rest;
    }
  }

  lemma {:induction false} FilterDistinct(tasks: seq<Task>, keep: Task -> bool)
    requires DistinctIds(tasks)
    ensures DistinctIds(Filter(tasks, keep))
  {
    if tasks != [] {
      FilterDistinct(tasks[1..], keep);
      FilterMembers(tasks[1..], keep);
      var rest := Filter(tasks[1..], keep);
      forall j | 0 <= j < |rest| ensures rest[j].id != tasks[0].id {
        assert rest[j] in tasks[1..];
      }
    }
  }

  lemma FilterIsPart(tasks: seq<Task>, keep: Task -> bool)
    ensures forall t :: t in Filter(tasks, keep) <==> t in tasks && keep(t)
    ensures |Filter(tasks, keep)| <= |tasks| && Retained(Filter(tasks, keep)) <= Retained(tasks)
    ensures DistinctIds(tasks) ==> DistinctIds(Filter(tasks, keep))
  {
    FilterMembers(tasks, keep);
    FilterRetains(tasks, keep);
    if DistinctIds(tasks) {
      FilterDistinct(tasks, keep);
    }
  }

  lemma FilterKeepsValid(tasks: seq<Task>, keep: Task -> bool)
    requires ValidState(tasks)
    ensures ValidState(Filter(tasks, keep))
  {
    FilterIsPart(tasks, keep);
    var kept := Filter(tasks, keep);
    forall i | 0 <= i < |kept| ensures ValidTask(kept[i]) {
      assert kept[i] in tasks;
    }
  }

  lemma SameId(tasks: seq<Task>, a: Task, b: Task)
    requires DistinctIds(tasks) && a in tasks && b in tasks && a.id == b.id
    ensures a == b
  {
  }

  /** No key belongs both to a task that stays and to one that goes. */
  lemma KeysPart(tasks: seq<Task>, keep: Task -> bool, t: Task, i: nat)
    requires ValidState(tasks) && t in tasks && keep(t) && i < t.chunkCount
    ensures !Owned(Filter(tasks, Not(keep)), ResultChunkKey(t.id, i))
  {
    var gone := Filter(tasks, Not(keep));
    FilterIsPart(tasks, Not(keep));
    forall j: nat, m: nat | j < |gone| && m < gone[j].chunkCount
      ensures ResultChunkKey(t.id, i) != ResultChunkKey(gone[j].id, m)
    {
      assert gone[j] in tasks && !keep(gone[j]);
      KeysDiffer(tasks, t, i, gone[j], m);
    }
  }

  lemma KeysDiffer(tasks: seq<Task>, t: Task, i: nat, u: Task, m: nat)
    requires ValidState(tasks) && t in tasks && u in tasks && t != u
    ensures ResultChunkKey(t.id, i) != ResultChunkKey(u.id, m)
  {
    assert ValidTask(t) && ValidTask(u);
    if ResultChunkKey(t.id, i) == ResultChunkKey(u.id, m) {
      ResultChunkKeyInjective(t.id, i, u.id, m);
    }
  }

  /** Pruning and revocation keep the invariant: what they leave is whole, and what they drop leaves nothing behind. */
  lemma RemovedKeepsInv(s: Store, keep: Task -> bool, results: map<string, seq<byte>>, sha: seq<byte> -> nat)
    requires Inv(s, results, sha)
    ensures Inv(Removed(s, keep), results, sha)
  {
    var p := Removed(s, keep);
    FilterKeepsValid(s.tasks, keep);
    FilterIsPart(s.tasks, keep);
    forall i | 0 <= i < |p.tasks| ensures TaskOk(p, p.tasks[i], results, sha) {
      KeptTaskOk(s, keep, p.tasks[i], results, sha);
    }
    forall k | k in p.chunks ensures Owned(p.tasks, k) {
      KeptOwner(s, keep, k);
    }
  }

  lemma KeptTaskOk(s: Store, keep: Task -> bool, t: Task, results: map<string, seq<byte>>, sha: seq<byte> -> nat)
    requires Inv(s, results, sha) && t in s.tasks && keep(t)
    ensures TaskOk(Removed(s, keep), t, results, sha)
  {
    assert TaskOk(s, t, results, sha);
    forall i: nat | i < t.chunkCount ensures ResultChunkKey(t.id, i) in Removed(s, keep).chunks {
      KeysPart(s.tasks, keep, t, i);
    }
  }

  lemma KeptOwner(s: Store, keep: Task -> bool, key: string)
    requires Owned(s.tasks, key) && !Owned(Filter(s.tasks, Not(keep)), key)
    ensures Owned(Filter(s.tasks, keep), key)
  {
    var j: nat, i: nat :| j < |s.tasks| && i < s.tasks[j].chunkCount && key == ResultChunkKey(s.tasks[j].id, i);
    var t := s.tasks[j];
    FilterIsPart(s.tasks, keep);
    FilterIsPart(s.tasks, Not(keep));
    if keep(t) {
      OwnedBy(Filter(s.tasks, keep), t, i);
    } else {
      OwnedBy(Filter(s.tasks, Not(keep)), t, i);
    }
  }

  lemma OwnedBy(tasks: seq<Task>, t: Task, i: nat)
    requires t in tasks && i < t.chunkCount
    ensures Owned(tasks, ResultChunkKey(t.id, i))
  {
    var j: nat :| j < |tasks| && tasks[j] == t;
  }
}
