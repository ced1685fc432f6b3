/** Task results as stored chunks: src/worker/mcp-task-result-codec.ts. */
module TaskResultCodec {
  import opened Records
  import opened Utf8
  import opened Base64

  const RESULT_CHUNK_BYTES := 384 * 1024

  // ---- keys ----

  function Decimal(n: nat): (s: string)
    ensures if n < 10 then |s| == 1 else |s| >= 2
    ensures forall i :: 0 <= i < |s| ==> '0' <= s[i] <= '9'
  {
    if n < 10 then ['0' + n as char] else Decimal(n / 10) + ['0' + (n % 10) as char]
  }

  lemma {:induction false} DecimalInjective(m: nat, n: nat)
    requires Decimal(m) == Decimal(n)
    ensures m == n
  {
    if m >= 10 && n >= 10 {
      assert Decimal(m)[..|Decimal(m)| - 1] == Decimal(m / 10);
      assert Decimal(n)[..|Decimal(n)| - 1] == Decimal(n / 10);
      DecimalInjective(m / 10, n / 10);
    }
  }

  function ResultChunkKey(taskId: string, index: nat): string {
    "mcp-task-result-v1:" + taskId + ":" + Decimal(index)
  }

  predicate IsTaskJobId(id: string) {
    && |id| >= 28 && id[..4] == "job_"
    && forall i :: 4 <= i < |id| ==> 'A' <= id[i] <= 'Z' || 'a' <= id[i] <= 'z' || '0' <= id[i] <= '9' || id[i] == '_' || id[i] == '-'
  }

  lemma NoColon(id: string)
    requires IsTaskJobId(id)
    ensures ':' !in id
  {
    forall i | 0 <= i < |id| ensures id[i] != ':' {
      if i < 4 {
        assert id[i] == id[..4][i] == "job_"[i];
      }
    }
  }

  function IndexOf(s: string, c: char): nat {
    if s == "" || s[0] == c then 0 else 1 + IndexOf(s[1..], c)
  }

  lemma {:induction false} FrontHasNone(a: string, c: char, b: string)
    requires c !in a
    ensures IndexOf(a + [c] + b, c) == |a|
  {
    if a != "" {
      FrontHasNone(a[1..], c, b);
      assert (a + [c] + b)[1..] == a[1..] + [c] + b;
    }
  }

  /** Of two strings split at the same character, which their fronts do not hold, both parts are equal. */
  lemma SplitAtFirst(a: string, b: string, c: char, d: string, e: string)
    requires c !in a && c !in d && a + [c] + b == d + [c] + e
    ensures a == d && b == e
  {
    var s := a + [c] + b;
    FrontHasNone(a, c, b);
    FrontHasNone(d, c, e);
    assert a == s[..|a|] && d == s[..|d|];
    assert b == s[|a| + 1..] && e == s[|d| + 1..];
  }

  /** Different chunks have different keys. */
  lemma ResultChunkKeyInjective(id: string, i: nat, id': string, i': nat)
    requires IsTaskJobId(id) && IsTaskJobId(id') && ResultChunkKey(id, i) == ResultChunkKey(id', i')
    ensures id == id' && i == i'
  {
    NoColon(id);
    NoColon(id');
    var prefix := "mcp-task-result-v1:";
    assert ResultChunkKey(id, i)[|prefix|..] == id + [':'] + Decimal(i);
    assert ResultChunkKey(id', i')[|prefix|..] == id' + [':'] + Decimal(i');
    SplitAtFirst(id, Decimal(i), ':', id', Decimal(i'));
    DecimalInjective(i, i');
  }

  // ---- chunks ----

  /** `Math.ceil(bytes / RESULT_CHUNK_BYTES)` */
  function ChunkCount(bytes: nat): nat {
    (bytes + RESULT_CHUNK_BYTES - 1) / RESULT_CHUNK_BYTES
  }

  function ChunkStart(i: nat, bytes: nat): nat {
    if i * RESULT_CHUNK_BYTES < bytes then i * RESULT_CHUNK_BYTES else bytes
  }

  function Chunk(b: seq<byte>, i: nat): seq<byte> {
    b[ChunkStart(i, |b|)..ChunkStart(i + 1, |b|)]
  }

  function Flat(chunks: seq<seq<byte>>): seq<byte> {
    if chunks == [] then [] else Flat(chunks[..|chunks| - 1]) + chunks[|chunks| - 1]
  }

  function FirstChunks(b: seq<byte>, n: nat): seq<seq<byte>> {
    if n == 0 then [] else FirstChunks(b, n - 1) + [Chunk(b, n - 1)]
  }

  /** Its chunks, one after the other, are the result. */
  lemma {:induction false} ChunksJoin(b: seq<byte>, n: nat)
    ensures Flat(FirstChunks(b, n)) == b[..ChunkStart(n, |b|)]
    ensures n == ChunkCount(|b|) ==> Flat(FirstChunks(b, n)) == b
  {
    hide ChunkStart, ChunkCount, Chunk;
    if n == 0 {
      NoChunk(|b|);
    } else {
      ChunksJoin(b, n - 1);
      assert FirstChunks(b, n)[..|FirstChunks(b, n)| - 1] == FirstChunks(b, n - 1);
      NextChunk(b, n - 1);
    }
    AllChunks(|b|);
  }

  lemma NoChunk(bytes: nat)
    ensures ChunkStart(0, bytes) == 0
  {
  }

  lemma NextChunk(b: seq<byte>, n: nat)
    ensures b[..ChunkStart(n, |b|)] + Chunk(b, n) == b[..ChunkStart(n + 1, |b|)]
  {
  }

  lemma AllChunks(bytes: nat)
    ensures ChunkStart(ChunkCount(bytes), bytes) == bytes
  {
  }

  method Concatenate(chunks: seq<seq<byte>>, expectedBytes: nat) returns (r: Option<seq<byte>>)
    ensures r == if |Flat(chunks)| == expectedBytes then Some(Flat(chunks)) else None
  {
    var bytes := new byte[expectedBytes](_ => 0);
    var offset := 0;
    assert chunks[..0] == [];
    for i := 0 to |chunks|
      invariant offset == |Flat(chunks[..i])| <= expectedBytes
      invariant bytes[..offset] == Flat(chunks[..i])
    {
      assert chunks[..i + 1][..i] == chunks[..i];
      var chunk := chunks[i];
      if offset + |chunk| > expectedBytes {
        FlatGrows(chunks, i + 1);
        return None;
      }
      ghost var before := bytes[..offset];
      forall k | 0 <= k < |chunk| {
        bytes[offset + k] := chunk[k];
      }
      assert bytes[..offset + |chunk|] == before + chunk;
      offset := offset + |chunk|;
    }
    assert chunks[..|chunks|] == chunks;
    if offset != expectedBytes {
      return None;
    }
    assert bytes[..offset] == bytes[..];
    return Some(bytes[..]);
  }

  lemma {:induction false} FlatGrows(chunks: seq<seq<byte>>, i: nat)
    requires i <= |chunks|
    ensures |Flat(chunks[..i])| <= |Flat(chunks)|
  {
    if i == |chunks| {
      assert chunks[..i] == chunks;
    } else {
      FlatGrows(chunks[..|chunks| - 1], i);
      assert chunks[..|chunks| - 1][..i] == chunks[..i];
    }
  }

  method EncodeBase64(bytes: seq<byte>) returns (s: string)
    ensures s == ToBase64(bytes)
    ensures FromBase64(s) == Some(bytes)
  {
    var binary: seq<byte> := [];
    var offset := 0;
    while offset < |bytes|
      invariant binary == bytes[..if offset < |bytes| then offset else |bytes|]
    {
      var end := if offset + 0x8000 < |bytes| then offset + 0x8000 else |bytes|;
      binary := binary + bytes[offset..end];
      offset := offset + 0x8000;
    }
    assert binary == bytes;
    Base64RoundTrip(bytes);
    s := ToBase64(binary);
  }
}
