// Chunks of byte matrices.
module Chunking {
  // Off-diagonal entries cut into bounded chunks.

  const CHUNK_BYTES: nat := 262144

  datatype Task = Task(src: nat, dst: nat, payload: nat, chunk: nat, offset: nat)

  function ChunkCount(total: int): nat {
    if total <= 0 then 0 else (total + CHUNK_BYTES - 1) / CHUNK_BYTES
  }

  function ChunkAt(src: nat, dst: nat, total: int, k: nat): (t: Task)
    requires k < ChunkCount(total)
  {
    var offset := k * CHUNK_BYTES;
    Task(src, dst, if total - offset < CHUNK_BYTES then total - offset else CHUNK_BYTES, k, offset)
  }

  function CellChunks(src: nat, dst: nat, total: int): (tasks: seq<Task>)
    ensures src != dst ==> |tasks| == ChunkCount(total)
  {
    if src == dst then []
    else seq(ChunkCount(total), k requires 0 <= k < ChunkCount(total) => ChunkAt(src, dst, total, k))
  }

  function RowChunks(src: nat, row: seq<int>, n: nat): seq<Task>
    requires n <= |row|
  {
    if n == 0 then [] else RowChunks(src, row, n - 1) + CellChunks(src, n - 1, row[n - 1])
  }

  function MatrixChunks(matrix: seq<seq<int>>, n: nat): seq<Task>
    requires n <= |matrix|
  {
    if n == 0 then [] else MatrixChunks(matrix, n - 1) + RowChunks(n - 1, matrix[n - 1], |matrix[n - 1]|)
  }

  // ------------------------------------------------------------------------- the loops

  // Cuts one entry, advancing offset and chunk until the whole entry is covered.
  method AppendCell(tasks: seq<Task>, src: nat, dst: nat, raw: int) returns (more: seq<Task>)
    ensures more == tasks + CellChunks(src, dst, raw)
  {
    more := tasks;
    if src == dst || raw <= 0 {
      return;
    }
    var offset := 0;
    var chunk := 0;
    while offset < raw
      invariant offset == (if chunk * CHUNK_BYTES < raw then chunk * CHUNK_BYTES else raw)
      invariant 0 <= chunk <= ChunkCount(raw) && (offset < raw <==> chunk < ChunkCount(raw))
      invariant more == tasks + CellChunks(src, dst, raw)[..chunk]
      decreases raw - offset
    {
      var payload := if raw - offset < CHUNK_BYTES then raw - offset else CHUNK_BYTES;
      assert Task(src, dst, payload, chunk, offset) == CellChunks(src, dst, raw)[chunk];
      more := more + [Task(src, dst, payload, chunk, offset)];
      offset := offset + payload;
      chunk := chunk + 1;
    }
  }

  method TasksFromMatrix(matrix: seq<seq<int>>) returns (tasks: seq<Task>)
    ensures tasks == MatrixChunks(matrix, |matrix|)
  {
    hide CellChunks;
    tasks := [];
    for src := 0 to |matrix|
      invariant tasks == MatrixChunks(matrix, src)
    {
      var row := matrix[src];
      ghost var before := tasks;
      for dst := 0 to |row|
        invariant tasks == before + RowChunks(src, row, dst)
      {
        ghost var soFar := tasks;
        tasks := AppendCell(tasks, src, dst, row[dst]);
        assert tasks == before + (RowChunks(src, row, dst) + CellChunks(src, dst, row[dst]));
      }
    }
  }

  // ------------------------------------------------------------------ tiling of an entry

  /** The chunks of an entry start at 0, follow each other without gap, end at the total, and only
      the last one may be short. */
  lemma ChunksTile(src: nat, dst: nat, total: int, k: nat)
    requires src != dst && k < ChunkCount(total)
    ensures var chunks := CellChunks(src, dst, total);
            && 0 < chunks[k].payload <= CHUNK_BYTES
            && chunks[k].chunk == k && chunks[0].offset == 0
            && chunks[k].offset + chunks[k].payload == (if k + 1 < |chunks| then chunks[k + 1].offset else total)
            && (k + 1 < |chunks| ==> chunks[k].payload == CHUNK_BYTES)
  {
  }

  function PayloadOn(tasks: seq<Task>, src: nat, dst: nat, n: nat): nat
    requires n <= |tasks|
  {
    if n == 0 then 0
    else PayloadOn(tasks, src, dst, n - 1) +
         (if tasks[n - 1].src == src && tasks[n - 1].dst == dst then tasks[n - 1].payload else 0)
  }

  function EdgePayload(tasks: seq<Task>, src: nat, dst: nat): nat { PayloadOn(tasks, src, dst, |tasks|) }

  lemma {:induction false} PayloadConcat(a: seq<Task>, b: seq<Task>, src: nat, dst: nat, n: nat)
    requires n <= |a| + |b|
    ensures PayloadOn(a + b, src, dst, n) ==
              if n <= |a| then PayloadOn(a, src, dst, n) else EdgePayload(a, src, dst) + PayloadOn(b, src, dst, n - |a|)
  {
    if n > 0 { PayloadConcat(a, b, src, dst, n - 1); }
  }

  lemma EdgePayloadConcat(a: seq<Task>, b: seq<Task>, src: nat, dst: nat)
    ensures EdgePayload(a + b, src, dst) == EdgePayload(a, src, dst) + EdgePayload(b, src, dst)
  {
    PayloadConcat(a, b, src, dst, |a| + |b|);
  }

  // What an entry contributes: nothing on the diagonal or when not positive.
  function Remote(src: nat, dst: nat, total: int): nat {
    if src == dst || total <= 0 then 0 else total
  }

  lemma {:induction false} CellPayload(src: nat, dst: nat, total: int, s: nat, d: nat, n: nat)
    requires n <= |CellChunks(src, dst, total)|
    ensures PayloadOn(CellChunks(src, dst, total), s, d, n) ==
            if s != src || d != dst then 0
            else if n < ChunkCount(total) then n * CHUNK_BYTES else Remote(src, dst, total)
  {
    if n > 0 {
      CellPayload(src, dst, total, s, d, n - 1);
      ChunksTile(src, dst, total, n - 1);
    }
  }

  lemma CellTotal(src: nat, dst: nat, total: int, s: nat, d: nat)
    ensures EdgePayload(CellChunks(src, dst, total), s, d) ==
              if s == src && d == dst then Remote(src, dst, total) else 0
  {
    CellPayload(src, dst, total, s, d, |CellChunks(src, dst, total)|);
  }

  lemma {:induction false} RowPayload(src: nat, row: seq<int>, n: nat, s: nat, d: nat)
    requires n <= |row|
    ensures EdgePayload(RowChunks(src, row, n), s, d) == if s == src && d < n then Remote(src, d, row[d]) else 0
  {
    hide CellChunks, Remote;
    if n > 0 {
      RowPayload(src, row, n - 1, s, d);
      EdgePayloadConcat(RowChunks(src, row, n - 1), CellChunks(src, n - 1, row[n - 1]), s, d);
      CellTotal(src, n - 1, row[n - 1], s, d);
    }
  }

  /** Adding up the payloads of every edge gives the matrix back, with a zero diagonal. */
  lemma {:induction false} PayloadsRebuildMatrix(matrix: seq<seq<int>>, n: nat, s: nat, d: nat)
    requires n <= |matrix|
    ensures EdgePayload(MatrixChunks(matrix, n), s, d) ==
              if s < n && d < |matrix[s]| then Remote(s, d, matrix[s][d]) else 0
  {
    hide RowChunks, Remote;
    if n > 0 {
      PayloadsRebuildMatrix(matrix, n - 1, s, d);
      EdgePayloadConcat(MatrixChunks(matrix, n - 1), RowChunks(n - 1, matrix[n - 1], |matrix[n - 1]|), s, d);
      RowPayload(n - 1, matrix[n - 1], |matrix[n - 1]|, s, d);
    }
  }

  // ------------------------------------------------------------------ unique identities

  // Order of source, destination and chunk number, which make up a task's identifier.
  predicate Earlier(a: Task, b: Task) {
    a.src < b.src || (a.src == b.src && (a.dst < b.dst || (a.dst == b.dst && a.chunk < b.chunk)))
  }

  predicate Ascending(tasks: seq<Task>) {
    forall i, j | 0 <= i < j < |tasks| :: Earlier(tasks[i], tasks[j])
  }

  predicate AllBefore(a: seq<Task>, b: seq<Task>) {
    forall t, u | t in a && u in b :: Earlier(t, u)
  }

  lemma AscendingConcat(a: seq<Task>, b: seq<Task>)
    requires Ascending(a) && Ascending(b) && AllBefore(a, b)
    ensures Ascending(a + b)
  {
    forall i, j | 0 <= i < j < |a + b|
      ensures Earlier((a + b)[i], (a + b)[j])
    {
      if i < |a| <= j { assert a[i] in a && b[j - |a|] in b; }
    }
  }

  lemma {:induction false} RowMembers(src: nat, row: seq<int>, n: nat, t: Task)
    requires n <= |row| && t in RowChunks(src, row, n)
    ensures t.src == src && t.dst < n
  {
    if t in CellChunks(src, n - 1, row[n - 1]) {
    } else {
      RowMembers(src, row, n - 1, t);
    }
  }

  lemma {:induction false} RowAscending(src: nat, row: seq<int>, n: nat)
    requires n <= |row|
    ensures Ascending(RowChunks(src, row, n))
  {
    if n > 0 {
      RowAscending(src, row, n - 1);
      var before, cell := RowChunks(src, row, n - 1), CellChunks(src, n - 1, row[n - 1]);
      forall t, u | t in before && u in cell
        ensures Earlier(t, u)
      {
        RowMembers(src, row, n - 1, t);
      }
      AscendingConcat(before, cell);
    }
  }

  lemma {:induction false} MatrixMembers(matrix: seq<seq<int>>, n: nat, t: Task)
    requires n <= |matrix| && t in MatrixChunks(matrix, n)
    ensures t.src < n
  {
    hide RowChunks;
    var row := matrix[n - 1];
    if t in RowChunks(n - 1, row, |row|) {
      RowMembers(n - 1, row, |row|, t);
    } else {
      MatrixMembers(matrix, n - 1, t);
    }
  }

  /** Tasks come in strictly ascending order of source, destination and chunk, so no two share an
      identifier. */
  lemma {:induction false} MatrixAscending(matrix: seq<seq<int>>, n: nat)
    requires n <= |matrix|
    ensures Ascending(MatrixChunks(matrix, n))
  {
    hide RowChunks;
    if n > 0 {
      var before, row := MatrixChunks(matrix, n - 1), RowChunks(n - 1, matrix[n - 1], |matrix[n - 1]|);
      MatrixAscending(matrix, n - 1);
      RowAscending(n - 1, matrix[n - 1], |matrix[n - 1]|);
      forall t, u | t in before && u in row
        ensures Earlier(t, u)
      {
        MatrixMembers(matrix, n - 1, t);
        RowMembers(n - 1, matrix[n - 1], |matrix[n - 1]|, u);
      }
      AscendingConcat(before, row);
    }
  }
}
