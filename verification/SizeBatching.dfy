/** Grouping files into job runs (airflow/dags/dag_common.py). */
module SizeBatching {
  import opened Basics

  /** A file name and its size in bytes. */
  datatype File = File(name: string, bytes: nat)

  function Bytes(files: seq<File>): nat {
    if files == [] then 0 else Bytes(files[..|files| - 1]) + files[|files| - 1].bytes
  }

  function Flatten(batches: seq<seq<File>>): seq<File> {
    if batches == [] then [] else Flatten(batches[..|batches| - 1]) + batches[|batches| - 1]
  }

  /** Within both limits, or a single file that is too large on its own. */
  predicate Fits(batch: seq<File>, maxFiles: nat, maxBytes: nat) {
    |batch| == 1 || (1 < |batch| <= maxFiles && Bytes(batch) <= maxBytes)
  }

  ghost predicate AllFit(batches: seq<seq<File>>, maxFiles: nat, maxBytes: nat) {
    forall b | b in batches :: Fits(b, maxFiles, maxBytes)
  }

  /** A file that does not go into the batch being filled. */
  predicate StartsNew(current: seq<File>, f: File, maxFiles: nat, maxBytes: nat) {
    current != [] && (|current| >= maxFiles || Bytes(current) + f.bytes > maxBytes)
  }

  /** No batch could have taken the first file of the next one. */
  predicate Greedy(batches: seq<seq<File>>, maxFiles: nat, maxBytes: nat) {
    var n := |batches|;
    n <= 1 || (batches[n - 1] != [] && StartsNew(batches[n - 2], batches[n - 1][0], maxFiles, maxBytes)
               && Greedy(batches[..n - 1], maxFiles, maxBytes))
  }

  ghost predicate Batching(batches: seq<seq<File>>, files: seq<File>, maxFiles: nat, maxBytes: nat) {
    Flatten(batches) == files && AllFit(batches, maxFiles, maxBytes)
  }

  function With(batches: seq<seq<File>>, current: seq<File>): seq<seq<File>> {
    if current == [] then batches else batches + [current]
  }

  // ---------------------------------------------------------------- the loop

  lemma BytesAppend(files: seq<File>, f: File)
    ensures Bytes(files + [f]) == Bytes(files) + f.bytes
  {
    assert (files + [f])[..|files|] == files;
  }

  lemma FlattenAppend(batches: seq<seq<File>>, b: seq<File>)
    ensures Flatten(batches + [b]) == Flatten(batches) + b
  {
    assert (batches + [b])[..|batches|] == batches;
  }

  /** The batches so far, and the one being filled, in the loop of ChunkFilesBySize. */
  ghost predicate SoFar(done: seq<seq<File>>, current: seq<File>, files: seq<File>, maxFiles: nat, maxBytes: nat) {
    && (current == [] ==> done == [])
    && Batching(With(done, current), files, maxFiles, maxBytes) && Greedy(With(done, current), maxFiles, maxBytes)
  }

  lemma StepNew(done: seq<seq<File>>, current: seq<File>, f: File, files: seq<File>, maxFiles: nat, maxBytes: nat)
    requires SoFar(done, current, files, maxFiles, maxBytes) && StartsNew(current, f, maxFiles, maxBytes)
    ensures SoFar(done + [current], [f], files + [f], maxFiles, maxBytes)
  {
    FlattenAppend(done + [current], [f]);
    assert (done + [current] + [[f]])[..|done| + 1] == done + [current];
  }

  lemma StepGrow(done: seq<seq<File>>, current: seq<File>, f: File, files: seq<File>, maxFiles: nat, maxBytes: nat)
    requires SoFar(done, current, files, maxFiles, maxBytes) && !StartsNew(current, f, maxFiles, maxBytes)
    ensures SoFar(done, current + [f], files + [f], maxFiles, maxBytes)
  {
    BytesAppend(current, f);
    FlattenAppend(done, current + [f]);
    FlattenAppend(done, current);
    assert Flatten(done) + (current + [f]) == files + [f];
    assert (done + [current + [f]])[..|done|] == done && (done + [current])[..|done|] == done;
    forall b | b in done + [current + [f]] ensures Fits(b, maxFiles, maxBytes) {
      if b in done {
        assert b in With(done, current);
      } else if current != [] {
        assert current in With(done, current);
      }
    }
  }

  method ChunkFilesBySize(files: seq<File>, maxFiles: int, maxBytes: int) returns (batches: Option<seq<seq<File>>>)
    ensures batches.None? <==> maxFiles < 1 || maxBytes < 1
    ensures batches.Some? ==> Batching(batches.value, files, maxFiles, maxBytes) && Greedy(batches.value, maxFiles, maxBytes)
  {
    if maxFiles < 1 || maxBytes < 1 {
      return None;
    }
    hide SoFar, Bytes, With, StartsNew;
    var done: seq<seq<File>>, current: seq<File>, currentBytes := [], [], 0;
    NothingToDo(maxFiles, maxBytes);
    for i := 0 to |files|
      invariant currentBytes == Bytes(current) && SoFar(done, current, files[..i], maxFiles, maxBytes)
    {
      var f := files[i];
      assert files[..i + 1] == files[..i] + [f];
      NewOrNot(current, f, maxFiles, maxBytes);
      BytesAppend(current, f);
      BytesAppend([], f);
      assert [] + [f] == [f];
      if current != [] && (|current| >= maxFiles || currentBytes + f.bytes > maxBytes) {
        StepNew(done, current, f, files[..i], maxFiles, maxBytes);
        done, current, currentBytes := done + [current], [], 0;
      } else {
        StepGrow(done, current, f, files[..i], maxFiles, maxBytes);
      }
      current := current + [f];
      currentBytes := currentBytes + f.bytes;
    }
    assert files[..|files|] == files;
    Finish(done, current, files, maxFiles, maxBytes);
    return Some(With(done, current));
  }

  lemma NewOrNot(current: seq<File>, f: File, maxFiles: nat, maxBytes: nat)
    ensures StartsNew(current, f, maxFiles, maxBytes)
       <==> current != [] && (|current| >= maxFiles || Bytes(current) + f.bytes > maxBytes)
  {
  }

  lemma Finish(done: seq<seq<File>>, current: seq<File>, files: seq<File>, maxFiles: nat, maxBytes: nat)
    requires SoFar(done, current, files, maxFiles, maxBytes)
    ensures Batching(With(done, current), files, maxFiles, maxBytes) && Greedy(With(done, current), maxFiles, maxBytes)
  {
  }

  lemma NothingToDo(maxFiles: nat, maxBytes: nat)
    ensures SoFar([], [], [], maxFiles, maxBytes) && Bytes([]) == 0
  {
  }

  // ---------------------------------------------------------------- why it is optimal

  /** Where batch k starts in the file list. */
  function Start(batches: seq<seq<File>>, k: nat): nat
    requires k <= |batches|
  {
    |Flatten(batches[..k])|
  }

  lemma {:induction false} BatchIsSlice(batches: seq<seq<File>>, k: nat)
    requires k < |batches|
    ensures Start(batches, k + 1) == Start(batches, k) + |batches[k]| <= |Flatten(batches)|
    ensures Flatten(batches)[Start(batches, k)..Start(batches, k + 1)] == batches[k]
    decreases |batches|
  {
    var n := |batches| - 1;
    assert batches[..k + 1][..k] == batches[..k];
    if k < n {
      BatchIsSlice(batches[..n], k);
      assert batches[..n][..k] == batches[..k] && batches[..n][..k + 1] == batches[..k + 1];
    } else {
      assert batches[..k + 1] == batches;
    }
  }

  lemma {:induction false} GreedyAt(batches: seq<seq<File>>, maxFiles: nat, maxBytes: nat, k: nat)
    requires Greedy(batches, maxFiles, maxBytes) && k + 1 < |batches|
    ensures batches[k + 1] != [] && StartsNew(batches[k], batches[k + 1][0], maxFiles, maxBytes)
    decreases |batches|
  {
    if k + 2 < |batches| {
      GreedyAt(batches[..|batches| - 1], maxFiles, maxBytes, k);
    }
  }

  lemma {:induction false} BytesSplit(a: seq<File>, b: seq<File>)
    ensures Bytes(a + b) == Bytes(a) + Bytes(b)
    decreases |b|
  {
    if b == [] {
      assert a + b == a;
    } else {
      assert (a + b)[..|a + b| - 1] == a + b[..|b| - 1];
      BytesSplit(a, b[..|b| - 1]);
    }
  }

  /** A file that a fitting batch holds together with what precedes it does not start a new one. */
  lemma PartsFit(batch: seq<File>, from: nat, last: nat, maxFiles: nat, maxBytes: nat)
    requires Fits(batch, maxFiles, maxBytes) && from < last < |batch|
    ensures !StartsNew(batch[from..last], batch[last], maxFiles, maxBytes)
  {
    hide Bytes;
    var part := batch[from..last];
    BytesAppend(part, batch[last]);
    BytesSplit(batch[..from], part + [batch[last]]);
    BytesSplit(batch[..last + 1], batch[last + 1..]);
    assert batch[..from] + (part + [batch[last]]) == batch[..last + 1];
    assert batch[..last + 1] + batch[last + 1..] == batch;
  }

  lemma SliceOfSlice(files: seq<File>, b: nat, b': nat, g: nat, g': nat)
    requires b <= g <= g' < b' <= |files|
    ensures files[b..b'][g - b..g' - b] == files[g..g'] && files[b..b'][g' - b] == files[g']
  {
    var batch := files[b..b'];
    assert |batch[g - b..g' - b]| == |files[g..g']|;
    forall i | 0 <= i < g' - g ensures batch[g - b..g' - b][i] == files[g..g'][i] {
      assert batch[g - b..g' - b][i] == batch[g - b + i] == files[g + i];
    }
  }

  lemma NothingPlaced(batches: seq<seq<File>>)
    ensures Start(batches, 0) == 0 && Start(batches, |batches|) == |Flatten(batches)|
  {
    assert batches[..|batches|] == batches;
  }

  /** Greedy stays ahead: after as many batches it has placed at least as many files as any other. */
  lemma {:induction false} GreedyStaysAhead(
    greedy: seq<seq<File>>, other: seq<seq<File>>, files: seq<File>, maxFiles: nat, maxBytes: nat, k: nat)
    requires Batching(greedy, files, maxFiles, maxBytes) && Greedy(greedy, maxFiles, maxBytes)
    requires Batching(other, files, maxFiles, maxBytes) && k <= |greedy| && k <= |other|
    ensures Start(other, k) <= Start(greedy, k)
    decreases k
  {
    hide Start, Flatten, Bytes, StartsNew, Greedy;
    if k == 0 {
      NothingPlaced(other);
    } else {
      GreedyStaysAhead(greedy, other, files, maxFiles, maxBytes, k - 1);
      BatchIsSlice(greedy, k - 1);
      BatchIsSlice(other, k - 1);
      assert other[k - 1] in other && greedy[k - 1] in greedy;
      var b, b', g, g' := Start(other, k - 1), Start(other, k), Start(greedy, k - 1), Start(greedy, k);
      if g' < b' {
        SliceOfSlice(files, b, b', g, g');
        PartsFit(other[k - 1], g - b, g' - b, maxFiles, maxBytes);
        EndsEarly(greedy, files, maxFiles, maxBytes, k, b');
      }
    }
  }

  /** A greedy batch that ends before the files do was closed by the next file. */
  lemma EndsEarly(greedy: seq<seq<File>>, files: seq<File>, maxFiles: nat, maxBytes: nat, k: nat, beyond: nat)
    requires Batching(greedy, files, maxFiles, maxBytes) && Greedy(greedy, maxFiles, maxBytes)
    requires 0 < k <= |greedy| && Start(greedy, k) < beyond <= |files|
    ensures Start(greedy, k - 1) < Start(greedy, k)
    ensures StartsNew(files[Start(greedy, k - 1)..Start(greedy, k)], files[Start(greedy, k)], maxFiles, maxBytes)
  {
    BatchIsSlice(greedy, k - 1);
    assert greedy[k - 1] in greedy;
    assert greedy[..|greedy|] == greedy;
    if k < |greedy| {
      BatchIsSlice(greedy, k);
      GreedyAt(greedy, maxFiles, maxBytes, k - 1);
    }
  }

  /** Main result: order and content are kept, every batch respects both limits unless it is one
      oversized file, and no contiguous batching under the limits has fewer batches. */
  lemma GreedyIsOptimal(greedy: seq<seq<File>>, other: seq<seq<File>>, files: seq<File>, maxFiles: nat, maxBytes: nat)
    requires Batching(greedy, files, maxFiles, maxBytes) && Greedy(greedy, maxFiles, maxBytes)
    requires Batching(other, files, maxFiles, maxBytes)
    ensures |greedy| <= |other|
  {
    if |other| < |greedy| {
      var n := |other|;
      assert other[..n] == other && greedy[n] in greedy;
      BatchIsSlice(greedy, n);
      GreedyStaysAhead(greedy, other, files, maxFiles, maxBytes, n);
    }
  }

  // ---------------------------------------------------------------- fixed-size batches

  /** chunk_list, and build_batches of the catch-up job: slices of batchSize in the given order. */
  function ChunkList<T>(items: seq<T>, batchSize: nat): seq<seq<T>>
    requires batchSize >= 1
  {
    if items == [] then []
    else if |items| <= batchSize then [items]
    else [items[..batchSize]] + ChunkList(items[batchSize..], batchSize)
  }

  function Join<T>(batches: seq<seq<T>>): seq<T> {
    if batches == [] then [] else batches[0] + Join(batches[1..])
  }

  /** Nothing is lost or reordered, and only the last batch may be short. */
  lemma {:induction false} ChunkListKeepsOrder<T>(items: seq<T>, batchSize: nat)
    requires batchSize >= 1
    ensures Join(ChunkList(items, batchSize)) == items
    ensures forall i | 0 <= i < |ChunkList(items, batchSize)| ::
      if i < |ChunkList(items, batchSize)| - 1 then |ChunkList(items, batchSize)[i]| == batchSize
      else 1 <= |ChunkList(items, batchSize)[i]| <= batchSize
    decreases |items|
  {
    if |items| > batchSize {
      var rest := items[batchSize..];
      ChunkListKeepsOrder(rest, batchSize);
      var all, tail := ChunkList(items, batchSize), ChunkList(rest, batchSize);
      assert all[1..] == tail;
      assert items == items[..batchSize] + rest;
      assert forall i | 0 < i < |all| :: all[i] == tail[i - 1];
    } else if items != [] {
      assert Join([items][1..]) == [];
    }
  }
}
