/**
  * Work partitioning of the dispatcher: the row labels are cut into contiguous
  * chunks of max(1, N // MAX_WORKERS) labels, and each chunk is classified
  * row by row (process_batch).
  */
module Batch {
  import opened Text
  import opened Settings
  import opened Classify
  import opened Frames

  /** chunk_size = max(1, N // workers); floor division, so a pool of W workers
    * can receive more than W chunks. */
  function ChunkSize(n: nat, workers: nat): (size: nat)
    requires workers >= 1
    ensures size >= 1
  {
    if n / workers < 1 then 1 else n / workers
  }

  /** The slices labels[i:i + size] for i in range(0, N, size). */
  function Chunks<T>(s: seq<T>, size: nat): seq<seq<T>>
    requires size >= 1
    decreases |s|
  {
    if s == [] then []
    else if |s| <= size then [s]
    else [s[..size]] + Chunks(s[size..], size)
  }

  function Flatten<T>(ss: seq<seq<T>>): seq<T>
  {
    if ss == [] then [] else ss[0] + Flatten(ss[1..])
  }

  /** The submission loop of main: one chunk of consecutive labels per task. */
  method Partition(labels: seq<Label>, workers: nat) returns (chunks: seq<seq<Label>>)
    requires workers >= 1
    ensures chunks == Chunks(labels, ChunkSize(|labels|, workers))
  {
    var size := ChunkSize(|labels|, workers);
    chunks := [];
    var i := 0;
    while i < |labels|
      invariant i < |labels| ==> chunks + Chunks(labels[i..], size) == Chunks(labels, size)
      invariant i >= |labels| ==> chunks == Chunks(labels, size)
    {
      var end := if i + size < |labels| then i + size else |labels|;
      ChunksFirst(labels[i..], size);
      assert labels[i..][..end - i] == labels[i..end];
      assert labels[i..][end - i..] == labels[end..];
      chunks := chunks + [labels[i..end]];
      i := i + size;
      assert end == |labels| ==> Chunks(labels[end..], size) == [];
    }
  }

  /** The first chunk is the first size labels, or all of them when fewer. */
  lemma ChunksFirst<T>(s: seq<T>, size: nat)
    requires size >= 1 && s != []
    ensures var k := if size < |s| then size else |s|;
      Chunks(s, size) == [s[..k]] + Chunks(s[k..], size)
  {
    if |s| <= size {
      assert s[..|s|] == s && s[|s|..] == [];
    }
  }

  // ---------------------------------------------------------------------------
  // Coverage of the partition

  /** The chunks put back together give the labels exactly: nothing lost,
    * nothing repeated, order kept. */
  lemma {:induction false} ChunksFlatten<T>(s: seq<T>, size: nat)
    requires size >= 1
    ensures Flatten(Chunks(s, size)) == s
    decreases |s|
  {
    if |s| > size {
      ChunksFlatten(s[size..], size);
      assert s[..size] + s[size..] == s;
    }
  }

  /** Every chunk is non-empty and at most size long; all but the last are
    * exactly size long; there are ceil(N / size) of them, none for N = 0. */
  lemma {:induction false} ChunksShape<T>(s: seq<T>, size: nat)
    requires size >= 1
    ensures var cs := Chunks(s, size);
      && |s| <= |cs| * size
      && (cs != [] ==> (|cs| - 1) * size < |s|)
      && (cs == [] <==> s == [])
      && (forall i :: 0 <= i < |cs| ==> 0 < |cs[i]| <= size)
      && (forall i :: 0 <= i < |cs| - 1 ==> |cs[i]| == size)
    decreases |s|
  {
    if |s| > size {
      ChunksShape(s[size..], size);
      var rest := Chunks(s[size..], size);
      assert Chunks(s, size) == [s[..size]] + rest;
      assert (|rest| + 1) * size == |rest| * size + size;
      assert |rest| * size == (|rest| - 1) * size + size;
    }
  }

  /** Chunk i holds the labels at positions i * size up to (i + 1) * size, cut at N. */
  lemma {:induction false} ChunkAt<T>(s: seq<T>, size: nat, i: nat)
    requires size >= 1 && i < |Chunks(s, size)|
    ensures i * size < |s|
    ensures Chunks(s, size)[i] == s[i * size .. if (i + 1) * size < |s| then (i + 1) * size else |s|]
    decreases |s|
  {
    if |s| > size && i > 0 {
      var rest := s[size..];
      assert Chunks(s, size) == [s[..size]] + Chunks(rest, size);
      ChunkAt(rest, size, i - 1);
      var lo := (i - 1) * size;
      var hi := if i * size < |rest| then i * size else |rest|;
      MulSucc(i - 1, size);
      MulSucc(i, size);
      assert Chunks(s, size)[i] == rest[lo..hi];
      assert rest[lo..hi] == s[lo + size..hi + size];
    }
  }

  /** With the configured four workers, ten rows give chunks of two and five
    * tasks: more tasks than workers. */
  lemma TenRowsFourWorkers(labels: seq<Label>)
    requires |labels| == 10
    ensures ChunkSize(10, Default.maxWorkers) == 2
    ensures |Chunks(labels, 2)| == 5
  {
    ChunksShape(labels, 2);
  }

  /** However the rows divide, at most 2 * workers - 1 tasks are submitted. */
  lemma ChunkCountBound<T>(s: seq<T>, workers: nat)
    requires workers >= 1
    ensures |Chunks(s, ChunkSize(|s|, workers))| <= 2 * workers - 1
  {
    var size := ChunkSize(|s|, workers);
    ChunksShape(s, size);
    if Chunks(s, size) != [] {
      CountFromShape(|Chunks(s, size)| - 1, |s|, workers);
    }
  }

  /** k full chunks of max(1, n // w) that stay below n number at most 2w - 2. */
  lemma CountFromShape(k: nat, n: nat, w: nat)
    requires w >= 1 && k * ChunkSize(n, w) < n
    ensures k + 1 <= 2 * w - 1
  {
    var size := ChunkSize(n, w);
    if n < w {
      assert size == 1;
      assert k * 1 == k;
    } else {
      FloorChunkFits(n, w);
      assert size == n / w;
      assert size * (2 * w - 1) == (2 * w - 1) * size;
      MulLessCancel(k, 2 * w - 1, size);
    }
  }

  /** With q = n // w >= 1, the n rows fit in 2w - 1 chunks of q. */
  lemma FloorChunkFits(n: nat, w: nat)
    requires 1 <= w <= n
    ensures n / w >= 1 && n <= (n / w) * (2 * w - 1)
  {
    var q, r := n / w, n % w;
    assert n == w * q + r && r < w;
    assert q >= 1;
    MulMono(w - 1, 1, q);
    Distrib(q, w);
  }

  lemma MulMono(a: nat, b: nat, c: nat)
    requires b <= c
    ensures a * b <= a * c
  {
  }

  lemma Distrib(q: nat, w: nat)
    requires w >= 1
    ensures q * (2 * w - 1) == w * q + (w - 1) * q
  {
  }

  lemma MulSucc(a: nat, b: nat)
    ensures a * b + b == (a + 1) * b
  {
  }

  lemma MulLessCancel(a: nat, b: nat, q: nat)
    requires q >= 1 && a * q < b * q
    ensures a < b
  {
  }

  // ---------------------------------------------------------------------------
  // process_batch

  /** A review cell of the review column: a missing entry is NaN. */
  function ReviewAt(reviews: Column, l: Label): Option<string>
  {
    if l in reviews then Some(reviews[l]) else None
  }

  /** The record classify_review gives row l, when the backend answers row l's
    * attempts as oracle(l) does. */
  function RecordFor(cfg: Config, u: Unicode, reviews: Column, oracle: Label -> nat -> Outcome, l: Label): Record
  {
    Classification(cfg, u, ReviewAt(reviews, l), oracle(l)).record
  }

  /** process_batch: each row of the chunk classified in order, paired with its label. */
  method ProcessBatch(cfg: Config, u: Unicode, chunk: seq<Label>, reviews: Column, oracle: Label -> nat -> Outcome)
    returns (results: seq<(Label, Record)>)
    ensures |results| == |chunk|
    ensures forall i :: 0 <= i < |chunk| ==> results[i] == (chunk[i], RecordFor(cfg, u, reviews, oracle, chunk[i]))
  {
    results := [];
    for i := 0 to |chunk|
      invariant |results| == i
      invariant forall j :: 0 <= j < i ==> results[j] == (chunk[j], RecordFor(cfg, u, reviews, oracle, chunk[j]))
    {
      var idx := chunk[i];
      var classification, _, _ := ClassifyReview(cfg, u, ReviewAt(reviews, idx), oracle(idx));
      results := results + [(idx, classification)];
    }
  }
}
