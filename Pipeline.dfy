/**
  * The classification stage of main: the category columns of the processed
  * rows start empty, the chunk results are written back cell by cell in
  * whatever order the chunks complete while a progress counter accumulates
  * their sizes, and the processed columns are then copied into the full table
  * by row label.
  */
module Pipeline {
  import opened Text
  import opened Settings
  import opened Classify
  import opened Frames
  import opened Batch

  // ---------------------------------------------------------------------------
  // Completion orders

  function Range(n: nat): (r: seq<nat>)
    ensures |r| == n && forall i :: 0 <= i < n ==> r[i] == i
  {
    if n == 0 then [] else Range(n - 1) + [n - 1]
  }

  /** The order in which as_completed yields the n futures: each exactly once. */
  predicate IsPermutation(order: seq<nat>, n: nat)
  {
    multiset(order) == multiset(Range(n))
  }

  lemma PermutationMembers(order: seq<nat>, n: nat)
    requires IsPermutation(order, n)
    ensures forall k :: 0 <= k < |order| ==> order[k] < n
    ensures forall b :: 0 <= b < n ==> b in order
  {
    forall k | 0 <= k < |order| ensures order[k] < n {
      assert order[k] in multiset(order);
      assert order[k] in Range(n);
    }
    forall b | 0 <= b < n ensures b in order {
      assert Range(n)[b] == b;
      assert b in multiset(Range(n));
    }
  }

  /** The batch results in completion order. */
  function Permute<T>(xs: seq<T>, order: seq<nat>): (r: seq<T>)
    requires forall k :: 0 <= k < |order| ==> order[k] < |xs|
    ensures |r| == |order| && forall k :: 0 <= k < |order| ==> r[k] == xs[order[k]]
  {
    seq(|order|, k requires 0 <= k < |order| => xs[order[k]])
  }

  // ---------------------------------------------------------------------------
  // Flatten

  lemma {:induction false} FlattenConcat<T>(a: seq<seq<T>>, b: seq<seq<T>>)
    ensures Flatten(a + b) == Flatten(a) + Flatten(b)
  {
    if a != [] {
      assert (a + b)[1..] == a[1..] + b;
      FlattenConcat(a[1..], b);
    } else {
      assert a + b == b;
    }
  }

  /** x occurs in the flattened sequence exactly when it occurs in one of the parts. */
  lemma {:induction false} FlattenMember<T>(ss: seq<seq<T>>, x: T)
    ensures x in Flatten(ss) <==> exists b, i :: 0 <= b < |ss| && 0 <= i < |ss[b]| && ss[b][i] == x
  {
    if ss != [] {
      FlattenMember(ss[1..], x);
      assert Flatten(ss) == ss[0] + Flatten(ss[1..]);
      if x in ss[0] {
        var i :| 0 <= i < |ss[0]| && ss[0][i] == x;
        assert ss[0][i] == x;
      }
      if exists b, i :: 0 <= b < |ss| && 0 <= i < |ss[b]| && ss[b][i] == x {
        var b, i :| 0 <= b < |ss| && 0 <= i < |ss[b]| && ss[b][i] == x;
        if b > 0 {
          assert ss[1..][b - 1][i] == x;
        }
      }
      if exists b, i :: 0 <= b < |ss[1..]| && 0 <= i < |ss[1..][b]| && ss[1..][b][i] == x {
        var b, i :| 0 <= b < |ss[1..]| && 0 <= i < |ss[1..][b]| && ss[1..][b][i] == x;
        assert ss[b + 1][i] == x;
      }
    }
  }

  /** Parts of pairwise equal lengths flatten to equal lengths. */
  lemma {:induction false} FlattenSameShape<A, B>(xs: seq<seq<A>>, ys: seq<seq<B>>)
    requires |xs| == |ys| && forall i :: 0 <= i < |xs| ==> |xs[i]| == |ys[i]|
    ensures |Flatten(xs)| == |Flatten(ys)|
  {
    if xs != [] {
      FlattenSameShape(xs[1..], ys[1..]);
    }
  }

  /** The completed count of two runs of batches is the sum of their counts. */
  lemma PermutedLengthSplit<T>(xs: seq<seq<T>>, a: seq<nat>, b: seq<nat>)
    requires forall k :: 0 <= k < |a| ==> a[k] < |xs|
    requires forall k :: 0 <= k < |b| ==> b[k] < |xs|
    ensures |Flatten(Permute(xs, a + b))| == |Flatten(Permute(xs, a))| + |Flatten(Permute(xs, b))|
  {
    assert Permute(xs, a + b) == Permute(xs, a) + Permute(xs, b);
    FlattenConcat(Permute(xs, a), Permute(xs, b));
  }

  lemma PermutedSingle<T>(xs: seq<seq<T>>, k: nat)
    requires k < |xs|
    ensures |Flatten(Permute(xs, [k]))| == |xs[k]|
  {
    assert Permute(xs, [k]) == [xs[k]];
    assert Flatten([xs[k]]) == xs[k] + Flatten([]);
  }

  /** Every entry of the order names one of n batches. */
  predicate Within(o: seq<nat>, n: nat)
  {
    forall k :: 0 <= k < |o| ==> o[k] < n
  }

  /** The order with entry j taken out. */
  function Remove(o: seq<nat>, j: nat): (r: seq<nat>)
    requires j < |o|
    ensures |r| == |o| - 1
  {
    o[..j] + o[j + 1..]
  }

  /** Taking entry j out of an order removes one occurrence of it and keeps
    * every other entry. */
  lemma RemoveFacts(o: seq<nat>, j: nat, n: nat)
    requires j < |o| && Within(o, n)
    ensures multiset(Remove(o, j)) == multiset(o) - multiset{o[j]}
    ensures Within(Remove(o, j), n)
  {
    assert o == o[..j] + [o[j]] + o[j + 1..];
    var rest := Remove(o, j);
    forall k | 0 <= k < |rest| ensures rest[k] < n {
      if k < j {
        assert rest[k] == o[k];
      } else {
        assert rest[k] == o[k + 1];
      }
    }
  }

  /** Taking batch o[j] out of the order takes its size off the count. */
  lemma RemovedLength<T>(xs: seq<seq<T>>, o: seq<nat>, j: nat)
    requires Within(o, |xs|) && j < |o|
    requires Within(Remove(o, j), |xs|)
    ensures |Flatten(Permute(xs, o))| == |xs[o[j]]| + |Flatten(Permute(xs, Remove(o, j)))|
  {
    var k := o[j];
    assert o == o[..j] + ([k] + o[j + 1..]);
    PermutedLengthSplit(xs, o[..j], [k] + o[j + 1..]);
    PermutedLengthSplit(xs, [k], o[j + 1..]);
    PermutedLengthSplit(xs, o[..j], o[j + 1..]);
    PermutedSingle(xs, k);
  }

  /** The entry at the front of one order occurs somewhere in any order with
    * the same entries. */
  lemma FindEntry(o1: seq<nat>, o2: seq<nat>) returns (j: nat)
    requires o1 != [] && multiset(o1) == multiset(o2)
    ensures j < |o2| && o2[j] == o1[0]
  {
    assert o1[0] in multiset(o1);
    assert o1[0] in o2;
    j :| 0 <= j < |o2| && o2[j] == o1[0];
  }

  /** Reordering the parts keeps the total length: completed ends at the same
    * count whatever the completion order. */
  lemma {:induction false} PermuteFlattenLength<T>(xs: seq<seq<T>>, o1: seq<nat>, o2: seq<nat>)
    requires Within(o1, |xs|) && Within(o2, |xs|)
    requires multiset(o1) == multiset(o2)
    ensures |Flatten(Permute(xs, o1))| == |Flatten(Permute(xs, o2))|
    decreases |o1|
  {
    if o1 == [] {
      assert |o2| == |multiset(o2)| == 0;
    } else {
      var j := FindEntry(o1, o2);
      RemoveFacts(o1, 0, |xs|);
      RemoveFacts(o2, j, |xs|);
      PermuteFlattenLength(xs, Remove(o1, 0), Remove(o2, j));
      RemovedLength(xs, o1, 0);
      RemovedLength(xs, o2, j);
    }
  }

  /** In any completion order the batches together hold as many results as in
    * submission order. */
  lemma CompletedTotal<T>(xs: seq<seq<T>>, order: seq<nat>)
    requires IsPermutation(order, |xs|)
    ensures forall k :: 0 <= k < |order| ==> order[k] < |xs|
    ensures |Flatten(Permute(xs, order))| == |Flatten(xs)|
  {
    PermutationMembers(order, |xs|);
    PermuteFlattenLength(xs, order, Range(|xs|));
    assert Permute(xs, Range(|xs|)) == xs;
  }

  // ---------------------------------------------------------------------------
  // Writing results into the category columns

  /** df.at[l, cat] = rec.get(cat, '') for the categories in cats. */
  function WriteCells(cols: Columns, l: Label, rec: Record, cats: seq<string>): Columns
  {
    map name | name in cols :: if name in cats then cols[name][l := Get(rec, name)] else cols[name]
  }

  /** One result row written into every category column. */
  function WriteRow(cols: Columns, l: Label, rec: Record): Columns
  {
    WriteCells(cols, l, rec, Categories)
  }

  /** The result rows written in sequence. */
  function WritePairs(cols: Columns, pairs: seq<(Label, Record)>): Columns
  {
    if pairs == [] then cols
    else
      var last := pairs[|pairs| - 1];
      WriteRow(WritePairs(cols, pairs[..|pairs| - 1]), last.0, last.1)
  }

  function LabelsOf(pairs: seq<(Label, Record)>): set<Label>
  {
    set p | p in pairs :: p.0
  }

  /** Every result row carries the record that rec assigns to its label. */
  predicate Consistent(pairs: seq<(Label, Record)>, rec: Label -> Record)
  {
    forall i :: 0 <= i < |pairs| ==> pairs[i].1 == rec(pairs[i].0)
  }

  /** The category columns with the rows in labels set from rec. */
  function Overlay(cols: Columns, labels: set<Label>, rec: Label -> Record): Columns
  {
    map name | name in cols ::
      if name in Categories then cols[name] + (map l | l in labels :: Get(rec(l), name)) else cols[name]
  }

  lemma {:induction false} WritePairsConcat(cols: Columns, a: seq<(Label, Record)>, b: seq<(Label, Record)>)
    ensures WritePairs(cols, a + b) == WritePairs(WritePairs(cols, a), b)
    decreases |b|
  {
    if b == [] {
      assert a + b == a;
    } else {
      assert (a + b)[..|a + b| - 1] == a + b[..|b| - 1];
      WritePairsConcat(cols, a, b[..|b| - 1]);
    }
  }

  /** Writing the record of one more label into an overlaid column. */
  lemma ColumnStep(c: Column, labels: set<Label>, l: Label, rec: Label -> Record, name: string)
    ensures (c + (map x | x in labels :: Get(rec(x), name)))[l := Get(rec(l), name)]
         == c + (map x | x in labels + {l} :: Get(rec(x), name))
  {
  }

  /** Writing one more label's record onto an overlay extends the overlay. */
  lemma OverlayStep(cols: Columns, labels: set<Label>, l: Label, rec: Label -> Record)
    ensures WriteRow(Overlay(cols, labels, rec), l, rec(l)) == Overlay(cols, labels + {l}, rec)
  {
    var before := Overlay(cols, labels, rec);
    var after := Overlay(cols, labels + {l}, rec);
    forall name | name in before && name in Categories
      ensures before[name][l := Get(rec(l), name)] == after[name]
    {
      ColumnStep(cols[name], labels, l, rec, name);
    }
  }

  /** The cells written depend only on which labels arrived, not on the order in
    * which they arrived, when every label carries one record. */
  lemma {:induction false} WritePairsOverlay(cols: Columns, pairs: seq<(Label, Record)>, rec: Label -> Record)
    requires Consistent(pairs, rec)
    ensures WritePairs(cols, pairs) == Overlay(cols, LabelsOf(pairs), rec)
    decreases |pairs|
  {
    if pairs == [] {
      assert LabelsOf(pairs) == {};
      forall name | name in cols && name in Categories
        ensures cols[name] + (map l | l in {} :: Get(rec(l), name)) == cols[name]
      {
      }
    } else {
      var init := pairs[..|pairs| - 1];
      var last := pairs[|pairs| - 1];
      assert Consistent(init, rec);
      WritePairsOverlay(cols, init, rec);
      assert pairs == init + [last];
      assert LabelsOf(pairs) == LabelsOf(init) + {last.0};
      assert last.1 == rec(last.0);
      OverlayStep(cols, LabelsOf(init), last.0, rec);
    }
  }

  /** Overlaying the same results again changes nothing: merging is idempotent. */
  lemma OverlayIdempotent(cols: Columns, labels: set<Label>, rec: Label -> Record)
    ensures Overlay(Overlay(cols, labels, rec), labels, rec) == Overlay(cols, labels, rec)
  {
    var once := Overlay(cols, labels, rec);
    forall name | name in once && name in Categories
      ensures once[name] + (map l | l in labels :: Get(rec(l), name)) == once[name]
    {
    }
  }

  /** Every result of a batch that completes is a result of some batch. */
  lemma PermutedIn<T>(batches: seq<seq<T>>, order: seq<nat>, p: T)
    requires forall k :: 0 <= k < |order| ==> order[k] < |batches|
    requires p in Flatten(Permute(batches, order))
    ensures p in Flatten(batches)
  {
    var permuted := Permute(batches, order);
    FlattenMember(permuted, p);
    var b, j :| 0 <= b < |permuted| && 0 <= j < |permuted[b]| && permuted[b][j] == p;
    assert batches[order[b]][j] == p;
    FlattenMember(batches, p);
  }

  /** Every result of every batch arrives when each batch completes once. */
  lemma InPermuted<T>(batches: seq<seq<T>>, order: seq<nat>, p: T)
    requires forall k :: 0 <= k < |order| ==> order[k] < |batches|
    requires forall b :: 0 <= b < |batches| ==> b in order
    requires p in Flatten(batches)
    ensures p in Flatten(Permute(batches, order))
  {
    var permuted := Permute(batches, order);
    FlattenMember(batches, p);
    var b, j :| 0 <= b < |batches| && 0 <= j < |batches[b]| && batches[b][j] == p;
    assert b in order;
    var k :| 0 <= k < |order| && order[k] == b;
    assert permuted[k] == batches[b];
    assert 0 <= k < |permuted| && 0 <= j < |permuted[k]| && permuted[k][j] == p;
    FlattenMember(permuted, p);
  }

  /** The labels of the batch results do not depend on the completion order. */
  lemma PermutedLabels(batches: seq<seq<(Label, Record)>>, order: seq<nat>)
    requires IsPermutation(order, |batches|)
    ensures forall k :: 0 <= k < |order| ==> order[k] < |batches|
    ensures LabelsOf(Flatten(Permute(batches, order))) == LabelsOf(Flatten(batches))
  {
    PermutationMembers(order, |batches|);
    forall p | p in Flatten(Permute(batches, order)) ensures p in Flatten(batches) {
      PermutedIn(batches, order, p);
    }
    forall p | p in Flatten(batches) ensures p in Flatten(Permute(batches, order)) {
      InPermuted(batches, order, p);
    }
  }

  lemma ConsistentFlatten(batches: seq<seq<(Label, Record)>>, rec: Label -> Record)
    requires forall b, i :: 0 <= b < |batches| && 0 <= i < |batches[b]| ==> batches[b][i].1 == rec(batches[b][i].0)
    ensures Consistent(Flatten(batches), rec)
  {
    forall m | 0 <= m < |Flatten(batches)| ensures Flatten(batches)[m].1 == rec(Flatten(batches)[m].0) {
      FlattenMember(batches, Flatten(batches)[m]);
    }
  }

  /** The merge gives the same table whatever order the chunks complete in. */
  lemma MergeOrderIndependent(cols: Columns, batches: seq<seq<(Label, Record)>>, o1: seq<nat>, o2: seq<nat>, rec: Label -> Record)
    requires IsPermutation(o1, |batches|) && IsPermutation(o2, |batches|)
    requires forall b, i :: 0 <= b < |batches| && 0 <= i < |batches[b]| ==> batches[b][i].1 == rec(batches[b][i].0)
    ensures forall k :: 0 <= k < |o1| ==> o1[k] < |batches|
    ensures forall k :: 0 <= k < |o2| ==> o2[k] < |batches|
    ensures WritePairs(cols, Flatten(Permute(batches, o1))) == WritePairs(cols, Flatten(Permute(batches, o2)))
    ensures WritePairs(cols, Flatten(Permute(batches, o1))) == Overlay(cols, LabelsOf(Flatten(batches)), rec)
  {
    PermutedLabels(batches, o1);
    PermutedLabels(batches, o2);
    ConsistentFlatten(Permute(batches, o1), rec);
    ConsistentFlatten(Permute(batches, o2), rec);
    WritePairsOverlay(cols, Flatten(Permute(batches, o1)), rec);
    WritePairsOverlay(cols, Flatten(Permute(batches, o2)), rec);
  }

  // ---------------------------------------------------------------------------
  // The frame updates of main

  predicate CategoriesPresent(cols: Columns)
  {
    forall cat :: cat in Categories ==> cat in cols
  }

  /** The columns with every name of cats (new or replaced) holding '' in each row. */
  function InitCells(index: seq<Label>, cols: Columns, cats: seq<string>): (r: Columns)
    ensures r.Keys == cols.Keys + (set c | c in cats)
  {
    map name | name in cols.Keys + (set c | c in cats) :: if name in cats then Filled(index, "") else cols[name]
  }

  lemma InitStep(index: seq<Label>, cols: Columns, cats: seq<string>, c: string)
    ensures InitCells(index, cols, cats + [c]) == InitCells(index, cols, cats)[c := Filled(index, "")]
  {
  }

  /** Lines 269-270 leave every category column empty in every processed row and
    * every other column as it was. */
  lemma InitCellsContents(index: seq<Label>, cols: Columns)
    ensures var r := InitCells(index, cols, Categories);
      && CategoriesPresent(r)
      && (forall cat :: cat in Categories ==> r[cat].Keys == LabelSet(index) && forall l :: l in r[cat] ==> r[cat][l] == "")
      && (forall name :: name in cols && name !in Categories ==> name in r && r[name] == cols[name])
      && r.Keys == cols.Keys + CategorySet
  {
  }

  /** for cat in CATEGORIES: df_processing[cat] = '' */
  method InitCategoryColumns(f: Frame)
    requires f.Valid()
    modifies f
    ensures f.Valid() && f.index == old(f.index)
    ensures f.columns == InitCells(f.index, old(f.columns), Categories)
  {
    for i := 0 to |Categories|
      invariant f.Valid() && f.index == old(f.index)
      invariant f.columns == InitCells(f.index, old(f.columns), Categories[..i])
    {
      f.SetColumn(Categories[i], "");
      assert Categories[..i + 1] == Categories[..i] + [Categories[i]];
      InitStep(f.index, old(f.columns), Categories[..i], Categories[i]);
    }
    assert Categories[..|Categories|] == Categories;
  }

  lemma WriteStep(cols: Columns, l: Label, rec: Record, cats: seq<string>, c: string)
    requires c in cols
    ensures WriteCells(cols, l, rec, cats + [c])
         == WriteCells(cols, l, rec, cats)[c := WriteCells(cols, l, rec, cats)[c][l := Get(rec, c)]]
  {
    var before := WriteCells(cols, l, rec, cats);
    var after := WriteCells(cols, l, rec, cats + [c]);
    if c in cats {
      assert before[c] == cols[c][l := Get(rec, c)];
      assert before[c][l := Get(rec, c)] == before[c];
    }
    assert after.Keys == before[c := before[c][l := Get(rec, c)]].Keys;
  }

  /** for cat in CATEGORIES: df_processing.at[row_idx, cat] = cls.get(cat, '') */
  method WriteRecord(f: Frame, l: Label, rec: Record)
    requires f.Valid() && l in LabelSet(f.index) && CategoriesPresent(f.columns)
    modifies f
    ensures f.Valid() && f.index == old(f.index)
    ensures f.columns == WriteRow(old(f.columns), l, rec)
  {
    for i := 0 to |Categories|
      invariant f.Valid() && f.index == old(f.index) && f.columns.Keys == old(f.columns).Keys
      invariant f.columns == WriteCells(old(f.columns), l, rec, Categories[..i])
    {
      f.SetCell(l, Categories[i], Get(rec, Categories[i]));
      assert Categories[..i + 1] == Categories[..i] + [Categories[i]];
      WriteStep(old(f.columns), l, rec, Categories[..i], Categories[i]);
    }
    assert Categories[..|Categories|] == Categories;
  }

  lemma {:induction false} WritePairsKeys(cols: Columns, pairs: seq<(Label, Record)>)
    ensures WritePairs(cols, pairs).Keys == cols.Keys
    decreases |pairs|
  {
    if pairs != [] {
      WritePairsKeys(cols, pairs[..|pairs| - 1]);
    }
  }

  /** for row_idx, cls in batch_results: ... */
  method MergeBatch(f: Frame, pairs: seq<(Label, Record)>)
    requires f.Valid() && CategoriesPresent(f.columns)
    requires forall i :: 0 <= i < |pairs| ==> pairs[i].0 in LabelSet(f.index)
    modifies f
    ensures f.Valid() && f.index == old(f.index)
    ensures f.columns == WritePairs(old(f.columns), pairs)
  {
    for i := 0 to |pairs|
      invariant f.Valid() && f.index == old(f.index) && CategoriesPresent(f.columns)
      invariant f.columns == WritePairs(old(f.columns), pairs[..i])
    {
      WriteRecord(f, pairs[i].0, pairs[i].1);
      WritePairsPrefix(old(f.columns), pairs, i);
    }
    assert pairs[..|pairs|] == pairs;
  }

  /** Writing the first i + 1 results is writing the first i and then result i;
    * no column is added or dropped. */
  lemma WritePairsPrefix(cols: Columns, pairs: seq<(Label, Record)>, i: nat)
    requires i < |pairs|
    ensures WritePairs(cols, pairs[..i + 1]) == WriteRow(WritePairs(cols, pairs[..i]), pairs[i].0, pairs[i].1)
    ensures WritePairs(cols, pairs[..i + 1]).Keys == cols.Keys
  {
    assert pairs[..i + 1][..i] == pairs[..i];
    WritePairsKeys(cols, pairs[..i + 1]);
  }

  /** Results arriving in a prefix of the completion order never outnumber those
    * of a longer prefix. */
  lemma PrefixCount<T>(xs: seq<seq<T>>, order: seq<nat>, m: nat, m': nat)
    requires forall k :: 0 <= k < |order| ==> order[k] < |xs|
    requires m <= m' <= |order|
    ensures |Flatten(Permute(xs, order[..m]))| <= |Flatten(Permute(xs, order[..m']))|
  {
    assert order[..m'] == order[..m] + order[m..m'];
    PermutedLengthSplit(xs, order[..m], order[m..m']);
  }

  /** The results of the first m batches to complete, in the order they arrive. */
  function Arrived(batches: seq<seq<(Label, Record)>>, order: seq<nat>, m: nat): seq<(Label, Record)>
    requires forall k :: 0 <= k < |order| ==> order[k] < |batches|
    requires m <= |order|
  {
    Flatten(Permute(batches, order[..m]))
  }

  /** The values of completed logged after each of the first k batches. */
  function Counts(batches: seq<seq<(Label, Record)>>, order: seq<nat>, k: nat): (r: seq<nat>)
    requires Within(order, |batches|) && k <= |order|
    ensures |r| == k && forall m :: 0 <= m < k ==> r[m] == |Arrived(batches, order, m + 1)|
  {
    if k == 0 then [] else Counts(batches, order, k - 1) + [|Arrived(batches, order, k)|]
  }

  /** The as_completed loop: batch results merged in completion order while
    * completed accumulates their sizes (progress holds it after each batch). */
  method MergeResults(f: Frame, batches: seq<seq<(Label, Record)>>, order: seq<nat>)
    returns (completed: nat, progress: seq<nat>)
    requires f.Valid() && CategoriesPresent(f.columns)
    requires IsPermutation(order, |batches|)
    requires forall b, i :: 0 <= b < |batches| && 0 <= i < |batches[b]| ==> batches[b][i].0 in LabelSet(f.index)
    modifies f
    ensures Within(order, |batches|)
    ensures f.Valid() && f.index == old(f.index)
    ensures f.columns == WritePairs(old(f.columns), Flatten(Permute(batches, order)))
    ensures completed == |Flatten(batches)|
    ensures progress == Counts(batches, order, |order|)
  {
    PermutationMembers(order, |batches|);
    ghost var start := f.columns;
    completed := 0;
    progress := [];
    for k := 0 to |order|
      invariant f.Valid() && f.index == old(f.index) && CategoriesPresent(f.columns)
      invariant f.columns == WritePairs(start, Arrived(batches, order, k))
      invariant completed == |Arrived(batches, order, k)|
      invariant progress == Counts(batches, order, k)
    {
      var batch := batches[order[k]];
      MergeBatch(f, batch);
      completed := completed + |batch|;
      progress := progress + [completed];
      ArrivedStep(start, batches, order, k);
    }
    ArrivedAll(batches, order);
  }

  /** Once every batch has completed, all results have arrived. */
  lemma ArrivedAll(batches: seq<seq<(Label, Record)>>, order: seq<nat>)
    requires IsPermutation(order, |batches|)
    ensures Within(order, |batches|)
    ensures Arrived(batches, order, |order|) == Flatten(Permute(batches, order))
    ensures |Arrived(batches, order, |order|)| == |Flatten(batches)|
  {
    assert order[..|order|] == order;
    CompletedTotal(batches, order);
  }

  /** The results arrived after k + 1 batches are those after k and then batch
    * order[k]; writing them is writing the earlier ones and then that batch. */
  lemma ArrivedStep(start: Columns, batches: seq<seq<(Label, Record)>>, order: seq<nat>, k: nat)
    requires forall j :: 0 <= j < |order| ==> order[j] < |batches|
    requires k < |order|
    ensures Arrived(batches, order, k + 1) == Arrived(batches, order, k) + batches[order[k]]
    ensures WritePairs(start, Arrived(batches, order, k + 1))
         == WritePairs(WritePairs(start, Arrived(batches, order, k)), batches[order[k]])
    ensures WritePairs(start, Arrived(batches, order, k + 1)).Keys == start.Keys
  {
    var before := Permute(batches, order[..k]);
    var batch := batches[order[k]];
    assert Permute(batches, order[..k + 1]) == before + [batch];
    FlattenConcat(before, [batch]);
    assert Flatten([batch]) == batch + Flatten([]);
    WritePairsConcat(start, Flatten(before), batch);
    WritePairsKeys(start, Flatten(before) + batch);
  }

  /** The counts logged after each batch never decrease, the last is the total,
    * and none exceeds it. */
  lemma {:induction false} CountsOrdered(batches: seq<seq<(Label, Record)>>, order: seq<nat>, k: nat)
    requires IsPermutation(order, |batches|)
    requires Within(order, |batches|) && k <= |order|
    ensures var c := Counts(batches, order, k);
      && (forall m, m' :: 0 <= m <= m' < k ==> c[m] <= c[m'] <= |Flatten(batches)|)
      && (k > 0 ==> c[k - 1] == |Arrived(batches, order, k)|)
    decreases k
  {
    if k > 0 {
      CountsOrdered(batches, order, k - 1);
      var c := Counts(batches, order, k);
      ArrivedAll(batches, order);
      forall m, m' | 0 <= m <= m' < k ensures c[m] <= c[m'] <= |Flatten(batches)| {
        PrefixCount(batches, order, m' + 1, |order|);
        if m' == k - 1 {
          PrefixCount(batches, order, m + 1, k);
        }
      }
    }
  }

  // ---------------------------------------------------------------------------
  // Transfer into the full table

  function ColumnOr(cols: Columns, name: string): Column
  {
    if name in cols then cols[name] else map[]
  }

  /** df_full.loc[labels, cat] = src[cat] for each cat of cats. */
  function TransferCells(cols: Columns, labels: set<Label>, src: Columns, cats: seq<string>): (r: Columns)
    requires forall c :: c in cats ==> c in src
    ensures r.Keys == cols.Keys + (set c | c in cats)
  {
    map name | name in cols.Keys + (set c | c in cats) ::
      if name in cats then Assigned(ColumnOr(cols, name), labels, src[name]) else cols[name]
  }

  lemma TransferStep(cols: Columns, labels: set<Label>, src: Columns, cats: seq<string>, c: string)
    requires forall x :: x in cats ==> x in src
    requires c in src && c !in cats
    ensures TransferCells(cols, labels, src, cats + [c])
         == TransferCells(cols, labels, src, cats)[c := Assigned(ColumnOr(cols, c), labels, src[c])]
  {
  }

  /** The transfer loop of lines 307-309. */
  method TransferColumns(full: Frame, processing: Frame)
    requires full != processing
    requires full.Valid() && processing.Valid() && CategoriesPresent(processing.columns)
    requires LabelSet(processing.index) <= LabelSet(full.index)
    modifies full
    ensures full.Valid() && full.index == old(full.index)
    ensures full.columns == TransferCells(old(full.columns), LabelSet(processing.index), processing.columns, Categories)
  {
    var labels := LabelSet(processing.index);
    for i := 0 to |Categories|
      invariant full.Valid() && full.index == old(full.index)
      invariant full.columns == TransferCells(old(full.columns), labels, processing.columns, Categories[..i])
    {
      var cat := Categories[i];
      CategoriesDistinct(i);
      full.AssignByLabel(cat, labels, processing.columns[cat]);
      assert Categories[..i + 1] == Categories[..i] + [cat];
      TransferStep(old(full.columns), labels, processing.columns, Categories[..i], cat);
    }
    assert Categories[..|Categories|] == Categories;
  }
}
