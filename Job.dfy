/**
  * The classification stage of main end to end: the first rows are copied
  * out, their category columns emptied, the row labels cut into chunks, each
  * chunk classified, the results merged in completion order and the category
  * columns copied back into the full table by label.
  */
module Job {
  import opened Text
  import opened Settings
  import opened Classify
  import opened Frames
  import opened Batch
  import opened Pipeline

  /** The category columns of the full table after the job: each processed row
    * holds its record's value, every other row keeps what it had (nothing, when
    * the column is new), and every other column is untouched. */
  function Reconciled(cols: Columns, labels: set<Label>, rec: Label -> Record): (r: Columns)
    ensures r.Keys == cols.Keys + CategorySet
  {
    map name | name in cols.Keys + CategorySet ::
      if name in Categories then Assigned(ColumnOr(cols, name), labels, map l | l in labels :: Get(rec(l), name))
      else cols[name]
  }

  /** What each cell of the full table holds afterwards. */
  lemma ReconciledCells(cols: Columns, labels: set<Label>, rec: Label -> Record)
    ensures var r := Reconciled(cols, labels, rec);
      && CategoriesPresent(r)
      && (forall cat, l :: cat in Categories && l in labels ==> l in r[cat] && r[cat][l] == Get(rec(l), cat))
      && (forall cat, l :: cat in Categories && l !in labels ==>
            (l in r[cat] <==> cat in cols && l in cols[cat]) && (l in r[cat] ==> r[cat][l] == cols[cat][l]))
      && (forall name :: name in cols && name !in Categories ==> r[name] == cols[name])
  {
  }

  /** Running the transfer a second time with the same results changes nothing. */
  lemma ReconciledIdempotent(cols: Columns, labels: set<Label>, rec: Label -> Record)
    ensures Reconciled(Reconciled(cols, labels, rec), labels, rec) == Reconciled(cols, labels, rec)
  {
    var once := Reconciled(cols, labels, rec);
    var twice := Reconciled(once, labels, rec);
    forall name | name in twice ensures twice[name] == once[name] {
      if name in Categories {
        AssignedIdempotent(ColumnOr(cols, name), labels, map l | l in labels :: Get(rec(l), name));
      }
    }
  }

  /** With every record well shaped, a processed row's cell is its record's entry. */
  lemma ReconciledRecordEntries(cols: Columns, labels: set<Label>, rec: Label -> Record)
    requires forall l :: l in labels ==> WellShaped(rec(l))
    ensures var r := Reconciled(cols, labels, rec);
      forall cat, l :: cat in CategorySet && l in labels ==> l in r[cat] && cat in rec(l) && r[cat][l] == rec(l)[cat]
  {
    ReconciledCells(cols, labels, rec);
    var r := Reconciled(cols, labels, rec);
    forall cat, l | cat in CategorySet && l in labels ensures l in r[cat] && cat in rec(l) && r[cat][l] == rec(l)[cat] {
      assert cat in Categories;
      assert r[cat][l] == Get(rec(l), cat);
    }
  }

  // ---------------------------------------------------------------------------
  // Batch results as label/record pairs

  /** The (idx, classification) pairs of a run of labels: one pair per label,
    * naming exactly the run's labels, each with the record rec gives it. */
  function Pairs(ls: seq<Label>, rec: Label -> Record): (r: seq<(Label, Record)>)
    ensures |r| == |ls|
    ensures LabelsOf(r) == LabelSet(ls)
    ensures Consistent(r, rec)
  {
    var r := seq(|ls|, i requires 0 <= i < |ls| => (ls[i], rec(ls[i])));
    assert LabelSet(ls) <= LabelsOf(r) by {
      forall l | l in LabelSet(ls) ensures l in LabelsOf(r) {
        var i :| 0 <= i < |ls| && ls[i] == l;
        assert r[i].0 == l;
      }
    }
    r
  }

  lemma PairsConcat(a: seq<Label>, b: seq<Label>, rec: Label -> Record)
    ensures Pairs(a + b, rec) == Pairs(a, rec) + Pairs(b, rec)
  {
    assert forall i :: 0 <= i < |a| ==> (a + b)[i] == a[i];
    assert forall i :: |a| <= i < |a| + |b| ==> (a + b)[i] == b[i - |a|];
  }

  /** The batches together pair every label of the chunks with its record. */
  lemma {:induction false} FlattenPairs(chunks: seq<seq<Label>>, batches: seq<seq<(Label, Record)>>, rec: Label -> Record)
    requires |batches| == |chunks|
    requires forall b :: 0 <= b < |chunks| ==> batches[b] == Pairs(chunks[b], rec)
    ensures Flatten(batches) == Pairs(Flatten(chunks), rec)
  {
    if chunks != [] {
      FlattenPairs(chunks[1..], batches[1..], rec);
      PairsConcat(chunks[0], Flatten(chunks[1..]), rec);
    }
  }

  // ---------------------------------------------------------------------------
  // From the merged processing frame to the full table

  /** After the initialisation and the merge of every processed row, each
    * category column holds exactly the records' values. */
  lemma MergedColumns(index: seq<Label>, cols: Columns, rec: Label -> Record)
    ensures var merged := Overlay(InitCells(index, cols, Categories), LabelSet(index), rec);
      && CategoriesPresent(merged)
      && forall cat :: cat in Categories ==> merged[cat] == map l | l in LabelSet(index) :: Get(rec(l), cat)
  {
    var init := InitCells(index, cols, Categories);
    InitCellsContents(index, cols);
    forall cat | cat in Categories
      ensures init[cat] + (map l | l in LabelSet(index) :: Get(rec(l), cat)) == map l | l in LabelSet(index) :: Get(rec(l), cat)
    {
    }
  }

  lemma ValuesAgree(labels: set<Label>, rec: Label -> Record, rec': Label -> Record, name: string)
    requires forall l :: l in labels ==> rec(l) == rec'(l)
    ensures (map l | l in labels :: Get(rec(l), name)) == map l | l in labels :: Get(rec'(l), name)
  {
    var a := map l | l in labels :: Get(rec(l), name);
    var b := map l | l in labels :: Get(rec'(l), name);
    assert a.Keys == b.Keys;
    forall l | l in a ensures a[l] == b[l] {
      assert rec(l) == rec'(l);
    }
  }

  /** Copying those columns by label gives the reconciled table. */
  lemma TransferredIsReconciled(cols: Columns, merged: Columns, labels: set<Label>, rec: Label -> Record, rec': Label -> Record)
    requires CategoriesPresent(merged)
    requires forall cat :: cat in Categories ==> merged[cat] == map l | l in labels :: Get(rec(l), cat)
    requires forall l :: l in labels ==> rec(l) == rec'(l)
    ensures TransferCells(cols, labels, merged, Categories) == Reconciled(cols, labels, rec')
  {
    var t := TransferCells(cols, labels, merged, Categories);
    var r := Reconciled(cols, labels, rec');
    assert t.Keys == r.Keys;
    forall name | name in t ensures t[name] == r[name] {
      TransferredColumn(cols, merged, labels, rec, rec', name);
    }
  }

  lemma TransferredColumn(cols: Columns, merged: Columns, labels: set<Label>, rec: Label -> Record, rec': Label -> Record, name: string)
    requires CategoriesPresent(merged)
    requires forall cat :: cat in Categories ==> merged[cat] == map l | l in labels :: Get(rec(l), cat)
    requires forall l :: l in labels ==> rec(l) == rec'(l)
    requires name in cols || name in Categories
    ensures TransferCells(cols, labels, merged, Categories)[name] == Reconciled(cols, labels, rec')[name]
  {
    if name in Categories {
      ValuesAgree(labels, rec, rec', name);
    }
  }

  /** The record classify_review gives each row, with the backend answering
    * row l as oracle(l). */
  function Classifier(cfg: Config, u: Unicode, reviews: Column, oracle: Label -> nat -> Outcome): Label -> Record
  {
    l => RecordFor(cfg, u, reviews, oracle, l)
  }

  /** A row keeps its review in the copied-out frame, so it gets the same record. */
  lemma RestrictedClassifier(cfg: Config, u: Unicode, reviews: Column, rows: set<Label>, oracle: Label -> nat -> Outcome)
    ensures forall l :: l in rows ==>
      Classifier(cfg, u, Restrict(reviews, rows), oracle)(l) == Classifier(cfg, u, reviews, oracle)(l)
  {
    forall l | l in rows
      ensures Classifier(cfg, u, Restrict(reviews, rows), oracle)(l) == Classifier(cfg, u, reviews, oracle)(l)
    {
      assert ReviewAt(Restrict(reviews, rows), l) == ReviewAt(reviews, l);
    }
  }

  /** The batches cover the processed rows: every label they carry is one of
    * them, and there are as many results as rows. */
  lemma BatchLabels(labels: seq<Label>, chunks: seq<seq<Label>>, batches: seq<seq<(Label, Record)>>, rec: Label -> Record)
    requires Flatten(chunks) == labels
    requires |batches| == |chunks| && forall b :: 0 <= b < |chunks| ==> batches[b] == Pairs(chunks[b], rec)
    ensures forall b, i :: 0 <= b < |batches| && 0 <= i < |batches[b]| ==> batches[b][i].0 in LabelSet(labels)
    ensures |Flatten(batches)| == |labels|
  {
    FlattenPairs(chunks, batches, rec);
    forall b, i | 0 <= b < |batches| && 0 <= i < |batches[b]| ensures batches[b][i].0 in LabelSet(labels) {
      FlattenMember(chunks, chunks[b][i]);
    }
  }

  /** Merging the batches in any completion order writes each processed row's
    * record into the category columns. */
  lemma MergedBatches(cols: Columns, labels: seq<Label>, chunks: seq<seq<Label>>,
                      batches: seq<seq<(Label, Record)>>, order: seq<nat>, rec: Label -> Record)
    requires Flatten(chunks) == labels
    requires |batches| == |chunks| && forall b :: 0 <= b < |chunks| ==> batches[b] == Pairs(chunks[b], rec)
    requires IsPermutation(order, |batches|)
    ensures Within(order, |batches|)
    ensures WritePairs(cols, Flatten(Permute(batches, order))) == Overlay(cols, LabelSet(labels), rec)
  {
    FlattenPairs(chunks, batches, rec);
    forall b, i | 0 <= b < |batches| && 0 <= i < |batches[b]| ensures batches[b][i].1 == rec(batches[b][i].0) {
    }
    MergeOrderIndependent(cols, batches, order, order, rec);
  }

  // ---------------------------------------------------------------------------
  // The stage itself

  /** The labels of the rows the job processes: the first rowsToProcess, as
    * head(rowsToProcess) selects them (a negative count drops rows from the end). */
  function Processed(index: seq<Label>, rowsToProcess: int): seq<Label>
  {
    index[..HeadCount(rowsToProcess, |index|)]
  }

  /** The tasks submitted for those rows. */
  function Tasks(cfg: Config, index: seq<Label>, rowsToProcess: int): seq<seq<Label>>
    requires cfg.maxWorkers >= 1
  {
    var rows := Processed(index, rowsToProcess);
    Chunks(rows, ChunkSize(|rows|, cfg.maxWorkers))
  }

  /** Every submitted chunk classified by process_batch, in submission order. */
  method ClassifyChunks(cfg: Config, u: Unicode, chunks: seq<seq<Label>>, reviews: Column, oracle: Label -> nat -> Outcome)
    returns (batches: seq<seq<(Label, Record)>>)
    ensures |batches| == |chunks|
    ensures forall b :: 0 <= b < |chunks| ==> batches[b] == Pairs(chunks[b], Classifier(cfg, u, reviews, oracle))
  {
    batches := [];
    for b := 0 to |chunks|
      invariant |batches| == b
      invariant forall j :: 0 <= j < b ==> batches[j] == Pairs(chunks[j], Classifier(cfg, u, reviews, oracle))
    {
      var results := ProcessBatch(cfg, u, chunks[b], reviews, oracle);
      batches := batches + [results];
    }
  }

  /** The classification of the processed frame: its labels cut into chunks,
    * each chunk classified, the results merged in completion order. */
  method ClassifyRows(cfg: Config, u: Unicode, processing: Frame, oracle: Label -> nat -> Outcome, order: seq<nat>)
    returns (completed: nat, progress: seq<nat>)
    requires processing.Valid() && cfg.maxWorkers >= 1
    requires CategoriesPresent(processing.columns) && ReviewColumn in processing.columns
    requires IsPermutation(order, |Chunks(processing.index, ChunkSize(|processing.index|, cfg.maxWorkers))|)
    modifies processing
    ensures processing.Valid() && processing.index == old(processing.index)
    ensures processing.columns == Overlay(old(processing.columns), LabelSet(processing.index),
                                          Classifier(cfg, u, old(processing.columns)[ReviewColumn], oracle))
    ensures completed == |processing.index|
    ensures |progress| == |order|
    ensures forall m, m' :: 0 <= m <= m' < |order| ==> progress[m] <= progress[m'] <= completed
    ensures |order| > 0 ==> progress[|order| - 1] == completed
  {
    var labels := processing.index;
    var chunks := Partition(labels, cfg.maxWorkers);
    ChunksFlatten(labels, ChunkSize(|labels|, cfg.maxWorkers));
    var reviews := processing.columns[ReviewColumn];
    var batches := ClassifyChunks(cfg, u, chunks, reviews, oracle);
    BatchLabels(labels, chunks, batches, Classifier(cfg, u, reviews, oracle));
    MergedBatches(processing.columns, labels, chunks, batches, order, Classifier(cfg, u, reviews, oracle));
    completed, progress := MergeResults(processing, batches, order);
    CountsOrdered(batches, order, |order|);
    ArrivedAll(batches, order);
  }

  /** Classify the first rows of full with the backend answering row l as
    * oracle(l), the chunks completing in the given order, and write the
    * categories back into full. */
  method ClassifyAndReconcile(cfg: Config, u: Unicode, full: Frame, rowsToProcess: int,
                              oracle: Label -> nat -> Outcome, order: seq<nat>)
    returns (completed: nat, progress: seq<nat>)
    requires full.Valid() && cfg.maxWorkers >= 1 && ReviewColumn in full.columns
    requires IsPermutation(order, |Tasks(cfg, full.index, rowsToProcess)|)
    modifies full
    ensures full.Valid() && full.index == old(full.index)
    ensures full.columns == Reconciled(old(full.columns), LabelSet(Processed(full.index, rowsToProcess)),
                                       Classifier(cfg, u, old(full.columns)[ReviewColumn], oracle))
    ensures completed == |Processed(full.index, rowsToProcess)|
    ensures |progress| == |order|
    ensures forall m, m' :: 0 <= m <= m' < |order| ==> progress[m] <= progress[m'] <= completed
    ensures |order| > 0 ==> progress[|order| - 1] == completed
  {
    ghost var rows := Processed(full.index, rowsToProcess);
    var processing := full.Head(rowsToProcess);
    DistinctPrefix(full.index, |rows|);
    ghost var headCols := processing.columns;
    assert ReviewColumn !in Categories;
    InitCategoryColumns(processing);
    InitCellsContents(processing.index, headCols);
    assert processing.columns[ReviewColumn] == Restrict(old(full.columns)[ReviewColumn], LabelSet(rows));
    RestrictedClassifier(cfg, u, old(full.columns)[ReviewColumn], LabelSet(rows), oracle);
    ghost var rec := Classifier(cfg, u, processing.columns[ReviewColumn], oracle);

    completed, progress := ClassifyRows(cfg, u, processing, oracle, order);
    MergedColumns(rows, headCols, rec);
    TransferColumns(full, processing);
    TransferredIsReconciled(old(full.columns), processing.columns, LabelSet(rows), rec,
                            Classifier(cfg, u, old(full.columns)[ReviewColumn], oracle));
  }
}
