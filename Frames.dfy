/**
  * The little of a pandas DataFrame the batch job relies on: a row index of
  * unique labels and named columns addressed by label. A label of the index
  * that has no entry in a column holds NaN there.
  */
module Frames {

  /** A row label of the index (after reset_index, the row position). */
  type Label = int

  /** One column: label to cell value; a missing label is NaN. */
  type Column = map<Label, string>

  type Columns = map<string, Column>

  function LabelSet(index: seq<Label>): set<Label>
  {
    set l | l in index
  }

  predicate Distinct(index: seq<Label>)
  {
    forall i, j :: 0 <= i < j < |index| ==> index[i] != index[j]
  }

  /** Columns whose cells all belong to rows of the index. */
  predicate Aligned(index: seq<Label>, columns: Columns)
  {
    forall name :: name in columns ==> columns[name].Keys <= LabelSet(index)
  }

  /** A column holding v in every row of the index: df[name] = v. */
  function Filled(index: seq<Label>, v: string): (c: Column)
    ensures c.Keys == LabelSet(index)
    ensures forall l :: l in c ==> c[l] == v
  {
    map l | l in LabelSet(index) :: v
  }

  /** df.loc[labels, name] = src for a column holding prior: the rows in labels take
    * src's value there (NaN where src has none), every other row keeps its cell. */
  function Assigned(prior: Column, labels: set<Label>, src: Column): (c: Column)
    ensures forall l :: l in labels ==> (l in c <==> l in src) && (l in src ==> c[l] == src[l])
    ensures forall l :: l !in labels ==> (l in c <==> l in prior) && (l in prior ==> c[l] == prior[l])
  {
    map l | l in prior.Keys + src.Keys && ((l in prior && l !in labels) || (l in labels && l in src)) ::
      if l in labels then src[l] else prior[l]
  }

  /** The number of rows df.head(n) keeps: the first n, or all but the last -n when n
    * is negative. */
  function HeadCount(n: int, len: nat): (k: nat)
    ensures k <= len
    // for n >= 0: as many rows as asked for, cut at the table's length
    ensures 0 <= n ==> k <= n && (k == n || k == len)
    // for n < 0: -n rows dropped from the end, or every row when there are fewer
    ensures n < 0 ==> len - k <= -n && (k == 0 || len - k == -n)
  {
    if n >= 0 then (if n < len then n else len)
    else if len + n < 0 then 0 else len + n
  }

  /** A column with its cells restricted to the given rows. */
  function Restrict(c: Column, rows: set<Label>): Column
  {
    map l | l in c && l in rows :: c[l]
  }

  lemma DistinctPrefix(index: seq<Label>, k: nat)
    requires Distinct(index) && k <= |index|
    ensures Distinct(index[..k])
    ensures LabelSet(index[..k]) <= LabelSet(index)
  {
    assert forall i :: 0 <= i < k ==> index[..k][i] == index[i];
  }

  /** A table of rows and columns that the job updates cell by cell. */
  class Frame {
    var index: seq<Label>
    var columns: Columns

    ghost predicate Valid()
      reads this
    {
      Distinct(index) && Aligned(index, columns)
    }

    constructor (index: seq<Label>, columns: Columns)
      requires Distinct(index) && Aligned(index, columns)
      ensures Valid() && this.index == index && this.columns == columns
    {
      this.index := index;
      this.columns := columns;
    }

    /** df.head(n).copy(): a new frame holding the first rows and their cells. */
    method Head(n: int) returns (f: Frame)
      requires Valid()
      ensures fresh(f) && f.Valid()
      ensures f.index == index[..HeadCount(n, |index|)]
      ensures f.columns == map name | name in columns :: Restrict(columns[name], LabelSet(f.index))
    {
      var k := HeadCount(n, |index|);
      var rows := index[..k];
      DistinctPrefix(index, k);
      var cols := map name | name in columns :: Restrict(columns[name], LabelSet(rows));
      f := new Frame(rows, cols);
    }

    /** df[name] = v: the column (new or replaced) holds v in every row. */
    method SetColumn(name: string, v: string)
      requires Valid()
      modifies this
      ensures Valid() && index == old(index)
      ensures columns == old(columns)[name := Filled(index, v)]
    {
      columns := columns[name := Filled(index, v)];
    }

    /** df.at[l, name] = v on an existing row and column. */
    method SetCell(l: Label, name: string, v: string)
      requires Valid() && l in LabelSet(index) && name in columns
      modifies this
      ensures Valid() && index == old(index)
      ensures columns == old(columns)[name := old(columns)[name][l := v]]
    {
      columns := columns[name := columns[name][l := v]];
    }

    /** df.loc[labels, name] = src, aligned by label; a new column is NaN elsewhere. */
    method AssignByLabel(name: string, labels: set<Label>, src: Column)
      requires Valid() && labels <= LabelSet(index)
      modifies this
      ensures Valid() && index == old(index)
      ensures columns == old(columns)[name := Assigned(if name in old(columns) then old(columns)[name] else map[], labels, src)]
    {
      var current := if name in columns then columns[name] else map[];
      columns := columns[name := Assigned(current, labels, src)];
    }
  }

  /** Assigning the same aligned column twice is the same as assigning it once. */
  lemma AssignedIdempotent(c: Column, labels: set<Label>, src: Column)
    ensures Assigned(Assigned(c, labels, src), labels, src) == Assigned(c, labels, src)
  {
  }
}
