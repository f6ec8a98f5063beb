/** The dataset the checks read: named columns of cells, and the two counting
    facts about a column that the real checks are built on (how many cells are
    present, how many distinct values the column holds). */
module Tables {

  /** One spreadsheet cell. `Null` stands for every marker pandas reports as
      missing (None, NaN, NaT); two nulls compare equal, as they do when pandas
      counts distinct values with nulls kept. */
  datatype Cell = Null | Number(n: int) | Text(s: string)

  type Column = seq<Cell>

  /** A loaded dataset: its columns by name, and its row count. */
  datatype Table = Table(rows: nat, columns: map<string, Column>) {
    /** Every column of a data frame has exactly `rows` cells. */
    predicate Valid() {
      forall name :: name in columns ==> |columns[name]| == rows
    }
  }

  /** The number of cells of `col` that are not missing: the numerator of
      `notnull().mean()`. */
  function NonNullCount(col: Column): (k: nat)
    ensures k <= |col|
    ensures k == |col| <==> Null !in col
  {
    if col == [] then 0
    else
      assert col[0] in col && forall x :: x in col[1..] ==> x in col;
      NonNullCount(col[1..]) + (if col[0] == Null then 0 else 1)
  }

  /** The present cells and the missing ones make up the whole column: the
      non-null count is the length less the number of nulls in the column's
      multiset of values. */
  lemma {:induction false} NonNullCountByMultiset(col: Column)
    ensures NonNullCount(col) == |col| - multiset(col)[Null]
  {
    if col != [] {
      NonNullCountByMultiset(col[1..]);
      assert col == [col[0]] + col[1..];
      assert multiset(col) == multiset([col[0]]) + multiset(col[1..]);
    }
  }

  /** The set of values of a column; all nulls collapse into one value. */
  function Values(col: Column): set<Cell> {
    set x | x in col
  }

  /** `nunique(dropna=False)`: the number of distinct values, nulls counted as
      one value. */
  function CountDistinct(col: Column): nat {
    |Values(col)|
  }

  /** No two rows of the column hold equal values. */
  ghost predicate PairwiseDistinct(col: Column) {
    forall i, j :: 0 <= i < j < |col| ==> col[i] != col[j]
  }

  /** The values of a non-empty column: its first cell and the values of the
      rest. */
  lemma ValuesCons(col: Column)
    requires col != []
    ensures Values(col) == {col[0]} + Values(col[1..])
  {
    assert col == [col[0]] + col[1..];
  }

  /** A non-empty column is pairwise distinct exactly when its first cell
      does not recur and the rest is pairwise distinct. */
  lemma PairwiseDistinctCons(col: Column)
    requires col != []
    ensures PairwiseDistinct(col) <==> col[0] !in col[1..] && PairwiseDistinct(col[1..])
  {
    var rest := col[1..];
    if PairwiseDistinct(col) {
      forall i, j | 0 <= i < j < |rest| ensures rest[i] != rest[j] {
        assert rest[i] == col[i + 1] && rest[j] == col[j + 1];
      }
    } else {
      var i, j :| 0 <= i < j < |col| && col[i] == col[j];
      if i == 0 {
        assert col[j] == rest[j - 1];
      } else {
        assert col[i] == rest[i - 1] && col[j] == rest[j - 1];
      }
    }
  }

  /** A column never holds more distinct values than cells, and it holds as
      many exactly when no two of its rows are equal. */
  lemma {:induction false} CountDistinctIffPairwiseDistinct(col: Column)
    ensures CountDistinct(col) <= |col|
    ensures CountDistinct(col) == |col| <==> PairwiseDistinct(col)
  {
    if col == [] {
      assert Values(col) == {};
    } else {
      var rest := col[1..];
      CountDistinctIffPairwiseDistinct(rest);
      ValuesCons(col);
      PairwiseDistinctCons(col);
      if col[0] in rest {
        assert Values(col) == Values(rest);
      } else {
        assert |Values(col)| == |Values(rest)| + 1;
      }
    }
  }
}
