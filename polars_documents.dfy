/**
 * Row-to-document extraction from a dataframe, and the batched ingestion of
 * every row of a dataframe into one index.
 */
module PolarsDocuments {
  import opened Common
  import opened Wrappers

  /** The column types the extraction distinguishes: text, or anything else. */
  datatype DataType = StringType | OtherType(tag: string)

  /** A named, typed column; a missing cell is a null. */
  datatype Column = Column(name: string, dtype: DataType, cells: seq<Option<string>>)

  /** A dataframe: a sequence of columns of equal length `height`. */
  datatype DataFrame = DataFrame(height: nat, columns: seq<Column>)
  {
    /** Every column has `height` cells and column names are distinct, as the
        dataframe library enforces. */
    ghost predicate Valid()
    {
      && (forall i :: 0 <= i < |columns| ==> |columns[i].cells| == height)
      && DistinctNames(columns)
    }
  }

  ghost predicate DistinctNames(columns: seq<Column>)
  {
    forall i, j :: 0 <= i < j < |columns| ==> columns[i].name != columns[j].name
  }

  /** Every column has a cell at `row`. */
  ghost predicate HasRow(columns: seq<Column>, row: nat)
  {
    forall i :: 0 <= i < |columns| ==> row < |columns[i].cells|
  }

  /** The columns of `columns` that satisfy `keep`, in their original order. */
  function Filter(columns: seq<Column>, keep: Column -> bool): (kept: seq<Column>)
    ensures |kept| <= |columns|
    ensures forall c :: c in kept <==> c in columns && keep(c)
    decreases |columns|
  {
    if columns == [] then []
    else (if keep(columns[0]) then [columns[0]] else []) + Filter(columns[1..], keep)
  }

  /** Filtering a concatenation filters each part and keeps their order. */
  lemma {:induction false} FilterAppend(a: seq<Column>, b: seq<Column>, keep: Column -> bool)
    ensures Filter(a + b, keep) == Filter(a, keep) + Filter(b, keep)
    decreases |a|
  {
    if a == [] {
      assert a + b == b;
    } else {
      assert (a + b)[1..] == a[1..] + b;
      FilterAppend(a[1..], b, keep);
    }
  }

  /** Filtering keeps distinct names distinct and every kept column has as many
      cells as before. */
  lemma {:induction false} FilterPreservesShape(columns: seq<Column>, keep: Column -> bool, height: nat)
    requires DistinctNames(columns)
    requires forall i :: 0 <= i < |columns| ==> |columns[i].cells| == height
    ensures DistinctNames(Filter(columns, keep))
    ensures forall c :: c in Filter(columns, keep) ==> |c.cells| == height
    decreases |columns|
  {
    if columns != [] {
      var rest := columns[1..];
      FilterPreservesShape(rest, keep, height);
      forall c | c in Filter(rest, keep)
        ensures c.name != columns[0].name
      {
        var j :| 0 <= j < |rest| && rest[j] == c;
        assert columns[j + 1] == c;
      }
    }
  }

  predicate IsText(c: Column)
  {
    c.dtype == StringType
  }

  predicate IsIndexed(c: Column, indexFields: seq<string>)
  {
    c.dtype == StringType && c.name in indexFields
  }

  /** The text columns whose name is one of the index's field names. */
  function GetColumns(columns: seq<Column>, indexFields: seq<string>): (selected: seq<Column>)
    ensures forall c :: c in selected <==> c in columns && c.dtype == StringType && c.name in indexFields
  {
    Filter(columns, c => IsIndexed(c, indexFields))
  }

  /** The selection keeps the dataframe's column order: selecting from two runs
      of columns is selecting from each. */
  lemma GetColumnsKeepsOrder(a: seq<Column>, b: seq<Column>, indexFields: seq<string>)
    ensures GetColumns(a + b, indexFields) == GetColumns(a, indexFields) + GetColumns(b, indexFields)
  {
    FilterAppend(a, b, c => IsIndexed(c, indexFields));
  }

  /** Every selected column of a well-formed frame has a cell in every row. */
  lemma GetColumnsHasRows(df: DataFrame, indexFields: seq<string>)
    requires df.Valid()
    ensures HasRows(GetColumns(df.columns, indexFields), df.height)
  {
    FilterPreservesShape(df.columns, c => IsIndexed(c, indexFields), df.height);
  }

  /** The text columns, whatever their name. */
  function StringColumns(columns: seq<Column>): (selected: seq<Column>)
    ensures forall c :: c in selected <==> c in columns && c.dtype == StringType
  {
    Filter(columns, IsText)
  }

  /** The text of a cell; a null becomes the literal "None". */
  function CellText(c: Column, row: nat): (text: string)
    requires row < |c.cells|
  {
    match c.cells[row]
    case Some(s) => s
    case None => "None"
  }

  /** The document of one row: each text column, in order, sets its name to
      its cell's text. */
  function RowDocument(columns: seq<Column>, row: nat): (doc: Document)
    requires HasRow(columns, row)
    decreases |columns|
  {
    if columns == [] then map[]
    else
      var last := columns[|columns| - 1];
      var m := RowDocument(columns[..|columns| - 1], row);
      if last.dtype == StringType then m[last.name := CellText(last, row)] else m
  }

  /** The keys of a row's document are exactly the names of the text columns. */
  lemma {:induction false} RowDocumentKeys(columns: seq<Column>, row: nat)
    requires HasRow(columns, row)
    ensures RowDocument(columns, row).Keys == set c | c in columns && c.dtype == StringType :: c.name
    decreases |columns|
  {
    if columns != [] {
      var n := |columns| - 1;
      RowDocumentKeys(columns[..n], row);
      assert columns == columns[..n] + [columns[n]];
    }
  }

  /** With distinct column names, a text column's name maps to exactly its
      cell: the string when present, the literal "None" when null. */
  lemma {:induction false} RowDocumentValue(columns: seq<Column>, row: nat, i: nat)
    requires HasRow(columns, row) && DistinctNames(columns)
    requires i < |columns| && columns[i].dtype == StringType
    ensures columns[i].name in RowDocument(columns, row)
    ensures RowDocument(columns, row)[columns[i].name] == CellText(columns[i], row)
    decreases |columns|
  {
    var n := |columns| - 1;
    if i < n {
      RowDocumentValue(columns[..n], row, i);
    }
  }

  /** Builds one row's document by inserting the cells of the text columns. */
  method GetRowHashmap(columns: seq<Column>, row: nat) returns (rowMap: Document)
    requires HasRow(columns, row)
    ensures rowMap == RowDocument(columns, row)
  {
    rowMap := map[];
    for i := 0 to |columns|
      invariant rowMap == RowDocument(columns[..i], row)
    {
      var c := columns[i];
      match c.dtype {
        case StringType =>
          var text := match c.cells[row] case Some(s) => s case None => "None";
          rowMap := rowMap[c.name := text];
        case OtherType(_) =>
      }
      assert columns[..i + 1][..i] == columns[..i];
    }
    assert columns[..|columns|] == columns;
  }

  /** Every column has at least `height` cells. */
  ghost predicate HasRows(columns: seq<Column>, height: nat)
  {
    forall c :: c in columns ==> height <= |c.cells|
  }

  /** The documents of rows `0 .. height`, in row order. */
  function RowDocuments(height: nat, columns: seq<Column>): (docs: seq<Document>)
    requires HasRows(columns, height)
    ensures |docs| == height
    decreases height
  {
    if height == 0 then []
    else RowDocuments(height - 1, columns) + [RowDocument(columns, height - 1)]
  }

  /** The document at position `row` is the document of row `row`. */
  lemma {:induction false} RowDocumentsAt(height: nat, columns: seq<Column>, row: nat)
    requires HasRows(columns, height) && row < height
    ensures HasRow(columns, row)
    ensures RowDocuments(height, columns)[row] == RowDocument(columns, row)
    decreases height
  {
    if row < height - 1 {
      RowDocumentsAt(height - 1, columns, row);
    }
  }

  /** Calls `callback` on the document of every row, over all text columns, in
      ascending row order, and stops at the first error. `visited` is the
      sequence of documents the callback received. */
  method DfRowsForeach(df: DataFrame, callback: Document -> Outcome) returns (r: Outcome, ghost visited: seq<Document>)
    requires df.Valid()
    ensures |visited| <= df.height
    ensures HasRows(StringColumns(df.columns), df.height)
    ensures visited == RowDocuments(|visited|, StringColumns(df.columns))
    ensures forall i :: 0 <= i < |visited| - 1 ==> callback(visited[i]).Pass?
    ensures r.Pass? ==> |visited| == df.height && forall d :: d in visited ==> callback(d).Pass?
    ensures r.Fail? ==> |visited| > 0 && r == callback(visited[|visited| - 1])
    ensures r.Pass? <==> forall row :: 0 <= row < df.height ==> callback(RowDocuments(df.height, StringColumns(df.columns))[row]).Pass?
  {
    var columns := StringColumns(df.columns);
    FilterPreservesShape(df.columns, IsText, df.height);
    visited := [];
    for row := 0 to df.height
      invariant visited == RowDocuments(row, columns)
      invariant forall d :: d in visited ==> callback(d).Pass?
    {
      var rowMap := GetRowHashmap(columns, row);
      visited := visited + [rowMap];
      r := callback(rowMap);
      if r.Fail? {
        RowDocumentsAt(df.height, columns, row);
        return;
      }
    }
    r := Pass;
  }

  /** Stages the document of every row, restricted to the index's field names, and
      commits once; a rejected row is ignored and only a failed commit is
      reported. The rows are staged concurrently: `order` is the order in
      which the scheduler happens to run them, any permutation of the rows.
      `ops` is what the index received. */
  method IndexDfRows(index: IndexWrapper, df: DataFrame, order: seq<nat>) returns (r: Outcome, ghost ops: seq<Op>)
    requires index.Valid() && df.Valid()
    requires IsPermutation(order, df.height)
    modifies index
    ensures HasRows(GetColumns(df.columns, index.fieldNames), df.height)
    ensures InRange(order, df.height)
    ensures index.Valid()
    ensures index.history == old(index.history) + ops
    ensures StageAllThenCommit(Permute(RowDocuments(df.height, GetColumns(df.columns, index.fieldNames)), order), ops)
    ensures |ops| == df.height + 1 && r == ops[df.height].outcome
    ensures multiset(AcceptedDocs(ops[..df.height])) <= multiset(RowDocuments(df.height, GetColumns(df.columns, index.fieldNames)))
    ensures r.Pass? ==> index.committed == old(index.committed) + old(index.staged) + AcceptedDocs(ops[..df.height]) && index.staged == []
    ensures r.Fail? ==> index.committed == old(index.committed) && index.staged == old(index.staged) + AcceptedDocs(ops[..df.height])
  {
    var numRows := df.height;
    var columns := GetColumns(df.columns, index.fieldNames);
    GetColumnsHasRows(df, index.fieldNames);
    ghost var docs := RowDocuments(numRows, columns);
    PermutationBounds(order, numRows);
    var batchIndexer := new BatchIndexer(index);
    ghost var adds := [];
    for k := 0 to numRows
      invariant index.Valid()
      invariant index.history == old(index.history) + adds
      invariant Attempts(Permute(docs, order[..k]), adds)
      invariant index.committed == old(index.committed)
      invariant index.staged == old(index.staged) + AcceptedDocs(adds)
    {
      var row := order[k];
      RowDocumentsAt(numRows, columns, row);
      var rowMap := GetRowHashmap(columns, row);
      var ignored := batchIndexer.AddDocument(rowMap);
      ScheduledAdd(docs, order, k, adds, rowMap, ignored, old(index.staged), old(index.history));
      adds := adds + [AddOp(rowMap, ignored)];
    }
    assert order[..numRows] == order;
    r := batchIndexer.Commit();
    ScheduledCommit(docs, order, adds, CommitOp(r));
    AppendAssoc(old(index.committed), old(index.staged), AcceptedDocs(adds));
    AppendAssoc(old(index.history), adds, [CommitOp(r)]);
    ops := adds + [CommitOp(r)];
  }

  /** The example frame's columns. */
  const TestTitleColumn := Column("title", StringType, [Some("test title"), Some("test title 2")])
  const TestBodyColumn := Column("body", StringType, [Some("test body"), Some("test body 2")])

  /** The example frame: a title and a body column, two rows. */
  function LoadTestDf(): (df: DataFrame)
    ensures df.Valid() && df.height == 2
  {
    DataFrame(2, [TestTitleColumn, TestBodyColumn])
  }

  /** The documents of the example frame's two rows for an index whose field
      names hold "body", and also "title" exactly when `withTitle`. */
  function TestFrameRows(withTitle: bool): (docs: seq<Document>)
  {
    if withTitle then
      [map["title" := "test title", "body" := "test body"], map["title" := "test title 2", "body" := "test body 2"]]
    else
      [map["body" := "test body"], map["body" := "test body 2"]]
  }

  /** The documents of two rows are the documents of row 0 and of row 1. */
  lemma TwoRowDocuments(columns: seq<Column>)
    requires HasRows(columns, 2)
    ensures HasRow(columns, 0) && HasRow(columns, 1)
    ensures RowDocuments(2, columns) == [RowDocument(columns, 0), RowDocument(columns, 1)]
  {
    RowDocumentsAt(2, columns, 0);
    RowDocumentsAt(2, columns, 1);
  }

  /** The document of one text column's row. */
  lemma OneColumnDocument(a: Column, row: nat)
    requires row < |a.cells| && a.dtype == StringType
    ensures HasRow([a], row)
    ensures RowDocument([a], row) == map[a.name := CellText(a, row)]
  {
    assert [a][..0] == [];
  }

  /** The document of a row of two text columns. */
  lemma TwoColumnDocument(a: Column, b: Column, row: nat)
    requires row < |a.cells| && row < |b.cells| && a.dtype == StringType && b.dtype == StringType
    ensures HasRow([a, b], row)
    ensures RowDocument([a, b], row) == map[a.name := CellText(a, row)][b.name := CellText(b, row)]
  {
    assert [a, b][..1] == [a];
    OneColumnDocument(a, row);
  }

  /** Field names that include "body" select the body column, after the title
      column exactly when "title" is a field name too. */
  lemma TestFrameColumns(fieldNames: seq<string>)
    requires "body" in fieldNames
    ensures GetColumns(LoadTestDf().columns, fieldNames) ==
              if "title" in fieldNames then [TestTitleColumn, TestBodyColumn] else [TestBodyColumn]
  {
    var title, body := TestTitleColumn, TestBodyColumn;
    assert LoadTestDf().columns == [title] + [body];
    assert GetColumns([title], fieldNames) == (if "title" in fieldNames then [title] else []) by {
      assert [title][1..] == [];
    }
    assert GetColumns([body], fieldNames) == [body] by {
      assert [body][1..] == [];
    }
    GetColumnsKeepsOrder([title], [body], fieldNames);
  }

  /** Selected by field names that include "body", the example frame yields
      one document per row holding that row's body, and its title as well
      exactly when "title" is also a field name. */
  lemma TestFrameDocuments(fieldNames: seq<string>)
    requires "body" in fieldNames
    ensures RowDocuments(2, GetColumns(LoadTestDf().columns, fieldNames)) == TestFrameRows("title" in fieldNames)
  {
    TestFrameColumns(fieldNames);
    var title, body := TestTitleColumn, TestBodyColumn;
    if "title" in fieldNames {
      TwoRowDocuments([title, body]);
      TwoColumnDocument(title, body, 0);
      TwoColumnDocument(title, body, 1);
    } else {
      TwoRowDocuments([body]);
      OneColumnDocument(body, 0);
      OneColumnDocument(body, 1);
    }
  }
}
