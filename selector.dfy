/**
 * The Selector's reshape (get_rows in cleanup.py, after the query has been
 * fetched): the joined result rows become columns, and each column becomes
 * the NULL-free, duplicate-free list of IDs for the column's alias.
 */
module Selector {
  import opened Sequences

  /** One cell of a fetched row: the ID of a joined record, or NULL from an outer join. */
  datatype Cell = Null | Id(value: int)

  /** The aliases of the SELECT, in column order. */
  const Headers: seq<string> := [
    "execution_id",
    "log_file_storage_request_id",
    "base_report_id",
    "orchestrator_id",
    "workflow_id",
    "workflow_step_id"
  ]

  /** No two aliases coincide: their lengths all differ. */
  lemma HeadersDistinct()
    ensures Distinct(Headers)
  {
    forall i, j | 0 <= i < j < |Headers| ensures Headers[i] != Headers[j] {
      assert |Headers[i]| != |Headers[j]|;
    }
  }

  /** Every fetched row has one cell per column header. */
  predicate Rectangular(rows: seq<seq<Cell>>, width: nat) {
    forall r | r in rows :: |r| == width
  }

  /** list(zip(*rows)): column i holds the i-th cell of every row; no rows give no columns at all. */
  function Transpose(rows: seq<seq<Cell>>, width: nat): (cols: seq<seq<Cell>>)
    requires Rectangular(rows, width)
    ensures |cols| == if rows == [] then 0 else width
    ensures forall i | 0 <= i < |cols| :: |cols[i]| == |rows|
  {
    if rows == [] then []
    else seq(width, i requires 0 <= i < width => seq(|rows|, j requires 0 <= j < |rows| => rows[j][i]))
  }

  /** Column i, cell j of the transpose is row j, cell i. */
  lemma TransposeCells(rows: seq<seq<Cell>>, width: nat)
    requires Rectangular(rows, width)
    ensures forall i, j | 0 <= i < |Transpose(rows, width)| && 0 <= j < |rows| ::
      Transpose(rows, width)[i][j] == rows[j][i]
  {
  }

  /** filter(lambda v: v is not None, column) */
  function NonNull(cells: seq<Cell>): (ids: seq<int>)
    ensures forall v :: v in ids <==> Id(v) in cells
  {
    if cells == [] then []
    else (if cells[0].Id? then [cells[0].value] else []) + NonNull(cells[1..])
  }

  /**
   * list(set(xs)): every value of xs exactly once. The model keeps the order
   * of first occurrences; Python's order comes from set iteration.
   */
  function Dedup(xs: seq<int>): (r: seq<int>)
    ensures Distinct(r)
    ensures forall v :: v in r <==> v in xs
  {
    if xs == [] then []
    else
      var d := Dedup(xs[..|xs| - 1]);
      var last := xs[|xs| - 1];
      assert forall v :: v in xs <==> v in xs[..|xs| - 1] || v == last;
      if last in d then d else d + [last]
  }

  /** The ID list stored for one column. */
  function IdList(column: seq<Cell>): (ids: seq<int>)
    ensures Distinct(ids)
    ensures forall v :: v in ids <==> Id(v) in column
  {
    Dedup(NonNull(column))
  }

  /** row_dict after its first n columns: header i maps to column i's IDs (a repeated header keeps the later column). */
  function ReshapePrefix(headers: seq<string>, cols: seq<seq<Cell>>, n: nat): map<string, seq<int>>
    requires n <= |cols| <= |headers|
  {
    if n == 0 then map[] else ReshapePrefix(headers, cols, n - 1)[headers[n - 1] := IdList(cols[n - 1])]
  }

  /** The dictionary get_rows returns for the fetched rows and the result's column headers. */
  function Reshape(headers: seq<string>, rows: seq<seq<Cell>>): map<string, seq<int>>
    requires Rectangular(rows, |headers|)
  {
    var cols := Transpose(rows, |headers|);
    ReshapePrefix(headers, cols, |cols|)
  }

  /** get_rows' loop: one dictionary entry per column, written in place. */
  method GetRows(headers: seq<string>, rows: seq<seq<Cell>>) returns (rowDict: map<string, seq<int>>)
    requires Rectangular(rows, |headers|)
    ensures rowDict == Reshape(headers, rows)
  {
    var cols := Transpose(rows, |headers|);
    assert |cols| <= |headers|;
    rowDict := map[];
    var i := 0;
    while i < |cols|
      invariant i <= |cols| <= |headers|
      invariant rowDict == ReshapePrefix(headers, cols, i)
    {
      rowDict := rowDict[headers[i] := IdList(cols[i])];
      i := i + 1;
    }
  }

  lemma {:induction false} ReshapePrefixKeys(headers: seq<string>, cols: seq<seq<Cell>>, n: nat)
    requires n <= |cols| <= |headers|
    ensures ReshapePrefix(headers, cols, n).Keys == set i | 0 <= i < n :: headers[i]
  {
    if n > 0 {
      ReshapePrefixKeys(headers, cols, n - 1);
      ImageSnoc(headers, n);
    }
  }

  lemma {:induction false} ReshapePrefixAt(headers: seq<string>, cols: seq<seq<Cell>>, n: nat, i: nat)
    requires n <= |cols| <= |headers| && Distinct(headers) && i < n
    ensures headers[i] in ReshapePrefix(headers, cols, n)
    ensures ReshapePrefix(headers, cols, n)[headers[i]] == IdList(cols[i])
  {
    if i < n - 1 {
      ReshapePrefixAt(headers, cols, n - 1, i);
    }
  }

  /**
   * The keys of the reshaped dictionary are the column headers when the
   * query returned at least one row, and there are no keys at all when it
   * returned none.
   */
  lemma ReshapeKeys(headers: seq<string>, rows: seq<seq<Cell>>)
    requires Rectangular(rows, |headers|)
    ensures rows == [] ==> Reshape(headers, rows) == map[]
    ensures rows != [] ==> Reshape(headers, rows).Keys == set i | 0 <= i < |headers| :: headers[i]
  {
    ReshapePrefixKeys(headers, cols := Transpose(rows, |headers|), n := |Transpose(rows, |headers|)|);
  }

  /** v is the non-NULL value at position i of some row. */
  ghost predicate InColumn(rows: seq<seq<Cell>>, i: nat, v: int) {
    exists j :: 0 <= j < |rows| && i < |rows[j]| && rows[j][i] == Id(v)
  }

  /** ids holds exactly the non-NULL values at position i of the rows. */
  ghost predicate ListsColumn(ids: seq<int>, rows: seq<seq<Cell>>, i: nat) {
    forall v :: v in ids <==> InColumn(rows, i, v)
  }

  /**
   * For the header at position i, its list holds exactly the non-NULL
   * values found at position i of some row, each once.
   */
  lemma ReshapeContents(headers: seq<string>, rows: seq<seq<Cell>>, i: nat)
    requires Rectangular(rows, |headers|) && Distinct(headers)
    requires rows != [] && i < |headers|
    ensures headers[i] in Reshape(headers, rows)
    ensures Distinct(Reshape(headers, rows)[headers[i]])
    ensures ListsColumn(Reshape(headers, rows)[headers[i]], rows, i)
  {
    var cols := Transpose(rows, |headers|);
    TransposeCells(rows, |headers|);
    ReshapePrefixAt(headers, cols, |cols|, i);
    forall v
      ensures Id(v) in cols[i] <==> InColumn(rows, i, v)
    {
      if Id(v) in cols[i] {
        var j :| 0 <= j < |cols[i]| && cols[i][j] == Id(v);
        assert rows[j][i] == Id(v);
      }
    }
  }
}
