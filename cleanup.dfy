/**
 * The script's entry point (main in cleanup.py): the requested number of
 * executions is capped at HARD_MAX, the query's rows are reshaped into the
 * per-alias ID lists, and those lists are handed to the deletion run.
 */
module Cleanup {
  import opened Wrappers
  import opened Selector
  import opened Deletion
  import opened Database
  import opened Runner
  import opened Sequences

  /** HARD_MAX: the most executions one invocation may select. */
  const HardMax: int := 1000

  /**
   * max_execs after main's cap: the request itself when it is at most
   * HardMax, HardMax otherwise. Nothing raises a request below HardMax, so
   * zero and negative requests pass through unchanged.
   */
  function Clamp(requested: int): (limit: int)
    ensures limit <= HardMax && limit <= requested
    ensures limit == requested || limit == HardMax
  {
    if requested > HardMax then HardMax else requested
  }

  /** The smaller of two integers, as a reference for the cap. */
  function Min(a: int, b: int): int {
    if a <= b then a else b
  }

  /** The cap is min(requested, HardMax), and capping twice changes nothing. */
  lemma ClampIsMin(requested: int)
    ensures Clamp(requested) == Min(requested, HardMax)
    ensures Clamp(Clamp(requested)) == Clamp(requested)
  {
  }

  /**
   * main(dry_run, max_execs, ...): cap the request, run the query with the
   * capped LIMIT (the rows it returns are given by fetch), reshape the rows
   * into row_dict and run delete_rows on it.
   */
  method Sweep(session: Session, dryRun: bool, maxExecs: int, fetch: int -> seq<seq<Cell>>)
    returns (limit: int, outcome: Outcome)
    requires Rectangular(fetch(Clamp(maxExecs)), |Headers|)
    modifies session
    ensures limit == Clamp(maxExecs)
    ensures (session.State(), outcome) ==
      DeleteRowsRun(old(session.State()), Reshape(Headers, fetch(limit)), dryRun, session.server)
  {
    limit := maxExecs;
    if limit > HardMax {
      limit := HardMax;
    }
    var rows := fetch(limit);
    var rowDict := GetRows(Headers, rows);
    outcome := session.DeleteRows(rowDict, dryRun);
  }

  /** Where each key of KeyOrder sits among the SELECT's columns. */
  function Column(i: nat): (h: nat)
    requires i < |KeyOrder|
    ensures h < |Headers| && Headers[h] == KeyOrder[i]
  {
    [2, 1, 0, 3, 5, 4][i]
  }

  /** A query that returned rows yields every key delete_rows looks up, so no KeyError is raised. */
  lemma FetchedPlanComplete(rows: seq<seq<Cell>>)
    requires Rectangular(rows, |Headers|) && rows != []
    ensures forall k | k in KeyOrder :: k in Reshape(Headers, rows)
    ensures Plan(Reshape(Headers, rows)).missing == None
  {
    ReshapeKeys(Headers, rows);
    forall k | k in KeyOrder ensures k in Reshape(Headers, rows) {
      var i :| 0 <= i < |KeyOrder| && KeyOrder[i] == k;
      assert Headers[Column(i)] == k;
    }
    PlanMissing(Reshape(Headers, rows));
  }

  /**
   * A query that returned no rows gives an empty row_dict: delete_rows
   * prints and deletes nothing and fails on its first lookup, of
   * base_report_id.
   */
  lemma EmptyFetchDeletesNothing(w: World, dryRun: bool, server: Server)
    ensures DeleteRowsRun(w, Reshape(Headers, []), dryRun, server) == (w, MissingKey("base_report_id"))
  {
    ReshapeKeys(Headers, []);
    EmptyResultFails();
  }

  /** The ID list stored under the i-th key of KeyOrder: the non-NULL IDs of its column, each once. */
  lemma KeyColumn(rows: seq<seq<Cell>>, i: nat)
    requires Rectangular(rows, |Headers|) && rows != [] && i < |KeyOrder|
    ensures KeyOrder[i] in Reshape(Headers, rows)
    ensures Distinct(Reshape(Headers, rows)[KeyOrder[i]])
    ensures ListsColumn(Reshape(Headers, rows)[KeyOrder[i]], rows, Column(i))
  {
    HeadersDistinct();
    ReshapeContents(Headers, rows, Column(i));
  }

  /**
   * Every entity-table DELETE the plan issues for fetched rows lists, each
   * once, exactly the non-NULL IDs of the column aliased to its table's key.
   */
  lemma DeletedIdsWereFetched(rows: seq<seq<Cell>>, table: string, ids: seq<int>)
    requires Rectangular(rows, |Headers|)
    requires TableDelete(table, ids) in Plan(Reshape(Headers, rows)).statements
    ensures ids != [] && Distinct(ids)
    ensures exists h :: 0 <= h < |Headers| && Headers[h] == table + "_id" && ListsColumn(ids, rows, h)
  {
    if rows == [] {
      ReshapeKeys(Headers, rows);
      EmptyResultFails();
      assert false;
    } else {
      var rowDict := Reshape(Headers, rows);
      PlanDeletesTable(rowDict, table, ids);
      var i :| 0 <= i < Reached(rowDict) && table == Tables[i] && ids == rowDict[KeyOrder[i]] && ids != [];
      KeyTables();
      KeyColumn(rows, i);
      assert Headers[Column(i)] == table + "_id";
    }
  }
}
