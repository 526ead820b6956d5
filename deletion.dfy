/**
 * The Deleter's plan (delete_rows in cleanup.py, without the database
 * calls): the fixed key order, the table name derived from each key, the
 * workflow_workflow_step rows cleared before a workflow or workflow_step
 * delete, and the text of every DELETE statement.
 */
module Deletion {
  import opened Wrappers
  import opened Decimal
  import opened Sequences

  /** What get_rows hands over: column alias to the IDs found in that column. */
  type RowDict = map<string, seq<int>>

  /** The order keys are visited in, chosen to respect the foreign keys. */
  const KeyOrder: seq<string> := [
    "base_report_id",
    "log_file_storage_request_id",
    "execution_id",
    "orchestrator_id",
    "workflow_step_id",
    "workflow_id"
  ]

  /** The tables deleted from, one per key of KeyOrder, in the same order. */
  const Tables: seq<string> := [
    "base_report",
    "log_file_storage_request",
    "execution",
    "orchestrator",
    "workflow_step",
    "workflow"
  ]

  /** The many-to-many table between workflow and workflow_step. */
  const JoinTable: string := "workflow_workflow_step"

  /** key[:-3]: the key without its last three characters. */
  function TableName(key: string): (table: string)
    ensures |key| >= 3 ==> table + key[|key| - 3..] == key
    ensures |key| < 3 ==> table == ""
  {
    if |key| >= 3 then key[..|key| - 3] else ""
  }

  /** workflow_tbl_field_map: the join-table column that refers to a table, for the two tables it refers to. */
  function JoinColumn(table: string): Option<string> {
    if table == "workflow" then Some("workflow_commands_id")
    else if table == "workflow_step" then Some("workflow_step_id")
    else None
  }

  /** The table a join-table column refers to; the inverse of JoinColumn. */
  function JoinOwner(column: string): Option<string> {
    if column == "workflow_commands_id" then Some("workflow")
    else if column == "workflow_step_id" then Some("workflow_step")
    else None
  }

  lemma JoinColumnOwner(table: string, column: string)
    ensures JoinColumn(table) == Some(column) <==> JoinOwner(column) == Some(table)
  {
  }

  /** One DELETE that delete_rows issues. */
  datatype Statement =
    | JoinDelete(column: string, ids: seq<int>)   // rows of workflow_workflow_step whose column is in ids
    | TableDelete(table: string, ids: seq<int>)   // rows of table whose id is in ids

  /** The statements for one key: nothing for an empty list, else the join-table delete (if any) and the table delete. */
  function Block(key: string, ids: seq<int>): seq<Statement> {
    if ids == [] then []
    else
      var table := TableName(key);
      (if JoinColumn(table).Some? then [JoinDelete(JoinColumn(table).value, ids)] else [])
      + [TableDelete(table, ids)]
  }

  /** The statements delete_rows emits, up to the first key missing from row_dict, if one is. */
  datatype DeletePlan = DeletePlan(statements: seq<Statement>, missing: Option<string>)

  /** The plan for the first n keys of KeyOrder; a missing key stops the walk with a KeyError. */
  function PlanPrefix(rowDict: RowDict, n: nat): DeletePlan
    requires n <= |KeyOrder|
  {
    if n == 0 then DeletePlan([], None)
    else
      var p := PlanPrefix(rowDict, n - 1);
      var key := KeyOrder[n - 1];
      if p.missing.Some? then p
      else if key !in rowDict then DeletePlan(p.statements, Some(key))
      else DeletePlan(p.statements + Block(key, rowDict[key]), None)
  }

  /** One step of the walk: the plan for n + 1 keys from the plan for n. */
  lemma PlanStep(rowDict: RowDict, n: nat)
    requires n < |KeyOrder|
    ensures var p, key := PlanPrefix(rowDict, n), KeyOrder[n];
      PlanPrefix(rowDict, n + 1) ==
        if p.missing.Some? then p
        else if key !in rowDict then DeletePlan(p.statements, Some(key))
        else DeletePlan(p.statements + Block(key, rowDict[key]), None)
  {
  }

  function Plan(rowDict: RowDict): DeletePlan {
    PlanPrefix(rowDict, |KeyOrder|)
  }

  /** The SQL text of a statement, with its ID list comma-joined. */
  function Render(st: Statement): string {
    match st
    case JoinDelete(column, ids) =>
      "DELETE FROM workflow_workflow_step WHERE " + column + " IN (" + JoinIds(ids) + ")"
    case TableDelete(table, ids) =>
      "DELETE FROM " + table + " WHERE id IN (" + JoinIds(ids) + ")"
  }

  // ---------------------------------------------------------------------------
  // The key order and the table names

  /** No two tables share a name: their names all differ in length. */
  lemma TablesDistinct()
    ensures Distinct(Tables)
  {
    forall i, j | 0 <= i < j < |Tables| ensures Tables[i] != Tables[j] {
      assert |Tables[i]| != |Tables[j]|;
    }
  }

  /** What the walk derives from the n-th key: its table, that table's index and its join-table column. */
  lemma TableFacts(n: nat)
    requires n < |KeyOrder|
    ensures TableName(KeyOrder[n]) == Tables[n] && Tables[n] + "_id" == KeyOrder[n]
    ensures TableIndex(Tables[n]) == n
    ensures JoinColumn(Tables[n]) ==
      if n == 4 then Some("workflow_step_id") else if n == 5 then Some("workflow_commands_id") else None
  {
    var key := KeyOrder[n];
    assert key == Tables[n] + "_id";
    assert key[..|key| - 3] == Tables[n];
    if n == 0 {
    } else if n == 1 {
    } else if n == 2 {
    } else if n == 3 {
    } else if n == 4 {
    } else {
    }
  }

  /** Each key names its table followed by "_id", and no two keys or tables coincide. */
  lemma KeyTables()
    ensures |Tables| == |KeyOrder|
    ensures forall i | 0 <= i < |KeyOrder| :: TableName(KeyOrder[i]) == Tables[i] && Tables[i] + "_id" == KeyOrder[i]
    ensures Distinct(KeyOrder) && Distinct(Tables)
  {
    TablesDistinct();
    forall i | 0 <= i < |KeyOrder|
      ensures TableName(KeyOrder[i]) == Tables[i] && Tables[i] + "_id" == KeyOrder[i]
    {
      TableFacts(i);
    }
    forall i, j | 0 <= i < j < |KeyOrder| ensures KeyOrder[i] != KeyOrder[j] {
      assert |KeyOrder[i]| != |KeyOrder[j]|;
    }
  }

  /** The index of a table in Tables, or |Tables| for any other name. */
  function TableIndex(table: string): (k: nat)
    ensures k <= |Tables|
    ensures k < |Tables| ==> Tables[k] == table
  {
    if table == Tables[0] then 0
    else if table == Tables[1] then 1
    else if table == Tables[2] then 2
    else if table == Tables[3] then 3
    else if table == Tables[4] then 4
    else if table == Tables[5] then 5
    else 6
  }

  /**
   * Where a statement sits in the fixed order: the delete of the k-th table
   * at 2k+1, the join-table delete that clears the way for it at 2k.
   */
  function Position(st: Statement): nat {
    match st
    case TableDelete(table, _) => 2 * TableIndex(table) + 1
    case JoinDelete(column, _) =>
      if JoinOwner(column).Some? then 2 * TableIndex(JoinOwner(column).value) else 2 * |Tables| + 1
  }

  // ---------------------------------------------------------------------------
  // Properties of the plan

  /** Positions strictly increase along the statements. */
  predicate Increasing(stmts: seq<Statement>) {
    Ascending(stmts, Position)
  }

  lemma BlockPositions(n: nat, ids: seq<int>)
    requires n < |KeyOrder|
    ensures Increasing(Block(KeyOrder[n], ids))
    ensures Bounded(Block(KeyOrder[n], ids), Position, 2 * n, 2 * n + 2)
  {
    TableFacts(n);
    var table := TableName(KeyOrder[n]);
    if ids != [] {
      var t := TableDelete(table, ids);
      assert Position(t) == 2 * n + 1;
      if JoinColumn(table).Some? {
        var j := JoinDelete(JoinColumn(table).value, ids);
        JoinColumnOwner(table, JoinColumn(table).value);
        assert Position(j) == 2 * n;
        assert Block(KeyOrder[n], ids) == [j, t];
      } else {
        assert Block(KeyOrder[n], ids) == [t];
      }
    }
  }

  lemma {:induction false} PrefixPositions(rowDict: RowDict, n: nat)
    requires n <= |KeyOrder|
    ensures Increasing(PlanPrefix(rowDict, n).statements)
    ensures Bounded(PlanPrefix(rowDict, n).statements, Position, 0, 2 * n)
  {
    if n > 0 {
      PrefixPositions(rowDict, n - 1);
      PlanStep(rowDict, n - 1);
      var p := PlanPrefix(rowDict, n - 1);
      var key := KeyOrder[n - 1];
      if p.missing.None? && key in rowDict {
        BlockPositions(n - 1, rowDict[key]);
        AscendingConcat(p.statements, Block(key, rowDict[key]), Position, 0, 2 * (n - 1), 2 * n);
      }
    }
  }

  /**
   * Statements come out in the fixed table order: base_report,
   * log_file_storage_request, execution, orchestrator, workflow_step,
   * workflow, each join-table delete just ahead of its table's, and no
   * position twice.
   */
  lemma PlanOrdered(rowDict: RowDict)
    ensures Increasing(Plan(rowDict).statements)
  {
    PrefixPositions(rowDict, |KeyOrder|);
  }

  /** The index of the first key missing from rowDict, or |KeyOrder| if there is none. */
  function Reached(rowDict: RowDict): (n: nat)
    ensures n <= |KeyOrder|
    ensures forall i | 0 <= i < n :: KeyOrder[i] in rowDict
    ensures n < |KeyOrder| ==> KeyOrder[n] !in rowDict
  {
    ReachedFrom(rowDict, 0)
  }

  function ReachedFrom(rowDict: RowDict, k: nat): (n: nat)
    requires k <= |KeyOrder|
    requires forall i | 0 <= i < k :: KeyOrder[i] in rowDict
    ensures k <= n <= |KeyOrder|
    ensures forall i | 0 <= i < n :: KeyOrder[i] in rowDict
    ensures n < |KeyOrder| ==> KeyOrder[n] !in rowDict
    decreases |KeyOrder| - k
  {
    if k == |KeyOrder| || KeyOrder[k] !in rowDict then k else ReachedFrom(rowDict, k + 1)
  }

  lemma {:induction false} PrefixMissing(rowDict: RowDict, n: nat)
    requires n <= |KeyOrder|
    ensures PlanPrefix(rowDict, n).missing ==
      if Reached(rowDict) < n then Some(KeyOrder[Reached(rowDict)]) else None
  {
    if n > 0 {
      PrefixMissing(rowDict, n - 1);
    }
  }

  /**
   * The walk stops with a KeyError at the first key of KeyOrder that
   * row_dict lacks, and completes exactly when row_dict has all six keys.
   */
  lemma PlanMissing(rowDict: RowDict)
    ensures Plan(rowDict).missing.None? <==> forall k | k in KeyOrder :: k in rowDict
    ensures Plan(rowDict).missing.Some? ==>
      exists n :: 0 <= n < |KeyOrder| && Plan(rowDict).missing == Some(KeyOrder[n]) && KeyOrder[n] !in rowDict &&
        forall i | 0 <= i < n :: KeyOrder[i] in rowDict
  {
    PrefixMissing(rowDict, |KeyOrder|);
    var n := Reached(rowDict);
    if n < |KeyOrder| {
      assert KeyOrder[n] in KeyOrder;
    }
  }

  lemma {:induction false} EmptyPrefix(n: nat)
    requires 1 <= n <= |KeyOrder|
    ensures PlanPrefix(map[], n) == DeletePlan([], Some(KeyOrder[0]))
  {
    if n > 1 {
      EmptyPrefix(n - 1);
    }
  }

  /** An empty result from the query leaves no keys, so the walk fails on its first lookup, before any statement. */
  lemma EmptyResultFails()
    ensures Plan(map[]) == DeletePlan([], Some("base_report_id"))
  {
    EmptyPrefix(|KeyOrder|);
  }

  /** Key i was reached without a KeyError and its block holds st. */
  predicate Emitted(rowDict: RowDict, i: nat, st: Statement)
    requires i < |KeyOrder|
  {
    i < Reached(rowDict) && st in Block(KeyOrder[i], rowDict[KeyOrder[i]])
  }

  /** One of the first n keys was reached and its block holds st. */
  predicate EmittedBelow(rowDict: RowDict, n: nat, st: Statement)
    requires n <= |KeyOrder|
  {
    exists i :: 0 <= i < n && Emitted(rowDict, i, st)
  }

  /** Some key below n emitted st: one below n - 1 did, or key n - 1 did. */
  lemma EmittedSplit(rowDict: RowDict, n: nat, st: Statement)
    requires 0 < n <= |KeyOrder|
    ensures EmittedBelow(rowDict, n, st) <==> EmittedBelow(rowDict, n - 1, st) || Emitted(rowDict, n - 1, st)
  {
    if EmittedBelow(rowDict, n, st) {
      var i :| 0 <= i < n && Emitted(rowDict, i, st);
      if i < n - 1 {
        assert EmittedBelow(rowDict, n - 1, st);
      }
    }
  }

  /** The plan for n keys holds st when the plan for n - 1 keys does, or key n - 1 emitted it. */
  lemma PrefixHas(rowDict: RowDict, n: nat, st: Statement)
    requires 0 < n <= |KeyOrder|
    ensures st in PlanPrefix(rowDict, n).statements <==>
      st in PlanPrefix(rowDict, n - 1).statements || Emitted(rowDict, n - 1, st)
  {
    PlanStep(rowDict, n - 1);
    PrefixMissing(rowDict, n - 1);
  }

  lemma {:induction false} PrefixContents(rowDict: RowDict, n: nat, st: Statement)
    requires n <= |KeyOrder|
    ensures st in PlanPrefix(rowDict, n).statements <==> EmittedBelow(rowDict, n, st)
  {
    if n > 0 {
      PrefixContents(rowDict, n - 1, st);
      PrefixHas(rowDict, n, st);
      EmittedSplit(rowDict, n, st);
    }
  }

  lemma BlockContents(i: nat, ids: seq<int>, st: Statement)
    requires i < |KeyOrder|
    ensures st in Block(KeyOrder[i], ids) <==>
      ids != [] && (st == TableDelete(Tables[i], ids) || (JoinColumn(Tables[i]).Some? && st == JoinDelete(JoinColumn(Tables[i]).value, ids)))
  {
    KeyTables();
  }

  /**
   * The plan deletes from table i exactly when key i was reached and its
   * list is not empty, and then over that list. An empty list yields no
   * statement.
   */
  lemma PlanDeletesTable(rowDict: RowDict, table: string, ids: seq<int>)
    ensures TableDelete(table, ids) in Plan(rowDict).statements <==>
      exists i :: 0 <= i < Reached(rowDict) && table == Tables[i] && ids == rowDict[KeyOrder[i]] && ids != []
  {
    var st := TableDelete(table, ids);
    PrefixContents(rowDict, |KeyOrder|, st);
    if st in Plan(rowDict).statements {
      var i :| 0 <= i < |KeyOrder| && Emitted(rowDict, i, st);
      BlockContents(i, rowDict[KeyOrder[i]], st);
    }
    forall i | 0 <= i < Reached(rowDict) && table == Tables[i] && ids == rowDict[KeyOrder[i]] && ids != []
      ensures Emitted(rowDict, i, st)
    {
      BlockContents(i, rowDict[KeyOrder[i]], st);
    }
  }

  /**
   * The plan deletes join-table rows by a column exactly when it deletes,
   * over the same non-empty list, from the table that column refers to
   * (workflow_commands_id for workflow, workflow_step_id for workflow_step).
   */
  lemma PlanDeletesLinks(rowDict: RowDict, column: string, ids: seq<int>)
    ensures JoinDelete(column, ids) in Plan(rowDict).statements <==>
      exists i :: 0 <= i < Reached(rowDict) && JoinColumn(Tables[i]) == Some(column) && ids == rowDict[KeyOrder[i]] && ids != []
  {
    var st := JoinDelete(column, ids);
    PrefixContents(rowDict, |KeyOrder|, st);
    if st in Plan(rowDict).statements {
      var i :| 0 <= i < |KeyOrder| && Emitted(rowDict, i, st);
      BlockContents(i, rowDict[KeyOrder[i]], st);
    }
    forall i | 0 <= i < Reached(rowDict) && JoinColumn(Tables[i]) == Some(column) && ids == rowDict[KeyOrder[i]] && ids != []
      ensures Emitted(rowDict, i, st)
    {
      BlockContents(i, rowDict[KeyOrder[i]], st);
    }
  }

  // ---------------------------------------------------------------------------
  // Each entity delete is immediately preceded by its join-table delete

  /**
   * At position i: a delete of workflow or workflow_step comes right after
   * the delete of the join-table rows referring to the same IDs, and a
   * join-table delete comes right before the delete of the table its
   * column refers to.
   */
  predicate AdjacentAt(stmts: seq<Statement>, i: nat)
    requires i < |stmts|
  {
    && (stmts[i].TableDelete? && JoinColumn(stmts[i].table).Some? ==>
          0 < i && stmts[i - 1] == JoinDelete(JoinColumn(stmts[i].table).value, stmts[i].ids))
    && (stmts[i].JoinDelete? ==>
          i + 1 < |stmts| && JoinOwner(stmts[i].column).Some? &&
          stmts[i + 1] == TableDelete(JoinOwner(stmts[i].column).value, stmts[i].ids))
  }

  predicate JoinDeletesAdjacent(stmts: seq<Statement>) {
    forall i | 0 <= i < |stmts| :: AdjacentAt(stmts, i)
  }

  lemma AdjacentConcat(a: seq<Statement>, b: seq<Statement>)
    requires JoinDeletesAdjacent(a) && JoinDeletesAdjacent(b)
    requires b != [] ==> !b[0].TableDelete? || JoinColumn(b[0].table).None?
    ensures JoinDeletesAdjacent(a + b)
  {
    var s := a + b;
    forall i | 0 <= i < |s|
      ensures AdjacentAt(s, i)
    {
      if i < |a| {
        assert AdjacentAt(a, i);
        assert s[i] == a[i];
        if i > 0 { assert s[i - 1] == a[i - 1]; }
        if i + 1 < |a| { assert s[i + 1] == a[i + 1]; }
      } else {
        var k := i - |a|;
        assert AdjacentAt(b, k);
        assert s[i] == b[k];
        if k > 0 { assert s[i - 1] == b[k - 1]; }
        if k + 1 < |b| { assert s[i + 1] == b[k + 1]; }
      }
    }
  }

  lemma BlockAdjacent(key: string, ids: seq<int>)
    ensures JoinDeletesAdjacent(Block(key, ids))
    ensures Block(key, ids) != [] ==> !Block(key, ids)[0].TableDelete? || JoinColumn(Block(key, ids)[0].table).None?
  {
    var table := TableName(key);
    if ids != [] && JoinColumn(table).Some? {
      JoinColumnOwner(table, JoinColumn(table).value);
    }
  }

  lemma {:induction false} PrefixAdjacent(rowDict: RowDict, n: nat)
    requires n <= |KeyOrder|
    ensures JoinDeletesAdjacent(PlanPrefix(rowDict, n).statements)
  {
    if n > 0 {
      PrefixAdjacent(rowDict, n - 1);
      var p := PlanPrefix(rowDict, n - 1);
      var key := KeyOrder[n - 1];
      if p.missing.None? && key in rowDict {
        BlockAdjacent(key, rowDict[key]);
        AdjacentConcat(p.statements, Block(key, rowDict[key]));
      }
    }
  }

  lemma PlanJoinDeletesAdjacent(rowDict: RowDict)
    ensures JoinDeletesAdjacent(Plan(rowDict).statements)
  {
    PrefixAdjacent(rowDict, |KeyOrder|);
  }

  // ---------------------------------------------------------------------------
  // The statement text, read back

  /** A statement as the database reads it: DELETE FROM table WHERE column IN (ids). */
  datatype Query = Query(table: string, column: string, ids: seq<int>)

  /** What a statement deletes: join-table rows by one of its columns, or a table's rows by id. */
  function Target(st: Statement): Query {
    match st
    case JoinDelete(column, ids) => Query(JoinTable, column, ids)
    case TableDelete(table, ids) => Query(table, "id", ids)
  }

  function QueryText(q: Query): string {
    "DELETE FROM " + q.table + " WHERE " + q.column + " IN (" + JoinIds(q.ids) + ")"
  }

  predicate IsNameChar(c: char) {
    'a' <= c <= 'z' || 'A' <= c <= 'Z' || '0' <= c <= '9' || c == '_'
  }

  /** A table or column name: one or more letters, digits or underscores. */
  predicate IsName(s: string) {
    |s| > 0 && forall i | 0 <= i < |s| :: IsNameChar(s[i])
  }

  /** The length of the longest name at the start of s. */
  function NameLength(s: string): (n: nat)
    ensures n <= |s|
  {
    if s == [] || !IsNameChar(s[0]) then 0 else 1 + NameLength(s[1..])
  }

  function StripPrefix(prefix: string, s: string): Option<string> {
    if |prefix| <= |s| && s[..|prefix|] == prefix then Some(s[|prefix|..]) else None
  }

  /** Reads DELETE FROM <name> WHERE <name> IN (<ids>), or fails. */
  function ParseDelete(s: string): Option<Query> {
    match StripPrefix("DELETE FROM ", s)
    case None => None
    case Some(rest) => ParseTable(rest)
  }

  function ParseTable(s: string): Option<Query> {
    var n := NameLength(s);
    if n == 0 then None
    else match StripPrefix(" WHERE ", s[n..])
      case None => None
      case Some(rest) => ParseColumn(s[..n], rest)
  }

  function ParseColumn(table: string, s: string): Option<Query> {
    var n := NameLength(s);
    if n == 0 then None
    else match StripPrefix(" IN (", s[n..])
      case None => None
      case Some(rest) => ParseList(table, s[..n], rest)
  }

  function ParseList(table: string, column: string, s: string): Option<Query> {
    if s == [] || s[|s| - 1] != ')' then None
    else match ParseIds(s[..|s| - 1])
      case None => None
      case Some(ids) => Some(Query(table, column, ids))
  }

  lemma {:induction false} NameLengthOf(name: string, rest: string)
    requires forall i | 0 <= i < |name| :: IsNameChar(name[i])
    requires rest != [] && !IsNameChar(rest[0])
    ensures NameLength(name + rest) == |name|
  {
    if name != [] {
      assert (name + rest)[1..] == name[1..] + rest;
      NameLengthOf(name[1..], rest);
    } else {
      assert name + rest == rest;
    }
  }

  lemma StripPrefixOf(prefix: string, rest: string)
    ensures StripPrefix(prefix, prefix + rest) == Some(rest)
  {
    assert (prefix + rest)[..|prefix|] == prefix;
    assert (prefix + rest)[|prefix|..] == rest;
  }

  lemma ParseDeleteOf(rest: string)
    ensures ParseDelete("DELETE FROM " + rest) == ParseTable(rest)
  {
    StripPrefixOf("DELETE FROM ", rest);
  }

  lemma ParseListOf(table: string, column: string, ids: seq<int>)
    requires ids != []
    ensures ParseList(table, column, JoinIds(ids) + ")") == Some(Query(table, column, ids))
  {
    var s := JoinIds(ids) + ")";
    assert s[..|s| - 1] == JoinIds(ids);
    IdListRoundTrip(ids);
  }

  lemma ParseColumnOf(table: string, column: string, rest: string)
    requires IsName(column)
    ensures ParseColumn(table, column + " IN (" + rest) == ParseList(table, column, rest)
  {
    var s := column + " IN (" + rest;
    assert s == column + (" IN (" + rest);
    NameLengthOf(column, " IN (" + rest);
    assert s[|column|..] == " IN (" + rest;
    assert s[..|column|] == column;
    StripPrefixOf(" IN (", rest);
  }

  lemma ParseTableOf(table: string, rest: string)
    requires IsName(table)
    ensures ParseTable(table + " WHERE " + rest) == ParseColumn(table, rest)
  {
    var s := table + " WHERE " + rest;
    assert s == table + (" WHERE " + rest);
    NameLengthOf(table, " WHERE " + rest);
    assert s[|table|..] == " WHERE " + rest;
    assert s[..|table|] == table;
    StripPrefixOf(" WHERE ", rest);
  }

  /** A statement naming a table and a column by plain names over a non-empty ID list is read back exactly. */
  lemma QueryRoundTrip(q: Query)
    requires IsName(q.table) && IsName(q.column) && q.ids != []
    ensures ParseDelete(QueryText(q)) == Some(q)
  {
    var list := JoinIds(q.ids) + ")";
    var afterColumn := q.column + " IN (" + list;
    var afterTable := q.table + " WHERE " + afterColumn;
    Regroup("DELETE FROM ", q.table, " WHERE ", q.column, " IN (", JoinIds(q.ids), ")");
    ParseDeleteOf(afterTable);
    ParseTableOf(q.table, afterColumn);
    ParseColumnOf(q.table, q.column, list);
    ParseListOf(q.table, q.column, q.ids);
  }

  lemma JoinPrefixText()
    ensures "DELETE FROM workflow_workflow_step WHERE " == "DELETE FROM " + JoinTable + " WHERE "
  {
  }

  lemma IdPredicateText()
    ensures " WHERE id IN (" == " WHERE " + "id" + " IN ("
  {
  }

  /** Both forms of statement text are the text of their target. */
  lemma RenderIsQueryText(st: Statement)
    ensures Render(st) == QueryText(Target(st))
  {
    var ids := JoinIds(st.ids);
    match st
    case JoinDelete(column, _) =>
      JoinPrefixText();
    case TableDelete(table, _) =>
      IdPredicateText();
      var head := "DELETE FROM " + table;
      assert Render(st) == head + " WHERE id IN (" + ids + ")";
      assert QueryText(Target(st)) == head + " WHERE " + "id" + " IN (" + ids + ")";
      assert head + " WHERE " + "id" + " IN (" == head + (" WHERE " + "id" + " IN (");
  }

  /** Statements the plan can produce: plain names and a non-empty ID list. */
  predicate WellFormed(st: Statement) {
    && st.ids != []
    && match st
       case JoinDelete(column, _) => IsName(column)
       case TableDelete(table, _) => IsName(table)
  }

  /**
   * The text of a well-formed statement, DELETE FROM <table> WHERE id IN
   * (<ids>) or DELETE FROM workflow_workflow_step WHERE <column> IN (<ids>),
   * is read back as exactly the rows the statement is meant to delete.
   */
  lemma RenderRoundTrip(st: Statement)
    requires WellFormed(st)
    ensures ParseDelete(Render(st)) == Some(Target(st))
  {
    RenderIsQueryText(st);
    TargetNames();
    QueryRoundTrip(Target(st));
  }

  lemma TablesAreNames()
    ensures forall i | 0 <= i < |Tables| :: IsName(Tables[i])
  {
  }

  lemma TargetNames()
    ensures IsName(JoinTable) && IsName("id")
  {
  }

  lemma JoinColumnsAreNames()
    ensures IsName("workflow_commands_id") && IsName("workflow_step_id")
  {
  }

  /** Every statement of every plan is well formed. */
  lemma PlanWellFormed(rowDict: RowDict, st: Statement)
    requires st in Plan(rowDict).statements
    ensures WellFormed(st)
  {
    TablesAreNames();
    JoinColumnsAreNames();
    match st
    case TableDelete(table, ids) =>
      PlanDeletesTable(rowDict, table, ids);
    case JoinDelete(column, ids) =>
      PlanDeletesLinks(rowDict, column, ids);
  }
}
