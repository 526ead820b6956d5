/**
 * An abstract view of the database the Deleter works on: for each entity
 * table the set of row IDs it holds, and the rows of the
 * workflow_workflow_step join table. It states which rows each DELETE
 * removes, that the plan never leaves a join-table row pointing at a
 * deleted workflow or workflow_step, and that running the plan a second
 * time removes nothing more.
 */
module Database {
  import opened Wrappers
  import opened Deletion
  import opened Sequences

  /** A workflow_workflow_step row: (workflow_commands_id, workflow_step_id). */
  datatype Link = Link(workflow: int, step: int)

  datatype Db = Db(rows: map<string, set<int>>, links: set<Link>)

  /** The set of IDs an IN (...) list matches. */
  function Matched(ids: seq<int>): set<int> {
    set i | i in ids
  }

  /** The value a join-table row holds in a column; None for a column the join table does not have. */
  function LinkColumn(l: Link, column: string): Option<int> {
    if column == "workflow_commands_id" then Some(l.workflow)
    else if column == "workflow_step_id" then Some(l.step)
    else None
  }

  /** The rows one DELETE removes: those of its table whose column value is in its list. */
  function Delete(db: Db, q: Query): (r: Db)
    ensures r.rows.Keys == db.rows.Keys && r.links <= db.links
    ensures forall t | t in db.rows :: r.rows[t] <= db.rows[t]
  {
    if q.table == JoinTable then
      db.(links := set l | l in db.links && (LinkColumn(l, q.column).None? || LinkColumn(l, q.column).value !in Matched(q.ids)))
    else if q.column == "id" && q.table in db.rows then
      db.(rows := db.rows[q.table := db.rows[q.table] - Matched(q.ids)])
    else db
  }

  /** The state after the given DELETEs, run one after another. */
  function DeleteAll(db: Db, qs: seq<Query>): Db
  {
    if qs == [] then db else Delete(DeleteAll(db, qs[..|qs| - 1]), qs[|qs| - 1])
  }

  function Targets(stmts: seq<Statement>): (qs: seq<Query>)
    ensures |qs| == |stmts|
    ensures forall i | 0 <= i < |stmts| :: qs[i] == Target(stmts[i])
  {
    seq(|stmts|, i requires 0 <= i < |stmts| => Target(stmts[i]))
  }

  lemma TargetsConcat(a: seq<Statement>, b: seq<Statement>)
    ensures Targets(a + b) == Targets(a) + Targets(b)
  {
    var l, r := Targets(a + b), Targets(a) + Targets(b);
    assert |l| == |r|;
    forall i | 0 <= i < |l| ensures l[i] == r[i] {
      if i < |a| {
        assert (a + b)[i] == a[i];
      } else {
        assert (a + b)[i] == b[i - |a|];
      }
    }
  }

  lemma {:induction false} DeleteAllConcat(db: Db, a: seq<Query>, b: seq<Query>)
    ensures DeleteAll(db, a + b) == DeleteAll(DeleteAll(db, a), b)
  {
    if b != [] {
      assert (a + b)[..|a + b| - 1] == a + b[..|b| - 1];
      DeleteAllConcat(db, a, b[..|b| - 1]);
    } else {
      assert a + b == a;
    }
  }

  // ---------------------------------------------------------------------------
  // The join table keeps pointing at existing rows

  /** Every join-table row refers to a workflow and a workflow_step that exist. */
  predicate LinksIntact(db: Db) {
    forall l | l in db.links ::
      && "workflow" in db.rows && l.workflow in db.rows["workflow"]
      && "workflow_step" in db.rows && l.step in db.rows["workflow_step"]
  }

  /** LinksIntact holds before, between and after the given statements. */
  predicate IntactThroughout(db: Db, stmts: seq<Statement>) {
    forall n | 0 <= n <= |stmts| :: LinksIntact(DeleteAll(db, Targets(stmts[..n])))
  }

  lemma IntactConcat(db: Db, a: seq<Statement>, b: seq<Statement>)
    requires IntactThroughout(db, a)
    requires IntactThroughout(DeleteAll(db, Targets(a)), b)
    ensures IntactThroughout(db, a + b)
  {
    var s := a + b;
    forall n | 0 <= n <= |s|
      ensures LinksIntact(DeleteAll(db, Targets(s[..n])))
    {
      if n <= |a| {
        assert s[..n] == a[..n];
      } else {
        var m := n - |a|;
        assert s[..n] == a + b[..m];
        assert Targets(a + b[..m]) == Targets(a) + Targets(b[..m]);
        assert a[..|a|] == a;
        DeleteAllConcat(db, Targets(a), Targets(b[..m]));
        assert LinksIntact(DeleteAll(DeleteAll(db, Targets(a)), Targets(b[..m])));
      }
    }
  }

  /** Deleting rows of a table that no join-table row refers to keeps the join table intact. */
  lemma DeleteKeepsIntact(db: Db, q: Query)
    requires LinksIntact(db)
    requires q.table == "workflow" ==> forall l | l in db.links :: l.workflow !in Matched(q.ids)
    requires q.table == "workflow_step" ==> forall l | l in db.links :: l.step !in Matched(q.ids)
    ensures LinksIntact(Delete(db, q))
  {
  }

  lemma OneStatement(db: Db, st: Statement)
    ensures DeleteAll(db, Targets([st])) == Delete(db, Target(st))
  {
    assert Targets([st])[..0] == [];
  }

  lemma TwoStatements(db: Db, a: Statement, b: Statement)
    ensures DeleteAll(db, Targets([a, b])) == Delete(Delete(db, Target(a)), Target(b))
  {
    assert Targets([a, b])[..1] == Targets([a]);
    OneStatement(db, a);
  }

  /** A join-table delete followed by the delete of the table it guards keeps the join table intact throughout. */
  lemma PairIntact(db: Db, table: string, ids: seq<int>)
    requires LinksIntact(db) && JoinColumn(table).Some?
    ensures IntactThroughout(db, [JoinDelete(JoinColumn(table).value, ids), TableDelete(table, ids)])
  {
    var j, t := JoinDelete(JoinColumn(table).value, ids), TableDelete(table, ids);
    var b := [j, t];
    assert Targets(b[..0]) == [];
    assert b[..1] == [j] && b[..2] == b;
    OneStatement(db, j);
    TwoStatements(db, j, t);
    DeleteKeepsIntact(Delete(db, Target(j)), Target(t));
  }

  /** The delete of a table no join-table row refers to keeps the join table intact throughout. */
  lemma SingleIntact(db: Db, table: string, ids: seq<int>)
    requires LinksIntact(db) && JoinColumn(table).None?
    ensures IntactThroughout(db, [TableDelete(table, ids)])
  {
    var t := TableDelete(table, ids);
    assert Targets([t][..0]) == [];
    assert [t][..1] == [t];
    OneStatement(db, t);
    DeleteKeepsIntact(db, Target(t));
  }

  lemma BlockIntact(db: Db, i: nat, ids: seq<int>)
    requires i < |KeyOrder| && LinksIntact(db)
    ensures IntactThroughout(db, Block(KeyOrder[i], ids))
  {
    TableFacts(i);
    var table := Tables[i];
    var b := Block(KeyOrder[i], ids);
    if ids == [] {
      assert b == [];
      assert Targets(b[..0]) == [];
    } else if JoinColumn(table).Some? {
      assert b == [JoinDelete(JoinColumn(table).value, ids), TableDelete(table, ids)];
      PairIntact(db, table, ids);
    } else {
      assert b == [TableDelete(table, ids)];
      SingleIntact(db, table, ids);
    }
  }

  lemma {:induction false} PrefixIntact(db: Db, rowDict: RowDict, n: nat)
    requires n <= |KeyOrder| && LinksIntact(db)
    ensures IntactThroughout(db, PlanPrefix(rowDict, n).statements)
  {
    if n == 0 {
      assert Targets([]) == [];
    } else {
      PrefixIntact(db, rowDict, n - 1);
      PlanStep(rowDict, n - 1);
      var p := PlanPrefix(rowDict, n - 1);
      var key := KeyOrder[n - 1];
      if p.missing.None? && key in rowDict {
        var mid := DeleteAll(db, Targets(p.statements));
        TakeAll(p.statements);
        BlockIntact(mid, n - 1, rowDict[key]);
        IntactConcat(db, p.statements, Block(key, rowDict[key]));
      }
    }
  }

  /**
   * Run in plan order, the DELETEs never leave a join-table row that
   * refers to a deleted workflow or workflow_step: not at the end, and not
   * between any two statements.
   */
  lemma PlanKeepsLinksIntact(db: Db, rowDict: RowDict)
    requires LinksIntact(db)
    ensures IntactThroughout(db, Plan(rowDict).statements)
  {
    PrefixIntact(db, rowDict, |KeyOrder|);
  }

  // ---------------------------------------------------------------------------
  // Running the same DELETEs twice

  /** Whether a query deletes entity rows, i.e. names a known table other than the join table by id. */
  predicate DeletesRows(db: Db, q: Query) {
    q.table != JoinTable && q.column == "id" && q.table in db.rows
  }

  lemma DeleteTwice(db: Db, q: Query)
    ensures Delete(Delete(db, q), q) == Delete(db, q)
  {
    var once := Delete(db, q);
    if q.table == JoinTable {
      assert Delete(once, q).links == once.links;
    } else if DeletesRows(db, q) {
      var t := q.table;
      assert once.rows[t] - Matched(q.ids) == once.rows[t];
      assert once.rows[t := once.rows[t]] == once.rows;
    }
  }

  lemma DeleteCommutes(db: Db, p: Query, q: Query)
    ensures Delete(Delete(db, p), q) == Delete(Delete(db, q), p)
  {
    var pq, qp := Delete(Delete(db, p), q), Delete(Delete(db, q), p);
    if p.table == JoinTable && q.table == JoinTable {
      assert pq.links == qp.links;
    } else if DeletesRows(db, p) && DeletesRows(db, q) {
      var a, b := p.table, q.table;
      if a == b {
        assert (db.rows[a] - Matched(p.ids)) - Matched(q.ids) == (db.rows[a] - Matched(q.ids)) - Matched(p.ids);
      } else {
        assert pq.rows == db.rows[a := db.rows[a] - Matched(p.ids)][b := db.rows[b] - Matched(q.ids)];
        assert qp.rows == db.rows[b := db.rows[b] - Matched(q.ids)][a := db.rows[a] - Matched(p.ids)];
      }
    }
  }

  lemma {:induction false} DeleteAllCommutes(db: Db, qs: seq<Query>, q: Query)
    ensures DeleteAll(Delete(db, q), qs) == Delete(DeleteAll(db, qs), q)
  {
    if qs != [] {
      var init, last := qs[..|qs| - 1], qs[|qs| - 1];
      DeleteAllCommutes(db, init, q);
      DeleteCommutes(DeleteAll(db, init), q, last);
    }
  }

  /**
   * Running the same statements on the state they produced removes
   * nothing more: an IN (...) over IDs already gone matches no row.
   */
  lemma {:induction false} RerunRemovesNothing(db: Db, qs: seq<Query>)
    ensures DeleteAll(DeleteAll(db, qs), qs) == DeleteAll(db, qs)
  {
    if qs != [] {
      var init, last := qs[..|qs| - 1], qs[|qs| - 1];
      var once := DeleteAll(db, qs);
      // DeleteAll(once, qs) == Delete(DeleteAll(Delete(DeleteAll(db, init), last), init), last)
      DeleteAllCommutes(DeleteAll(db, init), init, last);
      RerunRemovesNothing(db, init);
      DeleteTwice(DeleteAll(db, init), last);
    }
  }
}
