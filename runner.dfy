/**
 * The Deleter's loop (delete_rows in cleanup.py): walk the keys in their
 * fixed order, print each DELETE, and unless this is a dry run execute it
 * and commit at once. The printed output, the calls made on the database
 * and the database's committed contents are kept as a log of events and an
 * abstract database, so that what a run prints, executes and commits can be
 * stated exactly.
 */
module Runner {
  import opened Wrappers
  import opened Decimal
  import opened Deletion
  import opened Database
  import opened Sequences

  /** One thing the run did: a line printed, a statement the database accepted, a commit. */
  datatype Event = Printed(text: string) | Executed(text: string) | Committed

  /** How delete_rows ends: normally, with a KeyError for a missing key, or with the statement the database refused. */
  datatype Outcome = Completed | MissingKey(key: string) | Failed(statement: string)

  /** What the run can be seen to have done: its events, the committed database, the executed but uncommitted deletes. */
  datatype World = World(log: seq<Event>, committed: Db, pending: seq<Query>)

  /** After a statement: carry on, or stop because the database refused the statement. */
  datatype Step = Continue(world: World) | Stop(world: World, statement: string)

  /**
   * The database server as the run sees it: the statement texts it raises
   * an error on, and the DELETE it reads any text as (None when it cannot
   * read the text as one).
   */
  datatype Server = Server(rejected: set<string>, parse: string -> Option<Query>)

  /** The database accepts a statement unless it is one it refuses or it cannot be read as a DELETE. */
  predicate Accepts(server: Server, sql: string) {
    sql !in server.rejected && server.parse(sql).Some?
  }

  /** The server reads the text of every well-formed statement as the delete the statement was built for. */
  ghost predicate ReadsStatements(server: Server) {
    forall st | WellFormed(st) :: server.parse(Render(st)) == Some(Target(st))
  }

  /** A server that reads DELETE statements with ParseDelete reads every statement the plan can produce. */
  lemma DeleteReader(rejected: set<string>)
    ensures ReadsStatements(Server(rejected, ParseDelete))
  {
    forall st | WellFormed(st) ensures ParseDelete(Render(st)) == Some(Target(st)) {
      RenderRoundTrip(st);
    }
  }

  /** print(sql); and unless dry_run, cursor.execute(sql) then cnx.commit(). */
  function IssueStep(w: World, sql: string, dryRun: bool, server: Server): Step {
    var printed := w.(log := w.log + [Printed(sql)]);
    if dryRun then Continue(printed)
    else if !Accepts(server, sql) then Stop(printed, sql)
    else Continue(World(printed.log + [Executed(sql), Committed],
                        DeleteAll(w.committed, w.pending + [server.parse(sql).value]), []))
  }

  /** The statements issued one after another, stopping at the first one refused. */
  function RunAll(w: World, stmts: seq<Statement>, dryRun: bool, server: Server): Step {
    if stmts == [] then Continue(w)
    else match RunAll(w, stmts[..|stmts| - 1], dryRun, server)
      case Stop(w', sql) => Stop(w', sql)
      case Continue(w') => IssueStep(w', Render(stmts[|stmts| - 1]), dryRun, server)
  }

  /** What delete_rows does with row_dict: the plan's statements are issued, then a missing key raises. */
  function DeleteRowsRun(w: World, rowDict: RowDict, dryRun: bool, server: Server): (World, Outcome) {
    var p := Plan(rowDict);
    match RunAll(w, p.statements, dryRun, server)
    case Stop(w', sql) => (w', Failed(sql))
    case Continue(w') => (w', if p.missing.Some? then MissingKey(p.missing.value) else Completed)
  }

  // ---------------------------------------------------------------------------
  // The session: standard output, the cursor and the connection

  class Session {
    var log: seq<Event>
    var committed: Db
    var pending: seq<Query>
    /** The database server the cursor talks to. */
    const server: Server

    constructor (db: Db, server: Server)
      ensures log == [] && committed == db && pending == [] && this.server == server
    {
      log := [];
      committed := db;
      pending := [];
      this.server := server;
    }

    function State(): World
      reads this
    {
      World(log, committed, pending)
    }

    /** print(text) */
    method Print(text: string)
      modifies this
      ensures log == old(log) + [Printed(text)]
      ensures committed == old(committed) && pending == old(pending)
    {
      log := log + [Printed(text)];
    }

    /** cursor.execute(sql): the delete is applied inside the open transaction, or the database raises. */
    method Execute(sql: string) returns (ok: bool)
      modifies this
      ensures ok == Accepts(server, sql)
      ensures ok ==> log == old(log) + [Executed(sql)] && pending == old(pending) + [server.parse(sql).value]
      ensures !ok ==> log == old(log) && pending == old(pending)
      ensures committed == old(committed)
    {
      ok := Accepts(server, sql);
      if ok {
        log := log + [Executed(sql)];
        pending := pending + [server.parse(sql).value];
      }
    }

    /** cnx.commit(): every delete executed so far becomes permanent. */
    method Commit()
      modifies this
      ensures log == old(log) + [Committed]
      ensures committed == DeleteAll(old(committed), old(pending)) && pending == []
    {
      log := log + [Committed];
      committed := DeleteAll(committed, pending);
      pending := [];
    }

    /** Prints one statement and, unless dry_run, executes and commits it; false when the database refused it. */
    method Issue(sql: string, dryRun: bool) returns (ok: bool)
      modifies this
      ensures IssueStep(old(State()), sql, dryRun, server) ==
        if ok then Continue(State()) else Stop(State(), sql)
    {
      Print(sql);
      ok := true;
      if !dryRun {
        ok := Execute(sql);
        if ok {
          Commit();
        }
      }
    }

    /** The body of delete_rows' loop for a key whose list is ids; the statement the database refused, if any. */
    method DeleteKey(key: string, ids: seq<int>, dryRun: bool) returns (refused: Option<string>)
      modifies this
      ensures RunAll(old(State()), Block(key, ids), dryRun, server) ==
        if refused.None? then Continue(State()) else Stop(State(), refused.value)
    {
      ghost var w0 := State();
      refused := None;
      if ids == [] {
        return;
      }
      var table := TableName(key);
      ghost var block := Block(key, ids);
      ghost var before: seq<Statement> := [];
      if JoinColumn(table).Some? {
        var join := JoinDelete(JoinColumn(table).value, ids);
        var joined := Issue(Render(join), dryRun);
        RunAllSnoc(w0, [], join, dryRun, server);
        assert [] + [join] == [join];
        if !joined {
          assert [join] <= block;
          RunAllStops(w0, [join], block, dryRun, server);
          return Some(Render(join));
        }
        before := [join];
      }
      var delete := TableDelete(table, ids);
      var ok := Issue(Render(delete), dryRun);
      RunAllSnoc(w0, before, delete, dryRun, server);
      assert block == before + [delete];
      if !ok {
        refused := Some(Render(delete));
      }
    }

    /**
     * One pass of delete_rows' loop, for the i-th key, after the first i keys
     * have run from state w0: either the run goes on to the next key, or it
     * ends here with a KeyError or with the statement the database refused.
     */
    method DeleteAt(rowDict: RowDict, i: nat, dryRun: bool, ghost w0: World) returns (stop: Option<Outcome>)
      requires i < |KeyOrder| && PlanPrefix(rowDict, i).missing.None?
      requires RunAll(w0, PlanPrefix(rowDict, i).statements, dryRun, server) == Continue(State())
      modifies this
      ensures stop.None? ==> PlanPrefix(rowDict, i + 1).missing.None?
      ensures stop.None? ==> RunAll(w0, PlanPrefix(rowDict, i + 1).statements, dryRun, server) == Continue(State())
      ensures stop.Some? ==> (State(), stop.value) == DeleteRowsRun(w0, rowDict, dryRun, server)
    {
      ghost var w := State();
      var key := KeyOrder[i];
      if key !in rowDict {
        KeyMissing(w0, rowDict, i, dryRun, server, w);
        return Some(MissingKey(key));
      }
      var refused := DeleteKey(key, rowDict[key], dryRun);
      KeyDone(w0, rowDict, i, dryRun, server, w, State(), refused);
      stop := if refused.Some? then Some(Failed(refused.value)) else None;
    }

    /** delete_rows(row_dict, dry_run) */
    method DeleteRows(rowDict: RowDict, dryRun: bool) returns (outcome: Outcome)
      modifies this
      ensures (State(), outcome) == DeleteRowsRun(old(State()), rowDict, dryRun, server)
    {
      ghost var w0 := State();
      var i := 0;
      while i < |KeyOrder|
        invariant i <= |KeyOrder|
        invariant PlanPrefix(rowDict, i).missing.None?
        invariant RunAll(w0, PlanPrefix(rowDict, i).statements, dryRun, server) == Continue(State())
      {
        var stop := DeleteAt(rowDict, i, dryRun, w0);
        if stop.Some? {
          return stop.value;
        }
        i := i + 1;
      }
      PlanDone(w0, rowDict, dryRun, server, State());
      outcome := Completed;
    }
  }

  // ---------------------------------------------------------------------------
  // Lemmas connecting the loop to the plan

  lemma RunAllSnoc(w: World, stmts: seq<Statement>, st: Statement, dryRun: bool, server: Server)
    requires RunAll(w, stmts, dryRun, server).Continue?
    ensures RunAll(w, stmts + [st], dryRun, server) ==
      IssueStep(RunAll(w, stmts, dryRun, server).world, Render(st), dryRun, server)
  {
    assert (stmts + [st])[..|stmts|] == stmts;
  }

  /** Once the run has stopped, later statements change nothing. */
  lemma {:induction false} RunAllStops(w: World, a: seq<Statement>, b: seq<Statement>, dryRun: bool, server: Server)
    requires a <= b && RunAll(w, a, dryRun, server).Stop?
    ensures RunAll(w, b, dryRun, server) == RunAll(w, a, dryRun, server)
    decreases |b|
  {
    if |b| > |a| {
      assert a <= b[..|b| - 1];
      RunAllStops(w, a, b[..|b| - 1], dryRun, server);
    } else {
      assert a == b;
    }
  }

  /** A plan prefix is a prefix of every longer plan prefix. */
  lemma {:induction false} PrefixGrows(rowDict: RowDict, n: nat, m: nat)
    requires n <= m <= |KeyOrder|
    ensures PlanPrefix(rowDict, n).statements <= PlanPrefix(rowDict, m).statements
    decreases m - n
  {
    if n < m {
      PrefixGrows(rowDict, n + 1, m);
      PrefixStep(rowDict, n);
      PrefixTrans(PlanPrefix(rowDict, n).statements, PlanPrefix(rowDict, n + 1).statements, PlanPrefix(rowDict, m).statements);
    }
  }

  /** A key present after a complete prefix appends its block. */
  lemma PrefixNext(rowDict: RowDict, n: nat)
    requires n < |KeyOrder| && PlanPrefix(rowDict, n).missing.None? && KeyOrder[n] in rowDict
    ensures PlanPrefix(rowDict, n + 1) ==
      DeletePlan(PlanPrefix(rowDict, n).statements + Block(KeyOrder[n], rowDict[KeyOrder[n]]), None)
  {
  }

  /** One more key only appends to the plan. */
  lemma PrefixStep(rowDict: RowDict, n: nat)
    requires n < |KeyOrder|
    ensures PlanPrefix(rowDict, n).statements <= PlanPrefix(rowDict, n + 1).statements
  {
    var p := PlanPrefix(rowDict, n);
    if p.missing.None? && KeyOrder[n] in rowDict {
      PrefixOfAppend(p.statements, Block(KeyOrder[n], rowDict[KeyOrder[n]]));
    }
  }

  /** After a KeyError nothing is added. */
  lemma {:induction false} MissingIsFinal(rowDict: RowDict, n: nat, m: nat)
    requires 0 < n <= m <= |KeyOrder|
    requires PlanPrefix(rowDict, n - 1).missing.None? && KeyOrder[n - 1] !in rowDict
    ensures PlanPrefix(rowDict, m) == DeletePlan(PlanPrefix(rowDict, n - 1).statements, Some(KeyOrder[n - 1]))
    decreases m - n
  {
    if n < m {
      MissingIsFinal(rowDict, n, m - 1);
    }
  }

  lemma {:induction false} RunAllConcat(w: World, a: seq<Statement>, b: seq<Statement>, dryRun: bool, server: Server)
    ensures RunAll(w, a + b, dryRun, server) ==
      match RunAll(w, a, dryRun, server)
      case Stop(_, _) => RunAll(w, a, dryRun, server)
      case Continue(w') => RunAll(w', b, dryRun, server)
  {
    if b == [] {
      assert a + b == a;
    } else {
      assert (a + b)[..|a + b| - 1] == a + b[..|b| - 1];
      RunAllConcat(w, a, b[..|b| - 1], dryRun, server);
    }
  }

  // ---------------------------------------------------------------------------
  // What a run prints, executes and commits

  /** The loop meets a key missing from row_dict: the run ends with a KeyError for it. */
  lemma KeyMissing(w0: World, rowDict: RowDict, i: nat, dryRun: bool, server: Server, w: World)
    requires i < |KeyOrder| && PlanPrefix(rowDict, i).missing.None? && KeyOrder[i] !in rowDict
    requires RunAll(w0, PlanPrefix(rowDict, i).statements, dryRun, server) == Continue(w)
    ensures DeleteRowsRun(w0, rowDict, dryRun, server) == (w, MissingKey(KeyOrder[i]))
  {
    MissingIsFinal(rowDict, i + 1, |KeyOrder|);
  }

  /** The loop has issued key i's statements, from state w to state w'. */
  lemma KeyDone(w0: World, rowDict: RowDict, i: nat, dryRun: bool, server: Server,
                w: World, w': World, refused: Option<string>)
    requires i < |KeyOrder| && PlanPrefix(rowDict, i).missing.None? && KeyOrder[i] in rowDict
    requires RunAll(w0, PlanPrefix(rowDict, i).statements, dryRun, server) == Continue(w)
    requires RunAll(w, Block(KeyOrder[i], rowDict[KeyOrder[i]]), dryRun, server) ==
      if refused.None? then Continue(w') else Stop(w', refused.value)
    ensures refused.None? ==> PlanPrefix(rowDict, i + 1).missing.None?
    ensures refused.None? ==> RunAll(w0, PlanPrefix(rowDict, i + 1).statements, dryRun, server) == Continue(w')
    ensures refused.Some? ==> DeleteRowsRun(w0, rowDict, dryRun, server) == (w', Failed(refused.value))
  {
    var before, block := PlanPrefix(rowDict, i).statements, Block(KeyOrder[i], rowDict[KeyOrder[i]]);
    RunAllConcat(w0, before, block, dryRun, server);
    PrefixNext(rowDict, i);
    if refused.Some? {
      PrefixGrows(rowDict, i + 1, |KeyOrder|);
      RunAllStops(w0, before + block, Plan(rowDict).statements, dryRun, server);
    }
  }

  /** The loop has issued every key's statements: the run ends normally. */
  lemma PlanDone(w0: World, rowDict: RowDict, dryRun: bool, server: Server, w: World)
    requires PlanPrefix(rowDict, |KeyOrder|).missing.None?
    requires RunAll(w0, PlanPrefix(rowDict, |KeyOrder|).statements, dryRun, server) == Continue(w)
    ensures DeleteRowsRun(w0, rowDict, dryRun, server) == (w, Completed)
  {
  }

  /** One printed line per statement, in order. */
  function Prints(stmts: seq<Statement>): (r: seq<Event>)
    ensures |r| == |stmts|
  {
    if stmts == [] then [] else Prints(stmts[..|stmts| - 1]) + [Printed(Render(stmts[|stmts| - 1]))]
  }

  /** Line i of Prints is statement i's text. */
  lemma {:induction false} PrintsAt(stmts: seq<Statement>, i: nat)
    requires i < |stmts|
    ensures Prints(stmts)[i] == Printed(Render(stmts[i]))
  {
    if i < |stmts| - 1 {
      PrintsAt(stmts[..|stmts| - 1], i);
    }
  }

  /** Print, execute, commit for every statement, one statement after another. */
  function Trace(stmts: seq<Statement>): seq<Event> {
    if stmts == [] then []
    else
      var sql := Render(stmts[|stmts| - 1]);
      Trace(stmts[..|stmts| - 1]) + [Printed(sql), Executed(sql), Committed]
  }

  /**
   * In a dry run every statement is printed, in order, and nothing is
   * executed or committed: the database is left as it was.
   */
  lemma {:induction false} DryRunOnlyPrints(w: World, stmts: seq<Statement>, server: Server)
    ensures RunAll(w, stmts, true, server) == Continue(w.(log := w.log + Prints(stmts)))
  {
    if stmts != [] {
      var init := stmts[..|stmts| - 1];
      DryRunOnlyPrints(w, init, server);
      AppendAssoc(w.log, Prints(init), [Printed(Render(stmts[|stmts| - 1]))]);
    } else {
      assert w.log + Prints(stmts) == w.log;
    }
  }

  predicate AllAccepted(stmts: seq<Statement>, server: Server) {
    forall i | 0 <= i < |stmts| :: Render(stmts[i]) !in server.rejected
  }

  predicate AllWellFormed(stmts: seq<Statement>) {
    forall i | 0 <= i < |stmts| :: WellFormed(stmts[i])
  }

  /** The first statements' checks and the last statement's, taken apart. */
  lemma SplitChecks(stmts: seq<Statement>, server: Server)
    requires stmts != [] && AllWellFormed(stmts) && AllAccepted(stmts, server)
    ensures AllWellFormed(stmts[..|stmts| - 1]) && AllAccepted(stmts[..|stmts| - 1], server)
    ensures WellFormed(stmts[|stmts| - 1]) && Render(stmts[|stmts| - 1]) !in server.rejected
  {
  }

  /** A statement text the server accepts and reads as q, issued outside a dry run, with nothing pending. */
  lemma IssueAccepted(w: World, sql: string, q: Query, server: Server)
    requires w.pending == [] && sql !in server.rejected && server.parse(sql) == Some(q)
    ensures IssueStep(w, sql, false, server) ==
      Continue(World(w.log + [Printed(sql), Executed(sql), Committed], Delete(w.committed, q), []))
  {
    assert w.pending + [q] == [q];
    assert DeleteAll(w.committed, [q]) == Delete(w.committed, q) by {
      assert [q][..0] == [];
    }
    AppendAssoc(w.log, [Printed(sql)], [Executed(sql), Committed]);
    assert [Printed(sql)] + [Executed(sql), Committed] == [Printed(sql), Executed(sql), Committed];
  }

  /** One accepted statement outside a dry run: printed, executed, then committed at once. */
  function LiveStep(m: World, st: Statement): World {
    World(m.log + [Printed(Render(st)), Executed(Render(st)), Committed], Delete(m.committed, Target(st)), [])
  }

  /** The run in which the database accepts every statement, one LiveStep per statement. */
  function LiveRun(w: World, stmts: seq<Statement>): (r: World)
    ensures stmts == [] ==> r == w
    ensures stmts != [] ==> r.pending == []
  {
    if stmts == [] then w else LiveStep(LiveRun(w, stmts[..|stmts| - 1]), stmts[|stmts| - 1])
  }

  /** One more accepted statement after a run that reached state mid. */
  lemma LiveRunStep(w: World, stmts: seq<Statement>, server: Server, mid: World)
    requires stmts != [] && RunAll(w, stmts[..|stmts| - 1], false, server) == Continue(mid)
    requires ReadsStatements(server) && mid.pending == []
    requires WellFormed(stmts[|stmts| - 1]) && Render(stmts[|stmts| - 1]) !in server.rejected
    ensures RunAll(w, stmts, false, server) == Continue(LiveStep(mid, stmts[|stmts| - 1]))
  {
    var last := stmts[|stmts| - 1];
    assert server.parse(Render(last)) == Some(Target(last));
    IssueAccepted(mid, Render(last), Target(last), server);
  }

  /** Outside a dry run, a run whose every statement is accepted is LiveRun. */
  lemma {:induction false} RunAllLive(w: World, stmts: seq<Statement>, server: Server)
    requires ReadsStatements(server) && w.pending == [] && AllWellFormed(stmts) && AllAccepted(stmts, server)
    ensures RunAll(w, stmts, false, server) == Continue(LiveRun(w, stmts))
  {
    if stmts != [] {
      var init := stmts[..|stmts| - 1];
      SplitChecks(stmts, server);
      RunAllLive(w, init, server);
      LiveRunStep(w, stmts, server, LiveRun(w, init));
    }
  }

  /** LiveRun prints, executes and commits each statement before the next one. */
  lemma {:induction false} LiveRunLog(w: World, stmts: seq<Statement>)
    ensures LiveRun(w, stmts).log == w.log + Trace(stmts)
  {
    if stmts == [] {
      assert w.log + Trace(stmts) == w.log;
    } else {
      var init, sql := stmts[..|stmts| - 1], Render(stmts[|stmts| - 1]);
      LiveRunLog(w, init);
      AppendAssoc(w.log, Trace(init), [Printed(sql), Executed(sql), Committed]);
    }
  }

  /** LiveRun applies every statement's delete to the committed database, in order. */
  lemma {:induction false} LiveRunCommitted(w: World, stmts: seq<Statement>)
    ensures LiveRun(w, stmts).committed == DeleteAll(w.committed, Targets(stmts))
  {
    if stmts == [] {
      assert Targets(stmts) == [];
    } else {
      var init := stmts[..|stmts| - 1];
      LiveRunCommitted(w, init);
      assert Targets(stmts)[..|stmts| - 1] == Targets(init);
    }
  }

  /**
   * Outside a dry run, when the database accepts every statement, each is
   * printed, executed and committed before the next is printed, and the
   * committed database has had every statement's delete applied, in order.
   */
  lemma LiveRunCommitsEach(w: World, stmts: seq<Statement>, server: Server)
    requires ReadsStatements(server) && w.pending == [] && AllWellFormed(stmts) && AllAccepted(stmts, server)
    ensures RunAll(w, stmts, false, server) ==
      Continue(World(w.log + Trace(stmts), DeleteAll(w.committed, Targets(stmts)), []))
  {
    RunAllLive(w, stmts, server);
    LiveRunLog(w, stmts);
    LiveRunCommitted(w, stmts);
  }

  /** A refused statement after a run that reached state mid: printed, then the run stops. */
  lemma RefusedStep(w: World, init: seq<Statement>, st: Statement, server: Server, mid: World)
    requires RunAll(w, init, false, server) == Continue(mid) && Render(st) in server.rejected
    ensures RunAll(w, init + [st], false, server) == Stop(mid.(log := mid.log + [Printed(Render(st))]), Render(st))
  {
    RunAllSnoc(w, init, st, false, server);
  }

  /**
   * Outside a dry run, when the database refuses statement k and accepted
   * every one before it, the run stops there: the refused statement has been
   * printed, every earlier one stays executed and committed, and nothing
   * after it happens.
   */
  lemma LiveRunStopsAtRefusal(w: World, stmts: seq<Statement>, k: nat, server: Server)
    requires ReadsStatements(server) && w.pending == [] && AllWellFormed(stmts)
    requires k < |stmts| && AllAccepted(stmts[..k], server) && Render(stmts[k]) in server.rejected
    ensures RunAll(w, stmts, false, server) ==
      Stop(World(w.log + Trace(stmts[..k]) + [Printed(Render(stmts[k]))],
                 DeleteAll(w.committed, Targets(stmts[..k])), []),
           Render(stmts[k]))
  {
    var before, st := stmts[..k], stmts[k];
    assert AllWellFormed(before);
    RunAllLive(w, before, server);
    LiveRunLog(w, before);
    LiveRunCommitted(w, before);
    RefusedStep(w, before, st, server, LiveRun(w, before));
    TakeOneMore(stmts, k);
    RunAllStops(w, before + [st], stmts, false, server);
  }

  /**
   * delete_rows in a dry run prints the whole plan in order, changes no
   * table, and ends as the plan does: with a KeyError for a missing key, or
   * normally.
   */
  lemma DryRunDeletesNothing(w: World, rowDict: RowDict, server: Server)
    ensures DeleteRowsRun(w, rowDict, true, server) ==
      (w.(log := w.log + Prints(Plan(rowDict).statements)),
       if Plan(rowDict).missing.Some? then MissingKey(Plan(rowDict).missing.value) else Completed)
  {
    DryRunOnlyPrints(w, Plan(rowDict).statements, server);
  }

  /**
   * delete_rows outside a dry run, when the database accepts every
   * statement, commits the plan's deletes one by one and leaves nothing
   * uncommitted.
   */
  lemma LiveRunDeletesPlan(w: World, rowDict: RowDict, server: Server)
    requires ReadsStatements(server) && w.pending == [] && AllAccepted(Plan(rowDict).statements, server)
    ensures DeleteRowsRun(w, rowDict, false, server).0 ==
      World(w.log + Trace(Plan(rowDict).statements), DeleteAll(w.committed, Targets(Plan(rowDict).statements)), [])
  {
    var stmts := Plan(rowDict).statements;
    forall i | 0 <= i < |stmts| ensures WellFormed(stmts[i]) {
      PlanWellFormed(rowDict, stmts[i]);
    }
    LiveRunCommitsEach(w, stmts, server);
  }
}
