# cleanup.py, modelled in Dafny

`cleanup.py` is a retention-cleanup script for a workflow-execution
database. It selects old executions together with the rows linked to
them: those that refer to the execution (`log_file_storage_request`,
`base_report`) and those the execution and its workflow refer to
(`workflow`, `orchestrator`, and `workflow_step` through the
`workflow_workflow_step` join table). It then deletes those rows table by
table, in an order that respects the foreign keys. This project models
the script's core and proves what that core promises:

- **the cap on the request** (`main`): `max_execs` is cut down to
  `HARD_MAX` = 1000;
- **the reshape of the query result** (`get_rows`, after the rows are
  fetched): the rows are transposed into columns, NULLs are dropped and
  duplicates removed, giving one ID list per column alias;
- **the deletion plan** (`delete_rows`): six keys in a fixed order, the
  table name taken from each key, an empty list skipped, the
  `workflow_workflow_step` join-table delete placed right before the
  `workflow` and `workflow_step` deletes, and the exact text of each
  `DELETE`;
- **the runner** (`delete_rows`): every statement is printed; unless this
  is a dry run, it is then executed and committed before the next one is
  printed.

Modules, one per file:

| module | file | contents |
|---|---|---|
| `Wrappers` | wrappers.dfy | `Option` |
| `Sequences` | sequences.dfy | facts about sequences that hold for any element type: concatenation, prefixes, ascending positions |
| `Decimal` | decimal.dfy | `str()` of an integer and `','.join(...)`, with a parser that reads the text back |
| `Selector` | selector.dfy | transpose, NULL filter, de-duplication, the `row_dict` loop (`GetRows`) |
| `Deletion` | deletion.dfy | key order, table names, the plan, the statement text and a parser for it |
| `Database` | database.dfy | an abstract database and what each `DELETE` removes from it |
| `Runner` | runner.dfy | the database server as the cursor sees it, the `Session` class (standard output, cursor, connection) and its `DeleteRows` loop |
| `Cleanup` | cleanup.dfy | the cap, and `main` composed from `GetRows` and `DeleteRows` |

Each imperative part is a method: the `row_dict` loop, the
print/execute/commit loop, and the cap inside `main`. Each such method is
proved against a specification function, as follows:

| method | specification function |
|---|---|
| `GetRows` | `Reshape` |
| `Session.DeleteRows` | `DeleteRowsRun` |
| `Session.DeleteAt` | one key's step of `DeleteRowsRun` |
| `Session.DeleteKey` | `RunAll` of one key's `Block` |
| `Session.Issue` | `IssueStep` |

The lemmas are stated over those functions.

The database server is a value `Runner.Server`: the statement texts it
raises an error on, and how it reads a text as a DELETE. The lemmas about a
live run assume only that the server reads each statement's text as the
delete it was built for (`Runner.ReadsStatements`).
`Runner.DeleteReader` proves that the statement parser in `Deletion` is
such a reader.

Some behaviour of `cleanup.py` is worth knowing before reading the model:

- **Joins** (cleanup.py:44-49). The query inner-joins `workflow`,
  `orchestrator`, the join table and `workflow_step`. Only
  `log_file_storage_request` and `base_report` are outer-joined, so only
  their columns can hold NULL.
- **Commits** (cleanup.py:118-126). Each statement is committed on its own,
  so a failure leaves every earlier statement committed. There is no single
  transaction.
- **Join-table deletes** (cleanup.py:97-122). These come after the
  `execution` delete, each immediately before the `workflow_step` or
  `workflow` delete it guards.
- **A query that returns no rows** (cleanup.py:69, 84-86, 103). This is not
  skipped. It gives an empty `row_dict`, and the first lookup
  (`base_report_id`) raises a `KeyError` before anything is printed. Only a
  key whose list is empty is skipped.
- **Statement output** (cleanup.py:116, 123). Statements are always
  printed. There is no verbosity switch.
- **The cap** (cleanup.py:137-138). It has no lower bound: zero and negative
  requests pass through unchanged.

## Model

| member | source | states |
|---|---|---|
| Cleanup.Clamp | cleanup.py:137-138 | the limit is at most HARD_MAX (1000) and at most the request, and it is the request itself or HARD_MAX; there is no lower bound |
| Cleanup.ClampIsMin | cleanup.py:137-138 | the cap equals min(request, 1000), and capping twice changes nothing |
| Cleanup.Sweep | cleanup.py:136-141 | main queries with the capped limit, and its final state and outcome are those of delete_rows on the reshaped result |
| Cleanup.FetchedPlanComplete | cleanup.py:82-103 | a query that returned at least one row yields all six keys, so delete_rows raises no KeyError |
| Cleanup.EmptyFetchDeletesNothing | cleanup.py:103 | a query that returned no rows fails with KeyError 'base_report_id' and leaves output and database unchanged |
| Cleanup.KeyColumn | cleanup.py:84-86 | the list stored under each key holds exactly the non-NULL IDs of that key's column, each once |
| Cleanup.DeletedIdsWereFetched | cleanup.py:84-122 | every table DELETE lists, each once, exactly the non-NULL IDs fetched in the column aliased to that table's key |
| Selector.Transpose | cleanup.py:69 | no rows give no columns; otherwise there is one column per header, each as long as the list of rows |
| Selector.TransposeCells | cleanup.py:69 | column i, cell j of the transpose is row j, cell i |
| Selector.NonNull | cleanup.py:85 | a value is kept exactly when it occurs as a non-NULL cell |
| Selector.Dedup | cleanup.py:86 | the result has no duplicates and the same elements as the input |
| Selector.IdList | cleanup.py:85-86 | a column's list has no duplicates and holds exactly its non-NULL values |
| Selector.Reshape | cleanup.py:68-89 | no contract of its own; the row_dict get_rows returns, characterised by GetRows, ReshapeKeys and ReshapeContents |
| Selector.GetRows | cleanup.py:82-89 | the dictionary built by the loop equals Reshape of the rows |
| Selector.ReshapeKeys | cleanup.py:68-86 | the keys are exactly the column headers when rows were returned, and there are none when no rows were returned |
| Selector.ReshapeContents | cleanup.py:84-86 | for distinct headers, header i's list is duplicate-free and holds exactly the non-NULL values at position i of some row |
| Decimal.IntToString | cleanup.py:106 | str(val): the text is non-empty and holds no comma; IntRoundTrip reads it back as the integer |
| Decimal.NatToString | cleanup.py:106 | the numeral is non-empty, all digits, without leading zero |
| Decimal.IntRoundTrip | cleanup.py:106 | str() of any integer reads back as that integer |
| Decimal.JoinIds | cleanup.py:106 | a non-empty ID list gives text that neither starts nor ends with a comma |
| Decimal.IdListRoundTrip | cleanup.py:106 | the comma-joined text of a non-empty ID list splits into one numeral per ID and reads back as exactly that list |
| Deletion.JoinColumn | cleanup.py:108-111 | no contract of its own; workflow_tbl_field_map, characterised by JoinColumnOwner and TableFacts |
| Deletion.Block | cleanup.py:103-122 | no contract of its own; one key's statements, characterised by BlockContents and PlanJoinDeletesAdjacent |
| Deletion.PlanPrefix | cleanup.py:97-103 | no contract of its own; the walk over the first n keys, stopping with a KeyError at a missing key, characterised by PlanMissing, MissingIsFinal and PlanOrdered |
| Deletion.Plan | cleanup.py:97-122 | no contract of its own; PlanOrdered, PlanMissing, PlanDeletesTable and PlanDeletesLinks characterise it |
| Deletion.Render | cleanup.py:112-122 | no contract of its own; the statement text, characterised by RenderIsQueryText and RenderRoundTrip |
| Deletion.TableName | cleanup.py:104 | the table name followed by the key's last three characters is the key |
| Deletion.TableFacts | cleanup.py:104-111 | the n-th key's table is key[:-3], the key is that table followed by "_id", and its join-table column is workflow_step_id for workflow_step, workflow_commands_id for workflow, and none otherwise |
| Deletion.KeyTables | cleanup.py:97-104 | each key is its table name followed by "_id", and no two keys or tables coincide |
| Deletion.JoinColumnOwner | cleanup.py:108-111 | the join-table column map is one-to-one: table t maps to column c exactly when c belongs to t |
| Deletion.PlanOrdered | cleanup.py:96-122 | the statements appear in strictly increasing foreign-key position: base_report, log_file_storage_request, execution, orchestrator, then the join table and workflow_step, then the join table and workflow |
| Deletion.PlanMissing | cleanup.py:97-103 | the run raises KeyError exactly when some key is absent, and the key reported is the first absent one in key order |
| Deletion.EmptyResultFails | cleanup.py:103 | an empty row_dict plans no statement and fails at 'base_report_id' |
| Deletion.BlockContents | cleanup.py:103-122 | one key gives nothing for an empty list; otherwise it gives its table delete, plus the join-table delete for workflow and workflow_step |
| Deletion.PlanDeletesTable | cleanup.py:103-122 | a table delete is issued exactly for each key reached before any missing key whose list is non-empty, with that key's table and list |
| Deletion.PlanDeletesLinks | cleanup.py:108-114 | a join-table delete is issued exactly for workflow_id and workflow_step_id when reached with a non-empty list, on workflow_commands_id and workflow_step_id respectively |
| Deletion.PlanJoinDeletesAdjacent | cleanup.py:108-122 | every join-table delete is immediately followed by the delete of its own table with the same IDs |
| Deletion.RenderIsQueryText | cleanup.py:112-122 | each statement's text is "DELETE FROM <table> WHERE <column> IN (<ids>)" for its target table and column |
| Deletion.RenderRoundTrip | cleanup.py:112-122 | parsing a well-formed statement's text gives back its table, column and ID list |
| Deletion.PlanWellFormed | cleanup.py:103-122 | every planned statement has a non-empty ID list and valid table and column names |
| Database.Delete | cleanup.py:122 | a DELETE keeps the set of tables and only removes rows |
| Database.PlanKeepsLinksIntact | cleanup.py:96-122 | run in plan order, the deletes never leave a join-table row that points at a deleted workflow or workflow_step, after any prefix of the plan |
| Database.RerunRemovesNothing | cleanup.py:112-122 | applying the same deletes a second time removes nothing more |
| Runner.DeleteReader | cleanup.py:112-122 | a server that reads text with the DELETE parser reads each well-formed statement's text as exactly the delete it was built for |
| Runner.IssueStep | cleanup.py:116-126 | no contract of its own; print, then unless dry_run execute and commit, characterised by Session.Issue, IssueAccepted and DryRunOnlyPrints |
| Runner.RunAll | cleanup.py:103-130 | no contract of its own; the statements issued in order, stopping at the first refusal, characterised by RunAllStops, DryRunOnlyPrints, LiveRunCommitsEach and LiveRunStopsAtRefusal |
| Runner.DeleteRowsRun | cleanup.py:91-130 | no contract of its own; delete_rows as a whole, characterised by Session.DeleteRows, DryRunDeletesNothing and LiveRunDeletesPlan |
| Runner.Session.constructor | cleanup.py:92-93 | a new session on a database and a server has printed nothing and has nothing uncommitted |
| Runner.Session.Print | cleanup.py:116 | print appends the line to the output and changes nothing else |
| Runner.Session.Execute | cleanup.py:119 | an accepted statement is logged and its delete is pending; a refused one changes nothing |
| Runner.Session.Commit | cleanup.py:120 | every pending delete becomes committed, in order, and nothing stays pending |
| Runner.Session.Issue | cleanup.py:122-126 | print, then unless dry_run execute and commit; the result is IssueStep of the old state |
| Runner.Session.DeleteKey | cleanup.py:103-126 | one key's loop body has the effect of running that key's statements, stopping at the first refusal |
| Runner.Session.DeleteAt | cleanup.py:97-126 | one pass of the key loop either leaves the run in step with the plan for one more key, or ends it with the final state and outcome of DeleteRowsRun |
| Runner.Session.DeleteRows | cleanup.py:91-130 | the final state and outcome (done, KeyError, or the refused statement) equal DeleteRowsRun of the old state |
| Runner.RunAllStops | cleanup.py:128-130 | once a statement is refused, no later statement is printed, executed or committed |
| Runner.MissingIsFinal | cleanup.py:103 | once a key is missing, no later key contributes a statement |
| Runner.PrintsAt | cleanup.py:116-123 | line i of the dry-run output is the text of statement i |
| Runner.DryRunOnlyPrints | cleanup.py:116-126 | a dry run prints every statement in order and executes and commits nothing |
| Runner.DryRunDeletesNothing | cleanup.py:97-126 | delete_rows in a dry run only appends the plan's statements to the output; the database is unchanged |
| Runner.RunAllLive | cleanup.py:116-126 | outside a dry run, when every statement is accepted, the run never stops and each statement is printed, executed and committed in turn |
| Runner.LiveRunCommitsEach | cleanup.py:116-126 | when every statement is accepted, each is printed, executed and committed before the next, and the database has every delete applied |
| Runner.LiveRunStopsAtRefusal | cleanup.py:118-130 | when statement k is refused, statements before it stay committed, k is printed and nothing after it runs |
| Runner.LiveRunDeletesPlan | cleanup.py:97-126 | a live delete_rows that is never refused commits exactly the plan's deletes, in plan order |

## Left out

- Connections and credentials are not modelled: `pymysql.connect`, the `DB_CONN` settings, `load_dotenv`, and `cnx.close()` in the `finally` blocks.
- Command-line parsing (`argparse`) and the `__main__` block are not modelled.
- The SELECT in `get_rows` is not modelled: its SQL, the `months` interval, the optional `project` filter and how a database evaluates the joins and the LIMIT. `Cleanup.Sweep` takes the fetched rows as a function of the limit. The column headers are the query's six aliases (`Selector.Headers`).
- Selector.Dedup: keeps the first occurrence of each value in order. `list(set(...))` orders by Python's set iteration instead. Every property of the plan and the runner holds for any order of the lists.
- Selector.GetRows: requires every fetched row to have one cell per header. The database driver guarantees this.
- Runner.Session.DeleteRows: a database error is modelled as a fixed set of statement texts the server refuses, plus any text the server cannot read as a DELETE (`Runner.Server`). Why a real server refuses a statement (a foreign-key violation, a lost connection) is not modelled. A `KeyError` or a refusal ends the run as an `Outcome` value instead of an exception.
- The error handler's `print(cursor._last_executed)` is not modelled. The refused statement is returned in `Failed` instead.
- The blank line that `main` prints at the end is not modelled.
- Database.Delete: a table is modelled as its set of IDs, and only the `workflow_workflow_step` join table has columns besides `id`. Foreign-key constraints are stated as `Database.LinksIntact` rather than enforced by the database model. A table the database does not hold is left unchanged.
