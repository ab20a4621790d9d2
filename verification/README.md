# go-mysql-fsm in Dafny

A model of the transition engine of go-mysql-fsm. It covers two packages:

- `fsm` (fsm/fsm.go);
- its older flat variant `hsfsm` (hsfsm.go).

In both, a finite state machine keeps no state in memory. `Current` reads the state of entity `id` from one column of a MySQL table. `Event` sends a single `INSERT … ON DUPLICATE KEY UPDATE field = CASE WHEN state = 'src' THEN 'dst' … ELSE field END` statement, and MySQL decides the transition atomically.

The model keeps the statements as text, exactly as the Go code formats them. The store they are sent to is modelled too:

- `Database` holds one table with one state column.
- It parses the text it receives and executes it.

A round trip between rendering (`Sql.Render*`) and parsing (`Sql.Parse*`) ties the text to its meaning. That meaning is compared with an independent reference machine (`Machine.Next`, `Machine.Run`):

- on first contact, the entity is created at the initial state;
- afterwards, a source state moves to the destination;
- any other state stays.

Modules, one per file:

- `Wrappers`: `Option`/`Result`.
- `Text`: Go's `strings.Join` and a `%s`-only `fmt.Sprintf` (`Fill`), with its inverse `Unfill`.
- `EventTable`: the `Event` struct, Go's zero value for a missing map key, and the name index `fsm.NewConfig` and `hsfsm.NewFSM` both build.
- `Sql`: statement syntax, the format strings, and the renderer and parser.
- `Database`: the MySQL stand-in. It models primary key `id`, a duplicate key error on plain insert, no rows, an unknown column, and `CASE` evaluation where the first match wins.
- `Machine`: the reference state machine.
- `Queries`: the three statements built from the settings, and their effects.
- `Engine`: errors and the effect of one call.
- `Fsm` and `HsFsm`: the two packages.
- `Scenario`: the rule set of the example program.

The façade calls (`Initialize`, `Current`, `Event`) are pure functions. Each takes the table and returns:

- the new table;
- the error;
- the list of statements sent.

So "nothing is sent" and "the store is unchanged" are stated as properties.

The fsm tests construct `FSM{table:…, id:…, field:…, init:…, events:…}`, but fsm/fsm.go's `FSM` has no such fields: it has an embedded `*Config` and `ID`. The code is followed here. The tests' expected strings are checked against `Config`/`FSM` values carrying the same settings (`Fsm.TaskFsm`).

## Model

Several rows hold only for *plain* settings and labels, the text the model's store can read (see "SQL quoting" under Left out):

- plain settings: Table and Field are unquoted identifiers, and ID and Init have neither quote nor backslash;
- a plain rule: its `Dst` and every `Src` have neither quote nor backslash.

Only the rule being fired needs to be plain. `Fsm.Serves` asks for plain settings, a table named Table whose state column is Field, and a Field other than `id`.

| member | source | states |
|---|---|---|
| EventTable.Lookup | fsm/fsm.go:133-135 | `events[name]` of a missing name is Go's zero `Event`: no sources, empty destination |
| EventTable.LastNamed | fsm/fsm.go:70-73 | reference meaning of the index: a rule is found exactly when some declared event carries the name, and it is the last such declaration |
| EventTable.Index | fsm/fsm.go:70-73 | the loop's map agrees with the reference on every name: later duplicates overwrite earlier ones, and no other key appears |
| EventTable.IndexUnique | hsfsm.go:72-75 | the table is determined by the declared list: two tables that both agree with it are equal |
| EventTable.IndexedFromList | fsm/fsm.go:70-73 | every stored event is one of the declared events and is filed under its own `Name` |
| Fsm.NewConfig | fsm/fsm.go:62-80 | table, field and init are copied; `Debug` is false; every name maps to its last declared event |
| Fsm.NewFSM | fsm/fsm.go:83-88 | the machine shares the given configuration and carries the given id |
| Fsm.Initialize | fsm/fsm.go:90-95 | sends exactly `initQuery`, once; on error the store is unchanged |
| Fsm.Current | fsm/fsm.go:97-107 | on error it returns `""` with the store's error; otherwise it returns a state stored in the table, or the key itself when `Field` is `id` |
| Fsm.Event | fsm/fsm.go:109-125 | an undefined name fails with "undefined event: " + name, sends nothing and leaves the store unchanged; a defined name sends exactly its `eventQuery`; a failed statement changes nothing |
| Fsm.EventQueryParses | fsm/fsm.go:127-140 | for plain settings and a plain rule with at least one source, the store reads the sent text back as the upsert of the rule |
| Fsm.EventEffect | fsm/fsm.go:109-125 | under `Fsm.Serves`, with column `state` in any letter case and a plain rule with sources: a missing row is inserted at `Init`, not `Dst`; a state in `Src` becomes `Dst`; any other state stays; no error and no other row touched |
| Fsm.EventNeedsStateColumn | fsm/fsm.go:131 | the `WHEN` clauses test the literal column `state`: on a table whose only column besides `id` is `Field`, with plain settings and a `Field` that is neither `state` nor `id` even ignoring case, a plain event with sources fails with an unknown-column error and changes nothing |
| Fsm.EventWithoutSources | fsm/fsm.go:133-140 | for plain settings, a rule with empty `Src` yields `CASE  ELSE <Field> END`, which MySQL rejects: the event fails with a syntax error and changes nothing |
| Fsm.InitializeEffect | fsm/fsm.go:90-95 | under `Fsm.Serves` (so `Field` is not `id`): an absent id is inserted at `Init`; an existing id gives a duplicate-key error and the store is unchanged |
| Fsm.KeyFieldEffect | fsm/fsm.go:90-167 | for plain settings with `Field` named `id` in any case, both writes name the key column twice: `Initialize` and every plain event with sources fail and change nothing; `Current` reads the key back for an existing row and gets no rows otherwise |
| Fsm.CurrentEffect | fsm/fsm.go:97-107 | under `Fsm.Serves`, it returns the stored state, or `""` with a no-rows error for an unknown id |
| Fsm.InitQueryText | fsm/fsm.go:158-167 | `initQuery` is `INSERT INTO <Table> (id, <Field>) VALUES ('<ID>', '<Init>')` |
| Fsm.CurrentQueryText | fsm/fsm.go:147-156 | `currentQuery` is `SELECT <Field> FROM <Table> WHERE id = '<ID>'` |
| Fsm.CasesText | fsm/fsm.go:131-137 | the `CASE` body is one `WHEN state = '<src>' THEN '<Dst>'` per source, in `Src` order, joined by single spaces |
| Fsm.EventQueryText | fsm/fsm.go:127-145 | `eventQuery` is the `initQuery` text, one space, and `ON DUPLICATE KEY UPDATE <Field> = CASE … ELSE <Field> END`, so a plain `initQuery` (no `ON DUPLICATE` clause) fails on an existing id |
| Fsm.TaskEventQuery | fsm/fsm_test.go:19-43 | for task/1/state/Initializing and Ready: [Initializing, Error] → Running, it returns the test's expected text |
| Fsm.TaskCurrentQuery | fsm/fsm_test.go:63-72 | for the test's settings it returns `SELECT state FROM task WHERE id = '1'` |
| Fsm.TaskInitQuery | fsm/fsm_test.go:93-103 | for the test's settings it returns `INSERT INTO task (id, state) VALUES ('1', 'Initializing')` |
| Fsm.InitializeThenCurrent | fsm/fsm.go:90-107 | under `Fsm.Serves` (so `Field` is not `id`), on an entity without a row, `Initialize` then `Current` returns `Init`; a second `Initialize` fails with a duplicate-key error and keeps the first one's row |
| Fsm.FirstContact | fsm/fsm.go:109-112 | under `Fsm.Serves` with `Field` `state` in any case, a plain event with sources on an entity without a row inserts it, and `Current` then reads `Init`, whatever the destination |
| Fsm.NoOpEvent | fsm/fsm.go:138-140 | under `Fsm.Serves` with `Field` `state` in any case, a plain event with sources fired from a state outside them succeeds and leaves the table unchanged |
| Fsm.RunRefinesMachine | fsm/fsm.go:113-125 | under `Fsm.Serves` with `Field` `state` in any case, a serial run of defined events, each plain and with a source, succeeds, sends one `eventQuery` per event in order, and moves the entity exactly as `Machine.Run` does, touching no other row |
| Fsm.Convergence | fsm/fsm.go:127-140 | under `Fsm.Serves` with `Field` `state` in any case, n ≥ 1 repetitions of a plain event, from one of its sources or from its destination, end at the destination; the run succeeds exactly when the rule has a source (one without fails at once, the entity already at its destination) |
| Queries.Cases | fsm/fsm.go:133-137 | one `WHEN` per source in `Src` order, each testing column `state` and yielding `Dst` |
| Queries.CasesMeaning | fsm/fsm.go:138-140 | the `CASE … ELSE field` expression evaluates to `Dst` when the current state is a source, and to the current state otherwise |
| Queries.EventStatementEffect | fsm/fsm.go:109-112 | with field `state` in any letter case, the conditional upsert inserts a missing row at `Init` and otherwise applies the transition |
| Queries.EventStatementUnknownColumn | fsm/fsm.go:131 | on a table whose only column besides `id` is the field, with a field that is neither `state` nor `id` even ignoring case, and at least one source, the upsert is rejected |
| Queries.InitStatementEffect | fsm/fsm.go:158-162 | for a field other than `id`, the plain insert adds the row at `Init`, or fails with a duplicate key when the id exists |
| Queries.KeyFieldRejected | fsm/fsm.go:158-162 | a field named `id` in any case makes the insert column list `(id, id)`: both statements fail with a duplicate-column error |
| Sql.RowText | fsm/fsm.go:160-162 | the insert format filled with table, field, id and init, written out |
| Sql.WhenText | fsm/fsm.go:131 | the case format filled with source and destination, written out |
| Sql.UpdateText | fsm/fsm.go:130 | the update format filled with field, cases and field, written out |
| Sql.SelectText | fsm/fsm.go:149-151 | the select format filled with field, table and id, written out |
| Sql.ParseWriteRender | fsm/fsm.go:138-140 | the store reads a rendered insert or upsert back as that statement when its names are unquoted identifiers, its values have neither quote nor backslash, and its `CASE` has a `WHEN` |
| Sql.ParseWriteNoCases | fsm/fsm.go:130-137 | an upsert whose `CASE` has no `WHEN` is read as no statement at all |
| Sql.ParseSelectRender | fsm/fsm.go:149-151 | the store reads a rendered select back as that statement when column and table are unquoted identifiers and the id has neither quote nor backslash |
| Engine.Send | fsm/fsm.go:119-122 | exactly one statement is sent per call, and a failed one leaves the store as it was |
| Machine.RepeatConverges | fsm/fsm.go:133-140 | from a source or the destination, repeating the rule any positive number of times ends at the destination |
| Machine.RunDefined | fsm/fsm.go:109-112 | a run of at least one event always leaves a row for the entity; a run of none creates no row |
| HsFsm.NewFSM | hsfsm.go:64-86 | an error from `sql.Open` is returned as is; otherwise Table, ID, Field and Debug are copied, with init and the name index as in `fsm` |
| HsFsm.Current | hsfsm.go:106-116 | on error it returns `""` with the store's error; otherwise it returns a stored state, or the key itself when `Field` is `id` |
| HsFsm.Event | hsfsm.go:88-104 | an undefined name fails with "undefined event: " + name and sends nothing; a defined name sends its `eventQuery` |
| HsFsm.SameEventText | hsfsm.go:118-136 | `eventQuery` is `fsm`'s text for the same settings |
| HsFsm.SameCurrentText | hsfsm.go:138-147 | `currentQuery` is `fsm`'s text for the same settings |
| HsFsm.SameEvent | hsfsm.go:88-104 | `Event` has `fsm`'s effect on every store: same table, error and statements |
| HsFsm.SameCurrent | hsfsm.go:106-116 | `Current` returns `fsm`'s value and error on every store |
| HsFsm.EventEffect | hsfsm.go:88-104 | under `HsFsm.Serves` (as `Fsm.Serves`) with `Field` `state` in any case, for a plain rule with sources, the store effect of `Event` is that of `fsm` (insert at init, source → destination, other states kept) |
| HsFsm.EventWithoutSources | hsfsm.go:124-131 | for plain settings, a rule with empty `Src` sends a `CASE` with no `WHEN`: a syntax error, nothing changed |
| HsFsm.CurrentEffect | hsfsm.go:106-116 | under `HsFsm.Serves`, it returns the stored state, or `""` with a no-rows error |
| HsFsm.TaskEventQuery | hsfsm_test.go:17-41 | the package test's expected event statement |
| HsFsm.TaskCurrentQuery | hsfsm_test.go:61-70 | the package test's expected select statement |
| Scenario.RulesIndexed | examples/main.go:67-72 | the four declared rules have distinct names, and their index is the map of the four |
| Scenario.Lifecycle | examples/main.go:67-80 | after `Initialize`, the events Ready, NotReady, Ready, Stop, Delete read back Running, Error, Running, Stopped, Deleted |
| Scenario.LaunchUndefined | fsm/fsm.go:115-117 | `Event("Launch")` fails with "undefined event: Launch", sends nothing and leaves the store unchanged |
| Scenario.ReadyBeforeInitialize | fsm/fsm.go:109-112 | without `Initialize` (no row for the entity), Ready leaves it at Initializing, not Running; a second Ready reaches Running |
| Scenario.DeletedIsFinal | examples/main.go:67-72 | no rule has Deleted as a source, so every event on a deleted entity is a successful no-op |

## Left out

- The database handle, `sql.Open`, `DB.Exec` and `QueryRow(...).Scan` (fsm/fsm.go:93, 101, 119; hsfsm.go:67, 98, 110) are I/O. The table is passed in and returned explicitly. `sql.Open`'s outcome is the `openError` parameter of `HsFsm.NewFSM`. `NewConfig` takes no handle.
- Debug logging through `log.Println` (fsm/fsm.go:141-143, 152-154, 163-165; hsfsm.go:132-134, 143-145) is output only. The `Debug` flag is carried but has no effect.
- Concurrency: each statement is one indivisible store step, which is how MySQL executes it. `Fsm.Run` (built on `Engine.Serial`) is one serial commit order. Which racing caller wins is not modelled.
- Driver error texts: MySQL and driver errors are the abstract `DbError` values (syntax, unknown table or column, column named twice, duplicate key, no rows). Only "undefined event: " + name is spelled out.
- MySQL collations: string comparison in `WHEN` and on `id` is exact equality. MySQL's default collations ignore case, and depending on the collation also accents or trailing spaces.
- The MySQL table is reduced to its `id` key and the one state column. Other columns and schema creation are out of scope.
- Fsm.EventNeedsStateColumn: the failure is stated for a table whose only column besides `id` is `Field`. A table that also has a `state` column, say `task(id, status, state)` with `Field` `status`, makes MySQL evaluate the `WHEN` clauses on that column. The event then succeeds and silently sets `status` from the value of `state`; the model's one-column table cannot show this.
- Queries.EventStatementUnknownColumn: same one-column restriction as `Fsm.EventNeedsStateColumn`.
- SQL quoting: the code escapes nothing, and the renderer copies labels verbatim. The model's store reads a name only as an unquoted identifier (ASCII letters and digits, `$`, `_`, U+0080 to U+FFFF) and a value only as a literal with neither quote nor backslash. Any other text is a syntax error.
- Sql.ParseWrite: a value holding a backslash is treated as a syntax error. MySQL reads the backslash as an escape, so some such statements store a different value instead, and some fail.
- Sql.ParseWrite: reserved words (`select`, `order`) and names MySQL reads as numbers (`123`, `1e3`) pass as identifiers, though MySQL rejects or misreads them unquoted.
- Sql.ParseSelect: the same gap for the select: a table or column named `order` parses.
- Sql.ParseSelectRender: the same gap; its round trip covers such names, which MySQL would reject.
- Database.Apply: table names are compared exactly, as MySQL does on Linux. Column names are compared ignoring ASCII case, as MySQL does everywhere; case folding beyond ASCII is not modelled.
- Fsm.EventEffect: stated only under `Fsm.Serves`, for a plain fired rule with at least one source. A rule without sources is `Fsm.EventWithoutSources`; a `Field` other than `state` is `Fsm.EventNeedsStateColumn`; Field `id` is `Fsm.KeyFieldEffect`. Settings or labels the store cannot read are not covered.
- Fsm.EventQueryParses: stated only for plain settings and a plain rule with sources.
- Fsm.EventNeedsStateColumn: also stated only under `Fsm.Serves`, for a plain rule with sources.
- Fsm.EventWithoutSources: stated only for plain settings.
- Fsm.KeyFieldEffect: stated only for plain settings; for events, only for a plain rule with sources.
- Fsm.InitializeEffect: stated only under `Fsm.Serves`: plain settings and a `Field` other than `id` (that case is `Fsm.KeyFieldEffect`).
- Fsm.CurrentEffect: stated only under `Fsm.Serves`: plain settings and a `Field` other than `id` (that case is `Fsm.KeyFieldEffect`).
- Fsm.InitializeThenCurrent: same restrictions as `Fsm.InitializeEffect`, and only for an entity without a row.
- Fsm.FirstContact: same restrictions as `Fsm.EventEffect`.
- Fsm.NoOpEvent: same restrictions as `Fsm.EventEffect`.
- Fsm.RunRefinesMachine: same restrictions as `Fsm.EventEffect`, for every event of the run.
- Fsm.Convergence: same restrictions as `Fsm.EventEffect`, except that a rule without sources is covered too.
- HsFsm.EventEffect: same restrictions as `Fsm.EventEffect`.
- HsFsm.EventWithoutSources: same restrictions as `Fsm.EventWithoutSources`.
- HsFsm.CurrentEffect: same restrictions as `Fsm.CurrentEffect`.
- examples/main.go is used only for its rule set and call order. Its `~/.my.cnf` loading, goroutines and `time.Sleep` are left out. It calls `NewFSM` with six arguments and `Current(entryID)`, which fsm/fsm.go does not define. `Scenario.Setup` therefore uses `NewConfig` and `NewFSM` as fsm/fsm.go defines them.
