/**
 * Package `fsm`: a state machine whose states live only in a MySQL table.
 * A `Config` holds the table, the state field, the initial state and the
 * name-indexed events; an `FSM` adds the id of one entity.
 */
module Fsm {
  import opened Wrappers
  import opened Text
  import opened Sql
  import opened Database
  import opened Engine
  import opened Queries
  import EventTable
  import Machine

  /** `DBConfig` without its connection handle. */
  datatype DBConfig = DBConfig(table: string, field: string, debug: bool)

  datatype Config = Config(db: DBConfig, init: string, events: map<string, EventTable.Event>)

  datatype FSM = FSM(config: Config, id: string)

  /**
   * `NewConfig`: indexes `events` by name, a later event replacing an earlier
   * one of the same name. `Debug` is left at its zero value.
   */
  method NewConfig(table: string, field: string, init: string, events: seq<EventTable.Event>)
    returns (c: Config)
    ensures c.db == DBConfig(table, field, false) && c.init == init
    ensures forall name :: Get(c.events, name) == EventTable.LastNamed(events, name)
  {
    var m := EventTable.Index(events);
    c := Config(DBConfig(table, field, false), init, m);
  }

  /** `NewFSM`: the configuration shared, the entity's id attached. */
  function NewFSM(config: Config, id: string): (r: FSM)
    ensures r.config == config && r.id == id
  {
    FSM(config, id)
  }

  // ------------------------------------------------------------ statements

  function EventQuery(f: FSM, event: string): string
  {
    var ev := EventTable.Lookup(f.config.events, event);
    RenderWrite(EventStatement(f.config.db.table, f.config.db.field, f.id, f.config.init, ev))
  }

  function CurrentQuery(f: FSM): string
  {
    RenderSelect(CurrentStatement(f.config.db.table, f.config.db.field, f.id))
  }

  function InitQuery(f: FSM): string
  {
    RenderWrite(InitStatement(f.config.db.table, f.config.db.field, f.id, f.config.init))
  }

  // ---------------------------------------------------------------- façade

  /** `Initialize`: the plain insert of the entity at the initial state. */
  function Initialize(f: FSM, t: Table): (r: Effect)
    ensures r.sent == [InitQuery(f)]
    ensures r.err.Some? ==> r.table == t
  {
    Send(t, InitQuery(f))
  }

  /** `Current`: the value the select reads (the stored state), or `""` together with the error. */
  function Current(f: FSM, t: Table): (r: (string, Option<Error>))
    ensures r.1.Some? ==> r.0 == "" && r.1.value.Store?
    ensures r.1.None? ==> r.0 in t.rows.Values || r.0 in t.rows.Keys
  {
    match Query(t, CurrentQuery(f))
    case Success(state) => (state, None)
    case Failure(e) => ("", Some(Store(e)))
  }

  /**
   * `Event`: an undefined event is refused before anything is sent; a defined
   * one sends its single conditional upsert.
   */
  function Event(f: FSM, t: Table, event: string): (r: Effect)
    ensures event !in f.config.events ==> r == Effect(t, Some(UndefinedEvent(event)), [])
    ensures event !in f.config.events ==> r.err.value.Message() == "undefined event: " + event
    ensures event in f.config.events ==> r.sent == [EventQuery(f, event)]
    ensures r.err.Some? ==> r.table == t
  {
    if event !in f.config.events then
      Effect(t, Some(UndefinedEvent(event)), [])
    else
      Send(t, EventQuery(f, event))
  }

  /** `Event` on this machine, as a call `Serial` can chain. */
  function Caller(f: FSM): (Table, string) -> Effect
  {
    (u: Table, n: string) => Event(f, u, n)
  }

  /** Events on this machine one after another, stopping at the first error. */
  function Run(f: FSM, t: Table, names: seq<string>): Effect
  {
    Serial(Caller(f), t, names)
  }

  // ------------------------------------------------------------- semantics

  /**
   * The store `t` is the one `f` is configured for, its state column is not
   * the key column `id` itself, and the settings every statement carries are
   * plain: table and field are unquoted identifiers, the id and the initial
   * state literals with neither quote nor backslash. The labels of a rule
   * reach only that rule's statement, so they are asked of the fired rule
   * alone (`PlainEvent`).
   */
  predicate Serves(f: FSM, t: Table)
  {
    && t.name == f.config.db.table
    && t.column == f.config.db.field
    && !SameName(f.config.db.field, KeyColumn)
    && PlainSettings(f.config.db.table, f.config.db.field, f.id, f.config.init)
  }

  /** The statement `Event` sends for a rule with sources reads back as the conditional upsert of the rule. */
  lemma EventQueryParses(f: FSM, event: string)
    requires PlainSettings(f.config.db.table, f.config.db.field, f.id, f.config.init)
    requires event in f.config.events && PlainEvent(f.config.events[event])
    requires |f.config.events[event].src| > 0
    ensures ParseWrite(EventQuery(f, event))
         == Some(EventStatement(f.config.db.table, f.config.db.field, f.id, f.config.init, f.config.events[event]))
  {
    var c := f.config;
    StatementsPlain(c.db.table, c.db.field, f.id, c.init, c.events[event]);
    ParseWriteRender(EventStatement(c.db.table, c.db.field, f.id, c.init, c.events[event]));
  }

  /**
   * With the state column named `state` (in any letter case) and a rule with
   * sources: a missing row is inserted at the initial state (not at the
   * destination), a source state moves to the destination, and any other
   * state is left alone; none of these is an error.
   */
  lemma EventEffect(f: FSM, t: Table, event: string)
    requires Serves(f, t) && event in f.config.events && SameName(f.config.db.field, CaseColumn)
    requires PlainEvent(f.config.events[event]) && |f.config.events[event].src| > 0
    ensures Event(f, t, event)
         == Effect(t.(rows := t.rows[f.id := Machine.Next(Get(t.rows, f.id), f.config.init, f.config.events[event])]),
                   None, [EventQuery(f, event)])
  {
    var c := f.config;
    EventQueryParses(f, event);
    EventStatementEffect(t, c.db.table, c.db.field, f.id, c.init, c.events[event]);
  }

  /**
   * With any other state column, on a table whose only column besides `id`
   * is that field, the CASE names a column the table lacks, and the call fails.
   */
  lemma EventNeedsStateColumn(f: FSM, t: Table, event: string)
    requires Serves(f, t) && event in f.config.events && !SameName(f.config.db.field, CaseColumn)
    requires PlainEvent(f.config.events[event])
    requires |f.config.events[event].src| > 0
    ensures Event(f, t, event) == Effect(t, Some(Store(UnknownColumn(CaseColumn))), [EventQuery(f, event)])
  {
    var c := f.config;
    EventQueryParses(f, event);
    EventStatementUnknownColumn(t, c.db.table, c.db.field, f.id, c.init, c.events[event]);
  }

  /**
   * `NewConfig` accepts a rule with no source, but its statement then holds
   * a `CASE` without a `WHEN`, which MySQL rejects: the event fails with a
   * syntax error and the store is unchanged.
   */
  lemma EventWithoutSources(f: FSM, t: Table, event: string)
    requires PlainSettings(f.config.db.table, f.config.db.field, f.id, f.config.init)
    requires event in f.config.events && |f.config.events[event].src| == 0
    ensures Event(f, t, event) == Effect(t, Some(Store(SyntaxError)), [EventQuery(f, event)])
  {
    var c := f.config;
    var ev := c.events[event];
    assert Cases(ev.src, ev.dst) == [];
    ParseWriteNoCases(Row(c.db.table, c.db.field, f.id, c.init), c.db.field, c.db.field);
  }

  /**
   * A state field named `id`, in any letter case, has both writes name the
   * key column twice: `Initialize` fails, and so does every event with
   * sources, and the store is unchanged. `Current` then selects the key
   * itself: the entity's id when its row exists.
   */
  lemma KeyFieldEffect(f: FSM, t: Table, event: string)
    requires PlainSettings(f.config.db.table, f.config.db.field, f.id, f.config.init)
    requires t.name == f.config.db.table && SameName(f.config.db.field, KeyColumn)
    ensures Initialize(f, t) == Effect(t, Some(Store(DuplicateColumn(f.config.db.field))), [InitQuery(f)])
    ensures event in f.config.events && PlainEvent(f.config.events[event]) && |f.config.events[event].src| > 0 ==>
              Event(f, t, event) == Effect(t, Some(Store(DuplicateColumn(f.config.db.field))), [EventQuery(f, event)])
    ensures f.id in t.rows ==> Current(f, t) == (f.id, None)
    ensures f.id !in t.rows ==> Current(f, t) == ("", Some(Store(NoRows)))
  {
    var c := f.config;
    var ev := EventTable.Lookup(c.events, event);
    StatementsPlain(c.db.table, c.db.field, f.id, c.init, EventTable.ZeroEvent);
    ParseWriteRender(InitStatement(c.db.table, c.db.field, f.id, c.init));
    ParseSelectRender(CurrentStatement(c.db.table, c.db.field, f.id));
    KeyFieldRejected(t, c.db.table, c.db.field, f.id, c.init, ev);
    if event in c.events && PlainEvent(c.events[event]) && |c.events[event].src| > 0 {
      EventQueryParses(f, event);
    }
  }

  /** `Initialize` inserts the entity at the initial state, and fails if it already exists. */
  lemma InitializeEffect(f: FSM, t: Table)
    requires Serves(f, t)
    ensures f.id in t.rows ==>
      Initialize(f, t) == Effect(t, Some(Store(DuplicateEntry(f.id))), [InitQuery(f)])
    ensures f.id !in t.rows ==>
      Initialize(f, t) == Effect(t.(rows := t.rows[f.id := f.config.init]), None, [InitQuery(f)])
  {
    var c := f.config;
    StatementsPlain(c.db.table, c.db.field, f.id, c.init, EventTable.ZeroEvent);
    ParseWriteRender(InitStatement(c.db.table, c.db.field, f.id, c.init));
    InitStatementEffect(t, c.db.table, c.db.field, f.id, c.init);
  }

  /** `Current` returns the stored state, or `""` and `sql.ErrNoRows` for an unknown entity. */
  lemma CurrentEffect(f: FSM, t: Table)
    requires Serves(f, t)
    ensures f.id in t.rows ==> Current(f, t) == (t.rows[f.id], None)
    ensures f.id !in t.rows ==> Current(f, t) == ("", Some(Store(NoRows)))
  {
    var c := f.config;
    var s := CurrentStatement(c.db.table, c.db.field, f.id);
    StatementsPlain(c.db.table, c.db.field, f.id, c.init, EventTable.ZeroEvent);
    ParseSelectRender(s);
    assert ParseSelect(CurrentQuery(f)) == Some(s);
    assert !SameName(s.column, KeyColumn) && SameName(s.column, t.column);
  }

  // ------------------------------------------------------------------ text

  /** One `WHEN` clause per source state, always testing the literal column `state`. */
  function Clauses(ev: EventTable.Event): (r: seq<string>)
    ensures |r| == |ev.src|
  {
    seq(|ev.src|, i requires 0 <= i < |ev.src| => "WHEN state = '" + ev.src[i] + "' THEN '" + ev.dst + "'")
  }

  lemma InitQueryText(f: FSM)
    ensures InitQuery(f)
         == "INSERT INTO " + f.config.db.table + " (id, " + f.config.db.field + ") VALUES ('"
          + f.id + "', '" + f.config.init + "')"
  {
    var c := f.config;
    RowText(Row(c.db.table, c.db.field, f.id, c.init));
  }

  lemma CurrentQueryText(f: FSM)
    ensures CurrentQuery(f) == "SELECT " + f.config.db.field + " FROM " + f.config.db.table + " WHERE id = '" + f.id + "'"
  {
    var c := f.config;
    SelectText(Select(c.db.field, c.db.table, f.id));
  }

  /** Clause `i` of the `CASE` body, written out. */
  lemma ClauseText(ev: EventTable.Event, i: nat)
    requires i < |ev.src|
    ensures RenderWhen(Cases(ev.src, ev.dst)[i]) == Clauses(ev)[i]
  {
    WhenText(Cases(ev.src, ev.dst)[i]);
  }

  /** The `CASE` body: the clauses joined by single spaces. */
  lemma CasesText(ev: EventTable.Event)
    ensures RenderCases(Cases(ev.src, ev.dst)) == Join(Clauses(ev), " ")
  {
    var cases := Cases(ev.src, ev.dst);
    forall i | 0 <= i < |cases|
      ensures RenderWhens(cases)[i] == Clauses(ev)[i]
    {
      ClauseText(ev, i);
    }
    assert RenderWhens(cases) == Clauses(ev);
  }

  /**
   * The event statement is the init statement, one space, and the update
   * clause: `Field` is the column set and the `ELSE` value, the clauses test
   * `state`, in the order of `Src`.
   */
  lemma EventQueryText(f: FSM, event: string)
    requires event in f.config.events
    ensures EventQuery(f, event)
         == InitQuery(f) + " "
          + ("ON DUPLICATE KEY UPDATE " + f.config.db.field + " = CASE "
             + Join(Clauses(f.config.events[event]), " ") + " ELSE " + f.config.db.field + " END")
  {
    var c := f.config;
    var ev := c.events[event];
    var row := Row(c.db.table, c.db.field, f.id, c.init);
    var body := RenderCases(Cases(ev.src, ev.dst));
    assert EventQuery(f, event) == RenderRow(row) + " " + Fill(UpdateFormat, [c.db.field, body, c.db.field]);
    assert InitQuery(f) == RenderRow(row);
    CasesText(ev);
    UpdateText(c.db.field, body, c.db.field);
  }

  // ----------------------------------------------------------- test texts

  /** The configuration of the package's own statement tests. */
  const TaskReady := EventTable.Event("Ready", ["Initializing", "Error"], "Running")
  const TaskFsm := FSM(Config(DBConfig("task", "state", false), "Initializing", map["Ready" := TaskReady]), "1")

  lemma TaskInitQuery()
    ensures InitQuery(TaskFsm) == "INSERT INTO task (id, state) VALUES ('1', 'Initializing')"
  {
    InitQueryText(TaskFsm);
    InitLiteral();
  }

  lemma TaskClauses()
    ensures Clauses(TaskReady) == ["WHEN state = 'Initializing' THEN 'Running'", "WHEN state = 'Error' THEN 'Running'"]
  {
    ClauseLiterals();
  }

  lemma TaskEventQuery()
    ensures EventQuery(TaskFsm, "Ready")
         == "INSERT INTO task (id, state) VALUES ('1', 'Initializing') "
          + "ON DUPLICATE KEY UPDATE state = CASE "
          + "WHEN state = 'Initializing' THEN 'Running' "
          + "WHEN state = 'Error' THEN 'Running' "
          + "ELSE state "
          + "END"
  {
    assert TaskFsm.config.events["Ready"] == TaskReady;
    EventQueryText(TaskFsm, "Ready");
    TaskInitQuery();
    TaskClauses();
    Regroup("INSERT INTO task (id, state) VALUES ('1', 'Initializing')", "state", "WHEN state = 'Initializing' THEN 'Running'", "WHEN state = 'Error' THEN 'Running'");
    EventPieces();
  }

  lemma TaskCurrentQuery()
    ensures CurrentQuery(TaskFsm) == "SELECT state FROM task WHERE id = '1'"
  {
    CurrentQueryText(TaskFsm);
    SelectLiteral();
  }

  // ----------------------------------------------------------- consequences

  /**
   * After a successful `Initialize`, `Current` reports the initial state; a
   * second `Initialize` fails and leaves the first one's row as it was.
   */
  lemma InitializeThenCurrent(f: FSM, t: Table)
    requires Serves(f, t) && f.id !in t.rows
    ensures Initialize(f, t).err.None?
    ensures Current(f, Initialize(f, t).table) == (f.config.init, None)
    ensures Initialize(f, Initialize(f, t).table)
         == Effect(Initialize(f, t).table, Some(Store(DuplicateEntry(f.id))), [InitQuery(f)])
  {
    InitializeEffect(f, t);
    var t1 := Initialize(f, t).table;
    assert Serves(f, t1);
    CurrentEffect(f, t1);
    InitializeEffect(f, t1);
  }

  /**
   * The first event on an entity without a row inserts it at the initial
   * state, whatever the event's destination.
   */
  lemma FirstContact(f: FSM, t: Table, event: string)
    requires Serves(f, t) && SameName(f.config.db.field, CaseColumn)
    requires event in f.config.events && PlainEvent(f.config.events[event]) && |f.config.events[event].src| > 0
    requires f.id !in t.rows
    ensures Event(f, t, event).err.None?
    ensures Current(f, Event(f, t, event).table) == (f.config.init, None)
  {
    EventEffect(f, t, event);
    var t1 := Event(f, t, event).table;
    assert Serves(f, t1);
    CurrentEffect(f, t1);
  }

  /** An event fired from a state outside its sources is a successful no-op. */
  lemma NoOpEvent(f: FSM, t: Table, event: string)
    requires Serves(f, t) && SameName(f.config.db.field, CaseColumn)
    requires event in f.config.events && PlainEvent(f.config.events[event]) && |f.config.events[event].src| > 0
    requires f.id in t.rows
    requires t.rows[f.id] !in f.config.events[event].src
    ensures Event(f, t, event) == Effect(t, None, [EventQuery(f, event)])
  {
    EventEffect(f, t, event);
    assert t.rows[f.id := t.rows[f.id]] == t.rows;
  }

  /** Whether a store serves `f` depends only on its name and column. */
  lemma ServesSameSchema(f: FSM, t: Table, t': Table)
    requires Serves(f, t) && t'.name == t.name && t'.column == t.column
    ensures Serves(f, t')
  {
  }

  /** The rules the names select, with the zero rule for a name that is not defined. */
  function Rules(f: FSM, names: seq<string>): (r: seq<EventTable.Event>)
    ensures |r| == |names|
  {
    seq(|names|, i requires 0 <= i < |names| => EventTable.Lookup(f.config.events, names[i]))
  }

  lemma RulesStep(f: FSM, names: seq<string>, current: Option<string>)
    requires |names| > 0
    ensures Machine.Run(current, f.config.init, Rules(f, names))
         == Machine.Run(Some(Machine.Next(current, f.config.init, EventTable.Lookup(f.config.events, names[0]))),
                        f.config.init, Rules(f, names[1..]))
  {
    assert Rules(f, names)[1..] == Rules(f, names[1..]);
  }

  /** The statements a run of `names` sends: one upsert per event, in order. */
  function Statements(f: FSM, names: seq<string>): (r: seq<string>)
    ensures |r| == |names|
  {
    seq(|names|, i requires 0 <= i < |names| => EventQuery(f, names[i]))
  }

  lemma StatementsStep(f: FSM, names: seq<string>)
    requires |names| > 0
    ensures Statements(f, names) == [EventQuery(f, names[0])] + Statements(f, names[1..])
  {
    assert Statements(f, names)[1..] == Statements(f, names[1..]);
  }

  /**
   * `call` behaves on every table with `t`'s schema as `EventEffect` says
   * `Event` does for each of `names`.
   */
  ghost predicate Tracks(call: (Table, string) -> Effect, f: FSM, t: Table, names: seq<string>)
  {
    forall u: Table, i :: 0 <= i < |names| && u.name == t.name && u.column == t.column ==>
      && names[i] in f.config.events
      && call(u, names[i])
         == Effect(u.(rows := u.rows[f.id := Machine.Next(Get(u.rows, f.id), f.config.init, f.config.events[names[i]])]),
                   None, [EventQuery(f, names[i])])
  }

  /** A call that tracks the machine on `names` also tracks it on their tail, from any table of the same schema. */
  lemma TracksTail(call: (Table, string) -> Effect, f: FSM, t: Table, t1: Table, names: seq<string>)
    requires Tracks(call, f, t, names) && |names| > 0
    requires t1.name == t.name && t1.column == t.column
    ensures Tracks(call, f, t1, names[1..])
  {
    forall u: Table, i | 0 <= i < |names[1..]| && u.name == t1.name && u.column == t1.column
      ensures names[1..][i] == names[i + 1]
    {
    }
  }

  /** First half of the induction behind `RunRefinesMachine`: success, statements and schema. */
  lemma {:induction false} SerialSucceeds(call: (Table, string) -> Effect, f: FSM, t: Table, names: seq<string>)
    requires Tracks(call, f, t, names)
    ensures Serial(call, t, names).err.None?
    ensures Serial(call, t, names).sent == Statements(f, names)
    ensures Serial(call, t, names).table.name == t.name && Serial(call, t, names).table.column == t.column
    decreases |names|
  {
    if |names| > 0 {
      var t1 := call(t, names[0]).table;
      TracksTail(call, f, t, t1, names);
      SerialSucceeds(call, f, t1, names[1..]);
      StatementsStep(f, names);
    }
  }

  /** Second half: the entity's row follows `Machine.Run`, every other row stays. */
  lemma {:induction false} SerialRows(call: (Table, string) -> Effect, f: FSM, t: Table, names: seq<string>)
    requires Tracks(call, f, t, names)
    ensures Get(Serial(call, t, names).table.rows, f.id) == Machine.Run(Get(t.rows, f.id), f.config.init, Rules(f, names))
    ensures forall k :: k != f.id ==> Get(Serial(call, t, names).table.rows, k) == Get(t.rows, k)
    decreases |names|
  {
    if |names| > 0 {
      var t1 := call(t, names[0]).table;
      assert t1 == t.(rows := t.rows[f.id := Machine.Next(Get(t.rows, f.id), f.config.init, f.config.events[names[0]])]);
      TracksTail(call, f, t, t1, names);
      SerialRows(call, f, t1, names[1..]);
      RulesStep(f, names, Get(t.rows, f.id));
      forall k | k != f.id
        ensures Get(t1.rows, k) == Get(t.rows, k)
      {
      }
    }
  }

  /**
   * Refinement: a run of defined events, each with a source, succeeds, sends
   * one upsert per event, drives the entity's stored state exactly as the
   * abstract machine does, and touches no other row.
   */
  lemma RunRefinesMachine(f: FSM, t: Table, names: seq<string>)
    requires Serves(f, t) && SameName(f.config.db.field, CaseColumn)
    requires forall i :: 0 <= i < |names| ==>
               names[i] in f.config.events && PlainEvent(f.config.events[names[i]]) && |f.config.events[names[i]].src| > 0
    ensures Run(f, t, names).err.None?
    ensures Run(f, t, names).sent == Statements(f, names)
    ensures Get(Run(f, t, names).table.rows, f.id) == Machine.Run(Get(t.rows, f.id), f.config.init, Rules(f, names))
    ensures forall k :: k != f.id ==> Get(Run(f, t, names).table.rows, k) == Get(t.rows, k)
    ensures Run(f, t, names).table.name == t.name && Run(f, t, names).table.column == t.column
  {
    forall u: Table, i | 0 <= i < |names| && u.name == t.name && u.column == t.column
      ensures Caller(f)(u, names[i])
           == Effect(u.(rows := u.rows[f.id := Machine.Next(Get(u.rows, f.id), f.config.init, f.config.events[names[i]])]),
                     None, [EventQuery(f, names[i])])
    {
      ServesSameSchema(f, t, u);
      EventEffect(f, u, names[i]);
    }
    SerialSucceeds(Caller(f), f, t, names);
    SerialRows(Caller(f), f, t, names);
  }

  /**
   * Convergence: repeating an event on an entity in one of its sources, or
   * already at its destination, leaves the entity at the destination. A rule
   * without sources fails at once, on an entity already at its destination.
   */
  lemma Convergence(f: FSM, t: Table, event: string, n: nat)
    requires Serves(f, t) && SameName(f.config.db.field, CaseColumn)
    requires event in f.config.events && PlainEvent(f.config.events[event]) && f.id in t.rows && n > 0
    requires t.rows[f.id] in f.config.events[event].src || t.rows[f.id] == f.config.events[event].dst
    ensures Current(f, Run(f, t, seq(n, _ => event)).table) == (f.config.events[event].dst, None)
    ensures Run(f, t, seq(n, _ => event)).err.None? <==> |f.config.events[event].src| > 0
  {
    if |f.config.events[event].src| == 0 {
      RepeatWithoutSources(f, t, event, n);
    } else {
      RepeatWithSources(f, t, event, n);
    }
  }

  /** The sourced half of `Convergence`: the run follows `Machine.Repeat`. */
  lemma RepeatWithSources(f: FSM, t: Table, event: string, n: nat)
    requires Serves(f, t) && SameName(f.config.db.field, CaseColumn)
    requires event in f.config.events && PlainEvent(f.config.events[event]) && f.id in t.rows && n > 0
    requires |f.config.events[event].src| > 0
    requires t.rows[f.id] in f.config.events[event].src || t.rows[f.id] == f.config.events[event].dst
    ensures Current(f, Run(f, t, seq(n, _ => event)).table) == (f.config.events[event].dst, None)
    ensures Run(f, t, seq(n, _ => event)).err.None?
  {
    var names := seq(n, _ => event);
    var ev := f.config.events[event];
    RunRefinesMachine(f, t, names);
    assert Rules(f, names) == Machine.Repeat(ev, n);
    Machine.RepeatConverges(t.rows[f.id], f.config.init, ev, n);
    ServesSameSchema(f, t, Run(f, t, names).table);
    CurrentEffect(f, Run(f, t, names).table);
  }

  /** The other half: the first event already fails, on an entity at the destination. */
  lemma RepeatWithoutSources(f: FSM, t: Table, event: string, n: nat)
    requires Serves(f, t)
    requires event in f.config.events && f.id in t.rows && n > 0
    requires |f.config.events[event].src| == 0 && t.rows[f.id] == f.config.events[event].dst
    ensures Current(f, Run(f, t, seq(n, _ => event)).table) == (f.config.events[event].dst, None)
    ensures Run(f, t, seq(n, _ => event)).err.Some?
  {
    var names := seq(n, _ => event);
    EventWithoutSources(f, t, event);
    assert Run(f, t, names).table == t && Run(f, t, names).err.Some? by {
      assert names[0] == event;
    }
    CurrentEffect(f, t);
  }

  // ------------------------------------------------------ literal splicing
  //
  // The lemmas below only join string constants: each states that the test
  // settings spliced into one format give the text the package's tests spell
  // out, one concatenation at a time, so that no proof above has to evaluate
  // a long concatenation of literals at once.

  lemma InitLiteral()
    ensures "INSERT INTO " + "task" + " (id, " + "state" + ") VALUES ('" + "1" + "', '" + "Initializing" + "')"
         == "INSERT INTO task (id, state) VALUES ('1', 'Initializing')"
  {
    InitLiteralHead();
    assert "INSERT INTO task (id, state" + ") VALUES ('" == "INSERT INTO task (id, state) VALUES ('";
    assert "INSERT INTO task (id, state) VALUES ('" + "1" == "INSERT INTO task (id, state) VALUES ('1";
    assert "INSERT INTO task (id, state) VALUES ('1" + "', '" == "INSERT INTO task (id, state) VALUES ('1', '";
    assert "INSERT INTO task (id, state) VALUES ('1', '" + "Initializing" == "INSERT INTO task (id, state) VALUES ('1', 'Initializing";
  }

  lemma InitLiteralHead()
    ensures "INSERT INTO " + "task" + " (id, " + "state" == "INSERT INTO task (id, state"
  {
    assert "INSERT INTO " + "task" == "INSERT INTO task";
    assert "INSERT INTO task" + " (id, " == "INSERT INTO task (id, ";
  }

  lemma SelectLiteral()
    ensures "SELECT " + "state" + " FROM " + "task" + " WHERE id = '" + "1" + "'"
         == "SELECT state FROM task WHERE id = '1'"
  {
    assert "SELECT " + "state" == "SELECT state";
    assert "SELECT state" + " FROM " == "SELECT state FROM ";
    assert "SELECT state FROM " + "task" == "SELECT state FROM task";
    assert "SELECT state FROM task" + " WHERE id = '" == "SELECT state FROM task WHERE id = '";
    assert "SELECT state FROM task WHERE id = '" + "1" == "SELECT state FROM task WHERE id = '1";
  }

  /** The two sources of `Ready` spliced into the case format. */
  lemma ClauseLiterals()
    ensures "WHEN state = '" + "Initializing" + "' THEN '" + "Running" + "'"
         == "WHEN state = 'Initializing' THEN 'Running'"
    ensures "WHEN state = '" + "Error" + "' THEN '" + "Running" + "'"
         == "WHEN state = 'Error' THEN 'Running'"
  {
    assert "WHEN state = '" + "Initializing" == "WHEN state = 'Initializing";
    assert "WHEN state = 'Initializing" + "' THEN '" == "WHEN state = 'Initializing' THEN '";
    assert "WHEN state = 'Initializing' THEN '" + "Running" == "WHEN state = 'Initializing' THEN 'Running";
    assert "WHEN state = '" + "Error" == "WHEN state = 'Error";
    assert "WHEN state = 'Error" + "' THEN '" == "WHEN state = 'Error' THEN '";
    assert "WHEN state = 'Error' THEN '" + "Running" == "WHEN state = 'Error' THEN 'Running";
  }

  /** The event statement regrouped along the pieces the package's test writes. */
  lemma Regroup(init: string, field: string, w0: string, w1: string)
    ensures init + " " + ("ON DUPLICATE KEY UPDATE " + field + " = CASE " + Join([w0, w1], " ") + " ELSE " + field + " END")
         == (init + " ") + ("ON DUPLICATE KEY UPDATE " + field + " = CASE ") + (w0 + " ") + (w1 + " ")
          + ("ELSE " + field + " ") + "END"
  {
    assert Join([w0, w1], " ") == w0 + " " + w1 by {
      assert [w0, w1][1..] == [w1];
    }
    assert " ELSE " == " " + "ELSE ";
    assert " END" == " " + "END";
  }

  /** The regrouped pieces, each written as the test writes it. */
  lemma EventPieces()
    ensures "INSERT INTO task (id, state) VALUES ('1', 'Initializing')" + " " == "INSERT INTO task (id, state) VALUES ('1', 'Initializing') "
    ensures "ON DUPLICATE KEY UPDATE " + "state" + " = CASE " == "ON DUPLICATE KEY UPDATE state = CASE "
    ensures "WHEN state = 'Initializing' THEN 'Running'" + " " == "WHEN state = 'Initializing' THEN 'Running' "
    ensures "WHEN state = 'Error' THEN 'Running'" + " " == "WHEN state = 'Error' THEN 'Running' "
    ensures "ELSE " + "state" + " " == "ELSE state "
  {
    assert "ON DUPLICATE KEY UPDATE " + "state" == "ON DUPLICATE KEY UPDATE state";
  }
}
