/**
 * Package `hsfsm`: the earlier, flat variant of the machine. One `FSM` holds
 * the data source settings, the initial state and the name-indexed events of
 * a single entity; it has no `Initialize`.
 */
module HsFsm {
  import opened Wrappers
  import opened Sql
  import opened Database
  import opened Engine
  import opened Queries
  import EventTable
  import Fsm
  import Machine

  /** `DataSourceConfig`: `URI` is handed to the driver and kept nowhere else. */
  datatype DataSourceConfig = DataSourceConfig(uri: string, table: string, id: string, field: string, debug: bool)

  /** `FSM` without its connection handle. */
  datatype FSM = FSM(table: string, id: string, field: string, debug: bool, init: string,
                     events: map<string, EventTable.Event>)

  /**
   * `NewFSM`: `openError` is what `sql.Open` reports for the URI; on success
   * the settings are copied over and the events indexed by name, a later
   * event replacing an earlier one of the same name.
   */
  method NewFSM(config: DataSourceConfig, init: string, events: seq<EventTable.Event>, openError: Option<string>)
    returns (r: Result<FSM, Error>)
    ensures openError.Some? ==> r == Failure(Open(openError.value))
    ensures openError.None? ==>
      && r.Success?
      && r.value.table == config.table && r.value.id == config.id
      && r.value.field == config.field && r.value.debug == config.debug
      && r.value.init == init
      && forall name :: Get(r.value.events, name) == EventTable.LastNamed(events, name)
  {
    if openError.Some? {
      return Failure(Open(openError.value));
    }
    var m := EventTable.Index(events);
    r := Success(FSM(config.table, config.id, config.field, config.debug, init, m));
  }

  // ------------------------------------------------------------ statements

  function EventQuery(h: FSM, event: string): string
  {
    var ev := EventTable.Lookup(h.events, event);
    RenderWrite(EventStatement(h.table, h.field, h.id, h.init, ev))
  }

  function CurrentQuery(h: FSM): string
  {
    RenderSelect(CurrentStatement(h.table, h.field, h.id))
  }

  // ---------------------------------------------------------------- façade

  /** `Current`: the value the select reads (the stored state), or `""` together with the error. */
  function Current(h: FSM, t: Table): (r: (string, Option<Error>))
    ensures r.1.Some? ==> r.0 == "" && r.1.value.Store?
    ensures r.1.None? ==> r.0 in t.rows.Values || r.0 in t.rows.Keys
  {
    match Query(t, CurrentQuery(h))
    case Success(state) => (state, None)
    case Failure(e) => ("", Some(Store(e)))
  }

  /**
   * `Event`: an undefined event is refused before anything is sent; a defined
   * one sends its single conditional upsert.
   */
  function Event(h: FSM, t: Table, event: string): (r: Effect)
    ensures event !in h.events ==> r == Effect(t, Some(UndefinedEvent(event)), [])
    ensures event !in h.events ==> r.err.value.Message() == "undefined event: " + event
    ensures event in h.events ==> r.sent == [EventQuery(h, event)]
    ensures r.err.Some? ==> r.table == t
  {
    if event !in h.events then
      Effect(t, Some(UndefinedEvent(event)), [])
    else
      Send(t, EventQuery(h, event))
  }

  // ------------------------------------------------------- correspondence

  /** The `fsm` machine with the same settings. */
  function AsFsm(h: FSM): (f: Fsm.FSM)
    ensures f.id == h.id && f.config.init == h.init && f.config.events == h.events
    ensures f.config.db == Fsm.DBConfig(h.table, h.field, h.debug)
  {
    Fsm.FSM(Fsm.Config(Fsm.DBConfig(h.table, h.field, h.debug), h.init, h.events), h.id)
  }

  /**
   * The two packages send the same text, so everything proved of `fsm`'s
   * `Event` and `Current` holds here: undefined names, the effect on the
   * store, the literal `state` column.
   */
  lemma SameEventText(h: FSM, event: string)
    ensures EventQuery(h, event) == Fsm.EventQuery(AsFsm(h), event)
  {
  }

  lemma SameCurrentText(h: FSM)
    ensures CurrentQuery(h) == Fsm.CurrentQuery(AsFsm(h))
  {
  }

  /** `Event` on a store is `fsm`'s `Event` on the same store. */
  lemma SameEvent(h: FSM, t: Table, event: string)
    ensures Event(h, t, event) == Fsm.Event(AsFsm(h), t, event)
  {
    SameEventText(h, event);
  }

  /** `Current` on a store is `fsm`'s `Current` on the same store. */
  lemma SameCurrent(h: FSM, t: Table)
    ensures Current(h, t) == Fsm.Current(AsFsm(h), t)
  {
    SameCurrentText(h);
  }

  /** The store behind `h`, with plain settings and a state column other than `id`. */
  predicate Serves(h: FSM, t: Table)
  {
    Fsm.Serves(AsFsm(h), t)
  }

  /**
   * With the state column named `state` (in any letter case) and a rule with
   * sources: a missing row is inserted at the initial state, a source state
   * moves to the destination, any other state stays, and the call succeeds.
   */
  lemma EventEffect(h: FSM, t: Table, event: string)
    requires Serves(h, t) && event in h.events && SameName(h.field, CaseColumn)
    requires PlainEvent(h.events[event]) && |h.events[event].src| > 0
    ensures Event(h, t, event)
         == Effect(t.(rows := t.rows[h.id := Machine.Next(Get(t.rows, h.id), h.init, h.events[event])]),
                   None, [EventQuery(h, event)])
  {
    SameEvent(h, t, event);
    Fsm.EventEffect(AsFsm(h), t, event);
  }

  /** A rule with no source sends a `CASE` without a `WHEN`: a syntax error, and nothing changes. */
  lemma EventWithoutSources(h: FSM, t: Table, event: string)
    requires PlainSettings(h.table, h.field, h.id, h.init)
    requires event in h.events && |h.events[event].src| == 0
    ensures Event(h, t, event) == Effect(t, Some(Store(SyntaxError)), [EventQuery(h, event)])
  {
    SameEvent(h, t, event);
    SameEventText(h, event);
    Fsm.EventWithoutSources(AsFsm(h), t, event);
  }

  lemma CurrentEffect(h: FSM, t: Table)
    requires Serves(h, t)
    ensures h.id in t.rows ==> Current(h, t) == (t.rows[h.id], None)
    ensures h.id !in t.rows ==> Current(h, t) == ("", Some(Store(NoRows)))
  {
    SameCurrent(h, t);
    Fsm.CurrentEffect(AsFsm(h), t);
  }

  /** The configuration of the package's own statement tests. */
  const TaskFsm := FSM("task", "1", "state", false, "Initializing", map["Ready" := Fsm.TaskReady])

  lemma TaskEventQuery()
    ensures EventQuery(TaskFsm, "Ready")
         == "INSERT INTO task (id, state) VALUES ('1', 'Initializing') "
          + "ON DUPLICATE KEY UPDATE state = CASE "
          + "WHEN state = 'Initializing' THEN 'Running' "
          + "WHEN state = 'Error' THEN 'Running' "
          + "ELSE state "
          + "END"
  {
    assert AsFsm(TaskFsm) == Fsm.TaskFsm;
    SameEventText(TaskFsm, "Ready");
    Fsm.TaskEventQuery();
  }

  lemma TaskCurrentQuery()
    ensures CurrentQuery(TaskFsm) == "SELECT state FROM task WHERE id = '1'"
  {
    assert AsFsm(TaskFsm) == Fsm.TaskFsm;
    SameCurrentText(TaskFsm);
    Fsm.TaskCurrentQuery();
  }
}
