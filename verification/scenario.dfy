/**
 * The task lifecycle the repository's example program declares: four rules
 * over the states Initializing, Running, Error, Stopped and Deleted, driven
 * for entity "1" of table `task` with state column `state`.
 */
module Scenario {
  import opened Wrappers
  import opened Database
  import opened Engine
  import opened Fsm
  import EventTable
  import Queries
  import Sql

  const NotReady := EventTable.Event("NotReady", ["Running"], "Error")
  const Ready := EventTable.Event("Ready", ["Initializing", "Error"], "Running")
  const Stop := EventTable.Event("Stop", ["Initializing", "Running", "Error"], "Stopped")
  const Delete := EventTable.Event("Delete", ["Stopped"], "Deleted")

  const TaskRules := [NotReady, Ready, Stop, Delete]

  const RuleMap := map["NotReady" := NotReady, "Ready" := Ready, "Stop" := Stop, "Delete" := Delete]

  /** The declared list has distinct names, so its index is the obvious map. */
  lemma RulesIndexed(m: map<string, EventTable.Event>)
    requires forall name :: Get(m, name) == EventTable.LastNamed(TaskRules, name)
    ensures m == RuleMap
  {
    forall name
      ensures Get(RuleMap, name) == EventTable.LastNamed(TaskRules, name)
    {
      var r3, r2, r1 := [NotReady, Ready, Stop], [NotReady, Ready], [NotReady];
      assert TaskRules[..3] == r3 && r3[..2] == r2 && r2[..1] == r1 && r1[..0] == [];
      assert EventTable.LastNamed(r1, name) == if name == "NotReady" then Some(NotReady) else None;
      assert EventTable.LastNamed(r2, name) == if name == "Ready" then Some(Ready) else EventTable.LastNamed(r1, name);
      assert EventTable.LastNamed(r3, name) == if name == "Stop" then Some(Stop) else EventTable.LastNamed(r2, name);
      assert EventTable.LastNamed(TaskRules, name) == if name == "Delete" then Some(Delete) else EventTable.LastNamed(r3, name);
    }
    EventTable.IndexUnique(TaskRules, m, RuleMap);
  }

  const Task := FSM(Config(DBConfig("task", "state", false), "Initializing", RuleMap), "1")

  /** The empty `task` table. */
  const Empty := Table("task", "state", map[])

  /** No state label of the lifecycle contains a quote or a backslash. */
  lemma Labels()
    ensures Sql.Literal("Initializing") && Sql.Literal("Running") && Sql.Literal("Error")
    ensures Sql.Literal("Stopped") && Sql.Literal("Deleted")
  {
    assert forall i :: 0 <= i < 12 ==> "Initializing"[i] != '\'' && "Initializing"[i] != '\\';
    assert forall i :: 0 <= i < 7 ==> "Running"[i] != '\'' && "Running"[i] != '\\';
    assert forall i :: 0 <= i < 5 ==> "Error"[i] != '\'' && "Error"[i] != '\\';
    assert forall i :: 0 <= i < 7 ==> "Stopped"[i] != '\'' && "Stopped"[i] != '\\';
    assert forall i :: 0 <= i < 7 ==> "Deleted"[i] != '\'' && "Deleted"[i] != '\\';
  }

  /** Every rule's labels are plain, and every rule has a source. */
  lemma LabelsPlain()
    ensures forall name :: name in RuleMap ==> Queries.PlainEvent(RuleMap[name])
    ensures forall name :: name in RuleMap ==> |RuleMap[name].src| > 0
  {
    Labels();
    assert Queries.PlainEvent(NotReady) && Queries.PlainEvent(Ready);
    assert Queries.PlainEvent(Stop) && Queries.PlainEvent(Delete);
  }

  /** `task` and `state` are unquoted identifiers, `1` and `Initializing` plain literals. */
  lemma TaskServes(t: Table)
    requires t.name == "task" && t.column == "state"
    ensures Serves(Task, t)
    ensures forall name :: name in RuleMap ==> Queries.PlainEvent(RuleMap[name]) && |RuleMap[name].src| > 0
  {
    LabelsPlain();
    assert Sql.Ident("task") by {
      assert forall i :: 0 <= i < 4 ==> Sql.IdentChar("task"[i]);
    }
    assert Sql.Ident("state") by {
      assert forall i :: 0 <= i < 5 ==> Sql.IdentChar("state"[i]);
    }
    assert Queries.PlainSettings("task", "state", "1", "Initializing");
  }

  /** One event on the task entity followed by a read of its state, both succeeding. */
  lemma Step(t: Table, event: string, before: string, after: string)
    requires t.name == "task" && t.column == "state"
    requires event in RuleMap && "1" in t.rows && t.rows["1"] == before
    requires after == (if before in RuleMap[event].src then RuleMap[event].dst else before)
    ensures Event(Task, t, event).err.None?
    ensures Event(Task, t, event).table == t.(rows := t.rows["1" := after])
    ensures Current(Task, Event(Task, t, event).table) == (after, None)
  {
    TaskServes(t);
    EventEffect(Task, t, event);
    TaskServes(Event(Task, t, event).table);
    CurrentEffect(Task, Event(Task, t, event).table);
  }

  /**
   * One serial order of the example's three workers: Ready and NotReady from
   * the second, Ready from the first, Stop and Delete from the third.
   */
  const Order := ["Ready", "NotReady", "Ready", "Stop", "Delete"]

  /** The stored state before the first event of `Order` and after each one. */
  const Trace := ["Initializing", "Running", "Error", "Running", "Stopped", "Deleted"]

  /** Each event of `Order` is declared and moves `Trace[i]` to `Trace[i + 1]`. */
  lemma TraceFollowsRules(i: nat)
    requires i < |Order|
    ensures Order[i] in RuleMap
    ensures Trace[i + 1] == if Trace[i] in RuleMap[Order[i]].src then RuleMap[Order[i]].dst else Trace[i]
  {
    if i == 0 {
      assert Trace[0] == Ready.src[0];
    } else if i == 1 {
      assert Trace[1] == NotReady.src[0];
    } else if i == 2 {
      assert Trace[2] == Ready.src[1];
    } else if i == 3 {
      assert Trace[3] == Stop.src[1];
    } else {
      assert Trace[4] == Delete.src[0];
    }
  }

  lemma InitializedTask()
    ensures Initialize(Task, Empty) == Effect(Table("task", "state", map["1" := "Initializing"]), None, [InitQuery(Task)])
  {
    TaskServes(Empty);
    InitializeEffect(Task, Empty);
  }

  /** Fires `event` on the task entity and reads its state back. */
  method Fire(f: FSM, t: Table, event: string, ghost before: string, ghost after: string)
    returns (t': Table, state: string)
    requires f == Task
    requires t.name == "task" && t.column == "state"
    requires event in RuleMap && "1" in t.rows && t.rows["1"] == before
    requires after == (if before in RuleMap[event].src then RuleMap[event].dst else before)
    ensures t'.name == "task" && t'.column == "state"
    ensures "1" in t'.rows && t'.rows["1"] == after && state == after
  {
    Step(t, event, before, after);
    var e := Event(f, t, event);
    t' := e.table;
    var read := Current(f, t');
    state := read.0;
  }

  /** The example's setup: the configuration built from the rules, then `Initialize` on an empty table. */
  method Setup() returns (f: FSM, t: Table)
    ensures f == Task
    ensures t == Table("task", "state", map["1" := "Initializing"])
  {
    var config := NewConfig("task", "state", "Initializing", TaskRules);
    RulesIndexed(config.events);
    f := NewFSM(config, "1");
    InitializedTask();
    t := Initialize(f, Empty).table;
  }

  /** `Initialize`, then `Order`: the states `Current` reads back after each event. */
  method Lifecycle() returns (observed: seq<string>)
    ensures observed == ["Running", "Error", "Running", "Stopped", "Deleted"]
  {
    var f, t := Setup();
    observed := [];
    var i := 0;
    while i < |Order|
      invariant 0 <= i <= |Order|
      invariant t.name == "task" && t.column == "state"
      invariant "1" in t.rows && t.rows["1"] == Trace[i]
      invariant observed == Trace[1..i + 1]
    {
      TraceFollowsRules(i);
      var state;
      t, state := Fire(f, t, Order[i], Trace[i], Trace[i + 1]);
      observed := observed + [state];
      i := i + 1;
    }
    assert Trace[1..] == ["Running", "Error", "Running", "Stopped", "Deleted"];
  }

  /** A name the rules do not declare is refused and nothing reaches the store. */
  lemma LaunchUndefined(t: Table)
    ensures Event(Task, t, "Launch") == Effect(t, Some(UndefinedEvent("Launch")), [])
    ensures Event(Task, t, "Launch").err.value.Message() == "undefined event: Launch"
  {
    assert "Launch" !in RuleMap;
  }

  /**
   * Without `Initialize`, `Ready` does not start the entity: on a table
   * without its row (the empty table, say) the row is created at
   * Initializing rather than Running, and only a second `Ready` reaches
   * Running.
   */
  lemma ReadyBeforeInitialize(t: Table)
    requires t.name == "task" && t.column == "state" && "1" !in t.rows
    ensures Current(Task, Event(Task, t, "Ready").table) == ("Initializing", None)
    ensures Current(Task, Event(Task, Event(Task, t, "Ready").table, "Ready").table) == ("Running", None)
  {
    TaskServes(t);
    FirstContact(Task, t, "Ready");
    EventEffect(Task, t, "Ready");
    Step(Event(Task, t, "Ready").table, "Ready", "Initializing", "Running");
  }

  /** Deleted is final: no rule has it as a source, so every event leaves it alone. */
  lemma DeletedIsFinal(t: Table, event: string)
    requires t.name == "task" && t.column == "state"
    requires event in RuleMap && "1" in t.rows && t.rows["1"] == "Deleted"
    ensures Event(Task, t, event) == Effect(t, None, [EventQuery(Task, event)])
  {
    TaskServes(t);
    NoOpEvent(Task, t, event);
  }
}
