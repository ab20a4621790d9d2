/**
 * The statement builders shared by both packages: `eventQuery`,
 * `currentQuery` and `initQuery`, given the configured table, state field,
 * entity id and initial state.
 */
module Queries {
  import opened Wrappers
  import opened Sql
  import opened EventTable
  import opened Database
  import Machine

  /** The column every `WHEN` compares, whatever the configured field is. */
  const CaseColumn := "state"

  /** One `WHEN state = '<src>' THEN '<dst>'` per source, in declared order. */
  function Cases(src: seq<string>, dst: string): (r: seq<When>)
    ensures |r| == |src|
    ensures forall i :: 0 <= i < |src| ==> r[i] == When(CaseColumn, src[i], dst)
  {
    if |src| == 0 then [] else [When(CaseColumn, src[0], dst)] + Cases(src[1..], dst)
  }

  /**
   * `eventQuery`: insert the entity at `init`, or, when its id exists, set
   * `field` by the rule's cases with `ELSE field` keeping the state.
   */
  function EventStatement(table: string, field: string, id: string, init: string, ev: Event): Write
  {
    Upsert(Row(table, field, id, init), field, Cases(ev.src, ev.dst), field)
  }

  /** `initQuery`: the same insert with no duplicate-key clause. */
  function InitStatement(table: string, field: string, id: string, init: string): Write
  {
    Insert(Row(table, field, id, init))
  }

  /** `currentQuery` */
  function CurrentStatement(table: string, field: string, id: string): Select
  {
    Select(field, table, id)
  }

  /**
   * The `CASE` built from a rule means: a source state moves to `dst`, any
   * other state falls through to `ELSE` and stays.
   */
  lemma {:induction false} CasesMeaning(src: seq<string>, dst: string, current: string)
    ensures Case(Cases(src, dst), current, current)
         == if current in src then dst else current
    decreases |src|
  {
    if |src| > 0 {
      CasesMeaning(src[1..], dst, current);
      assert Cases(src, dst)[1..] == Cases(src[1..], dst);
      assert current in src <==> current == src[0] || current in src[1..];
    }
  }

  // -------------------------------------------------------------- plainness

  /**
   * Settings the unescaped rendering carries as written (see `Sql.PlainWrite`):
   * table and field are unquoted identifiers, id and init plain literals.
   */
  predicate PlainSettings(table: string, field: string, id: string, init: string)
  {
    Ident(table) && Ident(field) && Literal(id) && Literal(init)
  }

  /** A rule whose state labels are plain literals. */
  predicate PlainEvent(ev: Event)
  {
    Literal(ev.dst) && forall i :: 0 <= i < |ev.src| ==> Literal(ev.src[i])
  }

  /**
   * Plain settings and labels make plain statements; the event statement
   * needs a source besides, since a `CASE` needs a `WHEN`.
   */
  lemma StatementsPlain(table: string, field: string, id: string, init: string, ev: Event)
    requires PlainSettings(table, field, id, init) && PlainEvent(ev)
    ensures |ev.src| > 0 ==> PlainWrite(EventStatement(table, field, id, init, ev))
    ensures PlainWrite(InitStatement(table, field, id, init))
    ensures PlainSelect(CurrentStatement(table, field, id))
  {
    var cases := Cases(ev.src, ev.dst);
    assert Ident(CaseColumn) by {
      assert forall i :: 0 <= i < 5 ==> IdentChar(CaseColumn[i]);
    }
    assert forall i :: 0 <= i < |cases| ==> PlainWhen(cases[i]);
  }

  // ------------------------------------------------------------- effects

  /** The columns the event statement names: `field` twice, `state` per source, `field`. */
  lemma EventColumns(table: string, field: string, id: string, init: string, ev: Event)
    ensures SameName(field, CaseColumn) ==>
              FirstUnknown(Columns(EventStatement(table, field, id, init, ev)), field) == None
    ensures !SameName(field, CaseColumn) && |ev.src| > 0 ==>
              FirstUnknown(Columns(EventStatement(table, field, id, init, ev)), field) == Some(CaseColumn)
  {
    var cols := Columns(EventStatement(table, field, id, init, ev));
    var cases := Cases(ev.src, ev.dst);
    assert cols == [field, field] + seq(|cases|, i requires 0 <= i < |cases| => cases[i].column) + [field];
    assert forall i :: 2 <= i < |cols| - 1 ==> cols[i] == CaseColumn;
    if !SameName(field, CaseColumn) && |ev.src| > 0 {
      assert cols[..2] == [field, field] && cols[2] == CaseColumn;
      assert FirstUnknown(cols[2..], field) == Some(CaseColumn);
      assert cols[1..][1..] == cols[2..];
    }
  }

  /**
   * On a table whose state column is `state`, in any letter case, the event
   * statement is the reference transition `Machine.Next` applied to the
   * entity's row, and nothing else changes.
   */
  lemma EventStatementEffect(t: Table, table: string, field: string, id: string, init: string, ev: Event)
    requires t.name == table && t.column == field && SameName(field, CaseColumn)
    ensures Apply(t, EventStatement(table, field, id, init, ev))
         == Success(t.(rows := t.rows[id := Machine.Next(Get(t.rows, id), init, ev)]))
  {
    EventColumns(table, field, id, init, ev);
    if id in t.rows {
      CasesMeaning(ev.src, ev.dst, t.rows[id]);
    }
  }

  /**
   * On a table whose only column besides `id` is the state field, when that
   * field is neither `state` nor `id`, even up to letter case, and the rule
   * has a source, the `WHEN` clauses name a column the table does not have,
   * and the statement fails. (A field named `id` is `KeyFieldRejected`.)
   */
  lemma EventStatementUnknownColumn(t: Table, table: string, field: string, id: string, init: string, ev: Event)
    requires t.name == table && t.column == field && !SameName(field, CaseColumn) && |ev.src| > 0
    requires !SameName(field, KeyColumn)
    ensures Apply(t, EventStatement(table, field, id, init, ev)) == Failure(UnknownColumn(CaseColumn))
  {
    EventColumns(table, field, id, init, ev);
  }

  /** For a field other than `id`, the plain insert creates the row at `init`, and fails on an existing id. */
  lemma InitStatementEffect(t: Table, table: string, field: string, id: string, init: string)
    requires t.name == table && t.column == field && !SameName(field, KeyColumn)
    ensures id in t.rows ==> Apply(t, InitStatement(table, field, id, init)) == Failure(DuplicateEntry(id))
    ensures id !in t.rows ==>
              Apply(t, InitStatement(table, field, id, init)) == Success(t.(rows := t.rows[id := init]))
  {
    assert FirstUnknown(Columns(InitStatement(table, field, id, init)), field) == None;
  }

  /**
   * A state field named `id`, in any letter case, makes both inserts name
   * the key column twice, `(id, id)`, which MySQL refuses whatever the
   * table holds.
   */
  lemma KeyFieldRejected(t: Table, table: string, field: string, id: string, init: string, ev: Event)
    requires t.name == table && SameName(field, KeyColumn)
    ensures Apply(t, InitStatement(table, field, id, init)) == Failure(DuplicateColumn(field))
    ensures Apply(t, EventStatement(table, field, id, init, ev)) == Failure(DuplicateColumn(field))
  {
  }
}
