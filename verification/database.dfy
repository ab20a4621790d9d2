/**
 * The store the engine talks to: one MySQL table keyed by `id` with a single
 * state column, executing one statement text at a time as one indivisible
 * step. Only the statement fragment of `Sql` is understood; any other text
 * is a syntax error.
 */
module Database {
  import opened Wrappers
  import opened Sql

  datatype DbError =
    | SyntaxError
    | UnknownTable(table: string)
    | UnknownColumn(column: string)
    | DuplicateColumn(column: string)
    | DuplicateEntry(id: string)
    | NoRows

  /** The primary key column every insert names first. */
  const KeyColumn := "id"

  /** Table `name` with primary key `id` and state column `column`: id -> state. */
  datatype Table = Table(name: string, column: string, rows: map<string, string>)

  /**
   * `CASE WHEN c = v1 THEN r1 WHEN c = v2 THEN r2 ... ELSE fallback END` on a
   * row whose compared column holds `current`: the first matching clause wins.
   */
  function Case(cases: seq<When>, current: string, fallback: string): (r: string)
    ensures (forall i :: 0 <= i < |cases| ==> cases[i].value != current) ==> r == fallback
    ensures forall i :: 0 <= i < |cases| && cases[i].value == current
                        && (forall j :: 0 <= j < i ==> cases[j].value != current)
                        ==> r == cases[i].result
  {
    if |cases| == 0 then fallback
    else if cases[0].value == current then cases[0].result
    else
      var r := Case(cases[1..], current, fallback);
      assert forall i :: 1 <= i < |cases| ==> cases[i] == cases[1..][i - 1];
      r
  }

  /** Every column a write names, in the order the text names them. */
  function Columns(w: Write): seq<string>
  {
    match w
    case Insert(r) => [r.column]
    case Upsert(r, target, cases, fallback) =>
      [r.column, target] + seq(|cases|, i requires 0 <= i < |cases| => cases[i].column) + [fallback]
  }

  /**
   * The first of `names` that is not the table's state column, if any;
   * MySQL matches column names regardless of letter case.
   */
  function FirstUnknown(names: seq<string>, column: string): (r: Option<string>)
    ensures r.None? <==> forall i :: 0 <= i < |names| ==> SameName(names[i], column)
    ensures r.Some? ==> r.value in names && !SameName(r.value, column)
  {
    if |names| == 0 then None
    else if !SameName(names[0], column) then Some(names[0])
    else
      var r := FirstUnknown(names[1..], column);
      assert forall i :: 1 <= i < |names| ==> names[i] == names[1..][i - 1];
      r
  }

  /**
   * The effect of one write. An insert naming the key column twice, as
   * `(id, id)`, is refused; a plain insert of an existing key fails; an
   * upsert of an existing key evaluates its `CASE` against the stored state
   * instead of inserting. Failures leave the table as it was.
   */
  function Apply(t: Table, w: Write): (r: Result<Table, DbError>)
    ensures w.row.table == t.name && SameName(w.row.column, KeyColumn) ==> r == Failure(DuplicateColumn(w.row.column))
    ensures r.Success? ==> !SameName(w.row.column, KeyColumn)
    ensures r.Success? ==> r.value.name == t.name && r.value.column == t.column
    ensures r.Success? ==> r.value.rows.Keys == t.rows.Keys + {w.row.id}
    ensures r.Success? ==> forall id :: id in t.rows && id != w.row.id ==> r.value.rows[id] == t.rows[id]
    ensures r.Success? && w.row.id !in t.rows ==> r.value.rows[w.row.id] == w.row.value
    ensures w.Insert? && w.row.id in t.rows ==> r.Failure?
  {
    if w.row.table != t.name then
      Failure(UnknownTable(w.row.table))
    else if SameName(w.row.column, KeyColumn) then
      Failure(DuplicateColumn(w.row.column))
    else
      match FirstUnknown(Columns(w), t.column)
      case Some(c) => Failure(UnknownColumn(c))
      case None =>
        var id := w.row.id;
        if id !in t.rows then
          Success(t.(rows := t.rows[id := w.row.value]))
        else if w.Insert? then
          Failure(DuplicateEntry(id))
        else
          var current := t.rows[id];
          Success(t.(rows := t.rows[id := Case(w.cases, current, current)]))
  }

  /** `DB.Exec`: the statement text is parsed, then applied atomically. */
  function Exec(t: Table, text: string): Result<Table, DbError>
  {
    match ParseWrite(text)
    case None => Failure(SyntaxError)
    case Some(w) => Apply(t, w)
  }

  /**
   * `DB.QueryRow(...).Scan`: the single value the select names, from the
   * state column or from the key column `id` itself.
   */
  function Query(t: Table, text: string): (r: Result<string, DbError>)
    ensures r.Success? ==> r.value in t.rows.Values || r.value in t.rows.Keys
  {
    match ParseSelect(text)
    case None => Failure(SyntaxError)
    case Some(s) =>
      if s.table != t.name then Failure(UnknownTable(s.table))
      else if !SameName(s.column, KeyColumn) && !SameName(s.column, t.column) then Failure(UnknownColumn(s.column))
      else if s.id !in t.rows then Failure(NoRows)
      else if SameName(s.column, KeyColumn) then Success(s.id)
      else Success(t.rows[s.id])
  }
}
