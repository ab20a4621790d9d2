/**
 * The three SQL statement shapes the engine sends to MySQL, their textual
 * rendering (the `fmt.Sprintf` formats of `eventQuery`, `currentQuery` and
 * `initQuery`), and a parser for exactly that fragment. Rendering does no
 * quoting or escaping, so the parser accepts a statement only when its names
 * are unquoted MySQL identifiers and its values are literals that stand for
 * themselves between single quotes: the "plain" statements (`PlainWrite`,
 * `PlainSelect`).
 */
module Sql {
  import opened Wrappers
  import opened Text

  /** `INSERT INTO table (id, column) VALUES ('id', 'value')` */
  datatype Row = Row(table: string, column: string, id: string, value: string)

  /** `WHEN column = 'value' THEN 'result'` */
  datatype When = When(column: string, value: string, result: string)

  /**
   * A write: a plain insert, or an insert that on a duplicate key instead sets
   * `target = CASE <cases> ELSE fallback END`.
   */
  datatype Write =
    | Insert(row: Row)
    | Upsert(row: Row, target: string, cases: seq<When>, fallback: string)

  /** `SELECT column FROM table WHERE id = 'id'` */
  datatype Select = Select(column: string, table: string, id: string)

  // ---------------------------------------------------------------- formats

  /** `"INSERT INTO %s (id, %s) VALUES ('%s', '%s')"` split at its holes. */
  const RowFormat: seq<string> := ["INSERT INTO ", " (id, ", ") VALUES ('", "', '", "')"]

  /** `"ON DUPLICATE KEY UPDATE %s = CASE %s ELSE %s END"` split at its holes. */
  const UpdateFormat: seq<string> := ["ON DUPLICATE KEY UPDATE ", " = CASE ", " ELSE ", " END"]

  /** `"WHEN state = '%s' THEN '%s'"`, with the compared column left as a hole too. */
  const WhenFormat: seq<string> := ["WHEN ", " = '", "' THEN '", "'"]

  /** `"SELECT %s FROM %s WHERE id = '%s'"` split at its holes. */
  const SelectFormat: seq<string> := ["SELECT ", " FROM ", " WHERE id = '", "'"]

  // ---------------------------------------------------------------- rendering

  function RowArgs(r: Row): seq<string>
  {
    [r.table, r.column, r.id, r.value]
  }

  function RenderRow(r: Row): string
  {
    Fill(RowFormat, RowArgs(r))
  }

  function RenderWhen(w: When): string
  {
    Fill(WhenFormat, [w.column, w.value, w.result])
  }

  function RenderWhens(ws: seq<When>): (r: seq<string>)
    ensures |r| == |ws|
  {
    seq(|ws|, i requires 0 <= i < |ws| => RenderWhen(ws[i]))
  }

  /** The `CASE` body: the clauses joined by single spaces. */
  function RenderCases(ws: seq<When>): string
  {
    Join(RenderWhens(ws), " ")
  }

  /** An upsert is the insert text, one space, then the update clause. */
  function RenderWrite(w: Write): string
  {
    match w
    case Insert(r) => RenderRow(r)
    case Upsert(r, target, cases, fallback) =>
      RenderRow(r) + " " + Fill(UpdateFormat, [target, RenderCases(cases), fallback])
  }

  function RenderSelect(s: Select): string
  {
    Fill(SelectFormat, [s.column, s.table, s.id])
  }

  // ---------------------------------------------------------------- lexical

  /** A character of an unquoted MySQL identifier: ASCII letters and digits, `$`, `_`, U+0080 to U+FFFF. */
  predicate IdentChar(c: char)
  {
    || 'a' <= c <= 'z' || 'A' <= c <= 'Z' || '0' <= c <= '9' || c == '_' || c == '$'
    || '\U{0080}' <= c <= '\U{FFFF}'
  }

  /** A name MySQL reads without quotes: one or more identifier characters. */
  predicate Ident(s: string)
  {
    |s| > 0 && forall i :: 0 <= i < |s| ==> IdentChar(s[i])
  }

  /**
   * Text that stands for itself between single quotes: no quote ends it
   * early, and no backslash starts an escape.
   */
  predicate Literal(s: string)
  {
    '\'' !in s && '\\' !in s
  }

  /** An identifier runs up to the space or `)` that follows it. */
  lemma IdentStops(s: string)
    requires Ident(s)
    ensures ' ' !in s && ')' !in s
  {
  }

  function LowerChar(c: char): char
  {
    if 'A' <= c <= 'Z' then (c as int - 'A' as int + 'a' as int) as char else c
  }

  /** ASCII upper-case letters folded to lower case, every other character kept. */
  function Lower(s: string): (r: string)
    ensures |r| == |s| && forall i :: 0 <= i < |s| ==> r[i] == LowerChar(s[i])
  {
    seq(|s|, i requires 0 <= i < |s| => LowerChar(s[i]))
  }

  /** Column names as MySQL matches them: equal up to ASCII case. */
  predicate SameName(a: string, b: string)
  {
    Lower(a) == Lower(b)
  }

  // ------------------------------------------------------------- plainness

  /** Table and column are identifiers, id and value are literals. */
  predicate PlainRow(r: Row)
  {
    Ident(r.table) && Ident(r.column) && Literal(r.id) && Literal(r.value)
  }

  predicate PlainWhen(w: When)
  {
    Ident(w.column) && Literal(w.value) && Literal(w.result)
  }

  predicate PlainWhens(ws: seq<When>)
  {
    forall i :: 0 <= i < |ws| ==> PlainWhen(ws[i])
  }

  /** MySQL has no `CASE` without a `WHEN`: at least one clause. */
  predicate PlainUpdate(target: string, cases: seq<When>, fallback: string)
  {
    Ident(target) && |cases| > 0 && PlainWhens(cases) && Ident(fallback)
  }

  predicate PlainWrite(w: Write)
  {
    && PlainRow(w.row)
    && (w.Upsert? ==> PlainUpdate(w.target, w.cases, w.fallback))
  }

  predicate PlainSelect(s: Select)
  {
    Ident(s.column) && Ident(s.table) && Literal(s.id)
  }

  lemma FormatsDelimited()
    ensures Delimited(RowFormat) && Delimited(WhenFormat) && Delimited(SelectFormat)
    ensures Delimited(UpdateFormat[..2]) && Delimited(UpdateFormat[2..])
  {
  }

  /** The delimiters of a plain row end each of its holes. */
  lemma PlainRowFits(r: Row)
    requires PlainRow(r)
    ensures Fits(RowFormat, RowArgs(r))
  {
    var args := RowArgs(r);
    var stops := [' ', ')', '\'', '\''];
    assert forall i :: 0 <= i < 4 ==> |RowFormat[i + 1]| > 0 && RowFormat[i + 1][0] == stops[i];
    IdentStops(r.table);
    IdentStops(r.column);
    forall i | 0 <= i < 4 ensures stops[i] !in args[i] {
      if i == 0 {} else if i == 1 {} else if i == 2 {} else {}
    }
  }

  lemma PlainWhenFits(w: When)
    requires PlainWhen(w)
    ensures Fits(WhenFormat, [w.column, w.value, w.result])
  {
    var args := [w.column, w.value, w.result];
    var stops := [' ', '\'', '\''];
    assert forall i :: 0 <= i < 3 ==> |WhenFormat[i + 1]| > 0 && WhenFormat[i + 1][0] == stops[i];
    IdentStops(w.column);
    forall i | 0 <= i < 3 ensures stops[i] !in args[i] {
      if i == 0 {} else if i == 1 {} else {}
    }
  }

  lemma PlainSelectFits(s: Select)
    requires PlainSelect(s)
    ensures Fits(SelectFormat, [s.column, s.table, s.id])
  {
    var args := [s.column, s.table, s.id];
    var stops := [' ', ' ', '\''];
    assert forall i :: 0 <= i < 3 ==> |SelectFormat[i + 1]| > 0 && SelectFormat[i + 1][0] == stops[i];
    IdentStops(s.column);
    IdentStops(s.table);
    forall i | 0 <= i < 3 ensures stops[i] !in args[i] {
      if i == 0 {} else if i == 1 {} else {}
    }
  }

  // ---------------------------------------------------------------- parsing

  function ParseRow(s: string): (r: Option<(Row, string)>)
    ensures r.Some? ==> PlainRow(r.value.0) && s == RenderRow(r.value.0) + r.value.1
  {
    FormatsDelimited();
    match Unfill(RowFormat, s)
    case None => None
    case Some(p) =>
      RowOfArgs(p.0, s, p.1);
      var row := Row(p.0[0], p.0[1], p.0[2], p.0[3]);
      if PlainRow(row) then Some((row, p.1)) else None
  }

  lemma Listed3(args: seq<string>)
    requires |args| == 3
    ensures [args[0], args[1], args[2]] == args
  {
  }

  lemma Listed4(args: seq<string>)
    requires |args| == 4
    ensures [args[0], args[1], args[2], args[3]] == args
  {
  }

  /** The four holes `Unfill` reads from an insert are the fields of a row. */
  lemma RowOfArgs(args: seq<string>, s: string, rest: string)
    requires Fits(RowFormat, args) && s == Fill(RowFormat, args) + rest
    ensures |args| == 4
    ensures s == RenderRow(Row(args[0], args[1], args[2], args[3])) + rest
  {
    Listed4(args);
  }

  function ParseWhen(s: string): (r: Option<(When, string)>)
    ensures r.Some? ==> PlainWhen(r.value.0) && s == RenderWhen(r.value.0) + r.value.1
  {
    FormatsDelimited();
    match Unfill(WhenFormat, s)
    case None => None
    case Some(p) =>
      var w := When(p.0[0], p.0[1], p.0[2]);
      Listed3(p.0);
      if PlainWhen(w) then Some((w, p.1)) else None
  }

  /** One or more space-separated `WHEN` clauses, stopping before ` ELSE `. */
  function ParseWhens(s: string): (r: Option<(seq<When>, string)>)
    ensures r.Some? ==> |r.value.0| > 0 && PlainWhens(r.value.0)
    ensures r.Some? ==> StartsWith(r.value.1, " ELSE ")
    ensures r.Some? ==> s == RenderCases(r.value.0) + r.value.1
    decreases |s|
  {
    match ParseWhen(s)
    case None => None
    case Some(first) =>
      if StartsWith(first.1, " ELSE ") then
        CasesOne(first.0);
        Some(([first.0], first.1))
      else
        match Lit(" ", first.1)
        case None => None
        case Some(a) =>
          FillFront(WhenFormat, [first.0.column, first.0.value, first.0.result]);
          match ParseWhens(a)
          case None => None
          case Some(more) =>
            CasesCons(first.0, more.0, more.1);
            Some(([first.0] + more.0, more.1))
  }

  /** `ON DUPLICATE KEY UPDATE target = CASE `, then the rest. */
  function ParseUpdateHead(s: string): (r: Option<(string, string)>)
    ensures r.Some? ==> Ident(r.value.0) && s == Fill(UpdateFormat[..2], [r.value.0]) + r.value.1
  {
    FormatsDelimited();
    match Unfill(UpdateFormat[..2], s)
    case None => None
    case Some(head) =>
      assert head.0 == [head.0[0]];
      if Ident(head.0[0]) then Some((head.0[0], head.1)) else None
  }

  /** ` ELSE fallback END`, ending the text. */
  function ParseUpdateTail(s: string): (r: Option<string>)
    ensures r.Some? ==> Ident(r.value) && s == Fill(UpdateFormat[2..], [r.value])
  {
    FormatsDelimited();
    match Unfill(UpdateFormat[2..], s)
    case None => None
    case Some(tail) =>
      if tail.1 == "" && Ident(tail.0[0]) then
        assert tail.0 == [tail.0[0]];
        Some(tail.0[0])
      else
        None
  }

  /** The update clause of an upsert, up to the end of the text; its `CASE` has at least one `WHEN`. */
  function ParseUpdate(s: string): (r: Option<(string, seq<When>, string)>)
    ensures r.Some? ==> PlainUpdate(r.value.0, r.value.1, r.value.2)
    ensures r.Some? ==> s == Fill(UpdateFormat, [r.value.0, RenderCases(r.value.1), r.value.2])
  {
    match ParseUpdateHead(s)
    case None => None
    case Some(head) =>
      match ParseWhens(head.1)
      case None => None
      case Some(cases) =>
        match ParseUpdateTail(cases.1)
        case None => None
        case Some(fallback) =>
          UpdateJoin(s, head.0, head.1, cases.0, cases.1, fallback);
          Some((head.0, cases.0, fallback))
  }

  /** Recognises exactly the rendered writes with plain parts. */
  function ParseWrite(s: string): (r: Option<Write>)
    ensures r.Some? ==> PlainWrite(r.value) && s == RenderWrite(r.value)
  {
    match ParseRow(s)
    case None => None
    case Some(row) =>
      if row.1 == "" then
        Some(Insert(row.0))
      else
        match Lit(" ", row.1)
        case None => None
        case Some(a) =>
          match ParseUpdate(a)
          case None => None
          case Some(u) =>
            UpsertJoin(s, row.0, row.1, a, u.0, u.1, u.2);
            Some(Upsert(row.0, u.0, u.1, u.2))
  }

  /** An insert, one space, then an update clause: the text of the upsert. */
  lemma UpsertJoin(s: string, r: Row, rest: string, a: string, target: string, cases: seq<When>, fallback: string)
    requires s == RenderRow(r) + rest && rest == " " + a
    requires a == Fill(UpdateFormat, [target, RenderCases(cases), fallback])
    ensures s == RenderWrite(Upsert(r, target, cases, fallback))
  {
  }

  /** Recognises exactly the rendered selects with plain parts. */
  function ParseSelect(s: string): (r: Option<Select>)
    ensures r.Some? ==> PlainSelect(r.value) && s == RenderSelect(r.value)
  {
    FormatsDelimited();
    match Unfill(SelectFormat, s)
    case None => None
    case Some(p) =>
      var sel := Select(p.0[0], p.0[1], p.0[2]);
      Listed3(p.0);
      if p.1 == "" && PlainSelect(sel) then Some(sel) else None
  }

  // ----------------------------------------------------------- round trips

  lemma JoinCons(w: When, ws: seq<When>)
    requires |ws| > 0
    ensures RenderCases([w] + ws) == RenderWhen(w) + " " + RenderCases(ws)
  {
    assert RenderWhens([w] + ws)[1..] == RenderWhens(ws);
  }

  lemma CasesOne(w: When)
    ensures RenderCases([w]) == RenderWhen(w)
    ensures PlainWhen(w) ==> PlainWhens([w])
  {
  }

  lemma CasesCons(w: When, ws: seq<When>, rest: string)
    requires |ws| > 0
    ensures RenderCases([w] + ws) + rest == RenderWhen(w) + (" " + (RenderCases(ws) + rest))
    ensures PlainWhen(w) && PlainWhens(ws) ==> PlainWhens([w] + ws)
  {
    JoinCons(w, ws);
    var all := [w] + ws;
    assert forall i :: 1 <= i < |all| ==> all[i] == ws[i - 1];
  }

  lemma ParseRowRender(r: Row, rest: string)
    requires PlainRow(r)
    ensures ParseRow(RenderRow(r) + rest) == Some((r, rest))
  {
    FormatsDelimited();
    PlainRowFits(r);
    UnfillFill(RowFormat, RowArgs(r), rest);
  }

  lemma ParseWhenRender(w: When, rest: string)
    requires PlainWhen(w)
    ensures ParseWhen(RenderWhen(w) + rest) == Some((w, rest))
  {
    FormatsDelimited();
    PlainWhenFits(w);
    UnfillFill(WhenFormat, [w.column, w.value, w.result], rest);
  }

  /** Clause text starts with `W`, so it is never mistaken for ` ELSE `. */
  lemma CasesStartWithWhen(ws: seq<When>, rest: string)
    requires |ws| > 0
    ensures |RenderCases(ws) + rest| > 0 && (RenderCases(ws) + rest)[0] == 'W'
  {
    FillFront(WhenFormat, [ws[0].column, ws[0].value, ws[0].result]);
    if |ws| > 1 {
      JoinCons(ws[0], ws[1..]);
      assert [ws[0]] + ws[1..] == ws;
    }
  }

  lemma {:induction false} ParseWhensRender(ws: seq<When>, rest: string)
    requires |ws| > 0 && PlainWhens(ws)
    requires StartsWith(rest, " ELSE ")
    ensures ParseWhens(RenderCases(ws) + rest) == Some((ws, rest))
    decreases |ws|
  {
    if |ws| == 1 {
      assert ws == [ws[0]];
      CasesOne(ws[0]);
      ParseWhenRender(ws[0], rest);
    } else {
      assert [ws[0]] + ws[1..] == ws;
      var tail := RenderCases(ws[1..]) + rest;
      CasesSplit(ws, rest);
      ParseWhenRender(ws[0], " " + tail);
      CasesStartWithWhen(ws[1..], rest);
      ParseWhensRender(ws[1..], rest);
      ParseWhensStep(RenderCases(ws) + rest, ws[0], tail, ws[1..], rest);
    }
  }

  /** The first clause, one space, then the other clauses and what follows them. */
  lemma CasesSplit(ws: seq<When>, rest: string)
    requires |ws| > 1
    ensures RenderCases(ws) + rest == RenderWhen(ws[0]) + (" " + (RenderCases(ws[1..]) + rest))
  {
    JoinCons(ws[0], ws[1..]);
    assert [ws[0]] + ws[1..] == ws;
  }

  /** A space before a clause is not the start of `ELSE`, and reading the space leaves the clause. */
  lemma SpaceThenClause(tail: string)
    requires |tail| > 0 && tail[0] == 'W'
    ensures !StartsWith(" " + tail, " ELSE ")
    ensures Lit(" ", " " + tail) == Some(tail)
  {
    assert (" " + tail)[1] == tail[0];
    LitCat(" ", tail);
  }

  /** One clause read, then a space, then further clauses: `ParseWhens` collects them all. */
  lemma ParseWhensStep(s: string, w: When, tail: string, ws: seq<When>, rest: string)
    requires ParseWhen(s) == Some((w, " " + tail))
    requires |tail| > 0 && tail[0] == 'W'
    requires ParseWhens(tail) == Some((ws, rest))
    ensures ParseWhens(s) == Some(([w] + ws, rest))
  {
    SpaceThenClause(tail);
  }

  /** The update clause around its `CASE` body. */
  lemma UpdateSplit(target: string, cases: string, fallback: string)
    ensures Fill(UpdateFormat, [target, cases, fallback])
         == Fill(UpdateFormat[..2], [target]) + cases + Fill(UpdateFormat[2..], [fallback])
  {
    var args := [target, cases, fallback];
    FillSplit(UpdateFormat, args, 1);
    assert args[..1] == [target] && args[2..] == [fallback];
  }

  lemma UpdateJoin(s: string, target: string, afterHead: string, cases: seq<When>,
                   afterCases: string, fallback: string)
    requires s == Fill(UpdateFormat[..2], [target]) + afterHead
    requires afterHead == RenderCases(cases) + afterCases
    requires afterCases == Fill(UpdateFormat[2..], [fallback])
    ensures s == Fill(UpdateFormat, [target, RenderCases(cases), fallback])
  {
    UpdateSplit(target, RenderCases(cases), fallback);
  }

  lemma ParseUpdateHeadRender(target: string, rest: string)
    requires Ident(target)
    ensures ParseUpdateHead(Fill(UpdateFormat[..2], [target]) + rest) == Some((target, rest))
  {
    FormatsDelimited();
    IdentStops(target);
    assert UpdateFormat[..2][1][0] == ' ';
    UnfillFill(UpdateFormat[..2], [target], rest);
  }

  lemma ParseUpdateTailRender(fallback: string)
    requires Ident(fallback)
    ensures ParseUpdateTail(Fill(UpdateFormat[2..], [fallback])) == Some(fallback)
    ensures StartsWith(Fill(UpdateFormat[2..], [fallback]), " ELSE ")
  {
    FormatsDelimited();
    IdentStops(fallback);
    var tail := Fill(UpdateFormat[2..], [fallback]);
    assert UpdateFormat[2..][0] == " ELSE " && UpdateFormat[2..][1][0] == ' ';
    FillFront(UpdateFormat[2..], [fallback]);
    assert tail + "" == tail;
    UnfillFill(UpdateFormat[2..], [fallback], "");
  }

  lemma ParseUpdateRender(target: string, cases: seq<When>, fallback: string)
    requires PlainUpdate(target, cases, fallback)
    ensures ParseUpdate(Fill(UpdateFormat, [target, RenderCases(cases), fallback]))
         == Some((target, cases, fallback))
  {
    var tail := Fill(UpdateFormat[2..], [fallback]);
    UpdateSplit(target, RenderCases(cases), fallback);
    assert Fill(UpdateFormat, [target, RenderCases(cases), fallback])
        == Fill(UpdateFormat[..2], [target]) + (RenderCases(cases) + tail);
    ParseUpdateHeadRender(target, RenderCases(cases) + tail);
    ParseUpdateTailRender(fallback);
    ParseWhensRender(cases, tail);
  }

  /**
   * Rendering then parsing gives back the statement whenever its parts are
   * plain; with `ParseWrite`'s own contract, the plain writes and the texts
   * the parser accepts correspond one to one.
   */
  lemma ParseWriteRender(w: Write)
    requires PlainWrite(w)
    ensures ParseWrite(RenderWrite(w)) == Some(w)
  {
    match w
    case Insert(r) =>
      assert RenderRow(r) + "" == RenderRow(r);
      ParseRowRender(r, "");
    case Upsert(r, target, cases, fallback) =>
      var update := Fill(UpdateFormat, [target, RenderCases(cases), fallback]);
      assert RenderWrite(w) == RenderRow(r) + (" " + update);
      ParseRowRender(r, " " + update);
      LitCat(" ", update);
      ParseUpdateRender(target, cases, fallback);
  }

  /** Text that starts with a space holds no `WHEN` clause. */
  lemma NoClauseAtSpace(s: string)
    requires |s| > 0 && s[0] == ' '
    ensures ParseWhens(s) == None
  {
    assert !StartsWith(s, WhenFormat[0]) by {
      if |s| >= 5 {
        assert s[..5][0] == ' ';
      }
    }
  }

  /**
   * MySQL has no `CASE` without a `WHEN`: the upsert rendered with no cases,
   * `… = CASE  ELSE … END`, is not read as any statement.
   */
  lemma ParseWriteNoCases(r: Row, target: string, fallback: string)
    requires PlainRow(r) && Ident(target)
    ensures ParseWrite(RenderWrite(Upsert(r, target, [], fallback))) == None
  {
    var tail := Fill(UpdateFormat[2..], [fallback]);
    var update := Fill(UpdateFormat, [target, RenderCases([]), fallback]);
    UpdateSplit(target, RenderCases([]), fallback);
    assert update == Fill(UpdateFormat[..2], [target]) + tail;
    assert RenderWrite(Upsert(r, target, [], fallback)) == RenderRow(r) + (" " + update);
    ParseRowRender(r, " " + update);
    LitCat(" ", update);
    ParseUpdateHeadRender(target, tail);
    FillFront(UpdateFormat[2..], [fallback]);
    NoClauseAtSpace(tail);
  }

  lemma ParseSelectRender(s: Select)
    requires PlainSelect(s)
    ensures ParseSelect(RenderSelect(s)) == Some(s)
  {
    FormatsDelimited();
    PlainSelectFits(s);
    var args := [s.column, s.table, s.id];
    assert Fill(SelectFormat, args) + "" == Fill(SelectFormat, args);
    UnfillFill(SelectFormat, args, "");
  }

  // ------------------------------------------------------- spelled out

  /** The formats written out as the concatenations `fmt.Sprintf` produces. */
  lemma RowText(r: Row)
    ensures RenderRow(r)
         == "INSERT INTO " + r.table + " (id, " + r.column + ") VALUES ('" + r.id + "', '" + r.value + "')"
  {
    var lits, args := RowFormat, RowArgs(r);
    assert Fill(lits[4..], args[4..]) == "')";
    assert Fill(lits[3..], args[3..]) == "', '" + r.value + "')";
    assert Fill(lits[2..], args[2..]) == ") VALUES ('" + r.id + "', '" + r.value + "')";
    assert Fill(lits[1..], args[1..]) == " (id, " + r.column + ") VALUES ('" + r.id + "', '" + r.value + "')";
  }

  lemma WhenText(w: When)
    ensures RenderWhen(w) == "WHEN " + w.column + " = '" + w.value + "' THEN '" + w.result + "'"
  {
    var lits, args := WhenFormat, [w.column, w.value, w.result];
    assert Fill(lits[3..], args[3..]) == "'";
    assert Fill(lits[2..], args[2..]) == "' THEN '" + w.result + "'";
    assert Fill(lits[1..], args[1..]) == " = '" + w.value + "' THEN '" + w.result + "'";
  }

  lemma UpdateText(target: string, cases: string, fallback: string)
    ensures Fill(UpdateFormat, [target, cases, fallback])
         == "ON DUPLICATE KEY UPDATE " + target + " = CASE " + cases + " ELSE " + fallback + " END"
  {
    var lits, args := UpdateFormat, [target, cases, fallback];
    assert Fill(lits[3..], args[3..]) == " END";
    assert Fill(lits[2..], args[2..]) == " ELSE " + fallback + " END";
    assert Fill(lits[1..], args[1..]) == " = CASE " + cases + " ELSE " + fallback + " END";
  }

  lemma SelectText(s: Select)
    ensures RenderSelect(s) == "SELECT " + s.column + " FROM " + s.table + " WHERE id = '" + s.id + "'"
  {
    var lits, args := SelectFormat, [s.column, s.table, s.id];
    assert Fill(lits[3..], args[3..]) == "'";
    assert Fill(lits[2..], args[2..]) == " WHERE id = '" + s.id + "'";
    assert Fill(lits[1..], args[1..]) == " FROM " + s.table + " WHERE id = '" + s.id + "'";
  }
}
