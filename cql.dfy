/** The filtered `SELECT` statements the client sends to the store: the
    text with its `%s` placeholders, the parameters that fill them, and
    what the store does with such a statement when it runs it against a
    table. */
module Cql {
  import opened Common
  import opened TimeOfDay

  /** One filter condition of a WHERE clause. `Between` is the single
      condition "col >= %s AND col <= %s" with two parameters. */
  datatype Clause =
    | Equals(column: string, value: string)
    | AtLeast(column: string, value: string)
    | AtMost(column: string, value: string)
    | Between(column: string, low: string, high: string)

  /** A parameter placeholder of the driver's `%` substitution. */
  const Mark := "%s"

  function ClauseText(c: Clause): string {
    match c
    case Equals(col, _) => col + " = " + Mark
    case AtLeast(col, _) => col + " >= " + Mark
    case AtMost(col, _) => col + " <= " + Mark
    case Between(col, _, _) => col + " >= " + Mark + " AND " + col + " <= " + Mark
  }

  function ClauseParams(c: Clause): seq<string> {
    match c
    case Equals(_, v) => [v]
    case AtLeast(_, v) => [v]
    case AtMost(_, v) => [v]
    case Between(_, lo, hi) => [lo, hi]
  }

  /** The condition texts of a clause list, in order. */
  function Texts(cs: seq<Clause>): (ts: seq<string>)
    ensures |ts| == |cs|
  {
    if cs == [] then [] else Texts(cs[..|cs| - 1]) + [ClauseText(cs[|cs| - 1])]
  }

  /** The parameters of a clause list, in order. */
  function Params(cs: seq<Clause>): seq<string> {
    if cs == [] then [] else Params(cs[..|cs| - 1]) + ClauseParams(cs[|cs| - 1])
  }

  /** Texts and parameters of two clause lists are those of the first
      followed by those of the second. */
  lemma {:induction false} TextsConcat(a: seq<Clause>, b: seq<Clause>)
    ensures Texts(a + b) == Texts(a) + Texts(b)
    ensures Params(a + b) == Params(a) + Params(b)
    decreases |b|
  {
    if b == [] {
      assert a + b == a;
    } else {
      var init := b[..|b| - 1];
      assert (a + b)[..|a + b| - 1] == a + init;
      assert (a + b)[|a + b| - 1] == b[|b| - 1];
      TextsConcat(a, init);
    }
  }

  /** `sep.join(parts)`. */
  function Join(parts: seq<string>, sep: string): string {
    if parts == [] then ""
    else if |parts| == 1 then parts[0]
    else parts[0] + sep + Join(parts[1..], sep)
  }

  /** The statement text: `SELECT * FROM table`, then ` WHERE ` and the
      conditions joined by ` AND ` when there are any, then
      ` ALLOW FILTERING`. */
  function Render(table: string, cs: seq<Clause>): string {
    "SELECT * FROM " + table + (if cs == [] then "" else " WHERE " + Join(Texts(cs), " AND ")) + " ALLOW FILTERING"
  }

  /** The number of `%s` placeholders in a text. */
  function Placeholders(s: string): nat {
    if |s| < 2 then 0 else (if s[0] == '%' && s[1] == 's' then 1 else 0) + Placeholders(s[1..])
  }

  /** A name that cannot hold or start a placeholder. */
  predicate Plain(name: string) {
    forall i :: 0 <= i < |name| ==> name[i] != '%'
  }

  lemma {:induction false} PlainHasNone(s: string)
    requires Plain(s)
    ensures Placeholders(s) == 0
  {
    if |s| >= 2 {
      PlainHasNone(s[1..]);
    }
  }

  /** Placeholders add up over a concatenation unless one is split across
      the seam. */
  lemma {:induction false} PlaceholdersConcat(a: string, b: string)
    requires a == [] || b == [] || a[|a| - 1] != '%' || b[0] != 's'
    ensures Placeholders(a + b) == Placeholders(a) + Placeholders(b)
  {
    if a == [] {
      assert a + b == b;
    } else if b == [] {
      assert a + b == a;
    } else if |a| == 1 {
      assert (a + b)[1..] == b;
    } else {
      PlaceholdersConcat(a[1..], b);
      assert (a + b)[1..] == a[1..] + b;
    }
  }

  function SumPlaceholders(parts: seq<string>): nat {
    if parts == [] then 0 else Placeholders(parts[0]) + SumPlaceholders(parts[1..])
  }

  lemma {:induction false} JoinPlaceholders(parts: seq<string>)
    ensures Placeholders(Join(parts, " AND ")) == SumPlaceholders(parts)
  {
    if |parts| > 1 {
      ConstantTexts();
      JoinPlaceholders(parts[1..]);
      PlainHasNone(" AND ");
      PlaceholdersConcat(parts[0], " AND ");
      PlaceholdersConcat(parts[0] + " AND ", Join(parts[1..], " AND "));
    }
  }

  lemma {:induction false} SumPlaceholdersSnoc(parts: seq<string>, last: string)
    ensures SumPlaceholders(parts + [last]) == SumPlaceholders(parts) + Placeholders(last)
  {
    if parts != [] {
      assert (parts + [last])[1..] == parts[1..] + [last];
      SumPlaceholdersSnoc(parts[1..], last);
    } else {
      assert parts + [last] == [last];
    }
  }

  lemma ConstantTexts()
    ensures Placeholders(Mark) == 1
    ensures Plain(" = ") && Plain(" >= ") && Plain(" <= ") && Plain(" AND ")
    ensures Plain("SELECT * FROM ") && Plain(" WHERE ") && Plain(" ALLOW FILTERING")
  {
  }

  /** A plain text followed by one placeholder holds one placeholder. */
  lemma {:induction false} PlainThenMark(a: string)
    requires Plain(a)
    ensures Placeholders(a + Mark) == 1
  {
    if a == [] {
      assert a + Mark == Mark;
      ConstantTexts();
    } else {
      PlainThenMark(a[1..]);
      assert (a + Mark)[1..] == a[1..] + Mark;
    }
  }

  lemma ClausePlaceholders(c: Clause)
    requires Plain(c.column)
    ensures Placeholders(ClauseText(c)) == |ClauseParams(c)|
  {
    var col := c.column;
    ConstantTexts();
    match c
    case Equals(_, _) =>
      PlainThenMark(col + " = ");
    case AtLeast(_, _) =>
      PlainThenMark(col + " >= ");
    case AtMost(_, _) =>
      PlainThenMark(col + " <= ");
    case Between(_, _, _) =>
      var first := col + " >= " + Mark;
      PlainThenMark(col + " >= ");
      PlainHasNone(" AND ");
      PlaceholdersConcat(first, " AND ");
      PlainHasNone(col);
      PlaceholdersConcat(first + " AND ", col);
      PlainHasNone(" <= ");
      PlaceholdersConcat(first + " AND " + col, " <= ");
      PlaceholdersConcat(first + " AND " + col + " <= ", Mark);
  }

  predicate PlainColumns(cs: seq<Clause>) {
    forall i :: 0 <= i < |cs| ==> Plain(cs[i].column)
  }

  lemma {:induction false} TextsPlaceholders(cs: seq<Clause>)
    requires PlainColumns(cs)
    ensures SumPlaceholders(Texts(cs)) == |Params(cs)|
  {
    if cs != [] {
      var init := cs[..|cs| - 1];
      assert PlainColumns(init) by {
        forall i | 0 <= i < |init| ensures Plain(init[i].column) {
          assert init[i] == cs[i];
        }
      }
      TextsPlaceholders(init);
      SumPlaceholdersSnoc(Texts(init), ClauseText(cs[|cs| - 1]));
      ClausePlaceholders(cs[|cs| - 1]);
    }
  }

  lemma PlainConcat(a: string, b: string)
    requires Plain(a) && Plain(b)
    ensures Plain(a + b)
  {
    forall i | 0 <= i < |a + b| ensures (a + b)[i] != '%' {
      if i >= |a| {
        assert (a + b)[i] == b[i - |a|];
      }
    }
  }

  /** Placeholders of `head + middle + " ALLOW FILTERING"` are those of
      the middle part when the head is plain. */
  lemma FramedPlaceholders(head: string, middle: string)
    requires Plain(head)
    ensures Placeholders(head + middle + " ALLOW FILTERING") == Placeholders(middle)
  {
    ConstantTexts();
    PlainHasNone(head);
    PlainHasNone(" ALLOW FILTERING");
    PlaceholdersConcat(head, middle);
    PlaceholdersConcat(head + middle, " ALLOW FILTERING");
  }

  /** The statement has exactly as many placeholders as parameters, so
      the driver's `%` substitution consumes every parameter. */
  lemma RenderPlaceholders(table: string, cs: seq<Clause>)
    requires Plain(table) && PlainColumns(cs)
    ensures Placeholders(Render(table, cs)) == |Params(cs)|
  {
    ConstantTexts();
    PlainConcat("SELECT * FROM ", table);
    var head := "SELECT * FROM " + table;
    if cs == [] {
      FramedPlaceholders(head, "");
    } else {
      var body := Join(Texts(cs), " AND ");
      JoinPlaceholders(Texts(cs));
      TextsPlaceholders(cs);
      PlainHasNone(" WHERE ");
      PlaceholdersConcat(" WHERE ", body);
      FramedPlaceholders(head, " WHERE " + body);
    }
  }

  // ---------------------------------------------------------------------
  // Running a statement: the store reads each parameter as a literal of
  // its column's type and keeps the rows that satisfy every condition.

  datatype ColumnType = TextColumn | TimestampColumn | TimeColumn

  /** A stored cell. */
  datatype Cell = TextCell(text: string) | TimestampCell(ms: int) | TimeCell(time: Time) | NullCell

  /** How the store reads text literals of the non-text column types. The
      grammar of those literals belongs to the store, so it is a parameter
      of this model. */
  datatype Literals = Literals(timestamp: string -> Option<int>, time: string -> Option<Time>)

  type Schema = map<string, ColumnType>

  /** A row as the store sees it: one cell per column. */
  type Row = map<string, Cell>

  function ReadLiteral(ty: ColumnType, text: string, lit: Literals): Option<Cell> {
    match ty
    case TextColumn => Some(TextCell(text))
    case TimestampColumn => if lit.timestamp(text).Some? then Some(TimestampCell(lit.timestamp(text).value)) else None
    case TimeColumn => if lit.time(text).Some? then Some(TimeCell(lit.time(text).value)) else None
  }

  function ColumnLiteral(col: string, text: string, schema: Schema, lit: Literals): Option<Cell> {
    if col in schema then ReadLiteral(schema[col], text, lit) else None
  }

  /** The first parameter, in parameter order, that the store cannot read
      as a literal of its column's type; running the statement then fails. */
  function FirstBadLiteral(cs: seq<Clause>, schema: Schema, lit: Literals): (bad: Option<string>)
    ensures bad.None? <==> forall i, j :: 0 <= i < |cs| && 0 <= j < |ClauseParams(cs[i])| ==>
                                ColumnLiteral(cs[i].column, ClauseParams(cs[i])[j], schema, lit).Some?
  {
    if cs == [] then None
    else
      var c := cs[0];
      var ps := ClauseParams(c);
      if ColumnLiteral(c.column, ps[0], schema, lit).None? then Some(ps[0])
      else if |ps| == 2 && ColumnLiteral(c.column, ps[1], schema, lit).None? then Some(ps[1])
      else
        var rest := FirstBadLiteral(cs[1..], schema, lit);
        assert forall i :: 1 <= i < |cs| ==> cs[i] == cs[1..][i - 1];
        rest
  }

  /** Parameter `j` of clause `i` is readable as a literal of its column. */
  ghost predicate Readable(cs: seq<Clause>, i: int, j: int, schema: Schema, lit: Literals)
    requires 0 <= i < |cs| && 0 <= j < |ClauseParams(cs[i])|
  {
    ColumnLiteral(cs[i].column, ClauseParams(cs[i])[j], schema, lit).Some?
  }

  /** Parameter `j` of clause `i` is unreadable and every parameter before
      it, in parameter order, is readable. */
  ghost predicate FirstUnreadable(cs: seq<Clause>, i: int, j: int, schema: Schema, lit: Literals) {
    && 0 <= i < |cs| && 0 <= j < |ClauseParams(cs[i])|
    && !Readable(cs, i, j, schema, lit)
    && (forall j' :: 0 <= j' < j ==> Readable(cs, i, j', schema, lit))
    && (forall i', j' :: 0 <= i' < i && 0 <= j' < |ClauseParams(cs[i'])| ==> Readable(cs, i', j', schema, lit))
  }

  /** A first unreadable parameter of the tail, behind a head clause whose
      parameters are all readable, is the first of the whole list. */
  lemma FirstUnreadableShift(cs: seq<Clause>, i: int, j: int, schema: Schema, lit: Literals)
    requires cs != [] && forall j' :: 0 <= j' < |ClauseParams(cs[0])| ==> Readable(cs, 0, j', schema, lit)
    requires FirstUnreadable(cs[1..], i, j, schema, lit)
    ensures FirstUnreadable(cs, i + 1, j, schema, lit)
  {
    var tail := cs[1..];
    var k := i + 1;
    assert cs[k] == tail[i];
    forall j' | 0 <= j' < j
      ensures Readable(cs, k, j', schema, lit)
    {
      assert Readable(tail, i, j', schema, lit);
    }
    forall i', j' | 0 <= i' < i + 1 && 0 <= j' < |ClauseParams(cs[i'])|
      ensures Readable(cs, i', j', schema, lit)
    {
      if i' > 0 {
        assert cs[i'] == tail[i' - 1];
        assert Readable(tail, i' - 1, j', schema, lit);
      }
    }
  }

  /** The reported literal is the first unreadable parameter. */
  lemma {:induction false} FirstBadLiteralIsFirst(cs: seq<Clause>, schema: Schema, lit: Literals)
    requires FirstBadLiteral(cs, schema, lit).Some?
    ensures exists i, j :: FirstUnreadable(cs, i, j, schema, lit) &&
                           FirstBadLiteral(cs, schema, lit).value == ClauseParams(cs[i])[j]
  {
    var ps := ClauseParams(cs[0]);
    assert 1 <= |ps| <= 2;
    if ColumnLiteral(cs[0].column, ps[0], schema, lit).None? {
      assert FirstUnreadable(cs, 0, 0, schema, lit);
    } else if |ps| == 2 && ColumnLiteral(cs[0].column, ps[1], schema, lit).None? {
      assert FirstUnreadable(cs, 0, 1, schema, lit);
    } else {
      var tail := cs[1..];
      assert FirstBadLiteral(cs, schema, lit) == FirstBadLiteral(tail, schema, lit);
      FirstBadLiteralIsFirst(tail, schema, lit);
      var i, j :| FirstUnreadable(tail, i, j, schema, lit) &&
                  FirstBadLiteral(tail, schema, lit).value == ClauseParams(tail[i])[j];
      assert forall j' :: 0 <= j' < |ps| ==> Readable(cs, 0, j', schema, lit);
      FirstUnreadableShift(cs, i, j, schema, lit);
      assert cs[i + 1] == tail[i];
    }
  }

  predicate NotBefore(cell: Cell, bound: Option<Cell>) {
    cell.TimestampCell? && bound.Some? && bound.value.TimestampCell? && bound.value.ms <= cell.ms
  }

  predicate NotAfter(cell: Cell, bound: Option<Cell>) {
    cell.TimestampCell? && bound.Some? && bound.value.TimestampCell? && cell.ms <= bound.value.ms
  }

  /** Whether a row satisfies one condition. Range conditions compare
      timestamps; they are only ever built on `creation_date`. */
  predicate Holds(c: Clause, row: Row, schema: Schema, lit: Literals) {
    c.column in row &&
    var cell := row[c.column];
    match c
    case Equals(col, v) => ColumnLiteral(col, v, schema, lit) == Some(cell)
    case AtLeast(col, v) => NotBefore(cell, ColumnLiteral(col, v, schema, lit))
    case AtMost(col, v) => NotAfter(cell, ColumnLiteral(col, v, schema, lit))
    case Between(col, lo, hi) =>
      NotBefore(cell, ColumnLiteral(col, lo, schema, lit)) && NotAfter(cell, ColumnLiteral(col, hi, schema, lit))
  }

  /** Conditions are combined with AND. */
  predicate HoldsAll(cs: seq<Clause>, row: Row, schema: Schema, lit: Literals) {
    cs == [] || (Holds(cs[0], row, schema, lit) && HoldsAll(cs[1..], row, schema, lit))
  }

  lemma {:induction false} HoldsAllConcat(a: seq<Clause>, b: seq<Clause>, row: Row, schema: Schema, lit: Literals)
    ensures HoldsAll(a + b, row, schema, lit) <==> HoldsAll(a, row, schema, lit) && HoldsAll(b, row, schema, lit)
  {
    if a == [] {
      assert a + b == b;
    } else {
      assert (a + b)[0] == a[0];
      assert (a + b)[1..] == a[1..] + b;
      HoldsAllConcat(a[1..], b, row, schema, lit);
    }
  }
}
