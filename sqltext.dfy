/** The text of the statements built by `insert`, `delete` and `update`.
    Only the string construction is modelled: the statements are handed to
    SQLite, which is not part of this model. */
module SqlText {
  import opened Common

  /** A value bound to a `?` placeholder. */
  datatype SqlValue = Text(s: string) | Integer(i: int)

  /** Python's `sep.join(parts)`. */
  function Join(sep: string, parts: seq<string>): string
  {
    if |parts| == 0 then ""
    else if |parts| == 1 then parts[0]
    else parts[0] + sep + Join(sep, parts[1..])
  }

  /** Joining one more part appends the separator and that part. */
  lemma {:induction false} JoinSnoc(sep: string, parts: seq<string>, x: string)
    requires |parts| > 0
    ensures Join(sep, parts + [x]) == Join(sep, parts) + sep + x
  {
    if |parts| > 1 {
      assert (parts + [x])[1..] == parts[1..] + [x];
      JoinSnoc(sep, parts[1..], x);
    } else {
      assert (parts + [x])[1..] == [x];
    }
  }

  /** `[x] * n` in Python. */
  function Repeat(x: string, n: nat): (r: seq<string>)
    ensures |r| == n && forall i :: 0 <= i < n ==> r[i] == x
  {
    if n == 0 then [] else [x] + Repeat(x, n - 1)
  }

  /** The number of occurrences of `c` in `s`. */
  function Count(c: char, s: string): nat
  {
    if s == [] then 0 else Count(c, s[..|s| - 1]) + (if s[|s| - 1] == c then 1 else 0)
  }

  lemma {:induction false} CountConcat(c: char, a: string, b: string)
    ensures Count(c, a + b) == Count(c, a) + Count(c, b)
  {
    if b == [] {
      assert a + b == a;
    } else {
      assert (a + b)[..|a + b| - 1] == a + b[..|b| - 1];
      CountConcat(c, a, b[..|b| - 1]);
    }
  }

  lemma {:induction false} CountAbsent(c: char, s: string)
    requires c !in s
    ensures Count(c, s) == 0
  {
    if s != [] {
      assert forall k :: 0 <= k < |s| - 1 ==> s[..|s| - 1][k] == s[k];
      CountAbsent(c, s[..|s| - 1]);
    }
  }

  /** The placeholder counts of the fixed pieces of text. */
  lemma LiteralCounts()
    ensures Count('?', "?") == 1
    ensures Count('?', ", ") == 0
    ensures Count('?', "DATETIME(?)") == 1
    ensures Count('?', ", DATETIME(?)") == 1
  {
    assert "?"[..0] == "";
    CountAbsent('?', ", ");
    CountAbsent('?', "DATETIME(");
    CountAbsent('?', ")");
    assert "DATETIME(?)" == "DATETIME(" + "?" + ")";
    CountConcat('?', "DATETIME(", "?");
    CountConcat('?', "DATETIME(" + "?", ")");
    assert ", DATETIME(?)" == ", " + "DATETIME(?)";
    CountConcat('?', ", ", "DATETIME(?)");
  }

  /** The `VALUES` list of `n` plain placeholders holds exactly `n` `?`. */
  lemma {:induction false} PlaceholderCount(n: nat)
    ensures Count('?', Join(", ", Repeat("?", n))) == n
  {
    LiteralCounts();
    if n == 1 {
      assert Repeat("?", 1) == ["?"];
    } else if n > 1 {
      PlaceholderCount(n - 1);
      var tail := Join(", ", Repeat("?", n - 1));
      assert Repeat("?", n)[1..] == Repeat("?", n - 1);
      assert Join(", ", Repeat("?", n)) == "?" + ", " + tail;
      CountConcat('?', "?" + ", ", tail);
      CountConcat('?', "?", ", ");
    }
  }

  /** The `VALUES` list `insert` builds, as written: with `date` set it is
      `len(values) - 1` placeholders (none if that is negative) followed by
      `, DATETIME(?)`. */
  function ValuesListAsWritten(date: bool, n: nat): string
  {
    if date then Join(", ", Repeat("?", if n >= 1 then n - 1 else 0)) + ", DATETIME(?)"
    else Join(", ", Repeat("?", n))
  }

  /** `insert`'s statement text, as written. */
  function InsertQueryAsWritten(table: string, date: bool, fields: seq<string>, values: seq<SqlValue>): string
  {
    "INSERT INTO " + table + " (" + Join(", ", fields) + ") VALUES (" + ValuesListAsWritten(date, |values|) + ")"
  }

  /** The evidently intended `VALUES` list: `n` entries separated by `", "`,
      the last wrapped in `DATETIME(...)` when `date` is set. */
  function ValuesList(date: bool, n: nat): string
  {
    if date && n >= 1 then Join(", ", Repeat("?", n - 1) + ["DATETIME(?)"])
    else Join(", ", Repeat("?", n))
  }

  /** `insert`'s statement text with the intended `VALUES` list. */
  function InsertQuery(table: string, date: bool, fields: seq<string>, values: seq<SqlValue>): string
  {
    "INSERT INTO " + table + " (" + Join(", ", fields) + ") VALUES (" + ValuesList(date, |values|) + ")"
  }

  lemma DatedPlaceholderCount(n: nat)
    requires n >= 1
    ensures Count('?', Join(", ", Repeat("?", n - 1) + ["DATETIME(?)"])) == n
  {
    LiteralCounts();
    if n == 1 {
      assert Repeat("?", 0) + ["DATETIME(?)"] == ["DATETIME(?)"];
    } else {
      var front := Join(", ", Repeat("?", n - 1));
      PlaceholderCount(n - 1);
      JoinSnoc(", ", Repeat("?", n - 1), "DATETIME(?)");
      CountConcat('?', front + ", ", "DATETIME(?)");
      CountConcat('?', front, ", ");
    }
  }

  /** The intended list has one placeholder per bound value, in either mode. */
  lemma ValuesListPlaceholders(date: bool, n: nat)
    ensures Count('?', ValuesList(date, n)) == n
  {
    if date && n >= 1 {
      DatedPlaceholderCount(n);
    } else {
      PlaceholderCount(n);
    }
  }

  /** Whenever the table name and the column names hold no `?`, the
      statement has exactly one placeholder per value passed to SQLite. */
  lemma InsertBindsEveryValue(table: string, date: bool, fields: seq<string>, values: seq<SqlValue>)
    requires '?' !in table
    requires '?' !in Join(", ", fields)
    ensures Count('?', InsertQuery(table, date, fields, values)) == |values|
  {
    var front := "INSERT INTO " + table + " (" + Join(", ", fields) + ") VALUES (";
    var vals := ValuesList(date, |values|);
    assert InsertQuery(table, date, fields, values) == front + vals + ")";
    ValuesListPlaceholders(date, |values|);
    CountAbsent('?', front);
    CountAbsent('?', ")");
    CountConcat('?', front, vals);
    CountConcat('?', front + vals, ")");
  }

  /** The as-written text equals the intended one for every call with
      `date=False` and every call with at least two values, which covers
      every call in the application. */
  lemma InsertAsWrittenAgrees(table: string, date: bool, fields: seq<string>, values: seq<SqlValue>)
    requires !date || |values| >= 2
    ensures InsertQueryAsWritten(table, date, fields, values) == InsertQuery(table, date, fields, values)
  {
    if date {
      JoinSnoc(", ", Repeat("?", |values| - 1), "DATETIME(?)");
    }
  }

  /** The defect: with `date=True` and a single value the list starts with a
      stray `", "`, and with no value at all it still carries one `?`. */
  lemma InsertAsWrittenShortDate(v: SqlValue)
    ensures ValuesListAsWritten(true, |[v]|) == ", DATETIME(?)"
    ensures ValuesList(true, |[v]|) == "DATETIME(?)"
    ensures Count('?', ValuesListAsWritten(true, 0)) == 1
  {
    LiteralCounts();
    assert Repeat("?", 0) == [];
    assert Join(", ", []) == "";
    assert ValuesListAsWritten(true, 0) == ", DATETIME(?)";
    assert Repeat("?", 0) + ["DATETIME(?)"] == ["DATETIME(?)"];
  }

  /** `delete`'s statement text: conditions joined by `" and "` after `WHERE`. */
  function DeleteQuery(table: string, conditions: seq<string>): string
  {
    "DELETE FROM " + table + " WHERE " + Join(" and ", conditions) + " "
  }

  /** `update`'s statement text: assignments joined by `", "` after `SET`,
      conditions joined by `" and "` after `where`. */
  function UpdateQuery(table: string, fields: seq<string>, conditions: seq<string>): string
  {
    "UPDATE " + table + " SET " + Join(", ", fields) + " where " + Join(" and ", conditions)
  }

  /** The index of the first `c` in `s`, if any. */
  function FirstIndex(s: string, c: char): (r: Option<nat>)
    ensures r == None <==> c !in s
    ensures r.Some? ==> r.value < |s| && s[r.value] == c && c !in s[..r.value]
  {
    if |s| == 0 then None
    else if s[0] == c then Some(0)
    else
      var r := FirstIndex(s[1..], c);
      assert r.Some? ==> s[..r.value + 1] == [s[0]] + s[1..][..r.value];
      if r.Some? then Some(r.value + 1) else None
  }

  /** Reads a statement back: after `keyword`, the table name runs to the
      first space; the rest of the text is returned beside it. */
  function StatementTable(q: string, keyword: string): Option<(string, string)>
  {
    if |keyword| <= |q| && q[..|keyword|] == keyword then
      var rest := q[|keyword|..];
      match FirstIndex(rest, ' ')
      case None => None
      case Some(i) => Some((rest[..i], rest[i..]))
    else None
  }

  /** A table name without spaces is read back verbatim from any statement text. */
  lemma StatementTableOf(keyword: string, table: string, rest: string)
    requires ' ' !in table
    requires |rest| > 0 && rest[0] == ' '
    ensures StatementTable(keyword + table + rest, keyword) == Some((table, rest))
  {
    var q := keyword + table + rest;
    assert q[..|keyword|] == keyword;
    var tail := q[|keyword|..];
    assert tail == table + rest;
    assert tail[|table|] == ' ';
    assert tail[..|table|] == table;
  }

  /** Reads a `delete` statement back into its table and its condition text. */
  function ParseDelete(q: string): Option<(string, string)>
  {
    match StatementTable(q, "DELETE FROM ")
    case None => None
    case Some((table, rest)) =>
      if |rest| >= 8 && rest[..7] == " WHERE " && rest[|rest| - 1] == ' '
      then Some((table, rest[7..|rest| - 1]))
      else None
  }

  /** Round trip: the table name is inserted verbatim and the conditions
      follow `WHERE`, joined by `" and "`. */
  lemma DeleteRoundTrip(table: string, conditions: seq<string>)
    requires ' ' !in table
    ensures ParseDelete(DeleteQuery(table, conditions)) == Some((table, Join(" and ", conditions)))
  {
    var where := Join(" and ", conditions);
    var rest := " WHERE " + where + " ";
    assert DeleteQuery(table, conditions) == "DELETE FROM " + table + rest;
    StatementTableOf("DELETE FROM ", table, rest);
    assert rest[..7] == " WHERE ";
    assert rest[7..|rest| - 1] == where;
  }

  /** Reads an `update` statement back into its table and the text after `SET`. */
  function ParseUpdate(q: string): Option<(string, string)>
  {
    match StatementTable(q, "UPDATE ")
    case None => None
    case Some((table, rest)) =>
      if |rest| >= 5 && rest[..5] == " SET " then Some((table, rest[5..])) else None
  }

  /** Round trip: the table name is inserted verbatim; the assignments,
      joined by `", "`, follow `SET` and precede the `where` conditions. */
  lemma UpdateRoundTrip(table: string, fields: seq<string>, conditions: seq<string>)
    requires ' ' !in table
    ensures ParseUpdate(UpdateQuery(table, fields, conditions))
            == Some((table, Join(", ", fields) + " where " + Join(" and ", conditions)))
  {
    var body := Join(", ", fields) + " where " + Join(" and ", conditions);
    var rest := " SET " + body;
    assert UpdateQuery(table, fields, conditions) == "UPDATE " + table + rest;
    StatementTableOf("UPDATE ", table, rest);
    assert rest[..5] == " SET ";
    assert rest[5..] == body;
  }

  /** Round trip, as written: the table name of an `insert` statement is
      read back verbatim, followed by the columns joined by `", "` and the
      `VALUES` list. */
  lemma InsertTableRoundTrip(table: string, date: bool, fields: seq<string>, values: seq<SqlValue>)
    requires ' ' !in table
    ensures StatementTable(InsertQueryAsWritten(table, date, fields, values), "INSERT INTO ")
            == Some((table, " (" + Join(", ", fields) + ") VALUES (" + ValuesListAsWritten(date, |values|) + ")"))
  {
    var cols := Join(", ", fields);
    var vals := ValuesListAsWritten(date, |values|);
    var rest := " (" + cols + ") VALUES (" + vals + ")";
    assert InsertQueryAsWritten(table, date, fields, values) == "INSERT INTO " + table + rest by {
      assert InsertQueryAsWritten(table, date, fields, values) == "INSERT INTO " + table + " (" + cols + ") VALUES (" + vals + ")";
    }
    StatementTableOf("INSERT INTO ", table, rest);
  }

  /** The same round trip for the intended `VALUES` list. */
  lemma IntendedInsertRoundTrip(table: string, date: bool, fields: seq<string>, values: seq<SqlValue>)
    requires ' ' !in table
    ensures StatementTable(InsertQuery(table, date, fields, values), "INSERT INTO ")
            == Some((table, " (" + Join(", ", fields) + ") VALUES (" + ValuesList(date, |values|) + ")"))
  {
    var cols := Join(", ", fields);
    var vals := ValuesList(date, |values|);
    var rest := " (" + cols + ") VALUES (" + vals + ")";
    assert InsertQuery(table, date, fields, values) == "INSERT INTO " + table + rest by {
      assert InsertQuery(table, date, fields, values) == "INSERT INTO " + table + " (" + cols + ") VALUES (" + vals + ")";
    }
    StatementTableOf("INSERT INTO ", table, rest);
  }
}
