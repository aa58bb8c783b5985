/** Comma-separated text as the dashboard exports it: every field wrapped in
    double quotes, fields joined by ',' and lines by '\n', no final newline.

    Section 2 (rule 7) of RFC 4180 asks that a double quote inside a quoted
    field be written twice. The export as written does not do that
    (`AsWrittenLine`), so two different rows can give the same text
    (`AsWrittenSplitsField`). `Line` and `Document` escape the quote, and
    `ParseDocument` reads every such document back (`DocumentRoundTrip`). */
module Csv {
  import opened Wrappers

  type Row = seq<string>

  /** `parts.join(sep)`. */
  function Join(parts: seq<string>, sep: char): (r: string)
    ensures |parts| == 1 ==> r == parts[0]
  {
    if |parts| == 0 then ""
    else if |parts| == 1 then parts[0]
    else parts[0] + [sep] + Join(parts[1..], sep)
  }

  // ---- As written ----

  /** `"${v}"`: the value between two quotes, unchanged. */
  function AsWrittenField(v: string): string
  {
    "\"" + v + "\""
  }

  function AsWrittenLine(fields: Row): string
  {
    Join(seq(|fields|, i requires 0 <= i < |fields| => AsWrittenField(fields[i])), ',')
  }

  function AsWrittenDocument(rows: seq<Row>): string
  {
    Join(seq(|rows|, i requires 0 <= i < |rows| => AsWrittenLine(rows[i])), '\n')
  }

  lemma AsWrittenLineCons(v: string, fields: Row)
    requires |fields| > 0
    ensures AsWrittenLine([v] + fields) == AsWrittenField(v) + "," + AsWrittenLine(fields)
  {
    var all := [v] + fields;
    assert seq(|all|, i requires 0 <= i < |all| => AsWrittenField(all[i]))[1..]
        == seq(|fields|, i requires 0 <= i < |fields| => AsWrittenField(fields[i]));
  }

  /** A field holding `x","y` is written exactly as the two fields `x` and
      `y`, so no reader can tell the two rows apart. */
  lemma AsWrittenSplitsField(x: string, y: string, fields: Row)
    requires |fields| > 0
    ensures AsWrittenLine([x + "\",\"" + y] + fields) == AsWrittenLine([x, y] + fields)
  {
    AsWrittenLineCons(x + "\",\"" + y, fields);
    AsWrittenLineCons(y, fields);
    assert [x, y] + fields == [x] + ([y] + fields);
    AsWrittenLineCons(x, [y] + fields);
  }

  // ---- Escaped ----

  /** The field text with each double quote doubled. */
  function Escape(v: string): (r: string)
    ensures |r| >= |v|
  {
    if v == [] then []
    else (if v[0] == '"' then "\"\"" else [v[0]]) + Escape(v[1..])
  }

  /** Without a double quote in it, a value is written as the export writes it. */
  lemma {:induction false} EscapeWithoutQuotes(v: string)
    requires '"' !in v
    ensures Escape(v) == v
  {
    if v != [] {
      assert '"' !in v[1..] by {
        assert forall c :: c in v[1..] ==> c in v;
      }
      EscapeWithoutQuotes(v[1..]);
      assert v == [v[0]] + v[1..];
    }
  }

  function Field(v: string): string
  {
    "\"" + Escape(v) + "\""
  }

  function Line(fields: Row): string
  {
    Join(seq(|fields|, i requires 0 <= i < |fields| => Field(fields[i])), ',')
  }

  function Document(rows: seq<Row>): string
  {
    Join(seq(|rows|, i requires 0 <= i < |rows| => Line(rows[i])), '\n')
  }

  /** When no field holds a double quote, the escaped export is the export
      as written. */
  lemma AgreesWithoutQuotes(rows: seq<Row>)
    requires forall i, j :: 0 <= i < |rows| && 0 <= j < |rows[i]| ==> '"' !in rows[i][j]
    ensures Document(rows) == AsWrittenDocument(rows)
  {
    forall i, j | 0 <= i < |rows| && 0 <= j < |rows[i]|
      ensures Field(rows[i][j]) == AsWrittenField(rows[i][j])
    {
      EscapeWithoutQuotes(rows[i][j]);
    }
    forall i | 0 <= i < |rows| ensures Line(rows[i]) == AsWrittenLine(rows[i]) {
      var fs := rows[i];
      assert seq(|fs|, j requires 0 <= j < |fs| => Field(fs[j]))
          == seq(|fs|, j requires 0 <= j < |fs| => AsWrittenField(fs[j]));
    }
    assert seq(|rows|, i requires 0 <= i < |rows| => Line(rows[i]))
        == seq(|rows|, i requires 0 <= i < |rows| => AsWrittenLine(rows[i]));
  }

  // ---- Reading back ----

  /** The rest of a quoted field after its opening quote: the value and the
      text after the closing quote. */
  function ParseBody(s: string): (r: Option<(string, string)>)
    ensures r.Some? ==> |r.value.1| < |s|
  {
    if s == [] then None
    else if s[0] == '"' then
      if |s| > 1 && s[1] == '"' then
        match ParseBody(s[2..])
        case None => None
        case Some((v, rest)) => Some(("\"" + v, rest))
      else Some(([], s[1..]))
    else
      match ParseBody(s[1..])
      case None => None
      case Some((v, rest)) => Some(([s[0]] + v, rest))
  }

  function ParseField(s: string): (r: Option<(string, string)>)
    ensures r.Some? ==> |r.value.1| < |s|
  {
    if s != [] && s[0] == '"' then ParseBody(s[1..]) else None
  }

  /** One or more quoted fields separated by ','. */
  function ParseFields(s: string): (r: Option<(Row, string)>)
    ensures r.Some? ==> |r.value.1| < |s|
    decreases |s|
  {
    match ParseField(s)
    case None => None
    case Some((v, rest)) =>
      if rest != [] && rest[0] == ',' then
        match ParseFields(rest[1..])
        case None => None
        case Some((vs, rest')) => Some(([v] + vs, rest'))
      else Some(([v], rest))
  }

  /** One or more lines separated by '\n', up to the end of the text. */
  function ParseDocument(s: string): (r: Option<seq<Row>>)
    decreases |s|
  {
    match ParseFields(s)
    case None => None
    case Some((fields, rest)) =>
      if rest == [] then Some([fields])
      else if rest[0] == '\n' then
        match ParseDocument(rest[1..])
        case None => None
        case Some(rows) => Some([fields] + rows)
      else None
  }

  lemma {:induction false} BodyRoundTrip(v: string, rest: string)
    requires rest == [] || rest[0] != '"'
    ensures ParseBody(Escape(v) + "\"" + rest) == Some((v, rest))
  {
    var s := Escape(v) + "\"" + rest;
    if v == [] {
      assert s == "\"" + rest;
      assert s[1..] == rest;
    } else {
      BodyRoundTrip(v[1..], rest);
      if v[0] == '"' {
        assert s == "\"\"" + (Escape(v[1..]) + "\"" + rest);
        assert s[2..] == Escape(v[1..]) + "\"" + rest;
        assert "\"" + v[1..] == v;
      } else {
        assert s == [v[0]] + (Escape(v[1..]) + "\"" + rest);
        assert s[1..] == Escape(v[1..]) + "\"" + rest;
        assert [v[0]] + v[1..] == v;
      }
    }
  }

  lemma FieldRoundTrip(v: string, rest: string)
    requires rest == [] || rest[0] != '"'
    ensures ParseField(Field(v) + rest) == Some((v, rest))
  {
    BodyRoundTrip(v, rest);
    assert (Field(v) + rest)[1..] == Escape(v) + "\"" + rest;
  }

  lemma {:induction false} FieldsRoundTrip(fields: Row, rest: string)
    requires |fields| > 0
    requires rest == [] || (rest[0] != '"' && rest[0] != ',')
    ensures ParseFields(Line(fields) + rest) == Some((fields, rest))
  {
    var parts := seq(|fields|, i requires 0 <= i < |fields| => Field(fields[i]));
    if |fields| == 1 {
      assert Line(fields) == Field(fields[0]);
      FieldRoundTrip(fields[0], rest);
      assert [fields[0]] == fields;
    } else {
      var tail := fields[1..];
      var tailParts := seq(|tail|, i requires 0 <= i < |tail| => Field(tail[i]));
      assert parts[1..] == tailParts;
      assert Line(fields) == Field(fields[0]) + "," + Line(tail);
      var after := "," + Line(tail) + rest;
      assert Line(fields) + rest == Field(fields[0]) + after;
      FieldRoundTrip(fields[0], after);
      assert after[1..] == Line(tail) + rest;
      FieldsRoundTrip(tail, rest);
      assert [fields[0]] + tail == fields;
    }
  }

  /** Every document whose lines have at least one field reads back as its
      rows. */
  lemma {:induction false} DocumentRoundTrip(rows: seq<Row>)
    requires |rows| > 0
    requires forall i :: 0 <= i < |rows| ==> |rows[i]| > 0
    ensures ParseDocument(Document(rows)) == Some(rows)
  {
    var lines := seq(|rows|, i requires 0 <= i < |rows| => Line(rows[i]));
    if |rows| == 1 {
      assert Document(rows) == Line(rows[0]) + [];
      FieldsRoundTrip(rows[0], []);
      assert [rows[0]] == rows;
    } else {
      var tail := rows[1..];
      var tailLines := seq(|tail|, i requires 0 <= i < |tail| => Line(tail[i]));
      assert lines[1..] == tailLines;
      assert Document(rows) == Line(rows[0]) + ("\n" + Document(tail));
      FieldsRoundTrip(rows[0], "\n" + Document(tail));
      assert ("\n" + Document(tail))[1..] == Document(tail);
      DocumentRoundTrip(tail);
      assert [rows[0]] + tail == rows;
    }
  }
}
