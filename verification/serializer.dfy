/** `formatCSVField`, the same text in every revision, and the
    `.map(formatCSVField).join(',')` that turns an output row into a line;
    with the proof that the scanner of `parseCSVLine` reads such a line back
    into the row it came from. */
module Serializer {
  import opened JsString
  import opened Tokenizer

  /** `s.replace(/"/g, '""')`. */
  function DoubleQuotes(s: string): (r: string)
    ensures |r| == |s| + CountChar(s, '"')
  {
    if s == [] then []
    else (if s[0] == '"' then "\"\"" else [s[0]]) + DoubleQuotes(s[1..])
  }

  predicate NeedsQuoting(field: string) {
    ',' in field || '"' in field
  }

  /** A field is left as it is unless it holds a comma or a quote; then it is
      wrapped in quotes with each inner quote doubled. */
  function FormatCsvField(field: string): (r: string)
    ensures r == field <==> !NeedsQuoting(field)
    ensures NeedsQuoting(field) ==>
      && |r| == |field| + 2 + CountChar(field, '"')
      && r[0] == '"' && r[|r| - 1] == '"'
  {
    if field == [] then field
    else if NeedsQuoting(field) then "\"" + DoubleQuotes(field) + "\""
    else field
  }

  function FormatAll(row: seq<string>): (r: seq<string>)
    ensures |r| == |row|
  {
    seq(|row|, i requires 0 <= i < |row| => FormatCsvField(row[i]))
  }

  /** One output line: every field formatted, joined with commas. Fields
      that need no quoting are joined as they are. */
  function SerializeRow(row: seq<string>): (r: string)
    ensures |row| == 1 ==> r == FormatCsvField(row[0])
    ensures (forall i :: 0 <= i < |row| ==> !NeedsQuoting(row[i])) ==> r == Join(row, ",")
  {
    assert (forall i :: 0 <= i < |row| ==> !NeedsQuoting(row[i])) ==> FormatAll(row) == row;
    Join(FormatAll(row), ",")
  }

  predicate BackslashFree(row: seq<string>) {
    forall i :: 0 <= i < |row| ==> '\\' !in row[i]
  }

  /** A run of ordinary characters outside quotes is copied into the field. */
  lemma {:induction false} PlainRun(f: string, rest: string, acc: string)
    requires ',' !in f && '"' !in f && '\\' !in f
    ensures ParseFrom(f + rest, false, acc) == ParseFrom(rest, false, acc + f)
  {
    if f == [] {
      assert f + rest == rest && acc + f == acc;
    } else {
      assert (f + rest)[0] == f[0] && (f + rest)[1..] == f[1..] + rest;
      PlainRun(f[1..], rest, acc + [f[0]]);
      assert acc + [f[0]] + f[1..] == acc + f;
    }
  }

  /** Inside quotes, the doubled-quote text of `f` followed by the closing quote
      gives `f` back and leaves the scanner outside quotes. */
  lemma {:induction false} QuotedRun(f: string, rest: string, acc: string)
    requires '\\' !in f
    requires rest == [] || rest[0] == ','
    ensures ParseFrom(DoubleQuotes(f) + "\"" + rest, true, acc) == ParseFrom(rest, false, acc + f)
    decreases |f|
  {
    if f == [] {
      assert DoubleQuotes(f) + "\"" + rest == ['"'] + rest;
      CloseQuote(rest, acc);
      assert acc + f == acc;
    } else {
      var p := if f[0] == '"' then "\"\"" else [f[0]];
      var t := DoubleQuotes(f[1..]) + "\"" + rest;
      assert DoubleQuotes(f) == p + DoubleQuotes(f[1..]);
      Regroup(p, DoubleQuotes(f[1..]), "\"", rest);
      QuotedRun(f[1..], rest, acc + [f[0]]);
      assert acc + [f[0]] + f[1..] == acc + f;
      if f[0] == '"' {
        DoubledQuote(t, acc);
      } else {
        QuotedChar(f[0], t, acc);
      }
    }
  }

  lemma Regroup(p: string, d: string, q: string, r: string)
    ensures p + d + q + r == p + (d + q + r)
  {
  }

  /** A quote inside quotes that is not doubled closes the quoted part. */
  lemma CloseQuote(rest: string, acc: string)
    requires rest == [] || rest[0] == ','
    ensures ParseFrom(['"'] + rest, true, acc) == ParseFrom(rest, false, acc)
  {
    assert (['"'] + rest)[0] == '"' && (['"'] + rest)[1..] == rest;
  }

  /** A doubled quote inside quotes puts one quote into the field. */
  lemma DoubledQuote(t: string, acc: string)
    ensures ParseFrom("\"\"" + t, true, acc) == ParseFrom(t, true, acc + ['"'])
  {
    assert ("\"\"" + t)[0] == '"' && ("\"\"" + t)[1] == '"' && ("\"\"" + t)[2..] == t;
  }

  /** Any other character inside quotes, a comma included, is copied. */
  lemma QuotedChar(x: char, t: string, acc: string)
    requires x != '"' && x != '\\'
    ensures ParseFrom([x] + t, true, acc) == ParseFrom(t, true, acc + [x])
  {
    assert ([x] + t)[0] == x && ([x] + t)[1..] == t;
  }

  /** An opening quote outside quotes is dropped and enters the quoted state. */
  lemma OpenQuote(x: string, rest: string, acc: string)
    requires x != [] && x[0] == '"'
    ensures ParseFrom(x + rest, false, acc) == ParseFrom(x[1..] + rest, true, acc)
  {
    assert (x + rest)[0] == '"' && (x + rest)[1..] == x[1..] + rest;
  }

  /** Reading a formatted field gives the field back. */
  lemma FieldRoundTrip(f: string, rest: string, acc: string)
    requires '\\' !in f
    requires rest == [] || rest[0] == ','
    ensures ParseFrom(FormatCsvField(f) + rest, false, acc) == ParseFrom(rest, false, acc + f)
  {
    if NeedsQuoting(f) {
      QuotedFieldRoundTrip(f, rest, acc);
    } else {
      assert FormatCsvField(f) == f;
      PlainRun(f, rest, acc);
    }
  }

  lemma QuotedFieldRoundTrip(f: string, rest: string, acc: string)
    requires '\\' !in f && NeedsQuoting(f)
    requires rest == [] || rest[0] == ','
    ensures ParseFrom(FormatCsvField(f) + rest, false, acc) == ParseFrom(rest, false, acc + f)
  {
    var x := FormatCsvField(f);
    assert x == "\"" + DoubleQuotes(f) + "\"";
    assert x[1..] == DoubleQuotes(f) + "\"";
    OpenQuote(x, rest, acc);
    QuotedRun(f, rest, acc);
  }

  /** The scanner reads a serialized row back into the row, provided no field
      holds a backslash (the scanner copies a backslash together with the
      character after it, which may be the closing quote). */
  lemma {:induction false} RowRoundTrip(row: seq<string>)
    requires |row| >= 1 && BackslashFree(row)
    ensures ParseLine(SerializeRow(row)) == row
    decreases |row|
  {
    if |row| == 1 {
      FieldRoundTrip(row[0], [], []);
      assert FormatCsvField(row[0]) + [] == SerializeRow(row);
      assert [] + row[0] == row[0];
      assert [row[0]] == row;
    } else {
      assert BackslashFree(row[1..]) by {
        forall i | 0 <= i < |row| - 1 ensures '\\' !in row[1..][i] {
          assert row[1..][i] == row[i + 1];
        }
      }
      RowRoundTrip(row[1..]);
      RowCons(row);
    }
  }

  /** One field in front of a row that already reads back. */
  lemma RowCons(row: seq<string>)
    requires |row| >= 2 && '\\' !in row[0]
    requires ParseLine(SerializeRow(row[1..])) == row[1..]
    ensures ParseLine(SerializeRow(row)) == row
  {
    SerializeCons(row);
    FieldThenComma(row[0], SerializeRow(row[1..]), []);
    assert [] + row[0] == row[0];
    assert [row[0]] + row[1..] == row;
  }

  /** The line of a row of two or more fields: the first field, a comma and
      the line of the others. */
  lemma SerializeCons(row: seq<string>)
    requires |row| >= 2
    ensures SerializeRow(row) == FormatCsvField(row[0]) + "," + SerializeRow(row[1..])
  {
    assert FormatAll(row)[1..] == FormatAll(row[1..]);
  }

  /** A formatted field and the comma after it give one finished field. */
  lemma FieldThenComma(f: string, tail: string, acc: string)
    requires '\\' !in f
    ensures ParseFrom(FormatCsvField(f) + "," + tail, false, acc) == [acc + f] + ParseFrom(tail, false, [])
  {
    assert FormatCsvField(f) + "," + tail == FormatCsvField(f) + ("," + tail);
    FieldRoundTrip(f, "," + tail, acc);
    CommaStep(tail, acc + f);
  }

  /** Fields without commas, quotes or backslashes are recovered from their
      plain comma join. */
  lemma UnquotedJoinRoundTrip(fields: seq<string>)
    requires |fields| >= 1
    requires forall i :: 0 <= i < |fields| ==> ',' !in fields[i] && '"' !in fields[i] && '\\' !in fields[i]
    ensures ParseLine(Join(fields, ",")) == fields
  {
    assert FormatAll(fields) == fields;
    RowRoundTrip(fields);
  }

  /** A single formatted field reads back as exactly that one field. */
  lemma FormattedFieldRoundTrip(x: string)
    requires '\\' !in x
    ensures ParseLine(FormatCsvField(x)) == [x]
  {
    RowRoundTrip([x]);
    assert SerializeRow([x]) == FormatCsvField(x);
  }

  lemma {:induction false} DoubleQuotesOfQuoteFree(s: string)
    requires '"' !in s
    ensures DoubleQuotes(s) == s
  {
    if s != [] {
      DoubleQuotesOfQuoteFree(s[1..]);
    }
  }

  /** The shape of the line the repository's own test parses
      (`field1,"field2,with,commas",field3`): commas inside a quoted field stay
      in that field, so the line has three fields. */
  lemma QuotedCommasStay(a: string, b: string, c: string)
    requires ',' !in a && '"' !in a && '\\' !in a
    requires ',' !in c && '"' !in c && '\\' !in c
    requires '"' !in b && '\\' !in b
    ensures ParseLine(a + ",\"" + b + "\"," + c) == [a, b, c]
  {
    var line := a + ",\"" + b + "\"," + c;
    var tail := "," + c;
    var q := DoubleQuotes(b) + "\"";
    var open := "\"" + q + tail;
    DoubleQuotesOfQuoteFree(b);
    assert line == a + ("," + open);
    PlainRun(a, "," + open, []);
    assert [] + a == a;
    CommaStep(open, a);
    assert ("\"" + q)[1..] == q;
    OpenQuote("\"" + q, tail, []);
    QuotedRun(b, tail, []);
    assert [] + b == b;
    CommaStep(c, b);
    PlainRun(c, [], []);
    assert c + [] == c && [] + c == c;
  }

  /** A comma outside quotes closes the field being built. */
  lemma CommaStep(rest: string, acc: string)
    ensures ParseFrom("," + rest, false, acc) == [acc] + ParseFrom(rest, false, [])
  {
    assert ("," + rest)[0] == ',' && ("," + rest)[1..] == rest;
  }
}
