/** `parseCSVLine`, the same scanner in every revision: a quote- and
    backslash-aware split of one bill line into its fields. */
module Tokenizer {

  /** The scanner as a function: `rest` is the part of the line not yet read,
      `inQuotes` the quote state and `field` the field being built.
      - `""` inside quotes puts one `"` into the field; any other `"` only
        flips the quote state and is never copied;
      - a backslash and the character after it are both copied, so `\"` and
        `\,` neither flip the quote state nor end the field;
      - a comma outside quotes ends the field;
      - every other character is copied. */
  function ParseFrom(rest: string, inQuotes: bool, field: string): (r: seq<string>)
    ensures |r| >= 1
    decreases |rest|
  {
    if rest == [] then [field]
    else if rest[0] == '"' then
      if inQuotes && |rest| > 1 && rest[1] == '"' then ParseFrom(rest[2..], inQuotes, field + ['"'])
      else ParseFrom(rest[1..], !inQuotes, field)
    else if rest[0] == '\\' then
      if |rest| > 1 then ParseFrom(rest[2..], inQuotes, field + rest[..2])
      else ParseFrom(rest[1..], inQuotes, field + ['\\'])
    else if rest[0] == ',' && !inQuotes then [field] + ParseFrom(rest[1..], false, [])
    else ParseFrom(rest[1..], inQuotes, field + [rest[0]])
  }

  /** The fields of a whole line, read from its start outside quotes. */
  function ParseLine(line: string): seq<string> {
    ParseFrom(line, false, [])
  }

  /** The scanning loop of `parseCSVLine`: it moves `i` on by one or two
      characters per round and pushes the last field after the loop. */
  method ParseCsvLine(line: string) returns (fields: seq<string>)
    ensures fields == ParseLine(line)
    ensures |fields| == 1 + SeparatorCount(line, false)
    ensures TotalLength(fields) <= |line|
  {
    fields := [];
    var currentField: string := [];
    var inQuotes := false;
    var i := 0;
    while i < |line|
      invariant 0 <= i <= |line|
      invariant fields + ParseFrom(line[i..], inQuotes, currentField) == ParseLine(line)
      decreases |line| - i
    {
      var c := line[i];
      assert line[i..][0] == c;
      if c == '"' {
        if inQuotes && i + 1 < |line| && line[i + 1] == '"' {
          assert line[i..][2..] == line[i + 2..];
          currentField := currentField + ['"'];
          i := i + 2;
        } else {
          assert line[i..][1..] == line[i + 1..];
          inQuotes := !inQuotes;
          i := i + 1;
        }
      } else if c == '\\' {
        if i + 1 < |line| {
          assert line[i..][2..] == line[i + 2..] && line[i..][..2] == [c, line[i + 1]];
          assert currentField + [c] + [line[i + 1]] == currentField + line[i..][..2];
          currentField := currentField + [c] + [line[i + 1]];
          i := i + 2;
        } else {
          assert line[i..][1..] == line[i + 1..];
          currentField := currentField + [c];
          i := i + 1;
        }
      } else if c == ',' && !inQuotes {
        assert line[i..][1..] == line[i + 1..];
        assert fields + ParseFrom(line[i..], inQuotes, currentField)
            == (fields + [currentField]) + ParseFrom(line[i + 1..], false, []);
        fields := fields + [currentField];
        currentField := [];
        i := i + 1;
      } else {
        assert line[i..][1..] == line[i + 1..];
        currentField := currentField + [c];
        i := i + 1;
      }
    }
    assert line[i..] == [];
    fields := fields + [currentField];
    ParseFieldCount(line, false, []);
    ParseLength(line, false, []);
  }

  /** The number of commas the scanner reads outside quotes, not counting a
      comma that directly follows a backslash. */
  function SeparatorCount(rest: string, inQuotes: bool): nat
    decreases |rest|
  {
    if rest == [] then 0
    else if rest[0] == '"' then
      if inQuotes && |rest| > 1 && rest[1] == '"' then SeparatorCount(rest[2..], inQuotes)
      else SeparatorCount(rest[1..], !inQuotes)
    else if rest[0] == '\\' then
      if |rest| > 1 then SeparatorCount(rest[2..], inQuotes) else 0
    else if rest[0] == ',' && !inQuotes then 1 + SeparatorCount(rest[1..], false)
    else SeparatorCount(rest[1..], inQuotes)
  }

  /** The number of characters the scanner consumes without copying them:
      separators, quote characters that flip the state, and the first of
      each doubled quote. */
  function Dropped(rest: string, inQuotes: bool): (n: nat)
    ensures n <= |rest|
    decreases |rest|
  {
    if rest == [] then 0
    else if rest[0] == '"' then
      if inQuotes && |rest| > 1 && rest[1] == '"' then 1 + Dropped(rest[2..], inQuotes)
      else 1 + Dropped(rest[1..], !inQuotes)
    else if rest[0] == '\\' then
      if |rest| > 1 then Dropped(rest[2..], inQuotes) else 0
    else if rest[0] == ',' && !inQuotes then 1 + Dropped(rest[1..], false)
    else Dropped(rest[1..], inQuotes)
  }

  function TotalLength(fields: seq<string>): nat {
    if fields == [] then 0 else |fields[0]| + TotalLength(fields[1..])
  }

  lemma {:induction false} TotalLengthAppend(a: seq<string>, b: seq<string>)
    ensures TotalLength(a + b) == TotalLength(a) + TotalLength(b)
  {
    if a == [] {
      assert a + b == b;
    } else {
      assert (a + b)[1..] == a[1..] + b;
      TotalLengthAppend(a[1..], b);
    }
  }

  /** The line has one field more than it has separators. */
  lemma {:induction false} ParseFieldCount(rest: string, inQuotes: bool, field: string)
    ensures |ParseFrom(rest, inQuotes, field)| == 1 + SeparatorCount(rest, inQuotes)
    decreases |rest|
  {
    if rest == [] {
    } else if rest[0] == '"' {
      if inQuotes && |rest| > 1 && rest[1] == '"' {
        ParseFieldCount(rest[2..], inQuotes, field + ['"']);
      } else {
        ParseFieldCount(rest[1..], !inQuotes, field);
      }
    } else if rest[0] == '\\' {
      if |rest| > 1 {
        ParseFieldCount(rest[2..], inQuotes, field + rest[..2]);
      } else {
        ParseFieldCount(rest[1..], inQuotes, field + ['\\']);
      }
    } else if rest[0] == ',' && !inQuotes {
      ParseFieldCount(rest[1..], false, []);
    } else {
      ParseFieldCount(rest[1..], inQuotes, field + [rest[0]]);
    }
  }

  /** Every character of the line lands in exactly one field or is dropped,
      so the fields together are never longer than the line. */
  lemma {:induction false} ParseLength(rest: string, inQuotes: bool, field: string)
    ensures TotalLength(ParseFrom(rest, inQuotes, field)) == |field| + |rest| - Dropped(rest, inQuotes)
    decreases |rest|
  {
    if rest == [] {
    } else if rest[0] == '"' {
      if inQuotes && |rest| > 1 && rest[1] == '"' {
        ParseLength(rest[2..], inQuotes, field + ['"']);
      } else {
        ParseLength(rest[1..], !inQuotes, field);
      }
    } else if rest[0] == '\\' {
      if |rest| > 1 {
        ParseLength(rest[2..], inQuotes, field + rest[..2]);
      } else {
        ParseLength(rest[1..], inQuotes, field + ['\\']);
      }
    } else if rest[0] == ',' && !inQuotes {
      var tail := ParseFrom(rest[1..], false, []);
      ParseLength(rest[1..], false, []);
      TotalLengthAppend([field], tail);
    } else {
      ParseLength(rest[1..], inQuotes, field + [rest[0]]);
    }
  }
}
