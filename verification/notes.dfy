/** `processNoteText` and `extractNoteText`, in their three forms:
    - MarkerFirst (assets/js/core/csv-worker.js, script.js): the note is cut
      out of the raw line after the `"转账备注:` marker when there is one, and
      at most one trailing quote is removed;
    - MarkerWithFallback (optimized-functions.js): the same, but the enclosing
      quotes are stripped by a regular expression and a marker without an end
      falls back to the positional rules;
    - RecipientMerge (assets/js/core/script.js, assets/js/utils/csv-processor.js):
      the raw line is ignored, a transfer's recipient is merged into its note,
      and ASCII commas become full-width ones. */
module Notes {
  import opened JsString
  import Serializer

  datatype NoteRule = MarkerFirst | MarkerWithFallback | RecipientMerge

  /** `s.replace(/""/g, '"')`: pairs of quotes, found left to right without
      overlapping, become one quote. Only quote characters are removed. */
  function CollapseQuotes(s: string): (r: string)
    ensures |r| <= |s|
    ensures RemoveChar(r, '"') == RemoveChar(s, '"')
    decreases |s|
  {
    if |s| >= 2 && s[0] == '"' && s[1] == '"' then
      assert RemoveChar(s, '"') == RemoveChar(s[2..], '"') by {
        assert s[1..][1..] == s[2..];
      }
      ['"'] + CollapseQuotes(s[2..])
    else if s == [] then []
    else [s[0]] + CollapseQuotes(s[1..])
  }

  /** Collapsing undoes the quote doubling that formatting applies. */
  lemma {:induction false} CollapseDoubled(x: string)
    ensures CollapseQuotes(Serializer.DoubleQuotes(x)) == x
  {
    if x != [] {
      var d := Serializer.DoubleQuotes(x[1..]);
      CollapseDoubled(x[1..]);
      if x[0] == '"' {
        assert Serializer.DoubleQuotes(x) == "\"\"" + d;
        CollapsePair(d);
      } else {
        assert Serializer.DoubleQuotes(x) == [x[0]] + d;
        CollapseCons(x[0], d);
      }
      assert [x[0]] + x[1..] == x;
    }
  }

  /** A doubled quote becomes one quote. */
  lemma CollapsePair(d: string)
    ensures CollapseQuotes("\"\"" + d) == ['"'] + CollapseQuotes(d)
  {
    assert ("\"\"" + d)[2..] == d;
  }

  /** `s.replace(/<lead>(.)/g, '<lead>$1')` with `lead` one backslash (the worker
      files) or two (optimized-functions.js): every match is rewritten to
      itself, so the text is unchanged. */
  function ReplaceEscapes(s: string, lead: string): (r: string)
    ensures r == s
    decreases |s|
  {
    if |s| > |lead| && s[..|lead|] == lead && !IsLineTerminator(s[|lead|]) then
      assert s == s[..|lead|] + [s[|lead|]] + s[|lead| + 1..];
      lead + [s[|lead|]] + ReplaceEscapes(s[|lead| + 1..], lead)
    else if s == [] then []
    else
      assert s == [s[0]] + s[1..];
      [s[0]] + ReplaceEscapes(s[1..], lead)
  }

  /** `s.replace(/"$/g, '')`: removes one quote at the very end, if there is one. */
  function DropTrailingQuote(s: string): (r: string)
    ensures |r| <= |s| && r == s[..|r|]
    ensures |r| < |s| <==> s != [] && s[|s| - 1] == '"'
    ensures |s| - 1 <= |r|
    ensures RemoveChar(r, '"') == RemoveChar(s, '"')
  {
    if s != [] && s[|s| - 1] == '"' then
      var r := s[..|s| - 1];
      assert s == r + ['"'];
      RemoveCharAppend(r, ['"'], '"');
      r
    else s
  }

  /** `if (text.startsWith('"') && text.endsWith('"')) text = text.substring(1, text.length - 1)`. */
  function StripQuotes(text: string): (r: string)
    ensures |r| <= |text|
    ensures |text| >= 2 && text[0] == '"' && text[|text| - 1] == '"' ==> r == text[1..|text| - 1]
    ensures !(|text| >= 2 && text[0] == '"' && text[|text| - 1] == '"') ==> r == text
    ensures RemoveChar(r, '"') == RemoveChar(text, '"')
  {
    if |text| >= 1 && text[0] == '"' && text[|text| - 1] == '"' then
      EnclosingQuotesRemoved(text);
      Substring(text, 1, |text| - 1)
    else text
  }

  /** Cutting the enclosing quotes of a quoted text removes no other
      character; a lone quote is kept whole. */
  lemma EnclosingQuotesRemoved(text: string)
    requires |text| >= 1 && text[0] == '"' && text[|text| - 1] == '"'
    ensures |text| >= 2 ==> Substring(text, 1, |text| - 1) == text[1..|text| - 1]
    ensures |text| == 1 ==> Substring(text, 1, |text| - 1) == text
    ensures RemoveChar(Substring(text, 1, |text| - 1), '"') == RemoveChar(text, '"')
  {
    if |text| >= 2 {
      var r := text[1..|text| - 1];
      assert text == ['"'] + r + ['"'];
      RemoveCharAppend(['"'] + r, ['"'], '"');
      RemoveCharAppend(['"'], r, '"');
    }
  }

  /** `text.replace(/^"(.*)"$/, '$1')`: the regular expression needs two
      enclosing quotes and no line terminator between them. */
  function StripQuotesRegex(text: string): (r: string)
    ensures |r| <= |text|
    ensures |text| >= 2 && text[0] == '"' && text[|text| - 1] == '"' && HasNoLineTerminator(text)
      ==> r == text[1..|text| - 1]
    ensures !(|text| >= 2 && text[0] == '"' && text[|text| - 1] == '"' && HasNoLineTerminator(text))
      ==> r == text
  {
    if |text| >= 2 && text[0] == '"' && text[|text| - 1] == '"'
      && HasNoLineTerminator(text[1..|text| - 1])
    then text[1..|text| - 1]
    else text
  }

  /** The empty note and the placeholder `/` are returned as they are. */
  predicate Untouched(text: string) {
    text == [] || text == "/"
  }

  /** processNoteText of the MarkerFirst files: the empty note and `/` are
      kept; otherwise only quote characters are removed. */
  function NormaliseV1(text: string): (r: string)
    ensures Untouched(text) ==> r == text
    ensures |r| <= |text|
    ensures RemoveChar(r, '"') == RemoveChar(text, '"')
  {
    if Untouched(text) then text
    else DropTrailingQuote(ReplaceEscapes(CollapseQuotes(StripQuotes(text)), "\\"))
  }

  /** processNoteText of optimized-functions.js. */
  function NormaliseRegex(text: string): (r: string)
    ensures Untouched(text) ==> r == text
    ensures |r| <= |text|
  {
    if Untouched(text) then text
    else DropTrailingQuote(ReplaceEscapes(CollapseQuotes(StripQuotesRegex(text)), "\\\\"))
  }

  /** processNoteText of the RecipientMerge files. */
  function NormaliseV2(text: string): (r: string)
    ensures Untouched(text) ==> r == text
    ensures |r| <= |text|
    ensures ',' !in r
  {
    if Untouched(text) then text
    else ReplaceChar(ReplaceEscapes(CollapseQuotes(StripQuotes(text)), "\\"), ',', '，')
  }

  function Normalise(rule: NoteRule, text: string): (r: string)
    ensures Untouched(text) ==> r == text
    ensures |r| <= |text|
  {
    match rule
    case MarkerFirst => NormaliseV1(text)
    case MarkerWithFallback => NormaliseRegex(text)
    case RecipientMerge => NormaliseV2(text)
  }

  /** MarkerFirst normalisation only ever removes quote characters: every
      other character, commas included, is kept in order. */
  lemma NormaliseV1RemovesOnlyQuotes(text: string)
    ensures RemoveChar(NormaliseV1(text), '"') == RemoveChar(text, '"')
    ensures CountChar(NormaliseV1(text), ',') == CountChar(text, ',')
  {
    var r := NormaliseV1(text);
    CountOtherChar(r, '"', ',');
    CountOtherChar(text, '"', ',');
  }

  lemma {:induction false} CountOtherChar(s: string, q: char, c: char)
    requires q != c
    ensures CountChar(RemoveChar(s, q), c) == CountChar(s, c)
  {
    if s != [] {
      var tail := RemoveChar(s[1..], q);
      CountOtherChar(s[1..], q, c);
      if s[0] == q {
        assert RemoveChar(s, q) == [] + tail;
        assert [] + tail == tail;
        assert CountChar(s, c) == CountChar(s[1..], c);
      } else {
        var r := [s[0]] + tail;
        assert RemoveChar(s, q) == r;
        assert r[0] == s[0] && r[1..] == tail;
        assert CountChar(r, c) == (if s[0] == c then 1 else 0) + CountChar(tail, c);
      }
    }
  }

  /** On text without line terminators the regular expression strips exactly
      what startsWith/endsWith/substring strip, so the two normalisers agree;
      a lone `"` survives both strips and is emptied by the trailing-quote
      removal in both. */
  lemma NormaliseRegexAgrees(text: string)
    requires HasNoLineTerminator(text)
    ensures NormaliseRegex(text) == NormaliseV1(text)
  {
    if |text| == 1 && text[0] == '"' {
      assert StripQuotes(text) == text;
    }
  }

  /** With a line terminator inside the quotes the two differ: the regular
      expression keeps the quotes, of which the trailing-quote removal then
      takes only the last. */
  lemma NormaliseRegexKeepsQuotesAcrossLineBreak(c: char)
    requires IsLineTerminator(c)
    ensures NormaliseV1(['"', c, '"']) == [c]
    ensures NormaliseRegex(['"', c, '"']) == ['"', c]
  {
    var t := ['"', c, '"'];
    assert !Untouched(t) by {
      assert t[0] != '/';
    }
    StripQuotesAroundBreak(c);
    CollapseAroundBreak(c);
    assert DropTrailingQuote(t) == ['"', c];
  }

  lemma StripQuotesAroundBreak(c: char)
    requires IsLineTerminator(c)
    ensures StripQuotes(['"', c, '"']) == [c]
    ensures StripQuotesRegex(['"', c, '"']) == ['"', c, '"']
  {
    var t := ['"', c, '"'];
    assert t[1..|t| - 1] == [c];
    assert !HasNoLineTerminator(t) by {
      assert IsLineTerminator(t[1]);
    }
  }

  lemma CollapseAroundBreak(c: char)
    requires IsLineTerminator(c)
    ensures CollapseQuotes([c]) == [c]
    ensures CollapseQuotes(['"', c, '"']) == ['"', c, '"']
  {
    CollapseSingle(c);
    CollapseTail(c);
    CollapseCons('"', [c, '"']);
    assert ['"'] + [c, '"'] == ['"', c, '"'];
  }

  lemma CollapseSingle(c: char)
    ensures CollapseQuotes([c]) == [c]
  {
    CollapseCons(c, []);
    assert [c] + [] == [c];
  }

  lemma CollapseTail(c: char)
    requires c != '"'
    ensures CollapseQuotes([c, '"']) == [c, '"']
  {
    CollapseSingle('"');
    CollapseCons(c, ['"']);
    assert [c] + ['"'] == [c, '"'];
  }

  /** A character that does not start a doubled quote is copied. */
  lemma CollapseCons(x: char, s: string)
    requires x != '"' || s == [] || s[0] != '"'
    ensures CollapseQuotes([x] + s) == [x] + CollapseQuotes(s)
  {
    assert ([x] + s)[1..] == s;
  }

  /** MarkerFirst normalisation undoes formatting of a field that does not end
      in a quote (a trailing quote is lost to the trailing-quote removal). */
  lemma NormaliseV1InvertsFormat(x: string)
    requires x == [] || x[|x| - 1] != '"'
    ensures NormaliseV1(Serializer.FormatCsvField(x)) == x
  {
    var f := Serializer.FormatCsvField(x);
    if Serializer.NeedsQuoting(x) {
      var d := Serializer.DoubleQuotes(x);
      assert f == "\"" + d + "\"";
      assert f[0] == '"' && f[|f| - 1] == '"';
      assert !Untouched(f) by {
        assert f != [] && f[0] != '/';
      }
      assert StripQuotes(f) == d by {
        assert f[1..|f| - 1] == d;
      }
      CollapseDoubled(x);
      assert DropTrailingQuote(x) == x;
    } else if !Untouched(x) {
      assert f == x;
      CollapseUnquoted(x);
      assert StripQuotes(x) == x by {
        assert x[0] != '"';
      }
      assert DropTrailingQuote(x) == x;
    }
  }

  /** RecipientMerge normalisation undoes formatting, with every ASCII comma
      turned full-width. */
  lemma NormaliseV2InvertsFormat(x: string)
    ensures NormaliseV2(Serializer.FormatCsvField(x)) == ReplaceChar(x, ',', '，')
  {
    if Serializer.NeedsQuoting(x) {
      NormaliseV2InvertsQuoted(x);
    } else if Untouched(x) {
      if x == "/" {
        assert ReplaceChar(x, ',', '，') == "/";
      }
    } else {
      CollapseUnquoted(x);
      ReplaceCharAbsent(x, ',', '，');
    }
  }

  lemma NormaliseV2InvertsQuoted(x: string)
    requires Serializer.NeedsQuoting(x)
    ensures NormaliseV2(Serializer.FormatCsvField(x)) == ReplaceChar(x, ',', '，')
  {
    var f := Serializer.FormatCsvField(x);
    var d := Serializer.DoubleQuotes(x);
    assert f == "\"" + d + "\"";
    assert f[1..|f| - 1] == d;
    CollapseDoubled(x);
    assert !Untouched(f);
  }

  lemma {:induction false} CollapseUnquoted(s: string)
    requires '"' !in s
    ensures CollapseQuotes(s) == s
  {
    if s != [] {
      CollapseUnquoted(s[1..]);
    }
  }

  lemma {:induction false} ReplaceCharAbsent(s: string, c: char, d: char)
    requires c !in s
    ensures ReplaceChar(s, c, d) == s
  {
    if s != [] {
      ReplaceCharAbsent(s[1..], c, d);
    }
  }

  /** The opening of a note field in the raw line. */
  const CommentMarker: string := "\"转账备注:"

  /** The candidate ends of a note field, tried in this order. */
  const EndMarkers: seq<string> := ["\",\"收入\"", "\","]

  /** The first marker, in list order, that occurs at or after `start`: its
      position, or -1 when none does. */
  function MarkerHit(line: string, markers: seq<string>, start: nat): (r: int)
    ensures r == -1 || (start <= r && exists k :: 0 <= k < |markers| && OccursAt(line, markers[k], r))
    ensures r == -1 <==> forall k :: 0 <= k < |markers| ==> IndexOf(line, markers[k], start) == -1
    ensures r != -1 ==> exists k :: (0 <= k < |markers| && r == IndexOf(line, markers[k], start)
      && forall j :: 0 <= j < k ==> IndexOf(line, markers[j], start) == -1)
  {
    if markers == [] then -1
    else
      var p := IndexOf(line, markers[0], start);
      if p != -1 then p
      else
        var r := MarkerHit(line, markers[1..], start);
        assert forall k :: 1 <= k < |markers| ==> markers[k] == markers[1..][k - 1];
        MarkerHitShift(line, markers, start, r);
        r
  }

  /** The first hit among the later markers, after a first marker that does
      not occur, is the first hit among all of them. */
  lemma MarkerHitShift(line: string, markers: seq<string>, start: nat, r: int)
    requires markers != [] && IndexOf(line, markers[0], start) == -1
    requires r != -1 ==> exists k :: (0 <= k < |markers[1..]| && r == IndexOf(line, markers[1..][k], start)
      && forall j :: 0 <= j < k ==> IndexOf(line, markers[1..][j], start) == -1)
    ensures r != -1 ==> exists k :: (0 <= k < |markers| && r == IndexOf(line, markers[k], start)
      && forall j :: 0 <= j < k ==> IndexOf(line, markers[j], start) == -1)
  {
    if r != -1 {
      var k :| 0 <= k < |markers[1..]| && r == IndexOf(line, markers[1..][k], start)
        && forall j :: 0 <= j < k ==> IndexOf(line, markers[1..][j], start) == -1;
      assert markers[1..][k] == markers[k + 1];
      forall j | 0 <= j < k + 1 ensures IndexOf(line, markers[j], start) == -1 {
        if j > 0 {
          assert markers[j] == markers[1..][j - 1];
        }
      }
    }
  }

  /** The end of the note field that opens at `start`. */
  function CommentEnd(line: string, start: nat): int {
    MarkerHit(line, EndMarkers, start)
  }

  /** The end is chosen by list order, not by position: the first `","收入"`
      when there is one, else the first `",`. It is the index of the note's
      closing quote, and there is none exactly when no `",` follows `start`. */
  lemma CommentEndChoice(line: string, start: nat)
    ensures var e1 := IndexOf(line, EndMarkers[0], start);
      CommentEnd(line, start) == if e1 != -1 then e1 else IndexOf(line, EndMarkers[1], start)
    ensures CommentEnd(line, start) == -1 <==> IndexOf(line, "\",", start) == -1
    ensures CommentEnd(line, start) != -1 ==>
      start <= CommentEnd(line, start) && OccursAt(line, "\",", CommentEnd(line, start))
  {
    var e1 := IndexOf(line, EndMarkers[0], start);
    var e2 := IndexOf(line, EndMarkers[1], start);
    assert EndMarkers[1] == "\",";
    assert MarkerHit(line, EndMarkers[1..], start) == e2 by {
      assert EndMarkers[1..][0] == EndMarkers[1];
      assert EndMarkers[1..][1..] == [];
    }
    assert CommentEnd(line, start) == if e1 != -1 then e1 else e2;
    if e1 != -1 {
      assert line[e1..e1 + |EndMarkers[0]|] == EndMarkers[0];
      assert EndMarkers[0][..2] == "\",";
      assert line[e1..e1 + 2] == line[e1..e1 + |EndMarkers[0]|][..2];
      assert OccursAt(line, "\",", e1);
      assert IndexOf(line, "\",", start) != -1;
    }
  }

  /** The marker loop of extractNoteText: the markers are tried in order and
      the loop stops at the first one found. */
  method FindCommentEnd(line: string, start: nat) returns (commentEnd: int)
    ensures commentEnd == CommentEnd(line, start)
  {
    commentEnd := -1;
    for k := 0 to |EndMarkers|
      invariant commentEnd == -1
      invariant MarkerHit(line, EndMarkers, start) == MarkerHit(line, EndMarkers[k..], start)
    {
      assert EndMarkers[k..][1..] == EndMarkers[k + 1..];
      assert EndMarkers[k..][0] == EndMarkers[k];
      var endPos := IndexOf(line, EndMarkers[k], start);
      if endPos != -1 {
        commentEnd := endPos;
        return;
      }
    }
    assert EndMarkers[|EndMarkers|..] == [];
  }

  /** The positional rules: a transfer's note is in column 4, any other
      record's in column 11. */
  function FieldNote(rule: NoteRule, fields: seq<string>): (r: string)
    ensures |fields| > 3 && fields[1] == "转账" ==> r == Normalise(rule, fields[3])
    ensures |fields| > 3 && fields[1] == "转账" ==> |r| <= |fields[3]|
    ensures !(|fields| > 3 && fields[1] == "转账") && |fields| > 10 ==> r == Normalise(rule, fields[10])
    ensures !(|fields| > 3 && fields[1] == "转账") && |fields| > 10 ==> |r| <= |fields[10]|
    ensures !(|fields| > 3 && fields[1] == "转账") && |fields| <= 10 ==> r == ""
  {
    if |fields| > 3 && fields[1] == "转账" then Normalise(rule, fields[3])
    else if |fields| > 10 then Normalise(rule, fields[10])
    else ""
  }

  /** The RecipientMerge rule: a transfer's note names the recipient. */
  function MergedNote(fields: seq<string>): (r: string)
    ensures ',' !in r
    ensures !(|fields| > 3 && fields[1] == "转账") && |fields| > 10 ==> r == NormaliseV2(fields[10])
    ensures !(|fields| > 3 && fields[1] == "转账") && |fields| <= 10 ==> r == ""
  {
    if |fields| > 3 && fields[1] == "转账" then
      var recipient := NormaliseV2(fields[2]);
      var comment := NormaliseV2(fields[3]);
      if recipient != [] then "转给" + recipient + "，" + comment else comment
    else if |fields| > 10 then NormaliseV2(fields[10])
    else ""
  }

  /** Where the note of the trimmed line `t` opens, or -1. */
  function CommentStart(t: string): int {
    IndexOf(t, CommentMarker, 0)
  }

  /** The span from the opening quote of the marker to the closing quote. */
  function CommentSpan(t: string, start: int, end: int): string {
    Substring(t, start, end + 1)
  }

  /** extractNoteText of each rule, as a function of the line and its fields:
      RecipientMerge reads only the fields; the marker rules cut the note out
      of the trimmed line, and differ when the marker has no end after it. */
  function ExtractNote(rule: NoteRule, line: string, fields: seq<string>): string {
    if rule == RecipientMerge then MergedNote(fields)
    else
      var t := Trim(line);
      var start := CommentStart(t);
      if start == -1 then FieldNote(rule, fields)
      else
        var end := CommentEnd(t, start);
        if end == -1 then (if rule == MarkerFirst then "" else FieldNote(rule, fields))
        else Normalise(rule, CommentSpan(t, start, end))
  }

  /** extractNoteText with its marker loop. */
  method ExtractNoteText(rule: NoteRule, line: string, fields: seq<string>) returns (note: string)
    ensures note == ExtractNote(rule, line, fields)
  {
    if rule == RecipientMerge {
      return MergedNote(fields);
    }
    var t := Trim(line);
    var start := IndexOf(t, CommentMarker, 0);
    if start == -1 {
      return FieldNote(rule, fields);
    }
    var end := FindCommentEnd(t, start);
    if end == -1 {
      note := if rule == MarkerFirst then "" else FieldNote(rule, fields);
    } else {
      var span := Substring(t, start, end + 1);
      note := Normalise(rule, span);
    }
  }

  /** The note span runs from the marker's opening quote to the closing quote
      just before the end marker's comma. */
  lemma CommentSpanShape(t: string)
    requires CommentStart(t) != -1 && CommentEnd(t, CommentStart(t)) != -1
    ensures var start := CommentStart(t);
      var end := CommentEnd(t, start);
      var span := CommentSpan(t, start, end);
      && span == t[start..end + 1]
      && |span| >= 2 && span[0] == '"' && span[|span| - 1] == '"'
  {
    var start := CommentStart(t);
    CommentEndCloses(t, start);
    SpanShape(t, start, CommentEnd(t, start));
  }

  /** The part of CommentEndChoice that CommentSpanShape needs. */
  lemma CommentEndCloses(t: string, start: nat)
    requires CommentEnd(t, start) != -1
    ensures start <= CommentEnd(t, start) && OccursAt(t, "\",", CommentEnd(t, start))
  {
    CommentEndChoice(t, start);
  }

  lemma SpanShape(t: string, start: int, end: int)
    requires 0 <= start <= end && OccursAt(t, CommentMarker, start) && OccursAt(t, "\",", end)
    ensures var span := CommentSpan(t, start, end);
      && span == t[start..end + 1]
      && |span| >= 2 && span[0] == '"' && span[|span| - 1] == '"'
  {
    MarkerOpens(t, start);
    EndCloses(t, end);
    assert start < end;
  }

  lemma MarkerOpens(t: string, start: int)
    requires OccursAt(t, CommentMarker, start)
    ensures start + 1 < |t| && t[start] == '"' && t[start + 1] == '转'
  {
    assert t[start..start + |CommentMarker|] == CommentMarker;
    assert CommentMarker[0] == '"' && CommentMarker[1] == '转';
    assert t[start] == CommentMarker[0] && t[start + 1] == CommentMarker[1];
  }

  lemma EndCloses(t: string, end: int)
    requires OccursAt(t, "\",", end)
    ensures end + 1 < |t| && t[end] == '"' && t[end + 1] == ','
  {
    assert t[end..end + 2] == "\",";
    assert t[end] == t[end..end + 2][0] && t[end + 1] == t[end..end + 2][1];
  }

  /** MarkerFirst: a marker with no end after it gives the empty note,
      whatever the fields say. */
  lemma UnterminatedMarkerGivesEmpty(line: string, fields: seq<string>)
    requires var t := Trim(line);
      CommentStart(t) != -1 && IndexOf(t, "\",", CommentStart(t)) == -1
    ensures ExtractNote(MarkerFirst, line, fields) == ""
    ensures ExtractNote(MarkerWithFallback, line, fields) == FieldNote(MarkerWithFallback, fields)
  {
    var t := Trim(line);
    CommentEndChoice(t, CommentStart(t));
  }

  /** The two marker rules pick the same source text and, on text without
      line terminators, produce the same note, except for a marker without an
      end, where only MarkerWithFallback reads the fields. */
  lemma MarkerRulesAgree(line: string, fields: seq<string>)
    requires HasNoLineTerminator(line)
    requires forall i :: 0 <= i < |fields| ==> HasNoLineTerminator(fields[i])
    requires var t := Trim(line);
      CommentStart(t) == -1 || IndexOf(t, "\",", CommentStart(t)) != -1
    ensures ExtractNote(MarkerWithFallback, line, fields) == ExtractNote(MarkerFirst, line, fields)
  {
    var t := Trim(line);
    var start := CommentStart(t);
    if start == -1 {
      FieldNotesAgree(fields);
    } else {
      CommentEndChoice(t, start);
      SpanNotesAgree(line);
    }
  }

  lemma FieldNotesAgree(fields: seq<string>)
    requires forall i :: 0 <= i < |fields| ==> HasNoLineTerminator(fields[i])
    ensures FieldNote(MarkerWithFallback, fields) == FieldNote(MarkerFirst, fields)
  {
    if |fields| > 3 && fields[1] == "转账" {
      NormaliseRegexAgrees(fields[3]);
    } else if |fields| > 10 {
      NormaliseRegexAgrees(fields[10]);
    }
  }

  lemma SpanNotesAgree(line: string)
    requires HasNoLineTerminator(line)
    requires CommentStart(Trim(line)) != -1
    requires CommentEnd(Trim(line), CommentStart(Trim(line))) != -1
    ensures var t := Trim(line);
      var start := CommentStart(t);
      var span := CommentSpan(t, start, CommentEnd(t, start));
      NormaliseRegex(span) == NormaliseV1(span)
  {
    var t := Trim(line);
    TrimKeepsLineFree(line);
    var start := CommentStart(t);
    var end := CommentEnd(t, start);
    CommentSpanShape(t);
    SliceLineFree(t, start, end + 1);
    NormaliseRegexAgrees(CommentSpan(t, start, end));
  }

  lemma SliceLineFree(t: string, i: int, j: int)
    requires 0 <= i <= j <= |t| && HasNoLineTerminator(t)
    ensures HasNoLineTerminator(t[i..j])
  {
    forall k | 0 <= k < j - i ensures !IsLineTerminator(t[i..j][k]) {
      assert t[i..j][k] == t[i + k];
    }
  }

  /** A RecipientMerge transfer note: `转给` + recipient + `，` + comment when
      the recipient is not empty, else the comment alone. */
  lemma MergedTransferNote(fields: seq<string>)
    requires |fields| > 3 && fields[1] == "转账"
    ensures NormaliseV2(fields[2]) != [] ==>
      MergedNote(fields) == "转给" + NormaliseV2(fields[2]) + "，" + NormaliseV2(fields[3])
    ensures NormaliseV2(fields[2]) == [] ==> MergedNote(fields) == NormaliseV2(fields[3])
  {
  }
}
