/** `categorizeRecords` of the three worker revisions: every non-blank line of
    the bill becomes one transfer line or one transaction line, with the
    columns moved into the layout of the bookkeeping import, and a progress
    message is posted every tenth of the way. */
module Categorizer {
  import opened JsString
  import opened Tokenizer
  import opened Serializer
  import opened Notes
  import opened Accounts

  /** The worker revisions:
      - WorkerFile: assets/js/core/csv-worker.js (MarkerFirst notes, amount
        copied raw, rows trimmed);
      - EmbeddedV2: the worker text of assets/js/core/script.js and
        assets/js/utils/csv-processor.js (RecipientMerge notes, `¥` removed
        from the amount, rows trimmed);
      - RootScript: the worker text of script.js (MarkerFirst notes, amount
        copied raw, transaction rows not trimmed). */
  datatype Revision = WorkerFile | EmbeddedV2 | RootScript

  function NoteRuleOf(rev: Revision): NoteRule {
    if rev == EmbeddedV2 then RecipientMerge else MarkerFirst
  }

  /** The line pushed for a transfer-shaped line too short to be a transfer. */
  const TransferHeaderLine: string := "日期,转出账户,转入账户,金额,手续费,备注"

  /** The ledger every transaction is booked to. */
  const Ledger: string := "账本"

  /** `s.replace(/¥/g, "")`: every `¥` goes and nothing else does, so an
      amount without one is kept as it is. */
  function StripYen(s: string): (r: string)
    ensures '¥' !in r
    ensures |r| == |s| - CountChar(s, '¥')
    ensures '¥' !in s ==> r == s
  {
    if '¥' !in s then
      RemoveCharAbsent(s, '¥');
      RemoveChar(s, '¥')
    else RemoveChar(s, '¥')
  }

  /** `fields.length > i ? fields[i] : ""`. */
  function Column(fields: seq<string>, i: nat): string {
    if |fields| > i then fields[i] else ""
  }

  /** The fifth column of a transfer holds `/` (the income/expense column
      reads `/` for money moved between one's own accounts). */
  predicate IsTransferShaped(fields: seq<string>) {
    |fields| > 4 && Contains(fields[4], "/")
  }

  /** The six columns of a transfer: date, from-account, to-account, amount,
      fee, note. */
  function TransferFields(fields: seq<string>): (r: seq<string>)
    requires |fields| > 6
    ensures |r| == 6 && r[4] == "" && r[5] == ""
  {
    [fields[0], fields[6], ProcessTransferInAccount(fields[1]), StripYen(fields[5]), "", ""]
  }

  /** The income/expense type and the amount of a transaction. EmbeddedV2
      computes them in two arms, for transfers and for everything else. */
  function IncomeAndAmount(rev: Revision, fields: seq<string>): (string, string) {
    match rev
    case EmbeddedV2 =>
      if |fields| > 1 && fields[1] == "转账" && |fields| > 4 then
        (fields[4], if |fields| > 5 then StripYen(fields[5]) else "")
      else
        (Column(fields, 4), if |fields| > 5 then StripYen(fields[5]) else "")
    case _ => (Column(fields, 4), Column(fields, 5))
  }

  /** The two arms of EmbeddedV2 agree: the type is column 5 and the amount is
      column 6 without `¥`; the other revisions copy the amount as it is. */
  lemma IncomeAndAmountColumns(rev: Revision, fields: seq<string>)
    ensures IncomeAndAmount(rev, fields).0 == Column(fields, 4)
    ensures rev == EmbeddedV2 ==> IncomeAndAmount(rev, fields).1 == StripYen(Column(fields, 5))
    ensures rev != EmbeddedV2 ==> IncomeAndAmount(rev, fields).1 == Column(fields, 5)
  {
    if rev == EmbeddedV2 && |fields| <= 5 {
      assert StripYen("") == "";
    }
  }

  /** The nine columns of a transaction: date, type, amount, category,
      subcategory, ledger, account, note, tag. */
  function TransactionFields(rev: Revision, fields: seq<string>, note: string): (r: seq<string>)
    requires |fields| >= 1
    ensures |r| == 9 && r[5] == Ledger && r[7] == note && r[8] == ""
  {
    var ia := IncomeAndAmount(rev, fields);
    [fields[0], ia.0, ia.1, "", "", Ledger, Column(fields, 6), note, ""]
  }

  /** The index of the last non-empty entry, or -1. */
  function LastNonEmpty(a: seq<string>): (r: int)
    ensures -1 <= r < |a|
    ensures r == -1 || a[r] != ""
    ensures forall j :: r < j < |a| ==> a[j] == ""
  {
    if a == [] then -1
    else if a[|a| - 1] != "" then |a| - 1
    else LastNonEmpty(a[..|a| - 1])
  }

  /** The loop that walks back over trailing empty entries. */
  method LastNonEmptyIndex(a: seq<string>) returns (idx: int)
    ensures idx == LastNonEmpty(a)
  {
    idx := |a| - 1;
    while idx >= 0 && a[idx] == ""
      invariant -1 <= idx < |a|
      invariant forall j :: idx < j < |a| ==> a[j] == ""
      invariant LastNonEmpty(a) == LastNonEmpty(a[..idx + 1])
      decreases idx
    {
      assert a[..idx + 1][..idx] == a[..idx];
      idx := idx - 1;
    }
    if idx >= 0 {
      assert a[..idx + 1][idx] == a[idx];
    } else {
      assert a[..idx + 1] == [];
    }
  }

  /** `.slice(0, Math.max(7, lastNonEmptyIndex) + 1)`: the row cut after its
      last non-empty entry, but never shorter than eight entries. */
  function KeptFields(a: seq<string>): (r: seq<string>)
    ensures var keep := if LastNonEmpty(a) > 7 then LastNonEmpty(a) + 1 else 8;
      |r| == (if |a| < keep then |a| else keep)
    ensures r == a[..|r|]
    ensures forall j :: |r| <= j < |a| ==> a[j] == ""
  {
    var last := if LastNonEmpty(a) > 7 then LastNonEmpty(a) else 7;
    var n := if |a| < last + 1 then |a| else last + 1;
    a[..n]
  }

  /** Rows of up to eight entries are never shortened. */
  lemma KeepsShortRows(a: seq<string>)
    requires |a| <= 8
    ensures KeptFields(a) == a
  {
  }

  /** A transaction row always keeps exactly its first eight entries: the
      ledger makes entry 6 non-empty and the tag is always empty. */
  lemma TransactionRowHasEightFields(rev: Revision, fields: seq<string>, note: string)
    requires |fields| >= 1
    ensures var row := TransactionFields(rev, fields, note);
      KeptFields(row) == row[..8]
  {
    var row := TransactionFields(rev, fields, note);
    assert row[5] != "";
    assert 5 <= LastNonEmpty(row) <= 7;
  }

  /** What a line turns into. */
  datatype Output = Skip | ToTransfers(line: string) | ToTransactions(line: string)

  /** The transfer line of a transfer-shaped line: the trim keeps all six
      columns, and a line too short to be a transfer gives the header. */
  function TransferLine(fields: seq<string>): (r: string)
    ensures |fields| <= 6 ==> r == TransferHeaderLine
    ensures |fields| > 6 ==> r == SerializeRow(TransferFields(fields))
  {
    if |fields| > 6 then
      KeepsShortRows(TransferFields(fields));
      SerializeRow(KeptFields(TransferFields(fields)))
    else TransferHeaderLine
  }

  /** The transaction line of any other non-blank line: the trimming
      revisions write its first eight columns, RootScript all nine. */
  function TransactionLine(rev: Revision, line: string, fields: seq<string>): (r: string)
    requires |fields| >= 1
    ensures var row := TransactionFields(rev, fields, ExtractNote(NoteRuleOf(rev), line, fields));
      rev != RootScript ==> r == SerializeRow(row[..8])
    ensures var row := TransactionFields(rev, fields, ExtractNote(NoteRuleOf(rev), line, fields));
      rev == RootScript ==> r == SerializeRow(row)
    ensures rev == RootScript ==> |r| >= 1 && r[|r| - 1] == ','
  {
    var row := TransactionFields(rev, fields, ExtractNote(NoteRuleOf(rev), line, fields));
    if rev == RootScript then
      JoinEndsWithEmpty(FormatAll(row));
      SerializeRow(row)
    else
      TransactionRowHasEightFields(rev, fields, ExtractNote(NoteRuleOf(rev), line, fields));
      SerializeRow(KeptFields(row))
  }

  /** One step of the forEach: blank lines are skipped, transfer-shaped lines
      go to the transfers, every other line to the transactions. */
  function Categorize(rev: Revision, line: string): (r: Output)
    ensures r.Skip? <==> IsBlank(line)
    ensures r.ToTransfers? <==> !IsBlank(line) && IsTransferShaped(ParseLine(line))
    ensures r.ToTransactions? <==> !IsBlank(line) && !IsTransferShaped(ParseLine(line))
  {
    TrimEmptyIffBlank(line);
    if Trim(line) == [] then Skip
    else
      var fields := ParseLine(line);
      if IsTransferShaped(fields) then ToTransfers(TransferLine(fields))
      else ToTransactions(TransactionLine(rev, line, fields))
  }

  /** What one output adds to the transfer list. */
  function TransferPart(out: Output): seq<string> {
    if out.ToTransfers? then [out.line] else []
  }

  /** What one output adds to the transaction list. */
  function TransactionPart(out: Output): seq<string> {
    if out.ToTransactions? then [out.line] else []
  }

  /** The output of every line, in input order. */
  function OutputsOf(rev: Revision, lines: seq<string>): (r: seq<Output>)
    ensures |r| == |lines|
  {
    seq(|lines|, i requires 0 <= i < |lines| => Categorize(rev, lines[i]))
  }

  /** The transfer lines among `outs`, in order. */
  function TransferLines(outs: seq<Output>): seq<string> {
    if outs == [] then []
    else TransferLines(outs[..|outs| - 1]) + TransferPart(outs[|outs| - 1])
  }

  /** The transaction lines among `outs`, in order. */
  function TransactionLines(outs: seq<Output>): seq<string> {
    if outs == [] then []
    else TransactionLines(outs[..|outs| - 1]) + TransactionPart(outs[|outs| - 1])
  }

  /** The transfer lines of `lines`, in input order. */
  function TransfersOf(rev: Revision, lines: seq<string>): seq<string> {
    TransferLines(OutputsOf(rev, lines))
  }

  /** The transaction lines of `lines`, in input order. */
  function TransactionsOf(rev: Revision, lines: seq<string>): seq<string> {
    TransactionLines(OutputsOf(rev, lines))
  }

  /** `Math.max(1, Math.floor(totalLines / 10))`: a tenth of the line count,
      and at least one. */
  function ProgressStep(total: nat): (r: nat)
    ensures r >= 1
    ensures total >= 10 ==> r * 10 <= total < r * 10 + 10
    ensures total < 20 ==> r == 1
  {
    if total / 10 > 1 then total / 10 else 1
  }

  /** The processed counts at which a `categorizing` progress message is
      posted while the first `upto` lines are handled: after line `i` (which
      makes the count `i + 1`) whenever `i` is a multiple of the step. */
  function ProgressPoints(total: nat, upto: nat): seq<nat> {
    if upto == 0 then []
    else
      var i := upto - 1;
      ProgressPoints(total, i) + (if i % ProgressStep(total) == 0 then [i + 1] else [])
  }

  /** A progress message is posted for line `i` exactly when `i` is a multiple
      of the step, blank or not. */
  lemma {:induction false} ProgressPointsExactly(total: nat, upto: nat, k: nat)
    ensures k in ProgressPoints(total, upto) <==> 1 <= k <= upto && (k - 1) % ProgressStep(total) == 0
  {
    if upto > 0 {
      ProgressPointsExactly(total, upto - 1, k);
    }
  }

  /** The count of non-blank lines. */
  function NonBlankCount(lines: seq<string>): nat {
    if lines == [] then 0
    else NonBlankCount(lines[..|lines| - 1]) + (if IsBlank(lines[|lines| - 1]) then 0 else 1)
  }

  /** The outputs of a longer prefix extend those of the shorter one. */
  lemma OutputsOfPrefix(rev: Revision, lines: seq<string>, n: nat)
    requires n < |lines|
    ensures OutputsOf(rev, lines[..n + 1]) == OutputsOf(rev, lines[..n]) + [Categorize(rev, lines[n])]
  {
    OutputsAppend(rev, lines[..n], [lines[n]]);
    assert lines[..n] + [lines[n]] == lines[..n + 1];
    assert OutputsOf(rev, [lines[n]])[0] == Categorize(rev, lines[n]);
  }

  /** Every non-blank line yields exactly one output line, in exactly one of
      the two lists; blank lines yield nothing. */
  lemma {:induction false} CountsAddUp(rev: Revision, lines: seq<string>)
    ensures |TransfersOf(rev, lines)| + |TransactionsOf(rev, lines)| == NonBlankCount(lines)
    decreases |lines|
  {
    if lines != [] {
      var n := |lines| - 1;
      var outs := OutputsOf(rev, lines);
      OutputsOfPrefix(rev, lines, n);
      assert lines[..n + 1] == lines;
      assert outs[..n] == OutputsOf(rev, lines[..n]);
      CountsAddUp(rev, lines[..n]);
    }
  }

  lemma {:induction false} LinesAppend(x: seq<Output>, y: seq<Output>)
    ensures TransferLines(x + y) == TransferLines(x) + TransferLines(y)
    ensures TransactionLines(x + y) == TransactionLines(x) + TransactionLines(y)
    decreases |y|
  {
    if y == [] {
      assert x + y == x;
    } else {
      var y' := y[..|y| - 1];
      assert (x + y)[..|x + y| - 1] == x + y';
      assert (x + y)[|x + y| - 1] == y[|y| - 1];
      LinesAppend(x, y');
    }
  }

  /** Lines are handled one at a time and in order: the lists of a
      concatenation are the concatenations of the lists. */
  lemma OrderKept(rev: Revision, a: seq<string>, b: seq<string>)
    ensures TransfersOf(rev, a + b) == TransfersOf(rev, a) + TransfersOf(rev, b)
    ensures TransactionsOf(rev, a + b) == TransactionsOf(rev, a) + TransactionsOf(rev, b)
  {
    OutputsAppend(rev, a, b);
    LinesAppend(OutputsOf(rev, a), OutputsOf(rev, b));
  }

  lemma {:induction false} OutputsAppend(rev: Revision, a: seq<string>, b: seq<string>)
    ensures OutputsOf(rev, a + b) == OutputsOf(rev, a) + OutputsOf(rev, b)
    decreases |b|
  {
    if b == [] {
      assert a + b == a;
    } else {
      var b' := b[..|b| - 1];
      assert (a + b)[..|a + b| - 1] == a + b';
      assert (a + b)[|a + b| - 1] == b[|b| - 1];
      OutputsAppend(rev, a, b');
    }
  }

  /** One line, as the body of the forEach computes it. */
  method CategorizeLine(rev: Revision, line: string) returns (out: Output)
    ensures out == Categorize(rev, line)
  {
    if Trim(line) == [] {
      return Skip;
    }
    var fields := ParseCsvLine(line);
    if |fields| > 4 && Contains(fields[4], "/") {
      if |fields| > 6 {
        var reformatted := TransferFields(fields);
        var last := LastNonEmptyIndex(reformatted);
        var keep := if last > 7 then last else 7;
        var n := if |reformatted| < keep + 1 then |reformatted| else keep + 1;
        out := ToTransfers(SerializeRow(reformatted[..n]));
      } else {
        out := ToTransfers(TransferHeaderLine);
      }
    } else {
      var note := ExtractNoteText(NoteRuleOf(rev), line, fields);
      var reformatted := TransactionFields(rev, fields, note);
      if rev == RootScript {
        out := ToTransactions(SerializeRow(reformatted));
      } else {
        var last := LastNonEmptyIndex(reformatted);
        var keep := if last > 7 then last else 7;
        var n := if |reformatted| < keep + 1 then |reformatted| else keep + 1;
        out := ToTransactions(SerializeRow(reformatted[..n]));
      }
    }
  }

  /** `outs` holds the output of every line of `lines`, position by position. */
  predicate Traced(rev: Revision, lines: seq<string>, outs: seq<Output>) {
    |outs| == |lines| && forall i {:trigger Categorize(rev, lines[i])} :: 0 <= i < |lines| ==> outs[i] == Categorize(rev, lines[i])
  }

  /** Outputs traced line by line are the outputs of the lines. */
  lemma TracedOutputs(rev: Revision, lines: seq<string>, outs: seq<Output>)
    requires Traced(rev, lines, outs)
    ensures outs == OutputsOf(rev, lines)
  {
    forall i | 0 <= i < |lines|
      ensures outs[i] == OutputsOf(rev, lines)[i]
    {
      assert outs[i] == Categorize(rev, lines[i]);
    }
  }

  /** The body of the forEach for the line at `index`: the traced outputs grow
      by the output of that line. */
  method CategorizeNext(rev: Revision, lines: seq<string>, index: nat, ghost outs: seq<Output>)
    returns (out: Output)
    requires index < |lines| && Traced(rev, lines[..index], outs)
    ensures Traced(rev, lines[..index + 1], outs + [out])
  {
    out := CategorizeLine(rev, lines[index]);
    forall i | 0 <= i <= index
      ensures (outs + [out])[i] == Categorize(rev, lines[..index + 1][i])
    {
      assert lines[..index + 1][i] == lines[i];
      if i < index {
        assert lines[..index][i] == lines[i];
        assert outs[i] == Categorize(rev, lines[..index][i]);
      }
    }
  }

  /** Appending one output appends its part to each list. */
  lemma LinesSnoc(outs: seq<Output>, out: Output)
    ensures TransferLines(outs + [out]) == TransferLines(outs) + TransferPart(out)
    ensures TransactionLines(outs + [out]) == TransactionLines(outs) + TransactionPart(out)
  {
    assert (outs + [out])[..|outs|] == outs;
  }

  /** categorizeRecords: the two lists and the processed counts at which
      progress was posted. */
  method CategorizeRecords(rev: Revision, lines: seq<string>)
    returns (transfers: seq<string>, transactions: seq<string>, progress: seq<nat>)
    ensures transfers == TransfersOf(rev, lines)
    ensures transactions == TransactionsOf(rev, lines)
    ensures progress == ProgressPoints(|lines|, |lines|)
  {
    transfers, transactions, progress := [], [], [];
    ghost var outs: seq<Output> := [];
    var processedCount := 0;
    var step := if |lines| / 10 > 1 then |lines| / 10 else 1;
    for index := 0 to |lines|
      invariant processedCount == index
      invariant Traced(rev, lines[..index], outs)
      invariant transfers == TransferLines(outs)
      invariant transactions == TransactionLines(outs)
      invariant progress == ProgressPoints(|lines|, index)
    {
      var out := CategorizeNext(rev, lines, index, outs);
      LinesSnoc(outs, out);
      outs := outs + [out];
      match out {
        case Skip =>
        case ToTransfers(l) => transfers := transfers + [l];
        case ToTransactions(l) => transactions := transactions + [l];
      }
      processedCount := processedCount + 1;
      if index % step == 0 {
        progress := progress + [processedCount];
      }
    }
    assert lines[..|lines|] == lines;
    TracedOutputs(rev, lines, outs);
  }

  /** RootScript keeps the empty tag column, so each of its transaction lines
      ends with a comma. */
  lemma RootScriptLinesEndWithComma(line: string, fields: seq<string>)
    requires |fields| >= 1
    ensures var s := TransactionLine(RootScript, line, fields);
      |s| >= 1 && s[|s| - 1] == ','
  {
    var row := TransactionFields(RootScript, fields, ExtractNote(MarkerFirst, line, fields));
    JoinEndsWithEmpty(FormatAll(row));
  }

  lemma {:induction false} JoinEndsWithEmpty(parts: seq<string>)
    requires |parts| >= 2 && parts[|parts| - 1] == ""
    ensures var s := Join(parts, ",");
      |s| >= 1 && s[|s| - 1] == ','
  {
    if |parts| > 2 {
      JoinEndsWithEmpty(parts[1..]);
    }
  }

  /** A transaction line of the trimming revisions reads back as its eight
      columns, provided none of them holds a backslash. */
  lemma TransactionLineParsesBack(rev: Revision, line: string, fields: seq<string>)
    requires |fields| >= 1
    requires var row := TransactionFields(rev, fields, ExtractNote(NoteRuleOf(rev), line, fields));
      BackslashFree(WrittenColumns(rev, row))
    ensures var row := TransactionFields(rev, fields, ExtractNote(NoteRuleOf(rev), line, fields));
      ParseLine(TransactionLine(rev, line, fields)) == WrittenColumns(rev, row)
  {
    var row := TransactionFields(rev, fields, ExtractNote(NoteRuleOf(rev), line, fields));
    if rev != RootScript {
      TransactionRowHasEightFields(rev, fields, ExtractNote(NoteRuleOf(rev), line, fields));
    }
    RowRoundTrip(WrittenColumns(rev, row));
  }

  /** The columns a revision writes for a transaction: RootScript all nine,
      the trimming revisions the first eight. */
  function WrittenColumns(rev: Revision, row: seq<string>): seq<string>
    requires |row| >= 8
  {
    if rev == RootScript then row else row[..8]
  }

  /** A transfer line with more than six columns reads back as its six
      columns, provided none of them holds a backslash. */
  lemma TransferLineParsesBack(fields: seq<string>)
    requires |fields| > 6 && BackslashFree(TransferFields(fields))
    ensures ParseLine(TransferLine(fields)) == TransferFields(fields)
  {
    KeepsShortRows(TransferFields(fields));
    RowRoundTrip(TransferFields(fields));
  }

  /** EmbeddedV2 notes hold no ASCII comma, so formatting quotes them only
      when they hold a quote. */
  lemma V2NoteQuotedOnlyForQuotes(line: string, fields: seq<string>)
    ensures var note := ExtractNote(RecipientMerge, line, fields);
      FormatCsvField(note) != note <==> '"' in note
  {
  }
}
