/** The `message` handler of the worker, the same text in every revision:
    for one `process` request it posts progress messages and then exactly one
    terminal message, an error or the result. */
module Worker {
  import opened JsString
  import opened Preprocess
  import opened Categorizer

  datatype Stage = Preprocessing | Categorizing

  /** The `progress` value of a progress message: a literal percentage, or
      the processed and total line counts of which the categorizer posts
      `Math.floor((processed / total) * 100)`. */
  datatype Progress = Percent(value: nat) | Fraction(processed: nat, total: nat)

  datatype Message =
    | ProgressMessage(stage: Stage, progress: Progress)
    | ErrorMessage(text: string)
    | ResultMessage(transfers: seq<string>, transactions: seq<string>)

  const EmptyAfterPreprocess: string := "处理后的CSV数据为空，请检查文件格式是否正确"
  const NoRecordsFound: string := "未找到有效的转账或交易记录，请检查文件格式"

  /** The progress messages the categorizer posts, one per processed count. */
  function CategorizingMessages(points: seq<nat>, total: nat): seq<Message> {
    seq(|points|, i requires 0 <= i < |points| => ProgressMessage(Categorizing, Fraction(points[i], total)))
  }

  const Opening: seq<Message> := [ProgressMessage(Preprocessing, Percent(0)), ProgressMessage(Preprocessing, Percent(100))]

  /** The terminal message once the lines are categorised. */
  function Finish(transfers: seq<string>, transactions: seq<string>): Message {
    if transfers == [] && transactions == [] then ErrorMessage(NoRecordsFound)
    else ResultMessage(transfers, transactions)
  }

  /** The progress messages posted before the terminal one when
      preprocessing left `lines`. */
  function ProgressBefore(lines: seq<string>): seq<Message> {
    Opening + [ProgressMessage(Categorizing, Percent(0))]
      + CategorizingMessages(ProgressPoints(|lines|, |lines|), |lines|)
  }

  /** Everything the handler posts for the file text `content`, in order. */
  function Messages(rev: Revision, content: string): seq<Message> {
    var lines := PreprocessCsv(content);
    if lines == [] then Opening + [ErrorMessage(EmptyAfterPreprocess)]
    else ProgressBefore(lines) + [Finish(TransfersOf(rev, lines), TransactionsOf(rev, lines))]
  }

  /** The handler: each `postMessage` appends to `posted`, and each `return`
      ends the request. */
  method HandleProcess(rev: Revision, content: string) returns (posted: seq<Message>)
    ensures posted == Messages(rev, content)
  {
    posted := [ProgressMessage(Preprocessing, Percent(0))];
    var processedLines := PreprocessCsv(content);
    posted := posted + [ProgressMessage(Preprocessing, Percent(100))];
    assert posted == Opening;
    if |processedLines| == 0 {
      posted := posted + [ErrorMessage(EmptyAfterPreprocess)];
      return;
    }
    posted := posted + [ProgressMessage(Categorizing, Percent(0))];
    var transferRecords, transactionRecords, progress := CategorizeRecords(rev, processedLines);
    posted := posted + CategorizingMessages(progress, |processedLines|);
    assert posted == ProgressBefore(processedLines);
    if |transferRecords| == 0 && |transactionRecords| == 0 {
      posted := posted + [ErrorMessage(NoRecordsFound)];
      return;
    }
    posted := posted + [ResultMessage(transferRecords, transactionRecords)];
  }

  predicate IsTerminal(m: Message) {
    !m.ProgressMessage?
  }

  /** Only progress messages, then exactly one terminal message. */
  predicate EndsOnce(m: seq<Message>) {
    && |m| >= 1
    && (forall i :: 0 <= i < |m| - 1 ==> !IsTerminal(m[i]))
    && IsTerminal(m[|m| - 1])
  }

  /** The handler opens with `preprocessing` at 0 and 100, posts only
      progress messages after that, and ends with exactly one terminal
      message. */
  lemma ExactlyOneTerminal(rev: Revision, content: string)
    ensures var m := Messages(rev, content);
      && |m| >= 3
      && m[0] == ProgressMessage(Preprocessing, Percent(0))
      && m[1] == ProgressMessage(Preprocessing, Percent(100))
      && EndsOnce(m)
  {
    var lines := PreprocessCsv(content);
    if lines == [] {
      TerminalLast(Opening, ErrorMessage(EmptyAfterPreprocess));
    } else {
      OnlyProgressBefore(lines);
      TerminalLast(ProgressBefore(lines), Finish(TransfersOf(rev, lines), TransactionsOf(rev, lines)));
    }
  }

  lemma OnlyProgressBefore(lines: seq<string>)
    ensures var p := ProgressBefore(lines);
      |p| >= 3 && p[0] == Opening[0] && p[1] == Opening[1]
      && forall i :: 0 <= i < |p| ==> !IsTerminal(p[i])
  {
    var cat := CategorizingMessages(ProgressPoints(|lines|, |lines|), |lines|);
    var head := Opening + [ProgressMessage(Categorizing, Percent(0))];
    var p := ProgressBefore(lines);
    assert p == head + cat;
    forall i | 0 <= i < |p| ensures !IsTerminal(p[i]) {
      if i >= 3 {
        assert p[i] == cat[i - 3];
      } else {
        assert p[i] == head[i];
      }
    }
  }

  /** Progress messages followed by one terminal message. */
  lemma TerminalLast(a: seq<Message>, t: Message)
    requires forall i :: 0 <= i < |a| ==> !IsTerminal(a[i])
    requires IsTerminal(t)
    ensures EndsOnce(a + [t])
  {
    assert forall i :: 0 <= i < |a| ==> (a + [t])[i] == a[i];
  }

  /** The last message. */
  function Outcome(rev: Revision, content: string): (r: Message)
    ensures IsTerminal(r)
  {
    ExactlyOneTerminal(rev, content);
    var m := Messages(rev, content);
    m[|m| - 1]
  }

  /** The "empty after preprocessing" error is posted exactly when the first
      banner line is one of the last two lines of the bill. */
  lemma EmptyErrorIff(rev: Revision, content: string)
    ensures var lines := Split(content, '\n');
      var k := FindBanner(lines, 0);
      Outcome(rev, content) == ErrorMessage(EmptyAfterPreprocess) <==> k != -1 && |lines| - 2 <= k
  {
    PreprocessEmptyIff(content);
    assert EmptyAfterPreprocess != NoRecordsFound;
  }

  /** The "no records" error is posted exactly when preprocessing leaves lines
      and every one of them is blank. */
  lemma NoRecordsIff(rev: Revision, content: string)
    ensures var lines := PreprocessCsv(content);
      (Outcome(rev, content) == ErrorMessage(NoRecordsFound))
        <==> lines != [] && forall i :: 0 <= i < |lines| ==> IsBlank(lines[i])
  {
    var lines := PreprocessCsv(content);
    assert EmptyAfterPreprocess != NoRecordsFound;
    CountsAddUp(rev, lines);
    NonBlankCountZero(lines);
  }

  /** Otherwise the result is posted, carrying both lists, which together
      hold one line per non-blank line, at least one. */
  lemma ResultCarriesLists(rev: Revision, content: string)
    requires Outcome(rev, content).ResultMessage?
    ensures var lines := PreprocessCsv(content);
      var r := Outcome(rev, content);
      && r.transfers == TransfersOf(rev, lines)
      && r.transactions == TransactionsOf(rev, lines)
      && |r.transfers| + |r.transactions| == NonBlankCount(lines) >= 1
  {
    var lines := PreprocessCsv(content);
    CountsAddUp(rev, lines);
  }

  lemma {:induction false} NonBlankCountZero(lines: seq<string>)
    ensures NonBlankCount(lines) == 0 <==> forall i :: 0 <= i < |lines| ==> IsBlank(lines[i])
    decreases |lines|
  {
    if lines != [] {
      var n := |lines| - 1;
      NonBlankCountZero(lines[..n]);
      assert forall i :: 0 <= i < n ==> lines[..n][i] == lines[i];
    }
  }

  /** A file holding only white space and line breaks (an empty file
      included) ends in the "no records" error, not the "empty" one: splitting
      always leaves at least one line, and no blank line holds the banner. */
  lemma BlankFileHasNoRecords(rev: Revision, content: string)
    requires IsBlank(content)
    ensures Outcome(rev, content) == ErrorMessage(NoRecordsFound)
  {
    var lines := Split(content, '\n');
    SplitBlank(content);
    forall j | 0 <= j < |lines| ensures !Contains(lines[j], Banner) {
      BlankLacksBanner(lines[j]);
    }
    PreprocessWithoutBanner(content);
    NoRecordsIff(rev, content);
  }

  /** The pieces of a blank text are blank. */
  lemma {:induction false} SplitBlank(s: string)
    requires IsBlank(s)
    ensures forall i :: 0 <= i < |Split(s, '\n')| ==> IsBlank(Split(s, '\n')[i])
  {
    if s != [] {
      assert IsBlank(s[1..]) by {
        forall i | 0 <= i < |s| - 1 ensures IsJsSpace(s[1..][i]) {
          assert s[1..][i] == s[i + 1];
        }
      }
      SplitBlank(s[1..]);
      var rest := Split(s[1..], '\n');
      var r := Split(s, '\n');
      assert IsJsSpace(s[0]);
      if s[0] == '\n' {
        assert r == [[]] + rest;
        forall i | 0 <= i < |r| ensures IsBlank(r[i]) {
          if i > 0 {
            assert r[i] == rest[i - 1];
          }
        }
      } else {
        BlankCons(s[0], rest[0]);
        assert r == [[s[0]] + rest[0]] + rest[1..];
        forall i | 0 <= i < |r| ensures IsBlank(r[i]) {
          if i > 0 {
            assert r[i] == rest[i];
          }
        }
      }
    }
  }

  lemma BlankCons(c: char, t: string)
    requires IsJsSpace(c) && IsBlank(t)
    ensures IsBlank([c] + t)
  {
    var u := [c] + t;
    forall i | 0 <= i < |u| ensures IsJsSpace(u[i]) {
      if i > 0 {
        assert u[i] == t[i - 1];
      }
    }
  }

  lemma BlankLacksBanner(s: string)
    requires IsBlank(s)
    ensures !Contains(s, Banner)
  {
    BannerStartsWithDash();
  }

  lemma BannerStartsWithDash()
    ensures |Banner| > 0 && Banner[0] == '-'
  {
    assert Banner[0] == "----------------------"[0];
  }
}
