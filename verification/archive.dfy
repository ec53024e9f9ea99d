/** The caller-side rules of `createAndDownloadZip`, the same text in
    assets/js/core/script.js, assets/js/utils/csv-processor.js and script.js:
    the name prefix of the archive entries, derived from the uploaded file's
    name, and the header row that each CSV file starts with. */
module Archive {
  import opened JsString

  datatype Option<T> = None | Some(value: T)

  // ---------------------------------------------------------------------
  // The name prefix

  /** The characters of the class `[<>:"/\|?*]`; the `\|` in it is an escaped
      bar, so a backslash is not among them. */
  predicate IsReserved(c: char) {
    c == '<' || c == '>' || c == ':' || c == '"' || c == '/' || c == '|' || c == '?' || c == '*'
  }

  /** `name.replace(/[<>:"/\|?*]/g, '_')`. */
  function Sanitize(name: string): (r: string)
    ensures |r| == |name|
    ensures forall i :: 0 <= i < |r| ==> !IsReserved(r[i])
  {
    if name == [] then []
    else [if IsReserved(name[0]) then '_' else name[0]] + Sanitize(name[1..])
  }

  /** Each reserved character becomes `_` and every other one is kept. */
  lemma {:induction false} SanitizePointwise(name: string, i: nat)
    requires i < |name|
    ensures Sanitize(name)[i] == if IsReserved(name[i]) then '_' else name[i]
  {
    if i > 0 {
      SanitizePointwise(name[1..], i - 1);
    }
  }

  /** A name without reserved characters is kept as it is, so sanitising
      twice is sanitising once. */
  lemma {:induction false} SanitizeKeepsClean(name: string)
    requires forall i :: 0 <= i < |name| ==> !IsReserved(name[i])
    ensures Sanitize(name) == name
  {
    if name != [] {
      SanitizeKeepsClean(name[1..]);
    }
  }

  lemma SanitizeIdempotent(name: string)
    ensures Sanitize(Sanitize(name)) == Sanitize(name)
  {
    SanitizeKeepsClean(Sanitize(name));
  }

  /** `/\.[^/.]+$/` matches at `p`: a dot, then one or more characters other
      than `/` and `.` up to the end of the name. */
  predicate ExtensionAt(s: string, p: int) {
    0 <= p && p + 1 < |s| && s[p] == '.'
    && forall k :: p < k < |s| ==> s[k] != '.' && s[k] != '/'
  }

  /** The last dot before `i`, or -1. */
  function LastDot(s: string, i: nat): (r: int)
    requires i <= |s|
    ensures -1 <= r < i
    ensures r != -1 ==> s[r] == '.'
    ensures forall k :: r < k < i ==> s[k] != '.'
  {
    if i == 0 then -1
    else if s[i - 1] == '.' then i - 1
    else LastDot(s, i - 1)
  }

  /** `name.replace(/\.[^/.]+$/, "")`: the extension match can only start at
      the last dot, so the name loses its last dot and what follows when that
      is a match, and is kept whole otherwise. */
  function StripExtension(s: string): (r: string)
    ensures |r| <= |s| && r == s[..|r|]
    ensures r != s ==> ExtensionAt(s, |r|)
    ensures r == s ==> forall p :: !ExtensionAt(s, p)
  {
    var p := LastDot(s, |s|);
    if p != -1 && p + 1 < |s| && (forall k :: p < k < |s| ==> s[k] != '/') then s[..p]
    else s
  }

  /** The name `base.ext` loses `.ext` when the extension holds no dot and no
      slash. */
  lemma StripsLastExtension(base: string, ext: string)
    requires ext != [] && '.' !in ext && '/' !in ext
    ensures StripExtension(base + "." + ext) == base
  {
    var s := base + "." + ext;
    assert s[|base|] == '.';
    assert forall k :: |base| < k < |s| ==> s[k] == ext[k - |base| - 1];
    assert ExtensionAt(s, |base|);
    var r := StripExtension(s);
    assert r != s;
    assert ExtensionAt(s, |r|);
    assert |r| == |base|;
    assert s[..|base|] == base;
  }

  predicate IsDigit(c: char) {
    '0' <= c <= '9'
  }

  /** `/\d{8}-\d{8}/` matches at `p`. */
  predicate DateRangeAt(s: string, p: int) {
    0 <= p && p + 17 <= |s| && s[p + 8] == '-'
    && (forall k :: p <= k < p + 8 ==> IsDigit(s[k]))
    && (forall k :: p + 9 <= k < p + 17 ==> IsDigit(s[k]))
  }

  /** The leftmost match at or after `from`. */
  function FindDateRange(s: string, from: nat): (r: Option<nat>)
    ensures r.Some? ==> from <= r.value && DateRangeAt(s, r.value)
    ensures forall q :: from <= q && (r.None? || q < r.value) ==> !DateRangeAt(s, q)
    decreases |s| - from
  {
    if from + 17 > |s| then None
    else if DateRangeAt(s, from) then Some(from)
    else FindDateRange(s, from + 1)
  }

  ghost predicate HasDateRange(s: string) {
    exists p :: DateRangeAt(s, p)
  }

  /** `p` is where `match` finds the date range: a match with none before it. */
  predicate LeftmostDateRange(s: string, p: int) {
    DateRangeAt(s, p) && forall q :: 0 <= q < p ==> !DateRangeAt(s, q)
  }

  /** `dateStr`: `-` and the first match, or empty. */
  function DateSuffix(base: string): (r: string)
    ensures r == [] || (|r| == 18 && r[0] == '-' && exists p :: LeftmostDateRange(base, p) && r[1..] == base[p..p + 17])
    ensures r == [] <==> forall p :: !DateRangeAt(base, p)
  {
    match FindDateRange(base, 0)
    case None => []
    case Some(p) =>
      var r := "-" + base[p..p + 17];
      assert r[1..] == base[p..p + 17];
      assert LeftmostDateRange(base, p);
      r
  }

  lemma PrefixOfDateSuffix(base: string)
    ensures !HasDateRange(base) ==> Title + DateSuffix(base) + "-" == Title + "-"
    ensures forall p :: LeftmostDateRange(base, p) ==>
      Title + DateSuffix(base) + "-" == Title + "-" + base[p..p + 17] + "-"
  {
    DateSuffixOfLeftmost(base);
    if !HasDateRange(base) {
      assert DateSuffix(base) == [];
      assert Title + [] + "-" == Title + "-";
    }
  }

  /** There is at most one leftmost match, and `dateStr` is built from it. */
  lemma DateSuffixOfLeftmost(base: string)
    ensures forall p :: LeftmostDateRange(base, p) ==> DateSuffix(base) == "-" + base[p..p + 17]
    ensures (forall p :: !DateRangeAt(base, p)) ==> DateSuffix(base) == []
  {
    forall p | LeftmostDateRange(base, p) ensures DateSuffix(base) == "-" + base[p..p + 17] {
      assert FindDateRange(base, 0) == Some(p);
    }
  }

  const Title: string := "一木记账工坊-微信"

  /** `t('filePrefix', dateStr)` for the uploaded file's name. */
  function FilePrefix(originalFileName: string): (r: string)
    ensures |r| == |Title| + 1 || |r| == |Title| + 19
    ensures r[..|Title|] == Title && r[|r| - 1] == '-'
    ensures var base := StripExtension(Sanitize(originalFileName));
      !HasDateRange(base) ==> r == Title + "-"
    ensures var base := StripExtension(Sanitize(originalFileName));
      forall p :: LeftmostDateRange(base, p) ==> r == Title + "-" + base[p..p + 17] + "-"
  {
    var base := StripExtension(Sanitize(originalFileName));
    PrefixOfDateSuffix(base);
    Title + DateSuffix(base) + "-"
  }

  /** A bill named `<words>YYYYMMDD-YYYYMMDD<words>.<ext>`, with no digit
      before the dates, gives the prefix `一木记账工坊-微信-YYYYMMDD-YYYYMMDD-`. */
  lemma BillNamePrefix(a: string, d: string, b: string, ext: string)
    requires |d| == 17 && DateRangeAt(d, 0)
    requires forall i :: 0 <= i < |a| ==> !IsDigit(a[i])
    requires '.' !in b && ext != [] && '.' !in ext
    requires forall i :: 0 <= i < |a| ==> !IsReserved(a[i])
    requires forall i :: 0 <= i < |b| ==> !IsReserved(b[i])
    requires forall i :: 0 <= i < |ext| ==> !IsReserved(ext[i])
    ensures FilePrefix(a + d + b + "." + ext) == Title + "-" + d + "-"
  {
    var base := a + d + b;
    var name := base + "." + ext;
    NameIsClean(a, d, b, ext);
    SanitizeKeepsClean(name);
    StripsLastExtension(base, ext);
    DateFirstAt(a, d, b);
  }

  lemma NameIsClean(a: string, d: string, b: string, ext: string)
    requires |d| == 17 && DateRangeAt(d, 0)
    requires forall i :: 0 <= i < |a| ==> !IsReserved(a[i])
    requires forall i :: 0 <= i < |b| ==> !IsReserved(b[i])
    requires forall i :: 0 <= i < |ext| ==> !IsReserved(ext[i])
    ensures var name := a + d + b + "." + ext;
      forall i :: 0 <= i < |name| ==> !IsReserved(name[i])
  {
    var base := a + d + b;
    var name := base + "." + ext;
    forall i | 0 <= i < |name| ensures !IsReserved(name[i]) {
      if i < |a| {
        assert name[i] == a[i];
      } else if i < |a| + |d| {
        assert name[i] == d[i - |a|];
        assert i - |a| < 8 || i - |a| == 8 || 9 <= i - |a|;
      } else if i < |base| {
        assert name[i] == b[i - |a| - |d|];
      } else if i > |base| {
        assert name[i] == ext[i - |base| - 1];
      }
    }
  }

  /** The first match in `a + d + b` is `d` when `a` holds no digit. */
  lemma DateFirstAt(a: string, d: string, b: string)
    requires |d| == 17 && DateRangeAt(d, 0)
    requires forall i :: 0 <= i < |a| ==> !IsDigit(a[i])
    ensures DateSuffix(a + d + b) == "-" + d
  {
    var s := a + d + b;
    assert DateRangeAt(s, |a|) by {
      assert forall k :: |a| <= k < |a| + 17 ==> s[k] == d[k - |a|];
    }
    forall q | 0 <= q < |a| ensures !DateRangeAt(s, q) {
      assert s[q] == a[q];
    }
    var r := FindDateRange(s, 0);
    assert r == Some(|a|);
    assert s[|a|..|a| + 17] == d;
  }

  // ---------------------------------------------------------------------
  // The header row

  datatype Kind = Transfers | Transactions

  const TransferHeader: string := "日期,转出账户,转入账户,金额,手续费,备注"
  const TransactionHeader: string := "日期,收支类型,金额,类别,子类,所属账本,收支账户,备注,标签"
  const DatePartial: string := "日期"
  const TransactionTimePartial: string := "交易时间"

  function Header(kind: Kind): string {
    if kind == Transfers then TransferHeader else TransactionHeader
  }

  /** The test applied to the first record: `日期` for transfers, `交易时间`
      or `日期` for transactions. */
  predicate LooksLikeHeader(kind: Kind, line: string) {
    if kind == Transfers then Contains(line, DatePartial)
    else Contains(line, TransactionTimePartial) || Contains(line, DatePartial)
  }

  /** The first record is dropped when there is more than one record and it
      looks like a header. */
  predicate DropsFirst(kind: Kind, records: seq<string>) {
    |records| > 1 && LooksLikeHeader(kind, records[0])
  }

  /** The lines of one CSV file: the canonical header, then the records,
      without the first one when it looks like a header and is not alone. */
  function WithHeader(kind: Kind, records: seq<string>): (r: seq<string>)
    requires records != []
    ensures |r| >= 2
    ensures r[0] == Header(kind)
    ensures !DropsFirst(kind, records) ==> r[1..] == records
    ensures DropsFirst(kind, records) ==> r[1..] == records[1..]
  {
    if |records| == 1 || !LooksLikeHeader(kind, records[0]) then [Header(kind)] + records
    else [Header(kind)] + records[1..]
  }

  /** The canonical header looks like a header of its own kind. */
  lemma HeaderLooksLikeHeader(kind: Kind)
    ensures LooksLikeHeader(kind, Header(kind))
  {
    var h := Header(kind);
    assert h[0..2] == DatePartial;
    assert OccursAt(h, DatePartial, 0);
  }

  /** Reconciling is idempotent: lines that already start with the canonical
      header are kept as they are. */
  lemma WithHeaderIdempotent(kind: Kind, records: seq<string>)
    requires records != []
    ensures WithHeader(kind, WithHeader(kind, records)) == WithHeader(kind, records)
  {
    var r := WithHeader(kind, records);
    HeaderLooksLikeHeader(kind);
    assert DropsFirst(kind, r);
    assert [r[0]] + r[1..] == r;
  }

  /** The text of one CSV file, or none when there are no records. */
  function CsvFile(kind: Kind, records: seq<string>): (r: Option<string>)
    ensures r.None? <==> records == []
    ensures r.Some? ==> |r.value| > |Header(kind)| && r.value[..|Header(kind)| + 1] == Header(kind) + "\n"
  {
    if records == [] then None
    else
      var lines := WithHeader(kind, records);
      var text := Join(lines, "\n");
      assert text == Header(kind) + "\n" + Join(lines[1..], "\n");
      Some(text)
  }

  /** Splitting the file text at line feeds gives back its header and rows
      when no record holds a line feed (the records come from lines split at
      line feeds, so none does). */
  lemma CsvFileLines(kind: Kind, records: seq<string>)
    requires records != []
    requires forall i :: 0 <= i < |records| ==> '\n' !in records[i]
    ensures CsvFile(kind, records).Some?
    ensures Split(CsvFile(kind, records).value, '\n') == WithHeader(kind, records)
  {
    var r := WithHeader(kind, records);
    forall i | 0 <= i < |r| ensures '\n' !in r[i] {
      if i == 0 {
        HeaderHasNoLineFeed(kind);
      } else if DropsFirst(kind, records) {
        assert r[i] == records[i];
      } else {
        assert r[i] == records[i - 1];
      }
    }
    SplitJoin(r, '\n');
  }

  lemma HeaderHasNoLineFeed(kind: Kind)
    ensures '\n' !in Header(kind)
  {
  }

  // ---------------------------------------------------------------------
  // The summary counts

  /** `records.length > 0 ? records.length - 1 : 0`, the count shown in the
      success notification: it assumes that a header record was dropped. */
  function SummaryCount(records: seq<string>): (n: nat)
    ensures records == [] ==> n == 0
    ensures records != [] ==> n + 1 == |records|
  {
    if |records| > 0 then |records| - 1 else 0
  }

  /** The number of data rows the file of `records` holds, its header
      excluded. */
  function DataRowCount(kind: Kind, records: seq<string>): (n: nat)
    ensures records == [] ==> n == 0
  {
    if records == [] then 0 else |WithHeader(kind, records)| - 1
  }

  /** The data rows are all the records but a dropped first one. */
  lemma DataRowCountIs(kind: Kind, records: seq<string>)
    ensures DataRowCount(kind, records) == |records| - (if DropsFirst(kind, records) then 1 else 0)
  {
  }

  /** The shown count equals the data rows only when there are no records or
      a header record was dropped; otherwise it is one short. */
  lemma SummaryCountShortByOne(kind: Kind, records: seq<string>)
    ensures SummaryCount(records) == DataRowCount(kind, records) <==> records == [] || DropsFirst(kind, records)
    ensures records != [] && !DropsFirst(kind, records) ==> SummaryCount(records) + 1 == DataRowCount(kind, records)
  {
  }

  /** A single transfer record and no header: one data row written, zero
      reported. */
  lemma SingleRecordReportedAsNone()
    ensures var records := ["2024-01-01 10:00:00,零钱,张三,100.00,,"];
      SummaryCount(records) == 0 && DataRowCount(Transfers, records) == 1
  {
  }
}
