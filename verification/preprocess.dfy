/** `preprocessCSV`, the same text in every revision: the bill is split into
    lines at line feeds, and everything up to the banner that WeChat Pay writes
    above its column header is dropped together with that column header. */
module Preprocess {
  import opened JsString

  /** The banner line above the bill's column header. */
  const Banner: string := "----------------------" + "微信支付账单明细列表" + "--------------------"

  /** `lines.findIndex(line => line.includes(Banner))`, searching from `from`. */
  function FindBanner(lines: seq<string>, from: nat): (r: int)
    requires from <= |lines|
    ensures r == -1 || (from <= r < |lines| && Contains(lines[r], Banner))
    ensures forall j :: from <= j < (if r == -1 then |lines| else r) ==> !Contains(lines[j], Banner)
    decreases |lines| - from
  {
    if from == |lines| then -1
    else if Contains(lines[from], Banner) then from
    else FindBanner(lines, from + 1)
  }

  /** The data lines of a bill: every line when none holds the banner;
      otherwise the lines from two past the first banner line on, none if
      the banner is one of the last two lines. */
  function PreprocessCsv(content: string): (r: seq<string>)
    ensures var lines := Split(content, '\n');
      |r| <= |lines| && r == lines[|lines| - |r|..]
  {
    var lines := Split(content, '\n');
    var k := FindBanner(lines, 0);
    if k == -1 then lines
    else if k + 2 <= |lines| then lines[k + 2..]
    else []
  }

  /** A bill without a banner line is kept whole. */
  lemma PreprocessWithoutBanner(content: string)
    requires var lines := Split(content, '\n');
      forall j :: 0 <= j < |lines| ==> !Contains(lines[j], Banner)
    ensures PreprocessCsv(content) == Split(content, '\n')
  {
  }

  /** Of a bill whose first banner line (see FindBannerIsFirst) is at index
      `k`, the banner line, the line after it and everything before them are
      dropped. */
  lemma PreprocessStripsBanner(lines: seq<string>, k: nat)
    requires k + 1 < |lines|
    requires forall j :: 0 <= j < |lines| ==> '\n' !in lines[j]
    requires FindBanner(lines, 0) == k
    ensures PreprocessCsv(Join(lines, "\n")) == lines[k + 2..]
  {
    assert Split(Join(lines, "\n"), '\n') == lines by {
      SplitJoin(lines, '\n');
    }
    PreprocessAfter(Join(lines, "\n"), lines, k);
  }

  lemma PreprocessAfter(content: string, lines: seq<string>, k: nat)
    requires Split(content, '\n') == lines && FindBanner(lines, 0) == k && k + 2 <= |lines|
    ensures PreprocessCsv(content) == lines[k + 2..]
  {
  }

  lemma {:induction false} FindBannerIsFirst(lines: seq<string>, from: nat, k: nat)
    requires from <= k < |lines| && Contains(lines[k], Banner)
    requires forall j :: from <= j < k ==> !Contains(lines[j], Banner)
    ensures FindBanner(lines, from) == k
    decreases k - from
  {
    if from < k {
      FindBannerIsFirst(lines, from + 1, k);
    }
  }

  /** The worker's "empty after preprocessing" error fires exactly when the
      first banner line is one of the last two lines; since splitting always
      yields a line, a bill without a banner is never empty. */
  lemma PreprocessEmptyIff(content: string)
    ensures var lines := Split(content, '\n');
      var k := FindBanner(lines, 0);
      PreprocessCsv(content) == [] <==> k != -1 && |lines| - 2 <= k
  {
    var lines := Split(content, '\n');
    var k := FindBanner(lines, 0);
    if k != -1 && k + 2 <= |lines| {
      assert |lines[k + 2..]| == |lines| - (k + 2);
    }
  }
}
