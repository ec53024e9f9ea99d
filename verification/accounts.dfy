/** `processTransferInAccount`, the same text in every revision: the account
    column of a transfer such as `转账到张三` is reduced to the account name. */
module Accounts {
  import opened JsString

  const TransferWord: string := "转账"
  const TransferTo: string := "转账到"

  /** `/转账到(.+)/` can match at `p`: the words are there and at least one
      character other than a line terminator follows them. */
  predicate MatchAt(s: string, p: int) {
    OccursAt(s, TransferTo, p) && p + |TransferTo| < |s| && !IsLineTerminator(s[p + |TransferTo|])
  }

  /** The leftmost position at or after `from` where the pattern matches, or -1. */
  function FirstMatch(s: string, from: nat): (r: int)
    ensures r == -1 || (from <= r && MatchAt(s, r))
    ensures forall j :: from <= j && (r == -1 || j < r) ==> !MatchAt(s, j)
    decreases |s| - from
  {
    if from >= |s| then -1
    else if MatchAt(s, from) then from
    else FirstMatch(s, from + 1)
  }

  /** How far the greedy `.+` reaches from `i`: up to the first line
      terminator, or the end of the text. */
  function RunEnd(s: string, i: nat): (r: nat)
    requires i <= |s|
    ensures i <= r <= |s|
    ensures forall j :: i <= j < r ==> !IsLineTerminator(s[j])
    ensures r == |s| || IsLineTerminator(s[r])
    decreases |s| - i
  {
    if i == |s| || IsLineTerminator(s[i]) then i else RunEnd(s, i + 1)
  }

  /** The account name: the trimmed text captured after the first match of
      `转账到`, or the account unchanged when there is no match. */
  function ProcessTransferInAccount(account: string): (r: string)
    ensures account == [] ==> r == []
    ensures !Contains(account, TransferWord) ==> r == account
    ensures |r| <= |account|
    ensures r == account || HasNoLineTerminator(r)
    ensures var p := FirstMatch(account, 0);
      p != -1 ==> r == Trim(account[p + |TransferTo|..RunEnd(account, p + |TransferTo|)])
    ensures FirstMatch(account, 0) == -1 ==> r == account
  {
    MatchHasTransferWord(account);
    if account == [] then []
    else if Contains(account, TransferWord) then
      var p := FirstMatch(account, 0);
      if p != -1 then
        var capture := account[p + |TransferTo|..RunEnd(account, p + |TransferTo|)];
        TrimKeepsLineFree(capture);
        Trim(capture)
      else account
    else account
  }

  /** Wherever the pattern matches, the text holds `转账`, so the `includes`
      test never hides a match. */
  lemma MatchHasTransferWord(s: string)
    ensures FirstMatch(s, 0) != -1 ==> Contains(s, TransferWord)
  {
    var p := FirstMatch(s, 0);
    if p != -1 {
      assert s[p..p + 3] == TransferTo;
      assert s[p] == TransferWord[0] && s[p + 1] == TransferWord[1];
      assert s[p..p + 2] == TransferWord;
      assert OccursAt(s, TransferWord, p);
      ContainsIff(s, TransferWord);
    }
  }

  /** `转账` followed by anything other than `到` and a non-terminator, such as
      `转账到` alone or `转账到` at the end of a line, is not a match, and the
      account is kept as it is. */
  lemma NoMatchUnchanged(account: string)
    requires Contains(account, TransferWord)
    requires forall p :: 0 <= p < |account| ==> !MatchAt(account, p)
    ensures ProcessTransferInAccount(account) == account
  {
    assert FirstMatch(account, 0) == -1;
  }

  /** A match after other text: only the text after the first `转账到` that
      is followed by a non-terminator is captured. */
  lemma MatchAfterPrefix(pre: string, name: string)
    requires name != [] && HasNoLineTerminator(name)
    requires forall p :: 0 <= p < |pre| ==> !MatchAt(pre + TransferTo + name, p)
    ensures ProcessTransferInAccount(pre + TransferTo + name) == Trim(name)
  {
    var s := pre + TransferTo + name;
    var n := |pre| + |TransferTo|;
    assert s[|pre|..n] == TransferTo && s[n..] == name;
    assert s[n] == name[0];
    assert MatchAt(s, |pre|);
    assert FirstMatch(s, 0) == |pre|;
    RunEndOfLineFree(s, n);
    assert s[n..RunEnd(s, n)] == name;
  }

  /** An account without `转账到` is kept as it is. */
  lemma NoTransferToUnchanged(account: string)
    requires !Contains(account, TransferTo)
    ensures ProcessTransferInAccount(account) == account
  {
    if account != [] && Contains(account, TransferWord) {
      assert FirstMatch(account, 0) == -1;
    }
  }

  /** An account that starts with a match captures from just after `转账到`. */
  lemma MatchAtStart(s: string)
    requires MatchAt(s, 0)
    ensures ProcessTransferInAccount(s) == Trim(s[|TransferTo|..RunEnd(s, |TransferTo|)])
  {
    assert s[0..|TransferWord|] == TransferTo[0..|TransferWord|] == TransferWord;
    assert OccursAt(s, TransferWord, 0);
    assert Contains(s, TransferWord);
    assert FirstMatch(s, 0) == 0;
  }

  /** `转账到` followed by a name on one line gives the trimmed name. */
  lemma TransferToName(name: string)
    requires name != [] && HasNoLineTerminator(name)
    ensures ProcessTransferInAccount(TransferTo + name) == Trim(name)
  {
    var s := TransferTo + name;
    var n := |TransferTo|;
    assert s[..n] == TransferTo && s[n..] == name;
    assert s[n] == name[0];
    MatchAtStart(s);
    RunEndOfLineFree(s, n);
    assert s[n..RunEnd(s, n)] == name;
  }

  lemma RunEndOfLineFree(s: string, i: nat)
    requires i <= |s| && HasNoLineTerminator(s[i..])
    ensures RunEnd(s, i) == |s|
    decreases |s| - i
  {
    if i < |s| {
      assert s[i..][0] == s[i];
      assert s[i + 1..] == s[i..][1..];
      RunEndOfLineFree(s, i + 1);
    }
  }

  /** The name stops at a line break: only the text up to it is captured. */
  lemma NameEndsAtLineBreak(name: string, c: char, rest: string)
    requires name != [] && HasNoLineTerminator(name) && IsLineTerminator(c)
    ensures ProcessTransferInAccount(TransferTo + name + [c] + rest) == Trim(name)
  {
    var s := TransferTo + name + [c] + rest;
    var n := |TransferTo|;
    assert s[..n] == TransferTo;
    assert s[n..n + |name|] == name;
    assert s[n] == name[0];
    MatchAtStart(s);
    forall j | n <= j < n + |name| ensures !IsLineTerminator(s[j]) {
      assert s[j] == name[j - n];
    }
    assert s[n + |name|] == c;
    RunEndStops(s, n, n + |name|);
  }

  /** The greedy run from `i` stops at the first line terminator `e`. */
  lemma RunEndStops(s: string, i: nat, e: nat)
    requires i <= e < |s| && IsLineTerminator(s[e])
    requires forall j :: i <= j < e ==> !IsLineTerminator(s[j])
    ensures RunEnd(s, i) == e
    decreases e - i
  {
    if i < e {
      RunEndStops(s, i + 1, e);
    }
  }
}
