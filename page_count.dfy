/** `get_pdf_page_count` (printandscan.py:37-60): the search for
    `NumberOfPages:\s*(\d+)` in the text `pdftk dump_data` prints, and the
    `int()` of the captured digits. */
module PageCount {
  import opened Wrappers
  import opened Numerals

  /** The two ways the page count cannot be obtained; the script reports both
      as "Error getting page count" and exits with status 1. */
  datatype PageCountError =
    | ToolError             // pdftk could not be started or exited non-zero
    | CountUndeterminable   // the RuntimeError: no match in pdftk's output

  const Label: string := "NumberOfPages:"

  /** `\s` on ASCII characters, as CPython's whitespace table has it:
      tab, line feed, vertical tab, form feed, carriage return, the four
      separators 0x1C-0x1F and space. */
  predicate IsSpace(c: char) {
    (9 <= c as int <= 13) || (28 <= c as int <= 31) || c == ' '
  }

  // ---------------------------------------------------------------------
  // What the regular expression matches

  /** The match `re.search` reports when it starts at `p`: the label, then `k`
      whitespace characters, then a run of `m >= 1` digits that `\d+` takes
      greedily (the run is not followed by another digit). */
  ghost predicate IsMatch(s: string, p: nat, k: nat, m: nat)
    ensures IsMatch(s, p, k, m) ==> m >= 1 && p + |Label| + k + m <= |s| && AllDigits(Group(s, p, k, m))
  {
    var d := p + |Label| + k;
    && d + m <= |s|
    && s[p..p + |Label|] == Label
    && (forall x :: p + |Label| <= x < d ==> IsSpace(s[x]))
    && m >= 1
    && (forall x :: d <= x < d + m ==> IsDigit(s[x]))
    && (d + m == |s| || !IsDigit(s[d + m]))
  }

  ghost predicate MatchesAt(s: string, p: nat) {
    exists k: nat, m: nat :: IsMatch(s, p, k, m)
  }

  /** The digits the match captures as group 1. */
  function Group(s: string, p: nat, k: nat, m: nat): string
    requires p + |Label| + k + m <= |s|
  {
    s[p + |Label| + k .. p + |Label| + k + m]
  }

  /** At one start position the pattern can match in only one way: `\s*`
      cannot stop early because a whitespace character is not a digit, and
      `\d+` stops only at a non-digit. */
  lemma MatchIsUnique(s: string, p: nat, k1: nat, m1: nat, k2: nat, m2: nat)
    requires IsMatch(s, p, k1, m1) && IsMatch(s, p, k2, m2)
    ensures k1 == k2 && m1 == m2
  {
    var b := p + |Label|;
    assert IsDigit(s[b + k1]) && IsDigit(s[b + k2]);
  }

  // ---------------------------------------------------------------------
  // The scan

  function SkipSpaces(s: string, i: nat): (j: nat)
    requires i <= |s|
    ensures i <= j <= |s|
    ensures forall x :: i <= x < j ==> IsSpace(s[x])
    ensures j == |s| || !IsSpace(s[j])
    decreases |s| - i
  {
    if i < |s| && IsSpace(s[i]) then SkipSpaces(s, i + 1) else i
  }

  function SkipDigits(s: string, i: nat): (j: nat)
    requires i <= |s|
    ensures i <= j <= |s|
    ensures forall x :: i <= x < j ==> IsDigit(s[x])
    ensures j == |s| || !IsDigit(s[j])
    decreases |s| - i
  {
    if i < |s| && IsDigit(s[i]) then SkipDigits(s, i + 1) else i
  }

  /** The pattern can start at `p`: the label is there and, after all the
      whitespace that follows it, comes a digit. */
  predicate StartsMatch(s: string, p: nat) {
    && p + |Label| <= |s|
    && s[p..p + |Label|] == Label
    && var j := SkipSpaces(s, p + |Label|);
       j < |s| && IsDigit(s[j])
  }

  lemma StartsMatchIffMatchesAt(s: string, p: nat)
    ensures StartsMatch(s, p) <==> MatchesAt(s, p)
  {
    if StartsMatch(s, p) {
      var j := SkipSpaces(s, p + |Label|);
      var e := SkipDigits(s, j);
      assert IsMatch(s, p, j - (p + |Label|), e - j);
    }
    if MatchesAt(s, p) {
      var k: nat, m: nat :| IsMatch(s, p, k, m);
      var b := p + |Label|;
      var j := SkipSpaces(s, b);
      assert IsDigit(s[b + k]);
    }
  }

  /** The leftmost start position at or after `p` where the pattern matches,
      as `re.search` tries them. */
  function FindFrom(s: string, p: nat): (r: Option<nat>)
    ensures r.Some? ==> p <= r.value && StartsMatch(s, r.value)
    ensures r.Some? ==> forall q :: p <= q < r.value ==> !StartsMatch(s, q)
    ensures r.None? ==> forall q :: p <= q ==> !StartsMatch(s, q)
    decreases |s| - p
  {
    if p + |Label| > |s| then None
    else if StartsMatch(s, p) then Some(p)
    else FindFrom(s, p + 1)
  }

  /** The digits `(\d+)` captures when the scan stops at `p`. */
  function MatchedDigits(s: string, p: nat): (d: string)
    requires StartsMatch(s, p)
    ensures d != [] && AllDigits(d)
  {
    var j := SkipSpaces(s, p + |Label|);
    s[j..SkipDigits(s, j)]
  }

  /** The body of the `try` once pdftk has printed `dump`:
      `re.search(r'NumberOfPages:\s*(\d+)', dump)` then `int(match.group(1))`,
      or the RuntimeError when there is no match. */
  function ParsePageCount(dump: string): (r: Result<nat, PageCountError>)
    ensures r.Err? ==> r.error == CountUndeterminable
  {
    match FindFrom(dump, 0)
    case None => Err(CountUndeterminable)
    case Some(p) => Ok(DecimalValue(MatchedDigits(dump, p)))
  }

  /** `get_pdf_page_count`: `dump` is pdftk's standard output, or `None` when
      the pdftk process could not be started or failed. */
  function GetPdfPageCount(dump: Option<string>): (r: Result<nat, PageCountError>)
    ensures dump.None? ==> r == Err(ToolError)
    ensures r.Err? && dump.Some? ==> r.error == CountUndeterminable
  {
    match dump
    case None => Err(ToolError)
    case Some(out) => ParsePageCount(out)
  }

  // ---------------------------------------------------------------------
  // The parse against the match

  /** When the leftmost match starts at `p`, the page count is the decimal
      value of its whole digit run. */
  lemma ParseFindsLeftmostMatch(s: string, p: nat, k: nat, m: nat)
    requires IsMatch(s, p, k, m)
    requires forall q: nat :: q < p ==> !MatchesAt(s, q)
    ensures AllDigits(Group(s, p, k, m))
    ensures ParsePageCount(s) == Ok(DecimalValue(Group(s, p, k, m)))
  {
    ScanReachesMatch(s, p, k, m);
    ParseAtFoundMatch(s, p, k, m);
  }

  lemma ScanReachesMatch(s: string, p: nat, k: nat, m: nat)
    requires IsMatch(s, p, k, m)
    requires forall q: nat :: q < p ==> !MatchesAt(s, q)
    ensures FindFrom(s, 0) == Some(p)
  {
    NoEarlierStart(s, p);
    StartsMatchIffMatchesAt(s, p);
    LeftmostFound(s, 0, p);
  }

  /** Once the scan stops at a match, the digits read are its group. */
  lemma ParseAtFoundMatch(s: string, p: nat, k: nat, m: nat)
    requires IsMatch(s, p, k, m)
    requires FindFrom(s, 0) == Some(p)
    ensures AllDigits(Group(s, p, k, m))
    ensures ParsePageCount(s) == Ok(DecimalValue(Group(s, p, k, m)))
  {
    var k', m' := ScanMatchIsMatch(s, p);
    MatchIsUnique(s, p, k, m, k', m');
  }

  lemma NoEarlierStart(s: string, p: nat)
    requires forall q: nat :: q < p ==> !MatchesAt(s, q)
    ensures forall q: nat :: q < p ==> !StartsMatch(s, q)
  {
    forall q: nat | q < p ensures !StartsMatch(s, q) {
      StartsMatchIffMatchesAt(s, q);
    }
  }

  /** The scan stops at the first position where the pattern can start. */
  lemma {:induction false} LeftmostFound(s: string, from: nat, p: nat)
    requires from <= p && StartsMatch(s, p)
    requires forall q: nat :: from <= q < p ==> !StartsMatch(s, q)
    ensures FindFrom(s, from) == Some(p)
    decreases p - from
  {
    if from < p {
      LeftmostFound(s, from + 1, p);
    }
  }

  /** Every page count the parse returns comes from the leftmost match. */
  lemma ParsedCountHasMatch(s: string) returns (p: nat, k: nat, m: nat)
    requires ParsePageCount(s).Ok?
    ensures IsMatch(s, p, k, m)
    ensures forall q: nat :: q < p ==> !MatchesAt(s, q)
    ensures AllDigits(Group(s, p, k, m))
    ensures ParsePageCount(s).value == DecimalValue(Group(s, p, k, m))
  {
    p := FindFrom(s, 0).value;
    k, m := ScanMatchIsMatch(s, p);
    NoEarlierMatch(s, p);
  }

  /** Where the scan stops, the regular expression matches, and its group
      is the digits the parse reads. */
  lemma ScanMatchIsMatch(s: string, p: nat) returns (k: nat, m: nat)
    requires StartsMatch(s, p)
    ensures IsMatch(s, p, k, m)
    ensures MatchedDigits(s, p) == Group(s, p, k, m)
  {
    var j := SkipSpaces(s, p + |Label|);
    k, m := j - (p + |Label|), SkipDigits(s, j) - j;
  }

  lemma NoEarlierMatch(s: string, p: nat)
    requires forall q: nat :: q < p ==> !StartsMatch(s, q)
    ensures forall q: nat :: q < p ==> !MatchesAt(s, q)
  {
    forall q: nat | q < p ensures !MatchesAt(s, q) {
      StartsMatchIffMatchesAt(s, q);
    }
  }

  /** The parse fails exactly when no start position matches. */
  lemma ParseFailsIffNoMatch(s: string)
    ensures ParsePageCount(s) == Err(CountUndeterminable) <==> forall p: nat :: !MatchesAt(s, p)
  {
    if ParsePageCount(s).Err? {
      forall p: nat ensures !MatchesAt(s, p) {
        StartsMatchIffMatchesAt(s, p);
      }
    } else {
      var p, k, m := ParsedCountHasMatch(s);
      assert MatchesAt(s, p);
    }
  }

  // ---------------------------------------------------------------------
  // A worked sample: the first label is not followed by digits, so the
  // search goes on to the second one, and `int()` drops the leading zero.

  const SampleDump: string := "NumberOfPages: ?\nNumberOfPages:\t07\n"

  lemma SampleFirstLabelRejected()
    ensures forall q: nat :: q < 17 ==> !StartsMatch(SampleDump, q)
  {
    assert SkipSpaces(SampleDump, 14) == 15;
    forall q: nat | 1 <= q < 17 ensures !StartsMatch(SampleDump, q) {
      if q + |Label| <= |SampleDump| {
        assert SampleDump[q..q + |Label|][0] == SampleDump[q] != 'N';
      }
    }
  }

  lemma SampleSecondLabelMatches()
    ensures StartsMatch(SampleDump, 17)
    ensures SkipSpaces(SampleDump, 31) == 32 && SkipDigits(SampleDump, 32) == 34
  {
    assert SampleDump[17..31] == Label;
    assert SkipSpaces(SampleDump, 31) == 32;
  }

  lemma SampleDigitsValue()
    ensures DecimalValue("07") == 7
  {
    assert "07"[1..] == "7";
    assert "7"[1..] == "";
  }

  lemma SamplePageCount()
    ensures ParsePageCount(SampleDump) == Ok(7)
  {
    SampleFirstLabelRejected();
    SampleSecondLabelMatches();
    LeftmostFound(SampleDump, 0, 17);
    assert SampleDump[32..34] == "07";
    SampleDigitsValue();
  }
}
