/** The names of the files one page leaves in the temporary workspace:
    `f"{doc_basename}-{i:04d}.pdf"`, `.png` and `-scanned.pdf`
    (printandscan.py:118-120), the pdftk burst pattern
    `f'{doc_basename}-%04d.pdf'` (printandscan.py:109), and the two whole-
    document files `_RGB.pdf` (line 99) and `_large.pdf` (line 152). */
module PageNames {
  import opened Numerals

  /** The three per-page files. */
  datatype Artifact = PagePdf | PagePng | ScannedPdf

  function Suffix(a: Artifact): (s: string)
    ensures s != [] && !IsDigit(s[0])
  {
    match a
    case PagePdf => ".pdf"
    case PagePng => ".png"
    case ScannedPdf => "-scanned.pdf"
  }

  /** The name of artifact `a` of page `i` for the document stem `base`. */
  function ArtifactName(base: string, i: nat, a: Artifact): (r: string)
    ensures |r| >= |base| + 5 && r[..|base|] == base && r[|base|] == '-'
    ensures forall k :: |base| < k <= |base| + 4 ==> IsDigit(r[k])
  {
    var f := Format04(i);
    var r := (base + "-") + (f + Suffix(a));
    assert forall k :: |base| < k <= |base| + 4 ==> r[k] == f[k - |base| - 1];
    r
  }

  /** The colour-normalised copy of the document. */
  function RgbName(base: string): (r: string)
    ensures |r| == |base| + 8 && r[..|base|] == base && r[|base|] == '_'
  {
    base + "_RGB.pdf"
  }

  /** The assembled document before compression. */
  function LargeName(base: string): (r: string)
    ensures |r| == |base| + 10 && r[..|base|] == base && r[|base|] == '_'
  {
    base + "_large.pdf"
  }

  /** The output pattern handed to `pdftk burst`. */
  function BurstPattern(base: string): (r: string)
    ensures |r| == |base| + 9 && r[..|base|] == base && r[|base| + 1..|base| + 5] == "%04d"
  {
    base + "-%04d.pdf"
  }

  /** The file name pdftk derives from an output pattern for page `i`: every
      `%04d` directive becomes the page index in `{i:04d}` form (C's `%04d`
      and Python's `{:04d}` agree on non-negative integers); every other
      character is copied. */
  function ExpandPattern(pattern: string, i: nat): (r: string)
    ensures |r| >= |pattern|
    decreases |pattern|
  {
    if |pattern| >= 4 && pattern[..4] == "%04d" then Format04(i) + ExpandPattern(pattern[4..], i)
    else if pattern == [] then []
    else [pattern[0]] + ExpandPattern(pattern[1..], i)
  }

  // ---------------------------------------------------------------------
  // Burst names are the names the per-page loop reads

  lemma {:induction false} ExpandLiteralPrefix(lit: string, rest: string, i: nat)
    requires '%' !in lit
    ensures ExpandPattern(lit + rest, i) == lit + ExpandPattern(rest, i)
  {
    if lit != [] {
      var t := lit + rest;
      assert t[0] == lit[0] != '%';
      assert |t| >= 4 ==> t[..4] != "%04d" by { assert |t| >= 4 ==> t[..4][0] == t[0]; }
      assert t[1..] == lit[1..] + rest;
      ExpandLiteralPrefix(lit[1..], rest, i);
    } else {
      assert lit + rest == rest;
    }
  }

  /** For a stem without `%`, the file pdftk writes for page `i` is the file
      the loop opens as `page_pdf` for page `i`. */
  lemma BurstNameIsPagePdf(base: string, i: nat)
    requires '%' !in base
    ensures ExpandPattern(BurstPattern(base), i) == ArtifactName(base, i, PagePdf)
  {
    var tail := "%04d.pdf";
    assert BurstPattern(base) == (base + "-") + tail;
    ExpandLiteralPrefix(base + "-", tail, i);
    assert tail[..4] == "%04d" && tail[4..] == ".pdf";
    ExpandLiteralPrefix(".pdf", [], i);
    assert ".pdf" + [] == ".pdf";
    assert ExpandPattern([], i) == [];
  }

  // ---------------------------------------------------------------------
  // Injectivity

  /** In `x + s`, with `x` all digits and `s` starting with a non-digit, `|x|`
      is the position of the first non-digit. */
  lemma DigitRunEndsAt(x: string, s: string)
    requires AllDigits(x) && s != [] && !IsDigit(s[0])
    ensures forall k :: 0 <= k < |x| ==> IsDigit((x + s)[k])
    ensures !IsDigit((x + s)[|x|])
  {
  }

  lemma DigitRunSplit(x: string, s: string, y: string, t: string)
    requires AllDigits(x) && s != [] && !IsDigit(s[0])
    requires AllDigits(y) && t != [] && !IsDigit(t[0])
    requires x + s == y + t
    ensures x == y && s == t
  {
    DigitRunEndsAt(x, s);
    DigitRunEndsAt(y, t);
    assert |x| == |y|;
    assert x == (x + s)[..|x|] && y == (y + t)[..|y|];
    assert s == (x + s)[|x|..] && t == (y + t)[|y|..];
  }

  /** No two per-page files share a name: distinct page indices, or distinct
      artifacts of one page, give distinct names, at any index. */
  lemma ArtifactNamesInjective(base: string, i: nat, j: nat, a: Artifact, b: Artifact)
    requires ArtifactName(base, i, a) == ArtifactName(base, j, b)
    ensures i == j && a == b
  {
    var p := base + "-";
    var u, v := Format04(i) + Suffix(a), Format04(j) + Suffix(b);
    SplitName(base, i, a);
    SplitName(base, j, b);
    assert u == (p + u)[|p|..] && v == (p + v)[|p|..];
    DigitRunSplit(Format04(i), Suffix(a), Format04(j), Suffix(b));
    Format04Injective(i, j);
  }

  lemma SplitName(base: string, i: nat, a: Artifact)
    ensures ArtifactName(base, i, a) == (base + "-") + (Format04(i) + Suffix(a))
  {
  }

  /** The whole-document files never collide with a per-page file or with
      each other. */
  lemma WorkspaceNamesDistinct(base: string, i: nat, a: Artifact)
    ensures RgbName(base) != LargeName(base)
    ensures ArtifactName(base, i, a) != RgbName(base)
    ensures ArtifactName(base, i, a) != LargeName(base)
  {
    var n := |base|;
    assert ArtifactName(base, i, a)[n] == '-';
    assert RgbName(base)[n] == '_' && LargeName(base)[n] == '_';
    assert RgbName(base)[n + 1] == 'R' && LargeName(base)[n + 1] == 'l';
  }

  // ---------------------------------------------------------------------
  // Lexicographic order

  /** Up to page 9999 the names sort like the page indices. */
  lemma ArtifactNamesOrdered(base: string, i: nat, j: nat, a: Artifact)
    requires i < 10000 && j < 10000
    ensures LexLess(ArtifactName(base, i, a), ArtifactName(base, j, a)) <==> i < j
  {
    var p, s := base + "-", Suffix(a);
    var x, y := Format04(i), Format04(j);
    SplitName(base, i, a);
    SplitName(base, j, a);
    LexLessCommonPrefix(p, x + s, y + s);
    Format04Ordered(i, j);
    if i < j {
      LexLessExtend(x, y, s, s);
    } else if i == j {
      LexLessIrreflexive(x + s);
    } else {
      Format04Ordered(j, i);
      LexLessExtend(y, x, s, s);
      LexLessAsymmetric(y + s, x + s);
    }
  }

  /** From page 10000 on the width grows and the order breaks: page 10000's
      name sorts before page 9999's. */
  lemma ArtifactOrderBreaksAtTenThousand(base: string, a: Artifact)
    ensures LexLess(ArtifactName(base, 10000, a), ArtifactName(base, 9999, a))
  {
    var p, s := base + "-", Suffix(a);
    var x, y := Format04(10000), Format04(9999);
    Format04AroundTenThousand();
    SplitName(base, 10000, a);
    SplitName(base, 9999, a);
    LexLessCommonPrefix(p, x + s, y + s);
    assert (x + s)[0] == '1' && (y + s)[0] == '9';
  }
}
