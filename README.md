# printandscan, modelled in Dafny

`printandscan.py` makes a PDF look printed and scanned. It converts the
document to RGB with Ghostscript, bursts it into one PDF per page with pdftk,
asks pdftk for the page count, then for each page rasterises it with
ImageMagick and applies a slightly rotated, blurred, noisy distortion. Finally
it reassembles the scanned pages in order and recompresses the result with
Ghostscript.

This project models the logic of the script that does not depend on those
tools:

- `numerals.dfy` (module `Numerals`) covers ASCII decimal numerals as Python
  handles them: `int()` on a digit run, `str()` of an integer, the `{i:04d}`
  format, and Python's lexicographic `<` on strings.
- `page_count.dfy` (module `PageCount`) covers `get_pdf_page_count`. It states
  what `re.search(r'NumberOfPages:\s*(\d+)', ...)` matches as a predicate
  (`IsMatch`). It implements the search as a left-to-right scan (`FindFrom`)
  and proves the two agree.
- `page_names.dfy` (module `PageNames`) covers the per-page file names, the
  pdftk burst pattern and the two whole-document file names.
- `dependencies.dfy` (module `Dependencies`) covers `check_dependencies`, which
  filters `gs`, `pdftk` and `magick` by an availability oracle.
- `pipeline.dfy` (module `Pipeline`) covers `main`:
  - `DegradePages` is the per-page loop, a method that builds `scanned_pdfs`
    under a loop invariant.
  - `AssemblerArgv` builds the assembler's argument list.
  - `Run` is the whole orchestration. Each external call is an oracle in `Env`
    that either succeeds or ends the run with a `Fault`.
- `wrappers.dfy` (module `Wrappers`) defines the `Option` and `Result` types.
  They stand in for `None`, the exceptions and `sys.exit`.

The model follows the code in three places a reader might expect otherwise:
- Nothing checks the number of burst files against the page count.
- A page count of 0 gives an empty loop, and the assembler gets no input pages.
- The distortion parameters in the comment at printandscan.py:131-139 differ
  from the arguments the script actually passes. Neither set is modelled; both
  belong to the distortion tool.

## Model

| member | source | states |
|---|---|---|
| `Numerals.DecimalValue` | printandscan.py:56 | `int()` of an ASCII digit string is below 10 to the number of digits (leading zeros allowed) |
| `Numerals.LeadingZerosIgnored` | printandscan.py:56 | leading zeros in the captured digits do not change the value `int()` returns |
| `Numerals.DecimalString` | printandscan.py:118 | the numeral of `n` is a non-empty digit string without a leading zero that reads back as `n` |
| `Numerals.IntText` | printandscan.py:154 | `str(density)` starts with `-` exactly for negative densities, and its digits read back as the absolute value without a leading zero |
| `Numerals.Format04` | printandscan.py:118-120 | `{i:04d}` is all ASCII digits and reads back as `i`; it has at least 4 characters, exactly 4 iff `i < 10000`, and a longer text has no leading zero (the plain numeral) |
| `Numerals.Format04Injective` | printandscan.py:118-120 | distinct indices give distinct `{i:04d}` texts |
| `Numerals.LexLessIsNumericOrder` | printandscan.py:118-120 | for digit strings of equal length, string order is numeric order (both directions) |
| `Numerals.Format04Ordered` | printandscan.py:118-120 | below 10000, `{i:04d} < {j:04d}` as strings iff `i < j` |
| `Numerals.LexLess` | printandscan.py:118-120 | Python's `<` on `str`: a proper prefix sorts first, and no string is below the empty one or below itself; see `LexLessIsNumericOrder`, `LexLessIrreflexive` and `LexLessAsymmetric` |
| `Numerals.LexLessIrreflexive` | printandscan.py:118-120 | no string sorts before itself |
| `Numerals.LexLessAsymmetric` | printandscan.py:118-120 | if `a < b` as strings then not `b < a` |
| `Numerals.Format04AroundTenThousand` | printandscan.py:118-120 | `{10000:04d}` has five characters and starts with `1`; `{9999:04d}` has four and starts with `9` |
| `Numerals.Format04OrderBreaksAtTenThousand` | printandscan.py:118-120 | `{10000:04d}` sorts before `{9999:04d}` |
| `PageCount.IsMatch` | printandscan.py:54 | what `NumberOfPages:\s*(\d+)` matches at a start position: the label, `k` ASCII whitespace characters, then a maximal run of `m >= 1` digits, which is group 1; see `MatchIsUnique` and `StartsMatchIffMatchesAt` |
| `PageCount.MatchIsUnique` | printandscan.py:54 | at one start position the pattern matches in only one way: whitespace run and digit run are both maximal |
| `PageCount.FindFrom` | printandscan.py:54 | the scan returns the leftmost position at or after its start where the label, optional whitespace and a digit occur, or none if there is no such position |
| `PageCount.StartsMatchIffMatchesAt` | printandscan.py:54 | the scan's test at a position holds iff the regular expression matches there |
| `PageCount.ScanMatchIsMatch` | printandscan.py:54-56 | where the scan stops, the regular expression matches, and the digits the parse reads are the match's group 1 |
| `PageCount.ParseFindsLeftmostMatch` | printandscan.py:54-56 | when the leftmost match starts at `p`, the page count is the decimal value of that match's whole digit group |
| `PageCount.ParsedCountHasMatch` | printandscan.py:54-56 | every count returned comes from a leftmost match and is the value of its digit group |
| `PageCount.ParseFailsIffNoMatch` | printandscan.py:54-57 | the parse takes the "could not determine" error iff no position matches |
| `PageCount.ParsePageCount` | printandscan.py:54-57 | `re.search`, `int(match.group(1))` and the `RuntimeError`: its only error is `CountUndeterminable`; see `ParseFindsLeftmostMatch`, `ParsedCountHasMatch` and `ParseFailsIffNoMatch` |
| `PageCount.GetPdfPageCount` | printandscan.py:37-60 | a pdftk failure gives `ToolError`; with output, the only error is `CountUndeterminable` |
| `PageCount.SamplePageCount` | printandscan.py:54-56 | `NumberOfPages: ?` is skipped and the following `NumberOfPages:\t07` gives 7 |
| `PageNames.ArtifactName` | printandscan.py:118-120 | the three per-page names `{stem}-{i:04d}.pdf`, `.png` and `-scanned.pdf`: the stem, a `-`, then at least four digits; see `ArtifactNamesInjective` and `ArtifactNamesOrdered` |
| `PageNames.RgbName` | printandscan.py:99 | `{stem}_RGB.pdf`: the stem, then `_`; see `WorkspaceNamesDistinct` |
| `PageNames.LargeName` | printandscan.py:152 | `{stem}_large.pdf`: the stem, then `_`; see `WorkspaceNamesDistinct` |
| `PageNames.BurstPattern` | printandscan.py:109 | `{stem}-%04d.pdf`: the stem, then one character, then the `%04d` directive; see `BurstNameIsPagePdf` |
| `PageNames.ExpandPattern` | printandscan.py:109 | pdftk's expansion of `%04d` in the output pattern for page `i` never shortens the pattern; see `ExpandLiteralPrefix` and `BurstNameIsPagePdf` |
| `PageNames.Suffix` | printandscan.py:118-120 | each of the three per-page suffixes starts with a non-digit |
| `PageNames.ExpandLiteralPrefix` | printandscan.py:109 | pattern text without `%` is copied unchanged into the burst file name |
| `PageNames.BurstNameIsPagePdf` | printandscan.py:109-118 | for a stem without `%`, the file the `%04d` burst pattern names for page `i` is the loop's `page_pdf` for page `i` |
| `PageNames.ArtifactNamesInjective` | printandscan.py:118-120 | two per-page names are equal only for the same page and the same artifact, at every index |
| `PageNames.WorkspaceNamesDistinct` | printandscan.py:99-152 | `_RGB.pdf` and `_large.pdf` differ from each other and from every per-page name |
| `PageNames.ArtifactNamesOrdered` | printandscan.py:118-120 | for indices below 10000, one artifact's names sort as strings exactly as the indices do |
| `PageNames.ArtifactOrderBreaksAtTenThousand` | printandscan.py:118-120 | page 10000's name sorts before page 9999's |
| `Dependencies.MissingOf` | printandscan.py:25 | the missing list holds exactly the unavailable tools, in their order in the dependency list |
| `Dependencies.Join` | printandscan.py:28 | `sep.join(xs)` is empty for no elements, and otherwise starts with the first element and ends with the last; see `JoinContainsEach` |
| `Dependencies.JoinContainsEach` | printandscan.py:28 | every element of a list appears in its `', '.join` |
| `Dependencies.Diagnostic` | printandscan.py:27-34 | the two stderr lines, the first ending with `.`; see `MissingNamedInDiagnostic` and `OnlyGsInstalled` |
| `Dependencies.MissingNamedInDiagnostic` | printandscan.py:27-30 | every missing tool occurs in the first diagnostic line |
| `Dependencies.CheckDependencies` | printandscan.py:19-35 | the run stops iff some tool is unavailable; the report then lists every missing tool, in order, with the exact two-line diagnostic that names each one |
| `Dependencies.OnlyGsInstalled` | printandscan.py:24-35 | with only `gs` available, the report is `pdftk, magick` |
| `Pipeline.ScannedNames` | printandscan.py:114-148 | the closed form of `scanned_pdfs` after `n` pages, with `n` entries; see `DegradePages` and `ScannedNamesShape` |
| `Pipeline.DegradePages` | printandscan.py:114-149 | the loop succeeds iff every page's two calls succeed; on success the list is entry `k` = scanned name of page `k+1`, for all `num_pages` entries; on failure it names the first failing page and call |
| `Pipeline.ScannedNamesShape` | printandscan.py:114-148 | the scanned list has `num_pages` entries with no duplicates; with at most 9999 pages it is strictly ascending in string order |
| `Pipeline.AssemblerArgv` | printandscan.py:154 | the assembler argv has four entries more than the scanned list and ends with the output file; see `AssemblerSeesPagesInOrder` |
| `Pipeline.AssemblerSeesPagesInOrder` | printandscan.py:151-156 | the assembler argv has `num_pages + 4` entries: `magick -density str(density)`, then the scanned list unchanged, then `_large.pdf`, which is none of the inputs |
| `Pipeline.NoPagesNoInputs` | printandscan.py:113-156 | with 0 pages the loop's condition holds vacuously and the assembler gets no input file |
| `Pipeline.Run` | printandscan.py:90-166 | the stages run in the order dependency check, normalisation, burst, page count, per-page loop, assembly, compression; each fault is returned exactly when its stage is reached and its call fails (a missing tool stops the run before anything else); the run succeeds iff every stage does, and the assembler then got the page-ordered scanned list for the page count parsed from `rgb_pdf` |

## Left out

- The external tools are not modelled: Ghostscript's colour conversion and compression, pdftk's burst and `dump_data`, and ImageMagick's rasterising, distortion and assembly. Each `subprocess.run(..., check=True)` is a yes/no oracle in `Pipeline.Env`, and a "no" ends the run. Of the arguments of those calls only the files are modelled: each oracle receives the file names the call reads and writes (the document and `_RGB.pdf` for normalisation, `_RGB.pdf` and the burst pattern for the burst, `_RGB.pdf` for `dump_data`, the page files for rasterising and distortion, `_large.pdf` and the output path for compression), and the assembler receives its whole argv. The other options of the gs, pdftk and magick calls are not modelled.
- The random rotation (`random.uniform(-.5, .5)`) and its `{rotation:.4f}` text are left out because they involve randomness and floating point. Both sit inside the distortion oracle, which can answer differently for every page.
- The ImageMagick distortion constants are left out. They are opaque arguments to the tool.
- The temporary directory is left out: its creation, its cleanup, and the `tmp_path / name` join. Every name built from the stem (`RgbName`, `BurstPattern`, `ArtifactName`, `LargeName`) is relative to that directory; `document` and `output` in `Pipeline.Run` are the user's own paths (`args.document` and `args.output_fname`).
- Argument parsing is left out. So is `args.document.stem`, which becomes the parameter `base`.
- The progress output from `print` is left out.
- The page-count diagnostic `Error getting page count: {e}` (printandscan.py:59) is left out. `Pipeline.Run` keeps only the error kind, `ToolError` or `CountUndeterminable`, in `PageCountFailed`, and not the message text.
- `shutil.which` and PATH lookup become the oracle `onPath`.
- Exit statuses are left out. `sys.exit(1)` and an uncaught `CalledProcessError` both appear as an `Err` result.
- Python's Unicode `\s`, `\d` and `int()` are left out; only ASCII input is modelled. `\s` is CPython's ASCII whitespace: 0x09-0x0D, 0x1C-0x1F and space. `int()`'s limit on the number of digits, which raises an uncaught `ValueError`, is not modelled.
- `PageNames.BurstNameIsPagePdf`: holds only for a document stem without `%`. pdftk reads the output pattern as a printf format, and how it treats other `%` sequences in the stem is not modelled.
- `Numerals.Format04`: covers non-negative indices only. The loop never formats a negative index.
- `PageNames.ExpandPattern` models only the `%04d` directive of pdftk's printf-style pattern. That is the only directive the script writes.
