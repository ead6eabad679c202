/** The orchestration in `main` (printandscan.py:90-166): the dependency
    check, the colour normalisation, the burst, the page count, the per-page
    loop that builds `scanned_pdfs`, and the assembler and compressor calls.
    Every `subprocess.run(..., check=True)` is an oracle in `Env` that says
    whether that call succeeds; a failed call raises and ends the run. */
module Pipeline {
  import opened Wrappers
  import opened Numerals
  import opened PageCount
  import opened PageNames
  import opened Dependencies

  /** What the environment answers to each external call of one run. The
      names built from the stem are relative to the run's temporary
      directory; the document and the output are the user's own paths. */
  datatype Env = Env(
    onPath: string -> bool,                 // shutil.which(tool) is not None
    normalizeOk: (string, string) -> bool,  // gs document -> rgb_pdf in DeviceRGB, lines 100-104
    burstOk: (string, string) -> bool,      // pdftk burst of rgb_pdf to an output pattern, lines 108-111
    dumpData: string -> Option<string>,     // stdout of pdftk dump_data on a file, None if it failed, lines 48-53
    rasterizeOk: (string, string) -> bool,  // magick page_pdf -> page_png, lines 123-126
    distortOk: (string, string) -> bool,    // magick page_png -> scanned_pdf at a random angle, lines 140-147
    assembleOk: seq<string> -> bool,        // magick with the assembler argv, lines 153-156
    compressOk: (string, string) -> bool    // gs compression of large_pdf to the output path, lines 159-164
  )

  /** Why a run ends early. */
  datatype Fault =
    | MissingDependencies(missing: seq<string>, diagnostic: seq<string>)
    | NormalizeFailed
    | BurstFailed
    | PageCountFailed(error: PageCountError)
    | RasterizeFailed(page: nat)
    | DistortFailed(page: nat)
    | AssembleFailed
    | CompressFailed

  // ---------------------------------------------------------------------
  // The per-page loop

  /** Both tool calls for page `i` succeed. */
  predicate PageSucceeds(env: Env, base: string, i: nat) {
    && env.rasterizeOk(ArtifactName(base, i, PagePdf), ArtifactName(base, i, PagePng))
    && env.distortOk(ArtifactName(base, i, PagePng), ArtifactName(base, i, ScannedPdf))
  }

  predicate PagesSucceed(env: Env, base: string, from: nat, to: nat) {
    forall p :: from <= p < to ==> PageSucceeds(env, base, p)
  }

  /** The list `scanned_pdfs` holds after `n` pages: entry `k` is the scanned
      file of page `k + 1`. */
  function ScannedNames(base: string, n: nat): (r: seq<string>)
    ensures |r| == n
  {
    seq(n, k requires 0 <= k => ArtifactName(base, k + 1, ScannedPdf))
  }

  /** `f` is what the loop reports for the first page, `page`, that fails:
      the rasterisation if that call fails, the distortion otherwise. */
  predicate IsFirstFailure(env: Env, base: string, n: nat, f: Fault) {
    && (f.RasterizeFailed? || f.DistortFailed?)
    && 1 <= f.page <= n
    && PagesSucceed(env, base, 1, f.page)
    && (f.RasterizeFailed? <==>
          !env.rasterizeOk(ArtifactName(base, f.page, PagePdf), ArtifactName(base, f.page, PagePng)))
    && !PageSucceeds(env, base, f.page)
  }

  /** `for i in range(1, num_pages + 1)` (lines 117-149): rasterise and
      distort page `i`, then append its scanned name to `scanned_pdfs`. */
  method DegradePages(env: Env, base: string, numPages: nat) returns (r: Result<seq<string>, Fault>)
    ensures r.Ok? <==> PagesSucceed(env, base, 1, numPages + 1)
    ensures r.Ok? ==> r.value == ScannedNames(base, numPages)
    ensures r.Err? ==> IsFirstFailure(env, base, numPages, r.error)
  {
    var scanned: seq<string> := [];
    var i := 1;
    while i <= numPages
      invariant 1 <= i <= numPages + 1
      invariant scanned == ScannedNames(base, i - 1)
      invariant PagesSucceed(env, base, 1, i)
    {
      var pagePdf := ArtifactName(base, i, PagePdf);
      var pagePng := ArtifactName(base, i, PagePng);
      var scannedPdf := ArtifactName(base, i, ScannedPdf);
      if !env.rasterizeOk(pagePdf, pagePng) {
        assert !PageSucceeds(env, base, i);
        return Err(RasterizeFailed(i));
      }
      if !env.distortOk(pagePng, scannedPdf) {
        assert !PageSucceeds(env, base, i);
        return Err(DistortFailed(i));
      }
      ScannedNamesGrow(base, i);
      PagesSucceedGrow(env, base, i);
      scanned := scanned + [scannedPdf];
      i := i + 1;
    }
    return Ok(scanned);
  }

  lemma ScannedNamesGrow(base: string, i: nat)
    requires i >= 1
    ensures ScannedNames(base, i) == ScannedNames(base, i - 1) + [ArtifactName(base, i, ScannedPdf)]
  {
  }

  lemma PagesSucceedGrow(env: Env, base: string, i: nat)
    requires PagesSucceed(env, base, 1, i) && PageSucceeds(env, base, i)
    ensures PagesSucceed(env, base, 1, i + 1)
  {
  }

  /** The scanned list has one entry per page, entry `k` for page `k + 1`;
      the entries are pairwise distinct and, up to 9999 pages, strictly
      ascending in string order. */
  lemma ScannedNamesShape(base: string, n: nat)
    ensures |ScannedNames(base, n)| == n
    ensures forall k :: 0 <= k < n ==> ScannedNames(base, n)[k] == ArtifactName(base, k + 1, ScannedPdf)
    ensures forall k, l :: 0 <= k < l < n ==> ScannedNames(base, n)[k] != ScannedNames(base, n)[l]
    ensures n <= 9999 ==>
      forall k, l :: 0 <= k < l < n ==> LexLess(ScannedNames(base, n)[k], ScannedNames(base, n)[l])
  {
    var s := ScannedNames(base, n);
    forall k, l | 0 <= k < l < n ensures s[k] != s[l] {
      if s[k] == s[l] {
        ArtifactNamesInjective(base, k + 1, l + 1, ScannedPdf, ScannedPdf);
      }
    }
    if n <= 9999 {
      forall k, l | 0 <= k < l < n ensures LexLess(s[k], s[l]) {
        ArtifactNamesOrdered(base, k + 1, l + 1, ScannedPdf);
      }
    }
  }

  // ---------------------------------------------------------------------
  // The assembler call

  /** `['magick', '-density', str(density)] + scanned_pdfs + [large_pdf]`
      (line 154). */
  function AssemblerArgv(density: int, scanned: seq<string>, large: string): (r: seq<string>)
    ensures |r| == |scanned| + 4 && r[|r| - 1] == large
  {
    ["magick", "-density", IntText(density)] + scanned + [large]
  }

  /** What magick reads from its argv: the files between the options and the
      last argument are the input pages, in order, and the last argument is
      the output. */
  function AssemblerInputs(argv: seq<string>): seq<string>
    requires |argv| >= 4
  {
    argv[3..|argv| - 1]
  }

  /** The assembler receives exactly the pages the loop produced, in page
      order, none of them twice, and writes a file that is none of them. */
  lemma AssemblerSeesPagesInOrder(base: string, density: int, n: nat)
    ensures |AssemblerArgv(density, ScannedNames(base, n), LargeName(base))| == n + 4
    ensures AssemblerArgv(density, ScannedNames(base, n), LargeName(base))[..3]
            == ["magick", "-density", IntText(density)]
    ensures AssemblerInputs(AssemblerArgv(density, ScannedNames(base, n), LargeName(base)))
            == ScannedNames(base, n)
    ensures AssemblerArgv(density, ScannedNames(base, n), LargeName(base))[n + 3] == LargeName(base)
    ensures LargeName(base) !in ScannedNames(base, n)
  {
    var s := ScannedNames(base, n);
    var argv := AssemblerArgv(density, s, LargeName(base));
    assert argv[3..|argv| - 1] == s;
    forall k | 0 <= k < n ensures s[k] != LargeName(base) {
      WorkspaceNamesDistinct(base, k + 1, ScannedPdf);
    }
  }

  /** With no pages the loop runs no iteration and the assembler gets only
      the options and the output file. */
  lemma NoPagesNoInputs(env: Env, base: string, density: int)
    ensures PagesSucceed(env, base, 1, 1)
    ensures AssemblerArgv(density, ScannedNames(base, 0), LargeName(base))
            == ["magick", "-density", IntText(density), LargeName(base)]
  {
    assert ScannedNames(base, 0) == [];
  }

  // ---------------------------------------------------------------------
  // The whole run

  /** The stages of `main`, each reached only when every earlier one
      succeeded: dependency check, normalisation, burst, page count, the
      per-page loop, assembly, compression. */
  predicate ReachesNormalize(env: Env) {
    CheckDependencies(env.onPath).Satisfied?
  }

  predicate ReachesBurst(env: Env, document: string, base: string) {
    ReachesNormalize(env) && env.normalizeOk(document, RgbName(base))
  }

  predicate ReachesPageCount(env: Env, document: string, base: string) {
    ReachesBurst(env, document, base) && env.burstOk(RgbName(base), BurstPattern(base))
  }

  /** `get_pdf_page_count(rgb_pdf)` (line 113). */
  function PageCountOf(env: Env, base: string): Result<nat, PageCountError> {
    GetPdfPageCount(env.dumpData(RgbName(base)))
  }

  predicate ReachesPages(env: Env, document: string, base: string) {
    ReachesPageCount(env, document, base) && PageCountOf(env, base).Ok?
  }

  predicate ReachesAssemble(env: Env, document: string, base: string) {
    && ReachesPages(env, document, base)
    && PagesSucceed(env, base, 1, PageCountOf(env, base).value + 1)
  }

  /** The argv of the assembler call once the loop has run over every page. */
  function FinalArgv(env: Env, base: string, density: int): seq<string>
    requires PageCountOf(env, base).Ok?
  {
    AssemblerArgv(density, ScannedNames(base, PageCountOf(env, base).value), LargeName(base))
  }

  predicate ReachesCompress(env: Env, document: string, base: string, density: int) {
    && ReachesAssemble(env, document, base)
    && env.assembleOk(FinalArgv(env, base, density))
  }

  /** Every stage of the run succeeds. */
  predicate RunSucceeds(env: Env, document: string, base: string, density: int, output: string) {
    && ReachesCompress(env, document, base, density)
    && env.compressOk(LargeName(base), output)
  }

  /** `main` after argument parsing, with `args.document` as `document`,
      `doc_basename` as `base`, `args.density` as `density` and
      `args.output_fname` as `output`. Each fault is reported exactly when
      its stage is reached and fails; on success the run yields the argv the
      assembler was run with. */
  method Run(env: Env, document: string, base: string, density: int, output: string)
    returns (r: Result<seq<string>, Fault>)
    ensures !ReachesNormalize(env) ==>
      r == Err(MissingDependencies(CheckDependencies(env.onPath).missing,
                                   CheckDependencies(env.onPath).diagnostic))
    ensures r.Err? && r.error.MissingDependencies? <==> !ReachesNormalize(env)
    ensures r == Err(NormalizeFailed) <==>
      ReachesNormalize(env) && !env.normalizeOk(document, RgbName(base))
    ensures r == Err(BurstFailed) <==>
      ReachesBurst(env, document, base) && !env.burstOk(RgbName(base), BurstPattern(base))
    ensures r.Err? && r.error.PageCountFailed? <==>
      ReachesPageCount(env, document, base) && PageCountOf(env, base).Err?
    ensures r.Err? && r.error.PageCountFailed? ==> PageCountOf(env, base) == Err(r.error.error)
    ensures r.Err? && (r.error.RasterizeFailed? || r.error.DistortFailed?) <==>
      ReachesPages(env, document, base) && !ReachesAssemble(env, document, base)
    ensures r.Err? && (r.error.RasterizeFailed? || r.error.DistortFailed?) ==>
      PageCountOf(env, base).Ok? &&
      IsFirstFailure(env, base, PageCountOf(env, base).value, r.error)
    ensures r == Err(AssembleFailed) <==>
      ReachesAssemble(env, document, base) && !env.assembleOk(FinalArgv(env, base, density))
    ensures r == Err(CompressFailed) <==>
      ReachesCompress(env, document, base, density) && !env.compressOk(LargeName(base), output)
    ensures r.Ok? <==> RunSucceeds(env, document, base, density, output)
    ensures r.Ok? ==> PageCountOf(env, base).Ok? && r.value == FinalArgv(env, base, density)
  {
    var check := CheckDependencies(env.onPath);
    if check.MissingTools? {
      return Err(MissingDependencies(check.missing, check.diagnostic));
    }
    var rgbPdf := RgbName(base);
    if !env.normalizeOk(document, rgbPdf) {
      return Err(NormalizeFailed);
    }
    if !env.burstOk(rgbPdf, BurstPattern(base)) {
      return Err(BurstFailed);
    }
    var count := GetPdfPageCount(env.dumpData(rgbPdf));
    if count.Err? {
      return Err(PageCountFailed(count.error));
    }
    var pages := DegradePages(env, base, count.value);
    if pages.Err? {
      return Err(pages.error);
    }
    var largePdf := LargeName(base);
    var argv := AssemblerArgv(density, pages.value, largePdf);
    if !env.assembleOk(argv) {
      return Err(AssembleFailed);
    }
    if !env.compressOk(largePdf, output) {
      return Err(CompressFailed);
    }
    return Ok(argv);
  }
}
