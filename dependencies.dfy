/** `check_dependencies` (printandscan.py:19-35): which of the three
    command-line tools are missing from the PATH, and the diagnostic the
    script prints before `sys.exit(1)`. `shutil.which(dep) is not None` is
    the oracle `onPath`. */
module Dependencies {

  const Required: seq<string> := ["gs", "pdftk", "magick"]

  /** `m` keeps some of the elements of `s`, in their order in `s`. */
  predicate IsSubsequence(m: seq<string>, s: seq<string>)
    decreases |s|
  {
    if m == [] then true
    else if s == [] then false
    else (m[0] == s[0] && IsSubsequence(m[1..], s[1..])) || IsSubsequence(m, s[1..])
  }

  /** `[dep for dep in deps if shutil.which(dep) is None]` */
  function MissingOf(deps: seq<string>, onPath: string -> bool): (m: seq<string>)
    ensures forall t :: t in m <==> t in deps && !onPath(t)
    ensures IsSubsequence(m, deps)
    ensures |m| <= |deps|
  {
    if deps == [] then []
    else if onPath(deps[0]) then MissingOf(deps[1..], onPath)
    else
      var rest := MissingOf(deps[1..], onPath);
      assert ([deps[0]] + rest)[1..] == rest;
      [deps[0]] + rest
  }

  /** `sep.join(xs)` */
  function Join(xs: seq<string>, sep: string): (r: string)
    ensures xs == [] ==> r == ""
    ensures xs != [] ==> |r| >= |xs[0]| && r[..|xs[0]|] == xs[0]
    ensures xs != [] ==> |r| >= |xs[|xs| - 1]| && r[|r| - |xs[|xs| - 1]|..] == xs[|xs| - 1]
    decreases |xs|
  {
    if xs == [] then ""
    else if |xs| == 1 then xs[0]
    else xs[0] + sep + Join(xs[1..], sep)
  }

  predicate OccursAt(t: string, s: string, o: nat) {
    o + |t| <= |s| && s[o..o + |t|] == t
  }

  ghost predicate IsInfix(t: string, s: string) {
    exists o: nat :: OccursAt(t, s, o)
  }

  lemma OccursWithin(t: string, p: string, s: string, q: string, o: nat)
    requires OccursAt(t, s, o)
    ensures OccursAt(t, p + s + q, |p| + o)
  {
    assert (p + s + q)[|p| + o .. |p| + o + |t|] == s[o..o + |t|];
  }

  /** Every element appears in the joined text. */
  lemma {:induction false} JoinContainsEach(xs: seq<string>, sep: string, k: nat)
    requires k < |xs|
    ensures IsInfix(xs[k], Join(xs, sep))
  {
    if |xs| == 1 {
      assert OccursAt(xs[0], Join(xs, sep), 0);
    } else if k == 0 {
      assert OccursAt(xs[0], xs[0] + (sep + Join(xs[1..], sep)), 0);
      assert Join(xs, sep) == xs[0] + (sep + Join(xs[1..], sep));
    } else {
      JoinContainsEach(xs[1..], sep, k - 1);
      var o: nat :| OccursAt(xs[k], Join(xs[1..], sep), o);
      OccursWithin(xs[k], xs[0] + sep, Join(xs[1..], sep), "", o);
      assert xs[0] + sep + Join(xs[1..], sep) + "" == Join(xs, sep);
    }
  }

  datatype DependencyCheck =
    | Satisfied
    | MissingTools(missing: seq<string>, diagnostic: seq<string>)

  /** The two lines printed to standard error before `sys.exit(1)`. */
  function Diagnostic(missing: seq<string>): (r: seq<string>)
    ensures |r| == 2 && |r[0]| > 0 && r[0][|r[0]| - 1] == '.'
  {
    [ "Error: Missing required dependencies: " + Join(missing, ", ") + ".",
      "Please install them and ensure they are in your system's PATH." ]
  }

  /** The run stops exactly when some required tool is not on the PATH; it
      then reports all the missing tools at once, in the order gs, pdftk,
      magick, each of them named in the first diagnostic line. */
  function CheckDependencies(onPath: string -> bool): (r: DependencyCheck)
    ensures r.MissingTools? <==> exists t :: t in Required && !onPath(t)
    ensures r.MissingTools? ==> r.missing == MissingOf(Required, onPath)
    ensures r.MissingTools? ==> forall t :: t in r.missing <==> t in Required && !onPath(t)
    ensures r.MissingTools? ==> r.diagnostic == Diagnostic(r.missing)
    ensures r.MissingTools? ==>
      forall k :: 0 <= k < |r.missing| ==> IsInfix(r.missing[k], r.diagnostic[0])
  {
    var missing := MissingOf(Required, onPath);
    if missing == [] then Satisfied
    else
      MissingNamedInDiagnostic(missing);
      MissingTools(missing, Diagnostic(missing))
  }

  lemma MissingNamedInDiagnostic(missing: seq<string>)
    ensures forall k :: 0 <= k < |missing| ==> IsInfix(missing[k], Diagnostic(missing)[0])
  {
    var pre := "Error: Missing required dependencies: ";
    forall k | 0 <= k < |missing|
      ensures IsInfix(missing[k], Diagnostic(missing)[0])
    {
      JoinContainsEach(missing, ", ", k);
      var o: nat :| OccursAt(missing[k], Join(missing, ", "), o);
      OccursWithin(missing[k], pre, Join(missing, ", "), ".", o);
    }
  }

  /** Which tools are reported missing, worked out for one environment:
      only `pdftk` and `magick` absent. */
  lemma OnlyGsInstalled(onPath: string -> bool)
    requires onPath("gs") && !onPath("pdftk") && !onPath("magick")
    ensures CheckDependencies(onPath) == MissingTools(["pdftk", "magick"], Diagnostic(["pdftk", "magick"]))
    ensures Diagnostic(["pdftk", "magick"])[0] == "Error: Missing required dependencies: pdftk, magick."
  {
    OnlyGsInstalledMissing(onPath);
    JoinTwo("pdftk", "magick", ", ");
  }

  lemma OnlyGsInstalledMissing(onPath: string -> bool)
    requires onPath("gs") && !onPath("pdftk") && !onPath("magick")
    ensures MissingOf(Required, onPath) == ["pdftk", "magick"]
  {
    assert Required[1..] == ["pdftk", "magick"];
    assert Required[1..][1..] == ["magick"];
    assert Required[1..][1..][1..] == [];
  }

  lemma JoinTwo(a: string, b: string, sep: string)
    ensures Join([a, b], sep) == a + sep + b
  {
    assert [a, b][1..] == [b];
  }
}
