/** The comparison engine: classify each crate's pair of results and build
    the report entries. */
module Report {
  import opened Common
  import opened Ex
  import opened Results
  import opened Files
  import opened Model

  datatype Comparison = Regressed | Fixed | Unknown | SameBuildFail | SameTestFail | SameTestPass

  datatype BuildTestResult = BuildTestResult(res: TestResult, log: string)

  datatype CrateResult = CrateResult(
    name: string,
    res: Comparison,
    runs: (Option<BuildTestResult>, Option<BuildTestResult>))

  /** The severity order BuildFail < TestFail < TestPass. */
  function Severity(r: TestResult): nat {
    match r
    case BuildFail => 0
    case TestFail => 1
    case TestPass => 2
  }

  /** `compare`: the lattice over the severity order. */
  function Compare(r1: Option<BuildTestResult>, r2: Option<BuildTestResult>): (c: Comparison)
    ensures c == Unknown <==> r1.None? || r2.None?
    ensures c == SameBuildFail <==>
      r1.Some? && r2.Some? && r1.value.res == BuildFail && r2.value.res == BuildFail
    ensures c == SameTestFail <==>
      r1.Some? && r2.Some? && r1.value.res == TestFail && r2.value.res == TestFail
    ensures c == SameTestPass <==>
      r1.Some? && r2.Some? && r1.value.res == TestPass && r2.value.res == TestPass
    ensures c == Fixed <==>
      r1.Some? && r2.Some? && Severity(r1.value.res) < Severity(r2.value.res)
    ensures c == Regressed <==>
      r1.Some? && r2.Some? && Severity(r1.value.res) > Severity(r2.value.res)
  {
    match (r1, r2)
    case (Some(BuildTestResult(res1, _)), Some(BuildTestResult(res2, _))) =>
      (match (res1, res2)
       case (BuildFail, BuildFail) => SameBuildFail
       case (TestFail, TestFail) => SameTestFail
       case (TestPass, TestPass) => SameTestPass
       case (BuildFail, TestFail) => Fixed
       case (BuildFail, TestPass) => Fixed
       case (TestFail, TestPass) => Fixed
       case (TestPass, TestFail) => Regressed
       case (TestPass, BuildFail) => Regressed
       case (TestFail, BuildFail) => Regressed)
    case _ => Unknown
  }

  /** The classification the other way round. */
  function Mirror(c: Comparison): Comparison {
    match c
    case Fixed => Regressed
    case Regressed => Fixed
    case other => other
  }

  /** Swapping the two sides exchanges Fixed and Regressed only. */
  lemma CompareSwap(r1: Option<BuildTestResult>, r2: Option<BuildTestResult>)
    ensures Compare(r2, r1) == Mirror(Compare(r1, r2))
  {
  }

  /** The classification depends on the two results only, not on the logs. */
  lemma CompareIgnoresLogs(a: TestResult, b: TestResult, l1: string, l2: string, l3: string, l4: string)
    ensures Compare(Some(BuildTestResult(a, l1)), Some(BuildTestResult(b, l2)))
         == Compare(Some(BuildTestResult(a, l3)), Some(BuildTestResult(b, l4)))
  {
  }

  /** `crate_to_name`: `<name>-<version>` or `<org>.<name>.<sha>`. */
  function CrateToName(gh: UrlParser, c: ExCrate): (r: Result<string>)
    ensures r.Err? <==> !Resolvable(gh, c)
    ensures r.Err? ==> r.error == BadRepoUrl(c.url)
  {
    match c
    case Version(name, version) => Ok(name + "-" + version)
    case Repo(url, sha) =>
      match gh(url)
      case None => Err(BadRepoUrl(url))
      case Some((org, name)) => Ok(org + "." + name + "." + sha)
  }

  /** The report name is the crate directory without its `reg/` or `gh/`. */
  lemma NameIsDirWithoutKind(gh: UrlParser, c: ExCrate)
    requires Resolvable(gh, c)
    ensures CrateToDir(gh, c) == (if c.Version? then "reg/" else "gh/") + CrateToName(gh, c).value
  {
  }

  /** The name shown for an entry; `<unknown>` when the URL does not parse. */
  function EntryName(gh: UrlParser, c: ExCrate): (n: string)
    ensures !Resolvable(gh, c) ==> n == "<unknown>"
    ensures Resolvable(gh, c) ==> n == CrateToName(gh, c).value
  {
    match CrateToName(gh, c)
    case Ok(n) => n
    case Err(_) => "<unknown>"
  }

  /** One toolchain's run: absent when there is no result or loading failed. */
  function LoadRun(store: FsStore, t: Tree, gh: UrlParser, ex: string, c: ExCrate, tc: Toolchain)
    : (run: Option<BuildTestResult>)
    requires Resolvable(gh, c)
    ensures run.Some? <==> store.LoadTestResult(t, gh, ex, c, tc).Ok? && store.LoadTestResult(t, gh, ex, c, tc).value.Some?
    ensures run.Some? ==> run.value.res == store.LoadTestResult(t, gh, ex, c, tc).value.value
    ensures run.Some? ==> run.value.log == ResultPathFragment(gh, c, tc)
  {
    match store.LoadTestResult(t, gh, ex, c, tc)
    case Ok(Some(res)) => Some(BuildTestResult(res, ResultPathFragment(gh, c, tc)))
    case _ => None
  }

  function Entry(store: FsStore, t: Tree, gh: UrlParser, ex: Experiment, c: ExCrate): (r: CrateResult)
    requires |ex.toolchains| == 2
    requires Resolvable(gh, c)
    ensures r.name == EntryName(gh, c)
    ensures r.runs.0 == LoadRun(store, t, gh, ex.name, c, ex.toolchains[0])
    ensures r.runs.1 == LoadRun(store, t, gh, ex.name, c, ex.toolchains[1])
    ensures r.res == Unknown <==> r.runs.0.None? || r.runs.1.None?
  {
    var run1 := LoadRun(store, t, gh, ex.name, c, ex.toolchains[0]);
    var run2 := LoadRun(store, t, gh, ex.name, c, ex.toolchains[1]);
    CrateResult(EntryName(gh, c), Compare(run1, run2), (run1, run2))
  }

  /** `generate_report` over the crates `ex_crates_and_dirs` lists: one
      entry per crate in order, the first run from the first toolchain and
      the second from the second. The Rust code asserts exactly two
      toolchains, and computing a result path panics on a repository URL
      that does not parse. */
  function GenerateReport(store: FsStore, t: Tree, gh: UrlParser, ex: Experiment,
                          crates: Result<seq<ExCrate>>)
    : (r: Result<seq<CrateResult>>)
    requires |ex.toolchains| == 2
    requires crates.Ok? ==> forall i | 0 <= i < |crates.value| :: Resolvable(gh, crates.value[i])
    ensures crates.Err? ==> r == Err(crates.error)
    ensures crates.Ok? ==> r.Ok? && |r.value| == |crates.value|
    ensures crates.Ok? ==> forall i | 0 <= i < |r.value| ::
      var c := crates.value[i];
      var e := r.value[i];
      && e.name == EntryName(gh, c)
      && e.runs.0 == LoadRun(store, t, gh, ex.name, c, ex.toolchains[0])
      && e.runs.1 == LoadRun(store, t, gh, ex.name, c, ex.toolchains[1])
      && e.res == Compare(e.runs.0, e.runs.1)
  {
    match crates
    case Err(e) => Err(e)
    case Ok(cs) => Ok(seq(|cs|, i requires 0 <= i < |cs| => Entry(store, t, gh, ex, cs[i])))
  }

  /** A pass on the first toolchain and a build failure on the second is
      a regression, the reverse a fix. */
  lemma RegressionScenario(log1: string, log2: string)
    ensures Compare(Some(BuildTestResult(TestPass, log1)), Some(BuildTestResult(BuildFail, log2))) == Regressed
    ensures Compare(Some(BuildTestResult(BuildFail, log1)), Some(BuildTestResult(TestPass, log2))) == Fixed
    ensures Compare(Some(BuildTestResult(TestFail, log1)), Some(BuildTestResult(TestFail, log2))) == SameTestFail
    ensures Compare(None, Some(BuildTestResult(TestPass, log2))) == Unknown
  {
  }
}
