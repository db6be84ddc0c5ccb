/** Outcome tokens and the path fragment that keys a (crate, toolchain) pair. */
module Results {
  import opened Common
  import opened Ex

  datatype TestResult = BuildFail | TestFail | TestPass

  /** The token a result is stored as. */
  function ToString(r: TestResult): (s: string)
    ensures |s| > 0
  {
    match r
    case BuildFail => "build-fail"
    case TestFail => "test-fail"
    case TestPass => "test-pass"
  }

  /** The three tokens `ToString` can produce. */
  predicate IsToken(s: string) {
    s == "build-fail" || s == "test-fail" || s == "test-pass"
  }

  /** Parse a token; anything else is a "bogus test result". */
  function FromStr(s: string): (r: Result<TestResult>)
    ensures r.Ok? <==> IsToken(s)
    ensures r.Ok? ==> ToString(r.value) == s
    ensures r.Err? ==> r.error == Msg("bogus test result: " + s)
  {
    match s
    case "build-fail" => Ok(BuildFail)
    case "test-fail" => Ok(TestFail)
    case "test-pass" => Ok(TestPass)
    case _ => Err(Msg("bogus test result: " + s))
  }

  /** Parsing a printed result gives the result back. */
  lemma ParsePrinted(r: TestResult)
    ensures IsToken(ToString(r))
    ensures FromStr(ToString(r)) == Ok(r)
  {
  }

  /** Distinct results print to distinct tokens. */
  lemma PrintInjective(a: TestResult, b: TestResult)
    ensures ToString(a) == ToString(b) ==> a == b
  {
  }

  /** `crate_to_dir`: `reg/<name>-<version>` or `gh/<org>.<name>.<sha>`.
      A repository URL that does not parse makes the Rust code panic. */
  function CrateToDir(gh: UrlParser, c: ExCrate): (s: string)
    requires Resolvable(gh, c)
    ensures StartsWith(s, if c.Version? then "reg/" else "gh/")
  {
    match c
    case Version(name, version) => "reg/" + name + "-" + version
    case Repo(url, sha) =>
      var (org, name) := gh(url).value;
      "gh/" + org + "." + name + "." + sha
  }

  /** The crate directory as path components: its kind, then its identity. */
  function CrateDirComponents(gh: UrlParser, c: ExCrate): (p: seq<string>)
    requires Resolvable(gh, c)
    ensures |p| == 2
    ensures p[0] == (if c.Version? then "reg" else "gh")
  {
    match c
    case Version(name, version) => ["reg", name + "-" + version]
    case Repo(url, sha) =>
      var (org, name) := gh(url).value;
      ["gh", org + "." + name + "." + sha]
  }

  /** `result_path_fragement`: the toolchain's rustup name joined with the
      crate directory. */
  function ResultPathFragment(gh: UrlParser, c: ExCrate, tc: Toolchain): (s: string)
    requires Resolvable(gh, c)
    ensures StartsWith(s, tc.rustupName + "/")
    ensures s[|tc.rustupName| + 1..] == CrateToDir(gh, c)
  {
    tc.rustupName + "/" + CrateToDir(gh, c)
  }

  /** The same fragment as path components. */
  function FragmentComponents(gh: UrlParser, c: ExCrate, tc: Toolchain): (p: seq<string>)
    requires Resolvable(gh, c)
    ensures |p| == 3
    ensures p[0] == tc.rustupName && p[1] == (if c.Version? then "reg" else "gh")
    ensures p[1..] == CrateDirComponents(gh, c)
  {
    [tc.rustupName] + CrateDirComponents(gh, c)
  }

  /** The crate directory string is its components joined by `/`. */
  lemma CrateDirJoined(gh: UrlParser, c: ExCrate)
    requires Resolvable(gh, c)
    ensures Join(CrateDirComponents(gh, c), "/") == CrateToDir(gh, c)
  {
    var p := CrateDirComponents(gh, c);
    assert Join(p, "/") == p[0] + "/" + p[1];
  }

  /** The fragment string is its components joined by `/`. */
  lemma FragmentJoined(gh: UrlParser, c: ExCrate, tc: Toolchain)
    requires Resolvable(gh, c)
    ensures Join(FragmentComponents(gh, c, tc), "/") == ResultPathFragment(gh, c, tc)
  {
    var p := FragmentComponents(gh, c, tc);
    assert p[1..] == CrateDirComponents(gh, c);
    CrateDirJoined(gh, c);
  }

  /** The two crate kinds map to the two documented layouts. */
  lemma FragmentLayout(gh: UrlParser, c: ExCrate, tc: Toolchain)
    requires Resolvable(gh, c)
    ensures c.Version? ==>
      ResultPathFragment(gh, c, tc) == tc.rustupName + "/reg/" + c.name + "-" + c.version
    ensures c.Repo? ==>
      ResultPathFragment(gh, c, tc)
        == tc.rustupName + "/gh/" + gh(c.url).value.0 + "." + gh(c.url).value.1 + "." + c.sha
  {
  }

  /** A registry crate never shares a directory with a repository crate. */
  lemma {:induction false} RegistryAndRepoDirsDiffer(gh: UrlParser, a: ExCrate, b: ExCrate)
    requires Resolvable(gh, a) && Resolvable(gh, b)
    requires a.Version? && b.Repo?
    ensures CrateToDir(gh, a) != CrateToDir(gh, b)
    ensures CrateDirComponents(gh, a) != CrateDirComponents(gh, b)
  {
    assert CrateToDir(gh, a)[0] == 'r';
    assert CrateToDir(gh, b)[0] == 'g';
  }
}
