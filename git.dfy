/** Git helpers: the URL rewrite, clone-or-pull, and the depth ladder that
    looks for a commit with ever deeper shallow clones. Each git command is
    an oracle: its result, and for the commands that change the checkout,
    the tree it leaves. */
module Git {
  import opened Common
  import opened Files

  /** `frob_url`: switch to the unauthenticated git protocol, so that a
      private repository fails instead of asking for a password. */
  function FrobUrl(url: string): (u: string)
    ensures StartsWith(url, "https://") ==> StartsWith(u, "git://")
  {
    Replace(url, "https://", "git://")
  }

  /** A URL without `https://` is left as it is. */
  lemma FrobUrlKeepsOthers(url: string)
    requires !Occurs(url, "https://")
    ensures FrobUrl(url) == url
  {
    ReplaceNoOccurrence(url, "https://", "git://");
  }

  /** An `https://` URL is rewritten to `git://` with the rest unchanged. */
  lemma FrobUrlHttps(rest: string)
    requires !Occurs(rest, "https://")
    ensures FrobUrl("https://" + rest) == "git://" + rest
  {
    var url := "https://" + rest;
    assert url[..|"https://"|] == "https://";
    assert url[|"https://"|..] == rest;
    ReplaceNoOccurrence(rest, "https://", "git://");
  }

  /** The decimal digits of `n`, as `format!("{}", n)` prints them. */
  function ShowNat(n: nat): (s: string)
    ensures |s| > 0
    ensures forall i | 0 <= i < |s| :: '0' <= s[i] <= '9'
    ensures s[0] == '0' ==> n == 0
  {
    var digit := ['0' + (n % 10) as char];
    if n < 10 then digit else ShowNat(n / 10) + digit
  }

  /** The number a string of decimal digits denotes. */
  function DigitsValue(s: string): nat
    requires forall i | 0 <= i < |s| :: '0' <= s[i] <= '9'
    decreases |s|
  {
    if |s| == 0 then 0
    else DigitsValue(s[..|s| - 1]) * 10 + (s[|s| - 1] as int - '0' as int)
  }

  /** `ShowNat` prints the decimal form of its argument: reading the digits
      back gives the number. */
  lemma {:induction false} ShowNatValue(n: nat)
    ensures DigitsValue(ShowNat(n)) == n
    decreases n
  {
    var s := ShowNat(n);
    if n >= 10 {
      ShowNatValue(n / 10);
      assert s[..|s| - 1] == ShowNat(n / 10);
    }
  }

  /** Different depths print differently. */
  lemma ShowNatInjective(a: nat, b: nat)
    ensures ShowNat(a) == ShowNat(b) ==> a == b
  {
    ShowNatValue(a);
    ShowNatValue(b);
  }

  /** How deep a clone goes. */
  datatype Depth = Shallow(n: nat) | Full

  /** The depths tried, in order: four shallow clones, then a full one. */
  const Ladder: seq<Depth> := [Shallow(1), Shallow(10), Shallow(100), Shallow(1000), Full]

  /** The arguments of `git clone` at a depth. */
  function CloneArgs(d: Depth, url: string, dir: Path): (args: seq<string>)
    ensures |args| >= 3
    ensures args[0] == "clone" && url in args && PathText(dir) == args[|args| - 1]
  {
    match d
    case Shallow(n) => ["clone", "--depth", ShowNat(n), url, PathText(dir)]
    case Full => ["clone", url, PathText(dir)]
  }

  lemma LadderArgs(url: string, dir: Path)
    ensures CloneArgs(Ladder[0], url, dir) == ["clone", "--depth", "1", url, PathText(dir)]
    ensures CloneArgs(Ladder[3], url, dir) == ["clone", "--depth", "1000", url, PathText(dir)]
    ensures CloneArgs(Ladder[4], url, dir) == ["clone", url, PathText(dir)]
  {
    assert ShowNat(10) == "10";
    assert ShowNat(100) == "100";
    assert ShowNat(1000) == "1000";
  }

  /** `shallow_fetch_sha`: make sure commit `sha` exists in `dir`.
      `present` is whether it does before anything runs; `clone(d)` is
      the result of the retried clone at depth `d`, and `found(d)` whether
      the commit exists afterwards. `tried` lists the depths cloned and
      `cmds` the clone commands run, in order. */
  method ShallowFetchSha(url: string, dir: Path, sha: string, present: bool,
                         clone: Depth -> Result<()>, found: Depth -> bool)
    returns (r: Result<()>, tried: seq<Depth>, cmds: seq<seq<string>>)
    ensures present ==> r == Ok(()) && tried == []
    ensures !present ==> 1 <= |tried| <= |Ladder| && tried == Ladder[..|tried|]
    ensures |cmds| == |tried|
    ensures forall k | 0 <= k < |tried| :: cmds[k] == CloneArgs(tried[k], FrobUrl(url), dir)
    ensures forall k | 0 <= k < |tried| - 1 :: clone(tried[k]).Ok? && !found(tried[k])
    ensures !present && |tried| < |Ladder| ==>
      0 < |tried| && (clone(tried[|tried| - 1]).Err? || found(tried[|tried| - 1]))
    ensures r.Ok? <==>
      present || (0 < |tried| && clone(tried[|tried| - 1]).Ok? && found(tried[|tried| - 1]))
    ensures !present && 0 < |tried| && clone(tried[|tried| - 1]).Err? ==>
      r == Err(Chain("unable to clone " + FrobUrl(url), clone(tried[|tried| - 1]).error))
    ensures !present && 0 < |tried| && clone(tried[|tried| - 1]).Ok? && !found(tried[|tried| - 1]) ==>
      |tried| == |Ladder| && r == Err(Msg("commit " + sha + " does not exist in " + FrobUrl(url)))
  {
    var u := FrobUrl(url);
    tried, cmds := [], [];
    if present {
      return Ok(()), tried, cmds;
    }
    var depths: seq<nat> := [1, 10, 100, 1000];
    var i := 0;
    while i < |depths|
      invariant 0 <= i <= |depths|
      invariant tried == Ladder[..i]
      invariant |cmds| == i
      invariant forall k | 0 <= k < i :: cmds[k] == CloneArgs(tried[k], u, dir)
      invariant forall k | 0 <= k < i :: clone(tried[k]).Ok? && !found(tried[k])
    {
      var d := Shallow(depths[i]);
      tried, cmds := tried + [d], cmds + [CloneArgs(d, u, dir)];
      var c := ChainErr(clone(d), "unable to clone " + u);
      if c.Err? {
        return c, tried, cmds;
      }
      if found(d) {
        return Ok(()), tried, cmds;
      }
      i := i + 1;
    }
    tried, cmds := tried + [Full], cmds + [CloneArgs(Full, u, dir)];
    assert tried == Ladder;
    var c := ChainErr(clone(Full), "unable to clone " + u);
    if c.Err? {
      return c, tried, cmds;
    }
    if !found(Full) {
      return Err(Msg("commit " + sha + " does not exist in " + u)), tried, cmds;
    }
    return Ok(()), tried, cmds;
  }

  /** A git command that changes the checkout: its result and the tree it
      leaves behind. */
  datatype GitRun = GitRun(result: Result<()>, after: Tree)

  /** A git command run on `dir` leaves a well-formed tree and touches
      nothing outside `dir`. */
  ghost predicate ConfinedTo(run: GitRun, t: Tree, dir: Path) {
    WellFormed(run.after) && UnchangedOutside(t, run.after, dir)
  }

  /** `shallow_clone_or_pull`: clone at depth 1 when `dir` is absent and
      pull inside it otherwise; a failed clone leaves no directory. */
  method ShallowCloneOrPull(fs: FileSystem, url: string, dir: Path, clone: GitRun, pull: GitRun)
    returns (r: Result<()>, cmd: seq<string>)
    requires fs.Valid()
    requires ConfinedTo(clone, fs.tree, dir) && ConfinedTo(pull, fs.tree, dir)
    modifies fs
    ensures fs.Valid()
    ensures UnchangedOutside(old(fs.tree), fs.tree, dir)
    ensures dir !in old(fs.tree) ==>
      && cmd == CloneArgs(Shallow(1), FrobUrl(url), dir)
      && r == ChainErr(clone.result, "unable to clone " + FrobUrl(url))
      && (r.Ok? ==> fs.tree == clone.after)
      && (r.Err? ==> fs.tree == RemoveTree(clone.after, dir) && dir !in fs.tree)
    ensures dir in old(fs.tree) ==>
      && cmd == ["pull"]
      && r == ChainErr(pull.result, "unable to pull " + FrobUrl(url))
      && fs.tree == pull.after
  {
    var u := FrobUrl(url);
    if dir !in fs.tree {
      cmd := CloneArgs(Shallow(1), u, dir);
      fs.tree := clone.after;
      r := ChainErr(clone.result, "unable to clone " + u);
      if r.Err? {
        if dir in fs.tree {
          RemoveTreeFrame(fs.tree, dir, dir);
          UnchangedOutsideTrans(old(fs.tree), clone.after, RemoveTree(clone.after, dir), dir);
          fs.RemoveDirAll(dir);
        } else {
          AbsentHasNoDescendants(fs.tree, dir);
        }
      }
    } else {
      cmd := ["pull"];
      fs.tree := pull.after;
      r := ChainErr(pull.result, "unable to pull " + u);
    }
  }

  /** `reset_to_sha`: `git reset --hard <sha>` inside `dir`, with the
      failure naming the directory and the commit. */
  function ResetToSha(dir: Path, sha: string, run: Result<()>): (r: (Result<()>, seq<string>))
    ensures r.1 == ["reset", "--hard", sha]
    ensures r.0.Ok? <==> run.Ok?
    ensures r.0.Err? ==> r.0.error == Chain("unable to reset " + PathText(dir) + " to " + sha, run.error)
  {
    (ChainErr(run, "unable to reset " + PathText(dir) + " to " + sha), ["reset", "--hard", sha])
  }
}
