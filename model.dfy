/** The filesystem result store: experiments, resolved shas and one result
    per (experiment, crate, toolchain) key, laid out as
    `<root>/<ex>/{config.json, shas.json, res/<toolchain>/<crate dir>/{results.txt, log.txt}}`. */
module Model {
  import opened Common
  import opened Ex
  import opened Results
  import opened Files

  /** What the closure handed to `record_test_results` does: the log it
      writes while it runs and the result it returns. */
  datatype ProducerRun = ProducerRun(log: string, result: Result<TestResult>)

  class FsStore {
    const root: Path

    constructor Open(root: Path)
      ensures this.root == root
    {
      this.root := root;
    }

    function ExDir(ex: string): (p: Path)
      ensures IsPrefix(root, p) && |p| == |root| + 1 && p[|root|] == ex
    {
      root + [ex]
    }

    function ConfigFile(ex: string): (p: Path)
      ensures IsPrefix(ExDir(ex), p) && |p| == |root| + 2 && p[|p| - 1] == "config.json"
    {
      ExDir(ex) + ["config.json"]
    }

    function ShaFile(ex: string): (p: Path)
      ensures IsPrefix(ExDir(ex), p) && |p| == |root| + 2 && p[|p| - 1] == "shas.json"
      ensures p != ConfigFile(ex)
    {
      ExDir(ex) + ["shas.json"]
    }

    function ResDir(ex: string): (p: Path)
      ensures IsPrefix(ExDir(ex), p) && |p| == |root| + 2 && p[|p| - 1] == "res"
      ensures p != ConfigFile(ex) && p != ShaFile(ex)
    {
      ExDir(ex) + ["res"]
    }

    function ResultDir(gh: UrlParser, ex: string, c: ExCrate, tc: Toolchain): (p: Path)
      requires Resolvable(gh, c)
      ensures IsPrefix(ResDir(ex), p) && IsPrefix(ExDir(ex), p)
      ensures |p| == |root| + 5
      ensures p[|p| - 3..] == FragmentComponents(gh, c, tc)
    {
      ResDir(ex) + FragmentComponents(gh, c, tc)
    }

    function ResultFile(gh: UrlParser, ex: string, c: ExCrate, tc: Toolchain): (p: Path)
      requires Resolvable(gh, c)
      ensures IsPrefix(ResultDir(gh, ex, c, tc), p) && |p| == |root| + 6
      ensures p[|p| - 1] == "results.txt"
    {
      ResultDir(gh, ex, c, tc) + ["results.txt"]
    }

    function ResultLog(gh: UrlParser, ex: string, c: ExCrate, tc: Toolchain): (p: Path)
      requires Resolvable(gh, c)
      ensures IsPrefix(ResultDir(gh, ex, c, tc), p) && |p| == |root| + 6
      ensures p != ResultFile(gh, ex, c, tc)
      ensures p[|p| - 1] == "log.txt"
    {
      ResultDir(gh, ex, c, tc) + ["log.txt"]
    }

    /** `load_experiment`: the document in `config.json`. */
    function LoadExperiment(t: Tree, ex: string): (r: Result<Experiment>)
      ensures r.Ok? <==> ReadDoc(t, ConfigFile(ex)).Ok? && ReadDoc(t, ConfigFile(ex)).value.ExperimentDoc?
      ensures r.Ok? ==> t[ConfigFile(ex)] == File(Json(ExperimentDoc(r.value)))
    {
      match ReadDoc(t, ConfigFile(ex))
      case Ok(ExperimentDoc(e)) => Ok(e)
      case Ok(ShasDoc(_)) => Err(Parse("config.json does not hold an experiment"))
      case Err(e) => Err(e)
    }

    /** `read_shas`: the map in `shas.json`. */
    function ReadShas(t: Tree, ex: string): (r: Result<map<string, string>>)
      ensures r.Ok? <==> ReadDoc(t, ShaFile(ex)).Ok? && ReadDoc(t, ShaFile(ex)).value.ShasDoc?
      ensures r.Ok? ==> t[ShaFile(ex)] == File(Json(ShasDoc(r.value)))
    {
      match ReadDoc(t, ShaFile(ex))
      case Ok(ShasDoc(m)) => Ok(m)
      case Ok(ExperimentDoc(_)) => Err(Parse("shas.json does not hold a sha map"))
      case Err(e) => Err(e)
    }

    /** `load_test_result`: None without a result file, the parsed token
        otherwise, and an error when the token is not one of the three. */
    function LoadTestResult(t: Tree, gh: UrlParser, ex: string, c: ExCrate, tc: Toolchain)
      : (r: Result<Option<TestResult>>)
      requires Resolvable(gh, c)
      ensures ResultFile(gh, ex, c, tc) !in t <==> r == Ok(None)
      ensures r.Ok? && r.value.Some? ==>
        t[ResultFile(gh, ex, c, tc)] == File(Text(ToString(r.value.value)))
      ensures var s := ReadString(t, ResultFile(gh, ex, c, tc));
        s.Ok? && !IsToken(s.value) ==>
          r == Err(Chain("invalid test result value: '" + s.value + "'",
                         Msg("bogus test result: " + s.value)))
      ensures var s := ReadString(t, ResultFile(gh, ex, c, tc));
        s.Ok? && IsToken(s.value) ==> r == Ok(Some(FromStr(s.value).value))
      ensures ResultFile(gh, ex, c, tc) in t && ReadString(t, ResultFile(gh, ex, c, tc)).Err? ==>
        r == Err(ReadString(t, ResultFile(gh, ex, c, tc)).error)
    {
      var file := ResultFile(gh, ex, c, tc);
      if file in t then
        match ReadString(t, file)
        case Ok(s) =>
          (match FromStr(s)
           case Ok(res) => Ok(Some(res))
           case Err(e) => Err(Chain("invalid test result value: '" + s + "'", e)))
        case Err(e) => Err(e)
      else Ok(None)
    }

    /** `read_test_log`. */
    function ReadTestLog(t: Tree, gh: UrlParser, ex: string, c: ExCrate, tc: Toolchain)
      : (r: Result<string>)
      requires Resolvable(gh, c)
      ensures r.Ok? <==> ReadString(t, ResultLog(gh, ex, c, tc)).Ok?
      ensures r.Ok? ==> t[ResultLog(gh, ex, c, tc)] == File(Text(r.value))
    {
      ChainErr(ReadString(t, ResultLog(gh, ex, c, tc)), "Couldn't open result file.")
    }

    /** `create_experiment`: create the experiment directory, then write its
        configuration; loading it afterwards gives the same experiment. */
    method CreateExperiment(fs: FileSystem, ex: string, tcs: seq<Toolchain>,
                            crates: seq<ExCrate>, mode: ExMode)
      returns (r: Result<()>)
      requires fs.Valid()
      modifies fs
      ensures fs.Valid()
      ensures r.Ok? <==>
        CreateDirAllIn(old(fs.tree), ExDir(ex)).Ok? && !IsDir(old(fs.tree), ConfigFile(ex))
      ensures r.Ok? ==> LoadExperiment(fs.tree, ex) == Ok(Experiment(ex, crates, tcs, mode))
      ensures UnchangedOutside(old(fs.tree), fs.tree, ExDir(ex))
    {
      var doc := ExperimentDoc(Experiment(ex, crates, tcs, mode));
      ghost var t0 := fs.tree;
      r := fs.CreateDirAll(ExDir(ex));
      if r.Err? {
        return;
      }
      CreateDirAllFrame(t0, ExDir(ex), ExDir(ex));
      ghost var t1 := fs.tree;
      assert ConfigFile(ex)[..|ConfigFile(ex)| - 1] == ExDir(ex);
      assert IsDir(t0, ConfigFile(ex)) <==> IsDir(t1, ConfigFile(ex)) by {
        assert ConfigFile(ex)[..|ExDir(ex)|] == ExDir(ex);
        assert ConfigFile(ex) !in Ancestors(ExDir(ex));
      }
      r := fs.WriteDoc(ConfigFile(ex), doc);
      if r.Ok? {
        assert ConfigFile(ex)[..|ExDir(ex)|] == ExDir(ex);
        WriteFileFrame(t1, ConfigFile(ex), Json(doc), ExDir(ex));
      }
    }

    /** `delete_experiment`: removes the experiment directory when present;
        an absent experiment is already deleted. */
    method DeleteExperiment(fs: FileSystem, ex: string) returns (r: Result<()>)
      requires fs.Valid()
      modifies fs
      ensures fs.Valid()
      ensures r == Ok(())
      ensures fs.tree == RemoveTree(old(fs.tree), ExDir(ex))
      ensures ExDir(ex) !in old(fs.tree) ==> fs.tree == old(fs.tree)
    {
      if ExDir(ex) in fs.tree {
        fs.RemoveDirAll(ExDir(ex));
      } else {
        AbsentHasNoDescendants(fs.tree, ExDir(ex));
      }
      r := Ok(());
    }

    /** `write_shas`: only into an existing experiment. */
    method WriteShas(fs: FileSystem, ex: string, shas: map<string, string>) returns (r: Result<()>)
      requires fs.Valid()
      modifies fs
      ensures fs.Valid()
      ensures ExDir(ex) !in old(fs.tree) ==>
        r == Err(ExperimentMissing(ex)) && fs.tree == old(fs.tree)
      ensures IsDir(old(fs.tree), ExDir(ex)) && !IsDir(old(fs.tree), ShaFile(ex)) ==> r.Ok?
      ensures r.Ok? ==> ReadShas(fs.tree, ex) == Ok(shas)
      ensures r.Ok? ==> fs.tree == old(fs.tree)[ShaFile(ex) := File(Json(ShasDoc(shas)))]
      ensures r.Err? ==> fs.tree == old(fs.tree)
    {
      if ExDir(ex) !in fs.tree {
        return Err(ExperimentMissing(ex));
      }
      assert ShaFile(ex)[..|ShaFile(ex)| - 1] == ExDir(ex);
      r := fs.WriteDoc(ShaFile(ex), ShasDoc(shas));
    }

    /** `delete_test_result`: removes the key's result directory. */
    method DeleteTestResult(fs: FileSystem, gh: UrlParser, ex: string, c: ExCrate, tc: Toolchain)
      returns (r: Result<()>)
      requires fs.Valid()
      requires Resolvable(gh, c)
      modifies fs
      ensures fs.Valid()
      ensures r == Ok(())
      ensures fs.tree == RemoveTree(old(fs.tree), ResultDir(gh, ex, c, tc))
    {
      var dir := ResultDir(gh, ex, c, tc);
      if dir in fs.tree {
        fs.RemoveDirAll(dir);
      } else {
        AbsentHasNoDescendants(fs.tree, dir);
      }
      r := Ok(());
    }

    /** `delete_all_test_results`: removes `<ex>/res` and nothing else. */
    method DeleteAllTestResults(fs: FileSystem, ex: string) returns (r: Result<()>)
      requires fs.Valid()
      modifies fs
      ensures fs.Valid()
      ensures r == Ok(())
      ensures fs.tree == RemoveTree(old(fs.tree), ResDir(ex))
      ensures LoadExperiment(fs.tree, ex) == LoadExperiment(old(fs.tree), ex)
      ensures ReadShas(fs.tree, ex) == ReadShas(old(fs.tree), ex)
    {
      if ResDir(ex) in fs.tree {
        fs.RemoveDirAll(ResDir(ex));
      } else {
        AbsentHasNoDescendants(fs.tree, ResDir(ex));
      }
      assert !IsPrefix(ResDir(ex), ConfigFile(ex)) by {
        assert ConfigFile(ex)[|root| + 1] == "config.json";
      }
      assert !IsPrefix(ResDir(ex), ShaFile(ex)) by {
        assert ShaFile(ex)[|root| + 1] == "shas.json";
      }
      r := Ok(());
    }

    /** `record_test_results`: delete the old result, create the result
        directory, run the producer with its log redirected into the key's
        log file, and write the result token only when the producer
        succeeded. */
    method RecordTestResults(fs: FileSystem, gh: UrlParser, ex: string, c: ExCrate,
                             tc: Toolchain, run: ProducerRun)
      returns (r: Result<TestResult>)
      requires fs.Valid()
      requires Resolvable(gh, c)
      modifies fs
      ensures fs.Valid()
      ensures r.Ok? ==> run.result == Ok(r.value)
      ensures r.Ok? ==> LoadTestResult(fs.tree, gh, ex, c, tc) == Ok(Some(r.value))
      ensures r.Ok? ==> ReadTestLog(fs.tree, gh, ex, c, tc) == Ok(run.log)
      ensures r.Err? ==> ResultFile(gh, ex, c, tc) !in fs.tree
      ensures run.result.Err? ==> r.Err?
      ensures CreateDirAllIn(old(fs.tree), ResultDir(gh, ex, c, tc)).Ok? ==> r == run.result
      ensures UnchangedOutside(old(fs.tree), fs.tree, ResultDir(gh, ex, c, tc))
    {
      var dir := ResultDir(gh, ex, c, tc);
      var logFile := ResultLog(gh, ex, c, tc);
      var resultFile := ResultFile(gh, ex, c, tc);
      ghost var t0 := fs.tree;
      assert Parent(logFile) == dir && Parent(resultFile) == dir;
      assert logFile != resultFile by { assert logFile[|dir|] != resultFile[|dir|]; }

      var _ := DeleteTestResult(fs, gh, ex, c, tc);
      RemoveTreeFrame(t0, dir, dir);
      ghost var t1 := fs.tree;
      assert resultFile !in t1;
      assert CreateDirAllIn(t0, dir).Ok? ==> CreateDirAllIn(t1, dir).Ok? by {
        forall k | 0 <= k <= |dir| && dir[..k] in t1
          ensures dir[..k] in t0 && t1[dir[..k]] == t0[dir[..k]]
        {
        }
      }

      var made := fs.CreateDirAll(dir);
      if made.Err? {
        return Err(made.error);
      }
      CreateDirAllFrame(t1, dir, dir);
      ghost var t2 := fs.tree;
      assert logFile !in t1 && resultFile !in t1;
      assert logFile !in Ancestors(dir) && resultFile !in Ancestors(dir);
      assert !IsDir(t2, logFile) && resultFile !in t2;

      var logged := fs.WriteString(logFile, run.log);
      if logged.Err? {
        return match logged case Err(e) => Err(e) case Ok(_) => Err(Io(""));
      }
      WriteFileFrame(t2, logFile, Text(run.log), dir);
      UnchangedOutsideTrans(t0, t1, t2, dir);
      ghost var t3 := fs.tree;
      UnchangedOutsideTrans(t0, t2, t3, dir);

      if run.result.Err? {
        return run.result;
      }
      var res := run.result.value;
      var written := fs.WriteString(resultFile, ToString(res));
      if written.Err? {
        return match written case Err(e) => Err(e) case Ok(_) => Err(Io(""));
      }
      WriteFileFrame(t3, resultFile, Text(ToString(res)), dir);
      UnchangedOutsideTrans(t0, t3, fs.tree, dir);
      assert FromStr(ToString(res)) == Ok(res) by { ParsePrinted(res); }
      r := Ok(res);
    }
  }

  /** A state change confined to one key's result directory leaves every
      other key's result as it was. */
  lemma {:induction false} OtherKeysUnaffected(store: FsStore, t0: Tree, t1: Tree, gh: UrlParser,
                                               ex: string, c: ExCrate, tc: Toolchain,
                                               ex': string, c': ExCrate, tc': Toolchain)
    requires Resolvable(gh, c) && Resolvable(gh, c')
    requires UnchangedOutside(t0, t1, store.ResultDir(gh, ex, c, tc))
    requires store.ResultDir(gh, ex, c, tc) != store.ResultDir(gh, ex', c', tc')
    ensures store.LoadTestResult(t1, gh, ex', c', tc') == store.LoadTestResult(t0, gh, ex', c', tc')
  {
    var d := store.ResultDir(gh, ex, c, tc);
    var f := store.ResultFile(gh, ex', c', tc');
    assert f[..|d|] == store.ResultDir(gh, ex', c', tc');
    assert !IsPrefix(d, f) && !IsPrefix(f, d);
  }
}
