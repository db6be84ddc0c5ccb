/** Command helpers: the printed command line, the exit status to result
    mapping, and the split of a merged stdout/stderr stream. The process
    itself, with its timers and signals, is an oracle outcome. */
module Run {
  import opened Common

  /** The whole-run limit, twenty minutes. */
  const MaxTimeoutSecs: nat := 60 * 10 * 2
  /** The limit on silence between output lines, two minutes. */
  const HeartbeatTimeoutSecs: nat := 60 * 2

  /** `make_cmdstr`: the name, a space, then the arguments joined by single
      spaces. The Rust code asserts the arguments are not empty. */
  function MakeCmdstr(name: string, args: seq<string>): (s: string)
    requires |args| > 0
    ensures StartsWith(s, name + " ")
    ensures s == Join([name] + args, " ")
  {
    assert ([name] + args)[1..] == args;
    name + " " + Join(args, " ")
  }

  /** A command line whose words contain no space splits back into them. */
  lemma CmdstrWords(name: string, args: seq<string>)
    requires |args| > 0
    requires ' ' !in name
    requires forall i :: 0 <= i < |args| ==> ' ' !in args[i]
    ensures Split(MakeCmdstr(name, args), ' ') == [name] + args
  {
    var words := [name] + args;
    forall i | 0 <= i < |words| ensures ' ' !in words[i] {
      if i > 0 { assert words[i] == args[i - 1]; }
    }
    SplitJoin(words, ' ');
  }

  /** One item of the merged stream of stdout and stderr lines. */
  datatype Merged<L, R> = First(l: L) | Second(r: R) | Both(bl: L, br: R)

  /** The stdout lines of a merged stream, in order. */
  function Lefts<L, R>(items: seq<Merged<L, R>>): seq<L>
    decreases |items|
  {
    if |items| == 0 then []
    else
      var last := items[|items| - 1];
      Lefts(items[..|items| - 1]) +
      (match last case First(l) => [l] case Second(_) => [] case Both(l, _) => [l])
  }

  /** The stderr lines of a merged stream, in order. */
  function Rights<L, R>(items: seq<Merged<L, R>>): seq<R>
    decreases |items|
  {
    if |items| == 0 then []
    else
      var last := items[|items| - 1];
      Rights(items[..|items| - 1]) +
      (match last case First(_) => [] case Second(r) => [r] case Both(_, r) => [r])
  }

  /** `unmerge`: push each item's parts onto the two vectors. */
  method Unmerge<L, R>(items: seq<Merged<L, R>>) returns (left: seq<L>, right: seq<R>)
    ensures left == Lefts(items)
    ensures right == Rights(items)
  {
    left, right := [], [];
    var i := 0;
    while i < |items|
      invariant 0 <= i <= |items|
      invariant left == Lefts(items[..i])
      invariant right == Rights(items[..i])
    {
      assert items[..i + 1][..i] == items[..i];
      match items[i] {
        case First(l) => left := left + [l];
        case Second(r) => right := right + [r];
        case Both(l, r) =>
          left := left + [l];
          right := right + [r];
      }
      i := i + 1;
    }
    assert items[..i] == items;
  }

  /** Splitting a stream in two pieces splits each side the same way, so
      relative order is kept on both sides. */
  lemma {:induction false} UnmergeConcat<L, R>(a: seq<Merged<L, R>>, b: seq<Merged<L, R>>)
    ensures Lefts(a + b) == Lefts(a) + Lefts(b)
    ensures Rights(a + b) == Rights(a) + Rights(b)
    decreases |b|
  {
    if |b| == 0 {
      assert a + b == a;
    } else {
      var b' := b[..|b| - 1];
      assert (a + b)[..|a + b| - 1] == a + b';
      assert (a + b)[|a + b| - 1] == b[|b| - 1];
      UnmergeConcat(a, b');
    }
  }

  /** A First item reaches only the left side, a Second only the right
      side, and a Both item reaches both. */
  lemma UnmergeOne<L, R>(items: seq<Merged<L, R>>, x: Merged<L, R>)
    ensures x.First? ==> Lefts(items + [x]) == Lefts(items) + [x.l] && Rights(items + [x]) == Rights(items)
    ensures x.Second? ==> Lefts(items + [x]) == Lefts(items) && Rights(items + [x]) == Rights(items) + [x.r]
    ensures x.Both? ==> Lefts(items + [x]) == Lefts(items) + [x.bl] && Rights(items + [x]) == Rights(items) + [x.br]
  {
    assert (items + [x])[..|items|] == items;
  }

  /** A stream of stdout lines only has no stderr lines. */
  lemma {:induction false} AllFirst<L, R>(items: seq<Merged<L, R>>)
    requires forall i :: 0 <= i < |items| ==> items[i].First?
    ensures Rights(items) == []
    ensures |Lefts(items)| == |items|
    decreases |items|
  {
    if |items| > 0 {
      AllFirst(items[..|items| - 1]);
    }
  }

  /** How a spawned command ends. The timers, the process group kill and
      the stream reading are not modelled; which of them fires is part of
      the outcome. */
  datatype Outcome =
    | Exited(success: bool, output: seq<Merged<string, string>>)
    | HeartbeatExpired
    | MaxTimeExpired
    | IoFailed(e: Error)

  datatype ProcessOutput = ProcessOutput(success: bool, stdout: seq<string>, stderr: seq<string>)

  /** `log_command_`: the process output, with the two streams split apart
      only when capturing. */
  method LogCommand(outcome: Outcome, capture: bool) returns (r: Result<ProcessOutput>)
    ensures r.Ok? <==> outcome.Exited?
    ensures outcome.HeartbeatExpired? ==> r == Err(Timeout("not generating output for ", HeartbeatTimeoutSecs))
    ensures outcome.MaxTimeExpired? ==> r == Err(Timeout("max time of", MaxTimeoutSecs))
    ensures outcome.IoFailed? ==> r == Err(outcome.e)
    ensures r.Ok? ==> r.value.success == outcome.success
    ensures r.Ok? && capture ==>
      r.value.stdout == Lefts(outcome.output) && r.value.stderr == Rights(outcome.output)
    ensures r.Ok? && !capture ==> r.value.stdout == [] && r.value.stderr == []
  {
    match outcome
    case Exited(success, output) =>
      if capture {
        var out, err := Unmerge(output);
        r := Ok(ProcessOutput(success, out, err));
      } else {
        r := Ok(ProcessOutput(success, [], []));
      }
    case HeartbeatExpired => r := Err(Timeout("not generating output for ", HeartbeatTimeoutSecs));
    case MaxTimeExpired => r := Err(Timeout("max time of", MaxTimeoutSecs));
    case IoFailed(e) => r := Err(e);
  }

  /** The error a command that exits unsuccessfully reports. */
  function Failed(name: string, args: seq<string>): (e: Error)
    requires |args| > 0
    ensures e.Msg? && StartsWith(e.text, "command `" + name + " ")
    ensures |e.text| >= 8 && e.text[|e.text| - 8..] == "` failed"
  {
    Msg("command `" + MakeCmdstr(name, args) + "` failed")
  }

  /** `run_full`: success exactly when the command exits successfully. The
      working directory and environment are handed to the command and do
      not affect the mapping. */
  method RunFull(name: string, args: seq<string>, outcome: Outcome) returns (r: Result<()>)
    requires |args| > 0
    ensures r.Ok? <==> outcome.Exited? && outcome.success
    ensures outcome.Exited? && !outcome.success ==> r == Err(Failed(name, args))
    ensures outcome.HeartbeatExpired? ==> r == Err(Timeout("not generating output for ", HeartbeatTimeoutSecs))
    ensures outcome.MaxTimeExpired? ==> r == Err(Timeout("max time of", MaxTimeoutSecs))
    ensures outcome.IoFailed? ==> r == Err(outcome.e)
  {
    var cmdstr := MakeCmdstr(name, args);
    var out := LogCommand(outcome, false);
    match out
    case Err(e) => return Err(e);
    case Ok(o) =>
      if o.success {
        return Ok(());
      } else {
        return Err(Msg("command `" + cmdstr + "` failed"));
      }
  }

  /** `run_capture`: the captured stdout and stderr lines on success. */
  method RunCapture(name: string, args: seq<string>, outcome: Outcome)
    returns (r: Result<(seq<string>, seq<string>)>)
    requires |args| > 0
    ensures r.Ok? <==> outcome.Exited? && outcome.success
    ensures r.Ok? ==> r.value == (Lefts(outcome.output), Rights(outcome.output))
    ensures outcome.Exited? && !outcome.success ==> r == Err(Failed(name, args))
    ensures outcome.HeartbeatExpired? ==> r == Err(Timeout("not generating output for ", HeartbeatTimeoutSecs))
    ensures outcome.MaxTimeExpired? ==> r == Err(Timeout("max time of", MaxTimeoutSecs))
    ensures outcome.IoFailed? ==> r == Err(outcome.e)
  {
    var cmdstr := MakeCmdstr(name, args);
    var out := LogCommand(outcome, true);
    match out
    case Err(e) => return Err(e);
    case Ok(o) =>
      if o.success {
        return Ok((o.stdout, o.stderr));
      } else {
        return Err(Msg("command `" + cmdstr + "` failed"));
      }
  }

  /** The printed command line of `git clone --depth 1 <url>`. */
  lemma CmdstrExample()
    ensures MakeCmdstr("git", ["clone", "--depth", "1", "u"]) == "git clone --depth 1 u"
  {
  }
}
