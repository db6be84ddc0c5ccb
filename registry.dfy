/** Reading the registry index: each index file holds one JSON record per
    line, folded into a crate name and its versions with their
    dependencies. JSON parsing and the directory walk are oracles. */
module Registry {
  import opened Common
  import opened Files

  /** The two fields of a dependency record the reader looks at, when they
      are strings. */
  datatype JsonDep = JsonDep(name: Option<string>, req: Option<string>)

  /** The fields of a version record the reader looks at: `name` and
      `vers` when they are strings, and the members of `deps` (none when
      it is not an array). */
  datatype JsonRecord = JsonRecord(name: Option<string>, vers: Option<string>, deps: seq<JsonDep>)

  /** One line of an index file: parsed, not valid JSON, or not readable. */
  datatype Line = Parsed(rec: JsonRecord) | Unparsable(perr: Error) | Unreadable(ioerr: Error)

  /** A dependency: its name and version requirement. */
  type Dep = (string, string)

  datatype Crate = Crate(name: string, versions: seq<(string, seq<Dep>)>)

  /** The dependencies of a record, keeping those with both fields. */
  function DepsOf(ds: seq<JsonDep>): seq<Dep>
    decreases |ds|
  {
    if |ds| == 0 then []
    else
      var d := ds[|ds| - 1];
      DepsOf(ds[..|ds| - 1]) +
      (if d.name.Some? && d.req.Some? then [(d.name.value, d.req.value)] else [])
  }

  /** Dependencies keep their order: the records of a concatenation give
      the concatenation of their dependencies. */
  lemma {:induction false} DepsConcat(a: seq<JsonDep>, b: seq<JsonDep>)
    ensures DepsOf(a + b) == DepsOf(a) + DepsOf(b)
    decreases |b|
  {
    if |b| > 0 {
      assert (a + b)[..|a + b| - 1] == a + b[..|b| - 1];
      assert (a + b)[|a + b| - 1] == b[|b| - 1];
      DepsConcat(a, b[..|b| - 1]);
    } else {
      assert a + b == a;
    }
  }

  /** Every dependency kept comes from a record with both fields, and a
      record with both fields is kept. */
  lemma {:induction false} DepsKept(ds: seq<JsonDep>)
    ensures forall i | 0 <= i < |DepsOf(ds)| ::
      exists j | 0 <= j < |ds| :: ds[j] == JsonDep(Some(DepsOf(ds)[i].0), Some(DepsOf(ds)[i].1))
    ensures forall j | 0 <= j < |ds| && ds[j].name.Some? && ds[j].req.Some? ::
      (ds[j].name.value, ds[j].req.value) in DepsOf(ds)
    decreases |ds|
  {
    if |ds| > 0 {
      var ds' := ds[..|ds| - 1];
      DepsKept(ds');
      var r := DepsOf(ds);
      forall i | 0 <= i < |r|
        ensures exists j | 0 <= j < |ds| :: ds[j] == JsonDep(Some(r[i].0), Some(r[i].1))
      {
        if i < |DepsOf(ds')| {
          var j :| 0 <= j < |ds'| && ds'[j] == JsonDep(Some(DepsOf(ds')[i].0), Some(DepsOf(ds')[i].1));
          assert r[i] == DepsOf(ds')[i];
          assert ds[j] == ds'[j];
        } else {
          assert ds[|ds| - 1] == JsonDep(Some(r[i].0), Some(r[i].1));
        }
      }
      forall j | 0 <= j < |ds| && ds[j].name.Some? && ds[j].req.Some?
        ensures (ds[j].name.value, ds[j].req.value) in r
      {
        if j < |ds'| {
          assert ds'[j] == ds[j];
        }
      }
      assert forall i | 0 <= i < |r| :: exists j | 0 <= j < |ds| :: ds[j] == JsonDep(Some(r[i].0), Some(r[i].1));
    } else {
      assert DepsOf(ds) == [];
    }
  }

  /** A record contributes a version when both `name` and `vers` are
      strings. */
  predicate Contributes(l: Line) {
    l.Parsed? && l.rec.name.Some? && l.rec.vers.Some?
  }

  function VersionOf(l: Line): (string, seq<Dep>)
    requires Contributes(l)
  {
    (l.rec.vers.value, DepsOf(l.rec.deps))
  }

  /** The error a line that does not parse raises. */
  function LineError(l: Line): Error
    requires !l.Parsed?
  {
    match l
    case Unreadable(e) => e
    case Unparsable(e) => Chain("parsing json", e)
  }

  /** `read_crate` over the lines of a file, folded one line at a time. */
  function CrateOf(lines: seq<Line>): (r: Result<Crate>)
    ensures r.Ok? ==> |r.value.versions| <= |lines|
    decreases |lines|
  {
    if |lines| == 0 then Ok(Crate("", []))
    else
      var l := lines[|lines| - 1];
      match CrateOf(lines[..|lines| - 1])
      case Err(e) => Err(e)
      case Ok(c) =>
        if !l.Parsed? then Err(LineError(l))
        else if Contributes(l) then Ok(Crate(l.rec.name.value, c.versions + [VersionOf(l)]))
        else Ok(c)
  }

  /** The version one line contributes: none, or its version. */
  function Contribution(l: Line): seq<(string, seq<Dep>)> {
    if Contributes(l) then [VersionOf(l)] else []
  }

  /** The contributions of the lines, read from the front. */
  function Contributions(lines: seq<Line>): seq<(string, seq<Dep>)>
    decreases |lines|
  {
    if |lines| == 0 then []
    else Contribution(lines[0]) + Contributions(lines[1..])
  }

  lemma {:induction false} ContributionsSnoc(lines: seq<Line>, l: Line)
    ensures Contributions(lines + [l]) == Contributions(lines) + Contribution(l)
    decreases |lines|
  {
    if |lines| == 0 {
      assert lines + [l] == [l];
      assert Contributions([l]) == Contribution(l) + Contributions([]);
    } else {
      var rest := lines[1..];
      assert (lines + [l])[0] == lines[0];
      assert (lines + [l])[1..] == rest + [l];
      ContributionsSnoc(rest, l);
      calc {
        Contributions(lines + [l]);
        Contribution(lines[0]) + Contributions(rest + [l]);
        Contribution(lines[0]) + (Contributions(rest) + Contribution(l));
        (Contribution(lines[0]) + Contributions(rest)) + Contribution(l);
      }
    }
  }

  predicate AllParsed(lines: seq<Line>) {
    forall i | 0 <= i < |lines| :: lines[i].Parsed?
  }

  /** The file reads when every line parses, and its versions are those
      of the contributing lines, in line order. */
  lemma {:induction false} CrateOfVersions(lines: seq<Line>)
    ensures CrateOf(lines).Ok? <==> AllParsed(lines)
    ensures CrateOf(lines).Ok? ==> CrateOf(lines).value.versions == Contributions(lines)
    decreases |lines|
  {
    if |lines| > 0 {
      var prefix := lines[..|lines| - 1];
      var l := lines[|lines| - 1];
      CrateOfVersions(prefix);
      assert prefix + [l] == lines;
      ContributionsSnoc(prefix, l);
      if AllParsed(lines) {
        assert AllParsed(prefix) by {
          forall i | 0 <= i < |prefix| ensures prefix[i].Parsed? { assert prefix[i] == lines[i]; }
        }
      }
      if AllParsed(prefix) && l.Parsed? {
        forall i | 0 <= i < |lines| ensures lines[i].Parsed? {
          if i < |prefix| { assert lines[i] == prefix[i]; }
        }
      }
    }
  }

  /** The first line that does not parse decides the error. */
  lemma {:induction false} CrateOfFirstError(lines: seq<Line>, i: nat)
    requires i < |lines| && !lines[i].Parsed?
    requires forall k | 0 <= k < i :: lines[k].Parsed?
    ensures CrateOf(lines) == Err(LineError(lines[i]))
    decreases |lines|
  {
    var prefix := lines[..|lines| - 1];
    if i == |lines| - 1 {
      assert AllParsed(prefix) by {
        forall k | 0 <= k < |prefix| ensures prefix[k].Parsed? { assert prefix[k] == lines[k]; }
      }
      CrateOfVersions(prefix);
    } else {
      assert prefix[i] == lines[i];
      forall k | 0 <= k < i ensures prefix[k].Parsed? { assert prefix[k] == lines[k]; }
      CrateOfFirstError(prefix, i);
    }
  }

  /** The name is that of the last contributing line, or empty when no
      line contributes. */
  ghost predicate NamedByLast(lines: seq<Line>, name: string) {
    || ((forall k | 0 <= k < |lines| :: !Contributes(lines[k])) && name == "")
    || (exists j | 0 <= j < |lines| ::
          && Contributes(lines[j]) && lines[j].rec.name.value == name
          && forall k | j < k < |lines| :: !Contributes(lines[k]))
  }

  lemma {:induction false} CrateOfName(lines: seq<Line>)
    requires CrateOf(lines).Ok?
    ensures NamedByLast(lines, CrateOf(lines).value.name)
    decreases |lines|
  {
    if |lines| > 0 {
      var prefix := lines[..|lines| - 1];
      var l := lines[|lines| - 1];
      var name := CrateOf(lines).value.name;
      if Contributes(l) {
        assert Contributes(lines[|lines| - 1]) && lines[|lines| - 1].rec.name.value == name;
      } else {
        CrateOfName(prefix);
        assert CrateOf(prefix).value.name == name;
        if forall k | 0 <= k < |prefix| :: !Contributes(prefix[k]) {
          forall k | 0 <= k < |lines| ensures !Contributes(lines[k]) {
            if k < |prefix| { assert lines[k] == prefix[k]; }
          }
        } else {
          var j :| 0 <= j < |prefix| && Contributes(prefix[j]) && prefix[j].rec.name.value == name
            && forall k | j < k < |prefix| :: !Contributes(prefix[k]);
          assert lines[j] == prefix[j];
          forall k | j < k < |lines| ensures !Contributes(lines[k]) {
            if k < |prefix| { assert lines[k] == prefix[k]; }
          }
        }
      }
    }
  }

  /** `read_crate` on an index file: the file's lines when it opens, or the
      error opening it raised. */
  function CrateFile(file: Result<seq<Line>>): Result<Crate> {
    match file
    case Err(e) => Err(e)
    case Ok(lines) => CrateOf(lines)
  }

  /** `read_crate`: go through the lines, collecting each record's
      dependencies and, when it names a version, the version and the name. */
  method ReadCrate(file: Result<seq<Line>>) returns (r: Result<Crate>)
    ensures r == CrateFile(file)
  {
    if file.Err? {
      return Err(file.error);
    }
    var lines := file.value;
    var crateName := "";
    var crateVersions: seq<(string, seq<Dep>)> := [];
    var i := 0;
    while i < |lines|
      invariant 0 <= i <= |lines|
      invariant CrateOf(lines[..i]) == Ok(Crate(crateName, crateVersions))
    {
      assert lines[..i + 1][..i] == lines[..i];
      var line := lines[i];
      if !line.Parsed? {
        CrateOfVersions(lines[..i]);
        forall k | 0 <= k < i ensures lines[k].Parsed? { assert lines[..i][k] == lines[k]; }
        CrateOfFirstError(lines, i);
        return Err(LineError(line));
      }
      var json := line.rec;
      var deps: seq<Dep> := [];
      var j := 0;
      while j < |json.deps|
        invariant 0 <= j <= |json.deps|
        invariant deps == DepsOf(json.deps[..j])
      {
        assert json.deps[..j + 1][..j] == json.deps[..j];
        var d := json.deps[j];
        if d.name.Some? && d.req.Some? {
          deps := deps + [(d.name.value, d.req.value)];
        }
        j := j + 1;
      }
      assert json.deps[..j] == json.deps;
      if json.name.Some? && json.vers.Some? {
        crateName := json.name.value;
        crateVersions := crateVersions + [(json.vers.value, deps)];
      }
      i := i + 1;
    }
    assert lines[..i] == lines;
    r := Ok(Crate(crateName, crateVersions));
  }

  /** One step of the index walk: an entry, relative to the index root, or
      the error the walk raised. */
  datatype WalkItem = Entry(path: Path, isFile: bool) | WalkFailed(e: Error)

  /** `is_hidden`: some component, the entry's own name or a directory the
      walk descended through, starts with a dot; the walk does not descend
      into hidden directories. */
  predicate Hidden(p: Path) {
    exists k | 0 <= k < |p| :: StartsWith(p[k], ".")
  }

  /** An entry `read_registry` reads: not hidden, a file, not `config.json`. */
  predicate Selected(item: WalkItem) {
    && item.Entry?
    && !Hidden(item.path)
    && item.isFile
    && (|item.path| == 0 || item.path[|item.path| - 1] != "config.json")
  }

  /** The path one walk item contributes: none, or its own. */
  function SelectedPath(w: WalkItem): seq<Path> {
    if Selected(w) then [w.path] else []
  }

  /** The paths read, in walk order. */
  function SelectedPaths(walk: seq<WalkItem>): (ps: seq<Path>)
    ensures forall i | 0 <= i < |ps| :: !Hidden(ps[i]) && (|ps[i]| == 0 || ps[i][|ps[i]| - 1] != "config.json")
    decreases |walk|
  {
    if |walk| == 0 then []
    else SelectedPath(walk[0]) + SelectedPaths(walk[1..])
  }

  lemma {:induction false} SelectedPathsSnoc(walk: seq<WalkItem>, w: WalkItem)
    ensures SelectedPaths(walk + [w]) == SelectedPaths(walk) + SelectedPath(w)
    decreases |walk|
  {
    if |walk| == 0 {
      assert walk + [w] == [w];
      assert SelectedPaths([w]) == SelectedPath(w) + SelectedPaths([]);
    } else {
      var rest := walk[1..];
      assert (walk + [w])[0] == walk[0];
      assert (walk + [w])[1..] == rest + [w];
      SelectedPathsSnoc(rest, w);
      calc {
        SelectedPaths(walk + [w]);
        SelectedPath(walk[0]) + SelectedPaths(rest + [w]);
        SelectedPath(walk[0]) + (SelectedPaths(rest) + SelectedPath(w));
        (SelectedPath(walk[0]) + SelectedPaths(rest)) + SelectedPath(w);
      }
    }
  }

  /** `read_registry` over the walk, one item at a time; `read(p)` is the
      lines of the index file at `p`. */
  function RegistryOf(walk: seq<WalkItem>, read: Path -> Result<seq<Line>>): (r: Result<seq<Crate>>)
    ensures r.Ok? ==> |r.value| <= |walk|
    decreases |walk|
  {
    if |walk| == 0 then Ok([])
    else
      var w := walk[|walk| - 1];
      match RegistryOf(walk[..|walk| - 1], read)
      case Err(e) => Err(e)
      case Ok(cs) =>
        match w
        case WalkFailed(e) => Err(Chain("walk dir", e))
        case Entry(p, _) =>
          if !Selected(w) then Ok(cs)
          else
            match CrateFile(read(p))
            case Err(e) => Err(e)
            case Ok(c) => Ok(cs + [c])
  }

  /** A successful read gives one crate per selected path, in order, each
      the contents of its file. */
  lemma {:induction false} RegistryOfSelected(walk: seq<WalkItem>, read: Path -> Result<seq<Line>>)
    requires RegistryOf(walk, read).Ok?
    ensures |RegistryOf(walk, read).value| == |SelectedPaths(walk)|
    ensures forall i | 0 <= i < |SelectedPaths(walk)| ::
      CrateFile(read(SelectedPaths(walk)[i])) == Ok(RegistryOf(walk, read).value[i])
    decreases |walk|
  {
    if |walk| > 0 {
      var prefix := walk[..|walk| - 1];
      var w := walk[|walk| - 1];
      RegistryOfSelected(prefix, read);
      assert prefix + [w] == walk;
      SelectedPathsSnoc(prefix, w);
    }
  }

  /** Any walk error fails the whole read. */
  lemma {:induction false} WalkErrorFails(walk: seq<WalkItem>, read: Path -> Result<seq<Line>>, i: nat)
    requires i < |walk| && walk[i].WalkFailed?
    ensures RegistryOf(walk, read).Err?
    decreases |walk|
  {
    if i < |walk| - 1 {
      assert walk[..|walk| - 1][i] == walk[i];
      WalkErrorFails(walk[..|walk| - 1], read, i);
    }
  }

  /** `read_registry`: read every selected index file of the walk,
      stopping at the first error. */
  method ReadRegistry(walk: seq<WalkItem>, read: Path -> Result<seq<Line>>) returns (r: Result<seq<Crate>>)
    ensures r == RegistryOf(walk, read)
  {
    var crates: seq<Crate> := [];
    var i := 0;
    while i < |walk|
      invariant 0 <= i <= |walk|
      invariant RegistryOf(walk[..i], read) == Ok(crates)
    {
      assert walk[..i + 1][..i] == walk[..i];
      match walk[i] {
        case WalkFailed(e) =>
          r := Err(Chain("walk dir", e));
          RegistryErrSticks(walk, read, i + 1);
          return;
        case Entry(p, isFile) =>
          if !isFile || Hidden(p) || (|p| > 0 && p[|p| - 1] == "config.json") {
          } else {
            var c := ReadCrate(read(p));
            if c.Err? {
              r := Err(c.error);
              RegistryErrSticks(walk, read, i + 1);
              return;
            }
            crates := crates + [c.value];
          }
      }
      i := i + 1;
    }
    assert walk[..i] == walk;
    r := Ok(crates);
  }

  /** Once the read fails, later items change nothing. */
  lemma {:induction false} RegistryErrSticks(walk: seq<WalkItem>, read: Path -> Result<seq<Line>>, j: nat)
    requires j <= |walk|
    requires RegistryOf(walk[..j], read).Err?
    ensures RegistryOf(walk, read) == RegistryOf(walk[..j], read)
    decreases |walk|
  {
    if j == |walk| {
      assert walk[..j] == walk;
    } else {
      var prefix := walk[..|walk| - 1];
      assert prefix[..j] == walk[..j];
      RegistryErrSticks(prefix, read, j);
    }
  }
}
