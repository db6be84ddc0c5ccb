/** The manifest sanitiser: turn path dependencies into registry
    dependencies and drop the workspace, so a crate builds on its own.
    TOML parsing and printing are oracles over an abstract value. */
module TomlFrobber {
  import opened Common
  import opened Files

  /** A TOML value: a table, or any other value (kept as its text). */
  datatype Value = Table(entries: map<string, Value>) | Scalar(text: string)

  type Manifest = map<string, Value>

  /** The three dependency sections, in the order they are visited. */
  const Sections: seq<string> := ["dependencies", "dev-dependencies", "build-dependencies"]

  /** A dependency written as a table with a `path` key. */
  predicate HasPath(v: Value) {
    v.Table? && "path" in v.entries
  }

  /** A dependency with its `path` key removed; other values as they are. */
  function StripDep(v: Value): (v': Value)
    ensures v'.Table? <==> v.Table?
    ensures v.Table? ==> v'.entries.Keys == v.entries.Keys - {"path"}
    ensures v.Table? ==> forall k | k in v'.entries :: v'.entries[k] == v.entries[k]
    ensures !HasPath(v) ==> v' == v
  {
    match v
    case Table(t) =>
      assert "path" !in t ==> t - {"path"} == t;
      Table(t - {"path"})
    case Scalar(_) => v
  }

  /** A dependency section with every dependency stripped. */
  function StripSection(v: Value): Value {
    match v
    case Table(deps) => Table(map k | k in deps :: StripDep(deps[k]))
    case Scalar(_) => v
  }

  /** The manifest afterwards: the three sections stripped, `workspace`
      gone, everything else as it was. */
  function Frobbed(toml: Manifest): (r: Manifest)
    ensures "workspace" !in r
    ensures forall k | k in toml :: k in r <==> k != "workspace"
    ensures forall k | k in r :: k in toml
  {
    map k | k in toml && k != "workspace" :: if k in Sections then StripSection(toml[k]) else toml[k]
  }

  /** A dependency section some dependency of which has a `path` key. */
  predicate SectionHasPath(toml: Manifest, s: string) {
    s in toml && toml[s].Table? && exists k | k in toml[s].entries :: HasPath(toml[s].entries[k])
  }

  /** The manifest needs rewriting: a `path` to remove or a `workspace`. */
  predicate Changes(toml: Manifest) {
    (exists i | 0 <= i < |Sections| :: SectionHasPath(toml, Sections[i])) || "workspace" in toml
  }

  /** No dependency of the three sections has a `path` left. */
  lemma NoPathLeft(toml: Manifest)
    ensures forall i | 0 <= i < |Sections| :: !SectionHasPath(Frobbed(toml), Sections[i])
    ensures "workspace" !in Frobbed(toml)
  {
  }

  /** Keys other than the three sections and `workspace`, other keys of a
      dependency table, and dependencies that are not tables are kept. */
  lemma FrobbedKeeps(toml: Manifest)
    ensures Frobbed(toml).Keys == toml.Keys - {"workspace"}
    ensures forall k | k in toml && k != "workspace" && k !in Sections :: Frobbed(toml)[k] == toml[k]
    ensures forall i, d | 0 <= i < |Sections| && Sections[i] in toml && toml[Sections[i]].Table? &&
        d in toml[Sections[i]].entries ::
      && Frobbed(toml)[Sections[i]].Table?
      && d in Frobbed(toml)[Sections[i]].entries
      && Frobbed(toml)[Sections[i]].entries[d] == StripDep(toml[Sections[i]].entries[d])
    ensures forall i | 0 <= i < |Sections| && Sections[i] in toml && !toml[Sections[i]].Table? ::
      Frobbed(toml)[Sections[i]] == toml[Sections[i]]
  {
  }

  /** The rewrite changes the manifest exactly when it needs rewriting. */
  lemma ChangesIffDiffers(toml: Manifest)
    ensures Changes(toml) <==> Frobbed(toml) != toml
  {
    var f := Frobbed(toml);
    if "workspace" in toml {
      assert "workspace" !in f;
    } else if exists i | 0 <= i < |Sections| :: SectionHasPath(toml, Sections[i]) {
      var i :| 0 <= i < |Sections| && SectionHasPath(toml, Sections[i]);
      var s := Sections[i];
      var k :| k in toml[s].entries && HasPath(toml[s].entries[k]);
      assert !HasPath(f[s].entries[k]);
      assert f[s] != toml[s];
    } else {
      forall k | k in toml ensures f[k] == toml[k] {
        if k in Sections {
          var i :| 0 <= i < |Sections| && Sections[i] == k;
          assert !SectionHasPath(toml, Sections[i]);
          if toml[k].Table? {
            var deps := toml[k].entries;
            assert (map d | d in deps :: StripDep(deps[d])) == deps;
          }
        }
      }
      assert f == toml;
    }
  }

  /** The sections `Sections[..i]` stripped, the rest as it was. */
  function StrippedUpTo(toml: Manifest, i: nat): Manifest
    requires i <= |Sections|
  {
    map k | k in toml :: if k in Sections[..i] then StripSection(toml[k]) else toml[k]
  }

  /** Strip the `path` of every dependency of one section, in place. */
  method StripDeps(deps: map<string, Value>) returns (out: map<string, Value>, changed: bool)
    ensures out == map k | k in deps :: StripDep(deps[k])
    ensures changed <==> exists k | k in deps :: HasPath(deps[k])
  {
    out := deps;
    changed := false;
    var todo := deps.Keys;
    while todo != {}
      invariant todo <= deps.Keys
      invariant out.Keys == deps.Keys
      invariant forall k | k in deps :: out[k] == if k in todo then deps[k] else StripDep(deps[k])
      invariant changed <==> exists k | k in deps.Keys - todo :: HasPath(deps[k])
      decreases |todo|
    {
      var k :| k in todo;
      match out[k] {
        case Table(props) =>
          if "path" in props {
            changed := true;
          }
          out := out[k := Table(props - {"path"})];
        case Scalar(_) =>
      }
      todo := todo - {k};
    }
  }

  /** Stripping one more section: the sections before it are already
      stripped and it is still as it was in the original. */
  lemma StripStep(toml: Manifest, i: nat)
    requires i < |Sections|
    ensures Sections[i] in StrippedUpTo(toml, i) <==> Sections[i] in toml
    ensures Sections[i] in toml ==> StrippedUpTo(toml, i)[Sections[i]] == toml[Sections[i]]
    ensures StrippedUpTo(toml, i + 1) ==
      if Sections[i] in toml
      then StrippedUpTo(toml, i)[Sections[i] := StripSection(toml[Sections[i]])]
      else StrippedUpTo(toml, i)
  {
    assert Sections[..i + 1] == Sections[..i] + [Sections[i]];
    assert Sections[i] !in Sections[..i];
  }

  /** After the three sections, dropping `workspace` gives the rewrite. */
  lemma StrippedAll(toml: Manifest)
    ensures StrippedUpTo(toml, |Sections|) - {"workspace"} == Frobbed(toml)
    ensures "workspace" !in toml ==> StrippedUpTo(toml, |Sections|) == Frobbed(toml)
  {
    assert Sections[..|Sections|] == Sections;
  }

  /** The loop of `frob_toml` over the manifest: strip the three sections,
      drop `workspace`, and note whether anything was removed. */
  method FrobTable(toml: Manifest) returns (out: Manifest, changed: bool)
    ensures out == Frobbed(toml)
    ensures changed == Changes(toml)
  {
    out := toml;
    changed := false;
    var i := 0;
    assert Sections[..0] == [];
    while i < |Sections|
      invariant 0 <= i <= |Sections|
      invariant out == StrippedUpTo(toml, i)
      invariant changed <==> exists j | 0 <= j < i :: SectionHasPath(toml, Sections[j])
    {
      var section := Sections[i];
      StripStep(toml, i);
      if section in out {
        match out[section] {
          case Table(deps) =>
            var deps', c := StripDeps(deps);
            out := out[section := Table(deps')];
            changed := changed || c;
          case Scalar(_) =>
        }
      }
      i := i + 1;
    }
    StrippedAll(toml);
    if "workspace" in out {
      out := out - {"workspace"};
      changed := true;
    }
  }

  /** `frob_toml`: rewrite `<dir>/Cargo.toml` to `out` when it needs it.
      `parse` stands for the TOML parser and `render` for its printer. */
  method FrobToml(fs: FileSystem, dir: Path, out: Path,
                  parse: string -> Option<Manifest>, render: Value -> string)
    returns (r: Result<()>)
    requires fs.Valid()
    modifies fs
    ensures fs.Valid()
    ensures ReadString(old(fs.tree), dir + ["Cargo.toml"]).Err? ==>
      r == Err(Chain("no cargo.toml?", ReadString(old(fs.tree), dir + ["Cargo.toml"]).error)) &&
      fs.tree == old(fs.tree)
    ensures ReadString(old(fs.tree), dir + ["Cargo.toml"]).Ok? ==>
      var toml := parse(ReadString(old(fs.tree), dir + ["Cargo.toml"]).value);
      && (toml.None? ==>
            r == Err(Msg("unable to parse Cargo.toml at " + PathText(dir))) && fs.tree == old(fs.tree))
      && (toml.Some? && !Changes(toml.value) ==> r == Ok(()) && fs.tree == old(fs.tree))
      && (toml.Some? && Changes(toml.value) ==>
            Committed(WriteFile(old(fs.tree), out, Text(render(Table(Frobbed(toml.value))))), old(fs.tree), fs.tree, r))
  {
    var read := ReadString(fs.tree, dir + ["Cargo.toml"]);
    if read.Err? {
      return Err(Chain("no cargo.toml?", read.error));
    }
    var parsed := parse(read.value);
    if parsed.None? {
      return Err(Msg("unable to parse Cargo.toml at " + PathText(dir)));
    }
    var toml, changed := FrobTable(parsed.value);
    if changed {
      r := fs.WriteString(out, render(Table(toml)));
    } else {
      r := Ok(());
    }
  }
}
