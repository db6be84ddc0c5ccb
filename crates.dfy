/** Crate acquisition: where each crate is unpacked, the registry download
    cache, tarball unpacking, and the batch that prepares an experiment's
    crates. Downloads, the gzip decoder and `dl_repo` are oracles. */
module Crates {
  import opened Common
  import opened Ex
  import opened Results
  import opened Files

  /** Where registry crates are downloaded from. */
  const CratesRoot := "https://crates-io.s3-us-west-1.amazonaws.com/crates"

  /** The URL of a registry crate's `.crate` file. */
  function RegistryUrl(name: string, vers: string): (u: string)
    ensures StartsWith(u, CratesRoot + "/" + name + "/")
    ensures u[|CratesRoot + "/" + name + "/"|..] == name + "-" + vers + ".crate"
  {
    CratesRoot + "/" + name + "/" + name + "-" + vers + ".crate"
  }

  /** `crate_dir`: where a crate is unpacked below the crates directory. A
      repository whose URL does not parse has none. */
  function CrateDir(gh: UrlParser, cratesDir: Path, c: ExCrate): (r: Result<Path>)
    ensures r.Err? <==> !Resolvable(gh, c)
    ensures r.Err? ==> r.error == BadRepoUrl(c.url)
    ensures r.Ok? ==> r.value == cratesDir + CrateDirComponents(gh, c)
    ensures r.Ok? ==> IsPrefix(cratesDir, r.value) && |r.value| == |cratesDir| + 2
  {
    match c
    case Version(name, vers) => Ok(cratesDir + ["reg", name + "-" + vers])
    case Repo(url, sha) =>
      match gh(url)
      case None => Err(BadRepoUrl(url))
      case Some((org, name)) => Ok(cratesDir + ["gh", org + "." + name + "." + sha])
  }

  /** The unpack directory and the result store's crate directory name the
      crate the same way. */
  lemma CrateDirMatchesResults(gh: UrlParser, cratesDir: Path, c: ExCrate)
    requires Resolvable(gh, c)
    ensures PathText(CrateDir(gh, cratesDir, c).value[|cratesDir|..]) == "/" + CrateToDir(gh, c)
  {
    var r := CrateDir(gh, cratesDir, c).value;
    assert r[|cratesDir|..] == CrateDirComponents(gh, c);
    CrateDirJoined(gh, c);
  }

  /** One member of a tarball, or the error reading it raised. */
  datatype TarEntry =
    | FileEntry(path: Path, contents: Contents)
    | DirEntry(path: Path)
    | Broken(e: Error)

  /** A downloaded `.crate`: whether its gzip header decodes, and the tar
      entries behind it (a failure to list them is a first `Broken`). */
  datatype Download = Download(header: Result<()>, entries: seq<TarEntry>)

  /** An entry's path without its first component. */
  function StripFirst(p: Path): (q: Path)
    ensures |p| > 0 ==> [p[0]] + q == p
    ensures |p| == 0 ==> q == []
  {
    if |p| == 0 then [] else p[1..]
  }

  /** `path.join(components)`: the entry's path without its first
      component, appended to `dir` as it is. `Path::join` does not resolve
      `..` components; the operating system does (`Resolve`). */
  function Target(dir: Path, p: Path): (full: Path)
    ensures IsPrefix(dir, full)
    ensures full[|dir|..] == StripFirst(p)
  {
    dir + StripFirst(p)
  }

  /** A path without `..` components. */
  predicate NoParentRefs(p: Path) {
    forall k | 0 <= k < |p| :: p[k] != ".."
  }

  /** How the operating system resolves a path: a `..` steps up to the
      parent directory (staying at the root), any other component steps
      down into it. */
  function Resolve(p: Path): (q: Path)
    ensures |q| <= |p|
    decreases |p|
  {
    if |p| == 0 then []
    else
      var up := Resolve(p[..|p| - 1]);
      if p[|p| - 1] == ".." then (if |up| == 0 then [] else up[..|up| - 1])
      else up + [p[|p| - 1]]
  }

  /** A path without `..` resolves to itself. */
  lemma {:induction false} ResolvePlain(p: Path)
    requires NoParentRefs(p)
    ensures Resolve(p) == p
    decreases |p|
  {
    if |p| > 0 {
      ResolvePlain(p[..|p| - 1]);
      assert p[..|p| - 1] + [p[|p| - 1]] == p;
    }
  }

  /** Joining an entry path without `..` below a directory without `..`
      resolves to a path inside that directory. */
  lemma TargetResolvesInside(dir: Path, p: Path)
    requires NoParentRefs(dir) && NoParentRefs(StripFirst(p))
    ensures Resolve(Target(dir, p)) == Target(dir, p)
    ensures IsPrefix(dir, Resolve(Target(dir, p)))
  {
    var full := Target(dir, p);
    assert forall k | |dir| <= k < |full| :: full[k] == StripFirst(p)[k - |dir|];
    ResolvePlain(full);
  }

  /** Create the parent directory of `full`, if it has one. */
  function MakeParent(t: Tree, full: Path): Result<Tree> {
    if |full| == 0 then Ok(t) else CreateDirAllIn(t, Parent(full))
  }

  /** One step of `unpack_without_first_dir` as the Rust code takes it:
      the parent of the joined path is created and the entry unpacked where
      the joined path resolves, `..` components included. */
  function UnpackEntryAsWritten(t: Tree, dir: Path, e: TarEntry): (r: (Tree, Result<()>))
    ensures e.Broken? ==> r == (t, Err(e.e))
    ensures e.FileEntry? && r.1.Ok? ==>
      var at := Resolve(Target(dir, e.path));
      at in r.0 && r.0[at] == File(e.contents)
    ensures e.DirEntry? && r.1.Ok? ==> IsDir(r.0, Resolve(Target(dir, e.path)))
  {
    match e
    case Broken(err) => (t, Err(err))
    case FileEntry(p, c) =>
      var full := Target(dir, p);
      (match (if |full| == 0 then Ok(t) else CreateDirAllIn(t, Resolve(Parent(full))))
       case Err(err) => (t, Err(err))
       case Ok(t1) =>
         match WriteFile(t1, Resolve(full), c)
         case Err(err) => (t1, Err(err))
         case Ok(t2) => (t2, Ok(())))
    case DirEntry(p) =>
      var full := Target(dir, p);
      (match (if |full| == 0 then Ok(t) else CreateDirAllIn(t, Resolve(Parent(full))))
       case Err(err) => (t, Err(err))
       case Ok(t1) =>
         match CreateDirAllIn(t1, Resolve(full))
         case Err(err) => (t1, Err(err))
         case Ok(t2) =>
           assert Resolve(full)[..|Resolve(full)|] == Resolve(full);
           (t2, Ok(())))
  }

  /** As written, an entry `pkg/../x` unpacked into `/c` writes `/x`,
      outside the crate directory. */
  lemma AsWrittenEscapes()
    ensures var t := map[[] := Dir, ["c"] := Dir];
      var res := UnpackEntryAsWritten(t, ["c"], FileEntry(["pkg", "..", "x"], Text("")));
      && res.1 == Ok(())
      && ["x"] !in t && ["x"] in res.0 && res.0[["x"]] == File(Text(""))
      && !IsPrefix(["c"], ["x"])
      && !UnchangedOutside(t, res.0, ["c"])
  {
    var t := map[[] := Dir, ["c"] := Dir];
    var c := Text("");
    var e := FileEntry(["pkg", "..", "x"], c);
    var full := Target(["c"], e.path);
    assert full == ["c", "..", "x"] by {
      assert StripFirst(e.path) == ["..", "x"];
    }
    assert Resolve(["c"]) == ["c"] by {
      assert ["c"][..0] == [];
    }
    assert Resolve(["c", ".."]) == [] by {
      assert ["c", ".."][..1] == ["c"];
    }
    assert Resolve(full) == ["x"] by {
      assert full[..2] == ["c", ".."];
    }
    assert Parent(full) == ["c", ".."];
    var m := CreateDirAllIn(t, []);
    assert m.Ok? by {
      var root: Path := []; assert root[..0] == root;
    }
    var t1 := m.value;
    assert IsDir(t1, []) by {
      var root: Path := []; assert root[..0] == root;
    }
    assert ["x"] !in t1 by {
      assert ["x"] !in t;
      assert !IsPrefix(["x"], []);
    }
    assert Parent(["x"]) == [];
    var w := WriteFile(t1, ["x"], c);
    assert w.Ok?;
    assert UnpackEntryAsWritten(t, ["c"], e) == (w.value, Ok(()));
    assert w.value[["x"]] == File(c);
    assert !IsPrefix(["c"], ["x"]) && !IsPrefix(["x"], ["c"]);
  }

  /** One step of `unpack_without_first_dir`, with entries whose path
      holds a `..` component skipped, as `tar::Entry::unpack_in` skips
      them: the tree afterwards and the step's result. */
  function UnpackEntry(t: Tree, dir: Path, e: TarEntry): (r: (Tree, Result<()>))
    ensures e.Broken? ==> r == (t, Err(e.e))
    ensures !e.Broken? && !NoParentRefs(StripFirst(e.path)) ==> r == (t, Ok(()))
    ensures e.FileEntry? && NoParentRefs(StripFirst(e.path)) && r.1.Ok? ==>
      Target(dir, e.path) in r.0 && r.0[Target(dir, e.path)] == File(e.contents)
    ensures e.DirEntry? && NoParentRefs(StripFirst(e.path)) && r.1.Ok? ==> IsDir(r.0, Target(dir, e.path))
  {
    if e.Broken? then (t, Err(e.e))
    else if !NoParentRefs(StripFirst(e.path)) then (t, Ok(()))
    else UnpackPlain(t, dir, e)
  }

  /** An entry without `..` unpacked at its joined path. */
  function UnpackPlain(t: Tree, dir: Path, e: TarEntry): (r: (Tree, Result<()>))
    requires !e.Broken?
    ensures e.FileEntry? && r.1.Ok? ==>
      Target(dir, e.path) in r.0 && r.0[Target(dir, e.path)] == File(e.contents)
    ensures e.DirEntry? && r.1.Ok? ==> IsDir(r.0, Target(dir, e.path))
  {
    match e
    case FileEntry(p, c) =>
      var full := Target(dir, p);
      (match MakeParent(t, full)
       case Err(err) => (t, Err(err))
       case Ok(t1) =>
         match WriteFile(t1, full, c)
         case Err(err) => (t1, Err(err))
         case Ok(t2) => (t2, Ok(())))
    case DirEntry(p) =>
      var full := Target(dir, p);
      (match MakeParent(t, full)
       case Err(err) => (t, Err(err))
       case Ok(t1) =>
         match CreateDirAllIn(t1, full)
         case Err(err) => (t1, Err(err))
         case Ok(t2) =>
           assert full[..|full|] == full;
           (t2, Ok(())))
  }

  /** On entries without `..`, below a directory without `..`, the step as
      written and the corrected step do the same. */
  lemma AsWrittenAgreesWithoutParentRefs(t: Tree, dir: Path, e: TarEntry)
    requires NoParentRefs(dir)
    requires !e.Broken? ==> NoParentRefs(StripFirst(e.path))
    ensures UnpackEntryAsWritten(t, dir, e) == UnpackEntry(t, dir, e)
  {
    if !e.Broken? {
      TargetResolvesToItself(dir, e.path);
      assert UnpackEntry(t, dir, e) == UnpackPlain(t, dir, e);
    }
  }

  /** Without `..`, resolving the joined path and its parent changes nothing. */
  lemma TargetResolvesToItself(dir: Path, p: Path)
    requires NoParentRefs(dir) && NoParentRefs(StripFirst(p))
    ensures Resolve(Target(dir, p)) == Target(dir, p)
    ensures |Target(dir, p)| > 0 ==> Resolve(Parent(Target(dir, p))) == Parent(Target(dir, p))
  {
    var full := Target(dir, p);
    TargetResolvesInside(dir, p);
    if |full| > 0 {
      assert NoParentRefs(Parent(full)) by {
        assert forall k | 0 <= k < |Parent(full)| :: Parent(full)[k] == full[k];
      }
      ResolvePlain(Parent(full));
    }
  }

  /** `unpack_without_first_dir` over a list of entries: stop at the first
      failing entry, leaving what the earlier ones wrote. */
  function UnpackAll(t: Tree, dir: Path, es: seq<TarEntry>): (r: (Tree, Result<()>))
    ensures (exists i | 0 <= i < |es| :: es[i].Broken?) ==> r.1.Err?
    decreases |es|
  {
    if |es| == 0 then (t, Ok(()))
    else
      var prior := UnpackAll(t, dir, es[..|es| - 1]);
      assert forall i | 0 <= i < |es| - 1 :: es[..|es| - 1][i] == es[i];
      if prior.1.Err? then prior else UnpackEntry(prior.0, dir, es[|es| - 1])
  }

  /** Once an entry fails, later entries change nothing. */
  lemma {:induction false} UnpackErrSticks(t: Tree, dir: Path, es: seq<TarEntry>, j: nat)
    requires j <= |es|
    requires UnpackAll(t, dir, es[..j]).1.Err?
    ensures UnpackAll(t, dir, es) == UnpackAll(t, dir, es[..j])
    decreases |es|
  {
    if j == |es| {
      assert es[..j] == es;
    } else {
      var es' := es[..|es| - 1];
      assert es'[..j] == es[..j];
      UnpackErrSticks(t, dir, es', j);
    }
  }

  /** Leading components differ, landing place the same: exactly the first
      component is dropped. */
  lemma FirstComponentDropped(t: Tree, dir: Path, a: string, b: string, rest: Path, c: Contents)
    ensures UnpackEntry(t, dir, FileEntry([a] + rest, c)) == UnpackEntry(t, dir, FileEntry([b] + rest, c))
    ensures Target(dir, [a] + rest) == dir + rest
  {
    assert ([a] + rest)[1..] == rest && ([b] + rest)[1..] == rest;
  }

  /** A file entry `top/rest` lands at `dir/rest` with its ancestors made
      directories, when no file stands on the way. */
  lemma UnpackFileLands(t: Tree, dir: Path, top: string, rest: Path, c: Contents)
    requires |rest| > 0 && NoParentRefs(rest)
    requires forall k | 0 <= k < |dir + rest| :: !((dir + rest)[..k] in t && t[(dir + rest)[..k]].File?)
    requires !IsDir(t, dir + rest)
    ensures UnpackEntry(t, dir, FileEntry([top] + rest, c)).1 == Ok(())
    ensures dir + rest in UnpackEntry(t, dir, FileEntry([top] + rest, c)).0
    ensures UnpackEntry(t, dir, FileEntry([top] + rest, c)).0[dir + rest] == File(c)
    ensures forall k | 0 <= k < |dir + rest| :: IsDir(UnpackEntry(t, dir, FileEntry([top] + rest, c)).0, (dir + rest)[..k])
  {
    var full := dir + rest;
    assert ([top] + rest)[1..] == rest;
    assert Target(dir, [top] + rest) == full;
    var par := Parent(full);
    forall k | 0 <= k <= |par| ensures !(par[..k] in t && t[par[..k]].File?) {
      assert par[..k] == full[..k];
    }
    var t1 := CreateDirAllIn(t, par).value;
    assert full !in Ancestors(par);
    assert IsDir(t1, par[..|par|]);
    assert Parent(full) == par;
    assert !IsDir(t1, full);
    forall k | 0 <= k < |full| ensures IsDir(t1[full := File(c)], full[..k]) {
      assert full[..k] == par[..k];
      assert IsDir(t1, par[..k]);
    }
  }

  /** The layout of a registry crate: `pkg-1.0/src/lib.rs` lands at
      `<dir>/src/lib.rs`. */
  lemma UnpackExample(t: Tree, dir: Path, c: Contents)
    requires forall k | 0 <= k < |dir| + 2 :: !((dir + ["src", "lib.rs"])[..k] in t && t[(dir + ["src", "lib.rs"])[..k]].File?)
    requires !IsDir(t, dir + ["src", "lib.rs"])
    ensures dir + ["src", "lib.rs"] in UnpackEntry(t, dir, FileEntry(["pkg-1.0", "src", "lib.rs"], c)).0
    ensures UnpackEntry(t, dir, FileEntry(["pkg-1.0", "src", "lib.rs"], c)).0[dir + ["src", "lib.rs"]] == File(c)
    ensures IsDir(UnpackEntry(t, dir, FileEntry(["pkg-1.0", "src", "lib.rs"], c)).0, dir + ["src"])
  {
    assert ["pkg-1.0", "src", "lib.rs"] == ["pkg-1.0"] + ["src", "lib.rs"];
    assert NoParentRefs(["src", "lib.rs"]);
    UnpackFileLands(t, dir, "pkg-1.0", ["src", "lib.rs"], c);
    assert (dir + ["src", "lib.rs"])[..|dir| + 1] == dir + ["src"];
  }

  /** Unpacking one entry changes nothing off the line to `dir` and
      outside its subtree. */
  lemma UnpackEntryFrame(t: Tree, dir: Path, e: TarEntry)
    ensures UnchangedOutside(t, UnpackEntry(t, dir, e).0, dir)
  {
    if !e.Broken? && NoParentRefs(StripFirst(e.path)) {
      var full := Target(dir, e.path);
      var mp := MakeParent(t, full);
      if mp.Ok? && |full| > 0 {
        if |full| > |dir| {
          assert IsPrefix(dir, Parent(full));
          CreateDirAllFrame(t, Parent(full), dir);
        } else {
          assert IsPrefix(Parent(full), dir);
          CreateDirAllFrameAbove(t, Parent(full), dir);
        }
      }
      if mp.Ok? {
        var t1 := mp.value;
        if e.FileEntry? && WriteFile(t1, full, e.contents).Ok? {
          WriteFileFrame(t1, full, e.contents, dir);
          UnchangedOutsideTrans(t, t1, WriteFile(t1, full, e.contents).value, dir);
        }
        if e.DirEntry? && CreateDirAllIn(t1, full).Ok? {
          CreateDirAllFrame(t1, full, dir);
          UnchangedOutsideTrans(t, t1, CreateDirAllIn(t1, full).value, dir);
        }
      }
    }
  }

  /** Unpacking a tarball changes nothing outside `dir`. */
  lemma {:induction false} UnpackAllFrame(t: Tree, dir: Path, es: seq<TarEntry>)
    ensures UnchangedOutside(t, UnpackAll(t, dir, es).0, dir)
    decreases |es|
  {
    if |es| > 0 {
      var prior := UnpackAll(t, dir, es[..|es| - 1]);
      UnpackAllFrame(t, dir, es[..|es| - 1]);
      if prior.1.Ok? {
        UnpackEntryFrame(prior.0, dir, es[|es| - 1]);
        UnchangedOutsideTrans(t, prior.0, UnpackAll(t, dir, es).0, dir);
      }
    }
  }

  /** What `dl_registry` does once the download has arrived: create the
      directory, decode, unpack, and remove the directory on any failure. */
  function FetchInto(t: Tree, dir: Path, d: Download): (r: (Tree, Result<()>))
    ensures r.1.Ok? <==>
      CreateDirAllIn(t, dir).Ok? && d.header.Ok? && UnpackAll(CreateDirAllIn(t, dir).value, dir, d.entries).1.Ok?
    ensures r.1.Ok? ==> r.0 == UnpackAll(CreateDirAllIn(t, dir).value, dir, d.entries).0
  {
    match CreateDirAllIn(t, dir)
    case Err(e) => (t, Err(e))
    case Ok(t1) =>
      match d.header
      case Err(e) => (RemoveTree(t1, dir), Err(e))
      case Ok(_) =>
        var unpacked := UnpackAll(t1, dir, d.entries);
        match unpacked.1
        case Ok(_) => unpacked
        case Err(e) => (RemoveTree(unpacked.0, dir), Err(Chain("unable to unpack crate tarball", e)))
  }

  /** The same steps in the order the Rust code takes them: a gzip header that does
      not decode returns early, before the cleanup that follows unpacking. */
  function FetchIntoAsWritten(t: Tree, dir: Path, d: Download): (r: (Tree, Result<()>))
    ensures r.1 == FetchInto(t, dir, d).1
    ensures d.header.Ok? ==> r == FetchInto(t, dir, d)
  {
    match CreateDirAllIn(t, dir)
    case Err(e) => (t, Err(e))
    case Ok(t1) =>
      match d.header
      case Err(e) => (t1, Err(e))
      case Ok(_) =>
        var unpacked := UnpackAll(t1, dir, d.entries);
        match unpacked.1
        case Ok(_) => unpacked
        case Err(e) => (RemoveTree(unpacked.0, dir), Err(Chain("unable to unpack crate tarball", e)))
  }

  /** As written, a download whose gzip header does not decode fails but
      leaves the empty crate directory behind, so the next `dl_registry`
      for that crate finds the directory and skips the crate. */
  lemma AsWrittenCachesBadDownload(t: Tree, dir: Path, d: Download)
    requires dir !in t
    requires CreateDirAllIn(t, dir).Ok?
    requires d.header.Err?
    ensures FetchIntoAsWritten(t, dir, d).1.Err?
    ensures IsDir(FetchIntoAsWritten(t, dir, d).0, dir)
  {
    assert IsDir(CreateDirAllIn(t, dir).value, dir[..|dir|]);
    assert dir[..|dir|] == dir;
  }

  /** An instance: a corrupt download of a crate into `/c`. */
  lemma AsWrittenBadDownloadExample()
    ensures var res := FetchIntoAsWritten(map[[] := Dir], ["c"], Download(Err(Io("invalid gzip header")), []));
      res.1.Err? && ["c"] in res.0
  {
    AsWrittenCachesBadDownload(map[[] := Dir], ["c"], Download(Err(Io("invalid gzip header")), []));
  }

  /** A fetch changes nothing outside `dir`, and one that fails leaves no
      `dir` behind when there was none before. */
  lemma FetchIntoFrame(t: Tree, dir: Path, d: Download)
    ensures UnchangedOutside(t, FetchInto(t, dir, d).0, dir)
    ensures dir !in t && FetchInto(t, dir, d).1.Err? ==> dir !in FetchInto(t, dir, d).0
  {
    var c := CreateDirAllIn(t, dir);
    if c.Ok? {
      var t1 := c.value;
      CreateDirAllFrame(t, dir, dir);
      if d.header.Err? {
        RemoveTreeFrame(t1, dir, dir);
        UnchangedOutsideTrans(t, t1, RemoveTree(t1, dir), dir);
      } else {
        var unpacked := UnpackAll(t1, dir, d.entries);
        UnpackAllFrame(t1, dir, d.entries);
        UnchangedOutsideTrans(t, t1, unpacked.0, dir);
        if unpacked.1.Err? {
          RemoveTreeFrame(unpacked.0, dir, dir);
          UnchangedOutsideTrans(t, unpacked.0, RemoveTree(unpacked.0, dir), dir);
        }
      }
    }
  }

  /** One entry of `unpack_without_first_dir`, on the filesystem; an entry
      climbing out through `..` is skipped. */
  method UnpackEntryIn(fs: FileSystem, dir: Path, e: TarEntry) returns (r: Result<()>)
    requires fs.Valid()
    modifies fs
    ensures fs.Valid()
    ensures (fs.tree, r) == UnpackEntry(old(fs.tree), dir, e)
  {
    if !e.Broken? && !NoParentRefs(StripFirst(e.path)) {
      return Ok(());
    }
    match e
    case Broken(err) =>
      r := Err(err);
    case FileEntry(p, c) =>
      var full := Target(dir, p);
      if |full| > 0 {
        r := fs.CreateDirAll(Parent(full));
        if r.Err? {
          return;
        }
      }
      r := fs.Write(full, c);
    case DirEntry(p) =>
      var full := Target(dir, p);
      if |full| > 0 {
        r := fs.CreateDirAll(Parent(full));
        if r.Err? {
          return;
        }
      }
      r := fs.CreateDirAll(full);
  }

  /** `unpack_without_first_dir`: unpack each entry below `dir` without its
      first path component, stopping at the first failure. */
  method UnpackWithoutFirstDir(fs: FileSystem, dir: Path, entries: seq<TarEntry>) returns (r: Result<()>)
    requires fs.Valid()
    modifies fs
    ensures fs.Valid()
    ensures (fs.tree, r) == UnpackAll(old(fs.tree), dir, entries)
  {
    var t0 := fs.tree;
    var i := 0;
    while i < |entries|
      invariant 0 <= i <= |entries|
      invariant fs.Valid()
      invariant (fs.tree, Ok(())) == UnpackAll(t0, dir, entries[..i])
    {
      assert entries[..i + 1][..i] == entries[..i];
      r := UnpackEntryIn(fs, dir, entries[i]);
      if r.Err? {
        UnpackErrSticks(t0, dir, entries, i + 1);
        return;
      }
      i := i + 1;
    }
    assert entries[..i] == entries;
    r := Ok(());
  }

  /** `dl_registry`: a crate whose directory exists is taken as cached;
      otherwise it is downloaded from `RegistryUrl` and unpacked. `dl` is
      the download's outcome; `fetched` is the URL downloaded, if any. */
  method DlRegistry(fs: FileSystem, name: string, vers: string, dir: Path, dl: Result<Download>)
    returns (r: Result<()>, fetched: Option<string>)
    requires fs.Valid()
    modifies fs
    ensures fs.Valid()
    ensures UnchangedOutside(old(fs.tree), fs.tree, dir)
    ensures dir in old(fs.tree) ==> r == Ok(()) && fetched == None && fs.tree == old(fs.tree)
    ensures dir !in old(fs.tree) ==> fetched == Some(RegistryUrl(name, vers))
    ensures dir !in old(fs.tree) && dl.Err? ==>
      r == Err(Chain("unable to download " + RegistryUrl(name, vers), dl.error)) && fs.tree == old(fs.tree)
    ensures dir !in old(fs.tree) && dl.Ok? ==> (fs.tree, r) == FetchInto(old(fs.tree), dir, dl.value)
    ensures dir !in old(fs.tree) && r.Err? ==> dir !in fs.tree
  {
    var t0 := fs.tree;
    if dir in fs.tree {
      return Ok(()), None;
    }
    var url := RegistryUrl(name, vers);
    fetched := Some(url);
    match dl
    case Err(e) =>
      r := Err(Chain("unable to download " + url, e));
    case Ok(d) =>
      FetchIntoFrame(t0, dir, d);
      r := fs.CreateDirAll(dir);
      if r.Err? {
        return;
      }
      if d.header.Err? {
        fs.RemoveDirAll(dir);
        r := d.header;
        return;
      }
      r := UnpackWithoutFirstDir(fs, dir, d.entries);
      if r.Err? {
        r := Err(Chain("unable to unpack crate tarball", r.error));
        fs.RemoveDirAll(dir);
      }
  }

  /** Count of the successful outcomes. */
  function CountOk(outcomes: seq<Result<()>>): (n: nat)
    ensures n <= |outcomes|
    decreases |outcomes|
  {
    if |outcomes| == 0 then 0
    else CountOk(outcomes[..|outcomes| - 1]) + (if outcomes[|outcomes| - 1].Ok? then 1 else 0)
  }

  /** The rule `prepare` applies: at least half the crates, rounded down. */
  predicate Enough(n: nat, successes: nat) {
    successes >= n / 2
  }

  /** The rule without integer division: twice the successes, plus one for
      an odd count, reach the count. */
  lemma EnoughIff(n: nat, successes: nat)
    ensures Enough(n, successes) <==> 2 * successes + n % 2 >= n
  {
  }

  /** With ten crates five successes are enough and four are not; with
      nine, four are enough; a single crate may fail. */
  lemma EnoughExamples()
    ensures Enough(10, 5) && !Enough(10, 4)
    ensures Enough(9, 4) && !Enough(9, 3)
    ensures Enough(1, 0) && Enough(0, 0)
  {
  }

  /** What `prepare` records for one crate: a repository's outcome is its
      `dl_repo` result in context, a registry crate's error names it. */
  predicate OutcomeFits(c: ExCrate, repoRun: Result<()>, o: Result<()>) {
    && (c.Repo? ==> o == ChainErr(repoRun, "unable to download " + c.url))
    && (c.Version? && o.Err? ==>
          o.error.Chain? && o.error.context == "unable to download " + c.name + "-" + c.version)
  }

  /** `prepare`: acquire every crate in turn, reporting failures and going
      on, then fail when fewer than half succeeded. `downloads[i]` is the
      download a registry crate would get and `repoRuns[i]` the outcome of
      `dl_repo` for a repository. */
  method Prepare(fs: FileSystem, list: seq<(ExCrate, Path)>,
                 downloads: seq<Result<Download>>, repoRuns: seq<Result<()>>)
    returns (r: Result<()>, outcomes: seq<Result<()>>)
    requires fs.Valid()
    requires |downloads| == |list| && |repoRuns| == |list|
    modifies fs
    ensures fs.Valid()
    ensures |outcomes| == |list|
    ensures forall i | 0 <= i < |list| && list[i].0.Repo? ::
      outcomes[i] == ChainErr(repoRuns[i], "unable to download " + list[i].0.url)
    ensures forall i | 0 <= i < |list| && list[i].0.Version? && outcomes[i].Err? ::
      outcomes[i].error.Chain? &&
      outcomes[i].error.context == "unable to download " + list[i].0.name + "-" + list[i].0.version
    ensures r.Ok? <==> Enough(|list|, CountOk(outcomes))
    ensures r.Err? ==> r.error == Msg("unable to download a suspiciously-large number of crates")
  {
    var successes := 0;
    outcomes := [];
    var i := 0;
    while i < |list|
      invariant 0 <= i <= |list|
      invariant fs.Valid()
      invariant |outcomes| == i
      invariant successes == CountOk(outcomes)
      invariant forall k | 0 <= k < i :: OutcomeFits(list[k].0, repoRuns[k], outcomes[k])
    {
      var dir := list[i].1;
      var o: Result<()>;
      match list[i].0 {
        case Version(name, vers) =>
          var res, _ := DlRegistry(fs, name, vers, dir, downloads[i]);
          o := ChainErr(res, "unable to download " + name + "-" + vers);
        case Repo(url, _) =>
          o := ChainErr(repoRuns[i], "unable to download " + url);
      }
      assert OutcomeFits(list[i].0, repoRuns[i], o);
      if o.Ok? {
        successes := successes + 1;
      }
      assert (outcomes + [o])[..i] == outcomes;
      outcomes := outcomes + [o];
      i := i + 1;
    }
    assert forall k | 0 <= k < |list| :: OutcomeFits(list[k].0, repoRuns[k], outcomes[k]);
    if successes < |list| / 2 {
      return Err(Msg("unable to download a suspiciously-large number of crates")), outcomes;
    }
    r := Ok(());
  }
}
