/** The filesystem the core reads and writes, and the line-file helpers of
    cargobomb's `file` module. A path is a sequence of components; the
    filesystem is a map from paths to nodes in which every ancestor of a
    present path is a present directory. */
module Files {
  import opened Common
  import opened Ex

  type Path = seq<string>

  /** A JSON document as written by serde; only the two shapes the result
      store persists are represented, and JSON text itself is not modelled. */
  datatype Doc = ExperimentDoc(ex: Experiment) | ShasDoc(shas: map<string, string>)

  datatype Contents = Text(text: string) | Json(doc: Doc)

  datatype Node = Dir | File(contents: Contents)

  type Tree = map<Path, Node>

  /** `d` is `p` or one of its ancestors. */
  predicate IsPrefix(d: Path, p: Path) {
    |d| <= |p| && p[..|d|] == d
  }

  predicate IsDir(t: Tree, p: Path) {
    p in t && t[p].Dir?
  }

  /** The path as displayed in messages and command lines. */
  function PathText(p: Path): string {
    "/" + Join(p, "/")
  }

  /** Every ancestor of a present path is a present directory. */
  ghost predicate WellFormed(t: Tree) {
    forall p, k | p in t && 0 <= k < |p| :: IsDir(t, p[..k])
  }

  /** `d` and all of its ancestors, the root `[]` included. */
  function Ancestors(d: Path): (a: set<Path>)
    ensures forall k | 0 <= k <= |d| :: d[..k] in a
    ensures forall q | q in a :: IsPrefix(q, d)
  {
    set k | 0 <= k <= |d| :: d[..k]
  }

  /** The paths of `t0` off the line from the root to `d` and outside the
      subtree of `d` are the same in `t1`. */
  ghost predicate UnchangedOutside(t0: Tree, t1: Tree, d: Path) {
    forall q | !IsPrefix(d, q) && !IsPrefix(q, d) ::
      (q in t0 <==> q in t1) && (q in t0 ==> t0[q] == t1[q])
  }

  /** `fs::create_dir_all`: fails when a file stands on the way. */
  function CreateDirAllIn(t: Tree, d: Path): (r: Result<Tree>)
    ensures r.Ok? <==> forall k | 0 <= k <= |d| :: !(d[..k] in t && t[d[..k]].File?)
    ensures r.Ok? ==> forall k | 0 <= k <= |d| :: IsDir(r.value, d[..k])
    ensures r.Ok? ==> forall q | q in t :: q in r.value && (q !in Ancestors(d) ==> r.value[q] == t[q])
    ensures r.Ok? ==> forall q | q in r.value :: q in t || q in Ancestors(d)
  {
    if exists k | 0 <= k <= |d| :: d[..k] in t && t[d[..k]].File? then
      Err(Io("create_dir_all: not a directory: " + PathText(d)))
    else
      var a := Ancestors(d);
      Ok(map q | q in t.Keys + a :: if q in a then Dir else t[q])
  }

  /** `util::remove_dir_all`: `d` and everything under it disappear. */
  function RemoveTree(t: Tree, d: Path): (t': Tree)
    ensures forall q | q in t' :: q in t && t'[q] == t[q] && !IsPrefix(d, q)
    ensures forall q | q in t && !IsPrefix(d, q) :: q in t'
  {
    map q | q in t && !IsPrefix(d, q) :: t[q]
  }

  function Parent(p: Path): Path
    requires |p| > 0
  {
    p[..|p| - 1]
  }

  /** `File::create` followed by a write: the parent must be a directory and
      `p` must not be one; the old contents are replaced. */
  function WriteFile(t: Tree, p: Path, c: Contents): (r: Result<Tree>)
    ensures r.Ok? <==> |p| > 0 && IsDir(t, Parent(p)) && !IsDir(t, p)
    ensures r.Ok? ==> r.value == t[p := File(c)]
  {
    if |p| == 0 then Err(Io("is a directory: /"))
    else if !IsDir(t, Parent(p)) then Err(Io("no such directory: " + PathText(Parent(p))))
    else if IsDir(t, p) then Err(Io("is a directory: " + PathText(p)))
    else Ok(t[p := File(c)])
  }

  function ReadFile(t: Tree, p: Path): (r: Result<Contents>)
    ensures r.Ok? <==> p in t && t[p].File?
    ensures r.Ok? ==> t[p] == File(r.value)
  {
    if p !in t then Err(Io("not found: " + PathText(p)))
    else if t[p].Dir? then Err(Io("is a directory: " + PathText(p)))
    else Ok(t[p].contents)
  }

  /** `read_string`. A file holding a JSON document is not text here. */
  function ReadString(t: Tree, p: Path): (r: Result<string>)
    ensures r.Ok? <==> p in t && t[p].File? && t[p].contents.Text?
    ensures r.Ok? ==> t[p] == File(Text(r.value))
  {
    match ReadFile(t, p)
    case Ok(Text(s)) => Ok(s)
    case Ok(Json(_)) => Err(Parse("not a text file: " + PathText(p)))
    case Err(e) => Err(e)
  }

  /** `serde_json::from_str` of a file's contents. */
  function ReadDoc(t: Tree, p: Path): (r: Result<Doc>)
    ensures r.Ok? <==> p in t && t[p].File? && t[p].contents.Json?
    ensures r.Ok? ==> t[p] == File(Json(r.value))
  {
    match ReadFile(t, p)
    case Ok(Json(d)) => Ok(d)
    case Ok(Text(_)) => Err(Parse("not a JSON document: " + PathText(p)))
    case Err(e) => Err(e)
  }

  /** `append_line`: open for append, creating the file if absent, then
      write `s` and a newline. */
  function AppendLineIn(t: Tree, p: Path, s: string): (r: Result<Tree>)
    ensures r.Ok? ==> p in r.value && r.value[p].File? && r.value[p].contents.Text?
    ensures r.Ok? && p in t ==>
      t[p].File? && t[p].contents.Text? && r.value[p] == File(Text(t[p].contents.text + s + "\n"))
    ensures r.Ok? && p !in t ==> r.value[p] == File(Text(s + "\n"))
    ensures r.Ok? ==> r.value == t[p := r.value[p]]
    ensures (p in t && t[p].File? && t[p].contents.Text?) ==> r.Ok?
    ensures (|p| > 0 && p !in t && IsDir(t, Parent(p))) ==> r.Ok?
  {
    if p in t then
      match t[p]
      case Dir => Err(Io("is a directory: " + PathText(p)))
      case File(Json(_)) => Err(Io("not a text file: " + PathText(p)))
      case File(Text(prior)) => Ok(t[p := File(Text(prior + s + "\n"))])
    else WriteFile(t, p, Text(s + "\n"))
  }

  // ---------------------------------------------------------------------
  // Line files

  /** `write_lines`: the lines joined by newlines, with a final newline. */
  function LinesText(lines: seq<string>): string {
    Join(lines, "\n") + "\n"
  }

  /** The Unicode White_Space characters, which `char::is_whitespace` tests. */
  predicate IsWhitespace(c: char) {
    ('\U{0009}' <= c <= '\U{000D}') || c == '\U{0020}' || c == '\U{0085}'
    || c == '\U{00A0}' || c == '\U{1680}' || ('\U{2000}' <= c <= '\U{200A}')
    || c == '\U{2028}' || c == '\U{2029}' || c == '\U{202F}' || c == '\U{205F}'
    || c == '\U{3000}'
  }

  predicate Blank(l: string) {
    forall i | 0 <= i < |l| :: IsWhitespace(l[i])
  }

  function StripCR(l: string): string {
    if |l| > 0 && l[|l| - 1] == '\r' then l[..|l| - 1] else l
  }

  /** `str::lines`: split at newlines, drop the empty piece after a final
      newline, and strip one carriage return from the end of each line. */
  function Lines(s: string): (r: seq<string>)
    ensures |r| <= |Split(s, '\n')|
  {
    var pieces := Split(s, '\n');
    var kept := if pieces[|pieces| - 1] == "" then pieces[..|pieces| - 1] else pieces;
    seq(|kept|, i requires 0 <= i < |kept| => StripCR(kept[i]))
  }

  /** The lines that are not empty and not all whitespace, in order. */
  function NonBlank(lines: seq<string>): (r: seq<string>)
    ensures |r| <= |lines|
    ensures forall i | 0 <= i < |r| :: !Blank(r[i]) && r[i] in lines
    ensures forall i | 0 <= i < |lines| && !Blank(lines[i]) :: lines[i] in r
    decreases |lines|
  {
    if |lines| == 0 then []
    else
      assert forall i | 1 <= i < |lines| :: lines[i] == lines[1..][i - 1];
      (if Blank(lines[0]) then [] else [lines[0]]) + NonBlank(lines[1..])
  }

  /** The filter keeps order: the kept lines of two blocks are the kept
      lines of the first block followed by those of the second. */
  lemma {:induction false} NonBlankConcat(a: seq<string>, b: seq<string>)
    ensures NonBlank(a + b) == NonBlank(a) + NonBlank(b)
    decreases |a|
  {
    if |a| == 0 {
      assert a + b == b;
    } else {
      assert (a + b)[0] == a[0];
      assert (a + b)[1..] == a[1..] + b;
      NonBlankConcat(a[1..], b);
    }
  }

  /** A line file without blank lines is read back whole. */
  lemma {:induction false} NonBlankKeepsAll(lines: seq<string>)
    requires forall i | 0 <= i < |lines| :: !Blank(lines[i])
    ensures NonBlank(lines) == lines
    decreases |lines|
  {
    if |lines| > 0 {
      NonBlankKeepsAll(lines[1..]);
      assert [lines[0]] + lines[1..] == lines;
    }
  }

  /** `read_lines`. */
  function ReadLines(t: Tree, p: Path): (r: Result<seq<string>>)
    ensures r.Ok? <==> ReadString(t, p).Ok?
    ensures r.Ok? ==> forall i | 0 <= i < |r.value| :: !Blank(r.value[i])
  {
    match ReadString(t, p)
    case Ok(s) => Ok(NonBlank(Lines(s)))
    case Err(e) => Err(e)
  }

  /** A line `write_lines` can store and `read_lines` give back unchanged. */
  predicate PlainLine(l: string) {
    '\n' !in l && !(|l| > 0 && l[|l| - 1] == '\r')
  }

  /** Splitting a written line file gives back the lines. */
  lemma LinesOfLinesText(lines: seq<string>)
    requires |lines| > 0
    requires forall i | 0 <= i < |lines| :: PlainLine(lines[i])
    ensures Lines(LinesText(lines)) == lines
  {
    JoinAppendEmpty(lines, "\n");
    var parts := lines + [""];
    assert forall i | 0 <= i < |parts| :: '\n' !in parts[i];
    SplitJoin(parts, '\n');
    assert Split(LinesText(lines), '\n') == parts;
    assert parts[..|parts| - 1] == lines;
    forall i | 0 <= i < |lines|
      ensures StripCR(lines[i]) == lines[i]
    {
      assert PlainLine(lines[i]);
    }
  }

  /** A line file written from no lines reads as one empty line. */
  lemma EmptyLineFile()
    ensures Lines(LinesText([])) == [""]
  {
    assert LinesText([]) == "\n";
    var pieces := Split("\n", '\n');
    assert pieces == [""] + Split("", '\n');
    assert pieces == ["", ""];
    assert pieces[..|pieces| - 1] == [""];
    assert StripCR("") == "";
  }

  /** `read_lines` after `write_lines` returns the non-blank lines. */
  lemma ReadWrittenLines(lines: seq<string>)
    requires forall i | 0 <= i < |lines| :: PlainLine(lines[i])
    ensures NonBlank(Lines(LinesText(lines))) == NonBlank(lines)
  {
    if |lines| == 0 {
      EmptyLineFile();
    } else {
      LinesOfLinesText(lines);
    }
  }

  // ---------------------------------------------------------------------
  // Well-formedness is preserved by every operation

  lemma AncestorOfPrefix(p: Path, j: int, k: int)
    requires 0 <= k <= j <= |p|
    ensures p[..j][..k] == p[..k]
  {
  }

  lemma CreateDirAllWellFormed(t: Tree, d: Path)
    requires WellFormed(t)
    requires CreateDirAllIn(t, d).Ok?
    ensures WellFormed(CreateDirAllIn(t, d).value)
  {
    var t' := CreateDirAllIn(t, d).value;
    var a := Ancestors(d);
    forall q, k | q in t' && 0 <= k < |q|
      ensures IsDir(t', q[..k])
    {
      if q in a {
        var j :| 0 <= j <= |d| && q == d[..j];
        AncestorOfPrefix(d, j, k);
      } else {
        assert q in t;
        assert IsDir(t, q[..k]);
      }
    }
  }

  lemma RemoveTreeWellFormed(t: Tree, d: Path)
    requires WellFormed(t)
    ensures WellFormed(RemoveTree(t, d))
  {
    var t' := RemoveTree(t, d);
    forall q, k | q in t' && 0 <= k < |q|
      ensures IsDir(t', q[..k])
    {
      assert IsDir(t, q[..k]);
    }
  }

  lemma WriteFileWellFormed(t: Tree, p: Path, c: Contents)
    requires WellFormed(t)
    requires WriteFile(t, p, c).Ok?
    ensures WellFormed(WriteFile(t, p, c).value)
  {
    var t' := t[p := File(c)];
    forall q, k | q in t' && 0 <= k < |q|
      ensures IsDir(t', q[..k])
    {
      if q == p {
        if k < |p| - 1 {
          AncestorOfPrefix(p, |p| - 1, k);
          assert IsDir(t, Parent(p)[..k]);
        }
      } else {
        assert IsDir(t, q[..k]);
      }
    }
  }

  lemma AppendLineWellFormed(t: Tree, p: Path, s: string)
    requires WellFormed(t)
    requires AppendLineIn(t, p, s).Ok?
    ensures WellFormed(AppendLineIn(t, p, s).value)
  {
    if p in t {
      var t' := AppendLineIn(t, p, s).value;
      forall q, k | q in t' && 0 <= k < |q|
        ensures IsDir(t', q[..k])
      {
        assert IsDir(t, q[..k]);
      }
    } else {
      WriteFileWellFormed(t, p, Text(s + "\n"));
    }
  }

  /** In a well-formed tree an absent directory has no descendants. */
  lemma AbsentHasNoDescendants(t: Tree, d: Path)
    requires WellFormed(t)
    requires d !in t
    ensures RemoveTree(t, d) == t
  {
    forall q | q in t
      ensures !IsPrefix(d, q)
    {
      if |d| < |q| {
        assert IsDir(t, q[..|d|]);
      } else if |d| == |q| {
        assert q[..|d|] == q;
      }
    }
  }

  // ---------------------------------------------------------------------
  // Frames: what an operation on a path leaves alone

  lemma PrefixTotal(a: Path, b: Path, d: Path)
    requires IsPrefix(a, d) && IsPrefix(b, d)
    ensures IsPrefix(a, b) || IsPrefix(b, a)
  {
    if |a| <= |b| {
      assert b[..|a|] == d[..|a|];
    } else {
      assert a[..|b|] == d[..|b|];
    }
  }

  lemma PrefixTrans(a: Path, b: Path, c: Path)
    requires IsPrefix(a, b) && IsPrefix(b, c)
    ensures IsPrefix(a, c)
  {
    assert c[..|b|][..|a|] == c[..|a|];
  }

  /** Creating `d` touches only the line from the root to `d`. */
  lemma CreateDirAllFrame(t: Tree, d: Path, e: Path)
    requires CreateDirAllIn(t, d).Ok?
    requires IsPrefix(e, d)
    ensures UnchangedOutside(t, CreateDirAllIn(t, d).value, e)
  {
    var t' := CreateDirAllIn(t, d).value;
    forall q | !IsPrefix(e, q) && !IsPrefix(q, e)
      ensures (q in t <==> q in t') && (q in t ==> t[q] == t'[q])
    {
      if q in Ancestors(d) {
        PrefixTotal(q, e, d);
      }
    }
  }

  /** Creating an ancestor of `e` changes nothing off the line to `e`. */
  lemma CreateDirAllFrameAbove(t: Tree, d: Path, e: Path)
    requires CreateDirAllIn(t, d).Ok?
    requires IsPrefix(d, e)
    ensures UnchangedOutside(t, CreateDirAllIn(t, d).value, e)
  {
    var t' := CreateDirAllIn(t, d).value;
    forall q | !IsPrefix(e, q) && !IsPrefix(q, e)
      ensures (q in t <==> q in t') && (q in t ==> t[q] == t'[q])
    {
      if q in Ancestors(d) {
        PrefixTrans(q, d, e);
      }
    }
  }

  /** Removing `d` touches only the subtree of `d`. */
  lemma RemoveTreeFrame(t: Tree, d: Path, e: Path)
    requires IsPrefix(e, d)
    ensures UnchangedOutside(t, RemoveTree(t, d), e)
  {
    forall q | !IsPrefix(e, q) && !IsPrefix(q, e)
      ensures (q in t <==> q in RemoveTree(t, d))
    {
      if IsPrefix(d, q) {
        PrefixTrans(e, d, q);
      }
    }
  }

  /** Writing `p` touches only `p`. */
  lemma WriteFileFrame(t: Tree, p: Path, c: Contents, e: Path)
    requires WriteFile(t, p, c).Ok?
    requires IsPrefix(e, p)
    ensures UnchangedOutside(t, WriteFile(t, p, c).value, e)
  {
    assert p[..|p|] == p;
  }

  lemma UnchangedOutsideTrans(t0: Tree, t1: Tree, t2: Tree, e: Path)
    requires UnchangedOutside(t0, t1, e) && UnchangedOutside(t1, t2, e)
    ensures UnchangedOutside(t0, t2, e)
  {
  }

  /** Removing a subtree a second time changes nothing. */
  lemma RemoveTreeIdempotent(t: Tree, d: Path)
    ensures RemoveTree(RemoveTree(t, d), d) == RemoveTree(t, d)
  {
  }

  /** Joining the state a fallible operation leaves with its result. */
  predicate Committed(res: Result<Tree>, t0: Tree, t1: Tree, r: Result<()>) {
    match res
    case Ok(t) => r == Ok(()) && t1 == t
    case Err(e) => r == Err(e) && t1 == t0
  }

  /** The process's view of the filesystem, updated in place. */
  class FileSystem {
    var tree: Tree

    ghost predicate Valid()
      reads this
    {
      WellFormed(tree)
    }

    /** A filesystem holding only the root directory. */
    constructor Empty()
      ensures Valid() && tree == map[[] := Dir]
    {
      tree := map[[] := Dir];
    }

    method CreateDirAll(d: Path) returns (r: Result<()>)
      requires Valid()
      modifies this
      ensures Valid()
      ensures Committed(CreateDirAllIn(old(tree), d), old(tree), tree, r)
    {
      var res := CreateDirAllIn(tree, d);
      if res.Ok? {
        CreateDirAllWellFormed(tree, d);
        tree := res.value;
        r := Ok(());
      } else {
        r := Err(res.error);
      }
    }

    method RemoveDirAll(d: Path)
      requires Valid()
      modifies this
      ensures Valid()
      ensures tree == RemoveTree(old(tree), d)
    {
      RemoveTreeWellFormed(tree, d);
      tree := RemoveTree(tree, d);
    }

    /** `write_string`: the file holds exactly `s` afterwards. */
    method WriteString(p: Path, s: string) returns (r: Result<()>)
      requires Valid()
      modifies this
      ensures Valid()
      ensures Committed(WriteFile(old(tree), p, Text(s)), old(tree), tree, r)
      ensures r.Ok? ==> ReadString(tree, p) == Ok(s)
    {
      r := Write(p, Text(s));
    }

    /** `write_json`. */
    method WriteDoc(p: Path, doc: Doc) returns (r: Result<()>)
      requires Valid()
      modifies this
      ensures Valid()
      ensures Committed(WriteFile(old(tree), p, Json(doc)), old(tree), tree, r)
      ensures r.Ok? ==> ReadDoc(tree, p) == Ok(doc)
    {
      r := Write(p, Json(doc));
    }

    method Write(p: Path, c: Contents) returns (r: Result<()>)
      requires Valid()
      modifies this
      ensures Valid()
      ensures Committed(WriteFile(old(tree), p, c), old(tree), tree, r)
    {
      var res := WriteFile(tree, p, c);
      if res.Ok? {
        WriteFileWellFormed(tree, p, c);
        tree := res.value;
        r := Ok(());
      } else {
        r := Err(res.error);
      }
    }

    /** `write_lines`; reading the file back gives the non-blank lines. */
    method WriteLines(p: Path, lines: seq<string>) returns (r: Result<()>)
      requires Valid()
      modifies this
      ensures Valid()
      ensures Committed(WriteFile(old(tree), p, Text(LinesText(lines))), old(tree), tree, r)
      ensures r.Ok? && (forall i | 0 <= i < |lines| :: PlainLine(lines[i])) ==>
        ReadLines(tree, p) == Ok(NonBlank(lines))
    {
      r := WriteString(p, LinesText(lines));
      if r.Ok? && forall i | 0 <= i < |lines| :: PlainLine(lines[i]) {
        ReadWrittenLines(lines);
      }
    }

    /** `append_line`: prior contents, then `s` and a newline. */
    method AppendLine(p: Path, s: string) returns (r: Result<()>)
      requires Valid()
      modifies this
      ensures Valid()
      ensures Committed(AppendLineIn(old(tree), p, s), old(tree), tree, r)
      ensures r.Ok? && old(ReadString(tree, p)).Ok? ==>
        ReadString(tree, p) == Ok(old(ReadString(tree, p)).value + s + "\n")
      ensures r.Ok? && p !in old(tree) ==> ReadString(tree, p) == Ok(s + "\n")
    {
      var res := AppendLineIn(tree, p, s);
      if res.Ok? {
        AppendLineWellFormed(tree, p, s);
        tree := res.value;
        r := Ok(());
      } else {
        r := Err(res.error);
      }
    }
  }
}
