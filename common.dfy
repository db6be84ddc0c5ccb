/** Failure-compatible wrappers, the error kinds the core raises, and the
    string helpers (join, split, replace) that several components share. */
module Common {

  datatype Option<+T> = None | Some(value: T)

  /** The error kinds of the core. `Chain` is an error wrapped with a
      context message, as `chain_err` does. */
  datatype Error =
    | Msg(text: string)
    | Chain(context: string, cause: Error)
    | Io(what: string)
    | Parse(what: string)
    | ExperimentMissing(name: string)
    | Timeout(what: string, secs: nat)
    | BadRepoUrl(url: string)

  datatype Result<+T> = Ok(value: T) | Err(error: Error) {
    predicate IsFailure() { Err? }
    function PropagateFailure<U>(): Result<U>
      requires Err?
    {
      Err(error)
    }
    function Extract(): T
      requires Ok?
    {
      value
    }
  }

  /** Attach a context message to an error, leaving a success alone. */
  function ChainErr<T>(r: Result<T>, context: string): (r': Result<T>)
    ensures r'.Ok? <==> r.Ok?
    ensures r.Ok? ==> r' == r
    ensures r.Err? ==> r'.error == Chain(context, r.error)
  {
    match r
    case Ok(v) => Ok(v)
    case Err(e) => Err(Chain(context, e))
  }

  predicate StartsWith(s: string, prefix: string) {
    |prefix| <= |s| && s[..|prefix|] == prefix
  }

  /** `parts.join(sep)`: the parts with `sep` between neighbours. */
  function Join(parts: seq<string>, sep: string): string
    decreases |parts|
  {
    if |parts| == 0 then ""
    else if |parts| == 1 then parts[0]
    else parts[0] + sep + Join(parts[1..], sep)
  }

  /** `s.split(c)`: the pieces between occurrences of `c`; never empty. */
  function Split(s: string, c: char): (r: seq<string>)
    ensures |r| >= 1
    decreases |s|
  {
    if |s| == 0 then [""]
    else if s[0] == c then [""] + Split(s[1..], c)
    else
      var rest := Split(s[1..], c);
      [[s[0]] + rest[0]] + rest[1..]
  }

  /** `s.replace(from, to)`: every non-overlapping occurrence of `from`,
      scanning left to right, replaced by `to`. */
  function Replace(s: string, from: string, to: string): string
    requires |from| > 0
    decreases |s|
  {
    if |s| < |from| then s
    else if s[..|from|] == from then to + Replace(s[|from|..], from, to)
    else [s[0]] + Replace(s[1..], from, to)
  }

  /** `from` occurs somewhere in `s`. */
  predicate Occurs(s: string, from: string) {
    exists i | 0 <= i <= |s| :: OccursAt(s, from, i)
  }

  /** `from` occurs in `s` starting at index `i`. */
  predicate OccursAt(s: string, from: string, i: int) {
    0 <= i && i + |from| <= |s| && s[i..i + |from|] == from
  }

  /** A string without `c` splits into itself. */
  lemma {:induction false} SplitNoSep(a: string, c: char)
    requires c !in a
    ensures Split(a, c) == [a]
    decreases |a|
  {
    if |a| > 0 {
      SplitNoSep(a[1..], c);
      assert [a[0]] + a[1..] == a;
    }
  }

  /** Splitting at the first separator. */
  lemma {:induction false} SplitAtSep(a: string, c: char, b: string)
    requires c !in a
    ensures Split(a + [c] + b, c) == [a] + Split(b, c)
    decreases |a|
  {
    if |a| == 0 {
      assert a + [c] + b == [c] + b;
      assert ([c] + b)[1..] == b;
    } else {
      var s := a + [c] + b;
      assert s[0] == a[0];
      assert s[1..] == a[1..] + [c] + b;
      SplitAtSep(a[1..], c, b);
      assert [a[0]] + a[1..] == a;
    }
  }

  /** Splitting undoes joining when no part contains the separator. */
  lemma {:induction false} SplitJoin(parts: seq<string>, c: char)
    requires |parts| >= 1
    requires forall i :: 0 <= i < |parts| ==> c !in parts[i]
    ensures Split(Join(parts, [c]), c) == parts
    decreases |parts|
  {
    if |parts| == 1 {
      SplitNoSep(parts[0], c);
    } else {
      SplitJoin(parts[1..], c);
      SplitAtSep(parts[0], c, Join(parts[1..], [c]));
      assert [parts[0]] + parts[1..] == parts;
    }
  }

  /** Joining with one more empty part appends one more separator. */
  lemma {:induction false} JoinAppendEmpty(parts: seq<string>, sep: string)
    requires |parts| >= 1
    ensures Join(parts + [""], sep) == Join(parts, sep) + sep
    decreases |parts|
  {
    if |parts| == 1 {
      assert (parts + [""])[1..] == [""];
    } else {
      assert (parts + [""])[1..] == parts[1..] + [""];
      JoinAppendEmpty(parts[1..], sep);
    }
  }

  /** Replacing leaves a string without any occurrence unchanged. */
  lemma {:induction false} ReplaceNoOccurrence(s: string, from: string, to: string)
    requires |from| > 0
    requires !Occurs(s, from)
    ensures Replace(s, from, to) == s
    decreases |s|
  {
    if |s| >= |from| {
      assert s[0..|from|] == s[..|from|];
      assert !OccursAt(s, from, 0);
      if Occurs(s[1..], from) {
        var i :| OccursAt(s[1..], from, i);
        assert OccursAt(s[1..], from, i);
        assert s[i + 1..i + 1 + |from|] == s[1..][i..i + |from|];
        assert OccursAt(s, from, i + 1);
        assert false;
      }
      ReplaceNoOccurrence(s[1..], from, to);
      assert [s[0]] + s[1..] == s;
    }
  }
}
