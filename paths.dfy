/**
 * Lexical path handling: `Path::components`, `PathBuf::push`/`pop`,
 * `Path::join` (Unix rules) and the mirror's own `normalize_path`
 * (src/main.rs). A path is the sequence of its components.
 */
module Paths {

  /** The kinds of `std::path::Component`. */
  datatype Component =
    | Prefix(drive: string)   // a Windows drive or UNC prefix
    | RootDir
    | CurDir
    | ParentDir
    | Normal(name: string)

  type Path = seq<Component>

  /**
   * The shape `Path::components` produces: a prefix only in first position,
   * the root only first or right after the prefix.
   */
  predicate WellFormed(p: Path) {
    forall i :: 0 <= i < |p| ==>
      (p[i].Prefix? ==> i == 0) &&
      (p[i].RootDir? ==> i == 0 || (i == 1 && p[0].Prefix?))
  }

  /** No `.` and no `..` components. */
  predicate Clean(p: Path) {
    forall i :: 0 <= i < |p| ==> !p[i].CurDir? && !p[i].ParentDir?
  }

  /**
   * `PathBuf::pop`: drops the last component when it is a normal name;
   * a path that is empty or ends at the root or a prefix has no parent and
   * is left alone.
   */
  function Pop(p: Path): (r: Path)
    ensures |p| > 0 && p[|p| - 1].Normal? ==> r + [p[|p| - 1]] == p
    ensures !(|p| > 0 && p[|p| - 1].Normal?) ==> r == p
  {
    if |p| > 0 && p[|p| - 1].Normal? then p[..|p| - 1] else p
  }

  /** One iteration of the loop of `normalize_path`. */
  function Step(p: Path, c: Component): Path {
    match c
    case CurDir => p
    case ParentDir => Pop(p)
    case _ => p + [c]   // a prefix past the first component never reaches this point
  }

  /** The loop of `normalize_path` run over the remaining components `cs`. */
  function Walk(p: Path, cs: Path): Path
    decreases |cs|
  {
    if cs == [] then p else Walk(Step(p, cs[0]), cs[1..])
  }

  /** `normalize_path`: keep a leading prefix, then walk the rest. */
  function Normalize(p: Path): Path {
    if |p| > 0 && p[0].Prefix? then Walk([p[0]], p[1..]) else Walk([], p)
  }

  /**
   * `normalize_path`, step by step on a growing buffer, as the source
   * does it with a `PathBuf`.
   */
  method NormalizePath(path: Path) returns (ret: Path)
    requires WellFormed(path)
    ensures ret == Normalize(path)
    ensures Clean(ret) && WellFormed(ret)
  {
    var i := 0;
    ret := [];
    if |path| > 0 && path[0].Prefix? {
      ret := [path[0]];
      i := 1;
    }
    while i < |path|
      invariant 0 <= i <= |path|
      invariant Walk(ret, path[i..]) == Normalize(path)
      invariant i > 0 || ret == []
      invariant Clean(ret) && WellFormed(ret + path[i..])
    {
      StepWellFormed(ret, path[i..]);
      match path[i] {
        case Prefix(_) =>
          assert false;
        case RootDir =>
          ret := ret + [path[i]];
        case CurDir =>
        case ParentDir =>
          ret := Pop(ret);
        case Normal(_) =>
          ret := ret + [path[i]];
      }
      assert path[i..][1..] == path[i + 1..];
      i := i + 1;
    }
    assert ret + path[i..] == ret;
  }

  /** A step of the walk keeps the buffer followed by what is left well formed. */
  lemma StepWellFormed(p: Path, cs: Path)
    requires |cs| > 0 && WellFormed(p + cs)
    ensures WellFormed(Step(p, cs[0]) + cs[1..])
    ensures |p| > 0 ==> !cs[0].Prefix?
  {
    var q := Step(p, cs[0]) + cs[1..];
    assert (p + cs)[|p|] == cs[0];
    forall i | 0 <= i < |q|
      ensures (q[i].Prefix? ==> i == 0) && (q[i].RootDir? ==> i == 0 || (i == 1 && q[0].Prefix?))
    {
      if i < |Step(p, cs[0])| {
        if cs[0].CurDir? || cs[0].ParentDir? {
          assert q[i] == (p + cs)[i];
        } else {
          assert q == p + cs;
        }
      } else {
        var j := i - |Step(p, cs[0])| + 1;
        assert q[i] == cs[j] == (p + cs)[|p| + j];
        assert |p| + j >= i;
        if cs[0].CurDir? || cs[0].ParentDir? {
          // position |p| holds `.` or `..`, so nothing after it is a prefix or the root
          assert |p| + j >= 1;
          assert !(p + cs)[|p| + j].Prefix?;
        }
      }
    }
  }

  /** Walking one more component is one more step. */
  lemma {:induction false} WalkSnoc(p: Path, cs: Path, c: Component)
    ensures Walk(p, cs + [c]) == Step(Walk(p, cs), c)
    decreases |cs|
  {
    if cs == [] {
      assert Walk(Step(p, c), []) == Step(p, c);
    } else {
      assert (cs + [c])[1..] == cs[1..] + [c];
      WalkSnoc(Step(p, cs[0]), cs[1..], c);
    }
  }

  /**
   * Appending a component to a path: `.` changes nothing, `..` cancels the
   * last normal name (and nothing at the root, at a prefix, or when empty),
   * anything else is appended.
   */
  lemma NormalizeSnoc(path: Path, c: Component)
    ensures c.CurDir? ==> Normalize(path + [c]) == Normalize(path)
    ensures c.ParentDir? ==> Normalize(path + [c]) == Pop(Normalize(path))
    ensures c.Normal? || c.RootDir? ==> Normalize(path + [c]) == Normalize(path) + [c]
  {
    if |path| > 0 && path[0].Prefix? {
      assert (path + [c])[1..] == path[1..] + [c];
      WalkSnoc([path[0]], path[1..], c);
    } else {
      WalkSnoc([], path, c);
    }
  }

  lemma {:induction false} WalkKeepsClean(p: Path, cs: Path)
    requires Clean(p)
    ensures Clean(Walk(p, cs))
    decreases |cs|
  {
    if cs != [] {
      WalkKeepsClean(Step(p, cs[0]), cs[1..]);
    }
  }

  /** The result of `normalize_path` holds no `.` and no `..`. */
  lemma NormalizeIsClean(path: Path)
    ensures Clean(Normalize(path))
  {
    if |path| > 0 && path[0].Prefix? {
      WalkKeepsClean([path[0]], path[1..]);
    } else {
      WalkKeepsClean([], path);
    }
  }

  /** Walking a clean path only appends. */
  lemma {:induction false} WalkClean(p: Path, cs: Path)
    requires Clean(cs)
    ensures Walk(p, cs) == p + cs
    decreases |cs|
  {
    if cs != [] {
      WalkClean(p + [cs[0]], cs[1..]);
      assert p + [cs[0]] + cs[1..] == p + cs;
    }
  }

  /** `normalize_path` is idempotent. */
  lemma NormalizeIdempotent(path: Path)
    ensures Normalize(Normalize(path)) == Normalize(path)
  {
    var n := Normalize(path);
    NormalizeIsClean(path);
    if |n| > 0 && n[0].Prefix? {
      WalkClean([n[0]], n[1..]);
      assert [n[0]] + n[1..] == n;
    } else {
      WalkClean([], n);
    }
  }

  /** Position of the first '/' of `s`. */
  function SlashIndex(s: string): (i: nat)
    requires '/' in s
    ensures i < |s| && s[i] == '/' && '/' !in s[..i]
  {
    if s[0] == '/' then 0
    else
      var j := SlashIndex(s[1..]);
      assert s[..j + 1] == [s[0]] + s[1..][..j];
      j + 1
  }

  /** The pieces of `s` between its slashes, empty ones included. */
  function Pieces(s: string): (r: seq<string>)
    ensures |r| > 0
    ensures forall k :: 0 <= k < |r| ==> '/' !in r[k]
    decreases |s|
  {
    if '/' in s then
      var i := SlashIndex(s);
      [s[..i]] + Pieces(s[i + 1..])
    else [s]
  }

  /**
   * The components named by a run of pieces: empty pieces (repeated or
   * trailing slashes) and `.` vanish, `..` is the parent.
   */
  function PieceComponents(pieces: seq<string>): (r: Path)
    ensures forall i :: 0 <= i < |r| ==> r[i].Normal? || r[i].ParentDir?
  {
    if pieces == [] then []
    else
      var head :=
        if pieces[0] == "" || pieces[0] == "." then []
        else if pieces[0] == ".." then [ParentDir]
        else [Normal(pieces[0])];
      head + PieceComponents(pieces[1..])
  }

  /**
   * The components of a Unix path string, as `Path::components` yields
   * them except for a leading `.`: Rust keeps that one as `CurDir`, this
   * parse drops it like every other `.`. The paths parsed here are only
   * joined and then normalized, and `normalize_path` drops `CurDir`
   * anyway, so the result of `Normalize` is the same either way.
   */
  function Parse(s: string): (r: Path)
    ensures WellFormed(r)
  {
    if |s| > 0 && s[0] == '/' then [RootDir] + PieceComponents(Pieces(s[1..]))
    else PieceComponents(Pieces(s))
  }

  /** `Path::join` on Unix: an absolute `rel` replaces `base`. */
  function Join(base: Path, rel: string): (r: Path)
    ensures |rel| > 0 && rel[0] == '/' ==> r == Parse(rel)
    ensures !(|rel| > 0 && rel[0] == '/') ==> |base| <= |r| && r[..|base|] == base
  {
    if |rel| > 0 && rel[0] == '/' then Parse(rel) else base + Parse(rel)
  }

  /** A single file or directory name: not empty, no slash, not `.` or `..`. */
  predicate PlainName(name: string) {
    name != "" && name != "." && name != ".." && '/' !in name
  }

  lemma PiecesCons(a: string, b: string)
    requires '/' !in a
    ensures Pieces(a + "/" + b) == [a] + Pieces(b)
  {
    var s := a + "/" + b;
    assert s[|a|] == '/';
    var i := SlashIndex(s);
    assert i == |a|;
    assert s[..i] == a;
    assert s[i + 1..] == b;
  }

  /** A plain name is a path of one normal component. */
  lemma {:induction false} PlainComponents(names: seq<string>)
    requires forall k :: 0 <= k < |names| ==> PlainName(names[k])
    ensures PieceComponents(names) == seq(|names|, k requires 0 <= k < |names| => Normal(names[k]))
  {
    if names != [] {
      PlainComponents(names[1..]);
    }
  }

  /** `<top>/<dir>/<file>` splits into its three names. */
  lemma PiecesThree(top: string, dir: string, file: string)
    requires PlainName(top) && PlainName(dir) && PlainName(file)
    ensures Pieces(top + "/" + dir + "/" + file) == [top, dir, file]
  {
    assert top + "/" + dir + "/" + file == top + "/" + (dir + "/" + file);
    PiecesCons(top, dir + "/" + file);
    PiecesCons(dir, file);
  }

  /** `dist/<dir>/<file>` parses into exactly three normal components. */
  lemma ParseThree(top: string, dir: string, file: string)
    requires PlainName(top) && PlainName(dir) && PlainName(file)
    ensures Parse(top + "/" + dir + "/" + file) == [Normal(top), Normal(dir), Normal(file)]
  {
    var s := top + "/" + dir + "/" + file;
    assert s[0] == top[0] != '/';
    PiecesThree(top, dir, file);
    PlainComponents([top, dir, file]);
  }
}
