/**
 * The part of Python's `pathlib.PurePosixPath` that the plugin relies on:
 * parsing a path string into a root and its parts, `.name`, `.parent`,
 * `str(...)`, the comparison with `Path(".")` and the `/` operator with a
 * single segment. Parsing splits on '/', keeps a root of "/" or (exactly
 * two leading slashes) "//", and drops empty and "." parts.
 */
module PurePaths {

  /** Python's `s.split("/")`; the result is never empty. */
  function Split(s: string): (r: seq<string>)
    ensures |r| >= 1
  {
    if s == [] then [""]
    else
      var t := Split(s[1..]);
      if s[0] == '/' then [""] + t else [[s[0]] + t[0]] + t[1..]
  }

  /** Python's `"/".join(parts)`. */
  function Join(parts: seq<string>): string {
    if parts == [] then ""
    else if |parts| == 1 then parts[0]
    else parts[0] + "/" + Join(parts[1..])
  }

  /** A piece of a split path that parsing keeps (`x and x != "."`). */
  predicate Kept(x: string) {
    x != "" && x != "."
  }

  function Keep(xs: seq<string>): (r: seq<string>)
    ensures forall i :: 0 <= i < |r| ==> Kept(r[i])
    ensures forall i :: 0 <= i < |r| ==> r[i] in xs
  {
    if xs == [] then []
    else if Kept(xs[0]) then [xs[0]] + Keep(xs[1..])
    else Keep(xs[1..])
  }

  datatype PurePath = PurePath(root: string, parts: seq<string>)

  /** `Path(".")`, which is also `Path("")`. */
  const Dot := PurePath("", [])

  /** `posixpath.splitroot` without its drive: the root and the rest. */
  function SplitRoot(s: string): (string, string) {
    if |s| >= 1 && s[0] == '/' then
      if |s| >= 2 && s[1] == '/' && !(|s| >= 3 && s[2] == '/') then ("//", s[2..])
      else ("/", s[1..])
    else ("", s)
  }

  predicate WellFormed(p: PurePath) {
    && (p.root == "" || p.root == "/" || p.root == "//")
    && forall i :: 0 <= i < |p.parts| ==> Kept(p.parts[i]) && '/' !in p.parts[i]
  }

  /** `PurePosixPath(s)`. */
  function Parse(s: string): (p: PurePath)
    ensures WellFormed(p)
  {
    var (root, rel) := SplitRoot(s);
    var parts := Keep(Split(rel));
    assert forall i :: 0 <= i < |parts| ==> '/' !in parts[i] by {
      SplitPieces(rel);
      forall i | 0 <= i < |parts| ensures '/' !in parts[i] {
        var x := parts[i];
        var j :| 0 <= j < |Split(rel)| && Split(rel)[j] == x;
      }
    }
    PurePath(root, parts)
  }

  /** `str(p)`. */
  function Format(p: PurePath): string {
    if p.root == "" && p.parts == [] then "." else p.root + Join(p.parts)
  }

  /** `p.name`. */
  function Name(p: PurePath): string {
    if p.parts == [] then "" else p.parts[|p.parts| - 1]
  }

  /** `p.parent`: the path without its last part (a path with no parts is its own parent). */
  function Parent(p: PurePath): PurePath {
    if p.parts == [] then p else PurePath(p.root, p.parts[..|p.parts| - 1])
  }

  /** `posixpath.join(a, b)` for a `b` that does not start with '/'. */
  function JoinStr(a: string, b: string): string {
    if a == [] || a[|a| - 1] == '/' then a + b else a + "/" + b
  }

  /** `p / seg`, as pathlib computes it: the joined string, parsed again. */
  function Child(p: PurePath, seg: string): PurePath {
    Parse(JoinStr(Format(p), seg))
  }

  /** `Path(s).name`. */
  function FileName(s: string): string {
    Name(Parse(s))
  }

  /** Every '/'-separated component is non-empty and not "." (no pathlib normalisation applies). */
  predicate IsCleanPath(s: string) {
    forall i :: 0 <= i < |Split(s)| ==> Kept(Split(s)[i])
  }

  /** No piece of a split contains the separator. */
  lemma {:induction false} SplitPieces(s: string)
    ensures forall i :: 0 <= i < |Split(s)| ==> '/' !in Split(s)[i]
  {
    if s != [] {
      SplitPieces(s[1..]);
      var t := Split(s[1..]);
      if s[0] != '/' {
        assert forall i :: 1 <= i < |Split(s)| ==> Split(s)[i] == t[i];
        assert '/' !in [s[0]] + t[0];
      }
    }
  }

  lemma {:induction false} SplitNoSlash(s: string)
    requires '/' !in s
    ensures Split(s) == [s]
  {
    if s != [] {
      SplitNoSlash(s[1..]);
      assert [s[0]] + s[1..] == s;
    }
  }

  /** A leading '/' splits off an empty first piece. */
  lemma SplitSlash(s: string)
    ensures Split(['/'] + s) == [""] + Split(s)
  {
    assert (['/'] + s)[1..] == s;
  }

  /** Any other leading character joins the first piece. */
  lemma SplitChar(c: char, s: string)
    requires c != '/'
    ensures Split([c] + s) == [[c] + Split(s)[0]] + Split(s)[1..]
  {
    assert ([c] + s)[1..] == s;
  }

  lemma {:induction false} SplitAppend(a: string, b: string)
    ensures Split(a + "/" + b) == Split(a) + Split(b)
  {
    if a == [] {
      assert a + "/" + b == ['/'] + b;
      SplitSlash(b);
    } else {
      var c, a' := a[0], a[1..];
      SplitAppend(a', b);
      SplitConsAppend(c, a', a' + "/" + b, Split(b));
      assert a == [c] + a';
      assert a + "/" + b == [c] + (a' + "/" + b);
    }
  }

  /** Putting one more character in front keeps a split of the form `Split(x) + u`. */
  lemma SplitConsAppend(c: char, x: string, w: string, u: seq<string>)
    requires Split(w) == Split(x) + u
    ensures Split([c] + w) == Split([c] + x) + u
  {
    if c == '/' {
      SplitSlash(w);
      SplitSlash(x);
      assert [""] + (Split(x) + u) == [""] + Split(x) + u;
    } else {
      SplitCharAppend(c, x, w, u);
    }
  }

  lemma SplitCharAppend(c: char, x: string, w: string, u: seq<string>)
    requires c != '/' && Split(w) == Split(x) + u
    ensures Split([c] + w) == Split([c] + x) + u
  {
    SplitChar(c, w);
    SplitChar(c, x);
    HeadAppend([c], Split(x), u);
  }

  /** Gluing a prefix onto the first piece commutes with appending more pieces. */
  lemma HeadAppend(x: string, t: seq<string>, u: seq<string>)
    requires |t| >= 1
    ensures [x + (t + u)[0]] + (t + u)[1..] == [x + t[0]] + t[1..] + u
  {
    assert (t + u)[0] == t[0];
    assert (t + u)[1..] == t[1..] + u;
  }

  lemma {:induction false} JoinCons(x: string, xs: seq<string>)
    requires |xs| >= 1
    ensures Join([x] + xs) == x + "/" + Join(xs)
  {
    assert ([x] + xs)[1..] == xs;
  }

  /** Joining the pieces of a split gives back the string. */
  lemma {:induction false} JoinSplit(s: string)
    ensures Join(Split(s)) == s
  {
    if s != [] {
      var t := Split(s[1..]);
      JoinSplit(s[1..]);
      if s[0] == '/' {
        JoinCons("", t);
      } else if |t| == 1 {
        assert Split(s) == [[s[0]] + t[0]];
      } else {
        JoinCons([s[0]] + t[0], t[1..]);
        JoinCons(t[0], t[1..]);
        assert [t[0]] + t[1..] == t;
      }
    }
  }

  /** Splitting a join of slash-free segments gives back the segments. */
  lemma {:induction false} SplitJoin(parts: seq<string>)
    requires |parts| >= 1
    requires forall i :: 0 <= i < |parts| ==> '/' !in parts[i]
    ensures Split(Join(parts)) == parts
  {
    if |parts| == 1 {
      SplitNoSlash(parts[0]);
    } else {
      SplitJoin(parts[1..]);
      SplitAppend(parts[0], Join(parts[1..]));
      SplitNoSlash(parts[0]);
    }
  }

  lemma {:induction false} JoinSnoc(xs: seq<string>, y: string)
    requires |xs| >= 1
    ensures Join(xs + [y]) == Join(xs) + "/" + y
  {
    if |xs| == 1 {
      assert xs + [y] == [xs[0], y];
    } else {
      assert (xs + [y])[1..] == xs[1..] + [y];
      JoinSnoc(xs[1..], y);
    }
  }

  lemma {:induction false} KeepAppend(xs: seq<string>, ys: seq<string>)
    ensures Keep(xs + ys) == Keep(xs) + Keep(ys)
  {
    if xs != [] {
      assert (xs + ys)[1..] == xs[1..] + ys;
      KeepAppend(xs[1..], ys);
    } else {
      assert xs + ys == ys;
    }
  }

  lemma {:induction false} KeepAll(xs: seq<string>)
    requires forall i :: 0 <= i < |xs| ==> Kept(xs[i])
    ensures Keep(xs) == xs
  {
    if xs != [] {
      KeepAll(xs[1..]);
    }
  }

  /** A clean path does not start with '/' and has no root. */
  lemma CleanHasNoRoot(s: string)
    requires IsCleanPath(s)
    ensures s != [] && s[0] != '/'
    ensures SplitRoot(s) == ("", s)
  {
    assert Kept(Split(s)[0]);
  }

  /**
   * On a clean path, pathlib does no normalisation: the parts are the
   * '/'-separated components and `str` gives back the same text.
   */
  lemma ParseClean(s: string)
    requires IsCleanPath(s)
    ensures Parse(s) == PurePath("", Split(s))
    ensures Format(Parse(s)) == s
  {
    CleanHasNoRoot(s);
    KeepAll(Split(s));
    JoinSplit(s);
  }

  /** A clean directory followed by one clean component is clean, and splits into both. */
  lemma CleanAppend(dir: string, file: string)
    requires IsCleanPath(dir) && Kept(file) && '/' !in file
    ensures Split(dir + "/" + file) == Split(dir) + [file]
    ensures IsCleanPath(dir + "/" + file)
  {
    SplitAppend(dir, file);
    SplitNoSlash(file);
  }

  /** The name of `dir/file` is `file`, for a clean directory and a clean component. */
  lemma FileNameUnder(dir: string, file: string)
    requires IsCleanPath(dir) && Kept(file) && '/' !in file
    ensures FileName(dir + "/" + file) == file
  {
    CleanAppend(dir, file);
    ParseClean(dir + "/" + file);
  }

  /**
   * `p / seg` appends `seg` as a new last part, except that an empty or
   * "." segment adds nothing; the root is kept.
   */
  lemma ChildAppends(p: PurePath, seg: string)
    requires WellFormed(p) && p != Dot && '/' !in seg
    ensures Child(p, seg) == PurePath(p.root, p.parts + Keep([seg]))
  {
    SplitNoSlash(seg);
    if p.parts == [] {
      ChildOfRoot(p.root, seg);
    } else {
      ChildOfParts(p, seg);
    }
  }

  lemma ChildOfRoot(root: string, seg: string)
    requires root == "/" || root == "//"
    requires '/' !in seg
    ensures Child(PurePath(root, []), seg) == PurePath(root, Keep([seg]))
  {
    SplitNoSlash(seg);
    var s := root + seg;
    assert Format(PurePath(root, [])) == root;
    assert JoinStr(root, seg) == s;
    if seg != [] {
      assert seg[0] in seg;
    }
    assert s[|root|..] == seg;
    assert SplitRoot(s) == (root, seg);
  }

  lemma ChildOfParts(p: PurePath, seg: string)
    requires WellFormed(p) && p.parts != [] && '/' !in seg
    ensures Child(p, seg) == PurePath(p.root, p.parts + Keep([seg]))
  {
    SplitNoSlash(seg);
    var j := Join(p.parts);
    JoinFirstLast(p.parts);
    var rel := j + "/" + seg;
    var s := p.root + rel;
    assert Format(p) == p.root + j;
    assert JoinStr(Format(p), seg) == s;
    assert Child(p, seg) == Parse(s);
    ParseRooted(p.root, rel);
    SplitJoin(p.parts);
    SplitAppend(j, seg);
    assert Split(rel) == p.parts + [seg];
    KeepAll(p.parts);
    KeepAppend(p.parts, [seg]);
  }

  /** Parsing a root followed by a relative part keeps the root and the kept pieces. */
  lemma ParseRooted(root: string, rel: string)
    requires root == "" || root == "/" || root == "//"
    requires rel != [] && rel[0] != '/'
    ensures Parse(root + rel) == PurePath(root, Keep(Split(rel)))
  {
    RootPrefix(root, rel);
  }

  /** A root followed by text that does not start with '/' splits back into the two. */
  lemma RootPrefix(root: string, rel: string)
    requires root == "" || root == "/" || root == "//"
    requires rel != [] && rel[0] != '/'
    ensures SplitRoot(root + rel) == (root, rel)
  {
    var s := root + rel;
    assert s[|root|..] == rel;
    assert s[|root|] == rel[0];
  }

  /** The join of kept, slash-free parts neither starts nor ends with '/'. */
  lemma {:induction false} JoinFirstLast(parts: seq<string>)
    requires |parts| >= 1
    requires forall i :: 0 <= i < |parts| ==> Kept(parts[i]) && '/' !in parts[i]
    ensures Join(parts) != [] && Join(parts)[0] != '/' && Join(parts)[|Join(parts)| - 1] != '/'
  {
    assert Kept(parts[0]) && '/' !in parts[0];
    assert parts[0][0] in parts[0];
    if |parts| > 1 {
      JoinFirstLast(parts[1..]);
    } else {
      assert parts[0][|parts[0]| - 1] in parts[0];
    }
  }
}
