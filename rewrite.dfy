/**
 * The last-component rewrite the plugin performs both on a page's source
 * path (plugin.py, `on_files`) and on the path part of a markdown link
 * (plugin.py, `replace_link`): take the path's pathlib name, strip its
 * ordering prefix, and put it back under the pathlib parent, or return the
 * bare new name when the parent is `Path(".")`.
 */
module PathRewrite {
  import opened Prefix
  import opened PurePaths

  /** The path with the prefix of its last component stripped. */
  function NewPath(path: string): string {
    var p := Parse(path);
    var newName := StripPrefix(Name(p));
    var parent := Parent(p);
    if parent == Dot then newName else Format(Child(parent, newName))
  }

  /** A stripped name is a tail of a part, so it never holds a '/'. */
  lemma StrippedNameHasNoSlash(path: string)
    ensures '/' !in StripPrefix(FileName(path))
  {
    var p := Parse(path);
    var n := Name(p);
    if p.parts != [] {
      assert '/' !in p.parts[|p.parts| - 1];
    }
    var r := StripPrefix(n);
    forall i | 0 <= i < |r| ensures r[i] != '/' {
      assert r[i] == n[|n| - |r| + i];
    }
  }

  /** A well-formed path survives being printed and parsed again. */
  lemma {:induction false} ParseFormat(q: PurePath)
    requires WellFormed(q)
    ensures Parse(Format(q)) == q
  {
    if q.parts == [] {
      if q.root == "" {
        SplitNoSlash(".");
        assert SplitRoot(".") == ("", ".");
        assert Keep(["."]) == Keep([]);
      } else {
        assert Format(q) == q.root;
        assert Keep(Split("")) == Keep([]);
        if q.root == "/" {
          assert SplitRoot("/") == ("/", "");
        } else {
          assert SplitRoot("//") == ("//", "");
        }
      }
    } else {
      JoinFirstLast(q.parts);
      RootPrefix(q.root, Join(q.parts));
      SplitJoin(q.parts);
      KeepAll(q.parts);
    }
  }

  /**
   * Whatever the path, only its last part changes: read back as a path, the
   * result has the same root and the same parent parts, and its last part
   * is the stripped name (dropped when stripping left "" or ".").
   */
  lemma NewPathChangesOnlyTheName(path: string)
    ensures Parse(NewPath(path)) ==
      PurePath(Parse(path).root, Parent(Parse(path)).parts + Keep([StripPrefix(FileName(path))]))
  {
    var p := Parse(path);
    var newName := StripPrefix(Name(p));
    var parent := Parent(p);
    StrippedNameHasNoSlash(path);
    SplitNoSlash(newName);
    if parent == Dot {
      assert p.root == "" && |p.parts| <= 1;
      if newName != [] {
        assert newName[0] in newName;
      }
      assert SplitRoot(newName) == ("", newName);
    } else {
      ChildAppends(parent, newName);
      ParseFormat(Child(parent, newName));
    }
  }

  /** A file at the top level becomes just its stripped name, without any "./". */
  lemma NewPathTopLevel(file: string)
    requires Kept(file) && '/' !in file
    ensures FileName(file) == file
    ensures NewPath(file) == StripPrefix(file)
  {
    SplitNoSlash(file);
    assert IsCleanPath(file);
    ParseClean(file);
  }

  /**
   * Under a directory, the directory is kept verbatim and the name is
   * replaced by its stripped form: `dir/NNN--rest` becomes `dir/rest`.
   */
  lemma NewPathKeepsParent(dir: string, file: string)
    requires IsCleanPath(dir) && Kept(file) && '/' !in file
    requires Kept(StripPrefix(file))
    ensures FileName(dir + "/" + file) == file
    ensures NewPath(dir + "/" + file) == dir + "/" + StripPrefix(file)
  {
    var path := dir + "/" + file;
    FileNameUnder(dir, file);
    ParentUnder(dir, file);
    StrippedNameHasNoSlash(path);
    ChildUnder(dir, StripPrefix(file));
  }

  lemma ParentUnder(dir: string, file: string)
    requires IsCleanPath(dir) && Kept(file) && '/' !in file
    ensures Parent(Parse(dir + "/" + file)) == PurePath("", Split(dir))
  {
    CleanAppend(dir, file);
    ParseClean(dir + "/" + file);
    assert (Split(dir) + [file])[..|Split(dir)|] == Split(dir);
  }

  lemma ChildUnder(dir: string, name: string)
    requires IsCleanPath(dir) && Kept(name) && '/' !in name
    ensures Format(Child(PurePath("", Split(dir)), name)) == dir + "/" + name
  {
    var parts := Split(dir);
    SplitPieces(dir);
    ChildAppends(PurePath("", parts), name);
    assert Keep([name]) == [name];
    JoinSnoc(parts, name);
    JoinSplit(dir);
  }

  /** The name of the rewritten path is the stripped name, when stripping leaves a real name. */
  lemma NewPathName(path: string)
    requires Kept(StripPrefix(FileName(path)))
    ensures FileName(NewPath(path)) == StripPrefix(FileName(path))
  {
    NewPathChangesOnlyTheName(path);
    assert Keep([StripPrefix(FileName(path))]) == [StripPrefix(FileName(path))];
  }

  /** The rewrites the plugin is documented to make, on a top-level page and under a directory. */
  lemma NewPathExamples()
    ensures NewPath("010--intro.md") == "intro.md"
    ensures NewPath("guides/020--setup.md") == "guides/setup.md"
    ensures NewPath("guides/010--quickstart.md") == "guides/quickstart.md"
  {
    assert IsOrderingPrefix("010--");
    assert "010--intro.md" == "010--" + "intro.md";
    NewPathTopLevelExample("010--", "intro.md");
    NewPathSubdirectoryExamples();
  }

  /** The rewrites the plugin is documented to make under a directory. */
  lemma NewPathSubdirectoryExamples()
    ensures NewPath("guides/020--setup.md") == "guides/setup.md"
    ensures NewPath("guides/010--quickstart.md") == "guides/quickstart.md"
  {
    NewPathSetupExample();
    NewPathQuickstartExample();
  }

  lemma NewPathSetupExample()
    ensures NewPath("guides/020--setup.md") == "guides/setup.md"
  {
    assert IsOrderingPrefix("020--");
    assert "guides/020--setup.md" == "guides" + "/" + ("020--" + "setup.md");
    assert "guides/setup.md" == "guides" + "/" + "setup.md";
    NewPathUnderExample("guides", "020--", "setup.md");
  }

  lemma NewPathQuickstartExample()
    ensures NewPath("guides/010--quickstart.md") == "guides/quickstart.md"
  {
    assert IsOrderingPrefix("010--");
    assert "guides/010--quickstart.md" == "guides" + "/" + ("010--" + "quickstart.md");
    assert "guides/quickstart.md" == "guides" + "/" + "quickstart.md";
    NewPathUnderExample("guides", "010--", "quickstart.md");
  }

  lemma NewPathTopLevelExample(p: string, rest: string)
    requires IsOrderingPrefix(p) && Kept(rest) && '/' !in rest
    ensures NewPath(p + rest) == rest
  {
    StripRemovesExactlyThePrefix(p, rest);
    assert p[0] in p;
    NewPathTopLevel(p + rest);
  }

  lemma NewPathUnderExample(dir: string, p: string, rest: string)
    requires '/' !in dir && Kept(dir)
    requires IsOrderingPrefix(p) && Kept(rest) && '/' !in rest
    ensures NewPath(dir + "/" + (p + rest)) == dir + "/" + rest
  {
    StripRemovesExactlyThePrefix(p, rest);
    assert p[0] in p;
    SplitNoSlash(dir);
    NewPathKeepsParent(dir, p + rest);
  }

  /**
   * A URL is read as a path like any other: the prefix of its last segment
   * is stripped, and pathlib collapses the "//" after the scheme.
   */
  lemma NewPathUrlExample()
    ensures FileName("https://e.com/010--a.md") == "010--a.md"
    ensures NewPath("https://e.com/010--a.md") == "https:/e.com/a.md"
  {
    UrlPieces();
    UrlStripped();
    UrlSegments();
    NewPathAfterEmptyPiece("https:", "e.com", "010--a.md");
  }

  /**
   * A path whose second piece is empty, as in `scheme://host/file`: the empty
   * piece is dropped by parsing, so the rewritten path has a single '/'
   * after the scheme.
   */
  lemma NewPathAfterEmptyPiece(a: string, b: string, file: string)
    requires '/' !in a && '/' !in b && '/' !in file
    requires Kept(a) && Kept(b) && Kept(file) && Kept(StripPrefix(file))
    ensures FileName(a + "//" + b + "/" + file) == file
    ensures NewPath(a + "//" + b + "/" + file) == a + "/" + b + "/" + StripPrefix(file)
  {
    var s := a + "//" + b + "/" + file;
    var dir := a + "/" + b;
    ParseAfterEmptyPiece(a, b, file);
    DirOfTwo(a, b);
    assert Parent(Parse(s)) == PurePath("", Split(dir));
    StrippedNameHasNoSlash(s);
    ChildUnder(dir, StripPrefix(file));
  }

  lemma ParseAfterEmptyPiece(a: string, b: string, file: string)
    requires '/' !in a && '/' !in b && '/' !in file
    requires Kept(a) && Kept(b) && Kept(file)
    ensures Parse(a + "//" + b + "/" + file) == PurePath("", [a, b, file])
  {
    var s := a + "//" + b + "/" + file;
    SplitAfterEmptyPiece(a, b, file);
    assert s[0] == a[0] && a[0] in a;
    assert SplitRoot(s) == ("", s);
    KeepDropsEmptyPiece(a, b, file);
  }

  lemma SplitAfterEmptyPiece(a: string, b: string, file: string)
    requires '/' !in a && '/' !in b && '/' !in file
    ensures Split(a + "//" + b + "/" + file) == [a, "", b, file]
  {
    var s := a + "//" + b + "/" + file;
    assert s == a + "/" + ("" + "/" + (b + "/" + file));
    SplitAppend(b, file);
    SplitAppend("", b + "/" + file);
    SplitAppend(a, "" + "/" + (b + "/" + file));
    SplitNoSlash(a);
    SplitNoSlash("");
    SplitNoSlash(b);
    SplitNoSlash(file);
  }

  lemma KeepDropsEmptyPiece(a: string, b: string, file: string)
    requires Kept(a) && Kept(b) && Kept(file)
    ensures Keep([a, "", b, file]) == [a, b, file]
  {
    var xs := [a, "", b, file];
    assert xs[1..][1..] == [b, file] && [b, file][1..] == [file] && [file][1..] == [];
    assert Keep([file]) == [file];
    assert Keep([b, file]) == [b] + Keep([file]);
    assert Keep(xs[1..]) == Keep([b, file]);
  }

  lemma DirOfTwo(a: string, b: string)
    requires '/' !in a && '/' !in b && Kept(a) && Kept(b)
    ensures Split(a + "/" + b) == [a, b]
    ensures IsCleanPath(a + "/" + b)
  {
    SplitAppend(a, b);
    SplitNoSlash(a);
    SplitNoSlash(b);
  }

  lemma UrlPieces()
    ensures "https://e.com/010--a.md" == "https:" + "//" + "e.com" + "/" + "010--a.md"
    ensures "https:/e.com/a.md" == "https:" + "/" + "e.com" + "/" + "a.md"
  {
  }

  lemma UrlStripped()
    ensures StripPrefix("010--a.md") == "a.md"
  {
    assert IsOrderingPrefix("010--") && "010--a.md" == "010--" + "a.md";
    StripRemovesExactlyThePrefix("010--", "a.md");
  }

  lemma UrlSegments()
    ensures '/' !in "https:" && '/' !in "e.com" && '/' !in "010--a.md"
    ensures Kept("https:") && Kept("e.com") && Kept("010--a.md") && Kept("a.md")
  {
  }
}
