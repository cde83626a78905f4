/**
 * `on_files` on the small sites of the plugin's own test suite, stated on
 * `OnFilesSpec`. The single-page cases also show where the code and its
 * tests part ways: the code rewrites `src_path`, and it leaves a
 * `dest_path` such as "010--intro/index.html" alone, because that path
 * does not contain the old basename "010--intro.md".
 */
module OnFilesExamples {
  import opened Optional
  import opened Prefix
  import opened PurePaths
  import opened PathRewrite
  import opened PyText
  import opened Plugin
  import opened OnFilesProperties

  /** A site with one selected page: it is rewritten and recorded, whatever the mode. */
  lemma SingleSelectedFile(strict: bool, collisions: map<string, seq<string>>, processed: map<string, string>, f: FileRec)
    requires Selected(f)
    ensures OnFilesSpec(true, strict, collisions, processed, [f]) ==
      Outcome(None, [Rewrite(f, PlannedFor([f], 0))], collisions, processed[f.srcPath := NewPath(f.srcPath)])
  {
    var t := PlannedFor([f], 0);
    CollectOne(f);
    GroupOne(t);
    ReportOne(t.newPath, t.oldPath, strict, collisions);
    AppliedOne(t, collisions);
    ApplyAllOne(f, t);
    ProcessedOne(processed, t);
    OnFilesSpecSteps(strict, collisions, processed, [f]);
  }

  lemma CollectOne(f: FileRec)
    requires Selected(f)
    ensures Collect([f]) == [PlannedFor([f], 0)]
  {
    assert [f][..0] == [];
  }

  lemma GroupOne(t: Transformation)
    ensures Group([t]) == Table([t.newPath], map[t.newPath := [t.oldPath]])
  {
    assert [t][..0] == [];
  }

  lemma ReportOne(d: string, src: string, strict: bool, collisions: map<string, seq<string>>)
    ensures ReportLoop([d], map[d := [src]], strict, collisions) == Report(None, false, collisions)
  {
    assert [d][..0] == [];
  }

  lemma AppliedOne(t: Transformation, collisions: map<string, seq<string>>)
    ensures Applied([t], false, collisions) == [t]
  {
    assert [t][..0] == [];
  }

  lemma ApplyAllOne(f: FileRec, t: Transformation)
    requires t.index == 0
    ensures ApplyAll([f], [t]) == [Rewrite(f, t)]
  {
    assert [t][..0] == [];
  }

  lemma ProcessedOne(processed: map<string, string>, t: Transformation)
    ensures Processed(processed, [t]) == processed[t.oldPath := t.newPath]
  {
    assert [t][..0] == [];
  }

  /**
   * Two selected pages planned to the same new path: strict mode raises
   * naming both, non-strict mode rewrites neither; both record the
   * collision and leave `processed_files` alone.
   */
  lemma TwoSelectedCollide(strict: bool, collisions: map<string, seq<string>>, processed: map<string, string>,
                           f1: FileRec, f2: FileRec)
    requires Selected(f1) && Selected(f2) && NewPath(f1.srcPath) == NewPath(f2.srcPath)
    ensures var d := NewPath(f1.srcPath);
      OnFilesSpec(true, strict, collisions, processed, [f1, f2]) ==
        Outcome(if strict then Some(CollisionError(d, [f1.srcPath, f2.srcPath])) else None,
                [f1, f2], collisions[d := [f1.srcPath, f2.srcPath]], processed)
  {
    var d := NewPath(f1.srcPath);
    var t1 := Transformation(0, f1.srcPath, d);
    var t2 := Transformation(1, f2.srcPath, d);
    var srcs := [f1.srcPath, f2.srcPath];
    var err := if strict then Some(CollisionError(d, srcs)) else None;
    CollectTwo(f1, f2);
    assert Collect([f1, f2]) == [t1, t2];
    GroupTwo(t1, t2);
    assert Group([t1, t2]) == Table([d], map[d := srcs]);
    ReportShared(d, srcs, strict, collisions);
    var rep := Report(err, true, collisions[d := srcs]);
    assert ReportLoop([d], map[d := srcs], strict, collisions) == rep;
    AppliedNeither(t1, t2, rep.collisions);
    OnFilesSpecSteps(strict, collisions, processed, [f1, f2]);
    var out := OnFilesSpec(true, strict, collisions, processed, [f1, f2]);
    assert out.err == err && out.collisions == rep.collisions;
    assert out.files == [f1, f2] && out.processed == processed;
  }

  lemma CollectTwo(f1: FileRec, f2: FileRec)
    requires Selected(f1) && Selected(f2)
    ensures Collect([f1, f2]) ==
      [Transformation(0, f1.srcPath, NewPath(f1.srcPath)), Transformation(1, f2.srcPath, NewPath(f2.srcPath))]
  {
    var recs := [f1, f2];
    assert recs[..1] == [f1] && recs[1] == f2;
    CollectOne(f1);
    assert Collect(recs) == Collect(recs[..1]) + [Transformation(1, f2.srcPath, NewPath(f2.srcPath))];
  }

  lemma GroupTwo(t1: Transformation, t2: Transformation)
    requires t1.newPath == t2.newPath
    ensures Group([t1, t2]) == Table([t1.newPath], map[t1.newPath := [t1.oldPath, t2.oldPath]])
  {
    assert [t1, t2][..1] == [t1];
    GroupOne(t1);
    assert [t1.oldPath] + [t2.oldPath] == [t1.oldPath, t2.oldPath];
    assert map[t1.newPath := [t1.oldPath]][t1.newPath := [t1.oldPath, t2.oldPath]] ==
      map[t1.newPath := [t1.oldPath, t2.oldPath]];
  }

  lemma ReportShared(d: string, srcs: seq<string>, strict: bool, collisions: map<string, seq<string>>)
    requires |srcs| > 1
    ensures ReportLoop([d], map[d := srcs], strict, collisions) ==
      Report(if strict then Some(CollisionError(d, srcs)) else None, true, collisions[d := srcs])
  {
    assert [d][..0] == [];
  }

  lemma AppliedNeither(t1: Transformation, t2: Transformation, collisions: map<string, seq<string>>)
    requires t1.newPath in collisions && t2.newPath in collisions
    ensures Applied([t1, t2], true, collisions) == []
  {
    assert [t1][..0] == [];
    assert Applied([t1], true, collisions) == [];
    assert [t1, t2][..1] == [t1];
  }

  lemma IntroName()
    ensures FileName("010--intro.md") == "010--intro.md"
    ensures FileName("intro.md") == "intro.md"
    ensures NewPath("010--intro.md") == "intro.md"
    ensures IsPrefixed("010--intro.md")
  {
    IntroOldName();
    IntroNewName();
    NewPathExamples();
    IntroPrefixed();
  }

  lemma IntroOldName()
    ensures FileName("010--intro.md") == "010--intro.md"
  {
    NewPathTopLevel("010--intro.md");
  }

  lemma IntroNewName()
    ensures FileName("intro.md") == "intro.md"
  {
    NewPathTopLevel("intro.md");
  }

  lemma IntroPrefixed()
    ensures IsPrefixed("010--intro.md")
  {
    assert "010--intro.md" == "010--" + "intro.md";
    StripRemovesExactlyThePrefix("010--", "intro.md");
  }

  /** `Path(...).name.replace(".md", "")` for the two names of the top-level page. */
  lemma IntroStems()
    ensures Stem("010--intro.md") == "010--intro"
    ensures Stem("intro.md") == "intro"
  {
    assert "010--intro.md" == "010--intro" + ".md" + "";
    NoneStartsIn("010--intro", ".md", "");
    ReplaceLeftmost("010--intro", ".md", "", "");
    assert "intro.md" == "intro" + ".md" + "";
    NoneStartsIn("intro", ".md", "");
    ReplaceLeftmost("intro", ".md", "", "");
  }

  /** The old basename does not occur in "010--intro/index.html", so `dest_path` is kept. */
  lemma IntroDestKept()
    ensures Replace("010--intro/index.html", "010--intro.md", "intro.md") == "010--intro/index.html"
  {
    ShortHasNone("010--intro", "010--intro.md");
    NoOccurrenceAcross("010--intro", '/', "index.html", "010--intro.md");
    assert "010--intro" + ['/'] + "index.html" == "010--intro/index.html";
    ReplaceAbsent("010--intro/index.html", "010--intro.md", "intro.md");
  }

  /**
   * The single top-level page of the test suite: `src_path` becomes
   * "intro.md" and `url` becomes "intro/", while `dest_path` stays
   * "010--intro/index.html" (the tests expect "intro/index.html" and an
   * unchanged `src_path`).
   */
  lemma TopLevelPageOutcome(strict: bool, collisions: map<string, seq<string>>, processed: map<string, string>)
    ensures OnFilesSpec(true, strict, collisions, processed,
                        [FileRec("010--intro.md", "010--intro/index.html", "010--intro/", true)]) ==
      Outcome(None, [FileRec("intro.md", "010--intro/index.html", "intro/", true)],
              collisions, processed["010--intro.md" := "intro.md"])
  {
    var f := FileRec("010--intro.md", "010--intro/index.html", "010--intro/", true);
    IntroName();
    SingleSelectedFile(strict, collisions, processed, f);
    IntroStems();
    IntroDestKept();
    IntroUrl();
  }

  lemma IntroUrl()
    ensures Replace("010--intro/", "010--intro", "intro") == "intro/"
  {
    assert "010--intro/" == "" + "010--intro" + "/";
    ReplaceLeftmost("", "010--intro", "/", "intro");
    ShortHasNone("/", "010--intro");
    ReplaceAbsent("/", "010--intro", "intro");
    assert "" + "intro" + "/" == "intro/";
  }

  lemma SetupName()
    ensures FileName("guides/020--setup.md") == "020--setup.md"
    ensures FileName("guides/setup.md") == "setup.md"
    ensures NewPath("guides/020--setup.md") == "guides/setup.md"
    ensures IsPrefixed("020--setup.md")
  {
    SetupPrefixed();
    SetupOldName();
    SetupNewName();
    NewPathSubdirectoryExamples();
  }

  lemma SetupPrefixed()
    ensures IsPrefixed("020--setup.md") && StripPrefix("020--setup.md") == "setup.md"
  {
    assert "020--setup.md" == "020--" + "setup.md";
    StripRemovesExactlyThePrefix("020--", "setup.md");
  }

  lemma GuidesClean()
    ensures IsCleanPath("guides")
  {
    SplitNoSlash("guides");
    assert Split("guides") == ["guides"];
  }

  lemma SetupOldName()
    ensures FileName("guides/020--setup.md") == "020--setup.md"
  {
    GuidesClean();
    assert "guides/020--setup.md" == "guides" + "/" + "020--setup.md";
    FileNameUnder("guides", "020--setup.md");
  }

  lemma SetupNewName()
    ensures FileName("guides/setup.md") == "setup.md"
  {
    GuidesClean();
    assert "guides/setup.md" == "guides" + "/" + "setup.md";
    FileNameUnder("guides", "setup.md");
  }

  lemma SetupStems()
    ensures Stem("020--setup.md") == "020--setup"
    ensures Stem("setup.md") == "setup"
  {
    assert "020--setup.md" == "020--setup" + ".md" + "";
    NoneStartsIn("020--setup", ".md", "");
    ReplaceLeftmost("020--setup", ".md", "", "");
    assert "setup.md" == "setup" + ".md" + "";
    NoneStartsIn("setup", ".md", "");
    ReplaceLeftmost("setup", ".md", "", "");
  }

  lemma SetupDestKept()
    ensures Replace("guides/020--setup/index.html", "020--setup.md", "setup.md") == "guides/020--setup/index.html"
  {
    var pat := "020--setup.md";
    ShortHasNone("guides", pat);
    NoOccurrenceAcross("guides", '/', "020--setup", pat);
    assert "guides" + ['/'] + "020--setup" == "guides/020--setup";
    NoOccurrenceAcross("guides/020--setup", '/', "index.html", pat);
    assert "guides/020--setup" + ['/'] + "index.html" == "guides/020--setup/index.html";
    ReplaceAbsent("guides/020--setup/index.html", pat, "setup.md");
  }

  lemma SetupUrl()
    ensures Replace("guides/020--setup/", "020--setup", "setup") == "guides/setup/"
  {
    assert "guides/020--setup/" == "guides/" + "020--setup" + "/";
    NoneStartsIn("guides/", "020--setup", "/");
    ReplaceLeftmost("guides/", "020--setup", "/", "setup");
    ShortHasNone("/", "020--setup");
    ReplaceAbsent("/", "020--setup", "setup");
    assert "guides/" + "setup" + "/" == "guides/setup/";
  }

  /**
   * The single page under a directory: the directory is kept, `src_path`
   * becomes "guides/setup.md" and `url` "guides/setup/", and `dest_path`
   * stays "guides/020--setup/index.html".
   */
  lemma SubdirectoryPageOutcome(strict: bool, collisions: map<string, seq<string>>, processed: map<string, string>)
    ensures OnFilesSpec(true, strict, collisions, processed,
                        [FileRec("guides/020--setup.md", "guides/020--setup/index.html", "guides/020--setup/", true)]) ==
      Outcome(None, [FileRec("guides/setup.md", "guides/020--setup/index.html", "guides/setup/", true)],
              collisions, processed["guides/020--setup.md" := "guides/setup.md"])
  {
    var f := FileRec("guides/020--setup.md", "guides/020--setup/index.html", "guides/020--setup/", true);
    SetupName();
    SingleSelectedFile(strict, collisions, processed, f);
    SetupStems();
    SetupDestKept();
    SetupUrl();
  }

  lemma SecondIntro()
    ensures FileName("020--intro.md") == "020--intro.md"
    ensures NewPath("020--intro.md") == "intro.md"
    ensures IsPrefixed("020--intro.md")
  {
    SecondIntroName();
    SecondIntroNewPath();
    SecondIntroPrefixed();
  }

  lemma SecondIntroName()
    ensures FileName("020--intro.md") == "020--intro.md"
  {
    NewPathTopLevel("020--intro.md");
  }

  lemma SecondIntroNewPath()
    ensures NewPath("020--intro.md") == "intro.md"
  {
    assert IsOrderingPrefix("020--");
    assert "020--intro.md" == "020--" + "intro.md";
    NewPathTopLevelExample("020--", "intro.md");
  }

  lemma SecondIntroPrefixed()
    ensures IsPrefixed("020--intro.md")
  {
    assert "020--intro.md" == "020--" + "intro.md";
    StripRemovesExactlyThePrefix("020--", "intro.md");
  }

  /**
   * "010--intro.md" and "020--intro.md" both become "intro.md": strict mode
   * raises "Multiple files would map to 'intro.md'" with both sources;
   * non-strict mode raises nothing and neither page changes.
   */
  lemma IntroPagesCollide(strict: bool, collisions: map<string, seq<string>>, processed: map<string, string>,
                          dest1: string, url1: string, dest2: string, url2: string)
    ensures var f1 := FileRec("010--intro.md", dest1, url1, true);
      var f2 := FileRec("020--intro.md", dest2, url2, true);
      var out := OnFilesSpec(true, strict, collisions, processed, [f1, f2]);
      && out.err == (if strict then Some(CollisionError("intro.md", ["010--intro.md", "020--intro.md"])) else None)
      && out.files == [f1, f2]
      && out.collisions == collisions["intro.md" := ["010--intro.md", "020--intro.md"]]
      && (strict ==> Contains(Message(out.err.value), "Multiple files would map to 'intro.md'"))
  {
    IntroName();
    SecondIntro();
    var f1 := FileRec("010--intro.md", dest1, url1, true);
    var f2 := FileRec("020--intro.md", dest2, url2, true);
    TwoSelectedCollide(strict, collisions, processed, f1, f2);
    IntroMessage();
  }

  lemma IntroMessage()
    ensures Contains(Message(CollisionError("intro.md", ["010--intro.md", "020--intro.md"])),
                     "Multiple files would map to 'intro.md'")
  {
    var e := CollisionError("intro.md", ["010--intro.md", "020--intro.md"]);
    MessageNamesPath(e);
    assert "Multiple files would map to '" + e.dest + "'" == "Multiple files would map to 'intro.md'";
  }

  /** A non-documentation file keeps its fields even when its name carries a prefix. */
  lemma NonPageIgnored(strict: bool, collisions: map<string, seq<string>>, processed: map<string, string>,
                       dest: string, url: string)
    ensures var f := FileRec("010--image.png", dest, url, false);
      OnFilesSpec(true, strict, collisions, processed, [f]).files == [f]
  {
    var f := FileRec("010--image.png", dest, url, false);
    UnselectedUntouched(true, strict, collisions, processed, [f], 0);
  }
}
