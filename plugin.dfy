/**
 * The plugin object of plugin.py, `StripNumberPrefixPlugin`, with its two
 * hooks. `on_files` is a two-phase pass over the site's files: it first plans
 * a rename for every documentation page whose name carries an ordering
 * prefix, groups the planned new paths, reports the paths that several pages
 * would share, and then rewrites the fields of the pages in place.
 * `on_page_markdown` hands the body of a page to the link rewriter.
 *
 * Each phase is specified by a function on values (`Collect`, `Group`,
 * `ReportLoop`, `Applied`, `ApplyAll`, `Processed`, together `OnFilesSpec`);
 * the class methods are proved to compute them, and the lemmas state what
 * the pass guarantees.
 */
module Plugin {
  import opened Optional
  import opened Prefix
  import opened PurePaths
  import opened PathRewrite
  import opened PyText
  import opened Links

  /** The fields of a file that the pass reads and writes. */
  datatype FileRec = FileRec(srcPath: string, destPath: string, url: string, isDoc: bool)

  /** A file of the site: its paths and URL are updated in place by the pass. */
  class File {
    var srcPath: string
    var destPath: string
    var url: string
    /** `is_documentation_page()`: the file is a markdown page. */
    const isDoc: bool

    constructor (srcPath: string, destPath: string, url: string, isDoc: bool)
      ensures State() == FileRec(srcPath, destPath, url, isDoc)
    {
      this.srcPath := srcPath;
      this.destPath := destPath;
      this.url := url;
      this.isDoc := isDoc;
    }

    function State(): FileRec
      reads this
    {
      FileRec(srcPath, destPath, url, isDoc)
    }
  }

  /** The current fields of every file in the list. */
  function Snapshot(files: seq<File>): (r: seq<FileRec>)
    reads files
    ensures |r| == |files|
    ensures forall i :: 0 <= i < |files| ==> r[i] == files[i].State()
  {
    seq(|files|, i reads files requires 0 <= i < |files| => files[i].State())
  }

  /** No file object occurs twice in the list. */
  predicate Distinct(files: seq<File>) {
    forall i, j :: 0 <= i < j < |files| ==> files[i] != files[j]
  }

  /** A planned rename: the file's position in the list, its old and its new source path. */
  datatype Transformation = Transformation(index: nat, oldPath: string, newPath: string)

  /** The first pass picks a file when it is a documentation page whose name matches the pattern. */
  predicate Selected(f: FileRec) {
    f.isDoc && IsPrefixed(FileName(f.srcPath))
  }

  /**
   * The first pass: one transformation per selected file, in file order,
   * each planned from the file's own source path; every selected file gets
   * exactly one.
   */
  function Collect(recs: seq<FileRec>): (ts: seq<Transformation>)
    ensures forall k :: 0 <= k < |ts| ==> IsCollected(recs, ts[k])
    ensures forall k1, k2 :: 0 <= k1 < k2 < |ts| ==> ts[k1].index < ts[k2].index
  {
    if recs == [] then []
    else
      var n := |recs| - 1;
      var ts := Collect(recs[..n]);
      var f := recs[n];
      CollectedGrowsAll(recs, ts);
      if Selected(f) then ts + [Transformation(n, f.srcPath, NewPath(f.srcPath))] else ts
  }

  /** `t` is the transformation planned for the selected file at its index. */
  predicate IsCollected(recs: seq<FileRec>, t: Transformation) {
    t.index < |recs| && Selected(recs[t.index]) && t.oldPath == recs[t.index].srcPath && t.newPath == NewPath(t.oldPath)
  }

  lemma CollectedGrowsAll(recs: seq<FileRec>, ts: seq<Transformation>)
    requires recs != [] && forall k :: 0 <= k < |ts| ==> IsCollected(recs[..|recs| - 1], ts[k])
    ensures forall k :: 0 <= k < |ts| ==> IsCollected(recs, ts[k])
  {
    forall k | 0 <= k < |ts| ensures IsCollected(recs, ts[k]) {
      CollectedGrows(recs, ts[k]);
    }
  }

  lemma CollectedGrows(recs: seq<FileRec>, t: Transformation)
    requires recs != [] && IsCollected(recs[..|recs| - 1], t)
    ensures IsCollected(recs, t)
  {
    assert recs[..|recs| - 1][t.index] == recs[t.index];
  }

  /** Some transformation is planned for the file at position `i`. */
  predicate HasTransformationFor(ts: seq<Transformation>, i: nat) {
    exists k :: 0 <= k < |ts| && ts[k].index == i
  }

  /** Every selected file, and no other, has a transformation. */
  lemma {:induction false} CollectSelects(recs: seq<FileRec>, i: nat)
    requires i < |recs|
    ensures Selected(recs[i]) <==> HasTransformationFor(Collect(recs), i)
  {
    var n := |recs| - 1;
    if i < n {
      CollectSelects(recs[..n], i);
      CollectSelectsStep(recs, i);
    } else {
      CollectSelectsLast(recs);
    }
  }

  lemma CollectSelectsStep(recs: seq<FileRec>, i: nat)
    requires i < |recs| - 1
    requires Selected(recs[i]) <==> HasTransformationFor(Collect(recs[..|recs| - 1]), i)
    ensures Selected(recs[i]) <==> HasTransformationFor(Collect(recs), i)
  {
    var n := |recs| - 1;
    var ts := Collect(recs[..n]);
    assert recs[..n][i] == recs[i];
    CollectExtends(recs);
  }

  lemma CollectSelectsLast(recs: seq<FileRec>)
    requires recs != []
    ensures Selected(recs[|recs| - 1]) <==> HasTransformationFor(Collect(recs), |recs| - 1)
  {
    var n := |recs| - 1;
    var ts := Collect(recs[..n]);
    assert forall k :: 0 <= k < |ts| ==> ts[k].index < n;
    CollectExtends(recs);
    if Selected(recs[n]) {
      assert Collect(recs)[|ts|].index == n;
    }
  }

  /** The transformations of a longer list extend those of its prefix, by at most the last file's. */
  lemma CollectExtends(recs: seq<FileRec>)
    requires recs != []
    ensures var ts := Collect(recs[..|recs| - 1]);
      && |ts| <= |Collect(recs)| <= |ts| + 1
      && Collect(recs)[..|ts|] == ts
      && (|Collect(recs)| == |ts| + 1 <==> Selected(recs[|recs| - 1]))
      && (|Collect(recs)| == |ts| + 1 ==> Collect(recs)[|ts|].index == |recs| - 1)
  {
  }

  /** The sources planned to become `dest`, in file order. */
  function SourcesTo(ts: seq<Transformation>, dest: string): seq<string> {
    if ts == [] then []
    else
      var rest := SourcesTo(ts[..|ts| - 1], dest);
      var t := ts[|ts| - 1];
      if t.newPath == dest then rest + [t.oldPath] else rest
  }

  /** The position of the first transformation planned to `dest`, or `|ts|` when there is none. */
  function FirstTo(ts: seq<Transformation>, dest: string): (k: nat)
    ensures k <= |ts|
    ensures k < |ts| ==> ts[k].newPath == dest
    ensures forall i :: 0 <= i < k ==> ts[i].newPath != dest
  {
    if ts == [] then 0
    else if ts[0].newPath == dest then 0
    else 1 + FirstTo(ts[1..], dest)
  }

  /** The first transformation to `dest` in a longer plan: the one in its prefix, else the last one. */
  lemma FirstToSnoc(ts: seq<Transformation>, dest: string)
    requires ts != []
    ensures var n := |ts| - 1;
      FirstTo(ts, dest) ==
        if FirstTo(ts[..n], dest) < n then FirstTo(ts[..n], dest)
        else if ts[n].newPath == dest then n
        else |ts|
  {
    var n := |ts| - 1;
    var k, m := FirstTo(ts[..n], dest), FirstTo(ts, dest);
    if k < n {
      assert ts[..n][k] == ts[k];
    }
    if m < n {
      assert ts[..n][m] == ts[m];
      assert forall i :: 0 <= i < m ==> ts[..n][i] == ts[i];
    } else {
      assert forall i :: 0 <= i < n ==> ts[..n][i] == ts[i];
    }
  }

  /** `dest_counts`: its keys in insertion order, and the sources of each key. */
  datatype Table = Table(keys: seq<string>, sources: map<string, seq<string>>)

  /** Appending each transformation's old path under its new path. */
  function Group(ts: seq<Transformation>): (tab: Table)
    ensures forall d :: d in tab.sources <==> d in tab.keys
    ensures forall j :: 0 <= j < |tab.keys| ==> tab.keys[j] in tab.sources
    ensures forall j1, j2 :: 0 <= j1 < j2 < |tab.keys| ==> tab.keys[j1] != tab.keys[j2]
  {
    if ts == [] then Table([], map[])
    else
      var tab := Group(ts[..|ts| - 1]);
      var t := ts[|ts| - 1];
      if t.newPath in tab.sources then Table(tab.keys, tab.sources[t.newPath := tab.sources[t.newPath] + [t.oldPath]])
      else Table(tab.keys + [t.newPath], tab.sources[t.newPath := [t.oldPath]])
  }

  /** The error strict mode raises: the shared path and every source that maps to it. */
  datatype CollisionError = CollisionError(dest: string, sources: seq<string>)

  /** `", ".join(sources)`. */
  function CommaJoin(xs: seq<string>): string {
    if xs == [] then ""
    else if |xs| == 1 then xs[0]
    else xs[0] + ", " + CommaJoin(xs[1..])
  }

  /** The text of the raised `PluginError`. */
  function Message(e: CollisionError): string {
    "StripNumberPrefix: " + ("Multiple files would map to '" + e.dest + "'" + ": " + CommaJoin(e.sources))
  }

  /** What the report loop leaves behind: the error raised, if any, `has_collision`, and `self.collisions`. */
  datatype Report = Report(err: Option<CollisionError>, hasCollision: bool, collisions: map<string, seq<string>>)

  /**
   * The report loop over the keys of `dest_counts`: every key with two or
   * more sources sets `has_collision` and is written into the collision
   * table; in strict mode the first such key raises and ends the loop.
   */
  function ReportLoop(keys: seq<string>, counts: map<string, seq<string>>, strict: bool,
                      collisions: map<string, seq<string>>): Report
    requires forall j :: 0 <= j < |keys| ==> keys[j] in counts
  {
    if keys == [] then Report(None, false, collisions)
    else
      var r := ReportLoop(keys[..|keys| - 1], counts, strict, collisions);
      var d := keys[|keys| - 1];
      if r.err.Some? || |counts[d]| <= 1 then r
      else Report(if strict then Some(CollisionError(d, counts[d])) else None, true, r.collisions[d := counts[d]])
  }

  /** A transformation the apply loop leaves out: there was a collision and its new path is in the table. */
  predicate Skipped(t: Transformation, hasCollision: bool, collisions: map<string, seq<string>>) {
    hasCollision && t.newPath in collisions
  }

  /** The transformations the apply loop carries out, in order. */
  function Applied(ts: seq<Transformation>, hasCollision: bool, collisions: map<string, seq<string>>)
    : seq<Transformation>
  {
    if ts == [] then []
    else
      var ap := Applied(ts[..|ts| - 1], hasCollision, collisions);
      var t := ts[|ts| - 1];
      if Skipped(t, hasCollision, collisions) then ap else ap + [t]
  }

  /** The apply loop carries out exactly the transformations that are not skipped. */
  lemma {:induction false} AppliedMembers(ts: seq<Transformation>, hasCollision: bool, collisions: map<string, seq<string>>)
    ensures forall t :: t in Applied(ts, hasCollision, collisions) <==> t in ts && !Skipped(t, hasCollision, collisions)
  {
    if ts != [] {
      var n := |ts| - 1;
      AppliedMembers(ts[..n], hasCollision, collisions);
      assert ts == ts[..n] + [ts[n]];
    }
  }

  /**
   * One applied rewrite: the source path becomes the new path, and every
   * occurrence of the old basename in `dest_path`, and of the old stem in
   * `url`, is replaced by the new one.
   */
  function Rewrite(f: FileRec, t: Transformation): FileRec {
    var oldBase := FileName(t.oldPath);
    var newBase := FileName(t.newPath);
    FileRec(t.newPath, Replace(f.destPath, oldBase, newBase), Replace(f.url, Stem(oldBase), Stem(newBase)), f.isDoc)
  }

  /** Transformations that refer to positions in a list of `n` files. */
  predicate Applicable(ts: seq<Transformation>, n: nat) {
    forall k :: 0 <= k < |ts| ==> ts[k].index < n
  }

  /**
   * The files after the apply loop has carried out `ap`, one after the other.
   * (A transformation off the end of the list, which the first pass never
   * plans, changes nothing.)
   */
  function ApplyAll(recs: seq<FileRec>, ap: seq<Transformation>): (r: seq<FileRec>)
    ensures |r| == |recs|
  {
    if ap == [] then recs
    else
      var t := ap[|ap| - 1];
      var r := ApplyAll(recs, ap[..|ap| - 1]);
      if t.index < |r| then r[t.index := Rewrite(r[t.index], t)] else r
  }

  /** `self.processed_files` after the apply loop has carried out `ap`. */
  function Processed(processed: map<string, string>, ap: seq<Transformation>): map<string, string> {
    if ap == [] then processed
    else
      var t := ap[|ap| - 1];
      Processed(processed, ap[..|ap| - 1])[t.oldPath := t.newPath]
  }

  /**
   * The body of the apply loop for one file: the new source path, then the
   * basename replaced in `dest_path` and the stem replaced in `url`.
   */
  method RewriteFile(file: File, t: Transformation)
    modifies file
    ensures file.State() == Rewrite(old(file.State()), t)
  {
    file.srcPath := t.newPath;
    var oldBasename := FileName(t.oldPath);
    var newBasename := FileName(t.newPath);
    file.destPath := Replace(file.destPath, oldBasename, newBasename);
    file.url := Replace(file.url, Stem(oldBasename), Stem(newBasename));
  }

  /** One more step of the apply loop's filter. */
  lemma AppliedSnoc(ts: seq<Transformation>, n: nat, hasCollision: bool, collisions: map<string, seq<string>>)
    requires n < |ts|
    ensures Applied(ts[..n + 1], hasCollision, collisions) ==
      if Skipped(ts[n], hasCollision, collisions) then Applied(ts[..n], hasCollision, collisions)
      else Applied(ts[..n], hasCollision, collisions) + [ts[n]]
  {
    assert ts[..n + 1][..n] == ts[..n];
  }

  /** One more step of the apply loop on the files. */
  lemma ApplyAllSnoc(recs: seq<FileRec>, ap: seq<Transformation>, t: Transformation)
    requires t.index < |recs|
    ensures ApplyAll(recs, ap + [t]) == ApplyAll(recs, ap)[t.index := Rewrite(ApplyAll(recs, ap)[t.index], t)]
  {
    assert (ap + [t])[..|ap|] == ap;
  }

  lemma ProcessedSnoc(processed: map<string, string>, ap: seq<Transformation>, t: Transformation)
    ensures Processed(processed, ap + [t]) == Processed(processed, ap)[t.oldPath := t.newPath]
  {
    assert (ap + [t])[..|ap|] == ap;
  }

  /** The result of one `on_files` call: the error raised, the files, and the two tables. */
  datatype Outcome = Outcome(err: Option<CollisionError>, files: seq<FileRec>,
                             collisions: map<string, seq<string>>, processed: map<string, string>)

  /** The whole of `on_files`, as a function of the plugin's state and the files' fields. */
  function OnFilesSpec(configured: bool, strict: bool, collisions: map<string, seq<string>>,
                       processed: map<string, string>, recs: seq<FileRec>): Outcome
  {
    if !configured then Outcome(None, recs, collisions, processed)
    else
      var ts := Collect(recs);
      var tab := Group(ts);
      var rep := ReportLoop(tab.keys, tab.sources, strict, collisions);
      if rep.err.Some? then Outcome(rep.err, recs, rep.collisions, processed)
      else
        var ap := Applied(ts, rep.hasCollision, rep.collisions);
        Outcome(None, ApplyAll(recs, ap), rep.collisions, Processed(processed, ap))
  }

  /** The planned transformations refer to positions in the list. */
  lemma CollectApplicable(recs: seq<FileRec>)
    ensures Applicable(Collect(recs), |recs|)
  {
  }

  /** `OnFilesSpec` for a configured plugin, phase by phase. */
  lemma OnFilesSpecSteps(strict: bool, collisions: map<string, seq<string>>,
                         processed: map<string, string>, recs: seq<FileRec>)
    ensures var ts := Collect(recs);
      var tab := Group(ts);
      var rep := ReportLoop(tab.keys, tab.sources, strict, collisions);
      var out := OnFilesSpec(true, strict, collisions, processed, recs);
      var ap := Applied(ts, rep.hasCollision, rep.collisions);
      && out.err == rep.err
      && out.collisions == rep.collisions
      && out.files == (if rep.err.Some? then recs else ApplyAll(recs, ap))
      && out.processed == (if rep.err.Some? then processed else Processed(processed, ap))
  {
    var ts := Collect(recs);
    var tab := Group(ts);
    var rep := ReportLoop(tab.keys, tab.sources, strict, collisions);
    var ap := Applied(ts, rep.hasCollision, rep.collisions);
    assert OnFilesSpec(true, strict, collisions, processed, recs) ==
      if rep.err.Some? then Outcome(rep.err, recs, rep.collisions, processed)
      else Outcome(None, ApplyAll(recs, ap), rep.collisions, Processed(processed, ap));
  }

  /** The plugin object and the state it keeps from one hook call to the next. */
  class StripNumberPrefixPlugin {
    /** `prefix_pattern` has been compiled (`on_config` has run). */
    var configured: bool
    /** The `strict` option. */
    const strict: bool
    /** The `strip_links` option. */
    const stripLinks: bool
    /** `self.collisions`: never cleared, so it keeps the entries of earlier calls. */
    var collisions: map<string, seq<string>>
    /** `self.processed_files`: old source path to new source path. */
    var processedFiles: map<string, string>

    constructor (strict: bool, stripLinks: bool)
      ensures !configured && this.strict == strict && this.stripLinks == stripLinks
      ensures collisions == map[] && processedFiles == map[]
    {
      configured := false;
      this.strict := strict;
      this.stripLinks := stripLinks;
      collisions := map[];
      processedFiles := map[];
    }

    /** `on_config`: the default pattern always compiles. */
    method OnConfig()
      modifies this
      ensures configured
      ensures collisions == old(collisions) && processedFiles == old(processedFiles)
    {
      configured := true;
    }

    /** `on_files`. In strict mode a collision is returned as the error the hook raises. */
    method OnFiles(files: seq<File>) returns (err: Option<CollisionError>)
      requires Distinct(files)
      modifies this`collisions, this`processedFiles, files
      ensures var out := OnFilesSpec(old(configured), strict, old(collisions), old(processedFiles), old(Snapshot(files)));
        && err == out.err
        && Snapshot(files) == out.files
        && collisions == out.collisions
        && processedFiles == out.processed
    {
      if !configured {
        return None;
      }
      ghost var recs, collisions0, processed0 := Snapshot(files), collisions, processedFiles;
      var ts := CollectTransformations(files);
      var keys, counts := CountDestinations(ts);
      var hasCollision;
      err, hasCollision := ReportCollisions(keys, counts);
      assert Snapshot(files) == recs;
      OnFilesSpecSteps(strict, collisions0, processed0, recs);
      CollectApplicable(recs);
      ApplyUnlessRaised(files, ts, err, hasCollision);
    }

    /** The apply loop runs only when strict mode has not raised. */
    method ApplyUnlessRaised(files: seq<File>, ts: seq<Transformation>, err: Option<CollisionError>, hasCollision: bool)
      requires Distinct(files)
      requires Applicable(ts, |files|)
      modifies this`processedFiles, files
      ensures var ap := Applied(ts, hasCollision, collisions);
        && Snapshot(files) == (if err.Some? then old(Snapshot(files)) else ApplyAll(old(Snapshot(files)), ap))
        && processedFiles == (if err.Some? then old(processedFiles) else Processed(old(processedFiles), ap))
    {
      if err.None? {
        ApplyTransformations(files, ts, hasCollision);
      }
    }

    /**
     * The report loop: every new path with two or more sources is written
     * into `self.collisions`; strict mode stops at the first one.
     */
    method ReportCollisions(keys: seq<string>, counts: map<string, seq<string>>)
      returns (err: Option<CollisionError>, hasCollision: bool)
      requires forall j :: 0 <= j < |keys| ==> keys[j] in counts
      modifies this`collisions
      ensures ReportLoop(keys, counts, strict, old(collisions)) == Report(err, hasCollision, collisions)
    {
      hasCollision := false;
      var m := 0;
      while m < |keys|
        invariant 0 <= m <= |keys|
        invariant ReportLoop(keys[..m], counts, strict, old(collisions)) == Report(None, hasCollision, collisions)
      {
        var dest := keys[m];
        var sources := counts[dest];
        assert keys[..m + 1][..m] == keys[..m] && keys[..m + 1][m] == dest;
        if |sources| > 1 {
          hasCollision := true;
          collisions := collisions[dest := sources];
          if strict {
            ReportStops(keys, counts, strict, old(collisions), m + 1);
            return Some(CollisionError(dest, sources)), hasCollision;
          }
        }
        m := m + 1;
      }
      assert keys[..|keys|] == keys;
      return None, hasCollision;
    }

    /**
     * The apply loop: every transformation not skipped rewrites its file's
     * three fields and is recorded in `self.processed_files`.
     */
    method ApplyTransformations(files: seq<File>, ts: seq<Transformation>, hasCollision: bool)
      requires Distinct(files)
      requires Applicable(ts, |files|)
      modifies this`processedFiles, files
      ensures Snapshot(files) == ApplyAll(old(Snapshot(files)), Applied(ts, hasCollision, collisions))
      ensures processedFiles == Processed(old(processedFiles), Applied(ts, hasCollision, collisions))
    {
      ghost var recs, processed0 := Snapshot(files), processedFiles;
      ghost var ap: seq<Transformation> := [];
      var n := 0;
      while n < |ts|
        invariant 0 <= n <= |ts|
        invariant ap == Applied(ts[..n], hasCollision, collisions)
        invariant Snapshot(files) == ApplyAll(recs, ap)
        invariant processedFiles == Processed(processed0, ap)
      {
        ap := ApplyStep(files, ts, n, hasCollision, recs, processed0, ap);
        n := n + 1;
      }
      assert ts[..|ts|] == ts;
    }

    /** One pass of the apply loop: transformation `n` is carried out unless it is skipped. */
    method ApplyStep(files: seq<File>, ts: seq<Transformation>, n: nat, hasCollision: bool,
                     ghost recs: seq<FileRec>, ghost processed0: map<string, string>, ghost ap: seq<Transformation>)
      returns (ghost ap': seq<Transformation>)
      requires Distinct(files) && Applicable(ts, |files|) && n < |ts|
      requires ap == Applied(ts[..n], hasCollision, collisions)
      requires Snapshot(files) == ApplyAll(recs, ap)
      requires processedFiles == Processed(processed0, ap)
      modifies this`processedFiles, files
      ensures ap' == Applied(ts[..n + 1], hasCollision, collisions)
      ensures Snapshot(files) == ApplyAll(recs, ap')
      ensures processedFiles == Processed(processed0, ap')
    {
      var t := ts[n];
      AppliedSnoc(ts, n, hasCollision, collisions);
      ap' := ap;
      if !(hasCollision && t.newPath in collisions) {
        ApplyOne(files, t, recs, processed0, ap);
        ap' := ap + [t];
      }
    }

    /** The body of the apply loop for a transformation that is not skipped. */
    method ApplyOne(files: seq<File>, t: Transformation, ghost recs: seq<FileRec>,
                    ghost processed0: map<string, string>, ghost ap: seq<Transformation>)
      requires Distinct(files) && t.index < |files|
      requires Snapshot(files) == ApplyAll(recs, ap)
      requires processedFiles == Processed(processed0, ap)
      modifies this`processedFiles, files[t.index]
      ensures Snapshot(files) == ApplyAll(recs, ap + [t])
      ensures processedFiles == Processed(processed0, ap + [t])
    {
      ApplyAllSnoc(recs, ap, t);
      ProcessedSnoc(processed0, ap, t);
      RewriteFile(files[t.index], t);
      processedFiles := processedFiles[t.oldPath := t.newPath];
    }

    /** `on_page_markdown`: links are rewritten only with `strip_links` on and the pattern compiled. */
    function OnPageMarkdown(markdown: string): (r: string)
      reads this
      ensures !(stripLinks && configured) ==> r == markdown
      ensures stripLinks && configured ==> r == Render(Tokenize(markdown))
    {
      if !stripLinks || !configured then markdown
      else
        RewriteIsRender(markdown);
        RewriteLinks(markdown)
    }
  }

  /** The first pass of `on_files`: plan a rename for every selected file, in order. */
  method CollectTransformations(files: seq<File>) returns (ts: seq<Transformation>)
    ensures ts == Collect(Snapshot(files))
  {
    ghost var recs := Snapshot(files);
    ts := [];
    var i := 0;
    while i < |files|
      invariant 0 <= i <= |files|
      invariant ts == Collect(recs[..i])
    {
      var file := files[i];
      CollectStep(recs, i);
      if file.isDoc && IsPrefixed(FileName(file.srcPath)) {
        ts := ts + [Transformation(i, file.srcPath, NewPath(file.srcPath))];
      }
      i := i + 1;
    }
    assert recs[..|files|] == recs;
  }

  /** One more file in the first pass: its transformation is appended when it is selected. */
  lemma CollectStep(recs: seq<FileRec>, i: nat)
    requires i < |recs|
    ensures Collect(recs[..i + 1]) ==
      if Selected(recs[i]) then Collect(recs[..i]) + [Transformation(i, recs[i].srcPath, NewPath(recs[i].srcPath))]
      else Collect(recs[..i])
  {
    assert recs[..i + 1][..i] == recs[..i];
  }

  /** `dest_counts`: the old paths appended under their new path, keys in insertion order. */
  method CountDestinations(ts: seq<Transformation>) returns (keys: seq<string>, counts: map<string, seq<string>>)
    ensures Table(keys, counts) == Group(ts)
  {
    keys, counts := [], map[];
    var k := 0;
    while k < |ts|
      invariant 0 <= k <= |ts|
      invariant Table(keys, counts) == Group(ts[..k])
    {
      var t := ts[k];
      assert ts[..k + 1][..k] == ts[..k] && ts[..k + 1][k] == t;
      if t.newPath in counts {
        counts := counts[t.newPath := counts[t.newPath] + [t.oldPath]];
      } else {
        keys := keys + [t.newPath];
        counts := counts[t.newPath := [t.oldPath]];
      }
      k := k + 1;
    }
    assert ts[..|ts|] == ts;
  }

  /** Once strict mode has raised, the rest of the keys change nothing. */
  lemma {:induction false} ReportStops(keys: seq<string>, counts: map<string, seq<string>>, strict: bool,
                                       collisions: map<string, seq<string>>, j: nat)
    requires forall i :: 0 <= i < |keys| ==> keys[i] in counts
    requires j <= |keys| && ReportLoop(keys[..j], counts, strict, collisions).err.Some?
    ensures ReportLoop(keys, counts, strict, collisions) == ReportLoop(keys[..j], counts, strict, collisions)
    decreases |keys|
  {
    if j < |keys| {
      assert keys[..|keys| - 1][..j] == keys[..j];
      ReportStops(keys[..|keys| - 1], counts, strict, collisions, j);
    } else {
      assert keys[..j] == keys;
    }
  }
}
