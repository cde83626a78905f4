/**
 * What one `on_files` call guarantees, stated on `OnFilesSpec` (which the
 * plugin's `OnFiles` method is proved to compute): which new paths count
 * as collisions, what strict and non-strict mode leave behind, what
 * happens to each file and to `processed_files`.
 */
module OnFilesProperties {
  import opened Optional
  import opened PathRewrite
  import opened PyText
  import opened Plugin

  /** Some planned transformation has the new path `d`. */
  predicate Targets(ts: seq<Transformation>, d: string) {
    exists k :: 0 <= k < |ts| && ts[k].newPath == d
  }

  /** Two planned transformations share the new path `d`: a collision. */
  predicate Collides(ts: seq<Transformation>, d: string) {
    exists k1, k2 :: 0 <= k1 < k2 < |ts| && ts[k1].newPath == d && ts[k2].newPath == d
  }

  lemma TargetsSnoc(ts: seq<Transformation>)
    requires ts != []
    ensures forall d :: Targets(ts, d) <==> Targets(ts[..|ts| - 1], d) || ts[|ts| - 1].newPath == d
  {
    var n := |ts| - 1;
    forall d | Targets(ts, d) && ts[n].newPath != d ensures Targets(ts[..n], d) {
      var k :| 0 <= k < |ts| && ts[k].newPath == d;
      assert ts[..n][k] == ts[k];
    }
    forall d | Targets(ts[..n], d) ensures Targets(ts, d) {
      var k :| 0 <= k < n && ts[..n][k].newPath == d;
      assert ts[k] == ts[..n][k];
    }
  }

  lemma CollidesSnoc(ts: seq<Transformation>)
    requires ts != []
    ensures forall d :: Collides(ts, d) <==>
      Collides(ts[..|ts| - 1], d) || (Targets(ts[..|ts| - 1], d) && ts[|ts| - 1].newPath == d)
  {
    var n := |ts| - 1;
    forall d | Collides(ts, d) && !Collides(ts[..n], d)
      ensures Targets(ts[..n], d) && ts[n].newPath == d
    {
      var k1, k2 :| 0 <= k1 < k2 < |ts| && ts[k1].newPath == d && ts[k2].newPath == d;
      assert ts[..n][k1] == ts[k1];
    }
    forall d | Collides(ts[..n], d) ensures Collides(ts, d) {
      var k1, k2 :| 0 <= k1 < k2 < n && ts[..n][k1].newPath == d && ts[..n][k2].newPath == d;
      assert ts[k1] == ts[..n][k1] && ts[k2] == ts[..n][k2];
    }
    forall d | Targets(ts[..n], d) && ts[n].newPath == d ensures Collides(ts, d) {
      var k :| 0 <= k < n && ts[..n][k].newPath == d;
      assert ts[k] == ts[..n][k];
    }
  }

  /**
   * The sources listed for a new path come from the transformations that
   * produce it: there is one at least when some transformation does, and
   * two or more exactly when the path is a collision.
   */
  lemma {:induction false} SourcesToCount(ts: seq<Transformation>, d: string)
    ensures SourcesTo(ts, d) != [] <==> Targets(ts, d)
    ensures |SourcesTo(ts, d)| >= 2 <==> Collides(ts, d)
  {
    if ts != [] {
      SourcesToCount(ts[..|ts| - 1], d);
      TargetsSnoc(ts);
      CollidesSnoc(ts);
    }
  }

  /** `dest_counts` maps each new path to its sources in file order, and has no other keys. */
  lemma {:induction false} GroupSources(ts: seq<Transformation>, d: string)
    ensures d in Group(ts).sources ==> Group(ts).sources[d] == SourcesTo(ts, d)
    ensures d !in Group(ts).sources ==> SourcesTo(ts, d) == []
  {
    if ts != [] {
      GroupSources(ts[..|ts| - 1], d);
    }
  }

  /** A new path is a key of `dest_counts` exactly when some transformation is planned to it. */
  lemma {:induction false} GroupDomain(ts: seq<Transformation>, d: string)
    ensures d in Group(ts).sources <==> FirstTo(ts, d) < |ts|
  {
    if ts != [] {
      GroupDomain(ts[..|ts| - 1], d);
      FirstToSnoc(ts, d);
    }
  }

  /**
   * The keys of `dest_counts` come in insertion order: a key listed earlier
   * was first planned by an earlier file.
   */
  lemma {:induction false} GroupKeyOrder(ts: seq<Transformation>, j1: nat, j2: nat)
    requires j1 < j2 < |Group(ts).keys|
    ensures FirstTo(ts, Group(ts).keys[j1]) < FirstTo(ts, Group(ts).keys[j2])
  {
    var n := |ts| - 1;
    var prev := Group(ts[..n]);
    var keys := Group(ts).keys;
    var k1, k2 := keys[j1], keys[j2];
    assert k1 == prev.keys[j1];
    GroupDomain(ts[..n], k1);
    FirstToSnoc(ts, k1);
    FirstToSnoc(ts, k2);
    if j2 < |prev.keys| {
      assert k2 == prev.keys[j2];
      GroupKeyOrder(ts[..n], j1, j2);
      GroupDomain(ts[..n], k2);
    } else {
      assert k2 == ts[n].newPath && k2 !in prev.sources;
      GroupDomain(ts[..n], k2);
    }
  }

  /** A key of `dest_counts` with two or more sources. */
  predicate SharedKey(keys: seq<string>, counts: map<string, seq<string>>, d: string) {
    d in keys && d in counts && |counts[d]| > 1
  }

  /** The keys of `Group(ts)` with two or more sources are exactly the collisions. */
  lemma SharedKeyIsCollision(ts: seq<Transformation>, d: string)
    ensures SharedKey(Group(ts).keys, Group(ts).sources, d) <==> Collides(ts, d)
  {
    GroupSources(ts, d);
    SourcesToCount(ts, d);
  }

  /**
   * The report loop sets `has_collision` exactly when some key has two or
   * more sources; without one it leaves the table alone; strict mode
   * raises exactly when there is a collision, non-strict mode never.
   */
  lemma {:induction false} ReportFlags(keys: seq<string>, counts: map<string, seq<string>>, strict: bool,
                                       collisions: map<string, seq<string>>)
    requires forall j :: 0 <= j < |keys| ==> keys[j] in counts
    ensures var r := ReportLoop(keys, counts, strict, collisions);
      && (r.hasCollision <==> exists j :: 0 <= j < |keys| && |counts[keys[j]]| > 1)
      && (!r.hasCollision ==> r.collisions == collisions)
      && (r.err.Some? <==> strict && r.hasCollision)
  {
    if keys != [] {
      var n := |keys| - 1;
      ReportFlags(keys[..n], counts, strict, collisions);
      forall j | 0 <= j < n ensures keys[..n][j] == keys[j] {}
    }
  }

  /**
   * Strict mode raises on the FIRST key of `dest_counts` that has two or
   * more sources; the error carries all of them, and that one key is the
   * only entry added to the collision table.
   */
  lemma {:induction false} ReportStrictError(keys: seq<string>, counts: map<string, seq<string>>,
                                             collisions: map<string, seq<string>>)
    requires forall j :: 0 <= j < |keys| ==> keys[j] in counts
    ensures var r := ReportLoop(keys, counts, true, collisions);
      r.err.Some? ==>
        && r.err.value.dest in counts && r.err.value.sources == counts[r.err.value.dest]
        && r.collisions == collisions[r.err.value.dest := r.err.value.sources]
        && exists j :: 0 <= j < |keys| && keys[j] == r.err.value.dest && |counts[keys[j]]| > 1
             && forall i :: 0 <= i < j ==> |counts[keys[i]]| <= 1
  {
    if keys != [] {
      var n := |keys| - 1;
      var prev := ReportLoop(keys[..n], counts, true, collisions);
      ReportStrictError(keys[..n], counts, collisions);
      ReportFlags(keys[..n], counts, true, collisions);
      if prev.err.Some? {
        var j :| 0 <= j < n && keys[..n][j] == prev.err.value.dest && |counts[keys[..n][j]]| > 1
             && forall i :: 0 <= i < j ==> |counts[keys[..n][i]]| <= 1;
        assert keys[j] == keys[..n][j];
        forall i | 0 <= i < j ensures |counts[keys[i]]| <= 1 {
          assert keys[i] == keys[..n][i];
        }
      } else if |counts[keys[n]]| > 1 {
        forall i | 0 <= i < n ensures |counts[keys[i]]| <= 1 {
          assert keys[i] == keys[..n][i];
        }
      }
    }
  }

  /**
   * Non-strict mode raises nothing and writes every key with two or more
   * sources into the collision table, with those sources; the entries of
   * earlier calls stay unless a key overwrites them.
   */
  lemma {:induction false} ReportNonStrict(keys: seq<string>, counts: map<string, seq<string>>,
                                           collisions: map<string, seq<string>>)
    requires forall j :: 0 <= j < |keys| ==> keys[j] in counts
    ensures var r := ReportLoop(keys, counts, false, collisions);
      && r.err.None?
      && (forall d :: d in r.collisions <==> d in collisions || SharedKey(keys, counts, d))
      && (forall d :: SharedKey(keys, counts, d) ==> r.collisions[d] == counts[d])
      && (forall d :: d in collisions && !SharedKey(keys, counts, d) ==> r.collisions[d] == collisions[d])
  {
    if keys != [] {
      var n := |keys| - 1;
      ReportNonStrict(keys[..n], counts, collisions);
      ReportFlags(keys[..n], counts, false, collisions);
      assert keys == keys[..n] + [keys[n]];
      assert forall d :: d in keys <==> d in keys[..n] || d == keys[n];
    }
  }

  /** The transformation the first pass plans for the file at position `i`. */
  function PlannedFor(recs: seq<FileRec>, i: nat): Transformation
    requires i < |recs|
  {
    Transformation(i, recs[i].srcPath, NewPath(recs[i].srcPath))
  }

  /**
   * The file at position `i` is rewritten by the apply loop: it is selected
   * and its planned transformation is not skipped.
   */
  predicate RewrittenAt(recs: seq<FileRec>, i: nat, hasCollision: bool, collisions: map<string, seq<string>>)
    requires i < |recs|
  {
    Selected(recs[i]) && !Skipped(PlannedFor(recs, i), hasCollision, collisions)
  }

  /**
   * The apply loop carries out exactly the planned transformations of the
   * files it rewrites, and nothing else.
   */
  lemma AppliedAre(recs: seq<FileRec>, hasCollision: bool, collisions: map<string, seq<string>>, t: Transformation)
    ensures t in Applied(Collect(recs), hasCollision, collisions) <==>
      t.index < |recs| && t == PlannedFor(recs, t.index) && RewrittenAt(recs, t.index, hasCollision, collisions)
  {
    var ts := Collect(recs);
    AppliedMembers(ts, hasCollision, collisions);
    if t.index < |recs| && t == PlannedFor(recs, t.index) && RewrittenAt(recs, t.index, hasCollision, collisions) {
      CollectSelects(recs, t.index);
      var k :| 0 <= k < |ts| && ts[k].index == t.index;
      assert IsCollected(recs, ts[k]);
    }
  }

  /** An applied transformation starts from the source path of a file that is rewritten. */
  lemma AppliedSource(recs: seq<FileRec>, hasCollision: bool, collisions: map<string, seq<string>>, t: Transformation)
    requires t in Applied(Collect(recs), hasCollision, collisions)
    ensures t.index < |recs| && RewrittenAt(recs, t.index, hasCollision, collisions) && t.oldPath == recs[t.index].srcPath
  {
    AppliedAre(recs, hasCollision, collisions, t);
  }

  /** Transformations in strictly increasing file order. */
  predicate Increasing(ap: seq<Transformation>) {
    forall k1, k2 :: 0 <= k1 < k2 < |ap| ==> ap[k1].index < ap[k2].index
  }

  /** The apply loop keeps the file order of the first pass. */
  lemma {:induction false} AppliedIncreasing(ts: seq<Transformation>, hasCollision: bool, collisions: map<string, seq<string>>)
    requires Increasing(ts)
    ensures Increasing(Applied(ts, hasCollision, collisions))
  {
    if ts != [] {
      var n := |ts| - 1;
      var prefix := ts[..n];
      AppliedIncreasing(prefix, hasCollision, collisions);
      AppliedMembers(prefix, hasCollision, collisions);
      var ap := Applied(prefix, hasCollision, collisions);
      forall k | 0 <= k < |ap| ensures ap[k].index < ts[n].index {
        assert ap[k] in prefix;
        var m :| 0 <= m < n && prefix[m] == ap[k];
        assert prefix[m] == ts[m];
      }
    }
  }

  /** The last transformation leaves every other file alone. */
  lemma ApplyAllOther(recs: seq<FileRec>, ap: seq<Transformation>, i: nat)
    requires ap != [] && i < |recs| && ap[|ap| - 1].index != i
    ensures ApplyAll(recs, ap)[i] == ApplyAll(recs, ap[..|ap| - 1])[i]
  {
  }

  /** The last transformation rewrites its own file. */
  lemma ApplyAllLast(recs: seq<FileRec>, ap: seq<Transformation>)
    requires ap != [] && ap[|ap| - 1].index < |recs|
    ensures var t := ap[|ap| - 1];
      ApplyAll(recs, ap)[t.index] == Rewrite(ApplyAll(recs, ap[..|ap| - 1])[t.index], t)
  {
  }

  /** A file no transformation refers to is left as it was. */
  lemma {:induction false} ApplyAllUntouched(recs: seq<FileRec>, ap: seq<Transformation>, i: nat)
    requires i < |recs| && forall k :: 0 <= k < |ap| ==> ap[k].index != i
    ensures ApplyAll(recs, ap)[i] == recs[i]
  {
    if ap != [] {
      var n := |ap| - 1;
      forall k | 0 <= k < n ensures ap[..n][k].index != i {
        assert ap[..n][k] == ap[k];
      }
      ApplyAllUntouched(recs, ap[..n], i);
      ApplyAllOther(recs, ap, i);
    }
  }

  /**
   * Applying transformations in increasing file order rewrites a file once,
   * with its own transformation.
   */
  lemma {:induction false} ApplyAllRewrites(recs: seq<FileRec>, ap: seq<Transformation>, k: nat)
    requires Increasing(ap) && k < |ap| && ap[k].index < |recs|
    ensures ApplyAll(recs, ap)[ap[k].index] == Rewrite(recs[ap[k].index], ap[k])
  {
    var n := |ap| - 1;
    var i := ap[k].index;
    if k < n {
      assert ap[..n][k] == ap[k];
      assert Increasing(ap[..n]) by {
        forall j1, j2 | 0 <= j1 < j2 < n ensures ap[..n][j1].index < ap[..n][j2].index {
          assert ap[..n][j1] == ap[j1] && ap[..n][j2] == ap[j2];
        }
      }
      ApplyAllRewrites(recs, ap[..n], k);
      assert ap[n].index != i;
      ApplyAllOther(recs, ap, i);
    } else {
      forall j | 0 <= j < n ensures ap[..n][j].index != i {
        assert ap[..n][j] == ap[j];
      }
      ApplyAllUntouched(recs, ap[..n], i);
      ApplyAllLast(recs, ap);
    }
  }

  /**
   * Each file after a call that raised nothing: a file the apply loop
   * rewrites carries its planned rewrite; every other file, in particular
   * every file the first pass did not select, keeps all its fields.
   * A file is skipped when there was some collision and its new path is a
   * key of the collision table, including a key left by an earlier call.
   */
  lemma FileOutcome(strict: bool, collisions: map<string, seq<string>>, processed: map<string, string>,
                    recs: seq<FileRec>, i: nat)
    requires i < |recs|
    ensures var out := OnFilesSpec(true, strict, collisions, processed, recs);
      var hasCollision := exists d :: Collides(Collect(recs), d);
      out.err.None? ==>
        out.files[i] == if RewrittenAt(recs, i, hasCollision, out.collisions) then Rewrite(recs[i], PlannedFor(recs, i)) else recs[i]
  {
    var ts := Collect(recs);
    var tab := Group(ts);
    var rep := ReportLoop(tab.keys, tab.sources, strict, collisions);
    OnFilesSpecSteps(strict, collisions, processed, recs);
    HasCollisionIff(strict, collisions, recs);
    var ap := Applied(ts, rep.hasCollision, rep.collisions);
    AppliedIncreasing(ts, rep.hasCollision, rep.collisions);
    if RewrittenAt(recs, i, rep.hasCollision, rep.collisions) {
      AppliedAre(recs, rep.hasCollision, rep.collisions, PlannedFor(recs, i));
      var k :| 0 <= k < |ap| && ap[k] == PlannedFor(recs, i);
      ApplyAllRewrites(recs, ap, k);
    } else {
      forall k | 0 <= k < |ap| ensures ap[k].index != i {
        AppliedAre(recs, rep.hasCollision, rep.collisions, ap[k]);
      }
      ApplyAllUntouched(recs, ap, i);
    }
  }

  /** `has_collision` is set exactly when two selected files are planned to the same new path. */
  lemma HasCollisionIff(strict: bool, collisions: map<string, seq<string>>, recs: seq<FileRec>)
    ensures var tab := Group(Collect(recs));
      ReportLoop(tab.keys, tab.sources, strict, collisions).hasCollision <==> exists d :: Collides(Collect(recs), d)
  {
    var ts := Collect(recs);
    var tab := Group(ts);
    ReportFlags(tab.keys, tab.sources, strict, collisions);
    forall d | Collides(ts, d) ensures exists j :: 0 <= j < |tab.keys| && |tab.sources[tab.keys[j]]| > 1 {
      SharedKeyIsCollision(ts, d);
    }
    forall j | 0 <= j < |tab.keys| && |tab.sources[tab.keys[j]]| > 1 ensures Collides(ts, tab.keys[j]) {
      SharedKeyIsCollision(ts, tab.keys[j]);
    }
  }

  /** A file the first pass does not select keeps all its fields, whatever the call does. */
  lemma UnselectedUntouched(configured: bool, strict: bool, collisions: map<string, seq<string>>,
                            processed: map<string, string>, recs: seq<FileRec>, i: nat)
    requires i < |recs| && !Selected(recs[i])
    ensures OnFilesSpec(configured, strict, collisions, processed, recs).files[i] == recs[i]
  {
    if configured {
      OnFilesSpecSteps(strict, collisions, processed, recs);
      FileOutcome(strict, collisions, processed, recs, i);
    }
  }

  /**
   * Strict mode raises for the first collision in file order: no other
   * shared new path was planned by an earlier file.
   */
  lemma StrictErrorIsFirst(collisions: map<string, seq<string>>, ts: seq<Transformation>, d: string)
    ensures var tab := Group(ts);
      var r := ReportLoop(tab.keys, tab.sources, true, collisions);
      r.err.Some? && Collides(ts, d) ==> FirstTo(ts, r.err.value.dest) <= FirstTo(ts, d)
  {
    var tab := Group(ts);
    var r := ReportLoop(tab.keys, tab.sources, true, collisions);
    ReportStrictError(tab.keys, tab.sources, collisions);
    if r.err.Some? && Collides(ts, d) {
      var e := r.err.value.dest;
      var j :| 0 <= j < |tab.keys| && tab.keys[j] == e && |tab.sources[tab.keys[j]]| > 1
        && forall i :: 0 <= i < j ==> |tab.sources[tab.keys[i]]| <= 1;
      SharedKeyIsCollision(ts, d);
      var i :| 0 <= i < |tab.keys| && tab.keys[i] == d;
      assert |tab.sources[tab.keys[i]]| > 1;
      if j < i {
        GroupKeyOrder(ts, j, i);
      }
    }
  }

  /**
   * Strict mode is all-or-nothing: it raises exactly when two selected
   * files share a new path, and then no file and no entry of
   * `processed_files` has changed; the error names the shared path whose
   * first planned file comes earliest, with all of its sources in file
   * order, and that path alone is added to the collision table. A call
   * that raises nothing leaves the table alone.
   */
  lemma StrictOnFiles(collisions: map<string, seq<string>>, processed: map<string, string>, recs: seq<FileRec>)
    ensures var out := OnFilesSpec(true, true, collisions, processed, recs);
      var ts := Collect(recs);
      && (out.err.Some? <==> exists d :: Collides(ts, d))
      && (out.err.Some? ==>
            && out.files == recs && out.processed == processed
            && Collides(ts, out.err.value.dest)
            && out.err.value.sources == SourcesTo(ts, out.err.value.dest)
            && |out.err.value.sources| >= 2
            && out.collisions == collisions[out.err.value.dest := out.err.value.sources]
            && forall d :: Collides(ts, d) ==> FirstTo(ts, out.err.value.dest) <= FirstTo(ts, d))
      && (out.err.None? ==> out.collisions == collisions)
  {
    var ts := Collect(recs);
    var tab := Group(ts);
    var rep := ReportLoop(tab.keys, tab.sources, true, collisions);
    OnFilesSpecSteps(true, collisions, processed, recs);
    ReportFlags(tab.keys, tab.sources, true, collisions);
    HasCollisionIff(true, collisions, recs);
    ReportStrictError(tab.keys, tab.sources, collisions);
    if rep.err.Some? {
      var d := rep.err.value.dest;
      assert SharedKey(tab.keys, tab.sources, d);
      SharedKeyIsCollision(ts, d);
      GroupSources(ts, d);
      SourcesToCount(ts, d);
      forall d' | Collides(ts, d') ensures FirstTo(ts, d) <= FirstTo(ts, d') {
        StrictErrorIsFirst(collisions, ts, d');
      }
    }
  }

  /**
   * Non-strict mode never raises; afterwards the collision table holds
   * every path that two selected files share, with its sources in file
   * order, besides the entries of earlier calls.
   */
  lemma NonStrictOnFiles(collisions: map<string, seq<string>>, processed: map<string, string>, recs: seq<FileRec>)
    ensures var out := OnFilesSpec(true, false, collisions, processed, recs);
      var ts := Collect(recs);
      && out.err.None?
      && (forall d :: d in out.collisions <==> d in collisions || Collides(ts, d))
      && (forall d :: Collides(ts, d) ==> out.collisions[d] == SourcesTo(ts, d))
      && (forall d :: d in collisions && !Collides(ts, d) ==> out.collisions[d] == collisions[d])
  {
    var ts := Collect(recs);
    var tab := Group(ts);
    OnFilesSpecSteps(false, collisions, processed, recs);
    ReportNonStrict(tab.keys, tab.sources, collisions);
    forall d ensures SharedKey(tab.keys, tab.sources, d) <==> Collides(ts, d) {
      SharedKeyIsCollision(ts, d);
    }
    forall d | Collides(ts, d) ensures tab.sources[d] == SourcesTo(ts, d) {
      GroupSources(ts, d);
    }
  }

  /** In non-strict mode a selected file whose new path is shared keeps all its fields. */
  lemma CollidingFileKept(collisions: map<string, seq<string>>, processed: map<string, string>,
                          recs: seq<FileRec>, i: nat)
    requires i < |recs| && Collides(Collect(recs), NewPath(recs[i].srcPath))
    ensures OnFilesSpec(true, false, collisions, processed, recs).files[i] == recs[i]
  {
    var ts := Collect(recs);
    var tab := Group(ts);
    var rep := ReportLoop(tab.keys, tab.sources, false, collisions);
    OnFilesSpecSteps(false, collisions, processed, recs);
    NonStrictOnFiles(collisions, processed, recs);
    HasCollisionIff(false, collisions, recs);
    assert Skipped(PlannedFor(recs, i), rep.hasCollision, rep.collisions);
    FileOutcome(false, collisions, processed, recs, i);
  }

  /** Without a shared new path, every selected file is rewritten, in either mode. */
  lemma AllRewrittenWithoutCollision(strict: bool, collisions: map<string, seq<string>>,
                                     processed: map<string, string>, recs: seq<FileRec>, i: nat)
    requires i < |recs| && Selected(recs[i])
    requires forall d :: !Collides(Collect(recs), d)
    ensures var out := OnFilesSpec(true, strict, collisions, processed, recs);
      out.err.None? && out.files[i] == Rewrite(recs[i], PlannedFor(recs, i))
  {
    if strict {
      StrictOnFiles(collisions, processed, recs);
    } else {
      NonStrictOnFiles(collisions, processed, recs);
    }
    FileOutcome(strict, collisions, processed, recs, i);
  }

  /** `processed_files` after applying `ap`: an applied old path maps to the new path of one of its transformations. */
  lemma {:induction false} ProcessedHas(processed: map<string, string>, ap: seq<Transformation>, k: nat)
    requires k < |ap|
    ensures ap[k].oldPath in Processed(processed, ap)
    ensures exists m :: 0 <= m < |ap| && ap[m].oldPath == ap[k].oldPath && Processed(processed, ap)[ap[k].oldPath] == ap[m].newPath
  {
    var n := |ap| - 1;
    if k < n && ap[n].oldPath != ap[k].oldPath {
      ProcessedHas(processed, ap[..n], k);
      var m :| 0 <= m < n && ap[..n][m].oldPath == ap[k].oldPath && Processed(processed, ap[..n])[ap[k].oldPath] == ap[..n][m].newPath;
      assert ap[..n][m] == ap[m];
    }
  }

  /** `processed_files` after applying `ap`: a path no transformation starts from is as it was. */
  lemma {:induction false} ProcessedOthers(processed: map<string, string>, ap: seq<Transformation>, o: string)
    requires forall k :: 0 <= k < |ap| ==> ap[k].oldPath != o
    ensures o in Processed(processed, ap) <==> o in processed
    ensures o in processed ==> Processed(processed, ap)[o] == processed[o]
  {
    if ap != [] {
      var n := |ap| - 1;
      assert forall k :: 0 <= k < n ==> ap[..n][k] == ap[k];
      ProcessedOthers(processed, ap[..n], o);
    }
  }

  /**
   * After a call that raised nothing, `processed_files` maps the source
   * path of every rewritten file to its new path.
   */
  lemma ProcessedRecordsRewritten(strict: bool, collisions: map<string, seq<string>>, processed: map<string, string>,
                                  recs: seq<FileRec>, i: nat)
    requires i < |recs|
    ensures var out := OnFilesSpec(true, strict, collisions, processed, recs);
      var hasCollision := exists d :: Collides(Collect(recs), d);
      out.err.None? && RewrittenAt(recs, i, hasCollision, out.collisions) ==>
        recs[i].srcPath in out.processed && out.processed[recs[i].srcPath] == NewPath(recs[i].srcPath)
  {
    var ts := Collect(recs);
    var tab := Group(ts);
    var rep := ReportLoop(tab.keys, tab.sources, strict, collisions);
    OnFilesSpecSteps(strict, collisions, processed, recs);
    HasCollisionIff(strict, collisions, recs);
    if rep.err.None? && RewrittenAt(recs, i, rep.hasCollision, rep.collisions) {
      var ap := Applied(ts, rep.hasCollision, rep.collisions);
      AppliedAre(recs, rep.hasCollision, rep.collisions, PlannedFor(recs, i));
      var k :| 0 <= k < |ap| && ap[k] == PlannedFor(recs, i);
      ProcessedHas(processed, ap, k);
      var m :| 0 <= m < |ap| && ap[m].oldPath == ap[k].oldPath && Processed(processed, ap)[ap[k].oldPath] == ap[m].newPath;
      AppliedAre(recs, rep.hasCollision, rep.collisions, ap[m]);
    }
  }

  /**
   * After a call that raised nothing, an entry of `processed_files` that is
   * not the source path of a rewritten file is as it was.
   */
  lemma ProcessedKeepsOthers(strict: bool, collisions: map<string, seq<string>>, processed: map<string, string>,
                             recs: seq<FileRec>, o: string)
    ensures var out := OnFilesSpec(true, strict, collisions, processed, recs);
      var hasCollision := exists d :: Collides(Collect(recs), d);
      out.err.None? && (forall i :: 0 <= i < |recs| && RewrittenAt(recs, i, hasCollision, out.collisions) ==> recs[i].srcPath != o) ==>
        (o in out.processed <==> o in processed) && (o in processed ==> out.processed[o] == processed[o])
  {
    var ts := Collect(recs);
    var tab := Group(ts);
    var rep := ReportLoop(tab.keys, tab.sources, strict, collisions);
    OnFilesSpecSteps(strict, collisions, processed, recs);
    HasCollisionIff(strict, collisions, recs);
    var ap := Applied(ts, rep.hasCollision, rep.collisions);
    if forall i :: 0 <= i < |recs| && RewrittenAt(recs, i, rep.hasCollision, rep.collisions) ==> recs[i].srcPath != o {
      forall k | 0 <= k < |ap| ensures ap[k].oldPath != o {
        AppliedSource(recs, rep.hasCollision, rep.collisions, ap[k]);
        assert RewrittenAt(recs, ap[k].index, rep.hasCollision, rep.collisions);
      }
      ProcessedOthers(processed, ap, o);
    }
  }

  /** The error text names the shared path, as "Multiple files would map to '<path>'". */
  lemma MessageNamesPath(e: CollisionError)
    ensures Contains(Message(e), "Multiple files would map to '" + e.dest + "'")
  {
    var named := "Multiple files would map to '" + e.dest + "'";
    var rest := ": " + CommaJoin(e.sources);
    assert Message(e) == "StripNumberPrefix: " + named + rest;
    ContainsMiddle("StripNumberPrefix: ", named, rest);
  }
}
