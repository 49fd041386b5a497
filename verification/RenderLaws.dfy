/** What every observable state of a Render looks like, however many of its file operations
    fail and wherever it is cut off, and what a successful one leaves behind. */
module RenderLaws {
  import opened Wrappers
  import opened Text
  import opened Sorting
  import opened Acme
  import opened Slug
  import opened IndexFile
  import opened Live
  import opened Render

  // ----- the shape of every intermediate state

  /** Names to contents; the last of several files with one name wins. */
  ghost function FilesMap(files: seq<FileSpec>): View
    decreases |files|
  {
    if files == [] then map[]
    else FilesMap(files[..|files| - 1])[files[|files| - 1].name := files[|files| - 1].data]
  }

  /** What live/ should hold for a list of certificates. */
  ghost function TargetOf(liveDir: string, certs: seq<RenderedCert>): View {
    FilesMap(AllFiles(liveDir, certs))
  }

  lemma {:induction false} FilesMapKeys(files: seq<FileSpec>)
    ensures FilesMap(files).Keys == NamesOf(files)
    decreases |files|
  {
    if files != [] {
      var init, last := files[..|files| - 1], files[|files| - 1];
      FilesMapKeys(init);
      assert files == init + [last];
      NamesConcat(init, [last]);
      PairNames([], last, last);
    }
  }

  lemma FilesMapStep(files: seq<FileSpec>, j: nat)
    requires j < |files|
    ensures FilesMap(files[..j + 1]) == FilesMap(files[..j])[files[j].name := files[j].data]
  {
    assert files[..j + 1][..j] == files[..j];
  }

  lemma WriteOneView(live: Tree, f: FileSpec, faults: FileFaults)
    ensures var o := WriteOne(live, f, faults);
      && |o.log| <= 1 && (o.err.Some? ==> o.log == [])
      && (o.err.None? ==> ViewOf(Replay(live, o.log)) == ViewOf(live)[f.name := f.data])
  {
    ReplayOne(live, Put(f.name, f.data));
  }

  lemma OverlayPut(v: View, a: View, n: string, d: Bytes)
    ensures (v + a)[n := d] == v + a[n := d]
  {
  }

  lemma WriteViewStep(live: Tree, files: seq<FileSpec>, faults: Faults, j: nat)
    requires j < |files| && WriteUpTo(live, files, faults, j + 1).err.None?
    ensures WriteUpTo(live, files, faults, j).err.None?
    ensures ViewOf(Replay(live, WriteUpTo(live, files, faults, j + 1).log)) ==
      ViewOf(Replay(live, WriteUpTo(live, files, faults, j).log))[files[j].name := files[j].data]
  {
    hide WriteUpTo, WriteOne, Replay, ViewOf;
    var done := WriteUpTo(live, files, faults, j).log;
    WriteNext(live, files, faults, j);
    WriteOneView(Replay(live, done), files[j], faults.File(j));
    ReplayConcat(live, done, WriteOne(Replay(live, done), files[j], faults.File(j)).log);
  }

  lemma NothingWritten(live: Tree, files: seq<FileSpec>, faults: Faults)
    ensures ViewOf(Replay(live, WriteUpTo(live, files, faults, 0).log)) == ViewOf(live) + FilesMap(files[..0])
  {
    var v := ViewOf(live);
    assert v + map[] == v;
  }

  lemma {:induction false} WriteView(live: Tree, files: seq<FileSpec>, faults: Faults, j: nat)
    requires j <= |files| && WriteUpTo(live, files, faults, j).err.None?
    ensures ViewOf(Replay(live, WriteUpTo(live, files, faults, j).log)) == ViewOf(live) + FilesMap(files[..j])
    decreases j
  {
    hide WriteUpTo, Replay, ViewOf, FilesMap;
    if j == 0 {
      NothingWritten(live, files, faults);
    } else {
      WriteViewStep(live, files, faults, j - 1);
      WriteView(live, files, faults, j - 1);
      FilesMapStep(files, j - 1);
      OverlayPut(ViewOf(live), FilesMap(files[..j - 1]), files[j - 1].name, files[j - 1].data);
    }
  }

  /** After any number k of edits of the writing phase, the directory is the old one overlaid
      with the first i files; i is at least m once all edits of the first m files are done. */
  lemma {:induction false} WriteCut(live: Tree, files: seq<FileSpec>, faults: Faults, j: nat, k: nat, m: nat) returns (i: nat)
    requires j <= |files| && k <= |WriteUpTo(live, files, faults, j).log|
    requires m <= j && WriteUpTo(live, files, faults, m).err.None? && |WriteUpTo(live, files, faults, m).log| <= k
    ensures m <= i <= j
    ensures ViewOf(Replay(live, WriteUpTo(live, files, faults, j).log[..k])) == ViewOf(live) + FilesMap(files[..i])
    decreases j
  {
    hide WriteOne, Replay, ViewOf, FilesMap;
    var o := WriteUpTo(live, files, faults, j);
    if m == j {
      i := j;
      assert o.log[..k] == o.log;
      WriteView(live, files, faults, j);
    } else {
      var before := WriteUpTo(live, files, faults, j - 1);
      if before.err.None? {
        WriteOneView(Replay(live, before.log), files[j - 1], faults.File(j - 1));
      }
      if k <= |before.log| {
        assert o.log[..k] == before.log[..k];
        i := WriteCut(live, files, faults, j - 1, k, m);
      } else {
        i := j;
        assert o.log[..k] == o.log;
        WriteView(live, files, faults, j);
      }
    }
  }

  lemma {:induction false} DelsView(t: Tree, edits: seq<Edit>)
    requires forall e | e in edits :: e.Del?
    ensures ViewOf(Replay(t, edits)) == ViewOf(t) - Touched(edits)
    decreases |edits|
  {
    if edits == [] {
      assert Touched(edits) == {};
      assert ViewOf(t) - {} == ViewOf(t);
    } else {
      var init, last := edits[..|edits| - 1], edits[|edits| - 1];
      assert edits == init + [last] && last in edits;
      DelsView(t, init);
      assert Touched(edits) == Touched(init) + {last.name};
      assert ViewOf(Replay(t, edits)) == ViewOf(Replay(t, init)) - {last.name};
      MinusTwice(ViewOf(t), Touched(init), {last.name});
    }
  }

  lemma MinusTwice(v: View, a: set<string>, b: set<string>)
    ensures v - a - b == v - (a + b)
  {
  }

  lemma PruneOneIs(live: Tree, name: string, keep: set<string>, fails: bool)
    ensures var o := PruneOne(live, name, keep, fails);
      && (forall e | e in o.log :: e == Del(name) && name !in keep)
      && (o.err.None? ==> !Stale(Replay(live, o.log), keep, name))
      && forall n :: Stale(Replay(live, o.log), keep, n) ==> Stale(live, keep, n)
  {
    ReplayOne(live, Del(name));
  }

  lemma {:induction false} PruneLogIs(live: Tree, names: seq<string>, keep: set<string>, faults: Faults, j: nat)
    requires j <= |names|
    ensures forall e | e in PruneUpTo(live, names, keep, faults, j).log :: e.Del? && e.name !in keep
    decreases j
  {
    hide PruneUpTo, PruneOne, Replay;
    NothingYet(live, [], names, keep, faults);
    if j > 0 {
      PruneLogIs(live, names, keep, faults, j - 1);
      PruneNext(live, names, keep, faults, j - 1);
      var before := PruneUpTo(live, names, keep, faults, j - 1);
      PruneOneIs(Replay(live, before.log), names[j - 1], keep, faults.Remove(j - 1));
    }
  }

  lemma {:induction false} PruneComplete(live: Tree, names: seq<string>, keep: set<string>, faults: Faults, j: nat, i: nat)
    requires i < j <= |names| && PruneUpTo(live, names, keep, faults, j).err.None?
    ensures !Stale(Replay(live, PruneUpTo(live, names, keep, faults, j).log), keep, names[i])
    decreases j
  {
    hide PruneUpTo, PruneOne, Replay, Stale;
    PruneNext(live, names, keep, faults, j - 1);
    var before := PruneUpTo(live, names, keep, faults, j - 1);
    PruneOneIs(Replay(live, before.log), names[j - 1], keep, faults.Remove(j - 1));
    ReplayConcat(live, before.log, PruneOne(Replay(live, before.log), names[j - 1], keep, faults.Remove(j - 1)).log);
    if i < j - 1 { PruneComplete(live, names, keep, faults, j - 1, i); }
  }

  /** A pruning phase only removes files outside `keep`; a complete one removes them all. */
  lemma PruneAllIs(live: Tree, keep: set<string>, faults: Faults, k: nat)
    requires k <= |PruneAll(live, keep, faults).log|
    ensures var o := PruneAll(live, keep, faults);
      var gone := Touched(o.log[..k]);
      && gone !! keep
      && ViewOf(Replay(live, o.log[..k])) == ViewOf(live) - gone
      && (o.err.None? && k == |o.log| ==> ViewOf(live).Keys - gone <= keep)
  {
    var names := SortedSet(live.Keys);
    PruneLogIs(live, names, keep, faults, |names|);
    var o := PruneAll(live, keep, faults);
    DelsView(live, o.log[..k]);
    if o.err.None? && k == |o.log| {
      assert o.log[..k] == o.log;
      forall n | n in ViewOf(live) && n !in Touched(o.log) ensures n in keep {
        assert n in names;
        var i :| 0 <= i < |names| && names[i] == n;
        PruneComplete(live, names, keep, faults, |names|, i);
        assert n in ViewOf(Replay(live, o.log));
      }
    }
  }

  /** The state after the first k edits of a Render. */
  ghost function StateAt(place: Place, live: Tree, certs: seq<RenderedCert>, faults: Faults, k: nat): Tree
    requires k <= |RenderSpec(place, live, certs, faults).log|
  {
    Replay(live, RenderSpec(place, live, certs, faults).log[..k])
  }

  /** The first i files overlay the old ones; once all do, some unwanted names may be gone. */
  ghost predicate Shaped(v: View, prior: View, files: seq<FileSpec>, i: nat, gone: set<string>) {
    && i <= |files| && gone !! NamesOf(files) && (gone == {} || i == |files|)
    && v == prior + FilesMap(files[..i]) - gone
  }

  lemma WritePhaseShape(live: Tree, files: seq<FileSpec>, faults: Faults, k: nat, m: nat) returns (i: nat)
    requires k <= |WriteUpTo(live, files, faults, |files|).log|
    requires m <= |files| && WriteUpTo(live, files, faults, m).err.None? && |WriteUpTo(live, files, faults, m).log| <= k
    ensures i >= m
    ensures Shaped(ViewOf(Replay(live, WriteUpTo(live, files, faults, |files|).log[..k])), ViewOf(live), files, i, {})
  {
    i := WriteCut(live, files, faults, |files|, k, m);
    var v := ViewOf(live) + FilesMap(files[..i]);
    assert v - {} == v;
  }

  lemma PrunePhaseShape(live: Tree, files: seq<FileSpec>, faults: Faults, k: nat) returns (gone: set<string>)
    requires WriteUpTo(live, files, faults, |files|).err.None?
    requires var now := Replay(live, WriteUpTo(live, files, faults, |files|).log);
      k <= |PruneAll(now, NamesOf(files), faults).log|
    ensures var now := Replay(live, WriteUpTo(live, files, faults, |files|).log);
      var p := PruneAll(now, NamesOf(files), faults);
      && Shaped(ViewOf(Replay(now, p.log[..k])), ViewOf(live), files, |files|, gone)
      && (p.err.None? && k == |p.log| ==> ViewOf(live).Keys - gone <= NamesOf(files))
  {
    var now := Replay(live, WriteUpTo(live, files, faults, |files|).log);
    WriteView(live, files, faults, |files|);
    assert files[..|files|] == files;
    PruneAllIs(now, NamesOf(files), faults, k);
    gone := Touched(PruneAll(now, NamesOf(files), faults).log[..k]);
    assert ViewOf(live).Keys <= ViewOf(now).Keys;
  }

  lemma ReconcileShape(live: Tree, files: seq<FileSpec>, faults: Faults, k: nat, m: nat) returns (i: nat, gone: set<string>)
    requires k <= |ReconcileSpec(live, files, faults).log|
    requires m <= |files| && WriteUpTo(live, files, faults, m).err.None? && |WriteUpTo(live, files, faults, m).log| <= k
    ensures var run := ReconcileSpec(live, files, faults);
      && i >= m
      && Shaped(ViewOf(Replay(live, run.log[..k])), ViewOf(live), files, i, gone)
      && (run.err.None? && k == |run.log| ==> i == |files| && ViewOf(live).Keys - gone <= NamesOf(files))
  {
    hide WriteUpTo, PruneAll, Replay, ViewOf, Shaped, NamesOf;
    var log, w := ReconcileSpec(live, files, faults).log, WriteUpTo(live, files, faults, |files|);
    if k < |w.log| || w.err.Some? {
      assert log[..k] == w.log[..k];
      i := WritePhaseShape(live, files, faults, k, m);
      gone := {};
    } else {
      var p := PruneAll(Replay(live, w.log), NamesOf(files), faults);
      var c := k - |w.log|;
      assert log == w.log + p.log && log[..k] == w.log + p.log[..c];
      ReplayConcat(live, w.log, p.log[..c]);
      gone := PrunePhaseShape(live, files, faults, c);
      i := |files|;
    }
  }

  /** Every state of every Render: the old files overlaid with a prefix of the wanted ones, minus,
      once all are in place, some files nobody wants.  The prefix covers the first m files as soon
      as their edits are done. */
  lemma StateShape(place: Place, live: Tree, certs: seq<RenderedCert>, faults: Faults, k: nat, m: nat)
    returns (i: nat, gone: set<string>)
    requires k <= |RenderSpec(place, live, certs, faults).log|
    requires var files := AllFiles(place.liveDir, certs);
      m <= |files| && (m > 0 ==>
        && place.baseDir != "" && !faults.mkLive && !faults.mkStaging
        && WriteUpTo(live, files, faults, m).err.None? && |WriteUpTo(live, files, faults, m).log| <= k)
    ensures i >= m
    ensures Shaped(ViewOf(StateAt(place, live, certs, faults, k)), ViewOf(live), AllFiles(place.liveDir, certs), i, gone)
  {
    if place.baseDir == "" || faults.mkLive || faults.mkStaging {
      i, gone := 0, {};
      UntouchedShape(ViewOf(live), AllFiles(place.liveDir, certs));
    } else {
      i, gone := ReconcileShape(live, AllFiles(place.liveDir, certs), faults, k, m);
    }
  }

  lemma UntouchedShape(v: View, files: seq<FileSpec>)
    ensures Shaped(v, v, files, 0, {})
  {
    assert files[..0] == [];
    assert v + FilesMap([]) - {} == v;
  }

  lemma ReconcileExact(live: Tree, files: seq<FileSpec>, faults: Faults)
    requires ReconcileSpec(live, files, faults).err.None?
    ensures ViewOf(Replay(live, ReconcileSpec(live, files, faults).log)) == FilesMap(files)
  {
    var log := ReconcileSpec(live, files, faults).log;
    var i, gone := ReconcileShape(live, files, faults, |log|, 0);
    assert log[..|log|] == log && files[..|files|] == files;
    FilesMapKeys(files);
    OverlayMinus(ViewOf(live), FilesMap(files), gone);
  }

  lemma OverlayMinus(prior: View, target: View, gone: set<string>)
    requires gone !! target.Keys && prior.Keys - gone <= target.Keys
    ensures prior + target - gone == target
  {
  }

  /** A Render that reports no error leaves exactly the wanted files, whatever was there before. */
  lemma RenderExact(place: Place, live: Tree, certs: seq<RenderedCert>, faults: Faults)
    requires RenderSpec(place, live, certs, faults).err.None?
    ensures ViewOf(Replay(live, RenderSpec(place, live, certs, faults).log)) == TargetOf(place.liveDir, certs)
  {
    ReconcileExact(live, AllFiles(place.liveDir, certs), faults);
  }
}
