/** How much a Render does: no edit is wasted, a second identical Render does nothing, and what
    makes one succeed. */
module RenderEconomy {
  import opened Wrappers
  import opened Acme
  import opened Live
  import opened Render
  import opened RenderLaws
  import opened RenderSafety

  /** Reading a file that exists always succeeds. */
  ghost predicate ReadsWork(faults: Faults) {
    forall i: nat :: !faults.File(i).read
  }

  ghost function Distance(t: Tree, target: View): nat {
    |Differing(ViewOf(t), target)|
  }

  lemma FixOne(a: View, b: View, target: View, n: string)
    requires n in Differing(a, target)
    requires forall x :: if x == n then SameAt(b, target, x) else SameAt(b, a, x)
    ensures |Differing(a, target)| == 1 + |Differing(b, target)|
  {
    assert SameAt(b, target, n);
    forall x | x != n ensures x in Differing(b, target) <==> x in Differing(a, target) { assert SameAt(b, a, x); }
    assert Differing(b, target) == Differing(a, target) - {n};
  }

  /** The edits made and the differences that remain add up to the differences there were. */
  ghost predicate Conserved(live: Tree, log: seq<Edit>, target: View) {
    |log| + Distance(Replay(live, log), target) == Distance(live, target)
  }

  lemma NothingConserved(live: Tree, target: View)
    ensures Conserved(live, [], target)
  {
  }

  lemma ConservedJoin(live: Tree, a: seq<Edit>, b: seq<Edit>, target: View)
    requires Conserved(live, a, target) && Conserved(Replay(live, a), b, target)
    ensures Conserved(live, a + b, target)
  {
    hide Distance, Replay;
    ReplayConcat(live, a, b);
  }

  lemma WriteOneConserved(live: Tree, f: FileSpec, faults: FileFaults, target: View)
    requires !faults.read && f.name in target && target[f.name] == f.data
    ensures Conserved(live, WriteOne(live, f, faults).log, target)
  {
    var log := WriteOne(live, f, faults).log;
    if log != [] {
      ReplayOne(live, Put(f.name, f.data));
      FixOne(ViewOf(live), ViewOf(Replay(live, log)), target, f.name);
    }
  }

  lemma PruneOneConserved(live: Tree, name: string, keep: set<string>, fails: bool, target: View)
    requires keep == target.Keys
    ensures Conserved(live, PruneOne(live, name, keep, fails).log, target)
  {
    var log := PruneOne(live, name, keep, fails).log;
    if log != [] {
      ReplayOne(live, Del(name));
      FixOne(ViewOf(live), ViewOf(Replay(live, log)), target, name);
    }
  }

  lemma {:induction false} WriteConserved(live: Tree, files: seq<FileSpec>, faults: Faults, j: nat, target: View)
    requires ReadsWork(faults) && j <= |files|
    requires forall f | f in files :: f.name in target && target[f.name] == f.data
    ensures Conserved(live, WriteUpTo(live, files, faults, j).log, target)
    decreases j
  {
    hide WriteUpTo, WriteOne, Conserved, Replay;
    if j == 0 {
      NothingYet(live, files, [], {}, faults);
      NothingConserved(live, target);
    } else {
      var done := WriteUpTo(live, files, faults, j - 1).log;
      WriteConserved(live, files, faults, j - 1, target);
      WriteNext(live, files, faults, j - 1);
      assert files[j - 1] in files;
      WriteOneConserved(Replay(live, done), files[j - 1], faults.File(j - 1), target);
      ConservedJoin(live, done, WriteOne(Replay(live, done), files[j - 1], faults.File(j - 1)).log, target);
    }
  }

  lemma {:induction false} PruneConserved(live: Tree, names: seq<string>, keep: set<string>, faults: Faults, j: nat, target: View)
    requires j <= |names| && keep == target.Keys
    ensures Conserved(live, PruneUpTo(live, names, keep, faults, j).log, target)
    decreases j
  {
    hide PruneUpTo, PruneOne, Conserved, Replay;
    if j == 0 {
      NothingYet(live, [], names, keep, faults);
      NothingConserved(live, target);
    } else {
      var done := PruneUpTo(live, names, keep, faults, j - 1).log;
      PruneConserved(live, names, keep, faults, j - 1, target);
      PruneNext(live, names, keep, faults, j - 1);
      PruneOneConserved(Replay(live, done), names[j - 1], keep, faults.Remove(j - 1), target);
      ConservedJoin(live, done, PruneOne(Replay(live, done), names[j - 1], keep, faults.Remove(j - 1)).log, target);
    }
  }

  lemma ClashFreeTarget(liveDir: string, certs: seq<RenderedCert>)
    requires ClashFree(AllFiles(liveDir, certs))
    ensures var target := TargetOf(liveDir, certs);
      && target.Keys == NamesOf(AllFiles(liveDir, certs))
      && forall f | f in AllFiles(liveDir, certs) :: f.name in target && target[f.name] == f.data
  {
    var files := AllFiles(liveDir, certs);
    FilesMapKeys(files);
    FilesMapHas(files, |files|);
    assert files[..|files|] == files;
  }

  lemma PruneAllConserved(live: Tree, keep: set<string>, faults: Faults, target: View)
    requires keep == target.Keys
    ensures Conserved(live, PruneAll(live, keep, faults).log, target)
  {
    var names := Sorting.SortedSet(live.Keys);
    NothingConserved(live, target);
    PruneConserved(live, names, keep, faults, |names|, target);
  }

  lemma ReconcileConserved(live: Tree, files: seq<FileSpec>, faults: Faults, target: View)
    requires ReadsWork(faults) && target.Keys == NamesOf(files)
    requires forall f | f in files :: f.name in target && target[f.name] == f.data
    ensures Conserved(live, ReconcileSpec(live, files, faults).log, target)
  {
    hide WriteUpTo, PruneAll, Conserved, Replay;
    WriteConserved(live, files, faults, |files|, target);
    var w := WriteUpTo(live, files, faults, |files|).log;
    PruneAllConserved(Replay(live, w), NamesOf(files), faults, target);
    ConservedJoin(live, w, PruneAll(Replay(live, w), NamesOf(files), faults).log, target);
  }

  /** Conservation: however a Render ends, the edits it made and the differences that remain add
      up to the differences there were. */
  lemma NoEditWasted(place: Place, live: Tree, certs: seq<RenderedCert>, faults: Faults)
    requires ClashFree(AllFiles(place.liveDir, certs)) && ReadsWork(faults)
    ensures var log := RenderSpec(place, live, certs, faults).log;
      |log| + Distance(Replay(live, log), TargetOf(place.liveDir, certs)) == Distance(live, TargetOf(place.liveDir, certs))
  {
    hide AllFiles, TargetOf, ClashFree, ReconcileSpec, Distance;
    var target := TargetOf(place.liveDir, certs);
    NothingConserved(live, target);
    ClashFreeTarget(place.liveDir, certs);
    ReconcileConserved(live, AllFiles(place.liveDir, certs), faults, target);
  }

  lemma DistanceZero(t: Tree, target: View)
    ensures Distance(t, target) == 0 <==> ViewOf(t) == target
  {
    var d := Differing(ViewOf(t), target);
    if d == {} {
      var v := ViewOf(t);
      forall n | n in v.Keys + target.Keys ensures n in v && n in target && v[n] == target[n] { assert n !in d; }
      assert v.Keys == target.Keys;
    }
  }

  lemma ChangedIff(place: Place, live: Tree, certs: seq<RenderedCert>, faults: Faults)
    ensures var run := RenderSpec(place, live, certs, faults);
      run.err.None? ==> run.changed == (run.log != [])
  {
    hide AllFiles, WriteUpTo, PruneAll, Replay;
  }

  /** A successful Render makes exactly one edit for each name whose content was missing, wrong or
      unwanted; it says so in `changed`; and no other way to the same files is shorter. */
  lemma MinimalEdits(place: Place, live: Tree, certs: seq<RenderedCert>, faults: Faults, other: seq<Edit>)
    requires ClashFree(AllFiles(place.liveDir, certs)) && ReadsWork(faults)
    requires RenderSpec(place, live, certs, faults).err.None?
    ensures var run := RenderSpec(place, live, certs, faults);
      && |run.log| == |Differing(ViewOf(live), TargetOf(place.liveDir, certs))|
      && (run.changed <==> ViewOf(live) != TargetOf(place.liveDir, certs))
      && (ViewOf(Replay(live, other)) == TargetOf(place.liveDir, certs) ==> |other| >= |run.log|)
  {
    hide RenderSpec, AllFiles, TargetOf, ClashFree, Replay, ViewOf, Differing;
    var run, target := RenderSpec(place, live, certs, faults), TargetOf(place.liveDir, certs);
    ChangedIff(place, live, certs, faults);
    NoEditWasted(place, live, certs, faults);
    RenderExact(place, live, certs, faults);
    DistanceZero(Replay(live, run.log), target);
    DistanceZero(live, target);
    EditsAtLeast(live, other);
  }

  lemma {:induction false} SilentWriteHolds(live: Tree, files: seq<FileSpec>, faults: Faults, j: nat)
    requires ReadsWork(faults) && j <= |files|
    requires WriteUpTo(live, files, faults, j) == Outcome([], None)
    ensures forall f | f in files[..j] :: Holds(live, f)
    decreases j
  {
    if j > 0 {
      var before := WriteUpTo(live, files, faults, j - 1);
      assert before.err.None? && before.log == [];
      SilentWriteHolds(live, files, faults, j - 1);
      assert files[..j] == files[..j - 1] + [files[j - 1]];
    }
  }

  /** Rendering the same list again: the second Render makes no edit, and reports no change,
      exactly when no two files share a name but not their contents. */
  lemma SecondRenderSilentIff(place: Place, live: Tree, certs: seq<RenderedCert>, first: Faults, second: Faults)
    requires RenderSpec(place, live, certs, first).err.None?
    requires var live' := Replay(live, RenderSpec(place, live, certs, first).log);
      ReadsWork(second) && RenderSpec(place, live', certs, second).err.None?
    ensures var live' := Replay(live, RenderSpec(place, live, certs, first).log);
      var again := RenderSpec(place, live', certs, second);
      && (again.log == [] <==> ClashFree(AllFiles(place.liveDir, certs)))
      && again.changed == (again.log != [])
  {
    var live' := Replay(live, RenderSpec(place, live, certs, first).log);
    RenderExact(place, live, certs, first);
    ChangedIff(place, live', certs, second);
    if ClashFree(AllFiles(place.liveDir, certs)) {
      hide RenderSpec, AllFiles, TargetOf, ClashFree, Replay, ViewOf, Differing;
      NoEditWasted(place, live', certs, second);
      DistanceZero(live', TargetOf(place.liveDir, certs));
    } else if RenderSpec(place, live', certs, second).log == [] {
      SilentIsClashFree(live', AllFiles(place.liveDir, certs), second);
    }
  }

  lemma SilentIsClashFree(live: Tree, files: seq<FileSpec>, faults: Faults)
    requires ReadsWork(faults)
    requires ReconcileSpec(live, files, faults).err.None? && ReconcileSpec(live, files, faults).log == []
    ensures ClashFree(files)
  {
    SilentWriteHolds(live, files, faults, |files|);
    assert files[..|files|] == files;
  }

  // ----- success

  /** No system call fails of itself. */
  ghost predicate Faultless(faults: Faults) {
    && !faults.mkLive && !faults.mkStaging && !faults.readDir
    && (forall i: nat :: !faults.File(i).stage && !faults.File(i).chmod && !faults.File(i).rename)
    && (forall i: nat :: !faults.Remove(i))
  }

  lemma WriteOneKeepsBlocked(live: Tree, f: FileSpec, faults: FileFaults, n: string)
    ensures Blocked(Replay(live, WriteOne(live, f, faults).log), n) <==> Blocked(live, n)
  {
    ReplayOne(live, Put(f.name, f.data));
  }

  lemma {:induction false} WriteKeepsBlocked(live: Tree, files: seq<FileSpec>, faults: Faults, j: nat, n: string)
    requires j <= |files|
    ensures Blocked(Replay(live, WriteUpTo(live, files, faults, j).log), n) <==> Blocked(live, n)
    decreases j
  {
    hide WriteUpTo, WriteOne, Replay, Blocked;
    NothingYet(live, files, [], {}, faults);
    if j > 0 {
      var done := WriteUpTo(live, files, faults, j - 1).log;
      WriteKeepsBlocked(live, files, faults, j - 1, n);
      WriteNext(live, files, faults, j - 1);
      WriteOneKeepsBlocked(Replay(live, done), files[j - 1], faults.File(j - 1), n);
      ReplayConcat(live, done, WriteOne(Replay(live, done), files[j - 1], faults.File(j - 1)).log);
    }
  }

  lemma WriteOneSucceedsIff(live: Tree, f: FileSpec, faults: FileFaults)
    requires !faults.stage && !faults.chmod && !faults.rename
    ensures WriteOne(live, f, faults).err.None? <==> !Blocked(live, f.name)
  {
  }

  ghost predicate Unblocked(live: Tree, files: seq<FileSpec>) {
    forall f | f in files :: !Blocked(live, f.name)
  }

  lemma NoneBlocked(live: Tree, files: seq<FileSpec>)
    ensures Unblocked(live, files[..0])
  {
  }

  lemma UnblockedStep(live: Tree, files: seq<FileSpec>, j: nat)
    requires j < |files|
    ensures Unblocked(live, files[..j + 1]) <==> Unblocked(live, files[..j]) && !Blocked(live, files[j].name)
  {
    hide Blocked;
    var next := files[..j + 1];
    assert next == files[..j] + [files[j]];
    assert files[j] in next && forall f :: f in next <==> f in files[..j] || f == files[j];
  }

  lemma {:induction false} WriteSucceedsIff(live: Tree, files: seq<FileSpec>, faults: Faults, j: nat)
    requires Faultless(faults) && j <= |files|
    ensures WriteUpTo(live, files, faults, j).err.None? <==> Unblocked(live, files[..j])
    decreases j
  {
    hide WriteUpTo, WriteOne, Replay, Blocked, Unblocked;
    NothingYet(live, files, [], {}, faults);
    if j == 0 {
      assert Unblocked(live, files[..0]) by { NoneBlocked(live, files); }
    } else {
      var done := WriteUpTo(live, files, faults, j - 1).log;
      WriteSucceedsIff(live, files, faults, j - 1);
      WriteNext(live, files, faults, j - 1);
      WriteOneSucceedsIff(Replay(live, done), files[j - 1], faults.File(j - 1));
      WriteKeepsBlocked(live, files, faults, j - 1, files[j - 1].name);
      UnblockedStep(live, files, j - 1);
    }
  }

  lemma {:induction false} PruneSucceeds(live: Tree, names: seq<string>, keep: set<string>, faults: Faults, j: nat)
    requires Faultless(faults) && j <= |names|
    ensures PruneUpTo(live, names, keep, faults, j).err.None?
    decreases j
  {
    if j > 0 { PruneSucceeds(live, names, keep, faults, j - 1); }
  }

  /** When no system call fails of itself, a Render succeeds exactly when it has an out-dir and no
      directory stands at the name of a file it wants. */
  lemma RenderSucceedsIff(place: Place, live: Tree, certs: seq<RenderedCert>, faults: Faults)
    requires Faultless(faults)
    ensures RenderSpec(place, live, certs, faults).err.None? <==>
      place.baseDir != "" && Unblocked(live, AllFiles(place.liveDir, certs))
  {
    var files := AllFiles(place.liveDir, certs);
    WriteSucceedsIff(live, files, faults, |files|);
    assert files[..|files|] == files;
    var now := Replay(live, WriteUpTo(live, files, faults, |files|).log);
    var names := Sorting.SortedSet(now.Keys);
    PruneSucceeds(now, names, NamesOf(files), faults, |names|);
  }

  // ----- failure

  /** What has gone wrong when a Render ends with this error. */
  ghost predicate Cause(place: Place, live: Tree, files: seq<FileSpec>, faults: Faults, e: RenderError) {
    match e
    case EmptyBaseDir => place.baseDir == ""
    case MkdirFailed => faults.mkLive || faults.mkStaging
    case StageFailed(n) => exists i: nat :: i < |files| && files[i].name == n && faults.File(i).stage
    case ChmodFailed(n) => exists i: nat :: i < |files| && files[i].name == n && faults.File(i).chmod
    case RenameFailed(n) => Blocked(live, n) || exists i: nat :: i < |files| && files[i].name == n && faults.File(i).rename
    case ReadDirFailed => faults.readDir
    case RemoveFailed(n) => n !in NamesOf(files) && exists i: nat :: faults.Remove(i)
  }

  lemma {:induction false} WriteErrorCause(place: Place, live: Tree, files: seq<FileSpec>, faults: Faults, j: nat)
    requires j <= |files| && WriteUpTo(live, files, faults, j).err.Some?
    ensures Cause(place, live, files, faults, WriteUpTo(live, files, faults, j).err.value)
    decreases j
  {
    hide WriteUpTo, Replay, Blocked, Holds, NamesOf;
    NothingYet(live, files, [], {}, faults);
    if j > 0 {
      WriteNext(live, files, faults, j - 1);
      if WriteUpTo(live, files, faults, j - 1).err.Some? {
        WriteErrorCause(place, live, files, faults, j - 1);
      } else {
        WriteKeepsBlocked(live, files, faults, j - 1, files[j - 1].name);
      }
    }
  }

  lemma {:induction false} PruneErrorCause(place: Place, live: Tree, names: seq<string>, files: seq<FileSpec>, faults: Faults, j: nat)
    requires j <= |names| && PruneUpTo(live, names, NamesOf(files), faults, j).err.Some?
    ensures forall first :: Cause(place, first, files, faults, PruneUpTo(live, names, NamesOf(files), faults, j).err.value)
    decreases j
  {
    hide PruneUpTo, Replay, NamesOf;
    NothingYet(live, files, names, NamesOf(files), faults);
    if j > 0 {
      PruneNext(live, names, NamesOf(files), faults, j - 1);
      if PruneUpTo(live, names, NamesOf(files), faults, j - 1).err.Some? { PruneErrorCause(place, live, names, files, faults, j - 1); }
    }
  }

  /** No error without its cause. */
  lemma RenderErrorCause(place: Place, live: Tree, certs: seq<RenderedCert>, faults: Faults)
    requires RenderSpec(place, live, certs, faults).err.Some?
    ensures Cause(place, live, AllFiles(place.liveDir, certs), faults, RenderSpec(place, live, certs, faults).err.value)
  {
    hide AllFiles, WriteUpTo, PruneUpTo, Replay;
    var files := AllFiles(place.liveDir, certs);
    var w := WriteUpTo(live, files, faults, |files|);
    if place.baseDir != "" && !faults.mkLive && !faults.mkStaging {
      if w.err.Some? {
        WriteErrorCause(place, live, files, faults, |files|);
      } else if !faults.readDir {
        var now := Replay(live, w.log);
        var names := Sorting.SortedSet(now.Keys);
        PruneErrorCause(place, now, names, files, faults, |names|);
      }
    }
  }

  /** A directory that cannot be made or listed is an error. */
  lemma DirectoryFaultStops(place: Place, live: Tree, certs: seq<RenderedCert>, faults: Faults)
    ensures var run := RenderSpec(place, live, certs, faults);
      && (place.baseDir == "" <==> run.err == Some(EmptyBaseDir))
      && (place.baseDir != "" && (faults.mkLive || faults.mkStaging) <==> run.err == Some(MkdirFailed))
      && (place.baseDir == "" || faults.mkLive || faults.mkStaging ==> run.log == [])
      && (faults.readDir ==> run.err.Some?)
  {
    hide AllFiles, WriteUpTo, Replay;
    if RenderSpec(place, live, certs, faults).err.Some? { RenderErrorCause(place, live, certs, faults); }
  }

  /** A file that is missing, wrong or unreadable, and cannot be staged, made private or renamed, ends the
      Render with that error, before any further edit. */
  lemma FileFaultStops(place: Place, live: Tree, certs: seq<RenderedCert>, faults: Faults, i: nat)
    requires place.baseDir != "" && !faults.mkLive && !faults.mkStaging && i < |AllFiles(place.liveDir, certs)|
    requires WriteUpTo(live, AllFiles(place.liveDir, certs), faults, i).err.None?
    requires var files := AllFiles(place.liveDir, certs);
      var v := ViewOf(Replay(live, WriteUpTo(live, files, faults, i).log));
      faults.File(i).read || files[i].name !in v || v[files[i].name] != files[i].data
    requires faults.File(i).stage || faults.File(i).chmod || faults.File(i).rename
    ensures var files, run := AllFiles(place.liveDir, certs), RenderSpec(place, live, certs, faults);
      && run.log == WriteUpTo(live, files, faults, i).log
      && run.err == Some(if faults.File(i).stage then StageFailed(files[i].name)
                         else if faults.File(i).chmod then ChmodFailed(files[i].name) else RenameFailed(files[i].name))
  {
    hide AllFiles, WriteUpTo, PruneAll, Replay;
    var files := AllFiles(place.liveDir, certs);
    WriteStep(live, files, faults, i, |files|);
  }

  /** A file that nobody wants and that cannot be removed ends the Render with that error, after what was
      removed before it. */
  lemma RemoveFaultStops(place: Place, live: Tree, certs: seq<RenderedCert>, faults: Faults, j: nat)
    requires place.baseDir != "" && !faults.mkLive && !faults.mkStaging && !faults.readDir && faults.Remove(j)
    requires var files := AllFiles(place.liveDir, certs);
      var w := WriteUpTo(live, files, faults, |files|);
      var now := Replay(live, w.log);
      var names := Sorting.SortedSet(now.Keys);
      && w.err.None? && j < |names| && PruneUpTo(now, names, NamesOf(files), faults, j).err.None?
      && names[j] in ViewOf(Replay(now, PruneUpTo(now, names, NamesOf(files), faults, j).log)) && names[j] !in NamesOf(files)
    ensures var files := AllFiles(place.liveDir, certs);
      var w := WriteUpTo(live, files, faults, |files|);
      var now := Replay(live, w.log);
      var names := Sorting.SortedSet(now.Keys);
      var run := RenderSpec(place, live, certs, faults);
      run.err == Some(RemoveFailed(names[j])) && run.log == w.log + PruneUpTo(now, names, NamesOf(files), faults, j).log
  {
    hide AllFiles, WriteUpTo, PruneUpTo, Replay;
    var files := AllFiles(place.liveDir, certs);
    var now := Replay(live, WriteUpTo(live, files, faults, |files|).log);
    PruneStep(now, Sorting.SortedSet(now.Keys), NamesOf(files), faults, j);
  }

  lemma {:induction false} WritesPut(live: Tree, files: seq<FileSpec>, faults: Faults, j: nat)
    requires j <= |files|
    ensures forall e | e in WriteUpTo(live, files, faults, j).log :: e.Put?
    decreases j
  {
    hide WriteUpTo, Replay, Holds, Blocked;
    NothingYet(live, files, [], {}, faults);
    if j > 0 {
      WritesPut(live, files, faults, j - 1);
      WriteNext(live, files, faults, j - 1);
    }
  }

  /** A Render that fails reports a change exactly if it has written a file; removals before one that
      fails are not reported. */
  lemma ChangedOnError(place: Place, live: Tree, certs: seq<RenderedCert>, faults: Faults)
    requires RenderSpec(place, live, certs, faults).err.Some?
    ensures var run := RenderSpec(place, live, certs, faults);
      run.changed <==> exists e :: e in run.log && e.Put?
  {
    hide AllFiles, WriteUpTo, PruneUpTo, Replay;
    var files := AllFiles(place.liveDir, certs);
    var w := WriteUpTo(live, files, faults, |files|);
    WritesPut(live, files, faults, |files|);
    if w.log != [] { assert w.log[0] in w.log; }
    if w.err.None? {
      var now := Replay(live, w.log);
      var names := Sorting.SortedSet(now.Keys);
      PruneLogIs(now, names, NamesOf(files), faults, |names|);
    }
  }
}
