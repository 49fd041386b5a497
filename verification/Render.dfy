/** `Render`: reconciling live/ with a list of certificates, one atomic edit at a time, with any
    file operation allowed to fail. */
module Render {
  import opened Wrappers
  import opened Text
  import opened Sorting
  import opened Acme
  import opened Slug
  import opened IndexFile
  import opened Live

  // ----- which files a certificate list asks for

  datatype FileSpec = FileSpec(name: string, data: Bytes)

  const INDEX := "tls.yml"

  function Join(dir: string, name: string): string {
    dir + "/" + name
  }

  function Slugs(certs: seq<RenderedCert>): seq<string> {
    seq(|certs|, i requires 0 <= i < |certs| => Slugify(certs[i].main))
  }

  function Stems(certs: seq<RenderedCert>): seq<string> {
    seq(|certs|, i requires 0 <= i < |certs| => Stem(Slugs(certs), i))
  }

  function CertName(stem: string): string {
    stem + ".crt"
  }

  function KeyName(stem: string): string {
    stem + ".key"
  }

  /** Certificate then key, for the first n certificates in the order of the list. */
  function CertFilesUpTo(stems: seq<string>, certs: seq<RenderedCert>, n: nat): seq<FileSpec>
    requires n <= |certs| == |stems|
  {
    if n == 0 then
      []
    else
      CertFilesUpTo(stems, certs, n - 1) +
      [FileSpec(CertName(stems[n - 1]), certs[n - 1].cert), FileSpec(KeyName(stems[n - 1]), certs[n - 1].key)]
  }

  function CertFiles(certs: seq<RenderedCert>): seq<FileSpec> {
    CertFilesUpTo(Stems(certs), certs, |certs|)
  }

  function EntryOf(liveDir: string, stem: string): Entry {
    Entry(Join(liveDir, CertName(stem)), Join(liveDir, KeyName(stem)))
  }

  function EntriesUpTo(liveDir: string, stems: seq<string>, n: nat): seq<Entry>
    requires n <= |stems|
  {
    if n == 0 then [] else EntriesUpTo(liveDir, stems, n - 1) + [EntryOf(liveDir, stems[n - 1])]
  }

  function Entries(liveDir: string, certs: seq<RenderedCert>): seq<Entry> {
    EntriesUpTo(liveDir, Stems(certs), |certs|)
  }

  /** Everything Render writes, in order: the index comes last. */
  function AllFiles(liveDir: string, certs: seq<RenderedCert>): seq<FileSpec> {
    CertFiles(certs) + [FileSpec(INDEX, IndexText(Entries(liveDir, certs)))]
  }

  ghost function NamesOf(files: seq<FileSpec>): set<string> {
    set f | f in files :: f.name
  }

  // ----- faults

  /** Which of the system calls of one writeFileIfChanged fail. */
  datatype FileFaults = FileFaults(read: bool, stage: bool, chmod: bool, rename: bool)

  const NO_FILE_FAULTS := FileFaults(false, false, false, false)

  /** Which system calls of one Render fail; calls past the end of a list succeed. */
  datatype Faults = Faults(mkLive: bool, mkStaging: bool, files: seq<FileFaults>, readDir: bool, removes: seq<bool>) {
    function File(i: nat): FileFaults {
      if i < |files| then files[i] else NO_FILE_FAULTS
    }

    predicate Remove(i: nat) {
      i < |removes| && removes[i]
    }
  }

  const NO_FAULTS := Faults(false, false, [], false, [])

  datatype RenderError =
    | EmptyBaseDir
    | MkdirFailed
    | StageFailed(name: string)
    | ChmodFailed(name: string)
    | RenameFailed(name: string)
    | ReadDirFailed
    | RemoveFailed(name: string)

  // ----- specification: the edits performed, and how it ends

  datatype Outcome = Outcome(log: seq<Edit>, err: Option<RenderError>)

  ghost predicate Holds(live: Tree, f: FileSpec) {
    f.name in live && live[f.name].File? && live[f.name].data == f.data
  }

  ghost predicate Blocked(live: Tree, name: string) {
    name in live && live[name].Dir?
  }

  ghost function WriteOne(live: Tree, f: FileSpec, faults: FileFaults): Outcome {
    if !faults.read && Holds(live, f) then Outcome([], None)
    else if faults.stage then Outcome([], Some(StageFailed(f.name)))
    else if faults.chmod then Outcome([], Some(ChmodFailed(f.name)))
    else if faults.rename || Blocked(live, f.name) then Outcome([], Some(RenameFailed(f.name)))
    else Outcome([Put(f.name, f.data)], None)
  }

  /** The first j files, stopping at the first error. */
  ghost function WriteUpTo(live: Tree, files: seq<FileSpec>, faults: Faults, j: nat): Outcome
    requires j <= |files|
  {
    if j == 0 then
      Outcome([], None)
    else
      var before := WriteUpTo(live, files, faults, j - 1);
      if before.err.Some? then before
      else
        var one := WriteOne(Replay(live, before.log), files[j - 1], faults.File(j - 1));
        Outcome(before.log + one.log, one.err)
  }

  ghost predicate Stale(live: Tree, keep: set<string>, name: string) {
    name in live && live[name].File? && name !in keep
  }

  ghost function PruneOne(live: Tree, name: string, keep: set<string>, fails: bool): Outcome {
    if !Stale(live, keep, name) then Outcome([], None)
    else if fails then Outcome([], Some(RemoveFailed(name)))
    else Outcome([Del(name)], None)
  }

  /** The first j directory entries, stopping at the first error. */
  ghost function PruneUpTo(live: Tree, names: seq<string>, keep: set<string>, faults: Faults, j: nat): Outcome
    requires j <= |names|
  {
    if j == 0 then
      Outcome([], None)
    else
      var before := PruneUpTo(live, names, keep, faults, j - 1);
      if before.err.Some? then before
      else
        var one := PruneOne(Replay(live, before.log), names[j - 1], keep, faults.Remove(j - 1));
        Outcome(before.log + one.log, one.err)
  }

  ghost function PruneAll(live: Tree, keep: set<string>, faults: Faults): Outcome {
    var names := SortedSet(live.Keys);
    if faults.readDir then Outcome([], Some(ReadDirFailed)) else PruneUpTo(live, names, keep, faults, |names|)
  }

  /** The out-dir and the cleaned path of its live/ subdirectory. */
  datatype Place = Place(baseDir: string, liveDir: string)

  datatype RenderRun = RenderRun(log: seq<Edit>, changed: bool, err: Option<RenderError>)

  /** Both directories exist: write `files`, then remove every other file. */
  ghost function ReconcileSpec(live: Tree, files: seq<FileSpec>, faults: Faults): RenderRun {
    var w := WriteUpTo(live, files, faults, |files|);
    if w.err.Some? then RenderRun(w.log, w.log != [], w.err)
    else
      var p := PruneAll(Replay(live, w.log), NamesOf(files), faults);
      if p.err.Some? then RenderRun(w.log + p.log, w.log != [], p.err)
      else RenderRun(w.log + p.log, w.log + p.log != [], None)
  }

  ghost function RenderSpec(place: Place, live: Tree, certs: seq<RenderedCert>, faults: Faults): RenderRun {
    if place.baseDir == "" then RenderRun([], false, Some(EmptyBaseDir))
    else if faults.mkLive || faults.mkStaging then RenderRun([], false, Some(MkdirFailed))
    else ReconcileSpec(live, AllFiles(place.liveDir, certs), faults)
  }

  // ----- the program

  class OutDir {
    const place: Place
    var liveMade: bool
    var live: Tree
    var staging: map<string, Node>
    ghost var log: seq<Edit>  // every edit of live/ so far, oldest first

    constructor (place: Place, live: Tree)
      ensures this.place == place && this.live == live && staging == map[] && log == [] && liveMade == (live != map[])
    {
      this.place := place;
      this.live := live;
      liveMade := live != map[];
      staging := map[];
      log := [];
    }

    method WriteFileIfChanged(name: string, data: Bytes, faults: FileFaults)
      returns (wrote: bool, err: Option<RenderError>)
      modifies this
      ensures var o := WriteOne(old(live), FileSpec(name, data), faults);
        && live == Replay(old(live), o.log) && log == old(log) + o.log && err == o.err
        && wrote == (o.log != [])
      ensures liveMade == old(liveMade)
      ensures staging - {name + ".tmp"} == old(staging) - {name + ".tmp"}
      ensures err.None? ==> staging.Keys <= old(staging).Keys
      ensures wrote || (err.Some? && !err.value.StageFailed?) ==> name + ".tmp" !in staging
    {
      if !faults.read && name in live && live[name].File? && live[name].data == data {
        return false, None;
      }
      var tmp := name + ".tmp";
      if faults.stage {
        var partial: Bytes := *;
        staging := staging[tmp := File(partial, PRIVATE)];
        return false, Some(StageFailed(name));
      }
      // A left-over temporary file keeps its mode; a new one gets what the umask leaves.
      var umasked: nat :| true;
      var mode: nat := if tmp in staging && staging[tmp].File? then staging[tmp].mode else umasked;
      staging := staging[tmp := File(data, mode)];
      if faults.chmod {
        staging := staging - {tmp};
        return false, Some(ChmodFailed(name));
      }
      staging := staging[tmp := File(staging[tmp].data, PRIVATE)];
      if faults.rename || (name in live && live[name].Dir?) {
        staging := staging - {tmp};
        return false, Some(RenameFailed(name));
      }
      live := live[name := staging[tmp]];
      staging := staging - {tmp};
      log := log + [Put(name, data)];
      ReplayOne(old(live), Put(name, data));
      return true, None;
    }

    /** The body of the pruning loop, for one directory entry. */
    method RemoveIfStale(name: string, keep: set<string>, fails: bool) returns (removed: bool, err: Option<RenderError>)
      modifies this
      ensures var o := PruneOne(old(live), name, keep, fails);
        && live == Replay(old(live), o.log) && log == old(log) + o.log && err == o.err
        && removed == (o.log != [])
      ensures liveMade == old(liveMade) && staging == old(staging)
    {
      if name !in live || live[name].Dir? || name in keep {
        return false, None;
      }
      if fails {
        return false, Some(RemoveFailed(name));
      }
      live := live - {name};
      log := log + [Del(name)];
      ReplayOne(old(live), Del(name));
      return true, None;
    }

    method PruneDir(keep: set<string>, faults: Faults) returns (removed: bool, err: Option<RenderError>)
      modifies this
      ensures var o := PruneAll(old(live), keep, faults);
        && live == Replay(old(live), o.log) && log == old(log) + o.log && err == o.err
        && removed == (o.log != [])
      ensures liveMade == old(liveMade) && staging == old(staging)
    {
      hide PruneUpTo, PruneOne, Replay;
      NothingYet(live, [], SortedSet(live.Keys), keep, faults);
      assert log + [] == log;
      if faults.readDir {
        return false, Some(ReadDirFailed);
      }
      var names := SortedKeys(live);  // os.ReadDir lists a directory in name order
      removed, err := false, None;
      ghost var start := live;
      for i := 0 to |names|
        invariant var o := PruneUpTo(start, names, keep, faults, i);
          o.err.None? && live == Replay(start, o.log) && log == old(log) + o.log && removed == (o.log != [])
        invariant liveMade == old(liveMade) && staging == old(staging)
      {
        PruneStep(start, names, keep, faults, i);
        ghost var done := PruneUpTo(start, names, keep, faults, i).log;
        LogAssoc(old(log), done, PruneOne(live, names[i], keep, faults.Remove(i)).log);
        var gone;
        gone, err := RemoveIfStale(names[i], keep, faults.Remove(i));
        if err.Some? {
          assert done + [] == done;
          return removed, err;
        }
        removed := removed || gone;
      }
      return removed, None;
    }

    /** The usedSlugs test: the first certificate with a slug gets it bare, the nth gets `-n`. */
    method TagSlug(usedSlugs: map<string, nat>, slug: string, ghost certs: seq<RenderedCert>, ghost i: nat)
      returns (used: map<string, nat>, stem: string)
      requires i < |certs| && slug == Slugify(certs[i].main) && usedSlugs == UsedAfter(Slugs(certs), i)
      ensures stem == Stems(certs)[i]
      ensures used == UsedAfter(Slugs(certs), i + 1)
    {
      SlugStep(certs, i);
      if slug in usedSlugs {
        var n := usedSlugs[slug];
        used := usedSlugs[slug := n + 1];
        stem := slug + "-" + Decimal(n + 1);
      } else {
        used := usedSlugs[slug := 1];
        stem := slug;
      }
    }

    /** The naming loop: file names, index entries and the set of names to keep. */
    method LayOut(certs: seq<RenderedCert>) returns (files: seq<FileSpec>, entries: seq<Entry>, keep: set<string>)
      ensures files == CertFiles(certs)
      ensures entries == Entries(place.liveDir, certs)
      ensures keep == NamesOf(files) + {INDEX}
    {
      keep := {"tls.yml"};
      files := [];
      entries := [];
      var usedSlugs: map<string, nat> := map[];
      ghost var stems := Stems(certs);
      for i := 0 to |certs|
        invariant files == CertFilesUpTo(stems, certs, i)
        invariant entries == EntriesUpTo(place.liveDir, stems, i)
        invariant keep == NamesOf(CertFilesUpTo(stems, certs, i)) + {INDEX}
        invariant usedSlugs == UsedAfter(Slugs(certs), i)
      {
        var c := certs[i];
        var slug := SlugifyHost(c.main);
        usedSlugs, slug := TagSlug(usedSlugs, slug, certs, i);
        LayOutStep(stems, certs, i);
        files := files + [FileSpec(CertName(slug), c.cert), FileSpec(KeyName(slug), c.key)];
        keep := keep + {CertName(slug), KeyName(slug)};
        entries := entries + [EntryOf(place.liveDir, slug)];
      }
    }

    /** Step 1 of Render: `all` is what the whole Render writes, `files` all but its last. */
    method WriteCertFiles(files: seq<FileSpec>, ghost all: seq<FileSpec>, faults: Faults)
      returns (changed: bool, err: Option<RenderError>)
      requires files <= all
      modifies this
      ensures var o := WriteUpTo(old(live), all, faults, |files|);
        && live == Replay(old(live), o.log) && log == old(log) + o.log && err == o.err
        && changed == (o.log != [])
      ensures liveMade == old(liveMade)
      ensures err.None? ==> staging.Keys <= old(staging).Keys
    {
      changed, err := false, None;
      ghost var start := live;
      for i := 0 to |files|
        invariant var o := WriteUpTo(start, all, faults, i);
          o.err.None? && live == Replay(start, o.log) && log == old(log) + o.log && changed == (o.log != [])
        invariant liveMade == old(liveMade) && staging.Keys <= old(staging).Keys
      {
        var f := files[i];
        WriteStep(start, all, faults, i, |files|);
        LogAssoc(old(log), WriteUpTo(start, all, faults, i).log, WriteOne(live, f, faults.File(i)).log);
        var wrote;
        wrote, err := WriteFileIfChanged(f.name, f.data, faults.File(i));
        if err.Some? {
          return changed, err;
        }
        changed := changed || wrote;
      }
      err := None;
    }

    method Render(certs: seq<RenderedCert>, faults: Faults) returns (changed: bool, err: Option<RenderError>)
      modifies this
      ensures var run := RenderSpec(place, old(live), certs, faults);
        && live == Replay(old(live), run.log) && log == old(log) + run.log
        && changed == run.changed && err == run.err
      ensures liveMade == (old(liveMade) || (place.baseDir != "" && !faults.mkLive))
      ensures err.None? ==> liveMade && staging.Keys <= old(staging).Keys
    {
      assert log + [] == log;
      if place.baseDir == "" {
        return false, Some(EmptyBaseDir);
      }
      if faults.mkLive {
        return false, Some(MkdirFailed);
      }
      liveMade := true;
      if faults.mkStaging {
        return false, Some(MkdirFailed);
      }
      changed, err := Reconcile(certs, faults);
    }

    /** Render once both directories exist. */
    method Reconcile(certs: seq<RenderedCert>, faults: Faults) returns (changed: bool, err: Option<RenderError>)
      modifies this
      ensures var run := ReconcileSpec(old(live), AllFiles(place.liveDir, certs), faults);
        && live == Replay(old(live), run.log) && log == old(log) + run.log
        && changed == run.changed && err == run.err
      ensures liveMade == old(liveMade)
      ensures err.None? ==> staging.Keys <= old(staging).Keys
    {
      var files, entries, keep := LayOut(certs);
      LayOutEnd(place.liveDir, certs);
      ghost var all, start := AllFiles(place.liveDir, certs), live;
      var n := |files|;

      // Step 1: certificates and keys.
      changed, err := WriteCertFiles(files, all, faults);
      if err.Some? {
        WriteErrorSticks(start, all, faults, n, |all|);
        return changed, err;
      }

      // Step 2: the index.
      var text := BuildIndex(entries);
      WriteStep(start, all, faults, n, |all|);
      LogAssoc(old(log), WriteUpTo(start, all, faults, n).log, WriteOne(live, all[n], faults.File(n)).log);
      var wroteTLS;
      wroteTLS, err := WriteFileIfChanged("tls.yml", text, faults.File(n));
      if err.Some? {
        return changed, err;
      }
      changed := changed || wroteTLS;

      // Step 3: what nothing refers to any more.
      ghost var w := WriteUpTo(start, all, faults, |all|);
      assert live == Replay(start, w.log) && log == old(log) + w.log && w.err.None? && changed == (w.log != []);
      LogsJoin(start, old(log), w.log, PruneAll(live, keep, faults).log);
      var pruned;
      pruned, err := PruneDir(keep, faults);
      if err.Some? {
        return changed, err;
      }
      changed := changed || pruned;
      return changed, None;
    }
  }

  lemma LogAssoc(a: seq<Edit>, b: seq<Edit>, c: seq<Edit>)
    ensures (a + b) + c == a + (b + c)
  {
  }

  lemma LogsJoin(live: Tree, before: seq<Edit>, a: seq<Edit>, b: seq<Edit>)
    ensures Replay(live, a + b) == Replay(Replay(live, a), b)
    ensures (before + a) + b == before + (a + b)
  {
    hide Replay;
    ReplayConcat(live, a, b);
    LogAssoc(before, a, b);
  }

  /** An attempt at one file or directory entry that fails makes no edit. */
  lemma NoEditOnError(live: Tree, f: FileSpec, file: FileFaults, name: string, keep: set<string>, fails: bool)
    ensures WriteOne(live, f, file).err.Some? ==> WriteOne(live, f, file).log == []
    ensures PruneOne(live, name, keep, fails).err.Some? ==> PruneOne(live, name, keep, fails).log == []
  {
  }

  lemma NothingYet(live: Tree, files: seq<FileSpec>, names: seq<string>, keep: set<string>, faults: Faults)
    ensures WriteUpTo(live, files, faults, 0) == Outcome([], None)
    ensures PruneUpTo(live, names, keep, faults, 0) == Outcome([], None)
    ensures Replay(live, []) == live
  {
  }

  /** One more directory entry. */
  lemma PruneNext(live: Tree, names: seq<string>, keep: set<string>, faults: Faults, i: nat)
    requires i < |names|
    ensures var before := PruneUpTo(live, names, keep, faults, i);
      var one := PruneOne(Replay(live, before.log), names[i], keep, faults.Remove(i));
      && PruneUpTo(live, names, keep, faults, i + 1) ==
           (if before.err.Some? then before else Outcome(before.log + one.log, one.err))
  {
    hide PruneOne, Replay;
  }

  /** ... whose error, if any, ends the pruning. */
  lemma PruneStep(live: Tree, names: seq<string>, keep: set<string>, faults: Faults, i: nat)
    requires i < |names| && PruneUpTo(live, names, keep, faults, i).err.None?
    ensures var done := PruneUpTo(live, names, keep, faults, i).log;
      var one := PruneOne(Replay(live, done), names[i], keep, faults.Remove(i));
      && PruneUpTo(live, names, keep, faults, i + 1) == Outcome(done + one.log, one.err)
      && Replay(live, done + one.log) == Replay(Replay(live, done), one.log)
      && (one.err.Some? ==> one.log == [] && PruneUpTo(live, names, keep, faults, |names|) == Outcome(done, one.err))
  {
    hide PruneOne, Replay;
    var done := PruneUpTo(live, names, keep, faults, i).log;
    var one := PruneOne(Replay(live, done), names[i], keep, faults.Remove(i));
    PruneNext(live, names, keep, faults, i);
    ReplayConcat(live, done, one.log);
    NoEditOnError(Replay(live, done), FileSpec("", ""), NO_FILE_FAULTS, names[i], keep, faults.Remove(i));
    if one.err.Some? {
      assert done + one.log == done;
      PruneErrorSticks(live, names, keep, faults, i + 1);
    }
  }

  /** The usedSlugs test finds the stem. */
  lemma SlugStep(certs: seq<RenderedCert>, i: nat)
    requires i < |certs|
    ensures var slugs, used := Slugs(certs), UsedAfter(Slugs(certs), i);
      && slugs[i] == Slugify(certs[i].main)
      && Stems(certs)[i] == if slugs[i] in used then Tagged(slugs[i], used[slugs[i]] + 1) else slugs[i]
  {
    var slugs := Slugs(certs);
    hide Slugify;
    StemFromCounts(slugs, UsedAfter(slugs, i), i);
  }

  lemma StemFromCounts(slugs: seq<string>, used: map<string, nat>, i: nat)
    requires i < |slugs| && used == UsedAfter(slugs, i)
    ensures Stem(slugs, i) == if slugs[i] in used then Tagged(slugs[i], used[slugs[i]] + 1) else slugs[i]
  {
    hide UsedAfter, Tagged;
    UsedCounts(slugs, i, slugs[i]);
    OccurrenceStep(slugs, i);
  }

  lemma LayOutStep(stems: seq<string>, certs: seq<RenderedCert>, i: nat)
    requires i < |certs| == |stems|
    ensures NamesOf(CertFilesUpTo(stems, certs, i + 1)) ==
      NamesOf(CertFilesUpTo(stems, certs, i)) + {CertName(stems[i]), KeyName(stems[i])}
  {
    PairNames(CertFilesUpTo(stems, certs, i), FileSpec(CertName(stems[i]), certs[i].cert), FileSpec(KeyName(stems[i]), certs[i].key));
  }

  lemma LayOutEnd(liveDir: string, certs: seq<RenderedCert>)
    ensures NamesOf(AllFiles(liveDir, certs)) == NamesOf(CertFiles(certs)) + {INDEX}
  {
    var index := FileSpec(INDEX, IndexText(Entries(liveDir, certs)));
    PairNames([], index, index);
    NamesConcat(CertFiles(certs), [index]);
  }

  /** One more file. */
  lemma WriteNext(live: Tree, files: seq<FileSpec>, faults: Faults, i: nat)
    requires i < |files|
    ensures var before := WriteUpTo(live, files, faults, i);
      var one := WriteOne(Replay(live, before.log), files[i], faults.File(i));
      && WriteUpTo(live, files, faults, i + 1) ==
           (if before.err.Some? then before else Outcome(before.log + one.log, one.err))
  {
    hide WriteOne, Replay;
  }

  /** ... whose error, if any, ends the writing. */
  lemma WriteStep(live: Tree, files: seq<FileSpec>, faults: Faults, i: nat, n: nat)
    requires i < n <= |files| && WriteUpTo(live, files, faults, i).err.None?
    ensures var done := WriteUpTo(live, files, faults, i).log;
      var one := WriteOne(Replay(live, done), files[i], faults.File(i));
      && WriteUpTo(live, files, faults, i + 1) == Outcome(done + one.log, one.err)
      && Replay(live, done + one.log) == Replay(Replay(live, done), one.log)
      && (one.err.Some? ==> one.log == [] && WriteUpTo(live, files, faults, n) == Outcome(done, one.err))
  {
    hide WriteOne, Replay;
    var done := WriteUpTo(live, files, faults, i).log;
    var one := WriteOne(Replay(live, done), files[i], faults.File(i));
    WriteNext(live, files, faults, i);
    ReplayConcat(live, done, one.log);
    NoEditOnError(Replay(live, done), files[i], faults.File(i), "", {}, false);
    if one.err.Some? {
      assert done + one.log == done;
      WriteErrorSticks(live, files, faults, i + 1, n);
    }
  }

  /** usedSlugs after the first n certificates. */
  ghost function UsedAfter(slugs: seq<string>, n: nat): map<string, nat>
    requires n <= |slugs|
  {
    if n == 0 then map[]
    else
      var used, slug := UsedAfter(slugs, n - 1), slugs[n - 1];
      used[slug := if slug in used then used[slug] + 1 else 1]
  }

  /** It counts the occurrences met. */
  lemma {:induction false} UsedCounts(slugs: seq<string>, n: nat, x: string)
    requires n <= |slugs|
    ensures var used := UsedAfter(slugs, n);
      multiset(slugs[..n])[x] == (if x in used then used[x] else 0) && (x in used ==> used[x] >= 1)
    decreases n
  {
    if n > 0 {
      UsedCounts(slugs, n - 1, x);
      OccurrenceStep(slugs, n - 1);
    }
  }

  lemma NamesConcat(a: seq<FileSpec>, b: seq<FileSpec>)
    ensures NamesOf(a + b) == NamesOf(a) + NamesOf(b)
  {
    assert forall f :: f in a + b <==> f in a || f in b;
  }

  lemma PairNames(files: seq<FileSpec>, a: FileSpec, b: FileSpec)
    ensures NamesOf(files + [a, b]) == NamesOf(files) + {a.name, b.name}
    ensures NamesOf([a]) == {a.name}
  {
    assert [a][0] in [a];
    assert forall f :: f in files + [a, b] <==> f in files || f == a || f == b;
  }

  lemma {:induction false} WriteErrorSticks(live: Tree, files: seq<FileSpec>, faults: Faults, j: nat, n: nat)
    requires j <= n <= |files| && WriteUpTo(live, files, faults, j).err.Some?
    ensures WriteUpTo(live, files, faults, n) == WriteUpTo(live, files, faults, j)
    decreases n
  {
    if j < n { WriteErrorSticks(live, files, faults, j, n - 1); }
  }

  lemma {:induction false} PruneErrorSticks(live: Tree, names: seq<string>, keep: set<string>, faults: Faults, j: nat)
    requires j <= |names| && PruneUpTo(live, names, keep, faults, j).err.Some?
    ensures PruneUpTo(live, names, keep, faults, |names|) == PruneUpTo(live, names, keep, faults, j)
    decreases |names| - j
  {
    if j < |names| { PruneErrorSticks(live, names, keep, faults, j + 1); }
  }
}
