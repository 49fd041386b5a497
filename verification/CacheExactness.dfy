/** The exact condition for the etag cache to be sound: for every history of the store whatsoever,
    no run skips over wrong contents if and only if the store's etags are truthful. */
module CacheExactness {
  import opened Wrappers
  import opened Acme
  import opened IndexFile
  import opened IndexIdentity
  import opened Live
  import opened Render
  import opened RenderLaws
  import opened RenderSafety
  import opened RenderEconomy
  import opened Downloader
  import opened DownloaderLaws

  // ----- a Render that disagrees with a directory can be made to show

  /** Every file asked for is one that the view holds. */
  ghost predicate Agrees(files: seq<FileSpec>, v: View) {
    forall f | f in files :: f.name in v && v[f.name] == f.data
  }

  lemma {:induction false} FilesMapFrom(files: seq<FileSpec>)
    ensures forall n | n in FilesMap(files) :: exists f :: f in files && f.name == n && f.data == FilesMap(files)[n]
    decreases |files|
  {
    if files != [] {
      var init, last := files[..|files| - 1], files[|files| - 1];
      FilesMapFrom(init);
      assert last in files;
      assert forall f | f in init :: f in files;
    }
  }

  lemma NamesFromStems(liveDir: string, a: seq<RenderedCert>, b: seq<RenderedCert>)
    requires Stems(a) == Stems(b)
    ensures NamesOf(AllFiles(liveDir, b)) <= NamesOf(AllFiles(liveDir, a))
  {
    hide AllFiles, Stems;
    var fa, fb, stems := AllFiles(liveDir, a), AllFiles(liveDir, b), Stems(a);
    AllFilesLaidOut(liveDir, a);
    AllFilesLaidOut(liveDir, b);
    forall f | f in fb ensures f.name in NamesOf(fa) {
      var j :| 0 <= j < |fb| && fb[j] == f;
      FileName(fa, stems, a, j);
      FileName(fb, stems, b, j);
      assert fa[j] in fa;
    }
  }

  /** A list whose files all agree with the target of another calls for exactly that target. */
  lemma AgreeingIsSame(liveDir: string, a: seq<RenderedCert>, b: seq<RenderedCert>)
    requires Agrees(AllFiles(liveDir, a), TargetOf(liveDir, b))
    ensures ClashFree(AllFiles(liveDir, a)) && TargetOf(liveDir, a) == TargetOf(liveDir, b)
  {
    hide AllFiles, IndexText, Entries, Stems;
    var fa := AllFiles(liveDir, a);
    IndexIsLast(liveDir, a, |fa|);
    IndexIsLast(liveDir, b, |AllFiles(liveDir, b)|);
    FilesMapFrom(fa);
    SameIndexSameStems(liveDir, a, b);
    NamesFromStems(liveDir, a, b);
    NamesFromStems(liveDir, b, a);
    assert TargetOf(liveDir, a).Keys == TargetOf(liveDir, b).Keys;
  }

  lemma {:induction false} NothingToWrite(live: Tree, files: seq<FileSpec>, faults: Faults, j: nat)
    requires j <= |files| && forall i | 0 <= i < j :: faults.File(i) == NO_FILE_FAULTS && Holds(live, files[i])
    ensures WriteUpTo(live, files, faults, j) == Outcome([], None)
    decreases j
  {
    if j > 0 { NothingToWrite(live, files, faults, j - 1); }
  }

  /** The calls after the one for file j that could fail, do. */
  function BreakAfter(j: nat, n: nat): Faults {
    Faults(false, false, seq(n, i => if i <= j then NO_FILE_FAULTS else FileFaults(true, true, false, false)), true, [])
  }

  lemma BreaksAfter(live: Tree, files: seq<FileSpec>, j: nat)
    requires j < |files| && !Blocked(live, files[j].name) && !Holds(live, files[j])
    requires forall i | 0 <= i < j :: Holds(live, files[i])
    ensures var run := ReconcileSpec(live, files, BreakAfter(j, |files|));
      run.log == [Put(files[j].name, files[j].data)] && run.err.Some?
  {
    hide WriteUpTo, PruneUpTo, Replay, Holds;
    var faults := BreakAfter(j, |files|);
    NothingToWrite(live, files, faults, j);
    NothingYet(live, files, [], {}, faults);
    WriteNext(live, files, faults, j);
    assert [] + [Put(files[j].name, files[j].data)] == [Put(files[j].name, files[j].data)];
    if j + 1 < |files| { WriteStep(live, files, faults, j + 1, |files|); }
  }

  /** If live/ does not agree with what a Render asks for, some failing Render of it shows. */
  lemma BreakRender(place: Place, live: Tree, certs: seq<RenderedCert>) returns (faults: Faults)
    requires place.baseDir != "" && forall n | n in live :: live[n].File?
    requires !Agrees(AllFiles(place.liveDir, certs), ViewOf(live))
    ensures var run := RenderSpec(place, live, certs, faults);
      run.err.Some? && run.log != [] && ViewOf(Replay(live, run.log)) != ViewOf(live)
  {
    hide AllFiles;
    var files := AllFiles(place.liveDir, certs);
    var j := FirstDisagreement(live, files);
    faults := BreakAfter(j, |files|);
    BreaksAfter(live, files, j);
    ReplayOne(live, Put(files[j].name, files[j].data));
    assert files[j].name in ViewOf(Replay(live, [Put(files[j].name, files[j].data)]));
  }

  lemma FirstDisagreement(live: Tree, files: seq<FileSpec>) returns (j: nat)
    requires !Agrees(files, ViewOf(live))
    ensures j < |files| && !Holds(live, files[j]) && forall i | 0 <= i < j :: Holds(live, files[i])
  {
    j := 0;
    while j < |files| && Holds(live, files[j])
      invariant j <= |files| && forall i | 0 <= i < j :: Holds(live, files[i])
    {
      j := j + 1;
    }
    if j == |files| {
      forall f | f in files ensures f.name in ViewOf(live) && ViewOf(live)[f.name] == f.data {
        var i :| 0 <= i < |files| && files[i] == f;
        assert Holds(live, files[i]);
      }
    }
  }

  // ----- attempts without failed requests

  function Asking(h: nat, g: nat, faults: Faults): Attempt {
    Attempt(h, g, false, false, false, faults, 0, 0.0)
  }

  /** An attempt that gets past its Head renders what it reads, and remembers what it completes. */
  lemma AskingRenders(site: Site, hist: History, s: Gateway, a: Attempt)
    requires Fits(hist, a) && a == Asking(a.h, a.g, a.faults)
    requires s.lastEtag == "" || GetsPast(hist, a.h, Source(hist, a), s.lastEtag)
    requires GoalCerts(site, hist[Source(hist, a)]).Some?
    ensures var step := AttemptStep(site, hist, s, a);
      && Renders(site, hist, s, a, step, Source(hist, a))
      && (step.result.Failed? ==> step.after.lastEtag == s.lastEtag)
      && (!step.result.Failed? && hist[a.h].Some? && Fetchable(site, hist[a.g]) ==>
            step.after.lastEtag == (if HeadTag(hist, a.h) != "" then HeadTag(hist, a.h) else hist[a.g].value.getEtag))
  {
    hide RenderSpec, Parse, Blank;
  }

  lemma CleanRenders(place: Place, live: Tree, certs: seq<RenderedCert>)
    requires place.baseDir != "" && forall n | n in live :: live[n].File?
    ensures var run := RenderSpec(place, live, certs, NO_FAULTS);
      && run.err.None?
      && ViewOf(Replay(live, run.log)) == TargetOf(place.liveDir, certs)
      && forall n | n in Replay(live, run.log) :: Replay(live, run.log)[n].File?
  {
    hide RenderSpec, AllFiles, TargetOf, ViewOf;
    assert Unblocked(live, AllFiles(place.liveDir, certs));
    RenderSucceedsIff(place, live, certs, NO_FAULTS);
    RenderExact(place, live, certs, NO_FAULTS);
    FilesStayFiles(live, RenderSpec(place, live, certs, NO_FAULTS).log);
  }

  lemma {:induction false} FilesStayFiles(t: Tree, edits: seq<Edit>)
    requires forall n | n in t :: t[n].File?
    ensures forall n | n in Replay(t, edits) :: Replay(t, edits)[n].File?
    decreases |edits|
  {
    if edits != [] { FilesStayFiles(t, edits[..|edits| - 1]); }
  }

  const FRESH := Gateway("", 0, map[])

  /** A new gateway can come to remember any etag that can be remembered. */
  lemma Remembers(site: Site, hist: History, v: nat, y: nat, etag: string)
    requires site.place.baseDir != "" && Remembered(site, hist, v, y, etag)
    ensures var s := AttemptStep(site, hist, FRESH, Asking(v, y, NO_FAULTS)).after;
      s.lastEtag == etag && Goal(site, hist[y]) == Some(ViewOf(s.live)) && forall n | n in s.live :: s.live[n].File?
  {
    hide AttemptStep, RenderSpec, TargetOf, ViewOf, Fetchable;
    FetchableSome(site, hist[y]);
    var a := Asking(v, y, NO_FAULTS);
    AskingRenders(site, hist, FRESH, a);
    CleanRenders(site.place, FRESH.live, GoalCerts(site, hist[y]).value);
    RenderedGoal(site, hist, FRESH, a, AttemptStep(site, hist, FRESH, a), y);
  }

  // ----- unsound runs

  ghost predicate SkipSound(site: Site, hist: History, s: Gateway, a: Attempt)
    requires Fits(hist, a)
  {
    AttemptStep(site, hist, s, a).result.Skipped? ==> Goal(site, hist[a.h]) == Some(ViewOf(s.live))
  }

  /** Whatever a gateway has been through since it started, if its next attempt skips the fetch then
      live/ is what the current version calls for. */
  ghost predicate SkipsSound(site: Site, hist: History) {
    forall s, events, a | Started(s) && ValidRun(hist, events + [Try(a)]) && AllFit(hist, events) && Fits(hist, a) ::
      SkipSound(site, hist, Exec(site, hist, s, events), a)
  }

  lemma OneEvent(site: Site, hist: History, s: Gateway, a: Attempt)
    requires Fits(hist, a)
    ensures AllFit(hist, [Try(a)]) && Exec(site, hist, s, [Try(a)]) == AttemptStep(site, hist, s, a).after
  {
    hide AttemptStep;
    assert [Try(a)][..0] == [];
  }

  lemma TwoEvents(site: Site, hist: History, s: Gateway, a: Attempt, b: Attempt)
    requires Fits(hist, a) && Fits(hist, b)
    ensures AllFit(hist, [Try(a), Try(b)])
    ensures Exec(site, hist, s, [Try(a), Try(b)]) == AttemptStep(site, hist, AttemptStep(site, hist, s, a).after, b).after
  {
    hide AttemptStep;
    OneEvent(site, hist, s, a);
    assert [Try(a), Try(b)][..1] == [Try(a)];
  }

  /** A gateway that remembers the etag of w over other contents skips w unsoundly. */
  lemma SkipsUnsoundly(site: Site, hist: History, s: Gateway, w: nat)
    requires w < |hist| && s.lastEtag != "" && HeadTag(hist, w) == s.lastEtag
    requires Goal(site, hist[w]) != Some(ViewOf(s.live))
    ensures !SkipSound(site, hist, s, Asking(w, w, NO_FAULTS))
  {
    hide Goal, ViewOf, EmptyStep, BodyStep;
  }

  /** ... one fetch away, */
  lemma UnsoundFetch(site: Site, hist: History, v: nat, y: nat, w: nat) returns (events: seq<Event>, a: Attempt)
    requires site.place.baseDir != "" && y <= w < |hist| && Remembered(site, hist, v, y, HeadTag(hist, w))
    requires Goal(site, hist[w]) != Goal(site, hist[y])
    ensures |events| <= 2 && ValidRun(hist, events + [Try(a)]) && AllFit(hist, events) && Fits(hist, a)
    ensures !SkipSound(site, hist, Exec(site, hist, FRESH, events), a)
  {
    hide Goal, ViewOf, AttemptStep, Fetchable, Exec, SkipSound;
    var first := Asking(v, y, NO_FAULTS);
    events, a := [Try(first)], Asking(w, w, NO_FAULTS);
    Remembers(site, hist, v, y, HeadTag(hist, w));
    OneEvent(site, hist, FRESH, first);
    SkipsUnsoundly(site, hist, Exec(site, hist, FRESH, events), w);
  }

  lemma NotSteadyDisagrees(site: Site, hist: History, r: nat, w: nat)
    requires r < |hist| && w < |hist| && GoalCerts(site, hist[r]).Some? && Goal(site, hist[w]).Some?
    requires !Steady(site, hist, r, w)
    ensures !Agrees(AllFiles(site.place.liveDir, GoalCerts(site, hist[r]).value), Goal(site, hist[w]).value)
  {
    hide AllFiles, ClashFree, TargetOf, Agrees, Parse, Blank;
    var liveDir, a, b := site.place.liveDir, GoalCerts(site, hist[r]).value, GoalCerts(site, hist[w]).value;
    if Agrees(AllFiles(liveDir, a), TargetOf(liveDir, b)) { AgreeingIsSame(liveDir, a, b); }
  }

  /** ... or one fetch and one Render that fails half way. */
  lemma UnsoundRerender(site: Site, hist: History, v: nat, y: nat, r: nat, w: nat) returns (events: seq<Event>, a: Attempt)
    requires site.place.baseDir != "" && y <= r <= w < |hist| && Remembered(site, hist, v, y, HeadTag(hist, w))
    requires Goal(site, hist[w]) == Goal(site, hist[y])
    requires Reaches(site, hist, y, r, HeadTag(hist, w)) && !Steady(site, hist, r, w)
    ensures |events| <= 2 && ValidRun(hist, events + [Try(a)]) && AllFit(hist, events) && Fits(hist, a)
    ensures !SkipSound(site, hist, Exec(site, hist, FRESH, events), a)
  {
    hide Goal, GoalCerts, ViewOf, AttemptStep, Fetchable, Exec, SkipSound, Steady, AllFiles, Agrees, RenderSpec, Replay;
    var etag := HeadTag(hist, w);
    var h :| y <= h && GetsPast(hist, h, r, etag);
    var first := Asking(v, y, NO_FAULTS);
    Remembers(site, hist, v, y, etag);
    FetchableSome(site, hist[y]);
    var s := AttemptStep(site, hist, FRESH, first).after;
    NotSteadyDisagrees(site, hist, r, w);
    var faults := BreakRender(site.place, s.live, GoalCerts(site, hist[r]).value);
    var second := Asking(h, r, faults);
    AskingRenders(site, hist, s, second);
    events, a := [Try(first), Try(second)], Asking(w, w, NO_FAULTS);
    TwoEvents(site, hist, FRESH, first, second);
    SkipsUnsoundly(site, hist, Exec(site, hist, FRESH, events), w);
  }

  lemma SkipSoundHere(site: Site, hist: History, s: Gateway, events: seq<Event>, a: Attempt)
    requires Truthful(site, hist) && Started(s) && ValidRun(hist, events + [Try(a)]) && AllFit(hist, events) && Fits(hist, a)
    ensures SkipSound(site, hist, Exec(site, hist, s, events), a)
  {
    hide Goal, GoalCerts, Truthful, ViewOf, Exec;
    RunSplits(hist, events, a);
    CacheInvariant(site, hist, s, events);
    AttemptShape(site, hist, Exec(site, hist, s, events), a);
  }

  /** Without an out-dir nothing is ever fetched to the end, so no etag is remembered. */
  lemma {:induction false} NoOutDir(site: Site, hist: History, s: Gateway, events: seq<Event>)
    requires site.place.baseDir == "" && Started(s) && AllFit(hist, events)
    ensures Exec(site, hist, s, events).lastEtag == ""
    decreases |events|
  {
    hide AttemptStep;
    if events != [] {
      var init, last := events[..|events| - 1], events[|events| - 1];
      NoOutDir(site, hist, s, init);
      NoFetch(site, hist, Exec(site, hist, s, init), last.a);
    }
  }

  lemma NoFetch(site: Site, hist: History, s: Gateway, a: Attempt)
    requires site.place.baseDir == "" && Fits(hist, a)
    ensures AttemptStep(site, hist, s, a).after.lastEtag == s.lastEtag
  {
    hide Parse, Blank, ReconcileSpec;
  }

  /** For every history of the store, whatever its versions hold: every skip of every run is sound
      if and only if each etag that comes back stands for the same files. */
  lemma SkipsSoundIff(site: Site, hist: History)
    ensures SkipsSound(site, hist) <==> site.place.baseDir == "" || Truthful(site, hist)
  {
    hide SkipSound, AllFiles, ViewOf, Exec, TargetOf, ValidRun, Goal, GoalCerts, Remembered, Reaches, Steady;
    if site.place.baseDir == "" {
      forall s, events, a | Started(s) && ValidRun(hist, events + [Try(a)]) && AllFit(hist, events) && Fits(hist, a)
        ensures SkipSound(site, hist, Exec(site, hist, s, events), a)
      {
        NoOutDir(site, hist, s, events);
        NeverSkips(site, hist, Exec(site, hist, s, events), a);
      }
    } else if Truthful(site, hist) {
      forall s, events, a | Started(s) && ValidRun(hist, events + [Try(a)]) && AllFit(hist, events) && Fits(hist, a)
        ensures SkipSound(site, hist, Exec(site, hist, s, events), a)
      {
        SkipSoundHere(site, hist, s, events, a);
      }
    } else {
      var events, a := UnsoundRun(site, hist);
    }
  }

  lemma NeverSkips(site: Site, hist: History, s: Gateway, a: Attempt)
    requires s.lastEtag == "" && Fits(hist, a)
    ensures SkipSound(site, hist, s, a)
  {
    hide Goal, ViewOf, AttemptStep, Renders;
    AttemptShape(site, hist, s, a);
  }

  /** Where etags are not truthful, a gateway that starts on an empty directory can be led to skip
      over wrong contents, by at most two attempts. */
  lemma UnsoundRun(site: Site, hist: History) returns (events: seq<Event>, a: Attempt)
    requires site.place.baseDir != "" && !Truthful(site, hist)
    ensures |events| <= 2 && ValidRun(hist, events + [Try(a)]) && AllFit(hist, events) && Fits(hist, a)
    ensures !SkipSound(site, hist, Exec(site, hist, FRESH, events), a)
  {
    hide SkipSound, Goal, GoalCerts, Remembered, Steady, Exec, ValidRun, Reaches;
    var v, y, w :| 0 <= v <= y <= w < |hist| && Remembered(site, hist, v, y, HeadTag(hist, w)) && !StandsFor(site, hist, y, w);
    if Goal(site, hist[w]) != Goal(site, hist[y]) {
      events, a := UnsoundFetch(site, hist, v, y, w);
    } else {
      var r :| y <= r <= w && Reaches(site, hist, y, r, HeadTag(hist, w)) && !Steady(site, hist, r, w);
      events, a := UnsoundRerender(site, hist, v, y, r, w);
    }
  }

  // ----- content-hash etags

  predicate SameBody(a: Option<Object>, b: Option<Object>) {
    a.Some? && b.Some? && a.value.body == b.value.body
  }

  /** Etags that are hashes of the content, as S3's usually are: the same for Head and Get. */
  ghost predicate ContentEtags(hist: History) {
    && (forall v | 0 <= v < |hist| && hist[v].Some? :: hist[v].value.headEtag == hist[v].value.getEtag != "")
    && forall v, w | 0 <= v < |hist| && 0 <= w < |hist| && hist[v].Some? && hist[w].Some? ::
         HeadTag(hist, v) == HeadTag(hist, w) <==> SameBody(hist[v], hist[w])
  }

  /** No body but o's is there from version y to version x. */
  ghost predicate OnlyBody(hist: History, y: int, x: int, o: Option<Object>) {
    forall h | y <= h <= x && 0 <= h < |hist| && hist[h].Some? :: SameBody(o, hist[h])
  }

  /** Unless two of its files share a name but not their contents, rendering version x over its own
      files never shows. */
  ghost predicate Silent(site: Site, hist: History, x: int)
    requires 0 <= x < |hist| && GoalCerts(site, hist[x]).Some?
  {
    ClashFree(AllFiles(site.place.liveDir, GoalCerts(site, hist[x]).value))
  }

  /** Content that comes back at w, and was remembered at y: whatever can be rendered in between, at x,
      calls for the same files, and silently so if other content was there. */
  ghost predicate Undisturbed(site: Site, hist: History, v: int, y: int, x: int, w: int) {
    0 <= v <= y <= x <= w < |hist| && SameBody(hist[v], hist[w]) && Fetchable(site, hist[y]) && GoalCerts(site, hist[x]).Some? ==>
      Goal(site, hist[x]) == Goal(site, hist[w]) && (OnlyBody(hist, y, x, hist[v]) || Silent(site, hist, x))
  }

  ghost predicate NeverRestored(site: Site, hist: History) {
    forall v, y, x, w :: Undisturbed(site, hist, v, y, x, w)
  }

  lemma TagIsBody(site: Site, hist: History, v: nat, y: nat, w: nat)
    requires ContentEtags(hist) && v <= y <= w < |hist|
    ensures Remembered(site, hist, v, y, HeadTag(hist, w)) <==> SameBody(hist[v], hist[w]) && Fetchable(site, hist[y])
  {
    hide Fetchable;
    if Fetchable(site, hist[y]) { FetchableSome(site, hist[y]); }
    if hist[v].Some? { assert HeadTag(hist, v) != ""; }
    if hist[w].Some? { assert HeadTag(hist, w) != ""; }
  }

  lemma SameBodySameGoal(site: Site, a: Option<Object>, b: Option<Object>)
    requires SameBody(a, b)
    ensures Goal(site, a) == Goal(site, b)
  {
    hide Parse, TargetOf, Blank;
  }

  lemma NothingIsSilent(site: Site, hist: History, x: nat)
    requires x < |hist| && hist[x].None?
    ensures GoalCerts(site, hist[x]) == Some([]) && Silent(site, hist, x)
  {
    hide AllFiles, ClashFree;
    NoFilesClashFree(site.place.liveDir);
  }

  lemma TruthfulIsUndisturbed(site: Site, hist: History, v: nat, y: nat, x: nat, w: nat)
    requires ContentEtags(hist) && Truthful(site, hist) && v <= y <= x <= w < |hist|
    requires SameBody(hist[v], hist[w]) && Fetchable(site, hist[y]) && GoalCerts(site, hist[x]).Some?
    ensures Undisturbed(site, hist, v, y, x, w)
  {
    hide Goal, GoalCerts, Remembered, Fetchable, AllFiles, ClashFree;
    var etag := HeadTag(hist, w);
    TagIsBody(site, hist, v, y, w);
    assert StandsFor(site, hist, y, w);
    if Reaches(site, hist, y, x, etag) {
      assert Steady(site, hist, x, w);
    } else {
      assert !GetsPast(hist, x, x, etag);
      forall h | y <= h <= x && hist[h].Some? ensures SameBody(hist[v], hist[h]) { assert !GetsPast(hist, h, x, etag); }
      SameBodySameGoal(site, hist[x], hist[w]);
    }
  }

  lemma UndisturbedIsTruthful(site: Site, hist: History, v: nat, y: nat, w: nat)
    requires ContentEtags(hist) && NeverRestored(site, hist)
    requires v <= y <= w < |hist| && Remembered(site, hist, v, y, HeadTag(hist, w))
    ensures StandsFor(site, hist, y, w)
  {
    hide Goal, GoalCerts, Remembered, Fetchable, AllFiles, ClashFree, TargetOf;
    var etag := HeadTag(hist, w);
    TagIsBody(site, hist, v, y, w);
    FetchableSome(site, hist[y]);
    assert Undisturbed(site, hist, v, y, y, w);
    forall r | y <= r <= w && Reaches(site, hist, y, r, etag) ensures Steady(site, hist, r, w) {
      var h :| y <= h && GetsPast(hist, h, r, etag);
      assert Undisturbed(site, hist, v, y, r, w);
      if hist[h].None? { NothingIsSilent(site, hist, h); }
      GoalSome(site, hist[r]);
    }
  }

  lemma GoalSome(site: Site, o: Option<Object>)
    ensures Goal(site, o).Some? <==> GoalCerts(site, o).Some?
  {
    hide GoalCerts, TargetOf;
  }

  /** With content-hash etags every skip of every run is sound exactly when no content comes back
      after something that called for other files: for histories of absent, blank, unparsable and
      parsing versions alike. */
  lemma ContentEtagsSoundIff(site: Site, hist: History)
    requires ContentEtags(hist)
    ensures SkipsSound(site, hist) <==> site.place.baseDir == "" || NeverRestored(site, hist)
  {
    hide Goal, GoalCerts, SkipsSound, Remembered, Fetchable, StandsFor, ContentEtags, OnlyBody, Silent;
    SkipsSoundIff(site, hist);
    if Truthful(site, hist) {
      forall v, y, x, w ensures Undisturbed(site, hist, v, y, x, w) {
        if 0 <= v <= y <= x <= w < |hist| && SameBody(hist[v], hist[w]) && Fetchable(site, hist[y]) && GoalCerts(site, hist[x]).Some? {
          TruthfulIsUndisturbed(site, hist, v, y, x, w);
        }
      }
    }
    if NeverRestored(site, hist) {
      forall v, y, w | 0 <= v <= y <= w < |hist| && Remembered(site, hist, v, y, HeadTag(hist, w)) ensures StandsFor(site, hist, y, w) {
        UndisturbedIsTruthful(site, hist, v, y, w);
      }
    }
  }

  // ----- restored content

  /** An object that is replaced, deleted or blanked, and then put back, is skipped over the wrong
      directory, whenever what was there in between called for other files. */
  lemma RestoredContentUnsound(site: Site, o: Object, between: Option<Object>)
    requires site.place.baseDir != "" && o.headEtag != "" && Fetchable(site, Some(o))
    requires GoalCerts(site, between).Some? && Goal(site, between) != Goal(site, Some(o))
    ensures !SkipsSound(site, [Some(o), between, Some(o)])
  {
    hide Goal, GoalCerts, SkipsSound, Fetchable;
    var hist := [Some(o), between, Some(o)];
    SkipsSoundIff(site, hist);
    assert Remembered(site, hist, 0, 0, HeadTag(hist, 2));
    if HeadTag(hist, 1) == o.headEtag {
      assert Remembered(site, hist, 0, 0, HeadTag(hist, 1)) && !StandsFor(site, hist, 0, 1);
    } else {
      assert GetsPast(hist, 1, 1, o.headEtag);
      assert Reaches(site, hist, 0, 1, o.headEtag) && !Steady(site, hist, 1, 2);
      assert !StandsFor(site, hist, 0, 2);
    }
  }

  lemma SomethingIsNotNothing(liveDir: string, certs: seq<RenderedCert>)
    requires certs != []
    ensures TargetOf(liveDir, certs) != TargetOf(liveDir, [])
  {
    hide AllFiles, IndexText, Stems;
    IndexIsLast(liveDir, certs, |AllFiles(liveDir, certs)|);
    IndexIsLast(liveDir, [], |AllFiles(liveDir, [])|);
    if TargetOf(liveDir, certs) == TargetOf(liveDir, []) { SameIndexSameStems(liveDir, certs, []); }
    assert |Stems(certs)| == |certs| && |Stems([])| == 0 by { StemsLength(certs); StemsLength([]); }
  }

  lemma StemsLength(certs: seq<RenderedCert>)
    ensures |Stems(certs)| == |certs|
  {
  }

  /** In particular: deleted or blanked, and then put back. */
  lemma DeletedOrBlankedUnsound(site: Site, o: Object, between: Option<Object>)
    requires site.place.baseDir != "" && o.headEtag != "" && Fetchable(site, Some(o))
    requires Parse(site.codec, o.body).value != [] && (between.None? || Blank(between.value.body))
    ensures !SkipsSound(site, [Some(o), between, Some(o)])
  {
    hide SkipsSound, Parse, Blank, TargetOf;
    SomethingIsNotNothing(site.place.liveDir, Parse(site.codec, o.body).value);
    RestoredContentUnsound(site, o, between);
  }

  /** Garbage in between is harmless, unless two files of o share a name but not their contents: it
      is never rendered, and o is rendered over itself. */
  lemma GarbageBetweenSoundIff(site: Site, o: Object, garbage: Object)
    requires site.place.baseDir != "" && ContentEtags([Some(o), Some(garbage), Some(o)])
    requires Fetchable(site, Some(o)) && GoalCerts(site, Some(garbage)).None?
    ensures SkipsSound(site, [Some(o), Some(garbage), Some(o)]) <==>
      ClashFree(AllFiles(site.place.liveDir, GoalCerts(site, Some(o)).value))
  {
    hide SkipsSound, AllFiles, ClashFree, TargetOf, Parse, Blank;
    var hist := [Some(o), Some(garbage), Some(o)];
    ContentEtagsSoundIff(site, hist);
    assert !SameBody(hist[0], hist[1]) by { GarbageDiffers(site, o, garbage); }
    if NeverRestored(site, hist) {
      assert Undisturbed(site, hist, 0, 0, 2, 2);
    }
    if Silent(site, hist, 0) {
      forall v, y, x, w ensures Undisturbed(site, hist, v, y, x, w) {
        assert 0 <= w < |hist| ==> w == 0 || w == 1 || w == 2;
      }
    }
  }

  lemma GarbageDiffers(site: Site, o: Object, garbage: Object)
    requires Fetchable(site, Some(o)) && GoalCerts(site, Some(garbage)).None?
    ensures !SameBody(Some(o), Some(garbage))
  {
    hide Parse, Blank;
  }
}
