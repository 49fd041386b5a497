/** Whole runs of a gateway: index closure at every instant, versions that never go back, how often
    it fetches, what damage it repairs, and what failures leave alone. */
module GatewayRuns {
  import opened Wrappers
  import opened Acme
  import opened IndexFile
  import opened Live
  import opened Render
  import opened RenderLaws
  import opened RenderSafety
  import opened RenderEconomy
  import opened Downloader
  import opened DownloaderLaws

  // ----- the index, at every instant of every run

  /** An event makes no edit, or a first part of those of a Render of what its version calls for. */
  ghost predicate EditsRender(site: Site, hist: History, s: Gateway, e: Event)
    requires Fits(hist, e.a)
  {
    var step, certs := EventStep(site, hist, s, e), GoalCerts(site, hist[Source(hist, e.a)]);
    step.after.live == Replay(s.live, step.log) &&
    (step.log == [] || (certs.Some? && step.log <= RenderSpec(site.place, s.live, certs.value, e.a.faults).log))
  }

  lemma EventEdits(site: Site, hist: History, s: Gateway, e: Event)
    requires Fits(hist, e.a)
    ensures EditsRender(site, hist, s, e)
  {
    hide RenderSpec, TryStep, AttemptStep, GoalCerts, GetsPast;
    AttemptShape(site, hist, s, e.a);
  }

  /** From a closed index, tls.yml names only files that are there at every instant of every run:
      between any two edits, through failed attempts, and across deaths and restarts. */
  lemma {:induction false} IndexAlwaysClosed(site: Site, hist: History, s: Gateway, events: seq<Event>, e: Event, k: nat)
    requires OneLine(site.place.liveDir) && IndexClosed(site.place.liveDir, ViewOf(s.live))
    requires AllFit(hist, events) && Fits(hist, e.a)
    requires k <= |EventStep(site, hist, Exec(site, hist, s, events), e).log|
    ensures var now := Exec(site, hist, s, events);
      IndexClosed(site.place.liveDir, ViewOf(Replay(now.live, EventStep(site, hist, now, e).log[..k])))
    decreases |events|
  {
    hide EventStep, IndexClosed, RenderSpec, ViewOf, Replay, GoalCerts;
    var now := Exec(site, hist, s, events);
    if events != [] {
      var init, last := events[..|events| - 1], events[|events| - 1];
      var log := EventStep(site, hist, Exec(site, hist, s, init), last).log;
      IndexAlwaysClosed(site, hist, s, init, last, |log|);
      assert log[..|log|] == log;
      EventEdits(site, hist, Exec(site, hist, s, init), last);
    }
    EventEdits(site, hist, now, e);
    var log := EventStep(site, hist, now, e).log;
    var certs := if log == [] then [] else GoalCerts(site, hist[Source(hist, e.a)]).value;
    var full := RenderSpec(site.place, now.live, certs, e.a.faults).log;
    assert log[..k] == full[..k];
    IndexClosedThroughout(site.place, now.live, certs, e.a.faults, k);
  }

  // ----- versions

  /** The versions that one gateway renders never go back, through failures, deaths and restarts:
      each event edits live/ towards one version, and a later event's is no older. */
  lemma VersionsNeverGoBack(site: Site, hist: History, s: Gateway, events: seq<Event>, i: nat, j: nat)
    requires ValidRun(hist, events) && i < j < |events|
    ensures AllFit(hist, events[..i]) && AllFit(hist, events[..j])
    ensures EditsRender(site, hist, Exec(site, hist, s, events[..i]), events[i])
    ensures EditsRender(site, hist, Exec(site, hist, s, events[..j]), events[j])
    ensures Source(hist, events[i].a) <= Source(hist, events[j].a)
  {
    hide EditsRender, Exec;
    EventEdits(site, hist, Exec(site, hist, s, events[..i]), events[i]);
    EventEdits(site, hist, Exec(site, hist, s, events[..j]), events[j]);
  }

  // ----- emptying

  lemma OnlyIndex(liveDir: string)
    ensures TargetOf(liveDir, []).Keys == {INDEX}
  {
    hide AllFiles;
    IndexIsLast(liveDir, [], 0);
    AllFilesLaidOut(liveDir, []);
    var files := AllFiles(liveDir, []);
    assert files == [files[0]];
    PairNames([], files[0], files[0]);
  }

  lemma WrittenStays(files: seq<FileSpec>, v: View, prior: View, i: nat, gone: set<string>)
    requires Shaped(v, prior, files, i, gone) && 0 < i
    ensures files[0].name in v
  {
    hide FilesMap;
    FilesMapKeys(files[..i]);
    assert files[..i][0] == files[0] && files[0] in files[..i] && files[0] in files;
  }

  /** The directory of a Render of some certificates is never without any, unless it was before. */
  lemma ShapedNotEmpty(liveDir: string, certs: seq<RenderedCert>, v: View, prior: View, i: nat, gone: set<string>)
    requires Shaped(v, prior, AllFiles(liveDir, certs), i, gone) && certs != [] && v == TargetOf(liveDir, [])
    ensures v == prior
  {
    hide AllFiles, TargetOf, FilesMap;
    var files := AllFiles(liveDir, certs);
    AllFilesLaidOut(liveDir, certs);
    OnlyIndex(liveDir);
    ExtensionsDiffer(Stems(certs)[0], "");
    if i > 0 {
      WrittenStays(files, v, prior, i, gone);
    } else {
      assert files[..0] == [];
      assert FilesMap([]) == map[] by { NoFilesMap(); }
      assert prior + map[] - {} == prior;
    }
  }

  lemma NoFilesMap()
    ensures FilesMap([]) == map[]
  {
  }

  /** At every instant of every run, only a version that calls for no certificates empties live/: one
      that is absent, blank, or parses to none. */
  lemma EmptiedOnlyBy(site: Site, hist: History, s: Gateway, e: Event, k: nat)
    requires Fits(hist, e.a) && k <= |EventStep(site, hist, s, e).log|
    requires ViewOf(s.live) != TargetOf(site.place.liveDir, [])
    requires ViewOf(Replay(s.live, EventStep(site, hist, s, e).log[..k])) == TargetOf(site.place.liveDir, [])
    ensures GoalCerts(site, hist[Source(hist, e.a)]) == Some([])
  {
    hide EventStep, RenderSpec, ViewOf, TargetOf, GoalCerts, Shaped, AllFiles, Replay;
    var log := EventStep(site, hist, s, e).log;
    EventEdits(site, hist, s, e);
    assert Replay(s.live, []) == s.live by { ReplayNone(s.live); }
    if log != [] {
      var certs := GoalCerts(site, hist[Source(hist, e.a)]).value;
      var full := RenderSpec(site.place, s.live, certs, e.a.faults).log;
      assert log[..k] == full[..k];
      var i, gone := StateShape(site.place, s.live, certs, e.a.faults, k, 0);
      if certs != [] {
        ShapedNotEmpty(site.place.liveDir, certs, ViewOf(StateAt(site.place, s.live, certs, e.a.faults, k)), ViewOf(s.live), i, gone);
      }
    }
  }

  lemma ReplayNone(t: Tree)
    ensures Replay(t, []) == t
  {
  }

  // ----- economy

  /** The versions whose Head led to a complete fetch, in order. */
  ghost function FetchedHeads(site: Site, hist: History, s: Gateway, attempts: seq<Attempt>): seq<nat>
    requires forall a | a in attempts :: Fits(hist, a)
    decreases |attempts|
  {
    if attempts == [] then []
    else
      var init, last := attempts[..|attempts| - 1], attempts[|attempts| - 1];
      FetchedHeads(site, hist, s, init) +
      if AttemptStep(site, hist, Exec(site, hist, s, Tries(init)), last).result.Rendered? then [last.h] else []
  }

  ghost predicate Increasing(xs: seq<nat>) {
    forall i, j | 0 <= i < j < |xs| :: xs[i] < xs[j]
  }

  lemma {:induction false} IncreasingBound(xs: seq<nat>, n: nat)
    requires Increasing(xs) && forall x | x in xs :: x < n
    ensures |xs| <= n
    decreases |xs|
  {
    if xs != [] {
      var last := xs[|xs| - 1];
      assert last in xs;
      IncreasingBound(xs[..|xs| - 1], last);
    }
  }

  ghost predicate InOrder(hist: History, attempts: seq<Attempt>) {
    && (forall a | a in attempts :: Fits(hist, a))
    && forall i, j | 0 <= i < j < |attempts| :: attempts[i].g <= attempts[j].h
  }

  /** Increasing Head versions up to `last`, the newest of which is where `etag` comes from. */
  ghost predicate Economical(hist: History, heads: seq<nat>, last: nat, etag: string) {
    && Increasing(heads) && |heads| <= |hist|
    && (forall x | x in heads :: x <= last && x < |hist|)
    && if heads == [] then etag == "" else assert heads[|heads| - 1] in heads; etag == HeadTag(hist, heads[|heads| - 1])
  }

  ghost predicate HeadsHaveEtags(hist: History) {
    forall v | 0 <= v < |hist| && hist[v].Some? :: hist[v].value.headEtag != ""
  }

  lemma EconomicalStep(hist: History, heads: seq<nat>, last: nat, etag: string, a: Attempt)
    requires HeadsHaveEtags(hist) && Economical(hist, heads, last, etag) && Fits(hist, a) && last <= a.h
    ensures Economical(hist, heads, a.g, etag)
    ensures hist[a.h].Some? && HeadTag(hist, a.h) != etag ==> Economical(hist, heads + [a.h], a.g, HeadTag(hist, a.h))
  {
    if hist[a.h].Some? && HeadTag(hist, a.h) != etag {
      var next := heads + [a.h];
      assert heads != [] ==> heads[|heads| - 1] in heads;
      assert forall x | x in next :: x in heads || x == a.h;
      IncreasingBound(next, |hist|);
    }
  }

  /** A complete fetch remembers the Head etag, a new one; nothing else changes the etag. */
  lemma FetchTags(site: Site, hist: History, s: Gateway, a: Attempt)
    requires HeadsHaveEtags(hist) && Fits(hist, a)
    ensures var step := AttemptStep(site, hist, s, a);
      if step.result.Rendered?
      then hist[a.h].Some? && HeadTag(hist, a.h) != s.lastEtag && step.after.lastEtag == HeadTag(hist, a.h)
      else step.after.lastEtag == s.lastEtag
  {
    hide AttemptStep, Renders, Fetchable;
    AttemptShape(site, hist, s, a);
    if AttemptStep(site, hist, s, a).result.Rendered? { FetchableSome(site, hist[a.g]); }
  }

  /** One more attempt. */
  lemma FetchedStep(site: Site, hist: History, s: Gateway, attempts: seq<Attempt>)
    requires attempts != [] && forall a | a in attempts :: Fits(hist, a)
    ensures var init, last := attempts[..|attempts| - 1], attempts[|attempts| - 1];
      var now, heads := Exec(site, hist, s, Tries(init)), FetchedHeads(site, hist, s, init);
      && Exec(site, hist, s, Tries(attempts)) == AttemptStep(site, hist, now, last).after
      && FetchedHeads(site, hist, s, attempts) == if AttemptStep(site, hist, now, last).result.Rendered? then heads + [last.h] else heads
  {
    hide AttemptStep;
    TriesStep(site, hist, s, attempts, |attempts| - 1);
    assert attempts[..|attempts|] == attempts;
    var init := attempts[..|attempts| - 1];
    assert FetchedHeads(site, hist, s, init) + [] == FetchedHeads(site, hist, s, init);
  }

  /** Where Head reports etags, complete fetches follow strictly increasing Head versions, so one
      process makes no more of them than the store had versions. */
  lemma {:induction false} FetchesIncrease(site: Site, hist: History, s: Gateway, attempts: seq<Attempt>)
    requires Started(s) && HeadsHaveEtags(hist) && InOrder(hist, attempts)
    ensures Economical(hist, FetchedHeads(site, hist, s, attempts),
                       if attempts == [] then 0 else attempts[|attempts| - 1].g,
                       Exec(site, hist, s, Tries(attempts)).lastEtag)
    decreases |attempts|
  {
    hide AttemptStep, Economical;
    if attempts == [] {
      assert Economical(hist, [], 0, "") by { NothingFetched(hist); }
    } else {
      var init, last := attempts[..|attempts| - 1], attempts[|attempts| - 1];
      FetchesIncrease(site, hist, s, init);
      FetchedStep(site, hist, s, attempts);
      var now := Exec(site, hist, s, Tries(init));
      FetchTags(site, hist, now, last);
      EconomicalStep(hist, FetchedHeads(site, hist, s, init), if init == [] then 0 else init[|init| - 1].g, now.lastEtag, last);
    }
  }

  lemma NothingFetched(hist: History)
    ensures Economical(hist, [], 0, "")
  {
  }

  /** What a complete fetch of version v remembers, if it reads v throughout. */
  ghost predicate TagOf(site: Site, hist: History, v: nat, etag: string)
    requires v < |hist|
  {
    Fetchable(site, hist[v]) && hist[v].Some? &&
    etag == if HeadTag(hist, v) != "" then HeadTag(hist, v) else hist[v].value.getEtag
  }

  /** live/ already answers for version v: its etag is remembered, or its files are there, and rendering
      them again is silent. */
  ghost predicate Settled(site: Site, hist: History, s: Gateway, v: nat)
    requires v < |hist|
  {
    (HeadTag(hist, v) != "" && s.lastEtag == HeadTag(hist, v)) ||
    (Goal(site, hist[v]) == Some(ViewOf(s.live)) && NoClash(site, hist[v]))
  }

  /** No two files that this version calls for share a name but not their contents. */
  ghost predicate NoClash(site: Site, o: Option<Object>) {
    match GoalCerts(site, o)
    case None => true
    case Some(certs) => ClashFree(AllFiles(site.place.liveDir, certs))
  }

  /** Nothing in live/ changes; the etag stays, unless it is that of a fetch that was not skipped. */
  ghost predicate Quiet(site: Site, hist: History, s: Gateway, v: nat, after: Gateway)
    requires v < |hist|
  {
    after.live == s.live &&
    (after.lastEtag == s.lastEtag ||
     ((HeadTag(hist, v) == "" || HeadTag(hist, v) != s.lastEtag) && TagOf(site, hist, v, after.lastEtag)))
  }

  lemma SilentRender(place: Place, live: Tree, certs: seq<RenderedCert>, faults: Faults)
    requires ViewOf(live) == TargetOf(place.liveDir, certs) && ClashFree(AllFiles(place.liveDir, certs)) && ReadsWork(faults)
    ensures RenderSpec(place, live, certs, faults).log == []
  {
    hide RenderSpec, TargetOf, ViewOf, AllFiles, ClashFree, ReadsWork;
    NoEditWasted(place, live, certs, faults);
    DistanceZero(live, TargetOf(place.liveDir, certs));
  }

  lemma SettledAttempt(site: Site, hist: History, s: Gateway, a: Attempt)
    requires a.h == a.g < |hist| && ReadsWork(a.faults) && Settled(site, hist, s, a.h)
    ensures var step := AttemptStep(site, hist, s, a);
      step.log == [] && Quiet(site, hist, s, a.h, step.after) && Settled(site, hist, step.after, a.h)
  {
    hide RenderSpec, TargetOf, ViewOf, AllFiles, ClashFree, ReadsWork, AttemptStep, Parse, Blank;
    AttemptShape(site, hist, s, a);
    if Goal(site, hist[a.h]) == Some(ViewOf(s.live)) && NoClash(site, hist[a.h]) {
      SilentRender(site.place, s.live, GoalCerts(site, hist[a.h]).value, a.faults);
    }
  }

  /** While the object stays as it is, a settled gateway makes no edit, and its etag, if it is the
      object's, stays. */
  lemma {:induction false} StableObjectQuiet(site: Site, hist: History, s: Gateway, v: nat, attempts: seq<Attempt>)
    requires v < |hist| && Settled(site, hist, s, v)
    requires forall a | a in attempts :: a.h == a.g == v && ReadsWork(a.faults)
    ensures forall a | a in attempts :: Fits(hist, a)
    ensures var after := Exec(site, hist, s, Tries(attempts));
      Quiet(site, hist, s, v, after) && Settled(site, hist, after, v)
    decreases |attempts|
  {
    hide AttemptStep, Settled, ReadsWork, Fetchable;
    if attempts != [] {
      var init, last := attempts[..|attempts| - 1], attempts[|attempts| - 1];
      StableObjectQuiet(site, hist, s, v, init);
      TriesStep(site, hist, s, attempts, |attempts| - 1);
      assert attempts[..|attempts|] == attempts;
      SettledAttempt(site, hist, Exec(site, hist, s, Tries(init)), last);
    }
  }

  /** One attempt that does not fail settles a gateway on a version with a Head etag, or whose files do
      not clash. */
  lemma CompletedAttemptSettles(site: Site, hist: History, s: Gateway, a: Attempt)
    requires a.h == a.g < |hist| && !AttemptStep(site, hist, s, a).result.Failed?
    requires HeadTag(hist, a.h) == "" && Fetchable(site, hist[a.h]) ==> NoClash(site, hist[a.h])
    ensures Settled(site, hist, AttemptStep(site, hist, s, a).after, a.h)
  {
    hide RenderSpec, TargetOf, ViewOf, AllFiles, ClashFree, Parse, Blank;
    var step := AttemptStep(site, hist, s, a);
    AttemptShape(site, hist, s, a);
    if !step.result.Skipped? {
      RenderedGoal(site, hist, s, a, step, a.h);
      NoFilesClashFree(site.place.liveDir);
    }
  }

  /** A directory that someone else damaged is repaired by the next undisturbed attempt exactly when
      Head does not report the remembered etag. */
  lemma DamageRepairedIff(site: Site, hist: History, s: Gateway, a: Attempt)
    requires a.h == a.g < |hist| && !a.headFails && !a.getFails && !a.bodyFails && Faultless(a.faults)
    requires GoalCerts(site, hist[a.g]).Some? && site.place.baseDir != ""
    requires Unblocked(s.live, AllFiles(site.place.liveDir, GoalCerts(site, hist[a.g]).value))
    requires Goal(site, hist[a.g]) != Some(ViewOf(s.live))
    ensures Goal(site, hist[a.g]) == Some(ViewOf(AttemptStep(site, hist, s, a).after.live)) <==>
      HeadTag(hist, a.h) == "" || HeadTag(hist, a.h) != s.lastEtag
  {
    hide RenderSpec, AllFiles, TargetOf, ViewOf, Parse, Blank, Faultless, Unblocked;
    var certs := GoalCerts(site, hist[a.g]).value;
    RenderSucceedsIff(site.place, s.live, certs, a.faults);
    RenderExact(site.place, s.live, certs, a.faults);
  }

  // ----- failures

  /** lastSync advances exactly on attempts that do not fail.  One that fails leaves lastEtag too, and
      leaves live/ unless it failed inside Render. */
  lemma AttemptFrame(site: Site, hist: History, s: Gateway, a: Attempt)
    requires Fits(hist, a)
    ensures var step := AttemptStep(site, hist, s, a);
      && step.after.lastSync == (if step.result.Failed? then s.lastSync else a.now)
      && (step.result.Failed? ==> step.after == s.(live := step.after.live))
      && (step.result.Failed? && !step.result.why.RenderFailed? ==> step.after == s)
  {
    hide RenderSpec, Replay;
  }

  /** However many attempts fail, and wherever, lastEtag and lastSync stay. */
  lemma {:induction false} FailuresFrame(site: Site, hist: History, s: Gateway, attempts: seq<Attempt>)
    requires (forall a | a in attempts :: Fits(hist, a)) && AllFail(site, hist, s, attempts)
    ensures var after := Exec(site, hist, s, Tries(attempts)); after == s.(live := after.live)
    decreases |attempts|
  {
    hide AttemptStep;
    if attempts != [] {
      var init, last := attempts[..|attempts| - 1], attempts[|attempts| - 1];
      FailuresFrame(site, hist, s, init);
      TriesStep(site, hist, s, attempts, |attempts| - 1);
      assert attempts[..|attempts|] == attempts;
      AttemptFrame(site, hist, Exec(site, hist, s, Tries(init)), last);
    }
  }
}
