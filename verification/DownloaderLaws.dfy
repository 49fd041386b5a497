/** The etag cache is sound: over every run, a gateway that skips a fetch holds what fetching
    would have given it, exactly when the store's etags tell the truth. */
module DownloaderLaws {
  import opened Wrappers
  import opened Text
  import opened Acme
  import opened IndexFile
  import opened Live
  import opened Render
  import opened RenderLaws
  import opened RenderSafety
  import opened RenderEconomy
  import opened Downloader

  // ----- what a version calls for

  /** The certificates of a state of the store: none while it is absent or blank; a body that does
      not parse calls for nothing at all. */
  ghost function GoalCerts(site: Site, o: Option<Object>): Option<seq<RenderedCert>> {
    match o
    case None => Some([])
    case Some(obj) =>
      if Blank(obj.body) then Some([])
      else
        match Parse(site.codec, obj.body)
        case Failure(_) => None
        case Success(certs) => Some(certs)
  }

  /** What live/ holds once a downloader that always fetches has read this version. */
  ghost function Goal(site: Site, o: Option<Object>): Option<View> {
    match GoalCerts(site, o)
    case None => None
    case Some(certs) => Some(TargetOf(site.place.liveDir, certs))
  }

  // ----- how an attempt ends

  /** White space and nothing else, character by character. */
  predicate WhiteOnly(body: Bytes) {
    forall ch | ch in body :: ch in WHITE_SPACE
  }

  lemma BlankIff(body: Bytes)
    ensures Blank(body) <==> WhiteOnly(body)
  {
    TrimEmptyIff(body);
    forall ch: char ensures IsSpace(ch) <==> ch in WHITE_SPACE { SpacesAre(ch); }
  }

  /** Head finds an object whose etag is not the remembered one. */
  predicate PastHead(hist: History, s: Gateway, a: Attempt)
    requires a.h < |hist|
  {
    !a.headFails && hist[a.h].Some? && (hist[a.h].value.headEtag == "" || hist[a.h].value.headEtag != s.lastEtag)
  }

  /** ... and Get finds one too, and its body can be read. */
  predicate HasBody(hist: History, s: Gateway, a: Attempt)
    requires a.h < |hist| && a.g < |hist|
  {
    PastHead(hist, s, a) && !a.getFails && hist[a.g].Some? && !a.bodyFails
  }

  /** Each way in which an attempt can end, short of a Render, and when exactly it ends so. */
  lemma AttemptEnds(site: Site, hist: History, s: Gateway, a: Attempt)
    requires Fits(hist, a)
    ensures var result := AttemptStep(site, hist, s, a).result;
      && (result.Skipped? <==> !a.headFails && hist[a.h].Some? && !PastHead(hist, s, a))
      && (result == Failed(HeadFailed) <==> a.headFails)
      && (result == Failed(GetFailed) <==> PastHead(hist, s, a) && a.getFails)
      && (result == Failed(BodyFailed) <==> PastHead(hist, s, a) && !a.getFails && hist[a.g].Some? && a.bodyFails)
      && (forall e :: result == Failed(ParseFailed(e)) <==>
            HasBody(hist, s, a) && !WhiteOnly(hist[a.g].value.body) && Parse(site.codec, hist[a.g].value.body) == Failure(e))
      && (result.RenderedEmpty? ==>
            && !a.headFails
            && (hist[a.h].None? || hist[a.g].None? || (HasBody(hist, s, a) && WhiteOnly(hist[a.g].value.body))))
      && (!a.headFails && hist[a.h].None? ==> result.RenderedEmpty? || (result.Failed? && result.why.RenderFailed?))
      && (result.Rendered? ==> HasBody(hist, s, a) && !WhiteOnly(hist[a.g].value.body))
  {
    hide RenderSpec, Parse, Blank, WhiteOnly;
    if hist[a.g].Some? { BlankIff(hist[a.g].value.body); }
  }

  /** A body of white space only, and no other, empties the directory as if there were no object: the
      attempt succeeds, and remembers no etag. */
  lemma WhiteSpaceRendersEmpty(site: Site, hist: History, s: Gateway, a: Attempt)
    requires Fits(hist, a) && HasBody(hist, s, a)
    requires site.place.baseDir != "" && Faultless(a.faults) && Unblocked(s.live, AllFiles(site.place.liveDir, []))
    ensures var step := AttemptStep(site, hist, s, a);
      && (step.result.RenderedEmpty? <==> WhiteOnly(hist[a.g].value.body))
      && (step.result.RenderedEmpty? ==>
            ViewOf(step.after.live) == TargetOf(site.place.liveDir, []) &&
            step.after.lastEtag == s.lastEtag && step.after.lastSync == a.now)
  {
    hide RenderSpec, AllFiles, Parse, Blank, WhiteOnly, Faultless, Unblocked, TargetOf, ViewOf;
    BlankIff(hist[a.g].value.body);
    RenderSucceedsIff(site.place, s.live, [], a.faults);
    if WhiteOnly(hist[a.g].value.body) { RenderExact(site.place, s.live, [], a.faults); }
  }

  // ----- truthful etags

  /** Version v answers some read with this etag. */
  ghost predicate Has(hist: History, v: int, etag: string) {
    0 <= v < |hist| && hist[v].Some? && etag != "" && (hist[v].value.headEtag == etag || hist[v].value.getEtag == etag)
  }

  ghost function HeadTag(hist: History, v: int): string
    requires 0 <= v < |hist|
  {
    if hist[v].Some? then hist[v].value.headEtag else ""
  }

  /** Versions x and w call for the same files, and rendering them twice is silent. */
  ghost predicate Steady(site: Site, hist: History, x: int, w: int)
    requires 0 <= x < |hist| && 0 <= w < |hist|
  {
    && Goal(site, hist[w]).Some? && Goal(site, hist[x]) == Goal(site, hist[w])
    && ClashFree(AllFiles(site.place.liveDir, GoalCerts(site, hist[x]).value))
  }

  /** A complete fetch of this version remembers an etag: its body is not blank, and it parses. */
  ghost predicate Fetchable(site: Site, o: Option<Object>) {
    o.Some? && !Blank(o.value.body) && Parse(site.codec, o.value.body).Success?
  }

  /** What a complete fetch remembers after Head read version v and Get version y. */
  ghost predicate Remembered(site: Site, hist: History, v: int, y: int, etag: string) {
    && 0 <= v <= y < |hist| && hist[v].Some? && Fetchable(site, hist[y])
    && etag != "" && etag == (if HeadTag(hist, v) != "" then HeadTag(hist, v) else hist[y].value.getEtag)
  }

  /** An attempt whose Head reads version h gets past it to version r, although `etag` is remembered. */
  ghost predicate GetsPast(hist: History, h: int, r: int, etag: string) {
    0 <= h <= r < |hist| && if hist[h].None? then h == r else HeadTag(hist, h) != etag
  }

  /** From version y on, something can still be rendered from version r while `etag` is remembered. */
  ghost predicate Reaches(site: Site, hist: History, y: int, r: int, etag: string) {
    && 0 <= y <= r < |hist| && GoalCerts(site, hist[r]).Some?
    && exists h :: y <= h && GetsPast(hist, h, r, etag)
  }

  /** An etag remembered at version y stands for the files of version w: y called for them, and so
      did everything that could have been rendered since. */
  ghost predicate StandsFor(site: Site, hist: History, y: int, w: int)
    requires 0 <= y <= w < |hist|
  {
    && Goal(site, hist[w]) == Goal(site, hist[y])
    && forall r | y <= r <= w && Reaches(site, hist, y, r, HeadTag(hist, w)) :: Steady(site, hist, r, w)
  }

  /** Whenever Head reports a remembered etag again, it stands for the same files. */
  ghost predicate Truthful(site: Site, hist: History) {
    forall v, y, w | 0 <= v <= y <= w < |hist| && Remembered(site, hist, v, y, HeadTag(hist, w)) :: StandsFor(site, hist, y, w)
  }

  /** No etag is ever used for two versions. */
  ghost predicate Fresh(hist: History) {
    forall v, w, e | 0 <= v < w < |hist| && Has(hist, v, e) :: !Has(hist, w, e)
  }

  lemma FreshIsTruthful(site: Site, hist: History)
    requires Fresh(hist)
    ensures Truthful(site, hist)
  {
    hide Goal, GoalCerts, Fetchable, Steady;
    forall v, y, w | 0 <= v <= y <= w < |hist| && Remembered(site, hist, v, y, HeadTag(hist, w))
      ensures StandsFor(site, hist, y, w)
    {
      FetchableSome(site, hist[y]);
      var etag := HeadTag(hist, w);
      assert Has(hist, w, etag) && (Has(hist, v, etag) || Has(hist, y, etag));
      assert y == w;
      assert HeadTag(hist, y) == etag && hist[y].Some?;
    }
  }

  lemma FetchableSome(site: Site, o: Option<Object>)
    requires Fetchable(site, o)
    ensures o.Some? && GoalCerts(site, o).Some? && Goal(site, o).Some?
  {
    hide Blank, Parse, TargetOf;
  }

  // ----- the invariant

  /** lastEtag was remembered at some version up to t; and if it is the Head etag of a version from t
      on, then live/ holds what that version calls for. */
  ghost predicate CacheInv(site: Site, hist: History, s: Gateway, t: int) {
    && (s.lastEtag == "" || exists v, y :: y <= t && Remembered(site, hist, v, y, s.lastEtag))
    && forall w | t <= w < |hist| && w >= 0 && s.lastEtag != "" && HeadTag(hist, w) == s.lastEtag ::
         Goal(site, hist[w]) == Some(ViewOf(s.live))
  }

  /** Rendering what is already there never shows, however it is cut off. */
  lemma SameTargetSteady(place: Place, live: Tree, certs: seq<RenderedCert>, faults: Faults, k: nat)
    requires ViewOf(live) == TargetOf(place.liveDir, certs) && ClashFree(AllFiles(place.liveDir, certs))
    requires k <= |RenderSpec(place, live, certs, faults).log|
    ensures ViewOf(StateAt(place, live, certs, faults, k)) == ViewOf(live)
  {
    var v := ViewOf(StateAt(place, live, certs, faults, k));
    forall n ensures SameAt(v, ViewOf(live), n) { OldOrNew(place, live, certs, faults, k, n); }
    forall n ensures n in v <==> n in ViewOf(live) { assert SameAt(v, ViewOf(live), n); }
    assert v.Keys == ViewOf(live).Keys;
    forall n | n in v ensures v[n] == ViewOf(live)[n] { assert SameAt(v, ViewOf(live), n); }
  }

  /** An attempt that renders the certificates of version r. */
  ghost predicate Renders(site: Site, hist: History, s: Gateway, a: Attempt, step: Step, r: int)
    requires Fits(hist, a) && 0 <= r < |hist|
  {
    && GoalCerts(site, hist[r]).Some?
    && var run := RenderSpec(site.place, s.live, GoalCerts(site, hist[r]).value, a.faults);
      step.log == run.log && step.after.live == Replay(s.live, run.log)
      && (step.result.Failed? <==> run.err.Some?)
  }

  /** The version a completed attempt answers for: what Head read if that ended it, else what Get read. */
  ghost function Version(hist: History, a: Attempt, result: CycleResult): int
    requires Fits(hist, a)
  {
    if result.Skipped? || hist[a.h].None? then a.h else a.g
  }

  /** The version an attempt acts on: the one Head read if that ended it, else the one Get read. */
  ghost function Source(hist: History, a: Attempt): int
    requires Fits(hist, a)
  {
    if hist[a.h].None? then a.h else a.g
  }

  /** An attempt leaves the directory alone or renders what its version calls for; lastEtag changes
      only on a complete fetch, to what that fetch remembers. */
  lemma AttemptShape(site: Site, hist: History, s: Gateway, a: Attempt)
    requires Fits(hist, a)
    ensures var step, r := AttemptStep(site, hist, s, a), Source(hist, a);
      && (step.result.Skipped? ==> step.log == [] && HeadTag(hist, a.h) == s.lastEtag != "" && step.after.live == s.live)
      && (step.result.Failed? && step.log == [] ==> step.after == s)
      && (!step.result.Skipped? && !(step.result.Failed? && step.log == []) ==>
            Renders(site, hist, s, a, step, r) && (s.lastEtag != "" ==> GetsPast(hist, a.h, r, s.lastEtag)))
      && (!step.result.Failed? && !step.result.Skipped? ==> r == Version(hist, a, step.result))
      && (step.result.Rendered? ==>
            && r == a.g && hist[a.h].Some? && Fetchable(site, hist[a.g])
            && step.after.lastEtag == (if HeadTag(hist, a.h) != "" then HeadTag(hist, a.h) else hist[a.g].value.getEtag))
      && (!step.result.Rendered? ==> step.after.lastEtag == s.lastEtag)
  {
    hide RenderSpec, Parse, Blank;
  }

  lemma RenderedGoal(site: Site, hist: History, s: Gateway, a: Attempt, step: Step, r: int)
    requires Fits(hist, a) && 0 <= r < |hist| && Renders(site, hist, s, a, step, r) && !step.result.Failed?
    ensures Goal(site, hist[r]) == Some(ViewOf(step.after.live))
  {
    RenderExact(site.place, s.live, GoalCerts(site, hist[r]).value, a.faults);
  }

  lemma SteadyRender(site: Site, hist: History, s: Gateway, a: Attempt, step: Step, r: int, w: int)
    requires Fits(hist, a) && 0 <= r < |hist| && 0 <= w < |hist| && Renders(site, hist, s, a, step, r)
    requires Steady(site, hist, r, w) && Goal(site, hist[w]) == Some(ViewOf(s.live))
    ensures Goal(site, hist[w]) == Some(ViewOf(step.after.live))
  {
    var certs := GoalCerts(site, hist[r]).value;
    var log := RenderSpec(site.place, s.live, certs, a.faults).log;
    assert log[..|log|] == log;
    SameTargetSteady(site.place, s.live, certs, a.faults, |log|);
  }

  lemma RenderKeepsInv(site: Site, hist: History, s: Gateway, a: Attempt, step: Step, t: int, w: int)
    requires Truthful(site, hist) && CacheInv(site, hist, s, t) && Fits(hist, a) && t <= a.h
    requires Renders(site, hist, s, a, step, Source(hist, a))
    requires a.g <= w < |hist| && s.lastEtag != "" && HeadTag(hist, w) == s.lastEtag
    requires GetsPast(hist, a.h, Source(hist, a), s.lastEtag)
    ensures Goal(site, hist[w]) == Some(ViewOf(step.after.live))
  {
    hide RenderSpec, AllFiles, ClashFree, Steady, Goal, GoalCerts, ViewOf, Fetchable, GetsPast;
    var r := Source(hist, a);
    var v, y :| y <= t && Remembered(site, hist, v, y, s.lastEtag);
    assert StandsFor(site, hist, y, w) && Reaches(site, hist, y, r, s.lastEtag);
    SteadyRender(site, hist, s, a, step, r, w);
  }

  lemma FetchKeepsInv(site: Site, hist: History, s: Gateway, a: Attempt, step: Step)
    requires Truthful(site, hist) && Fits(hist, a) && hist[a.h].Some? && Fetchable(site, hist[a.g])
    requires Renders(site, hist, s, a, step, a.g) && !step.result.Failed?
    requires step.after.lastEtag ==
      assert hist[a.g].Some?; (if HeadTag(hist, a.h) != "" then HeadTag(hist, a.h) else hist[a.g].value.getEtag)
    ensures CacheInv(site, hist, step.after, a.g)
  {
    hide RenderSpec, AllFiles, ClashFree, Steady, Goal, GoalCerts, ViewOf, Renders, Blank, Parse, Reaches;
    RenderedGoal(site, hist, s, a, step, a.g);
    var tag := step.after.lastEtag;
    assert tag == "" || Remembered(site, hist, a.h, a.g, tag);
    forall w | a.g <= w < |hist| && w >= 0 && tag != "" && HeadTag(hist, w) == tag
      ensures Goal(site, hist[w]) == Some(ViewOf(step.after.live))
    {
      assert StandsFor(site, hist, a.g, w);
    }
  }

  /** One event keeps the invariant, at the version it last read. */
  lemma CacheStep(site: Site, hist: History, s: Gateway, e: Event, t: int)
    requires Truthful(site, hist) && CacheInv(site, hist, s, t) && Fits(hist, e.a) && t <= e.a.h
    ensures CacheInv(site, hist, EventStep(site, hist, s, e).after, e.a.g)
  {
    if e.Try? {
      TryKeepsInv(site, hist, s, e.a, t);
    }
  }

  lemma TryKeepsInv(site: Site, hist: History, s: Gateway, a: Attempt, t: int)
    requires Truthful(site, hist) && CacheInv(site, hist, s, t) && Fits(hist, a) && t <= a.h
    ensures CacheInv(site, hist, AttemptStep(site, hist, s, a).after, a.g)
  {
    AttemptShape(site, hist, s, a);
    var step := AttemptStep(site, hist, s, a);
    if step.result.Rendered? {
      FetchKeepsInv(site, hist, s, a, step);
    } else if !step.result.Skipped? && !(step.result.Failed? && step.log == []) {
      forall w | a.g <= w < |hist| && w >= 0 && s.lastEtag != "" && HeadTag(hist, w) == s.lastEtag
        ensures Goal(site, hist[w]) == Some(ViewOf(step.after.live))
      {
        RenderKeepsInv(site, hist, s, a, step, t, w);
      }
    }
  }

  // ----- runs

  /** Reads happen in the order of the versions. */
  ghost predicate ValidRun(hist: History, events: seq<Event>) {
    AllFit(hist, events) && forall i, j | 0 <= i < j < |events| :: events[i].a.g <= events[j].a.h
  }

  ghost function LastRead(events: seq<Event>): int {
    if events == [] then 0 else events[|events| - 1].a.g
  }

  /** A process that has just started on a directory in any state. */
  predicate Started(s: Gateway) {
    s.lastEtag == ""
  }

  /** Every reachable gateway state satisfies the invariant. */
  lemma {:induction false} CacheInvariant(site: Site, hist: History, s: Gateway, events: seq<Event>)
    requires Truthful(site, hist) && Started(s) && ValidRun(hist, events)
    ensures CacheInv(site, hist, Exec(site, hist, s, events), LastRead(events))
    decreases |events|
  {
    if events != [] {
      var init, last := events[..|events| - 1], events[|events| - 1];
      CacheInvariant(site, hist, s, init);
      CacheStep(site, hist, Exec(site, hist, s, init), last, LastRead(init));
    }
  }

  lemma RunSplits(hist: History, events: seq<Event>, a: Attempt)
    requires ValidRun(hist, events + [Try(a)])
    ensures ValidRun(hist, events) && Fits(hist, a) && LastRead(events) <= a.h
  {
    var all := events + [Try(a)];
    assert all[|events|] == Try(a) && Try(a) in all;
    assert forall i | 0 <= i < |events| :: all[i] == events[i];
    assert forall e | e in events :: e in all;
  }

  /** Refinement: in every reachable state, an attempt that does not fail leaves in live/ exactly
      what fetching and rendering the same version would, whether it fetched or skipped. */
  lemma AttemptsMatchFetching(site: Site, hist: History, s: Gateway, events: seq<Event>, a: Attempt)
    requires Truthful(site, hist) && Started(s) && ValidRun(hist, events + [Try(a)])
    ensures AllFit(hist, events) && Fits(hist, a)
    ensures var step := AttemptStep(site, hist, Exec(site, hist, s, events), a);
      !step.result.Failed? ==> Goal(site, hist[Version(hist, a, step.result)]) == Some(ViewOf(step.after.live))
  {
    RunSplits(hist, events, a);
    CacheInvariant(site, hist, s, events);
    MatchesFetching(site, hist, Exec(site, hist, s, events), a, LastRead(events));
  }

  lemma MatchesFetching(site: Site, hist: History, s: Gateway, a: Attempt, t: int)
    requires CacheInv(site, hist, s, t) && Fits(hist, a) && t <= a.h
    ensures var step := AttemptStep(site, hist, s, a);
      !step.result.Failed? ==> Goal(site, hist[Version(hist, a, step.result)]) == Some(ViewOf(step.after.live))
  {
    hide RenderSpec, AllFiles, ClashFree, Goal, GoalCerts, AttemptStep;
    var step := AttemptStep(site, hist, s, a);
    AttemptShape(site, hist, s, a);
    if !step.result.Failed? && !step.result.Skipped? {
      RenderedGoal(site, hist, s, a, step, Source(hist, a));
    }
  }
}
