/** From the issuer's file, through the store, into every gateway's directory. */
module EndToEnd {
  import opened Wrappers
  import opened Acme
  import opened Live
  import opened Render
  import opened RenderLaws
  import opened RenderSafety
  import opened RenderEconomy
  import opened Downloader
  import opened DownloaderLaws
  import opened CacheExactness
  import AL = AcmeLaws
  import GR = GatewayRuns
  import U = Uploader
  import UL = UploaderLaws
  import UR = UploaderRuns
  import US = UploaderShutdown

  /** The history of the key: absent, then one object for each content the store was given. */
  ghost predicate Records(hist: History, versions: seq<Bytes>) {
    && |hist| == |versions| + 1 && hist[0] == None
    && forall i | 0 <= i < |versions| :: hist[i + 1].Some? && hist[i + 1].value.body == versions[i]
  }

  /** What decodes as an acme.json is valid JSON, and white space is not. */
  ghost predicate JsonAware(c: U.Config, codec: Codec) {
    forall b :: (codec.unmarshal(b).Some? ==> c.valid(b)) && (Blank(b) ==> !c.valid(b))
  }

  // ----- where rendered certificates come from

  /** Every edit of this step renders the certificates of a body the store held, read at version g. */
  ghost predicate RendersStored(site: Site, hist: History, s: Gateway, a: Attempt, step: Step)
    requires Fits(hist, a)
  {
    step.log != [] ==>
      && hist[a.g].Some? && Parse(site.codec, hist[a.g].value.body).Success?
      && step.log == RenderSpec(site.place, s.live, Parse(site.codec, hist[a.g].value.body).value, a.faults).log
  }

  lemma RecordedAt(hist: History, versions: seq<Bytes>, i: nat)
    requires Records(hist, versions) && i < |versions|
    ensures hist[i + 1].Some? && hist[i + 1].value.body == versions[i]
  {
    var body := versions[i];
  }

  lemma StoredIsValid(c: U.Config, s0: U.State, script: seq<U.Label>, n: nat, hist: History, v: nat)
    requires U.Initial(s0) && n <= |script| && Records(hist, U.Exec(c, s0, script, n).versions)
    requires |s0.versions| < v < |hist|
    ensures hist[v].Some? && c.valid(hist[v].value.body)
  {
    hide U.Exec;
    UL.StoreGainsValid(c, s0, script, n);
    var versions := U.Exec(c, s0, script, n).versions;
    RecordedAt(hist, versions, v - 1);
  }

  /** Once the issuer has put anything, only what it put reaches a gateway, whatever its file passes
      through: each edit renders a parsed body that was in the store, and none is found blank. */
  lemma OnlyStoredIsRendered(c: U.Config, s0: U.State, script: seq<U.Label>, n: nat,
                             site: Site, hist: History, s: Gateway, a: Attempt)
    requires U.Initial(s0) && n <= |script| && Records(hist, U.Exec(c, s0, script, n).versions)
    requires JsonAware(c, site.codec) && Fits(hist, a) && |s0.versions| < a.h
    ensures AttemptStep(site, hist, s, a).result != RenderedEmpty
    ensures RendersStored(site, hist, s, a, AttemptStep(site, hist, s, a))
  {
    hide U.Exec, RenderSpec, Parse, Blank, Records;
    StoredIsValid(c, s0, script, n, hist, a.h);
    StoredIsValid(c, s0, script, n, hist, a.g);
  }

  // ----- when a gateway empties its directory

  /** Nothing but an index without entries. */
  ghost predicate Emptied(site: Site, live: Tree) {
    ViewOf(live) == TargetOf(site.place.liveDir, [])
  }

  lemma GoalOfValid(c: U.Config, site: Site, o: Option<Object>)
    requires JsonAware(c, site.codec) && o.Some? && c.valid(o.value.body)
    ensures GoalCerts(site, o) ==
      match Parse(site.codec, o.value.body) case Success(certs) => Some(certs) case Failure(_) => None
  {
    hide Parse, Blank;
  }

  /** Since the issuer has put anything, at no instant, of an attempt or of one cut off by a death, does a
      directory become empty, but by a version that parses to no certificates. */
  lemma EmptiedOnlyByNothing(c: U.Config, s0: U.State, script: seq<U.Label>, n: nat,
                             site: Site, hist: History, s: Gateway, e: Event, k: nat)
    requires U.Initial(s0) && n <= |script| && Records(hist, U.Exec(c, s0, script, n).versions)
    requires JsonAware(c, site.codec) && Fits(hist, e.a) && |s0.versions| < e.a.h
    requires k <= |EventStep(site, hist, s, e).log| && !Emptied(site, s.live)
    requires Emptied(site, Replay(s.live, EventStep(site, hist, s, e).log[..k]))
    ensures hist[e.a.g].Some? && Parse(site.codec, hist[e.a.g].value.body) == Result.Success([])
  {
    hide U.Exec, EventStep, Parse, Blank, Records, GoalCerts, Replay, ViewOf, TargetOf;
    StoredIsValid(c, s0, script, n, hist, e.a.h);
    StoredIsValid(c, s0, script, n, hist, e.a.g);
    GR.EmptiedOnlyBy(site, hist, s, e, k);
    GoalOfValid(c, site, hist[e.a.g]);
  }

  /** Over every run, an attempt that does not fail, whether it fetches or skips, leaves an empty directory
      exactly when the version it answers for parses to no certificates. */
  lemma EmptiesIff(c: U.Config, s0: U.State, script: seq<U.Label>, n: nat,
                   site: Site, hist: History, g: Gateway, events: seq<Event>, a: Attempt)
    requires U.Initial(s0) && n <= |script| && Records(hist, U.Exec(c, s0, script, n).versions)
    requires JsonAware(c, site.codec) && Truthful(site, hist) && Started(g) && ValidRun(hist, events + [Try(a)])
    requires |s0.versions| < a.h
    ensures AllFit(hist, events) && Fits(hist, a)
    ensures var step := AttemptStep(site, hist, Exec(site, hist, g, events), a);
      var o := hist[Version(hist, a, step.result)];
      !step.result.Failed? ==>
        o.Some? && (Emptied(site, step.after.live) <==> Parse(site.codec, o.value.body) == Result.Success([]))
  {
    hide U.Exec, Exec, AttemptStep, Parse, Blank, Records, GoalCerts, ViewOf, TargetOf, Truthful;
    RunSplits(hist, events, a);
    AttemptsMatchFetching(site, hist, g, events, a);
    StoredIsValid(c, s0, script, n, hist, a.h);
    StoredIsValid(c, s0, script, n, hist, a.g);
    GoalOfValid(c, site, hist[a.h]);
    GoalOfValid(c, site, hist[a.g]);
    var r := Version(hist, a, AttemptStep(site, hist, Exec(site, hist, g, events), a).result);
    if GoalCerts(site, hist[r]).Some? && GoalCerts(site, hist[r]).value != [] {
      SomethingIsNotNothing(site.place.liveDir, GoalCerts(site, hist[r]).value);
    }
  }

  // ----- convergence

  /** After `events`, attempt a reads the newest version and nothing gets in its way. */
  ghost predicate ReadsNewest(site: Site, hist: History, g: Gateway, events: seq<Event>, a: Attempt, certs: seq<RenderedCert>) {
    && Truthful(site, hist) && Started(g) && ValidRun(hist, events + [Try(a)]) && AllFit(hist, events)
    && a.h == a.g == |hist| - 1 && !a.headFails && !a.getFails && !a.bodyFails && Faultless(a.faults)
    && site.place.baseDir != "" && Unblocked(Exec(site, hist, g, events).live, AllFiles(site.place.liveDir, certs))
  }

  /** ... and leaves exactly the files of these certificates. */
  ghost predicate Serves(site: Site, hist: History, g: Gateway, events: seq<Event>, a: Attempt, certs: seq<RenderedCert>)
    requires AllFit(hist, events) && Fits(hist, a)
  {
    var step := AttemptStep(site, hist, Exec(site, hist, g, events), a);
    !step.result.Failed? && ViewOf(step.after.live) == TargetOf(site.place.liveDir, certs)
  }

  /** Whatever a gateway has been through, one undisturbed attempt gives it these certificates. */
  ghost predicate Delivered(site: Site, versions: seq<Bytes>, certs: seq<RenderedCert>) {
    forall hist, g, events, a | Records(hist, versions) && ReadsNewest(site, hist, g, events, a, certs) ::
      Fits(hist, a) && Serves(site, hist, g, events, a, certs)
  }

  lemma CleanBody(site: Site, hist: History, s: Gateway, a: Attempt, certs: seq<RenderedCert>)
    requires Fits(hist, a) && a.h == a.g && hist[a.g].Some? && !Blank(hist[a.g].value.body)
    requires Parse(site.codec, hist[a.g].value.body) == Result.Success(certs)
    requires !a.headFails && !a.getFails && !a.bodyFails && Faultless(a.faults)
    requires site.place.baseDir != "" && Unblocked(s.live, AllFiles(site.place.liveDir, certs))
    ensures !AttemptStep(site, hist, s, a).result.Failed?
    ensures Goal(site, hist[a.g]) == Some(TargetOf(site.place.liveDir, certs))
  {
    hide RenderSpec, AllFiles, Parse, Blank, Faultless, TargetOf;
    RenderSucceedsIff(site.place, s.live, certs, a.faults);
  }

  /** A store whose newest content parses delivers it. */
  lemma NewestDelivered(site: Site, versions: seq<Bytes>, buf: Bytes, certs: seq<RenderedCert>)
    requires U.Stored(versions) == Some(buf) && !Blank(buf) && Parse(site.codec, buf) == Result.Success(certs)
    ensures Delivered(site, versions, certs)
  {
    hide Blank, Parse, AllFiles, TargetOf, Goal, AttemptStep, Truthful, Exec, ViewOf, Faultless, Unblocked;
    forall hist, g, events, a | Records(hist, versions) && ReadsNewest(site, hist, g, events, a, certs)
      ensures Fits(hist, a) && Serves(site, hist, g, events, a, certs)
    {
      RunSplits(hist, events, a);
      AttemptsMatchFetching(site, hist, g, events, a);
      CleanBody(site, hist, Exec(site, hist, g, events), a, certs);
    }
  }

  /** Once the issuer is quiet with a Path that it has read and that parses, one undisturbed attempt brings any gateway,
      from any state it can be in, to exactly the files that Path calls for. */
  lemma Convergence(c: U.Config, s0: U.State, script: seq<U.Label>, n: nat, site: Site)
    requires UL.CollisionFree(c) && U.Initial(s0) && n <= |script| && JsonAware(c, site.codec)
    ensures var s := U.Exec(c, s0, script, n);
      s.ctxLive && s.phase.Idle? && !UL.Pending(s.deadline, s.queue) && !s.unread && s.file.Some? && Parse(site.codec, s.file.value).Success? ==>
        Delivered(site, s.versions, Parse(site.codec, s.file.value).value)
  {
    hide U.Exec, UL.Pending, Delivered, UL.CollisionFree, Blank;
    UL.Quiescence(c, s0, script, n);
    var s := U.Exec(c, s0, script, n);
    if s.ctxLive && s.phase.Idle? && !UL.Pending(s.deadline, s.queue) && !s.unread && s.file.Some? && Parse(site.codec, s.file.value).Success? {
      NewestDelivered(site, s.versions, s.file.value, Parse(site.codec, s.file.value).value);
    }
  }

  /** ... and such quiet can always be reached: if the issuer's file parses and nobody disturbs the
      process, it can go on, by itself, to a point from which every gateway gets that file. */
  lemma IssuedCanReachEveryGateway(c: U.Config, s0: U.State, before: seq<U.Label>, site: Site) returns (script: seq<U.Label>)
    requires UL.CollisionFree(c) && U.Initial(s0) && JsonAware(c, site.codec)
    requires var s := U.Exec(c, s0, before, |before|);
      && s.ctxLive && !s.phase.Stopped? && !s.phase.Booting? && s.file.Some? && Parse(site.codec, s.file.value).Success?
      && (s.phase.Idle? && s.unread ==> UL.Pending(s.deadline, s.queue))
    ensures UR.Undisturbed(script)
    ensures var file := U.Exec(c, s0, before, |before|).file.value;
      Delivered(site, U.Exec(c, s0, before + script, |before + script|).versions, Parse(site.codec, file).value)
  {
    hide U.Exec, UL.Pending, Delivered, UL.CollisionFree, Blank, Parse, JsonAware;
    script := UR.CanSettle(c, s0, before);
    Convergence(c, s0, before + script, |before + script|, site);
  }

  // ----- the empty file

  /** An acme.json without complete entries, such as `{}`, is valid JSON and parses.  Written over a good
      one, it passes the uploader's gate and can go on to empty every gateway. */
  lemma EmptyFileReachesEveryGateway(c: U.Config, s0: U.State, older: Bytes, empty: Bytes, f: AcmeFile, ev: U.FsEvent, site: Site)
    returns (script: seq<U.Label>)
    requires UL.CollisionFree(c) && U.Initial(s0) && JsonAware(c, site.codec) && s0.versions == [older] && U.Announces(ev)
    requires site.codec.unmarshal(empty) == Some(f)
    requires forall name, j | AL.Position(f, name, j) :: !AL.Complete(f[name][j])
    ensures UR.Undisturbed(script)
    ensures var all := US.STARTED + [U.Write(empty, ev)] + script;
      Delivered(site, U.Exec(c, s0, all, |all|).versions, [])
  {
    hide U.Exec, U.Next, UL.CollisionFree, Blank, Parse, JsonAware, Delivered;
    var before := US.STARTED + [U.Write(empty, ev)];
    AL.ParsesToNothingIff(site.codec, empty, f);
    US.StartsIdle(c, s0, older);
    var s := U.Exec(c, s0, US.STARTED, 3);
    UR.ExecThen(c, s0, US.STARTED, U.Write(empty, ev));
    US.WriteIs(c, s, empty, ev);
    assert (s.queue + [ev])[|s.queue|] == ev;
    script := IssuedCanReachEveryGateway(c, s0, before, site);
  }

  /** A gateway that holds certificates, and then meets such a version, is left with an empty index. */
  lemma EmptyFileEmptiesGateway(site: Site, first: Object, empty: Object)
    requires site.place.baseDir != "" && Fetchable(site, Some(first)) && Fetchable(site, Some(empty))
    requires first.headEtag != "" && empty.headEtag != first.headEtag
    requires Parse(site.codec, first.body).value != [] && Parse(site.codec, empty.body).value == []
    ensures var hist := [None, Some(first), Some(empty)];
      var s := AttemptStep(site, hist, FRESH, Asking(1, 1, NO_FAULTS)).after;
      var step := AttemptStep(site, hist, s, Asking(2, 2, NO_FAULTS));
      && s.lastEtag == first.headEtag && ViewOf(s.live) == TargetOf(site.place.liveDir, Parse(site.codec, first.body).value)
      && !Emptied(site, s.live) && step.result == Rendered && Emptied(site, step.after.live)
  {
    hide RenderSpec, Parse, Blank, ViewOf, TargetOf;
    var hist := [None, Some(first), Some(empty)];
    var s := AttemptStep(site, hist, FRESH, Asking(1, 1, NO_FAULTS)).after;
    Remembers(site, hist, 1, 1, first.headEtag);
    SomethingIsNotNothing(site.place.liveDir, Parse(site.codec, first.body).value);
    CleanRenders(site.place, s.live, []);
  }
}
