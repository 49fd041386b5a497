/** What shutdown leaves behind: exactly when the content that Path has at the end survives the next
    boot, for every state, once bootstrap is over, in which ctx can be cancelled. */
module UploaderShutdown {
  import opened Wrappers
  import opened Acme
  import opened Backoff
  import opened Uploader
  import opened UploaderLaws
  import opened UploaderRuns

  // ----- the next boot

  /** The process that starts where s left the world. */
  ghost predicate Restarts(s: State, s': State) {
    Initial(s') && s'.file == s.file && s'.versions == s.versions
  }

  ghost predicate KeptByNextBoot(c: Config, s: State) {
    forall s' | Restarts(s, s') :: Next(c, s', Boot(ANSWERED)).file == s.file
  }

  /** A boot never uploads: it keeps Path exactly when the store is empty or holds the same content. */
  lemma RebootKeepsPathIff(c: Config, s: State)
    ensures KeptByNextBoot(c, s) <==> s.versions == [] || Stored(s.versions) == s.file
  {
    hide Next;
    var next := State(Booting, false, "", 0, None, false, 0, s.file, [], s.versions, [], true, 0, 0, 0, 0, false);
    assert Restarts(s, next);
    forall s' | Restarts(s, s')
      ensures Next(c, s', Boot(ANSWERED)).file == (if s.versions == [] then s.file else Stored(s.versions))
    {
      BootFile(c, s');
    }
  }

  lemma BootFile(c: Config, s: State)
    requires Initial(s)
    ensures Next(c, s, Boot(ANSWERED)).file == if s.versions == [] then s.file else Stored(s.versions)
  {
  }

  // ----- from the moment select receives from ctx.Done

  /** Path is JSON, and new as far as the process knows. */
  predicate IsNews(c: Config, s: State) {
    s.file.Some? && c.valid(s.file.value) && (s.hasHash ==> c.hash(s.file.value) != s.lastHash)
  }

  /** The flush puts: the debounce is armed, and Path can be read, and is news. */
  predicate Flushes(c: Config, s: State, read: bool) {
    s.deadline.Some? && read && IsNews(c, s)
  }

  /** A process that has received from ctx.Done in state s, some undisturbed steps later. */
  ghost predicate ShuttingDown(c: Config, s: State, read: bool, s': State) {
    && s'.file == s.file
    && (s'.versions == s.versions || (Flushes(c, s, read) && Stored(s'.versions) == s.file))
    && (s'.phase.Stopped? || (s'.phase.Putting? && s'.flush && s.file == Some(s'.phase.buf) && Flushes(c, s, read))
                          || (s'.phase.Sleeping? && s'.flush && s.file == Some(s'.phase.buf) && Flushes(c, s, read)))
  }

  lemma StopShutsDown(c: Config, s: State, read: bool)
    requires s.phase.Idle? && !s.ctxLive
    ensures ShuttingDown(c, s, read, Next(c, s, Stop(read)))
    ensures Next(c, s, Stop(read)).phase.Putting? <==> Flushes(c, s, read)
  {
    hide Config.Pacing;
  }

  lemma ShutdownStep(c: Config, s: State, read: bool, s': State, l: Label)
    requires ShuttingDown(c, s, read, s') && (IsWorld(l) ==> l.Advance?)
    ensures ShuttingDown(c, s, read, Next(c, s', l))
  {
    hide BeginUpload, LoopNext, BootEnds, PutEnds, Flushes, Jitter, NextDelay, SessionLive, Config.Pacing;
    if s'.phase.Putting? && l.PutReply? {
      PutChanges(c, s', l.effect, l.ok, l.draw);
    }
  }

  lemma {:induction false} ShutdownRun(c: Config, s: State, read: bool, rest: seq<Label>, n: nat)
    requires s.phase.Idle? && !s.ctxLive && Undisturbed(rest) && n <= |rest|
    ensures ShuttingDown(c, s, read, Exec(c, Next(c, s, Stop(read)), rest, n))
    decreases n
  {
    hide Next, ShuttingDown;
    if n == 0 {
      StopShutsDown(c, s, read);
    } else {
      ShutdownRun(c, s, read, rest, n - 1);
      assert rest[n - 1] in rest;
      ShutdownStep(c, s, read, Exec(c, Next(c, s, Stop(read)), rest, n - 1), rest[n - 1]);
    }
  }

  /** Whatever came before, from the moment ctx.Done is received in any state s, and however the flush
      goes: the next boot keeps Path exactly when the store was empty or already held it, or the
      flush put it and a Put took effect. */
  lemma StopKeepsPathIff(c: Config, s: State, read: bool, rest: seq<Label>)
    requires s.phase.Idle? && !s.ctxLive && Undisturbed(rest)
    ensures var end := Exec(c, Next(c, s, Stop(read)), rest, |rest|);
      KeptByNextBoot(c, end) <==>
        s.versions == [] || Stored(s.versions) == s.file || (Flushes(c, s, read) && end.versions != s.versions)
  {
    hide Next, Exec, KeptByNextBoot, Flushes;
    ShutdownRun(c, s, read, rest, |rest|);
    RebootKeepsPathIff(c, Exec(c, Next(c, s, Stop(read)), rest, |rest|));
  }

  // ----- from the moment of cancellation

  /** Neither before the event loop nor, while ctx lives, during an upload is the debounce armed. */
  ghost predicate Disarmed(s: State) {
    && (s.phase.Booting? || s.phase.Unwatched? || s.phase.Watched? ==> s.deadline.None?)
    && (s.ctxLive && Uploading(s.phase) ==> s.deadline.None?)
    && (s.flush ==> !s.ctxLive)
  }

  lemma LoopDisarmed(c: Config, s: State, l: Label)
    requires Disarmed(s) && s.phase.Idle?
    ensures Disarmed(LoopNext(c, s, l))
  {
    hide BeginUpload, Config.Window, Config.Pacing;
    BeginChanges(c, s.(deadline := None, fires := s.fires + 1));
    BeginChanges(c, s.(flush := true));
  }

  lemma DisarmedStep(c: Config, s: State, l: Label)
    requires Disarmed(s)
    ensures Disarmed(Next(c, s, l))
  {
    hide WorldNext, BeginUpload, PutEnds, LoopNext, SessionLive, NextDelay, Jitter, Config.Pacing;
    NextChanges(c, s, l);
    if s.phase.Idle? { LoopDisarmed(c, s, l); }
  }

  lemma {:induction false} AlwaysDisarmed(c: Config, s0: State, script: seq<Label>, n: nat)
    requires Initial(s0) && n <= |script|
    ensures Disarmed(Exec(c, s0, script, n))
    decreases n
  {
    hide Next;
    if n > 0 {
      AlwaysDisarmed(c, s0, script, n - 1);
      DisarmedStep(c, Exec(c, s0, script, n - 1), script[n - 1]);
    }
  }

  /** How a Put ends: whether the store took it, whether that was reported, and the draw for the sleep. */
  datatype PutEnd = PutEnd(effect: bool, ok: bool, draw: real)

  predicate Possible(e: PutEnd) {
    0.0 <= e.draw < 1.0
  }

  /** ctx is cancelled; what is under way ends; ctx.Done is received; a flush Put, if any, succeeds. */
  function Shutdown(s: State, inFlight: PutEnd, flush: PutEnd): seq<Label> {
    Landing(s, inFlight) + [Stop(true)] + [PutReply(flush.effect, true, flush.draw)]
  }

  /** From cancellation to the head of the loop: through the watch and the initial upload, if they are
      still ahead, and through the Put in flight, or that of the initial upload, if there is one. */
  function Landing(s: State, inFlight: PutEnd): seq<Label> {
    var reply := PutReply(inFlight.effect, inFlight.ok, inFlight.draw);
    match s.phase
    case Unwatched => [Cancel] + [Watch(true)] + [Start(true)] + [reply]
    case Watched => [Cancel] + [Start(true)] + [reply]
    case Putting(_, _, _) => [Cancel] + [reply]
    case _ => [Cancel]
  }

  /** What the store is still asked to take. */
  function InFlight(c: Config, s: State): Option<Bytes> {
    match s.phase
    case Unwatched => if IsNews(c, s) then s.file else None
    case Watched => if IsNews(c, s) then s.file else None
    case Putting(buf, _, _) => Some(buf)
    case _ => None
  }

  /** What it has been given once that has ended. */
  function Landed(c: Config, s: State, inFlight: PutEnd): seq<Bytes> {
    if InFlight(c, s).Some? && (inFlight.effect || inFlight.ok) then s.versions + [InFlight(c, s).value] else s.versions
  }

  /** Bootstrap is over, and the process runs. */
  predicate Cancellable(p: Phase) {
    p.Unwatched? || p.Watched? || p.Idle? || Uploading(p)
  }

  /** At the head of the loop, cancelled, with Path and the debounce as they were in s. */
  ghost predicate AtLoop(s: State, s': State) {
    s'.phase == Idle && !s'.ctxLive && !s'.flush && s'.file == s.file && s'.deadline == s.deadline
  }

  lemma PutLands(c: Config, s: State, inFlight: PutEnd)
    requires s.phase.Putting? && !s.ctxLive && !s.flush && Possible(inFlight)
    ensures var s' := Next(c, s, PutReply(inFlight.effect, inFlight.ok, inFlight.draw));
      AtLoop(s, s') && s'.versions == if inFlight.effect || inFlight.ok then s.versions + [s.phase.buf] else s.versions
  {
    hide PutEnds, Jitter, Config.Pacing;
    PutChanges(c, s, inFlight.effect, inFlight.ok, inFlight.draw);
  }

  lemma StartLands(c: Config, s: State, inFlight: PutEnd)
    requires s.phase.Watched? && !s.ctxLive && !s.flush && Possible(inFlight)
    ensures var s' := Next(c, Next(c, s, Start(true)), PutReply(inFlight.effect, inFlight.ok, inFlight.draw));
      && AtLoop(s, s')
      && s'.versions == if IsNews(c, s) && (inFlight.effect || inFlight.ok) then s.versions + [s.file.value] else s.versions
  {
    hide PutEnds, Jitter, Config.Pacing;
    var s1 := Next(c, s, Start(true));
    if s1.phase.Putting? { PutLands(c, s1, inFlight); }
  }

  /** Cancellation leads back to the head of the loop, abandoning any upload. */
  lemma Lands(c: Config, s: State, inFlight: PutEnd)
    requires s.ctxLive && !s.flush && Possible(inFlight) && Cancellable(s.phase)
    ensures var script := Landing(s, inFlight);
      var s' := Exec(c, s, script, |script|);
      && AtLoop(s, s') && s'.versions == Landed(c, s, inFlight)
      && (s.phase.Idle? ==> s'.hasHash == s.hasHash && s'.lastHash == s.lastHash)
  {
    hide Next, Exec, IsNews;
    var reply := PutReply(inFlight.effect, inFlight.ok, inFlight.draw);
    ExecOne(c, s, Cancel);
    CancelIs(c, s);
    var s1 := Next(c, s, Cancel);
    if s.phase.Putting? {
      ExecThen(c, s, [Cancel], reply);
      PutLands(c, s1, inFlight);
    } else if s.phase.Watched? {
      ExecThen(c, s, [Cancel], Start(true));
      ExecThen(c, s, [Cancel] + [Start(true)], reply);
      StartLands(c, s1, inFlight);
      SameNews(c, s, s1);
    } else if s.phase.Unwatched? {
      ExecThen(c, s, [Cancel], Watch(true));
      ExecThen(c, s, [Cancel] + [Watch(true)], Start(true));
      ExecThen(c, s, [Cancel] + [Watch(true)] + [Start(true)], reply);
      WatchIs(c, s1);
      StartLands(c, Next(c, s1, Watch(true)), inFlight);
      SameNews(c, s, Next(c, s1, Watch(true)));
    }
  }

  lemma CancelIs(c: Config, s: State)
    requires !s.flush
    ensures Next(c, s, Cancel) == s.(ctxLive := false, phase := if s.phase.Sleeping? then Idle else s.phase)
  {
  }

  lemma WatchIs(c: Config, s: State)
    requires s.phase.Unwatched?
    ensures Next(c, s, Watch(true)) == s.(phase := Watched)
  {
  }

  lemma SameNews(c: Config, s: State, s': State)
    requires s'.file == s.file && s'.hasHash == s.hasHash && s'.lastHash == s.lastHash
    ensures IsNews(c, s') == IsNews(c, s)
    ensures IsNews(c, s) ==> s.file.Some?
  {
  }

  /** The flush's first Put succeeds, so the process stops, and Path is in the store if it was put. */
  lemma FlushLands(c: Config, s: State, flush: PutEnd)
    requires s.phase.Idle? && !s.ctxLive && Possible(flush)
    ensures var s' := Next(c, Next(c, s, Stop(true)), PutReply(flush.effect, true, flush.draw));
      s'.phase.Stopped? && (Flushes(c, s, true) ==> s'.versions != s.versions)
  {
    hide PutEnds, BeginUpload, Flushes, Jitter, Config.Pacing, Config.Window;
    StopShutsDown(c, s, true);
    var s1 := Next(c, s, Stop(true));
    if s1.phase.Putting? {
      PutChanges(c, s1, flush.effect, true, flush.draw);
      BeginChanges(c, s.(flush := true));
      assert |s1.versions + [s1.phase.buf]| == |s.versions| + 1;
    }
  }

  /** In every reachable state with ctx live, once bootstrap is over: after cancellation, a readable Path
      and a store that takes the flush, the next boot keeps Path exactly when the store is empty or
      holds it once the Put in flight, or that of the initial upload, has ended, or the process was
      at the head of the loop with the debounce armed and Path is JSON.  During an upload nothing is
      flushed. */
  lemma ShutdownKeepsPathIff(c: Config, s0: State, before: seq<Label>, inFlight: PutEnd, flush: PutEnd)
    requires CollisionFree(c) && Initial(s0) && Possible(inFlight) && Possible(flush)
    requires var s := Exec(c, s0, before, |before|); s.ctxLive && Cancellable(s.phase)
    ensures var s := Exec(c, s0, before, |before|);
      var script := Shutdown(s, inFlight, flush);
      var end, store := Exec(c, s, script, |script|), Landed(c, s, inFlight);
      && end.phase.Stopped? && end.file == s.file
      && (KeptByNextBoot(c, end) <==>
            store == [] || Stored(store) == s.file ||
            (s.phase.Idle? && s.deadline.Some? && s.file.Some? && c.valid(s.file.value)))
  {
    hide Exec, Next, KeptByNextBoot, Landing, InFlight;
    AlwaysDisarmed(c, s0, before, |before|);
    AlwaysHashTrue(c, s0, before, |before|);
    var s := Exec(c, s0, before, |before|);
    Lands(c, s, inFlight);
    assert s.phase.Idle? ==> Landed(c, s, inFlight) == s.versions by { NothingInFlight(c, s); }
    var head, reply := Landing(s, inFlight), PutReply(flush.effect, true, flush.draw);
    var s' := Exec(c, s, head, |head|);
    ExecThen(c, s, head, Stop(true));
    ExecThen(c, s, head + [Stop(true)], reply);
    ExecOne(c, Next(c, s', Stop(true)), reply);
    StopKeepsPathIff(c, s', true, [reply]);
    ShutdownRun(c, s', true, [reply], 1);
    FlushLands(c, s', flush);
  }

  lemma NothingInFlight(c: Config, s: State)
    ensures s.phase.Idle? ==> InFlight(c, s).None?
  {
  }

  /** So a readable JSON Path is lost, even by a shutdown in which nothing fails any more, only if an
      event about it was still queued, or it was being uploaded, or about to be for the first time,
      and no Put of it took effect. */
  lemma LostOnlyIf(c: Config, s0: State, before: seq<Label>, inFlight: PutEnd, flush: PutEnd)
    requires CollisionFree(c) && Initial(s0) && Possible(inFlight) && Possible(flush)
    requires var s := Exec(c, s0, before, |before|);
      s.ctxLive && Cancellable(s.phase) && s.file.Some? && c.valid(s.file.value) && !s.unread
    requires var s := Exec(c, s0, before, |before|);
      var script := Shutdown(s, inFlight, flush);
      !KeptByNextBoot(c, Exec(c, s, script, |script|))
    ensures var s := Exec(c, s0, before, |before|);
      && s.deadline.None?
      && Stored(Landed(c, s, inFlight)) != s.file
      && ((exists ev :: ev in s.queue && Announces(ev)) ||
          ((s.phase.Unwatched? || s.phase.Watched?) && !inFlight.effect && !inFlight.ok) ||
          (s.phase.Putting? && s.file == Some(s.phase.buf) && !inFlight.effect && !inFlight.ok) ||
          (s.phase.Sleeping? && s.file == Some(s.phase.buf)))
  {
    hide Exec, KeptByNextBoot, Landing, CollisionFree;
    AlwaysDisarmed(c, s0, before, |before|);
    AlwaysHashTrue(c, s0, before, |before|);
    Reachable(c, s0, before, |before|);
    ShutdownKeepsPathIff(c, s0, before, inFlight, flush);
    var s := Exec(c, s0, before, |before|);
    if !IsNews(c, s) { OldNews(c, s); }
  }

  /** While ctx lives and nothing is being uploaded, what is JSON and not news is in the store. */
  lemma OldNews(c: Config, s: State)
    requires CollisionFree(c) && HashTrue(c, s) && s.ctxLive && s.file.Some? && c.valid(s.file.value) && !IsNews(c, s)
    ensures s.phase.Unwatched? || s.phase.Watched? ==> Stored(s.versions) == s.file
  {
  }

  // ----- two runs that lose a change

  const SMOOTHLY := PutEnd(true, true, 0.0)

  /** An undisturbed start. */
  const STARTED: seq<Label> := [Boot(ANSWERED), Watch(true), Start(true)]

  lemma StartsIdle(c: Config, s: State, older: Bytes)
    requires Initial(s) && s.versions == [older]
    ensures var s' := Exec(c, s, STARTED, 3);
      && s'.phase == Idle && s'.versions == [older] && s'.queue == [] && s'.deadline.None? && s'.ctxLive && !s'.flush
      && s'.hasHash && s'.lastHash == c.hash(older)
  {
    hide Config.Pacing;
    assert Exec(c, s, STARTED, 1) == BootEnds(c, s, ANSWERED);
    assert Exec(c, s, STARTED, 2) == BootEnds(c, s, ANSWERED).(phase := Watched);
    assert Exec(c, s, STARTED, 3) == BeginUpload(c, Exec(c, s, STARTED, 2), true);
  }

  /** A new content was written but its event not yet received: the debounce is not armed. */
  lemma QueuedChangeIsLost(c: Config, s0: State, older: Bytes, newer: Bytes, ev: FsEvent)
    requires CollisionFree(c) && Initial(s0) && s0.versions == [older] && newer != older && Announces(ev)
    ensures var s := Exec(c, s0, STARTED + [Write(newer, ev)], 4);
      var script := Shutdown(s, SMOOTHLY, SMOOTHLY);
      s.file == Some(newer) && !KeptByNextBoot(c, Exec(c, s, script, |script|))
  {
    hide Exec, KeptByNextBoot, Next, CollisionFree, Shutdown;
    StartsIdle(c, s0, older);
    ExecThen(c, s0, STARTED, Write(newer, ev));
    WriteIs(c, Exec(c, s0, STARTED, 3), newer, ev);
    ShutdownKeepsPathIff(c, s0, STARTED + [Write(newer, ev)], SMOOTHLY, SMOOTHLY);
  }

  lemma WriteIs(c: Config, s: State, newer: Bytes, ev: FsEvent)
    requires Announces(ev) && s.phase.Idle?
    ensures Next(c, s, Write(newer, ev)) == s.(file := Some(newer), queue := s.queue + [ev])
  {
  }

  /** Written, received, and put without success: nothing is queued or armed, and the retry is abandoned. */
  function Abandoned(c: Config, newer: Bytes, ev: FsEvent): seq<Label> {
    [Write(newer, ev), Deliver, Advance(c.Window()), Fire(true), PutReply(false, false, 0.0)]
  }

  lemma Retries(c: Config, s: State, newer: Bytes, ev: FsEvent)
    requires s.phase == Idle && s.queue == [] && s.ctxLive && !s.flush && Announces(ev)
    requires c.valid(newer) && (s.hasHash ==> c.hash(newer) != s.lastHash)
    ensures var s' := Exec(c, s, Abandoned(c, newer, ev), 5);
      && s'.phase.Sleeping? && s'.file == Some(newer) && s'.versions == s.versions && s'.ctxLive
      && s'.queue == [] && s'.deadline.None?
  {
    hide Next, Config.Window, Exec;
    var script := Abandoned(c, newer, ev);
    var wait := c.Window();
    WriteIs(c, s, newer, ev);
    var s1 := s.(file := Some(newer), queue := [ev]);
    assert s.queue + [ev] == [ev];
    var s2 := s1.(queue := [], deadline := Some(s.now + c.Window()), handled := s.handled + 1, handledAt := s.now);
    assert [ev][1..] == [];
    assert Next(c, s1, Deliver) == s2 by { DeliverStep(c, s1); }
    WaitStep(c, s2, wait);
    var s3 := s2.(now := s.now + wait);
    var s4 := Next(c, s3, Fire(true));
    FirePuts(c, s3);
    FailedPutSleeps(c, s4);
    FiveSteps(c, s, script);
  }

  lemma DeliverStep(c: Config, s: State)
    requires s.phase.Idle? && s.queue != [] && EventMatches(s.queue[0])
    ensures Next(c, s, Deliver) ==
      s.(queue := s.queue[1..], deadline := Some(s.now + c.Window()), handled := s.handled + 1, handledAt := s.now)
  {
    hide Config.Window;
  }

  lemma FirePuts(c: Config, s: State)
    requires s.phase.Idle? && s.deadline.Some? && s.deadline.value <= s.now && s.file.Some? && c.valid(s.file.value)
    requires s.hasHash ==> c.hash(s.file.value) != s.lastHash
    ensures var s' := Next(c, s, Fire(true));
      s' == s.(phase := s'.phase, deadline := None, fires := s'.fires, sessionStart := s.now, unread := false) && s'.phase.Putting?
  {
    hide Config.Pacing;
  }

  lemma FailedPutSleeps(c: Config, s: State)
    requires s.phase.Putting? && s.ctxLive && !s.flush
    ensures var s' := Next(c, s, PutReply(false, false, 0.0));
      s' == s.(phase := s'.phase, puts := s'.puts) && s'.phase.Sleeping?
  {
    hide Jitter, Config.Pacing;
  }

  lemma FiveSteps(c: Config, s: State, script: seq<Label>)
    requires |script| == 5
    ensures Exec(c, s, script, 5) ==
      Next(c, Next(c, Next(c, Next(c, Next(c, s, script[0]), script[1]), script[2]), script[3]), script[4])
  {
    hide Next;
    assert Exec(c, s, script, 1) == Next(c, s, script[0]);
    assert Exec(c, s, script, 2) == Next(c, Next(c, s, script[0]), script[1]);
    assert Exec(c, s, script, 3) == Next(c, Next(c, Next(c, s, script[0]), script[1]), script[2]);
  }

  /** A change whose first Put failed is abandoned, not flushed, when ctx is cancelled before the retry. */
  lemma AbandonedRetryIsLost(c: Config, s0: State, older: Bytes, newer: Bytes, ev: FsEvent)
    requires CollisionFree(c) && Initial(s0) && s0.versions == [older] && newer != older && c.valid(newer) && Announces(ev)
    ensures var before := STARTED + Abandoned(c, newer, ev);
      var s := Exec(c, s0, before, |before|);
      var script := Shutdown(s, SMOOTHLY, SMOOTHLY);
      s.file == Some(newer) && s.queue == [] && !KeptByNextBoot(c, Exec(c, s, script, |script|))
  {
    hide Exec, KeptByNextBoot, Next, Shutdown, Abandoned;
    StartsIdle(c, s0, older);
    var s := Exec(c, s0, STARTED, 3);
    Retries(c, s, newer, ev);
    assert |Abandoned(c, newer, ev)| == 5 by { AbandonedLength(c, newer, ev); }
    ExecJoin(c, s0, STARTED, Abandoned(c, newer, ev), 5);
    ShutdownKeepsPathIff(c, s0, STARTED + Abandoned(c, newer, ev), SMOOTHLY, SMOOTHLY);
  }

  lemma AbandonedLength(c: Config, newer: Bytes, ev: FsEvent)
    ensures |Abandoned(c, newer, ev)| == 5
  {
  }
}
