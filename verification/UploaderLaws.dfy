/** What holds of the issuer side whatever happens in whatever order: nothing is missed once it is
    quiet, the dedup hash never lies, and only new, valid content is put. */
module UploaderLaws {
  import opened Wrappers
  import opened Acme
  import opened Backoff
  import opened Uploader

  /** Different contents have different hashes. */
  ghost predicate CollisionFree(c: Config) {
    forall a, b | c.hash(a) == c.hash(b) :: a == b
  }

  // ----- what each kind of step can change

  predicate Uploading(p: Phase) {
    p.Putting? || p.Sleeping?
  }

  /** The world touches Path, the queue, ctx and the clock; cancelling ends a retry sleep. */
  ghost predicate WorldMoved(s: State, s': State) {
    && s' == s.(phase := s'.phase, file := s'.file, queue := s'.queue, ctxLive := s'.ctxLive, now := s'.now)
    && s.now <= s'.now && (s'.ctxLive ==> s.ctxLive)
    && (s'.phase == s.phase || (s.phase.Sleeping? && !s.flush && !s'.ctxLive && s'.phase == Idle))
  }

  ghost function Ended(s: State): Phase {
    if s.flush then Stopped else Idle
  }

  /** An upload either ends at once or puts what Path holds, which is valid and new. */
  ghost predicate Began(c: Config, s: State, s': State) {
    && s' == s.(phase := s'.phase, sessionStart := s.now, lastSync := s'.lastSync, unread := s'.unread)
    && if s'.phase.Putting?
       then !s'.unread && s.file == Some(s'.phase.buf) && s'.phase == Putting(s'.phase.buf, 0, c.Pacing().initial)
         && c.valid(s'.phase.buf) && (s.hasHash ==> c.hash(s'.phase.buf) != s.lastHash)
       else s'.phase == Ended(s)
  }

  /** A Put is recorded, with its effect; success is remembered, failure retried while ctx lives. */
  ghost predicate PutEnded(c: Config, s: State, s': State, effect: bool, ok: bool, draw: real)
    requires s.phase.Putting?
  {
    && s' == s.(phase := s'.phase, versions := s'.versions, puts := s.puts + [PutRecord(s.phase.buf, ok)],
                hasHash := s.hasHash || ok, lastHash := if ok then c.hash(s.phase.buf) else s.lastHash, lastSync := s'.lastSync)
    && s'.versions == (if effect || ok then s.versions + [s.phase.buf] else s.versions)
    && s'.phase == if ok || !SessionLive(s) then Ended(s)
                   else Sleeping(s.phase.buf, s.phase.attempt, s.phase.delay,
                                 s.now + Jitter(s.phase.delay, c.Pacing().jitterFrac, draw))
  }

  lemma BeginChanges(c: Config, s: State)
    ensures forall read :: Began(c, s, BeginUpload(c, s, read))
  {
    hide Config.Pacing;
  }

  lemma PutChanges(c: Config, s: State, effect: bool, ok: bool, draw: real)
    requires s.phase.Putting?
    ensures PutEnded(c, s, PutEnds(c, s, effect, ok, draw), effect, ok, draw)
  {
    hide Jitter, Config.Pacing;
  }

  lemma WorldChanges(s: State, l: Label)
    requires IsWorld(l)
    ensures WorldMoved(s, WorldNext(s, l))
  {
    hide WorldNext;
    WorldCases(s, l);
  }

  /** The lemmas above, for whichever part of a step applies. */
  lemma NextChanges(c: Config, s: State, l: Label)
    ensures IsWorld(l) ==> WorldMoved(s, WorldNext(s, l))
    ensures forall t: State, read :: Began(c, t, BeginUpload(c, t, read))
    ensures s.phase.Putting? && l.PutReply? ==> PutEnded(c, s, PutEnds(c, s, l.effect, l.ok, l.draw), l.effect, l.ok, l.draw)
  {
    hide BeginUpload, PutEnds, WorldNext, PutEnded, Began, WorldMoved;
    if IsWorld(l) { WorldChanges(s, l); }
    if s.phase.Putting? && l.PutReply? { PutChanges(c, s, l.effect, l.ok, l.draw); }
    forall t: State, read ensures Began(c, t, BeginUpload(c, t, read)) { BeginChanges(c, t); }
  }

  // ----- the dedup hash

  /** While ctx lives and no upload is running, lastHash is the hash of what the store holds. */
  ghost predicate HashTrue(c: Config, s: State) {
    && (s.flush ==> !s.ctxLive)
    && (s.phase.Booting? ==> !s.hasHash)
    && (s.ctxLive && !Uploading(s.phase) && !s.phase.Stopped? && s.hasHash ==>
          s.versions != [] && c.hash(s.versions[|s.versions| - 1]) == s.lastHash)
  }

  lemma HashLoop(c: Config, s: State, l: Label)
    requires HashTrue(c, s) && s.phase.Idle?
    ensures HashTrue(c, LoopNext(c, s, l))
  {
    hide BeginUpload, Config.Window, Config.Pacing;
    BeginChanges(c, s.(deadline := None, fires := s.fires + 1));
    BeginChanges(c, s.(flush := true));
  }

  lemma HashStep(c: Config, s: State, l: Label)
    requires HashTrue(c, s)
    ensures HashTrue(c, Next(c, s, l))
  {
    hide WorldNext, BeginUpload, PutEnds, LoopNext, NextDelay, Config.Pacing;
    if IsWorld(l) {
      WorldChanges(s, l);
    } else if s.phase.Idle? {
      HashLoop(c, s, l);
    } else if s.phase.Putting? && l.PutReply? {
      PutChanges(c, s, l.effect, l.ok, l.draw);
    } else {
      BeginChanges(c, s);
    }
  }

  /** It does in every reachable state, whatever the hash. */
  lemma {:induction false} AlwaysHashTrue(c: Config, s0: State, script: seq<Label>, n: nat)
    requires Initial(s0) && n <= |script|
    ensures HashTrue(c, Exec(c, s0, script, n))
    decreases n
  {
    hide Next;
    if n > 0 {
      AlwaysHashTrue(c, s0, script, n - 1);
      HashStep(c, Exec(c, s0, script, n - 1), script[n - 1]);
    }
  }

  // ----- quiescence

  /** The debounce is armed, or an event that announces new content is queued. */
  ghost predicate Pending(deadline: Option<int>, queue: seq<FsEvent>) {
    deadline.Some? || exists ev :: ev in queue && Announces(ev)
  }

  /** There is nothing to upload that has not been. */
  ghost predicate Published(c: Config, file: Option<Bytes>, versions: seq<Bytes>) {
    match file
    case None => true
    case Some(buf) => !c.valid(buf) || Stored(versions) == Some(buf)
  }

  /** While ctx lives: in the event loop, what is not pending is published, unless the last upload
      could not read it; during an upload, what is not pending is what is being uploaded. */
  ghost predicate NothingMissed(c: Config, s: State) {
    s.ctxLive ==>
      && (s.phase.Idle? ==> Pending(s.deadline, s.queue) || s.unread || Published(c, s.file, s.versions))
      && (s.phase.Putting? ==> Pending(s.deadline, s.queue) || s.file == None || s.file == Some(s.phase.buf))
      && (s.phase.Sleeping? ==> Pending(s.deadline, s.queue) || s.file == None || s.file == Some(s.phase.buf))
  }

  lemma EnqueueKeepsPending(deadline: Option<int>, queue: seq<FsEvent>, ev: FsEvent)
    ensures Pending(deadline, queue) ==> Pending(deadline, queue + [ev])
    ensures Announces(ev) ==> Pending(deadline, queue + [ev])
  {
    assert (queue + [ev])[|queue|] == ev;
    assert forall e | e in queue :: e in queue + [ev];
  }

  lemma DequeueKeepsPending(queue: seq<FsEvent>)
    requires queue != [] && !Announces(queue[0])
    ensures forall deadline :: Pending(deadline, queue) ==> Pending(deadline, queue[1..])
  {
    assert queue == [queue[0]] + queue[1..];
    assert forall ev :: ev in queue <==> ev == queue[0] || ev in queue[1..];
  }

  lemma WorldMissesNothing(c: Config, s: State, l: Label)
    requires NothingMissed(c, s) && IsWorld(l)
    ensures NothingMissed(c, WorldNext(s, l))
  {
    hide Pending, Published;
    assert Published(c, None, s.versions) by { NoFilePublished(c, s.versions); }
    if l.Write? || l.Remove? || l.Noise? { EnqueueKeepsPending(s.deadline, s.queue, l.ev); }
  }

  lemma NoFilePublished(c: Config, versions: seq<Bytes>)
    ensures Published(c, None, versions)
  {
  }

  /** An upload begins by reading Path, so nothing needs to be pending. */
  lemma BeginMissesNothing(c: Config, s: State)
    requires CollisionFree(c)
    requires s.ctxLive ==> !s.flush && (s.hasHash ==> s.versions != [] && c.hash(s.versions[|s.versions| - 1]) == s.lastHash)
    ensures forall read :: NothingMissed(c, BeginUpload(c, s, read))
  {
    hide Pending, Config.Pacing;
  }

  lemma LoopMissesNothing(c: Config, s: State, l: Label)
    requires CollisionFree(c) && HashTrue(c, s) && NothingMissed(c, s) && s.phase.Idle?
    ensures NothingMissed(c, LoopNext(c, s, l))
  {
    hide BeginUpload, Published, Config.Window;
    if l.Fire? && s.deadline.Some? && s.deadline.value <= s.now {
      BeginMissesNothing(c, s.(deadline := None, fires := s.fires + 1));
    } else if l.Stop? && !s.ctxLive {
      BeginMissesNothing(c, s.(flush := true));
    } else if l.Deliver? && s.queue != [] && !EventMatches(s.queue[0]) {
      DequeueKeepsPending(s.queue);
    }
  }

  lemma PutMissesNothing(c: Config, s: State, effect: bool, ok: bool, draw: real)
    requires NothingMissed(c, s) && s.phase.Putting?
    ensures NothingMissed(c, PutEnds(c, s, effect, ok, draw))
  {
    hide Jitter, Config.Pacing, Pending;
  }

  lemma QuietStep(c: Config, s: State, l: Label)
    requires CollisionFree(c) && HashTrue(c, s) && NothingMissed(c, s)
    ensures NothingMissed(c, Next(c, s, l))
  {
    hide BeginUpload, WorldNext, LoopNext, PutEnds, Pending, Published, NextDelay, Config.Pacing;
    if IsWorld(l) {
      WorldMissesNothing(c, s, l);
    } else if s.phase.Idle? {
      LoopMissesNothing(c, s, l);
    } else if s.phase.Watched? && l.Start? {
      BeginMissesNothing(c, s);
    } else if s.phase.Putting? && l.PutReply? {
      PutMissesNothing(c, s, l.effect, l.ok, l.draw);
    }
  }

  lemma {:induction false} Reachable(c: Config, s0: State, script: seq<Label>, n: nat)
    requires CollisionFree(c) && Initial(s0) && n <= |script|
    ensures NothingMissed(c, Exec(c, s0, script, n))
    decreases n
  {
    hide Next, HashTrue, NothingMissed;
    if n == 0 {
      InitiallyTrue(c, s0);
    } else {
      Reachable(c, s0, script, n - 1);
      AlwaysHashTrue(c, s0, script, n - 1);
      QuietStep(c, Exec(c, s0, script, n - 1), script[n - 1]);
    }
  }

  lemma InitiallyTrue(c: Config, s: State)
    requires Initial(s)
    ensures NothingMissed(c, s)
  {
  }

  /** Quiescence: over every interleaving of writes, events, timers and failed Puts, while ctx lives
      and the loop is idle with no event that announces content queued and the debounce disarmed, Path is
      missing, or is not JSON, or is exactly what the store holds; or the last upload could not
      read it. */
  lemma Quiescence(c: Config, s0: State, script: seq<Label>, n: nat)
    requires CollisionFree(c) && Initial(s0) && n <= |script|
    ensures var s := Exec(c, s0, script, n);
      s.ctxLive && s.phase.Idle? && !Pending(s.deadline, s.queue) && !s.unread ==>
        s.file == None || !c.valid(s.file.value) || Stored(s.versions) == s.file
  {
    Reachable(c, s0, script, n);
  }

  /** The dedup hash: at the head of the loop, while ctx lives, it is the hash of the store's
      content, whatever became of the Puts that failed. */
  lemma DedupHash(c: Config, s0: State, script: seq<Label>, n: nat)
    requires Initial(s0) && n <= |script|
    ensures var s := Exec(c, s0, script, n);
      s.ctxLive && s.phase.Idle? && s.hasHash ==> s.versions != [] && c.hash(s.versions[|s.versions| - 1]) == s.lastHash
  {
    hide Exec;
    AlwaysHashTrue(c, s0, script, n);
  }

  /** lastSync moves only to the present, and only when the process knows what the store holds:
      nothing at all, or content whose hash is the dedup hash. */
  ghost predicate HonestSync(c: Config, s: State, s': State) {
    s'.lastSync != s.lastSync ==>
      && s'.lastSync == s.now
      && (s'.versions == [] || (s'.hasHash && c.hash(s'.versions[|s'.versions| - 1]) == s'.lastHash))
  }

  lemma BeginSyncs(c: Config, s: State)
    requires s.hasHash ==> s.versions != [] && c.hash(s.versions[|s.versions| - 1]) == s.lastHash
    ensures forall read :: HonestSync(c, s, BeginUpload(c, s, read))
  {
    hide Config.Pacing;
  }

  lemma PutSyncs(c: Config, s: State, effect: bool, ok: bool, draw: real)
    requires s.phase.Putting?
    ensures HonestSync(c, s, PutEnds(c, s, effect, ok, draw))
  {
    hide Jitter, Config.Pacing, SessionLive;
  }

  lemma LoopSyncs(c: Config, s: State, l: Label)
    requires HashTrue(c, s) && s.ctxLive && s.phase.Idle?
    ensures HonestSync(c, s, LoopNext(c, s, l))
  {
    hide BeginUpload, Config.Window;
    BeginSyncs(c, s.(deadline := None, fires := s.fires + 1));
  }

  /** What the health endpoint reports while ctx lives is true. */
  lemma SyncIsHonest(c: Config, s0: State, script: seq<Label>, n: nat)
    requires Initial(s0) && n < |script| && Exec(c, s0, script, n).ctxLive
    ensures HonestSync(c, Exec(c, s0, script, n), Exec(c, s0, script, n + 1))
  {
    hide WorldNext, BeginUpload, PutEnds, LoopNext, NextDelay, Config.Pacing;
    AlwaysHashTrue(c, s0, script, n);
    var s, l := Exec(c, s0, script, n), script[n];
    if IsWorld(l) {
      WorldChanges(s, l);
    } else if s.phase.Idle? {
      LoopSyncs(c, s, l);
    } else if s.phase.Watched? {
      BeginSyncs(c, s);
    } else if s.phase.Putting? && l.PutReply? {
      PutSyncs(c, s, l.effect, l.ok, l.draw);
    }
  }

  /** It moves whenever the process learns what the store holds: when bootstrap ends well, when a Put
      succeeds, and when an upload finds Path unchanged. */
  lemma SyncsWhenKnown(c: Config, s: State, l: Label)
    requires HashTrue(c, s) && s.ctxLive
    ensures var s' := Next(c, s, l);
      && (s.phase.Booting? && s'.phase.Unwatched? ==> s'.lastSync == s.now)
      && (|s'.puts| > |s.puts| && s'.puts[|s.puts|].ok ==> s'.lastSync == s.now)
      && (s.phase.Idle? && s'.fires > s.fires && l.read && Unchanged(c, s) ==> s'.lastSync == s.now)
      && (s.phase.Watched? && l.Start? && l.read && Unchanged(c, s) ==> s'.lastSync == s.now)
  {
    hide Jitter, NextDelay, Config.Pacing, Config.Window, SessionLive;
  }

  /** Path is the JSON that the store is known to hold. */
  predicate Unchanged(c: Config, s: State) {
    s.file.Some? && c.valid(s.file.value) && s.hasHash && Stored(s.versions) == s.file
  }

  // ----- what is put

  ghost function LastOk(puts: seq<PutRecord>): Option<Bytes>
    decreases |puts|
  {
    if puts == [] then None
    else if puts[|puts| - 1].ok then Some(puts[|puts| - 1].body)
    else LastOk(puts[..|puts| - 1])
  }

  /** Every body is valid JSON, and no successful Put repeats the one before it. */
  ghost predicate GoodPuts(c: Config, puts: seq<PutRecord>)
    decreases |puts|
  {
    puts == [] || (
      var init, last := puts[..|puts| - 1], puts[|puts| - 1];
      GoodPuts(c, init) && c.valid(last.body) && (last.ok ==> LastOk(init) != Some(last.body)))
  }

  ghost predicate PutsGood(c: Config, s: State) {
    && GoodPuts(c, s.puts)
    && (LastOk(s.puts).Some? ==> s.hasHash && s.lastHash == c.hash(LastOk(s.puts).value))
    && (s.phase.Booting? ==> s.puts == [])
    && (s.phase.Unwatched? ==> s.puts == [])
    && (s.phase.Putting? ==> c.valid(s.phase.buf) && (s.hasHash ==> c.hash(s.phase.buf) != s.lastHash))
    && (s.phase.Sleeping? ==> c.valid(s.phase.buf) && (s.hasHash ==> c.hash(s.phase.buf) != s.lastHash))
  }

  lemma AppendPut(c: Config, puts: seq<PutRecord>, last: PutRecord)
    ensures LastOk([]) == None
    ensures LastOk(puts + [last]) == (if last.ok then Some(last.body) else LastOk(puts))
    ensures GoodPuts(c, puts + [last]) <==> GoodPuts(c, puts) && c.valid(last.body) && (last.ok ==> LastOk(puts) != Some(last.body))
  {
    assert (puts + [last])[..|puts|] == puts;
  }

  lemma PutKeepsGood(c: Config, s: State, effect: bool, ok: bool, draw: real)
    requires PutsGood(c, s) && s.phase.Putting?
    ensures PutsGood(c, PutEnds(c, s, effect, ok, draw))
  {
    hide PutEnds, GoodPuts, LastOk, Jitter, SessionLive, Config.Pacing;
    PutChanges(c, s, effect, ok, draw);
    AppendPut(c, s.puts, PutRecord(s.phase.buf, ok));
  }

  lemma LoopKeepsGood(c: Config, s: State, l: Label)
    requires PutsGood(c, s) && s.phase.Idle?
    ensures PutsGood(c, LoopNext(c, s, l))
  {
    hide BeginUpload, GoodPuts, LastOk, Config.Pacing, Config.Window;
    BeginChanges(c, s.(deadline := None, fires := s.fires + 1));
    BeginChanges(c, s.(flush := true));
  }

  lemma PutsStep(c: Config, s: State, l: Label)
    requires PutsGood(c, s)
    ensures PutsGood(c, Next(c, s, l))
  {
    hide WorldNext, BeginUpload, PutEnds, PutEnded, LoopNext, GoodPuts, LastOk, SessionLive, NextDelay, Config.Pacing;
    NextChanges(c, s, l);
    AppendPut(c, [], PutRecord("", false));
    if s.phase.Putting? && l.PutReply? { PutKeepsGood(c, s, l.effect, l.ok, l.draw); }
    if s.phase.Idle? { LoopKeepsGood(c, s, l); }
  }

  lemma {:induction false} PutsAreGood(c: Config, s0: State, script: seq<Label>, n: nat)
    requires Initial(s0) && n <= |script|
    ensures PutsGood(c, Exec(c, s0, script, n))
    decreases n
  {
    hide Next;
    if n > 0 {
      PutsAreGood(c, s0, script, n - 1);
      PutsStep(c, Exec(c, s0, script, n - 1), script[n - 1]);
    }
  }

  // ----- what reaches the store

  /** The store only ever gains valid contents. */
  lemma {:induction false} StoreGainsValid(c: Config, s0: State, script: seq<Label>, n: nat)
    requires Initial(s0) && n <= |script|
    ensures var s := Exec(c, s0, script, n);
      && s0.versions <= s.versions
      && forall i | |s0.versions| <= i < |s.versions| :: c.valid(s.versions[i])
    decreases n
  {
    hide Next;
    if n > 0 {
      var s := Exec(c, s0, script, n - 1);
      StoreGainsValid(c, s0, script, n - 1);
      PutsAreGood(c, s0, script, n - 1);
      StoreStep(c, s, script[n - 1]);
    }
  }

  /** At most one more content, and that one valid. */
  ghost predicate Gains(c: Config, before: seq<Bytes>, after: seq<Bytes>) {
    after == before ||
    (|after| == |before| + 1 && c.valid(after[|before|]) && after == before + [after[|before|]])
  }

  lemma LoopKeepsStore(c: Config, s: State, l: Label)
    ensures LoopNext(c, s, l).versions == s.versions
  {
    hide BeginUpload, Config.Window, Config.Pacing;
    BeginChanges(c, s.(deadline := None, fires := s.fires + 1));
    BeginChanges(c, s.(flush := true));
  }

  lemma StoreStep(c: Config, s: State, l: Label)
    requires PutsGood(c, s)
    ensures Gains(c, s.versions, Next(c, s, l).versions)
  {
    hide WorldNext, BeginUpload, PutEnds, LoopNext, GoodPuts, LastOk, SessionLive, Jitter, NextDelay, Config.Pacing;
    if IsWorld(l) {
      WorldChanges(s, l);
    } else if s.phase.Idle? {
      LoopKeepsStore(c, s, l);
    } else if s.phase.Putting? && l.PutReply? {
      PutChanges(c, s, l.effect, l.ok, l.draw);
    } else {
      BeginChanges(c, s);
    }
  }
}
