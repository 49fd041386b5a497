/** The issuer side in time: how far apart the attempts of an upload are, and how a burst of events
    becomes one upload. */
module UploaderPacing {
  import opened Wrappers
  import opened Backoff
  import opened Uploader
  import opened UploaderLaws

  // ----- pacing of retries

  ghost predicate SanePacing(b: BackoffConfig) {
    b.initial >= 0 && b.max >= 0 && b.multiplier >= 0.0
  }

  /** The delay in force is that of the attempt's number, and the attempt starts no sooner than its
      number of retries allows, counting from time t. */
  ghost predicate PacedFrom(c: Config, s: State, t: int) {
    && (s.phase.Putting? ==>
          && s.phase.delay == DelayAfter(c.Pacing(), s.phase.attempt)
          && s.now >= t + MinElapsed(c.Pacing(), s.phase.attempt))
    && (s.phase.Sleeping? ==>
          && s.phase.delay == DelayAfter(c.Pacing(), s.phase.attempt)
          && s.phase.wakeAt >= t + MinElapsed(c.Pacing(), s.phase.attempt + 1))
  }

  /** ... and a retry under the flush ctx starts before its deadline. */
  ghost predicate Paced(c: Config, s: State) {
    && PacedFrom(c, s, s.sessionStart)
    && (s.phase.Putting? && s.flush && s.phase.attempt > 0 ==>
          MinElapsed(c.Pacing(), s.phase.attempt) < SHUTDOWN_FLUSH_TIMEOUT)
  }

  lemma JitterAtLeast(d: int, frac: real, draw: real)
    requires d >= 0 && 0.0 <= draw < 1.0
    ensures Jitter(d, frac, draw) >= MinSleep(d, frac)
  {
    if frac > 0.0 { JitterBounds(d, frac, draw); }
  }

  lemma PacedFromStep(c: Config, s: State, l: Label, t: int)
    requires SanePacing(c.Pacing()) && PacedFrom(c, s, t) && Uploading(s.phase)
    ensures PacedFrom(c, Next(c, s, l), t)
    ensures s.phase.Putting? && Uploading(Next(c, s, l).phase) ==> Next(c, s, l).phase.attempt == s.phase.attempt
    ensures s.phase.Sleeping? && Uploading(Next(c, s, l).phase) ==> Next(c, s, l).phase.attempt >= s.phase.attempt
  {
    hide WorldNext, BeginUpload, PutEnds, SessionLive, Jitter, NextDelay, MinSleep, Config.Pacing, Config.Window;
    NextChanges(c, s, l);
    if s.phase.Putting? && l.PutReply? && 0.0 <= l.draw < 1.0 {
      DelaysNonNegative(c.Pacing(), s.phase.attempt);
      JitterAtLeast(s.phase.delay, c.Pacing().jitterFrac, l.draw);
    }
  }

  lemma BeginPaced(c: Config, s: State)
    ensures forall read :: Paced(c, BeginUpload(c, s, read))
  {
    hide BeginUpload, Config.Pacing;
    BeginChanges(c, s);
  }

  lemma LoopPaced(c: Config, s: State, l: Label)
    requires s.phase.Idle?
    ensures Paced(c, LoopNext(c, s, l))
  {
    hide BeginUpload, Config.Window, Config.Pacing, DelayAfter, MinElapsed;
    BeginPaced(c, s.(deadline := None, fires := s.fires + 1));
    BeginPaced(c, s.(flush := true));
  }

  lemma PacedStep(c: Config, s: State, l: Label)
    requires SanePacing(c.Pacing()) && Paced(c, s)
    ensures Paced(c, Next(c, s, l))
  {
    hide WorldNext, BeginUpload, PutEnds, LoopNext, PacedFrom, DelayAfter, Jitter, NextDelay, MinElapsed, Config.Pacing, SanePacing;
    NextChanges(c, s, l);
    if Uploading(s.phase) {
      PacedFromStep(c, s, l, s.sessionStart);
      if s.phase.Sleeping? && s.flush && l.Wake? && s.phase.wakeAt <= s.now && SessionLive(s) { WakesInTime(c, s); }
    } else if IsWorld(l) {
      NotUploadingPaced(c, WorldNext(s, l));
    } else if s.phase.Idle? {
      LoopPaced(c, s, l);
    } else {
      BeginPaced(c, s);
      NotUploadingPaced(c, s);
      if !l.Start? { NotUploadingPaced(c, Next(c, s, l)); }
    }
  }

  lemma NotUploadingPaced(c: Config, s: State)
    requires !Uploading(s.phase)
    ensures Paced(c, s)
  {
  }

  lemma WakesInTime(c: Config, s: State)
    requires PacedFrom(c, s, s.sessionStart) && s.phase.Sleeping? && s.flush && s.phase.wakeAt <= s.now && SessionLive(s)
    ensures MinElapsed(c.Pacing(), s.phase.attempt + 1) < SHUTDOWN_FLUSH_TIMEOUT
  {
    hide MinElapsed, Config.Pacing;
  }

  lemma {:induction false} AlwaysPaced(c: Config, s0: State, script: seq<Label>, n: nat)
    requires SanePacing(c.Pacing()) && Initial(s0) && n <= |script|
    ensures Paced(c, Exec(c, s0, script, n))
    decreases n
  {
    hide Next;
    if n > 0 {
      AlwaysPaced(c, s0, script, n - 1);
      PacedStep(c, Exec(c, s0, script, n - 1), script[n - 1]);
    }
  }

  /** Within one upload, whatever the draws, two attempts are at least as far apart as the shortest
      sleeps between them. */
  lemma {:induction false} AttemptsSpaced(c: Config, s0: State, script: seq<Label>, m: nat, n: nat)
    requires SanePacing(c.Pacing()) && Initial(s0) && m <= n <= |script|
    requires forall k | m <= k <= n :: Uploading(Exec(c, s0, script, k).phase)
    requires Exec(c, s0, script, m).phase.Putting?
    ensures var s, s' := Exec(c, s0, script, m), Exec(c, s0, script, n);
      && PacedFrom(c, s', s.now - MinElapsed(c.Pacing(), s.phase.attempt))
      && Uploading(s'.phase) && s'.phase.attempt >= s.phase.attempt
      && (s'.phase.Putting? ==>
            s'.now - s.now >= MinElapsed(c.Pacing(), s'.phase.attempt) - MinElapsed(c.Pacing(), s.phase.attempt))
    decreases n
  {
    hide Next, MinElapsed, Config.Pacing, SanePacing;
    if m == n {
      AlwaysPaced(c, s0, script, m);
    } else {
      AttemptsSpaced(c, s0, script, m, n - 1);
      var s := Exec(c, s0, script, m);
      PacedFromStep(c, Exec(c, s0, script, n - 1), script[n - 1], s.now - MinElapsed(c.Pacing(), s.phase.attempt));
    }
  }

  /** The Puts made since there were `base` of them, when the flush began. */
  ghost predicate FlushCount(s: State, base: nat) {
    && s.flush && (s.phase.Stopped? || Uploading(s.phase))
    && (s.phase.Putting? ==> |s.puts| == base + s.phase.attempt)
    && (s.phase.Sleeping? ==> |s.puts| == base + s.phase.attempt + 1 && s.phase.attempt <= 2)
    && (s.phase.Stopped? ==> |s.puts| <= base + 3)
  }

  /** With the defaults, no attempt of a flush after the third begins before its deadline. */
  lemma FlushAttempts(c: Config, s: State)
    requires c.Pacing() == DEFAULT_BACKOFF && Paced(c, s) && s.flush && s.phase.Putting?
    ensures s.phase.attempt <= 2
  {
    hide MinElapsed, DelayAfter, PacedFrom;
    DefaultPacing();
    if s.phase.attempt >= 3 { MinElapsedMonotone(DEFAULT_BACKOFF, 3, s.phase.attempt); }
  }

  lemma FlushCountStep(c: Config, s: State, l: Label, base: nat)
    requires c.Pacing() == DEFAULT_BACKOFF && Paced(c, s) && FlushCount(s, base)
    ensures FlushCount(Next(c, s, l), base)
  {
    hide WorldNext, BeginUpload, PutEnds, LoopNext, BootEnds, Paced, SessionLive, Jitter, NextDelay, Config.Pacing;
    NextChanges(c, s, l);
    if s.phase.Putting? { FlushAttempts(c, s); }
  }

  lemma LoopFlushes(c: Config, s: State, l: Label)
    requires !s.flush && s.phase.Idle?
    ensures LoopNext(c, s, l).flush ==> FlushCount(LoopNext(c, s, l), |s.puts|)
  {
    hide BeginUpload, Config.Window, Config.Pacing;
    BeginChanges(c, s.(deadline := None, fires := s.fires + 1));
    BeginChanges(c, s.(flush := true));
  }

  lemma FlushBegins(c: Config, s: State, l: Label)
    requires !s.flush && Next(c, s, l).flush
    ensures FlushCount(Next(c, s, l), |s.puts|)
  {
    hide WorldNext, BeginUpload, PutEnds, LoopNext, FlushCount, Jitter, NextDelay, SessionLive, Config.Pacing;
    NextChanges(c, s, l);
    if s.phase.Idle? { LoopFlushes(c, s, l); }
  }

  lemma {:induction false} FlushCounts(c: Config, s0: State, script: seq<Label>, m: nat, n: nat)
    requires c.Pacing() == DEFAULT_BACKOFF && Initial(s0) && m < n <= |script|
    requires !Exec(c, s0, script, m).flush && Exec(c, s0, script, m + 1).flush
    ensures FlushCount(Exec(c, s0, script, n), |Exec(c, s0, script, m).puts|)
    decreases n
  {
    hide Next, FlushCount, Paced;
    if n == m + 1 {
      FlushBegins(c, Exec(c, s0, script, m), script[m]);
    } else {
      FlushCounts(c, s0, script, m, n - 1);
      AlwaysPaced(c, s0, script, n - 1);
      FlushCountStep(c, Exec(c, s0, script, n - 1), script[n - 1], |Exec(c, s0, script, m).puts|);
    }
  }

  /** With the backoff left unset, the shutdown flush, once begun, makes at most three Puts. */
  lemma FlushAtMostThreePuts(c: Config, s0: State, script: seq<Label>, m: nat, n: nat)
    requires (c.backoff == UNSET || c.backoff == PRODUCTION) && Initial(s0) && m < n <= |script|
    requires !Exec(c, s0, script, m).flush && Exec(c, s0, script, m + 1).flush
    ensures |Exec(c, s0, script, n).puts| <= |Exec(c, s0, script, m).puts| + 3
  {
    hide Exec, Paced;
    UnsetIsProduction(c.backoff);
    FlushCounts(c, s0, script, m, n);
    AlwaysPaced(c, s0, script, n);
    var s := Exec(c, s0, script, n);
    if s.phase.Putting? { FlushAttempts(c, s); }
  }

  /** A flush begins when ctx.Done is received, lasts five seconds, and retries until then. */
  lemma FlushLastsFiveSeconds(c: Config, s: State, l: Label)
    ensures var s' := Next(c, s, l);
      && (!s.flush && s'.flush ==> s'.sessionStart == s.now)
      && (s.flush && s.phase.Putting? && l.PutReply? && 0.0 <= l.draw < 1.0 && !l.ok ==>
            (s'.phase.Sleeping? <==> s.now - s.sessionStart < 5_000_000_000))
      && (s.flush && s.phase.Sleeping? && l.Wake? && s.phase.wakeAt <= s.now ==>
            (s'.phase.Putting? <==> s.now - s.sessionStart < 5_000_000_000))
      && (s.flush && s.phase.Sleeping? && l.FlushTimeout? ==>
            (s'.phase.Stopped? <==> s.now - s.sessionStart >= 5_000_000_000))
  {
    hide Jitter, NextDelay, Config.Pacing, Config.Window, BeginUpload;
    if s.phase.Idle? {
      BeginChanges(c, s.(deadline := None, fires := s.fires + 1));
      BeginChanges(c, s.(flush := true));
    }
    BeginChanges(c, s);
  }

  /** With the backoff left unset, the delay in force at the nth retry of any upload is 2^n seconds, but
      no more than 60. */
  lemma UnsetPacing(c: Config, s0: State, script: seq<Label>, n: nat)
    requires c.backoff == UNSET && Initial(s0) && n <= |script|
    ensures var s := Exec(c, s0, script, n);
      && (s.phase.Putting? ==> s.phase.delay == Min(60_000_000_000, 1_000_000_000 * Pow2(s.phase.attempt)))
      && (s.phase.Sleeping? ==> s.phase.delay == Min(60_000_000_000, 1_000_000_000 * Pow2(s.phase.attempt)))
  {
    hide Exec, DelayAfter, MinElapsed;
    UnsetIsProduction(c.backoff);
    AlwaysPaced(c, s0, script, n);
    var s := Exec(c, s0, script, n);
    if s.phase.Putting? || s.phase.Sleeping? { UnsetDelays(s.phase.attempt); }
  }

  // ----- debouncing

  /** The window of a configuration: half a second, unless it sets another. */
  function WindowOf(c: Config): int {
    if c.debounce <= 0 then 500_000_000 else c.debounce
  }

  /** A delivered event leaves the queue, and puts the debounce off to a full window from now exactly if
      it names Path and is a write, a create or a rename; nothing else changes. */
  lemma DeliveryArmsIff(c: Config, s: State)
    requires s.phase.Idle? && s.queue != []
    ensures var s', ev := Next(c, s, Deliver), s.queue[0];
      var arms := ev.onPath && (ev.write || ev.create || ev.rename);
      s' == s.(queue := s.queue[1..],
               deadline := if arms then Some(s.now + WindowOf(c)) else s.deadline,
               handled := if arms then s.handled + 1 else s.handled,
               handledAt := if arms then s.now else s.handledAt)
  {
    hide LoopNext;
    DeliverIs(c, s);
  }

  /** Debounce-driven uploads begun, and the one that is due. */
  ghost function Owed(s: State): nat {
    s.fires + if s.deadline.Some? then 1 else 0
  }

  ghost predicate Debounced(c: Config, s: State) {
    && (s.deadline.Some? ==> s.handled > 0 && s.deadline.value == s.handledAt + c.Window())
    && Owed(s) <= s.handled
  }

  /** A step handles at most what it owes more for; a debounce-driven upload begins only when the
      window is over, and nothing else disarms the debounce. */
  ghost predicate DebounceMoved(c: Config, s: State, s': State) {
    && Debounced(c, s')
    && s.handled <= s'.handled && s.fires <= s'.fires
    && Owed(s') - s'.handled <= Owed(s) - s.handled
    && (s'.fires != s.fires ==> s.now - s.handledAt >= c.Window())
    && (s'.fires == s.fires && (s.deadline.Some? || s'.handled != s.handled) ==> s'.deadline.Some?)
  }

  lemma DebounceLoop(c: Config, s: State, l: Label)
    requires Debounced(c, s)
    ensures DebounceMoved(c, s, LoopNext(c, s, l))
  {
    hide BeginUpload, Config.Window, Config.Pacing;
    BeginChanges(c, s.(deadline := None, fires := s.fires + 1));
    BeginChanges(c, s.(flush := true));
  }

  lemma DebounceKept(c: Config, s: State, s': State)
    requires Debounced(c, s) && s'.deadline == s.deadline
    requires s'.handled == s.handled && s'.handledAt == s.handledAt && s'.fires == s.fires
    ensures DebounceMoved(c, s, s')
  {
  }

  /** Outside the loop the debounce is left alone. */
  lemma OutsideLoopKeeps(c: Config, s: State, l: Label)
    requires IsWorld(l) || !s.phase.Idle?
    ensures var s' := Next(c, s, l);
      s'.deadline == s.deadline && s'.handled == s.handled && s'.handledAt == s.handledAt && s'.fires == s.fires
  {
    hide WorldNext, BeginUpload, PutEnds, LoopNext, SessionLive, Jitter, NextDelay, Config.Pacing;
    if IsWorld(l) {
      WorldChanges(s, l);
    } else if s.phase.Putting? && l.PutReply? {
      PutChanges(c, s, l.effect, l.ok, l.draw);
    } else {
      BeginChanges(c, s);
    }
  }

  lemma DebounceStep(c: Config, s: State, l: Label)
    requires Debounced(c, s)
    ensures DebounceMoved(c, s, Next(c, s, l))
  {
    hide Debounced, DebounceMoved, LoopNext;
    if s.phase.Idle? && !IsWorld(l) {
      DebounceLoop(c, s, l);
    } else {
      hide Next;
      OutsideLoopKeeps(c, s, l);
      DebounceKept(c, s, Next(c, s, l));
    }
  }

  lemma {:induction false} AlwaysDebounced(c: Config, s0: State, script: seq<Label>, n: nat)
    requires Initial(s0) && n <= |script|
    ensures Debounced(c, Exec(c, s0, script, n))
    decreases n
  {
    hide Next;
    if n > 0 {
      AlwaysDebounced(c, s0, script, n - 1);
      DebounceStep(c, Exec(c, s0, script, n - 1), script[n - 1]);
    }
  }

  /** A debounce-driven upload begins only after a full window with no matching event handled. */
  lemma UploadWaitsFullWindow(c: Config, s0: State, script: seq<Label>, n: nat)
    requires Initial(s0) && n < |script|
    ensures var s, s' := Exec(c, s0, script, n), Exec(c, s0, script, n + 1);
      s'.fires != s.fires ==> s.now - s.handledAt >= WindowOf(c)
  {
    hide Next;
    AlwaysDebounced(c, s0, script, n);
    DebounceStep(c, Exec(c, s0, script, n), script[n]);
  }

  /** Between any two moments, debounce-driven uploads never outnumber the matching events handled,
      but for one that was already due. */
  lemma {:induction false} UploadsPerEvents(c: Config, s0: State, script: seq<Label>, m: nat, n: nat)
    requires Initial(s0) && m <= n <= |script|
    ensures var s, s' := Exec(c, s0, script, m), Exec(c, s0, script, n);
      Owed(s') - Owed(s) <= s'.handled - s.handled
    decreases n
  {
    hide Next;
    if m < n {
      UploadsPerEvents(c, s0, script, m, n - 1);
      AlwaysDebounced(c, s0, script, n - 1);
      DebounceStep(c, Exec(c, s0, script, n - 1), script[n - 1]);
    }
  }

  /** A burst, in which less than a window ever passes since the last matching event, begins no
      upload from its first event to its last, and owes exactly one when it is over. */
  lemma {:induction false} BurstCoalesces(c: Config, s0: State, script: seq<Label>, m: nat, n: nat)
    requires Initial(s0) && m <= n <= |script|
    requires forall k | m <= k < n :: Exec(c, s0, script, k).now - Exec(c, s0, script, k).handledAt < WindowOf(c)
    ensures var s, s' := Exec(c, s0, script, m), Exec(c, s0, script, n);
      && s'.fires == s.fires
      && (s.deadline.Some? || s'.handled != s.handled ==> Owed(s') == s.fires + 1)
    decreases n
  {
    hide Next, Debounced;
    if m < n {
      BurstCoalesces(c, s0, script, m, n - 1);
      AlwaysDebounced(c, s0, script, n - 1);
      DebounceStep(c, Exec(c, s0, script, n - 1), script[n - 1]);
    }
  }
}
