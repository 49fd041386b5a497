/** The issuer side: `Run`, `bootstrap`, `scheduleUpload` and `uploadWithRetry`, as a state machine
    over what the process, the issuer, the file watcher and the store do next. */
module Uploader {
  import opened Wrappers
  import opened Acme
  import opened Backoff
  import Live

  // ----- configuration

  /** json.Valid and sha256 are left uninterpreted; times are in nanoseconds. */
  datatype Config = Config(valid: Bytes -> bool, hash: Bytes -> string, debounce: int, backoff: BackoffConfig) {
    function Window(): nat {
      if debounce <= 0 then DEFAULT_DEBOUNCE else debounce
    }

    function Pacing(): BackoffConfig {
      OrDefault(backoff)
    }
  }

  const DEFAULT_DEBOUNCE := 500_000_000
  const SHUTDOWN_FLUSH_TIMEOUT := 5 * SECOND

  // ----- what can happen

  /** An event in Path's directory: whether it names Path, and its operation bits. */
  datatype FsEvent = FsEvent(onPath: bool, write: bool, create: bool, remove: bool, rename: bool, chmod: bool)

  /** What the watcher queues when Path gets new content: it is written to, created, or replaced. */
  predicate Announces(ev: FsEvent) {
    ev.onPath && (ev.write || ev.create || ev.rename)
  }

  /** The filter of the event loop. */
  predicate EventMatches(ev: FsEvent) {
    ev.onPath && (ev.write || ev.create || ev.rename)
  }

  /** Which system calls of writeFileAtomic fail; `cleanup` is the removal of the temporary file. */
  datatype DiskFaults = DiskFaults(create: bool, write: bool, chmod: bool, close: bool, rename: bool, cleanup: bool) {
    predicate Fail() {
      create || write || chmod || close || rename
    }
  }

  /** How bootstrap's Get ends: an error, an error while reading the body, or an answer to write. */
  datatype BootReply = GetFails | BodyFails | GetAnswers(disk: DiskFaults)

  /** Nothing fails. */
  const ANSWERED := GetAnswers(DiskFaults(false, false, false, false, false, false))

  datatype Label =
    // The world, at any moment.
    | Write(content: Bytes, ev: FsEvent)  // Path gets new content; an event that announces it is queued
    | Remove(ev: FsEvent)                 // Path goes away
    | Noise(ev: FsEvent)                  // any other event
    | Advance(d: nat)                     // time passes
    | Cancel                              // ctx is cancelled
    // What the process does next, where several things could happen.
    | Boot(reply: BootReply)
    | Watch(ok: bool)
    | Start(read: bool)                   // the initial upload; `read`: a Path that exists can be read
    | Deliver                             // select receives from watcher.Events
    | WatchError                          // ... from watcher.Errors
    | Closed                              // ... from either, closed
    | Fire(read: bool)                    // ... from debounceCh
    | Stop(read: bool)                    // ... from ctx.Done
    | PutReply(effect: bool, ok: bool, draw: real)  // the Put in flight ends; `effect`: the store took it
    | Wake                                // the retry sleep is over
    | FlushTimeout                        // ... or cut short by the flush deadline

  // ----- states

  datatype Phase =
    | Booting
    | Unwatched    // bootstrapped, no watch yet
    | Watched      // watch added, initial upload not begun
    | Idle         // at the head of the event loop
    | Putting(buf: Bytes, attempt: nat, delay: int)
    | Sleeping(buf: Bytes, attempt: nat, delay: int, wakeAt: int)
    | Stopped

  datatype PutRecord = PutRecord(body: Bytes, ok: bool)

  datatype State = State(
    phase: Phase,
    // The process: its dedup hash, last sync, debounce deadline, and whose ctx its upload runs under.
    hasHash: bool, lastHash: string, lastSync: int, deadline: Option<int>, flush: bool, sessionStart: int,
    // The world: Path, the event queue, every content the object has had, every Put, ctx, the clock.
    file: Option<Bytes>, queue: seq<FsEvent>, versions: seq<Bytes>, puts: seq<PutRecord>, ctxLive: bool, now: int,
    // Matching events handled, when the last one was, debounce-driven uploads begun, and whether the
    // last upload failed to read a Path that exists.
    handled: nat, handledAt: int, fires: nat, unread: bool)

  ghost predicate Initial(s: State) {
    && s.phase == Booting && !s.hasHash && s.deadline == None && !s.flush && s.ctxLive
    && s.queue == [] && s.puts == [] && s.handled == 0 && s.fires == 0 && !s.unread
  }

  function Stored(versions: seq<Bytes>): Option<Bytes> {
    if versions == [] then None else Some(versions[|versions| - 1])
  }

  /** The ctx given to the running uploadWithRetry is not done. */
  predicate SessionLive(s: State) {
    if s.flush then s.now < s.sessionStart + SHUTDOWN_FLUSH_TIMEOUT else s.ctxLive
  }

  function EndSession(s: State): State {
    s.(phase := if s.flush then Stopped else Idle)
  }

  /** uploadWithRetry up to its first Put: read Path, check it, compare its hash. */
  function BeginUpload(c: Config, s0: State, read: bool): State {
    var s := s0.(sessionStart := s0.now, unread := s0.file.Some? && !read);
    match s.file
    case None => EndSession(s)
    case Some(buf) =>
      if !read || !c.valid(buf) then EndSession(s)
      else if s.hasHash && c.hash(buf) == s.lastHash then EndSession(s.(lastSync := s.now))
      else s.(phase := Putting(buf, 0, c.Pacing().initial))
  }

  function PutEnds(c: Config, s0: State, effect: bool, ok: bool, draw: real): State
    requires s0.phase.Putting?
  {
    var p := s0.phase;
    var s := s0.(versions := if effect || ok then s0.versions + [p.buf] else s0.versions, puts := s0.puts + [PutRecord(p.buf, ok)]);
    if ok then EndSession(s.(lastHash := c.hash(p.buf), hasHash := true, lastSync := s.now))
    else if !SessionLive(s) then EndSession(s)
    else s.(phase := Sleeping(p.buf, p.attempt, p.delay, s.now + Jitter(p.delay, c.Pacing().jitterFrac, draw)))
  }

  function BootEnds(c: Config, s: State, reply: BootReply): State {
    if reply.GetFails? then s.(phase := Stopped)
    else
      match Stored(s.versions)
      case None => s.(lastSync := s.now, phase := Unwatched)
      case Some(buf) =>
        if reply.BodyFails? || reply.disk.Fail() then s.(phase := Stopped)
        else s.(file := Some(buf), lastHash := c.hash(buf), hasHash := true, lastSync := s.now, phase := Unwatched)
  }

  predicate Watching(p: Phase) {
    !p.Booting? && !p.Unwatched?
  }

  function Enqueue(s: State, ev: FsEvent): State {
    if Watching(s.phase) then s.(queue := s.queue + [ev]) else s
  }

  predicate IsWorld(l: Label) {
    l.Write? || l.Remove? || l.Noise? || l.Advance? || l.Cancel?
  }

  /** What the world does.  New content of Path always comes with an event that announces it. */
  function WorldNext(s: State, l: Label): State
    requires IsWorld(l)
  {
    match l
    case Write(content, ev) => if Announces(ev) then Enqueue(s.(file := Some(content)), ev) else s
    case Remove(ev) => Enqueue(s.(file := None), ev)
    case Noise(ev) => Enqueue(s, ev)
    case Advance(d) => s.(now := s.now + d)
    case Cancel =>
      var s' := s.(ctxLive := false);
      if s.phase.Sleeping? && !s.flush then EndSession(s') else s'
  }

  /** What a select at the head of the event loop receives. */
  function LoopNext(c: Config, s: State, l: Label): State {
    match l
    case Deliver =>
      if s.queue == [] then s
      else
        var s' := s.(queue := s.queue[1..]);
        if EventMatches(s.queue[0])
        then s'.(deadline := Some(s.now + c.Window()), handled := s.handled + 1, handledAt := s.now)
        else s'
    case Fire(read) =>
      if s.deadline.Some? && s.deadline.value <= s.now
      then BeginUpload(c, s.(deadline := None, fires := s.fires + 1), read)
      else s
    case Stop(read) =>
      if s.ctxLive then s
      else if s.deadline.Some? then BeginUpload(c, s.(flush := true), read)
      else s.(phase := Stopped)
    case Closed => s.(phase := Stopped)
    case _ => s
  }

  /** One step; a label that cannot happen in this state changes nothing. */
  function Next(c: Config, s: State, l: Label): State {
    if IsWorld(l) then WorldNext(s, l)
    else
      match s.phase
      case Booting => if l.Boot? then BootEnds(c, s, l.reply) else s
      case Unwatched => if l.Watch? then s.(phase := if l.ok then Watched else Stopped) else s
      case Watched => if l.Start? then BeginUpload(c, s, l.read) else s
      case Idle => LoopNext(c, s, l)
      case Putting(_, _, _) =>
        if l.PutReply? && 0.0 <= l.draw < 1.0 then PutEnds(c, s, l.effect, l.ok, l.draw) else s
      case Sleeping(buf, attempt, delay, wakeAt) =>
        if l.Wake? && wakeAt <= s.now && SessionLive(s) then s.(phase := Putting(buf, attempt + 1, NextDelay(delay, c.Pacing())))
        else if l.FlushTimeout? && s.flush && !SessionLive(s) then EndSession(s)
        else s
      case Stopped => s
  }

  ghost function Exec(c: Config, s: State, script: seq<Label>, n: nat): State
    requires n <= |script|
  {
    if n == 0 then s else Next(c, Exec(c, s, script, n - 1), script[n - 1])
  }

  // ----- the program

  /** The world the process runs in. */
  datatype Env = Env(file: Option<Bytes>, queue: seq<FsEvent>, versions: seq<Bytes>, puts: seq<PutRecord>, ctxLive: bool, now: int)

  /** What State counts. */
  datatype Tally = Tally(handled: nat, handledAt: int, fires: nat, unread: bool)

  class Uploader {
    const c: Config
    // The process.
    var lastHash: string
    var hasHash: bool
    var lastSync: int
    var deadline: Option<int>  // debounceCh: when its timer fires
    var flush: bool            // the running upload has the flush ctx
    var sessionStart: int
    var env: Env
    ghost var tally: Tally
    // Next to Path: its mode, and temporary files left behind.
    var mode: nat
    var strays: nat

    constructor (c: Config, file: Option<Bytes>, versions: seq<Bytes>, now: int)
      ensures this.c == c && Initial(At(Booting))
      ensures env == Env(file, [], versions, [], true, now)
    {
      this.c := c;
      lastHash, hasHash, lastSync, deadline, flush, sessionStart := "", false, 0, None, false, 0;
      env, mode, strays := Env(file, [], versions, [], true, now), 0, 0;
      tally := Tally(0, 0, 0, false);
    }

    /** The state, with control at p. */
    ghost function At(p: Phase): State
      reads this
    {
      State(p, hasHash, lastHash, lastSync, deadline, flush, sessionStart,
            env.file, env.queue, env.versions, env.puts, env.ctxLive, env.now,
            tally.handled, tally.handledAt, tally.fires, tally.unread)
    }

    /** ctx.Err() == nil, for the ctx of the running upload. */
    predicate CtxAlive()
      reads this
      ensures forall p :: CtxAlive() == SessionLive(At(p))
    {
      if flush then env.now < sessionStart + SHUTDOWN_FLUSH_TIMEOUT else env.ctxLive
    }

    /** The watcher, once it watches, queues an event. */
    method Receive(ev: FsEvent, p: Phase)
      modifies this`env
      ensures env == if Watching(p) then old(env).(queue := old(env).queue + [ev]) else old(env)
    {
      if Watching(p) { env := env.(queue := env.queue + [ev]); }
    }

    /** The world moves while the process is at p; a cancelled retry sleep ends. */
    method World(l: Label, p: Phase) returns (p': Phase)
      requires IsWorld(l)
      modifies this`env
      ensures At(p') == WorldNext(old(At(p)), l)
      ensures p' == p || (p.Sleeping? && p' == Idle)
    {
      hide WorldNext;
      p' := p;
      WorldCases(At(p), l);
      match l
      case Write(content, ev) =>
        if Announces(ev) {
          env := env.(file := Some(content));
          Receive(ev, p);
        }
      case Remove(ev) =>
        env := env.(file := None);
        Receive(ev, p);
      case Noise(ev) =>
        Receive(ev, p);
      case Advance(d) =>
        env := env.(now := env.now + d);
      case Cancel =>
        env := env.(ctxLive := false);
        if p.Sleeping? && !flush { p' := Idle; }
    }

    method MarkSync()
      modifies this`lastSync
      ensures lastSync == env.now
    {
      lastSync := env.now;
    }

    /** A temporary file next to Path, renamed over it: Path changes in one step or not at all. */
    method WriteFileAtomic(data: Bytes, disk: DiskFaults) returns (ok: bool)
      modifies this`env, this`mode, this`strays
      ensures ok <==> !disk.Fail()
      ensures ok ==> env == old(env).(file := Some(data)) && mode == Live.PRIVATE
      ensures !ok ==> env == old(env) && mode == old(mode)
      ensures strays == old(strays) + (if disk.Fail() && !disk.create && disk.cleanup then 1 else 0)
    {
      if disk.create {
        return false;
      }
      strays := strays + 1;
      if disk.write || disk.chmod || disk.close || disk.rename {
        if !disk.cleanup {
          strays := strays - 1;
        }
        return false;
      }
      env, mode, strays := env.(file := Some(data)), Live.PRIVATE, strays - 1;
      return true;
    }

    method Bootstrap(reply: BootReply) returns (p: Phase)
      modifies this`env, this`mode, this`strays, this`lastHash, this`hasHash, this`lastSync
      ensures At(p) == BootEnds(c, old(At(Booting)), reply)
      ensures p == Unwatched || p == Stopped
    {
      hide BootEnds;
      BootCases(c, At(Booting), reply);
      p := Stopped;
      if reply.GetFails? {
        return;
      }
      if |env.versions| == 0 {
        MarkSync();
        return Unwatched;
      }
      if reply.BodyFails? {
        return;
      }
      p := Seed(env.versions[|env.versions| - 1], reply.disk);
    }

    /** Bootstrap's copy of the object to Path. */
    method Seed(buf: Bytes, disk: DiskFaults) returns (p: Phase)
      modifies this`env, this`mode, this`strays, this`lastHash, this`hasHash, this`lastSync
      ensures p == if disk.Fail() then Stopped else Unwatched
      ensures At(p) ==
        if disk.Fail() then old(At(Stopped))
        else old(At(Unwatched)).(file := Some(buf), lastHash := c.hash(buf), hasHash := true, lastSync := env.now)
    {
      var ok := WriteFileAtomic(buf, disk);
      if !ok {
        return Stopped;
      }
      lastHash, hasHash := c.hash(buf), true;
      MarkSync();
      return Unwatched;
    }

    /** (Re)arm the debounce timer.  Stop, drain and Reset leave no stale tick. */
    method ScheduleUpload()
      modifies this`deadline
      ensures deadline == Some(env.now + c.Window())
    {
      deadline := Some(env.now + (if c.debounce <= 0 then DEFAULT_DEBOUNCE else c.debounce));
    }

    /** The store's side of one Put request. */
    method Request(buf: Bytes, effect: bool, ok: bool)
      modifies this`env
      ensures env == old(env).(versions := if effect || ok then old(env).versions + [buf] else old(env).versions,
                               puts := old(env).puts + [PutRecord(buf, ok)])
    {
      if effect || ok {
        env := env.(versions := env.versions + [buf]);
      }
      env := env.(puts := env.puts + [PutRecord(buf, ok)]);
    }

    /** One Put request and what follows it in the retry loop, up to the sleep. */
    method Put(buf: Bytes, attempt: nat, delay: int, backoff: BackoffConfig, effect: bool, ok: bool, draw: real) returns (p: Phase)
      requires backoff == c.Pacing()
      modifies this`env, this`lastHash, this`hasHash, this`lastSync
      ensures At(p) == PutEnds(c, old(At(Putting(buf, attempt, delay))), effect, ok, draw)
      ensures p == Idle || p == Stopped || (p.Sleeping? && p == Sleeping(buf, attempt, delay, p.wakeAt))
    {
      hide Jitter, Config.Pacing, PutEnds;
      ghost var s := At(Putting(buf, attempt, delay));
      Request(buf, effect, ok);
      p := if flush then Stopped else Idle;
      if ok {
        PutSucceeds(c, s, effect, draw);
        lastHash, hasHash := c.hash(buf), true;
        MarkSync();
      } else if !CtxAlive() {
        PutAbandoned(c, s, effect, draw);
      } else {
        PutSleeps(c, s, effect, draw);
        p := Sleeping(buf, attempt, delay, env.now + Jitter(delay, backoff.jitterFrac, draw));
      }
    }

    /** The retry loop of uploadWithRetry, after the first `from` labels, until it returns or the
        script ends with it still retrying. */
    method RetryLoop(script: seq<Label>, from: nat, buf: Bytes, backoff: BackoffConfig, ghost s0: State)
      returns (next: nat, p: Phase)
      requires from <= |script| && backoff == c.Pacing()
      requires At(Putting(buf, 0, backoff.initial)) == Exec(c, s0, script, from)
      modifies this
      ensures from <= next <= |script| && At(p) == Exec(c, s0, script, next)
      ensures next < |script| ==> p == Idle || p == Stopped
    {
      hide PutEnds, WorldNext, BeginUpload, LoopNext, BootEnds;
      next := from;
      var delay := backoff.initial;
      var attempt := 0;
      p := Putting(buf, attempt, delay);
      while next < |script|
        invariant from <= next <= |script| && At(p) == Exec(c, s0, script, next)
        invariant p == Putting(buf, attempt, delay) || (p.Sleeping? && p == Sleeping(buf, attempt, delay, p.wakeAt))
      {
        var l := script[next];
        next := next + 1;
        if IsWorld(l) {
          p := World(l, p);
          if p == Idle {
            return;
          }
        } else if p.Putting? {
          if l.PutReply? && 0.0 <= l.draw < 1.0 {
            p := Put(buf, attempt, delay, backoff, l.effect, l.ok, l.draw);
            if !p.Sleeping? {
              return;
            }
          }
        } else if l.Wake? && p.wakeAt <= env.now && CtxAlive() {
          delay := NextDelay(delay, backoff);
          attempt := attempt + 1;
          p := Putting(buf, attempt, delay);
        } else if l.FlushTimeout? && flush && !CtxAlive() {
          return next, Stopped;
        }
      }
    }

    /** Runs from the moment it is called, after the first `from` labels, until it returns or the
        script ends with it still retrying. */
    method UploadWithRetry(script: seq<Label>, from: nat, read: bool, ghost s0: State) returns (next: nat, p: Phase)
      requires from <= |script| && BeginUpload(c, At(Idle), read) == Exec(c, s0, script, from)
      modifies this
      ensures from <= next <= |script| && At(p) == Exec(c, s0, script, next)
      ensures next < |script| ==> p == Idle || p == Stopped
    {
      hide Exec;
      sessionStart := env.now;
      next := from;
      p := if flush then Stopped else Idle;
      tally := tally.(unread := env.file.Some? && !read);
      if env.file.None? || !read {
        return;
      }
      var buf := env.file.value;
      if !c.valid(buf) {
        return;
      }
      var hash := c.hash(buf);
      if hasHash && hash == lastHash {
        MarkSync();
        return;
      }
      var backoff := OrDefault(c.backoff);
      next, p := RetryLoop(script, from, buf, backoff, s0);
    }

    /** Bootstrap, watch, initial upload, event loop; `script` is everything that happens. */
    method Run(script: seq<Label>) returns (p: Phase)
      requires Initial(At(Booting))
      modifies this
      ensures At(p) == Exec(c, old(At(Booting)), script, |script|)
    {
      hide PutEnds, WorldNext, LoopNext, BootEnds;
      ghost var s0 := At(Booting);
      p := Booting;
      var i := 0;
      while i < |script|
        invariant 0 <= i <= |script| && At(p) == Exec(c, s0, script, i)
        invariant (!p.Putting? && !p.Sleeping?) || i == |script|
      {
        var l := script[i];
        i := i + 1;
        if IsWorld(l) {
          p := World(l, p);
        } else if p == Booting && l.Boot? {
          p := Bootstrap(l.reply);
        } else if p == Unwatched && l.Watch? {
          p := if l.ok then Watched else Stopped;
        } else if p == Watched && l.Start? {
          i, p := UploadWithRetry(script, i, l.read, s0);
        } else if p == Idle {
          i, p := Select(l, script, i, s0);
        }
      }
    }

    /** select receives from watcher.Events, if anything is queued. */
    method HandleEvent()
      modifies this`env, this`deadline, this`tally
      ensures At(Idle) == LoopNext(c, old(At(Idle)), Deliver)
    {
      hide LoopNext;
      DeliverIs(c, At(Idle));
      if |env.queue| > 0 {
        var ev := env.queue[0];
        env := env.(queue := env.queue[1..]);
        if EventMatches(ev) {
          ScheduleUpload();
          tally := tally.(handled := tally.handled + 1, handledAt := env.now);
        }
      }
    }

    /** The body of the event loop: one select. */
    method Select(l: Label, script: seq<Label>, i: nat, ghost s0: State) returns (next: nat, p: Phase)
      requires 0 < i <= |script| && !IsWorld(l) && l == script[i - 1] && At(Idle) == Exec(c, s0, script, i - 1)
      modifies this
      ensures i <= next <= |script| && At(p) == Exec(c, s0, script, next)
      ensures next < |script| ==> p == Idle || p == Stopped
    {
      hide BeginUpload, LoopNext, Exec;
      SelectIs(c, s0, script, i);
      next, p := i, Idle;
      if l.Deliver? {
        HandleEvent();
      } else if l.Fire? {
        if deadline.Some? && deadline.value <= env.now {
          deadline := None;
          tally := tally.(fires := tally.fires + 1);
          next, p := UploadWithRetry(script, i, l.read, s0);
        }
      } else if l.Stop? {
        if !env.ctxLive {
          if deadline.Some? {
            flush := true;
            next, p := UploadWithRetry(script, i, l.read, s0);
          } else {
            p := Stopped;
          }
        }
      } else if l.Closed? {
        p := Stopped;
      }
    }
  }

  // ----- the parts of a step, case by case

  lemma BootCases(c: Config, s: State, reply: BootReply)
    ensures BootEnds(c, s, reply) ==
      if reply.GetFails? then s.(phase := Stopped)
      else if s.versions == [] then s.(lastSync := s.now, phase := Unwatched)
      else if reply.BodyFails? || reply.disk.Fail() then s.(phase := Stopped)
      else
        var buf := s.versions[|s.versions| - 1];
        s.(file := Some(buf), lastHash := c.hash(buf), hasHash := true, lastSync := s.now, phase := Unwatched)
  {
  }

  function Received(s: State, ev: FsEvent): seq<FsEvent> {
    if Watching(s.phase) then s.queue + [ev] else s.queue
  }

  lemma WorldCases(s: State, l: Label)
    requires IsWorld(l)
    ensures l.Write? ==> WorldNext(s, l) == if Announces(l.ev) then s.(file := Some(l.content), queue := Received(s, l.ev)) else s
    ensures l.Remove? ==> WorldNext(s, l) == s.(file := None, queue := Received(s, l.ev))
    ensures l.Noise? ==> WorldNext(s, l) == s.(queue := Received(s, l.ev))
    ensures l.Advance? ==> WorldNext(s, l) == s.(now := s.now + l.d)
    ensures l.Cancel? ==> WorldNext(s, l) == s.(ctxLive := false, phase := if s.phase.Sleeping? && !s.flush then Idle else s.phase)
  {
  }

  /** A step of the event loop that is not a delivery. */
  lemma SelectIs(c: Config, s0: State, script: seq<Label>, i: nat)
    requires 0 < i <= |script| && !IsWorld(script[i - 1]) && Exec(c, s0, script, i - 1).phase == Idle
    ensures var s, l := Exec(c, s0, script, i - 1), script[i - 1];
      Exec(c, s0, script, i) ==
        if l.Deliver? then LoopNext(c, s, Deliver)
        else if l.Fire? && s.deadline.Some? && s.deadline.value <= s.now
        then BeginUpload(c, s.(deadline := None, fires := s.fires + 1), l.read)
        else if l.Stop? && !s.ctxLive && s.deadline.Some? then BeginUpload(c, s.(flush := true), l.read)
        else if (l.Stop? && !s.ctxLive) || l.Closed? then s.(phase := Stopped)
        else s
  {
    hide BeginUpload, PutEnds, WorldNext, BootEnds, Config.Window;
  }

  lemma DeliverIs(c: Config, s: State)
    ensures LoopNext(c, s, Deliver) ==
      if s.queue == [] then s
      else if EventMatches(s.queue[0])
      then s.(queue := s.queue[1..], deadline := Some(s.now + c.Window()), handled := s.handled + 1, handledAt := s.now)
      else s.(queue := s.queue[1..])
  {
    hide Config.Window;
  }

  function Requested(s: State, effect: bool, ok: bool): State
    requires s.phase.Putting?
  {
    s.(versions := if effect || ok then s.versions + [s.phase.buf] else s.versions, puts := s.puts + [PutRecord(s.phase.buf, ok)])
  }

  lemma PutSucceeds(c: Config, s: State, effect: bool, draw: real)
    requires s.phase.Putting?
    ensures PutEnds(c, s, effect, true, draw) ==
      Requested(s, effect, true).(lastHash := c.hash(s.phase.buf), hasHash := true, lastSync := s.now,
                                  phase := if s.flush then Stopped else Idle)
  {
  }

  lemma PutAbandoned(c: Config, s: State, effect: bool, draw: real)
    requires s.phase.Putting? && !SessionLive(s)
    ensures PutEnds(c, s, effect, false, draw) == Requested(s, effect, false).(phase := if s.flush then Stopped else Idle)
  {
  }

  lemma PutSleeps(c: Config, s: State, effect: bool, draw: real)
    requires s.phase.Putting? && SessionLive(s)
    ensures PutEnds(c, s, effect, false, draw) ==
      Requested(s, effect, false).(phase := Sleeping(s.phase.buf, s.phase.attempt, s.phase.delay,
                                                     s.now + Jitter(s.phase.delay, c.Pacing().jitterFrac, draw)))
  {
    hide Jitter, Config.Pacing;
  }
}
