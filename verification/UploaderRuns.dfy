/** Runs of the issuer side that nobody disturbs: coming to rest, staying there, and starting. */
module UploaderRuns {
  import opened Wrappers
  import opened Acme
  import opened Backoff
  import opened Uploader
  import opened UploaderLaws

  // ----- settling

  lemma {:induction false} ExecJoin(c: Config, s: State, a: seq<Label>, b: seq<Label>, n: nat)
    requires n <= |b|
    ensures Exec(c, s, a + b, |a| + n) == Exec(c, Exec(c, s, a, |a|), b, n)
    decreases n
  {
    hide Next;
    if n == 0 {
      ExecPrefix(c, s, a, b, |a|);
    } else {
      ExecJoin(c, s, a, b, n - 1);
      assert (a + b)[|a| + n - 1] == b[n - 1];
    }
  }

  lemma {:induction false} ExecPrefix(c: Config, s: State, a: seq<Label>, b: seq<Label>, n: nat)
    requires n <= |a|
    ensures Exec(c, s, a + b, n) == Exec(c, s, a, n)
    decreases n
  {
    hide Next;
    if n > 0 { ExecPrefix(c, s, a, b, n - 1); }
  }

  lemma ExecOne(c: Config, s: State, l: Label)
    ensures Exec(c, s, [l], 1) == Next(c, s, l)
  {
    hide Next;
    assert Exec(c, s, [l], 0) == s;
  }

  /** Neither the issuer nor anyone else does anything: time passes, the process works. */
  predicate Undisturbed(script: seq<Label>) {
    forall l | l in script :: IsWorld(l) ==> l.Advance?
  }

  /** Same Path, ctx still live. */
  ghost predicate Calm(s: State, s': State) {
    s'.phase.Idle? && s'.file == s.file && s'.ctxLive == s.ctxLive && s'.flush == s.flush
  }

  lemma DeliverOne(c: Config, s: State)
    requires s.phase.Idle? && s.queue != []
    ensures var s' := Next(c, s, Deliver);
      && Calm(s, s') && s'.queue == s.queue[1..] && s'.unread == s.unread
      && (Pending(s.deadline, s.queue) ==> Pending(s'.deadline, s'.queue))
  {
    hide LoopNext;
    DeliverIs(c, s);
    if !EventMatches(s.queue[0]) { DequeueKeepsPending(s.queue); }
  }

  lemma PendingArmed(deadline: Option<int>)
    ensures Pending(deadline, []) <==> deadline.Some?
  {
  }

  /** The loop can receive all queued events. */
  lemma {:induction false} Drain(c: Config, s: State) returns (script: seq<Label>)
    requires s.phase.Idle?
    ensures Undisturbed(script)
    ensures var s' := Exec(c, s, script, |script|);
      Calm(s, s') && s'.queue == [] && s'.unread == s.unread && (Pending(s.deadline, s.queue) ==> s'.deadline.Some?)
    decreases |s.queue|
  {
    hide Next, Exec, Pending;
    script := [];
    if s.queue == [] {
      ExecNone(c, s);
      PendingArmed(s.deadline);
    } else {
      DeliverOne(c, s);
      var rest := Drain(c, Next(c, s, Deliver));
      script := [Deliver] + rest;
      ExecOne(c, s, Deliver);
      ExecJoin(c, s, [Deliver], rest, |rest|);
    }
  }

  /** One more step. */
  lemma ExecThen(c: Config, s: State, script: seq<Label>, l: Label)
    ensures Exec(c, s, script + [l], |script + [l]|) == Next(c, Exec(c, s, script, |script|), l)
  {
    hide Next;
    ExecOne(c, Exec(c, s, script, |script|), l);
    ExecJoin(c, s, script, [l], 1);
  }

  lemma FireStep(c: Config, s: State)
    requires s.phase.Idle? && s.deadline.Some? && s.deadline.value <= s.now && !s.flush
    ensures var s' := Next(c, s, Fire(true));
      && Calm(s, s'.(phase := Idle)) && s'.queue == s.queue && s'.deadline.None? && !s'.unread
      && (s'.phase.Idle? || s'.phase.Putting?)
  {
    hide Config.Pacing;
  }

  lemma PutStep(c: Config, s: State)
    requires s.phase.Putting? && !s.flush
    ensures var s' := Next(c, s, PutReply(true, true, 0.0));
      Calm(s, s') && s'.queue == s.queue && s'.deadline == s.deadline && s'.unread == s.unread
  {
    hide PutEnds, Jitter, SessionLive, Config.Pacing;
    PutChanges(c, s, true, true, 0.0);
  }

  /** ... let the window pass, and upload if it must, with one Put that succeeds. */
  lemma FireAndPut(c: Config, s: State) returns (script: seq<Label>)
    requires s.phase.Idle? && s.queue == [] && !s.flush && (s.unread ==> s.deadline.Some?)
    ensures Undisturbed(script)
    ensures var s' := Exec(c, s, script, |script|); Calm(s, s') && !Pending(s'.deadline, s'.queue) && !s'.unread
  {
    hide Next, Exec;
    if s.deadline.None? {
      script := [];
      assert Exec(c, s, script, 0) == s by { ExecNone(c, s); }
    } else {
      var wait := if s.now < s.deadline.value then s.deadline.value - s.now else 0;
      script := [Advance(wait), Fire(true)];
      var s1 := Next(c, s, Advance(wait));
      assert s1 == s.(now := s.now + wait) by { WaitStep(c, s, wait); }
      ExecOne(c, s, Advance(wait));
      ExecThen(c, s, [Advance(wait)], Fire(true));
      assert script == [Advance(wait)] + [Fire(true)];
      FireStep(c, s1);
      var s2 := Exec(c, s, script, |script|);
      if s2.phase.Putting? {
        ExecThen(c, s, script, PutReply(true, true, 0.0));
        script := script + [PutReply(true, true, 0.0)];
        PutStep(c, s2);
      }
    }
  }

  lemma ExecNone(c: Config, s: State)
    ensures Exec(c, s, [], 0) == s
  {
  }

  lemma WaitStep(c: Config, s: State, wait: nat)
    ensures Next(c, s, Advance(wait)) == s.(now := s.now + wait)
  {
  }

  /** Only the loop remembers that Path could not be read. */
  ghost predicate Attentive(s: State) {
    s.unread ==> s.phase.Idle? || s.phase.Stopped?
  }

  lemma LoopAttentive(c: Config, s: State, l: Label)
    requires s.phase.Idle?
    ensures Attentive(LoopNext(c, s, l))
  {
    hide BeginUpload, Config.Window, Config.Pacing;
    BeginChanges(c, s.(deadline := None, fires := s.fires + 1));
    BeginChanges(c, s.(flush := true));
  }

  lemma AttentiveStep(c: Config, s: State, l: Label)
    requires Attentive(s)
    ensures Attentive(Next(c, s, l))
  {
    hide WorldNext, BeginUpload, PutEnds, LoopNext, SessionLive, NextDelay, Jitter, Config.Pacing;
    if IsWorld(l) {
      WorldChanges(s, l);
    } else if s.phase.Idle? {
      LoopAttentive(c, s, l);
    } else {
      NextChanges(c, s, l);
    }
  }

  lemma {:induction false} AlwaysAttentive(c: Config, s0: State, script: seq<Label>, n: nat)
    requires Initial(s0) && n <= |script|
    ensures Attentive(Exec(c, s0, script, n))
    decreases n
  {
    hide Next, Attentive;
    if n == 0 {
      assert Attentive(s0) by { StartsAttentive(s0); }
    } else {
      AlwaysAttentive(c, s0, script, n - 1);
      AttentiveStep(c, Exec(c, s0, script, n - 1), script[n - 1]);
    }
  }

  lemma StartsAttentive(s: State)
    requires Initial(s)
    ensures Attentive(s)
  {
  }

  /** How far from the head of the loop. */
  function Ahead(p: Phase): nat {
    match p
    case Booting => 5
    case Unwatched => 4
    case Watched => 3
    case Sleeping(_, _, _, _) => 2
    case Putting(_, _, _) => 1
    case _ => 0
  }

  /** Running, and with ctx live. */
  ghost predicate Running(s: State) {
    s.ctxLive && !s.flush && !s.phase.Stopped?
  }

  /** The process can get closer to the loop by itself, without touching Path but in bootstrap. */
  lemma Onward(c: Config, s: State) returns (script: seq<Label>)
    requires Running(s) && !s.phase.Idle? && !s.unread
    ensures Undisturbed(script)
    ensures var s' := Exec(c, s, script, |script|);
      Running(s') && !s'.unread && Ahead(s'.phase) < Ahead(s.phase) && (!s.phase.Booting? ==> s'.file == s.file)
  {
    hide BeginUpload, PutEnds, Jitter, NextDelay, Config.Pacing;
    if s.phase.Sleeping? {
      var wait := if s.now < s.phase.wakeAt then s.phase.wakeAt - s.now else 0;
      script := [Advance(wait), Wake];
      ExecOne(c, s, Advance(wait));
      ExecThen(c, s, [Advance(wait)], Wake);
      assert script == [Advance(wait)] + [Wake];
    } else {
      var l := if s.phase.Booting? then Boot(ANSWERED) else if s.phase.Unwatched? then Watch(true)
               else if s.phase.Watched? then Start(true) else PutReply(true, true, 0.0);
      script := [l];
      ExecOne(c, s, l);
      if s.phase.Watched? { StartStep(c, s); }
      if s.phase.Putting? { PutStep(c, s); }
    }
  }

  lemma StartStep(c: Config, s: State)
    requires Running(s) && s.phase.Watched?
    ensures var s' := BeginUpload(c, s, true);
      Running(s') && (s'.phase.Idle? || s'.phase.Putting?) && s'.file == s.file && !s'.unread
  {
    hide Config.Pacing;
  }

  /** So it can reach the loop. */
  lemma {:induction false} ToLoop(c: Config, s: State) returns (script: seq<Label>)
    requires Running(s) && (s.unread ==> s.phase.Idle? && Pending(s.deadline, s.queue))
    ensures Undisturbed(script)
    ensures var s' := Exec(c, s, script, |script|);
      && Running(s') && s'.phase.Idle? && (s'.unread ==> Pending(s'.deadline, s'.queue))
      && (!s.phase.Booting? ==> s'.file == s.file)
    decreases Ahead(s.phase)
  {
    hide Next, Exec, Pending;
    if s.phase.Idle? {
      script := [];
      ExecNone(c, s);
    } else {
      var head := Onward(c, s);
      var s' := Exec(c, s, head, |head|);
      var rest := ToLoop(c, s');
      script := head + rest;
      ExecJoin(c, s, head, rest, |rest|);
    }
  }

  /** While ctx lives, wherever it is, the process can always come to rest by itself, and when it does it
      has published Path; but for a Path it could not read, and has no reason to read again. */
  lemma CanSettle(c: Config, s0: State, before: seq<Label>) returns (script: seq<Label>)
    requires CollisionFree(c) && Initial(s0)
    requires var s := Exec(c, s0, before, |before|);
      s.ctxLive && !s.phase.Stopped? && (s.phase.Idle? && s.unread ==> Pending(s.deadline, s.queue))
    ensures Undisturbed(script)
    ensures var s, s' := Exec(c, s0, before, |before|), Exec(c, s0, before + script, |before + script|);
      && s'.phase.Idle? && s'.ctxLive && !Pending(s'.deadline, s'.queue) && !s'.unread
      && (!s.phase.Booting? ==> s'.file == s.file)
      && (s'.file == None || !c.valid(s'.file.value) || Stored(s'.versions) == s'.file)
  {
    hide Exec, Pending;
    var s := Exec(c, s0, before, |before|);
    AlwaysHashTrue(c, s0, before, |before|);
    AlwaysAttentive(c, s0, before, |before|);
    var reach := ToLoop(c, s);
    var s1 := Exec(c, s, reach, |reach|);
    var drain := Drain(c, s1);
    var fire := FireAndPut(c, Exec(c, s1, drain, |drain|));
    script := reach + (drain + fire);
    ExecJoin(c, s1, drain, fire, |fire|);
    ExecJoin(c, s, reach, drain + fire, |drain + fire|);
    ExecJoin(c, s0, before, script, |script|);
    Quiescence(c, s0, before + script, |before + script|);
  }

  /** At rest: in the loop with nothing pending, or out of it. */
  ghost predicate Resting(s: State) {
    s.ctxLive && (s.phase.Stopped? || (s.phase.Idle? && !Pending(s.deadline, s.queue)))
  }

  lemma RestStep(c: Config, s: State, l: Label)
    requires Resting(s) && (IsWorld(l) ==> l.Advance?)
    ensures var s' := Next(c, s, l);
      Resting(s') && s'.file == s.file && s'.versions == s.versions && s'.puts == s.puts && s'.unread == s.unread
  {
    hide BeginUpload, Config.Window;
    if l.Deliver? && s.queue != [] {
      assert s.queue[0] in s.queue;
      assert forall ev | ev in s.queue[1..] :: ev in s.queue;
    }
  }

  /** Rest lasts until the world moves.  So a Path that the last upload could not read, and that is not
      pending, is never put. */
  lemma {:induction false} RestLasts(c: Config, s: State, script: seq<Label>, n: nat)
    requires Resting(s) && Undisturbed(script) && n <= |script|
    ensures var s' := Exec(c, s, script, n);
      Resting(s') && s'.file == s.file && s'.versions == s.versions && s'.puts == s.puts && s'.unread == s.unread
    decreases n
  {
    hide Next, Resting;
    if n > 0 {
      RestLasts(c, s, script, n - 1);
      assert script[n - 1] in script;
      RestStep(c, Exec(c, s, script, n - 1), script[n - 1]);
    }
  }

  // ----- starting

  /** What an undisturbed process that found an object is like: Path is the object, and nothing is put. */
  ghost predicate Copied(c: Config, s: State, s': State) {
    && s'.versions == s.versions && s'.puts == [] && s'.ctxLive && !s'.flush && s'.queue == [] && s'.deadline.None?
    && !Uploading(s'.phase)
    && (!s'.phase.Booting? && !s'.phase.Stopped? ==>
          s'.file == Stored(s.versions) && s'.hasHash && Some(s'.lastHash) == Hashed(c, s.versions))
  }

  function Hashed(c: Config, versions: seq<Bytes>): Option<string> {
    if versions == [] then None else Some(c.hash(versions[|versions| - 1]))
  }

  lemma CopiedStep(c: Config, s: State, s': State, l: Label)
    requires Copied(c, s, s') && s.versions != [] && (IsWorld(l) ==> l.Advance?)
    ensures Copied(c, s, Next(c, s', l))
    ensures var s'' := Next(c, s', l);
      s'.phase.Watched? && s''.phase.Idle? && !s''.unread && c.valid(s.versions[|s.versions| - 1]) ==> s''.lastSync == s''.now
  {
    hide Config.Window, Config.Pacing;
  }

  /** With an object in the store, an undisturbed process copies it to Path and puts nothing, ever; and
      its initial upload finds it in sync. */
  lemma {:induction false} BootIsSilent(c: Config, s: State, script: seq<Label>, n: nat)
    requires Initial(s) && s.versions != [] && Undisturbed(script) && n <= |script|
    ensures Copied(c, s, Exec(c, s, script, n))
    ensures n > 0 ==> var s', s'' := Exec(c, s, script, n - 1), Exec(c, s, script, n);
      s'.phase.Watched? && s''.phase.Idle? && !s''.unread && c.valid(s.versions[|s.versions| - 1]) ==> s''.lastSync == s''.now
    decreases n
  {
    hide Next;
    if n > 0 {
      BootIsSilent(c, s, script, n - 1);
      assert script[n - 1] in script;
      CopiedStep(c, s, Exec(c, s, script, n - 1), script[n - 1]);
    }
  }

  /** What an undisturbed process that found no object is like: Path is kept, nothing else is put, and
      it is not idle before Path, if it could be read and is JSON, is in the store. */
  ghost predicate Offered(c: Config, s: State, s': State) {
    && s'.file == s.file && s'.ctxLive && !s'.flush && s'.queue == [] && s'.deadline.None?
    && (forall v | v in s'.versions :: s.file == Some(v) && c.valid(v))
    && (s'.phase.Booting? || s'.phase.Unwatched? || s'.phase.Watched? ==> s'.versions == [] && !s'.hasHash)
    && (s'.phase.Putting? ==> s.file == Some(s'.phase.buf) && c.valid(s'.phase.buf))
    && (s'.phase.Sleeping? ==> s.file == Some(s'.phase.buf) && c.valid(s'.phase.buf))
    && (s'.phase.Idle? ==> s'.unread || s.file.None? || !c.valid(s.file.value) || Stored(s'.versions) == s.file)
  }

  lemma OfferedStep(c: Config, s: State, s': State, l: Label)
    requires Offered(c, s, s') && (IsWorld(l) ==> l.Advance?)
    ensures Offered(c, s, Next(c, s', l))
  {
    hide Config.Window, Config.Pacing, Jitter, NextDelay, PutEnds;
    if s'.phase.Putting? && l.PutReply? {
      PutChanges(c, s', l.effect, l.ok, l.draw);
      var all := s'.versions + [s'.phase.buf];
      assert forall v | v in all :: v in s'.versions || v == s'.phase.buf;
    }
  }

  /** With no object in the store, an undisturbed process uploads Path, whatever fails on the way. */
  lemma {:induction false} FirstDeployUploads(c: Config, s: State, script: seq<Label>, n: nat)
    requires Initial(s) && s.versions == [] && Undisturbed(script) && n <= |script|
    ensures Offered(c, s, Exec(c, s, script, n))
    decreases n
  {
    hide Next;
    if n > 0 {
      FirstDeployUploads(c, s, script, n - 1);
      assert script[n - 1] in script;
      OfferedStep(c, s, Exec(c, s, script, n - 1), script[n - 1]);
    }
  }

  // ----- stopping

  /** What ends the process while ctx lives: a failed bootstrap, a failed watch, or a closed watcher; and
      each of them does. */
  lemma StopsIff(c: Config, s: State, l: Label)
    requires s.ctxLive && !s.flush && !s.phase.Stopped?
    ensures Next(c, s, l).phase.Stopped? <==>
      || (s.phase.Booting? && l.Boot? && l.reply.GetFails?)
      || (s.phase.Booting? && l.Boot? && s.versions != [] && l.reply.BodyFails?)
      || (s.phase.Booting? && l.Boot? && s.versions != [] && l.reply.GetAnswers? &&
          (l.reply.disk.create || l.reply.disk.write || l.reply.disk.chmod || l.reply.disk.close || l.reply.disk.rename))
      || (s.phase.Unwatched? && l.Watch? && !l.ok)
      || (s.phase.Idle? && l.Closed?)
  {
    hide WorldNext, BeginUpload, PutEnds, BootEnds, Jitter, NextDelay, Config.Pacing, Config.Window;
    NextChanges(c, s, l);
    if s.phase.Booting? && l.Boot? { BootCases(c, s, l.reply); }
  }
}
