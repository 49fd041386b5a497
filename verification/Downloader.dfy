/** The gateway side: `tryCycle`, `cycle`, `renderEmpty` and `Run`, against a store that another
    process changes between any two of its reads. */
module Downloader {
  import opened Wrappers
  import opened Text
  import opened Acme
  import opened Live
  import opened Render
  import opened Backoff

  // ----- the store

  /** A stored object: its bytes, and the etags that Head and Get report for it ("" if none). */
  datatype Object = Object(body: Bytes, headEtag: string, getEtag: string)

  /** The states of the key in the store, oldest first; None while there is no object. */
  type History = seq<Option<Object>>

  /** One attempt: Head reads version h, Get reads version g (not before h), and these calls fail.
      `draw` is the random number for the sleep that follows a failure. */
  datatype Attempt = Attempt(h: nat, g: nat, headFails: bool, getFails: bool, bodyFails: bool, faults: Faults, now: int, draw: real)

  ghost predicate Fits(hist: History, a: Attempt) {
    a.h <= a.g < |hist|
  }

  datatype Failure =
    | HeadFailed
    | GetFailed
    | BodyFailed
    | ParseFailed(parse: ParseError)
    | RenderFailed(render: RenderError)

  /** Rendered and RenderedEmpty are tryCycle's nil, Skipped its errSkipped. */
  datatype CycleResult = Rendered | RenderedEmpty | Skipped | Failed(why: Failure)

  // ----- specification

  datatype Site = Site(codec: Codec, place: Place)

  /** What a downloader process and its directory are at one moment. */
  datatype Gateway = Gateway(lastEtag: string, lastSync: int, live: Tree)

  /** The gateway after an attempt, how the attempt ended, and the edits it made to live/. */
  datatype Step = Step(after: Gateway, result: CycleResult, log: seq<Edit>)

  predicate Blank(body: Bytes) {
    Trim(body) == ""
  }

  ghost function EmptyStep(site: Site, s: Gateway, a: Attempt): Step {
    var run := RenderSpec(site.place, s.live, [], a.faults);
    var s' := s.(live := Replay(s.live, run.log));
    match run.err
    case Some(e) => Step(s', Failed(RenderFailed(e)), run.log)
    case None => Step(s'.(lastSync := a.now), RenderedEmpty, run.log)
  }

  ghost function BodyStep(site: Site, s: Gateway, a: Attempt, headEtag: string, o: Object): Step {
    if a.bodyFails then Step(s, Failed(BodyFailed), [])
    else if Blank(o.body) then EmptyStep(site, s, a)
    else
      match Parse(site.codec, o.body)
      case Failure(e) => Step(s, Failed(ParseFailed(e)), [])
      case Success(certs) =>
        var run := RenderSpec(site.place, s.live, certs, a.faults);
        var s' := s.(live := Replay(s.live, run.log));
        match run.err
        case Some(e) => Step(s', Failed(RenderFailed(e)), run.log)
        case None =>
          Step(s'.(lastEtag := if headEtag != "" then headEtag else o.getEtag, lastSync := a.now), Rendered, run.log)
  }

  ghost function TryStep(site: Site, hist: History, s: Gateway, a: Attempt): Step
    requires Fits(hist, a)
  {
    if a.headFails then Step(s, Failed(HeadFailed), [])
    else
      match hist[a.h]
      case None => EmptyStep(site, s, a)
      case Some(head) =>
        if head.headEtag != "" && head.headEtag == s.lastEtag then Step(s, Skipped, [])
        else if a.getFails then Step(s, Failed(GetFailed), [])
        else
          match hist[a.g]
          case None => EmptyStep(site, s, a)
          case Some(o) => BodyStep(site, s, a, head.headEtag, o)
  }

  /** An attempt as cycle sees it: a skip refreshes lastSync too. */
  ghost function AttemptStep(site: Site, hist: History, s: Gateway, a: Attempt): Step
    requires Fits(hist, a)
  {
    var step := TryStep(site, hist, s, a);
    if step.result.Skipped? then step.(after := step.after.(lastSync := a.now)) else step
  }

  /** What can happen to a gateway: an attempt, or the death of the process during one, after
      `cut` of its edits, followed by a restart. */
  datatype Event = Try(a: Attempt) | Killed(a: Attempt, cut: nat)

  ghost function EventStep(site: Site, hist: History, s: Gateway, e: Event): Step
    requires Fits(hist, e.a)
  {
    var step := AttemptStep(site, hist, s, e.a);
    match e
    case Try(_) => step
    case Killed(_, cut) =>
      var done := if cut <= |step.log| then step.log[..cut] else step.log;
      Step(Gateway("", 0, Replay(s.live, done)), step.result, done)
  }

  ghost predicate AllFit(hist: History, events: seq<Event>) {
    forall e | e in events :: Fits(hist, e.a)
  }

  ghost function Exec(site: Site, hist: History, s: Gateway, events: seq<Event>): Gateway
    requires AllFit(hist, events)
    decreases |events|
  {
    if events == [] then s
    else EventStep(site, hist, Exec(site, hist, s, events[..|events| - 1]), events[|events| - 1]).after
  }

  function Tries(attempts: seq<Attempt>): seq<Event> {
    seq(|attempts|, i requires 0 <= i < |attempts| => Try(attempts[i]))
  }

  /** Every one of these attempts fails. */
  ghost predicate AllFail(site: Site, hist: History, s: Gateway, attempts: seq<Attempt>)
    requires forall a | a in attempts :: Fits(hist, a)
    decreases |attempts|
  {
    attempts == [] || (
      var init, last := attempts[..|attempts| - 1], attempts[|attempts| - 1];
      AllFail(site, hist, s, init) &&
      AttemptStep(site, hist, Exec(site, hist, s, Tries(init)), last).result.Failed?)
  }

  /** How a cycle ends: the gateway, the attempts made, and the result of the last, if not cancelled. */
  datatype Cycled = Cycled(after: Gateway, used: nat, result: Option<CycleResult>)

  /** One cycle over the attempts that are possible before ctx is cancelled. */
  ghost function CycleSpec(site: Site, hist: History, s: Gateway, attempts: seq<Attempt>): (c: Cycled)
    requires forall a | a in attempts :: Fits(hist, a)
    ensures c.used <= |attempts|
    decreases |attempts|
  {
    hide TryStep;
    if attempts == [] then Cycled(s, 0, None)
    else
      var step := AttemptStep(site, hist, s, attempts[0]);
      if !step.result.Failed? then Cycled(step.after, 1, Some(step.result))
      else
        var rest := CycleSpec(site, hist, step.after, attempts[1..]);
        Cycled(rest.after, rest.used + 1, rest.result)
  }

  ghost predicate AllCyclesFit(hist: History, cycles: seq<seq<Attempt>>) {
    forall c, a | c in cycles && a in c :: Fits(hist, a)
  }

  /** The attempts of a cycle that failed. */
  function Failures(c: Cycled): nat {
    if c.result.Some? && c.used > 0 then c.used - 1 else c.used
  }

  /** The sleeps after the first n attempts of a cycle. */
  predicate Slept(b: BackoffConfig, attempts: seq<Attempt>, n: nat, sleeps: seq<int>) {
    |sleeps| == n <= |attempts| &&
    forall k | 0 <= k < n :: sleeps[k] == Jitter(DelayAfter(b, k), b.jitterFrac, attempts[k].draw)
  }

  /** What a run of cycles comes to: the gateway, the attempts made, and how many failed in each cycle. */
  datatype Ran = Ran(after: Gateway, made: seq<Attempt>, failures: seq<nat>)

  /** Cycle after cycle, until one is cancelled. */
  ghost function RunSpec(site: Site, hist: History, s: Gateway, cycles: seq<seq<Attempt>>): Ran
    requires AllCyclesFit(hist, cycles)
    decreases |cycles|
  {
    hide AttemptStep, CycleSpec;
    if cycles == [] then Ran(s, [], [])
    else
      var first := CycleSpec(site, hist, s, cycles[0]);
      var made := cycles[0][..first.used];
      if first.result.None? then Ran(first.after, made, [Failures(first)])
      else
        var rest := RunSpec(site, hist, first.after, cycles[1..]);
        Ran(rest.after, made + rest.made, [Failures(first)] + rest.failures)
  }

  // ----- the program

  class Downloader {
    const codec: Codec
    const out: OutDir
    var lastEtag: string
    var lastSync: int

    constructor (codec: Codec, out: OutDir)
      ensures this.codec == codec && this.out == out && State() == Gateway("", 0, out.live)
    {
      this.codec := codec;
      this.out := out;
      lastEtag := "";
      lastSync := 0;
    }

    ghost function State(): Gateway
      reads this, out
    {
      Gateway(lastEtag, lastSync, out.live)
    }

    ghost function TheSite(): Site {
      Site(codec, out.place)
    }

    method RenderEmpty(a: Attempt) returns (r: CycleResult)
      modifies this, out
      ensures var step := EmptyStep(TheSite(), old(State()), a);
        State() == step.after && r == step.result && out.log == old(out.log) + step.log
    {
      var changed, err := out.Render([], a.faults);
      if err.Some? {
        return Failed(RenderFailed(err.value));
      }
      lastSync := a.now;
      return RenderedEmpty;
    }

    /** From the body of a successful Get to the end of tryCycle. */
    method RenderBody(a: Attempt, etag: string, o: Object) returns (r: CycleResult)
      modifies this, out
      ensures var step := BodyStep(TheSite(), old(State()), a, etag, o);
        State() == step.after && r == step.result && out.log == old(out.log) + step.log
    {
      assert out.log + [] == out.log;
      if a.bodyFails {
        return Failed(BodyFailed);
      }
      if |Trim(o.body)| == 0 {
        r := RenderEmpty(a);
        return;
      }
      var parsed := ParseAcme(codec, o.body);
      if parsed.Failure? {
        return Failed(ParseFailed(parsed.error));
      }
      var changed, err := out.Render(parsed.value, a.faults);
      if err.Some? {
        return Failed(RenderFailed(err.value));
      }
      var newEtag := etag;
      if newEtag == "" {
        newEtag := o.getEtag;
      }
      lastEtag := newEtag;
      lastSync := a.now;
      return Rendered;
    }

    method TryCycle(hist: History, a: Attempt) returns (r: CycleResult)
      requires Fits(hist, a)
      modifies this, out
      ensures var step := TryStep(TheSite(), hist, old(State()), a);
        State() == step.after && r == step.result && out.log == old(out.log) + step.log
    {
      assert out.log + [] == out.log;
      if a.headFails {
        return Failed(HeadFailed);
      }
      var head := hist[a.h];
      if head.None? {
        r := RenderEmpty(a);
        return;
      }
      var etag := head.value.headEtag;
      if etag != "" && etag == lastEtag {
        return Skipped;
      }
      if a.getFails {
        return Failed(GetFailed);
      }
      var got := hist[a.g];
      if got.None? {
        r := RenderEmpty(a);
        return;
      }
      r := RenderBody(a, etag, got.value);
    }

    /** The retry loop.  ctx is cancelled at the latest after the last of `attempts`: a cycle that
        uses them all without success returns without a result.  `sleeps` are the sleeps after
        each failure. */
    method Cycle(hist: History, attempts: seq<Attempt>, backoff: BackoffConfig)
      returns (used: nat, result: Option<CycleResult>, sleeps: seq<int>)
      requires forall a | a in attempts :: Fits(hist, a)
      modifies this, out
      ensures Cycled(State(), used, result) == CycleSpec(TheSite(), hist, old(State()), attempts)
      ensures Slept(backoff, attempts, Failures(Cycled(State(), used, result)), sleeps)
    {
      hide TryStep, EmptyStep, BodyStep, Jitter, NextDelay;
      var delay := backoff.initial;
      sleeps := [];
      ghost var s := State();
      used := 0;
      assert attempts[0..] == attempts;
      while used < |attempts|
        invariant used <= |attempts|
        invariant var rest := CycleSpec(TheSite(), hist, State(), attempts[used..]);
          CycleSpec(TheSite(), hist, s, attempts) == Cycled(rest.after, used + rest.used, rest.result)
        invariant |sleeps| == used && delay == DelayAfter(backoff, used)
        invariant forall i | 0 <= i < used :: sleeps[i] == Jitter(DelayAfter(backoff, i), backoff.jitterFrac, attempts[i].draw)
      {
        var a := attempts[used];
        assert a in attempts && attempts[used..][1..] == attempts[used + 1..];
        var r := TryCycle(hist, a);
        if r.Rendered? || r.RenderedEmpty? {
          return used + 1, Some(r), sleeps;
        }
        if r.Skipped? {
          lastSync := a.now;
          return used + 1, Some(r), sleeps;
        }
        sleeps := sleeps + [Jitter(delay, backoff.jitterFrac, a.draw)];
        delay := NextDelay(delay, backoff);
        used := used + 1;
      }
      result := None;
    }

    /** The polling loop: one cycle at once, then one each time the interval elapses, until a cycle
        is cancelled or the schedule ends.  `ran` are the attempts made, `sleeps` the sleeps of each
        cycle. */
    method Run(hist: History, interval: int, cycles: seq<seq<Attempt>>, backoff: BackoffConfig)
      returns (ok: bool, ran: seq<Attempt>, sleeps: seq<seq<int>>)
      requires AllCyclesFit(hist, cycles)
      modifies this, out
      ensures ok <==> interval > 0
      ensures !ok ==> State() == old(State()) && ran == [] && sleeps == []
      ensures ok ==> var run := RunSpec(TheSite(), hist, old(State()), cycles);
        && State() == run.after && ran == run.made && |sleeps| == |run.failures| <= |cycles|
        && forall i | 0 <= i < |sleeps| :: Slept(if backoff == UNSET then PRODUCTION else backoff, cycles[i], run.failures[i], sleeps[i])
    {
      hide CycleSpec, RunSpec, AllCyclesFit, Slept;
      ran, sleeps := [], [];
      ghost var s := State();
      ok := interval > 0;
      if !ok {
        return;
      }
      var pacing := OrDefault(backoff);
      UnsetIsProduction(backoff);
      ghost var run, failures: seq<nat> := RunSpec(TheSite(), hist, s, cycles), [];
      assert cycles[0..] == cycles;
      assert [] + run.made == run.made && [] + run.failures == run.failures;
      for i := 0 to |cycles|
        invariant AllCyclesFit(hist, cycles[i..])
        invariant var rest := RunSpec(TheSite(), hist, State(), cycles[i..]);
          run == Ran(rest.after, ran + rest.made, failures + rest.failures)
        invariant |sleeps| == |failures| == i
        invariant forall j | 0 <= j < i :: Slept(pacing, cycles[j], failures[j], sleeps[j])
      {
        var c := cycles[i];
        RunStep(TheSite(), hist, State(), cycles, i, ran, failures);
        var used, result, slept := Cycle(hist, c, pacing);
        ran := ran + c[..used];
        sleeps := sleeps + [slept];
        failures := failures + [Failures(Cycled(State(), used, result))];
        if result.None? {
          return;
        }
      }
      assert cycles[|cycles|..] == [];
      RunEnds(TheSite(), hist, State(), ran, failures);
    }
  }

  /** In production the kth sleep of a cycle aims, with its draw, at 2^k seconds but no more than 60,
      give or take a fifth. */
  lemma ProductionSleeps(attempts: seq<Attempt>, n: nat, sleeps: seq<int>)
    requires Slept(PRODUCTION, attempts, n, sleeps) && forall a | a in attempts :: 0.0 <= a.draw < 1.0
    ensures forall k | 0 <= k < n ::
      var x := Aimed(Min(60_000_000_000, 1_000_000_000 * Pow2(k)), 0.2, attempts[k].draw);
      sleeps[k] as real <= x < sleeps[k] as real + 1.0
  {
    hide Aimed, Jitter, DelayAfter;
    forall k | 0 <= k < n
      ensures var x := Aimed(Min(60_000_000_000, 1_000_000_000 * Pow2(k)), 0.2, attempts[k].draw);
        sleeps[k] as real <= x < sleeps[k] as real + 1.0
    {
      var d := DelayAfter(PRODUCTION, k);
      DoublingDelay(PRODUCTION, k);
      assert attempts[k] in attempts;
      JitterIs(d, 0.2, attempts[k].draw);
      AimedPositive(d, attempts[k].draw);
    }
  }

  lemma AimedPositive(d: int, draw: real)
    requires d >= 0 && 0.0 <= draw < 1.0
    ensures Aimed(d, 0.2, draw) >= 0.0
  {
    var r := d as real;
    assert 1.0 - 0.2 + 2.0 * 0.2 * draw >= 0.8;
    assert r * (1.0 - 0.2 + 2.0 * 0.2 * draw) >= 0.0;
  }

  lemma RunEnds(site: Site, hist: History, s: Gateway, ran: seq<Attempt>, failures: seq<nat>)
    ensures AllCyclesFit(hist, []) && RunSpec(site, hist, s, []) == Ran(s, [], []) && ran + [] == ran && failures + [] == failures
  {
  }

  /** One more cycle. */
  lemma RunStep(site: Site, hist: History, s: Gateway, cycles: seq<seq<Attempt>>, i: nat, ran: seq<Attempt>, failures: seq<nat>)
    requires i < |cycles| && AllCyclesFit(hist, cycles)
    ensures AllCyclesFit(hist, cycles[i..]) && AllCyclesFit(hist, cycles[i + 1..])
    ensures forall a | a in cycles[i] :: Fits(hist, a)
    ensures var run, first := RunSpec(site, hist, s, cycles[i..]), CycleSpec(site, hist, s, cycles[i]);
      var ran', failures' := ran + cycles[i][..first.used], failures + [Failures(first)];
      Ran(run.after, ran + run.made, failures + run.failures) ==
        if first.result.None? then Ran(first.after, ran', failures')
        else
          var rest := RunSpec(site, hist, first.after, cycles[i + 1..]);
          Ran(rest.after, ran' + rest.made, failures' + rest.failures)
  {
    hide CycleSpec, Failures;
    assert cycles[i] in cycles && cycles[i..][1..] == cycles[i + 1..] && cycles[i..][0] == cycles[i];
    assert forall c | c in cycles[i..] :: c in cycles;
    var first := CycleSpec(site, hist, s, cycles[i]);
    if first.result.Some? {
      var made, rest := cycles[i][..first.used], RunSpec(site, hist, first.after, cycles[i + 1..]);
      assert ran + (made + rest.made) == (ran + made) + rest.made;
      assert failures + ([Failures(first)] + rest.failures) == (failures + [Failures(first)]) + rest.failures;
    }
  }

  /** What a cycle is, attempt by attempt: all but the last fail, and so does the last exactly when the
      cycle was cancelled with no attempt left. */
  ghost predicate CycleEnds(site: Site, hist: History, s: Gateway, attempts: seq<Attempt>, c: Cycled)
    requires forall a | a in attempts :: Fits(hist, a)
  {
    && c.used <= |attempts|
    && c.after == Exec(site, hist, s, Tries(attempts[..c.used]))
    && match c.result
       case None => c.used == |attempts| && AllFail(site, hist, s, attempts)
       case Some(r) =>
         && c.used > 0 && !r.Failed? && AllFail(site, hist, s, attempts[..c.used - 1])
         && AttemptStep(site, hist, Exec(site, hist, s, Tries(attempts[..c.used - 1])), attempts[c.used - 1]).result == r
  }

  lemma {:induction false} CycleFrom(site: Site, hist: History, s: Gateway, attempts: seq<Attempt>, n: nat)
    requires (forall a | a in attempts :: Fits(hist, a)) && n <= |attempts| && AllFail(site, hist, s, attempts[..n])
    ensures var rest := CycleSpec(site, hist, Exec(site, hist, s, Tries(attempts[..n])), attempts[n..]);
      CycleEnds(site, hist, s, attempts, Cycled(rest.after, n + rest.used, rest.result))
    decreases |attempts| - n
  {
    hide AttemptStep, AllFail, Exec;
    if n == |attempts| {
      assert attempts[..n] == attempts && attempts[n..] == [];
    } else {
      TriesStep(site, hist, s, attempts, n);
      assert attempts[n..][1..] == attempts[n + 1..] && attempts[n..][0] == attempts[n];
      if AttemptStep(site, hist, Exec(site, hist, s, Tries(attempts[..n])), attempts[n]).result.Failed? {
        CycleFrom(site, hist, s, attempts, n + 1);
      }
    }
  }

  /** A cycle returns only on cancellation or after an attempt that does not fail. */
  lemma CycleIs(site: Site, hist: History, s: Gateway, attempts: seq<Attempt>)
    requires forall a | a in attempts :: Fits(hist, a)
    ensures CycleEnds(site, hist, s, attempts, CycleSpec(site, hist, s, attempts))
  {
    hide AttemptStep, CycleEnds, CycleSpec;
    assert attempts[..0] == [] && attempts[0..] == attempts && Tries([]) == [];
    CycleFrom(site, hist, s, attempts, 0);
  }

  /** The polling loop is nothing but the attempts it makes. */
  lemma {:induction false} RunIsExec(site: Site, hist: History, s: Gateway, cycles: seq<seq<Attempt>>)
    requires AllCyclesFit(hist, cycles)
    ensures var run := RunSpec(site, hist, s, cycles);
      (forall a | a in run.made :: Fits(hist, a)) && run.after == Exec(site, hist, s, Tries(run.made))
    decreases |cycles|
  {
    hide AttemptStep, AllFail, CycleSpec, EventStep;
    if cycles == [] {
      assert Tries([]) == [];
    } else {
      assert cycles[0] in cycles;
      CycleIs(site, hist, s, cycles[0]);
      var first := CycleSpec(site, hist, s, cycles[0]);
      var made := cycles[0][..first.used];
      if first.result.Some? {
        RunIsExec(site, hist, first.after, cycles[1..]);
        var rest := RunSpec(site, hist, first.after, cycles[1..]);
        ExecConcat(site, hist, s, Tries(made), Tries(rest.made));
        assert Tries(made + rest.made) == Tries(made) + Tries(rest.made);
      }
    }
  }

  /** One more attempt. */
  lemma TriesStep(site: Site, hist: History, s: Gateway, attempts: seq<Attempt>, n: nat)
    requires (forall a | a in attempts :: Fits(hist, a)) && n < |attempts|
    ensures attempts[n] in attempts
    ensures var init := attempts[..n];
      var step := AttemptStep(site, hist, Exec(site, hist, s, Tries(init)), attempts[n]);
      && Exec(site, hist, s, Tries(attempts[..n + 1])) == step.after
      && (AllFail(site, hist, s, init) && step.result.Failed? ==> AllFail(site, hist, s, attempts[..n + 1]))
  {
    hide AttemptStep, AllFail, Exec;
    var next := attempts[..n + 1];
    assert next[..n] == attempts[..n];
    ExecTries(site, hist, s, next);
    FailTries(site, hist, s, next);
  }

  lemma ExecTries(site: Site, hist: History, s: Gateway, attempts: seq<Attempt>)
    requires attempts != [] && forall a | a in attempts :: Fits(hist, a)
    ensures var init, last := attempts[..|attempts| - 1], attempts[|attempts| - 1];
      Exec(site, hist, s, Tries(attempts)) == AttemptStep(site, hist, Exec(site, hist, s, Tries(init)), last).after
  {
    hide AttemptStep;
    var n := |attempts| - 1;
    assert Tries(attempts)[..n] == Tries(attempts[..n]);
    assert Tries(attempts)[n] == Try(attempts[n]);
  }

  lemma FailTries(site: Site, hist: History, s: Gateway, attempts: seq<Attempt>)
    requires attempts != [] && forall a | a in attempts :: Fits(hist, a)
    ensures var init, last := attempts[..|attempts| - 1], attempts[|attempts| - 1];
      AllFail(site, hist, s, attempts) <==>
        AllFail(site, hist, s, init) && AttemptStep(site, hist, Exec(site, hist, s, Tries(init)), last).result.Failed?
  {
    hide AttemptStep, Exec;
  }

  lemma {:induction false} ExecConcat(site: Site, hist: History, s: Gateway, a: seq<Event>, b: seq<Event>)
    requires AllFit(hist, a) && AllFit(hist, b)
    ensures AllFit(hist, a + b)
    ensures Exec(site, hist, s, a + b) == Exec(site, hist, Exec(site, hist, s, a), b)
    decreases |b|
  {
    if b == [] {
      assert a + b == a;
    } else {
      assert (a + b)[..|a + b| - 1] == a + b[..|b| - 1];
      ExecConcat(site, hist, s, a, b[..|b| - 1]);
    }
  }
}
