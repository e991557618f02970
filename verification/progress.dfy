/** Bounded progress of the queue worker on a free medium. */
module Progress {
  import opened System
  import opened Contention
  import opened ListenBeforeTalk
  import Airtime
  import Modem

  function Max(a: int, b: int): int {
    if a >= b then a else b
  }

  /** The window still to be waited for; before it is drawn, the largest possible one. */
  function Remaining(cfg: Config, c: Timers): nat {
    Max((if c.picked then c.target else WindowMax(cfg)) - c.passed, 0)
  }

  /** The latest time of the next attempt, when ticks are at most d ms apart and the last was at `last`. */
  function Deadline(cfg: Config, c: Timers, last: nat, d: nat): int {
    var rem := Remaining(cfg, c);
    if c.since == 0 then last + cfg.difs + rem + 3 * d
    else if c.start == 0 then Max(last, c.since + cfg.difs - 1) + rem + 2 * d
    else Max(last, c.start + rem - 1) + d
  }

  /** The clock reading of the tick before tick k. */
  function Previous(ps: seq<Poll>, last: nat, k: nat): nat
    requires k <= |ps|
  {
    if k == 0 then last else ps[k - 1].now
  }

  predicate SteadyAt(ps: seq<Poll>, last: nat, d: nat, k: nat)
    requires k < |ps|
  {
    && !ps[k].interference
    && Previous(ps, last, k) < ps[k].now <= Previous(ps, last, k) + d
    && ps[k].now <= ps[k].later <= ps[k].armed
  }

  /** The medium stays free and the worker ticks at least every d ms; clock readings advance. */
  predicate Steady(ps: seq<Poll>, last: nat, d: nat) {
    forall k :: 0 <= k < |ps| ==> SteadyAt(ps, last, d, k)
  }

  function Ticks(ps: seq<Poll>): seq<Event> {
    seq(|ps|, k requires 0 <= k < |ps| => Tick(ps[k]))
  }

  lemma {:induction false} SteadyTail(ps: seq<Poll>, last: nat, d: nat)
    requires Steady(ps, last, d) && ps != []
    ensures Steady(ps[1..], ps[0].now, d)
  {
    var qs := ps[1..];
    forall k | 0 <= k < |qs|
      ensures SteadyAt(qs, ps[0].now, d, k)
    {
      assert SteadyAt(ps, last, d, k + 1);
    }
  }

  /** What a free poll of an open state makes of the timers, in the terms of the deadline. */
  lemma {:induction false} PollAdvances(cfg: Config, c: Timers, last: nat, now: nat, window: nat, d: nat)
    requires c.start != 0 ==> 0 < c.since && c.since + cfg.difs <= c.start <= last
    requires c.since <= last && (c.since != 0 ==> c.picked)
    requires 0 <= c.passed && (c.passed > 0 ==> c.picked && c.passed < c.target)
    requires 0 < last < now <= last + d && window <= WindowMax(cfg)
    ensures var r := Listen(c, now, true, window, cfg.difs, cfg.flush);
      !r.1 ==> now + d <= Deadline(cfg, r.0, now, d) <= Deadline(cfg, c, last, d)
    ensures var r := Listen(c, now, true, window, cfg.difs, cfg.flush);
      r.1 ==> now <= Deadline(cfg, c, last, d)
  {
    hide WindowMax;
  }

  lemma {:induction false} WaitingTick(cfg: Config, s: State, i: Poll)
    requires Inv(cfg, s) && Enabled(s, Tick(i)) && Open(s) && !Polling(cfg, s.(clock := i.now), i).send
    ensures var s' := Step(cfg, s, Tick(i));
      && Open(s') && s' == s.(clock := i.now, timers := s'.timers, trace := s'.trace)
      && s'.timers == Listen(s.timers, i.now, !i.interference, Window(cfg, s, i), cfg.difs, cfg.flush).0
  {
    hide Airtime.ContentionWindow;
  }

  /** One tick that does not send brings the deadline no later. */
  lemma {:induction false} TickKeepsDeadline(cfg: Config, s: State, i: Poll, d: nat)
    requires Inv(cfg, s) && Open(s) && Sendable(s) && !i.interference
    requires s.clock < i.now <= s.clock + d && i.now <= i.later <= i.armed
    requires !Polling(cfg, s.(clock := i.now), i).send
    ensures var s' := Step(cfg, s, Tick(i));
      && Inv(cfg, s') && Open(s') && Sendable(s') && s'.clock == i.now && s'.airtime == s.airtime
      && s'.queue == s.queue && s'.modem == s.modem && s'.host == s.host
      && i.now + d <= Deadline(cfg, s'.timers, i.now, d) <= Deadline(cfg, s.timers, s.clock, d)
  {
    StepInv(cfg, s, Tick(i));
    WindowBounded(cfg, s, i);
    WaitingTick(cfg, s, i);
    PollAdvances(cfg, s.timers, s.clock, i.now, Window(cfg, s, i), d);
    hide Deadline, Step, Listen, Window, TraceInv, QuietInv, AttemptsInv;
  }

  lemma {:induction false} TickSends(cfg: Config, s: State, i: Poll, d: nat)
    requires Inv(cfg, s) && Open(s) && Sendable(s) && !i.interference
    requires s.clock < i.now <= s.clock + d && i.now <= i.later <= i.armed
    requires !Airtime.Locked(s.airtime, cfg.limits)
    requires Polling(cfg, s.(clock := i.now), i).send
    ensures i.now <= Deadline(cfg, s.timers, s.clock, d)
    ensures var s' := Step(cfg, s, Tick(i));
      && s'.modem == Modem.ToAir(s.modem, s.queue[0], i.tag)
      && s'.pc.Popping? && s'.queue == s.queue && s'.host == s.host
  {
    WindowBounded(cfg, s, i);
  }

  lemma {:induction false} TicksFirst(cfg: Config, s: State, ps: seq<Poll>, k: nat)
    requires Airtime.Shaped(s.airtime) && k < |ps|
    ensures RunFrom(cfg, s, Ticks(ps[..k + 1])) ==
            RunFrom(cfg, Step(cfg, s, Tick(ps[0])), Ticks(ps[1..][..k]))
  {
    var first := [Tick(ps[0])];
    assert Ticks(ps[..k + 1]) == first + Ticks(ps[1..][..k]);
    RunAppend(cfg, s, first, Ticks(ps[1..][..k]));
    assert first[..0] == [];
  }

  /**
   * Bounded progress: with a packet queued, transmission enabled, the radio not transmitting, no
   * interference, no duty-cycle lock, no radio events and ticks at most d ms apart, the head of the
   * queue goes on air at the latest at the deadline.
   */
  lemma {:induction false} HeadIsSent(cfg: Config, s: State, ps: seq<Poll>, d: nat) returns (k: nat)
    requires Inv(cfg, s) && Open(s) && Sendable(s) && !Airtime.Locked(s.airtime, cfg.limits)
    requires Steady(ps, s.clock, d)
    requires ps != [] && ps[|ps| - 1].now >= Deadline(cfg, s.timers, s.clock, d)
    ensures k < |ps| && ps[k].now <= Deadline(cfg, s.timers, s.clock, d)
    ensures RunFrom(cfg, s, Ticks(ps[..k])).modem == s.modem
    ensures var t := RunFrom(cfg, s, Ticks(ps[..k + 1]));
      && t.modem == Modem.ToAir(s.modem, s.queue[0], ps[k].tag)
      && t.pc.Popping? && t.queue == s.queue && t.host == s.host
    decreases ps
  {
    assert SteadyAt(ps, s.clock, d, 0);
    hide Inv, Deadline, Steady, Airtime.Locked;
    if Polling(cfg, s.(clock := ps[0].now), ps[0]).send {
      k := 0;
      TickSends(cfg, s, ps[0], d);
      TicksFirst(cfg, s, ps, 0);
    } else {
      TickKeepsDeadline(cfg, s, ps[0], d);
      SteadyTail(ps, s.clock, d);
      assert |ps| > 1;
      var n := HeadIsSent(cfg, Step(cfg, s, Tick(ps[0])), ps[1..], d);
      k := n + 1;
      TicksFirst(cfg, s, ps, n);
      TicksFirst(cfg, s, ps, k);
    }
  }

  /** The deadline in absolute terms: a DIFS, the largest window and three tick gaps. */
  lemma {:induction false} DeadlineBounded(cfg: Config, es: seq<Event>, d: nat)
    requires d > 0
    ensures var s := Run(cfg, es);
      Deadline(cfg, s.timers, s.clock, d) <= s.clock + cfg.difs + 59 * cfg.slot + 3 * d
  {
    RunInv(cfg, es);
  }

  /** Either a normal attempt follows, or the window stays and the progress is kept. */
  predicate Kept(s: State, t: State) {
    && s.trace <= t.trace
    && ((exists k :: |s.trace| <= k < |t.trace| && NormalAttempt(t.trace[k]))
        || (t.timers.picked && t.timers.target == s.timers.target && t.timers.passed >= s.timers.passed))
  }

  lemma {:induction false} TickKeepsProgress(cfg: Config, s: State, i: Poll)
    requires Inv(cfg, s) && s.timers.picked && Enabled(s, Tick(i))
    ensures Kept(s, TickStep(cfg, s, i))
  {
    hide Airtime.Add, Airtime.Locked, Airtime.ContentionWindow, Modem.ToAir;
    var t := TickStep(cfg, s, i);
    if !t.timers.picked {
      assert NormalAttempt(t.trace[|s.trace| + 1]);
    }
  }

  lemma {:induction false} StepKeepsProgress(cfg: Config, s: State, e: Event)
    requires Inv(cfg, s) && s.timers.picked
    ensures Kept(s, Step(cfg, s, e))
  {
    hide TickStep, Airtime.Update, PushAll;
    match e
    case Tick(i) => if Enabled(s, e) { TickKeepsProgress(cfg, s, i); }
    case _ =>
  }

  lemma {:induction false} TraceGrows(cfg: Config, s: State, e: Event)
    requires Airtime.Shaped(s.airtime)
    ensures s.trace <= Step(cfg, s, e).trace
  {
  }

  /** Until the next normal attempt the window drawn stays and the progress made is kept, whatever
      happens: carriers, interference, restarts, pushes. */
  lemma {:induction false} ProgressIsKept(cfg: Config, es: seq<Event>, n: nat)
    requires n <= |es| && Run(cfg, es[..n]).timers.picked
    ensures Kept(Run(cfg, es[..n]), Run(cfg, es))
    decreases |es|
  {
    if n == |es| {
      assert es[..n] == es;
    } else {
      var before := es[..|es| - 1];
      assert before[..n] == es[..n];
      ProgressIsKept(cfg, before, n);
      var s, m := Run(cfg, es[..n]), Run(cfg, before);
      RunInv(cfg, before);
      if exists k :: |s.trace| <= k < |m.trace| && NormalAttempt(m.trace[k]) {
        var k :| |s.trace| <= k < |m.trace| && NormalAttempt(m.trace[k]);
        TraceGrows(cfg, m, es[|es| - 1]);
        assert NormalAttempt(Run(cfg, es).trace[k]);
      } else {
        StepKeepsProgress(cfg, m, es[|es| - 1]);
      }
    }
  }
}
