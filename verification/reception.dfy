/**
 * Radio events against the queue worker: how long one inhibits sending, whatever the worker and the
 * host do meanwhile, and what a reception does to the listen-before-talk timers, which is nothing.
 */
module Reception {
  import opened Frames
  import opened System
  import opened Contention
  import opened ListenBeforeTalk
  import Airtime
  import Modem
  import Scripts

  /** The timers of the normal mode. */
  function Running(c: Timers): (nat, nat, int, nat, bool) {
    (c.since, c.start, c.passed, c.target, c.picked)
  }

  /** By now a DIFS and the window have passed, counting all the time since the last poll. */
  predicate Due(difs: nat, c: Timers, now: nat) {
    now - c.since >= difs && c.passed + (if c.start == 0 then 0 else now - c.start) >= c.target
  }

  predicate Attempts(before: seq<Obs>, after: seq<Obs>) {
    |after| > |before| && after[|after| - 1].Attempted?
  }

  // ---- what restarts DIFS ----

  lemma {:induction false} OpenTick(cfg: Config, s: State, i: Poll)
    requires Inv(cfg, s) && Enabled(s, Tick(i)) && Open(s) && s.timers.since != 0
    ensures var s' := TickStep(cfg, s, i); var due := Due(cfg.difs, s.timers, i.now);
      && (s'.timers.since != s.timers.since <==> i.interference || due)
      && (Attempts(s.trace, s'.trace) <==> !i.interference && due)
  {
    hide Airtime.ContentionWindow, Airtime.Locked, Airtime.Add;
  }

  lemma {:induction false} NoPoll(cfg: Config, s: State, e: Event)
    requires Inv(cfg, s) && Enabled(s, e) && s.timers.since != 0 && !(e.Tick? && Open(s))
    ensures Running(Step(cfg, s, e).timers) == Running(s.timers) && !Attempts(s.trace, Step(cfg, s, e).trace)
  {
    hide Airtime.Update, Airtime.ContentionWindow, PushAll;
  }

  /**
   * Step by step: DIFS restarts exactly when a worker iteration that may poll sees interference or goes
   * on to send. No other event, and in particular no radio event, changes any of the timers.
   */
  lemma {:induction false} DifsRestarts(cfg: Config, s: State, e: Event)
    requires Inv(cfg, s) && Enabled(s, e) && s.timers.since != 0
    ensures var s' := Step(cfg, s, e);
      && (s'.timers.since != s.timers.since <==>
            e.Tick? && Open(s) && (e.poll.interference || Due(cfg.difs, s.timers, e.poll.now)))
      && (!(e.Tick? && Open(s)) ==> Running(s'.timers) == Running(s.timers))
      && (Attempts(s.trace, s'.trace) <==>
            e.Tick? && Open(s) && !e.poll.interference && Due(cfg.difs, s.timers, e.poll.now))
  {
    hide Inv, Due, Attempts, TickStep;
    if e.Tick? && Open(s) { OpenTick(cfg, s, e.poll); } else { NoPoll(cfg, s, e); }
  }

  /** A transmitting radio and running timers exclude each other. */
  ghost predicate TxIsIdle(s: State) {
    s.modem.radio == Modem.Tx ==> s.timers.since == 0
  }

  lemma {:induction false} TxIsIdleStep(cfg: Config, s: State, e: Event)
    requires Inv(cfg, s) && TxIsIdle(s)
    ensures TxIsIdle(Step(cfg, s, e))
  {
    hide Airtime.Update, Airtime.Add, Airtime.Locked, Airtime.ContentionWindow, PushAll;
  }

  lemma {:induction false} RunIsIdle(cfg: Config, es: seq<Event>)
    ensures Inv(cfg, Run(cfg, es)) && TxIsIdle(Run(cfg, es))
    decreases |es|
  {
    hide Inv;
    if es == [] {
      RunInv(cfg, es);
    } else {
      RunIsIdle(cfg, es[..|es| - 1]);
      TxIsIdleStep(cfg, Run(cfg, es[..|es| - 1]), es[|es| - 1]);
      RunInv(cfg, es);
    }
  }

  // ---- inhibition ----

  /** No radio event, and no worker iteration as late as d. */
  predicate Undisturbed(es: seq<Event>, d: nat) {
    forall k :: 0 <= k < |es| ==> !es[k].Medium? && !es[k].TxDoneIrq? && (es[k].Tick? ==> es[k].poll.now < d)
  }

  /** What inhibition allows: `t` is `s` with neither a poll nor an attempt, and nothing more on air. */
  ghost predicate HeldBack(s: State, t: State) {
    && Running(t.timers) == Running(s.timers)
    && t.modem.air == s.modem.air && t.modem.sent == s.modem.sent
    && s.trace <= t.trace && forall k :: |s.trace| <= k < |t.trace| ==> t.trace[k].Skipped?
  }

  ghost predicate HeldUntil(s: State, d: nat) {
    Airtime.Shaped(s.airtime) && !s.timers.txEnable && s.timers.disabledUntil == d
  }

  lemma {:induction false} HeldStep(cfg: Config, s: State, e: Event, d: nat)
    requires HeldUntil(s, d) && Undisturbed([e], d)
    ensures HeldUntil(Step(cfg, s, e), d) && HeldBack(s, Step(cfg, s, e))
  {
    hide Airtime.Update, Airtime.ContentionWindow, PushAll;
    assert [e][0] == e;
  }

  lemma {:induction false} HeldTransitive(s: State, t: State, u: State)
    requires HeldBack(s, t) && HeldBack(t, u)
    ensures HeldBack(s, u)
  {
  }

  lemma {:induction false} Same(s: State)
    ensures HeldBack(s, s)
  {
  }

  lemma {:induction false} Held(cfg: Config, s: State, es: seq<Event>, d: nat)
    requires HeldUntil(s, d) && Undisturbed(es, d)
    ensures HeldUntil(RunFrom(cfg, s, es), d) && HeldBack(s, RunFrom(cfg, s, es))
    decreases |es|
  {
    hide Step, HeldBack;
    if es == [] {
      assert HeldBack(s, s) by { Same(s); }
    } else {
      var n := |es| - 1;
      var t := RunFrom(cfg, s, es[..n]);
      Held(cfg, s, es[..n], d);
      assert Undisturbed([es[n]], d);
      HeldStep(cfg, t, es[n], d);
      HeldTransitive(s, t, Step(cfg, t, es[n]));
    }
  }

  /** The timeout that a preamble or a valid header starts. */
  function Timeout(c: Timers, cause: Cause): nat {
    if cause == HeaderValid then c.dataTimeout else c.headerTimeout
  }

  predicate Busy(cause: Cause) {
    cause in {PreambleDetected, HeaderValid}
  }

  lemma {:induction false} EventHolds(cfg: Config, s: State, cause: Cause, t: nat, es: seq<Event>)
    requires Airtime.Shaped(s.airtime) && Busy(cause) && s.clock <= t
    requires Undisturbed(es, t + Timeout(s.timers, cause))
    ensures var heard := Step(cfg, s, Medium(cause, t)); var u := RunFrom(cfg, s, [Medium(cause, t)] + es);
      && u == RunFrom(cfg, heard, es) && HeldUntil(u, t + Timeout(s.timers, cause)) && HeldBack(heard, u)
      && Running(heard.timers) == Running(s.timers) && heard.modem == s.modem
      && |heard.trace| == |s.trace| + 1 && s.trace <= heard.trace
  {
    hide HeldBack;
    var heard := Step(cfg, s, Medium(cause, t));
    RunOne(cfg, s, Medium(cause, t));
    RunAppend(cfg, s, [Medium(cause, t)], es);
    Held(cfg, heard, es, t + Timeout(s.timers, cause));
  }

  lemma {:induction false} HeldTick(cfg: Config, s: State, i: Poll, d: nat)
    requires HeldUntil(s, d) && Enabled(s, Tick(i)) && s.modem.radio != Modem.Tx
    ensures var t := Step(cfg, s, Tick(i));
      (t.timers.txEnable <==> i.now >= d) && t.modem == s.modem && t.trace == s.trace + [Skipped(i.now)]
  {
  }

  /**
   * A preamble or a valid header at t inhibits sending until exactly its timeout has passed, in every
   * run: whatever the host, the worker and restarts do meanwhile, no worker iteration before the
   * deadline polls or attempts to send and no frame goes on air; and the first iteration that finds
   * the radio not transmitting re-enables sending if and only if it comes at or behind the deadline.
   */
  lemma {:induction false} InhibitionWindow(cfg: Config, es: seq<Event>, cause: Cause, t: nat, more: seq<Event>,
                                            i: Poll)
    requires Busy(cause) && Run(cfg, es).clock <= t
    requires Undisturbed(more, t + Timeout(Run(cfg, es).timers, cause))
    ensures var s := Run(cfg, es); var u := Run(cfg, es + ([Medium(cause, t)] + more));
      && !u.timers.txEnable && u.modem.air == s.modem.air && u.modem.sent == s.modem.sent
      && s.trace <= u.trace && (forall k :: |s.trace| < k < |u.trace| ==> u.trace[k].Skipped?)
      && (Enabled(u, Tick(i)) && u.modem.radio != Modem.Tx ==>
            && (Step(cfg, u, Tick(i)).timers.txEnable <==> i.now >= t + Timeout(s.timers, cause))
            && Step(cfg, u, Tick(i)).modem == u.modem
            && Step(cfg, u, Tick(i)).trace == u.trace + [Skipped(i.now)])
  {
    var s := Run(cfg, es);
    RunContinues(cfg, es, [Medium(cause, t)] + more);
    EventHolds(cfg, s, cause, t, more);
    var u := Run(cfg, es + ([Medium(cause, t)] + more));
    if Enabled(u, Tick(i)) && u.modem.radio != Modem.Tx { HeldTick(cfg, u, i, t + Timeout(s.timers, cause)); }
  }

  // ---- receptions ----

  lemma {:induction false} HeldTimers(s: State, t: State)
    requires HeldBack(s, t)
    ensures Running(t.timers) == Running(s.timers) && t.modem.air == s.modem.air
  {
  }

  /** A whole reception: preamble, header and RX_DONE, with anything undisturbed in between. */
  datatype Received = Received(preamble: nat, first: seq<Event>, header: nat, second: seq<Event>, done: nat) {
    function Head(): seq<Event> {
      [Medium(PreambleDetected, preamble)] + first
    }

    function Body(): seq<Event> {
      [Medium(HeaderValid, header)] + second
    }

    function Events(): seq<Event> {
      Head() + Body() + [Medium(RxDone, done)]
    }

    /** The radio events come in time: the clock has not passed them, and no timeout ends the wait. */
    ghost predicate From(cfg: Config, s: State)
      requires Airtime.Shaped(s.airtime)
    {
      var m := RunFrom(cfg, s, Head());
      && s.clock <= preamble && Undisturbed(first, preamble + s.timers.headerTimeout)
      && m.clock <= header && Undisturbed(second, header + m.timers.dataTimeout)
      && RunFrom(cfg, m, Body()).clock <= done
    }
  }

  lemma {:induction false} ReceptionEnds(cfg: Config, s: State, t: nat)
    requires Airtime.Shaped(s.airtime) && s.clock <= t
    ensures var u := Step(cfg, s, Medium(RxDone, t));
      Running(u.timers) == Running(s.timers) && u.timers.txEnable && u.modem.air == s.modem.air
  {
  }

  lemma {:induction false} Receiving(cfg: Config, s: State, r: Received) returns (u: State)
    requires Airtime.Shaped(s.airtime) && r.From(cfg, s)
    ensures u == RunFrom(cfg, s, r.Events()) && Running(u.timers) == Running(s.timers) && u.timers.txEnable
    ensures u.modem.air == s.modem.air
  {
    hide HeldBack, Step, HeldUntil;
    EventHolds(cfg, s, PreambleDetected, r.preamble, r.first);
    var m := RunFrom(cfg, s, r.Head());
    EventHolds(cfg, m, HeaderValid, r.header, r.second);
    var n := RunFrom(cfg, m, r.Body());
    RunAppend(cfg, s, r.Head(), r.Body());
    RunSnoc(cfg, s, r.Head() + r.Body(), Medium(RxDone, r.done));
    u := RunFrom(cfg, s, r.Events());
    ReceptionEnds(cfg, n, r.done);
    HeldTimers(Step(cfg, s, Medium(PreambleDetected, r.preamble)), m);
    HeldTimers(Step(cfg, m, Medium(HeaderValid, r.header)), n);
  }

  /** In a reachable state whose timers run and which is not inhibited, the next iteration may poll. */
  lemma {:induction false} RunningIsOpen(cfg: Config, s: State)
    requires Inv(cfg, s) && TxIsIdle(s) && s.timers.since != 0 && s.timers.txEnable
    ensures Open(s)
  {
  }

  /**
   * A reception restarts nothing, in every run: when the timers ran before it, they have the same
   * values behind it, and the next worker iteration sends exactly when a DIFS and the window have
   * passed if the time of the reception counts as waiting.
   */
  lemma {:induction false} ReceptionCounts(cfg: Config, es: seq<Event>, r: Received, i: Poll)
    requires Run(cfg, es).timers.since != 0 && r.From(cfg, Run(cfg, es))
    ensures var s := Run(cfg, es); var u := Run(cfg, es + r.Events());
      && Running(u.timers) == Running(s.timers) && u.modem.air == s.modem.air
      && (Enabled(u, Tick(i)) ==>
            (Attempts(u.trace, Step(cfg, u, Tick(i)).trace) <==>
               !i.interference && Due(cfg.difs, s.timers, i.now)))
  {
    hide Inv, Attempts, Step;
    var s := Run(cfg, es);
    var u := Receiving(cfg, s, r);
    RunContinues(cfg, es, r.Events());
    RunIsIdle(cfg, es + r.Events());
    RunningIsOpen(cfg, u);
    if Enabled(u, Tick(i)) { DifsRestarts(cfg, u, Tick(i)); }
  }

  // ---- the failing case ----

  /** A reception from 1 to 1 + difs, with one worker iteration in it. */
  function WholeDifs(cfg: Config): Received {
    Received(1, [Tick(CalmPoll(1 + cfg.difs))], 1 + cfg.difs, [], 1 + cfg.difs)
  }

  /** One packet is queued and polled for, and the host sets timeouts that outlast a DIFS. */
  function BeforeReception(cfg: Config, p: Packet): seq<Event> {
    Scripts.Start(p) + [Restart(Restarting(true, cfg.difs + 1, 0))]
  }

  lemma {:induction false} FiveSteps(cfg: Config, s: State, es: seq<Event>)
    requires Airtime.Shaped(s.airtime) && |es| == 5
    ensures RunFrom(cfg, s, es) ==
            Step(cfg, Step(cfg, Step(cfg, Step(cfg, Step(cfg, s, es[0]), es[1]), es[2]), es[3]), es[4])
  {
    hide Step;
    RunCons(cfg, s, es);
    RunCons(cfg, Step(cfg, s, es[0]), es[1..]);
    RunCons(cfg, Step(cfg, Step(cfg, s, es[0]), es[1]), es[2..]);
    RunCons(cfg, Step(cfg, Step(cfg, Step(cfg, s, es[0]), es[1]), es[2]), es[3..]);
    RunCons(cfg, Step(cfg, Step(cfg, Step(cfg, Step(cfg, s, es[0]), es[1]), es[2]), es[3]), es[4..]);
    assert es[5..] == [];
  }

  lemma {:induction false} RadioStarts(cfg: Config, s: State, header: nat)
    requires Airtime.Shaped(s.airtime)
    ensures Step(cfg, s, Restart(Restarting(true, header, 0))) ==
            s.(modem := Modem.Start(s.modem, true), timers := s.timers.(headerTimeout := header, dataTimeout := 0))
  {
  }

  lemma {:induction false} HeldIsSkipped(cfg: Config, s: State, now: nat)
    requires Airtime.Shaped(s.airtime) && s.pc.Ready? && s.queue != [] && Sendable(s) && s.clock <= now
    requires !s.timers.txEnable && now < s.timers.disabledUntil && s.modem.radio != Modem.Tx
    ensures Step(cfg, s, Tick(CalmPoll(now))) == s.(clock := now, trace := s.trace + [Skipped(now)])
  {
  }

  lemma {:induction false} MediumSteps(cfg: Config, s: State, now: nat)
    requires Airtime.Shaped(s.airtime) && s.clock <= now
    ensures Step(cfg, s, Medium(PreambleDetected, now)) ==
            s.(timers := OnCause(s.timers, PreambleDetected, now), clock := now, trace := s.trace + [Preamble(now)])
    ensures Step(cfg, s, Medium(HeaderValid, now)) ==
            s.(timers := OnCause(s.timers, HeaderValid, now), clock := now, trace := s.trace + [Header(now)])
    ensures Step(cfg, s, Medium(RxDone, now)) == s.(timers := OnCause(s.timers, RxDone, now), clock := now)
  {
    assert s.trace + [] == s.trace;
  }

  /** The states from the first poll on. */
  lemma {:induction false} Deafened(cfg: Config, p: Packet, s: State) returns (u: State)
    requires s.queue == [p] && s.pc.Ready? && s.timers == Scripts.Waiting() && s.trace == [Polled(1, true)]
    requires s.modem == Modem.INITIAL && s.airtime == Airtime.Initial() && s.clock == 1
    ensures var t := 1 + cfg.difs;
      && u == s.(modem := u.modem, timers := u.timers, clock := t,
                 trace := [Polled(1, true), Preamble(1), Skipped(t), Header(t)])
      && u.modem.radio == Modem.RxContinuous && u.modem.air == [] && u.timers.txEnable && !u.timers.dcd
      && Running(u.timers) == (1, 0, 0, 0, true)
      && !u.timers.flushing
    ensures u == RunFrom(cfg, s, [Restart(Restarting(true, cfg.difs + 1, 0))] + WholeDifs(cfg).Events())
  {
    hide Step, Airtime.Initial;
    var t := 1 + cfg.difs;
    var es := [Restart(Restarting(true, cfg.difs + 1, 0))] + WholeDifs(cfg).Events();
    assert es == [Restart(Restarting(true, cfg.difs + 1, 0)), Medium(PreambleDetected, 1), Tick(CalmPoll(t)),
                  Medium(HeaderValid, t), Medium(RxDone, t)];
    FiveSteps(cfg, s, es);
    RadioStarts(cfg, s, cfg.difs + 1);
    var a := Step(cfg, s, es[0]);
    MediumSteps(cfg, a, 1);
    var b := Step(cfg, a, es[1]);
    HeldIsSkipped(cfg, b, t);
    var c := Step(cfg, b, es[2]);
    MediumSteps(cfg, c, t);
    var d := Step(cfg, c, es[3]);
    MediumSteps(cfg, d, t);
    u := Step(cfg, d, es[4]);
  }

  lemma {:induction false} NotLockedYet(cfg: Config)
    ensures !Airtime.Locked(Airtime.Initial(), cfg.limits)
  {
  }

  lemma {:induction false} SendsAtOnce(cfg: Config, p: Packet, s: State)
    requires Airtime.Shaped(s.airtime) && s.airtime == Airtime.Initial() && s.queue == [p] && s.pc.Ready?
    requires s.modem.radio == Modem.RxContinuous && s.modem.air == [] && s.timers.txEnable && !s.timers.dcd
    requires Running(s.timers) == (1, 0, 0, 0, true) && !s.timers.flushing && s.clock == 1 + cfg.difs
    ensures var t := 1 + cfg.difs; var u := Step(cfg, s, Tick(CalmPoll(t)));
      && u.trace == s.trace + [Polled(t, true)] + [Attempted(t, false, 0, true)]
      && u.modem.air == [Fragments(p, 0)[0]]
  {
    hide Airtime.Add, Airtime.Initial;
    var t := 1 + cfg.difs;
    var l := Polling(cfg, s.(clock := t), CalmPoll(t));
    assert l.send && l.target == 0;
    assert !Airtime.Locked(s.airtime, cfg.limits) by { NotLockedYet(cfg); }
    assert Modem.ToAir(s.modem, p, 0).air == [] + [Fragments(p, 0)[0]];
  }

  /**
   * For every configuration there is a run in which a packet goes on air directly behind a reception that
   * filled the whole DIFS: the worker has polled twice, directly before it and directly behind it.
   */
  lemma {:induction false} DifsInsideReception(cfg: Config, p: Packet) returns (es: seq<Event>)
    ensures es == BeforeReception(cfg, p) + WholeDifs(cfg).Events() + [Tick(CalmPoll(1 + cfg.difs))]
    ensures var t := 1 + cfg.difs;
      && Run(cfg, es).trace == [Polled(1, true), Preamble(1), Skipped(t), Header(t), Polled(t, true),
                                Attempted(t, false, 0, true)]
      && Run(cfg, es).modem.air == [Fragments(p, 0)[0]]
  {
    hide Step, Scripts.Start, RunFrom, Run;
    var t := 1 + cfg.difs;
    var reception := WholeDifs(cfg).Events();
    var restart := Restart(Restarting(true, cfg.difs + 1, 0));
    var tail := [restart] + reception;
    var s := Scripts.Started(cfg, p);
    var u := Deafened(cfg, p, s);
    SendsAtOnce(cfg, p, u);
    RunSnoc(cfg, s, tail, Tick(CalmPoll(t)));
    RunContinues(cfg, Scripts.Start(p), tail + [Tick(CalmPoll(t))]);
    es := BeforeReception(cfg, p) + reception + [Tick(CalmPoll(t))];
    assert es == Scripts.Start(p) + (tail + [Tick(CalmPoll(t))]);
  }
}
