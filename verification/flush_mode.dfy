/**
 * Flush mode of src/queue.c: it is meant to empty the queue once, and an empty queue is meant to end
 * it. When it is really on, and what that can lead to.
 */
module FlushMode {
  import opened Frames
  import opened System
  import opened Contention
  import Airtime
  import AirtimeLaws
  import Modem
  import Scripts

  /** The latest attempt was a normal one, and no preamble has come since. */
  predicate NormalLast(tr: seq<Obs>) {
    if tr == [] then false
    else
      var o := tr[|tr| - 1];
      match o
      case Preamble(_) => false
      case Attempted(_, flush, _, _) => !flush
      case _ => NormalLast(tr[..|tr| - 1])
  }

  lemma {:induction false} NormalLastSnoc(tr: seq<Obs>, o: Obs)
    ensures NormalLast(tr + [o]) <==>
              match o
              case Preamble(_) => false
              case Attempted(_, flush, _, _) => !flush
              case _ => NormalLast(tr)
  {
    assert (tr + [o])[..|tr|] == tr;
  }

  ghost predicate Inv(cfg: Config, s: State) {
    var normal := NormalLast(s.trace);
    && Airtime.Shaped(s.airtime)
    && (s.pc.Popping? ==> s.queue != [])
    && (s.timers.flushing ==> cfg.flush)
    && (cfg.flush && normal ==> s.timers.flushing)
    && (s.timers.flushing && !normal ==> s.queue != [])
    && (s.pc == Popping(false) && s.timers.flushing ==> normal)
    && (s.pc == Popping(true) ==> !normal)
  }

  lemma {:induction false} TrySendInv(cfg: Config, s: State, i: Poll, flush: bool, target: nat)
    requires Airtime.Shaped(s.airtime) && s.pc.Ready? && s.queue != [] && Sendable(s)
    requires s.timers.flushing <==> cfg.flush
    requires flush ==> s.timers.flushing
    ensures Inv(cfg, TrySend(cfg, s, i, flush, target))
  {
    hide NormalLast, Airtime.Locked;
    NormalLastSnoc(s.trace, Attempted(i.now, flush, target, false));
    NormalLastSnoc(s.trace, Attempted(i.now, flush, target, true));
  }

  lemma {:induction false} TickInv(cfg: Config, s: State, i: Poll)
    requires Inv(cfg, s) && Enabled(s, Tick(i))
    ensures Inv(cfg, TickStep(cfg, s, i))
  {
    hide NormalLast, TrySend, Airtime.ContentionWindow;
    var s1 := s.(clock := i.now);
    NormalLastSnoc(s.trace, Skipped(i.now));
    if s.modem.radio != Modem.Tx && s.timers.txEnable && s.queue != [] {
      if s.timers.flushing {
        TrySendInv(cfg, s1, i, true, 0);
      } else {
        var l := Polling(cfg, s1, i);
        NormalLastSnoc(s.trace, Polled(i.now, MediumFree(s.timers, i.interference)));
        if l.send { TrySendInv(cfg, l.state, i, false, l.target); }
      }
    }
  }

  lemma {:induction false} StepInv(cfg: Config, s: State, e: Event)
    requires Inv(cfg, s)
    ensures Inv(cfg, Step(cfg, s, e))
  {
    hide NormalLast, TickStep;
    if Enabled(s, e) {
      match e
      case Tick(i) => TickInv(cfg, s, i);
      case Medium(_, now) =>
        NormalLastSnoc(s.trace, Preamble(now));
        NormalLastSnoc(s.trace, Header(now));
        assert s.trace + [] == s.trace;
      case _ =>
    }
  }

  lemma {:induction false} RunInv(cfg: Config, es: seq<Event>)
    ensures Inv(cfg, Run(cfg, es))
    decreases |es|
  {
    if es != [] {
      RunInv(cfg, es[..|es| - 1]);
      StepInv(cfg, Run(cfg, es[..|es| - 1]), es[|es| - 1]);
    }
  }

  /**
   * In every run: flush mode is on over an empty queue exactly when the configuration flushes, the
   * latest attempt was a normal one, and no preamble has come since. Flush mode that has sent a packet
   * itself, or was put off by the duty-cycle lock, is off when the queue is empty.
   */
  lemma {:induction false} FlushOverEmptyQueue(cfg: Config, es: seq<Event>)
    ensures var s := Run(cfg, es);
      && (s.queue == [] ==> (s.timers.flushing <==> cfg.flush && NormalLast(s.trace)))
      && (cfg.flush && NormalLast(s.trace) ==> s.timers.flushing)
  {
    RunInv(cfg, es);
  }

  // ---- the failing case ----

  lemma {:induction false} Sends(cfg: Config, p: Packet, s: State)
    requires s == Run(cfg, Scripts.Start(p)) && s.queue == [p] && s.pc.Ready? && s.timers == Scripts.Waiting()
    requires s.modem == Modem.INITIAL && s.airtime == Airtime.Initial() && s.clock == 1
    requires s.trace == [Polled(1, true)]
    ensures var t := 1 + cfg.difs; var sent := Step(cfg, s, Tick(CalmPoll(t)));
      && sent == s.(modem := Modem.ToAir(s.modem, p, 0), airtime := Airtime.Add(s.airtime, t, 0),
                    wait := t, pc := Popping(false), clock := t,
                    timers := Initial().timers.(flushing := cfg.flush),
                    trace := [Polled(1, true), Polled(t, true), Attempted(t, false, 0, true)])
  {
    hide Airtime.Add;
    var t := 1 + cfg.difs;
    assert s.trace + [Polled(t, true)] + [Attempted(t, false, 0, true)] ==
           [Polled(1, true), Polled(t, true), Attempted(t, false, 0, true)];
  }

  /** Two packets on an idle daemon: the first goes out after listening, the queue runs empty, the
      transmission ends, the host sends the second one, and the worker looks again. */
  function FirstSent(cfg: Config, p: Packet): seq<Event> {
    Scripts.Start(p) + [Tick(CalmPoll(1 + cfg.difs)), Pop(1 + cfg.difs)]
  }

  lemma {:induction false} LastPops(cfg: Config, s: State, now: nat)
    requires Airtime.Shaped(s.airtime) && s.pc == Popping(false) && |s.queue| == 1 && s.clock <= now
    ensures Step(cfg, s, Pop(now)) ==
            s.(queue := [], pc := Ready, airtime := Airtime.Update(s.airtime, now), clock := now)
  {
    hide Airtime.Update;
  }

  lemma {:induction false} NothingRecorded(t: nat, limits: Airtime.Limits)
    ensures !Airtime.Locked(Airtime.Update(Airtime.Add(Airtime.Initial(), t, 0), t), limits)
  {
    AirtimeLaws.EmptyRingUnlocks(Airtime.Add(Airtime.Initial(), t, 0), t, limits);
  }

  lemma {:induction false} QueueRunsEmpty(cfg: Config, p: Packet) returns (s: State)
    ensures s == Run(cfg, FirstSent(cfg, p)) && s.queue == [] && s.pc.Ready? && Scripts.Listening(s.host)
    ensures s.timers == Initial().timers.(flushing := cfg.flush)
    ensures s.modem == Modem.ToAir(Modem.INITIAL, p, 0) && s.clock == 1 + cfg.difs
    ensures !Airtime.Locked(s.airtime, cfg.limits)
    ensures s.trace == [Polled(1, true), Polled(s.clock, true), Attempted(s.clock, false, 0, true)]
  {
    hide Step, Airtime.Update, Airtime.Locked, Scripts.HostSends;
    var t := 1 + cfg.difs;
    var start := Scripts.Started(cfg, p);
    Sends(cfg, p, start);
    var a, b := Tick(CalmPoll(t)), Pop(t);
    var sent := Step(cfg, start, a);
    LastPops(cfg, sent, t);
    RunOne(cfg, start, a);
    RunSnoc(cfg, start, [a], b);
    assert [a] + [b] == [a, b];
    RunContinues(cfg, Scripts.Start(p), [a, b]);
    s := Run(cfg, FirstSent(cfg, p));
    NothingRecorded(t, cfg.limits);
  }

  lemma {:induction false} BothFragmentsDone(cfg: Config, s: State, p: Packet) returns (t: State)
    requires Airtime.Shaped(s.airtime) && s.timers.txEnable && !s.timers.dcd
    requires s.modem == Modem.ToAir(Modem.INITIAL, p, 0)
    ensures t == RunFrom(cfg, s, [TxDoneIrq(s.clock), TxDoneIrq(s.clock)])
    ensures t == s.(modem := t.modem) && t.modem.radio == Modem.RxContinuous
  {
    var e := TxDoneIrq(s.clock);
    RunOne(cfg, s, e);
    RunSnoc(cfg, s, [e], e);
    assert [e] + [e] == [e, e];
    t := RunFrom(cfg, s, [e, e]);
  }

  /**
   * So for every configuration that flushes there is a run that ends with an empty queue and flush
   * mode on; and when the host then sends another packet, however much later the worker looks, it goes
   * on air without any poll between the two attempts.
   */
  lemma {:induction false} SecondSentUnheard(cfg: Config, p: Packet, q: Packet, i: Poll) returns (es: seq<Event>)
    requires cfg.flush && 1 + cfg.difs <= i.now <= i.later <= i.armed
    ensures FirstSent(cfg, p) <= es
    ensures Run(cfg, FirstSent(cfg, p)).queue == [] && Run(cfg, FirstSent(cfg, p)).timers.flushing
    ensures var s := Run(cfg, es); var t := Step(cfg, s, Tick(i));
      && s.queue == [q] && s.trace == Run(cfg, FirstSent(cfg, p)).trace
      && t.trace == s.trace + [Attempted(i.now, true, 0, true)]
      && t.modem == Modem.ToAir(s.modem, q, i.tag)
  {
    var empty := QueueRunsEmpty(cfg, p);
    var done := [TxDoneIrq(empty.clock), TxDoneIrq(empty.clock)];
    var idle := BothFragmentsDone(cfg, empty, p);
    var queued := Scripts.PacketPushed(cfg, idle, q);
    RunAppend(cfg, empty, done, Scripts.HostSends(q));
    RunContinues(cfg, FirstSent(cfg, p), done + Scripts.HostSends(q));
    es := FirstSent(cfg, p) + (done + Scripts.HostSends(q));
  }
}
