/**
 * What flush mode is for: all queued packets go out back to back behind one DIFS and one contention
 * window. What ends it, and that nothing is listened for until then.
 */
module FlushRun {
  import opened Bytes
  import opened Frames
  import opened System
  import opened Contention
  import opened Headers
  import Airtime
  import Deferral
  import Modem
  import Origins

  // ---- what ends flush mode ----

  predicate AtLimit(cfg: Config, s: State) {
    Deferral.AtLimit(cfg.limits, s.airtime.short, s.airtime.long)
  }

  /** A preamble, the flush-mode packet that empties the queue, or a flush-mode packet put off. */
  predicate Ends(cfg: Config, s: State, e: Event) {
    match e
    case Medium(cause, _) => cause == PreambleDetected
    case Pop(_) => s.pc == Popping(true) && |s.queue| == 1
    case Tick(_) => s.modem.radio != Modem.Tx && s.timers.txEnable && s.queue != [] && AtLimit(cfg, s)
    case _ => false
  }

  lemma {:induction false} LockedAtLimit(cfg: Config, s: State)
    ensures Airtime.Locked(s.airtime, cfg.limits) <==> AtLimit(cfg, s)
  {
  }

  /** While flush mode is on, the worker attempts to send or does nothing; it does not poll. */
  lemma {:induction false} FlushTick(cfg: Config, s: State, i: Poll)
    requires Airtime.Shaped(s.airtime) && Enabled(s, Tick(i)) && s.timers.flushing
    ensures var t := TickStep(cfg, s, i);
      && (t.timers.flushing <==> !Ends(cfg, s, Tick(i)))
      && (t.timers.flushing ==>
            t.trace == s.trace + [Skipped(i.now)] || t.trace == s.trace + [Attempted(i.now, true, 0, true)])
  {
    LockedAtLimit(cfg, s);
    hide Airtime.Add, Airtime.Locked, AtLimit;
  }

  lemma {:induction false} FlushStep(cfg: Config, s: State, e: Event)
    requires Airtime.Shaped(s.airtime) && Enabled(s, e) && s.timers.flushing
    ensures var t := Step(cfg, s, e);
      && (t.timers.flushing <==> !Ends(cfg, s, e))
      && (t.timers.flushing ==>
            && s.trace <= t.trace
            && forall k :: |s.trace| <= k < |t.trace| ==>
                 !t.trace[k].Polled? && (t.trace[k].Attempted? ==> t.trace[k].flush && t.trace[k].sent))
  {
    hide TickStep, AtLimit, Airtime.Update, PushAll;
    match e
    case Tick(i) => FlushTick(cfg, s, i);
    case Pop(_) => assert s.queue[1..] == [] <==> |s.queue| == 1;
    case _ =>
  }

  /** No event of `more` ends flush mode. */
  predicate Continues(cfg: Config, s: State, more: seq<Event>)
    requires Airtime.Shaped(s.airtime)
  {
    forall k :: 0 <= k < |more| && Enabled(RunFrom(cfg, s, more[..k]), more[k]) ==>
      !Ends(cfg, RunFrom(cfg, s, more[..k]), more[k])
  }

  /** `t` has flush mode on, and between `s` and `t` the worker has only sent. */
  ghost predicate OnlySent(s: State, t: State) {
    && t.timers.flushing && s.trace <= t.trace
    && forall k :: |s.trace| <= k < |t.trace| ==>
         !t.trace[k].Polled? && (t.trace[k].Attempted? ==> t.trace[k].flush && t.trace[k].sent)
  }

  lemma {:induction false} ContinuesFrom(cfg: Config, s: State, more: seq<Event>)
    requires Airtime.Shaped(s.airtime) && s.timers.flushing && Continues(cfg, s, more)
    ensures OnlySent(s, RunFrom(cfg, s, more))
    decreases |more|
  {
    hide Step, Enabled, Ends;
    if more != [] {
      var n := |more| - 1;
      var before := more[..n];
      assert forall k :: 0 <= k < n ==> before[..k] == more[..k] && before[k] == more[k];
      ContinuesFrom(cfg, s, before);
      var t := RunFrom(cfg, s, before);
      if Enabled(t, more[n]) { FlushStep(cfg, t, more[n]); } else { Origins.DisabledChangesNothing(cfg, t, more[n]); }
    }
  }

  lemma {:induction false} Flushing(s: State, t: State)
    requires OnlySent(s, t)
    ensures t.timers.flushing
  {
  }

  /**
   * In every run, flush mode once on is ended by exactly these events. Until one of them comes, no
   * iteration polls, and every packet attempted is sent.
   */
  lemma {:induction false} FlushModeLasts(cfg: Config, es: seq<Event>, more: seq<Event>, e: Event)
    requires Run(cfg, es).timers.flushing && Continues(cfg, Run(cfg, es), more)
    ensures var s, t := Run(cfg, es), Run(cfg, es + more);
      && OnlySent(s, t)
      && (Enabled(t, e) ==> (Step(cfg, t, e).timers.flushing <==> !Ends(cfg, t, e)))
  {
    hide Step, Enabled, Ends, OnlySent, Continues;
    ContinuesFrom(cfg, Run(cfg, es), more);
    RunContinues(cfg, es, more);
    var t := Run(cfg, es + more);
    assert t.timers.flushing by { Flushing(Run(cfg, es), t); }
    if Enabled(t, e) { FlushStep(cfg, t, e); }
  }

  // ---- the whole queue ----

  /** One packet: the iteration that sends it, its removal, and its TX_DONEs. */
  function Round(i: Poll): seq<Event> {
    [Tick(i), Pop(i.armed), TxDoneIrq(i.armed), TxDoneIrq(i.armed)]
  }

  function Rounds(ps: seq<Poll>): seq<Event> {
    if ps == [] then [] else Round(ps[0]) + Rounds(ps[1..])
  }

  /** The worker is free to send the next packet in flush mode. */
  predicate Flushes(s: State) {
    && Airtime.Shaped(s.airtime) && s.pc.Ready? && s.timers.txEnable && s.modem.radio != Modem.Tx
    && (s.timers.flushing <==> s.queue != []) && Sendable(s)
  }

  lemma {:induction false} RoundTick(cfg: Config, s: State, i: Poll)
    requires Flushes(s) && s.queue != [] && !AtLimit(cfg, s) && s.clock <= i.now <= i.later <= i.armed
    ensures var t := Step(cfg, s, Tick(i));
      t == s.(modem := Modem.ToAir(s.modem, s.queue[0], i.tag), airtime := t.airtime, wait := t.wait,
              pc := Popping(true), clock := i.armed, trace := s.trace + [Attempted(i.now, true, 0, true)])
  {
    LockedAtLimit(cfg, s);
    hide Airtime.Add, Airtime.Locked, AtLimit, Modem.ToAir;
  }

  lemma {:induction false} RoundPop(cfg: Config, s: State)
    requires Airtime.Shaped(s.airtime) && s.pc == Popping(true) && s.queue != [] && s.timers.flushing
    ensures var t := Step(cfg, s, Pop(s.clock));
      t == s.(queue := s.queue[1..], pc := Ready, airtime := t.airtime,
              timers := s.timers.(flushing := s.queue[1..] != []))
  {
    hide Airtime.Update;
  }

  lemma {:induction false} RoundDone(cfg: Config, s: State, p: Packet, r: byte, m: Modem.State)
    requires Airtime.Shaped(s.airtime) && s.modem == Modem.ToAir(m, p, r)
    ensures var e := TxDoneIrq(s.clock); var t := Step(cfg, Step(cfg, s, e), e);
      && t == s.(modem := t.modem, timers := s.timers.(dcd := false, txEnable := true))
      && t.modem.radio == Modem.RxContinuous && t.modem.air == m.air + FramesOf(p, r)
  {
    var e := TxDoneIrq(s.clock);
    var one := Step(cfg, s, e);
    assert |p| > 254 ==> m.air + [FramesOf(p, r)[0]] + [FramesOf(p, r)[1]] == m.air + FramesOf(p, r);
  }

  lemma {:induction false} FourSteps(cfg: Config, s: State, i: Poll)
    requires Airtime.Shaped(s.airtime)
    ensures var es := Round(i);
      RunFrom(cfg, s, es) == Step(cfg, Step(cfg, Step(cfg, Step(cfg, s, es[0]), es[1]), es[2]), es[3])
  {
    hide Step;
    var es := Round(i);
    RunCons(cfg, s, es);
    RunCons(cfg, Step(cfg, s, es[0]), es[1..]);
    RunCons(cfg, Step(cfg, Step(cfg, s, es[0]), es[1]), es[2..]);
    RunCons(cfg, Step(cfg, Step(cfg, Step(cfg, s, es[0]), es[1]), es[2]), es[3..]);
    assert es[4..] == [];
  }

  lemma {:induction false} RoundSends(cfg: Config, s: State, i: Poll) returns (t: State)
    requires Flushes(s) && s.queue != [] && !AtLimit(cfg, s) && s.clock <= i.now <= i.later <= i.armed
    requires forall p | p in s.queue :: |p| <= PAYLOAD_MAX
    ensures t == RunFrom(cfg, s, Round(i)) && Flushes(t) && t.clock == i.armed
    ensures t.queue == s.queue[1..] && t.trace == s.trace + [Attempted(i.now, true, 0, true)]
    ensures t.modem.air == s.modem.air + FramesOf(s.queue[0], i.tag)
  {
    hide Step, AtLimit, FramesOf, Modem.ToAir;
    FourSteps(cfg, s, i);
    t := RunFrom(cfg, s, Round(i));
    RoundTick(cfg, s, i);
    var a := Step(cfg, s, Tick(i));
    RoundPop(cfg, a);
    var b := Step(cfg, a, Pop(i.armed));
    RoundDone(cfg, b, s.queue[0], i.tag, s.modem);
    assert forall p | p in t.queue :: p in s.queue;
    assert t.queue != [] ==> t.queue[0] in t.queue;
  }

  /** The iterations come in time, and none finds an airtime at its limit. */
  predicate InTurn(cfg: Config, s: State, ps: seq<Poll>)
    requires Airtime.Shaped(s.airtime)
    decreases ps
  {
    ps == [] ||
    (&& s.clock <= ps[0].now <= ps[0].later <= ps[0].armed && !AtLimit(cfg, s)
     && InTurn(cfg, RunFrom(cfg, s, Round(ps[0])), ps[1..]))
  }

  /** The observations and the frames of packets sent in flush mode. */
  function Attempts(ps: seq<Poll>): seq<Obs> {
    if ps == [] then [] else [Attempted(ps[0].now, true, 0, true)] + Attempts(ps[1..])
  }

  function AllFrames(queue: seq<seq<byte>>, ps: seq<Poll>): seq<seq<byte>>
    requires |ps| <= |queue|
  {
    if ps == [] then [] else FramesOf(queue[0], ps[0].tag) + AllFrames(queue[1..], ps[1..])
  }

  lemma {:induction false} NoRounds(cfg: Config, s: State)
    requires Airtime.Shaped(s.airtime)
    ensures RunFrom(cfg, s, Rounds([])) == s && Attempts([]) == [] && AllFrames(s.queue, []) == []
    ensures s.trace + [] == s.trace && s.modem.air + [] == s.modem.air
  {
  }

  lemma {:induction false} OneMore(queue: seq<seq<byte>>, ps: seq<Poll>, trace: seq<Obs>, air: seq<seq<byte>>)
    requires 0 < |ps| <= |queue|
    ensures trace + [Attempted(ps[0].now, true, 0, true)] + Attempts(ps[1..]) == trace + Attempts(ps)
    ensures air + FramesOf(queue[0], ps[0].tag) + AllFrames(queue[1..], ps[1..]) == air + AllFrames(queue, ps)
    ensures queue[1..][|ps| - 1..] == queue[|ps|..]
    ensures forall p | p in queue[1..] :: p in queue
  {
    hide FramesOf;
  }

  lemma {:induction false} RoundsSend(cfg: Config, s: State, ps: seq<Poll>) returns (t: State)
    requires Flushes(s) && |ps| <= |s.queue| && InTurn(cfg, s, ps)
    requires forall p | p in s.queue :: |p| <= PAYLOAD_MAX
    ensures t == RunFrom(cfg, s, Rounds(ps)) && Flushes(t)
    ensures t.queue == s.queue[|ps|..] && t.trace == s.trace + Attempts(ps)
    ensures t.modem.air == s.modem.air + AllFrames(s.queue, ps)
    decreases ps
  {
    hide Step, Enabled, AtLimit, FramesOf, Round, RunFrom, AllFrames, Attempts;
    if ps == [] {
      t := s;
      NoRounds(cfg, s);
    } else {
      var u := RoundSends(cfg, s, ps[0]);
      hide Flushes;
      OneMore(s.queue, ps, s.trace, s.modem.air);
      t := RoundsSend(cfg, u, ps[1..]);
      RunAppend(cfg, s, Round(ps[0]), Rounds(ps[1..]));
    }
  }

  /**
   * From every reachable state in flush mode whose worker is free, as many iterations as packets are
   * queued send them all, in order and back to back: one attempt each, no poll, and flush mode is off
   * when the queue is empty and not before.
   */
  lemma {:induction false} WholeQueueGoesOut(cfg: Config, es: seq<Event>, ps: seq<Poll>)
    requires var s := Run(cfg, es);
      && s.timers.flushing && Flushes(s) && (forall p | p in s.queue :: |p| <= PAYLOAD_MAX)
      && |ps| <= |s.queue| && InTurn(cfg, s, ps)
    ensures var s, t := Run(cfg, es), Run(cfg, es + Rounds(ps));
      && t.queue == s.queue[|ps|..] && t.trace == s.trace + Attempts(ps)
      && t.modem.air == s.modem.air + AllFrames(s.queue, ps)
      && (t.timers.flushing <==> |ps| < |s.queue|)
  {
    hide Step, AtLimit, FramesOf, InTurn, AllFrames, Attempts;
    var t := RoundsSend(cfg, Run(cfg, es), ps);
    RunContinues(cfg, es, Rounds(ps));
  }
}
