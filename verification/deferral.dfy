/**
 * The other half of the duty-cycle lock over whole runs: a packet is deferred only when the airtime
 * recorded has reached a limit, and which contention-window band is in force. Both are read off the
 * list of accounting calls that the events make.
 */
module Deferral {
  import opened AirtimeLaws
  import opened Origins
  import opened System
  import Airtime
  import Modem

  // ---- the accounting calls of a run ----

  /** The csma_add_airtime or csma_update_airtime call of an event; a worker iteration makes one when it
      gives a packet to the modem. */
  function CallsAt(cfg: Config, s: State, e: Event): seq<Call>
    requires Airtime.Shaped(s.airtime)
  {
    if !Enabled(s, e) then []
    else
      match e
      case Pop(now) => [UpdateCall(now)]
      case Refresh(now) => [UpdateCall(now)]
      case Tick(i) => if |Step(cfg, s, e).modem.sent| > |s.modem.sent| then [AddCall(i.later, i.airtime)] else []
      case _ => []
  }

  function Calls(cfg: Config, es: seq<Event>): seq<Call>
    decreases |es|
  {
    if es == [] then []
    else
      var n := |es| - 1;
      Calls(cfg, es[..n]) + CallsAt(cfg, Run(cfg, es[..n]), es[n])
  }

  lemma {:induction false} AccountSnoc(cs: seq<Call>, c: Call)
    ensures Account(cs + [c]) == Apply(Account(cs), c)
  {
    hide Airtime.Add, Airtime.Update;
    assert (cs + [c])[..|cs + [c]| - 1] == cs;
  }

  lemma {:induction false} SendRecords(cfg: Config, s: State, i: Poll, flush: bool, target: nat)
    requires Airtime.Shaped(s.airtime) && s.queue != [] && Sendable(s) && s.pc.Ready?
    ensures var t := TrySend(cfg, s, i, flush, target);
      if |t.modem.sent| > |s.modem.sent|
      then t.airtime == Airtime.Add(s.airtime, i.later, i.airtime) && t.pc.Popping? && t.clock == i.armed
      else t.airtime == s.airtime && t.pc == s.pc && t.clock == s.clock
  {
    hide Airtime.Add, Airtime.Locked;
  }

  lemma {:induction false} TickRecords(cfg: Config, s: State, i: Poll)
    requires Airtime.Shaped(s.airtime) && Enabled(s, Tick(i))
    ensures var t := TickStep(cfg, s, i);
      if |t.modem.sent| > |s.modem.sent|
      then t.airtime == Airtime.Add(s.airtime, i.later, i.airtime) && t.pc.Popping? && t.clock == i.armed
      else t.airtime == s.airtime && t.pc == s.pc && t.clock == i.now
  {
    hide Airtime.Add, Airtime.Locked, TrySend, Airtime.ContentionWindow;
    var s1 := s.(clock := i.now);
    if s.modem.radio != Modem.Tx && s.timers.txEnable && s.queue != [] {
      if s.timers.flushing {
        SendRecords(cfg, s1, i, true, 0);
      } else {
        var l := Polling(cfg, s1, i);
        if l.send { SendRecords(cfg, l.state, i, false, l.target); }
      }
    }
  }

  /** The accounting state is that of the calls; before each worker iteration the sums are fresh. */
  ghost predicate Accounted(s: State, cs: seq<Call>) {
    && s.airtime == Account(cs)
    && InTimeOrder(cs)
    && (cs != [] ==> cs[|cs| - 1].t <= s.clock)
    && (cs != [] ==> (s.pc.Ready? <==> cs[|cs| - 1].UpdateCall?))
    && (cs == [] ==> s.pc.Ready?)
  }

  /** An event's effect on the accounting is that of its call. */
  ghost predicate Recorded(s: State, t: State, cs: seq<Call>)
    requires Airtime.Shaped(s.airtime)
  {
    if cs == [] then t.airtime == s.airtime && (t.pc.Ready? <==> s.pc.Ready?) && t.clock >= s.clock
    else
      && |cs| == 1 && t.airtime == Apply(s.airtime, cs[0])
      && s.clock <= cs[0].t <= t.clock && (t.pc.Ready? <==> cs[0].UpdateCall?)
  }

  lemma {:induction false} EventRecords(cfg: Config, s: State, e: Event)
    requires Airtime.Shaped(s.airtime)
    ensures Recorded(s, Step(cfg, s, e), CallsAt(cfg, s, e))
  {
    hide TickStep, Airtime.Add, Airtime.Update, PushAll;
    if Enabled(s, e) {
      match e
      case Tick(i) => TickRecords(cfg, s, i);
      case _ =>
    }
  }

  lemma {:induction false} InTimeOrderSnoc(cs: seq<Call>, c: Call)
    requires InTimeOrder(cs) && (cs != [] ==> cs[|cs| - 1].t <= c.t)
    ensures InTimeOrder(cs + [c]) && (cs + [c])[|cs + [c]| - 1] == c
  {
  }

  lemma {:induction false} StepAccounts(cfg: Config, s: State, e: Event, cs: seq<Call>)
    requires Accounted(s, cs)
    ensures Accounted(Step(cfg, s, e), cs + CallsAt(cfg, s, e))
  {
    hide Step, CallsAt, Apply, Account, InTimeOrder;
    EventRecords(cfg, s, e);
    var more := CallsAt(cfg, s, e);
    if more == [] {
      assert cs + more == cs;
    } else {
      assert more == [more[0]];
      AccountSnoc(cs, more[0]);
      InTimeOrderSnoc(cs, more[0]);
    }
  }

  lemma {:induction false} RunAccounts(cfg: Config, es: seq<Event>)
    ensures Accounted(Run(cfg, es), Calls(cfg, es))
    decreases |es|
  {
    hide Step;
    if es != [] {
      var n := |es| - 1;
      RunAccounts(cfg, es[..n]);
      StepAccounts(cfg, Run(cfg, es[..n]), es[n], Calls(cfg, es[..n]));
    }
  }

  // ---- deferral ----

  /** An airtime, in ms, reaches a limit in hundredths of a percent of the period; 0 is no limit. */
  predicate ReachesLimit(ms: nat, limit: nat, period: nat) {
    limit != 0 && ms * 10_000 >= limit * period
  }

  /** The two-bin airtime has reached the share of 15 s, or the long-term one that of an hour. */
  predicate AtLimit(limits: Airtime.Limits, short: nat, long: nat) {
    ReachesLimit(short, limits.short, 15_000) || ReachesLimit(long, limits.long, 3_600_000)
  }

  lemma {:induction false} SendDefers(cfg: Config, s: State, i: Poll, flush: bool, target: nat)
    requires Airtime.Shaped(s.airtime) && s.queue != [] && Sendable(s)
    ensures var t := TrySend(cfg, s, i, flush, target);
      && t.trace == s.trace + [Attempted(i.now, flush, target, !AtLimit(cfg.limits, s.airtime.short, s.airtime.long))]
  {
    hide Airtime.Add;
  }

  /** An event that attempts to send is a worker iteration, and it is put off exactly at a limit. */
  lemma {:induction false} AttemptDefers(cfg: Config, s: State, e: Event, k: nat)
    requires Airtime.Shaped(s.airtime) && Enabled(s, e)
    requires |s.trace| <= k < |Step(cfg, s, e).trace| && Step(cfg, s, e).trace[k].Attempted?
    ensures e.Tick? && s.pc.Ready?
    ensures Step(cfg, s, e).trace[k].sent <==> !AtLimit(cfg.limits, s.airtime.short, s.airtime.long)
  {
    hide AtLimit, TrySend, Airtime.ContentionWindow, Airtime.Update, PushAll;
    match e
    case Tick(i) =>
      var s1 := s.(clock := i.now);
      if s.modem.radio != Modem.Tx && s.timers.txEnable && s.queue != [] {
        if s.timers.flushing {
          SendDefers(cfg, s1, i, true, 0);
        } else {
          var l := Polling(cfg, s1, i);
          if l.send { SendDefers(cfg, l.state, i, false, l.target); }
        }
      }
    case _ =>
  }

  lemma {:induction false} NoAirtime(limits: Airtime.Limits)
    ensures !AtLimit(limits, 0, 0)
  {
  }

  lemma {:induction false} MoreReaches(limits: Airtime.Limits, short: nat, long: nat, short': nat, long': nat)
    requires short <= short' && long <= long'
    ensures AtLimit(limits, short, long) ==> AtLimit(limits, short', long')
  {
  }

  lemma {:induction false} LoggedLimit(limits: Airtime.Limits, cs: seq<Call>)
    requires cs != [] && InTimeOrder(cs) && !Account(cs).overflowed
    ensures var log := Account(cs).log; var now: int := LastBin(cs);
      var short, long := AirtimeLaws.Window(log, now - 1, now), AirtimeLaws.Window(log, now - 478, now);
      && (AtLimit(limits, short, long) ==> AtLimit(limits, TwoBins(cs), Airtime.Sum(Account(cs).bins)))
      && (AtMostOneBinApart(cs) ==> short == TwoBins(cs) && long == Airtime.Sum(Account(cs).bins))
  {
    hide *;
    var log := Account(cs).log;
    var now: int := LastBin(cs);
    TwoBinsAgainstLog(cs);
    assert Airtime.Sum(Account(cs).bins) >= AirtimeLaws.Window(log, now - 478, now) by { RingRefinesLog(cs); }
    MoreReaches(limits, AirtimeLaws.Window(log, now - 1, now), AirtimeLaws.Window(log, now - 478, now),
                TwoBins(cs), Airtime.Sum(Account(cs).bins));
    if AtMostOneBinApart(cs) { CloseCallsAreExact(cs); }
  }

  /**
   * In every run an attempt is put off exactly when, at the latest csma_update_airtime, the two bins or
   * the whole ring had reached their limit. With calls at most one bin apart and no bin wrapped, these
   * are the airtimes logged in the last two and the last 479 bins; in any case an attempt is put off
   * when the logged airtime has reached a limit.
   */
  lemma {:induction false} DeferredAtLimit(cfg: Config, es: seq<Event>, k: nat) returns (n: nat)
    requires k < |Run(cfg, es).trace| && Run(cfg, es).trace[k].Attempted?
    ensures MadeAt(cfg, es, k, n) && es[n].Tick?
    ensures var cs := Calls(cfg, es[..n]); var a := Account(cs); var sent := Run(cfg, es).trace[k].sent;
      if cs == [] then sent
      else
        var now: int := LastBin(cs);
        var short, long := AirtimeLaws.Window(a.log, now - 1, now), AirtimeLaws.Window(a.log, now - 478, now);
        && (sent <==> !AtLimit(cfg.limits, TwoBins(cs), Airtime.Sum(a.bins)))
        && (!a.overflowed && AtMostOneBinApart(cs) ==> (sent <==> !AtLimit(cfg.limits, short, long)))
        && (!a.overflowed && sent ==> !AtLimit(cfg.limits, short, long))
  {
    hide Step, Enabled, AtLimit, AirtimeLaws.Window, Account, TwoBins, Airtime.Sum;
    n := Origin(cfg, es, k);
    var s := Run(cfg, es[..n]);
    var cs := Calls(cfg, es[..n]);
    RunTakes(cfg, es, n);
    AttemptDefers(cfg, s, es[n], k);
    RunAccounts(cfg, es[..n]);
    StoredSums(cs);
    if cs == [] { NoAirtime(cfg.limits); } else if !Account(cs).overflowed { LoggedLimit(cfg.limits, cs); }
  }

  // ---- the band in force ----

  /**
   * In every run, whenever the worker is at the top of its loop, the band in force is that of the two-bin
   * airtime found by the latest csma_update_airtime, and band 1 when there was none.
   */
  lemma {:induction false} BandOfRun(cfg: Config, es: seq<Event>)
    requires Run(cfg, es).pc.Ready?
    ensures var cs := Calls(cfg, es); var band := BandByAirtime(if cs == [] then 0 else TwoBins(cs));
      Run(cfg, es).airtime.cw == Airtime.Band(band, band * 15 - 15, if LeftBandOne(cs) then band * 15 - 1 else 15)
  {
    hide Step, Account, TwoBins, BandByAirtime, LeftBandOne;
    RunAccounts(cfg, es);
    StoredSums(Calls(cfg, es));
    BandInForce(Calls(cfg, es));
  }
}
