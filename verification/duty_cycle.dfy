/** The duty-cycle lock over whole runs of the transmit system, at every interleaving. */
module DutyCycle {
  import opened Airtime
  import opened AirtimeLaws
  import System
  import Modem

  /** The lock's thresholds in ms/10000 for the last 479 and the last two bins. */
  function LongCap(lim: Limits): nat {
    lim.long * LONGTERM_MS
  }

  function ShortCap(lim: Limits): nat {
    lim.short * (2 * BIN_MS)
  }

  /** `ready`: the stored sums have been refreshed since the last burst. */
  ghost predicate Inv(lim: Limits, a: State, clock: nat, ready: bool) {
    && Shaped(a)
    && Sorted(a.log)
    && (forall i :: 0 <= i < |a.log| ==> a.log[i].t <= clock)
    && (!a.overflowed ==>
          (&& Over(a, BinOf(clock))
           && (ready ==> StoredCovers(a, BinOf(clock)))
           && (lim.long != 0 ==> Admitted(a.log, 479, LongCap(lim)))
           && (lim.short != 0 ==> Admitted(a.log, 2, ShortCap(lim)))))
  }

  lemma {:induction false} LaterInv(lim: Limits, a: State, clock: nat, ready: bool, now: nat)
    requires Inv(lim, a, clock, ready) && clock <= now
    ensures Inv(lim, a, now, ready)
  {
    BinMonotone(clock, now);
    if !a.overflowed {
      OverLater(a, BinOf(clock), BinOf(now));
      if ready { StoredLater(a, BinOf(clock), BinOf(now)); }
    }
  }

  lemma {:induction false} UpdateInv(lim: Limits, a: State, clock: nat, ready: bool, now: nat)
    requires Inv(lim, a, clock, ready) && clock <= now
    ensures Inv(lim, Update(a, now), now, true)
  {
    LaterInv(lim, a, clock, ready, now);
    if !a.overflowed {
      UpdateKeepsOver(a, now);
      UpdateStores(a, now);
    }
  }

  lemma {:induction false} AddInv(lim: Limits, a: State, clock: nat, now: nat, ms: nat)
    requires Inv(lim, a, clock, true) && clock <= now && !Locked(a, lim)
    ensures Inv(lim, Add(a, now, ms), now, false)
  {
    LaterInv(lim, a, clock, true, now);
    if !Add(a, now, ms).overflowed {
      AddKeepsOver(a, now, ms);
      var b := Burst(now, ms);
      if lim.long != 0 { AdmittedSnoc(a.log, b, 479, LongCap(lim)); }
      if lim.short != 0 { AdmittedSnoc(a.log, b, 2, ShortCap(lim)); }
    }
  }

  ghost predicate SystemInv(cfg: System.Config, s: System.State) {
    && Inv(cfg.limits, s.airtime, s.clock, s.pc.Ready?)
    && |s.airtime.log| == |s.modem.sent|
  }

  lemma {:induction false} TrySendInv(cfg: System.Config, s: System.State, i: System.Poll, flush: bool, target: nat)
    requires s.queue != [] && System.Sendable(s) && s.pc.Ready? && s.clock <= i.later <= i.armed && SystemInv(cfg, s)
    ensures SystemInv(cfg, System.TrySend(cfg, s, i, flush, target))
  {
    if !Locked(s.airtime, cfg.limits) {
      AddInv(cfg.limits, s.airtime, s.clock, i.later, i.airtime);
      LaterInv(cfg.limits, Add(s.airtime, i.later, i.airtime), i.later, false, i.armed);
    }
  }

  lemma {:induction false} TickInv(cfg: System.Config, s: System.State, i: System.Poll)
    requires s.pc.Ready? && System.Sendable(s) && s.clock <= i.now <= i.later <= i.armed && SystemInv(cfg, s)
    ensures SystemInv(cfg, System.TickStep(cfg, s, i))
  {
    LaterInv(cfg.limits, s.airtime, s.clock, true, i.now);
    var s1 := s.(clock := i.now);
    if s.modem.radio != Modem.Tx && s.timers.txEnable && s.queue != [] {
      if s.timers.flushing {
        TrySendInv(cfg, s1, i, true, 0);
      } else {
        var l := System.Polling(cfg, s1, i);
        if l.send { TrySendInv(cfg, l.state, i, false, l.target); }
      }
    }
  }

  lemma {:induction false} StepInv(cfg: System.Config, s: System.State, e: System.Event)
    requires SystemInv(cfg, s)
    ensures SystemInv(cfg, System.Step(cfg, s, e))
  {
    if System.Enabled(s, e) {
      match e
      case HostRead(_) =>
      case HostByte =>
      case Tick(i) => TickInv(cfg, s, i);
      case Pop(now) => UpdateInv(cfg.limits, s.airtime, s.clock, false, now);
      case Refresh(now) => UpdateInv(cfg.limits, s.airtime, s.clock, true, now);
      case Medium(_, now) => LaterInv(cfg.limits, s.airtime, s.clock, s.pc.Ready?, now);
      case TxDoneIrq(now) => LaterInv(cfg.limits, s.airtime, s.clock, s.pc.Ready?, now);
      case Restart(_) =>
    }
  }

  lemma {:induction false} RunInv(cfg: System.Config, es: seq<System.Event>)
    ensures SystemInv(cfg, System.Run(cfg, es))
    decreases |es|
  {
    if es == [] {
      InitialOver(BinOf(1));
    } else {
      RunInv(cfg, es[..|es| - 1]);
      StepInv(cfg, System.Run(cfg, es[..|es| - 1]), es[|es| - 1]);
    }
  }

  /**
   * The long-term bound: with a limit set and no bin beyond 65535 ms, the airtime recorded in any 479
   * consecutive bins is below the limit's share of an hour plus one packet recorded in those bins.
   * The log has one burst for each packet given to rnode_to_air.
   */
  lemma {:induction false} LongTermBound(cfg: System.Config, es: seq<System.Event>, now: nat) returns (i: nat)
    requires cfg.limits.long != 0 && !System.Run(cfg, es).airtime.overflowed
    requires Window(System.Run(cfg, es).airtime.log, now - 478, now) > 0
    ensures var log := System.Run(cfg, es).airtime.log;
      && |log| == |System.Run(cfg, es).modem.sent|
      && i < |log| && now - 478 <= BinOf(log[i].t) <= now
      && Window(log, now - 478, now) * 10_000 < cfg.limits.long * LONGTERM_MS + log[i].ms * 10_000
  {
    RunInv(cfg, es);
    i := AdmittedBounds(System.Run(cfg, es).airtime.log, 479, LongCap(cfg.limits), now);
  }

  /** The short-term bound: the same for any two consecutive bins and 15 s. */
  lemma {:induction false} ShortTermBound(cfg: System.Config, es: seq<System.Event>, now: nat) returns (i: nat)
    requires cfg.limits.short != 0 && !System.Run(cfg, es).airtime.overflowed
    requires Window(System.Run(cfg, es).airtime.log, now - 1, now) > 0
    ensures var log := System.Run(cfg, es).airtime.log;
      && |log| == |System.Run(cfg, es).modem.sent|
      && i < |log| && now - 1 <= BinOf(log[i].t) <= now
      && Window(log, now - 1, now) * 10_000 < cfg.limits.short * (2 * BIN_MS) + log[i].ms * 10_000
  {
    RunInv(cfg, es);
    i := AdmittedBounds(System.Run(cfg, es).airtime.log, 2, ShortCap(cfg.limits), now);
  }
}
