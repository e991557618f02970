/**
 * When transmission is enabled, in every run, read off the list of events: which radio event counts,
 * and how long.
 */
module Carrier {
  import opened Contention
  import opened Origins
  import opened System
  import Airtime
  import Modem

  /** The event announces a reception. */
  predicate Announces(e: Event) {
    e.Medium? && e.cause in {PreambleDetected, HeaderValid}
  }

  /** How long the announcement holds when nothing else happens: the timeout set at that time behind it. */
  function Deadline(c: Timers, e: Event): nat
    requires Announces(e)
  {
    e.now + if e.cause == HeaderValid then c.dataTimeout else c.headerTimeout
  }

  /** Any later radio event, TX_DONE, and a worker iteration at or behind the deadline while the radio is
      not transmitting. */
  predicate Supersedes(s: State, e: Event, deadline: nat) {
    e.Medium? || e.TxDoneIrq? || (e.Tick? && s.modem.radio != Modem.Tx && e.poll.now >= deadline)
  }

  /** Event n announces a reception, and nothing has superseded it. */
  predicate Blocks(cfg: Config, es: seq<Event>, n: nat) {
    && Occurs(cfg, es, n) && Announces(es[n])
    && forall m :: n < m < |es| && Occurs(cfg, es, m) ==>
         !Supersedes(Run(cfg, es[..m]), es[m], Deadline(Run(cfg, es[..n]).timers, es[n]))
  }

  // ---- one event ----

  lemma {:induction false} TickEnables(cfg: Config, s: State, i: Poll)
    requires Airtime.Shaped(s.airtime) && Sendable(s)
    ensures var c := TickStep(cfg, s, i).timers;
      if !s.timers.txEnable && s.modem.radio != Modem.Tx && i.now >= s.timers.disabledUntil
      then c.txEnable && !c.dcd
      else c.txEnable == s.timers.txEnable && c.dcd == s.timers.dcd && c.disabledUntil == s.timers.disabledUntil
  {
    hide Airtime.Add, Airtime.Locked, Airtime.ContentionWindow;
  }

  lemma {:induction false} StepEnables(cfg: Config, s: State, e: Event)
    requires Airtime.Shaped(s.airtime) && Enabled(s, e)
    ensures var c, d := s.timers, Step(cfg, s, e).timers;
      if Announces(e) then !d.txEnable && d.dcd && d.disabledUntil == Deadline(c, e)
      else if Supersedes(s, e, c.disabledUntil) && (e.Tick? ==> !c.txEnable) then d.txEnable && !d.dcd
      else d.txEnable == c.txEnable && d.dcd == c.dcd && d.disabledUntil == c.disabledUntil
  {
    hide TickStep, Airtime.Update, PushAll;
    match e
    case Tick(i) => TickEnables(cfg, s, i);
    case _ =>
  }

  // ---- every run ----

  /** What event n announces is not superseded by a further event e. */
  predicate Survives(cfg: Config, es: seq<Event>, e: Event, n: nat)
    requires n < |es|
  {
    && Announces(es[n])
    && (Enabled(Run(cfg, es), e) ==> !Supersedes(Run(cfg, es), e, Deadline(Run(cfg, es[..n]).timers, es[n])))
  }

  lemma {:induction false} BlocksSnoc(cfg: Config, es: seq<Event>, e: Event, n: nat)
    requires n < |es|
    ensures Blocks(cfg, es + [e], n) <==> Blocks(cfg, es, n) && Survives(cfg, es, e, n)
    ensures Blocks(cfg, es, n) ==> Announces(es[n])
  {
    hide Run, Enabled, Supersedes, Deadline;
    var all := es + [e];
    assert all[..|es|] == es;
    assert forall m :: 0 <= m < |es| ==> all[..m] == es[..m] && all[m] == es[m];
    if Blocks(cfg, all, n) {
      forall m | n < m < |es| && Occurs(cfg, es, m)
        ensures !Supersedes(Run(cfg, es[..m]), es[m], Deadline(Run(cfg, es[..n]).timers, es[n]))
      {
        assert Occurs(cfg, all, m);
      }
      assert Occurs(cfg, all, |es|) <==> Enabled(Run(cfg, es), e);
    }
  }

  lemma {:induction false} BlocksLast(cfg: Config, es: seq<Event>, e: Event)
    ensures Blocks(cfg, es + [e], |es|) <==> Enabled(Run(cfg, es), e) && Announces(e)
  {
    hide Run, Enabled, Supersedes, Deadline, Announces;
    assert (es + [e])[..|es|] == es;
  }

  /** What event n announces is what the timers carry. */
  ghost predicate Carries(cfg: Config, es: seq<Event>, n: nat)
    requires n < |es|
  {
    var c := Run(cfg, es).timers;
    Blocks(cfg, es, n) ==> !c.txEnable && c.disabledUntil == Deadline(Run(cfg, es[..n]).timers, es[n])
  }

  /** The flags and the deadline are those of the event that blocks, if any. */
  ghost predicate Explained(cfg: Config, es: seq<Event>) {
    var c := Run(cfg, es).timers;
    && c.dcd == !c.txEnable
    && (!c.txEnable ==> exists n :: 0 <= n < |es| && Blocks(cfg, es, n))
    && forall n :: 0 <= n < |es| ==> Carries(cfg, es, n)
  }

  lemma {:induction false} StepCarries(cfg: Config, es: seq<Event>, e: Event, n: nat)
    requires n < |es| && Carries(cfg, es, n)
    ensures Carries(cfg, es + [e], n)
  {
    hide Step, Enabled, Blocks, Deadline;
    var s, all := Run(cfg, es), es + [e];
    assert all[..|all| - 1] == es && all[..n] == es[..n] && all[n] == es[n];
    if !Enabled(s, e) { DisabledChangesNothing(cfg, s, e); } else { StepEnables(cfg, s, e); }
    BlocksSnoc(cfg, es, e, n);
  }

  lemma {:induction false} LastCarries(cfg: Config, es: seq<Event>, e: Event)
    ensures Carries(cfg, es + [e], |es|)
  {
    hide Step, Enabled, Blocks, Deadline;
    var s, all := Run(cfg, es), es + [e];
    assert all[..|es|] == es;
    if Enabled(s, e) { StepEnables(cfg, s, e); }
    BlocksLast(cfg, es, e);
  }

  /** An inhibited run has an event that blocks; it is the last one or the one before. */
  lemma {:induction false} StepBlocked(cfg: Config, es: seq<Event>, e: Event, n: nat) returns (n': nat)
    requires !Run(cfg, es).timers.txEnable ==> n < |es| && Blocks(cfg, es, n) && Carries(cfg, es, n)
    ensures !Run(cfg, es + [e]).timers.txEnable ==> n' < |es + [e]| && Blocks(cfg, es + [e], n')
  {
    hide Step, Enabled, Blocks, Deadline;
    var s := Run(cfg, es);
    assert (es + [e])[..|es + [e]| - 1] == es;
    if !Enabled(s, e) { DisabledChangesNothing(cfg, s, e); } else { StepEnables(cfg, s, e); }
    BlocksLast(cfg, es, e);
    n' := |es|;
    if !Blocks(cfg, es + [e], |es|) && !s.timers.txEnable {
      n' := n;
      BlocksSnoc(cfg, es, e, n);
    }
  }

  lemma {:induction false} StepFlags(cfg: Config, s: State, e: Event)
    requires Airtime.Shaped(s.airtime) && s.timers.dcd == !s.timers.txEnable
    ensures Step(cfg, s, e).timers.dcd == !Step(cfg, s, e).timers.txEnable
  {
    hide Step, Enabled, Deadline;
    if !Enabled(s, e) { DisabledChangesNothing(cfg, s, e); } else { StepEnables(cfg, s, e); }
  }

  lemma {:induction false} StepExplained(cfg: Config, es: seq<Event>, e: Event)
    requires Explained(cfg, es)
    ensures Explained(cfg, es + [e])
  {
    hide Step, Blocks, Carries, Deadline;
    var all := es + [e];
    assert all[..|all| - 1] == es;
    StepFlags(cfg, Run(cfg, es), e);
    var n := 0;
    if !Run(cfg, es).timers.txEnable { n :| 0 <= n < |es| && Blocks(cfg, es, n); }
    n := StepBlocked(cfg, es, e, n);
    forall k | 0 <= k < |all|
      ensures Carries(cfg, all, k)
    {
      if k < |es| { StepCarries(cfg, es, e, k); } else { LastCarries(cfg, es, e); }
    }
  }

  lemma {:induction false} RunExplained(cfg: Config, es: seq<Event>)
    ensures Explained(cfg, es)
    decreases |es|
  {
    hide Step, Blocks;
    if es != [] {
      var before := es[..|es| - 1];
      RunExplained(cfg, before);
      StepExplained(cfg, before, es[|es| - 1]);
      assert es == before + [es[|es| - 1]];
    }
  }

  /**
   * In every run transmission is enabled with no carrier, or disabled with a carrier; it is disabled
   * exactly when some preamble or valid header has been followed by no radio event (header error,
   * RX_DONE, another preamble or header), no TX_DONE and no worker iteration at or behind its deadline.
   */
  lemma {:induction false} EnabledUnlessBlocked(cfg: Config, es: seq<Event>)
    ensures var c := Run(cfg, es).timers;
      && (c.txEnable <==> !exists n :: 0 <= n < |es| && Blocks(cfg, es, n))
      && (c.dcd <==> exists n :: 0 <= n < |es| && Blocks(cfg, es, n))
  {
    RunExplained(cfg, es);
    hide Run, Blocks;
    if n :| 0 <= n < |es| && Blocks(cfg, es, n) { assert Carries(cfg, es, n); }
  }
}
