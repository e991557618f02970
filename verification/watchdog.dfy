/** The watchdog of src/queue.c, which restarts a radio that has been transmitting for too long. */
module Watchdog {
  import opened Frames
  import opened System
  import Airtime
  import Contention
  import Modem

  /** Event k of a run gives a packet to rnode_to_air. */
  predicate Gives(cfg: Config, es: seq<Event>, k: nat)
    requires k < |es|
  {
    es[k].Tick? && |Run(cfg, es[..k + 1]).modem.sent| == |Run(cfg, es[..k]).modem.sent| + 1
  }

  lemma {:induction false} SentNow(cfg: Config, s: State, i: Poll, flush: bool, target: nat)
    requires Airtime.Shaped(s.airtime) && s.queue != [] && Sendable(s)
    ensures var t := TrySend(cfg, s, i, flush, target);
      || (t.modem == s.modem && t.wait == s.wait)
      || (|t.modem.sent| == |s.modem.sent| + 1 && t.wait == i.armed + 2 * i.airtime)
  {
    hide Airtime.Add, Airtime.Locked, Fragments;
  }

  lemma {:induction false} SentTick(cfg: Config, s: State, i: Poll)
    requires Airtime.Shaped(s.airtime) && Sendable(s)
    ensures var t := TickStep(cfg, s, i);
      || (t.modem == s.modem && t.wait == s.wait)
      || (t.modem == Modem.Start(s.modem, i.restart.ok) && t.wait == s.wait)
      || (|t.modem.sent| == |s.modem.sent| + 1 && t.wait == i.armed + 2 * i.airtime)
  {
    hide TrySend, Airtime.ContentionWindow, Contention.Listen;
    var s1 := s.(clock := i.now);
    if s.modem.radio != Modem.Tx && s.timers.txEnable && s.queue != [] {
      if s.timers.flushing {
        SentNow(cfg, s1, i, true, 0);
      } else {
        var l := Polling(cfg, s1, i);
        if l.send { SentNow(cfg, l.state, i, false, l.target); }
      }
    }
  }

  lemma {:induction false} SentStep(cfg: Config, s: State, e: Event)
    requires Airtime.Shaped(s.airtime)
    requires s.modem.sent == [] ==> s.modem.radio != Modem.Tx
    ensures var t := Step(cfg, s, e);
      && |s.modem.sent| <= |t.modem.sent| <= |s.modem.sent| + 1
      && (|t.modem.sent| == |s.modem.sent| ==> t.wait == s.wait)
      && (|t.modem.sent| > |s.modem.sent| ==> e.Tick? && t.wait == e.poll.armed + 2 * e.poll.airtime)
      && (t.modem.sent == [] ==> t.modem.radio != Modem.Tx)
  {
    hide TickStep, Airtime.Update, PushAll, Fragments;
    match e
    case Tick(i) => if Enabled(s, e) { SentTick(cfg, s, i); }
    case _ =>
  }

  /** In every run that has sent a packet, the deadline is that of the latest one. */
  lemma {:induction false} LatestGift(cfg: Config, es: seq<Event>) returns (k: nat)
    ensures var s := Run(cfg, es);
      && (s.modem.sent == [] ==> s.modem.radio != Modem.Tx)
      && (s.modem.sent != [] ==>
            && k < |es| && Gives(cfg, es, k)
            && |Run(cfg, es[..k + 1]).modem.sent| == |s.modem.sent|
            && s.wait == es[k].poll.armed + 2 * es[k].poll.airtime)
    decreases |es|
  {
    hide Step;
    k := 0;
    if es != [] {
      var n := |es| - 1;
      var before := es[..n];
      k := LatestGift(cfg, before);
      SentStep(cfg, Run(cfg, before), es[n]);
      assert es[..n + 1] == es;
      if |Run(cfg, es).modem.sent| > |Run(cfg, before).modem.sent| {
        k := n;
      } else if Run(cfg, es).modem.sent != [] {
        assert before[..k] == es[..k] && before[..k + 1] == es[..k + 1];
      }
    }
  }

  /**
   * In every run whose radio is transmitting, some event k gave the latest packet to rnode_to_air, and
   * the next worker iteration restarts the radio exactly when more than twice that packet's airtime has
   * passed since send_packet read the clock behind rnode_to_air; until then it leaves the radio alone.
   */
  lemma {:induction false} Patience(cfg: Config, es: seq<Event>, i: Poll) returns (k: nat)
    requires Run(cfg, es).modem.radio == Modem.Tx && Enabled(Run(cfg, es), Tick(i))
    ensures k < |es| && Gives(cfg, es, k)
    ensures |Run(cfg, es[..k + 1]).modem.sent| == |Run(cfg, es).modem.sent|
    ensures var s := Run(cfg, es); var sent := es[k].poll;
      Step(cfg, s, Tick(i)).modem ==
        if i.now > sent.armed + 2 * sent.airtime then Modem.Start(s.modem, i.restart.ok) else s.modem
  {
    k := LatestGift(cfg, es);
  }
}
