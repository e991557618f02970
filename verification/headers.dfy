/**
 * What the header byte of every frame on air says, in every run: the sequence nibble is the random
 * number of the worker iteration that sent the packet, and the split flag tells whether there are two.
 */
module Headers {
  import opened Bytes
  import opened Origins
  import opened System
  import Airtime
  import Contention
  import Modem

  /** Event n gives the head of the queue to rnode_to_air. */
  predicate Gives(cfg: Config, es: seq<Event>, n: nat) {
    && Occurs(cfg, es, n) && es[n].Tick? && Run(cfg, es[..n]).queue != []
    && Run(cfg, es[..n + 1]).pc.Popping? && Run(cfg, es[..n]).pc.Ready?
  }

  /** The frames of payload p when the random number is r: one, or two with the split flag. */
  function FramesOf(p: seq<byte>, r: byte): seq<seq<byte>> {
    if |p| <= 254 then [[r & 0xF0] + p]
    else [[(r & 0xF0) | 0x01] + p[..254], [(r & 0xF0) | 0x01] + p[254..]]
  }

  /** Frame k on air is frame `part` of the packet that event n sent, directly behind its earlier one. */
  predicate SentBy(cfg: Config, es: seq<Event>, k: nat, n: nat, part: nat) {
    && Gives(cfg, es, n)
    && var fs := FramesOf(Run(cfg, es[..n]).queue[0], es[n].poll.tag);
    && part < |fs| && k == |Run(cfg, es[..n]).modem.air| + part < |Run(cfg, es).modem.air|
    && Run(cfg, es).modem.air[k] == fs[part]
  }

  // ---- one event ----

  lemma {:induction false} TrySends(cfg: Config, s: State, i: Poll, flush: bool, target: nat)
    requires Airtime.Shaped(s.airtime) && s.queue != [] && Sendable(s) && s.pc.Ready?
    ensures var t := TrySend(cfg, s, i, flush, target); var fs := FramesOf(s.queue[0], i.tag);
      || (t.modem == s.modem && t.pc.Ready?)
      || (&& t.pc.Popping? && t.modem.radio == Modem.Tx && t.modem.air == s.modem.air + [fs[0]]
          && t.modem.tag == i.tag & 0xF0
          && t.modem.tail == if |fs| == 1 then [] else s.queue[0][254..])
  {
    hide Airtime.Add, Airtime.Locked;
  }

  /** A worker iteration leaves the modem alone, restarts it, or gives it the head of the queue. */
  lemma {:induction false} TickSends(cfg: Config, s: State, i: Poll)
    requires Airtime.Shaped(s.airtime) && Enabled(s, Tick(i))
    ensures var t := TickStep(cfg, s, i);
      if t.pc.Ready? then
        t.modem == if s.modem.radio == Modem.Tx && i.now > s.wait then Modem.Start(s.modem, i.restart.ok) else s.modem
      else
        && s.queue != [] && s.modem.radio != Modem.Tx && t.modem.radio == Modem.Tx
        && var fs := FramesOf(s.queue[0], i.tag);
           && t.modem.air == s.modem.air + [fs[0]] && t.modem.tag == i.tag & 0xF0
           && t.modem.tail == if |fs| == 1 then [] else s.queue[0][254..]
  {
    hide TrySend, FramesOf, Airtime.ContentionWindow, Contention.Listen;
    var s1 := s.(clock := i.now);
    if s.modem.radio != Modem.Tx && s.timers.txEnable && s.queue != [] {
      if s.timers.flushing {
        TrySends(cfg, s1, i, true, 0);
      } else {
        var l := Polling(cfg, s1, i);
        if l.send { TrySends(cfg, l.state, i, false, l.target); }
      }
    }
  }

  /** The radio is restarted, by the host or by the watchdog. */
  predicate Restarts(s: State, e: Event) {
    e.Restart? || (e.Tick? && s.modem.radio == Modem.Tx && e.poll.now > s.wait)
  }

  /** A restart that succeeds makes the radio receive, one that fails leaves it idle. */
  function Afterwards(e: Event): Modem.Radio
    requires e.Restart? || e.Tick?
  {
    if (if e.Restart? then e.restart.ok else e.poll.restart.ok) then Modem.RxContinuous else Modem.Idle
  }

  /** What any event does to the air log; `owed` is the frame that TX_DONE will send. */
  lemma {:induction false} StepSends(cfg: Config, s: State, e: Event)
    requires Airtime.Shaped(s.airtime) && Enabled(s, e)
    ensures var t := Step(cfg, s, e); var gives := e.Tick? && t.pc.Popping?;
      && (!gives && !e.TxDoneIrq? ==> t.modem.air == s.modem.air)
      && (!gives && !e.TxDoneIrq? && t.modem.radio == Modem.Tx ==> t.modem == s.modem)
      && (e.TxDoneIrq? ==> s.modem.radio == Modem.Tx)
      && (e.TxDoneIrq? ==>
            if s.modem.tail == [] then t.modem.air == s.modem.air && t.modem.radio == Modem.RxContinuous
            else
              && t.modem.air == s.modem.air + [[s.modem.tag | 0x01] + s.modem.tail]
              && t.modem.tail == [] && t.modem.radio == Modem.Tx)
      && (gives ==> s.pc.Ready? && s.modem.radio != Modem.Tx && t.modem.radio == Modem.Tx)
      && (!gives && !e.TxDoneIrq? && !Restarts(s, e) ==> t.modem == s.modem)
      && (Restarts(s, e) ==> !gives && t.modem.radio == Afterwards(e) && t.modem.tail == s.modem.tail)
  {
    hide TickStep, FramesOf, Airtime.Update, PushAll;
    match e
    case Tick(i) => TickSends(cfg, s, i);
    case _ =>
  }

  // ---- every run ----

  lemma {:induction false} GivesStays(cfg: Config, es: seq<Event>, e: Event, n: nat)
    requires n < |es|
    ensures Gives(cfg, es + [e], n) <==> Gives(cfg, es, n)
    ensures (es + [e])[..n] == es[..n] && (es + [e])[n] == es[n]
  {
    hide Run, Enabled;
    assert (es + [e])[..n] == es[..n] && (es + [e])[..n + 1] == es[..n + 1];
  }

  /** When TX_DONE will send a tail, it is the second frame of the packet that event n sent last. */
  ghost predicate Owes(cfg: Config, es: seq<Event>, n: nat) {
    var m := Run(cfg, es).modem;
    m.radio == Modem.Tx && m.tail != [] ==>
      && m.air != [] && SentBy(cfg, es, |m.air| - 1, n, 0)
      && var fs := FramesOf(Run(cfg, es[..n]).queue[0], es[n].poll.tag);
         |fs| == 2 && [m.tag | 0x01] + m.tail == fs[1]
  }

  lemma {:induction false} GivenBefore(cfg: Config, es: seq<Event>, n: nat)
    requires Gives(cfg, es, n)
    ensures n < |es| && es[n].Tick?
  {
  }

  lemma {:induction false} SentByStays(cfg: Config, es: seq<Event>, e: Event, k: nat, n: nat, part: nat)
    requires SentBy(cfg, es, k, n, part) && Run(cfg, es).modem.air <= Run(cfg, es + [e]).modem.air
    ensures SentBy(cfg, es + [e], k, n, part)
  {
    hide Run, Gives, FramesOf;
    GivenBefore(cfg, es, n);
    GivesStays(cfg, es, e, n);
  }

  lemma {:induction false} GivesNow(cfg: Config, es: seq<Event>, e: Event)
    requires Enabled(Run(cfg, es), e) && e.Tick? && Run(cfg, es + [e]).pc.Popping?
    ensures SentBy(cfg, es + [e], |Run(cfg, es).modem.air|, |es|, 0)
    ensures var s, t := Run(cfg, es), Run(cfg, es + [e]); var fs := FramesOf(s.queue[0], e.poll.tag);
      && |t.modem.air| == |s.modem.air| + 1
      && t.modem.radio == Modem.Tx && 1 <= |fs| <= 2 && (|fs| == 2 <==> t.modem.tail != [])
      && (|fs| == 2 ==> [t.modem.tag | 0x01] + t.modem.tail == fs[1])
  {
    hide TickStep;
    var all := es + [e];
    assert all[..|es|] == es && all[..|es| + 1] == all;
    TickSends(cfg, Run(cfg, es), e.poll);
  }

  lemma {:induction false} OwesStays(cfg: Config, es: seq<Event>, e: Event, n: nat)
    requires Owes(cfg, es, n) && Run(cfg, es + [e]).modem == Run(cfg, es).modem
    ensures Owes(cfg, es + [e], n)
  {
    hide Run, Gives, FramesOf;
    var m := Run(cfg, es).modem;
    if m.radio == Modem.Tx && m.tail != [] {
      GivenBefore(cfg, es, n);
      GivesStays(cfg, es, e, n);
      SentByStays(cfg, es, e, |m.air| - 1, n, 0);
    }
  }

  lemma {:induction false} StepOwes(cfg: Config, es: seq<Event>, e: Event, n: nat) returns (n': nat)
    requires Owes(cfg, es, n)
    ensures Owes(cfg, es + [e], n')
  {
    hide Step, Enabled, FramesOf, SentBy;
    n' := n;
    var s := Run(cfg, es);
    assert (es + [e])[..|es + [e]| - 1] == es;
    var t := Run(cfg, es + [e]);
    if !Enabled(s, e) {
      DisabledChangesNothing(cfg, s, e);
      OwesStays(cfg, es, e, n);
    } else {
      StepSends(cfg, s, e);
      if e.Tick? && t.pc.Popping? {
        n' := |es|;
        GivesNow(cfg, es, e);
        assert (es + [e])[..|es|] == es;
      } else if t.modem == s.modem {
        OwesStays(cfg, es, e, n);
      }
    }
  }

  lemma {:induction false} RunOwes(cfg: Config, es: seq<Event>) returns (n: nat)
    ensures Owes(cfg, es, n)
    decreases |es|
  {
    n := 0;
    if es != [] {
      var last := |es| - 1;
      var before, e := es[..last], es[last];
      assert es == before + [e];
      n := RunOwes(cfg, before);
      n := StepOwes(cfg, before, e, n);
    }
  }

  lemma {:induction false} GivesOneFrame(cfg: Config, s: State, i: Poll)
    requires Airtime.Shaped(s.airtime) && Enabled(s, Tick(i))
    ensures var t := Step(cfg, s, Tick(i)); s.modem.air <= t.modem.air && |t.modem.air| <= |s.modem.air| + 1
  {
    hide TickStep;
    TickSends(cfg, s, i);
  }

  lemma {:induction false} AirGrows(cfg: Config, s: State, e: Event)
    requires Airtime.Shaped(s.airtime)
    ensures s.modem.air <= Step(cfg, s, e).modem.air
  {
    hide Step, Enabled, FramesOf;
    if !Enabled(s, e) {
      DisabledChangesNothing(cfg, s, e);
    } else {
      StepSends(cfg, s, e);
      if e.Tick? { GivesOneFrame(cfg, s, e.poll); }
    }
  }

  lemma {:induction false} NothingOnAir(cfg: Config)
    ensures Run(cfg, []).modem.air == [] && Run(cfg, []).modem.radio != Modem.Tx
  {
  }

  lemma {:induction false} SecondFrame(cfg: Config, es: seq<Event>, e: Event, n: nat)
    requires Owes(cfg, es, n) && e.TxDoneIrq? && Enabled(Run(cfg, es), e) && Run(cfg, es).modem.tail != []
    requires var m := Run(cfg, es).modem; Run(cfg, es + [e]).modem.air == m.air + [[m.tag | 0x01] + m.tail]
    ensures var k := |Run(cfg, es).modem.air|;
      k > 0 && SentBy(cfg, es + [e], k - 1, n, 0) && SentBy(cfg, es + [e], k, n, 1)
  {
    hide Run, Gives, FramesOf;
    assert Run(cfg, es).modem.radio == Modem.Tx;
    GivenBefore(cfg, es, n);
    GivesStays(cfg, es, e, n);
    SentByStays(cfg, es, e, |Run(cfg, es).modem.air| - 1, n, 0);
  }

  lemma {:induction false} NewFrame(cfg: Config, es: seq<Event>, e: Event, k: nat) returns (n: nat, part: nat)
    requires |Run(cfg, es).modem.air| <= k < |Run(cfg, es + [e]).modem.air|
    ensures SentBy(cfg, es + [e], k, n, part)
    ensures part == 1 ==> k > 0 && SentBy(cfg, es + [e], k - 1, n, 0)
  {
    hide Step, Enabled, FramesOf;
    var s := Run(cfg, es);
    assert (es + [e])[..|es + [e]| - 1] == es;
    if !Enabled(s, e) { DisabledChangesNothing(cfg, s, e); }
    StepSends(cfg, s, e);
    if e.Tick? {
      GivesOneFrame(cfg, s, e.poll);
      GivesNow(cfg, es, e);
      n, part := |es|, 0;
    } else {
      n := RunOwes(cfg, es);
      part := 1;
      SecondFrame(cfg, es, e, n);
    }
  }

  /**
   * In every run, with restarts at any step: every frame on air is frame 0 or 1 of the packet that some
   * worker iteration took from the head of the queue, at that place behind what was on air before, and
   * a second frame follows its first one. Its header byte is the high nibble of the iteration's random
   * number, with the split flag exactly when the payload has more than 254 bytes.
   */
  lemma {:induction false} FrameOnAir(cfg: Config, es: seq<Event>, k: nat) returns (n: nat, part: nat)
    requires k < |Run(cfg, es).modem.air|
    ensures SentBy(cfg, es, k, n, part)
    ensures part == 1 ==> k > 0 && SentBy(cfg, es, k - 1, n, 0)
    decreases |es|
  {
    hide Step, Enabled, SentBy, FramesOf, Gives;
    if es == [] {
      NothingOnAir(cfg);
    }
    var last := |es| - 1;
    var before, e := es[..last], es[last];
    var s := Run(cfg, before);
    assert es == before + [e];
    AirGrows(cfg, s, e);
    if k < |s.modem.air| {
      n, part := FrameOnAir(cfg, before, k);
      SentByStays(cfg, before, e, k, n, part);
      if part == 1 { SentByStays(cfg, before, e, k - 1, n, 0); }
    } else {
      n, part := NewFrame(cfg, before, e, k);
    }
  }

  /** And the first frame of every packet given to the modem is there. */
  lemma {:induction false} GivenIsOnAir(cfg: Config, es: seq<Event>, n: nat)
    requires Gives(cfg, es, n)
    ensures SentBy(cfg, es, |Run(cfg, es[..n]).modem.air|, n, 0)
    decreases |es|
  {
    hide Step, Enabled, FramesOf, SentBy;
    GivenBefore(cfg, es, n);
    var last := |es| - 1;
    var before, e := es[..last], es[last];
    assert es == before + [e];
    if n == last {
      assert es[..n] == before && es[..n + 1] == es;
      GivesNow(cfg, before, e);
    } else {
      GivesStays(cfg, before, e, n);
      GivenIsOnAir(cfg, before, n);
      AirGrows(cfg, Run(cfg, before), e);
      SentByStays(cfg, before, e, |Run(cfg, es[..n]).modem.air|, n, 0);
    }
  }

  // ---- when the radio transmits ----

  /** The TX_DONE interrupts from event `from` on. */
  function Dones(cfg: Config, es: seq<Event>, from: nat): nat
    decreases |es|
  {
    if |es| <= from then 0
    else
      var last := |es| - 1;
      Dones(cfg, es[..last], from) + if Occurs(cfg, es, last) && es[last].TxDoneIrq? then 1 else 0
  }

  /** No event from `from` on restarts the radio. */
  predicate Undisturbed(cfg: Config, es: seq<Event>, from: nat) {
    forall m :: from <= m < |es| ==> Occurs(cfg, es, m) ==> !Restarts(Run(cfg, es[..m]), es[m])
  }

  /** Event n gave a packet to the modem, no restart has come since, and fewer TX_DONEs than it has frames. */
  predicate InProgress(cfg: Config, es: seq<Event>, n: nat) {
    && Gives(cfg, es, n) && Undisturbed(cfg, es, n + 1)
    && Dones(cfg, es, n + 1) < |FramesOf(Run(cfg, es[..n]).queue[0], es[n].poll.tag)|
  }

  lemma {:induction false} UndisturbedSnoc(cfg: Config, es: seq<Event>, e: Event, from: nat)
    requires from <= |es|
    ensures Undisturbed(cfg, es + [e], from) <==>
            Undisturbed(cfg, es, from) && (Enabled(Run(cfg, es), e) ==> !Restarts(Run(cfg, es), e))
    ensures Dones(cfg, es + [e], from) ==
            Dones(cfg, es, from) + if Enabled(Run(cfg, es), e) && e.TxDoneIrq? then 1 else 0
  {
    hide Run, Enabled, Restarts;
    var all := es + [e];
    assert all[..|es|] == es;
    assert forall m :: 0 <= m < |es| ==> all[..m] == es[..m] && all[m] == es[m];
    if Undisturbed(cfg, all, from) {
      assert Occurs(cfg, all, |es|) ==> !Restarts(Run(cfg, all[..|es|]), all[|es|]);
      forall m | from <= m < |es| && Occurs(cfg, es, m)
        ensures !Restarts(Run(cfg, es[..m]), es[m])
      {
        assert Occurs(cfg, all, m);
      }
    }
  }

  /** What is in progress after n when one more event comes. */
  lemma {:induction false} InProgressSnoc(cfg: Config, es: seq<Event>, e: Event, n: nat)
    requires n < |es|
    ensures InProgress(cfg, es + [e], n) ==> InProgress(cfg, es, n)
    ensures InProgress(cfg, es + [e], n) ==> Enabled(Run(cfg, es), e) ==> !Restarts(Run(cfg, es), e)
    ensures Dones(cfg, es + [e], n + 1) ==
            Dones(cfg, es, n + 1) + if Enabled(Run(cfg, es), e) && e.TxDoneIrq? then 1 else 0
    ensures InProgress(cfg, es, n) && (Enabled(Run(cfg, es), e) ==> !Restarts(Run(cfg, es), e))
            && Dones(cfg, es + [e], n + 1) < |FramesOf(Run(cfg, es[..n]).queue[0], es[n].poll.tag)| ==>
            InProgress(cfg, es + [e], n)
  {
    hide Run, Enabled, Restarts, Undisturbed, Dones, FramesOf;
    GivesStays(cfg, es, e, n);
    UndisturbedSnoc(cfg, es, e, n + 1);
  }

  /** The packet's frames that are still to go on air are what the modem holds back. */
  ghost predicate Sending(cfg: Config, es: seq<Event>, n: nat) {
    InProgress(cfg, es, n) ==>
      var m := Run(cfg, es).modem; var fs := FramesOf(Run(cfg, es[..n]).queue[0], es[n].poll.tag);
      m.radio == Modem.Tx && |fs| <= 2 && (m.tail == [] <==> Dones(cfg, es, n + 1) == |fs| - 1)
  }

  lemma {:induction false} NowInProgress(cfg: Config, es: seq<Event>, e: Event)
    requires Enabled(Run(cfg, es), e) && e.Tick? && Run(cfg, es + [e]).pc.Popping?
    ensures InProgress(cfg, es + [e], |es|) && Sending(cfg, es + [e], |es|)
  {
    hide FramesOf, Step, Restarts;
    GivesNow(cfg, es, e);
    assert (es + [e])[..|es|] == es;
  }

  lemma {:induction false} SendingStep(cfg: Config, es: seq<Event>, e: Event, n: nat)
    requires n < |es| && Sending(cfg, es, n)
    ensures Sending(cfg, es + [e], n)
  {
    hide Step, Enabled, FramesOf, Gives, Undisturbed, Dones, Restarts;
    var s := Run(cfg, es);
    assert (es + [e])[..|es + [e]| - 1] == es;
    if !Enabled(s, e) { DisabledChangesNothing(cfg, s, e); } else { StepSends(cfg, s, e); }
    InProgressSnoc(cfg, es, e, n);
    if InProgress(cfg, es + [e], n) {
      GivesStays(cfg, es, e, n);
    }
  }

  lemma {:induction false} LastSends(cfg: Config, es: seq<Event>, e: Event)
    ensures Sending(cfg, es + [e], |es|)
  {
    hide Step, Enabled, FramesOf, Undisturbed, Dones;
    var all := es + [e];
    assert all[..|es|] == es && all[..|es| + 1] == all;
    if InProgress(cfg, all, |es|) { NowInProgress(cfg, es, e); }
  }

  lemma {:induction false} RunSends(cfg: Config, es: seq<Event>, n: nat)
    requires n < |es|
    ensures Sending(cfg, es, n)
    decreases |es|
  {
    hide Step, Sending, InProgress;
    var last := |es| - 1;
    var before, e := es[..last], es[last];
    assert es == before + [e];
    if n < last {
      RunSends(cfg, before, n);
      SendingStep(cfg, before, e, n);
    } else {
      LastSends(cfg, before, e);
    }
  }

  lemma {:induction false} StillInProgress(cfg: Config, es: seq<Event>, e: Event, n: nat)
    requires n < |es| && InProgress(cfg, es, n) && Run(cfg, es + [e]).modem.radio == Modem.Tx
    requires Enabled(Run(cfg, es), e) ==> !(e.Tick? && Run(cfg, es + [e]).pc.Popping?)
    ensures InProgress(cfg, es + [e], n)
  {
    hide Step, Enabled, FramesOf, Gives, Undisturbed, Dones, Restarts;
    var s := Run(cfg, es);
    assert (es + [e])[..|es + [e]| - 1] == es;
    if !Enabled(s, e) { DisabledChangesNothing(cfg, s, e); } else { StepSends(cfg, s, e); }
    RunSends(cfg, es, n);
    InProgressSnoc(cfg, es, e, n);
  }

  lemma {:induction false} TransmissionStarted(cfg: Config, es: seq<Event>) returns (n: nat)
    requires Run(cfg, es).modem.radio == Modem.Tx
    ensures n < |es| && InProgress(cfg, es, n)
    decreases |es|
  {
    hide Step, Enabled, InProgress, Dones;
    if es == [] { NothingOnAir(cfg); }
    var last := |es| - 1;
    var before, e := es[..last], es[last];
    var s := Run(cfg, before);
    assert es == before + [e];
    if !Enabled(s, e) { DisabledChangesNothing(cfg, s, e); } else { StepSends(cfg, s, e); }
    if Enabled(s, e) && e.Tick? && Run(cfg, es).pc.Popping? {
      n := last;
      NowInProgress(cfg, before, e);
    } else {
      n := TransmissionStarted(cfg, before);
      StillInProgress(cfg, before, e, n);
    }
  }

  /**
   * In every run the radio transmits exactly while a packet is in progress: since it was given to the
   * modem no restart has come, and fewer TX_DONEs than it has frames.
   */
  lemma {:induction false} TransmittingIsInProgress(cfg: Config, es: seq<Event>)
    ensures Run(cfg, es).modem.radio == Modem.Tx <==> exists n :: 0 <= n < |es| && InProgress(cfg, es, n)
  {
    hide Run, InProgress, Dones;
    if Run(cfg, es).modem.radio == Modem.Tx {
      var n := TransmissionStarted(cfg, es);
    }
    if n :| 0 <= n < |es| && InProgress(cfg, es, n) {
      RunSends(cfg, es, n);
    }
  }
}
