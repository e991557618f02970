/**
 * The transmit system over every interleaving: packets leave in the order they were pushed, none is
 * lost or duplicated between queue and radio, and the air log is made of their fragments.
 */
module Ordering {
  import opened Bytes
  import opened Frames
  import opened System
  import Airtime
  import Kiss
  import Modem
  import ModemLaws

  function PayloadsOf(sent: seq<Modem.Sent>): seq<seq<byte>> {
    if sent == [] then [] else PayloadsOf(sent[..|sent| - 1]) + [sent[|sent| - 1].payload]
  }

  lemma {:induction false} PayloadsOfSnoc(sent: seq<Modem.Sent>, x: Modem.Sent)
    ensures PayloadsOf(sent + [x]) == PayloadsOf(sent) + [x.payload]
  {
    assert (sent + [x])[..|sent|] == sent;
  }

  lemma {:induction false} CountLastKeepsPayloads(sent: seq<Modem.Sent>)
    ensures PayloadsOf(Modem.CountLast(sent)) == PayloadsOf(sent)
  {
    if sent != [] {
      assert Modem.CountLast(sent)[..|sent| - 1] == sent[..|sent| - 1];
    }
  }

  /** Every pushed packet is either sent or still queued; between the two critical sections of
      send_packet the head is both. */
  ghost predicate Conserved(s: State) {
    && (s.pc.Ready? ==> s.pushed == PayloadsOf(s.modem.sent) + s.queue)
    && (s.pc.Popping? ==>
          (&& s.queue != [] && s.modem.sent != []
           && s.modem.sent[|s.modem.sent| - 1].payload == s.queue[0]
           && s.pushed == PayloadsOf(s.modem.sent) + s.queue[1..]))
  }

  ghost predicate Inv(s: State) {
    Conserved(s) && ModemLaws.Inv(s.modem)
  }

  lemma {:induction false} SendConserves(sent: seq<Modem.Sent>, queue: seq<seq<byte>>, x: Modem.Sent)
    requires queue != [] && x.payload == queue[0]
    ensures PayloadsOf(sent + [x]) + queue[1..] == PayloadsOf(sent) + queue
  {
    PayloadsOfSnoc(sent, x);
    assert queue == [queue[0]] + queue[1..];
  }

  lemma {:induction false} TrySendInv(cfg: Config, s: State, i: Poll, flush: bool, target: nat)
    requires s.queue != [] && Sendable(s) && Airtime.Shaped(s.airtime) && s.pc.Ready?
    requires s.modem.radio != Modem.Tx
    requires Inv(s)
    ensures Inv(TrySend(cfg, s, i, flush, target))
  {
    ModemLaws.ToAirInv(s.modem, s.queue[0], i.tag);
    SendConserves(s.modem.sent, s.queue, Modem.Sent(s.queue[0], i.tag & 0xF0, 1));
  }

  lemma {:induction false} TickInv(cfg: Config, s: State, i: Poll)
    requires Airtime.Shaped(s.airtime) && s.pc.Ready? && Sendable(s) && Inv(s)
    ensures Inv(TickStep(cfg, s, i))
  {
    var s1 := s.(clock := i.now);
    if s.modem.radio == Modem.Tx {
      ModemLaws.StartInv(s.modem, i.restart.ok);
    } else if s.timers.txEnable && s.queue != [] {
      if s.timers.flushing {
        TrySendInv(cfg, s1, i, true, 0);
      } else {
        var l := Polling(cfg, s1, i);
        if l.send { TrySendInv(cfg, l.state, i, false, l.target); }
      }
    }
  }

  lemma {:induction false} ByteInv(s: State)
    requires s.host.rest != [] && Inv(s)
    ensures Inv(ByteStep(s))
  {
    var more := PushAll(Kiss.Feed(s.host.dec, s.host.rest[0]).frames);
    var sent := PayloadsOf(s.modem.sent);
    if s.pc.Ready? {
      assert sent + s.queue + more == sent + (s.queue + more);
    } else {
      assert (s.queue + more)[1..] == s.queue[1..] + more;
      assert sent + s.queue[1..] + more == sent + (s.queue[1..] + more);
    }
  }

  lemma {:induction false} StepInv(cfg: Config, s: State, e: Event)
    requires Airtime.Shaped(s.airtime) && Inv(s)
    ensures Inv(Step(cfg, s, e))
  {
    if Enabled(s, e) {
      match e
      case HostRead(_) =>
      case HostByte => ByteInv(s);
      case Tick(i) => TickInv(cfg, s, i);
      case Pop(_) =>
      case Refresh(_) =>
      case Medium(_, _) =>
      case TxDoneIrq(_) => {
        ModemLaws.TxDoneInv(s.modem);
        CountLastKeepsPayloads(s.modem.sent);
      }
      case Restart(r) => ModemLaws.StartInv(s.modem, r.ok);
    }
  }

  lemma {:induction false} RunInv(cfg: Config, es: seq<Event>)
    ensures Inv(Run(cfg, es))
    decreases |es|
  {
    if es != [] {
      RunInv(cfg, es[..|es| - 1]);
      StepInv(cfg, Run(cfg, es[..|es| - 1]), es[|es| - 1]);
    }
  }

  /**
   * The transmit-system theorem, for every interleaving. Without a restart during a transmission the
   * air log, plus the tail that TX_DONE will send, is the concatenation of the complete fragment lists
   * of the packets sent, and these are the pushed packets without the queued ones.
   */
  lemma {:induction false} TransmitSystem(cfg: Config, es: seq<Event>)
    ensures var s := Run(cfg, es); var m := s.modem;
      && (s.pc.Popping? ==> s.queue != [])
      && s.pushed == PayloadsOf(m.sent) + (if s.pc.Ready? then s.queue else s.queue[1..])
      && (m.aborted == 0 ==>
            && m.air + ModemLaws.Owed(m) == ModemLaws.AllParts(m.sent)
            && (m.tail != [] ==> m.radio == Modem.Tx))
  {
    RunInv(cfg, es);
    if Run(cfg, es).modem.aborted == 0 { ModemLaws.NothingLost(Run(cfg, es).modem); }
  }

  /**
   * With restarts at any step: a second fragment on air directly follows the first fragment of the
   * same packet, so a tail left in buf_tx by a restart is never transmitted; the order of pushing is
   * kept; and each restart during a transmission costs at most one packet its tail. Every frame fits the
   * radio.
   */
  lemma {:induction false} RestartSafe(cfg: Config, es: seq<Event>, k: nat) returns (i: nat, part: nat)
    requires k < |Run(cfg, es).modem.air|
    ensures var m := Run(cfg, es).modem;
      && ModemLaws.Plausible(m.sent)
      && i < |m.sent| && part < m.sent[i].aired <= 2
      && k == ModemLaws.StartOf(m.sent, i) + part
      && m.air[k] == m.sent[i].Parts()[part] && IsFrame(m.air[k])
      && (part == 1 ==> m.air[k - 1] == m.sent[i].Parts()[0])
      && ModemLaws.Incomplete(m.sent) <= m.aborted + (if ModemLaws.Transmitting(m) then 1 else 0)
  {
    RunInv(cfg, es);
    ModemLaws.AiredAreFrames(Run(cfg, es).modem.sent);
    i, part := ModemLaws.Origin(Run(cfg, es).modem.sent, k);
  }
}
