/**
 * From the bytes one host sends to the bytes another host receives: KISS in, queue, fragments, air,
 * reassembly, KISS out.
 */
module EndToEnd {
  import opened Bytes
  import opened Frames
  import opened System
  import Airtime
  import Kiss
  import KissLaws
  import Modem
  import ModemLaws
  import Ordering
  import ReassemblyLaws
  import Receiver

  // ---- the sending host's byte stream ----

  lemma {:induction false} PushAllAppend(a: seq<seq<byte>>, b: seq<seq<byte>>)
    ensures PushAll(a + b) == PushAll(a) + PushAll(b)
    decreases |b|
  {
    if b == [] {
      assert a + b == a;
    } else {
      assert (a + b)[..|a + b| - 1] == a + b[..|b| - 1];
      PushAllAppend(a, b[..|b| - 1]);
    }
  }

  lemma {:induction false} DecodeChunksSnoc(d: Kiss.Dec, cs: seq<seq<byte>>, c: seq<byte>)
    ensures var before := Kiss.DecodeChunks(d, cs); var last := Kiss.Decode(before.0, c);
      Kiss.DecodeChunks(d, cs + [c]) == (last.state, before.1 + last.frames)
    decreases cs
  {
    if cs == [] {
      assert [c][1..] == [];
      var last := Kiss.Decode(d, c);
      assert last.frames + [] == [] + last.frames;
    } else {
      assert (cs + [c])[1..] == cs[1..] + [c];
      var first := Kiss.Decode(d, cs[0]);
      DecodeChunksSnoc(first.state, cs[1..], c);
      var middle := Kiss.DecodeChunks(first.state, cs[1..]);
      var last := Kiss.Decode(middle.0, c);
      assert first.frames + (middle.1 + last.frames) == (first.frames + middle.1) + last.frames;
    }
  }

  /** The TCP thread is a prefix of what kiss_decode makes of the chunks, and every frame it has
      decoded has been pushed. */
  ghost predicate HostInv(s: State) {
    && (var d := Kiss.Decode(s.host.dec, s.host.rest);
        Kiss.DecodeChunks(Kiss.RESET, s.host.chunks) == (d.state, s.host.heard + d.frames))
    && s.pushed == PushAll(s.host.heard)
  }

  lemma {:induction false} HostReadInv(s: State, chunk: seq<byte>)
    requires HostInv(s) && s.host.rest == []
    ensures HostInv(s.(host := s.host.(rest := chunk, chunks := s.host.chunks + [chunk])))
  {
    DecodeChunksSnoc(Kiss.RESET, s.host.chunks, chunk);
    assert s.host.heard + [] == s.host.heard;
  }

  lemma {:induction false} DecodeFirst(d: Kiss.Dec, bs: seq<byte>, heard: seq<seq<byte>>)
    requires bs != []
    ensures var f := Kiss.Feed(d, bs[0]); var all := Kiss.Decode(d, bs);
            var later := Kiss.Decode(f.state, if f.full then [] else bs[1..]);
      heard + all.frames == (heard + f.frames) + later.frames && all.state == later.state
  {
    hide Kiss.Feed;
    var f := Kiss.Feed(d, bs[0]);
    if f.full {
      assert heard + f.frames == (heard + f.frames) + [];
    } else {
      var later := Kiss.Decode(f.state, bs[1..]);
      assert heard + (f.frames + later.frames) == (heard + f.frames) + later.frames;
    }
  }

  lemma {:induction false} HostByteInv(s: State)
    requires HostInv(s) && s.host.rest != []
    ensures HostInv(ByteStep(s))
  {
    hide Kiss.Feed, PushAll;
    var f := Kiss.Feed(s.host.dec, s.host.rest[0]);
    PushAllAppend(s.host.heard, f.frames);
    DecodeFirst(s.host.dec, s.host.rest, s.host.heard);
  }

  lemma {:induction false} HostUntouched(cfg: Config, s: State, e: Event)
    requires Airtime.Shaped(s.airtime) && !e.HostRead? && !e.HostByte?
    ensures Step(cfg, s, e).host == s.host && Step(cfg, s, e).pushed == s.pushed
  {
  }

  lemma {:induction false} HostStep(cfg: Config, s: State, e: Event)
    requires Airtime.Shaped(s.airtime) && HostInv(s)
    ensures HostInv(Step(cfg, s, e))
  {
    match e
    case HostRead(chunk) => if Enabled(s, e) { HostReadInv(s, chunk); }
    case HostByte => if Enabled(s, e) { HostByteInv(s); }
    case _ => HostUntouched(cfg, s, e);
  }

  lemma {:induction false} HostRun(cfg: Config, es: seq<Event>)
    ensures HostInv(Run(cfg, es))
    decreases |es|
  {
    if es == [] {
      var s := Run(cfg, es);
      assert s == Initial();
      assert s.host.chunks == [] && s.host.heard == [] && s.host.rest == [] && s.pushed == [];
      assert Kiss.DecodeChunks(Kiss.RESET, s.host.chunks) == (Kiss.RESET, []);
      assert s.host.heard + s.host.heard == s.host.heard;
      assert Kiss.Decode(s.host.dec, s.host.rest) == Kiss.Decoded(Kiss.RESET, [], []);
    } else {
      HostRun(cfg, es[..|es| - 1]);
      HostStep(cfg, Run(cfg, es[..|es| - 1]), es[|es| - 1]);
    }
  }

  /** However TCP cuts the encoded frames, exactly they are decoded. */
  lemma {:induction false} DecodedFrames(frames: seq<seq<byte>>, cs: seq<seq<byte>>)
    requires KissLaws.Frames(frames) && Flatten(cs) == Kiss.EncodeAll(frames)
    ensures Kiss.DecodeChunks(Kiss.RESET, cs).1 == frames
  {
    if frames == [] {
      KissLaws.ChunkingHidden(Kiss.RESET, cs);
    } else {
      KissLaws.RoundTrip(Kiss.RESET, frames, cs);
      assert [] + frames == frames;
    }
  }

  // ---- the receiving radio and its host ----

  datatype Signal = Signal(rssi: byte, snr: byte)

  /** The KISS frames that a receiver hands to its host for frames arriving in order; rnode_rx_done
      ignores an empty one. */
  function Reported(rx: Rx, fs: seq<seq<byte>>, signals: seq<Signal>): seq<seq<byte>>
    requires |signals| == |fs|
    decreases fs
  {
    if fs == [] then []
    else if fs[0] == [] then Reported(rx, fs[1..], signals[1..])
    else
      var r := Receive(rx, fs[0]);
      Receiver.Reports(signals[0].rssi, signals[0].snr, r.1) + Reported(r.0, fs[1..], signals[1..])
  }

  predicate Short(ps: seq<seq<byte>>) {
    forall p | p in ps :: |p| <= PAYLOAD_MAX
  }

  lemma {:induction false} DataFramesPushed(ps: seq<seq<byte>>)
    requires Short(ps)
    ensures PushAll(Receiver.DataFrames(ps)) == ps
    decreases ps
  {
    assert PushAll([]) == [];
    hide PushAll;
    if ps != [] {
      var first := [CMD_DATA] + ps[0];
      DataFramesPushed(ps[1..]);
      PushAllAppend([first], Receiver.DataFrames(ps[1..]));
      PushAllOne(first);
      assert first[1..] == ps[0];
    }
  }

  lemma {:induction false} DataFramesFit(ps: seq<seq<byte>>)
    requires Short(ps)
    ensures KissLaws.Frames(Receiver.DataFrames(ps))
    decreases ps
  {
    if ps != [] { DataFramesFit(ps[1..]); }
  }

  lemma {:induction false} ReportsPushed(g: Signal, ps: seq<seq<byte>>)
    requires Short(ps)
    ensures PushAll(Receiver.Reports(g.rssi, g.snr, ps)) == ps
    ensures KissLaws.Frames(Receiver.Reports(g.rssi, g.snr, ps))
  {
    hide PushAll, Receiver.DataFrames;
    var a, b := [Receiver.CMD_STAT_RSSI, g.rssi], [Receiver.CMD_STAT_SNR, g.snr];
    DataFramesPushed(ps);
    DataFramesFit(ps);
    assert [a, b] == [a] + [b];
    PushAllAppend([a], [b]);
    PushAllOne(a);
    PushAllOne(b);
    PushAllAppend([a, b], Receiver.DataFrames(ps));
  }

  lemma {:induction false} ReportedData(rx: Rx, fs: seq<seq<byte>>, signals: seq<Signal>)
    requires rx.Valid() && AreFrames(fs) && |signals| == |fs|
    ensures PushAll(Reported(rx, fs, signals)) == ReceiveAll(rx, fs).1
    ensures KissLaws.Frames(Reported(rx, fs, signals))
    decreases fs
  {
    if fs != [] {
      assert IsFrame(fs[0]);
      var r := Receive(rx, fs[0]);
      ReassemblyLaws.ReceiveKeepsValid(rx, fs[0]);
      ReportsPushed(signals[0], r.1);
      ReportedData(r.0, fs[1..], signals[1..]);
      PushAllAppend(Receiver.Reports(signals[0].rssi, signals[0].snr, r.1), Reported(r.0, fs[1..], signals[1..]));
    }
  }

  /** A receiver that starts with nothing waiting reassembles any series of complete packets. */
  lemma {:induction false} PacketsReceived(sent: seq<Modem.Sent>)
    requires ModemLaws.Plausible(sent)
    ensures AreFrames(ModemLaws.AllParts(sent))
    ensures ReceiveAll(Unset, ModemLaws.AllParts(sent)) == (Unset, Ordering.PayloadsOf(sent))
  {
    if sent != [] {
      var n := |sent| - 1;
      PacketsReceived(sent[..n]);
      ReassemblyLaws.RoundTrip(Unset, sent[n].payload, sent[n].tag);
      ReassemblyLaws.ReceiveAppend(Unset, ModemLaws.AllParts(sent[..n]), sent[n].Parts());
    }
  }

  // ---- end to end ----

  /** Nothing decoded is still queued, and nothing queued is still to be transmitted. */
  predicate Drained(s: State) {
    s.host.rest == [] && s.queue == [] && s.modem.tail == []
  }

  lemma {:induction false} DrainedAir(s: State)
    requires Ordering.Inv(s) && s.modem.aborted == 0 && Drained(s)
    ensures AreFrames(s.modem.air) && ReceiveAll(Unset, s.modem.air) == (Unset, s.pushed)
  {
    var sent := s.modem.sent;
    ModemLaws.NothingLost(s.modem);
    assert s.modem.air + [] == s.modem.air;
    PacketsReceived(sent);
    assert s.pc.Ready?;
    assert Ordering.PayloadsOf(sent) + [] == Ordering.PayloadsOf(sent);
  }

  lemma {:induction false} AirCarriesPushed(cfg: Config, es: seq<Event>)
    requires Run(cfg, es).modem.aborted == 0 && Drained(Run(cfg, es))
    ensures var s := Run(cfg, es);
      AreFrames(s.modem.air) && ReceiveAll(Unset, s.modem.air) == (Unset, s.pushed)
  {
    var s := Run(cfg, es);
    Ordering.RunInv(cfg, es);
    DrainedAir(s);
  }

  /** The CMD_DATA frames among the frames that a host decodes. */
  function DataPart(fs: seq<seq<byte>>): seq<seq<byte>> {
    if fs == [] then []
    else
      var n := |fs| - 1;
      DataPart(fs[..n]) + if fs[n] != [] && fs[n][0] == 0x00 then [fs[n]] else []
  }

  lemma {:induction false} OnlyDataIsPushed(fs: seq<seq<byte>>)
    ensures PushAll(DataPart(fs)) == PushAll(fs)
  {
    if fs != [] {
      var n := |fs| - 1;
      OnlyDataIsPushed(fs[..n]);
      PushAllAppend(DataPart(fs[..n]), [fs[n]]);
      PushAllOne(fs[n]);
      assert DataPart(fs[..n]) + [] == DataPart(fs[..n]);
    }
  }

  /** The host has sent `frames`, in whatever chunks; no restart hit a transmission; nothing is left to do. */
  predicate Delivers(s: State, frames: seq<seq<byte>>) {
    && KissLaws.Frames(frames) && Flatten(s.host.chunks) == Kiss.EncodeAll(frames)
    && s.modem.aborted == 0 && Drained(s)
  }

  /** A receiver hears `air` in order and sends `out` to its host, which reads the chunks `cs`: the signal
      reports and payloads it makes of `air`, with any other frames before, between and behind them, as
      long as none of these is a CMD_DATA frame. */
  predicate Hears(air: seq<seq<byte>>, signals: seq<Signal>, out: seq<seq<byte>>, cs: seq<seq<byte>>) {
    && |signals| == |air| && KissLaws.Frames(out)
    && DataPart(out) == DataPart(Reported(Unset, air, signals))
    && Flatten(cs) == Kiss.EncodeAll(out)
  }

  /**
   * End to end. The first host sends `frames`, cut into TCP chunks in any way; the events interleave
   * decoding, pushing, worker iterations, radio events and restarts in any way, as long as no restart
   * hits a transmission; the tags are arbitrary. Once the system has drained, a receiver that hears
   * the air log in order makes its own host decode, from whatever chunks and among whatever other
   * frames, frames whose CMD_DATA part is that of `frames`, in order.
   */
  lemma {:induction false} EndToEnd(cfg: Config, es: seq<Event>, frames: seq<seq<byte>>,
                                    signals: seq<Signal>, out: seq<seq<byte>>, cs: seq<seq<byte>>)
    requires Delivers(Run(cfg, es), frames)
    requires Hears(Run(cfg, es).modem.air, signals, out, cs)
    ensures PushAll(Kiss.DecodeChunks(Kiss.RESET, cs).1) == PushAll(frames)
  {
    var s := Run(cfg, es);
    HostRun(cfg, es);
    DecodedFrames(frames, s.host.chunks);
    assert s.host.heard + [] == s.host.heard == frames;
    AirCarriesPushed(cfg, es);
    ReportedData(Unset, s.modem.air, signals);
    OnlyDataIsPushed(out);
    OnlyDataIsPushed(Reported(Unset, s.modem.air, signals));
    DecodedFrames(out, cs);
  }

  /** The same for CMD_DATA frames only: the payloads themselves. */
  lemma {:induction false} PayloadsEndToEnd(cfg: Config, es: seq<Event>, ps: seq<Packet>,
                                            signals: seq<Signal>, out: seq<seq<byte>>, cs: seq<seq<byte>>)
    requires Delivers(Run(cfg, es), Receiver.DataFrames(ps))
    requires Hears(Run(cfg, es).modem.air, signals, out, cs)
    ensures PushAll(Kiss.DecodeChunks(Kiss.RESET, cs).1) == ps
  {
    DataFramesPushed(ps);
    EndToEnd(cfg, es, Receiver.DataFrames(ps), signals, out, cs);
  }
}
