/**
 * Runs written out: a host that sends one packet, and the events that take the packet from an idle
 * daemon to the air. They reach the states that the laws about runs speak of.
 */
module Scripts {
  import opened Frames
  import opened System
  import opened Contention
  import Airtime
  import EndToEnd
  import Kiss
  import KissLaws
  import Modem

  // ---- the host sends a packet ----

  function HostBytes(n: nat): seq<Event> {
    seq(n, k => HostByte)
  }

  /** The state when kiss_decode has come to the end of its chunk. */
  function Consumed(s: State): State {
    var d := Kiss.Decode(s.host.dec, s.host.rest);
    s.(host := Host(d.state, [], s.host.chunks, s.host.heard + d.frames),
       queue := s.queue + PushAll(d.frames),
       pushed := s.pushed + PushAll(d.frames))
  }

  lemma {:induction false} ByteConsumed(s: State)
    requires s.host.rest != []
    ensures Consumed(ByteStep(s)) == Consumed(s)
  {
    hide Kiss.Feed, PushAll;
    var f := Kiss.Feed(s.host.dec, s.host.rest[0]);
    var t := ByteStep(s);
    var later := Kiss.Decode(t.host.dec, t.host.rest);
    EndToEnd.DecodeFirst(s.host.dec, s.host.rest, []);
    EndToEnd.DecodeFirst(s.host.dec, s.host.rest, s.host.heard);
    EndToEnd.PushAllAppend(f.frames, later.frames);
    var d := Kiss.Decode(s.host.dec, s.host.rest);
    assert d.frames == f.frames + later.frames by {
      assert [] + d.frames == d.frames && [] + f.frames == f.frames;
    }
    assert s.queue + (PushAll(f.frames) + PushAll(later.frames)) == t.queue + PushAll(later.frames);
    assert s.pushed + (PushAll(f.frames) + PushAll(later.frames)) == t.pushed + PushAll(later.frames);
  }

  /** A chunk that does not overflow the buffer takes one event per byte. */
  lemma {:induction false} ConsumeAll(cfg: Config, s: State)
    requires Airtime.Shaped(s.airtime) && !KissLaws.Overflows(s.host.dec, s.host.rest)
    ensures RunFrom(cfg, s, HostBytes(|s.host.rest|)) == Consumed(s)
    decreases |s.host.rest|
  {
    assert PushAll([]) == [];
    hide PushAll, Kiss.Feed;
    var rest := s.host.rest;
    if rest == [] {
      assert Consumed(s) == s;
    } else {
      var t := ByteStep(s);
      ByteConsumed(s);
      ConsumeAll(cfg, t);
      assert HostBytes(|rest|) == [HostByte] + HostBytes(|rest| - 1);
      RunOne(cfg, s, HostByte);
      RunAppend(cfg, s, [HostByte], HostBytes(|rest| - 1));
    }
  }

  /** The events of a host that sends p in one chunk. */
  function HostSends(p: Packet): seq<Event> {
    var bytes := Kiss.Encode([CMD_DATA] + p);
    [HostRead(bytes)] + HostBytes(|bytes|)
  }

  /** Nothing of the byte stream is pending. */
  predicate Listening(h: Host) {
    h.rest == [] && h.dec in {Kiss.RESET, Kiss.Dec(true, false, [])}
  }

  predicate SameButHost(s: State, t: State) {
    t == s.(host := t.host, queue := t.queue, pushed := t.pushed)
  }

  lemma {:induction false} EncodingDecoded(d: Kiss.Dec, p: Packet)
    requires d in {Kiss.RESET, Kiss.Dec(true, false, [])}
    ensures var bytes := Kiss.Encode([CMD_DATA] + p);
      Kiss.Decode(d, bytes) == Kiss.Decoded(Kiss.Dec(true, false, []), [[CMD_DATA] + p], [])
      && !KissLaws.Overflows(d, bytes)
  {
    var f := [CMD_DATA] + p;
    var bytes := Kiss.Encode(f);
    assert [f][1..] == [];
    assert Kiss.EncodeAll([f]) == bytes + [];
    KissLaws.DecodeAll(d, [f]);
    assert [] + [f] + [] == [f];
    KissLaws.DecodeConcat(d, bytes, []);
  }

  lemma {:induction false} PacketPushed(cfg: Config, s: State, p: Packet) returns (t: State)
    requires Airtime.Shaped(s.airtime) && Listening(s.host)
    ensures t == RunFrom(cfg, s, HostSends(p)) && SameButHost(s, t) && Listening(t.host)
    ensures t.queue == s.queue + [p]
  {
    var f := [CMD_DATA] + p;
    var bytes := Kiss.Encode(f);
    EncodingDecoded(s.host.dec, p);
    var read := Step(cfg, s, HostRead(bytes));
    RunOne(cfg, s, HostRead(bytes));
    RunAppend(cfg, s, [HostRead(bytes)], HostBytes(|bytes|));
    ConsumeAll(cfg, read);
    t := RunFrom(cfg, s, HostSends(p));
    PushAllOne(f);
    assert f[1..] == p;
  }

  // ---- the worker takes it up ----

  /** A free medium since the worker's first poll at 1: no DIFS has passed yet, and the window is 0. */
  function Waiting(): Timers {
    Initial().timers.(since := 1, picked := true)
  }

  /** One packet is pushed, and the worker polls once. */
  function Start(p: Packet): seq<Event> {
    HostSends(p) + [Tick(CalmPoll(1))]
  }

  lemma {:induction false} Started(cfg: Config, p: Packet) returns (s: State)
    ensures s == Run(cfg, Start(p)) && s.queue == [p] && s.pc.Ready? && s.timers == Waiting()
    ensures s.modem == Modem.INITIAL && s.airtime == Airtime.Initial() && s.clock == 1
    ensures s.trace == [Polled(1, true)] && Listening(s.host)
  {
    var pushed := PacketPushed(cfg, Initial(), p);
    assert pushed.queue == [] + [p];
    RunIsFromInitial(cfg, HostSends(p));
    RunContinues(cfg, HostSends(p), [Tick(CalmPoll(1))]);
    RunOne(cfg, pushed, Tick(CalmPoll(1)));
    s := Run(cfg, Start(p));
    assert s.trace == [] + [Polled(1, true)];
  }
}
