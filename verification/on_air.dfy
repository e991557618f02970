/**
 * The duty-cycle bound in terms of the frames on air. What csma_add_airtime records is the airtime of the
 * payload without the frames' header bytes; each frame may take one code word group longer.
 */
module OnAir {
  import opened Frames
  import opened RadioParams
  import Airtime
  import AirtimeLaws
  import DutyCycle
  import Modem
  import ModemLaws
  import Ordering
  import System

  /** The time that c more symbols take, in whole milliseconds rounded up. */
  function MoreMs(c: nat, symbolMs: real): int {
    Ceil(c as real * symbolMs)
  }

  /** One code word group. */
  function GroupMs(m: Modulation): int
    requires m.Valid()
  {
    MoreMs(m.cr, SymbolMs(m.sf, m.bw))
  }

  lemma {:induction false} CeilIsAtLeast(x: real)
    ensures Ceil(x) as real >= x
  {
  }

  lemma {:induction false} FloorOfSum(x: real, y: real)
    ensures (x + y).Floor <= x.Floor + Ceil(y)
  {
    CeilIsAtLeast(y);
    var z: real := Ceil(y) as real;
    assert x + y <= x + z;
    assert (x + z).Floor == x.Floor + Ceil(y);
  }

  lemma {:induction false} DurationOfMore(a: int, c: nat, symbolMs: real)
    requires symbolMs >= 0.0
    ensures Duration(a + c, symbolMs) <= Duration(a, symbolMs) + MoreMs(c, symbolMs)
  {
    assert (a + c) as real * symbolMs == a as real * symbolMs + c as real * symbolMs;
    FloorOfSum(a as real * symbolMs, c as real * symbolMs);
  }

  lemma {:induction false} HeaderByteMs(m: Modulation, len: nat)
    requires m.Valid()
    ensures AirTimeMs(m, len + 1) <= AirTimeMs(m, len) + GroupMs(m)
  {
    hide Symbols, SymbolMs, MoreMs, Duration, HeaderIsFree, PreambleMs;
    var a, b, ms := Symbols(m, len), Symbols(m, len + 1), SymbolMs(m.sf, m.bw);
    OneMoreByte(m, len);
    DurationMonotone(b, a + m.cr, ms);
    DurationOfMore(a, m.cr, ms);
    assert DataMs(m, len + 1) == Duration(b, ms) <= Duration(a, ms) + GroupMs(m);
    assert DataMs(m, len) == Duration(a, ms);
  }

  lemma {:induction false} AirTimePositive(m: Modulation, len: nat)
    requires m.Valid()
    ensures AirTimeMs(m, len) >= 0
  {
    SpanPositive(m);
  }

  /** A packet's frames against what was recorded for it. */
  lemma {:induction false} PacketOnAir(m: Modulation, x: Modem.Sent)
    requires m.Valid() && 1 <= x.aired <= |x.Parts()|
    ensures FramesMs(m, x.Parts()[..x.aired]) <= RecordedMs(m, x.payload) + x.aired * GroupMs(m)
  {
    hide AirTimeMs, GroupMs;
    var fs, p := x.Parts(), x.payload;
    var out := fs[..x.aired];
    if |p| <= DATA_MTU {
      HeaderByteMs(m, |p|);
      assert out == [fs[0]] && out[1..] == [] && |fs[0]| == |p| + 1;
      assert FramesMs(m, out) == AirTimeMs(m, |p| + 1) + 0;
    } else {
      var rest := |p| - DATA_MTU;
      HeaderByteMs(m, DATA_MTU);
      HeaderByteMs(m, rest);
      AirTimePositive(m, rest);
      assert |fs[0]| == DATA_MTU + 1 && |fs[1]| == rest + 1;
      if x.aired == 1 {
        assert out == [fs[0]] && out[1..] == [];
        assert FramesMs(m, out) == AirTimeMs(m, DATA_MTU + 1) + 0;
      } else {
        assert out == [fs[0], fs[1]] && out[1..] == [fs[1]] && out[1..][1..] == [];
        assert FramesMs(m, [fs[1]]) == AirTimeMs(m, rest + 1) + 0;
        assert FramesMs(m, out) == AirTimeMs(m, DATA_MTU + 1) + AirTimeMs(m, rest + 1);
      }
    }
  }

  predicate InWindow(b: Airtime.Burst, lo: int, hi: int) {
    lo <= Airtime.BinOf(b.t) <= hi
  }

  /** The time that the frames of the packets recorded in bins lo to hi took on air. */
  function WindowOnAir(m: Modulation, sent: seq<Modem.Sent>, log: seq<Airtime.Burst>, lo: int, hi: int): int
    requires m.Valid() && ModemLaws.Plausible(sent) && |log| == |sent|
  {
    if sent == [] then 0
    else
      var n := |sent| - 1;
      WindowOnAir(m, sent[..n], log[..n], lo, hi) +
      if InWindow(log[n], lo, hi) then FramesMs(m, sent[n].Parts()[..sent[n].aired]) else 0
  }

  /** How many frames these are. */
  function WindowFrames(sent: seq<Modem.Sent>, log: seq<Airtime.Burst>, lo: int, hi: int): nat
    requires |log| == |sent|
  {
    if sent == [] then 0
    else
      var n := |sent| - 1;
      WindowFrames(sent[..n], log[..n], lo, hi) + if InWindow(log[n], lo, hi) then sent[n].aired else 0
  }

  /** Every packet was recorded with the airtime that rnode_to_air computes for it. */
  predicate RecordedAs(m: Modulation, sent: seq<Modem.Sent>, log: seq<Airtime.Burst>)
    requires m.Valid() && |log| == |sent|
  {
    forall i :: 0 <= i < |log| ==> log[i].ms == RecordedMs(m, sent[i].payload)
  }

  lemma {:induction false} Distribute(a: int, b: int, g: int)
    ensures (a + b) * g == a * g + b * g
  {
  }

  lemma {:induction false} OnAirAgainstLog(m: Modulation, sent: seq<Modem.Sent>, log: seq<Airtime.Burst>,
                                           lo: int, hi: int)
    requires m.Valid() && ModemLaws.Plausible(sent) && |log| == |sent| && RecordedAs(m, sent, log)
    ensures WindowOnAir(m, sent, log, lo, hi) <=
            AirtimeLaws.Window(log, lo, hi) + WindowFrames(sent, log, lo, hi) * GroupMs(m)
  {
    hide GroupMs, FramesMs, RecordedMs, Airtime.BinOf, SymbolMs, Fragments;
    if sent != [] {
      var n := |sent| - 1;
      OnAirAgainstLog(m, sent[..n], log[..n], lo, hi);
      PacketOnAir(m, sent[n]);
      Distribute(WindowFrames(sent[..n], log[..n], lo, hi), sent[n].aired, GroupMs(m));
    }
  }

  /**
   * The duty-cycle bound on the air: with a long-term limit, when every packet was recorded with the
   * airtime that rnode_to_air computes, the frames of the packets recorded in any 479 consecutive bins
   * take less than the limit's share of an hour, plus one packet, plus one code word group for each of
   * them.
   */
  lemma {:induction false} LongTermOnAir(cfg: System.Config, es: seq<System.Event>, m: Modulation, now: nat)
    returns (i: nat)
    requires m.Valid() && cfg.limits.long != 0 && !System.Run(cfg, es).airtime.overflowed
    requires var s := System.Run(cfg, es);
      && |s.airtime.log| == |s.modem.sent| && RecordedAs(m, s.modem.sent, s.airtime.log)
      && AirtimeLaws.Window(s.airtime.log, now - 478, now) > 0
    ensures var s := System.Run(cfg, es); var log := s.airtime.log;
      && ModemLaws.Plausible(s.modem.sent) && s.modem.air == ModemLaws.Aired(s.modem.sent)
      && i < |log| && InWindow(log[i], now - 478, now)
      && WindowOnAir(m, s.modem.sent, log, now - 478, now) * 10_000 <
           cfg.limits.long * Airtime.LONGTERM_MS + log[i].ms * 10_000
           + WindowFrames(s.modem.sent, log, now - 478, now) * GroupMs(m) * 10_000
  {
    hide WindowOnAir, WindowFrames, GroupMs, RecordedAs, AirtimeLaws.Window;
    Ordering.RunInv(cfg, es);
    i := DutyCycle.LongTermBound(cfg, es, now);
    var s := System.Run(cfg, es);
    OnAirAgainstLog(m, s.modem.sent, s.airtime.log, now - 478, now);
  }
}
