/**
 * The radio arithmetic of sx126x/sx126x.c and src/csma.c over exact numbers: on-air times, the medium
 * inhibition derived from them, and the CSMA timing derived from the symbol time.
 */
module RadioParams {
  import opened Bytes
  import opened Contention
  import opened Frames
  import Airtime
  import Progress
  import Reception
  import System

  /** LoRa modulation as saved by sx126x_set_lora_modulation; `cr` is the denominator 4 to 8. */
  datatype Modulation = Modulation(sf: nat, bw: nat, cr: nat, preamble: nat) {
    predicate Valid() {
      7 <= sf <= 12 && bw > 0 && 4 <= cr <= 8
    }
  }

  function Pow2(n: nat): (r: nat)
    ensures r > 0
  {
    if n == 0 then 1 else 2 * Pow2(n - 1)
  }

  function SymbolMs(sf: nat, bw: nat): (r: real)
    requires bw > 0
    ensures r > 0.0
  {
    Pow2(sf) as real / bw as real * 1000.0
  }

  function Ceil(x: real): int {
    -((-x).Floor)
  }

  // ---- time on air ----

  /** The payload symbols that sx126x_air_time computes. */
  function Symbols(m: Modulation, len: nat): int
    requires m.Valid()
  {
    var bits := 8.0 * len as real - 4.0 * m.sf as real + 8.0 + 16.0 + 20.0;
    Ceil(bits / 4.0 / m.sf as real) * m.cr + 8
  }

  /** Section 6.1.4 of the SX1261/2 data sheet for SF 7 to 12, explicit header, CRC on, no low data
      rate optimisation, without the preamble: the numerator is cut off at zero. */
  function DataSheetSymbols(m: Modulation, len: nat): int
    requires m.Valid()
  {
    var numerator: int := 8 * len + 16 - 4 * m.sf + 8 + 20;
    8 + Ceil((if numerator > 0 then numerator else 0) as real / (4 * m.sf) as real) * m.cr
  }

  lemma {:induction false} CeilIs(x: real, n: int)
    requires n as real - 1.0 < x <= n as real
    ensures Ceil(x) == n
  {
  }

  lemma {:induction false} CeilMonotone(x: real, y: real)
    requires x <= y
    ensures Ceil(x) <= Ceil(y)
  {
  }

  lemma {:induction false} DivideTwice(x: real, a: real, b: real)
    requires a > 0.0 && b > 0.0
    ensures x / a / b == x / (a * b)
  {
  }

  lemma {:induction false} DivideMonotone(x: real, y: real, a: real)
    requires x <= y && a > 0.0
    ensures x / a <= y / a
  {
  }

  lemma {:induction false} SmallNumerator(n: int, d: int)
    requires d > 0 && -d < n <= 0
    ensures Ceil(n as real / d as real) == 0
  {
    DivideMonotone(n as real, 0.0, d as real);
    assert n as real / d as real > -1.0;
    CeilIs(n as real / d as real, 0);
  }

  /** The code's formula has no cut-off at zero and does not need one: for SF 12 and an empty payload
      the numerator is negative, but its ceiling is 0 all the same. */
  lemma {:induction false} MatchesDataSheet(m: Modulation, len: nat)
    requires m.Valid()
    ensures Symbols(m, len) == DataSheetSymbols(m, len)
  {
    var n: int := 8 * len + 16 - 4 * m.sf + 8 + 20;
    var bits := 8.0 * len as real - 4.0 * m.sf as real + 8.0 + 16.0 + 20.0;
    assert bits == n as real;
    DivideTwice(bits, 4.0, m.sf as real);
    assert 4.0 * m.sf as real == (4 * m.sf) as real;
    if n <= 0 {
      SmallNumerator(n, 4 * m.sf);
      SmallNumerator(0, 4 * m.sf);
    }
  }

  lemma {:induction false} SymbolsMonotone(m: Modulation, a: nat, b: nat)
    requires m.Valid() && a <= b
    ensures Symbols(m, a) <= Symbols(m, b)
  {
    var x := 8.0 * a as real - 4.0 * m.sf as real + 8.0 + 16.0 + 20.0;
    var y := 8.0 * b as real - 4.0 * m.sf as real + 8.0 + 16.0 + 20.0;
    DivideMonotone(x, y, 4.0);
    DivideMonotone(x / 4.0, y / 4.0, m.sf as real);
    CeilMonotone(x / 4.0 / m.sf as real, y / 4.0 / m.sf as real);
    MulMonotone(Ceil(x / 4.0 / m.sf as real), Ceil(y / 4.0 / m.sf as real), m.cr);
  }

  /** The whole milliseconds that a number of symbols takes. */
  function Duration(symbols: int, symbolMs: real): int {
    (symbols as real * symbolMs).Floor
  }

  lemma {:induction false} DurationMonotone(a: int, b: int, symbolMs: real)
    requires a <= b && symbolMs >= 0.0
    ensures Duration(a, symbolMs) <= Duration(b, symbolMs)
    ensures a >= 0 ==> Duration(a, symbolMs) >= 0
  {
    assert a as real * symbolMs <= b as real * symbolMs;
  }

  lemma {:induction false} SymbolsPositive(m: Modulation, len: nat)
    requires m.Valid()
    ensures Symbols(m, len) >= 8
  {
    MatchesDataSheet(m, 0);
    SmallNumerator(0, 4 * m.sf);
    SymbolsMonotone(m, 0, len);
  }

  /** The data part of sx126x_air_time. */
  function DataMs(m: Modulation, len: nat): nat
    requires m.Valid()
  {
    SymbolsPositive(m, len);
    DurationMonotone(0, Symbols(m, len), SymbolMs(m.sf, m.bw));
    Duration(Symbols(m, len), SymbolMs(m.sf, m.bw))
  }

  lemma {:induction false} DataMsMonotone(m: Modulation, a: nat, b: nat)
    requires m.Valid() && a <= b
    ensures DataMs(m, a) <= DataMs(m, b)
  {
    SymbolsMonotone(m, a, b);
    DurationMonotone(Symbols(m, a), Symbols(m, b), SymbolMs(m.sf, m.bw));
  }

  /** The preamble part of sx126x_air_time. */
  function PreambleMs(m: Modulation): int
    requires m.Valid()
  {
    ((m.preamble as real + 4.25) * SymbolMs(m.sf, m.bw)).Floor
  }

  function AirTimeMs(m: Modulation, len: nat): int
    requires m.Valid()
  {
    PreambleMs(m) + DataMs(m, len)
  }

  /** The airtime that rnode_to_air computes, and csma_add_airtime records, for a payload. */
  function RecordedMs(m: Modulation, p: Packet): int
    requires m.Valid()
  {
    if |p| <= DATA_MTU then AirTimeMs(m, |p|)
    else AirTimeMs(m, |p| - DATA_MTU) + AirTimeMs(m, DATA_MTU)
  }

  /** The airtime, by the same formula, of frames as they go on air. */
  function FramesMs(m: Modulation, fs: seq<seq<byte>>): int
    requires m.Valid()
  {
    if fs == [] then 0 else AirTimeMs(m, |fs[0]|) + FramesMs(m, fs[1..])
  }

  // ---- the header byte that is left out of account ----

  function CeilDiv(n: int, d: int): int
    requires d > 0
  {
    (n + d - 1) / d
  }

  lemma {:induction false} QuotientAtMost(x: real, d: real, q: real)
    requires d > 0.0
    ensures x <= q * d ==> x / d <= q
    ensures x > q * d ==> x / d > q
  {
    assert x / d * d == x;
    if x / d <= q { assert x / d * d <= q * d; } else { assert x / d * d > q * d; }
  }

  lemma {:induction false} CeilOfQuotient(n: int, d: int)
    requires d > 0
    ensures Ceil(n as real / d as real) == CeilDiv(n, d)
  {
    var q := CeilDiv(n, d);
    assert q * d - d < n <= q * d;
    QuotientAtMost(n as real, d as real, q as real);
    QuotientAtMost(n as real, d as real, q as real - 1.0);
    assert q as real * d as real == (q * d) as real;
    assert (q as real - 1.0) * d as real == q as real * d as real - d as real;
    CeilIs(n as real / d as real, q);
  }

  lemma {:induction false} DivOf(x: int, q: int, d: int, r: int)
    requires 0 <= r < d && x == d * q + r
    ensures x / d == q && x % d == r
  {
    var p, e := x / d, x % d;
    assert d * p + e == d * q + r;
    assert d * (p - q) == r - e;
    if p > q { MulMonotone(1, p - q, d); }
    if p < q { MulMonotone(1, q - p, d); }
  }

  lemma {:induction false} CeilDivPlus(n: int, d: int)
    requires d > 0
    ensures CeilDiv(n + d, d) == CeilDiv(n, d) + 1
  {
    var x := n + d - 1;
    assert x + d == d * (x / d + 1) + x % d;
    DivOf(x + d, x / d + 1, d, x % d);
  }

  lemma {:induction false} QuarterOfBits(len: nat, sf: nat)
    ensures (8.0 * len as real - 4.0 * sf as real + 8.0 + 16.0 + 20.0) / 4.0 == (2 * len + 11 - sf) as real
  {
  }

  /** The symbol count in whole numbers. */
  lemma {:induction false} SymbolsInGroups(m: Modulation, len: nat)
    requires m.Valid()
    ensures Symbols(m, len) == (CeilDiv(2 * len + 11, m.sf) - 1) * m.cr + 8
  {
    hide Ceil, CeilDiv;
    QuarterOfBits(len, m.sf);
    CeilOfQuotient(2 * len + 11 - m.sf, m.sf);
    CeilDivPlus(2 * len + 11 - m.sf, m.sf);
  }

  lemma {:induction false} CeilDivOf(n: int, q: int, d: int, r: int)
    requires 0 < r <= d && n == d * q + r
    ensures CeilDiv(n, d) == q + 1
  {
    assert n + d - 1 == d * (q + 1) + (r - 1);
    DivOf(n + d - 1, q + 1, d, r - 1);
  }

  lemma {:induction false} NextRemainder(n: int, d: int)
    requires d > 0
    ensures (n + 1) % d == if n % d == d - 1 then 0 else n % d + 1
  {
    var q, r := n / d, n % d;
    if r == d - 1 {
      assert n + 1 == d * (q + 1) + 0;
      DivOf(n + 1, q + 1, d, 0);
    } else {
      DivOf(n + 1, q, d, r + 1);
    }
  }

  lemma {:induction false} NextCeilDiv(n: int, d: int, q: int, r: int)
    requires d >= 3 && n == d * q + r && 0 <= r < d
    ensures CeilDiv(n + 2, d) == CeilDiv(n, d) + if 0 < r < d - 1 then 0 else 1
  {
    hide CeilDiv;
    if r == 0 {
      assert n == d * (q - 1) + d;
      CeilDivOf(n, q - 1, d, d);
      CeilDivOf(n + 2, q, d, 2);
    } else if r == d - 1 {
      assert n + 2 == d * (q + 1) + 1;
      CeilDivOf(n, q, d, r);
      CeilDivOf(n + 2, q + 1, d, 1);
    } else {
      CeilDivOf(n, q, d, r);
      CeilDivOf(n + 2, q, d, r + 2);
    }
  }

  /** Two more nibbles need another group exactly when they cross a multiple of the group's size. */
  lemma {:induction false} NextGroup(n: int, d: int)
    requires d >= 3
    ensures CeilDiv(n + 2, d) == CeilDiv(n, d) + if n % d != 0 && (n + 1) % d != 0 then 0 else 1
  {
    hide CeilDiv;
    NextRemainder(n, d);
    NextCeilDiv(n, d, n / d, n % d);
  }

  /** The header byte fits into the last code word group of a payload of len bytes. */
  predicate HeaderIsFree(sf: nat, len: nat)
    requires sf > 0
  {
    (2 * len + 11) % sf != 0 && (2 * len + 12) % sf != 0
  }

  /** One more byte costs one code word group or nothing, and nothing exactly when it fits. */
  lemma {:induction false} OneMoreByte(m: Modulation, len: nat)
    requires m.Valid()
    ensures Symbols(m, len + 1) == Symbols(m, len) + if HeaderIsFree(m.sf, len) then 0 else m.cr
  {
    hide Symbols, CeilDiv;
    SymbolsInGroups(m, len);
    SymbolsInGroups(m, len + 1);
    NextGroup(2 * len + 11, m.sf);
    var a := CeilDiv(2 * len + 11, m.sf);
    assert 2 * (len + 1) + 11 == 2 * len + 11 + 2;
    assert (a + 1 - 1) * m.cr == (a - 1) * m.cr + m.cr;
  }

  /**
   * rnode_to_air leaves the header byte of each frame out of account: what it records never exceeds the
   * on-air time of the frames. A frame is short by one code word group or by nothing, and by nothing
   * exactly when its header byte fits into the payload's last group; so when that holds for each frame,
   * what is recorded is the on-air time.
   */
  lemma {:induction false} RecordedAtMostOnAir(m: Modulation, p: Packet, tag: byte)
    requires m.Valid()
    ensures RecordedMs(m, p) <= FramesMs(m, Fragments(p, tag))
    ensures forall f | f in Fragments(p, tag) ::
              Symbols(m, |f|) == Symbols(m, |f| - 1) + if HeaderIsFree(m.sf, |f| - 1) then 0 else m.cr
    ensures (forall f | f in Fragments(p, tag) :: HeaderIsFree(m.sf, |f| - 1)) ==>
              RecordedMs(m, p) == FramesMs(m, Fragments(p, tag))
  {
    hide Symbols, HeaderIsFree;
    var fs := Fragments(p, tag);
    if |p| <= DATA_MTU {
      DataMsMonotone(m, |p|, |p| + 1);
      OneMoreByte(m, |p|);
      assert fs[1..] == [] && fs[0] in fs;
    } else {
      var rest := |p| - DATA_MTU;
      DataMsMonotone(m, DATA_MTU, DATA_MTU + 1);
      DataMsMonotone(m, rest, rest + 1);
      OneMoreByte(m, DATA_MTU);
      OneMoreByte(m, rest);
      assert fs[1..] == [fs[1]] && fs[1..][1..] == [] && fs[0] in fs && fs[1] in fs;
      assert |fs[0]| == DATA_MTU + 1 && |fs[1]| == rest + 1;
      assert FramesMs(m, [fs[1]]) == AirTimeMs(m, |fs[1]|);
    }
  }

  /** A payload of one byte at SF 7, 125 kHz and 4/5 takes 18 ms behind the preamble; 13 are recorded. */
  lemma {:induction false} OneByteIsShort(x: byte, tag: byte)
    ensures var m := Modulation(7, 125_000, 5, 8);
      && FramesMs(m, Fragments([x], tag)) == PreambleMs(m) + 18
      && RecordedMs(m, [x]) == PreambleMs(m) + 13
  {
    var m := Modulation(7, 125_000, 5, 8);
    SymbolsInGroups(m, 1);
    SymbolsInGroups(m, 2);
    assert Pow2(7) == 128;
    assert SymbolMs(7, 125_000) == 1.024;
    var fs := Fragments([x], tag);
    assert fs[1..] == [] && |fs[0]| == 2;
    assert FramesMs(m, fs) == AirTimeMs(m, 2) + 0;
  }

  // ---- how long a reception inhibits sending ----

  /** The timeout rnode_start derives for a medium busy with data. */
  function InhibitMs(m: Modulation): nat
    requires m.Valid()
  {
    DataMs(m, 255) * 3 / 2
  }

  lemma {:induction false} SpanPositive(m: Modulation)
    requires m.Valid()
    ensures (m.preamble as real + 4.25) * SymbolMs(m.sf, m.bw) >= 0.0
  {
  }

  /** The timeout for a medium busy with a preamble. */
  function PreambleInhibitMs(m: Modulation): nat
    requires m.Valid()
  {
    assert PreambleMs(m) >= 0 by { SpanPositive(m); }
    PreambleMs(m) * 3 / 2
  }

  /** What rnode_start passes to queue_set_busy_timeout when it succeeds. */
  predicate Tuned(m: Modulation, r: System.Restarting)
    requires m.Valid()
  {
    r.ok ==> r.header == PreambleInhibitMs(m) && r.data == InhibitMs(m)
  }

  predicate TunedEvent(m: Modulation, e: System.Event)
    requires m.Valid()
  {
    (e.Restart? ==> Tuned(m, e.restart)) && (e.Tick? ==> Tuned(m, e.poll.restart))
  }

  /** The radio has been started by the host, and always under modulation m. */
  predicate StartedAs(m: Modulation, es: seq<System.Event>)
    requires m.Valid()
  {
    && (forall k :: 0 <= k < |es| ==> TunedEvent(m, es[k]))
    && exists k :: 0 <= k < |es| && es[k].Restart? && es[k].restart.ok
  }

  predicate TimeoutsAre(c: Timers, m: Modulation)
    requires m.Valid()
  {
    c.headerTimeout == PreambleInhibitMs(m) && c.dataTimeout == InhibitMs(m)
  }

  predicate SameTimeouts(c: Timers, d: Timers) {
    c.headerTimeout == d.headerTimeout && c.dataTimeout == d.dataTimeout
  }

  lemma {:induction false} TimeoutTick(cfg: System.Config, s: System.State, i: System.Poll)
    requires Airtime.Shaped(s.airtime) && System.Sendable(s)
    ensures var c := System.TickStep(cfg, s, i).timers; var r := i.restart;
      SameTimeouts(c, s.timers) || SameTimeouts(c, SetTimeouts(s.timers, r.ok, r.header, r.data))
  {
    hide Airtime.Add, Airtime.ContentionWindow, Airtime.Locked;
  }

  lemma {:induction false} TimeoutStep(cfg: System.Config, s: System.State, e: System.Event, m: Modulation)
    requires Airtime.Shaped(s.airtime) && m.Valid() && TunedEvent(m, e)
    ensures var c := System.Step(cfg, s, e).timers;
      && (SameTimeouts(c, s.timers) || TimeoutsAre(c, m))
      && (e.Restart? && e.restart.ok ==> TimeoutsAre(c, m))
  {
    hide PreambleInhibitMs, InhibitMs, System.TickStep, Airtime.Update, System.PushAll;
    match e
    case Tick(i) => if System.Enabled(s, e) { TimeoutTick(cfg, s, i); }
    case _ =>
  }

  lemma {:induction false} TimeoutsAreTuned(cfg: System.Config, es: seq<System.Event>, m: Modulation)
    requires m.Valid() && StartedAs(m, es)
    ensures TimeoutsAre(System.Run(cfg, es).timers, m)
    decreases |es|
  {
    hide PreambleInhibitMs, InhibitMs, System.Step, TunedEvent;
    var n := |es| - 1;
    var before := es[..n];
    TimeoutStep(cfg, System.Run(cfg, before), es[n], m);
    if !(es[n].Restart? && es[n].restart.ok) {
      var k :| 0 <= k < |es| && es[k].Restart? && es[k].restart.ok;
      assert before[k] == es[k];
      TimeoutsAreTuned(cfg, before, m);
    }
  }

  /**
   * The timeouts are long enough: when the radio runs under modulation m, then behind a valid header at t
   * no worker iteration during the data part of a frame of up to 255 bytes, and behind a preamble event
   * none during a preamble, polls or attempts to send, in every run and whatever else happens, unless a
   * radio event ends the reception.
   */
  lemma {:induction false} InhibitCoversFrame(cfg: System.Config, es: seq<System.Event>, m: Modulation, cause: Cause,
                                              t: nat, len: nat, more: seq<System.Event>)
    requires m.Valid() && StartedAs(m, es) && Reception.Busy(cause) && len <= 255
    requires System.Run(cfg, es).clock <= t
    requires Reception.Undisturbed(more, t + if cause == HeaderValid then DataMs(m, len) else PreambleMs(m))
    ensures var s := System.Run(cfg, es); var u := System.Run(cfg, es + ([System.Medium(cause, t)] + more));
      && !u.timers.txEnable && u.modem.air == s.modem.air && u.modem.sent == s.modem.sent
      && s.trace <= u.trace && (forall k :: |s.trace| < k < |u.trace| ==> u.trace[k].Skipped?)
  {
    TimeoutsAreTuned(cfg, es, m);
    DataMsMonotone(m, len, 255);
    Reception.InhibitionWindow(cfg, es, cause, t, more, System.CalmPoll(t));
  }

  // ---- CSMA timing ----

  function Bitrate(sf: nat, bw: nat): int
    requires bw > 0
  {
    var symbols := Pow2(sf) as real / (bw as real / 1000.0);
    assert symbols > 0.0;
    (sf as real * 0.8 / symbols * 1000.0).Floor
  }

  function SlotMs(sf: nat, bw: nat): int
    requires bw > 0
  {
    var least := if Bitrate(sf, bw) > 30_000 then 24 - 18 else 24;
    var slot := (SymbolMs(sf, bw) * 12.0).Floor;
    var capped := if slot > 100 then 100 else slot;
    if capped < least then least else capped
  }

  /** csma_update_radio_params: the slot, the DIFS and whether the bit rate calls for flush mode. */
  function Timing(sf: nat, bw: nat, limits: Airtime.Limits): System.Config
    requires bw > 0
  {
    var slot := SlotMs(sf, bw);
    var rate := Bitrate(sf, bw);
    var limit := rate > 60_000;
    var guard := !limit && rate > 14_000;
    System.Config(2 * slot, slot, !limit && !guard, limits)
  }

  /** Whatever the modulation, a slot takes 6 to 100 ms, and only rates up to 14 kbit/s flush. */
  lemma {:induction false} TimingBounds(sf: nat, bw: nat, limits: Airtime.Limits)
    requires bw > 0
    ensures var cfg := Timing(sf, bw, limits);
      6 <= cfg.slot <= 100 && cfg.difs == 2 * cfg.slot && (cfg.flush <==> Bitrate(sf, bw) <= 14_000)
  {
  }

  /** So the queue worker's deadline is at most 6.1 s and three tick gaps away, in every reachable state. */
  lemma {:induction false} DeadlineInSeconds(sf: nat, bw: nat, limits: Airtime.Limits, es: seq<System.Event>, d: nat)
    requires bw > 0 && d > 0
    ensures var cfg := Timing(sf, bw, limits); var s := System.Run(cfg, es);
      Progress.Deadline(cfg, s.timers, s.clock, d) <= s.clock + 6100 + 3 * d
  {
    TimingBounds(sf, bw, limits);
    Progress.DeadlineBounded(Timing(sf, bw, limits), es, d);
  }

  // ---- the times in whole numbers ----

  lemma {:induction false} ProductsOrdered(x: real, y: real, d: real)
    requires d > 0.0
    ensures x * d < y * d <==> x < y
  {
    if x < y { assert (y - x) * d > 0.0; } else { assert (x - y) * d >= 0.0; }
  }

  lemma {:induction false} FloorOfQuotient(x: real, n: int, d: int)
    requires d > 0 && x * d as real == n as real
    ensures x.Floor == n / d
  {
    var q := n / d;
    assert d * q <= n < d * q + d;
    assert (d * q) as real == q as real * d as real;
    assert (d * q + d) as real == (q as real + 1.0) * d as real;
    var above := q as real + 1.0;
    ProductsOrdered(x, q as real, d as real);
    ProductsOrdered(x, above, d as real);
    assert n as real < (d * q + d) as real == above * d as real;
    assert q as real <= x < above;
  }

  lemma {:induction false} SymbolTimes(sf: nat, bw: nat, n: int)
    requires bw > 0
    ensures n as real * SymbolMs(sf, bw) * bw as real == (n * Pow2(sf) * 1000) as real
  {
    var p := Pow2(sf) as real;
    assert p / bw as real * bw as real == p;
    assert SymbolMs(sf, bw) * bw as real == p * 1000.0;
    assert n as real * SymbolMs(sf, bw) * bw as real == n as real * (p * 1000.0);
    assert (n * Pow2(sf)) as real == n as real * p;
  }

  lemma {:induction false} DataInWholeMs(m: Modulation, len: nat)
    requires m.Valid()
    ensures DataMs(m, len) == Symbols(m, len) * Pow2(m.sf) * 1000 / m.bw
  {
    hide Symbols, SymbolMs, Pow2;
    var n := Symbols(m, len);
    SymbolTimes(m.sf, m.bw, n);
    FloorOfQuotient(n as real * SymbolMs(m.sf, m.bw), n * Pow2(m.sf) * 1000, m.bw);
  }

  lemma {:induction false} QuarterOf(x: real, n: real, t: real, bw: real, c: real)
    requires n == 4.0 * c && x == c * t
    ensures 4.0 * (x * bw) == n * t * bw
  {
    assert n * t == 4.0 * (c * t);
  }

  lemma {:induction false} PreambleInWholeMs(m: Modulation)
    requires m.Valid()
    ensures PreambleMs(m) == (4 * m.preamble + 17) * Pow2(m.sf) * 250 / m.bw
  {
    hide SymbolMs, Pow2;
    var n := 4 * m.preamble + 17;
    var x := (m.preamble as real + 4.25) * SymbolMs(m.sf, m.bw);
    SymbolTimes(m.sf, m.bw, n);
    assert n as real == 4.0 * (m.preamble as real + 4.25);
    QuarterOf(x, n as real, SymbolMs(m.sf, m.bw), m.bw as real, m.preamble as real + 4.25);
    assert (n * Pow2(m.sf) * 1000) as real == 4.0 * (n * Pow2(m.sf) * 250) as real;
    FloorOfQuotient(x, n * Pow2(m.sf) * 250, m.bw);
  }

  /** The durations rnode_start and rnode_to_air work with, in integers: 2^sf / bw seconds a symbol, four
      and a quarter symbols behind the preamble, and the timeouts half as long again. */
  lemma {:induction false} TimesInWholeMs(m: Modulation, len: nat)
    requires m.Valid()
    ensures DataMs(m, len) == Symbols(m, len) * Pow2(m.sf) * 1000 / m.bw
    ensures PreambleMs(m) == (4 * m.preamble + 17) * Pow2(m.sf) * 250 / m.bw
    ensures InhibitMs(m) == DataMs(m, 255) + DataMs(m, 255) / 2
    ensures PreambleInhibitMs(m) == PreambleMs(m) + PreambleMs(m) / 2
  {
    DataInWholeMs(m, len);
    PreambleInWholeMs(m);
  }

  lemma {:induction false} Regroup(y: real, s: real, c: real, p: real)
    requires s * c == p
    ensures y * p == y * s * c
  {
  }

  lemma {:induction false} BitrateProduct(sf: real, p: real, b: real)
    requires p > 0.0 && b > 0.0
    ensures p / (b / 1000.0) > 0.0
    ensures sf * 0.8 / (p / (b / 1000.0)) * 1000.0 * (5.0 * p) == 4.0 * sf * b
  {
    var s := p / (b / 1000.0);
    assert s * (b / 1000.0) == p;
    var y := sf * 0.8 / s;
    assert y * s == sf * 0.8;
    Regroup(y, s, b / 1000.0, p);
  }

  lemma {:induction false} BitrateInWholeNumbers(sf: nat, bw: nat)
    requires bw > 0
    ensures Bitrate(sf, bw) == 4 * sf * bw / (5 * Pow2(sf))
  {
    var p, b := Pow2(sf) as real, bw as real;
    var x := sf as real * 0.8 / (p / (b / 1000.0)) * 1000.0;
    hide Pow2;
    BitrateProduct(sf as real, p, b);
    assert (5 * Pow2(sf)) as real == 5.0 * p;
    assert (4 * sf * bw) as real == 4.0 * sf as real * b;
    FloorOfQuotient(x, 4 * sf * bw, 5 * Pow2(sf));
  }

  /** The slot in integers: twelve symbols, at most 100 ms, and at least 24 ms or, at rates above
      30 kbit/s, 6 ms. */
  lemma {:induction false} SlotInWholeMs(sf: nat, bw: nat)
    requires bw > 0
    ensures Bitrate(sf, bw) == 4 * sf * bw / (5 * Pow2(sf))
    ensures var least := if Bitrate(sf, bw) > 30_000 then 6 else 24; var twelve := 12 * Pow2(sf) * 1000 / bw;
      SlotMs(sf, bw) == if twelve < least then least else if twelve > 100 then 100 else twelve
  {
    hide Pow2;
    BitrateInWholeNumbers(sf, bw);
    SymbolTimes(sf, bw, 12);
    FloorOfQuotient(12.0 * SymbolMs(sf, bw), 12 * Pow2(sf) * 1000, bw);
  }
}
