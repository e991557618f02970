/**
 * Airtime accounting of src/csma.c: a ring of 480 bins of 7.5 s, the two sums derived from it, the
 * contention-window band they select, and the duty-cycle lock of src/rnode.c that reads them.
 */
module Airtime {
  import opened Bytes

  const LONGTERM_MS: nat := 3_600_000
  const BIN_MS: nat := 7500
  const BINS: nat := 480
  const WINDOWS_PER_BAND: nat := 15
  const BANDS: nat := 4

  /** current_airtime_bin at time t. */
  function Slot(t: nat): nat {
    (t % LONGTERM_MS) / BIN_MS
  }

  /** The same, not folded into the ring. */
  function BinOf(t: nat): nat {
    t / BIN_MS
  }

  lemma {:induction false} SlotIsBin(t: nat)
    ensures Slot(t) == BinOf(t) % BINS < BINS
    ensures BinOf(t) == t / 7500 && BINS == 480
  {
    var hour := t / LONGTERM_MS;
    var r := t % LONGTERM_MS;
    assert t == BIN_MS * (BINS * hour) + r;
    assert t / BIN_MS == BINS * hour + r / BIN_MS;
    assert r / BIN_MS < BINS;
  }

  function Sum(s: seq<nat>): nat {
    if s == [] then 0 else Sum(s[..|s| - 1]) + s[|s| - 1]
  }

  // ---- state ----

  /** One csma_add_airtime call. */
  datatype Burst = Burst(t: nat, ms: nat)

  datatype Band = Band(band: nat, min: nat, max: nat) {
    predicate Valid() {
      && 1 <= band <= BANDS
      && min == (band - 1) * WINDOWS_PER_BAND
      && (max == band * WINDOWS_PER_BAND - 1 || (band == 1 && max == WINDOWS_PER_BAND))
    }
  }

  /** `short` and `long` are channel.airtime and channel.longterm_airtime before the division by
      15000 ms and 3600000 ms. `log` and `overflowed` (some bin passed 65535 ms) are history. */
  datatype State = State(bins: seq<nat>, short: nat, long: nat, cw: Band, log: seq<Burst>, overflowed: bool)

  predicate Shaped(a: State) {
    |a.bins| == BINS && a.cw.Valid()
  }

  function Initial(): (r: State)
    ensures Shaped(r)
  {
    State(seq(BINS, i => 0), 0, 0, Band(1, 0, WINDOWS_PER_BAND), [], false)
  }

  // ---- operations ----

  function NextSlot(cb: nat): nat {
    if cb + 1 == BINS then 0 else cb + 1
  }

  function PrevSlot(cb: nat): nat {
    if cb == 0 then BINS - 1 else cb - 1
  }

  function Add(a: State, t: nat, ms: nat): (r: State)
    requires Shaped(a)
    ensures Shaped(r)
  {
    SlotIsBin(t);
    var cb := Slot(t);
    a.(bins := a.bins[cb := (a.bins[cb] + ms) % 0x1_0000][NextSlot(cb) := 0],
       log := a.log + [Burst(t, ms)],
       overflowed := a.overflowed || a.bins[cb] + ms >= 0x1_0000)
  }

  function Map(x: int, inMin: int, inMax: int, outMin: int, outMax: int): int
    requires inMin < inMax
  {
    TruncDiv((x - inMin) * (outMax - outMin), inMax - inMin) + outMin
  }

  /** update_csma_parameters. */
  function NextBand(cw: Band, short: nat): (r: Band)
    ensures cw.Valid() ==> r.Valid()
  {
    var pct := short * 100 / (2 * BIN_MS);
    var wanted := if pct <= 7 then 1 else Map(pct + 7, 7, 85, 2, BANDS);
    var band := if wanted > BANDS then BANDS else wanted;
    if band == cw.band then cw
    else Band(band, (band - 1) * WINDOWS_PER_BAND, band * WINDOWS_PER_BAND - 1)
  }

  function Update(a: State, t: nat): (r: State)
    requires Shaped(a)
    ensures Shaped(r)
  {
    SlotIsBin(t);
    var cb := Slot(t);
    var bins := a.bins[NextSlot(cb) := 0];
    var short := bins[cb] + bins[PrevSlot(cb)];
    a.(bins := bins, short := short, long := Sum(bins), cw := NextBand(a.cw, short))
  }

  /** csma_get_cw. */
  function ContentionWindow(cw: Band, random: nat, slot: nat): nat
    requires cw.Valid()
  {
    (random % (cw.max - cw.min + 1) + cw.min) * slot
  }

  // ---- the duty-cycle lock ----

  /** Short- and long-term limits in hundredths of a percent; 0 means none. */
  datatype Limits = Limits(short: nat, long: nat)

  /** rnode_check_airtime_lock, cross-multiplied. */
  predicate Locked(a: State, lim: Limits) {
    && !(lim.short == 0 && lim.long == 0)
    && ((lim.short != 0 && a.short * 10_000 >= lim.short * (2 * BIN_MS))
        || (lim.long != 0 && a.long * 10_000 >= lim.long * LONGTERM_MS))
  }

  // ---- the code, in place ----

  class Ring {
    const bins: array<nat>
    var short: nat
    var long: nat
    var cw: Band
    ghost var log: seq<Burst>
    ghost var overflowed: bool

    ghost predicate Valid()
      reads this, bins
    {
      Shaped(Abs())
    }

    ghost function Abs(): State
      reads this, bins
    {
      State(bins[..], short, long, cw, log, overflowed)
    }

    constructor ()
      ensures Valid() && Abs() == Initial() && fresh(bins)
    {
      bins := new nat[BINS](i => 0);
      short, long, cw := 0, 0, Band(1, 0, WINDOWS_PER_BAND);
      log, overflowed := [], false;
    }

    /** csma_add_airtime. */
    method AddAirtime(t: nat, ms: nat)
      requires Valid()
      modifies this, bins
      ensures Valid() && Abs() == Add(old(Abs()), t, ms)
    {
      SlotIsBin(t);
      var cb := Slot(t);
      var nb := cb + 1;
      if nb == BINS {
        nb := 0;
      }
      log, overflowed := log + [Burst(t, ms)], overflowed || bins[cb] + ms >= 0x1_0000;
      bins[cb] := (bins[cb] + ms) % 0x1_0000;
      bins[nb] := 0;
    }

    /** The summing loop of csma_update_airtime. */
    method SumBins() returns (sum: nat)
      ensures sum == Sum(bins[..])
    {
      sum := 0;
      var bin := 0;
      while bin < bins.Length
        invariant 0 <= bin <= bins.Length
        invariant sum == Sum(bins[..bin])
      {
        assert bins[..bin + 1][..bin] == bins[..bin];
        sum := sum + bins[bin];
        bin := bin + 1;
      }
      assert bins[..bins.Length] == bins[..];
    }

    /** csma_update_airtime. */
    method UpdateAirtime(t: nat)
      requires Valid()
      modifies this, bins
      ensures Valid() && Abs() == Update(old(Abs()), t)
    {
      hide Sum, NextBand;
      SlotIsBin(t);
      var cb: int := Slot(t);
      var pb := (cb + 0xFFFF) % 0x1_0000;
      if cb - 1 < 0 {
        pb := BINS - 1;
      }
      var nb := cb + 1;
      if nb == BINS {
        nb := 0;
      }
      bins[nb] := 0;
      short := bins[cb] + bins[pb];
      var sum := SumBins();
      long := sum;
      UpdateBand();
    }

    /** update_csma_parameters. */
    method UpdateBand()
      modifies this`cw
      ensures cw == NextBand(old(cw), short)
    {
      var pct := short * 100 / (2 * BIN_MS);
      var band := cw.band;
      if pct <= 7 {
        band := 1;
      } else {
        var at := pct + 7;
        band := Map(at, 7, 85, 2, BANDS);
      }
      if band > BANDS {
        band := BANDS;
      }
      if band != cw.band {
        cw := Band(band, (band - 1) * WINDOWS_PER_BAND, band * WINDOWS_PER_BAND - 1);
      }
    }
  }
}
