/**
 * The noise-floor ring of csma_update_current_rssi in src/csma.c: a 128-entry sample buffer whose mean
 * is the floor, interference detection against it, and recalibration when interference persists.
 */
module NoiseFloor {
  import opened Bytes

  const SAMPLES: nat := 128
  const THRESHOLD_DB: int := 11
  const RECAL_MS: nat := 2500
  const RECAL_LIMIT_DB: int := -83

  function Sum(s: seq<int>): int {
    if s == [] then 0 else Sum(s[..|s| - 1]) + s[|s| - 1]
  }

  datatype State = State(buffer: seq<int>, index: nat, sampled: bool, floor: int,
                         interference: bool, persists: bool, started: nat)
  {
    predicate Valid() {
      |buffer| == SAMPLES && index < SAMPLES
    }

    /** The truncated mean that the code computes. */
    function Mean(): int {
      TruncDiv(Sum(buffer), SAMPLES)
    }
  }

  function Initial(): State {
    State(seq(SAMPLES, i => 0), 0, false, -292, false, false, 0)
  }

  /** One RSSI reading while the radio receives: the value, whether a carrier is detected, the time. */
  datatype Reading = Reading(rssi: int, dcd: bool, now: nat)

  /** Interference that may be a floor measured too low. */
  predicate Suspicious(s: State, r: Reading) {
    s.sampled && !r.dcd && s.floor + THRESHOLD_DB < r.rssi < RECAL_LIMIT_DB
  }

  predicate Recalibrates(s: State, r: Reading) {
    Suspicious(s, r) && s.persists && r.now - s.started >= RECAL_MS
  }

  function Detect(s: State, r: Reading): State {
    var suspicious := Suspicious(s, r);
    var recal := Recalibrates(s, r);
    s.(interference := s.sampled && !r.dcd && r.rssi > s.floor + THRESHOLD_DB,
       persists := suspicious && !recal,
       started := if suspicious && !s.persists then r.now else s.started,
       sampled := s.sampled && !recal)
  }

  function Learn(s: State, r: Reading): State
    requires s.Valid()
  {
    if r.dcd || (s.sampled && r.rssi >= s.floor + THRESHOLD_DB) then s
    else
      var next := (s.index + 1) % SAMPLES;
      var t := s.(buffer := s.buffer[s.index := r.rssi], index := next, sampled := s.sampled || next == 0);
      if t.sampled then t.(floor := t.Mean()) else t
  }

  function Sample(s: State, r: Reading): (t: State)
    requires s.Valid()
    ensures t.Valid()
  {
    Learn(Detect(s, r), r)
  }

  function Run(rs: seq<Reading>): (s: State)
    ensures s.Valid()
  {
    if rs == [] then Initial() else Sample(Run(rs[..|rs| - 1]), rs[|rs| - 1])
  }

  // ---- the code, in place ----

  class Monitor {
    const buffer: array<int>
    var index: nat
    var sampled: bool
    var floor: int
    var interference: bool
    var persists: bool
    var started: nat

    ghost predicate Valid()
      reads this, buffer
    {
      Abs().Valid()
    }

    ghost function Abs(): State
      reads this, buffer
    {
      State(buffer[..], index, sampled, floor, interference, persists, started)
    }

    constructor ()
      ensures Valid() && Abs() == Initial() && fresh(buffer)
    {
      buffer := new int[SAMPLES](i => 0);
      index, sampled, floor := 0, false, -292;
      interference, persists, started := false, false, 0;
    }

    method UpdateCurrentRssi(r: Reading)
      requires Valid()
      modifies this, buffer
      ensures Valid() && Abs() == Sample(old(Abs()), r)
    {
      DetectInterference(r);
      if !r.dcd {
        if !sampled || r.rssi < floor + THRESHOLD_DB {
          buffer[index] := r.rssi;
          index := (index + 1) % SAMPLES;
          if index == 0 {
            sampled := true;
          }
          if sampled {
            var sum := SumBuffer();
            floor := TruncDiv(sum, SAMPLES);
          }
        }
      }
    }

    method DetectInterference(r: Reading)
      modifies this`interference, this`persists, this`started, this`sampled
      ensures Abs() == Detect(old(Abs()), r)
    {
      if sampled {
        interference := !r.dcd && r.rssi > floor + THRESHOLD_DB;
      } else {
        interference := false;
      }
      if interference && r.rssi < RECAL_LIMIT_DB {
        if !persists {
          persists := true;
          started := r.now;
        } else {
          if r.now - started >= RECAL_MS {
            sampled := false;
            persists := false;
          }
        }
      } else {
        persists := false;
      }
    }

    method SumBuffer() returns (sum: int)
      ensures sum == Sum(buffer[..])
    {
      sum := 0;
      var i := 0;
      while i < buffer.Length
        invariant 0 <= i <= buffer.Length
        invariant sum == Sum(buffer[..i])
      {
        assert buffer[..i + 1][..i] == buffer[..i];
        sum := sum + buffer[i];
        i := i + 1;
      }
      assert buffer[..buffer.Length] == buffer[..];
    }
  }

  // ---- what the floor is ----

  lemma {:induction false} SumBetween(s: seq<int>, lo: int, hi: int)
    requires forall x | x in s :: lo <= x <= hi
    ensures lo * |s| <= Sum(s) <= hi * |s|
  {
    if s != [] {
      var n := |s| - 1;
      assert s[n] in s;
      forall x | x in s[..n]
        ensures lo <= x <= hi
      {
        assert x in s;
      }
      SumBetween(s[..n], lo, hi);
    }
  }

  lemma {:induction false} MeanBetween(s: State, lo: int, hi: int)
    requires s.Valid()
    requires forall x | x in s.buffer :: lo <= x <= hi
    ensures lo <= s.Mean() <= hi
  {
    SumBetween(s.buffer, lo, hi);
  }

  lemma {:induction false} FloorIsMean(rs: seq<Reading>)
    ensures Run(rs).sampled ==> Run(rs).floor == Run(rs).Mean()
  {
    if rs != [] { FloorIsMean(rs[..|rs| - 1]); }
  }

  /** In every run, a calibrated floor is the truncated mean of the buffer and lies within it. */
  lemma {:induction false} CalibratedFloor(rs: seq<Reading>, lo: int, hi: int)
    requires Run(rs).sampled
    requires forall x | x in Run(rs).buffer :: lo <= x <= hi
    ensures Run(rs).floor == Run(rs).Mean() && lo <= Run(rs).floor <= hi
  {
    FloorIsMean(rs);
    MeanBetween(Run(rs), lo, hi);
  }

  // ---- recalibration ----

  function After(s: State, rs: seq<Reading>): (t: State)
    requires s.Valid()
    ensures t.Valid()
  {
    if rs == [] then s else Sample(After(s, rs[..|rs| - 1]), rs[|rs| - 1])
  }

  /** Every reading of the series is suspicious in the state it meets, and time does not go back. */
  ghost predicate Series(s: State, rs: seq<Reading>)
    requires s.Valid()
  {
    forall k :: 0 <= k < |rs| ==> Suspicious(After(s, rs[..k]), rs[k]) && rs[0].now <= rs[k].now
  }

  lemma {:induction false} SeriesKeepsStart(s: State, rs: seq<Reading>, k: nat)
    requires s.Valid() && !s.persists && Series(s, rs) && 1 <= k < |rs|
    requires forall j :: 0 <= j < k ==> rs[j].now < rs[0].now + RECAL_MS
    ensures After(s, rs[..k]).persists && After(s, rs[..k]).started == rs[0].now
    ensures !Recalibrates(After(s, rs[..k - 1]), rs[k - 1])
  {
    assert rs[..k][..k - 1] == rs[..k - 1];
    assert Suspicious(After(s, rs[..k - 1]), rs[k - 1]);
    if k == 1 {
      assert rs[..0] == [];
    } else {
      SeriesKeepsStart(s, rs, k - 1);
    }
  }

  /** A recalibration stores its reading too, so it is over at once when that fills the ring's last entry. */
  lemma {:induction false} RecalibrationStep(s: State, r: Reading)
    requires s.Valid() && Recalibrates(s, r)
    ensures var t := Sample(s, r);
      t.sampled == (s.index == SAMPLES - 1) && !t.persists && t.buffer[s.index] == r.rssi
  {
    assert !Detect(s, r).sampled;
  }

  /**
   * An unbroken series of suspicious readings triggers a recalibration at its first reading that comes
   * at least 2500 ms after the first one, and not before.
   */
  lemma {:induction false} SeriesRecalibrates(s: State, rs: seq<Reading>, k: nat)
    requires s.Valid() && !s.persists && Series(s, rs) && k < |rs|
    requires forall j :: 0 <= j < k ==> rs[j].now < rs[0].now + RECAL_MS
    ensures Recalibrates(After(s, rs[..k]), rs[k]) <==> rs[k].now >= rs[0].now + RECAL_MS
  {
    assert Suspicious(After(s, rs[..k]), rs[k]);
    if k > 0 {
      SeriesKeepsStart(s, rs, k);
    } else {
      assert rs[..0] == [];
    }
  }

  /** Calibration takes exactly the carrier-free readings that fill the ring to its end. */
  lemma {:induction false} CalibrationEnds(s: State, rs: seq<Reading>)
    requires s.Valid() && !s.sampled && |rs| <= SAMPLES - s.index
    requires forall r | r in rs :: !r.dcd
    ensures After(s, rs).sampled <==> |rs| == SAMPLES - s.index
    ensures !After(s, rs).sampled ==> After(s, rs).index == s.index + |rs|
  {
    if rs != [] {
      var n := |rs| - 1;
      assert rs[n] in rs;
      CalibrationEnds(s, rs[..n]);
    }
  }

  // ---- the ring against the plain list of readings ----

  /** The reference: `learned` is every reading learned so far, in order, and `laps` how often 128 of them
      had been learned when calibration last began. */
  datatype History = History(learned: seq<int>, laps: nat, suspect: bool, since: nat) {
    predicate Calibrated() {
      |learned| / 128 > laps
    }

    /** The mean of the latest 128, rounded toward zero. */
    function Floor(): int
      requires Calibrated()
    {
      var sum := Sum(learned[|learned| - 128..]);
      if sum >= 0 then sum / 128 else -(-sum / 128)
    }

    /** More than 11 dB above the floor without a carrier. */
    predicate Interferes(r: Reading) {
      Calibrated() && !r.dcd && r.rssi > Floor() + 11
    }
  }

  /** The watch over the floor. */
  function Heard(h: History, r: Reading): History {
    var low := h.Interferes(r) && r.rssi < -83;
    var again := low && h.suspect && r.now - h.since >= 2500;
    History(h.learned, if again then |h.learned| / 128 else h.laps, low && !again,
            if low && !h.suspect then r.now else h.since)
  }

  function Learned(h: History, r: Reading): History {
    if r.dcd || (h.Calibrated() && r.rssi >= h.Floor() + 11) then h else h.(learned := h.learned + [r.rssi])
  }

  /** One reading. Interference below -83 dBm that has lasted 2500 ms begins a calibration; a reading without
      a carrier is learned during calibration, or when it is less than 11 dB above the floor. */
  function Next(h: History, r: Reading): History {
    Learned(Heard(h, r), r)
  }

  function Past(rs: seq<Reading>): History {
    if rs == [] then History([], 0, false, 0) else Next(Past(rs[..|rs| - 1]), rs[|rs| - 1])
  }

  /** The ring holds the latest 128 readings learned, each in the place of its number. */
  ghost predicate Holds(buffer: seq<int>, learned: seq<int>) {
    && |buffer| == 128
    && forall k :: 0 <= k < |learned| && k >= |learned| - 128 ==> buffer[k % 128] == learned[k]
  }

  ghost predicate Refines(s: State, h: History) {
    && s.Valid() && Holds(s.buffer, h.learned)
    && s.index == |h.learned| % 128
    && s.sampled == h.Calibrated()
    && (s.sampled ==> s.floor == h.Floor())
    && h.laps <= |h.learned| / 128
    && s.persists == h.suspect && s.started == h.since
  }

  lemma {:induction false} SumAppend(a: seq<int>, b: seq<int>)
    ensures Sum(a + b) == Sum(a) + Sum(b)
    decreases |b|
  {
    if b == [] {
      assert a + b == a;
    } else {
      assert (a + b)[..|a + b| - 1] == a + b[..|b| - 1];
      SumAppend(a, b[..|b| - 1]);
    }
  }

  lemma {:induction false} InLap(whole: int, j: nat)
    requires whole % 128 == 0 && j < 128
    ensures (whole + j) % 128 == j
  {
  }

  /** The ring is the latest 128 readings, turned. */
  lemma {:induction false} SumOfRing(buffer: seq<int>, learned: seq<int>)
    requires Holds(buffer, learned) && |learned| >= 128
    ensures Sum(buffer) == Sum(learned[|learned| - 128..])
  {
    var n := |learned|;
    var i := n % 128;
    var whole := n - i;
    var newer, older := learned[whole..], learned[n - 128..whole];
    forall j | 0 <= j < i
      ensures buffer[j] == newer[j]
    {
      InLap(whole, j);
    }
    forall j | i <= j < 128
      ensures buffer[j] == older[j - i]
    {
      InLap(whole - 128, j);
    }
    assert buffer == newer + older;
    assert learned[n - 128..] == older + newer;
    SumAppend(newer, older);
    SumAppend(older, newer);
  }

  lemma {:induction false} OtherPlace(k: nat, n: nat)
    requires n - 127 <= k < n
    ensures k % 128 != n % 128
  {
  }

  lemma {:induction false} HoldsOneMore(buffer: seq<int>, learned: seq<int>, x: int)
    requires Holds(buffer, learned)
    ensures Holds(buffer[|learned| % 128 := x], learned + [x])
  {
    var n := |learned|;
    forall k | 0 <= k < n + 1 && k >= n + 1 - 128
      ensures buffer[n % 128 := x][k % 128] == (learned + [x])[k]
    {
      if k < n { OtherPlace(k, n); }
    }
  }

  lemma {:induction false} DetectRefines(s: State, h: History, r: Reading)
    requires Refines(s, h)
    ensures Refines(Detect(s, r), Heard(h, r))
    ensures Detect(s, r).interference <==> h.Interferes(r)
  {
    hide Sum;
  }

  lemma {:induction false} NextPlace(n: nat)
    ensures (n % 128 + 1) % 128 == (n + 1) % 128
    ensures (n + 1) / 128 == n / 128 + if (n + 1) % 128 == 0 then 1 else 0
  {
  }

  lemma {:induction false} LearnRefines(s: State, h: History, r: Reading)
    requires Refines(s, h)
    ensures Refines(Learn(s, r), Learned(h, r))
    ensures Learn(s, r).interference == s.interference
  {
    hide Sum, Holds;
    var more := h.learned + [r.rssi];
    HoldsOneMore(s.buffer, h.learned, r.rssi);
    NextPlace(|h.learned|);
    var t := Learn(s, r);
    if !r.dcd && !(h.Calibrated() && r.rssi >= h.Floor() + 11) && t.sampled { SumOfRing(t.buffer, more); }
  }

  /**
   * In every run the ring, its index and its flags refine the plain list of readings learned: it is
   * calibrated exactly when its end has been reached since calibration last began, its floor is then the
   * mean of the latest 128, and the verdict on the latest reading is the reference's.
   */
  lemma {:induction false} RingRefinesList(rs: seq<Reading>)
    ensures Refines(Run(rs), Past(rs))
    ensures rs != [] ==>
      (Run(rs).interference <==> Past(rs[..|rs| - 1]).Interferes(rs[|rs| - 1]))
  {
    if rs != [] {
      var before, r := rs[..|rs| - 1], rs[|rs| - 1];
      hide Detect, Learn, Heard, Learned, Refines, Sum;
      RingRefinesList(before);
      DetectRefines(Run(before), Past(before), r);
      LearnRefines(Detect(Run(before), r), Heard(Past(before), r), r);
    }
  }
}
