/**
 * The ring of src/csma.c against the event log it stands for: it never under-counts the sliding
 * window, it is exact when calls are at most one bin apart, and the lock built on it bounds the window.
 */
module AirtimeLaws {
  import opened Airtime

  // ---- the log, as a sliding window sees it ----

  /** Airtime recorded in absolute bins lo..hi. */
  function Window(log: seq<Burst>, lo: int, hi: int): nat {
    if log == [] then 0
    else
      var b := log[|log| - 1];
      Window(log[..|log| - 1], lo, hi) + if lo <= BinOf(b.t) <= hi then b.ms else 0
  }

  function BinSum(log: seq<Burst>, b: int): nat {
    Window(log, b, b)
  }

  predicate Until(log: seq<Burst>, hi: int) {
    forall i :: 0 <= i < |log| ==> BinOf(log[i].t) <= hi
  }

  lemma {:induction false} WindowSplit(log: seq<Burst>, lo: int, mid: int, hi: int)
    requires lo <= mid <= hi
    ensures Window(log, lo, hi) == Window(log, lo, mid) + Window(log, mid + 1, hi)
  {
    if log != [] { WindowSplit(log[..|log| - 1], lo, mid, hi); }
  }

  lemma {:induction false} WindowShrinks(log: seq<Burst>, lo: int, hi: int, lo': int, hi': int)
    requires lo <= lo' && Until(log, hi)
    ensures Window(log, lo', hi') <= Window(log, lo, hi)
  {
    if log != [] { WindowShrinks(log[..|log| - 1], lo, hi, lo', hi'); }
  }

  lemma {:induction false} WindowEmpty(log: seq<Burst>, lo: int, hi: int)
    requires forall i :: 0 <= i < |log| ==> !(lo <= BinOf(log[i].t) <= hi)
    ensures Window(log, lo, hi) == 0
  {
    if log != [] { WindowEmpty(log[..|log| - 1], lo, hi); }
  }

  lemma {:induction false} WindowSnoc(log: seq<Burst>, b: Burst, lo: int, hi: int)
    ensures Window(log + [b], lo, hi) == Window(log, lo, hi) + if lo <= BinOf(b.t) <= hi then b.ms else 0
  {
    assert (log + [b])[..|log|] == log;
  }

  // ---- sums over the ring ----

  lemma {:induction false} SumAppend(a: seq<nat>, b: seq<nat>)
    ensures Sum(a + b) == Sum(a) + Sum(b)
    decreases |b|
  {
    if b == [] {
      assert a + b == a;
    } else {
      assert (a + b)[..|a + b| - 1] == a + b[..|b| - 1];
      SumAppend(a, b[..|b| - 1]);
    }
  }

  lemma {:induction false} SumDominates(a: seq<nat>, b: seq<nat>)
    requires |a| == |b|
    requires forall i :: 0 <= i < |a| ==> a[i] >= b[i]
    ensures Sum(a) >= Sum(b)
  {
    if a != [] { SumDominates(a[..|a| - 1], b[..|b| - 1]); }
  }

  /** The bins lo, lo+1, ..., lo+n-1 of the log as a sequence. */
  function LogBins(log: seq<Burst>, lo: int, n: nat): seq<nat> {
    seq<nat>(n, i requires 0 <= i < n => BinSum(log, lo + i))
  }

  lemma {:induction false} LogBinsSum(log: seq<Burst>, lo: int, n: nat)
    ensures Sum(LogBins(log, lo, n)) == Window(log, lo, lo + n - 1)
  {
    if n == 0 {
      WindowEmpty(log, lo, lo - 1);
    } else {
      assert LogBins(log, lo, n)[..n - 1] == LogBins(log, lo, n - 1);
      assert LogBins(log, lo, n)[n - 1] == BinSum(log, lo + n - 1);
      LogBinsSum(log, lo, n - 1);
      if n == 1 {
        WindowEmpty(log, lo, lo - 1);
      } else {
        WindowSplit(log, lo, lo + n - 2, lo + n - 1);
      }
    }
  }

  /** The ring read in time order from the oldest bin of the window, B - 478, to B + 1. */
  function InOrder(bins: seq<nat>, now: nat): seq<nat>
    requires |bins| == BINS
  {
    var k := (now + 2) % BINS;
    bins[k..] + bins[..k]
  }

  lemma {:induction false} ModAdd(x: nat, i: nat)
    requires i < BINS
    ensures (x + i) % BINS == if x % BINS + i < BINS then x % BINS + i else x % BINS + i - BINS
  {
  }

  lemma {:induction false} ModShift(x: int)
    ensures (x + BINS) % BINS == x % BINS
  {
  }

  lemma {:induction false} InOrderAt(bins: seq<nat>, now: nat, i: nat)
    requires |bins| == BINS && i < BINS
    ensures |InOrder(bins, now)| == BINS
    ensures InOrder(bins, now)[i] == bins[(now as int - 478 + i) % BINS]
  {
    var k := (now + 2) % BINS;
    ModAdd(now + 2, i);
    ModShift(now - 478 + i);
    assert now - 478 + i + BINS == now + 2 + i;
  }

  lemma {:induction false} ModDistinct(x: int, d: int)
    requires 0 < d < BINS
    ensures (x + d) % BINS != x % BINS
  {
  }

  lemma {:induction false} SumInOrder(bins: seq<nat>, now: nat)
    requires |bins| == BINS
    ensures Sum(InOrder(bins, now)) == Sum(bins)
  {
    var k := (now + 2) % BINS;
    SumAppend(bins[k..], bins[..k]);
    SumAppend(bins[..k], bins[k..]);
    assert bins[..k] + bins[k..] == bins;
  }

  // ---- one slot ----

  lemma {:induction false} NextSlotIs(now: nat)
    ensures NextSlot(now % BINS) == (now + 1) % BINS
    ensures PrevSlot(now % BINS) == (now as int - 1) % BINS
  {
  }

  /** What csma_add_airtime does to one slot. */
  lemma {:induction false} AddSlotModulo(a: State, t: nat, ms: nat, j: nat)
    requires Shaped(a) && j < BINS
    ensures Add(a, t, ms).bins[j] ==
            if j == (BinOf(t) + 1) % BINS then 0
            else if j == BinOf(t) % BINS then (a.bins[j] + ms) % 0x1_0000
            else a.bins[j]
    ensures Add(a, t, ms).overflowed <==> a.overflowed || a.bins[BinOf(t) % BINS] + ms >= 0x1_0000
  {
    SlotIsBin(t);
    NextSlotIs(BinOf(t));
    ModDistinct(BinOf(t), 1);
  }

  lemma {:induction false} AddSlot(a: State, t: nat, ms: nat, j: nat)
    requires Shaped(a) && j < BINS && !Add(a, t, ms).overflowed
    ensures Add(a, t, ms).bins[j] ==
            if j == (BinOf(t) + 1) % BINS then 0
            else if j == BinOf(t) % BINS then a.bins[j] + ms
            else a.bins[j]
  {
    hide Add;
    AddSlotModulo(a, t, ms, j);
  }

  /** What csma_update_airtime does to one slot. */
  lemma {:induction false} UpdateSlot(a: State, t: nat, j: nat)
    requires Shaped(a) && j < BINS
    ensures Update(a, t).bins[j] == if j == (BinOf(t) + 1) % BINS then 0 else a.bins[j]
  {
    SlotIsBin(t);
    NextSlotIs(BinOf(t));
  }

  /** The bins of a window have slots of their own, and none of them is the slot that a call clears. */
  lemma {:induction false} WindowSlots(now: int, b: int)
    requires now - 478 <= b <= now
    ensures b % BINS != (now + 1) % BINS
    ensures b % BINS == now % BINS <==> b == now
  {
    ModDistinct(b, now + 1 - b);
    if b < now { ModDistinct(b, now - b); }
  }

  // ---- the ring never under-counts ----

  /** Every bin of the window ending at absolute bin `now` holds at least what the log has for it. */
  predicate Over(a: State, now: nat) {
    && Shaped(a)
    && Until(a.log, now)
    && forall b: int :: now - 478 <= b <= now ==> a.bins[b % BINS] >= BinSum(a.log, b)
  }

  lemma {:induction false} InitialOver(now: nat)
    ensures Over(Initial(), now)
  {
  }

  lemma {:induction false} OverLater(a: State, now: nat, later: nat)
    requires Over(a, now) && now <= later
    ensures Over(a, later)
  {
    forall b: int | later - 478 <= b <= later
      ensures a.bins[b % BINS] >= BinSum(a.log, b)
    {
      if b > now { WindowEmpty(a.log, b, b); }
    }
  }

  lemma {:induction false} AddKeepsOver(a: State, t: nat, ms: nat)
    requires Over(a, BinOf(t)) && !Add(a, t, ms).overflowed
    ensures Over(Add(a, t, ms), BinOf(t))
  {
    var now := BinOf(t);
    forall b: int | now - 478 <= b <= now
      ensures Add(a, t, ms).bins[b % BINS] >= BinSum(Add(a, t, ms).log, b)
    {
      WindowSlots(now, b);
      AddSlot(a, t, ms, b % BINS);
      WindowSnoc(a.log, Burst(t, ms), b, b);
      assert a.bins[b % BINS] >= BinSum(a.log, b);
    }
  }

  lemma {:induction false} UpdateKeepsOver(a: State, t: nat)
    requires Over(a, BinOf(t))
    ensures Over(Update(a, t), BinOf(t))
  {
    var now := BinOf(t);
    forall b: int | now - 478 <= b <= now
      ensures Update(a, t).bins[b % BINS] >= BinSum(Update(a, t).log, b)
    {
      WindowSlots(now, b);
      UpdateSlot(a, t, b % BINS);
    }
  }

  /** The ring sum is at least the log's sum over the last 479 bins. */
  lemma {:induction false} OverBoundsSum(a: State, now: nat)
    requires Over(a, now)
    ensures Sum(a.bins) >= Window(a.log, now - 478, now)
  {
    var order := InOrder(a.bins, now);
    var logged := LogBins(a.log, now - 478, BINS);
    forall i | 0 <= i < BINS
      ensures |order| == BINS && order[i] >= logged[i]
    {
      InOrderAt(a.bins, now, i);
      if i == 479 { WindowEmpty(a.log, now + 1, now + 1); }
    }
    SumDominates(order, logged);
    SumInOrder(a.bins, now);
    LogBinsSum(a.log, now - 478, BINS);
    WindowSplit(a.log, now - 478, now, now + 1);
  }

  lemma {:induction false} SumOfZeros(s: seq<nat>)
    requires forall i :: 0 <= i < |s| ==> s[i] == 0
    ensures Sum(s) == 0
  {
    if s != [] { SumOfZeros(s[..|s| - 1]); }
  }

  /** An empty ring does not lock, whatever the limits. */
  lemma {:induction false} EmptyRingUnlocks(a: State, t: nat, lim: Limits)
    requires Shaped(a) && forall j :: 0 <= j < BINS ==> Update(a, t).bins[j] == 0
    ensures !Locked(Update(a, t), lim)
  {
    hide Sum, NextBand;
    SlotIsBin(t);
    SumOfZeros(Update(a, t).bins);
  }

  /** The stored values are at least the true windows, from the update until the next burst. */
  predicate StoredCovers(a: State, now: nat) {
    && Until(a.log, now)
    && a.long >= Window(a.log, now - 478, now)
    && a.short >= Window(a.log, now - 1, now)
  }

  lemma {:induction false} UpdateStores(a: State, t: nat)
    requires Over(a, BinOf(t))
    ensures StoredCovers(Update(a, t), BinOf(t))
  {
    var now := BinOf(t);
    var a' := Update(a, t);
    UpdateKeepsOver(a, t);
    OverBoundsSum(a', now);
    SlotIsBin(t);
    NextSlotIs(now);
    WindowSplit(a.log, now - 1, now - 1, now);
    assert a'.bins[(now - 1) % BINS] >= BinSum(a.log, now - 1);
    assert a'.bins[now % BINS] >= BinSum(a.log, now);
  }

  lemma {:induction false} StoredLater(a: State, now: nat, later: nat)
    requires StoredCovers(a, now) && now <= later
    ensures StoredCovers(a, later)
  {
    WindowShrinks(a.log, now - 478, now, later - 478, later);
    WindowShrinks(a.log, now - 1, now, later - 1, later);
  }

  // ---- whole runs of the accounting alone ----

  datatype Call = AddCall(t: nat, ms: nat) | UpdateCall(t: nat)

  function Apply(a: State, c: Call): (r: State)
    requires Shaped(a)
    ensures Shaped(r)
  {
    match c
    case AddCall(t, ms) => Add(a, t, ms)
    case UpdateCall(t) => Update(a, t)
  }

  /** The state after all the calls. */
  function Account(cs: seq<Call>): (a: State)
    ensures Shaped(a)
  {
    if cs == [] then Initial() else Apply(Account(cs[..|cs| - 1]), cs[|cs| - 1])
  }

  predicate InTimeOrder(cs: seq<Call>) {
    forall i :: 0 < i < |cs| ==> cs[i - 1].t <= cs[i].t
  }

  predicate AtMostOneBinApart(cs: seq<Call>) {
    forall i :: 0 < i < |cs| ==> BinOf(cs[i].t) <= BinOf(cs[i - 1].t) + 1
  }

  lemma {:induction false} RunOver(cs: seq<Call>)
    requires cs != [] && InTimeOrder(cs) && !Account(cs).overflowed
    ensures Over(Account(cs), BinOf(cs[|cs| - 1].t))
  {
    var n := |cs| - 1;
    var before := cs[..n];
    var a := Account(before);
    if n == 0 {
      InitialOver(BinOf(cs[n].t));
    } else {
      RunOver(before);
      OverLater(a, BinOf(cs[n - 1].t), BinOf(cs[n].t));
    }
    match cs[n]
    case AddCall(t, ms) => AddKeepsOver(a, t, ms);
    case UpdateCall(t) => UpdateKeepsOver(a, t);
  }

  // ---- when the ring is exact ----

  /** The slot that a call adds to, if it adds, and the slot that it clears. */
  function Fills(c: Call): nat {
    BinOf(c.t) % BINS
  }

  function Clears(c: Call): nat {
    (BinOf(c.t) + 1) % BINS
  }

  /** What the calls leave in slot j, and the part of it from bins before b. */
  function Kept(cs: seq<Call>, j: nat): nat {
    if cs == [] then 0
    else
      var n := |cs| - 1;
      if Clears(cs[n]) == j then 0
      else Kept(cs[..n], j) + if cs[n].AddCall? && Fills(cs[n]) == j then cs[n].ms else 0
  }

  function KeptBefore(cs: seq<Call>, j: nat, b: int): nat {
    if cs == [] then 0
    else
      var n := |cs| - 1;
      if Clears(cs[n]) == j then 0
      else KeptBefore(cs[..n], j, b) +
           if cs[n].AddCall? && Fills(cs[n]) == j && BinOf(cs[n].t) < b then cs[n].ms else 0
  }

  lemma {:induction false} OverflowStays(a: State, c: Call)
    requires Shaped(a)
    ensures a.overflowed ==> Apply(a, c).overflowed
  {
  }

  lemma {:induction false} FillsAndClears(c: Call)
    ensures Fills(c) != Clears(c)
  {
    ModDistinct(BinOf(c.t), 1);
  }

  lemma {:induction false} BinsAreKept(cs: seq<Call>, j: nat)
    requires j < BINS && !Account(cs).overflowed
    ensures Account(cs).bins[j] == Kept(cs, j)
    decreases |cs|
  {
    hide Add, Update;
    if cs != [] {
      var n := |cs| - 1;
      assert !Account(cs[..n]).overflowed by { OverflowStays(Account(cs[..n]), cs[n]); }
      BinsAreKept(cs[..n], j);
      match cs[n]
      case AddCall(t, ms) =>
        AddSlot(Account(cs[..n]), t, ms, j);
        FillsAndClears(cs[n]);
      case UpdateCall(t) => UpdateSlot(Account(cs[..n]), t, j);
    }
  }

  lemma {:induction false} ModuloSum(x: nat, ms: nat)
    ensures (x % 0x1_0000 + ms) % 0x1_0000 == (x + ms) % 0x1_0000
  {
  }

  /** With wrap-around: in every run a slot is what the calls leave in it, modulo 65536. */
  lemma {:induction false} BinsAreKeptModulo(cs: seq<Call>, j: nat)
    requires j < BINS
    ensures Account(cs).bins[j] == Kept(cs, j) % 0x1_0000
    decreases |cs|
  {
    hide Add, Update;
    if cs != [] {
      var n := |cs| - 1;
      BinsAreKeptModulo(cs[..n], j);
      match cs[n]
      case AddCall(t, ms) =>
        AddSlotModulo(Account(cs[..n]), t, ms, j);
        FillsAndClears(cs[n]);
        ModuloSum(Kept(cs[..n], j), ms);
      case UpdateCall(t) => UpdateSlot(Account(cs[..n]), t, j);
    }
  }

  /** Some slot is left more than its 16 bits hold. */
  predicate TooMuch(cs: seq<Call>) {
    exists j :: 0 <= j < BINS && Kept(cs, j) >= 0x1_0000
  }

  lemma {:induction false} BinsFit(cs: seq<Call>, j: nat)
    requires j < BINS && !Account(cs).overflowed
    ensures Kept(cs, j) < 0x1_0000
  {
    BinsAreKept(cs, j);
    BinsAreKeptModulo(cs, j);
  }

  lemma {:induction false} OverflowStep(cs: seq<Call>)
    requires cs != [] && !Account(cs[..|cs| - 1]).overflowed
    ensures Account(cs).overflowed <==> TooMuch(cs)
  {
    var n := |cs| - 1;
    var before, c := cs[..n], cs[n];
    var a := Account(before);
    forall j | 0 <= j < BINS
      ensures Kept(before, j) == a.bins[j] && Account(cs).bins[j] == Kept(cs, j) % 0x1_0000
    {
      BinsAreKept(before, j);
      BinsAreKeptModulo(cs, j);
    }
    FillsAndClears(c);
    hide Add, Update;
    match c {
      case AddCall(t, ms) =>
        AddSlotModulo(a, t, ms, Fills(c));
        assert Kept(cs, Fills(c)) == Kept(before, Fills(c)) + ms;
        forall j | 0 <= j < BINS && j != Fills(c)
          ensures Kept(cs, j) < 0x1_0000
        {
          BinsFit(before, j);
        }
      case UpdateCall(t) =>
        forall j | 0 <= j < BINS
          ensures Kept(cs, j) < 0x1_0000
        {
          BinsFit(before, j);
        }
    }
  }

  lemma {:induction false} NothingKept()
    ensures !TooMuch([]) && !Account([]).overflowed
  {
  }

  /** So a bin has wrapped in a run exactly when some slot was once left 65536 ms or more. */
  lemma {:induction false} OverflowIsTooMuch(cs: seq<Call>)
    ensures Account(cs).overflowed <==> exists k :: 0 <= k <= |cs| && TooMuch(cs[..k])
    decreases |cs|
  {
    hide TooMuch;
    assert cs[..|cs|] == cs;
    if cs == [] {
      NothingKept();
    } else {
      var before := cs[..|cs| - 1];
      OverflowIsTooMuch(before);
      assert forall k :: 0 <= k <= |before| ==> before[..k] == cs[..k];
      OverflowStays(Account(before), cs[|cs| - 1]);
      if !Account(before).overflowed { OverflowStep(cs); }
    }
  }

  // ---- the window at the end of a run ----

  lemma {:induction false} LogUntil(cs: seq<Call>, hi: int)
    requires forall i :: 0 <= i < |cs| ==> BinOf(cs[i].t) <= hi
    ensures Until(Account(cs).log, hi)
    decreases |cs|
  {
    if cs != [] { LogUntil(cs[..|cs| - 1], hi); }
  }

  lemma {:induction false} BinMonotone(t: nat, u: nat)
    requires t <= u
    ensures BinOf(t) <= BinOf(u)
  {
  }

  lemma {:induction false} LastIsLatest(cs: seq<Call>, i: nat)
    requires InTimeOrder(cs) && i < |cs|
    ensures BinOf(cs[i].t) <= BinOf(cs[|cs| - 1].t)
    decreases |cs| - i
  {
    if i < |cs| - 1 {
      LastIsLatest(cs, i + 1);
      BinMonotone(cs[i].t, cs[i + 1].t);
    }
  }

  /** A bin of slot b % 480 that is not more than 478 behind b is b or an earlier one. */
  lemma {:induction false} SameSlot(bin: int, b: int)
    requires bin <= b + 479 && bin % BINS == b % BINS
    ensures bin <= b && (bin < b ==> bin <= b - 480)
  {
    if bin > b { ModDistinct(b, bin - b); }
    if b - 480 < bin < b { ModDistinct(bin, b - bin); }
  }

  /** A slot holds the airtime of its bin in the window and what is left of earlier bins. */
  lemma {:induction false} KeptSplits(cs: seq<Call>, b: int)
    requires InTimeOrder(cs) && forall i :: 0 <= i < |cs| ==> BinOf(cs[i].t) <= b + 478
    ensures Kept(cs, b % BINS) == KeptBefore(cs, b % BINS, b) + BinSum(Account(cs).log, b)
    decreases |cs|
  {
    if cs != [] {
      var n := |cs| - 1;
      var before, c := cs[..n], cs[n];
      if Clears(c) == b % BINS {
        SameSlot(BinOf(c.t) + 1, b);
        forall i | 0 <= i < |cs|
          ensures BinOf(cs[i].t) <= b - 1
        {
          LastIsLatest(cs, i);
        }
        LogUntil(cs, b - 1);
        WindowEmpty(Account(cs).log, b, b);
      } else {
        KeptSplits(before, b);
        if c.AddCall? {
          WindowSnoc(Account(before).log, Burst(c.t, c.ms), b, b);
          if Fills(c) == b % BINS { SameSlot(BinOf(c.t), b); }
        }
      }
    }
  }

  /** Call k recorded airtime in a bin before b, and no later call has cleared its slot. */
  predicate Stale(cs: seq<Call>, k: nat, b: int)
    requires k < |cs|
  {
    && cs[k].AddCall? && cs[k].ms > 0 && BinOf(cs[k].t) < b
    && forall l :: k < l < |cs| ==> Clears(cs[l]) != Fills(cs[k])
  }

  lemma {:induction false} StaleSnoc(cs: seq<Call>, c: Call, k: nat, b: int)
    requires k < |cs|
    ensures Stale(cs + [c], k, b) <==> Stale(cs, k, b) && Clears(c) != Fills(cs[k])
  {
    var all := cs + [c];
    assert all[|cs|] == c;
    if Stale(all, k, b) {
      forall l | k < l < |cs|
        ensures Clears(cs[l]) != Fills(cs[k])
      {
        assert all[l] == cs[l];
      }
    }
  }

  lemma {:induction false} KeptBeforeIsStale(cs: seq<Call>, j: nat, b: int)
    ensures KeptBefore(cs, j, b) > 0 <==> exists k :: 0 <= k < |cs| && Fills(cs[k]) == j && Stale(cs, k, b)
    decreases |cs|
  {
    if cs != [] {
      var n := |cs| - 1;
      var before, c := cs[..n], cs[n];
      KeptBeforeIsStale(before, j, b);
      FillsAndClears(c);
      assert cs == before + [c];
      forall k | 0 <= k < n
        ensures Stale(cs, k, b) <==> Stale(before, k, b) && Clears(c) != Fills(cs[k])
      {
        StaleSnoc(before, c, k, b);
      }
      if KeptBefore(cs, j, b) > 0 {
        if KeptBefore(before, j, b) > 0 {
          var k :| 0 <= k < n && Fills(before[k]) == j && Stale(before, k, b);
          assert Fills(cs[k]) == j && Stale(cs, k, b);
        } else {
          assert Fills(cs[n]) == j && Stale(cs, n, b);
        }
      }
      if k :| 0 <= k < |cs| && Fills(cs[k]) == j && Stale(cs, k, b) {
        if k < n { assert Fills(before[k]) == j && Stale(before, k, b); }
      }
    }
  }

  /** Dominating summands with an equal sum are equal. */
  lemma {:induction false} SumsEqual(a: seq<nat>, b: seq<nat>)
    requires |a| == |b|
    requires forall k :: 0 <= k < |a| ==> a[k] >= b[k]
    requires Sum(a) == Sum(b)
    ensures a == b
  {
    if a != [] {
      var n := |a| - 1;
      SumDominates(a[..n], b[..n]);
      SumsEqual(a[..n], b[..n]);
      assert a == a[..n] + [a[n]] && b == b[..n] + [b[n]];
    }
  }

  /** The bin of the last call. */
  function LastBin(cs: seq<Call>): nat
    requires cs != []
  {
    BinOf(cs[|cs| - 1].t)
  }

  lemma {:induction false} AllUntilLast(cs: seq<Call>, hi: int)
    requires cs != [] && InTimeOrder(cs) && LastBin(cs) <= hi
    ensures forall k :: 0 <= k < |cs| ==> BinOf(cs[k].t) <= hi
  {
    forall k | 0 <= k < |cs|
      ensures BinOf(cs[k].t) <= hi
    {
      LastIsLatest(cs, k);
    }
  }

  /** The slot of bin b of the window at the end of a run, in time order. */
  lemma {:induction false} SlotAtEnd(cs: seq<Call>, i: nat, b: int)
    requires cs != [] && InTimeOrder(cs) && !Account(cs).overflowed && i < BINS
    requires b == LastBin(cs) as int - 478 + i
    ensures |InOrder(Account(cs).bins, LastBin(cs))| == BINS
    ensures InOrder(Account(cs).bins, LastBin(cs))[i] ==
            KeptBefore(cs, b % BINS, b) + BinSum(Account(cs).log, b)
  {
    hide Kept, KeptBefore, Window, Account;
    InOrderAt(Account(cs).bins, LastBin(cs), i);
    BinsAreKept(cs, b % BINS);
    AllUntilLast(cs, b + 478);
    KeptSplits(cs, b);
  }

  /** Airtime left over from bins before b, in whatever slot. */
  predicate LeftOver(cs: seq<Call>, b: int) {
    exists k :: 0 <= k < |cs| && Stale(cs, k, b)
  }

  lemma {:induction false} ModOffset(lo: int, x: int)
    ensures (lo + (x - lo) % BINS) % BINS == x % BINS
  {
  }

  lemma {:induction false} LeftOverShows(cs: seq<Call>, lo: int) returns (i: nat)
    requires LeftOver(cs, lo)
    ensures i < BINS && KeptBefore(cs, (lo + i) % BINS, lo + i) > 0
  {
    var k :| 0 <= k < |cs| && Stale(cs, k, lo);
    i := (BinOf(cs[k].t) - lo) % BINS;
    ModOffset(lo, BinOf(cs[k].t));
    assert Stale(cs, k, lo + i) && Fills(cs[k]) == (lo + i) % BINS;
    KeptBeforeIsStale(cs, (lo + i) % BINS, lo + i);
  }

  lemma {:induction false} NothingLeftOver(cs: seq<Call>, lo: int, i: nat)
    requires cs != [] && InTimeOrder(cs) && LastBin(cs) <= lo + 478
    requires !LeftOver(cs, lo) && i < BINS
    ensures KeptBefore(cs, (lo + i) % BINS, lo + i) == 0
  {
    var b := lo + i;
    KeptBeforeIsStale(cs, b % BINS, b);
    if k :| 0 <= k < |cs| && Fills(cs[k]) == b % BINS && Stale(cs, k, b) {
      LastIsLatest(cs, k);
      SameSlot(BinOf(cs[k].t), b);
      assert Stale(cs, k, lo);
    }
  }

  lemma {:induction false} SumOfWindow(cs: seq<Call>)
    requires cs != [] && InTimeOrder(cs)
    ensures Sum(LogBins(Account(cs).log, LastBin(cs) as int - 478, BINS)) ==
            Window(Account(cs).log, LastBin(cs) as int - 478, LastBin(cs))
  {
    hide Account, Window, Sum;
    var log := Account(cs).log;
    var now: int := LastBin(cs);
    AllUntilLast(cs, now);
    LogUntil(cs, now);
    LogBinsSum(log, now - 478, BINS);
    WindowSplit(log, now - 478, now, now + 1);
    WindowEmpty(log, now + 1, now + 1);
  }

  /** The ring in time order against the log's bins: each at least as much, and all equal exactly when
      nothing is left over. */
  lemma {:induction false} RingAgainstLog(cs: seq<Call>, order: seq<nat>, logged: seq<nat>)
    requires cs != [] && InTimeOrder(cs) && !Account(cs).overflowed
    requires order == InOrder(Account(cs).bins, LastBin(cs))
    requires logged == LogBins(Account(cs).log, LastBin(cs) as int - 478, BINS)
    ensures |order| == |logged| == BINS && forall i :: 0 <= i < BINS ==> order[i] >= logged[i]
    ensures order == logged <==> !LeftOver(cs, LastBin(cs) as int - 478)
  {
    hide KeptBefore, Account, InOrder, Window;
    var lo: int := LastBin(cs) as int - 478;
    forall i | 0 <= i < BINS
      ensures |order| == BINS && order[i] == KeptBefore(cs, (lo + i) % BINS, lo + i) + logged[i]
    {
      SlotAtEnd(cs, i, lo + i);
    }
    SlotAtEnd(cs, 0, lo);
    if LeftOver(cs, lo) {
      var i := LeftOverShows(cs, lo);
      assert order[i] > logged[i];
    } else {
      forall i | 0 <= i < BINS
        ensures order[i] == logged[i]
      {
        NothingLeftOver(cs, lo, i);
      }
      assert order == logged;
    }
  }

  /**
   * In every run the ring sum is at least the airtime logged in the last 479 bins, and the next bin's
   * slot is empty. The sum is that airtime exactly when every burst from before the window has been
   * cleared: followed by a call in the bin before one of its slot.
   */
  lemma {:induction false} RingRefinesLog(cs: seq<Call>)
    requires cs != [] && InTimeOrder(cs) && !Account(cs).overflowed
    ensures var a, now := Account(cs), LastBin(cs);
      && Sum(a.bins) >= Window(a.log, now as int - 478, now)
      && a.bins[(now + 1) % BINS] == 0
      && (Sum(a.bins) == Window(a.log, now as int - 478, now) <==> !LeftOver(cs, now as int - 478))
  {
    hide Account, Window, InOrder, Sum, LeftOver;
    var bins := Account(cs).bins;
    var order, logged := InOrder(bins, LastBin(cs)), LogBins(Account(cs).log, LastBin(cs) as int - 478, BINS);
    RingAgainstLog(cs, order, logged);
    SumOfWindow(cs);
    SumDominates(order, logged);
    SumInOrder(bins, LastBin(cs));
    BinsAreKept(cs, (LastBin(cs) + 1) % BINS);
    if Sum(order) == Sum(logged) { SumsEqual(order, logged); }
  }

  lemma {:induction false} Reaches(cs: seq<Call>, k: nat, bin: nat) returns (l: nat)
    requires AtMostOneBinApart(cs) && k < |cs|
    requires BinOf(cs[k].t) < bin <= BinOf(cs[|cs| - 1].t)
    ensures k < l < |cs| && BinOf(cs[l].t) == bin
    decreases |cs| - k
  {
    if BinOf(cs[k + 1].t) < bin {
      l := Reaches(cs, k + 1, bin);
    } else {
      l := k + 1;
    }
  }

  lemma {:induction false} CloseCallsLeaveNothing(cs: seq<Call>)
    requires cs != [] && InTimeOrder(cs) && AtMostOneBinApart(cs)
    ensures !LeftOver(cs, LastBin(cs) as int - 478)
  {
    var lo: int := LastBin(cs) as int - 478;
    forall k | 0 <= k < |cs|
      ensures !Stale(cs, k, lo)
    {
      if BinOf(cs[k].t) < lo {
        var l := Reaches(cs, k, BinOf(cs[k].t) + 479);
        ModShift(BinOf(cs[k].t));
        assert Clears(cs[l]) == Fills(cs[k]);
      }
    }
  }

  /** Calls at most one bin apart leave nothing over, so the ring is exact. */
  lemma {:induction false} CloseCallsAreExact(cs: seq<Call>)
    requires cs != [] && InTimeOrder(cs) && AtMostOneBinApart(cs) && !Account(cs).overflowed
    ensures Sum(Account(cs).bins) == Window(Account(cs).log, LastBin(cs) as int - 478, LastBin(cs))
  {
    hide Account, Window, Sum, LeftOver;
    CloseCallsLeaveNothing(cs);
    RingRefinesLog(cs);
  }

  /** The two bins that the short-term airtime is taken from. */
  function TwoBins(cs: seq<Call>): nat
    requires cs != []
  {
    Account(cs).bins[LastBin(cs) % BINS] + Account(cs).bins[(LastBin(cs) - 1) % BINS]
  }

  /** What csma_update_airtime stores. */
  lemma {:induction false} StoredSums(cs: seq<Call>)
    requires cs != [] ==> cs[|cs| - 1].UpdateCall?
    ensures cs == [] ==> Account(cs).short == 0 && Account(cs).long == 0
    ensures cs != [] ==> Account(cs).short == TwoBins(cs) && Account(cs).long == Sum(Account(cs).bins)
  {
    hide Sum;
    if cs != [] {
      var t := cs[|cs| - 1].t;
      SlotIsBin(t);
      NextSlotIs(BinOf(t));
    }
  }

  lemma {:induction false} WindowOfTwo(log: seq<Burst>, now: int)
    ensures Window(log, now - 1, now) == BinSum(log, now - 1) + BinSum(log, now)
  {
    WindowSplit(log, now - 1, now - 1, now);
  }

  lemma {:induction false} SlotAgainstLog(cs: seq<Call>, b: int)
    requires cs != [] && InTimeOrder(cs) && !Account(cs).overflowed
    requires LastBin(cs) as int - 478 <= b <= LastBin(cs)
    ensures Account(cs).bins[b % BINS] >= BinSum(Account(cs).log, b)
    ensures AtMostOneBinApart(cs) ==> Account(cs).bins[b % BINS] == BinSum(Account(cs).log, b)
  {
    hide Account, Window, Kept, KeptBefore, LeftOver;
    var lo := LastBin(cs) as int - 478;
    BinsAreKept(cs, b % BINS);
    AllUntilLast(cs, b + 478);
    KeptSplits(cs, b);
    if AtMostOneBinApart(cs) {
      CloseCallsLeaveNothing(cs);
      NothingLeftOver(cs, lo, b - lo);
      assert lo + (b - lo) == b;
    }
  }

  /** The two bins hold at least the logged airtime, and exactly that when calls are at most one bin apart. */
  lemma {:induction false} TwoBinsAgainstLog(cs: seq<Call>)
    requires cs != [] && InTimeOrder(cs) && !Account(cs).overflowed
    ensures TwoBins(cs) >= Window(Account(cs).log, LastBin(cs) as int - 1, LastBin(cs))
    ensures AtMostOneBinApart(cs) ==> TwoBins(cs) == Window(Account(cs).log, LastBin(cs) as int - 1, LastBin(cs))
  {
    var now: int := LastBin(cs);
    WindowOfTwo(Account(cs).log, now);
    SlotAgainstLog(cs, now);
    SlotAgainstLog(cs, now - 1);
    hide Account, Window, InTimeOrder, AtMostOneBinApart;
  }

  lemma {:induction false} OneGapFits(first: Call, second: Call)
    requires first.AddCall? && first.ms < 0x1_0000 && second.UpdateCall?
    ensures !Account([first, second]).overflowed
  {
    var cs := [first, second];
    assert cs[..|cs| - 1] == [first] && [first][..|[first]| - 1] == [];
    SlotIsBin(first.t);
    assert Account([]) == Initial();
    assert !Account([first]).overflowed;
  }

  /**
   * One burst and, however long after it, one update: the ring counts right exactly when the burst is
   * still in the window or the update clears its slot. A gap of three bins is harmless, one of 480 is not.
   */
  lemma {:induction false} OneGap(t: nat, ms: nat, u: nat)
    requires t <= u && 0 < ms < 0x1_0000
    ensures var a := Account([AddCall(t, ms), UpdateCall(u)]);
      Sum(a.bins) == Window(a.log, BinOf(u) as int - 478, BinOf(u))
      <==> BinOf(t) >= BinOf(u) as int - 478 || (BinOf(u) + 1) % BINS == BinOf(t) % BINS
  {
    var first, second := AddCall(t, ms), UpdateCall(u);
    var cs := [first, second];
    OneGapFits(first, second);
    hide Account, Window, Sum;
    RingRefinesLog(cs);
    assert cs[0] == first && cs[1] == second;
    assert Stale(cs, 0, BinOf(u) as int - 478) <==>
           BinOf(t) < BinOf(u) as int - 478 && Clears(second) != Fills(first);
    assert !Stale(cs, 1, BinOf(u) as int - 478);
  }

  // ---- what the lock implies for the log ----

  /** The window of `width` bins that burst i found when it was added. */
  function Before(log: seq<Burst>, i: nat, width: nat): nat
    requires i < |log|
  {
    Window(log[..i], BinOf(log[i].t) - width + 1, BinOf(log[i].t))
  }

  /** Every burst found less than cap, in ms/10000. */
  predicate Admitted(log: seq<Burst>, width: nat, cap: nat) {
    forall i :: 0 <= i < |log| ==> Before(log, i, width) * 10_000 < cap
  }

  predicate Sorted(log: seq<Burst>) {
    forall i, j :: 0 <= i < j < |log| ==> log[i].t <= log[j].t
  }

  lemma {:induction false} BeforeOfPrefix(log: seq<Burst>, b: Burst, i: nat, width: nat)
    requires i < |log|
    ensures Before(log + [b], i, width) == Before(log, i, width)
  {
    assert (log + [b])[..i] == log[..i];
  }

  lemma {:induction false} BinsSorted(log: seq<Burst>)
    requires Sorted(log) && log != []
    ensures Until(log, BinOf(log[|log| - 1].t))
    ensures Until(log[..|log| - 1], BinOf(log[|log| - 1].t))
  {
    var last := log[|log| - 1];
    forall i | 0 <= i < |log|
      ensures BinOf(log[i].t) <= BinOf(last.t)
    {
      assert log[i].t <= last.t;
    }
  }

  /** Then at no moment does the window hold the cap plus one burst. */
  lemma {:induction false} AdmittedBounds(log: seq<Burst>, width: nat, cap: nat, now: nat) returns (i: nat)
    requires Sorted(log) && Admitted(log, width, cap) && width > 0
    requires Window(log, now - width + 1, now) > 0
    ensures i < |log| && now - width + 1 <= BinOf(log[i].t) <= now
    ensures Window(log, now - width + 1, now) * 10_000 < cap + log[i].ms * 10_000
  {
    var n := |log| - 1;
    var before, last := log[..n], log[n];
    if now - width + 1 <= BinOf(last.t) <= now {
      i := n;
      var at := BinOf(last.t);
      BinsSorted(log);
      assert Before(log, n, width) * 10_000 < cap;
      WindowShrinks(before, at - width + 1, at, now - width + 1, now);
    } else {
      forall j | 0 <= j < n
        ensures Before(before, j, width) * 10_000 < cap
      {
        BeforeOfPrefix(before, last, j, width);
        assert before + [last] == log;
      }
      i := AdmittedBounds(before, width, cap, now);
    }
  }

  lemma {:induction false} AdmittedSnoc(log: seq<Burst>, b: Burst, width: nat, cap: nat)
    requires Admitted(log, width, cap)
    requires Window(log, BinOf(b.t) - width + 1, BinOf(b.t)) * 10_000 < cap
    ensures Admitted(log + [b], width, cap)
  {
    var after := log + [b];
    forall i | 0 <= i < |after|
      ensures Before(after, i, width) * 10_000 < cap
    {
      if i < |log| {
        BeforeOfPrefix(log, b, i, width);
      } else {
        assert after[..i] == log;
      }
    }
  }

  // ---- contention-window bands ----

  /** The bands by short-term airtime in whole percent of 15 s. Although the constant for the last band is
      85, the offset added before the mapping makes it start at 78. */
  function BandByAirtime(short: nat): nat {
    var pct := short * 100 / 15_000;
    if pct <= 7 then 1 else if pct <= 38 then 2 else if pct <= 77 then 3 else 4
  }

  lemma {:induction false} BandThresholds(cw: Band, short: nat)
    requires cw.Valid()
    ensures NextBand(cw, short) ==
            var band := BandByAirtime(short);
            if band == cw.band then cw else Band(band, band * 15 - 15, band * 15 - 1)
  {
    var pct := short * 100 / (2 * BIN_MS);
    if pct > 7 {
      assert Map(pct + 7, 7, 85, 2, BANDS) == pct * 2 / 78 + 2;
    }
  }

  /** Some csma_update_airtime so far has found more than 7 percent. */
  predicate LeftBandOne(cs: seq<Call>) {
    exists k :: 0 <= k <= |cs| && BandByAirtime(Account(cs[..k]).short) != 1
  }

  lemma {:induction false} LeftBandOneSnoc(cs: seq<Call>)
    requires cs != []
    ensures LeftBandOne(cs) <==> LeftBandOne(cs[..|cs| - 1]) || BandByAirtime(Account(cs).short) != 1
  {
    hide Account, BandByAirtime;
    var before := cs[..|cs| - 1];
    assert cs[..|cs|] == cs;
    assert forall k :: 0 <= k <= |before| ==> before[..k] == cs[..k];
    if k :| 0 <= k <= |before| && BandByAirtime(Account(before[..k]).short) != 1 {
      assert BandByAirtime(Account(cs[..k]).short) != 1;
    }
  }

  lemma {:induction false} CallBands(a: State, c: Call)
    requires Shaped(a)
    ensures Apply(a, c).cw == if c.AddCall? then a.cw else NextBand(a.cw, Apply(a, c).short)
    ensures c.AddCall? ==> Apply(a, c).short == a.short
  {
    hide NextBand, Sum;
  }

  lemma {:induction false} BandRange(short: nat)
    ensures 1 <= BandByAirtime(short) <= 4
  {
  }

  lemma {:induction false} NoneLeft(cs: seq<Call>)
    requires !LeftBandOne(cs)
    ensures BandByAirtime(Account(cs).short) == 1
  {
    assert cs[..|cs|] == cs;
  }

  /** The band in force, in every run: the one of the stored two-bin airtime. Its slots are 15 each, but
      band 1 has a sixteenth one until the band has first been left. */
  lemma {:induction false} BandInForce(cs: seq<Call>)
    ensures var a := Account(cs); var band := BandByAirtime(a.short);
      a.cw == Band(band, band * 15 - 15, if LeftBandOne(cs) then band * 15 - 1 else 15)
    decreases |cs|
  {
    if cs == [] {
      assert Account(cs) == Initial();
      assert forall k :: 0 <= k <= |cs| ==> cs[..k] == [];
    } else {
      var before, c := cs[..|cs| - 1], cs[|cs| - 1];
      var a := Account(before);
      assert Account(cs) == Apply(a, c);
      hide Apply, NextBand, LeftBandOne, Account, BandByAirtime;
      BandInForce(before);
      CallBands(a, c);
      LeftBandOneSnoc(cs);
      BandRange(a.short);
      if c.UpdateCall? { BandThresholds(a.cw, Apply(a, c).short); }
      if !LeftBandOne(before) { NoneLeft(before); }
    }
  }

  /** The window drawn is a number of slots of the band... */
  lemma {:induction false} WindowInBand(cw: Band, random: nat, slot: nat) returns (k: nat)
    requires cw.Valid()
    ensures cw.min <= k <= cw.max && ContentionWindow(cw, random, slot) == k * slot
  {
    k := random % (cw.max - cw.min + 1) + cw.min;
  }

  lemma {:induction false} ModSmall(x: nat, n: nat)
    requires x < n
    ensures x % n == x
  {
  }

  /** ... and each of them is drawn for some random number. */
  lemma {:induction false} EveryWindowDrawn(cw: Band, k: nat, slot: nat) returns (random: nat)
    requires cw.Valid() && cw.min <= k <= cw.max
    ensures ContentionWindow(cw, random, slot) == k * slot
  {
    random := k - cw.min;
    ModSmall(random, cw.max - cw.min + 1);
  }
}
