/**
 * Freedom from deadlock: from every reachable state that lost no tail to a restart, whatever the
 * duty-cycle limits, some continuation without restarts empties the system.
 */
module Draining {
  import opened Bytes
  import opened Frames
  import opened System
  import opened Contention
  import Airtime
  import AirtimeLaws
  import EndToEnd
  import Kiss
  import ListenBeforeTalk
  import Modem
  import Ordering
  import Progress
  import Receiver

  /** Everything the host has sent so far is short enough for two frames. */
  ghost predicate ShortPayloads(h: Host) {
    EndToEnd.Short(PushAll(Kiss.DecodeChunks(Kiss.RESET, h.chunks).1))
  }

  ghost predicate Inv(cfg: Config, s: State) {
    && Airtime.Shaped(s.airtime)
    && ListenBeforeTalk.Inv(cfg, s)
    && Ordering.Inv(s)
    && EndToEnd.HostInv(s)
    && ShortPayloads(s.host)
    && s.modem.aborted == 0
  }

  lemma {:induction false} PushedIsShort(s: State)
    requires EndToEnd.HostInv(s) && ShortPayloads(s.host)
    ensures EndToEnd.Short(s.pushed)
  {
    hide PushAll, Kiss.Decode, Kiss.DecodeChunks;
    var later := Kiss.Decode(s.host.dec, s.host.rest).frames;
    EndToEnd.PushAllAppend(s.host.heard, later);
    forall p | p in s.pushed
      ensures |p| <= PAYLOAD_MAX
    {
      assert p in s.pushed + PushAll(later);
    }
  }

  lemma {:induction false} QueuedIsPushed(s: State, p: seq<byte>)
    requires Ordering.Conserved(s) && p in s.queue && (s.pc.Popping? ==> p != s.queue[0])
    ensures p in s.pushed
  {
    hide Ordering.PayloadsOf;
    if s.pc.Popping? { assert s.queue == [s.queue[0]] + s.queue[1..]; }
  }

  lemma {:induction false} SentIsPushed(s: State)
    requires Ordering.Conserved(s) && s.pc.Popping?
    ensures s.queue[0] in s.pushed
  {
    assert s.queue[0] in Ordering.PayloadsOf(s.modem.sent);
  }

  lemma {:induction false} QueueIsShort(cfg: Config, s: State)
    requires Inv(cfg, s)
    ensures EndToEnd.Short(s.queue) && Sendable(s)
  {
    PushedIsShort(s);
    hide EndToEnd.HostInv, ListenBeforeTalk.Inv, ShortPayloads, Ordering.Conserved;
    forall p | p in s.queue
      ensures p in s.pushed
    {
      if s.pc.Popping? && p == s.queue[0] { SentIsPushed(s); } else { QueuedIsPushed(s, p); }
    }
  }

  /** How far a state is from the next packet leaving the queue. */
  function Phase(cfg: Config, s: State): nat {
    if s.pc.Popping? then 0
    else
      var inhibited := if s.timers.txEnable then 0 else 1;
      var onAir := if s.modem.radio != Modem.Tx then 0 else if s.modem.tail == [] then 2 else 3;
      var locked := if Airtime.Locked(s.airtime, cfg.limits) then 1 else 0;
      1 + inhibited + onAir + locked
  }

  lemma {:induction false} ChunksStay(cfg: Config, s: State, e: Event)
    requires Airtime.Shaped(s.airtime) && !e.HostRead?
    ensures Step(cfg, s, e).host.chunks == s.host.chunks
  {
  }

  lemma {:induction false} StepKeepsInv(cfg: Config, s: State, e: Event)
    requires Inv(cfg, s) && Step(cfg, s, e).modem.aborted == 0 && !e.HostRead?
    ensures Inv(cfg, Step(cfg, s, e)) && Step(cfg, s, e).host.chunks == s.host.chunks
  {
    hide ListenBeforeTalk.Inv, Ordering.Inv, EndToEnd.HostInv;
    ListenBeforeTalk.StepInv(cfg, s, e);
    Ordering.StepInv(cfg, s, e);
    EndToEnd.HostStep(cfg, s, e);
    ChunksStay(cfg, s, e);
  }

  predicate NoReads(es: seq<Event>) {
    forall e | e in es :: !e.HostRead?
  }

  lemma {:induction false} AbortedTick(cfg: Config, s: State, i: Poll)
    requires Airtime.Shaped(s.airtime) && Sendable(s)
    ensures TickStep(cfg, s, i).modem.aborted >= s.modem.aborted
  {
    hide Airtime.Add, Airtime.Locked, Airtime.ContentionWindow, Fragments, Listen;
  }

  lemma {:induction false} AbortedGrows(cfg: Config, s: State, e: Event)
    requires Airtime.Shaped(s.airtime)
    ensures Step(cfg, s, e).modem.aborted >= s.modem.aborted
  {
    hide TickStep, Airtime.Update, PushAll;
    match e
    case Tick(i) => if Enabled(s, e) { AbortedTick(cfg, s, i); }
    case _ =>
  }

  lemma {:induction false} RunKeepsInv(cfg: Config, s: State, es: seq<Event>)
    requires Inv(cfg, s) && RunFrom(cfg, s, es).modem.aborted == 0 && NoReads(es)
    ensures Inv(cfg, RunFrom(cfg, s, es)) && RunFrom(cfg, s, es).host.chunks == s.host.chunks
    decreases |es|
  {
    assert Airtime.Shaped(s.airtime);
    hide Inv, Step;
    if es != [] {
      var before := es[..|es| - 1];
      var t := RunFrom(cfg, s, before);
      AbortedGrows(cfg, t, es[|es| - 1]);
      RunKeepsInv(cfg, s, before);
      StepKeepsInv(cfg, t, es[|es| - 1]);
    }
  }

  // ---- unlocking ----

  /** The start of the n-th bin behind t. */
  function BinBehind(t: nat, n: nat): nat {
    (Airtime.BinOf(t) + n) * Airtime.BIN_MS
  }

  lemma {:induction false} BinBehindIs(t: nat, n: nat)
    requires n > 0
    ensures Airtime.BinOf(BinBehind(t, n)) == Airtime.BinOf(t) + n && t <= BinBehind(t, n)
  {
  }

  function SlotBehind(t: nat, k: nat): (j: nat)
    ensures j < Airtime.BINS
  {
    (Airtime.BinOf(t) + k) % Airtime.BINS
  }

  /** The slots of n bins from the second one behind t on. */
  predicate Cleared(bins: seq<nat>, t: nat, n: nat)
    requires |bins| == Airtime.BINS
  {
    forall k :: 2 <= k < n + 2 ==> bins[SlotBehind(t, k)] == 0
  }

  lemma {:induction false} InOrder(t: nat, n: nat)
    ensures BinBehind(t, n) <= BinBehind(t, n + 1)
  {
  }

  /** n refreshes, one in each of the bins behind t. */
  function Refreshes(t: nat, n: nat): seq<Event> {
    if n == 0 then [] else Refreshes(t, n - 1) + [Refresh(BinBehind(t, n))]
  }

  lemma {:induction false} RefreshClears(a: Airtime.State, t: nat, n: nat)
    requires Airtime.Shaped(a) && 0 < n <= Airtime.BINS && Cleared(a.bins, t, n - 1)
    ensures Cleared(Airtime.Update(a, BinBehind(t, n)).bins, t, n)
  {
    var now := BinBehind(t, n);
    BinBehindIs(t, n);
    hide Airtime.Update, Airtime.BinOf, BinBehind;
    forall k | 2 <= k < n + 2
      ensures Airtime.Update(a, now).bins[SlotBehind(t, k)] == 0
    {
      AirtimeLaws.UpdateSlot(a, now, SlotBehind(t, k));
    }
  }

  lemma {:induction false} Refreshed(cfg: Config, s: State, now: nat)
    requires Airtime.Shaped(s.airtime) && s.pc.Ready? && s.clock <= now
    ensures Step(cfg, s, Refresh(now)) == s.(airtime := Airtime.Update(s.airtime, now), clock := now)
  {
    hide Airtime.Update;
  }

  /** Each of them clears one more slot, and nothing else happens. */
  lemma {:induction false} RefreshesClear(cfg: Config, s: State, n: nat)
    requires Airtime.Shaped(s.airtime) && s.pc.Ready? && n <= Airtime.BINS
    ensures var t := RunFrom(cfg, s, Refreshes(s.clock, n));
      && t == s.(airtime := t.airtime, clock := t.clock)
      && t.clock == (if n == 0 then s.clock else BinBehind(s.clock, n))
      && Cleared(t.airtime.bins, s.clock, n)
  {
    hide Airtime.Update, Step;
    if n > 0 {
      RefreshesClear(cfg, s, n - 1);
      var t := RunFrom(cfg, s, Refreshes(s.clock, n - 1));
      var now := BinBehind(s.clock, n);
      RunSnoc(cfg, s, Refreshes(s.clock, n - 1), Refresh(now));
      BinBehindIs(s.clock, n);
      Refreshed(cfg, t, now);
      hide BinBehind;
      RefreshClears(t.airtime, s.clock, n);
    }
  }

  lemma {:induction false} AllClear(bins: seq<nat>, t: nat)
    requires |bins| == Airtime.BINS && Cleared(bins, t, Airtime.BINS)
    ensures forall j :: 0 <= j < Airtime.BINS ==> bins[j] == 0
  {
    var lo := Airtime.BinOf(t) + 2;
    forall j | 0 <= j < Airtime.BINS
      ensures bins[j] == 0
    {
      var d := (j - lo) % Airtime.BINS;
      AirtimeLaws.ModOffset(lo, j);
      assert SlotBehind(t, d + 2) == j;
    }
  }

  /** An hour of refreshes lifts the lock, whatever was recorded before. */
  lemma {:induction false} HourUnlocks(cfg: Config, s: State) returns (t: State)
    requires Airtime.Shaped(s.airtime) && s.pc.Ready?
    ensures t == RunFrom(cfg, s, Refreshes(s.clock, Airtime.BINS))
    ensures t == s.(airtime := t.airtime, clock := t.clock) && !Airtime.Locked(t.airtime, cfg.limits)
  {
    hide Airtime.Update, Airtime.Locked, Step, Cleared, BinBehind, Run;
    var before := Refreshes(s.clock, Airtime.BINS - 1);
    var last := BinBehind(s.clock, Airtime.BINS);
    var u := RunFrom(cfg, s, before);
    RefreshesClear(cfg, s, Airtime.BINS - 1);
    RefreshesClear(cfg, s, Airtime.BINS);
    RunSnoc(cfg, s, before, Refresh(last));
    t := RunFrom(cfg, s, Refreshes(s.clock, Airtime.BINS));
    assert u.clock <= last by { InOrder(s.clock, Airtime.BINS - 1); }
    Refreshed(cfg, u, last);
    AllClear(t.airtime.bins, s.clock);
    AirtimeLaws.EmptyRingUnlocks(u.airtime, last, cfg.limits);
  }

  // ---- the steps that help ----

  /** The event that helps in every unlocked state but an open one with a packet queued. */
  function Help(s: State): Event {
    var now := s.clock;
    if s.host.rest != [] then HostByte
    else if s.pc.Popping? then Pop(now)
    else if s.modem.radio == Modem.Tx then TxDoneIrq(now)
    else if !s.timers.txEnable then Medium(RxDone, now)
    else Tick(CalmPoll(now))
  }

  predicate Closer(cfg: Config, t: State, s: State) {
    || |t.host.rest| < |s.host.rest|
    || (t.host.rest == s.host.rest && |t.queue| < |s.queue|)
    || (t.host.rest == s.host.rest && |t.queue| == |s.queue| && Phase(cfg, t) < Phase(cfg, s))
  }

  /** The worker is ready for the next packet, and no byte of the host is left to decode. */
  predicate Waits(s: State) {
    s.host.rest == [] && s.pc.Ready?
  }

  lemma {:induction false} HelpTicks(cfg: Config, s: State)
    requires Inv(cfg, s) && Help(s).Tick? && !EndToEnd.Drained(s) && !ListenBeforeTalk.Open(s)
    requires !Airtime.Locked(s.airtime, cfg.limits)
    ensures var t := Step(cfg, s, Help(s));
      t.pc.Popping? && t.host == s.host && t.queue == s.queue && t.modem.aborted == 0
  {
    QueueIsShort(cfg, s);
    hide EndToEnd.HostInv, Airtime.Add;
    assert s.modem.tail == [];
    assert s.timers.flushing;
  }

  lemma {:induction false} ByteHelps(s: State)
    requires s.host.rest != []
    ensures |ByteStep(s).host.rest| < |s.host.rest|
  {
  }

  lemma {:induction false} OtherHelps(cfg: Config, s: State)
    requires Inv(cfg, s) && s.host.rest == [] && !Help(s).Tick?
    ensures var t := Step(cfg, s, Help(s)); Closer(cfg, t, s) && t.modem.aborted == 0
  {
    hide EndToEnd.HostInv, Airtime.Update, Airtime.Locked, Kiss.Decode;
  }

  lemma {:induction false} HelpIsCloser(cfg: Config, s: State)
    requires Inv(cfg, s) && !EndToEnd.Drained(s)
    requires Waits(s) ==> !ListenBeforeTalk.Open(s) && !Airtime.Locked(s.airtime, cfg.limits)
    ensures var t := Step(cfg, s, Help(s)); Closer(cfg, t, s) && t.modem.aborted == 0
  {
    match Help(s)
    case Tick(_) => HelpTicks(cfg, s);
    case HostByte => ByteHelps(s);
    case _ => OtherHelps(cfg, s);
  }

  lemma {:induction false} Helpful(cfg: Config, s: State)
    requires Inv(cfg, s) && !EndToEnd.Drained(s)
    requires Waits(s) ==> !ListenBeforeTalk.Open(s) && !Airtime.Locked(s.airtime, cfg.limits)
    ensures var t := Step(cfg, s, Help(s)); Inv(cfg, t) && Closer(cfg, t, s) && t.host.chunks == s.host.chunks
  {
    hide Inv, Step, Closer;
    HelpIsCloser(cfg, s);
    StepKeepsInv(cfg, s, Help(s));
  }

  function EveryMs(from: nat, n: nat): (ps: seq<Poll>)
    ensures |ps| == n && forall k :: 0 <= k < n ==> ps[k] == CalmPoll(from + 1 + k)
  {
    seq(n, k requires 0 <= k < n => CalmPoll(from + 1 + k))
  }

  lemma {:induction false} EveryMsIsSteady(from: nat, n: nat)
    ensures Progress.Steady(EveryMs(from, n), from, 1)
  {
  }

  /** In an open unlocked state, ticking every millisecond sends the head. */
  lemma {:induction false} Patience(cfg: Config, s: State) returns (es: seq<Event>)
    requires Inv(cfg, s) && ListenBeforeTalk.Open(s) && !Airtime.Locked(s.airtime, cfg.limits)
    ensures NoReads(es) && RunFrom(cfg, s, es).modem.aborted == 0
    ensures var t := RunFrom(cfg, s, es); t.pc.Popping? && t.queue == s.queue && t.host == s.host
  {
    QueueIsShort(cfg, s);
    var n := Progress.Deadline(cfg, s.timers, s.clock, 1) - s.clock;
    var ps := EveryMs(s.clock, n);
    EveryMsIsSteady(s.clock, n);
    hide EndToEnd.HostInv, Ordering.Inv, Progress.Steady, ShortPayloads, PushAll;
    var k := Progress.HeadIsSent(cfg, s, ps, 1);
    es := Progress.Ticks(ps[..k + 1]);
  }

  lemma {:induction false} RefreshesReadNothing(t: nat, n: nat)
    ensures NoReads(Refreshes(t, n))
  {
    if n > 0 { RefreshesReadNothing(t, n - 1); }
  }

  lemma {:induction false} FirstSteps(cfg: Config, s: State) returns (es: seq<Event>)
    requires Inv(cfg, s) && !EndToEnd.Drained(s)
    ensures Inv(cfg, RunFrom(cfg, s, es)) && Closer(cfg, RunFrom(cfg, s, es), s)
    ensures RunFrom(cfg, s, es).host.chunks == s.host.chunks
  {
    if Waits(s) && Airtime.Locked(s.airtime, cfg.limits) {
      es := Refreshes(s.clock, Airtime.BINS);
      var t := HourUnlocks(cfg, s);
      RefreshesReadNothing(s.clock, Airtime.BINS);
      RunKeepsInv(cfg, s, es);
    } else if Waits(s) && ListenBeforeTalk.Open(s) {
      es := Patience(cfg, s);
      RunKeepsInv(cfg, s, es);
    } else {
      Helpful(cfg, s);
      es := [Help(s)];
      RunOne(cfg, s, Help(s));
    }
  }

  lemma {:induction false} CanDrainFrom(cfg: Config, s: State) returns (es: seq<Event>)
    requires Inv(cfg, s)
    ensures EndToEnd.Drained(RunFrom(cfg, s, es)) && RunFrom(cfg, s, es).modem.aborted == 0
    ensures RunFrom(cfg, s, es).host.chunks == s.host.chunks
    decreases |s.host.rest|, |s.queue|, Phase(cfg, s)
  {
    assert Airtime.Shaped(s.airtime);
    hide Inv, Phase, Step;
    if EndToEnd.Drained(s) {
      es := [];
    } else {
      var first := FirstSteps(cfg, s);
      var more := CanDrainFrom(cfg, RunFrom(cfg, s, first));
      es := first + more;
      RunAppend(cfg, s, first, more);
    }
  }

  /** Every run without aborted transmissions whose host has sent short payloads only can be continued
      until the system has drained, and then everything pushed has gone on air. */
  lemma {:induction false} CanDrain(cfg: Config, es: seq<Event>) returns (more: seq<Event>)
    requires Run(cfg, es).modem.aborted == 0 && ShortPayloads(Run(cfg, es).host)
    ensures EndToEnd.Drained(Run(cfg, es + more)) && Run(cfg, es + more).modem.aborted == 0
    ensures Run(cfg, es + more).host.chunks == Run(cfg, es).host.chunks
  {
    ListenBeforeTalk.RunInv(cfg, es);
    Ordering.RunInv(cfg, es);
    EndToEnd.HostRun(cfg, es);
    more := CanDrainFrom(cfg, Run(cfg, es));
    RunContinues(cfg, es, more);
  }

  /** So for every configuration and every list of payloads there are runs of the kind that the
      end-to-end theorem speaks of. */
  lemma {:induction false} SomeRunDelivers(cfg: Config, ps: seq<Packet>) returns (es: seq<Event>)
    ensures EndToEnd.Delivers(Run(cfg, es), Receiver.DataFrames(ps))
  {
    var stream := Kiss.EncodeAll(Receiver.DataFrames(ps));
    var first := [HostRead(stream)];
    RunIsFromInitial(cfg, first);
    RunOne(cfg, Initial(), HostRead(stream));
    FlattenOne(stream);
    EndToEnd.DataFramesFit(ps);
    EndToEnd.DataFramesPushed(ps);
    EndToEnd.DecodedFrames(Receiver.DataFrames(ps), [stream]);
    var more := CanDrain(cfg, first);
    es := first + more;
  }
}
