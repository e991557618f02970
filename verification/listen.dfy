/**
 * Listen before talk over whole runs: what the history of polls and radio events shows whenever the
 * queue worker sends. The history functions look at the trace only, never at the timers.
 */
module ListenBeforeTalk {
  import opened Bytes
  import opened System
  import opened Contention
  import Airtime
  import Modem

  // ---- reading the trace ----

  predicate Carrier(o: Obs) {
    o.Preamble? || o.Header?
  }

  predicate NormalAttempt(o: Obs) {
    o.Attempted? && !o.flush
  }

  /** The poll that began the current unbroken block of polls finding the medium free. */
  function BlockStart(tr: seq<Obs>): Option<nat> {
    if tr == [] then None
    else
      var n := |tr| - 1;
      if NormalAttempt(tr[n]) || (tr[n].Polled? && !tr[n].free) then None
      else if tr[n].Polled? && BlockStart(tr[..n]) == None then Some(n)
      else BlockStart(tr[..n])
  }

  lemma {:induction false} BlockStartIs(tr: seq<Obs>)
    ensures BlockStart(tr).Some? ==>
      var i := BlockStart(tr).value;
      && i < |tr| && tr[i].Polled?
      && (forall j :: i <= j < |tr| ==> !NormalAttempt(tr[j]) && (tr[j].Polled? ==> tr[j].free))
  {
    if tr != [] { BlockStartIs(tr[..|tr| - 1]); }
  }

  /** When the current block began. */
  function FreeSince(tr: seq<Obs>): Option<nat> {
    BlockStartIs(tr);
    if BlockStart(tr).Some? then Some(tr[BlockStart(tr).value].t) else None
  }

  /** The time of the latest poll, if by then its block had lasted a DIFS. */
  function LastReady(tr: seq<Obs>, difs: nat): Option<nat> {
    if tr == [] then None
    else
      var n := |tr| - 1;
      if tr[n].Polled? || NormalAttempt(tr[n]) then
        if tr[n].Polled? && tr[n].free && FreeSince(tr[..n]).Some? && tr[n].t - FreeSince(tr[..n]).value >= difs
        then Some(tr[n].t) else None
      else LastReady(tr[..n], difs)
  }

  /** The gaps between consecutive free polls behind a DIFS, summed since the last normal attempt. */
  function Credit(tr: seq<Obs>, difs: nat): int {
    if tr == [] then 0
    else
      var n := |tr| - 1;
      var before := Credit(tr[..n], difs);
      if NormalAttempt(tr[n]) then 0
      else if tr[n].Polled? && tr[n].free && LastReady(tr[..n], difs).Some?
      then before + (tr[n].t - LastReady(tr[..n], difs).value)
      else before
  }

  function Millis(o: Option<nat>): nat {
    if o.Some? then o.value else 0
  }

  // ---- the reachable-state invariant ----

  predicate Idle(c: Timers) {
    c.since == 0 && c.start == 0 && c.passed == 0 && !c.picked
  }

  /** The largest contention window: band 4, slot 59. */
  function WindowMax(cfg: Config): nat {
    59 * cfg.slot
  }

  ghost predicate TimersInv(cfg: Config, s: State) {
    var c := s.timers;
    && Airtime.Shaped(s.airtime)
    && s.clock > 0
    && c.dcd == !c.txEnable
    && (s.pc.Popping? ==> s.queue != [])
    && (s.queue == [] || s.pc.Popping? || c.flushing ==> Idle(c))
    && c.since <= s.clock
    && (c.since != 0 ==> c.picked)
    && (c.start != 0 ==> 0 < c.since && c.since + cfg.difs <= c.start <= s.clock)
    && 0 <= c.passed
    && (c.passed > 0 ==> c.picked)
    && (c.picked ==> c.target <= WindowMax(cfg) && (c.passed == 0 || c.passed < c.target))
  }

  /** The timers say what the trace says. */
  ghost predicate TraceInv(cfg: Config, s: State) {
    && s.timers.since == Millis(FreeSince(s.trace))
    && s.timers.start == Millis(LastReady(s.trace, cfg.difs))
    && s.timers.passed == Credit(s.trace, cfg.difs)
    && (forall i :: 0 <= i < |s.trace| ==> 0 < s.trace[i].t <= s.clock)
  }

  /** The state in which the next worker iteration is sure to ask for the medium. */
  predicate Open(s: State) {
    s.pc.Ready? && s.queue != [] && s.timers.txEnable && !s.timers.flushing && s.modem.radio != Modem.Tx
  }

  /** From poll j on, neither a carrier nor a normal attempt. */
  predicate Quiet(tr: seq<Obs>, j: nat) {
    && j < |tr| && tr[j].Polled?
    && forall k :: j <= k < |tr| ==> !Carrier(tr[k]) && !NormalAttempt(tr[k])
  }

  ghost predicate QuietInv(s: State) {
    forall j: nat :: Quiet(s.trace, j) ==> Open(s) && forall k :: j <= k < |s.trace| ==> s.trace[k].Polled?
  }

  /** Some normal-mode attempt in tr, with no preamble since. */
  predicate FlushLicensed(tr: seq<Obs>) {
    exists j :: 0 <= j < |tr| && NormalAttempt(tr[j]) && forall k :: j <= k < |tr| ==> !tr[k].Preamble?
  }

  // ---- what every attempt in the trace satisfies ----

  /** The attempt at k, as its past shows it. */
  ghost predicate AttemptJustified(cfg: Config, tr: seq<Obs>, k: nat)
    requires k < |tr| && tr[k].Attempted?
  {
    var past := tr[..k];
    if tr[k].flush then FlushLicensed(past)
    else
      && past != [] && past[k - 1] == Polled(tr[k].t, true)
      && BlockStart(past).Some?
      && tr[k].t - Millis(FreeSince(past)) >= cfg.difs
      && Credit(past, cfg.difs) >= tr[k].target
      && (forall j: nat :: Quiet(past, j) ==> forall i :: j <= i < k ==> past[i].Polled?)
  }

  ghost predicate AttemptsInv(cfg: Config, s: State) {
    && (forall k :: 0 <= k < |s.trace| && s.trace[k].Attempted? ==> AttemptJustified(cfg, s.trace, k))
    && (s.timers.flushing ==> FlushLicensed(s.trace))
  }

  ghost predicate Inv(cfg: Config, s: State) {
    TimersInv(cfg, s) && TraceInv(cfg, s) && QuietInv(s) && AttemptsInv(cfg, s)
  }

  // ---- appending to the trace ----

  lemma {:induction false} Snoc(tr: seq<Obs>, o: Obs)
    ensures (tr + [o])[..|tr|] == tr && (tr + [o])[|tr|] == o
  {
  }

  lemma {:induction false} AttemptsSnoc(cfg: Config, tr: seq<Obs>, o: Obs)
    requires forall k :: 0 <= k < |tr| && tr[k].Attempted? ==> AttemptJustified(cfg, tr, k)
    requires o.Attempted? ==> AttemptJustified(cfg, tr + [o], |tr|)
    ensures forall k :: 0 <= k < |tr + [o]| && (tr + [o])[k].Attempted? ==> AttemptJustified(cfg, tr + [o], k)
  {
    forall k | 0 <= k < |tr + [o]| && (tr + [o])[k].Attempted?
      ensures AttemptJustified(cfg, tr + [o], k)
    {
      if k < |tr| { assert (tr + [o])[..k] == tr[..k]; }
    }
  }

  lemma {:induction false} LicenseSnoc(tr: seq<Obs>, o: Obs)
    requires (FlushLicensed(tr) && !o.Preamble?) || NormalAttempt(o)
    ensures FlushLicensed(tr + [o])
  {
    var tr' := tr + [o];
    if NormalAttempt(o) {
      assert NormalAttempt(tr'[|tr|]);
    } else {
      var j :| 0 <= j < |tr| && NormalAttempt(tr[j]) && forall k :: j <= k < |tr| ==> !tr[k].Preamble?;
      assert NormalAttempt(tr'[j]);
    }
  }

  lemma {:induction false} QuietSnoc(tr: seq<Obs>, o: Obs, j: nat)
    requires Quiet(tr + [o], j)
    ensures j == |tr| || Quiet(tr, j)
    ensures !Carrier(o) && !NormalAttempt(o)
  {
    var tr' := tr + [o];
    assert tr'[|tr|] == o;
    if j < |tr| {
      forall k | j <= k < |tr|
        ensures !Carrier(tr[k]) && !NormalAttempt(tr[k])
      {
        assert tr'[k] == tr[k];
      }
    }
  }

  lemma {:induction false} NoneQuiet(tr: seq<Obs>, o: Obs)
    requires !o.Polled?
    requires Carrier(o) || NormalAttempt(o) || forall j: nat :: !Quiet(tr, j)
    ensures forall j: nat :: !Quiet(tr + [o], j)
  {
    forall j: nat
      ensures !Quiet(tr + [o], j)
    {
      Snoc(tr, o);
      if Quiet(tr + [o], j) { QuietSnoc(tr, o, j); }
    }
  }

  /** An observation that is neither a poll nor a normal attempt changes none of the readings. */
  lemma {:induction false} NeutralSnoc(tr: seq<Obs>, o: Obs, difs: nat)
    requires !o.Polled? && !NormalAttempt(o)
    ensures FreeSince(tr + [o]) == FreeSince(tr)
    ensures LastReady(tr + [o], difs) == LastReady(tr, difs)
    ensures Credit(tr + [o], difs) == Credit(tr, difs)
  {
    Snoc(tr, o);
    BlockStartIs(tr);
  }

  lemma {:induction false} NormalAttemptSnoc(tr: seq<Obs>, o: Obs, difs: nat)
    requires NormalAttempt(o)
    ensures FreeSince(tr + [o]) == None && LastReady(tr + [o], difs) == None && Credit(tr + [o], difs) == 0
  {
    Snoc(tr, o);
  }

  lemma {:induction false} PolledSnoc(tr: seq<Obs>, t: nat, free: bool, difs: nat)
    ensures var tr' := tr + [Polled(t, free)];
      && FreeSince(tr') == (if !free then None else if FreeSince(tr).Some? then FreeSince(tr) else Some(t))
      && LastReady(tr', difs) ==
           (if free && FreeSince(tr).Some? && t - FreeSince(tr).value >= difs then Some(t) else None)
      && Credit(tr', difs) ==
           Credit(tr, difs) + (if free && LastReady(tr, difs).Some? then t - LastReady(tr, difs).value else 0)
  {
    Snoc(tr, Polled(t, free));
    BlockStartIs(tr);
  }

  // ---- the steps ----

  /** An event that leaves the trace and the timers' running part alone. */
  lemma {:induction false} QuietStep(cfg: Config, s: State, s': State)
    requires Inv(cfg, s) && TimersInv(cfg, s')
    requires s'.trace == s.trace && s'.clock >= s.clock
    requires s'.timers.since == s.timers.since && s'.timers.start == s.timers.start
    requires s'.timers.passed == s.timers.passed
    requires s'.timers.flushing ==> s.timers.flushing
    requires Open(s) ==> Open(s')
    ensures Inv(cfg, s')
  {
  }

  /** An event that adds a neutral observation while no poll is sure to come next, or a carrier. */
  lemma {:induction false} NeutralStep(cfg: Config, s: State, s': State, o: Obs)
    requires Inv(cfg, s) && TimersInv(cfg, s')
    requires s'.trace == s.trace + [o] && s'.clock >= s.clock && 0 < o.t <= s'.clock
    requires !o.Polled? && !NormalAttempt(o)
    requires s'.timers.since == s.timers.since && s'.timers.start == s.timers.start
    requires s'.timers.passed == s.timers.passed
    requires s'.timers.flushing ==> s.timers.flushing && !o.Preamble?
    requires Carrier(o) || !Open(s)
    requires o.Attempted? ==> s.timers.flushing
    ensures Inv(cfg, s')
  {
    NeutralSnoc(s.trace, o, cfg.difs);
    assert TraceInv(cfg, s');
    Snoc(s.trace, o);
    AttemptsSnoc(cfg, s.trace, o);
    if s'.timers.flushing { LicenseSnoc(s.trace, o); }
    NoneQuiet(s.trace, o);
  }

  lemma {:induction false} OtherEvents(cfg: Config, s: State, e: Event)
    requires Inv(cfg, s) && Enabled(s, e) && !e.Tick?
    ensures Inv(cfg, Step(cfg, s, e))
  {
    hide TickStep, Airtime.Update, PushAll, FreeSince, LastReady, Credit, QuietInv, AttemptsInv;
    var s' := Step(cfg, s, e);
    match e
    case HostRead(_) => QuietStep(cfg, s, s');
    case HostByte => QuietStep(cfg, s, s');
    case Pop(_) => QuietStep(cfg, s, s');
    case Refresh(_) => QuietStep(cfg, s, s');
    case TxDoneIrq(_) => QuietStep(cfg, s, s');
    case Restart(_) => QuietStep(cfg, s, s');
    case Medium(cause, now) =>
      match cause
      case PreambleDetected => NeutralStep(cfg, s, s', Preamble(now));
      case HeaderValid => NeutralStep(cfg, s, s', Header(now));
      case _ => QuietStep(cfg, s, s');
  }

  lemma {:induction false} WindowBounded(cfg: Config, s: State, i: Poll)
    requires Airtime.Shaped(s.airtime)
    ensures Window(cfg, s, i) <= WindowMax(cfg)
  {
    var cw := s.airtime.cw;
    var n := i.random % (cw.max - cw.min + 1) + cw.min;
    assert n <= 59;
    MulMonotone(n, 59, cfg.slot);
  }

  /** A tick that does not ask for the medium and does not send in flush mode. */
  lemma {:induction false} SkippedTick(cfg: Config, s: State, i: Poll)
    requires Inv(cfg, s) && Enabled(s, Tick(i))
    requires s.modem.radio == Modem.Tx || !s.timers.txEnable || s.queue == []
    ensures Inv(cfg, TickStep(cfg, s, i))
  {
    NeutralStep(cfg, s, TickStep(cfg, s, i), Skipped(i.now));
  }

  lemma {:induction false} FlushTick(cfg: Config, s: State, i: Poll)
    requires Inv(cfg, s) && Enabled(s, Tick(i))
    requires s.modem.radio != Modem.Tx && s.timers.txEnable && s.queue != [] && s.timers.flushing
    ensures Inv(cfg, TickStep(cfg, s, i))
  {
    var s' := TickStep(cfg, s, i);
    var o := s'.trace[|s.trace|];
    assert s'.trace == s.trace + [o];
    Snoc(s.trace, o);
    NeutralStep(cfg, s, s', o);
  }

  lemma {:induction false} ReadyInTrace(tr: seq<Obs>, difs: nat)
    ensures LastReady(tr, difs).Some? ==> exists i :: 0 <= i < |tr| && tr[i].t == LastReady(tr, difs).value
  {
    if tr != [] { ReadyInTrace(tr[..|tr| - 1], difs); }
  }

  lemma {:induction false} TimesPositive(cfg: Config, s: State)
    requires TraceInv(cfg, s)
    ensures FreeSince(s.trace).Some? ==> FreeSince(s.trace).value > 0
    ensures LastReady(s.trace, cfg.difs).Some? ==> LastReady(s.trace, cfg.difs).value > 0
  {
    BlockStartIs(s.trace);
    ReadyInTrace(s.trace, cfg.difs);
  }

  /** The poll of an open state, before any attempt. */
  lemma {:induction false} PollTrace(cfg: Config, s: State, now: nat, free: bool, window: nat)
    requires TimersInv(cfg, s) && TraceInv(cfg, s) && s.clock <= now
    ensures var tr := s.trace + [Polled(now, free)];
            var r := Listen(s.timers, now, free, window, cfg.difs, cfg.flush);
            if r.1 then
              && free && FreeSince(tr).Some? && now - FreeSince(tr).value >= cfg.difs
              && Credit(tr, cfg.difs) >= Pick(s.timers, window).target
            else
              && r.0.since == Millis(FreeSince(tr))
              && r.0.start == Millis(LastReady(tr, cfg.difs))
              && r.0.passed == Credit(tr, cfg.difs)
  {
    PolledSnoc(s.trace, now, free, cfg.difs);
    TimesPositive(cfg, s);
  }

  lemma {:induction false} PolledKeepsQuiet(s: State, o: Obs)
    requires QuietInv(s) && o.Polled?
    ensures forall j: nat :: Quiet(s.trace + [o], j) ==>
              forall k :: j <= k < |s.trace + [o]| ==> (s.trace + [o])[k].Polled?
  {
    var tr' := s.trace + [o];
    Snoc(s.trace, o);
    forall j: nat | Quiet(tr', j)
      ensures forall k :: j <= k < |tr'| ==> tr'[k].Polled?
    {
      QuietSnoc(s.trace, o, j);
    }
  }

  /** A normal-mode poll, without the attempt it may lead to. */
  lemma {:induction false} PollKeepsTimers(cfg: Config, s: State, i: Poll)
    requires Inv(cfg, s) && Enabled(s, Tick(i)) && Open(s)
    ensures TimersInv(cfg, Polling(cfg, s.(clock := i.now), i).state)
  {
    WindowBounded(cfg, s, i);
  }

  lemma {:induction false} PollWaits(cfg: Config, s: State, i: Poll)
    requires Inv(cfg, s) && Enabled(s, Tick(i)) && Open(s)
    requires !Polling(cfg, s.(clock := i.now), i).send
    ensures Inv(cfg, TickStep(cfg, s, i))
  {
    var l := Polling(cfg, s.(clock := i.now), i);
    var free := MediumFree(s.timers, i.interference);
    var o := Polled(i.now, free);
    PollKeepsTimers(cfg, s, i);
    PollTrace(cfg, s, i.now, free, Window(cfg, s, i));
    Snoc(s.trace, o);
    PolledKeepsQuiet(s, o);
    AttemptsSnoc(cfg, s.trace, o);
  }

  /** An attempt in normal mode, as the trace up to its poll shows it. */
  lemma {:induction false} AttemptFromPoll(cfg: Config, s: State, i: Poll, sent: bool)
    requires Inv(cfg, s) && Enabled(s, Tick(i)) && Open(s)
    requires Polling(cfg, s.(clock := i.now), i).send
    ensures var l := Polling(cfg, s.(clock := i.now), i);
            var tr := s.trace + [Polled(i.now, true)];
            var o := Attempted(i.now, false, l.target, sent);
            && l.state.trace == tr
            && AttemptJustified(cfg, tr + [o], |tr|)
            && (forall k :: 0 <= k < |tr + [o]| && (tr + [o])[k].Attempted? ==> AttemptJustified(cfg, tr + [o], k))
  {
    var l := Polling(cfg, s.(clock := i.now), i);
    var free := MediumFree(s.timers, i.interference);
    var p := Polled(i.now, true);
    var tr := s.trace + [p];
    var o := Attempted(i.now, false, l.target, sent);
    PollTrace(cfg, s, i.now, free, Window(cfg, s, i));
    Snoc(s.trace, p);
    Snoc(tr, o);
    PolledKeepsQuiet(s, p);
    AttemptsSnoc(cfg, s.trace, p);
    AttemptsSnoc(cfg, tr, o);
  }

  /** send_packet leaves the timers idle; it may only clear `flushing`. */
  lemma {:induction false} SendTimers(cfg: Config, s: State, i: Poll)
    requires Inv(cfg, s) && Enabled(s, Tick(i)) && Open(s)
    requires Polling(cfg, s.(clock := i.now), i).send
    ensures TimersInv(cfg, TickStep(cfg, s, i)) && Idle(TickStep(cfg, s, i).timers)
  {
    PollKeepsTimers(cfg, s, i);
  }

  lemma {:induction false} SendTrace(cfg: Config, s: State, i: Poll) returns (sent: bool)
    requires Inv(cfg, s) && Enabled(s, Tick(i)) && Open(s)
    requires Polling(cfg, s.(clock := i.now), i).send
    ensures var l := Polling(cfg, s.(clock := i.now), i);
      TickStep(cfg, s, i).trace == s.trace + [Polled(i.now, true)] + [Attempted(i.now, false, l.target, sent)]
    ensures TickStep(cfg, s, i).clock >= i.now
  {
    sent := !Airtime.Locked(s.airtime, cfg.limits);
  }

  lemma {:induction false} AfterAttempt(cfg: Config, s: State, tr: seq<Obs>, o: Obs)
    requires NormalAttempt(o) && s.trace == tr + [o]
    requires TimersInv(cfg, s) && Idle(s.timers)
    requires forall k :: 0 <= k < |s.trace| && s.trace[k].Attempted? ==> AttemptJustified(cfg, s.trace, k)
    requires forall k :: 0 <= k < |s.trace| ==> 0 < s.trace[k].t <= s.clock
    ensures Inv(cfg, s)
  {
    NormalAttemptSnoc(tr, o, cfg.difs);
    LicenseSnoc(tr, o);
    NoneQuiet(tr, o);
  }

  lemma {:induction false} PollSends(cfg: Config, s: State, i: Poll)
    requires Inv(cfg, s) && Enabled(s, Tick(i)) && Open(s)
    requires Polling(cfg, s.(clock := i.now), i).send
    ensures Inv(cfg, TickStep(cfg, s, i))
  {
    var l := Polling(cfg, s.(clock := i.now), i);
    var sent := SendTrace(cfg, s, i);
    AttemptFromPoll(cfg, s, i, sent);
    SendTimers(cfg, s, i);
    AfterAttempt(cfg, TickStep(cfg, s, i), s.trace + [Polled(i.now, true)],
                 Attempted(i.now, false, l.target, sent));
  }

  lemma {:induction false} StepInv(cfg: Config, s: State, e: Event)
    requires Inv(cfg, s)
    ensures Inv(cfg, Step(cfg, s, e))
  {
    if Enabled(s, e) {
      if !e.Tick? {
        OtherEvents(cfg, s, e);
      } else if Open(s) {
        if Polling(cfg, s.(clock := e.poll.now), e.poll).send {
          PollSends(cfg, s, e.poll);
        } else {
          PollWaits(cfg, s, e.poll);
        }
      } else if s.timers.txEnable && s.queue != [] && s.modem.radio != Modem.Tx {
        FlushTick(cfg, s, e.poll);
      } else {
        SkippedTick(cfg, s, e.poll);
      }
    }
  }

  lemma {:induction false} RunInv(cfg: Config, es: seq<Event>)
    ensures Inv(cfg, Run(cfg, es))
    decreases |es|
  {
    if es != [] {
      RunInv(cfg, es[..|es| - 1]);
      StepInv(cfg, Run(cfg, es[..|es| - 1]), es[|es| - 1]);
    }
  }

  // ---- theorems ----

  /** The automaton's invariant in every reachable state. */
  lemma {:induction false} AutomatonInvariant(cfg: Config, es: seq<Event>)
    ensures var s := Run(cfg, es); var c := s.timers;
      && (c.dcd <==> !c.txEnable)
      && (s.queue == [] || c.flushing ==> c.since == 0 && c.start == 0 && c.passed == 0 && !c.picked)
      && (c.start != 0 ==> 0 < c.since <= c.start <= s.clock)
      && 0 <= c.passed && (c.passed > 0 ==> c.picked && c.passed < c.target)
      && (c.picked ==> c.target <= 59 * cfg.slot)
  {
    RunInv(cfg, es);
  }

  /**
   * Listen before talk. Every normal-mode attempt directly follows a poll that found the medium free;
   * it ends a block of polls that all found it free and that lasts at least a DIFS; and the gaps
   * between consecutive free polls behind a DIFS, summed over the whole cycle since the last
   * normal attempt, reach the window drawn. From any poll since which there was no preamble or header
   * event on, every worker iteration asked for the medium.
   */
  lemma {:induction false} ListenedBeforeTalk(cfg: Config, es: seq<Event>, k: nat) returns (i: nat)
    requires k < |Run(cfg, es).trace| && NormalAttempt(Run(cfg, es).trace[k])
    ensures var tr := Run(cfg, es).trace;
      && i < k && tr[i].Polled? && tr[k - 1] == Polled(tr[k].t, true)
      && BlockStart(tr[..k]) == Some(i)
      && (forall j :: i <= j < k && tr[j].Polled? ==> tr[j].free)
      && tr[k].t - tr[i].t >= cfg.difs
      && Credit(tr[..k], cfg.difs) >= tr[k].target
      && (forall j: nat :: Quiet(tr[..k], j) ==> forall n :: j <= n < k ==> tr[n].Polled?)
  {
    RunInv(cfg, es);
    var tr := Run(cfg, es).trace;
    assert AttemptJustified(cfg, tr, k);
    BlockStartIs(tr[..k]);
    i := BlockStart(tr[..k]).value;
    assert tr[..k][k - 1] == tr[k - 1] && tr[..k][i] == tr[i];
    forall j | i <= j < k && tr[j].Polled?
      ensures tr[j].free
    {
      assert tr[..k][j] == tr[j];
    }
    forall j: nat | Quiet(tr[..k], j)
      ensures forall n :: j <= n < k ==> tr[n].Polled?
    {
      forall n | j <= n < k
        ensures tr[n].Polled?
      {
        assert tr[..k][n].Polled?;
      }
    }
  }

  /** No poll since the last normal attempt found the medium busy. */
  predicate CycleClear(tr: seq<Obs>) {
    if tr == [] then true
    else
      var n := |tr| - 1;
      NormalAttempt(tr[n]) || (!(tr[n].Polled? && !tr[n].free) && CycleClear(tr[..n]))
  }

  lemma {:induction false} CreditWithinBlock(tr: seq<Obs>, difs: nat)
    requires CycleClear(tr)
    ensures LastReady(tr, difs).Some? ==>
      FreeSince(tr).Some? && Credit(tr, difs) <= LastReady(tr, difs).value - FreeSince(tr).value - difs
    ensures LastReady(tr, difs).None? ==> Credit(tr, difs) <= 0
    decreases |tr|
  {
    if tr != [] {
      var n := |tr| - 1;
      assert tr == tr[..n] + [tr[n]];
      if NormalAttempt(tr[n]) {
        NormalAttemptSnoc(tr[..n], tr[n], difs);
      } else {
        CreditWithinBlock(tr[..n], difs);
        if tr[n].Polled? {
          PolledSnoc(tr[..n], tr[n].t, true, difs);
        } else {
          NeutralSnoc(tr[..n], tr[n], difs);
        }
      }
    }
  }

  /** So when no poll of the cycle was busy, a DIFS and the whole window lie between its first free
      poll and the attempt. */
  lemma {:induction false} WaitsInFull(cfg: Config, es: seq<Event>, k: nat) returns (i: nat)
    requires k < |Run(cfg, es).trace| && NormalAttempt(Run(cfg, es).trace[k])
    requires CycleClear(Run(cfg, es).trace[..k])
    ensures var tr := Run(cfg, es).trace;
      && i < k && tr[i] == Polled(tr[i].t, true)
      && (forall j :: i <= j < k && tr[j].Polled? ==> tr[j].free)
      && tr[k].t - tr[i].t >= cfg.difs + tr[k].target
  {
    var tr := Run(cfg, es).trace;
    i := ListenedBeforeTalk(cfg, es, k);
    CreditWithinBlock(tr[..k], cfg.difs);
    assert tr[..k][|tr[..k]| - 1] == Polled(tr[k].t, true);
    assert tr[..k][i] == tr[i];
  }

  /** Every flush-mode attempt follows a normal-mode one with no preamble in between. */
  lemma {:induction false} FlushFollowsListening(cfg: Config, es: seq<Event>, k: nat) returns (j: nat)
    requires k < |Run(cfg, es).trace|
    requires Run(cfg, es).trace[k].Attempted? && Run(cfg, es).trace[k].flush
    ensures var tr := Run(cfg, es).trace;
      j < k && NormalAttempt(tr[j]) && forall n :: j <= n < k ==> !tr[n].Preamble?
  {
    RunInv(cfg, es);
    var tr := Run(cfg, es).trace;
    assert AttemptJustified(cfg, tr, k);
    var past := tr[..k];
    j :| 0 <= j < |past| && NormalAttempt(past[j]) && forall n :: j <= n < |past| ==> !past[n].Preamble?;
    forall n | j <= n < k
      ensures !tr[n].Preamble?
    {
      assert past[n] == tr[n];
    }
  }
}
