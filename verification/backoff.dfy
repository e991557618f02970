/**
 * The contention window over whole runs: which random number, in which band, an attempt has waited
 * for. It is read off the list of events and the trace, never off the timers.
 */
module Backoff {
  import opened Bytes
  import opened System
  import opened Contention
  import opened ListenBeforeTalk
  import opened Origins
  import Airtime
  import Modem

  /** The first poll behind the last normal attempt. */
  function CycleStart(tr: seq<Obs>): Option<nat> {
    if tr == [] then None
    else
      var n := |tr| - 1;
      if NormalAttempt(tr[n]) then None
      else if tr[n].Polled? && CycleStart(tr[..n]) == None then Some(n)
      else CycleStart(tr[..n])
  }

  lemma {:induction false} CycleStartIs(tr: seq<Obs>)
    ensures var m := CycleStart(tr);
      && (m.Some? ==>
            && m.value < |tr| && tr[m.value].Polled?
            && forall k :: m.value <= k < |tr| ==> !NormalAttempt(tr[k]))
      && forall j :: 0 <= j < |tr| && tr[j].Polled? && (m.None? || j < m.value) ==>
           exists k :: j < k < |tr| && NormalAttempt(tr[k]) && (m.Some? ==> k < m.value)
  {
    if tr != [] {
      var n := |tr| - 1;
      var before := tr[..n];
      CycleStartIs(before);
      var m := CycleStart(tr);
      forall j | 0 <= j < |tr| && tr[j].Polled? && (m.None? || j < m.value)
        ensures exists k :: j < k < |tr| && NormalAttempt(tr[k]) && (m.Some? ==> k < m.value)
      {
        if NormalAttempt(tr[n]) {
          assert j < n;
        } else {
          assert j < n && before[j] == tr[j];
          var m' := CycleStart(before);
          var k :| j < k < |before| && NormalAttempt(before[k]) && (m'.Some? ==> k < m'.value);
          assert NormalAttempt(tr[k]);
        }
      }
    }
  }

  lemma {:induction false} CycleStartSnoc(tr: seq<Obs>, o: Obs)
    ensures CycleStart(tr + [o]) ==
            if NormalAttempt(o) then None
            else if o.Polled? && CycleStart(tr) == None then Some(|tr|)
            else CycleStart(tr)
  {
    assert (tr + [o])[..|tr|] == tr;
  }

  // ---- one event ----

  /** A number of slots drawn from a band. */
  function Drawn(cfg: Config, cw: Airtime.Band, random: nat): nat
    requires cw.min <= cw.max
  {
    (random % (cw.max - cw.min + 1) + cw.min) * cfg.slot
  }

  /** What a poll does to the window: it is drawn at the first poll of a cycle and used up by an attempt. */
  lemma {:induction false} PollEffect(cfg: Config, s: State, i: Poll)
    requires Inv(cfg, s) && Enabled(s, Tick(i)) && Open(s)
    ensures var t := Step(cfg, s, Tick(i)); var free := !i.interference; var c := s.timers;
      || (&& t.trace == s.trace + [Polled(i.now, free)] && t.timers.picked
          && t.timers.target == if c.picked then c.target else Drawn(cfg, s.airtime.cw, i.random))
      || (&& c.picked && !t.timers.picked && |t.trace| == |s.trace| + 2
          && NormalAttempt(t.trace[|s.trace| + 1]) && t.trace[|s.trace| + 1].target == c.target
          && t.trace == s.trace + [Polled(i.now, true)] + [t.trace[|s.trace| + 1]])
  {
    hide Airtime.Add, Airtime.Locked;
  }

  /** The window is left alone, and neither a poll nor a normal attempt is made. */
  ghost predicate Untouched(s: State, t: State, o: seq<Obs>) {
    && t.timers.picked == s.timers.picked && t.timers.target == s.timers.target
    && t.trace == s.trace + o && |o| <= 1
    && forall j :: |s.trace| <= j < |t.trace| ==> !t.trace[j].Polled? && !NormalAttempt(t.trace[j])
  }

  lemma {:induction false} SkippedTick(cfg: Config, s: State, i: Poll) returns (o: seq<Obs>)
    requires Airtime.Shaped(s.airtime) && Enabled(s, Tick(i)) && !Open(s)
    ensures Untouched(s, TickStep(cfg, s, i), o)
  {
    hide Airtime.Add, Airtime.Locked, Polling;
    if s.modem.radio != Modem.Tx && s.timers.txEnable && s.queue != [] {
      o := [Attempted(i.now, true, 0, !Airtime.Locked(s.airtime, cfg.limits))];
    } else {
      o := [Skipped(i.now)];
    }
  }

  /** Every other event leaves the window alone. */
  lemma {:induction false} OtherEffect(cfg: Config, s: State, e: Event) returns (o: seq<Obs>)
    requires Inv(cfg, s) && Enabled(s, e) && !(e.Tick? && Open(s))
    ensures Untouched(s, Step(cfg, s, e), o)
  {
    match e
    case Tick(i) => o := SkippedTick(cfg, s, i);
    case Medium(cause, now) => {
      hide Inv;
      o := if cause == PreambleDetected then [Preamble(now)] else if cause == HeaderValid then [Header(now)] else [];
    }
    case _ => {
      hide Inv, Airtime.Update, PushAll;
      o := [];
      assert s.trace + [] == s.trace;
    }
  }

  // ---- every run ----

  /** Event n made the poll at m of the trace, and drew the window `target` with its random number from
      the band then in force. */
  predicate DrawnAt(cfg: Config, es: seq<Event>, n: nat, m: nat, target: nat) {
    && Occurs(cfg, es, n) && es[n].Tick?
    && |Run(cfg, es[..n]).trace| == m < |Run(cfg, es[..n + 1]).trace|
    && Run(cfg, es[..n + 1]).trace[m].Polled?
    && target == Drawn(cfg, Run(cfg, es[..n]).airtime.cw, es[n].poll.random)
  }

  lemma {:induction false} DrawnStays(cfg: Config, es: seq<Event>, e: Event, n: nat, m: nat, target: nat)
    requires DrawnAt(cfg, es, n, m, target)
    ensures DrawnAt(cfg, es + [e], n, m, target)
  {
    hide Run, Enabled, Drawn;
    assert (es + [e])[..n] == es[..n] && (es + [e])[..n + 1] == es[..n + 1];
  }

  /** A window is drawn in every cycle that has begun, at its first poll, and in no other. */
  ghost predicate WindowIsDrawn(cfg: Config, es: seq<Event>, n: nat) {
    var s := Run(cfg, es); var start := CycleStart(s.trace);
    && (s.timers.picked <==> start.Some?)
    && (start.Some? ==> DrawnAt(cfg, es, n, start.value, s.timers.target))
  }

  lemma {:induction false} StepDraws(cfg: Config, es: seq<Event>, e: Event, n: nat) returns (n': nat)
    requires Inv(cfg, Run(cfg, es)) && WindowIsDrawn(cfg, es, n) && Enabled(Run(cfg, es), e)
    ensures WindowIsDrawn(cfg, es + [e], n')
  {
    hide Step, Inv, Enabled, Drawn, CycleStart;
    var s, all := Run(cfg, es), es + [e];
    var t := Run(cfg, all);
    assert all[..|es|] == es && all[..|es| + 1] == all;
    n' := n;
    if CycleStart(s.trace).Some? { DrawnStays(cfg, es, e, n, CycleStart(s.trace).value, s.timers.target); }
    if e.Tick? && Open(s) {
      PollEffect(cfg, s, e.poll);
      var p := Polled(e.poll.now, !e.poll.interference);
      CycleStartSnoc(s.trace, p);
      if |t.trace| == |s.trace| + 1 {
        if !s.timers.picked {
          n' := |es|;
          assert t.trace[|s.trace|] == p;
        }
      } else {
        CycleStartSnoc(s.trace + [Polled(e.poll.now, true)], t.trace[|s.trace| + 1]);
      }
    } else {
      var o := OtherEffect(cfg, s, e);
      if o == [] {
        assert t.trace == s.trace;
      } else {
        assert o == [o[0]] && t.trace[|s.trace|] == o[0];
        CycleStartSnoc(s.trace, o[0]);
      }
    }
  }

  lemma {:induction false} RunDraws(cfg: Config, es: seq<Event>) returns (n: nat)
    ensures WindowIsDrawn(cfg, es, n)
    decreases |es|
  {
    n := 0;
    if es != [] {
      var last := |es| - 1;
      var before := es[..last];
      hide Step, Inv, Enabled, DrawnAt;
      n := RunDraws(cfg, before);
      assert es == before + [es[last]];
      RunInv(cfg, before);
      if Enabled(Run(cfg, before), es[last]) {
        n := StepDraws(cfg, before, es[last], n);
      } else {
        DisabledChangesNothing(cfg, Run(cfg, before), es[last]);
        var start := CycleStart(Run(cfg, before).trace);
        if start.Some? { DrawnStays(cfg, before, es[last], n, start.value, Run(cfg, before).timers.target); }
      }
    }
  }

  /** A normal attempt uses up the window of its cycle. */
  lemma {:induction false} AttemptUses(cfg: Config, s: State, e: Event, k: nat)
    requires Inv(cfg, s) && Enabled(s, e)
    requires |s.trace| <= k < |Step(cfg, s, e).trace| && NormalAttempt(Step(cfg, s, e).trace[k])
    ensures var t := Step(cfg, s, e);
      && e.Tick? && s.timers.picked && t.trace[k].target == s.timers.target
      && k == |s.trace| + 1 && t.trace[..k] == s.trace + [Polled(e.poll.now, true)]
  {
    assert Airtime.Shaped(s.airtime);
    hide Step, Inv, Enabled, Drawn;
    var t := Step(cfg, s, e);
    if e.Tick? && Open(s) {
      PollEffect(cfg, s, e.poll);
      if |t.trace| == |s.trace| + 2 {
        assert t.trace[|s.trace|] == Polled(e.poll.now, true);
        assert t.trace[..k] == s.trace + [Polled(e.poll.now, true)];
      }
    } else {
      var o := OtherEffect(cfg, s, e);
    }
  }

  /**
   * The window of every normal attempt, in every run: its slot count is the random number that the
   * event of the cycle's first poll carried, folded into the band in force at that event.
   */
  lemma {:induction false} WindowOfAttempt(cfg: Config, es: seq<Event>, k: nat) returns (n: nat)
    requires k < |Run(cfg, es).trace| && NormalAttempt(Run(cfg, es).trace[k])
    ensures var tr := Run(cfg, es).trace; var start := CycleStart(tr[..k]);
      && start.Some? && start.value < k - 1
      && Occurs(cfg, es, n) && es[n].Tick? && |Run(cfg, es[..n]).trace| == start.value
      && var cw := Run(cfg, es[..n]).airtime.cw;
         tr[k].target == (es[n].poll.random % (cw.max - cw.min + 1) + cw.min) * cfg.slot
  {
    hide Step, Inv, Enabled, CycleStart;
    var tr := Run(cfg, es).trace;
    var a := Origin(cfg, es, k);
    var before := es[..a];
    var s := Run(cfg, before);
    RunTakes(cfg, es, a);
    RunInv(cfg, before);
    AttemptUses(cfg, s, es[a], k);
    var t := Run(cfg, es[..a + 1]);
    assert tr[k] == t.trace[k] && tr[..k] == t.trace[..k];
    n := RunDraws(cfg, before);
    CycleStartSnoc(s.trace, Polled(es[a].poll.now, true));
    CycleStartIs(s.trace);
    assert before[..n] == es[..n] && before[..n + 1] == es[..n + 1];
  }

  // ---- the wait ----

  /** When no poll of the cycle was busy, the block of free polls is the cycle. */
  lemma {:induction false} ClearCycleIsBlock(tr: seq<Obs>)
    requires CycleClear(tr)
    ensures BlockStart(tr) == CycleStart(tr)
  {
    if tr != [] && !NormalAttempt(tr[|tr| - 1]) { ClearCycleIsBlock(tr[..|tr| - 1]); }
  }

  lemma {:induction false} BlockSpans(cfg: Config, tr: seq<Obs>, k: nat, i: nat)
    requires 0 < k < |tr| && i < k && BlockStart(tr[..k]) == Some(i)
    requires tr[k - 1] == Polled(tr[k].t, true) && tr[k].Attempted? && Credit(tr[..k], cfg.difs) >= tr[k].target
    requires CycleClear(tr[..k]) && tr[k].t - tr[i].t >= cfg.difs
    ensures tr[k].t - tr[i].t >= cfg.difs + tr[k].target
  {
    var past := tr[..k];
    CreditWithinBlock(past, cfg.difs);
    assert past[k - 1] == tr[k - 1] && past[i] == tr[i];
  }

  /**
   * So the time behind a DIFS that a cycle has been credited with reaches that many slots, and when no
   * poll of the cycle was busy, a DIFS and that many slots lie between its first poll and the attempt.
   */
  lemma {:induction false} BacksOff(cfg: Config, es: seq<Event>, k: nat) returns (n: nat)
    requires k < |Run(cfg, es).trace| && NormalAttempt(Run(cfg, es).trace[k])
    ensures Occurs(cfg, es, n) && es[n].Tick?
    ensures var tr := Run(cfg, es).trace; var start := CycleStart(tr[..k]); var cw := Run(cfg, es[..n]).airtime.cw;
      var slots := es[n].poll.random % (cw.max - cw.min + 1) + cw.min;
      && start.Some? && start.value < k && |Run(cfg, es[..n]).trace| == start.value
      && Credit(tr[..k], cfg.difs) >= slots * cfg.slot
      && (CycleClear(tr[..k]) ==> tr[k].t - tr[start.value].t >= cfg.difs + slots * cfg.slot)
  {
    hide Step, Inv, Enabled, Credit, CycleClear, CycleStart, BlockStart;
    n := WindowOfAttempt(cfg, es, k);
    var tr := Run(cfg, es).trace;
    var i := ListenedBeforeTalk(cfg, es, k);
    if CycleClear(tr[..k]) {
      ClearCycleIsBlock(tr[..k]);
      CreditWithinBlock(tr[..k], cfg.difs);
      BlockSpans(cfg, tr, k, i);
    }
  }
}
