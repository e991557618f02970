/** Which event of a run left which observation in the trace. */
module Origins {
  import opened System
  import Airtime
  import Progress

  /** Event n of the run is enabled when its turn comes. */
  predicate Occurs(cfg: Config, es: seq<Event>, n: nat) {
    n < |es| && Enabled(Run(cfg, es[..n]), es[n])
  }

  lemma {:induction false} RunTakes(cfg: Config, es: seq<Event>, n: nat)
    requires n < |es|
    ensures Run(cfg, es[..n + 1]) == Step(cfg, Run(cfg, es[..n]), es[n])
  {
    hide Step;
    assert es[..n + 1][..n] == es[..n];
  }

  lemma {:induction false} DisabledChangesNothing(cfg: Config, s: State, e: Event)
    requires Airtime.Shaped(s.airtime) && !Enabled(s, e)
    ensures Step(cfg, s, e) == s
  {
  }

  lemma {:induction false} Prefixes(es: seq<Event>, e: Event, n: nat)
    requires n <= |es|
    ensures (es + [e])[..n] == es[..n]
  {
  }

  /** Observation k was made at event n, and it has stayed. */
  predicate MadeAt(cfg: Config, es: seq<Event>, k: nat, n: nat) {
    && Occurs(cfg, es, n)
    && |Run(cfg, es[..n]).trace| <= k < |Run(cfg, es[..n + 1]).trace|
    && Run(cfg, es[..n + 1]).trace <= Run(cfg, es).trace
  }

  lemma {:induction false} Origin(cfg: Config, es: seq<Event>, k: nat) returns (n: nat)
    requires k < |Run(cfg, es).trace|
    ensures MadeAt(cfg, es, k, n)
    decreases |es|
  {
    hide Step;
    var last := |es| - 1;
    var before := es[..last];
    Progress.TraceGrows(cfg, Run(cfg, before), es[last]);
    assert es[..last + 1] == es;
    if k < |Run(cfg, before).trace| {
      n := Origin(cfg, before, k);
      assert before[..n] == es[..n] && before[..n + 1] == es[..n + 1];
    } else {
      n := last;
      if !Enabled(Run(cfg, before), es[last]) { DisabledChangesNothing(cfg, Run(cfg, before), es[last]); }
    }
  }
}
