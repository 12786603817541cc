/** Only the threads that act matter: a run is also a run of the configuration
    without its idle threads, with the same states and the same atomic run. A
    condition on threads is therefore needed of the acting ones alone. */
module Acting {
  import opened Words
  import opened AtomicRuns
  import opened Interleaving
  import opened Stories
  import opened Probes
  import opened Outputs
  import opened Pairing
  import opened RingOrder
  import opened Overlap

  /** The threads that take a step. */
  function Actors(steps: seq<KStep>): set<u32> {
    set i | 0 <= i < |steps| && !steps[i].Consume? :: steps[i].t
  }

  /** The configuration without the threads outside `ts`. */
  function Only(cfg: Config, ts: set<u32>): Config {
    cfg.(threads := cfg.threads * ts)
  }

  function ActingOnly(cfg: Config, steps: seq<KStep>): Config {
    Only(cfg, Actors(steps))
  }

  lemma StepRestricts(cfg: Config, ts: set<u32>, s: KState, st: KStep)
    requires Enabled(cfg, s, st) && (st.Consume? || st.t in ts)
    ensures Enabled(Only(cfg, ts), s, st) && Apply(Only(cfg, ts), s, st) == Apply(cfg, s, st)
    ensures Completes(Only(cfg, ts), s, st) == Completes(cfg, s, st)
  {
  }

  lemma {:induction false} RunRestricts(cfg: Config, ts: set<u32>, steps: seq<KStep>)
    requires IsRun(cfg, steps) && Actors(steps) <= ts
    ensures IsRun(Only(cfg, ts), steps) && After(Only(cfg, ts), steps) == After(cfg, steps)
    ensures Linearize(Only(cfg, ts), steps) == Linearize(cfg, steps)
  {
    if steps == [] {
      assert KInit(Only(cfg, ts)) == KInit(cfg);
    } else {
      var n := |steps| - 1;
      assert forall i | 0 <= i < n :: steps[..n][i] == steps[i];
      RunRestricts(cfg, ts, steps[..n]);
      StepRestricts(cfg, ts, After(cfg, steps[..n]), steps[n]);
    }
  }

  /** The run of the acting threads. */
  lemma RunOfActors(cfg: Config, steps: seq<KStep>)
    requires IsRun(cfg, steps)
    ensures var only := ActingOnly(cfg, steps);
            IsRun(only, steps) && After(only, steps) == After(cfg, steps)
            && Linearize(only, steps) == Linearize(cfg, steps)
  {
    RunRestricts(cfg, Actors(steps), steps);
  }

  /** Refinement, for runs in which no two acting threads share a key. */
  lemma ActorsRefine(cfg: Config, steps: seq<KStep>)
    requires IsRun(cfg, steps) && OneThreadPerKey(ActingOnly(cfg, steps))
    ensures KInv(ActingOnly(cfg, steps), After(cfg, steps))
    ensures Simulates(After(cfg, steps), Exec(cfg.capacity, Linearize(cfg, steps)))
    ensures InputsKept(cfg, steps)
  {
    RunOfActors(cfg, steps);
    Refinement(ActingOnly(cfg, steps), steps);
    InputsAreKept(cfg, steps);
  }

  /** What the steps report does not depend on which threads exist. */
  lemma SameReports(cfg: Config, ts: set<u32>, steps: seq<KStep>, es: seq<LatencyEvent>, g: seq<Places>)
    requires StepMatching(Only(cfg, ts), steps, es, g)
    ensures StepMatching(cfg, steps, es, g)
  {
    forall m | 0 <= m < |es| ensures ReportsSteps(cfg, steps, es[m], g[m]) {
      assert ReportsSteps(Only(cfg, ts), steps, es[m], g[m]);
    }
  }

  /** In a run in which no two acting threads share a key, the outputs have
      requests of their own and report their true times. */
  lemma ActorsMatch(cfg: Config, steps: seq<KStep>) returns (f: seq<Pair>, g: seq<Places>)
    requires IsRun(cfg, steps) && OneThreadPerKey(ActingOnly(cfg, steps))
    ensures Matching(Linearize(cfg, steps), Events(After(cfg, steps).attempts), f)
    ensures TrueTimes(Linearize(cfg, steps), Events(After(cfg, steps).attempts), f)
    ensures StepMatching(cfg, steps, Events(After(cfg, steps).attempts), g)
    ensures forall m | 0 <= m < |g| :: After(cfg, steps).attempts[m].ok <==> !steps[g[m].output].full
  {
    RunOfActors(cfg, steps);
    f, g := AttemptsMatch(ActingOnly(cfg, steps), steps);
    SameReports(cfg, Actors(steps), steps, Events(After(cfg, steps).attempts), g);
  }

  /** Any first part of the accepted records of such a run does so too. */
  lemma ActorsSent(cfg: Config, steps: seq<KStep>, part: seq<LatencyEvent>)
    returns (f: seq<Pair>, g: seq<Places>)
    requires IsRun(cfg, steps) && OneThreadPerKey(ActingOnly(cfg, steps))
    requires part <= Sent(After(cfg, steps).attempts)
    ensures Matching(Linearize(cfg, steps), part, f) && TrueTimes(Linearize(cfg, steps), part, f)
    ensures StepMatching(cfg, steps, part, g)
  {
    RunOfActors(cfg, steps);
    f, g := SentOneToOne(ActingOnly(cfg, steps), steps, part);
    SameReports(cfg, Actors(steps), steps, part, g);
  }

  /** If moreover the map has a slot for the key of every acting thread, the
      output of the run is explained. */
  lemma ActorsExplained(cfg: Config, steps: seq<KStep>)
    requires IsRun(cfg, steps) && OneThreadPerKey(ActingOnly(cfg, steps))
    requires |UsedKeys(ActingOnly(cfg, steps))| <= cfg.capacity
    ensures Explained(cfg, steps)
  {
    var only := ActingOnly(cfg, steps);
    RunOfActors(cfg, steps);
    FitsKeepsSlack(only, steps);
    SlackExplains(only, steps);
  }

  /** A run of a single acting thread leaves at most 15 records per CPU
      unannounced, unless the ring refused a forced one. */
  lemma ActorAnnounced(cfg: Config, steps: seq<KStep>)
    requires IsRun(cfg, steps) && AtMostOneThread(ActingOnly(cfg, steps))
    ensures Announced(cfg, steps)
  {
    var only := ActingOnly(cfg, steps);
    RunOfActors(cfg, steps);
    SingleAnnounced(only, steps);
  }
}
