/**
 The probing mesh: agent reports, evictions, configuration reloads, the per-region overlay and
 the per-source reads, in any interleaving of their critical sections (pkg/server/healthdot.go
 and pkg/server/pool.go together).

 `Begin` is the deep copy of the index that starts a round of `updatePool`; every `Step` is one
 region's critical section. `overlaid` records the regions overlaid from the current snapshot since
 the last reload; it and `cfgs`, `snapshot`, `remaining` describe where the actors are.
 */
module Mesh {
  import opened Common
  import opened Keys
  import opened Pool
  import L = Liveness
  import C = TtlCache

  datatype State = State(
    health: L.State,
    cfgs: seq<ProberConfig>,   // the configuration last loaded
    pool: Pool,
    snapshot: L.Index,
    remaining: set<Str>,
    overlaid: set<Str>)

  datatype Event =
    | Health(event: L.Event)
    | Load(cfgs: seq<ProberConfig>)
    | Begin
    | Step(region: Str, targets: seq<Str>)

  const INIT := State(L.INIT, [], map[], map[], {}, {})

  ghost predicate Enabled(s: State, e: Event) {
    match e
    case Health(h) => L.WellKeyed(s.health) && L.Enabled(s.health, h)
    case Load(_) => true
    case Begin => s.remaining == {} && L.Unlocked(s.health)
    case Step(region, targets) =>
      region in s.remaining && region in s.snapshot && ListsOnce(targets, s.snapshot[region])
  }

  ghost function Apply(s: State, e: Event, ttl: int): State
    requires Enabled(s, e)
  {
    match e
    case Health(h) => s.(health := L.Apply(s.health, h, ttl))
    case Load(cfgs) => s.(cfgs := cfgs, pool := LoadFold(cfgs), overlaid := {})
    case Begin => s.(snapshot := s.health.index, remaining := s.health.index.Keys, overlaid := {})
    case Step(region, targets) =>
      s.(pool := UpdateRegion(s.pool, region, targets),
         remaining := s.remaining - {region},
         overlaid := s.overlaid + {region})
  }

  ghost predicate StepAt(ss: seq<State>, es: seq<Event>, ttl: int, i: int)
    requires |ss| == |es| + 1 && 0 <= i < |es|
  {
    Enabled(ss[i], es[i]) && ss[i + 1] == Apply(ss[i], es[i], ttl)
  }

  /** `ss` is the run over the events `es`. */
  ghost predicate Behavior(ss: seq<State>, es: seq<Event>, ttl: int) {
    && |ss| == |es| + 1
    && ss[0] == INIT
    && forall i :: 0 <= i < |es| ==> StepAt(ss, es, ttl, i)
  }

  // ----- configured entries -----

  ghost predicate ConfigKept(s: State) {
    forall r, t :: t != ICMP ==> Lookup(s.pool, r, t) == LastMatch(s.cfgs, r, t)
  }

  lemma ConfigKeptStep(s: State, e: Event, ttl: int)
    requires ConfigKept(s) && Enabled(s, e)
    ensures ConfigKept(Apply(s, e, ttl))
  {
    match e
    case Load(cfgs) => LoadIsLastWins(cfgs);
    case Step(region, targets) => UpdateRegionEffect(s.pool, region, targets, s.snapshot[region]);
    case _ =>
  }

  /** Discovery never disturbs another prober type: in every reachable state each non-icmp lookup
      is the last matching item of the configuration last loaded. */
  lemma {:induction false} ConfigSurvivesDiscovery(ss: seq<State>, es: seq<Event>, ttl: int, n: nat)
    requires Behavior(ss, es, ttl) && n <= |es|
    ensures ConfigKept(ss[n])
  {
    if n > 0 {
      ConfigSurvivesDiscovery(ss, es, ttl, n - 1);
      assert StepAt(ss, es, ttl, n - 1);
      ConfigKeptStep(ss[n - 1], es[n - 1], ttl);
    } else {
      LoadIsLastWins([]);
    }
  }

  lemma LoadedWellTyped(cfgs: seq<ProberConfig>)
    ensures WellTyped(LoadFold(cfgs))
  {
    LoadIsLastWins(cfgs);
    var pool: Pool := LoadFold(cfgs);
    forall r, t | r in pool && t in pool[r] ensures pool[r][t].region == r && pool[r][t].proberType == t {
      assert Lookup(pool, r, t) == LastMatch(cfgs, r, t);
      var i :| LastMatchAt(cfgs, r, t, i) && pool[r][t] == cfgs[i];
    }
  }

  /** Every entry of every reachable pool carries its own region and prober type. */
  lemma {:induction false} EntriesWellTyped(ss: seq<State>, es: seq<Event>, ttl: int, n: nat)
    requires Behavior(ss, es, ttl) && n <= |es|
    ensures WellTyped(ss[n].pool)
  {
    if n > 0 {
      EntriesWellTyped(ss, es, ttl, n - 1);
      assert StepAt(ss, es, ttl, n - 1);
      if es[n - 1].Load? {
        LoadedWellTyped(es[n - 1].cfgs);
      }
    }
  }

  /** Static discovery never starts a round; then the pool is exactly the loaded configuration. */
  lemma {:induction false} StaticPoolIsConfig(ss: seq<State>, es: seq<Event>, ttl: int, n: nat)
    requires Behavior(ss, es, ttl) && n <= |es|
    requires forall i :: 0 <= i < |es| ==> !es[i].Begin?
    ensures ss[n].pool == LoadFold(ss[n].cfgs) && ss[n].remaining == {}
  {
    if n > 0 {
      StaticPoolIsConfig(ss, es, ttl, n - 1);
      assert StepAt(ss, es, ttl, n - 1);
    }
  }

  // ----- discovered entries -----

  /** The regions already overlaid hold exactly their snapshot's addresses. */
  ghost predicate OverlaidExact(s: State) {
    && s.remaining <= s.snapshot.Keys
    && forall r :: r in s.overlaid ==> r in s.snapshot && IcmpIs(s.pool, r, s.snapshot[r])
  }

  lemma OverlaidExactStep(s: State, e: Event, ttl: int)
    requires OverlaidExact(s) && Enabled(s, e)
    ensures OverlaidExact(Apply(s, e, ttl))
  {
    if e.Step? {
      UpdateRegionEffect(s.pool, e.region, e.targets, s.snapshot[e.region]);
      var s' := Apply(s, e, ttl);
      forall r | r in s'.overlaid && r != e.region ensures IcmpIs(s'.pool, r, s.snapshot[r]) {
        assert IcmpIs(s.pool, r, s.snapshot[r]);
      }
    }
  }

  lemma {:induction false} OverlaidAlwaysExact(ss: seq<State>, es: seq<Event>, ttl: int, n: nat)
    requires Behavior(ss, es, ttl) && n <= |es|
    ensures OverlaidExact(ss[n])
  {
    if n > 0 {
      OverlaidAlwaysExact(ss, es, ttl, n - 1);
      assert StepAt(ss, es, ttl, n - 1);
      OverlaidExactStep(ss[n - 1], es[n - 1], ttl);
    }
  }

  /** Event `b` starts a round, and neither a reload nor another round comes before state `n`. */
  ghost predicate RoundSince(es: seq<Event>, b: int, n: int) {
    && 0 <= b < n <= |es| && es[b].Begin?
    && forall i :: b < i < n ==> !es[i].Begin? && !es[i].Load?
  }

  lemma {:induction false} RoundProgress(ss: seq<State>, es: seq<Event>, ttl: int, b: nat, n: nat)
    requires Behavior(ss, es, ttl) && RoundSince(es, b, n)
    ensures ss[n].snapshot == ss[b].health.index
    ensures ss[n].overlaid == ss[n].snapshot.Keys - ss[n].remaining
    decreases n
  {
    assert StepAt(ss, es, ttl, n - 1);
    if n > b + 1 {
      RoundProgress(ss, es, ttl, b, n - 1);
      OverlaidAlwaysExact(ss, es, ttl, n - 1);
    }
  }

  /** Soundness and completeness of the mesh: once a round has visited every region of its
      snapshot, with no reload in between but anything else interleaved, each source is handed
      for each region of the snapshot exactly the addresses the index held when the round began,
      without duplicates, and no icmp entry for a region that was offline. */
  lemma MeshIsExact(ss: seq<State>, es: seq<Event>, ttl: int, b: nat, n: nat,
                    view: map<Str, seq<ProberConfig>>, probeSelf: bool, source: Str, region: Str)
    requires Behavior(ss, es, ttl) && RoundSince(es, b, n) && ss[n].remaining == {}
    requires IsView(view, ss[n].pool, probeSelf, source)
    requires region in ss[b].health.index && (probeSelf || region != source)
    ensures SeesExactly(view, region, ss[b].health.index[region])
  {
    RoundProgress(ss, es, ttl, b, n);
    OverlaidAlwaysExact(ss, es, ttl, n);
    EntriesWellTyped(ss, es, ttl, n);
    ViewSeesIcmp(view, ss[n].pool, probeSelf, source, region, ss[b].health.index[region]);
  }

  // ----- provenance -----

  ghost predicate Reported(es: seq<Event>, n: nat, region: Str, ip: Str) {
    exists i :: 0 <= i < n && i < |es| && es[i].Health? && L.Reports(es[i].event, region, ip)
  }

  ghost predicate AllReported(es: seq<Event>, n: nat, index: L.Index) {
    forall r, ip :: r in index && ip in index[r] ==> Reported(es, n, r, ip)
  }

  /** An icmp entry is either the configured one or lists only addresses agents reported. */
  ghost predicate FromConfigOrReports(s: State, es: seq<Event>, n: nat) {
    forall r :: Lookup(s.pool, r, ICMP).Some? && Lookup(s.pool, r, ICMP) != LastMatch(s.cfgs, r, ICMP) ==>
      forall i :: 0 <= i < |Lookup(s.pool, r, ICMP).value.targets| ==>
        Reported(es, n, r, Lookup(s.pool, r, ICMP).value.targets[i])
  }

  lemma ReportedMonotone(es: seq<Event>, n: nat, index: L.Index)
    requires AllReported(es, n, index)
    ensures AllReported(es, n + 1, index)
  {
    forall r, ip | r in index && ip in index[r] ensures Reported(es, n + 1, r, ip) {
      assert Reported(es, n, r, ip);
    }
  }

  lemma IndexReportedStep(s: State, es: seq<Event>, n: nat, ttl: int)
    requires n < |es| && Enabled(s, es[n])
    requires AllReported(es, n, s.health.index) && AllReported(es, n, s.snapshot)
    ensures AllReported(es, n + 1, Apply(s, es[n], ttl).health.index)
    ensures AllReported(es, n + 1, Apply(s, es[n], ttl).snapshot)
  {
    ReportedMonotone(es, n, s.snapshot);
    ReportedMonotone(es, n, s.health.index);
    if es[n].Health? {
      var index' := L.Apply(s.health, es[n].event, ttl).index;
      forall r, ip | r in index' && ip in index'[r] ensures Reported(es, n + 1, r, ip) {
        L.IndexGrowsByReports(s.health, es[n].event, ttl, r, ip);
        assert L.InIndex(s.health.index, r, ip) ==> Reported(es, n, r, ip);
      }
    }
  }

  lemma ProvenanceStep(s: State, es: seq<Event>, n: nat, ttl: int)
    requires n < |es| && Enabled(s, es[n])
    requires AllReported(es, n, s.snapshot) && FromConfigOrReports(s, es, n)
    ensures FromConfigOrReports(Apply(s, es[n], ttl), es, n + 1)
  {
    match es[n]
    case Load(cfgs) => LoadIsLastWins(cfgs);
    case Step(region, targets) =>
      var s' := Apply(s, es[n], ttl);
      UpdateRegionEffect(s.pool, region, targets, s.snapshot[region]);
      forall r, i | Lookup(s'.pool, r, ICMP).Some? && Lookup(s'.pool, r, ICMP) != LastMatch(s'.cfgs, r, ICMP)
          && 0 <= i < |Lookup(s'.pool, r, ICMP).value.targets|
        ensures Reported(es, n + 1, r, Lookup(s'.pool, r, ICMP).value.targets[i])
      {
        assert Reported(es, n, r, Lookup(s'.pool, r, ICMP).value.targets[i]);
      }
    case _ =>
  }

  /** No address is invented: in every reachable state an icmp target of a region comes from the
      loaded configuration or was reported earlier by an agent of that very region. */
  lemma {:induction false} TargetsHaveProvenance(ss: seq<State>, es: seq<Event>, ttl: int, n: nat)
    requires Behavior(ss, es, ttl) && n <= |es|
    ensures AllReported(es, n, ss[n].health.index) && AllReported(es, n, ss[n].snapshot)
    ensures FromConfigOrReports(ss[n], es, n)
  {
    if n > 0 {
      TargetsHaveProvenance(ss, es, ttl, n - 1);
      assert StepAt(ss, es, ttl, n - 1);
      IndexReportedStep(ss[n - 1], es, n - 1, ttl);
      ProvenanceStep(ss[n - 1], es, n - 1, ttl);
    }
  }

  // ----- from reports to targets -----

  function HealthOf(e: Event): L.Event {
    if e.Health? then e.event else L.Idle
  }

  function HealthEvents(es: seq<Event>): (hs: seq<L.Event>)
    ensures |hs| == |es| && forall i :: 0 <= i < |es| ==> hs[i] == HealthOf(es[i])
  {
    seq(|es|, i requires 0 <= i < |es| => HealthOf(es[i]))
  }

  ghost function HealthStates(ss: seq<State>): (hs: seq<L.State>)
    ensures |hs| == |ss| && forall i :: 0 <= i < |ss| ==> hs[i] == ss[i].health
  {
    seq(|ss|, i requires 0 <= i < |ss| => ss[i].health)
  }

  lemma {:induction false} HealthWellKeyed(ss: seq<State>, es: seq<Event>, ttl: int, n: nat)
    requires Behavior(ss, es, ttl) && n <= |es|
    ensures L.WellKeyed(ss[n].health)
  {
    if n > 0 {
      HealthWellKeyed(ss, es, ttl, n - 1);
      assert StepAt(ss, es, ttl, n - 1);
    }
  }

  /** The liveness part of a mesh behaviour is a liveness behaviour. */
  lemma HealthBehavior(ss: seq<State>, es: seq<Event>, ttl: int)
    requires Behavior(ss, es, ttl)
    ensures L.Behavior(HealthStates(ss), HealthEvents(es), ttl)
  {
    forall i | 0 <= i < |es| ensures L.StepAt(HealthStates(ss), HealthEvents(es), ttl, i) {
      HealthWellKeyed(ss, es, ttl, i);
      assert StepAt(ss, es, ttl, i);
    }
  }

  /** Some icmp entry handed out for `region` lists `ip`. */
  ghost predicate Probes(view: map<Str, seq<ProberConfig>>, region: Str, ip: Str) {
    && region in view
    && exists i :: 0 <= i < |view[region]| && view[region][i].proberType == ICMP && ip in view[region][i].targets
  }

  lemma SeesMeansProbes(view: map<Str, seq<ProberConfig>>, region: Str, ips: set<Str>, ip: Str)
    requires SeesExactly(view, region, ips)
    ensures Probes(view, region, ip) <==> ip in ips
  {
    if ips != {} {
      var i :| OnlyIcmp(view[region], i, ips);
      assert ip in ips <==> ip in view[region][i].targets;
    }
  }

  /** End to end, under one-step eviction: after a completed round a source probes an agent's
      address exactly when, at the round's start, no sweep had come more than the cache lifetime
      after that agent's last report. */
  lemma MeshIsLiveSet(ss: seq<State>, es: seq<Event>, ttl: int, b: nat, n: nat,
                      view: map<Str, seq<ProberConfig>>, probeSelf: bool, source: Str, region: Str, ip: Str)
    requires Behavior(ss, es, ttl) && RoundSince(es, b, n) && ss[n].remaining == {}
    requires L.OneStep(HealthEvents(es)) && L.SepFreeReports(HealthEvents(es))
    requires IsView(view, ss[n].pool, probeSelf, source)
    requires region in ss[b].health.index && (probeSelf || region != source)
    requires SepFree(region) && SepFree(ip)
    ensures Probes(view, region, ip) <==>
      C.Present(L.Ops(HealthEvents(es)[..b]), L.KeyOf(region, ip), ttl)
  {
    MeshIsExact(ss, es, ttl, b, n, view, probeSelf, source, region);
    SeesMeansProbes(view, region, ss[b].health.index[region], ip);
    HealthBehavior(ss, es, ttl);
    L.DiscoverableExactly(HealthStates(ss), HealthEvents(es), ttl, b, region, ip);
  }

  /** The same under the code's own two-step eviction, where sweep and callback interleave with
      everything else: after a completed round a source probes an address exactly when, by the
      round's start, no callback for it had run after some report of it. */
  lemma MeshUnderTwoStepEviction(ss: seq<State>, es: seq<Event>, ttl: int, b: nat, n: nat,
                                 view: map<Str, seq<ProberConfig>>, probeSelf: bool, source: Str, region: Str, ip: Str)
    requires Behavior(ss, es, ttl) && RoundSince(es, b, n) && ss[n].remaining == {}
    requires L.SepFreeReports(HealthEvents(es))
    requires forall i :: 0 <= i < |es| ==> !HealthEvents(es)[i].Expire?
    requires IsView(view, ss[n].pool, probeSelf, source)
    requires region in ss[b].health.index && (probeSelf || region != source)
    requires SepFree(region) && SepFree(ip)
    ensures Probes(view, region, ip) <==> L.ReportedSinceCallback(HealthEvents(es), b, region, ip)
  {
    MeshIsExact(ss, es, ttl, b, n, view, probeSelf, source, region);
    SeesMeansProbes(view, region, ss[b].health.index[region], ip);
    HealthBehavior(ss, es, ttl);
    L.IndexExactly(HealthStates(ss), HealthEvents(es), ttl, b, region, ip);
  }
}
