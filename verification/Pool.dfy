/**
 The target pool: pkg/server/pool.go as functions of its value.

 The pool maps a region and a prober type to one probe configuration. `LoadPool` rebuilds it from
 the configuration file; once a minute `updatePool` overlays, region by region, the icmp entry
 with the addresses that agents reported.
 */
module Pool {
  import opened Common
  import opened Keys

  datatype ICMPProbe = ICMPProbe(payloadSize: int, packetCount: int, intervalMs: int)

  /** `http` stands for the HTTP probe settings, which the pool only carries around. */
  datatype ProberConfig = ProberConfig(
    proberType: Str, region: Str, targets: seq<Str>, http: Option<nat>, icmp: Option<ICMPProbe>)

  type Entries = map<Str, ProberConfig>
  type Pool = map<Str, Entries>

  const ICMP: Str := [0x69, 0x63, 0x6D, 0x70]
  const DEFAULT_ICMP_PROBE := ICMPProbe(64, 64, 15)

  function Lookup(pool: Pool, region: Str, proberType: Str): Option<ProberConfig> {
    if region in pool && proberType in pool[region] then Some(pool[region][proberType]) else None
  }

  /** `ts` lists each element of `xs` exactly once: what ranging over a Go map yields. */
  ghost predicate ListsOnce(ts: seq<Str>, xs: set<Str>) {
    && (forall i :: 0 <= i < |ts| ==> ts[i] in xs)
    && (forall x :: x in xs ==> x in ts)
    && (forall i, j :: 0 <= i < j < |ts| ==> ts[i] != ts[j])
  }

  lemma ListedEmpty(ts: seq<Str>, xs: set<Str>)
    requires ListsOnce(ts, xs)
    ensures ts == [] <==> xs == {}
  {
    assert ts != [] ==> ts[0] in xs;
    if xs != {} {
      var x :| x in xs;
      assert x in ts;
    }
  }

  // ----- loading -----

  predicate Matches(pc: ProberConfig, region: Str, proberType: Str) {
    pc.region == region && pc.proberType == proberType
  }

  ghost predicate LastMatchAt(cfgs: seq<ProberConfig>, region: Str, proberType: Str, i: int) {
    && 0 <= i < |cfgs| && Matches(cfgs[i], region, proberType)
    && forall j :: i < j < |cfgs| ==> !Matches(cfgs[j], region, proberType)
  }

  /** The last configured item with this region and type. */
  function LastMatch(cfgs: seq<ProberConfig>, region: Str, proberType: Str): (o: Option<ProberConfig>)
    ensures o.None? ==> forall i :: 0 <= i < |cfgs| ==> !Matches(cfgs[i], region, proberType)
    ensures o.Some? ==> exists i :: LastMatchAt(cfgs, region, proberType, i) && o.value == cfgs[i]
  {
    if cfgs == [] then None
    else if Matches(cfgs[|cfgs| - 1], region, proberType) then
      assert LastMatchAt(cfgs, region, proberType, |cfgs| - 1);
      Some(cfgs[|cfgs| - 1])
    else
      var o := LastMatch(cfgs[..|cfgs| - 1], region, proberType);
      assert forall i :: LastMatchAt(cfgs[..|cfgs| - 1], region, proberType, i) ==>
        LastMatchAt(cfgs, region, proberType, i);
      o
  }

  predicate Mentions(cfgs: seq<ProberConfig>, region: Str) {
    exists i :: 0 <= i < |cfgs| && cfgs[i].region == region
  }

  function AddEntry(pool: Pool, pc: ProberConfig): Pool {
    pool[pc.region := (if pc.region in pool then pool[pc.region] else map[])[pc.proberType := pc]]
  }

  function LoadFold(cfgs: seq<ProberConfig>): Pool {
    if cfgs == [] then map[] else AddEntry(LoadFold(cfgs[..|cfgs| - 1]), cfgs[|cfgs| - 1])
  }

  /** What a load promises: the configured regions, and for each type the last item wins. */
  ghost predicate IsLastWins(pool: Pool, cfgs: seq<ProberConfig>) {
    && (forall r :: r in pool <==> Mentions(cfgs, r))
    && (forall r, t :: Lookup(pool, r, t) == LastMatch(cfgs, r, t))
  }

  lemma {:induction false} LoadIsLastWins(cfgs: seq<ProberConfig>)
    ensures IsLastWins(LoadFold(cfgs), cfgs)
  {
    if cfgs != [] {
      var before, pc := cfgs[..|cfgs| - 1], cfgs[|cfgs| - 1];
      LoadIsLastWins(before);
      forall r ensures r in LoadFold(cfgs) <==> Mentions(cfgs, r) {
        assert Mentions(cfgs, r) <==> Mentions(before, r) || pc.region == r;
      }
      forall r, t ensures Lookup(LoadFold(cfgs), r, t) == LastMatch(cfgs, r, t) {
        assert Lookup(LoadFold(before), r, t) == LastMatch(before, r, t);
      }
    }
  }

  /** Nothing else does: the last-wins promise determines the pool. */
  lemma LastWinsUnique(p: Pool, cfgs: seq<ProberConfig>)
    requires IsLastWins(p, cfgs)
    ensures p == LoadFold(cfgs)
  {
    var q := LoadFold(cfgs);
    LoadIsLastWins(cfgs);
    forall r ensures r in p <==> r in q {
    }
    forall r | r in p ensures p[r] == q[r] {
      forall t ensures t in p[r] <==> t in q[r] {
        assert Lookup(p, r, t) == Lookup(q, r, t);
      }
      forall t | t in p[r] ensures p[r][t] == q[r][t] {
        assert Lookup(p, r, t) == Lookup(q, r, t);
      }
    }
  }

  // ----- overlaying -----

  function Discovered(region: Str, targets: seq<Str>): ProberConfig {
    ProberConfig(ICMP, region, targets, None, Some(DEFAULT_ICMP_PROBE))
  }

  /** One region's critical section of `updatePool`, the addresses having been listed as `targets`. */
  function UpdateRegion(pool: Pool, region: Str, targets: seq<Str>): Pool {
    if targets == [] then
      if region !in pool then pool
      else if |pool[region]| > 0 then pool[region := pool[region] - {ICMP}]
      else pool - {region}
    else if region in pool then pool[region := pool[region][ICMP := Discovered(region, targets)]]
    else pool[region := map[ICMP := Discovered(region, targets)]]
  }

  /** The icmp entry of `region` is exactly the addresses `ips`: one entry listing them without
      duplicates, or none when there are none. */
  ghost predicate IcmpIs(pool: Pool, region: Str, ips: set<Str>) {
    if ips == {} then Lookup(pool, region, ICMP) == None
    else
      && Lookup(pool, region, ICMP).Some?
      && Lookup(pool, region, ICMP).value == Discovered(region, Lookup(pool, region, ICMP).value.targets)
      && ListsOnce(Lookup(pool, region, ICMP).value.targets, ips)
  }

  /** One overlay step fixes its own region's icmp entry and disturbs no other lookup. */
  lemma UpdateRegionEffect(pool: Pool, region: Str, targets: seq<Str>, ips: set<Str>)
    requires ListsOnce(targets, ips)
    ensures IcmpIs(UpdateRegion(pool, region, targets), region, ips)
    ensures forall r, t :: (r != region || t != ICMP) ==>
      Lookup(UpdateRegion(pool, region, targets), r, t) == Lookup(pool, r, t)
  {
    ListedEmpty(targets, ips);
  }

  // ----- rounds -----

  /** A region's entries after a round in which it was listed as `ts[region]`. */
  function RegionAfter(pool: Pool, ts: map<Str, seq<Str>>, region: Str): Option<Entries> {
    var current := if region in pool then pool[region] else map[];
    if region !in ts then (if region in pool then Some(current) else None)
    else if ts[region] != [] then Some(current[ICMP := Discovered(region, ts[region])])
    else if current != map[] then Some(current - {ICMP})
    else None
  }

  /** A whole round, said at once and without an order on the regions. */
  function RoundResult(pool: Pool, ts: map<Str, seq<Str>>): Pool {
    map r | r in pool.Keys + ts.Keys && RegionAfter(pool, ts, r).Some? :: RegionAfter(pool, ts, r).value
  }

  function RunSteps(pool: Pool, steps: seq<(Str, seq<Str>)>): Pool {
    if steps == [] then pool
    else
      var last := steps[|steps| - 1];
      UpdateRegion(RunSteps(pool, steps[..|steps| - 1]), last.0, last.1)
  }

  /** `steps` visits each region of `ts` once, with its listed targets. */
  ghost predicate Visits(steps: seq<(Str, seq<Str>)>, ts: map<Str, seq<Str>>) {
    && (forall i :: 0 <= i < |steps| ==> steps[i].0 in ts && ts[steps[i].0] == steps[i].1)
    && (forall r :: r in ts ==> exists i :: 0 <= i < |steps| && steps[i].0 == r)
    && (forall i, j :: 0 <= i < j < |steps| ==> steps[i].0 != steps[j].0)
  }

  /** A step's effect on the entries of each region. */
  lemma StepRegions(pool: Pool, region: Str, targets: seq<Str>)
    ensures var q := UpdateRegion(pool, region, targets);
      && (forall r :: r != region ==> (r in q <==> r in pool) && (r in q ==> q[r] == pool[r]))
      && (region in q <==> RegionAfter(pool, map[region := targets], region).Some?)
      && (region in q ==> q[region] == RegionAfter(pool, map[region := targets], region).value)
  {
    if region in pool {
      assert |pool[region]| == 0 <==> pool[region] == map[];
    }
  }

  lemma RoundStep(pool: Pool, ts: map<Str, seq<Str>>, region: Str, targets: seq<Str>)
    requires region !in ts
    ensures UpdateRegion(RoundResult(pool, ts), region, targets) == RoundResult(pool, ts[region := targets])
  {
    var mid := RoundResult(pool, ts);
    var p, q := UpdateRegion(mid, region, targets), RoundResult(pool, ts[region := targets]);
    StepRegions(mid, region, targets);
    assert RegionAfter(mid, map[region := targets], region) == RegionAfter(pool, ts[region := targets], region);
    forall r ensures (r in p <==> r in q) && (r in p ==> p[r] == q[r]) {
      if r != region {
        assert RegionAfter(pool, ts[region := targets], r) == RegionAfter(pool, ts, r);
      }
    }
  }

  lemma VisitsPrefix(steps: seq<(Str, seq<Str>)>, ts: map<Str, seq<Str>>)
    requires Visits(steps, ts) && steps != []
    ensures var last := steps[|steps| - 1];
      && last.0 in ts && ts[last.0] == last.1
      && Visits(steps[..|steps| - 1], ts - {last.0})
      && (ts - {last.0})[last.0 := last.1] == ts
  {
    var n := |steps| - 1;
    forall r | r in ts && r != steps[n].0 ensures exists i :: 0 <= i < n && steps[..n][i].0 == r {
      var i :| 0 <= i < |steps| && steps[i].0 == r;
      assert i < n && steps[..n][i].0 == r;
    }
  }

  lemma EmptyRound(pool: Pool)
    ensures RoundResult(pool, map[]) == pool
  {
  }

  /** Confluence: a round's result does not depend on the order its regions are visited in. */
  lemma {:induction false} RoundAnyOrder(pool: Pool, steps: seq<(Str, seq<Str>)>, ts: map<Str, seq<Str>>)
    requires Visits(steps, ts)
    ensures RunSteps(pool, steps) == RoundResult(pool, ts)
    decreases |steps|
  {
    if steps == [] {
      assert ts == map[];
      EmptyRound(pool);
    } else {
      var n := |steps| - 1;
      VisitsPrefix(steps, ts);
      RoundAnyOrder(pool, steps[..n], ts - {steps[n].0});
      RoundStep(pool, ts - {steps[n].0}, steps[n].0, steps[n].1);
    }
  }

  /** Equal up to the order inside a target list. */
  ghost predicate SameEntry(a: ProberConfig, b: ProberConfig) {
    && a.(targets := []) == b.(targets := [])
    && (a.targets == b.targets || exists ips :: ListsOnce(a.targets, ips) && ListsOnce(b.targets, ips))
  }

  ghost predicate SamePool(p: Pool, q: Pool) {
    && p.Keys == q.Keys
    && forall r :: r in p ==> SameEntries(p[r], q[r])
  }

  ghost predicate SameEntries(a: Entries, b: Entries) {
    a.Keys == b.Keys && forall t :: t in a ==> SameEntry(a[t], b[t])
  }

  /** `ts` lists the addresses of every region of the snapshot. */
  ghost predicate Lists(ts: map<Str, seq<Str>>, snapshot: map<Str, set<Str>>) {
    ts.Keys == snapshot.Keys && forall r :: r in snapshot ==> ListsOnce(ts[r], snapshot[r])
  }

  /** Two rounds over one snapshot differ at most in the order inside target lists. */
  lemma RoundUpToOrder(pool: Pool, ts: map<Str, seq<Str>>, us: map<Str, seq<Str>>, snapshot: map<Str, set<Str>>)
    requires Lists(ts, snapshot) && Lists(us, snapshot)
    ensures SamePool(RoundResult(pool, ts), RoundResult(pool, us))
  {
    var p, q := RoundResult(pool, ts), RoundResult(pool, us);
    forall r ensures r in p <==> r in q {
      if r in snapshot {
        ListedEmpty(ts[r], snapshot[r]);
        ListedEmpty(us[r], snapshot[r]);
      }
    }
    forall r | r in p ensures SameEntries(p[r], q[r]) {
      if r in snapshot {
        ListedEmpty(ts[r], snapshot[r]);
        ListedEmpty(us[r], snapshot[r]);
        assert ListsOnce(ts[r], snapshot[r]) && ListsOnce(us[r], snapshot[r]);
      }
    }
  }

  /** An offline region whose only entry is icmp: a round empties it, the next one removes it. */
  ghost predicate Lingers(pool: Pool, snapshot: map<Str, set<Str>>, region: Str) {
    region in snapshot && snapshot[region] == {} && region in pool && pool[region].Keys == {ICMP}
  }

  lemma AfterRound(pool: Pool, ts: map<Str, seq<Str>>, snapshot: map<Str, set<Str>>, r: Str)
    requires Lists(ts, snapshot) && r in snapshot
    ensures var q := RoundResult(pool, ts);
      && (snapshot[r] != {} ==> r in q && q[r] == (if r in pool then pool[r] else map[])[ICMP := Discovered(r, ts[r])])
      && (snapshot[r] == {} ==> (r in q <==> r in pool && pool[r] != map[]))
      && (snapshot[r] == {} && r in q ==> q[r] == pool[r] - {ICMP})
  {
    ListedEmpty(ts[r], snapshot[r]);
  }

  /** Over a fixed snapshot the second round changes something exactly when some offline region
      held nothing but an icmp entry. */
  lemma SecondRound(p: Pool, ts: map<Str, seq<Str>>, us: map<Str, seq<Str>>, snapshot: map<Str, set<Str>>)
    requires Lists(ts, snapshot) && Lists(us, snapshot)
    ensures var p1 := RoundResult(p, ts); var p2 := RoundResult(p1, us);
      SamePool(p1, p2) <==> forall r :: !Lingers(p, snapshot, r)
  {
    var p1 := RoundResult(p, ts);
    var p2 := RoundResult(p1, us);
    forall r | r in snapshot
      ensures Lingers(p, snapshot, r) ==> r in p1 && r !in p2
      ensures !Lingers(p, snapshot, r) ==> (r in p1 <==> r in p2) && (r in p1 ==> SameEntries(p1[r], p2[r]))
    {
      AfterRound(p, ts, snapshot, r);
      AfterRound(p1, us, snapshot, r);
      RoundRegionStable(p, ts, us, snapshot, r);
    }
    forall r | r !in snapshot ensures (r in p1 <==> r in p2) && (r in p1 ==> SameEntries(p1[r], p2[r])) {
    }
  }

  lemma RoundRegionStable(p: Pool, ts: map<Str, seq<Str>>, us: map<Str, seq<Str>>, snapshot: map<Str, set<Str>>, r: Str)
    requires Lists(ts, snapshot) && Lists(us, snapshot) && r in snapshot
    ensures var p1 := RoundResult(p, ts); var p2 := RoundResult(p1, us);
      && (Lingers(p, snapshot, r) ==> r in p1 && p1[r] == map[])
      && (!Lingers(p, snapshot, r) && r in p1 ==> r in p2 && SameEntries(p1[r], p2[r]))
  {
    AfterRound(p, ts, snapshot, r);
    var p1 := RoundResult(p, ts);
    AfterRound(p1, us, snapshot, r);
    assert ListsOnce(ts[r], snapshot[r]) && ListsOnce(us[r], snapshot[r]);
    if snapshot[r] == {} && r in p1 {
      if p1[r] == map[] {
        assert p[r].Keys == {ICMP} by {
          assert (p[r] - {ICMP}).Keys == p[r].Keys - {ICMP} == {};
          assert p[r].Keys != {};
        }
      }
      assert p1[r] - {ICMP} == p1[r];
    }
  }

  /** At most two rounds reach a fixed point. There, an offline region has no icmp entry, and if
      it had no other type it is gone. */
  lemma TwoRoundsSettle(p: Pool, ts: map<Str, seq<Str>>, us: map<Str, seq<Str>>, vs: map<Str, seq<Str>>,
                        snapshot: map<Str, set<Str>>)
    requires Lists(ts, snapshot) && Lists(us, snapshot) && Lists(vs, snapshot)
    ensures var p2 := RoundResult(RoundResult(p, ts), us);
      && SamePool(p2, RoundResult(p2, vs))
      && forall r :: r in snapshot && snapshot[r] == {} ==>
           Lookup(p2, r, ICMP) == None && (r in p && p[r].Keys <= {ICMP} ==> r !in p2)
  {
    var p1 := RoundResult(p, ts);
    var p2 := RoundResult(p1, us);
    forall r ensures !Lingers(p1, snapshot, r) {
      if r in snapshot {
        AfterRound(p, ts, snapshot, r);
      }
    }
    SecondRound(p1, us, vs, snapshot);
    forall r | r in snapshot && snapshot[r] == {}
      ensures Lookup(p2, r, ICMP) == None && (r in p && p[r].Keys <= {ICMP} ==> r !in p2)
    {
      AfterRound(p, ts, snapshot, r);
      AfterRound(p1, us, snapshot, r);
      if r in p1 && r in p && p[r].Keys <= {ICMP} {
        assert (p[r] - {ICMP}).Keys == {};
        assert p1[r] == map[];
      }
    }
  }

  // ----- reading -----

  ghost predicate ListsValues(ps: seq<ProberConfig>, entries: Entries) {
    exists ts: seq<Str> :: ListsByType(ps, entries, ts)
  }

  ghost predicate ListsByType(ps: seq<ProberConfig>, entries: Entries, ts: seq<Str>) {
    && ListsOnce(ts, entries.Keys) && |ps| == |ts|
    && forall i :: 0 <= i < |ps| ==> ps[i] == entries[ts[i]]
  }

  /** What `getPool` hands a source region: every region's entries, each once in some order,
      leaving out the source's own region unless self-probing is enabled. */
  ghost predicate IsView(view: map<Str, seq<ProberConfig>>, pool: Pool, probeSelf: bool, source: Str) {
    && (forall r :: r in view <==> r in pool && (probeSelf || r != source))
    && (forall r :: r in view ==> ListsValues(view[r], pool[r]))
  }

  /** Every entry sits under its own region and type. */
  ghost predicate WellTyped(pool: Pool) {
    forall r, t :: r in pool && t in pool[r] ==> pool[r][t].region == r && pool[r][t].proberType == t
  }

  /** The icmp targets a source sees for a region: one entry with exactly `ips`, none when empty. */
  ghost predicate SeesExactly(view: map<Str, seq<ProberConfig>>, region: Str, ips: set<Str>) {
    if ips == {} then
      region in view ==> forall i :: 0 <= i < |view[region]| ==> view[region][i].proberType != ICMP
    else
      && region in view
      && exists i :: OnlyIcmp(view[region], i, ips)
  }

  ghost predicate OnlyIcmp(ps: seq<ProberConfig>, i: int, ips: set<Str>) {
    && 0 <= i < |ps| && ps[i].proberType == ICMP && ListsOnce(ps[i].targets, ips)
    && forall j :: 0 <= j < |ps| && j != i ==> ps[j].proberType != ICMP
  }

  lemma ViewSeesIcmp(view: map<Str, seq<ProberConfig>>, pool: Pool, probeSelf: bool, source: Str,
                     region: Str, ips: set<Str>)
    requires IsView(view, pool, probeSelf, source) && WellTyped(pool) && IcmpIs(pool, region, ips)
    requires probeSelf || region != source
    ensures SeesExactly(view, region, ips)
  {
    if region in view {
      var ps := view[region];
      assert ListsValues(ps, pool[region]);
      var ts :| ListsByType(ps, pool[region], ts);
      forall i | 0 <= i < |ps| ensures ps[i].proberType == ts[i] {
        assert ts[i] in pool[region];
      }
      if ips != {} {
        var i :| 0 <= i < |ts| && ts[i] == ICMP;
        assert OnlyIcmp(ps, i, ips);
      }
    }
  }

  /** What a source is handed for a discovered region, in full: the region's own name, the type "icmp",
      exactly the addresses, 64 packets of 64 bytes every 15 ms, and no http settings. */
  lemma DiscoveredEntry(pool: Pool, region: Str, ips: set<Str>)
    requires IcmpIs(pool, region, ips) && ips != {}
    ensures region in pool && Ascii("icmp") in pool[region]
    ensures var pc := pool[region][Ascii("icmp")];
      && pc.region == region && pc.proberType == Ascii("icmp") && ListsOnce(pc.targets, ips) && pc.http == None
      && pc.icmp.Some? && pc.icmp.value.packetCount == 64 && pc.icmp.value.payloadSize == 64
      && pc.icmp.value.intervalMs == 15
  {
    assert |Ascii("icmp")| == 4;
    assert Ascii("icmp") == ICMP;
  }
}
