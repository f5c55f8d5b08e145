/**
 Agent liveness: pkg/server/healthdot.go.

 The liveness cache (`agentPool`) and the index of live addresses per region (`discoverPool`)
 are kept by agent reports, the cache's janitor with its eviction callbacks, and the loop that
 exports liveness. Each access to shared state is one event of the machine below, unless a mutex or
 the cache makes several one.

 An evicted entry's callback runs outside the cache lock: it first sets the series to 0 (`Zero`),
 holding no mutex, and then takes the mutex and removes the pair from the index (`Callback`). The
 export loop holds the mutex from its copy of the live entries (`DotCopy`) over the writes of their
 series (`DotWrite`) to `DotEnd`. `Tick` followed by one `Zero` and one `Callback` per evicted key is
 what the code does; `Expire` is the same sweep with its callbacks run before anything else happens.
 */
module Liveness {
  import opened Common
  import opened Keys
  import C = TtlCache

  /** Labels of one `agent_is_alive` series. */
  datatype Series = Series(region: Str, ip: Str, version: Str)

  type Index = map<Str, set<Str>>

  datatype State = State(
    cache: C.Cache<Str>,      // agentPool: key -> version
    pending: map<Str, Str>,   // swept entries whose callback has not finished
    zeroed: Option<Str>,      // the pending key whose callback has written its 0
    marking: Option<map<Str, Str>>,   // the entries an export under way has yet to write
    index: Index,             // discoverPool: region -> ips
    gauge: map<Series, int>,
    ready: bool)              // the ready channel has been closed

  datatype Event =
    | Report(region: Str, ip: Str, version: Str, now: int)
    | Tick(now: int)
    | Zero(key: Str)
    | Callback(key: Str)
    | DotCopy(now: int)
    | DotWrite(key: Str)
    | DotEnd
    | Expire(now: int)
    | Idle                    // a step of some other component

  const INIT := State(map[], map[], None, None, map[], map[], false)

  /** Every key in use splits into at least two pieces, so no callback indexes out of range. */
  ghost predicate WellKeyed(s: State) {
    && (forall k :: k in s.cache ==> |SplitKey(k)| >= 2)
    && (forall k :: k in s.pending ==> |SplitKey(k)| >= 2)
    && (forall k :: s.marking.Some? && k in s.marking.value ==> |SplitKey(k)| >= 2)
  }

  /** The mutex is held over several events by an export only. */
  predicate Unlocked(s: State) {
    s.marking.None?
  }

  predicate InIndex(index: Index, region: Str, ip: Str) {
    region in index && ip in index[region]
  }

  function AddToIndex(index: Index, region: Str, ip: Str): Index {
    index[region := (if region in index then index[region] else {}) + {ip}]
  }

  /** `delete(m[region], ip)`: a no-op on an absent region. */
  function RemoveFromIndex(index: Index, pair: (Str, Str)): Index {
    if pair.0 in index then index[pair.0 := index[pair.0] - {pair.1}] else index
  }

  ghost function RemoveTargets(index: Index, keys: set<Str>): Index
    requires forall k :: k in keys ==> |SplitKey(k)| >= 2
  {
    map region | region in index ::
      set ip | ip in index[region] && !exists k :: k in keys && Target(k) == (region, ip)
  }

  function SeriesOf(key: Str, version: Str): Series
    requires |SplitKey(key)| >= 2
  {
    Series(Target(key).0, Target(key).1, version)
  }

  /** What a read of the cache sees. */
  function LiveItems(cache: C.Cache<Str>, now: int): map<Str, Str> {
    map k | k in cache && !C.IsExpired(cache, k, now) :: cache[k].value
  }

  /** The series of some cache entries. */
  function SeriesOfItems(items: map<Str, Str>): set<Series>
    requires forall k :: k in items ==> |SplitKey(k)| >= 2
  {
    set k | k in items :: SeriesOf(k, items[k])
  }

  /** The gauge with every series of `xs` set to `v`. */
  function SetAll(gauge: map<Series, int>, xs: set<Series>, v: int): map<Series, int> {
    gauge + map x | x in xs :: v
  }

  ghost predicate Enabled(s: State, e: Event) {
    match e
    case Report(_, _, _, _) => Unlocked(s)
    case Tick(_) => s.pending == map[]      // the single janitor has finished its callbacks
    case Zero(key) => key in s.pending && s.zeroed.None?
    case Callback(key) => key in s.pending && s.zeroed == Some(key) && Unlocked(s)
    case DotCopy(_) => Unlocked(s)
    case DotWrite(key) => s.marking.Some? && key in s.marking.value
    case DotEnd => s.marking == Some(map[])
    case Expire(_) => s.pending == map[] && Unlocked(s)
    case Idle => true
  }

  ghost function Apply(s: State, e: Event, ttl: int): (s': State)
    requires WellKeyed(s) && Enabled(s, e)
    ensures WellKeyed(s')
  {
    match e
    case Idle => s
    case Report(region, ip, version, now) =>
      PairTarget(region, ip);
      s.(cache := C.SetDefault(s.cache, JoinKey([region, ip]), version, now, ttl),
         index := AddToIndex(s.index, region, ip),
         ready := true)
    case Tick(now) =>
      s.(cache := C.DeleteExpired(s.cache, now), pending := C.Expired(s.cache, now))
    case Zero(key) =>
      s.(zeroed := Some(key), gauge := s.gauge[SeriesOf(key, s.pending[key]) := 0])
    case Callback(key) =>
      s.(pending := s.pending - {key}, zeroed := None, index := RemoveFromIndex(s.index, Target(key)))
    case DotCopy(now) =>
      s.(marking := Some(LiveItems(s.cache, now)))
    case DotWrite(key) =>
      s.(marking := Some(s.marking.value - {key}), gauge := s.gauge[SeriesOf(key, s.marking.value[key]) := 1])
    case DotEnd =>
      s.(marking := None)
    case Expire(now) =>
      var gone := C.Expired(s.cache, now);
      s.(cache := C.DeleteExpired(s.cache, now),
         index := RemoveTargets(s.index, gone.Keys),
         gauge := SetAll(s.gauge, SeriesOfItems(gone), 0))
  }

  // ----- behaviours -----

  /** Step `i` of a behaviour takes state `ss[i]` to `ss[i + 1]` by event `es[i]`. */
  ghost predicate StepAt(ss: seq<State>, es: seq<Event>, ttl: int, i: int)
    requires |ss| == |es| + 1 && 0 <= i < |es|
  {
    WellKeyed(ss[i]) && Enabled(ss[i], es[i]) && ss[i + 1] == Apply(ss[i], es[i], ttl)
  }

  /** `ss` is the run of the machine over the events `es`, in any interleaving of the actors. */
  ghost predicate Behavior(ss: seq<State>, es: seq<Event>, ttl: int) {
    && |ss| == |es| + 1
    && ss[0] == INIT
    && forall i :: 0 <= i < |es| ==> StepAt(ss, es, ttl, i)
  }

  /** No key of any reachable state can make a callback index out of range. */
  lemma KeysAlwaysSplit(ss: seq<State>, es: seq<Event>, ttl: int, n: nat)
    requires Behavior(ss, es, ttl) && n <= |es|
    ensures WellKeyed(ss[n])
  {
    if n > 0 {
      assert StepAt(ss, es, ttl, n - 1);
    }
  }

  ghost predicate OneStep(es: seq<Event>) {
    forall i :: 0 <= i < |es| ==> !es[i].Tick? && !es[i].Zero? && !es[i].Callback?
  }

  ghost predicate SepFreeEvent(e: Event) {
    e.Report? ==> SepFree(e.region) && SepFree(e.ip)
  }

  ghost predicate SepFreeReports(es: seq<Event>) {
    forall i :: 0 <= i < |es| ==> SepFreeEvent(es[i])
  }

  function KeyOf(region: Str, ip: Str): Str {
    JoinKey([region, ip])
  }

  /** The key was built from the separator-free pair it splits into. */
  ghost predicate IsPairKey(k: Str) {
    |SplitKey(k)| >= 2 && k == KeyOf(Target(k).0, Target(k).1)
  }

  ghost predicate PairKeys(s: State) {
    && (forall k :: k in s.cache ==> IsPairKey(k))
    && (forall k :: k in s.pending ==> IsPairKey(k))
    && (forall k :: s.marking.Some? && k in s.marking.value ==> IsPairKey(k))
  }

  lemma PairKey(region: Str, ip: Str)
    requires SepFree(region) && SepFree(ip)
    ensures IsPairKey(KeyOf(region, ip)) && Target(KeyOf(region, ip)) == (region, ip)
  {
    PairTarget(region, ip);
  }

  lemma PairKeysStep(s: State, e: Event, ttl: int)
    requires WellKeyed(s) && Enabled(s, e) && PairKeys(s) && SepFreeEvent(e)
    ensures PairKeys(Apply(s, e, ttl))
  {
    if e.Report? {
      PairKey(e.region, e.ip);
    }
  }

  lemma {:induction false} RunPairKeys(ss: seq<State>, es: seq<Event>, ttl: int, n: nat)
    requires Behavior(ss, es, ttl) && n <= |es| && SepFreeReports(es)
    ensures PairKeys(ss[n])
  {
    if n > 0 {
      RunPairKeys(ss, es, ttl, n - 1);
      assert StepAt(ss, es, ttl, n - 1);
      PairKeysStep(ss[n - 1], es[n - 1], ttl);
    }
  }

  // ----- the index shadows the cache -----

  /** A pair is in the index only if it was there before or has just been reported. */
  lemma IndexGrowsByReports(s: State, e: Event, ttl: int, region: Str, ip: Str)
    requires WellKeyed(s) && Enabled(s, e) && InIndex(Apply(s, e, ttl).index, region, ip)
    ensures InIndex(s.index, region, ip) || Reports(e, region, ip)
  {
  }

  ghost predicate Covered(s: State, region: Str, ip: Str) {
    InIndex(s.index, region, ip) ==> KeyOf(region, ip) in s.cache || KeyOf(region, ip) in s.pending
  }

  lemma CoveredStep(s: State, e: Event, ttl: int, region: Str, ip: Str)
    requires WellKeyed(s) && Enabled(s, e) && Covered(s, region, ip)
    requires SepFree(region) && SepFree(ip)
    ensures Covered(Apply(s, e, ttl), region, ip)
  {
    PairKey(region, ip);
    var k := KeyOf(region, ip);
    match e
    case Expire(now) =>
      var gone := C.Expired(s.cache, now);
      assert k in gone ==> !InIndex(RemoveTargets(s.index, gone.Keys), region, ip);
    case _ =>
  }

  /** Two-step eviction: whatever else was reported, each separator-free pair in the index is
      still cached or has its callback pending, in every reachable state. */
  lemma {:induction false} IndexCovered(ss: seq<State>, es: seq<Event>, ttl: int, n: nat, region: Str, ip: Str)
    requires Behavior(ss, es, ttl) && n <= |es| && SepFree(region) && SepFree(ip)
    ensures Covered(ss[n], region, ip)
  {
    if n > 0 {
      IndexCovered(ss, es, ttl, n - 1, region, ip);
      assert StepAt(ss, es, ttl, n - 1);
      CoveredStep(ss[n - 1], es[n - 1], ttl, region, ip);
    }
  }

  ghost predicate SamePairs(s: State, region: Str, ip: Str) {
    s.pending == map[] && (InIndex(s.index, region, ip) <==> KeyOf(region, ip) in s.cache)
  }

  lemma SamePairsStep(s: State, e: Event, ttl: int, region: Str, ip: Str)
    requires WellKeyed(s) && Enabled(s, e) && PairKeys(s) && SamePairs(s, region, ip)
    requires SepFree(region) && SepFree(ip) && SepFreeEvent(e) && !e.Tick? && !e.Callback?
    ensures SamePairs(Apply(s, e, ttl), region, ip)
  {
    PairKey(region, ip);
    var k := KeyOf(region, ip);
    match e
    case Report(r, i, _, _) =>
      PairKey(r, i);
    case Expire(now) =>
      var gone := C.Expired(s.cache, now);
      assert forall q :: q in gone && Target(q) == (region, ip) ==> IsPairKey(q) && q == k;
    case _ =>
  }

  /** One-step eviction: the index and the cache hold exactly the same pairs. */
  lemma {:induction false} IndexIsCache(ss: seq<State>, es: seq<Event>, ttl: int, n: nat, region: Str, ip: Str)
    requires Behavior(ss, es, ttl) && n <= |es| && OneStep(es) && SepFreeReports(es)
    requires SepFree(region) && SepFree(ip)
    ensures SamePairs(ss[n], region, ip)
  {
    if n > 0 {
      IndexIsCache(ss, es, ttl, n - 1, region, ip);
      RunPairKeys(ss, es, ttl, n - 1);
      assert StepAt(ss, es, ttl, n - 1);
      SamePairsStep(ss[n - 1], es[n - 1], ttl, region, ip);
    }
  }

  /** A region once in the index is never removed from it. */
  lemma {:induction false} RegionsStay(ss: seq<State>, es: seq<Event>, ttl: int, m: nat, n: nat)
    requires Behavior(ss, es, ttl) && m <= n <= |es|
    ensures ss[m].index.Keys <= ss[n].index.Keys
    decreases n
  {
    if m < n {
      RegionsStay(ss, es, ttl, m, n - 1);
      assert StepAt(ss, es, ttl, n - 1);
    }
  }

  lemma TargetSepFree(k: Str)
    requires |SplitKey(k)| >= 2
    ensures SepFree(Target(k).0) && SepFree(Target(k).1)
  {
    PiecesSepFree(k);
    assert SepFree(SplitKey(k)[0]) && SepFree(SplitKey(k)[1]);
  }

  lemma UnsplittableStep(s: State, e: Event, ttl: int, region: Str, ip: Str)
    requires WellKeyed(s) && Enabled(s, e) && InIndex(s.index, region, ip)
    requires !(SepFree(region) && SepFree(ip))
    ensures InIndex(Apply(s, e, ttl).index, region, ip)
  {
    match e
    case Callback(k) =>
      TargetSepFree(k);
    case Expire(now) =>
      forall k | k in C.Expired(s.cache, now) ensures Target(k) != (region, ip) {
        TargetSepFree(k);
      }
    case _ =>
  }

  /** A pair whose region or address contains the separator can never leave the index again:
      the callback reads other pieces back from the key. */
  lemma {:induction false} UnsplittablePairStays(ss: seq<State>, es: seq<Event>, ttl: int, m: nat, n: nat,
                                                 region: Str, ip: Str)
    requires Behavior(ss, es, ttl) && m <= n <= |es|
    requires !(SepFree(region) && SepFree(ip)) && InIndex(ss[m].index, region, ip)
    ensures InIndex(ss[n].index, region, ip)
    decreases n
  {
    if m < n {
      UnsplittablePairStays(ss, es, ttl, m, n - 1, region, ip);
      assert StepAt(ss, es, ttl, n - 1);
      UnsplittableStep(ss[n - 1], es[n - 1], ttl, region, ip);
    }
  }

  predicate Removes(e: Event, region: Str, ip: Str) {
    e.Callback? && e.key == KeyOf(region, ip)
  }

  predicate Reports(e: Event, region: Str, ip: Str) {
    e.Report? && e.region == region && e.ip == ip
  }

  ghost predicate ReportWithoutCallback(es: seq<Event>, n: nat, region: Str, ip: Str, i: int)
    requires n <= |es|
  {
    && 0 <= i < n && Reports(es[i], region, ip)
    && forall j :: i < j < n ==> !Removes(es[j], region, ip)
  }

  /** Some report of the pair among the first `n` events has no callback for its key after it. */
  ghost predicate ReportedSinceCallback(es: seq<Event>, n: nat, region: Str, ip: Str)
    requires n <= |es|
  {
    exists i :: ReportWithoutCallback(es, n, region, ip, i)
  }

  /** One event changes a pair's membership only by reporting it or running its callback. */
  lemma IndexStep(s: State, e: Event, ttl: int, region: Str, ip: Str)
    requires WellKeyed(s) && PairKeys(s) && Enabled(s, e) && !e.Expire?
    requires SepFree(region) && SepFree(ip)
    ensures InIndex(Apply(s, e, ttl).index, region, ip) <==>
      Reports(e, region, ip) || (InIndex(s.index, region, ip) && !Removes(e, region, ip))
  {
    PairKey(region, ip);
    if e.Callback? {
      assert IsPairKey(e.key);
    }
  }

  /** Closed form of the index under two-step eviction: it depends only on whether a callback
      for the key ran after the pair's reports, not on the cache. So a live agent is missing
      from the index exactly when a callback ran after its last report. */
  lemma {:induction false} IndexExactly(ss: seq<State>, es: seq<Event>, ttl: int, n: nat, region: Str, ip: Str)
    requires Behavior(ss, es, ttl) && n <= |es| && SepFreeReports(es) && SepFree(region) && SepFree(ip)
    requires forall i :: 0 <= i < |es| ==> !es[i].Expire?
    ensures InIndex(ss[n].index, region, ip) <==> ReportedSinceCallback(es, n, region, ip)
  {
    if n > 0 {
      var m := n - 1;
      IndexExactly(ss, es, ttl, m, region, ip);
      RunPairKeys(ss, es, ttl, m);
      assert StepAt(ss, es, ttl, m);
      IndexStep(ss[m], es[m], ttl, region, ip);
      forall i | 0 <= i < m
        ensures ReportWithoutCallback(es, n, region, ip, i) <==>
          ReportWithoutCallback(es, m, region, ip, i) && !Removes(es[m], region, ip)
      {
      }
      if Reports(es[m], region, ip) {
        assert ReportWithoutCallback(es, n, region, ip, m);
      }
    }
  }

  /** The race, for every agent and every lifetime: a report that lands between the sweep and
      its callback leaves the agent cached, hence alive, but absent from the index. */
  lemma RaceHidesLiveAgent(region: Str, ip: Str, version: Str, ttl: int) returns (ss: seq<State>, es: seq<Event>)
    requires SepFree(region) && SepFree(ip) && ttl > 0
    ensures Behavior(ss, es, ttl) && |es| == 5
    ensures KeyOf(region, ip) in ss[5].cache && !InIndex(ss[5].index, region, ip)
    ensures !C.IsExpired(ss[5].cache, KeyOf(region, ip), ttl + 1)
  {
    var k := KeyOf(region, ip);
    PairKey(region, ip);
    ss, es := ReportedThenSwept(region, ip, version, ttl);
    ss, es := Extend(ss, es, ttl, Report(region, ip, version, ttl + 1));
    ss, es := Extend(ss, es, ttl, Zero(k));
    ss, es := Extend(ss, es, ttl, Callback(k));
  }

  lemma ReportedThenSwept(region: Str, ip: Str, version: Str, ttl: int) returns (ss: seq<State>, es: seq<Event>)
    requires SepFree(region) && SepFree(ip) && ttl > 0
    ensures Behavior(ss, es, ttl) && |es| == 2
    ensures var s := ss[2];
      WellKeyed(s) && KeyOf(region, ip) in s.pending && s.zeroed.None? && Unlocked(s)
  {
    ss, es := Start(ttl);
    ss, es := Extend(ss, es, ttl, Report(region, ip, version, 0));
    ss, es := Extend(ss, es, ttl, Tick(ttl + 1));
  }

  lemma Start(ttl: int) returns (ss: seq<State>, es: seq<Event>)
    ensures Behavior(ss, es, ttl) && es == [] && ss == [INIT]
  {
    ss, es := [INIT], [];
  }

  /** A run can be continued by any enabled event. */
  lemma Extend(ss: seq<State>, es: seq<Event>, ttl: int, e: Event) returns (ss': seq<State>, es': seq<Event>)
    requires Behavior(ss, es, ttl) && WellKeyed(ss[|es|]) && Enabled(ss[|es|], e)
    ensures Behavior(ss', es', ttl) && es' == es + [e]
    ensures ss'[|es'|] == Apply(ss[|es|], e, ttl) && ss <= ss'
  {
    ss', es' := ss + [Apply(ss[|es|], e, ttl)], es + [e];
    forall i | 0 <= i < |es'| ensures StepAt(ss', es', ttl, i) {
      assert i < |es| ==> StepAt(ss, es, ttl, i);
    }
  }

  // ----- callbacks commute -----

  /** `keys` lists each pending key once, in some order. */
  ghost predicate Enumerates(keys: seq<Str>, m: map<Str, Str>) {
    && (forall i :: 0 <= i < |keys| ==> keys[i] in m)
    && (forall k :: k in m ==> k in keys)
    && (forall i, j :: 0 <= i < j < |keys| ==> keys[i] != keys[j])
  }

  lemma EnumerationTail(keys: seq<Str>, m: map<Str, Str>)
    requires Enumerates(keys, m) && keys != []
    ensures keys[0] in m && Enumerates(keys[1..], m - {keys[0]})
  {
  }

  /** No callback has begun, and the mutex is free. */
  ghost predicate Drainable(s: State) {
    WellKeyed(s) && s.zeroed.None? && Unlocked(s)
  }

  /** All callbacks, one after the other, with nothing in between. */
  ghost function Drain(s: State, keys: seq<Str>, ttl: int): State
    requires Drainable(s) && Enumerates(keys, s.pending)
    decreases |keys|
  {
    if keys == [] then s
    else
      EnumerationTail(keys, s.pending);
      Drain(Apply(Apply(s, Zero(keys[0]), ttl), Callback(keys[0]), ttl), keys[1..], ttl)
  }

  ghost function Drained(s: State): State
    requires WellKeyed(s)
  {
    s.(pending := map[],
       index := RemoveTargets(s.index, s.pending.Keys),
       gauge := SetAll(s.gauge, SeriesOfItems(s.pending), 0))
  }

  /** What removing targets leaves of one region. */
  lemma RemoveTargetsAt(index: Index, keys: set<Str>, region: Str, ip: Str)
    requires region in index && forall k :: k in keys ==> |SplitKey(k)| >= 2
    ensures ip in RemoveTargets(index, keys)[region]
            <==> ip in index[region] && !exists k :: k in keys && Target(k) == (region, ip)
  {
  }

  lemma DrainedIndexStep(index: Index, keys: set<Str>, k: Str)
    requires k in keys && forall q :: q in keys ==> |SplitKey(q)| >= 2
    ensures RemoveTargets(RemoveFromIndex(index, Target(k)), keys - {k}) == RemoveTargets(index, keys)
  {
    var once := RemoveFromIndex(index, Target(k));
    var a, b := RemoveTargets(once, keys - {k}), RemoveTargets(index, keys);
    forall r | r in index ensures a[r] == b[r] {
      forall ip ensures ip in a[r] <==> ip in b[r] {
        RemoveTargetsAt(once, keys - {k}, r, ip);
        RemoveTargetsAt(index, keys, r, ip);
        assert ip in once[r] <==> ip in index[r] && Target(k) != (r, ip);
        assert forall q :: q in keys <==> q in keys - {k} || q == k;
      }
    }
  }

  lemma SeriesSplit(pending: map<Str, Str>, k: Str)
    requires k in pending && forall q :: q in pending ==> |SplitKey(q)| >= 2
    ensures SeriesOfItems(pending) == SeriesOfItems(pending - {k}) + {SeriesOf(k, pending[k])}
  {
    var rest := pending - {k};
    forall x | x in SeriesOfItems(pending) ensures x in SeriesOfItems(rest) + {SeriesOf(k, pending[k])} {
      var q :| q in pending && x == SeriesOf(q, pending[q]);
      assert q != k ==> q in rest && rest[q] == pending[q];
    }
    forall x | x in SeriesOfItems(rest) ensures x in SeriesOfItems(pending) {
      var q :| q in rest && x == SeriesOf(q, rest[q]);
      assert q in pending;
    }
  }

  /** Setting series one at a time, in any order, is setting them all. */
  lemma SetOneByOne(gauge: map<Series, int>, some: set<Series>, x: Series, v: int)
    ensures SetAll(gauge[x := v], some, v) == SetAll(gauge, some + {x}, v)
    ensures SetAll(gauge, some, v)[x := v] == SetAll(gauge, some + {x}, v)
  {
  }

  /** An export of `all` with the series `marked` written and the entries `items` left. */
  ghost predicate Exporting(before: map<Series, int>, gauge: map<Series, int>, marked: set<Series>,
                            items: map<Str, Str>, all: map<Str, Str>)
    requires forall k :: k in items || k in all ==> |SplitKey(k)| >= 2
  {
    && items.Keys <= all.Keys
    && gauge == SetAll(before, marked, 1) && marked + SeriesOfItems(items) == SeriesOfItems(all)
  }

  lemma ExportNone(gauge: map<Series, int>, all: map<Str, Str>)
    requires forall k :: k in all ==> |SplitKey(k)| >= 2
    ensures Exporting(gauge, gauge, {}, all, all)
  {
  }

  lemma ExportNext(before: map<Series, int>, gauge: map<Series, int>, marked: set<Series>,
                   items: map<Str, Str>, all: map<Str, Str>, key: Str)
    requires forall k :: k in items || k in all ==> |SplitKey(k)| >= 2
    requires Exporting(before, gauge, marked, items, all) && key in items
    ensures var x := SeriesOf(key, items[key]);
      Exporting(before, gauge[x := 1], marked + {x}, items - {key}, all)
    ensures |items - {key}| < |items|
  {
    SetOneByOne(before, marked, SeriesOf(key, items[key]), 1);
    SeriesSplit(items, key);
    assert (items - {key}).Keys == items.Keys - {key};
  }

  lemma ExportAll(before: map<Series, int>, gauge: map<Series, int>, marked: set<Series>,
                  items: map<Str, Str>, all: map<Str, Str>)
    requires forall k :: k in items || k in all ==> |SplitKey(k)| >= 2
    requires Exporting(before, gauge, marked, items, all) && |items| == 0
    ensures items == map[] && gauge == SetAll(before, SeriesOfItems(all), 1)
  {
    assert SeriesOfItems(items) == {};
    assert marked == SeriesOfItems(all);
  }

  lemma {:induction false} DrainAll(s: State, keys: seq<Str>, ttl: int)
    requires Drainable(s) && Enumerates(keys, s.pending)
    ensures Drain(s, keys, ttl) == Drained(s)
    decreases |keys|
  {
    if keys == [] {
      assert s.pending == map[];
      assert s.pending.Keys == {};
      var index := RemoveTargets(s.index, {});
      forall r | r in s.index ensures index[r] == s.index[r] {
      }
      assert index == s.index;
      assert SeriesOfItems(s.pending) == {};
      assert SetAll(s.gauge, {}, 0) == s.gauge;
      assert Drained(s) == s;
    } else {
      EnumerationTail(keys, s.pending);
      var k := keys[0];
      DrainAll(Apply(Apply(s, Zero(k), ttl), Callback(k), ttl), keys[1..], ttl);
      DrainedIndexStep(s.index, s.pending.Keys, k);
      assert (s.pending - {k}).Keys == s.pending.Keys - {k};
      SeriesSplit(s.pending, k);
      SetOneByOne(s.gauge, SeriesOfItems(s.pending - {k}), SeriesOf(k, s.pending[k]), 0);
    }
  }

  /** Whatever order the janitor runs its callbacks in, a sweep and its callbacks together have
      the effect of the single step `Expire`. */
  lemma SweepThenCallbacks(s: State, now: int, keys: seq<Str>, ttl: int)
    requires Drainable(s) && s.pending == map[] && Enumerates(keys, C.Expired(s.cache, now))
    ensures Drain(Apply(s, Tick(now), ttl), keys, ttl) == Apply(s, Expire(now), ttl)
  {
    DrainAll(Apply(s, Tick(now), ttl), keys, ttl);
  }

  // ----- timing -----

  function OpOf(e: Event): C.Op<Str> {
    match e
    case Report(region, ip, version, now) => C.Put(KeyOf(region, ip), version, now)
    case Tick(now) => C.Sweep(now)
    case Expire(now) => C.Sweep(now)
    case _ => C.Other
  }

  /** The cache operations of a sequence of events, step for step. */
  function Ops(es: seq<Event>): (ops: seq<C.Op<Str>>)
    ensures |ops| == |es| && forall i :: 0 <= i < |es| ==> ops[i] == OpOf(es[i])
  {
    seq(|es|, i requires 0 <= i < |es| => OpOf(es[i]))
  }

  lemma {:induction false} CacheHistory(ss: seq<State>, es: seq<Event>, ttl: int, n: nat)
    requires Behavior(ss, es, ttl) && n <= |es|
    ensures ss[n].cache == C.Run(Ops(es[..n]), ttl)
  {
    if n > 0 {
      CacheHistory(ss, es, ttl, n - 1);
      assert Ops(es[..n])[..n - 1] == Ops(es[..n - 1]);
      assert StepAt(ss, es, ttl, n - 1);
    }
  }

  /** One-step eviction: an agent is discoverable exactly when no sweep after its last report
      came more than the lifetime after that report. Its version plays no part. */
  lemma DiscoverableExactly(ss: seq<State>, es: seq<Event>, ttl: int, n: nat, region: Str, ip: Str)
    requires Behavior(ss, es, ttl) && n <= |es| && OneStep(es) && SepFreeReports(es)
    requires SepFree(region) && SepFree(ip)
    ensures InIndex(ss[n].index, region, ip) <==> C.Present(Ops(es[..n]), KeyOf(region, ip), ttl)
  {
    IndexIsCache(ss, es, ttl, n, region, ip);
    CacheHistory(ss, es, ttl, n);
    C.PresentExactly(Ops(es[..n]), KeyOf(region, ip), ttl);
  }

  /** Cached, indexed, and with no callback that would change that. */
  ghost predicate Secure(s: State, region: Str, ip: Str) {
    KeyOf(region, ip) in s.cache && KeyOf(region, ip) !in s.pending && InIndex(s.index, region, ip)
  }

  lemma SecureStep(s: State, e: Event, ttl: int, region: Str, ip: Str)
    requires WellKeyed(s) && PairKeys(s) && Enabled(s, e) && SepFree(region) && SepFree(ip)
    requires Secure(s, region, ip) && KeyOf(region, ip) in Apply(s, e, ttl).cache
    ensures Secure(Apply(s, e, ttl), region, ip)
  {
    if e.Expire? {
      StaysThroughExpire(s, e.now, ttl, region, ip);
    } else {
      IndexStep(s, e, ttl, region, ip);
    }
    NotSwept(s, e, ttl, KeyOf(region, ip));
  }

  lemma NotSwept(s: State, e: Event, ttl: int, k: Str)
    requires WellKeyed(s) && Enabled(s, e) && k !in s.pending && k in Apply(s, e, ttl).cache
    ensures k !in Apply(s, e, ttl).pending
  {
  }

  lemma StaysThroughExpire(s: State, now: int, ttl: int, region: Str, ip: Str)
    requires WellKeyed(s) && PairKeys(s) && Enabled(s, Expire(now)) && SepFree(region) && SepFree(ip)
    requires KeyOf(region, ip) in s.cache && !C.IsExpired(s.cache, KeyOf(region, ip), now)
    requires InIndex(s.index, region, ip)
    ensures InIndex(Apply(s, Expire(now), ttl).index, region, ip)
  {
    var gone := C.Expired(s.cache, now);
    forall q | q in gone ensures Target(q) != (region, ip) {
      assert IsPairKey(q);
    }
    RemoveTargetsAt(s.index, gone.Keys, region, ip);
  }

  lemma CachedThroughout(ss: seq<State>, es: seq<Event>, ttl: int, key: Str, first: int, n: int)
    requires Behavior(ss, es, ttl) && C.Timed(Ops(es)) && 0 <= first < n <= |es| && C.PutAt(Ops(es), key, first)
    requires forall j :: first < j < |es| && Ops(es)[j].Sweep? ==> C.RecentPut(Ops(es), key, j, ttl)
    ensures key in ss[n].cache
  {
    C.KeptThroughout(Ops(es), key, ttl, first, n);
    assert Ops(es[..n]) == Ops(es)[..n];
    CacheHistory(ss, es, ttl, n);
  }

  /** An agent that reported within the lifetime before every sweep since its report `first`, when no
      callback for it was pending, is neither evicted nor unindexed at any moment since then, whatever
      the interleaving and even if it changed version in between. */
  lemma {:induction false} ReportingAgentStays(ss: seq<State>, es: seq<Event>, ttl: int, region: Str, ip: Str,
                                               first: int, n: int)
    requires Behavior(ss, es, ttl) && SepFreeReports(es) && C.Timed(Ops(es))
    requires 0 <= first < n <= |es| && Reports(es[first], region, ip)
    requires KeyOf(region, ip) !in ss[first].pending
    requires forall j :: first < j < |es| && Ops(es)[j].Sweep? ==> C.RecentPut(Ops(es), KeyOf(region, ip), j, ttl)
    ensures Secure(ss[n], region, ip)
    decreases n
  {
    assert SepFreeEvent(es[first]);
    assert StepAt(ss, es, ttl, n - 1);
    if n > first + 1 {
      ReportingAgentStays(ss, es, ttl, region, ip, first, n - 1);
      CachedThroughout(ss, es, ttl, KeyOf(region, ip), first, n);
      RunPairKeys(ss, es, ttl, n - 1);
      SecureStep(ss[n - 1], es[n - 1], ttl, region, ip);
    }
  }

  /** With the janitor's period equal to the lifetime, as configured, an agent whose last report is two
      lifetimes old is not cached, and indexed at most while its callback is pending; under one-step
      eviction it is in neither. */
  lemma SilentAgentGone(ss: seq<State>, es: seq<Event>, ttl: int, region: Str, ip: Str, last: int, now: int)
    requires Behavior(ss, es, ttl) && SepFreeReports(es) && C.Timed(Ops(es)) && ttl > 0
    requires 0 <= last < |es| && Reports(es[last], region, ip)
    requires forall j :: last < j < |es| ==> !Reports(es[j], region, ip)
    requires es[last].now + 2 * ttl <= now && C.SweptEvery(Ops(es), ttl, es[last].now, now)
    ensures KeyOf(region, ip) !in ss[|es|].cache
    ensures InIndex(ss[|es|].index, region, ip) ==> KeyOf(region, ip) in ss[|es|].pending
    ensures OneStep(es) ==> !InIndex(ss[|es|].index, region, ip)
  {
    var ops, key := Ops(es), KeyOf(region, ip);
    assert SepFreeEvent(es[last]);
    assert es[..|es|] == es;
    PairKey(region, ip);
    forall j | last < j < |es| ensures !C.PutAt(ops, key, j) {
      assert SepFreeEvent(es[j]);
      if es[j].Report? {
        PairKey(es[j].region, es[j].ip);
      }
    }
    C.GoneAfterTwoPeriods(ops, key, ttl, last, now);
    CacheHistory(ss, es, ttl, |es|);
    IndexCovered(ss, es, ttl, |es|, region, ip);
    if OneStep(es) {
      IndexIsCache(ss, es, ttl, |es|, region, ip);
    }
  }

  // ----- the alive gauge -----

  predicate SameValue(a: map<Series, int>, b: map<Series, int>, x: Series) {
    (x in a <==> x in b) && (x in a ==> a[x] == b[x])
  }

  /** The export under way has copied the entry of this series and not yet written it. */
  ghost predicate ToWrite(s: State, x: Series) {
    var k := KeyOf(x.region, x.ip);
    s.marking.Some? && k in s.marking.value && s.marking.value[k] == x.version
  }

  /** The version of `x` is neither cached for its pair nor left to be set to 0 by a callback. */
  ghost predicate VersionRetired(s: State, x: Series) {
    var k := KeyOf(x.region, x.ip);
    && (k in s.cache ==> s.cache[k].value != x.version)
    && (k in s.pending && s.pending[k] == x.version ==> s.zeroed == Some(k))
  }

  /** From `s` to `t` at most the export under way wrote the series, and no other is to write it. */
  ghost predicate OnlyStaleWrite(s: State, t: State, x: Series) {
    && (ToWrite(t, x) ==> ToWrite(s, x))
    && if ToWrite(s, x) && !ToWrite(t, x) then x in t.gauge && t.gauge[x] == 1 else SameValue(s.gauge, t.gauge, x)
  }

  lemma OnlyStaleWriteTransitive(s: State, t: State, u: State, x: Series)
    requires OnlyStaleWrite(s, t, x) && OnlyStaleWrite(t, u, x)
    ensures OnlyStaleWrite(s, u, x)
  {
  }

  /** The series of a pair key are those of its pair. */
  lemma PairSeries(k: Str, v: Str, x: Series)
    requires IsPairKey(k) && SepFree(x.region) && SepFree(x.ip)
    ensures SeriesOf(k, v) == x <==> k == KeyOf(x.region, x.ip) && v == x.version
  {
    PairKey(x.region, x.ip);
  }

  lemma RetiredStays(s: State, e: Event, ttl: int, x: Series)
    requires WellKeyed(s) && PairKeys(s) && Enabled(s, e) && SepFreeEvent(e)
    requires SepFree(x.region) && SepFree(x.ip) && VersionRetired(s, x)
    requires Reports(e, x.region, x.ip) ==> e.version != x.version
    ensures VersionRetired(Apply(s, e, ttl), x) && (ToWrite(Apply(s, e, ttl), x) ==> ToWrite(s, x))
  {
    PairKey(x.region, x.ip);
    if e.Report? {
      PairKey(e.region, e.ip);
    }
  }

  lemma RetiredGauge(s: State, e: Event, ttl: int, x: Series)
    requires WellKeyed(s) && PairKeys(s) && Enabled(s, e)
    requires SepFree(x.region) && SepFree(x.ip) && VersionRetired(s, x)
    ensures var g, g' := s.gauge, Apply(s, e, ttl).gauge;
      if e == DotWrite(KeyOf(x.region, x.ip)) && ToWrite(s, x) then x in g' && g'[x] == 1 else SameValue(g, g', x)
  {
    match e
    case Zero(k) => PairSeries(k, s.pending[k], x);
    case DotWrite(k) => PairSeries(k, s.marking.value[k], x);
    case Expire(now) =>
      var gone := C.Expired(s.cache, now);
      forall k | k in gone ensures SeriesOf(k, gone[k]) != x {
        PairSeries(k, gone[k], x);
      }
    case _ =>
  }

  lemma StopsByWriting(s: State, e: Event, ttl: int, x: Series)
    requires WellKeyed(s) && Enabled(s, e) && ToWrite(s, x)
    ensures ToWrite(Apply(s, e, ttl), x) <==> e != DotWrite(KeyOf(x.region, x.ip))
  {
  }

  /** While a version is retired only an export that copied its entry before writes its series, once. */
  lemma RetiredStep(s: State, e: Event, ttl: int, x: Series)
    requires WellKeyed(s) && PairKeys(s) && Enabled(s, e) && SepFreeEvent(e)
    requires SepFree(x.region) && SepFree(x.ip) && VersionRetired(s, x)
    requires Reports(e, x.region, x.ip) ==> e.version != x.version
    ensures VersionRetired(Apply(s, e, ttl), x) && OnlyStaleWrite(s, Apply(s, e, ttl), x)
  {
    RetiredStays(s, e, ttl, x);
    RetiredGauge(s, e, ttl, x);
    if ToWrite(s, x) {
      StopsByWriting(s, e, ttl, x);
    }
  }

  ghost predicate NotReported(es: seq<Event>, m: int, n: int, x: Series) {
    forall i :: 0 <= m <= i < n <= |es| && Reports(es[i], x.region, x.ip) ==> es[i].version != x.version
  }

  lemma {:induction false} RetiredUntil(ss: seq<State>, es: seq<Event>, ttl: int, m: nat, n: nat, x: Series)
    requires Behavior(ss, es, ttl) && SepFreeReports(es) && m <= n <= |es| && NotReported(es, m, n, x)
    requires SepFree(x.region) && SepFree(x.ip) && VersionRetired(ss[m], x)
    ensures VersionRetired(ss[n], x) && OnlyStaleWrite(ss[m], ss[n], x)
    decreases n
  {
    if m < n {
      RetiredUntil(ss, es, ttl, m, n - 1, x);
      RunPairKeys(ss, es, ttl, n - 1);
      assert StepAt(ss, es, ttl, n - 1);
      RetiredStep(ss[n - 1], es[n - 1], ttl, x);
      OnlyStaleWriteTransitive(ss[m], ss[n - 1], ss[n], x);
    }
  }

  /** Once an agent's version has been retired and no export is still to write its series, the
      series keeps its value, 1 included, through every continuation in which that version is not
      reported again. */
  lemma RetiredSeriesFrozen(ss: seq<State>, es: seq<Event>, ttl: int, m: nat, n: nat, x: Series)
    requires Behavior(ss, es, ttl) && SepFreeReports(es) && m <= n <= |es| && NotReported(es, m, n, x)
    requires SepFree(x.region) && SepFree(x.ip) && VersionRetired(ss[m], x) && !ToWrite(ss[m], x)
    ensures VersionRetired(ss[n], x) && !ToWrite(ss[n], x) && SameValue(ss[m].gauge, ss[n].gauge, x)
  {
    RetiredUntil(ss, es, ttl, m, n, x);
  }

  /** A callback has yet to set this series to 0. */
  ghost predicate ToZero(s: State, x: Series) {
    var k := KeyOf(x.region, x.ip);
    k in s.pending && s.pending[k] == x.version && s.zeroed != Some(k)
  }

  /** Another version is cached, or none, and no export is to write this one. */
  ghost predicate Superseded(s: State, x: Series) {
    var k := KeyOf(x.region, x.ip);
    (k in s.cache ==> s.cache[k].value != x.version) && !ToWrite(s, x)
  }

  /** From `s` to `t` at most the pending callback wrote the series. */
  ghost predicate OnlyPendingZero(s: State, t: State, x: Series) {
    && (ToZero(t, x) ==> ToZero(s, x))
    && if ToZero(s, x) && !ToZero(t, x) then x in t.gauge && t.gauge[x] == 0 else SameValue(s.gauge, t.gauge, x)
  }

  lemma OnlyPendingZeroTransitive(s: State, t: State, u: State, x: Series)
    requires OnlyPendingZero(s, t, x) && OnlyPendingZero(t, u, x)
    ensures OnlyPendingZero(s, u, x)
  {
  }

  lemma SupersededStays(s: State, e: Event, ttl: int, x: Series)
    requires WellKeyed(s) && PairKeys(s) && Enabled(s, e) && SepFreeEvent(e) && Superseded(s, x)
    requires SepFree(x.region) && SepFree(x.ip) && (Reports(e, x.region, x.ip) ==> e.version != x.version)
    ensures Superseded(Apply(s, e, ttl), x)
  {
    PairKey(x.region, x.ip);
    if e.Report? {
      PairKey(e.region, e.ip);
    }
  }

  lemma ToZeroStep(s: State, e: Event, ttl: int, x: Series)
    requires WellKeyed(s) && Enabled(s, e) && Superseded(s, x)
    ensures ToZero(Apply(s, e, ttl), x) <==> ToZero(s, x) && e != Zero(KeyOf(x.region, x.ip))
  {
  }

  lemma SupersededStep(s: State, e: Event, ttl: int, x: Series)
    requires WellKeyed(s) && PairKeys(s) && Enabled(s, e) && SepFreeEvent(e) && Superseded(s, x)
    requires SepFree(x.region) && SepFree(x.ip) && (Reports(e, x.region, x.ip) ==> e.version != x.version)
    ensures Superseded(Apply(s, e, ttl), x) && OnlyPendingZero(s, Apply(s, e, ttl), x)
  {
    SupersededStays(s, e, ttl, x);
    SupersededGauge(s, e, ttl, x);
    ToZeroStep(s, e, ttl, x);
  }

  lemma SupersededGauge(s: State, e: Event, ttl: int, x: Series)
    requires WellKeyed(s) && PairKeys(s) && Enabled(s, e) && Superseded(s, x)
    requires SepFree(x.region) && SepFree(x.ip)
    ensures var g, g' := s.gauge, Apply(s, e, ttl).gauge;
      if e == Zero(KeyOf(x.region, x.ip)) && ToZero(s, x) then x in g' && g'[x] == 0 else SameValue(g, g', x)
  {
    match e
    case Zero(k) => PairSeries(k, s.pending[k], x);
    case DotWrite(k) => PairSeries(k, s.marking.value[k], x);
    case Expire(now) =>
      var gone := C.Expired(s.cache, now);
      forall k | k in gone ensures SeriesOf(k, gone[k]) != x {
        PairSeries(k, gone[k], x);
      }
    case _ =>
  }

  lemma {:induction false} SupersededUntil(ss: seq<State>, es: seq<Event>, ttl: int, m: nat, n: nat, x: Series)
    requires Behavior(ss, es, ttl) && SepFreeReports(es) && m <= n <= |es| && NotReported(es, m, n, x)
    requires SepFree(x.region) && SepFree(x.ip) && Superseded(ss[m], x)
    ensures Superseded(ss[n], x) && OnlyPendingZero(ss[m], ss[n], x)
    decreases n
  {
    if m < n {
      SupersededUntil(ss, es, ttl, m, n - 1, x);
      RunPairKeys(ss, es, ttl, n - 1);
      assert StepAt(ss, es, ttl, n - 1);
      SupersededStep(ss[n - 1], es[n - 1], ttl, x);
      OnlyPendingZeroTransitive(ss[m], ss[n - 1], ss[n], x);
    }
  }

  /** The exact value after a report of another version, until the old one is reported again: the old
      version's series keeps the value it has, 1 included, unless a callback of an earlier eviction had
      yet to set it to 0 and has done so since. */
  lemma VersionChangeExactly(ss: seq<State>, es: seq<Event>, ttl: int, j: nat, n: nat, x: Series)
    requires Behavior(ss, es, ttl) && SepFreeReports(es) && j < n <= |es| && NotReported(es, j, n, x)
    requires Reports(es[j], x.region, x.ip) && SepFree(x.region) && SepFree(x.ip)
    ensures OnlyPendingZero(ss[j], ss[n], x)
  {
    assert StepAt(ss, es, ttl, j);
    SupersededUntil(ss, es, ttl, j + 1, n, x);
  }

  /** At event `j` the callback of an evicted agent sets the series of its version to 0. */
  ghost predicate ZeroedAt(ss: seq<State>, es: seq<Event>, j: int, x: Series)
    requires |ss| == |es| + 1
  {
    var k := KeyOf(x.region, x.ip);
    && 0 <= j < |es| && es[j] == Zero(k) && k in ss[j].pending && ss[j].pending[k] == x.version
    && (k in ss[j].cache ==> ss[j].cache[k].value != x.version)
  }

  /** The exact value from then on, until that very version is reported again: 0, unless the export
      under way at the zeroing had copied the entry before it was evicted and has written it since. */
  lemma OfflineValueExactly(ss: seq<State>, es: seq<Event>, ttl: int, j: nat, n: nat, x: Series)
    requires Behavior(ss, es, ttl) && SepFreeReports(es) && j < n <= |es| && NotReported(es, j + 1, n, x)
    requires SepFree(x.region) && SepFree(x.ip) && ZeroedAt(ss, es, j, x)
    ensures x in ss[n].gauge && ss[n].gauge[x] == if ToWrite(ss[j], x) && !ToWrite(ss[n], x) then 1 else 0
  {
    assert StepAt(ss, es, ttl, j);
    PairKey(x.region, x.ip);
    RetiredUntil(ss, es, ttl, j + 1, n, x);
  }

  /** In every continuation without a report of that version the series is 0. */
  ghost predicate OfflineForGood(ss: seq<State>, es: seq<Event>, ttl: int, x: Series) {
    forall ss': seq<State>, es': seq<Event> ::
      Behavior(ss', es', ttl) && SepFreeReports(es') && ss <= ss' && es <= es' && NotReported(es', |es|, |es'|, x)
      ==> x in ss'[|es'|].gauge && ss'[|es'|].gauge[x] == 0
  }

  /** Going offline is published for good if and only if, when the callback writes its 0, no export
      that copied the entry before the eviction is still to write it. */
  lemma OfflineForGoodExactly(ss: seq<State>, es: seq<Event>, ttl: int, x: Series)
    requires Behavior(ss, es, ttl) && SepFreeReports(es) && SepFree(x.region) && SepFree(x.ip)
    requires es != [] && ZeroedAt(ss, es, |es| - 1, x)
    ensures OfflineForGood(ss, es, ttl, x) <==> !ToWrite(ss[|es| - 1], x)
  {
    var j := |es| - 1;
    if ToWrite(ss[j], x) {
      StaleWriteFollows(ss, es, ttl, x);
    } else {
      forall ss': seq<State>, es': seq<Event>
        | Behavior(ss', es', ttl) && SepFreeReports(es') && ss <= ss' && es <= es' && NotReported(es', |es|, |es'|, x)
        ensures x in ss'[|es'|].gauge && ss'[|es'|].gauge[x] == 0
      {
        OfflineValueExactly(ss', es', ttl, j, |es'|, x);
      }
    }
  }

  lemma StaleWriteFollows(ss: seq<State>, es: seq<Event>, ttl: int, x: Series)
    requires Behavior(ss, es, ttl) && SepFreeReports(es) && SepFree(x.region) && SepFree(x.ip)
    requires es != [] && ZeroedAt(ss, es, |es| - 1, x) && ToWrite(ss[|es| - 1], x)
    ensures !OfflineForGood(ss, es, ttl, x)
  {
    var k := KeyOf(x.region, x.ip);
    assert StepAt(ss, es, ttl, |es| - 1);
    PairKey(x.region, x.ip);
    var ss', es' := Extend(ss, es, ttl, DotWrite(k));
    assert SepFreeReports(es') by {
      assert forall i :: 0 <= i < |es| ==> es'[i] == es[i] && SepFreeEvent(es[i]);
    }
    assert ss'[|es'|].gauge[x] == 1;
    assert es <= es' && NotReported(es', |es|, |es'|, x);
  }

  /** The run that leaves an offline agent at 1, for every agent and lifetime: an export copies the
      entry; sweep and callback's 0 come before its write; then the callback finishes. The agent is in
      neither cache nor index, and nothing is left that would set its series to 0. */
  lemma StaleDotRun(x: Series, ttl: int) returns (ss: seq<State>, es: seq<Event>)
    requires SepFree(x.region) && SepFree(x.ip) && ttl > 0
    ensures Behavior(ss, es, ttl) && SepFreeReports(es)
    ensures var s := ss[|es|];
      && x in s.gauge && s.gauge[x] == 1 && VersionRetired(s, x) && !ToWrite(s, x)
      && s.cache == map[] && s.pending == map[] && !InIndex(s.index, x.region, x.ip)
  {
    var k := KeyOf(x.region, x.ip);
    PairKey(x.region, x.ip);
    ss, es := CopiedThenSwept(x, ttl);
    ss, es := Extend(ss, es, ttl, Zero(k));
    ss, es := Extend(ss, es, ttl, DotWrite(k));
    assert ss[|es|].marking.value == map[];
    ss, es := Extend(ss, es, ttl, DotEnd);
    ss, es := Extend(ss, es, ttl, Callback(k));
  }

  lemma CopiedThenSwept(x: Series, ttl: int) returns (ss: seq<State>, es: seq<Event>)
    requires SepFree(x.region) && SepFree(x.ip) && ttl > 0
    ensures Behavior(ss, es, ttl) && SepFreeReports(es)
    ensures var s, k := ss[|es|], KeyOf(x.region, x.ip);
      && WellKeyed(s) && s.cache == map[] && s.zeroed.None?
      && s.pending == map[k := x.version] && s.marking == Some(map[k := x.version])
  {
    ss, es := ReportedThenCopied(x, ttl, ttl);
    ss, es := Extend(ss, es, ttl, Tick(ttl + 1));
  }

  /** One agent has reported, and an export has copied its entry. */
  lemma ReportedThenCopied(x: Series, now: int, ttl: int) returns (ss: seq<State>, es: seq<Event>)
    requires SepFree(x.region) && SepFree(x.ip) && 0 <= now <= ttl
    ensures Behavior(ss, es, ttl) && SepFreeReports(es)
    ensures var s, k := ss[|es|], KeyOf(x.region, x.ip);
      && WellKeyed(s) && s.cache == map[k := C.Entry(x.version, ttl)] && s.zeroed.None? && s.pending == map[]
      && s.marking == Some(map[k := x.version])
  {
    PairKey(x.region, x.ip);
    ss, es := Start(ttl);
    ss, es := Extend(ss, es, ttl, Report(x.region, x.ip, x.version, 0));
    ss, es := Extend(ss, es, ttl, DotCopy(now));
    CopyOfOne(KeyOf(x.region, x.ip), x.version, ttl, now);
  }

  lemma CopyOfOne(k: Str, version: Str, expiry: int, now: int)
    requires now <= expiry
    ensures LiveItems(map[k := C.Entry(version, expiry)], now) == map[k := version]
  {
  }

  /** A version change leaves the old series at 1: report, export, report of a newer version. */
  lemma UpgradeLeavesOldSeries(x: Series, newer: Str, ttl: int) returns (ss: seq<State>, es: seq<Event>)
    requires SepFree(x.region) && SepFree(x.ip) && x.version != newer && ttl > 0
    ensures Behavior(ss, es, ttl) && VersionRetired(ss[|es|], x) && !ToWrite(ss[|es|], x)
    ensures x in ss[|es|].gauge && ss[|es|].gauge[x] == 1
  {
    var k := KeyOf(x.region, x.ip);
    PairKey(x.region, x.ip);
    ss, es := ReportedThenCopied(x, 0, ttl);
    ss, es := Extend(ss, es, ttl, DotWrite(k));
    assert ss[|es|].marking.value == map[];
    ss, es := Extend(ss, es, ttl, DotEnd);
    ss, es := Extend(ss, es, ttl, Report(x.region, x.ip, newer, 0));
  }

  // ----- what an export writes -----

  /** The last report of the pair among the first `n` events, with this version and at most a lifetime old. */
  ghost predicate AliveBy(es: seq<Event>, n: nat, x: Series, ttl: int, now: int) {
    exists i :: 0 <= i < n <= |es| && LastReportAt(es, n, x, i) && now <= es[i].now + ttl
  }

  ghost predicate LastReportAt(es: seq<Event>, n: nat, x: Series, i: int) {
    && 0 <= i < n <= |es| && Reports(es[i], x.region, x.ip) && es[i].version == x.version
    && forall j :: i < j < n ==> !Reports(es[j], x.region, x.ip)
  }

  lemma LastReportIsPut(es: seq<Event>, n: nat, region: Str, ip: Str, i: int)
    requires n <= |es| && SepFreeReports(es) && SepFree(region) && SepFree(ip)
    ensures C.LastPut(Ops(es[..n]), KeyOf(region, ip), i) <==>
      0 <= i < n && Reports(es[i], region, ip) && forall j :: i < j < n ==> !Reports(es[j], region, ip)
  {
    PairKey(region, ip);
    forall j | 0 <= j < n ensures C.PutAt(Ops(es[..n]), KeyOf(region, ip), j) <==> Reports(es[j], region, ip) {
      assert SepFreeEvent(es[j]);
      if es[j].Report? {
        PairKey(es[j].region, es[j].ip);
      }
    }
  }

  /** In every interleaving a copy of the live entries at time `now`, no earlier than any event before,
      holds a pair with a version exactly if the pair's last report named that version and is at most a
      lifetime old: an expired entry counts for nothing, swept or not. */
  lemma CopyIsAlive(ss: seq<State>, es: seq<Event>, ttl: int, n: nat, now: int, x: Series)
    requires Behavior(ss, es, ttl) && n <= |es| && SepFreeReports(es) && SepFree(x.region) && SepFree(x.ip)
    requires forall i :: 0 <= i < n && !Ops(es)[i].Other? ==> Ops(es)[i].at <= now
    ensures var k := KeyOf(x.region, x.ip); var items := LiveItems(ss[n].cache, now);
      k in items && items[k] == x.version <==> AliveBy(es, n, x, ttl, now)
  {
    var k, ops := KeyOf(x.region, x.ip), Ops(es[..n]);
    CacheHistory(ss, es, ttl, n);
    C.PresentExactly(ops, k, ttl);
    if k in LiveItems(ss[n].cache, now) {
      var i :| C.LastPut(ops, k, i) && C.SurvivesSweeps(ops, i, ttl);
      LastReportIsPut(es, n, x.region, x.ip, i);
      assert ss[n].cache[k] == C.Entry(ops[i].value, ops[i].at + ttl);
      assert ops[i].value == x.version ==> LastReportAt(es, n, x, i);
      forall j | LastReportAt(es, n, x, j) ensures j == i {
        LastReportIsPut(es, n, x.region, x.ip, j);
      }
    }
    if AliveBy(es, n, x, ttl, now) {
      var i :| 0 <= i < n && LastReportAt(es, n, x, i) && now <= es[i].now + ttl;
      LastReportIsPut(es, n, x.region, x.ip, i);
      assert forall j :: 0 <= j < n ==> ops[j] == Ops(es)[j];
      assert C.SurvivesSweeps(ops, i, ttl);
    }
  }

  /** An uninterrupted export writes 1 to exactly the series of the agents alive by their last report. */
  lemma ExportExactly(ss: seq<State>, es: seq<Event>, ttl: int, n: nat, now: int, x: Series)
    requires Behavior(ss, es, ttl) && n <= |es| && SepFreeReports(es) && SepFree(x.region) && SepFree(x.ip)
    requires forall i :: 0 <= i < n && !Ops(es)[i].Other? ==> Ops(es)[i].at <= now
    ensures WellKeyed(ss[n])
    ensures var g := SetAll(ss[n].gauge, SeriesOfItems(LiveItems(ss[n].cache, now)), 1);
      if AliveBy(es, n, x, ttl, now) then x in g && g[x] == 1 else SameValue(ss[n].gauge, g, x)
  {
    KeysAlwaysSplit(ss, es, ttl, n);
    RunPairKeys(ss, es, ttl, n);
    CopyIsAlive(ss, es, ttl, n, now, x);
    var items := LiveItems(ss[n].cache, now);
    var k := KeyOf(x.region, x.ip);
    PairKey(x.region, x.ip);
    forall q | q in items ensures SeriesOf(q, items[q]) == x <==> q == k && items[q] == x.version {
      PairSeries(q, items[q], x);
    }
    assert x in SeriesOfItems(items) <==> k in items && items[k] == x.version;
  }

  /** Readiness is announced by the first report and never withdrawn. */
  lemma {:induction false} ReadyExactly(ss: seq<State>, es: seq<Event>, ttl: int, n: nat)
    requires Behavior(ss, es, ttl) && n <= |es|
    ensures ss[n].ready <==> exists i :: 0 <= i < n && es[i].Report?
  {
    if n > 0 {
      ReadyExactly(ss, es, ttl, n - 1);
      assert StepAt(ss, es, ttl, n - 1);
    }
  }

  // ----- the value of a series -----

  /** Event `i` sets the series of `x` to 1, from a copied entry, or to 0, from an evicted one. */
  ghost predicate Marks(ss: seq<State>, es: seq<Event>, x: Series, i: int)
    requires |ss| == |es| + 1
  {
    0 <= i < |es| && es[i] == DotWrite(KeyOf(x.region, x.ip)) && ToWrite(ss[i], x)
  }

  ghost predicate Zeroes(ss: seq<State>, es: seq<Event>, x: Series, i: int)
    requires |ss| == |es| + 1
  {
    && 0 <= i < |es| && es[i] == Zero(KeyOf(x.region, x.ip))
    && KeyOf(x.region, x.ip) in ss[i].pending && ss[i].pending[KeyOf(x.region, x.ip)] == x.version
  }

  lemma GaugeStep(s: State, e: Event, ttl: int, x: Series)
    requires WellKeyed(s) && PairKeys(s) && Enabled(s, e) && !e.Expire? && SepFree(x.region) && SepFree(x.ip)
    ensures var k, g, g' := KeyOf(x.region, x.ip), s.gauge, Apply(s, e, ttl).gauge;
      if e == DotWrite(k) && ToWrite(s, x) then x in g' && g'[x] == 1
      else if e == Zero(k) && s.pending[k] == x.version then x in g' && g'[x] == 0
      else SameValue(g, g', x)
  {
    match e
    case Zero(k) => PairSeries(k, s.pending[k], x);
    case DotWrite(k) => PairSeries(k, s.marking.value[k], x);
    case _ =>
  }

  /** The gauge in every interleaving: a series has the value of the last event that marked or zeroed it,
      and is not exported before the first. */
  lemma {:induction false} GaugeExactly(ss: seq<State>, es: seq<Event>, ttl: int, n: nat, x: Series)
    requires Behavior(ss, es, ttl) && n <= |es| && SepFreeReports(es) && SepFree(x.region) && SepFree(x.ip)
    requires forall i :: 0 <= i < |es| ==> !es[i].Expire?
    ensures x in ss[n].gauge <==> exists i :: 0 <= i < n && (Marks(ss, es, x, i) || Zeroes(ss, es, x, i))
    ensures x in ss[n].gauge ==> ss[n].gauge[x] == 0 || ss[n].gauge[x] == 1
    ensures x in ss[n].gauge ==> (ss[n].gauge[x] == 1 <==> exists i :: MarkedSince(ss, es, x, n, i))
  {
    if n > 0 {
      var m := n - 1;
      GaugeExactly(ss, es, ttl, m, x);
      RunPairKeys(ss, es, ttl, m);
      assert StepAt(ss, es, ttl, m);
      GaugeStep(ss[m], es[m], ttl, x);
      if Marks(ss, es, x, m) {
        assert MarkedSince(ss, es, x, n, m);
      } else {
        GaugeStays(ss, es, x, m, n);
      }
    }
  }

  /** Event `i` is a mark with no zeroing between it and state `n`. */
  ghost predicate MarkedSince(ss: seq<State>, es: seq<Event>, x: Series, n: nat, i: int)
    requires |ss| == |es| + 1
  {
    0 <= i < n && Marks(ss, es, x, i) && forall j :: i < j < n ==> !Zeroes(ss, es, x, j)
  }

  lemma GaugeStays(ss: seq<State>, es: seq<Event>, x: Series, m: nat, n: nat)
    requires |ss| == |es| + 1 && m < |es| && n == m + 1 && !Marks(ss, es, x, m)
    ensures (exists i :: MarkedSince(ss, es, x, n, i)) <==>
      !Zeroes(ss, es, x, m) && exists i :: MarkedSince(ss, es, x, m, i)
    ensures (exists i :: 0 <= i < n && (Marks(ss, es, x, i) || Zeroes(ss, es, x, i)))
      <==> Zeroes(ss, es, x, m) || exists i :: 0 <= i < m && (Marks(ss, es, x, i) || Zeroes(ss, es, x, i))
  {
    forall i ensures MarkedSince(ss, es, x, n, i) <==> MarkedSince(ss, es, x, m, i) && !Zeroes(ss, es, x, m) {
    }
  }
}
