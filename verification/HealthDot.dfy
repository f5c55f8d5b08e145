/**
 The imperative side of pkg/server/healthdot.go: each method performs one event of the
 `Liveness` machine on the fields it shares with the other actors.
 */
module HealthDot {
  import opened Common
  import opened Keys
  import opened Liveness
  import C = TtlCache

  class HealthDot {
    const ttl: int
    var agentPool: C.Cache<Str>
    var evicted: map<Str, Str>
    var zeroed: Option<Str>
    var marking: Option<map<Str, Str>>
    var discoverPool: Index
    var gauge: map<Series, int>
    var ready: bool

    ghost function View(): State
      reads this
    {
      State(agentPool, evicted, zeroed, marking, discoverPool, gauge, ready)
    }

    ghost predicate Valid()
      reads this
    {
      WellKeyed(View())
    }

    /** The cache lifetime, and the janitor's period, are `ratio * expires`. */
    constructor (expires: int, ratio: int)
      ensures Valid() && View() == INIT && ttl == ratio * expires
    {
      ttl := ratio * expires;
      agentPool, evicted, zeroed, marking := map[], map[], None, None;
      discoverPool, gauge, ready := map[], map[], false;
    }

    method Report(region: Str, ip: Str, version: Str, now: int)
      requires Valid() && marking.None?
      modifies this
      ensures Valid() && View() == Apply(old(View()), Event.Report(region, ip, version, now), ttl)
    {
      var key := JoinKey([region, ip]);
      agentPool := C.SetDefault(agentPool, key, version, now, ttl);
      if region in discoverPool {
        discoverPool := discoverPool[region := discoverPool[region] + {ip}];
      } else {
        discoverPool := discoverPool[region := {ip}];
      }
      if !ready {
        ready := true;
      }
      assert {} + {ip} == {ip};
      PairTarget(region, ip);
    }

    /** The janitor's sweep: entries leave the cache at once, their callbacks run later. */
    method DeleteExpired(now: int)
      requires Valid() && evicted == map[]
      modifies this
      ensures Valid() && View() == Apply(old(View()), Tick(now), ttl)
    {
      evicted := C.Expired(agentPool, now);
      agentPool := C.DeleteExpired(agentPool, now);
    }

    /** The callback up to the mutex: the gauge is written without it. */
    method ZeroEvicted(key: Str)
      requires Valid() && key in evicted && zeroed.None?
      modifies this
      ensures Valid() && View() == Apply(old(View()), Zero(key), ttl)
    {
      var sks := SplitKey(key);
      var version := evicted[key];
      gauge := gauge[Series(sks[0], sks[1], version) := 0];
      zeroed := Some(key);
    }

    /** The callback under the mutex. */
    method RemoveEvicted(key: Str)
      requires Valid() && key in evicted && zeroed == Some(key) && marking.None?
      modifies this
      ensures Valid() && View() == Apply(old(View()), Callback(key), ttl)
    {
      var sks := SplitKey(key);
      if sks[0] in discoverPool {
        discoverPool := discoverPool[sks[0] := discoverPool[sks[0]] - {sks[1]}];
      }
      evicted, zeroed := evicted - {key}, None;
    }

    /** The whole callback, if nothing comes between its two steps. */
    method OnEvicted(key: Str)
      requires Valid() && key in evicted && zeroed.None? && marking.None?
      modifies this
      ensures Valid() && View() == Apply(Apply(old(View()), Zero(key), ttl), Callback(key), ttl)
    {
      ZeroEvicted(key);
      RemoveEvicted(key);
    }

    /** `Items`: a copy of the unexpired entries. */
    method CopyItems(now: int)
      requires Valid() && marking.None?
      modifies this`marking
      ensures Valid() && View() == Apply(old(View()), DotCopy(now), ttl)
    {
      marking := Some(LiveItems(agentPool, now));
    }

    /** The body of the export loop for one copied entry. */
    method MarkAlive(key: Str)
      requires Valid() && marking.Some? && key in marking.value
      modifies this`marking, this`gauge
      ensures Valid() && View() == Apply(old(View()), DotWrite(key), ttl)
      ensures gauge == old(gauge)[SeriesOf(key, old(marking).value[key]) := 1]
      ensures marking == Some(old(marking).value - {key})
    {
      var sks := SplitKey(key);
      var version := marking.value[key];
      gauge := gauge[Series(sks[0], sks[1], version) := 1];
      marking := Some(marking.value - {key});
    }

    /** The export loop, in whatever order the map yields the entries. */
    method MarkAll()
      requires Valid() && marking.Some?
      modifies this`marking, this`gauge
      ensures Valid() && marking == Some(map[])
      ensures gauge == SetAll(old(gauge), SeriesOfItems(old(marking).value), 1)
    {
      ghost var marked: set<Series> := {};
      ghost var all := marking.value;
      ExportNone(gauge, all);
      while |marking.value| > 0
        invariant Valid() && marking.Some?
        invariant Exporting(old(gauge), gauge, marked, marking.value, all)
        decreases |marking.value|
      {
        var key :| key in marking.value.Keys;
        ghost var x := SeriesOf(key, marking.value[key]);
        ExportNext(old(gauge), gauge, marked, marking.value, all, key);
        MarkAlive(key);
        marked := marked + {x};
      }
      ExportAll(old(gauge), gauge, marked, marking.value, all);
    }

    /** An export without interruption sets exactly the series of the live entries to 1. */
    method Dot(now: int)
      requires Valid() && marking.None?
      modifies this`marking, this`gauge
      ensures Valid() && marking.None?
      ensures gauge == SetAll(old(gauge), SeriesOfItems(LiveItems(agentPool, now)), 1)
    {
      CopyItems(now);
      MarkAll();
      marking := None;
    }

    /** A deep copy: later updates of the index do not reach the returned map. */
    method Snapshot() returns (snapshot: Index)
      ensures snapshot == discoverPool
    {
      snapshot := map[];
      var todo := discoverPool.Keys;
      while todo != {}
        invariant todo <= discoverPool.Keys
        invariant snapshot == map r | r in discoverPool && r !in todo :: discoverPool[r]
        decreases |todo|
      {
        var region :| region in todo;
        var m: set<Str> := {};
        var ips := discoverPool[region];
        while ips != {}
          invariant ips <= discoverPool[region] && m == discoverPool[region] - ips
          decreases |ips|
        {
          var ip :| ip in ips;
          m, ips := m + {ip}, ips - {ip};
        }
        assert m == discoverPool[region];
        snapshot, todo := snapshot[region := m], todo - {region};
      }
    }
  }
}
