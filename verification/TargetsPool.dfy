/**
 The imperative side of pkg/server/pool.go. Each method is one critical section of the pool's
 mutex, except `UpdateRound`, which is the loop of `updatePool` over one snapshot.
 */
module TargetsPool {
  import opened Keys
  import opened Pool

  class TargetsPool {
    var pool: Pool
    const probeSelfEnabled: bool

    constructor (probeSelfEnabled: bool)
      ensures pool == map[] && this.probeSelfEnabled == probeSelfEnabled
    {
      pool := map[];
      this.probeSelfEnabled := probeSelfEnabled;
    }

    /** Rebuilds the pool from the configuration; the previous pool is dropped. */
    method LoadPool(cfgs: seq<ProberConfig>)
      modifies this
      ensures pool == LoadFold(cfgs) && IsLastWins(pool, cfgs)
    {
      var loaded: Pool := map[];
      for i := 0 to |cfgs|
        invariant loaded == LoadFold(cfgs[..i])
      {
        var pc := cfgs[i];
        assert cfgs[..i + 1][..i] == cfgs[..i];
        if pc.region in loaded {
          var pcm := loaded[pc.region];
          pcm := pcm[pc.proberType := pc];
          loaded := loaded[pc.region := pcm];
        } else {
          loaded := loaded[pc.region := map[pc.proberType := pc]];
        }
      }
      assert cfgs[..|cfgs|] == cfgs;
      pool := loaded;
      LoadIsLastWins(cfgs);
    }

    /** Lists the addresses of one region, in whatever order the map yields them. */
    static method ListAddresses(ipm: set<Str>) returns (ips: seq<Str>)
      ensures ListsOnce(ips, ipm)
    {
      ips := [];
      var todo := ipm;
      while todo != {}
        invariant todo <= ipm && ListsOnce(ips, ipm - todo)
        decreases |todo|
      {
        var k :| k in todo;
        ips, todo := ips + [k], todo - {k};
      }
      assert ipm - todo == ipm;
    }

    /** The critical section for one region of the snapshot. */
    method OverlayRegion(region: Str, ips: seq<Str>)
      modifies this
      ensures pool == UpdateRegion(old(pool), region, ips)
    {
      if |ips| == 0 {
        if region in pool {
          if |pool[region]| > 0 {
            pool := pool[region := pool[region] - {ICMP}];
          } else {
            pool := pool - {region};
          }
        }
        return;
      }
      var updatePC := Discovered(region, ips);
      if region in pool {
        pool := pool[region := pool[region][ICMP := updatePC]];
      } else {
        pool := pool[region := map[ICMP := updatePC]];
      }
    }

    /** One uninterrupted round: whatever order the snapshot's regions come in, the pool ends as
        the order-free `RoundResult` of some listing of the snapshot. */
    method UpdateRound(snapshot: map<Str, set<Str>>) returns (ghost listed: map<Str, seq<Str>>)
      modifies this
      ensures Lists(listed, snapshot) && pool == RoundResult(old(pool), listed)
    {
      listed := map[];
      var todo := snapshot.Keys;
      EmptyRound(pool);
      while todo != {}
        invariant todo <= snapshot.Keys && listed.Keys == snapshot.Keys - todo
        invariant forall r :: r in listed ==> ListsOnce(listed[r], snapshot[r])
        invariant pool == RoundResult(old(pool), listed)
        decreases |todo|
      {
        var region :| region in todo;
        var ips := ListAddresses(snapshot[region]);
        OverlayRegion(region, ips);
        RoundStep(old(pool), listed, region, ips);
        listed, todo := listed[region := ips], todo - {region};
      }
    }

    /** The slice of one region's entries, in map order. */
    static method EntryList(pcm: Entries) returns (ps: seq<ProberConfig>)
      ensures ListsValues(ps, pcm)
    {
      ps := [];
      ghost var ts: seq<Str> := [];
      var todo := pcm.Keys;
      while todo != {}
        invariant todo <= pcm.Keys && ListsOnce(ts, pcm.Keys - todo) && |ps| == |ts|
        invariant forall i :: 0 <= i < |ps| ==> ps[i] == pcm[ts[i]]
        decreases |todo|
      {
        var t :| t in todo;
        ps, ts, todo := ps + [pcm[t]], ts + [t], todo - {t};
      }
      assert pcm.Keys - todo == pcm.Keys;
      assert ListsByType(ps, pcm, ts);
    }

    /** With self-probing off a source never receives its own region, whatever the pool. */
    method GetPool(sourceRegion: Str) returns (pcs: map<Str, seq<ProberConfig>>)
      ensures IsView(pcs, pool, probeSelfEnabled, sourceRegion)
      ensures !probeSelfEnabled ==> sourceRegion !in pcs
    {
      pcs := map[];
      var todo := pool.Keys;
      while todo != {}
        invariant todo <= pool.Keys
        invariant forall r :: r in pcs <==> r in pool && r !in todo && (probeSelfEnabled || r != sourceRegion)
        invariant forall r :: r in pcs ==> ListsValues(pcs[r], pool[r])
        decreases |todo|
      {
        var region :| region in todo;
        todo := todo - {region};
        if !probeSelfEnabled && region == sourceRegion {
          continue;
        }
        var ps := EntryList(pool[region]);
        pcs := pcs[region := ps];
      }
    }
  }
}
