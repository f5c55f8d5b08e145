/**
 The expiring cache behind the liveness table and the two metric holds (go-cache v2.1.0, a
 library outside the repository): a map whose entries carry an absolute expiry time.

 `SetDefault` overwrites and refreshes, the janitor's sweep removes exactly the entries whose
 expiry is strictly in the past, and reads see only unexpired entries.
 */
module TtlCache {
  import opened Keys

  datatype Entry<+V> = Entry(value: V, expiry: int)

  type Cache<V> = map<Str, Entry<V>>

  function SetDefault<V>(c: Cache<V>, key: Str, value: V, now: int, ttl: int): Cache<V> {
    c[key := Entry(value, now + ttl)]
  }

  predicate IsExpired<V>(c: Cache<V>, key: Str, now: int) {
    key in c && c[key].expiry < now
  }

  function DeleteExpired<V>(c: Cache<V>, now: int): Cache<V> {
    map key | key in c && !IsExpired(c, key, now) :: c[key]
  }

  /** What one sweep hands to the eviction callbacks. */
  function Expired<V>(c: Cache<V>, now: int): map<Str, V> {
    map key | key in c && IsExpired(c, key, now) :: c[key].value
  }

  /** A sweep hands exactly the entries it removes, with their values, to the callbacks: those whose
      expiry is strictly in the past. */
  lemma SweepPartitions<V>(c: Cache<V>, key: Str, now: int)
    requires key in c
    ensures c[key].expiry < now ==>
      key !in DeleteExpired(c, now) && key in Expired(c, now) && Expired(c, now)[key] == c[key].value
    ensures c[key].expiry >= now ==>
      key in DeleteExpired(c, now) && DeleteExpired(c, now)[key] == c[key] && key !in Expired(c, now)
  {
  }

  /** One operation of a cache history. `Other` stands for steps that do not touch the cache. */
  datatype Op<+V> = Put(key: Str, value: V, at: int) | Sweep(at: int) | Other

  function Apply<V>(c: Cache<V>, op: Op<V>, ttl: int): Cache<V> {
    match op
    case Put(key, value, at) => SetDefault(c, key, value, at, ttl)
    case Sweep(at) => DeleteExpired(c, at)
    case Other => c
  }

  function Run<V>(ops: seq<Op<V>>, ttl: int): Cache<V> {
    if ops == [] then map[] else Apply(Run(ops[..|ops| - 1], ttl), ops[|ops| - 1], ttl)
  }

  predicate PutAt<V>(ops: seq<Op<V>>, key: Str, i: int) {
    0 <= i < |ops| && ops[i].Put? && ops[i].key == key
  }

  ghost predicate LastPut<V>(ops: seq<Op<V>>, key: Str, i: int) {
    PutAt(ops, key, i) && forall j :: i < j < |ops| ==> !PutAt(ops, key, j)
  }

  /** Every sweep after step `i` comes within `ttl` of it. */
  ghost predicate SurvivesSweeps<V>(ops: seq<Op<V>>, i: int, ttl: int)
    requires 0 <= i < |ops| && ops[i].Put?
  {
    forall j :: i < j < |ops| && ops[j].Sweep? ==> ops[j].at <= ops[i].at + ttl
  }

  ghost predicate Present<V>(ops: seq<Op<V>>, key: Str, ttl: int) {
    exists i :: LastPut(ops, key, i) && SurvivesSweeps(ops, i, ttl)
  }

  /** The latest write of a key, if any, is unique. */
  lemma {:induction false} FindLastPut<V>(ops: seq<Op<V>>, key: Str, at: int) returns (i: int)
    requires PutAt(ops, key, at)
    ensures LastPut(ops, key, i) && at <= i
    decreases |ops| - at
  {
    if j :| at < j && PutAt(ops, key, j) {
      i := FindLastPut(ops, key, j);
    } else {
      i := at;
    }
  }

  /** Closed form of every history: a key is cached exactly when no sweep later than its last
      write comes more than `ttl` after that write, and then it holds that write's value. */
  lemma {:induction false} PresentExactly<V>(ops: seq<Op<V>>, key: Str, ttl: int)
    ensures key in Run(ops, ttl) <==> Present(ops, key, ttl)
    ensures forall i :: LastPut(ops, key, i) && key in Run(ops, ttl) ==>
      Run(ops, ttl)[key] == Entry(ops[i].value, ops[i].at + ttl)
  {
    if ops != [] {
      var n := |ops| - 1;
      var before := ops[..n];
      PresentExactly(before, key, ttl);
      if PutAt(ops, key, n) {
        assert LastPut(ops, key, n) && SurvivesSweeps(ops, n, ttl);
      } else {
        forall i ensures LastPut(ops, key, i) <==> LastPut(before, key, i) {
          assert forall j :: 0 <= j < n ==> (PutAt(ops, key, j) <==> PutAt(before, key, j));
        }
        StepPresence(ops, key, ttl);
      }
    }
  }

  /** A step that does not write `key` keeps it unless it is a sweep past its expiry. */
  lemma StepPresence<V>(ops: seq<Op<V>>, key: Str, ttl: int)
    requires ops != [] && !PutAt(ops, key, |ops| - 1)
    requires forall i :: LastPut(ops, key, i) <==> LastPut(ops[..|ops| - 1], key, i)
    ensures Present(ops, key, ttl) <==>
      Present(ops[..|ops| - 1], key, ttl) &&
      forall i :: LastPut(ops, key, i) && ops[|ops| - 1].Sweep? ==> ops[|ops| - 1].at <= ops[i].at + ttl
  {
    var n := |ops| - 1;
    var before := ops[..n];
    forall i | LastPut(ops, key, i)
      ensures SurvivesSweeps(ops, i, ttl) <==>
        SurvivesSweeps(before, i, ttl) && (ops[n].Sweep? ==> ops[n].at <= ops[i].at + ttl)
    {
      assert LastPut(before, key, i);
    }
    forall i, j | LastPut(ops, key, i) && LastPut(ops, key, j) ensures i == j {
    }
  }

  /** A key whose writes keep up with the sweeps is never lost: if some write of it precedes
      every sweep from `first` on by at most `ttl`, it is cached from `first` on. */
  lemma KeptWhileRefreshed<V>(ops: seq<Op<V>>, key: Str, ttl: int, first: int)
    requires PutAt(ops, key, first)
    requires forall j :: first < j < |ops| && ops[j].Sweep? ==> RecentPut(ops, key, j, ttl)
    requires Timed(ops)
    ensures key in Run(ops, ttl)
  {
    var last := FindLastPut(ops, key, first);
    forall j | last < j < |ops| && ops[j].Sweep? ensures ops[j].at <= ops[last].at + ttl {
      assert RecentPut(ops, key, j, ttl);
      var i :| 0 <= i < j && PutAt(ops, key, i) && ops[j].at <= ops[i].at + ttl;
      assert i <= last;
    }
    assert SurvivesSweeps(ops, last, ttl);
    PresentExactly(ops, key, ttl);
  }

  /** The same at every moment from `first` on. */
  lemma KeptThroughout<V>(ops: seq<Op<V>>, key: Str, ttl: int, first: int, n: int)
    requires PutAt(ops, key, first) && first < n <= |ops| && Timed(ops)
    requires forall j :: first < j < |ops| && ops[j].Sweep? ==> RecentPut(ops, key, j, ttl)
    ensures key in Run(ops[..n], ttl)
  {
    var prefix := ops[..n];
    assert forall i :: 0 <= i < n ==> prefix[i] == ops[i];
    forall j | first < j < n && prefix[j].Sweep? ensures RecentPut(prefix, key, j, ttl) {
      assert RecentPut(ops, key, j, ttl);
      var i :| 0 <= i < j && PutAt(ops, key, i) && ops[j].at <= ops[i].at + ttl;
      assert PutAt(prefix, key, i);
    }
    KeptWhileRefreshed(prefix, key, ttl, first);
  }

  ghost predicate RecentPut<V>(ops: seq<Op<V>>, key: Str, j: int, ttl: int)
    requires 0 <= j < |ops| && ops[j].Sweep?
  {
    exists i :: 0 <= i < j && PutAt(ops, key, i) && ops[j].at <= ops[i].at + ttl
  }

  /** The clock of a history never runs backwards. */
  ghost predicate Timed<V>(ops: seq<Op<V>>) {
    forall i, j :: 0 <= i < j < |ops| && !ops[i].Other? && !ops[j].Other? ==> ops[i].at <= ops[j].at
  }

  /** The janitor ticks at least once in every half-open interval of length `period` between
      `start` and `end`. */
  ghost predicate SweptEvery<V>(ops: seq<Op<V>>, period: int, start: int, end: int) {
    forall t :: start <= t && t + period <= end ==> SweptWithin(ops, t, period)
  }

  ghost predicate SweptWithin<V>(ops: seq<Op<V>>, t: int, period: int) {
    exists j :: 0 <= j < |ops| && ops[j].Sweep? && t < ops[j].at <= t + period
  }

  /** A key whose last write is at least `2 * ttl` old is gone when the janitor's period is `ttl`. */
  lemma GoneAfterTwoPeriods<V>(ops: seq<Op<V>>, key: Str, ttl: int, last: int, end: int)
    requires LastPut(ops, key, last) && Timed(ops) && ttl > 0
    requires ops[last].at + 2 * ttl <= end && SweptEvery(ops, ttl, ops[last].at, end)
    ensures key !in Run(ops, ttl)
  {
    assert SweptWithin(ops, ops[last].at + ttl, ttl);
    var j :| 0 <= j < |ops| && ops[j].Sweep? && ops[last].at + ttl < ops[j].at;
    assert last < j;
    PresentExactly(ops, key, ttl);
    forall i | LastPut(ops, key, i) ensures !SurvivesSweeps(ops, i, ttl) {
      assert i == last;
    }
  }
}
