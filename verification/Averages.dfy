/**
 The values one aggregation round publishes: `dotHTTP` and `dotICMP` of pkg/server/aggregator.go,
 as functions of a container, and what they say about the reports behind it.
 */
module Averages {
  import opened Keys
  import opened GroupBy

  const LOSS: Str := [0x6C, 0x6F, 0x73, 0x73]
  const STDDEV: Str := [0x73, 0x74, 0x64, 0x64, 0x65, 0x76]

  function Mean(c: Container, stage: Str): real
    requires stage in c.phase && c.batchCnt > 0
  {
    c.phase[stage] / c.batchCnt as real
  }

  /** Go's integer division truncates towards zero. */
  function TruncDiv(a: int, n: int): int
    requires n > 0
  {
    if a >= 0 then a / n else -(-a / n)
  }

  function SumCodes(codes: seq<int>): int {
    if codes == [] then 0 else SumCodes(codes[..|codes| - 1]) + codes[|codes| - 1]
  }

  /** The published status code. */
  function StatusOf(codes: seq<int>): int {
    if |codes| > 0 then TruncDiv(SumCodes(codes), |codes|) else 0
  }

  /** Sum of `f` over a set, in any order. */
  ghost function SumOver(f: Str -> real, keys: set<Str>): real
    decreases |keys|
  {
    if keys == {} then 0.0
    else
      var k :| k in keys;
      f(k) + SumOver(f, keys - {k})
  }

  lemma {:induction false} SumTakeAny(f: Str -> real, keys: set<Str>, k: Str)
    requires k in keys
    ensures SumOver(f, keys) == f(k) + SumOver(f, keys - {k})
    decreases |keys|
  {
    var q :| q in keys && SumOver(f, keys) == f(q) + SumOver(f, keys - {q});
    if q != k {
      SumTakeAny(f, keys - {q}, k);
      SumTakeAny(f, keys - {k}, q);
      assert keys - {q} - {k} == keys - {k} - {q};
    }
  }

  lemma {:induction false} SumSplit(f: Str -> real, g: Str -> real, h: Str -> real, keys: set<Str>)
    requires forall k :: k in keys ==> f(k) == g(k) + h(k)
    ensures SumOver(f, keys) == SumOver(g, keys) + SumOver(h, keys)
    decreases |keys|
  {
    if keys != {} {
      var k :| k in keys;
      SumSplit(f, g, h, keys - {k});
      SumTakeAny(f, keys, k);
      SumTakeAny(g, keys, k);
      SumTakeAny(h, keys, k);
    }
  }

  lemma {:induction false} SumZeros(f: Str -> real, keys: set<Str>, extra: set<Str>)
    requires extra <= keys && forall k :: k in extra ==> f(k) == 0.0
    ensures SumOver(f, keys) == SumOver(f, keys - extra)
    decreases |extra|
  {
    if extra != {} {
      var k :| k in extra;
      SumTakeAny(f, keys, k);
      SumZeros(f, keys - {k}, extra - {k});
      assert keys - {k} - (extra - {k}) == keys - extra;
    } else {
      assert keys - extra == keys;
    }
  }

  lemma {:induction false} SumSame(f: Str -> real, g: Str -> real, keys: set<Str>)
    requires forall k :: k in keys ==> f(k) == g(k)
    ensures SumOver(f, keys) == SumOver(g, keys)
    decreases |keys|
  {
    if keys != {} {
      var k :| k in keys;
      SumSame(f, g, keys - {k});
      SumTakeAny(f, keys, k);
      SumTakeAny(g, keys, k);
    }
  }

  /** The stages the duration histogram adds up. */
  function DurationStages(m: map<Str, real>): set<Str> {
    m.Keys - {LOSS, STDDEV}
  }

  /** The per-stage totals of a container. */
  ghost function TotalOf(c: Container): Str -> real {
    s => if s in c.phase then c.phase[s] else 0.0
  }

  /** The value `dotICMP` observes into the histogram: totals, not averages. */
  ghost function Observation(c: Container): real {
    SumOver(TotalOf(c), DurationStages(c.phase))
  }

  /** One report's own duration: all its stages but loss and stddev. */
  ghost function Duration(r: Report): real {
    SumOver(s => Carried(r, s), DurationStages(Fields(r)))
  }

  ghost function TotalDuration(rs: seq<Report>): real {
    if rs == [] then 0.0 else TotalDuration(rs[..|rs| - 1]) + Duration(rs[|rs| - 1])
  }

  // ----- the histogram: exchange of sums -----

  lemma {:induction false} ExchangeSums(rs: seq<Report>, stages: set<Str>)
    requires LOSS !in stages && STDDEV !in stages
    requires forall i :: 0 <= i < |rs| ==> DurationStages(Fields(rs[i])) <= stages
    ensures SumOver(s => StageSum(rs, s), stages) == TotalDuration(rs)
    decreases |rs|
  {
    if rs == [] {
      SumZeros(s => StageSum(rs, s), stages, stages);
      assert stages - stages == {};
    } else {
      var before, r := rs[..|rs| - 1], rs[|rs| - 1];
      assert forall i :: 0 <= i < |before| ==> before[i] == rs[i];
      ExchangeSums(before, stages);
      SumSplit(s => StageSum(rs, s), s => StageSum(before, s), s => Carried(r, s), stages);
      var own := DurationStages(Fields(r));
      SumZeros(s => Carried(r, s), stages, stages - own);
      assert stages - (stages - own) == own;
    }
  }

  /** The histogram observation of a group is the sum, over its successful reports, of their own
      durations: every stage but loss and stddev, whichever reports carry which stages. */
  lemma ObservationIsTotalDuration(c: Container, g: seq<Report>)
    requires Summarizes(c, g)
    ensures Observation(c) == TotalDuration(Successes(g))
  {
    var rs, stages := Successes(g), DurationStages(c.phase);
    forall i | 0 <= i < |rs| ensures DurationStages(Fields(rs[i])) <= stages {
      forall s | s in DurationStages(Fields(rs[i])) ensures s in stages {
        assert HasStage(rs, s);
      }
    }
    ExchangeSums(rs, stages);
    SumSame(TotalOf(c), s => StageSum(rs, s), stages);
  }

  // ----- means -----

  predicate AllCarry(rs: seq<Report>, stage: Str) {
    forall i :: 0 <= i < |rs| ==> stage in Fields(rs[i])
  }

  lemma {:induction false} SumBetween(rs: seq<Report>, stage: Str, lo: real, hi: real)
    requires AllCarry(rs, stage)
    requires forall i :: 0 <= i < |rs| ==> lo <= Fields(rs[i])[stage] <= hi
    ensures lo * |rs| as real <= StageSum(rs, stage) <= hi * |rs| as real
  {
    if rs != [] {
      var before := rs[..|rs| - 1];
      assert forall i :: 0 <= i < |before| ==> before[i] == rs[i];
      SumBetween(before, stage, lo, hi);
      var n := |before| as real;
      assert |rs| as real == n + 1.0;
      assert lo * (n + 1.0) == lo * n + lo && hi * (n + 1.0) == hi * n + hi;
    }
  }

  lemma DivideBetween(total: real, n: real, lo: real, hi: real)
    requires n > 0.0 && lo * n <= total <= hi * n
    ensures lo <= total / n <= hi
  {
    var q := total / n;
    assert q * n == total;
    assert q < lo ==> (lo - q) * n > 0.0;
    assert hi < q ==> (q - hi) * n > 0.0;
  }

  lemma SampleMeanBetween(rs: seq<Report>, stage: Str, lo: real, hi: real)
    requires rs != [] && AllCarry(rs, stage)
    requires forall i :: 0 <= i < |rs| ==> lo <= Fields(rs[i])[stage] <= hi
    ensures lo <= StageSum(rs, stage) / |rs| as real <= hi
  {
    SumBetween(rs, stage, lo, hi);
    DivideBetween(StageSum(rs, stage), |rs| as real, lo, hi);
  }

  lemma SummaryPhase(c: Container, g: seq<Report>, stage: Str)
    requires Summarizes(c, g) && stage in c.phase
    ensures c.batchCnt > 0 && c.batchCnt == |Successes(g)|
    ensures HasStage(Successes(g), stage) && c.phase[stage] == StageSum(Successes(g), stage)
  {
    DivisorsPositive(c, g);
  }

  /** When every success carries a stage, its published mean lies between any bounds on the
      successful samples; failed reports may have carried anything. */
  lemma MeanBetween(c: Container, g: seq<Report>, stage: Str, lo: real, hi: real)
    requires Summarizes(c, g) && stage in c.phase && AllCarry(Successes(g), stage)
    requires forall i :: 0 <= i < |Successes(g)| ==> lo <= Fields(Successes(g)[i])[stage] <= hi
    ensures c.batchCnt > 0 && lo <= Mean(c, stage) <= hi
  {
    SummaryPhase(c, g, stage);
    SampleMeanBetween(Successes(g), stage, lo, hi);
  }

  /** Failed reports cannot move a mean: groups with the same successes publish the same ones. */
  lemma {:induction false} FailuresDoNotMove(c: Container, g: seq<Report>, d: Container, h: seq<Report>)
    requires Summarizes(c, g) && Summarizes(d, h) && Successes(g) == Successes(h)
    ensures c.phase == d.phase && c.batchCnt == d.batchCnt
  {
    forall stage ensures stage in c.phase <==> stage in d.phase {
      assert stage in c.phase <==> HasStage(Successes(g), stage);
    }
  }

  lemma {:induction false} SumOrdered(rs: seq<Report>, a: Str, b: Str)
    requires AllCarry(rs, a) && AllCarry(rs, b)
    requires forall i :: 0 <= i < |rs| ==> Fields(rs[i])[a] <= Fields(rs[i])[b]
    ensures StageSum(rs, a) <= StageSum(rs, b)
  {
    if rs != [] {
      var before := rs[..|rs| - 1];
      assert forall i :: 0 <= i < |before| ==> before[i] == rs[i];
      SumOrdered(before, a, b);
    }
  }

  /** Order within every successful report carries over to the means: min <= rtt <= max. */
  lemma MeansOrdered(c: Container, g: seq<Report>, a: Str, b: Str)
    requires Summarizes(c, g) && a in c.phase && b in c.phase
    requires AllCarry(Successes(g), a) && AllCarry(Successes(g), b)
    requires forall i :: 0 <= i < |Successes(g)| ==>
      Fields(Successes(g)[i])[a] <= Fields(Successes(g)[i])[b]
    ensures c.batchCnt > 0 && Mean(c, a) <= Mean(c, b)
  {
    SummaryPhase(c, g, a);
    SummaryPhase(c, g, b);
    SumOrdered(Successes(g), a, b);
    DivideOrdered(c.phase[a], c.phase[b], c.batchCnt as real);
  }

  lemma DivideOrdered(x: real, y: real, n: real)
    requires n > 0.0 && x <= y
    ensures x / n <= y / n
  {
    DivideBetween(y, n, x / n, y / n);
  }

  function Carriers(rs: seq<Report>, stage: Str): nat {
    if rs == [] then 0
    else Carriers(rs[..|rs| - 1], stage) + (if stage in Fields(rs[|rs| - 1]) then 1 else 0)
  }

  lemma {:induction false} CarriersBound(rs: seq<Report>, stage: Str)
    ensures Carriers(rs, stage) <= |rs|
    ensures Carriers(rs, stage) == |rs| <==> AllCarry(rs, stage)
    ensures Carriers(rs, stage) > 0 <==> HasStage(rs, stage)
  {
    if rs != [] {
      var before := rs[..|rs| - 1];
      assert forall i :: 0 <= i < |before| ==> before[i] == rs[i];
      CarriersBound(before, stage);
      assert HasStage(rs, stage) <==> HasStage(before, stage) || stage in Fields(rs[|rs| - 1]) by {
        assert before + [rs[|rs| - 1]] == rs;
        HasStageSnoc(before, rs[|rs| - 1], stage);
      }
      if AllCarry(rs, stage) {
        assert AllCarry(before, stage);
      }
    }
  }

  /** The published value divides by all successes, not by those that carry the stage. It is the
      average over the carriers exactly when every success carries the stage or the total is 0;
      otherwise a stage some http probes lack, such as tls, is reported closer to zero. */
  lemma MeanIsCarrierAverage(c: Container, g: seq<Report>, stage: Str)
    requires Summarizes(c, g) && stage in c.phase
    ensures c.batchCnt > 0 && Carriers(Successes(g), stage) > 0
    ensures Mean(c, stage) == c.phase[stage] / Carriers(Successes(g), stage) as real
      <==> AllCarry(Successes(g), stage) || c.phase[stage] == 0.0
  {
    SummaryPhase(c, g, stage);
    CarriersBound(Successes(g), stage);
    EqualQuotients(c.phase[stage], c.batchCnt as real, Carriers(Successes(g), stage) as real);
  }

  lemma EqualQuotients(t: real, n: real, k: real)
    requires n > 0.0 && k > 0.0
    ensures t / n == t / k <==> n == k || t == 0.0
  {
    var x, y := t / n, t / k;
    assert x * n == t && y * k == t;
    assert x == y ==> x * (n - k) == 0.0;
  }

  // ----- status codes -----

  lemma {:induction false} CodesBetween(codes: seq<int>, lo: int, hi: int)
    requires forall i :: 0 <= i < |codes| ==> lo <= codes[i] <= hi
    ensures lo * |codes| <= SumCodes(codes) <= hi * |codes|
  {
    if codes != [] {
      var before := codes[..|codes| - 1];
      assert forall i :: 0 <= i < |before| ==> before[i] == codes[i];
      CodesBetween(before, lo, hi);
      assert lo * |codes| == lo * |before| + lo && hi * |codes| == hi * |before| + hi;
    }
  }

  lemma ScaleOrder(x: int, y: int, n: int)
    requires n > 0 && x * n < y * n
    ensures x < y
  {
    assert x >= y ==> (x - y) * n >= 0;
  }

  lemma EuclidBetween(a: int, n: int, lo: int, hi: int)
    requires n > 0 && lo * n <= a <= hi * n
    ensures lo <= a / n <= hi
  {
    var q := a / n;
    assert q * n <= a < (q + 1) * n;
    ScaleOrder(lo, q + 1, n);
    assert (hi + 1) * n == hi * n + n;
    ScaleOrder(q, hi + 1, n);
  }

  /** Truncating division of a sum stays between any bounds on the codes, of either sign. */
  lemma StatusBetween(codes: seq<int>, lo: int, hi: int)
    requires codes != [] && forall i :: 0 <= i < |codes| ==> lo <= codes[i] <= hi
    ensures lo <= StatusOf(codes) <= hi
  {
    var a, n := SumCodes(codes), |codes|;
    CodesBetween(codes, lo, hi);
    if a >= 0 {
      EuclidBetween(a, n, lo, hi);
    } else {
      assert -hi * n <= -a <= -lo * n;
      EuclidBetween(-a, n, -hi, -lo);
    }
  }

  /** When all reports of a group agree on the status code, that code is published. */
  lemma AgreedStatus(c: Container, g: seq<Report>, code: int)
    requires Summarizes(c, g) && forall i :: 0 <= i < |g| ==> g[i].statusCode == code
    ensures StatusOf(c.statusCodes) == code
  {
    StatusBetween(c.statusCodes, code, code);
  }
}
