/**
 The imperative side of pkg/server/aggregator.go: the queue, the nested-loop fold into
 containers, and the dots with their hold caches.
 */
module Aggregator {
  import opened Common
  import opened Keys
  import opened GroupBy
  import opened Averages
  import opened Publishing
  import opened Exports
  import H = SeriesHold
  import C = TtlCache

  /** The sums once the fields of the stages outside `todo` have been added. */
  ghost predicate Added(sums: map<Str, real>, phase: map<Str, real>, fields: map<Str, real>, todo: set<Str>) {
    && todo <= fields.Keys && sums.Keys == phase.Keys + (fields.Keys - todo)
    && forall s :: s in sums ==>
         sums[s] == (if s in phase then phase[s] else 0.0) + (if s in fields && s !in todo then fields[s] else 0.0)
  }

  lemma AddedNext(sums: map<Str, real>, phase: map<Str, real>, fields: map<Str, real>, todo: set<Str>, stage: Str)
    requires Added(sums, phase, fields, todo) && stage in todo
    ensures Added(sums[stage := (if stage in sums then sums[stage] else 0.0) + fields[stage]],
                  phase, fields, todo - {stage})
  {
    var total := (if stage in sums then sums[stage] else 0.0) + fields[stage];
    assert stage in sums <==> stage in phase;
    assert total == (if stage in phase then phase[stage] else 0.0) + fields[stage];
  }

  lemma AddedNone(phase: map<Str, real>, fields: map<Str, real>)
    ensures Added(phase, phase, fields, fields.Keys)
  {
  }

  lemma AddedAll(sums: map<Str, real>, phase: map<Str, real>, fields: map<Str, real>)
    requires Added(sums, phase, fields, {})
    ensures sums == AddFields(phase, fields)
  {
    assert sums.Keys == AddFields(phase, fields).Keys;
  }

  /** Adding one report's fields to the running sums, stage by stage in map order. */
  method AddPhases(phase: map<Str, real>, fields: map<Str, real>) returns (sums: map<Str, real>)
    ensures sums == AddFields(phase, fields)
  {
    sums := phase;
    var todo := fields.Keys;
    AddedNone(phase, fields);
    while todo != {}
      invariant Added(sums, phase, fields, todo)
      decreases |todo|
    {
      var stage :| stage in todo;
      AddedNext(sums, phase, fields, todo, stage);
      sums := sums[stage := (if stage in sums then sums[stage] else 0.0) + fields[stage]];
      todo := todo - {stage};
    }
    AddedAll(sums, phase, fields);
  }

  /** The body of the fold for one report. */
  method Accumulate(c: Container, pr: Report) returns (c': Container)
    ensures c' == AddReport(c, pr)
  {
    c' := c.(statusCodes := c.statusCodes + [pr.statusCode]);
    if pr.success {
      c' := c'.(batchCnt := c'.batchCnt + 1);
      var phase := AddPhases(c'.phase, Fields(pr));
      c' := c'.(phase := phase);
      if pr.tls.Some? && c'.tlsExpiry == 0 && |c'.tlsVersion| == 0 {
        c' := c'.(tlsVersion := pr.tls.value.version, tlsExpiry := pr.tls.value.expiry);
      }
      return;
    }
    if IsHttp(pr) && |pr.failedReason| > 0 && c'.failedReason == SUCCESS {
      c' := c'.(failedReason := pr.failedReason);
    }
    c' := c'.(failedCnt := c'.failedCnt + 1);
  }

  /** Both container maps summarize the reports seen. */
  ghost predicate FoldedBoth(httpAgg: map<Str, Container>, icmpAgg: map<Str, Container>, rs: seq<Report>) {
    Folded(httpAgg, rs, true) && Folded(icmpAgg, rs, false)
  }

  lemma FoldedBothNext(httpAgg: map<Str, Container>, icmpAgg: map<Str, Container>, rs: seq<Report>, r: Report)
    requires FoldedBoth(httpAgg, icmpAgg, rs)
    ensures FoldedBoth(if IsHttp(r) then AddToMap(httpAgg, r) else httpAgg,
                       if IsHttp(r) then icmpAgg else AddToMap(icmpAgg, r), rs + [r])
  {
    FoldedSnoc(httpAgg, rs, true, r);
    FoldedSnoc(icmpAgg, rs, false, r);
  }

  /** The inner loop, over one batch. */
  method FoldBatch(httpAgg: map<Str, Container>, icmpAgg: map<Str, Container>,
                   prs: seq<Report>, ghost seen: seq<Report>)
    returns (httpAgg': map<Str, Container>, icmpAgg': map<Str, Container>)
    requires FoldedBoth(httpAgg, icmpAgg, seen)
    ensures FoldedBoth(httpAgg', icmpAgg', seen + prs)
  {
    httpAgg', icmpAgg' := httpAgg, icmpAgg;
    assert seen + prs[..0] == seen;
    for j := 0 to |prs|
      invariant FoldedBoth(httpAgg', icmpAgg', seen + prs[..j])
    {
      var pr := prs[j];
      assert seen + prs[..j + 1] == seen + prs[..j] + [pr];
      FoldedBothNext(httpAgg', icmpAgg', seen + prs[..j], pr);
      if IsHttp(pr) {
        httpAgg' := AddTo(httpAgg', pr);
      } else {
        icmpAgg' := AddTo(icmpAgg', pr);
      }
    }
    assert prs[..|prs|] == prs;
  }

  /** One pass over the queue builds the summary of every group of either prober type. */
  method Fold(queue: seq<seq<Report>>) returns (httpAgg: map<Str, Container>, icmpAgg: map<Str, Container>)
    ensures FoldedBoth(httpAgg, icmpAgg, Flatten(queue))
  {
    httpAgg, icmpAgg := map[], map[];
    for i := 0 to |queue|
      invariant FoldedBoth(httpAgg, icmpAgg, Flatten(queue[..i]))
    {
      assert queue[..i + 1][..i] == queue[..i];
      httpAgg, icmpAgg := FoldBatch(httpAgg, icmpAgg, queue[i], Flatten(queue[..i]));
    }
    assert queue[..|queue|] == queue;
  }

  method AddTo(containers: map<Str, Container>, pr: Report) returns (containers': map<Str, Container>)
    ensures containers' == AddToMap(containers, pr)
  {
    var key := KeyOf(pr);
    containers' := containers;
    if key !in containers {
      containers' := containers'[key := NewContainer(pr)];
    }
    var container := Accumulate(containers'[key], pr);
    containers' := containers'[key := container];
  }

  /** The sum loop over the status codes. */
  method StatusCodeOf(codes: seq<int>) returns (code: int)
    ensures code == StatusOf(codes)
  {
    if |codes| == 0 {
      return 0;
    }
    var sum := 0;
    for i := 0 to |codes|
      invariant sum == SumCodes(codes[..i])
    {
      assert codes[..i + 1][..i] == codes[..i];
      sum := sum + codes[i];
    }
    assert codes[..|codes|] == codes;
    code := TruncDiv(sum, |codes|);
  }

  class Aggregator {
    var queue: seq<seq<Report>>
    var metrics: map<H.Series, real>
    var httpMetricsHold: H.HoldCache
    var icmpMetricsHold: H.HoldCache
    const ttl: int

    ghost function View(): H.State
      reads this`metrics, this`httpMetricsHold, this`icmpMetricsHold
    {
      H.State(metrics, icmpMetricsHold, httpMetricsHold, None)
    }

    /** The hold time, and the janitors' period, are `ratio * interval`. */
    constructor (interval: int, ratio: int)
      ensures queue == [] && View() == H.INIT && ttl == ratio * interval
    {
      queue, metrics, ttl := [], map[], ratio * interval;
      httpMetricsHold, icmpMetricsHold := H.EMPTY_HOLD, H.EMPTY_HOLD;
    }

    method Enqueue(reqs: seq<Report>)
      modifies this`queue
      ensures queue == old(queue) + [reqs]
    {
      queue := queue + [reqs];
    }

    method Reset()
      modifies this`queue
      ensures queue == []
    {
      queue := [];
    }

    /** `WithLabelValues(...).Set(...)`, followed by `setCache` for the held vectors. */
    method SetGauge(x: H.Series, value: real, now: int)
      modifies this`metrics, this`httpMetricsHold, this`icmpMetricsHold
      ensures View() == H.Dotted(old(View()), x, value, now, ttl)
    {
      metrics := metrics[x := value];
      if H.Held(x.vec) {
        var key := JoinKey(x.labels);
        if H.FamilyOf(x.vec).Icmp? {
          icmpMetricsHold :=
            icmpMetricsHold.(entries := C.SetDefault(icmpMetricsHold.entries, key, x.vec, now, ttl));
        } else {
          httpMetricsHold :=
            httpMetricsHold.(entries := C.SetDefault(httpMetricsHold.entries, key, x.vec, now, ttl));
        }
      }
    }

    /** Sets one gauge and extends the record of the dots made since state `s0`. */
    method Record(x: H.Series, value: real, now: int, ghost s0: H.State, ghost dots: Dots)
      returns (ghost dots': Dots)
      requires View() == DotAll(s0, dots, now, ttl)
      modifies this`metrics, this`httpMetricsHold, this`icmpMetricsHold
      ensures dots' == dots + [(x, value)] && View() == DotAll(s0, dots', now, ttl)
    {
      SetGauge(x, value, now);
      dots' := dots + [(x, value)];
      assert dots'[..|dots|] == dots;
    }

    /** The stage loop of `dotHTTP`, in map order. */
    method DotHttpStages(c: Container, now: int) returns (ghost dots: Dots)
      requires Publishable(c)
      modifies this`metrics, this`httpMetricsHold, this`icmpMetricsHold
      ensures View() == DotAll(old(View()), dots, now, ttl) && StageDots(dots, c, true, c.phase.Keys)
    {
      dots := [];
      var todo := c.phase.Keys;
      ghost var done: set<Str> := {};
      while todo != {}
        invariant todo + done == c.phase.Keys
        invariant View() == DotAll(old(View()), dots, now, ttl) && StageDots(dots, c, true, done)
        decreases |todo|
      {
        var stage :| stage in todo;
        HttpStageGrows(dots, c, done, stage);
        dots := Record(H.Series(H.HttpDuration, [stage] + HttpLabels(c)),
                       c.phase[stage] / c.batchCnt as real, now, old(View()), dots);
        done, todo := done + {stage}, todo - {stage};
      }
      assert done == c.phase.Keys;
    }

    /** One container of `dotHTTP`. */
    method DotHttpContainer(c: Container, now: int) returns (ghost dots: Dots)
      requires Publishable(c)
      modifies this`metrics, this`httpMetricsHold, this`icmpMetricsHold
      ensures View() == DotAll(old(View()), dots, now, ttl) && PublishHttp(dots, c)
    {
      dots := [];
      if |c.tlsVersion| > 0 && c.tlsExpiry != 0 {
        dots := Record(H.Series(H.SslExpiry, HttpLabels(c) + [c.tlsVersion]), c.tlsExpiry as real, now,
                       old(View()), dots);
      }
      var code := StatusCodeOf(c.statusCodes);
      dots := Record(H.Series(H.StatusCode, HttpLabels(c)), code as real, now, old(View()), dots);
      dots := Record(H.Series(H.HttpFailed, HttpLabels(c) + [c.failedReason]), c.failedCnt as real, now,
                     old(View()), dots);
      assert dots == HttpFixedDots(c);
      ghost var stages := DotHttpStages(c, now);
      DotAllConcat(old(View()), dots, stages, now, ttl);
      HttpContainerDots(c, stages);
      dots := dots + stages;
    }

    /** The gauge of one icmp stage: loss and jitter have vectors of their own, without a hold. */
    method DotIcmpStage(c: Container, stage: Str, now: int, ghost s0: H.State, ghost dots: Dots)
      returns (ghost dots': Dots)
      requires stage in c.phase && c.batchCnt > 0 && View() == DotAll(s0, dots, now, ttl)
      modifies this`metrics, this`httpMetricsHold, this`icmpMetricsHold
      ensures dots' == dots + [(IcmpStage(c, stage), Mean(c, stage))] && View() == DotAll(s0, dots', now, ttl)
    {
      var stageAgg := c.phase[stage] / c.batchCnt as real;
      if stage == LOSS {
        dots' := Record(H.Series(H.IcmpLoss, IcmpLabels(c)), stageAgg, now, s0, dots);
      } else if stage == STDDEV {
        dots' := Record(H.Series(H.IcmpJitter, IcmpLabels(c)), stageAgg, now, s0, dots);
      } else {
        dots' := Record(H.Series(H.IcmpDuration, [stage] + IcmpLabels(c)), stageAgg, now, s0, dots);
      }
    }

    /** The stage loop of `dotICMP`, which also adds up the histogram's observation. */
    method DotIcmpStages(c: Container, now: int) returns (total: real, ghost dots: Dots)
      requires Publishable(c)
      modifies this`metrics, this`httpMetricsHold, this`icmpMetricsHold
      ensures View() == DotAll(old(View()), dots, now, ttl)
      ensures IcmpProgress(c, dots, c.phase.Keys, total)
    {
      total, dots := 0.0, [];
      var todo := c.phase.Keys;
      ghost var s0 := View();
      IcmpProgressNone(c, todo);
      while todo != {}
        invariant todo <= c.phase.Keys
        invariant View() == DotAll(s0, dots, now, ttl)
        invariant IcmpProgress(c, dots, c.phase.Keys - todo, total)
        decreases |todo|
      {
        var stage :| stage in todo;
        IcmpProgressStep(c, dots, todo, stage, total);
        dots := DotIcmpStage(c, stage, now, s0, dots);
        if stage != LOSS && stage != STDDEV {
          total := total + c.phase[stage];
        }
        todo := todo - {stage};
      }
      assert c.phase.Keys - todo == c.phase.Keys;
    }

    /** One container of `dotICMP`. */
    method DotIcmpContainer(c: Container, now: int) returns (ghost dots: Dots)
      requires Publishable(c)
      modifies this`metrics, this`httpMetricsHold, this`icmpMetricsHold
      ensures View() == DotAll(old(View()), dots, now, ttl)
      ensures PublishIcmp(dots, c, Prior(old(metrics), HistogramOf(c)))
    {
      ghost var s0 := View();
      dots := Record(H.Series(H.IcmpFailed, IcmpLabels(c)), c.failedCnt as real, now, s0, []);
      var total;
      ghost var stages;
      total, stages := DotIcmpStages(c, now);
      DotAllConcat(s0, dots, stages, now, ttl);
      dots := dots + stages;
      var x := H.Series(H.IcmpHistogram, IcmpLabels(c));
      HistogramUntouched(s0, c, stages, now);
      ghost var prior := Prior(s0.metrics, x);
      dots := Record(x, Prior(metrics, x) + total, now, s0, dots);
      IcmpContainerDots(c, prior, stages);
    }

    /** The dots before the observation leave the histogram alone. */
    lemma HistogramUntouched(s0: H.State, c: Container, stages: Dots, now: int)
      requires StageDots(stages, c, false, c.phase.Keys)
      ensures var dots := [(H.Series(H.IcmpFailed, IcmpLabels(c)), c.failedCnt as real)] + stages;
        Prior(DotAll(s0, dots, now, ttl).metrics, HistogramOf(c)) == Prior(s0.metrics, HistogramOf(c))
    {
      var first := (H.Series(H.IcmpFailed, IcmpLabels(c)), c.failedCnt as real);
      var x := HistogramOf(c);
      LastDotConcat([first], stages, x);
      SnocDot([], first.0, first.1, x);
      assert [] + [first] == [first];
      assert LastDot(stages, x) == StageValue(c, false, c.phase.Keys, x);
      DotAllMetrics(s0, [first] + stages, now, ttl, x);
    }

    /** `dotHTTP`: whatever order the containers come in, each series ends with the value of the
        one container that owns it. */
    method DotHttp(aggs: map<Str, Container>, now: int) returns (ghost dots: Dots)
      requires KeyedByLabels(aggs, true)
      modifies this`metrics, this`httpMetricsHold, this`icmpMetricsHold
      ensures View() == DotAll(old(View()), dots, now, ttl) && PublishHttpRound(dots, aggs)
    {
      dots := [];
      var todo := aggs.Keys;
      ghost var s0 := View();
      assert aggs - todo == map[];
      while todo != {}
        invariant todo <= aggs.Keys && PublishHttpRound(dots, aggs - todo)
        invariant View() == DotAll(s0, dots, now, ttl)
        decreases |todo|
      {
        var k :| k in todo;
        assert KeyedContainer(aggs[k], k, true);
        ghost var more := DotHttpContainer(aggs[k], now);
        DotAllConcat(s0, dots, more, now, ttl);
        NextHttp(dots, aggs, todo, k, more);
        dots, todo := dots + more, todo - {k};
      }
      assert aggs - todo == aggs;
    }

    /** `dotICMP`: likewise. */
    method DotIcmp(aggs: map<Str, Container>, now: int) returns (ghost dots: Dots)
      requires KeyedByLabels(aggs, false)
      modifies this`metrics, this`httpMetricsHold, this`icmpMetricsHold
      ensures View() == DotAll(old(View()), dots, now, ttl) && PublishIcmpRound(dots, aggs, old(metrics))
    {
      dots := [];
      var todo := aggs.Keys;
      ghost var s0 := View();
      assert aggs - todo == map[];
      while todo != {}
        invariant todo <= aggs.Keys && PublishIcmpRound(dots, aggs - todo, s0.metrics)
        invariant View() == DotAll(s0, dots, now, ttl)
        decreases |todo|
      {
        var k :| k in todo;
        assert KeyedContainer(aggs[k], k, false);
        PriorUntouched(s0, dots, aggs - todo, k, aggs[k], now, ttl);
        ghost var more := DotIcmpContainer(aggs[k], now);
        DotAllConcat(s0, dots, more, now, ttl);
        NextIcmp(dots, aggs, todo, s0.metrics, k, more);
        dots, todo := dots + more, todo - {k};
      }
      assert aggs - todo == aggs;
    }

    /** One aggregation round run without interference: a non-empty queue is emptied, its reports
        are grouped, and exactly the groups' values are published, http first. */
    method Agg(now: int) returns (ghost round: RoundRun)
      modifies this
      ensures queue == []
      ensures old(queue) == [] ==> View() == old(View())
      ensures old(queue) != [] ==>
        && round.rs == Flatten(old(queue)) && round.before == old(View()) && round.now == now && round.ttl == ttl
        && Runs(round) && View() == DotAll(old(View()), round.hdots + round.idots, now, ttl)
    {
      round := RoundRun([], map[], map[], [], [], View(), now, ttl);
      if |queue| == 0 {
        return;
      }
      var httpAggMap, icmpAggMap := Fold(queue);
      ghost var rs := Flatten(queue);
      FoldedKeyed(httpAggMap, rs, true);
      FoldedKeyed(icmpAggMap, rs, false);
      ghost var before := View();
      ghost var hdots, idots;
      hdots, idots := Publish(httpAggMap, icmpAggMap, now);
      round := RoundRun(rs, httpAggMap, icmpAggMap, hdots, idots, before, now, ttl);
      Reset();
    }

    /** The two dot functions, each called only when it has containers. */
    method Publish(httpAgg: map<Str, Container>, icmpAgg: map<Str, Container>, now: int)
      returns (ghost hdots: Dots, ghost idots: Dots)
      requires KeyedByLabels(httpAgg, true) && KeyedByLabels(icmpAgg, false)
      modifies this`metrics, this`httpMetricsHold, this`icmpMetricsHold
      ensures PublishHttpRound(hdots, httpAgg)
      ensures PublishIcmpRound(idots, icmpAgg, DotAll(old(View()), hdots, now, ttl).metrics)
      ensures View() == DotAll(old(View()), hdots + idots, now, ttl)
    {
      hdots, idots := [], [];
      if |httpAgg| > 0 {
        hdots := DotHttp(httpAgg, now);
      }
      if |icmpAgg| > 0 {
        idots := DotIcmp(icmpAgg, now);
      }
      DotAllConcat(old(View()), hdots, idots, now, ttl);
    }
  }

  lemma OneMore(aggs: map<Str, Container>, todo: set<Str>, k: Str, http: bool)
    requires KeyedByLabels(aggs, http) && k in todo && todo <= aggs.Keys
    ensures KeyedByLabels(aggs - todo, http) && k !in aggs - todo
    ensures (aggs - todo)[k := aggs[k]] == aggs - (todo - {k})
  {
    var done := aggs - todo;
    forall q | q in done ensures KeyedContainer(done[q], q, http) {
      assert KeyedContainer(aggs[q], q, http);
    }
  }

  lemma NextHttp(dots: Dots, aggs: map<Str, Container>, todo: set<Str>, k: Str, more: Dots)
    requires KeyedByLabels(aggs, true) && k in todo && todo <= aggs.Keys
    requires PublishHttpRound(dots, aggs - todo) && PublishHttp(more, aggs[k])
    ensures PublishHttpRound(dots + more, aggs - (todo - {k}))
  {
    OneMore(aggs, todo, k, true);
    assert KeyedContainer(aggs[k], k, true);
    HttpRoundGrows(dots, aggs - todo, k, aggs[k], more);
  }

  lemma NextIcmp(dots: Dots, aggs: map<Str, Container>, todo: set<Str>, metrics: map<H.Series, real>,
                 k: Str, more: Dots)
    requires KeyedByLabels(aggs, false) && k in todo && todo <= aggs.Keys
    requires PublishIcmpRound(dots, aggs - todo, metrics)
    requires PublishIcmp(more, aggs[k], Prior(metrics, HistogramOf(aggs[k])))
    ensures PublishIcmpRound(dots + more, aggs - (todo - {k}), metrics)
  {
    OneMore(aggs, todo, k, false);
    assert KeyedContainer(aggs[k], k, false);
    IcmpRoundGrows(dots, aggs - todo, metrics, k, aggs[k], more);
  }

  /** Dots and running total after the stages `done`. */
  ghost predicate IcmpProgress(c: Container, dots: Dots, done: set<Str>, total: real) {
    StageDots(dots, c, false, done) && total == SumOver(TotalOf(c), done - {LOSS, STDDEV})
  }

  lemma IcmpProgressNone(c: Container, todo: set<Str>)
    requires todo == c.phase.Keys
    ensures IcmpProgress(c, [], c.phase.Keys - todo, 0.0)
  {
    assert c.phase.Keys - todo == {};
    assert {} - {LOSS, STDDEV} == {};
  }

  lemma IcmpProgressStep(c: Container, dots: Dots, todo: set<Str>, stage: Str, total: real)
    requires IcmpProgress(c, dots, c.phase.Keys - todo, total) && stage in todo
    requires todo <= c.phase.Keys && c.batchCnt > 0
    ensures IcmpProgress(c, dots + [(IcmpStage(c, stage), Mean(c, stage))], c.phase.Keys - (todo - {stage}),
                         if stage == LOSS || stage == STDDEV then total else total + c.phase[stage])
  {
    var done := c.phase.Keys - todo;
    IcmpStageGrows(dots, c, done, stage);
    NextObserved(TotalOf(c), done, stage);
    assert c.phase.Keys - (todo - {stage}) == done + {stage};
  }

  lemma NextObserved(f: Str -> real, done: set<Str>, stage: Str)
    requires stage !in done
    ensures SumOver(f, done + {stage} - {LOSS, STDDEV}) ==
      SumOver(f, done - {LOSS, STDDEV}) + if stage == LOSS || stage == STDDEV then 0.0 else f(stage)
  {
    if stage == LOSS || stage == STDDEV {
      assert done + {stage} - {LOSS, STDDEV} == done - {LOSS, STDDEV};
    } else {
      SumTakeAny(f, done + {stage} - {LOSS, STDDEV}, stage);
      assert done + {stage} - {LOSS, STDDEV} - {stage} == done - {LOSS, STDDEV};
    }
  }
}
