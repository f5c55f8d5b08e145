/**
 Which series one aggregation round writes and with what values, said series by series and
 without an order on containers or stages.
 */
module Publishing {
  import opened Common
  import opened Keys
  import opened GroupBy
  import opened SeriesHold
  import opened Averages

  function HttpLabels(c: Container): seq<Str> {
    [c.source, c.region, c.target]
  }

  function IcmpLabels(c: Container): seq<Str> {
    [c.source, c.region]
  }

  predicate HasCertificate(c: Container) {
    |c.tlsVersion| > 0 && c.tlsExpiry != 0
  }

  /** No division of the dots is by zero. */
  predicate Publishable(c: Container) {
    |c.statusCodes| > 0 && (c.phase != map[] ==> c.batchCnt > 0)
  }

  function MeanOf(c: Container, stage: Str): Option<real> {
    if stage in c.phase && c.batchCnt > 0 then Some(Mean(c, stage)) else None
  }

  /** The value an http container publishes for a series, if it publishes it at all. */
  function HttpValue(c: Container, x: Series): Option<real> {
    match x.vec
    case SslExpiry =>
      if HasCertificate(c) && x.labels == HttpLabels(c) + [c.tlsVersion] then Some(c.tlsExpiry as real) else None
    case StatusCode =>
      if x.labels == HttpLabels(c) then Some(StatusOf(c.statusCodes) as real) else None
    case HttpFailed =>
      if x.labels == HttpLabels(c) + [c.failedReason] then Some(c.failedCnt as real) else None
    case HttpDuration =>
      if |x.labels| == 4 && x.labels[1..] == HttpLabels(c) then MeanOf(c, x.labels[0]) else None
    case _ => None
  }

  function HistogramOf(c: Container): Series {
    Series(IcmpHistogram, IcmpLabels(c))
  }

  function Prior(metrics: map<Series, real>, x: Series): real {
    if x in metrics then metrics[x] else 0.0
  }

  /** The same for an icmp container; its histogram's sum grows from `prior` by the observation. */
  ghost function IcmpValue(c: Container, prior: real, x: Series): Option<real> {
    match x.vec
    case IcmpFailed => if x.labels == IcmpLabels(c) then Some(c.failedCnt as real) else None
    case IcmpLoss => if x.labels == IcmpLabels(c) then MeanOf(c, LOSS) else None
    case IcmpJitter => if x.labels == IcmpLabels(c) then MeanOf(c, STDDEV) else None
    case IcmpDuration =>
      if |x.labels| == 3 && x.labels[1..] == IcmpLabels(c) && x.labels[0] != LOSS && x.labels[0] != STDDEV
      then MeanOf(c, x.labels[0]) else None
    case IcmpHistogram => if x.labels == IcmpLabels(c) then Some(prior + Observation(c)) else None
    case _ => None
  }

  /** The key of the only container that could publish a series. */
  function OwnerKey(x: Series): Str {
    match x.vec
    case SslExpiry => if |x.labels| >= 3 then JoinKey(x.labels[..3]) else []
    case HttpFailed => if |x.labels| >= 3 then JoinKey(x.labels[..3]) else []
    case HttpDuration => if |x.labels| >= 1 then JoinKey(x.labels[1..]) else []
    case IcmpDuration => if |x.labels| >= 1 then JoinKey(x.labels[1..]) else []
    case _ => JoinKey(x.labels)
  }

  lemma HttpOwner(c: Container, x: Series)
    requires HttpValue(c, x).Some?
    ensures OwnerKey(x) == JoinKey(HttpLabels(c))
  {
    var l := HttpLabels(c);
    assert (l + [c.tlsVersion])[..3] == l && (l + [c.failedReason])[..3] == l;
  }

  lemma IcmpOwner(c: Container, prior: real, x: Series)
    requires IcmpValue(c, prior, x).Some?
    ensures OwnerKey(x) == JoinKey(IcmpLabels(c))
  {
  }

  /** What a round over the containers `aggs` publishes for a series. */
  function HttpRound(aggs: map<Str, Container>, x: Series): Option<real> {
    if OwnerKey(x) in aggs then HttpValue(aggs[OwnerKey(x)], x) else None
  }

  ghost function IcmpRound(aggs: map<Str, Container>, metrics: map<Series, real>, x: Series): Option<real> {
    if OwnerKey(x) in aggs
    then IcmpValue(aggs[OwnerKey(x)], Prior(metrics, HistogramOf(aggs[OwnerKey(x)])), x)
    else None
  }

  ghost predicate KeyedContainer(c: Container, k: Str, http: bool) {
    Publishable(c) && k == JoinKey(if http then HttpLabels(c) else IcmpLabels(c))
  }

  /** Containers are keyed by their own labels. */
  ghost predicate KeyedByLabels(aggs: map<Str, Container>, http: bool) {
    forall k :: k in aggs ==> KeyedContainer(aggs[k], k, http)
  }

  /** The fold's containers can all be published, under keys their labels join to. */
  lemma FoldedKeyed(aggs: map<Str, Container>, rs: seq<Report>, http: bool)
    requires Folded(aggs, rs, http)
    ensures KeyedByLabels(aggs, http)
  {
    forall k | k in aggs ensures KeyedContainer(aggs[k], k, http) {
      ContainerKey(aggs, rs, http, k);
      DivisorsPositive(aggs[k], Group(rs, http, k));
      if aggs[k].phase != map[] {
        var stage :| stage in aggs[k].phase;
      }
    }
  }

  /** Whatever labels collide inside a key, no container shadows another: a container publishes
      a series only if it is the one the round attributes the series to. */
  lemma HttpRoundComplete(aggs: map<Str, Container>, k: Str, x: Series)
    requires KeyedByLabels(aggs, true) && k in aggs && HttpValue(aggs[k], x).Some?
    ensures HttpRound(aggs, x) == HttpValue(aggs[k], x)
  {
    assert KeyedContainer(aggs[k], k, true);
    HttpOwner(aggs[k], x);
  }

  // ----- the dots of a round -----

  type Dots = seq<(Series, real)>

  /** The last value dotted for a series. */
  function LastDot(dots: Dots, x: Series): Option<real> {
    if dots == [] then None
    else if dots[|dots| - 1].0 == x then Some(dots[|dots| - 1].1)
    else LastDot(dots[..|dots| - 1], x)
  }

  function Over(a: Option<real>, b: Option<real>): Option<real> {
    if b.Some? then b else a
  }

  lemma {:induction false} LastDotConcat(a: Dots, b: Dots, x: Series)
    ensures LastDot(a + b, x) == Over(LastDot(a, x), LastDot(b, x))
  {
    if b == [] {
      assert a + b == a;
    } else {
      LastDotConcat(a, b[..|b| - 1], x);
      assert (a + b)[..|a + b| - 1] == a + b[..|b| - 1];
    }
  }

  /** The exported state after a sequence of dots at one time. */
  function DotAll(s: State, dots: Dots, now: int, ttl: int): State {
    if dots == [] then s
    else
      var last := dots[|dots| - 1];
      Dotted(DotAll(s, dots[..|dots| - 1], now, ttl), last.0, last.1, now, ttl)
  }

  lemma {:induction false} DotAllConcat(s: State, a: Dots, b: Dots, now: int, ttl: int)
    ensures DotAll(s, a + b, now, ttl) == DotAll(DotAll(s, a, now, ttl), b, now, ttl)
  {
    if b == [] {
      assert a + b == a;
    } else {
      DotAllConcat(s, a, b[..|b| - 1], now, ttl);
      assert (a + b)[..|a + b| - 1] == a + b[..|b| - 1];
    }
  }

  function ValueIn(metrics: map<Series, real>, x: Series): Option<real> {
    if x in metrics then Some(metrics[x]) else None
  }

  /** After the dots every series has its last dotted value, or keeps the old one. */
  lemma {:induction false} DotAllMetrics(s: State, dots: Dots, now: int, ttl: int, x: Series)
    ensures ValueIn(DotAll(s, dots, now, ttl).metrics, x) == Over(ValueIn(s.metrics, x), LastDot(dots, x))
  {
    if dots != [] {
      DotAllMetrics(s, dots[..|dots| - 1], now, ttl, x);
    }
  }

  /** Every dotted series of a held vector has its hold entry refreshed to the full hold time. */
  lemma {:induction false} DotAllHolds(s: State, dots: Dots, now: int, ttl: int, x: Series)
    requires LastDot(dots, x).Some?
    ensures var t, k := DotAll(s, dots, now, ttl), JoinKey(x.labels);
      && (x.vec in {IcmpFailed, IcmpDuration} ==> k in t.icmp.entries && t.icmp.entries[k].expiry == now + ttl)
      && (x.vec in {HttpFailed, HttpDuration, SslExpiry, StatusCode} ==>
           k in t.http.entries && t.http.entries[k].expiry == now + ttl)
  {
    var last, before := dots[|dots| - 1], DotAll(s, dots[..|dots| - 1], now, ttl);
    HeldWhere(before, last.0, last.1, now, ttl);
    if last.0 != x {
      DotAllHolds(s, dots[..|dots| - 1], now, ttl, x);
    }
  }

  /** The dots publish exactly what `value` prescribes. */
  ghost predicate PublishHttp(dots: Dots, c: Container) {
    forall x :: LastDot(dots, x) == HttpValue(c, x)
  }

  ghost predicate PublishIcmp(dots: Dots, c: Container, prior: real) {
    forall x :: LastDot(dots, x) == IcmpValue(c, prior, x)
  }

  ghost predicate PublishHttpRound(dots: Dots, aggs: map<Str, Container>) {
    forall x :: LastDot(dots, x) == HttpRound(aggs, x)
  }

  ghost predicate PublishIcmpRound(dots: Dots, aggs: map<Str, Container>, metrics: map<Series, real>) {
    forall x :: LastDot(dots, x) == IcmpRound(aggs, metrics, x)
  }

  lemma KeyedGrows(done: map<Str, Container>, k: Str, c: Container, http: bool)
    requires KeyedByLabels(done, http) && KeyedContainer(c, k, http)
    ensures KeyedByLabels(done[k := c], http)
  {
    var all := done[k := c];
    forall q | q in all ensures KeyedContainer(all[q], q, http) {
      assert q in done ==> KeyedContainer(done[q], q, http);
    }
  }

  lemma HttpRoundGrows(dots: Dots, done: map<Str, Container>, k: Str, c: Container, more: Dots)
    requires KeyedByLabels(done, true) && KeyedContainer(c, k, true) && k !in done
    requires PublishHttpRound(dots, done) && PublishHttp(more, c)
    ensures PublishHttpRound(dots + more, done[k := c]) && KeyedByLabels(done[k := c], true)
  {
    forall x ensures LastDot(dots + more, x) == HttpRound(done[k := c], x) {
      LastDotConcat(dots, more, x);
      if HttpValue(c, x).Some? {
        HttpOwner(c, x);
      }
    }
    KeyedGrows(done, k, c, true);
  }

  lemma IcmpRoundGrows(dots: Dots, done: map<Str, Container>, metrics: map<Series, real>,
                       k: Str, c: Container, more: Dots)
    requires KeyedByLabels(done, false) && KeyedContainer(c, k, false) && k !in done
    requires PublishIcmpRound(dots, done, metrics) && PublishIcmp(more, c, Prior(metrics, HistogramOf(c)))
    ensures PublishIcmpRound(dots + more, done[k := c], metrics) && KeyedByLabels(done[k := c], false)
  {
    forall x ensures LastDot(dots + more, x) == IcmpRound(done[k := c], metrics, x) {
      LastDotConcat(dots, more, x);
      if IcmpValue(c, Prior(metrics, HistogramOf(c)), x).Some? {
        IcmpOwner(c, Prior(metrics, HistogramOf(c)), x);
      }
    }
    KeyedGrows(done, k, c, false);
  }

  /** A container not yet visited finds its histogram untouched. */
  lemma PriorUntouched(s: State, dots: Dots, done: map<Str, Container>, k: Str, c: Container, now: int, ttl: int)
    requires KeyedContainer(c, k, false) && k !in done && PublishIcmpRound(dots, done, s.metrics)
    ensures Prior(DotAll(s, dots, now, ttl).metrics, HistogramOf(c)) == Prior(s.metrics, HistogramOf(c))
  {
    var x := HistogramOf(c);
    assert OwnerKey(x) == k;
    assert LastDot(dots, x) == IcmpRound(done, s.metrics, x);
    DotAllMetrics(s, dots, now, ttl, x);
  }

  // ----- a round keeps the holds in order -----

  /** The names in use: phases and TLS versions are separator-free, and no version reads "success". */
  ghost predicate NamesOk(stages: set<Str>, versions: set<Str>) {
    && (forall name :: name in stages || name in versions ==> SepFree(name))
    && SUCCESS !in versions
  }

  /** The naming rules as they bear on one report. */
  ghost predicate WellNamedReport(r: Report, stages: set<Str>, versions: set<Str>) {
    && AllSepFree([r.source, r.region, r.target, r.failedReason])
    && r.source !in stages && r.failedReason !in versions
    && Fields(r).Keys <= stages
    && (r.tls.Some? && r.tls.value.version != [] ==> r.tls.value.version in versions)
  }

  ghost predicate AllWellNamed(rs: seq<Report>, stages: set<Str>, versions: set<Str>) {
    forall i :: 0 <= i < |rs| ==> WellNamedReport(rs[i], stages, versions)
  }

  ghost function Named(stages: set<Str>, versions: set<Str>): iset<Series> {
    iset x: Series | WellNamed(x, stages, versions)
  }

  lemma {:induction false} GroupWellNamed(rs: seq<Report>, http: bool, key: Str, stages: set<Str>, versions: set<Str>)
    requires AllWellNamed(rs, stages, versions)
    ensures AllWellNamed(Group(rs, http, key), stages, versions)
  {
    if rs != [] {
      var before := rs[..|rs| - 1];
      assert forall i :: 0 <= i < |before| ==> before[i] == rs[i];
      GroupWellNamed(before, http, key, stages, versions);
    }
  }

  lemma {:induction false} SuccessesWellNamed(g: seq<Report>, stages: set<Str>, versions: set<Str>)
    requires AllWellNamed(g, stages, versions)
    ensures AllWellNamed(Successes(g), stages, versions)
  {
    if g != [] {
      var before := g[..|g| - 1];
      assert forall i :: 0 <= i < |before| ==> before[i] == g[i];
      SuccessesWellNamed(before, stages, versions);
    }
  }

  /** The naming rules as they bear on a container. */
  ghost predicate WellNamedContainer(c: Container, stages: set<Str>, versions: set<Str>) {
    && SepFree(c.source) && SepFree(c.region) && SepFree(c.target) && c.source !in stages
    && SepFree(c.failedReason) && c.failedReason !in versions
    && c.phase.Keys <= stages
    && (c.tlsVersion != [] ==> c.tlsVersion in versions)
  }

  lemma SummaryWellNamed(c: Container, g: seq<Report>, stages: set<Str>, versions: set<Str>)
    requires Summarizes(c, g) && AllWellNamed(g, stages, versions) && NamesOk(stages, versions)
    ensures WellNamedContainer(c, stages, versions)
  {
    assert WellNamedReport(g[0], stages, versions);
    LabelsSepFree(g[0]);
    LiteralSepFree();
    forall i | 0 <= i < |g| ensures SepFree(g[i].failedReason) && g[i].failedReason !in versions {
      assert WellNamedReport(g[i], stages, versions);
      LabelsSepFree(g[i]);
    }
    SuccessesWellNamed(g, stages, versions);
    forall stage | stage in c.phase ensures stage in stages {
      var i :| 0 <= i < |Successes(g)| && stage in Fields(Successes(g)[i]);
      assert WellNamedReport(Successes(g)[i], stages, versions);
    }
    if c.tlsVersion != [] {
      var i :| FirstCertified(g, i) && g[i].tls.value == Tls(c.tlsVersion, c.tlsExpiry);
      assert WellNamedReport(g[i], stages, versions);
    }
  }

  lemma LabelsSepFree(r: Report)
    requires AllSepFree([r.source, r.region, r.target, r.failedReason])
    ensures SepFree(r.source) && SepFree(r.region) && SepFree(r.target) && SepFree(r.failedReason)
  {
    var all := [r.source, r.region, r.target, r.failedReason];
    assert SepFree(all[0]) && SepFree(all[1]) && SepFree(all[2]) && SepFree(all[3]);
  }

  lemma LiteralSepFree()
    ensures SepFree(SUCCESS)
  {
  }

  /** A well-named container publishes well-named series only. */
  lemma PublishedWellNamed(c: Container, prior: real, x: Series, stages: set<Str>, versions: set<Str>)
    requires WellNamedContainer(c, stages, versions) && NamesOk(stages, versions)
    requires HttpValue(c, x).Some? || IcmpValue(c, prior, x).Some?
    ensures WellNamed(x, stages, versions)
  {
    if |x.labels| > 0 {
      assert x.labels == [x.labels[0]] + x.labels[1..];
    }
    forall i | 0 <= i < |x.labels| ensures SepFree(x.labels[i]) {
    }
  }

  ghost predicate DottedWellNamed(dots: Dots, stages: set<Str>, versions: set<Str>) {
    forall i :: 0 <= i < |dots| ==> WellNamed(dots[i].0, stages, versions)
  }

  lemma {:induction false} DottedHasLast(dots: Dots, i: nat)
    requires i < |dots|
    ensures LastDot(dots, dots[i].0).Some?
  {
    if i < |dots| - 1 {
      DottedHasLast(dots[..|dots| - 1], i);
    }
  }

  lemma AggWellNamed(aggs: map<Str, Container>, rs: seq<Report>, http: bool, k: Str,
                     stages: set<Str>, versions: set<Str>)
    requires Folded(aggs, rs, http) && AllWellNamed(rs, stages, versions) && NamesOk(stages, versions) && k in aggs
    ensures WellNamedContainer(aggs[k], stages, versions)
  {
    GroupWellNamed(rs, http, k, stages, versions);
    SummaryWellNamed(aggs[k], Group(rs, http, k), stages, versions);
  }

  lemma HttpRoundWellNamed(dots: Dots, aggs: map<Str, Container>, rs: seq<Report>, stages: set<Str>, versions: set<Str>)
    requires PublishHttpRound(dots, aggs) && Folded(aggs, rs, true)
    requires AllWellNamed(rs, stages, versions) && NamesOk(stages, versions)
    ensures DottedWellNamed(dots, stages, versions)
  {
    forall i | 0 <= i < |dots| ensures WellNamed(dots[i].0, stages, versions) {
      var x := dots[i].0;
      DottedHasLast(dots, i);
      assert LastDot(dots, x) == HttpRound(aggs, x);
      AggWellNamed(aggs, rs, true, OwnerKey(x), stages, versions);
      PublishedWellNamed(aggs[OwnerKey(x)], 0.0, x, stages, versions);
    }
  }

  lemma IcmpRoundWellNamed(dots: Dots, aggs: map<Str, Container>, metrics: map<Series, real>, rs: seq<Report>,
                           stages: set<Str>, versions: set<Str>)
    requires PublishIcmpRound(dots, aggs, metrics) && Folded(aggs, rs, false)
    requires AllWellNamed(rs, stages, versions) && NamesOk(stages, versions)
    ensures DottedWellNamed(dots, stages, versions)
  {
    forall i | 0 <= i < |dots| ensures WellNamed(dots[i].0, stages, versions) {
      var x := dots[i].0;
      DottedHasLast(dots, i);
      assert LastDot(dots, x) == IcmpRound(aggs, metrics, x);
      AggWellNamed(aggs, rs, false, OwnerKey(x), stages, versions);
      PublishedWellNamed(aggs[OwnerKey(x)], Prior(metrics, HistogramOf(aggs[OwnerKey(x)])), x, stages, versions);
    }
  }

  /** The dots as events of the hold machine. */
  function DotEvents(dots: Dots, now: int): (es: seq<Event>)
    ensures |es| == |dots| && forall i :: 0 <= i < |es| ==> es[i] == Dot(dots[i].0, dots[i].1, now)
  {
    seq(|dots|, i requires 0 <= i < |dots| => Dot(dots[i].0, dots[i].1, now))
  }

  /** A run of the hold machine is continued by dots as `DotAll` says. */
  lemma {:induction false} DotsExtendRun(ss: seq<State>, es: seq<Event>, dots: Dots, now: int, ttl: int)
    returns (ss': seq<State>)
    requires Behavior(ss, es, ttl) && ss[|es|].writing.None?
    ensures Behavior(ss', es + DotEvents(dots, now), ttl)
    ensures ss'[|ss'| - 1] == DotAll(ss[|es|], dots, now, ttl) && ss'[|ss'| - 1].writing.None?
    decreases |dots|
  {
    var es' := es + DotEvents(dots, now);
    if dots == [] {
      ss' := ss;
      assert es' == es;
    } else {
      var n := |dots| - 1;
      var before := es + DotEvents(dots[..n], now);
      var mid := DotsExtendRun(ss, es, dots[..n], now, ttl);
      assert es' == before + [Dot(dots[n].0, dots[n].1, now)];
      ss' := mid + [Dotted(mid[|before|], dots[n].0, dots[n].1, now, ttl)];
      forall i | 0 <= i < |es'| ensures StepAt(ss', es', ttl, i) {
        assert i < |before| ==> StepAt(mid, before, ttl, i);
      }
    }
  }

  /** Reports and expiry together: after any run over well-named series, a round over well-named
      reports dots only well-named series, so the run goes on under the naming rules, and every
      exported series of a held vector is tracked by its own hold entry. */
  lemma RoundKeepsTracked(ss: seq<State>, es: seq<Event>, ttl: int, stages: set<Str>, versions: set<Str>,
                          rs: seq<Report>, http: map<Str, Container>, icmp: map<Str, Container>,
                          hdots: Dots, idots: Dots, now: int)
    returns (ss': seq<State>, es': seq<Event>)
    requires Behavior(ss, es, ttl) && DotsFrom(es, Named(stages, versions)) && ss[|es|].writing.None?
    requires NamesOk(stages, versions) && AllWellNamed(rs, stages, versions)
    requires Folded(http, rs, true) && PublishHttpRound(hdots, http)
    requires Folded(icmp, rs, false) && PublishIcmpRound(idots, icmp, DotAll(ss[|es|], hdots, now, ttl).metrics)
    ensures es' == es + DotEvents(hdots + idots, now) && Behavior(ss', es', ttl)
    ensures DotsFrom(es', Named(stages, versions))
    ensures ss'[|es'|] == DotAll(ss[|es|], hdots + idots, now, ttl) && ss'[|es'|].writing.None?
    ensures forall x ::
      x in ss'[|es'|].metrics && x.vec in {IcmpFailed, IcmpDuration, HttpFailed, HttpDuration, SslExpiry, StatusCode}
      ==> Tracked(ss'[|es'|], x)
  {
    HttpRoundWellNamed(hdots, http, rs, stages, versions);
    IcmpRoundWellNamed(idots, icmp, DotAll(ss[|es|], hdots, now, ttl).metrics, rs, stages, versions);
    es' := es + DotEvents(hdots + idots, now);
    ss' := DotsExtendRun(ss, es, hdots + idots, now, ttl);
    WellNamedRun(es, hdots + idots, now, stages, versions);
    NamingKeepsKeysDistinct(stages, versions);
    ExportedAreTracked(ss', es', ttl, |es'|, Named(stages, versions));
  }

  lemma WellNamedRun(es: seq<Event>, dots: Dots, now: int, stages: set<Str>, versions: set<Str>)
    requires DotsFrom(es, Named(stages, versions)) && DottedWellNamed(dots, stages, versions)
    ensures DotsFrom(es + DotEvents(dots, now), Named(stages, versions))
  {
    var es' := es + DotEvents(dots, now);
    forall i | 0 <= i < |es'| ensures EventFrom(es'[i], Named(stages, versions)) {
      assert i < |es| ==> EventFrom(es[i], Named(stages, versions));
    }
  }

  /** One round: its reports, their groups, and the dots it makes; `before` is what the histograms
      start from. */
  datatype Round = Round(reports: seq<Report>, http: map<Str, Container>, icmp: map<Str, Container>,
                         hdots: Dots, idots: Dots, before: map<Series, real>)

  ghost predicate IsRound(r: Round, stages: set<Str>, versions: set<Str>) {
    && AllWellNamed(r.reports, stages, versions)
    && Folded(r.http, r.reports, true) && PublishHttpRound(r.hdots, r.http)
    && Folded(r.icmp, r.reports, false) && PublishIcmpRound(r.idots, r.icmp, r.before)
  }

  ghost predicate DottedBy(r: Round, x: Series) {
    exists i :: 0 <= i < |r.hdots + r.idots| && (r.hdots + r.idots)[i].0 == x
  }

  /** Every write of the run belongs to some round. */
  ghost predicate FromRounds(es: seq<Event>, rounds: seq<Round>) {
    forall i :: 0 <= i < |es| && Writes(es[i]) ==> WrittenByRound(es[i], rounds)
  }

  ghost predicate WrittenByRound(e: Event, rounds: seq<Round>)
    requires Writes(e)
  {
    exists r :: 0 <= r < |rounds| && DottedBy(rounds[r], e.series)
  }

  lemma RoundSeriesWellNamed(r: Round, stages: set<Str>, versions: set<Str>, x: Series)
    requires NamesOk(stages, versions) && IsRound(r, stages, versions) && DottedBy(r, x)
    ensures WellNamed(x, stages, versions)
  {
    HttpRoundWellNamed(r.hdots, r.http, r.reports, stages, versions);
    IcmpRoundWellNamed(r.idots, r.icmp, r.before, r.reports, stages, versions);
    var i :| 0 <= i < |r.hdots + r.idots| && (r.hdots + r.idots)[i].0 == x;
    assert i < |r.hdots| ==> WellNamed(r.hdots[i].0, stages, versions);
    assert i >= |r.hdots| ==> WellNamed(r.idots[i - |r.hdots|].0, stages, versions);
  }

  /** The same with sweeps and callbacks inside rounds: however the single writes of any number of
      rounds over well-named reports interleave with the janitors, every exported series of a held
      vector is tracked by its own hold entry or is the one whose hold is about to be written. */
  lemma InterleavedRoundsKeepTracked(ss: seq<State>, es: seq<Event>, ttl: int, stages: set<Str>, versions: set<Str>,
                                     rounds: seq<Round>, n: nat)
    requires Behavior(ss, es, ttl) && n <= |es| && NamesOk(stages, versions) && FromRounds(es, rounds)
    requires forall r :: 0 <= r < |rounds| ==> IsRound(rounds[r], stages, versions)
    ensures DotsFrom(es, Named(stages, versions)) && AllTracked(ss[n], Named(stages, versions))
  {
    forall i | 0 <= i < |es| ensures EventFrom(es[i], Named(stages, versions)) {
      if Writes(es[i]) {
        var r :| 0 <= r < |rounds| && DottedBy(rounds[r], es[i].series);
        RoundSeriesWellNamed(rounds[r], stages, versions, es[i].series);
      }
    }
    NamingKeepsKeysDistinct(stages, versions);
    ExportedAreTracked(ss, es, ttl, n, Named(stages, versions));
  }

  // ----- the dots of one container -----

  function HttpStage(c: Container, stage: Str): Series {
    Series(HttpDuration, [stage] + HttpLabels(c))
  }

  function IcmpStage(c: Container, stage: Str): Series {
    if stage == LOSS then Series(IcmpLoss, IcmpLabels(c))
    else if stage == STDDEV then Series(IcmpJitter, IcmpLabels(c))
    else Series(IcmpDuration, [stage] + IcmpLabels(c))
  }

  /** The dots of the stages visited so far. */
  ghost predicate StageDots(dots: Dots, c: Container, http: bool, done: set<Str>) {
    forall x :: LastDot(dots, x) == StageValue(c, http, done, x)
  }

  ghost function StageValue(c: Container, http: bool, done: set<Str>, x: Series): Option<real> {
    if http then
      if x.vec.HttpDuration? && |x.labels| == 4 && x.labels[0] in done then HttpValue(c, x) else None
    else
      match x.vec
      case IcmpLoss => if LOSS in done then IcmpValue(c, 0.0, x) else None
      case IcmpJitter => if STDDEV in done then IcmpValue(c, 0.0, x) else None
      case IcmpDuration => if |x.labels| == 3 && x.labels[0] in done then IcmpValue(c, 0.0, x) else None
      case _ => None
  }

  lemma SnocDot(dots: Dots, y: Series, v: real, x: Series)
    ensures LastDot(dots + [(y, v)], x) == if x == y then Some(v) else LastDot(dots, x)
  {
    assert (dots + [(y, v)])[..|dots|] == dots;
  }

  lemma HttpStageGrows(dots: Dots, c: Container, done: set<Str>, stage: Str)
    requires StageDots(dots, c, true, done) && stage in c.phase && c.batchCnt > 0
    ensures StageDots(dots + [(HttpStage(c, stage), Mean(c, stage))], c, true, done + {stage})
  {
    var y := HttpStage(c, stage);
    forall x ensures LastDot(dots + [(y, Mean(c, stage))], x) == StageValue(c, true, done + {stage}, x) {
      SnocDot(dots, y, Mean(c, stage), x);
      SameStageLabels(x, stage, HttpLabels(c));
      assert x == y <==> x.vec.HttpDuration? && x.labels == [stage] + HttpLabels(c);
    }
  }

  /** Labels are a stage followed by a container's labels exactly if head and tail say so. */
  lemma SameStageLabels(x: Series, stage: Str, l: seq<Str>)
    ensures x.labels == [stage] + l <==> |x.labels| == |l| + 1 && x.labels[0] == stage && x.labels[1..] == l
  {
    if |x.labels| == |l| + 1 {
      assert x.labels == [x.labels[0]] + x.labels[1..];
    }
    assert ([stage] + l)[1..] == l;
  }

  lemma IcmpStageGrows(dots: Dots, c: Container, done: set<Str>, stage: Str)
    requires StageDots(dots, c, false, done) && stage in c.phase && c.batchCnt > 0
    ensures StageDots(dots + [(IcmpStage(c, stage), Mean(c, stage))], c, false, done + {stage})
  {
    var y := IcmpStage(c, stage);
    forall x ensures LastDot(dots + [(y, Mean(c, stage))], x) == StageValue(c, false, done + {stage}, x) {
      SnocDot(dots, y, Mean(c, stage), x);
      SameStageLabels(x, stage, IcmpLabels(c));
    }
  }

  function HttpFixedDots(c: Container): Dots {
    (if HasCertificate(c) then [(Series(SslExpiry, HttpLabels(c) + [c.tlsVersion]), c.tlsExpiry as real)] else [])
    + [(Series(StatusCode, HttpLabels(c)), StatusOf(c.statusCodes) as real)]
    + [(Series(HttpFailed, HttpLabels(c) + [c.failedReason]), c.failedCnt as real)]
  }

  lemma HttpFixedLast(c: Container, x: Series)
    ensures LastDot(HttpFixedDots(c), x) == if x.vec.HttpDuration? then None else HttpValue(c, x)
  {
    var l := HttpLabels(c);
    var ssl := if HasCertificate(c) then [(Series(SslExpiry, l + [c.tlsVersion]), c.tlsExpiry as real)] else [];
    var status := (Series(StatusCode, l), StatusOf(c.statusCodes) as real);
    SnocDot(ssl + [status], Series(HttpFailed, l + [c.failedReason]), c.failedCnt as real, x);
    SnocDot(ssl, status.0, status.1, x);
    assert ssl == [] ==> LastDot(ssl, x) == None;
    if HasCertificate(c) {
      SnocDot([], Series(SslExpiry, l + [c.tlsVersion]), c.tlsExpiry as real, x);
      assert [] + ssl == ssl;
    }
  }

  lemma HttpContainerDots(c: Container, stages: Dots)
    requires StageDots(stages, c, true, c.phase.Keys)
    ensures PublishHttp(HttpFixedDots(c) + stages, c)
  {
    forall x ensures LastDot(HttpFixedDots(c) + stages, x) == HttpValue(c, x) {
      LastDotConcat(HttpFixedDots(c), stages, x);
      HttpFixedLast(c, x);
      assert LastDot(stages, x) == StageValue(c, true, c.phase.Keys, x);
    }
  }

  lemma IcmpContainerLast(c: Container, observed: real, stages: Dots, x: Series)
    ensures var first := (Series(IcmpFailed, IcmpLabels(c)), c.failedCnt as real);
      LastDot([first] + stages + [(HistogramOf(c), observed)], x) ==
      if x == HistogramOf(c) then Some(observed)
      else if LastDot(stages, x).Some? then LastDot(stages, x)
      else if x == Series(IcmpFailed, IcmpLabels(c)) then Some(c.failedCnt as real)
      else None
  {
    var first := (Series(IcmpFailed, IcmpLabels(c)), c.failedCnt as real);
    SnocDot([first] + stages, HistogramOf(c), observed, x);
    LastDotConcat([first], stages, x);
    SnocDot([], first.0, first.1, x);
    assert [] + [first] == [first];
  }

  lemma IcmpContainerDots(c: Container, prior: real, stages: Dots)
    requires StageDots(stages, c, false, c.phase.Keys)
    ensures PublishIcmp([(Series(IcmpFailed, IcmpLabels(c)), c.failedCnt as real)] + stages
                        + [(HistogramOf(c), prior + Observation(c))], c, prior)
  {
    var dots := [(Series(IcmpFailed, IcmpLabels(c)), c.failedCnt as real)] + stages
                + [(HistogramOf(c), prior + Observation(c))];
    forall x ensures LastDot(dots, x) == IcmpValue(c, prior, x) {
      IcmpContainerLast(c, prior + Observation(c), stages, x);
      assert LastDot(stages, x) == StageValue(c, false, c.phase.Keys, x);
    }
  }
}
