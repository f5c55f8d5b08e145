/**
 One aggregation round from the reports' own fields to the exported values: what `agg`, `dotHTTP`
 and `dotICMP` of pkg/server/aggregator.go promise, said without containers, groups or dots.
 */
module Exports {
  import opened Common
  import opened Keys
  import opened GroupBy
  import opened SeriesHold
  import opened Averages
  import opened Publishing

  /** The names the code compares with. */
  lemma Names()
    ensures HTTP == Ascii("http") && SUCCESS == Ascii("success") && LOSS == Ascii("loss") && STDDEV == Ascii("stddev")
  {
    assert |Ascii("http")| == 4 && |Ascii("success")| == 7 && |Ascii("loss")| == 4 && |Ascii("stddev")| == 6;
  }

  /** An http report whose joined labels are `k`. */
  predicate HttpAt(r: Report, k: Str) {
    IsHttp(r) && JoinKey([r.source, r.region, r.target]) == k
  }

  /** A report of any other type whose joined labels are `k`. */
  predicate IcmpAt(r: Report, k: Str) {
    !IsHttp(r) && JoinKey([r.source, r.region]) == k
  }

  predicate At(r: Report, http: bool, k: Str) {
    if http then HttpAt(r, k) else IcmpAt(r, k)
  }

  /** The reports of one type and key that succeeded, or that failed. */
  function Count(rs: seq<Report>, http: bool, k: Str, success: bool): nat {
    if rs == [] then 0
    else
      var last := rs[|rs| - 1];
      Count(rs[..|rs| - 1], http, k, success) + (if At(last, http, k) && last.success == success then 1 else 0)
  }

  function HttpSum(rs: seq<Report>, k: Str, stage: Str): real {
    if rs == [] then 0.0
    else
      var last := rs[|rs| - 1];
      HttpSum(rs[..|rs| - 1], k, stage)
      + (if HttpAt(last, k) && last.success && stage in last.httpFields then last.httpFields[stage] else 0.0)
  }

  function IcmpSum(rs: seq<Report>, k: Str, stage: Str): real {
    if rs == [] then 0.0
    else
      var last := rs[|rs| - 1];
      IcmpSum(rs[..|rs| - 1], k, stage)
      + (if IcmpAt(last, k) && last.success && stage in last.icmpFields then last.icmpFields[stage] else 0.0)
  }

  function CodeSum(rs: seq<Report>, k: Str): int {
    if rs == [] then 0
    else CodeSum(rs[..|rs| - 1], k) + (if HttpAt(rs[|rs| - 1], k) then rs[|rs| - 1].statusCode else 0)
  }

  /** A map's values added up, the keys "loss" and "stddev" left out. */
  ghost function FieldTotal(m: map<Str, real>): real {
    SumOver(s => if s in m then m[s] else 0.0, m.Keys - {LOSS, STDDEV})
  }

  ghost function DurationTotal(rs: seq<Report>, k: Str): real {
    if rs == [] then 0.0
    else
      var last := rs[|rs| - 1];
      DurationTotal(rs[..|rs| - 1], k) + (if IcmpAt(last, k) && last.success then FieldTotal(last.icmpFields) else 0.0)
  }

  // ----- from groups to reports -----

  /** Where the reports of a group stand. */
  function Positions(rs: seq<Report>, http: bool, k: Str): seq<nat> {
    if rs == [] then []
    else Positions(rs[..|rs| - 1], http, k) + (if At(rs[|rs| - 1], http, k) then [|rs| - 1] else [])
  }

  lemma {:induction false} AtIsBelongs(r: Report, http: bool, k: Str)
    ensures At(r, http, k) <==> Belongs(r, http, k)
  {
  }

  lemma {:induction false} PositionsOfGroup(rs: seq<Report>, http: bool, k: Str)
    ensures var ps, g := Positions(rs, http, k), Group(rs, http, k);
      && |ps| == |g|
      && (forall i :: 0 <= i < |ps| ==> ps[i] < |rs| && rs[ps[i]] == g[i] && At(rs[ps[i]], http, k))
      && (forall i, j :: 0 <= i < j < |ps| ==> ps[i] < ps[j])
  {
    if rs != [] {
      var before, last := rs[..|rs| - 1], rs[|rs| - 1];
      PositionsOfGroup(before, http, k);
      AtIsBelongs(last, http, k);
      PositionsGrow(before, last, Positions(before, http, k), Group(before, http, k), http, k, rs);
    }
  }

  lemma {:induction false} PositionsGrow(before: seq<Report>, last: Report, ps: seq<nat>, g: seq<Report>,
                                         http: bool, k: Str, rs: seq<Report>)
    requires rs == before + [last] && |ps| == |g|
    requires forall i :: 0 <= i < |ps| ==> ps[i] < |before| && before[ps[i]] == g[i] && At(before[ps[i]], http, k)
    requires forall i, j :: 0 <= i < j < |ps| ==> ps[i] < ps[j]
    ensures forall i :: 0 <= i < |ps| ==> ps[i] < |rs| && rs[ps[i]] == g[i] && At(rs[ps[i]], http, k)
    ensures At(last, http, k) ==> forall i :: 0 <= i < |ps| + 1 ==> var qs := ps + [|before|];
      qs[i] < |rs| && rs[qs[i]] == (g + [last])[i] && At(rs[qs[i]], http, k)
  {
  }

  lemma {:induction false} PositionsComplete(rs: seq<Report>, http: bool, k: Str, j: nat)
    requires j < |rs| && At(rs[j], http, k)
    ensures j in Positions(rs, http, k)
  {
    if j < |rs| - 1 {
      PositionsComplete(rs[..|rs| - 1], http, k, j);
    }
  }

  /** A report of the key before the group's `i`-th stands earlier in the group. */
  lemma {:induction false} EarlierInGroup(rs: seq<Report>, http: bool, k: Str, i: nat, j: nat) returns (m: nat)
    requires i < |Positions(rs, http, k)| && j < Positions(rs, http, k)[i] && j < |rs| && At(rs[j], http, k)
    ensures m < i && m < |Group(rs, http, k)| && Group(rs, http, k)[m] == rs[j]
  {
    PositionsOfGroup(rs, http, k);
    PositionsComplete(rs, http, k, j);
    var ps := Positions(rs, http, k);
    m :| 0 <= m < |ps| && ps[m] == j;
  }

  /** A report of the key is in the group. */
  lemma {:induction false} InGroup(rs: seq<Report>, http: bool, k: Str, j: nat) returns (m: nat)
    requires j < |rs| && At(rs[j], http, k)
    ensures m < |Group(rs, http, k)| && Group(rs, http, k)[m] == rs[j]
  {
    PositionsOfGroup(rs, http, k);
    PositionsComplete(rs, http, k, j);
    var ps := Positions(rs, http, k);
    m :| 0 <= m < |ps| && ps[m] == j;
  }

  /** One more report at the end. */
  lemma {:induction false} GroupUnfold(rs: seq<Report>, http: bool, k: Str)
    requires rs != []
    ensures var g, last := Group(rs[..|rs| - 1], http, k), rs[|rs| - 1];
      && Group(rs, http, k) == (if At(last, http, k) then g + [last] else g)
      && Successes(Group(rs, http, k))
           == (if At(last, http, k) && last.success then Successes(g) + [last] else Successes(g))
      && FailureCount(Group(rs, http, k)) == FailureCount(g) + (if At(last, http, k) && !last.success then 1 else 0)
  {
    AtIsBelongs(rs[|rs| - 1], http, k);
    SuccessesSnoc(Group(rs[..|rs| - 1], http, k), rs[|rs| - 1]);
  }

  lemma {:induction false} CountsOfGroup(rs: seq<Report>, http: bool, k: Str)
    ensures |Successes(Group(rs, http, k))| == Count(rs, http, k, true)
    ensures FailureCount(Group(rs, http, k)) == Count(rs, http, k, false)
  {
    if rs != [] {
      CountsOfGroup(rs[..|rs| - 1], http, k);
      GroupUnfold(rs, http, k);
    }
  }

  lemma {:induction false} SumsOfGroup(rs: seq<Report>, http: bool, k: Str, stage: Str)
    ensures StageSum(Successes(Group(rs, http, k)), stage)
      == if http then HttpSum(rs, k, stage) else IcmpSum(rs, k, stage)
  {
    if rs != [] {
      var before, last := rs[..|rs| - 1], rs[|rs| - 1];
      SumsOfGroup(before, http, k, stage);
      SumGrows(before, last, http, k, stage, rs);
      OwnField(last, http, k, stage);
    }
  }

  lemma {:induction false} SumGrows(before: seq<Report>, last: Report, http: bool, k: Str, stage: Str, rs: seq<Report>)
    requires rs != [] && before == rs[..|rs| - 1] && last == rs[|rs| - 1]
    ensures StageSum(Successes(Group(rs, http, k)), stage) == StageSum(Successes(Group(before, http, k)), stage)
      + if At(last, http, k) && last.success then Carried(last, stage) else 0.0
  {
    GroupUnfold(rs, http, k);
    StageSumSnoc(Successes(Group(before, http, k)), last, stage);
  }

  lemma {:induction false} OwnField(r: Report, http: bool, k: Str, stage: Str)
    ensures At(r, http, k) ==> (stage in Fields(r) <==> stage in (if http then r.httpFields else r.icmpFields))
    ensures At(r, true, k) && http ==>
      Carried(r, stage) == (if stage in r.httpFields then r.httpFields[stage] else 0.0)
    ensures At(r, false, k) && !http ==>
      Carried(r, stage) == (if stage in r.icmpFields then r.icmpFields[stage] else 0.0)
  {
  }

  lemma {:induction false} DurationsOfGroup(rs: seq<Report>, k: Str)
    ensures TotalDuration(Successes(Group(rs, false, k))) == DurationTotal(rs, k)
  {
    if rs != [] {
      DurationsOfGroup(rs[..|rs| - 1], k);
      DurationGrows(rs, k);
    }
  }

  lemma {:induction false} DurationGrows(rs: seq<Report>, k: Str)
    requires rs != []
    ensures var before, last := rs[..|rs| - 1], rs[|rs| - 1];
      TotalDuration(Successes(Group(rs, false, k))) == TotalDuration(Successes(Group(before, false, k)))
      + if IcmpAt(last, k) && last.success then FieldTotal(last.icmpFields) else 0.0
  {
    var last := rs[|rs| - 1];
    GroupUnfold(rs, false, k);
    if IcmpAt(last, k) && last.success {
      TotalSnoc(Successes(Group(rs[..|rs| - 1], false, k)), last);
      OwnDuration(last);
    }
  }

  lemma {:induction false} TotalSnoc(rs: seq<Report>, r: Report)
    ensures TotalDuration(rs + [r]) == TotalDuration(rs) + Duration(r)
  {
    assert (rs + [r])[..|rs|] == rs;
  }

  lemma {:induction false} OwnDuration(r: Report)
    requires !IsHttp(r)
    ensures Duration(r) == FieldTotal(r.icmpFields)
  {
    var m := r.icmpFields;
    SumSame(s => Carried(r, s), s => if s in m then m[s] else 0.0, DurationStages(m));
  }

  lemma {:induction false} CodesOfGroup(rs: seq<Report>, k: Str, codes: seq<int>)
    requires CodesAre(codes, Group(rs, true, k))
    ensures SumCodes(codes) == CodeSum(rs, k)
  {
    if rs != [] {
      var before, last := rs[..|rs| - 1], rs[|rs| - 1];
      AtIsBelongs(last, true, k);
      if At(last, true, k) {
        CodesOfGroup(before, k, codes[..|codes| - 1]);
      } else {
        CodesOfGroup(before, k, codes);
      }
    }
  }

  /** Some report of this type and key succeeded and carries the stage. */
  ghost predicate Carries(rs: seq<Report>, http: bool, k: Str, stage: Str) {
    exists j :: 0 <= j < |rs| && CarriesAt(rs[j], http, k, stage)
  }

  predicate CarriesAt(r: Report, http: bool, k: Str, stage: Str) {
    At(r, http, k) && r.success && stage in (if http then r.httpFields else r.icmpFields)
  }

  lemma {:induction false} StagesOfGroup(rs: seq<Report>, http: bool, k: Str, stage: Str)
    ensures HasStage(Successes(Group(rs, http, k)), stage) <==> Carries(rs, http, k, stage)
  {
    if rs != [] {
      var before, last := rs[..|rs| - 1], rs[|rs| - 1];
      StagesOfGroup(before, http, k, stage);
      GroupUnfold(rs, http, k);
      HasStageSnoc(Successes(Group(before, http, k)), last, stage);
      CarriesSnoc(rs, http, k, stage);
      OwnField(last, http, k, stage);
    }
  }

  lemma {:induction false} CarriesSnoc(rs: seq<Report>, http: bool, k: Str, stage: Str)
    requires rs != []
    ensures Carries(rs, http, k, stage) <==>
      Carries(rs[..|rs| - 1], http, k, stage) || CarriesAt(rs[|rs| - 1], http, k, stage)
  {
    var before := rs[..|rs| - 1];
    assert forall j :: 0 <= j < |before| ==> before[j] == rs[j];
    if Carries(before, http, k, stage) {
      var j :| 0 <= j < |before| && CarriesAt(before[j], http, k, stage);
      assert CarriesAt(rs[j], http, k, stage);
    }
  }

  /** The first report of its type and key: the one the exported labels come from. */
  ghost predicate FirstAt(rs: seq<Report>, http: bool, k: Str, i: int) {
    0 <= i < |rs| && At(rs[i], http, k) && forall j :: 0 <= j < i ==> !At(rs[j], http, k)
  }

  lemma {:induction false} FirstOfGroup(rs: seq<Report>, http: bool, k: Str)
    ensures Group(rs, http, k) == [] ==> forall i :: !FirstAt(rs, http, k, i)
    ensures Group(rs, http, k) != [] ==> exists i :: FirstAt(rs, http, k, i)
    ensures forall i :: FirstAt(rs, http, k, i) ==> Group(rs, http, k) != [] && Group(rs, http, k)[0] == rs[i]
  {
    PositionsOfGroup(rs, http, k);
    var ps := Positions(rs, http, k);
    if ps != [] {
      forall j: nat | j < ps[0] ensures !At(rs[j], http, k) {
        if At(rs[j], http, k) {
          var m := EarlierInGroup(rs, http, k, 0, j);
        }
      }
      assert FirstAt(rs, http, k, ps[0]);
    }
    forall i | FirstAt(rs, http, k, i) ensures ps != [] && i == ps[0] {
      PositionsComplete(rs, http, k, i);
    }
  }

  /** The first failure of an http key that names a reason, other than "success". */
  predicate NamesReason(r: Report, k: Str) {
    HttpAt(r, k) && !r.success && r.failedReason != [] && r.failedReason != SUCCESS
  }

  ghost predicate FirstNamed(rs: seq<Report>, k: Str, j: int) {
    0 <= j < |rs| && NamesReason(rs[j], k) && forall i :: 0 <= i < j ==> !NamesReason(rs[i], k)
  }

  /** The reason a key's failures are exported under. */
  ghost predicate ExportedReason(rs: seq<Report>, k: Str, reason: Str) {
    if exists j :: 0 <= j < |rs| && NamesReason(rs[j], k)
    then exists j :: FirstNamed(rs, k, j) && reason == rs[j].failedReason
    else reason == SUCCESS
  }

  lemma {:induction false} ReasonOfGroup(rs: seq<Report>, k: Str, reason: Str)
    requires ReasonIs(Group(rs, true, k), reason)
    ensures ExportedReason(rs, k, reason)
  {
    var ps, g := Positions(rs, true, k), Group(rs, true, k);
    PositionsOfGroup(rs, true, k);
    if exists i :: FirstInformative(g, i) {
      var i :| FirstInformative(g, i) && reason == g[i].failedReason;
      assert NamesReason(rs[ps[i]], k);
      forall j: nat | j < ps[i] ensures !NamesReason(rs[j], k) {
        if NamesReason(rs[j], k) {
          var m := EarlierInGroup(rs, true, k, i, j);
        }
      }
      assert FirstNamed(rs, k, ps[i]);
    } else {
      NoFirstInformative(g);
      forall j: nat | j < |rs| ensures !NamesReason(rs[j], k) {
        if NamesReason(rs[j], k) {
          var m := InGroup(rs, true, k, j);
        }
      }
    }
  }

  /** A success of an http key whose certificate fields are not all zero. */
  predicate NamesCertificate(r: Report, k: Str) {
    && HttpAt(r, k) && r.success && r.tls.Some?
    && (r.tls.value.version != [] || r.tls.value.expiry != 0)
  }

  ghost predicate FirstCertificate(rs: seq<Report>, k: Str, j: int) {
    0 <= j < |rs| && NamesCertificate(rs[j], k) && forall i :: 0 <= i < j ==> !NamesCertificate(rs[i], k)
  }

  /** The certificate kept for a key: that of its first success with one. */
  ghost predicate KeptCertificate(rs: seq<Report>, k: Str, version: Str, expiry: int) {
    if exists j :: 0 <= j < |rs| && NamesCertificate(rs[j], k)
    then exists j :: FirstCertificate(rs, k, j) && rs[j].tls.value == Tls(version, expiry)
    else version == [] && expiry == 0
  }

  lemma {:induction false} CertificateOfGroup(rs: seq<Report>, k: Str, version: Str, expiry: int)
    requires TlsIs(Group(rs, true, k), version, expiry)
    ensures KeptCertificate(rs, k, version, expiry)
  {
    var ps, g := Positions(rs, true, k), Group(rs, true, k);
    PositionsOfGroup(rs, true, k);
    if exists i :: FirstCertified(g, i) {
      var i :| FirstCertified(g, i) && g[i].tls.value == Tls(version, expiry);
      assert NamesCertificate(rs[ps[i]], k);
      forall j: nat | j < ps[i] ensures !NamesCertificate(rs[j], k) {
        if NamesCertificate(rs[j], k) {
          var m := EarlierInGroup(rs, true, k, i, j);
        }
      }
      assert FirstCertificate(rs, k, ps[i]);
    } else {
      NoFirstCertified(g);
      forall j: nat | j < |rs| ensures !NamesCertificate(rs[j], k) {
        if NamesCertificate(rs[j], k) {
          var m := InGroup(rs, true, k, j);
        }
      }
    }
  }

  // ----- a round -----

  /** A round of `agg` over the reports `rs`: their containers, its dots, and the exported state at its
      start. */
  datatype RoundRun = RoundRun(rs: seq<Report>, http: map<Str, Container>, icmp: map<Str, Container>,
                               hdots: Dots, idots: Dots, before: State, now: int, ttl: int)

  /** The containers summarize the reports, and the dots are those of the containers. */
  ghost predicate Runs(r: RoundRun) {
    Folded(r.http, r.rs, true) && Folded(r.icmp, r.rs, false) && Publishes(r)
  }

  ghost predicate Publishes(r: RoundRun) {
    && PublishHttpRound(r.hdots, r.http)
    && PublishIcmpRound(r.idots, r.icmp, DotAll(r.before, r.hdots, r.now, r.ttl).metrics)
  }

  /** The same with the containers of one key only. */
  ghost predicate RunsAt(r: RoundRun, http: bool, k: Str) {
    Publishes(r) && if http then FoldedAt(r.http, r.rs, true, k) else FoldedAt(r.icmp, r.rs, false, k)
  }

  lemma {:induction false} RunsEverywhere(r: RoundRun, http: bool, k: Str)
    requires Runs(r)
    ensures RunsAt(r, http, k)
  {
  }

  ghost function After(r: RoundRun): map<Series, real> {
    DotAll(r.before, r.hdots + r.idots, r.now, r.ttl).metrics
  }

  predicate HttpVec(v: Vec) {
    v == SslExpiry || v == StatusCode || v == HttpFailed || v == HttpDuration
  }

  /** An http series after the round: the icmp half leaves it alone. */
  lemma AfterHttp(r: RoundRun, x: Series)
    requires Publishes(r) && HttpVec(x.vec)
    ensures ValueIn(After(r), x) == Over(ValueIn(r.before.metrics, x), HttpRound(r.http, x))
  {
    DotAllMetrics(r.before, r.hdots + r.idots, r.now, r.ttl, x);
    LastDotConcat(r.hdots, r.idots, x);
    assert LastDot(r.hdots, x) == HttpRound(r.http, x);
    NoIcmpDot(r, x);
  }

  lemma NoIcmpDot(r: RoundRun, x: Series)
    requires Publishes(r) && HttpVec(x.vec)
    ensures LastDot(r.idots, x) == None
  {
    var mid := DotAll(r.before, r.hdots, r.now, r.ttl).metrics;
    IcmpLeavesHttp(r.icmp, mid, x);
    assert LastDot(r.idots, x) == IcmpRound(r.icmp, mid, x);
  }

  lemma IcmpLeavesHttp(icmp: map<Str, Container>, metrics: map<Series, real>, x: Series)
    requires HttpVec(x.vec)
    ensures IcmpRound(icmp, metrics, x) == None
  {
  }

  lemma NoHttpDot(r: RoundRun, x: Series)
    requires Publishes(r) && !HttpVec(x.vec)
    ensures LastDot(r.hdots, x) == None
  {
    assert LastDot(r.hdots, x) == HttpRound(r.http, x);
  }

  /** The http half leaves the icmp vectors alone. */
  lemma HttpHalfLeaves(r: RoundRun, x: Series)
    requires Publishes(r) && !HttpVec(x.vec)
    ensures ValueIn(DotAll(r.before, r.hdots, r.now, r.ttl).metrics, x) == ValueIn(r.before.metrics, x)
  {
    DotAllMetrics(r.before, r.hdots, r.now, r.ttl, x);
    NoHttpDot(r, x);
  }

  /** The exported labels are those of the key's first http report. */
  ghost predicate HttpOwned(rs: seq<Report>, source: Str, region: Str, target: Str) {
    exists i :: FirstAt(rs, true, JoinKey([source, region, target]), i)
      && rs[i].source == source && rs[i].region == region && rs[i].target == target
  }

  ghost predicate IcmpOwned(rs: seq<Report>, source: Str, region: Str) {
    exists i :: FirstAt(rs, false, JoinKey([source, region]), i) && rs[i].source == source && rs[i].region == region
  }

  /** The container of an owned triple. */
  lemma {:induction false} HttpContainer(r: RoundRun, source: Str, region: Str, target: Str)
    requires RunsAt(r, true, JoinKey([source, region, target]))
    ensures var k := JoinKey([source, region, target]);
      && (HttpOwned(r.rs, source, region, target) <==> k in r.http && HttpLabels(r.http[k]) == [source, region, target])
      && (k in r.http ==> Summarizes(r.http[k], Group(r.rs, true, k)))
  {
    var k := JoinKey([source, region, target]);
    FirstOfGroup(r.rs, true, k);
    if k in r.http {
      var c, g := r.http[k], Group(r.rs, true, k);
      assert Summarizes(c, g);
      assert HttpLabels(c) == [g[0].source, g[0].region, g[0].target];
    }
  }

  lemma {:induction false} IcmpContainer(r: RoundRun, source: Str, region: Str)
    requires RunsAt(r, false, JoinKey([source, region]))
    ensures var k := JoinKey([source, region]);
      && (IcmpOwned(r.rs, source, region) <==> k in r.icmp && IcmpLabels(r.icmp[k]) == [source, region])
      && (k in r.icmp ==> Summarizes(r.icmp[k], Group(r.rs, false, k)))
  {
    var k := JoinKey([source, region]);
    FirstOfGroup(r.rs, false, k);
    if k in r.icmp {
      var c, g := r.icmp[k], Group(r.rs, false, k);
      assert Summarizes(c, g);
      assert IcmpLabels(c) == [g[0].source, g[0].region];
    }
  }

  /** What an http container publishes for a phase. */
  lemma {:induction false} StageOfLabels(c: Container, stage: Str, labels: seq<Str>)
    requires |labels| == 3
    ensures HttpValue(c, Series(HttpDuration, [stage] + labels))
      == if HttpLabels(c) == labels then MeanOf(c, stage) else None
  {
    assert ([stage] + labels)[1..] == labels;
  }

  lemma {:induction false} MeanOfGroup(c: Container, rs: seq<Report>, http: bool, k: Str, stage: Str)
    requires Summarizes(c, Group(rs, http, k))
    ensures MeanOf(c, stage) ==
      if Carries(rs, http, k, stage) && Count(rs, http, k, true) > 0
      then Some((if http then HttpSum(rs, k, stage) else IcmpSum(rs, k, stage)) / Count(rs, http, k, true) as real)
      else None
    ensures Carries(rs, http, k, stage) ==> Count(rs, http, k, true) > 0
  {
    CountsOfGroup(rs, http, k);
    SumsOfGroup(rs, http, k, stage);
    StagesOfGroup(rs, http, k, stage);
    GroupPhase(c, Group(rs, http, k), stage);
  }

  /** The mean of a phase over http reports: the sum of the successes' own fields over their number,
      exported for each phase some success carries; any other phase series keeps its value. */
  lemma {:induction false} HttpDurationExactly(r: RoundRun, stage: Str, source: Str, region: Str, target: Str)
    requires RunsAt(r, true, JoinKey([source, region, target]))
    ensures var k, x := JoinKey([source, region, target]), Series(HttpDuration, [stage, source, region, target]);
      if HttpOwned(r.rs, source, region, target) && Carries(r.rs, true, k, stage) then
        && Count(r.rs, true, k, true) > 0
        && ValueIn(After(r), x) == Some(HttpSum(r.rs, k, stage) / Count(r.rs, true, k, true) as real)
      else ValueIn(After(r), x) == ValueIn(r.before.metrics, x)
  {
    var labels := [source, region, target];
    var k, x := JoinKey(labels), Series(HttpDuration, [stage] + labels);
    assert [stage] + labels == [stage, source, region, target] && x.labels[1..] == labels;
    AfterHttp(r, x);
    HttpContainer(r, source, region, target);
    if k in r.http {
      StageOfLabels(r.http[k], stage, labels);
      MeanOfGroup(r.http[k], r.rs, true, k, stage);
    }
  }

  /** A group's mean of a stage, if some success carries it. */
  lemma {:induction false} GroupPhase(c: Container, g: seq<Report>, stage: Str)
    requires Summarizes(c, g)
    ensures if HasStage(Successes(g), stage) then
        |Successes(g)| > 0 && MeanOf(c, stage) == Some(StageSum(Successes(g), stage) / |Successes(g)| as real)
      else MeanOf(c, stage) == None
  {
    if stage in c.phase {
      SummaryPhase(c, g, stage);
    }
  }

  /** `code` is the sum of all the key's codes over their number, truncated towards zero. */
  ghost predicate TruncatedMean(rs: seq<Report>, k: Str, code: int) {
    var n, sum := Count(rs, true, k, true) + Count(rs, true, k, false), CodeSum(rs, k);
    n > 0 && if sum >= 0 then 0 <= sum - code * n < n else 0 <= code * n - sum < n
  }

  lemma {:induction false} GroupStatus(c: Container, rs: seq<Report>, k: Str)
    requires Summarizes(c, Group(rs, true, k))
    ensures TruncatedMean(rs, k, StatusOf(c.statusCodes))
  {
    CountsOfGroup(rs, true, k);
    CodesOfGroup(rs, k, c.statusCodes);
    CountsAddUp(Group(rs, true, k));
    Truncated(SumCodes(c.statusCodes), |c.statusCodes|);
  }

  /** The status code of an http key. */
  lemma {:induction false} StatusExactly(r: RoundRun, source: Str, region: Str, target: Str) returns (code: int)
    requires RunsAt(r, true, JoinKey([source, region, target]))
    ensures var k, x := JoinKey([source, region, target]), Series(StatusCode, [source, region, target]);
      if HttpOwned(r.rs, source, region, target) then
        ValueIn(After(r), x) == Some(code as real) && TruncatedMean(r.rs, k, code)
      else ValueIn(After(r), x) == ValueIn(r.before.metrics, x)
  {
    var k := JoinKey([source, region, target]);
    AfterHttp(r, Series(StatusCode, [source, region, target]));
    HttpContainer(r, source, region, target);
    code := 0;
    if k in r.http {
      code := StatusOf(r.http[k].statusCodes);
      GroupStatus(r.http[k], r.rs, k);
    }
  }

  lemma Truncated(a: int, n: int)
    requires n > 0
    ensures var q := TruncDiv(a, n); if a >= 0 then 0 <= a - q * n < n else 0 <= q * n - a < n
  {
    if a < 0 {
      var p := -a / n;
      assert -a == p * n + (-a) % n;
      assert TruncDiv(a, n) * n == -(p * n);
    }
  }

  /** The failures: their number, under the first reason one of them named; under every other reason the
      old value stays. */
  lemma {:induction false} HttpFailedExactly(r: RoundRun, source: Str, region: Str, target: Str, reason: Str)
    requires RunsAt(r, true, JoinKey([source, region, target]))
    ensures var k, x := JoinKey([source, region, target]), Series(HttpFailed, [source, region, target, reason]);
      ValueIn(After(r), x) ==
        if HttpOwned(r.rs, source, region, target) && ExportedReason(r.rs, k, reason)
        then Some(Count(r.rs, true, k, false) as real) else ValueIn(r.before.metrics, x)
  {
    var k, x := JoinKey([source, region, target]), Series(HttpFailed, [source, region, target, reason]);
    assert x.labels[..3] == [source, region, target];
    AfterHttp(r, x);
    HttpContainer(r, source, region, target);
    CountsOfGroup(r.rs, true, k);
    if k in r.http {
      var c := r.http[k];
      ReasonOfGroup(r.rs, k, c.failedReason);
      OneReason(r.rs, k, c.failedReason, reason);
      LabelsThenOne(c, x, reason);
    }
  }

  lemma OneReason(rs: seq<Report>, k: Str, a: Str, b: Str)
    requires ExportedReason(rs, k, a)
    ensures ExportedReason(rs, k, b) <==> a == b
  {
    forall i, j | FirstNamed(rs, k, i) && FirstNamed(rs, k, j) ensures i == j {
    }
  }

  lemma LabelsThenOne(c: Container, x: Series, last: Str)
    requires |x.labels| == 4 && x.labels[3] == last
    ensures forall v: Str :: x.labels == HttpLabels(c) + [v] <==> x.labels[..3] == HttpLabels(c) && last == v
  {
    forall v: Str ensures x.labels == HttpLabels(c) + [v] <==> x.labels[..3] == HttpLabels(c) && last == v {
      assert x.labels == x.labels[..3] + [last];
      assert (HttpLabels(c) + [v])[..3] == HttpLabels(c);
    }
  }

  /** What an http container publishes for a certificate. */
  lemma {:induction false} CertificateOfLabels(c: Container, labels: seq<Str>, v: Str)
    requires |labels| == 3
    ensures HttpValue(c, Series(SslExpiry, labels + [v])) ==
      if HttpLabels(c) == labels && v == c.tlsVersion && c.tlsVersion != [] && c.tlsExpiry != 0
      then Some(c.tlsExpiry as real) else None
  {
    var x := Series(SslExpiry, labels + [v]);
    assert x.labels[..3] == labels;
    LabelsThenOne(c, x, v);
  }

  lemma {:induction false} CertificateAfter(r: RoundRun, source: Str, region: Str, target: Str,
                                            version: Str, expiry: int, v: Str)
    requires RunsAt(r, true, JoinKey([source, region, target]))
    requires var k := JoinKey([source, region, target]);
      k in r.http ==> r.http[k].tlsVersion == version && r.http[k].tlsExpiry == expiry
    ensures var x := Series(SslExpiry, [source, region, target, v]);
      ValueIn(After(r), x) ==
        if HttpOwned(r.rs, source, region, target) && v == version && version != [] && expiry != 0
        then Some(expiry as real) else ValueIn(r.before.metrics, x)
  {
    var labels := [source, region, target];
    var k, x := JoinKey(labels), Series(SslExpiry, labels + [v]);
    assert labels + [v] == [source, region, target, v] && x.labels[..3] == labels;
    HttpContainer(r, source, region, target);
    AfterHttp(r, x);
    if k in r.http {
      CertificateOfLabels(r.http[k], labels, v);
    }
  }

  /** The certificate: the expiry of the key's first success with one, under its version, if both are
      set; every other certificate series keeps its value. */
  lemma {:induction false} CertificateExactly(r: RoundRun, source: Str, region: Str, target: Str,
                                              version: Str, expiry: int, v: Str)
    requires RunsAt(r, true, JoinKey([source, region, target]))
    requires KeptCertificate(r.rs, JoinKey([source, region, target]), version, expiry)
    ensures var x := Series(SslExpiry, [source, region, target, v]);
      ValueIn(After(r), x) ==
        if HttpOwned(r.rs, source, region, target) && v == version && version != [] && expiry != 0
        then Some(expiry as real) else ValueIn(r.before.metrics, x)
  {
    var k := JoinKey([source, region, target]);
    if k in r.http {
      KeptByContainer(r.http[k], r.rs, k, version, expiry);
    }
    CertificateAfter(r, source, region, target, version, expiry, v);
  }

  lemma {:induction false} KeptByContainer(c: Container, rs: seq<Report>, k: Str, version: Str, expiry: int)
    requires Summarizes(c, Group(rs, true, k)) && KeptCertificate(rs, k, version, expiry)
    ensures c.tlsVersion == version && c.tlsExpiry == expiry
  {
    CertificateOfGroup(rs, k, c.tlsVersion, c.tlsExpiry);
    OneCertificate(rs, k, c.tlsVersion, c.tlsExpiry, version, expiry);
  }

  lemma OneCertificate(rs: seq<Report>, k: Str, v: Str, e: int, w: Str, f: int)
    requires KeptCertificate(rs, k, v, e) && KeptCertificate(rs, k, w, f)
    ensures v == w && e == f
  {
    forall i, j | FirstCertificate(rs, k, i) && FirstCertificate(rs, k, j) ensures i == j {
    }
  }

  // ----- icmp -----

  /** An icmp series after the round, from its container. */
  lemma AfterIcmp(r: RoundRun, x: Series)
    requires Publishes(r) && !HttpVec(x.vec)
    ensures var k := OwnerKey(x); ValueIn(After(r), x) == Over(ValueIn(r.before.metrics, x),
      if k in r.icmp then IcmpValue(r.icmp[k], Prior(r.before.metrics, HistogramOf(r.icmp[k])), x) else None)
  {
    DotAllMetrics(r.before, r.hdots + r.idots, r.now, r.ttl, x);
    LastDotConcat(r.hdots, r.idots, x);
    NoHttpDot(r, x);
    IcmpDot(r, x);
  }

  lemma IcmpDot(r: RoundRun, x: Series)
    requires Publishes(r)
    ensures LastDot(r.idots, x) ==
      if OwnerKey(x) in r.icmp
      then IcmpValue(r.icmp[OwnerKey(x)], Prior(r.before.metrics, HistogramOf(r.icmp[OwnerKey(x)])), x)
      else None
  {
    var mid := DotAll(r.before, r.hdots, r.now, r.ttl).metrics;
    assert LastDot(r.idots, x) == IcmpRound(r.icmp, mid, x);
    if OwnerKey(x) in r.icmp {
      HttpHalfLeaves(r, HistogramOf(r.icmp[OwnerKey(x)]));
    }
  }

  lemma {:induction false} IcmpFailedExactly(r: RoundRun, source: Str, region: Str)
    requires RunsAt(r, false, JoinKey([source, region]))
    ensures var k, x := JoinKey([source, region]), Series(IcmpFailed, [source, region]);
      ValueIn(After(r), x) ==
        if IcmpOwned(r.rs, source, region) then Some(Count(r.rs, false, k, false) as real)
        else ValueIn(r.before.metrics, x)
  {
    AfterIcmp(r, Series(IcmpFailed, [source, region]));
    IcmpContainer(r, source, region);
    CountsOfGroup(r.rs, false, JoinKey([source, region]));
  }

  /** The series a stage of an icmp key is exported as: "loss" and "stddev" have vectors of their own. */
  function IcmpSeries(stage: Str, source: Str, region: Str): Series {
    if stage == LOSS then Series(IcmpLoss, [source, region])
    else if stage == STDDEV then Series(IcmpJitter, [source, region])
    else Series(IcmpDuration, [stage, source, region])
  }

  lemma {:induction false} IcmpStageOwner(stage: Str, source: Str, region: Str, c: Container, prior: real)
    ensures var x := IcmpSeries(stage, source, region);
      && !HttpVec(x.vec) && OwnerKey(x) == JoinKey([source, region])
      && IcmpValue(c, prior, x) == if IcmpLabels(c) == [source, region] then MeanOf(c, stage) else None
  {
    var x := IcmpSeries(stage, source, region);
    assert x.vec.IcmpDuration? ==> x.labels[1..] == [source, region];
  }

  /** The same for the stages of icmp reports. */
  lemma {:induction false} IcmpMeanExactly(r: RoundRun, stage: Str, source: Str, region: Str)
    requires RunsAt(r, false, JoinKey([source, region]))
    ensures var k, x := JoinKey([source, region]), IcmpSeries(stage, source, region);
      if IcmpOwned(r.rs, source, region) && Carries(r.rs, false, k, stage) then
        && Count(r.rs, false, k, true) > 0
        && ValueIn(After(r), x) == Some(IcmpSum(r.rs, k, stage) / Count(r.rs, false, k, true) as real)
      else ValueIn(After(r), x) == ValueIn(r.before.metrics, x)
  {
    var k, x := JoinKey([source, region]), IcmpSeries(stage, source, region);
    IcmpStageOwner(stage, source, region, NewContainer(Report([], [], [], [], true, [], 0, map[], map[], None)), 0.0);
    AfterIcmp(r, x);
    IcmpContainer(r, source, region);
    if k in r.icmp {
      IcmpStageOwner(stage, source, region, r.icmp[k], Prior(r.before.metrics, HistogramOf(r.icmp[k])));
      MeanOfGroup(r.icmp[k], r.rs, false, k, stage);
    }
  }

  /** "loss" and "stddev" are no phases of the duration vector. */
  lemma NoLossDuration(r: RoundRun, stage: Str, source: Str, region: Str)
    requires Publishes(r)
    requires stage == LOSS || stage == STDDEV
    ensures var x := Series(IcmpDuration, [stage, source, region]);
      ValueIn(After(r), x) == ValueIn(r.before.metrics, x)
  {
    AfterIcmp(r, Series(IcmpDuration, [stage, source, region]));
  }

  lemma {:induction false} HistogramValue(c: Container, metrics: map<Series, real>, total: real, x: Series)
    requires x.vec.IcmpHistogram? && Observation(c) == total
    ensures IcmpValue(c, Prior(metrics, HistogramOf(c)), x) ==
      if x.labels == IcmpLabels(c) then Some((if x in metrics then metrics[x] else 0.0) + total) else None
  {
  }

  lemma {:induction false} HistogramGrows(r: RoundRun, source: Str, region: Str, total: real)
    requires RunsAt(r, false, JoinKey([source, region]))
    requires var k := JoinKey([source, region]); k in r.icmp ==> Observation(r.icmp[k]) == total
    ensures var x := Series(IcmpHistogram, [source, region]);
      ValueIn(After(r), x) ==
        if IcmpOwned(r.rs, source, region)
        then Some((if x in r.before.metrics then r.before.metrics[x] else 0.0) + total)
        else ValueIn(r.before.metrics, x)
  {
    var k, x := JoinKey([source, region]), Series(IcmpHistogram, [source, region]);
    AfterIcmp(r, x);
    IcmpContainer(r, source, region);
    if k in r.icmp {
      HistogramValue(r.icmp[k], r.before.metrics, total, x);
    }
  }

  /** The histogram grows by all the fields of the key's successes but "loss" and "stddev". */
  lemma {:induction false} HistogramExactly(r: RoundRun, source: Str, region: Str)
    requires RunsAt(r, false, JoinKey([source, region]))
    ensures var k, x := JoinKey([source, region]), Series(IcmpHistogram, [source, region]);
      ValueIn(After(r), x) ==
        if IcmpOwned(r.rs, source, region)
        then Some((if x in r.before.metrics then r.before.metrics[x] else 0.0) + DurationTotal(r.rs, k))
        else ValueIn(r.before.metrics, x)
  {
    var k := JoinKey([source, region]);
    if k in r.icmp {
      GroupObservation(r.icmp[k], r.rs, k);
    }
    HistogramGrows(r, source, region, DurationTotal(r.rs, k));
  }

  lemma {:induction false} GroupObservation(c: Container, rs: seq<Report>, k: Str)
    requires Summarizes(c, Group(rs, false, k))
    ensures Observation(c) == DurationTotal(rs, k)
  {
    ObservationIsTotalDuration(c, Group(rs, false, k));
    DurationsOfGroup(rs, k);
  }
}
