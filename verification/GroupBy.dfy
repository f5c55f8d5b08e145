/**
 Reports and what one aggregation round makes of them: the fold of `agg` in
 pkg/server/aggregator.go, specified as a group-by.
 */
module GroupBy {
  import opened Common
  import opened Keys

  /** The TLS fields of a report: the version, and the expiry as `strconv.ParseInt` returned it. */
  datatype Tls = Tls(version: Str, expiry: int)

  datatype Report = Report(
    proberType: Str, source: Str, region: Str, target: Str,
    success: bool, failedReason: Str, statusCode: int,
    httpFields: map<Str, real>, icmpFields: map<Str, real>, tls: Option<Tls>)

  datatype Container = Container(
    source: Str, region: Str, target: Str,
    failedReason: Str, tlsVersion: Str, tlsExpiry: int,
    statusCodes: seq<int>, batchCnt: nat, failedCnt: nat, phase: map<Str, real>)

  const HTTP: Str := [0x68, 0x74, 0x74, 0x70]
  const SUCCESS: Str := [0x73, 0x75, 0x63, 0x63, 0x65, 0x73, 0x73]

  predicate IsHttp(r: Report) {
    r.proberType == HTTP
  }

  /** Every type other than http is aggregated as icmp. */
  function Fields(r: Report): map<Str, real> {
    if IsHttp(r) then r.httpFields else r.icmpFields
  }

  function Labels(r: Report): seq<Str> {
    if IsHttp(r) then [r.source, r.region, r.target] else [r.source, r.region]
  }

  function KeyOf(r: Report): Str {
    JoinKey(Labels(r))
  }

  /** Reports of one prober type with separator-free labels share a key only if they share the labels. */
  lemma SameKeySameLabels(a: Report, b: Report)
    requires KeyOf(a) == KeyOf(b) && IsHttp(a) == IsHttp(b)
    requires AllSepFree(Labels(a)) && AllSepFree(Labels(b))
    ensures Labels(a) == Labels(b)
  {
    JoinInjective(Labels(a), Labels(b));
  }

  // ----- the group-by -----

  predicate Belongs(r: Report, http: bool, key: Str) {
    IsHttp(r) == http && KeyOf(r) == key
  }

  /** The reports of one container, in order. */
  function Group(rs: seq<Report>, http: bool, key: Str): seq<Report> {
    if rs == [] then []
    else
      var last := rs[|rs| - 1];
      Group(rs[..|rs| - 1], http, key) + (if Belongs(last, http, key) then [last] else [])
  }

  function Successes(g: seq<Report>): seq<Report> {
    if g == [] then []
    else Successes(g[..|g| - 1]) + (if g[|g| - 1].success then [g[|g| - 1]] else [])
  }

  function FailureCount(g: seq<Report>): nat {
    if g == [] then 0 else FailureCount(g[..|g| - 1]) + (if g[|g| - 1].success then 0 else 1)
  }

  function Carried(r: Report, stage: Str): real {
    if stage in Fields(r) then Fields(r)[stage] else 0.0
  }

  function StageSum(rs: seq<Report>, stage: Str): real {
    if rs == [] then 0.0 else StageSum(rs[..|rs| - 1], stage) + Carried(rs[|rs| - 1], stage)
  }

  predicate HasStage(rs: seq<Report>, stage: Str) {
    exists i :: 0 <= i < |rs| && stage in Fields(rs[i])
  }

  /** A failure that names its reason. */
  predicate Informative(r: Report) {
    !r.success && IsHttp(r) && |r.failedReason| > 0 && r.failedReason != SUCCESS
  }

  ghost predicate FirstInformative(g: seq<Report>, i: int) {
    0 <= i < |g| && Informative(g[i]) && forall j :: 0 <= j < i ==> !Informative(g[j])
  }

  ghost predicate ReasonIs(g: seq<Report>, reason: Str) {
    if exists i :: FirstInformative(g, i) then
      exists i :: FirstInformative(g, i) && reason == g[i].failedReason
    else reason == SUCCESS
  }

  /** A success whose TLS fields are not all at their zero values. */
  predicate Certified(r: Report) {
    r.success && r.tls.Some? && (r.tls.value.version != [] || r.tls.value.expiry != 0)
  }

  ghost predicate FirstCertified(g: seq<Report>, i: int) {
    0 <= i < |g| && Certified(g[i]) && forall j :: 0 <= j < i ==> !Certified(g[j])
  }

  ghost predicate TlsIs(g: seq<Report>, version: Str, expiry: int) {
    if exists i :: FirstCertified(g, i) then
      exists i :: FirstCertified(g, i) && g[i].tls.value == Tls(version, expiry)
    else version == [] && expiry == 0
  }

  /** The container `c` is the summary of the group `g`. */
  ghost predicate Summarizes(c: Container, g: seq<Report>) {
    && g != []
    && c.source == g[0].source && c.region == g[0].region && c.target == g[0].target
    && SummarizesBody(c, g)
  }

  /** Everything but the labels, which come from the group's first report. */
  ghost predicate SummarizesBody(c: Container, g: seq<Report>) {
    && CodesAre(c.statusCodes, g)
    && c.batchCnt == |Successes(g)| && c.failedCnt == FailureCount(g)
    && PhasesAre(c.phase, Successes(g))
    && ReasonIs(g, c.failedReason)
    && TlsIs(g, c.tlsVersion, c.tlsExpiry)
  }

  // ----- the fold -----

  function NewContainer(r: Report): Container {
    Container(r.source, r.region, r.target, SUCCESS, [], 0, [], 0, 0, map[])
  }

  function AddFields(phase: map<Str, real>, fields: map<Str, real>): map<Str, real> {
    map stage | stage in phase.Keys + fields.Keys ::
      (if stage in phase then phase[stage] else 0.0) + (if stage in fields then fields[stage] else 0.0)
  }

  /** What one report does to its container. */
  function AddReport(c: Container, r: Report): Container {
    var c1 := c.(statusCodes := c.statusCodes + [r.statusCode]);
    if r.success then
      var c2 := c1.(batchCnt := c1.batchCnt + 1, phase := AddFields(c1.phase, Fields(r)));
      if r.tls.Some? && c2.tlsExpiry == 0 && |c2.tlsVersion| == 0 then
        c2.(tlsVersion := r.tls.value.version, tlsExpiry := r.tls.value.expiry)
      else c2
    else
      var c2 :=
        if IsHttp(r) && |r.failedReason| > 0 && c1.failedReason == SUCCESS
        then c1.(failedReason := r.failedReason) else c1;
      c2.(failedCnt := c2.failedCnt + 1)
  }

  lemma HasStageSnoc(rs: seq<Report>, r: Report, stage: Str)
    ensures HasStage(rs + [r], stage) <==> HasStage(rs, stage) || stage in Fields(r)
  {
    if HasStage(rs, stage) {
      var i :| 0 <= i < |rs| && stage in Fields(rs[i]);
      assert (rs + [r])[i] == rs[i];
    }
    if stage in Fields(r) {
      assert (rs + [r])[|rs|] == r;
    }
  }

  lemma {:induction false} NoStageNoSum(rs: seq<Report>, stage: Str)
    requires !HasStage(rs, stage)
    ensures StageSum(rs, stage) == 0.0
  {
    if rs != [] {
      var before := rs[..|rs| - 1];
      assert forall i :: 0 <= i < |before| ==> before[i] == rs[i];
      NoStageNoSum(before, stage);
    }
  }

  lemma ReasonSnoc(g: seq<Report>, r: Report, reason: Str)
    requires ReasonIs(g, reason)
    ensures ReasonIs(g + [r], if Informative(r) && reason == SUCCESS then r.failedReason else reason)
  {
    var g' := g + [r];
    assert forall i :: 0 <= i < |g| ==> g'[i] == g[i];
    assert forall i :: FirstInformative(g, i) ==> FirstInformative(g', i);
    assert forall i :: FirstInformative(g', i) && i < |g| ==> FirstInformative(g, i);
    if forall i :: !FirstInformative(g, i) {
      NoFirstInformative(g);
      assert Informative(r) ==> FirstInformative(g', |g|);
    }
  }

  lemma NoFirstInformative(g: seq<Report>)
    requires forall i :: !FirstInformative(g, i)
    ensures forall i :: 0 <= i < |g| ==> !Informative(g[i])
  {
    for k := 0 to |g|
      invariant forall i :: 0 <= i < k ==> !Informative(g[i])
    {
      assert !FirstInformative(g, k);
    }
  }

  lemma TlsSnoc(g: seq<Report>, r: Report, version: Str, expiry: int)
    requires TlsIs(g, version, expiry)
    ensures
      var take := r.success && r.tls.Some? && expiry == 0 && version == [];
      TlsIs(g + [r], if take then r.tls.value.version else version, if take then r.tls.value.expiry else expiry)
  {
    var g' := g + [r];
    assert forall i :: 0 <= i < |g| ==> g'[i] == g[i];
    assert forall i :: FirstCertified(g, i) ==> FirstCertified(g', i);
    assert forall i :: FirstCertified(g', i) && i < |g| ==> FirstCertified(g, i);
    if forall i :: !FirstCertified(g, i) {
      NoFirstCertified(g);
      assert Certified(r) ==> FirstCertified(g', |g|);
    }
  }

  lemma NoFirstCertified(g: seq<Report>)
    requires forall i :: !FirstCertified(g, i)
    ensures forall i :: 0 <= i < |g| ==> !Certified(g[i])
  {
    for k := 0 to |g|
      invariant forall i :: 0 <= i < k ==> !Certified(g[i])
    {
      assert !FirstCertified(g, k);
    }
  }

  lemma SuccessesSnoc(g: seq<Report>, r: Report)
    ensures Successes(g + [r]) == if r.success then Successes(g) + [r] else Successes(g)
    ensures FailureCount(g + [r]) == FailureCount(g) + (if r.success then 0 else 1)
  {
    assert (g + [r])[..|g|] == g;
  }

  lemma StageSumSnoc(rs: seq<Report>, r: Report, stage: Str)
    ensures StageSum(rs + [r], stage) == StageSum(rs, stage) + Carried(r, stage)
  {
    assert (rs + [r])[..|rs|] == rs;
  }

  lemma PhaseSnoc(phase: map<Str, real>, ss: seq<Report>, r: Report, stage: Str)
    requires stage in phase <==> HasStage(ss, stage)
    requires stage in phase ==> phase[stage] == StageSum(ss, stage)
    ensures var p := AddFields(phase, Fields(r));
      && (stage in p <==> HasStage(ss + [r], stage))
      && (stage in p ==> p[stage] == StageSum(ss + [r], stage))
  {
    HasStageSnoc(ss, r, stage);
    StageSumSnoc(ss, r, stage);
    if stage !in phase {
      NoStageNoSum(ss, stage);
    }
  }

  ghost predicate PhasesAre(phase: map<Str, real>, ss: seq<Report>) {
    && (forall stage :: stage in phase <==> HasStage(ss, stage))
    && (forall stage :: stage in phase ==> phase[stage] == StageSum(ss, stage))
  }

  lemma PhasesSnoc(phase: map<Str, real>, ss: seq<Report>, r: Report)
    requires PhasesAre(phase, ss)
    ensures PhasesAre(AddFields(phase, Fields(r)), ss + [r])
  {
    var p := AddFields(phase, Fields(r));
    forall stage
      ensures stage in p <==> HasStage(ss + [r], stage)
      ensures stage in p ==> p[stage] == StageSum(ss + [r], stage)
    {
      PhaseSnoc(phase, ss, r, stage);
    }
  }

  ghost predicate CodesAre(codes: seq<int>, g: seq<Report>) {
    |codes| == |g| && forall i :: 0 <= i < |g| ==> codes[i] == g[i].statusCode
  }

  lemma CodesSnoc(codes: seq<int>, g: seq<Report>, r: Report)
    requires CodesAre(codes, g)
    ensures CodesAre(codes + [r.statusCode], g + [r])
  {
  }

  lemma {:induction false} AddStepCounts(c: Container, g: seq<Report>, r: Report)
    requires c.batchCnt == |Successes(g)| && c.failedCnt == FailureCount(g)
    ensures AddReport(c, r).statusCodes == c.statusCodes + [r.statusCode]
    ensures AddReport(c, r).batchCnt == |Successes(g + [r])| && AddReport(c, r).failedCnt == FailureCount(g + [r])
  {
    SuccessesSnoc(g, r);
  }

  lemma AddStepPhases(c: Container, g: seq<Report>, r: Report)
    requires PhasesAre(c.phase, Successes(g))
    ensures PhasesAre(AddReport(c, r).phase, Successes(g + [r]))
  {
    SuccessesSnoc(g, r);
    if r.success {
      PhasesSnoc(c.phase, Successes(g), r);
    }
  }

  lemma AddStepReason(c: Container, g: seq<Report>, r: Report)
    requires ReasonIs(g, c.failedReason)
    ensures ReasonIs(g + [r], AddReport(c, r).failedReason)
  {
    ReasonSnoc(g, r, c.failedReason);
  }

  lemma AddStepTls(c: Container, g: seq<Report>, r: Report)
    requires TlsIs(g, c.tlsVersion, c.tlsExpiry)
    ensures TlsIs(g + [r], AddReport(c, r).tlsVersion, AddReport(c, r).tlsExpiry)
  {
    TlsSnoc(g, r, c.tlsVersion, c.tlsExpiry);
  }

  /** One step of the fold extends the summary by one report. */
  lemma AddStep(c: Container, g: seq<Report>, r: Report)
    requires SummarizesBody(c, g)
    ensures SummarizesBody(AddReport(c, r), g + [r])
  {
    CodesSnoc(c.statusCodes, g, r);
    AddStepCounts(c, g, r);
    AddStepPhases(c, g, r);
    AddStepReason(c, g, r);
    AddStepTls(c, g, r);
  }

  lemma SummaryGrows(c: Container, g: seq<Report>, r: Report)
    requires Summarizes(c, g)
    ensures Summarizes(AddReport(c, r), g + [r])
  {
    AddStep(c, g, r);
    AddKeepsLabels(c, r);
    assert (g + [r])[0] == g[0];
  }

  lemma AddKeepsLabels(c: Container, r: Report)
    ensures var c' := AddReport(c, r); c'.source == c.source && c'.region == c.region && c'.target == c.target
  {
  }

  /** A container is created by its first report. */
  lemma FirstReport(r: Report)
    ensures Summarizes(AddReport(NewContainer(r), r), [r])
  {
    assert ReasonIs([], SUCCESS) && TlsIs([], [], 0);
    AddStep(NewContainer(r), [], r);
    assert [] + [r] == [r];
  }

  // ----- all containers of one prober type -----

  /** `aggs` holds the summary of every group of `rs`, and nothing else. */
  ghost predicate Folded(aggs: map<Str, Container>, rs: seq<Report>, http: bool) {
    && (forall key :: key in aggs <==> Group(rs, http, key) != [])
    && (forall key :: key in aggs ==> Summarizes(aggs[key], Group(rs, http, key)))
  }

  /** The container map after one more report. */
  function AddToMap(aggs: map<Str, Container>, r: Report): map<Str, Container> {
    var key := KeyOf(r);
    aggs[key := AddReport(if key in aggs then aggs[key] else NewContainer(r), r)]
  }

  lemma GroupSnoc(rs: seq<Report>, r: Report, http: bool, key: Str)
    ensures Group(rs + [r], http, key) ==
      if Belongs(r, http, key) then Group(rs, http, key) + [r] else Group(rs, http, key)
  {
    assert (rs + [r])[..|rs|] == rs;
  }

  lemma {:induction false} GroupBelongs(rs: seq<Report>, http: bool, key: Str)
    ensures forall i :: 0 <= i < |Group(rs, http, key)| ==> Belongs(Group(rs, http, key)[i], http, key)
  {
    if rs != [] {
      GroupBelongs(rs[..|rs| - 1], http, key);
    }
  }

  /** The container of one key is the summary of its group, if there is one. */
  ghost predicate FoldedAt(aggs: map<Str, Container>, rs: seq<Report>, http: bool, key: Str) {
    && (key in aggs <==> Group(rs, http, key) != [])
    && (key in aggs ==> Summarizes(aggs[key], Group(rs, http, key)))
  }

  lemma FoldedSnocAt(aggs: map<Str, Container>, rs: seq<Report>, http: bool, r: Report, key: Str)
    requires Folded(aggs, rs, http)
    ensures FoldedAt(if IsHttp(r) == http then AddToMap(aggs, r) else aggs, rs + [r], http, key)
  {
    GroupSnoc(rs, r, http, key);
    assert FoldedAt(aggs, rs, http, key);
    if Belongs(r, http, key) {
      NextSummary(aggs, rs, http, r);
    }
  }

  /** One report extends exactly the group it belongs to. */
  lemma FoldedSnoc(aggs: map<Str, Container>, rs: seq<Report>, http: bool, r: Report)
    requires Folded(aggs, rs, http)
    ensures Folded(if IsHttp(r) == http then AddToMap(aggs, r) else aggs, rs + [r], http)
  {
    var aggs' := if IsHttp(r) == http then AddToMap(aggs, r) else aggs;
    forall key ensures FoldedAt(aggs', rs + [r], http, key) {
      FoldedSnocAt(aggs, rs, http, r, key);
    }
    FoldedEverywhere(aggs', rs + [r], http);
  }

  lemma FoldedEverywhere(aggs: map<Str, Container>, rs: seq<Report>, http: bool)
    requires forall key :: FoldedAt(aggs, rs, http, key)
    ensures Folded(aggs, rs, http)
  {
    forall key ensures key in aggs <==> Group(rs, http, key) != [] {
      assert FoldedAt(aggs, rs, http, key);
    }
    forall key | key in aggs ensures Summarizes(aggs[key], Group(rs, http, key)) {
      assert FoldedAt(aggs, rs, http, key);
    }
  }

  lemma NextSummary(aggs: map<Str, Container>, rs: seq<Report>, http: bool, r: Report)
    requires Folded(aggs, rs, http) && IsHttp(r) == http
    ensures var g := Group(rs, http, KeyOf(r));
      Summarizes(AddReport(if KeyOf(r) in aggs then aggs[KeyOf(r)] else NewContainer(r), r), g + [r])
  {
    var key := KeyOf(r);
    var g := Group(rs, http, key);
    if key in aggs {
      assert Summarizes(aggs[key], g);
      SummaryGrows(aggs[key], g, r);
    } else {
      FirstReport(r);
      assert g + [r] == [r];
    }
  }

  /** A container's labels join to its key. */
  lemma ContainerKey(aggs: map<Str, Container>, rs: seq<Report>, http: bool, key: Str)
    requires Folded(aggs, rs, http) && key in aggs
    ensures var c := aggs[key];
      key == JoinKey(if http then [c.source, c.region, c.target] else [c.source, c.region])
  {
    GroupBelongs(rs, http, key);
    assert Belongs(Group(rs, http, key)[0], http, key);
  }

  // ----- what a summary guarantees -----

  lemma {:induction false} CountsAddUp(g: seq<Report>)
    ensures |Successes(g)| + FailureCount(g) == |g|
  {
    if g != [] {
      CountsAddUp(g[..|g| - 1]);
    }
  }

  /** No average divides by zero: there is a status code for every report and at least one, and a
      phase is present only if some report succeeded. */
  lemma DivisorsPositive(c: Container, g: seq<Report>)
    requires Summarizes(c, g)
    ensures |c.statusCodes| == c.batchCnt + c.failedCnt > 0
    ensures forall stage :: stage in c.phase ==> c.batchCnt > 0
  {
    CountsAddUp(g);
    forall stage | stage in c.phase ensures c.batchCnt > 0 {
      assert HasStage(Successes(g), stage);
    }
  }
}
