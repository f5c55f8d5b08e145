/**
 Expiry of exported series: `setCache`, `clean` and the two hold caches of
 pkg/server/aggregator.go.

 Setting a gauge of one of six metric vectors also puts the joined label values into a hold
 cache, whose eviction callback splits the key and deletes that label tuple from the vector.
 `Set` and `Hold` are the aggregator's two writes and `Dot` is both at once; as for liveness, `Tick`
 and `Callback` are the janitor's two steps and `Expire` is both at once.
 */
module SeriesHold {
  import opened Common
  import opened Keys
  import G = GroupBy
  import C = TtlCache

  datatype Vec =
    | IcmpFailed | IcmpDuration | IcmpLoss | IcmpJitter | IcmpHistogram
    | HttpFailed | HttpDuration | SslExpiry | StatusCode

  datatype Family = Icmp | Http

  datatype Series = Series(vec: Vec, labels: seq<Str>)

  /** The loss, jitter and histogram vectors are never put into a hold. */
  predicate Held(v: Vec) {
    !v.IcmpLoss? && !v.IcmpJitter? && !v.IcmpHistogram?
  }

  function FamilyOf(v: Vec): Family {
    match v
    case HttpFailed => Http
    case HttpDuration => Http
    case SslExpiry => Http
    case StatusCode => Http
    case _ => Icmp
  }

  datatype HoldCache = HoldCache(entries: C.Cache<Vec>, pending: map<Str, Vec>)

  /** `writing` is the series whose gauge the aggregator has set and whose hold it is about to write. */
  datatype State = State(metrics: map<Series, real>, icmp: HoldCache, http: HoldCache, writing: Option<Series>)

  datatype Event =
    | Dot(series: Series, value: real, now: int)
    | Set(series: Series, value: real)
    | Hold(series: Series, now: int)
    | Tick(family: Family, now: int)
    | Callback(family: Family, key: Str)
    | Expire(family: Family, now: int)

  const EMPTY_HOLD := HoldCache(map[], map[])
  const INIT := State(map[], EMPTY_HOLD, EMPTY_HOLD, None)

  function Of(s: State, f: Family): HoldCache {
    if f.Icmp? then s.icmp else s.http
  }

  function With(s: State, f: Family, h: HoldCache): State {
    if f.Icmp? then s.(icmp := h) else s.(http := h)
  }

  /** The series `clean` deletes for an evicted entry. */
  function Victim(key: Str, v: Vec): Series {
    Series(v, SplitKey(key))
  }

  function Victims(gone: map<Str, Vec>): set<Series> {
    set k | k in gone :: Victim(k, gone[k])
  }

  predicate Enabled(s: State, e: Event) {
    match e
    case Dot(_, _, _) => s.writing.None?
    case Set(_, _) => s.writing.None?
    case Hold(x, _) => s.writing == Some(x)
    case Tick(f, _) => Of(s, f).pending == map[]
    case Callback(f, key) => key in Of(s, f).pending
    case Expire(f, _) => Of(s, f).pending == map[]
  }

  function SetCache(s: State, x: Series, now: int, ttl: int): State {
    var f := FamilyOf(x.vec);
    With(s, f, Of(s, f).(entries := C.SetDefault(Of(s, f).entries, JoinKey(x.labels), x.vec, now, ttl)))
  }

  function Dotted(s: State, x: Series, value: real, now: int, ttl: int): State {
    var s' := if Held(x.vec) then SetCache(s, x, now, ttl) else s;
    s'.(metrics := s.metrics[x := value])
  }

  function Apply(s: State, e: Event, ttl: int): State
    requires Enabled(s, e)
  {
    match e
    case Dot(x, value, now) => Dotted(s, x, value, now, ttl)
    case Set(x, value) =>
      s.(metrics := s.metrics[x := value], writing := if Held(x.vec) then Some(x) else None)
    case Hold(x, now) => SetCache(s, x, now, ttl).(writing := None)
    case Tick(f, now) =>
      With(s, f, HoldCache(C.DeleteExpired(Of(s, f).entries, now), C.Expired(Of(s, f).entries, now)))
    case Callback(f, key) =>
      var h := Of(s, f);
      With(s, f, h.(pending := h.pending - {key})).(metrics := s.metrics - {Victim(key, h.pending[key])})
    case Expire(f, now) =>
      var h := Of(s, f);
      With(s, f, HoldCache(C.DeleteExpired(h.entries, now), map[]))
        .(metrics := s.metrics - Victims(C.Expired(h.entries, now)))
  }

  ghost predicate StepAt(ss: seq<State>, es: seq<Event>, ttl: int, i: int)
    requires |ss| == |es| + 1 && 0 <= i < |es|
  {
    Enabled(ss[i], es[i]) && ss[i + 1] == Apply(ss[i], es[i], ttl)
  }

  /** `ss` is the run over the events `es`. */
  ghost predicate Behavior(ss: seq<State>, es: seq<Event>, ttl: int) {
    && |ss| == |es| + 1
    && ss[0] == INIT
    && forall i :: 0 <= i < |es| ==> StepAt(ss, es, ttl, i)
  }

  /** A dot is its two writes with nothing in between. */
  lemma DotIsSetThenHold(s: State, x: Series, value: real, now: int, ttl: int)
    requires s.writing.None?
    ensures Apply(s, Dot(x, value, now), ttl) ==
      if Held(x.vec) then Apply(Apply(s, Set(x, value), ttl), Hold(x, now), ttl) else Apply(s, Set(x, value), ttl)
  {
  }

  /** Which vectors are held where: dotting sets the gauge and refreshes exactly one hold entry, of the
      icmp hold or of the http hold, or none for the loss, jitter and histogram vectors. */
  lemma HeldWhere(s: State, x: Series, value: real, now: int, ttl: int)
    ensures var t, k := Dotted(s, x, value, now, ttl), JoinKey(x.labels);
      && t.metrics == s.metrics[x := value] && t.icmp.pending == s.icmp.pending && t.http.pending == s.http.pending
      && t.icmp.entries == (if x.vec in {IcmpFailed, IcmpDuration}
                            then s.icmp.entries[k := C.Entry(x.vec, now + ttl)] else s.icmp.entries)
      && t.http.entries == (if x.vec in {HttpFailed, HttpDuration, SslExpiry, StatusCode}
                            then s.http.entries[k := C.Entry(x.vec, now + ttl)] else s.http.entries)
  {
  }

  // ----- vectors that are not held -----

  ghost predicate HoldsHeld(h: HoldCache) {
    && (forall k :: k in h.entries ==> Held(h.entries[k].value))
    && (forall k :: k in h.pending ==> Held(h.pending[k]))
  }

  ghost predicate OnlyHeldEntries(s: State) {
    HoldsHeld(s.icmp) && HoldsHeld(s.http) && (s.writing.Some? ==> Held(s.writing.value.vec))
  }

  lemma UnheldStep(s: State, e: Event, ttl: int, x: Series)
    requires Enabled(s, e) && OnlyHeldEntries(s)
    requires !Held(x.vec) && x in s.metrics
    ensures x in Apply(s, e, ttl).metrics && OnlyHeldEntries(Apply(s, e, ttl))
  {
    if e.Expire? {
      assert forall k :: k in C.Expired(Of(s, e.family).entries, e.now) ==>
        Held(C.Expired(Of(s, e.family).entries, e.now)[k]);
    }
  }

  lemma {:induction false} HeldEntriesOnly(ss: seq<State>, es: seq<Event>, ttl: int, n: nat)
    requires Behavior(ss, es, ttl) && n <= |es|
    ensures OnlyHeldEntries(ss[n])
  {
    if n > 0 {
      HeldEntriesOnly(ss, es, ttl, n - 1);
      assert StepAt(ss, es, ttl, n - 1);
    }
  }

  /** A series of the loss, jitter or histogram vectors, once exported, is exported in every
      later state of every run. */
  lemma {:induction false} UnheldSeriesStay(ss: seq<State>, es: seq<Event>, ttl: int, m: nat, n: nat, x: Series)
    requires Behavior(ss, es, ttl) && m <= n <= |es|
    requires x.vec in {IcmpLoss, IcmpJitter, IcmpHistogram} && x in ss[m].metrics
    ensures x in ss[n].metrics
    decreases n
  {
    if m < n {
      UnheldSeriesStay(ss, es, ttl, m, n - 1, x);
      HeldEntriesOnly(ss, es, ttl, n - 1);
      assert StepAt(ss, es, ttl, n - 1);
      UnheldStep(ss[n - 1], es[n - 1], ttl, x);
    }
  }

  // ----- tracking -----

  predicate LabelsOk(x: Series) {
    x.labels != []
  }

  /** The series can be told apart by its key: its labels survive the join. */
  ghost predicate Splittable(x: Series) {
    LabelsOk(x) && AllSepFree(x.labels)
  }

  ghost predicate SameKey(x: Series, y: Series) {
    FamilyOf(x.vec) == FamilyOf(y.vec) && JoinKey(x.labels) == JoinKey(y.labels)
  }

  /** Distinct held series have distinct hold keys. */
  ghost predicate KeysDistinct(xs: iset<Series>) {
    forall x, y :: x in xs && y in xs && Held(x.vec) && Held(y.vec) && SameKey(x, y) ==> x == y
  }

  /** Every dotted series belongs to `xs`, whose labels are separator-free. */
  ghost predicate DotsFrom(es: seq<Event>, xs: iset<Series>) {
    && (forall x :: x in xs ==> Splittable(x))
    && forall i :: 0 <= i < |es| ==> EventFrom(es[i], xs)
  }

  predicate Writes(e: Event) {
    e.Dot? || e.Set? || e.Hold?
  }

  ghost predicate EventFrom(e: Event, xs: iset<Series>) {
    Writes(e) ==> e.series in xs
  }

  /** Every hold entry and every pending callback stands for a held series of `xs`. */
  ghost predicate Origin(s: State, xs: iset<Series>) {
    && HoldOrigin(s.icmp, xs, Icmp) && HoldOrigin(s.http, xs, Http)
    && (s.writing.Some? ==> s.writing.value in xs && Held(s.writing.value.vec))
  }

  ghost predicate HoldOrigin(h: HoldCache, xs: iset<Series>, f: Family) {
    && (forall k :: k in h.entries ==> EntryFrom(xs, f, k, h.entries[k].value))
    && (forall k :: k in h.pending ==> EntryFrom(xs, f, k, h.pending[k]))
  }

  /** `clean` deletes exactly the series the entry was created for. */
  ghost predicate EntryFrom(xs: iset<Series>, f: Family, k: Str, v: Vec) {
    Held(v) && FamilyOf(v) == f && Victim(k, v) in xs && JoinKey(Victim(k, v).labels) == k
  }

  lemma DottedEntry(xs: iset<Series>, x: Series)
    requires x in xs && Held(x.vec) && Splittable(x)
    ensures Victim(JoinKey(x.labels), x.vec) == x
    ensures EntryFrom(xs, FamilyOf(x.vec), JoinKey(x.labels), x.vec)
  {
    SplitUndoesJoin(x.labels);
  }

  lemma OriginStep(s: State, e: Event, ttl: int, xs: iset<Series>)
    requires Enabled(s, e) && Origin(s, xs)
    requires EventFrom(e, xs) && forall y :: y in xs ==> Splittable(y)
    ensures Origin(Apply(s, e, ttl), xs)
  {
    if (e.Dot? || e.Hold?) && Held(e.series.vec) {
      DottedEntry(xs, e.series);
    }
  }

  /** The hold or a pending callback will delete this very series. */
  ghost predicate Tracked(s: State, x: Series) {
    var h, k := Of(s, FamilyOf(x.vec)), JoinKey(x.labels);
    (k in h.entries && h.entries[k].value == x.vec) || (k in h.pending && h.pending[k] == x.vec)
  }

  ghost predicate TrackedOrWriting(s: State, x: Series) {
    Tracked(s, x) || s.writing == Some(x)
  }

  ghost predicate AllTracked(s: State, xs: iset<Series>) {
    && (forall x :: x in s.metrics ==> x in xs)
    && (forall x :: x in s.metrics && Held(x.vec) ==> TrackedOrWriting(s, x))
  }

  lemma TrackedByWrite(s: State, e: Event, ttl: int, x: Series)
    requires Enabled(s, e) && Writes(e) && Held(x.vec) && (x in s.metrics ==> TrackedOrWriting(s, x))
    requires (e.Hold? ==> Held(e.series.vec)) && (Held(e.series.vec) && SameKey(x, e.series) ==> x == e.series)
    requires x in Apply(s, e, ttl).metrics
    ensures TrackedOrWriting(Apply(s, e, ttl), x)
  {
  }

  lemma TrackedByClean(s: State, e: Event, ttl: int, x: Series)
    requires Enabled(s, e) && !Writes(e) && Held(x.vec) && (x in s.metrics ==> TrackedOrWriting(s, x))
    requires Splittable(x) && x in Apply(s, e, ttl).metrics
    ensures TrackedOrWriting(Apply(s, e, ttl), x)
  {
    SplitUndoesJoin(x.labels);
    if e.Expire? {
      var k, gone := JoinKey(x.labels), C.Expired(Of(s, e.family).entries, e.now);
      assert k in gone ==> Victim(k, gone[k]) in Victims(gone);
    }
  }

  lemma TrackedStep(s: State, e: Event, ttl: int, xs: iset<Series>, x: Series)
    requires Enabled(s, e) && Origin(s, xs) && KeysDistinct(xs)
    requires forall y :: y in xs ==> Splittable(y)
    requires EventFrom(e, xs)
    requires x in xs && Held(x.vec) && (x in s.metrics ==> TrackedOrWriting(s, x))
    requires x in Apply(s, e, ttl).metrics
    ensures TrackedOrWriting(Apply(s, e, ttl), x)
  {
    if Writes(e) {
      TrackedByWrite(s, e, ttl, x);
    } else {
      TrackedByClean(s, e, ttl, x);
    }
  }

  lemma {:induction false} RunOrigin(ss: seq<State>, es: seq<Event>, ttl: int, n: nat, xs: iset<Series>)
    requires Behavior(ss, es, ttl) && n <= |es| && DotsFrom(es, xs)
    ensures Origin(ss[n], xs)
  {
    if n > 0 {
      RunOrigin(ss, es, ttl, n - 1, xs);
      assert StepAt(ss, es, ttl, n - 1);
      OriginStep(ss[n - 1], es[n - 1], ttl, xs);
    }
  }

  /** In every interleaving of the aggregator's writes with sweeps and callbacks: when distinct series
      have distinct keys, every exported series of a held vector is in the hold or awaits its
      callback, under its own key and vector, or is the one whose hold is about to be written. */
  lemma {:induction false} ExportedAreTracked(ss: seq<State>, es: seq<Event>, ttl: int, n: nat, xs: iset<Series>)
    requires Behavior(ss, es, ttl) && n <= |es| && DotsFrom(es, xs) && KeysDistinct(xs)
    ensures AllTracked(ss[n], xs)
  {
    if n > 0 {
      ExportedAreTracked(ss, es, ttl, n - 1, xs);
      RunOrigin(ss, es, ttl, n - 1, xs);
      assert StepAt(ss, es, ttl, n - 1);
      forall x | x in ss[n].metrics && Held(x.vec) ensures TrackedOrWriting(ss[n], x) {
        TrackedStep(ss[n - 1], es[n - 1], ttl, xs, x);
      }
    }
  }

  /** A series of the run is deleted only by the callback of an entry created with exactly its
      vector and labels. */
  lemma DeletedWithOwnLabels(s: State, e: Event, ttl: int, xs: iset<Series>, x: Series)
    requires Enabled(s, e) && Origin(s, xs)
    requires x in s.metrics && x !in Apply(s, e, ttl).metrics
    ensures (e.Callback? || e.Expire?) && Held(x.vec) && x in xs && FamilyOf(x.vec) == e.family
    ensures e.Callback? ==> e.key == JoinKey(x.labels) && Of(s, e.family).pending[e.key] == x.vec
    ensures e.Expire? ==> C.IsExpired(Of(s, e.family).entries, JoinKey(x.labels), e.now)
    ensures e.Expire? ==> Of(s, e.family).entries[JoinKey(x.labels)].value == x.vec
  {
    if e.Expire? {
      var gone := C.Expired(Of(s, e.family).entries, e.now);
      assert x in Victims(gone);
      var k :| k in gone && x == Victim(k, gone[k]);
      assert EntryFrom(xs, e.family, k, Of(s, e.family).entries[k].value);
    }
  }

  // ----- timing -----

  ghost predicate OneStep(es: seq<Event>) {
    forall i :: 0 <= i < |es| ==> !es[i].Tick? && !es[i].Callback? && !es[i].Set? && !es[i].Hold?
  }

  ghost predicate Exact(s: State, x: Series) {
    var h, k := Of(s, FamilyOf(x.vec)), JoinKey(x.labels);
    && h.pending == map[]
    && (x in s.metrics <==> k in h.entries && h.entries[k].value == x.vec)
  }

  lemma ExactStep(s: State, e: Event, ttl: int, xs: iset<Series>, x: Series)
    requires Enabled(s, e) && Origin(s, xs) && KeysDistinct(xs)
    requires forall y :: y in xs ==> Splittable(y)
    requires EventFrom(e, xs) && !e.Set? && !e.Hold?
    requires !e.Tick? && !e.Callback? && x in xs && Held(x.vec) && Exact(s, x)
    ensures Exact(Apply(s, e, ttl), x)
  {
    DottedEntry(xs, x);
    var k := JoinKey(x.labels);
    match e
    case Dot(y, _, _) =>
      if Held(y.vec) && x != y {
        assert !SameKey(x, y);
      }
    case Expire(f, now) =>
      var gone := C.Expired(Of(s, f).entries, now);
      assert k in gone ==> Victim(k, gone[k]) in Victims(gone);
      forall q | q in gone && Victim(q, gone[q]) == x ensures q == k && f == FamilyOf(x.vec) {
        assert EntryFrom(xs, f, q, Of(s, f).entries[q].value);
      }
    case _ =>
  }

  lemma {:induction false} RunExact(ss: seq<State>, es: seq<Event>, ttl: int, n: nat, xs: iset<Series>, x: Series)
    requires Behavior(ss, es, ttl) && n <= |es| && DotsFrom(es, xs) && KeysDistinct(xs) && OneStep(es)
    requires x in xs && Held(x.vec)
    ensures Exact(ss[n], x)
  {
    if n > 0 {
      RunExact(ss, es, ttl, n - 1, xs, x);
      RunOrigin(ss, es, ttl, n - 1, xs);
      assert StepAt(ss, es, ttl, n - 1);
      ExactStep(ss[n - 1], es[n - 1], ttl, xs, x);
    }
  }

  function OpOf(f: Family, e: Event): C.Op<Vec> {
    match e
    case Dot(x, _, now) =>
      if Held(x.vec) && FamilyOf(x.vec) == f then C.Put(JoinKey(x.labels), x.vec, now) else C.Other
    case Set(_, _) => C.Other
    case Hold(x, now) => if FamilyOf(x.vec) == f then C.Put(JoinKey(x.labels), x.vec, now) else C.Other
    case Tick(g, now) => if f == g then C.Sweep(now) else C.Other
    case Expire(g, now) => if f == g then C.Sweep(now) else C.Other
    case Callback(_, _) => C.Other
  }

  /** What one family's hold sees of a run. */
  function Ops(f: Family, es: seq<Event>): (ops: seq<C.Op<Vec>>)
    ensures |ops| == |es| && forall i :: 0 <= i < |es| ==> ops[i] == OpOf(f, es[i])
  {
    seq(|es|, i requires 0 <= i < |es| => OpOf(f, es[i]))
  }

  lemma {:induction false} HoldHistory(ss: seq<State>, es: seq<Event>, ttl: int, n: nat, f: Family)
    requires Behavior(ss, es, ttl) && n <= |es|
    ensures Of(ss[n], f).entries == C.Run(Ops(f, es[..n]), ttl)
  {
    if n > 0 {
      HoldHistory(ss, es, ttl, n - 1, f);
      assert Ops(f, es[..n])[..n - 1] == Ops(f, es[..n - 1]);
      assert StepAt(ss, es, ttl, n - 1);
    }
  }

  predicate Dots(e: Event, x: Series) {
    e.Dot? && e.series == x
  }

  /** One-step dots and eviction: a series dotted in the run is exported exactly when no sweep of its
      hold after its last dot came more than the hold time after it. */
  lemma ExportedExactly(ss: seq<State>, es: seq<Event>, ttl: int, n: nat, xs: iset<Series>, x: Series, d: int)
    requires Behavior(ss, es, ttl) && n <= |es| && DotsFrom(es, xs) && KeysDistinct(xs) && OneStep(es)
    requires x.vec in {IcmpFailed, IcmpDuration, HttpFailed, HttpDuration, SslExpiry, StatusCode}
    requires x in xs && 0 <= d < n && Dots(es[d], x)
    ensures x in ss[n].metrics <==> C.Present(Ops(FamilyOf(x.vec), es[..n]), JoinKey(x.labels), ttl)
  {
    var ops, k := Ops(FamilyOf(x.vec), es[..n]), JoinKey(x.labels);
    RunExact(ss, es, ttl, n, xs, x);
    HoldHistory(ss, es, ttl, n, FamilyOf(x.vec));
    C.PresentExactly(ops, k, ttl);
    assert C.PutAt(ops, k, d);
    var last := C.FindLastPut(ops, k, d);
    assert SameKey(es[last].series, x);
  }

  // ----- exported series under every interleaving -----

  /** The series is exported and held, and no callback for it is pending. */
  ghost predicate Secure(s: State, x: Series) {
    var h, k := Of(s, FamilyOf(x.vec)), JoinKey(x.labels);
    x in s.metrics && k in h.entries && k !in h.pending
  }

  lemma SecureStep(s: State, e: Event, ttl: int, xs: iset<Series>, x: Series)
    requires Enabled(s, e) && Origin(s, xs) && x in xs && Splittable(x) && Held(x.vec)
    requires Secure(s, x) && JoinKey(x.labels) in Of(Apply(s, e, ttl), FamilyOf(x.vec)).entries
    ensures Secure(Apply(s, e, ttl), x)
  {
    if e.Callback? || e.Expire? {
      ExportedThroughClean(s, e, ttl, xs, x);
    }
  }

  lemma ExportedThroughClean(s: State, e: Event, ttl: int, xs: iset<Series>, x: Series)
    requires Enabled(s, e) && Origin(s, xs) && x in s.metrics && (e.Callback? || e.Expire?)
    requires JoinKey(x.labels) !in Of(s, FamilyOf(x.vec)).pending
    requires JoinKey(x.labels) in Of(Apply(s, e, ttl), FamilyOf(x.vec)).entries
    ensures x in Apply(s, e, ttl).metrics
  {
    if x !in Apply(s, e, ttl).metrics {
      DeletedWithOwnLabels(s, e, ttl, xs, x);
    }
  }

  /** The event writes the hold entry of the series. */
  predicate Holds(e: Event, x: Series) {
    (e.Dot? || e.Hold?) && e.series == x
  }

  lemma HeldThroughout(ss: seq<State>, es: seq<Event>, ttl: int, f: Family, key: Str, first: int, n: int)
    requires Behavior(ss, es, ttl) && 0 <= first < n <= |es|
    requires C.Timed(Ops(f, es)) && C.PutAt(Ops(f, es), key, first)
    requires forall j :: first < j < |es| && Ops(f, es)[j].Sweep? ==> C.RecentPut(Ops(f, es), key, j, ttl)
    ensures key in Of(ss[n], f).entries
  {
    C.KeptThroughout(Ops(f, es), key, ttl, first, n);
    assert Ops(f, es[..n]) == Ops(f, es)[..n];
    HoldHistory(ss, es, ttl, n, f);
  }

  /** A series held again in time before every sweep is never cleaned, whatever the interleaving, if it
      was exported after its hold write `first` and no callback for it was pending then. */
  lemma {:induction false} RedottedSeriesStay(ss: seq<State>, es: seq<Event>, ttl: int, xs: iset<Series>, x: Series,
                                              first: int, n: int)
    requires Behavior(ss, es, ttl) && DotsFrom(es, xs) && x in xs
    requires x.vec in {IcmpFailed, IcmpDuration, HttpFailed, HttpDuration, SslExpiry, StatusCode}
    requires 0 <= first < n <= |es| && Holds(es[first], x) && x in ss[first + 1].metrics
    requires JoinKey(x.labels) !in Of(ss[first], FamilyOf(x.vec)).pending
    requires var ops := Ops(FamilyOf(x.vec), es);
      C.Timed(ops) && forall j :: first < j < |es| && ops[j].Sweep? ==> C.RecentPut(ops, JoinKey(x.labels), j, ttl)
    ensures Secure(ss[n], x)
    decreases n
  {
    assert StepAt(ss, es, ttl, n - 1);
    if n > first + 1 {
      var f, ops, k := FamilyOf(x.vec), Ops(FamilyOf(x.vec), es), JoinKey(x.labels);
      RedottedSeriesStay(ss, es, ttl, xs, x, first, n - 1);
      assert C.PutAt(ops, k, first);
      HeldThroughout(ss, es, ttl, f, k, first, n);
      RunOrigin(ss, es, ttl, n - 1, xs);
      SecureStep(ss[n - 1], es[n - 1], ttl, xs, x);
    }
  }

  /** With the janitor's period equal to the hold time, as configured, a series last held two hold times
      ago is exported at most while its callback is pending; under one-step dots and eviction it is gone. */
  lemma SilentSeriesGone(ss: seq<State>, es: seq<Event>, ttl: int, xs: iset<Series>, x: Series, last: int, now: int)
    requires Behavior(ss, es, ttl) && DotsFrom(es, xs) && KeysDistinct(xs) && ttl > 0
    requires x.vec in {IcmpFailed, IcmpDuration, HttpFailed, HttpDuration, SslExpiry, StatusCode}
    requires x in xs && 0 <= last < |es| && Holds(es[last], x)
    requires forall j :: last < j < |es| ==> !Touches(es[j], x)
    requires var ops := Ops(FamilyOf(x.vec), es);
      C.Timed(ops) && es[last].now + 2 * ttl <= now && C.SweptEvery(ops, ttl, es[last].now, now)
    ensures JoinKey(x.labels) !in Of(ss[|es|], FamilyOf(x.vec)).entries
    ensures x in ss[|es|].metrics ==> JoinKey(x.labels) in Of(ss[|es|], FamilyOf(x.vec)).pending
    ensures OneStep(es) ==> x !in ss[|es|].metrics
  {
    var ops, k := Ops(FamilyOf(x.vec), es), JoinKey(x.labels);
    assert es[..|es|] == es;
    forall j | last < j < |es| ensures !C.PutAt(ops, k, j) {
      HeldWrites(ss, es, ttl, j, xs);
      if C.PutAt(ops, k, j) {
        PutTouches(es, xs, x, j);
      }
    }
    C.GoneAfterTwoPeriods(ops, k, ttl, last, now);
    HoldHistory(ss, es, ttl, |es|, FamilyOf(x.vec));
    ExportedAreTracked(ss, es, ttl, |es|, xs);
    NotBeingWritten(ss, es, ttl, last, |es|, x);
    if OneStep(es) {
      RunExact(ss, es, ttl, |es|, xs, x);
    }
  }

  /** With distinct keys only the series itself writes its hold entry. */
  lemma PutTouches(es: seq<Event>, xs: iset<Series>, x: Series, j: nat)
    requires DotsFrom(es, xs) && KeysDistinct(xs) && x in xs && Held(x.vec) && j < |es| && HeldWrite(es[j])
    requires C.PutAt(Ops(FamilyOf(x.vec), es), JoinKey(x.labels), j)
    ensures Touches(es[j], x)
  {
    assert EventFrom(es[j], xs) && SameKey(es[j].series, x);
  }

  /** Holds are written for held vectors only. */
  predicate HeldWrite(e: Event) {
    e.Hold? ==> Held(e.series.vec)
  }

  lemma HeldWrites(ss: seq<State>, es: seq<Event>, ttl: int, j: nat, xs: iset<Series>)
    requires Behavior(ss, es, ttl) && j < |es| && DotsFrom(es, xs)
    ensures HeldWrite(es[j])
  {
    RunOrigin(ss, es, ttl, j, xs);
    assert StepAt(ss, es, ttl, j);
  }

  lemma {:induction false} NotBeingWritten(ss: seq<State>, es: seq<Event>, ttl: int, last: nat, n: nat, x: Series)
    requires Behavior(ss, es, ttl) && last < n <= |es| && Holds(es[last], x)
    requires forall j :: last < j < n ==> !Touches(es[j], x)
    ensures ss[n].writing != Some(x)
    decreases n
  {
    assert StepAt(ss, es, ttl, n - 1);
    if n > last + 1 {
      NotBeingWritten(ss, es, ttl, last, n - 1, x);
    }
  }

  /** The event sets the gauge of the series. */
  predicate SetsGauge(e: Event, x: Series) {
    (e.Dot? || e.Set?) && e.series == x
  }

  /** The event is the callback of the series' hold key. */
  predicate Cleans(e: Event, x: Series) {
    e.Callback? && e.family == FamilyOf(x.vec) && e.key == JoinKey(x.labels)
  }

  ghost predicate SetWithoutClean(es: seq<Event>, n: nat, x: Series, i: int)
    requires n <= |es|
  {
    0 <= i < n && SetsGauge(es[i], x) && forall j :: i < j < n ==> !Cleans(es[j], x)
  }

  ghost predicate SetSinceClean(es: seq<Event>, n: nat, x: Series)
    requires n <= |es|
  {
    exists i :: SetWithoutClean(es, n, x, i)
  }

  /** One event changes whether a series is exported only by setting it or running its callback. */
  lemma ExportStep(s: State, e: Event, ttl: int, xs: iset<Series>, x: Series)
    requires Enabled(s, e) && Origin(s, xs) && KeysDistinct(xs) && !e.Expire?
    requires x in xs && Splittable(x) && Held(x.vec)
    ensures x in Apply(s, e, ttl).metrics <==> SetsGauge(e, x) || (x in s.metrics && !Cleans(e, x))
  {
    if e.Callback? {
      SplitUndoesJoin(x.labels);
      assert EntryFrom(xs, e.family, e.key, Of(s, e.family).pending[e.key]);
      assert Cleans(e, x) ==> SameKey(Victim(e.key, Of(s, e.family).pending[e.key]), x);
    }
  }

  /** The exact lifetime of a series with the aggregator's two writes, sweeps and callbacks in any
      interleaving: it is exported exactly when no callback for its key ran after some gauge write of
      it. So a series just dotted is missing exactly when such a callback ran after its last gauge
      write, be it before its hold write or, from an earlier sweep, after the whole dot. */
  lemma {:induction false} ExportedUnderInterleaving(ss: seq<State>, es: seq<Event>, ttl: int, n: nat,
                                                     xs: iset<Series>, x: Series)
    requires Behavior(ss, es, ttl) && n <= |es| && DotsFrom(es, xs) && KeysDistinct(xs) && x in xs
    requires x.vec in {IcmpFailed, IcmpDuration, HttpFailed, HttpDuration, SslExpiry, StatusCode}
    requires forall i :: 0 <= i < |es| ==> !es[i].Expire?
    ensures x in ss[n].metrics <==> SetSinceClean(es, n, x)
  {
    if n > 0 {
      var m := n - 1;
      ExportedUnderInterleaving(ss, es, ttl, m, xs, x);
      RunOrigin(ss, es, ttl, m, xs);
      assert StepAt(ss, es, ttl, m);
      ExportStep(ss[m], es[m], ttl, xs, x);
      forall i | 0 <= i < m
        ensures SetWithoutClean(es, n, x, i) <==> SetWithoutClean(es, m, x, i) && !Cleans(es[m], x)
      {
      }
      if SetsGauge(es[m], x) {
        assert SetWithoutClean(es, n, x, m);
      }
    }
  }

  /** A run can be continued by any enabled event. */
  lemma Extend(ss: seq<State>, es: seq<Event>, ttl: int, e: Event) returns (ss': seq<State>, es': seq<Event>)
    requires Behavior(ss, es, ttl) && Enabled(ss[|es|], e)
    ensures Behavior(ss', es', ttl) && es' == es + [e] && ss <= ss'
    ensures ss'[|es'|] == Apply(ss[|es|], e, ttl)
  {
    ss', es' := ss + [Apply(ss[|es|], e, ttl)], es + [e];
    forall i | 0 <= i < |es'| ensures StepAt(ss', es', ttl, i) {
      assert i < |es| ==> StepAt(ss, es, ttl, i);
    }
  }

  /** A dotted series whose hold entry has been swept and whose callback is still to run. */
  lemma DottedThenSwept(x: Series, ttl: int) returns (ss: seq<State>, es: seq<Event>)
    requires Held(x.vec) && ttl > 0
    ensures Behavior(ss, es, ttl) && ss[|es|].writing.None? && x in ss[|es|].metrics
    ensures var h, k := Of(ss[|es|], FamilyOf(x.vec)), JoinKey(x.labels); k in h.pending && h.pending[k] == x.vec
  {
    assert Behavior([INIT], [], ttl);
    ss, es := Extend([INIT], [], ttl, Dot(x, 0.0, 0));
    ss, es := Extend(ss, es, ttl, Tick(FamilyOf(x.vec), ttl + 1));
  }

  /** A callback between the two writes of a dot: the hold entry then stands for a series that is no
      longer exported. */
  lemma CleanedBetweenWrites(x: Series, ttl: int) returns (ss: seq<State>, es: seq<Event>)
    requires Held(x.vec) && Splittable(x) && ttl > 0
    ensures Behavior(ss, es, ttl) && es != [] && es[|es| - 1] == Hold(x, ttl + 1)
    ensures x !in ss[|es|].metrics && Tracked(ss[|es|], x)
  {
    SplitUndoesJoin(x.labels);
    ss, es := DottedThenSwept(x, ttl);
    ss, es := Extend(ss, es, ttl, Set(x, 0.0));
    ss, es := Extend(ss, es, ttl, Callback(FamilyOf(x.vec), JoinKey(x.labels)));
    ss, es := Extend(ss, es, ttl, Hold(x, ttl + 1));
  }

  /** A whole dot between a sweep and its callback: the series is deleted although it was just dotted,
      uninterrupted, and its hold entry is fresh. */
  lemma CleanedAfterDot(x: Series, ttl: int) returns (ss: seq<State>, es: seq<Event>)
    requires Held(x.vec) && Splittable(x) && ttl > 0
    ensures Behavior(ss, es, ttl) && |es| >= 2 && es[|es| - 2] == Dot(x, 0.0, ttl + 1)
    ensures x !in ss[|es|].metrics && Tracked(ss[|es|], x)
    ensures !C.IsExpired(Of(ss[|es|], FamilyOf(x.vec)).entries, JoinKey(x.labels), ttl + 1)
  {
    SplitUndoesJoin(x.labels);
    ss, es := DottedThenSwept(x, ttl);
    ss, es := Extend(ss, es, ttl, Dot(x, 0.0, ttl + 1));
    ss, es := Extend(ss, es, ttl, Callback(FamilyOf(x.vec), JoinKey(x.labels)));
  }

  // ----- collisions -----

  /** The event writes the series or its hold. */
  predicate Touches(e: Event, x: Series) {
    Writes(e) && e.series == x
  }

  /** Exported, but nothing in sight will delete it. */
  ghost predicate Leaked(s: State, x: Series) {
    x in s.metrics && !TrackedOrWriting(s, x)
  }

  lemma LeakedByWrite(s: State, e: Event, ttl: int, x: Series)
    requires Enabled(s, e) && Writes(e) && !Touches(e, x) && Held(x.vec) && Leaked(s, x)
    requires Splittable(x) && Splittable(e.series)
    ensures Leaked(Apply(s, e, ttl), x)
  {
    SameLabels(x, e.series);
  }

  lemma LeakedByClean(s: State, e: Event, ttl: int, xs: iset<Series>, x: Series)
    requires Enabled(s, e) && Origin(s, xs) && !Writes(e) && Held(x.vec) && Leaked(s, x)
    ensures Leaked(Apply(s, e, ttl), x)
  {
    match e
    case Callback(f, key) =>
      assert EntryFrom(xs, f, key, Of(s, f).pending[key]);
    case Expire(f, now) =>
      var gone := C.Expired(Of(s, f).entries, now);
      forall q | q in gone ensures Victim(q, gone[q]) != x {
        assert EntryFrom(xs, f, q, Of(s, f).entries[q].value);
      }
    case _ =>
  }

  lemma LeakedStep(s: State, e: Event, ttl: int, xs: iset<Series>, x: Series)
    requires Enabled(s, e) && Origin(s, xs) && EventFrom(e, xs) && !Touches(e, x)
    requires forall y :: y in xs ==> Splittable(y)
    requires x in xs && Held(x.vec) && Leaked(s, x)
    ensures Leaked(Apply(s, e, ttl), x)
  {
    if Writes(e) {
      LeakedByWrite(s, e, ttl, x);
    } else {
      LeakedByClean(s, e, ttl, xs, x);
    }
  }

  lemma SameLabels(x: Series, y: Series)
    requires Splittable(x) && Splittable(y)
    ensures JoinKey(x.labels) == JoinKey(y.labels) ==> x.labels == y.labels
  {
    if JoinKey(x.labels) == JoinKey(y.labels) {
      JoinInjective(x.labels, y.labels);
    }
  }

  /** A leaked series is never deleted: it stays exported until it is itself dotted again. */
  lemma {:induction false} LeakedStays(ss: seq<State>, es: seq<Event>, ttl: int, m: nat, n: nat,
                                       xs: iset<Series>, x: Series)
    requires Behavior(ss, es, ttl) && m <= n <= |es| && DotsFrom(es, xs)
    requires x in xs && Held(x.vec) && Leaked(ss[m], x) && forall j :: m <= j < n ==> !Touches(es[j], x)
    ensures Leaked(ss[n], x)
    decreases n
  {
    if m < n {
      LeakedStays(ss, es, ttl, m, n - 1, xs, x);
      RunOrigin(ss, es, ttl, n - 1, xs);
      assert StepAt(ss, es, ttl, n - 1);
      LeakedStep(ss[n - 1], es[n - 1], ttl, xs, x);
    }
  }

  /** In every continuation over separator-free labels that does not dot the series again it is exported. */
  ghost predicate ExportedForGood(ss: seq<State>, es: seq<Event>, ttl: int, x: Series) {
    forall ss': seq<State>, es': seq<Event> ::
      Behavior(ss', es', ttl) && ss <= ss' && es <= es' && DotsFrom(es', iset y: Series | Splittable(y))
      && (forall j :: |es| <= j < |es'| ==> !Touches(es'[j], x))
      ==> x in ss'[|es'|].metrics
  }

  lemma LeakedForGood(ss: seq<State>, es: seq<Event>, ttl: int, x: Series)
    requires Behavior(ss, es, ttl) && Held(x.vec) && Splittable(x) && Leaked(ss[|es|], x)
    ensures ExportedForGood(ss, es, ttl, x)
  {
    var xs := iset y: Series | Splittable(y);
    forall ss': seq<State>, es': seq<Event>
      | Behavior(ss', es', ttl) && ss <= ss' && es <= es' && DotsFrom(es', xs)
        && (forall j :: |es| <= j < |es'| ==> !Touches(es'[j], x))
      ensures x in ss'[|es'|].metrics
    {
      LeakedStays(ss', es', ttl, |es|, |es'|, xs, x);
    }
  }

  ghost predicate AlwaysTracked(xs: iset<Series>, ttl: int) {
    forall ss, es :: Behavior(ss, es, ttl) && DotsFrom(es, xs) ==> AllTracked(ss[|es|], xs)
  }

  /** Two series sharing a key: once both were dotted, nothing will ever delete the first. */
  lemma CollisionLeaks(x: Series, y: Series, ttl: int) returns (ss: seq<State>, es: seq<Event>)
    requires Held(x.vec) && Held(y.vec) && Splittable(x) && Splittable(y) && SameKey(x, y) && x != y
    ensures Behavior(ss, es, ttl) && |es| == 2 && es[0] == Dot(x, 0.0, 0) && es[1] == Dot(y, 0.0, 0)
    ensures Leaked(ss[2], x) && ExportedForGood(ss, es, ttl, x)
  {
    JoinInjective(x.labels, y.labels);
    es := [Dot(x, 0.0, 0), Dot(y, 0.0, 0)];
    var s1 := Apply(INIT, es[0], ttl);
    ss := [INIT, s1, Apply(s1, es[1], ttl)];
    assert StepAt(ss, es, ttl, 0) && StepAt(ss, es, ttl, 1);
    LeakedForGood(ss, es, ttl, x);
  }

  /** Exactly when: all runs over a set of series keep every exported series tracked if and only
      if no two held series of the set share a hold key. */
  lemma TrackedIffKeysDistinct(xs: iset<Series>, ttl: int)
    requires forall x :: x in xs ==> Splittable(x)
    ensures AlwaysTracked(xs, ttl) <==> KeysDistinct(xs)
  {
    if KeysDistinct(xs) {
      forall ss, es | Behavior(ss, es, ttl) && DotsFrom(es, xs) ensures AllTracked(ss[|es|], xs) {
        ExportedAreTracked(ss, es, ttl, |es|, xs);
      }
    } else {
      var x, y :| x in xs && y in xs && Held(x.vec) && Held(y.vec) && SameKey(x, y) && x != y;
      var ss, es := CollisionLeaks(x, y, ttl);
      assert !AllTracked(ss[|es|], xs);
      assert DotsFrom(es, xs);
    }
  }

  // ----- the label layouts -----

  /** A label tuple as the dot functions build it, under the naming rules that keep keys apart:
      no region is named like a phase, and no failure reason like a TLS version. */
  ghost predicate WellNamed(x: Series, stages: set<Str>, versions: set<Str>) {
    && AllSepFree(x.labels)
    && match x.vec
       case IcmpFailed => |x.labels| == 2
       case IcmpDuration => |x.labels| == 3
       case StatusCode => |x.labels| == 3
       case HttpFailed => |x.labels| == 4 && x.labels[0] !in stages && x.labels[3] !in versions
       case SslExpiry => |x.labels| == 4 && x.labels[0] !in stages && x.labels[3] in versions
       case HttpDuration => |x.labels| == 4 && x.labels[0] in stages
       case _ => |x.labels| == 2
  }

  /** Under the naming rules distinct held series always get distinct keys. The icmp layouts
      need no rule: they differ in length. */
  lemma NamingKeepsKeysDistinct(stages: set<Str>, versions: set<Str>)
    ensures KeysDistinct(iset x: Series | WellNamed(x, stages, versions))
  {
    forall x: Series, y: Series | WellNamed(x, stages, versions) && WellNamed(y, stages, versions)
        && Held(x.vec) && Held(y.vec) && SameKey(x, y)
      ensures x == y
    {
      JoinInjective(x.labels, y.labels);
    }
  }

  /** Without the rules series do leak. Let a source region be named like a phase and an http target
      be called "success": the failure count of some target under the reason "success" then shares its
      key with that phase of the target "success", and stays exported for ever. */
  lemma RegionNamedLikePhaseLeaks(stage: Str, a: Str, b: Str, ttl: int)
    returns (ss: seq<State>, es: seq<Event>)
    requires AllSepFree([stage, a, b, G.SUCCESS])
    ensures Behavior(ss, es, ttl)
    ensures var x := Series(HttpFailed, [stage, a, b, G.SUCCESS]);
      Leaked(ss[|es|], x) && ExportedForGood(ss, es, ttl, x)
  {
    ss, es := CollisionLeaks(Series(HttpFailed, [stage, a, b, G.SUCCESS]),
                             Series(HttpDuration, [stage, a, b, G.SUCCESS]), ttl);
  }
}
