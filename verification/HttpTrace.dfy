/**
 HTTP probe timing: the trace callbacks of pkg/agent/http.go and the loop of
 pkg/agent/http_response.go that turns their timestamps into phases, over redirects.

 Times are nanoseconds on one clock; 0 is Go's zero time.
 */
module HttpTrace {
  import opened Common

  datatype Trace = Trace(
    tls: bool, start: int, dnsDone: int, connectDone: int, gotConn: int,
    responseStart: int, end: int, tlsStart: int, tlsDone: int)

  datatype Kind =
    | RoundTrip(https: bool)
    | DnsStart | DnsDone | ConnectStart | ConnectDone | TlsStart | TlsDone
    | GotConn | FirstByte
    | BodyRead                 // the end timestamp, once the body is fully read

  datatype Event = Event(kind: Kind, at: int)

  function NewTrace(https: bool): Trace {
    Trace(https, 0, 0, 0, 0, 0, 0, 0, 0)
  }

  /** The field a callback stamps. */
  function Stamp(t: Trace, kind: Kind, now: int): Trace {
    match kind
    case RoundTrip(_) => t
    case DnsStart => t.(start := now)
    case DnsDone => t.(dnsDone := now)
    case ConnectStart => if t.dnsDone == 0 then t.(start := now, dnsDone := now) else t
    case ConnectDone => t.(connectDone := now)
    case TlsStart => t.(tlsStart := now)
    case TlsDone => t.(tlsDone := now)
    case GotConn => t.(gotConn := now)
    case FirstByte => t.(responseStart := now)
    case BodyRead => t.(end := now)
  }

  function ApplyTo(ts: seq<Trace>, e: Event): seq<Trace>
    requires !e.kind.RoundTrip? ==> ts != []
  {
    if e.kind.RoundTrip? then ts + [NewTrace(e.kind.https)]
    else ts[|ts| - 1 := Stamp(ts[|ts| - 1], e.kind, e.at)]
  }

  // ----- the callbacks on their shared objects -----

  class RoundTripTrace {
    var tls: bool
    var start: int
    var dnsDone: int
    var connectDone: int
    var gotConn: int
    var responseStart: int
    var end: int
    var tlsStart: int
    var tlsDone: int

    constructor (tls: bool)
      ensures Value() == NewTrace(tls)
    {
      this.tls := tls;
      start, dnsDone, connectDone, gotConn, responseStart, end, tlsStart, tlsDone := 0, 0, 0, 0, 0, 0, 0, 0;
    }

    ghost function Value(): Trace
      reads this
    {
      Trace(tls, start, dnsDone, connectDone, gotConn, responseStart, end, tlsStart, tlsDone)
    }
  }

  class Transport {
    var traces: seq<RoundTripTrace>

    /** No two roundtrips share a trace; the current one is the last. */
    ghost predicate Valid()
      reads this
    {
      forall i, j :: 0 <= i < j < |traces| ==> traces[i] != traces[j]
    }

    ghost function View(): (ts: seq<Trace>)
      reads this, traces
      ensures |ts| == |traces| && forall i :: 0 <= i < |ts| ==> ts[i] == traces[i].Value()
    {
      seq(|traces|, i requires 0 <= i < |traces| reads this, traces => traces[i].Value())
    }

    constructor ()
      ensures Valid() && View() == []
    {
      traces := [];
    }

    /** `RoundTrip` starts a new current trace. */
    method StartRoundTrip(https: bool, now: int)
      requires Valid()
      modifies this
      ensures Valid() && View() == ApplyTo(old(View()), Event(RoundTrip(https), now))
      ensures fresh(traces[|traces| - 1])
    {
      var trace := new RoundTripTrace(https);
      traces := traces + [trace];
    }

    /** The httptrace callbacks, and the end stamp of `probeHTTP`: each writes the current trace
        only, whatever earlier roundtrips recorded. */
    method Callback(kind: Kind, now: int)
      requires Valid() && traces != [] && !kind.RoundTrip?
      modifies traces[|traces| - 1]
      ensures Valid() && View() == ApplyTo(old(View()), Event(kind, now))
    {
      var current := traces[|traces| - 1];
      match kind {
        case DnsStart => current.start := now;
        case DnsDone => current.dnsDone := now;
        case ConnectStart =>
          if current.dnsDone == 0 {
            current.start := now;
            current.dnsDone := current.start;
          }
        case ConnectDone => current.connectDone := now;
        case TlsStart => current.tlsStart := now;
        case TlsDone => current.tlsDone := now;
        case GotConn => current.gotConn := now;
        case FirstByte => current.responseStart := now;
        case BodyRead => current.end := now;
      }
    }
  }

  // ----- from timestamps to phases -----

  function Connect(t: Trace): Option<int> {
    if t.gotConn == 0 then None
    else if t.tls then Some(t.connectDone - t.dnsDone)
    else Some(t.gotConn - t.dnsDone)
  }

  function TlsTime(t: Trace): Option<int> {
    if t.gotConn == 0 || !t.tls then None else Some(t.tlsDone - t.tlsStart)
  }

  function Processing(t: Trace): Option<int> {
    if t.gotConn == 0 || t.responseStart == 0 then None else Some(t.responseStart - t.gotConn)
  }

  function Transfer(t: Trace): Option<int> {
    if t.gotConn == 0 || t.responseStart == 0 || t.end == 0 then None else Some(t.end - t.responseStart)
  }

  datatype Phase = ConnectPhase | TlsPhase | ProcessingPhase | TransferPhase

  function Contribution(t: Trace, p: Phase): Option<int> {
    match p
    case ConnectPhase => Connect(t)
    case TlsPhase => TlsTime(t)
    case ProcessingPhase => Processing(t)
    case TransferPhase => Transfer(t)
  }

  /** The last roundtrip that contributes to a phase decides it. */
  function Reported(ts: seq<Trace>, p: Phase): Option<int> {
    if ts == [] then None
    else if Contribution(ts[|ts| - 1], p).Some? then Contribution(ts[|ts| - 1], p)
    else Reported(ts[..|ts| - 1], p)
  }

  /** Some roundtrip got a TLS connection. */
  ghost predicate SomeTls(ts: seq<Trace>) {
    exists i :: 0 <= i < |ts| && ts[i].tls && ts[i].gotConn != 0
  }

  /** Reading the TLS version and certificates dereferences the TLS state of the final response,
      which is absent after a plain final roundtrip. */
  ghost predicate LoopFails(ts: seq<Trace>, finalTls: bool) {
    !finalTls && SomeTls(ts)
  }

  /** The loop over the traces; a failure, as `None`, ends it. */
  method ReportPhases(ts: seq<Trace>, finalTls: bool, lookup: int)
    returns (fields: Option<map<Phase, int>>, resolve: int)
    ensures fields.None? <==> LoopFails(ts, finalTls)
    ensures fields.Some? ==> forall p :: p in fields.value <==> Reported(ts, p).Some?
    ensures fields.Some? ==> forall p :: p in fields.value ==> Reported(ts, p) == Some(fields.value[p])
    ensures fields.Some? ==> resolve == if |ts| <= 1 then lookup else ts[|ts| - 1].dnsDone - ts[|ts| - 1].start
  {
    var m: map<Phase, int> := map[];
    resolve := lookup;
    for i := 0 to |ts|
      invariant finalTls || !SomeTls(ts[..i])
      invariant forall p :: p in m <==> Reported(ts[..i], p).Some?
      invariant forall p :: p in m ==> Reported(ts[..i], p) == Some(m[p])
      invariant resolve == if i <= 1 then lookup else ts[i - 1].dnsDone - ts[i - 1].start
    {
      var trace := ts[i];
      assert ts[..i + 1][..i] == ts[..i];
      if i != 0 {
        resolve := trace.dnsDone - trace.start;
      }
      if trace.gotConn == 0 {
        continue;
      }
      if trace.tls {
        m := m[ConnectPhase := trace.connectDone - trace.dnsDone];
        m := m[TlsPhase := trace.tlsDone - trace.tlsStart];
        if !finalTls {
          return None, resolve;
        }
      } else {
        m := m[ConnectPhase := trace.gotConn - trace.dnsDone];
      }
      if trace.responseStart == 0 {
        continue;
      }
      m := m[ProcessingPhase := trace.responseStart - trace.gotConn];
      if trace.end == 0 {
        continue;
      }
      m := m[TransferPhase := trace.end - trace.responseStart];
    }
    assert ts[..|ts|] == ts;
    fields := Some(m);
  }

  // ----- runs -----

  /** How far the current roundtrip has come. */
  datatype Progress =
    | Started | Resolving | Resolved | Connecting | Connected | Handshaking | Secured
    | HasConn | Responded | Finished

  datatype State = State(traces: seq<Trace>, progress: Progress, now: int)

  const INIT := State([], Started, 0)

  /** The order in which the HTTP client reports one roundtrip; dialling may be repeated. */
  function Next(pr: Progress, kind: Kind, tls: bool): Option<Progress> {
    match kind
    case RoundTrip(_) => if pr.Responded? then Some(Started) else None
    case DnsStart => if pr.Started? then Some(Resolving) else None
    case DnsDone => if pr.Resolving? then Some(Resolved) else None
    case ConnectStart =>
      if pr.Started? || pr.Resolved? || pr.Connecting? || pr.Connected? then Some(Connecting) else None
    case ConnectDone => if pr.Connecting? then Some(Connected) else None
    case TlsStart => if pr.Connected? && tls then Some(Handshaking) else None
    case TlsDone => if pr.Handshaking? then Some(Secured) else None
    case GotConn => if pr.Secured? || (pr.Connected? && !tls) then Some(HasConn) else None
    case FirstByte => if pr.HasConn? then Some(Responded) else None
    case BodyRead => if pr.Responded? then Some(Finished) else None
  }

  /** `CheckRedirect`: `via` requests have been made. */
  predicate FollowsRedirect(via: nat, follow: bool) {
    !(via > 10 || !follow)
  }

  predicate Enabled(s: State, e: Event, follow: bool) {
    && e.at >= s.now && e.at > 0
    && if s.traces == [] then e.kind.RoundTrip?
       else
         && Next(s.progress, e.kind, s.traces[|s.traces| - 1].tls).Some?
         && (e.kind.RoundTrip? ==> FollowsRedirect(|s.traces|, follow))
  }

  function Apply(s: State, e: Event, follow: bool): State
    requires Enabled(s, e, follow)
  {
    State(ApplyTo(s.traces, e),
          if s.traces == [] then Started else Next(s.progress, e.kind, s.traces[|s.traces| - 1].tls).value,
          e.at)
  }

  ghost predicate StepAt(ss: seq<State>, es: seq<Event>, follow: bool, i: int)
    requires |ss| == |es| + 1 && 0 <= i < |es|
  {
    Enabled(ss[i], es[i], follow) && ss[i + 1] == Apply(ss[i], es[i], follow)
  }

  /** `ss` is the run over the events `es` under a clock that never runs backwards. */
  ghost predicate Behavior(ss: seq<State>, es: seq<Event>, follow: bool) {
    && |ss| == |es| + 1
    && ss[0] == INIT
    && forall i :: 0 <= i < |es| ==> StepAt(ss, es, follow, i)
  }

  /** What the stamps of a roundtrip look like at each point of its progress. */
  ghost predicate Consistent(t: Trace, pr: Progress, now: int) {
    var named := 0 < t.start <= t.dnsDone <= now;
    var dialled := named && t.dnsDone <= t.connectDone <= now;
    var secured := dialled && t.tls && t.connectDone <= t.tlsStart <= t.tlsDone <= now;
    var ready := dialled && t.gotConn <= now
      && (if t.tls then secured && t.tlsDone <= t.gotConn else t.connectDone <= t.gotConn);
    match pr
    case Started => t == NewTrace(t.tls)
    case Resolving => t == NewTrace(t.tls).(start := t.start) && 0 < t.start <= now
    case Resolved => t == NewTrace(t.tls).(start := t.start, dnsDone := t.dnsDone) && named
    case Connecting => named && (t.connectDone == 0 || dialled) && t.gotConn == t.responseStart == t.end == 0
    case Connected => dialled && t.gotConn == t.responseStart == t.end == 0
    case Handshaking =>
      dialled && t.tls && t.connectDone <= t.tlsStart <= now && t.gotConn == t.responseStart == t.end == 0
    case Secured => secured && t.gotConn == t.responseStart == t.end == 0
    case HasConn => ready && t.responseStart == t.end == 0
    case Responded => ready && t.gotConn <= t.responseStart <= now && t.end == 0
    case Finished => ready && t.gotConn <= t.responseStart <= t.end <= now
  }

  ghost predicate Sound(s: State, follow: bool) {
    && 0 <= s.now
    && |s.traces| <= 11 && (!follow ==> |s.traces| <= 1)
    && (forall i :: 0 <= i < |s.traces| - 1 ==> Consistent(s.traces[i], Responded, s.now))
    && (s.traces != [] ==> Consistent(s.traces[|s.traces| - 1], s.progress, s.now))
  }

  lemma NameStamp(t: Trace, pr: Progress, now: int, e: Event)
    requires Consistent(t, pr, now) && now <= e.at && e.at > 0
    requires (e.kind.DnsStart? || e.kind.DnsDone?) && Next(pr, e.kind, t.tls).Some?
    ensures Consistent(Stamp(t, e.kind, e.at), Next(pr, e.kind, t.tls).value, e.at)
  {
  }

  lemma ConnectStamp(t: Trace, pr: Progress, now: int, e: Event)
    requires Consistent(t, pr, now) && now <= e.at && e.at > 0
    requires (e.kind.ConnectStart? || e.kind.ConnectDone?) && Next(pr, e.kind, t.tls).Some?
    ensures Consistent(Stamp(t, e.kind, e.at), Next(pr, e.kind, t.tls).value, e.at)
  {
  }

  lemma TlsStamp(t: Trace, pr: Progress, now: int, e: Event)
    requires Consistent(t, pr, now) && now <= e.at && e.at > 0
    requires (e.kind.TlsStart? || e.kind.TlsDone?) && Next(pr, e.kind, t.tls).Some?
    ensures Consistent(Stamp(t, e.kind, e.at), Next(pr, e.kind, t.tls).value, e.at)
  {
  }

  lemma ConnectionStamp(t: Trace, pr: Progress, now: int, e: Event)
    requires Consistent(t, pr, now) && now <= e.at && e.at > 0
    requires (e.kind.GotConn?) && Next(pr, e.kind, t.tls).Some?
    ensures Consistent(Stamp(t, e.kind, e.at), Next(pr, e.kind, t.tls).value, e.at)
  {
  }

  lemma ResponseStamp(t: Trace, pr: Progress, now: int, e: Event)
    requires Consistent(t, pr, now) && now <= e.at && e.at > 0
    requires (e.kind.FirstByte? || e.kind.BodyRead?) && Next(pr, e.kind, t.tls).Some?
    ensures Consistent(Stamp(t, e.kind, e.at), Next(pr, e.kind, t.tls).value, e.at)
  {
  }

  lemma StampConsistent(t: Trace, pr: Progress, now: int, e: Event)
    requires Consistent(t, pr, now) && now <= e.at && e.at > 0
    requires !e.kind.RoundTrip? && Next(pr, e.kind, t.tls).Some?
    ensures Consistent(Stamp(t, e.kind, e.at), Next(pr, e.kind, t.tls).value, e.at)
    ensures Stamp(t, e.kind, e.at).tls == t.tls
  {
    match e.kind
    case DnsStart => NameStamp(t, pr, now, e);
    case DnsDone => NameStamp(t, pr, now, e);
    case ConnectStart => ConnectStamp(t, pr, now, e);
    case ConnectDone => ConnectStamp(t, pr, now, e);
    case TlsStart => TlsStamp(t, pr, now, e);
    case TlsDone => TlsStamp(t, pr, now, e);
    case GotConn => ConnectionStamp(t, pr, now, e);
    case _ => ResponseStamp(t, pr, now, e);
  }

  lemma SoundStep(s: State, e: Event, follow: bool)
    requires Enabled(s, e, follow) && Sound(s, follow)
    ensures Sound(Apply(s, e, follow), follow)
  {
    forall i | 0 <= i < |s.traces| - 1 ensures Consistent(s.traces[i], Responded, e.at) {
      assert Consistent(s.traces[i], Responded, s.now);
    }
    if s.traces != [] && !e.kind.RoundTrip? {
      StampConsistent(s.traces[|s.traces| - 1], s.progress, s.now, e);
    }
  }

  /** Every run follows at most ten redirects, none when told not to, and every roundtrip that led
      to another one is complete up to its response. */
  lemma {:induction false} RunsAreSound(ss: seq<State>, es: seq<Event>, follow: bool, n: nat)
    requires Behavior(ss, es, follow) && n <= |es|
    ensures Sound(ss[n], follow)
  {
    if n > 0 {
      RunsAreSound(ss, es, follow, n - 1);
      assert StepAt(ss, es, follow, n - 1);
      SoundStep(ss[n - 1], es[n - 1], follow);
    }
  }

  /** After a finished run the final response has a TLS state exactly if the last roundtrip was https.
      The loop then fails if and only if the last roundtrip was plain and an earlier one was https. */
  lemma FailsExactlyOnDowngrade(ss: seq<State>, es: seq<Event>, follow: bool, n: nat)
    requires Behavior(ss, es, follow) && n <= |es| && ss[n].traces != [] && ss[n].progress.Finished?
    ensures var ts := ss[n].traces; var last := ts[|ts| - 1];
      LoopFails(ts, last.tls) <==> !last.tls && exists i :: 0 <= i < |ts| - 1 && ts[i].tls
  {
    RunsAreSound(ss, es, follow, n);
    var ts := ss[n].traces;
    forall i | 0 <= i < |ts| ensures ts[i].gotConn != 0 {
      assert i < |ts| - 1 ==> Consistent(ts[i], Responded, ss[n].now);
    }
  }

  function OrZero(o: Option<int>): int {
    match o case None => 0 case Some(v) => v
  }

  /** The phases of a finished run telescope: unless the loop fails, connect, tls, processing and
      transfer are the last roundtrip's own, none is negative, and together they take at most the
      last roundtrip's time; over plain HTTP exactly the time since its name was resolved. */
  lemma PhasesTelescope(ss: seq<State>, es: seq<Event>, follow: bool, n: nat)
    requires Behavior(ss, es, follow) && n <= |es| && ss[n].traces != [] && ss[n].progress.Finished?
    requires var ts := ss[n].traces; !LoopFails(ts, ts[|ts| - 1].tls)
    ensures var ts := ss[n].traces; var t := ts[|ts| - 1];
      && (forall p :: Reported(ts, p) == Contribution(t, p))
      && Reported(ts, ConnectPhase).Some? && Reported(ts, ProcessingPhase).Some? && Reported(ts, TransferPhase).Some?
      && (Reported(ts, TlsPhase).Some? <==> t.tls)
      && (forall p :: OrZero(Reported(ts, p)) >= 0)
      && var sum := OrZero(Reported(ts, ConnectPhase)) + OrZero(Reported(ts, TlsPhase))
           + OrZero(Reported(ts, ProcessingPhase)) + OrZero(Reported(ts, TransferPhase));
         sum <= t.end - t.start && (!t.tls ==> sum == t.end - t.dnsDone)
  {
    RunsAreSound(ss, es, follow, n);
    var ts := ss[n].traces;
    var t := ts[|ts| - 1];
    if !t.tls {
      NoTlsReported(ts);
    }
    forall p ensures Reported(ts, p) == Contribution(t, p) {
      match p
      case TlsPhase =>
      case _ => assert Contribution(t, p).Some?;
    }
  }

  lemma {:induction false} NoTlsReported(ts: seq<Trace>)
    requires !SomeTls(ts)
    ensures Reported(ts, TlsPhase) == None
  {
    if ts != [] {
      var before := ts[..|ts| - 1];
      assert forall i :: 0 <= i < |before| ==> before[i] == ts[i];
      NoTlsReported(before);
    }
  }

  /** A run can be continued by any enabled event. */
  lemma Extend(ss: seq<State>, es: seq<Event>, follow: bool, kind: Kind) returns (ss': seq<State>, es': seq<Event>)
    requires Behavior(ss, es, follow) && Enabled(ss[|es|], Event(kind, ss[|es|].now + 1), follow)
    ensures Behavior(ss', es', follow)
    ensures ss'[|es'|] == Apply(ss[|es|], Event(kind, ss[|es|].now + 1), follow)
  {
    var e := Event(kind, ss[|es|].now + 1);
    ss', es' := ss + [Apply(ss[|es|], e, follow)], es + [e];
    forall i | 0 <= i < |es'| ensures StepAt(ss', es', follow, i) {
      assert i < |es| ==> StepAt(ss, es, follow, i);
    }
  }

  /** From a response, or from the start, one more roundtrip can run up to its own response. */
  lemma CompleteRoundTrip(ss: seq<State>, es: seq<Event>, https: bool) returns (ss': seq<State>, es': seq<Event>)
    requires Behavior(ss, es, true) && ss[|es|].now >= 0
    requires ss[|es|].traces == [] || (ss[|es|].progress.Responded? && |ss[|es|].traces| <= 10)
    ensures Behavior(ss', es', true) && ss'[|es'|].now >= 0 && ss'[|es'|].progress.Responded?
    ensures |ss'[|es'|].traces| == |ss[|es|].traces| + 1
    ensures ss'[|es'|].traces[..|ss[|es|].traces|] == ss[|es|].traces
    ensures ss'[|es'|].traces[|ss[|es|].traces|].tls == https && ss'[|es'|].traces[|ss[|es|].traces|].gotConn > 0
  {
    ss', es' := Extend(ss, es, true, RoundTrip(https));
    ss', es' := Extend(ss', es', true, ConnectStart);
    ss', es' := Extend(ss', es', true, ConnectDone);
    if https {
      ss', es' := Extend(ss', es', true, TlsStart);
      ss', es' := Extend(ss', es', true, TlsDone);
    }
    ss', es' := Extend(ss', es', true, GotConn);
    ss', es' := Extend(ss', es', true, FirstByte);
  }

  /** The failing run exists: https answers with a redirect to http, which completes. */
  lemma DowngradeRun() returns (ss: seq<State>, es: seq<Event>)
    ensures Behavior(ss, es, true) && ss[|es|].progress.Finished? && |ss[|es|].traces| == 2
    ensures LoopFails(ss[|es|].traces, ss[|es|].traces[1].tls)
  {
    assert Behavior([INIT], [], true);
    ss, es := CompleteRoundTrip([INIT], [], true);
    var t := ss[|es|].traces[0];
    ss, es := CompleteRoundTrip(ss, es, false);
    assert ss[|es|].traces[..1][0] == t;
    ss, es := Extend(ss, es, true, BodyRead);
    assert ss[|es|].traces[0] == t;
  }

  // ----- the phases by the events of the last roundtrip -----

  /** The time of the last event of a kind among those after `b` and before `n`, or 0. */
  function LastTime(es: seq<Event>, b: nat, n: nat, kind: Kind): int
    requires n <= |es|
  {
    if n <= b + 1 then 0
    else if es[n - 1].kind == kind then es[n - 1].at
    else LastTime(es, b, n - 1, kind)
  }

  /** The time of the first one, or 0. */
  function FirstTime(es: seq<Event>, b: nat, n: nat, kind: Kind): int
    requires n <= |es|
  {
    if n <= b + 1 then 0
    else if FirstTime(es, b, n - 1, kind) != 0 then FirstTime(es, b, n - 1, kind)
    else if es[n - 1].kind == kind then es[n - 1].at
    else 0
  }

  ghost predicate LastAt(es: seq<Event>, b: nat, n: nat, kind: Kind, i: int) {
    b < i < n <= |es| && es[i].kind == kind && forall j :: i < j < n ==> es[j].kind != kind
  }

  ghost predicate FirstAt(es: seq<Event>, b: nat, n: nat, kind: Kind, i: int) {
    b < i < n <= |es| && es[i].kind == kind && forall j :: b < j < i ==> es[j].kind != kind
  }

  /** Event `b` starts the last roundtrip before `n`. */
  ghost predicate LastRoundTrip(es: seq<Event>, b: int, n: int) {
    0 <= b < n <= |es| && es[b].kind.RoundTrip? && forall j :: b < j < n ==> !es[j].kind.RoundTrip?
  }

  lemma {:induction false} LastTimeIsLast(es: seq<Event>, b: nat, n: nat, kind: Kind)
    requires n <= |es| && forall j :: 0 <= j < |es| ==> es[j].at > 0
    ensures forall i :: LastAt(es, b, n, kind, i) ==> LastTime(es, b, n, kind) == es[i].at
    ensures LastTime(es, b, n, kind) != 0 ==> exists i :: LastAt(es, b, n, kind, i)
    ensures LastTime(es, b, n, kind) == 0 ==> forall j :: b < j < n ==> es[j].kind != kind
  {
    if n > b + 1 {
      LastTimeIsLast(es, b, n - 1, kind);
      if es[n - 1].kind == kind {
        assert LastAt(es, b, n, kind, n - 1);
      } else {
        forall i ensures LastAt(es, b, n, kind, i) <==> LastAt(es, b, n - 1, kind, i) {
        }
        if LastTime(es, b, n, kind) != 0 {
          var i :| LastAt(es, b, n - 1, kind, i);
          assert LastAt(es, b, n, kind, i);
        }
      }
    }
  }

  lemma {:induction false} FirstTimeIsFirst(es: seq<Event>, b: nat, n: nat, kind: Kind)
    requires n <= |es| && forall j :: 0 <= j < |es| ==> es[j].at > 0
    ensures forall i :: FirstAt(es, b, n, kind, i) ==> FirstTime(es, b, n, kind) == es[i].at
    ensures FirstTime(es, b, n, kind) != 0 ==> exists i :: FirstAt(es, b, n, kind, i)
    ensures FirstTime(es, b, n, kind) == 0 ==> forall j :: b < j < n ==> es[j].kind != kind
  {
    if n > b + 1 {
      FirstTimeIsFirst(es, b, n - 1, kind);
      forall i | FirstAt(es, b, n - 1, kind, i) ensures FirstAt(es, b, n, kind, i) {
      }
      forall i | FirstAt(es, b, n, kind, i) ensures FirstAt(es, b, n - 1, kind, i) || i == n - 1 {
      }
      if FirstTime(es, b, n - 1, kind) != 0 {
        var i :| FirstAt(es, b, n - 1, kind, i);
        assert FirstAt(es, b, n, kind, i);
      } else if es[n - 1].kind == kind {
        assert FirstAt(es, b, n, kind, n - 1);
      }
    }
  }

  /** The time the name was resolved: when the lookup was done, or, without a lookup, when connecting began. */
  function ResolvedTime(es: seq<Event>, b: nat, n: nat): int
    requires n <= |es|
  {
    if LastTime(es, b, n, DnsDone) != 0 then LastTime(es, b, n, DnsDone) else FirstTime(es, b, n, ConnectStart)
  }

  /** The current trace holds the times of the events since `b`. */
  ghost predicate Stamped(t: Trace, es: seq<Event>, b: nat, n: nat)
    requires n <= |es|
  {
    && t.connectDone == LastTime(es, b, n, ConnectDone) && t.gotConn == LastTime(es, b, n, GotConn)
    && t.tlsStart == LastTime(es, b, n, TlsStart) && t.tlsDone == LastTime(es, b, n, TlsDone)
    && t.responseStart == LastTime(es, b, n, FirstByte) && t.end == LastTime(es, b, n, BodyRead)
    && t.dnsDone == ResolvedTime(es, b, n)
  }

  lemma {:induction false} StampedStep(t: Trace, es: seq<Event>, b: nat, n: nat)
    requires b < n < |es| && Stamped(t, es, b, n) && !es[n].kind.RoundTrip? && es[n].at > 0
    ensures Stamped(Stamp(t, es[n].kind, es[n].at), es, b, n + 1)
  {
  }

  lemma {:induction false} AllTimesPositive(ss: seq<State>, es: seq<Event>, follow: bool)
    requires Behavior(ss, es, follow)
    ensures forall j :: 0 <= j < |es| ==> es[j].at > 0
  {
    forall j | 0 <= j < |es| ensures es[j].at > 0 {
      assert StepAt(ss, es, follow, j);
    }
  }

  lemma {:induction false} TraceIsStamped(ss: seq<State>, es: seq<Event>, follow: bool, b: nat, n: nat)
    requires Behavior(ss, es, follow) && LastRoundTrip(es, b, n)
    ensures ss[n].traces != [] && Stamped(ss[n].traces[|ss[n].traces| - 1], es, b, n)
    ensures ss[n].traces[|ss[n].traces| - 1].tls == es[b].kind.https
    decreases n
  {
    assert StepAt(ss, es, follow, n - 1);
    if n > b + 1 {
      TraceIsStamped(ss, es, follow, b, n - 1);
      StampedStep(ss[n - 1].traces[|ss[n - 1].traces| - 1], es, b, n - 1);
    }
  }

  /** A finished run's last roundtrip made its events: the connection, the response and its end, and for
      https the handshake. */
  lemma {:induction false} LastRoundTripComplete(ss: seq<State>, es: seq<Event>, follow: bool, b: nat, n: nat)
    requires Behavior(ss, es, follow) && LastRoundTrip(es, b, n) && ss[n].progress.Finished?
    ensures exists i :: LastAt(es, b, n, ConnectDone, i)
    ensures exists i :: LastAt(es, b, n, GotConn, i)
    ensures exists i :: LastAt(es, b, n, FirstByte, i)
    ensures exists i :: LastAt(es, b, n, BodyRead, i)
    ensures es[b].kind.https ==> exists i :: LastAt(es, b, n, TlsStart, i)
    ensures es[b].kind.https ==> exists i :: LastAt(es, b, n, TlsDone, i)
    ensures (exists i :: LastAt(es, b, n, DnsDone, i)) || exists i :: FirstAt(es, b, n, ConnectStart, i)
  {
    TraceIsStamped(ss, es, follow, b, n);
    RunsAreSound(ss, es, follow, n);
    AllTimesPositive(ss, es, follow);
    LastTimeIsLast(es, b, n, ConnectDone);
    LastTimeIsLast(es, b, n, GotConn);
    LastTimeIsLast(es, b, n, FirstByte);
    LastTimeIsLast(es, b, n, BodyRead);
    LastTimeIsLast(es, b, n, TlsStart);
    LastTimeIsLast(es, b, n, TlsDone);
    LastTimeIsLast(es, b, n, DnsDone);
    FirstTimeIsFirst(es, b, n, ConnectStart);
  }

  /** Event `i` resolved the name: the lookup's end or, without a lookup, the first attempt to connect. */
  ghost predicate ResolvedAt(es: seq<Event>, b: nat, n: nat, i: int) {
    || LastAt(es, b, n, DnsDone, i)
    || (FirstAt(es, b, n, ConnectStart, i) && forall j :: !LastAt(es, b, n, DnsDone, j))
  }

  lemma {:induction false} ResolvedIs(es: seq<Event>, b: nat, n: nat, i: int)
    requires n <= |es| && (forall j :: 0 <= j < |es| ==> es[j].at > 0) && ResolvedAt(es, b, n, i)
    ensures ResolvedTime(es, b, n) == es[i].at
  {
    LastTimeIsLast(es, b, n, DnsDone);
    FirstTimeIsFirst(es, b, n, ConnectStart);
  }

  /** By the events of the last roundtrip of a finished run: processing is the time from getting the
      connection, at event `g`, to the first byte, at `f`; transfer is the time from there to the body's
      end, at `e`. Over plain http, unless the loop fails, connect is the time from the name's
      resolution, at `q`, to getting the connection, and there is no tls phase. */
  lemma {:induction false} PlainPhasesByEvents(ss: seq<State>, es: seq<Event>, follow: bool, b: nat, n: nat,
                                               q: int, g: int, f: int, e: int)
    requires Behavior(ss, es, follow) && LastRoundTrip(es, b, n) && ss[n].progress.Finished? && !es[b].kind.https
    requires ResolvedAt(es, b, n, q) && LastAt(es, b, n, GotConn, g)
    requires LastAt(es, b, n, FirstByte, f) && LastAt(es, b, n, BodyRead, e)
    requires !LoopFails(ss[n].traces, false)
    ensures var ts := ss[n].traces;
      && Reported(ts, ConnectPhase) == Some(es[g].at - es[q].at) && Reported(ts, TlsPhase) == None
      && Reported(ts, ProcessingPhase) == Some(es[f].at - es[g].at)
      && Reported(ts, TransferPhase) == Some(es[e].at - es[f].at)
  {
    TraceIsStamped(ss, es, follow, b, n);
    PhasesTelescope(ss, es, follow, n);
    AllTimesPositive(ss, es, follow);
    ResolvedIs(es, b, n, q);
    LastTimeIsLast(es, b, n, GotConn);
    LastTimeIsLast(es, b, n, FirstByte);
    LastTimeIsLast(es, b, n, BodyRead);
  }

  /** The same over https: connect is the time from the name's resolution to the last connection made, at
      event `c`, and tls the time from the handshake's start, at `h`, to its end, at `k`. */
  lemma {:induction false} SecurePhasesByEvents(ss: seq<State>, es: seq<Event>, follow: bool, b: nat, n: nat,
                                                q: int, c: int, h: int, k: int, g: int, f: int, e: int)
    requires Behavior(ss, es, follow) && LastRoundTrip(es, b, n) && ss[n].progress.Finished? && es[b].kind.https
    requires ResolvedAt(es, b, n, q) && LastAt(es, b, n, ConnectDone, c)
    requires LastAt(es, b, n, TlsStart, h) && LastAt(es, b, n, TlsDone, k) && LastAt(es, b, n, GotConn, g)
    requires LastAt(es, b, n, FirstByte, f) && LastAt(es, b, n, BodyRead, e)
    ensures var ts := ss[n].traces;
      && Reported(ts, ConnectPhase) == Some(es[c].at - es[q].at) && Reported(ts, TlsPhase) == Some(es[k].at - es[h].at)
      && Reported(ts, ProcessingPhase) == Some(es[f].at - es[g].at)
      && Reported(ts, TransferPhase) == Some(es[e].at - es[f].at)
  {
    TraceIsStamped(ss, es, follow, b, n);
    PhasesTelescope(ss, es, follow, n);
    AllTimesPositive(ss, es, follow);
    ResolvedIs(es, b, n, q);
    LastTimeIsLast(es, b, n, ConnectDone);
    LastTimeIsLast(es, b, n, TlsStart);
    LastTimeIsLast(es, b, n, TlsDone);
    LastTimeIsLast(es, b, n, GotConn);
    LastTimeIsLast(es, b, n, FirstByte);
    LastTimeIsLast(es, b, n, BodyRead);
  }

  /** What the resolve field gets from a later roundtrip: the time of its lookup, or nothing without one. */
  lemma {:induction false} ResolveByEvents(ss: seq<State>, es: seq<Event>, follow: bool, b: nat, n: nat)
    requires Behavior(ss, es, follow) && LastRoundTrip(es, b, n) && ss[n].progress.Finished?
    ensures ss[n].traces != []
    ensures var t := ss[n].traces[|ss[n].traces| - 1];
      && (forall s, d :: LastAt(es, b, n, DnsStart, s) && LastAt(es, b, n, DnsDone, d) ==>
            t.dnsDone - t.start == es[d].at - es[s].at)
      && ((forall d :: !LastAt(es, b, n, DnsDone, d)) ==> t.dnsDone - t.start == 0)
  {
    StartIsStamped(ss, es, follow, b, n);
    TraceIsStamped(ss, es, follow, b, n);
    RunsAreSound(ss, es, follow, n);
    AllTimesPositive(ss, es, follow);
    LastTimeIsLast(es, b, n, DnsStart);
    LastTimeIsLast(es, b, n, DnsDone);
  }

  lemma {:induction false} StartIsStamped(ss: seq<State>, es: seq<Event>, follow: bool, b: nat, n: nat)
    requires Behavior(ss, es, follow) && LastRoundTrip(es, b, n)
    ensures ss[n].traces != []
    ensures var t, pr := ss[n].traces[|ss[n].traces| - 1], ss[n].progress;
      && (pr.Started? ==> t == NewTrace(t.tls))
      && (pr.Resolving? ==> t.dnsDone == 0)
      && (pr.Resolving? || LastTime(es, b, n, DnsDone) != 0 ==> t.start == LastTime(es, b, n, DnsStart))
      && (!pr.Started? && !pr.Resolving? && LastTime(es, b, n, DnsDone) == 0 ==> t.start == t.dnsDone != 0)
      && (!pr.Started? && !pr.Resolving? ==> t.dnsDone != 0)
    decreases n
  {
    assert StepAt(ss, es, follow, n - 1);
    if n > b + 1 {
      StartIsStamped(ss, es, follow, b, n - 1);
      TraceIsStamped(ss, es, follow, b, n - 1);
    }
  }

  /** Up to ten redirects are followed: there is a finished run of eleven roundtrips. */
  lemma {:induction false} TenRedirects(k: nat) returns (ss: seq<State>, es: seq<Event>)
    requires 1 <= k <= 11
    ensures Behavior(ss, es, true) && ss[|es|].now >= 0 && ss[|es|].progress.Responded? && |ss[|es|].traces| == k
  {
    if k == 1 {
      assert Behavior([INIT], [], true);
      ss, es := CompleteRoundTrip([INIT], [], false);
    } else {
      ss, es := TenRedirects(k - 1);
      ss, es := CompleteRoundTrip(ss, es, false);
    }
  }
}
