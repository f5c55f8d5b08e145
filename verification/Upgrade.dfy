/**
 Agent self-upgrade dispatch: pkg/upgrade/upgrade.go and the two upgrade calls of
 pkg/server/rpc.go.
 */
module Upgrade {
  import opened Common
  import opened Digits
  import opened Keys

  // ----- versions -----

  /** `strings.Compare(a, b) < 0`: character by character, a proper prefix being smaller. */
  predicate Less(a: string, b: string) {
    if b == [] then false
    else if a == [] then true
    else a[0] < b[0] || (a[0] == b[0] && Less(a[1..], b[1..]))
  }

  lemma {:induction false} LessIrreflexive(a: string)
    ensures !Less(a, a)
  {
    if a != [] {
      LessIrreflexive(a[1..]);
    }
  }

  lemma {:induction false} LessTransitive(a: string, b: string, c: string)
    requires Less(a, b) && Less(b, c)
    ensures Less(a, c)
  {
    if a != [] && a[0] == b[0] && b[0] == c[0] {
      LessTransitive(a[1..], b[1..], c[1..]);
    }
  }

  /** The version order is total: two different versions are ordered one way or the other. */
  lemma {:induction false} LessTotal(a: string, b: string)
    ensures a == b || Less(a, b) || Less(b, a)
  {
    if a != [] && b != [] && a[0] == b[0] {
      LessTotal(a[1..], b[1..]);
      assert a == [a[0]] + a[1..] && b == [b[0]] + b[1..];
    }
  }

  /** Versions a chain of upgrades goes through. */
  ghost predicate Chain(vs: seq<string>) {
    forall i :: 0 <= i < |vs| - 1 ==> Less(vs[i], vs[i + 1])
  }

  /** Along a chain of strictly upward upgrades no version ever comes back. */
  lemma {:induction false} ChainIncreases(vs: seq<string>, i: nat, j: nat)
    requires Chain(vs) && i < j < |vs|
    ensures Less(vs[i], vs[j]) && vs[i] != vs[j]
    decreases j
  {
    if j == i + 1 {
      assert Less(vs[i], vs[i + 1]);
    } else {
      ChainIncreases(vs, i, j - 1);
      assert Less(vs[j - 1], vs[j - 1 + 1]);
      LessTransitive(vs[i], vs[j - 1], vs[j]);
    }
    LessIrreflexive(vs[i]);
  }

  // ----- numeric versions -----

  /** Components joined by dots. */
  function Dotted(cs: seq<string>): string {
    if |cs| == 0 then [] else if |cs| == 1 then cs[0] else cs[0] + ['.'] + Dotted(cs[1..])
  }

  ghost predicate Numeric(cs: seq<string>) {
    forall i :: 0 <= i < |cs| ==> AllDigits(cs[i])
  }

  /** Component by component as numbers. */
  ghost predicate NumericLess(a: seq<string>, b: seq<string>)
    requires Numeric(a) && Numeric(b) && |a| == |b|
  {
    if a == [] then false
    else
      assert AllDigits(a[0]) && AllDigits(b[0]);
      Value(a[0]) < Value(b[0]) || (Value(a[0]) == Value(b[0]) && NumericLess(a[1..], b[1..]))
  }

  lemma {:induction false} LessConcat(p: string, q: string, x: string, y: string)
    requires |p| == |q|
    ensures Less(p + x, q + y) <==> Less(p, q) || (p == q && Less(x, y))
  {
    if p == [] {
      assert p + x == x && q + y == y;
    } else {
      LessConcat(p[1..], q[1..], x, y);
      assert (p + x)[1..] == p[1..] + x && (q + y)[1..] == q[1..] + y;
      assert p == [p[0]] + p[1..] && q == [q[0]] + q[1..];
    }
  }

  lemma {:induction false} LastDigits(p: string, q: string, c: char, d: char)
    requires AllDigits(p) && AllDigits(q) && IsDigit(c) && IsDigit(d)
    ensures Value(p + [c]) == 10 * Value(p) + (c as int - '0' as int)
    ensures Value(p + [c]) < Value(q + [d]) <==> Value(p) < Value(q) || (Value(p) == Value(q) && c < d)
    ensures Value(p + [c]) == Value(q + [d]) <==> Value(p) == Value(q) && c == d
  {
    assert (p + [c])[..|p|] == p && (q + [d])[..|q|] == q;
  }

  /** Numerals of equal width compare as text exactly as they compare as numbers. */
  lemma {:induction false} EqualWidth(p: string, q: string)
    requires AllDigits(p) && AllDigits(q) && |p| == |q|
    ensures Less(p, q) <==> Value(p) < Value(q)
    ensures p == q <==> Value(p) == Value(q)
  {
    if p != [] {
      var n := |p| - 1;
      var pf, qf := p[..n], q[..n];
      EqualWidth(pf, qf);
      assert p == pf + [p[n]] && q == qf + [q[n]];
      LessConcat(pf, qf, [p[n]], [q[n]]);
      LastDigits(pf, qf, p[n], q[n]);
    }
  }

  /** For versions with the same number of components of equal widths the text order the server
      uses is the numeric order. */
  lemma {:induction false} EqualWidthVersions(a: seq<string>, b: seq<string>)
    requires Numeric(a) && Numeric(b) && |a| == |b|
    requires forall i :: 0 <= i < |a| ==> |a[i]| == |b[i]|
    ensures Less(Dotted(a), Dotted(b)) <==> NumericLess(a, b)
  {
    if |a| > 0 {
      assert AllDigits(a[0]) && AllDigits(b[0]);
      EqualWidth(a[0], b[0]);
      if |a| == 1 {
        assert !NumericLess(a[1..], b[1..]);
      } else {
        EqualWidthVersions(a[1..], b[1..]);
        LessConcat(a[0] + ['.'], b[0] + ['.'], Dotted(a[1..]), Dotted(b[1..]));
        LessConcat(a[0], b[0], ['.'], ['.']);
        LessIrreflexive(['.']);
        assert a[0] + ['.'] == b[0] + ['.'] <==> a[0] == b[0] by {
          assert (a[0] + ['.'])[..|a[0]|] == a[0] && (b[0] + ['.'])[..|b[0]|] == b[0];
        }
      }
    }
  }

  /** Unequal widths break it: the tenth patch release counts as older than the ninth. */
  lemma TenBelowNine()
    ensures Less("0.0.10", "0.0.9")
  {
    assert "0.0.10" == "0.0." + "10" && "0.0.9" == "0.0." + "9";
    LessConcat("0.0.", "0.0.", "10", "9");
  }

  // ----- the dispatcher -----

  type Ident = Str

  /** The fields a posted upgrade request sets; absent ones keep their values. */
  datatype Body = Body(md5: Option<string>, version: Option<string>, url: Option<string>, force: Option<bool>)

  /** Parsing an address and printing it back, of the library; `None` for a text that is no address. */
  type Reprint = string -> Option<string>

  datatype Record = Record(md5: string, version: string, url: string, force: bool, upgraded: set<Ident>)

  datatype Offer = NoOffer | Upgrade(md5: string, url: string)

  function Updated<T>(current: T, o: Option<T>): T {
    match o case None => current case Some(v) => v
  }

  /** A request clears the record of upgraded agents and overwrites the fields it sets. */
  function Bound(r: Record, b: Body): Record {
    Record(Updated(r.md5, b.md5), Updated(r.version, b.version), Updated(r.url, b.url), Updated(r.force, b.force), {})
  }

  /** The dispatch decision on one record. */
  function Answer(r: Record, ident: Ident, version: string): Offer {
    if !r.force then (if Less(version, r.version) then Upgrade(r.md5, r.url) else NoOffer)
    else if ident in r.upgraded then NoOffer
    else Upgrade(r.md5, r.url)
  }

  /** What a call answers that reads the mode in record `a`, the version or the upgraded agents in `b`,
      the checksum in `c` and the address in `d`. */
  function Reply(a: Record, b: Record, c: Record, d: Record, ident: Ident, version: string): Offer {
    if !a.force && !Less(version, b.version) then NoOffer
    else if a.force && ident in b.upgraded then NoOffer
    else Upgrade(c.md5, d.url)
  }

  class SelfUpgrade {
    var md5Check: string
    var version: string
    var downloadURL: string
    var force: bool
    var upgradeMap: set<Ident>

    ghost function View(): Record
      reads this
    {
      Record(md5Check, version, downloadURL, force, upgradeMap)
    }

    constructor (version: string)
      ensures View() == Record("", version, "", false, {})
    {
      md5Check, this.version, downloadURL, force, upgradeMap := "", version, "", false, {};
    }

    /** Clears the record of upgraded agents entry by entry, then decodes the request. */
    method Bind(body: Body)
      modifies this
      ensures View() == Bound(old(View()), body)
    {
      var todo := upgradeMap;
      while todo != {}
        invariant upgradeMap == todo && View() == old(View()).(upgraded := todo)
        decreases |todo|
      {
        var k :| k in todo;
        upgradeMap := upgradeMap - {k};
        todo := todo - {k};
      }
      if body.md5.Some? { md5Check := body.md5.value; }
      if body.version.Some? { version := body.version.value; }
      if body.url.Some? { downloadURL := body.url.value; }
      if body.force.Some? { force := body.force.value; }
    }

    /** The update handler without interference: the stored address is reprinted, if it is one. */
    method Update(body: Body, decodes: bool, reprint: Reprint) returns (ok: bool)
      modifies this
      ensures var bound := Bound(old(View()), body);
        && ok == (decodes && reprint(bound.url).Some?)
        && View() == if ok then bound.(url := reprint(bound.url).value) else bound
    {
      Bind(body);
      if !decodes {
        return false;
      }
      var uri := reprint(downloadURL);
      if uri.None? {
        return false;
      }
      downloadURL := uri.value;
      return true;
    }

    method AgentSetUpgraded(ident: Ident)
      modifies this`upgradeMap
      ensures View() == old(View()).(upgraded := old(upgradeMap) + {ident})
    {
      upgradeMap := upgradeMap + {ident};
    }

    /** The body of the call. Other calls may change the record between its four reads, which find it
        as `a`, `b`, `c` and `d`. */
    static method Respond(a: Record, b: Record, c: Record, d: Record, ident: Ident, agentVersion: string)
      returns (resp: Offer)
      ensures resp == Reply(a, b, c, d, ident, agentVersion)
    {
      resp := NoOffer;
      if !a.force {
        if !Less(agentVersion, b.version) {
          return;
        }
      } else {
        if ident in b.upgraded {
          return;
        }
      }
      resp := Upgrade(c.md5, d.url);
    }

    /** The call without interference. */
    method GetSelfUpgrade(ident: Ident, agentVersion: string) returns (resp: Offer)
      ensures resp == Answer(View(), ident, agentVersion)
    {
      var r := Record(md5Check, version, downloadURL, force, upgradeMap);
      resp := Respond(r, r, r, r, ident, agentVersion);
    }
  }

  // ----- the reads of one call -----

  /** Some agent is offered something. */
  predicate Offers(r: Record) {
    r.force || r.version != ""
  }

  /** The reads are those of record `r` as far as they matter to some agent. */
  ghost predicate ReadsOf(a: Record, b: Record, c: Record, d: Record, r: Record) {
    && a.force == r.force && (if r.force then b.upgraded == r.upgraded else b.version == r.version)
    && (Offers(r) ==> c.md5 == r.md5 && d.url == r.url)
  }

  /** To every agent the reply is the answer of record `r`. */
  ghost predicate AnswersLike(a: Record, b: Record, c: Record, d: Record, r: Record) {
    forall ident: Ident, version: string :: Reply(a, b, c, d, ident, version) == Answer(r, ident, version)
  }

  lemma {:induction false} LengthBound(xs: set<Ident>) returns (n: nat)
    ensures forall x :: x in xs ==> |x| <= n
    decreases |xs|
  {
    if xs == {} {
      n := 0;
    } else {
      var x :| x in xs;
      n := LengthBound(xs - {x});
      n := if |x| > n then |x| else n;
    }
  }

  lemma FreshIdent(xs: set<Ident>) returns (ident: Ident)
    ensures ident !in xs
  {
    var n := LengthBound(xs);
    ident := seq(n + 1, _ => 0);
  }

  lemma SomeOffer(r: Record) returns (ident: Ident, version: string)
    requires Offers(r)
    ensures Answer(r, ident, version) == Upgrade(r.md5, r.url)
  {
    ident := FreshIdent(r.upgraded);
    version := "";
  }

  lemma DecisionRead(a: Record, b: Record, c: Record, d: Record, r: Record)
    requires AnswersLike(a, b, c, d, r)
    ensures a.force == r.force && (if r.force then b.upgraded == r.upgraded else b.version == r.version)
  {
    var ident := FreshIdent(b.upgraded + r.upgraded);
    assert Reply(a, b, c, d, ident, b.version) == Answer(r, ident, b.version);
    assert Reply(a, b, c, d, ident, r.version) == Answer(r, ident, r.version);
    LessIrreflexive(b.version);
    LessIrreflexive(r.version);
    LessTotal(b.version, r.version);
    if a.force && r.force {
      forall i ensures i in b.upgraded <==> i in r.upgraded {
        assert Reply(a, b, c, d, i, "") == Answer(r, i, "");
      }
    }
  }

  /** A call answers like one record if and only if every field that it read to any effect had that
      record's value. */
  lemma AnswersLikeExactly(a: Record, b: Record, c: Record, d: Record, r: Record)
    ensures AnswersLike(a, b, c, d, r) <==> ReadsOf(a, b, c, d, r)
  {
    if AnswersLike(a, b, c, d, r) {
      DecisionRead(a, b, c, d, r);
      if Offers(r) {
        var ident, version := SomeOffer(r);
        assert Reply(a, b, c, d, ident, version) == Answer(r, ident, version);
      }
    }
    if ReadsOf(a, b, c, d, r) {
      forall ident: Ident, version: string ensures Reply(a, b, c, d, ident, version) == Answer(r, ident, version) {
        assert Less(version, r.version) ==> Offers(r);
      }
    }
  }

  // ----- runs -----

  datatype Field = Md5 | Version | Url | Force

  const DECODED := Body(None, None, None, None)

  /** Readers see the fields change one by one: a request is bound by `BindStart`, which clears the
      record of upgraded agents, a `Decode` for each field it sets, and `BindEnd`, or `BindFail` on a
      decoding error. All of that is under the mutex. Without it, the update handler later loads the
      stored address and, later still, stores the reprinted one. */
  datatype State = State(
    record: Record,
    decoding: Option<Body>,       // the fields that the request being bound has yet to set
    bound: nat,                   // handlers that have bound and not yet loaded the address
    parsed: multiset<string>)     // what the handlers that have loaded it will store

  datatype Event =
    | BindStart(body: Body)
    | Decode(field: Field)
    | BindEnd
    | BindFail
    | LoadAddress
    | StoreAddress(uri: string)
    | Reject                      // the stored address is none
    | Success(ident: Ident)

  predicate Sets(b: Body, f: Field) {
    match f
    case Md5 => b.md5.Some?
    case Version => b.version.Some?
    case Url => b.url.Some?
    case Force => b.force.Some?
  }

  predicate Enabled(s: State, e: Event, reprint: Reprint) {
    match e
    case BindStart(_) => s.decoding.None?
    case Decode(f) => s.decoding.Some? && Sets(s.decoding.value, f)
    case BindEnd => s.decoding == Some(DECODED)
    case BindFail => s.decoding.Some?
    case LoadAddress => s.bound > 0 && reprint(s.record.url).Some?
    case StoreAddress(uri) => uri in s.parsed
    case Reject => s.bound > 0 && reprint(s.record.url).None?
    case Success(_) => s.decoding.None?
  }

  function DecodeField(s: State, f: Field): State
    requires s.decoding.Some? && Sets(s.decoding.value, f)
  {
    var b := s.decoding.value;
    match f
    case Md5 => s.(record := s.record.(md5 := b.md5.value), decoding := Some(b.(md5 := None)))
    case Version => s.(record := s.record.(version := b.version.value), decoding := Some(b.(version := None)))
    case Url => s.(record := s.record.(url := b.url.value), decoding := Some(b.(url := None)))
    case Force => s.(record := s.record.(force := b.force.value), decoding := Some(b.(force := None)))
  }

  function Apply(s: State, e: Event, reprint: Reprint): State
    requires Enabled(s, e, reprint)
  {
    match e
    case BindStart(body) => s.(record := s.record.(upgraded := {}), decoding := Some(body))
    case Decode(f) => DecodeField(s, f)
    case BindEnd => s.(decoding := None, bound := s.bound + 1)
    case BindFail => s.(decoding := None)
    case LoadAddress =>
      s.(bound := s.bound - 1, parsed := s.parsed + multiset{reprint(s.record.url).value})
    case StoreAddress(uri) => s.(record := s.record.(url := uri), parsed := s.parsed - multiset{uri})
    case Reject => s.(bound := s.bound - 1)
    case Success(ident) => s.(record := s.record.(upgraded := s.record.upgraded + {ident}))
  }

  /** `ss` is the run over the events `es`, from any initial record without upgraded agents. */
  ghost predicate Behavior(ss: seq<State>, es: seq<Event>, reprint: Reprint) {
    && |ss| == |es| + 1
    && ss[0] == State(ss[0].record, None, 0, multiset{}) && ss[0].record.upgraded == {}
    && forall i :: 0 <= i < |es| ==> StepAt(ss, es, reprint, i)
  }

  ghost predicate StepAt(ss: seq<State>, es: seq<Event>, reprint: Reprint, i: int)
    requires |ss| == |es| + 1 && 0 <= i < |es|
  {
    Enabled(ss[i], es[i], reprint) && ss[i + 1] == Apply(ss[i], es[i], reprint)
  }

  /** A run can be continued by any enabled event. */
  lemma Extend(ss: seq<State>, es: seq<Event>, reprint: Reprint, e: Event) returns (ss': seq<State>, es': seq<Event>)
    requires Behavior(ss, es, reprint) && Enabled(ss[|es|], e, reprint)
    ensures Behavior(ss', es', reprint) && es' == es + [e] && ss <= ss'
    ensures ss'[|es'|] == Apply(ss[|es|], e, reprint)
  {
    ss', es' := ss + [Apply(ss[|es|], e, reprint)], es + [e];
    forall i | 0 <= i < |es'| ensures StepAt(ss', es', reprint, i) {
      assert i < |es| ==> StepAt(ss, es, reprint, i);
    }
  }

  ghost predicate NoBind(es: seq<Event>, m: int, n: int) {
    forall k :: 0 <= m <= k < n <= |es| ==> !es[k].BindStart?
  }

  // ----- binding -----

  /** Nothing but decoding between `m` and `n`. */
  ghost predicate OnlyDecodes(es: seq<Event>, m: int, n: int) {
    forall k :: 0 <= m <= k < n <= |es| ==> es[k].Decode?
  }

  lemma {:induction false} DecodesCommute(ss: seq<State>, es: seq<Event>, reprint: Reprint, b: nat, n: nat)
    requires Behavior(ss, es, reprint) && b < n <= |es| && es[b].BindStart? && OnlyDecodes(es, b + 1, n)
    ensures ss[n].decoding.Some? && Bound(ss[n].record, ss[n].decoding.value) == Bound(ss[b].record, es[b].body)
    ensures ss[n].record.upgraded == {}
    decreases n
  {
    assert StepAt(ss, es, reprint, n - 1);
    if n > b + 1 {
      DecodesCommute(ss, es, reprint, b, n - 1);
    }
  }

  /** Undisturbed, a request is bound as a whole, whatever order its fields come in. */
  lemma BindEffect(ss: seq<State>, es: seq<Event>, reprint: Reprint, b: nat, e: nat)
    requires Behavior(ss, es, reprint) && b < e < |es|
    requires es[b].BindStart? && OnlyDecodes(es, b + 1, e) && es[e].BindEnd?
    ensures ss[e + 1].record == Bound(ss[b].record, es[b].body) && ss[e + 1].decoding.None?
    ensures var before, after, body := ss[b].record, ss[e + 1].record, es[b].body;
      && after.upgraded == {}
      && after.md5 == (if body.md5.Some? then body.md5.value else before.md5)
      && after.version == (if body.version.Some? then body.version.value else before.version)
      && after.url == (if body.url.Some? then body.url.value else before.url)
      && after.force == (if body.force.Some? then body.force.value else before.force)
  {
    DecodesCommute(ss, es, reprint, b, e);
    assert StepAt(ss, es, reprint, e);
  }

  /** A whole request without an earlier handler under way, decoded in order. */
  lemma BindAll(ss: seq<State>, es: seq<Event>, reprint: Reprint, b: Body)
    returns (ss': seq<State>, es': seq<Event>)
    requires Behavior(ss, es, reprint) && ss[|es|].decoding.None?
    requires Complete(b)
    ensures Behavior(ss', es', reprint) && es <= es' && ss <= ss'
    ensures ss'[|es'|] == ss[|es|].(record := Bound(ss[|es|].record, b), bound := ss[|es|].bound + 1)
  {
    ss', es' := Extend(ss, es, reprint, BindStart(b));
    ss', es' := Extend(ss', es', reprint, Decode(Md5));
    ss', es' := Extend(ss', es', reprint, Decode(Version));
    ss', es' := Extend(ss', es', reprint, Decode(Url));
    ss', es' := Extend(ss', es', reprint, Decode(Force));
    ss', es' := Extend(ss', es', reprint, BindEnd);
  }

  // ----- replies in runs -----

  /** When one call makes its four reads. The record of upgraded agents is read under the mutex. */
  datatype Reads = Reads(mode: nat, decision: nat, md5: nat, url: nat)

  ghost predicate ReadsIn(ss: seq<State>, r: Reads) {
    && r.mode <= r.decision <= r.md5 <= r.url < |ss|
    && (ss[r.mode].record.force ==> ss[r.decision].decoding.None?)
  }

  ghost function ReplyAt(ss: seq<State>, r: Reads, ident: Ident, version: string): Offer
    requires ReadsIn(ss, r)
  {
    Reply(ss[r.mode].record, ss[r.decision].record, ss[r.md5].record, ss[r.url].record, ident, version)
  }

  /** To every agent the call answers like the record of state `t`, in which no request is half bound. */
  ghost predicate AnswersLikeState(ss: seq<State>, r: Reads, t: nat)
    requires ReadsIn(ss, r)
  {
    && t < |ss| && ss[t].decoding.None?
    && forall ident: Ident, version: string ::
         ReplyAt(ss, r, ident, version) == Answer(ss[t].record, ident, version)
  }

  ghost predicate ReadsOfState(ss: seq<State>, r: Reads, t: nat)
    requires ReadsIn(ss, r)
  {
    && t < |ss| && ss[t].decoding.None?
    && ReadsOf(ss[r.mode].record, ss[r.decision].record, ss[r.md5].record, ss[r.url].record, ss[t].record)
  }

  /** In any run a call answers like one record if and only if the fields it read to any effect stood
      together in one record. */
  lemma ConsistentExactly(ss: seq<State>, r: Reads)
    requires ReadsIn(ss, r)
    ensures (exists t: nat :: AnswersLikeState(ss, r, t)) <==> (exists t: nat :: ReadsOfState(ss, r, t))
  {
    forall t: nat ensures AnswersLikeState(ss, r, t) <==> ReadsOfState(ss, r, t) {
      if t < |ss| {
        LiftAnswers(ss, r, t);
      }
    }
  }

  lemma LiftAnswers(ss: seq<State>, r: Reads, t: nat)
    requires ReadsIn(ss, r) && t < |ss|
    ensures AnswersLikeState(ss, r, t) <==> ReadsOfState(ss, r, t)
  {
    var a, b, c, d := ss[r.mode].record, ss[r.decision].record, ss[r.md5].record, ss[r.url].record;
    AnswersLikeExactly(a, b, c, d, ss[t].record);
    if AnswersLikeState(ss, r, t) {
      forall ident: Ident, version: string
        ensures Reply(a, b, c, d, ident, version) == Answer(ss[t].record, ident, version)
      {
        assert ReplyAt(ss, r, ident, version) == Answer(ss[t].record, ident, version);
      }
    }
  }

  /** Nothing writes a field that calls read without the mutex. */
  ghost predicate Quiet(es: seq<Event>, m: int, n: int) {
    forall k :: 0 <= m <= k < n <= |es| ==> !es[k].BindStart? && !es[k].StoreAddress?
  }

  lemma {:induction false} QuietKeeps(ss: seq<State>, es: seq<Event>, reprint: Reprint, m: nat, n: nat)
    requires Behavior(ss, es, reprint) && m <= n <= |es| && Quiet(es, m, n) && ss[m].decoding.None?
    ensures ss[n].decoding.None?
    ensures ss[n].record == ss[m].record.(upgraded := ss[n].record.upgraded)
    ensures ss[m].record.upgraded <= ss[n].record.upgraded
    decreases n
  {
    if m < n {
      QuietKeeps(ss, es, reprint, m, n - 1);
      assert StepAt(ss, es, reprint, n - 1);
    }
  }

  /** A call during which no request is being bound and no address is stored answers like one record,
      whatever agents report success meanwhile. */
  lemma QuietCallConsistent(ss: seq<State>, es: seq<Event>, reprint: Reprint, r: Reads)
    requires Behavior(ss, es, reprint) && ReadsIn(ss, r) && Quiet(es, r.mode, r.url) && ss[r.mode].decoding.None?
    ensures AnswersLikeState(ss, r, r.decision)
  {
    QuietKeeps(ss, es, reprint, r.mode, r.decision);
    QuietKeeps(ss, es, reprint, r.decision, r.md5);
    QuietKeeps(ss, es, reprint, r.decision, r.url);
    LiftAnswers(ss, r, r.decision);
  }

  // ----- forced upgrades -----

  /** The agent reported success at event `j`, and no request was bound between it and `n`. */
  ghost predicate ReportedAt(es: seq<Event>, n: int, ident: Ident, j: int) {
    && 0 <= j < n <= |es| && es[j] == Success(ident)
    && forall k :: j < k < n ==> !es[k].BindStart?
  }

  ghost predicate ReportedSinceBind(es: seq<Event>, n: int, ident: Ident) {
    exists j :: ReportedAt(es, n, ident, j)
  }

  /** The record holds exactly the agents that reported since the last bound request. */
  lemma {:induction false} UpgradedExactly(ss: seq<State>, es: seq<Event>, reprint: Reprint, n: nat, ident: Ident)
    requires Behavior(ss, es, reprint) && n <= |es|
    ensures ident in ss[n].record.upgraded <==> ReportedSinceBind(es, n, ident)
  {
    if n > 0 {
      var m := n - 1;
      UpgradedExactly(ss, es, reprint, m, ident);
      assert StepAt(ss, es, reprint, m);
      forall j | 0 <= j < m
        ensures ReportedAt(es, n, ident, j) <==> ReportedAt(es, m, ident, j) && !es[m].BindStart?
      {
      }
      if es[m] == Success(ident) {
        assert ReportedAt(es, n, ident, m);
      }
    }
  }

  /** Whatever comes between its reads, a call that read a forced mode offers an upgrade exactly to an
      agent that had not reported since the request bound last when it looked the agent up. */
  lemma ForcedOfferExactly(ss: seq<State>, es: seq<Event>, reprint: Reprint, r: Reads, ident: Ident, version: string)
    requires Behavior(ss, es, reprint) && ReadsIn(ss, r) && ss[r.mode].record.force
    ensures ReplyAt(ss, r, ident, version).Upgrade? <==> !ReportedSinceBind(es, r.decision, ident)
  {
    UpgradedExactly(ss, es, reprint, r.decision, ident);
  }

  /** Without a new request the dispatched version, checksum and mode stay as they are. */
  lemma {:induction false} DispatchStable(ss: seq<State>, es: seq<Event>, reprint: Reprint, m: nat, n: nat)
    requires Behavior(ss, es, reprint) && m <= n <= |es| && NoBind(es, m, n) && ss[m].decoding.None?
    ensures ss[n].decoding.None?
    ensures var p, q := ss[m].record, ss[n].record;
      p.force == q.force && p.version == q.version && p.md5 == q.md5
    decreases n
  {
    if m < n {
      DispatchStable(ss, es, reprint, m, n - 1);
      assert StepAt(ss, es, reprint, n - 1);
    }
  }

  /** Dispatch never loops without a new request: an agent that was offered an upgrade by one call and
      then did its part, reporting success if it was forced and running the dispatched version if it was
      not, is not offered one by a later call. */
  lemma NoSecondOffer(ss: seq<State>, es: seq<Event>, reprint: Reprint, first: Reads, second: Reads,
                      ident: Ident, before: string, after: string)
    requires Behavior(ss, es, reprint) && ReadsIn(ss, first) && ReadsIn(ss, second)
    requires first.url <= second.mode && NoBind(es, first.mode, second.url) && ss[first.mode].decoding.None?
    requires ReplyAt(ss, first, ident, before).Upgrade?
    requires if ss[first.mode].record.force
             then exists j :: first.url <= j < second.decision && es[j] == Success(ident)
             else after == ss[first.decision].record.version
    ensures ReplyAt(ss, second, ident, after) == NoOffer
  {
    DispatchStable(ss, es, reprint, first.mode, first.decision);
    DispatchStable(ss, es, reprint, first.mode, second.mode);
    DispatchStable(ss, es, reprint, first.mode, second.decision);
    if ss[first.mode].record.force {
      var j :| first.url <= j < second.decision && es[j] == Success(ident);
      assert ReportedAt(es, second.decision, ident, j);
      UpgradedExactly(ss, es, reprint, second.decision, ident);
    } else {
      LessIrreflexive(after);
    }
  }

  // ----- the offered address -----

  /** Reprinting leads from spellings in `forms` only to spellings in `forms`. */
  ghost predicate Closed(forms: iset<string>, reprint: Reprint) {
    forall a :: a in forms && reprint(a).Some? ==> reprint(a).value in forms
  }

  ghost predicate StoresIn(s: State, forms: iset<string>) {
    forall a :: a in s.parsed ==> a in forms
  }

  /** The stored address, and the one a request being bound has yet to set, are of these spellings. */
  ghost predicate AddressIn(s: State, forms: iset<string>) {
    && s.record.url in forms
    && (s.decoding.Some? && s.decoding.value.url.Some? ==> s.decoding.value.url.value in forms)
  }

  lemma {:induction false} AddressStays(ss: seq<State>, es: seq<Event>, reprint: Reprint, m: nat, n: nat,
                                        forms: iset<string>)
    requires Behavior(ss, es, reprint) && m <= n <= |es| && NoBind(es, m, n)
    requires Closed(forms, reprint) && AddressIn(ss[m], forms) && StoresIn(ss[m], forms)
    ensures AddressIn(ss[n], forms) && StoresIn(ss[n], forms)
    decreases n
  {
    if m < n {
      AddressStays(ss, es, reprint, m, n - 1, forms);
      assert StepAt(ss, es, reprint, n - 1);
    }
  }

  lemma {:induction false} FieldsOfRequest(ss: seq<State>, es: seq<Event>, reprint: Reprint, b: nat, n: nat)
    requires Behavior(ss, es, reprint) && b < n <= |es| && es[b].BindStart? && NoBind(es, b + 1, n)
    ensures ss[n].decoding.Some? ==>
      && (ss[n].decoding.value.md5.Some? ==> ss[n].decoding.value.md5 == es[b].body.md5)
      && (ss[n].decoding.value.url.Some? ==> ss[n].decoding.value.url == es[b].body.url)
    decreases n
  {
    assert StepAt(ss, es, reprint, n - 1);
    if n > b + 1 {
      FieldsOfRequest(ss, es, reprint, b, n - 1);
    }
  }

  lemma {:induction false} Md5Stays(ss: seq<State>, es: seq<Event>, reprint: Reprint, m: nat, n: nat)
    requires Behavior(ss, es, reprint) && m <= n <= |es| && NoBind(es, m, n)
    requires ss[m].decoding.Some? ==> ss[m].decoding.value.md5.None?
    ensures ss[n].record.md5 == ss[m].record.md5 && (ss[n].decoding.Some? ==> ss[n].decoding.value.md5.None?)
    decreases n
  {
    if m < n {
      Md5Stays(ss, es, reprint, m, n - 1);
      assert StepAt(ss, es, reprint, n - 1);
    }
  }

  /** The request bound at `b` sets its checksum at `m` and its address at `u`. A call that reads the
      checksum and the address after that, before another request is bound, offers that checksum and,
      up to reprinting, that address, unless at `u` the handler of an earlier request had yet to store
      another address. What the call read before does not matter. */
  lemma OfferCarriesLastRequest(ss: seq<State>, es: seq<Event>, reprint: Reprint, b: nat, m: nat, u: nat,
                                r: Reads, ident: Ident, version: string, forms: iset<string>)
    requires Behavior(ss, es, reprint) && ReadsIn(ss, r) && NoBind(es, b + 1, r.url)
    requires b < m < r.md5 && b < u < r.url && es[b].BindStart? && es[m] == Decode(Md5) && es[u] == Decode(Url)
    requires es[b].body.url.Some? && es[b].body.url.value in forms && Closed(forms, reprint) && StoresIn(ss[u], forms)
    ensures es[b].body.md5.Some?
    ensures var reply := ReplyAt(ss, r, ident, version);
      reply.Upgrade? ==> reply.md5 == es[b].body.md5.value && reply.url in forms
  {
    FieldsOfRequest(ss, es, reprint, b, m);
    FieldsOfRequest(ss, es, reprint, b, u);
    assert StepAt(ss, es, reprint, m) && StepAt(ss, es, reprint, u);
    Md5Stays(ss, es, reprint, m + 1, r.md5);
    AddressStays(ss, es, reprint, u + 1, r.url, forms);
  }

  /** Whatever follows, without a new request the address keeps to these spellings. */
  ghost predicate AddressSettled(ss: seq<State>, es: seq<Event>, reprint: Reprint, forms: iset<string>) {
    forall ss': seq<State>, es': seq<Event> ::
      Behavior(ss', es', reprint) && ss <= ss' && es <= es' && NoBind(es', |es|, |es'|)
      ==> ss'[|es'|].record.url in forms
  }

  /** Exactly when: the address settles on the spellings of the current one if and only if no handler
      is still to store another. */
  lemma AddressSettledExactly(ss: seq<State>, es: seq<Event>, reprint: Reprint, forms: iset<string>)
    requires Behavior(ss, es, reprint) && Closed(forms, reprint) && AddressIn(ss[|es|], forms)
    ensures AddressSettled(ss, es, reprint, forms) <==> StoresIn(ss[|es|], forms)
  {
    if StoresIn(ss[|es|], forms) {
      forall ss': seq<State>, es': seq<Event>
        | Behavior(ss', es', reprint) && ss <= ss' && es <= es' && NoBind(es', |es|, |es'|)
        ensures ss'[|es'|].record.url in forms
      {
        AddressStays(ss', es', reprint, |es|, |es'|, forms);
      }
    } else {
      var a :| a in ss[|es|].parsed && a !in forms;
      var ss', es' := Extend(ss, es, reprint, StoreAddress(a));
      assert es <= es' && NoBind(es', |es|, |es'|);
    }
  }

  predicate Complete(b: Body) {
    b.md5.Some? && b.version.Some? && b.url.Some? && b.force.Some?
  }

  lemma Start(start: Record, reprint: Reprint) returns (ss: seq<State>, es: seq<Event>)
    requires start.upgraded == {}
    ensures Behavior(ss, es, reprint) && es == [] && ss == [State(start, None, 0, multiset{})]
  {
    ss, es := [State(start, None, 0, multiset{})], [];
  }

  /** Two overlapping requests leave the second's checksum with the first's address. */
  lemma OverlappingRequestsMix(first: Body, second: Body, start: Record, reprint: Reprint)
    returns (ss: seq<State>, es: seq<Event>)
    requires start.upgraded == {} && Complete(first) && Complete(second) && reprint(first.url.value).Some?
    ensures Behavior(ss, es, reprint) && ss[|es|].decoding.None?
    ensures ss[|es|].record.md5 == second.md5.value && ss[|es|].record.url == reprint(first.url.value).value
  {
    ss, es := Start(start, reprint);
    ss, es := BindAll(ss, es, reprint, first);
    ss, es := Extend(ss, es, reprint, LoadAddress);
    ss, es := BindAll(ss, es, reprint, second);
    ss, es := Extend(ss, es, reprint, StoreAddress(reprint(first.url.value).value));
  }

  /** A single request, bound between the reads of one call, is enough for a torn offer: the checksum
      from before it with its address. */
  lemma TornOffer(second: Body, start: Record, ident: Ident, version: string, reprint: Reprint)
    returns (ss: seq<State>, es: seq<Event>, r: Reads)
    requires start.upgraded == {} && Complete(second) && Answer(start, ident, version).Upgrade?
    ensures Behavior(ss, es, reprint) && ReadsIn(ss, r) && ss[0].record == start
    ensures ReplyAt(ss, r, ident, version) == Upgrade(start.md5, second.url.value)
  {
    ss, es := Start(start, reprint);
    ss, es := BindAll(ss, es, reprint, second);
    r := Reads(0, 0, 0, |es|);
  }

  // ----- unforced upgrades -----

  /** An unforced call: whatever agent it makes an offer, the binary at the offered address is newer
      than that agent. `carries` gives the version of the binary behind an address. */
  ghost predicate OnlyUpward(ss: seq<State>, r: Reads, carries: string -> string)
    requires ReadsIn(ss, r)
  {
    forall ident: Ident, from: string :: ReplyAt(ss, r, ident, from).Upgrade? ==>
      Less(from, carries(ReplyAt(ss, r, ident, from).url))
  }

  /** An unforced call moves every agent it makes an offer strictly upward if and only if the binary
      behind the address it read is not older than the version it checked. */
  lemma UpwardExactly(ss: seq<State>, r: Reads, carries: string -> string)
    requires ReadsIn(ss, r) && !ss[r.mode].record.force
    ensures OnlyUpward(ss, r, carries) <==> !Less(carries(ss[r.url].record.url), ss[r.decision].record.version)
  {
    var carried, checked := carries(ss[r.url].record.url), ss[r.decision].record.version;
    if Less(carried, checked) {
      LessIrreflexive(carried);
      assert ReplyAt(ss, r, [], carried).Upgrade?;
    } else {
      LessTotal(carried, checked);
      forall ident: Ident, from: string | ReplyAt(ss, r, ident, from).Upgrade?
        ensures Less(from, carries(ReplyAt(ss, r, ident, from).url))
      {
        if carried != checked {
          LessTransitive(from, checked, carried);
        }
      }
    }
  }

  /** A record is matched if the binary behind its address carries its version. A call that answers like
      a matched record is upward. */
  lemma MatchedCallUpward(ss: seq<State>, r: Reads, carries: string -> string, t: nat)
    requires ReadsIn(ss, r) && !ss[r.mode].record.force && AnswersLikeState(ss, r, t)
    requires carries(ss[t].record.url) == ss[t].record.version
    ensures OnlyUpward(ss, r, carries)
  {
    forall ident: Ident, from: string | ReplyAt(ss, r, ident, from).Upgrade?
      ensures Less(from, carries(ReplyAt(ss, r, ident, from).url))
    {
      LiftAnswers(ss, r, t);
      assert ReplyAt(ss, r, ident, from) == Answer(ss[t].record, ident, from);
    }
  }

  /** One agent's unforced offers over a run, possibly under many requests: call `at[i]` offered it an
      upgrade when it ran `vs[i]`, and it came back running the binary behind the offered address. */
  ghost predicate UnforcedUpgrades(ss: seq<State>, carries: string -> string, ident: Ident,
                                   at: seq<Reads>, vs: seq<string>) {
    && |vs| == |at| + 1
    && forall i :: 0 <= i < |at| ==> UnforcedUpgrade(ss, carries, ident, at[i], vs[i], vs[i + 1])
  }

  ghost predicate UnforcedUpgrade(ss: seq<State>, carries: string -> string, ident: Ident,
                                  r: Reads, from: string, to: string) {
    && ReadsIn(ss, r) && !ss[r.mode].record.force
    && ReplyAt(ss, r, ident, from).Upgrade? && to == carries(ReplyAt(ss, r, ident, from).url)
  }

  /** Whatever is bound in between, unforced upgrades only ever go up and never revisit a version, as
      long as no call read an address whose binary is older than the version it had checked. */
  lemma UnforcedOnlyUpward(ss: seq<State>, carries: string -> string, ident: Ident, at: seq<Reads>, vs: seq<string>,
                           i: nat, j: nat)
    requires UnforcedUpgrades(ss, carries, ident, at, vs) && i < j < |vs|
    requires forall k :: 0 <= k < |at| && ReadsIn(ss, at[k]) ==>
      !Less(carries(ss[at[k].url].record.url), ss[at[k].decision].record.version)
    ensures Less(vs[i], vs[j]) && vs[i] != vs[j]
  {
    forall k | 0 <= k < |vs| - 1 ensures Less(vs[k], vs[k + 1]) {
      assert UnforcedUpgrade(ss, carries, ident, at[k], vs[k], vs[k + 1]);
      UpwardExactly(ss, at[k], carries);
    }
    ChainIncreases(vs, i, j);
  }

  /** The torn call that downgrades: an agent passes the check against the dispatched version, a request
      for an older one is bound, and the call replies with that one's checksum and address. Both requests
      are unforced, and each address serves the version dispatched with it. */
  lemma TornDowngrade(start: Record, second: Body, ident: Ident, from: string,
                      carries: string -> string, reprint: Reprint)
    returns (ss: seq<State>, es: seq<Event>, r: Reads)
    requires start.upgraded == {} && !start.force && carries(start.url) == start.version && Less(from, start.version)
    requires Complete(second) && !second.force.value && carries(second.url.value) == second.version.value
    requires Less(second.version.value, from)
    ensures Behavior(ss, es, reprint) && ReadsIn(ss, r) && ss[0].record == start
    ensures ReplyAt(ss, r, ident, from) == Upgrade(second.md5.value, second.url.value)
    ensures Less(carries(ReplyAt(ss, r, ident, from).url), from)
  {
    ss, es := Start(start, reprint);
    ss, es := BindAll(ss, es, reprint, second);
    r := Reads(0, 0, |es|, |es|);
  }
}
