/**
 Agent-to-server delivery: `batchSend` of pkg/agent/target.go over `Call` of pkg/agent/rpc.go.

 The network is an oracle: each attempt of a call is acknowledged, executed by the server but
 with its acknowledgement lost, or not executed at all. A delivered call appends its batch to
 the log of `Server.ProberResultReport`, which enqueues it.
 */
module Delivery {
  import opened Common

  type Point = int   // identity of a probe result

  datatype Outcome = Acked | AckLost | Undelivered

  const RETRY := 3
  const MAX_POINTS := 5000

  /** What happens to the attempts of one call, should they all be needed. */
  type Attempts = s: seq<Outcome> | |s| == RETRY witness [Acked, Acked, Acked]

  /** The i-th event the select loop of `batchSend` takes. */
  datatype Event =
    | Recv(point: Point)
    | Flush(dialOk: bool, attempts: Attempts)
    | Stop

  // ----- one call -----

  ghost predicate FirstAck(attempts: seq<Outcome>, i: int) {
    0 <= i < |attempts| && attempts[i].Acked? && forall j :: 0 <= j < i ==> !attempts[j].Acked?
  }

  function Executed(attempts: seq<Outcome>): nat {
    if attempts == [] then 0
    else Executed(attempts[..|attempts| - 1]) + (if attempts[|attempts| - 1].Undelivered? then 0 else 1)
  }

  /** A call succeeds as soon as an attempt is acknowledged. */
  function CallOk(attempts: seq<Outcome>): (ok: bool)
    ensures ok <==> exists i :: FirstAck(attempts, i)
  {
    if attempts == [] then false
    else if CallOk(attempts[..|attempts| - 1]) then
      var before := attempts[..|attempts| - 1];
      assert forall i :: FirstAck(before, i) ==> FirstAck(attempts, i);
      true
    else
      var before := attempts[..|attempts| - 1];
      NoAckYet(before);
      assert attempts[|attempts| - 1].Acked? ==> FirstAck(attempts, |attempts| - 1);
      attempts[|attempts| - 1].Acked?
  }

  lemma NoAckYet(attempts: seq<Outcome>)
    requires !exists i :: FirstAck(attempts, i)
    ensures forall i :: 0 <= i < |attempts| ==> !attempts[i].Acked?
  {
    for k := 0 to |attempts|
      invariant forall i :: 0 <= i < k ==> !attempts[i].Acked?
    {
      assert !FirstAck(attempts, k);
    }
  }

  /** How often the server executes the call: attempts stop at the first acknowledgement. */
  function Deliveries(attempts: seq<Outcome>): nat {
    if attempts == [] then 0
    else if CallOk(attempts[..|attempts| - 1]) then Deliveries(attempts[..|attempts| - 1])
    else Deliveries(attempts[..|attempts| - 1]) + (if attempts[|attempts| - 1].Undelivered? then 0 else 1)
  }

  /** At least once: an acknowledged call was executed, and never more often than it was tried. */
  lemma {:induction false} AckedMeansExecuted(attempts: seq<Outcome>)
    ensures CallOk(attempts) ==> Deliveries(attempts) >= 1
    ensures Deliveries(attempts) <= |attempts|
    ensures forall i :: FirstAck(attempts, i) ==> Deliveries(attempts) == Executed(attempts[..i + 1])
  {
    if attempts != [] {
      var n := |attempts| - 1;
      var before := attempts[..n];
      AckedMeansExecuted(before);
      forall i | FirstAck(attempts, i) ensures Deliveries(attempts) == Executed(attempts[..i + 1]) {
        if i < n {
          assert FirstAck(before, i) && before[..i + 1] == attempts[..i + 1];
        } else {
          assert attempts[..i + 1] == attempts;
          assert !CallOk(before);
          AllExecuted(before);
        }
      }
    }
  }

  lemma {:induction false} AllExecuted(attempts: seq<Outcome>)
    requires !CallOk(attempts)
    ensures Deliveries(attempts) == Executed(attempts)
  {
    if attempts != [] {
      AllExecuted(attempts[..|attempts| - 1]);
    }
  }

  class RpcCli {
    var connected: bool

    constructor ()
      ensures !connected
    {
      connected := false;
    }

    /** The retry loop. Connecting is attempted only without a client; three unacknowledged
        attempts close the client again. */
    method Call(dialOk: bool, attempts: Attempts) returns (ok: bool, delivered: nat)
      modifies this
      ensures ok == ((old(connected) || dialOk) && CallOk(attempts))
      ensures delivered == if old(connected) || dialOk then Deliveries(attempts) else 0
      ensures connected == ok
    {
      ok, delivered := false, 0;
      if !connected {
        if !dialOk {
          return;
        }
        connected := true;
      }
      for i := 1 to RETRY + 1
        invariant connected && !CallOk(attempts[..i - 1]) && delivered == Deliveries(attempts[..i - 1])
      {
        var outcome := attempts[i - 1];
        assert attempts[..i][..i - 1] == attempts[..i - 1];
        if !outcome.Undelivered? {
          delivered := delivered + 1;
        }
        if outcome.Acked? {
          AckStops(attempts, i);
          return true, delivered;
        }
      }
      assert attempts[..RETRY] == attempts;
      connected := false;
    }
  }

  /** Later attempts do not happen once an attempt was acknowledged. */
  lemma {:induction false} AckStops(attempts: seq<Outcome>, n: nat)
    requires n <= |attempts| && CallOk(attempts[..n])
    ensures CallOk(attempts) && Deliveries(attempts) == Deliveries(attempts[..n])
    decreases |attempts|
  {
    if n < |attempts| {
      assert attempts[..|attempts| - 1][..n] == attempts[..n];
      AckStops(attempts[..|attempts| - 1], n);
    } else {
      assert attempts[..n] == attempts;
    }
  }

  // ----- the sender -----

  datatype State = State(
    connected: bool,
    pts: seq<Point>,            // still pending
    acked: seq<seq<Point>>,     // batches whose call succeeded
    log: seq<seq<Point>>)       // every execution of the report call on the server

  const INIT := State(false, [], [], [])

  function Repeat(batch: seq<Point>, n: nat): (r: seq<seq<Point>>)
    ensures |r| == n && forall i :: 0 <= i < n ==> r[i] == batch
  {
    seq(n, i => batch)
  }

  function Step(s: State, e: Event): State {
    match e
    case Recv(point) => if |s.pts| >= MAX_POINTS then s else s.(pts := s.pts + [point])
    case Flush(dialOk, attempts) =>
      if s.pts == [] then s
      else if !s.connected && !dialOk then s
      else
        var s' := s.(connected := CallOk(attempts), log := s.log + Repeat(s.pts, Deliveries(attempts)));
        if CallOk(attempts) then s'.(acked := s.acked + [s.pts], pts := []) else s'
    case Stop => s
  }

  function Run(es: seq<Event>): State {
    if es == [] then INIT else Step(Run(es[..|es| - 1]), es[|es| - 1])
  }

  /** The events handled before the channel closes or the context ends. */
  function Handled(es: seq<Event>): (hs: seq<Event>)
    ensures |hs| <= |es| && hs == es[..|hs|]
    ensures forall i :: 0 <= i < |hs| ==> !hs[i].Stop?
    ensures |hs| < |es| ==> es[|hs|].Stop?
  {
    if es == [] || es[0].Stop? then [] else [es[0]] + Handled(es[1..])
  }

  /** The select loop. */
  method BatchSend(cli: RpcCli, es: seq<Event>)
    returns (pts: seq<Point>, acked: seq<seq<Point>>, log: seq<seq<Point>>)
    requires !cli.connected
    modifies cli
    ensures State(cli.connected, pts, acked, log) == Run(Handled(es))
  {
    pts, acked, log := [], [], [];
    var i := 0;
    while i < |es|
      invariant 0 <= i <= |Handled(es)|
      invariant State(cli.connected, pts, acked, log) == Run(es[..i])
    {
      assert es[..i + 1][..i] == es[..i];
      match es[i] {
        case Recv(pt) =>
          if |pts| < MAX_POINTS {
            pts := pts + [pt];
          }
        case Flush(dialOk, attempts) =>
          if |pts| > 0 {
            var ok, delivered := cli.Call(dialOk, attempts);
            log := log + Repeat(pts, delivered);
            if ok {
              acked := acked + [pts];
              pts := [];
            }
          }
        case Stop =>
          return;
      }
      i := i + 1;
    }
    assert es[..i] == Handled(es);
  }

  // ----- what single events do -----

  /** A point is appended while fewer than 5000 are pending, and dropped otherwise. */
  lemma RecvEffect(es: seq<Event>, i: nat)
    requires i < |es| && es[i].Recv?
    ensures var s, t := Run(es[..i]), Run(es[..i + 1]);
      && t.pts == (if |s.pts| < 5000 then s.pts + [es[i].point] else s.pts)
      && t.acked == s.acked && t.log == s.log && t.connected == s.connected
  {
    assert es[..i + 1][..i] == es[..i];
  }

  /** Attempt `k` of a call is made, no earlier one having been acknowledged, and reaches the server. */
  predicate ReachesServer(attempts: seq<Outcome>, k: int) {
    0 <= k < |attempts| && attempts[k] != Undelivered && forall j :: 0 <= j < k ==> attempts[j] != Acked
  }

  function Reaching(attempts: seq<Outcome>): set<int> {
    set k | 0 <= k < |attempts| && ReachesServer(attempts, k)
  }

  /** The server executes a call once for each attempt that reaches it. */
  lemma {:induction false} DeliveriesCount(attempts: seq<Outcome>)
    ensures Deliveries(attempts) == |Reaching(attempts)|
  {
    if attempts == [] {
      assert Reaching(attempts) == {};
    } else {
      var n := |attempts| - 1;
      var before := attempts[..n];
      DeliveriesCount(before);
      OkExactly(before);
      ReachingGrows(attempts, before);
    }
  }

  lemma {:induction false} OkExactly(attempts: seq<Outcome>)
    ensures CallOk(attempts) <==> exists j :: 0 <= j < |attempts| && attempts[j] == Acked
  {
    if CallOk(attempts) {
      var j :| FirstAck(attempts, j);
      assert attempts[j] == Acked;
    } else {
      NoAckYet(attempts);
    }
  }

  lemma {:induction false} ReachingGrows(attempts: seq<Outcome>, before: seq<Outcome>)
    requires attempts != [] && before == attempts[..|attempts| - 1]
    ensures |Reaching(attempts)| == |Reaching(before)| + if ReachesServer(attempts, |before|) then 1 else 0
  {
    var n := |before|;
    forall k | 0 <= k < n ensures ReachesServer(attempts, k) <==> ReachesServer(before, k) {
    }
    if ReachesServer(attempts, n) {
      assert Reaching(attempts) == Reaching(before) + {n};
    } else {
      assert Reaching(attempts) == Reaching(before);
    }
  }

  /** A flush with nothing pending, or that cannot connect, does nothing. Any other sends the whole
      pending batch in at most three attempts: each attempt that reaches the server executes it once. If some attempt is
      acknowledged the batch is recorded as acknowledged, nothing is pending any more and the client
      is kept; if none is, everything stays pending and the client is closed. */
  lemma {:induction false} FlushEffect(es: seq<Event>, i: nat)
    requires i < |es| && es[i].Flush?
    ensures |es[i].attempts| == 3
    ensures var s, t := Run(es[..i]), Run(es[..i + 1]);
      if s.pts == [] || !(s.connected || es[i].dialOk) then t == s
      else
        && |t.log| == |s.log| + |Reaching(es[i].attempts)| && s.log <= t.log
        && (forall k :: |s.log| <= k < |t.log| ==> t.log[k] == s.pts)
        && if exists j :: 0 <= j < |es[i].attempts| && es[i].attempts[j] == Acked
           then t.acked == s.acked + [s.pts] && t.pts == [] && t.connected
           else t.acked == s.acked && t.pts == s.pts && !t.connected
  {
    assert es[..i + 1][..i] == es[..i];
    var attempts := es[i].attempts;
    DeliveriesCount(attempts);
    OkExactly(attempts);
  }

  // ----- conservation -----

  /** The points received while the queue had room, in order. */
  function Accepted(es: seq<Event>): seq<Point> {
    if es == [] then []
    else
      var before, e := es[..|es| - 1], es[|es| - 1];
      if e.Recv? && |Run(before).pts| < MAX_POINTS then Accepted(before) + [e.point] else Accepted(before)
  }

  /** Nothing accepted is lost, duplicated or reordered on the agent: the acknowledged batches
      followed by the pending points are exactly the points that arrived while there was room,
      and the queue never exceeds its bound. */
  lemma {:induction false} Conservation(es: seq<Event>)
    ensures var s := Run(es); Flatten(s.acked) + s.pts == Accepted(es) && |s.pts| <= MAX_POINTS
  {
    if es != [] {
      Conservation(es[..|es| - 1]);
      StepConserves(Run(es[..|es| - 1]), es[|es| - 1]);
    }
  }

  lemma StepConserves(s: State, e: Event)
    requires |s.pts| <= MAX_POINTS
    ensures var s' := Step(s, e);
      && |s'.pts| <= MAX_POINTS
      && Flatten(s'.acked) + s'.pts == Flatten(s.acked) + s.pts
           + if e.Recv? && |s.pts| < MAX_POINTS then [e.point] else []
  {
    var s' := Step(s, e);
    if s'.acked != s.acked {
      assert s'.acked[..|s'.acked| - 1] == s.acked;
    }
  }

  /** The call of event `i`, if it makes one, fails. */
  ghost predicate NoSuccessAt(es: seq<Event>, i: int)
    requires 0 <= i < |es|
  {
    es[i].Flush? ==> !((Run(es[..i]).connected || es[i].dialOk) && CallOk(es[i].attempts))
  }

  /** A step that makes no successful call keeps everything and at most gains one point. */
  lemma UnsuccessfulStep(s: State, e: Event)
    requires e.Flush? ==> !((s.connected || e.dialOk) && CallOk(e.attempts))
    ensures var s' := Step(s, e);
      && s'.acked == s.acked && s.log <= s'.log
      && s'.pts == s.pts + if e.Recv? && |s.pts| < MAX_POINTS then [e.point] else []
  {
  }

  /** Failed calls change nothing that is pending or acknowledged: through any stretch of events
      without a successful call the pending points only gain the accepted ones, at the end. */
  lemma {:induction false} FailedCallsKeepAll(es: seq<Event>, m: nat)
    requires m <= |es| && forall i :: m <= i < |es| ==> NoSuccessAt(es, i)
    ensures var before, after := Run(es[..m]), Run(es);
      && after.acked == before.acked && before.log <= after.log
      && before.pts <= after.pts && Accepted(es) == Accepted(es[..m]) + after.pts[|before.pts|..]
    decreases |es|
  {
    if m == |es| {
      assert es[..m] == es;
      assert Run(es).pts[|Run(es).pts|..] == [];
    } else {
      var n := |es| - 1;
      assert es[..n][..m] == es[..m];
      forall i | m <= i < n ensures NoSuccessAt(es[..n], i) {
        assert NoSuccessAt(es, i) && es[..n][..i] == es[..i];
      }
      FailedCallsKeepAll(es[..n], m);
      assert NoSuccessAt(es, n);
      UnsuccessfulStep(Run(es[..n]), es[n]);
    }
  }

  /** `sub` picks the positions `at` of `log`, in order. */
  ghost predicate Embeds(sub: seq<seq<Point>>, log: seq<seq<Point>>, at: seq<nat>) {
    && |at| == |sub|
    && (forall i :: 0 <= i < |at| ==> at[i] < |log| && log[at[i]] == sub[i])
    && (forall i, j :: 0 <= i < j < |at| ==> at[i] < at[j])
  }

  /** At least once: every acknowledged batch was executed by the server, the acknowledged ones
      in the order they were sent. */
  lemma {:induction false} AckedWereDelivered(es: seq<Event>) returns (at: seq<nat>)
    ensures Embeds(Run(es).acked, Run(es).log, at)
  {
    if es == [] {
      at := [];
    } else {
      at := AckedWereDelivered(es[..|es| - 1]);
      var s, s' := Run(es[..|es| - 1]), Run(es);
      if s'.acked != s.acked {
        AckedMeansExecuted(es[|es| - 1].attempts);
        at := at + [|s.log|];
      }
    }
  }

  /** The batch is a window of the accepted points. */
  ghost predicate WindowOf(batch: seq<Point>, all: seq<Point>, offset: nat) {
    offset + |batch| <= |all| && all[offset..offset + |batch|] == batch
  }

  ghost predicate SomeWindow(batch: seq<Point>, all: seq<Point>) {
    exists offset :: WindowOf(batch, all, offset)
  }

  lemma WindowGrows(batch: seq<Point>, all: seq<Point>, more: seq<Point>)
    requires SomeWindow(batch, all)
    ensures SomeWindow(batch, all + more)
  {
    var offset: nat :| WindowOf(batch, all, offset);
    assert (all + more)[offset..offset + |batch|] == batch;
    assert WindowOf(batch, all + more, offset);
  }

  /** Retries invent nothing: whatever the server executes, duplicates included, is a contiguous
      run of accepted points in their original order. */
  lemma {:induction false} LogIsWindows(es: seq<Event>, i: nat)
    requires i < |Run(es).log|
    ensures SomeWindow(Run(es).log[i], Accepted(es))
  {
    var before := es[..|es| - 1];
    var s := Run(before);
    if i < |s.log| {
      LogIsWindows(before, i);
      if Accepted(es) == Accepted(before) {
      } else {
        WindowGrows(s.log[i], Accepted(before), [es[|es| - 1].point]);
      }
    } else {
      Conservation(before);
      assert WindowOf(s.pts, Accepted(es), |Flatten(s.acked)|);
    }
  }

  lemma {:induction false} FlattenGrows(batches: seq<seq<Point>>, batch: seq<Point>)
    ensures Flatten(batches + [batch]) == Flatten(batches) + batch
  {
    assert (batches + [batch])[..|batches|] == batches;
  }

  /** What was acknowledged after `m` events stays acknowledged, and the log only grows. */
  lemma {:induction false} AckedGrows(es: seq<Event>, m: nat)
    requires m <= |es|
    ensures |Flatten(Run(es[..m]).acked)| <= |Flatten(Run(es).acked)| && Run(es[..m]).log <= Run(es).log
    ensures Accepted(es[..m]) <= Accepted(es)
    decreases |es|
  {
    if m == |es| {
      assert es[..m] == es;
    } else {
      var n := |es| - 1;
      assert es[..n][..m] == es[..m];
      AckedGrows(es[..n], m);
      var s := Run(es[..n]);
      if Run(es).acked != s.acked {
        FlattenGrows(s.acked, s.pts);
      }
    }
  }

  lemma WindowOfMore(batch: seq<Point>, all: seq<Point>, more: seq<Point>, offset: nat)
    requires WindowOf(batch, all, offset) && all <= more
    ensures WindowOf(batch, more, offset)
  {
  }

  /** What the last event sends is what was pending. */
  lemma {:induction false} SentWindow(es: seq<Event>, i: nat)
    requires es != [] && |Run(es[..|es| - 1]).log| <= i < |Run(es).log|
    ensures WindowOf(Run(es).log[i], Accepted(es), |Flatten(Run(es[..|es| - 1]).acked)|)
  {
    Conservation(es[..|es| - 1]);
  }

  /** Acknowledged points are never sent again: whatever the server executes after event `m` is a run of
      accepted points that starts behind all those acknowledged by then. */
  lemma {:induction false} NoResend(es: seq<Event>, m: nat, i: nat) returns (offset: nat)
    requires m <= |es| && |Run(es[..m]).log| <= i < |Run(es).log|
    ensures |Flatten(Run(es[..m]).acked)| <= offset && WindowOf(Run(es).log[i], Accepted(es), offset)
    decreases |es|
  {
    assert es[..|es|] == es;
    var n := |es| - 1;
    var s := Run(es[..n]);
    assert es[..n][..m] == es[..m];
    if i < |s.log| {
      offset := NoResend(es[..n], m, i);
      AckedGrows(es, n);
      WindowOfMore(s.log[i], Accepted(es[..n]), Accepted(es), offset);
    } else {
      AckedGrows(es[..n], m);
      offset := |Flatten(s.acked)|;
      SentWindow(es, i);
    }
  }
}
