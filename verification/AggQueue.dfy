/**
 The server queue between `Enqueue` and `agg` of pkg/server/aggregator.go, access by access.

 `Enqueue` holds the mutex while it loads the queue and then stores the appended one. The
 aggregation loop takes the mutex, folds the queue, releases the mutex and only then, without it,
 stores an empty queue: that store can fall between the two accesses of an `Enqueue`. Batches are
 numbered in the order they are enqueued. `insideLock` is the machine in which the reset happens
 before the unlock.
 */
module AggQueue {
  import opened Common
  import D = Delivery

  datatype Phase = Idle | Locked | Window(folded: nat)

  datatype State = State(
    count: nat,                 // batches enqueued so far
    queue: seq<nat>,
    loaded: Option<seq<nat>>,   // the queue as the `Enqueue` under way loaded it
    torn: bool,                 // a reset has happened since that load
    phase: Phase,
    aggregated: seq<nat>,       // folded batches, in order
    lost: seq<nat>)             // batches that a reset dropped before they were folded

  datatype Event = EnqueueRead | EnqueueWrite | Skip | Lock | FoldUnlock | Reset

  const INIT := State(0, [], None, false, Idle, [], [])

  /** Batches queued but not folded. */
  function Waiting(s: State): seq<nat> {
    if s.phase.Window? && s.phase.folded <= |s.queue| then s.queue[s.phase.folded..] else s.queue
  }

  /** `Lock` includes the length test before it: only the loop itself ever shortens the queue. */
  predicate Enabled(s: State, e: Event) {
    match e
    case EnqueueRead => !s.phase.Locked? && s.loaded.None?
    case EnqueueWrite => s.loaded.Some?
    case Skip => s.phase.Idle? && s.queue == []
    case Lock => s.phase.Idle? && s.queue != [] && s.loaded.None?
    case FoldUnlock => s.phase.Locked?
    case Reset => s.phase.Window?
  }

  function Apply(s: State, e: Event, insideLock: bool): State
    requires Enabled(s, e)
  {
    match e
    case EnqueueRead => s.(loaded := Some(s.queue))
    case EnqueueWrite => s.(count := s.count + 1, queue := s.loaded.value + [s.count], loaded := None, torn := false)
    case Skip => s
    case Lock => s.(phase := Locked)
    case FoldUnlock =>
      if insideLock then s.(phase := Idle, aggregated := s.aggregated + s.queue, queue := [])
      else s.(phase := Window(|s.queue|), aggregated := s.aggregated + s.queue)
    case Reset => s.(phase := Idle, lost := s.lost + Waiting(s), queue := [], torn := s.loaded.Some?)
  }

  ghost predicate StepAt(ss: seq<State>, es: seq<Event>, insideLock: bool, i: int)
    requires |ss| == |es| + 1 && 0 <= i < |es|
  {
    Enabled(ss[i], es[i]) && ss[i + 1] == Apply(ss[i], es[i], insideLock)
  }

  /** `ss` is the run over the events `es`, in any interleaving of reporters and the loop. */
  ghost predicate Behavior(ss: seq<State>, es: seq<Event>, insideLock: bool) {
    && |ss| == |es| + 1
    && ss[0] == INIT
    && forall i :: 0 <= i < |es| ==> StepAt(ss, es, insideLock, i)
  }

  // ----- what holds in every run -----

  /** `xs` ends in `ys`. */
  ghost predicate EndsIn(xs: seq<nat>, ys: seq<nat>) {
    |ys| <= |xs| && xs[|xs| - |ys|..] == ys
  }

  /** A queue of `folded` batches that were just aggregated, at least one, and then others. */
  ghost predicate FoldedFirst(queue: seq<nat>, folded: nat, aggregated: seq<nat>) {
    0 < folded <= |queue| && EndsIn(aggregated, queue[..folded])
  }

  /** A torn load: batches that were just aggregated, and behind them those the reset dropped. */
  ghost predicate TornLoad(s: State, loaded: seq<nat>, folded: nat) {
    FoldedFirst(loaded, folded, s.aggregated) && EndsIn(s.lost, loaded[folded..])
  }

  /** Where the loop and the `Enqueue` under way stand to each other. */
  ghost predicate Coherent(s: State) {
    && (s.phase.Locked? ==> s.queue != [] && s.loaded.None?)
    && (s.phase.Window? ==> FoldedFirst(s.queue, s.phase.folded, s.aggregated) && !s.torn)
    && (s.loaded.None? ==> !s.torn)
    && (s.loaded.Some? && !s.torn ==> s.loaded.value == s.queue)
    && (s.torn ==> s.phase.Idle? && s.queue == [] && exists f :: TornLoad(s, s.loaded.value, f))
  }

  lemma CoherentStep(s: State, e: Event, insideLock: bool)
    requires Enabled(s, e) && Coherent(s)
    ensures Coherent(Apply(s, e, insideLock))
  {
    var s' := Apply(s, e, insideLock);
    match e
    case EnqueueWrite =>
      assert s.phase.Window? ==> s'.queue[..s.phase.folded] == s.queue[..s.phase.folded];
    case FoldUnlock =>
      assert s.queue[..|s.queue|] == s.queue;
      assert (s.aggregated + s.queue)[|s.aggregated|..] == s.queue;
    case Reset =>
      assert (s.lost + Waiting(s))[|s.lost|..] == Waiting(s);
      assert s.loaded.Some? ==> TornLoad(s', s.queue, s.phase.folded);
    case _ =>
      assert forall loaded, f :: TornLoad(s, loaded, f) ==> TornLoad(s', loaded, f);
  }

  lemma {:induction false} AlwaysCoherent(ss: seq<State>, es: seq<Event>, insideLock: bool, n: nat)
    requires Behavior(ss, es, insideLock) && n <= |es|
    ensures Coherent(ss[n])
  {
    if n > 0 {
      AlwaysCoherent(ss, es, insideLock, n - 1);
      assert StepAt(ss, es, insideLock, n - 1);
      CoherentStep(ss[n - 1], es[n - 1], insideLock);
    }
  }

  ghost predicate Known(s: State, b: nat) {
    b in s.aggregated || b in s.lost || b in s.queue
  }

  /** Whatever the interleaving, each enqueued batch was aggregated, dropped by a reset, or is queued. */
  lemma {:induction false} NoBatchForgotten(ss: seq<State>, es: seq<Event>, insideLock: bool, n: nat, b: nat)
    requires Behavior(ss, es, insideLock) && n <= |es| && b < ss[n].count
    ensures Known(ss[n], b)
  {
    var s, e := ss[n - 1], es[n - 1];
    assert StepAt(ss, es, insideLock, n - 1);
    AlwaysCoherent(ss, es, insideLock, n - 1);
    if b < s.count {
      NoBatchForgotten(ss, es, insideLock, n - 1, b);
      if e.Reset? && b in s.queue {
        assert s.queue == s.queue[..s.phase.folded] + Waiting(s);
        assert b in s.queue[..s.phase.folded] ==> b in s.aggregated;
      }
    } else {
      assert ss[n].queue[|ss[n].queue| - 1] == b;
    }
  }

  // ----- the accounting -----

  ghost predicate Increasing(xs: seq<nat>) {
    forall i, j :: 0 <= i < j < |xs| ==> xs[i] < xs[j]
  }

  /** Exactly one of the two. */
  ghost predicate Settled(s: State, b: nat) {
    b in s.aggregated <==> b !in s.lost
  }

  /** No batch was aggregated twice, and each is aggregated, lost or waiting, exactly one of the three. */
  ghost predicate Accounted(s: State) {
    var settled := s.count - |Waiting(s)|;
    && settled >= 0
    && (forall i :: 0 <= i < |Waiting(s)| ==> Waiting(s)[i] == settled + i)
    && Increasing(s.aggregated) && Increasing(s.lost)
    && (forall i :: 0 <= i < |s.aggregated| ==> s.aggregated[i] < settled)
    && (forall i :: 0 <= i < |s.lost| ==> s.lost[i] < settled)
    && (forall b: nat :: b < settled ==> Settled(s, b))
  }

  lemma SettledMore(a: seq<nat>, l: seq<nat>, w: seq<nat>, from: nat, b: nat)
    requires forall i :: 0 <= i < |w| ==> w[i] == from + i
    requires forall i :: 0 <= i < |a| ==> a[i] < from
    requires forall i :: 0 <= i < |l| ==> l[i] < from
    requires b < from ==> (b in a <==> b !in l)
    requires b < from + |w|
    ensures b in a + w <==> b !in l
    ensures b in a <==> b !in l + w
  {
    if b >= from {
      assert w[b - from] == b;
    }
  }

  /** What a step that is not a torn write does to the waiting batches. */
  lemma WaitingStep(s: State, e: Event, insideLock: bool)
    requires Enabled(s, e) && Coherent(s) && !(e.EnqueueWrite? && s.torn)
    ensures var w := Waiting(Apply(s, e, insideLock));
      if e.EnqueueWrite? then w == Waiting(s) + [s.count]
      else if e.FoldUnlock? || e.Reset? then w == []
      else w == Waiting(s)
  {
    assert e.FoldUnlock? ==> s.queue[|s.queue|..] == [];
  }

  lemma AccountedStep(s: State, e: Event, insideLock: bool)
    requires Enabled(s, e) && Coherent(s) && Accounted(s) && !(e.EnqueueWrite? && s.torn)
    ensures Accounted(Apply(s, e, insideLock))
  {
    WaitingStep(s, e, insideLock);
    if e.FoldUnlock? || e.Reset? {
      MoveWaiting(s, e, insideLock);
    } else {
      var s' := Apply(s, e, insideLock);
      forall b: nat | b < s.count - |Waiting(s)| ensures Settled(s', b) {
        assert Settled(s, b);
      }
    }
  }

  lemma MoveWaiting(s: State, e: Event, insideLock: bool)
    requires Enabled(s, e) && Coherent(s) && Accounted(s) && (e.FoldUnlock? || e.Reset?)
    requires Waiting(Apply(s, e, insideLock)) == []
    ensures Accounted(Apply(s, e, insideLock))
  {
    var s' := Apply(s, e, insideLock);
    var settled := s.count - |Waiting(s)|;
    forall b: nat | b < s.count ensures Settled(s', b) {
      assert b < settled ==> Settled(s, b);
      SettledMore(s.aggregated, s.lost, Waiting(s), settled, b);
    }
  }

  // ----- torn writes -----

  /** A reset at `j` falls between a load at `i` and its store at `k`. */
  ghost predicate Straddles(es: seq<Event>, i: int, j: int, k: int) {
    && 0 <= i < j < k < |es|
    && es[i].EnqueueRead? && es[j].Reset? && es[k].EnqueueWrite?
    && forall m :: i < m < k ==> !es[m].EnqueueWrite?
  }

  /** No store among the first `n` events is torn from its load by a reset. */
  ghost predicate NoneStraddles(es: seq<Event>, n: nat) {
    forall i, j, k :: k < n ==> !Straddles(es, i, j, k)
  }

  ghost predicate LoadedAt(es: seq<Event>, n: nat, i: int) {
    && 0 <= i < n <= |es| && es[i].EnqueueRead?
    && forall m :: i < m < n ==> !es[m].EnqueueWrite? && !es[m].EnqueueRead?
  }

  ghost predicate ResetAfter(es: seq<Event>, i: int, j: int, n: nat) {
    0 <= i < j < n <= |es| && es[j].Reset?
  }

  /** The load an `Enqueue` under way has made, and whether a reset came after it. */
  lemma {:induction false} FindLoad(ss: seq<State>, es: seq<Event>, insideLock: bool, n: nat) returns (i: nat)
    requires Behavior(ss, es, insideLock) && n <= |es| && ss[n].loaded.Some?
    ensures LoadedAt(es, n, i)
    ensures ss[n].torn <==> exists j :: ResetAfter(es, i, j, n)
  {
    var m := n - 1;
    assert StepAt(ss, es, insideLock, m);
    AlwaysCoherent(ss, es, insideLock, m);
    if es[m].EnqueueRead? {
      i := m;
    } else {
      i := FindLoad(ss, es, insideLock, m);
      forall j ensures ResetAfter(es, i, j, n) <==> ResetAfter(es, i, j, m) || (j == m && es[m].Reset?) {
      }
      AlwaysCoherent(ss, es, insideLock, n);
      assert es[m].Reset? ==> ResetAfter(es, i, m, n);
    }
  }

  /** A store is torn exactly when a reset falls between it and its load. */
  lemma TornExactly(ss: seq<State>, es: seq<Event>, insideLock: bool, k: nat)
    requires Behavior(ss, es, insideLock) && k < |es| && es[k].EnqueueWrite?
    ensures ss[k].torn <==> exists i, j :: Straddles(es, i, j, k)
  {
    assert StepAt(ss, es, insideLock, k);
    var i := FindLoad(ss, es, insideLock, k);
    if ss[k].torn {
      var j :| ResetAfter(es, i, j, k);
      assert Straddles(es, i, j, k);
    }
    forall i', j | Straddles(es, i', j, k) ensures ss[k].torn {
      OneLoad(ss, es, insideLock, i, i', k);
      assert ResetAfter(es, i, j, k);
    }
  }

  /** Under the mutex there is only one load per store. */
  lemma OneLoad(ss: seq<State>, es: seq<Event>, insideLock: bool, i: nat, i': int, k: nat)
    requires Behavior(ss, es, insideLock) && LoadedAt(es, k, i)
    requires 0 <= i' < k && es[i'].EnqueueRead? && forall m :: i' < m < k ==> !es[m].EnqueueWrite?
    ensures i == i'
  {
    assert StepAt(ss, es, insideLock, i);
    if i' < i {
      StaysLoaded(ss, es, insideLock, i', i);
    }
  }

  lemma {:induction false} StaysLoaded(ss: seq<State>, es: seq<Event>, insideLock: bool, i: nat, n: nat)
    requires Behavior(ss, es, insideLock) && i < n <= |es| && es[i].EnqueueRead?
    requires forall m :: i < m < n ==> !es[m].EnqueueWrite?
    ensures ss[n].loaded.Some?
    decreases n
  {
    assert StepAt(ss, es, insideLock, n - 1);
    if n > i + 1 {
      StaysLoaded(ss, es, insideLock, i, n - 1);
    }
  }

  /** A torn store brings batches back: the queue then holds batches that were already aggregated, at
      least one, next the batches the reset had dropped, and last the new one. */
  lemma TornWriteRestores(ss: seq<State>, es: seq<Event>, insideLock: bool, i: int, j: int, k: nat)
    returns (folded: nat)
    requires Behavior(ss, es, insideLock) && Straddles(es, i, j, k)
    ensures var loaded := ss[k].loaded; loaded.Some? && TornLoad(ss[k], loaded.value, folded)
    ensures ss[k + 1].queue == ss[k].loaded.value + [ss[k].count] && ss[k + 1].phase.Idle?
    ensures !Accounted(ss[k + 1])
  {
    TornExactly(ss, es, insideLock, k);
    AlwaysCoherent(ss, es, insideLock, k);
    assert StepAt(ss, es, insideLock, k);
    folded :| TornLoad(ss[k], ss[k].loaded.value, folded);
    var s, s' := ss[k], ss[k + 1];
    var b := s.loaded.value[0];
    assert s.loaded.value[..folded][0] == b && s.aggregated[|s.aggregated| - folded..][0] == b;
    assert Waiting(s')[0] == b && b in s'.aggregated;
  }

  // ----- the fate of a batch -----

  /** The batch was dropped, or sits behind the folded part of a queue about to be dropped. */
  ghost predicate Doomed(s: State, b: nat) {
    b in s.lost || (s.phase.Window? && b in Waiting(s))
  }

  /** Until state `n` the accounting holds, and a batch is doomed exactly if it was stored between an
      unlock and its reset. */
  ghost predicate Faithful(ss: seq<State>, es: seq<Event>, n: nat)
    requires |ss| == |es| + 1 && n <= |es|
  {
    && (forall m :: 0 <= m <= n ==> Accounted(ss[m]))
    && (forall j, m :: 0 <= j < m <= n && es[j].EnqueueWrite? ==> DoomedInWindow(ss, j, m))
  }

  ghost predicate DoomedInWindow(ss: seq<State>, j: int, m: int)
    requires 0 <= j < |ss| && 0 <= m < |ss|
  {
    Doomed(ss[m], ss[j].count) <==> ss[j].phase.Window?
  }

  lemma AccountedNext(ss: seq<State>, es: seq<Event>, insideLock: bool, m: nat)
    requires Behavior(ss, es, insideLock) && m < |es| && !(es[m].EnqueueWrite? && ss[m].torn)
    requires Accounted(ss[m])
    ensures Accounted(ss[m + 1])
  {
    AlwaysCoherent(ss, es, insideLock, m);
    assert StepAt(ss, es, insideLock, m);
    AccountedStep(ss[m], es[m], insideLock);
  }

  lemma {:induction false} AccountedUntil(ss: seq<State>, es: seq<Event>, insideLock: bool, n: nat, m: nat)
    requires Behavior(ss, es, insideLock) && m <= n <= |es| && NoneStraddles(es, n)
    ensures Accounted(ss[m])
    decreases m
  {
    if m > 0 {
      AccountedUntil(ss, es, insideLock, n, m - 1);
      NotTorn(ss, es, insideLock, n, m - 1);
      AccountedNext(ss, es, insideLock, m - 1);
    }
  }

  lemma NotTorn(ss: seq<State>, es: seq<Event>, insideLock: bool, n: nat, k: nat)
    requires Behavior(ss, es, insideLock) && k < n <= |es| && NoneStraddles(es, n)
    ensures !(es[k].EnqueueWrite? && ss[k].torn)
  {
    if es[k].EnqueueWrite? {
      TornExactly(ss, es, insideLock, k);
    }
  }

  lemma {:induction false} FateUntil(ss: seq<State>, es: seq<Event>, n: nat, j: nat, m: nat)
    requires Behavior(ss, es, false) && j < m <= n <= |es| && es[j].EnqueueWrite? && NoneStraddles(es, n)
    ensures DoomedInWindow(ss, j, m) && ss[j].count < ss[m].count
    decreases m
  {
    var b := ss[j].count;
    AccountedUntil(ss, es, false, n, m - 1);
    AlwaysCoherent(ss, es, false, m - 1);
    NotTorn(ss, es, false, n, m - 1);
    assert StepAt(ss, es, false, m - 1);
    if m == j + 1 {
      WaitingStep(ss[j], es[j], false);
      assert Waiting(ss[m])[|Waiting(ss[m])| - 1] == b;
    } else {
      FateUntil(ss, es, n, j, m - 1);
      FateStep(ss[m - 1], es[m - 1], b);
    }
  }

  lemma FateStep(s: State, e: Event, b: nat)
    requires Enabled(s, e) && Coherent(s) && Accounted(s) && b < s.count && !(e.EnqueueWrite? && s.torn)
    ensures Doomed(Apply(s, e, false), b) <==> Doomed(s, b)
    ensures b < Apply(s, e, false).count
  {
    WaitingStep(s, e, false);
  }

  /** The accounting and the exact loss window hold in a run if and only if no reset falls between
      the load and the store of one `Enqueue`. */
  lemma FaithfulExactly(ss: seq<State>, es: seq<Event>, n: nat)
    requires Behavior(ss, es, false) && n <= |es|
    ensures Faithful(ss, es, n) <==> NoneStraddles(es, n)
  {
    if NoneStraddles(es, n) {
      forall m | 0 <= m <= n ensures Accounted(ss[m]) {
        AccountedUntil(ss, es, false, n, m);
      }
      forall j, m | 0 <= j < m <= n && es[j].EnqueueWrite? ensures DoomedInWindow(ss, j, m) {
        FateUntil(ss, es, n, j, m);
      }
    } else {
      var i, j, k :| k < n && Straddles(es, i, j, k);
      var folded := TornWriteRestores(ss, es, false, i, j, k);
    }
  }

  /** With the reset inside the lock nothing is ever lost: aggregated batches followed by the
      queue are all batches in order. */
  lemma {:induction false} InsideLockLosesNothing(ss: seq<State>, es: seq<Event>, n: nat)
    requires Behavior(ss, es, true) && n <= |es|
    ensures var s := ss[n]; s.lost == [] && !s.phase.Window? && s.aggregated + s.queue == seq(s.count, i => i)
  {
    if n > 0 {
      InsideLockLosesNothing(ss, es, n - 1);
      AlwaysCoherent(ss, es, true, n - 1);
      assert StepAt(ss, es, true, n - 1);
      var s, s' := ss[n - 1], ss[n];
      if es[n - 1].EnqueueWrite? {
        NeverTornInsideLock(ss, es, n - 1);
        assert s'.aggregated + s'.queue == s.aggregated + s.queue + [s.count];
      }
    }
  }

  lemma {:induction false} NeverTornInsideLock(ss: seq<State>, es: seq<Event>, n: nat)
    requires Behavior(ss, es, true) && n <= |es|
    ensures !ss[n].torn && !ss[n].phase.Window?
  {
    if n > 0 {
      NeverTornInsideLock(ss, es, n - 1);
      assert StepAt(ss, es, true, n - 1);
    }
  }

  // ----- runs of the code's own machine -----

  /** A run can be continued by any enabled event. */
  lemma Extend(ss: seq<State>, es: seq<Event>, e: Event) returns (ss': seq<State>, es': seq<Event>)
    requires Behavior(ss, es, false) && Enabled(ss[|es|], e)
    ensures Behavior(ss', es', false) && es' == es + [e]
    ensures ss'[|es'|] == Apply(ss[|es|], e, false)
  {
    ss', es' := ss + [Apply(ss[|es|], e, false)], es + [e];
    forall i | 0 <= i < |es'| ensures StepAt(ss', es', false, i) {
      assert i < |es| ==> StepAt(ss, es, false, i);
    }
  }

  /** The first batch has been folded and the mutex released. */
  lemma FirstBatchFolded() returns (ss: seq<State>, es: seq<Event>)
    ensures Behavior(ss, es, false) && ss[|es|] == State(1, [0], None, false, Window(1), [0], [])
    ensures es == [EnqueueRead, EnqueueWrite, Lock, FoldUnlock]
  {
    assert Behavior([INIT], [], false);
    ss, es := Extend([INIT], [], EnqueueRead);
    ss, es := Extend(ss, es, EnqueueWrite);
    ss, es := Extend(ss, es, Lock);
    ss, es := Extend(ss, es, FoldUnlock);
  }

  /** An `Enqueue` inside the window: its batch is never aggregated. */
  lemma WindowLosesABatch() returns (ss: seq<State>, es: seq<Event>)
    ensures Behavior(ss, es, false) && NoneStraddles(es, |es|)
    ensures ss[|es|].lost == [1] && ss[|es|].aggregated == [0] && ss[|es|].queue == []
  {
    ss, es := FirstBatchFolded();
    ss, es := Extend(ss, es, EnqueueRead);
    ss, es := Extend(ss, es, EnqueueWrite);
    ss, es := Extend(ss, es, Reset);
    assert forall j :: 0 <= j < |es| && es[j].Reset? ==> j == |es| - 1;
  }

  /** An `Enqueue` around the reset: the batch survives, and the first one is aggregated twice. */
  lemma TornWriteAggregatesTwice() returns (ss: seq<State>, es: seq<Event>)
    ensures Behavior(ss, es, false) && ss[|es|].aggregated == [0, 0, 1] && ss[|es|].lost == []
  {
    ss, es := FirstBatchFolded();
    ss, es := Extend(ss, es, EnqueueRead);
    ss, es := Extend(ss, es, Reset);
    ss, es := Extend(ss, es, EnqueueWrite);
    ss, es := Extend(ss, es, Lock);
    ss, es := Extend(ss, es, FoldUnlock);
  }

  /** End to end: batch `i` of the server is `contents[i]`, and one agent's executed calls are
      among them at the positions `from`. Then each batch the agent saw acknowledged has a server
      number, and was aggregated, dropped by a reset or is queued. */
  lemma AcknowledgedBatchFate(ss: seq<State>, es: seq<Event>, n: nat, agent: seq<D.Event>,
                              contents: seq<seq<D.Point>>, from: seq<nat>, a: nat)
    returns (b: nat)
    requires Behavior(ss, es, false) && n <= |es| && |contents| == ss[n].count
    requires D.Embeds(D.Run(agent).log, contents, from) && a < |D.Run(agent).acked|
    ensures b < ss[n].count && contents[b] == D.Run(agent).acked[a]
    ensures Known(ss[n], b)
  {
    var at := D.AckedWereDelivered(agent);
    b := from[at[a]];
    NoBatchForgotten(ss, es, false, n, b);
  }
}
