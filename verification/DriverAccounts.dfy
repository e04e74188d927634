/** What becomes of everything a driver is given: every request is finished, running or waiting,
    and no state is a dead end. What wakes a controller that waits is not part of this model: a step
    of a controller is one more look at the driver, whatever it was that made it look. */
module DriverAccounts {
  import opened QueuedDrivers

  // ------------------------------------------------------------------
  // Requests
  // ------------------------------------------------------------------

  /** The requests that one event makes, and those that it finishes. */
  function Made<Q>(e: Event<Q>): multiset<Q> {
    if e.Request? then multiset{e.request} else multiset{}
  }

  function Ended<Q>(d: Driver<Q>, e: Event<Q>): multiset<Q> {
    if e.FinishRequest? && e.r < |d.running| then multiset{d.running[e.r].request} else multiset{}
  }

  /** The requests that clients made. */
  function RequestsIn<Q>(es: seq<Event<Q>>): multiset<Q> {
    if es == [] then multiset{} else RequestsIn(es[..|es| - 1]) + Made(es[|es| - 1])
  }

  /** The requests that were finished. */
  ghost function FinishedIn<Q>(es: seq<Event<Q>>): multiset<Q> {
    if es == [] then multiset{}
    else FinishedIn(es[..|es| - 1]) + Ended(Run(Initial<Q>(), es[..|es| - 1]), es[|es| - 1])
  }

  function RequestsOf<Q>(running: seq<Running<Q>>): seq<Q> {
    seq(|running|, i requires 0 <= i < |running| => running[i].request)
  }

  /** The requests that run or wait. */
  ghost function Unfinished<Q>(d: Driver<Q>): multiset<Q> {
    multiset(RequestsOf(d.running)) + multiset(d.requestQueue)
  }

  lemma RunningMore<Q>(running: seq<Running<Q>>, r: Running<Q>)
    ensures multiset(RequestsOf(running + [r])) == multiset(RequestsOf(running)) + multiset{r.request}
  {
    assert RequestsOf(running + [r]) == RequestsOf(running) + [r.request];
  }

  lemma RunningLess<Q>(running: seq<Running<Q>>, i: nat)
    requires i < |running|
    ensures multiset(RequestsOf(running)) == multiset(RequestsOf(Without(running, i))) + multiset{running[i].request}
  {
    var rs := RequestsOf(running);
    assert rs == rs[..i] + [rs[i]] + rs[i + 1..];
    assert RequestsOf(Without(running, i)) == rs[..i] + rs[i + 1..];
  }

  lemma ControlUnfinished<Q>(d: Driver<Q>, c: nat)
    requires c < |d.controllers|
    ensures AfterControl(d, c).running == d.running && AfterControl(d, c).requestQueue == d.requestQueue
  {
  }

  lemma UnqueueUnfinished<Q>(d: Driver<Q>)
    requires d.tasks > 0
    ensures Unfinished(AfterUnqueue(d)) == Unfinished(d)
  {
    hide RequestsOf;
    if d.requestQueue != [] {
      RunningMore(d.running, Running(d.requestQueue[0], d.applied));
      assert d.requestQueue == [d.requestQueue[0]] + d.requestQueue[1..];
    }
  }

  lemma RequestUnfinished<Q>(d: Driver<Q>, q: Q)
    ensures Unfinished(AfterRequest(d, q)) == Unfinished(d) + multiset{q}
  {
    hide RequestsOf;
    RunningMore(d.running, Running(q, d.applied));
  }

  lemma StepUnfinished<Q>(d: Driver<Q>, e: Event<Q>)
    requires Enabled(d, e)
    ensures Unfinished(Step(d, e)) + (if e.FinishRequest? then multiset{d.running[e.r].request} else multiset{})
            == Unfinished(d) + (if e.Request? then multiset{e.request} else multiset{})
  {
    hide RequestsOf, AfterRequest, AfterUnqueue, AfterControl, Without;
    match e {
      case Sequence(_) =>
      case Request(q) => RequestUnfinished(d, q);
      case FinishRequest(r) => RunningLess(d.running, r);
      case Control(c) => ControlUnfinished(d, c);
      case UnqueueRequest => UnqueueUnfinished(d);
    }
  }

  lemma Balance<Q>(made: multiset<Q>, ended: multiset<Q>, rest: multiset<Q>, m: multiset<Q>, e: multiset<Q>,
                   after: multiset<Q>)
    requires made == ended + rest && after + e == rest + m
    ensures made + m == (ended + e) + after
  {
    assert ended + (after + e) == (ended + e) + after;
  }

  lemma NextUnfinished<Q>(d: Driver<Q>, e: Event<Q>)
    ensures Unfinished(if Enabled(d, e) then Step(d, e) else d) + Ended(d, e) == Unfinished(d) + Made(e)
  {
    hide Unfinished, Step;
    if Enabled(d, e) {
      StepUnfinished(d, e);
    }
  }

  lemma {:induction false} UnfinishedAccounted<Q>(es: seq<Event<Q>>)
    ensures RequestsIn(es) == FinishedIn(es) + Unfinished(Run(Initial<Q>(), es))
  {
    hide Step, Unfinished, Enabled, Made, Ended;
    if es == [] {
      NothingUnfinished<Q>();
    } else {
      var n := |es| - 1;
      UnfinishedAccounted(es[..n]);
      var p := Run(Initial<Q>(), es[..n]);
      NextUnfinished(p, es[n]);
      Balance(RequestsIn(es[..n]), FinishedIn(es[..n]), Unfinished(p), Made(es[n]), Ended(p, es[n]),
              Unfinished(Run(Initial<Q>(), es)));
    }
  }

  lemma NothingUnfinished<Q>()
    ensures Unfinished(Initial<Q>()) == multiset{}
  {
    assert RequestsOf<Q>([]) == [];
  }

  /** In every run, the requests made are those finished, those that run and those that wait. */
  lemma RequestsAccounted<Q>(es: seq<Event<Q>>)
    ensures var d := Run(Initial<Q>(), es);
            RequestsIn(es) == FinishedIn(es) + multiset(RequestsOf(d.running)) + multiset(d.requestQueue)
  {
    hide Run, RequestsIn, FinishedIn, RequestsOf;
    UnfinishedAccounted(es);
  }

  /** The requests that came while none could start, and those that left the queue to start. */
  ghost function Waited<Q>(es: seq<Event<Q>>): seq<Q> {
    if es == [] then []
    else
      var e, p := es[|es| - 1], Run(Initial<Q>(), es[..|es| - 1]);
      Waited(es[..|es| - 1]) + (if e.Request? && !p.requestPhase then [e.request] else [])
  }

  ghost function Unqueued<Q>(es: seq<Event<Q>>): seq<Q> {
    if es == [] then []
    else
      var e, p := es[|es| - 1], Run(Initial<Q>(), es[..|es| - 1]);
      Unqueued(es[..|es| - 1])
      + (if e.UnqueueRequest? && p.tasks > 0 && p.requestQueue != [] then [p.requestQueue[0]] else [])
  }

  lemma QueueStep<T>(joined: seq<T>, left: seq<T>, before: seq<T>, after: seq<T>, entering: seq<T>, leaving: seq<T>)
    requires joined == left + before && before + entering == leaving + after
    ensures joined + entering == (left + leaving) + after
  {
    assert left + (before + entering) == (left + before) + entering;
    assert left + (leaving + after) == (left + leaving) + after;
  }

  lemma NextWaiting<Q>(d: Driver<Q>, e: Event<Q>)
    ensures d.requestQueue + (if e.Request? && !d.requestPhase then [e.request] else [])
            == (if e.UnqueueRequest? && d.tasks > 0 && d.requestQueue != [] then [d.requestQueue[0]] else [])
               + (if Enabled(d, e) then Step(d, e) else d).requestQueue
  {
    if e.Control? && Enabled(d, e) {
      ControlUnfinished(d, e.c);
    }
  }

  /** Requests that have to wait start in the order in which they came. */
  lemma {:induction false} WaitInOrder<Q>(es: seq<Event<Q>>)
    ensures Waited(es) == Unqueued(es) + Run(Initial<Q>(), es).requestQueue
  {
    hide Step, Enabled;
    if es != [] {
      var n := |es| - 1;
      WaitInOrder(es[..n]);
      var e, p := es[n], Run(Initial<Q>(), es[..n]);
      NextWaiting(p, e);
      QueueStep(Waited(es[..n]), Unqueued(es[..n]), p.requestQueue, Run(Initial<Q>(), es).requestQueue,
                if e.Request? && !p.requestPhase then [e.request] else [],
                if e.UnqueueRequest? && p.tasks > 0 && p.requestQueue != [] then [p.requestQueue[0]] else []);
    }
  }

  // ------------------------------------------------------------------
  // The last completed id
  // ------------------------------------------------------------------

  /** The driver's sequence id is that of the last item which is completely applied. */
  ghost predicate CurrentIs<Q>(d: Driver<Q>) {
    var n := Completed(d);
    0 <= n <= |d.sequenced| && d.currentSequenceId == if n == 0 then 0 else d.sequenced[n - 1].sequenceId
  }

  lemma ControlCurrent<Q>(d: Driver<Q>)
    requires InOrder(d) && |d.controllers| == 1 && CurrentIs(d)
    ensures CurrentIs(AfterControl(d, 0))
  {
    hide AllOf, MutationsOf;
  }

  lemma StepCurrent<Q>(d: Driver<Q>, e: Event<Q>)
    requires Inv(d) && CurrentIs(d) && Enabled(d, e)
    ensures CurrentIs(Step(d, e))
  {
    hide AllOf, MutationsOf, AfterControl, InOrder;
    if e.Control? {
      ControlCurrent(d);
    }
  }

  lemma {:induction false} CurrentIsCompleted<Q>(es: seq<Event<Q>>)
    ensures var d := Run(Initial<Q>(), es);
            && 0 <= Completed(d) <= |SequencedIn(es)|
            && d.currentSequenceId == if Completed(d) == 0 then 0 else SequencedIn(es)[Completed(d) - 1].sequenceId
  {
    hide SequencedIn, Run, Step;
    EverythingSequenced(es);
    RunCurrent(es);
  }

  lemma {:induction false} RunCurrent<Q>(es: seq<Event<Q>>)
    ensures CurrentIs(Run(Initial<Q>(), es))
  {
    hide Step, Inv;
    if es != [] {
      var n := |es| - 1;
      RunCurrent(es[..n]);
      RunInv(es[..n]);
      if Enabled(Run(Initial<Q>(), es[..n]), es[n]) {
        StepCurrent(Run(Initial<Q>(), es[..n]), es[n]);
      }
    }
  }

  // ------------------------------------------------------------------
  // No dead ends
  // ------------------------------------------------------------------

  /** All is applied and answered, and the controller waits for more. */
  ghost predicate Idle<Q>(d: Driver<Q>) {
    && d.applied == AllOf(d.sequenced) && d.sequenceQueue == []
    && d.running == [] && d.requestQueue == []
    && d.controllers == [Process] && d.requestPhase
  }

  /** Steps of the driver, and requests that come to their end; nothing new comes in. */
  ghost predicate Internal<Q>(es: seq<Event<Q>>) {
    forall i | 0 <= i < |es| :: !es[i].Sequence? && !es[i].Request?
  }

  /** How far the controller is from its next item, or from waiting. */
  ghost function Rank<Q>(d: Driver<Q>): nat {
    if d.controllers == [] then 3
    else match d.controllers[0]
      case ProcessSequence(_, _) => 6
      case EndRequestPhase => if d.sequenceQueue == [] then 5 else 1
      case SequencePhase => if d.sequenceQueue == [] then 4 else 0
      case Process => 2
  }

  ghost function Left<Q>(d: Driver<Q>): nat
    requires Inv(d)
  {
    if d.controllers == [] then d.tasks
    else match d.controllers[0]
      case ProcessSequence(item, index) => |item.mutations| - index
      case _ => 0
  }

  ghost predicate Closer<Q>(d: Driver<Q>, u: Driver<Q>)
    requires Inv(d) && Inv(u)
  {
    || |u.sequenceQueue| < |d.sequenceQueue|
    || (|u.sequenceQueue| == |d.sequenceQueue| &&
          (|| Rank(u) < Rank(d)
           || (Rank(u) == Rank(d) && (Left(u) < Left(d) || (Left(u) == Left(d) && |u.running| < |d.running|)))))
  }

  /** Unless the driver is idle, one of its threads can bring it closer to the end. */
  lemma NextCloser<Q>(d: Driver<Q>) returns (e: Event<Q>)
    requires Inv(d) && !Idle(d)
    ensures Enabled(d, e) && !e.Sequence? && !e.Request? && Inv(Step(d, e)) && Closer(d, Step(d, e))
    ensures Step(d, e).sequenced == d.sequenced
  {
    hide AllOf, MutationsOf;
    assert d.sequenced[..|d.sequenced|] == d.sequenced;
    if d.running != [] {
      e := FinishRequest(0);
    } else if d.controllers == [] {
      e := UnqueueRequest;
    } else {
      e := Control(0);
    }
    StepInv(d, e);
  }

  lemma {:induction false} RunFirst<Q>(d: Driver<Q>, e: Event<Q>, es: seq<Event<Q>>)
    requires Enabled(d, e)
    ensures Run(d, [e] + es) == Run(Step(d, e), es)
  {
    hide Step, Enabled;
    if es == [] {
      assert [e] + es == [e] && [e][..0] == [];
    } else {
      var n := |es| - 1;
      RunFirst(d, e, es[..n]);
      assert ([e] + es)[..n + 1] == [e] + es[..n];
    }
  }

  lemma {:induction false} Finish<Q>(d: Driver<Q>) returns (es: seq<Event<Q>>)
    requires Inv(d)
    ensures Internal(es) && Idle(Run(d, es)) && Run(d, es).sequenced == d.sequenced
    decreases |d.sequenceQueue|, Rank(d), Left(d), |d.running|
  {
    hide AllOf, MutationsOf, Inv, Step, Enabled, Idle, InOrder;
    if Idle(d) {
      es := [];
    } else {
      var e := NextCloser(d);
      var rest := Finish(Step(d, e));
      RunFirst(d, e, rest);
      es := [e] + rest;
    }
  }

  lemma {:induction false} RunTwice<Q>(d: Driver<Q>, es: seq<Event<Q>>, more: seq<Event<Q>>)
    ensures Run(d, es + more) == Run(Run(d, es), more)
  {
    hide Step, Enabled;
    if more == [] {
      assert es + more == es;
    } else {
      var n := |more| - 1;
      RunTwice(d, es, more[..n]);
      assert (es + more)[..|es| + n] == es + more[..n];
    }
  }

  lemma MakesNothing<Q>(e: Event<Q>)
    requires !e.Request?
    ensures Made(e) == multiset{}
  {
  }

  lemma {:induction false} InternalRequests<Q>(es: seq<Event<Q>>, more: seq<Event<Q>>)
    requires Internal(more)
    ensures RequestsIn(es + more) == RequestsIn(es)
  {
    hide Made;
    if more == [] {
      assert es + more == es;
    } else {
      var n := |more| - 1;
      InternalRequests(es, more[..n]);
      assert (es + more)[..|es| + n] == es + more[..n];
      MakesNothing(more[n]);
    }
  }

  /** No reachable state is a dead end: with nothing new coming in there are steps, from each of them,
      after which everything the driver was given is applied, in order, and every request that was
      made is finished. This is about what is possible, not about what must happen: that a waiting
      controller looks again is up to what wakes it. */
  lemma CanFinish<Q>(es: seq<Event<Q>>) returns (more: seq<Event<Q>>)
    ensures Internal(more)
    ensures Run(Initial<Q>(), es + more).applied == AllOf(SequencedIn(es))
    ensures FinishedIn(es + more) == RequestsIn(es)
  {
    hide AllOf, MutationsOf, Run, SequencedIn, Inv, RequestsIn, FinishedIn;
    var d := Run(Initial<Q>(), es);
    RunInv(es);
    more := Finish(d);
    RunTwice(Initial<Q>(), es, more);
    EverythingSequenced(es);
    RequestsAccounted(es + more);
    InternalRequests(es, more);
    assert RequestsOf<Q>([]) == [];
  }
}
