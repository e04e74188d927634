/** The phase protocol of the storage and view drivers: requests run together, sequence items
    run alone, and a burst of pool tasks hands the control back.
    Every step is what one thread does while it holds the driver's lock. */
module QueuedDrivers {
  import opened DbTypes

  /** A committed transaction, as the engine delivers it. */
  datatype Item = Item(sequenceId: int, mutations: seq<Mutation>)

  /** One mutation as it was applied. */
  datatype Applied = Applied(sequenceId: int, mutation: Mutation)

  /** Where a process closure stands. */
  datatype Controller =
    | Process
    | EndRequestPhase
    | SequencePhase
    | ProcessSequence(item: Item, index: nat)

  /** A request that runs, and the mutations that had been applied when it started. */
  datatype Running<Q> = Running(request: Q, start: seq<Applied>)

  datatype Driver<Q> = Driver(
    requestPhase: bool,
    activeRequests: int,
    requestQueue: seq<Q>,
    sequenceQueue: seq<Item>,
    controllers: seq<Controller>,
    // `unqueueRequest` tasks in the pool
    tasks: nat,
    running: seq<Running<Q>>,
    currentSequenceId: int,
    // everything ever sequenced, and everything applied so far
    sequenced: seq<Item>,
    applied: seq<Applied>)

  function Initial<Q>(): Driver<Q> {
    Driver(true, 0, [], [], [Process], 0, [], 0, [], [])
  }

  function Without<T>(s: seq<T>, i: nat): (t: seq<T>)
    requires i < |s|
    ensures |t| == |s| - 1 && forall x | x in t :: x in s
  {
    s[..i] + s[i + 1..]
  }

  // ------------------------------------------------------------------
  // Steps
  // ------------------------------------------------------------------

  datatype Event<Q> =
    | Sequence(item: Item)
    | Request(request: Q)
    | FinishRequest(r: nat)
    | Control(c: nat)
    | UnqueueRequest

  ghost predicate Enabled<Q>(d: Driver<Q>, e: Event<Q>) {
    match e
    case Sequence(_) => true
    case Request(_) => true
    case FinishRequest(r) => r < |d.running|
    case Control(c) => c < |d.controllers|
    case UnqueueRequest => d.tasks > 0
  }

  function Started<Q>(d: Driver<Q>, q: Q): Driver<Q> {
    d.(activeRequests := d.activeRequests + 1, running := d.running + [Running(q, d.applied)])
  }

  function AfterRequest<Q>(d: Driver<Q>, q: Q): Driver<Q> {
    if d.requestPhase then Started(d, q) else d.(requestQueue := d.requestQueue + [q])
  }

  function AfterControl<Q>(d: Driver<Q>, c: nat): Driver<Q>
    requires c < |d.controllers|
  {
    match d.controllers[c]
    case Process =>
      if d.sequenceQueue != [] then d.(requestPhase := false, controllers := d.controllers[c := EndRequestPhase])
      else d
    case EndRequestPhase =>
      if d.activeRequests == 0 then d.(controllers := d.controllers[c := SequencePhase]) else d
    case SequencePhase =>
      if d.sequenceQueue == [] then
        d.(requestPhase := true, tasks := d.tasks + |d.requestQueue| + 1, controllers := Without(d.controllers, c))
      else
        d.(sequenceQueue := d.sequenceQueue[1..],
           controllers := d.controllers[c := ProcessSequence(d.sequenceQueue[0], 0)])
    case ProcessSequence(item, index) =>
      if index >= |item.mutations| then
        d.(currentSequenceId := item.sequenceId, controllers := d.controllers[c := SequencePhase])
      else
        d.(applied := d.applied + [Applied(item.sequenceId, item.mutations[index])],
           controllers := d.controllers[c := ProcessSequence(item, index + 1)])
  }

  function AfterUnqueue<Q>(d: Driver<Q>): Driver<Q>
    requires d.tasks > 0
  {
    var e := d.(tasks := d.tasks - 1);
    if d.requestQueue == [] then e.(controllers := d.controllers + [Process])
    else Started(e.(requestQueue := d.requestQueue[1..]), d.requestQueue[0])
  }

  ghost function Step<Q>(d: Driver<Q>, e: Event<Q>): Driver<Q>
    requires Enabled(d, e)
  {
    match e
    case Sequence(item) => d.(sequenceQueue := d.sequenceQueue + [item], sequenced := d.sequenced + [item])
    case Request(q) => AfterRequest(d, q)
    case FinishRequest(r) => d.(activeRequests := d.activeRequests - 1, running := Without(d.running, r))
    case Control(c) => AfterControl(d, c)
    case UnqueueRequest => AfterUnqueue(d)
  }

  /** A run: which events happened, in order. Events that are not enabled do not happen. */
  ghost function Run<Q>(d: Driver<Q>, es: seq<Event<Q>>): Driver<Q> {
    if es == [] then d
    else
      var p := Run(d, es[..|es| - 1]);
      if Enabled(p, es[|es| - 1]) then Step(p, es[|es| - 1]) else p
  }

  // ------------------------------------------------------------------
  // What every reachable state keeps
  // ------------------------------------------------------------------

  ghost function MutationsOf(item: Item, n: nat): seq<Applied>
    requires n <= |item.mutations|
  {
    seq(n, i requires 0 <= i < |item.mutations| => Applied(item.sequenceId, item.mutations[i]))
  }

  /** All mutations of some items, in order. */
  ghost function AllOf(items: seq<Item>): seq<Applied> {
    if items == [] then []
    else AllOf(items[..|items| - 1]) + MutationsOf(items[|items| - 1], |items[|items| - 1].mutations|)
  }

  /** How many items are completely applied. */
  ghost function Completed<Q>(d: Driver<Q>): int {
    |d.sequenced| - |d.sequenceQueue| - (if d.controllers != [] && d.controllers[0].ProcessSequence? then 1 else 0)
  }

  /** The items wait and are applied in the order in which they were sequenced; of the one
      at work a prefix is applied, of those before it everything, of those behind it nothing. */
  ghost predicate InOrder<Q>(d: Driver<Q>) {
    var n := Completed(d);
    && 0 <= n
    && d.sequenceQueue == d.sequenced[|d.sequenced| - |d.sequenceQueue|..]
    && if d.controllers != [] && d.controllers[0].ProcessSequence? then
         && d.sequenced[n] == d.controllers[0].item
         && d.controllers[0].index <= |d.controllers[0].item.mutations|
         && d.applied == AllOf(d.sequenced[..n]) + MutationsOf(d.controllers[0].item, d.controllers[0].index)
       else
         d.applied == AllOf(d.sequenced[..n])
  }

  /** Whether a controller is past the request phase, and whether it works alone. */
  ghost predicate Alone(c: Controller) {
    c.SequencePhase? || c.ProcessSequence?
  }

  ghost predicate Inv<Q>(d: Driver<Q>) {
    && d.activeRequests == |d.running|
    // one controller, or the burst of tasks of which one becomes the controller
    && (if d.controllers == [] then d.requestPhase && d.tasks == |d.requestQueue| + 1
        else |d.controllers| == 1 && d.tasks == 0)
    && (d.controllers != [] ==>
          && (d.requestPhase <==> d.controllers[0].Process?)
          && (d.requestPhase ==> d.requestQueue == [])
          && (Alone(d.controllers[0]) ==> d.running == []))
    && InOrder(d)
    // whoever runs still sees what it saw at the start
    && (forall r | r in d.running :: r.start == d.applied)
  }

  lemma InitialInv<Q>()
    ensures Inv(Initial<Q>())
  {
    var d := Initial<Q>();
    assert Completed(d) == 0 && d.sequenced[..0] == [] && d.sequenced[0..] == [];
    assert InOrder(d);
  }

  lemma {:induction false} MutationsGrow(item: Item, n: nat)
    requires n < |item.mutations|
    ensures MutationsOf(item, n + 1) == MutationsOf(item, n) + [Applied(item.sequenceId, item.mutations[n])]
  {
  }

  lemma StepInv<Q>(d: Driver<Q>, e: Event<Q>)
    requires Inv(d) && Enabled(d, e)
    ensures Inv(Step(d, e))
  {
    hide AllOf, MutationsOf, InOrder;
    StepInOrder(d, e);
  }

  lemma StepInOrder<Q>(d: Driver<Q>, e: Event<Q>)
    requires Inv(d) && Enabled(d, e)
    ensures InOrder(Step(d, e))
  {
    hide AllOf, MutationsOf;
    match e {
      case Sequence(item) => SequenceInOrder(d, item);
      case Request(_) =>
      case FinishRequest(_) =>
      case Control(c) => ControlInOrder(d);
      case UnqueueRequest =>
    }
  }

  lemma SequenceInOrder<Q>(d: Driver<Q>, item: Item)
    requires InOrder(d)
    ensures InOrder(d.(sequenceQueue := d.sequenceQueue + [item], sequenced := d.sequenced + [item]))
  {
    hide AllOf, MutationsOf;
    var n := Completed(d);
    assert (d.sequenced + [item])[..n] == d.sequenced[..n];
    var k := |d.sequenced| - |d.sequenceQueue|;
    assert (d.sequenced + [item])[k..] == d.sequenced[k..] + [item];
  }

  lemma ControlInOrder<Q>(d: Driver<Q>)
    requires Inv(d) && d.controllers != []
    ensures InOrder(AfterControl(d, 0))
  {
    match d.controllers[0] {
      case Process =>
      case EndRequestPhase =>
      case SequencePhase => TakenInOrder(d);
      case ProcessSequence(_, _) => AppliedInPlace(d);
    }
  }

  lemma TakenInOrder<Q>(d: Driver<Q>)
    requires InOrder(d) && |d.controllers| == 1 && d.controllers[0].SequencePhase?
    ensures InOrder(AfterControl(d, 0))
  {
    hide AllOf;
    if d.sequenceQueue != [] {
      var n := Completed(d);
      assert d.sequenced[n] == d.sequenceQueue[0];
      assert d.sequenced[n + 1..] == d.sequenceQueue[1..];
    }
  }

  lemma AppliedInPlace<Q>(d: Driver<Q>)
    requires InOrder(d) && |d.controllers| == 1 && d.controllers[0].ProcessSequence?
    ensures InOrder(AfterControl(d, 0))
  {
    var n, c := Completed(d), d.controllers[0];
    if c.index == |c.item.mutations| {
      AllOfStep(d.sequenced, n);
    } else {
      MutationsGrow(c.item, c.index);
    }
  }

  /** In every state of every run the protocol's invariant holds. */
  lemma {:induction false} RunInv<Q>(es: seq<Event<Q>>)
    ensures Inv(Run(Initial<Q>(), es))
  {
    if es == [] {
      InitialInv<Q>();
    } else {
      RunInv(es[..|es| - 1]);
      var p := Run(Initial<Q>(), es[..|es| - 1]);
      if Enabled(p, es[|es| - 1]) {
        StepInv(p, es[|es| - 1]);
      }
    }
  }

  // ------------------------------------------------------------------
  // What the invariant means for readers and writers
  // ------------------------------------------------------------------

  /** While a sequence item is being applied, no request is active and none can start. */
  lemma PhaseExclusion<Q>(es: seq<Event<Q>>, c: nat, q: Q)
    requires c < |Run(Initial<Q>(), es).controllers|
    requires Alone(Run(Initial<Q>(), es).controllers[c])
    ensures var d := Run(Initial<Q>(), es);
            && d.running == [] && d.activeRequests == 0
            && !Enabled(d, UnqueueRequest)
            && Step(d, Request(q)).running == []
            && Step(d, Request(q)).requestQueue == d.requestQueue + [q]
  {
    hide Run, InOrder;
    RunInv(es);
  }

  /** There is one controller and no task, or there are exactly as many tasks as waiting
      requests and one more. A pool job starts the longest waiting request; the one that finds
      none becomes the controller, and it is the last one. */
  lemma OneController<Q>(es: seq<Event<Q>>)
    ensures var d := Run(Initial<Q>(), es);
            && (if d.controllers == [] then d.tasks == |d.requestQueue| + 1 else |d.controllers| == 1 && d.tasks == 0)
            && (d.tasks > 0 ==>
                  var s := Step(d, UnqueueRequest);
                  if d.tasks == 1 then s.controllers == [Process] && s.tasks == 0 && s.running == d.running
                  else && s.controllers == [] && s.requestQueue == d.requestQueue[1..]
                       && s.running == d.running + [Running(d.requestQueue[0], d.applied)])
  {
    RunInv(es);
  }

  lemma {:induction false} AllOfPrefix(items: seq<Item>, n: nat)
    requires n <= |items|
    ensures AllOf(items[..n]) <= AllOf(items)
  {
    if n == |items| {
      assert items[..n] == items;
    } else {
      var m := |items| - 1;
      AllOfPrefix(items[..m], n);
      assert items[..m][..n] == items[..n];
    }
  }

  lemma AllOfStep(items: seq<Item>, n: nat)
    requires n < |items|
    ensures AllOf(items[..n + 1]) == AllOf(items[..n]) + MutationsOf(items[n], |items[n].mutations|)
  {
    assert items[..n + 1][..n] == items[..n];
  }

  /** What the engine gave the driver, in order. */
  function SequencedIn<Q>(es: seq<Event<Q>>): seq<Item> {
    if es == [] then []
    else SequencedIn(es[..|es| - 1]) + (if es[|es| - 1].Sequence? then [es[|es| - 1].item] else [])
  }

  /** Nothing that the driver is given gets lost. */
  lemma {:induction false} EverythingSequenced<Q>(es: seq<Event<Q>>)
    ensures Run(Initial<Q>(), es).sequenced == SequencedIn(es)
  {
    if es != [] {
      EverythingSequenced(es[..|es| - 1]);
    }
  }

  /** Mutations are applied in the order in which the driver was given the transactions, each once
      and none skipped. */
  lemma AppliedInOrder<Q>(es: seq<Event<Q>>)
    ensures Run(Initial<Q>(), es).applied <= AllOf(SequencedIn(es))
  {
    hide Run, AllOf, MutationsOf, SequencedIn;
    EverythingSequenced(es);
    RunInv(es);
    AppliedPrefix(Run(Initial<Q>(), es));
  }

  lemma MutationsPrefix(item: Item, n: nat)
    requires n <= |item.mutations|
    ensures MutationsOf(item, n) <= MutationsOf(item, |item.mutations|)
  {
  }

  lemma AppliedPrefix<Q>(d: Driver<Q>)
    requires Inv(d)
    ensures d.applied <= AllOf(d.sequenced)
  {
    hide AllOf, MutationsOf;
    var n := Completed(d);
    if d.controllers != [] && d.controllers[0].ProcessSequence? {
      var c := d.controllers[0];
      AllOfStep(d.sequenced, n);
      MutationsPrefix(c.item, c.index);
      AllOfPrefix(d.sequenced, n + 1);
    } else {
      AllOfPrefix(d.sequenced, n);
    }
  }

  /** From its start to its end a request sees the same applied mutations, and they are those
      of complete transactions: the first ones that the driver was given. */
  lemma ReaderSnapshot<Q>(es: seq<Event<Q>>, r: Running<Q>)
    requires r in Run(Initial<Q>(), es).running
    ensures var d := Run(Initial<Q>(), es);
            && r.start == d.applied
            && 0 <= Completed(d) <= |SequencedIn(es)|
            && r.start == AllOf(SequencedIn(es)[..Completed(d)])
  {
    EverythingSequenced(es);
    RunInv(es);
  }

  function VersionOf(a: Applied): Version {
    Version(a.mutation.documentId, a.sequenceId, a.mutation.buffer)
  }

  /** What a storage has stored after these mutations. */
  ghost function Versions(applied: seq<Applied>): seq<Version> {
    seq(|applied|, i requires 0 <= i < |applied| => VersionOf(applied[i]))
  }

  /** A fetch at `s` is not affected by what is sequenced, with greater ids, after it started
      running or even before it is started. */
  lemma FetchIgnoresLater(a: seq<Applied>, b: seq<Applied>, doc: int, s: int)
    requires a <= b && forall j | |a| <= j < |b| :: b[j].sequenceId > s
    ensures Lookup(Versions(b), doc, s) == Lookup(Versions(a), doc, s)
  {
    var t := Versions(b)[|a|..];
    assert Versions(b) == Versions(a) + t;
    LaterIsInvisible(Versions(a), t, doc, s);
  }

  // ------------------------------------------------------------------
  // The driver
  // ------------------------------------------------------------------

  class QueuedDriver<Q> {
    var requestPhase: bool
    var activeRequests: int
    var requestQueue: seq<Q>
    var sequenceQueue: seq<Item>
    var controllers: seq<Controller>
    var tasks: nat
    var running: seq<Running<Q>>
    var currentSequenceId: int
    var sequenced: seq<Item>
    var applied: seq<Applied>

    function Now(): Driver<Q>
      reads this
    {
      Driver(requestPhase, activeRequests, requestQueue, sequenceQueue, controllers, tasks, running, currentSequenceId,
             sequenced, applied)
    }

    constructor ()
      ensures Now() == Initial<Q>() && Inv(Now())
    {
      requestPhase, activeRequests := true, 0;
      requestQueue, sequenceQueue := [], [];
      controllers, tasks, running := [Process], 0, [];
      currentSequenceId, sequenced, applied := 0, [], [];
      new;
      InitialInv<Q>();
    }

    method Sequence(item: Item)
      requires Inv(Now())
      modifies this`sequenceQueue, this`sequenced
      ensures Inv(Now()) && Now() == Step(old(Now()), Event.Sequence(item))
      ensures sequenceQueue == old(sequenceQueue) + [item] && sequenced == old(sequenced) + [item]
    {
      StepInv(Now(), Event.Sequence(item));
      sequenceQueue := sequenceQueue + [item];
      sequenced := sequenced + [item];
    }

    /** `fetch` of a storage, `query` of a view. */
    method Request(q: Q)
      requires Inv(Now())
      modifies this`activeRequests, this`running, this`requestQueue
      ensures Inv(Now()) && Now() == Step(old(Now()), Event.Request(q))
      ensures if requestPhase then running == old(running) + [Running(q, applied)] && requestQueue == old(requestQueue)
              else running == old(running) && requestQueue == old(requestQueue) + [q]
    {
      StepInv(Now(), Event.Request(q));
      if requestPhase {
        activeRequests := activeRequests + 1;
        running := running + [Running(q, applied)];
      } else {
        requestQueue := requestQueue + [q];
      }
    }

    method FinishRequest(r: nat)
      requires Inv(Now()) && r < |running|
      modifies this`activeRequests, this`running
      ensures Inv(Now()) && Now() == Step(old(Now()), Event.FinishRequest(r))
    {
      StepInv(Now(), Event.FinishRequest(r));
      activeRequests := activeRequests - 1;
      running := Without(running, r);
    }

    method ProcessStep(c: nat)
      requires Inv(Now()) && c < |controllers| && controllers[c].Process?
      modifies this`requestPhase, this`controllers
      ensures Inv(Now()) && Now() == Step(old(Now()), Control(c))
    {
      StepInv(Now(), Control(c));
      if sequenceQueue != [] {
        requestPhase := false;
        controllers := controllers[c := EndRequestPhase];
      }
    }

    method EndRequestPhaseStep(c: nat)
      requires Inv(Now()) && c < |controllers| && controllers[c].EndRequestPhase?
      modifies this`controllers
      ensures Inv(Now()) && Now() == Step(old(Now()), Control(c))
    {
      StepInv(Now(), Control(c));
      if activeRequests == 0 {
        controllers := controllers[c := SequencePhase];
      }
    }

    method SequencePhaseStep(c: nat)
      requires Inv(Now()) && c < |controllers| && controllers[c].SequencePhase?
      modifies this`requestPhase, this`tasks, this`controllers, this`sequenceQueue
      ensures Inv(Now()) && Now() == Step(old(Now()), Control(c))
    {
      StepInv(Now(), Control(c));
      if sequenceQueue == [] {
        requestPhase := true;
        for i := 0 to |requestQueue| + 1
          invariant tasks == old(tasks) + i && requestPhase
          invariant controllers == old(controllers) && sequenceQueue == []
        {
          tasks := tasks + 1;
        }
        controllers := Without(controllers, c);
      } else {
        var item := sequenceQueue[0];
        sequenceQueue := sequenceQueue[1..];
        controllers := controllers[c := ProcessSequence(item, 0)];
      }
    }

    method ProcessSequenceStep(c: nat)
      requires Inv(Now()) && c < |controllers| && controllers[c].ProcessSequence?
      modifies this`currentSequenceId, this`controllers, this`applied
      ensures Inv(Now()) && Now() == Step(old(Now()), Control(c))
    {
      StepInv(Now(), Control(c));
      var ProcessSequence(item, index) := controllers[c];
      if index >= |item.mutations| {
        currentSequenceId := item.sequenceId;
        controllers := controllers[c := SequencePhase];
      } else {
        applied := applied + [Applied(item.sequenceId, item.mutations[index])];
        controllers := controllers[c := ProcessSequence(item, index + 1)];
      }
    }

    method UnqueueRequestStep()
      requires Inv(Now()) && tasks > 0
      modifies this`tasks, this`controllers, this`requestQueue, this`activeRequests, this`running
      ensures Inv(Now()) && Now() == Step(old(Now()), UnqueueRequest)
    {
      StepInv(Now(), UnqueueRequest);
      tasks := tasks - 1;
      if requestQueue == [] {
        controllers := controllers + [Process];
      } else {
        var q := requestQueue[0];
        requestQueue := requestQueue[1..];
        activeRequests := activeRequests + 1;
        running := running + [Running(q, applied)];
      }
    }
  }
}
