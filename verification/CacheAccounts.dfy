/** What becomes of every request to the page cache: it is answered at once, or its client is served
    later, in order; every reference handed out is held or was given back; and no state is a dead end:
    a page that is wanted can still be loaded, and one that was evicted can still leave. */
module CacheAccounts {
  import opened PageCaches

  // ------------------------------------------------------------------
  // Clients that wait
  // ------------------------------------------------------------------

  /** The client that has to wait for its request of page `n`. */
  ghost function Asking<B>(s: Cache<B>, e: Event<B>, n: int): seq<int> {
    if (e.ReadPage? || e.InitializePage?) && e.n == n && Happens(s, e) && !HandsOut(s, e) then [e.client] else []
  }

  /** The client whose callback gets page `n`. */
  ghost function Serving<B>(s: Cache<B>, e: Event<B>, n: int): seq<int> {
    if e.Complete? && e.n == n && Happens(s, e) then [s.pages[n].promised[0]] else []
  }

  /** All clients that had to wait for page `n`, and those that were served, in order. */
  ghost function AskedFor<B>(s: Cache<B>, es: seq<Event<B>>, n: int): seq<int> {
    if es == [] then []
    else AskedFor(s, es[..|es| - 1], n) + Asking(Run(s, es[..|es| - 1]), es[|es| - 1], n)
  }

  ghost function ServedOf<B>(s: Cache<B>, es: seq<Event<B>>, n: int): seq<int> {
    if es == [] then []
    else ServedOf(s, es[..|es| - 1], n) + Serving(Run(s, es[..|es| - 1]), es[|es| - 1], n)
  }

  /** The clients whose callback is queued already, and those who wait for the next load. */
  function Awaiting<B>(s: Cache<B>, n: int): seq<int> {
    if n in s.pages then s.pages[n].promised + s.pages[n].waitQueue else []
  }

  /** The state after an event, which may not happen. */
  ghost function After<B>(s: Cache<B>, e: Event<B>): Cache<B> {
    if Happens(s, e) then Step(s, e) else s
  }

  lemma RequestAwaited<B>(s: Cache<B>, e: Event<B>)
    requires Happens(s, e) && (e.ReadPage? || e.InitializePage?)
    ensures Awaiting(Step(s, e), e.n) == Awaiting(s, e.n) + (if HandsOut(s, e) then [] else [e.client])
  {
  }

  lemma ClientAwaited<B>(s: Cache<B>, e: Event<B>)
    requires Happens(s, e) && (e.Change? || e.WritePage? || e.ReleasePage? || e.Complete?)
    ensures Awaiting(s, e.n) == (if e.Complete? then [s.pages[e.n].promised[0]] else []) + Awaiting(Step(s, e), e.n)
  {
    if e.Complete? {
      var p := s.pages[e.n];
      assert p.promised == [p.promised[0]] + p.promised[1..];
    }
  }

  lemma CacheAwaited<B>(s: Cache<B>, e: Event<B>)
    requires Happens(s, e) && !ByClient(e) && !e.LeaveLoop?
    requires Subject(s, e) in s.pages && PageOk(s, Subject(s, e))
    ensures Awaiting(Step(s, e), Subject(s, e)) == Awaiting(s, Subject(s, e))
  {
  }

  lemma SubjectKnown<B>(s: Cache<B>, e: Event<B>)
    requires Inv(s) && Happens(s, e) && !ByClient(e) && !e.LeaveLoop?
    ensures Subject(s, e) in s.pages && PageOk(s, Subject(s, e))
  {
    hide PageInv;
  }

  lemma OthersAwaited<B>(s: Cache<B>, e: Event<B>, n: int)
    requires Happens(s, e) && (e.LeaveLoop? || n != Subject(s, e))
    ensures Awaiting(Step(s, e), n) == Awaiting(s, n)
  {
    hide Step, Enabled;
    OthersUntouched(s, e, n);
  }

  lemma NextAwaited<B>(s: Cache<B>, e: Event<B>, n: int)
    requires Inv(s)
    ensures Awaiting(s, n) + Asking(s, e, n) == Serving(s, e, n) + Awaiting(After(s, e), n)
  {
    hide Inv, Step, PageInv, HandsOut, Awaiting, Known;
    if Happens(s, e) {
      if e.LeaveLoop? || n != Subject(s, e) {
        OthersAwaited(s, e, n);
      } else if e.ReadPage? || e.InitializePage? {
        RequestAwaited(s, e);
      } else if ByClient(e) {
        ClientAwaited(s, e);
      } else {
        SubjectKnown(s, e);
        CacheAwaited(s, e);
      }
    }
  }

  /** In every run, those who had to wait for a page are those that were served, then those whose
      callback is queued, then those who still wait: in the order in which they asked, and nobody
      is forgotten. */
  lemma {:induction false} EveryoneAccounted<B>(blank: B, limit: int, pageSize: int, es: seq<Event<B>>, n: int)
    requires limit >= 0
    ensures var s := Initial(blank, limit, pageSize);
            var t := Run(s, es);
            AskedFor(s, es, n)
            == ServedOf(s, es, n) + (if n in t.pages then t.pages[n].promised + t.pages[n].waitQueue else [])
  {
    hide Inv, Step, Happens, Asking, Serving;
    InitialInv(blank, limit, pageSize);
    if es != [] {
      var s, k := Initial(blank, limit, pageSize), |es| - 1;
      EveryoneAccounted(blank, limit, pageSize, es[..k], n);
      RunInv(s, es[..k]);
      var p := Run(s, es[..k]);
      NextAwaited(p, es[k], n);
      QueueStep([], AskedFor(s, es[..k], n), ServedOf(s, es[..k], n), Awaiting(p, n), Awaiting(Run(s, es), n),
                Asking(p, es[k], n), Serving(p, es[k], n));
    }
  }

  // ------------------------------------------------------------------
  // References, and threads in the release loop
  // ------------------------------------------------------------------

  /** How often page `n` was handed out, and how often it was given back. */
  ghost function GivenOut<B>(s: Cache<B>, es: seq<Event<B>>, n: int): nat {
    if es == [] then 0
    else
      var e, p := es[|es| - 1], Run(s, es[..|es| - 1]);
      GivenOut(s, es[..|es| - 1], n) + (if HandsOut(p, e) && e.n == n then 1 else 0)
  }

  ghost function GivenBack<B>(s: Cache<B>, es: seq<Event<B>>, n: int): nat {
    if es == [] then 0
    else
      var e, p := es[|es| - 1], Run(s, es[..|es| - 1]);
      GivenBack(s, es[..|es| - 1], n) + (if Happens(p, e) && e.ReleasePage? && e.n == n then 1 else 0)
  }

  lemma NextReference<B>(s: Cache<B>, e: Event<B>, n: int)
    ensures s.handed[n] + (if HandsOut(s, e) && e.n == n then 1 else 0)
            == After(s, e).handed[n] + (if Happens(s, e) && e.ReleasePage? && e.n == n then 1 else 0)
  {
    hide DoRelease, NewPage;
    if Happens(s, e) && !ByClient(e) {
      HeldByClients(s, e);
    }
  }

  lemma HeldByClients<B>(s: Cache<B>, e: Event<B>)
    requires Happens(s, e) && !ByClient(e)
    ensures Step(s, e).handed == s.handed
  {
    hide DoRelease, NewPage;
  }

  lemma {:induction false} ReferencesAccounted<B>(blank: B, limit: int, pageSize: int, es: seq<Event<B>>, n: int)
    ensures var s := Initial(blank, limit, pageSize);
            Run(s, es).handed[n] == GivenOut(s, es, n) - GivenBack(s, es, n)
  {
    hide Step, Happens, HandsOut;
    if es != [] {
      var s, k := Initial(blank, limit, pageSize), |es| - 1;
      ReferencesAccounted(blank, limit, pageSize, es[..k], n);
      NextReference(Run(s, es[..k]), es[k], n);
    }
  }

  /** How many threads entered the loop that releases pages, and how many left it. */
  ghost function LoopChange<B>(s: Cache<B>, e: Event<B>): int {
    if !Happens(s, e) then 0 else if e.Enlist? then 1 else if e.LeaveLoop? then -1 else 0
  }

  ghost function InLoop<B>(s: Cache<B>, es: seq<Event<B>>): int {
    if es == [] then 0 else InLoop(s, es[..|es| - 1]) + LoopChange(Run(s, es[..|es| - 1]), es[|es| - 1])
  }

  lemma NextInLoop<B>(s: Cache<B>, e: Event<B>)
    ensures After(s, e).evicting == s.evicting + LoopChange(s, e)
  {
    hide DoRelease, NewPage;
  }

  lemma {:induction false} LoopAccounted<B>(blank: B, limit: int, pageSize: int, es: seq<Event<B>>)
    ensures Run(Initial(blank, limit, pageSize), es).evicting == InLoop(Initial(blank, limit, pageSize), es)
  {
    hide Step, Happens, LoopChange;
    if es != [] {
      var s, k := Initial(blank, limit, pageSize), |es| - 1;
      LoopAccounted(blank, limit, pageSize, es[..k]);
      NextInLoop(Run(s, es[..k]), es[k]);
    }
  }

  // ------------------------------------------------------------------
  // No dead ends
  // ------------------------------------------------------------------

  /** A step that brings page `n` on: the cache's own, a callback, or a client that marks its
      change or gives the page back. Nothing new is asked for. */
  ghost predicate BringsOn<B>(e: Event<B>, n: int) {
    match e
    case WritePage(m) => m == n
    case ReleasePage(m) => m == n
    case Acquire(m) => m == n
    case Release(m) => m == n
    case DiskRead(m) => m == n
    case Complete(m) => m == n
    case DiskWrite(m) => m == n
    case FinishRelease(m) => m == n
    case _ => false
  }

  /** The page is at hand and nobody waits for it, or it is not in the cache. */
  ghost predicate Settled<B>(s: Cache<B>, n: int) {
    n in s.pages ==>
      && s.pages[n].loaded && s.pages[n].stage in {Unlisted, Listed}
      && s.pages[n].promised == [] && s.pages[n].waitQueue == []
  }

  /** How far a page is from being settled. */
  ghost function Rank<B>(s: Cache<B>, n: int): nat {
    if n !in s.pages then 0
    else
      match s.pages[n].stage
      case Evicted => 8
      case Flagged => if s.pages[n].reading then 7 else 6
      case Writing => 5
      case Releasing => 4
      case Wanted => 3
      case _ => if s.pages[n].reading then 2 else 1
  }

  ghost function Left<B>(s: Cache<B>, n: int): nat {
    if n !in s.pages then 0
    else 3 * |s.pages[n].promised| + 2 * s.handed[n] + (if n in s.unmarked then 1 else 0)
  }

  /** The step that page `n` waits for. */
  ghost function Next<B>(s: Cache<B>, n: int): Event<B>
    requires n in s.pages
  {
    var p := s.pages[n];
    if p.reading then (if p.stage == Evicted then Release(n) else DiskRead(n))
    else
      match p.stage
      case Wanted => Acquire(n)
      case Evicted => Release(n)
      case Writing => DiskWrite(n)
      case Releasing => FinishRelease(n)
      case _ => if p.promised != [] then Complete(n) else if n in s.unmarked then WritePage(n) else ReleasePage(n)
  }

  ghost predicate Closer<B>(t: Cache<B>, s: Cache<B>, n: int) {
    Rank(t, n) < Rank(s, n) || (Rank(t, n) == Rank(s, n) && Left(t, n) < Left(s, n))
  }

  lemma GivenBackCloser<B>(s: Cache<B>, n: int)
    requires Known(s) && n in s.pages && PageOk(s, n) && !Settled(s, n)
    requires s.pages[n].loaded && s.pages[n].stage in {Unlisted, Listed, Flagged}
    requires s.pages[n].promised == [] && n !in s.unmarked
    ensures Enabled(s, Next(s, n)) && Closer(Step(s, Next(s, n)), s, n)
  {
  }

  lemma HeldCloser<B>(s: Cache<B>, n: int)
    requires Known(s) && n in s.pages && PageOk(s, n) && !Settled(s, n)
    requires s.pages[n].loaded && s.pages[n].stage in {Unlisted, Listed, Flagged}
    ensures Enabled(s, Next(s, n)) && Closer(Step(s, Next(s, n)), s, n)
  {
    hide DoRelease, AfterReleasePage, Settled;
    if s.pages[n].promised == [] && n !in s.unmarked {
      GivenBackCloser(s, n);
    }
  }

  lemma LoadedCloser<B>(s: Cache<B>, n: int)
    requires Known(s) && n in s.pages && PageOk(s, n)
    requires !(s.pages[n].loaded && s.pages[n].stage in {Unlisted, Listed, Flagged})
    ensures Enabled(s, Next(s, n)) && Rank(Step(s, Next(s, n)), n) < Rank(s, n)
  {
  }

  /** A page that is not settled has a next step, which brings it closer to the end. */
  lemma NextCloser<B>(s: Cache<B>, n: int)
    requires Known(s) && n in s.pages && PageOk(s, n) && !Settled(s, n)
    ensures Enabled(s, Next(s, n)) && BringsOn(Next(s, n), n) && Closer(Step(s, Next(s, n)), s, n)
  {
    hide PageInv, Step, Rank, Left, Enabled, Settled;
    if s.pages[n].loaded && s.pages[n].stage in {Unlisted, Listed, Flagged} {
      HeldCloser(s, n);
    } else {
      LoadedCloser(s, n);
    }
  }

  lemma {:induction false} RunFirst<B>(s: Cache<B>, e: Event<B>, es: seq<Event<B>>)
    requires Happens(s, e)
    ensures Run(s, [e] + es) == Run(Step(s, e), es)
  {
    hide Step, Happens;
    if es == [] {
      assert [e] + es == [e] && [e][..0] == [];
    } else {
      var k := |es| - 1;
      RunFirst(s, e, es[..k]);
      assert ([e] + es)[..k + 1] == [e] + es[..k];
    }
  }

  lemma {:induction false} RunTwice<B>(s: Cache<B>, es: seq<Event<B>>, more: seq<Event<B>>)
    ensures Run(s, es + more) == Run(Run(s, es), more)
  {
    hide Step, Happens;
    if more == [] {
      assert es + more == es;
    } else {
      var k := |more| - 1;
      RunTwice(s, es, more[..k]);
      assert (es + more)[..|es| + k] == es + more[..k];
    }
  }

  lemma {:induction false} Settle<B>(s: Cache<B>, n: int) returns (es: seq<Event<B>>)
    requires Inv(s)
    ensures (forall i | 0 <= i < |es| :: BringsOn(es[i], n)) && Settled(Run(s, es), n)
    decreases Rank(s, n), Left(s, n)
  {
    hide PageInv, Step, Rank, Left, Enabled, BringsOn, Next, Settled;
    if n !in s.pages || Settled(s, n) {
      es := [];
      AbsentSettled(s, n);
    } else {
      assert PageOk(s, n);
      NextCloser(s, n);
      var e := Next(s, n);
      StepInv(s, e);
      var rest := Settle(Step(s, e), n);
      RunFirst(s, e, rest);
      es := [e] + rest;
    }
  }

  lemma AbsentSettled<B>(s: Cache<B>, n: int)
    ensures n !in s.pages ==> Settled(s, n)
  {
  }

  lemma AsksNothing<B>(s: Cache<B>, e: Event<B>, n: int)
    requires BringsOn(e, n)
    ensures Asking(s, e, n) == []
  {
  }

  lemma {:induction false} NobodyAsks<B>(s: Cache<B>, es: seq<Event<B>>, more: seq<Event<B>>, n: int)
    requires forall i | 0 <= i < |more| :: BringsOn(more[i], n)
    ensures AskedFor(s, es + more, n) == AskedFor(s, es, n)
  {
    hide Run, BringsOn, Asking;
    if more == [] {
      assert es + more == es;
    } else {
      var k := |more| - 1;
      NobodyAsks(s, es, more[..k], n);
      assert (es + more)[..|es| + k] == es + more[..k];
      AsksNothing(Run(s, (es + more)[..|es| + k]), more[k], n);
    }
  }

  /** No reachable state is a dead end: there are steps of the cache, and of clients that give back
      what they hold, after which everyone who had to wait for a page is served, in order, and a page
      that left the list has left the cache or was loaded again. */
  lemma CanSettle<B>(blank: B, limit: int, pageSize: int, es: seq<Event<B>>, n: int) returns (more: seq<Event<B>>)
    requires limit >= 0
    ensures forall i | 0 <= i < |more| :: BringsOn(more[i], n)
    ensures var s := Initial(blank, limit, pageSize);
            && ServedOf(s, es + more, n) == AskedFor(s, es, n)
            && (n in Run(s, es + more).pages ==> Run(s, es + more).pages[n].stage in {Unlisted, Listed})
  {
    hide Inv, Run, AskedFor, ServedOf, BringsOn;
    var s := Initial(blank, limit, pageSize);
    InitialInv(blank, limit, pageSize);
    RunInv(s, es);
    more := Settle(Run(s, es), n);
    RunTwice(s, es, more);
    EveryoneAccounted(blank, limit, pageSize, es + more, n);
    NobodyAsks(s, es, more, n);
  }
}
