/** The write-back page cache: pages are loaded, handed out, marked for release, written back
    and acquired again for those who waited meanwhile. Every step is what one thread does
    under one of the two locks. */
module PageCaches {

  /** How far a page has come since it was wanted. `Flagged` is a page whose release flag is
      set; `Evicted` one that left the list while its release flag is not set yet. */
  datatype Stage = Wanted | Unlisted | Listed | Evicted | Flagged | Writing | Releasing

  datatype Page<B> = Page(
    stage: Stage,
    // a disk read is under way
    reading: bool,
    buffer: B,
    // kFlagLoaded, kFlagDirty, kFlagInitialize, kFlagRelease
    loaded: bool,
    dirty: bool,
    initialize: bool,
    release: bool,
    useCount: int,
    // clients whose callback waits for a load, and those whose callback is already queued
    waitQueue: seq<int>,
    promised: seq<int>)

  datatype Cache<B> = Cache(
    pages: map<int, Page<B>>,
    disk: map<int, B>,
    // what a page that was never written reads as
    blank: B,
    // alive pages, least recently acquired first
    lru: seq<int>,
    footprint: int,
    limit: int,
    pageSize: int,
    // threads in the loop that releases pages while the footprint is over the limit
    evicting: int,
    // references that clients hold, and pages they changed and have not marked yet
    handed: multiset<int>,
    unmarked: set<int>)

  function Initial<B>(blank: B, limit: int, pageSize: int): Cache<B> {
    Cache(map[], map[], blank, [], 0, limit, pageSize, 0, multiset{}, {})
  }

  function DiskAt<B>(s: Cache<B>, n: int): B {
    if n in s.disk then s.disk[n] else s.blank
  }

  // ------------------------------------------------------------------
  // Steps
  // ------------------------------------------------------------------

  datatype Event<B> =
    | ReadPage(n: int, client: int)
    | InitializePage(n: int, client: int)
    | Change(n: int, b: B)
    | WritePage(n: int)
    | ReleasePage(n: int)
    | Acquire(n: int)
    | Enlist(n: int)
    | Evict
    | LeaveLoop
    | Release(n: int)
    | DiskRead(n: int)
    | Complete(n: int)
    | DiskWrite(n: int)
    | FinishRelease(n: int)

  /** When a step can happen. For clients this is what the interface asks of them: pages are
      used while they are held, and the last reference is given back only after a change was
      marked. */
  ghost predicate Enabled<B>(s: Cache<B>, e: Event<B>) {
    match e
    case ReadPage(_, _) => true
    case InitializePage(n, _) =>
      n in s.pages ==> s.pages[n].waitQueue == [] && s.pages[n].loaded && s.pages[n].useCount == 0
    case Change(n, _) => n in s.handed
    case WritePage(n) => n in s.handed
    case ReleasePage(n) => n in s.handed && (n in s.unmarked ==> s.handed[n] > 1)
    case Acquire(n) => n in s.pages && s.pages[n].stage == Wanted
    case Enlist(n) => n in s.pages && s.pages[n].stage == Unlisted
    case Evict => s.evicting > 0 && s.footprint > s.limit && s.lru != []
    case LeaveLoop => s.evicting > 0 && s.footprint <= s.limit
    case Release(n) => n in s.pages && s.pages[n].stage == Evicted
    case DiskRead(n) => n in s.pages && s.pages[n].reading
    case Complete(n) => n in s.pages && s.pages[n].promised != []
    case DiskWrite(n) => n in s.pages && s.pages[n].stage == Writing
    case FinishRelease(n) => n in s.pages && s.pages[n].stage == Releasing
  }

  function NewPage<B>(s: Cache<B>, client: int): Page<B> {
    Page(Wanted, false, s.blank, false, false, false, false, 0, [client], [])
  }

  function Put<B>(s: Cache<B>, n: int, p: Page<B>): Cache<B> {
    s.(pages := s.pages[n := p])
  }

  /** The end of a page's use: write it back, or drop its buffer. */
  function DoRelease<B>(p: Page<B>): Page<B> {
    p.(loaded := false, release := false, stage := if p.dirty then Writing else Releasing)
  }

  function AfterRead<B>(s: Cache<B>, n: int, client: int): Cache<B> {
    if n !in s.pages then Put(s, n, NewPage(s, client))
    else
      var p := s.pages[n];
      if p.loaded && !p.release then Put(s, n, p.(useCount := p.useCount + 1)).(handed := s.handed + multiset{n})
      else Put(s, n, p.(waitQueue := p.waitQueue + [client]))
  }

  function AfterInitialize<B>(s: Cache<B>, n: int, client: int): Cache<B> {
    if n !in s.pages then Put(s, n, NewPage(s, client))
    else
      var p := s.pages[n];
      if !p.release then Put(s, n, p.(useCount := 1)).(handed := s.handed + multiset{n})
      else Put(s, n, p.(initialize := true, waitQueue := p.waitQueue + [client]))
  }

  function AfterReleasePage<B>(s: Cache<B>, n: int): Cache<B>
    requires n in s.pages
  {
    var p := s.pages[n].(useCount := s.pages[n].useCount - 1);
    Put(s, n, if p.useCount == 0 && p.release then DoRelease(p) else p).(handed := s.handed - multiset{n})
  }

  function AfterAcquire<B>(s: Cache<B>, n: int): Cache<B>
    requires n in s.pages
  {
    var p := s.pages[n].(buffer := s.blank, stage := Unlisted);
    Put(s, n, if p.initialize then p.(initialize := false, loaded := true, useCount := 1, promised := p.waitQueue,
                                      waitQueue := [])
              else p.(reading := true))
  }

  function AfterEvict<B>(s: Cache<B>): Cache<B>
    requires s.lru != [] && s.lru[0] in s.pages
  {
    Put(s, s.lru[0], s.pages[s.lru[0]].(stage := Evicted)).(lru := s.lru[1..], footprint := s.footprint - s.pageSize)
  }

  function AfterReleaseItem<B>(s: Cache<B>, n: int): Cache<B>
    requires n in s.pages
  {
    var p := s.pages[n].(release := true, stage := Flagged);
    Put(s, n, if p.loaded && p.useCount == 0 then DoRelease(p) else p)
  }

  function AfterDiskRead<B>(s: Cache<B>, n: int): Cache<B>
    requires n in s.pages
  {
    var p := s.pages[n];
    Put(s, n, p.(reading := false, buffer := DiskAt(s, n), loaded := true, useCount := |p.waitQueue|,
                 promised := p.waitQueue, waitQueue := []))
  }

  function AfterFinishRelease<B>(s: Cache<B>, n: int): Cache<B>
    requires n in s.pages
  {
    if s.pages[n].waitQueue == [] then s.(pages := s.pages - {n})
    else Put(s, n, s.pages[n].(stage := Wanted))
  }

  /** What a valid list and valid references guarantee. */
  ghost predicate Known<B>(s: Cache<B>) {
    && (forall i | 0 <= i < |s.lru| :: s.lru[i] in s.pages)
    && (forall n | n in s.handed :: n in s.pages)
  }

  ghost function Step<B>(s: Cache<B>, e: Event<B>): Cache<B>
    requires Enabled(s, e) && Known(s)
  {
    match e
    case ReadPage(n, c) => AfterRead(s, n, c)
    case InitializePage(n, c) => AfterInitialize(s, n, c)
    case Change(n, b) => Put(s, n, s.pages[n].(buffer := b)).(unmarked := s.unmarked + {n})
    case WritePage(n) => Put(s, n, s.pages[n].(dirty := true)).(unmarked := s.unmarked - {n})
    case ReleasePage(n) => AfterReleasePage(s, n)
    case Acquire(n) => AfterAcquire(s, n)
    case Enlist(n) =>
      Put(s, n, s.pages[n].(stage := Listed)).(lru := s.lru + [n], footprint := s.footprint + s.pageSize,
                                                     evicting := s.evicting + 1)
    case Evict => AfterEvict(s)
    case LeaveLoop => s.(evicting := s.evicting - 1)
    case Release(n) => AfterReleaseItem(s, n)
    case DiskRead(n) => AfterDiskRead(s, n)
    case Complete(n) =>
      Put(s, n, s.pages[n].(promised := s.pages[n].promised[1..])).(handed := s.handed + multiset{n})
    case DiskWrite(n) =>
      Put(s, n, s.pages[n].(dirty := false, stage := Releasing)).(disk := s.disk[n := s.pages[n].buffer])
    case FinishRelease(n) => AfterFinishRelease(s, n)
  }

  // ------------------------------------------------------------------
  // What every reachable state keeps
  // ------------------------------------------------------------------

  /** The flags and counts of one page, given how many references clients hold. */
  ghost predicate PageInv<B>(p: Page<B>, held: nat, changed: bool, onDisk: B) {
    && !p.initialize
    && p.useCount == held + |p.promised|
    && (p.release <==> p.stage == Flagged)
    // before it is acquired and after it was released nobody uses it
    && (p.stage in {Wanted, Writing, Releasing} ==> !p.loaded && !p.reading && p.useCount == 0)
    && (p.stage in {Unlisted, Listed, Evicted, Flagged} ==> p.loaded != p.reading)
    && (p.reading ==> p.useCount == 0 && p.waitQueue != [] && !p.dirty)
    // a loaded page marked for release is pinned; nobody waits for a page that is at hand
    && (p.loaded && p.release ==> p.useCount > 0)
    && (p.loaded && !p.release ==> p.waitQueue == [])
    && (p.stage == Wanted ==> p.waitQueue != [] && !p.dirty)
    && (p.stage == Writing ==> p.dirty)
    && (p.stage == Releasing ==> !p.dirty)
    // a clean buffer equals the disk; only held pages were changed
    && (p.loaded && !p.dirty && !changed ==> p.buffer == onDisk)
    && (changed ==> held > 0)
  }

  ghost predicate Inv<B>(s: Cache<B>) {
    && Known(s)
    && (forall n | n in s.unmarked :: n in s.handed)
    && (forall n | n in s.pages :: PageInv(s.pages[n], s.handed[n], n in s.unmarked, DiskAt(s, n)))
    // the list holds each listed page once, and its footprint
    && (forall n | n in s.pages :: s.pages[n].stage == Listed <==> n in s.lru)
    && NoneTwice(s.lru)
    && s.footprint == |s.lru| * s.pageSize
    // over the limit some thread is still releasing pages
    && s.evicting >= 0 && (s.footprint > s.limit ==> s.evicting > 0)
  }

  /** The content of a page: its buffer while there is one, else the disk. */
  function Content<B>(s: Cache<B>, n: int): B {
    if n in s.pages && (s.pages[n].loaded || s.pages[n].stage == Writing) then s.pages[n].buffer else DiskAt(s, n)
  }

  /** The state after a step that only touches page `n`, its references, its mark and its
      place on the disk. */
  function Touch<B>(s: Cache<B>, n: int, p: Page<B>, held: multiset<int>, unmarked: set<int>,
                    disk: map<int, B>): Cache<B> {
    s.(pages := s.pages[n := p], handed := held, unmarked := unmarked, disk := disk)
  }

  ghost predicate OnDisk<B>(s: Cache<B>, disk: map<int, B>, n: int) {
    forall m | m != n :: (m in s.disk <==> m in disk) && (m in disk ==> s.disk[m] == disk[m])
  }

  lemma OnePage<B>(s: Cache<B>, n: int, p: Page<B>, held: multiset<int>, unmarked: set<int>, disk: map<int, B>)
    requires Inv(s) && OnDisk(s, disk, n)
    requires forall m | m != n :: s.handed[m] == held[m] && (m in s.unmarked <==> m in unmarked)
    requires if n in s.pages then s.pages[n].stage == Listed <==> p.stage == Listed else p.stage != Listed
    requires PageInv(p, held[n], n in unmarked, if n in disk then disk[n] else s.blank)
    ensures Inv(Touch(s, n, p, held, unmarked, disk))
  {
    hide PageInv;
    var t := Touch(s, n, p, held, unmarked, disk);
    forall m | m in t.handed ensures m in t.pages {
      assert m != n ==> m in s.handed;
    }
    forall m | m in t.unmarked ensures m in t.handed {
      if m == n {
        assert PageInv(p, held[n], n in unmarked, if n in disk then disk[n] else s.blank);
        ChangedIsHeld(p, held[n], if n in disk then disk[n] else s.blank);
      } else {
        assert m in s.unmarked && m in s.handed;
      }
    }
    forall m | m in t.pages
      ensures PageInv(t.pages[m], t.handed[m], m in t.unmarked, DiskAt(t, m))
      ensures t.pages[m].stage == Listed <==> m in t.lru
    {
      assert m != n ==> DiskAt(t, m) == DiskAt(s, m);
    }
  }

  lemma ChangedIsHeld<B>(p: Page<B>, held: nat, onDisk: B)
    requires PageInv(p, held, true, onDisk)
    ensures held > 0
  {
  }

  ghost predicate IsTail(tail: seq<int>, list: seq<int>) {
    |tail| <= |list| && list[|list| - |tail|..] == tail
  }

  lemma TailOfTail(tail: seq<int>, list: seq<int>)
    requires IsTail(tail, list)
    ensures tail != [] ==> IsTail(tail[1..], list)
  {
  }

  ghost predicate NoneTwice(list: seq<int>) {
    forall i, j | 0 <= i < j < |list| :: list[i] != list[j]
  }

  lemma NoneTwiceMore(list: seq<int>, n: int)
    requires NoneTwice(list) && n !in list
    ensures NoneTwice(list + [n])
    ensures forall m :: m in list + [n] <==> m == n || m in list
  {
  }

  lemma NoneTwiceLess(n: int, list: seq<int>)
    requires NoneTwice([n] + list)
    ensures NoneTwice(list) && n !in list
    ensures forall m :: m in [n] + list <==> m == n || m in list
  {
    var all := [n] + list;
    forall i, j | 0 <= i < j < |list| ensures list[i] != list[j] {
      assert all[i + 1] == list[i] && all[j + 1] == list[j];
    }
    forall j | 0 <= j < |list| ensures list[j] != n {
      assert all[0] == n && all[j + 1] == list[j];
    }
  }

  lemma OnceListed<B>(s: Cache<B>, n: int)
    requires Inv(s)
    ensures NoneTwice(s.lru) && (n in s.pages ==> (s.pages[n].stage == Listed <==> n in s.lru))
  {
  }

  /** A listed page moves: `n` is appended to the list, or leaves it at the front. */
  lemma ListStep<B>(s: Cache<B>, n: int, p: Page<B>, lru: seq<int>, evicting: int)
    requires Inv(s) && n in s.pages && p.stage in {Listed, Evicted}
    requires PageInv(p, s.handed[n], n in s.unmarked, DiskAt(s, n))
    requires if p.stage == Listed then s.pages[n].stage == Unlisted && lru == s.lru + [n]
             else s.pages[n].stage == Listed && s.lru == [n] + lru
    requires evicting > 0
    ensures Inv(Put(s, n, p).(lru := lru, footprint := |lru| * s.pageSize, evicting := evicting))
  {
    hide PageInv, NoneTwice;
    var t := Put(s, n, p).(lru := lru, footprint := |lru| * s.pageSize, evicting := evicting);
    OnceListed(s, n);
    if p.stage == Listed {
      NoneTwiceMore(s.lru, n);
    } else {
      NoneTwiceLess(n, lru);
    }
    assert forall i | 0 <= i < |t.lru| :: t.lru[i] in t.lru;
    forall m | m in t.pages
      ensures PageInv(t.pages[m], t.handed[m], m in t.unmarked, DiskAt(t, m))
      ensures t.pages[m].stage == Listed <==> m in t.lru
    {
      assert DiskAt(t, m) == DiskAt(s, m);
    }
  }

  lemma DropStep<B>(s: Cache<B>, n: int)
    requires Inv(s) && n in s.pages && s.pages[n].stage == Releasing && s.pages[n].waitQueue == []
    ensures Inv(s.(pages := s.pages - {n}))
  {
    assert PageInv(s.pages[n], s.handed[n], n in s.unmarked, DiskAt(s, n));
    assert s.pages[n].useCount == 0 && |s.pages[n].promised| >= 0;
    assert s.handed[n] == 0;
    forall i | 0 <= i < |s.lru| ensures s.lru[i] != n {
      assert s.lru[i] in s.lru;
    }
  }

  /** What the invariant says of one page. */
  ghost predicate PageOk<B>(s: Cache<B>, n: int)
    requires n in s.pages
  {
    PageInv(s.pages[n], s.handed[n], n in s.unmarked, DiskAt(s, n))
  }

  /** What is known of a page before it is wanted: its parts agree, or there is none of it. */
  ghost predicate PageKnown<B>(s: Cache<B>, n: int) {
    if n in s.pages then PageOk(s, n) else s.handed[n] == 0 && n !in s.unmarked
  }

  lemma RequestedPageOk<B>(s: Cache<B>, n: int, client: int)
    requires PageKnown(s, n)
    ensures PageOk(AfterRead(s, n, client), n)
    ensures Enabled(s, InitializePage(n, client)) ==> PageOk(AfterInitialize(s, n, client), n)
  {
  }

  lemma ReadInv<B>(s: Cache<B>, n: int, client: int)
    requires Inv(s)
    ensures Inv(AfterRead(s, n, client))
  {
    hide PageInv, NoneTwice, AfterInitialize;
    if n in s.pages {
      assert PageOk(s, n);
    } else {
      NotHeld(s, n);
    }
    RequestedPageOk(s, n, client);
    var t := AfterRead(s, n, client);
    OnePage(s, n, t.pages[n], t.handed, t.unmarked, t.disk);
  }

  lemma InitializeInv<B>(s: Cache<B>, n: int, client: int)
    requires Inv(s) && Enabled(s, InitializePage(n, client))
    ensures Inv(AfterInitialize(s, n, client))
  {
    hide PageInv, NoneTwice, AfterRead;
    if n in s.pages {
      assert PageOk(s, n);
    } else {
      NotHeld(s, n);
    }
    RequestedPageOk(s, n, client);
    var t := AfterInitialize(s, n, client);
    OnePage(s, n, t.pages[n], t.handed, t.unmarked, t.disk);
  }

  lemma NotHeld<B>(s: Cache<B>, n: int)
    requires Inv(s) && n !in s.pages
    ensures s.handed[n] == 0 && n !in s.unmarked
  {
    assert n in s.handed ==> n in s.pages;
  }

  lemma ReleasedPageOk<B>(s: Cache<B>, n: int)
    requires n in s.pages && PageOk(s, n) && Enabled(s, Event<B>.ReleasePage(n))
    ensures PageOk(AfterReleasePage(s, n), n)
  {
  }

  lemma ClientPageOk<B>(s: Cache<B>, e: Event<B>)
    requires Known(s) && Enabled(s, e) && (e.Change? || e.WritePage? || e.Complete?)
    requires e.n in s.pages && PageOk(s, e.n)
    ensures e.n in Step(s, e).pages && PageOk(Step(s, e), e.n)
  {
  }

  /** The steps of a client on a page it holds, and of a callback that hands one out. */
  lemma HeldStepInv<B>(s: Cache<B>, e: Event<B>)
    requires Inv(s) && Enabled(s, e)
    requires e.Change? || e.WritePage? || e.ReleasePage? || e.Complete?
    ensures Inv(Step(s, e))
  {
    hide PageInv, NoneTwice, DoRelease;
    var n, t := e.n, Step(s, e);
    assert PageOk(s, n);
    if e.ReleasePage? {
      ReleasedPageOk(s, n);
    } else {
      ClientPageOk(s, e);
    }
    HeldStage(s, e);
    OnePage(s, n, t.pages[n], t.handed, t.unmarked, t.disk);
  }

  lemma HeldStage<B>(s: Cache<B>, e: Event<B>)
    requires Known(s) && Enabled(s, e) && (e.Change? || e.WritePage? || e.ReleasePage? || e.Complete?)
    requires PageOk(s, e.n)
    ensures e.n in Step(s, e).pages && (s.pages[e.n].stage == Listed <==> Step(s, e).pages[e.n].stage == Listed)
  {
  }

  /** The steps of the cache on one page that stays in it and keeps its place in the list. */
  ghost predicate Loads<B>(s: Cache<B>, e: Event<B>) {
    && Enabled(s, e)
    && (e.Acquire? || e.Release? || e.DiskRead? || e.DiskWrite? || (e.FinishRelease? && s.pages[e.n].waitQueue != []))
  }

  lemma LoadedPageOk<B>(s: Cache<B>, e: Event<B>)
    requires Known(s) && Loads(s, e) && PageOk(s, e.n)
    ensures e.n in Step(s, e).pages && PageOk(Step(s, e), e.n)
  {
  }

  lemma LoadStage<B>(s: Cache<B>, e: Event<B>)
    requires Known(s) && Loads(s, e)
    ensures var t := Step(s, e);
            && e.n in t.pages && (s.pages[e.n].stage == Listed <==> t.pages[e.n].stage == Listed)
            && t == Touch(s, e.n, t.pages[e.n], s.handed, s.unmarked, t.disk) && OnDisk(s, t.disk, e.n)
  {
  }

  lemma LoadStepInv<B>(s: Cache<B>, e: Event<B>)
    requires Inv(s) && Loads(s, e)
    ensures Inv(Step(s, e))
  {
    hide PageInv, NoneTwice, Step;
    var n, t := e.n, Step(s, e);
    LoadStage(s, e);
    assert PageOk(s, n);
    LoadedPageOk(s, e);
    OnePage(s, n, t.pages[n], t.handed, t.unmarked, t.disk);
  }

  lemma StepInv<B>(s: Cache<B>, e: Event<B>)
    requires Inv(s) && Enabled(s, e)
    ensures Inv(Step(s, e))
  {
    hide PageInv;
    match e {
      case ReadPage(n, client) => ReadInv(s, n, client);
      case InitializePage(n, client) => InitializeInv(s, n, client);
      case Change(_, _) => HeldStepInv(s, e);
      case WritePage(_) => HeldStepInv(s, e);
      case ReleasePage(_) => HeldStepInv(s, e);
      case Complete(_) => HeldStepInv(s, e);
      case Enlist(n) => EnlistInv(s, n);
      case Evict => EvictInv(s);
      case LeaveLoop =>
      case FinishRelease(n) =>
        if s.pages[n].waitQueue == [] {
          DropInv(s, n);
        } else {
          LoadStepInv(s, e);
        }
      case _ => LoadStepInv(s, e);
    }
  }

  lemma DropInv<B>(s: Cache<B>, n: int)
    requires Inv(s) && Enabled(s, FinishRelease(n)) && s.pages[n].waitQueue == []
    ensures Inv(Step(s, FinishRelease(n)))
  {
    DropStep(s, n);
  }

  lemma StageKeepsPage<B>(p: Page<B>, stage: Stage, held: nat, changed: bool, onDisk: B)
    requires PageInv(p, held, changed, onDisk)
    requires p.stage in {Unlisted, Listed} && stage in {Listed, Evicted}
    ensures PageInv(p.(stage := stage), held, changed, onDisk)
  {
  }

  lemma EnlistInv<B>(s: Cache<B>, n: int)
    requires Inv(s) && Enabled(s, Enlist(n))
    ensures Inv(Step(s, Enlist(n)))
  {
    hide PageInv, NoneTwice;
    Distribute(|s.lru|, s.pageSize);
    assert PageOk(s, n);
    StageKeepsPage(s.pages[n], Listed, s.handed[n], n in s.unmarked, DiskAt(s, n));
    ListStep(s, n, s.pages[n].(stage := Listed), s.lru + [n], s.evicting + 1);
  }

  lemma FirstIsListed<B>(s: Cache<B>)
    requires Inv(s) && s.lru != []
    ensures s.lru[0] in s.pages && s.pages[s.lru[0]].stage == Listed && PageOk(s, s.lru[0])
    ensures s.footprint == |s.lru| * s.pageSize
  {
    hide PageInv, NoneTwice;
    assert s.lru[0] in s.lru;
    OnceListed(s, s.lru[0]);
  }

  lemma EvictInv<B>(s: Cache<B>)
    requires Inv(s) && Enabled(s, Event<B>.Evict)
    ensures Inv(Step(s, Event<B>.Evict))
  {
    hide PageInv, Inv;
    InvKnown(s);
    FirstIsListed(s);
    Distribute(|s.lru| - 1, s.pageSize);
    var n := s.lru[0];
    StageKeepsPage(s.pages[n], Evicted, s.handed[n], n in s.unmarked, DiskAt(s, n));
    assert s.lru == [n] + s.lru[1..];
    ListStep(s, n, s.pages[n].(stage := Evicted), s.lru[1..], s.evicting);
  }

  lemma Distribute(n: int, size: int)
    ensures (n + 1) * size == n * size + size
  {
  }

  // ------------------------------------------------------------------
  // Runs
  // ------------------------------------------------------------------

  ghost predicate Happens<B>(s: Cache<B>, e: Event<B>) {
    Known(s) && Enabled(s, e)
  }

  /** A run: which steps happened, in order. Steps that are not enabled do not happen. */
  ghost function Run<B>(s: Cache<B>, es: seq<Event<B>>): Cache<B> {
    if es == [] then s
    else
      var p := Run(s, es[..|es| - 1]);
      if Happens(p, es[|es| - 1]) then Step(p, es[|es| - 1]) else p
  }

  lemma InitialInv<B>(blank: B, limit: int, pageSize: int)
    requires limit >= 0
    ensures Inv(Initial(blank, limit, pageSize))
  {
  }

  lemma {:induction false} RunInv<B>(s: Cache<B>, es: seq<Event<B>>)
    requires Inv(s)
    ensures Inv(Run(s, es))
  {
    if es != [] {
      RunInv(s, es[..|es| - 1]);
      var p := Run(s, es[..|es| - 1]);
      if Happens(p, es[|es| - 1]) {
        StepInv(p, es[|es| - 1]);
      }
    }
  }

  /** A plain array of pages: only clients' changes matter. */
  ghost function Plain<B>(s: Cache<B>, es: seq<Event<B>>, n: int): B {
    if es == [] then Content(s, n)
    else
      var e := es[|es| - 1];
      if e.Change? && e.n == n && Happens(Run(s, es[..|es| - 1]), e) then e.b else Plain(s, es[..|es| - 1], n)
  }

  /** The page a step works on. */
  function Subject<B>(s: Cache<B>, e: Event<B>): int
    requires Enabled(s, e) && !e.LeaveLoop?
  {
    if e.Evict? then s.lru[0] else e.n
  }

  ghost predicate SamePage<B>(s: Cache<B>, t: Cache<B>, n: int) {
    && (n in t.pages <==> n in s.pages) && (n in s.pages ==> t.pages[n] == s.pages[n])
    && DiskAt(t, n) == DiskAt(s, n)
  }

  ghost predicate ByClient<B>(e: Event<B>) {
    e.ReadPage? || e.InitializePage? || e.Change? || e.WritePage? || e.ReleasePage? || e.Complete?
  }

  lemma OthersOfRequest<B>(s: Cache<B>, n: int, client: int, m: int)
    requires m != n
    ensures SamePage(s, AfterRead(s, n, client), m)
    ensures SamePage(s, AfterInitialize(s, n, client), m)
  {
    hide NewPage;
  }

  lemma OthersOfRelease<B>(s: Cache<B>, n: int, m: int)
    requires n in s.pages && m != n
    ensures SamePage(s, AfterReleasePage(s, n), m)
  {
    hide DoRelease;
  }

  lemma OthersUntouchedByClient<B>(s: Cache<B>, e: Event<B>, n: int)
    requires Known(s) && Enabled(s, e) && ByClient(e) && n != e.n
    ensures SamePage(s, Step(s, e), n)
  {
    hide AfterRead, AfterInitialize, AfterReleasePage;
    match e
    case ReadPage(m, client) => OthersOfRequest(s, m, client, n);
    case InitializePage(m, client) => OthersOfRequest(s, m, client, n);
    case ReleasePage(m) => OthersOfRelease(s, m, n);
    case _ =>
  }

  lemma OthersUntouchedByCache<B>(s: Cache<B>, e: Event<B>, n: int)
    requires Known(s) && Enabled(s, e) && !ByClient(e) && (e.LeaveLoop? || n != Subject(s, e))
    ensures SamePage(s, Step(s, e), n)
  {
    hide DoRelease;
  }

  /** A step leaves every other page and its place on the disk alone. */
  lemma OthersUntouched<B>(s: Cache<B>, e: Event<B>, n: int)
    requires Known(s) && Enabled(s, e) && (e.LeaveLoop? || n != Subject(s, e))
    ensures SamePage(s, Step(s, e), n)
  {
    hide Step, Known, SamePage;
    if ByClient(e) {
      OthersUntouchedByClient(s, e, n);
    } else {
      OthersUntouchedByCache(s, e, n);
    }
  }

  lemma ClientContent<B>(s: Cache<B>, e: Event<B>)
    requires Known(s) && Enabled(s, e) && ByClient(e)
    requires e.n in s.pages ==> PageOk(s, e.n)
    ensures Content(Step(s, e), e.n) == if e.Change? then e.b else Content(s, e.n)
  {
  }

  lemma CacheContent<B>(s: Cache<B>, e: Event<B>)
    requires Known(s) && Enabled(s, e) && !ByClient(e) && !e.LeaveLoop?
    requires Subject(s, e) in s.pages ==> PageOk(s, Subject(s, e))
    requires e.Evict? ==> s.pages[s.lru[0]].stage == Listed
    ensures Content(Step(s, e), Subject(s, e)) == Content(s, Subject(s, e))
  {
  }

  lemma SubjectContent<B>(s: Cache<B>, e: Event<B>)
    requires Known(s) && Enabled(s, e) && !e.LeaveLoop?
    requires Subject(s, e) in s.pages ==> PageOk(s, Subject(s, e))
    requires e.Evict? ==> s.pages[s.lru[0]].stage == Listed
    ensures Content(Step(s, e), Subject(s, e)) == if e.Change? then e.b else Content(s, Subject(s, e))
  {
    hide Step, Known, PageInv, Content;
    if ByClient(e) {
      ClientContent(s, e);
    } else {
      CacheContent(s, e);
    }
  }

  /** No step but a client's change alters what a page holds. */
  lemma ContentStep<B>(s: Cache<B>, e: Event<B>, n: int)
    requires Inv(s) && Enabled(s, e)
    ensures Content(Step(s, e), n) == if e.Change? && e.n == n then e.b else Content(s, n)
  {
    hide PageInv, Step;
    if !e.LeaveLoop? && n == Subject(s, e) {
      assert e.Evict? ==> s.lru[0] in s.lru;
      SubjectContent(s, e);
    } else {
      OthersUntouched(s, e, n);
    }
  }

  /** Over every run the cache is a plain array of pages. */
  lemma {:induction false} CacheIsTransparent<B>(s: Cache<B>, es: seq<Event<B>>, n: int)
    requires Inv(s)
    ensures Content(Run(s, es), n) == Plain(s, es, n)
  {
    if es != [] {
      CacheIsTransparent(s, es[..|es| - 1], n);
      RunInv(s, es[..|es| - 1]);
      var p := Run(s, es[..|es| - 1]);
      if Happens(p, es[|es| - 1]) {
        ContentStep(p, es[|es| - 1], n);
      }
    }
  }

  /** The buffer a client gets when its request is answered at once or its callback runs. */
  ghost predicate HandsOut<B>(s: Cache<B>, e: Event<B>) {
    && Happens(s, e)
    && match e
       case ReadPage(n, _) => n in s.pages && s.pages[n].loaded && !s.pages[n].release
       case InitializePage(n, _) => n in s.pages && !s.pages[n].release
       case Complete(_) => true
       case _ => false
  }

  /** Whatever is handed out shows the plain array; while a page is held its buffer stays. */
  lemma HandedOutIsPlain<B>(s: Cache<B>, es: seq<Event<B>>, e: Event<B>)
    requires Inv(s) && HandsOut(Run(s, es), e)
    ensures Run(s, es).pages[e.n].buffer == Plain(s, es, e.n)
    ensures Step(Run(s, es), e).handed == Run(s, es).handed + multiset{e.n}
  {
    RunInv(s, es);
    CacheIsTransparent(s, es, e.n);
    var p := Run(s, es);
    assert PageInv(p.pages[e.n], p.handed[e.n], e.n in p.unmarked, DiskAt(p, e.n));
  }

  /** Held pages are loaded and show the plain array. */
  lemma HeldIsPlain<B>(s: Cache<B>, es: seq<Event<B>>, n: int)
    requires Inv(s) && n in Run(s, es).handed
    ensures n in Run(s, es).pages && Run(s, es).pages[n].loaded && Run(s, es).pages[n].buffer == Plain(s, es, n)
  {
    RunInv(s, es);
    CacheIsTransparent(s, es, n);
    var p := Run(s, es);
    assert PageInv(p.pages[n], p.handed[n], n in p.unmarked, DiskAt(p, n));
  }

  /** Pins: a page's use count is the number of references handed out or promised, so a page
      that is unloaded, being written back or about to be dropped has none; a loaded page
      marked for release is always pinned; and no page ever waits for an initialization. */
  lemma PinSafety<B>(s: Cache<B>, es: seq<Event<B>>, n: int)
    requires Inv(s) && n in Run(s, es).pages
    ensures var t := Run(s, es);
            var p := t.pages[n];
            && p.useCount == t.handed[n] + |p.promised|
            && (!p.loaded ==> n !in t.handed && p.promised == [])
            && (p.loaded && p.release ==> p.useCount > 0)
            && !p.initialize
  {
    RunInv(s, es);
    assert PageOk(Run(s, es), n);
  }

  /** Those who wait for a page keep their places until the next load, which serves them all,
      in order. */
  lemma WaitersServed<B>(s: Cache<B>, e: Event<B>, n: int)
    requires Inv(s) && Enabled(s, e) && n in s.pages && s.pages[n].waitQueue != []
    ensures n in Step(s, e).pages
    ensures var p := s.pages[n]; var q := Step(s, e).pages[n];
            if e == DiskRead(n) then q.loaded && q.waitQueue == [] && q.promised == p.waitQueue
                && q.useCount == |p.waitQueue|
            else p.waitQueue <= q.waitQueue
  {
    hide PageInv, Inv;
    NotInitializing(s, n);
    if e.LeaveLoop? || n != Subject(s, e) {
      OthersUntouched(s, e, n);
    }
  }

  lemma NotInitializing<B>(s: Cache<B>, n: int)
    requires Inv(s) && n in s.pages
    ensures Known(s) && !s.pages[n].initialize
  {
    assert PageOk(s, n);
  }

  /** A page leaves the cache only when nobody uses it or waits for it and the disk has what it
      held; in particular a page marked dirty is written first. */
  lemma DroppedWhenDone<B>(s: Cache<B>, e: Event<B>, n: int)
    requires Inv(s) && Enabled(s, e) && n in s.pages && n !in Step(s, e).pages
    ensures s.pages[n].waitQueue == [] && s.pages[n].promised == [] && n !in s.handed && !s.pages[n].dirty
    ensures Content(s, n) == DiskAt(s, n) == DiskAt(Step(s, e), n)
  {
    assert PageOk(s, n);
  }

  /** A dirty mark is only taken away by writing the marked buffer to the disk. */
  lemma DirtyIsWritten<B>(s: Cache<B>, e: Event<B>, n: int)
    requires Inv(s) && Enabled(s, e) && n in s.pages && s.pages[n].dirty
    requires n in Step(s, e).pages ==> !Step(s, e).pages[n].dirty
    ensures e == DiskWrite(n) && DiskAt(Step(s, e), n) == s.pages[n].buffer == Content(s, n)
  {
    hide PageInv, Inv;
    CleanBeforeDropped(s, n);
    if e.LeaveLoop? || n != Subject(s, e) {
      OthersUntouched(s, e, n);
    }
  }

  lemma CleanBeforeDropped<B>(s: Cache<B>, n: int)
    requires Inv(s) && n in s.pages
    ensures Known(s) && (s.pages[n].stage == Releasing ==> !s.pages[n].dirty)
  {
    assert PageOk(s, n);
  }

  /** While the footprint is over the limit there is a page to release: the sentinel, whose
      `release` throws, is never reached. */
  lemma SomethingToRelease<B>(s: Cache<B>, es: seq<Event<B>>)
    requires Inv(s) && Run(s, es).footprint > Run(s, es).limit >= 0
    ensures Run(s, es).lru != []
  {
    hide Inv, Step, Happens;
    RunInv(s, es);
    NotEmpty(Run(s, es));
  }

  /** Whenever no thread is in its release loop, the footprint is within the limit, whatever
      other threads acquired between two releases. */
  lemma WithinLimit<B>(s: Cache<B>, es: seq<Event<B>>)
    requires Inv(s) && Run(s, es).evicting == 0
    ensures Run(s, es).footprint == |Run(s, es).lru| * Run(s, es).pageSize <= Run(s, es).limit
  {
    RunInv(s, es);
  }

  /** The pages that a step puts on the list, and those it takes off. */
  ghost function Joining<B>(s: Cache<B>, e: Event<B>): seq<int> {
    if e.Enlist? && Happens(s, e) then [e.n] else []
  }

  ghost function Leaving<B>(s: Cache<B>, e: Event<B>): seq<int> {
    if e.Evict? && Happens(s, e) then [s.lru[0]] else []
  }

  /** The pages that joined the list over a run, and those that were taken off it, in order. */
  ghost function Enlisted<B>(s: Cache<B>, es: seq<Event<B>>): seq<int> {
    if es == [] then []
    else
      var n := |es| - 1;
      Enlisted(s, es[..n]) + Joining(Run(s, es[..n]), es[n])
  }

  ghost function EvictedFrom<B>(s: Cache<B>, es: seq<Event<B>>): seq<int> {
    if es == [] then []
    else
      var n := |es| - 1;
      EvictedFrom(s, es[..n]) + Leaving(Run(s, es[..n]), es[n])
  }

  lemma ListKeptByClient<B>(s: Cache<B>, e: Event<B>)
    requires Happens(s, e) && ByClient(e)
    ensures Step(s, e).lru == s.lru
  {
    hide DoRelease, NewPage, Enabled;
  }

  lemma ListKeptByCache<B>(s: Cache<B>, e: Event<B>)
    requires Happens(s, e) && !ByClient(e) && !e.Enlist? && !e.Evict?
    ensures Step(s, e).lru == s.lru
  {
    hide DoRelease, Enabled;
  }

  lemma ListMoves<B>(s: Cache<B>, e: Event<B>)
    requires Happens(s, e) && (e.Enlist? || e.Evict?)
    ensures if e.Enlist? then Step(s, e).lru == s.lru + [e.n] else s.lru == [s.lru[0]] + Step(s, e).lru
  {
  }

  lemma ListChange<B>(s: Cache<B>, e: Event<B>)
    ensures s.lru + Joining(s, e) == Leaving(s, e) + (if Happens(s, e) then Step(s, e).lru else s.lru)
  {
    hide Step, Happens;
    if Happens(s, e) {
      if ByClient(e) {
        ListKeptByClient(s, e);
      } else if e.Enlist? || e.Evict? {
        ListMoves(s, e);
      } else {
        ListKeptByCache(s, e);
      }
    }
  }

  /** Over every run, however threads interleave, pages leave the list in the order in which they
      joined it: the one released is always the least recently acquired. */
  lemma {:induction false} FirstInFirstOut<B>(s: Cache<B>, es: seq<Event<B>>)
    ensures s.lru + Enlisted(s, es) == EvictedFrom(s, es) + Run(s, es).lru
  {
    if es != [] {
      hide Step, Happens, Joining, Leaving;
      var n := |es| - 1;
      FirstInFirstOut(s, es[..n]);
      var p := Run(s, es[..n]);
      ListChange(p, es[n]);
      QueueStep(s.lru, Enlisted(s, es[..n]), EvictedFrom(s, es[..n]), p.lru, Run(s, es).lru,
                Joining(p, es[n]), Leaving(p, es[n]));
    }
  }

  lemma QueueStep(start: seq<int>, joined: seq<int>, left: seq<int>, before: seq<int>, after: seq<int>,
                  entering: seq<int>, leaving: seq<int>)
    requires start + joined == left + before && before + entering == leaving + after
    ensures start + (joined + entering) == (left + leaving) + after
  {
    assert start + (joined + entering) == (start + joined) + entering;
    assert (left + before) + entering == left + (before + entering);
    assert left + (leaving + after) == (left + leaving) + after;
  }

  // ------------------------------------------------------------------
  // The cache
  // ------------------------------------------------------------------

  class PageCache<B> {
    var pages: map<int, Page<B>>
    var disk: map<int, B>
    const blank: B
    var lru: seq<int>
    var footprint: int
    const limit: int
    const pageSize: int
    ghost var evicting: int
    ghost var handed: multiset<int>
    ghost var unmarked: set<int>

    ghost function Now(): Cache<B>
      reads this
    {
      Cache(pages, disk, blank, lru, footprint, limit, pageSize, evicting, handed, unmarked)
    }

    constructor (blank: B, limit: int, pageSize: int)
      requires limit >= 0
      ensures Inv(Now()) && Now() == Initial(blank, limit, pageSize)
    {
      this.blank, this.limit, this.pageSize := blank, limit, pageSize;
      pages, disk, lru, footprint := map[], map[], [], 0;
      evicting, handed, unmarked := 0, multiset{}, {};
    }

    /** Answers at once, or queues the client; a page that was not present is to be acquired. */
    method ReadPage(n: int, client: int) returns (answer: bool)
      requires Inv(Now())
      modifies this`pages, this`handed
      ensures Inv(Now()) && Now() == Step(old(Now()), Event.ReadPage(n, client))
      ensures answer <==> HandsOut(old(Now()), Event.ReadPage(n, client))
      ensures answer <==> n in old(pages) && old(pages)[n].loaded && !old(pages)[n].release
      ensures answer ==> n in pages && handed == old(handed) + multiset{n}
                         && pages[n] == old(pages)[n].(useCount := old(pages)[n].useCount + 1)
      ensures !answer ==> n in pages && handed == old(handed) && pages[n].promised + pages[n].waitQueue
                          == (if n in old(pages) then old(pages)[n].promised + old(pages)[n].waitQueue else [])
                             + [client]
    {
      hide PageInv, Inv;
      InvKnown(Now());
      StepInv(Now(), Event.ReadPage(n, client));
      answer := false;
      if n !in pages {
        pages := pages[n := Page(Wanted, false, blank, false, false, false, false, 0, [client], [])];
      } else {
        var info := pages[n];
        if info.loaded && !info.release {
          pages := pages[n := info.(useCount := info.useCount + 1)];
          handed := handed + multiset{n};
          answer := true;
        } else {
          pages := pages[n := info.(waitQueue := info.waitQueue + [client])];
        }
      }
    }

    method InitializePage(n: int, client: int) returns (answer: bool)
      requires Inv(Now()) && Enabled(Now(), Event.InitializePage(n, client))
      modifies this`pages, this`handed
      ensures Inv(Now()) && Now() == Step(old(Now()), Event.InitializePage(n, client))
      ensures answer <==> HandsOut(old(Now()), Event.InitializePage(n, client))
    {
      hide PageInv, Inv;
      InvKnown(Now());
      StepInv(Now(), Event.InitializePage(n, client));
      answer := false;
      if n !in pages {
        pages := pages[n := Page(Wanted, false, blank, false, false, false, false, 0, [client], [])];
      } else {
        var info := pages[n];
        if !info.release {
          pages := pages[n := info.(useCount := 1)];
          handed := handed + multiset{n};
          answer := true;
        } else {
          pages := pages[n := info.(initialize := true, waitQueue := info.waitQueue + [client])];
        }
      }
    }

    method WritePage(n: int)
      requires Inv(Now()) && n in handed
      modifies this`pages, this`unmarked
      ensures Inv(Now()) && Now() == Step(old(Now()), Event.WritePage(n))
    {
      hide PageInv, Inv;
      InvKnown(Now());
      StepInv(Now(), Event.WritePage(n));
      pages := pages[n := pages[n].(dirty := true)];
      unmarked := unmarked - {n};
    }

    method ReleasePage(n: int)
      requires Inv(Now()) && Enabled(Now(), Event.ReleasePage(n))
      modifies this`pages, this`handed
      ensures Inv(Now()) && Now() == Step(old(Now()), Event.ReleasePage(n))
    {
      hide PageInv, Inv;
      InvKnown(Now());
      StepInv(Now(), Event.ReleasePage(n));
      var info := pages[n].(useCount := pages[n].useCount - 1);
      if info.useCount == 0 && info.release {
        info := DoRelease(info);
      }
      pages := pages[n := info];
      handed := handed - multiset{n};
    }

    /** `PageInfo::acquire`. */
    method Acquire(n: int)
      requires Inv(Now()) && n in pages && pages[n].stage == Wanted
      modifies this`pages
      ensures Inv(Now()) && Now() == Step(old(Now()), Event.Acquire(n))
    {
      hide PageInv, Inv;
      InvKnown(Now());
      StepInv(Now(), Event.Acquire(n));
      var info := pages[n].(buffer := blank, stage := Unlisted);
      if info.initialize {
        info := info.(initialize := false, loaded := true, useCount := 1, promised := info.waitQueue, waitQueue := []);
      } else {
        info := info.(reading := true);
      }
      pages := pages[n := info];
    }

    /** The rest of `CacheHost::requestAcquire`: the page joins the list at its end. */
    method Enlist(n: int)
      requires Inv(Now()) && n in pages && pages[n].stage == Unlisted
      modifies this`pages, this`lru, this`footprint, this`evicting
      ensures Inv(Now()) && Now() == Step(old(Now()), Event.Enlist(n))
    {
      hide PageInv, Inv;
      InvKnown(Now());
      StepInv(Now(), Event.Enlist(n));
      pages := pages[n := pages[n].(stage := Listed)];
      lru := lru + [n];
      footprint := footprint + pageSize;
      evicting := evicting + 1;
    }

    /** `CacheHost::releaseItem` up to the point where it gives up the list lock. */
    method Evict() returns (n: int)
      requires Inv(Now()) && evicting > 0 && footprint > limit && lru != []
      modifies this`pages, this`lru, this`footprint
      ensures Inv(Now()) && Now() == Step(old(Now()), Event<B>.Evict) && n == old(lru)[0]
    {
      hide PageInv, Inv;
      InvKnown(Now());
      StepInv(Now(), Event<B>.Evict);
      n := lru[0];
      pages := pages[n := pages[n].(stage := Evicted)];
      lru := lru[1..];
      footprint := footprint - pageSize;
    }

    /** `PageInfo::release`. */
    method Release(n: int)
      requires Inv(Now()) && n in pages && pages[n].stage == Evicted
      modifies this`pages
      ensures Inv(Now()) && Now() == Step(old(Now()), Event.Release(n))
    {
      hide PageInv, Inv;
      InvKnown(Now());
      StepInv(Now(), Event.Release(n));
      var info := pages[n].(release := true, stage := Flagged);
      if info.loaded && info.useCount == 0 {
        info := DoRelease(info);
      }
      pages := pages[n := info];
    }

    /** The loop, for a thread that nobody disturbs between two releases: it ends with the
        footprint within the limit, it never reaches the sentinel, and no page's content changes.
        `WithinLimit` and `FirstInFirstOut` are about threads that interleave. */
    method EvictAll()
      requires Inv(Now()) && limit >= 0 && evicting > 0
      modifies this`pages, this`lru, this`footprint, this`evicting
      ensures Inv(Now()) && footprint <= limit && IsTail(lru, old(lru))
      ensures forall n :: Content(Now(), n) == old(Content(Now(), n))
    {
      hide PageInv, Inv, Content, Step;
      ghost var all := lru;
      while footprint > limit
        invariant Inv(Now()) && evicting == old(evicting) && IsTail(lru, all)
        invariant forall n :: Content(Now(), n) == old(Content(Now(), n))
        decreases |lru|
      {
        TailOfTail(lru, all);
        EvictOne();
      }
      ghost var s := Now();
      InvKnown(s);
      StepInv(s, Event<B>.LeaveLoop);
      LeaveLoopState(s);
      evicting := evicting - 1;
    }

    /** One round of the loop, undisturbed. */
    method EvictOne()
      requires Inv(Now()) && limit >= 0 && evicting > 0 && footprint > limit
      modifies this`pages, this`lru, this`footprint
      ensures Inv(Now()) && old(lru) != [] && lru == old(lru)[1..]
      ensures forall n :: Content(Now(), n) == old(Content(Now(), n))
    {
      hide PageInv, Inv, Content, Step;
      NotEmpty(Now());
      ghost var s := Now();
      var n := Evict();
      AfterEvictState(s);
      ghost var t := Now();
      Release(n);
      AfterReleaseState(t, n);
    }

    method DiskRead(n: int)
      requires Inv(Now()) && n in pages && pages[n].reading
      modifies this`pages
      ensures Inv(Now()) && Now() == Step(old(Now()), Event.DiskRead(n))
    {
      hide PageInv, Inv;
      InvKnown(Now());
      StepInv(Now(), Event.DiskRead(n));
      var info := pages[n];
      var buffer := if n in disk then disk[n] else blank;
      pages := pages[n := info.(reading := false, buffer := buffer, loaded := true, useCount := |info.waitQueue|,
                                promised := info.waitQueue, waitQueue := [])];
    }

    /** `ReadClosure::complete`: a waiting client gets the buffer. */
    method Complete(n: int) returns (client: int, buffer: B)
      requires Inv(Now()) && n in pages && pages[n].promised != []
      modifies this`pages, this`handed
      ensures Inv(Now()) && Now() == Step(old(Now()), Event.Complete(n))
      ensures client == old(pages[n].promised)[0] && buffer == old(Content(Now(), n))
    {
      hide PageInv, Inv;
      InvKnown(Now());
      StepInv(Now(), Event.Complete(n));
      PromisedIsLoaded(Now(), n);
      client, buffer := pages[n].promised[0], pages[n].buffer;
      pages := pages[n := pages[n].(promised := pages[n].promised[1..])];
      handed := handed + multiset{n};
    }

    method DiskWrite(n: int)
      requires Inv(Now()) && n in pages && pages[n].stage == Writing
      modifies this`pages, this`disk
      ensures Inv(Now()) && Now() == Step(old(Now()), Event.DiskWrite(n))
    {
      hide PageInv, Inv;
      InvKnown(Now());
      StepInv(Now(), Event.DiskWrite(n));
      disk := disk[n := pages[n].buffer];
      pages := pages[n := pages[n].(dirty := false, stage := Releasing)];
    }

    method FinishRelease(n: int)
      requires Inv(Now()) && n in pages && pages[n].stage == Releasing
      modifies this`pages
      ensures Inv(Now()) && Now() == Step(old(Now()), Event.FinishRelease(n))
    {
      hide PageInv, Inv;
      InvKnown(Now());
      StepInv(Now(), Event.FinishRelease(n));
      if pages[n].waitQueue == [] {
        pages := pages - {n};
      } else {
        pages := pages[n := pages[n].(stage := Wanted)];
      }
    }
  }

  lemma InvKnown<B>(s: Cache<B>)
    requires Inv(s)
    ensures Known(s)
  {
  }

  lemma PromisedIsLoaded<B>(s: Cache<B>, n: int)
    requires Inv(s) && n in s.pages && s.pages[n].promised != []
    ensures s.pages[n].loaded
  {
    assert PageOk(s, n);
  }

  lemma NotEmpty<B>(s: Cache<B>)
    requires Inv(s) && s.footprint > s.limit >= 0
    ensures s.lru != []
  {
    hide PageInv, NoneTwice;
    assert 0 * s.pageSize == 0;
  }

  lemma AfterEvictState<B>(s: Cache<B>)
    requires Inv(s) && Enabled(s, Event<B>.Evict)
    ensures var t := Step(s, Event<B>.Evict);
            && t.evicting == s.evicting && t.lru == s.lru[1..] && s.lru[0] in t.pages
            && t.pages[s.lru[0]].stage == Evicted
            && forall n :: Content(t, n) == Content(s, n)
  {
    forall n ensures Content(Step(s, Event<B>.Evict), n) == Content(s, n) {
      ContentStep(s, Event<B>.Evict, n);
    }
  }

  lemma LeaveLoopState<B>(s: Cache<B>)
    requires Known(s) && Enabled(s, Event<B>.LeaveLoop)
    ensures Step(s, Event<B>.LeaveLoop) == s.(evicting := s.evicting - 1)
    ensures forall n :: Content(Step(s, Event<B>.LeaveLoop), n) == Content(s, n)
  {
  }

  lemma AfterReleaseState<B>(s: Cache<B>, n: int)
    requires Inv(s) && Enabled(s, Release(n))
    ensures Step(s, Release(n)).lru == s.lru && Step(s, Release(n)).footprint == s.footprint
    ensures Step(s, Release(n)).evicting == s.evicting
    ensures forall m :: Content(Step(s, Release(n)), m) == Content(s, m)
  {
    forall m ensures Content(Step(s, Release(n)), m) == Content(s, m) {
      ContentStep(s, Release(n), m);
    }
  }
}
