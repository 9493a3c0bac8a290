/** Per-thread heaps and their merge (ThreadMemPool, DFSWorker::doWork, DFSearch::MergeDFS). */
module MergeHeaps {
  import opened Prelude
  import opened PathHeap
  import opened DayPlan
  import opened DaySearch
  import opened DayOptimal
  import opened JoinDays

  /** One root path to refine: a worker's job. */
  datatype Job = Job(root: Root, days: seq<Day>)

  ghost predicate ValidJob(j: Job) {
    forall d :: d in j.days ==> WellFormed(d)
  }

  /** The heaps of one thread, one per point-set hash. */
  type Heaps = map<int, Heap>

  /** The per-day lists the worker's day searches produce; a day with too many places gives none. */
  ghost function DayLists(days: seq<Day>, dayK: nat): (r: seq<seq<SPath>>)
    requires 1 <= dayK && forall d :: d in days ==> WellFormed(d)
    ensures |r| == |days|
  {
    if days == [] then []
    else [DayList(days[0], dayK)] + DayLists(days[1..], dayK)
  }

  ghost function DayList(d: Day, dayK: nat): seq<SPath>
    requires 1 <= dayK && WellFormed(d)
  {
    if d.n > DAY_NODE_LIMIT then [] else Searched(d, Empty(dayK), Leaves(d, [0])).queue
  }

  ghost function Routes(j: Job, dayK: nat): seq<SPath>
    requires 1 <= dayK && ValidJob(j)
  {
    Joined(j.root, DayLists(j.days, dayK), [])
  }

  ghost function HeapFor(heaps: Heaps, k: nat, hash: int): Heap {
    if hash in heaps then heaps[hash] else Empty(k)
  }

  ghost predicate ValidHeaps(heaps: Heaps, k: nat) {
    forall n :: n in heaps ==> PathHeap.Valid(heaps[n]) && heaps[n].topK == k
  }

  /** The thread's heaps after one job. */
  ghost function AfterJob(heaps: Heaps, k: nat, j: Job, dayK: nat): Heaps
    requires 1 <= k && 1 <= dayK && ValidJob(j) && ValidHeaps(heaps, k)
  {
    var hash := j.root.hashPointSet;
    heaps[hash := OfferAll(HeapFor(heaps, k, hash), Routes(j, dayK))]
  }

  lemma {:induction false} OfferAllValid(h: Heap, ps: seq<SPath>)
    requires PathHeap.Valid(h)
    ensures PathHeap.Valid(OfferAll(h, ps))
    decreases |ps|
  {
    if ps != [] {
      OfferValid(h, ps[0]);
      OfferAllValid(Offer(h, ps[0]), ps[1..]);
    }
  }

  // ----- The classes

  class ThreadMemPool {
    const topK: nat
    var dfsHeapMap: map<int, SPathHeap>

    ghost predicate Valid()
      reads this, dfsHeapMap.Values
    {
      && 1 <= topK
      && (forall a, b :: a in dfsHeapMap && b in dfsHeapMap && a != b ==> dfsHeapMap[a] != dfsHeapMap[b])
      && ValidHeaps(Heaps(), topK)
    }

    ghost function Heaps(): Heaps
      reads this, dfsHeapMap.Values
    {
      map n | n in dfsHeapMap :: dfsHeapMap[n].State()
    }

    constructor (k: nat)
      requires 1 <= k
      ensures Valid() && topK == k && Heaps() == map[]
    {
      topK, dfsHeapMap := k, map[];
    }

    method GetDFSHeap(hash: int) returns (h: SPathHeap)
      requires Valid()
      modifies this
      ensures Valid() && hash in dfsHeapMap && dfsHeapMap[hash] == h
      ensures forall o :: o in dfsHeapMap.Values ==> o in old(dfsHeapMap.Values) || fresh(o)
      ensures Heaps() == old(Heaps())[hash := HeapFor(old(Heaps()), topK, hash)]
    {
      if hash !in dfsHeapMap {
        var n := new SPathHeap(topK);
        dfsHeapMap := dfsHeapMap[hash := n];
      }
      h := dfsHeapMap[hash];
      assert Heaps() == old(Heaps())[hash := HeapFor(old(Heaps()), topK, hash)];
    }

    /** DFSWorker::doWork on this thread's pool. */
    method DoWork(j: Job, dayK: nat, noPrune: bool)
      requires Valid() && ValidJob(j) && 1 <= dayK
      modifies this, dfsHeapMap.Values
      ensures Valid()
      ensures forall o :: o in dfsHeapMap.Values ==> o in old(dfsHeapMap.Values) || fresh(o)
      ensures Heaps() == AfterJob(old(Heaps()), topK, j, dayK)
    {
      var daySPList := SearchDays(j.days, dayK, noPrune);
      JoinInto(j.root, daySPList, noPrune);
    }

    /** The part of doWork that joins the days into the heap of the root path's point set. */
    method JoinInto(root: Root, daySPList: seq<seq<SPath>>, noPrune: bool)
      requires Valid() && forall day :: day in daySPList ==> ClashesCounted(day)
      modifies this, dfsHeapMap.Values
      ensures Valid()
      ensures forall o :: o in dfsHeapMap.Values ==> o in old(dfsHeapMap.Values) || fresh(o)
      ensures Heaps() == old(Heaps())[root.hashPointSet :=
        OfferAll(HeapFor(old(Heaps()), topK, root.hashPointSet), Joined(root, daySPList, []))]
    {
      var hash := root.hashPointSet;
      var heap := GetDFSHeap(hash);
      JoinAt(hash, heap, root, daySPList, noPrune);
    }

    method JoinAt(hash: int, heap: SPathHeap, root: Root, daySPList: seq<seq<SPath>>, noPrune: bool)
      requires Valid() && hash in dfsHeapMap && dfsHeapMap[hash] == heap
      requires forall day :: day in daySPList ==> ClashesCounted(day)
      modifies heap
      ensures Valid()
      ensures Heaps() == old(Heaps())[hash := OfferAll(old(Heaps()[hash]), Joined(root, daySPList, []))]
    {
      assert Heaps()[hash] == heap.State();
      ghost var h := heap.State();
      ghost var before := Heaps();
      RunWorker(heap, root, daySPList, noPrune);
      assert forall n :: n in dfsHeapMap && n != hash ==> dfsHeapMap[n] != heap;
      assert Heaps() == before[hash := heap.State()];
    }
  }

  method RunWorker(heap: SPathHeap, root: Root, daySPList: seq<seq<SPath>>, noPrune: bool)
    requires PathHeap.Valid(heap.State()) && forall day :: day in daySPList ==> ClashesCounted(day)
    modifies heap
    ensures PathHeap.Valid(heap.State()) && heap.topK == old(heap.topK)
    ensures heap.State() == OfferAll(old(heap.State()), Joined(root, daySPList, []))
  {
    var worker := new DFSWorker(root, heap, noPrune);
    worker.JoinDayPath(daySPList);
    assert heap.State().topK == old(heap.State()).topK;
  }

  /** The loop of doWork that searches each day. */
  method SearchDays(days: seq<Day>, dayK: nat, noPrune: bool) returns (daySPList: seq<seq<SPath>>)
    requires 1 <= dayK && forall d :: d in days ==> WellFormed(d)
    ensures daySPList == DayLists(days, dayK)
    ensures forall day :: day in daySPList ==> ClashesCounted(day)
  {
    daySPList := [];
    for b := 0 to |days|
      invariant daySPList == DayLists(days, dayK)[..b]
      invariant forall day :: day in daySPList ==> ClashesCounted(day)
    {
      var list := SearchDay(days[b], dayK, noPrune);
      DayListsAt(days, dayK, b);
      daySPList := daySPList + [list];
    }
  }

  lemma {:induction false} DayListsAt(days: seq<Day>, dayK: nat, b: nat)
    requires 1 <= dayK && b < |days| && forall d :: d in days ==> WellFormed(d)
    ensures days[b] in days && DayLists(days, dayK)[b] == DayList(days[b], dayK)
  {
    if b > 0 {
      DayListsAt(days[1..], dayK, b - 1);
    }
  }

  method SearchDay(d: Day, dayK: nat, noPrune: bool) returns (list: seq<SPath>)
    requires 1 <= dayK && WellFormed(d)
    ensures list == DayList(d, dayK) && ClashesCounted(list)
  {
    DayListCounted(d, dayK);
    var r := DoSearch(d, dayK, noPrune);
    list := if r.Some? then r.value else [];
  }

  lemma DayListCounted(d: Day, dayK: nat)
    requires WellFormed(d) && 1 <= dayK
    ensures ClashesCounted(DayList(d, dayK))
  {
    if d.n <= DAY_NODE_LIMIT {
      SearchVisitsAll(d);
      var ps := PathsOf(d, Leaves(d, [0]));
      forall p | p in ps
        ensures 0 <= p.clash
      {
        PathsOfMember(d, Leaves(d, [0]), p);
        var o :| o in Leaves(d, [0]) && PathOf(d, o) == Some(p);
        FirstLRange(d, o, 1, d.start, d.restNeed, 0);
      }
      OfferAllCounted(Empty(dayK), ps);
    }
  }

  lemma {:induction false} OfferAllCounted(h: Heap, ps: seq<SPath>)
    requires 1 <= h.topK && ClashesCounted(h.queue) && ClashesCounted(ps)
    ensures ClashesCounted(OfferAll(h, ps).queue)
    decreases |ps|
  {
    if ps != [] {
      assert ps[0] in ps && forall p :: p in ps[1..] ==> p in ps;
      OfferAllCounted(Offer(h, ps[0]), ps[1..]);
    }
  }
}
