/** Merging the threads' heaps (DFSearch::MergeDFS), and why the schedule does not matter. */
module MergeTheory {
  import opened Prelude
  import opened PathHeap
  import opened MergeHeaps

  /** What one job offers: its routes, all to the heap of its root path's point-set hash. */
  datatype Batch = Batch(hash: int, routes: seq<SPath>)

  ghost function BatchOf(j: Job, dayK: nat): Batch
    requires 1 <= dayK && ValidJob(j)
  {
    Batch(j.root.hashPointSet, Routes(j, dayK))
  }

  ghost function AfterBatch(heaps: Heaps, k: nat, b: Batch): Heaps
    requires 1 <= k && ValidHeaps(heaps, k)
  {
    heaps[b.hash := OfferAll(HeapFor(heaps, k, b.hash), b.routes)]
  }

  lemma AfterBatchValid(heaps: Heaps, k: nat, b: Batch)
    requires 1 <= k && ValidHeaps(heaps, k)
    ensures ValidHeaps(AfterBatch(heaps, k, b), k)
  {
    OfferAllValid(HeapFor(heaps, k, b.hash), b.routes);
  }

  /** The heaps of a thread that ran these jobs in this order. */
  ghost function Run(bs: seq<Batch>, k: nat): (r: Heaps)
    requires 1 <= k
    ensures ValidHeaps(r, k)
    decreases |bs|
  {
    if bs == [] then map[]
    else
      AfterBatchValid(Run(bs[..|bs| - 1], k), k, bs[|bs| - 1]);
      AfterBatch(Run(bs[..|bs| - 1], k), k, bs[|bs| - 1])
  }

  ghost function Batches(js: seq<Job>, dayK: nat): (r: seq<Batch>)
    requires 1 <= dayK && forall i :: 0 <= i < |js| ==> ValidJob(js[i])
    ensures |r| == |js| && forall i :: 0 <= i < |js| ==> r[i] == BatchOf(js[i], dayK)
  {
    seq(|js|, i requires 0 <= i < |js| => BatchOf(js[i], dayK))
  }

  lemma RunNext(bs: seq<Batch>, i: nat, k: nat)
    requires 1 <= k && i < |bs|
    ensures Run(bs[..i + 1], k) == AfterBatch(Run(bs[..i], k), k, bs[i])
  {
    assert bs[..i + 1][..i] == bs[..i];
  }

  /** A thread of the pool: the jobs it takes, one after the other, on its own memory pool. */
  method RunThread(pool: ThreadMemPool, jobs: seq<Job>, dayK: nat, noPrune: bool)
    requires pool.Valid() && pool.Heaps() == map[] && 1 <= dayK
    requires forall i :: 0 <= i < |jobs| ==> ValidJob(jobs[i])
    modifies pool, pool.dfsHeapMap.Values
    ensures pool.Valid() && pool.Heaps() == Run(Batches(jobs, dayK), pool.topK)
  {
    ghost var bs := Batches(jobs, dayK);
    for i := 0 to |jobs|
      invariant pool.Valid() && pool.Heaps() == Run(bs[..i], pool.topK)
      invariant forall o :: o in pool.dfsHeapMap.Values ==> o in old(pool.dfsHeapMap.Values) || fresh(o)
    {
      pool.DoWork(jobs[i], dayK, noPrune);
      RunNext(bs, i, pool.topK);
    }
    assert bs[..|jobs|] == bs;
  }

  ghost function Routed(b: Batch, n: int): set<SPath> {
    if b.hash == n then Elems(b.routes) else {}
  }

  /** Everything these jobs offer to the heap of hash n. */
  ghost function Offered(bs: seq<Batch>, n: int): set<SPath>
    decreases |bs|
  {
    if bs == [] then {} else Offered(bs[..|bs| - 1], n) + Routed(bs[|bs| - 1], n)
  }

  lemma {:induction false} OfferedExact(bs: seq<Batch>, n: int, p: SPath)
    ensures p in Offered(bs, n) <==> exists b :: b in bs && p in Routed(b, n)
    decreases |bs|
  {
    if bs != [] {
      OfferedExact(bs[..|bs| - 1], n, p);
      assert bs == bs[..|bs| - 1] + [bs[|bs| - 1]];
    }
  }

  /** Whatever a thread's heap drops, it keeps what it was offered of the k best of s. */
  lemma {:induction false} RunGuards(bs: seq<Batch>, k: nat, n: int, q: seq<SPath>, s: set<SPath>)
    requires 1 <= k && IsTopK(q, k, s) && NoClash(q, s) && Offered(bs, n) <= s
    ensures Guards(HeapFor(Run(bs, k), k, n), q, s, Offered(bs, n))
    ensures n in Run(bs, k) <==> exists b :: b in bs && b.hash == n
    decreases |bs|
  {
    if bs == [] {
      EmptyGuards(k, q, s);
    } else {
      var init, last := bs[..|bs| - 1], bs[|bs| - 1];
      assert bs == init + [last];
      RunGuards(init, k, n, q, s);
      if last.hash == n {
        assert forall p :: p in last.routes ==> p in Routed(last, n);
        OfferAllGuards(HeapFor(Run(init, k), k, n), q, s, Offered(init, n), last.routes);
        assert last in bs;
      } else {
        assert Offered(bs, n) == Offered(init, n);
      }
    }
  }

  /** A thread's heap holds the k best of what its jobs offered it, if these are clear of collisions. */
  lemma RunHolds(bs: seq<Batch>, k: nat, n: int)
    requires 1 <= k && Clear(k, Offered(bs, n))
    ensures IsTopK(HeapFor(Run(bs, k), k, n).queue, k, Offered(bs, n))
  {
    var q :| IsTopK(q, k, Offered(bs, n)) && NoClash(q, Offered(bs, n));
    RunGuards(bs, k, n, q, Offered(bs, n));
    GuardsAll(HeapFor(Run(bs, k), k, n), q, Offered(bs, n), Offered(bs, n));
  }

  // ----- MergeDFS

  ghost function QueueOf(heaps: Heaps, n: int): set<SPath> {
    if n in heaps then Elems(heaps[n].queue) else {}
  }

  ghost function Queued(pools: seq<Heaps>, n: int): set<SPath>
    decreases |pools|
  {
    if pools == [] then {} else Queued(pools[..|pools| - 1], n) + QueueOf(pools[|pools| - 1], n)
  }

  /** h was offered exactly the paths of s, in some order and perhaps repeatedly. */
  ghost predicate FedFrom(h: Heap, k: nat, s: set<SPath>)
    requires 1 <= k
  {
    exists ps :: Fed(h, k, s, ps)
  }

  ghost predicate Fed(h: Heap, k: nat, s: set<SPath>, ps: seq<SPath>)
    requires 1 <= k
  {
    h == OfferAll(Empty(k), ps) && Elems(ps) == s
  }

  /** What MergeDFS promises about the merged heaps. */
  ghost predicate Merged(pools: seq<Heaps>, k: nat, merged: Heaps)
    requires 1 <= k
  {
    && (forall n :: n in merged <==> exists t :: 0 <= t < |pools| && n in pools[t])
    && forall n :: n in merged ==> FedFrom(merged[n], k, Queued(pools, n))
  }

  lemma {:induction false} NothingQueued(pools: seq<Heaps>, n: int)
    requires forall t :: 0 <= t < |pools| ==> n !in pools[t]
    ensures Queued(pools, n) == {}
    decreases |pools|
  {
    if pools != [] { NothingQueued(pools[..|pools| - 1], n); }
  }

  lemma QueuedLast(done: seq<Heaps>, pool: Heaps, n: int)
    ensures Queued(done + [pool], n) == Queued(done, n) + QueueOf(pool, n)
  {
    assert (done + [pool])[..|done|] == done;
  }

  lemma KeysLast(done: seq<Heaps>, pool: Heaps, n: int)
    ensures (exists t :: 0 <= t < |done + [pool]| && n in (done + [pool])[t])
       <==> n in pool || exists t :: 0 <= t < |done| && n in done[t]
  {
    var all := done + [pool];
    if n in pool { assert n in all[|done|]; }
    if t :| 0 <= t < |done| && n in done[t] { assert n in all[t]; }
  }

  /** Pushing a list into a merged heap. */
  lemma FedMore(h: Heap, k: nat, s: set<SPath>, list: seq<SPath>)
    requires 1 <= k && FedFrom(h, k, s)
    ensures FedFrom(OfferAll(h, list), k, s + Elems(list))
  {
    var ps :| Fed(h, k, s, ps);
    OfferAllConcat(Empty(k), ps, list);
    assert Fed(OfferAll(h, list), k, s + Elems(list), ps + list);
  }

  /** Nothing is merged yet. */
  lemma MergedNone(k: nat)
    requires 1 <= k
    ensures Merged([], k, map[])
  {
  }

  /** A thread none of whose heaps is merged yet. */
  lemma MergedBegin(done: seq<Heaps>, k: nat, merged: Heaps)
    requires 1 <= k && Merged(done, k, merged)
    ensures Merged(done + [map[]], k, merged)
  {
    forall n
      ensures n in merged <==> exists t :: 0 <= t < |done + [map[]]| && n in (done + [map[]])[t]
    {
      KeysLast(done, map[], n);
    }
    forall n | n in merged
      ensures FedFrom(merged[n], k, Queued(done + [map[]], n))
    {
      QueuedLast(done, map[], n);
      assert Queued(done, n) + {} == Queued(done, n);
    }
  }

  /** One more heap of the last thread is merged: its paths, in any order, are pushed into the merged heap of
      the same hash. */
  lemma MergedNext(done: seq<Heaps>, part: Heaps, k: nat, merged: Heaps, n: int, h: Heap, list: seq<SPath>)
    requires 1 <= k && Merged(done + [part], k, merged) && n !in part && multiset(list) == multiset(h.queue)
    ensures Merged(done + [part[n := h]], k, merged[n := OfferAll(HeapFor(merged, k, n), list)])
  {
    var next, r := part[n := h], merged[n := OfferAll(HeapFor(merged, k, n), list)];
    forall m
      ensures m in r <==> exists t :: 0 <= t < |done + [next]| && m in (done + [next])[t]
    {
      KeysLast(done, part, m);
      KeysLast(done, next, m);
    }
    forall m | m in r
      ensures FedFrom(r[m], k, Queued(done + [next], m))
    {
      if m == n {
        FedThere(done, part, k, merged, n, h, list);
      } else {
        FedElsewhere(done, part, k, merged, n, h, m);
      }
    }
  }

  lemma FedThere(done: seq<Heaps>, part: Heaps, k: nat, merged: Heaps, n: int, h: Heap, list: seq<SPath>)
    requires 1 <= k && Merged(done + [part], k, merged) && n !in part && multiset(list) == multiset(h.queue)
    ensures FedFrom(OfferAll(HeapFor(merged, k, n), list), k, Queued(done + [part[n := h]], n))
  {
    SameMembers(list, h.queue);
    QueuedLast(done, part, n);
    QueuedLast(done, part[n := h], n);
    FedHere(done, part, k, merged, n);
    FedMore(HeapFor(merged, k, n), k, Queued(done + [part], n), list);
    assert Queued(done + [part], n) + Elems(list) == Queued(done + [part[n := h]], n);
  }

  lemma FedElsewhere(done: seq<Heaps>, part: Heaps, k: nat, merged: Heaps, n: int, h: Heap, m: int)
    requires 1 <= k && Merged(done + [part], k, merged) && m != n && m in merged
    ensures FedFrom(merged[m], k, Queued(done + [part[n := h]], m))
  {
    QueuedLast(done, part, m);
    QueuedLast(done, part[n := h], m);
  }

  lemma SameMembers<T>(xs: seq<T>, ys: seq<T>)
    requires multiset(xs) == multiset(ys)
    ensures Elems(xs) == Elems(ys)
  {
    assert forall p :: p in xs <==> p in multiset(xs);
    assert forall p :: p in ys <==> p in multiset(ys);
  }

  lemma FedHere(done: seq<Heaps>, part: Heaps, k: nat, merged: Heaps, n: int)
    requires 1 <= k && Merged(done + [part], k, merged)
    ensures FedFrom(HeapFor(merged, k, n), k, Queued(done + [part], n))
  {
    if n !in merged {
      NothingQueued(done + [part], n);
      assert Fed(Empty(k), k, {}, []);
    }
  }

  /** The paths of all merged heaps, each as often as the heaps have it. */
  ghost function QueueSum(merged: Heaps, order: seq<int>): multiset<SPath>
    requires forall n :: n in order ==> n in merged
    decreases |order|
  {
    if order == [] then multiset{}
    else
      var last := order[|order| - 1];
      assert last in order;
      QueueSum(merged, order[..|order| - 1]) + multiset(merged[last].queue)
  }

  lemma QueueSumNext(merged: Heaps, order: seq<int>, n: int)
    requires forall m :: m in order + [n] ==> m in merged
    ensures n in merged && forall m :: m in order ==> m in merged
    ensures QueueSum(merged, order + [n]) == QueueSum(merged, order) + multiset(merged[n].queue)
  {
    assert (order + [n])[|order|] == n && (order + [n])[..|order|] == order;
    forall m | m in order
      ensures m in merged
    {
      assert m in order + [n];
    }
  }

  lemma {:induction false} QueueSumConcat(merged: Heaps, xs: seq<int>, ys: seq<int>)
    requires (forall n :: n in xs ==> n in merged) && forall n :: n in ys ==> n in merged
    ensures QueueSum(merged, xs + ys) == QueueSum(merged, xs) + QueueSum(merged, ys)
    decreases |ys|
  {
    if ys == [] {
      assert xs + ys == xs;
    } else {
      var init, last := ys[..|ys| - 1], ys[|ys| - 1];
      assert ys == init + [last] && xs + ys == (xs + init) + [last];
      QueueSumConcat(merged, xs, init);
      QueueSumNext(merged, xs + init, last);
      QueueSumNext(merged, init, last);
    }
  }

  /** Where the heap of hash n stands in the order does not matter. */
  lemma QueueSumWithout(merged: Heaps, xs: seq<int>, n: int, ys: seq<int>)
    requires n in merged && (forall m :: m in xs ==> m in merged) && forall m :: m in ys ==> m in merged
    ensures QueueSum(merged, xs + [n] + ys) == QueueSum(merged, xs + ys) + multiset(merged[n].queue)
  {
    QueueSumConcat(merged, xs + [n], ys);
    QueueSumConcat(merged, xs, ys);
    QueueSumNext(merged, xs, n);
  }

  /** The sum is one multiset, in whatever order the heaps come. */
  lemma {:induction false} QueueSumOrder(merged: Heaps, xs: seq<int>, ys: seq<int>)
    requires Distinct(xs) && Distinct(ys) && Elems(xs) == Elems(ys) && forall n :: n in xs ==> n in merged
    ensures forall n :: n in ys ==> n in merged
    ensures QueueSum(merged, xs) == QueueSum(merged, ys)
    decreases |xs|
  {
    assert forall n :: n in ys <==> n in Elems(ys);
    assert forall n :: n in xs <==> n in Elems(xs);
    EmptyToo(xs, ys);
    if xs != [] {
      var last := |xs| - 1;
      assert xs[last] in ys;
      var i :| 0 <= i < |ys| && ys[i] == xs[last];
      var rest := ys[..i] + ys[i + 1..];
      assert ys == ys[..i] + [ys[i]] + ys[i + 1..];
      QueueSumWithout(merged, ys[..i], ys[i], ys[i + 1..]);
      SameRest(xs, ys, i);
      QueueSumOrder(merged, xs[..last], rest);
    }
  }

  lemma EmptyToo<T>(xs: seq<T>, ys: seq<T>)
    requires Elems(xs) == Elems(ys)
    ensures xs == [] <==> ys == []
  {
    if xs != [] { assert xs[0] in Elems(ys); }
    if ys != [] { assert ys[0] in Elems(xs); }
  }

  lemma SameRest(xs: seq<int>, ys: seq<int>, i: nat)
    requires Distinct(xs) && Distinct(ys) && Elems(xs) == Elems(ys) && xs != [] && i < |ys| && ys[i] == xs[|xs| - 1]
    ensures Distinct(ys[..i] + ys[i + 1..]) && Elems(ys[..i] + ys[i + 1..]) == Elems(xs[..|xs| - 1])
  {
    var last, rest := |xs| - 1, ys[..i] + ys[i + 1..];
    forall n
      ensures n in rest <==> n in ys && n != ys[i]
    {
      if n in rest {
        var j :| 0 <= j < |rest| && rest[j] == n;
        assert n == ys[if j < i then j else j + 1];
      }
      if n in ys && n != ys[i] {
        var j :| 0 <= j < |ys| && ys[j] == n;
        assert rest[if j < i then j else j - 1] == n;
      }
    }
    forall n
      ensures n in xs[..last] <==> n in xs && n != xs[last]
    {
      if n in xs && n != xs[last] {
        var j :| 0 <= j < |xs| && xs[j] == n;
        assert xs[..last][j] == n;
      }
    }
    assert forall n :: n in Elems(xs) <==> n in xs;
    assert forall n :: n in Elems(ys) <==> n in ys;
  }

  // ----- The theorem

  ghost function Pools(threads: seq<seq<Batch>>, k: nat): seq<Heaps>
    requires 1 <= k
  {
    seq(|threads|, t requires 0 <= t < |threads| => Run(threads[t], k))
  }

  lemma {:induction false} QueuedExact(pools: seq<Heaps>, n: int, p: SPath)
    ensures p in Queued(pools, n) <==> exists t :: 0 <= t < |pools| && p in QueueOf(pools[t], n)
    decreases |pools|
  {
    if pools != [] {
      QueuedExact(pools[..|pools| - 1], n, p);
      assert pools == pools[..|pools| - 1] + [pools[|pools| - 1]];
    }
  }

  /** Scheduling does not matter: however the jobs are spread over threads and ordered within
      them, and in whatever order the heaps are merged, the merged heap of every point-set hash
      keeps the same list as one heap that runs all jobs, and it is the k best of all routes. */
  lemma ScheduleIrrelevant(all: seq<Batch>, threads: seq<seq<Batch>>, k: nat, merged: Heaps, n: int)
    requires 1 <= k
    requires forall b :: b in all <==> exists t :: 0 <= t < |threads| && b in threads[t]
    requires Clear(k, Offered(all, n))
    requires Merged(Pools(threads, k), k, merged)
    ensures n in merged <==> n in Run(all, k)
    ensures n in merged ==> merged[n].queue == Run(all, k)[n].queue
    ensures n in merged ==> IsTopK(merged[n].queue, k, Offered(all, n))
  {
    var s := Offered(all, n);
    var q :| IsTopK(q, k, s) && NoClash(q, s);
    RunGuards(all, k, n, q, s);
    ThreadsGuard(all, threads, k, n, q);
    KeyAgrees(all, threads, Pools(threads, k), n);
    if n in merged {
      GuardsAll(Run(all, k)[n], q, s, s);
      MergedIs(all, threads, k, merged[n], n, q);
    }
  }

  /** Each thread's heap of hash n guards the k best of everything offered to that hash. */
  lemma ThreadsGuard(all: seq<Batch>, threads: seq<seq<Batch>>, k: nat, n: int, q: seq<SPath>)
    requires 1 <= k && IsTopK(q, k, Offered(all, n)) && NoClash(q, Offered(all, n))
    requires forall b :: b in all <==> exists t :: 0 <= t < |threads| && b in threads[t]
    ensures forall t :: 0 <= t < |threads| ==>
      Guards(HeapFor(Pools(threads, k)[t], k, n), q, Offered(all, n), Offered(threads[t], n))
    ensures forall t :: 0 <= t < |threads| ==>
      (n in Pools(threads, k)[t] <==> exists b :: b in threads[t] && b.hash == n)
  {
    OfferedSplit(all, threads, n);
    forall t | 0 <= t < |threads|
      ensures Guards(HeapFor(Pools(threads, k)[t], k, n), q, Offered(all, n), Offered(threads[t], n))
      ensures n in Pools(threads, k)[t] <==> exists b :: b in threads[t] && b.hash == n
    {
      RunGuards(threads[t], k, n, q, Offered(all, n));
    }
  }

  ghost predicate AllGuard(pools: seq<Heaps>, threads: seq<seq<Batch>>, k: nat, n: int, q: seq<SPath>, s: set<SPath>) {
    |pools| == |threads| &&
    forall t :: 0 <= t < |pools| ==> Guards(HeapFor(pools[t], k, n), q, s, Offered(threads[t], n))
  }

  lemma QueuedWithin(pools: seq<Heaps>, threads: seq<seq<Batch>>, k: nat, n: int, q: seq<SPath>, s: set<SPath>)
    requires AllGuard(pools, threads, k, n, q, s)
    ensures Queued(pools, n) <= s
  {
    forall p | p in Queued(pools, n)
      ensures p in s
    {
      QueuedExact(pools, n, p);
      var t :| 0 <= t < |pools| && p in QueueOf(pools[t], n);
      assert p in HeapFor(pools[t], k, n).queue;
    }
  }

  lemma QueuedBest(pools: seq<Heaps>, threads: seq<seq<Batch>>, k: nat, n: int, q: seq<SPath>, s: set<SPath>,
                   t: nat, p: SPath)
    requires AllGuard(pools, threads, k, n, q, s) && t < |threads| && p in q && p in Offered(threads[t], n)
    ensures p in Queued(pools, n)
  {
    assert p in HeapFor(pools[t], k, n).queue;
    assert p in QueueOf(pools[t], n);
    QueuedExact(pools, n, p);
  }

  /** The threads' queues together still have the k best of everything, and nothing that was not offered. */
  lemma QueuesKeep(all: seq<Batch>, threads: seq<seq<Batch>>, k: nat, n: int, q: seq<SPath>)
    requires 1 <= k && IsTopK(q, k, Offered(all, n)) && NoClash(q, Offered(all, n))
    requires forall b :: b in all <==> exists t :: 0 <= t < |threads| && b in threads[t]
    ensures Queued(Pools(threads, k), n) <= Offered(all, n)
    ensures forall p :: p in q ==> p in Queued(Pools(threads, k), n)
  {
    var pools, s := Pools(threads, k), Offered(all, n);
    ThreadsGuard(all, threads, k, n, q);
    assert AllGuard(pools, threads, k, n, q, s);
    QueuedWithin(pools, threads, k, n, q, s);
    OfferedSplit(all, threads, n);
    forall p | p in q
      ensures p in Queued(pools, n)
    {
      var t :| 0 <= t < |threads| && p in Offered(threads[t], n);
      QueuedBest(pools, threads, k, n, q, s, t, p);
    }
  }

  lemma MergedIs(all: seq<Batch>, threads: seq<seq<Batch>>, k: nat, h: Heap, n: int, q: seq<SPath>)
    requires 1 <= k && IsTopK(q, k, Offered(all, n)) && NoClash(q, Offered(all, n))
    requires forall b :: b in all <==> exists t :: 0 <= t < |threads| && b in threads[t]
    requires FedFrom(h, k, Queued(Pools(threads, k), n))
    ensures h.queue == q
  {
    var ps :| Fed(h, k, Queued(Pools(threads, k), n), ps);
    QueuesKeep(all, threads, k, n, q);
    EmptyGuards(k, q, Offered(all, n));
    assert forall p :: p in ps ==> p in Elems(ps);
    OfferAllGuards(Empty(k), q, Offered(all, n), {}, ps);
    GuardsAll(h, q, Offered(all, n), {} + Elems(ps));
  }

  lemma KeyAgrees(all: seq<Batch>, threads: seq<seq<Batch>>, pools: seq<Heaps>, n: int)
    requires |pools| == |threads|
    requires forall b :: b in all <==> exists t :: 0 <= t < |threads| && b in threads[t]
    requires forall t :: 0 <= t < |threads| ==> (n in pools[t] <==> exists b :: b in threads[t] && b.hash == n)
    ensures (exists t :: 0 <= t < |pools| && n in pools[t]) <==> exists b :: b in all && b.hash == n
  {
  }

  lemma OfferedSplit(all: seq<Batch>, threads: seq<seq<Batch>>, n: int)
    requires forall b :: b in all <==> exists t :: 0 <= t < |threads| && b in threads[t]
    ensures forall p :: p in Offered(all, n) <==> exists t :: 0 <= t < |threads| && p in Offered(threads[t], n)
    ensures forall t :: 0 <= t < |threads| ==> Offered(threads[t], n) <= Offered(all, n)
  {
    forall p
      ensures p in Offered(all, n) <==> exists t :: 0 <= t < |threads| && p in Offered(threads[t], n)
    {
      OfferedExact(all, n, p);
      forall t | 0 <= t < |threads|
        ensures p in Offered(threads[t], n) <==> exists b :: b in threads[t] && p in Routed(b, n)
      {
        OfferedExact(threads[t], n, p);
      }
      if b :| b in all && p in Routed(b, n) {
        var t :| 0 <= t < |threads| && b in threads[t];
        assert p in Offered(threads[t], n);
      }
      if t :| 0 <= t < |threads| && p in Offered(threads[t], n) {
        var b :| b in threads[t] && p in Routed(b, n);
        assert b in all;
      }
    }
  }
}
