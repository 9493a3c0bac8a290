/** The merge of the threads' heaps with the paths they hold (DFSearch::MergeDFS): what is kept, that it is
    copied, and that every thread's paths are given back. */
module PathMerge {
  import opened Prelude
  import opened PathOwner
  import MergeTheory

  ghost predicate Apart(pools: seq<MemPool>)
    reads set p | p in pools :: p.spAlloc
  {
    forall i, j :: 0 <= i < j < |pools| ==>
      pools[i] != pools[j] && pools[i].spAlloc != pools[j].spAlloc && pools[i].spAlloc.made !! pools[j].spAlloc.made
  }

  /** All is back in the free list. */
  ghost predicate Returned(pool: MemPool)
    reads pool, pool.spAlloc
  {
    pool.dfsHeaps == [] && multiset(pool.spAlloc.freeS) == multiset(pool.spAlloc.made)
  }

  method CopyPath(p: PathNode) returns (n: PathNode)
    ensures fresh(n) && n.path == p.path
  {
    n := new PathNode();
    n.path := p.path;
  }

  method CopyEach(kept: seq<PathNode>) returns (copies: seq<PathNode>)
    ensures |copies| == |kept| && Distinct(copies) && fresh(Elems(copies))
    ensures forall i :: 0 <= i < |kept| ==> copies[i].path == kept[i].path
  {
    copies := [];
    for i := 0 to |kept|
      invariant |copies| == i && Distinct(copies) && fresh(Elems(copies))
      invariant forall j :: 0 <= j < i ==> copies[j].path == kept[j].path
    {
      var n := CopyPath(kept[i]);
      assert n !in Elems(copies);
      DistinctConcat(copies, [n]);
      assert Elems(copies + [n]) == Elems(copies) + {n};
      copies := copies + [n];
    }
  }

  /** The first n pools are cleared, the others still hold paths. */
  ghost predicate ClearedTo(pools: seq<MemPool>, n: nat)
    reads pools, set p | p in pools :: p.spAlloc
  {
    n <= |pools| &&
    (forall i :: 0 <= i < n ==> Returned(pools[i])) &&
    forall i :: n <= i < |pools| ==> pools[i].Valid()
  }

  method ClearNext(pools: seq<MemPool>, t: nat)
    requires Apart(pools) && ClearedTo(pools, t) && t < |pools|
    modifies pools[t], pools[t].spAlloc`freeS, pools[t].spAlloc.made
    ensures Apart(pools) && ClearedTo(pools, t + 1)
  {
    pools[t].Clear();
  }

  method ClearEach(pools: seq<MemPool>)
    requires Apart(pools) && ClearedTo(pools, 0)
    modifies pools, (set p | p in pools :: p.spAlloc)`freeS
    modifies set p, q | p in pools && q in p.spAlloc.made :: q
    ensures ClearedTo(pools, |pools|)
  {
    for t := 0 to |pools|
      invariant Apart(pools) && ClearedTo(pools, t)
    {
      ClearNext(pools, t);
    }
  }

  /** The entries of an unordered map, in the order it hands them out, of which nothing is promised. */
  method Entries(heaps: Bins) returns (r: Bins)
    requires Keyed(heaps)
    ensures Keyed(r) && Elems(r) == Elems(heaps)
  {
    r := heaps;
  }

  lemma SameEntries(heaps: Bins, r: Bins, topK: nat, c: MergeHeaps.Heaps)
    requires Shows(heaps, topK, c) && Keyed(r) && Elems(r) == Elems(heaps)
    ensures Shows(r, topK, c)
  {
    forall i | 0 <= i < |r|
      ensures r[i] in heaps
    {
      assert r[i] in Elems(heaps);
    }
    forall i | 0 <= i < |heaps|
      ensures heaps[i] in r
    {
      assert heaps[i] in Elems(r);
    }
  }

  /** SPathHeap::CopyVal hands out the heap's paths in container order, of which nothing is promised. */
  method CopyVal(b: Bin) returns (list: seq<PathNode>)
    ensures multiset(list) == multiset(b.items) && multiset(Vals(list)) == multiset(Vals(b.items))
  {
    list := b.items;
  }

  /** Pushing a list into a merged heap, which does not hold its paths. */
  method PushEach(b: Bin, topK: nat, list: seq<PathNode>) returns (r: Bin)
    requires 1 <= topK && |b.items| <= topK
    ensures |r.items| <= topK && State(r, topK) == PathHeap.OfferAll(State(b, topK), Vals(list))
  {
    r := b;
    for i := 0 to |list|
      invariant |r.items| <= topK
      invariant PathHeap.OfferAll(State(r, topK), Vals(list)[i..]) == PathHeap.OfferAll(State(b, topK), Vals(list))
    {
      assert Vals(list)[i..][1..] == Vals(list)[i + 1..];
      var out;
      r, out := Push(r, topK, list[i]);
    }
  }

  /** The paths of one heap of a thread are pushed into the heap of their hash. */
  method PushInto(merged: Bins, k: nat, entry: (int, Bin), ghost c: MergeHeaps.Heaps)
    returns (r: Bins, ghost d: MergeHeaps.Heaps, ghost vals: seq<PathHeap.SPath>)
    requires 1 <= k && Shows(merged, k, c) && Bounded(merged, k) && forall n :: n in c ==> c[n].topK == k
    ensures Shows(r, k, d) && Bounded(r, k) && multiset(vals) == multiset(Vals(entry.1.items))
    ensures d == c[entry.0 := PathHeap.OfferAll(MergeHeaps.HeapFor(c, k, entry.0), vals)]
  {
    var n := entry.0;
    var found, i;
    ghost var b;
    found, i, b := FindHeap(merged, n, k, c);
    var list := CopyVal(entry.1);
    vals := Vals(list);
    assert n in Hashes(found);
    var dfsHeap := PushEach(found[i].1, k, list);
    ShowsUpdate(found, k, i, dfsHeap, b);
    UpdatedTwice(c, n, MergeHeaps.HeapFor(c, k, n), State(dfsHeap, k));
    r, d := found[i := (n, dfsHeap)], b[n := State(dfsHeap, k)];
  }

  /** One heap of a thread is merged into the heap of its hash. */
  method MergeHeap(merged: Bins, k: nat, entry: (int, Bin), ghost c: MergeHeaps.Heaps,
                   ghost done: seq<MergeHeaps.Heaps>, ghost part: MergeHeaps.Heaps, ghost h: PathHeap.Heap)
    returns (r: Bins, ghost d: MergeHeaps.Heaps)
    requires 1 <= k && Shows(merged, k, c) && Bounded(merged, k) && h == State(entry.1, k)
    requires MergeTheory.Merged(done + [part], k, c) && entry.0 !in part
    ensures Shows(r, k, d) && Bounded(r, k) && MergeTheory.Merged(done + [part[entry.0 := h]], k, d)
  {
    ghost var vals;
    ShowsCapped(merged, k, c);
    r, d, vals := PushInto(merged, k, entry, c);
    MergeTheory.MergedNext(done, part, k, c, entry.0, h, vals);
  }

  lemma ShowsCapped(heaps: Bins, topK: nat, c: MergeHeaps.Heaps)
    requires Shows(heaps, topK, c)
    ensures forall n :: n in c ==> c[n].topK == topK
  {
    forall n | n in c
      ensures c[n].topK == topK
    {
      assert n in Hashes(heaps);
    }
  }

  /** All heaps of one thread are merged. */
  method MergePool(merged: Bins, k: nat, heaps: Bins, ghost c: MergeHeaps.Heaps, ghost pool: MergeHeaps.Heaps,
                   ghost done: seq<MergeHeaps.Heaps>) returns (r: Bins, ghost d: MergeHeaps.Heaps)
    requires 1 <= k && Shows(merged, k, c) && Bounded(merged, k) && Shows(heaps, k, pool)
    requires MergeTheory.Merged(done, k, c)
    ensures Shows(r, k, d) && Bounded(r, k) && MergeTheory.Merged(done + [pool], k, d)
  {
    var entries := Entries(heaps);
    SameEntries(heaps, entries, k, pool);
    r, d := merged, c;
    ghost var part: MergeHeaps.Heaps := map[];
    MergeTheory.MergedBegin(done, k, c);
    for i := 0 to |entries|
      invariant Shows(r, k, d) && Bounded(r, k) && MergeTheory.Merged(done + [part], k, d)
      invariant Shows(entries, k, pool) && PartOf(entries, i, pool, part)
    {
      PartNext(entries, k, i, pool, part);
      r, d := MergeHeap(r, k, entries[i], d, done, part, pool[entries[i].0]);
      part := part[entries[i].0 := pool[entries[i].0]];
    }
    PartAll(entries, k, pool, part);
  }

  /** part is what the first i entries hold. */
  ghost predicate PartOf(entries: Bins, i: nat, pool: MergeHeaps.Heaps, part: MergeHeaps.Heaps) {
    i <= |entries| && part.Keys == Hashes(entries[..i]) && forall n :: n in part ==> n in pool && part[n] == pool[n]
  }

  lemma PartNext(entries: Bins, k: nat, i: nat, pool: MergeHeaps.Heaps, part: MergeHeaps.Heaps)
    requires Shows(entries, k, pool) && i < |entries| && PartOf(entries, i, pool, part)
    ensures entries[i].0 !in part && entries[i].0 in pool && pool[entries[i].0] == State(entries[i].1, k)
    ensures PartOf(entries, i + 1, pool, part[entries[i].0 := pool[entries[i].0]])
  {
    assert entries[i].0 in Hashes(entries);
    assert forall j :: 0 <= j < i ==> entries[..i][j] == entries[j];
    assert entries[..i + 1] == entries[..i] + [entries[i]];
    assert Hashes(entries[..i + 1]) == Hashes(entries[..i]) + {entries[i].0} by {
      HashesLast(entries[..i], entries[i]);
    }
  }

  lemma HashesLast(heaps: Bins, e: (int, Bin))
    ensures Hashes(heaps + [e]) == Hashes(heaps) + {e.0}
  {
    var all := heaps + [e];
    assert all[|heaps|] == e && forall i :: 0 <= i < |heaps| ==> all[i] == heaps[i];
  }

  lemma PartAll(entries: Bins, k: nat, pool: MergeHeaps.Heaps, part: MergeHeaps.Heaps)
    requires Shows(entries, k, pool) && PartOf(entries, |entries|, pool, part)
    ensures part == pool
  {
    assert entries[..|entries|] == entries;
    assert part.Keys == pool.Keys;
  }

  ghost function PoolContents(pools: seq<MemPool>): (r: seq<MergeHeaps.Heaps>)
    reads pools
    ensures |r| == |pools| && forall t :: 0 <= t < |pools| ==> r[t] == pools[t].contents
  {
    seq(|pools|, t requires 0 <= t < |pools| reads pools => pools[t].contents)
  }

  /** All heaps of all threads, merged by hash. */
  method MergeEach(pools: seq<MemPool>, k: nat) returns (merged: Bins, ghost d: MergeHeaps.Heaps)
    requires 1 <= k && forall t :: 0 <= t < |pools| ==> pools[t].Shown() && pools[t].topK == k
    ensures Shows(merged, k, d) && Bounded(merged, k) && MergeTheory.Merged(PoolContents(pools), k, d)
  {
    ghost var all := PoolContents(pools);
    merged, d := [], map[];
    MergeTheory.MergedNone(k);
    for t := 0 to |pools|
      invariant forall u :: 0 <= u < |pools| ==> pools[u].Shown()
      invariant Shows(merged, k, d) && Bounded(merged, k) && MergeTheory.Merged(all[..t], k, d)
    {
      assert pools[t].Shown();
      assert Shows(pools[t].dfsHeaps, k, pools[t].contents);
      merged, d := MergePool(merged, k, pools[t].dfsHeaps, d, all[t], all[..t]);
      assert all[..t + 1] == all[..t] + [all[t]];
    }
    assert all[..|pools|] == all;
  }

  /** vals is what the first i entries hold, whose hashes are in order. */
  ghost predicate Gathered(entries: Bins, i: nat, d: MergeHeaps.Heaps, order: seq<int>,
                           vals: multiset<PathHeap.SPath>) {
    |order| == i <= |entries| && (forall j :: 0 <= j < i ==> order[j] == entries[j].0) &&
    (forall n :: n in order ==> n in d) && vals == MergeTheory.QueueSum(d, order)
  }

  lemma GatheredNext(entries: Bins, i: nat, d: MergeHeaps.Heaps, order: seq<int>, vals: multiset<PathHeap.SPath>)
    requires Gathered(entries, i, d, order, vals) && i < |entries| && entries[i].0 in d
    ensures Gathered(entries, i + 1, d, order + [entries[i].0], vals + multiset(d[entries[i].0].queue))
  {
    MergeTheory.QueueSumNext(d, order, entries[i].0);
  }

  method CollectOne(b: Bin, list0: seq<PathNode>, ghost queue: seq<PathHeap.SPath>) returns (list: seq<PathNode>)
    requires Vals(b.items) == queue
    ensures multiset(Vals(list)) == multiset(Vals(list0)) + multiset(queue)
  {
    var more := CopyVal(b);
    list := list0 + more;
    assert Vals(list) == Vals(list0) + Vals(more);
  }

  /** The paths of all merged heaps, one heap after the other. */
  method Collect(merged: Bins, k: nat, ghost d: MergeHeaps.Heaps) returns (list: seq<PathNode>, ghost order: seq<int>)
    requires Shows(merged, k, d)
    ensures Distinct(order) && Elems(order) == d.Keys && (forall n :: n in order ==> n in d)
    ensures multiset(Vals(list)) == MergeTheory.QueueSum(d, order)
  {
    var entries := Entries(merged);
    SameEntries(merged, entries, k, d);
    list, order := [], [];
    for i := 0 to |entries|
      invariant Shows(entries, k, d) && Gathered(entries, i, d, order, multiset(Vals(list)))
    {
      assert entries[i].0 in Hashes(entries);
      GatheredNext(entries, i, d, order, multiset(Vals(list)));
      list := CollectOne(entries[i].1, list, d[entries[i].0].queue);
      order := order + [entries[i].0];
    }
    assert Elems(order) == Hashes(entries);
  }

  /** DFSearch::MergeDFS: the threads' heaps are merged by hash, the paths kept are copied, and every
      thread's memory pool is cleared. The copies are new and hold what the merged heaps kept, although the
      paths themselves are wiped. */
  method MergeDFS(pools: seq<MemPool>, k: nat)
    returns (dfsList: seq<PathNode>, ghost merged: MergeHeaps.Heaps, ghost order: seq<int>)
    requires 1 <= k && Apart(pools)
    requires forall i :: 0 <= i < |pools| ==> pools[i].Valid() && pools[i].Shown() && pools[i].topK == k
    modifies pools, (set p | p in pools :: p.spAlloc)`freeS
    modifies set p, q | p in pools && q in p.spAlloc.made :: q
    ensures forall i :: 0 <= i < |pools| ==> Returned(pools[i])
    ensures Distinct(dfsList) && fresh(Elems(dfsList))
    ensures MergeTheory.Merged(old(PoolContents(pools)), k, merged)
    ensures Distinct(order) && Elems(order) == merged.Keys && (forall n :: n in order ==> n in merged)
    ensures multiset(Vals(dfsList)) == MergeTheory.QueueSum(merged, order)
  {
    dfsList, merged, order := CopyMerged(pools, k);
    ClearBeside(pools, dfsList);
  }

  /** The pools are cleared, while the paths of a list that are in no pool stay as they are. */
  method ClearBeside(pools: seq<MemPool>, list: seq<PathNode>)
    requires Apart(pools) && ClearedTo(pools, 0)
    requires forall i, t :: 0 <= i < |list| && 0 <= t < |pools| ==> list[i] !in pools[t].spAlloc.made
    modifies pools, (set p | p in pools :: p.spAlloc)`freeS
    modifies set p, q | p in pools && q in p.spAlloc.made :: q
    ensures (forall i :: 0 <= i < |pools| ==> Returned(pools[i])) && Vals(list) == old(Vals(list))
  {
    ClearEach(pools);
    assert forall i :: 0 <= i < |list| ==> Val(list[i]) == old(Val(list[i]));
  }

  /** Merging, and copying what the merged heaps keep. */
  method CopyMerged(pools: seq<MemPool>, k: nat)
    returns (dfsList: seq<PathNode>, ghost merged: MergeHeaps.Heaps, ghost order: seq<int>)
    requires 1 <= k && forall t :: 0 <= t < |pools| ==> pools[t].Shown() && pools[t].topK == k
    ensures Distinct(dfsList) && fresh(Elems(dfsList)) && forall i :: 0 <= i < |dfsList| ==> fresh(dfsList[i])
    ensures MergeTheory.Merged(PoolContents(pools), k, merged)
    ensures Distinct(order) && Elems(order) == merged.Keys && (forall n :: n in order ==> n in merged)
    ensures multiset(Vals(dfsList)) == MergeTheory.QueueSum(merged, order)
  {
    var heaps, kept;
    heaps, merged := MergeEach(pools, k);
    kept, order := Collect(heaps, k, merged);
    dfsList := CopyEach(kept);
    assert Vals(dfsList) == Vals(kept);
    assert forall i :: 0 <= i < |dfsList| ==> dfsList[i] in Elems(dfsList);
  }
}
