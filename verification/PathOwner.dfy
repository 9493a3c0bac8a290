/** Who holds each path: the allocator's free list, a thread's heaps, or the day lists of a running job
    (SPathAlloc.h, DFS::PushPath, DFSWorker::doWork, ThreadMemPool::Clear). The heaps decide as those of
    PathHeap do, and hold what MergeHeaps says. */
module PathOwner {
  import opened Prelude
  import PathHeap
  import MergeHeaps

  class PathNode {
    var path: Option<PathHeap.SPath>

    constructor ()
      ensures path == None
    {
      path := None;
    }
  }

  const BLANK := PathHeap.SPath([], 0, 0, 0, 0, 0, 0, 0, 0)

  function Val(p: PathNode): PathHeap.SPath
    reads p
  {
    match p.path
    case None => BLANK
    case Some(v) => v
  }

  function Vals(items: seq<PathNode>): (r: seq<PathHeap.SPath>)
    reads items
    ensures |r| == |items| && forall i :: 0 <= i < |items| ==> r[i] == Val(items[i])
  {
    seq(|items|, i requires 0 <= i < |items| reads items => Val(items[i]))
  }

  /** A heap of paths that are held, best first, and the hashes it remembers. */
  datatype Bin = Bin(items: seq<PathNode>, hashes: set<int>)

  ghost function State(b: Bin, topK: nat): PathHeap.Heap
    reads b.items
  {
    PathHeap.Heap(topK, Vals(b.items), b.hashes)
  }

  class SPathAlloc {
    const initLen: nat
    var freeS: seq<PathNode>
    ghost var made: set<PathNode>

    /** Every path ever made is free or held, once. */
    ghost predicate Balanced(held: multiset<PathNode>)
      reads this
    {
      multiset(freeS) + held == multiset(made)
    }

    /** What is held is held once, and not free. */
    lemma HeldOnce(held: multiset<PathNode>, q: PathNode)
      requires Balanced(held) && q in held
      ensures held[q] == 1 && q in made && q !in freeS
    {
      assert (multiset(freeS) + held)[q] == multiset(made)[q];
      assert multiset(made)[q] <= 1;
      assert q in freeS ==> multiset(freeS)[q] >= 1;
    }

    constructor (initLen: nat)
      ensures Balanced(multiset{}) && |freeS| == initLen && fresh(made)
    {
      this.initLen, freeS, made := initLen, [], {};
      new;
      Expand(initLen, multiset{});
    }

    method Expand(expandLen: nat, ghost held: multiset<PathNode>)
      requires Balanced(held)
      modifies this
      ensures Balanced(held) && |freeS| == |old(freeS)| + expandLen && old(made) <= made && fresh(made - old(made))
    {
      for i := 0 to expandLen
        invariant Balanced(held) && |freeS| == |old(freeS)| + i && old(made) <= made && fresh(made - old(made))
      {
        var p := new PathNode();
        assert multiset(made + {p}) == multiset(made) + multiset{p};
        freeS, made := freeS + [p], made + {p};
      }
    }

    method New(ghost held: multiset<PathNode>) returns (p: PathNode)
      requires Balanced(held)
      modifies this
      ensures Balanced(held + multiset{p}) && p in made && p !in held
      ensures old(made) <= made && fresh(made - old(made))
    {
      if freeS == [] {
        Expand(initLen / 10 + 1, held);
      }
      var last := |freeS| - 1;
      p := freeS[last];
      assert freeS == freeS[..last] + [p];
      assert p in multiset(made);
      assert multiset(made)[p] == 1;
      freeS := freeS[..last];
    }

    method Delete(p: PathNode, ghost held: multiset<PathNode>)
      requires Balanced(held) && p in held
      modifies this`freeS, p
      ensures Balanced(held - multiset{p}) && p.path == None
    {
      p.path := None;
      freeS := freeS + [p];
    }
  }

  lemma {:induction false} InsertPlace(q: seq<PathHeap.SPath>, p: PathHeap.SPath, k: nat)
    requires k <= |q| && (forall i :: 0 <= i < k ==> !PathHeap.Better(p, q[i]))
        && (k < |q| ==> PathHeap.Better(p, q[k]))
    ensures PathHeap.Insert(q, p) == q[..k] + [p] + q[k..]
    decreases |q|
  {
    if k > 0 {
      InsertPlace(q[1..], p, k - 1);
      assert q[..k] == [q[0]] + q[1..][..k - 1] && q[1..][k - 1..] == q[k..];
    }
  }

  lemma InsertedAt<T>(s: seq<T>, x: T, k: nat)
    requires k <= |s|
    ensures multiset(s[..k] + [x] + s[k..]) == multiset(s) + multiset{x}
  {
    assert s == s[..k] + s[k..];
  }

  lemma ValsInserted(items: seq<PathNode>, p: PathNode, k: nat)
    requires k <= |items|
    ensures Vals(items[..k] + [p] + items[k..]) == Vals(items)[..k] + [Val(p)] + Vals(items)[k..]
  {
    assert Vals(items)[..k] == Vals(items[..k]) && Vals(items)[k..] == Vals(items[k..]);
  }

  /** A path is put in its place. */
  method InsertNode(items: seq<PathNode>, p: PathNode) returns (r: seq<PathNode>)
    ensures Vals(r) == PathHeap.Insert(Vals(items), Val(p))
    ensures multiset(r) == multiset(items) + multiset{p} && |r| == |items| + 1
  {
    var k := 0;
    while k < |items| && !PathHeap.Better(Val(p), Val(items[k]))
      invariant k <= |items| && forall i :: 0 <= i < k ==> !PathHeap.Better(Val(p), Val(items[i]))
    {
      k := k + 1;
    }
    r := items[..k] + [p] + items[k..];
    InsertPlace(Vals(items), Val(p), k);
    InsertedAt(items, p, k);
    ValsInserted(items, p, k);
  }

  ghost function Given(out: Option<PathNode>): multiset<PathNode> {
    if out.None? then multiset{} else multiset{out.value}
  }

  ghost function Back(out: Option<PathNode>): Option<PathHeap.SPath>
    reads if out.None? then {} else {out.value}
  {
    if out.None? then None else Some(Val(out.value))
  }

  lemma Together<T>(rest: multiset<T>, a: multiset<T>, b: multiset<T>, c: multiset<T>)
    requires c == a + b
    ensures rest + a + b == rest + c
  {
  }

  /** A full heap gives up its worst path before it takes one. */
  method MakeRoom(b: Bin, topK: nat, ghost v: PathHeap.SPath) returns (kept: seq<PathNode>, out: Option<PathNode>)
    requires 1 <= topK && PathHeap.Wanted(State(b, topK), v) && v.hash !in b.hashes
    ensures multiset(kept) + Given(out) == multiset(b.items)
    ensures |b.items| <= topK ==> |kept| < topK
    ensures PathHeap.Heap(topK, PathHeap.Insert(Vals(kept), v), b.hashes + {v.hash})
         == PathHeap.Offer(State(b, topK), v)
    ensures Back(out) == PathHeap.Displaced(State(b, topK), v)
  {
    var items := b.items;
    kept, out := items, None;
    if |items| >= topK {
      var last := |items| - 1;
      assert items == items[..last] + [items[last]];
      kept, out := items[..last], Some(items[last]);
      assert Vals(kept) == Vals(items)[..last];
    }
  }

  /** The accepting branch of Push. */
  method Accept(b: Bin, topK: nat, p: PathNode) returns (r: Bin, out: Option<PathNode>)
    requires 1 <= topK && |b.items| <= topK
    requires PathHeap.Wanted(State(b, topK), Val(p)) && Val(p).hash !in b.hashes
    ensures |r.items| <= topK && State(r, topK) == PathHeap.Offer(State(b, topK), Val(p))
    ensures multiset(r.items) + Given(out) == multiset(b.items) + multiset{p}
    ensures Back(out) == PathHeap.Displaced(State(b, topK), Val(p))
  {
    var kept;
    kept, out := MakeRoom(b, topK, Val(p));
    var items := InsertNode(kept, p);
    Together(multiset(kept), Given(out), multiset{p}, multiset{p} + Given(out));
    r := Bin(items, b.hashes + {Val(p).hash});
  }

  /** SPathHeap::Push: the path comes back if it is refused, the worst one if the heap is full. */
  method Push(b: Bin, topK: nat, p: PathNode) returns (r: Bin, out: Option<PathNode>)
    requires 1 <= topK && |b.items| <= topK
    ensures |r.items| <= topK && State(r, topK) == PathHeap.Offer(State(b, topK), Val(p))
    ensures multiset(r.items) + Given(out) == multiset(b.items) + multiset{p}
    ensures Back(out) == PathHeap.Displaced(State(b, topK), Val(p))
  {
    var n := |b.items|;
    var isPush := n < topK || PathHeap.Better(Val(p), Val(b.items[n - 1]));
    assert isPush == PathHeap.Wanted(State(b, topK), Val(p));
    if !isPush || Val(p).hash in b.hashes {
      return b, Some(p);
    }
    r, out := Accept(b, topK, p);
  }

  method Make(alloc: SPathAlloc, b: Bin, topK: nat, path: PathHeap.SPath, ghost held: multiset<PathNode>)
      returns (p: PathNode)
    requires multiset(b.items) <= held && alloc.Balanced(held)
    modifies alloc, alloc.made
    ensures alloc.Balanced(held + multiset{p}) && Val(p) == path && State(b, topK) == old(State(b, topK))
    ensures old(alloc.made) <= alloc.made && fresh(alloc.made - old(alloc.made))
    ensures forall q :: q in held ==> q.path == old(q.path)
  {
    p := alloc.New(held);
    p.path := Some(path);
    forall i | 0 <= i < |b.items| ensures Val(b.items[i]) == old(Val(b.items[i])) {
      assert b.items[i] in multiset(b.items) && b.items[i] in held;
    }
    assert Vals(b.items) == old(Vals(b.items));
  }

  /** DFS::PushPath and the last step of JoinDayPath: a new path goes to a heap, and what the heap gives
      back goes to the free list. */
  method OfferTo(alloc: SPathAlloc, b: Bin, topK: nat, path: PathHeap.SPath, ghost rest: multiset<PathNode>)
      returns (r: Bin)
    requires 1 <= topK && |b.items| <= topK && alloc.Balanced(rest + multiset(b.items))
    modifies alloc, alloc.made
    ensures |r.items| <= topK && alloc.Balanced(rest + multiset(r.items))
    ensures State(r, topK) == PathHeap.Offer(old(State(b, topK)), path)
    ensures old(alloc.made) <= alloc.made && fresh(alloc.made - old(alloc.made))
    ensures forall q :: q in rest ==> q.path == old(q.path)
  {
    ghost var held := rest + multiset(b.items);
    var p := Make(alloc, b, topK, path, held);
    var out;
    r, out := Push(b, topK, p);
    Together(rest, multiset(b.items), multiset{p}, multiset(r.items) + Given(out));
    GiveBack(alloc, r, topK, out, rest, held + multiset{p});
  }

  method GiveBack(alloc: SPathAlloc, r: Bin, topK: nat, out: Option<PathNode>, ghost rest: multiset<PathNode>,
                  ghost held: multiset<PathNode>)
    requires alloc.Balanced(held) && held == rest + (multiset(r.items) + Given(out))
    modifies alloc`freeS, alloc.made
    ensures alloc.Balanced(rest + multiset(r.items)) && State(r, topK) == old(State(r, topK))
    ensures forall q :: q in rest ==> q.path == old(q.path)
  {
    if out.Some? {
      var q := out.value;
      alloc.HeldOnce(held, q);
      assert held[q] == rest[q] + multiset(r.items)[q] + 1;
      assert q !in rest && q !in r.items;
      alloc.Delete(q, held);
      assert held - multiset{q} == rest + multiset(r.items);
      assert Vals(r.items) == old(Vals(r.items));
    } else {
      assert held == rest + multiset(r.items);
    }
  }

  /** A day's search, or the joining of days, as the paths it offers. */
  method OfferEach(alloc: SPathAlloc, b: Bin, topK: nat, ps: seq<PathHeap.SPath>, ghost rest: multiset<PathNode>)
    returns (r: Bin)
    requires 1 <= topK && |b.items| <= topK && alloc.Balanced(rest + multiset(b.items))
    modifies alloc, alloc.made
    ensures |r.items| <= topK && alloc.Balanced(rest + multiset(r.items))
    ensures State(r, topK) == PathHeap.OfferAll(old(State(b, topK)), ps)
    ensures old(alloc.made) <= alloc.made && fresh(alloc.made - old(alloc.made))
    ensures forall q :: q in rest ==> q.path == old(q.path)
  {
    r := b;
    ghost var h := State(b, topK);
    for i := 0 to |ps|
      invariant |r.items| <= topK && alloc.Balanced(rest + multiset(r.items))
      invariant PathHeap.OfferAll(State(r, topK), ps[i..]) == PathHeap.OfferAll(h, ps)
      invariant old(alloc.made) <= alloc.made && fresh(alloc.made - old(alloc.made))
      invariant forall q :: q in rest ==> q.path == old(q.path)
    {
      assert ps[i..][1..] == ps[i + 1..];
      r := OfferTo(alloc, r, topK, ps[i], rest);
    }
  }

  method DeleteEach(alloc: SPathAlloc, items: seq<PathNode>, ghost rest: multiset<PathNode>)
    requires alloc.Balanced(rest + multiset(items))
    modifies alloc`freeS, alloc.made
    ensures alloc.Balanced(rest)
    ensures forall q :: q in rest ==> q.path == old(q.path)
  {
    assert items[0..] == items;
    for i := 0 to |items|
      invariant alloc.Balanced(rest + multiset(items[i..]))
      invariant forall q :: q in rest ==> q.path == old(q.path)
    {
      ghost var held := rest + multiset(items[i..]);
      assert items[i..] == [items[i]] + items[i + 1..];
      alloc.HeldOnce(held, items[i]);
      alloc.Delete(items[i], held);
      assert held - multiset{items[i]} == rest + multiset(items[i + 1..]);
    }
    assert rest + multiset(items[|items|..]) == rest;
  }

  // A thread's heaps

  type Bins = seq<(int, Bin)>   // m_dfsHeapMap: one heap for each hash

  predicate Keyed(heaps: Bins) {
    forall i, j :: 0 <= i < j < |heaps| ==> heaps[i].0 != heaps[j].0
  }

  ghost function Nodes(heaps: Bins): (r: set<PathNode>)
    ensures forall i, q :: 0 <= i < |heaps| && q in heaps[i].1.items ==> q in r
  {
    set i, q | 0 <= i < |heaps| && q in heaps[i].1.items :: q
  }

  ghost function Hashes(heaps: Bins): set<int> {
    set i | 0 <= i < |heaps| :: heaps[i].0
  }

  /** c is what the heaps hold, by hash. */
  ghost predicate Shows(heaps: Bins, topK: nat, c: MergeHeaps.Heaps)
    reads Nodes(heaps)
  {
    Keyed(heaps) && c.Keys == Hashes(heaps) && forall i :: 0 <= i < |heaps| ==> c[heaps[i].0] == State(heaps[i].1, topK)
  }

  lemma ShowsNew(heaps: Bins, topK: nat, c: MergeHeaps.Heaps, hash: int, b: Bin)
    requires Shows(heaps, topK, c) && forall i :: 0 <= i < |heaps| ==> heaps[i].0 != hash
    ensures hash !in c && Shows(heaps + [(hash, b)], topK, c[hash := State(b, topK)])
  {
    var next := heaps + [(hash, b)];
    assert next[|heaps|] == (hash, b);
    assert forall i :: 0 <= i < |heaps| ==> next[i] == heaps[i];
    assert hash !in Hashes(heaps);
    assert Hashes(next) == Hashes(heaps) + {hash};
  }

  /** c is what the heaps hold, but perhaps for heap h. */
  ghost predicate ButFor(heaps: Bins, topK: nat, h: nat, c: MergeHeaps.Heaps)
    reads Nodes(heaps)
  {
    Keyed(heaps) && c.Keys == Hashes(heaps) &&
    forall i :: 0 <= i < |heaps| && i != h ==> c[heaps[i].0] == State(heaps[i].1, topK)
  }

  lemma ShowsUpdate(heaps: Bins, topK: nat, h: nat, b: Bin, c: MergeHeaps.Heaps)
    requires h < |heaps| && ButFor(heaps, topK, h, c)
    ensures Shows(heaps[h := (heaps[h].0, b)], topK, c[heaps[h].0 := State(b, topK)])
  {
    var next := heaps[h := (heaps[h].0, b)];
    assert forall i :: 0 <= i < |heaps| ==> next[i].0 == heaps[i].0;
    assert Hashes(next) == Hashes(heaps);
    assert heaps[h].0 in Hashes(heaps);
  }

  ghost function Held(heaps: Bins): multiset<PathNode> {
    if heaps == [] then multiset{}
    else Held(heaps[..|heaps| - 1]) + multiset(heaps[|heaps| - 1].1.items)
  }

  /** A change of one part is a change of the whole. */
  lemma PartChanged<T>(all: multiset<T>, more: multiset<T>, before: multiset<T>, after: multiset<T>)
    requires before <= all
    ensures all - before + after + more == all + more - before + after && before <= all + more
  {
  }

  lemma LastChanged<T>(all: multiset<T>, before: multiset<T>, after: multiset<T>)
    ensures all + after == all + before - before + after && before <= all + before
  {
  }

  lemma HeldAll(heaps: Bins, e: (int, Bin))
    ensures Held(heaps + [e]) == Held(heaps) + multiset(e.1.items)
  {
    assert (heaps + [e])[..|heaps|] == heaps;
  }

  lemma {:induction false} HeldUpdate(heaps: Bins, i: nat, b: Bin)
    requires i < |heaps|
    ensures multiset(heaps[i].1.items) <= Held(heaps)
    ensures Held(heaps[i := (heaps[i].0, b)]) == Held(heaps) - multiset(heaps[i].1.items) + multiset(b.items)
  {
    var last := |heaps| - 1;
    var init, e := heaps[..last], heaps[last];
    assert heaps == init + [e];
    HeldAll(init, e);
    if i == last {
      assert heaps[i := (e.0, b)] == init + [(e.0, b)];
      HeldAll(init, (e.0, b));
      LastChanged(Held(init), multiset(e.1.items), multiset(b.items));
    } else {
      HeldUpdate(init, i, b);
      assert heaps[i := (heaps[i].0, b)] == init[i := (heaps[i].0, b)] + [e];
      HeldAll(init[i := (heaps[i].0, b)], e);
      PartChanged(Held(init), multiset(e.1.items), multiset(heaps[i].1.items), multiset(b.items));
    }
  }

  /** What all heaps but one hold. */
  ghost function Others(heaps: Bins, i: nat): multiset<PathNode>
    requires i < |heaps|
  {
    Held(heaps) - multiset(heaps[i].1.items)
  }

  lemma OthersHeld(heaps: Bins, i: nat, b: Bin, listed: multiset<PathNode>)
    requires i < |heaps|
    ensures Held(heaps) + listed == Others(heaps, i) + listed + multiset(heaps[i].1.items)
    ensures Held(heaps[i := (heaps[i].0, b)]) + listed == Others(heaps, i) + listed + multiset(b.items)
  {
    HeldUpdate(heaps, i, b);
  }

  lemma HeldNew(heaps: Bins, hash: int)
    ensures Held(heaps + [(hash, Bin([], {}))]) == Held(heaps)
  {
  }

  /** What is in a heap is held. */
  lemma HeldAt(heaps: Bins, i: nat, q: PathNode)
    requires i < |heaps| && q in heaps[i].1.items
    ensures q in Held(heaps)
  {
    HeldUpdate(heaps, i, heaps[i].1);
    assert q in multiset(heaps[i].1.items);
  }

  lemma OthersAt(heaps: Bins, h: nat, i: nat, q: PathNode)
    requires h < |heaps| && i < |heaps| && i != h && q in heaps[i].1.items
    ensures q in Others(heaps, h)
  {
    var rest := heaps[h := (heaps[h].0, Bin([], {}))];
    HeldUpdate(heaps, h, Bin([], {}));
    HeldAt(rest, i, q);
  }

  ghost predicate Bounded(heaps: Bins, topK: nat) {
    forall i :: 0 <= i < |heaps| ==> |heaps[i].1.items| <= topK
  }

  /** The heap of a hash, made empty if there is none. */
  method FindHeap(heaps: Bins, hash: int, ghost topK: nat, ghost c: MergeHeaps.Heaps)
    returns (r: Bins, i: nat, ghost d: MergeHeaps.Heaps)
    requires Shows(heaps, topK, c) && Bounded(heaps, topK)
    ensures Shows(r, topK, d) && Bounded(r, topK) && i < |r| && r[i].0 == hash && Held(r) == Held(heaps)
    ensures d == c[hash := MergeHeaps.HeapFor(c, topK, hash)]
  {
    r, i, d := heaps, 0, c;
    while i < |heaps|
      invariant i <= |heaps| && forall j :: 0 <= j < i ==> heaps[j].0 != hash
    {
      if heaps[i].0 == hash {
        assert hash in Hashes(heaps);
        return;
      }
      i := i + 1;
    }
    ShowsNew(heaps, topK, c, hash, Bin([], {}));
    HeldNew(heaps, hash);
    assert Vals([]) == [];
    r, d := heaps + [(hash, Bin([], {}))], c[hash := PathHeap.Empty(topK)];
  }

  /** What a job's joining offers leaves a heap as all its joined routes would, pruned or not. */
  ghost predicate JoinsOf(j: MergeHeaps.Job, dayK: nat, h: PathHeap.Heap, joins: seq<PathHeap.SPath>)
    requires 1 <= dayK && MergeHeaps.ValidJob(j) && 1 <= h.topK
  {
    PathHeap.OfferAll(h, joins) == PathHeap.OfferAll(h, MergeHeaps.Routes(j, dayK))
  }

  // The steps of a job, on a thread's heaps

  /** The days' lists, one after the other. */
  method SearchDays(alloc: SPathAlloc, days: seq<seq<PathHeap.SPath>>, dayK: nat, ghost rest: multiset<PathNode>)
    returns (lists: seq<PathNode>)
    requires 1 <= dayK && alloc.Balanced(rest)
    modifies alloc, alloc.made
    ensures alloc.Balanced(rest + multiset(lists))
    ensures forall q :: q in rest ==> q.path == old(q.path)
    ensures old(alloc.made) <= alloc.made && fresh(alloc.made - old(alloc.made))
  {
    lists := [];
    for b := 0 to |days|
      invariant alloc.Balanced(rest + multiset(lists))
      invariant forall q :: q in rest ==> q.path == old(q.path)
      invariant old(alloc.made) <= alloc.made && fresh(alloc.made - old(alloc.made))
    {
      ghost var before := rest + multiset(lists);
      assert before + multiset([]) == before;
      var day := OfferEach(alloc, Bin([], {}), dayK, days[b], before);
      assert before + multiset(day.items) == rest + multiset(lists + day.items);
      lists := lists + day.items;
    }
  }

  method SearchBeside(alloc: SPathAlloc, heaps: Bins, topK: nat, days: seq<seq<PathHeap.SPath>>, dayK: nat,
                      ghost c: MergeHeaps.Heaps) returns (lists: seq<PathNode>)
    requires 1 <= dayK && Shows(heaps, topK, c) && alloc.Balanced(Held(heaps))
    modifies alloc, alloc.made
    ensures alloc.Balanced(Held(heaps) + multiset(lists)) && Shows(heaps, topK, c)
    ensures old(alloc.made) <= alloc.made && fresh(alloc.made - old(alloc.made))
  {
    lists := SearchDays(alloc, days, dayK, Held(heaps));
    forall i | 0 <= i < |heaps|
      ensures State(heaps[i].1, topK) == old(State(heaps[i].1, topK))
    {
      forall q | q in heaps[i].1.items
        ensures q.path == old(q.path)
      {
        HeldAt(heaps, i, q);
      }
      assert Vals(heaps[i].1.items) == old(Vals(heaps[i].1.items));
    }
  }

  /** The offers to heap h, while the paths of the other heaps stay as they are. */
  method OfferAt(alloc: SPathAlloc, heaps: Bins, topK: nat, h: nat, joins: seq<PathHeap.SPath>,
                 ghost listed: multiset<PathNode>, ghost c: MergeHeaps.Heaps) returns (b: Bin)
    requires 1 <= topK && Shows(heaps, topK, c) && h < |heaps| && Bounded(heaps, topK)
    requires alloc.Balanced(Others(heaps, h) + listed + multiset(heaps[h].1.items))
    modifies alloc, alloc.made
    ensures |b.items| <= topK && alloc.Balanced(Others(heaps, h) + listed + multiset(b.items))
    ensures State(b, topK) == PathHeap.OfferAll(old(State(heaps[h].1, topK)), joins)
    ensures ButFor(heaps, topK, h, c)
    ensures old(alloc.made) <= alloc.made && fresh(alloc.made - old(alloc.made))
  {
    b := OfferEach(alloc, heaps[h].1, topK, joins, Others(heaps, h) + listed);
    forall i | 0 <= i < |heaps| && i != h
      ensures State(heaps[i].1, topK) == old(State(heaps[i].1, topK))
    {
      forall q | q in heaps[i].1.items
        ensures q.path == old(q.path)
      {
        OthersAt(heaps, h, i, q);
      }
      assert Vals(heaps[i].1.items) == old(Vals(heaps[i].1.items));
    }
  }

  method JoinInto(alloc: SPathAlloc, heaps: Bins, topK: nat, h: nat, lists: seq<PathNode>,
                  joins: seq<PathHeap.SPath>, ghost c: MergeHeaps.Heaps)
    returns (next: Bins, ghost d: MergeHeaps.Heaps)
    requires 1 <= topK && Shows(heaps, topK, c) && h < |heaps| && Bounded(heaps, topK)
    requires alloc.Balanced(Held(heaps) + multiset(lists))
    modifies alloc, alloc.made
    ensures Shows(next, topK, d) && Bounded(next, topK) && alloc.Balanced(Held(next) + multiset(lists))
    ensures heaps[h].0 in Hashes(heaps) && c[heaps[h].0].topK == topK
    ensures d == c[heaps[h].0 := PathHeap.OfferAll(c[heaps[h].0], joins)]
    ensures old(alloc.made) <= alloc.made && fresh(alloc.made - old(alloc.made))
  {
    assert heaps[h].0 in Hashes(heaps);
    OthersHeld(heaps, h, heaps[h].1, multiset(lists));
    var b := OfferAt(alloc, heaps, topK, h, joins, multiset(lists), c);
    OthersHeld(heaps, h, b, multiset(lists));
    ShowsUpdate(heaps, topK, h, b, c);
    next, d := heaps[h := (heaps[h].0, b)], c[heaps[h].0 := State(b, topK)];
  }

  /** The day lists are given back. */
  method Release(alloc: SPathAlloc, heaps: Bins, topK: nat, lists: seq<PathNode>, ghost c: MergeHeaps.Heaps)
    requires Shows(heaps, topK, c) && alloc.Balanced(Held(heaps) + multiset(lists))
    modifies alloc`freeS, alloc.made
    ensures alloc.Balanced(Held(heaps)) && Shows(heaps, topK, c)
  {
    DeleteEach(alloc, lists, Held(heaps));
    forall i | 0 <= i < |heaps|
      ensures State(heaps[i].1, topK) == old(State(heaps[i].1, topK))
    {
      forall q | q in heaps[i].1.items
        ensures q.path == old(q.path)
      {
        HeldAt(heaps, i, q);
      }
      assert Vals(heaps[i].1.items) == old(Vals(heaps[i].1.items));
    }
  }

  lemma UpdatedTwice<K, V>(m: map<K, V>, key: K, x: V, y: V)
    ensures m[key := x][key := y] == m[key := y] && m[key := x][key] == x
  {
  }

  /** A job's searches, its join into the heap of a hash, and the release of the day lists. */
  method RunJob(alloc: SPathAlloc, heaps: Bins, topK: nat, hash: int, days: seq<seq<PathHeap.SPath>>, dayK: nat,
                joins: seq<PathHeap.SPath>, ghost c: MergeHeaps.Heaps) returns (next: Bins, ghost d: MergeHeaps.Heaps)
    requires 1 <= topK && 1 <= dayK && Bounded(heaps, topK) && alloc.Balanced(Held(heaps))
    requires Shows(heaps, topK, c) && forall n :: n in c ==> c[n].topK == topK
    modifies alloc, alloc.made
    ensures Bounded(next, topK) && alloc.Balanced(Held(next)) && Shows(next, topK, d)
    ensures d == c[hash := PathHeap.OfferAll(MergeHeaps.HeapFor(c, topK, hash), joins)]
    ensures old(alloc.made) <= alloc.made && fresh(alloc.made - old(alloc.made))
  {
    var found, h;
    ghost var b;
    found, h, b := FindHeap(heaps, hash, topK, c);
    UpdatedTwice(c, hash, MergeHeaps.HeapFor(c, topK, hash), PathHeap.OfferAll(b[hash], joins));
    var lists;
    lists, next, d := SearchAndJoin(alloc, found, topK, h, days, dayK, joins, b);
    assert fresh(alloc.made - old(alloc.made));
    Release(alloc, next, topK, lists, d);
  }

  method SearchAndJoin(alloc: SPathAlloc, heaps: Bins, topK: nat, h: nat, days: seq<seq<PathHeap.SPath>>, dayK: nat,
                       joins: seq<PathHeap.SPath>, ghost c: MergeHeaps.Heaps)
    returns (lists: seq<PathNode>, next: Bins, ghost d: MergeHeaps.Heaps)
    requires 1 <= topK && 1 <= dayK && h < |heaps| && Bounded(heaps, topK) && alloc.Balanced(Held(heaps))
    requires Shows(heaps, topK, c)
    modifies alloc, alloc.made
    ensures Shows(next, topK, d) && Bounded(next, topK) && alloc.Balanced(Held(next) + multiset(lists))
    ensures heaps[h].0 in Hashes(heaps) && c[heaps[h].0].topK == topK
    ensures d == c[heaps[h].0 := PathHeap.OfferAll(c[heaps[h].0], joins)]
    ensures old(alloc.made) <= alloc.made && fresh(alloc.made - old(alloc.made))
  {
    lists := SearchBeside(alloc, heaps, topK, days, dayK, c);
    ghost var made := alloc.made;
    next, d := JoinInto(alloc, heaps, topK, h, lists, joins, c);
    assert alloc.made - old(alloc.made) <= (alloc.made - made) + (made - old(alloc.made));
  }

  /** ThreadMemPool as the holder of its thread's paths. */
  class MemPool {
    const spAlloc: SPathAlloc
    const topK: nat
    var dfsHeaps: Bins
    ghost var contents: MergeHeaps.Heaps

    /** Every path the allocator made is free or in one heap, at one place. */
    ghost predicate Valid()
      reads this, spAlloc
    {
      1 <= topK && Bounded(dfsHeaps, topK) && spAlloc.Balanced(Held(dfsHeaps)) &&
      forall n :: n in contents ==> contents[n].topK == topK
    }

    /** `contents` is what the heaps hold; stated so that the methods need not look into it. */
    ghost predicate Shown()
      reads this, Nodes(dfsHeaps)
    {
      forall k :: k == topK ==> Shows(dfsHeaps, k, contents)
    }

    constructor (initLen: nat, topK: nat)
      requires 1 <= topK
      ensures Valid() && Shown() && contents == map[] && fresh(spAlloc) && fresh(spAlloc.made)
    {
      spAlloc := new SPathAlloc(initLen);
      this.topK, dfsHeaps, contents := topK, [], map[];
    }

    /** doWork: the days' searches, the join into the heap of the root path's hash, and the release of
        the day lists. */
    method DoWork(j: MergeHeaps.Job, days: seq<seq<PathHeap.SPath>>, dayK: nat, joins: seq<PathHeap.SPath>)
      requires Valid() && Shown() && 1 <= dayK
      modifies this, spAlloc, spAlloc.made
      ensures Valid() && Shown() && old(spAlloc.made) <= spAlloc.made && fresh(spAlloc.made - old(spAlloc.made))
      ensures var n, c := j.root.hashPointSet, old(contents);
        contents == c[n := PathHeap.OfferAll(MergeHeaps.HeapFor(c, topK, n), joins)]
      ensures MergeHeaps.ValidJob(j) && MergeHeaps.ValidHeaps(old(contents), topK) ==>
        JoinsOf(j, dayK, MergeHeaps.HeapFor(old(contents), topK, j.root.hashPointSet), joins) ==>
          contents == MergeHeaps.AfterJob(old(contents), topK, j, dayK)
    {
      assert Shows(dfsHeaps, topK, contents);
      dfsHeaps, contents := RunJob(spAlloc, dfsHeaps, topK, j.root.hashPointSet, days, dayK, joins, contents);
    }

    /** ThreadMemPool::Clear: every path goes back to the free list. */
    method Clear()
      requires Valid()
      modifies this`dfsHeaps, this`contents, spAlloc`freeS, spAlloc.made
      ensures Valid() && Shown() && dfsHeaps == [] && multiset(spAlloc.freeS) == multiset(spAlloc.made)
    {
      while dfsHeaps != []
        invariant Valid()
        decreases |dfsHeaps|
      {
        var last := |dfsHeaps| - 1;
        DeleteEach(spAlloc, dfsHeaps[last].1.items, Held(dfsHeaps[..last]));
        dfsHeaps := dfsHeaps[..last];
      }
      contents := map[];
    }
  }
}
