/** The bounded, hash-deduplicating heap of day orders and routes (SPathHeap, SPathCmp). */
module PathHeap {
  import opened Prelude

  /** A visit of place vPos in block (day) bPos. */
  datatype Visit = Visit(bPos: nat, vPos: nat)

  /** The fields of SPath that the day search, the join and the merge read or write. */
  datatype SPath = SPath(
    visits: seq<Visit>, hot: int, dist: int, clash: int, firstL: int,
    score: int, missLevel: int, hash: int, hashFrom: int)

  /** SPathCmp: a is strictly better than b. */
  predicate Better(a: SPath, b: SPath) {
    if a.missLevel != b.missLevel then a.missLevel < b.missLevel
    else if a.clash != b.clash then a.clash < b.clash
    else if a.score != b.score then a.score > b.score
    else a.hash < b.hash
  }

  ghost predicate Sorted(q: seq<SPath>) {
    forall i, j :: 0 <= i < j < |q| ==> Better(q[i], q[j])
  }

  /** The state of one heap. The priority queue is the sequence of its elements, best first, so
      that its top (the element a better path displaces) is the last one. */
  datatype Heap = Heap(topK: nat, queue: seq<SPath>, hashes: set<int>)

  ghost predicate Valid(h: Heap) {
    && 1 <= h.topK
    && |h.queue| <= h.topK
    && Sorted(h.queue)
    && forall p :: p in h.queue ==> p.hash in h.hashes
  }

  function Empty(topK: nat): Heap {
    Heap(topK, [], {})
  }

  function Insert(q: seq<SPath>, p: SPath): (r: seq<SPath>)
    ensures |r| == |q| + 1
    ensures forall x :: x in r <==> x == p || x in q
  {
    if q == [] then [p]
    else if Better(p, q[0]) then [p] + q
    else
      var rest := Insert(q[1..], p);
      assert forall x :: x in rest <==> x == p || x in q[1..];
      [q[0]] + rest
  }

  lemma {:induction false} InsertSorted(q: seq<SPath>, p: SPath)
    requires Sorted(q) && forall x :: x in q ==> x.hash != p.hash
    ensures Sorted(Insert(q, p))
  {
    if q != [] {
      BetterTotal(p, q[0]);
      if Better(p, q[0]) {
        assert forall i :: 0 < i < |q| ==> Better(q[0], q[i]);
      } else {
        var rest := Insert(q[1..], p);
        InsertSorted(q[1..], p);
        forall x | x in rest
          ensures Better(q[0], x)
        {
          if x != p { HeadBest(q, x); TailMember(q, x); }
        }
      }
    }
  }

  predicate CanPush(h: Heap, score: int, missLevel: int, clash: int)
    requires 1 <= h.topK
  {
    if |h.queue| < h.topK then true
    else
      var top := h.queue[|h.queue| - 1];
      if missLevel < top.missLevel then true
      else if missLevel > top.missLevel then false
      else if clash < top.clash then true
      else if clash > top.clash then false
      else score >= top.score
  }

  predicate Wanted(h: Heap, p: SPath)
    requires 1 <= h.topK
  {
    |h.queue| < h.topK || Better(p, h.queue[|h.queue| - 1])
  }

  /** Push: the heap after offering p. */
  function Offer(h: Heap, p: SPath): Heap
    requires 1 <= h.topK
  {
    if !Wanted(h, p) || p.hash in h.hashes then h
    else
      var kept := if |h.queue| >= h.topK then h.queue[..|h.queue| - 1] else h.queue;
      Heap(h.topK, Insert(kept, p), h.hashes + {p.hash})
  }

  /** Push: the path handed back to the caller, if any, whose memory the caller returns. */
  function Displaced(h: Heap, p: SPath): Option<SPath>
    requires 1 <= h.topK
  {
    if !Wanted(h, p) || p.hash in h.hashes then Some(p)
    else if |h.queue| >= h.topK then Some(h.queue[|h.queue| - 1])
    else None
  }

  lemma OfferValid(h: Heap, p: SPath)
    requires Valid(h)
    ensures Valid(Offer(h, p)) && Offer(h, p).topK == h.topK
  {
    if Wanted(h, p) && p.hash !in h.hashes {
      var kept := if |h.queue| >= h.topK then h.queue[..|h.queue| - 1] else h.queue;
      InsertSorted(kept, p);
    }
  }

  /** What Push hands back balances the books: nothing is lost and nothing is duplicated. */
  lemma OfferConserves(h: Heap, p: SPath)
    requires Valid(h)
    ensures multiset(h.queue) + multiset{p}
         == multiset(Offer(h, p).queue)
            + (match Displaced(h, p) case None => multiset{} case Some(d) => multiset{d})
  {
    if Wanted(h, p) && p.hash !in h.hashes {
      var kept := if |h.queue| >= h.topK then h.queue[..|h.queue| - 1] else h.queue;
      InsertMultiset(kept, p);
      if |h.queue| >= h.topK {
        assert h.queue == kept + [h.queue[|h.queue| - 1]];
      }
    }
  }

  lemma {:induction false} InsertMultiset(q: seq<SPath>, p: SPath)
    ensures multiset(Insert(q, p)) == multiset(q) + multiset{p}
  {
    if q != [] {
      assert q == [q[0]] + q[1..];
      if !Better(p, q[0]) {
        InsertMultiset(q[1..], p);
      }
    }
  }

  /** The pruning test is sound: when CanPush refuses the bound (score, missLevel, clash), Push
      refuses every path that is no better than the bound in each of the three criteria. */
  lemma CanPushSound(h: Heap, score: int, missLevel: int, clash: int, p: SPath)
    requires 1 <= h.topK && !CanPush(h, score, missLevel, clash)
    requires missLevel <= p.missLevel && clash <= p.clash && p.score <= score
    ensures Offer(h, p) == h && Displaced(h, p) == Some(p)
  {
  }

  function OfferAll(h: Heap, ps: seq<SPath>): (r: Heap)
    requires 1 <= h.topK
    ensures r.topK == h.topK
    decreases |ps|
  {
    if ps == [] then h else OfferAll(Offer(h, ps[0]), ps[1..])
  }

  lemma {:induction false} OfferAllConcat(h: Heap, ps: seq<SPath>, qs: seq<SPath>)
    requires 1 <= h.topK
    ensures OfferAll(h, ps + qs) == OfferAll(OfferAll(h, ps), qs)
    decreases |ps|
  {
    if ps == [] {
      assert [] + qs == qs;
    } else {
      assert (ps + qs)[1..] == ps[1..] + qs;
      OfferAllConcat(Offer(h, ps[0]), ps[1..], qs);
    }
  }

  // ----- What the heap holds, said without running it

  /** Among the paths of s, the hash identifies the path. */
  ghost predicate HashInjective(s: set<SPath>) {
    forall a, b :: a in s && b in s && a.hash == b.hash ==> a == b
  }

  /** q is the ordered list of the k best paths of s: only a full list leaves a path out, and
      everything left out is worse than everything kept. */
  ghost predicate IsTopK(q: seq<SPath>, k: nat, s: set<SPath>) {
    && Sorted(q)
    && |q| <= k
    && (forall p :: p in q ==> p in s)
    && (forall x :: x in s && x !in q ==> |q| == k)
    && (forall x, p :: x in s && x !in q && p in q ==> Better(p, x))
  }

  /** h has been offered exactly the paths of s. */
  ghost predicate Holds(h: Heap, s: set<SPath>) {
    && Valid(h)
    && IsTopK(h.queue, h.topK, s)
    && (forall n :: n in h.hashes ==> exists p :: p in s && p.hash == n)
  }

  lemma BetterTotal(a: SPath, b: SPath)
    ensures Better(a, b) ==> !Better(b, a)
    ensures a.hash != b.hash ==> Better(a, b) || Better(b, a)
  {
  }

  lemma SortedTop(q: seq<SPath>, p: SPath)
    requires Sorted(q) && q != []
    requires !Better(p, q[|q| - 1])
    requires forall x :: x in q ==> x.hash != p.hash
    ensures forall x :: x in q ==> Better(x, p)
  {
  }

  lemma OfferHolds(h: Heap, s: set<SPath>, p: SPath)
    requires Holds(h, s) && HashInjective(s + {p})
    ensures Holds(Offer(h, p), s + {p})
  {
    var r := Offer(h, p);
    if p in s {
      OfferAgain(h, s, p);
      assert s + {p} == s;
    } else {
      assert p.hash !in h.hashes;
      assert forall x :: x in h.queue ==> x.hash != p.hash;
      if !Wanted(h, p) {
        SortedTop(h.queue, p);
      } else {
        OfferValid(h, p);
        OfferFresh(h, s, p);
      }
      forall n | n in r.hashes
        ensures exists x :: x in s + {p} && x.hash == n
      {
        if n in h.hashes {
          var x :| x in s && x.hash == n;
          assert x in s + {p};
        } else {
          assert p in s + {p};
        }
      }
    }
  }

  /** A path that was offered before is refused, whether it is still held or was displaced. */
  lemma OfferAgain(h: Heap, s: set<SPath>, p: SPath)
    requires Holds(h, s) && p in s
    ensures Offer(h, p) == h
  {
    if p !in h.queue {
      assert |h.queue| == h.topK;
      assert Better(h.queue[|h.queue| - 1], p);
    }
  }

  lemma Outlasts(h: Heap, s: set<SPath>, p: SPath, x: SPath, y: SPath)
    requires Holds(h, s) && Wanted(h, p) && p.hash !in h.hashes && |h.queue| >= h.topK
    requires x in s + {p} && x !in Offer(h, p).queue && y in Offer(h, p).queue
    ensures Better(y, x)
  {
    var q := h.queue;
    var top := q[|q| - 1];
    assert q == q[..|q| - 1] + [top];
    assert x != p && x in s;
    if x in q {
      assert x == top;
      if y != p {
        var i :| 0 <= i < |q| - 1 && q[i] == y;
        assert Better(q[i], q[|q| - 1]);
      }
    } else {
      assert Better(top, x);
    }
  }

  lemma OfferFresh(h: Heap, s: set<SPath>, p: SPath)
    requires Holds(h, s) && HashInjective(s + {p}) && p !in s
    requires Wanted(h, p) && p.hash !in h.hashes
    ensures IsTopK(Offer(h, p).queue, h.topK, s + {p})
  {
    var q, r := h.queue, Offer(h, p).queue;
    OfferValid(h, p);
    if |q| >= h.topK {
      var top := q[|q| - 1];
      assert q == q[..|q| - 1] + [top];
      forall x, y | x in s + {p} && x !in r && y in r
        ensures Better(y, x)
      {
        Outlasts(h, s, p, x, y);
      }
    } else {
      assert forall x :: x in s ==> x in q;
    }
  }

  lemma {:induction false} OfferAllHolds(h: Heap, s: set<SPath>, ps: seq<SPath>)
    requires Holds(h, s) && HashInjective(s + Elems(ps))
    ensures Holds(OfferAll(h, ps), s + Elems(ps))
    decreases |ps|
  {
    if ps == [] {
      assert s + Elems(ps) == s;
    } else {
      assert s + Elems(ps) == (s + {ps[0]}) + Elems(ps[1..]) by {
        assert ps == [ps[0]] + ps[1..];
      }
      assert HashInjective(s + {ps[0]});
      OfferHolds(h, s, ps[0]);
      OfferAllHolds(Offer(h, ps[0]), s + {ps[0]}, ps[1..]);
    }
  }

  lemma EmptyHolds(topK: nat)
    requires 1 <= topK
    ensures Holds(Empty(topK), {})
  {
  }

  /** The k best paths are unique, as a list. */
  lemma TopKUnique(q: seq<SPath>, r: seq<SPath>, k: nat, s: set<SPath>)
    requires IsTopK(q, k, s) && IsTopK(r, k, s)
    ensures q == r
  {
    TopKSubset(q, r, k, s);
    TopKSubset(r, q, k, s);
    SortedEqual(q, r);
  }

  lemma SortedDistinct(q: seq<SPath>)
    requires Sorted(q)
    ensures Distinct(q)
  {
  }

  lemma TopKSubset(q: seq<SPath>, r: seq<SPath>, k: nat, s: set<SPath>)
    requires IsTopK(q, k, s) && IsTopK(r, k, s)
    ensures forall x :: x in q ==> x in r
  {
    forall x | x in q
      ensures x in r
    {
      if x !in r {
        SortedDistinct(q);
        SortedDistinct(r);
        DistinctSize(q);
        DistinctSize(r);
        var y := MissingElement(Elems(r), Elems(q), x);
        BetterTotal(x, y);
        assert false;
      }
    }
  }

  lemma MissingElement<T>(a: set<T>, b: set<T>, x: T) returns (y: T)
    requires x in b && x !in a && |b| <= |a|
    ensures y in a && y !in b
  {
    if a <= b {
      assert a <= b - {x};
      SubsetSize(a, b - {x});
      assert false;
    }
    y :| y in a && y !in b;
  }

  lemma {:induction false} SubsetSize<T>(a: set<T>, b: set<T>)
    requires a <= b
    ensures |a| <= |b|
  {
    assert b == a + (b - a);
  }

  lemma {:induction false} SortedEqual(q: seq<SPath>, r: seq<SPath>)
    requires Sorted(q) && Sorted(r) && forall x :: x in q <==> x in r
    ensures q == r
    decreases |q|
  {
    if q == [] || r == [] {
      HeadMember(q);
      HeadMember(r);
    } else {
      HeadBest(q, r[0]);
      HeadBest(r, q[0]);
      BetterTotal(q[0], r[0]);
      forall x
        ensures x in q[1..] <==> x in r[1..]
      {
        TailMember(q, x);
        TailMember(r, x);
      }
      SortedEqual(q[1..], r[1..]);
      assert q == [q[0]] + q[1..] && r == [r[0]] + r[1..];
    }
  }

  lemma HeadBest(q: seq<SPath>, x: SPath)
    requires Sorted(q) && x in q
    ensures x == q[0] || Better(q[0], x)
  {
  }

  lemma TailMember(q: seq<SPath>, x: SPath)
    requires Sorted(q) && q != []
    ensures x in q[1..] <==> x in q && x != q[0]
  {
  }

  // ----- Exactly which hash collisions matter

  /** No path of q shares its hash with another path of s. */
  ghost predicate NoClash(q: seq<SPath>, s: set<SPath>) {
    forall p, x :: p in q && x in s && p.hash == x.hash ==> p == x
  }

  /** h has been offered the paths u of s, and has kept those of q. */
  ghost predicate Guards(h: Heap, q: seq<SPath>, s: set<SPath>, u: set<SPath>) {
    && Valid(h) && u <= s
    && (forall p :: p in h.queue ==> p in u)
    && (forall p :: p in q && p in u ==> p in h.queue)
    && (forall n :: n in h.hashes ==> exists x :: x in u && x.hash == n)
  }

  lemma BetterTransitive(a: SPath, b: SPath, c: SPath)
    requires Better(a, b) && Better(b, c)
    ensures Better(a, c)
  {
  }

  lemma TopLast(q: seq<SPath>, y: SPath)
    requires Sorted(q) && y in q
    ensures y == q[|q| - 1] || Better(y, q[|q| - 1])
  {
  }

  /** A full heap that lacks one of the k best has a top that is not among them, and is worse. */
  lemma TopWorse(h: Heap, q: seq<SPath>, s: set<SPath>, u: set<SPath>, p: SPath)
    requires Guards(h, q, s, u) && IsTopK(q, h.topK, s) && |h.queue| == h.topK && p in q && p !in h.queue
    ensures Better(p, h.queue[|h.queue| - 1]) && h.queue[|h.queue| - 1] !in q
  {
    var top := h.queue[|h.queue| - 1];
    SortedDistinct(q);
    SortedDistinct(h.queue);
    DistinctSize(q);
    DistinctSize(h.queue);
    var y := MissingElement(Elems(h.queue), Elems(q), p);
    assert y in h.queue && y !in q && y in s;
    TopLast(h.queue, y);
    if y != top { BetterTransitive(p, y, top); }
    BetterTotal(top, y);
  }

  lemma GuardsHashes(h: Heap, q: seq<SPath>, s: set<SPath>, u: set<SPath>, p: SPath)
    requires Guards(h, q, s, u)
    ensures forall n :: n in Offer(h, p).hashes ==> exists x :: x in u + {p} && x.hash == n
  {
    forall n | n in Offer(h, p).hashes
      ensures exists x :: x in u + {p} && x.hash == n
    {
      if n in h.hashes {
        var x :| x in u && x.hash == n;
        assert x in u + {p};
      } else {
        assert p in u + {p};
      }
    }
  }

  /** One of the k best is taken when it arrives. */
  lemma BestTaken(h: Heap, q: seq<SPath>, s: set<SPath>, u: set<SPath>, p: SPath)
    requires Guards(h, q, s, u) && IsTopK(q, h.topK, s) && NoClash(q, s) && p in q
    ensures p in Offer(h, p).queue
  {
    if p !in h.queue {
      assert p.hash !in h.hashes;
      if |h.queue| >= h.topK { TopWorse(h, q, s, u, p); }
    }
  }

  /** What an offer displaces is not among the k best. */
  lemma BestStays(h: Heap, q: seq<SPath>, s: set<SPath>, u: set<SPath>, p: SPath)
    requires Guards(h, q, s, u) && IsTopK(q, h.topK, s) && NoClash(q, s) && p in s
    ensures forall x :: x in q && x in h.queue ==> x in Offer(h, p).queue
  {
    if Offer(h, p) != h && |h.queue| >= h.topK {
      var top := h.queue[|h.queue| - 1];
      assert h.queue == h.queue[..|h.queue| - 1] + [top];
      if p in q { TopWorse(h, q, s, u, p); } else { BetterTotal(p, top); }
      assert top !in q;
    }
  }

  lemma OfferGuards(h: Heap, q: seq<SPath>, s: set<SPath>, u: set<SPath>, p: SPath)
    requires Guards(h, q, s, u) && IsTopK(q, h.topK, s) && NoClash(q, s) && p in s
    ensures Guards(Offer(h, p), q, s, u + {p})
  {
    OfferValid(h, p);
    GuardsHashes(h, q, s, u, p);
    BestStays(h, q, s, u, p);
    if p in q { BestTaken(h, q, s, u, p); }
  }

  lemma {:induction false} OfferAllGuards(h: Heap, q: seq<SPath>, s: set<SPath>, u: set<SPath>, ps: seq<SPath>)
    requires Guards(h, q, s, u) && IsTopK(q, h.topK, s) && NoClash(q, s) && forall p :: p in ps ==> p in s
    ensures Guards(OfferAll(h, ps), q, s, u + Elems(ps))
    decreases |ps|
  {
    if ps == [] {
      assert u + Elems(ps) == u;
    } else {
      assert ps == [ps[0]] + ps[1..];
      assert u + Elems(ps) == (u + {ps[0]}) + Elems(ps[1..]);
      OfferGuards(h, q, s, u, ps[0]);
      OfferAllGuards(Offer(h, ps[0]), q, s, u + {ps[0]}, ps[1..]);
    }
  }

  lemma EmptyGuards(k: nat, q: seq<SPath>, s: set<SPath>)
    requires 1 <= k
    ensures Guards(Empty(k), q, s, {})
  {
  }

  /** A heap that has been offered all of s, or at least the k best and nothing else, is the list of these. */
  lemma GuardsAll(h: Heap, q: seq<SPath>, s: set<SPath>, u: set<SPath>)
    requires Guards(h, q, s, u) && IsTopK(q, h.topK, s) && forall p :: p in q ==> p in u
    ensures h.queue == q
  {
    SortedDistinct(q);
    SortedDistinct(h.queue);
    DistinctSize(q);
    DistinctSize(h.queue);
    if x :| x in h.queue && x !in q {
      assert Elems(q) <= Elems(h.queue) - {x};
      SubsetSize(Elems(q), Elems(h.queue) - {x});
    }
    SortedEqual(q, h.queue);
  }

  /** Every way of offering the paths of s, in any order and with repetitions, ends with q. */
  ghost predicate AlwaysEnds(k: nat, s: set<SPath>, q: seq<SPath>)
    requires 1 <= k
  {
    forall ps :: Elems(ps) == s ==> OfferAll(Empty(k), ps).queue == q
  }

  lemma {:induction false} Enumerate<T>(s: set<T>) returns (ps: seq<T>)
    ensures Elems(ps) == s
  {
    if s == {} {
      ps := [];
      assert Elems(ps) == {};
    } else {
      var x :| x in s;
      var rest := Enumerate(s - {x});
      ps := [x] + rest;
      assert Elems(ps) == {x} + Elems(rest);
    }
  }

  /** A path whose hash is taken by another never enters. */
  lemma {:induction false} ShutOut(h: Heap, ps: seq<SPath>, p: SPath)
    requires 1 <= h.topK && p !in h.queue && p.hash in h.hashes
    ensures p !in OfferAll(h, ps).queue
    decreases |ps|
  {
    if ps != [] { ShutOut(Offer(h, ps[0]), ps[1..], p); }
  }

  /** The k best paths are always what is left exactly when none of them shares its hash with another
      path; otherwise the other path, offered first, shuts it out. */
  lemma OrderExact(k: nat, s: set<SPath>, q: seq<SPath>)
    requires 1 <= k && IsTopK(q, k, s)
    ensures AlwaysEnds(k, s, q) <==> NoClash(q, s)
  {
    if NoClash(q, s) {
      forall ps | Elems(ps) == s
        ensures OfferAll(Empty(k), ps).queue == q
      {
        OfferedEnds(k, s, q, ps);
      }
    } else {
      var p, x :| p in q && x in s && p.hash == x.hash && p != x;
      var ps := ClashFirst(k, s, p, x);
      assert OfferAll(Empty(k), ps).queue != q;
    }
  }

  /** Of two paths with the same hash, the one offered first keeps the other out for ever. */
  lemma ClashFirst(k: nat, s: set<SPath>, p: SPath, x: SPath) returns (ps: seq<SPath>)
    requires 1 <= k && x in s && p.hash == x.hash && p != x
    ensures Elems(ps) == s && p !in OfferAll(Empty(k), ps).queue
  {
    var rest := Enumerate(s);
    ps := [x] + rest;
    assert Elems(ps) == {x} + Elems(rest);
    assert ps[1..] == rest;
    FirstIn(k, x);
    ShutOut(Offer(Empty(k), x), rest, p);
  }

  lemma FirstIn(k: nat, x: SPath)
    requires 1 <= k
    ensures Offer(Empty(k), x) == Heap(k, [x], {x.hash})
  {
  }

  lemma OfferedEnds(k: nat, s: set<SPath>, q: seq<SPath>, ps: seq<SPath>)
    requires 1 <= k && IsTopK(q, k, s) && NoClash(q, s) && Elems(ps) == s
    ensures OfferAll(Empty(k), ps).queue == q
  {
    EmptyGuards(k, q, s);
    OfferAllGuards(Empty(k), q, s, {}, ps);
    GuardsAll(OfferAll(Empty(k), ps), q, s, {} + Elems(ps));
  }

  /** The order in which paths are offered does not matter, if the k best are clear of collisions. */
  lemma OrderIrrelevant(k: nat, ps: seq<SPath>)
    requires 1 <= k && Clear(k, Elems(ps))
    ensures IsTopK(OfferAll(Empty(k), ps).queue, k, Elems(ps))
  {
    var q :| IsTopK(q, k, Elems(ps)) && NoClash(q, Elems(ps));
    OfferedEnds(k, Elems(ps), q, ps);
  }

  /** The k best of s exist, and no hash collision touches them. */
  ghost predicate Clear(k: nat, s: set<SPath>) {
    exists q :: IsTopK(q, k, s) && NoClash(q, s)
  }

  /** If different paths have different hashes, this is always so. */
  lemma InjectiveClear(k: nat, s: set<SPath>)
    requires 1 <= k && HashInjective(s)
    ensures Clear(k, s)
  {
    var ps := Enumerate(s);
    EmptyHolds(k);
    assert {} + Elems(ps) == s;
    OfferAllHolds(Empty(k), {}, ps);
    assert NoClash(OfferAll(Empty(k), ps).queue, s);
  }

  // ----- The class

  class SPathHeap {
    var topK: nat
    var queue: seq<SPath>
    var hashSet: set<int>

    ghost function State(): Heap
      reads this
    {
      Heap(topK, queue, hashSet)
    }

    constructor (k: nat)
      ensures State() == Empty(k)
    {
      topK, queue, hashSet := k, [], {};
    }

    /** Init only sets the bound: what the heap already holds stays. */
    method Init(k: nat)
      modifies this
      ensures State() == old(State()).(topK := k)
    {
      topK := k;
    }

    method Clear()
      modifies this
      ensures State() == Empty(old(topK))
    {
      queue, hashSet := [], {};
    }

    method Accepts(score: int, missLevel: int, clash: int) returns (ok: bool)
      requires 1 <= topK
      ensures ok == CanPush(State(), score, missLevel, clash)
    {
      if |queue| < topK { return true; }
      var top := queue[|queue| - 1];
      if missLevel < top.missLevel { return true; }
      if missLevel > top.missLevel { return false; }
      if clash < top.clash { return true; }
      if clash > top.clash { return false; }
      return score >= top.score;
    }

    method Push(p: SPath) returns (popped: Option<SPath>)
      requires Valid(State())
      modifies this
      ensures State() == Offer(old(State()), p)
      ensures popped == Displaced(old(State()), p)
      ensures Valid(State())
    {
      OfferValid(State(), p);
      var isPush := |queue| < topK || Better(p, queue[|queue| - 1]);
      if isPush {
        if p.hash in hashSet {
          isPush := false;
        } else {
          hashSet := hashSet + {p.hash};
        }
      }
      if !isPush { return Some(p); }
      popped := None;
      if |queue| >= topK {
        popped := Some(queue[|queue| - 1]);
        queue := queue[..|queue| - 1];
      }
      queue := Insert(queue, p);
    }
  }

  /** a is listed before b in q, or b is left out of q. */
  ghost predicate Ahead(q: seq<SPath>, s: set<SPath>, a: SPath, b: SPath) {
    (exists i, j :: 0 <= i < j < |q| && q[i] == a && q[j] == b) || (a in q && b in s && b !in q)
  }

  /** The K best of a set: fewer missed places first, then fewer clashes, then the higher score, then the
      lower hash. */
  lemma TopKMeans(q: seq<SPath>, k: nat, s: set<SPath>)
    ensures IsTopK(q, k, s) <==>
      && |q| <= k && (forall p :: p in q ==> p in s) && (forall x :: x in s && x !in q ==> |q| == k)
      && forall a, b :: Ahead(q, s, a, b) ==>
           a.missLevel < b.missLevel || (a.missLevel == b.missLevel &&
             (a.clash < b.clash || (a.clash == b.clash &&
               (a.score > b.score || (a.score == b.score && a.hash < b.hash)))))
  {
    if Sorted(q) && forall x, p :: x in s && x !in q && p in q ==> Better(p, x) {
      assert forall a, b :: Ahead(q, s, a, b) ==> Better(a, b);
    }
    if forall a, b :: Ahead(q, s, a, b) ==> Better(a, b) {
      assert forall i, j :: 0 <= i < j < |q| ==> Ahead(q, s, q[i], q[j]);
      assert forall x, p :: x in s && x !in q && p in q ==> Ahead(q, s, p, x);
    }
  }
}
