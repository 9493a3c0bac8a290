/** The search for clusterings when a single merge is to be made: the nearest three pairs, in order. */
module ClusterOnce {
  import opened Prelude
  import opened HierCluster

  // ----- The edges are different, and as many as there are pairs

  lemma {:induction false} EdgesAtAll(c: Config, parts: Parts, i: nat, j: nat)
    requires i < j <= |parts| && parts[i] != {} && forall k :: 0 <= k < |parts| ==> parts[k] != {}
    ensures Distinct(EdgesAt(c, parts, i, j)) && |EdgesAt(c, parts, i, j)| == |parts| - j
    decreases |parts| - j
  {
    if j < |parts| {
      var first, rest := [Edge(i, j, c.dist(parts[i], parts[j]))], EdgesAt(c, parts, i, j + 1);
      EdgesAtAll(c, parts, i, j + 1);
      forall e | e in first
        ensures e !in rest
      {
        EdgesAtExact(c, parts, i, j + 1, e);
      }
      DistinctConcat(first, rest);
    }
  }

  lemma RowAll(c: Config, parts: Parts, i: nat)
    requires i < |parts| && forall k :: 0 <= k < |parts| ==> parts[k] != {}
    ensures Distinct(Row(c, parts, i)) && |Row(c, parts, i)| == |parts| - i - 1
    ensures forall e :: e in Row(c, parts, i) ==> e !in EdgesFrom(c, parts, i + 1)
  {
    EdgesAtAll(c, parts, i, i + 1);
    forall e | e in Row(c, parts, i)
      ensures e !in EdgesFrom(c, parts, i + 1)
    {
      RowExact(c, parts, i, e);
      EdgesFromExact(c, parts, i + 1, e);
    }
  }

  /** How many pairs there are among k things. */
  function PairCount(k: nat): nat { if k == 0 then 0 else PairCount(k - 1) + (k - 1) }

  lemma {:induction false} PairCountIs(k: nat)
    ensures PairCount(k) == k * (k - 1) / 2
  {
    if k > 0 {
      PairCountIs(k - 1);
      assert k * (k - 1) == (k - 1) * (k - 2) + 2 * (k - 1);
    }
  }

  lemma {:induction false} EdgesFromAll(c: Config, parts: Parts, i: nat)
    requires i <= |parts| && forall k :: 0 <= k < |parts| ==> parts[k] != {}
    ensures Distinct(EdgesFrom(c, parts, i)) && |EdgesFrom(c, parts, i)| == PairCount(|parts| - i)
    decreases |parts| - i
  {
    if i < |parts| {
      RowAll(c, parts, i);
      EdgesFromAll(c, parts, i + 1);
      DistinctConcat(Row(c, parts, i), EdgesFrom(c, parts, i + 1));
    }
  }

  lemma {:induction false} SameDistinct<T>(a: seq<T>, b: seq<T>)
    requires Distinct(a) && multiset(a) == multiset(b)
    ensures Distinct(b) && |a| == |b|
  {
    OnceEach(a);
    assert |multiset(a)| == |a| && |multiset(b)| == |b|;
    forall i, j | 0 <= i < j < |b|
      ensures b[i] != b[j]
    {
      assert b[i] in multiset(b) && b[i] in multiset(a);
      if b[i] == b[j] { Twice(b, i, j); }
    }
  }

  lemma {:induction false} OnceEach<T>(a: seq<T>)
    requires Distinct(a)
    ensures forall x :: x in a ==> multiset(a)[x] == 1
    decreases |a|
  {
    if a != [] {
      var init, last := a[..|a| - 1], a[|a| - 1];
      OnceEach(init);
      assert a == init + [last];
      assert last !in init;
    }
  }

  lemma Twice<T>(b: seq<T>, i: nat, j: nat)
    requires i < j < |b| && b[i] == b[j]
    ensures multiset(b)[b[i]] >= 2
  {
    assert b == b[..j] + [b[j]] + b[j + 1..];
    assert b[..j][i] == b[i];
    assert b[i] in b[..j];
  }

  lemma EdgesOnce(c: Config)
    requires Computed(c) && ValidConfig(c) && c.clusterNum <= c.n
    ensures var es := c.edges(Singletons(c)); Distinct(es) && |es| == PairCount(c.n)
  {
    var parts := Singletons(c);
    assert EdgesComputed(c, parts);
    EdgesFromAll(c, parts, 0);
    SameDistinct(EdgesFrom(c, parts, 0), c.edges(parts));
  }

  // ----- Different pairs of places give different outcomes

  lemma UnionOfSingles(c: Config, x: nat, y: nat, s: set<nat>)
    requires c.clusterNum <= c.n && x < y < c.n && s in Union(Singletons(c), x, y)
    ensures s == {x, y} || exists k :: s == {k}
  {
    var parts := Singletons(c);
    assert parts[x] + parts[y] == {x, y};
    if s != {x, y} {
      assert s in multiset(parts);
      assert s in parts;
    }
  }

  lemma UnionHas(c: Config, x: nat, y: nat)
    requires c.clusterNum <= c.n && x < y < c.n
    ensures {x, y} in Union(Singletons(c), x, y)
  {
    var parts := Singletons(c);
    assert parts[x] + parts[y] == {x, y};
  }

  lemma SamePair(x: nat, y: nat, x': nat, y': nat)
    requires x < y && x' < y' && ({x, y} == {x', y'} || exists k :: {x, y} == {k})
    ensures x == x' && y == y'
  {
    assert x in {x, y} && y in {x, y};
    assert x' in {x', y'} && y' in {x', y'};
  }

  lemma UnionsDiffer(c: Config, x: nat, y: nat, x': nat, y': nat)
    requires c.clusterNum <= c.n && x < y < c.n && x' < y' < c.n
    requires Union(Singletons(c), x, y) == Union(Singletons(c), x', y')
    ensures x == x' && y == y'
  {
    UnionHas(c, x, y);
    UnionOfSingles(c, x', y', {x, y});
    SamePair(x, y, x', y');
  }

  lemma OutcomesDiffer(c: Config, i: nat, j: nat)
    requires Computed(c) && ValidConfig(c) && c.clusterNum <= c.n && i < j < |c.edges(Singletons(c))|
    ensures OutcomeAt(c, Singletons(c), i) != OutcomeAt(c, Singletons(c), j)
  {
    var parts := Singletons(c);
    var e, f := c.edges(parts)[i], c.edges(parts)[j];
    EdgesOnce(c);
    assert e in c.edges(parts) && f in c.edges(parts);
    if OutcomeAt(c, parts, i) == OutcomeAt(c, parts, j) {
      UnionsDiffer(c, e.idx, e.idy, f.idx, f.idy);
    }
  }

  // ----- The results

  /** The single places with x and y in one cluster, which keeps x's position. */
  ghost predicate Paired(c: Config, x: nat, y: nat, r: Parts) {
    && |r| == c.n && x < y < c.n && r[x] == {x, y} && r[y] == {}
    && forall k: nat :: k < c.n && k != x && k != y ==> r[k] == {k}
  }

  ghost predicate MergeOf(c: Config, parts: Parts, k: nat, r: Parts)
    requires ValidConfig(c) && k < |c.edges(parts)|
  {
    var e := c.edges(parts)[k];
    e.idx < e.idy < |parts| && r == MergeParts(parts, e.idx, e.idy)
  }

  ghost predicate AllDiffer(c: Config, parts: Parts)
    requires ValidConfig(c)
  {
    forall i, j :: 0 <= i < j < |c.edges(parts)| ==> OutcomeAt(c, parts, i) != OutcomeAt(c, parts, j)
  }

  /** The loop from edge i on ends in `end`; stated so that nobody has to run it. */
  ghost predicate LoopsTo(c: Config, depth: nat, parts: Parts, i: nat, cnt: nat, s: Search, end: Search)
    requires ValidConfig(c) && ValidSearch(c, s) && depth < Bottom(c) && i <= |c.edges(parts)|
  {
    forall k: nat :: k == i ==> DfsLoop(c, depth, parts, k, cnt, s) == end
  }

  lemma LoopStops(c: Config, depth: nat, parts: Parts, i: nat, cnt: nat, s: Search, end: Search)
    requires ValidConfig(c) && ValidSearch(c, s) && depth < Bottom(c) && i <= |c.edges(parts)|
    requires LoopsTo(c, depth, parts, i, cnt, s, end) && (i == |c.edges(parts)| || cnt >= MaxCluster(depth))
    ensures end == s
  {
    assert DfsLoop(c, depth, parts, i, cnt, s) == end;
  }

  /** No outcome from edge i on is in v. */
  ghost predicate NewFrom(c: Config, parts: Parts, i: nat, v: set<Key>)
    requires ValidConfig(c)
  {
    forall k :: i <= k < |c.edges(parts)| ==> OutcomeAt(c, parts, k) !in v
  }

  /** MergeOf, stated so that nobody has to merge. */
  ghost predicate IsMerge(c: Config, parts: Parts, i: nat, r: Parts)
    requires ValidConfig(c)
  {
    forall k :: k == i && k < |c.edges(parts)| ==> MergeOf(c, parts, k, r)
  }

  /** One turn of the loop before the last merge. */
  lemma LastTurn(c: Config, depth: nat, parts: Parts, i: nat, cnt: nat, s: Search, end: Search)
    returns (r: Search, next: Parts)
    requires ValidConfig(c) && ValidSearch(c, s) && depth + 1 == Bottom(c) <= NODE_NUM && cnt < MaxCluster(depth)
    requires i < |c.edges(parts)| && LoopsTo(c, depth, parts, i, cnt, s, end)
    requires NewFrom(c, parts, i, s.visit[depth]) && AllDiffer(c, parts)
    ensures ValidSearch(c, r) && LoopsTo(c, depth, parts, i + 1, cnt + 1, r, end)
    ensures r.result == s.result + [next] && NewFrom(c, parts, i + 1, r.visit[depth])
    ensures IsMerge(c, parts, i, next)
  {
    assert OutcomeAt(c, parts, i) !in s.visit[depth];
    var e := c.edges(parts)[i];
    assert DfsLoop(c, depth, parts, i, cnt, s) == end;
    DfsLoopStep(c, depth, parts, i, cnt, s);
    KeyMeans(parts, e.idx, e.idy);
    next := MergeParts(parts, e.idx, e.idy);
    r := Mark(s, depth, KeyOf(parts, e.idx, e.idy)).(result := s.result + [next]);
    assert DfsLoop(c, depth, parts, i + 1, cnt + 1, r) == end;
  }

  /** All turns of the loop, of which there are at most three. */
  lemma AllTurns(c: Config, depth: nat, parts: Parts, s: Search, end: Search) returns (rs: seq<Parts>)
    requires ValidConfig(c) && ValidSearch(c, s) && depth + 1 == Bottom(c) <= NODE_NUM && MaxCluster(depth) == 3
    requires LoopsTo(c, depth, parts, 0, 0, s, end) && NewFrom(c, parts, 0, s.visit[depth]) && AllDiffer(c, parts)
    ensures end.result == s.result + rs && |rs| == if |c.edges(parts)| < 3 then |c.edges(parts)| else 3
    ensures forall k: nat :: k < |rs| ==> IsMerge(c, parts, k, rs[k])
  {
    var n := |c.edges(parts)|;
    if n == 0 {
      rs := [];
      LoopStops(c, depth, parts, 0, 0, s, end);
      return;
    }
    var t0, a0 := LastTurn(c, depth, parts, 0, 0, s, end);
    if n == 1 {
      rs := [a0];
      LoopStops(c, depth, parts, 1, 1, t0, end);
      return;
    }
    var t1, a1 := LastTurn(c, depth, parts, 1, 1, t0, end);
    Joined(s.result, a0, [a1]);
    if n == 2 {
      rs := [a0, a1];
      LoopStops(c, depth, parts, 2, 2, t1, end);
      return;
    }
    var t2, a2 := LastTurn(c, depth, parts, 2, 2, t1, end);
    rs := [a0, a1, a2];
    LoopStops(c, depth, parts, 3, 3, t2, end);
    Joined(s.result, a0, [a1, a2]);
    Joined(s.result + [a0], a1, [a2]);
  }

  lemma Joined<T>(s: seq<T>, x: T, rest: seq<T>)
    ensures s + [x] + rest == s + ([x] + rest)
  {
  }

  /** With one merge to make there are as many clusterings as pairs of places, but at most three: those that put
      the nearest pairs together, nearest first. */
  lemma OneMerge(c: Config)
    requires Computed(c) && ValidConfig(c) && c.n == c.clusterNum + 1
    ensures var pairs := c.n * (c.n - 1) / 2; |Clusterings(c)| == if pairs < 3 then pairs else 3
    ensures var es := c.edges(Singletons(c));
      && |Clusterings(c)| <= |es| && EdgesSorted(es)
      && forall k :: 0 <= k < |Clusterings(c)| ==> Paired(c, es[k].idx, es[k].idy, Clusterings(c)[k])
  {
    EdgesOnce(c);
    EdgesExact(c);
    PairCountIs(c.n);
    var parts, s := Singletons(c), Search(seq(NODE_NUM, _ => {}), []);
    forall i, j | 0 <= i < j < |c.edges(parts)|
      ensures OutcomeAt(c, parts, i) != OutcomeAt(c, parts, j)
    {
      OutcomesDiffer(c, i, j);
    }
    var rs := AllTurns(c, 0, parts, s, Dfs(c, 0, parts, s));
    assert Clusterings(c) == rs;
    forall k | 0 <= k < |rs|
      ensures Paired(c, c.edges(parts)[k].idx, c.edges(parts)[k].idy, rs[k])
    {
      assert IsMerge(c, parts, k, rs[k]);
      assert MergeOf(c, parts, k, rs[k]);
    }
  }
}
