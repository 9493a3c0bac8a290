/** What hierarchical clustering returns: pairwise different partitions of all places into the
    wanted number of clusters, and how many of them. */
module ClusterTheory {
  import opened HierCluster

  // ----- Every result is a partition

  ghost function NonEmpty(parts: Parts): nat {
    if parts == [] then 0 else (if parts[0] == {} then 0 else 1) + NonEmpty(parts[1..])
  }

  ghost predicate Placed(parts: Parts, p: nat) {
    exists i :: 0 <= i < |parts| && p in parts[i]
  }

  /** The clusters are disjoint and together hold exactly the places 0..n-1. */
  ghost predicate Partitions(parts: Parts, n: nat) {
    && (forall p: nat :: Placed(parts, p) <==> p < n)
    && forall i, j :: 0 <= i < j < |parts| ==> parts[i] !! parts[j]
  }

  /** parts after `depth` merges. */
  ghost predicate Merged(c: Config, parts: Parts, depth: nat) {
    && |parts| == (if c.n < c.clusterNum then c.clusterNum else c.n)
    && Partitions(parts, c.n)
    && depth <= c.n && NonEmpty(parts) == c.n - depth
  }

  lemma {:induction false} NonEmptyUpdate(parts: Parts, i: nat, s: set<nat>)
    requires i < |parts|
    ensures NonEmpty(parts[i := s]) == NonEmpty(parts) - (if parts[i] == {} then 0 else 1) + (if s == {} then 0 else 1)
  {
    if i > 0 {
      assert parts[i := s][1..] == parts[1..][i - 1 := s];
      NonEmptyUpdate(parts[1..], i - 1, s);
    } else {
      assert parts[0 := s][1..] == parts[1..];
    }
  }

  lemma MergeKeeps(c: Config, parts: Parts, depth: nat, x: nat, y: nat)
    requires Merged(c, parts, depth) && x < y < |parts| && parts[x] != {} && parts[y] != {}
    ensures depth < c.n && Merged(c, MergeParts(parts, x, y), depth + 1)
  {
    var m := parts[x := parts[x] + parts[y]];
    var r := MergeParts(parts, x, y);
    NonEmptyUpdate(parts, x, parts[x] + parts[y]);
    NonEmptyUpdate(m, y, {});
    forall p: nat
      ensures Placed(r, p) <==> p < c.n
    {
      assert Placed(parts, p) <==> p < c.n;
      if i :| 0 <= i < |parts| && p in parts[i] {
        assert p in r[if i == y then x else i];
      }
      if i :| 0 <= i < |r| && p in r[i] {
        assert p in parts[i] || p in parts[y];
      }
    }
  }

  lemma {:induction false} NonEmptyConcat(a: Parts, b: Parts)
    ensures NonEmpty(a + b) == NonEmpty(a) + NonEmpty(b)
  {
    if a == [] {
      assert a + b == b;
    } else {
      assert (a + b)[1..] == a[1..] + b;
      NonEmptyConcat(a[1..], b);
    }
  }

  lemma {:induction false} NonEmptyAll(a: Parts, some: bool)
    requires forall i :: 0 <= i < |a| ==> ((a[i] != {}) <==> some)
    ensures NonEmpty(a) == if some then |a| else 0
  {
    if a != [] { NonEmptyAll(a[1..], some); }
  }

  lemma SingletonsMerged(c: Config)
    ensures Merged(c, Singletons(c), 0)
  {
    var a := seq(c.n, (k: nat) => {k});
    var b: Parts := seq(if c.n < c.clusterNum then c.clusterNum - c.n else 0, _ => {});
    var s := Singletons(c);
    assert s == a + b;
    NonEmptyConcat(a, b);
    NonEmptyAll(a, true);
    NonEmptyAll(b, false);
    forall p: nat
      ensures Placed(s, p) <==> p < c.n
    {
      if p < c.n { assert p in s[p]; }
    }
  }

  /** All results from index `from` on are partitions into the wanted number of clusters. */
  ghost predicate ResultsMerged(c: Config, s: Search, from: nat) {
    forall r :: from <= r < |s.result| ==> Merged(c, s.result[r], Bottom(c))
  }

  lemma {:induction false} DfsMerged(c: Config, depth: nat, parts: Parts, s: Search, from: nat)
    requires ValidConfig(c) && ValidSearch(c, s) && depth <= Bottom(c)
    requires Merged(c, parts, depth) && ResultsMerged(c, s, from)
    ensures ResultsMerged(c, Dfs(c, depth, parts, s), from)
    decreases c.n - depth, 1, 0
  {
    if c.n - depth > c.clusterNum {
      DfsLoopMerged(c, depth, parts, 0, 0, s, from);
    }
  }

  lemma {:induction false} DfsLoopMerged(c: Config, depth: nat, parts: Parts, i: nat, cnt: nat, s: Search, from: nat)
    requires ValidConfig(c) && ValidSearch(c, s) && depth < Bottom(c) && i <= |c.edges(parts)|
    requires Merged(c, parts, depth) && ResultsMerged(c, s, from)
    ensures ResultsMerged(c, DfsLoop(c, depth, parts, i, cnt, s), from)
    decreases c.n - depth, 0, |c.edges(parts)| - i
  {
    if i < |c.edges(parts)| && cnt < MaxCluster(depth) {
      DfsLoopStep(c, depth, parts, i, cnt, s);
      var e := c.edges(parts)[i];
      var key := KeyOf(parts, e.idx, e.idy);
      if key in s.visit[depth] {
        DfsLoopMerged(c, depth, parts, i + 1, cnt, s, from);
      } else {
        MergeKeeps(c, parts, depth, e.idx, e.idy);
        var next, s' := MergeParts(parts, e.idx, e.idy), Mark(s, depth, key);
        DfsMerged(c, depth + 1, next, s', from);
        DfsLoopMerged(c, depth, parts, i + 1, cnt + 1, Dfs(c, depth + 1, next, s'), from);
      }
    }
  }

  /** Every clustering partitions all places into min(n, clusterNum) non-empty clusters. */
  lemma ClusteringsPartition(c: Config)
    requires ValidConfig(c)
    ensures forall parts :: parts in Clusterings(c) ==>
      Partitions(parts, c.n) && NonEmpty(parts) == if c.n < c.clusterNum then c.n else c.clusterNum
  {
    SingletonsMerged(c);
    DfsMerged(c, 0, Singletons(c), Search(seq(NODE_NUM, _ => {}), []), 0);
  }

  // ----- No result is returned twice

  /** Results differ as sets of clusters, and each was recorded at the last merge. */
  ghost predicate ResultsDiffer(c: Config, s: Search)
    requires ValidSearch(c, s) && 1 <= Bottom(c) <= NODE_NUM
  {
    && (forall i, j :: 0 <= i < j < |s.result| ==> multiset(s.result[i]) != multiset(s.result[j]))
    && forall i :: 0 <= i < |s.result| ==> multiset(s.result[i]) - multiset{{}} in s.visit[Bottom(c) - 1]
  }

  /** parts may still be reported: it was recorded, and no result equals it. */
  ghost predicate Fresh(c: Config, parts: Parts, s: Search)
    requires ValidSearch(c, s) && 1 <= Bottom(c) <= NODE_NUM
  {
    && multiset(parts) - multiset{{}} in s.visit[Bottom(c) - 1]
    && forall i :: 0 <= i < |s.result| ==> multiset(s.result[i]) != multiset(parts)
  }

  lemma {:induction false} DfsDiffer(c: Config, depth: nat, parts: Parts, s: Search)
    requires ValidConfig(c) && ValidSearch(c, s) && depth <= Bottom(c) && 1 <= Bottom(c)
    requires ResultsDiffer(c, s) && (depth == Bottom(c) ==> Fresh(c, parts, s))
    ensures ResultsDiffer(c, Dfs(c, depth, parts, s))
    decreases c.n - depth, 1, 0
  {
    if c.n - depth > c.clusterNum {
      DfsLoopDiffer(c, depth, parts, 0, 0, s);
    }
  }

  /** A merge CanMerge allows records its outcome, which no result equals yet. */
  lemma MarkKeeps(c: Config, depth: nat, parts: Parts, x: nat, y: nat, s: Search)
    requires ValidSearch(c, s) && depth < Bottom(c) <= NODE_NUM && ResultsDiffer(c, s) && x < y < |parts|
    requires KeyOf(parts, x, y) !in s.visit[depth]
    ensures var s' := Mark(s, depth, KeyOf(parts, x, y));
      && ValidSearch(c, s')
      && ResultsDiffer(c, s')
      && (depth + 1 == Bottom(c) ==> Fresh(c, MergeParts(parts, x, y), s'))
  {
    var key, next := KeyOf(parts, x, y), MergeParts(parts, x, y);
    var s' := Mark(s, depth, key);
    var last := Bottom(c) - 1;
    assert s.visit[last] <= s'.visit[last];
    if depth == last {
      KeyOfMerge(parts, x, y);
      assert multiset(next) - multiset{{}} == key;
      forall i | 0 <= i < |s.result|
        ensures multiset(s.result[i]) != multiset(next)
      {
        assert multiset(s.result[i]) - multiset{{}} in s.visit[last];
      }
    }
  }

  lemma {:induction false} DfsLoopDiffer(c: Config, depth: nat, parts: Parts, i: nat, cnt: nat, s: Search)
    requires ValidConfig(c) && ValidSearch(c, s) && depth < Bottom(c) && i <= |c.edges(parts)|
    requires ResultsDiffer(c, s)
    ensures ResultsDiffer(c, DfsLoop(c, depth, parts, i, cnt, s))
    decreases c.n - depth, 0, |c.edges(parts)| - i
  {
    if i < |c.edges(parts)| && cnt < MaxCluster(depth) {
      DfsLoopStep(c, depth, parts, i, cnt, s);
      var e := c.edges(parts)[i];
      var key := KeyOf(parts, e.idx, e.idy);
      if key in s.visit[depth] {
        DfsLoopDiffer(c, depth, parts, i + 1, cnt, s);
      } else {
        var next, s' := MergeParts(parts, e.idx, e.idy), Mark(s, depth, key);
        MarkKeeps(c, depth, parts, e.idx, e.idy, s);
        DfsDiffer(c, depth + 1, next, s');
        DfsLoopDiffer(c, depth, parts, i + 1, cnt + 1, Dfs(c, depth + 1, next, s'));
      }
    }
  }

  /** Clusterings are pairwise different, even when the order of their clusters is ignored. */
  lemma ClusteringsDiffer(c: Config)
    requires ValidConfig(c)
    ensures var r := Clusterings(c); forall i, j :: 0 <= i < j < |r| ==> multiset(r[i]) != multiset(r[j])
  {
    var s := Search(seq(NODE_NUM, _ => {}), []);
    if 1 <= Bottom(c) {
      DfsDiffer(c, 0, Singletons(c), s);
    }
  }

  // ----- How many results there are

  function Bound(depth: nat): (r: nat)
    ensures 1 <= r
    decreases 3 - depth
  {
    if depth >= 3 then 1 else 3 * Bound(depth + 1)
  }

  lemma {:induction false} DfsAtMost(c: Config, depth: nat, parts: Parts, s: Search)
    requires ValidConfig(c) && ValidSearch(c, s) && depth <= Bottom(c)
    ensures |Dfs(c, depth, parts, s).result| <= |s.result| + Bound(depth)
    decreases c.n - depth, 1, 0
  {
    if c.n - depth > c.clusterNum {
      DfsLoopAtMost(c, depth, parts, 0, 0, s);
      assert Bound(depth) == MaxCluster(depth) * Bound(depth + 1);
    }
  }

  lemma OneLess(m: nat, b: nat)
    requires 1 <= m
    ensures m * b == (m - 1) * b + b
  {
  }

  lemma {:induction false} DfsLoopAtMost(c: Config, depth: nat, parts: Parts, i: nat, cnt: nat, s: Search)
    requires ValidConfig(c) && ValidSearch(c, s) && depth < Bottom(c) && i <= |c.edges(parts)|
    requires cnt <= MaxCluster(depth)
    ensures |DfsLoop(c, depth, parts, i, cnt, s).result| <= |s.result| + (MaxCluster(depth) - cnt) * Bound(depth + 1)
    decreases c.n - depth, 0, |c.edges(parts)| - i
  {
    if i < |c.edges(parts)| && cnt < MaxCluster(depth) {
      DfsLoopStep(c, depth, parts, i, cnt, s);
      var e := c.edges(parts)[i];
      var key := KeyOf(parts, e.idx, e.idy);
      if key in s.visit[depth] {
        DfsLoopAtMost(c, depth, parts, i + 1, cnt, s);
      } else {
        var next, s' := MergeParts(parts, e.idx, e.idy), Mark(s, depth, key);
        DfsAtMost(c, depth + 1, next, s');
        OneLess(MaxCluster(depth) - cnt, Bound(depth + 1));
        DfsLoopAtMost(c, depth, parts, i + 1, cnt + 1, Dfs(c, depth + 1, next, s'));
      }
    }
  }

  /** Nothing has been merged at this depth or deeper yet. */
  ghost predicate Untouched(s: Search, depth: nat) {
    forall d :: depth <= d < |s.visit| ==> s.visit[d] == {}
  }

  lemma {:induction false} DfsGrows(c: Config, depth: nat, parts: Parts, i: nat, cnt: nat, s: Search)
    requires ValidConfig(c) && ValidSearch(c, s) && depth < Bottom(c) && i <= |c.edges(parts)|
    ensures |s.result| <= |DfsLoop(c, depth, parts, i, cnt, s).result|
    decreases c.n - depth, |c.edges(parts)| - i
  {
    if i < |c.edges(parts)| && cnt < MaxCluster(depth) {
      DfsLoopStep(c, depth, parts, i, cnt, s);
      var e := c.edges(parts)[i];
      var key := KeyOf(parts, e.idx, e.idy);
      if key in s.visit[depth] {
        DfsGrows(c, depth, parts, i + 1, cnt, s);
      } else {
        var next, s' := MergeParts(parts, e.idx, e.idy), Mark(s, depth, key);
        if c.n - (depth + 1) > c.clusterNum { DfsGrows(c, depth + 1, next, 0, 0, s'); }
        DfsGrows(c, depth, parts, i + 1, cnt + 1, Dfs(c, depth + 1, next, s'));
      }
    }
  }

  /** The leftmost branch always reaches a result. */
  lemma {:induction false} DfsFinds(c: Config, depth: nat, parts: Parts, s: Search)
    requires ValidConfig(c) && ValidSearch(c, s) && depth <= Bottom(c)
    requires Merged(c, parts, depth) && Untouched(s, depth) && (1 <= c.clusterNum || Bottom(c) == depth)
    ensures |s.result| < |Dfs(c, depth, parts, s).result|
    decreases c.n - depth
  {
    if c.n - depth > c.clusterNum {
      EdgesExist(c, parts);
      DfsLoopStep(c, depth, parts, 0, 0, s);
      var e := c.edges(parts)[0];
      var key := KeyOf(parts, e.idx, e.idy);
      assert key !in s.visit[depth];
      MergeKeeps(c, parts, depth, e.idx, e.idy);
      var next, s' := MergeParts(parts, e.idx, e.idy), Mark(s, depth, key);
      DfsFinds(c, depth + 1, next, s');
      DfsGrows(c, depth, parts, 1, 1, Dfs(c, depth + 1, next, s'));
    }
  }

  lemma {:induction false} FirstNonEmpty(parts: Parts) returns (i: nat)
    requires NonEmpty(parts) >= 1
    ensures i < |parts| && parts[i] != {} && NonEmpty(parts[i + 1..]) == NonEmpty(parts) - 1
  {
    if parts[0] != {} {
      i := 0;
    } else {
      i := FirstNonEmpty(parts[1..]);
      assert parts[1..][i + 1..] == parts[i + 2..];
      i := i + 1;
    }
  }

  /** Two non-empty clusters leave something to merge. */
  lemma EdgesExist(c: Config, parts: Parts)
    requires ValidConfig(c) && NonEmpty(parts) >= 2
    ensures c.edges(parts) != []
  {
    var x := FirstNonEmpty(parts);
    var j := FirstNonEmpty(parts[x + 1..]);
    var y := x + 1 + j;
    assert Pairs(c, parts, Edge(x, y, c.dist(parts[x], parts[y])));
  }

  /** With no cluster wanted the search runs out of edges before it reports anything. */
  lemma {:induction false} DfsFindsNothing(c: Config, depth: nat, parts: Parts, s: Search)
    requires ValidConfig(c) && ValidSearch(c, s) && depth < c.n && c.clusterNum == 0 && Merged(c, parts, depth)
    ensures |Dfs(c, depth, parts, s).result| == |s.result|
    decreases c.n - depth, 1, 0
  {
    DfsLoopFindsNothing(c, depth, parts, 0, 0, s);
  }

  lemma {:induction false} DfsLoopFindsNothing(c: Config, depth: nat, parts: Parts, i: nat, cnt: nat, s: Search)
    requires ValidConfig(c) && ValidSearch(c, s) && depth < c.n && c.clusterNum == 0 && Merged(c, parts, depth)
    requires i <= |c.edges(parts)|
    ensures |DfsLoop(c, depth, parts, i, cnt, s).result| == |s.result|
    decreases c.n - depth, 0, |c.edges(parts)| - i
  {
    if i < |c.edges(parts)| && cnt < MaxCluster(depth) {
      DfsLoopStep(c, depth, parts, i, cnt, s);
      var e := c.edges(parts)[i];
      var key := KeyOf(parts, e.idx, e.idy);
      if key in s.visit[depth] {
        DfsLoopFindsNothing(c, depth, parts, i + 1, cnt, s);
      } else {
        MergeKeeps(c, parts, depth, e.idx, e.idy);
        var next, s' := MergeParts(parts, e.idx, e.idy), Mark(s, depth, key);
        TwoClusters(parts, e.idx, e.idy);
        DfsFindsNothing(c, depth + 1, next, s');
        DfsLoopFindsNothing(c, depth, parts, i + 1, cnt + 1, Dfs(c, depth + 1, next, s'));
      }
    }
  }

  lemma TwoClusters(parts: Parts, x: nat, y: nat)
    requires x < y < |parts| && parts[x] != {} && parts[y] != {}
    ensures NonEmpty(parts) >= 2
  {
    NonEmptyUpdate(parts, x, {});
    NonEmptyUpdate(parts[x := {}], y, {});
  }

  /** There are at most 27 clusterings; there is one at all exactly when a cluster is wanted or
      there is no place to put anywhere. */
  lemma ClusteringsCount(c: Config)
    requires ValidConfig(c)
    ensures |Clusterings(c)| <= 27
    ensures 1 <= |Clusterings(c)| <==> 1 <= c.clusterNum || c.n == 0
  {
    var s := Search(seq(NODE_NUM, _ => {}), []);
    assert Bound(3) == 1 && Bound(2) == 3 && Bound(1) == 9 && Bound(0) == 27;
    SingletonsMerged(c);
    DfsAtMost(c, 0, Singletons(c), s);
    if 1 <= c.clusterNum || c.n == 0 {
      DfsFinds(c, 0, Singletons(c), s);
    } else {
      DfsFindsNothing(c, 0, Singletons(c), s);
    }
  }

  // ----- The filter-and-pad step of ClusterOrganizer::Run

  /** The non-empty clusters of parts, from position i on, in order. */
  ghost function Kept(parts: Parts): Parts {
    if parts == [] then [] else (if parts[0] == {} then [] else [parts[0]]) + Kept(parts[1..])
  }

  lemma {:induction false} KeptSize(parts: Parts)
    ensures |Kept(parts)| == NonEmpty(parts)
  {
    if parts != [] { KeptSize(parts[1..]); }
  }

  lemma KeptSnoc(parts: Parts, s: set<nat>)
    ensures Kept(parts + [s]) == Kept(parts) + (if s == {} then [] else [s])
  {
    var one: Parts := [s];
    assert one[1..] == [];
    KeptConcat(parts, one);
  }

  ghost function Rotated(parts: Parts, shift: nat): Parts
    requires parts != []
  {
    var b := shift % |parts|;
    parts[b..] + parts[..b]
  }

  lemma {:induction false} KeptConcat(a: Parts, b: Parts)
    ensures Kept(a + b) == Kept(a) + Kept(b)
  {
    if a == [] {
      assert a + b == b;
    } else {
      assert (a + b)[1..] == a[1..] + b;
      KeptConcat(a[1..], b);
    }
  }

  /** The i-th clustering, rotated by i, without its empty clusters, padded to clusterNum. */
  method FilterAndPad(t: Parts, i: nat, clusterNum: nat) returns (result: Parts)
    requires NonEmpty(t) <= clusterNum
    ensures |result| == clusterNum
    ensures t != [] ==> Kept(result) == Kept(Rotated(t, i))
    ensures multiset(Kept(result)) == multiset(Kept(t))
    ensures forall k :: NonEmpty(t) <= k < |result| ==> result[k] == {}
  {
    result := Filter(t, i);
    ghost var kept := result;
    KeptSize(t);
    assert |multiset(Kept(t))| == |Kept(t)| && |multiset(kept)| == |kept|;
    while |result| < clusterNum
      invariant |kept| <= |result| <= clusterNum
      invariant Kept(result) == kept
      invariant forall k :: |kept| <= k < |result| ==> result[k] == {}
    {
      KeptSnoc(result, {});
      result := result + [{}];
    }
  }

  method Filter(t: Parts, i: nat) returns (result: Parts)
    ensures t != [] ==> result == Kept(Rotated(t, i))
    ensures multiset(result) == multiset(Kept(t)) && Kept(result) == result
  {
    result := [];
    ghost var seen: Parts := [];
    var j := i;
    while j < |t| + i
      invariant i <= j <= |t| + i
      invariant |seen| == j - i && forall k :: 0 <= k < j - i ==> seen[k] == t[(k + i) % |t|]
      invariant result == Kept(seen)
    {
      var index := j % |t|;
      KeptSnoc(seen, t[index]);
      seen := seen + [t[index]];
      if t[index] != {} {
        result := result + [t[index]];
      }
      j := j + 1;
    }
    KeptIdempotent(seen);
    if t != [] {
      RotatedAt(t, i);
      assert seen == Rotated(t, i);
      KeptRotated(t, i);
    }
  }

  lemma KeptRotated(t: Parts, i: nat)
    requires t != []
    ensures multiset(Kept(Rotated(t, i))) == multiset(Kept(t))
  {
    var b := i % |t|;
    KeptConcat(t[b..], t[..b]);
    KeptConcat(t[..b], t[b..]);
    assert t == t[..b] + t[b..];
  }

  lemma {:induction false} KeptIdempotent(parts: Parts)
    ensures Kept(Kept(parts)) == Kept(parts)
  {
    if parts != [] {
      KeptIdempotent(parts[1..]);
      var head: Parts := if parts[0] == {} then [] else [parts[0]];
      KeptConcat(head, Kept(parts[1..]));
      assert head != [] ==> head[1..] == [];
    }
  }

  lemma RotatedAt(t: Parts, i: nat)
    requires t != []
    ensures |Rotated(t, i)| == |t| && forall k :: 0 <= k < |t| ==> Rotated(t, i)[k] == t[(k + i) % |t|]
  {
    forall k | 0 <= k < |t|
      ensures Rotated(t, i)[k] == t[(k + i) % |t|]
    {
      WrapIndex(k, i, |t|);
    }
  }

  lemma WrapIndex(k: nat, i: nat, n: nat)
    requires k < n
    ensures (k + i) % n == if k + i % n < n then k + i % n else k + i % n - n
  {
    var q, b := i / n, i % n;
    assert k + i == q * n + (k + b);
    if k + b < n {
      ModUnique(k + i, n, q, k + b);
    } else {
      assert k + i == (q + 1) * n + (k + b - n);
      ModUnique(k + i, n, q + 1, k + b - n);
    }
  }

  lemma ModUnique(a: nat, n: nat, q: nat, r: nat)
    requires r < n && a == q * n + r
    ensures a % n == r
  {
    var q', r' := a / n, a % n;
    assert a == q' * n + r';
    if q > q' {
      AtLeastOne(q, q', n);
      assert false;
    } else if q < q' {
      AtLeastOne(q', q, n);
      assert false;
    }
  }

  lemma AtLeastOne(q: nat, q': nat, n: nat)
    requires q > q'
    ensures q * n >= q' * n + n
  {
    var d := q - q' - 1;
    assert q * n == q' * n + d * n + n;
  }
}
