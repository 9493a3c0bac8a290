/** Hierarchical clustering of places into days (HierarchicalClustering, ClusterOrganizer::Run). */
module HierCluster {

  const NODE_NUM := 160

  /** A clustering: one set of places per cluster; merging leaves an empty set behind. */
  type Parts = seq<set<nat>>

  /** A clustering up to the order of its clusters: the sorted list of sorted lists of CanMerge. */
  type Key = multiset<set<nat>>

  datatype Edge = Edge(idx: nat, idy: nat, value: int)

  /** n places, the number of clusters wanted, the distance of two clusters, std::sort, and the
      list of edges that CalClusterDist computes for a clustering from these. */
  datatype Config = Config(
    n: nat, clusterNum: nat, dist: (set<nat>, set<nat>) -> int, sorter: seq<Edge> -> seq<Edge>,
    edges: Parts -> seq<Edge>)

  ghost predicate EdgesSorted(es: seq<Edge>) {
    forall i, j :: 0 <= i < j < |es| ==> es[i].value <= es[j].value
  }

  /** std::sort sorts, and the edges are the sorted pairs of non-empty clusters. */
  ghost predicate Computed(c: Config) {
    && (forall es :: multiset(c.sorter(es)) == multiset(es) && EdgesSorted(c.sorter(es)))
    && forall parts :: EdgesComputed(c, parts)
  }

  ghost predicate EdgesComputed(c: Config, parts: Parts) {
    c.edges(parts) == c.sorter(EdgesFrom(c, parts, 0))
  }

  /** The edges of a clustering are exactly the pairs of its non-empty clusters, and the table of
      visited clusterings is deep enough. */
  ghost predicate ValidConfig(c: Config) {
    && (forall parts, e :: e in c.edges(parts) <==> Pairs(c, parts, e))
    && c.n <= c.clusterNum + NODE_NUM
  }

  // ----- CalClusterDist, CanMerge, Merge

  function EdgesAt(c: Config, parts: Parts, i: nat, j: nat): seq<Edge>
    requires i < |parts| && j <= |parts|
    decreases |parts| - j
  {
    if j == |parts| then []
    else (if parts[j] == {} then [] else [Edge(i, j, c.dist(parts[i], parts[j]))]) + EdgesAt(c, parts, i, j + 1)
  }

  function EdgesFrom(c: Config, parts: Parts, i: nat): seq<Edge>
    requires i <= |parts|
    decreases |parts| - i
  {
    if i == |parts| then []
    else Row(c, parts, i) + EdgesFrom(c, parts, i + 1)
  }

  function Row(c: Config, parts: Parts, i: nat): seq<Edge>
    requires i < |parts|
  {
    if parts[i] == {} then [] else EdgesAt(c, parts, i, i + 1)
  }

  /** Two different non-empty clusters and their distance, the smaller index first. */
  ghost predicate Pairs(c: Config, parts: Parts, e: Edge) {
    && e.idx < e.idy < |parts|
    && parts[e.idx] != {} && parts[e.idy] != {}
    && e.value == c.dist(parts[e.idx], parts[e.idy])
  }

  lemma {:induction false} EdgesAtExact(c: Config, parts: Parts, i: nat, j: nat, e: Edge)
    requires i < j <= |parts| && parts[i] != {}
    ensures e in EdgesAt(c, parts, i, j) <==> Pairs(c, parts, e) && e.idx == i && j <= e.idy
    decreases |parts| - j
  {
    if j < |parts| { EdgesAtExact(c, parts, i, j + 1, e); }
  }

  lemma RowExact(c: Config, parts: Parts, i: nat, e: Edge)
    requires i < |parts|
    ensures e in Row(c, parts, i) <==> Pairs(c, parts, e) && e.idx == i
  {
    if parts[i] != {} { EdgesAtExact(c, parts, i, i + 1, e); }
  }

  lemma MemberConcat<T>(a: seq<T>, b: seq<T>, x: T)
    ensures x in a + b <==> x in a || x in b
  {
  }

  lemma {:induction false} EdgesFromExact(c: Config, parts: Parts, i: nat, e: Edge)
    requires i <= |parts|
    ensures e in EdgesFrom(c, parts, i) <==> Pairs(c, parts, e) && i <= e.idx
    decreases |parts| - i
  {
    if i < |parts| {
      RowExact(c, parts, i, e);
      EdgesFromExact(c, parts, i + 1, e);
      MemberConcat(Row(c, parts, i), EdgesFrom(c, parts, i + 1), e);
    }
  }

  lemma RowAdded(c: Config, parts: Parts, i: nat, es: seq<Edge>)
    requires i < |parts|
    ensures es + EdgesFrom(c, parts, i) == es + Row(c, parts, i) + EdgesFrom(c, parts, i + 1)
    ensures parts[i] == {} ==> es + Row(c, parts, i) == es
  {
    Associate(es, Row(c, parts, i), EdgesFrom(c, parts, i + 1));
  }

  lemma Associate<T>(a: seq<T>, b: seq<T>, c: seq<T>)
    ensures a + b + c == a + (b + c)
  {
  }

  /** Whatever std::sort does with ties, the edges are all pairs of clusters, nearest first. */
  lemma EdgesExact(c: Config)
    requires Computed(c) && c.n <= c.clusterNum + NODE_NUM
    ensures ValidConfig(c)
    ensures forall parts :: EdgesSorted(c.edges(parts))
  {
    forall parts
      ensures EdgesSorted(c.edges(parts))
      ensures forall e :: e in c.edges(parts) <==> Pairs(c, parts, e)
    {
      assert EdgesComputed(c, parts);
      var es := EdgesFrom(c, parts, 0);
      assert multiset(c.sorter(es)) == multiset(es);
      forall e
        ensures e in c.edges(parts) <==> Pairs(c, parts, e)
      {
        assert e in c.sorter(es) <==> e in multiset(c.sorter(es));
        assert e in es <==> e in multiset(es);
        EdgesFromExact(c, parts, 0, e);
      }
    }
  }

  function MergeParts(parts: Parts, x: nat, y: nat): (r: Parts)
    requires x < y < |parts|
    ensures |r| == |parts|
  {
    parts[x := parts[x] + parts[y]][y := {}]
  }

  function KeyOf(parts: Parts, x: nat, y: nat): Key
    requires x < y < |parts|
  {
    var merged := MergeParts(parts, x, y);
    multiset(merged[..y] + merged[y + 1..])
  }

  lemma KeyOfMerge(parts: Parts, x: nat, y: nat)
    requires x < y < |parts|
    ensures multiset(MergeParts(parts, x, y)) == KeyOf(parts, x, y) + multiset{{}}
  {
    var m := MergeParts(parts, x, y);
    assert m == m[..y] + [m[y]] + m[y + 1..];
  }

  // ----- The search that always copies

  datatype Search = Search(visit: seq<set<Key>>, result: seq<Parts>)

  function MaxCluster(depth: nat): nat { if depth >= 3 then 1 else 3 }

  /** The depth at which results are reported. */
  function Bottom(c: Config): nat { if c.n <= c.clusterNum then 0 else c.n - c.clusterNum }

  ghost predicate ValidSearch(c: Config, s: Search) { |s.visit| == NODE_NUM }

  ghost function Dfs(c: Config, depth: nat, parts: Parts, s: Search): (r: Search)
    requires ValidConfig(c) && ValidSearch(c, s) && depth <= Bottom(c)
    ensures ValidSearch(c, r)
    decreases c.n - depth, 1, 0
  {
    if c.n - depth <= c.clusterNum then s.(result := s.result + [parts])
    else DfsLoop(c, depth, parts, 0, 0, s)
  }

  ghost function DfsLoop(c: Config, depth: nat, parts: Parts, i: nat, cnt: nat, s: Search): (r: Search)
    requires ValidConfig(c) && ValidSearch(c, s) && depth < Bottom(c) && i <= |c.edges(parts)|
    ensures ValidSearch(c, r)
    decreases c.n - depth, 0, |c.edges(parts)| - i
  {
    if i == |c.edges(parts)| || cnt >= MaxCluster(depth) then s
    else
      var e := c.edges(parts)[i];
      assert e in c.edges(parts);
      var key := KeyOf(parts, e.idx, e.idy);
      if key in s.visit[depth] then DfsLoop(c, depth, parts, i + 1, cnt, s)
      else DfsLoop(c, depth, parts, i + 1, cnt + 1,
                   Dfs(c, depth + 1, MergeParts(parts, e.idx, e.idy), Mark(s, depth, key)))
  }

  function Mark(s: Search, depth: nat, key: Key): Search
    requires depth < |s.visit|
  {
    s.(visit := s.visit[depth := s.visit[depth] + {key}])
  }

  lemma DfsLoopStep(c: Config, depth: nat, parts: Parts, i: nat, cnt: nat, s: Search)
    requires ValidConfig(c) && ValidSearch(c, s) && depth < Bottom(c) && i < |c.edges(parts)| && cnt < MaxCluster(depth)
    ensures Pairs(c, parts, c.edges(parts)[i])
    ensures var e := c.edges(parts)[i]; var key := KeyOf(parts, e.idx, e.idy);
      DfsLoop(c, depth, parts, i, cnt, s) ==
        if key in s.visit[depth] then DfsLoop(c, depth, parts, i + 1, cnt, s)
        else DfsLoop(c, depth, parts, i + 1, cnt + 1,
                     Dfs(c, depth + 1, MergeParts(parts, e.idx, e.idy), Mark(s, depth, key)))
  {
  }

  // ----- Which merges are tried

  /** What is left of the clusters when x and y become one: neither of them, but their union. */
  ghost function Union(parts: Parts, x: nat, y: nat): Key
    requires x < y < |parts|
  {
    multiset(parts) - multiset{parts[x]} - multiset{parts[y]} + multiset{parts[x] + parts[y]}
  }

  lemma KeyMeans(parts: Parts, x: nat, y: nat)
    requires x < y < |parts|
    ensures KeyOf(parts, x, y) == Union(parts, x, y)
  {
    var a, b, c := parts[..x], parts[x + 1..y], parts[y + 1..];
    var u := parts[x] + parts[y];
    assert parts == a + [parts[x]] + b + [parts[y]] + c;
    MergedAround(parts, x, y);
    TwoForOne(multiset(a) + multiset(b) + multiset(c), parts[x], parts[y], u);
  }

  lemma MergedAround(parts: Parts, x: nat, y: nat)
    requires x < y < |parts|
    ensures KeyOf(parts, x, y) == multiset(parts[..x]) + multiset{parts[x] + parts[y]} + multiset(parts[x + 1..y]) +
                                  multiset(parts[y + 1..])
  {
    var merged := MergeParts(parts, x, y);
    assert merged[..y] + merged[y + 1..] ==
           parts[..x] + [parts[x] + parts[y]] + parts[x + 1..y] + parts[y + 1..];
  }

  lemma TwoForOne<T>(rest: multiset<T>, a: T, b: T, u: T)
    ensures rest + multiset{a} + multiset{b} - multiset{a} - multiset{b} + multiset{u} == rest + multiset{u}
  {
  }

  /** The outcomes of the edges i..m of a clustering, nearest clusters first. */
  ghost function Outcomes(c: Config, parts: Parts, i: nat, m: nat): set<Key>
    requires ValidConfig(c) && m <= |c.edges(parts)|
    decreases m - i
  {
    if i >= m then {} else {OutcomeAt(c, parts, i)} + Outcomes(c, parts, i + 1, m)
  }

  ghost function OutcomeAt(c: Config, parts: Parts, k: nat): Key
    requires ValidConfig(c) && k < |c.edges(parts)|
  {
    var e := c.edges(parts)[k];
    assert e in c.edges(parts);
    Union(parts, e.idx, e.idy)
  }

  /** From `before` to `after` the outcomes of the first edges were recorded, until three new ones were, or one new
      one from depth 3 on, or the edges ran out. */
  ghost predicate Recorded(c: Config, depth: nat, parts: Parts, before: set<Key>, after: set<Key>, m: nat)
    requires ValidConfig(c)
  {
    && m <= |c.edges(parts)| && after == before + Outcomes(c, parts, 0, m)
    && |Outcomes(c, parts, 0, m) - before| <= (if depth < 3 then 3 else 1)
    && (m < |c.edges(parts)| ==> |Outcomes(c, parts, 0, m) - before| == if depth < 3 then 3 else 1)
  }

  /** Deeper levels leave the records of a depth alone. */
  lemma {:induction false} DfsAbove(c: Config, depth: nat, parts: Parts, s: Search, d: nat)
    requires ValidConfig(c) && ValidSearch(c, s) && depth <= Bottom(c) && d < depth && d < NODE_NUM
    ensures Dfs(c, depth, parts, s).visit[d] == s.visit[d]
    decreases c.n - depth, 1, 0
  {
    if c.n - depth > c.clusterNum { DfsLoopAbove(c, depth, parts, 0, 0, s, d); }
  }

  lemma {:induction false} DfsLoopAbove(c: Config, depth: nat, parts: Parts, i: nat, cnt: nat, s: Search, d: nat)
    requires ValidConfig(c) && ValidSearch(c, s) && depth < Bottom(c) && i <= |c.edges(parts)|
    requires d < depth && d < NODE_NUM
    ensures DfsLoop(c, depth, parts, i, cnt, s).visit[d] == s.visit[d]
    decreases c.n - depth, 0, |c.edges(parts)| - i
  {
    if i < |c.edges(parts)| && cnt < MaxCluster(depth) {
      DfsLoopStep(c, depth, parts, i, cnt, s);
      var e := c.edges(parts)[i];
      var key := KeyOf(parts, e.idx, e.idy);
      if key in s.visit[depth] {
        DfsLoopAbove(c, depth, parts, i + 1, cnt, s, d);
      } else {
        var next, s' := MergeParts(parts, e.idx, e.idy), Mark(s, depth, key);
        DfsAbove(c, depth + 1, next, s', d);
        DfsLoopAbove(c, depth, parts, i + 1, cnt + 1, Dfs(c, depth + 1, next, s'), d);
      }
    }
  }

  lemma {:induction false} LoopRecords(c: Config, depth: nat, parts: Parts, i: nat, cnt: nat, s: Search)
    returns (m: nat)
    requires ValidConfig(c) && ValidSearch(c, s) && depth < Bottom(c) && i <= |c.edges(parts)|
    requires cnt <= if depth < 3 then 3 else 1
    ensures i <= m <= |c.edges(parts)|
    ensures var left := (if depth < 3 then 3 else 1) - cnt; var found := Outcomes(c, parts, i, m) - s.visit[depth];
      && DfsLoop(c, depth, parts, i, cnt, s).visit[depth] == s.visit[depth] + Outcomes(c, parts, i, m)
      && |found| <= left && (m < |c.edges(parts)| ==> |found| == left)
    decreases |c.edges(parts)| - i
  {
    m := i;
    assert Outcomes(c, parts, i, i) == {};
    if i < |c.edges(parts)| && cnt < MaxCluster(depth) {
      DfsLoopStep(c, depth, parts, i, cnt, s);
      var e := c.edges(parts)[i];
      var key := KeyOf(parts, e.idx, e.idy);
      KeyMeans(parts, e.idx, e.idy);
      var visit := s.visit[depth];
      if key in visit {
        m := LoopRecords(c, depth, parts, i + 1, cnt, s);
        OneKnown(visit, key, Outcomes(c, parts, i + 1, m));
      } else {
        var next, s' := MergeParts(parts, e.idx, e.idy), Mark(s, depth, key);
        var r := Dfs(c, depth + 1, next, s');
        DfsAbove(c, depth + 1, next, s', depth);
        m := LoopRecords(c, depth, parts, i + 1, cnt + 1, r);
        OneMore(visit, key, Outcomes(c, parts, i + 1, m));
      }
    }
  }

  lemma OneKnown<T>(s: set<T>, x: T, rest: set<T>)
    requires x in s
    ensures ({x} + rest) - s == rest - s && s + ({x} + rest) == s + rest
  {
  }

  lemma OneMore<T>(s: set<T>, x: T, rest: set<T>)
    requires x !in s
    ensures |({x} + rest) - s| == |rest - (s + {x})| + 1 && s + ({x} + rest) == (s + {x}) + rest
  {
    assert ({x} + rest) - s == (rest - (s + {x})) + {x};
  }

  /** Searching on from a clustering records the outcomes of its nearest merges. */
  lemma DfsRecords(c: Config, depth: nat, parts: Parts, s: Search) returns (m: nat)
    requires ValidConfig(c) && ValidSearch(c, s) && depth < Bottom(c)
    ensures Recorded(c, depth, parts, s.visit[depth], Dfs(c, depth, parts, s).visit[depth], m)
  {
    m := LoopRecords(c, depth, parts, 0, 0, s);
  }

  // ----- The search of the source, which merges in place from depth 3 on

  class ClusterInfo {
    var result: Parts
    var edges: seq<Edge>

    constructor (parts: Parts, es: seq<Edge>)
      ensures result == parts && edges == es
    {
      result, edges := parts, es;
    }
  }

  class HierarchicalClustering {
    const cfg: Config
    var hasVisitSet: seq<set<Key>>
    var results: seq<Parts>

    ghost function State(): Search
      reads this
    {
      Search(hasVisitSet, results)
    }

    constructor (c: Config)
      ensures cfg == c && State() == Search(seq(NODE_NUM, _ => {}), [])
    {
      cfg, hasVisitSet, results := c, seq(NODE_NUM, _ => {}), [];
    }

    method CalClusterDist(info: ClusterInfo)
      requires Computed(cfg)
      modifies info`edges
      ensures info.edges == cfg.edges(info.result)
    {
      var edges: seq<Edge> := [];
      var parts := info.result;
      for i := 0 to |parts|
        invariant edges + EdgesFrom(cfg, parts, i) == EdgesFrom(cfg, parts, 0)
      {
        RowAdded(cfg, parts, i, edges);
        if parts[i] == {} { continue; }
        var row := PairWith(parts, i);
        edges := edges + row;
      }
      assert edges + [] == edges;
      assert EdgesComputed(cfg, parts);
      info.edges := cfg.sorter(edges);
    }

    /** The inner loop of CalClusterDist. */
    method PairWith(parts: Parts, i: nat) returns (row: seq<Edge>)
      requires i < |parts| && parts[i] != {}
      ensures row == EdgesAt(cfg, parts, i, i + 1)
    {
      row := [];
      for j := i + 1 to |parts|
        invariant row + EdgesAt(cfg, parts, i, j) == EdgesAt(cfg, parts, i, i + 1)
      {
        if parts[j] == {} { continue; }
        row := row + [Edge(i, j, cfg.dist(parts[i], parts[j]))];
      }
    }

    method CanMerge(info: ClusterInfo, idx: nat, depth: nat) returns (ok: bool)
      requires idx < |info.edges| && depth < |hasVisitSet|
      requires info.edges[idx].idx < info.edges[idx].idy < |info.result|
      modifies `hasVisitSet
      ensures var key := KeyOf(info.result, info.edges[idx].idx, info.edges[idx].idy);
        && ok == (key !in old(hasVisitSet)[depth])
        && hasVisitSet == if ok then old(hasVisitSet)[depth := old(hasVisitSet)[depth] + {key}] else old(hasVisitSet)
    {
      var xid, yid := info.edges[idx].idx, info.edges[idx].idy;
      var tmp: seq<set<nat>> := [];
      ghost var merged := MergeParts(info.result, xid, yid);
      for i := 0 to |info.result|
        invariant tmp == if i <= yid then merged[..i] else merged[..yid] + merged[yid + 1..i]
        invariant hasVisitSet == old(hasVisitSet)
      {
        if i == yid { continue; }
        var v := info.result[i];
        if i == xid { v := v + info.result[yid]; }
        tmp := tmp + [v];
      }
      assert merged[yid + 1..|merged|] == merged[yid + 1..];
      var key := multiset(tmp);
      if key !in hasVisitSet[depth] {
        hasVisitSet := hasVisitSet[depth := hasVisitSet[depth] + {key}];
        return true;
      }
      return false;
    }

    method Merge(info: ClusterInfo, idx: nat)
      requires Computed(cfg)
      requires idx < |info.edges| && info.edges[idx].idx < info.edges[idx].idy < |info.result|
      modifies info
      ensures info.result == MergeParts(old(info.result), old(info.edges)[idx].idx, old(info.edges)[idx].idy)
      ensures info.edges == cfg.edges(info.result)
    {
      var xid, yid := info.edges[idx].idx, info.edges[idx].idy;
      info.result := info.result[xid := info.result[xid] + info.result[yid]];
      info.result := info.result[yid := {}];
      CalClusterDist(info);
    }

    /** The in-place search refines the copying one, and above depth 3 it leaves its argument alone. */
    method DfsCluster(depth: nat, info: ClusterInfo)
      requires Computed(cfg) && ValidConfig(cfg) && ValidSearch(cfg, State()) && depth <= Bottom(cfg)
      requires info.edges == cfg.edges(info.result)
      modifies this, info
      ensures ValidSearch(cfg, State())
      ensures State() == Dfs(cfg, depth, old(info.result), old(State()))
      ensures depth < Bottom(cfg) ==>
        exists m :: Recorded(cfg, depth, old(info.result), old(hasVisitSet)[depth], hasVisitSet[depth], m)
      ensures depth < 3 ==> info.result == old(info.result) && info.edges == old(info.edges)
      decreases cfg.n - depth, 1
    {
      if depth < Bottom(cfg) { ghost var m := DfsRecords(cfg, depth, info.result, State()); }
      var nowCluster := cfg.n - depth;
      if nowCluster <= cfg.clusterNum {
        results := results + [info.result];
      } else {
        TryEdges(depth, info);
      }
    }

    /** The loop of DfsCluster over the edges, nearest clusters first. */
    method TryEdges(depth: nat, info: ClusterInfo)
      requires Computed(cfg) && ValidConfig(cfg) && ValidSearch(cfg, State()) && depth < Bottom(cfg)
      requires info.edges == cfg.edges(info.result)
      modifies this, info
      ensures ValidSearch(cfg, State())
      ensures State() == DfsLoop(cfg, depth, old(info.result), 0, 0, old(State()))
      ensures depth < 3 ==> info.result == old(info.result) && info.edges == old(info.edges)
      decreases cfg.n - depth, 0
    {
      ghost var parts := info.result;
      ghost var goal := DfsLoop(cfg, depth, parts, 0, 0, State());
      var maxCluster := if depth >= 3 then 1 else 3;
      var i, cnt := 0, 0;
      while i < |info.edges| && cnt < maxCluster
        invariant ValidSearch(cfg, State()) && i <= |cfg.edges(parts)|
        invariant cnt < maxCluster || depth < 3 ==> info.result == parts && info.edges == cfg.edges(parts)
        invariant DfsLoop(cfg, depth, parts, i, cnt, State()) == goal
        decreases |cfg.edges(parts)| - i
      {
        DfsLoopStep(cfg, depth, parts, i, cnt, State());
        var ok := TryEdge(depth, info, i, maxCluster);
        if ok { cnt := cnt + 1; }
        i := i + 1;
      }
    }

    /** The loop's body: nothing happens when the merge would repeat an earlier one. */
    method TryEdge(depth: nat, info: ClusterInfo, i: nat, maxCluster: nat) returns (ok: bool)
      requires Computed(cfg) && ValidConfig(cfg) && ValidSearch(cfg, State()) && depth < Bottom(cfg)
      requires i < |info.edges| && info.edges[i].idx < info.edges[i].idy < |info.result|
      modifies this, info
      ensures ValidSearch(cfg, State())
      ensures var parts, e := old(info.result), old(info.edges)[i];
        var key := KeyOf(parts, e.idx, e.idy);
        && ok == (key !in old(State()).visit[depth])
        && State() == if ok then Dfs(cfg, depth + 1, MergeParts(parts, e.idx, e.idy), Mark(old(State()), depth, key))
                      else old(State())
      ensures !ok || maxCluster > 1 ==> info.result == old(info.result) && info.edges == old(info.edges)
      decreases cfg.n - depth - 1, 3
    {
      ok := CanMerge(info, i, depth);
      if ok {
        Descend(depth, info, i, maxCluster);
      }
    }

    /** Merging edge i in a copy or in place, and searching on from there. */
    method Descend(depth: nat, info: ClusterInfo, i: nat, maxCluster: nat)
      requires Computed(cfg) && ValidConfig(cfg) && ValidSearch(cfg, State()) && depth < Bottom(cfg)
      requires i < |info.edges| && info.edges[i].idx < info.edges[i].idy < |info.result|
      modifies this, info
      ensures ValidSearch(cfg, State())
      ensures State() == Dfs(cfg, depth + 1,
        MergeParts(old(info.result), old(info.edges)[i].idx, old(info.edges)[i].idy), old(State()))
      ensures maxCluster > 1 ==> info.result == old(info.result) && info.edges == old(info.edges)
      decreases cfg.n - depth - 1, 2
    {
      if maxCluster > 1 {
        var tmp := new ClusterInfo(info.result, info.edges);
        Merge(tmp, i);
        DfsCluster(depth + 1, tmp);
      } else {
        Merge(info, i);
        DfsCluster(depth + 1, info);
      }
    }

    method Run()
      requires Computed(cfg) && ValidConfig(cfg) && State() == Search(seq(NODE_NUM, _ => {}), [])
      modifies this
      ensures results == Clusterings(cfg)
    {
      var parts := [];
      for i := 0 to cfg.n
        invariant parts == seq(i, k => {k})
      {
        parts := parts + [{i}];
      }
      while |parts| < cfg.clusterNum
        invariant cfg.n <= |parts| && (|parts| <= cfg.clusterNum || |parts| == cfg.n)
        invariant parts == seq(cfg.n, k => {k}) + seq(|parts| - cfg.n, _ => {})
      {
        parts := parts + [{}];
      }
      assert parts == Singletons(cfg);
      var info := new ClusterInfo(parts, []);
      CalClusterDist(info);
      DfsCluster(0, info);
    }
  }

  function Singletons(c: Config): Parts {
    seq(c.n, (k: nat) => {k}) + seq(if c.n < c.clusterNum then c.clusterNum - c.n else 0, _ => {})
  }

  ghost function Clusterings(c: Config): seq<Parts>
    requires ValidConfig(c)
  {
    Dfs(c, 0, Singletons(c), Search(seq(NODE_NUM, _ => {}), [])).result
  }
}
