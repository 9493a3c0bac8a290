/** How far the search for clusterings goes: at every clustering it reaches it tries the nearest merges, three new
    ones above depth 3 and one below, and every merge recorded last is one result. */
module ClusterSearch {
  import opened HierCluster
  import opened ClusterTheory

  /** The nearest merges of parts are recorded in v: three different outcomes, or one from depth 3 on, or all. */
  ghost predicate Full(c: Config, depth: nat, parts: Parts, v: set<Key>)
    requires ValidConfig(c)
  {
    exists m :: FullTo(c, depth, parts, v, m)
  }

  ghost predicate FullTo(c: Config, depth: nat, parts: Parts, v: set<Key>, m: nat)
    requires ValidConfig(c)
  {
    && m <= |c.edges(parts)| && Outcomes(c, parts, 0, m) <= v
    && (m < |c.edges(parts)| ==> |Outcomes(c, parts, 0, m)| >= if depth < 3 then 3 else 1)
  }

  /** parts has the clusters of key, and perhaps empty ones left behind by merging. */
  ghost predicate Shows(parts: Parts, key: Key) { multiset(parts) == key + multiset{{}} }

  /** A recorded outcome was searched on: at the last merge it is a result, otherwise its nearest merges are
      recorded in turn. */
  ghost predicate Followed(c: Config, s: Search, depth: nat, key: Key)
    requires ValidConfig(c) && ValidSearch(c, s) && depth < Bottom(c) <= NODE_NUM
  {
    if depth + 1 == Bottom(c) then InResults(s.result, key) else GoneOn(c, depth + 1, s.visit[depth + 1], key)
  }

  ghost predicate InResults(results: seq<Parts>, key: Key) {
    exists i :: 0 <= i < |results| && Shows(results[i], key)
  }

  ghost predicate GoneOn(c: Config, depth: nat, v: set<Key>, key: Key)
    requires ValidConfig(c)
  {
    exists parts :: Shows(parts, key) && Full(c, depth, parts, v)
  }

  /** Every outcome recorded in s was followed, unless it was in `known` already. */
  ghost predicate AllFollowed(c: Config, known: Search, s: Search)
    requires ValidConfig(c) && ValidSearch(c, known) && ValidSearch(c, s) && Bottom(c) <= NODE_NUM
  {
    forall d, key :: 0 <= d < Bottom(c) && key in s.visit[d] && key !in known.visit[d] ==> Followed(c, s, d, key)
  }

  ghost predicate Extends(s: Search, t: Search) {
    && |s.visit| == |t.visit| && (forall d :: 0 <= d < |s.visit| ==> s.visit[d] <= t.visit[d])
    && s.result <= t.result
  }

  lemma FollowedStill(c: Config, s: Search, t: Search, d: nat, key: Key)
    requires ValidConfig(c) && ValidSearch(c, s) && ValidSearch(c, t) && d < Bottom(c) <= NODE_NUM
    requires Extends(s, t) && Followed(c, s, d, key)
    ensures Followed(c, t, d, key)
  {
    if d + 1 == Bottom(c) {
      InResultsStill(s.result, t.result, key);
    } else {
      GoneOnStill(c, d + 1, s.visit[d + 1], t.visit[d + 1], key);
    }
  }

  lemma InResultsStill(a: seq<Parts>, b: seq<Parts>, key: Key)
    requires a <= b && InResults(a, key)
    ensures InResults(b, key)
  {
    var i :| 0 <= i < |a| && Shows(a[i], key);
    assert Shows(b[i], key);
  }

  lemma GoneOnStill(c: Config, depth: nat, v: set<Key>, w: set<Key>, key: Key)
    requires ValidConfig(c) && GoneOn(c, depth, v, key) && v <= w
    ensures GoneOn(c, depth, w, key)
  {
    var parts :| Shows(parts, key) && Full(c, depth, parts, v);
    FullStill(c, depth, parts, v, w);
  }

  lemma FullStill(c: Config, depth: nat, parts: Parts, v: set<Key>, w: set<Key>)
    requires ValidConfig(c) && Full(c, depth, parts, v) && v <= w
    ensures Full(c, depth, parts, w)
  {
    var m :| FullTo(c, depth, parts, v, m);
    assert FullTo(c, depth, parts, w, m);
  }

  lemma {:induction false} DfsExtends(c: Config, depth: nat, parts: Parts, s: Search)
    requires ValidConfig(c) && ValidSearch(c, s) && depth <= Bottom(c)
    ensures Extends(s, Dfs(c, depth, parts, s))
    decreases c.n - depth, 1, 0
  {
    if c.n - depth > c.clusterNum { DfsLoopExtends(c, depth, parts, 0, 0, s); }
  }

  lemma {:induction false} DfsLoopExtends(c: Config, depth: nat, parts: Parts, i: nat, cnt: nat, s: Search)
    requires ValidConfig(c) && ValidSearch(c, s) && depth < Bottom(c) && i <= |c.edges(parts)|
    ensures Extends(s, DfsLoop(c, depth, parts, i, cnt, s))
    decreases c.n - depth, 0, |c.edges(parts)| - i
  {
    if i < |c.edges(parts)| && cnt < MaxCluster(depth) {
      DfsLoopStep(c, depth, parts, i, cnt, s);
      var e := c.edges(parts)[i];
      var key := KeyOf(parts, e.idx, e.idy);
      if key in s.visit[depth] {
        DfsLoopExtends(c, depth, parts, i + 1, cnt, s);
      } else {
        var next, s' := MergeParts(parts, e.idx, e.idy), Mark(s, depth, key);
        DfsExtends(c, depth + 1, next, s');
        DfsLoopExtends(c, depth, parts, i + 1, cnt + 1, Dfs(c, depth + 1, next, s'));
      }
    }
  }

  lemma DfsFull(c: Config, depth: nat, parts: Parts, s: Search)
    requires ValidConfig(c) && ValidSearch(c, s) && depth < Bottom(c)
    ensures Full(c, depth, parts, Dfs(c, depth, parts, s).visit[depth])
  {
    var m := DfsRecords(c, depth, parts, s);
    var before := s.visit[depth];
    var all := Outcomes(c, parts, 0, m);
    Subset(all - before, all);
    assert FullTo(c, depth, parts, Dfs(c, depth, parts, s).visit[depth], m);
  }

  lemma {:induction false} Subset<T>(a: set<T>, b: set<T>)
    requires a <= b
    ensures |a| <= |b|
  {
    assert b == a + (b - a);
  }

  lemma FollowedBoth(c: Config, known: Search, s: Search, t: Search)
    requires ValidConfig(c) && ValidSearch(c, known) && ValidSearch(c, s) && ValidSearch(c, t) && Bottom(c) <= NODE_NUM
    requires AllFollowed(c, known, s) && AllFollowed(c, s, t) && Extends(s, t)
    ensures AllFollowed(c, known, t)
  {
    forall d, key | 0 <= d < Bottom(c) && key in t.visit[d] && key !in known.visit[d]
      ensures Followed(c, t, d, key)
    {
      if key in s.visit[d] { FollowedStill(c, s, t, d, key); }
    }
  }

  lemma {:induction false} DfsFollows(c: Config, depth: nat, parts: Parts, s: Search)
    requires ValidConfig(c) && ValidSearch(c, s) && depth <= Bottom(c)
    ensures AllFollowed(c, s, Dfs(c, depth, parts, s))
    decreases c.n - depth, 1, 0
  {
    if c.n - depth > c.clusterNum { DfsLoopFollows(c, depth, parts, 0, 0, s); }
  }

  /** The outcome of a merge that is searched on was followed. */
  lemma MarkFollowed(c: Config, depth: nat, parts: Parts, x: nat, y: nat, s: Search)
    requires ValidConfig(c) && ValidSearch(c, s) && depth < Bottom(c) && x < y < |parts|
    ensures var key, next := KeyOf(parts, x, y), MergeParts(parts, x, y);
      Followed(c, Dfs(c, depth + 1, next, Mark(s, depth, key)), depth, key)
  {
    var key, next := KeyOf(parts, x, y), MergeParts(parts, x, y);
    var r := Dfs(c, depth + 1, next, Mark(s, depth, key));
    KeyOfMerge(parts, x, y);
    assert Shows(next, key);
    if depth + 1 == Bottom(c) {
      assert Shows(r.result[|s.result|], key);
    } else {
      DfsFull(c, depth + 1, next, Mark(s, depth, key));
    }
  }

  lemma MarkFollows(c: Config, depth: nat, parts: Parts, x: nat, y: nat, s: Search)
    requires ValidConfig(c) && ValidSearch(c, s) && depth < Bottom(c) && x < y < |parts|
    requires var s' := Mark(s, depth, KeyOf(parts, x, y));
      AllFollowed(c, s', Dfs(c, depth + 1, MergeParts(parts, x, y), s'))
    ensures AllFollowed(c, s, Dfs(c, depth + 1, MergeParts(parts, x, y), Mark(s, depth, KeyOf(parts, x, y))))
  {
    MarkFollowed(c, depth, parts, x, y, s);
  }

  lemma {:induction false} DfsLoopFollows(c: Config, depth: nat, parts: Parts, i: nat, cnt: nat, s: Search)
    requires ValidConfig(c) && ValidSearch(c, s) && depth < Bottom(c) && i <= |c.edges(parts)|
    ensures AllFollowed(c, s, DfsLoop(c, depth, parts, i, cnt, s))
    decreases c.n - depth, 0, |c.edges(parts)| - i
  {
    if i < |c.edges(parts)| && cnt < MaxCluster(depth) {
      DfsLoopStep(c, depth, parts, i, cnt, s);
      var e := c.edges(parts)[i];
      var key := KeyOf(parts, e.idx, e.idy);
      if key in s.visit[depth] {
        DfsLoopFollows(c, depth, parts, i + 1, cnt, s);
      } else {
        var next, s' := MergeParts(parts, e.idx, e.idy), Mark(s, depth, key);
        var r := Dfs(c, depth + 1, next, s');
        DfsFollows(c, depth + 1, next, s');
        MarkFollows(c, depth, parts, e.idx, e.idy, s);
        DfsLoopExtends(c, depth, parts, i + 1, cnt + 1, r);
        DfsLoopFollows(c, depth, parts, i + 1, cnt + 1, r);
        FollowedBoth(c, s, r, DfsLoop(c, depth, parts, i + 1, cnt + 1, r));
      }
    }
  }

  // ----- The whole search

  /** v is the table of the outcomes recorded at each depth, and rs what it led to. */
  ghost predicate Searched(c: Config, v: seq<set<Key>>, rs: seq<Parts>)
    requires ValidConfig(c) && 1 <= Bottom(c) <= NODE_NUM
  {
    && |v| == NODE_NUM && Full(c, 0, Singletons(c), v[0])
    && (forall d, key :: 0 <= d < Bottom(c) && key in v[d] ==> Followed(c, Search(v, rs), d, key))
    && (forall i :: 0 <= i < |rs| ==> multiset(rs[i]) - multiset{{}} in v[Bottom(c) - 1])
    && forall i, j :: 0 <= i < j < |rs| ==> multiset(rs[i]) != multiset(rs[j])
  }

  /** If there is something to merge: the nearest merges of the single places are recorded, every recorded outcome
      is searched on in the same way, and the results are exactly the outcomes of the last merges, each once. */
  lemma ClusteringsFull(c: Config)
    requires ValidConfig(c) && 1 <= Bottom(c)
    ensures exists v :: Searched(c, v, Clusterings(c))
  {
    var s := Search(seq(NODE_NUM, _ => {}), []);
    var r := Dfs(c, 0, Singletons(c), s);
    DfsFull(c, 0, Singletons(c), s);
    DfsFollows(c, 0, Singletons(c), s);
    DfsDiffer(c, 0, Singletons(c), s);
    assert Searched(c, r.visit, Clusterings(c));
  }
}
