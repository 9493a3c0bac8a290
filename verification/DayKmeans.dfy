/** MyKmeans in MyCluster.cpp: KmeansAdjust sends every place to its nearest day, GreedSwitchAllPoint
    then moves places out of days that are overfull. */
module DayKmeans {
  import opened Prelude
  import opened DayGroups
  import opened DayMoves

  method InsertByLeft(r0: seq<nat>, x: nat, cs: Clusters) returns (r: seq<nat>)
    requires x < |cs| && ByLeft(cs, r0) && Distinct(r0) && x !in r0
    ensures ByLeft(cs, r) && Distinct(r) && Elems(r) == Elems(r0) + {x}
  {
    var k := 0;
    while k < |r0| && cs[r0[k]].left <= cs[x].left
      invariant 0 <= k <= |r0| && forall i :: 0 <= i < k ==> cs[r0[i]].left <= cs[x].left
    {
      k := k + 1;
    }
    r := r0[..k] + [x] + r0[k..];
    InsertedByLeft(cs, r0, k, x);
    InsertedDistinct(r0, k, x);
  }

  /** The days with the least time left first; std::sort may order equal ones in any way. */
  method SortByLeft(list: seq<nat>, cs: Clusters) returns (r: seq<nat>)
    requires Targets(cs, list) && Distinct(list)
    ensures ByLeft(cs, r) && Distinct(r) && Elems(r) == Elems(list)
  {
    r := [];
    for n := 0 to |list|
      invariant ByLeft(cs, r) && Distinct(r) && Elems(r) == Elems(list[..n])
    {
      assert list[n] !in Elems(list[..n]);
      assert list[..n + 1] == list[..n] + [list[n]];
      r := InsertByLeft(r, list[n], cs);
    }
    assert list[..|list|] == list;
  }

  class MyKmeans {
    const t: Trip
    const clusterNum: nat
    var p2c: Matrix
    var cluster: Clusters
    var result: Sets

    ghost predicate Valid()
      reads this
    {
      TripValid(t) && |cluster| == |result| == |p2c| <= |t.blockDur| && Columns(t, p2c)
    }

    constructor (t: Trip, clusterNum: nat, init: Sets)
      requires TripValid(t) && |init| <= |t.blockDur|
      ensures Valid() && this.t == t && this.clusterNum == clusterNum && result == init
    {
      this.t, this.clusterNum, result := t, clusterNum, init;
      cluster := seq(|init|, _ => ClusterNode([], 0, 0));
      p2c := seq(|init|, _ => seq(t.points, _ => MAX_INT));
    }

    /** CalPointToClusterDistOneCluster: the distances of all places from the centre of the set s. */
    method CalColumn(j: nat, s: set<nat>)
      requires Valid() && j < |p2c|
      modifies this`p2c
      ensures Valid() && |p2c| == |old(p2c)| && IsColumn(t, j, s, p2c[j])
      ensures forall p :: 0 <= p < t.points ==>
        && (!t.open[j][p] ==> p2c[j][p] == MAX_INT)
        && (t.open[j][p] && t.notPlay[j] ==> p2c[j][p] == 0)
        && (t.open[j][p] && !t.notPlay[j] ==> p2c[j][p] == t.near(s, p))
      ensures forall i :: 0 <= i < |p2c| && i != j ==> p2c[i] == old(p2c)[i]
    {
      var col: seq<int> := [];
      for p := 0 to t.points
        invariant |col| == p && forall q :: 0 <= q < p ==> col[q] == Entry(t, j, s, q)
      {
        col := col + [Entry(t, j, s, p)];
      }
      assert SomeColumn(t, j, col);
      p2c := p2c[j := col];
    }

    /** CalPointToClusterDist for the centres of the given sets. */
    method CalColumns(basis: Sets)
      requires Valid() && |basis| == |p2c|
      modifies this`p2c
      ensures Valid() && |p2c| == |old(p2c)|
      ensures forall j :: 0 <= j < |p2c| ==> IsColumn(t, j, basis[j], p2c[j])
    {
      for j := 0 to |basis|
        invariant Valid() && |p2c| == |old(p2c)|
        invariant forall i :: 0 <= i < j ==> IsColumn(t, i, basis[i], p2c[i])
      {
        CalColumn(j, basis[j]);
      }
    }

    method Nearest(p: nat) returns (r: int)
      requires Valid() && Full(t, p2c, clusterNum) && p < t.points
      ensures r == Home(t, p2c, clusterNum, p)
    {
      r := -1;
      var minDist := INFINITE;
      for j := 0 to clusterNum
        invariant r == Home(t, p2c, j, p) && minDist == if r < 0 then INFINITE else p2c[r][p]
      {
        if p2c[j][p] < minDist {
          minDist, r := p2c[j][p], j;
        }
      }
    }

    /** Places go to their nearest days. */
    method Assign() returns (nodes: seq<seq<nat>>)
      requires Valid() && clusterNum <= |cluster| && Full(t, p2c, clusterNum)
      ensures |nodes| == |cluster|
      ensures forall j :: 0 <= j < |nodes| ==> nodes[j] == Members(t, p2c, clusterNum, j, t.points)
    {
      nodes := seq(|cluster|, _ => []);
      for p := 0 to t.points
        invariant |nodes| == |cluster|
        invariant forall j :: 0 <= j < |nodes| ==> nodes[j] == Members(t, p2c, clusterNum, j, p)
      {
        var r := Nearest(p);
        if r != -1 {
          nodes := nodes[r := nodes[r] + [p]];
        }
      }
    }

    method AllDur(node: seq<nat>) returns (d: int)
      requires Valid() && forall p :: p in node ==> p < t.points
      ensures d == Total(t, node)
    {
      d := 0;
      for i := 0 to |node|
        invariant d == Total(t, node[..i])
      {
        assert node[..i + 1][..i] == node[..i] && node[i] in node;
        d := d + t.dur[node[i]];
      }
      assert node[..|node|] == node;
    }

    method NodeSet(node: seq<nat>) returns (s: set<nat>)
      ensures s == Elems(node)
    {
      s := {};
      for i := 0 to |node|
        invariant s == Elems(node[..i])
      {
        assert node[..i + 1] == node[..i] + [node[i]];
        s := s + {node[i]};
      }
      assert node[..|node|] == node;
    }

    ghost predicate Settled()
      reads this
    {
      Valid() && Inv(t, cluster, result) && AllOpen(t, result)
    }

    /** KmeansAdjust: afterwards every place is in its nearest day if it has one, the books are right, and
        no place is in a day that is closed for it. */
    method KmeansAdjust()
      requires Valid() && clusterNum <= |cluster|
      modifies this`cluster, this`result
      ensures Settled() && |cluster| == |old(cluster)|
      ensures Full(t, p2c, clusterNum) && Adjusted(t, p2c, clusterNum, result)
      ensures forall j :: 0 <= j < |cluster| ==> cluster[j].node == Members(t, p2c, clusterNum, j, t.points)
    {
      ColumnsFull(t, p2c, clusterNum);
      var nodes := Assign();
      var cs: Clusters, ss: Sets := [], [];
      for j := 0 to |nodes|
        invariant cluster == old(cluster) && result == old(result) && |cs| == |ss| == j
        invariant forall i :: 0 <= i < j ==> cs[i].node == nodes[i] && Books(t, i, cs[i], ss[i])
      {
        MembersAre(t, p2c, clusterNum, j, t.points);
        var allDur := AllDur(nodes[j]);
        var s := NodeSet(nodes[j]);
        cs := cs + [ClusterNode(nodes[j], allDur, t.blockDur[j] - allDur)];
        ss := ss + [s];
      }
      AssignedSets(nodes, cs, ss);
      AdjustedOpen(t, p2c, clusterNum, ss);
      cluster, result := cs, ss;
    }

    lemma AssignedSets(nodes: seq<seq<nat>>, cs: Clusters, ss: Sets)
      requires Valid() && Full(t, p2c, clusterNum) && |nodes| == |cs| == |ss| <= |t.blockDur|
      requires forall j :: 0 <= j < |nodes| ==> nodes[j] == Members(t, p2c, clusterNum, j, t.points)
      requires forall j :: 0 <= j < |cs| ==> cs[j].node == nodes[j] && Books(t, j, cs[j], ss[j])
      ensures Adjusted(t, p2c, clusterNum, ss) && Inv(t, cs, ss)
    {
      forall j, p: nat | 0 <= j < |ss|
        ensures p in ss[j] <==> p < t.points && Home(t, p2c, clusterNum, p) == j
      {
        assert Books(t, j, cs[j], ss[j]);
        assert p in ss[j] <==> p in nodes[j];
        MembersAre(t, p2c, clusterNum, j, t.points);
      }
      forall i, j | 0 <= i < |ss| && 0 <= j < |ss| && i != j
        ensures ss[i] !! ss[j]
      {
        forall p | p in ss[i]
          ensures p !in ss[j]
        {
          assert p < t.points && Home(t, p2c, clusterNum, p) == i;
        }
      }
    }

    // Moving

    method SubPoint(a: nat, p: nat, ghost k: nat)
      requires Valid() && Inv(t, cluster, result) && a < |cluster| && k < |cluster[a].node| && cluster[a].node[k] == p
      modifies this`cluster, this`result
      ensures var c := old(cluster[a]);
              cluster == old(cluster)[a := ClusterNode(Without(c.node, k), c.duration - Dur(t, p), c.left + Dur(t, p))]
      ensures result == old(result)[a := old(result[a]) - {p}]
    {
      var c := cluster[a];
      assert Books(t, a, c, result[a]);
      var it := 0;
      while c.node[it] != p
        invariant it <= k
        decreases k - it
      {
        it := it + 1;
      }
      assert it == k;
      assert p in c.node;
      cluster := cluster[a := ClusterNode(c.node[..it] + c.node[it + 1..], c.duration - t.dur[p], c.left + t.dur[p])];
      result := result[a := result[a] - {p}];
    }

    method AddPoint(b: nat, p: nat)
      requires |cluster| == |result| && b < |cluster| && p < |t.dur|
      modifies this`cluster, this`result
      ensures var c := old(cluster[b]);
              cluster == old(cluster)[b := ClusterNode(c.node + [p], c.duration + Dur(t, p), c.left - Dur(t, p))]
      ensures result == old(result)[b := old(result[b]) + {p}]
    {
      var c := cluster[b];
      cluster := cluster[b := ClusterNode(c.node + [p], c.duration + t.dur[p], c.left - t.dur[p])];
      result := result[b := result[b] + {p}];
    }

    method ShiftPoint(p: nat, a: nat, b: nat, ghost k: nat)
      requires Valid() && Inv(t, cluster, result) && a < |cluster| && b < |cluster| && a != b
      requires k < |cluster[a].node| && cluster[a].node[k] == p
      modifies this`cluster, this`result
      ensures Valid() && Inv(t, cluster, result)
      ensures cluster == Moved(t, old(cluster), a, k, b) && result == MovedSets(old(result), a, p, b)
    {
      MovedInv(t, cluster, result, a, k, b);
      assert Books(t, a, cluster[a], result[a]) && p in cluster[a].node;
      SubPoint(a, p, k);
      AddPoint(b, p);
      assert cluster == Moved(t, old(cluster), a, k, b) && result == MovedSets(old(result), a, p, b);
    }

    /** MovePointFromClusterAToClusterB: the place changes days, and both days get new distances. */
    method MovePoint(p: nat, a: nat, b: nat, ghost k: nat)
      requires Valid() && Inv(t, cluster, result) && a < |cluster| && b < |cluster| && a != b
      requires k < |cluster[a].node| && cluster[a].node[k] == p
      modifies this`cluster, this`result, this`p2c
      ensures Valid() && Inv(t, cluster, result)
      ensures cluster == Moved(t, old(cluster), a, k, b) && result == MovedSets(old(result), a, p, b)
      ensures |p2c| == |old(p2c)| && IsColumn(t, a, result[a], p2c[a]) && IsColumn(t, b, result[b], p2c[b])
      ensures forall j :: 0 <= j < |p2c| && j != a && j != b ==> p2c[j] == old(p2c)[j]
    {
      ShiftPoint(p, a, b, k);
      CalColumn(a, result[a]);
      CalColumn(b, result[b]);
    }

    // Looking for the best move

    lemma SettledIndexed()
      requires Valid() && Inv(t, cluster, result)
      ensures Indexed(t, cluster, p2c)
    {
    }

    method IsGrouped(c: nat, k: nat) returns (b: bool)
      requires Indexed(t, cluster, p2c) && c < |cluster| && k < |cluster[c].node|
      ensures cluster[c].node[k] < |p2c[c]| && (b <==> Grouped(t, cluster, p2c, c, k))
    {
      NodeIndexed(t, cluster, p2c, c, k, c);
      b := false;
      for i := 0 to |cluster[c].node|
        invariant !b && forall i0 :: 0 <= i0 < i ==>
          !(p2c[c][cluster[c].node[k]] == 0 || (i0 != k && t.dist(cluster[c].node[k], cluster[c].node[i0]) <= 300))
      {
        if p2c[c][cluster[c].node[k]] == 0 || (i != k && t.dist(cluster[c].node[k], cluster[c].node[i]) <= 300) {
          return true;
        }
      }
    }

    /** All targets for one place of the day. */
    method ScanTargets(legal: seq<nat>, care: bool, c: nat, k: nat, minDist0: int, m0: Move)
        returns (minDist: int, m: Move)
      requires Indexed(t, cluster, p2c) && Targets(cluster, legal) && c < |cluster| && k < |cluster[c].node|
      requires |cluster[c].node| > (if t.notPlay[c] then 0 else 1)
      requires cluster[c].node[k] < |p2c[c]| && !(care && Grouped(t, cluster, p2c, c, k))
      requires Best(t, cluster, p2c, legal, care, c, m0, k, 0) && minDist0 == Price(legal, c, m0)
      ensures Best(t, cluster, p2c, legal, care, c, m, k, |legal|) && minDist == Price(legal, c, m)
    {
      minDist, m := minDist0, m0;
      for i := 0 to |legal|
        invariant Best(t, cluster, p2c, legal, care, c, m, k, i) && minDist == Price(legal, c, m)
      {
        NodeIndexed(t, cluster, p2c, c, k, legal[i]);
        var p := cluster[c].node[k];
        if cluster[legal[i]].left >= t.dur[p] && |cluster[legal[i]].node| < t.limit && p2c[legal[i]][p] < minDist {
          minDist, m := p2c[legal[i]][p], Move(k, i);
        }
      }
    }

    ghost function Price(legal: seq<nat>, c: nat, m: Move): int
      requires Indexed(t, cluster, p2c) && Targets(cluster, legal) && c < |cluster|
      requires m == NO_MOVE || (0 <= m.k < |cluster[c].node| && 0 <= m.i < |legal|)
      reads this
    {
      if m == NO_MOVE then INFINITE else Cost(t, cluster, p2c, c, m.k, legal[m.i])
    }

    /** The cheapest move of a place out of day c, the first of its kind. */
    method FindMove(legal: seq<nat>, care: bool, c: nat) returns (m: Move)
      requires Indexed(t, cluster, p2c) && Targets(cluster, legal) && c < |cluster|
      ensures Best(t, cluster, p2c, legal, care, c, m, |cluster[c].node|, 0)
    {
      var minDist := INFINITE;
      m := NO_MOVE;
      var numLeast := if t.notPlay[c] then 0 else 1;
      for k := 0 to |cluster[c].node|
        invariant Best(t, cluster, p2c, legal, care, c, m, k, 0) && minDist == Price(legal, c, m)
      {
        var grouped := IsGrouped(c, k);
        if |cluster[c].node| > numLeast && !(care && grouped) {
          minDist, m := ScanTargets(legal, care, c, k, minDist, m);
        }
        BestNextPlace(t, cluster, p2c, legal, care, c, m, k);
      }
    }

    // Rebalancing

    ghost function Now(): Groups
      reads this
    {
      Groups(cluster, result, p2c)
    }

    /** The search for a move, first among places that stand alone and then, as a last move, among all;
        and the move. */
    method TrimOnce(legal: seq<nat>, c: nat) returns (end: End, m: Move)
      requires Ready(t, legal, Now()) && c < |cluster| && c !in legal && !Legal(t, cluster[c])
      modifies this`cluster, this`result, this`p2c
      ensures Turn(t, legal, c, old(Now()), Now(), m, end)
      ensures |cluster| == |old(cluster)| && (end.Fits? ==> |cluster[c].node| < |old(cluster)[c].node|)
    {
      SettledIndexed();
      end := Fits;
      m := FindMove(legal, true, c);
      if m == NO_MOVE {
        m := FindMove(legal, false, c);
        if m == NO_MOVE {
          return NoRoom, m;
        }
        end := Forced;
      }
      assert legal[m.i] in legal;
      MovePoint(cluster[c].node[m.k], c, legal[m.i], m.k);
    }

    /** Moving places out of one day until it is legal or a turn says stop. */
    method TrimDay(legal: seq<nat>, c: nat) returns (end: End, ghost n: nat)
      requires Ready(t, legal, Now()) && c < |cluster| && c !in legal
      modifies this`cluster, this`result, this`p2c
      ensures AfterTurns(t, legal, c, old(Now()), Now(), end, n)
      ensures |cluster| == |old(cluster)| && (Legal(t, cluster[c]) || !end.Fits?)
    {
      ghost var g := Now();
      end, n := Fits, 0;
      NoTurns(t, legal, c, [], g);
      while end.Fits? && (cluster[c].left < 0 || |cluster[c].node| > t.limit)
        invariant |cluster| == |g.cs| && AfterTurns(t, legal, c, g, Now(), end, n)
        decreases end.Fits?, |cluster[c].node|
      {
        end := TrimNext(legal, c, g, n);
        n := n + 1;
      }
    }

    method TrimNext(legal: seq<nat>, c: nat, ghost g: Groups, ghost n: nat) returns (end: End)
      requires Ready(t, legal, g) && c < |cluster| && c !in legal && !Legal(t, cluster[c])
      requires AfterTurns(t, legal, c, g, Now(), Fits, n)
      modifies this`cluster, this`result, this`p2c
      ensures AfterTurns(t, legal, c, g, Now(), end, n + 1)
      ensures |cluster| == |old(cluster)| && (end.Fits? ==> |cluster[c].node| < |old(cluster)[c].node|)
    {
      ghost var g0 := Now();
      ReadyTurns(t, legal, c, g, g0, Fits, n);
      var m;
      end, m := TrimOnce(legal, c);
      TurnAfter(t, legal, c, g, g0, Now(), m, end, n);
    }

    /** The loop of GreedSwitchAllPoint. */
    method TrimEach(legal: seq<nat>, days: seq<nat>)
      requires Ready(t, legal, Now()) && Targets(cluster, days) && forall i :: 0 <= i < |days| ==> days[i] !in legal
      modifies this`cluster, this`result, this`p2c
      ensures AfterDays(t, legal, days, old(Now()), Now(), |days|)
    {
      ghost var g := Now();
      NoTurns(t, legal, 0, days, g);
      for n := 0 to |days|
        invariant AfterDays(t, legal, days, g, Now(), n)
      {
        ReadyDays(t, legal, days, g, Now(), n);
        ghost var g0 := Now();
        ghost var k;
        var end;
        end, k := TrimDay(legal, days[n]);
        TrimmedAfter(t, legal, days, g, g0, Now(), n, end, k);
      }
    }

    /** GreedSwitchAllPoint: the overfull days are trimmed as far as the code can. Places are kept, days
        that were legal stay legal and only gain places, the others only lose places, no day that can be
        played is emptied, and no place reaches a day that is closed for it. */
    method GreedSwitchAllPoint() returns (ghost order: seq<nat>, ghost legal: seq<nat>)
      requires Settled()
      modifies this`cluster, this`result, this`p2c
      ensures Rebalanced(t, legal, order, old(Now()), Now())
      ensures (forall j :: j in order ==> j < |old(cluster)|) &&
              forall i, j :: 0 <= i < j < |order| ==> old(cluster)[order[i]].left <= old(cluster)[order[j]].left
      ensures Settled() && |cluster| == |old(cluster)|
      ensures Keeps(t, Elems(legal), old(cluster), old(result), cluster, result)
    {
      var legals, illegal := Split();
      legal := legals;
      assert forall i :: 0 <= i < |legals| ==> legals[i] in legals;
      assert forall i :: 0 <= i < |illegal| ==> illegal[i] in illegal;
      var days := SortByLeft(illegal, cluster);
      order := days;
      assert forall j: nat :: j in days <==> j in Elems(days);
      assert forall j: nat :: j in illegal <==> j in Elems(illegal);
      TrimEach(legals, days);
      assert TrimmedAll(t, legal, order, old(Now()), Now(), |order|);
      RebalancedKeeps(t, legal, order, old(Now()), Now());
    }

    method Split() returns (legal: seq<nat>, illegal: seq<nat>)
      ensures forall j: nat :: j in legal <==> j < |cluster| && Legal(t, cluster[j])
      ensures forall j: nat :: j in illegal <==> j < |cluster| && !Legal(t, cluster[j])
      ensures (forall i, j :: 0 <= i < j < |legal| ==> legal[i] < legal[j]) && Distinct(illegal)
    {
      legal, illegal := [], [];
      for i := 0 to |cluster|
        invariant forall j: nat :: j in legal <==> j < i && Legal(t, cluster[j])
        invariant forall j: nat :: j in illegal <==> j < i && !Legal(t, cluster[j])
        invariant forall k :: 0 <= k < |legal| ==> legal[k] < i
        invariant (forall k, j :: 0 <= k < j < |legal| ==> legal[k] < legal[j]) && Distinct(illegal)
      {
        if cluster[i].left >= 0 && |cluster[i].node| <= t.limit {
          legal := legal + [i];
        } else {
          illegal := illegal + [i];
        }
      }
    }

    /** A place is in no day exactly when every day was at infinite distance from it. */
    ghost predicate DroppedBy(last: Matrix)
      reads this
    {
      Full(t, last, clusterNum) &&
      forall p: nat :: p < t.points ==>
        (Placed(result, p) <==> exists j :: 0 <= j < clusterNum && last[j][p] < INFINITE)
    }

    /** One round of Run, with distances from the centres of the days in basis. */
    method Round(basis: Sets) returns (ghost mid: Groups)
      requires Valid() && clusterNum <= |cluster| == |basis|
      modifies this`cluster, this`result, this`p2c
      ensures Settled() && |cluster| == |basis| && Rounded(t, clusterNum, basis, mid, Now()) && DroppedBy(mid.p2c)
    {
      CalColumns(basis);
      ghost var last := p2c;
      KmeansAdjust();
      ghost var ss := result;
      forall p: nat | p < t.points
        ensures Placed(ss, p) <==> exists j :: 0 <= j < clusterNum && last[j][p] < INFINITE
      {
        DroppedExactly(t, last, clusterNum, ss, p);
      }
      CalColumns(basis);
      SameColumns(t, basis, last, p2c);
      mid := Now();
      ghost var order, legal := GreedSwitchAllPoint();
      assert Rebalanced(t, legal, order, mid, Now());
    }

    /** The i-th round made the present days out of prev, by way of mid. */
    ghost predicate LastRound(init: Sets, prev: Sets, mid: Groups, i: nat)
      reads this
    {
      i > 0 && AfterRounds(t, clusterNum, init, prev, i - 1) && Rounded(t, clusterNum, prev, mid, Now()) &&
      DroppedBy(mid.p2c)
    }

    /** After i rounds of Run. */
    ghost predicate Running(init: Sets, basis: Sets, prev: Sets, mid: Groups, i: nat)
      reads this
    {
      Valid() && clusterNum <= |cluster| == |init| == |basis| && AfterRounds(t, clusterNum, init, basis, i) &&
      (i > 0 ==> Settled() && LastRound(init, prev, mid, i) && basis == result)
    }

    /** Running, stated so that a loop need not look into it. */
    ghost predicate RunningAt(init: Sets, basis: Sets, prev: Sets, mid: Groups, i: nat)
      reads this
    {
      forall k: nat :: k == i ==> Running(init, basis, prev, mid, k)
    }

    method NextRound(init: Sets, basis: Sets, ghost prev0: Sets, ghost mid0: Groups, ghost i: nat)
      returns (ghost mid: Groups)
      requires RunningAt(init, basis, prev0, mid0, i)
      modifies this`cluster, this`result, this`p2c
      ensures RunningAt(init, result, basis, mid, i + 1)
    {
      assert Running(init, basis, prev0, mid0, i);
      mid := Round(basis);
      RoundAfter(t, clusterNum, init, basis, mid, Now(), i);
      assert Running(init, result, basis, mid, i + 1);
    }

    /** The loop of Run. */
    method RunRounds(init: Sets) returns (ghost prev: Sets, ghost mid: Groups, ghost n: nat)
      requires Valid() && clusterNum <= |init| == |cluster|
      modifies this`cluster, this`result, this`p2c
      ensures 1 <= n <= 10 && RunningAt(init, result, prev, mid, n)
      ensures n < 10 ==> multiset(prev) == multiset(result)
    {
      prev, mid, n := init, Now(), 0;
      var basis := init;
      NoRounds(t, clusterNum, init);
      for i := 0 to 10
        invariant RunningAt(init, basis, prev, mid, i) && n == i && (i > 0 ==> basis == result)
      {
        mid := NextRound(init, basis, prev, mid, i);
        prev, n := basis, i + 1;
        if multiset(result) == multiset(basis) {
          break;
        }
        basis := result;
      }
    }

    /** Run: rounds of assigning and rebalancing, ten or until a round gives the days it began with; with
        fewer initial clusters than days wanted, nothing. The last round begins with prev and assigns the
        places as in mid, so its distances say which places are dropped. */
    method Run(init: Sets) returns (changed: bool, ghost prev: Sets, ghost mid: Groups, ghost n: nat)
      requires Valid() && |init| == |cluster|
      modifies this`cluster, this`result, this`p2c
      ensures changed <==> clusterNum <= |init|
      ensures changed ==> Settled() && |result| == |init| && 1 <= n <= 10
      ensures changed ==> LastRound(init, prev, mid, n) && AfterRounds(t, clusterNum, init, result, n)
      ensures changed && n < 10 ==> multiset(prev) == multiset(result)
      ensures !changed ==> cluster == old(cluster) && result == old(result)
    {
      prev, mid, n := init, Now(), 0;
      changed := clusterNum <= |init|;
      if changed {
        prev, mid, n := RunRounds(init);
        assert Running(init, result, prev, mid, n);
      }
    }
  }
}
