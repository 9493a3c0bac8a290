/** Assigning places to days and emptying overfull days (MyKmeans in MyCluster.cpp): the state and
    what every change keeps. Distances to a day's centre are an arbitrary function of its places. */
module DayGroups {
  import opened Prelude

  const INFINITE := 99999999
  const MAX_INT := 0x7fff_ffff

  /** One cluster per day. open[j][p] says whether place p may be put into day j at all. */
  datatype Trip = Trip(
    points: nat,
    dur: seq<int>,                  // m_bindInfo[p].m_dur
    blockDur: seq<int>,             // m_blockInfo[j].m_dur
    notPlay: seq<bool>,             // m_blockInfo[j].m_is_not_play
    open: seq<seq<bool>>,
    near: (set<nat>, nat) -> int,   // distance of a place from the centre of a set
    dist: (nat, nat) -> int,        // distance between two places
    limit: int)                     // m_dayViewLimit

  ghost predicate TripValid(t: Trip) {
    |t.dur| == t.points && |t.notPlay| == |t.blockDur| == |t.open| &&
    forall j :: 0 <= j < |t.open| ==> |t.open[j]| == t.points
  }

  datatype ClusterNode = ClusterNode(node: seq<nat>, duration: int, left: int)

  type Clusters = seq<ClusterNode>
  type Sets = seq<set<nat>>

  function Dur(t: Trip, p: nat): int { if p < |t.dur| then t.dur[p] else 0 }

  ghost function Total(t: Trip, node: seq<nat>): int {
    if node == [] then 0 else Total(t, node[..|node| - 1]) + Dur(t, node[|node| - 1])
  }

  /** The books of one day are right. */
  ghost predicate Books(t: Trip, j: nat, c: ClusterNode, s: set<nat>) {
    Distinct(c.node) && Elems(c.node) == s && (forall p :: p in c.node ==> p < |t.dur|) &&
    c.duration == Total(t, c.node) && j < |t.blockDur| && c.left == t.blockDur[j] - c.duration
  }

  /** A place is in one day at most, and every day's books are right. */
  ghost predicate Inv(t: Trip, cs: Clusters, ss: Sets) {
    |cs| == |ss| <= |t.blockDur| &&
    (forall j :: 0 <= j < |cs| ==> Books(t, j, cs[j], ss[j])) &&
    forall i, j :: 0 <= i < |ss| && 0 <= j < |ss| && i != j ==> ss[i] !! ss[j]
  }

  /** No place is in a day that is closed for it. */
  ghost predicate AllOpen(t: Trip, ss: Sets) {
    forall j, p :: 0 <= j < |ss| && p in ss[j] ==> j < |t.open| && p < |t.open[j]| && t.open[j][p]
  }

  ghost predicate Placed(ss: Sets, p: nat) { exists j :: 0 <= j < |ss| && p in ss[j] }

  predicate Legal(t: Trip, c: ClusterNode) { c.left >= 0 && |c.node| <= t.limit }

  // Distances

  function Entry(t: Trip, j: nat, s: set<nat>, p: nat): int
    requires j < |t.notPlay| && j < |t.open| && p < |t.open[j]|
  {
    if !t.open[j][p] then MAX_INT else if t.notPlay[j] then 0 else t.near(s, p)
  }

  ghost predicate IsColumn(t: Trip, j: nat, s: set<nat>, col: seq<int>)
    requires TripValid(t) && j < |t.open|
  {
    |col| == t.points && forall p :: 0 <= p < t.points ==> col[p] == Entry(t, j, s, p)
  }

  /** Every day's column holds distances from some set of places. */
  ghost predicate Columns(t: Trip, p2c: seq<seq<int>>)
    requires TripValid(t)
  {
    |p2c| <= |t.open| && forall j :: 0 <= j < |p2c| ==> SomeColumn(t, j, p2c[j])
  }

  ghost predicate SomeColumn(t: Trip, j: nat, col: seq<int>)
    requires TripValid(t) && j < |t.open|
  {
    |col| == t.points && forall p :: 0 <= p < t.points && !t.open[j][p] ==> col[p] >= INFINITE
  }

  // One move

  function Without(s: seq<nat>, k: nat): seq<nat>
    requires k < |s|
  {
    s[..k] + s[k + 1..]
  }

  lemma {:induction false} TotalConcat(t: Trip, a: seq<nat>, b: seq<nat>)
    ensures Total(t, a + b) == Total(t, a) + Total(t, b)
    decreases |b|
  {
    if b == [] {
      assert a + b == a;
    } else {
      var last := |b| - 1;
      assert (a + b)[..|a| + last] == a + b[..last];
      TotalConcat(t, a, b[..last]);
    }
  }

  lemma TotalOne(t: Trip, p: nat)
    ensures Total(t, [p]) == Dur(t, p)
  {
  }

  lemma TotalWithout(t: Trip, s: seq<nat>, k: nat)
    requires k < |s|
    ensures Total(t, Without(s, k)) == Total(t, s) - Dur(t, s[k])
  {
    var a, m, b := s[..k], [s[k]], s[k + 1..];
    assert s == a + (m + b);
    TotalConcat(t, a, m + b);
    TotalConcat(t, m, b);
    TotalOne(t, s[k]);
    TotalConcat(t, a, b);
  }

  lemma WithoutElems(s: seq<nat>, k: nat)
    requires k < |s| && Distinct(s)
    ensures Distinct(Without(s, k)) && Elems(Without(s, k)) == Elems(s) - {s[k]}
  {
  }

  lemma SubBooks(t: Trip, j: nat, c: ClusterNode, s: set<nat>, k: nat)
    requires Books(t, j, c, s) && k < |c.node|
    ensures var p := c.node[k];
            Books(t, j, ClusterNode(Without(c.node, k), c.duration - Dur(t, p), c.left + Dur(t, p)), s - {p})
  {
    TotalWithout(t, c.node, k);
    WithoutElems(c.node, k);
    assert forall q :: q in Without(c.node, k) ==> q in Elems(Without(c.node, k));
  }

  lemma AddBooks(t: Trip, j: nat, c: ClusterNode, s: set<nat>, p: nat)
    requires Books(t, j, c, s) && p < |t.dur| && p !in s
    ensures Books(t, j, ClusterNode(c.node + [p], c.duration + Dur(t, p), c.left - Dur(t, p)), s + {p})
  {
  }

  // What rebalancing keeps

  /** The days taken to be legal only gain places and stay legal; the others only lose places, and a
      day that can be played keeps one; no place is gained or lost altogether. */
  ghost predicate Keeps(t: Trip, legal: set<nat>, cs: Clusters, ss: Sets, cs1: Clusters, ss1: Sets)
    requires |t.notPlay| == |t.blockDur|
  {
    |cs1| == |ss1| == |cs| == |ss| <= |t.blockDur| &&
    (forall j :: 0 <= j < |ss| ==> KeepsDay(t, j, j in legal, ss[j], cs1[j], ss1[j])) &&
    forall p :: Placed(ss, p) <==> Placed(ss1, p)
  }

  ghost predicate KeepsDay(t: Trip, j: nat, legal: bool, s: set<nat>, c1: ClusterNode, s1: set<nat>)
    requires j < |t.notPlay|
  {
    if legal then s <= s1 && Legal(t, c1)
    else s1 <= s && (s != {} && !t.notPlay[j] ==> s1 != {})
  }

  lemma KeepsTrans(t: Trip, legal: set<nat>, cs: Clusters, ss: Sets, cs1: Clusters, ss1: Sets, cs2: Clusters, ss2: Sets)
    requires |t.notPlay| == |t.blockDur|
    requires Keeps(t, legal, cs, ss, cs1, ss1) && Keeps(t, legal, cs1, ss1, cs2, ss2)
    ensures Keeps(t, legal, cs, ss, cs2, ss2)
  {
  }

  /** The clusters after the k-th place of day a has gone to day b. */
  ghost function Moved(t: Trip, cs: Clusters, a: nat, k: nat, b: nat): Clusters
    requires a < |cs| && b < |cs| && k < |cs[a].node|
  {
    var p := cs[a].node[k];
    var left := cs[a := ClusterNode(Without(cs[a].node, k), cs[a].duration - Dur(t, p), cs[a].left + Dur(t, p))];
    left[b := ClusterNode(left[b].node + [p], left[b].duration + Dur(t, p), left[b].left - Dur(t, p))]
  }

  ghost function MovedSets(ss: Sets, a: nat, p: nat, b: nat): Sets
    requires a < |ss| && b < |ss|
  {
    var left := ss[a := ss[a] - {p}];
    left[b := left[b] + {p}]
  }

  lemma MovedBooks(t: Trip, cs: Clusters, ss: Sets, a: nat, k: nat, b: nat, j: nat)
    requires Inv(t, cs, ss) && a < |cs| && b < |cs| && a != b && k < |cs[a].node| && j < |cs|
    ensures Books(t, j, Moved(t, cs, a, k, b)[j], MovedSets(ss, a, cs[a].node[k], b)[j])
  {
    var p := cs[a].node[k];
    assert Books(t, a, cs[a], ss[a]) && Books(t, j, cs[j], ss[j]);
    assert p in Elems(cs[a].node);
    if j == a {
      SubBooks(t, a, cs[a], ss[a], k);
    } else if j == b {
      AddBooks(t, b, cs[b], ss[b], p);
    }
  }

  lemma MovedInv(t: Trip, cs: Clusters, ss: Sets, a: nat, k: nat, b: nat)
    requires Inv(t, cs, ss) && a < |cs| && b < |cs| && a != b && k < |cs[a].node|
    ensures Inv(t, Moved(t, cs, a, k, b), MovedSets(ss, a, cs[a].node[k], b))
  {
    var p := cs[a].node[k];
    var cs1, ss1 := Moved(t, cs, a, k, b), MovedSets(ss, a, p, b);
    assert Books(t, a, cs[a], ss[a]);
    assert p in Elems(cs[a].node);
    forall j | 0 <= j < |cs1|
      ensures Books(t, j, cs1[j], ss1[j])
    {
      MovedBooks(t, cs, ss, a, k, b, j);
    }
    MovedApart(ss, a, p, b);
  }

  lemma MovedApart(ss: Sets, a: nat, p: nat, b: nat)
    requires a < |ss| && b < |ss| && a != b && p in ss[a]
    requires forall i, j :: 0 <= i < |ss| && 0 <= j < |ss| && i != j ==> ss[i] !! ss[j]
    ensures var ss1 := MovedSets(ss, a, p, b);
            forall i, j :: 0 <= i < |ss1| && 0 <= j < |ss1| && i != j ==> ss1[i] !! ss1[j]
  {
  }

  /** A place moves from a day that is not legal, and is not left empty unless it may be, into a legal
      day with room for it. */
  lemma MovedKeeps(t: Trip, legal: set<nat>, cs: Clusters, ss: Sets, a: nat, k: nat, b: nat)
    requires |t.notPlay| == |t.blockDur| && Inv(t, cs, ss) && a < |cs| && b < |cs| && k < |cs[a].node|
    requires a !in legal && b in legal && forall j :: j in legal && j < |cs| ==> Legal(t, cs[j])
    requires |cs[a].node| > (if t.notPlay[a] then 0 else 1)
    requires cs[b].left >= Dur(t, cs[a].node[k]) && |cs[b].node| < t.limit
    ensures Keeps(t, legal, cs, ss, Moved(t, cs, a, k, b), MovedSets(ss, a, cs[a].node[k], b))
  {
    var p := cs[a].node[k];
    var ss1 := MovedSets(ss, a, p, b);
    assert Books(t, a, cs[a], ss[a]);
    assert p in Elems(cs[a].node);
    MovedPlaced(ss, a, p, b);
    if !t.notPlay[a] {
      var i := if k == 0 then 1 else 0;
      assert cs[a].node[i] in Elems(cs[a].node) && cs[a].node[i] != p;
      assert cs[a].node[i] in ss1[a];
    }
  }

  lemma MovedPlaced(ss: Sets, a: nat, p: nat, b: nat)
    requires a < |ss| && b < |ss| && a != b && p in ss[a]
    ensures forall q :: Placed(ss, q) <==> Placed(MovedSets(ss, a, p, b), q)
  {
    var ss1 := MovedSets(ss, a, p, b);
    forall q
      ensures Placed(ss, q) <==> Placed(ss1, q)
    {
      if q == p {
        assert p in ss[a] && p in ss1[b];
      } else {
        assert forall j :: 0 <= j < |ss| ==> (q in ss[j] <==> q in ss1[j]);
      }
    }
  }
}
