/** What assigning and rebalancing promise (KmeansAdjust, GreedSwitchAllPoint and Run in MyCluster.cpp):
    the nearest day, the best move, the order of moves, and what all of it keeps. */
module DayMoves {
  import opened Prelude
  import opened DayGroups

  type Matrix = seq<seq<int>>   // m_P2Cluster, by cluster and place

  ghost predicate Full(t: Trip, p2c: Matrix, n: nat) {
    n <= |p2c| && forall j :: 0 <= j < n ==> |p2c[j]| == t.points
  }

  lemma ColumnsFull(t: Trip, p2c: Matrix, n: nat)
    requires TripValid(t) && Columns(t, p2c) && n <= |p2c|
    ensures Full(t, p2c, n)
  {
  }

  // Assigning

  /** The first day at the least distance below infinity, or -1. */
  ghost function Home(t: Trip, p2c: Matrix, n: nat, p: nat): (h: int)
    requires Full(t, p2c, n) && p < t.points
    ensures -1 <= h < n && (h >= 0 ==> p2c[h][p] < INFINITE)
  {
    if n == 0 then -1
    else
      var h := Home(t, p2c, n - 1, p);
      if p2c[n - 1][p] < (if h < 0 then INFINITE else p2c[h][p]) then n - 1 else h
  }

  /** What Home means: no day is nearer, none before it is as near, and a place without a home is at
      infinite distance from every day. */
  lemma {:induction false} HomeNearest(t: Trip, p2c: Matrix, n: nat, p: nat)
    requires Full(t, p2c, n) && p < t.points
    ensures var h := Home(t, p2c, n, p);
            (h < 0 <==> forall j :: 0 <= j < n ==> p2c[j][p] >= INFINITE) &&
            (h >= 0 ==> forall j :: 0 <= j < n ==> p2c[h][p] <= p2c[j][p] && (j < h ==> p2c[h][p] < p2c[j][p]))
  {
    if n > 0 {
      HomeNearest(t, p2c, n - 1, p);
      var h := Home(t, p2c, n - 1, p);
      assert h < 0 ==> Home(t, p2c, n, p) == if p2c[n - 1][p] < INFINITE then n - 1 else -1;
    }
  }

  /** The first n places whose home is day j, in order. */
  ghost function Members(t: Trip, p2c: Matrix, days: nat, j: nat, n: nat): (s: seq<nat>)
    requires Full(t, p2c, days) && n <= t.points
  {
    if n == 0 then []
    else Members(t, p2c, days, j, n - 1) + if Home(t, p2c, days, n - 1) == j then [n - 1] else []
  }

  lemma {:induction false} MembersAre(t: Trip, p2c: Matrix, days: nat, j: nat, n: nat)
    requires Full(t, p2c, days) && n <= t.points
    ensures var s := Members(t, p2c, days, j, n);
            Distinct(s) && forall p: nat :: p in s <==> p < n && Home(t, p2c, days, p) == j
  {
    if n > 0 {
      MembersAre(t, p2c, days, j, n - 1);
      var s, last: seq<nat> := Members(t, p2c, days, j, n - 1), [n - 1];
      DistinctConcat(s, last);
    }
  }

  /** Every place is where its home is, and only there. */
  ghost predicate Adjusted(t: Trip, p2c: Matrix, days: nat, ss: Sets)
    requires Full(t, p2c, days)
  {
    forall j, p: nat :: 0 <= j < |ss| ==> (p in ss[j] <==> p < t.points && Home(t, p2c, days, p) == j)
  }

  lemma AdjustedOpen(t: Trip, p2c: Matrix, days: nat, ss: Sets)
    requires TripValid(t) && Full(t, p2c, days) && Columns(t, p2c) && Adjusted(t, p2c, days, ss)
    ensures AllOpen(t, ss)
  {
    forall j, p | 0 <= j < |ss| && p in ss[j]
      ensures j < |t.open| && p < |t.open[j]| && t.open[j][p]
    {
      assert p < t.points && Home(t, p2c, days, p) == j;
      assert SomeColumn(t, j, p2c[j]);
    }
  }

  /** A place is dropped exactly when every day is at infinite distance from it. */
  lemma DroppedExactly(t: Trip, p2c: Matrix, days: nat, ss: Sets, p: nat)
    requires Full(t, p2c, days) && days <= |ss| && Adjusted(t, p2c, days, ss) && p < t.points
    ensures !Placed(ss, p) <==> forall j :: 0 <= j < days ==> p2c[j][p] >= INFINITE
  {
    HomeNearest(t, p2c, days, p);
    var h := Home(t, p2c, days, p);
    if h >= 0 {
      assert p in ss[h];
    }
  }

  // Looking for a move

  /** A place that is not moved as long as any other can be: it costs nothing where it is, or is close
      to another place of its day. */
  ghost predicate Grouped(t: Trip, cs: Clusters, p2c: Matrix, c: nat, k: nat)
    requires c < |cs| == |p2c| && k < |cs[c].node| && cs[c].node[k] < |p2c[c]|
  {
    exists i :: 0 <= i < |cs[c].node| &&
      (p2c[c][cs[c].node[k]] == 0 || (i != k && t.dist(cs[c].node[k], cs[c].node[i]) <= 300))
  }

  ghost predicate Indexed(t: Trip, cs: Clusters, p2c: Matrix) {
    TripValid(t) && |cs| <= |t.blockDur| && |cs| == |p2c| && Full(t, p2c, |p2c|) &&
    forall j, p :: 0 <= j < |cs| && p in cs[j].node ==> p < t.points
  }

  lemma NodeIndexed(t: Trip, cs: Clusters, p2c: Matrix, c: nat, k: nat, j: nat)
    requires Indexed(t, cs, p2c) && c < |cs| && k < |cs[c].node| && j < |p2c|
    ensures cs[c].node[k] < |p2c[j]|
  {
    assert cs[c].node[k] in cs[c].node;
  }

  /** The k-th place of day c may go to day b. */
  ghost predicate CanGo(t: Trip, cs: Clusters, p2c: Matrix, care: bool, c: nat, k: nat, b: nat)
    requires Indexed(t, cs, p2c) && c < |cs| && k < |cs[c].node| && b < |cs|
  {
    NodeIndexed(t, cs, p2c, c, k, b);
    NodeIndexed(t, cs, p2c, c, k, c);
    var p := cs[c].node[k];
    |cs[c].node| > (if t.notPlay[c] then 0 else 1) && !(care && Grouped(t, cs, p2c, c, k)) &&
    cs[b].left >= Dur(t, p) && |cs[b].node| < t.limit && p2c[b][p] < INFINITE
  }

  ghost function Cost(t: Trip, cs: Clusters, p2c: Matrix, c: nat, k: nat, b: nat): int
    requires Indexed(t, cs, p2c) && c < |cs| && k < |cs[c].node| && b < |cs|
  {
    NodeIndexed(t, cs, p2c, c, k, b);
    p2c[b][cs[c].node[k]]
  }

  /** A move from a day: its place's index there, and the index of its target among the legal days. */
  datatype Move = Move(k: int, i: int)

  const NO_MOVE := Move(-1, -1)

  ghost predicate Targets(cs: Clusters, legal: seq<nat>) { forall i :: 0 <= i < |legal| ==> legal[i] < |cs| }

  /** Best move among those looked at before place k0 and target i0: cheapest, the first of its kind. */
  ghost predicate Best(t: Trip, cs: Clusters, p2c: Matrix, legal: seq<nat>, care: bool, c: nat, m: Move, k0: nat,
                       i0: nat)
    requires Indexed(t, cs, p2c) && Targets(cs, legal) && c < |cs|
  {
    (m == NO_MOVE || (0 <= m.k < |cs[c].node| && 0 <= m.i < |legal| && Earlier(m.k, m.i, k0, i0) &&
                     CanGo(t, cs, p2c, care, c, m.k, legal[m.i]))) &&
    forall k, i :: 0 <= k < |cs[c].node| && 0 <= i < |legal| && Earlier(k, i, k0, i0) &&
                   CanGo(t, cs, p2c, care, c, k, legal[i]) ==>
      m != NO_MOVE && Cheaper(t, cs, p2c, legal, c, m, k, i)
  }

  ghost predicate Earlier(k: int, i: int, k0: int, i0: int) { k < k0 || (k == k0 && i < i0) }

  /** m costs less than (k, i), or as much and comes no later. */
  ghost predicate Cheaper(t: Trip, cs: Clusters, p2c: Matrix, legal: seq<nat>, c: nat, m: Move, k: nat, i: nat)
    requires Indexed(t, cs, p2c) && Targets(cs, legal) && c < |cs|
    requires 0 <= m.k < |cs[c].node| && 0 <= m.i < |legal| && k < |cs[c].node| && i < |legal|
  {
    var x, y := Cost(t, cs, p2c, c, m.k, legal[m.i]), Cost(t, cs, p2c, c, k, legal[i]);
    x < y || (x == y && !Earlier(k, i, m.k, m.i))
  }

  lemma BestNextPlace(t: Trip, cs: Clusters, p2c: Matrix, legal: seq<nat>, care: bool, c: nat, m: Move, k: nat)
    requires Indexed(t, cs, p2c) && Targets(cs, legal) && c < |cs| && k < |cs[c].node|
    requires Best(t, cs, p2c, legal, care, c, m, k, |legal|) ||
             (Best(t, cs, p2c, legal, care, c, m, k, 0) &&
              forall i :: 0 <= i < |legal| ==> !CanGo(t, cs, p2c, care, c, k, legal[i]))
    ensures Best(t, cs, p2c, legal, care, c, m, k + 1, 0)
  {
  }

  /** A legal day stays legal when a place that fits is added to it, and no place reaches a closed day. */
  lemma MovedOpen(t: Trip, ss: Sets, p2c: Matrix, a: nat, p: nat, b: nat)
    requires TripValid(t) && Columns(t, p2c) && |ss| == |p2c| && AllOpen(t, ss)
    requires a < |ss| && b < |ss| && a != b && p < t.points && |p2c[b]| == t.points && p2c[b][p] < INFINITE
    ensures AllOpen(t, MovedSets(ss, a, p, b))
  {
  }

  /** How the moving out of a day ended: it is legal, nothing can be moved out of it any more, or the
      last place moved was taken out of a group, after which the code stops. */
  datatype End = Fits | NoRoom | Forced

  /** No place of day c can go to any of the legal days. */
  ghost predicate Blocked(t: Trip, cs: Clusters, p2c: Matrix, legal: seq<nat>, c: nat)
    requires Indexed(t, cs, p2c) && Targets(cs, legal) && c < |cs|
  {
    forall k, i :: 0 <= k < |cs[c].node| && 0 <= i < |legal| ==> !CanGo(t, cs, p2c, false, c, k, legal[i])
  }

  /** The move one turn makes: the best among places that stand alone, or if there is none and only
      then the best among all. */
  ghost predicate Chosen(t: Trip, cs: Clusters, p2c: Matrix, legal: seq<nat>, c: nat, m: Move, end: End)
    requires Indexed(t, cs, p2c) && Targets(cs, legal) && c < |cs|
  {
    var n := |cs[c].node|;
    match end
    case Fits => m != NO_MOVE && Best(t, cs, p2c, legal, true, c, m, n, 0)
    case Forced => m != NO_MOVE && Best(t, cs, p2c, legal, true, c, NO_MOVE, n, 0)
        && Best(t, cs, p2c, legal, false, c, m, n, 0)
    case NoRoom => m == NO_MOVE && Best(t, cs, p2c, legal, false, c, m, n, 0)
  }

  /** Days, sets and distances at one time. */
  datatype Groups = Groups(cs: Clusters, ss: Sets, p2c: Matrix)

  /** Both days of a move got the distances of their new centres, the others kept theirs. */
  ghost predicate Renewed(t: Trip, p0: Matrix, p1: Matrix, ss: Sets, a: nat, b: nat)
    requires TripValid(t) && |p0| <= |t.open| && a < |ss| && b < |ss| && |ss| == |p0|
  {
    |p1| == |p0| && IsColumn(t, a, ss[a], p1[a]) && IsColumn(t, b, ss[b], p1[b]) &&
    forall j :: 0 <= j < |p1| && j != a && j != b ==> p1[j] == p0[j]
  }

  /** One turn of the loop over day c: the chosen move is made. */
  ghost predicate Turn(t: Trip, legal: seq<nat>, c: nat, g: Groups, g1: Groups, m: Move, end: End) {
    Indexed(t, g.cs, g.p2c) && Targets(g.cs, legal) && c < |g.cs| == |g.ss| && !Legal(t, g.cs[c]) &&
    Chosen(t, g.cs, g.p2c, legal, c, m, end) &&
    if m == NO_MOVE then g1 == g
    else
      var b := legal[m.i];
      g1.cs == Moved(t, g.cs, c, m.k, b) && g1.ss == MovedSets(g.ss, c, g.cs[c].node[m.k], b) &&
      Renewed(t, g.p2c, g1.p2c, g1.ss, c, b)
  }

  /** g1 is what n turns make of g; all but the last left places that stand alone to be moved. */
  ghost predicate Turns(t: Trip, legal: seq<nat>, c: nat, g: Groups, g1: Groups, end: End, n: nat)
    decreases n
  {
    if n == 0 then g1 == g && end == Fits
    else
      var before := n - 1;
      exists g0, m :: Turns(t, legal, c, g, g0, Fits, before) && Turn(t, legal, c, g0, g1, m, end)
  }

  /** Turns, for the methods: stated so that nobody has to look into it. */
  ghost predicate AfterTurns(t: Trip, legal: seq<nat>, c: nat, g: Groups, g1: Groups, end: End, n: nat) {
    forall k :: k == n ==> Turns(t, legal, c, g, g1, end, k)
  }

  /** The whole loop over day c: it goes on until the day is legal or a turn says stop. */
  ghost predicate Trimmed(t: Trip, legal: seq<nat>, c: nat, g: Groups, g1: Groups) {
    c < |g1.cs| && exists end, n :: Turns(t, legal, c, g, g1, end, n) && (Legal(t, g1.cs[c]) || !end.Fits?)
  }

  /** g1 is what trimming the first n days of the order, one after the other, makes of g. */
  ghost predicate TrimmedAll(t: Trip, legal: seq<nat>, order: seq<nat>, g: Groups, g1: Groups, n: nat)
    requires n <= |order|
    decreases n
  {
    if n == 0 then g1 == g
    else
      var before, c := n - 1, order[n - 1];
      exists g0 :: TrimmedAll(t, legal, order, g, g0, before) && Trimmed(t, legal, c, g0, g1)
  }

  /** TrimmedAll, for the methods. */
  ghost predicate AfterDays(t: Trip, legal: seq<nat>, order: seq<nat>, g: Groups, g1: Groups, n: nat) {
    n <= |order| && forall k: nat :: k == n ==> TrimmedAll(t, legal, order, g, g1, k)
  }

  /** What rebalancing does: the overfull days, those with the least time left first, are trimmed once
      each, and places go to the days that were legal, which are tried in their order. */
  ghost predicate Rebalanced(t: Trip, legal: seq<nat>, order: seq<nat>, g: Groups, g1: Groups) {
    (forall j: nat :: j in legal <==> j < |g.cs| && Legal(t, g.cs[j])) &&
    (forall i, j :: 0 <= i < j < |legal| ==> legal[i] < legal[j]) &&
    (forall j: nat :: j in order <==> j < |g.cs| && !Legal(t, g.cs[j])) &&
    Distinct(order) && ByLeft(g.cs, order) && TrimmedAll(t, legal, order, g, g1, |order|)
  }

  ghost predicate SettledAt(t: Trip, g: Groups) {
    TripValid(t) && |g.cs| == |g.ss| == |g.p2c| <= |t.blockDur| && Columns(t, g.p2c) &&
    Inv(t, g.cs, g.ss) && AllOpen(t, g.ss)
  }

  ghost predicate AllLegalAt(t: Trip, cs: Clusters, legal: seq<nat>) {
    forall j :: j in legal ==> j < |cs| && Legal(t, cs[j])
  }

  /** What trimming may start from: settled days, and legal ones among them. */
  ghost predicate Ready(t: Trip, legal: seq<nat>, g: Groups) {
    SettledAt(t, g) && Targets(g.cs, legal) && AllLegalAt(t, g.cs, legal)
  }

  /** Everything that trimming keeps. */
  ghost predicate Kept(t: Trip, legal: seq<nat>, g: Groups, g1: Groups) {
    Ready(t, legal, g1) && |g1.cs| == |g.cs| && Keeps(t, Elems(legal), g.cs, g.ss, g1.cs, g1.ss)
  }

  /** One round of Run from the centres of the sets in basis: mid is what KmeansAdjust makes of them and
      g1 what rebalancing makes of mid. */
  ghost predicate Rounded(t: Trip, days: nat, basis: Sets, mid: Groups, g1: Groups) {
    TripValid(t) && |basis| == |mid.p2c| == |mid.cs| <= |t.open| && Full(t, mid.p2c, days) &&
    (forall j :: 0 <= j < |basis| ==> IsColumn(t, j, basis[j], mid.p2c[j])) &&
    Inv(t, mid.cs, mid.ss) && Adjusted(t, mid.p2c, days, mid.ss) &&
    exists legal, order :: Rebalanced(t, legal, order, mid, g1)
  }

  /** Day j takes place p, at this distance from its centre: none for a day without play. */
  ghost predicate Takes(t: Trip, basis: Sets, j: nat, p: nat, dist: int)
    requires TripValid(t)
  {
    j < |basis| && j < |t.open| && p < t.points && t.open[j][p] && dist < INFINITE &&
    if t.notPlay[j] then dist == 0 else dist == t.near(basis[j], p)
  }

  /** A round puts every place into a day that is open for it and nearest to it: no other open day is nearer, none
      before it is as near. A place that no open day is near enough to is dropped. */
  lemma RoundNearest(t: Trip, days: nat, basis: Sets, mid: Groups, g1: Groups, p: nat)
    requires Rounded(t, days, basis, mid, g1) && days <= |basis| == |mid.ss| && p < t.points
    ensures forall h: nat :: h < |mid.ss| && p in mid.ss[h] ==>
      h < days && exists dist :: Takes(t, basis, h, p, dist) && NoneNearer(t, basis, days, h, p, dist)
    ensures !Placed(mid.ss, p) <==> forall j: nat, dist: int :: j < days ==> !Takes(t, basis, j, p, dist)
  {
    var home := Home(t, mid.p2c, days, p);
    HomeNearest(t, mid.p2c, days, p);
    DroppedExactly(t, mid.p2c, days, mid.ss, p);
    forall j: nat, dist | j < days
      ensures Takes(t, basis, j, p, dist) <==> mid.p2c[j][p] == dist && dist < INFINITE
    {
      assert IsColumn(t, j, basis[j], mid.p2c[j]);
    }
    forall h: nat | h < |mid.ss| && p in mid.ss[h]
      ensures h < days && exists dist :: Takes(t, basis, h, p, dist) && NoneNearer(t, basis, days, h, p, dist)
    {
      assert home == h;
      assert Takes(t, basis, h, p, mid.p2c[h][p]) && NoneNearer(t, basis, days, h, p, mid.p2c[h][p]);
    }
    if forall j: nat, dist: int :: j < days ==> !Takes(t, basis, j, p, dist) {
      forall j: nat | j < days
        ensures mid.p2c[j][p] >= INFINITE
      {
        assert !Takes(t, basis, j, p, mid.p2c[j][p]);
      }
    }
  }

  ghost predicate NoneNearer(t: Trip, basis: Sets, days: nat, h: nat, p: nat, dist: int)
    requires TripValid(t)
  {
    forall j: nat, other: int :: j < days && Takes(t, basis, j, p, other) ==> dist <= other && (j < h ==> dist < other)
  }

  /** ss is what n rounds make of the initial sets. */
  ghost predicate Rounds(t: Trip, days: nat, init: Sets, ss: Sets, n: nat)
    decreases n
  {
    if n == 0 then ss == init
    else
      var before := n - 1;
      exists basis, mid, g1 :: Rounds(t, days, init, basis, before) && Rounded(t, days, basis, mid, g1) && g1.ss == ss
  }

  /** Rounds, stated so that the methods need not look into it. */
  ghost predicate AfterRounds(t: Trip, days: nat, init: Sets, ss: Sets, n: nat) {
    forall k :: k == n ==> Rounds(t, days, init, ss, k)
  }

  lemma NoRounds(t: Trip, days: nat, init: Sets)
    ensures AfterRounds(t, days, init, init, 0)
  {
  }

  lemma RoundAfter(t: Trip, days: nat, init: Sets, basis: Sets, mid: Groups, g1: Groups, before: nat)
    requires AfterRounds(t, days, init, basis, before) && Rounded(t, days, basis, mid, g1)
    ensures AfterRounds(t, days, init, g1.ss, before + 1)
  {
    assert Rounds(t, days, init, basis, before);
    assert Rounds(t, days, init, g1.ss, before + 1);
  }

  lemma SameColumns(t: Trip, basis: Sets, p: Matrix, q: Matrix)
    requires TripValid(t) && |p| == |q| == |basis| <= |t.open|
    requires forall j :: 0 <= j < |basis| ==> IsColumn(t, j, basis[j], p[j]) && IsColumn(t, j, basis[j], q[j])
    ensures p == q
  {
    forall j | 0 <= j < |p|
      ensures p[j] == q[j]
    {
      assert IsColumn(t, j, basis[j], p[j]) && IsColumn(t, j, basis[j], q[j]);
    }
  }

  lemma KeptSelf(t: Trip, legal: seq<nat>, g: Groups)
    requires Ready(t, legal, g)
    ensures Kept(t, legal, g, g)
  {
  }

  lemma KeptTrans(t: Trip, legal: seq<nat>, g: Groups, g1: Groups, g2: Groups)
    requires TripValid(t) && Kept(t, legal, g, g1) && Kept(t, legal, g1, g2)
    ensures Kept(t, legal, g, g2)
  {
    KeepsTrans(t, Elems(legal), g.cs, g.ss, g1.cs, g1.ss, g2.cs, g2.ss);
  }

  lemma RenewedColumns(t: Trip, p0: Matrix, p1: Matrix, ss: Sets, a: nat, b: nat)
    requires TripValid(t) && Columns(t, p0) && a < |ss| && b < |ss| && |ss| == |p0| && Renewed(t, p0, p1, ss, a, b)
    ensures Columns(t, p1)
  {
    forall j | 0 <= j < |p1|
      ensures SomeColumn(t, j, p1[j])
    {
      assert SomeColumn(t, j, p0[j]);
    }
  }

  lemma TurnKeeps(t: Trip, legal: seq<nat>, c: nat, g: Groups, g1: Groups, m: Move, end: End)
    requires Ready(t, legal, g) && c !in legal && Turn(t, legal, c, g, g1, m, end)
    ensures Kept(t, legal, g, g1)
  {
    if m == NO_MOVE {
      KeptSelf(t, legal, g);
    } else {
      MoveKeeps(t, legal, c, g, g1, m, end.Fits?);
    }
  }

  lemma MoveKeeps(t: Trip, legal: seq<nat>, c: nat, g: Groups, g1: Groups, m: Move, care: bool)
    requires Ready(t, legal, g) && c !in legal && c < |g.cs| && Indexed(t, g.cs, g.p2c)
    requires 0 <= m.k < |g.cs[c].node| && 0 <= m.i < |legal| && CanGo(t, g.cs, g.p2c, care, c, m.k, legal[m.i])
    requires g1.cs == Moved(t, g.cs, c, m.k, legal[m.i])
    requires g1.ss == MovedSets(g.ss, c, g.cs[c].node[m.k], legal[m.i])
    requires Renewed(t, g.p2c, g1.p2c, g1.ss, c, legal[m.i])
    ensures Kept(t, legal, g, g1)
  {
    var b, p := legal[m.i], g.cs[c].node[m.k];
    assert b in legal;
    NodeIndexed(t, g.cs, g.p2c, c, m.k, b);
    MovedInv(t, g.cs, g.ss, c, m.k, b);
    MovedKeeps(t, Elems(legal), g.cs, g.ss, c, m.k, b);
    MovedOpen(t, g.ss, g.p2c, c, p, b);
    RenewedColumns(t, g.p2c, g1.p2c, g1.ss, c, b);
    KeptLegal(t, legal, g, g1);
  }

  lemma KeptLegal(t: Trip, legal: seq<nat>, g: Groups, g1: Groups)
    requires TripValid(t) && Targets(g.cs, legal) && Keeps(t, Elems(legal), g.cs, g.ss, g1.cs, g1.ss)
    ensures AllLegalAt(t, g1.cs, legal) && Targets(g1.cs, legal)
  {
    forall j | j in legal
      ensures j < |g1.cs| && Legal(t, g1.cs[j])
    {
      assert j in Elems(legal);
      assert KeepsDay(t, j, true, g.ss[j], g1.cs[j], g1.ss[j]);
    }
  }

  lemma OneMoreTurn(t: Trip, legal: seq<nat>, c: nat, g: Groups, g0: Groups, g1: Groups, m: Move, end: End)
    requires c !in legal && Kept(t, legal, g, g0) && Turn(t, legal, c, g0, g1, m, end)
    ensures Kept(t, legal, g, g1)
  {
    TurnKeeps(t, legal, c, g0, g1, m, end);
    KeptTrans(t, legal, g, g0, g1);
  }

  lemma LastTurn(t: Trip, legal: seq<nat>, c: nat, g: Groups, g1: Groups, end: End, before: nat)
    returns (g0: Groups, m: Move)
    requires AfterTurns(t, legal, c, g, g1, end, before + 1)
    ensures AfterTurns(t, legal, c, g, g0, Fits, before) && Turn(t, legal, c, g0, g1, m, end)
  {
    assert Turns(t, legal, c, g, g1, end, before + 1);
    g0, m :| Turns(t, legal, c, g, g0, Fits, before) && Turn(t, legal, c, g0, g1, m, end);
  }

  lemma {:induction false} TurnsKeep(t: Trip, legal: seq<nat>, c: nat, g: Groups, g1: Groups, end: End, n: nat)
    requires Ready(t, legal, g) && c !in legal && AfterTurns(t, legal, c, g, g1, end, n)
    ensures Kept(t, legal, g, g1)
    decreases n
  {
    if n == 0 {
      assert Turns(t, legal, c, g, g1, end, 0);
      KeptSelf(t, legal, g);
    } else {
      var before := n - 1;
      var g0, m := LastTurn(t, legal, c, g, g1, end, before);
      TurnsKeep(t, legal, c, g, g0, Fits, before);
      OneMoreTurn(t, legal, c, g, g0, g1, m, end);
    }
  }

  lemma {:induction false} TrimmedAllKeeps(t: Trip, legal: seq<nat>, order: seq<nat>, g: Groups, g1: Groups, n: nat)
    requires n <= |order| && Ready(t, legal, g) && forall i :: 0 <= i < |order| ==> order[i] !in legal
    requires TrimmedAll(t, legal, order, g, g1, n)
    ensures Kept(t, legal, g, g1)
    decreases n
  {
    if n == 0 {
      KeptSelf(t, legal, g);
    } else {
      var before, c := n - 1, order[n - 1];
      var g0 :| TrimmedAll(t, legal, order, g, g0, before) && Trimmed(t, legal, c, g0, g1);
      TrimmedAllKeeps(t, legal, order, g, g0, before);
      TrimmedKeeps(t, legal, c, g0, g1);
      KeptTrans(t, legal, g, g0, g1);
    }
  }

  lemma TrimmedKeeps(t: Trip, legal: seq<nat>, c: nat, g: Groups, g1: Groups)
    requires Ready(t, legal, g) && c !in legal && Trimmed(t, legal, c, g, g1)
    ensures Kept(t, legal, g, g1)
  {
    var end, n :| Turns(t, legal, c, g, g1, end, n);
    TurnsKeep(t, legal, c, g, g1, end, n);
  }

  /** Rebalancing loses no place and adds none, keeps legal days legal, empties no day that can be played,
      and brings no place into a day that is closed for it. */
  lemma RebalancedKeeps(t: Trip, legal: seq<nat>, order: seq<nat>, g: Groups, g1: Groups)
    requires SettledAt(t, g) && Rebalanced(t, legal, order, g, g1)
    ensures Kept(t, legal, g, g1)
  {
    assert forall i :: 0 <= i < |legal| ==> legal[i] in legal;
    assert forall i :: 0 <= i < |order| ==> order[i] in order;
    TrimmedAllKeeps(t, legal, order, g, g1, |order|);
  }

  /** A day whose trimming ended without a last move has no place left that could go. */
  lemma TurnBlocked(t: Trip, legal: seq<nat>, c: nat, g: Groups, g1: Groups, m: Move)
    requires Turn(t, legal, c, g, g1, m, NoRoom)
    ensures g1 == g && Blocked(t, g1.cs, g1.p2c, legal, c)
  {
    NothingFound(t, g.cs, g.p2c, legal, c);
  }

  lemma TrimmedAfter(t: Trip, legal: seq<nat>, order: seq<nat>, g: Groups, g0: Groups, g1: Groups, n: nat, end: End,
                     k: nat)
    requires n < |order| && AfterDays(t, legal, order, g, g0, n) && AfterTurns(t, legal, order[n], g0, g1, end, k)
    requires order[n] < |g1.cs| && (Legal(t, g1.cs[order[n]]) || !end.Fits?)
    ensures AfterDays(t, legal, order, g, g1, n + 1)
  {
    assert TrimmedAll(t, legal, order, g, g0, n) && Turns(t, legal, order[n], g0, g1, end, k);
    assert Trimmed(t, legal, order[n], g0, g1);
  }

  lemma TurnAfter(t: Trip, legal: seq<nat>, c: nat, g: Groups, g0: Groups, g1: Groups, m: Move, end: End, n: nat)
    requires AfterTurns(t, legal, c, g, g0, Fits, n) && Turn(t, legal, c, g0, g1, m, end)
    ensures AfterTurns(t, legal, c, g, g1, end, n + 1)
  {
    assert Turns(t, legal, c, g, g0, Fits, n);
  }

  lemma NoTurns(t: Trip, legal: seq<nat>, c: nat, order: seq<nat>, g: Groups)
    ensures AfterTurns(t, legal, c, g, g, Fits, 0) && AfterDays(t, legal, order, g, g, 0)
  {
  }

  lemma ReadyTurns(t: Trip, legal: seq<nat>, c: nat, g: Groups, g1: Groups, end: End, n: nat)
    requires Ready(t, legal, g) && c !in legal && AfterTurns(t, legal, c, g, g1, end, n)
    ensures Ready(t, legal, g1) && |g1.cs| == |g.cs|
  {
    TurnsKeep(t, legal, c, g, g1, end, n);
  }

  lemma ReadyDays(t: Trip, legal: seq<nat>, order: seq<nat>, g: Groups, g1: Groups, n: nat)
    requires Ready(t, legal, g) && (forall i :: 0 <= i < |order| ==> order[i] !in legal)
        && AfterDays(t, legal, order, g, g1, n)
    ensures Ready(t, legal, g1) && |g1.cs| == |g.cs|
  {
    assert TrimmedAll(t, legal, order, g, g1, n);
    TrimmedAllKeeps(t, legal, order, g, g1, n);
  }

  lemma NothingFound(t: Trip, cs: Clusters, p2c: Matrix, legal: seq<nat>, c: nat)
    requires Indexed(t, cs, p2c) && Targets(cs, legal) && c < |cs|
    requires Best(t, cs, p2c, legal, false, c, NO_MOVE, |cs[c].node|, 0)
    ensures Blocked(t, cs, p2c, legal, c)
  {
  }

  ghost predicate ByLeft(cs: Clusters, r: seq<nat>) {
    (forall i :: 0 <= i < |r| ==> r[i] < |cs|) &&
    forall i, j :: 0 <= i < j < |r| ==> r[i] < |cs| && r[j] < |cs| && cs[r[i]].left <= cs[r[j]].left
  }

  lemma InsertedByLeft(cs: Clusters, r0: seq<nat>, k: nat, x: nat)
    requires k <= |r0| && x < |cs| && ByLeft(cs, r0)
    requires forall i :: 0 <= i < k ==> cs[r0[i]].left <= cs[x].left
    requires k < |r0| ==> cs[x].left <= cs[r0[k]].left
    ensures var r := r0[..k] + [x] + r0[k..];
            ByLeft(cs, r) && Elems(r) == Elems(r0) + {x}
  {
  }

  lemma InsertedDistinct(r0: seq<nat>, k: nat, x: nat)
    requires k <= |r0| && Distinct(r0) && x !in r0
    ensures Distinct(r0[..k] + [x] + r0[k..])
  {
    var r := r0[..k] + [x] + r0[k..];
    assert forall i :: 0 <= i < |r| && i != k ==> r[i] == r0[if i < k then i else i - 1];
  }
}
