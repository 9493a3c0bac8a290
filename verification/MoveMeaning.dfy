/** The moves of GreedSwitchAllPoint, said in terms of times, places and distances: which places may move, which
    move is made, and what it does to the two days. */
module MoveMeaning {
  import opened Prelude
  import opened DayGroups
  import opened DayMoves

  /** A place may go to another day if its own keeps a place or is without play, and the other has time and
      room for it and is not at infinite distance. With care it also has to cost something where it is, and
      to be more than 300 away from every other place of its day. */
  lemma CanGoMeans(t: Trip, cs: Clusters, p2c: Matrix, care: bool, c: nat, k: nat, b: nat)
    requires Indexed(t, cs, p2c) && c < |cs| && k < |cs[c].node| && b < |cs|
    ensures var node := cs[c].node;
            var p := node[k];
            p < t.points == |t.dur| == |p2c[b]| == |p2c[c]| &&
            (CanGo(t, cs, p2c, care, c, k, b) <==>
              (|node| > 1 || t.notPlay[c]) && t.dur[p] <= cs[b].left && |cs[b].node| < t.limit &&
              p2c[b][p] < 99999999 &&
              (care ==> p2c[c][p] != 0 && forall i :: 0 <= i < |node| && i != k ==> t.dist(p, node[i]) > 300))
  {
    NodeIndexed(t, cs, p2c, c, k, b);
    NodeIndexed(t, cs, p2c, c, k, c);
    if p2c[c][cs[c].node[k]] == 0 {
      assert Grouped(t, cs, p2c, c, k);
    }
  }

  /** No other move that is possible with that care is cheaper, and none before this one costs as little. */
  ghost predicate CheapestMove(t: Trip, cs: Clusters, p2c: Matrix, legal: seq<nat>, care: bool, c: nat, m: Move)
    requires Indexed(t, cs, p2c) && Targets(cs, legal) && c < |cs|
  {
    0 <= m.k < |cs[c].node| && 0 <= m.i < |legal| && CanGo(t, cs, p2c, care, c, m.k, legal[m.i]) &&
    forall k, i :: 0 <= k < |cs[c].node| && 0 <= i < |legal| && CanGo(t, cs, p2c, care, c, k, legal[i]) ==>
      NoDearer(t, cs, p2c, legal, c, m, k, i)
  }

  ghost predicate NoDearer(t: Trip, cs: Clusters, p2c: Matrix, legal: seq<nat>, c: nat, m: Move, k: nat, i: nat)
    requires Indexed(t, cs, p2c) && Targets(cs, legal) && c < |cs|
    requires 0 <= m.k < |cs[c].node| && 0 <= m.i < |legal| && k < |cs[c].node| && i < |legal|
  {
    NodeIndexed(t, cs, p2c, c, m.k, legal[m.i]);
    NodeIndexed(t, cs, p2c, c, k, legal[i]);
    var x, y := p2c[legal[m.i]][cs[c].node[m.k]], p2c[legal[i]][cs[c].node[k]];
    x < y || (x == y && (m.k < k || (m.k == k && m.i <= i)))
  }

  /** Nothing is possible with that care. */
  ghost predicate NoMove(t: Trip, cs: Clusters, p2c: Matrix, legal: seq<nat>, care: bool, c: nat)
    requires Indexed(t, cs, p2c) && Targets(cs, legal) && c < |cs|
  {
    forall k, i :: 0 <= k < |cs[c].node| && 0 <= i < |legal| ==> !CanGo(t, cs, p2c, care, c, k, legal[i])
  }

  lemma BestMeans(t: Trip, cs: Clusters, p2c: Matrix, legal: seq<nat>, care: bool, c: nat, m: Move)
    requires Indexed(t, cs, p2c) && Targets(cs, legal) && c < |cs|
    ensures Best(t, cs, p2c, legal, care, c, m, |cs[c].node|, 0) <==>
            if m == NO_MOVE then NoMove(t, cs, p2c, legal, care, c) else CheapestMove(t, cs, p2c, legal, care, c, m)
  {
    var n := |cs[c].node|;
    if Best(t, cs, p2c, legal, care, c, m, n, 0) && m != NO_MOVE {
      forall k, i | 0 <= k < n && 0 <= i < |legal| && CanGo(t, cs, p2c, care, c, k, legal[i])
        ensures NoDearer(t, cs, p2c, legal, c, m, k, i)
      {
        assert Earlier(k, i, n, 0);
      }
    }
    if CheapestMove(t, cs, p2c, legal, care, c, m) {
      forall k, i | 0 <= k < n && 0 <= i < |legal| && CanGo(t, cs, p2c, care, c, k, legal[i])
        ensures Cheaper(t, cs, p2c, legal, c, m, k, i)
      {
        assert NoDearer(t, cs, p2c, legal, c, m, k, i);
      }
    }
  }

  /** What one turn chooses: the cheapest careful move; if there is none, the cheapest of all, after which
      the trimming of the day ends; and nothing exactly when nothing is possible. */
  lemma ChosenMeans(t: Trip, cs: Clusters, p2c: Matrix, legal: seq<nat>, c: nat, m: Move, end: End)
    requires Indexed(t, cs, p2c) && Targets(cs, legal) && c < |cs|
    ensures Chosen(t, cs, p2c, legal, c, m, end) <==>
            match end
            case Fits => CheapestMove(t, cs, p2c, legal, true, c, m)
            case Forced => NoMove(t, cs, p2c, legal, true, c) && CheapestMove(t, cs, p2c, legal, false, c, m)
            case NoRoom => m == NO_MOVE && NoMove(t, cs, p2c, legal, false, c)
  {
    BestMeans(t, cs, p2c, legal, true, c, m);
    BestMeans(t, cs, p2c, legal, false, c, m);
    BestMeans(t, cs, p2c, legal, true, c, NO_MOVE);
  }

  /** A place leaves its day, whose other places keep their order, and comes last in the new one; its time
      goes with it, and no other day changes. */
  lemma MovedMeans(t: Trip, cs: Clusters, ss: Sets, a: nat, k: nat, b: nat)
    requires a < |cs| == |ss| && b < |cs| && a != b && k < |cs[a].node| && cs[a].node[k] < |t.dur|
    ensures var p := cs[a].node[k];
            var cs1, ss1 := Moved(t, cs, a, k, b), MovedSets(ss, a, p, b);
            |cs1| == |ss1| == |cs| &&
            cs1[a].node == cs[a].node[..k] + cs[a].node[k + 1..] && cs1[b].node == cs[b].node + [p] &&
            cs1[a].duration == cs[a].duration - t.dur[p] && cs1[b].duration == cs[b].duration + t.dur[p] &&
            cs1[a].left == cs[a].left + t.dur[p] && cs1[b].left == cs[b].left - t.dur[p] &&
            ss1[a] == ss[a] - {p} && ss1[b] == ss[b] + {p} &&
            forall j :: 0 <= j < |cs| && j != a && j != b ==> cs1[j] == cs[j] && ss1[j] == ss[j]
  {
  }

  /** The time a day is booked for is that of its places. */
  lemma {:induction false} TotalMeans(t: Trip, node: seq<nat>)
    requires forall i :: 0 <= i < |node| ==> node[i] < |t.dur|
    ensures Total(t, node) == SumOf(Times(t, node))
  {
    if node != [] {
      var last := |node| - 1;
      TotalMeans(t, node[..last]);
      SumOfSnoc(Times(t, node[..last]), t.dur[node[last]]);
      assert Times(t, node) == Times(t, node[..last]) + [t.dur[node[last]]];
    }
  }

  ghost function Times(t: Trip, node: seq<nat>): seq<int>
    requires forall i :: 0 <= i < |node| ==> node[i] < |t.dur|
  {
    seq(|node|, i requires 0 <= i < |node| => t.dur[node[i]])
  }

  ghost predicate Ascends(s: seq<nat>, n: nat) {
    (forall i :: 0 <= i < |s| ==> s[i] < n) && forall i, k :: 0 <= i < k < |s| ==> s[i] < s[k]
  }

  lemma AscendsNext(s: seq<nat>, n: nat)
    requires Ascends(s, n)
    ensures Ascends(s, n + 1) && Ascends(s + [n], n + 1) && Ascends(s + [], n + 1)
  {
    assert s + [] == s;
  }

  /** A round lists a day's places in the order of their numbers. */
  lemma {:induction false} MembersAscend(t: Trip, p2c: Matrix, days: nat, j: nat, n: nat)
    requires Full(t, p2c, days) && n <= t.points
    ensures Ascends(Members(t, p2c, days, j, n), n)
  {
    if n > 0 {
      MembersAscend(t, p2c, days, j, n - 1);
      AscendsNext(Members(t, p2c, days, j, n - 1), n - 1);
    }
  }
}
