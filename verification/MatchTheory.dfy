/** How far the matching of SetReferOriginViews can be relied on: exactly which trips are short enough
    for it to be stable, and when a stable matching is the only one. */
module MatchTheory {
  import opened Prelude
  import opened ReferMatching

  // ----- Trip lengths

  function Lengths(trips: seq<seq<Stay>>): (r: seq<nat>)
    ensures |r| == |trips| && forall i :: 0 <= i < |trips| ==> r[i] == |trips[i]|
  {
    seq(|trips|, i requires 0 <= i < |trips| => |trips[i]|)
  }

  /** Whatever the requests and the stays of trips of these lengths are, what is written is stable. */
  ghost predicate AlwaysStable(lens: seq<nat>) {
    forall reqs, trips, tour, list, picked, origin ::
      Outcome(reqs, trips, tour, list, picked, origin) && Lengths(trips) == lens ==> Stable(reqs, trips, tour, origin)
  }

  /** Trips of these lengths with a single stay in city A, the hundredth of trip i. */
  function OneStay(lens: seq<nat>, i: nat): (trips: seq<seq<Stay>>)
    ensures |trips| == |lens| && forall t :: 0 <= t < |lens| ==> |trips[t]| == lens[t]
    ensures forall t, r :: 0 <= t < |lens| && 0 <= r < lens[t] ==>
              trips[t][r] == Stay(if t == i && r == 100 then "A" else "B", 0, false)
  {
    seq(|lens|, t requires 0 <= t < |lens| =>
      seq(lens[t], r requires 0 <= r < lens[t] => Stay(if t == i && r == 100 then "A" else "B", 0, false)))
  }

  const ASK: seq<Stay> := [Stay("A", 0, false)]

  lemma OneStayCand(lens: seq<nat>, i: nat, c: Cand)
    requires i < |lens| && lens[i] > 101
    ensures IsCand(ASK, OneStay(lens, i), false, c) <==> c == Cand(0, 0, i, 100)
  {
    assert "A"[0] != "B"[0];
  }

  /** A longer trip: the only view that fits is written as the end of the next trip. */
  lemma LongTripWritten(lens: seq<nat>, i: nat)
    requires i < |lens| && lens[i] > 101
    ensures Outcome(ASK, OneStay(lens, i), false, [Cand(0, 0, i, 100)], [true], [Some((i + 1, 0))])
    ensures !Stable(ASK, OneStay(lens, i), false, [Some((i + 1, 0))])
  {
    var trips, list, picked := OneStay(lens, i), [Cand(0, 0, i, 100)], [true];
    var origin: Origin := [Some((i + 1, 0))];
    forall c
      ensures c in list <==> IsCand(ASK, trips, false, c)
    {
      OneStayCand(lens, i, c);
    }
    assert Decode(Code(list[0])) == (i + 1, 0);
    assert 0 in PickedReqs(list, picked);
    assert !Compatible(ASK, trips, false, 0, i + 1, 0);
    assert origin[0].value == (i + 1, 0);
  }

  /** What is written is stable for all requests and all stays exactly when no trip has more than 101 stays. */
  lemma StableExactly(lens: seq<nat>)
    ensures AlwaysStable(lens) <==> forall i :: 0 <= i < |lens| ==> lens[i] <= 101
  {
    if forall i :: 0 <= i < |lens| ==> lens[i] <= 101 {
      forall reqs, trips, tour, list, picked, origin |
        Outcome(reqs, trips, tour, list, picked, origin) && Lengths(trips) == lens
        ensures Stable(reqs, trips, tour, origin)
      {
        MatchingStable(reqs, trips, tour, list, picked, origin);
      }
    } else {
      var i :| 0 <= i < |lens| && lens[i] > 101;
      LongTripWritten(lens, i);
      assert Lengths(OneStay(lens, i)) == lens;
    }
  }

  // ----- Uniqueness

  /** No two candidates that share a request or a stay have the same difference. */
  ghost predicate TieFree(reqs: seq<Stay>, trips: seq<seq<Stay>>, tour: bool) {
    forall a, b :: IsCand(reqs, trips, tour, a) && IsCand(reqs, trips, tour, b) && Rivals(a, b) ==> a.diff != b.diff
  }

  ghost predicate Rivals(a: Cand, b: Cand) {
    a != b && (a.req == b.req || (a.trip == b.trip && a.route == b.route))
  }

  ghost predicate Uses(origin: Origin, c: Cand) { UsedBy(origin, c.req, c.trip, c.route) }

  /** A stable matching uses a candidate, or a rival of smaller difference. */
  lemma BetterRival(reqs: seq<Stay>, trips: seq<seq<Stay>>, tour: bool, origin: Origin, c: Cand) returns (m: Cand)
    requires TieFree(reqs, trips, tour) && Stable(reqs, trips, tour, origin)
    requires IsCand(reqs, trips, tour, c) && !Uses(origin, c)
    ensures IsCand(reqs, trips, tour, m) && Uses(origin, m) && Rivals(m, c) && m.diff < c.diff
  {
    assert Settled(reqs, trips, tour, origin, c);
    m :| IsCand(reqs, trips, tour, m) && UsedBy(origin, m.req, m.trip, m.route) && m.diff <= c.diff
         && (m.req == c.req || (m.trip == c.trip && m.route == c.route));
    assert Rivals(m, c);
  }

  /** A stable matching does not use two rivals. */
  lemma NoRivals(reqs: seq<Stay>, trips: seq<seq<Stay>>, tour: bool, origin: Origin, a: Cand, b: Cand)
    requires Stable(reqs, trips, tour, origin) && Uses(origin, a) && Uses(origin, b)
    requires IsCand(reqs, trips, tour, a) && IsCand(reqs, trips, tour, b)
    ensures !Rivals(a, b)
  {
  }

  const ASK_TWICE: seq<Stay> := [Stay("A", 0, false), Stay("A", 0, false)]
  const TWO_STAYS: seq<seq<Stay>> :=
    [[Stay("B", 0, false), Stay("A", 0, false), Stay("A", 0, false), Stay("B", 0, false)]]

  lemma TwoStaysCand(c: Cand)
    ensures IsCand(ASK_TWICE, TWO_STAYS, false, c) <==> c.diff == 0 && c.req < 2 && c.trip == 0 && 1 <= c.route <= 2
  {
    assert "A"[0] != "B"[0];
  }

  lemma EitherStable(k: nat)
    requires 1 <= k <= 2
    ensures Stable(ASK_TWICE, TWO_STAYS, false, [Some((0, k)), Some((0, 3 - k))])
  {
    var origin: Origin := [Some((0, k)), Some((0, 3 - k))];
    TwoStaysCand(Cand(0, 0, 0, k));
    TwoStaysCand(Cand(0, 1, 0, 3 - k));
    forall c | IsCand(ASK_TWICE, TWO_STAYS, false, c)
      ensures Settled(ASK_TWICE, TWO_STAYS, false, origin, c)
    {
      TwoStaysCand(c);
      var m := Cand(0, c.req, 0, if c.req == 0 then k else 3 - k);
      assert IsCand(ASK_TWICE, TWO_STAYS, false, m) && UsedBy(origin, m.req, m.trip, m.route);
    }
  }

  /** With ties there can be two: two equal requests and two equal stays. */
  lemma TiesStableTwice()
    ensures ShortTrips(TWO_STAYS)
    ensures exists o: Origin, o': Origin ::
      |o| == |o'| == 2 && o != o' && Stable(ASK_TWICE, TWO_STAYS, false, o) && Stable(ASK_TWICE, TWO_STAYS, false, o')
  {
    EitherStable(1);
    EitherStable(2);
    var o: Origin, o': Origin := [Some((0, 1)), Some((0, 2))], [Some((0, 2)), Some((0, 1))];
    assert o[0] != o'[0];
    assert Stable(ASK_TWICE, TWO_STAYS, false, o) && Stable(ASK_TWICE, TWO_STAYS, false, o');
  }

  /** A stay of a trip that a request can refer to: neither its first nor its last, in the same city, of
      the kind asked for. */
  ghost predicate Refers(reqs: seq<Stay>, trips: seq<seq<Stay>>, tour: bool, k: nat, i: nat, j: nat) {
    k < |reqs| && i < |trips| && 0 < j < |trips[i]| - 1 &&
    trips[i][j].tour == tour && trips[i][j].cid == reqs[k].cid
  }

  /** How far apart in time a request and a stay are. */
  ghost function Gap(reqs: seq<Stay>, trips: seq<seq<Stay>>, k: nat, i: nat, j: nat): int
    requires k < |reqs| && i < |trips| && j < |trips[i]|
  {
    var a, b := reqs[k].seconds, trips[i][j].seconds; if a < b then b - a else a - b
  }

  /** Some stay that request k was given is no further from it than stay j of trip i. */
  ghost predicate Suited(reqs: seq<Stay>, trips: seq<seq<Stay>>, tour: bool, origin: Origin, k: nat, i: nat, j: nat)
    requires Refers(reqs, trips, tour, k, i, j)
  {
    exists i1, j1 :: Refers(reqs, trips, tour, k, i1, j1) && UsedBy(origin, k, i1, j1) &&
      Gap(reqs, trips, k, i1, j1) <= Gap(reqs, trips, k, i, j)
  }

  /** Some request that was given that stay is no further from it than request k. */
  ghost predicate Occupied(reqs: seq<Stay>, trips: seq<seq<Stay>>, tour: bool, origin: Origin, k: nat, i: nat, j: nat)
    requires Refers(reqs, trips, tour, k, i, j)
  {
    exists k1 :: Refers(reqs, trips, tour, k1, i, j) && UsedBy(origin, k1, i, j) &&
      Gap(reqs, trips, k1, i, j) <= Gap(reqs, trips, k, i, j)
  }

  lemma CandMeans(reqs: seq<Stay>, trips: seq<seq<Stay>>, tour: bool, c: Cand)
    ensures IsCand(reqs, trips, tour, c) <==>
      Refers(reqs, trips, tour, c.req, c.trip, c.route) && c.diff == Gap(reqs, trips, c.req, c.trip, c.route)
  {
  }

  lemma SettledMeans(reqs: seq<Stay>, trips: seq<seq<Stay>>, tour: bool, origin: Origin, c: Cand)
    requires IsCand(reqs, trips, tour, c) && Refers(reqs, trips, tour, c.req, c.trip, c.route)
    ensures Settled(reqs, trips, tour, origin, c) <==>
      Suited(reqs, trips, tour, origin, c.req, c.trip, c.route) ||
      Occupied(reqs, trips, tour, origin, c.req, c.trip, c.route)
  {
    forall m
      ensures IsCand(reqs, trips, tour, m) <==>
        Refers(reqs, trips, tour, m.req, m.trip, m.route) && m.diff == Gap(reqs, trips, m.req, m.trip, m.route)
    {
      CandMeans(reqs, trips, tour, m);
    }
    if Suited(reqs, trips, tour, origin, c.req, c.trip, c.route) {
      var i, j :| Refers(reqs, trips, tour, c.req, i, j) && UsedBy(origin, c.req, i, j) &&
        Gap(reqs, trips, c.req, i, j) <= Gap(reqs, trips, c.req, c.trip, c.route);
      assert IsCand(reqs, trips, tour, Cand(Gap(reqs, trips, c.req, i, j), c.req, i, j));
    } else if Occupied(reqs, trips, tour, origin, c.req, c.trip, c.route) {
      var k :| Refers(reqs, trips, tour, k, c.trip, c.route) && UsedBy(origin, k, c.trip, c.route) &&
        Gap(reqs, trips, k, c.trip, c.route) <= Gap(reqs, trips, c.req, c.trip, c.route);
      assert IsCand(reqs, trips, tour, Cand(Gap(reqs, trips, k, c.trip, c.route), k, c.trip, c.route));
    }
  }

  /** A matching is stable exactly when requests refer to fitting stays, no two to one stay, and wherever a
      request and a fitting stay are not matched, one of them has a match at least as near in time. */
  lemma StableMeans(reqs: seq<Stay>, trips: seq<seq<Stay>>, tour: bool, origin: Origin)
    requires |origin| == |reqs|
    ensures Stable(reqs, trips, tour, origin) <==>
      && (forall k, i, j :: UsedBy(origin, k, i, j) ==> Refers(reqs, trips, tour, k, i, j))
      && (forall k, l, i, j :: UsedBy(origin, k, i, j) && UsedBy(origin, l, i, j) ==> k == l)
      && forall k, i, j :: Refers(reqs, trips, tour, k, i, j) ==>
           Suited(reqs, trips, tour, origin, k, i, j) || Occupied(reqs, trips, tour, origin, k, i, j)
  {
    forall k, i, j | Refers(reqs, trips, tour, k, i, j)
      ensures var c := Cand(Gap(reqs, trips, k, i, j), k, i, j);
        IsCand(reqs, trips, tour, c) && (Settled(reqs, trips, tour, origin, c) <==>
          Suited(reqs, trips, tour, origin, k, i, j) || Occupied(reqs, trips, tour, origin, k, i, j))
    {
      SettledMeans(reqs, trips, tour, origin, Cand(Gap(reqs, trips, k, i, j), k, i, j));
    }
    forall c | IsCand(reqs, trips, tour, c)
      ensures Refers(reqs, trips, tour, c.req, c.trip, c.route)
    {
      SettledMeans(reqs, trips, tour, origin, c);
    }
    UsedOnce(origin);
    UsedFit(reqs, trips, tour, origin);
  }

  lemma UsedFit(reqs: seq<Stay>, trips: seq<seq<Stay>>, tour: bool, origin: Origin)
    requires |origin| == |reqs|
    ensures (forall k :: 0 <= k < |origin| && origin[k].Some? ==>
               Compatible(reqs, trips, tour, k, origin[k].value.0, origin[k].value.1)) <==>
      forall k, i, j :: UsedBy(origin, k, i, j) ==> Refers(reqs, trips, tour, k, i, j)
  {
    if forall k, i, j :: UsedBy(origin, k, i, j) ==> Refers(reqs, trips, tour, k, i, j) {
      forall k | 0 <= k < |origin| && origin[k].Some?
        ensures Compatible(reqs, trips, tour, k, origin[k].value.0, origin[k].value.1)
      {
        assert UsedBy(origin, k, origin[k].value.0, origin[k].value.1);
      }
    }
  }

  lemma UsedOnce(origin: Origin)
    ensures (forall k, l :: 0 <= k < l < |origin| && origin[k].Some? ==> origin[k] != origin[l]) <==>
      forall k, l, i, j :: UsedBy(origin, k, i, j) && UsedBy(origin, l, i, j) ==> k == l
  {
    if forall k, l, i, j :: UsedBy(origin, k, i, j) && UsedBy(origin, l, i, j) ==> k == l {
      forall k, l | 0 <= k < l < |origin| && origin[k].Some?
        ensures origin[k] != origin[l]
      {
        var (i, j) := origin[k].value;
        assert UsedBy(origin, k, i, j) && !UsedBy(origin, l, i, j);
      }
    }
  }

  /** The order in which candidates are tried: by how far apart they are, then by request, trip and stay. */
  lemma OrderedMeans(list: seq<Cand>)
    ensures Ordered(list) <==> forall i, j :: 0 <= i < j < |list| ==>
              var a, b := list[i], list[j];
              a.diff < b.diff || (a.diff == b.diff && (a.req < b.req || (a.req == b.req &&
                (a.trip < b.trip || (a.trip == b.trip && a.route < b.route)))))
  {
  }
}
