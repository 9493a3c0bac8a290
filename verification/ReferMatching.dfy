/** Matching requested cities to the views of earlier trips (Planner::SetReferOriginViews). */
module ReferMatching {
  import opened Prelude

  /** A stay in a city: the city, its length in seconds, and whether it belongs to a tour. */
  datatype Stay = Stay(cid: string, seconds: int, tour: bool)

  /** A candidate: request `req` could use the view of stay `route` of trip `trip`. */
  datatype Cand = Cand(diff: nat, req: nat, trip: nat, route: nat)

  function Abs(x: int): (r: nat)
    ensures r == x || r == -x
  {
    if x < 0 then -x else x
  }

  /** The number under which the source remembers a view, and how it reads it back. */
  function Code(c: Cand): nat { 100 * c.trip + c.route }

  function Decode(code: nat): (nat, nat) { (code / 100, code % 100) }

  /** Stay (trip, route) may serve request req: same city, same kind, not an end of its trip. */
  predicate Compatible(reqs: seq<Stay>, trips: seq<seq<Stay>>, tour: bool, req: nat, trip: nat, route: nat) {
    && req < |reqs| && trip < |trips| && 1 <= route && route + 1 < |trips[trip]|
    && trips[trip][route].tour == tour
    && trips[trip][route].cid == reqs[req].cid
  }

  ghost predicate IsCand(reqs: seq<Stay>, trips: seq<seq<Stay>>, tour: bool, c: Cand) {
    && Compatible(reqs, trips, tour, c.req, c.trip, c.route)
    && c.diff == Abs(trips[c.trip][c.route].seconds - reqs[c.req].seconds)
  }

  /** a was collected before b: the loops go by request, then trip, then stay. */
  predicate Earlier(a: Cand, b: Cand) {
    a.req < b.req || (a.req == b.req && (a.trip < b.trip || (a.trip == b.trip && a.route < b.route)))
  }

  /** a comes before b in the multimap: smaller difference, ties in the order of insertion. */
  predicate Before(a: Cand, b: Cand) {
    a.diff < b.diff || (a.diff == b.diff && Earlier(a, b))
  }

  ghost predicate Ordered(list: seq<Cand>) {
    forall i, j :: 0 <= i < j < |list| ==> Before(list[i], list[j])
  }

  // ----- Collecting the candidates

  /** multimap::insert: behind every entry with the same or a smaller key. */
  method InsertCand(list: seq<Cand>, c: Cand) returns (r: seq<Cand>)
    requires Ordered(list) && forall x :: x in list ==> Earlier(x, c)
    ensures Ordered(r) && forall x :: x in r <==> x == c || x in list
  {
    var p := |list|;
    while p > 0 && list[p - 1].diff > c.diff
      invariant 0 <= p <= |list|
      invariant forall k :: p <= k < |list| ==> list[k].diff > c.diff
    {
      p := p - 1;
    }
    r := list[..p] + [c] + list[p..];
    assert list == list[..p] + list[p..];
    SpliceOrdered(list, p, c);
  }

  lemma SpliceOrdered(list: seq<Cand>, p: nat, c: Cand)
    requires Ordered(list) && p <= |list| && forall x :: x in list ==> Earlier(x, c)
    requires p > 0 ==> list[p - 1].diff <= c.diff
    requires forall k :: p <= k < |list| ==> list[k].diff > c.diff
    ensures Ordered(list[..p] + [c] + list[p..])
  {
  }

  /** The candidates found before stay (trip, route) of request req is looked at. */
  ghost predicate Collected(reqs: seq<Stay>, trips: seq<seq<Stay>>, tour: bool, list: seq<Cand>,
                            req: nat, trip: nat, route: nat) {
    && Ordered(list)
    && forall c :: c in list <==> IsCand(reqs, trips, tour, c) && Earlier(c, Cand(0, req, trip, route))
  }

  method CollectCands(reqs: seq<Stay>, trips: seq<seq<Stay>>, tour: bool) returns (list: seq<Cand>)
    ensures Ordered(list)
    ensures forall c :: c in list <==> IsCand(reqs, trips, tour, c)
  {
    list := [];
    for k := 0 to |reqs|
      invariant Collected(reqs, trips, tour, list, k, 0, 0)
    {
      for i := 0 to |trips|
        invariant Collected(reqs, trips, tour, list, k, i, 0)
      {
        list := CollectTrip(reqs, trips, tour, list, k, i);
      }
    }
  }

  method CollectTrip(reqs: seq<Stay>, trips: seq<seq<Stay>>, tour: bool, list0: seq<Cand>, k: nat, i: nat)
    returns (list: seq<Cand>)
    requires k < |reqs| && i < |trips| && Collected(reqs, trips, tour, list0, k, i, 0)
    ensures Collected(reqs, trips, tour, list, k, i + 1, 0)
  {
    list := list0;
    var j := 1;
    while j + 1 < |trips[i]|
      invariant 1 <= j && (j + 1 <= |trips[i]| || j == 1)
      invariant Collected(reqs, trips, tour, list, k, i, j)
    {
      var referCity := trips[i][j];
      if referCity.tour == tour && referCity.cid == reqs[k].cid {
        var diff := Abs(referCity.seconds - reqs[k].seconds);
        list := InsertCand(list, Cand(diff, k, i, j));
      }
      j := j + 1;
    }
  }

  // ----- The greedy choice

  predicate Conflict(a: Cand, b: Cand) {
    a.req == b.req || Code(a) == Code(b)
  }

  /** picked says of each entry whether it is used: exactly when no used entry before it conflicts. */
  ghost predicate Greedy(list: seq<Cand>, picked: seq<bool>) {
    && |picked| == |list|
    && forall a :: 0 <= a < |list| ==> (picked[a] <==> FreeAt(list, picked, a))
  }

  ghost predicate FreeAt(list: seq<Cand>, picked: seq<bool>, a: nat)
    requires |picked| == |list| && a < |list|
  {
    forall b :: 0 <= b < a && picked[b] ==> !Conflict(list[b], list[a])
  }

  /** The (trip, stay) whose view each request gets. */
  type Origin = seq<Option<(nat, nat)>>

  /** origin holds the views of the used entries, and nothing else. */
  ghost predicate Writes(list: seq<Cand>, picked: seq<bool>, origin: Origin)
    requires |picked| <= |list|
  {
    && (forall a :: 0 <= a < |picked| && picked[a] ==>
          list[a].req < |origin| && origin[list[a].req] == Some(Decode(Code(list[a]))))
    && forall k :: 0 <= k < |origin| && origin[k].Some? ==> k in PickedReqs(list, picked)
  }

  ghost function PickedReqs(list: seq<Cand>, picked: seq<bool>): set<nat>
    requires |picked| <= |list|
  {
    set b | 0 <= b < |picked| && picked[b] :: list[b].req
  }

  ghost function PickedViews(list: seq<Cand>, picked: seq<bool>): set<nat>
    requires |picked| <= |list|
  {
    set b | 0 <= b < |picked| && picked[b] :: Code(list[b])
  }

  lemma PickedSnoc(list: seq<Cand>, picked: seq<bool>, x: bool)
    requires |picked| < |list|
    ensures var c := list[|picked|]; var p := picked + [x];
      && PickedReqs(list, p) == PickedReqs(list, picked) + (if x then {c.req} else {})
      && PickedViews(list, p) == PickedViews(list, picked) + (if x then {Code(c)} else {})
  {
  }

  lemma WritesSnoc(list: seq<Cand>, picked: seq<bool>, origin: Origin, x: bool)
    requires |picked| < |list| && Writes(list, picked, origin) && list[|picked|].req < |origin|
    requires x ==> list[|picked|].req !in PickedReqs(list, picked)
    ensures var c := list[|picked|];
      Writes(list, picked + [x], if x then origin[c.req := Some(Decode(Code(c)))] else origin)
  {
  }

  lemma GreedySnoc(list: seq<Cand>, picked: seq<bool>, x: bool)
    requires |picked| < |list| && Greedy(list[..|picked|], picked)
    requires var c := list[|picked|];
      x == (c.req !in PickedReqs(list, picked) && Code(c) !in PickedViews(list, picked))
    ensures Greedy(list[..|picked| + 1], picked + [x])
  {
  }

  /** What the source can write: the candidates in their order, the greedy choice, and its views. */
  ghost predicate Outcome(reqs: seq<Stay>, trips: seq<seq<Stay>>, tour: bool,
                          list: seq<Cand>, picked: seq<bool>, origin: Origin) {
    && |origin| == |reqs|
    && Ordered(list) && (forall c :: c in list <==> IsCand(reqs, trips, tour, c))
    && Greedy(list, picked) && Writes(list, picked, origin)
  }

  method SetReferOriginViews(reqs: seq<Stay>, trips: seq<seq<Stay>>, tour: bool)
    returns (origin: Origin, ghost list: seq<Cand>, ghost picked: seq<bool>)
    ensures Outcome(reqs, trips, tour, list, picked, origin)
    ensures ShortTrips(trips) ==> Stable(reqs, trips, tour, origin)
  {
    var playDurDist := CollectCands(reqs, trips, tour);
    list := playDurDist;
    assert forall c :: c in playDurDist ==> c.req < |reqs|;
    origin, picked := ChooseViews(playDurDist, |reqs|);
    if ShortTrips(trips) { MatchingStable(reqs, trips, tour, list, picked, origin); }
  }

  /** The second loop of SetReferOriginViews. */
  method ChooseViews(playDurDist: seq<Cand>, n: nat) returns (origin: Origin, ghost picked: seq<bool>)
    requires forall c :: c in playDurDist ==> c.req < n
    ensures |origin| == n && Greedy(playDurDist, picked) && Writes(playDurDist, picked, origin)
  {
    origin, picked := seq(n, _ => None), [];
    var reqRefered: set<nat>, viewRefered: set<nat> := {}, {};
    for a := 0 to |playDurDist|
      invariant |origin| == n && |picked| == a
      invariant Chosen(playDurDist, picked, reqRefered, viewRefered, origin)
    {
      var c := playDurDist[a];
      assert c in playDurDist;
      ChosenSnoc(playDurDist, picked, reqRefered, viewRefered, origin);
      if c.req !in reqRefered && Code(c) !in viewRefered {
        origin := origin[c.req := Some(Decode(Code(c)))];
        reqRefered := reqRefered + {c.req};
        viewRefered := viewRefered + {Code(c)};
        picked := picked + [true];
      } else {
        picked := picked + [false];
      }
    }
    assert playDurDist[..|playDurDist|] == playDurDist;
  }

  /** The variables of the loop after the entries decided in picked. */
  ghost predicate Chosen(list: seq<Cand>, picked: seq<bool>, reqs: set<nat>, views: set<nat>, origin: Origin) {
    && |picked| <= |list| && Greedy(list[..|picked|], picked)
    && reqs == PickedReqs(list, picked) && views == PickedViews(list, picked)
    && Writes(list, picked, origin)
  }

  lemma ChosenSnoc(list: seq<Cand>, picked: seq<bool>, reqs: set<nat>, views: set<nat>, origin: Origin)
    requires |picked| < |list| && Chosen(list, picked, reqs, views, origin) && list[|picked|].req < |origin|
    ensures var c := list[|picked|];
      if c.req !in reqs && Code(c) !in views
      then Chosen(list, picked + [true], reqs + {c.req}, views + {Code(c)}, origin[c.req := Some(Decode(Code(c)))])
      else Chosen(list, picked + [false], reqs, views, origin)
  {
    var c := list[|picked|];
    var use := c.req !in reqs && Code(c) !in views;
    GreedySnoc(list, picked, use);
    PickedSnoc(list, picked, use);
    WritesSnoc(list, picked, origin, use);
    assert reqs + {} == reqs && views + {} == views;
  }

  // ----- Stability

  /** Reading a code back gives the stay it was made from exactly when its index is below 100. */
  lemma CodeExact(c: Cand)
    ensures Decode(Code(c)) == (c.trip, c.route) <==> c.route < 100
  {
  }

  /** No trip has more than 101 stays, so that every usable stay has an index below 100. */
  ghost predicate ShortTrips(trips: seq<seq<Stay>>) {
    forall i :: 0 <= i < |trips| ==> |trips[i]| <= 101
  }

  /** Beyond that size, different stays of different trips share a code. */
  lemma CodeCollides(diff: nat, req: nat, trip: nat, route: nat)
    requires 100 <= route
    ensures Code(Cand(diff, req, trip, route)) == Code(Cand(diff, req, trip + 1, route - 100))
  {
  }

  ghost predicate UsedBy(origin: Origin, req: nat, trip: nat, route: nat) {
    req < |origin| && origin[req] == Some((trip, route))
  }

  /** A matching is stable when no compatible pair could do better: the request or the stay is
      matched at a difference that is no larger. */
  ghost predicate Settled(reqs: seq<Stay>, trips: seq<seq<Stay>>, tour: bool, origin: Origin, c: Cand) {
    || (exists m :: IsCand(reqs, trips, tour, m) && m.req == c.req
          && UsedBy(origin, m.req, m.trip, m.route) && m.diff <= c.diff)
    || (exists m :: IsCand(reqs, trips, tour, m) && m.trip == c.trip && m.route == c.route
          && UsedBy(origin, m.req, m.trip, m.route) && m.diff <= c.diff)
  }

  /** Every view used is compatible, none is used twice, and every compatible pair is settled. */
  ghost predicate Stable(reqs: seq<Stay>, trips: seq<seq<Stay>>, tour: bool, origin: Origin) {
    && (forall k :: 0 <= k < |origin| && origin[k].Some? ==>
          Compatible(reqs, trips, tour, k, origin[k].value.0, origin[k].value.1))
    && (forall k, l :: 0 <= k < l < |origin| && origin[k].Some? ==> origin[k] != origin[l])
    && forall c :: IsCand(reqs, trips, tour, c) ==> Settled(reqs, trips, tour, origin, c)
  }

  lemma ShortCode(reqs: seq<Stay>, trips: seq<seq<Stay>>, tour: bool, a: Cand, b: Cand)
    requires ShortTrips(trips) && IsCand(reqs, trips, tour, a) && IsCand(reqs, trips, tour, b)
    ensures Decode(Code(a)) == (a.trip, a.route)
    ensures Code(a) == Code(b) <==> a.trip == b.trip && a.route == b.route
  {
  }

  /** The matching the source writes: every view used is a compatible one, no view is used twice,
      and every compatible pair is settled, so the matching is stable and cannot be extended. */
  lemma MatchingStable(reqs: seq<Stay>, trips: seq<seq<Stay>>, tour: bool,
                       list: seq<Cand>, picked: seq<bool>, origin: Origin)
    requires ShortTrips(trips) && Outcome(reqs, trips, tour, list, picked, origin)
    ensures Stable(reqs, trips, tour, origin)
  {
    UsedOnce(reqs, trips, tour, list, picked, origin);
    forall k | 0 <= k < |origin| && origin[k].Some?
      ensures Compatible(reqs, trips, tour, k, origin[k].value.0, origin[k].value.1)
    {
      var a :| 0 <= a < |list| && picked[a] && list[a].req == k;
      assert list[a] in list;
      ShortCode(reqs, trips, tour, list[a], list[a]);
    }
    forall c | IsCand(reqs, trips, tour, c)
      ensures Settled(reqs, trips, tour, origin, c)
    {
      assert c in list;
      var a :| 0 <= a < |list| && list[a] == c;
      SettledAt(reqs, trips, tour, list, picked, origin, a);
    }
  }

  lemma UsedOnce(reqs: seq<Stay>, trips: seq<seq<Stay>>, tour: bool,
                 list: seq<Cand>, picked: seq<bool>, origin: Origin)
    requires ShortTrips(trips) && Outcome(reqs, trips, tour, list, picked, origin)
    ensures forall k, l :: 0 <= k < l < |origin| && origin[k].Some? ==> origin[k] != origin[l]
  {
  }

  lemma SettledAt(reqs: seq<Stay>, trips: seq<seq<Stay>>, tour: bool,
                  list: seq<Cand>, picked: seq<bool>, origin: Origin, a: nat)
    requires ShortTrips(trips) && Outcome(reqs, trips, tour, list, picked, origin) && a < |list|
    ensures Settled(reqs, trips, tour, origin, list[a])
  {
    var c := list[a];
    var b := a;
    if !picked[a] {
      assert !FreeAt(list, picked, a);
      b :| 0 <= b < a && picked[b] && Conflict(list[b], c);
      assert Before(list[b], c);
    }
    var m := list[b];
    assert m in list && c in list;
    ShortCode(reqs, trips, tour, m, c);
    assert UsedBy(origin, m.req, m.trip, m.route);
  }
}
