/** The greedy check of opening hours decides whether an order can be kept at all. */
module ClashTheory {
  import opened Prelude
  import opened DayPlan

  /** What a traveller decides at one place: the opening window and the time the visit begins. */
  datatype Choice = Choice(j: nat, begin: int)

  /** `plan` keeps the order path[i..] when the traveller leaves path[i-1] at time t with these
      meals still needed: each visit lies inside its window, never begins before arrival, uses up
      the meal it serves, and the day's end is reached by the stop time. */
  ghost predicate Keeps(d: Day, path: seq<nat>, i: nat, t: int, need: bv8, plan: seq<Choice>)
    requires WellFormed(d) && InRange(d, path) && 1 <= i < |path|
    decreases |path| - i
  {
    && d.leg(path[i - 1], path[i]).Some?
    && var arv := t + d.leg(path[i - 1], path[i]).value.time;
       if i == |path| - 1 then plan == [] && arv <= d.stop
       else
         && plan != []
         && var idx, c := path[i], plan[0];
            && Visits(d, idx, arv, need, c)
            && Keeps(d, path, i + 1, c.begin + d.dur[idx], NeedAfter(d, idx, c.j, need), plan[1..])
  }

  /** A visit of idx by someone who arrives at arv with these meals still needed. */
  ghost predicate Visits(d: Day, idx: nat, arv: int, need: bv8, c: Choice)
    requires WellFormed(d) && idx < d.n
  {
    && c.j < |d.windows[idx]|
    && Usable(d, idx, c.j, need)
    && var w := d.windows[idx][c.j].value;
       arv <= c.begin && w.open <= c.begin && c.begin + d.dur[idx] <= w.close
  }

  ghost predicate Keepable(d: Day, path: seq<nat>)
    requires WellFormed(d) && InRange(d, path) && 2 <= |path|
  {
    exists plan :: Keeps(d, path, 1, d.start, d.restNeed, plan)
  }

  /** Every place of the day has a visiting time; only the key nodes carry the mark -1. */
  ghost predicate Timed(d: Day, path: seq<nat>)
    requires WellFormed(d) && InRange(d, path)
  {
    forall i :: 0 < i < |path| - 1 ==> 0 <= d.dur[path[i]]
  }

  // ----- Places, apart from any day

  /** What CalClash knows of a place. A restaurant has lunch as window 0 and supper as window 1. */
  datatype Place = Place(rest: bool, windows: seq<Option<Window>>, dur: int)

  function PlaceAt(d: Day, idx: nat): Place
    requires WellFormed(d) && idx < d.n
  {
    Place(IsRest(d.vType[idx]), d.windows[idx], d.dur[idx])
  }

  predicate Open(p: Place, j: nat) { j < |p.windows| && p.windows[j].Some? }

  /** When a visit that uses window j ends, if it begins as early as it can after an arrival at t. */
  function Leave(p: Place, j: nat, t: int): int
    requires Open(p, j)
  {
    Max(t, p.windows[j].value.open) + p.dur
  }

  predicate FitsAt(p: Place, j: nat, t: int) {
    Open(p, j) && Leave(p, j, t) <= p.windows[j].value.close
  }

  /** Someone who arrives at t and takes the first window that fits leaves later than need be. */
  ghost predicate HidesAt(p: Place, a: nat, b: nat, t: int) {
    && a < b && FitsAt(p, a, t) && FitsAt(p, b, t)
    && Leave(p, b, t) < Leave(p, a, t)
    && forall k: nat :: k < a ==> !FitsAt(p, k, t)
  }

  /** No window hides a later one, whenever one arrives. */
  ghost predicate Unhidden(p: Place) {
    forall a: nat, b: nat, t: int :: !HidesAt(p, a, b, t)
  }

  /** The one arrival at which it is enough to look. */
  function Latest(p: Place, a: nat, b: nat): int
    requires Open(p, a) && Open(p, b)
  {
    var s, t := p.windows[a].value.open - 1, p.windows[b].value.close - p.dur;
    if s < t then s else t
  }

  /** Whether a window hides another can be checked at a single arrival. */
  lemma HidesCheck(p: Place, a: nat, b: nat, t: int)
    requires HidesAt(p, a, b, t)
    ensures HidesAt(p, a, b, Latest(p, a, b))
  {
    assert t <= Latest(p, a, b);
    forall k: nat | k < a
      ensures !FitsAt(p, k, Latest(p, a, b))
    {
      if FitsAt(p, k, Latest(p, a, b)) { Later(p, k, t, Latest(p, a, b)); }
    }
  }

  /** i has a lunch and a supper that are long enough to be eaten. */
  predicate BothMeals(i: Place) {
    i.rest && Open(i, 0) && Open(i, 1) && FitsAt(i, 0, i.windows[0].value.open) && FitsAt(i, 1, i.windows[1].value.open)
  }

  /** Lunch can be had at k after the earliest possible supper at i. */
  predicate LunchAfterSupper(i: Place, k: Place) {
    BothMeals(i) && k.rest && FitsAt(k, 0, i.windows[1].value.open + i.dur)
  }

  /** If so, supper at k can replace that lunch: it begins no later and lasts as long. */
  predicate MealsFit(i: Place, k: Place) {
    LunchAfterSupper(i, k) ==>
      && Open(k, 1)
      && k.windows[1].value.open <= Max(i.windows[1].value.open + i.dur, k.windows[0].value.open)
      && k.windows[0].value.close <= k.windows[1].value.close
  }

  /** No window of a place hides a later one, and no lunch taken first is missed afterwards. */
  ghost predicate Safe(ps: set<Place>) {
    (forall p :: p in ps ==> Unhidden(p)) && forall i, k :: i in ps && k in ps ==> MealsFit(i, k)
  }

  /** Places have visiting times, restaurants only lunch and supper, and a view's windows are never null. */
  ghost predicate Sound(p: Place) {
    0 <= p.dur && if p.rest then |p.windows| <= 2 else forall j: nat :: j < |p.windows| ==> p.windows[j].Some?
  }

  /** A view with one window. */
  predicate Simple(p: Place) { !p.rest && |p.windows| == 1 && p.windows[0].Some? && 0 <= p.dur }

  /** The order visits places of ps, and perhaps views with one window. */
  ghost predicate Visiting(ps: set<Place>, d: Day, path: seq<nat>)
    requires WellFormed(d) && InRange(d, path)
  {
    forall i :: 0 < i < |path| - 1 ==> PlaceAt(d, path[i]) in ps || Simple(PlaceAt(d, path[i]))
  }

  lemma VisitingTimed(ps: set<Place>, d: Day, path: seq<nat>)
    requires WellFormed(d) && InRange(d, path) && Visiting(ps, d, path) && forall p :: p in ps ==> Sound(p)
    ensures Timed(d, path)
  {
    forall i | 0 < i < |path| - 1
      ensures 0 <= d.dur[path[i]]
    {
      assert PlaceAt(d, path[i]).dur == d.dur[path[i]];
    }
  }

  lemma SimpleUnhidden(p: Place)
    requires Simple(p)
    ensures Unhidden(p)
  {
  }

  // ----- The greedy check

  ghost predicate Fits(d: Day, idx: nat, j: nat, arv: int, need: bv8)
    requires WellFormed(d) && idx < d.n
  {
    FitsAt(PlaceAt(d, idx), j, arv) && Usable(d, idx, j, need)
  }

  ghost function Departure(d: Day, idx: nat, j: nat, arv: int): int
    requires WellFormed(d) && idx < d.n && j < |d.windows[idx]| && d.windows[idx][j].Some?
  {
    Leave(PlaceAt(d, idx), j, arv)
  }

  /** m is the first window from j on that fits, and the visit would end after the stop time. */
  ghost predicate Overruns(d: Day, idx: nat, j: nat, m: nat, arv: int, need: bv8)
    requires WellFormed(d) && idx < d.n
  {
    && j <= m
    && Fits(d, idx, m, arv, need)
    && Departure(d, idx, m, arv) > d.stop
    && forall k: nat :: j <= k < m ==> !Fits(d, idx, k, arv, need)
  }

  /** PickWindow takes the first window that fits, unless that visit overruns the day. */
  lemma {:induction false} PickFirst(d: Day, idx: nat, j: nat, arv: int, need: bv8)
    requires WellFormed(d) && idx < d.n && j <= |d.windows[idx]| && 0 <= d.dur[idx]
    ensures var r := PickWindow(d, idx, j, arv, need);
      && r != Pick.Lost
      && (r.Taken? ==>
            && Fits(d, idx, r.j, arv, need)
            && r.begin + d.dur[idx] == Departure(d, idx, r.j, arv) <= d.stop
            && arv <= r.begin && d.windows[idx][r.j].value.open <= r.begin
            && forall k: nat :: j <= k < r.j ==> !Fits(d, idx, k, arv, need))
      && (r.NoWindow? ==>
            || (forall k: nat :: j <= k ==> !Fits(d, idx, k, arv, need))
            || exists m: nat :: Overruns(d, idx, j, m, arv, need))
    decreases |d.windows[idx]| - j
  {
    if j < |d.windows[idx]| {
      var next := j + 1;
      PickFirst(d, idx, next, arv, need);
      if Fits(d, idx, j, arv, need) && Departure(d, idx, j, arv) > d.stop {
        assert Overruns(d, idx, j, j, arv, need);
      } else if exists m: nat :: Overruns(d, idx, next, m, arv, need) {
        var m: nat :| Overruns(d, idx, next, m, arv, need);
        assert !Fits(d, idx, j, arv, need) ==> Overruns(d, idx, j, m, arv, need);
      }
    }
  }

  /** Every meal the other one still has is still there. */
  predicate Even(need: bv8, need': bv8) {
    (Has(need', SUPPER) ==> Has(need, SUPPER)) && (Has(need', LUNCH) ==> Has(need, LUNCH))
  }

  /** One has had lunch, the other supper, at a place where both could be had. */
  ghost predicate Swapped(ps: set<Place>, need: bv8, t': int, need': bv8) {
    && Has(need, SUPPER) && !Has(need, LUNCH) && !Has(need', SUPPER)
    && exists i :: i in ps && SupperBy(i, t')
  }

  predicate SupperBy(i: Place, t: int) { BothMeals(i) && i.windows[1].value.open + i.dur <= t }

  /** The greedy state (t, need) is at least as good as (t', need'). */
  ghost predicate Ahead(ps: set<Place>, t: int, need: bv8, t': int, need': bv8) {
    t <= t' && (Even(need, need') || Swapped(ps, need, t', need'))
  }

  lemma MealBits(need: bv8)
    ensures Has(need & !LUNCH, SUPPER) == Has(need, SUPPER)
    ensures Has(need & !SUPPER, LUNCH) == Has(need, LUNCH)
    ensures !Has(need & !LUNCH, LUNCH) && !Has(need & !SUPPER, SUPPER)
  {
  }

  /** A visit that ends by the stop time is followed by a late enough finish. */
  lemma {:induction false} KeepsEnds(d: Day, path: seq<nat>, i: nat, t: int, need: bv8, plan: seq<Choice>)
    requires WellFormed(d) && InRange(d, path) && Timed(d, path) && 1 <= i < |path|
    requires Keeps(d, path, i, t, need, plan)
    ensures t <= d.stop
    decreases |path| - i
  {
    if i < |path| - 1 {
      var c := plan[0];
      KeepsEnds(d, path, i + 1, c.begin + d.dur[path[i]], NeedAfter(d, path[i], c.j, need), plan[1..]);
    }
  }

  /** Fitting and leaving early only get harder with a later arrival. */
  lemma Later(p: Place, j: nat, t: int, t': int)
    requires t <= t' && FitsAt(p, j, t')
    ensures FitsAt(p, j, t) && Leave(p, j, t) <= Leave(p, j, t')
  {
  }

  lemma GreedyView(ps: set<Place>, d: Day, idx: nat, arv: int, need: bv8, arv': int, need': bv8, c: Choice)
    requires WellFormed(d) && idx < d.n && 0 <= d.dur[idx] && !IsRest(d.vType[idx]) && Unhidden(PlaceAt(d, idx))
    requires Ahead(ps, arv, need, arv', need')
    requires Visits(d, idx, arv', need', c) && c.begin + d.dur[idx] <= d.stop
    ensures var r := PickWindow(d, idx, 0, arv, need);
      && r.Taken?
      && Ahead(ps, r.begin + d.dur[idx], NeedAfter(d, idx, r.j, need),
               c.begin + d.dur[idx], NeedAfter(d, idx, c.j, need'))
  {
    var p := PlaceAt(d, idx);
    PickFirst(d, idx, 0, arv, need);
    Later(p, c.j, arv, arv');
    var r := PickWindow(d, idx, 0, arv, need);
    assert forall k: nat :: Fits(d, idx, k, arv, need) <==> FitsAt(p, k, arv);
    assert Fits(d, idx, c.j, arv, need);
    assert forall m: nat :: Overruns(d, idx, 0, m, arv, need) ==> !HidesAt(p, m, c.j, arv);
    assert r.Taken? ==> !HidesAt(p, r.j, c.j, arv);
  }

  /** At a restaurant the greedy traveller has lunch if he can. */
  lemma GreedyRest(ps: set<Place>, d: Day, idx: nat, arv: int, need: bv8, arv': int, need': bv8, c: Choice)
    requires WellFormed(d) && idx < d.n && IsRest(d.vType[idx]) && PlaceAt(d, idx) in ps
    requires Safe(ps) && Sound(PlaceAt(d, idx))
    requires Ahead(ps, arv, need, arv', need')
    requires Visits(d, idx, arv', need', c) && c.begin + d.dur[idx] <= d.stop
    ensures var r := PickWindow(d, idx, 0, arv, need);
      && r.Taken?
      && Ahead(ps, r.begin + d.dur[idx], NeedAfter(d, idx, r.j, need),
               c.begin + d.dur[idx], NeedAfter(d, idx, c.j, need'))
  {
    var p := PlaceAt(d, idx);
    PickFirst(d, idx, 0, arv, need);
    MealBits(need);
    MealBits(need');
    Later(p, c.j, arv, arv');
    var r := PickWindow(d, idx, 0, arv, need);
    assert !HidesAt(p, 0, 1, arv);
    if !Even(need, need') {
      var i :| i in ps && SupperBy(i, arv');
      assert MealsFit(i, p);
      assert c.j == 0;
      Later(p, 0, i.windows[1].value.open + i.dur, arv');
      assert Fits(d, idx, 1, arv, need);
    } else if c.j == 1 && Fits(d, idx, 0, arv, need) {
      assert SupperBy(p, c.begin + p.dur);
    } else {
      assert Fits(d, idx, c.j, arv, need);
    }
  }

  /** One place: whatever window the other traveller uses, the greedy one, arriving no later, takes
      one too and leaves in a state that is at least as good. */
  lemma GreedyStep(ps: set<Place>, d: Day, idx: nat, arv: int, need: bv8, arv': int, need': bv8, c: Choice)
    requires WellFormed(d) && idx < d.n && Safe(ps) && Sound(PlaceAt(d, idx))
    requires PlaceAt(d, idx) in ps || Simple(PlaceAt(d, idx))
    requires Ahead(ps, arv, need, arv', need')
    requires Visits(d, idx, arv', need', c) && c.begin + d.dur[idx] <= d.stop
    ensures var r := PickWindow(d, idx, 0, arv, need);
      && r.Taken?
      && Ahead(ps, r.begin + d.dur[idx], NeedAfter(d, idx, r.j, need),
               c.begin + d.dur[idx], NeedAfter(d, idx, c.j, need'))
  {
    if IsRest(d.vType[idx]) {
      GreedyRest(ps, d, idx, arv, need, arv', need', c);
    } else {
      if Simple(PlaceAt(d, idx)) { SimpleUnhidden(PlaceAt(d, idx)); }
      GreedyView(ps, d, idx, arv, need, arv', need', c);
    }
  }

  /** The state after the next place, when the greedy check takes a window there. */
  lemma ClashStep(d: Day, path: seq<nat>, i: nat, t: int, need: bv8, firstL: int) returns (firstL': int)
    requires WellFormed(d) && InRange(d, path) && 1 <= i < |path| - 1
    requires d.leg(path[i - 1], path[i]).Some?
    requires PickWindow(d, path[i], 0, t + d.leg(path[i - 1], path[i]).value.time, need).Taken?
    ensures var r := PickWindow(d, path[i], 0, t + d.leg(path[i - 1], path[i]).value.time, need);
      ClashFrom(d, path, i, t, need, firstL)
        == ClashFrom(d, path, i + 1, r.begin + d.dur[path[i]], NeedAfter(d, path[i], r.j, need), firstL')
  {
    var arv := t + d.leg(path[i - 1], path[i]).value.time;
    var r := PickWindow(d, path[i], 0, arv, need);
    firstL' := if LongFirstWait(d, i, path[i], r.begin - arv) then 1 else firstL;
  }

  lemma GreedyAdvance(ps: set<Place>, d: Day, path: seq<nat>, i: nat, t: int, need: bv8,
                      t': int, need': bv8, plan: seq<Choice>) returns (r: Pick)
    requires WellFormed(d) && Safe(ps) && (forall p :: p in ps ==> Sound(p))
    requires InRange(d, path) && Visiting(ps, d, path) && 1 <= i < |path| - 1
    requires Ahead(ps, t, need, t', need')
    requires Keeps(d, path, i, t', need', plan)
    ensures r == PickWindow(d, path[i], 0, t + d.leg(path[i - 1], path[i]).value.time, need)
    ensures r.Taken?
    ensures Ahead(ps, r.begin + d.dur[path[i]], NeedAfter(d, path[i], r.j, need),
                  plan[0].begin + d.dur[path[i]], NeedAfter(d, path[i], plan[0].j, need'))
  {
    var idx, c, time := path[i], plan[0], d.leg(path[i - 1], path[i]).value.time;
    VisitingTimed(ps, d, path);
    KeepsEnds(d, path, i + 1, c.begin + d.dur[idx], NeedAfter(d, idx, c.j, need'), plan[1..]);
    AheadLater(ps, t, need, t', need', time);
    GreedyStep(ps, d, idx, t + time, need, t' + time, need', c);
    r := PickWindow(d, idx, 0, t + time, need);
  }

  lemma AheadLater(ps: set<Place>, t: int, need: bv8, t': int, need': bv8, time: nat)
    requires Ahead(ps, t, need, t', need')
    ensures Ahead(ps, t + time, need, t' + time, need')
  {
    if Swapped(ps, need, t', need') {
      var i :| i in ps && SupperBy(i, t');
      assert SupperBy(i, t' + time);
    }
  }

  lemma {:induction false} GreedyComplete(ps: set<Place>, d: Day, path: seq<nat>, i: nat, t: int, need: bv8,
                                          firstL: int, t': int, need': bv8, plan: seq<Choice>)
    requires WellFormed(d) && Safe(ps) && (forall p :: p in ps ==> Sound(p))
    requires InRange(d, path) && Visiting(ps, d, path) && 1 <= i < |path|
    requires Ahead(ps, t, need, t', need')
    requires Keeps(d, path, i, t', need', plan)
    ensures var r := ClashFrom(d, path, i, t, need, firstL); r.Clash? && r.clash == 0
    decreases |path| - i
  {
    if i < |path| - 1 {
      var idx, c := path[i], plan[0];
      var r := GreedyAdvance(ps, d, path, i, t, need, t', need', plan);
      var firstL' := ClashStep(d, path, i, t, need, firstL);
      GreedyComplete(ps, d, path, i + 1, r.begin + d.dur[idx], NeedAfter(d, idx, r.j, need), firstL',
                     c.begin + d.dur[idx], NeedAfter(d, idx, c.j, need'), plan[1..]);
    }
  }

  /** The windows the greedy check takes are themselves a plan. */
  lemma {:induction false} GreedySound(d: Day, path: seq<nat>, i: nat, t: int, need: bv8, firstL: int)
    returns (plan: seq<Choice>)
    requires WellFormed(d) && InRange(d, path) && Timed(d, path) && 1 <= i < |path|
    requires var r := ClashFrom(d, path, i, t, need, firstL); r.Clash? && r.clash == 0
    ensures Keeps(d, path, i, t, need, plan)
    decreases |path| - i
  {
    var time := d.leg(path[i - 1], path[i]).value.time;
    if i == |path| - 1 {
      plan := [];
    } else {
      var idx := path[i];
      PickFirst(d, idx, 0, t + time, need);
      var r := PickWindow(d, idx, 0, t + time, need);
      var firstL' := ClashStep(d, path, i, t, need, firstL);
      var rest := GreedySound(d, path, i + 1, r.begin + d.dur[idx], NeedAfter(d, idx, r.j, need), firstL');
      plan := [Choice(r.j, r.begin)] + rest;
      assert plan[1..] == rest;
    }
  }

  /** CalClash reports no clash exactly when the order can be kept. */
  ghost predicate Right(d: Day, path: seq<nat>)
    requires WellFormed(d) && InRange(d, path) && 2 <= |path|
  {
    (ClashOf(d, path).Clash? && ClashOf(d, path).clash == 0) <==> Keepable(d, path)
  }

  /** Over safe places CalClash is right, whatever the order, the legs and the times. */
  lemma ClashExact(ps: set<Place>, d: Day, path: seq<nat>)
    requires WellFormed(d) && InRange(d, path) && 2 <= |path| && Visiting(ps, d, path)
    requires Safe(ps) && forall p :: p in ps ==> Sound(p)
    ensures Right(d, path)
  {
    VisitingTimed(ps, d, path);
    if Keepable(d, path) {
      var plan :| Keeps(d, path, 1, d.start, d.restNeed, plan);
      GreedyComplete(ps, d, path, 1, d.start, d.restNeed, 0, d.start, d.restNeed, plan);
    }
    if ClashOf(d, path).Clash? && ClashOf(d, path).clash == 0 {
      var plan := GreedySound(d, path, 1, d.start, d.restNeed, 0);
    }
  }

  /** Windows sorted by opening time, and lunches that are over before any supper begins, are safe. */
  lemma SortedSafe(ps: set<Place>)
    requires forall p, a: nat, b: nat :: p in ps && a < b && Open(p, a) && Open(p, b) ==>
               p.windows[a].value.open <= p.windows[b].value.open
    requires forall i, k :: i in ps && k in ps && i.rest && k.rest && Open(i, 1) && Open(k, 0) ==>
               k.windows[0].value.close < i.windows[1].value.open
    requires forall p :: p in ps ==> Sound(p)
    ensures Safe(ps)
  {
  }
}
