/** Exactly when the greedy check of opening hours can be trusted: a place with a hidden window, or two
    restaurants whose meals do not fit, already make it refuse an order that can be kept. */
module ClashLimits {
  import opened Prelude
  import opened DayPlan
  import opened ClashTheory

  const BOTH: bv8 := 10  // lunch and supper

  lemma MealNumbers()
    ensures IsRest(15) && !IsRest(0) && Has(BOTH, LUNCH) && Has(BOTH, SUPPER)
    ensures BOTH & !LUNCH == SUPPER && BOTH & !SUPPER == LUNCH && !Has(SUPPER, LUNCH) && Has(SUPPER, SUPPER)
    ensures Has(LUNCH, LUNCH) && !Has(LUNCH, SUPPER)
  {
  }

  function TypeOf(p: Place): bv8 { if p.rest then 15 else 0 }

  /** A day with one place, without travelling time. */
  function OneStop(p: Place, start: int, stop: int): Day {
    Day(3, 0, [0, 1, 2], (a, b) => Some(Leg(0, 0, false)), [0, TypeOf(p), 0], BOTH,
        [[], p.windows, []], [-1, p.dur, -1], start, stop, _ => 0)
  }

  /** A day with a restaurant, a view that is open at one moment, and another restaurant. */
  function TwoMeals(i: Place, x: int, k: Place, start: int, stop: int): Day {
    Day(5, 0, [0, 1, 2, 3, 4], (a, b) => Some(Leg(0, 0, false)), [0, TypeOf(i), 0, TypeOf(k), 0], BOTH,
        [[], i.windows, [Some(Window(x, x))], k.windows, []], [-1, i.dur, 0, k.dur, -1], start, stop, _ => 0)
  }

  const ORDER3: seq<nat> := [0, 1, 2]
  const ORDER5: seq<nat> := [0, 1, 2, 3, 4]

  // ----- A hidden window

  lemma OneStopShape(p: Place, start: int, stop: int)
    requires Sound(p)
    ensures var d := OneStop(p, start, stop);
      WellFormed(d) && InRange(d, ORDER3) && PlaceAt(d, 1) == p && Visiting({p}, d, ORDER3)
  {
    MealNumbers();
    var d := OneStop(p, start, stop);
    assert d.windows[1] == p.windows;
    assert forall j: nat :: j < |d.windows[1]| && !p.rest ==> d.windows[1][j].Some?;
  }

  lemma UsableBoth(p: Place, start: int, stop: int, j: nat)
    requires Sound(p) && Open(p, j)
    ensures var d := OneStop(p, start, stop); WellFormed(d) && Usable(d, 1, j, BOTH)
  {
    MealNumbers();
    OneStopShape(p, start, stop);
  }

  lemma HiddenRefused(p: Place, a: nat, b: nat, t: int)
    requires Sound(p) && HidesAt(p, a, b, t)
    ensures var d := OneStop(p, t, Leave(p, b, t));
      WellFormed(d) && InRange(d, ORDER3) && PickWindow(d, 1, 0, t, BOTH).NoWindow?
  {
    var d := OneStop(p, t, Leave(p, b, t));
    OneStopShape(p, t, Leave(p, b, t));
    PickFirst(d, 1, 0, t, BOTH);
    UsableBoth(p, t, Leave(p, b, t), a);
    assert Fits(d, 1, a, t, BOTH);
    assert forall k: nat :: Fits(d, 1, k, t, BOTH) ==> FitsAt(p, k, t);
  }

  lemma HiddenKept(p: Place, a: nat, b: nat, t: int)
    requires Sound(p) && HidesAt(p, a, b, t)
    ensures var d := OneStop(p, t, Leave(p, b, t));
      WellFormed(d) && InRange(d, ORDER3) && Keepable(d, ORDER3)
  {
    var d := OneStop(p, t, Leave(p, b, t));
    OneStopShape(p, t, Leave(p, b, t));
    UsableBoth(p, t, Leave(p, b, t), b);
    var c := Choice(b, Max(t, p.windows[b].value.open));
    var plan := [c];
    assert plan[1..] == [];
    assert Visits(d, 1, t, BOTH, c);
    assert Keeps(d, ORDER3, 2, c.begin + d.dur[1], NeedAfter(d, 1, b, BOTH), []);
    assert Keeps(d, ORDER3, 1, t, BOTH, plan);
  }

  /** A window that hides a later one: a day with this place alone is refused although it can be kept. */
  lemma HiddenClash(p: Place, a: nat, b: nat, t: int)
    requires Sound(p) && HidesAt(p, a, b, t)
    ensures var d := OneStop(p, t, Leave(p, b, t));
      && WellFormed(d) && InRange(d, ORDER3) && Visiting({p}, d, ORDER3)
      && Keepable(d, ORDER3) && ClashOf(d, ORDER3) == Clash(1, 0)
  {
    OneStopShape(p, t, Leave(p, b, t));
    HiddenRefused(p, a, b, t);
    HiddenKept(p, a, b, t);
  }

  // ----- Meals that do not fit

  /** When the traveller who had supper first should be at k for lunch. */
  function MeetAt(i: Place, k: Place): int
    requires LunchAfterSupper(i, k)
  {
    var first := i.windows[1].value.open + i.dur;
    if !Open(k, 1) || k.windows[1].value.open > Max(first, k.windows[0].value.open) then first
    else k.windows[0].value.close - k.dur
  }

  /** When the day begins, so that both meals at i can be had. */
  function MealStart(i: Place): int
    requires BothMeals(i)
  {
    var l, s := i.windows[0].value.open, i.windows[1].value.open;
    if l < s then l else s
  }

  function MealDay(i: Place, k: Place): Day
    requires LunchAfterSupper(i, k)
  {
    var x := MeetAt(i, k);
    TwoMeals(i, x, k, MealStart(i), Leave(k, 0, x))
  }

  ghost predicate Misfit(i: Place, k: Place) {
    Sound(i) && Sound(k) && Unhidden(i) && LunchAfterSupper(i, k) && !MealsFit(i, k)
  }

  lemma MealTimes(i: Place, k: Place)
    requires Misfit(i, k)
    ensures var x, l, s := MeetAt(i, k), i.windows[0].value.open, i.windows[1].value.open;
      && l <= s && s + i.dur <= x && FitsAt(k, 0, x)
      && (!FitsAt(k, 1, x) || Leave(k, 1, x) > Leave(k, 0, x))
  {
    assert !HidesAt(i, 0, 1, MealStart(i));
  }

  lemma MealDayShape(i: Place, k: Place)
    requires Misfit(i, k)
    ensures var d := MealDay(i, k);
      && WellFormed(d) && InRange(d, ORDER5) && Visiting({i, k}, d, ORDER5)
      && PlaceAt(d, 1) == i && PlaceAt(d, 2) == Place(false, [Some(Window(MeetAt(i, k), MeetAt(i, k)))], 0)
      && PlaceAt(d, 3) == k
  {
    MealNumbers();
  }

  /** The greedy traveller has lunch at i, and then finds no supper at k in time. */
  lemma LunchFirst(i: Place, k: Place)
    requires Misfit(i, k)
    ensures var d := MealDay(i, k);
      && WellFormed(d) && InRange(d, ORDER5)
      && PickWindow(d, 1, 0, d.start, BOTH) == Taken(0, i.windows[0].value.open)
      && PickWindow(d, 2, 0, i.windows[0].value.open + i.dur, SUPPER) == Taken(0, MeetAt(i, k))
      && PickWindow(d, 3, 0, MeetAt(i, k), SUPPER).NoWindow?
  {
    var d, x := MealDay(i, k), MeetAt(i, k);
    MealNumbers();
    MealDayShape(i, k);
    MealTimes(i, k);
    PickFirst(d, 3, 0, x, SUPPER);
    assert forall j: nat :: Fits(d, 3, j, x, SUPPER) ==> j == 1;
  }

  lemma LunchRefused(i: Place, k: Place)
    requires Misfit(i, k)
    ensures var d := MealDay(i, k);
      && WellFormed(d) && InRange(d, ORDER5)
      && ClashOf(d, ORDER5).Clash? && ClashOf(d, ORDER5).clash == 1
  {
    var d, l, x := MealDay(i, k), i.windows[0].value.open, MeetAt(i, k);
    MealDayShape(i, k);
    LunchFirst(i, k);
    MealNeeds(i, k);
    RefusedHere(d, ORDER5, 3, x, SUPPER);
    RefusedLater(d, ORDER5, 2, l + i.dur, SUPPER);
    RefusedLater(d, ORDER5, 1, d.start, BOTH);
  }

  lemma MealNeeds(i: Place, k: Place)
    requires LunchAfterSupper(i, k) && WellFormed(MealDay(i, k))
    ensures var d := MealDay(i, k);
      && NeedAfter(d, 1, 0, BOTH) == SUPPER && NeedAfter(d, 2, 0, SUPPER) == SUPPER
  {
    MealNumbers();
  }

  /** The greedy traveller at place i of the path, at time t, ends with a clash. */
  ghost predicate Refused(d: Day, path: seq<nat>, i: nat, t: int, need: bv8)
    requires WellFormed(d) && InRange(d, path) && 1 <= i <= |path|
  {
    forall firstL ::
      var r := ClashFrom(d, path, i, t, need, firstL);
      r.Clash? && r.clash == 1
  }

  lemma RefusedHere(d: Day, path: seq<nat>, i: nat, t: int, need: bv8)
    requires WellFormed(d) && InRange(d, path) && 1 <= i < |path| - 1
    requires d.leg(path[i - 1], path[i]) == Some(Leg(0, 0, false)) && PickWindow(d, path[i], 0, t, need).NoWindow?
    ensures Refused(d, path, i, t, need)
  {
  }

  lemma RefusedLater(d: Day, path: seq<nat>, i: nat, t: int, need: bv8)
    requires WellFormed(d) && InRange(d, path) && 1 <= i < |path| - 1
    requires d.leg(path[i - 1], path[i]) == Some(Leg(0, 0, false)) && PickWindow(d, path[i], 0, t, need).Taken?
    requires var r := PickWindow(d, path[i], 0, t, need);
      Refused(d, path, i + 1, r.begin + d.dur[path[i]], NeedAfter(d, path[i], r.j, need))
    ensures Refused(d, path, i, t, need)
  {
    forall firstL
      ensures var c := ClashFrom(d, path, i, t, need, firstL); c.Clash? && c.clash == 1
    {
      var firstL' := ClashStep(d, path, i, t, need, firstL);
    }
  }

  /** Another traveller has supper at i and lunch at k, and is back in time. */
  lemma SupperFirst(i: Place, k: Place)
    requires Misfit(i, k)
    ensures var d := MealDay(i, k); WellFormed(d) && InRange(d, ORDER5) && Keepable(d, ORDER5)
  {
    var d, x, s := MealDay(i, k), MeetAt(i, k), i.windows[1].value.open;
    MealNumbers();
    MealDayShape(i, k);
    MealTimes(i, k);
    var c1, c2, c3 := Choice(1, s), Choice(0, x), Choice(0, Max(x, k.windows[0].value.open));
    var plan3, plan2, plan1 := [c3], [c2, c3], [c1, c2, c3];
    assert plan1[1..] == plan2 && plan2[1..] == plan3 && plan3[1..] == [];
    assert Visits(d, 1, d.start, BOTH, c1) && Visits(d, 2, s + i.dur, LUNCH, c2) && Visits(d, 3, x, LUNCH, c3);
    assert Keeps(d, ORDER5, 4, c3.begin + k.dur, NeedAfter(d, 3, 0, LUNCH), []);
    assert Keeps(d, ORDER5, 3, x, LUNCH, plan3);
    assert Keeps(d, ORDER5, 2, s + i.dur, LUNCH, plan2);
    assert Keeps(d, ORDER5, 1, d.start, BOTH, plan1);
  }

  /** Two restaurants whose meals do not fit: a day with them is refused although it can be kept. */
  lemma MealsClash(i: Place, k: Place)
    requires Misfit(i, k)
    ensures var d := MealDay(i, k);
      && WellFormed(d) && InRange(d, ORDER5) && Visiting({i, k}, d, ORDER5)
      && Keepable(d, ORDER5) && ClashOf(d, ORDER5).Clash? && ClashOf(d, ORDER5).clash == 1
  {
    MealDayShape(i, k);
    LunchRefused(i, k);
    SupperFirst(i, k);
  }

  // ----- The exact condition

  /** CalClash is right for every day and order over these places, and views with one window. */
  ghost predicate AlwaysRight(ps: set<Place>) {
    forall d, path :: Ordered(ps, d, path) ==> Right(d, path)
  }

  ghost predicate Ordered(ps: set<Place>, d: Day, path: seq<nat>) {
    WellFormed(d) && InRange(d, path) && 2 <= |path| && Visiting(ps, d, path)
  }

  lemma VisitingMore(ps: set<Place>, qs: set<Place>, d: Day, path: seq<nat>)
    requires WellFormed(d) && InRange(d, path) && Visiting(ps, d, path) && ps <= qs
    ensures Visiting(qs, d, path)
  {
  }

  /** CalClash is right over these places, and any views with one window, exactly if they are safe: no window
      hides a later one, and no lunch taken first is missed afterwards. */
  lemma ClashRightExactly(ps: set<Place>)
    requires forall p :: p in ps ==> Sound(p)
    ensures AlwaysRight(ps) <==> Safe(ps)
  {
    if Safe(ps) {
      forall d, path | Ordered(ps, d, path)
        ensures Right(d, path)
      {
        ClashExact(ps, d, path);
      }
    } else {
      UnsafeWrong(ps);
    }
  }

  /** For views the condition is that no place has a window that hides a later one. */
  lemma ViewsRightExactly(ps: set<Place>)
    requires forall p :: p in ps ==> Sound(p) && !p.rest
    ensures AlwaysRight(ps) <==> forall p :: p in ps ==> Unhidden(p)
  {
    ClashRightExactly(ps);
  }

  lemma UnsafeWrong(ps: set<Place>)
    requires (forall p :: p in ps ==> Sound(p)) && !Safe(ps)
    ensures !AlwaysRight(ps)
  {
    if p, a: nat, b: nat, t: int :| p in ps && HidesAt(p, a, b, t) {
      var d := OneStop(p, t, Leave(p, b, t));
      HiddenClash(p, a, b, t);
      VisitingMore({p}, ps, d, ORDER3);
      assert Ordered(ps, d, ORDER3) && !Right(d, ORDER3);
    } else {
      var i, k :| i in ps && k in ps && !MealsFit(i, k);
      var d := MealDay(i, k);
      MealsClash(i, k);
      VisitingMore({i, k}, ps, d, ORDER5);
      assert Ordered(ps, d, ORDER5) && !Right(d, ORDER5);
    }
  }
}
