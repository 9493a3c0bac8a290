/** What it means to keep an order, said as a timetable: when each visit begins and in which window, with no meal
    taken twice. */
module KeptMeaning {
  import opened DayPlan
  import opened ClashTheory

  ghost predicate Eats(d: Day, idx: nat, meal: nat, c: Choice)
    requires WellFormed(d) && idx < d.n
  {
    d.vType[idx] & RESTAURANT != 0 && c.j == meal
  }

  /** When one leaves path[k], where path[i - 1] was left at t. */
  ghost function Left(d: Day, path: seq<nat>, i: nat, t: int, plan: seq<Choice>, k: nat): int
    requires WellFormed(d) && InRange(d, path) && 1 <= i <= k + 1 <= |path| && k + 1 - i <= |plan|
  {
    if k == i - 1 then t else plan[k - i].begin + d.dur[path[k]]
  }

  /** The visit of path[k] lies in the chosen window and begins no earlier than one can be there. */
  ghost predicate VisitAt(d: Day, path: seq<nat>, i: nat, t: int, plan: seq<Choice>, k: nat)
    requires WellFormed(d) && InRange(d, path) && 1 <= i <= k < |path| && k - i < |plan|
  {
    var idx, c := path[k], plan[k - i];
    && d.leg(path[k - 1], idx).Some? && c.j < |d.windows[idx]| && d.windows[idx][c.j].Some?
    && Left(d, path, i, t, plan, k - 1) + d.leg(path[k - 1], idx).value.time <= c.begin
    && d.windows[idx][c.j].value.open <= c.begin
    && c.begin + d.dur[idx] <= d.windows[idx][c.j].value.close
  }

  /** A meal eaten at path[k] was asked for and not eaten before. */
  ghost predicate MealAt(d: Day, path: seq<nat>, i: nat, need: bv8, plan: seq<Choice>, k: nat, meal: nat, bit: bv8)
    requires WellFormed(d) && InRange(d, path) && 1 <= i <= k < |path| && k - i < |plan|
  {
    Eats(d, path[k], meal, plan[k - i]) ==>
      need & bit != 0 && forall m :: i <= m < k ==> !Eats(d, path[m], meal, plan[m - i])
  }

  ghost predicate MealsAt(d: Day, path: seq<nat>, i: nat, need: bv8, plan: seq<Choice>, k: nat)
    requires WellFormed(d) && InRange(d, path) && 1 <= i <= k < |path| && k - i < |plan|
  {
    MealAt(d, path, i, need, plan, k, 0, LUNCH) && MealAt(d, path, i, need, plan, k, 1, SUPPER)
  }

  /** The plan, one choice for each place from path[i] to the last but one, keeps the order. */
  ghost predicate Timetable(d: Day, path: seq<nat>, i: nat, t: int, need: bv8, plan: seq<Choice>)
    requires WellFormed(d) && InRange(d, path) && 1 <= i < |path|
  {
    var last := |path| - 1;
    && |plan| == last - i
    && (forall k :: i <= k < last ==> VisitAt(d, path, i, t, plan, k))
    && (forall k :: i <= k < last ==> MealsAt(d, path, i, need, plan, k))
    && d.leg(path[last - 1], path[last]).Some?
    && Left(d, path, i, t, plan, last - 1) + d.leg(path[last - 1], path[last]).value.time <= d.stop
  }

  /** Keeping an order step by step is having a timetable for it. */
  lemma {:induction false} KeepsMeans(d: Day, path: seq<nat>, i: nat, t: int, need: bv8, plan: seq<Choice>)
    requires WellFormed(d) && InRange(d, path) && 1 <= i < |path|
    ensures Keeps(d, path, i, t, need, plan) <==> Timetable(d, path, i, t, need, plan)
    decreases |path| - i
  {
    var last := |path| - 1;
    if i < last && plan != [] {
      var idx, c, rest := path[i], plan[0], plan[1..];
      KeepsMeans(d, path, i + 1, c.begin + d.dur[idx], NeedAfter(d, idx, c.j, need), rest);
      TimetableStep(d, path, i, t, need, plan);
    }
  }

  lemma TimetableStep(d: Day, path: seq<nat>, i: nat, t: int, need: bv8, plan: seq<Choice>)
    requires WellFormed(d) && InRange(d, path) && 1 <= i < |path| - 1 && plan != []
    ensures var idx, c, rest := path[i], plan[0], plan[1..];
      Timetable(d, path, i, t, need, plan) <==>
        d.leg(path[i - 1], idx).Some? && Visits(d, idx, t + d.leg(path[i - 1], idx).value.time, need, c) &&
        Timetable(d, path, i + 1, c.begin + d.dur[idx], NeedAfter(d, idx, c.j, need), rest)
  {
    var last, idx, c, rest := |path| - 1, path[i], plan[0], plan[1..];
    if Timetable(d, path, i, t, need, plan) {
      assert VisitAt(d, path, i, t, plan, i) && MealsAt(d, path, i, need, plan, i);
    }
    if |plan| == last - i && d.leg(path[i - 1], idx).Some? {
      var next, t', need' := i + 1, c.begin + d.dur[idx], NeedAfter(d, idx, c.j, need);
      FirstVisit(d, path, i, t, need, plan);
      forall k | i < k < last
        ensures VisitAt(d, path, i, t, plan, k) <==> VisitAt(d, path, i + 1, t', rest, k)
        ensures MealsAt(d, path, i, need, plan, i) ==>
          (MealsAt(d, path, i, need, plan, k) <==> MealsAt(d, path, i + 1, need', rest, k))
      {
        if MealsAt(d, path, i, need, plan, i) { NextMeals(d, path, i, need, plan, k); }
      }
      assert Left(d, path, i, t, plan, last - 1) == Left(d, path, i + 1, t', rest, last - 1);
      if Timetable(d, path, i, t, need, plan) {
        forall k | next <= k < last
          ensures VisitAt(d, path, next, t', rest, k) && MealsAt(d, path, next, need', rest, k)
        {
          assert VisitAt(d, path, i, t, plan, k) && MealsAt(d, path, i, need, plan, k);
        }
      }
    }
  }

  lemma FirstVisit(d: Day, path: seq<nat>, i: nat, t: int, need: bv8, plan: seq<Choice>)
    requires WellFormed(d) && InRange(d, path) && 1 <= i < |path| - 1 && plan != [] && d.leg(path[i - 1], path[i]).Some?
    ensures Visits(d, path[i], t + d.leg(path[i - 1], path[i]).value.time, need, plan[0]) <==>
      VisitAt(d, path, i, t, plan, i) && MealsAt(d, path, i, need, plan, i)
  {
  }

  lemma NextMeals(d: Day, path: seq<nat>, i: nat, need: bv8, plan: seq<Choice>, k: nat)
    requires WellFormed(d) && InRange(d, path) && 1 <= i < k < |path| && k - i < |plan|
    requires MealsAt(d, path, i, need, plan, i)
    ensures MealsAt(d, path, i, need, plan, k) <==>
      MealsAt(d, path, i + 1, NeedAfter(d, path[i], plan[0].j, need), plan[1..], k)
  {
    MealBits(need);
  }

  lemma KeepableMeans(d: Day, path: seq<nat>)
    requires WellFormed(d) && InRange(d, path) && 2 <= |path|
    ensures Keepable(d, path) <==> exists plan :: Timetable(d, path, 1, d.start, d.restNeed, plan)
  {
    if plan :| Keeps(d, path, 1, d.start, d.restNeed, plan) {
      KeepsMeans(d, path, 1, d.start, d.restNeed, plan);
    }
    if plan :| Timetable(d, path, 1, d.start, d.restNeed, plan) {
      KeepsMeans(d, path, 1, d.start, d.restNeed, plan);
    }
  }

  /** Over safe places CalClash reports no clash exactly when the order has a timetable. */
  lemma ClashMeans(ps: set<Place>, d: Day, path: seq<nat>)
    requires WellFormed(d) && InRange(d, path) && 2 <= |path| && Visiting(ps, d, path)
    requires Safe(ps) && forall p :: p in ps ==> Sound(p)
    ensures ClashOf(d, path).Clash? && ClashOf(d, path).clash == 0 <==>
            exists plan :: Timetable(d, path, 1, d.start, d.restNeed, plan)
  {
    ClashExact(ps, d, path);
    KeepableMeans(d, path);
  }
}
