/** One day of the search: its places, legs and opening hours, and the check of a fixed order
    against the opening hours (DFS::CalClash). */
module DayPlan {
  import opened Prelude
  import opened PathHeap

  const LUNCH: bv8 := 2
  const SUPPER: bv8 := 8
  const RESTAURANT: bv8 := 15  // breakfast | lunch | afternoon tea | supper
  const LONG_WAIT := 3600

  datatype Leg = Leg(dist: nat, time: nat, walking: bool)
  datatype Window = Window(open: int, close: int)

  /** Nodes 0 and n-1 are the key nodes the day starts and ends at; the others are its places.
      A restaurant has lunch as window 0 and supper as window 1, each possibly missing. */
  datatype Day = Day(
    n: nat, block: nat, vPos: seq<nat>, leg: (nat, nat) -> Option<Leg>,
    vType: seq<bv8>, restNeed: bv8,
    windows: seq<seq<Option<Window>>>, dur: seq<int>, start: int, stop: int,
    hash: seq<Visit> -> int)

  predicate IsRest(t: bv8) { t & RESTAURANT != 0 }

  predicate Has(t: bv8, meal: bv8) { t & meal != 0 }

  /** The tables have one row per node, and a view's windows are never null. */
  ghost predicate WellFormed(d: Day) {
    && 2 <= d.n
    && |d.vPos| == |d.vType| == |d.windows| == |d.dur| == d.n
    && forall i, j :: 0 <= i < d.n && !IsRest(d.vType[i]) && 0 <= j < |d.windows[i]| ==> d.windows[i][j].Some?
  }

  ghost predicate InRange(d: Day, path: seq<nat>) {
    forall i :: 0 <= i < |path| ==> path[i] < d.n
  }

  // ----- CalClash

  /** May a visit of node idx use its window j, with these meals still needed? */
  predicate Usable(d: Day, idx: nat, j: nat, need: bv8)
    requires WellFormed(d) && idx < d.n && j < |d.windows[idx]|
  {
    IsRest(d.vType[idx]) ==>
      && d.windows[idx][j].Some?
      && (j == 0 ==> Has(need, LUNCH))
      && (j == 1 ==> Has(need, SUPPER))
  }

  function NeedAfter(d: Day, idx: nat, j: nat, need: bv8): bv8
    requires WellFormed(d) && idx < d.n
  {
    if !IsRest(d.vType[idx]) then need
    else if j == 0 then need & !LUNCH
    else if j == 1 then need & !SUPPER
    else need
  }

  function Max(a: int, b: int): int { if a < b then b else a }

  /** Lost: the source reports an error. NoWindow: no window fits. Taken: window j from `begin`. */
  datatype Pick = Lost | NoWindow | Taken(j: nat, begin: int)

  function PickWindow(d: Day, idx: nat, j: nat, arv: int, need: bv8): (r: Pick)
    requires WellFormed(d) && idx < d.n && j <= |d.windows[idx]|
    ensures r.Taken? ==> j <= r.j < |d.windows[idx]|
    decreases |d.windows[idx]| - j
  {
    if j == |d.windows[idx]| then NoWindow
    else if !Usable(d, idx, j, need) then PickWindow(d, idx, j + 1, arv, need)
    else
      var w := d.windows[idx][j].value;
      var begin := Max(arv, w.open);
      if d.dur[idx] == -1 then Lost
      else if begin + d.dur[idx] > w.close then PickWindow(d, idx, j + 1, arv, need)
      else if begin + d.dur[idx] > d.stop then NoWindow
      else Taken(j, begin)
  }

  datatype Clash = Error | Clash(clash: int, firstL: int)

  predicate LongFirstWait(d: Day, i: nat, idx: nat, wait: int)
    requires WellFormed(d) && idx < d.n
  {
    i == 1 && IsRest(d.vType[idx]) && wait > LONG_WAIT
  }

  function ClashFrom(d: Day, path: seq<nat>, i: nat, offset: int, need: bv8, firstL: int): Clash
    requires WellFormed(d) && InRange(d, path) && 1 <= i <= |path|
    decreases |path| - i
  {
    if i == |path| then Clash(0, firstL)
    else match d.leg(path[i - 1], path[i])
      case None => Error
      case Some(leg) =>
        var arv := offset + leg.time;
        if i == |path| - 1 then Clash(if arv > d.stop then 1 else 0, firstL)
        else match PickWindow(d, path[i], 0, arv, need)
          case Lost => Error
          case NoWindow => Clash(1, firstL)
          case Taken(j, begin) =>
            ClashFrom(d, path, i + 1, begin + d.dur[path[i]], NeedAfter(d, path[i], j, need),
                      if LongFirstWait(d, i, path[i], begin - arv) then 1 else firstL)
  }

  function ClashOf(d: Day, path: seq<nat>): Clash
    requires WellFormed(d) && InRange(d, path) && 1 <= |path|
  {
    ClashFrom(d, path, 1, d.start, d.restNeed, 0)
  }

  method CalClash(d: Day, path: seq<nat>) returns (r: Clash)
    requires WellFormed(d) && InRange(d, path) && 1 <= |path|
    ensures r == ClashOf(d, path)
  {
    var offset, need, clash, firstL := d.start, d.restNeed, 0, 0;
    for i := 1 to |path|
      invariant clash == 0
      invariant ClashFrom(d, path, i, offset, need, firstL) == ClashOf(d, path)
    {
      var idx := path[i];
      var leg := d.leg(path[i - 1], idx);
      if leg.None? { return Error; }
      var arv := offset + leg.value.time;
      if i == |path| - 1 {
        if arv > d.stop { clash := 1; }
        return Clash(clash, firstL);
      }
      var isPlanned := false;
      var j := 0;
      ghost var need0, firstL0 := need, firstL;
      while j < |d.windows[idx]|
        invariant 0 <= j <= |d.windows[idx]|
        invariant !isPlanned ==> need == need0 && firstL == firstL0
        invariant !isPlanned ==> PickWindow(d, idx, j, arv, need) == PickWindow(d, idx, 0, arv, need)
      {
        if IsRest(d.vType[idx]) {
          if d.windows[idx][j].None? || (j == 0 && !Has(need, LUNCH)) || (j == 1 && !Has(need, SUPPER)) {
            j := j + 1;
            continue;
          }
        }
        var w := d.windows[idx][j].value;
        var newArv := arv;
        if newArv < w.open { newArv := w.open; }
        if d.dur[idx] == -1 { return Error; }
        var newDept := newArv + d.dur[idx];
        if newDept > w.close {
          j := j + 1;
          continue;
        }
        if newDept > d.stop { break; }
        if i == 1 && IsRest(d.vType[idx]) && newArv - arv > LONG_WAIT { firstL := 1; }
        offset := newDept;
        isPlanned := true;
        if IsRest(d.vType[idx]) {
          if j == 0 { need := need & !LUNCH; } else if j == 1 { need := need & !SUPPER; }
        }
        break;
      }
      if !isPlanned {
        return Clash(1, firstL);
      }
    }
    return Clash(clash, firstL);
  }
}
