/** The day search (DFS): branch-and-bound over the orders of one day's places. */
module DaySearch {
  import opened Prelude
  import opened PathHeap
  import opened DayPlan

  const DAY_NODE_LIMIT := 20
  const NON_WALK_PENALTY := 2000
  const FIRST_LUNCH_PENALTY := 3000
  const MAX_WALK_DAY := 3000

  // ----- Sums along a path

  ghost function LegOf(d: Day, a: nat, b: nat): Leg {
    match d.leg(a, b)
    case None => Leg(0, 0, true)
    case Some(leg) => leg
  }

  datatype Totals = Totals(dist: nat, nonWalk: nat, walk: nat)

  function AddLeg(t: Totals, leg: Leg): Totals {
    Totals(t.dist + leg.dist, t.nonWalk + (if leg.walking then 0 else 1),
        t.walk + (if leg.walking then leg.dist else 0))
  }

  ghost function Total(d: Day, path: seq<nat>): Totals {
    if |path| <= 1 then Totals(0, 0, 0)
    else AddLeg(Total(d, path[..|path| - 1]), LegOf(d, path[|path| - 2], path[|path| - 1]))
  }

  function ScoreOf(dist: int, nonWalk: int, walk: int, firstL: int): int {
    -1 * (dist + Max(nonWalk - 1, 0) * NON_WALK_PENALTY + Max(walk - MAX_WALK_DAY, 0) + firstL * FIRST_LUNCH_PENALTY)
  }

  ghost function Score(d: Day, path: seq<nat>, firstL: int): int {
    var t := Total(d, path);
    ScoreOf(t.dist, t.nonWalk, t.walk, firstL)
  }

  lemma Extend(d: Day, path: seq<nat>, idx: nat)
    requires path != []
    ensures (path + [idx])[..|path|] == path
    ensures Total(d, path + [idx]) == AddLeg(Total(d, path), LegOf(d, path[|path| - 1], idx))
  {
  }

  lemma AppendMember(path: seq<nat>, idx: nat, i: nat)
    ensures i in path + [idx] <==> i in path || i == idx
  {
  }

  // ----- The lunch-then-supper rule

  function MealTaken(need: bv8): bv8 {
    if Has(need, LUNCH) then need & !LUNCH else if Has(need, SUPPER) then need & !SUPPER else need
  }

  predicate MealAccepted(need: bv8, t: bv8) {
    && !(Has(need, LUNCH) && !Has(t, LUNCH))
    && !(need == SUPPER && !Has(t, SUPPER))
    && (Has(need, LUNCH) || Has(need, SUPPER))
  }

  /** The meals still needed after the restaurants on path. */
  ghost function Need(d: Day, path: seq<nat>): bv8
    requires WellFormed(d) && InRange(d, path)
  {
    if path == [] then d.restNeed
    else
      var before := Need(d, path[..|path| - 1]);
      if |path| > 1 && IsRest(d.vType[path[|path| - 1]]) then MealTaken(before) else before
  }

  /** May idx follow path? There is a leg, and a restaurant serves the next meal still needed. */
  ghost predicate CanFollow(d: Day, path: seq<nat>, idx: nat)
    requires WellFormed(d) && InRange(d, path) && path != [] && idx < d.n
  {
    && d.leg(path[|path| - 1], idx).Some?
    && (idx < d.n - 1 && IsRest(d.vType[idx]) ==> MealAccepted(Need(d, path), d.vType[idx]))
  }

  // ----- The orders the search completes, in the order in which it completes them

  ghost predicate Partial(d: Day, path: seq<nat>) {
    && 1 <= |path| < d.n
    && forall i :: 0 <= i < |path| ==> path[i] < d.n - 1
  }

  ghost function Leaves(d: Day, path: seq<nat>): seq<seq<nat>>
    requires WellFormed(d) && Partial(d, path)
    decreases d.n - |path|, d.n + 1
  {
    if |path| + 1 >= d.n then
      if CanFollow(d, path, d.n - 1) then [path + [d.n - 1]] else []
    else LeavesFrom(d, path, 1)
  }

  ghost function LeavesVia(d: Day, path: seq<nat>, idx: nat): seq<seq<nat>>
    requires WellFormed(d) && Partial(d, path) && |path| + 1 < d.n && idx < d.n - 1
    decreases d.n - |path|, 0
  {
    if idx !in path && CanFollow(d, path, idx) then Leaves(d, path + [idx]) else []
  }

  ghost function LeavesFrom(d: Day, path: seq<nat>, idx: nat): seq<seq<nat>>
    requires WellFormed(d) && Partial(d, path) && |path| + 1 < d.n && 1 <= idx
    decreases d.n - |path|, if idx < d.n then d.n - idx else 0
  {
    if idx >= d.n - 1 then [] else LeavesVia(d, path, idx) + LeavesFrom(d, path, idx + 1)
  }

  // ----- What a completed order does to the heap

  function VisitsOf(d: Day, path: seq<nat>): seq<Visit>
    requires |d.vPos| == d.n && InRange(d, path) && 2 <= |path|
  {
    seq(|path| - 2, i requires 0 <= i < |path| - 2 => Visit(d.block, d.vPos[path[i + 1]]))
  }

  function DayPath(d: Day, path: seq<nat>, dist: int, score: int, clash: int, firstL: int): SPath
    requires |d.vPos| == d.n && InRange(d, path) && 2 <= |path|
  {
    var visits := VisitsOf(d, path);
    SPath(visits, 0, dist, clash, firstL, score, 0, d.hash(visits), 0)
  }

  ghost predicate Complete(d: Day, path: seq<nat>) {
    2 <= |path| && InRange(d, path)
  }

  /** The day path of a completed order; none when CalClash reports an error. */
  ghost function PathOf(d: Day, path: seq<nat>): Option<SPath>
    requires WellFormed(d)
  {
    if !Complete(d, path) then None
    else match ClashOf(d, path)
    case Error => None
    case Clash(clash, firstL) => Some(DayPath(d, path, Total(d, path).dist, Score(d, path, firstL), clash, firstL))
  }

  ghost function PathsOf(d: Day, leaves: seq<seq<nat>>): seq<SPath>
    requires WellFormed(d)
  {
    if leaves == [] then []
    else
      var rest := PathsOf(d, leaves[1..]);
      match PathOf(d, leaves[0])
      case None => rest
      case Some(p) => [p] + rest
  }

  lemma {:induction false} PathsOfConcat(d: Day, a: seq<seq<nat>>, b: seq<seq<nat>>)
    requires WellFormed(d)
    ensures PathsOf(d, a + b) == PathsOf(d, a) + PathsOf(d, b)
  {
    if a == [] {
      assert a + b == b;
    } else {
      assert (a + b)[1..] == a[1..] + b;
      PathsOfConcat(d, a[1..], b);
    }
  }

  /** Every leaf below path extends path and is a complete order. */
  ghost predicate Extends(d: Day, path: seq<nat>, leaf: seq<nat>) {
    path <= leaf && |leaf| == d.n && Complete(d, leaf)
  }

  lemma {:induction false} LeavesExtend(d: Day, path: seq<nat>)
    requires WellFormed(d) && Partial(d, path)
    ensures forall p :: p in Leaves(d, path) ==> Extends(d, path, p)
    decreases d.n - |path|, d.n + 1
  {
    if |path| + 1 < d.n { LeavesFromExtend(d, path, 1); }
  }

  lemma {:induction false} LeavesFromExtend(d: Day, path: seq<nat>, idx: nat)
    requires WellFormed(d) && Partial(d, path) && |path| + 1 < d.n && 1 <= idx
    ensures forall p :: p in LeavesFrom(d, path, idx) ==> Extends(d, path, p)
    decreases d.n - |path|, if idx < d.n then d.n - idx else 0
  {
    if idx < d.n - 1 {
      if idx !in path && CanFollow(d, path, idx) {
        LeavesExtend(d, path + [idx]);
        assert LeavesVia(d, path, idx) == Leaves(d, path + [idx]);
        forall p | p in LeavesVia(d, path, idx)
          ensures Extends(d, path, p)
        {
          assert path <= path + [idx] <= p;
        }
      }
      LeavesFromExtend(d, path, idx + 1);
    }
  }

  lemma {:induction false} ScoreFalls(d: Day, path: seq<nat>, leaf: seq<nat>, firstL: int)
    requires path <= leaf && path != [] && 0 <= firstL
    ensures var s, t := Total(d, path), Total(d, leaf); s.dist <= t.dist && s.nonWalk <= t.nonWalk && s.walk <= t.walk
    ensures Score(d, leaf, firstL) <= Score(d, path, 0)
    decreases |leaf|
  {
    if |leaf| == |path| {
      assert path == leaf;
    } else {
      ScoreFalls(d, path, leaf[..|leaf| - 1], firstL);
    }
  }

  lemma {:induction false} FirstLRange(d: Day, path: seq<nat>, i: nat, offset: int, need: bv8, firstL: int)
    requires WellFormed(d) && InRange(d, path) && 1 <= i <= |path| && 0 <= firstL
    ensures var r := ClashFrom(d, path, i, offset, need, firstL); r.Clash? ==> r.clash in {0, 1} && 0 <= r.firstL
    decreases |path| - i
  {
    if i < |path| - 1 && d.leg(path[i - 1], path[i]).Some? {
      var arv := offset + d.leg(path[i - 1], path[i]).value.time;
      var r := PickWindow(d, path[i], 0, arv, need);
      if r.Taken? {
        FirstLRange(d, path, i + 1, r.begin + d.dur[path[i]], NeedAfter(d, path[i], r.j, need),
                    if LongFirstWait(d, i, path[i], r.begin - arv) then 1 else firstL);
      }
    }
  }

  /** Pruning is exact: when the heap refuses the score of a partial order, offering every order
      below it changes nothing. */
  lemma PruneExact(d: Day, h: Heap, path: seq<nat>, leaves: seq<seq<nat>>)
    requires WellFormed(d) && 1 <= h.topK && path != []
    requires forall p :: p in leaves ==> path <= p
    requires !CanPush(h, Score(d, path, 0), 0, 0)
    ensures OfferAll(h, PathsOf(d, leaves)) == h
    decreases |leaves|
  {
    if leaves != [] {
      var leaf := leaves[0];
      assert leaf in leaves;
      assert forall p :: p in leaves[1..] ==> p in leaves;
      PruneExact(d, h, path, leaves[1..]);
      if PathOf(d, leaf).Some? {
        FirstLRange(d, leaf, 1, d.start, d.restNeed, 0);
        ScoreFalls(d, path, leaf, ClashOf(d, leaf).firstL);
        CanPushSound(h, Score(d, path, 0), 0, 0, PathOf(d, leaf).value);
        assert PathsOf(d, leaves)[1..] == PathsOf(d, leaves[1..]);
      }
    }
  }

  /** What the heap becomes after completing every order in `leaves`. */
  ghost function Searched(d: Day, h: Heap, leaves: seq<seq<nat>>): Heap
    requires WellFormed(d) && 1 <= h.topK
  {
    OfferAll(h, PathsOf(d, leaves))
  }

  lemma SearchedConcat(d: Day, h: Heap, a: seq<seq<nat>>, b: seq<seq<nat>>)
    requires WellFormed(d) && 1 <= h.topK
    ensures Searched(d, h, a + b) == Searched(d, Searched(d, h, a), b)
  {
    PathsOfConcat(d, a, b);
    OfferAllConcat(h, PathsOf(d, a), PathsOf(d, b));
  }

  // ----- The search itself

  class DFS {
    const day: Day
    const noPrune: bool  // dfsDbg != 0
    const path: array<nat>
    const visited: array<bool>
    const heap: SPathHeap
    var len: nat
    var totDist: nat
    var nonWalkCnt: nat
    var walkDist: nat
    var leftRestNeed: bv8
    ghost var prefix: seq<nat>  // the places on the path

    ghost predicate Valid()
      reads this, path, visited, heap
    {
      && WellFormed(day) && day.n <= DAY_NODE_LIMIT
      && PathHeap.Valid(heap.State())
      && OnPath()
      && Partial(day, prefix)
      && leftRestNeed == Need(day, prefix)
    }

    /** The path fields all describe prefix. */
    ghost predicate OnPath()
      reads this, path, visited
    {
      && path.Length == visited.Length == DAY_NODE_LIMIT
      && len == |prefix| <= day.n <= DAY_NODE_LIMIT && path[..len] == prefix
      && (forall i :: 0 <= i < day.n ==> (visited[i] <==> i in prefix))
      && Totals(totDist, nonWalkCnt, walkDist) == Total(day, prefix)
    }

    /** Init, and the first node put on the path. */
    constructor (d: Day, topK: nat, noPrune: bool)
      requires WellFormed(d) && d.n <= DAY_NODE_LIMIT && 1 <= topK
      ensures Valid() && fresh(this) && fresh(path) && fresh(visited) && fresh(heap)
      ensures day == d && this.noPrune == noPrune && prefix == [0]
      ensures heap.State() == Empty(topK)
    {
      day, this.noPrune := d, noPrune;
      path := new nat[DAY_NODE_LIMIT](_ => 0);
      visited := new bool[DAY_NODE_LIMIT](i => i == 0);
      heap := new SPathHeap(topK);
      len, totDist, nonWalkCnt, walkDist, leftRestNeed := 1, 0, 0, 0, d.restNeed;
      prefix := [0];
      new;
      assert path[..len] == [0];
      assert Need(day, [0]) == day.restNeed by { assert [0][..0] == []; }
    }

    /** The assignments every extension of the path starts with... */
    method Enter(idx: nat, leg: Leg)
      requires OnPath() && 1 <= len < day.n && idx < day.n && idx !in prefix
      requires day.leg(prefix[len - 1], idx) == Some(leg)
      modifies this`len, this`totDist, this`nonWalkCnt, this`walkDist, this`prefix, path, visited
      ensures OnPath() && prefix == old(prefix) + [idx]
    {
      ghost var p := prefix + [idx];
      Extend(day, prefix, idx);
      ghost var t := Total(day, p);
      assert t == AddLeg(Totals(totDist, nonWalkCnt, walkDist), leg);
      path[len] := idx;
      len := len + 1;
      assert path[..len] == p;
      visited[idx] := true;
      forall i | 0 <= i < day.n
        ensures visited[i] <==> i in p
      {
        AppendMember(prefix, idx, i);
      }
      totDist := totDist + leg.dist;
      nonWalkCnt := nonWalkCnt + if leg.walking then 0 else 1;
      walkDist := walkDist + if leg.walking then leg.dist else 0;
      assert Totals(totDist, nonWalkCnt, walkDist) == t;
      prefix := p;
    }

    /** ...and the assignments that undo them. */
    method Leave(idx: nat, leg: Leg)
      requires OnPath() && 2 <= len && prefix[len - 1] == idx && idx !in prefix[..len - 1] && idx < day.n
      requires day.leg(prefix[len - 2], idx) == Some(leg)
      modifies this`len, this`totDist, this`nonWalkCnt, this`walkDist, this`prefix, path, visited
      ensures OnPath() && prefix == old(prefix)[..|old(prefix)| - 1]
    {
      ghost var p := prefix[..len - 1];
      assert prefix == p + [idx];
      Extend(day, p, idx);
      totDist := totDist - leg.dist;
      nonWalkCnt := nonWalkCnt - if leg.walking then 0 else 1;
      walkDist := walkDist - if leg.walking then leg.dist else 0;
      visited[idx] := false;
      len := len - 1;
      prefix := p;
      assert path[..len] == path[..len + 1][..len];
    }

    method Search()
      requires Valid()
      modifies this, path, visited, heap
      ensures Valid() && prefix == old(prefix)
      ensures heap.State() == Searched(day, old(heap.State()), Leaves(day, prefix))
      decreases day.n - |prefix|, 3
    {
      ghost var h := heap.State();
      if len + 1 >= day.n {
        Finish();
        return;
      }
      if !noPrune {
        var ok := heap.Accepts(GetScore(0), 0, 0);
        if !ok {
          LeavesExtend(day, prefix);
          PruneExact(day, h, prefix, Leaves(day, prefix));
          return;
        }
      }
      Branch();
    }

    /** The loop of Search over the places not yet visited. */
    method Branch()
      requires Valid() && |prefix| + 1 < day.n
      modifies this, path, visited, heap
      ensures Valid() && prefix == old(prefix)
      ensures heap.State() == Searched(day, old(heap.State()), LeavesFrom(day, prefix, 1))
      decreases day.n - |prefix|, 2
    {
      ghost var h := heap.State();
      var idx := 1;
      while idx < day.n - 1
        invariant 1 <= idx <= day.n - 1
        invariant Valid() && prefix == old(prefix)
        invariant Searched(day, heap.State(), LeavesFrom(day, prefix, idx)) ==
            Searched(day, h, LeavesFrom(day, prefix, 1))
      {
        SearchedConcat(day, heap.State(), LeavesVia(day, prefix, idx), LeavesFrom(day, prefix, idx + 1));
        BranchAt(idx);
        idx := idx + 1;
      }
    }

    /** One turn of that loop. */
    method BranchAt(idx: nat)
      requires Valid() && |prefix| + 1 < day.n && 1 <= idx < day.n - 1
      modifies this, path, visited, heap
      ensures Valid() && prefix == old(prefix)
      ensures heap.State() == Searched(day, old(heap.State()), LeavesVia(day, prefix, idx))
      decreases day.n - |prefix|, 1
    {
      if !visited[idx] {
        if IsRest(day.vType[idx]) {
          SearchRest(idx);
        } else {
          SearchView(idx);
        }
      }
    }

    /** The part of Search that reaches the day's last node. */
    method Finish()
      requires Valid() && |prefix| + 1 >= day.n
      modifies this, path, visited, heap
      ensures Valid() && prefix == old(prefix)
      ensures heap.State() == Searched(day, old(heap.State()), Leaves(day, prefix))
    {
      var lastIdx := path[len - 1];
      var tailIdx := day.n - 1;
      var item := day.leg(lastIdx, tailIdx);
      if item.None? { return; }
      var leg := item.value;
      Enter(tailIdx, leg);

      PushPath();

      Leave(tailIdx, leg);
    }

    method SearchView(idx: nat)
      requires Valid() && |prefix| + 1 < day.n && 1 <= idx < day.n - 1 && idx !in prefix && !IsRest(day.vType[idx])
      modifies this, path, visited, heap
      ensures Valid() && prefix == old(prefix)
      ensures heap.State() == Searched(day, old(heap.State()), LeavesVia(day, prefix, idx))
      decreases day.n - |prefix|, 0
    {
      var lastIdx := path[len - 1];
      var item := day.leg(lastIdx, idx);
      if item.None? { return; }
      var leg := item.value;
      Enter(idx, leg);

      Search();

      Leave(idx, leg);
    }

    /** The part of SearchRest that decides whether the restaurant serves the next meal. */
    method TakeMeal(vType: bv8) returns (ok: bool)
      modifies `leftRestNeed
      ensures ok == MealAccepted(old(leftRestNeed), vType)
      ensures leftRestNeed == if ok then MealTaken(old(leftRestNeed)) else old(leftRestNeed)
    {
      if (Has(leftRestNeed, LUNCH) && !Has(vType, LUNCH)) || (leftRestNeed == SUPPER && !Has(vType, SUPPER)) {
        return false;
      }
      if Has(leftRestNeed, LUNCH) {
        leftRestNeed := leftRestNeed & !LUNCH;
      } else if Has(leftRestNeed, SUPPER) {
        leftRestNeed := leftRestNeed & !SUPPER;
      } else {
        return false;
      }
      return true;
    }

    method SearchRest(idx: nat)
      requires Valid() && |prefix| + 1 < day.n && 1 <= idx < day.n - 1 && idx !in prefix && IsRest(day.vType[idx])
      modifies this, path, visited, heap
      ensures Valid() && prefix == old(prefix)
      ensures heap.State() == Searched(day, old(heap.State()), LeavesVia(day, prefix, idx))
      decreases day.n - |prefix|, 0
    {
      var lastIdx := path[len - 1];
      var item := day.leg(lastIdx, idx);
      if item.None? { return; }
      var leg := item.value;
      var oriRNeed := leftRestNeed;
      var ok := TakeMeal(day.vType[idx]);
      if !ok { return; }
      Enter(idx, leg);

      Search();

      Leave(idx, leg);
      leftRestNeed := oriRNeed;
    }

    function GetScore(firstL: int): int
      reads this
    {
      ScoreOf(totDist, nonWalkCnt, walkDist, firstL)
    }

    method PushPath()
      requires WellFormed(day) && Complete(day, prefix) && OnPath() && PathHeap.Valid(heap.State())
      modifies heap
      ensures PathHeap.Valid(heap.State())
      ensures heap.State() == Searched(day, old(heap.State()), [prefix])
    {
      ghost var p, h := prefix, heap.State();
      ghost var one: seq<seq<nat>> := [p];
      assert one[1..] == [];
      assert p <= p;
      if !noPrune {
        var ok := heap.Accepts(GetScore(0), 0, 0);
        if !ok {
          PruneExact(day, h, p, one);
          return;
        }
      }
      var r := CalClash(day, path[..len]);
      if r.Error? { return; }
      var sPath := DayPath(day, path[..len], totDist, GetScore(r.firstL), r.clash, r.firstL);
      assert PathsOf(day, one) == [sPath];
      assert OfferAll(Offer(h, sPath), [sPath][1..]) == Offer(h, sPath);
      var popped := heap.Push(sPath);
    }
  }

  /** DoSearch: the day's best orders; an error when the day has too many places. */
  method DoSearch(d: Day, topK: nat, noPrune: bool) returns (r: Option<seq<SPath>>)
    requires WellFormed(d) && 1 <= topK
    ensures r.None? <==> d.n > DAY_NODE_LIMIT
    ensures Partial(d, [0])
    ensures r.Some? ==> r.value == Searched(d, Empty(topK), Leaves(d, [0])).queue
  {
    if d.n > DAY_NODE_LIMIT { return None; }
    var dfs := new DFS(d, topK, noPrune);
    dfs.Search();
    return Some(dfs.heap.queue);
  }
}
