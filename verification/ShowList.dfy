/** The quota-bounded round-robin merge of show lists (Processor::ListResortViewShopRestTour). */
module ShowList {

  function Min(a: int, b: int): int { if a < b then a else b }

  ghost function Sum(s: seq<nat>): nat {
    if s == [] then 0 else s[0] + Sum(s[1..])
  }

  ghost function Sizes<T>(lists: seq<seq<T>>): seq<nat> {
    seq(|lists|, i requires 0 <= i < |lists| => |lists[i]|)
  }

  ghost function Quota<T>(lists: seq<seq<T>>, maxNum: seq<nat>, i: nat): nat
    requires i < |lists| == |maxNum|
  {
    Min(|lists[i]|, maxNum[i])
  }

  ghost function Quotas<T>(lists: seq<seq<T>>, maxNum: seq<nat>): seq<nat>
    requires |lists| == |maxNum|
  {
    seq(|lists|, i requires 0 <= i < |lists| => Quota(lists, maxNum, i))
  }

  lemma {:induction false} SumUpdate(s: seq<nat>, i: nat, x: nat)
    requires i < |s|
    ensures Sum(s[i := x]) == Sum(s) - s[i] + x
  {
    if i > 0 {
      assert s[i := x][1..] == s[1..][i - 1 := x];
      SumUpdate(s[1..], i - 1, x);
    } else {
      assert s[0 := x][1..] == s[1..];
    }
  }

  lemma {:induction false} SumMono(a: seq<nat>, b: seq<nat>)
    requires |a| == |b| && forall i :: 0 <= i < |a| ==> a[i] <= b[i]
    ensures Sum(a) <= Sum(b)
    ensures Sum(a) == Sum(b) ==> a == b
  {
    if a != [] {
      SumMono(a[1..], b[1..]);
      assert a == [a[0]] + a[1..] && b == [b[0]] + b[1..];
    }
  }

  // ----- An interleaving takes each list from its front, in order

  ghost function Count(tags: seq<nat>, l: nat): nat {
    if tags == [] then 0 else Count(tags[..|tags| - 1], l) + (if tags[|tags| - 1] == l then 1 else 0)
  }

  /** tags says, item by item, which list comes next; no list is asked for more than it holds. */
  ghost predicate Fits<T>(lists: seq<seq<T>>, tags: seq<nat>) {
    tags != [] ==>
      var before, l := tags[..|tags| - 1], tags[|tags| - 1];
      Fits(lists, before) && l < |lists| && Count(before, l) < |lists[l]|
  }

  /** The items taken in the order of tags, every list from its front. */
  ghost function Woven<T>(lists: seq<seq<T>>, tags: seq<nat>): (r: seq<T>)
    requires Fits(lists, tags)
    ensures |r| == |tags|
  {
    if tags == [] then []
    else
      var before, l := tags[..|tags| - 1], tags[|tags| - 1];
      Woven(lists, before) + [lists[l][Count(before, l)]]
  }

  ghost predicate Interleaves<T>(lists: seq<seq<T>>, out: seq<T>, tags: seq<nat>) {
    Fits(lists, tags) && out == Woven(lists, tags)
  }

  lemma AppendOne<T>(lists: seq<seq<T>>, tags: seq<nat>, l: nat)
    requires Fits(lists, tags) && l < |lists| && Count(tags, l) < |lists[l]|
    ensures Fits(lists, tags + [l])
    ensures Woven(lists, tags + [l]) == Woven(lists, tags) + [lists[l][Count(tags, l)]]
    ensures forall m: nat :: Count(tags + [l], m) == Count(tags, m) + if m == l then 1 else 0
  {
  }

  // ----- The first phase, in closed form: pass r takes perNum items of every list up to its quota

  ghost function TakenBy<T>(lists: seq<seq<T>>, perNum: seq<nat>, maxNum: seq<nat>, l: nat, r: nat): nat
    requires |lists| == |maxNum| <= |perNum| && l < |lists|
  {
    Min(Quota(lists, maxNum, l), r * perNum[l])
  }

  lemma NextPass<T>(lists: seq<seq<T>>, perNum: seq<nat>, maxNum: seq<nat>, l: nat, r: nat)
    requires |lists| == |maxNum| <= |perNum| && l < |lists|
    ensures var a, b := TakenBy(lists, perNum, maxNum, l, r), TakenBy(lists, perNum, maxNum, l, r + 1);
      a <= b <= |lists[l]| && b - a == Min(perNum[l], Quota(lists, maxNum, l) - a)
  {
  }

  /** The items of list l that pass r takes. */
  ghost function Visit<T>(lists: seq<seq<T>>, perNum: seq<nat>, maxNum: seq<nat>, l: nat, r: nat): seq<T>
    requires |lists| == |maxNum| <= |perNum| && l < |lists|
  {
    NextPass(lists, perNum, maxNum, l, r);
    lists[l][TakenBy(lists, perNum, maxNum, l, r)..TakenBy(lists, perNum, maxNum, l, r + 1)]
  }

  /** Everything taken before pass r reaches list i. */
  ghost function Upto<T>(lists: seq<seq<T>>, perNum: seq<nat>, maxNum: seq<nat>, r: nat, i: nat): seq<T>
    requires |lists| == |maxNum| <= |perNum| && i <= |lists|
    decreases r, i
  {
    if i > 0 then Upto(lists, perNum, maxNum, r, i - 1) + Visit(lists, perNum, maxNum, i - 1, r)
    else if r > 0 then Upto(lists, perNum, maxNum, r - 1, |lists|)
    else []
  }

  // ----- The loop

  /** Every visit may take something. */
  ghost predicate Shaped<T>(lists: seq<seq<T>>, perNum: seq<nat>, maxNum: seq<nat>) {
    |lists| == |maxNum| <= |perNum| && forall i :: 0 <= i < |lists| ==> 1 <= perNum[i]
  }

  /** Either something is asked for, or the quotas take every item. */
  ghost predicate ValidInput<T>(lists: seq<seq<T>>, perNum: seq<nat>, maxNum: seq<nat>, topNum: int) {
    && 1 <= |lists| && Shaped(lists, perNum, maxNum)
    && (1 <= topNum || Sum(Quotas(lists, maxNum)) == Sum(Sizes(lists)))
  }

  /** cap is the number of items that ends the merge; one that is never reached if none is asked for. */
  ghost predicate IsCap<T>(lists: seq<seq<T>>, maxNum: seq<nat>, topNum: int, cap: nat)
    requires |lists| == |maxNum|
  {
    if topNum >= 1 then cap == topNum
    else cap == Sum(Sizes(lists)) + 1 && Sum(Quotas(lists, maxNum)) == Sum(Sizes(lists))
  }

  /** `taken` counts what each list really gave; hasNum is the source's counter, which jumps to
      maxNum once a list with a larger quota is used up. */
  ghost predicate Counts<T>(lists: seq<seq<T>>, maxNum: seq<nat>, pList: seq<T>, tags: seq<nat>,
                            taken: seq<nat>, hasNum: seq<nat>) {
    && |lists| == |maxNum| == |taken| == |hasNum|
    && Interleaves(lists, pList, tags)
    && |pList| == Sum(taken)
    && forall l :: 0 <= l < |lists| ==>
         && Count(tags, l) == taken[l] <= |lists[l]|
         && (hasNum[l] == taken[l] || Jumped(lists, maxNum, taken, hasNum, l))
  }

  ghost predicate Jumped<T>(lists: seq<seq<T>>, maxNum: seq<nat>, taken: seq<nat>, hasNum: seq<nat>, l: nat)
    requires |lists| == |maxNum| == |taken| == |hasNum| && l < |lists|
  {
    hasNum[l] == maxNum[l] && taken[l] == |lists[l]| <= maxNum[l]
  }

  /** Before needAdd no list is over its quota; after it every list has used its quota up, and the
      quotas together are too small. */
  ghost predicate Phase<T>(lists: seq<seq<T>>, maxNum: seq<nat>, cap: nat, taken: seq<nat>, needAdd: bool)
    requires |lists| == |maxNum| == |taken|
  {
    if needAdd then
      && Sum(Quotas(lists, maxNum)) < cap
      && forall l :: 0 <= l < |lists| ==> Quota(lists, maxNum, l) <= taken[l]
    else forall l :: 0 <= l < |lists| ==> taken[l] <= maxNum[l]
  }

  /** In the first phase the counters are those of pass r before list i. */
  ghost predicate OnPass<T>(lists: seq<seq<T>>, perNum: seq<nat>, maxNum: seq<nat>, pList: seq<T>, taken: seq<nat>,
                            r: nat, i: nat)
    requires |lists| == |maxNum| == |taken| <= |perNum| && i <= |lists|
  {
    && pList == Upto(lists, perNum, maxNum, r, i)
    && forall l :: 0 <= l < |lists| ==> taken[l] == TakenBy(lists, perNum, maxNum, l, if l < i then r + 1 else r)
  }

  /** One more item from list i keeps the books. */
  lemma OneMore<T>(lists: seq<seq<T>>, maxNum: seq<nat>, pList: seq<T>, tags: seq<nat>, taken: seq<nat>,
                   hasNum: seq<nat>, i: nat)
    requires Counts(lists, maxNum, pList, tags, taken, hasNum) && i < |lists| && hasNum[i] < |lists[i]|
    ensures hasNum[i] == taken[i]
    ensures Counts(lists, maxNum, pList + [lists[i][hasNum[i]]], tags + [i],
                   taken[i := taken[i] + 1], hasNum[i := hasNum[i] + 1])
  {
    AppendOne(lists, tags, i);
    SumUpdate(taken, i, taken[i] + 1);
  }

  /** When every counter equals its maximum, exactly the quotas have been taken. */
  lemma AllAtMax<T>(lists: seq<seq<T>>, maxNum: seq<nat>, pList: seq<T>, tags: seq<nat>, taken: seq<nat>,
                    hasNum: seq<nat>)
    requires Counts(lists, maxNum, pList, tags, taken, hasNum) && hasNum == maxNum
    requires forall l :: 0 <= l < |lists| ==> taken[l] <= maxNum[l]
    ensures taken == Quotas(lists, maxNum)
  {
  }

  /** The variables of the source's loops... */
  datatype Tour<T> = Tour(pList: seq<T>, hasNum: seq<nat>, needAdd: bool)

  /** ...and what the proof remembers about them: where each item came from, and how many each list gave. */
  datatype Book = Book(tags: seq<nat>, taken: seq<nat>)

  ghost predicate Keeps<T>(lists: seq<seq<T>>, maxNum: seq<nat>, cap: nat, s: Tour<T>, b: Book) {
    && Counts(lists, maxNum, s.pList, b.tags, b.taken, s.hasNum)
    && Phase(lists, maxNum, cap, b.taken, s.needAdd)
    && |s.pList| <= cap
  }

  /** A list that a visit could take nothing from: it is used up, or its counter is at its maximum. */
  ghost predicate Spent<T>(lists: seq<seq<T>>, maxNum: seq<nat>, s: Tour<T>, b: Book, l: nat)
    requires |lists| == |maxNum| == |b.taken| == |s.hasNum| && l < |lists|
  {
    if s.needAdd then b.taken[l] == |lists[l]| else s.hasNum[l] == maxNum[l]
  }

  /** The merge began with the whole first phase: every quota was served, round by round, before any
      list went beyond its own. */
  ghost predicate Served<T>(lists: seq<seq<T>>, perNum: seq<nat>, maxNum: seq<nat>, pList: seq<T>)
    requires |lists| == |maxNum| <= |perNum|
  {
    exists r: nat, i: nat :: ServedAt(lists, perNum, maxNum, pList, r, i)
  }

  ghost predicate ServedAt<T>(lists: seq<seq<T>>, perNum: seq<nat>, maxNum: seq<nat>, pList: seq<T>, r: nat, i: nat)
    requires |lists| == |maxNum| <= |perNum|
  {
    i <= |lists| && Upto(lists, perNum, maxNum, r, i) <= pList
        && |Upto(lists, perNum, maxNum, r, i)| == Sum(Quotas(lists, maxNum))
  }

  lemma ServedGrows<T>(lists: seq<seq<T>>, perNum: seq<nat>, maxNum: seq<nat>, pList: seq<T>, longer: seq<T>)
    requires |lists| == |maxNum| <= |perNum| && Served(lists, perNum, maxNum, pList) && pList <= longer
    ensures Served(lists, perNum, maxNum, longer)
  {
    var r: nat, i: nat :| ServedAt(lists, perNum, maxNum, pList, r, i);
    assert ServedAt(lists, perNum, maxNum, longer, r, i);
  }

  lemma ServedStarts<T>(lists: seq<seq<T>>, perNum: seq<nat>, maxNum: seq<nat>, pList: seq<T>, r: nat, i: nat)
    requires |lists| == |maxNum| <= |perNum| && i <= |lists|
    requires pList == Upto(lists, perNum, maxNum, r, i) && |pList| == Sum(Quotas(lists, maxNum))
    ensures Served(lists, perNum, maxNum, pList)
  {
    assert ServedAt(lists, perNum, maxNum, pList, r, i);
  }

  // ----- One visit as a function

  /** How many items a visit takes. */
  function TakeCount<T>(list: seq<T>, has: nat, perNum: nat, maxNum: nat, needAdd: bool, totalNum: nat,
                        topNum: int): nat {
    var avail := (if needAdd then |list| else Min(|list|, maxNum)) - has;
    var n := Min(perNum, if avail < 0 then 0 else avail);
    if totalNum < topNum then Min(n, topNum - totalNum) else n
  }

  predicate TourOf<T>(lists: seq<seq<T>>, perNum: seq<nat>, maxNum: seq<nat>, s: Tour<T>) {
    |lists| == |maxNum| == |s.hasNum| <= |perNum|
  }

  /** The body of the for loop for list i, and whether the loops go on. */
  function Step<T>(lists: seq<seq<T>>, perNum: seq<nat>, maxNum: seq<nat>, topNum: int, total: nat, s: Tour<T>, i: nat)
    : (r: (Tour<T>, bool))
    requires TourOf(lists, perNum, maxNum, s) && i < |lists|
    ensures TourOf(lists, perNum, maxNum, r.0)
  {
    var has := s.hasNum[i];
    var n := TakeCount(lists[i], has, perNum[i], maxNum[i], s.needAdd, |s.pList|, topNum);
    var pList := if n == 0 then s.pList else s.pList + lists[i][has..has + n];
    var hasNum := s.hasNum[i := if maxNum[i] >= |lists[i]| && has + n == |lists[i]| then maxNum[i] else has + n];
    (Tour(pList, hasNum, s.needAdd || (hasNum == maxNum && |pList| < topNum)),
     !(n > 0 && |pList| == topNum) && |pList| != total)
  }

  /** The variables before pass m reaches list i, and whether the loops still go on. */
  ghost function At<T>(lists: seq<seq<T>>, perNum: seq<nat>, maxNum: seq<nat>, topNum: int, m: nat, i: nat)
    : (r: (Tour<T>, bool))
    requires Shaped(lists, perNum, maxNum) && i <= |lists|
    ensures TourOf(lists, perNum, maxNum, r.0)
    decreases m, i
  {
    if i > 0 then
      var (s, flag) := At(lists, perNum, maxNum, topNum, m, i - 1);
      if flag then Step(lists, perNum, maxNum, topNum, Sum(Sizes(lists)), s, i - 1) else (s, flag)
    else if m > 0 then At(lists, perNum, maxNum, topNum, m - 1, |lists|)
    else (Tour([], seq(|lists|, _ => 0), false), true)
  }

  /** At, stated so that the methods need not look into it. */
  ghost predicate Reached<T>(lists: seq<seq<T>>, perNum: seq<nat>, maxNum: seq<nat>, topNum: int, m: nat, i: nat,
                             s: Tour<T>, flag: bool)
    requires Shaped(lists, perNum, maxNum) && i <= |lists|
  {
    forall k: nat :: k == m ==> At(lists, perNum, maxNum, topNum, k, i) == (s, flag)
  }

  lemma ReachedFirst<T>(lists: seq<seq<T>>, perNum: seq<nat>, maxNum: seq<nat>, topNum: int)
    requires Shaped(lists, perNum, maxNum)
    ensures Reached(lists, perNum, maxNum, topNum, 0, 0, Tour([], seq(|lists|, _ => 0), false), true)
  {
  }

  lemma ReachedNext<T>(lists: seq<seq<T>>, perNum: seq<nat>, maxNum: seq<nat>, topNum: int, m: nat, i: nat,
                       s: Tour<T>, t: Tour<T>, flag: bool)
    requires Shaped(lists, perNum, maxNum) && i < |lists| && Reached(lists, perNum, maxNum, topNum, m, i, s, true)
    requires TourOf(lists, perNum, maxNum, s)
    requires Step(lists, perNum, maxNum, topNum, Sum(Sizes(lists)), s, i) == (t, flag)
    ensures Reached(lists, perNum, maxNum, topNum, m, i + 1, t, flag)
  {
    assert At(lists, perNum, maxNum, topNum, m, i) == (s, true);
    assert At(lists, perNum, maxNum, topNum, m, i + 1) == (t, flag);
  }

  lemma {:induction false} ReachedStays<T>(lists: seq<seq<T>>, perNum: seq<nat>, maxNum: seq<nat>, topNum: int,
                                           m: nat, i: nat, j: nat, s: Tour<T>)
    requires Shaped(lists, perNum, maxNum) && i <= j <= |lists|
    requires Reached(lists, perNum, maxNum, topNum, m, i, s, false)
    ensures Reached(lists, perNum, maxNum, topNum, m, j, s, false)
    decreases j
  {
    if i < j {
      ReachedStays(lists, perNum, maxNum, topNum, m, i, j - 1, s);
      assert At(lists, perNum, maxNum, topNum, m, j - 1) == (s, false);
      assert At(lists, perNum, maxNum, topNum, m, j) == (s, false);
    }
  }

  lemma ReachedPass<T>(lists: seq<seq<T>>, perNum: seq<nat>, maxNum: seq<nat>, topNum: int, m: nat, s: Tour<T>,
                       flag: bool)
    requires Shaped(lists, perNum, maxNum) && Reached(lists, perNum, maxNum, topNum, m, |lists|, s, flag)
    ensures Reached(lists, perNum, maxNum, topNum, m + 1, 0, s, flag)
  {
    assert At(lists, perNum, maxNum, topNum, m, |lists|) == (s, flag);
    assert At(lists, perNum, maxNum, topNum, m + 1, 0) == (s, flag);
  }

  /** After m passes the loops have ended, with pList. */
  ghost predicate EndsWith<T>(lists: seq<seq<T>>, perNum: seq<nat>, maxNum: seq<nat>, topNum: int, m: nat,
                              pList: seq<T>)
    requires Shaped(lists, perNum, maxNum)
  {
    var (s, flag) := At(lists, perNum, maxNum, topNum, m, 0);
    !flag && s.pList == pList
  }

  lemma ReachedEnds<T>(lists: seq<seq<T>>, perNum: seq<nat>, maxNum: seq<nat>, topNum: int, m: nat, s: Tour<T>)
    requires Shaped(lists, perNum, maxNum) && Reached(lists, perNum, maxNum, topNum, m, 0, s, false)
    ensures EndsWith(lists, perNum, maxNum, topNum, m, s.pList)
  {
    assert At(lists, perNum, maxNum, topNum, m, 0) == (s, false);
  }

  /** Once the loops have ended nothing changes, so there is one result. */
  lemma {:induction false} EndsOnce<T>(lists: seq<seq<T>>, perNum: seq<nat>, maxNum: seq<nat>, topNum: int,
                                       m: nat, n: nat, p: seq<T>, q: seq<T>)
    requires Shaped(lists, perNum, maxNum) && m <= n
    requires EndsWith(lists, perNum, maxNum, topNum, m, p) && EndsWith(lists, perNum, maxNum, topNum, n, q)
    ensures p == q
    decreases n - m
  {
    if m < n {
      var s := At(lists, perNum, maxNum, topNum, m, 0).0;
      ReachedStays(lists, perNum, maxNum, topNum, m, 0, |lists|, s);
      ReachedPass(lists, perNum, maxNum, topNum, m, s, false);
      ReachedEnds(lists, perNum, maxNum, topNum, m + 1, s);
      EndsOnce(lists, perNum, maxNum, topNum, m + 1, n, p, q);
    }
  }

  /** The variables of the loop after a visit that took the items of added. */
  ghost predicate Stepped<T>(lists: seq<seq<T>>, perNum: seq<nat>, maxNum: seq<nat>, topNum: int, cap: nat,
                             s0: Tour<T>, i: nat, added: seq<T>, s: Tour<T>)
    requires TourOf(lists, perNum, maxNum, s0) && i < |lists|
  {
    && Takes(lists[i], s0.hasNum[i], perNum[i], maxNum[i], s0.needAdd, |s0.pList|, cap, added)
    && s.pList == s0.pList + added
    && (var has := s0.hasNum[i] + |added|;
        s.hasNum == s0.hasNum[i := if maxNum[i] >= |lists[i]| && has == |lists[i]| then maxNum[i] else has])
    && s.needAdd == (s0.needAdd || (s.hasNum == maxNum && |s.pList| < topNum))
  }

  /** What the loop body computes is a step. */
  lemma StepIs<T>(lists: seq<seq<T>>, perNum: seq<nat>, maxNum: seq<nat>, topNum: int, cap: nat, total: nat,
                  s0: Tour<T>, i: nat, added: seq<T>, s: Tour<T>)
    requires TourOf(lists, perNum, maxNum, s0) && i < |lists| && IsCap(lists, maxNum, topNum, cap)
    requires total == Sum(Sizes(lists)) && |s0.pList| < cap
    requires Stepped(lists, perNum, maxNum, topNum, cap, s0, i, added, s) && |s.pList| <= total
    ensures Step(lists, perNum, maxNum, topNum, total, s0, i) == (s, |s.pList| != cap && |s.pList| != total)
  {
    var n := TakeCount(lists[i], s0.hasNum[i], perNum[i], maxNum[i], s0.needAdd, |s0.pList|, topNum);
    assert n == |added|;
    assert added == [] ==> s.pList == s0.pList;
  }

  /** One visit: the body of the for loop. */
  method VisitList<T>(lists: seq<seq<T>>, perNum: seq<nat>, maxNum: seq<nat>, topNum: int, ghost cap: nat, total: nat,
                      s0: Tour<T>, ghost b0: Book, i: nat, ghost r: nat)
    returns (s: Tour<T>, ghost b: Book, flag: bool)
    requires ValidInput(lists, perNum, maxNum, topNum) && IsCap(lists, maxNum, topNum, cap) && i < |lists|
    requires total == Sum(Sizes(lists))
    requires Keeps(lists, maxNum, cap, s0, b0) && |s0.pList| < cap
    requires !s0.needAdd ==> OnPass(lists, perNum, maxNum, s0.pList, b0.taken, r, i)
    requires s0.needAdd ==> Served(lists, perNum, maxNum, s0.pList)
    ensures TourOf(lists, perNum, maxNum, s0) && (s, flag) == Step(lists, perNum, maxNum, topNum, total, s0, i)
    ensures Keeps(lists, maxNum, cap, s, b) && (s.needAdd ==> Served(lists, perNum, maxNum, s.pList))
    ensures flag ==> |s.pList| < cap && |s.pList| != total
    ensures flag && !s.needAdd ==> OnPass(lists, perNum, maxNum, s.pList, b.taken, r, i + 1)
    ensures !flag ==> |s.pList| == cap || |s.pList| == total
    ensures !flag && !s.needAdd ==> s.pList <= Upto(lists, perNum, maxNum, r, i + 1)
    ensures |s0.pList| <= |s.pList| && (s0.needAdd ==> s.needAdd) && (topNum < 1 ==> s.needAdd == s0.needAdd)
    ensures flag && !s.needAdd ==> s.hasNum != maxNum
    ensures |s.pList| == |s0.pList| && s.needAdd == s0.needAdd ==>
      && Spent(lists, maxNum, s, b, i)
      && b.taken == b0.taken && forall l :: 0 <= l < |lists| && l != i ==> s.hasNum[l] == s0.hasNum[l]
  {
    ghost var added;
    s, b, flag, added := VisitOnce(lists, perNum, maxNum, topNum, cap, total, s0, b0, i, r);
    ServedAfter(lists, perNum, maxNum, topNum, cap, s0, i, r, added, s, b);
    StepIs(lists, perNum, maxNum, topNum, cap, total, s0, i, added, s);
    IdleSpent(lists, perNum, maxNum, topNum, cap, s0, b0, i, added, s, b);
  }

  lemma ServedAfter<T>(lists: seq<seq<T>>, perNum: seq<nat>, maxNum: seq<nat>, topNum: int, cap: nat,
                       s0: Tour<T>, i: nat, r: nat, added: seq<T>, s: Tour<T>, b: Book)
    requires Shaped(lists, perNum, maxNum) && IsCap(lists, maxNum, topNum, cap) && i < |lists|
    requires TourOf(lists, perNum, maxNum, s0) && Stepped(lists, perNum, maxNum, topNum, cap, s0, i, added, s)
    requires Keeps(lists, maxNum, cap, s, b)
    requires s0.needAdd ==> Served(lists, perNum, maxNum, s0.pList)
    requires s.needAdd && !s0.needAdd ==> |s.pList| == Sum(Quotas(lists, maxNum))
    requires s.needAdd && !s0.needAdd ==> s.pList == Upto(lists, perNum, maxNum, r, i + 1)
    ensures s.needAdd ==> Served(lists, perNum, maxNum, s.pList)
    ensures s.hasNum == maxNum && !s.needAdd && |s.pList| < cap ==> |s.pList| == Sum(Sizes(lists))
  {
    if s0.needAdd {
      ServedGrows(lists, perNum, maxNum, s0.pList, s.pList);
    } else if s.needAdd {
      ServedStarts(lists, perNum, maxNum, s.pList, r, i + 1);
    } else {
      NotAtMax(lists, maxNum, topNum, cap, s.pList, b, s.hasNum);
    }
  }

  /** A visit that takes nothing and decides nothing finds its list spent. */
  lemma IdleSpent<T>(lists: seq<seq<T>>, perNum: seq<nat>, maxNum: seq<nat>, topNum: int, cap: nat,
                     s0: Tour<T>, b0: Book, i: nat, added: seq<T>, s: Tour<T>, b: Book)
    requires Shaped(lists, perNum, maxNum) && i < |lists| && Keeps(lists, maxNum, cap, s0, b0) && |s0.pList| < cap
    requires Stepped(lists, perNum, maxNum, topNum, cap, s0, i, added, s) && Keeps(lists, maxNum, cap, s, b)
    requires b.taken == b0.taken[i := b0.taken[i] + |added|]
    ensures |s.pList| == |s0.pList| && s.needAdd == s0.needAdd ==>
      && Spent(lists, maxNum, s, b, i)
      && b.taken == b0.taken && forall l :: 0 <= l < |lists| && l != i ==> s.hasNum[l] == s0.hasNum[l]
  {
    assert |s.pList| == |s0.pList| ==> added == [];
  }

  lemma UpdateTwice(s: seq<nat>, i: nat, x: nat, y: nat)
    requires i < |s|
    ensures s[i := x][i := y] == s[i := y]
  {
  }

  /** Without needAdd the counters only reach their maxima when the merge ends. */
  lemma NotAtMax<T>(lists: seq<seq<T>>, maxNum: seq<nat>, topNum: int, cap: nat, pList: seq<T>, b: Book,
                    hasNum: seq<nat>)
    requires Counts(lists, maxNum, pList, b.tags, b.taken, hasNum) && IsCap(lists, maxNum, topNum, cap)
    requires forall l :: 0 <= l < |lists| ==> b.taken[l] <= maxNum[l]
    requires !(hasNum == maxNum && |pList| < topNum)
    ensures hasNum == maxNum && |pList| < cap ==> |pList| == Sum(Sizes(lists))
  {
    if hasNum == maxNum {
      AllAtMax(lists, maxNum, pList, b.tags, b.taken, hasNum);
    }
  }

  /** The body of the for loop. */
  method VisitOnce<T>(lists: seq<seq<T>>, perNum: seq<nat>, maxNum: seq<nat>, topNum: int, ghost cap: nat, total: nat,
                      s0: Tour<T>, ghost b0: Book, i: nat, ghost r: nat)
    returns (s: Tour<T>, ghost b: Book, flag: bool, ghost added: seq<T>)
    requires ValidInput(lists, perNum, maxNum, topNum) && IsCap(lists, maxNum, topNum, cap) && i < |lists|
    requires total == Sum(Sizes(lists))
    requires Keeps(lists, maxNum, cap, s0, b0) && |s0.pList| < cap
    requires !s0.needAdd ==> OnPass(lists, perNum, maxNum, s0.pList, b0.taken, r, i)
    ensures TourOf(lists, perNum, maxNum, s0) && Stepped(lists, perNum, maxNum, topNum, cap, s0, i, added, s)
    ensures |s.pList| <= total && flag == (|s.pList| != cap && |s.pList| != total)
    ensures Keeps(lists, maxNum, cap, s, b)
    ensures s.needAdd && !s0.needAdd ==> |s.pList| < cap && |s.pList| == Sum(Quotas(lists, maxNum))
    ensures !s0.needAdd && |s.pList| < cap ==> OnPass(lists, perNum, maxNum, s.pList, b.taken, r, i + 1)
    ensures !s0.needAdd ==> s.pList <= Upto(lists, perNum, maxNum, r, i + 1)
    ensures i < |b0.taken| && b.taken == b0.taken[i := b0.taken[i] + |added|]
  {
    var pList, hasNum, full;
    pList, b, hasNum, full, added := VisitTake(lists, perNum, maxNum, topNum, cap, s0, b0, i, r);
    var needAdd;
    hasNum, needAdd := Settle(lists, maxNum, topNum, cap, pList, b, hasNum, s0.needAdd, i);
    s := Tour(pList, hasNum, needAdd);
    flag := !full && |pList| != total;
    UpdateTwice(s0.hasNum, i, s0.hasNum[i] + |added|, hasNum[i]);
    CountsAtMost(lists, maxNum, pList, b.tags, b.taken, hasNum);
  }

  /** Moving items and what it does to the phase and to the closed form. */
  method VisitTake<T>(lists: seq<seq<T>>, perNum: seq<nat>, maxNum: seq<nat>, topNum: int, ghost cap: nat,
                      s0: Tour<T>, ghost b0: Book, i: nat, ghost r: nat)
    returns (pList: seq<T>, ghost b: Book, hasNum: seq<nat>, full: bool, ghost added: seq<T>)
    requires ValidInput(lists, perNum, maxNum, topNum) && IsCap(lists, maxNum, topNum, cap) && i < |lists|
    requires Keeps(lists, maxNum, cap, s0, b0) && |s0.pList| < cap
    requires !s0.needAdd ==> OnPass(lists, perNum, maxNum, s0.pList, b0.taken, r, i)
    ensures Counts(lists, maxNum, pList, b.tags, b.taken, hasNum)
    ensures i < |s0.hasNum| && pList == s0.pList + added && hasNum == s0.hasNum[i := s0.hasNum[i] + |added|]
    ensures Takes(lists[i], s0.hasNum[i], perNum[i], maxNum[i], s0.needAdd, |s0.pList|, cap, added)
    ensures Phase(lists, maxNum, cap, b.taken, s0.needAdd)
    ensures |pList| <= cap && full == (|pList| == cap)
    ensures !s0.needAdd ==> pList <= Upto(lists, perNum, maxNum, r, i + 1)
    ensures !s0.needAdd && !full ==> OnPass(lists, perNum, maxNum, pList, b.taken, r, i + 1)
    ensures i < |b0.taken| && b.taken == b0.taken[i := b0.taken[i] + |added|]
  {
    pList, b, hasNum, full, added := TakeAndBook(lists, perNum, maxNum, topNum, cap, s0, b0, i);
    VisitAfter(lists, perNum, maxNum, cap, s0.pList, b0.taken, s0.hasNum[i], s0.needAdd, i, r, added);
  }

  /** What a visit takes: as much as perNum, topNum and the list allow, from where it left off. */
  ghost predicate Takes<T>(list: seq<T>, has: nat, perNum: nat, maxNum: nat, needAdd: bool, totalNum: nat, cap: nat,
                           added: seq<T>) {
    var avail := (if needAdd then |list| else Min(|list|, maxNum)) - has;
    && |added| == Min(Min(perNum, cap - totalNum), if avail < 0 then 0 else avail)
    && (added != [] ==> has + |added| <= |list| && added == list[has..has + |added|])
  }

  /** The first half of the loop body: items move from list i to pList. */
  method TakeAndBook<T>(lists: seq<seq<T>>, perNum: seq<nat>, maxNum: seq<nat>, topNum: int, ghost cap: nat,
                        s: Tour<T>, ghost b0: Book, i: nat)
    returns (pList: seq<T>, ghost b: Book, hasNum: seq<nat>, full: bool, ghost added: seq<T>)
    requires ValidInput(lists, perNum, maxNum, topNum) && IsCap(lists, maxNum, topNum, cap) && i < |lists|
    requires Keeps(lists, maxNum, cap, s, b0) && |s.pList| < cap
    ensures Taking(lists, maxNum, s, b0, i, pList, b, hasNum, added)
    ensures full == (|pList| == cap)
    ensures Takes(lists[i], s.hasNum[i], perNum[i], maxNum[i], s.needAdd, |s.pList|, cap, added)
  {
    pList, b, hasNum, full, added := s.pList, b0, s.hasNum, false, [];
    var per := 0;
    while per < perNum[i] && hasNum[i] < |lists[i]| && (hasNum[i] < maxNum[i] || s.needAdd) && !full
      invariant Taking(lists, maxNum, s, b0, i, pList, b, hasNum, added)
      invariant per == |added| <= perNum[i] && |pList| <= cap && full == (|pList| == cap)
      invariant per > 0 ==> hasNum[i] <= |lists[i]| && (s.needAdd || hasNum[i] <= maxNum[i])
    {
      pList, b, hasNum, full, added := TakeOne(lists, maxNum, topNum, cap, s, b0, i, pList, b, hasNum, added);
      per := per + 1;
    }
    TakesAll(lists[i], s.hasNum[i], perNum[i], maxNum[i], s.needAdd, |s.pList|, cap, added);
  }

  /** The body of the innermost loop: one item moves. */
  method TakeOne<T>(lists: seq<seq<T>>, maxNum: seq<nat>, topNum: int, ghost cap: nat, s: Tour<T>, ghost b0: Book,
                    i: nat,
                    pList0: seq<T>, ghost b1: Book, hasNum0: seq<nat>, ghost added0: seq<T>)
    returns (pList: seq<T>, ghost b: Book, hasNum: seq<nat>, full: bool, ghost added: seq<T>)
    requires Taking(lists, maxNum, s, b0, i, pList0, b1, hasNum0, added0) && hasNum0[i] < |lists[i]|
    requires IsCap(lists, maxNum, topNum, cap) && |pList0| < cap
    ensures Taking(lists, maxNum, s, b0, i, pList, b, hasNum, added)
    ensures |pList| == |pList0| + 1 <= cap && |added| == |added0| + 1 && hasNum[i] == hasNum0[i] + 1
    ensures full == (|pList| == cap)
  {
    TakingStep(lists, maxNum, s, b0, i, pList0, b1, hasNum0, added0);
    var x := lists[i][hasNum0[i]];
    pList, added := pList0 + [x], added0 + [x];
    b := Book(b1.tags + [i], b1.taken[i := b1.taken[i] + 1]);
    hasNum := hasNum0[i := hasNum0[i] + 1];
    CountsAtMost(lists, maxNum, pList, b.tags, b.taken, hasNum);
    full := |pList| == topNum;
  }

  /** A loop that stopped has taken as much as it may. */
  lemma TakesAll<T>(list: seq<T>, has: nat, perNum: nat, maxNum: nat, needAdd: bool, totalNum: nat, cap: nat,
                    added: seq<T>)
    requires var n := |added|;
      && totalNum < cap && totalNum + n <= cap && n <= perNum
      && (n > 0 ==> has + n <= |list| && (needAdd || has + n <= maxNum) && added == list[has..has + n])
      && !(n < perNum && has + n < |list| && (has + n < maxNum || needAdd) && totalNum + n != cap)
    ensures Takes(list, has, perNum, maxNum, needAdd, totalNum, cap, added)
  {
  }

  /** The variables of the innermost loop after it has moved the items of added. */
  ghost predicate Taking<T>(lists: seq<seq<T>>, maxNum: seq<nat>, s: Tour<T>, b0: Book, i: nat,
                            pList: seq<T>, b: Book, hasNum: seq<nat>, added: seq<T>) {
    && Counts(lists, maxNum, pList, b.tags, b.taken, hasNum)
    && i < |lists| == |b0.taken| == |s.hasNum|
    && pList == s.pList + added
    && b.taken == b0.taken[i := b0.taken[i] + |added|] && hasNum == s.hasNum[i := s.hasNum[i] + |added|]
    && (added != [] ==>
          && s.hasNum[i] + |added| <= |lists[i]| && added == lists[i][s.hasNum[i]..s.hasNum[i] + |added|]
          && s.hasNum[i] == b0.taken[i])
  }

  lemma TakingStep<T>(lists: seq<seq<T>>, maxNum: seq<nat>, s: Tour<T>, b0: Book, i: nat,
                      pList: seq<T>, b: Book, hasNum: seq<nat>, added: seq<T>)
    requires Taking(lists, maxNum, s, b0, i, pList, b, hasNum, added) && hasNum[i] < |lists[i]|
    ensures var x := lists[i][hasNum[i]];
      Taking(lists, maxNum, s, b0, i, pList + [x], Book(b.tags + [i], b.taken[i := b.taken[i] + 1]),
             hasNum[i := hasNum[i] + 1], added + [x])
  {
    OneMore(lists, maxNum, pList, b.tags, b.taken, hasNum, i);
    SliceSnoc(lists[i], s.hasNum[i], |added|);
  }

  lemma SliceSnoc<T>(list: seq<T>, from: nat, n: nat)
    requires from + n < |list|
    ensures list[from..from + n] + [list[from + n]] == list[from..from + n + 1]
  {
  }

  /** What a visit does to the phase and to the closed form. */
  lemma VisitAfter<T>(lists: seq<seq<T>>, perNum: seq<nat>, maxNum: seq<nat>, cap: nat,
                      pList: seq<T>, taken: seq<nat>, has: nat, needAdd: bool, i: nat, r: nat, added: seq<T>)
    requires |lists| == |maxNum| == |taken| <= |perNum| && i < |lists| && 1 <= perNum[i] && |pList| < cap
    requires Phase(lists, maxNum, cap, taken, needAdd)
    requires has == taken[i] || (has == maxNum[i] && taken[i] == |lists[i]| <= maxNum[i])
    requires added != [] ==> has == taken[i]
    requires Takes(lists[i], has, perNum[i], maxNum[i], needAdd, |pList|, cap, added)
    requires !needAdd ==> OnPass(lists, perNum, maxNum, pList, taken, r, i)
    ensures Phase(lists, maxNum, cap, taken[i := taken[i] + |added|], needAdd) && |pList + added| <= cap
    ensures !needAdd ==> pList + added <= Upto(lists, perNum, maxNum, r, i + 1)
    ensures !needAdd && |pList + added| < cap ==>
      OnPass(lists, perNum, maxNum, pList + added, taken[i := taken[i] + |added|], r, i + 1)
  {
  }

  /** The end of the loop body: a used-up list's counter jumps, and needAdd is decided. */
  method Settle<T>(lists: seq<seq<T>>, maxNum: seq<nat>, topNum: int, ghost cap: nat, pList: seq<T>, ghost b: Book,
                   hasNum0: seq<nat>, needAdd0: bool, i: nat) returns (hasNum: seq<nat>, needAdd: bool)
    requires Counts(lists, maxNum, pList, b.tags, b.taken, hasNum0) && i < |lists|
    requires IsCap(lists, maxNum, topNum, cap)
    requires Phase(lists, maxNum, cap, b.taken, needAdd0)
    ensures Counts(lists, maxNum, pList, b.tags, b.taken, hasNum)
    ensures Phase(lists, maxNum, cap, b.taken, needAdd) && (needAdd0 ==> needAdd)
    ensures needAdd && !needAdd0 ==> |pList| < cap && |pList| == Sum(Quotas(lists, maxNum))
    ensures needAdd == (needAdd0 || (hasNum == maxNum && |pList| < topNum))
    ensures hasNum ==
        hasNum0[i := if maxNum[i] >= |lists[i]| && hasNum0[i] == |lists[i]| then maxNum[i] else hasNum0[i]]
  {
    hasNum, needAdd := hasNum0, needAdd0;
    if maxNum[i] >= |lists[i]| && hasNum[i] == |lists[i]| {
      hasNum := hasNum[i := maxNum[i]];
    }
    if hasNum == maxNum && |pList| < topNum {
      if !needAdd { AllAtMax(lists, maxNum, pList, b.tags, b.taken, hasNum); }
      needAdd := true;
    }
  }

  method Pass<T>(lists: seq<seq<T>>, perNum: seq<nat>, maxNum: seq<nat>, topNum: int, ghost cap: nat, total: nat,
                 s0: Tour<T>, ghost b0: Book, ghost r: nat) returns (s: Tour<T>, ghost b: Book, flag: bool)
    requires ValidInput(lists, perNum, maxNum, topNum) && IsCap(lists, maxNum, topNum, cap)
        && total == Sum(Sizes(lists))
    requires Keeps(lists, maxNum, cap, s0, b0) && |s0.pList| < cap
    requires !s0.needAdd ==> OnPass(lists, perNum, maxNum, s0.pList, b0.taken, r, 0)
    requires s0.needAdd ==> Served(lists, perNum, maxNum, s0.pList)
    requires Reached(lists, perNum, maxNum, topNum, r, 0, s0, true)
    ensures Reached(lists, perNum, maxNum, topNum, r + 1, 0, s, flag)
    ensures Keeps(lists, maxNum, cap, s, b) && (s.needAdd ==> Served(lists, perNum, maxNum, s.pList))
    ensures flag ==> |s.pList| < cap && |s.pList| < total
    ensures flag && !s.needAdd ==> OnPass(lists, perNum, maxNum, s.pList, b.taken, r + 1, 0)
    ensures !flag ==> |s.pList| == cap || |s.pList| == total
    ensures !flag && !s.needAdd ==> exists i :: 0 <= i <= |lists| && s.pList <= Upto(lists, perNum, maxNum, r, i)
    ensures |s0.pList| <= |s.pList| && (s0.needAdd ==> s.needAdd) && (topNum < 1 ==> s.needAdd == s0.needAdd)
    ensures flag ==> |s.pList| > |s0.pList| || (s.needAdd && !s0.needAdd)
  {
    s, b, flag := s0, b0, true;
    ghost var idle := true;
    for i := 0 to |lists|
      invariant flag && |s.pList| < cap && (i > 0 ==> |s.pList| != total)
      invariant Reached(lists, perNum, maxNum, topNum, r, i, s, true)
      invariant Keeps(lists, maxNum, cap, s, b)
      invariant s.needAdd ==> Served(lists, perNum, maxNum, s.pList)
      invariant !s.needAdd ==> OnPass(lists, perNum, maxNum, s.pList, b.taken, r, i) && (i > 0 ==> s.hasNum != maxNum)
      invariant |s0.pList| <= |s.pList| && (s0.needAdd ==> s.needAdd) && (topNum < 1 ==> s.needAdd == s0.needAdd)
      invariant idle == (|s.pList| == |s0.pList| && s.needAdd == s0.needAdd)
      invariant idle ==> SpentUpto(lists, maxNum, s, b, i)
    {
      ghost var sp, bp := s, b;
      s, b, flag := VisitList(lists, perNum, maxNum, topNum, cap, total, s, b, i, r);
      ReachedNext(lists, perNum, maxNum, topNum, r, i, sp, s, flag);
      if !flag {
        ReachedStays(lists, perNum, maxNum, topNum, r, i + 1, |lists|, s);
        ReachedPass(lists, perNum, maxNum, topNum, r, s, flag);
        return;
      }
      idle := idle && |s.pList| == |sp.pList| && s.needAdd == sp.needAdd;
      if idle { SpentNext(lists, maxNum, sp, bp, s, b, i); }
    }
    ReachedPass(lists, perNum, maxNum, topNum, r, s, flag);
    CountsAtMost(lists, maxNum, s.pList, b.tags, b.taken, s.hasNum);
    if idle { AllSpent(lists, maxNum, s, b); }
    if !s.needAdd { PassEnds(lists, perNum, maxNum, s.pList, b.taken, r); }
  }

  ghost predicate SpentUpto<T>(lists: seq<seq<T>>, maxNum: seq<nat>, s: Tour<T>, b: Book, i: nat)
    requires |lists| == |maxNum| == |b.taken| == |s.hasNum| && i <= |lists|
  {
    forall l :: 0 <= l < i ==> Spent(lists, maxNum, s, b, l)
  }

  lemma SpentNext<T>(lists: seq<seq<T>>, maxNum: seq<nat>, sp: Tour<T>, bp: Book, s: Tour<T>, b: Book, i: nat)
    requires |lists| == |maxNum| == |bp.taken| == |sp.hasNum| == |s.hasNum| && i < |lists| && b.taken == bp.taken
    requires SpentUpto(lists, maxNum, sp, bp, i) && Spent(lists, maxNum, s, b, i) && s.needAdd == sp.needAdd
    requires forall l :: 0 <= l < |lists| && l != i ==> s.hasNum[l] == sp.hasNum[l]
    ensures SpentUpto(lists, maxNum, s, b, i + 1)
  {
    forall l | 0 <= l <= i
      ensures Spent(lists, maxNum, s, b, l)
    {
      if l < i { assert Spent(lists, maxNum, sp, bp, l); }
    }
  }

  lemma PassEnds<T>(lists: seq<seq<T>>, perNum: seq<nat>, maxNum: seq<nat>, pList: seq<T>, taken: seq<nat>, r: nat)
    requires |lists| == |maxNum| == |taken| <= |perNum| && OnPass(lists, perNum, maxNum, pList, taken, r, |lists|)
    ensures OnPass(lists, perNum, maxNum, pList, taken, r + 1, 0)
  {
  }

  /** A pass in which every list was spent would have ended the merge or set needAdd. */
  lemma AllSpent<T>(lists: seq<seq<T>>, maxNum: seq<nat>, s: Tour<T>, b: Book)
    requires Counts(lists, maxNum, s.pList, b.tags, b.taken, s.hasNum)
    requires SpentUpto(lists, maxNum, s, b, |lists|)
    ensures if s.needAdd then |s.pList| == Sum(Sizes(lists)) else s.hasNum == maxNum
  {
    if s.needAdd {
      forall l | 0 <= l < |lists|
        ensures b.taken[l] == Sizes(lists)[l]
      {
        assert Spent(lists, maxNum, s, b, l);
      }
      assert b.taken == Sizes(lists);
    } else {
      forall l | 0 <= l < |lists|
        ensures s.hasNum[l] == maxNum[l]
      {
        assert Spent(lists, maxNum, s, b, l);
      }
      assert s.hasNum == maxNum;
    }
  }

  lemma CountsAtMost<T>(lists: seq<seq<T>>, maxNum: seq<nat>, pList: seq<T>, tags: seq<nat>, taken: seq<nat>,
                        hasNum: seq<nat>)
    requires Counts(lists, maxNum, pList, tags, taken, hasNum)
    ensures |pList| <= Sum(Sizes(lists))
  {
    SumMono(taken, Sizes(lists));
  }

  /** A list merged under quotas: what the result promises. */
  ghost predicate Merged<T>(lists: seq<seq<T>>, perNum: seq<nat>, maxNum: seq<nat>, topNum: int, pList: seq<T>,
                            tags: seq<nat>)
    requires |lists| == |maxNum| <= |perNum|
  {
    && |pList| == (if topNum >= 1 then Min(topNum, Sum(Sizes(lists))) else Sum(Sizes(lists)))
    && Interleaves(lists, pList, tags)
    && (topNum <= Sum(Quotas(lists, maxNum)) ==>
          && (forall l :: 0 <= l < |lists| ==> Count(tags, l) <= maxNum[l])
          && exists r: nat, i: nat :: i <= |lists| && pList <= Upto(lists, perNum, maxNum, r, i))
    && (Sum(Quotas(lists, maxNum)) < topNum ==>
          forall l :: 0 <= l < |lists| ==> Quota(lists, maxNum, l) <= Count(tags, l))
    && (Sum(Quotas(lists, maxNum)) < |pList| ==> Served(lists, perNum, maxNum, pList))
  }

  /** The merge stops, takes min(topNum, all) items (all if none are asked for), each list from its
      front; when the quotas can fill topNum it is a prefix of the quota-bounded round robin, and
      otherwise every list gets at least its quota, and the quotas come first. */
  method ListResortViewShopRestTour<T>(lists: seq<seq<T>>, perNum: seq<nat>, maxNum: seq<nat>, topNum: int)
    returns (pList: seq<T>)
    requires ValidInput(lists, perNum, maxNum, topNum)
    ensures |pList| == if topNum >= 1 then Min(topNum, Sum(Sizes(lists))) else Sum(Sizes(lists))
    ensures exists tags :: Merged(lists, perNum, maxNum, topNum, pList, tags)
    ensures exists m: nat :: EndsWith(lists, perNum, maxNum, topNum, m, pList)
  {
    var total := TotalSize(lists);
    var s: Tour<T> := Tour([], seq(|lists|, _ => 0), false);
    ghost var b, r := Book([], seq(|lists|, _ => 0)), 0;
    ghost var cap := if topNum >= 1 then topNum else total + 1;
    SumZero(b.taken);
    ReachedFirst(lists, perNum, maxNum, topNum);
    var flag := true;
    while flag
      invariant Reached(lists, perNum, maxNum, topNum, r, 0, s, flag)
      invariant Keeps(lists, maxNum, cap, s, b) && (s.needAdd ==> Served(lists, perNum, maxNum, s.pList))
      invariant flag ==> |s.pList| < cap && (!s.needAdd ==> OnPass(lists, perNum, maxNum, s.pList, b.taken, r, 0))
      invariant !flag ==> |s.pList| == cap || |s.pList| == total
      invariant topNum < 1 ==> !s.needAdd
      invariant !flag && !s.needAdd ==>
          exists q: nat, i: nat :: i <= |lists| && s.pList <= Upto(lists, perNum, maxNum, q, i)
      decreases if flag then 1 else 0, cap - |s.pList|, if s.needAdd then 0 else 1
    {
      s, b, flag := Pass(lists, perNum, maxNum, topNum, cap, total, s, b, r);
      r := r + 1;
    }
    MergedNow(lists, perNum, maxNum, topNum, cap, s, b);
    pList := s.pList;
    ReachedEnds(lists, perNum, maxNum, topNum, r, s);
  }

  lemma MergedNow<T>(lists: seq<seq<T>>, perNum: seq<nat>, maxNum: seq<nat>, topNum: int, cap: nat, s: Tour<T>, b: Book)
    requires |lists| == |maxNum| <= |perNum| && IsCap(lists, maxNum, topNum, cap)
    requires Keeps(lists, maxNum, cap, s, b) && (s.needAdd ==> Served(lists, perNum, maxNum, s.pList))
    requires (|s.pList| == cap || |s.pList| == Sum(Sizes(lists))) && (topNum < 1 ==> !s.needAdd)
    requires !s.needAdd ==> exists q: nat, i: nat :: i <= |lists| && s.pList <= Upto(lists, perNum, maxNum, q, i)
    ensures |s.pList| == if topNum >= 1 then Min(topNum, Sum(Sizes(lists))) else Sum(Sizes(lists))
    ensures Merged(lists, perNum, maxNum, topNum, s.pList, b.tags)
  {
    CountsAtMost(lists, maxNum, s.pList, b.tags, b.taken, s.hasNum);
    QuotasMet(lists, maxNum, cap, s, b);
  }

  method TotalSize<T>(lists: seq<seq<T>>) returns (total: nat)
    ensures total == Sum(Sizes(lists))
  {
    total := 0;
    for i := 0 to |lists|
      invariant total == Sum(Sizes(lists[..i]))
    {
      SumSizesSnoc(lists, i);
      total := total + |lists[i]|;
    }
    assert lists[..|lists|] == lists;
  }

  lemma QuotasMet<T>(lists: seq<seq<T>>, maxNum: seq<nat>, cap: nat, s: Tour<T>, b: Book)
    requires Keeps(lists, maxNum, cap, s, b)
    requires |s.pList| == cap || |s.pList| == Sum(Sizes(lists))
    ensures Sum(Quotas(lists, maxNum)) < cap ==> forall l :: 0 <= l < |lists| ==> Quota(lists, maxNum, l) <= b.taken[l]
    ensures !s.needAdd ==> |s.pList| <= Sum(Quotas(lists, maxNum))
  {
    var q := Quotas(lists, maxNum);
    SumMono(q, Sizes(lists));
    if !s.needAdd {
      SumMono(b.taken, q);
    }
  }

  lemma {:induction false} SumZero(s: seq<nat>)
    requires forall i :: 0 <= i < |s| ==> s[i] == 0
    ensures Sum(s) == 0
  {
    if s != [] { SumZero(s[1..]); }
  }

  lemma SumSizesSnoc<T>(lists: seq<seq<T>>, i: nat)
    requires i < |lists|
    ensures Sum(Sizes(lists[..i + 1])) == Sum(Sizes(lists[..i])) + |lists[i]|
  {
    assert Sizes(lists[..i + 1]) == Sizes(lists[..i]) + [|lists[i]|];
    SumSnoc(Sizes(lists[..i]), |lists[i]|);
  }

  lemma {:induction false} SumSnoc(s: seq<nat>, x: nat)
    ensures Sum(s + [x]) == Sum(s) + x
  {
    if s != [] {
      assert (s + [x])[1..] == s[1..] + [x];
      SumSnoc(s[1..], x);
    }
  }
}
