/** The exhaustive, swap-based search for an order of days (RouteSearch::Perm, SwapTwoDays, and
    the range AdjustTight searches). */
module DayPermutation {
  import opened Prelude

  // ----- The orders Perm tries, in the order in which it tries them

  function Swap<T>(s: seq<T>, i: nat, j: nat): (r: seq<T>)
    requires i < |s| && j < |s|
    ensures |r| == |s| && r[i] == s[j] && r[j] == s[i]
    ensures forall k :: 0 <= k < |s| && k != i && k != j ==> r[k] == s[k]
  {
    s[i := s[j]][j := s[i]]
  }

  ghost function Orders<T>(s: seq<T>, start: nat, end: nat): seq<seq<T>>
    requires end <= |s|
    decreases if start < end then end - start else 0, end + 1
  {
    if start >= end then [s] else OrdersFrom(s, start, end, start)
  }

  ghost function OrdersFrom<T>(s: seq<T>, start: nat, end: nat, i: nat): seq<seq<T>>
    requires start <= i <= end <= |s| && start < end
    decreases end - start, end - i
  {
    if i == end then []
    else Orders(Swap(s, start, i), start + 1, end) + OrdersFrom(s, start, end, i + 1)
  }

  /** o is a rearrangement of s that moves only positions in [start, end). */
  ghost predicate Rearranges<T>(s: seq<T>, start: nat, end: nat, o: seq<T>)
    requires end <= |s|
  {
    && |o| == |s|
    && (forall k :: 0 <= k < |s| && !(start <= k < end) ==> o[k] == s[k])
    && (start <= end ==> multiset(o[start..end]) == multiset(s[start..end]))
  }

  lemma SwapRange<T>(s: seq<T>, start: nat, end: nat, i: nat)
    requires start <= i < end <= |s|
    ensures multiset(Swap(s, start, i)[start..end]) == multiset(s[start..end])
  {
  }

  lemma RangeHead<T>(s: seq<T>, start: nat, end: nat)
    requires start < end <= |s|
    ensures multiset(s[start..end]) == multiset{s[start]} + multiset(s[start + 1..end])
  {
    assert s[start..end] == [s[start]] + s[start + 1..end];
  }

  /** A rearrangement that begins with s[i] rearranges the rest after s[i] is swapped to the front. */
  lemma RearrangesStep<T>(s: seq<T>, start: nat, end: nat, i: nat, o: seq<T>)
    requires start <= i < end <= |s|
    ensures Rearranges(Swap(s, start, i), start + 1, end, o) <==> Rearranges(s, start, end, o) && o[start] == s[i]
  {
    var r := Swap(s, start, i);
    if |o| == |s| {
      SwapRange(s, start, end, i);
      var a, b := multiset(o[start + 1..end]), multiset(r[start + 1..end]);
      RangeHead(r, start, end);
      RangeHead(o, start, end);
      CancelOne(a, o[start], b, s[i]);
    }
  }

  lemma CancelOne<T>(a: multiset<T>, x: T, b: multiset<T>, y: T)
    ensures x == y ==> (multiset{x} + a == multiset{y} + b <==> a == b)
  {
    if x == y && multiset{x} + a == multiset{y} + b {
      assert a == multiset{x} + a - multiset{x};
      assert b == multiset{y} + b - multiset{y};
    }
  }

  /** Perm tries exactly the rearrangements of the range. */
  lemma {:induction false} OrdersExact<T>(s: seq<T>, start: nat, end: nat, o: seq<T>)
    requires end <= |s|
    ensures o in Orders(s, start, end) <==> Rearranges(s, start, end, o)
    decreases if start < end then end - start else 0, end + 1
  {
    if start < end {
      OrdersFromExact(s, start, end, start, o);
      if Rearranges(s, start, end, o) {
        assert o[start] in multiset(o[start..end]) by { RangeHead(o, start, end); }
        assert o[start] in s[start..end];
      }
    } else if Rearranges(s, start, end, o) {
      assert o == s;
    }
  }

  lemma {:induction false} OrdersFromExact<T>(s: seq<T>, start: nat, end: nat, i: nat, o: seq<T>)
    requires start <= i <= end <= |s| && start < end
    ensures o in OrdersFrom(s, start, end, i) <==> Rearranges(s, start, end, o) && o[start] in s[i..end]
    decreases end - start, end - i
  {
    if i < end {
      OrdersExact(Swap(s, start, i), start + 1, end, o);
      OrdersFromExact(s, start, end, i + 1, o);
      RearrangesStep(s, start, end, i, o);
      assert s[i..end] == [s[i]] + s[i + 1..end];
    }
  }

  /** No order is tried twice. */
  lemma {:induction false} OrdersDistinct<T>(s: seq<T>, start: nat, end: nat)
    requires end <= |s| && Distinct(s)
    ensures Distinct(Orders(s, start, end))
    decreases if start < end then end - start else 0, end + 1
  {
    if start < end { OrdersFromDistinct(s, start, end, start); }
  }

  lemma {:induction false} OrdersFromDistinct<T>(s: seq<T>, start: nat, end: nat, i: nat)
    requires start <= i <= end <= |s| && start < end && Distinct(s)
    ensures Distinct(OrdersFrom(s, start, end, i))
    decreases end - start, end - i
  {
    if i < end {
      var r := Swap(s, start, i);
      OrdersDistinct(r, start + 1, end);
      OrdersFromDistinct(s, start, end, i + 1);
      var here, later := Orders(r, start + 1, end), OrdersFrom(s, start, end, i + 1);
      forall o | o in here
        ensures o !in later
      {
        OrdersExact(r, start + 1, end, o);
        OrdersFromExact(s, start, end, i + 1, o);
        RearrangesStep(s, start, end, i, o);
      }
      DistinctConcat(here, later);
    }
  }

  ghost function Fact(n: nat): (r: nat)
    ensures r >= 1
  {
    if n == 0 then 1 else n * Fact(n - 1)
  }

  /** The n-th of the orders: the entry n / (m - 1)! places on comes first, where m is the length of the
      range, and the one it changed places with stands where it was; what is left of n numbers the rest. */
  ghost function Numbered<T>(s: seq<T>, start: nat, end: nat, n: nat): seq<T>
    requires end <= |s| && n < Fact(if start < end then end - start else 0)
    decreases if start < end then end - start else 0
  {
    if start >= end then s
    else
      var f := Fact(end - start - 1);
      Digit(n, end - start, f);
      Numbered(s[start := s[start + n / f]][start + n / f := s[start]], start + 1, end, n % f)
  }

  lemma Digit(n: nat, m: nat, f: nat)
    requires f >= 1 && n < m * f
    ensures n / f < m && n % f < f && n == n / f * f + n % f
  {
    assert n == n / f * f + n % f;
    Monotone(m, n / f, f);
  }

  lemma Monotone(a: nat, b: nat, f: nat)
    ensures a <= b ==> a * f <= b * f
  {
  }

  lemma OneLess(k: nat, f: nat)
    requires k > 0
    ensures k * f == f + (k - 1) * f
  {
  }

  lemma {:induction false} OrdersSize<T>(s: seq<T>, start: nat, end: nat)
    requires end <= |s|
    ensures |Orders(s, start, end)| == Fact(if start < end then end - start else 0)
    decreases if start < end then end - start else 0, end + 1
  {
    if start < end { OrdersFromSize(s, start, end, start); }
  }

  lemma {:induction false} OrdersFromSize<T>(s: seq<T>, start: nat, end: nat, i: nat)
    requires start <= i <= end <= |s| && start < end
    ensures |OrdersFrom(s, start, end, i)| == (end - i) * Fact(end - start - 1)
    decreases end - start, end - i
  {
    if i < end {
      OrdersSize(Swap(s, start, i), start + 1, end);
      OrdersFromSize(s, start, end, i + 1);
      OneLess(end - i, Fact(end - start - 1));
    }
  }

  lemma OrdersFromSplit<T>(s: seq<T>, start: nat, end: nat, i: nat)
    requires start <= i < end <= |s|
    ensures var f, here := Fact(end - start - 1), Orders(Swap(s, start, i), start + 1, end);
            var all := OrdersFrom(s, start, end, i);
            |here| == f && |all| == f + |OrdersFrom(s, start, end, i + 1)| &&
            (forall r :: 0 <= r < f ==> all[r] == here[r]) &&
            forall x :: f <= x < |all| ==> all[x] == OrdersFrom(s, start, end, i + 1)[x - f]
  {
    OrdersSize(Swap(s, start, i), start + 1, end);
  }

  /** Where the q-th block of length f begins. */
  ghost function Block(q: nat, f: nat): nat {
    if q == 0 then 0 else f + Block(q - 1, f)
  }

  lemma {:induction false} BlockIs(q: nat, f: nat)
    ensures Block(q, f) == q * f
  {
    if q > 0 {
      BlockIs(q - 1, f);
      OneLess(q, f);
    }
  }

  /** Every f of the orders begin with the same entry. */
  lemma {:induction false} OrdersFromAt<T>(s: seq<T>, start: nat, end: nat, i: nat, q: nat, r: nat)
    requires start <= i && i + q < end <= |s| && start < end && r < Fact(end - start - 1)
    ensures var here, x := Orders(Swap(s, start, i + q), start + 1, end), Block(q, Fact(end - start - 1)) + r;
            r < |here| && x < |OrdersFrom(s, start, end, i)| && OrdersFrom(s, start, end, i)[x] == here[r]
    decreases q
  {
    OrdersFromSplit(s, start, end, i);
    if q > 0 {
      OrdersFromAt(s, start, end, i + 1, q - 1, r);
    }
  }

  /** The orders in the order in which they are tried. */
  lemma {:induction false} OrdersNumbered<T>(s: seq<T>, start: nat, end: nat, n: nat)
    requires end <= |s| && n < Fact(if start < end then end - start else 0)
    ensures n < |Orders(s, start, end)| && Orders(s, start, end)[n] == Numbered(s, start, end, n)
    decreases if start < end then end - start else 0
  {
    OrdersSize(s, start, end);
    if start < end {
      var f := Fact(end - start - 1);
      Digit(n, end - start, f);
      BlockIs(n / f, f);
      OrdersFromAt(s, start, end, start, n / f, n % f);
      OrdersNumbered(Swap(s, start, start + n / f), start + 1, end, n % f);
    }
  }

  // ----- The search

  /** The orders tried up to and including the first one the route oracle accepts. */
  ghost function TriedUntil<T>(accept: seq<T> -> bool, orders: seq<seq<T>>): seq<seq<T>> {
    if orders == [] then []
    else if accept(orders[0]) then [orders[0]]
    else [orders[0]] + TriedUntil(accept, orders[1..])
  }

  ghost predicate AnyAccepted<T>(accept: seq<T> -> bool, orders: seq<seq<T>>) {
    exists o :: o in orders && accept(o)
  }

  lemma {:induction false} TriedConcat<T>(accept: seq<T> -> bool, a: seq<seq<T>>, b: seq<seq<T>>)
    ensures AnyAccepted(accept, a) ==> TriedUntil(accept, a + b) == TriedUntil(accept, a)
    ensures !AnyAccepted(accept, a) ==> TriedUntil(accept, a + b) == a + TriedUntil(accept, b)
  {
    if a == [] {
      assert a + b == b;
    } else {
      AnyHead(accept, a);
      TriedConcat(accept, a[1..], b);
      assert (a + b)[1..] == a[1..] + b && (a + b)[0] == a[0];
    }
  }

  lemma AnyHead<T>(accept: seq<T> -> bool, a: seq<seq<T>>)
    requires a != []
    ensures a == [a[0]] + a[1..] && (AnyAccepted(accept, a) <==> accept(a[0]) || AnyAccepted(accept, a[1..]))
  {
    assert forall o :: o in a <==> o == a[0] || o in a[1..];
  }

  lemma AnyConcat<T>(accept: seq<T> -> bool, a: seq<seq<T>>, b: seq<seq<T>>)
    ensures AnyAccepted(accept, a + b) <==> AnyAccepted(accept, a) || AnyAccepted(accept, b)
  {
    assert forall o :: o in a + b <==> o in a || o in b;
  }

  /** The orders tried end with the accepted one, and everything before it was rejected. */
  lemma {:induction false} TriedEnds<T>(accept: seq<T> -> bool, orders: seq<seq<T>>)
    ensures var t := TriedUntil(accept, orders);
      && t <= orders
      && (AnyAccepted(accept, orders) ==>
            t != [] && accept(t[|t| - 1]) && forall k :: 0 <= k < |t| - 1 ==> !accept(t[k]))
      && (!AnyAccepted(accept, orders) ==> t == orders)
  {
    if orders != [] {
      assert orders == [orders[0]] + orders[1..];
      if !accept(orders[0]) {
        TriedEnds(accept, orders[1..]);
        var t := TriedUntil(accept, orders[1..]);
        var u := TriedUntil(accept, orders);
        assert u == [orders[0]] + t;
        assert forall k :: 0 < k < |u| ==> u[k] == t[k - 1];
        if o :| o in orders && accept(o) { assert o in orders[1..]; }
      }
    }
  }

  method SwapTwoDays<T>(dayList: array<T>, lDay: nat, rDay: nat)
    requires lDay < dayList.Length && rDay < dayList.Length
    modifies dayList
    ensures dayList[..] == Swap(old(dayList[..]), lDay, rDay)
  {
    if lDay == rDay { return; }
    var tmpDay := dayList[lDay];
    dayList[lDay] := dayList[rDay];
    dayList[rDay] := tmpDay;
  }

  /** `accept` stands for laying out the route of an order (TrafRoute::DoRoute succeeding with a
      valid path). Returns 0 on success and 1 on failure, and the orders laid out. */
  method Perm<T>(dayList: array<T>, dayStart: nat, dayEnd: nat, accept: seq<T> -> bool)
    returns (ret: int, ghost tried: seq<seq<T>>)
    requires dayEnd <= dayList.Length
    modifies dayList
    ensures ret == 0 || ret == 1
    ensures ret == 0 <==> AnyAccepted(accept, Orders(old(dayList[..]), dayStart, dayEnd))
    ensures tried == TriedUntil(accept, Orders(old(dayList[..]), dayStart, dayEnd))
    ensures ret == 0 ==> tried != [] && dayList[..] == tried[|tried| - 1]
    ensures ret == 1 ==> dayList[..] == old(dayList[..])
    decreases if dayStart < dayEnd then dayEnd - dayStart else 0, 1
  {
    ghost var s := dayList[..];
    tried := [];
    if dayStart >= dayEnd {
      assert AnyAccepted(accept, [s]) <==> accept(s);
      ret := if accept(dayList[..]) then 0 else 1;
      tried := [s];
      return;
    }
    ghost var all := Orders(s, dayStart, dayEnd);
    var i := dayStart;
    while i < dayEnd
      invariant dayStart <= i <= dayEnd
      invariant dayList[..] == s
      invariant SoFar(accept, all, OrdersFrom(s, dayStart, dayEnd, i), tried)
    {
      ghost var here := Orders(Swap(s, dayStart, i), dayStart + 1, dayEnd);
      ghost var t;
      ret, t := PermFrom(dayList, dayStart, dayEnd, i, accept);
      SoFarNext(accept, all, here, OrdersFrom(s, dayStart, dayEnd, i + 1), tried);
      tried := tried + t;
      if ret == 0 { return; }
      i := i + 1;
    }
    return 1, tried;
  }

  /** The loop's body: day i comes first, the others are permuted, and on failure it goes back. */
  method PermFrom<T>(dayList: array<T>, dayStart: nat, dayEnd: nat, i: nat, accept: seq<T> -> bool)
    returns (ret: int, ghost tried: seq<seq<T>>)
    requires dayStart <= i < dayEnd <= dayList.Length
    modifies dayList
    ensures ret == 0 || ret == 1
    ensures var here := Orders(Swap(old(dayList[..]), dayStart, i), dayStart + 1, dayEnd);
      (ret == 0 <==> AnyAccepted(accept, here)) && tried == TriedUntil(accept, here)
    ensures ret == 0 ==> tried != [] && dayList[..] == tried[|tried| - 1]
    ensures ret == 1 ==> dayList[..] == old(dayList[..])
    decreases dayEnd - dayStart, 0
  {
    ghost var s := dayList[..];
    if i != dayStart { SwapTwoDays(dayList, dayStart, i); }
    assert dayList[..] == Swap(s, dayStart, i);
    ret, tried := Perm(dayList, dayStart + 1, dayEnd, accept);
    if ret == 1 && i != dayStart { SwapTwoDays(dayList, i, dayStart); }
    assert ret == 1 ==> dayList[..] == s;
  }

  /** The orders of tried came before those of rest, and were all rejected. */
  ghost predicate SoFar<T>(accept: seq<T> -> bool, all: seq<seq<T>>, rest: seq<seq<T>>, tried: seq<seq<T>>) {
    TriedUntil(accept, all) == tried + TriedUntil(accept, rest)
        && (AnyAccepted(accept, all) <==> AnyAccepted(accept, rest))
  }

  lemma SoFarNext<T>(accept: seq<T> -> bool, all: seq<seq<T>>, here: seq<seq<T>>, rest: seq<seq<T>>, tried: seq<seq<T>>)
    requires SoFar(accept, all, here + rest, tried)
    ensures AnyAccepted(accept, here) ==>
      AnyAccepted(accept, all) && TriedUntil(accept, all) == tried + TriedUntil(accept, here)
          && TriedUntil(accept, here) != []
    ensures !AnyAccepted(accept, here) ==> SoFar(accept, all, rest, tried + TriedUntil(accept, here))
  {
    TriedConcat(accept, here, rest);
    AnyConcat(accept, here, rest);
    TriedEnds(accept, here);
    Associate(tried, here, TriedUntil(accept, rest));
  }

  lemma Associate<T>(a: seq<T>, b: seq<T>, c: seq<T>)
    ensures a + (b + c) == a + b + c
  {
  }

  /** Perm succeeds exactly when the oracle accepts some rearrangement of the range. */
  lemma PermComplete<T>(accept: seq<T> -> bool, s: seq<T>, start: nat, end: nat)
    requires end <= |s|
    ensures AnyAccepted(accept, Orders(s, start, end)) <==> exists o :: Rearranges(s, start, end, o) && accept(o)
    ensures var t := TriedUntil(accept, Orders(s, start, end));
      && (forall o :: o in t ==> Rearranges(s, start, end, o))
      && (!AnyAccepted(accept, Orders(s, start, end)) ==> forall o :: Rearranges(s, start, end, o) ==> o in t)
      && (Distinct(s) ==> Distinct(t))
  {
    var orders := Orders(s, start, end);
    TriedEnds(accept, orders);
    forall o
      ensures o in orders <==> Rearranges(s, start, end, o)
    {
      OrdersExact(s, start, end, o);
    }
    if Distinct(s) { OrdersDistinct(s, start, end); }
    var t := TriedUntil(accept, orders);
    forall o | o in t
      ensures o in orders
    {
      var k :| 0 <= k < |t| && t[k] == o;
      assert orders[k] == o;
    }
    if o :| Rearranges(s, start, end, o) && accept(o) { assert o in orders; }
  }

  // ----- The range AdjustTight permutes

  datatype DayItem = DayItem(date: string, usedDur: int)

  /** The first day, the last day and the empty days before the last one keep their place. */
  method ChooseRange(dayList: seq<DayItem>) returns (startDay: nat, endDay: nat)
    requires 1 < |dayList|
    ensures startDay == 1 && endDay <= |dayList| - 1
    ensures forall k :: endDay <= k < |dayList| - 1 ==> dayList[k].usedDur == 0
    ensures 0 < endDay ==> dayList[endDay - 1].usedDur != 0
  {
    startDay, endDay := 1, |dayList| - 1;
    while endDay > 0 && dayList[endDay - 1].usedDur == 0
      invariant endDay <= |dayList| - 1
      invariant forall k :: endDay <= k < |dayList| - 1 ==> dayList[k].usedDur == 0
    {
      endDay := endDay - 1;
    }
  }
}
