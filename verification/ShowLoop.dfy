/** Exactly when the loops of ListResortViewShopRestTour end. */
module ShowLoop {
  import opened ShowList

  /** Some visit ends the loops. Without any list there are no visits, and they go on for ever. */
  ghost predicate LoopEnds<T>(lists: seq<seq<T>>, perNum: seq<nat>, maxNum: seq<nat>, topNum: int)
    requires Shaped(lists, perNum, maxNum)
  {
    exists m: nat, i: nat :: i <= |lists| && !At(lists, perNum, maxNum, topNum, m, i).1
  }

  /** How many items of each list have been taken. */
  ghost function Done<T>(lists: seq<seq<T>>, hasNum: seq<nat>): (r: seq<nat>)
    requires |hasNum| == |lists|
    ensures |r| == |lists| && forall l :: 0 <= l < |lists| ==> r[l] == Min(hasNum[l], |lists[l]|)
  {
    seq(|lists|, l requires 0 <= l < |lists| => Min(hasNum[l], |lists[l]|))
  }

  ghost predicate Booked<T>(lists: seq<seq<T>>, maxNum: seq<nat>, topNum: int, s: Tour<T>)
    requires |lists| == |maxNum| == |s.hasNum|
  {
    && |s.pList| == Sum(Done(lists, s.hasNum))
    && (forall l :: 0 <= l < |lists| ==> s.hasNum[l] <= |lists[l]| || s.hasNum[l] == maxNum[l])
    && (!s.needAdd ==> forall l :: 0 <= l < |lists| ==> s.hasNum[l] <= maxNum[l])
    && (topNum < 1 ==> !s.needAdd)
  }

  lemma StepBooked<T>(lists: seq<seq<T>>, perNum: seq<nat>, maxNum: seq<nat>, topNum: int, s: Tour<T>, i: nat)
    requires TourOf(lists, perNum, maxNum, s) && i < |lists| && Booked(lists, maxNum, topNum, s)
    ensures Booked(lists, maxNum, topNum, Step(lists, perNum, maxNum, topNum, Sum(Sizes(lists)), s, i).0)
  {
    var s1 := Step(lists, perNum, maxNum, topNum, Sum(Sizes(lists)), s, i).0;
    var d, d1 := Done(lists, s.hasNum), Done(lists, s1.hasNum);
    SumUpdate(d, i, d1[i]);
    assert d1 == d[i := d1[i]];
  }

  lemma {:induction false} AtBooked<T>(lists: seq<seq<T>>, perNum: seq<nat>, maxNum: seq<nat>, topNum: int, m: nat,
                                       i: nat)
    requires Shaped(lists, perNum, maxNum) && i <= |lists|
    ensures Booked(lists, maxNum, topNum, At(lists, perNum, maxNum, topNum, m, i).0)
    decreases m, i
  {
    if i > 0 {
      AtBooked(lists, perNum, maxNum, topNum, m, i - 1);
      StepBooked(lists, perNum, maxNum, topNum, At(lists, perNum, maxNum, topNum, m, i - 1).0, i - 1);
    } else if m > 0 {
      AtBooked(lists, perNum, maxNum, topNum, m - 1, |lists|);
    } else {
      SumZero(Done(lists, At(lists, perNum, maxNum, topNum, 0, 0).0.hasNum));
    }
  }

  // ----- Nothing asked for, and quotas that leave items behind

  lemma DoneAtMost<T>(lists: seq<seq<T>>, maxNum: seq<nat>, topNum: int, s: Tour<T>)
    requires |lists| == |maxNum| == |s.hasNum| && Booked(lists, maxNum, topNum, s)
    ensures |s.pList| <= Sum(Sizes(lists))
    ensures !s.needAdd ==> |s.pList| <= Sum(Quotas(lists, maxNum))
  {
    SumMono(Done(lists, s.hasNum), Sizes(lists));
    if !s.needAdd {
      SumMono(Done(lists, s.hasNum), Quotas(lists, maxNum));
    }
  }

  lemma {:induction false} NeverEnds<T>(lists: seq<seq<T>>, perNum: seq<nat>, maxNum: seq<nat>, topNum: int, m: nat,
                                        i: nat)
    requires Shaped(lists, perNum, maxNum) && i <= |lists|
    requires topNum < 1 && Sum(Quotas(lists, maxNum)) < Sum(Sizes(lists))
    ensures At(lists, perNum, maxNum, topNum, m, i).1
    decreases m, i
  {
    if i > 0 {
      NeverEnds(lists, perNum, maxNum, topNum, m, i - 1);
      AtBooked(lists, perNum, maxNum, topNum, m, i);
      DoneAtMost(lists, maxNum, topNum, At(lists, perNum, maxNum, topNum, m, i).0);
    } else if m > 0 {
      NeverEnds(lists, perNum, maxNum, topNum, m - 1, |lists|);
    }
  }

  // ----- Otherwise every pass gets further

  /** While the loops go on, fewer items have been taken than were asked for. */
  lemma {:induction false} Unfilled<T>(lists: seq<seq<T>>, perNum: seq<nat>, maxNum: seq<nat>, topNum: int, m: nat,
                                       i: nat)
    requires Shaped(lists, perNum, maxNum) && i <= |lists| && 1 <= topNum
    requires At(lists, perNum, maxNum, topNum, m, i).1
    ensures |At(lists, perNum, maxNum, topNum, m, i).0.pList| < topNum
    decreases m, i
  {
    if i > 0 {
      Unfilled(lists, perNum, maxNum, topNum, m, i - 1);
    } else if m > 0 {
      Unfilled(lists, perNum, maxNum, topNum, m - 1, |lists|);
    }
  }

  /** A list that a visit could take nothing from. */
  ghost predicate Idle<T>(lists: seq<seq<T>>, maxNum: seq<nat>, s: Tour<T>, l: nat)
    requires |lists| == |maxNum| == |s.hasNum| && l < |lists|
  {
    if s.needAdd then s.hasNum[l] >= |lists[l]| else s.hasNum[l] == maxNum[l]
  }

  lemma StepIdle<T>(lists: seq<seq<T>>, perNum: seq<nat>, maxNum: seq<nat>, topNum: int, s: Tour<T>, i: nat)
    requires Shaped(lists, perNum, maxNum) && TourOf(lists, perNum, maxNum, s) && i < |lists|
    requires Booked(lists, maxNum, topNum, s) && (1 <= topNum ==> |s.pList| < topNum)
    ensures var s1 := Step(lists, perNum, maxNum, topNum, Sum(Sizes(lists)), s, i).0;
      && |s.pList| <= |s1.pList| && (s.needAdd ==> s1.needAdd)
      && (forall l :: 0 <= l < |lists| && l != i ==> s1.hasNum[l] == s.hasNum[l])
      && (|s1.pList| == |s.pList| && s1.needAdd == s.needAdd ==> Idle(lists, maxNum, s1, i))
  {
  }

  ghost predicate IdleTo<T>(lists: seq<seq<T>>, maxNum: seq<nat>, s: Tour<T>, i: nat)
    requires |lists| == |maxNum| == |s.hasNum| && i <= |lists|
  {
    forall l :: 0 <= l < i ==> Idle(lists, maxNum, s, l)
  }

  lemma IdleNext<T>(lists: seq<seq<T>>, maxNum: seq<nat>, s: Tour<T>, s1: Tour<T>, i: nat)
    requires |lists| == |maxNum| == |s.hasNum| == |s1.hasNum| && i < |lists|
    requires forall l :: 0 <= l < |lists| && l != i ==> s1.hasNum[l] == s.hasNum[l]
    ensures s1.needAdd == s.needAdd && IdleTo(lists, maxNum, s, i) && Idle(lists, maxNum, s1, i) ==>
              IdleTo(lists, maxNum, s1, i + 1)
  {
    if s1.needAdd == s.needAdd && IdleTo(lists, maxNum, s, i) && Idle(lists, maxNum, s1, i) {
      forall l | 0 <= l <= i
        ensures Idle(lists, maxNum, s1, l)
      {
        if l < i { assert Idle(lists, maxNum, s, l); }
      }
    }
  }

  /** After a pass in which nothing changed, every list is idle. */
  lemma {:induction false} IdleUpto<T>(lists: seq<seq<T>>, perNum: seq<nat>, maxNum: seq<nat>, topNum: int, m: nat,
                                       i: nat)
    requires Shaped(lists, perNum, maxNum) && i <= |lists| && At(lists, perNum, maxNum, topNum, m, i).1
    ensures var s0, s := At(lists, perNum, maxNum, topNum, m, 0).0, At(lists, perNum, maxNum, topNum, m, i).0;
      && |s0.pList| <= |s.pList| && (s0.needAdd ==> s.needAdd)
      && (|s0.pList| == |s.pList| && s0.needAdd == s.needAdd ==>
            IdleTo(lists, maxNum, s, i))
    decreases i
  {
    if i > 0 {
      var before := At(lists, perNum, maxNum, topNum, m, i - 1).0;
      IdleUpto(lists, perNum, maxNum, topNum, m, i - 1);
      AtBooked(lists, perNum, maxNum, topNum, m, i - 1);
      if 1 <= topNum { Unfilled(lists, perNum, maxNum, topNum, m, i - 1); }
      StepIdle(lists, perNum, maxNum, topNum, before, i - 1);
      IdleNext(lists, maxNum, before, At(lists, perNum, maxNum, topNum, m, i).0, i - 1);
    }
  }

  lemma AllIdle<T>(lists: seq<seq<T>>, maxNum: seq<nat>, topNum: int, s: Tour<T>)
    requires |lists| == |maxNum| == |s.hasNum| && Booked(lists, maxNum, topNum, s)
    requires IdleTo(lists, maxNum, s, |lists|)
    ensures if s.needAdd then |s.pList| == Sum(Sizes(lists))
            else s.hasNum == maxNum && |s.pList| == Sum(Quotas(lists, maxNum))
  {
    forall l | 0 <= l < |lists|
      ensures if s.needAdd then s.hasNum[l] >= |lists[l]| else s.hasNum[l] == maxNum[l]
    {
      assert Idle(lists, maxNum, s, l);
    }
    if s.needAdd {
      assert Done(lists, s.hasNum) == Sizes(lists);
    } else {
      assert s.hasNum == maxNum;
      assert Done(lists, s.hasNum) == Quotas(lists, maxNum);
    }
  }

  lemma PassProgress<T>(lists: seq<seq<T>>, perNum: seq<nat>, maxNum: seq<nat>, topNum: int, m: nat)
    requires ValidInput(lists, perNum, maxNum, topNum) && At(lists, perNum, maxNum, topNum, m, |lists|).1
    ensures var s0, s := At(lists, perNum, maxNum, topNum, m, 0).0, At(lists, perNum, maxNum, topNum, m, |lists|).0;
      |s0.pList| < |s.pList| || (|s0.pList| == |s.pList| && s.needAdd && !s0.needAdd)
  {
    var n := |lists|;
    var s0, s := At(lists, perNum, maxNum, topNum, m, 0).0, At(lists, perNum, maxNum, topNum, m, n).0;
    IdleUpto(lists, perNum, maxNum, topNum, m, n);
    AtBooked(lists, perNum, maxNum, topNum, m, n);
    if |s0.pList| == |s.pList| && s0.needAdd == s.needAdd {
      AllIdle(lists, maxNum, topNum, s);
      if 1 <= topNum { Unfilled(lists, perNum, maxNum, topNum, m, n); }
    }
  }

  lemma {:induction false} EndsFrom<T>(lists: seq<seq<T>>, perNum: seq<nat>, maxNum: seq<nat>, topNum: int, m: nat)
    requires ValidInput(lists, perNum, maxNum, topNum)
    ensures LoopEnds(lists, perNum, maxNum, topNum)
    decreases Sum(Sizes(lists)) - |At(lists, perNum, maxNum, topNum, m, 0).0.pList|,
              if At(lists, perNum, maxNum, topNum, m, 0).0.needAdd then 0 else 1
  {
    var n := |lists|;
    if At(lists, perNum, maxNum, topNum, m, n).1 {
      PassProgress(lists, perNum, maxNum, topNum, m);
      AtBooked(lists, perNum, maxNum, topNum, m + 1, 0);
      DoneAtMost(lists, maxNum, topNum, At(lists, perNum, maxNum, topNum, m + 1, 0).0);
      EndsFrom(lists, perNum, maxNum, topNum, m + 1);
    }
  }

  /** The loops end exactly if there is a list, and either something is asked for or the quotas take
      every item. */
  lemma LoopEndsExactly<T>(lists: seq<seq<T>>, perNum: seq<nat>, maxNum: seq<nat>, topNum: int)
    requires Shaped(lists, perNum, maxNum)
    ensures LoopEnds(lists, perNum, maxNum, topNum) <==> ValidInput(lists, perNum, maxNum, topNum)
  {
    if ValidInput(lists, perNum, maxNum, topNum) {
      EndsFrom(lists, perNum, maxNum, topNum, 0);
    } else {
      SumMono(Quotas(lists, maxNum), Sizes(lists));
      forall m: nat, i: nat | i <= |lists|
        ensures At(lists, perNum, maxNum, topNum, m, i).1
      {
        if lists == [] {
          NoVisits(lists, perNum, maxNum, topNum, m);
        } else {
          NeverEnds(lists, perNum, maxNum, topNum, m, i);
        }
      }
    }
  }

  lemma {:induction false} NoVisits<T>(lists: seq<seq<T>>, perNum: seq<nat>, maxNum: seq<nat>, topNum: int, m: nat)
    requires Shaped(lists, perNum, maxNum) && lists == []
    ensures At(lists, perNum, maxNum, topNum, m, 0).1
  {
    if m > 0 { NoVisits(lists, perNum, maxNum, topNum, m - 1); }
  }
}
