/** When the matching of SetReferOriginViews is the only stable one: exactly when every candidate it leaves
    out has a chosen rival that is strictly nearer. */
module MatchUnique {
  import opened Prelude
  import opened ReferMatching
  import opened MatchTheory

  /** Every candidate left out has a chosen rival of smaller difference. */
  ghost predicate Strict(reqs: seq<Stay>, trips: seq<seq<Stay>>, tour: bool, origin: Origin) {
    forall c :: IsCand(reqs, trips, tour, c) && !Uses(origin, c) ==> Beaten(reqs, trips, tour, origin, c)
  }

  ghost predicate Beaten(reqs: seq<Stay>, trips: seq<seq<Stay>>, tour: bool, origin: Origin, c: Cand) {
    exists m :: IsCand(reqs, trips, tour, m) && Uses(origin, m) && Rivals(m, c) && m.diff < c.diff
  }

  ghost predicate OnlyStable(reqs: seq<Stay>, trips: seq<seq<Stay>>, tour: bool, origin: Origin) {
    forall other: Origin :: |other| == |reqs| && Stable(reqs, trips, tour, other) ==> other == origin
  }

  /** A candidate that is left out has a chosen rival at least as near. */
  lemma SettledBy(reqs: seq<Stay>, trips: seq<seq<Stay>>, tour: bool, origin: Origin, c: Cand) returns (m: Cand)
    requires Stable(reqs, trips, tour, origin) && IsCand(reqs, trips, tour, c) && !Uses(origin, c)
    ensures IsCand(reqs, trips, tour, m) && Uses(origin, m) && Rivals(m, c) && m.diff <= c.diff
  {
    assert Settled(reqs, trips, tour, origin, c);
    m :| IsCand(reqs, trips, tour, m) && UsedBy(origin, m.req, m.trip, m.route) && m.diff <= c.diff
         && (m.req == c.req || (m.trip == c.trip && m.route == c.route));
  }

  // ----- If every rival is strictly nearer

  /** Whatever another stable matching uses, the strict one uses too. */
  lemma {:induction false} NothingNew(reqs: seq<Stay>, trips: seq<seq<Stay>>, tour: bool,
                                      origin: Origin, other: Origin, c: Cand)
    requires Stable(reqs, trips, tour, origin) && Strict(reqs, trips, tour, origin)
    requires Stable(reqs, trips, tour, other) && IsCand(reqs, trips, tour, c) && Uses(other, c)
    ensures Uses(origin, c)
    decreases c.diff
  {
    if !Uses(origin, c) {
      assert Beaten(reqs, trips, tour, origin, c);
      var m :| IsCand(reqs, trips, tour, m) && Uses(origin, m) && Rivals(m, c) && m.diff < c.diff;
      if Uses(other, m) { NoRivals(reqs, trips, tour, other, m, c); }
      var m' := SettledBy(reqs, trips, tour, other, m);
      NothingNew(reqs, trips, tour, origin, other, m');
      NoRivals(reqs, trips, tour, origin, m', m);
    }
  }

  lemma StrictOnly(reqs: seq<Stay>, trips: seq<seq<Stay>>, tour: bool, origin: Origin, other: Origin)
    requires |origin| == |other| == |reqs| && Strict(reqs, trips, tour, origin)
    requires Stable(reqs, trips, tour, origin) && Stable(reqs, trips, tour, other)
    ensures other == origin
  {
    forall k | 0 <= k < |reqs|
      ensures other[k] == origin[k]
    {
      if other[k].Some? {
        var c := CandAt(reqs, trips, tour, other, k);
        NothingNew(reqs, trips, tour, origin, other, c);
      } else if origin[k].Some? {
        var c := CandAt(reqs, trips, tour, origin, k);
        var m := SettledBy(reqs, trips, tour, other, c);
        NothingNew(reqs, trips, tour, origin, other, m);
        NoRivals(reqs, trips, tour, origin, m, c);
      }
    }
  }

  /** Without ties every chosen rival of a candidate left out is strictly nearer. */
  lemma TieFreeStrict(reqs: seq<Stay>, trips: seq<seq<Stay>>, tour: bool, origin: Origin)
    requires TieFree(reqs, trips, tour) && Stable(reqs, trips, tour, origin)
    ensures Strict(reqs, trips, tour, origin)
  {
    forall c | IsCand(reqs, trips, tour, c) && !Uses(origin, c)
      ensures Beaten(reqs, trips, tour, origin, c)
    {
      var m := BetterRival(reqs, trips, tour, origin, c);
    }
  }

  /** Without ties there is one stable matching. */
  lemma StableUnique(reqs: seq<Stay>, trips: seq<seq<Stay>>, tour: bool, origin: Origin, other: Origin)
    requires TieFree(reqs, trips, tour) && |origin| == |other| == |reqs|
    requires Stable(reqs, trips, tour, origin) && Stable(reqs, trips, tour, other)
    ensures other == origin
  {
    TieFreeStrict(reqs, trips, tour, origin);
    StrictOnly(reqs, trips, tour, origin, other);
  }

  /** Without ties and long trips, any stable matching is the one that is written. */
  lemma WrittenUnique(reqs: seq<Stay>, trips: seq<seq<Stay>>, tour: bool,
                      list: seq<Cand>, picked: seq<bool>, origin: Origin, other: Origin)
    requires ShortTrips(trips) && TieFree(reqs, trips, tour) && Outcome(reqs, trips, tour, list, picked, origin)
    requires |other| == |reqs| && Stable(reqs, trips, tour, other)
    ensures other == origin
  {
    MatchingStable(reqs, trips, tour, list, picked, origin);
    StableUnique(reqs, trips, tour, origin, other);
  }

  lemma CandAt(reqs: seq<Stay>, trips: seq<seq<Stay>>, tour: bool, origin: Origin, k: nat) returns (c: Cand)
    requires Stable(reqs, trips, tour, origin) && k < |origin| && origin[k].Some?
    ensures IsCand(reqs, trips, tour, c) && Uses(origin, c) && c.req == k && origin[k] == Some((c.trip, c.route))
  {
    var (trip, route) := origin[k].value;
    c := Cand(Abs(trips[trip][route].seconds - reqs[k].seconds), k, trip, route);
  }

  // ----- If some rival is not: choosing from a list, the first of rivals wins

  ghost function Chosen(list: seq<Cand>, i: nat): set<Cand>
    requires i <= |list|
    decreases i
  {
    if i == 0 then {}
    else
      var before := Chosen(list, i - 1);
      if Rivalled(before, list[i - 1]) then before else before + {list[i - 1]}
  }

  ghost predicate Rivalled(s: set<Cand>, c: Cand) { exists m :: m in s && Rivals(m, c) }

  lemma {:induction false} ChosenFrom(list: seq<Cand>, i: nat, c: Cand)
    requires i <= |list| && c in Chosen(list, i)
    ensures exists j :: 0 <= j < i && list[j] == c
    decreases i
  {
    if c in Chosen(list, i - 1) {
      ChosenFrom(list, i - 1, c);
    } else {
      assert list[i - 1] == c;
    }
  }

  lemma {:induction false} ChosenGrows(list: seq<Cand>, i: nat, j: nat)
    requires i <= j <= |list|
    ensures Chosen(list, i) <= Chosen(list, j)
    decreases j
  {
    if i < j { ChosenGrows(list, i, j - 1); }
  }

  /** Whether an entry is chosen is decided when its turn comes. */
  lemma ChosenAt(list: seq<Cand>, j: nat)
    requires Distinct(list) && j < |list|
    ensures list[j] in Chosen(list, |list|) <==> !Rivalled(Chosen(list, j), list[j])
  {
    ChosenGrows(list, j + 1, |list|);
    if Rivalled(Chosen(list, j), list[j]) {
      NotLater(list, j, |list|);
    }
  }

  lemma {:induction false} NotLater(list: seq<Cand>, j: nat, i: nat)
    requires Distinct(list) && j < i <= |list| && Rivalled(Chosen(list, j), list[j])
    ensures list[j] !in Chosen(list, i)
    decreases i
  {
    if i == j + 1 {
      if list[j] in Chosen(list, j) { ChosenFrom(list, j, list[j]); }
    } else {
      NotLater(list, j, i - 1);
    }
  }

  lemma {:induction false} NoneRival(list: seq<Cand>, i: nat)
    requires i <= |list|
    ensures forall a, b :: a in Chosen(list, i) && b in Chosen(list, i) ==> !Rivals(a, b)
    decreases i
  {
    if i > 0 {
      NoneRival(list, i - 1);
      forall a, b | a in Chosen(list, i) && b in Chosen(list, i)
        ensures !Rivals(a, b)
      {
        if Rivals(a, b) { assert Rivals(b, a); }
      }
    }
  }

  /** The candidates, each once, nearer ones first. */
  ghost predicate Listed(reqs: seq<Stay>, trips: seq<seq<Stay>>, tour: bool, list: seq<Cand>) {
    && Distinct(list) && (forall c :: c in list <==> IsCand(reqs, trips, tour, c))
    && forall i, j :: 0 <= i < j < |list| ==> list[i].diff <= list[j].diff
  }

  ghost predicate ServedFrom(s: set<Cand>, k: nat) { exists c :: c in s && c.req == k }

  /** The matching that uses the candidates of s. */
  ghost function OriginOf(s: set<Cand>, n: nat): (r: Origin)
    ensures |r| == n
  {
    seq(n, k requires 0 <= k < n =>
      if ServedFrom(s, k) then (var c :| c in s && c.req == k; Some((c.trip, c.route))) else None)
  }

  lemma OriginUses(reqs: seq<Stay>, trips: seq<seq<Stay>>, tour: bool, s: set<Cand>, c: Cand)
    requires forall a :: a in s ==> IsCand(reqs, trips, tour, a)
    requires (forall a, b :: a in s && b in s ==> !Rivals(a, b)) && IsCand(reqs, trips, tour, c)
    ensures Uses(OriginOf(s, |reqs|), c) <==> c in s
  {
    if c in s {
      assert ServedFrom(s, c.req);
      assert forall b :: b in s && b.req == c.req ==> b == c;
    }
  }

  lemma OriginFrom(reqs: seq<Stay>, trips: seq<seq<Stay>>, tour: bool, s: set<Cand>, k: nat) returns (c: Cand)
    requires k < |reqs| && OriginOf(s, |reqs|)[k].Some?
    ensures c in s && c.req == k && OriginOf(s, |reqs|)[k] == Some((c.trip, c.route))
  {
    assert ServedFrom(s, k);
    var v := OriginOf(s, |reqs|)[k].value;
    c :| c in s && c.req == k && v == (c.trip, c.route);
  }

  /** Choosing from such a list gives a stable matching. */
  lemma ChosenStable(reqs: seq<Stay>, trips: seq<seq<Stay>>, tour: bool, list: seq<Cand>)
    requires Listed(reqs, trips, tour, list)
    ensures Stable(reqs, trips, tour, OriginOf(Chosen(list, |list|), |reqs|))
  {
    var s := Chosen(list, |list|);
    var origin := OriginOf(s, |reqs|);
    NoneRival(list, |list|);
    forall c | c in s
      ensures IsCand(reqs, trips, tour, c)
    {
      ChosenFrom(list, |list|, c);
    }
    forall k: nat | k < |origin| && origin[k].Some?
      ensures Compatible(reqs, trips, tour, k, origin[k].value.0, origin[k].value.1)
    {
      var c := OriginFrom(reqs, trips, tour, s, k);
    }
    forall k: nat, l: nat | k < l < |origin| && origin[k].Some?
      ensures origin[k] != origin[l]
    {
      var c := OriginFrom(reqs, trips, tour, s, k);
      if origin[l].Some? {
        var d := OriginFrom(reqs, trips, tour, s, l);
        assert !Rivals(c, d);
      }
    }
    forall c | IsCand(reqs, trips, tour, c)
      ensures Settled(reqs, trips, tour, origin, c)
    {
      ChosenSettles(reqs, trips, tour, list, c);
    }
  }

  lemma ChosenSettles(reqs: seq<Stay>, trips: seq<seq<Stay>>, tour: bool, list: seq<Cand>, c: Cand)
    requires Listed(reqs, trips, tour, list) && IsCand(reqs, trips, tour, c)
    ensures Settled(reqs, trips, tour, OriginOf(Chosen(list, |list|), |reqs|), c)
  {
    var s := Chosen(list, |list|);
    NoneRival(list, |list|);
    forall a | a in s
      ensures IsCand(reqs, trips, tour, a)
    {
      ChosenFrom(list, |list|, a);
    }
    var m := ChosenFor(reqs, trips, tour, list, c);
    OriginUses(reqs, trips, tour, s, m);
    assert Uses(OriginOf(s, |reqs|), m);
  }

  /** A candidate is chosen, or loses to a chosen rival that comes before it. */
  lemma ChosenFor(reqs: seq<Stay>, trips: seq<seq<Stay>>, tour: bool, list: seq<Cand>, c: Cand) returns (m: Cand)
    requires Listed(reqs, trips, tour, list) && IsCand(reqs, trips, tour, c)
    ensures m in Chosen(list, |list|) && IsCand(reqs, trips, tour, m) && m.diff <= c.diff && (m == c || Rivals(m, c))
  {
    m := c;
    if c !in Chosen(list, |list|) {
      assert c in list;
      var j :| 0 <= j < |list| && list[j] == c;
      ChosenAt(list, j);
      m :| m in Chosen(list, j) && Rivals(m, c);
      ChosenFrom(list, j, m);
      ChosenGrows(list, j, |list|);
    }
  }

  // ----- The list that prefers one candidate

  /** Nearer candidates first; of equally near ones c, then what origin uses. */
  ghost function Rank(origin: Origin, c: Cand, x: Cand): nat {
    3 * x.diff + if x == c then 0 else if Uses(origin, x) then 1 else 2
  }

  ghost predicate Ranked(origin: Origin, c: Cand, list: seq<Cand>) {
    forall i, j :: 0 <= i < j < |list| ==> Rank(origin, c, list[i]) <= Rank(origin, c, list[j])
  }

  lemma {:induction false} RankedList(origin: Origin, c: Cand, s: set<Cand>) returns (list: seq<Cand>)
    ensures Distinct(list) && Elems(list) == s && Ranked(origin, c, list)
  {
    if s == {} {
      list := [];
    } else {
      var x := Last(origin, c, s);
      var rest := RankedList(origin, c, s - {x});
      list := rest + [x];
      forall y | y in rest
        ensures y in s && y != x
      {
        assert y in Elems(rest);
      }
      DistinctConcat(rest, [x]);
      assert Elems(list) == Elems(rest) + {x};
    }
  }

  lemma {:induction false} Last(origin: Origin, c: Cand, s: set<Cand>) returns (x: Cand)
    requires s != {}
    ensures x in s && forall y :: y in s ==> Rank(origin, c, y) <= Rank(origin, c, x)
  {
    x :| x in s;
    if s != {x} {
      var rest := s - {x};
      var z := Last(origin, c, rest);
      forall y | y in s
        ensures Rank(origin, c, y) <= Rank(origin, c, if Rank(origin, c, x) < Rank(origin, c, z) then z else x)
      {
        assert y == x || y in rest;
      }
      if Rank(origin, c, x) < Rank(origin, c, z) { x := z; }
    }
  }

  ghost function Cands(reqs: seq<Stay>, trips: seq<seq<Stay>>, tour: bool): (s: set<Cand>)
    ensures forall c :: c in s <==> IsCand(reqs, trips, tour, c)
  {
    set k, i, j | 0 <= k < |reqs| && 0 <= i < |trips| && 0 <= j < |trips[i]|
      && Compatible(reqs, trips, tour, k, i, j) :: Cand(Abs(trips[i][j].seconds - reqs[k].seconds), k, i, j)
  }

  /** Up to the difference of c, choosing in this order gives what origin has. */
  lemma {:induction false} SameBelow(reqs: seq<Stay>, trips: seq<seq<Stay>>, tour: bool, origin: Origin, c: Cand,
                                     list: seq<Cand>, j: nat)
    requires Stable(reqs, trips, tour, origin) && !Uses(origin, c)
    requires Listed(reqs, trips, tour, list) && Ranked(origin, c, list) && j < |list| && list[j].diff < c.diff
    ensures list[j] in Chosen(list, |list|) <==> Uses(origin, list[j])
    decreases j
  {
    var x := list[j];
    ChosenAt(list, j);
    if Uses(origin, x) {
      if Rivalled(Chosen(list, j), x) {
        var y :| y in Chosen(list, j) && Rivals(y, x);
        ChosenFrom(list, j, y);
        var i :| 0 <= i < j && list[i] == y;
        ChosenGrows(list, j, |list|);
        SameBelow(reqs, trips, tour, origin, c, list, i);
        NoRivals(reqs, trips, tour, origin, y, x);
      }
    } else {
      var i := RivalBefore(reqs, trips, tour, origin, c, list, j);
      SameBelow(reqs, trips, tour, origin, c, list, i);
      ChosenEarlier(list, i, j);
    }
  }

  lemma RivalBefore(reqs: seq<Stay>, trips: seq<seq<Stay>>, tour: bool, origin: Origin, c: Cand,
                    list: seq<Cand>, j: nat) returns (i: nat)
    requires Stable(reqs, trips, tour, origin) && !Uses(origin, c) && Listed(reqs, trips, tour, list)
    requires Ranked(origin, c, list) && j < |list| && list[j].diff < c.diff && !Uses(origin, list[j])
    ensures i < j && list[i].diff < c.diff && Uses(origin, list[i]) && Rivals(list[i], list[j])
  {
    var m := SettledBy(reqs, trips, tour, origin, list[j]);
    assert m in list;
    i :| 0 <= i < |list| && list[i] == m;
    RankBefore(origin, c, list, i, j);
  }

  lemma RankBefore(origin: Origin, c: Cand, list: seq<Cand>, i: nat, j: nat)
    requires Ranked(origin, c, list) && i < |list| && j < |list| && list[i].diff <= list[j].diff
    requires Uses(origin, list[i]) && !Uses(origin, list[j]) && list[j] != c
    ensures i < j
  {
    assert Rank(origin, c, list[i]) < Rank(origin, c, list[j]);
  }

  /** A chosen entry is chosen by the time later ones come. */
  lemma ChosenEarlier(list: seq<Cand>, i: nat, j: nat)
    requires Distinct(list) && i < j <= |list| && list[i] in Chosen(list, |list|)
    ensures list[i] in Chosen(list, j)
  {
    ChosenAt(list, i);
    ChosenGrows(list, i + 1, j);
  }

  lemma RankedCands(reqs: seq<Stay>, trips: seq<seq<Stay>>, tour: bool, origin: Origin, c: Cand)
    returns (list: seq<Cand>)
    ensures Listed(reqs, trips, tour, list) && Ranked(origin, c, list)
  {
    list := RankedList(origin, c, Cands(reqs, trips, tour));
    assert forall x :: x in list <==> x in Elems(list);
    assert forall i, j :: 0 <= i < j < |list| ==> Rank(origin, c, list[i]) <= Rank(origin, c, list[j]);
  }

  /** Without a strictly nearer chosen rival, some stable matching uses the candidate that is left out. */
  lemma OtherStable(reqs: seq<Stay>, trips: seq<seq<Stay>>, tour: bool, origin: Origin, c: Cand)
    returns (other: Origin)
    requires Stable(reqs, trips, tour, origin) && IsCand(reqs, trips, tour, c) && !Uses(origin, c)
    requires !Beaten(reqs, trips, tour, origin, c)
    ensures |other| == |reqs| && Stable(reqs, trips, tour, other) && Uses(other, c)
  {
    var list := RankedCands(reqs, trips, tour, origin, c);
    var s := Chosen(list, |list|);
    other := OriginOf(s, |reqs|);
    ChosenStable(reqs, trips, tour, list);
    PreferredChosen(reqs, trips, tour, origin, c, list);
    NoneRival(list, |list|);
    forall a | a in s
      ensures IsCand(reqs, trips, tour, a)
    {
      ChosenFrom(list, |list|, a);
    }
    OriginUses(reqs, trips, tour, s, c);
  }

  lemma PreferredChosen(reqs: seq<Stay>, trips: seq<seq<Stay>>, tour: bool, origin: Origin, c: Cand, list: seq<Cand>)
    requires Stable(reqs, trips, tour, origin) && IsCand(reqs, trips, tour, c) && !Uses(origin, c)
    requires !Beaten(reqs, trips, tour, origin, c) && Listed(reqs, trips, tour, list) && Ranked(origin, c, list)
    ensures c in Chosen(list, |list|)
  {
    var j :| 0 <= j < |list| && list[j] == c;
    ChosenAt(list, j);
    if y :| y in Chosen(list, j) && Rivals(y, c) {
      ChosenFrom(list, j, y);
      var i :| 0 <= i < j && list[i] == y;
      assert Rank(origin, c, y) <= Rank(origin, c, c);
      ChosenGrows(list, j, |list|);
      SameBelow(reqs, trips, tour, origin, c, list, i);
    }
  }

  // ----- The exact condition

  /** A stable matching is the only one exactly when every candidate it leaves out has a chosen rival that is
      strictly nearer. */
  lemma UniqueExactly(reqs: seq<Stay>, trips: seq<seq<Stay>>, tour: bool, origin: Origin)
    requires |origin| == |reqs| && Stable(reqs, trips, tour, origin)
    ensures OnlyStable(reqs, trips, tour, origin) <==> Strict(reqs, trips, tour, origin)
  {
    if Strict(reqs, trips, tour, origin) {
      forall other: Origin | |other| == |reqs| && Stable(reqs, trips, tour, other)
        ensures other == origin
      {
        StrictOnly(reqs, trips, tour, origin, other);
      }
    } else {
      var c :| IsCand(reqs, trips, tour, c) && !Uses(origin, c) && !Beaten(reqs, trips, tour, origin, c);
      var other := OtherStable(reqs, trips, tour, origin, c);
      assert other != origin;
    }
  }

  /** So it is for what is written for trips of at most 101 stays. */
  lemma WrittenUniqueExactly(reqs: seq<Stay>, trips: seq<seq<Stay>>, tour: bool,
                             list: seq<Cand>, picked: seq<bool>, origin: Origin)
    requires ShortTrips(trips) && Outcome(reqs, trips, tour, list, picked, origin)
    ensures OnlyStable(reqs, trips, tour, origin) <==> Strict(reqs, trips, tour, origin)
  {
    MatchingStable(reqs, trips, tour, list, picked, origin);
    UniqueExactly(reqs, trips, tour, origin);
  }
}
