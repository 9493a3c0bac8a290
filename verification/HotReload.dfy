/** Exactly which data reloadData may return (MJHotUpdate::svc): whatever is not in memory yet. */
module HotReload {
  import opened Prelude
  import opened HotUpdate

  ghost predicate Sized(s: System) {
    |s.seen| == |s.core.threads| && s.installed != []
  }

  /** These actions can follow s, and each reloadData among them returns new memory. */
  ghost predicate Follows(s: System, actions: seq<Action>)
    decreases |actions|
  {
    actions == [] || (Sized(s) && Allowed(s, actions[0]) && Follows(Next(s, actions[0]), actions[1..]))
  }

  ghost function Outcome(s: System, actions: seq<Action>): System
    requires Follows(s, actions)
    decreases |actions|
  {
    if actions == [] then s else Outcome(Next(s, actions[0]), actions[1..])
  }

  /** A thread is registered with deleted memory. */
  ghost predicate Dangling(s: System) { exists v :: InUse(s.core, v) && v in s.deleted }

  /** Other things going well, a thread may still be left with deleted memory. */
  ghost predicate CanDangle(s: System) {
    exists actions :: Follows(s, actions) && Dangling(Outcome(s, actions))
  }

  lemma FollowsOne(s: System, a: Action)
    requires Sized(s) && Allowed(s, a)
    ensures Follows(s, [a]) && Outcome(s, [a]) == Next(s, a)
  {
    assert [a][1..] == [];
    assert Follows(Next(s, a), []);
  }

  lemma {:induction false} FollowsConcat(s: System, xs: seq<Action>, ys: seq<Action>)
    requires Follows(s, xs) && Follows(Outcome(s, xs), ys)
    ensures Follows(s, xs + ys) && Outcome(s, xs + ys) == Outcome(Outcome(s, xs), ys)
    decreases |xs|
  {
    if xs == [] {
      assert xs + ys == ys;
    } else {
      assert (xs + ys)[1..] == xs[1..] + ys;
      FollowsConcat(Next(s, xs[0]), xs[1..], ys);
    }
  }

  lemma Then(s: System, xs: seq<Action>, a: Action) returns (r: System)
    requires Follows(s, xs) && Sized(Outcome(s, xs)) && Allowed(Outcome(s, xs), a)
    ensures r == Next(Outcome(s, xs), a) && Follows(s, xs + [a]) && Outcome(s, xs + [a]) == r
  {
    FollowsOne(Outcome(s, xs), a);
    FollowsConcat(s, xs, [a]);
    r := Next(Outcome(s, xs), a);
  }

  /** From a state that keeps the invariant, with reloads that return new memory, nothing dangles. */
  lemma {:induction false} NeverDangles(s: System, actions: seq<Action>)
    requires Inv(s) && Follows(s, actions)
    ensures !Dangling(Outcome(s, actions))
    decreases |actions|
  {
    if actions != [] {
      NextInv(s, actions[0]);
      NeverDangles(Next(s, actions[0]), actions[1..]);
    }
  }

  function Unregistered(threads: seq<Option<Version>>, k: nat): (r: seq<Option<Version>>)
    requires k <= |threads|
    ensures |r| == |threads| && forall t :: 0 <= t < |threads| ==> r[t] == if t < k then None else threads[t]
  {
    seq(|threads|, t requires 0 <= t < |threads| => if t < k then None else threads[t])
  }

  /** The first k threads let go of their data. */
  lemma {:induction false} ReleaseAll(s: System, k: nat) returns (actions: seq<Action>)
    requires Sized(s) && k <= |s.core.threads|
    ensures Follows(s, actions)
    ensures Outcome(s, actions) == s.(core := s.core.(threads := Unregistered(s.core.threads, k)))
  {
    if k == 0 {
      actions := [];
      assert Unregistered(s.core.threads, 0) == s.core.threads;
    } else {
      var before := ReleaseAll(s, k - 1);
      var r := Then(s, before, Release(k - 1));
      actions := before + [Release(k - 1)];
      assert Unregistered(s.core.threads, k - 1)[k - 1 := None] == Unregistered(s.core.threads, k);
    }
  }

  /** The state after reloadData returned v. */
  ghost function Reloaded(s: System, v: Version): System
    requires Inv(s) && s.core.phase.Queried?
  {
    Next(s, Reload(Some(v)))
  }

  /** Returning deleted memory hands it to the next thread that asks. */
  lemma DeletedDangles(s: System, v: Version)
    requires Inv(s) && s.core.phase.Queried? && |s.core.threads| > 0 && v in s.deleted
    ensures CanDangle(Reloaded(s, v))
  {
    var r := Reloaded(s, v);
    FollowsOne(r, Install);
    var end := Then(r, [Install], Acquire(0));
    assert end.core.threads[0] == Some(v);
    assert InUse(end.core, v) && v in end.deleted;
  }

  /** Returning the current data gets it deleted once no thread uses it, and then handed out. */
  lemma CurrentDangles(s: System)
    requires Inv(s) && s.core.phase.Queried? && |s.core.threads| > 0
    ensures CanDangle(Reloaded(s, s.core.cur))
  {
    var v, n := s.core.cur, |s.core.threads|;
    var r := Reloaded(s, v);
    FollowsOne(r, Install);
    var i := Next(r, Install);
    var releases := ReleaseAll(i, n);
    FollowsConcat(r, [Install], releases);
    var xs := [Install] + releases;
    assert !InUse(Outcome(r, xs).core, v);
    var d := Then(r, xs, Retire);
    var end := Then(r, xs + [Retire], Acquire(0));
    assert end.core.threads[0] == Some(v);
    assert InUse(end.core, v) && v in end.deleted;
  }

  /** reloadData must return new memory, and nothing else is asked of it: if it returns v, some way to go on
      leaves a thread with deleted memory exactly if v is in memory or was deleted before. */
  lemma ReloadExact(s: System, v: Version)
    requires Inv(s) && s.core.phase.Queried? && |s.core.threads| > 0
    ensures CanDangle(Reloaded(s, v)) <==> v in s.live + s.deleted
  {
    if v in s.deleted {
      DeletedDangles(s, v);
    } else if v in s.live {
      CurrentDangles(s);
    } else {
      NextInv(s, Reload(Some(v)));
      forall actions | Follows(Reloaded(s, v), actions)
        ensures !Dangling(Outcome(Reloaded(s, v), actions))
      {
        NeverDangles(Reloaded(s, v), actions);
      }
    }
  }
}
