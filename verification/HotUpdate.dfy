/** The hot swap of shared data (MJHotUpdate): worker threads register the version they use, and one
    updater thread builds new versions and deletes old ones. Each action below is one critical
    section or one thread-local step; a run is any interleaving of them. */
module HotUpdate {
  import opened Prelude

  /** A version of the shared data, that is, one result of reloadData. */
  type Version = nat

  type Stamp = string

  datatype Item = Item(lastTS: Stamp, newTS: Stamp)

  /** Where the updater is: at the loop head, past the time query, or holding a built version. */
  datatype Phase = Idle | Queried | Loaded(ptr: Version)

  datatype Core = Core(
    threads: seq<Option<Version>>, cur: Version, newer: Option<Version>, items: seq<Item>, phase: Phase)

  datatype Action =
    | Acquire(t: nat)
    | Release(t: nat)
    | Retire
    | Query(answers: seq<Option<Stamp>>)
    | Reload(built: Option<Version>)
    | Install

  predicate Enabled(c: Core, a: Action) {
    match a
    case Acquire(t) => t < |c.threads|
    case Release(t) => t < |c.threads|
    case Retire => c.phase.Idle? && c.newer.Some?
    case Query(answers) => c.phase.Idle? && c.newer.None? && |answers| == |c.items| && c.items != []
    case Reload(_) => c.phase.Queried?
    case Install => c.phase.Loaded?
  }

  function Newest(c: Core): Version {
    if c.newer.Some? then c.newer.value else c.cur
  }

  predicate InUse(c: Core, v: Version) {
    Some(v) in c.threads
  }

  function Asked(item: Item, answer: Option<Stamp>): Item {
    Item(item.newTS, if answer.Some? then answer.value else item.newTS)
  }

  function AskAll(items: seq<Item>, answers: seq<Option<Stamp>>): (r: seq<Item>)
    requires |answers| == |items|
    ensures |r| == |items|
  {
    seq(|items|, i requires 0 <= i < |items| => Asked(items[i], answers[i]))
  }

  predicate NeedUpdate(items: seq<Item>) {
    exists i :: 0 <= i < |items| && items[i].lastTS != items[i].newTS
  }

  lemma NeedUpdateSnoc(items: seq<Item>, item: Item)
    ensures NeedUpdate(items + [item]) <==> NeedUpdate(items) || item.lastTS != item.newTS
  {
    var all := items + [item];
    if i :| 0 <= i < |items| && items[i].lastTS != items[i].newTS { assert all[i] == items[i]; }
    assert all[|items|] == item;
  }

  function Reset(items: seq<Item>): (r: seq<Item>)
    ensures |r| == |items|
  {
    seq(|items|, i requires 0 <= i < |items| => Item(items[i].lastTS, items[i].lastTS))
  }

  function Step(c: Core, a: Action): Core
    requires Enabled(c, a)
  {
    match a
    case Acquire(t) => c.(threads := c.threads[t := Some(Newest(c))])
    case Release(t) => c.(threads := c.threads[t := None])
    case Retire => if InUse(c, c.cur) then c else c.(cur := c.newer.value, newer := None)
    case Query(answers) =>
      var items := AskAll(c.items, answers);
      c.(items := items, phase := if NeedUpdate(items) then Queried else Idle)
    case Reload(built) =>
      if built.Some? then c.(phase := Loaded(built.value)) else c.(items := Reset(c.items), phase := Idle)
    case Install => c.(newer := Some(c.phase.ptr), phase := Idle)
  }

  // ----- The methods of the source

  class MJHotUpdate {
    const threadData: array<Option<Version>>
    const updateItems: array<Item>
    var cur: Version
    var newer: Option<Version>
    var phase: Phase  // the updater's place in the body of svc

    ghost function State(): Core
      reads this, threadData, updateItems
    {
      Core(threadData[..], cur, newer, updateItems[..], phase)
    }

    method AddSharedDataPtr(t: nat)
      requires Enabled(State(), Acquire(t))
      modifies threadData
      ensures State() == Step(old(State()), Acquire(t))
      ensures threadData[t] == if newer.Some? then newer else Some(cur)
      ensures forall k :: 0 <= k < threadData.Length && k != t ==> threadData[k] == old(threadData[k])
    {
      if newer.Some? { threadData[t] := newer; } else { threadData[t] := Some(cur); }
    }

    method DelSharedDataPtr(t: nat)
      requires Enabled(State(), Release(t))
      modifies threadData
      ensures State() == Step(old(State()), Release(t))
      ensures threadData[t] == None
      ensures forall k :: 0 <= k < threadData.Length && k != t ==> threadData[k] == old(threadData[k])
    {
      threadData[t] := None;
    }

    /** The write-locked part of svc that deletes the old version once no thread uses it. */
    method TryRetire() returns (canDel: bool, deleted: Option<Version>)
      requires Enabled(State(), Retire)
      modifies this
      ensures State() == Step(old(State()), Retire)
      ensures canDel <==> forall k :: 0 <= k < threadData.Length ==> threadData[k] != Some(old(cur))
      ensures if canDel then deleted == Some(old(cur)) && old(newer) == Some(cur) && newer == None
              else deleted == None && cur == old(cur) && newer == old(newer)
    {
      canDel, deleted := true, None;
      for i := 0 to threadData.Length
        invariant canDel && forall k :: 0 <= k < i ==> threadData[k] != Some(cur)
        invariant State() == old(State())
      {
        if threadData[i] == Some(cur) {
          assert threadData[..][i] == Some(cur);
          canDel := false;
          break;
        }
      }
      if canDel {
        deleted := Some(cur);
        cur, newer := newer.value, None;
      }
    }

    /** getUpdateTime and the comparison after it; `answers` is what the database replied. */
    method GetUpdateTime(answers: seq<Option<Stamp>>) returns (needUpdate: bool)
      requires Enabled(State(), Query(answers))
      modifies this`phase, updateItems
      ensures State() == Step(old(State()), Query(answers))
      ensures forall k :: 0 <= k < updateItems.Length ==>
        && updateItems[k].lastTS == old(updateItems[k].newTS)
        && updateItems[k].newTS == match answers[k] { case None => old(updateItems[k].newTS) case Some(ts) => ts }
      ensures needUpdate <==> exists k :: 0 <= k < updateItems.Length && answers[k].Some? &&
                                answers[k].value != old(updateItems[k].newTS)
      ensures phase == if needUpdate then Queried else Idle
    {
      for i := 0 to updateItems.Length
        invariant phase == old(phase)
        invariant forall k :: 0 <= k < updateItems.Length ==>
          updateItems[k] == if k < i then Asked(old(updateItems[k]), answers[k]) else old(updateItems[k])
      {
        updateItems[i] := Item(updateItems[i].newTS, updateItems[i].newTS);
        if answers[i].Some? {
          updateItems[i] := Item(updateItems[i].lastTS, answers[i].value);
        }
      }
      assert updateItems[..] == AskAll(old(updateItems[..]), answers);
      ghost var items, before := updateItems[..], State();
      needUpdate := false;
      for i := 0 to updateItems.Length
        invariant updateItems[..] == items && State() == before
        invariant needUpdate == NeedUpdate(items[..i])
      {
        if updateItems[i].lastTS != updateItems[i].newTS { needUpdate := true; }
        NeedUpdateSnoc(items[..i], items[i]);
        assert items[..i + 1] == items[..i] + [items[i]];
      }
      assert items[..updateItems.Length] == items;
      if needUpdate { phase := Queried; }
    }

    /** What svc does with the result of reloadData before it takes the write lock. */
    method AfterReload(built: Option<Version>)
      requires Enabled(State(), Reload(built))
      modifies this`phase, updateItems
      ensures State() == Step(old(State()), Reload(built))
      ensures phase == match built { case None => Idle case Some(ptr) => Loaded(ptr) }
      ensures forall k :: 0 <= k < updateItems.Length ==>
        && updateItems[k].lastTS == old(updateItems[k].lastTS)
        && updateItems[k].newTS == if built.Some? then old(updateItems[k].newTS) else old(updateItems[k].lastTS)
    {
      if built.None? {
        for i := 0 to updateItems.Length
          invariant forall k :: 0 <= k < updateItems.Length ==>
            updateItems[k] ==
              if k < i then Item(old(updateItems[k]).lastTS, old(updateItems[k]).lastTS) else old(updateItems[k])
        {
          updateItems[i] := Item(updateItems[i].lastTS, updateItems[i].lastTS);
        }
        assert updateItems[..] == Reset(old(updateItems[..]));
        phase := Idle;
      } else {
        phase := Loaded(built.value);
      }
    }

    method InstallNew()
      requires Enabled(State(), Install)
      modifies this
      ensures State() == Step(old(State()), Install)
      ensures old(phase) == Loaded(newer.value) && newer.Some? && phase == Idle && cur == old(cur)
    {
      newer := Some(phase.ptr);
      phase := Idle;
    }
  }

  // ----- What the whole system keeps

  /** The core and its history: which versions exist, in which order they were installed, the stamps
      each was built with, the reload interval of every install, and what each thread saw last. */
  datatype System = System(
    core: Core,
    live: set<Version>, deleted: set<Version>,
    installed: seq<Version>, stamps: map<Version, seq<Stamp>>,
    intervals: seq<(seq<Stamp>, seq<Stamp>)>,
    seen: seq<nat>)

  function LastStamps(items: seq<Item>): seq<Stamp> {
    seq(|items|, i requires 0 <= i < |items| => items[i].lastTS)
  }

  function NewStamps(items: seq<Item>): seq<Stamp> {
    seq(|items|, i requires 0 <= i < |items| => items[i].newTS)
  }

  /** reloadData returns data that is not in use under another name. */
  ghost predicate Allowed(s: System, a: Action) {
    && Enabled(s.core, a)
    && (a.Reload? && a.built.Some? ==> a.built.value !in s.live + s.deleted)
  }

  ghost function Next(s: System, a: Action): System
    requires Enabled(s.core, a) && |s.seen| == |s.core.threads| && s.installed != []
  {
    var c := Step(s.core, a);
    match a
    case Acquire(t) => s.(core := c, seen := s.seen[t := |s.installed| - 1])
    case Release(_) => s.(core := c)
    case Retire =>
      if InUse(s.core, s.core.cur) then s.(core := c)
      else s.(core := c, live := s.live - {s.core.cur}, deleted := s.deleted + {s.core.cur})
    case Query(_) => s.(core := c)
    case Reload(built) =>
      if built.None? then s.(core := c)
      else s.(core := c, live := s.live + {built.value},
              stamps := s.stamps[built.value := NewStamps(s.core.items)])
    case Install =>
      s.(core := c, installed := s.installed + [s.core.phase.ptr],
         intervals := s.intervals + [(LastStamps(s.core.items), NewStamps(s.core.items))])
  }

  ghost function Pending(c: Core): set<Version> {
    if c.phase.Loaded? then {c.phase.ptr} else {}
  }

  /** Safety: what a thread holds is alive, and at most two versions are. */
  ghost predicate Safe(s: System) {
    var c := s.core;
    && s.live == {c.cur} + (if c.newer.Some? then {c.newer.value} else {}) + Pending(c)
    && s.live !! s.deleted
    && (c.newer.Some? ==> c.newer.value != c.cur && c.phase.Idle?)
    && (c.phase.Loaded? ==> c.phase.ptr != c.cur)
    && (forall v :: Some(v) in c.threads ==> v == c.cur || c.newer == Some(v))
  }

  /** Freshness: the newest version is the last one installed, and no thread saw a newer one. */
  ghost predicate Current(s: System) {
    && |s.seen| == |s.core.threads|
    && s.installed != [] && s.installed[|s.installed| - 1] == Newest(s.core)
    && forall t :: 0 <= t < |s.seen| ==> s.seen[t] < |s.installed|
  }

  /** The reload intervals (lastTS, newTS] follow each other without a gap or an overlap. */
  ghost predicate Contiguous(intervals: seq<(seq<Stamp>, seq<Stamp>)>) {
    forall k :: 0 < k < |intervals| ==> intervals[k - 1].1 == intervals[k].0
  }

  /** Bookkeeping: at the loop head each table's newTS is the stamp built into the newest version;
      past the query it is its lastTS; and the last interval ends there. */
  ghost predicate Stamped(s: System)
    requires Current(s)
  {
    var c := s.core;
    && Newest(c) in s.stamps
    && (c.phase.Idle? ==> NewStamps(c.items) == s.stamps[Newest(c)])
    && (!c.phase.Idle? ==> LastStamps(c.items) == s.stamps[Newest(c)])
    && (c.phase.Loaded? ==> c.phase.ptr in s.stamps && s.stamps[c.phase.ptr] == NewStamps(c.items))
    && Contiguous(s.intervals)
    && (s.intervals != [] ==> s.intervals[|s.intervals| - 1].1 == s.stamps[Newest(c)])
  }

  ghost predicate Inv(s: System) {
    Safe(s) && Current(s) && Stamped(s)
  }

  ghost predicate Init(s: System) {
    var c := s.core;
    && (forall t :: 0 <= t < |c.threads| ==> c.threads[t] == None)
    && c.newer.None? && c.phase.Idle?
    && s.live == {c.cur} && s.deleted == {} && s.installed == [c.cur]
    && s.stamps == map[c.cur := NewStamps(c.items)] && s.intervals == []
    && |s.seen| == |c.threads| && forall t :: 0 <= t < |s.seen| ==> s.seen[t] == 0
  }

  lemma InitInv(s: System)
    requires Init(s)
    ensures Inv(s)
  {
  }

  lemma NextSafe(s: System, a: Action)
    requires Inv(s) && Allowed(s, a)
    ensures Safe(Next(s, a))
  {
  }

  lemma NextStamped(s: System, a: Action)
    requires Inv(s) && Allowed(s, a)
    ensures Current(Next(s, a)) && Stamped(Next(s, a))
  {
  }

  /** Every action of every thread keeps the invariant. */
  lemma NextInv(s: System, a: Action)
    requires Inv(s) && Allowed(s, a)
    ensures Inv(Next(s, a))
  {
    NextSafe(s, a);
    NextStamped(s, a);
  }

  // ----- Whole runs

  /** `run` is a run of the actions `as_` from run[0]. */
  ghost predicate IsRun(run: seq<System>, actions: seq<Action>) {
    && |run| == |actions| + 1
    && forall k :: 0 <= k < |actions| ==> IsStep(run[k], actions[k], run[k + 1])
  }

  ghost predicate IsStep(s: System, a: Action, s': System) {
    Allowed(s, a) && |s.seen| == |s.core.threads| && s.installed != [] && s' == Next(s, a)
  }

  lemma {:induction false} RunInv(run: seq<System>, actions: seq<Action>, k: nat)
    requires IsRun(run, actions) && Init(run[0]) && k < |run|
    ensures Inv(run[k])
  {
    if k == 0 {
      InitInv(run[0]);
    } else {
      RunInv(run, actions, k - 1);
      assert IsStep(run[k - 1], actions[k - 1], run[k]);
      NextInv(run[k - 1], actions[k - 1]);
    }
  }

  /** In every run, whatever a thread is registered with is alive and was never deleted, and at most
      two versions are alive. */
  lemma RunSafe(run: seq<System>, actions: seq<Action>, k: nat)
    requires IsRun(run, actions) && Init(run[0]) && k < |run|
    ensures var s := run[k];
      && (forall v :: InUse(s.core, v) ==> v in s.live && v !in s.deleted)
      && |s.live| <= 2
  {
    RunInv(run, actions, k);
    var c := run[k].core;
    if c.newer.Some? {
      assert run[k].live == {c.cur, c.newer.value};
    } else if c.phase.Loaded? {
      assert run[k].live == {c.cur, c.phase.ptr};
    } else {
      assert run[k].live == {c.cur};
    }
  }

  /** A step deletes at most the old version, which was alive, never deleted before, and unused. */
  lemma DeleteOnce(s: System, a: Action, v: Version)
    requires Inv(s) && Allowed(s, a) && v in Next(s, a).deleted && v !in s.deleted
    ensures a.Retire? && v == s.core.cur && v in s.live && !InUse(s.core, v)
  {
  }

  lemma {:induction false} RunDeletedStays(run: seq<System>, actions: seq<Action>, j: nat, k: nat)
    requires IsRun(run, actions) && j <= k < |run|
    ensures run[j].deleted <= run[k].deleted && run[j].installed <= run[k].installed
    decreases k - j
  {
    if j < k {
      RunDeletedStays(run, actions, j, k - 1);
      assert IsStep(run[k - 1], actions[k - 1], run[k]);
    }
  }

  /** Once deleted, a version is never handed out again. */
  lemma DeletedForGood(run: seq<System>, actions: seq<Action>, j: nat, k: nat, v: Version)
    requires IsRun(run, actions) && Init(run[0]) && j <= k < |run| && v in run[j].deleted
    ensures !InUse(run[k].core, v) && v !in run[k].live
  {
    RunDeletedStays(run, actions, j, k);
    RunInv(run, actions, k);
    RunSafe(run, actions, k);
  }

  /** Every acquire hands out the version installed last. */
  lemma AcquireNewest(run: seq<System>, actions: seq<Action>, k: nat)
    requires IsRun(run, actions) && Init(run[0]) && k < |actions| && actions[k].Acquire?
    ensures var t := actions[k].t; var s := run[k];
      && t < |run[k + 1].core.threads|
      && s.installed != [] && run[k + 1].core.threads[t] == Some(s.installed[|s.installed| - 1])
      && t < |run[k + 1].seen| && run[k + 1].seen[t] == |s.installed| - 1
  {
    RunInv(run, actions, k);
    assert IsStep(run[k], actions[k], run[k + 1]);
  }

  /** No thread ever acquires an older version than one it acquired before. */
  lemma {:induction false} NeverOlder(run: seq<System>, actions: seq<Action>, t: nat, j: nat, k: nat)
    requires IsRun(run, actions) && Init(run[0]) && j <= k < |run| && t < |run[0].seen|
    ensures t < |run[j].seen| && t < |run[k].seen| && run[j].seen[t] <= run[k].seen[t]
    decreases k
  {
    RunInv(run, actions, k);
    SeenSize(run, actions, j);
    SeenSize(run, actions, k);
    if j < k {
      NeverOlder(run, actions, t, j, k - 1);
      RunInv(run, actions, k - 1);
      assert IsStep(run[k - 1], actions[k - 1], run[k]);
    }
  }

  lemma {:induction false} SeenSize(run: seq<System>, actions: seq<Action>, k: nat)
    requires IsRun(run, actions) && k < |run|
    ensures |run[k].seen| == |run[0].seen|
  {
    if k > 0 {
      SeenSize(run, actions, k - 1);
      assert IsStep(run[k - 1], actions[k - 1], run[k]);
    }
  }

  /** Every update is loaded exactly once: in every run, the reload intervals join up, start at the
      stamps of the initial data and end at the stamps of the newest version, whatever queries or
      reloads failed in between. */
  lemma RunIntervals(run: seq<System>, actions: seq<Action>, k: nat)
    requires IsRun(run, actions) && Init(run[0]) && k < |run|
    ensures var s := run[k];
      && Contiguous(s.intervals)
      && Newest(s.core) in s.stamps
      && (s.intervals != [] ==>
            && s.intervals[0].0 == NewStamps(run[0].core.items)
            && s.intervals[|s.intervals| - 1].1 == s.stamps[Newest(s.core)])
      && (s.core.phase.Idle? ==> NewStamps(s.core.items) == s.stamps[Newest(s.core)])
  {
    RunInv(run, actions, k);
    FirstInterval(run, actions, k);
  }

  lemma {:induction false} FirstInterval(run: seq<System>, actions: seq<Action>, k: nat)
    requires IsRun(run, actions) && Init(run[0]) && k < |run|
    ensures var s := run[k];
      && Newest(s.core) in s.stamps
      && (if s.intervals == [] then s.stamps[Newest(s.core)] == NewStamps(run[0].core.items)
          else s.intervals[0].0 == NewStamps(run[0].core.items))
  {
    RunInv(run, actions, k);
    if k > 0 {
      FirstInterval(run, actions, k - 1);
      RunInv(run, actions, k - 1);
      assert IsStep(run[k - 1], actions[k - 1], run[k]);
    }
  }

  // ----- What the database says reaches the next version

  /** The stamp a table has once this answer is in. */
  function Answered(answer: Option<Stamp>, before: Stamp): Stamp {
    match answer case None => before case Some(ts) => ts
  }

  /** A query goes on to a reload exactly if some table's answer differs from the stamp built into the newest
      version. */
  lemma QueryNotices(run: seq<System>, actions: seq<Action>, k: nat, answers: seq<Option<Stamp>>)
    requires IsRun(run, actions) && Init(run[0]) && k < |actions| && actions[k] == Query(answers)
    ensures var s, newest := run[k], Newest(run[k].core);
      && newest in s.stamps && |s.stamps[newest]| == |answers|
      && (run[k + 1].core.phase.Queried? <==>
            exists i :: 0 <= i < |answers| && Answered(answers[i], s.stamps[newest][i]) != s.stamps[newest][i])
  {
    RunInv(run, actions, k);
    assert IsStep(run[k], actions[k], run[k + 1]);
    var items, stamps := run[k].core.items, run[k].stamps[Newest(run[k].core)];
    var asked := AskAll(items, answers);
    forall i | 0 <= i < |answers|
      ensures asked[i].lastTS != asked[i].newTS <==> Answered(answers[i], stamps[i]) != stamps[i]
    {
      assert NewStamps(items)[i] == stamps[i];
    }
  }

  /** Between a query and the next reload the tables keep its answers. */
  lemma {:induction false} QueriedStays(run: seq<System>, actions: seq<Action>, j: nat, k: nat)
    requires IsRun(run, actions) && j <= k < |run| && run[j].core.phase.Queried?
    requires forall i :: j <= i < k ==> !actions[i].Reload?
    ensures run[k].core.phase.Queried? && run[k].core.items == run[j].core.items
    decreases k - j
  {
    if j < k {
      QueriedStays(run, actions, j, k - 1);
      assert IsStep(run[k - 1], actions[k - 1], run[k]);
    }
  }

  lemma {:induction false} LoadedStays(run: seq<System>, actions: seq<Action>, j: nat, k: nat, v: Version)
    requires IsRun(run, actions) && j <= k < |run| && run[j].core.phase == Loaded(v) && v in run[j].stamps
    requires forall i :: j <= i < k ==> !actions[i].Install?
    ensures run[k].core.phase == Loaded(v) && v in run[k].stamps && run[k].stamps[v] == run[j].stamps[v]
    decreases k - j
  {
    if j < k {
      LoadedStays(run, actions, j, k - 1, v);
      assert IsStep(run[k - 1], actions[k - 1], run[k]);
    }
  }

  /** The version that is built after a query and then installed is the newest one, and its stamps are the answers
      to that query, and those of the version before it where there was no answer. */
  lemma AnswersInstalled(run: seq<System>, actions: seq<Action>, k: nat, l: nat, m: nat,
                         answers: seq<Option<Stamp>>, v: Version)
    requires IsRun(run, actions) && Init(run[0]) && k < l < m < |actions|
    requires actions[k] == Query(answers) && actions[l] == Reload(Some(v)) && actions[m] == Install
    requires forall i :: k < i < l ==> !actions[i].Reload? && !actions[i].Query?
    requires forall i :: l < i < m ==> !actions[i].Install?
    ensures var s, t := run[k], run[m + 1];
      && t.core.newer == Some(v) && Newest(s.core) in s.stamps && v in t.stamps
      && |t.stamps[v]| == |s.stamps[Newest(s.core)]| == |answers|
      && forall i :: 0 <= i < |answers| ==> t.stamps[v][i] == Answered(answers[i], s.stamps[Newest(s.core)][i])
  {
    RunInv(run, actions, k);
    RunInv(run, actions, l);
    assert IsStep(run[k], actions[k], run[k + 1]) && IsStep(run[l], actions[l], run[l + 1]);
    assert IsStep(run[m], actions[m], run[m + 1]);
    if run[k + 1].core.phase.Queried? {
      QueriedStays(run, actions, k + 1, l);
      LoadedStays(run, actions, l + 1, m, v);
      var items, stamps := run[k].core.items, run[k].stamps[Newest(run[k].core)];
      forall i | 0 <= i < |answers|
        ensures NewStamps(AskAll(items, answers))[i] == Answered(answers[i], stamps[i])
      {
        assert NewStamps(items)[i] == stamps[i];
      }
    } else {
      IdleStays(run, actions, k + 1, l);
    }
  }

  lemma {:induction false} IdleStays(run: seq<System>, actions: seq<Action>, j: nat, k: nat)
    requires IsRun(run, actions) && j <= k < |run| && run[j].core.phase.Idle?
    requires forall i :: j <= i < k ==> !actions[i].Query?
    ensures run[k].core.phase.Idle?
    decreases k - j
  {
    if j < k {
      IdleStays(run, actions, j, k - 1);
      assert IsStep(run[k - 1], actions[k - 1], run[k]);
    }
  }

  // ----- The old version does go away

  ghost predicate Uses(c: Core, t: nat, v: Version) {
    t < |c.threads| && c.threads[t] == Some(v)
  }

  /** While a new version waits, a thread that stops using the old one never uses it again. */
  lemma UsersDecrease(s: System, a: Action, t: nat)
    requires Inv(s) && Allowed(s, a) && s.core.newer.Some?
    requires Next(s, a).core.newer.Some?
    ensures Next(s, a).core.cur == s.core.cur
    ensures Uses(Next(s, a).core, t, s.core.cur) ==> Uses(s.core, t, s.core.cur)
    ensures (a.Acquire? || a.Release?) && a.t == t ==> !Uses(Next(s, a).core, t, s.core.cur)
  {
  }

  /** The i-th action is thread t acquiring or releasing. */
  ghost predicate Touches(actions: seq<Action>, i: nat, t: nat) {
    i < |actions| && (actions[i] == Acquire(t) || actions[i] == Release(t))
  }

  ghost predicate Touched(actions: seq<Action>, j: nat, k: nat, t: nat) {
    exists i: nat :: j <= i < k && Touches(actions, i, t)
  }

  /** The grace period: once every thread has acquired or released after the new version was
      installed, the next retire step deletes the old version. */
  lemma GracePeriod(run: seq<System>, actions: seq<Action>, j: nat, k: nat)
    requires IsRun(run, actions) && Init(run[0]) && j <= k < |run|
    requires forall i :: j <= i <= k ==> run[i].core.newer.Some?
    requires forall t: nat :: t < |run[0].seen| ==> Touched(actions, j, k, t)
    ensures !InUse(run[k].core, run[k].core.cur)
    ensures Allowed(run[k], Retire) ==> Step(run[k].core, Retire).cur == run[k].core.newer.value
  {
    SeenSize(run, actions, k);
    RunInv(run, actions, k);
    forall t | 0 <= t < |run[k].core.threads|
      ensures !Uses(run[k].core, t, run[k].core.cur)
    {
      assert Touched(actions, j, k, t);
      var i: nat :| j <= i < k && Touches(actions, i, t);
      RunInv(run, actions, i);
      assert IsStep(run[i], actions[i], run[i + 1]);
      UsersDecrease(run[i], actions[i], t);
      StaysOut(run, actions, t, i + 1, k);
    }
    var c := run[k].core;
    forall t | 0 <= t < |c.threads|
      ensures c.threads[t] != Some(c.cur)
    {
      assert !Uses(c, t, c.cur);
    }
  }

  lemma {:induction false} StaysOut(run: seq<System>, actions: seq<Action>, t: nat, j: nat, k: nat)
    requires IsRun(run, actions) && Init(run[0]) && j <= k < |run|
    requires forall i :: j <= i <= k ==> run[i].core.newer.Some?
    requires !Uses(run[j].core, t, run[j].core.cur)
    ensures run[k].core.cur == run[j].core.cur && !Uses(run[k].core, t, run[k].core.cur)
    decreases k - j
  {
    if j < k {
      StaysOut(run, actions, t, j, k - 1);
      RunInv(run, actions, k - 1);
      assert IsStep(run[k - 1], actions[k - 1], run[k]);
      UsersDecrease(run[k - 1], actions[k - 1], t);
    }
  }
}
