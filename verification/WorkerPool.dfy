/** The thread pool as a state machine (MyThreadPool.cpp): every interleaving of registering threads,
    submitted workers, threads taking and finishing them, a flush, and callers that wait. Each step is
    one critical section of the code; the queue's steps are those that TaskList refines. */
module WorkerPool {
  import opened Prelude

  type Thread = int
  type Worker = int

  /** wait_worker_done: the workers it waits for, and how far its scan has come. */
  datatype Waiter = Waiter(workers: seq<Worker>, i: nat, returned: bool)

  datatype State = State(
    total: nat,                    // threads of the pool, one memory pool each
    ids: map<Thread, nat>,         // registered threads and their numbers
    alive: bool,
    queue: seq<Worker>,            // oldest first
    running: map<Thread, Worker>,
    done: set<Worker>,             // workers with _state == 1
    waiters: map<int, Waiter>,
    accepted: seq<Worker>,         // history: put while alive
    started: seq<Worker>,          // history: taken by a thread
    lost: seq<Worker>)             // history: put after the flush

  ghost predicate Init(s: State) {
    s.ids == map[] && s.alive && s.queue == [] && s.running == map[] && s.done == {} &&
    s.waiters == map[] && s.accepted == [] && s.started == [] && s.lost == []
  }

  datatype Step =
    | Register(t: Thread)
    | Add(w: Worker)
    | Take(t: Thread)
    | Finish(t: Thread)
    | Flush
    | Wait(k: int, workers: seq<Worker>)
    | Look(k: int)
    | Return(k: int)

  ghost predicate Enabled(s: State, step: Step) {
    match step
    case Register(t) => t !in s.ids && |s.ids| < s.total
    case Add(w) => w !in s.accepted && w !in s.lost
    case Take(t) => t in s.ids && t !in s.running && s.alive && s.queue != []
    case Finish(t) => t in s.running
    case Flush => true
    case Wait(k, _) => k !in s.waiters
    case Look(k) => k in s.waiters && s.waiters[k].i < |s.waiters[k].workers| &&
                    s.waiters[k].workers[s.waiters[k].i] in s.done
    case Return(k) => k in s.waiters && s.waiters[k].i == |s.waiters[k].workers|
  }

  ghost function Next(s: State, step: Step): State
    requires Enabled(s, step)
  {
    match step
    case Register(t) => s.(ids := s.ids[t := |s.ids|])
    case Add(w) =>
      if s.alive then s.(queue := s.queue + [w], accepted := s.accepted + [w])
      else s.(lost := s.lost + [w])
    case Take(t) =>
      s.(queue := s.queue[1..], running := s.running[t := s.queue[0]], started := s.started + [s.queue[0]])
    case Finish(t) => s.(running := s.running - {t}, done := s.done + {s.running[t]})
    case Flush => s.(alive := false)
    case Wait(k, ws) => s.(waiters := s.waiters[k := Waiter(ws, 0, false)])
    case Look(k) => s.(waiters := s.waiters[k := s.waiters[k].(i := s.waiters[k].i + 1)])
    case Return(k) => s.(waiters := s.waiters[k := s.waiters[k].(returned := true)])
  }

  // What every step keeps

  /** Workers start in the order in which they were accepted, each once. */
  ghost predicate InOrder(s: State) {
    s.accepted == s.started + s.queue && Distinct(s.accepted) && Distinct(s.lost) &&
    forall w :: w in s.accepted ==> w !in s.lost
  }

  /** A started worker is running in one thread or done. */
  ghost predicate StartedOnce(s: State) {
    (forall t :: t in s.running ==> t in s.ids && s.running[t] in s.started && s.running[t] !in s.done) &&
    (forall t, u :: t in s.running && u in s.running && t != u ==> s.running[t] != s.running[u]) &&
    (forall w :: w in s.done ==> w in s.started) &&
    (forall w :: w in s.started && w !in s.done ==> exists t :: t in s.running && s.running[t] == w)
  }

  /** Threads have numbers of their own, so no two use the same memory pool. */
  ghost predicate Numbered(s: State) {
    |s.ids| <= s.total && (forall t :: t in s.ids ==> s.ids[t] < |s.ids|) &&
    forall t, u :: t in s.ids && u in s.ids && t != u ==> s.ids[t] != s.ids[u]
  }

  /** What a waiter has scanned is done, and it returns at the end of its scan. */
  ghost predicate Scanned(s: State) {
    forall k :: k in s.waiters ==> ScannedOne(s.done, s.waiters[k])
  }

  ghost predicate ScannedOne(done: set<Worker>, w: Waiter) {
    w.i <= |w.workers| && (w.returned ==> w.i == |w.workers|) && forall j :: 0 <= j < w.i ==> w.workers[j] in done
  }

  ghost predicate Inv(s: State) { InOrder(s) && StartedOnce(s) && Numbered(s) && Scanned(s) }

  lemma NextInOrder(s: State, step: Step)
    requires InOrder(s) && Enabled(s, step)
    ensures InOrder(Next(s, step))
  {
  }

  lemma NextStartedOnce(s: State, step: Step)
    requires InOrder(s) && StartedOnce(s) && Enabled(s, step)
    ensures StartedOnce(Next(s, step))
  {
    var n := Next(s, step);
    match step
    case Take(t) =>
      var w := s.queue[0];
      PartsDiffer(s.started, s.queue);
      assert n.running[t] == w;
      forall v | v in n.started && v !in n.done
        ensures exists u :: u in n.running && n.running[u] == v
      {
        if v != w {
          var u :| u in s.running && s.running[u] == v;
          assert u in n.running && n.running[u] == v;
        }
      }
    case Finish(t) =>
      forall v | v in n.started && v !in n.done
        ensures exists u :: u in n.running && n.running[u] == v
      {
        var u :| u in s.running && s.running[u] == v;
        assert u in n.running && n.running[u] == v;
      }
    case _ =>
  }

  lemma NextNumbered(s: State, step: Step)
    requires Numbered(s) && Enabled(s, step)
    ensures Numbered(Next(s, step))
  {
  }

  lemma NextScanned(s: State, step: Step)
    requires Scanned(s) && Enabled(s, step)
    ensures Scanned(Next(s, step))
  {
  }

  lemma NextInv(s: State, step: Step)
    requires Inv(s) && Enabled(s, step)
    ensures Inv(Next(s, step))
  {
    NextInOrder(s, step);
    NextStartedOnce(s, step);
    NextNumbered(s, step);
    NextScanned(s, step);
  }

  // Runs

  ghost predicate Possible(s: State, steps: seq<Step>)
    decreases |steps|
  {
    steps == [] || (Enabled(s, steps[0]) && Possible(Next(s, steps[0]), steps[1..]))
  }

  ghost function After(s: State, steps: seq<Step>): State
    requires Possible(s, steps)
    decreases |steps|
  {
    if steps == [] then s else After(Next(s, steps[0]), steps[1..])
  }

  lemma {:induction false} RunInv(s: State, steps: seq<Step>)
    requires Inv(s) && Possible(s, steps)
    ensures Inv(After(s, steps))
    decreases |steps|
  {
    if steps != [] {
      NextInv(s, steps[0]);
      RunInv(Next(s, steps[0]), steps[1..]);
    }
  }

  ghost function Places(s: State, w: Worker): int {
    (if w in s.queue then 1 else 0) + (if exists t :: t in s.running && s.running[t] == w then 1 else 0) +
    (if w in s.done then 1 else 0) + (if w in s.lost then 1 else 0)
  }

  /** Whatever the interleaving, every worker submitted is in exactly one place: queued, running, done,
      or lost because the list had been flushed. Nothing else is anywhere. */
  lemma ExactlyOnce(s: State, steps: seq<Step>, w: Worker)
    requires Init(s) && Possible(s, steps)
    ensures var r := After(s, steps);
            Places(r, w) == if w in r.accepted || w in r.lost then 1 else 0
  {
    RunInv(s, steps);
    InOnePlace(After(s, steps), w);
  }

  lemma InOnePlace(s: State, w: Worker)
    requires Inv(s)
    ensures Places(s, w) == if w in s.accepted || w in s.lost then 1 else 0
  {
    assert w in s.accepted <==> w in s.started || w in s.queue;
    PartsDiffer(s.started, s.queue);
  }

  lemma PartsDiffer(a: seq<Worker>, b: seq<Worker>)
    requires Distinct(a + b)
    ensures forall x :: x in a ==> x !in b
  {
    forall i, j | 0 <= i < |a| && 0 <= j < |b|
      ensures a[i] != b[j]
    {
      assert (a + b)[i] == a[i] && (a + b)[|a| + j] == b[j];
    }
  }

  /** Tasks start first in, first out, and no two run in the same memory pool. */
  lemma Fifo(s: State, steps: seq<Step>)
    requires Init(s) && Possible(s, steps)
    ensures var r := After(s, steps);
            r.started <= r.accepted && Distinct(r.started) &&
            forall t, u :: t in r.running && u in r.running && t != u ==>
              t in r.ids && u in r.ids && r.ids[t] != r.ids[u] && r.ids[t] < r.total
  {
    RunInv(s, steps);
    var r := After(s, steps);
    assert forall i :: 0 <= i < |r.started| ==> r.accepted[i] == r.started[i];
  }

  /** When wait_worker_done returns, all its workers are done, although its scan never looks back. */
  lemma WaitSound(s: State, steps: seq<Step>, k: int, j: nat)
    requires Init(s) && Possible(s, steps)
    requires var r := After(s, steps);
             k in r.waiters && r.waiters[k].returned && j < |r.waiters[k].workers|
    ensures var r := After(s, steps);
            r.waiters[k].workers[j] in r.done
  {
    RunInv(s, steps);
    var r := After(s, steps);
    assert ScannedOne(r.done, r.waiters[k]);
  }

  /** Once all its workers are done, a waiter gets through by its own steps alone. */
  lemma {:induction false} WaitCompletes(s: State, k: int)
    requires Inv(s) && k in s.waiters
    requires var ws := s.waiters[k].workers; forall j :: 0 <= j < |ws| ==> ws[j] in s.done
    ensures exists steps :: Possible(s, steps) && k in After(s, steps).waiters && After(s, steps).waiters[k].returned
    decreases |s.waiters[k].workers| - s.waiters[k].i
  {
    var w := s.waiters[k];
    assert ScannedOne(s.done, w);
    var step := if w.i < |w.workers| then Look(k) else Return(k);
    assert Enabled(s, step);
    var n := Next(s, step);
    var rest := [];
    if w.i < |w.workers| {
      NextInv(s, step);
      WaitCompletes(n, k);
      rest :| Possible(n, rest) && k in After(n, rest).waiters && After(n, rest).waiters[k].returned;
    }
    Prepend(s, step, rest);
  }

  lemma Prepend(s: State, step: Step, rest: seq<Step>)
    requires Enabled(s, step) && Possible(Next(s, step), rest)
    ensures Possible(s, [step] + rest) && After(s, [step] + rest) == After(Next(s, step), rest)
  {
  }

  /** After a flush no queued or lost worker is ever started, so nobody waiting for one returns. */
  lemma {:induction false} Abandoned(s: State, steps: seq<Step>, w: Worker)
    requires Inv(s) && Possible(s, steps) && !s.alive && (w in s.queue || w in s.lost)
    ensures var r := After(s, steps);
            !r.alive && r.queue == s.queue && r.started == s.started && w !in r.done &&
            forall k :: k in r.waiters && w in r.waiters[k].workers ==> !r.waiters[k].returned
    decreases |steps|
  {
    if steps != [] {
      NextInv(s, steps[0]);
      Abandoned(Next(s, steps[0]), steps[1..], w);
    } else {
      InOnePlace(s, w);
      forall k | k in s.waiters && w in s.waiters[k].workers
        ensures !s.waiters[k].returned
      {
        assert ScannedOne(s.done, s.waiters[k]);
      }
    }
  }

  /** Every worker that waiter k waits for has been taken by a thread. */
  ghost predicate AllStarted(s: State, k: int)
    requires k in s.waiters
  {
    var ws := s.waiters[k].workers; forall j :: 0 <= j < |ws| ==> ws[j] in s.started
  }

  ghost predicate CanReturn(s: State, k: int) {
    exists steps :: Possible(s, steps) && k in After(s, steps).waiters && After(s, steps).waiters[k].returned
  }

  /** After a flush nothing more is started, and a waiter goes on waiting for the same workers. */
  lemma {:induction false} Frozen(s: State, steps: seq<Step>, k: int)
    requires Possible(s, steps) && !s.alive && k in s.waiters
    ensures var r := After(s, steps);
      r.started == s.started && k in r.waiters && r.waiters[k].workers == s.waiters[k].workers
    decreases |steps|
  {
    if steps != [] {
      Frozen(Next(s, steps[0]), steps[1..], k);
    }
  }

  lemma CanStep(s: State, step: Step, k: int)
    requires Enabled(s, step) && CanReturn(Next(s, step), k)
    ensures CanReturn(s, k)
  {
    var rest :| Possible(Next(s, step), rest) && k in After(Next(s, step), rest).waiters
                && After(Next(s, step), rest).waiters[k].returned;
    Prepend(s, step, rest);
  }

  /** Once every worker it waits for has started, a waiter can return: the threads finish, and it looks. */
  lemma {:induction false} StartedReturns(s: State, k: int)
    requires Inv(s) && k in s.waiters && AllStarted(s, k)
    ensures CanReturn(s, k)
    decreases |s.running|
  {
    if t :| t in s.running {
      assert Enabled(s, Finish(t));
      NextInv(s, Finish(t));
      WorkShrinks(s, Finish(t));
      StartedReturns(Next(s, Finish(t)), k);
      CanStep(s, Finish(t), k);
    } else {
      assert forall w :: w in s.started ==> w in s.done;
      WaitCompletes(s, k);
    }
  }

  lemma OnlyStarted(s: State, k: int, steps: seq<Step>)
    requires Inv(s) && !s.alive && k in s.waiters && Possible(s, steps)
    requires k in After(s, steps).waiters && After(s, steps).waiters[k].returned
    ensures AllStarted(s, k)
  {
    var r := After(s, steps);
    Frozen(s, steps, k);
    RunInv(s, steps);
    assert ScannedOne(r.done, r.waiters[k]);
    assert forall w :: w in r.done ==> w in r.started;
    var ws := r.waiters[k].workers;
    forall j | 0 <= j < |ws|
      ensures ws[j] in s.started
    {
      assert ws[j] in r.done;
    }
  }

  /** After a flush a waiter can still return exactly if every worker it waits for has been started. */
  lemma ReturnsAfterFlush(s: State, k: int)
    requires Inv(s) && !s.alive && k in s.waiters
    ensures CanReturn(s, k) <==> AllStarted(s, k)
  {
    if steps :| Possible(s, steps) && k in After(s, steps).waiters && After(s, steps).waiters[k].returned {
      OnlyStarted(s, k, steps);
    }
    if AllStarted(s, k) {
      StartedReturns(s, k);
    }
  }

  /** Steps of the threads still to come: each worker has to be taken and finished. */
  ghost function WorkLeft(s: State): nat { 2 * |s.queue| + |s.running| }

  lemma WorkShrinks(s: State, step: Step)
    requires Inv(s) && Enabled(s, step)
    ensures step.Take? || step.Finish? ==> WorkLeft(Next(s, step)) == WorkLeft(s) - 1
    ensures !(step.Take? || step.Finish? || step.Add?) ==> WorkLeft(Next(s, step)) == WorkLeft(s)
  {
  }

  /** A pool that has a thread and has not been flushed only rests when every accepted worker is done. */
  lemma RestsWhenDone(s: State, t: Thread)
    requires Inv(s) && s.alive && t in s.ids
    requires forall u :: !Enabled(s, Take(u))
    requires forall u :: !Enabled(s, Finish(u))
    ensures forall w :: w in s.accepted ==> w in s.done
  {
    assert !Enabled(s, Take(t)) && !Enabled(s, Finish(t));
    assert s.queue == [];
    forall u
      ensures u !in s.running
    {
      assert !Enabled(s, Finish(u));
    }
    assert s.running == map[];
    assert s.accepted == s.started;
  }
}
