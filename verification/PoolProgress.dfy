/** The pool never deadlocks, and apart from spurious wakeups it cannot run for ever. */
module PoolProgress {
  import opened PoolProtocol
  import opened PoolSafety
  import opened PoolShutdown

  // ---------- No deadlock ----------

  lemma SignalPossible(s: State) returns (wake: nat)
    ensures MaySignal(s, wake)
  {
    if w :| Sleeps(s, w) {
      wake := w;
    } else {
      wake := 0;
      forall w | 0 <= w < |s.workers| ensures !s.workers[w].Asleep? { assert !Sleeps(s, w); }
    }
  }

  /** Whoever owns the lock can take a step. */
  lemma OwnerMoves(s: State) returns (m: Move)
    requires Mutex(s) && !s.lock.Free?
    ensures !m.Spurious? && Enabled(s, m)
  {
    OwnerHolds(s);
    var wake := SignalPossible(s);
    m := if s.lock.ByClient? then ClientMoves(wake) else WorkerMoves(s.lock.w, wake);
  }

  /** A worker that cannot move while the lock is free. */
  predicate Stuck(w: Worker) { w.Asleep? || w.Exited? }

  lemma {:induction false} StuckSums(ws: seq<Worker>)
    requires forall w :: 0 <= w < |ws| ==> Stuck(ws[w])
    ensures Sum(OnItsWay, ws) == 0 && Sum(AboutToSignal, ws) == 0
    ensures forall w :: 0 <= w < |ws| && ws[w].Asleep? ==> Sum(Carrier(NullKind), ws) < |ws|
    ensures Sum(Carrier(NullKind), ws) > 0 || forall w :: 0 <= w < |ws| ==> ws[w].Asleep?
    ensures Sum(Carrier(NullKind), ws) <= |ws|
    decreases ws
  {
    if ws != [] {
      StuckSums(ws[1..]);
      forall w | 0 <= w < |ws| && ws[w].Asleep? ensures Sum(Carrier(NullKind), ws) < |ws| {
        if w > 0 { assert ws[1..][w - 1].Asleep?; }
      }
      if Sum(Carrier(NullKind), ws) == 0 {
        forall w | 0 <= w < |ws| ensures ws[w].Asleep? {
          if w > 0 { assert ws[1..][w - 1].Asleep?; }
        }
      }
    }
  }

  /** When all workers are stuck and one of them sleeps, the queue is empty. */
  lemma SleepersMeanEmpty(s: State, threads: nat, script: seq<Work>, w: nat)
    requires Inv(s, threads, script) && s.lock.Free? && (forall v :: 0 <= v < |s.workers| ==> Stuck(s.workers[v]))
    requires Sleeps(s, w)
    ensures s.items == []
  {
    StuckSums(s.workers);
  }

  /** With every worker stuck the client can move: it is not waiting for one that sleeps. */
  lemma ClientUnblocked(s: State, threads: nat, script: seq<Work>)
    requires Inv(s, threads, script) && threads > 0 && s.lock.Free? && !s.client.Finished?
    requires forall v :: 0 <= v < |s.workers| ==> Stuck(s.workers[v])
    ensures Enabled(s, ClientMoves(0))
  {
    StuckSums(s.workers);
    assert Accounted(s, NullKind);
    CountConcat(s.taken, s.items, NullKind);
    match s.client
    case Scripting(todo) =>
      if todo == [] {
        assert s.workers[0].Asleep?;
        SleepersMeanEmpty(s, threads, script, 0);
      }
    case Joining(next) =>
      if next < |s.workers| && s.workers[next].Asleep? {
        SleepersMeanEmpty(s, threads, script, next);
      }
    case _ =>
  }

  /** Freedom from deadlock: until `thread_pool_finish` has returned, some thread can take a step that is not a
      spurious wakeup, in every reachable state. */
  lemma NoDeadlock(threads: nat, script: seq<Work>, moves: seq<Move>) returns (m: Move)
    requires threads > 0 && Schedule(Init(threads, script), moves)
    requires !After(Init(threads, script), moves).client.Finished?
    ensures !m.Spurious? && Enabled(After(Init(threads, script), moves), m)
  {
    InitInv(threads, script);
    InvAlways(Init(threads, script), moves, threads, script);
    m := SomeMove(After(Init(threads, script), moves), threads, script);
  }

  lemma SomeMove(s: State, threads: nat, script: seq<Work>) returns (m: Move)
    requires Inv(s, threads, script) && threads > 0 && !s.client.Finished?
    ensures !m.Spurious? && Enabled(s, m)
  {
    if !s.lock.Free? {
      m := OwnerMoves(s);
    } else if w: nat :| w < |s.workers| && !Stuck(s.workers[w]) {
      OwnerHolds(s);
      assert !Holds(s.workers[w]);
      m := WorkerMoves(w, 0);
    } else {
      ClientUnblocked(s, threads, script);
      m := ClientMoves(0);
    }
  }

  // ---------- Bounded work ----------

  /** Steps a list of work items still costs when a running work function has to add it. */
  function Effort(works: seq<Work>): nat
    decreases works
  {
    if works == [] then 0 else 11 + Effort(works[0].spawns) + Effort(works[1..])
  }

  function ItemEffort(item: Item): nat { if item.Stop? then 1 else 4 + Effort(item.work.spawns) }

  function QueueEffort(items: seq<Item>): nat {
    if items == [] then 0 else ItemEffort(items[0]) + QueueEffort(items[1..])
  }

  function EnqueueEffort(e: Enqueue): nat {
    match e
    case WantLock(item) => 6 + ItemEffort(item)
    case Link(item) => 5 + ItemEffort(item)
    case Signal => 4
    case Unlock => 1
  }

  function WorkerEffort(w: Worker): nat {
    match w
    case WantQueue => 2
    case Awake(_) => 2
    case Test(_) => 1
    case Asleep => 0
    case Exited => 0
    case Took(item) => if item.Stop? then 1 else 4 + Effort(item.work.spawns)
    case Busy(_, todo) => 3 + Effort(todo)
    case Adding(e, _, todo) => EnqueueEffort(e) + 3 + Effort(todo)
  }

  function ClientEffort(c: Client, threads: nat): nat {
    match c
    case Scripting(todo) => Effort(todo) + 9 * threads + 3
    case ScriptAdding(e, todo) => EnqueueEffort(e) + Effort(todo) + 9 * threads + 3
    case Finishing(stops) => 8 * stops + threads + 2
    case FinishAdding(e, stops) => EnqueueEffort(e) + 8 * stops + threads + 2
    case Joining(next) => (if next <= threads then threads - next else 0) + 1
    case Finished => 0
  }

  /** An upper bound on the number of steps to come, spurious wakeups aside. */
  function Potential(s: State): nat {
    Sum(WorkerEffort, s.workers) + ClientEffort(s.client, |s.workers|) + QueueEffort(s.items)
  }

  lemma {:induction false} QueueEffortAppend(items: seq<Item>, item: Item)
    ensures QueueEffort(items + [item]) == QueueEffort(items) + ItemEffort(item)
    decreases items
  {
    if items == [] {
      assert [] + [item] == [item] && [item][1..] == [];
    } else {
      assert (items + [item])[1..] == items[1..] + [item];
      QueueEffortAppend(items[1..], item);
    }
  }

  /** Every step but a spurious wakeup lowers the potential; a spurious wakeup raises it by two. */
  lemma StepLowersPotential(s: State, m: Move)
    requires Enabled(s, m)
    ensures if m.Spurious? then Potential(Next(s, m)) == Potential(s) + 2 else Potential(Next(s, m)) < Potential(s)
  {
    match m
    case Spurious(w) => SumUpdate(WorkerEffort, s.workers, w, Awake(false));
    case ClientMoves(wake) => ClientLowers(s, wake);
    case WorkerMoves(w,
        wake) => if s.workers[w].Adding? { AddingLowers(s, w, wake); } else { WorkerLowers(s, w, wake); }
  }

  /** What one step of an enqueue costs the queue and the sleepers. */
  lemma EnqueueLowers(s: State, e: Enqueue, me: Lock, wake: nat)
    ensures var u := EnqueueShared(s, e, me, wake);
            var left := if e.Unlock? then 0 else EnqueueEffort(EnqueueNext(e));
            && |u.workers| == |s.workers| && u.client == s.client
            && Sum(WorkerEffort, u.workers) + QueueEffort(u.items) + left
               < Sum(WorkerEffort, s.workers) + QueueEffort(s.items) + EnqueueEffort(e)
  {
    if e.Link? { QueueEffortAppend(s.items, e.item); }
    if e.Signal? && Sleeps(s, wake) { SumUpdate(WorkerEffort, s.workers, wake, Awake(true)); }
  }

  lemma ClientLowers(s: State, wake: nat)
    requires Enabled(s, ClientMoves(wake))
    ensures Potential(Next(s, ClientMoves(wake))) < Potential(s)
  {
    if s.client.ScriptAdding? || s.client.FinishAdding? { EnqueueLowers(s, s.client.e, ByClient, wake); }
  }

  lemma AddingLowers(s: State, w: nat, wake: nat)
    requires Enabled(s, WorkerMoves(w, wake)) && s.workers[w].Adding?
    ensures Potential(Next(s, WorkerMoves(w, wake))) < Potential(s)
  {
    var e := s.workers[w].e;
    EnqueueLowers(s, e, ByWorker(w), wake);
    var u := EnqueueShared(s, e, ByWorker(w), wake);
    var t := Next(s, WorkerMoves(w, wake));
    SumUpdate(WorkerEffort, u.workers, w, t.workers[w]);
    assert u.workers[w] == s.workers[w];
  }

  lemma WorkerLowers(s: State, w: nat, wake: nat)
    requires Enabled(s, WorkerMoves(w, wake)) && !s.workers[w].Adding?
    ensures Potential(Next(s, WorkerMoves(w, wake))) < Potential(s)
  {
    SumUpdate(WorkerEffort, s.workers, w, Next(s, WorkerMoves(w, wake)).workers[w]);
  }

  function SpuriousCount(moves: seq<Move>): nat {
    if moves == [] then 0 else (if moves[0].Spurious? then 1 else 0) + SpuriousCount(moves[1..])
  }

  lemma {:induction false} ScheduleBounded(s: State, moves: seq<Move>)
    requires Schedule(s, moves)
    ensures |moves| + Potential(After(s, moves)) <= Potential(s) + 3 * SpuriousCount(moves)
    decreases moves
  {
    if moves != [] {
      StepLowersPotential(s, moves[0]);
      ScheduleBounded(Next(s, moves[0]), moves[1..]);
    }
  }

  lemma {:induction false} InitialPotential(threads: nat, script: seq<Work>)
    ensures Potential(Init(threads, script)) == Effort(script) + 11 * threads + 3
  {
    WantQueueSum(threads);
  }

  lemma {:induction false} WantQueueSum(threads: nat)
    ensures Sum(WorkerEffort, seq(threads, i => WantQueue)) == 2 * threads
  {
    if threads > 0 {
      assert seq(threads, i => WantQueue)[1..] == seq(threads - 1, i => WantQueue);
      WantQueueSum(threads - 1);
    }
  }

  /** Termination: a schedule is no longer than a number known from the script and the thread count, plus three
      for each spurious wakeup in it. With NoDeadlock this means: as long as threads that can move eventually
      do and spurious wakeups stop, `thread_pool_finish` returns. */
  lemma EveryScheduleEnds(threads: nat, script: seq<Work>, moves: seq<Move>)
    requires Schedule(Init(threads, script), moves)
    ensures |moves| <= Effort(script) + 11 * threads + 3 + 3 * SpuriousCount(moves)
  {
    InitialPotential(threads, script);
    ScheduleBounded(Init(threads, script), moves);
  }

  /** From every reachable state the pool can be run to the end of `thread_pool_finish` without any spurious
      wakeup, and however the threads are picked this takes no more steps than the potential. */
  lemma {:induction false} FinishReachable(s: State, threads: nat, script: seq<Work>) returns (rest: seq<Move>)
    requires Inv(s, threads, script) && threads > 0
    ensures Schedule(s, rest) && After(s, rest).client.Finished?
    ensures SpuriousCount(rest) == 0 && |rest| <= Potential(s)
    decreases Potential(s)
  {
    if s.client.Finished? {
      rest := [];
    } else {
      var m := SomeMove(s, threads, script);
      StepLowersPotential(s, m);
      InvKept(s, m, threads, script);
      var more := FinishReachable(Next(s, m), threads, script);
      rest := [m] + more;
      assert rest[1..] == more;
    }
  }
}
