/** What `thread_pool_finish` guarantees when it returns, in every schedule. */
module PoolShutdown {
  import opened PoolProtocol
  import opened PoolSafety

  /** The invariant of every reachable state. */
  ghost predicate Inv(s: State, threads: nat, script: seq<Work>) {
    && |s.workers| == threads && Mutex(s) && Fifo(s) && NoLostWakeup(s) && Finish(s) && NullsLast(s) && Joined(s)
    && (forall kind :: Accounted(s, kind))
    && (forall id :: Planning(s, script, id))
  }

  lemma {:induction false} FreshSum(f: Worker -> nat, threads: nat)
    requires f(WantQueue) == 0
    ensures Sum(f, seq(threads, i => WantQueue)) == 0
  {
    SumZero(f, seq(threads, i => WantQueue));
  }

  lemma InitInv(threads: nat, script: seq<Work>)
    ensures Inv(Init(threads, script), threads, script)
  {
    var s := Init(threads, script);
    forall kind ensures Accounted(s, kind) { FreshSum(Carrier(kind), threads); }
    forall id ensures Planning(s, script, id) { FreshSum(WorkerOwes(id), threads); }
  }

  lemma InvKept(s: State, m: Move, threads: nat, script: seq<Work>)
    requires Inv(s, threads, script) && Enabled(s, m)
    ensures Inv(Next(s, m), threads, script)
  {
    MutexKept(s, m);
    FifoKept(s, m);
    WakeupKept(s, m);
    FinishKept(s, m);
    NullsLastKept(s, m);
    JoinedKept(s, m);
    forall kind ensures Accounted(Next(s, m), kind) { AccountedKept(s, m, kind); }
    forall id ensures Planning(Next(s, m), script, id) { PlanningKept(s, m, script, id); }
    SameThreads(s, m);
  }

  lemma SameThreads(s: State, m: Move)
    requires Enabled(s, m)
    ensures |Next(s, m).workers| == |s.workers|
  {
  }

  /** The invariant holds after every schedule. */
  lemma {:induction false} InvAlways(s: State, moves: seq<Move>, threads: nat, script: seq<Work>)
    requires Inv(s, threads, script) && Schedule(s, moves)
    ensures Inv(After(s, moves), threads, script)
    decreases moves
  {
    if moves != [] {
      InvKept(s, moves[0], threads, script);
      InvAlways(Next(s, moves[0]), moves[1..], threads, script);
    }
  }

  lemma {:induction false} CountConcat(a: seq<Item>, b: seq<Item>, kind: Kind)
    ensures Count(a + b, kind) == Count(a, kind) + Count(b, kind)
    decreases a
  {
    if a == [] {
      assert a + b == b;
    } else {
      assert (a + b)[1..] == a[1..] + b;
      CountConcat(a[1..], b, kind);
    }
  }

  lemma {:induction false} AllExitedSum(ws: seq<Worker>)
    requires forall w :: 0 <= w < |ws| ==> ws[w].Exited?
    ensures Sum(Carrier(NullKind), ws) == |ws|
    ensures forall id :: Sum(Carrier(JobKind(id)), ws) == 0 && Sum(WorkerOwes(id), ws) == 0
    decreases ws
  {
    if ws != [] { AllExitedSum(ws[1..]); }
  }

  lemma QueueAfterNull(s: State, i: nat)
    requires Fifo(s) && NullsLast(s) && i < |s.taken| && s.taken[i].Stop?
    ensures s.items != [] ==> Count(s.items, NullKind) > 0
  {
    if s.items != [] {
      assert s.linked[i] == s.taken[i] && s.linked[|s.taken|] == s.items[0];
    }
  }

  /** When every NULL has been taken, nothing is left in the queue. */
  lemma QueueEmpties(s: State, threads: nat, script: seq<Work>)
    requires Inv(s, threads, script) && threads > 0 && Count(s.taken, NullKind) == threads
    ensures s.items == []
  {
    CountConcat(s.taken, s.items, NullKind);
    var i := CountFinds(s.taken, NullKind);
    QueueAfterNull(s, i);
  }

  /** A lock that is taken has an owner, inside its critical section. */
  lemma OwnerHolds(s: State)
    requires Mutex(s)
    ensures s.lock.Free? || (s.lock.ByClient? && ClientHolds(s.client))
         || (s.lock.ByWorker? && s.lock.w < |s.workers| && Holds(s.workers[s.lock.w]))
  {
  }

  /** Shutdown: in every schedule, when `thread_pool_finish` returns, every work item the script planned,
      directly or through other work items, has been executed exactly as often as it was planned; every worker
      has exited, each on one of the NULLs; and nothing is left in the queue. */
  lemma ShutdownCorrect(threads: nat, script: seq<Work>, moves: seq<Move>)
    requires threads > 0 && Schedule(Init(threads, script), moves)
    ensures var t := After(Init(threads, script), moves);
            t.client.Finished? ==>
              && (forall id :: Occurrences(t.executed, id) == Planned(script, id))
              && |t.workers| == threads == Count(t.taken, NullKind)
              && (forall w :: 0 <= w < threads ==> t.workers[w].Exited?)
              && t.items == [] && t.taken == t.linked && t.lock.Free?
  {
    InitInv(threads, script);
    InvAlways(Init(threads, script), moves, threads, script);
    var t := After(Init(threads, script), moves);
    if t.client.Finished? { FinishedState(t, threads, script); }
  }

  lemma FinishedState(t: State, threads: nat, script: seq<Work>)
    requires threads > 0 && Inv(t, threads, script) && t.client.Finished?
    ensures forall id :: Occurrences(t.executed, id) == Planned(script, id)
    ensures Count(t.taken, NullKind) == threads && t.items == [] && t.taken == t.linked && t.lock.Free?
  {
    AllExitedSum(t.workers);
    assert Accounted(t, NullKind);
    QueueEmpties(t, threads, script);
    assert t.taken + [] == t.taken;
    forall id ensures Occurrences(t.executed, id) == Planned(script, id) {
      assert Accounted(t, JobKind(id)) && Planning(t, script, id);
    }
    OwnerHolds(t);
  }

  /** Linearizability: in every reachable state, the values taken so far and then the queue are the values
      enqueued so far, in the order of their critical sections; and at most one thread is inside. */
  lemma QueueLinearizable(threads: nat, script: seq<Work>, moves: seq<Move>)
    requires Schedule(Init(threads, script), moves)
    ensures var t := After(Init(threads, script), moves);
            && t.taken + t.items == t.linked
            && (forall v, w :: 0 <= v < w < |t.workers| ==> !(Holds(t.workers[v]) && Holds(t.workers[w])))
            && (ClientHolds(t.client) ==> forall w :: 0 <= w < |t.workers| ==> !Holds(t.workers[w]))
            && (SomeoneSleeps(t) ==> Coming(t) >= |t.items|)
  {
    InitInv(threads, script);
    InvAlways(Init(threads, script), moves, threads, script);
  }
}
