/** Safety of the pool protocol over every schedule: mutual exclusion, FIFO order, no lost wakeup,
    and an exact account of every work item and every NULL. */
module PoolSafety {
  import opened PoolProtocol

  // ---------- Sums over the workers ----------

  function Sum(f: Worker -> nat, ws: seq<Worker>): nat {
    if ws == [] then 0 else f(ws[0]) + Sum(f, ws[1..])
  }

  lemma {:induction false} SumUpdate(f: Worker -> nat, ws: seq<Worker>, w: nat, x: Worker)
    requires w < |ws|
    ensures Sum(f, ws[w := x]) + f(ws[w]) == Sum(f, ws) + f(x)
    decreases ws
  {
    if w == 0 {
      assert ws[w := x][1..] == ws[1..];
    } else {
      assert ws[w := x][1..] == ws[1..][w - 1 := x];
      SumUpdate(f, ws[1..], w - 1, x);
    }
  }

  lemma {:induction false} SumZero(f: Worker -> nat, ws: seq<Worker>)
    ensures (forall w :: 0 <= w < |ws| ==> f(ws[w]) == 0) <==> Sum(f, ws) == 0
    decreases ws
  {
    if ws != [] {
      SumZero(f, ws[1..]);
      assert (forall w :: 0 <= w < |ws| ==> f(ws[w]) == 0) ==> forall w :: 0 <= w < |ws[1..]| ==> f(ws[1..][w]) == 0;
      if Sum(f, ws) == 0 {
        forall w | 0 <= w < |ws| ensures f(ws[w]) == 0 {
          if w > 0 { assert ws[1..][w - 1] == ws[w]; }
        }
      }
    }
  }

  // ---------- Mutual exclusion ----------

  predicate EnqueueHolds(e: Enqueue) { !e.WantLock? }

  predicate Holds(w: Worker) {
    match w
    case Test(_) => true
    case Took(_) => true
    case Adding(e, _, _) => EnqueueHolds(e)
    case _ => false
  }

  predicate ClientHolds(c: Client) {
    match c
    case ScriptAdding(e, _) => EnqueueHolds(e)
    case FinishAdding(e, _) => EnqueueHolds(e)
    case _ => false
  }

  /** Exactly the owner of the mutex is between locking and unlocking it. */
  ghost predicate Mutex(s: State) {
    && (forall w :: 0 <= w < |s.workers| ==> (Holds(s.workers[w]) <==> s.lock == ByWorker(w)))
    && (s.lock.ByWorker? ==> s.lock.w < |s.workers|)
    && (ClientHolds(s.client) <==> s.lock == ByClient)
  }

  lemma MutexKept(s: State, m: Move)
    requires Mutex(s) && Enabled(s, m)
    ensures Mutex(Next(s, m))
  {
    match m
    case Spurious(w) =>
    case WorkerMoves(w, wake) =>
      if s.workers[w].Adding? { MutexKeptAdding(s, w, wake); }
    case ClientMoves(wake) =>
  }

  lemma MutexKeptAdding(s: State, w: nat, wake: nat)
    requires Mutex(s) && Enabled(s, WorkerMoves(w, wake)) && s.workers[w].Adding?
    ensures Mutex(Next(s, WorkerMoves(w, wake)))
  {
    match s.workers[w].e
    case WantLock(_) =>
    case Link(_) =>
    case Signal =>
    case Unlock =>
  }

  // ---------- First in, first out ----------

  /** What was taken, followed by what is queued, is what was linked. */
  ghost predicate Fifo(s: State) { s.taken + s.items == s.linked }

  lemma FifoKept(s: State, m: Move)
    requires Fifo(s) && Enabled(s, m)
    ensures Fifo(Next(s, m))
  {
    hide EnqueueShared, EnqueueEnabled, Quiet;
    match m
    case Spurious(_) =>
    case ClientMoves(wake) =>
      match s.client {
        case ScriptAdding(e, _) => EnqueueFifo(s, e, ByClient, wake);
        case FinishAdding(e, _) => EnqueueFifo(s, e, ByClient, wake);
        case _ =>
      }
    case WorkerMoves(w, wake) =>
      match s.workers[w] {
        case Adding(e, _, _) => EnqueueFifo(s, e, ByWorker(w), wake);
        case Test(_) =>
          if s.items != [] {
            assert s.taken + [s.items[0]] + s.items[1..] == s.taken + ([s.items[0]] + s.items[1..]);
          }
        case _ =>
      }
  }

  lemma EnqueueFifo(s: State, e: Enqueue, me: Lock, wake: nat)
    requires Fifo(s)
    ensures Fifo(EnqueueShared(s, e, me, wake))
  {
    if e.Link? { assert s.taken + (s.items + [e.item]) == s.taken + s.items + [e.item]; }
  }

  // ---------- No lost wakeup ----------

  /** A worker that a signal woke and that has not yet looked at the queue. */
  function OnItsWay(w: Worker): nat {
    if w == Awake(true) || w == Test(true) then 1 else 0
  }

  /** A thread that has linked its item but not yet signalled. */
  function AboutToSignal(w: Worker): nat {
    if w.Adding? && w.e.Signal? then 1 else 0
  }

  function ClientAboutToSignal(c: Client): nat {
    if (c.ScriptAdding? || c.FinishAdding?) && c.e.Signal? then 1 else 0
  }

  ghost predicate SomeoneSleeps(s: State) { exists w :: Sleeps(s, w) }

  function Coming(s: State): nat {
    Sum(OnItsWay, s.workers) + Sum(AboutToSignal, s.workers) + ClientAboutToSignal(s.client)
  }

  /** While anybody sleeps, there is a signalled thread on its way, or a signal about to be sent, for every item. */
  ghost predicate NoLostWakeup(s: State) {
    SomeoneSleeps(s) ==> Coming(s) >= |s.items|
  }

  lemma ComingUpdate(s: State, w: nat, x: Worker)
    requires w < |s.workers|
    ensures var t := s.(workers := s.workers[w := x]);
            Coming(t) + OnItsWay(s.workers[w]) + AboutToSignal(s.workers[w]) ==
                Coming(s) + OnItsWay(x) + AboutToSignal(x)
  {
    SumUpdate(OnItsWay, s.workers, w, x);
    SumUpdate(AboutToSignal, s.workers, w, x);
  }

  /** Writing a worker that is not asleep creates no sleeper. */
  lemma NoNewSleeper(s: State, t: State, w: nat, x: Worker)
    requires w < |s.workers| && t.workers == s.workers[w := x] && !x.Asleep?
    ensures SomeoneSleeps(t) ==> SomeoneSleeps(s)
  {
    if SomeoneSleeps(t) {
      var v :| Sleeps(t, v);
      assert Sleeps(s, v);
    }
  }

  lemma SameSleepers(s: State, t: State)
    requires t.workers == s.workers
    ensures SomeoneSleeps(t) ==> SomeoneSleeps(s)
  {
    if SomeoneSleeps(t) {
      var v :| Sleeps(t, v);
      assert Sleeps(s, v);
    }
  }

  lemma WakeupKept(s: State, m: Move)
    requires NoLostWakeup(s) && Enabled(s, m)
    ensures NoLostWakeup(Next(s, m))
  {
    match m
    case Spurious(w) =>
      ComingUpdate(s, w, Awake(false));
      NoNewSleeper(s, Next(s, m), w, Awake(false));
    case WorkerMoves(w, wake) =>
      if s.workers[w].Adding? {
        WakeupKeptAdding(s, w, wake);
      } else {
        WakeupKeptWorker(s, w, wake);
      }
    case ClientMoves(wake) =>
      if s.client.ScriptAdding? || s.client.FinishAdding? {
        WakeupKeptClient(s, wake);
      } else {
        SameSleepers(s, Next(s, m));
      }
  }

  lemma WakeupKeptWorker(s: State, w: nat, wake: nat)
    requires NoLostWakeup(s) && Enabled(s, WorkerMoves(w, wake)) && !s.workers[w].Adding?
    ensures NoLostWakeup(Next(s, WorkerMoves(w, wake)))
  {
    var t := Next(s, WorkerMoves(w, wake));
    ComingUpdate(s, w, t.workers[w]);
    if t.workers[w].Asleep? {
      assert t.items == [];
    } else {
      assert t.workers == s.workers[w := t.workers[w]];
      NoNewSleeper(s, t, w, t.workers[w]);
    }
  }

  lemma WakeupKeptAdding(s: State, w: nat, wake: nat)
    requires NoLostWakeup(s) && Enabled(s, WorkerMoves(w, wake)) && s.workers[w].Adding?
    ensures NoLostWakeup(Next(s, WorkerMoves(w, wake)))
  {
    var e := s.workers[w].e;
    var u := EnqueueShared(s, e, ByWorker(w), wake);
    var t := Next(s, WorkerMoves(w, wake));
    if e.Signal? && Sleeps(s, wake) {
      ComingUpdate(s, wake, Awake(true));
      NoNewSleeper(s, u, wake, Awake(true));
    } else {
      SameSleepers(s, u);
    }
    ComingUpdate(u, w, t.workers[w]);
    NoNewSleeper(u, t, w, t.workers[w]);
    assert SomeoneSleeps(u) ==> SomeoneSleeps(s);
  }

  lemma WakeupKeptClient(s: State, wake: nat)
    requires NoLostWakeup(s) && Enabled(s, ClientMoves(wake)) && (s.client.ScriptAdding? || s.client.FinishAdding?)
    ensures NoLostWakeup(Next(s, ClientMoves(wake)))
  {
    var e := s.client.e;
    var t := Next(s, ClientMoves(wake));
    if e.Signal? && Sleeps(s, wake) {
      ComingUpdate(s, wake, Awake(true));
      NoNewSleeper(s, t, wake, Awake(true));
    } else {
      SameSleepers(s, t);
    }
  }

  // ---------- The account of the work items and of the NULLs ----------

  /** A NULL, or the work item with some id. */
  datatype Kind = NullKind | JobKind(id: nat)

  function KindOf(item: Item): Kind { if item.Stop? then NullKind else JobKind(item.work.id) }

  function Count(items: seq<Item>, kind: Kind): nat {
    if items == [] then 0 else (if KindOf(items[0]) == kind then 1 else 0) + Count(items[1..], kind)
  }

  function Occurrences(ids: seq<nat>, id: nat): nat {
    if ids == [] then 0 else (if ids[0] == id then 1 else 0) + Occurrences(ids[1..], id)
  }

  lemma {:induction false} CountAppend(items: seq<Item>, item: Item, kind: Kind)
    ensures Count(items + [item], kind) == Count(items, kind) + (if KindOf(item) == kind then 1 else 0)
    decreases items
  {
    if items == [] {
      assert [] + [item] == [item] && [item][1..] == [];
    } else {
      assert (items + [item])[1..] == items[1..] + [item];
      CountAppend(items[1..], item, kind);
    }
  }

  lemma {:induction false} OccurrencesAppend(ids: seq<nat>, x: nat, id: nat)
    ensures Occurrences(ids + [x], id) == Occurrences(ids, id) + (if x == id then 1 else 0)
    decreases ids
  {
    if ids == [] {
      assert [] + [x] == [x] && [x][1..] == [];
    } else {
      assert (ids + [x])[1..] == ids[1..] + [x];
      OccurrencesAppend(ids[1..], x, id);
    }
  }

  /** Does the worker hold a taken item of this kind, or is it the one that a NULL ended? */
  predicate Carries(w: Worker, kind: Kind) {
    match w
    case Took(item) => KindOf(item) == kind
    case Busy(id, _) => kind == JobKind(id)
    case Adding(_, id, _) => kind == JobKind(id)
    case Exited => kind == NullKind
    case _ => false
  }

  function Carrier(kind: Kind): Worker -> nat {
    w => if Carries(w, kind) then 1 else 0
  }

  function Executed(s: State, kind: Kind): nat {
    if kind.NullKind? then 0 else Occurrences(s.executed, kind.id)
  }

  /** What a step of `queue_enqueue` by one worker leaves alone. */
  lemma EnqueueKeeps(s: State, e: Enqueue, w: nat, wake: nat)
    requires w < |s.workers| && s.workers[w].Adding?
    ensures var u := EnqueueShared(s, e, ByWorker(w), wake);
            && u.client == s.client && u.taken == s.taken && u.executed == s.executed
            && |u.workers| == |s.workers| && u.workers[w] == s.workers[w]
  {
  }

  lemma SignalKeepsSum(f: Worker -> nat, s: State, e: Enqueue, me: Lock, wake: nat)
    requires f(Asleep) == f(Awake(true))
    ensures Sum(f, EnqueueShared(s, e, me, wake).workers) == Sum(f, s.workers)
  {
    if Sleeps(s, wake) { SumUpdate(f, s.workers, wake, Awake(true)); }
  }

  /** Every item taken is in one worker's hands, or has been executed, exactly once; every NULL taken has
      ended exactly one worker. */
  ghost predicate Accounted(s: State, kind: Kind) {
    Count(s.taken, kind) == Executed(s, kind) + Sum(Carrier(kind), s.workers)
  }

  lemma AccountedKept(s: State, m: Move, kind: Kind)
    requires Accounted(s, kind) && Enabled(s, m)
    ensures Accounted(Next(s, m), kind)
  {
    match m
    case Spurious(w) => SumUpdate(Carrier(kind), s.workers, w, Awake(false));
    case ClientMoves(wake) =>
      if Sleeps(s, wake) { SumUpdate(Carrier(kind), s.workers, wake, Awake(true)); }
    case WorkerMoves(w, wake) =>
      if s.workers[w].Adding? { AccountedKeptAdding(s, w, wake, kind); } else { AccountedKeptWorker(s, w, wake, kind); }
  }

  lemma AccountedKeptAdding(s: State, w: nat, wake: nat, kind: Kind)
    requires Accounted(s, kind) && Enabled(s, WorkerMoves(w, wake)) && s.workers[w].Adding?
    ensures Accounted(Next(s, WorkerMoves(w, wake)), kind)
  {
    hide EnqueueEnabled, EnqueueShared, Sum, Count, Occurrences, Quiet;
    var u := EnqueueShared(s, s.workers[w].e, ByWorker(w), wake);
    EnqueueKeeps(s, s.workers[w].e, w, wake);
    SignalKeepsSum(Carrier(kind), s, s.workers[w].e, ByWorker(w), wake);
    var t := Next(s, WorkerMoves(w, wake));
    SumUpdate(Carrier(kind), u.workers, w, t.workers[w]);
  }

  lemma AccountedKeptWorker(s: State, w: nat, wake: nat, kind: Kind)
    requires Accounted(s, kind) && Enabled(s, WorkerMoves(w, wake)) && !s.workers[w].Adding?
    ensures Accounted(Next(s, WorkerMoves(w, wake)), kind)
  {
    var t := Next(s, WorkerMoves(w, wake));
    SumUpdate(Carrier(kind), s.workers, w, t.workers[w]);
    if s.workers[w].Test? && s.items != [] { CountAppend(s.taken, s.items[0], kind); }
    if s.workers[w].Busy? && s.workers[w].todo == [] && kind.JobKind? {
      OccurrencesAppend(s.executed, s.workers[w].id, kind.id);
    }
  }

  // ---------- What is still to be added ----------

  /** How often an id occurs in work items and in everything they will ever add. */
  function Planned(works: seq<Work>, id: nat): nat
    decreases works
  {
    if works == [] then 0
    else (if works[0].id == id then 1 else 0) + Planned(works[0].spawns, id) + Planned(works[1..], id)
  }

  function PlannedBy(item: Item, id: nat): nat { if item.Stop? then 0 else Planned(item.work.spawns, id) }

  /** What an enqueue that has not linked its item yet will add, now or later. */
  function Unlinked(e: Enqueue, id: nat): nat {
    match e
    case WantLock(item) => if item.Stop? then 0 else Planned([item.work], id)
    case Link(item) => if item.Stop? then 0 else Planned([item.work], id)
    case _ => 0
  }

  function OneOwes(w: Worker, id: nat): nat {
    match w
    case Took(item) => PlannedBy(item, id)
    case Busy(_, todo) => Planned(todo, id)
    case Adding(e, _, todo) => Unlinked(e, id) + Planned(todo, id)
    case _ => 0
  }

  function WorkerOwes(id: nat): Worker -> nat {
    w => OneOwes(w, id)
  }

  function ClientOwes(c: Client, id: nat): nat {
    match c
    case Scripting(todo) => Planned(todo, id)
    case ScriptAdding(e, todo) => Unlinked(e, id) + Planned(todo, id)
    case FinishAdding(e, _) => Unlinked(e, id)
    case _ => 0
  }

  function QueueOwes(items: seq<Item>, id: nat): nat {
    if items == [] then 0 else PlannedBy(items[0], id) + QueueOwes(items[1..], id)
  }

  lemma {:induction false} QueueOwesAppend(items: seq<Item>, item: Item, id: nat)
    ensures QueueOwes(items + [item], id) == QueueOwes(items, id) + PlannedBy(item, id)
    decreases items
  {
    if items == [] {
      assert [] + [item] == [item] && [item][1..] == [];
    } else {
      assert (items + [item])[1..] == items[1..] + [item];
      QueueOwesAppend(items[1..], item, id);
    }
  }

  function Owed(s: State, id: nat): nat {
    Sum(WorkerOwes(id), s.workers) + ClientOwes(s.client, id) + QueueOwes(s.items, id)
  }

  /** Everything planned in the client's script has been linked into the queue, or is still owed, exactly once. */
  ghost predicate Planning(s: State, script: seq<Work>, id: nat) {
    Count(s.linked, JobKind(id)) + Owed(s, id) == Planned(script, id)
  }

  lemma PlannedOne(work: Work, id: nat)
    ensures Planned([work], id) == (if work.id == id then 1 else 0) + Planned(work.spawns, id)
  {
    assert [work][1..] == [];
  }

  lemma PlannedFirst(works: seq<Work>, id: nat)
    requires works != []
    ensures Planned(works, id) == Planned([works[0]], id) + Planned(works[1..], id)
  {
    PlannedOne(works[0], id);
  }

  /** Linking an item turns what it owes into a queued item. */
  lemma EnqueueOwes(s: State, e: Enqueue, me: Lock, wake: nat, id: nat)
    ensures var u := EnqueueShared(s, e, me, wake);
            var left := if e.Unlock? then 0 else Unlinked(EnqueueNext(e), id);
            Count(u.linked, JobKind(id)) + QueueOwes(u.items, id) + left
            == Count(s.linked, JobKind(id)) + QueueOwes(s.items, id) + Unlinked(e, id)
  {
    if e.Link? {
      CountAppend(s.linked, e.item, JobKind(id));
      QueueOwesAppend(s.items, e.item, id);
      if e.item.Job? { PlannedOne(e.item.work, id); }
    }
  }

  lemma PlanningKept(s: State, m: Move, script: seq<Work>, id: nat)
    requires Planning(s, script, id) && Enabled(s, m)
    ensures Planning(Next(s, m), script, id)
  {
    match m
    case Spurious(w) => SumUpdate(WorkerOwes(id), s.workers, w, Awake(false));
    case ClientMoves(wake) => PlanningKeptClient(s, wake, script, id);
    case WorkerMoves(w, wake) =>
      if s.workers[w].Adding? { PlanningKeptAdding(s, w, wake, script, id); } else { PlanningKeptWorker(s, w, wake,
          script, id); }
  }

  lemma PlanningKeptClient(s: State, wake: nat, script: seq<Work>, id: nat)
    requires Planning(s, script, id) && Enabled(s, ClientMoves(wake))
    ensures Planning(Next(s, ClientMoves(wake)), script, id)
  {
    if Sleeps(s, wake) { SumUpdate(WorkerOwes(id), s.workers, wake, Awake(true)); }
    match s.client
    case Scripting(todo) => if todo != [] { PlannedFirst(todo, id); }
    case ScriptAdding(e, _) => EnqueueOwes(s, e, ByClient, wake, id);
    case FinishAdding(e, _) => EnqueueOwes(s, e, ByClient, wake, id);
    case _ =>
  }

  lemma PlanningKeptAdding(s: State, w: nat, wake: nat, script: seq<Work>, id: nat)
    requires Planning(s, script, id) && Enabled(s, WorkerMoves(w, wake)) && s.workers[w].Adding?
    ensures Planning(Next(s, WorkerMoves(w, wake)), script, id)
  {
    hide EnqueueEnabled, EnqueueShared, Sum, Count, QueueOwes, Planned, Unlinked, Quiet;
    var e := s.workers[w].e;
    var u := EnqueueShared(s, e, ByWorker(w), wake);
    EnqueueKeeps(s, e, w, wake);
    SignalKeepsSum(WorkerOwes(id), s, e, ByWorker(w), wake);
    EnqueueOwes(s, e, ByWorker(w), wake, id);
    var t := Next(s, WorkerMoves(w, wake));
    SumUpdate(WorkerOwes(id), u.workers, w, t.workers[w]);
  }

  lemma PlanningKeptWorker(s: State, w: nat, wake: nat, script: seq<Work>, id: nat)
    requires Planning(s, script, id) && Enabled(s, WorkerMoves(w, wake)) && !s.workers[w].Adding?
    ensures Planning(Next(s, WorkerMoves(w, wake)), script, id)
  {
    var t := Next(s, WorkerMoves(w, wake));
    SumUpdate(WorkerOwes(id), s.workers, w, t.workers[w]);
    if s.workers[w].Busy? && s.workers[w].todo != [] { PlannedFirst(s.workers[w].todo, id); }
  }

  // ---------- Finishing ----------

  /** NULLs not yet linked, once `thread_pool_finish` has begun. */
  function StopsToLink(c: Client): nat {
    match c
    case Finishing(stops) => stops
    case FinishAdding(e, stops) => (if e.WantLock? || e.Link? then 1 else 0) + stops
    case _ => 0
  }

  predicate InFinish(c: Client) { !c.Scripting? && !c.ScriptAdding? }

  predicate AddsStop(e: Enqueue) { (e.WantLock? || e.Link?) ==> e.item.Stop? }

  predicate AddsJob(e: Enqueue) { (e.WantLock? || e.Link?) ==> e.item.Job? }

  /** No NULL before `thread_pool_finish`, one for each worker in the end, and nothing is added besides. */
  ghost predicate Finish(s: State) {
    && (forall w :: 0 <= w < |s.workers| && s.workers[w].Adding? ==> AddsJob(s.workers[w].e))
    && (s.client.ScriptAdding? ==> AddsJob(s.client.e))
    && (s.client.FinishAdding? ==> AddsStop(s.client.e))
    && (InFinish(s.client) ==> Quiet(s))
    && Count(s.linked, NullKind) + (if InFinish(s.client) then StopsToLink(s.client) else |s.workers|) == |s.workers|
  }

  lemma FinishKept(s: State, m: Move)
    requires Finish(s) && Enabled(s, m)
    ensures Finish(Next(s, m))
  {
    KindsKept(s, m);
    StopsKept(s, m);
    if InFinish(Next(s, m).client) {
      if InFinish(s.client) { QuietKept(s, m); }
    }
  }

  lemma KindsKept(s: State, m: Move)
    requires Finish(s) && Enabled(s, m)
    ensures var t := Next(s, m);
            && (forall w :: 0 <= w < |t.workers| && t.workers[w].Adding? ==> AddsJob(t.workers[w].e))
            && (t.client.ScriptAdding? ==> AddsJob(t.client.e))
            && (t.client.FinishAdding? ==> AddsStop(t.client.e))
  {
  }

  lemma StopsKept(s: State, m: Move)
    requires Finish(s) && Enabled(s, m)
    ensures var t := Next(s, m);
            Count(t.linked, NullKind) + (if InFinish(t.client) then StopsToLink(t.client) else |t.workers|) ==
                |t.workers|
  {
    match m
    case Spurious(w) =>
    case ClientMoves(wake) =>
      if (s.client.ScriptAdding? || s.client.FinishAdding?) && s.client.e.Link? {
        CountAppend(s.linked, s.client.e.item, NullKind);
      }
    case WorkerMoves(w, wake) =>
      if s.workers[w].Adding? && s.workers[w].e.Link? { CountAppend(s.linked, s.workers[w].e.item, NullKind); }
  }

  lemma QuietKept(s: State, m: Move)
    requires Quiet(s) && Enabled(s, m) && InFinish(s.client) && (s.client.FinishAdding? ==> AddsStop(s.client.e))
    ensures Quiet(Next(s, m))
  {
    var t := Next(s, m);
    match m
    case Spurious(w) =>
    case ClientMoves(wake) =>
    case WorkerMoves(w, wake) => assert QuietWorker(s.workers[w]) && QuietWorker(t.workers[w]);
  }

  /** No work item is linked after a NULL. */
  ghost predicate NullsLast(s: State) {
    forall i, j :: 0 <= i < j < |s.linked| && s.linked[i].Stop? ==> s.linked[j].Stop?
  }

  lemma {:induction false} CountPositive(items: seq<Item>, i: nat, kind: Kind)
    requires i < |items| && KindOf(items[i]) == kind
    ensures Count(items, kind) > 0
    decreases items
  {
    if i > 0 { CountPositive(items[1..], i - 1, kind); }
  }

  lemma {:induction false} CountFinds(items: seq<Item>, kind: Kind) returns (i: nat)
    requires Count(items, kind) > 0
    ensures i < |items| && KindOf(items[i]) == kind
    decreases items
  {
    if KindOf(items[0]) == kind { i := 0; } else { i := CountFinds(items[1..], kind); i := i + 1; }
  }

  lemma NullsLastKept(s: State, m: Move)
    requires NullsLast(s) && Finish(s) && Enabled(s, m)
    ensures NullsLast(Next(s, m))
  {
    var t := Next(s, m);
    if t.linked != s.linked {
      var item := t.linked[|s.linked|];
      assert t.linked == s.linked + [item];
      if item.Job? {
        assert !InFinish(s.client);
        forall i | 0 <= i < |s.linked| ensures !s.linked[i].Stop? {
          if s.linked[i].Stop? { CountPositive(s.linked, i, NullKind); }
        }
      }
    }
  }

  /** The workers before the next one to join have exited. */
  ghost predicate Joined(s: State) {
    && (s.client.Joining? ==> s.client.next <= |s.workers| && forall w :: 0 <= w < s.client.next ==>
        s.workers[w].Exited?)
    && (s.client.Finished? ==> forall w :: 0 <= w < |s.workers| ==> s.workers[w].Exited?)
  }

  lemma JoinedKept(s: State, m: Move)
    requires Joined(s) && Enabled(s, m)
    ensures Joined(Next(s, m))
  {
    var t := Next(s, m);
    forall w | 0 <= w < |s.workers| && s.workers[w].Exited? ensures t.workers[w].Exited? {}
  }
}
