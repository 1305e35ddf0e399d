/** The thread pool as a protocol: worker threads, a client thread, and the steps of `queue_enqueue` and
    `queue_dequeue` under one mutex and one condition variable. Any thread may move at any time. */
module PoolProtocol {

  /** A work item: when its function runs, it adds `spawns`, in order, to the same pool. */
  datatype Work = Work(id: nat, spawns: seq<Work>)

  /** What is in the queue: a work item, or the NULL that tells a worker to stop. */
  datatype Item = Stop | Job(work: Work)

  /** Where a thread is inside `queue_enqueue`. */
  datatype Enqueue =
    | WantLock(item: Item)
    | Link(item: Item)    // has the lock
    | Signal              // has the lock, the node is linked
    | Unlock              // has the lock, has signalled

  /** Where a worker is in `execute_work`. */
  datatype Worker =
    | WantQueue                               // in queue_dequeue, before the lock
    | Test(signalled: bool)                   // has the lock, about to test the size
    | Asleep                                  // in pthread_cond_wait, lock released
    | Awake(signalled: bool)                  // woken, still in pthread_cond_wait, wants the lock back
    | Took(item: Item)                        // has the lock and an item
    | Busy(id: nat, todo: seq<Work>)          // running a work function
    | Adding(e: Enqueue, id: nat, todo: seq<Work>)  // in thread_pool_add_work, called by a work function
    | Exited

  /** Where the client is: adding work, then in `thread_pool_finish`. */
  datatype Client =
    | Scripting(todo: seq<Work>)
    | ScriptAdding(e: Enqueue, todo: seq<Work>)
    | Finishing(stops: nat)                   // NULLs still to enqueue
    | FinishAdding(e: Enqueue, stops: nat)
    | Joining(next: nat)
    | Finished

  datatype Lock = Free | ByWorker(w: nat) | ByClient

  /** The last three fields are history: what was linked, taken and run to its end so far, in order. */
  datatype State = State(lock: Lock, items: seq<Item>, workers: seq<Worker>, client: Client,
                         linked: seq<Item>, taken: seq<Item>, executed: seq<nat>)

  /** A thread's next step, `wake` being the sleeper chosen if the step is a signal; or a wakeup without one. */
  datatype Move = WorkerMoves(w: nat, wake: nat) | ClientMoves(wake: nat) | Spurious(w: nat)

  function Init(threads: nat, script: seq<Work>): State {
    State(Free, [], seq(threads, i => WantQueue), Scripting(script), [], [], [])
  }

  predicate Sleeps(s: State, w: nat) { w < |s.workers| && s.workers[w].Asleep? }

  /** A signal wakes one sleeper if there is any. */
  ghost predicate MaySignal(s: State, wake: nat) {
    Sleeps(s, wake) || forall w :: 0 <= w < |s.workers| ==> !s.workers[w].Asleep?
  }

  ghost predicate EnqueueEnabled(s: State, e: Enqueue, wake: nat) {
    match e
    case WantLock(_) => s.lock.Free?
    case Signal => MaySignal(s, wake)
    case _ => true
  }

  /** Nothing that is queued or running will call `thread_pool_add_work` any more: the client must see to this
      before it calls `thread_pool_finish`. */
  predicate QuietItem(item: Item) { item.Job? ==> item.work.spawns == [] }

  predicate QuietWorker(w: Worker) {
    match w
    case Took(item) => QuietItem(item)
    case Busy(_, todo) => todo == []
    case Adding(_, _, _) => false
    case _ => true
  }

  ghost predicate Quiet(s: State) {
    && (forall i :: 0 <= i < |s.items| ==> QuietItem(s.items[i]))
    && (forall w :: 0 <= w < |s.workers| ==> QuietWorker(s.workers[w]))
  }

  ghost predicate Enabled(s: State, m: Move) {
    match m
    case Spurious(w) => Sleeps(s, w)
    case WorkerMoves(w, wake) =>
      && w < |s.workers|
      && (match s.workers[w]
          case WantQueue => s.lock.Free?
          case Awake(_) => s.lock.Free?
          case Asleep => false
          case Exited => false
          case Adding(e, _, _) => EnqueueEnabled(s, e, wake)
          case _ => true)
    case ClientMoves(wake) =>
      match s.client
      case Scripting(todo) => todo == [] ==> Quiet(s)
      case ScriptAdding(e, _) => EnqueueEnabled(s, e, wake)
      case FinishAdding(e, _) => EnqueueEnabled(s, e, wake)
      case Joining(next) => next < |s.workers| ==> s.workers[next].Exited?
      case Finished => false
      case _ => true
  }

  /** What one step of `queue_enqueue` does to the shared state. */
  function EnqueueShared(s: State, e: Enqueue, me: Lock, wake: nat): State {
    match e
    case WantLock(_) => s.(lock := me)
    case Link(item) => s.(items := s.items + [item], linked := s.linked + [item])
    case Signal => if Sleeps(s, wake) then s.(workers := s.workers[wake := Awake(true)]) else s
    case Unlock => s.(lock := Free)
  }

  function EnqueueNext(e: Enqueue): Enqueue {
    match e
    case WantLock(item) => Link(item)
    case Link(_) => Signal
    case _ => Unlock
  }

  function WorkerStep(s: State, w: nat, wake: nat): State
    requires w < |s.workers|
  {
    match s.workers[w]
    case WantQueue => s.(lock := ByWorker(w), workers := s.workers[w := Test(false)])
    case Awake(signalled) => s.(lock := ByWorker(w), workers := s.workers[w := Test(signalled)])
    case Test(_) =>
      if s.items == [] then s.(lock := Free, workers := s.workers[w := Asleep])
      else s.(items := s.items[1..], taken := s.taken + [s.items[0]], workers := s.workers[w := Took(s.items[0])])
    case Took(item) =>
      s.(lock := Free, workers := s.workers[w := if item.Stop? then Exited else Busy(item.work.id, item.work.spawns)])
    case Busy(id, todo) =>
      if todo == [] then s.(executed := s.executed + [id], workers := s.workers[w := WantQueue])
      else s.(workers := s.workers[w := Adding(WantLock(Job(todo[0])), id, todo[1..])])
    case Adding(e, id, todo) =>
      var t := EnqueueShared(s, e, ByWorker(w), wake);
      t.(workers := t.workers[w := if e.Unlock? then Busy(id, todo) else Adding(EnqueueNext(e), id, todo)])
    case _ => s
  }

  function ClientStep(s: State, wake: nat): State {
    match s.client
    case Scripting(todo) =>
      if todo == [] then s.(client := Finishing(|s.workers|))
      else s.(client := ScriptAdding(WantLock(Job(todo[0])), todo[1..]))
    case ScriptAdding(e, todo) =>
      EnqueueShared(s, e, ByClient,
          wake).(client := if e.Unlock? then Scripting(todo) else ScriptAdding(EnqueueNext(e), todo))
    case Finishing(stops) =>
      s.(client := if stops == 0 then Joining(0) else FinishAdding(WantLock(Stop), stops - 1))
    case FinishAdding(e, stops) =>
      EnqueueShared(s, e, ByClient,
          wake).(client := if e.Unlock? then Finishing(stops) else FinishAdding(EnqueueNext(e), stops))
    case Joining(next) => s.(client := if next < |s.workers| then Joining(next + 1) else Finished)
    case Finished => s
  }

  /** One step of the whole pool. */
  function Next(s: State, m: Move): State
    requires m.WorkerMoves? ==> m.w < |s.workers|
  {
    match m
    case Spurious(w) => if Sleeps(s, w) then s.(workers := s.workers[w := Awake(false)]) else s
    case WorkerMoves(w, wake) => WorkerStep(s, w, wake)
    case ClientMoves(wake) => ClientStep(s, wake)
  }

  /** A schedule: a sequence of moves, each enabled when it is made. */
  ghost predicate Schedule(s: State, moves: seq<Move>)
    decreases moves
  {
    moves == [] || (Enabled(s, moves[0]) && Schedule(Next(s, moves[0]), moves[1..]))
  }

  ghost function After(s: State, moves: seq<Move>): State
    requires Schedule(s, moves)
    decreases moves
  {
    if moves == [] then s else After(Next(s, moves[0]), moves[1..])
  }
}
