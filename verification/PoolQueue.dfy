/** The thread pool on the linked queue itself: in any schedule, the nodes hold what the protocol says is queued. */
module PoolQueue {
  import opened PoolProtocol
  import opened PoolShutdown
  import opened Queue

  /** What a step does to the queue. */
  datatype Access = Nothing | Adds(item: Item) | Takes

  function EnqueueAccess(e: Enqueue): Access { if e.Link? then Adds(e.item) else Nothing }

  function AccessOf(s: State, m: Move): Access {
    match m
    case Spurious(_) => Nothing
    case WorkerMoves(w, _) =>
      if w >= |s.workers| then Nothing
      else (match s.workers[w]
            case Test(_) => Takes
            case Adding(e, _, _) => EnqueueAccess(e)
            case _ => Nothing)
    case ClientMoves(_) =>
      match s.client
      case ScriptAdding(e, _) => EnqueueAccess(e)
      case FinishAdding(e, _) => EnqueueAccess(e)
      case _ => Nothing
  }

  /** The protocol reads and changes its queue only so. */
  lemma NextAccess(s: State, m: Move)
    requires Enabled(s, m)
    ensures m.WorkerMoves? ==> m.w < |s.workers|
    ensures var s' := Next(s, m);
            match AccessOf(s, m)
            case Nothing => s'.items == s.items && s'.taken == s.taken
            case Adds(item) => s'.items == s.items + [item] && s'.taken == s.taken
            case Takes =>
              if s.items == [] then s'.items == s.items && s'.taken == s.taken
              else s'.items == s.items[1..] && s'.taken == s.taken + [s.items[0]]
  {
  }

  lemma {:induction false} ScheduleParts(s: State, moves: seq<Move>, n: nat)
    requires Schedule(s, moves) && n < |moves|
    ensures Schedule(s, moves[..n]) && Enabled(After(s, moves[..n]), moves[n])
    ensures Schedule(s, moves[..n + 1]) && After(s, moves[..n + 1]) == Next(After(s, moves[..n]), moves[n])
    decreases n
  {
    hide Next;
    assert moves[..n + 1][0] == moves[0] && moves[..n + 1][1..] == moves[1..][..n];
    if n == 0 {
      assert moves[..0] == [] && moves[1..][..0] == [];
    } else {
      assert moves[..n][0] == moves[0] && moves[..n][1..] == moves[1..][..n - 1] && moves[1..][n - 1] == moves[n];
      ScheduleParts(Next(s, moves[0]), moves[1..], n - 1);
    }
  }

  /** One access to the nodes; the results of `queue_dequeue` are collected. */
  method Perform(q: Queue<Item>, access: Access, taken: seq<Item>) returns (taken': seq<Item>)
    requires q.Valid()
    modifies q, set n | n in q.spine
    ensures q.Valid() && forall n :: n in q.spine ==> n in old(q.spine) || fresh(n)
    ensures match access
            case Nothing => q.Contents() == old(q.Contents()) && taken' == taken
            case Adds(item) => q.Contents() == old(q.Contents()) + [item] && taken' == taken
            case Takes =>
              if old(q.Contents()) == [] then q.Contents() == [] && taken' == taken
              else q.Contents() == old(q.Contents())[1..] && taken' == taken + [old(q.Contents())[0]]
  {
    taken' := taken;
    ghost var before := q.spine;
    match access {
      case Nothing =>
      case Adds(item) =>
        q.Enqueue(item);
        assert q.spine == before + [q.spine[|before|]];
      case Takes =>
        if q.size > 0 {
          var first := q.Dequeue();
          taken' := taken + [first];
          assert before == [before[0]] + q.spine;
        }
    }
  }

  /** Any schedule, with `queue_enqueue` and `queue_dequeue` working on nodes and links. `taken` are the results of
      `queue_dequeue`: together with what is left in the nodes they are everything that was enqueued, in that order. */
  method RunOnQueue(threads: nat, script: seq<Work>, moves: seq<Move>) returns (q: Queue<Item>, taken: seq<Item>)
    requires Schedule(Init(threads, script), moves)
    ensures q.Valid()
    ensures var t := After(Init(threads, script), moves);
            q.Contents() == t.items && taken == t.taken && taken + q.Contents() == t.linked && q.size == |t.items|
  {
    hide Schedule, After, Enabled, Next, AccessOf;
    var s := Init(threads, script);
    ghost var start := s;
    q := new Queue<Item>();
    taken := [];
    var i := 0;
    Starts(start, moves);
    while i < |moves|
      invariant 0 <= i <= |moves| && fresh(q) && (forall n :: n in q.spine ==> fresh(n))
      invariant q.Valid() && Schedule(start, moves[..i]) && s == After(start, moves[..i])
      invariant q.Contents() == s.items && taken == s.taken
    {
      ScheduleParts(start, moves, i);
      NextAccess(s, moves[i]);
      taken := Perform(q, AccessOf(s, moves[i]), taken);
      s := Next(s, moves[i]);
      i := i + 1;
    }
    assert moves[..|moves|] == moves;
    QueueLinearizable(threads, script, moves);
  }

  lemma Starts(s: State, moves: seq<Move>)
    ensures Schedule(s, moves[..0]) && After(s, moves[..0]) == s
  {
  }
}
