/** wq.c: the blocking work queue, as data and as a protocol between threads. */
module WorkQueue {
  import opened LinkedLists

  function Payloads<T>(s: seq<Node<T>>): seq<T> {
    seq(|s|, i requires 0 <= i < |s| => s[i].data)
  }

  lemma PayloadsAppend<T>(s: seq<Node<T>>, n: Node<T>)
    ensures Payloads(s + [n]) == Payloads(s) + [n.data]
  {
  }

  /** wq_t without its mutex and condition variable. */
  class WorkQueue<T> {
    var size: nat
    var head: Node?<T>
    ghost var nodes: seq<Node<T>>

    ghost predicate Valid()
      reads this, nodes
    {
      DoublyLinked(head, nodes) && size == |nodes|
    }

    /** The queued jobs, oldest first. */
    ghost function Jobs(): seq<T>
      reads `nodes
    {
      Payloads(nodes)
    }

    constructor ()
      ensures Valid() && Jobs() == []
    {
      size, head, nodes := 0, null, [];
    }

    /** wq_push, while it holds the mutex. */
    method Push(item: T)
      requires Valid()
      modifies this, nodes
      ensures Valid() && Jobs() == old(Jobs()) + [item]
      ensures |nodes| == |old(nodes)| + 1 && nodes[..|nodes| - 1] == old(nodes) && fresh(nodes[|nodes| - 1])
    {
      var node := new Node(item);
      hide DoublyLinked, Payloads;
      PayloadsAppend(nodes, node);
      head := DlAppend(head, node, nodes);
      size := size + 1;
      nodes := nodes + [node];
    }

    /** wq_pop, from the moment it holds the mutex and finds the queue not empty. */
    method Take() returns (job: T)
      requires Valid() && size != 0
      modifies this, nodes
      ensures Valid() && old(Jobs()) == [job] + Jobs() && nodes == old(nodes)[1..]
    {
      hide *;
      Opened();
      ghost var s := nodes;
      FirstNode(head, s);
      job := head.data;
      size := size - 1;
      var rest := DlDelete(head, head, s, 0);
      assert DoublyLinked(rest, s[1..]);
      head, nodes := rest, s[1..];
      Closed();
    }

    lemma SizeIsLength()
      requires Valid()
      ensures size == |Jobs()|
    {
    }

    lemma Opened()
      requires Valid()
      ensures DoublyLinked(head, nodes) && size == |nodes| && Jobs() == Payloads(nodes)
    {
    }

    lemma Closed()
      requires DoublyLinked(head, nodes) && size == |nodes|
      ensures Valid() && Jobs() == Payloads(nodes)
    {
    }
  }

  lemma FirstNode<T>(head: Node?<T>, s: seq<Node<T>>)
    requires DoublyLinked(head, s) && s != []
    ensures head == s[0] && Payloads(s) == [s[0].data] + Payloads(s[1..])
    ensures s[..0] + s[1..] == s[1..]
  {
  }

  // ----- threads

  /** Where a thread is. `Checking`, `Appending` and `Waking` are inside the mutex. */
  datatype Place<T> =
    | Elsewhere
    | PopEntry                  // in wq_pop, about to lock
    | Checking                  // holds the mutex, at the while test
    | Sleeping                  // in pthread_cond_wait
    | Woken                     // woken up, about to lock again
    | PushEntry(item: T)        // in wq_push, about to lock
    | Appending(item: T)        // holds the mutex, before the append
    | Waking                    // holds the mutex, after the append, before the broadcast

  /** `pushed` and `popped` are the jobs in the order the mutex saw them go in and out. */
  datatype State<T> = State(places: seq<Place<T>>, queue: seq<T>, pushed: seq<T>, popped: seq<T>)

  datatype Step<T> =
    | CallPop | CallPush(item: T)
    | Lock                      // pthread_mutex_lock, or coming back from the wait
    | Sleep                     // the queue is empty: wait, releasing the mutex
    | Spurious                  // pthread_cond_wait may return by itself
    | TakeFirst                 // take the head, unlock, return
    | Append                    // put the job at the end
    | Broadcast                 // wake everyone, unlock, return

  predicate Holds<T>(p: Place<T>) {
    p.Checking? || p.Appending? || p.Waking?
  }

  /** Nobody is inside the mutex. */
  predicate Free<T>(s: State<T>) {
    forall t :: 0 <= t < |s.places| ==> !Holds(s.places[t])
  }

  predicate Enabled<T>(s: State<T>, t: nat, step: Step<T>) {
    && t < |s.places|
    && var p := s.places[t];
       match step
       case CallPop => p.Elsewhere?
       case CallPush(_) => p.Elsewhere?
       case Lock => (p.PopEntry? || p.Woken? || p.PushEntry?) && Free(s)
       case Sleep => p.Checking? && s.queue == []
       case Spurious => p.Sleeping?
       case TakeFirst => p.Checking? && s.queue != []
       case Append => p.Appending?
       case Broadcast => p.Waking?
  }

  function At<T>(s: State<T>, t: nat, p: Place<T>): (r: State<T>)
    requires t < |s.places|
  {
    s.(places := s.places[t := p])
  }

  function WakeAll<T>(places: seq<Place<T>>): (r: seq<Place<T>>)
    ensures |r| == |places|
    ensures forall t :: 0 <= t < |r| ==> r[t] == if places[t].Sleeping? then Woken else places[t]
  {
    seq(|places|, t requires 0 <= t < |places| => if places[t].Sleeping? then Woken else places[t])
  }

  function Do<T>(s: State<T>, t: nat, step: Step<T>): State<T>
    requires Enabled(s, t, step)
  {
    match step
    case CallPop => At(s, t, PopEntry)
    case CallPush(item) => At(s, t, PushEntry(item))
    case Lock => At(s, t, if s.places[t].PushEntry? then Appending(s.places[t].item) else Checking)
    case Sleep => At(s, t, Sleeping)
    case Spurious => At(s, t, Woken)
    case TakeFirst => At(s, t, Elsewhere).(queue := s.queue[1..], popped := s.popped + [s.queue[0]])
    case Append => At(s, t, Waking).(queue := s.queue + [s.places[t].item], pushed := s.pushed + [s.places[t].item])
    case Broadcast => At(s.(places := WakeAll(s.places)), t, Elsewhere)
  }

  function Start<T>(threads: nat): State<T> {
    State(seq(threads, _ => Elsewhere), [], [], [])
  }

  /** A run: every state is the start or follows from the one before. */
  ghost predicate Run<T>(run: seq<State<T>>, moves: seq<(nat, Step<T>)>) {
    && |run| == |moves| + 1
    && run[0] == Start(|run[0].places|)
    && forall i :: 0 <= i < |moves| ==> Moves(run, moves, i)
  }

  ghost predicate Moves<T>(run: seq<State<T>>, moves: seq<(nat, Step<T>)>, i: nat)
    requires |run| == |moves| + 1 && i < |moves|
  {
    Enabled(run[i], moves[i].0, moves[i].1) && run[i + 1] == Do(run[i], moves[i].0, moves[i].1)
  }

  /** At most one thread is inside the mutex. */
  ghost predicate Exclusive<T>(s: State<T>) {
    forall t, u :: 0 <= t < u < |s.places| ==> !(Holds(s.places[t]) && Holds(s.places[u]))
  }

  /** A thread sleeps over a non-empty queue only while a pusher is about to broadcast. */
  ghost predicate NoLostWakeup<T>(s: State<T>) {
    s.queue != [] ==>
      || (forall t :: 0 <= t < |s.places| ==> !s.places[t].Sleeping?)
      || (exists t :: 0 <= t < |s.places| && s.places[t].Waking?)
  }

  ghost predicate Invariant<T>(s: State<T>) {
    && Exclusive(s)
    && s.pushed == s.popped + s.queue
    && NoLostWakeup(s)
  }

  lemma StepKeepsExclusion<T>(s: State<T>, t: nat, step: Step<T>)
    requires Exclusive(s) && Enabled(s, t, step)
    ensures Exclusive(Do(s, t, step))
  {
  }

  lemma StepKeepsOrder<T>(s: State<T>, t: nat, step: Step<T>)
    requires s.pushed == s.popped + s.queue && Enabled(s, t, step)
    ensures var r := Do(s, t, step); r.pushed == r.popped + r.queue
  {
  }

  lemma StepKeepsWakeups<T>(s: State<T>, t: nat, step: Step<T>)
    requires Invariant(s) && Enabled(s, t, step)
    ensures NoLostWakeup(Do(s, t, step))
  {
    var r := Do(s, t, step);
    if u :| 0 <= u < |s.places| && s.places[u].Waking? && u != t {
      assert !step.Broadcast?;
      assert r.places[u].Waking?;
    } else if step.Append? {
      assert r.places[t].Waking?;
    }
  }

  lemma {:induction false} RunKeepsInvariant<T>(run: seq<State<T>>, moves: seq<(nat, Step<T>)>, i: nat)
    requires Run(run, moves) && i <= |moves|
    ensures Invariant(run[i])
    decreases i
  {
    if i > 0 {
      RunKeepsInvariant(run, moves, i - 1);
      assert Moves(run, moves, i - 1);
      var s, t, step := run[i - 1], moves[i - 1].0, moves[i - 1].1;
      StepKeepsExclusion(s, t, step);
      StepKeepsOrder(s, t, step);
      StepKeepsWakeups(s, t, step);
    }
  }

  /** Jobs come out in the order they went in, each once, under any interleaving. */
  lemma FirstInFirstOut<T>(run: seq<State<T>>, moves: seq<(nat, Step<T>)>, i: nat)
    requires Run(run, moves) && i <= |moves|
    ensures run[i].popped <= run[i].pushed && run[i].queue == run[i].pushed[|run[i].popped|..]
  {
    RunKeepsInvariant(run, moves, i);
  }

  // ----- the steps carried out on the list

  /** One step on the list itself. Only the place of the thread is looked at; what `s` says of the queue is what is proved. */
  method Perform<T>(q: WorkQueue<T>, ghost s: State<T>, t: nat, place: Place<T>, step: Step<T>) returns (jobs: seq<T>)
    requires q.Valid() && q.Jobs() == s.queue && Enabled(s, t, step) && place == s.places[t]
    modifies q, q.nodes
    ensures q.Valid() && q.Jobs() == Do(s, t, step).queue && Do(s, t, step).popped == s.popped + jobs
    ensures step.Sleep? || step.TakeFirst? ==> (step.Sleep? <==> old(q.size) == 0)
    ensures forall i :: 0 <= i < |q.nodes| ==> q.nodes[i] in old(q.nodes) || fresh(q.nodes[i])
  {
    jobs := [];
    q.SizeIsLength();
    if step.Append? {
      q.Push(place.item);
    } else if step.TakeFirst? {
      var job := q.Take();
      jobs := [job];
    }
  }

  /** A whole run on the list: the jobs handed out are the first that were put in, and the list holds the others. */
  method Execute<T>(q: WorkQueue<T>, moves: seq<(nat, Step<T>)>, run: seq<State<T>>) returns (taken: seq<T>)
    requires q.Valid() && q.Jobs() == [] && Run(run, moves)
    modifies q, q.nodes
    ensures q.Valid() && taken == run[|moves|].popped && run[|moves|].pushed == taken + q.Jobs()
  {
    hide WorkQueue.Valid, WorkQueue.Jobs;
    taken := [];
    for i := 0 to |moves|
      invariant q.Valid() && q.Jobs() == run[i].queue && taken == run[i].popped
      invariant forall j :: 0 <= j < |q.nodes| ==> q.nodes[j] in old(q.nodes) || fresh(q.nodes[j])
    {
      assert Moves(run, moves, i);
      var jobs := Perform(q, run[i], moves[i].0, run[i].places[moves[i].0], moves[i].1);
      taken := taken + jobs;
    }
    RunKeepsInvariant(run, moves, |moves|);
  }

  /** When the mutex is free nobody sleeps over a non-empty queue. */
  lemma NobodySleepsOverWork<T>(run: seq<State<T>>, moves: seq<(nat, Step<T>)>, i: nat, t: nat)
    requires Run(run, moves) && i <= |moves| && Free(run[i]) && run[i].queue != [] && t < |run[i].places|
    ensures !run[i].places[t].Sleeping?
  {
    RunKeepsInvariant(run, moves, i);
    if u :| 0 <= u < |run[i].places| && run[i].places[u].Waking? {
      assert Holds(run[i].places[u]);
    }
  }

  /** A thread inside wq_push or wq_pop has a step to take of its own accord. */
  ghost predicate CanGoOn<T(!new)>(s: State<T>) {
    exists t, step :: GoesOn(s, t, step)
  }

  predicate GoesOn<T>(s: State<T>, t: int, step: Step<T>) {
    0 <= t < |s.places| && !s.places[t].Elsewhere? && !step.Spurious? && Enabled(s, t, step)
  }

  ghost predicate AllWaitForWork<T>(s: State<T>) {
    s.queue == [] && forall t :: 0 <= t < |s.places| ==> s.places[t].Elsewhere? || s.places[t].Sleeping?
  }

  /** Some thread inside the queue's code can go on, unless they all sleep and there is no work. */
  lemma NoDeadlock<T(!new)>(run: seq<State<T>>, moves: seq<(nat, Step<T>)>, i: nat, t: nat)
    requires Run(run, moves) && i <= |moves| && t < |run[i].places|
    requires !run[i].places[t].Elsewhere?
    ensures CanGoOn(run[i]) || AllWaitForWork(run[i])
  {
    RunKeepsInvariant(run, moves, i);
    var s := run[i];
    if !Free(s) {
      var u :| 0 <= u < |s.places| && Holds(s.places[u]);
      var step := if s.places[u].Appending? then Append else if s.places[u].Waking? then Broadcast
                  else if s.queue == [] then Sleep else TakeFirst;
      assert GoesOn(s, u, step);
    } else if u :| 0 <= u < |s.places| && !s.places[u].Elsewhere? && !s.places[u].Sleeping? {
      assert !Holds(s.places[u]);
      assert GoesOn(s, u, Lock);
    } else {
      assert s.places[t].Sleeping?;
      if s.queue != [] {
        NobodySleepsOverWork(run, moves, i, t);
      }
    }
  }
}
