// The exit-less call protocol: any number of callers and one worker over a
// bounded queue of requests that live in a shared heap and whose addresses may
// be used again after they are freed.
module RpcMachine {
  import opened Options

  /** A call as its caller made it: its number, ocall index and buffer. */
  datatype Call = Call(id: nat, index: int, buffer: int)

  /** A request block.  locked is is_done == 1; call is the call it was filled for. */
  datatype Request = Request(index: int, buffer: int, locked: bool, id: nat)

  /** Where a caller is in rpc_ocall, with its block and its call. */
  datatype Pc =
    | Idle
    | AtFill(a: nat, k: Call)
    | AtEnqueue(a: nat, k: Call)
    | AtSpin(a: nat, k: Call)
    | AtFree(a: nat, k: Call)

  /** Where the worker is: waiting, with a dequeued request, or past its execution. */
  datatype Worker = Waiting | Holding(a: nat) | Done(a: nat)

  datatype State = State(
    callers: map<nat, Pc>,
    worker: Worker,
    queue: seq<nat>,
    heap: map<nat, Request>,
    next: nat,                  // auxiliary: calls made so far
    sent: seq<Call>,            // auxiliary: calls in the order of their enqueue
    executed: seq<Call>,        // auxiliary: what the worker has executed, in order
    returned: set<Call>)        // auxiliary: calls that have returned success

  datatype Step =
    | Begin(t: nat, index: int, buffer: int, block: Option<nat>, garbage: Request)
    | Fill(t: nat)
    | Enqueue(t: nat)
    | Acquire(t: nat)
    | Release(t: nat)
    | Dequeue
    | Execute
    | Unlock

  ghost predicate Enabled(s: State, step: Step) {
    match step
    case Begin(t, index, buffer, block, garbage) =>
      // the allocator gives a block that is not in use
      t in s.callers && s.callers[t].Idle? && (block.Some? ==> block.value !in s.heap)
    case Fill(t) => t in s.callers && s.callers[t].AtFill?
    case Enqueue(t) => t in s.callers && s.callers[t].AtEnqueue?
    case Acquire(t) =>
      t in s.callers && s.callers[t].AtSpin? && (s.callers[t].a in s.heap ==> !s.heap[s.callers[t].a].locked)
    case Release(t) => t in s.callers && s.callers[t].AtFree?
    case Dequeue => s.worker.Waiting? && s.queue != []
    case Execute => s.worker.Holding?
    case Unlock => s.worker.Done?
  }

  /** The queue is not full when a request is put on it, and no request block is
      touched that is not allocated. */
  ghost predicate Sound(size: nat, s: State, step: Step) {
    match step
    case Fill(t) => t in s.callers && s.callers[t].AtFill? ==> s.callers[t].a in s.heap
    case Enqueue(t) => |s.queue| < size
    case Acquire(t) => t in s.callers && s.callers[t].AtSpin? ==> s.callers[t].a in s.heap
    case Release(t) => t in s.callers && s.callers[t].AtFree? ==> s.callers[t].a in s.heap
    case Execute => s.worker.Holding? ==> s.worker.a in s.heap
    case Unlock => s.worker.Done? ==> s.worker.a in s.heap
    case _ => true
  }

  ghost function Apply(size: nat, s: State, step: Step): State
    requires Enabled(s, step) && Sound(size, s, step)
  {
    match step
    case Begin(t, index, buffer, block, garbage) =>
      // without memory the call returns its error and nothing has happened
      if block.None? then s
      else s.(callers := s.callers[t := AtFill(block.value, Call(s.next, index, buffer))],
              heap := s.heap[block.value := garbage], next := s.next + 1)
    case Fill(t) =>
      var x := s.callers[t];
      s.(callers := s.callers[t := AtEnqueue(x.a, x.k)],
         heap := s.heap[x.a := Request(x.k.index, x.k.buffer, true, x.k.id)])
    case Enqueue(t) =>
      var x := s.callers[t];
      s.(callers := s.callers[t := AtSpin(x.a, x.k)], queue := s.queue + [x.a], sent := s.sent + [x.k])
    case Acquire(t) =>
      var x := s.callers[t];
      s.(callers := s.callers[t := AtFree(x.a, x.k)], heap := s.heap[x.a := s.heap[x.a].(locked := true)])
    case Release(t) =>
      var x := s.callers[t];
      s.(callers := s.callers[t := Idle], heap := s.heap - {x.a}, returned := s.returned + {x.k})
    case Dequeue => s.(worker := Holding(s.queue[0]), queue := s.queue[1..])
    case Execute =>
      var r := s.heap[s.worker.a];
      s.(worker := Done(s.worker.a), executed := s.executed + [Call(r.id, r.index, r.buffer)])
    case Unlock =>
      var a := s.worker.a;
      s.(worker := Waiting, heap := s.heap[a := s.heap[a].(locked := false)])
  }

  // ---- the invariant ----

  /** The call that a request block was filled for. */
  function CallOf(r: Request): Call { Call(r.id, r.index, r.buffer) }

  /** Blocks that the worker has still to execute, oldest first. */
  function Pending(s: State): seq<nat> {
    (if s.worker.Holding? then [s.worker.a] else []) + s.queue
  }

  /** The worker has the block and may still write to it. */
  predicate InWorker(s: State, a: nat) { (s.worker.Holding? || s.worker.Done?) && s.worker.a == a }

  ghost predicate NotSent(s: State, id: nat) { forall i | 0 <= i < |s.sent| :: s.sent[i].id != id }

  ghost predicate CallerOk(s: State, t: nat)
    requires t in s.callers
  {
    var x := s.callers[t];
    !x.Idle? ==>
      && x.a in s.heap && x.k.id < s.next
      && (!x.AtFill? ==> CallOf(s.heap[x.a]) == x.k)
      && (x.AtFill? || x.AtEnqueue? ==> NotSent(s, x.k.id) && !InWorker(s, x.a) && x.a !in s.queue)
      && (x.AtEnqueue? ==> s.heap[x.a].locked)
      && (x.AtSpin? ==> x.k in s.sent && (s.heap[x.a].locked <==> InWorker(s, x.a) || x.a in s.queue))
      && (x.AtSpin? && x.a !in Pending(s) ==> x.k in s.executed)
      && (x.AtFree? ==> x.k in s.executed && !InWorker(s, x.a) && x.a !in s.queue)
  }

  /** Every block that is queued or with the worker is a spinning caller's. */
  ghost predicate Spinning(s: State, a: nat) {
    a in s.heap && exists t :: t in s.callers && s.callers[t].AtSpin? && s.callers[t].a == a
  }

  ghost predicate OwnersOk(s: State) {
    && (forall t | t in s.callers :: CallerOk(s, t))
    && (forall t, u | t in s.callers && u in s.callers && t != u && !s.callers[t].Idle? && !s.callers[u].Idle? ::
          s.callers[t].a != s.callers[u].a && s.callers[t].k.id != s.callers[u].k.id)
    && (forall i | 0 <= i < |s.queue| :: Spinning(s, s.queue[i]))
    && (forall i, j | 0 <= i < j < |s.queue| :: s.queue[i] != s.queue[j])
    && (s.worker.Holding? || s.worker.Done? ==> Spinning(s, s.worker.a) && s.worker.a !in s.queue)
    && (s.worker.Done? ==> CallOf(s.heap[s.worker.a]) in s.executed)
  }

  /** The calls of some blocks. */
  function Calls(heap: map<nat, Request>, blocks: seq<nat>): seq<Call>
    requires forall i | 0 <= i < |blocks| :: blocks[i] in heap
  {
    seq(|blocks|, i requires 0 <= i < |blocks| => CallOf(heap[blocks[i]]))
  }

  /** What was sent is what was executed, followed by what is pending; no call
      was sent twice; and what has returned has been executed. */
  ghost predicate LogsOk(s: State) {
    && (forall i | 0 <= i < |Pending(s)| :: Pending(s)[i] in s.heap)
    && s.sent == s.executed + Calls(s.heap, Pending(s))
    && (forall i | 0 <= i < |s.sent| :: s.sent[i].id < s.next)
    && (forall i, j | 0 <= i < j < |s.sent| :: s.sent[i].id != s.sent[j].id)
    && (forall k | k in s.returned :: k in s.executed)
  }

  ghost predicate Inv(s: State) {
    OwnersOk(s) && LogsOk(s)
  }
}
