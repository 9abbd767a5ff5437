// The queue of requests as the callers and the worker use it.
module RpcCode {
  import opened Options
  import opened RpcMachine
  import opened RpcSafety
  import opened RpcQueue

  class Shared {
    const queue: Queue
    ghost var st: State

    /** The ring holds the queue of a state that a run has reached. */
    ghost predicate Tied()
      reads this, queue, queue.q
    {
      queue.Valid() && queue.Contents() == st.queue && Inv(st) && |st.callers| <= QUEUE_SIZE
    }

    /** start_rpc_worker, with the callers that there will be. */
    constructor (ghost start: State)
      requires Init(start) && |start.callers| <= QUEUE_SIZE
      ensures Tied() && st == start && fresh(queue) && fresh(queue.q) && queue.put == 0
    {
      queue := new Queue();
      st := start;
      InitKeeps(start);
    }

    /** A caller puts its request on the ring.  With no more callers than places
        the program never aborts, and the ring takes the machine's step as long as
        the counter stays in the array. */
    method PutRequest(ghost t: nat, req: nat) returns (r: Put)
      requires Tied() && Enabled(st, Step.Enqueue(t)) && st.callers[t].a == req
      modifies this`st, queue, queue.q
      ensures Tied() && (r == if InRing(old(queue.put)) then Queued else Stray)
      ensures if r.Queued? then Sound(QUEUE_SIZE, old(st), Step.Enqueue(t))
                             && st == Apply(QUEUE_SIZE, old(st), Step.Enqueue(t))
              else st == old(st)
    {
      hide Inv, InRing;
      StepIsSound(QUEUE_SIZE, st, Step.Enqueue(t));
      StepKeeps(QUEUE_SIZE, st, Step.Enqueue(t));
      r := queue.Enqueue(req);
      if r.Queued? {
        st := Apply(QUEUE_SIZE, st, Step.Enqueue(t));
        SameSize(old(st), st);
      }
    }

    lemma SameSize(s: State, s': State)
      requires s'.callers.Keys == s.callers.Keys
      ensures |s'.callers| == |s.callers|
    {
      assert |s.callers| == |s.callers.Keys| && |s'.callers| == |s'.callers.Keys|;
    }

    /** The worker takes the oldest request, if there is one. */
    method TakeRequest() returns (r: Option<nat>)
      requires Tied() && st.worker.Waiting?
      modifies this`st, queue
      ensures Tied() && (r.None? <==> old(st).queue == []) && (r.None? ==> st == old(st))
      ensures r.Some? ==> st == Apply(QUEUE_SIZE, old(st), Step.Dequeue) && st.worker == Holding(r.value)
    {
      hide Inv, InRing;
      r := queue.Dequeue();
      if r.Some? {
        StepKeeps(QUEUE_SIZE, st, Step.Dequeue);
        st := Apply(QUEUE_SIZE, st, Step.Dequeue);
        SameSize(old(st), st);
      }
    }
  }
}
