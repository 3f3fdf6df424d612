/** The round-robin scheduler (kernel/scheduler/scheduler.c): a linked ready queue and a running process. */
module Scheduler {

  datatype PState = Ready | Running | Blocked

  /** No process is queued twice. */
  predicate Distinct(q: seq<nat>) { forall i, j :: 0 <= i < j < |q| ==> q[i] != q[j] }

  /** The queue is the list from `head` to `tail` along `next`. */
  ghost predicate Linked(next: seq<int>, head: int, tail: int, q: seq<nat>) {
    && (forall i :: 0 <= i < |q| ==> q[i] < |next|)
    && (if q == [] then head == -1 else head == q[0] && tail == q[|q| - 1] && next[q[|q| - 1]] == -1)
    && forall i :: 0 <= i < |q| - 1 ==> next[q[i]] == q[i + 1]
  }

  ghost predicate QueueOk(state: seq<PState>, next: seq<int>, head: int, tail: int, q: seq<nat>) {
    |state| == |next| && Linked(next, head, tail, q) && Distinct(q) && forall i :: 0 <= i < |q| ==> state[q[i]] == Ready
  }

  lemma Appended(state: seq<PState>, next: seq<int>, head: int, tail: int, q: seq<nat>, p: nat)
    requires QueueOk(state, next, head, tail, q) && p < |next| && p !in q
    ensures QueueOk(state[p := Ready], if q == [] then next[p := -1] else next[p := -1][tail := p],
                    if q == [] then p else head, p, q + [p])
  {
    var r := q + [p];
    assert forall i :: 0 <= i < |q| ==> r[i] == q[i] && r[i] != p;
    assert r[|q|] == p;
  }

  lemma Popped(state: seq<PState>, next: seq<int>, head: int, tail: int, q: seq<nat>)
    requires QueueOk(state, next, head, tail, q) && q != []
    ensures QueueOk(state, next, next[head], if next[head] == -1 then -1 else tail, q[1..]) && q[0] !in q[1..]
    ensures next[head] == -1 <==> |q| == 1
  {
    var r := q[1..];
    assert forall i :: 0 <= i < |r| ==> r[i] == q[i + 1];
    assert |q| > 1 ==> next[q[0]] == q[1];
  }

  class Scheduler {
    var state: seq<PState>
    var next: seq<int>
    var head: int
    var tail: int
    var current: nat
    const idle: nat
    ghost var queue: seq<nat>

    /** The queue is sound and the running process is not in it; everybody else is parked. */
    ghost predicate Valid()
      reads this
    {
      && QueueOk(state, next, head, tail, queue) && current < |state| && current !in queue && idle < |state|
      && (current == idle || idle in queue)
      && (forall p: nat :: p < |state| && p != current && p !in queue ==> state[p] == Blocked)
    }

    /** Between kernel operations the running process is marked so. */
    ghost predicate Settled()
      reads this
    {
      Valid() && state[current] == Running
    }

    /** scheduler_init: the idle process runs and nobody else is ready. */
    constructor (n: nat, idle: nat)
      requires idle < n
      ensures Settled() && this.idle == idle && |state| == n && current == idle && queue == []
    {
      this.idle := idle;
      state := seq(n, i => if i == idle then Running else Blocked);
      next := seq(n, i => -1);
      head, tail, current := -1, -1, idle;
      queue := [];
    }

    /** scheduler_add. */
    method Add(p: nat)
      requires QueueOk(state, next, head, tail, queue) && p < |state| && p !in queue
      modifies `state, `next, `head, `tail, `queue
      ensures QueueOk(state, next, head, tail, queue) && queue == old(queue) + [p] && state == old(state)[p := Ready]
    {
      hide Linked, Distinct;
      Appended(state, next, head, tail, queue, p);
      HeadIs(next, head, tail, queue);
      state := state[p := Ready];
      next := next[p := -1];
      if head == -1 {
        head := p;
        tail := p;
      } else {
        next := next[tail := p];
        tail := p;
      }
      queue := queue + [p];
    }

    /** The running process marks itself blocked, just before it calls the scheduler. */
    method Block()
      requires Settled() && current != idle
      modifies `state
      ensures Valid() && state == old(state)[current := Blocked] && state[current] == Blocked
    {
      QueueRuns(state, next, head, tail, queue, current);
      state := state[current := Blocked];
    }

    /** Wakes a parked process: the pipe and network code mark it ready and queue it. */
    method Wake(p: nat)
      requires Valid() && p < |state| && p != current && p !in queue
      modifies `state, `next, `head, `tail, `queue
      ensures Valid() && (old(Settled()) ==> Settled()) && queue == old(queue) + [p] && state == old(state)[p := Ready]
    {
      hide QueueOk;
      state := state[p := Ready];
      QueueKeeps(old(state), next, head, tail, queue, p);
      Add(p);
      assert state == old(state)[p := Ready];
    }

    /**
     * schedule: the process at the front of the queue runs next; the one that was
     * running goes to the back, unless it blocked.
     */
    method Schedule()
      requires Valid() && state[current] != Ready && (state[current] == Blocked ==> current != idle)
      modifies `state, `next, `head, `tail, `queue, `current
      ensures Settled() && Switched(old(queue), old(current), old(state), queue, current, state)
      ensures old(state[current]) == Blocked ==> current != old(current)
      ensures SameBlocked(old(state), state)
    {
      hide Linked, Distinct;
      HeadIs(next, head, tail, queue);
      if head == -1 {
        return;
      }
      var n := head;
      Popped(state, next, head, tail, queue);
      ghost var q0 := queue;
      head := next[n];
      if head == -1 {
        tail := -1;
      }
      queue := queue[1..];
      assert forall p :: p in q0 <==> p == n || p in queue by { FrontOrRest(q0); }
      if state[current] == Running {
        state := state[current := Ready];
        QueueKeeps(old(state), next, head, tail, queue, current);
        Add(current);
      }
      QueueRuns(state, next, head, tail, queue, n);
      current := n;
      state := state[n := Running];
    }
  }

  lemma HeadIs(next: seq<int>, head: int, tail: int, q: seq<nat>)
    requires Linked(next, head, tail, q)
    ensures head == -1 <==> q == []
    ensures q != [] ==> 0 <= head == q[0] < |next| && 0 <= tail == q[|q| - 1] < |next|
  {
  }

  lemma QueueKeeps(state: seq<PState>, next: seq<int>, head: int, tail: int, q: seq<nat>, p: nat)
    requires QueueOk(state, next, head, tail, q) && p < |state| && p !in q
    ensures QueueOk(state[p := Ready], next, head, tail, q)
  {
  }

  lemma QueueRuns(state: seq<PState>, next: seq<int>, head: int, tail: int, q: seq<nat>, p: nat)
    requires QueueOk(state, next, head, tail, q) && p < |state| && p !in q
    ensures QueueOk(state[p := Running], next, head, tail, q) && QueueOk(state[p := Blocked], next, head, tail, q)
  {
  }

  lemma FrontOrRest(q: seq<nat>)
    requires q != []
    ensures forall p :: p in q <==> p == q[0] || p in q[1..]
  {
    assert q == [q[0]] + q[1..];
  }

  /** The same processes are parked. */
  predicate SameBlocked(state: seq<PState>, state': seq<PState>) {
    |state'| == |state| && forall p: nat :: p < |state| ==> (state'[p] == Blocked <==> state[p] == Blocked)
  }

  /** Who runs and who waits after a switch. */
  predicate Switched(q: seq<nat>, current: nat, state: seq<PState>, q': seq<nat>, current': nat, state': seq<PState>) {
    && current < |state| == |state'|
    && (q == [] ==> q' == q && current' == current && state' == state)
    && (q != [] ==> current' == q[0] && q' == q[1..] + (if state[current] == Running then [current] else []))
  }
}
