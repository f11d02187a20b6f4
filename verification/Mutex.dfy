/** The mutex of mutex.rs. Its bookkeeping is that of a semaphore with one permit: the mutex
    is free, or one owner has it, or one waiter was woken to have it. */
module Mutexes {
  import opened Common
  import opened WaitList
  import opened WaitOrder
  import opened Semaphores

  class Mutex {
    /** The atomic state, 0 or 1. */
    var state: nat
    const waiters: List<()>
    ghost var permits: Permits

    constructor ()
      ensures Valid() && state == 0 && waiters.nodes == [] && permits == Permits(Line({}, [], {}, []), 0, 1) && fresh(waiters)
    {
      state := 0;
      waiters := new List((a, b) => true);
      permits := Permits(Line({}, [], {}, []), 0, 1);
    }

    ghost predicate Base(releasing: nat)
      reads this, waiters, waiters.nodes, permits.line.woken
    {
      && waiters.Valid() && (forall a, b :: waiters.le(a, b))
      && state <= 1 && permits.total == 1 && Sound(1 - state, releasing, waiters.nodes, permits)
      && (state == 0 ==> waiters.nodes == [])
      && forall n :: n in permits.line.woken ==> n.list == null
    }

    ghost predicate Valid()
      reads this, waiters, waiters.nodes, permits.line.woken
    {
      Base(0)
    }

    /** At most one owner, counting a woken waiter; none, and nobody waiting, when the state is 0. */
    lemma OneOwner()
      requires Valid()
      ensures permits.held + |permits.line.woken| == state <= 1
      ensures state == 0 ==> permits.held == 0 && permits.line.woken == {} && waiters.nodes == []
    {
      hide CellOf, Sorted, TotalPreorder, NoDup, Due, RootOf, Orderly;
    }

    /** try_lock: fetch_or with 1 sets the state and tells what it was. */
    method TryLock() returns (ok: bool)
      requires Valid()
      modifies this
      ensures Valid() && (ok <==> old(state) == 0)
      ensures ok ==> state == 1 && permits == old(permits).(held := 1) && old(permits).held == 0
      ensures !ok ==> state == old(state) && permits == old(permits)
    {
      hide CellOf, Sorted, TotalPreorder, NoDup, Due, RootOf, Orderly;
      var was := state;
      state := 1;
      if was == 0 {
        permits := permits.(held := permits.held + 1);
      }
      return was == 0;
    }

    /** unlock, once the owner has given up: the mutex passes to the head of the queue, if any. */
    method Unlock()
      requires Base(1)
      modifies this, waiters, waiters.nodes
      ensures Valid() && Handed(old(waiters.nodes), old(permits), waiters.nodes, permits)
      ensures if old(waiters.nodes) == [] then state == 0 else state == 1 && waiters.nodes == old(waiters.nodes)[1..]
    {
      hide CellOf, Sorted, TotalPreorder, NoDup, Due, RootOf, Sound, AfterWake, Served, Orderly;
      ghost var q, p := waiters.nodes, permits;
      Taken(1 - state, q, p);
      WokenApart(1 - state, 1, q, p);
      ServedNone(q, p.line);
      var woken := waiters.WakeOne();
      if woken {
        WakeStep(0, 1, q, p);
        ServedOne(q, p.line, q, p.line);
        WakeWoken(p.line, q[0]);
        permits := p.(line := AfterWake(p.line, q[0]));
      } else {
        AllAvailable(0, 1, q, p);
        state := 0;
      }
    }

    /** Drop of ActionPermit and MutexGuard. */
    method DropGuard()
      requires Valid() && permits.held > 0
      modifies this, waiters, waiters.nodes
      ensures Valid() && Handed(old(waiters.nodes), old(permits).(held := 0), waiters.nodes, permits) && old(permits).held == 1
      ensures if old(waiters.nodes) == [] then state == 0 else state == 1 && waiters.nodes == old(waiters.nodes)[1..]
    {
      hide CellOf, Sorted, TotalPreorder, NoDup, Due, RootOf, Orderly;
      permits := permits.(held := permits.held - 1);
      Unlock();
    }
  }

  lemma Taken(available: int, queue: seq<Waiter>, p: Permits)
    requires 0 <= available <= 1 && Sound(available, 1, queue, p) && p.total == 1
    ensures available == 0
  {
    hide Orderly;
  }

  /** The future of lock and lock_assuming_cancel_safe. */
  class Lock {
    const mutex: Mutex
    const wait: Wait<()>
    var stage: Progress

    constructor (mutex: Mutex)
      requires mutex.Valid()
      ensures this.mutex == mutex && stage == Start && Valid() && fresh(wait) && fresh(wait.node)
    {
      hide CellOf, Sound, Sorted, TotalPreorder, NoDup, Due, RootOf;
      this.mutex, stage := mutex, Start;
      wait := new Wait(mutex.waiters, (), true);
    }

    ghost predicate Valid()
      reads this, wait, wait.node, mutex, mutex.waiters, mutex.waiters.nodes, mutex.permits.line.woken
    {
      && mutex.Valid() && wait.home == mutex.waiters && wait.Valid()
      && (stage == Start ==> wait.unattached && wait.cleanup && wait.node !in mutex.permits.line.arrivals)
      && (stage == Joined ==> !wait.unattached && wait.cleanup
                              && (wait.node in mutex.waiters.nodes || wait.node in mutex.permits.line.woken))
      && (stage == Done ==> wait.node !in mutex.waiters.nodes && wait.node !in mutex.permits.line.woken)
    }

    /** First poll: locks a free mutex, else waits at the end of the queue. */
    method FirstPoll() returns (r: Poll)
      requires Valid() && stage == Start
      modifies this, wait, wait.node, mutex, mutex.waiters, mutex.waiters.nodes
      ensures Valid() && stage == (if r == Ready then Done else Joined) && (r == Ready <==> old(mutex.state) == 0)
      ensures r == Ready ==>
        && mutex.waiters.nodes == old(mutex.waiters.nodes) && mutex.permits == old(mutex.permits).(held := 1)
      ensures r == Pending ==>
        && mutex.waiters.nodes == old(mutex.waiters.nodes) + [wait.node]
        && mutex.permits == Arrived(old(mutex.permits), wait.node)
      ensures mutex.state == 1 && Moved(old(mutex.waiters.nodes), old(mutex.permits.line), mutex.waiters.nodes, mutex.permits.line, wait.node)
    {
      hide CellOf, Sound, Sorted, TotalPreorder, NoDup, Due, RootOf, Inserted;
      ghost var q, p := mutex.waiters.nodes, mutex.permits;
      WokenApart(1 - mutex.state, 0, q, p);
      OwnMoves(q, p.line, wait.node);
      var ok := mutex.TryLock();
      if ok {
        stage := Done;
        return Ready;
      }
      WaitInLine(q, p);
      return Pending;
    }

    /** The mutex is taken: the node joins the queue. */
    method WaitInLine(ghost q: seq<Waiter>, ghost p: Permits)
      requires Valid() && stage == Start && mutex.state == 1 && q == mutex.waiters.nodes && p == mutex.permits
      modifies this, wait, wait.node, mutex, mutex.waiters, mutex.waiters.nodes
      ensures Valid() && stage == Joined && mutex.waiters.nodes == q + [wait.node] && mutex.permits == Arrived(p, wait.node) && mutex.state == 1
    {
      hide CellOf, Sound, Sorted, TotalPreorder, NoDup, Due, RootOf, Inserted;
      WokenApart(0, 0, q, p);
      AtTail(mutex.waiters.le, q, wait.node);
      ArriveStep(0, q, p, wait.node);
      var r := wait.Poll();
      stage := Joined;
      mutex.permits := Arrived(p, wait.node);
    }

    /** Re-poll: resolves exactly when the mutex has been passed on; the assertion in it holds. */
    method PollAgain() returns (r: Poll)
      requires Valid() && stage == Joined
      modifies this, wait, wait.node, mutex, mutex.waiters, mutex.waiters.nodes
      ensures Valid() && stage == (if r == Ready then Done else Joined) && (r == Ready <==> wait.node in old(mutex.permits.line.woken))
      ensures mutex.waiters.nodes == old(mutex.waiters.nodes) && mutex.state == old(mutex.state)
      ensures r == Pending ==> mutex.permits == old(mutex.permits)
      ensures r == Ready ==>
        mutex.permits == Resolved(old(mutex.permits), wait.node)
      ensures Moved(old(mutex.waiters.nodes), old(mutex.permits.line), mutex.waiters.nodes, mutex.permits.line, wait.node)
    {
      hide CellOf, Sound, Sorted, TotalPreorder, NoDup, Due, RootOf, Inserted;
      ghost var q, p := mutex.waiters.nodes, mutex.permits;
      WokenApart(1 - mutex.state, 0, q, p);
      OwnMoves(q, p.line, wait.node);
      r := wait.Poll();
      if r == Ready {
        OwnedByWoken(1 - mutex.state, q, p, wait.node);
        assert mutex.state == 1;
        ResolveStep(1 - mutex.state, q, p, wait.node);
        mutex.permits := Resolved(p, wait.node);
        stage := Done;
      }
    }

    /** The cleanup action of a woken waiter. */
    method PassOn(ghost q: seq<Waiter>, ghost p: Permits)
      requires mutex.Valid() && q == mutex.waiters.nodes && p == mutex.permits && wait.node in p.line.woken
      modifies mutex, mutex.waiters, mutex.waiters.nodes
      ensures mutex.Valid() && Handed(q, Abandoned(p, wait.node), mutex.waiters.nodes, mutex.permits)
      ensures if q == [] then mutex.state == 0 else mutex.state == 1 && mutex.waiters.nodes == q[1..]
      ensures wait.node !in mutex.waiters.nodes && wait.node !in mutex.permits.line.woken
      ensures Moved(q, p.line, mutex.waiters.nodes, mutex.permits.line, wait.node)
    {
      hide CellOf, Sound, Sorted, TotalPreorder, NoDup, Due, RootOf, Served, Moved;
      ghost var p1 := Abandoned(p, wait.node);
      WokenApart(1 - mutex.state, 0, q, p);
      AbandonStep(1 - mutex.state, q, p, wait.node);
      mutex.permits := p1;
      mutex.Unlock();
      ServedGone(q, p1.line, wait.node, mutex.waiters.nodes, mutex.permits.line);
      PassedMoves(q, p.line, wait.node, mutex.waiters.nodes, mutex.permits.line);
    }

    /** The rest of dropping a future whose node has just left place k of the queue. */
    ghost method LeaveQueue(q: seq<Waiter>, p: Permits, k: nat)
      requires mutex.state <= 1 && p.total == 1 && Sound(1 - mutex.state, 0, q, p) && k < |q| && q[k] == wait.node
      requires mutex.permits == p && mutex.waiters.nodes == q[..k] + q[k + 1..] && (mutex.state == 0 ==> q == [])
      requires mutex.waiters.Valid() && (forall a, b :: mutex.waiters.le(a, b)) && forall n :: n in p.line.woken ==> n.list == null
      modifies mutex`permits
      ensures mutex.Valid() && mutex.permits == Left(p, wait.node) && Removed(q, wait.node, mutex.waiters.nodes)
      ensures wait.node !in mutex.waiters.nodes && wait.node !in mutex.permits.line.woken
    {
      hide CellOf, Sound, Sorted, TotalPreorder, NoDup, Due, RootOf;
      WokenApart(1 - mutex.state, 0, q, p);
      CancelStep(1 - mutex.state, q, p, k);
      mutex.permits := Left(p, wait.node);
    }

    /** Dropping the future: a woken waiter passes the mutex on, a queued one leaves the queue. */
    method Drop()
      requires Valid()
      modifies this, wait, wait.node, mutex, mutex.waiters, mutex.waiters.nodes
      ensures Valid() && stage == Done
      ensures wait.node in old(mutex.permits.line.woken) ==>
        && Handed(old(mutex.waiters.nodes), Abandoned(old(mutex.permits), wait.node), mutex.waiters.nodes, mutex.permits)
        && (if old(mutex.waiters.nodes) == [] then mutex.state == 0
            else mutex.waiters.nodes == old(mutex.waiters.nodes)[1..] && mutex.state == 1)
      ensures wait.node in old(mutex.waiters.nodes) ==>
        && mutex.permits == Left(old(mutex.permits), wait.node) && mutex.state == old(mutex.state)
        && Removed(old(mutex.waiters.nodes), wait.node, mutex.waiters.nodes)
      ensures old(stage) != Joined ==>
        && mutex.waiters.nodes == old(mutex.waiters.nodes)
        && mutex.permits == old(mutex.permits) && mutex.state == old(mutex.state)
      ensures Moved(old(mutex.waiters.nodes), old(mutex.permits.line), mutex.waiters.nodes, mutex.permits.line, wait.node)
    {
      hide CellOf, Sound, Sorted, TotalPreorder, NoDup, Due, RootOf, Inserted, Served, Moved, Removed, Handed;
      ghost var q, p := mutex.waiters.nodes, mutex.permits;
      WokenApart(1 - mutex.state, 0, q, p);
      OwnMoves(q, p.line, wait.node);
      if stage == Joined {
        ghost var k;
        var run;
        run, k := wait.Drop();
        if run {
          PassOn(q, p);
        } else {
          LeaveQueue(q, p, k);
          RemovedMoves(q, p, wait.node, mutex.waiters.nodes);
        }
      }
      stage := Done;
    }

    /** A step of the mutex, or of another future, leaves this future valid. */
    twostate lemma Bystander()
      requires old(Valid()) && mutex.Valid()
      requires unchanged(this) && unchanged(wait) && (wait.node !in old(mutex.waiters.nodes) ==> unchanged(wait.node))
      requires exists x :: x != wait.node &&
                 Moved(old(mutex.waiters.nodes), old(mutex.permits.line), mutex.waiters.nodes, mutex.permits.line, x)
      ensures Valid()
    {
      hide CellOf, Sound, Sorted, TotalPreorder, NoDup, Due, RootOf;
      ghost var q', p' := mutex.waiters.nodes, mutex.permits;
      WokenApart(1 - mutex.state, 0, q', p');
      if wait.node in q' {
        var k :| 0 <= k < |q'| && q'[k] == wait.node;
        AttachedAt(mutex.waiters, k);
      }
    }
  }

  lemma OwnedByWoken(available: int, queue: seq<Waiter>, p: Permits, n: Waiter)
    requires 0 <= available <= 1 && Sound(available, 0, queue, p) && p.total == 1 && n in p.line.woken
    ensures available == 0
  {
    hide Orderly;
    assert |p.line.woken| >= 1;
  }

  // ---- any number of futures -----------------------------------------------------------------------

  /** The futures on one mutex, each with a node of its own; every node queued or woken is one of theirs. */
  ghost predicate Together(mutex: Mutex, futures: set<Lock>)
    reads futures, set c | c in futures :: c.wait, set c | c in futures :: c.wait.node
    reads mutex, mutex.waiters, mutex.waiters.nodes, mutex.permits.line.woken
  {
    && mutex.Valid()
    && (forall c :: c in futures ==> c.mutex == mutex && c.Valid())
    && (forall c, d :: c in futures && d in futures && c != d ==> c.wait != d.wait && c.wait.node != d.wait.node)
    && (forall n :: n in mutex.waiters.nodes ==> exists c :: c in futures && c.wait.node == n)
    && (forall n :: n in mutex.permits.line.woken ==> exists c :: c in futures && c.wait.node == n)
  }

  method NewAmong(mutex: Mutex, ghost futures: set<Lock>) returns (c: Lock)
    requires Together(mutex, futures)
    ensures fresh(c) && c.mutex == mutex && c.stage == Start && Together(mutex, futures + {c})
  {
    hide CellOf, Sound, Sorted, TotalPreorder, NoDup, Due, RootOf, Mutex.Valid, Lock.Valid, Moved;
    c := new Lock(mutex);
  }

  /** Whoever is polled or dropped, and when the owner unlocks, all futures stay as they should be. */
  method PollAmong(ghost futures: set<Lock>, c: Lock) returns (r: Poll)
    requires Together(c.mutex, futures) && c in futures && c.stage != Done
    modifies c, c.wait, c.wait.node, c.mutex, c.mutex.waiters, c.mutex.waiters.nodes
    ensures Together(c.mutex, futures) && c.stage == (if r == Ready then Done else Joined)
  {
    hide CellOf, Sound, Sorted, TotalPreorder, NoDup, Due, RootOf, Mutex.Valid;
    if c.stage == Start {
      r := c.FirstPoll();
    } else {
      r := c.PollAgain();
    }
    forall d | d in futures && d != c ensures d.Valid() {
      d.Bystander();
    }
  }

  method DropAmong(ghost futures: set<Lock>, c: Lock)
    requires Together(c.mutex, futures) && c in futures
    modifies c, c.wait, c.wait.node, c.mutex, c.mutex.waiters, c.mutex.waiters.nodes
    ensures Together(c.mutex, futures) && Together(c.mutex, futures - {c})
  {
    hide CellOf, Sound, Sorted, TotalPreorder, NoDup, Due, RootOf, Mutex.Valid;
    c.Drop();
    forall d | d in futures && d != c ensures d.Valid() {
      d.Bystander();
    }
  }

  method UnlockAmong(mutex: Mutex, ghost futures: set<Lock>)
    requires Together(mutex, futures) && mutex.permits.held > 0
    modifies mutex, mutex.waiters, mutex.waiters.nodes
    ensures Together(mutex, futures)
  {
    hide CellOf, Sound, Sorted, TotalPreorder, NoDup, Due, RootOf, Mutex.Valid, Served;
    mutex.DropGuard();
    ServedMoves(old(mutex.waiters.nodes), old(mutex.permits.line), mutex.waiters.nodes, mutex.permits.line);
    forall d | d in futures ensures d.Valid() {
      d.Bystander();
    }
  }

  method TryAmong(mutex: Mutex, ghost futures: set<Lock>) returns (ok: bool)
    requires Together(mutex, futures)
    modifies mutex
    ensures Together(mutex, futures) && (ok <==> old(mutex.state) == 0)
  {
    hide CellOf, Sound, Sorted, TotalPreorder, NoDup, Due, RootOf, Mutex.Valid, Lock.Valid;
    ok := mutex.TryLock();
    assert Moved(old(mutex.waiters.nodes), old(mutex.permits.line), mutex.waiters.nodes, mutex.permits.line, null);
    forall d | d in futures ensures d.Valid() {
      d.Bystander();
    }
  }
}
