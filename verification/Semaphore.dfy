/** The counting semaphore of semaphore.rs: permits are handed to waiters directly. */
module Semaphores {
  import opened Common
  import opened WaitList
  import opened WaitOrder

  const USIZE_MAX: nat := 0xFFFF_FFFF_FFFF_FFFF

  type Waiter = Node<()>

  /** Where the permits are: held by callers, or by waiters woken but not polled since; total
      is what the semaphore started with and what was released beyond that. */
  datatype Permits = Permits(line: Line<()>, held: nat, total: nat)

  /** Every permit is available, held, with a woken waiter, or one of those now being released. */
  ghost predicate Sound(available: nat, releasing: nat, queue: seq<Waiter>, p: Permits) {
    && available + releasing + p.held + |p.line.woken| == p.total
    && Orderly(p.line, queue)
  }

  /** A waiter leaves the queue, or joins it, or its permit is now its own, or is given up. */
  ghost function Left(p: Permits, n: Waiter): Permits {
    p.(line := p.line.(cancelled := p.line.cancelled + {n}))
  }

  ghost function Arrived(p: Permits, n: Waiter): Permits {
    p.(line := p.line.(arrivals := p.line.arrivals + [n]))
  }

  ghost function Resolved(p: Permits, n: Waiter): Permits {
    p.(line := p.line.(woken := p.line.woken - {n}), held := p.held + 1)
  }

  ghost function Abandoned(p: Permits, n: Waiter): Permits {
    p.(line := p.line.(woken := p.line.woken - {n}))
  }

  /** Permits go to the head of the queue; no permit that is held is touched. */
  ghost predicate Handed(queue: seq<Waiter>, p: Permits, queue': seq<Waiter>, p': Permits) {
    p' == p.(line := p'.line) && Served(queue, p.line, queue', p'.line)
  }

  lemma HandedNone(queue: seq<Waiter>, p: Permits)
    ensures Handed(queue, p, queue, p)
  {
    ServedNone(queue, p.line);
  }

  lemma HandedOne(queue: seq<Waiter>, p: Permits, q1: seq<Waiter>, p1: Permits)
    requires Handed(queue, p, q1, p1) && q1 != []
    ensures Handed(queue, p, q1[1..], p1.(line := AfterWake(p1.line, q1[0])))
  {
    ServedOne(queue, p.line, q1, p1.line);
  }

  /** One waiter leaves the queue and nothing else happens. */
  ghost predicate Removed(queue: seq<Waiter>, n: Waiter, queue': seq<Waiter>) {
    exists k :: 0 <= k < |queue| && queue[k] == n && queue' == queue[..k] + queue[k + 1..]
  }

  lemma RemovedMoves(queue: seq<Waiter>, p: Permits, n: Waiter, queue': seq<Waiter>)
    requires Removed(queue, n, queue')
    ensures Moved(queue, p.line, queue', Left(p, n).line, n)
  {
    hide Served, Moved;
    var k :| 0 <= k < |queue| && queue[k] == n && queue' == queue[..k] + queue[k + 1..];
    ServedNone(queue', Left(p, n).line);
    CancelledAs(queue, p.line, k, queue', Left(p, n).line);
    CancelMoves(queue, p.line, n, queue', Left(p, n).line);
  }

  /** Of n permits released, those nobody waits for. */
  function Surplus(n: nat, waiting: nat): nat {
    if n > waiting then n - waiting else 0
  }

  lemma WokenApart(available: nat, releasing: nat, queue: seq<Waiter>, p: Permits)
    requires Sound(available, releasing, queue, p)
    ensures forall n :: n in p.line.woken ==> n !in queue && n in p.line.arrivals
    ensures forall n :: n in queue ==> n in p.line.arrivals
    ensures forall k :: 0 <= k < |queue| ==> queue[k] !in p.line.woken && queue[k] !in queue[..k] + queue[k + 1..]
  {
    hide Orderly;
    Apart(p.line, queue);
  }

  /** A permit being released goes to the head of the queue. */
  lemma WakeStep(available: nat, releasing: nat, queue: seq<Waiter>, p: Permits)
    requires Sound(available, releasing, queue, p) && releasing > 0 && queue != []
    ensures Sound(available, releasing - 1, queue[1..], p.(line := AfterWake(p.line, queue[0])))
  {
    hide Orderly;
    WakeOrderly(p.line, queue);
  }

  lemma CancelStep(available: nat, queue: seq<Waiter>, p: Permits, k: nat)
    requires Sound(available, 0, queue, p) && k < |queue|
    ensures Sound(available, 0, queue[..k] + queue[k + 1..], Left(p, queue[k]))
  {
    hide Orderly;
    CancelOrderly(p.line, queue, k);
  }

  lemma ArriveStep(available: nat, queue: seq<Waiter>, p: Permits, n: Waiter)
    requires Sound(available, 0, queue, p) && n !in p.line.arrivals
    ensures Sound(available, 0, queue + [n], Arrived(p, n))
  {
    hide Orderly;
    ArriveOrderly(p.line, queue, n);
  }

  /** A woken waiter is polled and now holds its permit. */
  lemma ResolveStep(available: nat, queue: seq<Waiter>, p: Permits, n: Waiter)
    requires Sound(available, 0, queue, p) && n in p.line.woken
    ensures Sound(available, 0, queue, Resolved(p, n))
  {
    hide Orderly;
    LeaveOrderly(p.line, queue, n);
  }

  /** A woken waiter is dropped: its permit is to be released. */
  lemma AbandonStep(available: nat, queue: seq<Waiter>, p: Permits, n: Waiter)
    requires Sound(available, 0, queue, p) && n in p.line.woken
    ensures Sound(available, 1, queue, Abandoned(p, n))
  {
    hide Orderly;
    LeaveOrderly(p.line, queue, n);
  }

  class Semaphore {
    var available: nat
    const waiters: List<()>
    ghost var permits: Permits

    constructor (permits: nat)
      requires permits <= 0xFFFF_FFFF_FFFF_FFFF
      ensures Valid() && available == permits && this.permits == Permits(Line({}, [], {}, []), 0, permits)
      ensures waiters.nodes == [] && fresh(waiters)
    {
      available := permits;
      waiters := new List((a, b) => true);
      this.permits := Permits(Line({}, [], {}, []), 0, permits);
    }

    /** The invariant while releasing permits are under way. */
    ghost predicate Base(releasing: nat)
      reads this, waiters, waiters.nodes, permits.line.woken
    {
      && waiters.Valid() && (forall a, b :: waiters.le(a, b))
      && Sound(available, releasing, waiters.nodes, permits)
      && available <= USIZE_MAX && (available > 0 ==> waiters.nodes == [])
      && forall n :: n in permits.line.woken ==> n.list == null
    }

    /** No permit is available while somebody waits. */
    ghost predicate Valid()
      reads this, waiters, waiters.nodes, permits.line.woken
    {
      Base(0)
    }

    method TryAcquire() returns (ok: bool)
      requires Valid()
      modifies this
      ensures Valid() && (ok <==> old(available) > 0)
      ensures ok ==> available == old(available) - 1 && permits == old(permits).(held := old(permits).held + 1)
      ensures !ok ==> unchanged(this)
    {
      hide CellOf, Sorted, TotalPreorder, NoDup, Due, RootOf, InOrder;
      if available == 0 {
        return false;
      }
      available := available - 1;
      permits := permits.(held := permits.held + 1);
      return true;
    }

    /** wake_one with a permit at hand: the head of the queue gets it. */
    method HandOne(ghost releasing: nat) returns (woken: bool)
      requires Base(releasing) && releasing > 0
      modifies this, waiters, waiters.nodes
      ensures available == old(available) && (woken <==> old(waiters.nodes) != [])
      ensures woken ==> Base(releasing - 1) && waiters.nodes == old(waiters.nodes)[1..]
      ensures woken ==> permits == old(permits).(line := AfterWake(old(permits).line, old(waiters.nodes)[0]))
      ensures !woken ==> Base(releasing) && waiters.nodes == [] && permits == old(permits)
    {
      hide CellOf, Sorted, TotalPreorder, NoDup, Due, RootOf, Sound, AfterWake, Orderly;
      ghost var q, p := waiters.nodes, permits;
      WokenApart(available, releasing, q, p);
      woken := waiters.WakeOne();
      if woken {
        WakeStep(available, releasing, q, p);
        WakeWoken(p.line, q[0]);
        permits := p.(line := AfterWake(p.line, q[0]));
      }
    }

    /** Nobody waits any more: what is left of the permits becomes available. */
    method MakeAvailable(left: nat)
      requires Base(left) && waiters.nodes == [] && available + left <= USIZE_MAX
      modifies this`available
      ensures Valid() && available == old(available) + left
    {
      hide CellOf, Sorted, TotalPreorder, NoDup, Due, RootOf, Sound, Orderly;
      AllAvailable(available, left, waiters.nodes, permits);
      available := available + left;
    }

    /** release_multiple: n permits go to the first n waiters; what is left becomes available. */
    method ReleaseMultiple(n: nat)
      requires Base(n) && n > 0 && available + Surplus(n, |waiters.nodes|) <= USIZE_MAX
      modifies this, waiters, waiters.nodes
      ensures Valid() && Handed(old(waiters.nodes), old(permits), waiters.nodes, permits)
      ensures var extra := Surplus(n, |old(waiters.nodes)|);
        waiters.nodes == old(waiters.nodes)[n - extra..] && available == old(available) + extra <= 0xFFFF_FFFF_FFFF_FFFF
    {
      hide Base, Handed, AfterWake, Sound, Served, Orderly;
      var left := n;
      ghost var q, p, k: nat := waiters.nodes, permits, 0;
      HandedNone(q, p);
      while left > 0
        invariant Base(left) && available == old(available) && Handed(q, p, waiters.nodes, permits)
        invariant left + k == n && k <= |q| && waiters.nodes == q[k..]
      {
        ghost var q1, p1 := waiters.nodes, permits;
        var woken := HandOne(left);
        if !woken {
          break;
        }
        HandedOne(q, p, q1, p1);
        left, k := left - 1, k + 1;
      }
      if left > 0 {
        MakeAvailable(left);
      }
    }

    /** release_multiple called from outside: returned of the n permits were held, the rest is extra. */
    method Release(n: nat, ghost returned: nat)
      requires Valid() && 0 < n && available + Surplus(n, |waiters.nodes|) <= USIZE_MAX && returned <= n && returned <= permits.held
      modifies this, waiters, waiters.nodes
      ensures Valid() && permits.total == old(permits.total) + (n - returned) && permits.held == old(permits.held) - returned
      ensures Handed(old(waiters.nodes), old(permits).(held := old(permits.held) - returned, total := old(permits.total) + (n - returned)),
                     waiters.nodes, permits)
    {
      hide CellOf, Sorted, TotalPreorder, NoDup, Due, RootOf, InOrder;
      permits := permits.(held := permits.held - returned, total := permits.total + (n - returned));
      ReleaseMultiple(n);
    }
  }

  lemma AllAvailable(available: nat, left: nat, queue: seq<Waiter>, p: Permits)
    requires Sound(available, left, queue, p)
    ensures Sound(available + left, 0, queue, p)
  {
  }

  // ---- acquire ---------------------------------------------------------------------------------

  datatype Progress = Start | Joined | Done

  /** The future of acquire. */
  class Acquire {
    const semaphore: Semaphore
    const wait: Wait<()>
    var stage: Progress

    constructor (semaphore: Semaphore)
      requires semaphore.Valid()
      ensures this.semaphore == semaphore && stage == Start && Valid() && fresh(wait) && fresh(wait.node)
    {
      hide CellOf, Sound, Sorted, TotalPreorder, NoDup, Due, RootOf;
      this.semaphore, stage := semaphore, Start;
      wait := new Wait(semaphore.waiters, (), true);
    }

    ghost predicate Valid()
      reads this, wait, wait.node, semaphore, semaphore.waiters, semaphore.waiters.nodes, semaphore.permits.line.woken
    {
      && semaphore.Valid() && wait.home == semaphore.waiters && wait.Valid()
      && (stage == Start ==> wait.unattached && wait.cleanup && wait.node !in semaphore.permits.line.arrivals)
      && (stage == Joined ==> !wait.unattached && wait.cleanup
                              && (wait.node in semaphore.waiters.nodes || wait.node in semaphore.permits.line.woken))
      && (stage == Done ==> wait.node !in semaphore.waiters.nodes && wait.node !in semaphore.permits.line.woken)
    }

    /** First poll: takes a permit if one is available, else waits at the end of the queue. */
    method FirstPoll() returns (r: Poll)
      requires Valid() && stage == Start
      modifies this, wait, wait.node, semaphore, semaphore.waiters, semaphore.waiters.nodes
      ensures Valid() && stage == (if r == Ready then Done else Joined) && (r == Ready <==> old(semaphore.available) > 0)
      ensures r == Ready ==>
        && semaphore.waiters.nodes == old(semaphore.waiters.nodes) && semaphore.available == old(semaphore.available) - 1
        && semaphore.permits == old(semaphore.permits).(held := old(semaphore.permits).held + 1)
      ensures r == Pending ==>
        && semaphore.waiters.nodes == old(semaphore.waiters.nodes) + [wait.node] && semaphore.available == 0
        && semaphore.permits == Arrived(old(semaphore.permits), wait.node)
      ensures Moved(old(semaphore.waiters.nodes), old(semaphore.permits.line), semaphore.waiters.nodes, semaphore.permits.line, wait.node)
    {
      hide CellOf, Sound, Sorted, TotalPreorder, NoDup, Due, RootOf, Inserted;
      ghost var q, p := semaphore.waiters.nodes, semaphore.permits;
      WokenApart(semaphore.available, 0, q, p);
      OwnMoves(q, p.line, wait.node);
      var ok := semaphore.TryAcquire();
      if ok {
        stage := Done;
        return Ready;
      }
      WaitInLine(q, p);
      return Pending;
    }

    /** No permit is available: the node joins the queue. */
    method WaitInLine(ghost q: seq<Waiter>, ghost p: Permits)
      requires Valid() && stage == Start && semaphore.available == 0 && q == semaphore.waiters.nodes && p == semaphore.permits
      modifies this, wait, wait.node, semaphore, semaphore.waiters, semaphore.waiters.nodes
      ensures Valid() && stage == Joined && semaphore.available == 0
      ensures semaphore.waiters.nodes == q + [wait.node] && semaphore.permits == Arrived(p, wait.node)
    {
      hide CellOf, Sound, Sorted, TotalPreorder, NoDup, Due, RootOf, Inserted;
      WokenApart(0, 0, q, p);
      AtTail(semaphore.waiters.le, q, wait.node);
      ArriveStep(0, q, p, wait.node);
      var r := wait.Poll();
      stage := Joined;
      semaphore.permits := Arrived(p, wait.node);
    }

    /** Re-poll: resolves exactly when a permit has been handed over. */
    method PollAgain() returns (r: Poll)
      requires Valid() && stage == Joined
      modifies this, wait, wait.node, semaphore, semaphore.waiters, semaphore.waiters.nodes
      ensures Valid() && stage == (if r == Ready then Done else Joined) && (r == Ready <==> wait.node in old(semaphore.permits.line.woken))
      ensures semaphore.waiters.nodes == old(semaphore.waiters.nodes) && semaphore.available == old(semaphore.available)
      ensures r == Pending ==> semaphore.permits == old(semaphore.permits)
      ensures r == Ready ==>
        semaphore.permits == Resolved(old(semaphore.permits), wait.node)
      ensures Moved(old(semaphore.waiters.nodes), old(semaphore.permits.line), semaphore.waiters.nodes, semaphore.permits.line, wait.node)
    {
      hide CellOf, Sound, Sorted, TotalPreorder, NoDup, Due, RootOf, Inserted;
      ghost var q, p := semaphore.waiters.nodes, semaphore.permits;
      WokenApart(semaphore.available, 0, q, p);
      OwnMoves(q, p.line, wait.node);
      r := wait.Poll();
      if r == Ready {
        ResolveStep(semaphore.available, q, p, wait.node);
        semaphore.permits := Resolved(p, wait.node);
        stage := Done;
      }
    }

    /** The cleanup action of a woken waiter. */
    method PassOn(ghost q: seq<Waiter>, ghost p: Permits)
      requires semaphore.Valid() && q == semaphore.waiters.nodes && p == semaphore.permits && wait.node in p.line.woken
      requires semaphore.available + Surplus(1, |q|) <= USIZE_MAX
      modifies semaphore, semaphore.waiters, semaphore.waiters.nodes
      ensures semaphore.Valid() && Handed(q, Abandoned(p, wait.node), semaphore.waiters.nodes, semaphore.permits)
      ensures if q == [] then semaphore.available == old(semaphore.available) + 1
              else semaphore.waiters.nodes == q[1..] && semaphore.available == old(semaphore.available)
      ensures wait.node !in semaphore.waiters.nodes && wait.node !in semaphore.permits.line.woken
      ensures Moved(q, p.line, semaphore.waiters.nodes, semaphore.permits.line, wait.node)
    {
      hide CellOf, Sound, Sorted, TotalPreorder, NoDup, Due, RootOf, Served, Moved;
      ghost var p1 := Abandoned(p, wait.node);
      WokenApart(semaphore.available, 0, q, p);
      AbandonStep(semaphore.available, q, p, wait.node);
      semaphore.permits := p1;
      semaphore.ReleaseMultiple(1);
      ServedGone(q, p1.line, wait.node, semaphore.waiters.nodes, semaphore.permits.line);
      PassedMoves(q, p.line, wait.node, semaphore.waiters.nodes, semaphore.permits.line);
    }

    /** The rest of dropping a future whose node has just left place k of the queue. */
    ghost method LeaveQueue(q: seq<Waiter>, p: Permits, k: nat)
      requires Sound(semaphore.available, 0, q, p) && k < |q| && q[k] == wait.node && semaphore.available <= USIZE_MAX
      requires semaphore.permits == p && semaphore.waiters.nodes == q[..k] + q[k + 1..] && (semaphore.available > 0 ==> q == [])
      requires semaphore.waiters.Valid() && (forall a, b :: semaphore.waiters.le(a, b)) && forall n :: n in p.line.woken ==> n.list == null
      modifies semaphore`permits
      ensures semaphore.Valid() && semaphore.permits == Left(p, wait.node) && Removed(q, wait.node, semaphore.waiters.nodes)
      ensures wait.node !in semaphore.waiters.nodes && wait.node !in semaphore.permits.line.woken
    {
      hide CellOf, Sound, Sorted, TotalPreorder, NoDup, Due, RootOf;
      WokenApart(semaphore.available, 0, q, p);
      CancelStep(semaphore.available, q, p, k);
      semaphore.permits := Left(p, wait.node);
    }

    /** Dropping the future: the permit of a woken waiter is released again, to the next in line. */
    method Drop()
      requires Valid()
      requires wait.node in semaphore.permits.line.woken ==> semaphore.available + Surplus(1, |semaphore.waiters.nodes|) <= USIZE_MAX
      modifies this, wait, wait.node, semaphore, semaphore.waiters, semaphore.waiters.nodes
      ensures Valid() && stage == Done
      ensures wait.node in old(semaphore.permits.line.woken) ==>
        && Handed(old(semaphore.waiters.nodes), Abandoned(old(semaphore.permits), wait.node), semaphore.waiters.nodes, semaphore.permits)
        && (if old(semaphore.waiters.nodes) == [] then semaphore.available == old(semaphore.available) + 1
            else semaphore.waiters.nodes == old(semaphore.waiters.nodes)[1..] && semaphore.available == old(semaphore.available))
      ensures wait.node in old(semaphore.waiters.nodes) ==>
        && semaphore.permits == Left(old(semaphore.permits), wait.node) && semaphore.available == old(semaphore.available)
        && Removed(old(semaphore.waiters.nodes), wait.node, semaphore.waiters.nodes)
      ensures old(stage) != Joined ==>
        && semaphore.waiters.nodes == old(semaphore.waiters.nodes)
        && semaphore.permits == old(semaphore.permits) && semaphore.available == old(semaphore.available)
      ensures Moved(old(semaphore.waiters.nodes), old(semaphore.permits.line), semaphore.waiters.nodes, semaphore.permits.line, wait.node)
    {
      hide CellOf, Sound, Sorted, TotalPreorder, NoDup, Due, RootOf, Inserted, Served, Moved, Removed, Handed;
      ghost var q, p := semaphore.waiters.nodes, semaphore.permits;
      WokenApart(semaphore.available, 0, q, p);
      OwnMoves(q, p.line, wait.node);
      if stage == Joined {
        ghost var k;
        var run;
        run, k := wait.Drop();
        if run {
          PassOn(q, p);
        } else {
          LeaveQueue(q, p, k);
          RemovedMoves(q, p, wait.node, semaphore.waiters.nodes);
        }
      }
      stage := Done;
    }

    /** A step of the semaphore, or of another future, leaves this future valid. */
    twostate lemma Bystander()
      requires old(Valid()) && semaphore.Valid()
      requires unchanged(this) && unchanged(wait) && (wait.node !in old(semaphore.waiters.nodes) ==> unchanged(wait.node))
      requires exists x :: x != wait.node &&
                 Moved(old(semaphore.waiters.nodes), old(semaphore.permits.line), semaphore.waiters.nodes, semaphore.permits.line, x)
      ensures Valid()
    {
      hide CellOf, Sound, Sorted, TotalPreorder, NoDup, Due, RootOf;
      ghost var q', p' := semaphore.waiters.nodes, semaphore.permits;
      WokenApart(semaphore.available, 0, q', p');
      if wait.node in q' {
        var k :| 0 <= k < |q'| && q'[k] == wait.node;
        AttachedAt(semaphore.waiters, k);
      }
    }
  }

  // ---- any number of futures -----------------------------------------------------------------------

  /** The futures on one semaphore, each with a node of its own; every node queued or woken is one of theirs. */
  ghost predicate Together(semaphore: Semaphore, futures: set<Acquire>)
    reads futures, set c | c in futures :: c.wait, set c | c in futures :: c.wait.node
    reads semaphore, semaphore.waiters, semaphore.waiters.nodes, semaphore.permits.line.woken
  {
    && semaphore.Valid()
    && (forall c :: c in futures ==> c.semaphore == semaphore && c.Valid())
    && (forall c, d :: c in futures && d in futures && c != d ==> c.wait != d.wait && c.wait.node != d.wait.node)
    && (forall n :: n in semaphore.waiters.nodes ==> exists c :: c in futures && c.wait.node == n)
    && (forall n :: n in semaphore.permits.line.woken ==> exists c :: c in futures && c.wait.node == n)
  }

  method NewAmong(semaphore: Semaphore, ghost futures: set<Acquire>) returns (c: Acquire)
    requires Together(semaphore, futures)
    ensures fresh(c) && c.semaphore == semaphore && c.stage == Start && Together(semaphore, futures + {c})
  {
    hide CellOf, Sound, Sorted, TotalPreorder, NoDup, Due, RootOf, Semaphore.Valid, Acquire.Valid, Moved;
    c := new Acquire(semaphore);
  }

  /** Whoever is polled or dropped, and whoever releases permits, all futures stay as they should be. */
  method PollAmong(ghost futures: set<Acquire>, c: Acquire) returns (r: Poll)
    requires Together(c.semaphore, futures) && c in futures && c.stage != Done
    modifies c, c.wait, c.wait.node, c.semaphore, c.semaphore.waiters, c.semaphore.waiters.nodes
    ensures Together(c.semaphore, futures) && c.stage == (if r == Ready then Done else Joined)
  {
    hide CellOf, Sound, Sorted, TotalPreorder, NoDup, Due, RootOf, Semaphore.Valid;
    if c.stage == Start {
      r := c.FirstPoll();
    } else {
      r := c.PollAgain();
    }
    forall d | d in futures && d != c ensures d.Valid() {
      d.Bystander();
    }
  }

  method DropAmong(ghost futures: set<Acquire>, c: Acquire)
    requires Together(c.semaphore, futures) && c in futures
    requires c.wait.node in c.semaphore.permits.line.woken ==> c.semaphore.available + Surplus(1, |c.semaphore.waiters.nodes|) <= USIZE_MAX
    modifies c, c.wait, c.wait.node, c.semaphore, c.semaphore.waiters, c.semaphore.waiters.nodes
    ensures Together(c.semaphore, futures) && Together(c.semaphore, futures - {c})
  {
    hide CellOf, Sound, Sorted, TotalPreorder, NoDup, Due, RootOf, Semaphore.Valid;
    c.Drop();
    forall d | d in futures && d != c ensures d.Valid() {
      d.Bystander();
    }
  }

  method ReleaseAmong(semaphore: Semaphore, ghost futures: set<Acquire>, n: nat, ghost returned: nat)
    requires Together(semaphore, futures) && 0 < n && semaphore.available + Surplus(n, |semaphore.waiters.nodes|) <= USIZE_MAX
    requires returned <= n && returned <= semaphore.permits.held
    modifies semaphore, semaphore.waiters, semaphore.waiters.nodes
    ensures Together(semaphore, futures)
  {
    hide CellOf, Sound, Sorted, TotalPreorder, NoDup, Due, RootOf, Semaphore.Valid, Served;
    semaphore.Release(n, returned);
    ServedMoves(old(semaphore.waiters.nodes), old(semaphore.permits.line), semaphore.waiters.nodes, semaphore.permits.line);
    forall d | d in futures ensures d.Valid() {
      d.Bystander();
    }
  }

  method TryAmong(semaphore: Semaphore, ghost futures: set<Acquire>) returns (ok: bool)
    requires Together(semaphore, futures)
    modifies semaphore
    ensures Together(semaphore, futures) && (ok <==> old(semaphore.available) > 0)
  {
    hide CellOf, Sound, Sorted, TotalPreorder, NoDup, Due, RootOf, Semaphore.Valid, Acquire.Valid;
    ok := semaphore.TryAcquire();
    assert Moved(old(semaphore.waiters.nodes), old(semaphore.permits.line), semaphore.waiters.nodes, semaphore.permits.line, null);
    forall d | d in futures ensures d.Valid() {
      d.Bystander();
    }
  }
}
