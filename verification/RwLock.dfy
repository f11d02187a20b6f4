/** The reader/writer lock of rwlock.rs: a signed count of grants and a queue of claims that
    have to wait. A woken claim holds its grant before it is polled again. */
module RwLocks {
  import opened Common
  import opened WaitList
  import opened WaitOrder

  datatype Access = Shared | Exclusive

  const ISIZE_MAX: int := 0x7FFF_FFFF_FFFF_FFFF
  const ISIZE_MIN: int := -0x8000_0000_0000_0000

  type Waiter = Node<Access>

  /** SharedInternal or ExclusiveInternal. Exclusive guards split from one another share an acquisition. */
  class Guard {
    const access: Access
    ghost const acquisition: nat

    constructor (access: Access, ghost acquisition: nat)
      ensures this.access == access && this.acquisition == acquisition
    {
      this.access, this.acquisition := access, acquisition;
    }
  }

  /** What holds a grant: a guard, or a claim woken but not polled since. */
  datatype Holder = ByGuard(guard: Guard) | ByWaiter(waiter: Waiter)

  function AccessOf(h: Holder): Access {
    match h
    case ByGuard(g) => g.access
    case ByWaiter(n) => n.contents
  }

  // ---- what every run keeps ----------------------------------------------------------------

  /** readers counts the grants: positive all shared, negative all exclusive and all from one acquisition. */
  ghost predicate Counted(readers: int, woken: set<Waiter>, guards: set<Guard>, acquisition: nat) {
    && ISIZE_MIN <= readers <= ISIZE_MAX
    && (readers >= 0 ==> readers == |woken| + |guards|)
    && (readers >= 0 ==> (forall n :: n in woken ==> n.contents == Shared) && forall g :: g in guards ==> g.access == Shared)
    && (readers < 0 ==> -readers == |woken| + |guards| && (woken == {} || (|woken| == 1 && guards == {})))
    && (readers < 0 ==> (forall n :: n in woken ==> n.contents == Exclusive)
                        && forall g :: g in guards ==> g.access == Exclusive && g.acquisition == acquisition)
  }

  /** No claim waits at a free lock, and no shared claim waits behind shared grants alone. */
  ghost predicate NoStranding(readers: int, queue: seq<Waiter>) {
    && (readers == 0 ==> queue == [])
    && (0 < readers < ISIZE_MAX && queue != [] ==> queue[0].contents == Exclusive)
  }

  /** Everything that holds or waits for a grant. */
  datatype Grants = Grants(line: Line<Access>, guards: set<Guard>, acquisition: nat)

  /** All but NoStranding. */
  ghost predicate Sound(readers: int, queue: seq<Waiter>, g: Grants) {
    && Counted(readers, g.line.woken, g.guards, g.acquisition)
    && Orderly(g.line, queue)
  }

  ghost predicate Holds(g: Grants, h: Holder) {
    match h
    case ByGuard(x) => x in g.guards
    case ByWaiter(n) => n in g.line.woken
  }

  /** The grant of h is given back. */
  ghost function Without(g: Grants, h: Holder): Grants {
    match h
    case ByGuard(x) => g.(guards := g.guards - {x})
    case ByWaiter(n) => g.(line := g.line.(woken := g.line.woken - {n}))
  }

  /** The claim at the head of the queue gets a grant. */
  ghost function Granted(g: Grants, n: Waiter): Grants {
    g.(line := AfterWake(g.line, n))
  }

  /** One more shared claim is woken. */
  lemma WakeSharedStep(readers: int, queue: seq<Waiter>, g: Grants)
    requires Sound(readers, queue, g) && 0 <= readers < ISIZE_MAX && queue != [] && queue[0].contents == Shared
    ensures Sound(readers + 1, queue[1..], Granted(g, queue[0]))
  {
    hide Orderly;
    WakeOrderly(g.line, queue);
  }

  /** An exclusive claim is woken when nothing holds a grant. */
  lemma WakeExclusiveStep(queue: seq<Waiter>, g: Grants)
    requires Sound(0, queue, g) && queue != [] && queue[0].contents == Exclusive
    ensures Sound(-1, queue[1..], Granted(g, queue[0]).(acquisition := g.acquisition + 1))
  {
    hide Orderly;
    WakeOrderly(g.line, queue);
  }

  lemma ReleaseStep(readers: int, queue: seq<Waiter>, g: Grants, h: Holder)
    requires Sound(readers, queue, g) && Holds(g, h)
    ensures readers != 0 && (readers > 0 <==> AccessOf(h) == Shared)
    ensures Sound(if readers > 0 then readers - 1 else readers + 1, queue, Without(g, h))
  {
    hide Orderly;
    match h {
      case ByGuard(x) => assert |g.guards - {x}| == |g.guards| - 1;
      case ByWaiter(n) => LeaveOrderly(g.line, queue, n);
    }
  }

  lemma NewShared(readers: int, queue: seq<Waiter>, g: Grants, x: Guard)
    requires Sound(readers, queue, g) && 0 <= readers < ISIZE_MAX && x !in g.guards && x.access == Shared
    ensures Sound(readers + 1, queue, g.(guards := g.guards + {x}))
  {
    hide Orderly;
  }

  lemma NewExclusive(queue: seq<Waiter>, g: Grants, x: Guard)
    requires Sound(0, queue, g) && x.access == Exclusive && x.acquisition == g.acquisition + 1
    ensures Sound(-1, queue, g.(guards := {x}, acquisition := g.acquisition + 1))
  {
    hide Orderly;
  }

  lemma SplitExclusive(readers: int, queue: seq<Waiter>, g: Grants, y: Guard, x: Guard)
    requires Sound(readers, queue, g) && y in g.guards && y.access == Exclusive && readers > ISIZE_MIN
    requires x !in g.guards && x.access == Exclusive && x.acquisition == y.acquisition
    ensures readers < 0 && Sound(readers - 1, queue, g.(guards := g.guards + {x}))
  {
    hide Orderly;
  }

  /** A guard is granted without waiting. */
  ghost function Taken(g: Grants, x: Guard): Grants {
    if x.access == Shared then g.(guards := g.guards + {x}) else g.(guards := {x}, acquisition := g.acquisition + 1)
  }

  /** A woken claim is polled: its grant becomes a guard. */
  ghost function Resolved(g: Grants, n: Waiter, x: Guard): Grants {
    g.(line := g.line.(woken := g.line.woken - {n}), guards := g.guards + {x})
  }

  lemma ResolveStep(readers: int, queue: seq<Waiter>, g: Grants, n: Waiter, x: Guard)
    requires Sound(readers, queue, g) && n in g.line.woken && x !in g.guards
    requires x.access == n.contents && x.acquisition == g.acquisition
    ensures Sound(readers, queue, Resolved(g, n, x))
  {
    hide Orderly, Counted;
    LeaveOrderly(g.line, queue, n);
    CountedResolve(readers, g.line.woken, g.guards, g.acquisition, n, x);
  }

  lemma CountedResolve(readers: int, woken: set<Waiter>, guards: set<Guard>, acquisition: nat, n: Waiter, x: Guard)
    requires Counted(readers, woken, guards, acquisition) && n in woken && x !in guards
    requires x.access == n.contents && x.acquisition == acquisition
    ensures Counted(readers, woken - {n}, guards + {x}, acquisition)
  {
    assert |woken - {n}| == |woken| - 1 && |guards + {x}| == |guards| + 1;
    assert |woken| == 1 ==> woken - {n} == {};
    assert forall g :: g in guards + {x} ==> g in guards || g == x;
  }

  /** A claim still queued is cancelled. */
  ghost function Left(g: Grants, n: Waiter): Grants {
    g.(line := g.line.(cancelled := g.line.cancelled + {n}))
  }

  lemma CancelStep(readers: int, queue: seq<Waiter>, g: Grants, k: nat)
    requires Sound(readers, queue, g) && k < |queue|
    ensures Sound(readers, queue[..k] + queue[k + 1..], Left(g, queue[k]))
  {
    hide Orderly, Counted;
    CancelOrderly(g.line, queue, k);
  }

  /** A claim that cannot be granted at once queues. */
  ghost function Arrived(g: Grants, n: Waiter): Grants {
    g.(line := g.line.(arrivals := g.line.arrivals + [n]))
  }

  lemma ArriveStep(readers: int, queue: seq<Waiter>, g: Grants, n: Waiter)
    requires Sound(readers, queue, g) && n !in g.line.arrivals
    ensures Sound(readers, queue + [n], Arrived(g, n))
  {
    hide Orderly, Counted;
    ArriveOrderly(g.line, queue, n);
  }

  /** In every state the grants are shared or come from one exclusive acquisition, never both. */
  lemma Exclusion(readers: int, queue: seq<Waiter>, g: Grants, h: Holder, h': Holder)
    requires Sound(readers, queue, g) && Holds(g, h) && Holds(g, h')
    ensures AccessOf(h) == AccessOf(h')
    ensures AccessOf(h) == Exclusive ==>
      h == h' || (h.ByGuard? && h'.ByGuard? && h.guard.acquisition == h'.guard.acquisition)
  {
    hide Orderly;
    if readers < 0 && h.ByWaiter? && h'.ByWaiter? {
      One(g.line.woken, h.waiter, h'.waiter);
    }
  }

  lemma One(s: set<Waiter>, x: Waiter, y: Waiter)
    requires |s| <= 1 && x in s && y in s
    ensures x == y
  {
    if x != y {
      assert {x, y} <= s;
      SubsetSize({x, y}, s);
    }
  }

  // ---- the lock ------------------------------------------------------------------------------

  lemma WokenApart(readers: int, queue: seq<Waiter>, g: Grants)
    requires Sound(readers, queue, g)
    ensures forall n :: n in g.line.woken ==> n !in queue && n in g.line.arrivals
    ensures ISIZE_MIN <= readers <= ISIZE_MAX
    ensures forall n :: n in queue ==> n in g.line.arrivals
    ensures forall k :: 0 <= k < |queue| ==> queue[k] !in g.line.woken && queue[k] !in queue[..k] + queue[k + 1..]
  {
    hide Orderly;
    Apart(g.line, queue);
  }

  /** Claims at the head of the queue are granted; no guard is touched. */
  ghost predicate Handed(queue: seq<Waiter>, g: Grants, queue': seq<Waiter>, g': Grants) {
    g' == g.(line := g'.line) && Served(queue, g.line, queue', g'.line)
  }

  lemma HandedNone(queue: seq<Waiter>, g: Grants)
    ensures Handed(queue, g, queue, g)
  {
    ServedNone(queue, g.line);
  }

  lemma HandedOne(queue: seq<Waiter>, g: Grants, q1: seq<Waiter>, g1: Grants)
    requires Handed(queue, g, q1, g1) && q1 != []
    ensures Handed(queue, g, q1[1..], Granted(g1, q1[0]))
  {
    ServedOne(queue, g.line, q1, g1.line);
  }

  lemma GrantedParts(g: Grants, n: Waiter)
    ensures Granted(g, n).line.woken == g.line.woken + {n} && Granted(g, n).acquisition == g.acquisition
  {
  }

  /** What giving back the grant of h does: nobody waits who could be served, and nobody is served
      out of turn. A writer at the head is served once the lock is free; readers at the head are
      served when the lock was held exclusively, or, one of them, when the count was full. */
  ghost predicate ReleasePost(readers: int, queue: seq<Waiter>, g: Grants, h: Holder, readers': int, queue': seq<Waiter>, g': Grants) {
    if readers in {1, -1} && queue != [] && queue[0].contents == Exclusive then
      readers' == -1 && queue' == queue[1..] && g' == Granted(Without(g, h), queue[0]).(acquisition := g.acquisition + 1)
    else
      Handed(queue, Without(g, h), queue', g')
  }

  lemma ReleasedToWriter(readers: int, queue: seq<Waiter>, g: Grants, h: Holder)
    requires readers in {1, -1} && queue != [] && queue[0].contents == Exclusive
    ensures ReleasePost(readers, queue, g, h, -1, queue[1..], Granted(Without(g, h), queue[0]).(acquisition := g.acquisition + 1))
  {
  }

  lemma ReleasedToReaders(readers: int, queue: seq<Waiter>, g: Grants, h: Holder, queue': seq<Waiter>, g': Grants)
    requires readers == -1 && (queue == [] || queue[0].contents != Exclusive) && Handed(queue, Without(g, h), queue', g')
    ensures forall readers' :: ReleasePost(readers, queue, g, h, readers', queue', g')
  {
    hide Handed, Without;
  }

  lemma ReleasedQuietly(readers: int, queue: seq<Waiter>, g: Grants, h: Holder)
    requires readers in {1, -1} ==> queue == [] || queue[0].contents != Exclusive
    ensures forall readers' :: ReleasePost(readers, queue, g, h, readers', queue, Without(g, h))
  {
    HandedNone(queue, Without(g, h));
  }

  lemma ReleasedFull(readers: int, queue: seq<Waiter>, g: Grants, h: Holder)
    requires readers > 1 && queue != []
    ensures forall readers' :: ReleasePost(readers, queue, g, h, readers', queue[1..], Granted(Without(g, h), queue[0]))
  {
    HandedNone(queue, Without(g, h));
    HandedOne(queue, Without(g, h), queue, Without(g, h));
  }

  lemma WithoutParts(g: Grants, h: Holder)
    ensures Without(g, h).line.woken <= g.line.woken && Without(g, h).acquisition == g.acquisition
  {
  }

  class LockImpl {
    var readers: int
    const waiters: List<Access>
    ghost var grants: Grants

    constructor ()
      ensures Valid() && readers == 0 && waiters.nodes == [] && fresh(waiters)
      ensures grants == Grants(Line({}, [], {}, []), {}, 0)
    {
      readers := 0;
      waiters := new List((a, b) => true);
      grants := Grants(Line({}, [], {}, []), {}, 0);
    }

    /** Everything but NoStranding. */
    ghost predicate Base()
      reads this, waiters, waiters.nodes, grants.line.woken
    {
      && waiters.Valid() && (forall a, b :: waiters.le(a, b))
      && Sound(readers, waiters.nodes, grants)
      && forall n :: n in grants.line.woken ==> n.list == null
    }

    ghost predicate Valid()
      reads this, waiters, waiters.nodes, grants.line.woken
    {
      Base() && NoStranding(readers, waiters.nodes)
    }

    method TryLockShared() returns (r: Guard?)
      requires Valid()
      modifies this
      ensures Valid()
      ensures r != null <==> old(waiters.nodes) == [] && 0 <= old(readers) < 0x7FFF_FFFF_FFFF_FFFF
      ensures r != null ==> fresh(r) && r.access == Shared && grants == old(grants).(guards := old(grants).guards + {r}) && readers == old(readers) + 1
      ensures r == null ==> unchanged(this)
    {
      hide CellOf, Sound, Sorted, TotalPreorder, NoDup, Due, RootOf;
      if !waiters.IsEmpty() {
        return null;
      }
      if 0 <= readers < ISIZE_MAX {
        r := new Guard(Shared, 0);
        NewShared(readers, waiters.nodes, grants, r);
        readers := readers + 1;
        grants := grants.(guards := grants.guards + {r});
      } else {
        r := null;
      }
    }

    method TryLockExclusive() returns (r: Guard?)
      requires Valid()
      modifies this
      ensures Valid()
      ensures r != null <==> old(readers) == 0
      ensures r != null ==> old(waiters.nodes) == [] && fresh(r) && r.access == Exclusive && readers == -1 && grants == old(grants).(guards := {r}, acquisition := old(grants).acquisition + 1)
      ensures r == null ==> unchanged(this)
    {
      hide CellOf, Sound, Sorted, TotalPreorder, NoDup, Due, RootOf;
      if readers == 0 {
        r := new Guard(Exclusive, grants.acquisition + 1);
        NewExclusive(waiters.nodes, grants, r);
        readers := -1;
        grants := grants.(guards := {r}, acquisition := grants.acquisition + 1);
      } else {
        r := null;
      }
    }

    /** The closure of wake_while on the head: a shared claim is woken and counted unless the count is full. */
    method WakeSharedHead() returns (woken: bool)
      requires Base() && readers >= 0
      modifies this, waiters, waiters.nodes
      ensures Base() && readers >= 0
      ensures woken <==> old(waiters.nodes) != [] && old(waiters.nodes)[0].contents == Shared && old(readers) < ISIZE_MAX
      ensures woken ==> waiters.nodes == old(waiters.nodes)[1..] && readers == old(readers) + 1 && grants == Granted(old(grants), old(waiters.nodes)[0])
      ensures !woken ==> waiters.nodes == old(waiters.nodes) && readers == old(readers) && grants == old(grants)
    {
      hide CellOf, Sound, Sorted, TotalPreorder, NoDup, Due, RootOf;
      var r := readers;
      ghost var s := waiters.nodes;
      WokenApart(r, s, grants);
      woken := waiters.WakeHeadIf(access => access == Shared && r < ISIZE_MAX);
      if woken {
        WakeSharedStep(r, s, grants);
        readers := r + 1;
        grants := Granted(grants, s[0]);
      }
    }

    /** wake_while on shared claims, stopping when the count is full. */
    method WakeShared()
      requires Base() && readers >= 0
      modifies this, waiters, waiters.nodes
      ensures Base() && readers >= 0 && (waiters.nodes == [] || waiters.nodes[0].contents == Exclusive || readers == ISIZE_MAX)
      ensures Handed(old(waiters.nodes), old(grants), waiters.nodes, grants)
      ensures readers == old(readers) + |old(waiters.nodes)| - |waiters.nodes|
      ensures |waiters.nodes| <= |old(waiters.nodes)| && (readers == old(readers) ==> waiters.nodes == old(waiters.nodes))
    {
      hide CellOf, Sound, Sorted, TotalPreorder, NoDup, Due, RootOf, Granted, Handed;
      ghost var q, g := waiters.nodes, grants;
      HandedNone(q, g);
      while true
        invariant Base() && readers >= 0
        invariant |waiters.nodes| <= |q| && waiters.nodes == q[|q| - |waiters.nodes|..]
        invariant Handed(q, g, waiters.nodes, grants) && readers == old(readers) + |q| - |waiters.nodes|
        decreases |waiters.nodes|
      {
        ghost var q1, g1 := waiters.nodes, grants;
        WokenApart(readers, q1, g1);
        var woken := WakeSharedHead();
        if !woken {
          break;
        }
        HandedOne(q, g, q1, g1);
        GrantedParts(g1, q1[0]);
      }
    }

    /** wake_head_if on an exclusive claim at a free lock, which is recorded as its one grant. */
    method WakeWriter() returns (woken: bool)
      requires Base() && readers == 0
      modifies this, waiters, waiters.nodes
      ensures Base() && (woken <==> old(waiters.nodes) != [] && old(waiters.nodes)[0].contents == Exclusive)
      ensures woken ==>
        && readers == -1 && waiters.nodes == old(waiters.nodes)[1..]
        && grants == Granted(old(grants), old(waiters.nodes)[0]).(acquisition := old(grants).acquisition + 1)
      ensures !woken ==> readers == 0 && waiters.nodes == old(waiters.nodes) && grants == old(grants)
    {
      hide CellOf, Sound, Sorted, TotalPreorder, NoDup, Due, RootOf, Granted;
      ghost var q, g := waiters.nodes, grants;
      WokenApart(0, q, g);
      woken := waiters.WakeHeadIf(access => access == Exclusive);
      if woken {
        WakeExclusiveStep(q, g);
        GrantedParts(g, q[0]);
        readers := -1;
        grants := Granted(g, q[0]).(acquisition := g.acquisition + 1);
      }
    }

    /** release_exclusive, by the holder of a grant; the assertion in it holds. */
    method ReleaseExclusive(ghost h: Holder)
      requires Valid() && Holds(grants, h) && AccessOf(h) == Exclusive
      modifies this, waiters, waiters.nodes
      ensures Valid() && ReleasePost(old(readers), old(waiters.nodes), old(grants), h, readers, waiters.nodes, grants)
    {
      hide CellOf, Sound, Sorted, TotalPreorder, NoDup, Due, RootOf, Without, Handed, Holds, AccessOf, ReleasePost;
      var prev := readers;
      ghost var q, g, g1 := waiters.nodes, grants, Without(grants, h);
      ReleaseStep(prev, q, g, h);
      assert prev < 0;
      WithoutParts(g, h);
      readers := prev + 1;
      grants := g1;
      if prev == -1 {
        var woken := WakeWriter();
        if woken {
          ReleasedToWriter(prev, q, g, h);
        } else {
          WakeShared();
          ReleasedToReaders(prev, q, g, h, waiters.nodes, grants);
        }
      } else {
        ReleasedQuietly(prev, q, g, h);
      }
    }

    /** release_shared, by the holder of a grant; the assertion in it holds. */
    method ReleaseShared(ghost h: Holder)
      requires Valid() && Holds(grants, h) && AccessOf(h) == Shared
      modifies this, waiters, waiters.nodes
      ensures Valid() && ReleasePost(old(readers), old(waiters.nodes), old(grants), h, readers, waiters.nodes, grants)
    {
      hide CellOf, Sound, Sorted, TotalPreorder, NoDup, Due, RootOf, Without, Handed, Holds, AccessOf, ReleasePost, Granted;
      var prev := readers;
      ghost var q, g, g1 := waiters.nodes, grants, Without(grants, h);
      ReleaseStep(prev, q, g, h);
      assert prev > 0;
      WithoutParts(g, h);
      readers := prev - 1;
      grants := g1;
      WokenApart(prev - 1, q, g1);
      if prev == 1 {
        var woken := WakeWriter();
        if woken {
          ReleasedToWriter(prev, q, g, h);
        } else {
          ReleasedQuietly(prev, q, g, h);
        }
      } else if prev == ISIZE_MAX {
        var woken := waiters.WakeHeadIf(access => access == Shared);
        if woken {
          WakeSharedStep(prev - 1, q, g1);
          GrantedParts(g1, q[0]);
          readers := ISIZE_MAX;
          grants := Granted(g1, q[0]);
          ReleasedFull(prev, q, g, h);
        } else {
          ReleasedQuietly(prev, q, g, h);
        }
      } else {
        ReleasedQuietly(prev, q, g, h);
      }
    }

    /** The hook that runs when a queued exclusive claim is cancelled: it may have held back shared claims. */
    method ProcessExclusiveCancellation()
      requires Base() && (readers == 0 ==> waiters.nodes == [])
      modifies this, waiters, waiters.nodes
      ensures Valid() && Handed(old(waiters.nodes), old(grants), waiters.nodes, grants)
    {
      hide CellOf, Sound, Sorted, TotalPreorder, NoDup, Due, RootOf, Handed;
      HandedNone(waiters.nodes, grants);
      if readers >= 0 {
        WakeShared();
      }
    }

    /** Clone of SharedInternal; null where the source panics. */
    method CloneShared(g: Guard) returns (c: Guard?)
      requires Valid() && g in grants.guards && g.access == Shared
      modifies this
      ensures Valid() && (c == null <==> old(readers) == 0x7FFF_FFFF_FFFF_FFFF)
      ensures c == null ==> unchanged(this)
      ensures c != null ==> fresh(c) && c.access == Shared && readers == old(readers) + 1 && grants == old(grants).(guards := old(grants).guards + {c})
    {
      hide CellOf, Sound, Sorted, TotalPreorder, NoDup, Due, RootOf;
      var prev := readers;
      WokenApart(prev, waiters.nodes, grants);
      ReleaseStep(prev, waiters.nodes, grants, ByGuard(g));
      if prev == ISIZE_MAX {
        return null;
      }
      c := new Guard(Shared, 0);
      NewShared(prev, waiters.nodes, grants, c);
      readers := prev + 1;
      grants := grants.(guards := grants.guards + {c});
    }

    /** Clone of ExclusiveInternal; null where the source panics. */
    method CloneExclusive(g: Guard) returns (c: Guard?)
      requires Valid() && g in grants.guards && g.access == Exclusive
      modifies this
      ensures Valid() && (c == null <==> old(readers) == -0x8000_0000_0000_0000)
      ensures c == null ==> unchanged(this)
      ensures c != null ==> fresh(c) && c.access == Exclusive && c.acquisition == g.acquisition
      ensures c != null ==> readers == old(readers) - 1 && grants == old(grants).(guards := old(grants).guards + {c})
    {
      hide CellOf, Sound, Sorted, TotalPreorder, NoDup, Due, RootOf;
      var prev := readers;
      WokenApart(prev, waiters.nodes, grants);
      ReleaseStep(prev, waiters.nodes, grants, ByGuard(g));
      if prev == ISIZE_MIN {
        return null;
      }
      c := new Guard(Exclusive, g.acquisition);
      SplitExclusive(prev, waiters.nodes, grants, g, c);
      readers := prev - 1;
      grants := grants.(guards := grants.guards + {c});
    }

    /** Drop of SharedInternal and ExclusiveInternal. */
    method DropGuard(g: Guard)
      requires Valid() && g in grants.guards
      modifies this, waiters, waiters.nodes
      ensures Valid() && ReleasePost(old(readers), old(waiters.nodes), old(grants), ByGuard(g), readers, waiters.nodes, grants)
    {
      hide CellOf, Sound, Sorted, TotalPreorder, NoDup, Due, RootOf, ReleasePost;
      if g.access == Shared {
        ReleaseShared(ByGuard(g));
      } else {
        ReleaseExclusive(ByGuard(g));
      }
    }
  }

  lemma QueuedAtHeld(readers: int, queue: seq<Waiter>)
    requires NoStranding(readers, queue) && queue != []
    ensures readers != 0
  {
  }

  lemma SharedLeaves(readers: int, queue: seq<Waiter>, k: nat)
    requires NoStranding(readers, queue) && k < |queue| && queue[k].contents == Shared
    ensures NoStranding(readers, queue[..k] + queue[k + 1..])
  {
  }

  lemma ReleasedGone(readers: int, queue: seq<Waiter>, g: Grants, n: Waiter, readers': int, queue': seq<Waiter>, g': Grants)
    requires Sound(readers, queue, g) && n in g.line.woken && ReleasePost(readers, queue, g, ByWaiter(n), readers', queue', g')
    ensures n !in queue' && n !in g'.line.woken
  {
    hide Served, Counted;
    if !(readers in {1, -1} && queue != [] && queue[0].contents == Exclusive) {
      ServedGone(queue, Without(g, ByWaiter(n)).line, n, queue', g'.line);
    }
  }

  lemma JoinsQueue(readers: int, queue: seq<Waiter>, n: Waiter)
    requires NoStranding(readers, queue)
    requires queue != [] || (if n.contents == Shared then !(0 <= readers < ISIZE_MAX) else readers != 0)
    ensures NoStranding(readers, queue + [n])
  {
  }

  /** A release loses no claim but the one that gave its grant back. */
  lemma ReleaseMoves(readers: int, queue: seq<Waiter>, g: Grants, h: Holder, readers': int, queue': seq<Waiter>, g': Grants)
    requires ReleasePost(readers, queue, g, h, readers', queue', g')
    ensures Moved(queue, g.line, queue', g'.line, if h.ByWaiter? then h.waiter else null)
  {
    hide Served;
    if readers in {1, -1} && queue != [] && queue[0].contents == Exclusive {
      assert queue == [queue[0]] + queue[1..];
    } else {
      ServedMoves(queue, Without(g, h).line, queue', g'.line);
    }
  }

  // ---- claims --------------------------------------------------------------------------------

  datatype ClaimStage = Start | Joined | Done

  /** The future of lock_shared or lock_exclusive. */
  class Claim {
    const lock: LockImpl
    const access: Access
    const wait: Wait<Access>
    var stage: ClaimStage
    /** The trap of lock_exclusive is set. */
    var trap: bool

    constructor (lock: LockImpl, access: Access)
      requires lock.Valid()
      ensures this.lock == lock && this.access == access && stage == Start && Valid() && fresh(wait) && fresh(wait.node)
    {
      hide CellOf, Sound, NoStranding, Sorted, TotalPreorder, NoDup, Due, RootOf;
      this.lock, this.access := lock, access;
      stage, trap := Start, false;
      wait := new Wait(lock.waiters, access, true);
    }

    ghost predicate Valid()
      reads this, wait, wait.node, lock, lock.waiters, lock.waiters.nodes, lock.grants.line.woken
    {
      && lock.Valid() && wait.home == lock.waiters && wait.Valid() && wait.node.contents == access
      && (stage == Start ==> wait.unattached && wait.cleanup && wait.node !in lock.grants.line.arrivals && !trap)
      && (stage == Joined ==> !wait.unattached && wait.cleanup && (trap <==> access == Exclusive)
                              && (wait.node in lock.waiters.nodes || wait.node in lock.grants.line.woken))
      && (stage == Done ==> wait.node !in lock.waiters.nodes && wait.node !in lock.grants.line.woken && !trap)
    }

    /** First poll and re-poll. The first takes the lock if it may and else joins the queue at its end;
        a later one resolves exactly when the claim has been woken. */
    method Poll() returns (r: Guard?)
      requires Valid() && stage != Done
      modifies this, wait, wait.node, lock, lock.waiters, lock.waiters.nodes
      ensures Valid() && stage == (if r == null then Joined else Done)
      ensures r != null ==> fresh(r) && r.access == access && r in lock.grants.guards && lock.waiters.nodes == old(lock.waiters.nodes)
      ensures Moved(old(lock.waiters.nodes), old(lock.grants.line), lock.waiters.nodes, lock.grants.line, wait.node)
      ensures old(stage) == Start ==>
        && (r != null <==> old(lock.waiters.nodes) == [] && (if access == Shared then 0 <= old(lock.readers) < ISIZE_MAX else old(lock.readers) == 0))
        && (r == null ==>
             && lock.waiters.nodes == old(lock.waiters.nodes) + [wait.node] && lock.readers == old(lock.readers)
             && lock.grants == Arrived(old(lock.grants), wait.node))
        && (r != null ==> lock.grants == Taken(old(lock.grants), r) && lock.readers == (if access == Shared then old(lock.readers) + 1 else -1))
      ensures old(stage) == Joined ==>
        && (r != null <==> wait.node in old(lock.grants.line.woken)) && lock.readers == old(lock.readers)
        && (r == null ==> lock.waiters.nodes == old(lock.waiters.nodes) && lock.grants == old(lock.grants))
        && (r != null ==> lock.grants == Resolved(old(lock.grants), wait.node, r))
    {
      OwnMoves(lock.waiters.nodes, lock.grants.line, wait.node);
      if stage == Start {
        r := FirstPoll();
      } else {
        r := PollAgain();
      }
    }

    method FirstPoll() returns (r: Guard?)
      requires Valid() && stage == Start
      modifies this, wait, wait.node, lock, lock.waiters, lock.waiters.nodes
      ensures Valid() && stage == (if r == null then Joined else Done)
      ensures r != null ==> fresh(r) && r.access == access && r in lock.grants.guards && lock.waiters.nodes == old(lock.waiters.nodes)
      ensures r != null <==> old(lock.waiters.nodes) == [] && (if access == Shared then 0 <= old(lock.readers) < ISIZE_MAX else old(lock.readers) == 0)
      ensures r == null ==>
        && lock.waiters.nodes == old(lock.waiters.nodes) + [wait.node] && lock.readers == old(lock.readers)
        && lock.grants == Arrived(old(lock.grants), wait.node)
      ensures r != null ==>
        lock.grants == Taken(old(lock.grants), r) && lock.readers == (if access == Shared then old(lock.readers) + 1 else -1)
    {
      hide CellOf, Sound, NoStranding, Sorted, TotalPreorder, NoDup, Due, RootOf, Inserted;
      ghost var q, g, v := lock.waiters.nodes, lock.grants, lock.readers;
      WokenApart(v, q, g);
      if access == Shared {
        r := lock.TryLockShared();
      } else {
        r := lock.TryLockExclusive();
      }
      if r != null {
        stage := Done;
      } else {
        WaitInLine(q, g, v);
      }
    }

    /** The claim could not be granted at once: its node joins the queue. */
    method WaitInLine(ghost q: seq<Waiter>, ghost g: Grants, ghost v: int)
      requires Valid() && stage == Start && q == lock.waiters.nodes && g == lock.grants && v == lock.readers
      requires q != [] || (if access == Shared then !(0 <= v < ISIZE_MAX) else v != 0)
      modifies this, wait, wait.node, lock, lock.waiters, lock.waiters.nodes
      ensures Valid() && stage == Joined
      ensures lock.waiters.nodes == q + [wait.node] && lock.readers == v && lock.grants == Arrived(g, wait.node)
    {
      hide CellOf, Sound, NoStranding, Sorted, TotalPreorder, NoDup, Due, RootOf, Inserted;
      WokenApart(v, q, g);
      ArriveStep(v, q, g, wait.node);
      JoinsQueue(v, q, wait.node);
      AtTail(lock.waiters.le, q, wait.node);
      trap := access == Exclusive;
      var p := wait.Poll();
      stage := Joined;
      lock.grants := Arrived(g, wait.node);
    }

    method PollAgain() returns (r: Guard?)
      requires Valid() && stage == Joined
      modifies this, wait, wait.node, lock, lock.waiters, lock.waiters.nodes
      ensures Valid() && stage == (if r == null then Joined else Done)
      ensures lock.waiters.nodes == old(lock.waiters.nodes) && lock.readers == old(lock.readers)
      ensures r != null <==> wait.node in old(lock.grants.line.woken)
      ensures r == null ==> lock.grants == old(lock.grants)
      ensures r != null ==> fresh(r) && r.access == access
      ensures r != null ==> lock.grants == Resolved(old(lock.grants), wait.node, r)
    {
      hide CellOf, Sound, NoStranding, Sorted, TotalPreorder, NoDup, Due, RootOf, Inserted;
      ghost var q, g, v := lock.waiters.nodes, lock.grants, lock.readers;
      WokenApart(v, q, g);
      var p := wait.Poll();
      if p == Ready {
        trap := false;
        r := new Guard(access, g.acquisition);
        ResolveStep(v, q, g, wait.node, r);
        lock.grants := Resolved(g, wait.node, r);
        stage := Done;
      } else {
        r := null;
      }
    }

    /** Dropping the future: a woken claim gives its grant back, a queued one only leaves the queue,
        and a queued exclusive claim lets those it held back go ahead. */
    method Drop()
      requires Valid()
      modifies this, wait, wait.node, lock, lock.waiters, lock.waiters.nodes
      ensures Valid() && stage == Done
      ensures old(stage) == Start || old(stage) == Done ==>
        lock.waiters.nodes == old(lock.waiters.nodes) && lock.grants == old(lock.grants) && lock.readers == old(lock.readers)
      ensures old(stage) == Joined && wait.node in old(lock.grants.line.woken) ==>
        ReleasePost(old(lock.readers), old(lock.waiters.nodes), old(lock.grants), ByWaiter(wait.node), lock.readers, lock.waiters.nodes, lock.grants)
      ensures old(stage) == Joined && wait.node !in old(lock.grants.line.woken) ==>
        && lock.grants == old(lock.grants).(line := lock.grants.line)
        && Cancelled(old(lock.waiters.nodes), old(lock.grants.line), wait.node, lock.waiters.nodes, lock.grants.line)
      ensures Moved(old(lock.waiters.nodes), old(lock.grants.line), lock.waiters.nodes, lock.grants.line, wait.node)
    {
      hide CellOf, Sound, NoStranding, Sorted, TotalPreorder, NoDup, Due, RootOf, Inserted, ReleasePost, Cancelled, Served, Moved;
      ghost var q, g, v := lock.waiters.nodes, lock.grants, lock.readers;
      OwnMoves(q, g.line, wait.node);
      WokenApart(v, q, g);
      if stage == Joined {
        ghost var k;
        var run;
        run, k := wait.Drop();
        if run {
          trap := false;
          if access == Shared {
            lock.ReleaseShared(ByWaiter(wait.node));
          } else {
            lock.ReleaseExclusive(ByWaiter(wait.node));
          }
          ReleasedGone(v, q, g, wait.node, lock.readers, lock.waiters.nodes, lock.grants);
          ReleaseMoves(v, q, g, ByWaiter(wait.node), lock.readers, lock.waiters.nodes, lock.grants);
        } else {
          LeaveQueue(q, g, v, k);
          CancelMoves(q, g.line, wait.node, lock.waiters.nodes, lock.grants.line);
        }
      }
      stage := Done;
    }

    /** The rest of dropping a claim whose node has just left place k of the queue. */
    method LeaveQueue(ghost q: seq<Waiter>, ghost g: Grants, ghost v: int, ghost k: nat)
      requires Sound(v, q, g) && NoStranding(v, q) && k < |q| && q[k] == wait.node && wait.node.contents == access
      requires lock.readers == v && lock.grants == g && lock.waiters.nodes == q[..k] + q[k + 1..]
      requires lock.waiters.Valid() && (forall a, b :: lock.waiters.le(a, b)) && forall n :: n in g.line.woken ==> n.list == null
      requires trap <==> access == Exclusive
      modifies this, lock, lock.waiters, lock.waiters.nodes
      ensures lock.Valid() && lock.grants == g.(line := lock.grants.line)
      ensures Cancelled(q, g.line, wait.node, lock.waiters.nodes, lock.grants.line)
      ensures wait.node !in lock.waiters.nodes && wait.node !in lock.grants.line.woken && stage == old(stage) && !trap
    {
      hide CellOf, Sound, Sorted, TotalPreorder, NoDup, Due, RootOf, Served, Cancelled, NoStranding;
      ghost var q1, g1 := q[..k] + q[k + 1..], Left(g, wait.node);
      CancelStep(v, q, g, k);
      lock.grants := g1;
      HandedNone(q1, g1);
      WokenApart(v, q, g);
      if trap {
        trap := false;
        QueuedAtHeld(v, q);
        lock.ProcessExclusiveCancellation();
      } else {
        SharedLeaves(v, q, k);
      }
      CancelledAs(q, g.line, k, lock.waiters.nodes, lock.grants.line);
      ServedGone(q1, g1.line, wait.node, lock.waiters.nodes, lock.grants.line);
    }

    /** A step of the lock, or of another claim, leaves this claim valid. */
    twostate lemma Bystander()
      requires old(Valid()) && lock.Valid()
      requires unchanged(this) && unchanged(wait) && (wait.node !in old(lock.waiters.nodes) ==> unchanged(wait.node))
      requires exists x :: x != wait.node && Moved(old(lock.waiters.nodes), old(lock.grants.line), lock.waiters.nodes, lock.grants.line, x)
      ensures Valid()
    {
      hide CellOf, Sound, NoStranding, Sorted, TotalPreorder, NoDup, Due, RootOf;
      ghost var q', g' := lock.waiters.nodes, lock.grants;
      WokenApart(lock.readers, q', g');
      if wait.node in q' {
        var k :| 0 <= k < |q'| && q'[k] == wait.node;
        AttachedAt(lock.waiters, k);
      }
    }
  }

  // ---- any number of claims ----------------------------------------------------------------------

  /** The claims on one lock, each with a node of its own; every node queued or woken is one of theirs. */
  ghost predicate Together(lock: LockImpl, claims: set<Claim>)
    reads claims, set c | c in claims :: c.wait, set c | c in claims :: c.wait.node
    reads lock, lock.waiters, lock.waiters.nodes, lock.grants.line.woken
  {
    && lock.Valid()
    && (forall c :: c in claims ==> c.lock == lock && c.Valid())
    && (forall c, d :: c in claims && d in claims && c != d ==> c.wait != d.wait && c.wait.node != d.wait.node)
    && (forall n :: n in lock.waiters.nodes ==> exists c :: c in claims && c.wait.node == n)
    && (forall n :: n in lock.grants.line.woken ==> exists c :: c in claims && c.wait.node == n)
  }

  method NewAmong(lock: LockImpl, ghost claims: set<Claim>, access: Access) returns (c: Claim)
    requires Together(lock, claims)
    ensures fresh(c) && c.lock == lock && c.access == access && c.stage == Start && Together(lock, claims + {c})
  {
    hide CellOf, Sound, NoStranding, Sorted, TotalPreorder, NoDup, Due, RootOf, LockImpl.Valid, Claim.Valid, Moved;
    c := new Claim(lock, access);
  }

  /** Whoever is polled or dropped, and whichever guard is dropped, all claims on the lock stay as they
      should be. */
  method PollAmong(ghost claims: set<Claim>, c: Claim) returns (r: Guard?)
    requires Together(c.lock, claims) && c in claims && c.stage != Done
    modifies c, c.wait, c.wait.node, c.lock, c.lock.waiters, c.lock.waiters.nodes
    ensures Together(c.lock, claims) && c.stage == (if r == null then Joined else Done)
  {
    hide CellOf, Sound, NoStranding, Sorted, TotalPreorder, NoDup, Due, RootOf, LockImpl.Valid, Claim.Valid, Moved;
    r := c.Poll();
    forall d | d in claims && d != c ensures d.Valid() {
      d.Bystander();
    }
  }

  method DropAmong(ghost claims: set<Claim>, c: Claim)
    requires Together(c.lock, claims) && c in claims
    modifies c, c.wait, c.wait.node, c.lock, c.lock.waiters, c.lock.waiters.nodes
    ensures Together(c.lock, claims) && Together(c.lock, claims - {c})
  {
    hide CellOf, Sound, NoStranding, Sorted, TotalPreorder, NoDup, Due, RootOf, LockImpl.Valid;
    c.Drop();
    forall d | d in claims && d != c ensures d.Valid() {
      d.Bystander();
    }
  }

  method DropGuardAmong(lock: LockImpl, ghost claims: set<Claim>, g: Guard)
    requires Together(lock, claims) && g in lock.grants.guards
    modifies lock, lock.waiters, lock.waiters.nodes
    ensures Together(lock, claims)
  {
    hide CellOf, Sound, NoStranding, Sorted, TotalPreorder, NoDup, Due, RootOf, LockImpl.Valid, ReleasePost;
    lock.DropGuard(g);
    ReleaseMoves(old(lock.readers), old(lock.waiters.nodes), old(lock.grants), ByGuard(g), lock.readers, lock.waiters.nodes, lock.grants);
    assert Moved(old(lock.waiters.nodes), old(lock.grants.line), lock.waiters.nodes, lock.grants.line, null);
    forall d | d in claims ensures d.Valid() {
      d.Bystander();
    }
  }

  /** Trying the lock and cloning a guard touch neither the queue nor a woken claim. */
  method TryLockAmong(lock: LockImpl, ghost claims: set<Claim>, access: Access) returns (r: Guard?)
    requires Together(lock, claims)
    modifies lock
    ensures Together(lock, claims) && (r != null ==> r.access == access)
  {
    hide CellOf, Sound, NoStranding, Sorted, TotalPreorder, NoDup, Due, RootOf, LockImpl.Valid, Claim.Valid;
    if access == Shared {
      r := lock.TryLockShared();
    } else {
      r := lock.TryLockExclusive();
    }
    assert Moved(old(lock.waiters.nodes), old(lock.grants.line), lock.waiters.nodes, lock.grants.line, null);
    forall d | d in claims ensures d.Valid() {
      d.Bystander();
    }
  }

  method CloneAmong(lock: LockImpl, ghost claims: set<Claim>, g: Guard) returns (c: Guard?)
    requires Together(lock, claims) && g in lock.grants.guards
    modifies lock
    ensures Together(lock, claims)
  {
    hide CellOf, Sound, NoStranding, Sorted, TotalPreorder, NoDup, Due, RootOf, LockImpl.Valid, Claim.Valid;
    if g.access == Shared {
      c := lock.CloneShared(g);
    } else {
      c := lock.CloneExclusive(g);
    }
    assert Moved(old(lock.waiters.nodes), old(lock.grants.line), lock.waiters.nodes, lock.grants.line, null);
    forall d | d in claims ensures d.Valid() {
      d.Bystander();
    }
  }
}
