/** First come, first served: how the claims that ever joined a wait list relate to those
    granted and those still in it, and what serving or cancelling some does to the others. */
module WaitOrder {
  import opened Common
  import opened WaitList

  /** s without the elements of c. */
  ghost function Minus<T(!new)>(s: seq<Node<T>>, c: set<Node<T>>): seq<Node<T>> {
    if s == [] then []
    else if s[|s| - 1] in c then Minus(s[..|s| - 1], c) else Minus(s[..|s| - 1], c) + [s[|s| - 1]]
  }

  /** The claims that ever queued and were not cancelled in the queue are, in order of arrival,
      those granted and then those still waiting. */
  ghost predicate InOrder<T(!new)>(arrivals: seq<Node<T>>, cancelled: set<Node<T>>, granted: seq<Node<T>>, queue: seq<Node<T>>) {
    Minus(arrivals, cancelled) == granted + queue && NoDup(arrivals) && forall n :: n in cancelled ==> n in arrivals
  }

  lemma Arrive<T(!new)>(arrivals: seq<Node<T>>, cancelled: set<Node<T>>, granted: seq<Node<T>>, queue: seq<Node<T>>, n: Node<T>)
    requires InOrder(arrivals, cancelled, granted, queue) && n !in arrivals
    ensures InOrder(arrivals + [n], cancelled, granted, queue + [n])
  {
    assert (arrivals + [n])[..|arrivals|] == arrivals;
    assert granted + (queue + [n]) == granted + queue + [n];
    assert n !in cancelled;
  }

  lemma Grant<T(!new)>(arrivals: seq<Node<T>>, cancelled: set<Node<T>>, granted: seq<Node<T>>, queue: seq<Node<T>>)
    requires InOrder(arrivals, cancelled, granted, queue) && queue != []
    ensures InOrder(arrivals, cancelled, granted + [queue[0]], queue[1..])
  {
    assert granted + queue == granted + [queue[0]] + queue[1..];
  }

  lemma {:induction false} MinusParts<T(!new)>(s: seq<Node<T>>, c: set<Node<T>>)
    ensures forall n :: n in Minus(s, c) <==> n in s && n !in c
    ensures NoDup(s) ==> NoDup(Minus(s, c))
  {
    if s != [] {
      var r := s[..|s| - 1];
      MinusParts(r, c);
      assert s == r + [s[|s| - 1]];
    }
  }

  /** Removing one more element takes it out of where it stands. */
  lemma {:induction false} MinusOne<T(!new)>(s: seq<Node<T>>, c: set<Node<T>>, k: nat)
    requires NoDup(s) && k < |Minus(s, c)|
    ensures var m := Minus(s, c); Minus(s, c + {m[k]}) == m[..k] + m[k + 1..]
  {
    var m := Minus(s, c);
    var x, r, last := m[k], s[..|s| - 1], s[|s| - 1];
    MinusParts(s, c);
    MinusParts(r, c);
    assert s == r + [last];
    if last in c {
      MinusOne(r, c, k);
    } else if k == |m| - 1 {
      assert x == last && x !in r;
      MinusAbsent(r, c, x);
    } else {
      assert last != x;
      MinusOne(r, c, k);
      var m' := Minus(r, c);
      assert m == m' + [last];
      assert m[..k] + m[k + 1..] == m'[..k] + m'[k + 1..] + [last];
    }
  }

  lemma {:induction false} MinusAbsent<T(!new)>(s: seq<Node<T>>, c: set<Node<T>>, x: Node<T>)
    requires x !in s
    ensures Minus(s, c + {x}) == Minus(s, c)
  {
    if s != [] {
      assert s == s[..|s| - 1] + [s[|s| - 1]];
      MinusAbsent(s[..|s| - 1], c, x);
    }
  }

  lemma Cancel<T(!new)>(arrivals: seq<Node<T>>, cancelled: set<Node<T>>, granted: seq<Node<T>>, queue: seq<Node<T>>, k: nat)
    requires InOrder(arrivals, cancelled, granted, queue) && k < |queue|
    ensures InOrder(arrivals, cancelled + {queue[k]}, granted, queue[..k] + queue[k + 1..])
  {
    var m, j := granted + queue, |granted| + k;
    MinusParts(arrivals, cancelled);
    MinusOne(arrivals, cancelled, j);
    assert m[j] == queue[k];
    assert m[..j] + m[j + 1..] == granted + (queue[..k] + queue[k + 1..]);
    assert queue[k] in Minus(arrivals, cancelled);
  }

  /** Where the elements of s go. */
  lemma {:induction false} MinusKeepsOrder<T(!new)>(s: seq<Node<T>>, c: set<Node<T>>, i: nat, j: nat) returns (i': nat, j': nat)
    requires i < j < |s| && s[i] !in c && s[j] !in c
    ensures i' < j' < |Minus(s, c)| && Minus(s, c)[i'] == s[i] && Minus(s, c)[j'] == s[j]
    decreases |s|
  {
    var r := s[..|s| - 1];
    if j < |r| {
      i', j' := MinusKeepsOrder(r, c, i, j);
    } else {
      MinusParts(r, c);
      assert s[i] == r[i];
      i' :| 0 <= i' < |Minus(r, c)| && Minus(r, c)[i'] == s[i];
      j' := |Minus(r, c)|;
    }
  }

  /** A claim that queued earlier and was not cancelled there is granted no later. */
  lemma NoOvertaking<T(!new)>(arrivals: seq<Node<T>>, cancelled: set<Node<T>>, granted: seq<Node<T>>, queue: seq<Node<T>>, i: nat, j: nat)
    requires InOrder(arrivals, cancelled, granted, queue) && i < j < |arrivals|
    requires arrivals[i] !in cancelled && arrivals[j] !in cancelled && arrivals[j] in granted
    ensures arrivals[i] in granted
  {
    var m := Minus(arrivals, cancelled);
    var i', j' := MinusKeepsOrder(arrivals, cancelled, i, j);
    MinusParts(arrivals, cancelled);
    var k :| 0 <= k < |granted| && granted[k] == arrivals[j];
    assert m[k] == m[j'];
    assert k == j';
    assert m[i'] == granted[i'];
  }

  // ---- a line of claims ------------------------------------------------------------------------

  /** What became of the claims on one wait list: those woken but not polled since, and how the
      rest came and went. */
  datatype Line<T(!new)> = Line(woken: set<Node<T>>, arrivals: seq<Node<T>>, cancelled: set<Node<T>>, granted: seq<Node<T>>)

  ghost predicate Orderly<T(!new)>(line: Line<T>, queue: seq<Node<T>>) {
    && InOrder(line.arrivals, line.cancelled, line.granted, queue)
    && forall n :: n in line.woken ==> n !in queue && n in line.granted
  }

  /** The claim n, at the head of the queue, is woken. */
  ghost function AfterWake<T(!new)>(line: Line<T>, n: Node<T>): Line<T> {
    line.(woken := line.woken + {n}, granted := line.granted + [n])
  }

  lemma Apart<T(!new)>(line: Line<T>, queue: seq<Node<T>>)
    requires Orderly(line, queue)
    ensures forall n :: n in queue || n in line.granted || n in line.woken ==> n in line.arrivals
    ensures forall n :: n in line.woken ==> n !in queue
    ensures forall k :: 0 <= k < |queue| ==> queue[k] !in line.woken && queue[k] !in queue[..k] + queue[k + 1..]
  {
    hide Minus;
    MinusParts(line.arrivals, line.cancelled);
    var m := line.granted + queue;
    assert forall n :: n in queue || n in line.granted ==> n in m;
    assert forall i :: 0 <= i < |queue| ==> m[|line.granted| + i] == queue[i];
  }

  lemma WakeOrderly<T(!new)>(line: Line<T>, queue: seq<Node<T>>)
    requires Orderly(line, queue) && queue != []
    ensures Orderly(AfterWake(line, queue[0]), queue[1..]) && queue[0] !in line.woken
  {
    hide InOrder;
    Apart(line, queue);
    Grant(line.arrivals, line.cancelled, line.granted, queue);
    assert queue[..0] + queue[1..] == queue[1..];
  }

  lemma CancelOrderly<T(!new)>(line: Line<T>, queue: seq<Node<T>>, k: nat)
    requires Orderly(line, queue) && k < |queue|
    ensures Orderly(line.(cancelled := line.cancelled + {queue[k]}), queue[..k] + queue[k + 1..])
  {
    hide InOrder;
    Cancel(line.arrivals, line.cancelled, line.granted, queue, k);
  }

  lemma ArriveOrderly<T(!new)>(line: Line<T>, queue: seq<Node<T>>, n: Node<T>)
    requires Orderly(line, queue) && n !in line.arrivals
    ensures Orderly(line.(arrivals := line.arrivals + [n]), queue + [n])
  {
    hide InOrder;
    Apart(line, queue);
    Arrive(line.arrivals, line.cancelled, line.granted, queue, n);
  }

  /** A woken claim is polled or dropped. */
  lemma LeaveOrderly<T(!new)>(line: Line<T>, queue: seq<Node<T>>, n: Node<T>)
    requires Orderly(line, queue) && n in line.woken
    ensures Orderly(line.(woken := line.woken - {n}), queue) && |line.woken - {n}| == |line.woken| - 1
  {
    hide InOrder;
  }

  /** In a list whose order compares everything equal, a new node goes to the end. */
  lemma AtTail<T(!new)>(le: (T, T) -> bool, s: seq<Node<T>>, n: Node<T>)
    requires forall a, b :: le(a, b)
    ensures Inserted(le, s, n) == s + [n]
  {
    PlaceIs(le, s, n.contents, |s|);
  }

  /** Claims are woken from the head of the queue, in order; nothing else happens to the line. */
  ghost predicate Served<T(!new)>(queue: seq<Node<T>>, line: Line<T>, queue': seq<Node<T>>, line': Line<T>) {
    && line' == line.(woken := line'.woken, granted := line'.granted)
    && |queue'| <= |queue| && queue' == queue[|queue| - |queue'|..]
    && var first := queue[..|queue| - |queue'|];
      line'.granted == line.granted + first && line'.woken == line.woken + set n | n in first
  }

  lemma ServedNone<T(!new)>(queue: seq<Node<T>>, line: Line<T>)
    ensures Served(queue, line, queue, line)
  {
  }

  lemma ServedOne<T(!new)>(queue: seq<Node<T>>, line: Line<T>, q1: seq<Node<T>>, l1: Line<T>)
    requires Served(queue, line, q1, l1) && q1 != []
    ensures Served(queue, line, q1[1..], AfterWake(l1, q1[0]))
  {
    var k := |queue| - |q1|;
    assert queue[..k + 1] == queue[..k] + [q1[0]];
    assert q1[1..] == queue[k + 1..];
  }

  lemma ServedGone<T(!new)>(queue: seq<Node<T>>, line: Line<T>, n: Node<T>, queue': seq<Node<T>>, line': Line<T>)
    requires Served(queue, line, queue', line') && n !in queue && n !in line.woken
    ensures n !in queue' && n !in line'.woken
  {
  }

  lemma WakeWoken<T(!new)>(line: Line<T>, n: Node<T>)
    ensures AfterWake(line, n).woken == line.woken + {n}
  {
  }

  // ---- what a step does to the other claims ------------------------------------------------------

  /** Claims other than x neither get lost nor appear: they stay queued or woken, or are woken. */
  ghost predicate Moved<T(!new)>(queue: seq<Node<T>>, line: Line<T>, queue': seq<Node<T>>, line': Line<T>, x: Node?<T>) {
    && (forall n :: n in queue ==> n == x || n in queue' || n in line'.woken)
    && (forall n :: n in line.woken ==> n == x || n in line'.woken)
    && (forall n :: n in queue' ==> n == x || n in queue)
    && (forall n :: n in line'.woken ==> n == x || n in queue || n in line.woken)
    && (forall n :: n in line'.arrivals ==> n == x || n in line.arrivals)
  }

  /** Nothing happens, or claim x joins, resolves, or gives its grant back. */
  lemma OwnMoves<T(!new)>(queue: seq<Node<T>>, line: Line<T>, x: Node<T>)
    ensures Moved(queue, line, queue, line, null) && Moved(queue, line, queue, line, x)
    ensures Moved(queue, line, queue + [x], line.(arrivals := line.arrivals + [x]), x)
    ensures Moved(queue, line, queue, line.(woken := line.woken - {x}), x)
  {
  }

  lemma ServedMoves<T(!new)>(queue: seq<Node<T>>, line: Line<T>, queue': seq<Node<T>>, line': Line<T>)
    requires Served(queue, line, queue', line')
    ensures Moved(queue, line, queue', line', null)
  {
    var k := |queue| - |queue'|;
    assert queue == queue[..k] + queue[k..];
    assert forall n :: n in queue <==> n in queue[..k] || n in queue[k..];
  }

  /** Claim x gave up a grant and others were served. */
  lemma PassedMoves<T(!new)>(queue: seq<Node<T>>, line: Line<T>, x: Node<T>, queue': seq<Node<T>>, line': Line<T>)
    requires Served(queue, line.(woken := line.woken - {x}), queue', line')
    ensures Moved(queue, line, queue', line', x)
  {
    hide Served;
    ServedMoves(queue, line.(woken := line.woken - {x}), queue', line');
  }

  /** What cancelling a claim in the queue does. */
  ghost predicate Cancelled<T(!new)>(queue: seq<Node<T>>, line: Line<T>, n: Node<T>, queue': seq<Node<T>>, line': Line<T>) {
    exists k :: 0 <= k < |queue| && queue[k] == n
      && Served(queue[..k] + queue[k + 1..], line.(cancelled := line.cancelled + {n}), queue', line')
  }

  lemma CancelledAs<T(!new)>(queue: seq<Node<T>>, line: Line<T>, k: nat, queue': seq<Node<T>>, line': Line<T>)
    requires k < |queue| && Served(queue[..k] + queue[k + 1..], line.(cancelled := line.cancelled + {queue[k]}), queue', line')
    ensures Cancelled(queue, line, queue[k], queue', line')
  {
    hide Served;
  }

  /** Cancelling a claim in the queue, and serving those it held back, loses no other claim. */
  lemma CancelMoves<T(!new)>(queue: seq<Node<T>>, line: Line<T>, n: Node<T>, queue': seq<Node<T>>, line': Line<T>)
    requires Cancelled(queue, line, n, queue', line')
    ensures Moved(queue, line, queue', line', n)
  {
    hide Served;
    var k :| 0 <= k < |queue| && queue[k] == n && Served(queue[..k] + queue[k + 1..], line.(cancelled := line.cancelled + {n}), queue', line');
    assert queue == queue[..k] + [n] + queue[k + 1..];
    ServedMoves(queue[..k] + queue[k + 1..], line.(cancelled := line.cancelled + {n}), queue', line');
  }
}
