/** The ticket spinlock of spinlock.c: two 16-bit halves of one 32-bit word, drawn from with an
    atomic add on the whole word and advanced with an add on the low half. */
module TicketLock {
  import opened Common

  const HALF: nat := 0x1_0000
  const WORD: nat := 0x1_0000_0000

  /** The fields of the union. */
  function Head(headTail: nat): (h: nat)
    ensures h < HALF
  {
    headTail % HALF
  }

  function Tail(headTail: nat): nat {
    headTail / HALF
  }

  /** gnu_fetch_and_add of SPINLOCK_TICKET_INC on the 32-bit word. */
  function AddTicket(headTail: nat): nat {
    (headTail + 0x1_0000) % WORD
  }

  /** add_sized on the 16-bit head; the other half is not touched. */
  function AddHead(headTail: nat): nat {
    Tail(headTail) * HALF + (Head(headTail) + 1) % HALF
  }

  /** The draw moves tail by one around 2^16 and leaves head alone; the release does the reverse. */
  lemma Halves(headTail: nat)
    requires headTail < WORD
    ensures AddTicket(headTail) < WORD && AddHead(headTail) < WORD
    ensures Head(AddTicket(headTail)) == Head(headTail) && Tail(AddTicket(headTail)) == (Tail(headTail) + 1) % HALF
    ensures Tail(AddHead(headTail)) == Tail(headTail) && Head(AddHead(headTail)) == (Head(headTail) + 1) % HALF
  {
    var h, t := Head(headTail), Tail(headTail);
    assert headTail == t * HALF + h && t < HALF;
    assert AddTicket(headTail) == (t + 1) % HALF * HALF + h;
  }

  /** On the word with h in its low and t in its high 16 bits: the draw adds one to t, the release to h,
      each around 2^16, and neither carries into the other. */
  lemma WordParts(h: nat, t: nat)
    requires h < 65536 && t < 65536
    ensures var w := t * 65536 + h;
      && Head(w) == h && Tail(w) == t
      && AddTicket(w) == (if t == 65535 then 0 else t + 1) * 65536 + h
      && AddHead(w) == t * 65536 + if h == 65535 then 0 else h + 1
  {
    var w: nat := t * 65536 + h;
    Quotient(w, 65536, t, h);
    Quotient(w + 65536, 0x1_0000_0000, (t + 1) / 65536, (t + 1) % 65536 * 65536 + h);
  }

  datatype Thread = Outside | Spinning(ticket: nat) | Inside

  /** drawn and served list threads in the order they drew and released; those in between hold tickets. */
  datatype State = State(headTail: nat, threads: seq<Thread>, drawn: seq<nat>, served: seq<nat>)

  /** Draw: fetch_and_add. Look: one read of head in the spin loop. Release: the unlock. */
  datatype Step = Draw(i: nat) | Look(i: nat) | Release(i: nat)

  predicate Enabled(s: State, step: Step) {
    step.i < |s.threads| &&
    match step
    case Draw(i) => s.threads[i].Outside?
    case Look(i) => s.threads[i].Spinning?
    case Release(i) => s.threads[i].Inside?
  }

  function Apply(s: State, step: Step): State
    requires Enabled(s, step)
  {
    match step
    case Draw(i) =>
      s.(headTail := AddTicket(s.headTail), threads := s.threads[i := Spinning(Tail(s.headTail))], drawn := s.drawn + [i])
    case Look(i) =>
      if s.threads[i].ticket == Head(s.headTail) then s.(threads := s.threads[i := Inside]) else s
    case Release(i) =>
      s.(headTail := AddHead(s.headTail), threads := s.threads[i := Outside], served := s.served + [i])
  }

  function Init(n: nat): State {
    State(0, seq(n, i => Outside), [], [])
  }

  // ---- the invariant -----------------------------------------------------------------------------

  /** Threads that drew and have not released. */
  ghost function Queue(s: State): seq<nat>
    requires |s.served| <= |s.drawn|
  {
    s.drawn[|s.served|..]
  }

  /** The threads in q hold consecutive tickets from first on, modulo 2^16; only the first may be inside. */
  ghost predicate Lined(first: nat, q: seq<nat>, threads: seq<Thread>) {
    && NoDup(q)
    && (forall k :: 0 <= k < |q| ==> q[k] < |threads|)
    && (forall k :: 0 <= k < |q| ==> threads[q[k]] == Spinning((first + k) % HALF) || (k == 0 && threads[q[k]].Inside?))
    && (forall i :: 0 <= i < |threads| && i !in q ==> threads[i].Outside?)
  }

  /** Ticket numbers are positions in drawn, modulo 2^16. */
  ghost predicate Inv(s: State) {
    && s.headTail < WORD && s.served <= s.drawn
    && Head(s.headTail) == |s.served| % HALF && Tail(s.headTail) == |s.drawn| % HALF
    && Lined(|s.served|, Queue(s), s.threads)
  }

  lemma InitInv(n: nat)
    ensures Inv(Init(n))
  {
  }

  ghost function Range(n: nat): (r: set<nat>)
    ensures |r| == n && forall i: nat :: i in r <==> i < n
  {
    if n == 0 then {} else Range(n - 1) + {n - 1}
  }

  ghost function Elements(q: seq<nat>): (s: set<nat>)
    ensures forall x: nat :: x in s <==> x in q
    ensures NoDup(q) ==> |s| == |q|
  {
    if q == [] then {}
    else
      var r, last := q[..|q| - 1], q[|q| - 1];
      assert q == r + [last];
      Elements(r) + {last}
  }

  lemma Pigeonhole(q: seq<nat>, n: nat)
    requires NoDup(q) && forall k :: 0 <= k < |q| ==> q[k] < n
    ensures |q| <= n
  {
    SubsetSize(Elements(q), Range(n));
  }

  lemma LinedDraw(first: nat, q: seq<nat>, threads: seq<Thread>, i: nat)
    requires Lined(first, q, threads) && i < |threads| && threads[i].Outside?
    ensures Lined(first, q + [i], threads[i := Spinning((first + |q|) % HALF)])
  {
    assert i !in q;
  }

  lemma LinedEnter(first: nat, q: seq<nat>, threads: seq<Thread>)
    requires Lined(first, q, threads) && q != []
    ensures Lined(first, q, threads[q[0] := Inside])
  {
  }

  lemma LinedRelease(first: nat, q: seq<nat>, threads: seq<Thread>)
    requires Lined(first, q, threads) && q != []
    ensures Lined(first + 1, q[1..], threads[q[0] := Outside])
  {
    var rest, threads' := q[1..], threads[q[0] := Outside];
    forall k | 0 <= k < |rest| ensures threads'[rest[k]] == Spinning((first + 1 + k) % HALF) {
      assert rest[k] == q[k + 1] && q[k + 1] != q[0];
    }
    assert q == [q[0]] + rest;
  }

  lemma InsideFirst(first: nat, q: seq<nat>, threads: seq<Thread>, i: nat)
    requires Lined(first, q, threads) && i < |threads| && threads[i].Inside?
    ensures q != [] && q[0] == i
  {
    assert i in q;
  }

  lemma DrawInv(s: State, i: nat)
    requires Inv(s) && Enabled(s, Draw(i))
    ensures Inv(Apply(s, Draw(i)))
  {
    hide Lined, Head, Tail, AddTicket;
    Halves(s.headTail);
    NextCount(|s.drawn|);
    assert Queue(Apply(s, Draw(i))) == Queue(s) + [i];
    LinedDraw(|s.served|, Queue(s), s.threads, i);
  }

  lemma NextCount(n: nat)
    ensures (n % HALF + 1) % HALF == (n + 1) % HALF
  {
  }

  lemma LookInv(s: State, i: nat)
    requires Inv(s) && Enabled(s, Look(i)) && |s.threads| <= HALF
    ensures Inv(Apply(s, Look(i)))
  {
    hide Inv, Head;
    if s.threads[i].ticket == Head(s.headTail) {
      FirstTicket(s, i);
      EnterInv(s, i);
    }
  }

  /** Who spins on the ticket in head is first in the queue. */
  lemma FirstTicket(s: State, i: nat)
    requires Inv(s) && i < |s.threads| <= HALF && s.threads[i].Spinning? && s.threads[i].ticket == Head(s.headTail)
    ensures Queue(s) != [] && Queue(s)[0] == i
  {
    var k := QueuedAt(s, i);
    Pigeonhole(Queue(s), |s.threads|);
    SameTicket(|s.served|, k);
  }

  lemma QueuedAt(s: State, i: nat) returns (k: nat)
    requires Inv(s) && i < |s.threads| && s.threads[i].Spinning?
    ensures k < |Queue(s)| && Queue(s)[k] == i && s.threads[i].ticket == (|s.served| + k) % HALF
  {
    assert i in Queue(s);
    k :| 0 <= k < |Queue(s)| && Queue(s)[k] == i;
  }

  lemma EnterInv(s: State, i: nat)
    requires Inv(s) && Queue(s) != [] && Queue(s)[0] == i
    ensures i < |s.threads| && Inv(s.(threads := s.threads[i := Inside]))
  {
    hide Head, Tail;
    LinedEnter(|s.served|, Queue(s), s.threads);
    assert Queue(s.(threads := s.threads[i := Inside])) == Queue(s);
  }

  /** Fewer than 2^16 tickets apart, equal tickets mean the same ticket. */
  lemma SameTicket(n: nat, k: nat)
    requires k < HALF && (n + k) % HALF == n % HALF
    ensures k == 0
  {
  }

  lemma ReleaseInv(s: State, i: nat)
    requires Inv(s) && Enabled(s, Release(i))
    ensures Inv(Apply(s, Release(i))) && Queue(s) != [] && Queue(s)[0] == i
  {
    hide Lined, Head, Tail, AddHead;
    InsideFirst(|s.served|, Queue(s), s.threads, i);
    Halves(s.headTail);
    NextCount(|s.served|);
    assert s.drawn[|s.served|] == i;
    assert Queue(Apply(s, Release(i))) == Queue(s)[1..];
    LinedRelease(|s.served|, Queue(s), s.threads);
  }

  lemma StepInv(s: State, step: Step)
    requires Inv(s) && Enabled(s, step) && |s.threads| <= HALF
    ensures Inv(Apply(s, step)) && |Apply(s, step).threads| == |s.threads|
  {
    hide Inv;
    match step {
      case Draw(i) => DrawInv(s, i);
      case Look(i) => LookInv(s, i);
      case Release(i) => ReleaseInv(s, i);
    }
  }

  // ---- runs ---------------------------------------------------------------------------------------

  ghost predicate IsRun(n: nat, states: seq<State>, steps: seq<Step>) {
    && |states| == |steps| + 1 && states[0] == Init(n)
    && forall i :: 0 <= i < |steps| ==> Enabled(states[i], steps[i]) && states[i + 1] == Apply(states[i], steps[i])
  }

  lemma {:induction false} RunInv(n: nat, states: seq<State>, steps: seq<Step>, k: nat)
    requires n <= HALF && IsRun(n, states, steps) && k < |states|
    ensures Inv(states[k]) && |states[k].threads| == n
  {
    if k == 0 {
      InitInv(n);
    } else {
      RunInv(n, states, steps, k - 1);
      StepInv(states[k - 1], steps[k - 1]);
    }
  }

  /** With at most 2^16 threads, in every interleaving at most one is inside, threads are served in
      the order they drew, and the next in that order enters at its next look. */
  lemma RunSafe(n: nat, states: seq<State>, steps: seq<Step>, k: nat)
    requires n <= 0x1_0000 && IsRun(n, states, steps) && k < |states|
    ensures var s := states[k];
      && |s.threads| == n
      && (forall i, j :: 0 <= i < n && 0 <= j < n && s.threads[i].Inside? && s.threads[j].Inside? ==> i == j)
      && s.served <= s.drawn
      && (forall i :: 0 <= i < n && s.threads[i].Inside? ==> |s.served| < |s.drawn| && s.drawn[|s.served|] == i)
      && (|s.served| < |s.drawn| ==>
            var i := s.drawn[|s.served|];
            i < n && (s.threads[i].Inside? || (s.threads[i].Spinning? && Apply(s, Look(i)).threads[i].Inside?)))
  {
    RunInv(n, states, steps, k);
    var s := states[k];
    var q := Queue(s);
    assert forall i :: 0 <= i < n && s.threads[i].Inside? ==> i in q && i == q[0];
    if q != [] {
      assert q[0] == s.drawn[|s.served|];
    }
  }

  // ---- one thread too many --------------------------------------------------------------------------

  /** The state after threads 0 to k - 1 of more than 2^16 drew in turn. */
  function Crowd(n: nat, k: nat): (s: State)
    requires k <= HALF + 1 <= n
    ensures |s.threads| == n && s.headTail < WORD && Head(s.headTail) == 0 && Tail(s.headTail) == k % HALF
    ensures forall i :: 0 <= i < n ==> s.threads[i] == if i < k then Spinning(i % HALF) else Outside
  {
    if k == 0 then Init(n)
    else
      var s := Crowd(n, k - 1);
      Halves(s.headTail);
      NextCount(k - 1);
      assert Enabled(s, Draw(k - 1));
      Apply(s, Draw(k - 1))
  }

  lemma {:induction false} CrowdRun(n: nat, k: nat) returns (states: seq<State>, steps: seq<Step>)
    requires k <= HALF + 1 <= n
    ensures IsRun(n, states, steps) && states[|states| - 1] == Crowd(n, k)
  {
    if k == 0 {
      states, steps := [Crowd(n, 0)], [];
    } else {
      states, steps := CrowdRun(n, k - 1);
      states, steps := Extend(n, states, steps, Draw(k - 1));
    }
  }

  lemma Extend(n: nat, states: seq<State>, steps: seq<Step>, step: Step) returns (states': seq<State>, steps': seq<Step>)
    requires IsRun(n, states, steps) && Enabled(states[|states| - 1], step)
    ensures IsRun(n, states', steps') && states'[|states'| - 1] == Apply(states[|states| - 1], step)
  {
    states', steps' := states + [Apply(states[|states| - 1], step)], steps + [step];
  }

  /** The bound is exact: with any more threads some run has two inside. */
  lemma Overrun(n: nat) returns (states: seq<State>, steps: seq<Step>)
    requires n > 0x1_0000
    ensures IsRun(n, states, steps)
    ensures var s := states[|states| - 1]; |s.threads| == n && s.threads[0].Inside? && s.threads[0x1_0000].Inside?
  {
    hide IsRun, Crowd;
    states, steps := CrowdRun(n, HALF + 1);
    states, steps := Extend(n, states, steps, Look(0));
    states, steps := Extend(n, states, steps, Look(HALF));
  }
}
