/** The single-producer single-consumer queue of spsc.rs, one atomic load, store or slot access
    per step, with the steps of the two ends interleaved in any way. */
module Spsc {
  import opened Common

  /** Where the pushing end is: between operations, after the load of head in try_reserve or
      can_push, holding an Entry, or after writing the Entry's slot. */
  datatype Producer<T> = Idle | Loaded(h: nat) | Checking(h: nat) | Entry(h: nat, hNext: nat) | Written(hNext: nat, value: T)

  /** Where the popping end is: between operations, after the load of tail, after finding the
      queue not empty, or after reading the slot. */
  datatype Consumer<T> = Waiting | Started(t: nat) | Ready(t: nat) | Taken(tNext: nat, value: T)

  /** An uninitialised slot is None. promise: the last can_push said true and nothing was pushed since.
      fault: an uninitialised slot was read, or an initialised one written. */
  datatype State<T> = State(storage: seq<Option<T>>, head: nat, tail: nat, producer: Producer<T>, consumer: Consumer<T>,
                            promise: bool, pushed: seq<T>, popped: seq<T>, fault: bool)

  /** next_index */
  function NextIndex(n: nat, i: nat): nat {
    if i + 1 == n then 0 else i + 1
  }

  datatype Step<T> =
    // try_reserve, Entry::push and dropping an Entry
    | LoadHead | CompareTail | WriteSlot(value: T) | StoreHead | DropEntry
    // can_push
    | CheckHead | CheckTail
    // try_pop
    | LoadTail | CompareHead | ReadSlot | StoreTail

  predicate Enabled<T>(s: State<T>, step: Step<T>) {
    match step
    case LoadHead => s.producer.Idle?
    case CompareTail => s.producer.Loaded?
    case WriteSlot(_) => s.producer.Entry? && s.producer.h < |s.storage|
    case StoreHead => s.producer.Written?
    case DropEntry => s.producer.Entry?
    case CheckHead => s.producer.Idle?
    case CheckTail => s.producer.Checking?
    case LoadTail => s.consumer.Waiting?
    case CompareHead => s.consumer.Started?
    case ReadSlot => s.consumer.Ready? && s.consumer.t < |s.storage|
    case StoreTail => s.consumer.Taken?
  }

  function Apply<T>(s: State<T>, step: Step<T>): State<T>
    requires Enabled(s, step)
  {
    var n := |s.storage|;
    match step
    case LoadHead => s.(producer := Loaded(s.head))
    case CompareTail =>
      var h := s.producer.h;
      if NextIndex(n, h) == s.tail then s.(producer := Idle) else s.(producer := Entry(h, NextIndex(n, h)))
    case WriteSlot(value) =>
      s.(fault := s.fault || s.storage[s.producer.h].Some?, storage := s.storage[s.producer.h := Some(value)],
         producer := Written(s.producer.hNext, value))
    case StoreHead =>
      s.(head := s.producer.hNext, pushed := s.pushed + [s.producer.value], promise := false, producer := Idle)
    case DropEntry => s.(producer := Idle)
    case CheckHead => s.(producer := Checking(s.head))
    case CheckTail => s.(promise := NextIndex(n, s.producer.h) != s.tail, producer := Idle)
    case LoadTail => s.(consumer := Started(s.tail))
    case CompareHead => if s.head == s.consumer.t then s.(consumer := Waiting) else s.(consumer := Ready(s.consumer.t))
    case ReadSlot =>
      var t := s.consumer.t;
      if s.storage[t].None? then s.(fault := true)
      else s.(storage := s.storage[t := None], consumer := Taken(NextIndex(n, t), s.storage[t].value))
    case StoreTail => s.(tail := s.consumer.tNext, popped := s.popped + [s.consumer.value], consumer := Waiting)
  }

  // ---- the invariant --------------------------------------------------------------------------

  /** Steps from t to h around a ring of n. */
  function Distance(n: nat, t: nat, h: nat): nat
    requires t < n && h < n
  {
    if t <= h then h - t else h + n - t
  }

  /** The slot i steps after t. */
  function Around(n: nat, t: nat, i: nat): nat
    requires t < n && i < n
  {
    if t + i < n then t + i else t + i - n
  }

  /** What was published and has not been retired. */
  ghost function Pending<T>(s: State<T>): seq<T>
    requires |s.popped| <= |s.pushed|
  {
    s.pushed[|s.popped|..]
  }

  /** What the slot i steps after tail holds. */
  ghost function Slot<T>(s: State<T>, i: nat): Option<T>
    requires |s.popped| <= |s.pushed|
  {
    var q := Pending(s);
    if i < |q| then (if i == 0 && s.consumer.Taken? then None else Some(q[i]))
    else if i == |q| && s.producer.Written? then Some(s.producer.value)
    else None
  }

  ghost predicate ProducerOk<T>(s: State<T>) {
    var n := |s.storage|;
    match s.producer
    case Idle => true
    case Loaded(h) => h == s.head
    case Checking(h) => h == s.head
    case Entry(h, hNext) => h == s.head && hNext == NextIndex(n, s.head) && hNext != s.tail
    case Written(hNext, _) => hNext == NextIndex(n, s.head) && hNext != s.tail
  }

  ghost predicate ConsumerOk<T>(s: State<T>)
    requires |s.popped| <= |s.pushed|
  {
    match s.consumer
    case Waiting => true
    case Started(t) => t == s.tail
    case Ready(t) => t == s.tail && Pending(s) != []
    case Taken(tNext, value) => tNext == NextIndex(|s.storage|, s.tail) && Pending(s) != [] && value == Pending(s)[0]
  }

  /** The slots from tail to head hold what is pending. */
  ghost predicate Ring<T>(s: State<T>) {
    var n := |s.storage|;
    && s.head < n && s.tail < n
    && s.popped <= s.pushed && |Pending(s)| == Distance(n, s.tail, s.head)
    && (forall i: nat :: i < n ==> s.storage[Around(n, s.tail, i)] == Slot(s, i))
  }

  ghost predicate Inv<T>(s: State<T>) {
    && Ring(s) && !s.fault && ProducerOk(s) && ConsumerOk(s)
    && (s.promise ==> NextIndex(|s.storage|, s.head) != s.tail)
  }

  function Init<T>(n: nat): State<T> {
    State(seq(n, i => None), 0, 0, Idle, Waiting, false, [], [], false)
  }

  lemma InitInv<T>(n: nat)
    requires n > 0
    ensures Inv(Init<T>(n))
  {
  }

  /** A slot is one offset from tail only. */
  lemma AroundOne(n: nat, t: nat, i: nat, j: nat)
    requires t < n && i < n && j < n
    ensures Around(n, t, i) == Around(n, t, j) <==> i == j
    ensures Around(n, t, i) < n
  {
  }

  lemma AroundNext(n: nat, t: nat, i: nat)
    requires t < n && i < n
    ensures NextIndex(n, t) < n
    ensures Around(n, NextIndex(n, t), i) == Around(n, t, if i + 1 == n then 0 else i + 1)
  {
  }

  /** A full ring is one short of its size. */
  lemma Room(n: nat, t: nat, h: nat)
    requires t < n && h < n
    ensures NextIndex(n, h) < n && Distance(n, t, h) < n && Around(n, t, Distance(n, t, h)) == h
    ensures NextIndex(n, h) != t <==> Distance(n, t, h) + 1 < n
    ensures NextIndex(n, h) != t ==> Distance(n, t, NextIndex(n, h)) == Distance(n, t, h) + 1
    ensures h != t ==> Distance(n, NextIndex(n, t), h) == Distance(n, t, h) - 1
    ensures Distance(n, t, h) == 0 <==> h == t
  {
  }

  lemma WriteSlotInv<T>(s: State<T>, value: T)
    requires Inv(s) && Enabled(s, WriteSlot(value))
    ensures Inv(Apply(s, WriteSlot(value)))
  {
    var n, s' := |s.storage|, Apply(s, WriteSlot(value));
    var d := |Pending(s)|;
    Room(n, s.tail, s.head);
    assert s.storage[Around(n, s.tail, d)] == Slot(s, d);
    forall i: nat | i < n ensures s'.storage[Around(n, s'.tail, i)] == Slot(s', i) {
      AroundOne(n, s.tail, i, d);
      assert s.storage[Around(n, s.tail, i)] == Slot(s, i);
    }
  }

  lemma StoreHeadInv<T>(s: State<T>)
    requires Inv(s) && Enabled(s, StoreHead)
    ensures Inv(Apply(s, StoreHead))
  {
    var n, s' := |s.storage|, Apply(s, StoreHead);
    Room(n, s.tail, s.head);
    Room(n, s.tail, s'.head);
    assert Pending(s') == Pending(s) + [s.producer.value];
    forall i: nat | i < n ensures s'.storage[Around(n, s'.tail, i)] == Slot(s', i) {
      assert s.storage[Around(n, s.tail, i)] == Slot(s, i);
    }
  }

  lemma ReadSlotInv<T>(s: State<T>)
    requires Inv(s) && Enabled(s, ReadSlot)
    ensures Inv(Apply(s, ReadSlot))
  {
    var n, s' := |s.storage|, Apply(s, ReadSlot);
    Room(n, s.tail, s.head);
    assert s.storage[Around(n, s.tail, 0)] == Slot(s, 0);
    forall i: nat | i < n ensures s'.storage[Around(n, s'.tail, i)] == Slot(s', i) {
      AroundOne(n, s.tail, i, 0);
      assert s.storage[Around(n, s.tail, i)] == Slot(s, i);
    }
  }

  lemma RetireRing<T>(s: State<T>)
    requires Ring(s) && Enabled(s, StoreTail) && Pending(s) != []
    requires s.consumer.tNext == NextIndex(|s.storage|, s.tail) && s.consumer.value == Pending(s)[0]
    ensures Ring(Apply(s, StoreTail))
  {
    hide Distance;
    var n, s' := |s.storage|, Apply(s, StoreTail);
    Room(n, s.tail, s.head);
    AroundNext(n, s.tail, 0);
    assert Pending(s) == [s.consumer.value] + Pending(s');
    Room(n, s'.tail, s.head);
    forall i: nat | i < n ensures s'.storage[Around(n, s'.tail, i)] == Slot(s', i) {
      AroundNext(n, s.tail, i);
      var j: nat := if i + 1 == n then 0 else i + 1;
      assert s.storage[Around(n, s.tail, j)] == Slot(s, j);
    }
  }

  lemma StoreTailInv<T>(s: State<T>)
    requires Inv(s) && Enabled(s, StoreTail)
    ensures Inv(Apply(s, StoreTail))
  {
    hide Ring, Pending, Distance, Slot;
    var n, s' := |s.storage|, Apply(s, StoreTail);
    RetireRing(s);
    Ends(s);
    Ends(s');
    Room(n, s.tail, s.head);
    Room(n, s'.tail, s.head);
  }

  /** A step that touches neither queue nor slots, and neither writes nor reads one. */
  lemma SameRing<T>(s: State<T>, s': State<T>)
    requires Ring(s) && s'.storage == s.storage && s'.head == s.head && s'.tail == s.tail && s'.pushed == s.pushed && s'.popped == s.popped
    requires s'.producer == s.producer || !(s'.producer.Written? || s.producer.Written?)
    requires s'.consumer == s.consumer || !(s'.consumer.Taken? || s.consumer.Taken?)
    ensures Ring(s')
  {
    assert Pending(s') == Pending(s);
    forall i: nat | i < |s.storage| ensures s'.storage[Around(|s.storage|, s'.tail, i)] == Slot(s', i) {
      assert s.storage[Around(|s.storage|, s.tail, i)] == Slot(s, i);
    }
  }

  lemma Ends<T>(s: State<T>)
    requires Ring(s)
    ensures s.head < |s.storage| && s.tail < |s.storage| && s.popped <= s.pushed && (Pending(s) == [] <==> s.head == s.tail)
  {
    Room(|s.storage|, s.tail, s.head);
  }

  lemma ProducerLoadInv<T>(s: State<T>, step: Step<T>)
    requires Inv(s) && Enabled(s, step) && (step.LoadHead? || step.CompareTail? || step.DropEntry? || step.CheckHead? || step.CheckTail?)
    ensures Inv(Apply(s, step))
  {
    hide Ring, Pending;
    Ends(s);
    SameRing(s, Apply(s, step));
    Ends(Apply(s, step));
    SamePending(s, Apply(s, step));
  }

  lemma ConsumerLoadInv<T>(s: State<T>, step: Step<T>)
    requires Inv(s) && Enabled(s, step) && (step.LoadTail? || step.CompareHead?)
    ensures Inv(Apply(s, step))
  {
    hide Ring, Pending;
    Ends(s);
    SameRing(s, Apply(s, step));
    Ends(Apply(s, step));
  }

  lemma SamePending<T>(s: State<T>, s': State<T>)
    requires s'.pushed == s.pushed && s'.popped == s.popped && |s.popped| <= |s.pushed|
    ensures Pending(s') == Pending(s)
  {
  }

  /** Every step of either end keeps the invariant. */
  lemma StepInv<T>(s: State<T>, step: Step<T>)
    requires Inv(s) && Enabled(s, step)
    ensures Inv(Apply(s, step)) && |Apply(s, step).storage| == |s.storage|
  {
    match step {
      case WriteSlot(value) => WriteSlotInv(s, value);
      case StoreHead => StoreHeadInv(s);
      case ReadSlot => ReadSlotInv(s);
      case StoreTail => StoreTailInv(s);
      case LoadTail => ConsumerLoadInv(s, step);
      case CompareHead => ConsumerLoadInv(s, step);
      case _ => ProducerLoadInv(s, step);
    }
  }

  // ---- runs ------------------------------------------------------------------------------------

  /** states is an interleaving of steps from a new queue of n slots. */
  ghost predicate IsRun<T>(n: nat, states: seq<State<T>>, steps: seq<Step<T>>) {
    && |states| == |steps| + 1 && states[0] == Init(n)
    && forall i :: 0 <= i < |steps| ==> Enabled(states[i], steps[i]) && states[i + 1] == Apply(states[i], steps[i])
  }

  lemma {:induction false} RunInv<T>(n: nat, states: seq<State<T>>, steps: seq<Step<T>>, k: nat)
    requires n > 0 && IsRun(n, states, steps) && k < |states|
    ensures Inv(states[k]) && |states[k].storage| == n
  {
    if k == 0 {
      InitInv<T>(n);
    } else {
      RunInv(n, states, steps, k - 1);
      StepInv(states[k - 1], steps[k - 1]);
    }
  }

  /** In every interleaving what was popped is a prefix of what was pushed, no more than n - 1
      elements are stored, and no slot is read before it was written or written over. */
  lemma RunSafe<T>(n: nat, states: seq<State<T>>, steps: seq<Step<T>>, k: nat)
    requires n > 0 && IsRun(n, states, steps) && k < |states|
    ensures var s := states[k];
      !s.fault && s.popped <= s.pushed && |s.pushed| - |s.popped| <= n - 1
  {
    RunInv(n, states, steps, k);
    Room(n, states[k].tail, states[k].head);
  }

  /** In every interleaving a slot that is written holds nothing, and one that is read holds the oldest
      element that has not been popped. */
  lemma SlotAccess<T>(n: nat, states: seq<State<T>>, steps: seq<Step<T>>, k: nat)
    requires n > 0 && IsRun(n, states, steps) && k < |steps|
    ensures var s := states[k];
      && |s.storage| == n && |s.popped| <= |s.pushed|
      && (steps[k].WriteSlot? ==> s.producer.Entry? && s.producer.h < n && s.storage[s.producer.h] == None)
      && (steps[k].ReadSlot? ==>
           s.consumer.Ready? && s.consumer.t < n && |s.popped| < |s.pushed| && s.storage[s.consumer.t] == Some(s.pushed[|s.popped|]))
  {
    var s := states[k];
    RunInv(n, states, steps, k);
    Room(n, s.tail, s.head);
    assert s.storage[Around(n, s.tail, 0)] == Slot(s, 0);
    assert s.storage[Around(n, s.tail, |Pending(s)|)] == Slot(s, |Pending(s)|);
  }

  // ---- what the tests find -----------------------------------------------------------------------

  /** There is room for one more element. */
  ghost predicate Roomy<T>(s: State<T>) {
    |s.pushed| - |s.popped| + 1 < |s.storage|
  }

  lemma RoomyEnds<T>(s: State<T>)
    requires Inv(s)
    ensures s.head < |s.storage| && s.tail < |s.storage| && |s.popped| <= |s.pushed|
    ensures Roomy(s) <==> NextIndex(|s.storage|, s.head) != s.tail
    ensures |s.popped| == |s.pushed| <==> s.head == s.tail
  {
    Room(|s.storage|, s.tail, s.head);
  }

  /** try_reserve hands out the slot at head exactly if there is room. */
  lemma ReserveExact<T>(s: State<T>)
    requires Inv(s) && s.producer.Loaded?
    ensures var s' := Apply(s, CompareTail);
      s'.producer == (if Roomy(s) then Entry(s.head, NextIndex(|s.storage|, s.head)) else Idle) && s' == s.(producer := s'.producer)
  {
    hide Ring, NextIndex;
    RoomyEnds(s);
  }

  /** can_push says true exactly if there is room. */
  lemma CanPushExact<T>(s: State<T>)
    requires Inv(s) && s.producer.Checking?
    ensures var s' := Apply(s, CheckTail); s'.promise == Roomy(s) && s' == s.(promise := s'.promise, producer := Idle)
  {
    hide Ring, NextIndex;
    RoomyEnds(s);
  }

  /** try_pop goes on to take an element exactly if one is there. */
  lemma PopExact<T>(s: State<T>)
    requires Inv(s) && s.consumer.Started?
    ensures var s' := Apply(s, CompareHead);
      s'.consumer == (if |s.popped| < |s.pushed| then Ready(s.tail) else Waiting) && s' == s.(consumer := s'.consumer)
  {
    hide Ring, NextIndex;
    RoomyEnds(s);
  }

  /** Once can_push has said true there is room until something is pushed. */
  lemma PromiseRoomy<T>(n: nat, states: seq<State<T>>, steps: seq<Step<T>>, j: nat, k: nat)
    requires n > 0 && IsRun(n, states, steps) && j <= k < |states| && states[j].promise
    requires forall i :: j <= i < k ==> !steps[i].StoreHead?
    ensures Inv(states[k]) && states[k].promise && Roomy(states[k])
    decreases k - j
  {
    hide Inv, Roomy, Enabled, Apply;
    RunInv(n, states, steps, k);
    if j < k {
      PromiseRoomy(n, states, steps, j, k - 1);
      PromiseStep(states[k - 1], steps[k - 1]);
    }
    PromiseMeans(states[k]);
  }

  lemma PromiseStep<T>(s: State<T>, step: Step<T>)
    requires Inv(s) && s.promise && Enabled(s, step) && !step.StoreHead?
    ensures Apply(s, step).promise
  {
    PromiseMeans(s);
    if step.CheckTail? {
      CanPushExact(s);
    }
  }

  lemma PromiseMeans<T>(s: State<T>)
    requires Inv(s)
    ensures s.promise ==> Roomy(s)
  {
    RoomyEnds(s);
  }

  /** Until the end of the test that began with step i, the pushing end does nothing else. */
  lemma StaysLoaded<T>(n: nat, states: seq<State<T>>, steps: seq<Step<T>>, i: nat, k: nat)
    requires IsRun(n, states, steps) && i < k < |states| && steps[i] == LoadHead
    requires forall m :: i < m < k ==> steps[m] != CompareTail
    ensures states[k].producer.Loaded? && forall m :: i <= m < k ==> !steps[m].StoreHead?
    decreases k
  {
    assert Enabled(states[k - 1], steps[k - 1]) && states[k] == Apply(states[k - 1], steps[k - 1]);
    if i < k - 1 {
      StaysLoaded(n, states, steps, i, k - 1);
    }
  }

  /** So after can_push said true and before something is pushed, a try_reserve, from its load of head
      at step i to its comparison at step k, succeeds, whatever the popping end does meanwhile. */
  lemma PromiseKept<T>(n: nat, states: seq<State<T>>, steps: seq<Step<T>>, j: nat, i: nat, k: nat)
    requires n > 0 && IsRun(n, states, steps) && j <= i < k < |steps| && states[j].promise
    requires forall m :: j <= m < i ==> !steps[m].StoreHead?
    requires steps[i] == LoadHead && steps[k] == CompareTail && forall m :: i < m < k ==> steps[m] != CompareTail
    ensures states[k + 1].producer == Entry(states[k].head, NextIndex(n, states[k].head))
  {
    hide Inv, Roomy;
    StaysLoaded(n, states, steps, i, k);
    RunInv(n, states, steps, k);
    PromiseRoomy(n, states, steps, j, k);
    ReserveExact(states[k]);
  }

  // ---- what is pushed ----------------------------------------------------------------------------

  /** The values given to Entry::push, in order. */
  ghost function Given<T>(steps: seq<Step<T>>): seq<T> {
    if steps == [] then []
    else
      var last := steps[|steps| - 1];
      Given(steps[..|steps| - 1]) + if last.WriteSlot? then [last.value] else []
  }

  /** In every interleaving the elements pushed are the values given, in order, the last perhaps not published yet. */
  lemma {:induction false} PushedGiven<T>(n: nat, states: seq<State<T>>, steps: seq<Step<T>>, k: nat)
    requires IsRun(n, states, steps) && k < |states|
    ensures var s := states[k]; Given(steps[..k]) == s.pushed + if s.producer.Written? then [s.producer.value] else []
  {
    if k > 0 {
      PushedGiven(n, states, steps, k - 1);
      assert Enabled(states[k - 1], steps[k - 1]) && states[k] == Apply(states[k - 1], steps[k - 1]);
      assert steps[..k][..k - 1] == steps[..k - 1];
    }
  }

  /** A whole try_reserve and push on a queue with room. */
  lemma PushStep<T>(s: State<T>, value: T) returns (s': State<T>)
    requires Inv(s) && s.producer.Idle? && Roomy(s)
    ensures Inv(s') && s.head < |s.storage|
    ensures s' == s.(storage := s.storage[s.head := Some(value)], head := NextIndex(|s.storage|, s.head),
                     pushed := s.pushed + [value], promise := false)
  {
    hide Ring;
    RoomyEnds(s);
    var s1 := Apply(s, LoadHead);
    StepInv(s, LoadHead);
    ReserveExact(s1);
    var s2 := Apply(s1, CompareTail);
    StepInv(s1, CompareTail);
    var s3 := Apply(s2, WriteSlot(value));
    StepInv(s2, WriteSlot(value));
    s' := Apply(s3, StoreHead);
    StepInv(s3, StoreHead);
  }

  // ---- dropping the queue ------------------------------------------------------------------------

  /** Queue::drop: with both ends gone, each element not popped is dropped once, in order. */
  method Drop<T>(storage: array<Option<T>>, head: nat, tail: nat, ghost s: State<T>) returns (dropped: seq<T>)
    requires Inv(s) && s.producer.Idle? && s.consumer.Waiting?
    requires storage[..] == s.storage && head == s.head && tail == s.tail
    modifies storage
    ensures s.pushed == s.popped + dropped
    ensures forall i :: 0 <= i < storage.Length ==> storage[i] == None
  {
    hide Inv;
    ghost var g := s;
    var t: nat := tail;
    dropped := [];
    while head != t
      invariant Inv(g) && g.producer.Idle? && g.consumer.Waiting? && g.storage == storage[..] && g.head == head && g.tail == t
      invariant g.pushed == s.pushed && g.popped == s.popped + dropped
      decreases |g.pushed| - |g.popped|
    {
      ghost var g' := PopStep(g);
      dropped := dropped + [storage[t].value];
      storage[t] := None;
      t := if t + 1 == storage.Length then 0 else t + 1;
      g := g';
    }
    AllPopped(g);
  }

  /** A whole try_pop on a queue that is not empty. */
  lemma PopStep<T>(s: State<T>) returns (s': State<T>)
    requires Inv(s) && s.consumer.Waiting? && s.head != s.tail
    ensures Inv(s') && s'.consumer.Waiting? && s'.producer == s.producer && s'.head == s.head && s'.pushed == s.pushed
    ensures s.tail < |s.storage| && s.storage[s.tail].Some?
    ensures s'.storage == s.storage[s.tail := None] && s'.tail == NextIndex(|s.storage|, s.tail)
    ensures s'.popped == s.popped + [s.storage[s.tail].value] && |s'.popped| <= |s.pushed|
  {
    hide Ring, Slot;
    TailFull(s);
    var s1 := Apply(s, LoadTail);
    StepInv(s, LoadTail);
    var s2 := Apply(s1, CompareHead);
    StepInv(s1, CompareHead);
    var s3 := Apply(s2, ReadSlot);
    StepInv(s2, ReadSlot);
    s' := Apply(s3, StoreTail);
    StepInv(s3, StoreTail);
  }

  lemma TailFull<T>(s: State<T>)
    requires Ring(s) && !s.consumer.Taken? && s.head != s.tail
    ensures s.tail < |s.storage| && s.popped <= s.pushed && Pending(s) != [] && s.storage[s.tail] == Some(Pending(s)[0])
  {
    Room(|s.storage|, s.tail, s.head);
    assert s.storage[Around(|s.storage|, s.tail, 0)] == Slot(s, 0);
  }

  lemma AllPopped<T>(s: State<T>)
    requires Inv(s) && s.producer.Idle? && s.consumer.Waiting? && s.head == s.tail
    ensures s.pushed == s.popped && forall k :: 0 <= k < |s.storage| ==> s.storage[k] == None
  {
    var n := |s.storage|;
    Room(n, s.tail, s.head);
    forall k | 0 <= k < n ensures s.storage[k] == None {
      var i: nat := if k < s.tail then k + n - s.tail else k - s.tail;
      assert Around(n, s.tail, i) == k;
      assert s.storage[Around(n, s.tail, i)] == Slot(s, i);
    }
  }
}
