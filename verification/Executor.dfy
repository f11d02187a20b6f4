/** The executor loop and Notify of task.rs as steps: wake bits are captured and tasks polled in
    turn, while notifying code, in interrupt handlers or elsewhere, runs between any two steps.
    A word of bits is the set of its bit numbers. */
module Executor {
  import opened Common

  /** What a task does about the condition it waits for with until or until_racy. */
  datatype Phase =
    | Resting                 // not waiting for the condition
    | Pending                 // its last poll subscribed and found the condition false
    | Polling                 // being polled, nothing done yet
    | Subscribed              // until_racy between subscribe and cond
    | Checked                 // until between cond, which was false, and subscribe

  /** A caller of notify: absent, after making conditions true, or between the two steps of notify. */
  datatype Notifier = Absent | Announcing | Holding(mask: set<nat>)

  /** word is the number of bits of a word. The pass has captured a mask and is at task pos. */
  datatype State = State(word: nat, wake: set<nat>, subscribed: set<nat>, captured: set<nat>, pos: nat,
                         tasks: seq<Phase>, racy: seq<bool>, cond: seq<bool>, notifiers: seq<Notifier>)

  datatype Step =
    // the executor: swap WAKE_BITS, skip a task, start to poll one
    | Capture | Skip | StartPoll
    // the task being polled
    | Subscribe | CheckRacy | CheckUntil | SubscribeUntil | Leave
    // notifier h makes some conditions true and calls notify
    | Announce(h: nat, which: set<nat>) | SwapMask(h: nat) | OrMask(h: nat)
    // conditions that become false again and wakes for other reasons
    | Clear(i: nat) | Wake(mask: set<nat>)

  /** wake_mask_for_index as the one bit it sets. */
  function BitOf(s: State, i: nat): nat
    requires s.word > 0
  {
    i % s.word
  }

  predicate WellFormed(s: State) {
    s.word > 0 && s.pos <= |s.tasks| && |s.racy| == |s.tasks| && |s.cond| == |s.tasks|
  }

  predicate At(s: State, p: Phase) {
    WellFormed(s) && s.pos < |s.tasks| && s.tasks[s.pos] == p
  }

  predicate Enabled(s: State, step: Step) {
    WellFormed(s) &&
    match step
    case Capture => s.pos == |s.tasks|
    case Skip => (At(s, Resting) || At(s, Pending)) && BitOf(s, s.pos) !in s.captured
    case StartPoll => (At(s, Resting) || At(s, Pending)) && BitOf(s, s.pos) in s.captured
    case Subscribe => At(s, Polling) && s.racy[s.pos]
    case CheckRacy => At(s, Subscribed)
    case CheckUntil => At(s, Polling) && !s.racy[s.pos]
    case SubscribeUntil => At(s, Checked)
    case Leave => At(s, Polling)
    case Announce(h, _) => h < |s.notifiers| && s.notifiers[h].Absent?
    case SwapMask(h) => h < |s.notifiers| && s.notifiers[h].Announcing?
    case OrMask(h) => h < |s.notifiers| && s.notifiers[h].Holding?
    case Clear(i) => i < |s.cond|
    case Wake(_) => true
  }

  /** The poll of the current task ends with it in phase p. */
  function Finish(s: State, p: Phase): State
    requires s.pos < |s.tasks|
  {
    s.(tasks := s.tasks[s.pos := p], pos := s.pos + 1)
  }

  function Apply(s: State, step: Step): State
    requires Enabled(s, step)
  {
    match step
    case Capture => s.(captured := s.wake, wake := {}, pos := 0)
    case Skip => s.(pos := s.pos + 1)
    case StartPoll => s.(tasks := s.tasks[s.pos := Polling])
    case Subscribe => s.(subscribed := s.subscribed + {BitOf(s, s.pos)}, tasks := s.tasks[s.pos := Subscribed])
    case CheckRacy => Finish(s, if s.cond[s.pos] then Resting else Pending)
    case CheckUntil => if s.cond[s.pos] then Finish(s, Resting) else s.(tasks := s.tasks[s.pos := Checked])
    case SubscribeUntil => Finish(s.(subscribed := s.subscribed + {BitOf(s, s.pos)}), Pending)
    case Leave => Finish(s, Resting)
    case Announce(h, which) =>
      s.(notifiers := s.notifiers[h := Announcing], cond := seq(|s.cond|, i requires 0 <= i < |s.cond| => s.cond[i] || i in which))
    case SwapMask(h) => s.(notifiers := s.notifiers[h := Holding(s.subscribed)], subscribed := {})
    case OrMask(h) => s.(notifiers := s.notifiers[h := Absent], wake := s.wake + s.notifiers[h].mask)
    case Clear(i) => s.(cond := s.cond[i := false])
    case Wake(mask) => s.(wake := s.wake + mask)
  }

  // ---- the invariant ------------------------------------------------------------------------------

  /** Bit b is with a notifier between the two steps of notify. */
  ghost predicate Flying(s: State, b: nat) {
    exists h :: 0 <= h < |s.notifiers| && s.notifiers[h].Holding? && b in s.notifiers[h].mask
  }

  /** A poll of task i is coming: its bit is set, or captured in a pass that has not reached it. */
  ghost predicate Coming(s: State, i: nat)
    requires s.word > 0
  {
    BitOf(s, i) in s.wake || (BitOf(s, i) in s.captured && s.pos <= i)
  }

  /** Some notifier has made its conditions true and not yet swapped the mask. */
  ghost predicate Busy(s: State) {
    exists h :: 0 <= h < |s.notifiers| && s.notifiers[h].Announcing?
  }

  /** Bit b is set, subscribed, or with a notifier. */
  ghost predicate Somewhere(s: State, b: nat) {
    b in s.wake || b in s.subscribed || Flying(s, b)
  }

  ghost predicate TaskOk(s: State, i: nat)
    requires WellFormed(s) && i < |s.tasks|
  {
    match s.tasks[i]
    case Resting => true
    case Pending => Somewhere(s, BitOf(s, i)) || Coming(s, i)
    case Polling => s.pos == i
    case Subscribed => s.pos == i && s.racy[i] && Somewhere(s, BitOf(s, i))
    case Checked => s.pos == i && !s.racy[i]
  }

  /** Every task that waits can still be reached by its bit. */
  ghost predicate Inv(s: State) {
    WellFormed(s) && forall i :: 0 <= i < |s.tasks| ==> TaskOk(s, i)
  }

  /** Task i waits for a condition that holds, no poll of it is coming, and no notifier at work
      will bring one. */
  ghost predicate Lost(s: State, i: nat) {
    && WellFormed(s) && i < |s.tasks| && s.tasks[i] == Pending && s.cond[i]
    && !Coming(s, i) && !Flying(s, BitOf(s, i)) && !Busy(s)
  }

  ghost predicate NoneLost(s: State) {
    forall i: nat :: !Lost(s, i)
  }

  function Init(word: nat, initial: set<nat>, racy: seq<bool>, cond: seq<bool>, m: nat): State {
    State(word, initial, {}, {}, |racy|, seq(|racy|, i => Resting), racy, cond, seq(m, i => Absent))
  }

  lemma InitInv(word: nat, initial: set<nat>, racy: seq<bool>, cond: seq<bool>, m: nat)
    requires word > 0 && |cond| == |racy|
    ensures var s := Init(word, initial, racy, cond, m); Inv(s) && NoneLost(s) && !At(s, Checked)
  {
  }

  // ---- single steps ---------------------------------------------------------------------------------

  /** What a step does to the places a bit can be. */
  lemma StepBits(s: State, step: Step, b: nat)
    requires Enabled(s, step)
    ensures Flying(s, b) ==> Flying(Apply(s, step), b) || (step.OrMask? && b in Apply(s, step).wake)
    ensures Flying(Apply(s, step), b) ==> Flying(s, b) || (step.SwapMask? && b in s.subscribed)
    ensures step.SwapMask? && b in s.subscribed ==> Flying(Apply(s, step), b)
    ensures step.OrMask? && b in Apply(s, step).wake ==> b in s.wake || Flying(s, b)
  {
    var s' := Apply(s, step);
    if h :| 0 <= h < |s.notifiers| && s.notifiers[h].Holding? && b in s.notifiers[h].mask {
      assert step != OrMask(h) ==> s'.notifiers[h] == s.notifiers[h];
    }
    if h :| 0 <= h < |s'.notifiers| && s'.notifiers[h].Holding? && b in s'.notifiers[h].mask {
      assert step != SwapMask(h) ==> s'.notifiers[h] == s.notifiers[h];
    }
    if step.SwapMask? {
      assert s'.notifiers[step.h] == Holding(s.subscribed);
    }
  }

  /** Every step of executor, task and notifiers, in any order, keeps the invariant. */
  lemma StepInv(s: State, step: Step)
    requires Inv(s) && Enabled(s, step)
    ensures Inv(Apply(s, step)) && Apply(s, step).racy == s.racy
  {
    var s' := Apply(s, step);
    forall i | 0 <= i < |s'.tasks| ensures TaskOk(s', i) {
      hide Flying;
      assert TaskOk(s, i);
      StepBits(s, step, BitOf(s, i));
    }
  }

  /** A task is left waiting by one step only: the subscription of until, when the condition has
      become true since its test, its bit is neither set nor with a notifier, and no notifier has yet to swap. */
  ghost predicate Misses(s: State) {
    At(s, Checked) && s.cond[s.pos] && BitOf(s, s.pos) !in s.wake && !Flying(s, BitOf(s, s.pos)) && !Busy(s)
  }

  lemma StepLost(s: State, step: Step, i: nat)
    requires Inv(s) && Enabled(s, step) && !Lost(s, i)
    ensures Lost(Apply(s, step), i) <==> step.SubscribeUntil? && i == s.pos && Misses(s)
  {
    var s' := Apply(s, step);
    var b := BitOf(s, i);
    BusyStep(s, step);
    StepBits(s, step, b);
    hide Flying, Busy;
    if i < |s.tasks| {
      assert TaskOk(s, i);
    }
  }

  /** A notifier stops announcing only by swapping the mask. */
  lemma BusyStep(s: State, step: Step)
    requires Enabled(s, step)
    ensures step.Announce? ==> Busy(Apply(s, step))
    ensures Busy(s) && !step.SwapMask? ==> Busy(Apply(s, step))
    ensures Busy(Apply(s, step)) && !step.Announce? ==> Busy(s)
    ensures step.SwapMask? ==> Busy(s)
  {
    var s' := Apply(s, step);
    if h :| 0 <= h < |s.notifiers| && s.notifiers[h].Announcing? {
      assert step != SwapMask(h) ==> s'.notifiers[h] == s.notifiers[h];
    }
    if h :| 0 <= h < |s'.notifiers| && s'.notifiers[h].Announcing? {
      assert !step.Announce? ==> s'.notifiers[h] == s.notifiers[h];
    }
    if step.Announce? {
      assert s'.notifiers[step.h].Announcing?;
    }
  }

  // ---- runs -----------------------------------------------------------------------------------------

  ghost predicate IsRun(states: seq<State>, steps: seq<Step>) {
    && |states| == |steps| + 1
    && forall i :: 0 <= i < |steps| ==> Enabled(states[i], steps[i]) && states[i + 1] == Apply(states[i], steps[i])
  }

  /** The states and steps from place j to place k of a run are a run. */
  lemma Part(states: seq<State>, steps: seq<Step>, j: nat, k: nat)
    requires IsRun(states, steps) && j <= k <= |steps|
    ensures IsRun(states[j..k + 1], steps[j..k])
  {
    forall i | 0 <= i < k - j
      ensures Enabled(states[j..k + 1][i], steps[j..k][i]) && states[j..k + 1][i + 1] == Apply(states[j..k + 1][i], steps[j..k][i])
    {
      assert Enabled(states[j + i], steps[j + i]) && states[j + i + 1] == Apply(states[j + i], steps[j + i]);
    }
  }

  lemma {:induction false} RunInv(states: seq<State>, steps: seq<Step>, k: nat)
    requires IsRun(states, steps) && k < |states| && Inv(states[0])
    ensures Inv(states[k]) && states[k].racy == states[0].racy
  {
    if k > 0 {
      RunInv(states, steps, k - 1);
      StepInv(states[k - 1], steps[k - 1]);
    }
  }

  // ---- between the test and the subscription of until ----------------------------------------------

  /** A notifier makes the condition of task p true, and it is not made false again. */
  ghost predicate Raised(steps: seq<Step>, p: nat) {
    exists a :: 0 <= a < |steps| && steps[a].Announce? && p in steps[a].which && forall c :: a < c < |steps| ==> steps[c] != Clear(p)
  }

  /** Notifier h swaps the mask at place a or later. */
  ghost predicate Swaps(steps: seq<Step>, h: nat, a: nat) {
    exists c :: a <= c < |steps| && steps[c] == SwapMask(h)
  }

  /** Every notifier that is announcing at first, or announces, swaps the mask afterwards. */
  ghost predicate AllSwap(s: State, steps: seq<Step>) {
    && (forall h :: 0 <= h < |s.notifiers| && s.notifiers[h].Announcing? ==> Swaps(steps, h, 0))
    && (forall a :: 0 <= a < |steps| && steps[a].Announce? ==> Swaps(steps, steps[a].h, a + 1))
  }

  ghost predicate NoneWakes(steps: seq<Step>, b: nat) {
    forall a :: 0 <= a < |steps| && steps[a].Wake? ==> b !in steps[a].mask
  }

  /** What must happen between the test, which leaves state s, and the subscription for the wakeup to
      be missed: the condition is made true, every notifier at work gets past its swap, and the task's
      bit was nowhere to begin with and is not set for another reason. */
  ghost predicate Missed(s: State, steps: seq<Step>) {
    && At(s, Checked) && Raised(steps, s.pos) && AllSwap(s, steps)
    && !Somewhere(s, BitOf(s, s.pos)) && NoneWakes(steps, BitOf(s, s.pos))
  }

  /** A run from the test of until, at which the condition was false, to before its subscription. */
  ghost predicate Window(states: seq<State>, steps: seq<Step>) {
    IsRun(states, steps) && At(states[0], Checked) && !states[0].cond[states[0].pos] && SubscribeUntil !in steps
  }

  lemma Shorter(states: seq<State>, steps: seq<Step>)
    requires Window(states, steps) && steps != []
    ensures var n := |steps| - 1; Window(states[..n + 1], steps[..n])
    ensures var n := |steps| - 1; Enabled(states[n], steps[n]) && states[n + 1] == Apply(states[n], steps[n]) && steps == steps[..n] + [steps[n]]
  {
  }

  lemma {:induction false} WindowStays(states: seq<State>, steps: seq<Step>)
    requires Window(states, steps)
    ensures var s, t := states[0], states[|steps|];
      At(t, Checked) && t.pos == s.pos && t.word == s.word && |t.notifiers| == |s.notifiers|
    decreases |steps|
  {
    if steps != [] {
      Shorter(states, steps);
      WindowStays(states[..|steps|], steps[..|steps| - 1]);
    }
  }

  /** The condition holds at the end exactly if it was raised. */
  lemma {:induction false} WindowCond(states: seq<State>, steps: seq<Step>)
    requires Window(states, steps)
    ensures states[0].pos < |states[|steps|].cond| && (states[|steps|].cond[states[0].pos] <==> Raised(steps, states[0].pos))
    decreases |steps|
  {
    WindowStays(states, steps);
    if steps != [] {
      var n, p := |steps| - 1, states[0].pos;
      Shorter(states, steps);
      WindowCond(states[..n + 1], steps[..n]);
      WindowStays(states[..n + 1], steps[..n]);
      RaisedStep(steps[..n], steps[n], p);
    }
  }

  lemma RaisedStep(steps: seq<Step>, last: Step, p: nat)
    ensures Raised(steps + [last], p) <==> (last.Announce? && p in last.which) || (last != Clear(p) && Raised(steps, p))
  {
    var e := steps + [last];
    if a :| 0 <= a < |steps| && steps[a].Announce? && p in steps[a].which && forall c :: a < c < |steps| ==> steps[c] != Clear(p) {
      assert last != Clear(p) ==> e[a].Announce? && forall c :: a < c < |e| ==> e[c] != Clear(p);
    }
    if last.Announce? && p in last.which {
      assert e[|steps|] == last;
    }
    if a :| 0 <= a < |e| && e[a].Announce? && p in e[a].which && forall c :: a < c < |e| ==> e[c] != Clear(p) {
      assert a < |steps| ==> e[|steps|] != Clear(p) && forall c :: a < c < |steps| ==> steps[c] == e[c];
    }
  }

  /** A bit that is nowhere stays so unless it is set for another reason; one that is somewhere stays. */
  lemma {:induction false} WindowBit(states: seq<State>, steps: seq<Step>, b: nat)
    requires Window(states, steps)
    ensures Somewhere(states[|steps|], b) <==> Somewhere(states[0], b) || !NoneWakes(steps, b)
    decreases |steps|
  {
    if steps != [] {
      var n := |steps| - 1;
      Shorter(states, steps);
      WindowBit(states[..n + 1], steps[..n], b);
      WindowStays(states[..n + 1], steps[..n]);
      StepBits(states[n], steps[n], b);
      hide Flying;
      assert NoneWakes(steps, b) <==> NoneWakes(steps[..n], b) && (steps[n].Wake? ==> b !in steps[n].mask) by {
        assert steps[n].Wake? && b in steps[n].mask ==> !NoneWakes(steps, b);
      }
    }
  }

  /** After a swap nothing is subscribed before the window ends. */
  lemma {:induction false} WindowSwapped(states: seq<State>, steps: seq<Step>, c: nat)
    requires Window(states, steps) && c < |steps| && steps[c].SwapMask?
    ensures states[|steps|].subscribed == {}
    decreases |steps|
  {
    var n := |steps| - 1;
    Shorter(states, steps);
    WindowStays(states[..n + 1], steps[..n]);
    if c < n {
      WindowSwapped(states[..n + 1], steps[..n], c);
    }
  }

  /** Notifier h has yet to swap: it was announcing at first or announced, and no swap came after. */
  ghost predicate Owes(s: State, steps: seq<Step>, h: nat) {
    || (h < |s.notifiers| && s.notifiers[h].Announcing? && !Swaps(steps, h, 0))
    || exists a :: 0 <= a < |steps| && steps[a].Announce? && steps[a].h == h && !Swaps(steps, h, a + 1)
  }

  lemma OwesStep(s: State, steps: seq<Step>, last: Step, h: nat)
    ensures Owes(s, steps + [last], h) <==> last != SwapMask(h) && (Owes(s, steps, h) || (last.Announce? && last.h == h))
  {
    var e, n := steps + [last], |steps|;
    assert e[n] == last && forall a :: 0 <= a < n ==> e[a] == steps[a];
    assert forall a: nat :: a <= n ==> (Swaps(e, h, a) <==> Swaps(steps, h, a) || last == SwapMask(h));
    assert !Swaps(e, h, n + 1);
    if a :| 0 <= a < n && steps[a].Announce? && steps[a].h == h && !Swaps(steps, h, a + 1) {
      assert e[a].Announce? && (Swaps(e, h, a + 1) <==> last == SwapMask(h));
    }
    if a :| 0 <= a < |e| && e[a].Announce? && e[a].h == h && !Swaps(e, h, a + 1) {
      assert a < n ==> !Swaps(steps, h, a + 1);
    }
  }

  lemma {:induction false} WindowAnnouncing(states: seq<State>, steps: seq<Step>, h: nat)
    requires Window(states, steps) && h < |states[0].notifiers|
    ensures h < |states[|steps|].notifiers| && (states[|steps|].notifiers[h].Announcing? <==> Owes(states[0], steps, h))
    decreases |steps|
  {
    WindowStays(states, steps);
    if steps != [] {
      var n := |steps| - 1;
      Shorter(states, steps);
      WindowStays(states[..n + 1], steps[..n]);
      WindowAnnouncing(states[..n + 1], steps[..n], h);
      hide Owes;
      OwesStep(states[0], steps[..n], steps[n], h);
    }
  }

  lemma {:induction false} AnnouncersExist(states: seq<State>, steps: seq<Step>, a: nat)
    requires Window(states, steps) && a < |steps| && steps[a].Announce?
    ensures steps[a].h < |states[0].notifiers|
  {
    Part(states, steps, 0, a);
    assert states[0..a + 1][0] == states[0] && states[0..a + 1][a] == states[a];
    WindowStays(states[0..a + 1], steps[0..a]);
    assert Enabled(states[a], steps[a]);
  }

  lemma WindowBusy(states: seq<State>, steps: seq<Step>)
    requires Window(states, steps)
    ensures Busy(states[|steps|]) <==> !AllSwap(states[0], steps)
  {
    var s, t := states[0], states[|steps|];
    WindowStays(states, steps);
    forall h: nat | h < |s.notifiers| ensures t.notifiers[h].Announcing? <==> Owes(s, steps, h) {
      WindowAnnouncing(states, steps, h);
    }
    if !AllSwap(s, steps) {
      if a :| 0 <= a < |steps| && steps[a].Announce? && !Swaps(steps, steps[a].h, a + 1) {
        AnnouncersExist(states, steps, a);
        assert Owes(s, steps, steps[a].h);
      } else {
        var h :| 0 <= h < |s.notifiers| && s.notifiers[h].Announcing? && !Swaps(steps, h, 0);
        assert Owes(s, steps, h);
      }
    }
  }

  /** The subscription leaves the task waiting for good exactly if the window missed the wakeup. */
  lemma WindowExact(states: seq<State>, steps: seq<Step>)
    requires Window(states, steps) && Inv(states[0])
    ensures var t := states[|steps|];
      Inv(t) && Enabled(t, SubscribeUntil) && t.pos == states[0].pos
      && (Lost(Apply(t, SubscribeUntil), t.pos) <==> Missed(states[0], steps))
  {
    var s, t := states[0], states[|steps|];
    var b := BitOf(s, s.pos);
    hide Window, Flying, Busy, Raised, AllSwap, NoneWakes;
    WindowRun(states, steps);
    RunInv(states, steps, |steps|);
    WindowStays(states, steps);
    WindowCond(states, steps);
    WindowBit(states, steps, b);
    WindowBusy(states, steps);
    WindowNotWaiting(t);
    StepLost(t, SubscribeUntil, t.pos);
    if Raised(steps, s.pos) && AllSwap(s, steps) {
      RaisedSwaps(states, steps, s.pos);
    }
  }

  lemma WindowRun(states: seq<State>, steps: seq<Step>)
    requires Window(states, steps)
    ensures IsRun(states, steps) && At(states[0], Checked)
  {
  }

  lemma WindowNotWaiting(s: State)
    requires At(s, Checked)
    ensures !Lost(s, s.pos)
  {
  }

  lemma RaisedSwaps(states: seq<State>, steps: seq<Step>, p: nat)
    requires Window(states, steps) && Raised(steps, p) && AllSwap(states[0], steps)
    ensures states[|steps|].subscribed == {}
  {
    var a :| 0 <= a < |steps| && steps[a].Announce? && p in steps[a].which;
    assert Swaps(steps, steps[a].h, a + 1);
    var c :| a + 1 <= c < |steps| && steps[c] == SwapMask(steps[a].h);
    WindowSwapped(states, steps, c);
  }

  // ---- whole runs --------------------------------------------------------------------------------------

  /** From place j, where until finds its condition false, to place k, where it subscribes. */
  ghost predicate Closes(states: seq<State>, steps: seq<Step>, j: nat, k: nat)
    requires IsRun(states, steps)
  {
    && j < k < |steps| && steps[j] == CheckUntil && steps[k] == SubscribeUntil && SubscribeUntil !in steps[j + 1..k]
    && !states[j].cond[states[j].pos]
  }

  /** A task between test and subscription got there by a test. */
  lemma {:induction false} TestBefore(states: seq<State>, steps: seq<Step>, k: nat) returns (j: nat)
    requires IsRun(states, steps) && k < |states| && Inv(states[0]) && !At(states[0], Checked) && At(states[k], Checked)
    ensures j < k && steps[j] == CheckUntil && !states[j].cond[states[j].pos] && SubscribeUntil !in steps[j + 1..k]
  {
    hide Inv, Apply;
    var s, step := states[k - 1], steps[k - 1];
    RunInv(states, steps, k - 1);
    TestStep(s, step);
    if step == CheckUntil && !s.cond[s.pos] {
      j := k - 1;
    } else {
      j := TestBefore(states, steps, k - 1);
      assert steps[j + 1..k] == steps[j + 1..k - 1] + [step];
    }
  }

  lemma TestStep(s: State, step: Step)
    requires Inv(s) && Enabled(s, step) && At(Apply(s, step), Checked)
    ensures (step == CheckUntil && !s.cond[s.pos]) || (At(s, Checked) && step != SubscribeUntil)
  {
    hide Somewhere, Coming;
    var s' := Apply(s, step);
    if s'.pos != s.pos || step.CheckUntil? {
      assert s'.pos < |s.tasks| && TaskOk(s, s'.pos);
    }
  }

  lemma ClosedWindow(states: seq<State>, steps: seq<Step>, j: nat, k: nat)
    requires IsRun(states, steps) && Closes(states, steps, j, k)
    ensures Window(states[j + 1..k + 1], steps[j + 1..k]) && states[j + 1..k + 1][0] == states[j + 1] && states[j + 1..k + 1][k - j - 1] == states[k]
  {
    Part(states, steps, j + 1, k);
    assert Enabled(states[j], steps[j]) && states[j + 1] == Apply(states[j], steps[j]);
  }

  /** Every lost wakeup was missed between a test and the subscription after it. */
  lemma {:induction false} LostWhere(states: seq<State>, steps: seq<Step>, n: nat, i: nat) returns (j: nat, k: nat)
    requires IsRun(states, steps) && n < |states| && Inv(states[0]) && NoneLost(states[0]) && !At(states[0], Checked)
    requires Lost(states[n], i)
    ensures Closes(states, steps, j, k) && k < n && Missed(states[j + 1], steps[j + 1..k])
  {
    hide Lost, Misses, Missed, Inv, Enabled, Apply;
    k := n - 1;
    if Lost(states[k], i) {
      j, k := LostWhere(states, steps, k, i);
    } else {
      j := LostHere(states, steps, k, i);
    }
  }

  lemma LostHere(states: seq<State>, steps: seq<Step>, k: nat, i: nat) returns (j: nat)
    requires IsRun(states, steps) && k < |steps| && Inv(states[0]) && !At(states[0], Checked)
    requires !Lost(states[k], i) && Lost(states[k + 1], i)
    ensures Closes(states, steps, j, k) && Missed(states[j + 1], steps[j + 1..k])
  {
    hide Lost, Misses, Missed, Inv, Apply, Window;
    RunInv(states, steps, k);
    StepLost(states[k], steps[k], i);
    MissesAt(states[k]);
    j := TestBefore(states, steps, k);
    ClosedWindow(states, steps, j, k);
    RunInv(states, steps, j + 1);
    WindowExact(states[j + 1..k + 1], steps[j + 1..k]);
  }

  lemma MissesAt(s: State)
    ensures Misses(s) ==> At(s, Checked)
  {
  }

  /** No wakeup is ever lost exactly if none is missed between a test of until and its subscription. */
  lemma LostExactly(states: seq<State>, steps: seq<Step>)
    requires IsRun(states, steps) && Inv(states[0]) && NoneLost(states[0]) && !At(states[0], Checked)
    ensures (forall n: nat, i: nat :: n < |states| ==> !Lost(states[n], i)) <==>
            (forall j: nat, k: nat :: Closes(states, steps, j, k) ==> !Missed(states[j + 1], steps[j + 1..k]))
  {
    hide Lost, NoneLost, Missed, Inv, At, Enabled, Apply;
    if n: nat, i: nat :| n < |states| && Lost(states[n], i) {
      var j, k := LostWhere(states, steps, n, i);
    }
    forall j: nat, k: nat | Closes(states, steps, j, k) && Missed(states[j + 1], steps[j + 1..k])
      ensures k + 1 < |states| && Lost(states[k + 1], states[k].pos)
    {
      MissedLoses(states, steps, j, k);
    }
  }

  lemma MissedLoses(states: seq<State>, steps: seq<Step>, j: nat, k: nat)
    requires IsRun(states, steps) && Inv(states[0]) && Closes(states, steps, j, k) && Missed(states[j + 1], steps[j + 1..k])
    ensures Lost(states[k + 1], states[k].pos)
  {
    hide Lost, Missed, Inv, At, Apply, Window;
    RunInv(states, steps, j + 1);
    ClosedWindow(states, steps, j, k);
    WindowExact(states[j + 1..k + 1], steps[j + 1..k]);
  }

  /** No notifier is in the middle of its work. */
  predicate Quiet(s: State) {
    forall h :: 0 <= h < |s.notifiers| ==> s.notifiers[h].Absent?
  }

  /** So whenever no notifier is at work, a task that waits for a condition that holds will be polled,
      if no window missed a wakeup. */
  lemma NoLostWakeup(states: seq<State>, steps: seq<Step>, n: nat, i: nat)
    requires IsRun(states, steps) && n < |states| && Inv(states[0]) && NoneLost(states[0]) && !At(states[0], Checked)
    requires forall j: nat, k: nat :: Closes(states, steps, j, k) ==> !Missed(states[j + 1], steps[j + 1..k])
    requires Quiet(states[n]) && i < |states[n].tasks| && i < |states[n].cond| && states[n].tasks[i] == Pending && states[n].cond[i]
    ensures states[n].word > 0 && Coming(states[n], i)
  {
    RunInv(states, steps, n);
    if Lost(states[n], i) {
      var j, k := LostWhere(states, steps, n, i);
    }
  }

  /** No notify gets through both its first step and its swap of the mask. */
  predicate Undisturbed(steps: seq<Step>) {
    (forall a :: 0 <= a < |steps| ==> !steps[a].Announce?) || (forall a :: 0 <= a < |steps| ==> !steps[a].SwapMask?)
  }

  lemma UndisturbedNotMissed(s: State, steps: seq<Step>)
    requires Undisturbed(steps)
    ensures !Missed(s, steps)
  {
    hide Somewhere, NoneWakes;
    if a :| 0 <= a < |steps| && steps[a].Announce? {
      assert !Swaps(steps, steps[a].h, a + 1);
    }
  }

  /** What a user of until can see to: no notify makes a condition true and swaps the mask between a
      test and its subscription. Then no wakeup is lost. */
  lemma SafeUntil(states: seq<State>, steps: seq<Step>, n: nat, i: nat)
    requires IsRun(states, steps) && n < |states| && Inv(states[0]) && NoneLost(states[0]) && !At(states[0], Checked)
    requires forall j: nat, k: nat :: Closes(states, steps, j, k) ==> Undisturbed(steps[j + 1..k])
    ensures !Lost(states[n], i)
  {
    hide Lost, Missed, Undisturbed, Inv;
    forall j: nat, k: nat | Closes(states, steps, j, k) ensures !Missed(states[j + 1], steps[j + 1..k]) {
      UndisturbedNotMissed(states[j + 1], steps[j + 1..k]);
    }
    LostExactly(states, steps);
  }

  predicate AllRacy(s: State) {
    forall i :: 0 <= i < |s.racy| ==> s.racy[i]
  }

  /** until_racy has no such window, so with it no wakeup is lost in any interleaving. */
  lemma RacyNeverLost(states: seq<State>, steps: seq<Step>, n: nat, i: nat)
    requires IsRun(states, steps) && n < |states| && Inv(states[0]) && NoneLost(states[0]) && AllRacy(states[0])
    ensures !Lost(states[n], i)
  {
    RacyTests(states[0], CheckUntil);
    forall j: nat, k: nat ensures !Closes(states, steps, j, k) {
      if j < |steps| {
        RunInv(states, steps, j);
        RacyTests(states[j], steps[j]);
      }
    }
    LostExactly(states, steps);
  }

  /** Where every task uses until_racy nobody is between a test of until and its subscription. */
  lemma RacyTests(s: State, step: Step)
    requires Inv(s) && AllRacy(s)
    ensures !At(s, Checked) && (Enabled(s, step) ==> step != CheckUntil)
  {
    hide Somewhere, Coming;
    if s.pos < |s.tasks| {
      assert TaskOk(s, s.pos);
    }
  }

  /** When the pass is over and no wake bit is set, nothing that could go on is waiting. */
  lemma IdleIsRight(s: State, i: nat)
    requires Inv(s) && NoneLost(s) && Quiet(s) && s.pos == |s.tasks| && s.wake == {} && i < |s.tasks| && s.tasks[i] == Pending
    ensures i < |s.cond| && !s.cond[i]
  {
    assert TaskOk(s, i) && !Lost(s, i);
  }

  // ---- a lost wakeup shows -------------------------------------------------------------------------------

  /** The notifiers still at work finish without bringing the lost wakeup: at rest the task waits, its
      condition holds, and no poll is coming. */
  lemma {:induction false} LostShows(s: State, i: nat, n: nat) returns (states: seq<State>, steps: seq<Step>)
    requires Lost(s, i) && n <= |s.notifiers| && forall h :: n <= h < |s.notifiers| ==> s.notifiers[h].Absent?
    ensures IsRun(states, steps) && states[0] == s && forall k :: 0 <= k < |steps| ==> steps[k].OrMask?
    ensures var t := states[|steps|]; Lost(t, i) && Quiet(t)
    decreases n
  {
    if n == 0 {
      states, steps := [s], [];
    } else if s.notifiers[n - 1].Absent? {
      states, steps := LostShows(s, i, n - 1);
    } else {
      var step := OrMask(n - 1);
      LostKeeps(s, i, step.h);
      var rest, after := LostShows(Apply(s, step), i, n - 1);
      states, steps := [s] + rest, [step] + after;
    }
  }

  lemma LostKeeps(s: State, i: nat, h: nat)
    requires Lost(s, i) && h < |s.notifiers| && !s.notifiers[h].Absent?
    ensures Enabled(s, OrMask(h)) && Lost(Apply(s, OrMask(h)), i)
  {
    assert s.notifiers[h].Holding?;
    StepBits(s, OrMask(h), BitOf(s, i));
    BusyStep(s, OrMask(h));
  }

  /** Whenever until is between test and subscription, the task's bit is nowhere and no notifier has yet
      to swap the mask, one notifier that acts there loses the wakeup. */
  lemma UntilLosesWakeup(s: State, h: nat) returns (states: seq<State>, steps: seq<Step>)
    requires Inv(s) && At(s, Checked) && h < |s.notifiers| && s.notifiers[h].Absent?
    requires !Somewhere(s, BitOf(s, s.pos)) && !Busy(s)
    ensures IsRun(states, steps) && states[0] == s && steps == [Announce(h, {s.pos}), SwapMask(h), OrMask(h), SubscribeUntil]
    ensures Lost(states[4], s.pos)
  {
    var b := BitOf(s, s.pos);
    var s1 := Apply(s, Announce(h, {s.pos}));
    var s2 := Apply(s1, SwapMask(h));
    var s3 := Apply(s2, OrMask(h));
    var s4 := Apply(s3, SubscribeUntil);
    states := [s, s1, s2, s3, s4];
    steps := [Announce(h, {s.pos}), SwapMask(h), OrMask(h), SubscribeUntil];
    StepBits(s, Announce(h, {s.pos}), b);
    StepBits(s1, SwapMask(h), b);
    StepBits(s2, OrMask(h), b);
    assert forall k :: 0 <= k < |s.notifiers| ==> s3.notifiers[k] == s.notifiers[k];
    WindowNotWaiting(s3);
    StepInv(s, Announce(h, {s.pos}));
    StepInv(s1, SwapMask(h));
    StepInv(s2, OrMask(h));
    StepLost(s3, SubscribeUntil, s.pos);
  }

  /** Such states are reached: the first poll of the first task, if it uses until and its condition is false. */
  lemma WindowReached(word: nat, racy: seq<bool>, cond: seq<bool>, m: nat) returns (states: seq<State>, steps: seq<Step>)
    requires word > 0 && |cond| == |racy| > 0 && !racy[0] && !cond[0] && m > 0
    ensures IsRun(states, steps) && states[0] == Init(word, {0}, racy, cond, m)
    ensures var s := states[|steps|];
      Inv(s) && At(s, Checked) && s.pos == 0 && s.word == word && s.notifiers == seq(m, i => Absent) && s.wake == {} && s.subscribed == {}
  {
    var s0 := Init(word, {0}, racy, cond, m);
    InitInv(word, {0}, racy, cond, m);
    hide Inv;
    var s1 := Apply(s0, Capture);
    StepInv(s0, Capture);
    assert BitOf(s1, 0) == 0;
    var s2 := Apply(s1, StartPoll);
    StepInv(s1, StartPoll);
    var s3 := Apply(s2, CheckUntil);
    StepInv(s2, CheckUntil);
    states, steps := [s0, s1, s2, s3], [Capture, StartPoll, CheckUntil];
  }

  // ---- a wait ends only when its condition holds ---------------------------------------------------------

  /** The bit that stands for a task: every task of the first word has its own, and then they repeat. */
  lemma WakeBit(s: State, i: nat, j: nat)
    requires s.word > 0
    ensures BitOf(s, i) < s.word && (i < s.word ==> BitOf(s, i) == i) && BitOf(s, i + s.word) == BitOf(s, i)
    ensures i < s.word && j < s.word && BitOf(s, i) == BitOf(s, j) ==> i == j
  {
    var q, r: nat := i / s.word, i % s.word;
    assert i == q * s.word + r && (q + 1) * s.word == q * s.word + s.word;
    Quotient(i + s.word, s.word, q + 1, r);
    if i < s.word {
      Quotient(i, s.word, 0, i);
    }
    if j < s.word {
      Quotient(j, s.word, 0, j);
    }
  }

  /** What a step does to a task. Only the task being polled changes: a poll begins where the task's bit
      was captured, a test that fails leaves the task waiting, and one that passes ends the wait. */
  ghost predicate Moves(s: State, step: Step, i: nat, before: Phase, after: Phase)
    requires WellFormed(s) && i < |s.tasks|
  {
    match step
    case StartPoll => if i == s.pos then before in {Resting, Pending} && BitOf(s, i) in s.captured && after == Polling else after == before
    case Subscribe => if i == s.pos then before == Polling && s.racy[i] && after == Subscribed else after == before
    case CheckRacy => if i == s.pos then before == Subscribed && after == (if s.cond[i] then Resting else Pending) else after == before
    case CheckUntil =>
      if i == s.pos then before == Polling && !s.racy[i] && after == (if s.cond[i] then Resting else Checked) else after == before
    case SubscribeUntil => if i == s.pos then before == Checked && after == Pending else after == before
    case Leave => if i == s.pos then before == Polling && after == Resting else after == before
    case _ => after == before
  }

  lemma StepMoves(s: State, step: Step, i: nat)
    requires Enabled(s, step) && i < |s.tasks|
    ensures |Apply(s, step).tasks| == |s.tasks| && Moves(s, step, i, s.tasks[i], Apply(s, step).tasks[i])
  {
  }

  predicate Tests(step: Step) {
    step.CheckRacy? || step.CheckUntil?
  }

  /** A wait resolves exactly at a test that finds the condition true: until_racy and until return then
      and only then. Any other way to stop waiting is not to test, which Leave stands for. */
  lemma ResolvesExactly(s: State, step: Step, i: nat)
    requires Inv(s) && Enabled(s, step) && i < |s.tasks|
    ensures s.tasks[i] == Subscribed && Apply(s, step).tasks[i] != Subscribed ==>
              step == CheckRacy && i == s.pos && Apply(s, step).tasks[i] == (if s.cond[i] then Resting else Pending)
    ensures Tests(step) && i == s.pos ==>
              && (Apply(s, step).tasks[i] == Resting <==> s.cond[i])
              && (!s.cond[i] ==> Apply(s, step).tasks[i] == (if s.racy[i] then Pending else Checked))
    ensures s.tasks[i] != Resting && Apply(s, step).tasks[i] == Resting && step != Leave ==> Tests(step) && i == s.pos && s.cond[i]
    ensures s.tasks[i] == Checked && Apply(s, step).tasks[i] != Checked ==> Apply(s, step).tasks[i] == Pending
  {
    StepMoves(s, step, i);
    hide Somewhere, Coming;
    assert TaskOk(s, i);
  }

  /** In every run a task that was waiting and is not any more has had a test that found its condition
      true in that very state, or left without testing. */
  lemma {:induction false} WaitEnds(states: seq<State>, steps: seq<Step>, m: nat, n: nat, i: nat) returns (k: nat)
    requires IsRun(states, steps) && Inv(states[0]) && m <= n < |states| && i < |states[m].tasks| && i < |states[n].tasks|
    requires states[m].tasks[i] != Resting && states[n].tasks[i] == Resting
    ensures m <= k < n && states[k].pos == i && i < |states[k].cond| && i < |states[k + 1].tasks| && states[k + 1].tasks[i] == Resting
    ensures steps[k] == Leave || (Tests(steps[k]) && states[k].cond[i])
    decreases n
  {
    hide Inv, Enabled, Apply;
    RunInv(states, steps, n - 1);
    OneStep(states[n - 1], steps[n - 1], i);
    if states[n - 1].tasks[i] == Resting {
      k := WaitEnds(states, steps, m, n - 1, i);
    } else {
      k := n - 1;
    }
  }

  lemma OneStep(s: State, step: Step, i: nat)
    requires Inv(s) && Enabled(s, step) && i < |Apply(s, step).tasks|
    ensures i < |s.tasks| && i < |s.cond|
    ensures s.tasks[i] != Resting && Apply(s, step).tasks[i] == Resting ==> s.pos == i && (step == Leave || (Tests(step) && s.cond[i]))
  {
    ResolvesExactly(s, step, i);
  }

  /** Nobody is ever stuck: the executor or the task it polls has a next step, which is to skip a task exactly
      if its bit was not captured; every notifier has one; and wakes may come at any time. */
  lemma Progress(s: State)
    requires Inv(s)
    ensures if s.pos == |s.tasks| then Enabled(s, Capture)
            else match s.tasks[s.pos]
              case Resting => Enabled(s, Skip) || Enabled(s, StartPoll)
              case Pending => Enabled(s, Skip) || Enabled(s, StartPoll)
              case Polling => Enabled(s, Leave) && Enabled(s, if s.racy[s.pos] then Subscribe else CheckUntil)
              case Subscribed => Enabled(s, CheckRacy)
              case Checked => Enabled(s, SubscribeUntil)
    ensures forall h: nat :: h < |s.notifiers| ==>
              (s.notifiers[h].Absent? && forall which :: Enabled(s, Announce(h, which))) || Enabled(s, SwapMask(h)) || Enabled(s, OrMask(h))
    ensures (forall i: nat :: i < |s.cond| ==> Enabled(s, Clear(i))) && forall mask :: Enabled(s, Wake(mask))
  {
    hide Somewhere, Coming;
    if s.pos < |s.tasks| {
      assert TaskOk(s, s.pos);
    }
  }

  // ---- a poll answers a wake -------------------------------------------------------------------------------

  /** Step a sets bit b of the wake bits. */
  predicate Sets(s: State, step: Step, b: nat) {
    (step.Wake? && b in step.mask) || (step.OrMask? && step.h < |s.notifiers| && s.notifiers[step.h].Holding? && b in s.notifiers[step.h].mask)
  }

  lemma WakeStep(s: State, step: Step, b: nat)
    requires Enabled(s, step)
    ensures step == Capture ==> Apply(s, step).captured == s.wake && Apply(s, step).wake == {} && Apply(s, step).pos == 0
    ensures step != Capture ==> Apply(s, step).captured == s.captured && (b in Apply(s, step).wake <==> b in s.wake || Sets(s, step, b))
  {
  }

  /** A bit is in the wake bits exactly if it was set since they were captured last. */
  lemma {:induction false} WakeBits(states: seq<State>, steps: seq<Step>, j: nat, k: nat, b: nat)
    requires IsRun(states, steps) && j < k < |states| && steps[j] == Capture && forall a :: j < a < k ==> steps[a] != Capture
    ensures states[k].captured == states[j].wake
    ensures b in states[k].wake <==> exists a :: j < a < k && Sets(states[a], steps[a], b)
    decreases k
  {
    hide Enabled, Apply, Sets;
    WakeStep(states[k - 1], steps[k - 1], b);
    if j < k - 1 {
      WakeBits(states, steps, j, k - 1, b);
    }
  }

  /** In every pass exactly the tasks are polled whose bit was set between the last two captures. */
  lemma PolledExactly(states: seq<State>, steps: seq<Step>, i: nat, j: nat, k: nat)
    requires IsRun(states, steps) && i < j < k < |steps| && steps[i] == Capture && steps[j] == Capture
    requires (forall a :: i < a < j ==> steps[a] != Capture) && forall a :: j < a < k ==> steps[a] != Capture
    requires steps[k] == StartPoll || steps[k] == Skip
    ensures states[k].word > 0
    ensures steps[k] == StartPoll <==> exists a :: i < a < j && Sets(states[a], steps[a], BitOf(states[k], states[k].pos))
  {
    hide Sets, Apply;
    var b := BitOf(states[k], states[k].pos);
    WakeBits(states, steps, i, j, b);
    WakeBits(states, steps, j, k, b);
    assert Enabled(states[k], steps[k]);
  }
}
