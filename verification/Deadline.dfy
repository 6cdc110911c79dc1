/**
  The per-input deadline of project/fuzzer/fuzz_deadline.h: a watcher thread that polls shared
  variables against a harness thread that arms and disarms.  Every read and every store of
  those variables is a step of its own, the stores of the cancel itself are one; memory is
  sequentially consistent.
*/
module Deadline {

  import opened Options

  const DEADLINE_MS := 10000

  /** What the watcher read before it decided to cancel. */
  datatype Reading = Reading(clock: int, at: int)

  /** Where the watcher is.  The clock and pgfuzz_dl_at_ms are read in either order. */
  datatype Watcher =
    | Napping
    | Checking               // if (!armed) continue
    | Comparing              // now_ms() < at_ms, nothing read yet
    | HasClock(clock: int)
    | HasDeadline(at: int)
    | Expired(r: Reading)    // armed = 0
    | Disarmed(r: Reading)   // fired = 1
    | Marked(r: Reading)     // InterruptPending = true; QueryCancelPending = true; SetLatch

  /** Where the harness is: idle, or between the stores of an arm. */
  datatype Harness = Idle | Clearing | ReadingClock | StoringDeadline(at: int) | Arming

  datatype Shared = Shared(armed: bool, at: int, fired: bool, cancelPending: bool)

  /** The input between an arm, counted from 1, and the disarm or the arm that ends it. */
  datatype Input = Input(arm: nat, deadline: int)

  /** A read of pgfuzz_dl_armed that found it set: by which arm, after how many harness stores to it. */
  datatype Seen = Seen(arm: nat, stores: nat, when: int)

  /** A cancel: what led to it, and the harness stores and the input there were when it was stored. */
  datatype Cancel = Cancel(r: Reading, when: int, seen: Seen, stores: nat, hit: Option<Input>)

  /**
    What has happened: the clocks arms have read, the deadlines they stored, their stores of 1 to
    pgfuzz_dl_armed, all stores of the harness to it, the input in progress, whether any was ever
    overdue, the last read that found it armed, and the cancels.
  */
  datatype History = History(
    clocks: set<int>, deadlines: set<int>, arms: nat, stores: nat, input: Option<Input>, overdue: bool,
    seen: Seen, cancels: seq<Cancel>)

  datatype State = State(now: int, mem: Shared, watcher: Watcher, harness: Harness, started: bool, past: History)

  datatype Step = Advance(d: nat) | Watch | WatchDeadlineFirst | Arm | Disarm | Consume

  function Init(now: int, started: bool): State {
    State(now, Shared(false, 0, false, false), Napping, Idle, started,
          History({}, {}, 0, 0, None, false, Seen(0, 0, now), []))
  }

  function Compared(r: Reading): Watcher {
    if r.clock < r.at then Napping else Expired(r)
  }

  function WatchStep(s: State, deadlineFirst: bool): State {
    match s.watcher
    case Napping => s.(watcher := Checking)
    case Checking =>
      if s.mem.armed then s.(watcher := Comparing, past := s.past.(seen := Seen(s.past.arms, s.past.stores, s.now)))
      else s.(watcher := Napping)
    case Comparing => s.(watcher := if deadlineFirst then HasDeadline(s.mem.at) else HasClock(s.now))
    case HasClock(clock) => s.(watcher := Compared(Reading(clock, s.mem.at)))
    case HasDeadline(at) => s.(watcher := Compared(Reading(s.now, at)))
    case Expired(r) => s.(mem := s.mem.(armed := false), watcher := Disarmed(r))
    case Disarmed(r) => s.(mem := s.mem.(fired := true), watcher := Marked(r))
    case Marked(r) =>
      var c := Cancel(r, s.now, s.past.seen, s.past.stores, s.past.input);
      s.(mem := s.mem.(cancelPending := true), watcher := Napping, past := s.past.(cancels := s.past.cancels + [c]))
  }

  /** The next store of pgfuzz_deadline_arm, or its entry. */
  function ArmStep(s: State): State {
    match s.harness
    case Idle => if s.started then s.(harness := Clearing) else s
    case Clearing => s.(mem := s.mem.(fired := false), harness := ReadingClock)
    case ReadingClock =>
      s.(harness := StoringDeadline(s.now + DEADLINE_MS), past := s.past.(clocks := s.past.clocks + {s.now}))
    case StoringDeadline(at) =>
      s.(mem := s.mem.(at := at), past := s.past.(deadlines := s.past.deadlines + {at}), harness := Arming)
    case Arming =>
      var n := s.past.arms + 1;
      s.(mem := s.mem.(armed := true), harness := Idle,
         past := s.past.(arms := n, stores := s.past.stores + 1, input := Some(Input(n, s.mem.at))))
  }

  function DisarmStep(s: State): State {
    if s.harness != Idle then s
    else s.(mem := s.mem.(armed := false), past := s.past.(stores := s.past.stores + 1, input := None))
  }

  function Move(s: State, step: Step): State {
    match step
    case Advance(d) => s.(now := s.now + d)
    case Watch => WatchStep(s, false)
    case WatchDeadlineFirst => WatchStep(s, true)
    case Arm => ArmStep(s)
    case Disarm => DisarmStep(s)
    case Consume => s.(mem := s.mem.(cancelPending := false))
  }

  predicate Overdue(s: State) {
    s.past.input.Some? && s.past.input.value.deadline <= s.now
  }

  function Next(s: State, step: Step): State {
    var t := Move(s, step);
    t.(past := t.past.(overdue := t.past.overdue || Overdue(t)))
  }

  function Run(s: State, steps: seq<Step>): State
    decreases |steps|
  {
    if steps == [] then s else Run(Next(s, steps[0]), steps[1..])
  }

  // ------------------------------------------------------------------ the invariant

  /** The watcher has seen the deadline armed and has not taken that arm yet. */
  predicate SawArmed(w: Watcher) {
    w.Comparing? || w.HasClock? || w.HasDeadline? || w.Expired?
  }

  /** The watcher has disarmed and is about to cancel. */
  predicate Committed(w: Watcher) {
    w.Disarmed? || w.Marked?
  }

  /** Each arm pays for one cancel at most. */
  ghost predicate Counted(s: State) {
    var pending := if Committed(s.watcher) then 1 else 0;
    var open := if s.mem.armed || SawArmed(s.watcher) then 1 else 0;
    |s.past.cancels| + pending + open <= s.past.arms
  }

  /** Each cancel answers to a later arm than the one before. */
  ghost predicate Ordered(s: State) {
    && Increasing(s.past.cancels)
    && s.past.seen.arm <= s.past.arms && CancelledBelow(s.past.cancels, s.past.arms + 1)
    && (SawArmed(s.watcher) || Committed(s.watcher) ==> CancelledBelow(s.past.cancels, s.past.seen.arm))
    && (s.mem.armed ==> CancelledBelow(s.past.cancels, s.past.arms))
    && (s.mem.armed && Committed(s.watcher) ==> s.past.seen.arm < s.past.arms)
  }

  ghost predicate Increasing(cancels: seq<Cancel>) {
    forall i, j :: 0 <= i < j < |cancels| ==> cancels[i].seen.arm < cancels[j].seen.arm
  }

  ghost predicate CancelledBelow(cancels: seq<Cancel>, arm: nat) {
    forall i :: 0 <= i < |cancels| ==> cancels[i].seen.arm < arm
  }

  /** Deadlines are stored DEADLINE_MS after a clock an arm read, and never go back. */
  ghost predicate DeadlineOk(s: State) {
    && (forall c :: c in s.past.clocks ==> c <= s.now)
    && (forall d :: d in s.past.deadlines ==> d - DEADLINE_MS in s.past.clocks)
    && (s.past.deadlines != {} ==> s.mem.at in s.past.deadlines)
    && (s.harness.StoringDeadline? ==>
          && s.harness.at - DEADLINE_MS in s.past.clocks
          && (s.past.deadlines != {} ==> s.mem.at <= s.harness.at))
    && (s.mem.armed || SawArmed(s.watcher) || s.harness == Arming || s.past.input.Some? ==> s.past.deadlines != {})
  }

  /** The input in progress is the last arm's, and its deadline is no later than the stored one. */
  ghost predicate InputOk(s: State) {
    && (s.mem.armed ==> s.past.input.Some?)
    && (s.past.input.Some? ==> s.past.input.value.arm == s.past.arms && s.past.input.value.deadline <= s.mem.at)
  }

  /** The deadline was stored DEADLINE_MS after an arm read the clock, and had passed when it was read. */
  ghost predicate Justifies(r: Reading, seen: Seen, now: int, past: History) {
    && r.at in past.deadlines && r.at - 10_000 in past.clocks && r.at <= r.clock
    && 1 <= seen.arm <= past.arms && seen.when <= r.clock <= now
  }

  ghost predicate WatcherOk(s: State) {
    && (SawArmed(s.watcher) ==> 1 <= s.past.seen.arm <= s.past.arms && s.past.seen.when <= s.now)
    && match s.watcher
       case HasClock(clock) => s.past.seen.when <= clock <= s.now
       case HasDeadline(at) => at in s.past.deadlines
       case Expired(r) => Justifies(r, s.past.seen, s.now, s.past)
       case Disarmed(r) => Justifies(r, s.past.seen, s.now, s.past)
       case Marked(r) => Justifies(r, s.past.seen, s.now, s.past)
       case _ => true
  }

  /** Since the watcher saw it armed: the same input if the harness stored nothing, else none or a later one. */
  ghost predicate SeenOk(s: State) {
    var seen, input := s.past.seen, s.past.input;
    && seen.stores <= s.past.stores && seen.arm <= s.past.arms
    && (SawArmed(s.watcher) || Committed(s.watcher) ==>
          if seen.stores == s.past.stores
          then input.Some? && input.value.arm == seen.arm && DueBy(s.watcher, input.value.deadline)
          else input.None? || input.value.arm > seen.arm)
  }

  /** What the watcher has read of the deadline is no earlier than this one. */
  ghost predicate DueBy(w: Watcher, deadline: int) {
    match w
    case HasDeadline(at) => deadline <= at
    case Expired(r) => deadline <= r.at
    case Disarmed(r) => deadline <= r.at
    case Marked(r) => deadline <= r.at
    case _ => true
  }

  /** No store of the harness to pgfuzz_dl_armed fell between the read that saw it set and the cancel. */
  predicate Undisturbed(c: Cancel) {
    c.stores == c.seen.stores
  }

  /** The cancel is stored while the input that armed the deadline it answers to is in progress and overdue. */
  predicate HitsItsInput(c: Cancel) {
    c.hit.Some? && c.hit.value.arm == c.seen.arm && c.hit.value.deadline <= c.when
  }

  /** The cancel is stored with no input in progress, or during a later one. */
  predicate HitsAnother(c: Cancel) {
    c.hit.None? || c.hit.value.arm > c.seen.arm
  }

  ghost predicate CancelsOk(s: State) {
    forall i :: 0 <= i < |s.past.cancels| ==>
      var c := s.past.cancels[i];
      && Justifies(c.r, c.seen, c.when, s.past) && c.when <= s.now
      && if Undisturbed(c) then HitsItsInput(c) else HitsAnother(c)
  }

  ghost predicate Inv(s: State) {
    Counted(s) && Ordered(s) && DeadlineOk(s) && InputOk(s) && WatcherOk(s) && SeenOk(s) && CancelsOk(s)
  }

  lemma CountedKeeps(s: State, step: Step)
    requires Counted(s)
    ensures Counted(Move(s, step))
  {
  }

  lemma OrderedKeeps(s: State, step: Step)
    requires Ordered(s)
    ensures Ordered(Move(s, step))
  {
    hide Increasing, CancelledBelow;
    var cancels, seen, arms := s.past.cancels, s.past.seen, s.past.arms;
    BelowMore(cancels, arms + 1, arms + 2);
    if SawArmed(s.watcher) {
      BelowMore(cancels, seen.arm, arms);
    }
    if s.watcher.Marked? {
      var c := Cancel(s.watcher.r, s.now, seen, s.past.stores, s.past.input);
      OneMoreCancel(cancels, c, arms + 1);
      if s.mem.armed {
        OneMoreCancel(cancels, c, arms);
      }
    }
  }

  lemma BelowMore(cancels: seq<Cancel>, a: nat, b: nat)
    requires CancelledBelow(cancels, a) && a <= b
    ensures CancelledBelow(cancels, b)
  {
  }

  lemma OneMoreCancel(cancels: seq<Cancel>, c: Cancel, m: nat)
    requires Increasing(cancels) && CancelledBelow(cancels, c.seen.arm) && c.seen.arm < m
    ensures Increasing(cancels + [c]) && CancelledBelow(cancels + [c], m)
  {
  }

  lemma DeadlineKeeps(s: State, step: Step)
    requires DeadlineOk(s)
    ensures DeadlineOk(Move(s, step))
  {
    hide WatchStep, ArmStep, DeadlineOk;
    match step {
      case Watch => DeadlineKeepsWatching(s, false);
      case WatchDeadlineFirst => DeadlineKeepsWatching(s, true);
      case Arm => DeadlineKeepsArming(s);
      case _ => DeadlineKeepsElse(s, step);
    }
  }

  lemma DeadlineKeepsWatching(s: State, deadlineFirst: bool)
    requires DeadlineOk(s)
    ensures DeadlineOk(WatchStep(s, deadlineFirst))
  {
  }

  lemma DeadlineKeepsArming(s: State)
    requires DeadlineOk(s)
    ensures DeadlineOk(ArmStep(s))
  {
  }

  lemma DeadlineKeepsElse(s: State, step: Step)
    requires DeadlineOk(s) && !(step.Watch? || step.WatchDeadlineFirst? || step.Arm?)
    ensures DeadlineOk(Move(s, step))
  {
    hide WatchStep, ArmStep;
  }

  lemma InputKeeps(s: State, step: Step)
    requires InputOk(s) && DeadlineOk(s)
    ensures InputOk(Move(s, step))
  {
  }

  lemma WatcherKeeps(s: State, step: Step)
    requires DeadlineOk(s) && WatcherOk(s) && InputOk(s) && Counted(s)
    ensures WatcherOk(Move(s, step))
  {
  }

  lemma SeenKeeps(s: State, step: Step)
    requires SeenOk(s) && InputOk(s) && DeadlineOk(s)
    ensures SeenOk(Move(s, step))
  {
  }

  lemma CancelsKeep(s: State, step: Step)
    requires WatcherOk(s) && SeenOk(s) && CancelsOk(s)
    ensures CancelsOk(Move(s, step))
  {
  }

  lemma {:induction false} RunKeeps(s: State, steps: seq<Step>)
    requires Inv(s)
    ensures Inv(Run(s, steps))
    decreases |steps|
  {
    if steps != [] {
      StepKeeps(s, steps[0]);
      RunKeeps(Next(s, steps[0]), steps[1..]);
    }
  }

  lemma StepKeeps(s: State, step: Step)
    requires Inv(s)
    ensures Inv(Next(s, step))
  {
    hide Move, Counted, Ordered, DeadlineOk, InputOk, WatcherOk, SeenOk, CancelsOk;
    CountedKeeps(s, step);
    OrderedKeeps(s, step);
    DeadlineKeeps(s, step);
    InputKeeps(s, step);
    WatcherKeeps(s, step);
    SeenKeeps(s, step);
    CancelsKeep(s, step);
    NotingKeeps(Move(s, step), Move(s, step).past.overdue || Overdue(Move(s, step)));
  }

  lemma NotingKeeps(s: State, overdue: bool)
    requires Inv(s)
    ensures Inv(s.(past := s.past.(overdue := overdue)))
  {
  }

  /**
    However the threads interleave: no more cancels than arms, each answering to a later arm than
    the one before.  Each follows a read that found the deadline armed and then one of a deadline
    that had passed and that some arm had stored, 10 s after it read the clock.
  */
  lemma CancelsAreEarned(now: int, started: bool, steps: seq<Step>)
    ensures
      var past := Run(Init(now, started), steps).past;
      && |past.cancels| <= past.arms
      && Increasing(past.cancels)
      && forall i :: 0 <= i < |past.cancels| ==>
           Justifies(past.cancels[i].r, past.cancels[i].seen, past.cancels[i].when, past)
  {
    RunKeeps(Init(now, started), steps);
  }

  /**
    However the threads interleave: a cancel hits the input whose arm the watcher saw, in progress
    and overdue, exactly when the harness neither disarmed nor armed since the watcher saw it.
    Otherwise it hits no input or a later one.
  */
  lemma CancelHitsItsInputExactlyWhen(now: int, started: bool, steps: seq<Step>, i: nat)
    requires i < |Run(Init(now, started), steps).past.cancels|
    ensures
      var c := Run(Init(now, started), steps).past.cancels[i];
      (HitsItsInput(c) <==> Undisturbed(c)) && (HitsAnother(c) <==> !Undisturbed(c))
  {
    RunKeeps(Init(now, started), steps);
  }

  /** So only a poll that the harness disturbed can cancel an input that is not overdue. */
  lemma OnlyDisturbedPollsCancelEarly(now: int, started: bool, steps: seq<Step>, i: nat)
    requires i < |Run(Init(now, started), steps).past.cancels|
    ensures
      var c := Run(Init(now, started), steps).past.cancels[i];
      c.hit.Some? && c.when < c.hit.value.deadline ==> !Undisturbed(c) && c.seen.arm < c.hit.value.arm
  {
    CancelHitsItsInputExactlyWhen(now, started, steps, i);
  }

  // ------------------------------------------------------- an input left to itself

  /** The watcher's steps from its nap to a cancel, when nothing else moves, reading in either order. */
  function Poll(deadlineFirst: bool): seq<Step> {
    [Watch, Watch, if deadlineFirst then WatchDeadlineFirst else Watch, Watch, Watch, Watch, Watch]
  }

  /** An overdue input that arms nothing and disarms nothing is cancelled by the next poll. */
  lemma OverdueIsCancelled(s: State, deadlineFirst: bool)
    requires s.watcher == Napping && s.mem.armed && s.now >= s.mem.at
    ensures
      var t := Run(s, Poll(deadlineFirst));
      var seen := Seen(s.past.arms, s.past.stores, s.now);
      && t.mem.cancelPending && t.mem.fired && !t.mem.armed
      && t.past.cancels == s.past.cancels + [Cancel(Reading(s.now, s.mem.at), s.now, seen, s.past.stores, s.past.input)]
  {
    var s2 := Next(Next(s, Watch), Watch);
    var s4 := Next(Next(s2, Poll(deadlineFirst)[2]), Watch);
    PollUnfolds(s, deadlineFirst);
    TwoReads(s2, Poll(deadlineFirst)[2]);
    ThreeStores(s4);
  }

  /** A poll that finds nothing armed, or the deadline still to come, goes back to its nap and stores nothing. */
  lemma OthersAreLeftAlone(s: State, deadlineFirst: bool)
    requires s.watcher == Napping && (s.mem.armed ==> s.now < s.mem.at)
    ensures
      var t := Run(s, if s.mem.armed then Poll(deadlineFirst)[..4] else [Watch, Watch]);
      t.watcher == Napping && t.mem == s.mem && t.past.cancels == s.past.cancels
  {
    hide Next;
    var s2 := Next(Next(s, Watch), Watch);
    TwoSteps(s, Watch, Watch);
    Looks(s);
    if s.mem.armed {
      var look := Poll(deadlineFirst)[2];
      TwoSteps(s2, look, Watch);
      RunUnfolds(s, [Watch, Watch, look, Watch]);
      RunUnfolds(Next(s, Watch), [Watch, look, Watch]);
      assert Poll(deadlineFirst)[..4] == [Watch, Watch, look, Watch];
      assert [Watch, Watch, look, Watch][1..] == [Watch, look, Watch] && [Watch, look, Watch][1..] == [look, Watch];
      NotYet(s2, look);
    }
  }

  lemma TwoSteps(s: State, a: Step, b: Step)
    ensures Run(s, [a, b]) == Next(Next(s, a), b)
  {
    hide Next;
    RunUnfolds(s, [a, b]);
    RunUnfolds(Next(s, a), [b]);
    assert [a, b][1..] == [b] && [b][1..] == [];
  }

  lemma Looks(s: State)
    requires s.watcher == Napping
    ensures
      var t := Next(Next(s, Watch), Watch);
      && t.watcher == (if s.mem.armed then Comparing else Napping)
      && t.mem == s.mem && t.now == s.now && t.past.cancels == s.past.cancels
  {
  }

  lemma NotYet(s: State, look: Step)
    requires s.watcher == Comparing && s.now < s.mem.at && (look == Watch || look == WatchDeadlineFirst)
    ensures
      var t := Next(Next(s, look), Watch);
      t.watcher == Napping && t.mem == s.mem && t.past.cancels == s.past.cancels
  {
  }

  lemma PollUnfolds(s: State, deadlineFirst: bool)
    ensures
      var s4 := Next(Next(Next(Next(s, Watch), Watch), Poll(deadlineFirst)[2]), Watch);
      Run(s, Poll(deadlineFirst)) == Next(Next(Next(s4, Watch), Watch), Watch)
  {
    hide Next;
    var poll := Poll(deadlineFirst);
    var s2 := Next(Next(s, Watch), Watch);
    var s4 := Next(Next(s2, poll[2]), Watch);
    RunUnfolds(s, poll);
    RunUnfolds(Next(s, Watch), poll[1..]);
    RunUnfolds(s2, poll[2..]);
    RunUnfolds(Next(s2, poll[2]), poll[3..]);
    RunUnfolds(s4, poll[4..]);
    RunUnfolds(Next(s4, Watch), poll[5..]);
    RunUnfolds(Next(Next(s4, Watch), Watch), poll[6..]);
    assert poll[1..][1..] == poll[2..] && poll[2..][1..] == poll[3..] && poll[3..][1..] == poll[4..];
    assert poll[4..][1..] == poll[5..] && poll[5..][1..] == poll[6..] && poll[6..][1..] == [];
  }

  /** Clock and deadline, in either order. */
  lemma TwoReads(s: State, look: Step)
    requires s.watcher == Comparing && s.mem.at <= s.now && (look == Watch || look == WatchDeadlineFirst)
    ensures
      var t := Next(Next(s, look), Watch);
      && t.watcher == Expired(Reading(s.now, s.mem.at)) && t.mem == s.mem && t.now == s.now
      && t.past.(overdue := s.past.overdue) == s.past
  {
  }

  lemma ThreeStores(s: State)
    requires s.watcher.Expired?
    ensures
      var t := Next(Next(Next(s, Watch), Watch), Watch);
      && t.mem == Shared(false, s.mem.at, true, true) && t.watcher == Napping
      && t.past.cancels == s.past.cancels + [Cancel(s.watcher.r, s.now, s.past.seen, s.past.stores, s.past.input)]
  {
  }

  lemma RunUnfolds(s: State, steps: seq<Step>)
    requires steps != []
    ensures Run(s, steps) == Run(Next(s, steps[0]), steps[1..])
  {
  }

  // ------------------------------------------------------------- what is not promised

  ghost predicate Reachable(s: State) {
    exists steps :: Run(Init(0, true), steps) == s
  }

  lemma {:induction false} RunSnoc(s: State, steps: seq<Step>, step: Step)
    ensures Run(s, steps + [step]) == Next(Run(s, steps), step)
    decreases |steps|
  {
    if steps == [] {
      assert Run(s, [step]) == Run(Next(s, step), []);
    } else {
      assert (steps + [step])[1..] == steps[1..] + [step];
      RunSnoc(Next(s, steps[0]), steps[1..], step);
    }
  }

  lemma Reach(s: State, step: Step) returns (t: State)
    requires Reachable(s)
    ensures Reachable(t) && t == Next(s, step)
  {
    t := Next(s, step);
    var steps :| Run(Init(0, true), steps) == s;
    RunSnoc(Init(0, true), steps, step);
  }

  /** Nothing is overdue that was not noted before. */
  predicate Settled(s: State) {
    Overdue(s) ==> s.past.overdue
  }

  lemma ReachSettled(s: State, step: Step) returns (t: State)
    requires Reachable(s) && Settled(Move(s, step))
    ensures Reachable(t) && t == Move(s, step)
  {
    hide Reachable, Move;
    t := Reach(s, step);
  }

  lemma ReachArm(s: State) returns (t: State)
    requires Reachable(s) && s.harness == Idle && s.started && Settled(s)
    ensures Reachable(t) && Settled(t)
    ensures
      var at, n := s.now + DEADLINE_MS, s.past.arms + 1;
      t == s.(mem := Shared(true, at, false, s.mem.cancelPending),
              past := s.past.(clocks := s.past.clocks + {s.now}, deadlines := s.past.deadlines + {at},
                              arms := n, stores := s.past.stores + 1, input := Some(Input(n, at))))
  {
    hide Reachable;
    t := ReachSettled(s, Arm);
    t := ReachSettled(t, Arm);
    t := ReachSettled(t, Arm);
    t := ReachSettled(t, Arm);
    t := ReachSettled(t, Arm);
  }

  lemma ReachDisarm(s: State) returns (t: State)
    requires Reachable(s) && s.harness == Idle
    ensures Reachable(t) && Settled(t)
    ensures t == s.(mem := s.mem.(armed := false), past := s.past.(stores := s.past.stores + 1, input := None))
  {
    hide Reachable;
    t := ReachSettled(s, Disarm);
  }

  /** The watcher wakes and sees the deadline armed. */
  lemma ReachSeen(s: State) returns (t: State)
    requires Reachable(s) && s.watcher == Napping && s.mem.armed && Settled(s)
    ensures Reachable(t) && Settled(t)
    ensures t == s.(watcher := Comparing, past := s.past.(seen := Seen(s.past.arms, s.past.stores, s.now)))
  {
    hide Reachable;
    t := ReachSettled(s, Watch);
    t := ReachSettled(t, Watch);
  }

  /** The watcher finds the deadline passed. */
  lemma ReachExpired(s: State) returns (t: State)
    requires Reachable(s) && s.watcher == Comparing && s.mem.at <= s.now && Settled(s)
    ensures Reachable(t) && Settled(t) && t == s.(watcher := Expired(Reading(s.now, s.mem.at)))
  {
    hide Reachable;
    t := ReachSettled(s, Watch);
    t := ReachSettled(t, Watch);
  }

  /** The watcher disarms and cancels. */
  lemma ReachCancel(s: State) returns (t: State)
    requires Reachable(s) && s.watcher.Expired? && Settled(s)
    ensures Reachable(t)
    ensures
      var c := Cancel(s.watcher.r, s.now, s.past.seen, s.past.stores, s.past.input);
      t == s.(mem := Shared(false, s.mem.at, true, true), watcher := Napping,
              past := s.past.(cancels := s.past.cancels + [c]))
  {
    hide Reachable;
    t := ReachSettled(s, Watch);
    t := ReachSettled(t, Watch);
    t := ReachSettled(t, Watch);
  }

  lemma ReachInit()
    ensures Reachable(Init(0, true))
  {
    assert Run(Init(0, true), []) == Init(0, true);
  }

  /**
    A cancel need not belong to the input it hits: a watcher that found one input overdue may
    fire just after the next has armed, cancelling it before its own deadline and erasing its arm.
  */
  lemma CancelMayHitTheNextInput() returns (t: State)
    ensures Reachable(t) && t.harness == Idle && !t.mem.armed && t.mem.cancelPending
    ensures t.past.arms == 2 && |t.past.cancels| == 1 && t.past.overdue
    ensures t.now < t.mem.at && t.past.cancels[0].r.at < t.mem.at && HitsAnother(t.past.cancels[0])
  {
    hide Reachable;
    ReachInit();
    t := ReachArm(Init(0, true));
    t := Reach(t, Advance(DEADLINE_MS));
    t := ReachSeen(t);
    t := ReachExpired(t);
    t := ReachDisarm(t);
    t := ReachArm(t);
    t := ReachCancel(t);
  }

  /**
    There need not have been an overdue input at all: the watcher sees an input armed, the input
    ends in time, and its deadline passes before the watcher reads the clock.
  */
  lemma CancelWithNothingOverdue() returns (t: State)
    ensures Reachable(t) && t.harness == Idle && !t.mem.armed && t.mem.cancelPending
    ensures t.past.arms == 2 && |t.past.cancels| == 1 && t.past.input == Some(Input(2, t.mem.at))
    ensures !t.past.overdue && HitsAnother(t.past.cancels[0])
  {
    hide Reachable;
    ReachInit();
    t := ReachArm(Init(0, true));
    t := ReachSettled(t, Advance(DEADLINE_MS - 10));
    t := ReachSeen(t);
    t := ReachDisarm(t);
    t := ReachSettled(t, Advance(20));
    t := ReachExpired(t);
    t := ReachArm(t);
    t := ReachCancel(t);
  }
}
