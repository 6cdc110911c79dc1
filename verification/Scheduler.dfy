/**
  The campaign scheduler: Run of go/internal/campaign/run.go as a state machine.  The main loop,
  every sweeping goroutine and the clock move one step at a time, in any interleaving; each step
  that matters to an observer is recorded in a log, and the promises are stated of the log alone.
*/
module Scheduler {

  import Rotation

  datatype Policy = Cut | FinishSweep | FinishRound

  /** deadline and hardStop are instants; nothing says that hardStop is the later one. */
  datatype Config = Config(entries: seq<string>, parallel: int, policy: Policy, deadline: int, hardStop: int) {
    /** How many workspaces may sweep at once, never fewer than one. */
    function Capacity(): (n: nat)
      ensures n >= 1
    {
      if parallel > 1 then parallel else 1
    }
  }

  /** A sweep is named by its round and its place in that round's order. */
  datatype Event =
    | Launch(round: nat, k: nat)
    | Start(round: nat, k: nat)
    | End(round: nat, k: nat)
    | SawDeadline
    | SawHardStop
    | Return

  // ------------------------------------------------------------ what a log may say

  function InFlight(log: seq<Event>): int {
    if log == [] then 0
    else
      var e := log[|log| - 1];
      InFlight(log[..|log| - 1]) + (if e.Start? then 1 else if e.End? then -1 else 0)
  }

  /** How many sweeps were launched after a clock reading past the deadline. */
  function LateLaunches(log: seq<Event>): nat {
    if log == [] then 0
    else
      var before := log[..|log| - 1];
      LateLaunches(before) + if log[|log| - 1].Launch? && SawDeadline in before then 1 else 0
  }

  function Launched(log: seq<Event>, r: nat, k: nat): nat { multiset(log)[Launch(r, k)] }
  function Started(log: seq<Event>, r: nat, k: nat): nat { multiset(log)[Start(r, k)] }
  function Ended(log: seq<Event>, r: nat, k: nat): nat { multiset(log)[End(r, k)] }

  /** Nothing launched is still to run. */
  ghost predicate Quiet(log: seq<Event>) {
    forall r: nat, k: nat :: Launched(log, r, k) == Started(log, r, k) == Ended(log, r, k)
  }

  /** Every entry of round r was swept to its end, each exactly once. */
  ghost predicate RoundDone(c: Config, log: seq<Event>, r: nat) {
    forall k: nat :: k < |c.entries| ==> Launched(log, r, k) == Started(log, r, k) == Ended(log, r, k) == 1
  }

  ghost predicate EarlierRoundsDone(c: Config, log: seq<Event>, r: nat) {
    forall r': nat :: 1 <= r' < r ==> RoundDone(c, log, r')
  }

  ghost predicate BegunIsDone(c: Config, log: seq<Event>) {
    forall r: nat, k: nat :: r >= 1 && Launched(log, r, k) > 0 ==> RoundDone(c, log, r)
  }

  /** Nothing gave leave to stop within a round: finish-sweep may do so after its one extra workspace. */
  predicate WholeRounds(c: Config, log: seq<Event>) {
    c.policy != Cut && SawHardStop !in log && (c.policy == FinishSweep ==> LateLaunches(log) == 0)
  }

  /** When the log so far is before, event e may come next. */
  ghost predicate Allowed(c: Config, before: seq<Event>, e: Event) {
    && Return !in before
    && match e {
         case Launch(r, k) =>
           && r >= 1 && k < |c.entries| && Launched(before, r, k) == 0
           && EarlierRoundsDone(c, before, r)
           && (forall j: nat :: j < k ==> Launched(before, r, j) == 1)
           && SawHardStop !in before
           && (c.policy == Cut ==> SawDeadline !in before)
           && (c.policy == FinishSweep && SawDeadline in before ==> Quiet(before) && InFlight(before) == 0 && LateLaunches(before) == 0)
         case Start(r, k) =>
           && Launched(before, r, k) == 1 && Started(before, r, k) == 0
           && 0 <= InFlight(before) < c.Capacity()
           && EarlierRoundsDone(c, before, r)
         case End(r, k) =>
           && Started(before, r, k) == 1 && Ended(before, r, k) == 0
         case Return =>
           && InFlight(before) == 0 && Quiet(before)
           && (SawDeadline in before || SawHardStop in before)
           && (WholeRounds(c, before) ==> BegunIsDone(c, before))
         case _ => true
       }
  }

  ghost predicate LogAllowed(c: Config, log: seq<Event>) {
    forall j :: 0 <= j < |log| ==> Allowed(c, log[..j], log[j])
  }

  // ---------------------------------------------------------------- the machine

  /**
    A goroutine of the current round, in the order of its deferred calls: runOne, then <-sem,
    then wg.Done.  The extra workspace of finish-sweep runs on the main goroutine, outside both.
  */
  datatype Phase = Ready | Sweeping | Swept | Released | Finished | SoloReady | SoloSweeping

  /** Where the main goroutine is, named by the statement it executes next. */
  datatype Pc =
    | RoundTop      // if now.After(deadline) && policy != FinishRound { break }
    | RoundTopHard  // if now.After(hardStop) { break }
    | LoopHard      // the next entry of the order, or its end; if now.After(hardStop) { break }
    | LoopDeadline  // if now.After(deadline)
    | Add           // wg.Add(1)
    | Acquire       // sem <- struct{}{}
    | Spawn         // go func
    | Drain         // the wg.Wait() of finish-sweep
    | Solo          // runOne on the main goroutine
    | RoundWait     // the wg.Wait() at the end of the round
    | RoundEnd      // if now.After(deadline) { break }
    | Leaving       // return nil
    | Returned

  datatype State = State(now: int, round: nat, pc: Pc, gs: seq<Phase>, sem: int, wg: int, log: seq<Event>)

  /** One scheduling choice: who moves.  Advance lets the clock run on by d. */
  datatype Step = Advance(d: nat) | Main | Goroutine(k: nat)

  function Init(start: int): State {
    State(start, 1, RoundTop, [], 0, 0, [])
  }

  function Saw(s: State, e: Event): State {
    s.(log := s.log + [e])
  }

  /** The clock is read; a reading past the deadline is logged. */
  function SeeDeadline(c: Config, s: State): State {
    if s.now > c.deadline then Saw(s, SawDeadline) else s
  }

  function SeeHardStop(c: Config, s: State): State {
    if s.now > c.hardStop then Saw(s, SawHardStop) else s
  }

  function MainStep(c: Config, s: State): State {
    var late, over := s.now > c.deadline, s.now > c.hardStop;
    match s.pc
    case RoundTop =>
      SeeDeadline(c, s).(pc := if late && c.policy != FinishRound then Leaving else RoundTopHard)
    case RoundTopHard =>
      SeeHardStop(c, s).(pc := if over then Leaving else LoopHard)
    case LoopHard =>
      if |s.gs| == |c.entries| then s.(pc := RoundWait)
      else SeeHardStop(c, s).(pc := if over then RoundWait else LoopDeadline)
    case LoopDeadline =>
      SeeDeadline(c, s).(pc := if !late then Add else
                                 match c.policy case Cut => RoundWait case FinishSweep => Drain case FinishRound => Add)
    case Add => s.(wg := s.wg + 1, pc := Acquire)
    case Acquire => if s.sem < c.Capacity() then s.(sem := s.sem + 1, pc := Spawn) else s
    case Spawn => Saw(s, Launch(s.round, |s.gs|)).(gs := s.gs + [Ready], pc := LoopHard)
    case Drain => if s.wg == 0 then Saw(s, Launch(s.round, |s.gs|)).(gs := s.gs + [SoloReady], pc := Solo) else s
    case Solo => SoloStep(s)
    case RoundWait => if s.wg == 0 then s.(pc := RoundEnd) else s
    case RoundEnd =>
      if late then SeeDeadline(c, s).(pc := Leaving) else s.(round := s.round + 1, gs := [], pc := RoundTop)
    case Leaving => Saw(s, Return).(pc := Returned)
    case Returned => s
  }

  function SoloStep(s: State): State {
    if s.gs == [] then s
    else
      var k := |s.gs| - 1;
      if s.gs[k] == SoloReady then Saw(s, Start(s.round, k)).(gs := s.gs[k := SoloSweeping])
      else if s.gs[k] == SoloSweeping then Saw(s, End(s.round, k)).(gs := s.gs[k := Finished])
      else s.(pc := Leaving)
  }

  function GoroutineStep(s: State, k: nat): State {
    if k >= |s.gs| then s
    else
      match s.gs[k]
      case Ready => Saw(s, Start(s.round, k)).(gs := s.gs[k := Sweeping])
      case Sweeping => Saw(s, End(s.round, k)).(gs := s.gs[k := Swept])
      case Swept => s.(sem := s.sem - 1, gs := s.gs[k := Released])
      case Released => s.(wg := s.wg - 1, gs := s.gs[k := Finished])
      case _ => s
  }

  function Next(c: Config, s: State, step: Step): State {
    match step
    case Advance(d) => s.(now := s.now + d)
    case Main => MainStep(c, s)
    case Goroutine(k) => GoroutineStep(s, k)
  }

  /** The state after any finite schedule. */
  function Run(c: Config, start: int, steps: seq<Step>): State {
    if steps == [] then Init(start) else Next(c, Run(c, start, steps[..|steps| - 1]), steps[|steps| - 1])
  }

  // -------------------------------------------------------------- counting phases

  function Total(f: Phase -> nat, gs: seq<Phase>): nat {
    if gs == [] then 0 else Total(f, gs[..|gs| - 1]) + f(gs[|gs| - 1])
  }

  lemma {:induction false} TotalUpdate(f: Phase -> nat, gs: seq<Phase>, k: nat, p: Phase)
    requires k < |gs|
    ensures Total(f, gs[k := p]) == Total(f, gs) - f(gs[k]) + f(p)
  {
    var n := |gs| - 1;
    if k < n {
      TotalUpdate(f, gs[..n], k, p);
      assert gs[k := p][..n] == gs[..n][k := p];
    } else {
      assert gs[k := p][..n] == gs[..n];
    }
  }

  lemma TotalSnoc(f: Phase -> nat, gs: seq<Phase>, p: Phase)
    ensures Total(f, gs + [p]) == Total(f, gs) + f(p)
  {
    assert (gs + [p])[..|gs|] == gs;
  }

  lemma {:induction false} TotalAtLeast(f: Phase -> nat, gs: seq<Phase>, k: nat)
    requires k < |gs|
    ensures f(gs[k]) <= Total(f, gs)
  {
    if k < |gs| - 1 {
      TotalAtLeast(f, gs[..|gs| - 1], k);
    }
  }

  lemma {:induction false} TotalZero(f: Phase -> nat, gs: seq<Phase>)
    requires forall k :: 0 <= k < |gs| ==> f(gs[k]) == 0
    ensures Total(f, gs) == 0
  {
    if gs != [] {
      TotalZero(f, gs[..|gs| - 1]);
    }
  }

  lemma {:induction false} TotalMonotone(f: Phase -> nat, g: Phase -> nat, gs: seq<Phase>)
    requires forall k :: 0 <= k < |gs| ==> f(gs[k]) <= g(gs[k])
    ensures Total(f, gs) <= Total(g, gs)
  {
    if gs != [] {
      TotalMonotone(f, g, gs[..|gs| - 1]);
    }
  }

  /** Holds a slot of the semaphore. */
  function Holds(p: Phase): nat { if p.Ready? || p.Sweeping? || p.Swept? then 1 else 0 }
  /** Counted by the wait group. */
  function Waited(p: Phase): nat { if p.Ready? || p.Sweeping? || p.Swept? || p.Released? then 1 else 0 }
  function Sweeps(p: Phase): nat { if p.Sweeping? || p.SoloSweeping? then 1 else 0 }

  function HasStarted(p: Phase): nat { if p.Ready? || p.SoloReady? then 0 else 1 }
  function HasEnded(p: Phase): nat { if HasStarted(p) == 0 || Sweeps(p) == 1 then 0 else 1 }

  // ------------------------------------------------------------------ the invariant

  ghost predicate AllFinished(gs: seq<Phase>) {
    forall k :: 0 <= k < |gs| ==> gs[k] == Finished
  }

  ghost predicate NoSolo(gs: seq<Phase>) {
    forall k :: 0 <= k < |gs| ==> !gs[k].SoloReady? && !gs[k].SoloSweeping?
  }

  ghost predicate CountersAgree(c: Config, s: State) {
    && s.sem == Total(Holds, s.gs) + (if s.pc == Spawn then 1 else 0)
    && s.sem <= c.Capacity()
    && s.wg == Total(Waited, s.gs) + (if s.pc == Acquire || s.pc == Spawn then 1 else 0)
    && InFlight(s.log) == Total(Sweeps, s.gs)
  }

  ghost predicate PastRound(log: seq<Event>, r: nat) {
    forall k: nat :: Launched(log, r, k) == Started(log, r, k) == Ended(log, r, k)
  }

  /** The log's counts of sweep k of the current round are what its goroutine says. */
  ghost predicate Agrees(log: seq<Event>, round: nat, gs: seq<Phase>, k: nat) {
    && Launched(log, round, k) == (if k < |gs| then 1 else 0)
    && Started(log, round, k) == (if k < |gs| then HasStarted(gs[k]) else 0)
    && Ended(log, round, k) == (if k < |gs| then HasEnded(gs[k]) else 0)
  }

  ghost predicate Untouched(log: seq<Event>, r: nat, k: nat) {
    Launched(log, r, k) == Started(log, r, k) == Ended(log, r, k) == 0
  }

  ghost predicate Matches(log: seq<Event>, round: nat, gs: seq<Phase>) {
    && (forall r: nat :: r < round ==> PastRound(log, r))
    && (forall k: nat :: Agrees(log, round, gs, k))
    && (forall r: nat, k: nat :: r > round ==> Untouched(log, r, k))
  }

  ghost predicate ClockAgrees(c: Config, s: State) {
    && (SawDeadline in s.log ==> s.now > c.deadline)
    && (SawHardStop in s.log ==> s.now > c.hardStop)
  }

  /** What the main goroutine knows where it stands. */
  ghost predicate PcAgrees(c: Config, s: State) {
    && s.round >= 1 && |s.gs| <= |c.entries|
    && (s.pc.Returned? <==> Return in s.log)
    && (s.pc != Solo && s.pc != Leaving && s.pc != Returned ==> NoSolo(s.gs))
    && (c.policy == Cut ==> LateLaunches(s.log) == 0)
    && (c.policy == FinishSweep && s.pc != Solo && s.pc != Leaving && s.pc != Returned ==> LateLaunches(s.log) == 0)
    && match s.pc
       case RoundTop => s.gs == []
       case RoundTopHard => s.gs == [] && (c.policy != FinishRound ==> SawDeadline !in s.log)
       case LoopHard => c.policy != FinishRound ==> SawDeadline !in s.log
       case LoopDeadline =>
         |s.gs| < |c.entries| && SawHardStop !in s.log && (c.policy != FinishRound ==> SawDeadline !in s.log)
       case Add =>
         |s.gs| < |c.entries| && SawHardStop !in s.log && (c.policy != FinishRound ==> SawDeadline !in s.log)
       case Acquire =>
         |s.gs| < |c.entries| && SawHardStop !in s.log && (c.policy != FinishRound ==> SawDeadline !in s.log)
       case Spawn =>
         |s.gs| < |c.entries| && SawHardStop !in s.log && (c.policy != FinishRound ==> SawDeadline !in s.log)
       case Drain => |s.gs| < |c.entries| && SawHardStop !in s.log && SawDeadline in s.log && c.policy == FinishSweep
       case Solo =>
         |s.gs| > 0 && AllFinished(s.gs[..|s.gs| - 1]) && c.policy == FinishSweep && SawDeadline in s.log &&
         LateLaunches(s.log) > 0 &&
         (var p := s.gs[|s.gs| - 1]; p.SoloReady? || p.SoloSweeping? || p.Finished?)
       case RoundWait => RoundClosed(c, s)
       case RoundEnd => RoundClosed(c, s) && AllFinished(s.gs)
       case Leaving =>
         AllFinished(s.gs) && (SawDeadline in s.log || SawHardStop in s.log) &&
         (WholeRounds(c, s.log) ==> |s.gs| == |c.entries| || s.gs == [])
       case Returned => AllFinished(s.gs)
  }

  /** The loop over the order ran to its end, or the clock stopped it. */
  ghost predicate RoundClosed(c: Config, s: State) {
    |s.gs| == |c.entries| || SawHardStop in s.log || (c.policy == Cut && SawDeadline in s.log)
  }

  /** Only a hard stop inside a round leaves it behind unfinished, and then nothing follows. */
  ghost predicate EarlierAgrees(c: Config, s: State) {
    s.gs != [] || SawHardStop !in s.log ==> EarlierRoundsDone(c, s.log, s.round)
  }

  ghost predicate Inv(c: Config, s: State) {
    && CountersAgree(c, s) && Matches(s.log, s.round, s.gs) && EarlierAgrees(c, s)
    && ClockAgrees(c, s) && PcAgrees(c, s) && LogAllowed(c, s.log)
  }

  // ---------------------------------------------------- every step keeps the invariant

  lemma LogSnoc(log: seq<Event>, e: Event)
    ensures InFlight(log + [e]) == InFlight(log) + (if e.Start? then 1 else if e.End? then -1 else 0)
    ensures LateLaunches(log + [e]) == LateLaunches(log) + if e.Launch? && SawDeadline in log then 1 else 0
    ensures forall r: nat, k: nat :: Launched(log + [e], r, k) == Launched(log, r, k) + if e == Launch(r, k) then 1 else 0
    ensures forall r: nat, k: nat :: Started(log + [e], r, k) == Started(log, r, k) + if e == Start(r, k) then 1 else 0
    ensures forall r: nat, k: nat :: Ended(log + [e], r, k) == Ended(log, r, k) + if e == End(r, k) then 1 else 0
  {
    assert (log + [e])[..|log|] == log;
  }

  lemma AllowedSnoc(c: Config, log: seq<Event>, e: Event)
    requires LogAllowed(c, log) && Allowed(c, log, e)
    ensures LogAllowed(c, log + [e])
  {
    var l := log + [e];
    forall j | 0 <= j < |l|
      ensures Allowed(c, l[..j], l[j])
    {
      assert l[..j] == log[..j];
    }
  }

  lemma EarlierSnoc(c: Config, log: seq<Event>, round: nat, e: Event)
    requires EarlierRoundsDone(c, log, round)
    requires e.Launch? || e.Start? || e.End? ==> e.round >= round
    ensures EarlierRoundsDone(c, log + [e], round)
  {
    LogSnoc(log, e);
    forall r: nat | 1 <= r < round
      ensures RoundDone(c, log + [e], r)
    {
      assert RoundDone(c, log, r);
    }
  }

  /** Every goroutine is finished once the wait group is at zero. */
  lemma WaitGroupDrained(s: State)
    requires Total(Waited, s.gs) == 0 && NoSolo(s.gs)
    ensures AllFinished(s.gs)
  {
    forall k | 0 <= k < |s.gs|
      ensures s.gs[k] == Finished
    {
      TotalAtLeast(Waited, s.gs, k);
    }
  }

  /** With everything of the current round finished, nothing at all is left to run. */
  lemma FinishedIsQuiet(s: State)
    requires Matches(s.log, s.round, s.gs) && AllFinished(s.gs)
    ensures Quiet(s.log)
  {
    forall r: nat, k: nat
      ensures Launched(s.log, r, k) == Started(s.log, r, k) == Ended(s.log, r, k)
    {
      if r < s.round {
        assert PastRound(s.log, r);
      } else if r == s.round {
        assert Agrees(s.log, r, s.gs, k);
      } else {
        assert Untouched(s.log, r, k);
      }
    }
  }

  lemma PastRoundSnoc(log: seq<Event>, e: Event, r: nat)
    requires PastRound(log, r)
    requires e.Launch? || e.Start? || e.End? ==> e.round != r
    ensures PastRound(log + [e], r)
  {
    LogSnoc(log, e);
  }

  /** Event e brings a new goroutine in phase p, or moves goroutine e.k to phase p. */
  ghost predicate Moves(round: nat, gs: seq<Phase>, e: Event, p: Phase) {
    match e
    case Launch(r, k) => r == round && k == |gs| && HasStarted(p) == 0
    case Start(r, k) =>
      r == round && k < |gs| && HasStarted(gs[k]) == 0 && HasStarted(p) == 1 && HasEnded(p) == 0
    case End(r, k) =>
      r == round && k < |gs| && HasStarted(gs[k]) == 1 && HasEnded(gs[k]) == 0 && HasEnded(p) == 1
    case _ => true
  }

  function Moved(gs: seq<Phase>, e: Event, p: Phase): seq<Phase> {
    match e
    case Launch(_, _) => gs + [p]
    case Start(_, k) => if k < |gs| then gs[k := p] else gs
    case End(_, k) => if k < |gs| then gs[k := p] else gs
    case _ => gs
  }

  lemma MatchesSnoc(log: seq<Event>, round: nat, gs: seq<Phase>, e: Event, p: Phase)
    requires Matches(log, round, gs) && Moves(round, gs, e, p)
    ensures Matches(log + [e], round, Moved(gs, e, p))
  {
    hide PastRound;
    LogSnoc(log, e);
    forall r: nat | r < round
      ensures PastRound(log + [e], r)
    {
      PastRoundSnoc(log, e, r);
    }
    forall j: nat
      ensures Agrees(log + [e], round, Moved(gs, e, p), j)
    {
      assert Agrees(log, round, gs, j);
    }
    forall r: nat, j: nat | r > round
      ensures Untouched(log + [e], r, j)
    {
      assert Untouched(log, r, j);
    }
  }

  /** What a recorded event does to everything but the counters and the program counter. */
  lemma Record(c: Config, s: State, e: Event, p: Phase)
    requires Matches(s.log, s.round, s.gs) && LogAllowed(c, s.log)
    requires Moves(s.round, s.gs, e, p) && Allowed(c, s.log, e)
    ensures Matches(s.log + [e], s.round, Moved(s.gs, e, p)) && LogAllowed(c, s.log + [e])
    ensures InFlight(s.log + [e]) == InFlight(s.log) + (if e.Start? then 1 else if e.End? then -1 else 0)
    ensures LateLaunches(s.log + [e]) == LateLaunches(s.log) + if e.Launch? && SawDeadline in s.log then 1 else 0
    ensures EarlierRoundsDone(c, s.log, s.round) ==> EarlierRoundsDone(c, s.log + [e], s.round)
  {
    hide Allowed, Matches, LogAllowed, EarlierRoundsDone;
    if EarlierRoundsDone(c, s.log, s.round) {
      EarlierSnoc(c, s.log, s.round, e);
    }
    MatchesSnoc(s.log, s.round, s.gs, e, p);
    AllowedSnoc(c, s.log, e);
    LogSnoc(s.log, e);
  }

  lemma ReadingAllowed(c: Config, log: seq<Event>, e: Event)
    requires Return !in log && (e.SawDeadline? || e.SawHardStop?)
    ensures Allowed(c, log, e)
  {
  }

  /** A reading of the clock, and the branch it decides, at any of the four places before a launch. */
  lemma ReadingKeeps(c: Config, s: State)
    requires Inv(c, s) && (s.pc.RoundTop? || s.pc.RoundTopHard? || s.pc.LoopHard? || s.pc.LoopDeadline?)
    ensures Inv(c, MainStep(c, s))
  {
    hide Total, Matches, LogAllowed, Allowed, InFlight, LateLaunches, EarlierRoundsDone;
    var e := if s.pc.RoundTop? || s.pc.LoopDeadline? then SawDeadline else SawHardStop;
    ReadingAllowed(c, s.log, e);
    Record(c, s, e, Finished);
  }

  lemma SpawnKeeps(c: Config, s: State)
    requires Inv(c, s) && s.pc == Spawn
    ensures Inv(c, MainStep(c, s))
  {
    hide Total, Matches, LogAllowed, Allowed, InFlight, LateLaunches, EarlierRoundsDone;
    LaunchAllowed(c, s);
    Record(c, s, Launch(s.round, |s.gs|), Ready);
    TotalSnoc(Holds, s.gs, Ready);
    TotalSnoc(Waited, s.gs, Ready);
    TotalSnoc(Sweeps, s.gs, Ready);
  }

  lemma DrainKeeps(c: Config, s: State)
    requires Inv(c, s) && s.pc == Drain
    ensures Inv(c, MainStep(c, s))
  {
    hide Total, Matches, LogAllowed, Allowed, InFlight, LateLaunches, EarlierRoundsDone;
    if s.wg == 0 {
      LaunchAllowed(c, s);
      WaitGroupDrained(s);
      Record(c, s, Launch(s.round, |s.gs|), SoloReady);
      TotalSnoc(Holds, s.gs, SoloReady);
      TotalSnoc(Waited, s.gs, SoloReady);
      TotalSnoc(Sweeps, s.gs, SoloReady);
      assert (s.gs + [SoloReady])[..|s.gs|] == s.gs;
    }
  }

  lemma SoloKeeps(c: Config, s: State)
    requires Inv(c, s) && s.pc == Solo
    ensures Inv(c, MainStep(c, s))
  {
    hide Total, Matches, LogAllowed, Allowed, InFlight, LateLaunches, EarlierRoundsDone;
    var k := |s.gs| - 1;
    if s.gs[k] == SoloReady {
      StartAllowed(c, s, k);
      Record(c, s, Start(s.round, k), SoloSweeping);
      PhaseChange(s.gs, k, SoloSweeping);
    } else if s.gs[k] == SoloSweeping {
      EndAllowed(c, s, k);
      Record(c, s, End(s.round, k), Finished);
      PhaseChange(s.gs, k, Finished);
    }
  }

  lemma PhaseChange(gs: seq<Phase>, k: nat, p: Phase)
    requires k < |gs|
    ensures Total(Holds, gs[k := p]) == Total(Holds, gs) - Holds(gs[k]) + Holds(p)
    ensures Total(Waited, gs[k := p]) == Total(Waited, gs) - Waited(gs[k]) + Waited(p)
    ensures Total(Sweeps, gs[k := p]) == Total(Sweeps, gs) - Sweeps(gs[k]) + Sweeps(p)
  {
    TotalUpdate(Holds, gs, k, p);
    TotalUpdate(Waited, gs, k, p);
    TotalUpdate(Sweeps, gs, k, p);
  }

  /** Whoever holds a slot and is not yet sweeping finds room under the capacity. */
  lemma RoomToStart(c: Config, s: State, k: nat)
    requires Inv(c, s) && k < |s.gs| && (s.gs[k].Ready? || s.gs[k].SoloReady?)
    ensures 0 <= InFlight(s.log) < c.Capacity()
  {
    hide Total, Matches, LogAllowed, InFlight, LateLaunches, EarlierRoundsDone;
    if s.gs[k].SoloReady? {
      TotalZero(Sweeps, s.gs);
    } else {
      PhaseChange(s.gs, k, Finished);
      TotalMonotone(Sweeps, Holds, s.gs[k := Finished]);
    }
  }

  lemma AgreesAt(log: seq<Event>, round: nat, gs: seq<Phase>, k: nat)
    requires Matches(log, round, gs) && k < |gs|
    ensures Launched(log, round, k) == 1
    ensures Started(log, round, k) == HasStarted(gs[k]) && Ended(log, round, k) == HasEnded(gs[k])
  {
    assert Agrees(log, round, gs, k);
  }

  lemma StartAllowed(c: Config, s: State, k: nat)
    requires Inv(c, s) && k < |s.gs| && (s.gs[k].Ready? || s.gs[k].SoloReady?)
    ensures Allowed(c, s.log, Start(s.round, k))
  {
    hide Total, Matches, LogAllowed, InFlight, LateLaunches, EarlierRoundsDone, Launched, Started;
    RoomToStart(c, s, k);
    AgreesAt(s.log, s.round, s.gs, k);
  }

  lemma EndAllowed(c: Config, s: State, k: nat)
    requires Inv(c, s) && k < |s.gs| && (s.gs[k].Sweeping? || s.gs[k].SoloSweeping?)
    ensures Allowed(c, s.log, End(s.round, k))
  {
    hide Total, Matches, LogAllowed, InFlight, LateLaunches, EarlierRoundsDone, Ended, Started;
    AgreesAt(s.log, s.round, s.gs, k);
  }

  lemma LaunchAllowed(c: Config, s: State)
    requires Inv(c, s) && (s.pc == Spawn || (s.pc == Drain && s.wg == 0))
    ensures Allowed(c, s.log, Launch(s.round, |s.gs|))
  {
    forall j: nat | j <= |s.gs|
      ensures Launched(s.log, s.round, j) == if j < |s.gs| then 1 else 0
    {
      assert Agrees(s.log, s.round, s.gs, j);
    }
    if s.pc == Drain {
      WaitGroupDrained(s);
      FinishedIsQuiet(s);
      NothingHeld(s.gs);
    }
  }

  lemma WaitKeeps(c: Config, s: State)
    requires Inv(c, s) && (s.pc.Add? || s.pc.Acquire? || s.pc.RoundWait?)
    ensures Inv(c, MainStep(c, s))
  {
    hide Total, Matches, LogAllowed, InFlight, LateLaunches, EarlierRoundsDone;
    if s.pc.RoundWait? && s.wg == 0 {
      WaitGroupDrained(s);
    }
  }

  lemma CurrentRoundIsPast(log: seq<Event>, round: nat, gs: seq<Phase>)
    requires Matches(log, round, gs) && AllFinished(gs)
    ensures PastRound(log, round)
  {
    forall k: nat
      ensures Launched(log, round, k) == Started(log, round, k) == Ended(log, round, k)
    {
      assert Agrees(log, round, gs, k);
    }
  }

  lemma CurrentRoundIsDone(c: Config, log: seq<Event>, round: nat, gs: seq<Phase>)
    requires Matches(log, round, gs) && AllFinished(gs) && |gs| == |c.entries|
    ensures RoundDone(c, log, round)
  {
    forall k: nat | k < |c.entries|
      ensures Launched(log, round, k) == Started(log, round, k) == Ended(log, round, k) == 1
    {
      assert Agrees(log, round, gs, k);
    }
  }

  lemma NextRoundMatches(log: seq<Event>, round: nat, gs: seq<Phase>)
    requires Matches(log, round, gs) && AllFinished(gs)
    ensures Matches(log, round + 1, [])
  {
    CurrentRoundIsPast(log, round, gs);
    hide PastRound, Launched, Started, Ended;
    assert forall r: nat :: r < round + 1 ==> PastRound(log, r);
    forall k: nat {:trigger Agrees(log, round + 1, [], k)}
      ensures Agrees(log, round + 1, [], k)
    {
      assert Untouched(log, round + 1, k);
    }
  }

  lemma NextRoundEarlier(c: Config, log: seq<Event>, round: nat, gs: seq<Phase>)
    requires Matches(log, round, gs) && AllFinished(gs) && |gs| == |c.entries|
    requires EarlierRoundsDone(c, log, round)
    ensures EarlierRoundsDone(c, log, round + 1)
  {
    CurrentRoundIsDone(c, log, round, gs);
    hide RoundDone;
  }

  lemma RoundEndKeeps(c: Config, s: State)
    requires Inv(c, s) && s.pc.RoundEnd?
    ensures Inv(c, MainStep(c, s))
  {
    hide Total, Matches, LogAllowed, Allowed, InFlight, LateLaunches, EarlierRoundsDone;
    if s.now > c.deadline {
      ReadingAllowed(c, s.log, SawDeadline);
      Record(c, s, SawDeadline, Finished);
    } else {
      NextRoundMatches(s.log, s.round, s.gs);
      if SawHardStop !in s.log {
        NextRoundEarlier(c, s.log, s.round, s.gs);
      }
      NothingHeld(s.gs);
      NothingHeld([]);
    }
  }

  lemma NothingHeld(gs: seq<Phase>)
    requires AllFinished(gs)
    ensures Total(Holds, gs) == Total(Waited, gs) == Total(Sweeps, gs) == 0
  {
    TotalZero(Holds, gs);
    TotalZero(Waited, gs);
    TotalZero(Sweeps, gs);
  }

  /** No round is left half done when nothing gave leave to. */
  lemma NoRoundHalfDone(c: Config, s: State, r: nat, k: nat)
    requires Matches(s.log, s.round, s.gs) && EarlierAgrees(c, s) && AllFinished(s.gs)
    requires SawHardStop !in s.log && (|s.gs| == |c.entries| || s.gs == [])
    requires r >= 1 && Launched(s.log, r, k) > 0
    ensures RoundDone(c, s.log, r)
  {
    hide Launched, Started, Ended;
    assert r > s.round ==> Untouched(s.log, r, k);
    if r == s.round {
      assert Agrees(s.log, r, s.gs, k);
      CurrentRoundIsDone(c, s.log, r, s.gs);
    }
  }

  lemma ReturnAllowed(c: Config, s: State)
    requires Inv(c, s) && s.pc == Leaving
    ensures Allowed(c, s.log, Return)
  {
    hide Total, LogAllowed, InFlight, LateLaunches, EarlierRoundsDone, Launched, Started, Ended, Matches, RoundDone;
    NothingHeld(s.gs);
    FinishedIsQuiet(s);
    if WholeRounds(c, s.log) {
      forall r: nat, k: nat | r >= 1 && Launched(s.log, r, k) > 0
        ensures RoundDone(c, s.log, r)
      {
        NoRoundHalfDone(c, s, r, k);
      }
    }
  }

  lemma LeavingKeeps(c: Config, s: State)
    requires Inv(c, s) && s.pc == Leaving
    ensures Inv(c, MainStep(c, s))
  {
    hide Total, Matches, LogAllowed, Allowed, InFlight, LateLaunches, EarlierRoundsDone;
    ReturnAllowed(c, s);
    Record(c, s, Return, Finished);
  }

  lemma MainKeeps(c: Config, s: State)
    requires Inv(c, s)
    ensures Inv(c, MainStep(c, s))
  {
    hide Inv, MainStep;
    match s.pc {
      case RoundTop => ReadingKeeps(c, s);
      case RoundTopHard => ReadingKeeps(c, s);
      case LoopHard => ReadingKeeps(c, s);
      case LoopDeadline => ReadingKeeps(c, s);
      case Add => WaitKeeps(c, s);
      case Acquire => WaitKeeps(c, s);
      case Spawn => SpawnKeeps(c, s);
      case Drain => DrainKeeps(c, s);
      case Solo => SoloKeeps(c, s);
      case RoundWait => WaitKeeps(c, s);
      case RoundEnd => RoundEndKeeps(c, s);
      case Leaving => LeavingKeeps(c, s);
      case Returned => ReturnedKeeps(c, s);
    }
  }

  lemma ReturnedKeeps(c: Config, s: State)
    requires Inv(c, s) && s.pc == Returned
    ensures Inv(c, MainStep(c, s))
  {
  }

  lemma BeginKeeps(c: Config, s: State, k: nat)
    requires Inv(c, s) && k < |s.gs| && s.gs[k].Ready?
    ensures Inv(c, GoroutineStep(s, k))
  {
    hide Total, Matches, LogAllowed, Allowed, InFlight, LateLaunches, EarlierRoundsDone;
    StartAllowed(c, s, k);
    Record(c, s, Start(s.round, k), Sweeping);
    PhaseChange(s.gs, k, Sweeping);
  }

  lemma FinishKeeps(c: Config, s: State, k: nat)
    requires Inv(c, s) && k < |s.gs| && s.gs[k].Sweeping?
    ensures Inv(c, GoroutineStep(s, k))
  {
    hide Total, Matches, LogAllowed, Allowed, InFlight, LateLaunches, EarlierRoundsDone;
    EndAllowed(c, s, k);
    Record(c, s, End(s.round, k), Swept);
    PhaseChange(s.gs, k, Swept);
  }

  lemma SignOffKeeps(c: Config, s: State, k: nat)
    requires Inv(c, s) && k < |s.gs| && (s.gs[k].Swept? || s.gs[k].Released?)
    ensures Inv(c, GoroutineStep(s, k))
  {
    hide Total, Matches, LogAllowed, Allowed, InFlight, LateLaunches, EarlierRoundsDone;
    var p := if s.gs[k].Swept? then Released else Finished;
    PhaseChange(s.gs, k, p);
    SilentMove(s.log, s.round, s.gs, k, p);
  }

  lemma GoroutineKeeps(c: Config, s: State, k: nat)
    requires Inv(c, s)
    ensures Inv(c, GoroutineStep(s, k))
  {
    hide Inv;
    if k < |s.gs| {
      match s.gs[k] {
        case Ready => BeginKeeps(c, s, k);
        case Sweeping => FinishKeeps(c, s, k);
        case Swept => SignOffKeeps(c, s, k);
        case Released => SignOffKeeps(c, s, k);
        case _ =>
      }
    }
  }

  lemma SilentMove(log: seq<Event>, round: nat, gs: seq<Phase>, k: nat, p: Phase)
    requires Matches(log, round, gs) && k < |gs|
    requires HasStarted(p) == HasStarted(gs[k]) && HasEnded(p) == HasEnded(gs[k])
    ensures Matches(log, round, gs[k := p])
  {
    hide PastRound, Launched, Started, Ended;
    var gs' := gs[k := p];
    forall j: nat {:trigger Agrees(log, round, gs', j)}
      ensures Agrees(log, round, gs', j)
    {
      assert Agrees(log, round, gs, j);
    }
  }

  lemma InitKeeps(c: Config, start: int)
    ensures Inv(c, Init(start))
  {
  }

  lemma {:induction false} EveryRunKeeps(c: Config, start: int, steps: seq<Step>)
    ensures Inv(c, Run(c, start, steps))
  {
    hide Inv, Next, Init;
    if steps == [] {
      InitKeeps(c, start);
    } else {
      var before := steps[..|steps| - 1];
      EveryRunKeeps(c, start, before);
      StepKeeps(c, Run(c, start, before), steps[|steps| - 1]);
    }
  }

  lemma StepKeeps(c: Config, s: State, step: Step)
    requires Inv(c, s)
    ensures Inv(c, Next(c, s, step))
  {
    hide Inv, MainStep, GoroutineStep;
    match step {
      case Main => MainKeeps(c, s);
      case Goroutine(k) => GoroutineKeeps(c, s, k);
      case Advance(d) => AdvanceKeeps(c, s, d);
    }
  }

  lemma AdvanceKeeps(c: Config, s: State, d: nat)
    requires Inv(c, s)
    ensures Inv(c, s.(now := s.now + d))
  {
    hide Total, Matches, LogAllowed, InFlight, LateLaunches, EarlierRoundsDone;
  }

  // ------------------------------------------------------------------ the promises

  /** Whatever the schedule, Run's log is one that Allowed permits, event by event. */
  lemma EveryRunIsAllowed(c: Config, start: int, steps: seq<Step>)
    ensures LogAllowed(c, Run(c, start, steps).log)
  {
    EveryRunKeeps(c, start, steps);
  }

  lemma AllowedPrefix(c: Config, log: seq<Event>)
    requires LogAllowed(c, log) && log != []
    ensures LogAllowed(c, log[..|log| - 1]) && Allowed(c, log[..|log| - 1], log[|log| - 1])
    ensures log == log[..|log| - 1] + [log[|log| - 1]]
  {
    hide Allowed;
    var before := log[..|log| - 1];
    forall j | 0 <= j < |before|
      ensures Allowed(c, before[..j], before[j])
    {
      assert before[..j] == log[..j] && before[j] == log[j];
    }
  }

  /** At most parallel() sweeps are in flight, and no sweep is launched twice. */
  lemma {:induction false} NeverTooMany(c: Config, log: seq<Event>, r: nat, k: nat)
    requires LogAllowed(c, log)
    ensures InFlight(log) <= if c.parallel > 1 then c.parallel else 1
    ensures Ended(log, r, k) <= Started(log, r, k) <= Launched(log, r, k) <= 1
  {
    if log != [] {
      var before, e := log[..|log| - 1], log[|log| - 1];
      AllowedPrefix(c, log);
      NeverTooMany(c, before, r, k);
      LogSnoc(before, e);
    }
  }

  /** cut launches nothing past an observed deadline, finish-sweep at most one sweep. */
  lemma {:induction false} LateLaunchesBounded(c: Config, log: seq<Event>)
    requires LogAllowed(c, log)
    ensures c.policy == Cut ==> LateLaunches(log) == 0
    ensures c.policy == FinishSweep ==> LateLaunches(log) <= 1
  {
    if log != [] {
      AllowedPrefix(c, log);
      LateLaunchesBounded(c, log[..|log| - 1]);
    }
  }

  /** Return is the last event, and was allowed. */
  lemma ReturnWasAllowed(c: Config, log: seq<Event>)
    requires LogAllowed(c, log) && Return in log
    ensures log[|log| - 1] == Return && Allowed(c, log[..|log| - 1], Return)
  {
    AllowedPrefix(c, log);
    if log[|log| - 1] != Return {
      ReturnIsEarlier(log);
    }
  }

  /**
    Unless the hard stop was seen, finish-round returns with every round it began swept to the end,
    and so does finish-sweep, or else with exactly one more workspace swept to its end after the
    deadline was observed.
  */
  lemma ReturnKeepsThePolicy(c: Config, log: seq<Event>)
    requires LogAllowed(c, log) && Return in log && SawHardStop !in log && c.policy != Cut
    ensures
      || BegunIsDone(c, log)
      || (c.policy == FinishSweep && LateLaunches(log) == 1 &&
          exists r: nat, k: nat ::
            LaunchedLate(log, r, k) && Launched(log, r, k) == Started(log, r, k) == Ended(log, r, k) == 1)
  {
    hide LogAllowed, Launched, Started, Ended, LaunchedLate, EarlierRoundsDone, Alone;
    var before := log[..|log| - 1];
    ReturnWasAllowed(c, log);
    AllowedPrefix(c, log);
    LogSnoc(before, Return);
    if WholeRounds(c, before) {
      DoneStaysDone(c, before);
    } else {
      LateLaunchesBounded(c, log);
      var r, k := LateSweepIsAlone(c, log);
      LateIsLaunched(log, r, k);
      NeverTooMany(c, log, r, k);
      ReturnedIsQuiet(c, log);
      QuietAt(log, r, k);
    }
  }

  lemma DoneStaysDone(c: Config, before: seq<Event>)
    requires BegunIsDone(c, before)
    ensures BegunIsDone(c, before + [Return])
  {
    LogSnoc(before, Return);
    hide Launched, Started, Ended;
    forall r: nat, k: nat | r >= 1 && Launched(before + [Return], r, k) > 0
      ensures RoundDone(c, before + [Return], r)
    {
      assert RoundDone(c, before, r);
    }
  }

  lemma LateIsLaunched(log: seq<Event>, r: nat, k: nat)
    requires LaunchedLate(log, r, k)
    ensures Launched(log, r, k) > 0
  {
    InLogIsLaunched(log, r, k);
  }

  /** Only sweep k of round r may still be running. */
  ghost predicate Alone(log: seq<Event>, r: nat, k: nat) {
    && InFlight(log) == Started(log, r, k) - Ended(log, r, k)
    && forall r': nat, k': nat :: (r', k') != (r, k) ==> Launched(log, r', k') == Started(log, r', k') == Ended(log, r', k')
  }

  lemma AloneSnoc(c: Config, log: seq<Event>, e: Event, r: nat, k: nat)
    requires Alone(log, r, k) && Allowed(c, log, e) && !e.Launch?
    ensures Alone(log + [e], r, k)
  {
    LogSnoc(log, e);
    if e.Start? || e.End? {
      assert Launched(log, e.round, e.k) == Started(log, e.round, e.k) == Ended(log, e.round, e.k) || (e.round, e.k) == (r, k);
    }
    hide Launched, Started, Ended, InFlight, LateLaunches, EarlierRoundsDone;
    forall r': nat, k': nat | (r', k') != (r, k)
      ensures Launched(log + [e], r', k') == Started(log + [e], r', k') == Ended(log + [e], r', k')
    {
    }
  }

  lemma AloneAtLaunch(log: seq<Event>, r: nat, k: nat)
    requires Quiet(log) && InFlight(log) == 0
    ensures Alone(log + [Launch(r, k)], r, k)
  {
    LogSnoc(log, Launch(r, k));
  }

  lemma {:induction false} LateMeansSeen(log: seq<Event>)
    requires LateLaunches(log) > 0
    ensures SawDeadline in log
  {
    if SawDeadline !in log[..|log| - 1] {
      LateMeansSeen(log[..|log| - 1]);
    }
  }

  /** Sweep k of round r was launched after the deadline was observed. */
  ghost predicate LaunchedLate(log: seq<Event>, r: nat, k: nat) {
    exists i, j :: 0 <= i < j < |log| && log[i] == SawDeadline && log[j] == Launch(r, k)
  }

  lemma LateStaysLate(log: seq<Event>, e: Event, r: nat, k: nat)
    requires LaunchedLate(log, r, k)
    ensures LaunchedLate(log + [e], r, k)
  {
    var i, j :| 0 <= i < j < |log| && log[i] == SawDeadline && log[j] == Launch(r, k);
    var l := log + [e];
    assert l[i] == SawDeadline && l[j] == Launch(r, k);
  }

  lemma LateNow(log: seq<Event>, r: nat, k: nat)
    requires SawDeadline in log
    ensures LaunchedLate(log + [Launch(r, k)], r, k)
  {
    var i :| 0 <= i < |log| && log[i] == SawDeadline;
    var l := log + [Launch(r, k)];
    assert l[i] == SawDeadline && l[|log|] == Launch(r, k);
  }

  /** The one late sweep of finish-sweep runs by itself. */
  lemma {:induction false} LateSweepIsAlone(c: Config, log: seq<Event>) returns (r: nat, k: nat)
    requires LogAllowed(c, log) && c.policy == FinishSweep && LateLaunches(log) == 1
    ensures LaunchedLate(log, r, k) && Alone(log, r, k) && InFlight(log) <= 1
  {
    hide LaunchedLate, Alone, LogAllowed, Launched, Started, Ended, InFlight, EarlierRoundsDone;
    var before, e := log[..|log| - 1], log[|log| - 1];
    AllowedPrefix(c, log);
    if LateLaunches(before) == 1 {
      LateMeansSeen(before);
      r, k := LateSweepIsAlone(c, before);
      AloneSnoc(c, before, e, r, k);
      LateStaysLate(before, e, r, k);
    } else {
      r, k := e.round, e.k;
      LateNow(before, r, k);
      AloneAtLaunch(before, r, k);
    }
    AloneBound(c, log, r, k);
  }

  lemma AloneBound(c: Config, log: seq<Event>, r: nat, k: nat)
    requires Alone(log, r, k) && LogAllowed(c, log)
    ensures InFlight(log) <= 1
  {
    NeverTooMany(c, log, r, k);
  }

  /** The entry that sweep k of round r sweeps. */
  function EntryOf(c: Config, r: nat, k: nat): string
    requires k < |c.entries|
  {
    Rotation.Order(c.entries, r)[k]
  }

  /** The entries of a finished round are those of the campaign. */
  lemma DoneRoundSweepsEveryEntry(c: Config, log: seq<Event>, r: nat)
    requires LogAllowed(c, log) && RoundDone(c, log, r)
    ensures multiset(seq(|c.entries|, k requires 0 <= k < |c.entries| => EntryOf(c, r, k))) == multiset(c.entries)
    ensures forall k: nat :: k >= |c.entries| ==> Launched(log, r, k) == 0
  {
    assert seq(|c.entries|, k requires 0 <= k < |c.entries| => EntryOf(c, r, k)) == Rotation.Order(c.entries, r);
    Rotation.RoundIsPermutation(c.entries, r);
    forall k: nat | k >= |c.entries|
      ensures Launched(log, r, k) == 0
    {
      NoSuchSweep(c, log, r, k);
    }
  }

  lemma {:induction false} NoSuchSweep(c: Config, log: seq<Event>, r: nat, k: nat)
    requires LogAllowed(c, log) && k >= |c.entries|
    ensures Launched(log, r, k) == 0
  {
    if log != [] {
      AllowedPrefix(c, log);
      NoSuchSweep(c, log[..|log| - 1], r, k);
      LogSnoc(log[..|log| - 1], log[|log| - 1]);
    }
  }

  // ------------------------------------------------------------- rounds that are not cut

  /** The loop over the order was not broken before its last entry. */
  predicate NotCut(c: Config, log: seq<Event>, r: nat) {
    c.entries != [] && Launch(r, |c.entries| - 1) in log
  }

  /** A round after r has begun. */
  ghost predicate Passed(log: seq<Event>, r: nat) {
    exists r': nat, k: nat :: r < r' && Launched(log, r', k) > 0
  }

  lemma {:induction false} LaunchesAreInOrder(c: Config, log: seq<Event>, r: nat, j: nat, k: nat)
    requires LogAllowed(c, log) && j < k && Launched(log, r, k) > 0
    ensures Launched(log, r, j) > 0
  {
    hide LogAllowed, EarlierRoundsDone, Launched, Started, Ended;
    if log == [] {
      NothingLaunched(r, k);
    } else {
      var before, e := log[..|log| - 1], log[|log| - 1];
      AllowedPrefix(c, log);
      LogSnoc(before, e);
      if e != Launch(r, k) {
        LaunchesAreInOrder(c, before, r, j, k);
      }
    }
  }

  lemma NothingLaunched(r: nat, k: nat)
    ensures Launched([], r, k) == 0
  {
  }

  /** Once Run has returned nothing launched is still to run. */
  lemma ReturnedIsQuiet(c: Config, log: seq<Event>)
    requires LogAllowed(c, log) && Return in log
    ensures Quiet(log)
  {
    var before, e := log[..|log| - 1], log[|log| - 1];
    AllowedPrefix(c, log);
    if e != Return {
      ReturnIsEarlier(log);
    }
    LogSnoc(before, e);
  }

  lemma ReturnIsEarlier(log: seq<Event>)
    requires Return in log && log[|log| - 1] != Return
    ensures Return in log[..|log| - 1]
  {
    var i :| 0 <= i < |log| && log[i] == Return;
    assert log[..|log| - 1][i] == Return;
  }

  /** Rounds before one that has begun are done. */
  lemma {:induction false} PassedIsDone(c: Config, log: seq<Event>, r: nat, r': nat, k: nat)
    requires LogAllowed(c, log) && 1 <= r < r' && Launched(log, r', k) > 0
    ensures RoundDone(c, log, r)
  {
    hide LogAllowed, Launched, Started, Ended, InFlight, LateLaunches;
    if log == [] {
      NothingLaunched(r', k);
    } else {
      var before, e := log[..|log| - 1], log[|log| - 1];
      AllowedPrefix(c, log);
      LogSnoc(before, e);
      if e == Launch(r', k) {
        LaunchNeedsEarlier(c, before, r', k);
      } else {
        PassedIsDone(c, before, r, r', k);
      }
      forall j: nat | j < |c.entries|
        ensures Launched(log, r, j) == Started(log, r, j) == Ended(log, r, j) == 1
      {
        StaysDone(c, before, e, r, j);
      }
    }
  }

  lemma StaysDone(c: Config, before: seq<Event>, e: Event, r: nat, j: nat)
    requires LogAllowed(c, before + [e]) && RoundDone(c, before, r) && j < |c.entries|
    ensures
      var log := before + [e];
      Launched(log, r, j) == Started(log, r, j) == Ended(log, r, j) == 1
  {
    hide LogAllowed, Launched, Started, Ended, InFlight, LateLaunches;
    NeverTooMany(c, before + [e], r, j);
    assert Launched(before, r, j) == Started(before, r, j) == Ended(before, r, j) == 1;
    LogSnoc(before, e);
  }

  lemma LaunchNeedsEarlier(c: Config, before: seq<Event>, r: nat, k: nat)
    requires Allowed(c, before, Launch(r, k))
    ensures EarlierRoundsDone(c, before, r)
  {
  }

  /**
    A round that is over, because a later one began or because Run returned after launching its
    last entry, has swept every entry of the campaign to its end, each exactly once and nothing else.
  */
  lemma UncutRoundSweepsEveryEntry(c: Config, log: seq<Event>, r: nat)
    requires LogAllowed(c, log) && r >= 1 && (Passed(log, r) || (NotCut(c, log, r) && Return in log))
    ensures RoundDone(c, log, r)
    ensures multiset(seq(|c.entries|, k requires 0 <= k < |c.entries| => EntryOf(c, r, k))) == multiset(c.entries)
    ensures forall k: nat :: k >= |c.entries| ==> Launched(log, r, k) == 0
  {
    hide LogAllowed, Launched, Started, Ended, Quiet;
    if Passed(log, r) {
      var r': nat, k: nat :| r < r' && Launched(log, r', k) > 0;
      PassedIsDone(c, log, r, r', k);
    } else {
      ReturnedIsQuiet(c, log);
      InLogIsLaunched(log, r, |c.entries| - 1);
      forall j: nat | j < |c.entries|
        ensures Launched(log, r, j) == Started(log, r, j) == Ended(log, r, j) == 1
      {
        if j < |c.entries| - 1 {
          LaunchesAreInOrder(c, log, r, j, |c.entries| - 1);
        }
        NeverTooMany(c, log, r, j);
        QuietAt(log, r, j);
      }
    }
    DoneRoundSweepsEveryEntry(c, log, r);
  }

  lemma InLogIsLaunched(log: seq<Event>, r: nat, k: nat)
    requires Launch(r, k) in log
    ensures Launched(log, r, k) > 0
  {
  }

  lemma QuietAt(log: seq<Event>, r: nat, k: nat)
    requires Quiet(log)
    ensures Launched(log, r, k) == Started(log, r, k) == Ended(log, r, k)
  {
  }

  // ------------------------------------------------------------- no deadlock

  lemma {:induction false} SomeCounts(f: Phase -> nat, gs: seq<Phase>) returns (k: nat)
    requires Total(f, gs) > 0
    ensures k < |gs| && f(gs[k]) > 0
  {
    var n := |gs| - 1;
    if f(gs[n]) > 0 {
      k := n;
    } else {
      k := SomeCounts(f, gs[..n]);
    }
  }

  /** A goroutine that holds the semaphore or is waited for can move. */
  lemma HolderMoves(s: State, k: nat)
    requires k < |s.gs| && (Holds(s.gs[k]) > 0 || Waited(s.gs[k]) > 0)
    ensures GoroutineStep(s, k).gs[k] != s.gs[k]
  {
  }

  /** Until Run returns, some goroutine can move without the clock's help: nothing is deadlocked. */
  lemma NeverStuck(c: Config, s: State) returns (step: Step)
    requires Inv(c, s) && s.pc != Returned
    ensures !step.Advance? && Next(c, s, step) != s
  {
    hide Matches, EarlierAgrees, ClockAgrees, LogAllowed;
    step := Main;
    if s.pc == Acquire && s.sem == c.Capacity() {
      var k := SomeCounts(Holds, s.gs);
      HolderMoves(s, k);
      step := Goroutine(k);
    } else if (s.pc == Drain || s.pc == RoundWait) && s.wg != 0 {
      var k := SomeCounts(Waited, s.gs);
      HolderMoves(s, k);
      step := Goroutine(k);
    }
  }

  lemma EveryRunCanGoOn(c: Config, start: int, steps: seq<Step>) returns (step: Step)
    requires Run(c, start, steps).pc != Returned
    ensures !step.Advance? && Run(c, start, steps + [step]) != Run(c, start, steps)
  {
    hide Inv, Next;
    EveryRunKeeps(c, start, steps);
    step := NeverStuck(c, Run(c, start, steps));
    assert (steps + [step])[..|steps|] == steps;
  }

  // ------------------------------------------------------------- as many at once as allowed

  /** Before any deadline: k goroutines of round 1 are sweeping and the loop goes on. */
  ghost predicate Sweeping1(s: State, start: int, k: nat) {
    && s.now == start && s.round == 1 && s.pc == LoopHard && s.sem == s.wg == k && |s.gs| == k
    && (forall j :: 0 <= j < k ==> s.gs[j] == Sweeping) && InFlight(s.log) == k
  }

  /** The loop's five steps to its next goroutine, and that goroutine's first. */
  function OneMore(k: nat): seq<Step> {
    [Main, Main, Main, Main, Main] + [Goroutine(k)]
  }

  lemma RunSnoc(c: Config, start: int, steps: seq<Step>, step: Step)
    ensures Run(c, start, steps + [step]) == Next(c, Run(c, start, steps), step)
  {
    assert (steps + [step])[..|steps|] == steps;
  }

  lemma FiveMain(c: Config, s: State, start: int, k: nat)
    requires Sweeping1(s, start, k) && start <= c.deadline && start <= c.hardStop
    requires k < c.Capacity() && k < |c.entries|
    ensures
      var t := MainStep(c, MainStep(c, MainStep(c, MainStep(c, MainStep(c, s)))));
      t == s.(sem := k + 1, wg := k + 1, gs := s.gs + [Ready], log := s.log + [Launch(1, k)])
  {
    hide InFlight;
    var t3 := MainStep(c, MainStep(c, MainStep(c, s)));
    assert t3 == s.(wg := k + 1, pc := Acquire);
  }

  lemma RunFive(c: Config, start: int, steps: seq<Step>)
    ensures
      var s := Run(c, start, steps);
      Run(c, start, steps + [Main, Main, Main, Main, Main]) ==
      MainStep(c, MainStep(c, MainStep(c, MainStep(c, MainStep(c, s)))))
  {
    hide MainStep, Run;
    var two, three := steps + [Main] + [Main], steps + [Main] + [Main] + [Main];
    RunSnoc(c, start, steps, Main);
    RunSnoc(c, start, steps + [Main], Main);
    RunSnoc(c, start, two, Main);
    RunSnoc(c, start, three, Main);
    RunSnoc(c, start, three + [Main], Main);
    assert steps + [Main, Main, Main, Main, Main] == three + [Main] + [Main];
  }

  lemma OneMoreSweeps(c: Config, start: int, steps: seq<Step>, k: nat)
    requires Sweeping1(Run(c, start, steps), start, k) && start <= c.deadline && start <= c.hardStop
    requires k < c.Capacity() && k < |c.entries|
    ensures Sweeping1(Run(c, start, steps + OneMore(k)), start, k + 1)
  {
    hide MainStep, GoroutineStep, Sweeping1, Run;
    var five := steps + [Main, Main, Main, Main, Main];
    RunFive(c, start, steps);
    FiveMain(c, Run(c, start, steps), start, k);
    RunSnoc(c, start, five, Goroutine(k));
    assert steps + OneMore(k) == five + [Goroutine(k)];
    StartsSweeping(Run(c, start, steps), start, k);
  }

  lemma StartsSweeping(s: State, start: int, k: nat)
    requires Sweeping1(s, start, k)
    ensures
      var t := s.(sem := k + 1, wg := k + 1, gs := s.gs + [Ready], log := s.log + [Launch(1, k)]);
      Sweeping1(GoroutineStep(t, k), start, k + 1)
  {
    hide InFlight;
    LogSnoc(s.log, Launch(1, k));
    LogSnoc(s.log + [Launch(1, k)], Start(1, k));
  }

  lemma {:induction false} SweepersGather(c: Config, start: int, k: nat) returns (steps: seq<Step>)
    requires start <= c.deadline && start <= c.hardStop && k <= c.Capacity() && k <= |c.entries|
    ensures Sweeping1(Run(c, start, steps), start, k)
  {
    hide Next, Run, Sweeping1;
    if k == 0 {
      steps := [Main, Main];
      TwoChecks(c, start);
    } else {
      steps := SweepersGather(c, start, k - 1);
      OneMoreSweeps(c, start, steps, k - 1);
      steps := steps + OneMore(k - 1);
    }
  }

  lemma TwoChecks(c: Config, start: int)
    requires start <= c.deadline && start <= c.hardStop
    ensures Sweeping1(Run(c, start, [Main, Main]), start, 0)
  {
    RunSnoc(c, start, [], Main);
    RunSnoc(c, start, [Main], Main);
    assert [] + [Main] == [Main] && [Main] + [Main] == [Main, Main];
  }

  /** With time left, as many workspaces as allowed do sweep at once, or all there are. */
  lemma CapacityIsReached(c: Config, start: int) returns (steps: seq<Step>)
    requires start <= c.deadline && start <= c.hardStop
    ensures
      var most := if c.parallel > 1 then c.parallel else 1;
      InFlight(Run(c, start, steps).log) == if |c.entries| < most then |c.entries| else most
  {
    steps := SweepersGather(c, start, if |c.entries| < c.Capacity() then |c.entries| else c.Capacity());
  }

  // ------------------------------------------------------------- all late launches are one round's

  /** Whatever is launched after the deadline was observed is of round r. */
  ghost predicate LateOnlyIn(log: seq<Event>, r: nat) {
    forall i, j :: 0 <= i < j < |log| && log[i] == SawDeadline && log[j].Launch? ==> log[j].round == r
  }

  lemma LateOnlySnoc(log: seq<Event>, e: Event, r: nat)
    requires LateOnlyIn(log, r) && (e.Launch? ==> e.round == r)
    ensures LateOnlyIn(log + [e], r)
  {
  }

  lemma NothingLateYet(log: seq<Event>, r: nat)
    requires SawDeadline !in log
    ensures LateOnlyIn(log, r) && LateLaunches(log) == 0
  {
    if LateLaunches(log) > 0 {
      LateMeansSeen(log);
    }
  }

  /** The late launches are of the round that is going on, and no more than its goroutines. */
  ghost predicate LateAgrees(s: State) {
    LateOnlyIn(s.log, s.round) && LateLaunches(s.log) <= |s.gs|
  }

  /** From s to t at most one event was logged, a launch being of the current round. */
  ghost predicate LogsOne(s: State, t: State) {
    || (t.log == s.log && t.round == s.round && |t.gs| == |s.gs|)
    || (t.log == s.log && SawDeadline !in s.log)
    || (exists e :: t.log == s.log + [e] && t.round == s.round && Fits(e, s.round, |t.gs| - |s.gs|))
  }

  lemma StepLogs(c: Config, s: State, step: Step)
    requires ClockAgrees(c, s)
    ensures LogsOne(s, Next(c, s, step))
  {
    hide LogsOne, MainStep, GoroutineStep, SoloStep;
    match step {
      case Advance(_) => SilentLogsOne(s, Next(c, s, step));
      case Goroutine(k) => GoroutineLogs(s, k);
      case Main => MainLogs(c, s);
    }
  }

  lemma SilentLogsOne(s: State, t: State)
    requires t.log == s.log && t.round == s.round && |t.gs| == |s.gs|
    ensures LogsOne(s, t)
  {
  }

  lemma GoroutineLogs(s: State, k: nat)
    ensures LogsOne(s, GoroutineStep(s, k))
  {
    var t := GoroutineStep(s, k);
    if t.log != s.log {
      assert t.log == s.log + [t.log[|s.log|]];
    }
  }

  lemma SoloLogs(s: State)
    ensures LogsOne(s, SoloStep(s))
  {
    var t := SoloStep(s);
    if t.log != s.log {
      assert t.log == s.log + [t.log[|s.log|]];
    }
  }

  lemma MainLogs(c: Config, s: State)
    requires ClockAgrees(c, s)
    ensures LogsOne(s, MainStep(c, s))
  {
    hide SoloStep;
    var t := MainStep(c, s);
    if s.pc == Solo {
      SoloLogs(s);
    } else if t.log != s.log {
      assert t.log == s.log + [t.log[|s.log|]];
    }
  }

  /** An event and how many goroutines it adds: a launch one, of this round, anything else none. */
  predicate Fits(e: Event, round: nat, added: int) {
    if e.Launch? then e.round == round && added == 1 else added == 0
  }

  lemma LateKeeps(c: Config, s: State, step: Step)
    requires ClockAgrees(c, s) && LateAgrees(s)
    ensures LateAgrees(Next(c, s, step))
  {
    hide ClockAgrees, Next, LateOnlyIn, LateLaunches, InFlight;
    var t := Next(c, s, step);
    StepLogs(c, s, step);
    if e :| t.log == s.log + [e] && t.round == s.round && Fits(e, s.round, |t.gs| - |s.gs|) {
      LogSnoc(s.log, e);
      LateOnlySnoc(s.log, e, s.round);
    } else if t.round != s.round || |t.gs| != |s.gs| {
      NothingLateYet(t.log, t.round);
    }
  }

  lemma {:induction false} LateAlwaysAgrees(c: Config, start: int, steps: seq<Step>)
    ensures LateAgrees(Run(c, start, steps))
  {
    hide ClockAgrees, Next;
    if steps == [] {
      NothingLateYet([], 1);
    } else {
      var n := |steps| - 1;
      RunClockAgrees(c, start, steps[..n]);
      LateAlwaysAgrees(c, start, steps[..n]);
      LateKeeps(c, Run(c, start, steps[..n]), steps[n]);
    }
  }

  lemma RunClockAgrees(c: Config, start: int, steps: seq<Step>)
    ensures ClockAgrees(c, Run(c, start, steps))
  {
    EveryRunKeeps(c, start, steps);
  }

  /**
    Whatever the policy, finish-round too: all that is launched once the deadline was observed is of
    one round, and no more than its entries.
  */
  lemma LateLaunchesAreOneRounds(c: Config, start: int, steps: seq<Step>) returns (r: nat)
    ensures
      var log := Run(c, start, steps).log;
      LateOnlyIn(log, r) && LateLaunches(log) <= |c.entries|
  {
    var s := Run(c, start, steps);
    r := s.round;
    RunPcAgrees(c, start, steps);
    LateAlwaysAgrees(c, start, steps);
  }

  // ------------------------------------------------------------- Run returns

  /** How many steps a goroutine has left. */
  function Left(p: Phase): nat {
    match p
    case Ready => 4
    case Sweeping => 3
    case Swept => 2
    case Released => 1
    case Finished => 0
    case SoloReady => 2
    case SoloSweeping => 1
  }

  /** How far the main goroutine is from returning once the hard stop is past. */
  function OverRank(pc: Pc): nat {
    match pc
    case LoopDeadline => 14
    case Add => 13
    case Acquire => 12
    case Spawn => 11
    case Drain => 7
    case LoopHard => 6
    case RoundWait => 5
    case RoundEnd => 4
    case RoundTop => 3
    case RoundTopHard => 2
    case Solo => 2
    case Leaving => 1
    case Returned => 0
  }

  /** How far it is from the end of its loop over the entries, or from returning, once the deadline is past. */
  function LateRank(pc: Pc): nat {
    match pc
    case RoundTop => 12
    case RoundTopHard => 11
    case LoopHard => 10
    case LoopDeadline => 9
    case Add => 8
    case Acquire => 7
    case Spawn => 6
    case RoundWait => 5
    case Drain => 4
    case RoundEnd => 4
    case Solo => 2
    case Leaving => 1
    case Returned => 0
  }

  function EntriesLeft(c: Config, s: State): nat {
    if |s.gs| < |c.entries| then |c.entries| - |s.gs| else 0
  }

  function Measure(c: Config, s: State): nat {
    Total(Left, s.gs) + if s.now > c.hardStop then OverRank(s.pc) else LateRank(s.pc) + 9 * EntriesLeft(c, s)
  }

  /** The campaign is past its deadline or its hard stop; either is enough. */
  predicate TimeIsUp(c: Config, s: State) {
    s.now > c.deadline || s.now > c.hardStop
  }

  lemma GoroutineRunsOut(c: Config, s: State, k: nat)
    ensures
      var t := GoroutineStep(s, k);
      t.now == s.now && (t == s || Measure(c, t) < Measure(c, s))
  {
    hide Total;
    if k < |s.gs| {
      var t := GoroutineStep(s, k);
      TotalUpdate(Left, s.gs, k, t.gs[k]);
      assert t.gs == s.gs[k := t.gs[k]];
    }
  }

  lemma SoloRunsOut(c: Config, s: State)
    requires s.pc == Solo
    ensures
      var t := SoloStep(s);
      t.now == s.now && (t == s || Measure(c, t) < Measure(c, s))
  {
    hide Total;
    if s.gs != [] {
      var k := |s.gs| - 1;
      var t := SoloStep(s);
      TotalUpdate(Left, s.gs, k, t.gs[k]);
      assert t.gs == s.gs[k := t.gs[k]];
    }
  }

  lemma MainRunsOut(c: Config, s: State)
    requires TimeIsUp(c, s) && PcAgrees(c, s)
    ensures
      var t := MainStep(c, s);
      t.now == s.now && (t == s || Measure(c, t) < Measure(c, s))
  {
    hide Total, SoloStep, InFlight, LateLaunches;
    TotalSnoc(Left, s.gs, Ready);
    TotalSnoc(Left, s.gs, SoloReady);
    if s.pc == Solo {
      SoloRunsOut(c, s);
    } else if s.pc == RoundEnd && s.now <= c.deadline {
      NoneLeft();
    }
  }

  lemma NoneLeft()
    ensures Total(Left, []) == 0
  {
  }

  /** The hard stop only shortens what is left. */
  lemma OverIsNearer(c: Config, s: State, d: nat)
    requires PcAgrees(c, s)
    ensures Measure(c, s.(now := s.now + d)) <= Measure(c, s)
  {
    hide Total, InFlight, LateLaunches;
  }

  /** Once time is up every step that changes anything brings the return nearer. */
  lemma StepsRunOut(c: Config, s: State, step: Step)
    requires TimeIsUp(c, s) && PcAgrees(c, s)
    ensures
      var t := Next(c, s, step);
      && TimeIsUp(c, t) && Measure(c, t) <= Measure(c, s)
      && (!step.Advance? && t != s ==> Measure(c, t) < Measure(c, s))
  {
    hide Measure, GoroutineStep, MainStep, PcAgrees;
    match step {
      case Advance(d) => OverIsNearer(c, s, d);
      case Goroutine(k) => GoroutineRunsOut(c, s, k);
      case Main => MainRunsOut(c, s);
    }
  }

  lemma RunPcAgrees(c: Config, start: int, steps: seq<Step>)
    ensures PcAgrees(c, Run(c, start, steps))
  {
    EveryRunKeeps(c, start, steps);
  }

  /** How many of the last n steps of a schedule changed the state, other than by letting time pass. */
  function Changes(c: Config, start: int, steps: seq<Step>, n: nat): nat
    requires n <= |steps|
    decreases n
  {
    if n == 0 then 0
    else
      var before, step := steps[..|steps| - 1], steps[|steps| - 1];
      Changes(c, start, before, n - 1) +
      if !step.Advance? && Run(c, start, steps) != Run(c, start, before) then 1 else 0
  }

  /** Whatever is scheduled once time is up, only so many steps change anything. */
  lemma {:induction false} OnlySoManyChanges(c: Config, start: int, steps: seq<Step>, n: nat)
    requires n <= |steps| && TimeIsUp(c, Run(c, start, steps[..|steps| - n]))
    ensures TimeIsUp(c, Run(c, start, steps))
    ensures
      Changes(c, start, steps, n) + Measure(c, Run(c, start, steps)) <=
      Measure(c, Run(c, start, steps[..|steps| - n]))
    decreases n
  {
    hide Next, Measure, TimeIsUp, PcAgrees;
    if n == 0 {
      assert steps[..|steps|] == steps;
    } else {
      var before, step := steps[..|steps| - 1], steps[|steps| - 1];
      assert before[..|before| - (n - 1)] == steps[..|steps| - n];
      OnlySoManyChanges(c, start, before, n - 1);
      RunPcAgrees(c, start, before);
      StepsRunOut(c, Run(c, start, before), step);
    }
  }

  lemma {:induction false} LeftAtMost(gs: seq<Phase>)
    ensures Total(Left, gs) <= 4 * |gs|
  {
    if gs != [] {
      LeftAtMost(gs[..|gs| - 1]);
    }
  }

  lemma MeasureAtMost(c: Config, start: int, steps: seq<Step>)
    ensures Measure(c, Run(c, start, steps)) <= 12 + 9 * |c.entries|
  {
    var s := Run(c, start, steps);
    RunPcAgrees(c, start, steps);
    hide Run, LateLaunches;
    LeftAtMost(s.gs);
  }

  /**
    Once the deadline or the hard stop is past Run returns: of all that is scheduled from then on at most
    12 + 9 * entries steps change anything, and until the return there is one that does.
  */
  lemma RunReturns(c: Config, start: int, steps: seq<Step>, n: nat)
    requires n <= |steps| && TimeIsUp(c, Run(c, start, steps[..|steps| - n]))
    ensures Changes(c, start, steps, n) <= 12 + 9 * |c.entries|
    ensures
      Run(c, start, steps).pc == Returned ||
      exists step: Step :: !step.Advance? && Run(c, start, steps + [step]) != Run(c, start, steps)
  {
    OnlySoManyChanges(c, start, steps, n);
    MeasureAtMost(c, start, steps[..|steps| - n]);
    if Run(c, start, steps).pc != Returned {
      var step := EveryRunCanGoOn(c, start, steps);
    }
  }

  /** So a schedule that always picks such a step reaches the return within that many. */
  lemma {:induction false} ReturnIsNear(c: Config, start: int, steps: seq<Step>) returns (more: seq<Step>)
    requires TimeIsUp(c, Run(c, start, steps))
    ensures |more| <= 12 + 9 * |c.entries| && Run(c, start, steps + more).pc == Returned
  {
    MeasureAtMost(c, start, steps);
    more := WayToReturn(c, start, steps);
  }

  lemma {:induction false} WayToReturn(c: Config, start: int, steps: seq<Step>) returns (more: seq<Step>)
    requires TimeIsUp(c, Run(c, start, steps))
    ensures |more| <= Measure(c, Run(c, start, steps)) && Run(c, start, steps + more).pc == Returned
    decreases Measure(c, Run(c, start, steps))
  {
    hide Next, Measure, TimeIsUp, PcAgrees;
    if Run(c, start, steps).pc == Returned {
      more := [];
      assert steps + more == steps;
    } else {
      var step := EveryRunCanGoOn(c, start, steps);
      assert (steps + [step])[..|steps|] == steps;
      RunPcAgrees(c, start, steps);
      StepsRunOut(c, Run(c, start, steps), step);
      var rest := WayToReturn(c, start, steps + [step]);
      more := [step] + rest;
      assert steps + more == steps + [step] + rest;
    }
  }
}
