/**
  The leak canary of project/fuzzer/fuzz_canary.h: at the end of every iteration it compares a
  sample of process-wide state with a baseline, suspects growth, looks again 32 iterations
  later, confirms or dismisses, and starts again from the new level.  Samples are arbitrary.
*/
module Canary {

  const WARMUP := 64
  const SLACK := 262144
  const CTX_SLACK := 8
  const CONFIRM := 32

  type Input = seq<bv8>

  datatype Sample = Sample(bytes: nat, contexts: nat, snapshotSet: bool, inXact: bool)

  /** The two quantities watched for growth, and the growth of each that is tolerated. */
  datatype Gauge = Bytes | Contexts

  function Level(g: Gauge, s: Sample): nat {
    match g case Bytes => s.bytes case Contexts => s.contexts
  }

  function Slack(g: Gauge): nat {
    match g case Bytes => SLACK case Contexts => CTX_SLACK
  }

  predicate Exceeds(g: Gauge, now: Sample, base: Sample) {
    Level(g, now) > Level(g, base) + Slack(g)
  }

  predicate Grown(now: Sample, base: Sample) {
    Exceeds(Bytes, now, base) || Exceeds(Contexts, now, base)
  }

  /** The static variables; suspect is the input whose hash and size a report would name. */
  datatype State = State(base: Sample, iter: nat, suspectAt: nat, suspect: Input, confirms: nat, reports: nat)

  /** What a check prints. */
  datatype Line =
    | Dirty(iter: nat, snapshotSet: bool, inXact: bool, input: Input)
    | ContextTree
    | OneTimeGrowth(base: Sample, now: Sample, suspect: Input)
    | Leak(confirms: nat, base: Sample, now: Sample, suspect: Input)

  /** Growth is still there when a suspicion comes due. */
  predicate Confirming(s: State, now: Sample) {
    s.iter + 1 > WARMUP && s.suspectAt != 0 && s.iter + 1 - s.suspectAt >= CONFIRM && Grown(now, s.base)
  }

  /** The state after a check that sampled now. */
  function Next(s: State, input: Input, now: Sample): State {
    var t := s.(iter := s.iter + 1);
    if t.iter <= WARMUP then t.(base := now)
    else
      var u := if now.snapshotSet || now.inXact then t.(reports := t.reports + 1) else t;
      if u.suspectAt != 0 then
        if u.iter - u.suspectAt >= CONFIRM then
          var v := if Grown(now, u.base) then u.(confirms := u.confirms + 1, reports := u.reports + 1) else u;
          v.(base := now, suspectAt := 0)
        else u
      else if Grown(now, u.base) then u.(suspectAt := u.iter, suspect := input)
      else u
  }

  /** What that check prints, in order. */
  function Printed(s: State, input: Input, now: Sample): seq<Line> {
    var iter, n := s.iter + 1, s.confirms + 1;
    if iter <= WARMUP then []
    else
      (if now.snapshotSet || now.inXact then [Dirty(iter, now.snapshotSet, now.inXact, input)] else []) +
      (if !Confirming(s, now) then []
       else
         (if n == 3 then [ContextTree] else []) +
         [if n >= 2 then Leak(n, s.base, now, s.suspect) else OneTimeGrowth(s.base, now, s.suspect)])
  }

  /** The LEAK line is printed at exactly the second and later confirmations, naming the suspect. */
  lemma LeakLineMeans(s: State, input: Input, now: Sample, l: Line)
    requires l.Leak?
    ensures l in Printed(s, input, now) <==>
            Next(s, input, now).confirms == s.confirms + 1 >= 2 && l == Leak(s.confirms + 1, s.base, now, s.suspect)
  {
  }

  class Monitor {
    var base: Sample
    var iter: nat
    var reports: nat
    var confirms: nat
    var suspectAt: nat
    var suspect: Input

    ghost function Value(): State
      reads this
    {
      State(base, iter, suspectAt, suspect, confirms, reports)
    }

    /** pgfuzz_canary_init, once the statics hold their initial zeros. */
    constructor (first: Sample)
      ensures Value() == State(first, 0, 0, [], 0, 0)
    {
      base, iter, reports, confirms, suspectAt, suspect := first, 0, 0, 0, 0, [];
    }

    /** pgfuzz_canary_check, given what it sampled; the heartbeat is not modelled. */
    method Check(input: Input, now: Sample) returns (lines: seq<Line>)
      requires suspectAt <= iter
      modifies this
      ensures Value() == Next(old(Value()), input, now)
      ensures lines == Printed(old(Value()), input, now)
    {
      lines := [];
      iter := iter + 1;
      if iter <= WARMUP {
        base := now;
        return;
      }
      var grewBytes := now.bytes > base.bytes + SLACK;
      var grewCtx := now.contexts > base.contexts + CTX_SLACK;
      if now.snapshotSet || now.inXact {
        lines := lines + [Dirty(iter, now.snapshotSet, now.inXact, input)];
        reports := reports + 1;
      }
      if suspectAt != 0 {
        if iter - suspectAt >= CONFIRM {
          if now.bytes > base.bytes + SLACK || now.contexts > base.contexts + CTX_SLACK {
            confirms := confirms + 1;
            if confirms == 3 {
              lines := lines + [ContextTree];
            }
            if confirms >= 2 {
              lines := lines + [Leak(confirms, base, now, suspect)];
            } else {
              lines := lines + [OneTimeGrowth(base, now, suspect)];
            }
            reports := reports + 1;
          }
          base := now;
          suspectAt := 0;
        }
        return;
      }
      if grewBytes || grewCtx {
        suspectAt := iter;
        suspect := input;
      }
    }
  }

  // --------------------------------------------------------------------- whole runs

  /** One iteration: its input and what was sampled at its end. */
  datatype Iteration = Iteration(input: Input, sample: Sample)

  function Run(first: Sample, its: seq<Iteration>): State {
    if its == [] then State(first, 0, 0, [], 0, 0)
    else
      var n := |its| - 1;
      Next(Run(first, its[..n]), its[n].input, its[n].sample)
  }

  /** The state after the first n iterations. */
  function After(first: Sample, its: seq<Iteration>, n: nat): State
    requires n <= |its|
  {
    Run(first, its[..n])
  }

  lemma AfterStep(first: Sample, its: seq<Iteration>, n: nat)
    requires n < |its|
    ensures After(first, its, n + 1) == Next(After(first, its, n), its[n].input, its[n].sample)
  {
    assert its[..n + 1][..n] == its[..n];
  }

  /** Every baseline is a sample that was taken; suspicions are past warmup and fresh. */
  ghost predicate Ok(s: State, n: nat) {
    && s.iter == n
    && (n <= WARMUP ==> s.suspectAt == 0 && s.confirms == 0)
    && (s.suspectAt != 0 ==> WARMUP < s.suspectAt <= n < s.suspectAt + CONFIRM)
  }

  lemma {:induction false} RunOk(first: Sample, its: seq<Iteration>, n: nat)
    requires n <= |its|
    ensures Ok(After(first, its, n), n)
  {
    if n > 0 {
      RunOk(first, its, n - 1);
      AfterStep(first, its, n - 1);
    }
  }

  lemma {:induction false} ConfirmsMonotone(first: Sample, its: seq<Iteration>, m: nat, n: nat)
    requires m <= n <= |its|
    ensures After(first, its, m).confirms <= After(first, its, n).confirms
  {
    if m < n {
      ConfirmsMonotone(first, its, m, n - 1);
      AfterStep(first, its, n - 1);
    }
  }

  // ------------------------------------------------------- how often it can confirm

  lemma {:induction false} ConfirmsAreSpaced(first: Sample, its: seq<Iteration>, n: nat)
    requires n <= |its|
    ensures
      var s := After(first, its, n);
      && (s.confirms > 0 ==> WARMUP + 33 * s.confirms <= n)
      && (s.suspectAt != 0 ==> WARMUP + 33 * s.confirms + 1 <= s.suspectAt)
  {
    if n > 0 {
      ConfirmsAreSpaced(first, its, n - 1);
      RunOk(first, its, n - 1);
      AfterStep(first, its, n - 1);
    }
  }

  /** On every run the confirmations number at most a thirty-third of the iterations past warmup. */
  lemma ConfirmsBoundedByTime(first: Sample, its: seq<Iteration>)
    ensures Run(first, its).confirms <= if |its| <= 64 then 0 else (|its| - 64) / 33
  {
    ConfirmsAreSpaced(first, its, |its|);
    RunOk(first, its, |its|);
    assert its[..|its|] == its;
  }

  /** After warmup no sample is below the one before it. */
  ghost predicate NeverFalls(its: seq<Iteration>, g: Gauge) {
    forall i :: WARMUP <= i < |its| ==> Level(g, its[i - 1].sample) <= Level(g, its[i].sample)
  }

  /** How many of the confirmations saw the gauge exceed; each confirmation is charged to one gauge. */
  ghost predicate Charged(base: Sample, origin: Sample, confirms: nat, b: nat, c: nat) {
    && b + c == confirms
    && b * (SLACK + 1) <= base.bytes - origin.bytes
    && c * (CTX_SLACK + 1) <= base.contexts - origin.contexts
  }

  lemma {:induction false} EachConfirmIsPaidFor(first: Sample, its: seq<Iteration>, n: nat) returns (b: nat, c: nat)
    requires WARMUP <= n <= |its| && NeverFalls(its, Bytes) && NeverFalls(its, Contexts)
    ensures
      var s, last := After(first, its, n), its[n - 1].sample;
      && Charged(s.base, its[WARMUP - 1].sample, s.confirms, b, c)
      && s.base.bytes <= last.bytes && s.base.contexts <= last.contexts
  {
    AfterStep(first, its, n - 1);
    RunOk(first, its, n - 1);
    if n == WARMUP {
      b, c := 0, 0;
    } else {
      b, c := EachConfirmIsPaidFor(first, its, n - 1);
      var s, it := After(first, its, n - 1), its[n - 1];
      b, c := PayForStep(s, it, its[WARMUP - 1].sample, b, c);
    }
  }

  lemma PayForStep(s: State, it: Iteration, origin: Sample, b: nat, c: nat) returns (b': nat, c': nat)
    requires s.iter >= WARMUP && Charged(s.base, origin, s.confirms, b, c)
    requires s.base.bytes <= it.sample.bytes && s.base.contexts <= it.sample.contexts
    ensures
      var t := Next(s, it.input, it.sample);
      && Charged(t.base, origin, t.confirms, b', c')
      && t.base.bytes <= it.sample.bytes && t.base.contexts <= it.sample.contexts
  {
    b', c' := b, c;
    if Confirming(s, it.sample) {
      if Exceeds(Bytes, it.sample, s.base) {
        b' := b + 1;
      } else {
        c' := c + 1;
      }
    }
  }

  /** With samples that never fall, growth bounds the confirmations. */
  lemma ConfirmsBoundedByGrowth(first: Sample, its: seq<Iteration>)
    requires |its| >= WARMUP && NeverFalls(its, Bytes) && NeverFalls(its, Contexts)
    ensures
      var from, to := its[WARMUP - 1].sample, its[|its| - 1].sample;
      Run(first, its).confirms <= (to.bytes - from.bytes) / 262_145 + (to.contexts - from.contexts) / 9
  {
    var b, c := EachConfirmIsPaidFor(first, its, |its|);
    assert its[..|its|] == its;
    var from, to := its[WARMUP - 1].sample, its[|its| - 1].sample;
    QuotientAtLeast(b, SLACK + 1, to.bytes - from.bytes);
    QuotientAtLeast(c, CTX_SLACK + 1, to.contexts - from.contexts);
  }

  lemma QuotientAtLeast(b: nat, unit: nat, x: int)
    requires unit > 0 && b * unit <= x
    ensures b <= x / unit
  {
    if b > x / unit {
      OverSlack(x, unit, b);
    }
  }

  // ----------------------------------------------------------- growth that stops

  /** From iteration t on every sample is v. */
  ghost predicate ConstantFrom(its: seq<Iteration>, t: nat, v: Sample) {
    forall i :: t <= i < |its| ==> its[i].sample == v
  }

  lemma {:induction false} AfterItSettles(first: Sample, its: seq<Iteration>, t: nat, v: Sample, n: nat)
    requires t <= n <= |its| && ConstantFrom(its, t, v)
    ensures
      var s, c := After(first, its, n), After(first, its, t).confirms;
      s.confirms == c || (s.confirms == c + 1 && s.base == v)
  {
    if n > t {
      AfterItSettles(first, its, t, v, n - 1);
      AfterStep(first, its, n - 1);
    }
  }

  /** Once samples are constant at most one more confirmation follows. */
  lemma AtMostOneMoreConfirm(first: Sample, its: seq<Iteration>, t: nat, v: Sample)
    requires t <= |its| && ConstantFrom(its, t, v)
    ensures Run(first, its).confirms <= After(first, its, t).confirms + 1
  {
    AfterItSettles(first, its, t, v, |its|);
    assert its[..|its|] == its;
  }

  lemma {:induction false} LevelIsNoLeak(first: Sample, its: seq<Iteration>, t: nat, v: Sample, n: nat)
    requires n <= t <= |its| && (forall i :: WARMUP - 1 <= i < t ==> its[i].sample == v)
    ensures
      var s := After(first, its, n);
      s.confirms == 0 && (n >= WARMUP ==> s.base == v && s.suspectAt == 0)
  {
    if n > 0 {
      LevelIsNoLeak(first, its, t, v, n - 1);
      RunOk(first, its, n - 1);
      AfterStep(first, its, n - 1);
    }
  }

  /** A cache that fills once and stays is never called a leak. */
  lemma OneTimeGrowthIsNoLeak(first: Sample, its: seq<Iteration>, t: nat, low: Sample, high: Sample)
    requires t <= |its| && ConstantFrom(its, t, high)
    requires forall i :: WARMUP - 1 <= i < t ==> its[i].sample == low
    ensures Run(first, its).confirms <= 1
  {
    LevelIsNoLeak(first, its, t, low, t);
    AtMostOneMoreConfirm(first, its, t, high);
  }

  // ------------------------------------------------------- growth that does not stop

  /** After warmup the gauge rises by at least d with every iteration. */
  ghost predicate Rises(its: seq<Iteration>, g: Gauge, d: nat) {
    forall i :: WARMUP <= i < |its| ==> Level(g, its[i].sample) >= Level(g, its[i - 1].sample) + d
  }

  lemma {:induction false} RiseAdds(its: seq<Iteration>, g: Gauge, d: nat, m: nat, n: nat)
    requires Rises(its, g, d) && WARMUP - 1 <= m <= n < |its|
    ensures Level(g, its[n].sample) >= Level(g, its[m].sample) + d * (n - m)
  {
    if m < n {
      RiseAdds(its, g, d, m, n - 1);
      assert d * (n - m) == d * (n - 1 - m) + d;
    }
  }

  /** After n iterations the baseline is the newest sample and nothing is suspected. */
  ghost predicate Rebased(first: Sample, its: seq<Iteration>, n: nat)
    requires n <= |its|
  {
    n >= WARMUP && After(first, its, n).base == its[n - 1].sample && After(first, its, n).suspectAt == 0
  }

  /** How long one confirmation can take. */
  function Period(g: Gauge, d: nat): nat
    requires d > 0
  {
    Slack(g) / d + 1 + CONFIRM
  }

  lemma OverSlack(slack: nat, d: nat, k: nat)
    requires d > 0 && k >= slack / d + 1
    ensures d * k > slack
  {
    var q := slack / d;
    assert slack < d * q + d == d * (q + 1);
    assert d * k == d * (q + 1) + d * (k - (q + 1));
    assert d * (k - (q + 1)) >= 0;
  }

  function Other(g: Gauge): Gauge {
    if g == Bytes then Contexts else Bytes
  }

  /**
    The other gauge cannot hide the growth: either it takes the rising one no longer to exceed
    its slack than a suspicion takes to come due, or the other one never falls back.
  */
  ghost predicate Unhidden(its: seq<Iteration>, g: Gauge, d: nat)
    requires d > 0
  {
    Slack(g) / d <= CONFIRM || NeverFalls(its, Other(g))
  }

  /** From a rebased moment t, j iterations on with no confirmation yet. */
  ghost predicate Seeking(first: Sample, its: seq<Iteration>, t: nat, j: nat, k: nat)
    requires t + j <= |its|
  {
    var s0, s := After(first, its, t), After(first, its, t + j);
    && s.base == s0.base && s.confirms == s0.confirms
    && (s.suspectAt == 0 ==> j < k)
    && (s.suspectAt != 0 ==>
          t < s.suspectAt <= t + k && s.suspectAt <= t + j < s.suspectAt + CONFIRM && Grown(its[s.suspectAt - 1].sample, s.base))
  }

  lemma {:induction false} NeverFallsFar(its: seq<Iteration>, g: Gauge, m: nat, n: nat)
    requires NeverFalls(its, g) && WARMUP - 1 <= m <= n < |its|
    ensures Level(g, its[m].sample) <= Level(g, its[n].sample)
  {
    if m < n {
      NeverFallsFar(its, g, m, n - 1);
    }
  }

  lemma RiseExceeds(its: seq<Iteration>, g: Gauge, d: nat, t: nat, n: nat)
    requires d > 0 && Rises(its, g, d) && WARMUP <= t <= n < |its| && n - (t - 1) >= Slack(g) / d + 1
    ensures Exceeds(g, its[n].sample, its[t - 1].sample)
  {
    RiseAdds(its, g, d, t - 1, n);
    OverSlack(Slack(g), d, n - (t - 1));
  }

  lemma RiseNeverFalls(its: seq<Iteration>, g: Gauge, d: nat)
    requires Rises(its, g, d)
    ensures NeverFalls(its, g)
  {
  }

  /** A suspicion that comes due is confirmed. */
  lemma DueIsConfirmed(its: seq<Iteration>, g: Gauge, d: nat, t: nat, suspectAt: nat, n: nat)
    requires d > 0 && Rises(its, g, d) && Unhidden(its, g, d)
    requires WARMUP <= t < suspectAt <= n < |its| && n + 1 >= suspectAt + CONFIRM
    requires Grown(its[suspectAt - 1].sample, its[t - 1].sample)
    ensures Grown(its[n].sample, its[t - 1].sample)
  {
    if Slack(g) / d <= CONFIRM {
      RiseExceeds(its, g, d, t, n);
    } else {
      RiseNeverFalls(its, g, d);
      var h := if Exceeds(g, its[suspectAt - 1].sample, its[t - 1].sample) then g else Other(g);
      NeverFallsFar(its, h, suspectAt - 1, n);
      assert Exceeds(h, its[n].sample, its[t - 1].sample);
    }
  }

  lemma SeekStep(first: Sample, its: seq<Iteration>, g: Gauge, d: nat, t: nat, j: nat, k: nat)
    requires d > 0 && Rises(its, g, d) && Unhidden(its, g, d) && t + j < |its| && k == Slack(g) / d + 1
    requires Rebased(first, its, t) && Seeking(first, its, t, j, k)
    ensures
      || Seeking(first, its, t, j + 1, k)
      || (Rebased(first, its, t + j + 1) && After(first, its, t + j + 1).confirms == After(first, its, t).confirms + 1)
  {
    hide Rises, Unhidden, After;
    var n := t + j;
    var s := After(first, its, n);
    AfterStep(first, its, n);
    RunOk(first, its, n);
    if s.suspectAt != 0 {
      if n + 1 >= s.suspectAt + CONFIRM {
        DueIsConfirmed(its, g, d, t, s.suspectAt, n);
      }
    } else if j + 1 >= k {
      RiseExceeds(its, g, d, t, n);
    }
  }

  lemma {:induction false} Seek(first: Sample, its: seq<Iteration>, g: Gauge, d: nat, t: nat, j: nat, k: nat)
      returns (u: nat)
    requires j < k + CONFIRM && t + k + CONFIRM <= |its|
    requires Rebased(first, its, t) && Seeking(first, its, t, j, k)
    requires d > 0 && k == Slack(g) / d + 1 && Rises(its, g, d) && Unhidden(its, g, d)
    ensures t < u <= t + k + CONFIRM
    ensures Rebased(first, its, u) && After(first, its, u).confirms == After(first, its, t).confirms + 1
    decreases k + CONFIRM - j
  {
    hide Rises, Unhidden, After;
    SeekStep(first, its, g, d, t, j, k);
    if Rebased(first, its, t + j + 1) && After(first, its, t + j + 1).confirms == After(first, its, t).confirms + 1 {
      u := t + j + 1;
    } else {
      u := Seek(first, its, g, d, t, j + 1, k);
    }
  }

  lemma {:induction false} RebasedByWarmup(first: Sample, its: seq<Iteration>)
    requires |its| >= WARMUP
    ensures Rebased(first, its, WARMUP)
  {
    RunOk(first, its, WARMUP);
    AfterStep(first, its, WARMUP - 1);
    RunOk(first, its, WARMUP - 1);
  }

  /** One confirmation, from one rebased moment to the next. */
  lemma NextConfirm(first: Sample, its: seq<Iteration>, g: Gauge, d: nat, t: nat) returns (u: nat)
    requires d > 0 && Rises(its, g, d) && Unhidden(its, g, d) && t + Period(g, d) <= |its| && Rebased(first, its, t)
    ensures t < u <= t + Period(g, d)
    ensures Rebased(first, its, u) && After(first, its, u).confirms == After(first, its, t).confirms + 1
  {
    hide After, Rises, Unhidden;
    u := Seek(first, its, g, d, t, 0, Slack(g) / d + 1);
  }

  lemma {:induction false} NthConfirm(first: Sample, its: seq<Iteration>, g: Gauge, d: nat, n: nat) returns (u: nat)
    requires d > 0 && Rises(its, g, d) && Unhidden(its, g, d) && WARMUP + n * Period(g, d) <= |its|
    ensures u <= WARMUP + n * Period(g, d)
    ensures Rebased(first, its, u) && After(first, its, u).confirms == n
  {
    hide After, Rises, Unhidden, Rebased, Period;
    if n == 0 {
      u := WARMUP;
      RebasedByWarmup(first, its);
      RunOk(first, its, WARMUP);
    } else {
      assert n * Period(g, d) == (n - 1) * Period(g, d) + Period(g, d);
      var t := NthConfirm(first, its, g, d, n - 1);
      u := NextConfirm(first, its, g, d, t);
    }
  }

  /**
    A gauge that rises by at least d an iteration is confirmed for the n-th time no later than
    iteration 64 + n * (slack / d + 33); the second confirmation prints the LEAK line.
  */
  lemma RisingIsConfirmed(first: Sample, its: seq<Iteration>, g: Gauge, d: nat, n: nat)
    requires d > 0 && Rises(its, g, d) && Unhidden(its, g, d) && |its| >= WARMUP + n * Period(g, d)
    ensures Run(first, its).confirms >= n
  {
    var u := NthConfirm(first, its, g, d, n);
    ConfirmsMonotone(first, its, u, |its|);
    assert its[..|its|] == its;
  }

  /** Contexts need no condition: they exceed their slack before any suspicion comes due. */
  lemma RisingContextsAreConfirmed(first: Sample, its: seq<Iteration>, d: nat, n: nat)
    requires d > 0 && Rises(its, Contexts, d) && |its| >= WARMUP + n * Period(Contexts, d)
    ensures Run(first, its).confirms >= n
  {
    assert CTX_SLACK / d <= CTX_SLACK;
    RisingIsConfirmed(first, its, Contexts, d, n);
  }

  // ------------------------------------------------------ what a whole run prints

  function PrintedBy(first: Sample, its: seq<Iteration>): seq<Line> {
    if its == [] then []
    else
      var n := |its| - 1;
      PrintedBy(first, its[..n]) + Printed(Run(first, its[..n]), its[n].input, its[n].sample)
  }

  ghost predicate SaysLeak(lines: seq<Line>) {
    exists l :: l in lines && l.Leak?
  }

  /** A run has printed a LEAK line exactly when it has confirmed growth twice. */
  lemma {:induction false} LeakIsPrintedExactlyWhen(first: Sample, its: seq<Iteration>)
    ensures SaysLeak(PrintedBy(first, its)) <==> Run(first, its).confirms >= 2
  {
    hide Printed, Next;
    if its != [] {
      var n := |its| - 1;
      var s, now, input := Run(first, its[..n]), its[n].sample, its[n].input;
      LeakIsPrintedExactlyWhen(first, its[..n]);
      ConfirmsGrowByOne(s, input, now);
      var leak := Leak(s.confirms + 1, s.base, now, s.suspect);
      LeakLineMeans(s, input, now, leak);
      if l :| l in Printed(s, input, now) && l.Leak? {
        LeakLineMeans(s, input, now, l);
      }
      assert forall l :: l in PrintedBy(first, its) <==> l in PrintedBy(first, its[..n]) || l in Printed(s, input, now);
    }
  }

  lemma ConfirmsGrowByOne(s: State, input: Input, now: Sample)
    ensures s.confirms <= Next(s, input, now).confirms <= s.confirms + 1
  {
  }

  /** So a gauge that rises by at least d is called a leak by iteration 64 + 2 * (slack / d + 33). */
  lemma RisingIsCalledALeak(first: Sample, its: seq<Iteration>, g: Gauge, d: nat)
    requires d > 0 && Rises(its, g, d) && |its| >= 64 + 2 * ((if g == Bytes then 262_144 else 8) / d + 33)
    requires g == Contexts || Unhidden(its, g, d)
    ensures SaysLeak(PrintedBy(first, its))
  {
    if g == Contexts {
      RisingContextsAreConfirmed(first, its, d, 2);
    } else {
      RisingIsConfirmed(first, its, g, d, 2);
    }
    LeakIsPrintedExactlyWhen(first, its);
  }

  // ----------------------------------------------------- what the printed lines name

  /** What iteration n prints, counted from 0. */
  function LinesAt(first: Sample, its: seq<Iteration>, n: nat): seq<Line>
    requires n < |its|
  {
    Printed(After(first, its, n), its[n].input, its[n].sample)
  }

  /** The baseline is the sample of iteration b, and none from there to iteration n exceeded it. */
  ghost predicate StillBelow(base: Sample, its: seq<Iteration>, b: nat, n: nat) {
    && WARMUP - 1 <= b < n <= |its| && base == its[b].sample
    && forall j :: b < j < n ==> !Grown(its[j].sample, base)
  }

  /** Iteration n, with this input, is the first since the baseline whose sample exceeded it. */
  ghost predicate FirstToExceed(base: Sample, suspect: Input, its: seq<Iteration>, n: nat) {
    n < |its| && suspect == its[n].input && Grown(its[n].sample, base) && exists b: nat :: StillBelow(base, its, b, n)
  }

  /** What a state after n iterations says of them. */
  ghost predicate Names(s: State, its: seq<Iteration>, n: nat) {
    n >= WARMUP ==>
      if s.suspectAt == 0 then exists b: nat :: StillBelow(s.base, its, b, n)
      else FirstToExceed(s.base, s.suspect, its, s.suspectAt - 1)
  }

  lemma NamesStep(s: State, its: seq<Iteration>, n: nat)
    requires n < |its| && Ok(s, n) && Names(s, its, n)
    ensures Names(Next(s, its[n].input, its[n].sample), its, n + 1)
  {
    var t := Next(s, its[n].input, its[n].sample);
    if t.suspectAt == 0 && n + 1 >= WARMUP {
      if t.base == its[n].sample {
        assert StillBelow(t.base, its, n, n + 1);
      } else {
        var b: nat :| StillBelow(s.base, its, b, n);
        assert StillBelow(t.base, its, b, n + 1);
      }
    }
  }

  /** While a suspicion is pending its input is that of the first iteration to exceed the baseline. */
  lemma {:induction false} SuspectIsFirstToExceed(first: Sample, its: seq<Iteration>, n: nat)
    requires n <= |its|
    ensures Names(After(first, its, n), its, n)
  {
    hide Next, After;
    if n > 0 {
      SuspectIsFirstToExceed(first, its, n - 1);
      RunOk(first, its, n - 1);
      AfterStep(first, its, n - 1);
      NamesStep(After(first, its, n - 1), its, n - 1);
    }
  }

  /** A line about growth names the two samples it compared and the input of CONFIRM iterations before. */
  ghost predicate ReportsGrowth(base: Sample, now: Sample, suspect: Input, its: seq<Iteration>, n: nat) {
    && WARMUP + CONFIRM <= n < |its| && now == its[n].sample && Grown(now, base)
    && FirstToExceed(base, suspect, its, n - CONFIRM)
  }

  /**
    Every line a run prints, in the run's own terms: a dirty sample is always reported, with its
    input; growth is reported of the sample taken CONFIRM iterations after the first that exceeded the
    baseline, if it still does, with the input of that first one; contexts are dumped at the third.
  */
  lemma EveryLineMeans(first: Sample, its: seq<Iteration>, n: nat, l: Line)
    requires n < |its|
    ensures
      var now, count := its[n].sample, After(first, its, n + 1).confirms;
      var counted := count == After(first, its, n).confirms + 1;
      match l
      case Dirty(_, _, _, _) =>
        l in LinesAt(first, its, n) <==>
        n >= WARMUP && (now.snapshotSet || now.inXact) && l == Dirty(n + 1, now.snapshotSet, now.inXact, its[n].input)
      case ContextTree => l in LinesAt(first, its, n) <==> counted && count == 3
      case OneTimeGrowth(base, at, suspect) =>
        l in LinesAt(first, its, n) ==> counted && count == 1 && ReportsGrowth(base, at, suspect, its, n)
      case Leak(k, base, at, suspect) =>
        l in LinesAt(first, its, n) ==> counted && k == count >= 2 && ReportsGrowth(base, at, suspect, its, n)
  {
    hide After, FirstToExceed, Names;
    RunOk(first, its, n);
    AfterStep(first, its, n);
    SuspectIsFirstToExceed(first, its, n);
    var s := After(first, its, n);
    if Confirming(s, its[n].sample) {
      DueNames(s, its, n);
    }
  }

  lemma DueNames(s: State, its: seq<Iteration>, n: nat)
    requires n < |its| && Ok(s, n) && Names(s, its, n) && Confirming(s, its[n].sample)
    ensures ReportsGrowth(s.base, its[n].sample, s.suspect, its, n)
  {
  }

  /** A confirmation is never silent, and each line but the context dump is counted as one report. */
  lemma {:induction false} ReportsAreCounted(first: Sample, its: seq<Iteration>)
    ensures Run(first, its).reports + (if Run(first, its).confirms >= 3 then 1 else 0) == |PrintedBy(first, its)|
  {
    hide Next, Printed;
    if its != [] {
      var n := |its| - 1;
      ReportsAreCounted(first, its[..n]);
      ReportsStep(Run(first, its[..n]), its[n].input, its[n].sample);
    }
  }

  lemma ReportsStep(s: State, input: Input, now: Sample)
    ensures
      var t := Next(s, input, now);
      |Printed(s, input, now)| == t.reports - s.reports + if s.confirms == 2 && t.confirms == 3 then 1 else 0
    ensures s.confirms <= Next(s, input, now).confirms <= s.confirms + 1
  {
  }

  // ------------------------------------ when a slow leak of bytes is never confirmed

  /** Bytes rise by d every iteration; contexts jump for one iteration out of 33. */
  function Spiky(d: nat, i: nat): Sample {
    Sample(d * i, if i >= WARMUP && (i - WARMUP) % 33 == 0 then CTX_SLACK + 1 else 0, false, false)
  }

  function SpikyRun(d: nat, n: nat): seq<Iteration> {
    seq(n, i requires 0 <= i < n => Iteration([], Spiky(d, i)))
  }

  /** After n iterations of the spiky run: m iterations since the last baseline. */
  ghost predicate SpikyState(s: State, d: nat, n: nat) {
    && s.confirms == 0
    && (n >= WARMUP ==>
          var m := (n - WARMUP) % 33;
          && s.base.bytes == d * (n - m - 1) && s.base.contexts == 0
          && s.suspectAt == (if m == 0 then 0 else n - m + 1))
  }

  lemma NextPlaceInCycle(x: nat)
    ensures (x + 1) % 33 == if x % 33 == 32 then 0 else x % 33 + 1
  {
  }

  lemma RiseSince(d: nat, n: nat, m: nat)
    requires m < n && m <= 32
    ensures d * n - d * (n - m - 1) == d * (m + 1) <= 33 * d
  {
    assert 33 * d == d * (m + 1) + d * (32 - m);
  }

  lemma SpikyStep(s: State, d: nat, n: nat)
    requires 33 * d <= SLACK && n >= WARMUP && Ok(s, n) && SpikyState(s, d, n)
    ensures SpikyState(Next(s, [], Spiky(d, n)), d, n + 1)
  {
    var m := (n - WARMUP) % 33;
    NextPlaceInCycle(n - WARMUP);
    RiseSince(d, n, m);
    assert !Exceeds(Bytes, Spiky(d, n), s.base);
  }

  lemma SpikyWarmup(s: State, d: nat, n: nat)
    requires n < WARMUP && Ok(s, n)
    ensures SpikyState(Next(s, [], Spiky(d, n)), d, n + 1)
  {
  }

  lemma {:induction false} SpikyHidesIt(d: nat, k: nat, n: nat)
    requires 33 * d <= SLACK && n <= k
    ensures SpikyState(After(Spiky(d, 0), SpikyRun(d, k), n), d, n)
  {
    hide After, Next, Spiky, SpikyState;
    var its := SpikyRun(d, k);
    if n > 0 {
      var s := After(Spiky(d, 0), its, n - 1);
      SpikyHidesIt(d, k, n - 1);
      AfterStep(Spiky(d, 0), its, n - 1);
      RunOk(Spiky(d, 0), its, n - 1);
      if n > WARMUP {
        SpikyStep(s, d, n - 1);
      } else {
        SpikyWarmup(s, d, n - 1);
      }
    } else {
      SpikyStart(d, its);
    }
  }

  lemma SpikyStart(d: nat, its: seq<Iteration>)
    ensures SpikyState(After(Spiky(d, 0), its, 0), d, 0)
  {
  }

  ghost predicate ConfirmedInTime(first: Sample, its: seq<Iteration>, g: Gauge, d: nat, n: nat)
    requires d > 0
  {
    |its| >= WARMUP + n * Period(g, d) ==> Run(first, its).confirms >= n
  }

  /** Rising bytes are confirmed in time, whatever contexts do. */
  ghost predicate AlwaysConfirmed(d: nat)
    requires d > 0
  {
    forall first: Sample, its: seq<Iteration>, n: nat :: Rises(its, Bytes, d) ==> ConfirmedInTime(first, its, Bytes, d, n)
  }

  lemma SpikyRunRises(d: nat, k: nat)
    ensures Rises(SpikyRun(d, k), Bytes, d)
  {
    forall i | WARMUP <= i < k
      ensures d * i >= d * (i - 1) + d
    {
    }
  }

  lemma FastLeaksAreConfirmed(first: Sample, its: seq<Iteration>, d: nat, n: nat)
    requires 33 * d > SLACK && Rises(its, Bytes, d)
    ensures ConfirmedInTime(first, its, Bytes, d, n)
  {
    if |its| >= WARMUP + n * Period(Bytes, d) {
      assert SLACK / d <= CONFIRM;
      RisingIsConfirmed(first, its, Bytes, d, n);
    }
  }

  lemma SlowLeakIsHidden(d: nat)
    requires 0 < 33 * d <= SLACK
    ensures !AlwaysConfirmed(d)
  {
    var k := WARMUP + 1 * Period(Bytes, d);
    var its := SpikyRun(d, k);
    SpikyRunRises(d, k);
    SpikyHidesIt(d, k, k);
    assert its[..k] == its;
    assert !ConfirmedInTime(Spiky(d, 0), its, Bytes, d, 1);
  }

  /** A leak of d bytes an iteration cannot be hidden exactly when 33 iterations of it exceed the slack. */
  lemma SlowLeaksCanHide(d: nat)
    requires d > 0
    ensures AlwaysConfirmed(d) <==> 33 * d > 262_144
  {
    if 33 * d > SLACK {
      forall first: Sample, its: seq<Iteration>, n: nat | Rises(its, Bytes, d)
        ensures ConfirmedInTime(first, its, Bytes, d, n)
      {
        FastLeaksAreConfirmed(first, its, d, n);
      }
    } else {
      SlowLeakIsHidden(d);
    }
  }
}
