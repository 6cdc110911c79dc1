/**
  Bounding every corpus so that seed replay leaves time to mutate: Autocap and Tune of
  go/internal/corpus/autocap.go, and what a cap they decide on does when it is applied
  (corpusAutocap in go/cmd/pgfuzz/main.go).  float64 is taken as real.
*/
module Autocap {

  import opened Archives
  import opened Minimize
  import opened Options

  datatype TargetLog = TargetLog(
    budget: nat, files: nat, inited: Option<nat>, done: Option<nat>, replayRate: nat, rate: nat, newUnits: nat)

  /** Replay consumed the whole slice: the run ended where it started. */
  predicate Locked(d: TargetLog) {
    d.inited.Some? && d.done.Some? && d.inited == d.done
  }

  datatype AutocapOptions = AutocapOptions(
    fraction: real, warnFraction: real, floor: int, all: bool, skip: set<string>)

  datatype CapDecision = CapDecision(
    target: string, files: nat, rate: nat, replaySeconds: real, budget: nat, cap: int, live: nat,
    locked: bool, atRisk: bool, act: bool)

  /** Go's conversion of a float to an int, which drops the fraction. */
  function Trunc(r: real): int {
    if r < 0.0 then -((-r).Floor) else r.Floor
  }

  /** The rate replay goes at: the one on the INITED line, or else the average. */
  function RateOf(d: TargetLog): nat {
    if d.replayRate == 0 then d.rate else d.replayRate
  }

  predicate Considered(t: string, d: TargetLog, o: AutocapOptions) {
    t !in o.skip && d.files != 0 && RateOf(d) != 0 && d.budget != 0
  }

  /** How many inputs replay gets through in its share of the budget. */
  function Affordable(d: TargetLog, o: AutocapOptions): real {
    o.fraction * d.budget as real * RateOf(d) as real
  }

  function CapOf(d: TargetLog, o: AutocapOptions): int {
    var cap := Trunc(Affordable(d, o));
    if cap < o.floor then o.floor else cap
  }

  function Decide(t: string, d: TargetLog, live: nat, o: AutocapOptions): CapDecision
    requires Considered(t, d, o)
  {
    var replay := d.files as real / RateOf(d) as real;
    var atRisk := replay > o.warnFraction * d.budget as real;
    var cap := CapOf(d, o);
    CapDecision(t, d.files, RateOf(d), replay, d.budget, cap, live, Locked(d), atRisk,
                (Locked(d) || atRisk || o.all) && live > cap)
  }

  /** The decisions for these targets of a log, in their order. */
  function Decisions(ts: seq<string>, per: map<string, TargetLog>, live: string -> nat, o: AutocapOptions):
      seq<CapDecision>
    requires forall t :: t in ts ==> t in per
  {
    if ts == [] then []
    else
      (if Considered(ts[0], per[ts[0]], o) then [Decide(ts[0], per[ts[0]], live(ts[0]), o)] else []) +
      Decisions(ts[1..], per, live, o)
  }

  /** Replaying n inputs at this rate takes no longer than that fraction of the budget. */
  predicate Fits(n: int, rate: nat, fraction: real, budget: nat)
    requires rate > 0
  {
    n as real / rate as real <= fraction * budget as real
  }

  /** The cap is the floor, or else the largest number of inputs whose replay fits its share of the budget. */
  ghost predicate LargestThatFits(cap: int, rate: nat, budget: nat, o: AutocapOptions)
    requires rate > 0
  {
    cap >= o.floor && forall n: int :: n > o.floor ==> (n <= cap <==> Fits(n, rate, o.fraction, budget))
  }

  /** A target that is not skipped, whose log shows a corpus, a budget and some rate. */
  predicate Concerns(t: string, d: TargetLog, o: AutocapOptions) {
    t !in o.skip && d.files > 0 && d.budget > 0 && d.replayRate + d.rate > 0
  }

  /** What a decision says of its target's log, in the log's own terms. */
  ghost predicate Describes(dec: CapDecision, t: string, d: TargetLog, live: nat, o: AutocapOptions) {
    && Concerns(t, d, o)
    && dec.target == t && dec.files == d.files && dec.budget == d.budget && dec.live == live
    && dec.rate > 0 && dec.rate == (if d.replayRate > 0 then d.replayRate else d.rate)
    && dec.replaySeconds * dec.rate as real == d.files as real
    && (dec.locked <==> d.inited.Some? && d.done.Some? && d.inited.value == d.done.value)
    && (dec.atRisk <==> !Fits(d.files, dec.rate, o.warnFraction, d.budget))
    && (dec.act <==> (dec.locked || dec.atRisk || o.all) && dec.live > dec.cap)
    && (o.fraction >= 0.0 ==> LargestThatFits(dec.cap, dec.rate, d.budget, o))
  }

  method Autocap(ts: seq<string>, per: map<string, TargetLog>, live: string -> nat, o: AutocapOptions)
      returns (out: seq<CapDecision>)
    requires forall t :: t in ts ==> t in per
    ensures out == Decisions(ts, per, live, o)
    ensures
      forall dec :: dec in out ==>
        dec.target in ts && Describes(dec, dec.target, per[dec.target], live(dec.target), o)
    ensures
      forall t :: t in ts && Concerns(t, per[t], o) ==> exists dec :: dec in out && dec.target == t
  {
    hide Decide, Decisions, Describes, Concerns;
    out := [];
    assert ts[0..] == ts;
    for i := 0 to |ts|
      invariant Decisions(ts, per, live, o) == out + Decisions(ts[i..], per, live, o)
    {
      DecisionsFrom(ts, i, per, live, o);
      var t, d := ts[i], per[ts[i]];
      if t in o.skip {
        continue;
      }
      var rate := d.replayRate;
      if rate == 0 {
        rate := d.rate;
      }
      if d.files == 0 || rate == 0 || d.budget == 0 {
        continue;
      }
      var dec := Judge(t, d, rate, live(t), o);
      out := out + [dec];
    }
    DecisionsFrom(ts, |ts|, per, live, o);
    DecisionsDescribe(ts, per, live, o);
  }

  lemma DecisionsDescribe(ts: seq<string>, per: map<string, TargetLog>, live: string -> nat, o: AutocapOptions)
    requires forall t :: t in ts ==> t in per
    ensures
      forall dec :: dec in Decisions(ts, per, live, o) ==>
        dec.target in ts && Describes(dec, dec.target, per[dec.target], live(dec.target), o)
    ensures
      forall t :: t in ts && Concerns(t, per[t], o) ==>
        exists dec :: dec in Decisions(ts, per, live, o) && dec.target == t
  {
    hide Decide, Decisions, Describes, Considered, Concerns;
    var out := Decisions(ts, per, live, o);
    forall dec | dec in out
      ensures dec.target in ts && Describes(dec, dec.target, per[dec.target], live(dec.target), o)
    {
      DecisionsAre(ts, per, live, o, dec);
      var t :| t in ts && Considered(t, per[t], o) && dec == Decide(t, per[t], live(t), o);
      DecideDescribes(t, per[t], live(t), o);
    }
    forall t | t in ts && Concerns(t, per[t], o)
      ensures exists dec :: dec in out && dec.target == t
    {
      ConcernIsConsidered(t, per[t], o);
      DecisionsAre(ts, per, live, o, Decide(t, per[t], live(t), o));
      DecideDescribes(t, per[t], live(t), o);
      assert Decide(t, per[t], live(t), o) in out;
    }
  }

  lemma ConcernIsConsidered(t: string, d: TargetLog, o: AutocapOptions)
    requires Concerns(t, d, o)
    ensures Considered(t, d, o)
  {
  }

  lemma DecideDescribes(t: string, d: TargetLog, live: nat, o: AutocapOptions)
    requires Considered(t, d, o)
    ensures Describes(Decide(t, d, live, o), t, d, live, o) && Decide(t, d, live, o).target == t
  {
    if o.fraction >= 0.0 {
      CapIsLargest(d, o);
    }
  }

  lemma CapIsLargest(d: TargetLog, o: AutocapOptions)
    requires RateOf(d) > 0 && o.fraction >= 0.0
    ensures LargestThatFits(CapOf(d, o), RateOf(d), d.budget, o)
  {
    ProductIsNonNegative(o.fraction, d.budget as real);
    ProductIsNonNegative(o.fraction * d.budget as real, RateOf(d) as real);
    TruncIsBelow(Affordable(d, o));
    hide Affordable, Trunc;
    forall n: int | n > o.floor
      ensures n <= CapOf(d, o) <==> Fits(n, RateOf(d), o.fraction, d.budget)
    {
      FitsWhenAffordable(n, d, o);
      WholeBelow(n, Affordable(d, o), Trunc(Affordable(d, o)));
    }
  }

  lemma WholeBelow(n: int, r: real, whole: int)
    requires whole as real <= r < whole as real + 1.0
    ensures n <= whole <==> n as real <= r
  {
  }

  lemma FitsWhenAffordable(n: int, d: TargetLog, o: AutocapOptions)
    requires RateOf(d) > 0
    ensures Fits(n, RateOf(d), o.fraction, d.budget) <==> n as real <= Affordable(d, o)
  {
    SecondsOrInputs(n, RateOf(d), o.fraction * d.budget as real);
  }

  lemma DecisionsFrom(ts: seq<string>, i: nat, per: map<string, TargetLog>, live: string -> nat, o: AutocapOptions)
    requires i <= |ts| && forall t :: t in ts ==> t in per
    ensures
      Decisions(ts[i..], per, live, o) ==
      if i == |ts| then []
      else
        (if Considered(ts[i], per[ts[i]], o) then [Decide(ts[i], per[ts[i]], live(ts[i]), o)] else []) +
        Decisions(ts[i + 1..], per, live, o)
  {
    if i < |ts| {
      assert ts[i..][1..] == ts[i + 1..];
    }
  }

  method Judge(t: string, d: TargetLog, rate: nat, live: nat, o: AutocapOptions) returns (dec: CapDecision)
    requires Considered(t, d, o) && rate == RateOf(d)
    ensures dec == Decide(t, d, live, o)
  {
    var replay := d.files as real / rate as real;
    var atRisk := replay > o.warnFraction * d.budget as real;
    var share := o.fraction * d.budget as real;
    var cap := Trunc(share * rate as real);
    assert rate as real == RateOf(d) as real;
    assert cap == Trunc(Affordable(d, o));
    if cap < o.floor {
      cap := o.floor;
    }
    assert cap == CapOf(d, o);
    var act := (Locked(d) || atRisk || o.all) && live > cap;
    dec := CapDecision(t, d.files, rate, replay, d.budget, cap, live, Locked(d), atRisk, act);
  }

  /** Who is decided on, and how: every target of the log that is considered, and nobody else. */
  lemma {:induction false} DecisionsAre(ts: seq<string>, per: map<string, TargetLog>, live: string -> nat,
                                        o: AutocapOptions, d: CapDecision)
    requires forall t :: t in ts ==> t in per
    ensures
      d in Decisions(ts, per, live, o) <==>
      exists t :: t in ts && Considered(t, per[t], o) && d == Decide(t, per[t], live(t), o)
  {
    hide Decide, Considered;
    if ts != [] {
      DecisionsAre(ts[1..], per, live, o, d);
      assert forall t :: t in ts <==> t == ts[0] || t in ts[1..];
    }
  }

  // ------------------------------------------------------------------- the cap applied

  lemma TruncIsBelow(r: real)
    requires r >= 0.0
    ensures Trunc(r) as real <= r < Trunc(r) as real + 1.0
  {
  }

  /** count inputs at this rate take no longer than their share: the same, said two ways. */
  lemma SecondsOrInputs(count: int, rate: nat, share: real)
    requires rate > 0
    ensures count as real / rate as real <= share <==> count as real <= share * rate as real
  {
    var q, r := count as real / rate as real, rate as real;
    assert q * r == count as real;
    if q <= share {
      assert q * r <= share * r;
    } else {
      assert q * r > share * r;
    }
  }

  /**
    Replaying as many inputs as the cap allows fits its share exactly when the floor itself does and
    the conversion to an int does not round up, which it never does for a share that is not negative.
  */
  lemma FullCapFitsExactlyWhen(t: string, d: TargetLog, o: AutocapOptions)
    requires Considered(t, d, o)
    ensures
      CapOf(d, o) as real / RateOf(d) as real <= o.fraction * d.budget as real <==>
      o.floor as real <= Affordable(d, o) && Trunc(Affordable(d, o)) as real <= Affordable(d, o)
    ensures o.fraction >= 0.0 ==> Trunc(Affordable(d, o)) as real <= Affordable(d, o)
  {
    SecondsOrInputs(CapOf(d, o), RateOf(d), o.fraction * d.budget as real);
    if o.fraction >= 0.0 {
      ProductIsNonNegative(o.fraction, d.budget as real);
      ProductIsNonNegative(o.fraction * d.budget as real, RateOf(d) as real);
      TruncIsBelow(Affordable(d, o));
    }
  }

  lemma ProductIsNonNegative(a: real, b: real)
    requires a >= 0.0 && b >= 0.0
    ensures a * b >= 0.0
  {
  }

  /**
    After the cap, with nothing failing, at most the cap's number of inputs are left, and replaying
    them fits the share of the budget unless the cap was raised to the floor.
  */
  lemma WhatIsLeftFits(t: string, d: TargetLog, o: AutocapOptions, before: Disk, later: Disk, maxLen: int,
                       bak: string, os: CapOs, archived: nat, err: bool, kept: set<string>)
    requires Considered(t, d, o) && CapOf(d, o) > 0
    requires CapOutcome(before, later, t, maxLen, CapOf(d, o), bak, os, archived, err, kept)
    requires t in before.corpus && NoFault(os)
    ensures |Inputs(later, t)| <= CapOf(d, o)
    ensures CapOf(d, o) != o.floor ==> |Inputs(later, t)| as real / RateOf(d) as real <= o.fraction * d.budget as real
  {
    hide CapOutcome, Inputs;
    CapKeepsTheSmallest(before, later, t, maxLen, CapOf(d, o), bak, os, archived, err, kept);
    FullCapFitsExactlyWhen(t, d, o);
    SecondsOrInputs(CapOf(d, o), RateOf(d), o.fraction * d.budget as real);
    SecondsOrInputs(|Inputs(later, t)|, RateOf(d), o.fraction * d.budget as real);
    if CapOf(d, o) != o.floor {
      assert CapOf(d, o) == Trunc(Affordable(d, o)) > o.floor;
      assert Affordable(d, o) >= 0.0;
      TruncIsBelow(Affordable(d, o));
    }
  }

  /**
    Having acted and capped, with nothing failing, a second look at the same log acts again exactly
    when the cap was not positive: applyCap takes that for no cap at all.
  */
  lemma ActsAgainExactlyWhen(t: string, d: TargetLog, o: AutocapOptions, before: Disk, later: Disk, maxLen: int,
                             bak: string, os: CapOs, archived: nat, err: bool, kept: set<string>)
    requires Considered(t, d, o) && t in before.corpus && NoFault(os)
    requires Decide(t, d, |Inputs(before, t)|, o).act
    requires CapOutcome(before, later, t, maxLen, CapOf(d, o), bak, os, archived, err, kept)
    ensures Decide(t, d, |Inputs(later, t)|, o).act <==> CapOf(d, o) <= 0
  {
    hide CapOutcome;
    if CapOf(d, o) > 0 {
      CapKeepsTheSmallest(before, later, t, maxLen, CapOf(d, o), bak, os, archived, err, kept);
    } else {
      CapDidNothing(before, later, t, maxLen, CapOf(d, o), bak, os, archived, err, kept);
    }
  }

  /** And that happens: with no floor, a budget too short for one input gives a cap of none. */
  lemma ACapCanBeZero()
    ensures
      var d := TargetLog(1, 10, Some(10), Some(10), 1, 1, 0);
      var o := AutocapOptions(0.33, 0.66, 0, false, {});
      Considered("a_fuzzer", d, o) && CapOf(d, o) == 0 && Decide("a_fuzzer", d, 5, o).act
  {
    assert 0.33 * 1.0 * 1.0 == 0.33;
  }

  /**
    The caller records live - After as removed, having counted live before.  After a cap that met
    no error that is what was archived, exactly when the last count could read the corpus or found
    it empty.
  */
  lemma RecordedExactlyWhen(before: Disk, later: Disk, t: string, o: MinOptions, stamps: (string, string), pid: string,
                            os: RunOs, res: MinResult, kept: set<string>)
    requires MinimizeOutcome(before, later, t, o, stamps, pid, os, res, kept)
    requires res.what.CapOnly? && !res.err
    ensures |Inputs(before, t)| - res.after == res.archived <==> os.seesAfter || Inputs(later, t) == {}
  {
    hide CapOutcome, Capped;
    var maxLen := if o.maxLen == 0 then 4096 else o.maxLen;
    var bak := t + CAPPED + stamps.1;
    if o.cap > 0 {
      NoErrorMeansCapped(before, later, t, maxLen, o.cap, bak, os.cap, res.archived, kept);
      CappedIsSubset(Inputs(before, t), Inputs(later, t), kept, maxLen, o.cap, os.cap);
    } else {
      CapDidNothing(before, later, t, maxLen, o.cap, bak, os.cap, res.archived, res.err, kept);
    }
    RestOf(Inputs(before, t), Inputs(later, t));
  }

  /** And that happens: of two inputs one is archived, and with the last count failing two are recorded. */
  lemma RecordedCanBeTooMuch(stamp: string)
    ensures
      var before, later := TwoInputs(), OneCapped("t" + CAPPED + stamp);
      var os := OnlyLastCountFails();
      var res := MinResult(2, 0, 1, What.CapOnly, false);
      && MinimizeOutcome(before, later, "t", MinOptions(0, 1, true), ("", stamp), "", os, res, {"a"})
      && |Inputs(before, "t")| - res.after == 2 && res.archived == 1
  {
    hide Dropped, Capped;
    var before, bak, os := TwoInputs(), "t" + CAPPED + stamp, OnlyLastCountFails();
    assert |{"a", "b"}| == 2 && Inputs(before, "t") == {"a", "b"};
    OneIsDropped(bak);
  }

  lemma OneIsDropped(bak: string)
    ensures
      var before, later := TwoInputs(), OneCapped(bak);
      Dropped(before.(backups := Made(before.backups, bak)), later, "t", 4096, 1, bak, OnlyLastCountFails().cap, 1, {"a"})
  {
    hide Capped;
    var before, os := TwoInputs(), OnlyLastCountFails();
    var made := before.(backups := Made(before.backups, bak));
    assert {"a", "b"} - {"a"} == {"b"} && |{"b"}| == 1;
    assert {"a", "b"} - {"b"} == {"a"} && {} + {"b"} == {"b"};
    var moved, later := Moved(made, "t", bak, {"b"}), OneCapped(bak);
    assert moved.corpus == later.corpus && moved.backups == later.backups;
    TheSmallerIsKept();
  }

  lemma TheSmallerIsKept()
    ensures Capped({"a", "b"}, {"a"}, {"a"}, 4096, 1, OnlyLastCountFails().cap)
  {
    var os := OnlyLastCountFails().cap;
    assert Short({"a", "b"}, 4096, os.size, os.info) == {"a", "b"} && |{"a", "b"}| == 2;
  }

  function TwoInputs(): Disk {
    Disk(map["t" := Dir({"a", "b"}, {})], map[])
  }

  function OneCapped(bak: string): Disk {
    Disk(map["t" := Dir({"a"}, {})], map[bak := Dir({"b"}, {})])
  }

  /** Every call works except the count at the end; b is the larger file. */
  function OnlyLastCountFails(): RunOs {
    var cap := CapOs(true, true, _ => true, x => if x == "b" then 2 else 1, _ => true);
    RunOs(true, true, true, None, true, true, EMPTY, true, None, true, true, cap, false)
  }

  lemma NoErrorMeansCapped(d: Disk, e: Disk, t: string, maxLen: int, cap: int, bak: string, os: CapOs,
                           archived: nat, kept: set<string>)
    requires CapOutcome(d, e, t, maxLen, cap, bak, os, archived, false, kept) && cap > 0
    ensures Capped(Inputs(d, t), Inputs(e, t), kept, maxLen, cap, os) && archived == |Inputs(d, t) - Inputs(e, t)|
  {
    hide Dropped;
    CapDid(d, e, t, maxLen, cap, bak, os, archived, false, kept);
  }

  lemma CappedIsSubset(before: set<string>, later: set<string>, kept: set<string>, maxLen: int, cap: int, os: CapOs)
    requires Capped(before, later, kept, maxLen, cap, os)
    ensures later <= before
  {
  }

  lemma RestOf(a: set<string>, b: set<string>)
    requires b <= a
    ensures |a - b| == |a| - |b| && (|b| == 0 <==> b == {})
  {
    assert a == b + (a - b);
  }

  // ------------------------------------------------------------------- the budgets

  datatype TuneOptions = TuneOptions(high: int, low: int, baseBudget: int, maxBudget: int)

  type Key = (string, string)

  function Min(a: int, b: int): int {
    if a < b then a else b
  }

  function Max(a: int, b: int): int {
    if a > b then a else b
  }

  function Raised(have: int, o: TuneOptions): int {
    Min(Trunc(have as real * 1.5), o.maxBudget)
  }

  function Lowered(have: int, o: TuneOptions): int {
    Max(Trunc(have as real / 1.5), o.baseBudget)
  }

  /** What a round makes of a budget; a locked round, or one between the thresholds, nothing. */
  function Wanted(d: TargetLog, have: int, o: TuneOptions): int {
    if d.budget == 0 || Locked(d) then have
    else if d.newUnits >= o.high then Raised(have, o)
    else if d.newUnits < o.low then Lowered(have, o)
    else have
  }

  function Have(cur: map<Key, int>, ws: string, t: string, d: TargetLog): int {
    if (ws, t) in cur then cur[(ws, t)] else d.budget
  }

  datatype BudgetChange = BudgetChange(target: string, was: int, want: int, found: nat)

  /** The change a round makes to target t, if it makes one. */
  function ChangeOf(cur: map<Key, int>, ws: string, t: string, d: TargetLog, o: TuneOptions): Option<BudgetChange> {
    var have := Have(cur, ws, t, d);
    if Wanted(d, have, o) == have then None else Some(BudgetChange(t, have, Wanted(d, have, o), d.newUnits))
  }

  ghost predicate Covers(ts: seq<string>, per: map<string, TargetLog>) {
    (forall t :: t in ts <==> t in per) && forall i, j :: 0 <= i < j < |ts| ==> ts[i] != ts[j]
  }

  /** The table now follows from the table before, target by target. */
  ghost predicate TunedTo(cur: map<Key, int>, now: map<Key, int>, ws: string, ts: seq<string>,
                          per: map<string, TargetLog>, o: TuneOptions)
    requires forall t :: t in ts ==> t in per
  {
    forall k: Key :: TunedAt(cur, now, ws, ts, per, o, k)
  }

  ghost predicate TunedAt(cur: map<Key, int>, now: map<Key, int>, ws: string, ts: seq<string>,
                          per: map<string, TargetLog>, o: TuneOptions, k: Key)
    requires forall t :: t in ts ==> t in per
  {
    if k.0 == ws && k.1 in ts && ChangeOf(cur, ws, k.1, per[k.1], o).Some?
    then k in now && now[k] == ChangeOf(cur, ws, k.1, per[k.1], o).value.want
    else (k in now <==> k in cur) && (k in now ==> now[k] == cur[k])
  }

  /** The changes of a round, in order of its targets. */
  function Changes(cur: map<Key, int>, ws: string, ts: seq<string>, per: map<string, TargetLog>, o: TuneOptions):
      seq<BudgetChange>
    requires forall t :: t in ts ==> t in per
  {
    if ts == [] then []
    else
      ListOf(ChangeOf(cur, ws, ts[0], per[ts[0]], o)) + Changes(cur, ws, ts[1..], per, o)
  }

  function ListOf(c: Option<BudgetChange>): seq<BudgetChange> {
    if c.Some? then [c.value] else []
  }

  /** The table after a change to target t, if there is one. */
  function Recorded(now: map<Key, int>, ws: string, t: string, c: Option<BudgetChange>): map<Key, int> {
    if c.Some? then now[(ws, t) := c.value.want] else now
  }

  /** more is half as much again as have, without the fraction. */
  predicate HalfMore(have: nat, more: int) {
    2 * more <= 3 * have < 2 * more + 2
  }

  /** less is two thirds of have, without the fraction. */
  predicate ThirdLess(have: nat, less: int) {
    3 * less <= 2 * have < 3 * less + 3
  }

  /** Who is raised, who is lowered, by how much, and who is left alone. */
  ghost predicate Deserves(d: TargetLog, have: int, want: int, o: TuneOptions) {
    var told := d.budget != 0 && !Locked(d);
    && (told && d.newUnits >= o.high && have >= 0 ==>
          want <= o.maxBudget && exists w :: HalfMore(have, w) && (want == w || want == o.maxBudget < w))
    && (told && d.newUnits < o.low && d.newUnits < o.high && have >= 0 ==>
          want >= o.baseBudget && exists w :: ThirdLess(have, w) && (want == w || want == o.baseBudget > w))
    && (!told || o.low <= d.newUnits < o.high ==> want == have)
    && (0 <= have && o.baseBudget <= have <= o.maxBudget ==>
          (want > have ==> d.newUnits >= o.high) && (want < have ==> d.newUnits < o.low && d.newUnits < o.high))
  }

  /** Of every target of the round; nobody else's budget changes. */
  ghost predicate Deserved(cur: map<Key, int>, now: map<Key, int>, ws: string, per: map<string, TargetLog>,
                           o: TuneOptions) {
    && (forall t :: t in per ==> Deserves(per[t], Have(cur, ws, t, per[t]), Have(now, ws, t, per[t]), o))
    && (forall k: Key :: k.0 != ws || k.1 !in per ==> (k in now <==> k in cur) && (k in now ==> now[k] == cur[k]))
    && (forall k: Key :: k in cur ==> k in now)
  }

  method Tune(ws: string, ts: seq<string>, per: map<string, TargetLog>, cur: map<Key, int>, o: TuneOptions)
      returns (now: map<Key, int>, changed: seq<BudgetChange>)
    requires Covers(ts, per)
    ensures TunedTo(cur, now, ws, ts, per, o)
    ensures Deserved(cur, now, ws, per, o)
    ensures changed == Changes(cur, ws, ts, per, o)
    ensures ChangesTell(cur, now, ws, ts, per, changed)
  {
    hide ChangeOf, TunedTo, Have, Changes, Recorded, ListOf, Deserved, ChangesTell;
    now, changed := cur, [];
    TunedNothing(cur, ws, per, o);
    assert ts[..0] == [] && ts[0..] == ts;
    for i := 0 to |ts|
      invariant TunedTo(cur, now, ws, ts[..i], per, o)
      invariant Changes(cur, ws, ts, per, o) == changed + Changes(cur, ws, ts[i..], per, o)
    {
      ChangesFrom(cur, ws, ts, i, per, o);
      TunedNext(cur, now, ws, ts, i, per, o);
      var t := ts[i];
      var change := TuneTarget(ws, t, per[t], now, cur, o);
      now := Recorded(now, ws, t, change);
      changed := changed + ListOf(change);
    }
    assert ts[..|ts|] == ts;
    ChangesFrom(cur, ws, ts, |ts|, per, o);
    TunedIsDeserved(cur, now, ws, ts, per, o);
    TunedChangesTell(cur, now, ws, ts, per, o);
  }

  lemma WantedIsDeserved(d: TargetLog, have: int, o: TuneOptions)
    ensures Deserves(d, have, Wanted(d, have, o), o)
  {
    if have >= 0 {
      HalfMoreIs(have);
      ThirdLessIs(have);
    }
  }

  lemma HalfMoreIs(have: nat)
    ensures HalfMore(have, Trunc(have as real * 1.5))
  {
  }

  lemma ThirdLessIs(have: nat)
    ensures ThirdLess(have, Trunc(have as real / 1.5))
  {
  }

  lemma TunedIsDeserved(cur: map<Key, int>, now: map<Key, int>, ws: string, ts: seq<string>,
                        per: map<string, TargetLog>, o: TuneOptions)
    requires Covers(ts, per) && TunedTo(cur, now, ws, ts, per, o)
    ensures Deserved(cur, now, ws, per, o)
  {
    hide Deserves, Wanted;
    forall t | t in per
      ensures Deserves(per[t], Have(cur, ws, t, per[t]), Have(now, ws, t, per[t]), o)
    {
      assert TunedAt(cur, now, ws, ts, per, o, (ws, t));
      WantedIsDeserved(per[t], Have(cur, ws, t, per[t]), o);
    }
    forall k: Key
      ensures k.0 != ws || k.1 !in per ==> (k in now <==> k in cur) && (k in now ==> now[k] == cur[k])
      ensures k in cur ==> k in now
    {
      assert TunedAt(cur, now, ws, ts, per, o, k);
    }
  }

  /** One change is listed for each target whose budget is not what it was, with both figures. */
  ghost predicate ChangesTell(cur: map<Key, int>, now: map<Key, int>, ws: string, ts: seq<string>,
                              per: map<string, TargetLog>, changed: seq<BudgetChange>) {
    forall c: BudgetChange ::
      c in changed <==>
      c.target in ts && c.target in per && c.found == per[c.target].newUnits &&
      c.was == Have(cur, ws, c.target, per[c.target]) && c.want == Have(now, ws, c.target, per[c.target]) &&
      c.was != c.want
  }

  lemma {:induction false} ChangesAre(cur: map<Key, int>, ws: string, ts: seq<string>, per: map<string, TargetLog>,
                                      o: TuneOptions, c: BudgetChange)
    requires forall t :: t in ts ==> t in per
    ensures
      c in Changes(cur, ws, ts, per, o) <==>
      c.target in ts && ChangeOf(cur, ws, c.target, per[c.target], o) == Some(c)
  {
    hide Have, Wanted;
    if ts != [] {
      ChangesAre(cur, ws, ts[1..], per, o, c);
      assert c.target in ts <==> c.target == ts[0] || c.target in ts[1..];
    }
  }

  lemma TunedChangesTell(cur: map<Key, int>, now: map<Key, int>, ws: string, ts: seq<string>,
                         per: map<string, TargetLog>, o: TuneOptions)
    requires Covers(ts, per) && TunedTo(cur, now, ws, ts, per, o)
    ensures ChangesTell(cur, now, ws, ts, per, Changes(cur, ws, ts, per, o))
  {
    hide Wanted, Changes;
    forall c: BudgetChange
      ensures
        c in Changes(cur, ws, ts, per, o) <==>
        c.target in ts && c.target in per && c.found == per[c.target].newUnits &&
        c.was == Have(cur, ws, c.target, per[c.target]) && c.want == Have(now, ws, c.target, per[c.target]) &&
        c.was != c.want
    {
      ChangesAre(cur, ws, ts, per, o, c);
      assert TunedAt(cur, now, ws, ts, per, o, (ws, c.target));
    }
  }

  /** The body of the loop: have, want, and whether they differ. */
  method TuneTarget(ws: string, t: string, d: TargetLog, now: map<Key, int>, ghost cur: map<Key, int>, o: TuneOptions)
      returns (change: Option<BudgetChange>)
    requires Have(now, ws, t, d) == Have(cur, ws, t, d)
    ensures change == ChangeOf(cur, ws, t, d, o)
  {
    hide Wanted;
    var have := Have(now, ws, t, d);
    var want := Wanted(d, have, o);
    change := if want != have then Some(BudgetChange(t, have, want, d.newUnits)) else None;
  }

  lemma ChangesFrom(cur: map<Key, int>, ws: string, ts: seq<string>, i: nat,
                    per: map<string, TargetLog>, o: TuneOptions)
    requires i <= |ts| && forall t :: t in ts ==> t in per
    ensures
      Changes(cur, ws, ts[i..], per, o) ==
      if i == |ts| then []
      else ListOf(ChangeOf(cur, ws, ts[i], per[ts[i]], o)) + Changes(cur, ws, ts[i + 1..], per, o)
  {
    hide ChangeOf;
    if i < |ts| {
      assert ts[i..][1..] == ts[i + 1..];
    }
  }

  lemma TunedNothing(cur: map<Key, int>, ws: string, per: map<string, TargetLog>, o: TuneOptions)
    ensures TunedTo(cur, cur, ws, [], per, o)
  {
  }

  lemma TunedNext(cur: map<Key, int>, now: map<Key, int>, ws: string, ts: seq<string>, i: nat,
                  per: map<string, TargetLog>, o: TuneOptions)
    requires Covers(ts, per) && i < |ts| && TunedTo(cur, now, ws, ts[..i], per, o)
    ensures
      var t := ts[i];
      var c := ChangeOf(cur, ws, t, per[t], o);
      && Have(now, ws, t, per[t]) == Have(cur, ws, t, per[t])
      && TunedTo(cur, Recorded(now, ws, t, c), ws, ts[..i + 1], per, o)
  {
    hide ChangeOf, TunedAt;
    var t := ts[i];
    var next := Recorded(now, ws, t, ChangeOf(cur, ws, t, per[t], o));
    var done := ts[..i + 1];
    assert done == ts[..i] + [t] && t !in ts[..i];
    assert TunedAt(cur, now, ws, ts[..i], per, o, (ws, t));
    NotTunedYet(cur, now, ws, ts[..i], per, o, t);
    forall k: Key
      ensures TunedAt(cur, next, ws, done, per, o, k)
    {
      assert TunedAt(cur, now, ws, ts[..i], per, o, k);
      TunedAtNext(cur, now, ws, ts[..i], t, per, o, k);
    }
  }

  lemma NotTunedYet(cur: map<Key, int>, now: map<Key, int>, ws: string, ts: seq<string>,
                    per: map<string, TargetLog>, o: TuneOptions, t: string)
    requires forall u :: u in ts ==> u in per
    requires t !in ts && t in per && TunedAt(cur, now, ws, ts, per, o, (ws, t))
    ensures Have(now, ws, t, per[t]) == Have(cur, ws, t, per[t])
  {
    assert (ws, t).1 == t;
  }

  lemma TunedAtNext(cur: map<Key, int>, now: map<Key, int>, ws: string, ts: seq<string>, t: string,
                    per: map<string, TargetLog>, o: TuneOptions, k: Key)
    requires t in per && t !in ts && forall u :: u in ts ==> u in per
    requires TunedAt(cur, now, ws, ts, per, o, k)
    ensures TunedAt(cur, Recorded(now, ws, t, ChangeOf(cur, ws, t, per[t], o)), ws, ts + [t], per, o, k)
  {
    hide ChangeOf;
    assert k == (ws, t) <==> k.0 == ws && k.1 == t;
  }

  /** Budgets that start within the bounds stay within them, in any workspace. */
  lemma TuneKeepsTheBounds(cur: map<Key, int>, now: map<Key, int>, ws: string, ts: seq<string>,
                           per: map<string, TargetLog>, o: TuneOptions)
    requires Covers(ts, per) && TunedTo(cur, now, ws, ts, per, o) && 0 <= o.baseBudget <= o.maxBudget
    requires forall k :: k in cur ==> o.baseBudget <= cur[k] <= o.maxBudget
    requires forall t :: t in per && (ws, t) !in cur ==> o.baseBudget <= per[t].budget <= o.maxBudget
    ensures forall k :: k in now ==> o.baseBudget <= now[k] <= o.maxBudget
  {
    forall k | k in now
      ensures o.baseBudget <= now[k] <= o.maxBudget
    {
      assert TunedAt(cur, now, ws, ts, per, o, k);
      if k.0 == ws && k.1 in ts {
        StaysWithin(per[k.1], Have(cur, ws, k.1, per[k.1]), o);
        assert k == (ws, k.1);
      }
    }
  }

  lemma StaysWithin(d: TargetLog, have: int, o: TuneOptions)
    requires 0 <= o.baseBudget <= have <= o.maxBudget
    ensures o.baseBudget <= Wanted(d, have, o) <= o.maxBudget
  {
  }

  /** Half of this is a whole number; what is dropped is dropped towards zero. */
  function EvenPart(n: int): int {
    if n < 0 then n + n % 2 else n - n % 2
  }

  lemma BackFromHalfMore(n: int)
    ensures Trunc(Trunc(n as real * 1.5) as real / 1.5) == EvenPart(n)
  {
    var k := EvenPart(n) / 2;
    assert n as real * 1.5 == (3 * k) as real + (n - 2 * k) as real * 1.5;
    assert Trunc(n as real * 1.5) == 3 * k + (n - 2 * k);
    assert (3 * k + (n - 2 * k)) as real / 1.5 == (2 * k) as real + (n - 2 * k) as real / 1.5;
  }

  /**
    A target that swings across both thresholds: a raise and then a cut bring its budget back to
    where it was, or one second below when that was odd; a raise that met the maximum is cut from
    there, and no cut goes below the base.  So it does not creep up.
  */
  lemma RaiseThenLower(have: int, o: TuneOptions)
    ensures
      var back := if Trunc(have as real * 1.5) <= o.maxBudget then EvenPart(have) else Trunc(o.maxBudget as real / 1.5);
      Lowered(Raised(have, o), o) == Max(back, o.baseBudget)
    ensures have >= 0 ==> Lowered(Raised(have, o), o) <= Max(have, o.baseBudget)
  {
    BackFromHalfMore(have);
    if have >= 0 && Trunc(have as real * 1.5) > o.maxBudget {
      CutIsBelow(have, o.maxBudget);
    }
  }

  lemma CutIsBelow(have: nat, most: int)
    requires most < Trunc(have as real * 1.5)
    ensures Trunc(most as real / 1.5) <= have
  {
    assert most as real < have as real * 1.5;
    assert most as real / 1.5 < have as real;
  }
}
