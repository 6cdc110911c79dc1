/**
  How long a campaign ran: the grouping of slices into runs and the span arithmetic of
  go/internal/finalreport/runtime.go.
*/
module Runtime {

  import opened Options

  /** A slice of the series: when it was logged, in nanoseconds, and the run id it carries, if any. */
  datatype Row = Row(at: int, runId: string, line: nat)

  /** RunGapMinutes, in nanoseconds; a gap of more splits. */
  const RUN_GAP: int := 60 * 60 * 1_000_000_000

  predicate Sorted(rows: seq<Row>) {
    forall i, j :: 0 <= i < j < |rows| ==> rows[i].at <= rows[j].at
  }

  function Concat(runs: seq<seq<Row>>): seq<Row> {
    if runs == [] then [] else runs[0] + Concat(runs[1..])
  }

  function Gap(rows: seq<Row>, i: nat): int
    requires 0 < i < |rows|
  {
    rows[i].at - rows[i - 1].at
  }

  /** One run: some slices, each starting within the gap of the one before. */
  predicate Unbroken(run: seq<Row>) {
    run != [] && forall i :: 0 < i < |run| ==> Gap(run, i) <= RUN_GAP
  }

  /** Consecutive runs are more than the gap apart. */
  predicate Apart(a: seq<Row>, b: seq<Row>) {
    a != [] && b != [] && b[0].at - a[|a| - 1].at > RUN_GAP
  }

  /** The rows cut into runs at the long gaps. */
  predicate CutInto(rows: seq<Row>, runs: seq<seq<Row>>) {
    && Concat(runs) == rows
    && (forall k :: 0 <= k < |runs| ==> Unbroken(runs[k]))
    && (forall k :: 0 < k < |runs| ==> Apart(runs[k - 1], runs[k]))
  }

  lemma {:induction false} ConcatSnoc(runs: seq<seq<Row>>, run: seq<Row>)
    ensures Concat(runs + [run]) == Concat(runs) + run
  {
    if runs == [] {
      assert Concat([run]) == run + Concat([]);
    } else {
      ConcatSnoc(runs[1..], run);
      assert (runs + [run])[1..] == runs[1..] + [run];
    }
  }

  method GroupByGap(rows: seq<Row>) returns (out: seq<seq<Row>>)
    ensures CutInto(rows, out)
  {
    hide CutInto;
    out := [];
    if |rows| == 0 {
      CutNone();
      return;
    }
    var cur := [rows[0]];
    CutOne(rows[0]);
    assert rows[..1] == [rows[0]] && out + [cur] == [cur];
    for i := 1 to |rows|
      invariant CutInto(rows[..i], out + [cur]) && cur != [] && cur[|cur| - 1] == rows[i - 1]
    {
      assert rows[..i + 1] == rows[..i] + [rows[i]];
      if rows[i].at - rows[i - 1].at > RUN_GAP {
        CutAgain(rows[..i], out, cur, rows[i]);
        out := out + [cur];
        cur := [rows[i]];
      } else {
        CutLonger(rows[..i], out, cur, rows[i]);
        cur := cur + [rows[i]];
      }
    }
    assert rows[..|rows|] == rows;
    out := out + [cur];
  }

  lemma CutNone()
    ensures CutInto([], [])
  {
  }

  lemma CutOne(r: Row)
    ensures CutInto([r], [[r]])
  {
    assert Concat([[r]]) == [r] + Concat([]);
  }

  lemma CutAgain(rows: seq<Row>, out: seq<seq<Row>>, cur: seq<Row>, r: Row)
    requires CutInto(rows, out + [cur]) && cur != [] && r.at - cur[|cur| - 1].at > RUN_GAP
    ensures CutInto(rows + [r], out + [cur] + [[r]])
  {
    hide Concat;
    ConcatSnoc(out + [cur], [r]);
    var runs := out + [cur] + [[r]];
    forall k | 0 < k < |runs|
      ensures Apart(runs[k - 1], runs[k])
    {
      assert k < |out| + 1 ==> Apart((out + [cur])[k - 1], (out + [cur])[k]);
    }
  }

  lemma CutLonger(rows: seq<Row>, out: seq<seq<Row>>, cur: seq<Row>, r: Row)
    requires CutInto(rows, out + [cur]) && cur != [] && r.at - cur[|cur| - 1].at <= RUN_GAP
    ensures CutInto(rows + [r], out + [cur + [r]])
  {
    hide Concat;
    ConcatSnoc(out, cur);
    ConcatSnoc(out, cur + [r]);
    assert Concat(out) + cur + [r] == Concat(out) + (cur + [r]);
    assert Unbroken((out + [cur])[|out|]);
    assert forall i :: 0 < i < |cur| ==> Gap(cur + [r], i) == Gap(cur, i);
    var runs := out + [cur + [r]];
    forall k | 0 <= k < |runs|
      ensures Unbroken(runs[k]) && (k > 0 ==> Apart(runs[k - 1], runs[k]))
    {
      assert Unbroken((out + [cur])[k]) && (k > 0 ==> Apart((out + [cur])[k - 1], (out + [cur])[k]));
    }
  }

  lemma ConcatNone()
    ensures Concat([]) == []
  {
  }

  /** The rows in front of the first long gap. */
  lemma FirstRunEndsAtAGap(rows: seq<Row>, runs: seq<seq<Row>>, i: nat)
    requires CutInto(rows, runs) && runs != []
    ensures |runs[0]| <= |rows| && rows[..|runs[0]|] == runs[0] && rows[|runs[0]|..] == Concat(runs[1..])
    ensures |runs| > 1 ==> |runs[0]| < |rows| && Gap(rows, |runs[0]|) > RUN_GAP
    ensures 0 < i < |runs[0]| ==> Gap(rows, i) <= RUN_GAP
    ensures |runs| == 1 ==> |runs[0]| == |rows|
  {
    assert rows == runs[0] + Concat(runs[1..]);
    if |runs| > 1 {
      assert Apart(runs[0], runs[1]);
      assert Concat(runs[1..]) == runs[1] + Concat(runs[1..][1..]);
    }
    if 0 < i < |runs[0]| {
      assert Gap(rows, i) == Gap(runs[0], i);
    }
  }

  lemma RestIsCut(rows: seq<Row>, runs: seq<seq<Row>>)
    requires CutInto(rows, runs) && runs != []
    ensures CutInto(Concat(runs[1..]), runs[1..])
  {
    forall k | 0 < k < |runs| - 1
      ensures Apart(runs[1..][k - 1], runs[1..][k])
    {
      assert Apart(runs[k], runs[k + 1]);
    }
  }

  /** There is only one way to cut the rows at the long gaps. */
  lemma {:induction false} OnlyOneCut(rows: seq<Row>, a: seq<seq<Row>>, b: seq<seq<Row>>)
    requires CutInto(rows, a) && CutInto(rows, b)
    ensures a == b
    decreases |a|
  {
    hide CutInto, Concat, Gap;
    if a == [] || b == [] {
      CutOfNothing(rows, a);
      CutOfNothing(rows, b);
    } else {
      FirstRunEndsAtAGap(rows, a, |b[0]|);
      FirstRunEndsAtAGap(rows, b, |a[0]|);
      FirstRunIsSome(rows, a);
      FirstRunIsSome(rows, b);
      assert |a[0]| == |b[0]|;
      RestIsCut(rows, a);
      RestIsCut(rows, b);
      OnlyOneCut(rows[|a[0]|..], a[1..], b[1..]);
      assert a == [a[0]] + a[1..] && b == [b[0]] + b[1..];
    }
  }

  lemma FirstRunIsSome(rows: seq<Row>, runs: seq<seq<Row>>)
    requires CutInto(rows, runs) && runs != []
    ensures runs[0] != []
  {
    assert Unbroken(runs[0]);
  }

  lemma CutOfNothing(rows: seq<Row>, runs: seq<seq<Row>>)
    requires CutInto(rows, runs)
    ensures rows == [] <==> runs == []
  {
    if runs != [] {
      assert Unbroken(runs[0]);
    }
  }

  /** A gap of exactly an hour does not split, one of a nanosecond more does. */
  lemma SplitsAfterAnHour(a: Row, b: Row, runs: seq<seq<Row>>)
    requires CutInto([a, b], runs)
    ensures runs == if b.at - a.at > 3_600_000_000_000 then [[a], [b]] else [[a, b]]
  {
    CutOne(a);
    assert [] + [[a]] == [[a]] && [a] + [b] == [a, b] && [[a]] + [[b]] == [[a], [b]];
    if b.at - a.at > RUN_GAP {
      CutAgain([a], [], [a], b);
      OnlyOneCut([a, b], runs, [[a], [b]]);
    } else {
      CutLonger([a], [], [a], b);
      assert [] + [[a, b]] == [[a, b]];
      OnlyOneCut([a, b], runs, [[a, b]]);
    }
  }

  // ------------------------------------------------------------------- spans

  function Span(run: seq<Row>): int
    requires run != []
  {
    run[|run| - 1].at - run[0].at
  }

  predicate AllSome(runs: seq<seq<Row>>) {
    forall k :: 0 <= k < |runs| ==> runs[k] != []
  }

  function Spans(runs: seq<seq<Row>>): int
    requires AllSome(runs)
  {
    if runs == [] then 0 else Span(runs[0]) + Spans(runs[1..])
  }

  function OuterGaps(runs: seq<seq<Row>>): int
    requires AllSome(runs)
  {
    if |runs| <= 1 then 0 else runs[1][0].at - runs[0][|runs[0]| - 1].at + OuterGaps(runs[1..])
  }

  lemma CutIsSome(rows: seq<Row>, runs: seq<seq<Row>>)
    requires CutInto(rows, runs)
    ensures AllSome(runs)
  {
    forall k | 0 <= k < |runs|
      ensures runs[k] != []
    {
      assert Unbroken(runs[k]);
    }
  }

  lemma {:induction false} LastOfConcat(runs: seq<seq<Row>>)
    requires AllSome(runs) && runs != []
    ensures Concat(runs) != [] && Concat(runs)[0] == runs[0][0]
    ensures Concat(runs)[|Concat(runs)| - 1] == runs[|runs| - 1][|runs[|runs| - 1]| - 1]
  {
    var rest := runs[1..];
    if |runs| > 1 {
      LastOfConcat(rest);
      LastOfSum(runs[0], Concat(rest));
      assert rest[|rest| - 1] == runs[|runs| - 1];
    } else {
      assert Concat(rest) == [];
    }
  }

  lemma LastOfSum(a: seq<Row>, b: seq<Row>)
    requires a != [] && b != []
    ensures a + b != [] && (a + b)[0] == a[0] && (a + b)[|a + b| - 1] == b[|b| - 1]
  {
  }

  /** The total span is the spans of the runs and the gaps between them. */
  lemma {:induction false} TotalIsSpansAndGaps(rows: seq<Row>, runs: seq<seq<Row>>)
    requires rows != [] && AllSome(runs) && Concat(runs) == rows
    ensures Span(rows) == Spans(runs) + OuterGaps(runs)
    decreases |runs|
  {
    LastOfConcat(runs);
    if |runs| > 1 {
      LastOfConcat(runs[1..]);
      TotalIsSpansAndGaps(Concat(runs[1..]), runs[1..]);
    } else {
      assert runs[1..] == [];
    }
  }

  /** hours, in whole microseconds. */
  function Micros(ns: int): int
    requires ns >= 0
  {
    ns / 1000
  }

  const HOUR: int := 3_600_000_000

  predicate SpansForward(runs: seq<seq<Row>>) {
    AllSome(runs) && forall k :: 0 <= k < |runs| ==> Span(runs[k]) >= 0
  }

  /** The active time, each run's span cut to whole microseconds. */
  function Active(runs: seq<seq<Row>>): int
    requires SpansForward(runs)
  {
    if runs == [] then 0 else Micros(Span(runs[0])) + Active(runs[1..])
  }

  lemma {:induction false} SortedRunsSpanForward(runs: seq<seq<Row>>)
    requires AllSome(runs) && Sorted(Concat(runs))
    ensures SpansForward(runs)
  {
    if runs != [] {
      var rows, n := Concat(runs), |runs[0]|;
      assert rows[0] == runs[0][0] && rows[n - 1] == runs[0][n - 1];
      assert rows[n..] == Concat(runs[1..]);
      SortedRunsSpanForward(runs[1..]);
      forall k | 0 <= k < |runs|
        ensures Span(runs[k]) >= 0
      {
        assert k > 0 ==> runs[k] == runs[1..][k - 1];
      }
    }
  }

  lemma {:induction false} ActiveIsBelowSpans(runs: seq<seq<Row>>)
    requires SpansForward(runs)
    ensures 1000 * Active(runs) <= Spans(runs)
  {
    if runs != [] {
      ActiveIsBelowSpans(runs[1..]);
    }
  }

  lemma {:induction false} OuterGapsAreLong(rows: seq<Row>, runs: seq<seq<Row>>)
    requires CutInto(rows, runs) && runs != [] && AllSome(runs)
    ensures OuterGaps(runs) >= (|runs| - 1) * RUN_GAP
    decreases |runs|
  {
    if |runs| > 1 {
      RestIsCut(rows, runs);
      OuterGapsAreLong(Concat(runs[1..]), runs[1..]);
      assert Apart(runs[0], runs[1]);
    }
  }

  /** Runs found from gaps: the active time is at least an hour below the total span for each gap. */
  lemma ActiveIsBelowTotal(rows: seq<Row>, runs: seq<seq<Row>>)
    requires Sorted(rows) && rows != [] && CutInto(rows, runs)
    ensures SpansForward(runs) && Span(rows) >= 0 && runs != []
    ensures Active(runs) <= Micros(Span(rows)) - (|runs| - 1) * 3_600_000_000
    ensures runs[|runs| - 1][|runs[|runs| - 1]| - 1] == rows[|rows| - 1]
  {
    CutIsSome(rows, runs);
    CutOfNothing(rows, runs);
    SortedRunsSpanForward(runs);
    TotalIsSpansAndGaps(rows, runs);
    ActiveIsBelowSpans(runs);
    OuterGapsAreLong(rows, runs);
    LastOfConcat(runs);
  }

  // ------------------------------------------------------------------- recorded ids

  /** The rows with this id, in order. */
  function WithId(rows: seq<Row>, id: string): seq<Row> {
    if rows == [] then []
    else
      var r := rows[|rows| - 1];
      WithId(rows[..|rows| - 1], id) + if r.runId == id then [r] else []
  }

  /** The ids in order of first appearance. */
  function Ids(rows: seq<Row>): seq<string> {
    if rows == [] then []
    else
      var ids, id := Ids(rows[..|rows| - 1]), rows[|rows| - 1].runId;
      if id in ids then ids else ids + [id]
  }

  lemma {:induction false} IdsAre(rows: seq<Row>)
    ensures forall i, j :: 0 <= i < j < |Ids(rows)| ==> Ids(rows)[i] != Ids(rows)[j]
    ensures forall id :: id in Ids(rows) <==> WithId(rows, id) != []
  {
    if rows != [] {
      IdsAre(rows[..|rows| - 1]);
    }
  }

  /** One run for each id. */
  predicate ByIds(rows: seq<Row>, runs: seq<seq<Row>>) {
    |runs| == |Ids(rows)| && forall k :: 0 <= k < |runs| ==> runs[k] == WithId(rows, Ids(rows)[k])
  }

  method GroupById(rows: seq<Row>) returns (out: seq<seq<Row>>)
    ensures ByIds(rows, out)
  {
    var byId: map<string, seq<Row>> := map[];
    var order: seq<string> := [];
    for i := 0 to |rows|
      invariant order == Ids(rows[..i])
      invariant forall id :: id in byId <==> id in order
      invariant forall id :: id in byId ==> byId[id] == WithId(rows[..i], id)
    {
      IdsNext(rows, i);
      var r := rows[i];
      if r.runId !in byId {
        order := order + [r.runId];
        byId := byId[r.runId := [r]];
      } else {
        byId := byId[r.runId := byId[r.runId] + [r]];
      }
    }
    assert rows[..|rows|] == rows;
    out := [];
    for k := 0 to |order|
      invariant |out| == k && forall j :: 0 <= j < k ==> out[j] == WithId(rows, order[j])
    {
      out := out + [byId[order[k]]];
    }
  }

  lemma IdsNext(rows: seq<Row>, i: nat)
    requires i < |rows|
    ensures
      var ids, id := Ids(rows[..i]), rows[i].runId;
      Ids(rows[..i + 1]) == if id in ids then ids else ids + [id]
    ensures
      forall id ::
        WithId(rows[..i + 1], id) == WithId(rows[..i], id) + if rows[i].runId == id then [rows[i]] else []
    ensures rows[i].runId !in Ids(rows[..i]) ==> WithId(rows[..i], rows[i].runId) == []
  {
    assert rows[..i + 1][..i] == rows[..i];
    IdsAre(rows[..i]);
  }

  lemma {:induction false} ConcatGrown(runs: seq<seq<Row>>, k: nat, r: Row)
    requires k < |runs|
    ensures multiset(Concat(runs[k := runs[k] + [r]])) == multiset(Concat(runs)) + multiset{r}
  {
    var grown := runs[k := runs[k] + [r]];
    assert Concat(runs) == runs[0] + Concat(runs[1..]) && Concat(grown) == grown[0] + Concat(grown[1..]);
    if k == 0 {
      assert grown[1..] == runs[1..];
    } else {
      ConcatGrown(runs[1..], k - 1, r);
      assert grown[1..] == runs[1..][k - 1 := runs[1..][k - 1] + [r]];
    }
  }

  function RunsOf(rows: seq<Row>): seq<seq<Row>> {
    seq(|Ids(rows)|, k requires 0 <= k < |Ids(rows)| => WithId(rows, Ids(rows)[k]))
  }

  /** Grouping by id loses and duplicates no row. */
  lemma {:induction false} IdRunsKeepTheRows(rows: seq<Row>)
    ensures multiset(Concat(RunsOf(rows))) == multiset(rows)
    ensures AllSome(RunsOf(rows))
  {
    hide Concat, WithId, Ids, RunsOf;
    if rows == [] {
      IdsOfNone();
      ConcatNone();
    } else {
      var n, r := |rows| - 1, rows[|rows| - 1];
      var before := RunsOf(rows[..n]);
      IdRunsKeepTheRows(rows[..n]);
      assert rows == rows[..n] + [r];
      var k := RunsGrow(rows);
      if k < |before| {
        ConcatGrown(before, k, r);
      } else {
        ConcatSnoc(before, [r]);
      }
    }
  }

  /** One more row joins the run of its id, or starts one. */
  lemma RunsGrow(rows: seq<Row>) returns (k: nat)
    requires rows != [] && AllSome(RunsOf(rows[..|rows| - 1]))
    ensures
      var before, r := RunsOf(rows[..|rows| - 1]), rows[|rows| - 1];
      k <= |before| && RunsOf(rows) == if k < |before| then before[k := before[k] + [r]] else before + [[r]]
    ensures AllSome(RunsOf(rows))
  {
    hide WithId, Ids;
    var n, r := |rows| - 1, rows[|rows| - 1];
    var ids, before := Ids(rows[..n]), RunsOf(rows[..n]);
    assert rows[..n + 1] == rows;
    IdsNext(rows, n);
    IdsAre(rows[..n]);
    if r.runId in ids {
      k :| 0 <= k < |ids| && ids[k] == r.runId;
      forall j | 0 <= j < |ids|
        ensures RunsOf(rows)[j] == before[k := before[k] + [r]][j]
      {
        assert WithId(rows, ids[j]) == WithId(rows[..n], ids[j]) + if r.runId == ids[j] then [r] else [];
      }
    } else {
      k := |ids|;
      forall j | 0 <= j <= |ids|
        ensures RunsOf(rows)[j] == (before + [[r]])[j]
      {
        var id := (ids + [r.runId])[j];
        assert WithId(rows, id) == WithId(rows[..n], id) + if r.runId == id then [r] else [];
      }
    }
  }

  lemma IdsOfNone()
    ensures Ids([]) == [] && RunsOf([]) == []
  {
  }

  // ------------------------------------------------------------------- the whole grouping

  function Stamped(rows: seq<Row>): seq<Row> {
    if rows == [] then []
    else Stamped(rows[..|rows| - 1]) + if rows[|rows| - 1].runId != "" then [rows[|rows| - 1]] else []
  }

  function Plain(rows: seq<Row>): seq<Row> {
    if rows == [] then []
    else Plain(rows[..|rows| - 1]) + if rows[|rows| - 1].runId == "" then [rows[|rows| - 1]] else []
  }

  lemma {:induction false} StampedAndPlain(rows: seq<Row>)
    ensures multiset(Stamped(rows)) + multiset(Plain(rows)) == multiset(rows)
  {
    if rows != [] {
      var before, r := rows[..|rows| - 1], rows[|rows| - 1];
      StampedAndPlain(before);
      assert rows == before + [r];
      if r.runId != "" {
        assert Stamped(rows) == Stamped(before) + [r] && Plain(rows) == Plain(before);
      } else {
        assert Stamped(rows) == Stamped(before) && Plain(rows) == Plain(before) + [r];
      }
    }
  }

  lemma {:induction false} AllPlain(rows: seq<Row>)
    requires Stamped(rows) == []
    ensures Plain(rows) == rows
  {
    if rows != [] {
      AllPlain(rows[..|rows| - 1]);
      assert rows == rows[..|rows| - 1] + [rows[|rows| - 1]];
    }
  }

  lemma {:induction false} NoneStamped(rows: seq<Row>)
    requires forall r :: r in rows ==> r.runId == ""
    ensures Stamped(rows) == []
  {
    if rows != [] {
      NoneStamped(rows[..|rows| - 1]);
    }
  }

  /** Runs found from the gaps of the rows without an id, then one run for each recorded id. */
  predicate Grouped(rows: seq<Row>, gaps: seq<seq<Row>>, runs: seq<seq<Row>>) {
    CutInto(Plain(rows), gaps) && runs == gaps + RunsOf(Stamped(rows))
  }

  ghost predicate GroupedInto(rows: seq<Row>, runs: seq<seq<Row>>) {
    exists gaps :: Grouped(rows, gaps, runs)
  }

  method FindRuns(rows: seq<Row>) returns (runs: seq<seq<Row>>)
    ensures GroupedInto(rows, runs)
  {
    hide CutInto, ByIds, RunsOf, Ids;
    var stamped, plain := [], [];
    assert rows[..0] == [];
    for i := 0 to |rows|
      invariant stamped == Stamped(rows[..i]) && plain == Plain(rows[..i])
    {
      assert rows[..i + 1][..i] == rows[..i];
      if rows[i].runId != "" {
        stamped := stamped + [rows[i]];
      } else {
        plain := plain + [rows[i]];
      }
    }
    assert rows[..|rows|] == rows;
    if |stamped| > 0 && |plain| == 0 {
      runs := GroupById(stamped);
      CutNone();
      ByIdsAre(stamped, runs);
      assert Grouped(rows, [], runs);
    } else if |stamped| > 0 {
      var byId := GroupById(stamped);
      var gapRuns := GroupByGap(plain);
      runs := gapRuns + byId;
      ByIdsAre(stamped, byId);
      assert Grouped(rows, gapRuns, runs);
    } else {
      AllPlain(rows);
      runs := GroupByGap(rows);
      IdsOfNone();
      assert Grouped(rows, runs, runs);
    }
  }

  lemma ByIdsAre(rows: seq<Row>, runs: seq<seq<Row>>)
    requires ByIds(rows, runs)
    ensures runs == RunsOf(rows)
  {
  }

  lemma {:induction false} ConcatBoth(a: seq<seq<Row>>, b: seq<seq<Row>>)
    ensures Concat(a + b) == Concat(a) + Concat(b)
  {
    if a == [] {
      assert a + b == b;
    } else {
      ConcatBoth(a[1..], b);
      assert (a + b)[1..] == a[1..] + b && (a + b)[0] == a[0];
      var x, y, z := a[0], Concat(a[1..]), Concat(b);
      assert x + (y + z) == x + y + z;
    }
  }

  /** Whatever mixture of rows with and without ids: each row is in exactly one run, once. */
  lemma GroupingKeepsTheRows(rows: seq<Row>, runs: seq<seq<Row>>)
    requires GroupedInto(rows, runs)
    ensures multiset(Concat(runs)) == multiset(rows) && AllSome(runs)
  {
    hide Concat, RunsOf, Stamped, Plain;
    var gaps :| Grouped(rows, gaps, runs);
    StampedAndPlain(rows);
    IdRunsKeepTheRows(Stamped(rows));
    CutIsSome(Plain(rows), gaps);
    ConcatBoth(gaps, RunsOf(Stamped(rows)));
  }

  // ------------------------------------------------------------------- the report

  /** One seq is a sorted part of the other. */
  predicate SortedPart(part: seq<Row>, rows: seq<Row>) {
    Sorted(part) && forall r :: r in part ==> r in rows
  }

  lemma PartGrows(part: seq<Row>, rows: seq<Row>, keep: bool)
    requires rows != [] && Sorted(rows) && SortedPart(part, rows[..|rows| - 1])
    ensures SortedPart(part + (if keep then [rows[|rows| - 1]] else []), rows)
  {
    assert forall r :: r in part ==> r in rows[..|rows| - 1];
    assert forall r :: r in rows[..|rows| - 1] ==> r in rows && r.at <= rows[|rows| - 1].at;
  }

  lemma {:induction false} StampedStaysSorted(rows: seq<Row>)
    requires Sorted(rows)
    ensures SortedPart(Stamped(rows), rows)
  {
    hide SortedPart;
    if rows != [] {
      StampedStaysSorted(rows[..|rows| - 1]);
      PartGrows(Stamped(rows[..|rows| - 1]), rows, rows[|rows| - 1].runId != "");
    } else {
      NoPart(rows);
    }
  }

  lemma {:induction false} PlainStaysSorted(rows: seq<Row>)
    requires Sorted(rows)
    ensures SortedPart(Plain(rows), rows)
  {
    hide SortedPart;
    if rows != [] {
      PlainStaysSorted(rows[..|rows| - 1]);
      PartGrows(Plain(rows[..|rows| - 1]), rows, rows[|rows| - 1].runId == "");
    } else {
      NoPart(rows);
    }
  }

  lemma {:induction false} IdStaysSorted(rows: seq<Row>, id: string)
    requires Sorted(rows)
    ensures SortedPart(WithId(rows, id), rows)
  {
    hide SortedPart;
    if rows != [] {
      IdStaysSorted(rows[..|rows| - 1], id);
      PartGrows(WithId(rows[..|rows| - 1], id), rows, rows[|rows| - 1].runId == id);
    } else {
      NoPart(rows);
    }
  }

  lemma NoPart(rows: seq<Row>)
    ensures SortedPart([], rows)
  {
  }

  lemma GroupedRunsSpanForward(rows: seq<Row>, runs: seq<seq<Row>>)
    requires Sorted(rows) && GroupedInto(rows, runs)
    ensures SpansForward(runs)
    ensures rows != [] ==> runs != []
  {
    hide Stamped, Plain, WithId, Ids, Concat, Sorted;
    var gaps :| Grouped(rows, gaps, runs);
    GroupingKeepsTheRows(rows, runs);
    StampedStaysSorted(rows);
    PlainStaysSorted(rows);
    SortedRunsSpanForward(gaps);
    forall k | 0 <= k < |runs|
      ensures Span(runs[k]) >= 0
    {
      if k >= |gaps| {
        var stamped := Stamped(rows);
        IdStaysSorted(stamped, Ids(stamped)[k - |gaps|]);
        SortedSpan(runs[k]);
      }
    }
    if runs == [] {
      ConcatNone();
    }
  }

  lemma SortedSpan(run: seq<Row>)
    requires Sorted(run) && run != []
    ensures Span(run) >= 0
  {
  }

  method SortByTime(rows: seq<Row>) returns (r: seq<Row>)
    ensures Sorted(r) && multiset(r) == multiset(rows)
  {
    r := [];
    for i := 0 to |rows|
      invariant Sorted(r) && multiset(r) == multiset(rows[..i])
    {
      assert rows[..i + 1] == rows[..i] + [rows[i]];
      r := Insert(r, rows[i]);
    }
    assert rows[..|rows|] == rows;
  }

  method Insert(s: seq<Row>, x: Row) returns (r: seq<Row>)
    requires Sorted(s)
    ensures Sorted(r) && multiset(r) == multiset(s) + multiset{x}
  {
    hide Sorted;
    var j := |s|;
    while j > 0 && s[j - 1].at > x.at
      invariant 0 <= j <= |s| && (j < |s| ==> x.at < s[j].at)
    {
      j := j - 1;
    }
    InsertedInOrder(s, j, x);
    InsertedOnce(s, j, x);
    r := s[..j] + [x] + s[j..];
  }

  lemma InsertedOnce(s: seq<Row>, j: nat, x: Row)
    requires j <= |s|
    ensures multiset(s[..j] + [x] + s[j..]) == multiset(s) + multiset{x}
  {
    assert s == s[..j] + s[j..];
  }

  lemma InsertedInOrder(s: seq<Row>, j: nat, x: Row)
    requires Sorted(s) && j <= |s| && (j < |s| ==> x.at < s[j].at) && (j > 0 ==> s[j - 1].at <= x.at)
    ensures Sorted(s[..j] + [x] + s[j..])
  {
    var r := s[..j] + [x] + s[j..];
    assert forall k :: 0 <= k < |r| ==> r[k] == if k < j then s[k] else if k == j then x else s[k - 1];
    assert forall k :: 0 <= k < j ==> s[k].at <= x.at;
    assert forall k :: j <= k < |s| ==> x.at <= s[k].at;
  }

  /** Counts, and times in whole microseconds. */
  datatype Report = Report(runs: nat, slices: nat, active: int, lastRun: int, span: int)

  /** The figures of rows in time order, grouped into these runs. */
  predicate Reports(rep: Report, rows: seq<Row>, runs: seq<seq<Row>>) {
    && rows != [] && runs != [] && SpansForward(runs) && Span(rows) >= 0
    && rep == Report(|runs|, |rows|, Active(runs), Micros(Span(runs[|runs| - 1])), Micros(Span(rows)))
  }

  /** The figures of a series: its rows in time order, and their runs. */
  ghost predicate FiguresOf(rep: Report, series: seq<Row>, rows: seq<Row>, runs: seq<seq<Row>>) {
    Sorted(rows) && multiset(rows) == multiset(series) && GroupedInto(rows, runs) && Reports(rep, rows, runs)
  }

  method Gather(series: seq<Row>) returns (rep: Option<Report>)
    ensures rep == None <==> series == []
    ensures rep.Some? ==> exists rows, runs :: FiguresOf(rep.value, series, rows, runs)
  {
    hide GroupedInto;
    if |series| == 0 {
      return None;
    }
    var sorted := SortByTime(series);
    assert |multiset(sorted)| == |multiset(series)|;
    var found := FindRuns(sorted);
    GroupedRunsSpanForward(sorted, found);
    SortedSpan(sorted);
    var active := SumActive(found);
    var last := found[|found| - 1];
    var report := Report(|found|, |sorted|, active, Micros(Span(last)), Micros(Span(sorted)));
    assert FiguresOf(report, series, sorted, found);
    rep := Some(report);
  }

  method SumActive(runs: seq<seq<Row>>) returns (active: int)
    requires SpansForward(runs)
    ensures active == Active(runs)
  {
    active := 0;
    assert runs[0..] == runs;
    for i := 0 to |runs|
      invariant SpansForward(runs[i..]) && Active(runs) == active + Active(runs[i..])
    {
      assert runs[i..][1..] == runs[i + 1..];
      active := active + Micros(Span(runs[i]));
    }
    assert runs[|runs|..] == [];
  }

  /**
    Without recorded ids: the active time is at least an hour below the span for each gap, and the
    last run ends the series.
  */
  lemma WithoutIdsActiveFits(rep: Report, series: seq<Row>, rows: seq<Row>, runs: seq<seq<Row>>)
    requires FiguresOf(rep, series, rows, runs) && forall r :: r in series ==> r.runId == ""
    ensures CutInto(rows, runs) && forall cut :: CutInto(rows, cut) ==> cut == runs
    ensures rep.active <= rep.span - (rep.runs - 1) * HOUR
    ensures runs[|runs| - 1][|runs[|runs| - 1]| - 1] == rows[|rows| - 1]
  {
    hide CutInto;
    forall r | r in rows
      ensures r.runId == ""
    {
      assert r in multiset(rows) && r in multiset(series);
    }
    NoneStamped(rows);
    AllPlain(rows);
    IdsOfNone();
    var gaps :| Grouped(rows, gaps, runs);
    assert runs == gaps;
    ActiveIsBelowTotal(rows, runs);
    forall cut | CutInto(rows, cut)
      ensures cut == runs
    {
      OnlyOneCut(rows, cut, runs);
    }
  }

  // ------------------------------------------- when the active time is within the span

  /** Two runs share a stretch of time. */
  predicate Overlap(a: seq<Row>, b: seq<Row>)
    requires a != [] && b != []
  {
    var from := if a[0].at < b[0].at then b[0].at else a[0].at;
    var to := if a[|a| - 1].at < b[|b| - 1].at then a[|a| - 1].at else b[|b| - 1].at;
    from < to
  }

  predicate Disjoint(runs: seq<seq<Row>>) {
    AllSome(runs) && forall j, k :: 0 <= j < k < |runs| ==> !Overlap(runs[j], runs[k])
  }

  /** All of a run lies in this time. */
  predicate Within(run: seq<Row>, from: int, to: int) {
    run != [] && from <= run[0].at && run[|run| - 1].at <= to
  }

  function Keep(runs: seq<seq<Row>>, f: seq<Row> -> bool): seq<seq<Row>> {
    if runs == [] then []
    else (if f(runs[0]) then [runs[0]] else []) + Keep(runs[1..], f)
  }

  lemma {:induction false} KeepAre(runs: seq<seq<Row>>, f: seq<Row> -> bool)
    ensures |Keep(runs, f)| <= |runs| && forall r :: r in Keep(runs, f) <==> r in runs && f(r)
  {
    if runs != [] {
      KeepAre(runs[1..], f);
      assert forall r :: r in runs <==> r == runs[0] || r in runs[1..];
    }
  }

  lemma TailIsDisjoint(runs: seq<seq<Row>>)
    requires Disjoint(runs) && runs != []
    ensures AllSome(runs[1..]) && Disjoint(runs[1..])
    ensures forall r :: r in runs[1..] ==> !Overlap(runs[0], r)
  {
    forall r | r in runs[1..]
      ensures !Overlap(runs[0], r)
    {
      var k :| 0 <= k < |runs| - 1 && runs[1..][k] == r;
      assert runs[k + 1] == r;
    }
  }

  lemma ConsIsDisjoint(r: seq<Row>, runs: seq<seq<Row>>)
    requires r != [] && Disjoint(runs) && forall x :: x in runs ==> !Overlap(r, x)
    ensures Disjoint([r] + runs)
  {
  }

  lemma {:induction false} KeepIsDisjoint(runs: seq<seq<Row>>, f: seq<Row> -> bool)
    requires AllSome(runs) && Disjoint(runs)
    ensures AllSome(Keep(runs, f)) && Disjoint(Keep(runs, f))
  {
    hide Overlap, Disjoint;
    if runs == [] {
      NoneIsDisjoint();
    } else {
      TailIsDisjoint(runs);
      KeepIsDisjoint(runs[1..], f);
      KeepAre(runs[1..], f);
      if f(runs[0]) {
        ConsIsDisjoint(runs[0], Keep(runs[1..], f));
      } else {
        assert Keep(runs, f) == Keep(runs[1..], f);
      }
    }
  }

  lemma NoneIsDisjoint()
    ensures Disjoint([])
  {
  }

  lemma SpansCons(r: seq<Row>, rest: seq<seq<Row>>)
    requires r != [] && AllSome(rest)
    ensures AllSome([r] + rest) && Spans([r] + rest) == Span(r) + Spans(rest)
  {
    assert ([r] + rest)[1..] == rest;
  }

  lemma KeepCons(runs: seq<seq<Row>>, f: seq<Row> -> bool)
    requires runs != []
    ensures Keep(runs, f) == if f(runs[0]) then [runs[0]] + Keep(runs[1..], f) else Keep(runs[1..], f)
  {
    assert [] + Keep(runs[1..], f) == Keep(runs[1..], f);
  }

  lemma {:induction false} KeptSpans(runs: seq<seq<Row>>, f: seq<Row> -> bool, g: seq<Row> -> bool)
    requires AllSome(runs) && forall r :: r in runs ==> g(r) == !f(r)
    ensures AllSome(Keep(runs, f)) && AllSome(Keep(runs, g))
    ensures Spans(Keep(runs, f)) + Spans(Keep(runs, g)) == Spans(runs)
  {
    if runs != [] {
      var r, rest := runs[0], runs[1..];
      assert r in runs && forall x :: x in rest ==> x in runs;
      assert runs == [r] + rest;
      KeptSpans(rest, f, g);
      hide Keep, Spans, Span;
      KeepCons(runs, f);
      KeepCons(runs, g);
      SpansCons(r, rest);
      SpansCons(r, if f(r) then Keep(rest, f) else Keep(rest, g));
    }
  }

  lemma {:induction false} EmptySpans(runs: seq<seq<Row>>)
    requires AllSome(runs) && forall r :: r in runs ==> Span(r) == 0
    ensures Spans(runs) == 0
  {
    if runs != [] {
      assert runs[0] in runs && forall r :: r in runs[1..] ==> r in runs;
      EmptySpans(runs[1..]);
    }
  }

  lemma AllSomeAre(runs: seq<seq<Row>>, r: seq<Row>)
    requires AllSome(runs) && r in runs
    ensures r != []
  {
  }

  /** Disjoint runs that take time fit, end to end, in the time they lie in. */
  lemma {:induction false} DisjointFit(runs: seq<seq<Row>>, from: int, to: int)
    requires AllSome(runs) && Disjoint(runs) && from <= to
    requires forall r :: r in runs ==> Within(r, from, to) && Span(r) > 0
    ensures Spans(runs) <= to - from
    decreases |runs|
  {
    hide Disjoint, Keep, Overlap, Within, EndsBy, Span, Spans, AllSome;
    if runs == [] {
      NoSpans();
    } else {
      var r, rest := runs[0], runs[1..];
      FirstRunFits(runs, from, to);
      var a, b := r[0].at, r[|r| - 1].at;
      var early := (x: seq<Row>) => EndsBy(x, a);
      var late := (x: seq<Row>) => !EndsBy(x, a);
      assert forall x :: x in rest ==> x in runs;
      TailIsDisjoint(runs);
      KeepAre(rest, early);
      KeepAre(rest, late);
      KeepIsDisjoint(rest, early);
      KeepIsDisjoint(rest, late);
      KeptSpans(rest, early, late);
      forall x | x in rest
        ensures if EndsBy(x, a) then Within(x, from, a) else Within(x, b, to)
      {
        AllSomeAre(runs, x);
        BeforeOrAfter(r, x, from, to);
      }
      DisjointFit(Keep(rest, early), from, a);
      DisjointFit(Keep(rest, late), b, to);
    }
  }

  predicate EndsBy(run: seq<Row>, t: int) {
    run != [] && run[|run| - 1].at <= t
  }

  lemma NoSpans()
    ensures Spans([]) == 0
  {
  }

  lemma FirstRunFits(runs: seq<seq<Row>>, from: int, to: int)
    requires AllSome(runs) && runs != [] && forall r :: r in runs ==> Within(r, from, to) && Span(r) > 0
    ensures
      var r := runs[0];
      && r != [] && r in runs && Span(r) > 0 && from <= r[0].at && r[|r| - 1].at <= to
      && Span(r) == r[|r| - 1].at - r[0].at && AllSome(runs[1..]) && Spans(runs) == Span(r) + Spans(runs[1..])
  {
    assert runs[0] in runs;
  }

  lemma BeforeOrAfter(r: seq<Row>, x: seq<Row>, from: int, to: int)
    requires r != [] && x != [] && !Overlap(r, x) && Span(r) > 0 && Span(x) > 0 && Within(x, from, to)
    ensures if EndsBy(x, r[0].at) then Within(x, from, r[0].at) else Within(x, r[|r| - 1].at, to)
  {
  }

  /** With ids or without: runs that share no time are active no longer than the series spans. */
  lemma DisjointRunsFitTheSpan(rows: seq<Row>, runs: seq<seq<Row>>)
    requires Sorted(rows) && rows != [] && GroupedInto(rows, runs) && Disjoint(runs)
    ensures SpansForward(runs) && Span(rows) >= 0 && Active(runs) <= Micros(Span(rows))
  {
    hide Disjoint, Keep, GroupedInto;
    GroupedRunsSpanForward(rows, runs);
    SortedSpan(rows);
    var long := (r: seq<Row>) => r != [] && Span(r) > 0;
    var short := (r: seq<Row>) => !(r != [] && Span(r) > 0);
    KeepAre(runs, long);
    KeepAre(runs, short);
    KeepIsDisjoint(runs, long);
    KeptSpans(runs, long, short);
    EmptySpans(Keep(runs, short));
    forall r | r in runs
      ensures Within(r, rows[0].at, rows[|rows| - 1].at)
    {
      RunIsWithin(rows, runs, r);
    }
    DisjointFit(Keep(runs, long), rows[0].at, rows[|rows| - 1].at);
    ActiveIsBelowSpans(runs);
  }

  lemma {:induction false} ConcatHolds(runs: seq<seq<Row>>, run: seq<Row>, r: Row)
    requires run in runs && r in run
    ensures r in Concat(runs)
  {
    if run != runs[0] {
      ConcatHolds(runs[1..], run, r);
    }
  }

  lemma RowOfRun(rows: seq<Row>, runs: seq<seq<Row>>, run: seq<Row>, r: Row)
    requires GroupedInto(rows, runs) && run in runs && r in run
    ensures r in rows
  {
    hide GroupedInto;
    GroupingKeepsTheRows(rows, runs);
    ConcatHolds(runs, run, r);
    assert r in multiset(Concat(runs)) && r in multiset(rows);
  }

  lemma RunIsWithin(rows: seq<Row>, runs: seq<seq<Row>>, run: seq<Row>)
    requires Sorted(rows) && rows != [] && GroupedInto(rows, runs) && run in runs
    ensures Within(run, rows[0].at, rows[|rows| - 1].at)
  {
    hide GroupedInto;
    GroupingKeepsTheRows(rows, runs);
    RowOfRun(rows, runs, run, run[0]);
    RowOfRun(rows, runs, run, run[|run| - 1]);
  }

  // ------------------------------------------- for every choice of times

  /** The stretch after row i lies between two rows of this id, the empty id standing for none. */
  ghost predicate Covers(rows: seq<Row>, id: string, i: nat) {
    exists p: nat, q: nat :: p <= i < q < |rows| && rows[p].runId == id && rows[q].runId == id
  }

  /** Some stretch lies between two rows of one id and between two of another. */
  ghost predicate Interleaved(rows: seq<Row>) {
    exists i: nat, x: string, y: string :: x != y && Covers(rows, x, i) && Covers(rows, y, i)
  }

  ghost predicate SameIds(rows: seq<Row>, timed: seq<Row>) {
    |timed| == |rows| && forall i :: 0 <= i < |rows| ==> timed[i].runId == rows[i].runId
  }

  /** Whenever these rows had been logged, in this order: active time within the span. */
  ghost predicate AlwaysFits(rows: seq<Row>) {
    forall timed, runs ::
      SameIds(rows, timed) && Sorted(timed) && GroupedInto(timed, runs) && timed != [] && SpansForward(runs) ==>
      Span(timed) >= 0 && Active(runs) <= Micros(Span(timed))
  }

  lemma {:induction false} FiltersHold(rows: seq<Row>, id: string, r: Row)
    ensures r in WithId(rows, id) <==> r in rows && r.runId == id
    ensures r in Stamped(rows) <==> r in rows && r.runId != ""
    ensures r in Plain(rows) <==> r in rows && r.runId == ""
  {
    if rows != [] {
      var n := |rows| - 1;
      FiltersHold(rows[..n], id, r);
      assert rows == rows[..n] + [rows[n]];
    }
  }

  /** The id that all rows of run k carry. */
  function LabelOf(rows: seq<Row>, gaps: seq<seq<Row>>, k: nat): string {
    var ids := Ids(Stamped(rows));
    if |gaps| <= k < |gaps| + |ids| then ids[k - |gaps|] else ""
  }

  lemma RunsAreLabelled(rows: seq<Row>, gaps: seq<seq<Row>>, runs: seq<seq<Row>>, k: nat, r: Row)
    requires Grouped(rows, gaps, runs) && k < |runs| && r in runs[k]
    ensures r in rows && r.runId == LabelOf(rows, gaps, k)
  {
    hide Stamped, Plain, WithId, Ids, Concat;
    if k < |gaps| {
      ConcatHolds(gaps, gaps[k], r);
      FiltersHold(rows, "", r);
    } else {
      var id := Ids(Stamped(rows))[k - |gaps|];
      FiltersHold(Stamped(rows), id, r);
      FiltersHold(rows, id, r);
    }
  }

  lemma LabelsDiffer(rows: seq<Row>, gaps: seq<seq<Row>>, runs: seq<seq<Row>>, j: nat, k: nat)
    requires Grouped(rows, gaps, runs) && j < k < |runs| && |gaps| <= k
    ensures LabelOf(rows, gaps, j) != LabelOf(rows, gaps, k)
  {
    hide Stamped, Plain, WithId, Ids;
    var ids := Ids(Stamped(rows));
    IdsAre(Stamped(rows));
    var run := WithId(Stamped(rows), ids[k - |gaps|]);
    assert ids[k - |gaps|] in ids && run != [];
    FiltersHold(Stamped(rows), ids[k - |gaps|], run[0]);
    FiltersHold(rows, "", run[0]);
  }

  lemma {:induction false} GapsAreApart(rows: seq<Row>, gaps: seq<seq<Row>>, j: nat, k: nat)
    requires Sorted(rows) && CutInto(rows, gaps) && j < k < |gaps|
    ensures AllSome(gaps) && gaps[j][|gaps[j]| - 1].at <= gaps[k][0].at
  {
    hide Concat, Sorted;
    CutIsSome(rows, gaps);
    SortedRunsSpanForward(gaps);
    assert Apart(gaps[k - 1], gaps[k]) && Span(gaps[k - 1]) >= 0;
    if j < k - 1 {
      GapsAreApart(rows, gaps, j, k - 1);
    }
  }

  lemma OverlapInterleaves(rows: seq<Row>, timed: seq<Row>, a: seq<Row>, b: seq<Row>, x: string, y: string)
    requires SameIds(rows, timed) && Sorted(timed) && a != [] && b != [] && Overlap(a, b) && x != y
    requires forall r :: r in a ==> r in timed && r.runId == x
    requires forall r :: r in b ==> r in timed && r.runId == y
    ensures Interleaved(rows)
  {
    assert a[0] in a && a[|a| - 1] in a && b[0] in b && b[|b| - 1] in b;
    var p: nat :| p < |timed| && timed[p] == a[0];
    var q: nat :| q < |timed| && timed[q] == a[|a| - 1];
    var u: nat :| u < |timed| && timed[u] == b[0];
    var v: nat :| v < |timed| && timed[v] == b[|b| - 1];
    var i := if p < u then u else p;
    assert p <= i < q && u <= i < v;
    assert rows[p].runId == x && rows[q].runId == x && rows[u].runId == y && rows[v].runId == y;
    assert Covers(rows, x, i) && Covers(rows, y, i);
  }

  lemma NotInterleavedIsDisjoint(rows: seq<Row>, timed: seq<Row>, runs: seq<seq<Row>>)
    requires SameIds(rows, timed) && Sorted(timed) && GroupedInto(timed, runs) && !Interleaved(rows)
    ensures Disjoint(runs)
  {
    hide Interleaved, Sorted, SameIds, Concat, LabelOf, RunsOf, Plain, Stamped, Ids;
    var gaps :| Grouped(timed, gaps, runs);
    GroupingKeepsTheRows(timed, runs);
    PlainStaysSorted(timed);
    forall j, k | 0 <= j < k < |runs|
      ensures !Overlap(runs[j], runs[k])
    {
      if k < |gaps| {
        GapsAreApart(Plain(timed), gaps, j, k);
      } else if Overlap(runs[j], runs[k]) {
        LabelsDiffer(timed, gaps, runs, j, k);
        AllLabelled(timed, gaps, runs, j);
        AllLabelled(timed, gaps, runs, k);
        OverlapInterleaves(rows, timed, runs[j], runs[k], LabelOf(timed, gaps, j), LabelOf(timed, gaps, k));
      }
    }
  }

  lemma AllLabelled(rows: seq<Row>, gaps: seq<seq<Row>>, runs: seq<seq<Row>>, k: nat)
    requires Grouped(rows, gaps, runs) && k < |runs|
    ensures forall r :: r in runs[k] ==> r in rows && r.runId == LabelOf(rows, gaps, k)
  {
    hide Grouped, LabelOf;
    forall r | r in runs[k]
      ensures r in rows && r.runId == LabelOf(rows, gaps, k)
    {
      RunsAreLabelled(rows, gaps, runs, k, r);
    }
  }

  // ------------------------------------------- interleaved rows can exceed it

  /** The rows logged at one moment up to row i, and two microseconds later after it. */
  function Stretched(rows: seq<Row>, i: nat): seq<Row> {
    seq(|rows|, j requires 0 <= j < |rows| => Row(if j <= i then 0 else 2000, rows[j].runId, rows[j].line))
  }

  predicate Short(rows: seq<Row>) {
    Sorted(rows) && forall r :: r in rows ==> r.at == 0 || r.at == 2000
  }

  lemma StretchedIsShort(rows: seq<Row>, i: nat)
    ensures Short(Stretched(rows, i)) && SameIds(rows, Stretched(rows, i))
  {
  }

  /** The plain rows of a short series are one run. */
  function OneRun(rows: seq<Row>): seq<seq<Row>> {
    if rows == [] then [] else [rows]
  }

  lemma ShortIsOneRun(rows: seq<Row>)
    requires Short(rows)
    ensures CutInto(Plain(rows), OneRun(Plain(rows)))
  {
    hide Plain;
    var plain := Plain(rows);
    PlainStaysSorted(rows);
    if plain != [] {
      forall k | 0 < k < |plain|
        ensures Gap(plain, k) <= RUN_GAP
      {
        assert plain[k] in plain && plain[k - 1] in plain;
      }
      assert Concat([plain]) == plain + Concat([]);
    }
  }

  /** The run that holds two rows of an id, one of each moment. */
  lemma RunOfId(rows: seq<Row>, runs: seq<seq<Row>>, a: Row, b: Row) returns (k: nat)
    requires Short(rows) && runs == OneRun(Plain(rows)) + RunsOf(Stamped(rows)) && AllSome(runs)
    requires a in rows && b in rows && a.runId == b.runId && a.at == 0 && b.at == 2000
    ensures k < |runs| && Span(runs[k]) >= 2000 && forall r :: r in runs[k] ==> r.runId == a.runId
  {
    hide Plain, Stamped, WithId, Ids;
    var plain, stamped := Plain(rows), Stamped(rows);
    FiltersHold(rows, "", a);
    FiltersHold(rows, "", b);
    PlainStaysSorted(rows);
    StampedStaysSorted(rows);
    if a.runId == "" {
      k := 0;
      assert runs[0] == plain;
      AllOfId(rows, "");
      LongFrom(plain, a, b);
    } else {
      var ids := Ids(stamped);
      FiltersHold(stamped, a.runId, a);
      FiltersHold(stamped, a.runId, b);
      IdsAre(stamped);
      var j: nat :| j < |ids| && ids[j] == a.runId;
      k := |OneRun(plain)| + j;
      assert runs[k] == WithId(stamped, a.runId);
      IdStaysSorted(stamped, a.runId);
      AllOfId(stamped, a.runId);
      LongFrom(runs[k], a, b);
    }
  }

  lemma AllOfId(rows: seq<Row>, id: string)
    ensures forall r :: r in WithId(rows, id) ==> r.runId == id
    ensures forall r :: r in Plain(rows) ==> r.runId == ""
  {
    forall r
      ensures r in WithId(rows, id) ==> r.runId == id
      ensures r in Plain(rows) ==> r.runId == ""
    {
      FiltersHold(rows, id, r);
    }
  }

  lemma LongFrom(run: seq<Row>, a: Row, b: Row)
    requires Sorted(run) && a in run && b in run && a.at == 0 && b.at == 2000
    ensures Span(run) >= 2000
  {
  }

  lemma {:induction false} ActiveIsAtLeastOne(runs: seq<seq<Row>>, k: nat)
    requires SpansForward(runs) && k <= |runs|
    ensures Active(runs) >= 0 && (k < |runs| ==> Active(runs) >= Micros(Span(runs[k])))
  {
    if runs != [] {
      ActiveIsAtLeastOne(runs[1..], if k > 0 then k - 1 else 0);
    }
  }

  lemma {:induction false} ActiveIsAtLeastTwo(runs: seq<seq<Row>>, j: nat, k: nat)
    requires SpansForward(runs) && j < k < |runs|
    ensures Active(runs) >= Micros(Span(runs[j])) + Micros(Span(runs[k]))
  {
    if j == 0 {
      ActiveIsAtLeastOne(runs[1..], k - 1);
    } else {
      ActiveIsAtLeastTwo(runs[1..], j - 1, k - 1);
    }
  }

  lemma InterleavedExceeds(rows: seq<Row>)
    requires Interleaved(rows)
    ensures !AlwaysFits(rows)
  {
    hide Plain, Stamped, RunsOf, CutInto, Interleaved, Short, SameIds, Sorted, OneRun, Active;
    var timed, j, k := Exceeding(rows);
    var runs := OneRun(Plain(timed)) + RunsOf(Stamped(timed));
    assert GroupedInto(timed, runs);
    GroupedRunsSpanForward(timed, runs);
    ActiveIsAtLeastTwo(runs, j, k);
  }

  /** A covered stretch is spanned by the run of its id. */
  lemma CoveringRun(rows: seq<Row>, i: nat, id: string, runs: seq<seq<Row>>) returns (k: nat)
    requires Covers(rows, id, i) && AllSome(runs)
    requires var timed := Stretched(rows, i); runs == OneRun(Plain(timed)) + RunsOf(Stamped(timed))
    ensures k < |runs| && Span(runs[k]) >= 2000 && runs[k][0].runId == id
    ensures i + 1 < |rows|
  {
    hide Plain, Stamped, RunsOf, OneRun;
    var timed := Stretched(rows, i);
    StretchedIsShort(rows, i);
    var p: nat, q: nat :| p <= i < q < |rows| && rows[p].runId == id && rows[q].runId == id;
    k := RunOfId(timed, runs, timed[p], timed[q]);
    assert runs[k][0] in runs[k];
  }

  lemma StretchedSpan(rows: seq<Row>, i: nat)
    requires i + 1 < |rows|
    ensures Stretched(rows, i) != [] && Span(Stretched(rows, i)) == 2000
  {
  }

  lemma Exceeding(rows: seq<Row>) returns (timed: seq<Row>, j: nat, k: nat)
    requires Interleaved(rows)
    ensures SameIds(rows, timed) && Sorted(timed) && timed != [] && Span(timed) == 2000
    ensures Grouped(timed, OneRun(Plain(timed)), OneRun(Plain(timed)) + RunsOf(Stamped(timed)))
    ensures
      var runs := OneRun(Plain(timed)) + RunsOf(Stamped(timed));
      AllSome(runs) && j < k < |runs| && Span(runs[j]) >= 2000 && Span(runs[k]) >= 2000
  {
    hide Plain, Stamped, RunsOf, CutInto, OneRun, Covers, Stretched, SameIds, Sorted, Span;
    var i: nat, x: string, y: string :| x != y && Covers(rows, x, i) && Covers(rows, y, i);
    timed := Stretched(rows, i);
    StretchedIsShort(rows, i);
    ShortIsOneRun(timed);
    var runs := OneRun(Plain(timed)) + RunsOf(Stamped(timed));
    assert Grouped(timed, OneRun(Plain(timed)), runs);
    assert GroupedInto(timed, runs);
    GroupingKeepsTheRows(timed, runs);
    j := CoveringRun(rows, i, x, runs);
    k := CoveringRun(rows, i, y, runs);
    StretchedSpan(rows, i);
    if k < j {
      j, k := k, j;
    }
  }

  /**
    Whatever ids the rows carry and in whatever order: the active time is within the span for every
    choice of times exactly when no stretch between rows lies inside two runs.
  */
  lemma FitsTheSpanExactlyWhen(rows: seq<Row>)
    ensures AlwaysFits(rows) <==> !Interleaved(rows)
  {
    hide Interleaved, SameIds, Sorted, GroupedInto, SpansForward, Active, Span;
    if Interleaved(rows) {
      InterleavedExceeds(rows);
    } else {
      forall timed, runs |
        SameIds(rows, timed) && Sorted(timed) && GroupedInto(timed, runs) && timed != [] && SpansForward(runs)
        ensures Span(timed) >= 0 && Active(runs) <= Micros(Span(timed))
      {
        NotInterleavedIsDisjoint(rows, timed, runs);
        DisjointRunsFitTheSpan(timed, runs);
      }
    }
  }

  /** The id that was the last to appear, the empty one when no row carries any. */
  function LatestId(rows: seq<Row>): string {
    var ids := Ids(Stamped(rows));
    if ids == [] then "" else ids[|ids| - 1]
  }

  /** The last run ends the series exactly when the newest row carries the id that was the last to appear. */
  lemma LastRunIsNewestExactlyWhen(rows: seq<Row>, runs: seq<seq<Row>>)
    requires rows != [] && GroupedInto(rows, runs)
    ensures runs != [] && AllSome(runs)
    ensures
      var last := runs[|runs| - 1];
      last[|last| - 1] == rows[|rows| - 1] <==> rows[|rows| - 1].runId == LatestId(rows)
  {
    hide Plain, Stamped, WithId, Ids, RunsOf, Concat;
    var gaps :| Grouped(rows, gaps, runs);
    var newest, ids := rows[|rows| - 1], Ids(Stamped(rows));
    GroupingKeepsTheRows(rows, runs);
    RunsAreSome(rows, runs);
    var last := runs[|runs| - 1];
    AllLabelled(rows, gaps, runs, |runs| - 1);
    RunsOfAre(Stamped(rows));
    if ids == [] {
      IdsAre(Stamped(rows));
      NoIdsNoneStamped(Stamped(rows));
      AllPlain(rows);
      CutIsSome(rows, gaps);
      LastOfConcat(gaps);
      FiltersHold(rows, "", newest);
    } else if newest.runId == LatestId(rows) {
      FilteredLast(rows, gaps, runs);
    }
  }

  lemma RunsAreSome(rows: seq<Row>, runs: seq<seq<Row>>)
    requires multiset(Concat(runs)) == multiset(rows) && rows != []
    ensures runs != []
  {
    assert |multiset(rows)| == |multiset(Concat(runs))|;
    ConcatNone();
  }

  lemma RunsOfAre(rows: seq<Row>)
    ensures |RunsOf(rows)| == |Ids(rows)|
    ensures forall k :: 0 <= k < |Ids(rows)| ==> RunsOf(rows)[k] == WithId(rows, Ids(rows)[k])
  {
  }

  lemma NoIdsNoneStamped(rows: seq<Row>)
    requires Ids(rows) == []
    ensures rows == []
  {
  }

  /** The newest row ends the run of its id. */
  lemma FilteredLast(rows: seq<Row>, gaps: seq<seq<Row>>, runs: seq<seq<Row>>)
    requires Grouped(rows, gaps, runs) && rows != [] && Ids(Stamped(rows)) != []
    requires rows[|rows| - 1].runId == LatestId(rows)
    ensures runs != [] && runs[|runs| - 1] != []
    ensures var last := runs[|runs| - 1]; last[|last| - 1] == rows[|rows| - 1]
  {
    hide Plain, RunsOf, Concat, CutInto, Stamped, WithId, Ids;
    var stamped := Stamped(rows);
    var ids, id := Ids(stamped), LatestId(rows);
    RunsOfAre(stamped);
    LabelIsSome(rows, id);
    LastIsKept(rows, id);
    LastIsKept(stamped, id);
    assert runs[|runs| - 1] == RunsOf(stamped)[|ids| - 1] == WithId(stamped, id);
  }

  lemma LastIsKept(rows: seq<Row>, id: string)
    requires rows != [] && rows[|rows| - 1].runId == id != ""
    ensures Stamped(rows) != [] && Stamped(rows)[|Stamped(rows)| - 1] == rows[|rows| - 1]
    ensures WithId(rows, id) != [] && WithId(rows, id)[|WithId(rows, id)| - 1] == rows[|rows| - 1]
  {
  }

  lemma LabelIsSome(rows: seq<Row>, id: string)
    requires id in Ids(Stamped(rows))
    ensures id != ""
  {
    hide Stamped, WithId, Ids;
    IdsAre(Stamped(rows));
    var run := WithId(Stamped(rows), id);
    FiltersHold(Stamped(rows), id, run[0]);
    FiltersHold(rows, "", run[0]);
  }

  /**
    With recorded ids the active time can exceed the total span: campaigns that overlap are counted
    side by side.  Four slices of two runs, 11 microseconds in all, 20 active.
  */
  lemma OverlappingRunsCountTwice()
    ensures
      var rows := [Row(0, "a", 0), Row(1000, "b", 1), Row(10000, "a", 2), Row(11000, "b", 3)];
      var runs := [[rows[0], rows[2]], [rows[1], rows[3]]];
      && Sorted(rows) && ByIds(rows, runs) && SpansForward(runs)
      && Active(runs) == 20 && Micros(Span(rows)) == 11
  {
    var rows := [Row(0, "a", 0), Row(1000, "b", 1), Row(10000, "a", 2), Row(11000, "b", 3)];
    var runs := [[rows[0], rows[2]], [rows[1], rows[3]]];
    FourRows(rows);
    assert runs[1..] == [[rows[1], rows[3]]] && runs[1..][1..] == [];
    assert Active(runs) == 10 + Active(runs[1..]) && Active(runs[1..]) == 10 + Active([]);
  }

  lemma FirstTwoRows(rows: seq<Row>)
    requires |rows| >= 2 && rows[0].runId != rows[1].runId
    ensures
      var a, b := rows[0].runId, rows[1].runId;
      Ids(rows[..2]) == [a, b] && WithId(rows[..2], a) == [rows[0]] && WithId(rows[..2], b) == [rows[1]]
  {
    hide WithId, Ids;
    var a, b := rows[0].runId, rows[1].runId;
    assert rows[..0] == [];
    IdsOfNone();
    WithIdNone(a);
    WithIdNone(b);
    IdsNext(rows, 0);
    IdsNext(rows, 1);
    assert Ids(rows[..1]) == [a] && WithId(rows[..1], a) == [rows[0]] && WithId(rows[..1], b) == [];
  }

  lemma FourRows(rows: seq<Row>)
    requires |rows| == 4 && rows[0].runId == rows[2].runId != rows[1].runId == rows[3].runId
    ensures ByIds(rows, [[rows[0], rows[2]], [rows[1], rows[3]]])
  {
    hide WithId, Ids;
    var a, b := rows[0].runId, rows[1].runId;
    FirstTwoRows(rows);
    IdsNext(rows, 2);
    IdsNext(rows, 3);
    assert rows[..4] == rows;
    assert WithId(rows, a) == WithId(rows[..3], a) == [rows[0], rows[2]];
    assert WithId(rows, b) == WithId(rows[..3], b) + [rows[3]] == [rows[1], rows[3]];
  }

  lemma WithIdNone(id: string)
    ensures WithId([], id) == []
  {
  }
}
