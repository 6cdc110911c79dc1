/**
  The cached series read of go/internal/campaign/seriescache.go.  Any number of callers and a
  writer move one step at a time: a caller stats the file before it takes the entry's lock, and
  compares, reads and stores while it holds it, so the file may change between any two steps.
*/
module SeriesCache {

  import opened Bytes
  import opened Options

  /** What the file system shows at one moment. */
  datatype File = File(content: seq<Byte>, mtime: int)

  /** What os.Stat returns of it: the size and the modification time, the cache's key. */
  datatype Info = Info(size: nat, mtime: int)

  function Stat(f: File): Info {
    Info(|f.content|, f.mtime)
  }

  /**
    The shared entry.  Its rows are nil until the first store and whenever a read found none,
    since Read returns a nil slice then.  The last two fields are history: the moments of the
    stat and of the read behind the stored rows.  No step consults them.
  */
  datatype Entry<T> = Entry(key: Info, rows: seq<T>, statAt: nat, readAt: nat)

  predicate Hits<T(==)>(e: Entry<T>, key: Info) {
    e.rows != [] && e.key == key
  }

  // ---------------------------------------------------------------- the machine

  /** One call, from its stat on; at, readAt and until are moments. */
  datatype Call<T> =
    | Waiting(at: nat, key: Info)
    | Holding(at: nat, key: Info)
    | Missed(at: nat, key: Info)
    | HasRead(at: nat, key: Info, rows: seq<T>, readAt: nat)
    | Returned(at: nat, until: nat, rows: seq<T>)
    | Failed

  /** Moment t is the t-th version of the file; the last one is now. */
  datatype State<T> = State(versions: seq<File>, entry: Entry<T>, holder: Option<nat>, calls: map<nat, Call<T>>)

  datatype Step = Write(f: File) | Begin(id: nat) | Lock(id: nat) | Compare(id: nat) | Read(id: nat) | Store(id: nat) | Fail(id: nat)

  function Now<T>(s: State<T>): nat {
    if |s.versions| == 0 then 0 else |s.versions| - 1
  }

  function Init<T>(f: File): State<T> {
    State([f], Entry(Info(0, 0), [], 0, 0), None, map[])
  }

  function Next<T(==)>(parse: seq<Byte> -> seq<T>, s: State<T>, step: Step): State<T> {
    if s.versions == [] then s else
    var now := Now(s);
    var file := s.versions[now];
    match step
    case Write(f) => s.(versions := s.versions + [f])
    case Begin(id) => if id in s.calls then s else s.(calls := s.calls[id := Waiting(now, Stat(file))])
    case Lock(id) =>
      if id in s.calls && s.calls[id].Waiting? && s.holder == None then
        s.(holder := Some(id), calls := s.calls[id := Holding(s.calls[id].at, s.calls[id].key)])
      else s
    case Compare(id) =>
      if id in s.calls && s.calls[id].Holding? then
        var c := s.calls[id];
        if Hits(s.entry, c.key) then
          s.(holder := None, calls := s.calls[id := Returned(c.at, now, s.entry.rows)])
        else
          s.(calls := s.calls[id := Missed(c.at, c.key)])
      else s
    case Read(id) =>
      if id in s.calls && s.calls[id].Missed? then
        s.(calls := s.calls[id := HasRead(s.calls[id].at, s.calls[id].key, parse(file.content), now)])
      else s
    case Store(id) =>
      if id in s.calls && s.calls[id].HasRead? then
        var c := s.calls[id];
        s.(entry := Entry(c.key, c.rows, c.at, c.readAt), holder := None, calls := s.calls[id := Returned(c.at, now, c.rows)])
      else s
    case Fail(id) =>
      if id in s.calls && s.calls[id].Missed? then s.(holder := None, calls := s.calls[id := Failed]) else s
  }

  function Run<T(==)>(parse: seq<Byte> -> seq<T>, s: State<T>, steps: seq<Step>): State<T>
    decreases |steps|
  {
    if steps == [] then s else Run(parse, Next(parse, s, steps[0]), steps[1..])
  }

  // ------------------------------------------------------------------ freshness

  /** The rows are what a fresh read would have returned at some moment from `from` to `until`. */
  ghost predicate Fresh<T>(parse: seq<Byte> -> seq<T>, versions: seq<File>, from: nat, until: nat, rows: seq<T>) {
    exists t: nat :: from <= t <= until && t < |versions| && rows == parse(versions[t].content)
  }

  /** Every call that returned rows returned fresh ones. */
  ghost predicate AllFresh<T>(parse: seq<Byte> -> seq<T>, s: State<T>) {
    forall id: nat :: id in s.calls && s.calls[id].Returned? ==>
      Fresh(parse, s.versions, s.calls[id].at, s.calls[id].until, s.calls[id].rows)
  }

  /** The file only grows. */
  ghost predicate AppendOnly(vs: seq<File>) {
    forall i: nat, j: nat :: i <= j < |vs| ==> vs[i].content <= vs[j].content
  }

  /** When a key comes back, whatever was read in between reads the same now, or had no rows. */
  ghost predicate KeysNeverMislead<T>(parse: seq<Byte> -> seq<T>, vs: seq<File>) {
    forall i: nat, j: nat, k: nat :: i <= j <= k < |vs| && Stat(vs[i]) == Stat(vs[k]) ==>
      parse(vs[j].content) == [] || parse(vs[j].content) == parse(vs[k].content)
  }

  lemma AppendOnlyIsEnough<T>(parse: seq<Byte> -> seq<T>, vs: seq<File>)
    requires AppendOnly(vs)
    ensures KeysNeverMislead(parse, vs)
  {
    forall i: nat, j: nat, k: nat | i <= j <= k < |vs| && Stat(vs[i]) == Stat(vs[k])
      ensures parse(vs[j].content) == parse(vs[k].content)
    {
      assert vs[i].content <= vs[j].content <= vs[k].content;
      assert vs[j].content == vs[k].content;
    }
  }

  // ------------------------------------------------------------------ the invariant

  ghost predicate EntryOk<T>(parse: seq<Byte> -> seq<T>, vs: seq<File>, e: Entry<T>) {
    e.rows != [] ==>
      e.statAt <= e.readAt < |vs| && e.key == Stat(vs[e.statAt]) && e.rows == parse(vs[e.readAt].content)
  }

  ghost predicate CallOk<T>(parse: seq<Byte> -> seq<T>, vs: seq<File>, c: Call<T>) {
    match c
    case Waiting(at, key) => at < |vs| && key == Stat(vs[at])
    case Holding(at, key) => at < |vs| && key == Stat(vs[at])
    case Missed(at, key) => at < |vs| && key == Stat(vs[at])
    case HasRead(at, key, rows, readAt) =>
      at <= readAt < |vs| && key == Stat(vs[at]) && rows == parse(vs[readAt].content)
    case Returned(at, until, rows) => until < |vs| && Fresh(parse, vs, at, until, rows)
    case Failed => true
  }

  /** The mutex: a call is inside its critical section exactly when it holds the lock. */
  ghost predicate LockOk<T>(s: State<T>) {
    forall id: nat :: (id in s.calls && (s.calls[id].Holding? || s.calls[id].Missed? || s.calls[id].HasRead?)) <==> s.holder == Some(id)
  }

  ghost predicate Inv<T>(parse: seq<Byte> -> seq<T>, s: State<T>) {
    && s.versions != []
    && EntryOk(parse, s.versions, s.entry)
    && (forall id: nat :: id in s.calls ==> CallOk(parse, s.versions, s.calls[id]))
    && LockOk(s)
  }

  lemma CallOkLater<T>(parse: seq<Byte> -> seq<T>, vs: seq<File>, f: File, c: Call<T>)
    requires CallOk(parse, vs, c)
    ensures CallOk(parse, vs + [f], c)
  {
    if c.Returned? {
      var t: nat :| c.at <= t <= c.until && t < |vs| && c.rows == parse(vs[t].content);
      assert (vs + [f])[t] == vs[t];
    }
  }

  /** A hit is fresh: either its rows were read since the stat, or the key vouches for them. */
  lemma HitIsFresh<T>(parse: seq<Byte> -> seq<T>, vs: seq<File>, e: Entry<T>, at: nat)
    requires EntryOk(parse, vs, e) && at < |vs| && Hits(e, Stat(vs[at])) && KeysNeverMislead(parse, vs)
    ensures Fresh(parse, vs, at, |vs| - 1, e.rows)
  {
    if e.readAt >= at {
      assert e.rows == parse(vs[e.readAt].content);
    } else {
      assert e.statAt <= e.readAt <= at < |vs|;
      assert e.rows == parse(vs[at].content);
    }
  }

  lemma StepKeeps<T>(parse: seq<Byte> -> seq<T>, s: State<T>, step: Step)
    requires Inv(parse, s) && KeysNeverMislead(parse, s.versions)
    ensures Inv(parse, Next(parse, s, step))
  {
    hide KeysNeverMislead;
    match step {
      case Write(f) =>
        forall id: nat | id in s.calls
          ensures CallOk(parse, s.versions + [f], s.calls[id])
        {
          CallOkLater(parse, s.versions, f, s.calls[id]);
        }
      case Compare(id) =>
        if id in s.calls && s.calls[id].Holding? && Hits(s.entry, s.calls[id].key) {
          HitIsFresh(parse, s.versions, s.entry, s.calls[id].at);
        }
      case Store(id) =>
        if id in s.calls && s.calls[id].HasRead? {
          var c := s.calls[id];
          assert c.rows == parse(s.versions[c.readAt].content);
        }
      case _ =>
    }
  }

  lemma {:induction false} VersionsGrow<T>(parse: seq<Byte> -> seq<T>, s: State<T>, steps: seq<Step>)
    ensures s.versions <= Run(parse, s, steps).versions
    decreases |steps|
  {
    if steps != [] {
      VersionsGrow(parse, Next(parse, s, steps[0]), steps[1..]);
    }
  }

  lemma MisleadPrefix<T>(parse: seq<Byte> -> seq<T>, us: seq<File>, vs: seq<File>)
    requires us <= vs && KeysNeverMislead(parse, vs)
    ensures KeysNeverMislead(parse, us)
  {
    forall i: nat, j: nat, k: nat | i <= j <= k < |us| && Stat(us[i]) == Stat(us[k])
      ensures parse(us[j].content) == [] || parse(us[j].content) == parse(us[k].content)
    {
      assert us[i] == vs[i] && us[j] == vs[j] && us[k] == vs[k];
    }
  }

  lemma {:induction false} RunKeeps<T>(parse: seq<Byte> -> seq<T>, s: State<T>, steps: seq<Step>)
    requires Inv(parse, s) && KeysNeverMislead(parse, Run(parse, s, steps).versions)
    ensures Inv(parse, Run(parse, s, steps))
    decreases |steps|
  {
    hide Inv, Next, KeysNeverMislead;
    if steps != [] {
      VersionsGrow(parse, s, steps);
      MisleadPrefix(parse, s.versions, Run(parse, s, steps).versions);
      StepKeeps(parse, s, steps[0]);
      RunKeeps(parse, Next(parse, s, steps[0]), steps[1..]);
    }
  }

  lemma FreshUnlessMisled<T>(parse: seq<Byte> -> seq<T>, first: File, steps: seq<Step>)
    requires KeysNeverMislead(parse, Run(parse, Init(first), steps).versions)
    ensures AllFresh(parse, Run(parse, Init(first), steps))
  {
    var s := Run(parse, Init(first), steps);
    RunKeeps(parse, Init(first), steps);
    forall id: nat | id in s.calls && s.calls[id].Returned?
      ensures Fresh(parse, s.versions, s.calls[id].at, s.calls[id].until, s.calls[id].rows)
    {
      assert CallOk(parse, s.versions, s.calls[id]);
    }
  }

  /** On a file that only grows the cache never shows what a fresh read could not have shown. */
  lemma CacheIsFresh<T>(parse: seq<Byte> -> seq<T>, first: File, steps: seq<Step>)
    requires AppendOnly(Run(parse, Init(first), steps).versions)
    ensures AllFresh(parse, Run(parse, Init(first), steps))
  {
    AppendOnlyIsEnough(parse, Run(parse, Init(first), steps).versions);
    FreshUnlessMisled(parse, first, steps);
  }

  // ------------------------------------------- exactly which histories are safe

  function Writes(fs: seq<File>): seq<Step> {
    seq(|fs|, i requires 0 <= i < |fs| => Write(fs[i]))
  }

  lemma {:induction false} RunWrites<T>(parse: seq<Byte> -> seq<T>, s: State<T>, fs: seq<File>)
    requires s.versions != []
    ensures Run(parse, s, Writes(fs)) == s.(versions := s.versions + fs)
    decreases |fs|
  {
    if fs == [] {
      assert s.versions + fs == s.versions;
    } else {
      assert Writes(fs)[1..] == Writes(fs[1..]);
      RunWrites(parse, Next(parse, s, Write(fs[0])), fs[1..]);
      assert s.versions + [fs[0]] + fs[1..] == s.versions + fs;
    }
  }

  lemma {:induction false} RunConcat<T>(parse: seq<Byte> -> seq<T>, s: State<T>, a: seq<Step>, b: seq<Step>)
    ensures Run(parse, s, a + b) == Run(parse, Run(parse, s, a), b)
    decreases |a|
  {
    if a == [] {
      assert a + b == b;
    } else {
      assert (a + b)[1..] == a[1..] + b;
      RunConcat(parse, Next(parse, s, a[0]), a[1..], b);
    }
  }

  lemma FourSteps<T>(parse: seq<Byte> -> seq<T>, s: State<T>, a: Step, b: Step, c: Step, d: Step)
    ensures
      Run(parse, s, [a, b, c, d]) ==
      Next(parse, Next(parse, Next(parse, Next(parse, s, a), b), c), d)
  {
    hide Next;
    var s1 := Next(parse, s, a);
    var s2 := Next(parse, s1, b);
    var s3 := Next(parse, s2, c);
    assert [a, b, c, d][1..] == [b, c, d] && [b, c, d][1..] == [c, d] && [c, d][1..] == [d];
    assert Run(parse, s1, [b, c, d]) == Run(parse, s2, [c, d]) == Run(parse, s3, [d]);
    assert Run(parse, s3, [d]) == Run(parse, Next(parse, s3, d), []);
  }

  lemma ServeHit<T>(parse: seq<Byte> -> seq<T>, s: State<T>, id: nat)
    requires s.versions != [] && id in s.calls && s.calls[id].Waiting? && s.holder == None
    requires Hits(s.entry, s.calls[id].key)
    ensures
      Next(parse, Next(parse, Next(parse, Next(parse, s, Lock(id)), Compare(id)), Read(id)), Store(id)) ==
      s.(calls := s.calls[id := Returned(s.calls[id].at, Now(s), s.entry.rows)])
  {
    hide Hits;
    var s1 := Next(parse, s, Lock(id));
    assert s1 == s.(holder := Some(id), calls := s.calls[id := Holding(s.calls[id].at, s.calls[id].key)]);
    assert Next(parse, s1, Compare(id)) == s.(calls := s.calls[id := Returned(s.calls[id].at, Now(s), s.entry.rows)]);
  }

  lemma ServeMiss<T>(parse: seq<Byte> -> seq<T>, s: State<T>, id: nat)
    requires s.versions != [] && id in s.calls && s.calls[id].Waiting? && s.holder == None
    requires !Hits(s.entry, s.calls[id].key)
    ensures
      var c, rows := s.calls[id], parse(s.versions[Now(s)].content);
      Next(parse, Next(parse, Next(parse, Next(parse, s, Lock(id)), Compare(id)), Read(id)), Store(id)) ==
      s.(calls := s.calls[id := Returned(c.at, Now(s), rows)], entry := Entry(c.key, rows, c.at, Now(s)))
  {
    hide Hits;
    var c, rows := s.calls[id], parse(s.versions[Now(s)].content);
    var s1 := Next(parse, s, Lock(id));
    var s2 := Next(parse, s1, Compare(id));
    var s3 := Next(parse, s2, Read(id));
    assert s1 == s.(holder := Some(id), calls := s.calls[id := Holding(c.at, c.key)]);
    assert s2 == s1.(calls := s.calls[id := Missed(c.at, c.key)]);
    assert s3 == s1.(calls := s.calls[id := HasRead(c.at, c.key, rows, Now(s))]);
  }

  /** The call with this id, alone with the lock free, from its Lock to its return. */
  lemma Serve<T>(parse: seq<Byte> -> seq<T>, s: State<T>, id: nat)
    requires s.versions != [] && id in s.calls && s.calls[id].Waiting? && s.holder == None
    ensures
      var at, key := s.calls[id].at, s.calls[id].key;
      var rows := if Hits(s.entry, key) then s.entry.rows else parse(s.versions[Now(s)].content);
      Run(parse, s, [Lock(id), Compare(id), Read(id), Store(id)]) ==
      s.(calls := s.calls[id := Returned(at, Now(s), rows)],
         entry := if Hits(s.entry, key) then s.entry else Entry(key, rows, at, Now(s)))
  {
    hide Run, Next;
    FourSteps(parse, s, Lock(id), Compare(id), Read(id), Store(id));
    if Hits(s.entry, s.calls[id].key) {
      ServeHit(parse, s, id);
    } else {
      ServeMiss(parse, s, id);
    }
  }

  lemma Opening<T>(parse: seq<Byte> -> seq<T>, s: State<T>, id: nat)
    requires s.versions != [] && id !in s.calls
    ensures Run(parse, s, [Begin(id)]) == s.(calls := s.calls[id := Waiting(Now(s), Stat(s.versions[Now(s)]))])
  {
    assert Run(parse, s, [Begin(id)]) == Run(parse, Next(parse, s, Begin(id)), []);
  }

  function ServeSteps(id: nat): seq<Step> {
    [Lock(id), Compare(id), Read(id), Store(id)]
  }

  lemma ServeAll<T>(parse: seq<Byte> -> seq<T>, s: State<T>, id: nat)
    requires s.versions != [] && id in s.calls && s.calls[id].Waiting? && s.holder == None
    ensures
      var at, key := s.calls[id].at, s.calls[id].key;
      var rows := if Hits(s.entry, key) then s.entry.rows else parse(s.versions[Now(s)].content);
      Run(parse, s, ServeSteps(id)) ==
      s.(calls := s.calls[id := Returned(at, Now(s), rows)],
         entry := if Hits(s.entry, key) then s.entry else Entry(key, rows, at, Now(s)))
  {
    Serve(parse, s, id);
  }

  /** From version i, one call stats there and is served at version j. */
  lemma CallAcross<T>(parse: seq<Byte> -> seq<T>, vs: seq<File>, s: State<T>, id: nat, i: nat, j: nat)
    requires i <= j < |vs| && s.versions == vs[..i + 1] && s.holder == None && id !in s.calls
    ensures
      var key := Stat(vs[i]);
      var rows := if Hits(s.entry, key) then s.entry.rows else parse(vs[j].content);
      Run(parse, s, [Begin(id)] + (Writes(vs[i + 1..j + 1]) + ServeSteps(id))) ==
      s.(versions := vs[..j + 1], calls := s.calls[id := Returned(i, j, rows)],
         entry := if Hits(s.entry, key) then s.entry else Entry(key, rows, i, j))
  {
    hide Run, Next, ServeSteps, Writes, Stat, Hits;
    var writes, key := vs[i + 1..j + 1], Stat(vs[i]);
    var s1 := s.(calls := s.calls[id := Waiting(i, key)]);
    var s2 := s1.(versions := vs[..j + 1]);
    assert Run(parse, s, [Begin(id)] + (Writes(writes) + ServeSteps(id))) ==
           Run(parse, s1, Writes(writes) + ServeSteps(id)) by {
      RunConcat(parse, s, [Begin(id)], Writes(writes) + ServeSteps(id));
      Opening(parse, s, id);
    }
    assert Run(parse, s1, Writes(writes) + ServeSteps(id)) == Run(parse, s2, ServeSteps(id)) by {
      RunConcat(parse, s1, Writes(writes), ServeSteps(id));
      RunWrites(parse, s1, writes);
      assert s1.versions + writes == vs[..j + 1];
    }
    assert Now(s2) == j && s2.versions[j] == vs[j];
    ServeAll(parse, s2, id);
    var rows := if Hits(s.entry, key) then s.entry.rows else parse(vs[j].content);
    assert s2.calls[id := Returned(i, j, rows)] == s.calls[id := Returned(i, j, rows)];
  }

  /** The schedule that lets a key mislead: one call stats at i and reads at j, another comes at k. */
  function StaleSchedule(vs: seq<File>, i: nat, j: nat, k: nat): seq<Step>
    requires i <= j <= k < |vs|
  {
    Writes(vs[1..i + 1]) +
    (([Begin(0)] + (Writes(vs[i + 1..j + 1]) + ServeSteps(0))) +
     (Writes(vs[j + 1..k + 1]) + ([Begin(1)] + (Writes(vs[k + 1..k + 1]) + ServeSteps(1)))))
  }

  lemma StaleRun<T>(parse: seq<Byte> -> seq<T>, vs: seq<File>, i: nat, j: nat, k: nat)
    requires i <= j <= k < |vs| && Stat(vs[i]) == Stat(vs[k]) && parse(vs[j].content) != []
    ensures
      var s := Run(parse, Init(vs[0]), StaleSchedule(vs, i, j, k));
      s.versions == vs[..k + 1] && 1 in s.calls && s.calls[1] == Returned(k, k, parse(vs[j].content))
  {
    hide Run, Next, ServeSteps, Writes;
    var t3 := [Begin(1)] + (Writes(vs[k + 1..k + 1]) + ServeSteps(1));
    var t2 := Writes(vs[j + 1..k + 1]) + t3;
    var t1 := [Begin(0)] + (Writes(vs[i + 1..j + 1]) + ServeSteps(0));
    var s0: State<T> := Init(vs[0]);
    RunConcat(parse, s0, Writes(vs[1..i + 1]), t1 + t2);
    RunWrites(parse, s0, vs[1..i + 1]);
    assert s0.versions + vs[1..i + 1] == vs[..i + 1];
    var s1 := s0.(versions := vs[..i + 1]);
    RunConcat(parse, s1, t1, t2);
    CallAcross(parse, vs, s1, 0, i, j);
    var s2 := Run(parse, s1, t1);
    RunConcat(parse, s2, Writes(vs[j + 1..k + 1]), t3);
    RunWrites(parse, s2, vs[j + 1..k + 1]);
    assert s2.versions + vs[j + 1..k + 1] == vs[..k + 1];
    CallAcross(parse, vs, s2.(versions := vs[..k + 1]), 1, k, k);
  }

  /** Whatever the file goes through, every schedule is fresh exactly when no key misleads. */
  ghost predicate AlwaysFresh<T(!new)>(parse: seq<Byte> -> seq<T>, vs: seq<File>)
    requires vs != []
  {
    forall steps :: Run(parse, Init(vs[0]), steps).versions <= vs ==> AllFresh(parse, Run(parse, Init(vs[0]), steps))
  }

  lemma SomeScheduleIsStale<T(!new)>(parse: seq<Byte> -> seq<T>, vs: seq<File>, i: nat, j: nat, k: nat)
    requires i <= j <= k < |vs| && Stat(vs[i]) == Stat(vs[k])
    requires parse(vs[j].content) != [] && parse(vs[j].content) != parse(vs[k].content)
    ensures !AlwaysFresh(parse, vs)
  {
    StaleRun(parse, vs, i, j, k);
    var s := Run(parse, Init(vs[0]), StaleSchedule(vs, i, j, k));
    hide Run, StaleSchedule;
    assert s.versions <= vs;
    assert !Fresh(parse, s.versions, s.calls[1].at, s.calls[1].until, s.calls[1].rows);
    assert !AllFresh(parse, s);
  }

  lemma FreshExactlyWhen<T(!new)>(parse: seq<Byte> -> seq<T>, vs: seq<File>)
    requires vs != []
    ensures AlwaysFresh(parse, vs) <==> KeysNeverMislead(parse, vs)
  {
    hide AllFresh;
    if KeysNeverMislead(parse, vs) {
      hide Run;
      forall steps | Run(parse, Init(vs[0]), steps).versions <= vs
        ensures AllFresh(parse, Run(parse, Init(vs[0]), steps))
      {
        MisleadPrefix(parse, Run(parse, Init(vs[0]), steps).versions, vs);
        FreshUnlessMisled(parse, vs[0], steps);
      }
    } else {
      var i: nat, j: nat, k: nat :| i <= j <= k < |vs| && Stat(vs[i]) == Stat(vs[k]) &&
                                    parse(vs[j].content) != [] && parse(vs[j].content) != parse(vs[k].content);
      SomeScheduleIsStale(parse, vs, i, j, k);
    }
  }

  // ------------------------------------------------------------------- the entry

  /** What an entry keeps. */
  datatype Kept<T> = Kept(key: Info, rows: seq<T>)

  /** What ReadCached returns and keeps, with the stat from before the lock and what it reads under it. */
  function Served<T(==)>(e: Kept<T>, fi: Info, file: Option<seq<Byte>>, parse: seq<Byte> -> seq<T>):
      (Option<seq<T>>, Kept<T>)
  {
    if e.rows != [] && e.key == fi then (Some(e.rows), e)
    else if file.None? then (None, e)
    else (Some(parse(file.value)), Kept(fi, parse(file.value)))
  }

  /** One serving is the machine's steps under the lock, taken together. */
  lemma ServedIsTheSteps<T>(parse: seq<Byte> -> seq<T>, s: State<T>, id: nat)
    requires s.versions != [] && id in s.calls && s.calls[id].Waiting? && s.holder == None
    ensures
      var t := Run(parse, s, ServeSteps(id));
      var content := s.versions[Now(s)].content;
      var (r, e) := Served(Kept(s.entry.key, s.entry.rows), s.calls[id].key, Some(content), parse);
      && t.holder == None && t.versions == s.versions && id in t.calls && t.calls[id].Returned?
      && r == Some(t.calls[id].rows) && e == Kept(t.entry.key, t.entry.rows)
  {
    hide Run, ServeSteps;
    ServeAll(parse, s, id);
  }

  /** And with a read that fails. */
  lemma ServedIsTheFailingSteps<T>(parse: seq<Byte> -> seq<T>, s: State<T>, id: nat)
    requires s.versions != [] && id in s.calls && s.calls[id].Waiting? && s.holder == None
    ensures
      var t := Run(parse, s, [Lock(id), Compare(id), Fail(id)]);
      var (r, e) := Served(Kept(s.entry.key, s.entry.rows), s.calls[id].key, None, parse);
      && t.holder == None && t.versions == s.versions && id in t.calls && e == Kept(t.entry.key, t.entry.rows)
      && if r.None? then t.calls[id] == Failed else t.calls[id].Returned? && r == Some(t.calls[id].rows)
  {
    hide Run;
    ThreeSteps(parse, s, Lock(id), Compare(id), Fail(id));
  }

  lemma ThreeSteps<T>(parse: seq<Byte> -> seq<T>, s: State<T>, a: Step, b: Step, c: Step)
    ensures Run(parse, s, [a, b, c]) == Next(parse, Next(parse, Next(parse, s, a), b), c)
  {
    hide Next;
    var s1 := Next(parse, s, a);
    var s2 := Next(parse, s1, b);
    assert [a, b, c][1..] == [b, c] && [b, c][1..] == [c];
    assert Run(parse, s1, [b, c]) == Run(parse, s2, [c]) == Run(parse, Next(parse, s2, c), []);
  }

  /** seriesEntry, and the part of ReadCached that runs under its lock. */
  class SeriesEntry<T(==)> {
    var size: nat
    var mtime: int
    var rows: seq<T>

    ghost function Value(): Kept<T>
      reads this
    {
      Kept(Info(size, mtime), rows)
    }

    constructor ()
      ensures Value() == Kept(Info(0, 0), [])
    {
      size, mtime, rows := 0, 0, [];
    }

    /** fi is what the stat before the lock saw, file what ReadFile sees now, if it can. */
    method Serve(fi: Info, file: Option<seq<Byte>>, parse: seq<Byte> -> seq<T>) returns (r: Option<seq<T>>)
      modifies this
      ensures (r, Value()) == Served(old(Value()), fi, file, parse)
    {
      if rows != [] && size == fi.size && mtime == fi.mtime {
        return Some(rows);
      }
      if file.None? {
        return None;
      }
      var parsed := parse(file.value);
      size, mtime, rows := fi.size, fi.mtime, parsed;
      return Some(parsed);
    }
  }
}
