/**
  The rate limiter for repeated server messages of project/fuzzer/fuzz_logspam.h: a table of 128
  slots, scanned and updated in place by a hook that may silence the message it is given.
  Messages are told apart by the hash of their format string; counters do not wrap here.
*/
module LogSpam {

  import opened Options

  const SLOTS := 128
  const LOUD := 5
  const EVERY := 10000

  type Hash = bv32
  /** A C string without its terminator. */
  type Text = seq<bv8>

  /** FNV-1a. */
  function Fnv(s: Text): Hash {
    if s == [] then 2166136261 else FnvStep(Fnv(s[..|s| - 1]), s[|s| - 1])
  }

  function FnvStep(h: Hash, b: bv8): Hash {
    (h ^ (b as bv32)) * 16777619
  }

  lemma FnvSnoc(s: Text, b: bv8)
    ensures Fnv(s + [b]) == FnvStep(Fnv(s), b)
  {
    hide FnvStep;
    assert (s + [b])[..|s|] == s;
  }

  method FnvHash(s: Text) returns (h: Hash)
    ensures h == Fnv(s)
  {
    hide FnvStep;
    h := 2166136261;
    for i := 0 to |s|
      invariant h == Fnv(s[..i])
    {
      FnvSnoc(s[..i], s[i]);
      assert s[..i + 1] == s[..i] + [s[i]];
      h := FnvStep(h, s[i]);
    }
    assert s[..|s|] == s;
  }

  // ---------------------------------------------------------- what the table should hold

  /** The distinct hashes of a history, in order of first appearance. */
  function Distinct(hs: seq<Hash>): seq<Hash> {
    if hs == [] then []
    else
      var d, h := Distinct(hs[..|hs| - 1]), hs[|hs| - 1];
      if h in d then d else d + [h]
  }

  /** The hashes that have a slot: the first 128. */
  function Tracked(hs: seq<Hash>): (d: seq<Hash>)
    ensures |d| <= SLOTS
  {
    var d := Distinct(hs);
    if |d| <= SLOTS then d else d[..SLOTS]
  }

  function Count(hs: seq<Hash>, h: Hash): nat {
    if hs == [] then 0 else Count(hs[..|hs| - 1], h) + if hs[|hs| - 1] == h then 1 else 0
  }

  /** Whether the n-th occurrence of a tracked message is let through. */
  predicate LetThrough(n: nat) {
    n <= LOUD || n % EVERY == 0
  }

  /** How many of the first n occurrences are let through. */
  function Passed(n: nat): nat {
    if n == 0 then 0 else Passed(n - 1) + if LetThrough(n) then 1 else 0
  }

  /** How many occurrences have been suppressed since the last report, after n of them. */
  function Pending(n: nat): nat {
    if n == 0 then 0
    else if n <= LOUD then Pending(n - 1)
    else if n % EVERY == 0 then 0
    else Pending(n - 1) + 1
  }

  /** The sum of the suppressed counts reported over the first n occurrences. */
  function Reported(n: nat): nat {
    if n == 0 then 0
    else Reported(n - 1) + if n > LOUD && n % EVERY == 0 then Pending(n - 1) else 0
  }

  lemma NextQuotient(n: nat)
    ensures (n + 1) / EVERY == n / EVERY + if (n + 1) % EVERY == 0 then 1 else 0
  {
  }

  lemma {:induction false} PassedInClosedForm(n: nat)
    ensures Passed(n) == (if n < 5 then n else 5) + n / 10_000
  {
    if n > 0 {
      PassedInClosedForm(n - 1);
      NextQuotient(n - 1);
    }
  }

  /** Nothing is lost from the account: passed, reported and pending are all there is. */
  lemma {:induction false} EveryOccurrenceIsAccountedFor(n: nat)
    ensures Passed(n) + Reported(n) + Pending(n) == n
  {
    if n > 0 {
      EveryOccurrenceIsAccountedFor(n - 1);
    }
  }

  /** Among any 10000 consecutive occurrences one is let through. */
  lemma NeverSilentForLong(n: nat) returns (m: nat)
    ensures n < m <= n + 10_000 && LetThrough(m)
  {
    m := EVERY * (n / EVERY + 1);
    assert m % EVERY == 0;
  }

  // ------------------------------------------------------------------- the decisions

  /** Whether the last message of a history reaches the server log. */
  predicate Shown(hs: seq<Hash>)
    requires hs != []
  {
    var h := hs[|hs| - 1];
    h !in Tracked(hs) || LetThrough(Count(hs, h))
  }

  /** How many occurrences of h in a history were let through. */
  function ShownCount(hs: seq<Hash>, h: Hash): nat {
    if hs == [] then 0
    else ShownCount(hs[..|hs| - 1], h) + if hs[|hs| - 1] == h && Shown(hs) then 1 else 0
  }

  lemma CountSnoc(hs: seq<Hash>, x: Hash, h: Hash)
    ensures Count(hs + [x], h) == Count(hs, h) + if x == h then 1 else 0
  {
    assert (hs + [x])[..|hs|] == hs;
  }

  lemma {:induction false} DistinctIs(hs: seq<Hash>)
    ensures forall h :: h in Distinct(hs) <==> h in hs
    ensures forall i, j :: 0 <= i < j < |Distinct(hs)| ==> Distinct(hs)[i] != Distinct(hs)[j]
  {
    if hs != [] {
      DistinctIs(hs[..|hs| - 1]);
      assert hs == hs[..|hs| - 1] + [hs[|hs| - 1]];
    }
  }

  /** A slot, once taken, is never given up, and one is taken only at a first occurrence. */
  lemma TrackedSnoc(hs: seq<Hash>, h: Hash)
    ensures Tracked(hs) <= Tracked(hs + [h])
    ensures Tracked(hs + [h]) == if h in hs || |Tracked(hs)| == SLOTS then Tracked(hs) else Tracked(hs) + [h]
  {
    DistinctIs(hs);
    assert (hs + [h])[..|hs|] == hs;
  }

  /**
    A tracked message is let through min(n, 5) + n / 10000 times in n occurrences; a message that
    found the table full is always let through.
  */
  lemma {:induction false} ShownExactly(hs: seq<Hash>, h: Hash)
    ensures ShownCount(hs, h) == if h in Tracked(hs) then Passed(Count(hs, h)) else Count(hs, h)
  {
    if hs != [] {
      var before, x := hs[..|hs| - 1], hs[|hs| - 1];
      assert hs == before + [x];
      ShownExactly(before, h);
      CountSnoc(before, x, h);
      TrackedSnoc(before, x);
      NotSeen(before, h);
      if h in Tracked(hs) && h !in Tracked(before) {
        assert h == x && h !in before;
      }
    }
  }

  // ------------------------------------------------------------------- text by text

  function Hashes(ts: seq<Text>): seq<Hash> {
    if ts == [] then [] else Hashes(ts[..|ts| - 1]) + [Fnv(ts[|ts| - 1])]
  }

  function TextCount(ts: seq<Text>, t: Text): nat {
    if ts == [] then 0 else TextCount(ts[..|ts| - 1], t) + if ts[|ts| - 1] == t then 1 else 0
  }

  /** How many occurrences of text t in a history of texts were let through. */
  function TextShown(ts: seq<Text>, t: Text): nat {
    if ts == [] then 0
    else TextShown(ts[..|ts| - 1], t) + if ts[|ts| - 1] == t && Shown(Hashes(ts)) then 1 else 0
  }

  /** No other text of this history has the hash of t. */
  ghost predicate AloneInHash(ts: seq<Text>, t: Text) {
    forall u :: u in ts && Fnv(u) == Fnv(t) ==> u == t
  }

  lemma HashesSnoc(ts: seq<Text>, t: Text)
    ensures Hashes(ts + [t]) == Hashes(ts) + [Fnv(t)]
  {
    assert (ts + [t])[..|ts|] == ts;
  }

  lemma {:induction false} HashCounts(ts: seq<Text>, t: Text)
    requires AloneInHash(ts, t)
    ensures Count(Hashes(ts), Fnv(t)) == TextCount(ts, t) && ShownCount(Hashes(ts), Fnv(t)) == TextShown(ts, t)
  {
    hide Fnv, Shown;
    if ts != [] {
      var before, u := ts[..|ts| - 1], ts[|ts| - 1];
      assert ts == before + [u] && forall v :: v in before ==> v in ts;
      HashCounts(before, t);
      HashesSnoc(before, u);
      assert Hashes(ts)[..|Hashes(ts)| - 1] == Hashes(before);
    }
  }

  /** A text that shares its hash with no other is let through as often as its own occurrences say. */
  lemma TextShownExactly(ts: seq<Text>, t: Text)
    requires AloneInHash(ts, t)
    ensures TextShown(ts, t) == if Fnv(t) in Tracked(Hashes(ts)) then Passed(TextCount(ts, t)) else TextCount(ts, t)
  {
    hide Fnv, Shown, Tracked, Passed;
    HashCounts(ts, t);
    ShownExactly(Hashes(ts), Fnv(t));
  }

  predicate ShownAfter(ts: seq<Text>, t: Text) {
    Shown(Hashes(ts) + [Fnv(t)])
  }

  /** Whatever a program that logs these texts has logged, t is shown for its first five occurrences. */
  ghost predicate LoudAreShown(us: set<Text>, t: Text) {
    forall ts: seq<Text> :: (forall u :: u in ts ==> u in us) && TextCount(ts, t) < 5 ==> ShownAfter(ts, t)
  }

  /** The first five occurrences of a text get through exactly when no other text of the program has its hash. */
  lemma LoudAreShownExactlyWhen(us: set<Text>, t: Text)
    ensures LoudAreShown(us, t) <==> forall u :: u in us && Fnv(u) == Fnv(t) ==> u == t
  {
    hide Fnv, Shown;
    if u :| u in us && Fnv(u) == Fnv(t) && u != t {
      var ts := Copies(u, LOUD);
      HashesOfCopies(u, LOUD);
      NotCounted(ts, t);
      SixthIsSilent(Fnv(t));
      assert !ShownAfter(ts, t);
    } else {
      forall ts: seq<Text> | (forall u :: u in ts ==> u in us) && TextCount(ts, t) < LOUD
        ensures ShownAfter(ts, t)
      {
        HashCounts(ts, t);
        FewAreShown(Hashes(ts), Fnv(t));
      }
    }
  }

  lemma FewAreShown(hs: seq<Hash>, h: Hash)
    requires Count(hs, h) < LOUD
    ensures Shown(hs + [h])
  {
    CountSnoc(hs, h, h);
  }

  lemma {:induction false} NotCounted(ts: seq<Text>, t: Text)
    requires t !in ts
    ensures TextCount(ts, t) == 0
  {
    if ts != [] {
      assert ts[|ts| - 1] in ts && forall u :: u in ts[..|ts| - 1] ==> u in ts;
      NotCounted(ts[..|ts| - 1], t);
    }
  }

  function Copies<T>(x: T, n: nat): seq<T> {
    if n == 0 then [] else Copies(x, n - 1) + [x]
  }

  lemma {:induction false} HashesOfCopies(u: Text, n: nat)
    ensures Hashes(Copies(u, n)) == Copies(Fnv(u), n)
    ensures forall t :: t in Copies(u, n) ==> t == u
  {
    hide Fnv;
    if n > 0 {
      HashesOfCopies(u, n - 1);
      HashesSnoc(Copies(u, n - 1), u);
    }
  }

  lemma {:induction false} CopiesAre(h: Hash, n: nat)
    ensures Count(Copies(h, n), h) == n && Distinct(Copies(h, n)) == if n == 0 then [] else [h]
  {
    hide Count, Distinct;
    if n == 0 {
      NothingCounted(h);
    } else {
      var before := Copies(h, n - 1);
      CopiesAre(h, n - 1);
      CountSnoc(before, h, h);
      DistinctSnoc(before, h);
    }
  }

  lemma NothingCounted(h: Hash)
    ensures Count([], h) == 0 && Distinct([]) == []
  {
  }

  lemma DistinctSnoc(hs: seq<Hash>, h: Hash)
    ensures Distinct(hs + [h]) == if h in Distinct(hs) then Distinct(hs) else Distinct(hs) + [h]
  {
    assert (hs + [h])[..|hs|] == hs;
  }

  lemma SixthIsSilent(h: Hash)
    ensures !Shown(Copies(h, LOUD) + [h])
  {
    hide Copies, Distinct, Count;
    CopiesAre(h, LOUD + 1);
    CopiesSnoc(h, LOUD);
  }

  lemma CopiesSnoc(h: Hash, n: nat)
    ensures Copies(h, n + 1) == Copies(h, n) + [h]
  {
  }

  lemma OneMoreByte(s: Text, b: bv8, t: Text, h: Hash, next: Hash)
    requires t == s + [b] && Fnv(s) == h && FnvStep(h, b) == next
    ensures Fnv(t) == next
  {
    hide FnvStep;
    FnvSnoc(s, b);
  }

  lemma HashOfCostarring()
    ensures Fnv([99, 111, 115, 116, 97, 114, 114, 105, 110, 103]) == 0x5e4daa9d
  {
    hide Fnv;
    FnvOfNothing();
    OneMoreByte([], 99, [99], 0x811c9dc5, 0xe60c2c52);
    OneMoreByte([99], 111, [99, 111], 0xe60c2c52, 0x6229a407);
    OneMoreByte([99, 111], 115, [99, 111, 115], 0x6229a407, 0xfb8de29c);
    OneMoreByte([99, 111, 115], 116, [99, 111, 115, 116], 0xfb8de29c, 0xe85c3338);
    OneMoreByte([99, 111, 115, 116], 97, [99, 111, 115, 116, 97], 0xe85c3338, 0x2224d51b);
    OneMoreByte([99, 111, 115, 116, 97], 114, [99, 111, 115, 116, 97, 114], 0x2224d51b, 0x28fbf44b);
    OneMoreByte([99, 111, 115, 116, 97, 114], 114, [99, 111, 115, 116, 97, 114, 114], 0x28fbf44b, 0xbda175bb);
    OneMoreByte([99, 111, 115, 116, 97, 114, 114], 105,
                [99, 111, 115, 116, 97, 114, 114, 105], 0xbda175bb, 0x572c7996);
    OneMoreByte([99, 111, 115, 116, 97, 114, 114, 105], 110,
                [99, 111, 115, 116, 97, 114, 114, 105, 110], 0x572c7996, 0x33040168);
    OneMoreByte([99, 111, 115, 116, 97, 114, 114, 105, 110], 103,
                [99, 111, 115, 116, 97, 114, 114, 105, 110, 103], 0x33040168, 0x5e4daa9d);
  }

  lemma HashOfLiquid()
    ensures Fnv([108, 105, 113, 117, 105, 100]) == 0x5e4daa9d
  {
    hide Fnv;
    FnvOfNothing();
    OneMoreByte([], 108, [108], 0x811c9dc5, 0xe90c310b);
    OneMoreByte([108], 105, [108, 105], 0xe90c310b, 0x4031bd46);
    OneMoreByte([108, 105], 113, [108, 105, 113], 0x4031bd46, 0x454cdd95);
    OneMoreByte([108, 105, 113], 117, [108, 105, 113, 117], 0x454cdd95, 0xf80147a0);
    OneMoreByte([108, 105, 113, 117], 105, [108, 105, 113, 117, 105], 0xf80147a0, 0x3304016b);
    OneMoreByte([108, 105, 113, 117, 105], 100, [108, 105, 113, 117, 105, 100], 0x3304016b, 0x5e4daa9d);
  }

  lemma FnvOfNothing()
    ensures Fnv([]) == 2166136261
  {
  }

  /** Two words with one hash, costarring and liquid: each can silence the other's first occurrences. */
  lemma TwoTextsOneHash()
    ensures
      var costarring: Text := [99, 111, 115, 116, 97, 114, 114, 105, 110, 103];
      var liquid: Text := [108, 105, 113, 117, 105, 100];
      var us := {costarring, liquid};
      && costarring != liquid && Fnv(costarring) == Fnv(liquid)
      && !LoudAreShown(us, costarring) && !LoudAreShown(us, liquid)
  {
    hide Fnv, LoudAreShown;
    var costarring: Text := [99, 111, 115, 116, 97, 114, 114, 105, 110, 103];
    var liquid: Text := [108, 105, 113, 117, 105, 100];
    HashOfCostarring();
    HashOfLiquid();
    LoudAreShownExactlyWhen({costarring, liquid}, costarring);
    LoudAreShownExactlyWhen({costarring, liquid}, liquid);
  }

  // --------------------------------------------------------------------------- the hook

  /** The fields of ErrorData the hook looks at; panic says elevel >= PANIC. */
  datatype ErrorData = ErrorData(outputToServer: bool, panic: bool, messageId: Option<Text>, message: Option<Text>)

  /** The stderr line: times seen, and suppressed since the last report. */
  datatype Report = Report(seen: nat, suppressed: nat)

  /** The text whose hash identifies a message that may be throttled. */
  function Identity(e: ErrorData): Option<Text> {
    if !e.outputToServer || e.panic then None
    else if e.messageId.Some? then e.messageId
    else e.message
  }

  /**
    Every message of one ereport site is told by the site's format string, however its text varies;
    only without one does the text itself count.  A PANIC is nobody's repeat, nor is a silenced message.
  */
  lemma OneSiteOneIdentity(e: ErrorData, other: ErrorData)
    ensures Identity(e).None? <==> !e.outputToServer || e.panic || (e.messageId.None? && e.message.None?)
    ensures
      Identity(e).Some? && e.messageId.Some? && Identity(other).Some? && other.messageId == e.messageId ==>
        Identity(e) == Identity(other) == e.messageId
    ensures Identity(e).Some? && e.messageId.None? ==> Identity(e) == e.message
  {
  }

  class Limiter {
    const hash: array<Hash>
    const seen: array<nat>
    const suppressed: array<nat>
    var enabled: int  // -1 = not yet resolved
    ghost var history: seq<Hash>

    ghost predicate Valid()
      reads this, hash, seen, suppressed
    {
      && hash.Length == seen.Length == suppressed.Length == SLOTS
      && seen != suppressed && hash as object != seen as object && hash as object != suppressed as object
      && TableIs(hash[..], seen[..], suppressed[..], history)
    }

    /** pgfuzz_logspam_install. */
    constructor ()
      ensures Valid() && history == [] && enabled == -1 && fresh(hash) && fresh(seen) && fresh(suppressed)
    {
      hash := new Hash[SLOTS](_ => 0);
      seen := new nat[SLOTS](_ => 0);
      suppressed := new nat[SLOTS](_ => 0);
      enabled := -1;
      history := [];
    }

    /**
      The scan for a slot: the one that holds h, else the first free one, else -1.
    */
    method Find(h: Hash) returns (slot: int)
      requires Valid()
      ensures if slot < 0 then h !in Tracked(history) && |Tracked(history)| == 128 else SlotFor(history, h, slot)
    {
      slot := -1;
      ghost var d := Tracked(history);
      for i := 0 to SLOTS
        invariant forall k :: 0 <= k < i && k < |d| ==> d[k] != h
        invariant slot == if i <= |d| then -1 else |d|
      {
        if seen[i] == 0 {
          if slot < 0 {
            slot := i;
          }
          continue;
        }
        if hash[i] == h {
          slot := i;
          return;
        }
      }
    }

    /** pgfuzz_logspam_hook; logAll says what PGFUZZ_LOG_ALL resolves to. */
    method Hook(e: ErrorData, logAll: bool) returns (shown: bool, report: Option<Report>)
      requires Valid()
      modifies this, hash, seen, suppressed
      ensures Valid()
      ensures enabled == if old(enabled) >= 0 then old(enabled) else if logAll then 0 else 1
      ensures enabled == 0 || Identity(e).None? ==>
        history == old(history) && shown == e.outputToServer && report == None
      ensures enabled != 0 && Identity(e).Some? ==>
        var h := Fnv(Identity(e).value);
        var n := Count(history, h);
        && history == old(history) + [h] && shown == Shown(history)
        && report == if h in Tracked(history) && n > LOUD && n % EVERY == 0 then Some(Report(n, Pending(n - 1))) else None
    {
      hide Fnv, Shown, TableIs, Count, Tracked, Pending;
      report := None;
      shown := e.outputToServer;
      if enabled < 0 {
        enabled := if logAll then 0 else 1;
      }
      if enabled == 0 {
        return;
      }
      if !e.outputToServer || e.panic {
        return;
      }
      var id := if e.messageId.Some? then e.messageId else e.message;
      if id.None? {
        return;
      }
      var h := FnvHash(id.value);
      shown, report := Throttle(h);
    }

    /** The rest of the hook, for a message that may be throttled. */
    method Throttle(h: Hash) returns (shown: bool, report: Option<Report>)
      requires Valid()
      modifies this`history, hash, seen, suppressed
      ensures Valid() && history == old(history) + [h] && shown == Shown(history)
      ensures
        var n := Count(history, h);
        report == if h in Tracked(history) && n > LOUD && n % EVERY == 0 then Some(Report(n, Pending(n - 1))) else None
    {
      hide Count, Pending, Tracked, Shown, TableIs, SlotFor;
      shown, report := true, None;
      var slot := Find(h);
      ghost var was := history;
      history := history + [h];
      if slot < 0 {
        TableFull(hash[..], seen[..], suppressed[..], was, h);
        ShownIs(history);
        return;
      }
      ghost var hash0, seen0, suppressed0 := hash[..], seen[..], suppressed[..];
      SlotTaken(hash0, seen0, suppressed0, was, h, slot);
      SlotBefore(hash0, seen0, suppressed0, was, h, slot);
      shown, report := Bump(slot, h);
      ShownIs(history);
    }

    /** The slot is counted once more; what its count now is decides. */
    method Bump(slot: nat, h: Hash) returns (shown: bool, report: Option<Report>)
      requires hash.Length == seen.Length == suppressed.Length == SLOTS && slot < SLOTS
      requires seen != suppressed && hash as object != seen as object && hash as object != suppressed as object
      requires seen[slot] == 0 || (hash[slot] == h && suppressed[slot] == Pending(seen[slot]))
      modifies hash, seen, suppressed
      ensures
        var n := old(seen[slot]) + 1;
        && hash[..] == old(hash[..])[slot := h] && seen[..] == old(seen[..])[slot := n]
        && suppressed[..] == old(suppressed[..])[slot := Pending(n)]
        && shown == LetThrough(n)
        && report == if n > LOUD && n % EVERY == 0 then Some(Report(n, Pending(n - 1))) else None
    {
      shown, report := true, None;
      if seen[slot] == 0 {
        hash[slot] := h;
        suppressed[slot] := 0;
      }
      seen[slot] := seen[slot] + 1;
      if seen[slot] <= LOUD {
        PendingWhileLoud(seen[slot]);
        PendingWhileLoud(seen[slot] - 1);
        return;
      }
      if seen[slot] % EVERY == 0 {
        report := Some(Report(seen[slot], suppressed[slot]));
        suppressed[slot] := 0;
        return;
      }
      suppressed[slot] := suppressed[slot] + 1;
      shown := false;
    }
  }

  lemma {:induction false} PendingWhileLoud(n: nat)
    requires n <= LOUD
    ensures Pending(n) == 0
  {
    if n > 0 {
      PendingWhileLoud(n - 1);
    }
  }

  lemma ShownIs(hs: seq<Hash>)
    requires hs != []
    ensures Shown(hs) == (hs[|hs| - 1] in Tracked(hs) ==> LetThrough(Count(hs, hs[|hs| - 1])))
  {
  }

  lemma TableFull(hash: seq<Hash>, seen: seq<nat>, suppressed: seq<nat>, history: seq<Hash>, h: Hash)
    requires TableIs(hash, seen, suppressed, history) && h !in Tracked(history) && |Tracked(history)| == SLOTS
    ensures TableIs(hash, seen, suppressed, history + [h]) && h !in Tracked(history + [h])
  {
    TrackedSnoc(history, h);
    forall k | 0 <= k < SLOTS
      ensures Count(history + [h], Tracked(history)[k]) == Count(history, Tracked(history)[k])
    {
      CountSnoc(history, h, Tracked(history)[k]);
    }
  }

  /** The slot found for h is free, or it is h's own. */
  ghost predicate SlotFor(history: seq<Hash>, h: Hash, slot: nat) {
    var d := Tracked(history);
    if h in d then slot < |d| && d[slot] == h else |d| < SLOTS && slot == |d|
  }

  lemma SlotBefore(hash: seq<Hash>, seen: seq<nat>, suppressed: seq<nat>, history: seq<Hash>, h: Hash, slot: nat)
    requires TableIs(hash, seen, suppressed, history) && SlotFor(history, h, slot)
    ensures slot < SLOTS && (seen[slot] == 0 || (hash[slot] == h && suppressed[slot] == Pending(seen[slot])))
  {
    hide Count, Pending, Tracked;
  }

  lemma {:induction false} NotSeen(hs: seq<Hash>, h: Hash)
    ensures Count(hs, h) == 0 <==> h !in hs
  {
    if hs != [] {
      NotSeen(hs[..|hs| - 1], h);
      assert hs == hs[..|hs| - 1] + [hs[|hs| - 1]];
    }
  }

  /** Which hash has a slot once h has been taken in. */
  lemma TrackedWithSlot(history: seq<Hash>, h: Hash, slot: nat)
    requires SlotFor(history, h, slot)
    ensures
      var d, d' := Tracked(history), Tracked(history + [h]);
      && d' == (if h in d then d else d + [h]) && slot < |d'| && d'[slot] == h
      && (h !in d ==> Count(history, h) == 0)
      && (forall k :: 0 <= k < |d| && k != slot ==> d[k] != h)
  {
    DistinctIs(history);
    TrackedSnoc(history, h);
    NotSeen(history, h);
  }

  /** The table after the slot found for h is counted once more and brought up to date. */
  lemma SlotTaken(hash: seq<Hash>, seen: seq<nat>, suppressed: seq<nat>, history: seq<Hash>, h: Hash, slot: nat)
    requires TableIs(hash, seen, suppressed, history) && SlotFor(history, h, slot)
    ensures slot < SLOTS && h in Tracked(history + [h]) && seen[slot] + 1 == Count(history + [h], h)
    ensures
      var n := seen[slot] + 1;
      TableIs(hash[slot := h], seen[slot := n], suppressed[slot := Pending(n)], history + [h])
  {
    hide Count, Pending, Tracked;
    var d, hs, d' := Tracked(history), history + [h], Tracked(history + [h]);
    TrackedWithSlot(history, h, slot);
    CountSnoc(history, h, h);
    forall k | 0 <= k < |d| && k != slot
      ensures Count(hs, d'[k]) == Count(history, d[k])
    {
      CountSnoc(history, h, d[k]);
    }
  }

  /** The used slots are a prefix: one for each tracked hash, in order of first appearance. */
  ghost predicate TableIs(hash: seq<Hash>, seen: seq<nat>, suppressed: seq<nat>, history: seq<Hash>) {
    var d := Tracked(history);
    && |hash| == |seen| == |suppressed| == SLOTS
    && (forall k :: 0 <= k < |d| ==>
          hash[k] == d[k] && seen[k] == Count(history, d[k]) > 0 && suppressed[k] == Pending(seen[k]))
    && (forall k :: |d| <= k < SLOTS ==> seen[k] == 0)
  }
}
