/**
  What a workspace keeps of each target's inputs, and finding it again: the live corpus, the
  archives that minimising and capping leave under corpus-backups, and SeedArchived
  (go/internal/corpus/archived.go).  A file name identifies its content, so an input is its name.
*/
module Archives {

  import opened Options

  datatype Entry = Entry(name: string, isDir: bool)

  datatype Dir = Dir(inputs: set<string>, folders: set<string>)

  /** A workspace: the directories of corpus and of corpus-backups. */
  datatype Disk = Disk(corpus: map<string, Dir>, backups: map<string, Dir>)

  /** What ReadDir says of a directory. */
  ghost predicate Lists(es: seq<Entry>, d: Dir) {
    && (forall e :: e in es <==> if e.isDir then e.name in d.folders else e.name in d.inputs)
    && (forall i, j :: 0 <= i < j < |es| ==> es[i] != es[j])
  }

  // ------------------------------------------------------------------- names

  const PREMIN := ".premin."
  const CAPPED := ".capped."

  /** The archives BackupDirs takes for a target's. */
  predicate ArchiveOf(n: string, t: string) {
    t + PREMIN <= n || t + CAPPED <= n
  }

  /** A time written as 20060102-150405. */
  predicate Stamp(s: string) {
    |s| == 15 && forall i :: 0 <= i < 15 ==> if i == 8 then s[i] == '-' else '0' <= s[i] <= '9'
  }

  /** Where two markers can line up: only at the start. */
  lemma MarkersAlign(m: string, k: string, t: string, u: string, s: string)
    requires m in {PREMIN, CAPPED} && k in {PREMIN, CAPPED} && Stamp(s)
    ensures t + m <= u + k + s <==> (t == u && m == k) || t + m <= u + "."
  {
    var w := u + k + s;
    assert w[|u|] == '.' && w[..|u|] == u && w[..|u| + 1] == u + ".";
    assert forall i :: |t| <= i < |t| + 8 ==> (t + m)[i] == m[i - |t|];
    if t + m <= w {
      assert w[|t|] == m[0] && w[|t| + 1] == m[1];
    }
  }

  /**
    The archive of target u is taken for one of t's exactly when u is t, or u is itself named like
    an archive of t.
  */
  lemma TakenForExactlyWhen(t: string, u: string, k: string, s: string)
    requires k in {PREMIN, CAPPED} && Stamp(s)
    ensures ArchiveOf(u + k + s, t) <==> u == t || ArchiveOf(u + ".", t)
  {
    MarkersAlign(PREMIN, k, t, u, s);
    MarkersAlign(CAPPED, k, t, u, s);
  }

  /** Such a target can be: its archives are then taken for those of the shorter name too. */
  lemma ArchivesCanBeTakenForAnothers(t: string, s: string)
    requires Stamp(s)
    ensures t + ".premin" != t && ArchiveOf(t + ".premin" + ".capped." + s, t)
  {
    TakenForExactlyWhen(t, t + ".premin", CAPPED, s);
    assert t + ".premin" + "." == t + PREMIN;
    assert |t + ".premin"| > |t|;
  }

  lemma DotInside(t: string, u: string, m: string)
    requires m in {PREMIN, CAPPED} && t + m <= u + "."
    ensures '.' in u
  {
    assert u[|t|] == (u + ".")[|t|] == (t + m)[|t|];
  }

  /** A target whose name has no dot lends its archives to nobody else. */
  lemma DotFreeTargetsKeepApart(t: string, u: string, k: string, s: string)
    requires k in {PREMIN, CAPPED} && Stamp(s) && '.' !in u
    ensures ArchiveOf(u + k + s, t) <==> u == t
  {
    TakenForExactlyWhen(t, u, k, s);
    if t + PREMIN <= u + "." {
      DotInside(t, u, PREMIN);
    } else if t + CAPPED <= u + "." {
      DotInside(t, u, CAPPED);
    }
  }

  // ------------------------------------------------------------------- what is kept

  /** Input x is in the live corpus of target t, or in one of its archives. */
  ghost predicate Kept(d: Disk, t: string, x: string) {
    Live(d, t, x) || Archived(d, t, x)
  }

  predicate Live(d: Disk, t: string, x: string) {
    t in d.corpus && x in d.corpus[t].inputs
  }

  predicate Archived(d: Disk, t: string, x: string) {
    exists n :: n in d.backups && ArchiveOf(n, t) && x in d.backups[n].inputs
  }

  // ------------------------------------------------------------------- BackupDirs

  function BackupsOf(root: seq<Entry>, t: string): seq<string> {
    if root == [] then []
    else (if root[0].isDir && ArchiveOf(root[0].name, t) then [root[0].name] else []) + BackupsOf(root[1..], t)
  }

  lemma {:induction false} BackupsOfFrom(root: seq<Entry>, t: string, i: nat)
    requires i <= |root|
    ensures BackupsOf(root, t) == BackupsOf(root[..i], t) + BackupsOf(root[i..], t)
  {
    if i > 0 {
      BackupsOfFrom(root[1..], t, i - 1);
      assert root[1..][..i - 1] == root[..i][1..];
    } else {
      assert root[..0] == [] && root[0..] == root;
    }
  }

  method BackupDirs(root: Option<seq<Entry>>, t: string) returns (out: seq<string>)
    ensures out == if root.None? then [] else BackupsOf(root.value, t)
  {
    hide ArchiveOf;
    out := [];
    if root.None? {
      return;
    }
    var ents := root.value;
    for i := 0 to |ents|
      invariant BackupsOf(ents, t) == out + BackupsOf(ents[i..], t)
    {
      assert ents[i..][1..] == ents[i + 1..];
      var n := ents[i].name;
      if ents[i].isDir && ArchiveOf(n, t) {
        out := out + [n];
      }
    }
  }

  lemma {:induction false} BackupsOfAre(root: seq<Entry>, t: string, n: string)
    ensures n in BackupsOf(root, t) <==> Entry(n, true) in root && ArchiveOf(n, t)
  {
    hide ArchiveOf;
    if root != [] {
      BackupsOfAre(root[1..], t, n);
      assert Entry(n, true) in root <==> Entry(n, true) == root[0] || Entry(n, true) in root[1..];
    }
  }

  // ------------------------------------------------------------------- newest last

  /** The order of file names, byte by byte. */
  predicate Less(a: string, b: string) {
    if a == "" || b == "" then a == "" && b != ""
    else if a[0] != b[0] then a[0] < b[0]
    else Less(a[1..], b[1..])
  }

  lemma {:induction false} LessIsOneWay(a: string, b: string)
    requires Less(a, b)
    ensures !Less(b, a)
  {
    if a != "" && a[0] == b[0] {
      LessIsOneWay(a[1..], b[1..]);
    }
  }

  lemma {:induction false} LessAfter(t: string, a: string, b: string)
    ensures Less(t + a, t + b) <==> Less(a, b)
  {
    if t != "" {
      assert (t + a)[1..] == t[1..] + a && (t + b)[1..] == t[1..] + b;
      LessAfter(t[1..], a, b);
    } else {
      assert t + a == a && t + b == b;
    }
  }

  ghost predicate NameOrder(names: seq<string>) {
    forall i, j :: 0 <= i < j < |names| ==> Less(names[i], names[j])
  }

  /** ReadDir lists in the order of names. */
  ghost predicate Listed(root: seq<Entry>) {
    forall i, j :: 0 <= i < j < |root| ==> Less(root[i].name, root[j].name)
  }

  /** The time an archive's name ends in. */
  function StampOf(n: string): string {
    if |n| < 15 then n else n[|n| - 15..]
  }

  /** Newest last: no archive after a newer one. */
  ghost predicate NewestLast(names: seq<string>) {
    forall i, j :: 0 <= i < j < |names| ==> !Less(StampOf(names[j]), StampOf(names[i]))
  }

  /** The name is the target's, with one of the two markers and a time. */
  ghost predicate Stamped(n: string, t: string, k: string) {
    Stamp(StampOf(n)) && n == t + k + StampOf(n)
  }

  ghost predicate AllStamped(names: seq<string>, t: string) {
    forall n :: n in names ==> Stamped(n, t, PREMIN) || Stamped(n, t, CAPPED)
  }

  /** No capped archive is newer than a premin one. */
  ghost predicate CappedAreOlder(names: seq<string>, t: string) {
    forall c, p :: c in names && p in names && Stamped(c, t, CAPPED) && Stamped(p, t, PREMIN) ==>
      !Less(StampOf(p), StampOf(c))
  }

  lemma {:induction false} BackupsAreListed(root: seq<Entry>, t: string)
    requires Listed(root)
    ensures NameOrder(BackupsOf(root, t))
  {
    hide ArchiveOf, Less;
    if root != [] {
      var rest := BackupsOf(root[1..], t);
      BackupsAreListed(root[1..], t);
      forall n | n in rest
        ensures Less(root[0].name, n)
      {
        BackupsOfAre(root[1..], t, n);
        var i :| 0 <= i < |root| - 1 && root[1..][i] == Entry(n, true);
        assert root[i + 1] == Entry(n, true);
      }
    }
  }

  /** Names of one kind are ordered as their times; capped names come before premin ones. */
  lemma OrderOfNames(t: string, k: string, a: string, m: string, b: string)
    requires k in {PREMIN, CAPPED} && m in {PREMIN, CAPPED}
    ensures k == m ==> (Less(t + k + a, t + m + b) <==> Less(a, b))
    ensures k == CAPPED && m == PREMIN ==> Less(t + k + a, t + m + b)
  {
    hide Less;
    if k == m {
      LessAfter(t + k, a, b);
    } else if k == CAPPED {
      assert t + k + a == t + (k + a) && t + m + b == t + (m + b);
      LessAfter(t, k + a, m + b);
      CappedIsLess(a, b);
    }
  }

  lemma CappedIsLess(a: string, b: string)
    ensures Less(CAPPED + a, PREMIN + b)
  {
    LessAfter(".", "capped." + a, "premin." + b);
    assert CAPPED + a == "." + ("capped." + a) && PREMIN + b == "." + ("premin." + b);
  }

  lemma InOrder(names: seq<string>, t: string, i: nat, j: nat)
    requires NameOrder(names) && AllStamped(names, t) && CappedAreOlder(names, t) && i < j < |names|
    ensures !Less(StampOf(names[j]), StampOf(names[i]))
  {
    hide Less, StampOf, Stamp;
    var a, b := names[i], names[j];
    assert a in names && b in names && Less(a, b);
    var k := if Stamped(a, t, PREMIN) then PREMIN else CAPPED;
    var m := if Stamped(b, t, PREMIN) then PREMIN else CAPPED;
    OrderOfNames(t, k, StampOf(a), m, StampOf(b));
    OrderOfNames(t, m, StampOf(b), k, StampOf(a));
    if k == m {
      LessIsOneWay(StampOf(a), StampOf(b));
    } else if k == PREMIN {
      LessIsOneWay(a, b);
    }
  }

  /** The list BackupDirs gives is newest last exactly when no capped archive is newer than a premin one. */
  lemma NewestLastExactlyWhen(root: seq<Entry>, t: string)
    requires Listed(root) && AllStamped(BackupsOf(root, t), t)
    ensures NewestLast(BackupsOf(root, t)) <==> CappedAreOlder(BackupsOf(root, t), t)
  {
    hide Less, StampOf, BackupsOf, ArchiveOf;
    var names := BackupsOf(root, t);
    BackupsAreListed(root, t);
    if CappedAreOlder(names, t) {
      forall i, j | 0 <= i < j < |names|
        ensures !Less(StampOf(names[j]), StampOf(names[i]))
      {
        InOrder(names, t, i, j);
      }
    } else {
      var c, p :|
        c in names && p in names && Stamped(c, t, CAPPED) && Stamped(p, t, PREMIN) && Less(StampOf(p), StampOf(c));
      OrderOfNames(t, CAPPED, StampOf(c), PREMIN, StampOf(p));
      LessIsOneWay(c, p);
      var i :| 0 <= i < |names| && names[i] == c;
      var j :| 0 <= j < |names| && names[j] == p;
      assert i != j;
    }
  }

  /** Which happens whenever a merge is followed by a cap: the older archive is listed last. */
  lemma CapAfterMergeIsListedFirst(t: string, older: string, newer: string)
    requires Stamp(older) && Stamp(newer) && Less(older, newer)
    ensures
      var c, p := t + CAPPED + newer, t + PREMIN + older;
      var root := [Entry(c, true), Entry(p, true)];
      Listed(root) && BackupsOf(root, t) == [c, p] && AllStamped([c, p], t) && !NewestLast([c, p])
  {
    hide Less, Stamp;
    var c, p := t + CAPPED + newer, t + PREMIN + older;
    var root := [Entry(c, true), Entry(p, true)];
    OrderOfNames(t, CAPPED, newer, PREMIN, older);
    StampEnds(t + CAPPED, newer);
    StampEnds(t + PREMIN, older);
    OneBackup(root, t);
    OneBackup(root[1..], t);
    assert root[1..][1..] == [] && [c] + ([p] + []) == [c, p];
    assert [c, p][0] == c && [c, p][1] == p;
  }

  lemma StampEnds(x: string, s: string)
    requires Stamp(s)
    ensures StampOf(x + s) == s
  {
  }

  lemma OneBackup(root: seq<Entry>, t: string)
    requires root != [] && root[0].isDir && ArchiveOf(root[0].name, t)
    ensures BackupsOf(root, t) == [root[0].name] + BackupsOf(root[1..], t)
  {
  }

  // ------------------------------------------------------------------- SeedArchived

  /** How much of a file a destination has. */
  datatype Copy = Whole | Partial

  /** What copyFile does: a copy that fails midway leaves what it had written. */
  datatype Outcome = Done | NotMade | CutShort | ModeRefused

  /** The counters, and the copy that failed first: its archive and name. */
  datatype SeedResult = SeedResult(copied: nat, present: nat, failed: nat, firstErr: Option<(string, string)>) {
    function Failing(bak: string, name: string): SeedResult {
      this.(failed := failed + 1, firstErr := if firstErr.None? then Some((bak, name)) else firstErr)
    }
  }

  const NOTHING_YET := SeedResult(0, 0, 0, None)

  /** The answers of the file system: listings, directories it makes, and copies. */
  datatype Os = Os(
    root: Option<seq<Entry>>,
    list: string -> Option<seq<Entry>>,
    mkdir: (string, string) -> bool,
    copy: (string, string) -> Outcome)

  /** A destination directory and the counters so far. */
  datatype Progress = Progress(have: map<string, Copy>, res: SeedResult)

  function Visit(p: Progress, bak: string, e: Entry, os: Os): Progress {
    if e.isDir then p
    else if e.name in p.have then p.(res := p.res.(present := p.res.present + 1))
    else
      match os.copy(bak, e.name)
      case Done => Progress(p.have[e.name := Whole], p.res.(copied := p.res.copied + 1))
      case NotMade => p.(res := p.res.Failing(bak, e.name))
      case CutShort => Progress(p.have[e.name := Partial], p.res.Failing(bak, e.name))
      case ModeRefused => Progress(p.have[e.name := Whole], p.res.Failing(bak, e.name))
  }

  function VisitDir(p: Progress, bak: string, es: seq<Entry>, os: Os): Progress
    decreases |es|
  {
    if es == [] then p else VisitDir(Visit(p, bak, es[0], os), bak, es[1..], os)
  }

  /** An archive that cannot be read is passed over; the end is reached if every mkdir works. */
  function VisitBaks(p: Progress, t: string, baks: seq<string>, os: Os): (Progress, bool)
    decreases |baks|
  {
    if baks == [] then (p, true)
    else if !os.mkdir(t, baks[0]) then (p, false)
    else VisitBaks(VisitBak(p, baks[0], os), t, baks[1..], os)
  }

  function VisitBak(p: Progress, bak: string, os: Os): Progress {
    match os.list(bak)
    case None => p
    case Some(es) => VisitDir(p, bak, es, os)
  }

  type Files = map<string, map<string, Copy>>

  function Of(files: Files, t: string): map<string, Copy> {
    if t in files then files[t] else map[]
  }

  function BaksOf(os: Os, t: string): seq<string> {
    if os.root.None? then [] else BackupsOf(os.root.value, t)
  }

  /** The destination, the counters, and whether the end was reached. */
  function SeedAll(files: Files, res: SeedResult, targets: seq<string>, os: Os): (Files, SeedResult, bool)
    decreases |targets|
  {
    if targets == [] then (files, res, true)
    else
      var t := targets[0];
      var (p, ok) := VisitBaks(Progress(Of(files, t), res), t, BaksOf(os, t), os);
      if !ok then (files[t := p.have], p.res, false) else SeedAll(files[t := p.have], p.res, targets[1..], os)
  }

  /** The destination of a seeding: for each target, its files. */
  class Destination {
    var files: Files

    constructor ()
      ensures files == map[]
    {
      files := map[];
    }

    method SeedArchived(targets: seq<string>, os: Os) returns (total: SeedResult, ok: bool)
      modifies this
      ensures (files, total, ok) == SeedAll(old(files), NOTHING_YET, targets, os)
    {
      hide VisitBaks;
      total := NOTHING_YET;
      for i := 0 to |targets|
        invariant SeedAll(old(files), NOTHING_YET, targets, os) == SeedAll(files, total, targets[i..], os)
      {
        assert targets[i..][1..] == targets[i + 1..];
        var t := targets[i];
        var baks := BackupDirs(os.root, t);
        total, ok := SeedTarget(t, baks, total, os);
        if !ok {
          return;
        }
      }
      ok := true;
    }

    method SeedTarget(t: string, baks: seq<string>, res: SeedResult, os: Os) returns (total: SeedResult, ok: bool)
      modifies this
      ensures
        var r := VisitBaks(Progress(Of(old(files), t), res), t, baks, os);
        files == old(files)[t := r.0.have] && total == r.0.res && ok == r.1
    {
      hide VisitDir;
      total := res;
      files := files[t := Of(files, t)];
      for i := 0 to |baks|
        invariant t in files && files == old(files)[t := files[t]]
        invariant
          VisitBaks(Progress(Of(old(files), t), res), t, baks, os) ==
          VisitBaks(Progress(files[t], total), t, baks[i..], os)
      {
        assert baks[i..][1..] == baks[i + 1..];
        if !os.mkdir(t, baks[i]) {
          return total, false;
        }
        var ents := os.list(baks[i]);
        if ents.Some? {
          total := SeedDir(t, baks[i], ents.value, total, os);
        }
      }
      ok := true;
    }

    method SeedDir(t: string, bak: string, ents: seq<Entry>, res: SeedResult, os: Os) returns (total: SeedResult)
      requires t in files
      modifies this
      ensures
        var p := VisitDir(Progress(old(files)[t], res), bak, ents, os);
        files == old(files)[t := p.have] && total == p.res
    {
      total := res;
      for i := 0 to |ents|
        invariant t in files && files == old(files)[t := files[t]]
        invariant
          VisitDir(Progress(old(files)[t], res), bak, ents, os) ==
          VisitDir(Progress(files[t], total), bak, ents[i..], os)
      {
        assert ents[i..][1..] == ents[i + 1..];
        var e := ents[i];
        if e.isDir {
          continue;
        }
        if e.name in files[t] {
          total := total.(present := total.present + 1);
          continue;
        }
        var copied := CopyFile(t, bak, e.name, os);
        if copied {
          total := total.(copied := total.copied + 1);
        } else {
          total := total.(failed := total.failed + 1);
          if total.firstErr == None {
            total := total.(firstErr := Some((bak, e.name)));
          }
        }
      }
    }

    method CopyFile(t: string, bak: string, name: string, os: Os) returns (ok: bool)
      requires t in files && name !in files[t]
      modifies this
      ensures ok == os.copy(bak, name).Done?
      ensures
        var p := Visit(Progress(old(files)[t], NOTHING_YET), bak, Entry(name, false), os);
        files == old(files)[t := p.have]
    {
      var outcome := os.copy(bak, name);
      if outcome.CutShort? {
        files := files[t := files[t][name := Partial]];
      } else if !outcome.NotMade? {
        files := files[t := files[t][name := Whole]];
      }
      ok := outcome.Done?;
    }
  }

  // ------------------------------------------------------------- what seeding recovers

  /** The files had, with a whole copy of each missing one of these. */
  function Filled(have: map<string, Copy>, names: set<string>): map<string, Copy> {
    have + map x | x in names && x !in have :: Whole
  }

  lemma FilledTwice(have: map<string, Copy>, a: set<string>, b: set<string>)
    ensures Filled(Filled(have, a), b) == Filled(have, a + b)
  {
  }

  function NamesIn(es: seq<Entry>): set<string> {
    set e | e in es && !e.isDir :: e.name
  }

  /** The inputs of the archives that can be read. */
  function Readable(baks: seq<string>, os: Os): set<string> {
    if baks == [] then {}
    else (if os.list(baks[0]).None? then {} else NamesIn(os.list(baks[0]).value)) + Readable(baks[1..], os)
  }

  lemma NamesInCons(es: seq<Entry>)
    requires es != []
    ensures NamesIn(es) == NamesIn([es[0]]) + NamesIn(es[1..])
  {
    assert es == [es[0]] + es[1..];
  }

  /** The first failure is the one on record. */
  predicate KeepsFirst(r: SeedResult, later: SeedResult) {
    && (r.firstErr.Some? ==> later.firstErr == r.firstErr)
    && (r.firstErr.None? ==> (later.firstErr.Some? <==> later.failed > r.failed))
  }

  /** What is known of a step that met no failure, and of any step. */
  ghost predicate Fills(p: Progress, q: Progress, names: set<string>) {
    && q.res.failed >= p.res.failed && KeepsFirst(p.res, q.res)
    && (q.res.failed == p.res.failed ==> q.have == Filled(p.have, names))
    && Grows(p.have, q.have, names)
  }

  /** Files that were there stay as they are; new ones come from these names. */
  ghost predicate Grows(have: map<string, Copy>, later: map<string, Copy>, names: set<string>) {
    (forall x :: x in have ==> x in later && later[x] == have[x]) &&
    (forall x :: x in later ==> x in have || x in names)
  }

  lemma FillsThen(p: Progress, q: Progress, r: Progress, a: set<string>, b: set<string>)
    requires Fills(p, q, a) && Fills(q, r, b)
    ensures Fills(p, r, a + b)
  {
    FilledTwice(p.have, a, b);
  }

  lemma FillsNothing(p: Progress)
    ensures Fills(p, p, {})
  {
    assert Filled(p.have, {}) == p.have;
  }

  lemma VisitFills(p: Progress, bak: string, e: Entry, os: Os)
    ensures Fills(p, Visit(p, bak, e, os), NamesIn([e]))
  {
    var q := Visit(p, bak, e, os);
    assert NamesIn([e]) == if e.isDir then {} else {e.name} by {
      assert e in [e];
    }
    if q.res.failed == p.res.failed {
      assert q.have == Filled(p.have, NamesIn([e]));
    }
  }

  lemma {:induction false} DirFills(p: Progress, bak: string, es: seq<Entry>, os: Os)
    ensures Fills(p, VisitDir(p, bak, es, os), NamesIn(es))
    decreases |es|
  {
    hide Visit, Fills, NamesIn;
    if es == [] {
      FillsNothing(p);
      NamesInNone();
    } else {
      var q := Visit(p, bak, es[0], os);
      VisitFills(p, bak, es[0], os);
      DirFills(q, bak, es[1..], os);
      NamesInCons(es);
      FillsThen(p, q, VisitDir(q, bak, es[1..], os), NamesIn([es[0]]), NamesIn(es[1..]));
    }
  }

  lemma NamesInNone()
    ensures NamesIn([]) == {}
  {
  }

  /** Any stretch of a seeding of one target, whether or not its end was reached. */
  ghost predicate BaksDone(p: Progress, r: (Progress, bool), names: set<string>) {
    Fills(p, r.0, names) ||
    (!r.1 && r.0.res.failed >= p.res.failed && KeepsFirst(p.res, r.0.res) && Grows(p.have, r.0.have, names))
  }

  lemma {:induction false} BaksFill(p: Progress, t: string, baks: seq<string>, os: Os)
    ensures BaksDone(p, VisitBaks(p, t, baks, os), Readable(baks, os))
    decreases |baks|
  {
    hide VisitDir, NamesIn, Filled;
    FillsNothing(p);
    if baks != [] && os.mkdir(t, baks[0]) {
      var q := VisitBak(p, baks[0], os);
      if os.list(baks[0]).Some? {
        DirFills(p, baks[0], os.list(baks[0]).value, os);
      }
      var names := if os.list(baks[0]).None? then {} else NamesIn(os.list(baks[0]).value);
      assert Fills(p, q, names);
      BaksFill(q, t, baks[1..], os);
      var r := VisitBaks(q, t, baks[1..], os);
      if Fills(q, r.0, Readable(baks[1..], os)) {
        FillsThen(p, q, r.0, names, Readable(baks[1..], os));
      }
    }
  }

  /** The names a seeding may bring into the directory of t. */
  function Sources(targets: seq<string>, t: string, os: Os): set<string> {
    if t in targets then Readable(BaksOf(os, t), os) else {}
  }

  lemma {:induction false} AllFill(files: Files, res: SeedResult, targets: seq<string>, os: Os, t: string)
    ensures
      var r := SeedAll(files, res, targets, os);
      && r.1.failed >= res.failed && KeepsFirst(res, r.1)
      && Grows(Of(files, t), Of(r.0, t), Sources(targets, t, os))
      && (r.2 && r.1.failed == res.failed ==> Of(r.0, t) == Filled(Of(files, t), Sources(targets, t, os)))
    decreases |targets|
  {
    hide VisitBaks, Readable;
    if targets == [] {
      FillsNothing(Progress(Of(files, t), res));
    } else {
      var t0, rest := targets[0], targets[1..];
      var names := Readable(BaksOf(os, t0), os);
      var (p, ok) := VisitBaks(Progress(Of(files, t0), res), t0, BaksOf(os, t0), os);
      BaksFill(Progress(Of(files, t0), res), t0, BaksOf(os, t0), os);
      assert t in targets <==> t == t0 || t in rest;
      if ok {
        AllFill(files[t0 := p.have], p.res, rest, os, t);
        if t == t0 {
          FilledTwice(Of(files, t), names, Sources(rest, t, os));
          assert names + Sources(rest, t, os) == names;
        }
      }
    }
  }

  /** The answers agree with what is on the disk; any listing may fail. */
  ghost predicate Honest(os: Os, d: Disk) {
    && (os.root.Some? ==> forall n :: Entry(n, true) in os.root.value <==> n in d.backups)
    && (forall n :: n in d.backups && os.list(n).Some? ==> Lists(os.list(n).value, d.backups[n]))
  }

  /** Input x is in an archive of t that was listed and could be read. */
  ghost predicate InReadable(os: Os, d: Disk, t: string, x: string) {
    os.root.Some? && exists n :: n in d.backups && ArchiveOf(n, t) && os.list(n).Some? && x in d.backups[n].inputs
  }

  lemma {:induction false} ReadableAre(baks: seq<string>, os: Os, x: string)
    ensures x in Readable(baks, os) <==> exists n :: n in baks && os.list(n).Some? && x in NamesIn(os.list(n).value)
  {
    hide NamesIn;
    if baks != [] {
      ReadableAre(baks[1..], os, x);
      assert forall n :: n in baks <==> n == baks[0] || n in baks[1..];
    }
  }

  lemma NamesOfListing(es: seq<Entry>, d: Dir, x: string)
    requires Lists(es, d)
    ensures x in NamesIn(es) <==> x in d.inputs
  {
    assert Entry(x, false) in es <==> x in d.inputs;
  }

  lemma SourcesAre(os: Os, d: Disk, targets: seq<string>, t: string, x: string)
    requires Honest(os, d)
    ensures x in Sources(targets, t, os) <==> t in targets && InReadable(os, d, t, x)
  {
    hide ArchiveOf, NamesIn, Lists, Readable;
    var baks := BaksOf(os, t);
    ReadableAre(baks, os, x);
    forall n
      ensures n in baks <==> os.root.Some? && n in d.backups && ArchiveOf(n, t)
    {
      if os.root.Some? {
        BackupsOfAre(os.root.value, t, n);
      }
    }
    forall n | n in d.backups && os.list(n).Some?
      ensures x in NamesIn(os.list(n).value) <==> x in d.backups[n].inputs
    {
      NamesOfListing(os.list(n).value, d.backups[n], x);
    }
  }

  predicate HasWhole(files: Files, t: string, x: string) {
    x in Of(files, t) && Of(files, t)[x] == Whole
  }

  /**
    A seeding that reports no failure leaves a whole copy of an input exactly when there was one,
    or there was none at all and some readable archive of the target holds it.  So it misses the
    inputs of unreadable archives and those an earlier copy was cut short on, without reporting
    either.
  */
  lemma SeedRecoversExactlyWhen(files: Files, targets: seq<string>, os: Os, d: Disk, t: string, x: string)
    requires Honest(os, d) && t in targets
    requires var r := SeedAll(files, NOTHING_YET, targets, os); r.2 && r.1.failed == 0
    ensures
      HasWhole(SeedAll(files, NOTHING_YET, targets, os).0, t, x) <==>
      HasWhole(files, t, x) || (x !in Of(files, t) && InReadable(os, d, t, x))
  {
    hide SeedAll, Sources, Honest, InReadable;
    AllFill(files, NOTHING_YET, targets, os, t);
    SourcesAre(os, d, targets, t, x);
  }

  /** The caller sees an error exactly when some copy failed. */
  lemma FirstErrorIsReported(files: Files, targets: seq<string>, os: Os)
    ensures var r := SeedAll(files, NOTHING_YET, targets, os).1; r.firstErr.Some? <==> r.failed > 0
  {
    hide SeedAll;
    AllFill(files, NOTHING_YET, targets, os, "");
  }

  // ---------------------------------------------------------- what the counters count

  function FilesListed(es: seq<Entry>): nat {
    if es == [] then 0 else (if es[0].isDir then 0 else 1) + FilesListed(es[1..])
  }

  function FilesArchived(baks: seq<string>, os: Os): nat {
    if baks == [] then 0
    else (if os.list(baks[0]).None? then 0 else FilesListed(os.list(baks[0]).value)) + FilesArchived(baks[1..], os)
  }

  /** How many archived files a seeding of these targets comes across. */
  function FilesMet(targets: seq<string>, os: Os): nat {
    if targets == [] then 0 else FilesArchived(BaksOf(os, targets[0]), os) + FilesMet(targets[1..], os)
  }

  /** Between two results n files were met, and so many arrived. */
  ghost predicate Tallies(r: SeedResult, later: SeedResult, n: nat, arrived: int) {
    var copied, failed := later.copied - r.copied, later.failed - r.failed;
    && 0 <= copied && 0 <= failed && r.present <= later.present
    && copied + (later.present - r.present) + failed == n
    && copied <= arrived <= copied + failed
  }

  lemma VisitTallies(p: Progress, bak: string, e: Entry, os: Os)
    ensures var q := Visit(p, bak, e, os); Tallies(p.res, q.res, if e.isDir then 0 else 1, |q.have| - |p.have|)
  {
  }

  lemma {:induction false} DirTallies(p: Progress, bak: string, es: seq<Entry>, os: Os)
    ensures var q := VisitDir(p, bak, es, os); Tallies(p.res, q.res, FilesListed(es), |q.have| - |p.have|)
    decreases |es|
  {
    hide Visit;
    if es != [] {
      VisitTallies(p, bak, es[0], os);
      DirTallies(Visit(p, bak, es[0], os), bak, es[1..], os);
    }
  }

  lemma {:induction false} BaksTally(p: Progress, t: string, baks: seq<string>, os: Os) returns (n: nat)
    ensures
      var r := VisitBaks(p, t, baks, os);
      Tallies(p.res, r.0.res, n, |r.0.have| - |p.have|) && (r.1 ==> n == FilesArchived(baks, os))
    decreases |baks|
  {
    hide VisitDir;
    n := 0;
    if baks != [] && os.mkdir(t, baks[0]) {
      if os.list(baks[0]).Some? {
        DirTallies(p, baks[0], os.list(baks[0]).value, os);
        n := FilesListed(os.list(baks[0]).value);
      }
      var m := BaksTally(VisitBak(p, baks[0], os), t, baks[1..], os);
      n := n + m;
    }
  }

  /** Every file of every target. */
  function AllFiles(files: Files): set<(string, string)> {
    set t, x | t in files && x in files[t] :: (t, x)
  }

  function FilesOf(t: string, have: map<string, Copy>): set<(string, string)> {
    set x | x in have :: (t, x)
  }

  lemma {:induction false} FilesOfCount(t: string, have: map<string, Copy>)
    ensures |FilesOf(t, have)| == |have|
    decreases |have|
  {
    if have == map[] {
      assert FilesOf(t, have) == {};
    } else {
      var x :| x in have;
      var rest := have - {x};
      assert have == rest[x := have[x]];
      FilesOfCount(t, rest);
      assert FilesOf(t, have) == FilesOf(t, rest) + {(t, x)};
    }
  }

  function FilesOfOthers(files: Files, t: string): set<(string, string)> {
    set u, x | u in files && u != t && x in files[u] :: (u, x)
  }

  lemma FilesSplit(files: Files, t: string)
    ensures |AllFiles(files)| == |FilesOfOthers(files, t)| + |Of(files, t)|
  {
    var others, own := FilesOfOthers(files, t), FilesOf(t, Of(files, t));
    forall u, x
      ensures (u, x) in AllFiles(files) <==> (u, x) in others + own
    {
    }
    assert AllFiles(files) == others + own && others !! own;
    FilesOfCount(t, Of(files, t));
  }

  lemma Replaced(files: Files, t: string, have: map<string, Copy>)
    ensures |AllFiles(files[t := have])| == |AllFiles(files)| - |Of(files, t)| + |have|
  {
    hide AllFiles;
    FilesSplit(files, t);
    FilesSplit(files[t := have], t);
    assert FilesOfOthers(files[t := have], t) == FilesOfOthers(files, t);
  }

  lemma {:induction false} AllTally(files: Files, res: SeedResult, targets: seq<string>, os: Os) returns (n: nat)
    ensures
      var r := SeedAll(files, res, targets, os);
      && Tallies(res, r.1, n, |AllFiles(r.0)| - |AllFiles(files)|)
      && (r.2 ==> n == FilesMet(targets, os))
    decreases |targets|
  {
    hide VisitBaks, FilesArchived, AllFiles;
    n := 0;
    if targets != [] {
      var t := targets[0];
      var (p, ok) := VisitBaks(Progress(Of(files, t), res), t, BaksOf(os, t), os);
      n := BaksTally(Progress(Of(files, t), res), t, BaksOf(os, t), os);
      Replaced(files, t, p.have);
      if ok {
        var m := AllTally(files[t := p.have], p.res, targets[1..], os);
        n := n + m;
      }
    }
  }

  /**
    Each archived file a seeding comes across is counted once, as copied, present or failed; it
    leaves at least as many new files as it counts copied, and no more than the failed ones besides.
  */
  lemma CountersAreRight(files: Files, targets: seq<string>, os: Os)
    ensures
      var r := SeedAll(files, NOTHING_YET, targets, os);
      var arrived := |AllFiles(r.0)| - |AllFiles(files)|;
      && r.1.copied <= arrived <= r.1.copied + r.1.failed
      && (r.2 ==> r.1.copied + r.1.present + r.1.failed == FilesMet(targets, os))
  {
    hide SeedAll, AllFiles, FilesMet;
    var n := AllTally(files, NOTHING_YET, targets, os);
  }

  lemma {:induction false} BaksEnd(p: Progress, t: string, baks: seq<string>, os: Os)
    ensures VisitBaks(p, t, baks, os).1 <==> forall n :: n in baks ==> os.mkdir(t, n)
    decreases |baks|
  {
    hide VisitDir;
    if baks != [] {
      BaksEnd(VisitBak(p, baks[0], os), t, baks[1..], os);
      assert forall n :: n in baks <==> n == baks[0] || n in baks[1..];
    }
  }

  /** A seeding reaches its end exactly when every directory could be made, whatever else fails. */
  lemma {:induction false} EndsExactlyWhen(files: Files, res: SeedResult, targets: seq<string>, os: Os)
    ensures
      SeedAll(files, res, targets, os).2 <==>
      forall t, n :: t in targets && n in BaksOf(os, t) ==> os.mkdir(t, n)
    decreases |targets|
  {
    hide VisitBaks, BaksOf;
    if targets != [] {
      var t0 := targets[0];
      var (p, ok) := VisitBaks(Progress(Of(files, t0), res), t0, BaksOf(os, t0), os);
      BaksEnd(Progress(Of(files, t0), res), t0, BaksOf(os, t0), os);
      EndsExactlyWhen(files[t0 := p.have], p.res, targets[1..], os);
      assert forall t :: t in targets <==> t == t0 || t in targets[1..];
    }
  }

  /** Whatever fails: what was there stays, and only the target's own archived inputs arrive. */
  lemma NothingMixedIn(files: Files, targets: seq<string>, os: Os, d: Disk, t: string, x: string)
    requires Honest(os, d)
    ensures
      var later := Of(SeedAll(files, NOTHING_YET, targets, os).0, t);
      && (x in Of(files, t) ==> x in later && later[x] == Of(files, t)[x])
      && (x in later ==> x in Of(files, t) || (t in targets && Archived(d, t, x)))
  {
    hide SeedAll, Sources, Honest;
    AllFill(files, NOTHING_YET, targets, os, t);
    SourcesAre(os, d, targets, t, x);
  }

  /** Into an empty destination, every archive readable: live corpus and copies are all that is kept. */
  lemma LiveAndSeededAreAllThatIsKept(targets: seq<string>, os: Os, d: Disk, t: string, x: string)
    requires Honest(os, d) && t in targets
    requires os.root.Some? && forall n :: n in d.backups ==> os.list(n).Some?
    requires var r := SeedAll(map[], NOTHING_YET, targets, os); r.2 && r.1.failed == 0
    ensures Kept(d, t, x) <==> Live(d, t, x) || HasWhole(SeedAll(map[], NOTHING_YET, targets, os).0, t, x)
  {
    hide SeedAll, Honest, ArchiveOf;
    SeedRecoversExactlyWhen(map[], targets, os, d, t, x);
  }

  lemma OneArchive(t: string, n: string, x: string, have: map<string, Copy>, os: Os)
    requires ArchiveOf(n, t) && os.mkdir(t, n)
    requires os.root == Some([Entry(n, true)]) && os.list(n) == Some([Entry(x, false)])
    ensures
      var p := Visit(Progress(have, NOTHING_YET), n, Entry(x, false), os);
      SeedAll(map[t := have], NOTHING_YET, [t], os) == (map[t := p.have], p.res, true)
  {
    hide ArchiveOf, Visit;
    var root, p0 := [Entry(n, true)], Progress(have, NOTHING_YET);
    var p := Visit(p0, n, Entry(x, false), os);
    assert BackupsOf(root, t) == [n] + BackupsOf(root[1..], t) == [n];
    assert VisitDir(p0, n, [Entry(x, false)], os) == VisitDir(p, n, [], os) == p;
    assert VisitBaks(p0, t, [n], os) == VisitBaks(VisitBak(p0, n, os), t, [], os) == (p, true);
    var files := map[t := have];
    assert BaksOf(os, t) == [n] && Of(files, t) == have && [t][1..] == [];
    assert SeedAll(files, p0.res, [t], os) == SeedAll(files[t := p.have], p.res, [], os);
    assert files[t := p.have] == map[t := p.have];
  }

  /**
    A copy cut short is reported once.  The next seeding, with nothing failing, finds the piece,
    counts it as present and leaves it.
  */
  lemma CutShortIsReportedOnce(t: string, n: string, x: string, bad: Os, good: Os)
    requires forall os :: os in {bad, good} ==>
      ArchiveOf(n, t) && os.root == Some([Entry(n, true)]) && os.list(n) == Some([Entry(x, false)]) && os.mkdir(t, n)
    requires bad.copy(n, x) == CutShort && good.copy(n, x) == Done
    ensures
      var first := SeedAll(map[t := map[]], NOTHING_YET, [t], bad);
      var second := SeedAll(first.0, NOTHING_YET, [t], good);
      first.1 == SeedResult(0, 0, 1, Some((n, x))) && second.1 == SeedResult(0, 1, 0, None) && second.2 && !HasWhole(second.0, t, x)
  {
    hide SeedAll, ArchiveOf;
    OneArchive(t, n, x, map[], bad);
    OneArchive(t, n, x, map[x := Partial], good);
    assert Visit(Progress(map[], NOTHING_YET), n, Entry(x, false), bad).have == map[x := Partial];
  }
}
