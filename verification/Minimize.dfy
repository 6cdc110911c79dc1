/**
  Shrinking one target's corpus: Minimize and applyCap of go/internal/corpus/minimize.go, over a
  disk on which any call may fail and a run may be killed between any two calls.
*/
module Minimize {

  import opened Archives
  import opened Options

  /** Targets are directories of corpus that are not hidden. */
  predicate Visible(t: string) {
    t != "" && t[0] != '.'
  }

  ghost predicate NothingLost(a: Disk, b: Disk) {
    forall t, x :: Visible(t) && Kept(a, t, x) ==> Kept(b, t, x)
  }

  /** In a series of disks, whatever was once kept is kept from then on. */
  ghost predicate NeverLoses(h: seq<Disk>) {
    forall i, j :: 0 <= i <= j < |h| ==> NothingLost(h[i], h[j])
  }

  lemma NeverLosesNext(h: seq<Disk>, d: Disk)
    requires h != [] && NeverLoses(h) && NothingLost(h[|h| - 1], d)
    ensures NeverLoses(h + [d])
  {
    hide Kept;
    forall i | 0 <= i < |h|
      ensures NothingLost(h[i], d)
    {
      assert NothingLost(h[i], h[|h| - 1]);
    }
  }

  const EMPTY := Dir({}, {})

  function DirAt(ds: map<string, Dir>, n: string): Dir {
    if n in ds then ds[n] else EMPTY
  }

  /** The disk after these inputs of target t went to directory bak of the backups. */
  function Moved(d: Disk, t: string, bak: string, xs: set<string>): Disk
    requires t in d.corpus && bak in d.backups
  {
    Disk(
      d.corpus[t := d.corpus[t].(inputs := d.corpus[t].inputs - xs)],
      d.backups[bak := d.backups[bak].(inputs := d.backups[bak].inputs + xs)])
  }

  lemma MovedTwice(d: Disk, t: string, bak: string, xs: set<string>, ys: set<string>)
    requires t in d.corpus && bak in d.backups
    ensures Moved(Moved(d, t, bak, xs), t, bak, ys) == Moved(d, t, bak, xs + ys)
  {
    assert d.corpus[t].inputs - xs - ys == d.corpus[t].inputs - (xs + ys);
    assert d.backups[bak].inputs + xs + ys == d.backups[bak].inputs + (xs + ys);
  }

  lemma MovedNothing(d: Disk, t: string, bak: string)
    requires t in d.corpus && bak in d.backups
    ensures Moved(d, t, bak, {}) == d
  {
    assert d.corpus[t].inputs - {} == d.corpus[t].inputs && d.backups[bak].inputs + {} == d.backups[bak].inputs;
  }

  lemma MovingLosesNothing(d: Disk, t: string, bak: string, xs: set<string>)
    requires t in d.corpus && bak in d.backups && ArchiveOf(bak, t)
    requires xs <= d.corpus[t].inputs
    ensures NothingLost(d, Moved(d, t, bak, xs))
  {
    hide ArchiveOf, Visible;
    var e := Moved(d, t, bak, xs);
    forall u, x | Kept(d, u, x)
      ensures Kept(e, u, x)
    {
      if Archived(d, u, x) {
        var n :| n in d.backups && ArchiveOf(n, u) && x in d.backups[n].inputs;
        assert n in e.backups && x in e.backups[n].inputs;
      } else if u == t && x in xs {
        assert x in e.backups[bak].inputs;
      }
    }
  }

  /** A disk whose corpora are as before and whose archives hold at least what they held. */
  lemma MoreArchivesLoseNothing(d: Disk, e: Disk)
    requires forall t :: t in d.corpus ==> t in e.corpus && d.corpus[t].inputs <= e.corpus[t].inputs
    requires forall n, t :: n in d.backups && Visible(t) && ArchiveOf(n, t) ==>
               d.backups[n].inputs <= DirAt(e.backups, n).inputs
    ensures NothingLost(d, e)
  {
    hide ArchiveOf, Visible;
    forall t, x | Visible(t) && Kept(d, t, x)
      ensures Kept(e, t, x)
    {
      if Archived(d, t, x) {
        var n :| n in d.backups && ArchiveOf(n, t) && x in d.backups[n].inputs;
        assert n in e.backups && x in e.backups[n].inputs;
      }
    }
  }

  lemma SettingAsideLosesNothing(d: Disk, t: string, prev: string)
    requires t in d.corpus && ArchiveOf(prev, t) && DirAt(d.backups, prev) == EMPTY
    ensures NothingLost(d, Disk(d.corpus - {t}, d.backups[prev := d.corpus[t]]))
  {
    hide ArchiveOf, Visible;
    var e := Disk(d.corpus - {t}, d.backups[prev := d.corpus[t]]);
    forall u, x | Kept(d, u, x)
      ensures Kept(e, u, x)
    {
      if Archived(d, u, x) {
        var n :| n in d.backups && ArchiveOf(n, u) && x in d.backups[n].inputs;
        assert n != prev && n in e.backups && x in e.backups[n].inputs;
      } else if u == t {
        assert x in e.backups[prev].inputs;
      }
    }
  }

  /** The scratch directory of a merge is hidden, so it is nobody's archive. */
  lemma ScratchIsNobodys(scratch: string, t: string)
    requires scratch != "" && scratch[0] == '.' && Visible(t)
    ensures !ArchiveOf(scratch, t)
  {
    assert (t + PREMIN)[0] == t[0] == (t + CAPPED)[0];
  }

  lemma ScratchDoesNotMatter(d: Disk, scratch: string, backups: map<string, Dir>)
    requires scratch != "" && scratch[0] == '.'
    requires backups - {scratch} == d.backups - {scratch}
    ensures NothingLost(d, Disk(d.corpus, backups))
  {
    hide ArchiveOf, Visible;
    forall n, t | n in d.backups && Visible(t) && ArchiveOf(n, t)
      ensures d.backups[n].inputs <= DirAt(backups, n).inputs
    {
      if n == scratch {
        ScratchIsNobodys(scratch, t);
      }
      assert n in d.backups - {scratch} && (d.backups - {scratch})[n] == (backups - {scratch})[n];
    }
    MoreArchivesLoseNothing(d, Disk(d.corpus, backups));
  }

  // ------------------------------------------------------------------- small tools

  ghost predicate Distinct(s: seq<string>) {
    forall i, j :: 0 <= i < j < |s| ==> s[i] != s[j]
  }

  function SetOf(s: seq<string>): set<string> {
    set x | x in s
  }

  lemma {:induction false} SizeOfSet(s: seq<string>)
    requires Distinct(s)
    ensures |SetOf(s)| == |s|
  {
    if s != [] {
      SizeOfSet(s[1..]);
      assert SetOf(s) == {s[0]} + SetOf(s[1..]);
    }
  }

  ghost predicate Sorted(s: seq<string>, size: string -> nat) {
    forall i, j :: 0 <= i < j < |s| ==> size(s[i]) <= size(s[j])
  }

  method SortBySize(s: seq<string>, size: string -> nat) returns (r: seq<string>)
    requires Distinct(s)
    ensures Distinct(r) && Sorted(r, size) && SetOf(r) == SetOf(s)
  {
    hide Sorted;
    r := [];
    SortedNone(size);
    for i := 0 to |s|
      invariant Distinct(r) && Sorted(r, size) && SetOf(r) == SetOf(s[..i])
    {
      assert s[i] !in SetOf(s[..i]);
      assert s[..i + 1] == s[..i] + [s[i]];
      r := Insert(r, s[i], size);
    }
    assert s[..|s|] == s;
  }

  lemma SortedNone(size: string -> nat)
    ensures Sorted([], size)
  {
  }

  method Insert(s: seq<string>, x: string, size: string -> nat) returns (r: seq<string>)
    requires Distinct(s) && Sorted(s, size) && x !in SetOf(s)
    ensures Distinct(r) && Sorted(r, size) && SetOf(r) == SetOf(s) + {x}
  {
    var j := 0;
    while j < |s| && size(s[j]) <= size(x)
      invariant j <= |s| && forall k :: 0 <= k < j ==> size(s[k]) <= size(x)
    {
      j := j + 1;
    }
    InsertKeepsSet(s, j, x);
    r := s[..j] + [x] + s[j..];
  }

  lemma InsertKeepsSet(r: seq<string>, j: nat, x: string)
    requires j <= |r|
    ensures SetOf(r[..j] + [x] + r[j..]) == SetOf(r) + {x}
  {
    assert r == r[..j] + r[j..];
  }

  /** os.ReadDir on a directory that is there; it lists in name order, which nothing here relies on. */
  method ReadDir(d: Dir) returns (es: seq<Entry>)
    ensures Lists(es, d)
  {
    es := [];
    var files, folders := d.inputs, d.folders;
    while files != {}
      invariant files <= d.inputs
      invariant forall e :: e in es <==> !e.isDir && e.name in d.inputs - files
      invariant forall i, j :: 0 <= i < j < |es| ==> es[i] != es[j]
    {
      var x :| x in files;
      es, files := es + [Entry(x, false)], files - {x};
    }
    while folders != {}
      invariant folders <= d.folders
      invariant forall e :: e in es <==> if e.isDir then e.name in d.folders - folders else e.name in d.inputs
      invariant forall i, j :: 0 <= i < j < |es| ==> es[i] != es[j]
    {
      var x :| x in folders;
      es, folders := es + [Entry(x, true)], folders - {x};
    }
  }

  /** countFiles on a directory that can be read. */
  method CountFiles(d: Dir) returns (n: nat)
    ensures n == |d.inputs|
  {
    hide NamesIn;
    var ents := ReadDir(d);
    n := 0;
    NamesNone(ents);
    for i := 0 to |ents|
      invariant n == |NamesIn(ents[..i])|
    {
      NamesNext(ents, i);
      if !ents[i].isDir {
        n := n + 1;
      }
    }
    NamesAll(ents, d);
  }

  lemma NamesNone(ents: seq<Entry>)
    ensures NamesIn(ents[..0]) == {}
  {
  }

  lemma NamesNext(ents: seq<Entry>, i: nat)
    requires i < |ents| && forall k, j :: 0 <= k < j < |ents| ==> ents[k] != ents[j]
    ensures NamesIn(ents[..i + 1]) == NamesIn(ents[..i]) + if ents[i].isDir then {} else {ents[i].name}
    ensures !ents[i].isDir ==> ents[i].name !in NamesIn(ents[..i])
  {
    assert ents[..i + 1] == ents[..i] + [ents[i]];
  }

  lemma NamesAll(ents: seq<Entry>, d: Dir)
    requires Lists(ents, d)
    ensures NamesIn(ents[..|ents|]) == d.inputs
  {
    hide NamesIn, Lists;
    assert ents[..|ents|] == ents;
    forall x
      ensures x in NamesIn(ents) <==> x in d.inputs
    {
      NamesOfListing(ents, d, x);
    }
  }

  // ------------------------------------------------------------------- the cap

  /** The n smallest of these files, or all of them when there are no more than n. */
  ghost predicate Smallest(k: set<string>, files: set<string>, n: int, size: string -> nat) {
    && k <= files
    && |k| == (if n < |files| then n else |files|)
    && forall a, b :: a in k && b in files - k ==> size(a) <= size(b)
  }

  /** The files short enough to run, of those that can be stat'ed. */
  function Short(files: set<string>, maxLen: int, size: string -> nat, info: string -> bool): set<string> {
    set x | x in files && info(x) && size(x) <= maxLen
  }

  /**
    The cap: keep as many of the smallest short files as it allows, and of the rest only those
    that cannot be stat'ed or moved.
  */
  ghost predicate Capped(before: set<string>, later: set<string>, kept: set<string>, maxLen: int, cap: int,
                         os: CapOs) {
    && Smallest(kept, Short(before, maxLen, os.size, os.info), cap, os.size)
    && forall x :: x in later <==> x in before && (!os.info(x) || !os.move(x) || x in kept)
  }

  /**
    The answers applyCap gets: from mkdir, from ReadDir, and for each file whether it can be stat'ed,
    its size, and whether the rename works.
  */
  datatype CapOs = CapOs(
    made: bool, read: bool, info: string -> bool, size: string -> nat, move: string -> bool)

  function Made(ds: map<string, Dir>, n: string): map<string, Dir> {
    if n in ds then ds else ds[n := EMPTY]
  }

  /** os.Remove takes a directory away only when it is empty. */
  function Removed(ds: map<string, Dir>, n: string): map<string, Dir> {
    if n in ds && ds[n] == EMPTY then ds - {n} else ds
  }

  class Workspace {

    var disk: Disk
    ghost var history: seq<Disk>

    /** Every state the disk was in is on record, and none lost what an earlier one kept. */
    ghost predicate Valid()
      reads this
    {
      history != [] && history[|history| - 1] == disk && NeverLoses(history)
    }

    constructor (disk: Disk)
      ensures Valid() && this.disk == disk
    {
      this.disk, this.history := disk, [disk];
    }

    /** One call that changes the disk. */
    method Become(d: Disk)
      requires Valid() && NothingLost(disk, d)
      modifies this
      ensures Valid() && disk == d && history == old(history) + [d]
    {
      NeverLosesNext(history, d);
      disk, history := d, history + [d];
    }

    /** Fuzzing adds inputs to a corpus. */
    method Fuzz(t: string, found: set<string>)
      requires Valid()
      modifies this
      ensures Valid() && old(history) <= history
      ensures
        var live := DirAt(old(disk).corpus, t);
        disk == old(disk).(corpus := old(disk).corpus[t := live.(inputs := live.inputs + found)])
    {
      var live := DirAt(disk.corpus, t);
      var d := disk.(corpus := disk.corpus[t := live.(inputs := live.inputs + found)]);
      MoreArchivesLoseNothing(disk, d);
      Become(d);
    }

    method MakeDir(bak: string)
      requires Valid()
      modifies this
      ensures Valid() && old(history) <= history
      ensures disk == old(disk).(backups := Made(old(disk).backups, bak))
    {
      var d := disk.(backups := Made(disk.backups, bak));
      MoreArchivesLoseNothing(disk, d);
      Become(d);
    }

    method RemoveDir(bak: string)
      requires Valid()
      modifies this
      ensures Valid() && old(history) <= history
      ensures disk == old(disk).(backups := Removed(old(disk).backups, bak))
    {
      var d := disk.(backups := Removed(disk.backups, bak));
      MoreArchivesLoseNothing(disk, d);
      Become(d);
    }

    /** One file of the corpus to the archive; d and moved say what has gone there before. */
    method MoveInput(t: string, x: string, bak: string, ok: bool, ghost d: Disk, ghost moved: set<string>)
      requires Valid() && t in d.corpus && bak in d.backups && ArchiveOf(bak, t)
      requires disk == Moved(d, t, bak, moved) && x in d.corpus[t].inputs - moved
      modifies this
      ensures Valid() && old(history) <= history
      ensures disk == Moved(d, t, bak, moved + if ok then {x} else {})
    {
      hide ArchiveOf, NothingLost, NeverLoses;
      if ok {
        MovedTwice(d, t, bak, moved, {x});
        MovingLosesNothing(disk, t, bak, {x});
        Become(Moved(disk, t, bak, {x}));
      } else {
        assert moved + {} == moved;
      }
    }

    /** The inputs of the corpus that can be stat'ed. */
    method Candidates(t: string, info: string -> bool) returns (names: seq<string>)
      requires t in disk.corpus
      ensures Distinct(names) && forall x :: x in names <==> x in disk.corpus[t].inputs && info(x)
    {
      hide NamesIn;
      var ents := ReadDir(disk.corpus[t]);
      names := [];
      NamesNone(ents);
      for i := 0 to |ents|
        invariant Distinct(names) && forall x :: x in names <==> x in NamesIn(ents[..i]) && info(x)
      {
        NamesNext(ents, i);
        if ents[i].isDir {
          continue;
        }
        if info(ents[i].name) {
          names := names + [ents[i].name];
        }
      }
      NamesAll(ents, disk.corpus[t]);
    }

    method DropIfLong(f: string, t: string, bak: string, maxLen: int, size: string -> nat, move: string -> bool,
                      ghost d: Disk, ghost moved: set<string>)
        returns (dropped: bool)
      requires Valid() && t in d.corpus && bak in d.backups && ArchiveOf(bak, t)
      requires disk == Moved(d, t, bak, moved) && f in d.corpus[t].inputs - moved
      modifies this
      ensures Valid() && old(history) <= history
      ensures dropped == (size(f) > maxLen && move(f))
      ensures disk == Moved(d, t, bak, moved + if dropped then {f} else {})
    {
      hide ArchiveOf, Moved, NeverLoses;
      dropped := false;
      assert moved + {} == moved;
      if size(f) > maxLen {
        MoveInput(t, f, bak, move(f), d, moved);
        dropped := move(f);
      }
    }

    /** The first drop, which filters the list in place: files[..k] are those short enough. */
    method DropLong(files: array<string>, t: string, bak: string, maxLen: int, size: string -> nat, move: string -> bool)
        returns (k: nat, archived: nat)
      requires Valid() && t in disk.corpus && bak in disk.backups && ArchiveOf(bak, t)
      requires Distinct(files[..]) && forall x :: x in files[..] ==> x in disk.corpus[t].inputs
      modifies this, files
      ensures Valid() && old(history) <= history
      ensures k <= files.Length && files[..k] == Fit(old(files[..]), maxLen, size)
      ensures disk == Moved(old(disk), t, bak, Long(old(files[..]), maxLen, size, move))
      ensures archived == |Long(old(files[..]), maxLen, size, move)|
    {
      hide ArchiveOf, Moved, Long, Fit, Valid, Distinct;
      ghost var d, names, moved := disk, files[..], {};
      k, archived := 0, 0;
      MovedNothing(d, t, bak);
      LongNone(names, maxLen, size, move);
      for i := 0 to files.Length
        invariant k <= i && files[..k] == Fit(names[..i], maxLen, size)
        invariant forall j :: i <= j < files.Length ==> files[j] == names[j]
        invariant Valid() && old(history) <= history
        invariant moved == Long(names[..i], maxLen, size, move) && archived == |moved|
        invariant disk == Moved(d, t, bak, moved)
      {
        var f := files[i];
        LongNext(names, i, maxLen, size, move);
        var dropped := DropIfLong(f, t, bak, maxLen, size, move, d, moved);
        if dropped {
          archived, moved := archived + 1, moved + {f};
        }
        if size(f) <= maxLen {
          Append(files, k, f);
          k := k + 1;
        }
      }
      LongAll(names);
    }

    /** The loop over the files to drop. */
    method MoveEach(files: seq<string>, t: string, bak: string, move: string -> bool) returns (archived: nat)
      requires Valid() && t in disk.corpus && bak in disk.backups && ArchiveOf(bak, t)
      requires Distinct(files) && forall x :: x in files ==> x in disk.corpus[t].inputs
      modifies this
      ensures Valid() && old(history) <= history
      ensures disk == Moved(old(disk), t, bak, Movable(SetOf(files), move))
      ensures archived == |Movable(SetOf(files), move)|
    {
      hide NeverLoses, ArchiveOf, Moved, Movable;
      ghost var moved := {};
      archived := 0;
      MovedNothing(disk, t, bak);
      MovableNone(move);
      assert SetOf(files[..0]) == {};
      for i := 0 to |files|
        invariant Valid() && old(history) <= history
        invariant moved == Movable(SetOf(files[..i]), move) && archived == |moved|
        invariant disk == Moved(old(disk), t, bak, moved)
      {
        var f := files[i];
        MovableNext(files, i, move);
        MoveInput(t, f, bak, move(f), old(disk), moved);
        if move(f) {
          archived, moved := archived + 1, moved + {f};
        }
      }
      assert files[..|files|] == files;
    }

    /** The second drop: still over the cap, keep the smallest. */
    method DropLargest(files: seq<string>, cap: int, t: string, bak: string, size: string -> nat, move: string -> bool)
        returns (archived: nat, ghost kept: set<string>)
      requires Valid() && t in disk.corpus && bak in disk.backups && ArchiveOf(bak, t)
      requires cap > 0 && Distinct(files) && forall x :: x in files ==> x in disk.corpus[t].inputs
      modifies this
      ensures Valid() && old(history) <= history
      ensures Smallest(kept, SetOf(files), cap, size)
      ensures disk == Moved(old(disk), t, bak, Movable(SetOf(files) - kept, move))
      ensures archived == |Movable(SetOf(files) - kept, move)|
    {
      hide NeverLoses, ArchiveOf, Smallest, Moved, Movable;
      if |files| <= cap {
        archived, kept := 0, SetOf(files);
        SmallestOfFew(files, cap, size);
        MovedNothing(disk, t, bak);
        MovableNone(move);
        assert SetOf(files) - kept == {};
      } else {
        var sorted := SortBySize(files, size);
        SizeOfSet(files);
        SizeOfSet(sorted);
        kept := SetOf(sorted[..cap]);
        SmallestOfSorted(sorted, cap, size);
        assert forall x :: x in sorted[cap..] ==> x in SetOf(sorted);
        archived := MoveEach(sorted[cap..], t, bak, move);
      }
    }

    /** The listing of the corpus and the two drops. */
    method TwoDrops(t: string, maxLen: int, cap: int, bak: string, os: CapOs)
        returns (archived: nat, ghost kept: set<string>)
      requires Valid() && t in disk.corpus && bak in disk.backups && ArchiveOf(bak, t) && cap > 0
      modifies this
      ensures Valid() && old(history) <= history
      ensures Dropped(old(disk), disk, t, maxLen, cap, bak, os, archived, kept)
    {
      hide Valid, ArchiveOf, Moved, Long, Movable, Fit, Distinct, Smallest, Dropped;
      ghost var d := disk;
      var names := Candidates(t, os.info);
      var files := new string[|names|](i requires 0 <= i < |names| => names[i]);
      assert files[..] == names;
      var k, long := DropLong(files, t, bak, maxLen, os.size, os.move);
      FitAre(names, maxLen, os.size);
      FitStays(d, t, bak, names, maxLen, os.size, os.move);
      var large;
      ghost var m := disk;
      large, kept := DropLargest(files[..k], cap, t, bak, os.size, os.move);
      archived := long + large;
      DropsAdd(d, m, disk, t, bak, names, maxLen, cap, os, kept, long, large);
    }

    method ApplyCap(t: string, maxLen: int, cap: int, bak: string, os: CapOs)
        returns (archived: nat, err: bool, ghost kept: set<string>)
      requires Valid() && ArchiveOf(bak, t)
      modifies this
      ensures Valid() && old(history) <= history
      ensures CapOutcome(old(disk), disk, t, maxLen, cap, bak, os, archived, err, kept)
    {
      hide Valid, ArchiveOf, Dropped;
      archived, err, kept := 0, false, {};
      if cap <= 0 {
        return;
      }
      if !os.made {
        err := true;
        return;
      }
      MakeDir(bak);
      if !os.read || t !in disk.corpus {
        RemoveDir(bak);
        err := true;
        return;
      }
      archived, kept := TwoDrops(t, maxLen, cap, bak, os);
      if archived == 0 {
        RemoveDir(bak);
      }
    }

    /** The scratch directory, emptied as far as RemoveAll manages, or filled by the merge. */
    method SetScratch(scratch: string, backups: map<string, Dir>)
      requires Valid() && scratch != "" && scratch[0] == '.' && backups - {scratch} == disk.backups - {scratch}
      modifies this
      ensures Valid() && old(history) <= history
      ensures disk == old(disk).(backups := backups)
    {
      ScratchDoesNotMatter(disk, scratch, backups);
      Become(disk.(backups := backups));
    }

    /** os.Rename of the corpus to its archive, which works only if nothing is there. */
    method MoveAside(t: string, prev: string, works: bool) returns (ok: bool)
      requires Valid() && t in disk.corpus && ArchiveOf(prev, t)
      modifies this
      ensures Valid() && old(history) <= history
      ensures ok == (works && DirAt(old(disk).backups, prev) == EMPTY)
      ensures disk ==
        if ok then Disk(old(disk).corpus - {t}, old(disk).backups[prev := old(disk).corpus[t]]) else old(disk)
    {
      ok := works && DirAt(disk.backups, prev) == EMPTY;
      if ok {
        SettingAsideLosesNothing(disk, t, prev);
        Become(Disk(disk.corpus - {t}, disk.backups[prev := disk.corpus[t]]));
      }
    }

    /** os.Rename of the scratch directory into the place of the corpus. */
    method SwapIn(t: string, scratch: string, works: bool) returns (ok: bool)
      requires Valid() && t !in disk.corpus && scratch in disk.backups && scratch != "" && scratch[0] == '.'
      modifies this
      ensures Valid() && old(history) <= history && ok == works
      ensures disk ==
        if ok then Disk(old(disk).corpus[t := old(disk).backups[scratch]], old(disk).backups - {scratch}) else old(disk)
    {
      ok := works;
      if ok {
        SwappingLosesNothing(disk, t, scratch);
        Become(Disk(disk.corpus[t := disk.backups[scratch]], disk.backups - {scratch}));
      }
    }

    /** From a clean scratch directory to what the merge put there, or an error on the way. */
    method Merge(scratch: string, os: RunOs) returns (made: bool)
      requires Valid() && scratch != "" && scratch[0] == '.'
      modifies this
      ensures Valid() && old(history) <= history && made == os.scratchMade
      ensures disk.corpus == old(disk).corpus && disk.backups - {scratch} == old(disk).backups - {scratch}
      ensures made ==> scratch in disk.backups && disk.backups[scratch] == os.merged
    {
      hide Valid, Cleared;
      ClearedIsScratch(disk.backups, scratch, os.leftFirst);
      SetScratch(scratch, Cleared(disk.backups, scratch, os.leftFirst));
      made := os.scratchMade;
      if made {
        SetScratch(scratch, Made(disk.backups, scratch));
        SetScratch(scratch, disk.backups[scratch := os.merged]);
      }
    }

    /** Giving up: os.RemoveAll of the scratch directory. */
    method Discard(scratch: string, os: RunOs)
      requires Valid() && scratch != "" && scratch[0] == '.'
      modifies this
      ensures Valid() && old(history) <= history
      ensures disk.corpus == old(disk).corpus && disk.backups - {scratch} == old(disk).backups - {scratch}
    {
      hide Valid, Cleared;
      ClearedIsScratch(disk.backups, scratch, os.leftLast);
      SetScratch(scratch, Cleared(disk.backups, scratch, os.leftLast));
    }

    /** Rename, never delete: the old corpus to its archive, then the merged one into its place. */
    method Swap(t: string, prev: string, scratch: string, os: RunOs) returns (what: What)
      requires Valid() && t in disk.corpus && ArchiveOf(prev, t) && prev != scratch
      requires scratch != "" && scratch[0] == '.' && scratch in disk.backups && disk.backups[scratch] == os.merged
      modifies this
      ensures Valid() && old(history) <= history
      ensures SwapOutcome(old(disk), disk, t, prev, scratch, os.merged, what)
      ensures what.NotAside? <==> !(os.aside && DirAt(old(disk).backups, prev) == EMPTY)
      ensures what.SwapFailed? || what.Swapped? ==> (what.Swapped? <==> os.swap)
    {
      hide Valid, ArchiveOf;
      var ok := MoveAside(t, prev, os.aside);
      if !ok {
        Discard(scratch, os);
        return NotAside;
      }
      ok := SwapIn(t, scratch, os.swap);
      what := if ok then Swapped else SwapFailed;
    }

    method Minimize(t: string, o: MinOptions, stamps: (string, string), pid: string, os: RunOs)
        returns (res: MinResult, ghost kept: set<string>)
      requires Valid()
      modifies this
      ensures Valid() && old(history) <= history
      ensures MinimizeOutcome(old(disk), disk, t, o, stamps, pid, os, res, kept)
    {
      hide Valid, ArchiveOf, CapOutcome;
      var maxLen := if o.maxLen == 0 then 4096 else o.maxLen;
      var prev, bak, scratch := t + PREMIN + stamps.0, t + CAPPED + stamps.1, "." + t + ".min." + pid;
      OwnArchives(t, stamps);
      ScratchIsElsewhere(t, stamps.0, pid);
      kept := {};
      res := MinResult(0, 0, 0, Skipped, false);
      if t !in disk.corpus || !os.hasBinary {
        return;
      }
      var count := CountFiles(disk.corpus[t]);
      res := res.(before := if os.seesBefore then count else 0);
      if res.before == 0 {
        return;
      }
      if !os.backupsMade {
        res := res.(what := NoBackups, err := true);
        return;
      }
      var archived, err;
      if o.capOnly {
        archived, err, kept := ApplyCap(t, maxLen, o.cap, bak, os.cap);
        count := CountFiles(DirAt(disk.corpus, t));
        res := res.(what := CapOnly, archived := archived, after := if os.seesAfter then count else 0, err := err);
        return;
      }
      var made := Merge(scratch, os);
      if !made {
        res := res.(what := NoScratch, err := true);
        return;
      }
      if !os.mergeOk {
        Discard(scratch, os);
        res := res.(what := MergeFailed, err := true);
        return;
      }
      count := CountFiles(os.merged);
      var merged := if os.seesMerged then count else 0;
      if merged == 0 || merged >= res.before {
        Discard(scratch, os);
        res := res.(what := Refused, after := res.before);
        return;
      }
      ghost var merging := disk;
      var what := Swap(t, prev, scratch, os);
      SwapFrom(old(disk), merging, disk, t, prev, scratch, os.merged, what);
      if !what.Swapped? {
        res := res.(what := what, err := true);
        return;
      }
      archived, err, kept := ApplyCap(t, maxLen, o.cap, bak, os.cap);
      count := CountFiles(DirAt(disk.corpus, t));
      res := res.(what := Swapped, archived := archived, after := if os.seesAfter then count else 0, err := err);
    }
  }

  /** How the two renames took disk d to e. */
  ghost predicate SwapOutcome(d: Disk, e: Disk, t: string, prev: string, scratch: string, merged: Dir, what: What) {
    match what
    case NotAside => OnlyScratch(d, e, scratch)
    case SwapFailed =>
      && t in d.corpus && e.corpus == d.corpus - {t}
      && e.backups - {scratch} == d.backups[prev := d.corpus[t]] - {scratch}
    case Swapped => t in d.corpus && e == Disk(d.corpus[t := merged], d.backups[prev := d.corpus[t]] - {scratch})
    case _ => false
  }

  lemma SwappingLosesNothing(d: Disk, t: string, scratch: string)
    requires t !in d.corpus && scratch in d.backups && scratch != "" && scratch[0] == '.'
    ensures NothingLost(d, Disk(d.corpus[t := d.backups[scratch]], d.backups - {scratch}))
  {
    hide ArchiveOf, Visible;
    var e := Disk(d.corpus[t := d.backups[scratch]], d.backups - {scratch});
    forall n, u | n in d.backups && Visible(u) && ArchiveOf(n, u)
      ensures d.backups[n].inputs <= DirAt(e.backups, n).inputs
    {
      if n == scratch {
        ScratchIsNobodys(scratch, u);
      }
    }
    MoreArchivesLoseNothing(d, e);
  }

  lemma OwnArchives(t: string, stamps: (string, string))
    ensures ArchiveOf(t + PREMIN + stamps.0, t) && ArchiveOf(t + CAPPED + stamps.1, t)
  {
  }

  lemma ScratchIsElsewhere(t: string, stamp: string, pid: string)
    ensures t + PREMIN + stamp != "." + t + ".min." + pid
  {
    assert (t + PREMIN + stamp)[|t| + 1] == 'p' && ("." + t + ".min." + pid)[|t| + 1] == '.';
  }

  /** What the scratch directory held before the renames does not show. */
  lemma SwapFrom(d: Disk, m: Disk, e: Disk, t: string, prev: string, scratch: string, merged: Dir, what: What)
    requires OnlyScratch(d, m, scratch)
    requires SwapOutcome(m, e, t, prev, scratch, merged, what)
    ensures SwapOutcome(d, e, t, prev, scratch, merged, what)
    ensures prev != scratch ==> DirAt(m.backups, prev) == DirAt(d.backups, prev)
  {
    assert prev != scratch ==> DirAt(m.backups - {scratch}, prev) == DirAt(d.backups - {scratch}, prev);
    if t in d.corpus {
      var c := d.corpus[t];
      assert m.backups[prev := c] - {scratch} == (m.backups - {scratch})[prev := c] - {scratch};
      assert d.backups[prev := c] - {scratch} == (d.backups - {scratch})[prev := c] - {scratch};
    }
  }

  datatype MinOptions = MinOptions(maxLen: int, cap: int, capOnly: bool)

  /** The answers Minimize gets, in order; left is what a RemoveAll could not remove. */
  datatype RunOs = RunOs(
    hasBinary: bool, seesBefore: bool, backupsMade: bool,
    leftFirst: Option<Dir>, scratchMade: bool, mergeOk: bool, merged: Dir, seesMerged: bool, leftLast: Option<Dir>,
    aside: bool, swap: bool, cap: CapOs, seesAfter: bool)

  /** How a call ended. */
  datatype What = Skipped | NoBackups | CapOnly | NoScratch | MergeFailed | Refused | NotAside | SwapFailed | Swapped

  datatype MinResult = MinResult(before: nat, after: nat, archived: nat, what: What, err: bool)

  function Cleared(ds: map<string, Dir>, n: string, left: Option<Dir>): map<string, Dir> {
    if n in ds && left.Some? then ds[n := left.value] else ds - {n}
  }

  lemma ClearedIsScratch(ds: map<string, Dir>, n: string, left: Option<Dir>)
    ensures Cleared(ds, n, left) - {n} == ds - {n}
  {
  }

  /**
    What Minimize did to disk d.  Unless it swapped or capped, every corpus is as it was and only
    its scratch directory may differ.  It swaps only a smaller, nonempty corpus in, and the old one
    is then in its archive.
  */
  ghost predicate MinimizeOutcome(d: Disk, e: Disk, t: string, o: MinOptions, stamps: (string, string), pid: string,
                                  os: RunOs, res: MinResult, kept: set<string>) {
    var maxLen := if o.maxLen == 0 then 4096 else o.maxLen;
    var prev, bak, scratch := t + PREMIN + stamps.0, t + CAPPED + stamps.1, "." + t + ".min." + pid;
    var before := if os.seesBefore then |DirAt(d.corpus, t).inputs| else 0;
    var merged := if os.seesMerged then |os.merged.inputs| else 0;
    var ready := t in d.corpus && os.hasBinary && before != 0;
    var merging := ready && os.backupsMade && !o.capOnly;
    var smaller := merging && os.scratchMade && os.mergeOk && 0 < merged < before;
    var freed := os.aside && DirAt(d.backups, prev) == EMPTY;
    var left := |DirAt(e.corpus, t).inputs|;
    && (ready ==> res.before == before)
    && match res.what
       case Skipped => !ready && e == d && !res.err
       case NoBackups => ready && !os.backupsMade && e == d && res.err
       case CapOnly =>
         && ready && os.backupsMade && o.capOnly && res.after == (if os.seesAfter then left else 0)
         && CapOutcome(d, e, t, maxLen, o.cap, bak, os.cap, res.archived, res.err, kept)
       case NoScratch => merging && !os.scratchMade && OnlyScratch(d, e, scratch) && res.err
       case MergeFailed => merging && os.scratchMade && !os.mergeOk && OnlyScratch(d, e, scratch) && res.err
       case Refused =>
         && merging && os.scratchMade && os.mergeOk && !(0 < merged < before) && OnlyScratch(d, e, scratch)
         && res.after == before && !res.err
       case NotAside => smaller && !freed && OnlyScratch(d, e, scratch) && res.err
       case SwapFailed =>
         smaller && freed && !os.swap && SwapOutcome(d, e, t, prev, scratch, os.merged, SwapFailed) && res.err
       case Swapped =>
         && smaller && freed && os.swap && res.after == (if os.seesAfter then left else 0)
         && var m := Disk(d.corpus[t := os.merged], d.backups[prev := d.corpus[t]] - {scratch});
            CapOutcome(m, e, t, maxLen, o.cap, bak, os.cap, res.archived, res.err, kept)
  }

  ghost predicate OnlyScratch(d: Disk, e: Disk, scratch: string) {
    e.corpus == d.corpus && e.backups - {scratch} == d.backups - {scratch}
  }

  function Long(files: seq<string>, maxLen: int, size: string -> nat, move: string -> bool): set<string> {
    set x | x in files && size(x) > maxLen && move(x)
  }

  function Movable(files: set<string>, move: string -> bool): set<string> {
    set x | x in files && move(x)
  }

  /** The files that are short enough, in their order. */
  function Fit(files: seq<string>, maxLen: int, size: string -> nat): seq<string> {
    if files == [] then []
    else
      var x := files[|files| - 1];
      Fit(files[..|files| - 1], maxLen, size) + if size(x) <= maxLen then [x] else []
  }

  lemma {:induction false} FitAre(files: seq<string>, maxLen: int, size: string -> nat)
    requires Distinct(files)
    ensures Distinct(Fit(files, maxLen, size))
    ensures forall x :: x in Fit(files, maxLen, size) <==> x in files && size(x) <= maxLen
  {
    if files != [] {
      FitAre(files[..|files| - 1], maxLen, size);
      assert files == files[..|files| - 1] + [files[|files| - 1]];
    }
  }

  lemma LongNext(names: seq<string>, i: nat, maxLen: int, size: string -> nat, move: string -> bool)
    requires i < |names| && Distinct(names)
    ensures
      var a, x := Long(names[..i], maxLen, size, move), names[i];
      Long(names[..i + 1], maxLen, size, move) == a + (if size(x) > maxLen && move(x) then {x} else {}) && x !in a
    ensures
      var x := names[i];
      Fit(names[..i + 1], maxLen, size) == Fit(names[..i], maxLen, size) + if size(x) <= maxLen then [x] else []
  {
    assert names[..i + 1] == names[..i] + [names[i]];
    assert names[..i + 1][..i] == names[..i];
  }

  lemma LongNone(names: seq<string>, maxLen: int, size: string -> nat, move: string -> bool)
    ensures Long(names[..0], maxLen, size, move) == {} && Fit(names[..0], maxLen, size) == []
  {
  }

  lemma LongAll(names: seq<string>)
    ensures names[..|names|] == names
  {
  }

  /** append on a slice that shares the list's array. */
  method Append(files: array<string>, k: nat, f: string)
    requires k < files.Length
    modifies files
    ensures files[..k + 1] == old(files[..k]) + [f]
    ensures forall j :: k < j < files.Length ==> files[j] == old(files[j])
  {
    files[k] := f;
  }

  lemma MovableNext(s: seq<string>, i: nat, move: string -> bool)
    requires i < |s| && Distinct(s)
    ensures
      var a, x := Movable(SetOf(s[..i]), move), s[i];
      Movable(SetOf(s[..i + 1]), move) == a + (if move(x) then {x} else {}) && x !in a
  {
    assert s[..i + 1] == s[..i] + [s[i]];
  }

  lemma MovableNone(move: string -> bool)
    ensures Movable({}, move) == {}
  {
  }

  lemma SmallestOfFew(s: seq<string>, n: int, size: string -> nat)
    requires Distinct(s) && |s| <= n
    ensures Smallest(SetOf(s), SetOf(s), n, size)
  {
    SizeOfSet(s);
  }

  lemma SmallestOfSorted(s: seq<string>, n: nat, size: string -> nat)
    requires Distinct(s) && Sorted(s, size) && n <= |s|
    ensures Smallest(SetOf(s[..n]), SetOf(s), n, size) && SetOf(s) - SetOf(s[..n]) == SetOf(s[n..])
  {
    assert s == s[..n] + s[n..];
    SizeOfSet(s);
    SizeOfSet(s[..n]);
    forall a, b | a in SetOf(s[..n]) && b in SetOf(s[n..])
      ensures size(a) <= size(b) && a != b
    {
      SplitSorted(s, n, size, a, b);
    }
    assert SetOf(s) == SetOf(s[..n]) + SetOf(s[n..]);
  }

  lemma SplitSorted(s: seq<string>, n: nat, size: string -> nat, a: string, b: string)
    requires Distinct(s) && Sorted(s, size) && n <= |s| && a in s[..n] && b in s[n..]
    ensures size(a) <= size(b) && a != b
  {
    var i :| 0 <= i < n && s[i] == a;
    var j :| n <= j < |s| && s[j] == b;
  }

  /** The two drops took disk d to e. */
  ghost predicate Dropped(d: Disk, e: Disk, t: string, maxLen: int, cap: int, bak: string, os: CapOs,
                          archived: nat, kept: set<string>)
    requires t in d.corpus && bak in d.backups
  {
    var gone := d.corpus[t].inputs - DirAt(e.corpus, t).inputs;
    && archived == |gone|
    && e == Moved(d, t, bak, gone)
    && Capped(d.corpus[t].inputs, DirAt(e.corpus, t).inputs, kept, maxLen, cap, os)
  }

  /** What applyCap did to disk d; an archive left empty is taken away again. */
  ghost predicate CapOutcome(d: Disk, e: Disk, t: string, maxLen: int, cap: int, bak: string, os: CapOs,
                             archived: nat, err: bool, kept: set<string>) {
    if cap <= 0 then e == d && archived == 0 && !err
    else if !os.made then e == d && archived == 0 && err
    else
      var made := d.(backups := Made(d.backups, bak));
      if !os.read || t !in d.corpus then
        e == d.(backups := Removed(made.backups, bak)) && archived == 0 && err
      else
        exists m :: Dropped(made, m, t, maxLen, cap, bak, os, archived, kept) && !err &&
                    e == if archived == 0 then m.(backups := Removed(m.backups, bak)) else m
  }

  lemma FitStays(d: Disk, t: string, bak: string, names: seq<string>, maxLen: int,
                 size: string -> nat, move: string -> bool)
    requires t in d.corpus && bak in d.backups && forall x :: x in names ==> x in d.corpus[t].inputs
    ensures
      var e := Moved(d, t, bak, Long(names, maxLen, size, move));
      && t in e.corpus && bak in e.backups
      && forall x :: x in names && size(x) <= maxLen ==> x in e.corpus[t].inputs
  {
  }

  /** The two drops together. */
  lemma DropsAdd(d: Disk, m: Disk, e: Disk, t: string, bak: string, names: seq<string>, maxLen: int, cap: int,
                 os: CapOs, kept: set<string>, long: nat, large: nat)
    requires t in d.corpus && bak in d.backups && Distinct(names)
    requires forall x :: x in names <==> x in d.corpus[t].inputs && os.info(x)
    requires Smallest(kept, SetOf(Fit(names, maxLen, os.size)), cap, os.size)
    requires m == Moved(d, t, bak, Long(names, maxLen, os.size, os.move))
    requires e == Moved(m, t, bak, Movable(SetOf(Fit(names, maxLen, os.size)) - kept, os.move))
    requires long == |Long(names, maxLen, os.size, os.move)|
    requires large == |Movable(SetOf(Fit(names, maxLen, os.size)) - kept, os.move)|
    ensures Dropped(d, e, t, maxLen, cap, bak, os, long + large, kept)
  {
    hide Fit, Smallest, Moved, Capped, Long, Movable;
    var first := Long(names, maxLen, os.size, os.move);
    var second := Movable(SetOf(Fit(names, maxLen, os.size)) - kept, os.move);
    var before := d.corpus[t].inputs;
    FitAre(names, maxLen, os.size);
    MovedTwice(d, t, bak, first, second);
    DropsAreTheRest(before, names, maxLen, cap, os, kept);
    MovedLeaves(d, t, bak, first + second);
    assert before - DirAt(e.corpus, t).inputs == first + second;
  }

  lemma MovedLeaves(d: Disk, t: string, bak: string, xs: set<string>)
    requires t in d.corpus && bak in d.backups && xs <= d.corpus[t].inputs
    ensures
      var later := DirAt(Moved(d, t, bak, xs).corpus, t).inputs;
      later == d.corpus[t].inputs - xs && d.corpus[t].inputs - later == xs
  {
  }

  lemma DropsAreTheRest(before: set<string>, names: seq<string>, maxLen: int, cap: int, os: CapOs, kept: set<string>)
    requires Distinct(names) && forall x :: x in names <==> x in before && os.info(x)
    requires Smallest(kept, SetOf(Fit(names, maxLen, os.size)), cap, os.size)
    ensures
      var long := Long(names, maxLen, os.size, os.move);
      var large := Movable(SetOf(Fit(names, maxLen, os.size)) - kept, os.move);
      && long + large <= before && |long + large| == |long| + |large|
      && Capped(before, before - (long + large), kept, maxLen, cap, os)
  {
    hide Fit;
    FitAre(names, maxLen, os.size);
    assert SetOf(Fit(names, maxLen, os.size)) == Short(before, maxLen, os.size, os.info);
    assert Long(names, maxLen, os.size, os.move) !! Movable(SetOf(Fit(names, maxLen, os.size)) - kept, os.move);
  }

  // ------------------------------------------------------------------- what a cap leaves

  ghost predicate NoFault(os: CapOs) {
    os.made && os.read && forall x :: os.info(x) && os.move(x)
  }

  function Inputs(d: Disk, t: string): set<string> {
    DirAt(d.corpus, t).inputs
  }

  lemma CapDid(d: Disk, e: Disk, t: string, maxLen: int, cap: int, bak: string, os: CapOs,
               archived: nat, err: bool, kept: set<string>)
    requires CapOutcome(d, e, t, maxLen, cap, bak, os, archived, err, kept)
    requires cap > 0 && os.made && os.read && t in d.corpus
    ensures !err && Capped(Inputs(d, t), Inputs(e, t), kept, maxLen, cap, os)
    ensures archived == |Inputs(d, t) - Inputs(e, t)|
  {
    hide Moved, Capped;
  }

  /**
    When nothing fails the corpus keeps exactly the cap's number of inputs, or all the short ones
    when there are fewer: none too long, none larger than one that was archived.
  */
  lemma CapKeepsTheSmallest(d: Disk, e: Disk, t: string, maxLen: int, cap: int, bak: string, os: CapOs,
                            archived: nat, err: bool, kept: set<string>)
    requires CapOutcome(d, e, t, maxLen, cap, bak, os, archived, err, kept)
    requires cap > 0 && t in d.corpus && NoFault(os)
    ensures
      var before, later := Inputs(d, t), Inputs(e, t);
      var short := set x | x in before && os.size(x) <= maxLen;
      && later <= before && |later| == (if cap < |short| then cap else |short|)
      && (forall x :: x in later ==> os.size(x) <= maxLen)
      && (forall x, y :: x in later && y in before - later ==> os.size(x) <= os.size(y))
  {
    hide CapOutcome, Capped, Inputs;
    CapDid(d, e, t, maxLen, cap, bak, os, archived, err, kept);
    CappedKeepsTheSmallest(Inputs(d, t), Inputs(e, t), kept, maxLen, cap, os);
  }

  lemma CappedKeepsTheSmallest(before: set<string>, later: set<string>, kept: set<string>,
                               maxLen: int, cap: int, os: CapOs)
    requires Capped(before, later, kept, maxLen, cap, os) && NoFault(os)
    ensures
      var short := set x | x in before && os.size(x) <= maxLen;
      && later <= before && |later| == (if cap < |short| then cap else |short|)
      && (forall x :: x in later ==> os.size(x) <= maxLen)
      && (forall x, y :: x in later && y in before - later ==> os.size(x) <= os.size(y))
  {
    assert later == kept;
    assert Short(before, maxLen, os.size, os.info) == set x | x in before && os.size(x) <= maxLen;
  }

  /** Whatever fails, the cap leaves its number of inputs, or all that are short enough. */
  lemma CapNeverCutsBelow(d: Disk, e: Disk, t: string, maxLen: int, cap: int, bak: string, os: CapOs,
                          archived: nat, err: bool, kept: set<string>)
    requires CapOutcome(d, e, t, maxLen, cap, bak, os, archived, err, kept) && cap > 0
    ensures
      var short := Short(Inputs(d, t), maxLen, os.size, os.info);
      |Inputs(e, t)| >= (if cap < |short| then cap else |short|)
  {
    hide CapOutcome;
    if os.made && os.read && t in d.corpus {
      CapDid(d, e, t, maxLen, cap, bak, os, archived, err, kept);
      SubsetIsNoLarger(kept, Inputs(e, t));
    } else {
      CapDidNothing(d, e, t, maxLen, cap, bak, os, archived, err, kept);
      SubsetIsNoLarger(Short(Inputs(d, t), maxLen, os.size, os.info), Inputs(d, t));
    }
  }

  lemma CapDidNothing(d: Disk, e: Disk, t: string, maxLen: int, cap: int, bak: string, os: CapOs,
                      archived: nat, err: bool, kept: set<string>)
    requires CapOutcome(d, e, t, maxLen, cap, bak, os, archived, err, kept)
    requires cap <= 0 || !(os.made && os.read && t in d.corpus)
    ensures e.corpus == d.corpus && archived == 0
  {
  }

  lemma {:induction false} SubsetIsNoLarger(a: set<string>, b: set<string>)
    requires a <= b
    ensures |a| <= |b|
  {
    if a != {} {
      var x :| x in a;
      SubsetIsNoLarger(a - {x}, b - {x});
    }
  }

  /** Capping what a cap left archives nothing more. */
  lemma CapTwiceIsOnce(d: Disk, e: Disk, f: Disk, t: string, maxLen: int, cap: int, bak: string, bak2: string,
                       os: CapOs, archived: nat, archived2: nat, err: bool, err2: bool, kept: set<string>, kept2: set<string>)
    requires CapOutcome(d, e, t, maxLen, cap, bak, os, archived, err, kept)
    requires CapOutcome(e, f, t, maxLen, cap, bak2, os, archived2, err2, kept2)
    requires cap > 0 && t in d.corpus && t in e.corpus && NoFault(os)
    ensures Inputs(f, t) == Inputs(e, t) && archived2 == 0
  {
    hide CapOutcome, Capped;
    CapKeepsTheSmallest(d, e, t, maxLen, cap, bak, os, archived, err, kept);
    CapDid(e, f, t, maxLen, cap, bak2, os, archived2, err2, kept2);
    CappedAgain(Inputs(e, t), Inputs(f, t), kept2, maxLen, cap, os);
    assert Inputs(e, t) - Inputs(f, t) == {};
  }

  lemma CappedAgain(before: set<string>, later: set<string>, kept: set<string>, maxLen: int, cap: int, os: CapOs)
    requires Capped(before, later, kept, maxLen, cap, os) && NoFault(os)
    requires |before| <= cap && forall x :: x in before ==> os.size(x) <= maxLen
    ensures later == before
  {
    assert Short(before, maxLen, os.size, os.info) == before;
    SameSizeIsSame(kept, before);
  }

  lemma SameSizeIsSame(a: set<string>, b: set<string>)
    requires a <= b && |a| == |b|
    ensures a == b
  {
    if x :| x in b && x !in a {
      SubsetIsNoLarger(a, b - {x});
    }
  }

  // ------------------------------------------------------------------- nothing is lost

  /**
    A call killed at any of its disks and a process that starts from that disk make one history:
    what either kept at any moment is kept to the end.
  */
  lemma KilledAndResumedLosesNothing(h: seq<Disk>, k: nat, g: seq<Disk>)
    requires NeverLoses(h) && k < |h| && NeverLoses(g) && g != [] && g[0] == h[k]
    ensures NeverLoses(h[..k] + g)
  {
    hide NothingLost;
    var all := h[..k] + g;
    forall i, j | 0 <= i <= j < |all|
      ensures NothingLost(all[i], all[j])
    {
      if i < k <= j {
        assert NothingLost(h[i], h[k]) && NothingLost(g[0], g[j - k]);
        LossesAdd(h[i], h[k], g[j - k]);
      } else if j < k {
        assert NothingLost(h[i], h[j]);
      } else {
        assert NothingLost(g[i - k], g[j - k]);
      }
    }
  }

  lemma LossesAdd(a: Disk, b: Disk, c: Disk)
    requires NothingLost(a, b) && NothingLost(b, c)
    ensures NothingLost(a, c)
  {
    hide Kept;
  }

  /**
    On every disk the workspace ever showed, whatever was live or archived for a target is, on the
    last one, live or recovered by seeding from the archives.
  */
  lemma WhatWasEverKeptComesBack(h: seq<Disk>, i: nat, targets: seq<string>, os: Os, t: string, x: string)
    requires NeverLoses(h) && i < |h| && Visible(t) && t in targets && Kept(h[i], t, x)
    requires Honest(os, h[|h| - 1])
    requires os.root.Some? && forall n :: n in h[|h| - 1].backups ==> os.list(n).Some?
    requires var r := SeedAll(map[], NOTHING_YET, targets, os); r.2 && r.1.failed == 0
    ensures Live(h[|h| - 1], t, x) || HasWhole(SeedAll(map[], NOTHING_YET, targets, os).0, t, x)
  {
    hide Kept, SeedAll, Honest, Live, HasWhole;
    assert NothingLost(h[i], h[|h| - 1]);
    LiveAndSeededAreAllThatIsKept(targets, os, h[|h| - 1], t, x);
  }
}
