/**
  The append-only slice series of go/internal/campaign/campaign.go: one JSON row a line, appended
  in one write that a kill may tear at any byte, and read back by splitting at newlines and
  dropping the lines that do not parse.

  The JSON codec is a pair of functions: encoding gives a nonempty line without a newline, and
  decoding undoes it.  What decoding does to any other line is left open.
*/
module SeriesLog {

  import opened Bytes
  import opened Options
  import Splitting

  const NEWLINE: Byte := 10

  datatype Codec<!T> = Codec(enc: T -> seq<Byte>, dec: seq<Byte> -> Option<T>)

  ghost predicate Faithful<T(!new)>(j: Codec<T>) {
    forall row: T :: j.enc(row) != [] && NEWLINE !in j.enc(row) && j.dec(j.enc(row)) == Some(row)
  }

  // ------------------------------------------------------------------------ lines

  /** The lines of a file; a last line without a newline counts, an empty one does not. */
  function Lines(s: seq<Byte>): seq<seq<Byte>>
    decreases |s|
  {
    if NEWLINE !in s then (if s == [] then [] else [s])
    else
      var i := Splitting.First(s, NEWLINE);
      [s[..i]] + Lines(s[i + 1..])
  }

  lemma LinesAt(line: seq<Byte>, rest: seq<Byte>)
    requires NEWLINE !in line
    ensures Lines(line + [NEWLINE] + rest) == [line] + Lines(rest)
  {
    var s := line + [NEWLINE] + rest;
    assert s[|line|] == NEWLINE && s[..|line|] == line && s[|line| + 1..] == rest;
    Splitting.FirstIs(s, NEWLINE, |line|);
  }

  lemma LinesFrom(b: seq<Byte>, start: nat, i: nat)
    requires start <= i < |b| && b[i] == NEWLINE && NEWLINE !in b[start..i]
    ensures Lines(b[start..]) == [b[start..i]] + Lines(b[i + 1..])
  {
    LinesAt(b[start..i], b[i + 1..]);
    assert b[start..] == b[start..i] + [NEWLINE] + b[i + 1..];
  }

  lemma LastLine(s: seq<Byte>)
    requires NEWLINE !in s
    ensures Lines(s) == if s == [] then [] else [s]
  {
  }

  function Join(lines: seq<seq<Byte>>): seq<Byte> {
    if lines == [] then [] else lines[0] + [NEWLINE] + Join(lines[1..])
  }

  lemma JoinCons(line: seq<Byte>, lines: seq<seq<Byte>>)
    ensures Join([line] + lines) == line + [NEWLINE] + Join(lines)
  {
    assert ([line] + lines)[1..] == lines;
  }

  /** Splitting loses no byte: the lines, each with its newline, are the file up to a last newline. */
  lemma {:induction false} LinesJoin(s: seq<Byte>)
    ensures Join(Lines(s)) == if s == [] || s[|s| - 1] == NEWLINE then s else s + [NEWLINE]
    decreases |s|
  {
    hide Join, Lines;
    if NEWLINE in s {
      var i := Splitting.First(s, NEWLINE);
      var line, rest := s[..i], s[i + 1..];
      assert s == line + [NEWLINE] + rest;
      LinesAt(line, rest);
      LinesJoin(rest);
      JoinCons(line, Lines(rest));
    } else {
      LastLine(s);
      JoinNothing();
      JoinCons(s, []);
      assert [s] + [] == [s];
    }
  }

  lemma JoinNothing()
    ensures Join([]) == []
  {
  }

  lemma {:induction false} LinesHaveNoNewline(s: seq<Byte>)
    ensures forall line :: line in Lines(s) ==> NEWLINE !in line
    decreases |s|
  {
    if NEWLINE in s {
      LinesHaveNoNewline(s[Splitting.First(s, NEWLINE) + 1..]);
    }
  }

  /** splitLines: a walk over the bytes with a moving start. */
  method SplitLines(b: seq<Byte>) returns (out: seq<seq<Byte>>)
    ensures out == Lines(b)
  {
    hide Lines;
    out := [];
    var start := 0;
    assert b[0..] == b;
    for i := 0 to |b|
      invariant start <= i && NEWLINE !in b[start..i]
      invariant Lines(b) == out + Lines(b[start..])
    {
      if b[i] == NEWLINE {
        LinesFrom(b, start, i);
        out := out + [b[start..i]];
        start := i + 1;
      }
    }
    assert b[start..|b|] == b[start..];
    LastLine(b[start..]);
    if start < |b| {
      out := out + [b[start..]];
    }
  }

  // ------------------------------------------------------------------ writing rows

  /** One Append: the whole row with its newline, or only its first kept bytes. */
  datatype Write<T> = Whole(row: T) | Torn(row: T, kept: nat)

  function Written<T>(j: Codec<T>, w: Write<T>): seq<Byte> {
    match w
    case Whole(row) => j.enc(row) + [NEWLINE]
    case Torn(row, kept) => if kept <= |j.enc(row)| then j.enc(row)[..kept] else j.enc(row)
  }

  function FileOf<T>(j: Codec<T>, ws: seq<Write<T>>): seq<Byte> {
    if ws == [] then [] else Written(j, ws[0]) + FileOf(j, ws[1..])
  }

  function Parsed<T>(j: Codec<T>, line: seq<Byte>): (rows: seq<T>)
    ensures |rows| <= 1
  {
    if line == [] then []
    else match j.dec(line)
      case None => []
      case Some(row) => [row]
  }

  function Rows<T>(j: Codec<T>, lines: seq<seq<Byte>>): seq<T> {
    if lines == [] then [] else Parsed(j, lines[0]) + Rows(j, lines[1..])
  }

  /** The rows of a file: what Read returns. */
  function RowsOf<T>(j: Codec<T>, file: seq<Byte>): seq<T> {
    Rows(j, Lines(file))
  }

  /**
    What a reader recovers from a history of writes, where pending is what torn writes left
    behind since the last newline: each whole row on a clean line is itself, and the bytes of
    torn writes spoil at most the row that lands on their line.
  */
  function Recovered<T>(j: Codec<T>, ws: seq<Write<T>>, pending: seq<Byte>): seq<T> {
    if ws == [] then Parsed(j, pending)
    else
      match ws[0]
      case Torn(_, _) => Recovered(j, ws[1..], pending + Written(j, ws[0]))
      case Whole(row) =>
        (if pending == [] then [row] else Parsed(j, pending + j.enc(row))) + Recovered(j, ws[1..], [])
  }

  lemma RowsOfLine<T(!new)>(j: Codec<T>, line: seq<Byte>, rest: seq<Byte>)
    requires NEWLINE !in line
    ensures RowsOf(j, line + [NEWLINE] + rest) == Parsed(j, line) + RowsOf(j, rest)
  {
    hide Lines;
    LinesAt(line, rest);
    assert ([line] + Lines(rest))[1..] == Lines(rest);
  }

  lemma RowsOfLastLine<T(!new)>(j: Codec<T>, line: seq<Byte>)
    requires NEWLINE !in line
    ensures RowsOf(j, line) == Parsed(j, line)
  {
    assert Rows(j, [line]) == Parsed(j, line) + Rows(j, []);
  }

  /** Read after any history of whole and torn appends, torn anywhere and as often as may be. */
  lemma {:induction false} ReadRecovers<T(!new)>(j: Codec<T>, ws: seq<Write<T>>, pending: seq<Byte>)
    requires Faithful(j) && NEWLINE !in pending
    ensures RowsOf(j, pending + FileOf(j, ws)) == Recovered(j, ws, pending)
  {
    hide RowsOf;
    if ws == [] {
      assert pending + FileOf(j, ws) == pending;
      RowsOfLastLine(j, pending);
    } else {
      var w, rest := Written(j, ws[0]), FileOf(j, ws[1..]);
      match ws[0] {
        case Torn(row, kept) =>
          ReadRecovers(j, ws[1..], pending + w);
          assert pending + (w + rest) == pending + w + rest;
        case Whole(row) =>
          var line := pending + j.enc(row);
          ReadRecovers(j, ws[1..], []);
          assert [] + rest == rest;
          assert pending + (w + rest) == line + [NEWLINE] + rest;
          RowsOfLine(j, line, rest);
          assert pending == [] ==> line == j.enc(row);
      }
    }
  }

  // ------------------------------------------------------- what a tear can cost

  /** The rows written whole directly after another whole row, or first of all. */
  function CleanRows<T>(ws: seq<Write<T>>, clean: bool): seq<T> {
    if ws == [] then []
    else (if ws[0].Whole? && clean then [ws[0].row] else []) + CleanRows(ws[1..], ws[0].Whole?)
  }

  function Tears<T>(ws: seq<Write<T>>): nat {
    if ws == [] then 0 else (if ws[0].Torn? then 1 else 0) + Tears(ws[1..])
  }

  ghost predicate Subsequence<T(!new)>(s: seq<T>, t: seq<T>) {
    if s == [] then true
    else t != [] && ((s[0] == t[0] && Subsequence(s[1..], t[1..])) || Subsequence(s, t[1..]))
  }

  lemma SubsequenceAfter<T(!new)>(s: seq<T>, junk: seq<T>, t: seq<T>)
    requires Subsequence(s, t) && |junk| <= 1
    ensures Subsequence(s, junk + t)
  {
    if junk == [] {
      assert junk + t == t;
    } else {
      assert (junk + t)[1..] == t;
    }
  }

  /** Every clean row comes back, in order, with at most one junk row for each tear. */
  lemma {:induction false} TearsCostLittle<T(!new)>(j: Codec<T>, ws: seq<Write<T>>, pending: seq<Byte>, clean: bool)
    requires clean ==> pending == []
    ensures Subsequence(CleanRows(ws, clean), Recovered(j, ws, pending))
    ensures |Recovered(j, ws, pending)| <= |CleanRows(ws, clean)| + Tears(ws) + if clean then 0 else 1
  {
    if ws != [] {
      var rest := ws[1..];
      match ws[0] {
        case Torn(_, _) =>
          TearsCostLittle(j, rest, pending + Written(j, ws[0]), false);
          assert CleanRows(ws, clean) == CleanRows(rest, false);
        case Whole(row) =>
          TearsCostLittle(j, rest, [], true);
          var r := Recovered(j, rest, []);
          var clean', r' := CleanRows(rest, true), Recovered(j, ws, pending);
          if clean {
            assert r' == [row] + r && CleanRows(ws, clean) == [row] + clean';
            assert r'[1..] == r && ([row] + clean')[1..] == clean';
          } else {
            var junk := if pending == [] then [row] else Parsed(j, pending + j.enc(row));
            assert r' == junk + r && CleanRows(ws, clean) == clean';
            SubsequenceAfter(clean', junk, r);
          }
      }
    }
  }

  function AllWhole<T>(rows: seq<T>): (ws: seq<Write<T>>)
    ensures |ws| == |rows|
  {
    seq(|rows|, i requires 0 <= i < |rows| => Whole(rows[i]))
  }

  lemma {:induction false} WholeRowsComeBack<T(!new)>(j: Codec<T>, rows: seq<T>, ws: seq<Write<T>>)
    ensures Recovered(j, AllWhole(rows) + ws, []) == rows + Recovered(j, ws, [])
  {
    if rows == [] {
      assert AllWhole(rows) + ws == ws;
    } else {
      WholeRowsComeBack(j, rows[1..], ws);
      assert (AllWhole(rows) + ws)[1..] == AllWhole(rows[1..]) + ws;
      assert (AllWhole(rows) + ws)[0] == Whole(rows[0]);
      assert rows == [rows[0]] + rows[1..];
    }
  }

  lemma TornThenWhole<T(!new)>(j: Codec<T>, torn: T, kept: nat, after: seq<T>) returns (junk: seq<T>)
    requires after != []
    ensures |junk| <= 1 && (kept == 0 ==> junk == [after[0]])
    ensures Recovered(j, [Torn(torn, kept)] + AllWhole(after), []) == junk + after[1..]
  {
    var ws := [Torn(torn, kept)] + AllWhole(after);
    var pending := [] + Written(j, ws[0]);
    assert ws[1..] == AllWhole(after);
    assert AllWhole(after)[1..] == AllWhole(after[1..]) + [];
    WholeRowsComeBack(j, after[1..], []);
    junk := if pending == [] then [after[0]] else Parsed(j, pending + j.enc(after[0]));
  }

  /**
    One append torn at byte kept, then others: every row comes back except perhaps the torn one
    and the one after it, with at most one row in their place; torn before its first byte it
    costs nothing else.
  */
  lemma OneTear<T(!new)>(j: Codec<T>, before: seq<T>, torn: T, kept: nat, after: seq<T>) returns (junk: seq<T>)
    requires Faithful(j) && after != []
    ensures |junk| <= 1 && (kept == 0 ==> junk == [after[0]])
    ensures RowsOf(j, FileOf(j, AllWhole(before) + [Torn(torn, kept)] + AllWhole(after))) == before + junk + after[1..]
  {
    hide Recovered, RowsOf, FileOf, Faithful;
    var ws := [Torn(torn, kept)] + AllWhole(after);
    var file := FileOf(j, AllWhole(before) + ws);
    ReadRecovers(j, AllWhole(before) + ws, []);
    assert [] + file == file;
    WholeRowsComeBack(j, before, ws);
    junk := TornThenWhole(j, torn, kept, after);
    assert AllWhole(before) + [Torn(torn, kept)] + AllWhole(after) == AllWhole(before) + ws;
  }

  /** With nothing appended after the tear, every complete row is still there. */
  lemma LastTear<T(!new)>(j: Codec<T>, before: seq<T>, torn: T, kept: nat) returns (junk: seq<T>)
    requires Faithful(j)
    ensures |junk| <= 1 && (kept == 0 ==> junk == [])
    ensures kept >= |j.enc(torn)| ==> junk == [torn]
    ensures RowsOf(j, FileOf(j, AllWhole(before) + [Torn(torn, kept)])) == before + junk
  {
    hide Parsed, Written, Faithful, FileOf;
    var ws := [Torn(torn, kept)];
    var file := FileOf(j, AllWhole(before) + ws);
    ReadRecovers(j, AllWhole(before) + ws, []);
    assert [] + file == file;
    WholeRowsComeBack(j, before, ws);
    junk := Parsed(j, [] + Written(j, ws[0]));
    TornParses(j, torn, kept);
    assert Recovered(j, ws, []) == junk;
  }

  lemma TornParses<T(!new)>(j: Codec<T>, torn: T, kept: nat)
    requires Faithful(j)
    ensures kept == 0 ==> Parsed(j, [] + Written(j, Torn(torn, kept))) == []
    ensures kept >= |j.enc(torn)| ==> Parsed(j, [] + Written(j, Torn(torn, kept))) == [torn]
  {
    var line := [] + Written(j, Torn(torn, kept));
    assert kept >= |j.enc(torn)| ==> line == j.enc(torn);
  }

  // ------------------------------------------------------------------- the file

  /** Series: appends under one lock, reads of the whole file. */
  class Series<T(!new)> {
    const codec: Codec<T>
    var file: Option<seq<Byte>>
    ghost var history: seq<Write<T>>

    ghost predicate Valid()
      reads this
    {
      && Faithful(codec)
      && match file
         case None => history == []
         case Some(bytes) => bytes == FileOf(codec, history)
    }

    constructor (codec: Codec<T>)
      requires Faithful(codec)
      ensures Valid() && file == None && this.codec == codec
    {
      this.codec := codec;
      file := None;
      history := [];
    }

    /**
      Append.  MkdirAll or OpenFile may fail; opening creates the file; and only the first kept
      bytes of the row may reach it, none when the row cannot be encoded.
    */
    method Append(row: T, canOpen: bool, kept: nat) returns (ok: bool)
      requires Valid()
      modifies this
      ensures Valid() && ok == (canOpen && kept > |codec.enc(row)|)
      ensures !canOpen ==> file == old(file) && history == old(history)
      ensures canOpen ==> file.Some? && history == old(history) + [if ok then Whole(row) else Torn(row, kept)]
    {
      if !canOpen {
        return false;
      }
      var line := codec.enc(row) + [NEWLINE];
      ok := kept >= |line|;
      var bytes := if file.None? then [] else file.value;
      file := Some(bytes + if ok then line else line[..kept]);
      ghost var w := if ok then Whole(row) else Torn(row, kept);
      FileSnoc(codec, history, w);
      history := history + [w];
      assert !ok ==> line[..kept] == codec.enc(row)[..kept];
    }

    /** Read: None when the file is missing, else every row that parses. */
    method Read() returns (rows: Option<seq<T>>)
      requires Valid()
      ensures rows == if file.None? then None else Some(RowsOf(codec, file.value))
      ensures file.Some? ==> rows == Some(Recovered(codec, history, []))
    {
      if file.None? {
        return None;
      }
      var lines := SplitLines(file.value);
      var out := ParseLines(codec, lines);
      ReadRecovers(codec, history, []);
      assert [] + file.value == file.value;
      return Some(out);
    }
  }

  /** The loop of Read: empty lines and lines that do not parse are skipped. */
  method ParseLines<T>(j: Codec<T>, lines: seq<seq<Byte>>) returns (out: seq<T>)
    ensures out == Rows(j, lines)
  {
    hide Rows;
    out := [];
    assert lines[0..] == lines;
    for i := 0 to |lines|
      invariant Rows(j, lines) == out + Rows(j, lines[i..])
    {
      RowsFrom(j, lines, i);
      if |lines[i]| != 0 {
        var sl := j.dec(lines[i]);
        if sl.Some? {
          out := out + [sl.value];
        }
      }
    }
    RowsFrom(j, lines, |lines|);
  }

  lemma RowsFrom<T>(j: Codec<T>, lines: seq<seq<Byte>>, i: nat)
    requires i <= |lines|
    ensures Rows(j, lines[i..]) == if i == |lines| then [] else Parsed(j, lines[i]) + Rows(j, lines[i + 1..])
  {
    if i < |lines| {
      assert lines[i..][1..] == lines[i + 1..];
    }
  }

  lemma {:induction false} FileSnoc<T>(j: Codec<T>, ws: seq<Write<T>>, w: Write<T>)
    ensures FileOf(j, ws + [w]) == FileOf(j, ws) + Written(j, w)
  {
    if ws == [] {
      assert FileOf(j, [w]) == Written(j, w) + FileOf(j, []);
    } else {
      FileSnoc(j, ws[1..], w);
      assert (ws + [w])[1..] == ws[1..] + [w];
    }
  }
}
