/**
  The table of per-target time budgets, a tab-separated file with one writer and two independently
  written readers: Write and ReadBudgets in go/internal/corpus/autocap.go, LoadBudgets and For in
  go/internal/fuzz/budget.go.
*/
module Budgets {

  import opened Options
  import opened Splitting

  // ------------------------------------------------------------------- strconv

  /** Go's int. */
  type Int = x: int | -0x8000_0000_0000_0000 <= x < 0x8000_0000_0000_0000

  predicate IsDigit(c: char) {
    '0' <= c <= '9'
  }

  function DigitOf(n: nat): (c: char)
    requires n < 10
    ensures IsDigit(c) && c as int - '0' as int == n
  {
    ('0' as int + n) as char
  }

  predicate AllDigits(s: string) {
    s != "" && forall c :: c in s ==> IsDigit(c)
  }

  function Decimal(n: nat): (s: string)
    ensures AllDigits(s)
  {
    if n < 10 then [DigitOf(n)] else Decimal(n / 10) + [DigitOf(n % 10)]
  }

  /** The %d verb. */
  function Itoa(v: int): string {
    if v < 0 then "-" + Decimal(-v) else Decimal(v)
  }

  function ValueOf(s: string): nat
    requires forall c :: c in s ==> IsDigit(c)
  {
    if s == "" then 0
    else
      var c := s[|s| - 1];
      assert IsDigit(c);
      10 * ValueOf(s[..|s| - 1]) + (c as int - '0' as int)
  }

  /** strconv.Atoi: an optional sign, at least one digit, nothing else, and in range. */
  function Atoi(s: string): Option<Int> {
    var digits := if s != "" && (s[0] == '-' || s[0] == '+') then s[1..] else s;
    if !AllDigits(digits) then None
    else
      var n: int := ValueOf(digits);
      var v := if s[0] == '-' then -n else n;
      if -0x8000_0000_0000_0000 <= v < 0x8000_0000_0000_0000 then Some(v) else None
  }

  lemma {:induction false} ValueOfDecimal(n: nat)
    ensures ValueOf(Decimal(n)) == n
  {
    if n >= 10 {
      ValueOfDecimal(n / 10);
      assert Decimal(n)[..|Decimal(n)| - 1] == Decimal(n / 10);
    }
  }

  /** Reading back what was printed. */
  lemma AtoiItoa(v: Int)
    ensures Atoi(Itoa(v)) == Some(v)
  {
    var n: int := v;
    if n < 0 {
      ValueOfDecimal(-n);
      assert Itoa(n)[1..] == Decimal(-n);
    } else {
      ValueOfDecimal(n);
      assert Decimal(n)[0] in Decimal(n);
    }
  }

  lemma SignsAndDigits(d: string)
    requires AllDigits(d)
    ensures Atoi(d) == Atoi("+" + d) == if ValueOf(d) < 0x8000_0000_0000_0000 then Some(ValueOf(d)) else None
    ensures Atoi("-" + d) == if ValueOf(d) <= 0x8000_0000_0000_0000 then Some(-(ValueOf(d) as int)) else None
  {
    assert d[0] in d && ("+" + d)[1..] == d && ("-" + d)[1..] == d;
  }

  /** Nothing but digits after an optional sign is a number; SignsAndDigits says which. */
  lemma NumbersAre(s: string)
    requires Atoi(s).Some?
    ensures exists d :: AllDigits(d) && (s == d || s == "+" + d || s == "-" + d)
  {
    if s[0] == '-' || s[0] == '+' {
      assert s == [s[0]] + s[1..];
    }
  }

  /** In front of digits a zero counts nothing, any other digit its place. */
  lemma {:induction false} LeadingDigit(c: char, d: string)
    requires IsDigit(c) && forall x :: x in d ==> IsDigit(x)
    ensures ValueOf([c] + d) == (c as int - '0' as int) * Power10(|d|) + ValueOf(d)
  {
    if d == "" {
      assert [c] + d == [c] && [c][..0] == "";
    } else {
      var n := |d| - 1;
      assert ([c] + d)[..n + 1] == [c] + d[..n] && ([c] + d)[n + 1] == d[n];
      LeadingDigit(c, d[..n]);
      TenTimes(c as int - '0' as int, Power10(n));
    }
  }

  lemma TenTimes(x: int, p: nat)
    ensures 10 * (x * p) == x * (10 * p)
  {
  }

  function Power10(n: nat): nat {
    if n == 0 then 1 else 10 * Power10(n - 1)
  }

  // ------------------------------------------------------------------- strings

  /** unicode.IsSpace. */
  predicate IsSpace(c: char) {
    || '\t' <= c <= '\r'
    || c in {' ', '\U{85}', '\U{A0}', '\U{1680}', '\U{2028}', '\U{2029}', '\U{202F}', '\U{205F}', '\U{3000}'}
    || '\U{2000}' <= c <= '\U{200A}'
  }

  predicate Trimmed(s: string) {
    s == "" || (!IsSpace(s[0]) && !IsSpace(s[|s| - 1]))
  }

  /** strings.TrimSpace. */
  function Trim(s: string): (r: string)
    ensures Trimmed(r)
    ensures Trimmed(s) ==> r == s
    ensures forall c :: c in r ==> c in s
    ensures forall c :: c in s && !IsSpace(c) ==> c in r
    ensures s != "" && !IsSpace(s[0]) ==> r != "" && r[0] == s[0]
  {
    if s == "" then ""
    else if IsSpace(s[0]) then Trim(s[1..])
    else if IsSpace(s[|s| - 1]) then Trim(s[..|s| - 1])
    else s
  }

  /** Bytes of a character in UTF-8. */
  function Width(c: char): nat {
    if c < '\U{80}' then 1 else if c < '\U{800}' then 2 else if c < '\U{10000}' then 3 else 4
  }

  function ByteLen(s: string): nat {
    if s == "" then 0 else Width(s[0]) + ByteLen(s[1..])
  }

  lemma {:induction false} ByteLenAtMost(s: string)
    ensures ByteLen(s) <= 4 * |s|
  {
    if s != "" {
      ByteLenAtMost(s[1..]);
    }
  }

  lemma {:induction false} PlainTextIsAsLong(s: string)
    requires forall c :: c in s ==> c < '\U{80}'
    ensures ByteLen(s) == |s|
  {
    if s != "" {
      assert s[0] in s && forall c :: c in s[1..] ==> c in s;
      PlainTextIsAsLong(s[1..]);
    }
  }

  // ------------------------------------------------------------------- the table

  /** A workspace and a target. */
  type Key = (string, string)

  type Table = map<Key, Int>

  datatype Row = Row(key: Key, secs: Int)

  /** The rows of a list of lines; a later row for the same key wins. */
  function Collect(row: string -> Option<Row>, lines: seq<string>): Table {
    if lines == [] then map[]
    else
      var rest := Collect(row, lines[1..]);
      match row(lines[0])
      case None => rest
      case Some(r) => map[r.key := r.secs] + rest
  }

  /** Of all rows for a key the last one counts, and without one there is no entry. */
  lemma LastRowCounts(row: string -> Option<Row>, lines: seq<string>, k: Key)
    ensures k in Collect(row, lines) <==> exists i :: 0 <= i < |lines| && RowFor(row, lines[i], k)
    ensures
      forall i :: 0 <= i < |lines| && LastFor(row, lines, i, k) ==>
        Collect(row, lines)[k] == row(lines[i]).value.secs
  {
    EntriesHaveRows(row, lines, k);
    forall i | 0 <= i < |lines| && LastFor(row, lines, i, k)
      ensures k in Collect(row, lines) && Collect(row, lines)[k] == row(lines[i]).value.secs
    {
      LastRowWins(row, lines, i, k);
    }
  }

  lemma {:induction false} EntriesHaveRows(row: string -> Option<Row>, lines: seq<string>, k: Key)
    ensures k in Collect(row, lines) <==> exists i :: 0 <= i < |lines| && RowFor(row, lines[i], k)
  {
    if lines != [] {
      var rest := lines[1..];
      EntriesHaveRows(row, rest, k);
      if i :| 0 <= i < |rest| && RowFor(row, rest[i], k) {
        assert RowFor(row, lines[i + 1], k);
      }
    }
  }

  lemma {:induction false} LastRowWins(row: string -> Option<Row>, lines: seq<string>, i: nat, k: Key)
    requires i < |lines| && LastFor(row, lines, i, k)
    ensures k in Collect(row, lines) && Collect(row, lines)[k] == row(lines[i]).value.secs
  {
    var rest := lines[1..];
    if i > 0 {
      forall j | i - 1 < j < |rest|
        ensures !RowFor(row, rest[j], k)
      {
        assert rest[j] == lines[j + 1];
      }
      LastRowWins(row, rest, i - 1, k);
    } else {
      EntriesHaveRows(row, rest, k);
    }
  }

  ghost predicate LastFor(row: string -> Option<Row>, lines: seq<string>, i: nat, k: Key)
    requires i < |lines|
  {
    RowFor(row, lines[i], k) && forall j :: i < j < |lines| ==> !RowFor(row, lines[j], k)
  }

  predicate RowFor(row: string -> Option<Row>, line: string, k: Key) {
    row(line).Some? && row(line).value.key == k
  }

  /** The first line of the file, in pieces that a proof can look into one at a time. */
  const HEADER: string :=
    "# workspace\t" + "target\t" + "seconds -- maintained by " + "`pgfuzz corpus " + "-autocap -tune-budget`"

  function LineOf(k: Key, v: Int): string {
    k.0 + "\t" + k.1 + "\t" + Itoa(v)
  }

  function Body(b: Table, keys: seq<Key>): string
    requires forall k :: k in keys ==> k in b
  {
    if keys == [] then "" else LineOf(keys[0], b[keys[0]]) + "\n" + Body(b, keys[1..])
  }

  /** The file Write leaves, for the order it sorted the keys into. */
  function Rendered(b: Table, keys: seq<Key>): string
    requires forall k :: k in keys ==> k in b
  {
    HEADER + "\n" + Body(b, keys)
  }

  ghost predicate Lists(b: Table, keys: seq<Key>) {
    (forall k :: k in keys <==> k in b) && (forall i, j :: 0 <= i < j < |keys| ==> keys[i] != keys[j])
  }

  method Write(b: Table, keys: seq<Key>) returns (text: string)
    requires Lists(b, keys)
    ensures text == Rendered(b, keys)
  {
    hide HEADER, LineOf;
    text := HEADER + "\n";
    assert keys[0..] == keys;
    for i := 0 to |keys|
      invariant Rendered(b, keys) == text + Body(b, keys[i..])
    {
      assert keys[i..][1..] == keys[i + 1..];
      text := text + LineOf(keys[i], b[keys[i]]) + "\n";
    }
  }

  /** The table file and the temporary one beside it. */
  class TableFile {
    var table: Option<string>
    var temp: Option<string>

    constructor (table: Option<string>)
      ensures this.table == table && temp == None
    {
      this.table, this.temp := table, None;
    }

    /**
      Write, of which only the first kept characters may reach the temporary file, and whose rename
      may fail: the table is replaced as a whole or not at all.
    */
    method Save(b: Table, keys: seq<Key>, kept: nat, moves: bool) returns (ok: bool)
      requires Lists(b, keys)
      modifies this
      ensures ok == (kept >= |Rendered(b, keys)| && moves)
      ensures table == if ok then Some(Rendered(b, keys)) else old(table)
    {
      var text := Write(b, keys);
      temp := Some(if kept < |text| then text[..kept] else text);
      if kept < |text| || !moves {
        return false;
      }
      table, temp := temp, None;
      ok := true;
    }
  }

  // ------------------------------------------------------------------- the first reader

  /** A line as ReadBudgets sees it. */
  function ReadRow(line: string): Option<Row> {
    if "#" <= line || Trim(line) == "" then None
    else
      var f := Split(line, '\t');
      if |f| != 3 then None
      else
        match Atoi(f[2])
        case None => None
        case Some(v) => Some(Row((f[0], f[1]), v))
  }

  function Read(text: string): Table {
    Collect(ReadRow, Split(text, '\n'))
  }

  method ReadBudgets(file: Option<string>) returns (out: Table)
    ensures out == if file.None? then map[] else Read(file.value)
  {
    hide ReadRow;
    out := map[];
    if file.None? {
      return;
    }
    var lines := Split(file.value, '\n');
    for i := 0 to |lines|
      invariant Collect(ReadRow, lines) == out + Collect(ReadRow, lines[i..])
    {
      CollectFrom(ReadRow, lines, i);
      var r := ReadRow(lines[i]);
      if r.Some? {
        out := out[r.value.key := r.value.secs];
      }
    }
    assert lines[|lines|..] == [];
  }

  lemma CollectFrom(row: string -> Option<Row>, lines: seq<string>, i: nat)
    requires i < |lines|
    ensures
      var rest := Collect(row, lines[i + 1..]);
      Collect(row, lines[i..]) ==
      if row(lines[i]).None? then rest else map[row(lines[i]).value.key := row(lines[i]).value.secs] + rest
  {
    assert lines[i..][1..] == lines[i + 1..];
  }

  /** Names the first reader brings back: no tab, no newline, and no comment mark in front. */
  predicate Plain(k: Key) {
    '\t' !in k.0 && '\t' !in k.1 && '\n' !in k.0 && '\n' !in k.1 && !("#" <= k.0)
  }

  /** The part of a table these keys name. */
  function Restrict(b: Table, keys: seq<Key>): Table
    requires forall k :: k in keys ==> k in b
  {
    map k | k in keys :: b[k]
  }

  lemma ItoaIsPlain(v: Int)
    ensures Itoa(v) != "" && forall c :: c in Itoa(v) ==> IsDigit(c) || c == '-'
    ensures Trimmed(Itoa(v)) && IsDigit(Itoa(v)[|Itoa(v)| - 1])
  {
    var n: int := v;
    var d := Decimal(if n < 0 then -n else n);
    assert d[|d| - 1] in d && d[0] in d;
    if n < 0 {
      assert Itoa(n)[|d|] == d[|d| - 1];
    }
  }

  lemma FieldsOfLine(k: Key, v: Int)
    requires Plain(k)
    ensures Split(LineOf(k, v), '\t') == [k.0, k.1, Itoa(v)]
    ensures '\n' !in LineOf(k, v)
  {
    hide Split, Itoa;
    ItoaIsPlain(v);
    SplitAt(k.0, '\t', k.1 + "\t" + Itoa(v));
    SplitAt(k.1, '\t', Itoa(v));
    SplitOne(Itoa(v), '\t');
    assert LineOf(k, v) == k.0 + "\t" + (k.1 + "\t" + Itoa(v));
  }

  lemma LastOfLine(k: Key, v: Int)
    ensures LineOf(k, v) != "" && IsDigit(LineOf(k, v)[|LineOf(k, v)| - 1])
  {
    ItoaIsPlain(v);
  }

  lemma ReadRowOfLine(k: Key, v: Int)
    requires Plain(k)
    ensures ReadRow(LineOf(k, v)) == Some(Row(k, v))
  {
    hide Itoa, Split, Atoi, Trim;
    var line := LineOf(k, v);
    FieldsOfLine(k, v);
    LastOfLine(k, v);
    AtoiItoa(v);
    assert line[0] == if k.0 == "" then '\t' else k.0[0];
    assert line[|line| - 1] in line;
  }

  lemma {:induction false} ReadBody(b: Table, keys: seq<Key>)
    requires forall k :: k in keys ==> k in b && Plain(k)
    ensures Collect(ReadRow, Split(Body(b, keys), '\n')) == Restrict(b, keys)
  {
    hide Split, LineOf, ReadRow, Plain;
    if keys == [] {
      SplitOne("", '\n');
      BlankRow();
      assert Split(Body(b, keys), '\n') == [""];
    } else {
      var k := keys[0];
      FieldsOfLine(k, b[k]);
      ReadRowOfLine(k, b[k]);
      SplitAt(LineOf(k, b[k]), '\n', Body(b, keys[1..]));
      ReadBody(b, keys[1..]);
      assert Split(Body(b, keys), '\n')[1..] == Split(Body(b, keys[1..]), '\n');
    }
  }

  lemma BlankRow()
    ensures ReadRow("") == None && LoadRow("") == None
  {
  }

  lemma HeaderText()
    ensures HEADER != "" && HEADER[0] == '#' && HEADER[|HEADER| - 1] == '`' && |HEADER| < 100 && '\n' !in HEADER
  {
    assert "# workspace\t"[0] == '#' && '\n' !in "# workspace\t" && '\n' !in "target\t";
    assert '\n' !in "seconds -- maintained by " && '\n' !in "`pgfuzz corpus ";
    assert '\n' !in "-autocap -tune-budget`";
  }

  lemma HeaderLine(rest: string)
    ensures Split(HEADER + "\n" + rest, '\n') == [HEADER] + Split(rest, '\n')
    ensures ReadRow(HEADER) == None && LoadRow(HEADER) == None
    ensures ByteLen(HEADER) <= MAX_LINE && DropCR(HEADER) == HEADER
  {
    hide Split, Trim, HEADER, ByteLen;
    HeaderText();
    SplitAt(HEADER, '\n', rest);
    ByteLenAtMost(HEADER);
  }

  lemma ReadWritten(b: Table, keys: seq<Key>)
    requires forall k :: k in keys ==> k in b && Plain(k)
    ensures Read(Rendered(b, keys)) == Restrict(b, keys)
  {
    hide ReadRow, Split, Plain, Body, HEADER;
    var rest := Split(Body(b, keys), '\n');
    HeaderLine(Body(b, keys));
    ReadBody(b, keys);
    assert ([HEADER] + rest)[1..] == rest;
  }

  /** The first reader takes exactly three fields, the last a number, in a line that is no comment. */
  lemma ReadRowExactlyWhen(line: string, k: Key, v: Int)
    ensures
      ReadRow(line) == Some(Row(k, v)) <==>
      !("#" <= line) && '\t' !in k.0 && '\t' !in k.1 &&
      exists s :: '\t' !in s && line == k.0 + "\t" + k.1 + "\t" + s && Atoi(s) == Some(v)
  {
    hide Split, Atoi, Trim;
    if ReadRow(line) == Some(Row(k, v)) {
      var f := Split(line, '\t');
      FieldsAreClean(line, '\t');
      JoinSplit(line, '\t');
      ThreeJoined(f, '\t');
      assert f[0] in f && f[1] in f && f[2] in f;
      assert line == k.0 + "\t" + k.1 + "\t" + f[2];
    }
    if s :| '\t' !in k.0 && '\t' !in k.1 && '\t' !in s && line == k.0 + "\t" + k.1 + "\t" + s && Atoi(s) == Some(v) {
      ThreeFields(k, s);
      NumberIsNotBlank(s);
      assert s[0] in line;
    }
  }

  lemma ThreeFields(k: Key, s: string)
    requires '\t' !in k.0 && '\t' !in k.1 && '\t' !in s
    ensures Split(k.0 + "\t" + k.1 + "\t" + s, '\t') == [k.0, k.1, s]
  {
    hide Split;
    SplitAt(k.0, '\t', k.1 + "\t" + s);
    SplitAt(k.1, '\t', s);
    SplitOne(s, '\t');
    assert k.0 + "\t" + k.1 + "\t" + s == k.0 + "\t" + (k.1 + "\t" + s);
  }

  lemma ThreeJoined(f: seq<string>, sep: char)
    requires |f| == 3
    ensures Join(f, sep) == f[0] + [sep] + f[1] + [sep] + f[2]
  {
    var g := f[1..];
    assert g[1..] == [f[2]] && Join(g[1..], sep) == f[2];
    assert Join(g, sep) == f[1] + [sep] + f[2];
    assert f[0] + [sep] + (f[1] + [sep] + f[2]) == f[0] + [sep] + f[1] + [sep] + f[2];
  }

  lemma NumberIsNotBlank(s: string)
    requires Atoi(s).Some?
    ensures s != "" && !IsSpace(s[0])
  {
    NumbersAre(s);
    var d :| AllDigits(d) && (s == d || s == "+" + d || s == "-" + d);
    assert d[0] in d;
  }

  // ----------------------------------------------- what the first reader brings back

  /** Whatever every row keeps, every entry of the result keeps. */
  lemma {:induction false} CollectAll(row: string -> Option<Row>, lines: seq<string>, ok: Row -> bool)
    requires forall l :: l in lines && row(l).Some? ==> ok(row(l).value)
    ensures forall k :: k in Collect(row, lines) ==> ok(Row(k, Collect(row, lines)[k]))
  {
    if lines != [] {
      CollectAll(row, lines[1..], ok);
      assert lines[0] in lines;
    }
  }

  lemma FirstField(s: string, sep: char)
    ensures Split(s, sep)[0] <= s
    ensures Split(s, sep)[0] == "" && s != "" ==> s[0] == sep
  {
  }

  lemma ReadRowIsPlain(line: string)
    requires '\n' !in line && ReadRow(line).Some?
    ensures Plain(ReadRow(line).value.key)
  {
    hide Split, Atoi, Trim;
    FieldsAreClean(line, '\t');
    FirstField(line, '\t');
    var f := Split(line, '\t');
    assert f[0] in f && f[1] in f;
  }

  lemma ReadIsPlain(text: string)
    ensures forall k :: k in Read(text) ==> Plain(k)
  {
    hide ReadRow, Split, Plain;
    var lines := Split(text, '\n');
    var ok := (r: Row) => Plain(r.key);
    FieldsAreClean(text, '\n');
    forall l | l in lines && ReadRow(l).Some?
      ensures ok(ReadRow(l).value)
    {
      ReadRowIsPlain(l);
    }
    CollectAll(ReadRow, lines, ok);
    forall k | k in Read(text)
      ensures Plain(k)
    {
      assert ok(Row(k, Read(text)[k]));
    }
  }

  /** The first reader brings the table back exactly when every name is plain. */
  lemma ReadsBackExactlyWhen(b: Table, keys: seq<Key>)
    requires Lists(b, keys)
    ensures Read(Rendered(b, keys)) == b <==> forall k :: k in b ==> Plain(k)
  {
    hide Read, Plain, Rendered;
    ReadIsPlain(Rendered(b, keys));
    if forall k :: k in b ==> Plain(k) {
      ReadWritten(b, keys);
      assert Restrict(b, keys) == b;
    }
  }

  // ------------------------------------------------------------------- the second reader

  /** The longest line a bufio.Scanner takes; it stops for good at a longer one. */
  const MAX_LINE: nat := 65535

  function DropCR(line: string): string {
    if line != "" && line[|line| - 1] == '\r' then line[..|line| - 1] else line
  }

  /** The lines a bufio.Scanner delivers: none for an empty piece after the last newline. */
  function Scanned(lines: seq<string>): seq<string> {
    if lines == [] || lines == [""] || ByteLen(lines[0]) > MAX_LINE then []
    else [DropCR(lines[0])] + Scanned(lines[1..])
  }

  /** A line as LoadBudgets sees it. */
  function LoadRow(text: string): Option<Row> {
    var line := Trim(text);
    if line == "" || "#" <= line then None
    else
      var f := Split(line, '\t');
      if |f| < 3 then None
      else
        match Atoi(Trim(f[2]))
        case None => None
        case Some(secs) => if secs <= 0 then None else Some(Row((Trim(f[0]), Trim(f[1])), secs))
  }

  function Load(text: string): Table {
    Collect(LoadRow, Scanned(Split(text, '\n')))
  }

  /** The table as LoadBudgets keeps it: workspace, then target. */
  type Nested = map<string, map<string, Int>>

  function Lookup(b: Nested, k: Key): Option<Int> {
    if k.0 in b && k.1 in b[k.0] then Some(b[k.0][k.1]) else None
  }

  ghost predicate Holds(b: Nested, t: Table) {
    forall k: Key :: Lookup(b, k) == if k in t then Some(t[k]) else None
  }

  /** The line, its outer spaces off, is these fields, at least three, joined by tabs. */
  ghost predicate LineIs(text: string, f: seq<string>) {
    |f| >= 3 && (forall x :: x in f ==> '\t' !in x) && Trim(text) == Join(f, '\t')
  }

  /** The second reader takes three fields or more, each with its spaces off, and a positive number. */
  lemma LoadRowExactlyWhen(text: string, k: Key, v: Int)
    ensures
      LoadRow(text) == Some(Row(k, v)) <==>
      !("#" <= Trim(text)) && v > 0 &&
      exists f :: LineIs(text, f) && k == (Trim(f[0]), Trim(f[1])) && Atoi(Trim(f[2])) == Some(v)
  {
    hide LoadRow, Trim, Atoi, Join, Split;
    if f :| LineIs(text, f) && k == (Trim(f[0]), Trim(f[1])) && Atoi(Trim(f[2])) == Some(v) {
      FieldsOfLoaded(text, f);
    }
    if LoadRow(text).Some? {
      LoadedFields(text);
      FieldsOfLoaded(text, Split(Trim(text), '\t'));
    }
  }

  lemma FieldsOfLoaded(text: string, f: seq<string>)
    requires LineIs(text, f)
    ensures
      LoadRow(text) ==
      if "#" <= Trim(text) || Atoi(Trim(f[2])).None? || Atoi(Trim(f[2])).value <= 0 then None
      else Some(Row((Trim(f[0]), Trim(f[1])), Atoi(Trim(f[2])).value))
  {
    hide Split, Atoi, Trim, Join;
    SplitJoin(f, '\t');
    TabInside(f);
  }

  lemma LoadedFields(text: string)
    requires LoadRow(text).Some?
    ensures LineIs(text, Split(Trim(text), '\t'))
    ensures !("#" <= Trim(text))
  {
    hide Split, Atoi, Trim, Join;
    FieldsAreClean(Trim(text), '\t');
    JoinSplit(Trim(text), '\t');
  }

  lemma TabInside(f: seq<string>)
    requires |f| >= 2
    ensures Join(f, '\t') != ""
  {
  }

  method LoadBudgets(file: Option<string>) returns (b: Nested)
    ensures Holds(b, if file.None? then map[] else Load(file.value))
  {
    hide LoadRow, ByteLen, Split, Collect, Scanned, Holds, Store;
    b := map[];
    NothingHeld();
    if file.None? {
      return;
    }
    var lines := Split(file.value, '\n');
    ghost var t: Table := map[];
    var i := 0;
    assert lines[0..] == lines;
    while i < |lines| && lines[i..] != [""] && ByteLen(lines[i]) <= MAX_LINE
      invariant i <= |lines| && Holds(b, t)
      invariant Collect(LoadRow, Scanned(lines)) == t + Collect(LoadRow, Scanned(lines[i..]))
    {
      ScannedFrom(lines, i);
      var r := LoadRow(DropCR(lines[i]));
      if r.Some? {
        StoredIsHeld(b, t, r.value);
        b := Store(b, r.value);
        t := t[r.value.key := r.value.secs];
      }
      i := i + 1;
    }
    ScannedEnds(lines, i);
    assert t + map[] == t;
  }

  function Store(b: Nested, r: Row): Nested {
    var (ws, target) := r.key;
    var per: map<string, Int> := if ws in b then b[ws] else map[];
    b[ws := per[target := r.secs]]
  }

  lemma NothingHeld()
    ensures Holds(map[], map[])
  {
  }

  lemma StoredIsHeld(b: Nested, t: Table, r: Row)
    requires Holds(b, t)
    ensures Holds(Store(b, r), t[r.key := r.secs])
  {
    forall k: Key
      ensures Lookup(Store(b, r), k) == if k in t[r.key := r.secs] then Some(t[r.key := r.secs][k]) else None
    {
      assert Lookup(b, k) == if k in t then Some(t[k]) else None;
      assert k == r.key <==> k.0 == r.key.0 && k.1 == r.key.1;
    }
  }

  lemma ScannedEnds(lines: seq<string>, i: nat)
    requires i <= |lines|
    requires i == |lines| || lines[i..] == [""] || ByteLen(lines[i]) > MAX_LINE
    ensures Collect(LoadRow, Scanned(lines[i..])) == map[]
  {
    hide ByteLen;
  }

  lemma ScannedFrom(lines: seq<string>, i: nat)
    requires i < |lines| && lines[i..] != [""] && ByteLen(lines[i]) <= MAX_LINE
    ensures
      var rest, row := Collect(LoadRow, Scanned(lines[i + 1..])), LoadRow(DropCR(lines[i]));
      Collect(LoadRow, Scanned(lines[i..])) == if row.None? then rest else map[row.value.key := row.value.secs] + rest
  {
    hide LoadRow, DropCR, ByteLen;
    assert lines[i..][1..] == lines[i + 1..];
    assert Scanned(lines[i..])[1..] == Scanned(lines[i + 1..]);
  }

  const SLOW_DEFAULTS: map<string, Int> := map["spi_query_fuzzer" := 150, "simple_query_fuzzer" := 200]

  function For(b: Nested, ws: string, target: string, def: Int): Int {
    if ws in b && target in b[ws] then b[ws][target]
    else if target in SLOW_DEFAULTS then SLOW_DEFAULTS[target]
    else def
  }

  /** Entries the second reader brings back. */
  predicate Sound(k: Key, v: Int) {
    Plain(k) && k.0 != "" && Trimmed(k.0) && Trimmed(k.1) && v > 0
  }

  /** The keys before the first one whose line is too long. */
  function Fitting(b: Table, keys: seq<Key>): seq<Key>
    requires forall k :: k in keys ==> k in b
    ensures forall k :: k in Fitting(b, keys) ==> k in keys
  {
    if keys == [] || ByteLen(LineOf(keys[0], b[keys[0]])) > MAX_LINE then []
    else [keys[0]] + Fitting(b, keys[1..])
  }

  lemma LoadRowOfLine(k: Key, v: Int)
    requires Sound(k, v)
    ensures DropCR(LineOf(k, v)) == LineOf(k, v) && LoadRow(LineOf(k, v)) == Some(Row(k, v))
  {
    hide Itoa, Split, Atoi, Trim;
    var line := LineOf(k, v);
    FieldsOfLine(k, v);
    LastOfLine(k, v);
    ItoaIsPlain(v);
    AtoiItoa(v);
    assert line[0] == k.0[0];
  }

  lemma {:induction false} LoadBody(b: Table, keys: seq<Key>)
    requires forall k :: k in keys ==> k in b && Sound(k, b[k])
    ensures Collect(LoadRow, Scanned(Split(Body(b, keys), '\n'))) == Restrict(b, Fitting(b, keys))
  {
    hide Split, LineOf, LoadRow, DropCR, ByteLen;
    if keys == [] {
      SplitOne("", '\n');
      assert Split(Body(b, keys), '\n') == [""];
    } else {
      var k := keys[0];
      var line, rest := LineOf(k, b[k]), Split(Body(b, keys[1..]), '\n');
      FieldsOfLine(k, b[k]);
      LoadRowOfLine(k, b[k]);
      SplitAt(line, '\n', Body(b, keys[1..]));
      assert Split(Body(b, keys), '\n')[1..] == rest;
      if ByteLen(line) <= MAX_LINE {
        LoadBody(b, keys[1..]);
        assert Scanned([line] + rest)[1..] == Scanned(rest);
      }
    }
  }

  /** A line that is too long loses its own entry and every one after it, and nothing else. */
  lemma LongLineEndsTheTable(b: Table, keys: seq<Key>)
    requires Lists(b, keys) && forall k :: k in b ==> Sound(k, b[k])
    ensures Load(Rendered(b, keys)) == Restrict(b, Fitting(b, keys))
  {
    hide LoadRow, Split, Sound, Body, ByteLen, DropCR, HEADER;
    var rest := Split(Body(b, keys), '\n');
    HeaderLine(Body(b, keys));
    LoadBody(b, keys);
    assert ([HEADER] + rest)[1..] == rest;
    assert Scanned([HEADER] + rest)[1..] == Scanned(rest);
  }

  lemma LoadRowIsSound(text: string)
    requires '\n' !in text && LoadRow(text).Some?
    ensures Sound(LoadRow(text).value.key, LoadRow(text).value.secs)
  {
    hide Split, Atoi, Trim;
    var line := Trim(text);
    FieldsAreClean(line, '\t');
    FirstField(line, '\t');
    var f := Split(line, '\t');
    assert f[0] in f && f[1] in f;
  }

  lemma {:induction false} ScannedIsClean(lines: seq<string>)
    requires forall l :: l in lines ==> '\n' !in l
    ensures forall l :: l in Scanned(lines) ==> '\n' !in l
  {
    hide ByteLen;
    if Scanned(lines) != [] {
      ScannedIsClean(lines[1..]);
      assert lines[0] in lines;
    }
  }

  lemma LoadIsSound(text: string)
    ensures forall k :: k in Load(text) ==> Sound(k, Load(text)[k])
  {
    hide LoadRow, Split, Sound, Scanned;
    var lines := Scanned(Split(text, '\n'));
    var ok := (r: Row) => Sound(r.key, r.secs);
    FieldsAreClean(text, '\n');
    ScannedIsClean(Split(text, '\n'));
    forall l | l in lines && LoadRow(l).Some?
      ensures ok(LoadRow(l).value)
    {
      LoadRowIsSound(l);
    }
    CollectAll(LoadRow, lines, ok);
    forall k | k in Load(text)
      ensures Sound(k, Load(text)[k])
    {
      assert ok(Row(k, Load(text)[k]));
    }
  }

  lemma {:induction false} FittingAll(b: Table, keys: seq<Key>)
    requires forall k :: k in keys ==> k in b
    requires forall i, j :: 0 <= i < j < |keys| ==> keys[i] != keys[j]
    ensures
      (forall k :: k in keys ==> k in Fitting(b, keys)) <==>
      (forall k :: k in keys ==> ByteLen(LineOf(k, b[k])) <= MAX_LINE)
  {
    hide ByteLen, LineOf;
    if keys != [] {
      FittingAll(b, keys[1..]);
      assert keys[0] !in keys[1..];
      assert forall k :: k in keys <==> k == keys[0] || k in keys[1..];
    }
  }

  /**
    The second reader brings the table back exactly when every entry is sound and every line fits
    the scanner.
  */
  lemma LoadsBackExactlyWhen(b: Table, keys: seq<Key>)
    requires Lists(b, keys)
    ensures
      Load(Rendered(b, keys)) == b <==>
      forall k :: k in b ==> Sound(k, b[k]) && ByteLen(LineOf(k, b[k])) <= MAX_LINE
  {
    hide Load, LineOf, ByteLen, Sound, Rendered, Fitting;
    LoadIsSound(Rendered(b, keys));
    FittingAll(b, keys);
    if forall k :: k in b ==> Sound(k, b[k]) {
      LongLineEndsTheTable(b, keys);
    }
  }

  /** A tuned budget is the one the sweep uses; without one, the slow default, then the caller's. */
  lemma TunedBudgetIsServed(b: Table, keys: seq<Key>, loaded: Nested, ws: string, target: string, def: Int)
    requires Lists(b, keys) && Holds(loaded, Load(Rendered(b, keys)))
    requires forall k :: k in b ==> Sound(k, b[k]) && ByteLen(LineOf(k, b[k])) <= MAX_LINE
    ensures
      For(loaded, ws, target, def) ==
      if (ws, target) in b then b[(ws, target)]
      else if target == "spi_query_fuzzer" then 150
      else if target == "simple_query_fuzzer" then 200
      else def
    ensures Read(Rendered(b, keys)) == Load(Rendered(b, keys)) == b
  {
    hide Load, Read, LineOf, ByteLen, Rendered;
    LoadsBackExactlyWhen(b, keys);
    ReadsBackExactlyWhen(b, keys);
    assert Lookup(loaded, (ws, target)) == if (ws, target) in b then Some(b[(ws, target)]) else None;
  }
}
