/**
  How project/fuzzer/extension_funcs_fuzzer.c cuts its input into function arguments: a loop that
  looks for the next separator with strchr and overwrites it with NUL, in the buffer that holds
  the input and a terminating NUL.
*/
module ArgSplit {

  import opened Bytes
  import opened Splitting

  const NUL: Byte := 0
  const ARG_SEP: Byte := 31

  /** The C string that starts a stretch of memory. */
  function CString(s: seq<Byte>): (r: seq<Byte>)
    ensures |r| <= |s| && r == s[..|r|] && NUL !in r
    ensures |r| < |s| ==> s[|r|] == NUL
  {
    if s == [] || s[0] == NUL then []
    else
      var r := CString(s[1..]);
      [s[0]] + r
  }

  /** The fields between separators. */
  function Fields(s: seq<Byte>): (fs: seq<seq<Byte>>)
    ensures |fs| > 0
  {
    Split(s, ARG_SEP)
  }

  /** Field k of a text, or nothing when it has fewer. */
  function FieldOf(text: seq<Byte>, k: nat): seq<Byte> {
    var fs := Fields(text);
    if k < |fs| then fs[k] else []
  }

  /** The text argument j is read from: field j of the input up to its first NUL, or nothing. */
  function ArgText(data: seq<Byte>, j: nat): seq<Byte> {
    FieldOf(CString(data), j)
  }

  // ------------------------------------------------------------------------ the code

  /** What an argument becomes: SQL NULL, or what its type's input function makes of a text. */
  datatype Arg = Null | Text(s: seq<Byte>)

  predicate Bit(nullmap: nat, j: nat) {
    if j == 0 then nullmap % 2 == 1 else Bit(nullmap / 2, j - 1)
  }

  function ArgOf(data: seq<Byte>, isstrict: bool, nullmap: nat, j: nat): Arg {
    if !isstrict && Bit(nullmap, j) then Null else Text(ArgText(data, j))
  }

  /** The map that makes exactly these arguments NULL: the first is its lowest bit. */
  function MapOf(nulls: seq<bool>): nat {
    if nulls == [] then 0 else 2 * MapOf(nulls[1..]) + if nulls[0] then 1 else 0
  }

  lemma {:induction false} BitOfMap(nulls: seq<bool>, j: nat)
    ensures Bit(MapOf(nulls), j) <==> j < |nulls| && nulls[j]
    decreases j
  {
    if nulls == [] {
      NoBit(j);
    } else if j > 0 {
      BitOfMap(nulls[1..], j - 1);
    }
  }

  lemma {:induction false} NoBit(j: nat)
    ensures !Bit(0, j)
  {
    if j > 0 {
      NoBit(j - 1);
    }
  }

  /** Any choice of arguments can be NULL, and no argument of a strict function is. */
  lemma NullsAreAsMapped(data: seq<Byte>, isstrict: bool, nulls: seq<bool>, j: nat)
    ensures ArgOf(data, isstrict, MapOf(nulls), j).Null? <==> !isstrict && j < |nulls| && nulls[j]
    ensures ArgOf(data, isstrict, MapOf(nulls), j) in {Null, Text(ArgText(data, j))}
  {
    BitOfMap(nulls, j);
  }

  /** strchr on the C string at buf + p; -1 is NULL. */
  method StrChr(buf: array<Byte>, p: nat, c: Byte) returns (r: int)
    requires p < buf.Length && buf[buf.Length - 1] == NUL && c != NUL
    ensures
      var s := CString(buf[p..]);
      if c in s then p <= r < p + |s| && buf[r] == c && c !in buf[p..r] else r == -1
  {
    r := p;
    ghost var s := CString(buf[p..]);
    while buf[r] != NUL
      invariant p <= r <= p + |s| && c !in buf[p..r]
      decreases buf.Length - r
    {
      if buf[r] == c {
        assert s[r - p] == buf[p..][r - p];
        return;
      }
      assert buf[p..r + 1] == buf[p..r] + [buf[r]];
      r := r + 1;
    }
    assert s == buf[p..r];
    r := -1;
  }

  /**
    The loop over the arguments.  An input function may reject its text, which ends the iteration
    there; accepts says which texts it takes.
  */
  method SplitArguments(buf: array<Byte>, nargs: nat, isstrict: bool, nullmap: nat, accepts: (nat, seq<Byte>) -> bool)
      returns (args: seq<Arg>)
    requires buf.Length > 0 && buf[buf.Length - 1] == NUL
    modifies buf
    ensures |args| <= nargs
    ensures
      var data := old(buf[..buf.Length - 1]);
      && (forall j :: 0 <= j < |args| ==> args[j] == ArgOf(data, isstrict, nullmap, j))
      && (|args| < nargs ==>
            var next := ArgOf(data, isstrict, nullmap, |args|);
            next.Text? && !accepts(|args|, next.s))
  {
    hide CString, FieldOf, Follows, Ahead, ArgText, Bit;
    ghost var data := buf[..buf.Length - 1];
    var piece := 0;
    args := [];
    AheadAtStart(buf[..]);
    assert buf[0..] == buf[..];
    for j := 0 to nargs
      invariant |args| == j && piece < buf.Length && buf[buf.Length - 1] == NUL
      invariant forall i :: 0 <= i < j ==> args[i] == ArgOf(data, isstrict, nullmap, i)
      invariant Ahead(data, j, CString(buf[piece..]))
    {
      ghost var text := CString(buf[piece..]);
      var next := Cut(buf, piece);
      AheadNow(data, j, text);
      AheadNext(data, j, text, CString(buf[next..]));
      if !isstrict && Bit(nullmap, j) {
        args := args + [Null];
      } else {
        var s := ReadText(buf, piece);
        if !accepts(j, s) {
          return;
        }
        args := args + [Text(s)];
      }
      piece := next;
    }
  }

  /** The fields of rest are those of text after its first. */
  ghost predicate Follows(text: seq<Byte>, rest: seq<Byte>) {
    forall k: nat :: FieldOf(rest, k) == FieldOf(text, k + 1)
  }

  /** From argument j on, the text ahead holds the fields still to come. */
  ghost predicate Ahead(data: seq<Byte>, j: nat, text: seq<Byte>) {
    forall k: nat :: ArgText(data, j + k) == FieldOf(text, k)
  }

  lemma AheadAtStart(b: seq<Byte>)
    requires b != [] && b[|b| - 1] == NUL
    ensures Ahead(b[..|b| - 1], 0, CString(b))
  {
    WholeText(b);
  }

  lemma AheadNow(data: seq<Byte>, j: nat, text: seq<Byte>)
    requires Ahead(data, j, text)
    ensures ArgText(data, j) == FieldOf(text, 0)
  {
    assert ArgText(data, j + 0) == FieldOf(text, 0);
  }

  lemma AheadNext(data: seq<Byte>, j: nat, text: seq<Byte>, rest: seq<Byte>)
    requires Ahead(data, j, text) && Follows(text, rest)
    ensures Ahead(data, j + 1, rest)
  {
    hide ArgText, FieldOf;
    forall k: nat
      ensures ArgText(data, j + 1 + k) == FieldOf(rest, k)
    {
      assert ArgText(data, j + (k + 1)) == FieldOf(text, k + 1) == FieldOf(rest, k);
    }
  }

  /** The terminating NUL adds nothing to the text of the input. */
  lemma {:induction false} WholeText(b: seq<Byte>)
    requires b != [] && b[|b| - 1] == NUL
    ensures CString(b) == CString(b[..|b| - 1])
  {
    if |b| > 1 && b[0] != NUL {
      WholeText(b[1..]);
      assert b[1..][..|b| - 2] == b[..|b| - 1][1..];
    }
  }

  lemma {:induction false} CStringIs(s: seq<Byte>, n: nat)
    requires n < |s| && s[n] == NUL && NUL !in s[..n]
    ensures CString(s) == s[..n]
  {
    if n > 0 {
      assert s[0] == s[..n][0] && s[1..][..n - 1] == s[..n][1..];
      CStringIs(s[1..], n - 1);
    }
  }

  /** The C string at buf + p, as an input function reads it. */
  method ReadText(buf: array<Byte>, p: nat) returns (s: seq<Byte>)
    requires p < buf.Length && buf[buf.Length - 1] == NUL
    ensures s == CString(buf[p..])
  {
    var r := p;
    while buf[r] != NUL
      invariant p <= r < buf.Length && NUL !in buf[p..r]
      decreases buf.Length - r
    {
      r := r + 1;
    }
    CStringIs(buf[p..], r - p);
    assert buf[p..][..r - p] == buf[p..r];
    s := buf[p..r];
  }

  /** One turn of the loop: end the piece at its separator and find where the next one starts. */
  method Cut(buf: array<Byte>, piece: nat) returns (next: nat)
    requires piece < buf.Length && buf[buf.Length - 1] == NUL
    modifies buf
    ensures next < buf.Length && buf[buf.Length - 1] == NUL
    ensures CString(buf[piece..]) == FieldOf(old(CString(buf[piece..])), 0)
    ensures Follows(old(CString(buf[piece..])), CString(buf[next..]))
  {
    hide Split, FieldOf, Follows, CString;
    ghost var s := buf[piece..];
    var sep := StrChr(buf, piece, ARG_SEP);
    if sep == -1 {
      next := buf.Length - 1;
      NoFieldsLeft(CString(s));
      assert buf[next..] == [NUL];
    } else {
      ghost var n := sep - piece;
      assert s[..n] == buf[piece..sep];
      CutAt(s, n);
      buf[sep] := NUL;
      next := sep + 1;
      assert buf[piece..] == s[n := NUL] && buf[next..] == s[n + 1..];
    }
  }

  lemma NoFieldsLeft(text: seq<Byte>)
    requires ARG_SEP !in text
    ensures FieldOf(text, 0) == text && Follows(text, CString([NUL]))
  {
    assert Fields(text) == [text] && Fields([]) == [[]] && CString([NUL]) == [];
  }

  lemma CutAt(s: seq<Byte>, n: nat)
    requires n < |CString(s)| && s[n] == ARG_SEP && ARG_SEP !in s[..n]
    ensures CString(s[n := NUL]) == FieldOf(CString(s), 0)
    ensures Follows(CString(s), CString(s[n + 1..]))
  {
    hide Split, CString, Follows, FieldOf;
    var text, rest := CString(s), CString(s[n + 1..]);
    CStringIs(s[n := NUL], n);
    CStringAfter(s, n + 1);
    assert s[..n] == text[..n] == s[n := NUL][..n];
    assert text == text[..n] + [ARG_SEP] + rest;
    SplitAt(text[..n], ARG_SEP, rest);
    FieldsFollow(text, text[..n], rest);
  }

  lemma FieldsFollow(text: seq<Byte>, field: seq<Byte>, rest: seq<Byte>)
    requires Fields(text) == [field] + Fields(rest)
    ensures FieldOf(text, 0) == field && Follows(text, rest)
  {
  }

  lemma {:induction false} CStringAfter(s: seq<Byte>, n: nat)
    requires n <= |CString(s)|
    ensures CString(s[n..]) == CString(s)[n..]
  {
    if n > 0 {
      CStringAfter(s[1..], n - 1);
      assert s[1..][n - 1..] == s[n..];
    }
  }

  // --------------------------------------------------- against cutting the whole input

  /** The j-th field of the whole input, up to the first NUL in that field. */
  function NaiveText(data: seq<Byte>, j: nat): seq<Byte> {
    CString(FieldOf(data, j))
  }

  /** Field by field, fc holds the C strings of the first fields of fd. */
  ghost predicate StartOf(fc: seq<seq<Byte>>, fd: seq<seq<Byte>>) {
    |fc| <= |fd| && forall i :: 0 <= i < |fc| ==> fc[i] == CString(fd[i])
  }

  lemma StartOfCons(f: seq<Byte>, fc: seq<seq<Byte>>, fd: seq<seq<Byte>>)
    requires StartOf(fc, fd) && NUL !in f
    ensures StartOf([f] + fc, [f] + fd)
  {
    NoNul(f);
  }

  /** Where the text ends, the fields agree; the whole input may have more. */
  lemma {:induction false} FieldsOfCString(data: seq<Byte>)
    ensures StartOf(Fields(CString(data)), Fields(data))
    decreases |data|
  {
    hide StartOf;
    var text := CString(data);
    if ARG_SEP in data {
      var i := First(data, ARG_SEP);
      var rest := data[i + 1..];
      assert data == data[..i] + [ARG_SEP] + rest;
      SplitAt(data[..i], ARG_SEP, rest);
      if |text| <= i {
        CutShort(data, i);
        assert text == data[..i][..|text|];
        OneFieldStarts(text, data[..i], Fields(rest));
      } else {
        CStringAfter(data, i + 1);
        assert text == data[..i] + [ARG_SEP] + text[i + 1..];
        SplitAt(data[..i], ARG_SEP, text[i + 1..]);
        FieldsOfCString(rest);
        StartOfCons(data[..i], Fields(CString(rest)), Fields(rest));
      }
    } else {
      OneFieldStarts(text, data, []);
      assert [data] + [] == [data];
    }
  }

  lemma OneFieldStarts(text: seq<Byte>, field: seq<Byte>, more: seq<seq<Byte>>)
    requires text == CString(field) && ARG_SEP !in text
    ensures StartOf(Fields(text), [field] + more)
  {
    assert Fields(text) == [text];
  }

  lemma NoNul(s: seq<Byte>)
    requires NUL !in s
    ensures CString(s) == s
  {
  }

  /** A text that ends inside a prefix is the text of that prefix. */
  lemma {:induction false} CutShort(data: seq<Byte>, i: nat)
    requires |CString(data)| <= i <= |data|
    ensures CString(data[..i]) == CString(data)
  {
    if i > 0 && data[0] != NUL {
      CutShort(data[1..], i - 1);
      assert data[1..][..i - 1] == data[..i][1..];
    }
  }

  /**
    strchr stops at a NUL, so a NUL in the input ends the arguments there: the loop gives each
    argument the j-th field of the whole input exactly when every field past the one with the
    first NUL, up to the last argument, is empty or starts with NUL.
  */
  lemma SplitsWholeInputExactlyWhen(data: seq<Byte>, nargs: nat)
    ensures
      var k := |Fields(CString(data))|;
      (forall j: nat :: j < nargs ==> ArgText(data, j) == NaiveText(data, j)) <==>
      (forall j: nat :: k <= j < nargs && j < |Fields(data)| ==> Fields(data)[j] == [] || Fields(data)[j][0] == NUL)
  {
    FieldsOfCString(data);
    forall j: nat
      ensures ArgText(data, j) == NaiveText(data, j) <==>
              (|Fields(CString(data))| <= j < |Fields(data)| ==> Fields(data)[j] == [] || Fields(data)[j][0] == NUL)
    {
    }
  }

  /** In particular for every input without a NUL. */
  lemma WithoutNul(data: seq<Byte>, j: nat)
    requires NUL !in data
    ensures ArgText(data, j) == FieldOf(data, j)
  {
    NoNul(data);
  }

  /** On the input a, NUL, separator, b the second argument is empty; only the naive reading finds b. */
  lemma NulEndsTheArguments()
    ensures
      var data := [97, 0, 31, 98];
      ArgText(data, 1) == [] && NaiveText(data, 1) == [98]
  {
    var data: seq<Byte> := [97, NUL, ARG_SEP, 98];
    CStringIs(data, 1);
    assert ARG_SEP !in data[..1];
    SplitAt(data[..2], ARG_SEP, [98]);
    assert data == data[..2] + [ARG_SEP] + [98];
  }
}
