/** Cutting a sequence at every occurrence of a separator, as strings.Split does, and its inverse. */
module Splitting {

  function First<T(==)>(s: seq<T>, sep: T): (i: nat)
    requires sep in s
    ensures i < |s| && s[i] == sep && sep !in s[..i]
  {
    if s[0] == sep then 0 else 1 + First(s[1..], sep)
  }

  /** The fields between separators; there is always at least one. */
  function Split<T(==)>(s: seq<T>, sep: T): (fs: seq<seq<T>>)
    ensures |fs| > 0
    decreases |s|
  {
    if sep !in s then [s]
    else
      var i := First(s, sep);
      [s[..i]] + Split(s[i + 1..], sep)
  }

  lemma {:induction false} FirstIs<T>(s: seq<T>, sep: T, i: nat)
    requires i < |s| && s[i] == sep && sep !in s[..i]
    ensures First(s, sep) == i
  {
    if i > 0 {
      assert s[0] == s[..i][0] && s[1..][..i - 1] == s[..i][1..];
      FirstIs(s[1..], sep, i - 1);
    }
  }

  lemma SplitOne<T>(s: seq<T>, sep: T)
    requires sep !in s
    ensures Split(s, sep) == [s]
  {
  }

  lemma SplitAt<T>(field: seq<T>, sep: T, rest: seq<T>)
    requires sep !in field
    ensures Split(field + [sep] + rest, sep) == [field] + Split(rest, sep)
  {
    var s := field + [sep] + rest;
    assert s[..|field|] == field && s[|field| + 1..] == rest;
    FirstIs(s, sep, |field|);
  }

  function Join<T>(fs: seq<seq<T>>, sep: T): seq<T>
    requires |fs| > 0
  {
    if |fs| == 1 then fs[0] else fs[0] + [sep] + Join(fs[1..], sep)
  }

  /** Splitting undoes joining. */
  lemma {:induction false} SplitJoin<T>(fs: seq<seq<T>>, sep: T)
    requires |fs| > 0 && forall f :: f in fs ==> sep !in f
    ensures Split(Join(fs, sep), sep) == fs
  {
    hide Split;
    if |fs| > 1 {
      SplitJoin(fs[1..], sep);
      SplitAt(fs[0], sep, Join(fs[1..], sep));
    } else {
      SplitOne(fs[0], sep);
    }
  }

  /** Joining undoes splitting. */
  lemma {:induction false} JoinSplit<T>(s: seq<T>, sep: T)
    ensures Join(Split(s, sep), sep) == s
    decreases |s|
  {
    if sep in s {
      var i := First(s, sep);
      JoinSplit(s[i + 1..], sep);
      assert s == s[..i] + [sep] + s[i + 1..];
      assert Split(s, sep)[1..] == Split(s[i + 1..], sep);
    }
  }

  /** No field holds the separator, or anything the whole did not. */
  lemma {:induction false} FieldsAreClean<T>(s: seq<T>, sep: T)
    ensures forall f :: f in Split(s, sep) ==> sep !in f && forall x :: x in f ==> x in s
    decreases |s|
  {
    if sep in s {
      var i := First(s, sep);
      FieldsAreClean(s[i + 1..], sep);
    }
  }
}
