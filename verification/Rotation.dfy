/**
  The order in which a campaign's entries are swept: rotate of go/internal/campaign/run.go, and
  what its stride of 7 entries a round does and does not make fair.
*/
module Rotation {

  // -------------------------------------------------------------------- residues

  lemma PositiveMultiple(n: nat, d: int)
    requires d >= 1
    ensures n * d >= n
  {
    assert n * d == n * (d - 1) + n;
  }

  lemma NonzeroMultiple(n: nat, d: int)
    requires d != 0
    ensures n * d >= n || n * d <= 0 - n
  {
    if d >= 1 {
      PositiveMultiple(n, d);
    } else {
      PositiveMultiple(n, -d);
      assert n * d == -(n * -d);
    }
  }

  lemma UniqueResidue(a: int, n: int, q: int, r: int)
    requires 0 <= r < n && a == n * q + r
    ensures a % n == r
  {
    var d := a / n - q;
    assert n * d == r - a % n;
    if d != 0 {
      NonzeroMultiple(n, d);
    }
  }

  lemma ShiftResidue(a: int, n: int, k: int)
    requires n > 0
    ensures (a + n * k) % n == a % n
  {
    assert a + n * k == n * (a / n + k) + a % n;
    UniqueResidue(a + n * k, n, a / n + k, a % n);
  }

  lemma SameResidue(a: int, b: int, n: int) returns (k: int)
    requires n > 0 && a % n == b % n
    ensures a - b == n * k
  {
    k := a / n - b / n;
    assert n * k == n * (a / n) - n * (b / n);
  }

  // ------------------------------------------------------------------ the rotation

  /** Go's % on integers, which truncates toward zero. */
  function GoMod(a: int, n: int): int
    requires n > 0
  {
    if a >= 0 then a % n else -((-a) % n)
  }

  function Offset(amount: int, n: int): (off: nat)
    requires n > 0
    ensures off < n
  {
    (GoMod(amount, n) + n) % n
  }

  lemma OffsetIsResidue(amount: int, n: int)
    requires n > 0
    ensures Offset(amount, n) == amount % n
  {
    var m := GoMod(amount, n);
    var q := if amount >= 0 then -(amount / n) else (-amount) / n;
    assert m == amount + n * q;
    assert m + n == amount + n * (q + 1);
    ShiftResidue(amount, n, q + 1);
  }

  function Rotate<T>(entries: seq<T>, amount: int): (order: seq<T>)
    ensures |order| == |entries|
  {
    if |entries| < 2 then entries
    else
      var off := Offset(amount, |entries|);
      entries[off..] + entries[..off]
  }

  /** Position p of the rotated order holds entry p + amount, counted round the circle. */
  lemma RotateAt<T>(entries: seq<T>, amount: int, p: nat)
    requires p < |entries|
    ensures Rotate(entries, amount)[p] == entries[(p + amount) % |entries|]
  {
    var n := |entries|;
    if n >= 2 {
      OffsetIsResidue(amount, n);
      var off := amount % n;
      assert p + amount == p + off + n * (amount / n);
      ShiftResidue(p + off, n, amount / n);
      if p + off < n {
        UniqueResidue(p + off, n, 0, p + off);
      } else {
        UniqueResidue(p + off, n, 1, p + off - n);
      }
    }
  }

  lemma RotateIsPermutation<T>(entries: seq<T>, amount: int)
    ensures multiset(Rotate(entries, amount)) == multiset(entries)
  {
    if |entries| >= 2 {
      var off := Offset(amount, |entries|);
      assert entries == entries[..off] + entries[off..];
    }
  }

  // ------------------------------------------------------- the order of each round

  /** The order in which round r sweeps the entries. */
  function Order<T>(entries: seq<T>, round: nat): (order: seq<T>)
    ensures |order| == |entries|
  {
    Rotate(entries, round * 7)
  }

  ghost predicate Distinct<T>(s: seq<T>) {
    forall i, j :: 0 <= i < j < |s| ==> s[i] != s[j]
  }

  /** In the given round, entry number e is the p-th to be swept. */
  ghost predicate Sits<T>(entries: seq<T>, round: nat, p: nat, e: nat)
    requires p < |entries| && e < |entries|
  {
    Order(entries, round)[p] == entries[e]
  }

  lemma SitsIsResidue<T>(entries: seq<T>, round: nat, p: nat, e: nat)
    requires p < |entries| && e < |entries| && Distinct(entries)
    ensures Sits(entries, round, p, e) <==> (p + 7 * round) % |entries| == e
  {
    RotateAt(entries, round * 7, p);
  }

  ghost predicate Reaches<T>(entries: seq<T>, first: nat, p: nat, e: nat)
    requires p < |entries| && e < |entries|
  {
    exists r: nat :: first <= r < first + |entries| && Sits(entries, r, p, e)
  }

  ghost predicate AtMostOnce<T>(entries: seq<T>, first: nat, p: nat, e: nat)
    requires p < |entries| && e < |entries|
  {
    forall r: nat, r': nat ::
      (first <= r < r' < first + |entries| && Sits(entries, r, p, e)) ==> !Sits(entries, r', p, e)
  }

  /**
    Over the n rounds from first on, every order is a permutation and every entry takes every
    position exactly once.
  */
  ghost predicate LatinSquare<T>(entries: seq<T>, first: nat) {
    var n := |entries|;
    && (forall round: nat {:trigger Order(entries, round)} :: multiset(Order(entries, round)) == multiset(entries))
    && (forall p: nat, e: nat {:trigger Reaches(entries, first, p, e)} :: p < n && e < n ==> Reaches(entries, first, p, e))
    && (forall p: nat, e: nat {:trigger AtMostOnce(entries, first, p, e)} :: p < n && e < n ==> AtMostOnce(entries, first, p, e))
  }

  /** 7 is prime: if it divides n * k but not n, it divides k. */
  lemma SevenIsPrime(n: int, k: int)
    requires n % 7 != 0 && (n * k) % 7 == 0
    ensures k % 7 == 0
  {
    var a, b := n / 7, k / 7;
    var x, y := n % 7, k % 7;
    assert n * k == 7 * (7 * a * b + a * y + b * x) + x * y;
    ShiftResidue(x * y, 7, 7 * a * b + a * y + b * x);
    SevenIsPrimeSmall(x, y);
  }

  lemma SevenIsPrimeSmall(x: nat, y: nat)
    requires 0 < x < 7 && y < 7 && (x * y) % 7 == 0
    ensures y == 0
  {
    assert x == 1 || x == 2 || x == 3 || x == 4 || x == 5 || x == 6;
  }

  /** An inverse of 7 modulo any n that 7 does not divide. */
  lemma InverseOfSeven(n: nat) returns (u: int, k: int)
    requires n % 7 != 0
    ensures 7 * u == 1 + n * k
  {
    var a, x := n / 7, n % 7;
    k := if x == 1 then 6 else if x == 2 then 3 else if x == 3 then 2 else if x == 4 then 5 else if x == 5 then 4 else 1;
    var c := (1 + x * k) / 7;
    assert 7 * c == 1 + x * k;
    u := a * k + c;
    assert n * k == 7 * (a * k) + x * k;
  }

  lemma SeatIsReached(n: nat, first: nat, p: nat, e: nat) returns (r: nat)
    requires n % 7 != 0 && e < n
    ensures first <= r < first + n && (p + 7 * r) % n == e
  {
    var u, k := InverseOfSeven(n);
    var t := e - p - 7 * first;
    var s, q := (t * u) % n, (t * u) / n;
    r := first + s;
    calc {
      7 * s;
      7 * (t * u - n * q);
      t * (7 * u) - n * (7 * q);
      t * (1 + n * k) - n * (7 * q);
      { assert t * (n * k) == n * (t * k); }
      t + n * (t * k - 7 * q);
    }
    UniqueResidue(p + 7 * r, n, t * k - 7 * q, e);
  }

  lemma SeatIsReachedOnce(n: nat, first: nat, p: nat, r: nat, r': nat)
    requires n % 7 != 0
    requires first <= r < first + n && first <= r' < first + n
    requires (p + 7 * r) % n == (p + 7 * r') % n
    ensures r == r'
  {
    var k := SameResidue(p + 7 * r, p + 7 * r', n);
    assert n * k == 7 * (r - r');
    SevenIsPrime(n, k);
    var j := k / 7;
    assert r - r' == n * j by {
      assert n * k == 7 * (n * j);
    }
    if j != 0 {
      NonzeroMultiple(n, j);
    }
  }

  /** When 7 divides n the stride only ever moves an entry to positions seven apart. */
  lemma SevenApart(n: nat, p: nat, r: nat, e: nat)
    requires n > 0 && n % 7 == 0 && (p + 7 * r) % n == e
    ensures e % 7 == p % 7
  {
    var q, m := (p + 7 * r) / n, n / 7;
    assert n == 7 * m;
    assert p + 7 * r == n * q + e;
    assert n * q == 7 * (m * q);
    ShiftResidue(e, 7, m * q - r);
  }

  lemma SevenApartIsReached(n: nat, first: nat, p: nat, e: nat) returns (r: nat)
    requires n % 7 == 0 && p < n && e < n && e % 7 == p % 7
    ensures first <= r < first + n && (p + 7 * r) % n == e
  {
    var m := n / 7;
    var k := SameResidue(e, p, 7);
    var w := k - first;
    var s, q := w % m, w / m;
    r := first + s;
    assert m * q == w - s && n * q == 7 * (m * q);
    UniqueResidue(p + 7 * r, n, -q, e);
  }

  lemma EverySeatOnce<T>(entries: seq<T>, first: nat, p: nat, e: nat)
    requires Distinct(entries) && |entries| % 7 != 0 && p < |entries| && e < |entries|
    ensures Reaches(entries, first, p, e) && AtMostOnce(entries, first, p, e)
  {
    var n := |entries|;
    var s := SeatIsReached(n, first, p, e);
    SitsIsResidue(entries, s, p, e);
    forall r: nat, r': nat | first <= r < r' < first + n && Sits(entries, r, p, e)
      ensures !Sits(entries, r', p, e)
    {
      SitsIsResidue(entries, r, p, e);
      SitsIsResidue(entries, r', p, e);
      if Sits(entries, r', p, e) {
        SeatIsReachedOnce(n, first, p, r, r');
      }
    }
  }

  lemma SomeSeatIsNeverReached<T>(entries: seq<T>, first: nat)
    requires entries != [] && Distinct(entries) && |entries| % 7 == 0
    ensures !Reaches(entries, first, 1, 0)
  {
    var n := |entries|;
    if Reaches(entries, first, 1, 0) {
      var r: nat :| first <= r < first + n && Sits(entries, r, 1, 0);
      SitsIsResidue(entries, r, 1, 0);
      SevenApart(n, 1, r, 0);
    }
  }

  /** The rotation is fair over any n rounds exactly when 7 does not divide n. */
  lemma RotationIsFair<T>(entries: seq<T>, first: nat)
    requires entries != [] && Distinct(entries)
    ensures LatinSquare(entries, first) <==> |entries| % 7 != 0
  {
    hide Order, Rotate, Sits, Reaches, AtMostOnce;
    var n := |entries|;
    if n % 7 != 0 {
      forall round: nat
        ensures multiset(Order(entries, round)) == multiset(entries)
      {
        RoundIsPermutation(entries, round);
      }
      forall p: nat, e: nat {:trigger Reaches(entries, first, p, e)} | p < n && e < n
        ensures Reaches(entries, first, p, e)
      {
        EverySeatOnce(entries, first, p, e);
      }
      forall p: nat, e: nat {:trigger AtMostOnce(entries, first, p, e)} | p < n && e < n
        ensures AtMostOnce(entries, first, p, e)
      {
        EverySeatOnce(entries, first, p, e);
      }
    } else {
      SomeSeatIsNeverReached(entries, first);
    }
  }

  lemma RoundIsPermutation<T>(entries: seq<T>, round: nat)
    ensures multiset(Order(entries, round)) == multiset(entries)
  {
    RotateIsPermutation(entries, round * 7);
  }

  /** The positions entry number e ever takes in the n rounds from first on. */
  ghost function PositionsOf<T>(entries: seq<T>, first: nat, e: nat): set<nat>
    requires e < |entries|
  {
    set p: nat | p < |entries| && Reaches(entries, first, p, e)
  }

  ghost function Class(m: nat, c: nat): set<nat> {
    set p: nat | p < 7 * m && p % 7 == c
  }

  lemma {:induction false} ClassSize(m: nat, c: nat)
    requires c < 7
    ensures |Class(m, c)| == m
  {
    if m > 0 {
      ClassSize(m - 1, c);
      var last := 7 * (m - 1) + c;
      assert Class(m, c) == Class(m - 1, c) + {last};
    } else {
      assert Class(m, c) == {};
    }
  }

  /** With 7 dividing n, an entry reaches a seventh of the positions, those of its own residue. */
  lemma UnfairPositions<T>(entries: seq<T>, first: nat, e: nat)
    requires Distinct(entries) && e < |entries| && |entries| % 7 == 0
    ensures PositionsOf(entries, first, e) == set p: nat | p < |entries| && p % 7 == e % 7
    ensures |PositionsOf(entries, first, e)| == |entries| / 7
  {
    var n := |entries|;
    forall p: nat | p < n
      ensures p in PositionsOf(entries, first, e) <==> p % 7 == e % 7
    {
      if p % 7 == e % 7 {
        var r := SevenApartIsReached(n, first, p, e);
        SitsIsResidue(entries, r, p, e);
      } else if p in PositionsOf(entries, first, e) {
        var r: nat :| first <= r < first + n && Sits(entries, r, p, e);
        SitsIsResidue(entries, r, p, e);
        SevenApart(n, p, r, e);
      }
    }
    assert PositionsOf(entries, first, e) == Class(n / 7, e % 7);
    ClassSize(n / 7, e % 7);
  }
}
