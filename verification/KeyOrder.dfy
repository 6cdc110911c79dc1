/**
  Recovering the key order of one nested object from a JSON token stream: objectKeyOrder of
  go/internal/finalreport/data.go.  The decoder is its token stream: Token yields the next token,
  Decode consumes the next whole value, and both fail at the end.
*/
module KeyOrder {

  import opened Options

  datatype Json = Str(s: string) | Scalar | Arr(items: seq<Json>) | Obj(members: seq<Member>)
  datatype Member = Member(key: string, value: Json)

  /** Delimiters, strings (keys and values alike), and everything else. */
  datatype Token = Open | Close | Text(s: string) | Atom

  function Tokens(v: Json): seq<Token>
    decreases v, 0
  {
    match v
    case Str(s) => [Text(s)]
    case Scalar => [Atom]
    case Arr(items) => [Open] + ItemTokens(items) + [Close]
    case Obj(members) => [Open] + MemberTokens(members) + [Close]
  }

  function ItemTokens(items: seq<Json>): seq<Token> {
    if items == [] then [] else Tokens(items[0]) + ItemTokens(items[1..])
  }

  function MemberTokens(members: seq<Member>): seq<Token> {
    if members == [] then []
    else [Text(members[0].key)] + Tokens(members[0].value) + MemberTokens(members[1..])
  }

  // ------------------------------------------------------------------ the code

  /** What is left after the close that ends depth d. */
  function SkipNested(toks: seq<Token>, d: nat): (r: Option<seq<Token>>)
    ensures r.Some? ==> |r.value| < |toks|
    decreases |toks|
  {
    if toks == [] then None
    else
      match toks[0]
      case Open => SkipNested(toks[1..], d + 1)
      case Close => if d <= 1 then Some(toks[1..]) else SkipNested(toks[1..], d - 1)
      case _ => SkipNested(toks[1..], d)
  }

  /** Decode: what is left after the next value; no value starts at a close or at the end. */
  function Skip(toks: seq<Token>): (r: Option<seq<Token>>)
    ensures r.Some? ==> |r.value| < |toks|
  {
    if toks == [] || toks[0].Close? then None
    else if toks[0].Open? then SkipNested(toks[1..], 1)
    else Some(toks[1..])
  }

  /** The rest of the scan, from a point where depth, inField and out are what they are. */
  function Scan(field: string, toks: seq<Token>, depth: int, inField: bool, out: seq<string>): seq<string>
    decreases |toks|
  {
    if toks == [] then out
    else
      var rest := toks[1..];
      match toks[0]
      case Open => Scan(field, rest, depth + 1, inField, out)
      case Close => if inField && depth - 1 <= 1 then out else Scan(field, rest, depth - 1, inField, out)
      case Text(v) =>
        if depth == 1 && v == field then Scan(field, rest, depth, true, out)
        else if inField && depth == 2 then
          match Skip(rest)
          case None => out + [v]
          case Some(after) => Scan(field, after, depth, inField, out + [v])
        else Scan(field, rest, depth, inField, out)
      case Atom => Scan(field, rest, depth, inField, out)
  }

  /** The token stream of a json.Decoder, and where it stands. */
  class Decoder {
    const toks: seq<Token>
    var next: nat

    ghost predicate Valid()
      reads this
    {
      next <= |toks|
    }

    ghost function Left(): seq<Token>
      reads this
      requires Valid()
    {
      toks[next..]
    }

    constructor (toks: seq<Token>)
      ensures Valid() && Left() == toks
    {
      this.toks := toks;
      next := 0;
    }

    method Token() returns (t: Option<Token>)
      requires Valid()
      modifies this
      ensures Valid()
      ensures if old(Left()) == [] then t == None && Left() == [] else t == Some(old(Left())[0]) && Left() == old(Left())[1..]
    {
      if next == |toks| {
        return None;
      }
      t := Some(toks[next]);
      next := next + 1;
    }

    /** Decode into a RawMessage that is thrown away. */
    method Decode() returns (ok: bool)
      requires Valid()
      modifies this
      ensures Valid()
      ensures ok == Skip(old(Left())).Some? && (ok ==> Left() == Skip(old(Left())).value)
    {
      if next == |toks| || toks[next].Close? {
        return false;
      }
      ghost var start := Left();
      if !toks[next].Open? {
        next := next + 1;
        return true;
      }
      next := next + 1;
      var d := 1;
      while d > 0
        invariant Valid() && d >= 0
        invariant if d == 0 then Skip(start) == Some(Left()) else Skip(start) == SkipNested(Left(), d)
        decreases |toks| - next
      {
        if next == |toks| {
          return false;
        }
        if toks[next].Open? {
          d := d + 1;
        } else if toks[next].Close? {
          d := d - 1;
        }
        next := next + 1;
      }
      return true;
    }
  }

  method ObjectKeyOrder(raw: seq<Token>, field: string) returns (out: seq<string>)
    ensures out == Scan(field, raw, 0, false, [])
  {
    var dec := new Decoder(raw);
    var depth, inField := 0, false;
    out := [];
    while true
      invariant dec.Valid()
      invariant Scan(field, raw, 0, false, []) == Scan(field, dec.Left(), depth, inField, out)
      decreases |dec.Left()|
    {
      var t := dec.Token();
      if t.None? {
        return;
      }
      match t.value {
        case Open =>
          depth := depth + 1;
        case Close =>
          depth := depth - 1;
          if inField && depth <= 1 {
            return;
          }
        case Text(v) =>
          if depth == 1 && v == field {
            inField := true;
            continue;
          }
          if inField && depth == 2 {
            out := out + [v];
            var ok := dec.Decode();
            if !ok {
              return;
            }
          }
        case Atom =>
      }
    }
  }

  // ------------------------------------------------------- what the scan passes over

  lemma {:induction false} SkipsValue(v: Json, rest: seq<Token>, d: nat)
    requires d >= 1
    ensures SkipNested(Tokens(v) + rest, d) == SkipNested(rest, d)
    decreases v, 0
  {
    match v {
      case Str(s) =>
      case Scalar =>
      case Arr(items) =>
        SkipsItems(items, [Close] + rest, d + 1);
        Bracketed(ItemTokens(items), rest);
      case Obj(members) =>
        SkipsMembers(members, [Close] + rest, d + 1);
        Bracketed(MemberTokens(members), rest);
    }
  }

  lemma Bracketed(inner: seq<Token>, rest: seq<Token>)
    ensures [Open] + inner + [Close] + rest == [Open] + (inner + ([Close] + rest))
    ensures ([Open] + (inner + ([Close] + rest)))[1..] == inner + ([Close] + rest)
    ensures ([Close] + rest)[1..] == rest
  {
  }

  lemma {:induction false} SkipsItems(items: seq<Json>, rest: seq<Token>, d: nat)
    requires d >= 1
    ensures SkipNested(ItemTokens(items) + rest, d) == SkipNested(rest, d)
    decreases items
  {
    if items == [] {
      assert [] + rest == rest;
    } else {
      var tail := ItemTokens(items[1..]) + rest;
      assert ItemTokens(items) + rest == Tokens(items[0]) + tail;
      SkipsValue(items[0], tail, d);
      SkipsItems(items[1..], rest, d);
    }
  }

  lemma {:induction false} SkipsMembers(members: seq<Member>, rest: seq<Token>, d: nat)
    requires d >= 1
    ensures SkipNested(MemberTokens(members) + rest, d) == SkipNested(rest, d)
    decreases members
  {
    if members == [] {
      assert [] + rest == rest;
    } else {
      var m := members[0];
      var tail := MemberTokens(members[1..]) + rest;
      assert MemberTokens(members) + rest == [Text(m.key)] + (Tokens(m.value) + tail);
      assert ([Text(m.key)] + (Tokens(m.value) + tail))[1..] == Tokens(m.value) + tail;
      SkipsValue(m.value, tail, d);
      SkipsMembers(members[1..], rest, d);
    }
  }

  /** Decode consumes exactly one value, however deeply nested. */
  lemma DecodeConsumesOneValue(v: Json, rest: seq<Token>)
    ensures Skip(Tokens(v) + rest) == Some(rest)
  {
    match v {
      case Str(s) =>
      case Scalar =>
      case Arr(items) =>
        SkipsItems(items, [Close] + rest, 1);
        Bracketed(ItemTokens(items), rest);
      case Obj(members) =>
        SkipsMembers(members, [Close] + rest, 1);
        Bracketed(MemberTokens(members), rest);
    }
  }

  /** Where the scan neither records keys nor can return. */
  predicate Deaf(depth: int, inField: bool) {
    depth >= 3 || (depth == 2 && !inField)
  }

  lemma {:induction false} PassesValue(field: string, v: Json, rest: seq<Token>,
                                       depth: int, inField: bool, out: seq<string>)
    requires Deaf(depth, inField)
    ensures Scan(field, Tokens(v) + rest, depth, inField, out) == Scan(field, rest, depth, inField, out)
    decreases v, 0
  {
    match v {
      case Str(s) =>
      case Scalar =>
      case Arr(items) =>
        PassesItems(field, items, [Close] + rest, depth + 1, inField, out);
        Bracketed(ItemTokens(items), rest);
      case Obj(members) =>
        PassesMembers(field, members, [Close] + rest, depth + 1, inField, out);
        Bracketed(MemberTokens(members), rest);
    }
  }

  lemma {:induction false} PassesItems(field: string, items: seq<Json>, rest: seq<Token>,
                                       depth: int, inField: bool, out: seq<string>)
    requires Deaf(depth, inField)
    ensures Scan(field, ItemTokens(items) + rest, depth, inField, out) == Scan(field, rest, depth, inField, out)
    decreases items
  {
    if items == [] {
      assert [] + rest == rest;
    } else {
      var tail := ItemTokens(items[1..]) + rest;
      assert ItemTokens(items) + rest == Tokens(items[0]) + tail;
      PassesValue(field, items[0], tail, depth, inField, out);
      PassesItems(field, items[1..], rest, depth, inField, out);
    }
  }

  lemma {:induction false} PassesMembers(field: string, members: seq<Member>, rest: seq<Token>,
                                         depth: int, inField: bool, out: seq<string>)
    requires Deaf(depth, inField)
    ensures Scan(field, MemberTokens(members) + rest, depth, inField, out) == Scan(field, rest, depth, inField, out)
    decreases members
  {
    if members == [] {
      assert [] + rest == rest;
    } else {
      var m := members[0];
      var tail := MemberTokens(members[1..]) + rest;
      assert MemberTokens(members) + rest == [Text(m.key)] + (Tokens(m.value) + tail);
      assert ([Text(m.key)] + (Tokens(m.value) + tail))[1..] == Tokens(m.value) + tail;
      PassesValue(field, m.value, tail, depth, inField, out);
      PassesMembers(field, members[1..], rest, depth, inField, out);
    }
  }

  // ---------------------------------------------------------- what the scan records

  /** The keys of an object, in document order. */
  function Keys(members: seq<Member>): seq<string> {
    seq(|members|, i requires 0 <= i < |members| => members[i].key)
  }

  /** What the scan makes of an array: each string it meets, skipping the item after it. */
  function ItemKeys(items: seq<Json>): seq<string> {
    if items == [] then []
    else if items[0].Str? then [items[0].s] + (if |items| == 1 then [] else ItemKeys(items[2..]))
    else ItemKeys(items[1..])
  }

  lemma {:induction false} PassesKeys(field: string, members: seq<Member>, rest: seq<Token>, out: seq<string>)
    ensures Scan(field, MemberTokens(members) + rest, 2, true, out) == Scan(field, rest, 2, true, out + Keys(members))
    decreases members
  {
    if members == [] {
      assert [] + rest == rest;
      assert out + [] == out;
    } else {
      var m := members[0];
      var tail := MemberTokens(members[1..]) + rest;
      assert MemberTokens(members) + rest == [Text(m.key)] + (Tokens(m.value) + tail);
      assert ([Text(m.key)] + (Tokens(m.value) + tail))[1..] == Tokens(m.value) + tail;
      DecodeConsumesOneValue(m.value, tail);
      PassesKeys(field, members[1..], rest, out + [m.key]);
      assert out + [m.key] + Keys(members[1..]) == out + Keys(members);
    }
  }

  lemma RecordsKeys(field: string, members: seq<Member>, rest: seq<Token>, out: seq<string>)
    ensures Scan(field, MemberTokens(members) + ([Close] + rest), 2, true, out) == out + Keys(members)
  {
    PassesKeys(field, members, [Close] + rest, out);
  }

  /** Of a document cut off inside the field's object, the keys up to there come back. */
  lemma CutOffKeepsItsKeys(field: string, inner: seq<Member>, key: string)
    ensures Scan(field, [Open, Text(field), Open] + MemberTokens(inner), 0, false, []) == Keys(inner)
    ensures
      Scan(field, [Open, Text(field), Open] + (MemberTokens(inner) + [Text(key)]), 0, false, []) ==
      Keys(inner) + [key]
  {
    FieldOpens(field, MemberTokens(inner));
    FieldOpens(field, MemberTokens(inner) + [Text(key)]);
    PassesKeys(field, inner, [], []);
    PassesKeys(field, inner, [Text(key)], []);
    assert MemberTokens(inner) + [] == MemberTokens(inner) && [] + Keys(inner) == Keys(inner);
    ScansText(field, key, [], Keys(inner));
    assert [Text(key)] + [] == [Text(key)];
  }

  lemma FieldOpens(field: string, rest: seq<Token>)
    ensures Scan(field, [Open, Text(field), Open] + rest, 0, false, []) == Scan(field, rest, 2, true, [])
  {
    var all := [Open, Text(field), Open] + rest;
    var two, one := [Text(field), Open] + rest, [Open] + rest;
    assert all[1..] == two && two[1..] == one && one[1..] == rest;
    assert Scan(field, all, 0, false, []) == Scan(field, two, 1, false, []) == Scan(field, one, 1, true, []);
  }

  lemma ScansText(field: string, t: string, tail: seq<Token>, out: seq<string>)
    ensures
      Scan(field, [Text(t)] + tail, 2, true, out) ==
      if Skip(tail).None? then out + [t] else Scan(field, Skip(tail).value, 2, true, out + [t])
  {
    assert ([Text(t)] + tail)[1..] == tail;
  }

  lemma ScansAtom(field: string, tail: seq<Token>, out: seq<string>)
    ensures Scan(field, [Atom] + tail, 2, true, out) == Scan(field, tail, 2, true, out)
  {
    assert ([Atom] + tail)[1..] == tail;
  }

  lemma ScansClose(field: string, tail: seq<Token>, out: seq<string>)
    ensures Scan(field, [Close] + tail, 2, true, out) == out && Skip([Close] + tail) == None
  {
  }

  lemma ItemTokensAre(items: seq<Json>, after: seq<Token>)
    requires items != []
    ensures ItemTokens(items) + after == Tokens(items[0]) + (ItemTokens(items[1..]) + after)
  {
  }

  lemma {:induction false} RecordsItems(field: string, items: seq<Json>, rest: seq<Token>, out: seq<string>)
    ensures Scan(field, ItemTokens(items) + ([Close] + rest), 2, true, out) == out + ItemKeys(items)
    decreases |items|
  {
    hide Scan, Skip, ItemTokens;
    var after := [Close] + rest;
    if items == [] {
      NoItemTokens(after);
      ScansClose(field, rest, out);
      assert out + [] == out;
    } else {
      var tail := ItemTokens(items[1..]) + after;
      ItemTokensAre(items, after);
      match items[0] {
        case Str(s) =>
          ScansText(field, s, tail, out);
          if |items| == 1 {
            NoItemTokens(after);
            ScansClose(field, rest, out);
          } else {
            ItemTokensAre(items[1..], after);
            assert items[1..][1..] == items[2..];
            DecodeConsumesOneValue(items[1], ItemTokens(items[2..]) + after);
            RecordsItems(field, items[2..], rest, out + [s]);
            assert out + [s] + ItemKeys(items[2..]) == out + ItemKeys(items);
          }
        case Scalar =>
          ScansAtom(field, tail, out);
          RecordsItems(field, items[1..], rest, out);
        case _ =>
          PassesComposite(field, items[0], tail, out);
          RecordsItems(field, items[1..], rest, out);
      }
    }
  }

  lemma NoItemTokens(after: seq<Token>)
    ensures ItemTokens([]) + after == after
  {
  }

  lemma PassesComposite(field: string, v: Json, tail: seq<Token>, out: seq<string>)
    requires v.Arr? || v.Obj?
    ensures Scan(field, Tokens(v) + tail, 2, true, out) == Scan(field, tail, 2, true, out)
  {
    match v {
      case Arr(inner) =>
        PassesItems(field, inner, [Close] + tail, 3, true, out);
        Bracketed(ItemTokens(inner), tail);
      case Obj(inner) =>
        PassesMembers(field, inner, [Close] + tail, 3, true, out);
        Bracketed(MemberTokens(inner), tail);
    }
  }

  // ------------------------------------------------------------- whole documents

  /** A top-level string, key or value, equal to the field switches the recording on. */
  predicate Triggers(m: Member, field: string) {
    m.key == field || m.value == Str(field)
  }

  predicate Composite(v: Json) {
    v.Arr? || v.Obj?
  }

  /** The value whose keys get recorded: the first array or object met once recording is on. */
  function Recorded(members: seq<Member>, field: string, on: bool): Option<Json> {
    if members == [] then None
    else
      var m := members[0];
      if (on || m.key == field) && Composite(m.value) then Some(m.value)
      else Recorded(members[1..], field, on || Triggers(m, field))
  }

  function KeysOf(v: Option<Json>): seq<string> {
    match v
    case None => []
    case Some(v) => if v.Obj? then Keys(v.members) else if v.Arr? then ItemKeys(v.items) else []
  }

  lemma {:induction false} ScansMembers(field: string, members: seq<Member>, on: bool)
    ensures Scan(field, MemberTokens(members) + [Close], 1, on, []) == KeysOf(Recorded(members, field, on))
    decreases members
  {
    if members == [] {
      assert [] + [Close] == [Close];
    } else {
      var m := members[0];
      var tail := MemberTokens(members[1..]) + [Close];
      assert MemberTokens(members) + [Close] == [Text(m.key)] + (Tokens(m.value) + tail);
      assert ([Text(m.key)] + (Tokens(m.value) + tail))[1..] == Tokens(m.value) + tail;
      ScansMember(field, m.value, tail, on || m.key == field);
      ScansMembers(field, members[1..], on || Triggers(m, field));
    }
  }

  /** The value of a top-level member. */
  lemma ScansMember(field: string, v: Json, tail: seq<Token>, on: bool)
    ensures Scan(field, Tokens(v) + tail, 1, on, []) ==
            if on && Composite(v) then KeysOf(Some(v)) else Scan(field, tail, 1, on || v == Str(field), [])
  {
    match v {
      case Str(s) =>
      case Scalar =>
      case Arr(items) =>
        Bracketed(ItemTokens(items), tail);
        if on {
          RecordsItems(field, items, tail, []);
        } else {
          PassesItems(field, items, [Close] + tail, 2, on, []);
        }
      case Obj(members) =>
        Bracketed(MemberTokens(members), tail);
        if on {
          RecordsKeys(field, members, tail, []);
        } else {
          PassesMembers(field, members, [Close] + tail, 2, on, []);
        }
    }
  }

  function KeyOrderOf(doc: Json, field: string): seq<string> {
    Scan(field, Tokens(doc), 0, false, [])
  }

  /** On any object: the keys of whatever value is recorded first. */
  lemma KeyOrderIs(members: seq<Member>, field: string)
    ensures KeyOrderOf(Obj(members), field) == KeysOf(Recorded(members, field, false))
  {
    var inner := MemberTokens(members);
    assert Tokens(Obj(members)) == [Open] + (inner + [Close]);
    assert ([Open] + (inner + [Close]))[1..] == inner + [Close];
    ScansMembers(field, members, false);
  }

  /** Recording is on when the value of member j is reached. */
  ghost predicate On(members: seq<Member>, field: string, on: bool, j: nat)
    requires j < |members|
  {
    on || members[j].key == field || exists i :: 0 <= i < j && Triggers(members[i], field)
  }

  lemma OnFromSecond(members: seq<Member>, field: string, on: bool, j: nat)
    requires 0 < j < |members|
    ensures On(members, field, on, j) <==> On(members[1..], field, on || Triggers(members[0], field), j - 1)
  {
    if exists i :: 0 < i < j && Triggers(members[i], field) {
      var i :| 0 < i < j && Triggers(members[i], field);
      assert Triggers(members[1..][i - 1], field);
    }
  }

  ghost predicate Records(members: seq<Member>, field: string, on: bool, j: nat)
    requires j < |members|
  {
    Composite(members[j].value) && On(members, field, on, j)
  }

  lemma {:induction false} FirstIsRecorded(members: seq<Member>, field: string, on: bool, j: nat)
    requires j < |members| && Records(members, field, on, j)
    requires forall i :: 0 <= i < j ==> !Records(members, field, on, i)
    ensures Recorded(members, field, on) == Some(members[j].value)
    decreases j
  {
    if j > 0 {
      var on' := on || Triggers(members[0], field);
      assert !Records(members, field, on, 0);
      OnFromSecond(members, field, on, j);
      forall i | 0 <= i < j - 1
        ensures !Records(members[1..], field, on', i)
      {
        assert !Records(members, field, on, i + 1);
        OnFromSecond(members, field, on, i + 1);
      }
      FirstIsRecorded(members[1..], field, on', j - 1);
    }
  }

  /** The field's own member, the first with that key, and it holds an object. */
  ghost predicate FieldAt(members: seq<Member>, field: string, k: nat) {
    && k < |members| && members[k].key == field && members[k].value.Obj?
    && forall i :: 0 <= i < k ==> members[i].key != field
  }

  /** Sibling j, an array or object before the field, comes after a string value equal to its name. */
  ghost predicate Intrudes(members: seq<Member>, field: string, j: nat, k: nat)
    requires k < |members|
  {
    j < k && Composite(members[j].value) && exists i :: 0 <= i < j && members[i].value == Str(field)
  }

  lemma IntrudersRecord(members: seq<Member>, field: string, j: nat, k: nat)
    requires FieldAt(members, field, k) && j < k
    ensures Intrudes(members, field, j, k) <==> Records(members, field, false, j)
  {
    if Records(members, field, false, j) {
      var i :| 0 <= i < j && Triggers(members[i], field);
      assert members[i].value == Str(field);
    }
    if Intrudes(members, field, j, k) {
      var i :| 0 <= i < j && members[i].value == Str(field);
      assert Triggers(members[i], field);
    }
  }

  /** With no intruder, the keys of the named object in document order, whatever is nested where. */
  lemma RightWithoutIntruder(members: seq<Member>, field: string, k: nat)
    requires FieldAt(members, field, k) && forall j: nat :: !Intrudes(members, field, j, k)
    ensures KeyOrderOf(Obj(members), field) == Keys(members[k].value.members)
  {
    KeyOrderIs(members, field);
    forall j: nat | j < k
      ensures !Records(members, field, false, j)
    {
      IntrudersRecord(members, field, j, k);
    }
    FirstIsRecorded(members, field, false, k);
  }

  /** Otherwise the first intruder's keys are returned instead. */
  lemma IntruderWins(members: seq<Member>, field: string, j: nat, k: nat)
    requires FieldAt(members, field, k) && Intrudes(members, field, j, k)
    requires forall i: nat :: i < j ==> !Intrudes(members, field, i, k)
    ensures KeyOrderOf(Obj(members), field) == KeysOf(Some(members[j].value))
  {
    KeyOrderIs(members, field);
    IntrudersRecord(members, field, j, k);
    forall i: nat | i < j
      ensures !Records(members, field, false, i)
    {
      IntrudersRecord(members, field, i, k);
    }
    FirstIsRecorded(members, field, false, j);
  }

  lemma FirstIntruder(members: seq<Member>, field: string, j: nat, k: nat) returns (i: nat)
    requires k < |members| && Intrudes(members, field, j, k)
    ensures Intrudes(members, field, i, k) && forall h: nat :: h < i ==> !Intrudes(members, field, h, k)
  {
    if h: nat :| h < j && Intrudes(members, field, h, k) {
      i := FirstIntruder(members, field, h, k);
    } else {
      i := j;
    }
  }

  function WithField(members: seq<Member>, field: string, k: nat, inner: seq<Member>): seq<Member>
    requires k < |members|
  {
    members[k := Member(field, Obj(inner))]
  }

  /** Whatever the named object holds, its keys come back in order. */
  ghost predicate AlwaysRight(members: seq<Member>, field: string, k: nat)
    requires k < |members|
  {
    forall inner :: KeyOrderOf(Obj(WithField(members, field, k, inner)), field) == Keys(inner)
  }

  lemma SameIntruders(members: seq<Member>, field: string, k: nat, inner: seq<Member>)
    requires FieldAt(members, field, k)
    ensures FieldAt(WithField(members, field, k, inner), field, k)
    ensures forall j: nat :: Intrudes(members, field, j, k) <==> Intrudes(WithField(members, field, k, inner), field, j, k)
  {
    var other := WithField(members, field, k, inner);
    forall j: nat
      ensures Intrudes(members, field, j, k) <==> Intrudes(other, field, j, k)
    {
      if j < k {
        assert forall i :: 0 <= i < j ==> other[i] == members[i];
      }
    }
  }

  /** The answer is right for whatever the named object holds exactly when no sibling intrudes. */
  lemma RightExactlyWhen(members: seq<Member>, field: string, k: nat)
    requires FieldAt(members, field, k)
    ensures AlwaysRight(members, field, k) <==> forall j: nat :: !Intrudes(members, field, j, k)
  {
    if j: nat :| Intrudes(members, field, j, k) {
      var i := FirstIntruder(members, field, j, k);
      var n := |KeysOf(Some(members[i].value))| + 1;
      var inner := seq(n, _ => Member("", Scalar));
      SameIntruders(members, field, k, inner);
      IntruderWins(WithField(members, field, k, inner), field, i, k);
      assert KeyOrderOf(Obj(WithField(members, field, k, inner)), field) != Keys(inner);
    } else {
      forall inner
        ensures KeyOrderOf(Obj(WithField(members, field, k, inner)), field) == Keys(inner)
      {
        SameIntruders(members, field, k, inner);
        RightWithoutIntruder(WithField(members, field, k, inner), field, k);
      }
    }
  }

  /** In {"note": "components", "extra": {"a": 0}, "components": {"b": 0}} the answer is extra's key. */
  lemma IntruderExample()
    ensures
      var members := [Member("note", Str("components")), Member("extra", Obj([Member("a", Scalar)])),
                      Member("components", Obj([Member("b", Scalar)]))];
      FieldAt(members, "components", 2) && KeyOrderOf(Obj(members), "components") == ["a"]
  {
    var members := [Member("note", Str("components")), Member("extra", Obj([Member("a", Scalar)])),
                    Member("components", Obj([Member("b", Scalar)]))];
    assert members[0].value == Str("components");
    assert "note" != "components" && "extra" != "components";
    IntruderWins(members, "components", 1, 2);
    assert Keys([Member("a", Scalar)]) == ["a"];
  }
}
