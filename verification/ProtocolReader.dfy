/**
  The wrapped readers of project/fuzzer/protocol_fuzzer.c, which serve the backend's frontend
  protocol from the fuzz input over a moving cursor.
*/
module ProtocolReader {

  import opened Bytes
  import opened Options

  const TWO_TO_THE_32 := 0x1_0000_0000

  /** pg_ntoh32 of four bytes. */
  function FromNetwork(s: seq<Byte>): (n: nat)
    requires |s| == 4
    ensures n < TWO_TO_THE_32
  {
    0x100_0000 * s[0] as nat + 0x1_0000 * s[1] as nat + 0x100 * s[2] as nat + s[3] as nat
  }

  function ToNetwork(n: nat): (s: seq<Byte>)
    requires n < TWO_TO_THE_32
    ensures |s| == 4
  {
    [(n / 0x100_0000) as Byte, (n / 0x1_0000 % 0x100) as Byte, (n / 0x100 % 0x100) as Byte, (n % 0x100) as Byte]
  }

  lemma NetworkRoundTrip(n: nat)
    requires n < TWO_TO_THE_32
    ensures FromNetwork(ToNetwork(n)) == n
  {
    var a, b, c := n / 0x100_0000, n / 0x1_0000, n / 0x100;
    assert b / 0x100 == a && c / 0x100 == b;
  }

  lemma NetworkRoundTripBack(s: seq<Byte>)
    requires |s| == 4
    ensures ToNetwork(FromNetwork(s)) == s
  {
    var n, two := FromNetwork(s), 0x100 * s[0] as nat + s[1] as nat;
    var three := 0x100 * two + s[2] as nat;
    LastByte(n, three, s[3] as nat);
    LastByte(three, two, s[2] as nat);
    LastByte(two, s[0] as nat, s[1] as nat);
    assert n / 0x1_0000 == n / 0x100 / 0x100 && n / 0x100_0000 == n / 0x1_0000 / 0x100;
  }

  lemma LastByte(n: nat, more: nat, last: nat)
    requires n == 0x100 * more + last && last < 0x100
    ensures n / 0x100 == more && n % 0x100 == last
  {
  }

  /** The cast (uint32) of an int. */
  function ToUint32(i: int): nat {
    i % TWO_TO_THE_32
  }

  // ------------------------------------------------------------- what each read yields

  datatype Op = GetByte | GetBytes(len: nat) | GetMessage(maxlen: int)

  /** EOF, or the bytes handed over: the type byte, the buffer, or the message body. */
  type Served = Option<seq<Byte>>

  /** What a read yields from position pos of the input, and how far the cursor then stands. */
  function Serve(input: seq<Byte>, pos: nat, op: Op): (r: (Served, nat))
    requires pos <= |input|
    ensures pos <= r.1 <= |input|
  {
    var left := |input| - pos;
    match op
    case GetByte => if left == 0 then (None, pos) else (Some([input[pos]]), pos + 1)
    case GetBytes(len) => if left < len then (None, pos) else (Some(input[pos..pos + len]), pos + len)
    case GetMessage(maxlen) =>
      if left < 4 then (None, pos)
      else
        var len := FromNetwork(input[pos..pos + 4]);
        if len < 4 || len > ToUint32(maxlen) || left < len then (None, pos + 4)
        else (Some(input[pos + 4..pos + len]), pos + len)
  }

  /** The statics buffer, bufferpointer and buffersize; the pointer is kept as an offset. */
  class Reader {
    const buffer: array<Byte>
    var pointer: nat
    var size: nat

    ghost predicate Valid()
      reads this
    {
      pointer + size == buffer.Length
    }

    constructor (input: array<Byte>)
      ensures Valid() && buffer == input && pointer == 0
    {
      buffer := input;
      pointer, size := 0, input.Length;
    }

    /** __wrap_pq_getbyte. */
    method GetByte() returns (r: Option<Byte>)
      requires Valid()
      modifies this
      ensures Valid()
      ensures
        var (served, pos) := Serve(buffer[..], old(pointer), Op.GetByte);
        pointer == pos && served == if r.None? then None else Some([r.value])
    {
      if size == 0 {
        return None;
      }
      r := Some(buffer[pointer]);
      pointer := pointer + 1;
      size := size - 1;
    }

    /** __wrap_pq_getbytes, into a buffer s of at least len bytes; false is EOF. */
    method GetBytes(s: array<Byte>, len: nat) returns (ok: bool)
      requires Valid() && len <= s.Length && s != buffer
      modifies this, s
      ensures Valid() && s[len..] == old(s[len..])
      ensures
        var (served, pos) := Serve(buffer[..], old(pointer), Op.GetBytes(len));
        && pointer == pos && ok == served.Some?
        && s[..len] == if ok then served.value else old(s[..len])
    {
      if size < len {
        return false;
      }
      forall k | 0 <= k < len {
        s[k] := buffer[pointer + k];
      }
      pointer := pointer + len;
      size := size - len;
      return true;
    }

    /** __wrap_pq_getmessage; body is the StringInfo, which is emptied first. */
    method GetMessage(maxlen: int) returns (ok: bool, body: seq<Byte>)
      requires Valid()
      modifies this
      ensures Valid()
      ensures
        var (served, pos) := Serve(buffer[..], old(pointer), Op.GetMessage(maxlen));
        pointer == pos && ok == served.Some? && body == if ok then served.value else []
    {
      body := [];
      if size < 4 {
        return false, body;
      }
      var len := FromNetwork(buffer[pointer..pointer + 4]);
      pointer := pointer + 4;
      size := size - 4;
      if len < 4 || len > ToUint32(maxlen) {
        return false, body;
      }
      len := len - 4;
      if len > 0 {
        if size < len {
          return false, body;
        }
        body := buffer[pointer..pointer + len];
        pointer := pointer + len;
        size := size - len;
      }
      return true, body;
    }
  }

  // -------------------------------------------------------------------- whole sessions

  /** One read of a session: what it yielded, and the cursor before and after it. */
  datatype Event = Event(op: Op, served: Served, from: nat, to: nat)

  function Session(input: seq<Byte>, pos: nat, ops: seq<Op>): seq<Event>
    requires pos <= |input|
    decreases |ops|
  {
    if ops == [] then []
    else
      var (served, to) := Serve(input, pos, ops[0]);
      [Event(ops[0], served, pos, to)] + Session(input, to, ops[1..])
  }

  /** How many bytes of header a read consumes besides the bytes it hands over. */
  function Header(e: Event): nat {
    if e.op.GetMessage? && e.to > e.from then 4 else 0
  }

  /** Events follow one another without gap or overlap, from one position to another. */
  ghost predicate Chained(input: seq<Byte>, es: seq<Event>, from: nat, to: nat) {
    if es == [] then from == to
    else
      var e := es[0];
      && e.from == from <= e.to <= |input|
      && Chained(input, es[1..], e.to, to)
  }

  /** What a read hands over is the slice of input it consumed, after its header. */
  ghost predicate HandsOverSlice(input: seq<Byte>, e: Event) {
    && e.from <= e.to <= |input|
    && (e.served.Some? ==> e.from + Header(e) <= e.to && e.served.value == input[e.from + Header(e)..e.to])
    && (e.served.None? ==> e.to == e.from + Header(e))
  }

  /** A message with this body starts here, and its length, which counts itself, is allowed. */
  predicate Framed(rest: seq<Byte>, body: seq<Byte>, limit: nat) {
    |body| + 4 <= limit && |body| + 4 < TWO_TO_THE_32 && ToNetwork(|body| + 4) + body <= rest
  }

  /** What a read owes its caller, told from the bytes that lie ahead of the cursor. */
  ghost predicate Owed(rest: seq<Byte>, e: Event) {
    var used := e.to - e.from;
    match e.op
    case GetByte =>
      if rest != [] then e.served == Some(rest[..1]) && used == 1 else e.served == None && used == 0
    case GetBytes(len) =>
      if len <= |rest| then e.served == Some(rest[..len]) && used == len else e.served == None && used == 0
    case GetMessage(maxlen) =>
      match e.served
      case Some(body) => Framed(rest, body, ToUint32(maxlen)) && used == |body| + 4
      case None => (forall body :: !Framed(rest, body, ToUint32(maxlen))) && used == if |rest| < 4 then 0 else 4
  }

  lemma MessageIsOwed(input: seq<Byte>, pos: nat, maxlen: int)
    requires pos <= |input|
    ensures
      var (served, to) := Serve(input, pos, GetMessage(maxlen));
      Owed(input[pos..], Event(GetMessage(maxlen), served, pos, to))
  {
    hide FromNetwork, ToNetwork, Framed;
    var rest := input[pos..];
    forall body | Framed(rest, body, ToUint32(maxlen))
      ensures |body| + 4 <= |rest| && |body| + 4 == FromNetwork(rest[..4]) <= ToUint32(maxlen)
    {
      FramedLength(rest, body, ToUint32(maxlen));
    }
    if |rest| >= 4 {
      assert input[pos..pos + 4] == rest[..4];
      var len := FromNetwork(rest[..4]);
      if 4 <= len <= ToUint32(maxlen) && len <= |rest| {
        assert input[pos + 4..pos + len] == rest[4..len];
        BodyIsFramed(rest, len, ToUint32(maxlen));
      }
    }
  }

  lemma FramedLength(rest: seq<Byte>, body: seq<Byte>, limit: nat)
    requires Framed(rest, body, limit)
    ensures |body| + 4 <= |rest| && |body| + 4 == FromNetwork(rest[..4]) <= limit
  {
    hide FromNetwork, ToNetwork;
    NetworkRoundTrip(|body| + 4);
    assert ToNetwork(|body| + 4) == (ToNetwork(|body| + 4) + body)[..4] == rest[..4];
  }

  lemma BodyIsFramed(rest: seq<Byte>, len: nat, limit: nat)
    requires 4 <= len <= |rest| && len <= limit && len == FromNetwork(rest[..4])
    ensures Framed(rest, rest[4..len], limit)
  {
    hide FromNetwork, ToNetwork;
    NetworkRoundTripBack(rest[..4]);
    assert rest[..len] == rest[..4] + rest[4..len];
  }

  lemma ReadIsOwed(input: seq<Byte>, pos: nat, op: Op)
    requires pos <= |input|
    ensures
      var (served, to) := Serve(input, pos, op);
      var e := Event(op, served, pos, to);
      HandsOverSlice(input, e) && Owed(input[pos..], e)
  {
    match op {
      case GetByte =>
        assert pos < |input| ==> input[pos..][..1] == [input[pos]] == input[pos..pos + 1];
      case GetBytes(len) =>
        assert pos + len <= |input| ==> input[pos..][..len] == input[pos..pos + len];
      case GetMessage(maxlen) =>
        MessageIsOwed(input, pos, maxlen);
    }
  }

  /** In the range of an int, a negative limit is read as a very large one. */
  lemma NegativeLimitWraps(maxlen: int)
    requires -0x8000_0000 <= maxlen < 0x8000_0000
    ensures ToUint32(maxlen) == if maxlen < 0 then maxlen + 0x1_0000_0000 else maxlen
  {
  }

  function End(es: seq<Event>, pos: nat): nat {
    if es == [] then pos else es[|es| - 1].to
  }

  /**
    Arbitrary bytes, any mix of the three readers: consumed and remaining add up to the input,
    and what is handed over are slices of it, in order and disjoint.  A read fails exactly when the
    bytes it wants are not there, or no message of an allowed length; then it hands over nothing and
    consumes nothing but a message header.
  */
  lemma {:induction false} SessionIsFaithful(input: seq<Byte>, pos: nat, ops: seq<Op>)
    requires pos <= |input|
    ensures
      var es := Session(input, pos, ops);
      && End(es, pos) <= |input| && Chained(input, es, pos, End(es, pos))
      && forall i :: 0 <= i < |es| ==> HandsOverSlice(input, es[i]) && Owed(input[es[i].from..], es[i])
    decreases |ops|
  {
    hide Serve, Owed, HandsOverSlice;
    if ops != [] {
      ReadIsOwed(input, pos, ops[0]);
      var to := Serve(input, pos, ops[0]).1;
      SessionIsFaithful(input, to, ops[1..]);
      var es := Session(input, pos, ops);
      assert es[1..] == Session(input, to, ops[1..]);
    }
  }

  // -------------------------------------------------------------- framing round trip

  datatype Message = Message(kind: Byte, body: seq<Byte>)

  function Frame(m: Message): seq<Byte>
    requires |m.body| + 4 < TWO_TO_THE_32
  {
    [m.kind] + ToNetwork(|m.body| + 4) + m.body
  }

  function FrameAll(ms: seq<Message>): seq<Byte>
    requires forall m :: m in ms ==> |m.body| + 4 < TWO_TO_THE_32
  {
    if ms == [] then [] else Frame(ms[0]) + FrameAll(ms[1..])
  }

  /** The reads of a backend's message loop: a type byte and a message for each, then one more byte. */
  function LoopOps(n: nat, maxlen: int): seq<Op> {
    if n == 0 then [GetByte] else [GetByte, GetMessage(maxlen)] + LoopOps(n - 1, maxlen)
  }

  /** What those reads should yield. */
  function LoopServed(ms: seq<Message>): seq<Served> {
    if ms == [] then [None] else [Some([ms[0].kind]), Some(ms[0].body)] + LoopServed(ms[1..])
  }

  function ServedOf(es: seq<Event>): seq<Served> {
    seq(|es|, i requires 0 <= i < |es| => es[i].served)
  }

  lemma ReadFrame(before: seq<Byte>, m: Message, after: seq<Byte>, maxlen: int)
    requires |m.body| + 4 <= maxlen < TWO_TO_THE_32
    ensures
      var input, p := before + (Frame(m) + after), |before|;
      && Serve(input, p, GetByte) == (Some([m.kind]), p + 1)
      && Serve(input, p + 1, GetMessage(maxlen)) == (Some(m.body), p + |Frame(m)|)
  {
    var input, p := before + (Frame(m) + after), |before|;
    NetworkRoundTrip(|m.body| + 4);
    assert input[p + 1..p + 5] == ToNetwork(|m.body| + 4);
    assert input[p + 5..p + 5 + |m.body|] == m.body;
  }

  lemma SessionCons(input: seq<Byte>, pos: nat, op: Op, ops: seq<Op>)
    requires pos <= |input|
    ensures
      var (served, to) := Serve(input, pos, op);
      Session(input, pos, [op] + ops) == [Event(op, served, pos, to)] + Session(input, to, ops)
  {
    assert ([op] + ops)[1..] == ops;
  }

  lemma TwoEvents(e: Event, f: Event, tail: seq<Event>, pos: nat)
    ensures ServedOf([e] + ([f] + tail)) == [e.served, f.served] + ServedOf(tail)
    ensures End([e] + ([f] + tail), pos) == End(tail, f.to)
  {
  }

  /** Framed messages come back as they were, then EOF, with nothing left over. */
  lemma {:induction false} FramesComeBack(before: seq<Byte>, ms: seq<Message>, maxlen: int)
    requires maxlen < TWO_TO_THE_32 && forall m :: m in ms ==> |m.body| + 4 <= maxlen
    ensures
      var input := before + FrameAll(ms);
      var es := Session(input, |before|, LoopOps(|ms|, maxlen));
      ServedOf(es) == LoopServed(ms) && End(es, |before|) == |input|
    decreases |ms|
  {
    hide Serve, ToNetwork, Session;
    var input, p := before + FrameAll(ms), |before|;
    if ms == [] {
      assert [GetByte] + [] == [GetByte];
      SessionCons(input, p, GetByte, []);
      NothingMore(input);
    } else {
      var m, rest := ms[0], FrameAll(ms[1..]);
      var q := p + |Frame(m)|;
      ReadFrame(before, m, rest, maxlen);
      FramesComeBack(before + Frame(m), ms[1..], maxlen);
      assert before + Frame(m) + rest == input;
      var tail := LoopOps(|ms| - 1, maxlen);
      assert LoopOps(|ms|, maxlen) == [GetByte] + ([GetMessage(maxlen)] + tail);
      SessionCons(input, p, GetByte, [GetMessage(maxlen)] + tail);
      SessionCons(input, p + 1, GetMessage(maxlen), tail);
      TwoEvents(Event(GetByte, Some([m.kind]), p, p + 1), Event(GetMessage(maxlen), Some(m.body), p + 1, q),
                Session(input, q, tail), p);
    }
  }

  lemma NothingMore(input: seq<Byte>)
    ensures Serve(input, |input|, GetByte) == (None, |input|) && Session(input, |input|, []) == []
  {
  }
}
