/** Event framing: one JSON object a line on the agent's side, lines reassembled from reads of any size
    on the CLI's side. */
module Framing {
  import opened ByteStrings
  import opened Pieces

  const NEWLINE: Byte := 10

  // ---------- lines ----------

  function Lines(s: Bytes): (ps: seq<Bytes>)
    ensures ps != []
  {
    Split(s, NEWLINE)
  }

  function NonEmpty(ps: seq<Bytes>): seq<Bytes> {
    if ps == [] then [] else (if ps[0] == [] then [] else [ps[0]]) + NonEmpty(ps[1..])
  }

  lemma NonEmptyConcat(a: seq<Bytes>, b: seq<Bytes>)
    ensures NonEmpty(a + b) == NonEmpty(a) + NonEmpty(b)
  {
    if a == [] {
      assert a + b == b;
    } else {
      assert (a + b)[1..] == a[1..] + b;
    }
  }

  // ---------- reading ----------

  /** One return of `Read`: some bytes, possibly none, possibly together with the end or an error. */
  datatype End = More | Eof | Failed
  datatype Read = Read(data: Bytes, end: End)

  /** The bytes that arrive before the stream ends; a source that just stops counts as ended. */
  function Stream(rs: seq<Read>): Bytes {
    if rs == [] then []
    else rs[0].data + (if rs[0].end.More? then Stream(rs[1..]) else [])
  }

  predicate Fails(rs: seq<Read>) {
    rs != [] && (rs[0].end.Failed? || (rs[0].end.More? && Fails(rs[1..])))
  }

  /** The lines a stream delivers: every non-empty piece, except that a failed stream keeps back
      the piece it broke off in. */
  function Delivered(s: Bytes, failed: bool): seq<Bytes> {
    NonEmpty(if failed then ButLast(Lines(s)) else Lines(s))
  }

  lemma LastOfNonEmpty(ps: seq<Bytes>)
    requires ps != []
    ensures NonEmpty(ps) == NonEmpty(ButLast(ps)) + (if Last(ps) == [] then [] else [Last(ps)])
  {
    assert ps == ButLast(ps) + [Last(ps)];
    NonEmptyConcat(ButLast(ps), [Last(ps)]);
    assert [Last(ps)][1..] == [];
  }

  lemma DeliveredWhole(s: Bytes)
    ensures Delivered(s, false) == NonEmpty(ButLast(Lines(s))) + (if Last(Lines(s)) == [] then [] else [Last(Lines(s))])
  {
    hide Lines;
    LastOfNonEmpty(Lines(s));
  }

  /** The inner loop: emit every complete line of the buffer and slide it past them. */
  method Drain(buffer: Bytes, sent: seq<Bytes>) returns (lines: seq<Bytes>, buf: Bytes)
    ensures lines == sent + NonEmpty(ButLast(Lines(buffer))) && buf == Last(Lines(buffer))
  {
    lines, buf := sent, buffer;
    while true
      invariant lines + NonEmpty(ButLast(Lines(buf))) == sent + NonEmpty(ButLast(Lines(buffer)))
      invariant Last(Lines(buf)) == Last(Lines(buffer))
      decreases |buf|
    {
      var i := IndexOf(buf, NEWLINE);
      if i == |buf| { break; }
      var line := buf[..i];
      var rest := Lines(buf[i + 1..]);
      assert Lines(buf) == [line] + rest && ButLast(Lines(buf)) == [line] + ButLast(rest);
      NonEmptyConcat([line], ButLast(rest));
      if |line| > 0 { lines := lines + [line]; }
      buf := buf[i + 1..];
    }
    assert Lines(buf) == [buf];
  }

  lemma Appended(s: Bytes, data: Bytes)
    ensures var buf := Last(Lines(s)) + data;
      && Last(Lines(s + data)) == Last(Lines(buf))
      && NonEmpty(ButLast(Lines(s + data))) == NonEmpty(ButLast(Lines(s))) + NonEmpty(ButLast(Lines(buf)))
  {
    var buf := Last(Lines(s)) + data;
    SplitConcat(s, data, NEWLINE);
    assert ButLast(Lines(s + data)) == ButLast(Lines(s)) + ButLast(Lines(buf));
    NonEmptyConcat(ButLast(Lines(s)), ButLast(Lines(buf)));
  }

  lemma SplitNothing()
    ensures Last(Lines([])) == [] && NonEmpty(ButLast(Lines([]))) == []
  {
  }

  /** `streamLines`: lines are what onLine is called with, in order. However the stream is cut into reads,
      they depend on the stream alone. */
  method StreamLines(rs: seq<Read>) returns (lines: seq<Bytes>, err: bool)
    ensures err == Fails(rs)
    ensures lines == Delivered(Stream(rs), err)
  {
    hide Lines, NonEmpty, ButLast, Last;
    lines, err := [], false;
    var buf: Bytes := [];
    ghost var s: Bytes := [];
    SplitNothing();
    assert [] + Stream(rs) == Stream(rs) && rs[0..] == rs;
    var i := 0;
    while i < |rs|
      invariant 0 <= i <= |rs| && !err
      invariant s + Stream(rs[i..]) == Stream(rs)
      invariant Fails(rs) == Fails(rs[i..])
      invariant buf == Last(Lines(s)) && lines == NonEmpty(ButLast(Lines(s)))
    {
      var r := rs[i];
      assert rs[i..][0] == r && rs[i..][1..] == rs[i + 1..];
      assert (s + r.data) + (if r.end.More? then Stream(rs[i + 1..]) else []) == Stream(rs);
      Appended(s, r.data);
      if |r.data| > 0 {
        lines, buf := Drain(buf + r.data, lines);
      } else {
        assert s + r.data == s;
      }
      s := s + r.data;
      i := i + 1;
      assert s + [] == s;
      if r.end.Eof? {
        DeliveredWhole(s);
        if |buf| > 0 { lines := lines + [buf]; }
        return;
      }
      if r.end.Failed? { return lines, true; }
    }
    assert rs[i..] == [] && s + [] == s;
    DeliveredWhole(s);
    if |buf| > 0 { lines := lines + [buf]; }
  }

  // ---------- writing ----------

  /** The JSON values events are made of. */
  datatype Json =
    | Str(s: Bytes)
    | Num(n: int)
    | Arr(items: seq<Json>)
    | Obj(fields: seq<(Bytes, Json)>)

  function Hex(d: int): Byte
    requires 0 <= d < 16
  {
    if d < 10 then (48 + d) as Byte else (87 + d) as Byte
  }

  /** One byte inside a JSON string: quotation mark, reverse solidus and control characters are escaped
      (section 7 of RFC 8259), and so are `<`, `>` and `&`. */
  function Escape(b: Byte): Bytes {
    if b == 34 || b == 92 then [92, b]
    else if b == 8 then [92, 98]
    else if b == 9 then [92, 116]
    else if b == 10 then [92, 110]
    else if b == 12 then [92, 102]
    else if b == 13 then [92, 114]
    else if b < 32 || b == 60 || b == 62 || b == 38 then [92, 117, 48, 48, Hex(b as int / 16), Hex(b as int % 16)]
    else [b]
  }

  function EscapeAll(s: Bytes): Bytes {
    if s == [] then [] else Escape(s[0]) + EscapeAll(s[1..])
  }

  function Decimal(n: nat): Bytes {
    if n < 10 then [(48 + n) as Byte] else Decimal(n / 10) + [(48 + n % 10) as Byte]
  }

  function Encode(j: Json): Bytes
    decreases j
  {
    match j
    case Str(s) => [34] + EscapeAll(s) + [34]
    case Num(n) => if n < 0 then [45] + Decimal(-n) else Decimal(n)
    case Arr(items) => [91] + EncodeItems(items) + [93]
    case Obj(fields) => [123] + EncodeFields(fields) + [125]
  }

  function EncodeItems(items: seq<Json>): Bytes
    decreases items
  {
    if items == [] then []
    else Encode(items[0]) + (if |items| == 1 then [] else [44]) + EncodeItems(items[1..])
  }

  function EncodeFields(fields: seq<(Bytes, Json)>): Bytes
    decreases fields
  {
    if fields == [] then []
    else
      assert fields[0].1 < fields[0];
      [34] + EscapeAll(fields[0].0) + [34, 58] + Encode(fields[0].1)
      + (if |fields| == 1 then [] else [44]) + EncodeFields(fields[1..])
  }

  /** Neither a control character nor `<`, `>` or `&`. */
  predicate Plain(b: Byte) { b >= 32 && b != 60 && b != 62 && b != 38 }

  predicate AllPlain(s: Bytes) { forall b :: b in s ==> Plain(b) }

  lemma {:induction false} EscapePlain(s: Bytes)
    ensures AllPlain(EscapeAll(s))
  {
    if s != [] { EscapePlain(s[1..]); }
  }

  lemma {:induction false} DecimalPlain(n: nat)
    ensures AllPlain(Decimal(n)) && Decimal(n) != []
  {
    if n >= 10 { DecimalPlain(n / 10); }
  }

  /** No encoded value holds a raw newline, any other control character or a character HTML gives a meaning to, and
      none is empty. */
  lemma EncodePlain(j: Json)
    ensures AllPlain(Encode(j)) && NEWLINE !in Encode(j) && Encode(j) != []
    decreases j
  {
    match j
    case Str(s) => EscapePlain(s);
    case Num(n) => DecimalPlain(if n < 0 then -n else n);
    case Arr(items) => ItemsPlain(items);
    case Obj(fields) => FieldsPlain(fields);
  }

  lemma {:induction false} ItemsPlain(items: seq<Json>)
    ensures AllPlain(EncodeItems(items))
    decreases items
  {
    if items != [] {
      EncodePlain(items[0]);
      ItemsPlain(items[1..]);
    }
  }

  lemma {:induction false} FieldsPlain(fields: seq<(Bytes, Json)>)
    ensures AllPlain(EncodeFields(fields))
    decreases fields
  {
    if fields != [] {
      assert fields[0].1 < fields[0];
      EscapePlain(fields[0].0);
      EncodePlain(fields[0].1);
      FieldsPlain(fields[1..]);
    }
  }

  function Written(es: seq<Json>): Bytes {
    if es == [] then [] else Encode(es[0]) + [NEWLINE] + Written(es[1..])
  }

  function Encoded(es: seq<Json>): (r: seq<Bytes>)
    ensures |r| == |es|
  {
    seq(|es|, i requires 0 <= i < |es| => Encode(es[i]))
  }

  lemma {:induction false} WrittenSnoc(es: seq<Json>, ev: Json)
    ensures Written(es + [ev]) == Written(es) + (Encode(ev) + [NEWLINE])
  {
    hide Encode;
    if es == [] {
      assert [ev][1..] == [];
    } else {
      assert (es + [ev])[1..] == es[1..] + [ev];
      WrittenSnoc(es[1..], ev);
    }
  }

  lemma {:induction false} WrittenIsJoin(es: seq<Json>)
    ensures Written(es) == Join(Encoded(es) + [[]], NEWLINE)
  {
    if es == [] {
    } else {
      WrittenIsJoin(es[1..]);
      assert (Encoded(es) + [[]])[1..] == Encoded(es[1..]) + [[]];
    }
  }

  lemma {:induction false} NonEmptyAll(ps: seq<Bytes>)
    requires forall p :: p in ps ==> p != []
    ensures NonEmpty(ps) == ps
  {
    if ps != [] {
      assert ps[0] in ps && forall p :: p in ps[1..] ==> p in ps;
      NonEmptyAll(ps[1..]);
    }
  }

  /** Whatever is written as events is delivered as exactly those events' lines, for every way the bytes
      may be cut into reads, and whether the stream ends well or fails after the last one. */
  lemma EventsDelivered(es: seq<Json>, rs: seq<Read>)
    requires Stream(rs) == Written(es)
    ensures Delivered(Stream(rs), Fails(rs)) == Encoded(es)
  {
    var ps := Encoded(es);
    forall p | p in ps ensures NEWLINE !in p && p != [] {
      var i :| 0 <= i < |ps| && ps[i] == p;
      EncodePlain(es[i]);
    }
    WrittenIsJoin(es);
    SplitOfJoin(ps + [[]], NEWLINE);
    assert ButLast(ps + [[]]) == ps;
    NonEmptyConcat(ps, [[]]);
    NonEmptyAll(ps);
  }

  /** The agent's side. `events` is what has been written so far. */
  class EventWriter {
    var out: Bytes
    ghost var events: seq<Json>

    ghost predicate Valid()
      reads this
    {
      out == Written(events)
    }

    constructor ()
      ensures Valid() && events == []
    {
      out, events := [], [];
    }

    /** A reader that gets the writer's output, cut up in any way, delivers one more line: the new event's. */
    method Write(ev: Json)
      requires Valid()
      modifies this
      ensures Valid() && events == old(events) + [ev]
      ensures forall rs :: Stream(rs) == out ==> Delivered(Stream(rs), Fails(rs)) == Encoded(old(events)) + [Encode(ev)]
    {
      var b := Encode(ev);
      b := b + [NEWLINE];
      out := out + b;
      WrittenSnoc(events, ev);
      events := events + [ev];
      forall rs | Stream(rs) == out ensures Delivered(Stream(rs), Fails(rs)) == Encoded(events) {
        EventsDelivered(events, rs);
      }
    }
  }
}
