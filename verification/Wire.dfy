/** The events read back: a JSON reader for what the agent writes, and the two ends of the wire together. */
module Wire {
  import opened Options
  import opened ByteStrings
  import opened Pieces
  import opened Framing

  // ---------- a reader ----------

  function HexValue(b: Byte): Option<nat> {
    if 48 <= b <= 57 then Some(b as nat - 48)
    else if 97 <= b <= 102 then Some(b as nat - 87)
    else if 65 <= b <= 70 then Some(b as nat - 55)
    else None
  }

  /** What stands after a reverse solidus and how long it is (section 7 of RFC 8259). Code points above 127 are not
      read: the writer leaves them as they are. */
  function Unescape(s: Bytes): (r: Option<(Byte, nat)>)
    ensures r.Some? ==> 0 < r.value.1 <= |s|
  {
    if s == [] then None
    else if s[0] == 34 || s[0] == 92 || s[0] == 47 then Some((s[0], 1))
    else if s[0] == 98 then Some((8, 1))
    else if s[0] == 102 then Some((12, 1))
    else if s[0] == 110 then Some((10, 1))
    else if s[0] == 114 then Some((13, 1))
    else if s[0] == 116 then Some((9, 1))
    else if s[0] == 117 && |s| >= 5 then
      match (HexValue(s[1]), HexValue(s[2]), HexValue(s[3]), HexValue(s[4]))
      case (Some(a), Some(b), Some(c), Some(d)) =>
        var code := 4096 * a + 256 * b + 16 * c + d;
        if code < 128 then Some((code as Byte, 5)) else None
      case _ => None
    else None
  }

  function Cons(b: Byte, r: Option<(Bytes, Bytes)>): (r': Option<(Bytes, Bytes)>)
    ensures r'.Some? <==> r.Some?
    ensures r'.Some? ==> r'.value.1 == r.value.1
  {
    match r
    case Some((w, rest)) => Some(([b] + w, rest))
    case None => None
  }

  /** A string after its opening quotation mark; control characters may not stand there as they are. */
  function ReadString(s: Bytes): (r: Option<(Bytes, Bytes)>)
    ensures r.Some? ==> |r.value.1| < |s|
  {
    if s == [] || s[0] < 32 then None
    else if s[0] == 34 then Some(([], s[1..]))
    else if s[0] == 92 then
      match Unescape(s[1..])
      case None => None
      case Some((b, n)) => Cons(b, ReadString(s[1 + n..]))
    else Cons(s[0], ReadString(s[1..]))
  }

  predicate IsDigit(b: Byte) { 48 <= b <= 57 }

  function ReadDigits(s: Bytes, acc: nat): (r: (nat, Bytes))
    ensures |r.1| <= |s|
  {
    if s != [] && IsDigit(s[0]) then ReadDigits(s[1..], 10 * acc + (s[0] as nat - 48)) else (acc, s)
  }

  /** A natural number: no leading zeros (section 6). */
  function ReadNat(s: Bytes): (r: Option<(nat, Bytes)>)
    ensures r.Some? ==> |r.value.1| < |s|
  {
    if s == [] || !IsDigit(s[0]) then None
    else if s[0] == 48 then Some((0, s[1..]))
    else Some(ReadDigits(s[1..], s[0] as nat - 48))
  }

  /** A value of the kinds events are made of. No blank is read between tokens: the writer prints none. */
  function ReadValue(s: Bytes): (r: Option<(Json, Bytes)>)
    ensures r.Some? ==> |r.value.1| < |s|
    decreases |s|, 0
  {
    if s == [] then None
    else if s[0] == 34 then
      match ReadString(s[1..])
      case Some((w, rest)) => Some((Str(w), rest))
      case None => None
    else if s[0] == 91 then
      if |s| > 1 && s[1] == 93 then Some((Arr([]), s[2..]))
      else match ReadItems(s[1..])
        case Some((items, rest)) => Some((Arr(items), rest))
        case None => None
    else if s[0] == 123 then
      if |s| > 1 && s[1] == 125 then Some((Obj([]), s[2..]))
      else match ReadFields(s[1..])
        case Some((fields, rest)) => Some((Obj(fields), rest))
        case None => None
    else if s[0] == 45 then
      match ReadNat(s[1..])
      case Some((n, rest)) => Some((Num(-(n as int)), rest))
      case None => None
    else
      match ReadNat(s)
      case Some((n, rest)) => Some((Num(n), rest))
      case None => None
  }

  /** The rest of an array, from its next value on. */
  function ReadItems(s: Bytes): (r: Option<(seq<Json>, Bytes)>)
    ensures r.Some? ==> |r.value.1| < |s|
    decreases |s|, 1
  {
    match ReadValue(s)
    case None => None
    case Some((j, rest)) =>
      if rest != [] && rest[0] == 93 then Some(([j], rest[1..]))
      else if rest != [] && rest[0] == 44 then
        match ReadItems(rest[1..])
        case Some((js, rest')) => Some(([j] + js, rest'))
        case None => None
      else None
  }

  /** The rest of an object, from its next name on. */
  function ReadFields(s: Bytes): (r: Option<(seq<(Bytes, Json)>, Bytes)>)
    ensures r.Some? ==> |r.value.1| < |s|
    decreases |s|, 1
  {
    if s == [] || s[0] != 34 then None
    else match ReadString(s[1..])
      case None => None
      case Some((name, rest)) =>
        if rest == [] || rest[0] != 58 then None
        else match ReadValue(rest[1..])
          case None => None
          case Some((j, after)) =>
            if after != [] && after[0] == 125 then Some(([(name, j)], after[1..]))
            else if after != [] && after[0] == 44 then
              match ReadFields(after[1..])
              case Some((fs, rest')) => Some(([(name, j)] + fs, rest'))
              case None => None
            else None
  }

  // ---------- round trips ----------

  lemma HexReads(d: int)
    requires 0 <= d < 16
    ensures HexValue(Hex(d)) == Some(d)
  {
  }

  lemma EscapeReads(b: Byte, t: Bytes)
    ensures ReadString(Escape(b) + t) == Cons(b, ReadString(t))
  {
    var e := Escape(b);
    var s := e + t;
    assert s[|e|..] == t;
    if e[0] == 92 {
      var u := s[1..];
      if |e| == 2 {
        assert u[0] == e[1] && u[1..] == t;
      } else {
        assert u[0] == 117 && u[1] == 48 && u[2] == 48 && u[3] == e[4] && u[4] == e[5] && s[6..] == t;
        HexReads(b as int / 16);
        HexReads(b as int % 16);
      }
    }
  }

  lemma {:induction false} StringReads(s: Bytes, rest: Bytes)
    ensures ReadString(EscapeAll(s) + ([34] + rest)) == Some((s, rest))
  {
    hide Escape;
    if s == [] {
      assert EscapeAll(s) + ([34] + rest) == [34] + rest;
    } else {
      var tail := EscapeAll(s[1..]) + ([34] + rest);
      StringReads(s[1..], rest);
      assert EscapeAll(s) + ([34] + rest) == Escape(s[0]) + tail;
      EscapeReads(s[0], tail);
      assert [s[0]] + s[1..] == s;
    }
  }

  predicate NoDigit(s: Bytes) { s == [] || !IsDigit(s[0]) }

  lemma {:induction false} DigitsRead(n: nat, rest: Bytes)
    ensures ReadDigits(Decimal(n) + rest, 0) == ReadDigits(rest, n)
    ensures Decimal(n) != [] && IsDigit(Decimal(n)[0]) && (Decimal(n)[0] == 48 <==> n == 0)
  {
    var d := (48 + n % 10) as Byte;
    if n < 10 {
      assert (Decimal(n) + rest)[1..] == rest;
    } else {
      DigitsRead(n / 10, [d] + rest);
      assert Decimal(n) + rest == Decimal(n / 10) + ([d] + rest);
      assert ([d] + rest)[1..] == rest;
    }
  }

  lemma ZeroDecimal()
    ensures Decimal(0) == [48]
  {
  }

  lemma NatReads(n: nat, rest: Bytes)
    requires NoDigit(rest)
    ensures ReadNat(Decimal(n) + rest) == Some((n, rest))
  {
    hide Decimal;
    DigitsRead(n, rest);
    var s := Decimal(n) + rest;
    assert s[0] == Decimal(n)[0];
    if n == 0 { ZeroDecimal(); assert s[1..] == rest; }
  }

  /** Whatever is written is read back, and nothing of what follows is consumed. */
  lemma ValueReads(j: Json, rest: Bytes)
    requires j.Num? ==> NoDigit(rest)
    ensures ReadValue(Encode(j) + rest) == Some((j, rest))
    decreases j, 0
  {
    hide Decimal, EscapeAll, ReadString, ReadNat;
    var s := Encode(j) + rest;
    match j
    case Str(w) =>
      assert s[1..] == EscapeAll(w) + ([34] + rest);
      StringReads(w, rest);
    case Num(n) =>
      if n < 0 {
        assert s[1..] == Decimal(-n) + rest;
        NatReads(-n, rest);
      } else {
        DigitsRead(n, rest);
        assert s[0] == Decimal(n)[0];
        NatReads(n, rest);
      }
    case Arr(items) => ArrayReads(items, rest);
    case Obj(fields) => ObjectReads(fields, rest);
  }

  lemma NothingEncoded()
    ensures EncodeItems([]) == [] && EncodeFields([]) == []
  {
  }

  lemma FirstOfItems(items: seq<Json>)
    requires items != []
    ensures EncodeItems(items) != [] && EncodeItems(items)[0] != 93
  {
    var e := Encode(items[0]);
    if items[0].Num? { DigitsRead(if items[0].n < 0 then -items[0].n else items[0].n, []); }
    assert e != [] && e[0] != 93;
    assert EncodeItems(items)[0] == e[0];
  }

  lemma ArrayReads(items: seq<Json>, rest: Bytes)
    ensures ReadValue(Encode(Arr(items)) + rest) == Some((Arr(items), rest))
    decreases items, 2
  {
    hide ReadItems, EncodeItems;
    var s := Encode(Arr(items)) + rest;
    assert s[1..] == EncodeItems(items) + ([93] + rest);
    if items == [] {
      assert EncodeItems(items) == [] by { NothingEncoded(); }
      assert s[1..] == [93] + rest && s[2..] == rest;
    } else {
      ItemsRead(items, rest);
      FirstOfItems(items);
      assert s[1] == EncodeItems(items)[0];
    }
  }

  lemma Regroup(name: Bytes, value: Bytes, sep: Bytes, rest: Bytes, end: Bytes)
    ensures [34] + name + [34, 58] + value + sep + rest + end
         == [34] + (name + ([34] + ([58] + (value + (sep + rest + end)))))
  {
    var t := sep + rest + end;
    var u := value + t;
    assert [34] + name + [34, 58] + value + sep + rest + end == ([34] + name + [34, 58] + value) + t;
    assert ([34] + name + [34, 58] + value) + t == ([34] + name + [34, 58]) + u;
    assert [34, 58] + u == [34] + ([58] + u);
    assert ([34] + name + [34, 58]) + u == ([34] + name) + ([34, 58] + u);
    assert ([34] + name) + ([34, 58] + u) == [34] + (name + ([34, 58] + u));
  }

  lemma FieldsEncode(fields: seq<(Bytes, Json)>, end: Bytes)
    requires fields != []
    ensures var t := (if |fields| == 1 then [] else [44] + EncodeFields(fields[1..])) + end;
      EncodeFields(fields) + end
        == [34] + (EscapeAll(fields[0].0) + ([34] + ([58] + (Encode(fields[0].1) + t))))
  {
    hide Encode, EscapeAll;
    var rest := EncodeFields(fields[1..]);
    var sep := if |fields| == 1 then [] else [44];
    Regroup(EscapeAll(fields[0].0), Encode(fields[0].1), sep, rest, end);
    assert |fields| == 1 ==> sep + rest == [];
  }

  lemma ObjectReads(fields: seq<(Bytes, Json)>, rest: Bytes)
    ensures ReadValue(Encode(Obj(fields)) + rest) == Some((Obj(fields), rest))
    decreases fields, 2
  {
    hide ReadFields, EncodeFields;
    var s := Encode(Obj(fields)) + rest;
    assert s[1..] == EncodeFields(fields) + ([125] + rest);
    if fields == [] {
      assert EncodeFields(fields) == [] by { NothingEncoded(); }
      assert s[1..] == [125] + rest && s[2..] == rest;
    } else {
      FieldsRead(fields, rest);
      FieldsEncode(fields, [125] + rest);
      assert s[1] == (EncodeFields(fields) + ([125] + rest))[0] == 34;
    }
  }

  lemma RegroupItem(first: Bytes, rest: Bytes, end: Bytes)
    ensures first + [44] + rest + end == first + ([44] + (rest + end))
    ensures rest == [] ==> first + [] + rest + end == first + end
  {
  }

  lemma ItemsEncode(items: seq<Json>, end: Bytes)
    requires items != []
    ensures EncodeItems(items) + end
         == Encode(items[0]) + if |items| == 1 then end else [44] + (EncodeItems(items[1..]) + end)
  {
    hide Encode;
    var rest := EncodeItems(items[1..]);
    assert |items| == 1 ==> rest == [];
    RegroupItem(Encode(items[0]), rest, end);
  }

  lemma OneItemReads(j: Json, t: Bytes)
    requires t != [] && !IsDigit(t[0])
    ensures ReadItems(Encode(j) + t) ==
      if t[0] == 93 then Some(([j], t[1..]))
      else if t[0] == 44 then
        match ReadItems(t[1..])
        case Some((js, rest)) => Some(([j] + js, rest))
        case None => None
      else None
    decreases j, 1
  {
    hide ReadValue, Encode;
    ValueReads(j, t);
  }

  lemma {:induction false} ItemsRead(items: seq<Json>, rest: Bytes)
    requires items != []
    ensures ReadItems(EncodeItems(items) + ([93] + rest)) == Some((items, rest))
    decreases items, 1
  {
    hide ReadItems, Encode, EncodeItems;
    ItemsEncode(items, [93] + rest);
    if |items| == 1 {
      assert ([93] + rest)[1..] == rest && [items[0]] == items;
      OneItemReads(items[0], [93] + rest);
    } else {
      var more := EncodeItems(items[1..]) + ([93] + rest);
      assert ([44] + more)[1..] == more;
      OneItemReads(items[0], [44] + more);
      ItemsRead(items[1..], rest);
      assert [items[0]] + items[1..] == items;
    }
  }

  lemma OneFieldReads(name: Bytes, j: Json, t: Bytes)
    requires t != [] && !IsDigit(t[0])
    ensures var s := [34] + (EscapeAll(name) + ([34] + ([58] + (Encode(j) + t))));
      ReadFields(s) ==
        if t[0] == 125 then Some(([(name, j)], t[1..]))
        else if t[0] == 44 then
          match ReadFields(t[1..])
          case Some((fs, rest)) => Some(([(name, j)] + fs, rest))
          case None => None
        else None
    decreases j, 1
  {
    hide ReadValue, ReadString, Encode, EscapeAll;
    var value := [58] + (Encode(j) + t);
    var s := [34] + (EscapeAll(name) + ([34] + value));
    assert s[1..] == EscapeAll(name) + ([34] + value);
    StringReads(name, value);
    assert value[1..] == Encode(j) + t;
    ValueReads(j, t);
  }

  lemma {:induction false} FieldsRead(fields: seq<(Bytes, Json)>, rest: Bytes)
    requires fields != []
    ensures ReadFields(EncodeFields(fields) + ([125] + rest)) == Some((fields, rest))
    decreases fields, 1
  {
    hide ReadFields, Encode, EscapeAll, EncodeFields;
    assert fields[0].1 < fields[0];
    FieldsEncode(fields, [125] + rest);
    if |fields| == 1 {
      assert [] + ([125] + rest) == [125] + rest && ([125] + rest)[1..] == rest && [fields[0]] == fields;
      OneFieldReads(fields[0].0, fields[0].1, [125] + rest);
    } else {
      var more := EncodeFields(fields[1..]) + ([125] + rest);
      assert [44] + EncodeFields(fields[1..]) + ([125] + rest) == [44] + more && ([44] + more)[1..] == more;
      OneFieldReads(fields[0].0, fields[0].1, [44] + more);
      FieldsRead(fields[1..], rest);
      assert [fields[0]] + fields[1..] == fields;
    }
  }

  // ---------- the two ends ----------

  /** For every way the written bytes arrive, each line reads back as its event, whole. */
  lemma EventsReadBack(es: seq<Json>, rs: seq<Read>)
    requires Stream(rs) == Written(es)
    ensures var lines := Delivered(Stream(rs), Fails(rs));
      |lines| == |es| && forall i :: 0 <= i < |es| ==> ReadValue(lines[i]) == Some((es[i], []))
  {
    hide ReadValue, Encode, Delivered, Written;
    EventsDelivered(es, rs);
    forall i | 0 <= i < |es| ensures ReadValue(Encode(es[i])) == Some((es[i], [])) {
      ValueReads(es[i], []);
      assert Encode(es[i]) + [] == Encode(es[i]);
    }
  }

  lemma {:induction false} WrittenThen(es: seq<Json>, part: Bytes)
    ensures Written(es) + part == Join(Encoded(es) + [part], NEWLINE)
  {
    hide Encode;
    if es == [] {
      assert Written(es) + part == part && Encoded(es) + [part] == [part];
    } else {
      WrittenThen(es[1..], part);
      assert (Encoded(es) + [part])[1..] == Encoded(es[1..]) + [part];
      assert Written(es) + part == Encode(es[0]) + [NEWLINE] + (Written(es[1..]) + part);
    }
  }

  /** When the stream breaks off inside a line, a failure delivers the whole events alone; an orderly end hands over
      the broken line as well. */
  lemma BrokenLine(es: seq<Json>, part: Bytes, rs: seq<Read>)
    requires Stream(rs) == Written(es) + part && part != [] && NEWLINE !in part
    ensures Delivered(Stream(rs), Fails(rs)) == Encoded(es) + if Fails(rs) then [] else [part]
  {
    var ps := Encoded(es);
    forall p | p in ps ensures NEWLINE !in p && p != [] {
      var i :| 0 <= i < |ps| && ps[i] == p;
      EncodePlain(es[i]);
    }
    WrittenThen(es, part);
    SplitOfJoin(ps + [part], NEWLINE);
    assert ButLast(ps + [part]) == ps;
    NonEmptyConcat(ps, [part]);
    NonEmptyAll(ps);
    NonEmptyAll([part]);
    assert ps + [] == ps;
  }
}
