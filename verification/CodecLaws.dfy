/** The laws of the wire format: concatenation, unknown records, round trip, sizes, equality. */
module CodecLaws {
  import opened MachineInts
  import opened Options
  import opened Varint
  import opened Wire
  import opened Codec

  // ---------- concatenation is merge ----------

  /** A successful parse does not depend on the index it starts at. */
  lemma {:induction false} ParseAnywhere(m: Message, s: seq<byte>, at: nat, there: nat)
    requires at + |s| < TWO_63 && there + |s| < TWO_63 && Parse(m, s, at).Ok?
    ensures Parse(m, s, there) == Parse(m, s, at)
    decreases |s|
  {
    hide NextRecord, Apply;
    if s != [] {
      var r := NextRecord(m, s, at).value;
      RecordAnywhere(m, m, s, at, there);
      ParseAnywhere(Apply(m, r).value, s[r.length..], at + r.length, there + r.length);
    }
  }

  /** Reading a then b is reading b into what a left behind, down to the error reported. */
  lemma {:induction false} ParseConcat(m: Message, a: seq<byte>, b: seq<byte>, at: nat)
    requires at + |a| + |b| < TWO_63 && Parse(m, a, at).Ok?
    ensures Parse(m, a + b, at) == Parse(Parse(m, a, at).value, b, at + |a|)
    decreases |a|
  {
    hide NextRecord, Apply;
    if a == [] {
      assert a + b == b;
    } else {
      var r := NextRecord(m, a, at).value;
      RecordExtend(m, a, b, at);
      assert (a + b)[r.length..] == a[r.length..] + b;
      ParseConcat(Apply(m, r).value, a[r.length..], b, at + r.length);
    }
  }

  /** Concatenating two encodings merges them: b is applied on top of a. */
  lemma ConcatIsMerge(m: Message, a: seq<byte>, b: seq<byte>)
    requires |a| + |b| < TWO_63 && Parse(m, a, 0).Ok?
    ensures SameOutcome(Parse(m, a + b, 0), Parse(Parse(m, a, 0).value, b, 0))
  {
    hide Parse;
    var n := Parse(m, a, 0).value;
    ParseConcat(m, a, b, 0);
    if Parse(n, b, 0).Ok? {
      ParseAnywhere(n, b, 0, |a|);
    } else if Parse(n, b, |a|).Ok? {
      ParseAnywhere(n, b, |a|, 0);
    }
  }

  /** A second `LastMSG` is merged into the first one: the outcome is that of one record holding both. */
  lemma RepeatedBlocksMerge(m: Snap, p: seq<byte>, q: seq<byte>)
    requires |p| + |q| < TWO_63 && SetBlock(S(m), 2, p).Ok?
    ensures SameOutcome(SetBlock(SetBlock(S(m), 2, p).value, 2, q), SetBlock(S(m), 2, p + q))
  {
    var last := if m.lastMSG.None? then FRESH1 else m.lastMSG.value;
    ConcatIsMerge(M1(last), p, q);
    hide Parse;
    var merged := Parse(M1(last), p, 0).value;
    assert SetBlock(S(m), 2, p).value.snap.lastMSG == Some(merged.m1);
  }

  // ---------- unknown records ----------

  /** u is one well-formed record under a field number that messages of m's type do not have. */
  ghost predicate IsUnknownField(m: Message, u: seq<byte>) {
    && IsRecord(u)
    && ReadVarint(u).Ok?
    && var field := ToInt32(ReadVarint(u).value.value / 8);
       field > 0 && KindOf(m, field).Unknown?
  }

  lemma UnknownIsSkipped(m: Message, u: seq<byte>)
    requires |u| < TWO_63 && IsUnknownField(m, u)
    ensures NextRecord(m, u, 0) == Ok(UnknownRecord(|u|))
  {
    hide SkipFrom, Scan;
    assert u[..|u|] == u;
    SkipIsGrammar(u, |u|);
  }

  /** An unknown record parses to no change. */
  lemma UnknownChangesNothing(m: Message, u: seq<byte>)
    requires |u| < TWO_63 && IsUnknownField(m, u)
    ensures Parse(m, u, 0) == Ok(m)
  {
    hide NextRecord;
    UnknownIsSkipped(m, u);
  }

  /** Inserting an unknown record at a record boundary changes nothing. */
  lemma UnknownInsertion(m: Message, a: seq<byte>, u: seq<byte>, b: seq<byte>)
    requires |a| + |u| + |b| < TWO_63 && Parse(m, a, 0).Ok? && IsUnknownField(m, u)
    ensures SameOutcome(Parse(m, a + u + b, 0), Parse(m, a + b, 0))
  {
    hide Parse;
    var n := Parse(m, a, 0).value;
    assert IsUnknownField(n, u) by { hide IsRecord; }
    UnknownChangesNothing(n, u);
    assert a + u + b == a + (u + b);
    ConcatIsMerge(m, a, u + b);
    ConcatIsMerge(n, u, b);
    ConcatIsMerge(m, a, b);
  }

  // ---------- reading one field back ----------

  /** A one-byte tag in front of any input. */
  lemma ReadTag(tag: byte, s: seq<byte>)
    requires tag < 128
    ensures ReadVarint([tag] + s) == Ok(Read(tag, 1))
  {
  }

  lemma FieldOfTag(field: nat, wireType: nat)
    requires 1 <= field < 16 && wireType < 8
    ensures ToInt32((8 * field + wireType) / 8) == field && (8 * field + wireType) % 8 == wireType
  {
  }

  /** Peeling the first record off an input. */
  lemma ParseFirst(m: Message, x: seq<byte>, at: nat, r: Record, n: Message, s: seq<byte>)
    requires at + |x| < TWO_63 && x != [] && NextRecord(m, x, at) == Ok(r)
    requires (r.BlockRecord? ==> |r.payload| < TWO_63) && Apply(m, r) == Ok(n) && x[r.length..] == s
    ensures Parse(m, x, at) == Parse(n, s, at + r.length)
  {
    hide NextRecord, Apply;
  }

  lemma ScalarRead(m: Message, field: nat, v: int64, s: seq<byte>, at: nat)
    requires 1 <= field < 16 && KindOf(m, field).Scalar? && v != 0
    requires at + |EncodeScalar(field, v)| + |s| < TWO_63
    ensures NextRecord(m, EncodeScalar(field, v) + s, at) == Ok(ScalarRecord(field, v, |EncodeScalar(field, v)|))
  {
    hide Scan, EncodeVarint, SkipFrom;
    var u := EncodeVarint(ToUint64(v));
    var x := EncodeScalar(field, v) + s;
    assert x == [8 * field] + (u + s);
    assert x[1..] == u + s;
    ReadTag(8 * field, u + s);
    FieldOfTag(field, 0);
    ReadEncoded(ToUint64(v), s);
  }

  lemma ParseScalar(m: Message, field: nat, v: int64, s: seq<byte>, at: nat)
    requires 1 <= field < 16 && KindOf(m, field).Scalar?
    requires at + |EncodeScalar(field, v)| + |s| < TWO_63
    ensures Parse(m, EncodeScalar(field, v) + s, at)
         == Parse(if v == 0 then m else SetScalar(m, field, v), s, at + |EncodeScalar(field, v)|)
  {
    hide Parse, NextRecord, EncodeVarint, SetScalar;
    var e := EncodeScalar(field, v);
    if v == 0 {
      assert e + s == s;
    } else {
      ScalarRead(m, field, v, s, at);
      ParseFirst(m, e + s, at, ScalarRecord(field, v, |e|), SetScalar(m, field, v), s);
    }
  }

  lemma BlockRead(m: Message, field: nat, payload: seq<byte>, s: seq<byte>, at: nat)
    requires 1 <= field < 16 && KindOf(m, field).Block?
    requires at + |EncodeBlock(field, payload)| + |s| < TWO_63
    ensures NextRecord(m, EncodeBlock(field, payload) + s, at)
         == Ok(BlockRecord(field, payload, |EncodeBlock(field, payload)|))
  {
    hide Scan, EncodeVarint, SkipFrom;
    var e := EncodeBlock(field, payload);
    var u := EncodeVarint(|payload|);
    var x := e + s;
    assert x == [8 * field + 2] + (u + (payload + s));
    assert x[1..] == u + (payload + s);
    ReadTag(8 * field + 2, u + (payload + s));
    FieldOfTag(field, 2);
    ReadEncoded(|payload|, payload + s);
    assert x[1 + |u|..1 + |u| + |payload|] == payload;
  }

  lemma ParseBlock(m: Message, field: nat, payload: seq<byte>, s: seq<byte>, at: nat)
    requires 1 <= field < 16 && KindOf(m, field).Block?
    requires at + |EncodeBlock(field, payload)| + |s| < TWO_63
    requires SetBlock(m, field, payload).Ok?
    ensures Parse(m, EncodeBlock(field, payload) + s, at)
         == Parse(SetBlock(m, field, payload).value, s, at + |EncodeBlock(field, payload)|)
  {
    hide Parse, NextRecord, SetBlock, EncodeVarint;
    var e := EncodeBlock(field, payload);
    BlockRead(m, field, payload, s, at);
    ParseFirst(m, e + s, at, BlockRecord(field, payload, |e|), SetBlock(m, field, payload).value, s);
  }

  lemma ParseBytes(m: Message, field: nat, payload: seq<byte>, s: seq<byte>, at: nat)
    requires 1 <= field < 16 && KindOf(m, field).Block?
    requires at + |EncodeBytes(field, payload)| + |s| < TWO_63
    requires SetBlock(m, field, payload).Ok?
    ensures Parse(m, EncodeBytes(field, payload) + s, at)
         == Parse(if payload == [] then m else SetBlock(m, field, payload).value, s, at + |EncodeBytes(field, payload)|)
  {
    hide Parse, SetBlock, EncodeBlock;
    if payload == [] {
      assert EncodeBytes(field, payload) + s == s;
    } else {
      ParseBlock(m, field, payload, s, at);
    }
  }

  // ---------- round trip ----------

  /** The message a receiver holds: equal to the one sent, with empty bytes read back as nil. */
  function Received(m: Message): Message {
    match m
    case M1(x) => M1(Received1(x))
    case M2(x) => M2(x.(state := x.state.Received(), events := x.events.Received(), data := x.data.Received()))
    case S(x) => S(x.(lastMSG := if x.lastMSG.None? then None else Some(Received1(x.lastMSG.value))))
  }

  function Received1(m: Msg1): Msg1 {
    m.(data := m.data.Received())
  }

  lemma RoundTrip1(m: Msg1)
    requires |Encode1(m)| < TWO_63
    ensures Parse(M1(FRESH1), Encode1(m), 0) == Ok(M1(Received1(m)))
  {
    hide Parse, EncodeScalar, EncodeBytes;
    var a, b, c, d := EncodeBytes(1, m.data.Bytes()), EncodeScalar(2, m.retry),
      EncodeScalar(3, m.timeStamp), EncodeScalar(4, m.version);
    assert Encode1(m) == a + (b + (c + (d + [])));
    var m0 := M1(FRESH1);
    ParseBytes(m0, 1, m.data.Bytes(), b + (c + (d + [])), 0);
    var m1 := M1(FRESH1.(data := m.data.Received()));
    ParseScalar(m1, 2, m.retry, c + (d + []), |a|);
    var m2 := M1(m1.m1.(retry := m.retry));
    ParseScalar(m2, 3, m.timeStamp, d + [], |a| + |b|);
    var m3 := M1(m2.m1.(timeStamp := m.timeStamp));
    ParseScalar(m3, 4, m.version, [], |a| + |b| + |c|);
    ParseEnd(M1(Received1(m)), |a| + |b| + |c| + |d|);
  }

  lemma ParseEnd(m: Message, at: nat)
    requires at < TWO_63
    ensures Parse(m, [], at) == Ok(m)
  {
  }

  lemma RoundTrip2(m: Msg2)
    requires |Encode2(m)| < TWO_63
    ensures Parse(M2(FRESH2), Encode2(m), 0) == Ok(Received(M2(m)))
  {
    hide Parse, EncodeScalar, EncodeBytes;
    var a, b, c, d := EncodeBytes(1, m.state.Bytes()), EncodeBytes(2, m.events.Bytes()),
      EncodeBytes(3, m.serial), EncodeScalar(4, m.retry);
    var e, f, g := EncodeScalar(5, m.timeStamp), EncodeBytes(6, m.data.Bytes()), EncodeScalar(7, m.version);
    var rest := d + (e + (f + (g + [])));
    assert Encode2(m) == a + (b + (c + rest));
    var m0 := M2(FRESH2);
    ParseBytes(m0, 1, m.state.Bytes(), b + (c + rest), 0);
    var m1 := M2(FRESH2.(state := m.state.Received()));
    ParseBytes(m1, 2, m.events.Bytes(), c + rest, |a|);
    var m2 := M2(m1.m2.(events := m.events.Received()));
    ParseBytes(m2, 3, m.serial, rest, |a| + |b|);
    var m3 := M2(m2.m2.(serial := m.serial));
    RoundTrip2Tail(m3, m, |a| + |b| + |c|);
  }

  lemma RoundTrip2Tail(m3: Message, m: Msg2, at: nat)
    requires m3 == M2(FRESH2.(state := m.state.Received(), events := m.events.Received(), serial := m.serial))
    requires at + |EncodeScalar(4, m.retry)| + |EncodeScalar(5, m.timeStamp)| + |EncodeBytes(6, m.data.Bytes())|
      + |EncodeScalar(7, m.version)| < TWO_63
    ensures Parse(m3, EncodeScalar(4, m.retry) + (EncodeScalar(5, m.timeStamp)
      + (EncodeBytes(6, m.data.Bytes()) + (EncodeScalar(7, m.version) + []))), at) == Ok(Received(M2(m)))
  {
    hide Parse, EncodeScalar, EncodeBytes;
    var d, e, f, g := EncodeScalar(4, m.retry), EncodeScalar(5, m.timeStamp),
      EncodeBytes(6, m.data.Bytes()), EncodeScalar(7, m.version);
    ParseScalar(m3, 4, m.retry, e + (f + (g + [])), at);
    var m4 := M2(m3.m2.(retry := m.retry));
    ParseScalar(m4, 5, m.timeStamp, f + (g + []), at + |d|);
    var m5 := M2(m4.m2.(timeStamp := m.timeStamp));
    ParseBytes(m5, 6, m.data.Bytes(), g + [], at + |d| + |e|);
    var m6 := M2(m5.m2.(data := m.data.Received()));
    ParseScalar(m6, 7, m.version, [], at + |d| + |e| + |f|);
    ParseEnd(Received(M2(m)), at + |d| + |e| + |f| + |g|);
  }

  lemma RoundTripLast(m: Snap, at: nat)
    requires m.lastMSG.Some? && at + |EncodeBlock(2, Encode1(m.lastMSG.value))| < TWO_63
    ensures Parse(S(Snap(m.timeStamp, None)), EncodeBlock(2, Encode1(m.lastMSG.value)) + [], at) == Ok(Received(S(m)))
  {
    var inner := Encode1(m.lastMSG.value);
    var m1 := S(Snap(m.timeStamp, None));
    RoundTrip1(m.lastMSG.value);
    hide Parse, Encode1;
    assert SetBlock(m1, 2, inner) == Ok(Received(S(m)));
    hide SetBlock, EncodeBlock;
    ParseBlock(m1, 2, inner, [], at);
    ParseEnd(Received(S(m)), at + |EncodeBlock(2, inner)|);
  }

  lemma RoundTripSnap(m: Snap)
    requires |EncodeSnap(m)| < TWO_63
    ensures Parse(S(Snap(0, None)), EncodeSnap(m), 0) == Ok(Received(S(m)))
  {
    hide Parse, EncodeScalar, EncodeBlock, Encode1;
    var a := EncodeScalar(1, m.timeStamp);
    var b := if m.lastMSG.None? then [] else EncodeBlock(2, Encode1(m.lastMSG.value));
    assert b + [] == b;
    ParseScalar(S(Snap(0, None)), 1, m.timeStamp, b, 0);
    if m.lastMSG.None? {
      ParseEnd(Received(S(m)), |a|);
    } else {
      RoundTripLast(m, |a|);
    }
  }

  /** Unmarshalling what was marshalled gives an equal message, for each of the three types. */
  lemma RoundTrip(m: Message)
    requires |Encode(m)| < TWO_63
    ensures Parse(Fresh(m), Encode(m), 0) == Ok(Received(m))
    ensures Equal(Received(m), m)
  {
    hide Parse;
    match m
    case M1(x) => RoundTrip1(x);
    case M2(x) => RoundTrip2(x);
    case S(x) => RoundTripSnap(x);
  }

  /** `Equal` is equality of encodings: no two messages that differ are written alike. */
  lemma EqualIffSameBytes(m: Message, n: Message)
    requires SameType(m, n) && |Encode(m)| < TWO_63 && |Encode(n)| < TWO_63
    ensures Equal(m, n) <==> Encode(m) == Encode(n)
  {
    hide Parse, EncodeScalar, EncodeBytes, EncodeBlock;
    RoundTrip(m);
    RoundTrip(n);
    if Encode(m) == Encode(n) {
      assert Received(m) == Received(n);
    }
  }

  // ---------- sizes ----------

  lemma BlockLength(field: nat, payload: seq<byte>)
    requires 1 <= field < 16
    ensures |EncodeBlock(field, payload)| == SizeBlock(|payload|)
    ensures |EncodeBytes(field, payload)| == SizeBytes(|payload|)
  {
    SovIsLength(|payload|);
  }

  lemma ScalarLength(field: nat, v: int64)
    requires 1 <= field < 16
    ensures |EncodeScalar(field, v)| == SizeScalar(v)
  {
    if v != 0 {
      SovIsLength(ToUint64(v));
    }
  }

  lemma Size1IsLength(m: Msg1)
    ensures Size1(m) == |Encode1(m)|
  {
    hide EncodeScalar, EncodeBytes, SizeBytes, SizeScalar;
    BlockLength(1, m.data.Bytes());
    ScalarLength(2, m.retry);
    ScalarLength(3, m.timeStamp);
    ScalarLength(4, m.version);
  }

  lemma Size2IsLength(m: Msg2)
    ensures Size2(m) == |Encode2(m)|
  {
    hide EncodeScalar, EncodeBytes, SizeBytes, SizeScalar;
    BlockLength(1, m.state.Bytes());
    BlockLength(2, m.events.Bytes());
    BlockLength(3, m.serial);
    ScalarLength(4, m.retry);
    ScalarLength(5, m.timeStamp);
    BlockLength(6, m.data.Bytes());
    ScalarLength(7, m.version);
  }

  /** `Size` predicts exactly the number of bytes the marshaller writes. */
  lemma SizeIsLength(m: Message)
    ensures Size(m) == |Encode(m)|
  {
    hide EncodeScalar, EncodeBlock, SizeBlock, SizeScalar;
    match m
    case M1(x) => Size1IsLength(x);
    case M2(x) => Size2IsLength(x);
    case S(x) =>
      ScalarLength(1, x.timeStamp);
      if x.lastMSG.Some? {
        Size1IsLength(x.lastMSG.value);
        BlockLength(2, Encode1(x.lastMSG.value));
      }
  }

  // ---------- re-encoding never grows ----------

  /** Merging two blocks into one saves a tag and never costs a longer length prefix. */
  lemma SizeBlockMerges(a: nat, b: nat)
    ensures SizeBlock(a + b) <= SizeBlock(a) + SizeBlock(b)
  {
    SovSubadditive(a, b);
  }

  lemma SizeBlockMonotone(a: nat, b: nat)
    requires a <= b
    ensures SizeBlock(a) <= SizeBlock(b)
  {
    SovMonotone(a, b);
  }

  /** A record takes at least the bytes its field needs when written again. */
  lemma RecordIsNotShorter(m: Message, s: seq<byte>, at: nat)
    requires at + |s| < TWO_63 && NextRecord(m, s, at).Ok?
    ensures var r := NextRecord(m, s, at).value;
      && (r.ScalarRecord? ==> SizeScalar(r.v) <= r.length)
      && (r.BlockRecord? ==> SizeBlock(|r.payload|) <= r.length)
  {
    hide Scan, SkipFrom;
    var n := ReadVarint(s).value.length;
    var r := NextRecord(m, s, at).value;
    if !r.UnknownRecord? {
      EncodingIsMinimal(s[n..]);
      assert r.ScalarRecord? ==> ToUint64(r.v) == ReadVarint(s[n..]).value.value;
    }
  }

  lemma SetScalarSize(m: Message, field: int, v: int64)
    ensures Size(SetScalar(m, field, v)) <= Size(m) + SizeScalar(v)
  {
    hide SizeBytes, SizeBlock;
  }

  lemma AssignBlockSize(m: Message, field: int, payload: seq<byte>)
    requires |payload| < TWO_63 && !(m.S? && field == 2)
    ensures SetBlock(m, field, payload).Ok?
    ensures Size(SetBlock(m, field, payload).value) <= Size(m) + SizeBlock(|payload|)
  {
    hide SizeBlock, SizeScalar;
  }

  lemma MergeBlockSize(m: Snap, last: Msg1, merged: Msg1, n: nat)
    requires last == if m.lastMSG.None? then FRESH1 else m.lastMSG.value
    requires Size1(merged) <= Size1(last) + n
    ensures SizeSnap(m.(lastMSG := Some(merged))) <= SizeSnap(m) + SizeBlock(n)
  {
    assert Size1(FRESH1) == 0;
    hide Size1;
    SizeBlockMonotone(Size1(merged), Size1(last) + n);
    SizeBlockMerges(Size1(last), n);
  }

  lemma {:induction false} SetBlockSize(m: Message, field: int, payload: seq<byte>)
    requires |payload| < TWO_63 && SetBlock(m, field, payload).Ok?
    ensures Size(SetBlock(m, field, payload).value) <= Size(m) + SizeBlock(|payload|)
    decreases |payload|, 1
  {
    if m.S? && field == 2 {
      var last := if m.snap.lastMSG.None? then FRESH1 else m.snap.lastMSG.value;
      NeverGrows(M1(last), payload, 0);
      hide Parse, Size1, SizeSnap;
      MergeBlockSize(m.snap, last, Parse(M1(last), payload, 0).value.m1, |payload|);
    } else {
      AssignBlockSize(m, field, payload);
    }
  }

  /** Whatever bytes were accepted, writing the message back takes no more of them. */
  lemma {:induction false} NeverGrows(m: Message, s: seq<byte>, at: nat)
    requires at + |s| < TWO_63 && Parse(m, s, at).Ok?
    ensures Size(Parse(m, s, at).value) <= Size(m) + |s|
    decreases |s|, 0
  {
    hide NextRecord, Size, SetBlock;
    if s != [] {
      var r := NextRecord(m, s, at).value;
      RecordIsNotShorter(m, s, at);
      match r {
        case ScalarRecord(field, v, _) => SetScalarSize(m, field, v);
        case BlockRecord(field, payload, _) => SetBlockSize(m, field, payload);
        case UnknownRecord(_) =>
      }
      NeverGrows(Apply(m, r).value, s[r.length..], at + r.length);
    }
  }

  /** In particular a message accepted into a fresh struct re-encodes within the length of its input. */
  lemma ReencodingNeverGrows(m: Message, s: seq<byte>)
    requires |s| < TWO_63 && Parse(Fresh(m), s, 0).Ok?
    ensures |Encode(Parse(Fresh(m), s, 0).value)| <= |s|
  {
    NeverGrows(Fresh(m), s, 0);
    SizeIsLength(Parse(Fresh(m), s, 0).value);
    hide Parse;
    assert Size(Fresh(m)) == 0;
  }
}
