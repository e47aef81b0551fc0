/** The wire format byte by byte: varints from their digits, fields from their tags and payloads. */
module FieldLaws {
  import opened MachineInts
  import opened Options
  import opened Varint
  import opened Wire
  import opened Codec
  import opened CodecLaws

  // ---------- varints ----------

  predicate AreDigits(ds: seq<nat>) {
    forall i :: 0 <= i < |ds| ==> ds[i] < 128
  }

  /** Seven-bit groups as bytes, all but the last with the mark that more follow. */
  function Spell(ds: seq<nat>): seq<byte>
    requires AreDigits(ds) && ds != []
  {
    if |ds| == 1 then [ds[0]] else [ds[0] + 128] + Spell(ds[1..])
  }

  /** The number they denote, the lowest group first. */
  function Weigh(ds: seq<nat>): nat {
    if ds == [] then 0 else ds[0] + 128 * Weigh(ds[1..])
  }

  lemma {:induction false} ScanSpelled(ds: seq<nat>, rest: seq<byte>, room: nat)
    requires AreDigits(ds) && 1 <= |ds| <= room
    ensures Scan(Spell(ds) + rest, room) == Ok(Read(Weigh(ds), |ds|))
    decreases |ds|
  {
    var s := Spell(ds) + rest;
    if |ds| == 1 {
      assert Weigh(ds[1..]) == 0;
    } else {
      assert s[1..] == Spell(ds[1..]) + rest;
      ScanSpelled(ds[1..], rest, room - 1);
    }
  }

  /** Every spelling of up to ten groups, minimal or not, is read as its value modulo 2^64. */
  lemma ReadSpelled(ds: seq<nat>, rest: seq<byte>)
    requires AreDigits(ds) && 1 <= |ds| <= 10
    ensures ReadVarint(Spell(ds) + rest) == Ok(Read(Weigh(ds) % 0x1_0000_0000_0000_0000, |ds|))
  {
    hide Scan, Spell, Weigh;
    ScanSpelled(ds, rest, MAX_BYTES);
  }

  lemma {:induction false} ScanRunsOn(s: seq<byte>, room: nat)
    requires forall i :: 0 <= i < |s| && i < room ==> s[i] >= 128
    ensures Scan(s, room) == Err(if |s| >= room then IntOverflow else UnexpectedEOF)
    decreases |s|
  {
    if room > 0 && s != [] {
      ScanRunsOn(s[1..], room - 1);
    }
  }

  /** Ten groups that all say more follow overflow; fewer at the end of the input are cut short. */
  lemma ReadUnended(s: seq<byte>)
    requires forall i :: 0 <= i < |s| && i < 10 ==> s[i] >= 128
    ensures ReadVarint(s) == Err(if |s| >= 10 then IntOverflow else UnexpectedEOF)
  {
    hide Scan;
    ScanRunsOn(s, MAX_BYTES);
  }

  // ---------- fields that are skipped ----------

  /** A tag of any field number is read as its wire type. */
  lemma TagToken(f: nat, wireType: nat, rest: seq<byte>)
    requires wireType < 8 && 8 * f + wireType < TWO_64
    ensures var tag, s := EncodeVarint(8 * f + wireType), EncodeVarint(8 * f + wireType) + rest;
      && ReadVarint(s) == Ok(Read(8 * f + wireType, |tag|)) && s[|tag|..] == rest
      && (8 * f + wireType) % 8 == wireType
  {
    hide EncodeVarint, ReadVarint;
    ReadEncoded(8 * f + wireType, rest);
  }

  /** A fixed64 takes eight bytes and a fixed32 four, whatever they are and whatever follows. */
  lemma FixedIsSkipped(f: nat, p: seq<byte>, rest: seq<byte>)
    requires 8 * f + 5 < TWO_64 && |p| + |rest| + 10 < TWO_63
    ensures |p| == 8 ==> SkipFrom(EncodeVarint(8 * f + 1) + p + rest, 0, 0) == Ok(|EncodeVarint(8 * f + 1)| + 8)
    ensures |p| == 4 ==> SkipFrom(EncodeVarint(8 * f + 5) + p + rest, 0, 0) == Ok(|EncodeVarint(8 * f + 5)| + 4)
  {
    PlainTagIsSkipped(f, 1, p, rest);
    PlainTagIsSkipped(f, 5, p, rest);
  }

  lemma PlainTagIsSkipped(f: nat, wireType: nat, p: seq<byte>, rest: seq<byte>)
    requires 8 * f + wireType < TWO_64 && |p| + |rest| + 10 < TWO_63
    requires wireType == 1 || wireType == 5
    ensures var tag := EncodeVarint(8 * f + wireType);
      SkipFrom(tag + p + rest, 0, 0) == Ok(|tag| + if wireType == 1 then 8 else 4)
  {
    hide EncodeVarint, ReadVarint;
    var tag := EncodeVarint(8 * f + wireType);
    TagToken(f, wireType, p + rest);
    assert tag + p + rest == tag + (p + rest);
  }

  /** A varint is skipped with its own bytes. */
  lemma VarintIsSkipped(f: nat, v: uint64, rest: seq<byte>)
    requires 8 * f < TWO_64 && |rest| + 20 < TWO_63
    ensures var tag, u := EncodeVarint(8 * f), EncodeVarint(v); SkipFrom(tag + u + rest, 0, 0) == Ok(|tag| + |u|)
  {
    hide EncodeVarint, ReadVarint;
    var tag, u := EncodeVarint(8 * f), EncodeVarint(v);
    TagToken(f, 0, u + rest);
    ReadEncoded(v, rest);
    assert tag + u + rest == tag + (u + rest);
  }

  /** A length-delimited field is skipped with its length and its payload. */
  lemma BlockIsSkipped(f: nat, p: seq<byte>, rest: seq<byte>)
    requires 8 * f + 2 < TWO_64 && |p| + |rest| + 20 < TWO_63
    ensures var tag, u := EncodeVarint(8 * f + 2), EncodeVarint(|p|);
      SkipFrom(tag + u + p + rest, 0, 0) == Ok(|tag| + |u| + |p|)
  {
    hide EncodeVarint, ReadVarint;
    var tag, u := EncodeVarint(8 * f + 2), EncodeVarint(|p|);
    TagToken(f, 2, u + (p + rest));
    ReadEncoded(|p|, p + rest);
    assert tag + u + p + rest == tag + (u + (p + rest));
  }

  /** Wire types 6 and 7 are none, and a group cannot end before it starts. */
  lemma NoSuchField(f: nat, wireType: nat, rest: seq<byte>)
    requires wireType in {4, 6, 7} && 8 * f + wireType < TWO_64
    ensures SkipFrom(EncodeVarint(8 * f + wireType) + rest, 0, 0)
      == Err(if wireType == 4 then UnexpectedEndOfGroup else IllegalWireType)
  {
    hide EncodeVarint, ReadVarint;
    TagToken(f, wireType, rest);
    var tag := EncodeVarint(8 * f + wireType);
    assert tag != [] by { Sov64(8 * f + wireType); SovIsLength(8 * f + wireType); }
  }

  /** A group is what stands between a start tag and an end tag, if that is a sequence of records. */
  lemma GroupIsSkipped(f: nat, g: nat, body: seq<seq<byte>>, rest: seq<byte>)
    requires 8 * f + 3 < TWO_64 && 8 * g + 4 < TWO_64
    requires forall i :: 0 <= i < |body| ==> IsRecord(body[i])
    requires |Joined(body)| + |rest| + 20 < TWO_63
    ensures var s := EncodeVarint(8 * f + 3) + Joined(body) + EncodeVarint(8 * g + 4);
      |s| + |rest| < TWO_63 && SkipFrom(s + rest, 0, 0) == Ok(|s|)
  {
    hide EncodeVarint, IsRecord, IsGroupBody, SkipFrom, ReadVarint;
    var start, end := EncodeVarint(8 * f + 3), EncodeVarint(8 * g + 4);
    var s := start + Joined(body) + end;
    Sov64(8 * f + 3);
    SovIsLength(8 * f + 3);
    Sov64(8 * g + 4);
    SovIsLength(8 * g + 4);
    BodyOfRecords(g, body);
    assert s == start + (Joined(body) + end);
    StartTagRecord(f, Joined(body) + end);
    assert (s + rest)[..|s|] == s;
    SkipIsGrammar(s + rest, |s|);
  }

  function Joined(parts: seq<seq<byte>>): seq<byte> {
    if parts == [] then [] else parts[0] + Joined(parts[1..])
  }

  lemma StartTagRecord(f: nat, body: seq<byte>)
    requires 8 * f + 3 < TWO_64 && IsGroupBody(body)
    ensures IsRecord(EncodeVarint(8 * f + 3) + body)
  {
    hide EncodeVarint, ReadVarint, IsGroupBody;
    TagToken(f, 3, body);
  }

  lemma {:induction false} BodyOfRecords(g: nat, body: seq<seq<byte>>)
    requires 8 * g + 4 < TWO_64 && forall i :: 0 <= i < |body| ==> IsRecord(body[i])
    ensures IsGroupBody(Joined(body) + EncodeVarint(8 * g + 4))
    decreases |body|
  {
    hide EncodeVarint, ReadVarint, IsRecord;
    var end := EncodeVarint(8 * g + 4);
    if body == [] {
      TagToken(g, 4, []);
      assert [] + end == end && end + [] == end;
    } else {
      BodyOfRecords(g, body[1..]);
      var r, x := body[0], Joined(body[1..]) + end;
      assert Joined(body) + end == r + x;
      assert r != [] by { RecordNonEmpty(r); }
      assert x != [] by { BodyNonEmpty(x); }
      assert (r + x)[..|r|] == r && (r + x)[|r|..] == x;
    }
  }

  lemma RecordNonEmpty(r: seq<byte>)
    requires IsRecord(r)
    ensures r != []
  {
  }

  // ---------- what each message's fields look like ----------

  /** An int64 field: its tag and the two's complement of its value, or nothing for zero. */
  function Number(tag: byte, v: int64): seq<byte> {
    if v == 0 then [] else [tag] + EncodeVarint(v % 0x1_0000_0000_0000_0000)
  }

  /** A bytes or string field: its tag, its length and its bytes. */
  function Text(tag: byte, p: seq<byte>): seq<byte> {
    [tag] + EncodeVarint(|p|) + p
  }

  lemma NumberIsScalar(field: nat, v: int64)
    requires 1 <= field < 16
    ensures EncodeScalar(field, v) == Number(8 * field, v)
  {
    hide EncodeVarint;
    assert ToUint64(v) == v % 0x1_0000_0000_0000_0000;
  }

  /** `RemoteMSG`: Data 1, Retry 2, TimeStamp 3, Version 4, in this order. */
  lemma Fields1(m: Msg1)
    ensures Encode(M1(m)) == (if m.data.Bytes() == [] then [] else Text(10, m.data.Bytes()))
      + Number(16, m.retry) + Number(24, m.timeStamp) + Number(32, m.version)
  {
    hide EncodeVarint, EncodeScalar, Number;
    NumberIsScalar(2, m.retry);
    NumberIsScalar(3, m.timeStamp);
    NumberIsScalar(4, m.version);
  }

  /** `RemoteMSG2`: State 1, Events 2, Serial 3, Retry 4, TimeStamp 5, Data 6, Version 7. */
  lemma Fields2(m: Msg2)
    ensures Encode(M2(m)) == (if m.state.Bytes() == [] then [] else Text(10, m.state.Bytes()))
      + (if m.events.Bytes() == [] then [] else Text(18, m.events.Bytes()))
      + (if m.serial == [] then [] else Text(26, m.serial))
      + Number(32, m.retry) + Number(40, m.timeStamp)
      + (if m.data.Bytes() == [] then [] else Text(50, m.data.Bytes())) + Number(56, m.version)
  {
    hide EncodeVarint, EncodeScalar, Number;
    NumberIsScalar(4, m.retry);
    NumberIsScalar(5, m.timeStamp);
    NumberIsScalar(7, m.version);
  }

  /** `RemoteSnapshot`: TimeStamp 1, and LastMSG 2 unless it is nil, present even when empty. */
  lemma FieldsSnap(m: Snap)
    ensures Encode(S(m)) == Number(8, m.timeStamp)
      + if m.lastMSG.None? then [] else Text(18, Encode(M1(m.lastMSG.value)))
  {
    hide EncodeVarint, EncodeScalar, Number, Encode1;
    NumberIsScalar(1, m.timeStamp);
  }

  // ---------- what a field does to the message read so far ----------

  /** The bytes of one int64 field, zero included. */
  function NumberField(tag: byte, v: int64): seq<byte> {
    [tag] + EncodeVarint(v % 0x1_0000_0000_0000_0000)
  }

  lemma NumberRead(m: Message, field: nat, v: int64, at: nat)
    requires 1 <= field < 16 && KindOf(m, field).Scalar? && at + 11 < TWO_63
    ensures var x := NumberField(8 * field, v);
      |x| <= 11 && NextRecord(m, x, at) == Ok(ScalarRecord(field, v, |x|))
  {
    hide Scan, EncodeVarint, SkipFrom, Sov;
    var u := EncodeVarint(ToUint64(v));
    assert ToUint64(v) == v % 0x1_0000_0000_0000_0000;
    Sov64(ToUint64(v));
    SovIsLength(ToUint64(v));
    var x := [8 * field] + u;
    assert x[1..] == u && u + [] == u;
    ReadTag(8 * field, u);
    FieldOfTag(field, 0);
    ReadEncoded(ToUint64(v), []);
  }

  lemma TextRead(m: Message, field: nat, p: seq<byte>, at: nat)
    requires 1 <= field < 16 && KindOf(m, field).Block? && at + |Text(8 * field + 2, p)| < TWO_63
    ensures NextRecord(m, Text(8 * field + 2, p), at) == Ok(BlockRecord(field, p, |Text(8 * field + 2, p)|))
  {
    hide EncodeVarint, NextRecord;
    var x := Text(8 * field + 2, p);
    BlockRead(m, field, p, [], at);
    assert EncodeBlock(field, p) + [] == x && EncodeBlock(field, p) == x;
  }

  /** A record read behind an input that was accepted acts on what the input left. */
  lemma OneMore(m: Message, a: seq<byte>, x: seq<byte>, r: Record)
    requires |a| + |x| < TWO_63 && Parse(m, a, 0).Ok? && x != []
    requires NextRecord(Parse(m, a, 0).value, x, |a|) == Ok(r) && r.length == |x|
    requires r.BlockRecord? ==> |r.payload| < TWO_63
    ensures Parse(m, a + x, 0) == Apply(Parse(m, a, 0).value, r)
  {
    hide Parse, NextRecord, Apply;
    ParseConcat(m, a, x, 0);
    OnlyOne(Parse(m, a, 0).value, x, |a|, r);
  }

  lemma OnlyOne(n: Message, x: seq<byte>, at: nat, r: Record)
    requires at + |x| < TWO_63 && x != [] && NextRecord(n, x, at) == Ok(r) && r.length == |x|
    requires r.BlockRecord? ==> |r.payload| < TWO_63
    ensures Parse(n, x, at) == Apply(n, r)
  {
    hide NextRecord, Apply;
    assert x[|x|..] == [];
    if Apply(n, r).Ok? {
      var z := Apply(n, r).value;
      hide Parse;
      ParseFirst(n, x, at, r, z, []);
      ParseEnd(z, at + |x|);
    }
  }

  lemma NumberApplied(m: Message, a: seq<byte>, field: nat, v: int64)
    requires |a| + 11 < TWO_63 && Parse(m, a, 0).Ok? && 1 <= field < 16 && KindOf(m, field).Scalar?
    ensures |NumberField(8 * field, v)| <= 11
    ensures Parse(m, a + NumberField(8 * field, v), 0) == Ok(SetScalar(Parse(m, a, 0).value, field, v))
  {
    hide Parse, NextRecord, EncodeVarint;
    var n := Parse(m, a, 0).value;
    assert SameType(m, n) && KindOf(n, field).Scalar?;
    NumberRead(n, field, v, |a|);
    OneMore(m, a, NumberField(8 * field, v), ScalarRecord(field, v, |NumberField(8 * field, v)|));
  }

  lemma TextApplied(m: Message, a: seq<byte>, field: nat, p: seq<byte>)
    requires 1 <= field < 16 && KindOf(m, field).Block?
    requires |a| + |Text(8 * field + 2, p)| < TWO_63 && Parse(m, a, 0).Ok?
    ensures Parse(m, a + Text(8 * field + 2, p), 0) == SetBlock(Parse(m, a, 0).value, field, p)
  {
    hide Parse, NextRecord, EncodeVarint, SetBlock;
    var n := Parse(m, a, 0).value;
    assert SameType(m, n) && KindOf(n, field).Block?;
    TextRead(n, field, p, |a|);
    OneMore(m, a, Text(8 * field + 2, p), BlockRecord(field, p, |Text(8 * field + 2, p)|));
  }

  /** The last scalar wins, zero as well: field by field of `RemoteMSG`, nothing else changing. */
  lemma LastNumberWins1(m: Msg1, a: seq<byte>, v: int64)
    requires |a| + 11 < TWO_63 && Parse(M1(m), a, 0).Ok?
    ensures forall tag: byte :: |NumberField(tag, v)| <= 11
    ensures var n := Parse(M1(m), a, 0).value.m1;
      && Parse(M1(m), a + NumberField(16, v), 0) == Ok(M1(n.(retry := v)))
      && Parse(M1(m), a + NumberField(24, v), 0) == Ok(M1(n.(timeStamp := v)))
      && Parse(M1(m), a + NumberField(32, v), 0) == Ok(M1(n.(version := v)))
  {
    hide Parse, NumberField;
    NumberFits(v);
    NumberApplied(M1(m), a, 2, v);
    NumberApplied(M1(m), a, 3, v);
    NumberApplied(M1(m), a, 4, v);
  }

  lemma NumberFits(v: int64)
    ensures forall tag: byte :: |NumberField(tag, v)| <= 11
  {
    hide EncodeVarint, Sov;
    var u := v % 0x1_0000_0000_0000_0000;
    Sov64(u);
    SovIsLength(u);
  }

  lemma LastNumberWins2(m: Msg2, a: seq<byte>, v: int64)
    requires |a| + 11 < TWO_63 && Parse(M2(m), a, 0).Ok?
    ensures forall tag: byte :: |NumberField(tag, v)| <= 11
    ensures var n := Parse(M2(m), a, 0).value.m2;
      && Parse(M2(m), a + NumberField(32, v), 0) == Ok(M2(n.(retry := v)))
      && Parse(M2(m), a + NumberField(40, v), 0) == Ok(M2(n.(timeStamp := v)))
      && Parse(M2(m), a + NumberField(56, v), 0) == Ok(M2(n.(version := v)))
  {
    hide Parse, NumberField;
    NumberFits(v);
    NumberApplied(M2(m), a, 4, v);
    NumberApplied(M2(m), a, 5, v);
    NumberApplied(M2(m), a, 7, v);
  }

  lemma LastNumberWinsSnap(m: Snap, a: seq<byte>, v: int64)
    requires |a| + 11 < TWO_63 && Parse(S(m), a, 0).Ok?
    ensures |NumberField(8, v)| <= 11
    ensures Parse(S(m), a + NumberField(8, v), 0) == Ok(S(Parse(S(m), a, 0).value.snap.(timeStamp := v)))
  {
    hide Parse, NumberField;
    NumberApplied(S(m), a, 1, v);
  }

  /** The last bytes win, and empty ones are present and empty. */
  lemma LastTextWins1(m: Msg1, a: seq<byte>, p: seq<byte>)
    requires |a| + |p| + 11 < TWO_63 && Parse(M1(m), a, 0).Ok?
    ensures forall tag: byte :: |Text(tag, p)| <= |p| + 11
    ensures Parse(M1(m), a + Text(10, p), 0) == Ok(M1(Parse(M1(m), a, 0).value.m1.(data := Slice(p))))
  {
    hide Parse, Text;
    TextFits(p);
    TextApplied(M1(m), a, 1, p);
  }

  lemma TextFits(p: seq<byte>)
    requires |p| < TWO_63
    ensures forall tag: byte :: |Text(tag, p)| <= |p| + 11
  {
    hide EncodeVarint, Sov;
    Sov64(|p|);
    SovIsLength(|p|);
  }

  lemma LastTextWins2(m: Msg2, a: seq<byte>, p: seq<byte>)
    requires |a| + |p| + 11 < TWO_63 && Parse(M2(m), a, 0).Ok?
    ensures forall tag: byte :: |Text(tag, p)| <= |p| + 11
    ensures var n := Parse(M2(m), a, 0).value.m2;
      && Parse(M2(m), a + Text(10, p), 0) == Ok(M2(n.(state := Slice(p))))
      && Parse(M2(m), a + Text(18, p), 0) == Ok(M2(n.(events := Slice(p))))
      && Parse(M2(m), a + Text(26, p), 0) == Ok(M2(n.(serial := p)))
      && Parse(M2(m), a + Text(50, p), 0) == Ok(M2(n.(data := Slice(p))))
  {
    hide Parse, Text;
    TextFits(p);
    TextApplied(M2(m), a, 1, p);
    TextApplied(M2(m), a, 2, p);
    TextApplied(M2(m), a, 3, p);
    TextApplied(M2(m), a, 6, p);
  }

  /** `LastMSG` is read into the one already held, or into an empty one; its errors are the snapshot's. */
  lemma LastMSGMerges(m: Snap, a: seq<byte>, p: seq<byte>)
    requires |a| + |p| + 11 < TWO_63 && Parse(S(m), a, 0).Ok?
    ensures |Text(18, p)| <= |p| + 11
    ensures var n := Parse(S(m), a, 0).value.snap;
      var last := if n.lastMSG.None? then Msg1(Nil, 0, 0, 0) else n.lastMSG.value;
      Parse(S(m), a + Text(18, p), 0) == match Parse(M1(last), p, 0)
        case Ok(q) => Ok(S(n.(lastMSG := Some(q.m1))))
        case Err(e) => Err(e)
  {
    hide Parse, Text;
    TextFits(p);
    TextApplied(S(m), a, 2, p);
  }

  // ---------- what is refused ----------

  /** The field numbers of the int64 fields. */
  predicate IsNumberField(m: Message, field: int) {
    match m
    case M1(_) => field == 2 || field == 3 || field == 4
    case M2(_) => field == 4 || field == 5 || field == 7
    case S(_) => field == 1
  }

  /** The field numbers of the bytes, string and message fields. */
  predicate IsTextField(m: Message, field: int) {
    match m
    case M1(_) => field == 1
    case M2(_) => field == 1 || field == 2 || field == 3 || field == 6
    case S(_) => field == 2
  }

  /** A tag decides: no end of a group, a field number from 1 to 2^31 - 1, and the field's own wire type. */
  lemma BadTags(m: Message, t: uint64, rest: seq<byte>)
    requires |rest| + 10 < TWO_63
    ensures |EncodeVarint(t) + rest| < TWO_63
    ensures var r, field := Parse(m, EncodeVarint(t) + rest, 0), t / 8 % 0x1_0000_0000;
      && (t % 8 == 4 ==> r == Err(EndGroupForNonGroup))
      && (t % 8 != 4 && (field == 0 || field >= 0x8000_0000) ==> r == Err(IllegalTag))
      && (IsNumberField(m, field) && t % 8 != 0 && t % 8 != 4 ==> r == Err(WrongWireType))
      && (IsTextField(m, field) && t % 8 != 2 && t % 8 != 4 ==> r == Err(WrongWireType))
  {
    hide EncodeVarint, ReadVarint, SkipFrom;
    Sov64(t);
    SovIsLength(t);
    ReadEncoded(t, rest);
  }

  /** A block must lie within the input, and its length must not be negative as an int. */
  lemma BadLengths(m: Message, field: nat, n: uint64, rest: seq<byte>)
    requires IsTextField(m, field) && |rest| + 20 < TWO_63
    ensures |[8 * field + 2] + EncodeVarint(n) + rest| < TWO_63
    ensures var r := Parse(m, [8 * field + 2] + EncodeVarint(n) + rest, 0);
      && (n >= 0x8000_0000_0000_0000 ==> r == Err(InvalidLength))
      && (|rest| < n && n + 20 < 0x8000_0000_0000_0000 ==> r == Err(UnexpectedEOF))
  {
    hide EncodeVarint, ReadVarint, SkipFrom, NextRecord, Parse, NextBlock, Sov;
    Sov64(n);
    SovIsLength(n);
    var x := EncodeVarint(n) + rest;
    var s := [8 * field + 2] + EncodeVarint(n) + rest;
    assert s == [8 * field + 2] + x;
    BlockHead(m, field, x);
    ReadEncoded(n, rest);
    BlockBounds(field, s, n, |EncodeVarint(n)|);
    if NextRecord(m, s, 0).Err? {
      RecordFails(m, s);
    }
  }

  lemma BlockBounds(field: int, s: seq<byte>, n: uint64, k: nat)
    requires 1 + k <= |s| < TWO_63 && k <= 10 && ReadVarint(s[1..]) == Ok(Read(n, k))
    ensures n >= 0x8000_0000_0000_0000 ==> NextBlock(field, 1, s, 0) == Err(InvalidLength)
    ensures |s| - 1 - k < n && n + 20 < 0x8000_0000_0000_0000 ==> NextBlock(field, 1, s, 0) == Err(UnexpectedEOF)
  {
    hide ReadVarint;
  }

  lemma RecordFails(m: Message, s: seq<byte>)
    requires |s| < TWO_63 && s != [] && NextRecord(m, s, 0).Err?
    ensures Parse(m, s, 0) == Err(NextRecord(m, s, 0).error)
  {
    hide NextRecord;
  }

  /** What follows a block's tag is its length. */
  lemma BlockHead(m: Message, field: nat, x: seq<byte>)
    requires IsTextField(m, field) && |x| + 1 < TWO_63
    ensures var s := [8 * field + 2] + x; s[1..] == x && NextRecord(m, s, 0) == NextBlock(field, 1, s, 0)
  {
    hide ReadVarint, SkipFrom, NextBlock;
    ReadTag(8 * field + 2, x);
    FieldOfTag(field, 2);
    assert ([8 * field + 2] + x)[1..] == x;
  }
}
