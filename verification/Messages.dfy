/**
 The generated message structs: marshalling fills a buffer from its end towards its start,
 unmarshalling overwrites the fields of the receiver. Each method is proved against module Codec.
 */
module Messages {
  import opened MachineInts
  import opened Options
  import opened Varint
  import opened Wire
  import opened Codec
  import opened CodecLaws

  // ---------- writing backwards ----------

  /** `after` is `before` with exactly the bytes from lo to hi replaced by `bytes`. */
  ghost predicate Wrote(before: seq<byte>, after: seq<byte>, lo: nat, hi: nat, bytes: seq<byte>) {
    lo + |bytes| == hi <= |before| && after == before[..lo] + bytes + before[hi..]
  }

  lemma WroteBelow(a: seq<byte>, b: seq<byte>, c: seq<byte>, lo: nat, mid: nat, hi: nat, x: seq<byte>, y: seq<byte>)
    requires Wrote(a, b, mid, hi, x) && Wrote(b, c, lo, mid, y)
    ensures Wrote(a, c, lo, hi, y + x)
  {
    assert b[..lo] == a[..lo];
    assert b[mid..] == x + a[hi..];
  }

  lemma WroteNothing(a: seq<byte>, i: nat)
    requires i <= |a|
    ensures Wrote(a, a, i, i, [])
  {
  }

  /** `i--; dAtA[i] = tag` */
  method PutTag(dAtA: array<byte>, end: nat, tag: byte) returns (i: nat)
    requires 1 <= end <= dAtA.Length
    modifies dAtA
    ensures Wrote(old(dAtA[..]), dAtA[..], i, end, [tag])
  {
    i := end - 1;
    dAtA[i] := tag;
  }

  method PutVarint(dAtA: array<byte>, end: nat, v: uint64) returns (i: nat)
    requires |EncodeVarint(v)| <= end <= dAtA.Length
    modifies dAtA
    ensures Wrote(old(dAtA[..]), dAtA[..], i, end, EncodeVarint(v))
  {
    SovIsLength(v);
    i := EncodeVarintAt(dAtA, end, v);
  }

  /** `i -= len(p); copy(dAtA[i:], p)` */
  method PutCopy(dAtA: array<byte>, end: nat, p: seq<byte>) returns (i: nat)
    requires |p| <= end <= dAtA.Length
    modifies dAtA
    ensures Wrote(old(dAtA[..]), dAtA[..], i, end, p)
  {
    i := end - |p|;
    forall k | 0 <= k < |p| {
      dAtA[i + k] := p[k];
    }
    assert dAtA[i..end] == p;
    assert dAtA[..] == dAtA[..i] + dAtA[i..end] + dAtA[end..];
  }

  /**
   `if v != 0 { ... }` of an int64 field, below the bytes x already written since the buffer was a.
   */
  method PutScalar(dAtA: array<byte>, i: nat, field: nat, v: int64, ghost a: seq<byte>, ghost end: nat, ghost x: seq<byte>)
    returns (k: nat)
    requires 1 <= field < 16 && |EncodeScalar(field, v)| <= i <= dAtA.Length
    requires Wrote(a, dAtA[..], i, end, x)
    modifies dAtA
    ensures Wrote(a, dAtA[..], k, end, EncodeScalar(field, v) + x)
  {
    hide EncodeVarint;
    ghost var b := dAtA[..];
    k := i;
    if v != 0 {
      k := PutVarint(dAtA, k, ToUint64(v));
      ghost var c, mid := dAtA[..], k;
      k := PutTag(dAtA, k, 8 * field);
      WroteBelow(b, c, dAtA[..], k, mid, i, EncodeVarint(ToUint64(v)), [8 * field]);
      WroteBelow(a, b, dAtA[..], k, i, end, x, EncodeScalar(field, v));
    } else {
      assert EncodeScalar(field, v) + x == x;
    }
  }

  /** The length prefix and tag of a payload that has just been written below `end`. */
  method PutHeader(dAtA: array<byte>, end: nat, field: nat, size: nat) returns (i: nat)
    requires 1 <= field < 16 && size < TWO_63
    requires 1 + |EncodeVarint(size)| <= end <= dAtA.Length
    modifies dAtA
    ensures Wrote(old(dAtA[..]), dAtA[..], i, end, [8 * field + 2] + EncodeVarint(size))
  {
    hide EncodeVarint;
    ghost var a := dAtA[..];
    i := PutVarint(dAtA, end, size);
    ghost var b, mid := dAtA[..], i;
    i := PutTag(dAtA, i, 8 * field + 2);
    WroteBelow(a, b, dAtA[..], i, mid, end, EncodeVarint(size), [8 * field + 2]);
  }

  /** `if len(p) > 0 { ... }` of a bytes or string field, below the bytes x already written. */
  method PutBytes(dAtA: array<byte>, i: nat, field: nat, p: seq<byte>, ghost a: seq<byte>, ghost end: nat, ghost x: seq<byte>)
    returns (k: nat)
    requires 1 <= field < 16 && |p| < TWO_63 && |EncodeBytes(field, p)| <= i <= dAtA.Length
    requires Wrote(a, dAtA[..], i, end, x)
    modifies dAtA
    ensures Wrote(a, dAtA[..], k, end, EncodeBytes(field, p) + x)
  {
    hide EncodeVarint;
    ghost var b := dAtA[..];
    k := i;
    if |p| > 0 {
      k := PutCopy(dAtA, k, p);
      ghost var c, mid := dAtA[..], k;
      k := PutHeader(dAtA, k, field, |p|);
      WroteBelow(b, c, dAtA[..], k, mid, i, p, [8 * field + 2] + EncodeVarint(|p|));
      WroteBelow(a, b, dAtA[..], k, i, end, x, EncodeBytes(field, p));
    } else {
      assert EncodeBytes(field, p) + x == x;
    }
  }

  // ---------- reading records ----------

  /** One turn of an `Unmarshal` loop up to the assignment of the field. */
  method ReadRecord(kind: Message, dAtA: seq<byte>, iNdEx: nat) returns (r: Result<Record>)
    requires iNdEx < |dAtA| < TWO_63
    ensures r == NextRecord(kind, dAtA[iNdEx..], iNdEx)
  {
    hide Scan, SkipFrom;
    var l := |dAtA|;
    var wire := ReadVarintAt(dAtA, iNdEx);
    if wire.Err? {
      return Err(wire.error);
    }
    ghost var s := dAtA[iNdEx..];
    var next := iNdEx + wire.value.length;
    assert s[wire.value.length..] == dAtA[next..];
    var fieldNum, wireType := ToInt32(wire.value.value / 8), wire.value.value % 8;
    if wireType == 4 {
      return Err(EndGroupForNonGroup);
    }
    if fieldNum <= 0 {
      return Err(IllegalTag);
    }
    match KindOf(kind, fieldNum) {
      case Scalar =>
        if wireType != 0 {
          return Err(WrongWireType);
        }
        var v := ReadVarintAt(dAtA, next);
        if v.Err? {
          return Err(v.error);
        }
        return Ok(ScalarRecord(fieldNum, ToInt64(v.value.value), wire.value.length + v.value.length));
      case Block =>
        if wireType != 2 {
          return Err(WrongWireType);
        }
        r := ReadBlock(dAtA, iNdEx, wire.value.length, fieldNum);
      case Unknown =>
        r := ReadUnknown(dAtA, iNdEx);
    }
  }

  method ReadBlock(dAtA: seq<byte>, at: nat, n: nat, fieldNum: int) returns (r: Result<Record>)
    requires at + n <= |dAtA| < TWO_63
    ensures r == NextBlock(fieldNum, n, dAtA[at..], at)
  {
    hide Scan;
    ghost var s := dAtA[at..];
    assert s[n..] == dAtA[at + n..];
    var v := ReadVarintAt(dAtA, at + n);
    if v.Err? {
      return Err(v.error);
    }
    var iNdEx, byteLen := at + n + v.value.length, ToInt64(v.value.value);
    if byteLen < 0 {
      return Err(InvalidLength);
    }
    var postIndex := Wrap64(iNdEx + byteLen);
    if postIndex < 0 {
      return Err(InvalidLength);
    }
    if postIndex > |dAtA| {
      return Err(UnexpectedEOF);
    }
    assert postIndex == iNdEx + byteLen;
    assert s[iNdEx - at..postIndex - at] == dAtA[iNdEx..postIndex];
    return Ok(BlockRecord(fieldNum, dAtA[iNdEx..postIndex], postIndex - at));
  }

  method ReadUnknown(dAtA: seq<byte>, iNdEx: nat) returns (r: Result<Record>)
    requires iNdEx < |dAtA| < TWO_63
    ensures r == NextUnknown(dAtA[iNdEx..], iNdEx)
  {
    hide SkipFrom;
    var skippy := SkipMessages(dAtA[iNdEx..]);
    if skippy.Err? {
      return Err(skippy.error);
    }
    var postIndex := Wrap64(iNdEx + skippy.value);
    if postIndex < 0 {
      return Err(InvalidLength);
    }
    if postIndex > |dAtA| {
      return Err(UnexpectedEOF);
    }
    return Ok(UnknownRecord(skippy.value));
  }

  /** The tie between an error return, the receiver's new value and the outcome Codec.Parse predicts. */
  ghost predicate Reports(err: Option<Error>, m: Message, expected: Result<Message>) {
    match expected
    case Ok(n) => err == None && m == n
    case Err(e) => err == Some(e)
  }

  // ---------- the structs ----------

  /** An `interface{}` argument: nil, a message by pointer or by value (the copy it holds), or another type. */
  datatype Any =
    | NilInterface
    | Pointer1(p1: RemoteMSG?) | Value1(v1: RemoteMSG)
    | Pointer2(p2: RemoteMSG2?) | Value2(v2: RemoteMSG2)
    | PointerS(ps: RemoteSnapshot?) | ValueS(vs: RemoteSnapshot)
    | Other

  class RemoteMSG {
    var Data: Slice
    var Retry: int64
    var TimeStamp: int64
    var Version: int64

    constructor ()
      ensures Value() == FRESH1
    {
      Data, Retry, TimeStamp, Version := Nil, 0, 0, 0;
    }

    function Value(): Msg1
      reads this
    {
      Msg1(Data, Retry, TimeStamp, Version)
    }

    method Size() returns (n: nat)
      ensures n == |Encode1(Value())|
    {
      n := 0;
      var l := |Data.Bytes()|;
      if l > 0 {
        n := n + 1 + l + Sov(l);
      }
      if Retry != 0 {
        n := n + 1 + Sov(ToUint64(Retry));
      }
      if TimeStamp != 0 {
        n := n + 1 + Sov(ToUint64(TimeStamp));
      }
      if Version != 0 {
        n := n + 1 + Sov(ToUint64(Version));
      }
      hide Sov, Encode1;
      Size1IsLength(Value());
    }

    /** Fills exactly the bytes of the encoding below `end`; nothing else in dAtA changes. */
    method MarshalToSizedBuffer(dAtA: array<byte>, end: nat) returns (n: nat)
      requires |Encode1(Value())| <= end <= dAtA.Length && |Encode1(Value())| < TWO_63
      modifies dAtA
      ensures Value() == old(Value()) && n == |Encode1(Value())|
      ensures Wrote(old(dAtA[..]), dAtA[..], end - n, end, Encode1(Value()))
    {
      hide EncodeScalar, EncodeBytes;
      BytesFit(1, Data.Bytes());
      ghost var a := dAtA[..];
      WroteNothing(a, end);
      var i := PutScalar(dAtA, end, 4, Version, a, end, []);
      ghost var x := EncodeScalar(4, Version) + [];
      i := PutScalar(dAtA, i, 3, TimeStamp, a, end, x);
      x := EncodeScalar(3, TimeStamp) + x;
      i := PutScalar(dAtA, i, 2, Retry, a, end, x);
      x := EncodeScalar(2, Retry) + x;
      i := PutBytes(dAtA, i, 1, Data.Bytes(), a, end, x);
      assert EncodeBytes(1, Data.Bytes()) + x == Encode1(Value());
      return end - i;
    }

    method Marshal() returns (dAtA: array<byte>)
      requires |Encode1(Value())| < TWO_63
      ensures fresh(dAtA) && dAtA[..] == Encode1(Value())
    {
      hide Encode1, Encode2, EncodeSnap;
      var size := Size();
      dAtA := new byte[size](_ => 0);
      var n := MarshalToSizedBuffer(dAtA, size);
    }

    /** The assignments under the `switch fieldNum` of `Unmarshal`. */
    method Assign(r: Record)
      requires r.BlockRecord? ==> |r.payload| < TWO_63
      modifies this
      ensures Apply(M1(old(Value())), r) == Ok(M1(Value()))
    {
      match r {
        case ScalarRecord(fieldNum, v, _) =>
          if fieldNum == 2 {
            Retry := v;
          } else if fieldNum == 3 {
            TimeStamp := v;
          } else if fieldNum == 4 {
            Version := v;
          }
        case BlockRecord(fieldNum, payload, _) =>
          if fieldNum == 1 {
            Data := Slice(payload);
          }
        case UnknownRecord(_) =>
      }
    }

    method Unmarshal(dAtA: seq<byte>) returns (err: Option<Error>)
      requires |dAtA| < TWO_63
      modifies this
      ensures Reports(err, M1(Value()), Parse(M1(old(Value())), dAtA, 0))
    {
      hide NextRecord, Apply, Parse;
      var iNdEx: nat := 0;
      ghost var goal := Parse(M1(Value()), dAtA, 0);
      assert dAtA[0..] == dAtA;
      while iNdEx < |dAtA|
        invariant iNdEx <= |dAtA| && Parse(M1(Value()), dAtA[iNdEx..], iNdEx) == goal
      {
        var r := ReadRecord(M1(FRESH1), dAtA, iNdEx);
        RecordFor(M1(FRESH1), M1(Value()), dAtA[iNdEx..], iNdEx);
        ParseStep(M1(Value()), dAtA[iNdEx..], iNdEx);
        if r.Err? {
          return Some(r.error);
        }
        Assign(r.value);
        assert dAtA[iNdEx..][r.value.length..] == dAtA[iNdEx + r.value.length..];
        iNdEx := iNdEx + r.value.length;
      }
      ParseEnd(M1(Value()), iNdEx);
      assert dAtA[iNdEx..] == [];
      return None;
    }

    /** A nil argument, a pointer that may be nil, a struct, or something of another type. */
    static method Equal(m: RemoteMSG?, that: Any) returns (b: bool)
      ensures b == match that
        case NilInterface => m == null
        case Pointer1(p) => if m == null || p == null then m == p else Codec.Equal1(m.Value(), p.Value())
        case Value1(v) => m != null && Codec.Equal1(m.Value(), v.Value())
        case _ => false
    {
      if that == NilInterface {
        return m == null;
      }
      var that1: RemoteMSG?;
      match that {
        case Pointer1(p) => that1 := p;
        case Value1(v) => that1 := v;
        case _ => return false;
      }
      if that1 == null {
        return m == null;
      } else if m == null {
        return false;
      }
      if m.Data.Bytes() != that1.Data.Bytes() {
        return false;
      }
      if m.Retry != that1.Retry {
        return false;
      }
      if m.TimeStamp != that1.TimeStamp {
        return false;
      }
      if m.Version != that1.Version {
        return false;
      }
      return true;
    }
  }

  /** Which record is read depends on the type of the message, not on its contents. */
  lemma RecordFor(kind: Message, m: Message, s: seq<byte>, at: nat)
    requires at + |s| < TWO_63 && SameType(kind, m)
    ensures NextRecord(kind, s, at) == NextRecord(m, s, at)
  {
    hide Scan, SkipFrom;
  }

  /** One turn of the loop: apply the record that stands first, then go on behind it. */
  lemma ParseStep(m: Message, s: seq<byte>, at: nat)
    requires at + |s| < TWO_63 && s != []
    ensures Parse(m, s, at) == match NextRecord(m, s, at)
      case Err(e) => Err(e)
      case Ok(r) => match Apply(m, r)
        case Err(e) => Err(e)
        case Ok(n) => Parse(n, s[r.length..], at + r.length)
  {
    hide NextRecord, Apply;
  }

  /** A payload is shorter than the field that carries it. */
  lemma BytesFit(field: nat, p: seq<byte>)
    requires 1 <= field < 16
    ensures |p| <= |EncodeBytes(field, p)|
  {
  }

  class RemoteMSG2 {
    var State: Slice
    var Events: Slice
    var Serial: seq<byte>
    var Retry: int64
    var TimeStamp: int64
    var Data: Slice
    var Version: int64

    constructor ()
      ensures Value() == FRESH2
    {
      State, Events, Serial, Retry, TimeStamp, Data, Version := Nil, Nil, [], 0, 0, Nil, 0;
    }

    function Value(): Msg2
      reads this
    {
      Msg2(State, Events, Serial, Retry, TimeStamp, Data, Version)
    }

    method Size() returns (n: nat)
      ensures n == |Encode2(Value())|
    {
      hide Sov, Encode2;
      n := 0;
      var l := |State.Bytes()|;
      if l > 0 {
        n := n + 1 + l + Sov(l);
      }
      l := |Events.Bytes()|;
      if l > 0 {
        n := n + 1 + l + Sov(l);
      }
      l := |Serial|;
      if l > 0 {
        n := n + 1 + l + Sov(l);
      }
      assert n == SizeBytes(|State.Bytes()|) + SizeBytes(|Events.Bytes()|) + SizeBytes(|Serial|);
      ghost var n0 := n;
      if Retry != 0 {
        n := n + 1 + Sov(ToUint64(Retry));
      }
      if TimeStamp != 0 {
        n := n + 1 + Sov(ToUint64(TimeStamp));
      }
      assert n == n0 + SizeScalar(Retry) + SizeScalar(TimeStamp);
      l := |Data.Bytes()|;
      if l > 0 {
        n := n + 1 + l + Sov(l);
      }
      if Version != 0 {
        n := n + 1 + Sov(ToUint64(Version));
      }
      Size2IsLength(Value());
    }

    method MarshalToSizedBuffer(dAtA: array<byte>, end: nat) returns (n: nat)
      requires |Encode2(Value())| <= end <= dAtA.Length && |Encode2(Value())| < TWO_63
      modifies dAtA
      ensures Value() == old(Value()) && n == |Encode2(Value())|
      ensures Wrote(old(dAtA[..]), dAtA[..], end - n, end, Encode2(Value()))
    {
      BytesFit(1, State.Bytes());
      BytesFit(2, Events.Bytes());
      BytesFit(3, Serial);
      BytesFit(6, Data.Bytes());
      Encode2Nested(Value());
      hide EncodeScalar, EncodeBytes, Encode2;
      ghost var a := dAtA[..];
      WroteNothing(a, end);
      var i := PutScalar(dAtA, end, 7, Version, a, end, []);
      ghost var x := EncodeScalar(7, Version) + [];
      i := PutBytes(dAtA, i, 6, Data.Bytes(), a, end, x);
      x := EncodeBytes(6, Data.Bytes()) + x;
      i := PutScalar(dAtA, i, 5, TimeStamp, a, end, x);
      x := EncodeScalar(5, TimeStamp) + x;
      i := PutScalar(dAtA, i, 4, Retry, a, end, x);
      x := EncodeScalar(4, Retry) + x;
      i := PutBytes(dAtA, i, 3, Serial, a, end, x);
      x := EncodeBytes(3, Serial) + x;
      i := PutBytes(dAtA, i, 2, Events.Bytes(), a, end, x);
      x := EncodeBytes(2, Events.Bytes()) + x;
      i := PutBytes(dAtA, i, 1, State.Bytes(), a, end, x);
      return end - i;
    }

    method Marshal() returns (dAtA: array<byte>)
      requires |Encode2(Value())| < TWO_63
      ensures fresh(dAtA) && dAtA[..] == Encode2(Value())
    {
      hide Encode1, Encode2, EncodeSnap;
      var size := Size();
      dAtA := new byte[size](_ => 0);
      var n := MarshalToSizedBuffer(dAtA, size);
    }

    method Assign(r: Record)
      requires r.BlockRecord? ==> |r.payload| < TWO_63
      modifies this
      ensures Apply(M2(old(Value())), r) == Ok(M2(Value()))
    {
      match r {
        case ScalarRecord(fieldNum, v, _) =>
          if fieldNum == 4 {
            Retry := v;
          } else if fieldNum == 5 {
            TimeStamp := v;
          } else if fieldNum == 7 {
            Version := v;
          }
        case BlockRecord(fieldNum, payload, _) =>
          if fieldNum == 1 {
            State := Slice(payload);
          } else if fieldNum == 2 {
            Events := Slice(payload);
          } else if fieldNum == 3 {
            Serial := payload;
          } else if fieldNum == 6 {
            Data := Slice(payload);
          }
        case UnknownRecord(_) =>
      }
    }

    method Unmarshal(dAtA: seq<byte>) returns (err: Option<Error>)
      requires |dAtA| < TWO_63
      modifies this
      ensures Reports(err, M2(Value()), Parse(M2(old(Value())), dAtA, 0))
    {
      hide NextRecord, Apply, Parse;
      var iNdEx: nat := 0;
      ghost var goal := Parse(M2(Value()), dAtA, 0);
      assert dAtA[0..] == dAtA;
      while iNdEx < |dAtA|
        invariant iNdEx <= |dAtA| && Parse(M2(Value()), dAtA[iNdEx..], iNdEx) == goal
      {
        var r := ReadRecord(M2(FRESH2), dAtA, iNdEx);
        RecordFor(M2(FRESH2), M2(Value()), dAtA[iNdEx..], iNdEx);
        ParseStep(M2(Value()), dAtA[iNdEx..], iNdEx);
        if r.Err? {
          return Some(r.error);
        }
        Assign(r.value);
        assert dAtA[iNdEx..][r.value.length..] == dAtA[iNdEx + r.value.length..];
        iNdEx := iNdEx + r.value.length;
      }
      ParseEnd(M2(Value()), iNdEx);
      assert dAtA[iNdEx..] == [];
      return None;
    }

    /** A nil argument, a pointer that may be nil, a struct, or something of another type. */
    static method Equal(m: RemoteMSG2?, that: Any) returns (b: bool)
      ensures b == match that
        case NilInterface => m == null
        case Pointer2(p) => if m == null || p == null then m == p else Codec.Equal2(m.Value(), p.Value())
        case Value2(v) => m != null && Codec.Equal2(m.Value(), v.Value())
        case _ => false
    {
      if that == NilInterface {
        return m == null;
      }
      var that1: RemoteMSG2?;
      match that {
        case Pointer2(p) => that1 := p;
        case Value2(v) => that1 := v;
        case _ => return false;
      }
      if that1 == null {
        return m == null;
      } else if m == null {
        return false;
      }
      if m.State.Bytes() != that1.State.Bytes() {
        return false;
      }
      if m.Events.Bytes() != that1.Events.Bytes() {
        return false;
      }
      if m.Serial != that1.Serial {
        return false;
      }
      if m.Retry != that1.Retry {
        return false;
      }
      if m.TimeStamp != that1.TimeStamp {
        return false;
      }
      if m.Data.Bytes() != that1.Data.Bytes() {
        return false;
      }
      if m.Version != that1.Version {
        return false;
      }
      return true;
    }
  }

  /** The encoding in the order the backward writer builds it. */
  lemma Encode2Nested(m: Msg2)
    ensures Encode2(m) == EncodeBytes(1, m.state.Bytes()) + (EncodeBytes(2, m.events.Bytes())
      + (EncodeBytes(3, m.serial) + (EncodeScalar(4, m.retry) + (EncodeScalar(5, m.timeStamp)
      + (EncodeBytes(6, m.data.Bytes()) + (EncodeScalar(7, m.version) + []))))))
  {
    hide EncodeScalar, EncodeBytes;
  }

  class RemoteSnapshot {
    var TimeStamp: int64
    var LastMSG: RemoteMSG?

    constructor ()
      ensures Value() == Snap(0, None)
    {
      TimeStamp, LastMSG := 0, null;
    }

    function Value(): Snap
      reads this, LastMSG
    {
      Snap(TimeStamp, if LastMSG == null then None else Some(LastMSG.Value()))
    }

    method Size() returns (n: nat)
      ensures n == |EncodeSnap(Value())|
    {
      n := 0;
      if TimeStamp != 0 {
        n := n + 1 + Sov(ToUint64(TimeStamp));
      }
      if LastMSG != null {
        var l := LastMSG.Size();
        n := n + 1 + l + Sov(l);
        Size1IsLength(LastMSG.Value());
      }
      hide Sov, EncodeSnap, Encode1, Size1;
      SizeIsLength(S(Value()));
    }

    method MarshalToSizedBuffer(dAtA: array<byte>, end: nat) returns (n: nat)
      requires |EncodeSnap(Value())| <= end <= dAtA.Length && |EncodeSnap(Value())| < TWO_63
      modifies dAtA
      ensures Value() == old(Value()) && n == |EncodeSnap(Value())|
      ensures Wrote(old(dAtA[..]), dAtA[..], end - n, end, EncodeSnap(Value()))
    {
      hide EncodeScalar, Encode1, EncodeVarint;
      ghost var a := dAtA[..];
      WroteNothing(a, end);
      var i := end;
      ghost var x: seq<byte> := [];
      if LastMSG != null {
        var size := LastMSG.MarshalToSizedBuffer(dAtA, i);
        i := i - size;
        ghost var b, j := dAtA[..], i;
        i := PutHeader(dAtA, i, 2, size);
        WroteBelow(a, b, dAtA[..], i, j, end, Encode1(LastMSG.Value()), [8 * 2 + 2] + EncodeVarint(size));
        x := EncodeBlock(2, Encode1(LastMSG.Value()));
      }
      i := PutScalar(dAtA, i, 1, TimeStamp, a, end, x);
      assert EncodeScalar(1, TimeStamp) + x == EncodeSnap(Value());
      return end - i;
    }

    method Marshal() returns (dAtA: array<byte>)
      requires |EncodeSnap(Value())| < TWO_63
      ensures fresh(dAtA) && dAtA[..] == EncodeSnap(Value())
    {
      hide Encode1, Encode2, EncodeSnap;
      var size := Size();
      dAtA := new byte[size](_ => 0);
      var n := MarshalToSizedBuffer(dAtA, size);
    }

    /** A nil `LastMSG` is created on its first record; later ones are unmarshalled into it. */
    method Assign(r: Record) returns (err: Option<Error>)
      requires r.BlockRecord? ==> |r.payload| < TWO_63
      modifies this, LastMSG
      ensures Reports(err, S(Value()), Apply(S(old(Value())), r))
      ensures LastMSG == old(LastMSG) || fresh(LastMSG)
    {
      err := None;
      match r {
        case ScalarRecord(fieldNum, v, _) =>
          if fieldNum == 1 {
            TimeStamp := v;
          }
        case BlockRecord(fieldNum, payload, _) =>
          if fieldNum == 2 {
            hide Parse;
            if LastMSG == null {
              LastMSG := new RemoteMSG();
            }
            err := LastMSG.Unmarshal(payload);
          }
        case UnknownRecord(_) =>
      }
    }

    method Unmarshal(dAtA: seq<byte>) returns (err: Option<Error>)
      requires |dAtA| < TWO_63
      modifies this, LastMSG
      ensures Reports(err, S(Value()), Parse(S(old(Value())), dAtA, 0))
      ensures LastMSG == old(LastMSG) || fresh(LastMSG)
    {
      hide NextRecord, Apply, Parse;
      var iNdEx: nat := 0;
      ghost var goal := Parse(S(Value()), dAtA, 0);
      assert dAtA[0..] == dAtA;
      while iNdEx < |dAtA|
        invariant iNdEx <= |dAtA| && Parse(S(Value()), dAtA[iNdEx..], iNdEx) == goal
        invariant LastMSG == old(LastMSG) || fresh(LastMSG)
      {
        var r := ReadRecord(S(Snap(0, None)), dAtA, iNdEx);
        RecordFor(S(Snap(0, None)), S(Value()), dAtA[iNdEx..], iNdEx);
        ParseStep(S(Value()), dAtA[iNdEx..], iNdEx);
        if r.Err? {
          return Some(r.error);
        }
        var e := Assign(r.value);
        if e != None {
          return e;
        }
        assert dAtA[iNdEx..][r.value.length..] == dAtA[iNdEx + r.value.length..];
        iNdEx := iNdEx + r.value.length;
      }
      ParseEnd(S(Value()), iNdEx);
      assert dAtA[iNdEx..] == [];
      return None;
    }

    /** A nil argument, a pointer that may be nil, a struct, or something of another type. */
    static method Equal(m: RemoteSnapshot?, that: Any) returns (b: bool)
      ensures b == match that
        case NilInterface => m == null
        case PointerS(p) => if m == null || p == null then m == p else Codec.EqualSnap(m.Value(), p.Value())
        case ValueS(v) => m != null && Codec.EqualSnap(m.Value(), v.Value())
        case _ => false
    {
      if that == NilInterface {
        return m == null;
      }
      var that1: RemoteSnapshot?;
      match that {
        case PointerS(p) => that1 := p;
        case ValueS(v) => that1 := v;
        case _ => return false;
      }
      if that1 == null {
        return m == null;
      } else if m == null {
        return false;
      }
      if m.TimeStamp != that1.TimeStamp {
        return false;
      }
      var same := RemoteMSG.Equal(m.LastMSG, Pointer1(that1.LastMSG));
      if !same {
        return false;
      }
      return true;
    }
  }
}
