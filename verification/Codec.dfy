/**
 The wire format of `RemoteMSG`, `RemoteMSG2` and `RemoteSnapshot` on values: what the three
 `Unmarshal` loops compute, what the three marshallers write, and the laws between them.
 The classes of module Messages are proved against these functions.
 */
module Codec {
  import opened MachineInts
  import opened Options
  import opened Varint
  import opened Wire

  /** A Go `[]byte`: nil is not the empty slice. */
  datatype Slice = Nil | Slice(elems: seq<byte>) {
    function Bytes(): seq<byte> {
      if Nil? then [] else elems
    }

    /** What a fresh message holds after this slice was marshalled and read back. */
    function Received(): Slice {
      if Bytes() == [] then Nil else this
    }
  }

  datatype Msg1 = Msg1(data: Slice, retry: int64, timeStamp: int64, version: int64)

  datatype Msg2 = Msg2(state: Slice, events: Slice, serial: seq<byte>, retry: int64,
                       timeStamp: int64, data: Slice, version: int64)

  datatype Snap = Snap(timeStamp: int64, lastMSG: Option<Msg1>)

  /** A message of any of the three types. */
  datatype Message = M1(m1: Msg1) | M2(m2: Msg2) | S(snap: Snap)

  const FRESH1 := Msg1(Nil, 0, 0, 0)
  const FRESH2 := Msg2(Nil, Nil, [], 0, 0, Nil, 0)

  predicate SameType(m: Message, n: Message) {
    m.M1? == n.M1? && m.M2? == n.M2?
  }

  function Fresh(m: Message): Message {
    match m
    case M1(_) => M1(FRESH1)
    case M2(_) => M2(FRESH2)
    case S(_) => S(Snap(0, None))
  }

  // ---------- unmarshalling ----------

  datatype Kind = Scalar | Block | Unknown

  /** The `switch fieldNum` of each unmarshaller: int64 fields, length-delimited fields, the rest. */
  function KindOf(m: Message, field: int): Kind {
    match m
    case M1(_) => if field == 1 then Block else if field in {2, 3, 4} then Scalar else Unknown
    case M2(_) => if field in {1, 2, 3, 6} then Block else if field in {4, 5, 7} then Scalar else Unknown
    case S(_) => if field == 2 then Block else if field == 1 then Scalar else Unknown
  }

  datatype Record =
    | ScalarRecord(field: int, v: int64, length: nat)
    | BlockRecord(field: int, payload: seq<byte>, length: nat)
    | UnknownRecord(length: nat)

  /** One turn of the `Unmarshal` loop at index `at`, with s still ahead: the record read there. */
  function NextRecord(m: Message, s: seq<byte>, at: nat): (r: Result<Record>)
    requires at + |s| < TWO_63
    ensures r.Ok? ==> 1 <= r.value.length <= |s|
    ensures r.Ok? && r.value.BlockRecord? ==> |r.value.payload| + 2 <= r.value.length
  {
    match ReadVarint(s)
    case Err(e) => Err(e)
    case Ok(tag) =>
      var field, wireType := ToInt32(tag.value / 8), tag.value % 8;
      if wireType == 4 then Err(EndGroupForNonGroup)
      else if field <= 0 then Err(IllegalTag)
      else match KindOf(m, field)
        case Scalar =>
          if wireType != 0 then Err(WrongWireType) else NextScalar(field, tag.length, s)
        case Block =>
          if wireType != 2 then Err(WrongWireType) else NextBlock(field, tag.length, s, at)
        case Unknown => NextUnknown(s, at)
  }

  function NextScalar(field: int, n: nat, s: seq<byte>): Result<Record>
    requires n <= |s|
  {
    match ReadVarint(s[n..])
    case Err(e) => Err(e)
    case Ok(v) => Ok(ScalarRecord(field, ToInt64(v.value), n + v.length))
  }

  function NextBlock(field: int, n: nat, s: seq<byte>, at: nat): Result<Record>
    requires n <= |s| && at + |s| < TWO_63
  {
    match ReadVarint(s[n..])
    case Err(e) => Err(e)
    case Ok(v) =>
      var byteLen := ToInt64(v.value);
      var start := n + v.length;
      if byteLen < 0 then Err(InvalidLength)
      else
        var postIndex := Wrap64(at + start + byteLen);
        if postIndex < 0 then Err(InvalidLength)
        else if postIndex > at + |s| then Err(UnexpectedEOF)
        else Ok(BlockRecord(field, s[start..start + byteLen], start + byteLen))
  }

  function NextUnknown(s: seq<byte>, at: nat): (r: Result<Record>)
    requires at + |s| < TWO_63
    ensures r.Ok? ==> r.value.UnknownRecord? && 1 <= r.value.length <= |s|
  {
    match SkipFrom(s, 0, 0)
    case Err(e) => Err(e)
    case Ok(skippy) =>
      SkipAdvances(s);
      var iNdEx := Wrap64(at + skippy);
      if iNdEx < 0 then Err(InvalidLength)
      else if iNdEx > at + |s| then Err(UnexpectedEOF)
      else Ok(UnknownRecord(skippy))
  }

  function SetScalar(m: Message, field: int, v: int64): Message {
    match m
    case M1(x) =>
      if field == 2 then M1(x.(retry := v))
      else if field == 3 then M1(x.(timeStamp := v))
      else if field == 4 then M1(x.(version := v)) else m
    case M2(x) =>
      if field == 4 then M2(x.(retry := v))
      else if field == 5 then M2(x.(timeStamp := v))
      else if field == 7 then M2(x.(version := v)) else m
    case S(x) => if field == 1 then S(x.(timeStamp := v)) else m
  }

  /** Assigns a length-delimited field; `LastMSG` is created when nil and then merged into. */
  function SetBlock(m: Message, field: int, payload: seq<byte>): (r: Result<Message>)
    requires |payload| < TWO_63
    ensures r.Ok? ==> SameType(m, r.value)
    decreases |payload|, 1
  {
    match m
    case M1(x) => Ok(if field == 1 then M1(x.(data := Slice(payload))) else m)
    case M2(x) =>
      Ok(if field == 1 then M2(x.(state := Slice(payload)))
         else if field == 2 then M2(x.(events := Slice(payload)))
         else if field == 3 then M2(x.(serial := payload))
         else if field == 6 then M2(x.(data := Slice(payload))) else m)
    case S(x) =>
      if field != 2 then Ok(m)
      else
        var last := if x.lastMSG.None? then FRESH1 else x.lastMSG.value;
        match Parse(M1(last), payload, 0)
        case Err(e) => Err(e)
        case Ok(merged) => Ok(S(x.(lastMSG := Some(merged.m1))))
  }

  function Apply(m: Message, r: Record): (n: Result<Message>)
    requires r.BlockRecord? ==> |r.payload| < TWO_63
    ensures n.Ok? ==> SameType(m, n.value)
    decreases if r.BlockRecord? then |r.payload| else 0, 2
  {
    match r
    case ScalarRecord(field, v, _) => Ok(SetScalar(m, field, v))
    case BlockRecord(field, payload, _) => SetBlock(m, field, payload)
    case UnknownRecord(_) => Ok(m)
  }

  /** The `Unmarshal` loop standing at index `at` with s still ahead and m filled in so far. */
  function Parse(m: Message, s: seq<byte>, at: nat): (r: Result<Message>)
    requires at + |s| < TWO_63
    ensures r.Ok? ==> SameType(m, r.value)
    decreases |s|, 0
  {
    if s == [] then Ok(m)
    else match NextRecord(m, s, at)
      case Err(e) => Err(e)
      case Ok(record) =>
        match Apply(m, record)
        case Err(e) => Err(e)
        case Ok(n) => Parse(n, s[record.length..], at + record.length)
  }

  /** Two outcomes agree on whether the input is accepted, and on the message if it is. */
  predicate SameOutcome(r: Result<Message>, q: Result<Message>) {
    r.Ok? == q.Ok? && (r.Ok? ==> r == q)
  }

  // ---------- marshalling ----------

  function EncodeScalar(field: nat, v: int64): seq<byte>
    requires 1 <= field < 16
  {
    if v == 0 then [] else [8 * field] + EncodeVarint(ToUint64(v))
  }

  /** A length-delimited field, present whatever its payload. */
  function EncodeBlock(field: nat, payload: seq<byte>): seq<byte>
    requires 1 <= field < 16
  {
    [8 * field + 2] + EncodeVarint(|payload|) + payload
  }

  /** Bytes and strings are left out when empty. */
  function EncodeBytes(field: nat, payload: seq<byte>): seq<byte>
    requires 1 <= field < 16
  {
    if payload == [] then [] else EncodeBlock(field, payload)
  }

  function Encode1(m: Msg1): seq<byte> {
    EncodeBytes(1, m.data.Bytes()) + EncodeScalar(2, m.retry)
    + EncodeScalar(3, m.timeStamp) + EncodeScalar(4, m.version)
  }

  function Encode2(m: Msg2): seq<byte> {
    EncodeBytes(1, m.state.Bytes()) + EncodeBytes(2, m.events.Bytes()) + EncodeBytes(3, m.serial)
    + EncodeScalar(4, m.retry) + EncodeScalar(5, m.timeStamp)
    + EncodeBytes(6, m.data.Bytes()) + EncodeScalar(7, m.version)
  }

  function EncodeSnap(m: Snap): seq<byte> {
    EncodeScalar(1, m.timeStamp)
    + if m.lastMSG.None? then [] else EncodeBlock(2, Encode1(m.lastMSG.value))
  }

  function Encode(m: Message): seq<byte> {
    match m
    case M1(x) => Encode1(x)
    case M2(x) => Encode2(x)
    case S(x) => EncodeSnap(x)
  }

  // ---------- sizes ----------

  function SizeScalar(v: int64): nat {
    if v == 0 then 0 else 1 + Sov(ToUint64(v))
  }

  function SizeBlock(l: nat): nat {
    1 + l + Sov(l)
  }

  function SizeBytes(l: nat): nat {
    if l > 0 then SizeBlock(l) else 0
  }

  function Size1(m: Msg1): nat {
    SizeBytes(|m.data.Bytes()|) + SizeScalar(m.retry) + SizeScalar(m.timeStamp) + SizeScalar(m.version)
  }

  function Size2(m: Msg2): nat {
    SizeBytes(|m.state.Bytes()|) + SizeBytes(|m.events.Bytes()|) + SizeBytes(|m.serial|)
    + SizeScalar(m.retry) + SizeScalar(m.timeStamp) + SizeBytes(|m.data.Bytes()|) + SizeScalar(m.version)
  }

  function SizeSnap(m: Snap): nat {
    SizeScalar(m.timeStamp) + if m.lastMSG.None? then 0 else SizeBlock(Size1(m.lastMSG.value))
  }

  /** The three `Size` methods. */
  function Size(m: Message): nat {
    match m
    case M1(x) => Size1(x)
    case M2(x) => Size2(x)
    case S(x) => SizeSnap(x)
  }

  // ---------- equality ----------

  predicate Equal1(m: Msg1, n: Msg1) {
    m.data.Bytes() == n.data.Bytes() && m.retry == n.retry && m.timeStamp == n.timeStamp && m.version == n.version
  }

  predicate Equal2(m: Msg2, n: Msg2) {
    && m.state.Bytes() == n.state.Bytes() && m.events.Bytes() == n.events.Bytes() && m.serial == n.serial
    && m.retry == n.retry && m.timeStamp == n.timeStamp && m.data.Bytes() == n.data.Bytes() && m.version == n.version
  }

  predicate EqualSnap(m: Snap, n: Snap) {
    && m.timeStamp == n.timeStamp
    && m.lastMSG.None? == n.lastMSG.None?
    && (m.lastMSG.Some? ==> Equal1(m.lastMSG.value, n.lastMSG.value))
  }

  /** The `Equal` methods on two non-nil messages: bytes compare by content, `LastMSG` also by presence. */
  predicate Equal(m: Message, n: Message) {
    match m
    case M1(x) => n.M1? && Equal1(x, n.m1)
    case M2(x) => n.M2? && Equal2(x, n.m2)
    case S(x) => n.S? && EqualSnap(x, n.snap)
  }

  // ---------- records do not depend on what follows them, nor on where they stand ----------

  lemma SkipExtend(s: seq<byte>, x: seq<byte>)
    requires |s| + |x| < TWO_63 && SkipFrom(s, 0, 0).Ok? && SkipFrom(s, 0, 0).value <= |s|
    ensures SkipFrom(s + x, 0, 0) == SkipFrom(s, 0, 0)
  {
    hide SkipFrom, IsRecord;
    var n := SkipFrom(s, 0, 0).value;
    SkipIsGrammar(s, n);
    SkipIsGrammar(s + x, n);
    assert (s + x)[..n] == s[..n];
  }

  lemma RecordExtend(m: Message, s: seq<byte>, x: seq<byte>, at: nat)
    requires at + |s| + |x| < TWO_63 && NextRecord(m, s, at).Ok?
    ensures NextRecord(m, s + x, at) == NextRecord(m, s, at)
  {
    hide SkipFrom, Scan;
    ScanPrefix(s, x, MAX_BYTES);
    var tag := ReadVarint(s).value;
    var field, n := ToInt32(tag.value / 8), tag.length;
    assert (s + x)[n..] == s[n..] + x;
    if KindOf(m, field).Unknown? {
      SkipExtend(s, x);
    } else {
      ScanPrefix(s[n..], x, MAX_BYTES);
      if KindOf(m, field).Block? {
        var start, end := n + ReadVarint(s[n..]).value.length, NextBlock(field, n, s, at).value.length;
        assert (s + x)[start..end] == s[start..end];
      }
    }
  }

  lemma RecordAnywhere(m: Message, n: Message, s: seq<byte>, at: nat, there: nat)
    requires at + |s| < TWO_63 && there + |s| < TWO_63 && SameType(m, n) && NextRecord(m, s, at).Ok?
    ensures NextRecord(n, s, there) == NextRecord(m, s, at)
  {
  }
}
