/**
 Base-128 varints: the encoding, its length `sovMessages`, the backward-filling writer
 `encodeVarintMessages` and the forward reading loop every unmarshaller repeats.
 */
module Varint {
  import opened MachineInts

  /** The errors of the generated unmarshaller. */
  datatype Error =
    | IntOverflow | UnexpectedEOF | InvalidLength | UnexpectedEndOfGroup
    | IllegalWireType | EndGroupForNonGroup | IllegalTag | WrongWireType

  datatype Result<+T> = Ok(value: T) | Err(error: Error)

  /** Ten groups of seven bits cover a 64-bit word. */
  const MAX_BYTES: nat := 10

  /** A number together with the count of bytes it was read from. */
  datatype Read = Read(value: nat, length: nat)

  /** The varint at the front of s, when at most `room` bytes may be used; not yet reduced to 64 bits. */
  function Scan(s: seq<byte>, room: nat): (r: Result<Read>)
    ensures r.Ok? ==> 1 <= r.value.length <= room && r.value.length <= |s|
  {
    if room == 0 then Err(IntOverflow)
    else if s == [] then Err(UnexpectedEOF)
    else if s[0] < 128 then Ok(Read(s[0], 1))
    else match Scan(s[1..], room - 1)
      case Ok(r) => Ok(Read(s[0] - 128 + 128 * r.value, r.length + 1))
      case Err(e) => Err(e)
  }

  /** What the reading loop computes: ten bytes at most, bits above the 64th dropped. */
  function ReadVarint(s: seq<byte>): (r: Result<Read>)
    ensures r.Ok? ==> 1 <= r.value.length <= 10 && r.value.length <= |s| && r.value.value < TWO_64
  {
    match Scan(s, MAX_BYTES)
    case Ok(r) => Ok(Read(r.value % TWO_64, r.length))
    case Err(e) => Err(e)
  }

  function EncodeVarint(v: nat): seq<byte> {
    if v < 128 then [v] else [v % 128 + 128] + EncodeVarint(v / 128)
  }

  /** `sovMessages`: the size of v as a varint, from its bit length. */
  function Sov(v: nat): nat {
    (BitLen(BitOr(v, 1)) + 6) / 7
  }

  // ---------- the length formula ----------

  lemma BitLenOrOne(v: nat)
    ensures BitLen(BitOr(v, 1)) == if v == 0 then 1 else BitLen(v)
  {
    OrOne(v);
    var w := BitOr(v, 1);
    assert w / 2 == v / 2;
    assert BitLen(w) == 1 + BitLen(w / 2);
  }

  lemma BitLenSeven(v: nat)
    requires v >= 128
    ensures BitLen(v) == 7 + BitLen(v / 128)
  {
    hide BitLen;
    BitLenTwo(v);
    BitLenTwo(v / 4);
    BitLenTwo(v / 16);
    assert v / 4 / 4 == v / 16 && v / 16 / 4 == v / 64 && v / 64 / 2 == v / 128;
    BitLenHalf(v / 64);
  }

  lemma BitLenHalf(v: nat)
    requires v > 0
    ensures BitLen(v) == 1 + BitLen(v / 2)
  {
  }

  lemma BitLenTwo(v: nat)
    requires v >= 2
    ensures BitLen(v) == 2 + BitLen(v / 4)
  {
    hide BitLen;
    BitLenHalf(v);
    BitLenHalf(v / 2);
    assert v / 2 / 2 == v / 4;
  }

  /** The bit-length formula counts base-128 digits. */
  lemma SovStep(v: nat)
    ensures Sov(v) == if v < 128 then 1 else 1 + Sov(v / 128)
  {
    BitLenOrOne(v);
    BitLenOrOne(v / 128);
    if v < 128 {
      BitLenSmall(v);
    } else {
      BitLenSeven(v);
    }
  }

  lemma BitLenSmall(v: nat)
    requires v < 128
    ensures BitLen(v) <= 7 && (v > 0 ==> BitLen(v) >= 1)
  {
    hide Scale;
    ScaleSeven(1, 0);
    assert Scale(128, 0) == 128 by { ScaleZero(128); }
    BitLenBelow(v, 7);
  }

  lemma ScaleZero(x: nat)
    ensures Scale(x, 0) == x
  {
  }

  lemma {:induction false} BitLenBelow(v: nat, k: nat)
    requires v < Scale(1, k)
    ensures BitLen(v) <= k
  {
    if v > 0 {
      BitLenBelow(v / 2, k - 1);
    }
  }

  /** `sovMessages` is exactly the length of the encoding. */
  lemma {:induction false} SovIsLength(v: nat)
    ensures |EncodeVarint(v)| == Sov(v)
    ensures Sov(v) >= 1
  {
    SovStep(v);
    if v >= 128 {
      SovIsLength(v / 128);
    }
  }

  lemma {:induction false} SovMonotone(v: nat, w: nat)
    requires v <= w
    ensures Sov(v) <= Sov(w)
  {
    SovStep(v);
    SovStep(w);
    if v >= 128 {
      SovMonotone(v / 128, w / 128);
    } else if w >= 128 {
      SovIsLength(w / 128);
    }
  }

  /** The size of a length prefix is subadditive, so merging two blocks never costs more. */
  lemma {:induction false} SovSubadditive(v: nat, w: nat)
    ensures Sov(v + w) <= Sov(v) + Sov(w)
  {
    SovIsLength(v);
    SovIsLength(w);
    if v <= w {
      SovDouble(w);
      SovMonotone(v + w, 2 * w);
    } else {
      SovDouble(v);
      SovMonotone(v + w, 2 * v);
    }
  }

  lemma {:induction false} SovDouble(w: nat)
    ensures Sov(2 * w) <= Sov(w) + 1
  {
    hide Sov;
    var h, d := w / 128, 2 * w / 128;
    SovStep(w);
    SovStep(2 * w);
    assert d <= 2 * h + 1;
    if w >= 128 {
      SovDouble(h);
      SovMonotone(d, 2 * h + 1);
      SovOdd(h);
    } else {
      SovStep(d);
    }
  }

  /** An even number and its successor have the same size. */
  lemma SovOdd(w: nat)
    ensures Sov(2 * w + 1) == Sov(2 * w)
  {
    OrOne(2 * w);
    OrOne(2 * w + 1);
  }

  // ---------- reading what was written ----------

  lemma {:induction false} ScanEncoded(v: nat, rest: seq<byte>, room: nat)
    requires Sov(v) <= room
    ensures Scan(EncodeVarint(v) + rest, room) == Ok(Read(v, Sov(v)))
  {
    SovStep(v);
    var s := EncodeVarint(v) + rest;
    if v >= 128 {
      ScanEncoded(v / 128, rest, room - 1);
      assert s[1..] == EncodeVarint(v / 128) + rest;
    } else {
      SovIsLength(v);
    }
  }

  lemma {:induction false} SovBounded(v: nat, k: nat)
    requires 1 <= k && v < Scale(1, 7 * k)
    ensures Sov(v) <= k
  {
    SovStep(v);
    if v >= 128 {
      ScaleTimes128(7 * (k - 1));
      if k > 1 {
        SovBounded(v / 128, k - 1);
      }
    }
  }

  lemma ScaleTimes128(k: nat)
    ensures Scale(1, k + 7) == 128 * Scale(1, k)
  {
    hide Scale;
    ScaleTwo(1, k);
    ScaleTwo(1, k + 2);
    ScaleTwo(1, k + 4);
    ScaleNext(1, k + 6);
  }

  lemma Sov64(v: uint64)
    ensures 1 <= Sov(v) <= 10
  {
    hide Scale;
    SovIsLength(v);
    ScaleWord(1);
    ScaleMonotone(1, 64, 1, 70);
    SovBounded(v, 10);
  }

  /** Round trip: every 64-bit value is read back from its encoding, whatever follows it. */
  lemma ReadEncoded(v: uint64, rest: seq<byte>)
    ensures ReadVarint(EncodeVarint(v) + rest) == Ok(Read(v, |EncodeVarint(v)|))
  {
    hide Sov, EncodeVarint, Scan;
    Sov64(v);
    SovIsLength(v);
    ScanEncoded(v, rest, MAX_BYTES);
  }

  /** A varint read inside s is read alike when s is extended. */
  lemma {:induction false} ScanPrefix(s: seq<byte>, x: seq<byte>, room: nat)
    requires Scan(s, room).Ok?
    ensures Scan(s + x, room) == Scan(s, room)
  {
    if s[0] >= 128 {
      assert (s + x)[1..] == s[1..] + x;
      ScanPrefix(s[1..], x, room - 1);
    }
  }

  lemma {:induction false} ScanBound(s: seq<byte>, room: nat)
    requires Scan(s, room).Ok?
    ensures var r := Scan(s, room).value; r.value < Scale(1, 7 * r.length)
  {
    var r := Scan(s, room).value;
    if s[0] < 128 {
      ScaleTimes128(0);
    } else {
      ScanBound(s[1..], room - 1);
      ScaleTimes128(7 * (r.length - 1));
    }
  }

  /** Minimality: no accepted spelling of a value is shorter than its own encoding. */
  lemma EncodingIsMinimal(s: seq<byte>)
    requires ReadVarint(s).Ok?
    ensures var r := ReadVarint(s).value; Sov(r.value) <= r.length
  {
    var r := Scan(s, MAX_BYTES).value;
    ScanBound(s, MAX_BYTES);
    SovBounded(r.value, r.length);
    SovMonotone(r.value % TWO_64, r.value);
  }

  // ---------- the loops ----------

  /** One turn of the reading loop: or-ing in the next seven bits is an addition. */
  lemma OrDigit(v: nat, digit: nat, n: nat)
    requires n < 10 && digit < 128 && v < Scale(1, 7 * n)
    ensures BitOr(v, Shl64(digit, 7 * n)) == v + Shl64(digit, 7 * n) < TWO_64
    ensures n < 9 ==> BitOr(v, Shl64(digit, 7 * n)) < Scale(1, 7 * (n + 1))
  {
    hide Scale, BitOr;
    if n < 9 {
      DigitBelow(digit, 7 * n);
      ScaleMonotone(1, 7 * n + 7, 1, 63);
      ScaleWord(1);
      OrIsSum(v, digit, 7 * n);
    } else {
      TopDigit(digit);
      ScaleWord(1);
      OrIsSum(v, digit % 2, 63);
    }
  }

  lemma DigitBelow(digit: nat, k: nat)
    requires digit < 128
    ensures Scale(digit, k) + Scale(1, k) <= Scale(1, k + 7)
  {
    hide Scale;
    ScaleSeven(1, k);
    ScaleAdd(digit, 1, k);
    ScaleMonotone(digit + 1, k, 128, k);
  }

  /** Only the lowest bit of the tenth group survives. */
  lemma TopDigit(digit: nat)
    ensures Shl64(digit, 63) == Scale(digit % 2, 63) == TWO_63 * (digit % 2)
  {
    hide Scale;
    ScaleAdd(2 * (digit / 2), digit % 2, 63);
    ScaleOnce(digit / 2, 63);
    ScaleWord(digit / 2);
    ScaleWord(digit % 2);
  }

  /** What the loop still to run makes of the bits v gathered from n bytes. */
  function Finish(v: nat, n: nat, rest: Result<Read>): Result<Read> {
    match rest
    case Ok(r) => Ok(Read((v + Scale(r.value, 7 * n)) % TWO_64, n + r.length))
    case Err(e) => Err(e)
  }

  lemma FinishStep(v: nat, n: nat, digit: nat, r: nat)
    ensures (v + Shl64(digit, 7 * n) + Scale(r, 7 * n + 7)) % TWO_64 == (v + Scale(digit + 128 * r, 7 * n)) % TWO_64
  {
    hide Scale;
    ScaleSeven(r, 7 * n);
    ScaleAdd(digit, 128 * r, 7 * n);
    DropHighBits(v, Scale(digit, 7 * n), Scale(128 * r, 7 * n));
  }

  lemma DropHighBits(v: nat, y: nat, z: nat)
    ensures (v + y % TWO_64 + z) % TWO_64 == (v + (y + z)) % TWO_64
  {
  }

  /** One turn of the reading loop, on what is left of the input. */
  lemma Turn(v: nat, n: nat, s: seq<byte>, v': uint64)
    requires n < 10 && s != [] && v' == v + Shl64(s[0] % 128, 7 * n)
    ensures Finish(v, n, Scan(s, MAX_BYTES - n)) ==
      if s[0] < 128 then Ok(Read(v', n + 1)) else Finish(v', n + 1, Scan(s[1..], MAX_BYTES - n - 1))
  {
    hide Scale;
    var rest := Scan(s[1..], MAX_BYTES - n - 1);
    if s[0] < 128 {
    } else if rest.Ok? {
      FinishStep(v, n, s[0] - 128, rest.value.value);
    }
  }

  /** The reading loop holds v after n bytes, has `left` still ahead, and will end in `goal`. */
  ghost predicate IsReading(v: nat, n: nat, left: seq<byte>, goal: Result<Read>) {
    n <= 10 && (n < 10 ==> v < Scale(1, 7 * n)) && Finish(v, n, Scan(left, MAX_BYTES - n)) == goal
  }

  lemma ReadingStarts(s: seq<byte>)
    ensures IsReading(0, 0, s, ReadVarint(s))
  {
    hide Scan;
    ScaleZero(1);
    if Scan(s, MAX_BYTES).Ok? {
      ScaleZero(Scan(s, MAX_BYTES).value.value);
    }
  }

  lemma ReadingFails(v: nat, n: nat, left: seq<byte>, goal: Result<Read>)
    requires IsReading(v, n, left, goal)
    ensures n == 10 ==> goal == Err(IntOverflow)
    ensures n < 10 && left == [] ==> goal == Err(UnexpectedEOF)
  {
    hide Scale;
  }

  lemma ReadingTurn(v: nat, n: nat, left: seq<byte>, goal: Result<Read>)
    requires IsReading(v, n, left, goal) && n < 10 && left != []
    ensures var x := BitOr(v, Shl64(left[0] % 128, 7 * n));
      x < TWO_64 && if left[0] < 128 then goal == Ok(Read(x, n + 1)) else IsReading(x, n + 1, left[1..], goal)
  {
    hide Scale, BitOr, Shl64;
    OrDigit(v, left[0] % 128, n);
    Turn(v, n, left, BitOr(v, Shl64(left[0] % 128, 7 * n)));
  }

  /** The inner `for shift` loop of the unmarshallers, reading one varint of dAtA from `start`. */
  method ReadVarintAt(dAtA: seq<byte>, start: nat) returns (r: Result<Read>)
    requires start <= |dAtA|
    ensures r == ReadVarint(dAtA[start..])
  {
    var v: nat, iNdEx, shift := 0, start, 0;
    ghost var n: nat, goal := 0, ReadVarint(dAtA[start..]);
    ReadingStarts(dAtA[start..]);
    hide IsReading, BitOr, Shl64, ReadVarint;
    while true
      invariant n <= 10 && shift == 7 * n && iNdEx == start + n <= |dAtA|
      invariant IsReading(v, n, dAtA[iNdEx..], goal)
      decreases 10 - n
    {
      ghost var left := dAtA[iNdEx..];
      ReadingFails(v, n, left, goal);
      if shift >= 64 {
        return Err(IntOverflow);
      }
      if iNdEx >= |dAtA| {
        return Err(UnexpectedEOF);
      }
      var b := dAtA[iNdEx];
      assert left[0] == b && left[1..] == dAtA[iNdEx + 1..];
      ReadingTurn(v, n, left, goal);
      v := BitOr(v, Shl64(b % 128, shift));
      iNdEx := iNdEx + 1;
      if b < 128 {
        return Ok(Read(v, iNdEx - start));
      }
      n := n + 1;
      shift := shift + 7;
    }
  }

  /** `dAtA[i] = x` */
  method PutByte(dAtA: array<byte>, i: nat, x: byte, ghost offset: nat)
    requires i < offset <= dAtA.Length
    modifies dAtA
    ensures dAtA[..i + 1] == old(dAtA[..i]) + [x] && dAtA[offset..] == old(dAtA[offset..])
    ensures i + 1 == offset ==> dAtA[..] == old(dAtA[..i]) + [x] + old(dAtA[offset..])
  {
    dAtA[i] := x;
    assert dAtA[..] == dAtA[..offset] + dAtA[offset..];
  }

  /** One turn of the writing loop: the lowest seven bits, with the mark that more follow. */
  method PutDigit(dAtA: array<byte>, i: nat, w: uint64, ghost offset: nat) returns (high: uint64)
    requires i + |EncodeVarint(w)| == offset <= dAtA.Length && w >= 128
    modifies dAtA
    ensures high < w && i + 1 + |EncodeVarint(high)| == offset
    ensures dAtA[..i + 1] + EncodeVarint(high) == old(dAtA[..i]) + EncodeVarint(w)
    ensures dAtA[offset..] == old(dAtA[offset..])
  {
    hide EncodeVarint, BitOr;
    LowBits(w);
    FillDigit(dAtA[..i], w);
    PutByte(dAtA, i, BitOr(w % 128, 128), offset);
    high := w / 128;
  }

  /** `encodeVarintMessages`: fills exactly the Sov(v) bytes that end at `offset`. */
  method EncodeVarintAt(dAtA: array<byte>, offset: nat, v: uint64) returns (base: nat)
    requires Sov(v) <= offset <= dAtA.Length
    modifies dAtA
    ensures base == offset - Sov(v)
    ensures dAtA[..] == old(dAtA[..base]) + EncodeVarint(v) + old(dAtA[offset..])
  {
    SovIsLength(v);
    var i := offset - Sov(v);
    base := i;
    var w: uint64 := v;
    hide EncodeVarint, Sov;
    while w >= 128
      invariant base <= i && i + |EncodeVarint(w)| == offset
      invariant dAtA[..i] + EncodeVarint(w) == old(dAtA[..base]) + EncodeVarint(v)
      invariant dAtA[offset..] == old(dAtA[offset..])
    {
      w := PutDigit(dAtA, i, w, offset);
      i := i + 1;
    }
    LastDigit(w);
    PutByte(dAtA, i, w % 256, offset);
  }

  /** One turn of the writing loop. */
  lemma FillDigit(before: seq<byte>, w: nat)
    requires w >= 128
    ensures |EncodeVarint(w)| == 1 + |EncodeVarint(w / 128)|
    ensures before + EncodeVarint(w) == before + [w % 128 + 128] + EncodeVarint(w / 128)
  {
    assert before + ([w % 128 + 128] + EncodeVarint(w / 128)) == before + [w % 128 + 128] + EncodeVarint(w / 128);
  }

  lemma LastDigit(w: nat)
    requires w < 128
    ensures EncodeVarint(w) == [w]
  {
  }

  /** `v & 0x7f | 0x80` */
  lemma LowBits(w: nat)
    ensures BitOr(w % 128, 128) == w % 128 + 128
  {
    ScaleSeven(1, 0);
    OrIsSum(w % 128, 1, 7);
  }
}
