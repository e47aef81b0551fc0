/**
 The fixed-width integers of the Go code, written as mathematical integers with the
 wrap-around, truncation and bit operations stated explicitly. `int` is 64 bits wide.
 */
module MachineInts {
  const TWO_31 := 0x8000_0000
  const TWO_32 := 0x1_0000_0000
  const TWO_63 := 0x8000_0000_0000_0000
  const TWO_64 := 0x1_0000_0000_0000_0000

  type byte = b: int | 0 <= b < 256
  type int64 = x: int | -0x8000_0000_0000_0000 <= x < 0x8000_0000_0000_0000
  type uint64 = u: int | 0 <= u < 0x1_0000_0000_0000_0000

  /** `uint64(x)` for a signed x: the same 64 bits. */
  function ToUint64(x: int64): uint64 {
    if x < 0 then x + TWO_64 else x
  }

  /** `int64(u)` or `int(u)` for an unsigned u: the same 64 bits. */
  function ToInt64(u: uint64): int64 {
    if u < TWO_63 then u else u - TWO_64
  }

  /** `int32(u)`: the low 32 bits, read as a signed number. */
  function ToInt32(u: uint64): int {
    var low := u % TWO_32;
    if low < TWO_31 then low else low - TWO_32
  }

  /** The value a 64-bit signed addition or product leaves behind. */
  function Wrap64(x: int): (w: int64)
    ensures -TWO_63 <= x < TWO_63 ==> w == x
  {
    (x + TWO_63) % TWO_64 - TWO_63
  }

  /** `x | y` on non-negative numbers, bit by bit. */
  function BitOr(x: nat, y: nat): nat {
    if x == 0 && y == 0 then 0
    else 2 * BitOr(x / 2, y / 2) + (if x % 2 == 1 || y % 2 == 1 then 1 else 0)
  }

  /** The number of bits of x, as `math/bits.Len64`. */
  function BitLen(x: nat): nat {
    if x == 0 then 0 else 1 + BitLen(x / 2)
  }

  /** x times 2^k: x moved k places up in an unbounded word. */
  function Scale(x: nat, k: nat): nat
    decreases k
  {
    if k == 0 then x else 2 * Scale(x, k - 1)
  }

  /** `x << k` on a 64-bit word: the bits moved past the top are lost. */
  function Shl64(x: nat, k: nat): uint64 {
    Scale(x, k) % TWO_64
  }

  lemma {:induction false} ScaleAdd(x: nat, y: nat, k: nat)
    ensures Scale(x + y, k) == Scale(x, k) + Scale(y, k)
    decreases k
  {
    if k > 0 {
      ScaleAdd(x, y, k - 1);
    }
  }

  lemma {:induction false} ScaleOnce(x: nat, k: nat)
    ensures Scale(2 * x, k) == Scale(x, k + 1)
    decreases k
  {
    if k > 0 {
      ScaleOnce(x, k - 1);
    }
  }

  lemma ScaleSeven(x: nat, k: nat)
    ensures Scale(128 * x, k) == Scale(x, k + 7)
  {
    ScaleOnce(64 * x, k);
    ScaleOnce(32 * x, k + 1);
    ScaleOnce(16 * x, k + 2);
    ScaleOnce(8 * x, k + 3);
    ScaleOnce(4 * x, k + 4);
    ScaleOnce(2 * x, k + 5);
    ScaleOnce(x, k + 6);
  }

  lemma ScaleByte(x: nat, k: nat)
    ensures Scale(x, k + 8) == 256 * Scale(x, k)
  {
    hide Scale;
    ScaleTwo(x, k);
    ScaleTwo(x, k + 2);
    ScaleTwo(x, k + 4);
    ScaleTwo(x, k + 6);
  }

  lemma ScaleNext(x: nat, k: nat)
    ensures Scale(x, k + 1) == 2 * Scale(x, k)
  {
  }

  lemma ScaleTwo(x: nat, k: nat)
    ensures Scale(x, k + 2) == 4 * Scale(x, k)
  {
    hide Scale;
    ScaleNext(x, k);
    ScaleNext(x, k + 1);
  }

  lemma ScaleWord(x: nat)
    ensures Scale(x, 56) == 0x100_0000_0000_0000 * x
    ensures Scale(x, 63) == TWO_63 * x
    ensures Scale(x, 64) == TWO_64 * x
  {
    assert Scale(x, 0) == x;
    hide Scale;
    ScaleNext(x, 63);
    ScaleByte(x, 0); ScaleByte(x, 8); ScaleByte(x, 16); ScaleByte(x, 24);
    ScaleByte(x, 32); ScaleByte(x, 40); ScaleByte(x, 48); ScaleByte(x, 56);
  }

  lemma {:induction false} ScaleMonotone(x: nat, k: nat, y: nat, m: nat)
    requires x <= y && k <= m
    ensures Scale(x, k) <= Scale(y, m)
    decreases m
  {
    if k > 0 {
      ScaleMonotone(x, k - 1, y, m - 1);
    } else if m > 0 {
      ScaleMonotone(x, 0, y, m - 1);
    }
  }

  /** Joining a number below 2^k with a multiple of 2^k touches disjoint bits: `|` is `+`. */
  lemma {:induction false} OrIsSum(x: nat, m: nat, k: nat)
    requires x < Scale(1, k)
    ensures BitOr(x, Scale(m, k)) == x + Scale(m, k)
    decreases k
  {
    if k == 0 {
      OrZero(m);
    } else {
      OrIsSum(x / 2, m, k - 1);
    }
  }

  lemma {:induction false} OrZero(m: nat)
    ensures BitOr(0, m) == m && BitOr(m, 0) == m
  {
    if m > 0 {
      OrZero(m / 2);
    }
  }

  /** `x | 1` sets the lowest bit. */
  lemma OrOne(x: nat)
    ensures BitOr(x, 1) == if x % 2 == 1 then x else x + 1
  {
    OrZero(x / 2);
  }
}
