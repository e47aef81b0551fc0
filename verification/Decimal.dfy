/** Event identifiers: the decimal digits of a nanosecond clock reading, compared as bytes. */
module Decimal {
  import opened MachineInts
  import opened Options
  import opened Buckets

  predicate IsDigit(b: byte) {
    48 <= b <= 57
  }

  /** `fmt.Sprintf("%d", n)` for n >= 0. */
  function Dec(n: nat): (s: Key)
    ensures s != []
  {
    if n < 10 then [48 + n] else Dec(n / 10) + [48 + n % 10]
  }

  /** The number a string of digits denotes, `None` if there is none. */
  function Digits(s: Key): Option<nat> {
    if s == [] then None
    else if !IsDigit(s[|s| - 1]) then None
    else if |s| == 1 then Some(s[0] - 48)
    else match Digits(s[..|s| - 1])
      case None => None
      case Some(n) => Some(10 * n + (s[|s| - 1] - 48))
  }

  /** `strconv.ParseInt(s, 10, 64)`: an optional sign, digits, and a value that fits. */
  function ParseInt(s: Key): Option<int64> {
    if s == [] then None
    else
      var negative, signed := s[0] == 45, s[0] == 45 || s[0] == 43;
      match Digits(if signed then s[1..] else s)
      case None => None
      case Some(n) =>
        var m: int := n;
        var v := if negative then -m else m;
        if -TWO_63 <= v < TWO_63 then Some(v) else None
  }

  lemma {:induction false} DigitsOfDec(n: nat)
    ensures Digits(Dec(n)) == Some(n)
    ensures IsDigit(Dec(n)[0])
  {
    if n >= 10 {
      DigitsOfDec(n / 10);
      assert Dec(n)[..|Dec(n)| - 1] == Dec(n / 10);
    }
  }

  /** Every minted identifier is read back as the clock reading it was made from. */
  lemma ParseMinted(n: nat)
    requires n < TWO_63
    ensures ParseInt(Dec(n)) == Some(n)
  {
    DigitsOfDec(n);
  }

  lemma DecStartsWithDigit(n: nat)
    ensures Dec(n)[0] != 43 && Dec(n)[0] != 45
  {
    DigitsOfDec(n);
  }

  /** A sign may stand in front; what does not fit an int64 is no number. */
  lemma ParseSigned(n: nat)
    ensures ParseInt(Dec(n)) == if n < 0x8000_0000_0000_0000 then Some(n) else None
    ensures ParseInt([43] + Dec(n)) == if n < 0x8000_0000_0000_0000 then Some(n) else None
    ensures var m: int := n; ParseInt([45] + Dec(n)) == if m <= 0x8000_0000_0000_0000 then Some(-m) else None
  {
    DigitsOfDec(n);
    DecStartsWithDigit(n);
    assert ([43] + Dec(n))[1..] == Dec(n) && ([45] + Dec(n))[1..] == Dec(n);
    hide Dec, Digits;
  }

  /** Digits, and at least one of them, and nothing else. */
  lemma {:induction false} DigitsOnly(s: Key)
    ensures Digits(s) != None <==> (s != [] && forall i :: 0 <= i < |s| ==> IsDigit(s[i]))
  {
    if |s| > 1 {
      DigitsOnly(s[..|s| - 1]);
    }
  }

  // ---------- byte order and numeric order ----------

  /** Comparing two strings of one length: the last byte decides only between equal heads. */
  lemma {:induction false} LessAtEnd(a: Key, b: Key, x: byte, y: byte)
    requires |a| == |b|
    ensures Less(a + [x], b + [y]) <==> (Less(a, b) || (a == b && x < y))
  {
    var s, t := a + [x], b + [y];
    if a == [] {
    } else {
      assert s[1..] == a[1..] + [x] && t[1..] == b[1..] + [y];
      LessAtEnd(a[1..], b[1..], x, y);
      assert a == [a[0]] + a[1..] && b == [b[0]] + b[1..];
      if a[0] == b[0] && Less(a[1..], b[1..]) && a[1..] == b[1..] {
        LessIrreflexive(a[1..]);
      }
    }
  }

  /** Identifiers with equally many digits sort as their clock readings do. */
  lemma {:induction false} OrderIsNumeric(m: nat, n: nat)
    requires |Dec(m)| == |Dec(n)|
    ensures Less(Dec(m), Dec(n)) <==> m < n
    ensures Dec(m) == Dec(n) <==> m == n
    decreases m
  {
    DigitsOfDec(m);
    DigitsOfDec(n);
    assert m >= 10 ==> |Dec(m)| >= 2;
    assert n >= 10 ==> |Dec(n)| >= 2;
    if m >= 10 {
      OrderIsNumeric(m / 10, n / 10);
      LessAtEnd(Dec(m / 10), Dec(n / 10), 48 + m % 10, 48 + n % 10);
    }
  }

  /** With different digit counts the orders can disagree. */
  lemma OrderCanDisagree()
    ensures Less(Dec(10), Dec(9))
  {
    assert Dec(10) == [49, 48] && Dec(9) == [57];
  }

  /** A string compared with a longer one: the last byte of the longer one decides only against an equal head. */
  lemma {:induction false} LessLonger(a: Key, b: Key, x: byte)
    requires |a| <= |b|
    ensures Less(a, b + [x]) <==> (Less(a, b) || a == b)
  {
    if a != [] {
      assert (b + [x])[1..] == b[1..] + [x];
      LessLonger(a[1..], b[1..], x);
      assert a == [a[0]] + a[1..] && b == [b[0]] + b[1..];
    }
  }

  lemma {:induction false} MoreDigits(m: nat, n: nat)
    requires m <= n
    ensures |Dec(m)| <= |Dec(n)|
    decreases n
  {
    if n >= 10 {
      MoreDigits(m / 10, n / 10);
    }
  }

  lemma {:induction false} TimesMonotone(p: nat, a: nat, b: nat)
    requires a <= b
    ensures p * a <= p * b
  {
  }

  /** The quotient belonging to a remainder below the divisor. */
  lemma QuotientIs(x: nat, p: nat, q: nat, r: nat)
    requires p > 0 && x == p * q + r && r < p
    ensures x / p == q
  {
    var z := x / p;
    assert x == p * z + x % p;
    assert p * (z + 1) == p * z + p && p * (q + 1) == p * q + p;
    if z < q {
      TimesMonotone(p, z + 1, q);
    } else if z > q {
      TimesMonotone(p, q + 1, z);
    }
  }

  /** Dropping the last digit and then d more drops d + 1. */
  lemma DropDigits(n: nat, d: nat)
    ensures Power10(d) >= 1 && n / Power10(d + 1) == n / 10 / Power10(d)
  {
    Power10AtLeast(d);
    var p := Power10(d);
    var q, r := n / 10 / p, n / 10 % p;
    var t := p * q;
    assert n / 10 == t + r;
    assert n == 10 * t + (10 * r + n % 10);
    assert (10 * p) * q == 10 * t;
    QuotientIs(n, 10 * p, q, 10 * r + n % 10);
  }

  lemma DecLast(n: nat)
    requires |Dec(n)| > 1
    ensures Dec(n) == Dec(n / 10) + [48 + n % 10] && n / 10 < n
  {
  }

  lemma {:induction false} OrderAt(m: nat, n: nat, d: nat)
    requires m < n && |Dec(n)| == |Dec(m)| + d
    ensures Power10(d) >= 1 && (Less(Dec(m), Dec(n)) <==> m <= n / Power10(d))
    decreases d
  {
    Power10AtLeast(d);
    if d == 0 {
      OrderIsNumeric(m, n);
    } else {
      var h := n / 10;
      DecLast(n);
      DropDigits(n, d - 1);
      hide Dec, Less, Power10;
      LessLonger(Dec(m), Dec(h), 48 + n % 10);
      if d == 1 {
        assert Power10(0) == 1 by { PowerZero(); }
        OrderIsNumeric(m, h);
      } else {
        if h <= m {
          MoreDigits(h, m);
        }
        OrderAt(m, h, d - 1);
      }
    }
  }

  lemma PowerZero()
    ensures Power10(0) == 1
  {
  }

  /**
   Byte order against numeric order, exactly: of two clock readings the earlier one's identifier sorts first
   if and only if it is at most the number the other one's first equally many digits denote.
   */
  lemma OrderExactly(m: nat, n: nat)
    requires m < n
    ensures |Dec(m)| <= |Dec(n)| && Power10(|Dec(n)| - |Dec(m)|) >= 1
    ensures Less(Dec(m), Dec(n)) <==> m <= n / Power10(|Dec(n)| - |Dec(m)|)
  {
    hide Dec, Less, Power10;
    MoreDigits(m, n);
    OrderAt(m, n, |Dec(n)| - |Dec(m)|);
  }

  lemma {:induction false} DecLength(n: nat, k: nat)
    requires k >= 1 && n < Power10(k) && (k > 1 ==> Power10(k - 1) <= n)
    ensures |Dec(n)| == k
    decreases k
  {
    if k > 1 {
      assert Power10(k - 1) >= 10 by {
        if k > 2 { Power10AtLeast(k - 2); }
      }
      DecLength(n / 10, k - 1);
    }
  }

  function Power10(k: nat): nat {
    if k == 0 then 1 else 10 * Power10(k - 1)
  }

  lemma {:induction false} Power10AtLeast(k: nat)
    ensures Power10(k) >= 1
  {
    if k > 0 {
      Power10AtLeast(k - 1);
    }
  }

  const NANOS_2001 := 1_000_000_000_000_000_000

  /** Clock readings from 9 September 2001 on, as far as int64 nanoseconds go, all have 19 digits. */
  lemma MintedLength(n: nat)
    requires NANOS_2001 <= n < TWO_63
    ensures |Dec(n)| == 19
  {
    assert Power10(2) == 100 && Power10(4) == 100 * Power10(2) && Power10(6) == 100 * Power10(4);
    assert Power10(8) == 100 * Power10(6) && Power10(10) == 100 * Power10(8) && Power10(12) == 100 * Power10(10);
    assert Power10(14) == 100 * Power10(12) && Power10(16) == 100 * Power10(14) && Power10(18) == 100 * Power10(16);
    DecLength(n, 19);
  }
}
