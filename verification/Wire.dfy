/**
 Unknown records: the depth-counter loop of `skipMessages`, and the recursive grammar of
 records and groups that it recognises.
 */
module Wire {
  import opened MachineInts
  import opened Varint

  /** A tag with its payload; a group's start and end tags have none. `length` may run past the input. */
  datatype Token = Token(wireType: nat, length: nat)

  function NextToken(s: seq<byte>): (r: Result<Token>)
    ensures r.Ok? ==> 1 <= r.value.length < |s| + TWO_63 && r.value.wireType <= 5
  {
    match ReadVarint(s)
    case Err(e) => Err(e)
    case Ok(tag) =>
      var wireType, n := tag.value % 8, tag.length;
      if wireType == 0 then
        match ReadVarint(s[n..])
        case Err(e) => Err(e)
        case Ok(v) => Ok(Token(0, n + v.length))
      else if wireType == 1 then Ok(Token(1, n + 8))
      else if wireType == 2 then
        match ReadVarint(s[n..])
        case Err(e) => Err(e)
        case Ok(v) =>
          var length := ToInt64(v.value);
          if length < 0 then Err(InvalidLength) else Ok(Token(2, n + v.length + length))
      else if wireType == 3 then Ok(Token(3, n))
      else if wireType == 4 then Ok(Token(4, n))
      else if wireType == 5 then Ok(Token(5, n + 4))
      else Err(IllegalWireType)
  }

  /** The `skipMessages` loop once it stands at index `at` with `depth` groups open and s still ahead. */
  function SkipFrom(s: seq<byte>, at: nat, depth: nat): (r: Result<nat>)
    ensures r.Ok? ==> r.value < TWO_63
  {
    if s == [] then Err(UnexpectedEOF)
    else match NextToken(s)
      case Err(e) => Err(e)
      case Ok(t) =>
        if t.wireType == 4 && depth == 0 then Err(UnexpectedEndOfGroup)
        else
          var inner := DepthAfter(t, depth);
          var iNdEx := Wrap64(at + t.length);
          if iNdEx < 0 then Err(InvalidLength)
          else if inner == 0 then Ok(iNdEx)
          else if t.length >= |s| then Err(UnexpectedEOF)
          else SkipFrom(s[t.length..], at + t.length, inner)
  }

  function DepthAfter(t: Token, depth: nat): nat
    requires t.wireType == 4 ==> depth > 0
  {
    if t.wireType == 3 then depth + 1 else if t.wireType == 4 then depth - 1 else depth
  }

  // ---------- the grammar ----------

  /** s is one record: a plain field, or a start tag followed by a group body. */
  ghost predicate IsRecord(s: seq<byte>)
    decreases |s|, 1
  {
    match NextToken(s)
    case Err(_) => false
    case Ok(t) =>
      if t.wireType == 4 then false
      else if t.wireType == 3 then t.length <= |s| && IsGroupBody(s[t.length..])
      else t.length == |s|
  }

  /** s is any number of records closed by an end tag. */
  ghost predicate IsGroupBody(s: seq<byte>)
    decreases |s|, 0
  {
    || NextToken(s) == Ok(Token(4, |s|))
    || exists k :: 0 < k < |s| && IsRecord(s[..k]) && IsGroupBody(s[k..])
  }

  /** s closes d open groups and nothing more. */
  ghost predicate ClosesGroups(s: seq<byte>, d: nat)
    requires d >= 1
    decreases d
  {
    if d == 1 then IsGroupBody(s)
    else exists k :: 0 < k < |s| && IsGroupBody(s[..k]) && ClosesGroups(s[k..], d - 1)
  }

  // ---------- tokens do not depend on what follows them ----------

  lemma {:induction false} ScanTake(s: seq<byte>, n: nat, room: nat)
    requires Scan(s, room).Ok? && Scan(s, room).value.length <= n <= |s|
    ensures Scan(s[..n], room) == Scan(s, room)
  {
    if s[0] >= 128 {
      assert s[..n][1..] == s[1..][..n - 1];
      ScanTake(s[1..], n - 1, room - 1);
    }
  }

  lemma TokenTake(s: seq<byte>, n: nat)
    requires NextToken(s).Ok? && NextToken(s).value.length <= n <= |s|
    ensures NextToken(s[..n]) == NextToken(s)
  {
    VarintTake(s, n);
    hide ReadVarint;
    var k := ReadVarint(s).value.length;
    if ReadVarint(s).value.value % 8 in {0, 2} {
      assert s[..n][k..] == s[k..][..n - k];
      VarintTake(s[k..], n - k);
    }
  }

  lemma VarintTake(s: seq<byte>, n: nat)
    requires ReadVarint(s).Ok? && ReadVarint(s).value.length <= n <= |s|
    ensures ReadVarint(s[..n]) == ReadVarint(s)
  {
    ScanTake(s, n, MAX_BYTES);
  }

  lemma TokenExtend(s: seq<byte>, x: seq<byte>)
    requires NextToken(s).Ok?
    ensures NextToken(s + x) == NextToken(s)
  {
    ScanPrefix(s, x, MAX_BYTES);
    var k := ReadVarint(s).value.length;
    if ReadVarint(s).value.value % 8 in {0, 2} {
      assert (s + x)[k..] == s[k..] + x;
      ScanPrefix(s[k..], x, MAX_BYTES);
    }
  }

  // ---------- the loop accepts only the grammar ----------

  lemma PrependRecord(r: seq<byte>, s: seq<byte>, d: nat)
    requires d >= 1 && IsRecord(r) && r != [] && ClosesGroups(s, d)
    ensures ClosesGroups(r + s, d)
  {
    hide NextToken;
    var x := r + s;
    if d == 1 {
      BodyNonEmpty(s);
      assert x[..|r|] == r && x[|r|..] == s;
    } else {
      var k :| 0 < k < |s| && IsGroupBody(s[..k]) && ClosesGroups(s[k..], d - 1);
      var b := x[..|r| + k];
      assert b == r + s[..k];
      assert b[..|r|] == r && b[|r|..] == s[..k];
      assert IsGroupBody(b);
      assert x[|r| + k..] == s[k..];
    }
  }

  lemma BodyNonEmpty(s: seq<byte>)
    requires IsGroupBody(s)
    ensures s != []
  {
  }

  lemma ClosesNonEmpty(s: seq<byte>, d: nat)
    requires d >= 1 && ClosesGroups(s, d)
    ensures s != []
  {
    if d == 1 {
      BodyNonEmpty(s);
    }
  }

  /** A start tag in front of what closes d+1 groups is a record in front of what closes d. */
  lemma OpenGroup(tag: seq<byte>, s: seq<byte>, d: nat)
    requires NextToken(tag) == Ok(Token(3, |tag|)) && ClosesGroups(s, d + 1)
    ensures if d == 0 then IsRecord(tag + s) else ClosesGroups(tag + s, d)
  {
    hide NextToken;
    var x := tag + s;
    if d == 0 {
      TokenExtend(tag, s);
      assert x[|tag|..] == s;
    } else {
      var k :| 0 < k < |s| && IsGroupBody(s[..k]) && ClosesGroups(s[k..], d);
      var r := tag + s[..k];
      TokenExtend(tag, s[..k]);
      assert r[|tag|..] == s[..k];
      assert x == r + s[k..];
      PrependRecord(r, s[k..], d);
    }
  }

  lemma CloseGroup(tag: seq<byte>, s: seq<byte>, d: nat)
    requires d >= 1 && NextToken(tag) == Ok(Token(4, |tag|)) && ClosesGroups(s, d)
    ensures ClosesGroups(tag + s, d + 1)
  {
    ClosesNonEmpty(s, d);
    var x := tag + s;
    assert x[..|tag|] == tag && x[|tag|..] == s;
  }

  /** Soundness: where the loop stops inside the input, the bytes it passed are grammatical. */
  lemma {:induction false} SkipSound(s: seq<byte>, at: nat, depth: nat)
    requires at + |s| < TWO_63
    requires SkipFrom(s, at, depth).Ok? && SkipFrom(s, at, depth).value <= at + |s|
    ensures at < SkipFrom(s, at, depth).value
    ensures var x := s[..SkipFrom(s, at, depth).value - at];
      if depth == 0 then IsRecord(x) else ClosesGroups(x, depth)
    decreases |s|
  {
    hide NextToken;
    var t := NextToken(s).value;
    var n := SkipFrom(s, at, depth).value - at;
    var inner := DepthAfter(t, depth);
    if inner == 0 {
      assert n == t.length;
      TokenTake(s, n);
    } else {
      SkipSound(s[t.length..], at + t.length, inner);
      var tag, rest := s[..t.length], s[t.length..][..n - t.length];
      TokenTake(s, t.length);
      assert s[..n] == tag + rest;
      if t.wireType == 3 {
        OpenGroup(tag, rest, depth);
      } else if t.wireType == 4 {
        CloseGroup(tag, rest, inner);
      } else {
        assert IsRecord(tag);
        PrependRecord(tag, rest, depth);
      }
    }
  }

  /** A skipped record is never empty. A payload may be cut short by the end of the input, which callers check. */
  lemma SkipAdvances(s: seq<byte>)
    requires |s| < TWO_63 && SkipFrom(s, 0, 0).Ok?
    ensures SkipFrom(s, 0, 0).value >= 1
  {
    hide NextToken;
    if SkipFrom(s, 0, 0).value <= |s| {
      SkipSound(s, 0, 0);
    }
  }

  // ---------- the loop accepts all of the grammar ----------

  /** Completeness for a record: the loop passes over it, whatever follows. */
  lemma {:induction false} SkipRecord(x: seq<byte>, rest: seq<byte>, at: nat, depth: nat)
    requires IsRecord(x) && at + |x| + |rest| < TWO_63
    ensures SkipFrom(x + rest, at, depth)
         == if depth == 0 then Ok(at + |x|) else SkipFrom(rest, at + |x|, depth)
    decreases |x|, 1
  {
    hide NextToken;
    var t := NextToken(x).value;
    TokenExtend(x, rest);
    assert (x + rest)[t.length..] == x[t.length..] + rest;
    if t.wireType == 3 {
      BodyNonEmpty(x[t.length..]);
      SkipBody(x[t.length..], rest, at + t.length, depth + 1);
    } else {
      assert x[t.length..] + rest == rest;
    }
  }

  lemma SkipEndTag(x: seq<byte>, rest: seq<byte>, at: nat, depth: nat)
    requires NextToken(x) == Ok(Token(4, |x|)) && at + |x| + |rest| < TWO_63 && depth >= 1
    ensures SkipFrom(x + rest, at, depth)
         == if depth == 1 then Ok(at + |x|) else SkipFrom(rest, at + |x|, depth - 1)
  {
    hide NextToken;
    TokenExtend(x, rest);
    assert (x + rest)[|x|..] == rest;
  }

  lemma {:induction false} SkipBody(x: seq<byte>, rest: seq<byte>, at: nat, depth: nat)
    requires IsGroupBody(x) && at + |x| + |rest| < TWO_63 && depth >= 1
    ensures SkipFrom(x + rest, at, depth)
         == if depth == 1 then Ok(at + |x|) else SkipFrom(rest, at + |x|, depth - 1)
    decreases |x|, 0
  {
    hide NextToken, SkipFrom;
    if NextToken(x) == Ok(Token(4, |x|)) {
      SkipEndTag(x, rest, at, depth);
    } else {
      var k :| 0 < k < |x| && IsRecord(x[..k]) && IsGroupBody(x[k..]);
      SkipRecord(x[..k], x[k..] + rest, at, depth);
      assert x[..k] + (x[k..] + rest) == x + rest;
      SkipBody(x[k..], rest, at + k, depth);
    }
  }

  /** The counter loop is the grammar: it returns n within the input exactly when s[..n] is one record. */
  lemma SkipIsGrammar(s: seq<byte>, n: nat)
    requires |s| < TWO_63 && n <= |s|
    ensures SkipFrom(s, 0, 0) == Ok(n) <==> IsRecord(s[..n])
  {
    hide SkipFrom, IsRecord;
    if IsRecord(s[..n]) {
      SkipRecord(s[..n], s[n..], 0, 0);
      assert s[..n] + s[n..] == s;
    }
    if SkipFrom(s, 0, 0) == Ok(n) {
      SkipSound(s, 0, 0);
    }
  }

  /** Hence at most one prefix of an input is a record. */
  lemma RecordsArePrefixFree(s: seq<byte>, m: nat, n: nat)
    requires |s| < TWO_63 && m <= |s| && n <= |s| && IsRecord(s[..m]) && IsRecord(s[..n])
    ensures m == n
  {
    hide SkipFrom, IsRecord;
    SkipIsGrammar(s, m);
    SkipIsGrammar(s, n);
  }

  // ---------- groups and their field numbers ----------

  /** The field number in the tag at the head of s. */
  function FieldOf(s: seq<byte>): nat {
    match ReadVarint(s)
    case Ok(r) => r.value / 8
    case Err(_) => 0
  }

  /** A record in which every group ends with the field number it started with. */
  ghost predicate IsStrictRecord(s: seq<byte>)
    decreases |s|, 1
  {
    match NextToken(s)
    case Err(_) => false
    case Ok(t) =>
      if t.wireType == 4 then false
      else if t.wireType == 3 then t.length <= |s| && IsStrictBody(s[t.length..], FieldOf(s))
      else t.length == |s|
  }

  ghost predicate IsStrictBody(s: seq<byte>, field: nat)
    decreases |s|, 0
  {
    || (NextToken(s) == Ok(Token(4, |s|)) && FieldOf(s) == field)
    || exists k :: 0 < k < |s| && IsStrictRecord(s[..k]) && IsStrictBody(s[k..], field)
  }

  /** The skipping loop with a stack of field numbers in the place of its depth counter: do all end tags match? */
  predicate TagsMatch(s: seq<byte>, open: seq<nat>)
    decreases |s|
  {
    match NextToken(s)
    case Err(_) => false
    case Ok(t) =>
      if t.wireType == 4 && (open == [] || open[|open| - 1] != FieldOf(s)) then false
      else
        var inner := StackAfter(s, t, open);
        inner == [] || (t.length < |s| && TagsMatch(s[t.length..], inner))
  }

  function StackAfter(s: seq<byte>, t: Token, open: seq<nat>): seq<nat>
    requires t.wireType == 4 ==> open != []
  {
    if t.wireType == 3 then open + [FieldOf(s)] else if t.wireType == 4 then open[..|open| - 1] else open
  }

  lemma FieldExtend(s: seq<byte>, x: seq<byte>)
    requires NextToken(s).Ok?
    ensures FieldOf(s + x) == FieldOf(s)
  {
    ScanPrefix(s, x, MAX_BYTES);
  }

  /** On a record the stack says whether it is strict, and goes on with what follows. */
  lemma {:induction false} StackRecord(x: seq<byte>, rest: seq<byte>, open: seq<nat>)
    requires IsRecord(x) && |x| < TWO_63
    ensures TagsMatch(x + rest, open) <==> (IsStrictRecord(x) && (open == [] || (rest != [] && TagsMatch(rest, open))))
    decreases |x|, 1
  {
    hide NextToken, FieldOf;
    var t := NextToken(x).value;
    TokenExtend(x, rest);
    FieldExtend(x, rest);
    assert (x + rest)[t.length..] == x[t.length..] + rest;
    if t.wireType == 3 {
      BodyNonEmpty(x[t.length..]);
      StackBody(x[t.length..], rest, open, FieldOf(x));
    } else {
      assert x[t.length..] + rest == rest;
    }
  }

  lemma {:induction false} StackBody(x: seq<byte>, rest: seq<byte>, open: seq<nat>, field: nat)
    requires IsGroupBody(x) && |x| < TWO_63
    ensures TagsMatch(x + rest, open + [field])
      <==> (IsStrictBody(x, field) && (open == [] || (rest != [] && TagsMatch(rest, open))))
    decreases |x|, 0
  {
    hide NextToken, FieldOf;
    if NextToken(x) == Ok(Token(4, |x|)) {
      TokenExtend(x, rest);
      FieldExtend(x, rest);
      assert (x + rest)[|x|..] == rest && (open + [field])[..|open|] == open;
      LoneEndTag(x, field);
    } else {
      var k :| 0 < k < |x| && IsRecord(x[..k]) && IsGroupBody(x[k..]);
      assert x[..k] + (x[k..] + rest) == x + rest;
      BodyNonEmpty(x[k..]);
      StackRecord(x[..k], x[k..] + rest, open + [field]);
      StackBody(x[k..], rest, open, field);
      StrictSplits(x, k, field);
    }
  }

  lemma LoneEndTag(x: seq<byte>, field: nat)
    requires NextToken(x) == Ok(Token(4, |x|))
    ensures IsStrictBody(x, field) <==> FieldOf(x) == field
  {
    hide NextToken, FieldOf;
    if k :| 0 < k < |x| && IsStrictRecord(x[..k]) && IsStrictBody(x[k..], field) {
      assert x[..k] + x[k..] == x;
      TokenExtend(x[..k], x[k..]);
    }
  }

  lemma StrictSplits(x: seq<byte>, k: nat, field: nat)
    requires 0 < k < |x| < TWO_63 && IsRecord(x[..k])
    ensures IsStrictBody(x, field) <==> (IsStrictRecord(x[..k]) && IsStrictBody(x[k..], field))
  {
    hide NextToken, FieldOf;
    TokenExtend(x[..k], x[k..]);
    assert x[..k] + x[k..] == x;
    if j :| 0 < j < |x| && IsStrictRecord(x[..j]) && IsStrictBody(x[j..], field) {
      StrictIsRecord(x[..j]);
      hide IsRecord, IsStrictRecord, IsStrictBody;
      RecordsArePrefixFree(x, j, k);
    }
  }

  lemma {:induction false} StrictIsRecord(x: seq<byte>)
    requires IsStrictRecord(x)
    ensures IsRecord(x)
    decreases |x|, 1
  {
    hide NextToken, FieldOf;
    var t := NextToken(x).value;
    if t.wireType == 3 {
      StrictIsBody(x[t.length..], FieldOf(x));
    }
  }

  lemma {:induction false} StrictIsBody(x: seq<byte>, field: nat)
    requires IsStrictBody(x, field)
    ensures IsGroupBody(x)
    decreases |x|, 0
  {
    hide NextToken, FieldOf;
    if NextToken(x) != Ok(Token(4, |x|)) {
      var k :| 0 < k < |x| && IsStrictRecord(x[..k]) && IsStrictBody(x[k..], field);
      StrictIsRecord(x[..k]);
      StrictIsBody(x[k..], field);
    }
  }

  /**
   Every record whose groups are closed by their own field numbers is skipped; of what is skipped besides,
   the end tags do not match, and that is all.
   */
  lemma StrictExactly(s: seq<byte>, n: nat)
    requires |s| < TWO_63 && n <= |s|
    ensures IsStrictRecord(s[..n]) <==> (SkipFrom(s, 0, 0) == Ok(n) && TagsMatch(s, []))
  {
    hide SkipFrom, IsRecord, IsStrictRecord, TagsMatch;
    SkipIsGrammar(s, n);
    if IsStrictRecord(s[..n]) {
      StrictIsRecord(s[..n]);
    }
    if IsRecord(s[..n]) {
      StackRecord(s[..n], s[n..], []);
      assert s[..n] + s[n..] == s;
    }
  }

  /** The start of group 1 and the end of group 2 pass for a record. */
  lemma MismatchedGroupIsSkipped()
    ensures var s: seq<byte> := [11, 20]; SkipFrom(s, 0, 0) == Ok(2) && !TagsMatch(s, [])
  {
    var s: seq<byte> := [11, 20];
    var t: seq<byte> := [20];
    assert s[1..] == t;
    assert ReadVarint(s) == Ok(Read(11, 1)) && ReadVarint(t) == Ok(Read(20, 1));
    assert NextToken(s) == Ok(Token(3, 1)) && NextToken(t) == Ok(Token(4, 1));
    assert FieldOf(s) == 1 && FieldOf(t) == 2;
    assert SkipFrom(t, 1, 1) == Ok(2);
    assert !TagsMatch(t, [1]);
    assert [] + [1] == [1];
  }

  /** The switch of `skipMessages`: reads a tag and steps over its payload. */
  method ReadToken(dAtA: seq<byte>, start: nat) returns (r: Result<Token>)
    requires start <= |dAtA|
    ensures r == NextToken(dAtA[start..])
  {
    var tag := ReadVarintAt(dAtA, start);
    if tag.Err? {
      return Err(tag.error);
    }
    var n := tag.value.length;
    assert dAtA[start..][n..] == dAtA[start + n..];
    var wireType := tag.value.value % 8;
    match wireType {
      case 0 =>
        var v := ReadVarintAt(dAtA, start + n);
        if v.Err? {
          return Err(v.error);
        }
        return Ok(Token(0, n + v.value.length));
      case 1 =>
        return Ok(Token(1, n + 8));
      case 2 =>
        var v := ReadVarintAt(dAtA, start + n);
        if v.Err? {
          return Err(v.error);
        }
        var length := ToInt64(v.value.value);
        if length < 0 {
          return Err(InvalidLength);
        }
        return Ok(Token(2, n + v.value.length + length));
      case 3 =>
        return Ok(Token(3, n));
      case 4 =>
        return Ok(Token(4, n));
      case 5 =>
        return Ok(Token(5, n + 4));
      case _ =>
        return Err(IllegalWireType);
    }
  }

  /** `skipMessages`; the steps of `iNdEx` wrap as Go integers do. */
  method SkipMessages(dAtA: seq<byte>) returns (r: Result<nat>)
    requires |dAtA| < TWO_63
    ensures r == SkipFrom(dAtA, 0, 0)
  {
    hide NextToken;
    var l := |dAtA|;
    var iNdEx, depth: nat := 0, 0;
    ghost var goal := SkipFrom(dAtA, 0, 0);
    assert dAtA[0..] == dAtA;
    while iNdEx < l
      invariant 0 <= iNdEx
      invariant goal == if iNdEx < l then SkipFrom(dAtA[iNdEx..], iNdEx, depth) else Err(UnexpectedEOF)
      decreases l - iNdEx
    {
      var rest := dAtA[iNdEx..];
      var t := ReadToken(dAtA, iNdEx);
      if t.Err? {
        return Err(t.error);
      }
      if t.value.wireType == 3 {
        depth := depth + 1;
      } else if t.value.wireType == 4 {
        if depth == 0 {
          return Err(UnexpectedEndOfGroup);
        }
        depth := depth - 1;
      }
      ghost var start := iNdEx;
      iNdEx := Wrap64(iNdEx + t.value.length);
      if iNdEx < 0 {
        return Err(InvalidLength);
      }
      if depth == 0 {
        return Ok(iNdEx);
      }
      assert iNdEx == start + t.value.length;
      assert iNdEx < l ==> rest[t.value.length..] == dAtA[iNdEx..];
    }
    return Err(UnexpectedEOF);
  }
}
