/**
 The delta between two statuses, and what a receiver can rebuild from it.
 `funcCompare_v2`, `compareSlice` and `OnlyChanges` of internal/state/status.go.
 */
module Delta {
  import opened Options
  import opened Status

  /** `keysStatic`: always sent whole. */
  const STATIC: set<string> := {"uTC", "eTC", "t", "sDv", "tsOB", "tsBT", "tsUA", "tsDA", "tsAN", "bDPUA", "bDPDA",
    "fDPUA", "fDPDA", "AVer", "pAFC", "pARC", "pTRC", "pABC", "pTBC", "pTFC", "pTFS", "pTRS"}

  /** `keysRemove`: never sent. */
  const REMOVED: set<string> := {"sM", "sDs", "sW", "sn-cn"}

  // ---------- comparing ----------

  /** `compareSlice(t1, t2)` indexes t1 by the positions of t2: it must meet a difference before t1 ends. */
  predicate SliceOk(t1: seq<string>, t2: seq<string>) {
    |t2| <= |t1| || exists i :: 0 <= i < |t1| && t1[i] != t2[i]
  }

  predicate AllText(items: seq<Json>) {
    forall i :: 0 <= i < |items| ==> items[i].Str?
  }

  function Texts(items: seq<Json>): seq<string>
    requires AllText(items)
  {
    seq(|items|, i requires 0 <= i < |items| => items[i].s)
  }

  /** The comparison of data with last raises no index panic. */
  predicate Comparable(key: string, data: Json, last: Json)
    decreases last
  {
    if key in REMOVED || key in STATIC then true
    else match last
      case Obj(l) => data.Obj? ==> forall k :: k in l ==> Comparable(k, Field(data.fields, k), l[k])
      case Arr(l) =>
        (l != [] && data.Arr? && AllText(data.items) && AllText(l)) ==> SliceOk(Texts(data.items), Texts(l))
      case _ => true
  }

  /** `funcCompare_v2`: what to send of data, the receiver having last; `Null` for nothing. */
  function Compare(key: string, data: Json, last: Json): Json
    requires Comparable(key, data, last)
    decreases last
  {
    if key in REMOVED then Null
    else if key in STATIC then data
    else match last
      case Obj(l) =>
        if !data.Obj? then data
        else
          var result := map k | k in l && Compare(k, Field(data.fields, k), l[k]) != Null
                              :: Compare(k, Field(data.fields, k), l[k]);
          if result == map[] then Null else Obj(result)
      case Num(_) => if last != data then data else Null
      case Int(_) => if last != data then data else Null
      case Str(_) => if last != data then data else Null
      case Arr(l) =>
        if l == [] || !data.Arr? || !AllText(data.items) || !AllText(l) then data
        else if Texts(l) <= Texts(data.items) then Null
        else data
      case _ => data
  }

  /** The comparison of status with the one before it, if any, does not panic. */
  predicate Fits(status: Fields, last: Option<Fields>) {
    last.Some? ==> Comparable("alldata", Obj(status), Obj(last.value))
  }

  /** `OnlyChanges`: the whole status the first time, `None` for a nil result. */
  function OnlyChanges(status: Fields, last: Option<Fields>): Option<Fields>
    requires Fits(status, last)
  {
    if last.None? then Some(status)
    else
      var result := Compare("alldata", Obj(status), Obj(last.value));
      if result.Obj? then Some(result.fields) else None
  }

  // ---------- the loops ----------

  /** What a call comes to: a value, or an index out of range. */
  datatype Outcome<T> = Done(value: T) | Panic

  /** `compareSlice`, which panics where t1 ends while it still agrees with t2. */
  method CompareSlice(t1: seq<string>, t2: seq<string>) returns (same: Outcome<bool>)
    ensures same == if SliceOk(t1, t2) then Done(t2 <= t1) else Panic
  {
    for i := 0 to |t2|
      invariant i <= |t1| && t1[..i] == t2[..i]
    {
      if i >= |t1| {
        return Panic;
      }
      if t1[i] != t2[i] {
        return Done(false);
      }
    }
    return Done(true);
  }

  /** `funcCompare_v2` with its loop over the keys of last, in an order of its own choosing. */
  method FuncCompare(key: string, data: Json, last: Json) returns (r: Outcome<Json>)
    ensures r == if Comparable(key, data, last) then Done(Compare(key, data, last)) else Panic
    decreases last
  {
    if key in REMOVED {
      return Done(Null);
    }
    if key in STATIC {
      return Done(data);
    }
    match last {
      case Obj(l) =>
        if !data.Obj? {
          return Done(data);
        }
        r := CompareFields(key, data, last);
      case Num(_) => return Done(if last != data then data else Null);
      case Int(_) => return Done(if last != data then data else Null);
      case Str(_) => return Done(if last != data then data else Null);
      case Arr(l) => r := CompareArrays(data, l);
      case _ => return Done(data);
    }
  }

  method CompareArrays(data: Json, l: seq<Json>) returns (r: Outcome<Json>)
    ensures r == if l == [] || !data.Arr? || !AllText(data.items) || !AllText(l) then Done(data)
      else if !SliceOk(Texts(data.items), Texts(l)) then Panic
      else if Texts(l) <= Texts(data.items) then Done(Null) else Done(data)
  {
    if |l| <= 0 {
      return Done(data);
    }
    if !data.Arr? {
      return Done(data);
    }
    var new_, ok := TextsOf(data.items);
    if !ok {
      return Done(data);
    }
    var last_, lastOk := TextsOf(l);
    if !lastOk {
      return Done(data);
    }
    var same := CompareSlice(new_, last_);
    match same
    case Panic => return Panic;
    case Done(b) => return Done(if b then Null else data);
  }

  /** The type assertions that turn a `[]interface{}` into strings, or give up. */
  method TextsOf(items: seq<Json>) returns (texts: seq<string>, ok: bool)
    ensures ok <==> AllText(items)
    ensures ok ==> texts == Texts(items)
  {
    texts := [];
    for i := 0 to |items|
      invariant |texts| == i && (forall j :: 0 <= j < i ==> items[j].Str? && texts[j] == items[j].s)
    {
      if !items[i].Str? {
        return texts, false;
      }
      texts := texts + [items[i].s];
    }
    return texts, true;
  }

  /** The members seen so far have been compared, and result holds what there is to send of them. */
  ghost predicate Compared(data: Fields, l: Fields, seen: set<string>, result: Fields)
    requires seen <= l.Keys
  {
    && (forall k :: k in seen ==> Comparable(k, Field(data, k), l[k]))
    && (forall k :: k in result <==> k in seen && Compare(k, Field(data, k), l[k]) != Null)
    && (forall k :: k in result ==> result[k] == Compare(k, Field(data, k), l[k]))
  }

  lemma ComparedMore(data: Fields, l: Fields, seen: set<string>, result: Fields, k: string)
    requires seen <= l.Keys && k in l && k !in seen && Compared(data, l, seen, result) && Comparable(k, Field(data, k), l[k])
    ensures var delta := Compare(k, Field(data, k), l[k]);
      Compared(data, l, seen + {k}, if delta != Null then result[k := delta] else result)
  {
    hide Compare, Comparable;
  }

  lemma ComparedAll(key: string, data: Fields, l: Fields, result: Fields)
    requires key !in REMOVED && key !in STATIC && Compared(data, l, l.Keys, result)
    ensures Comparable(key, Obj(data), Obj(l))
    ensures Compare(key, Obj(data), Obj(l)) == if |result| <= 0 then Null else Obj(result)
  {
    ghost var expected := map k | k in l && Compare(k, Field(data, k), l[k]) != Null :: Compare(k, Field(data, k), l[k]);
    assert result == expected;
  }

  lemma PanicSpreads(key: string, data: Fields, l: Fields, k: string)
    requires key !in REMOVED && key !in STATIC && k in l && !Comparable(k, Field(data, k), l[k])
    ensures !Comparable(key, Obj(data), Obj(l))
  {
  }

  method CompareFields(key: string, data: Json, last: Json) returns (r: Outcome<Json>)
    requires last.Obj? && data.Obj? && key !in REMOVED && key !in STATIC
    ensures r == if Comparable(key, data, last) then Done(Compare(key, data, last)) else Panic
    decreases last, 0
  {
    var l := last.fields;
    var result: Fields := map[];
    var rest := l.Keys;
    assert Compared(data.fields, l, {}, result);
    hide Compared, Compare, Comparable;
    while rest != {}
      invariant rest <= l.Keys && Compared(data.fields, l, l.Keys - rest, result)
      decreases |rest|
    {
      var k :| k in rest;
      var res := FuncCompare(k, Field(data.fields, k), l[k]);
      match res {
        case Panic =>
          PanicSpreads(key, data.fields, l, k);
          return Panic;
        case Done(delta) =>
          ComparedMore(data.fields, l, l.Keys - rest, result, k);
          if delta != Null {
            result := result[k := delta];
          }
      }
      assert l.Keys - (rest - {k}) == l.Keys - rest + {k};
      rest := rest - {k};
    }
    assert l.Keys - {} == l.Keys;
    ComparedAll(key, data.fields, l, result);
    if |result| <= 0 {
      return Done(Null);
    }
    return Done(Obj(result));
  }

  // ---------- the receiver ----------

  /** Laying a delta over what is held: objects member by member, static keys and other values whole. */
  function Overlay(key: string, base: Json, delta: Json): Json
    decreases base
  {
    if delta == Null then base
    else if key in STATIC || !base.Obj? || !delta.Obj? then delta
    else Obj(map k | k in base.fields.Keys + delta.fields.Keys ::
               if k !in base.fields then delta.fields[k]
               else if k !in delta.fields then base.fields[k]
               else Overlay(k, base.fields[k], delta.fields[k]))
  }

  /** Equal on every path free of removed keys. */
  predicate Agree(key: string, a: Json, b: Json)
    decreases a
  {
    if key in REMOVED then true
    else if !a.Obj? || !b.Obj? then a == b
    else forall k :: k in a.fields.Keys + b.fields.Keys && k !in REMOVED ==>
           k in a.fields && k in b.fields && Agree(k, a.fields[k], b.fields[k])
  }

  /** last is a list of strings that data properly extends. */
  predicate Extends(data: Json, last: Json) {
    && last.Arr? && data.Arr? && AllText(data.items) && AllText(last.items)
    && last.items != [] && Texts(last.items) <= Texts(data.items) && |last.items| != |data.items|
  }

  /**
   The changes a delta can carry: no member outside the removed keys comes, goes or turns null, and no
   list of strings is extended.
   */
  predicate Tracks(key: string, data: Json, last: Json)
    decreases last
  {
    if key in REMOVED then true
    else if data == Null then last == Null
    else if key in STATIC then true
    else if last.Obj? && data.Obj? then
      forall k :: k in last.fields.Keys + data.fields.Keys && k !in REMOVED ==>
        k in last.fields && k in data.fields && Tracks(k, data.fields[k], last.fields[k])
    else !Extends(data, last)
  }

  lemma {:induction false} AgreeReflexive(key: string, a: Json)
    ensures Agree(key, a, a)
    decreases a
  {
    if a.Obj? {
      forall k | k in a.fields ensures Agree(k, a.fields[k], a.fields[k]) {
        AgreeReflexive(k, a.fields[k]);
      }
    }
  }

  /** Nothing is sent for a member the new status lacks. */
  lemma NullSendsNothing(key: string, last: Json)
    ensures Comparable(key, Null, last) && Compare(key, Null, last) == Null
  {
  }

  lemma SameTexts(a: seq<Json>, b: seq<Json>)
    requires AllText(a) && AllText(b)
    ensures Texts(a) <= Texts(b) && |a| == |b| ==> a == b
  {
    if Texts(a) <= Texts(b) && |a| == |b| {
      forall i | 0 <= i < |a| ensures a[i] == b[i] {
        assert Texts(a)[i] == Texts(b)[i];
        assert a[i] == Str(Texts(a)[i]) && b[i] == Str(Texts(b)[i]);
      }
    }
  }

  /** Away from two objects the delta is the new value or nothing, and nothing only when nothing changed. */
  lemma LeafOverlay(key: string, r: Json, data: Json, last: Json)
    requires Comparable(key, data, last) && key !in REMOVED && (key in STATIC || !data.Obj? || !last.Obj?)
    requires Agree(key, r, last)
    ensures Tracks(key, data, last) ==> Agree(key, Overlay(key, r, Compare(key, data, last)), data)
    ensures !Tracks(key, data, last) ==> !Agree(key, Overlay(key, last, Compare(key, data, last)), data)
  {
    AgreeReflexive(key, data);
    if data == Null {
      NullSendsNothing(key, last);
    } else if last.Arr? && data.Arr? && AllText(data.items) && AllText(last.items) {
      SameTexts(last.items, data.items);
    }
  }

  /** What the receiver holds under k after the overlay of two objects. */
  lemma MemberOverlay(key: string, r: Json, data: Json, last: Json, k: string)
    requires key !in REMOVED && key !in STATIC && r.Obj? && data.Obj? && last.Obj?
    requires Comparable(key, data, last)
    ensures var o := Overlay(key, r, Compare(key, data, last));
      && o.Obj?
      && (k in o.fields <==> k in r.fields || (k in last.fields && Compare(k, Field(data.fields, k), last.fields[k]) != Null))
      && (k in r.fields && k in last.fields
          ==> o.fields[k] == Overlay(k, r.fields[k], Compare(k, Field(data.fields, k), last.fields[k])))
      && (k in r.fields && k !in last.fields ==> o.fields[k] == r.fields[k])
  {
    var l := last.fields;
    var result := map q | q in l && Compare(q, Field(data.fields, q), l[q]) != Null
                        :: Compare(q, Field(data.fields, q), l[q]);
    var delta := Compare(key, data, last);
    assert delta == if result == map[] then Null else Obj(result);
    if result == map[] {
      assert k in l && Compare(k, Field(data.fields, k), l[k]) != Null ==> k in result;
    }
  }

  lemma ComparableMember(key: string, data: Json, last: Json, k: string)
    requires key !in REMOVED && key !in STATIC && data.Obj? && last.Obj? && Comparable(key, data, last) && k in last.fields
    ensures Comparable(k, Field(data.fields, k), last.fields[k])
  {
  }

  /**
   One delta brings a receiver that agrees with the previous status into agreement with the new one,
   when the change is one a delta can carry.
   */
  lemma {:induction false} OverlayAgrees(key: string, r: Json, data: Json, last: Json)
    requires Comparable(key, data, last) && Agree(key, r, last) && Tracks(key, data, last)
    ensures Agree(key, Overlay(key, r, Compare(key, data, last)), data)
    decreases last
  {
    if key in REMOVED {
    } else if key in STATIC || !data.Obj? || !last.Obj? {
      LeafOverlay(key, r, data, last);
    } else {
      var o := Overlay(key, r, Compare(key, data, last));
      assert r.Obj?;
      MemberOverlay(key, r, data, last, "");
      forall k | k in o.fields.Keys + data.fields.Keys && k !in REMOVED
        ensures k in o.fields && k in data.fields && Agree(k, o.fields[k], data.fields[k])
      {
        MemberOverlay(key, r, data, last, k);
        if k in last.fields {
          ComparableMember(key, data, last, k);
          assert k in data.fields && k in r.fields;
          OverlayAgrees(k, r.fields[k], data.fields[k], last.fields[k]);
        } else {
          assert false;
        }
      }
    }
  }

  /** A member whose change cannot be carried is wrong at the receiver. */
  lemma {:induction false} OverlayFails(key: string, data: Json, last: Json)
    requires Comparable(key, data, last) && !Tracks(key, data, last)
    ensures !Agree(key, Overlay(key, last, Compare(key, data, last)), data)
    decreases last
  {
    if key in STATIC || !data.Obj? || !last.Obj? {
      AgreeReflexive(key, last);
      LeafOverlay(key, last, data, last);
    } else {
      var k :| k in last.fields.Keys + data.fields.Keys && k !in REMOVED
        && !(k in last.fields && k in data.fields && Tracks(k, data.fields[k], last.fields[k]));
      MemberOverlay(key, last, data, last, k);
      if k in last.fields {
        ComparableMember(key, data, last, k);
        if k in data.fields {
          OverlayFails(k, data.fields[k], last.fields[k]);
        }
      }
    }
  }

  /** Exactly: the overlay of one delta on the previous status agrees with the new one iff the change is of that kind. */
  lemma DeltaIsExact(key: string, data: Json, last: Json)
    requires Comparable(key, data, last)
    ensures Agree(key, Overlay(key, last, Compare(key, data, last)), data) <==> Tracks(key, data, last)
  {
    if Tracks(key, data, last) {
      AgreeReflexive(key, last);
      OverlayAgrees(key, last, data, last);
    } else {
      OverlayFails(key, data, last);
    }
  }

  // ---------- runs of statuses ----------

  /** What a receiver holds after it is sent what `OnlyChanges` makes of the latest status. */
  function Received(held: Json, status: Fields, last: Fields): Json
    requires Comparable("alldata", Obj(status), Obj(last))
  {
    match OnlyChanges(status, Some(last))
    case None => held
    case Some(delta) => Overlay("alldata", held, Obj(delta))
  }

  /** What a receiver holds after the first status and the deltas up to the latest. */
  function Rebuilt(ss: seq<Fields>): Json
    requires ss != [] && Run(ss)
    decreases |ss|
  {
    var n := |ss| - 1;
    if n == 0 then Obj(OnlyChanges(ss[0], None).value)
    else Received(Rebuilt(ss[..n]), ss[n], ss[n - 1])
  }

  /** Consecutive statuses are compared without a panic. */
  ghost predicate Run(ss: seq<Fields>) {
    forall i, j :: 0 <= i < |ss| && 0 <= j < |ss| && j == i + 1 ==> Comparable("alldata", Obj(ss[j]), Obj(ss[i]))
  }

  ghost predicate AllTrack(ss: seq<Fields>) {
    forall i, j :: 0 <= i < |ss| && 0 <= j < |ss| && j == i + 1 ==> Tracks("alldata", Obj(ss[j]), Obj(ss[i]))
  }

  lemma AlldataIsPlain()
    ensures "alldata" !in STATIC && "alldata" !in REMOVED
  {
    assert |"alldata"| == 7;
    assert forall k :: k in STATIC ==> |k| <= 5;
    assert forall k :: k in REMOVED ==> |k| <= 5;
  }

  /** The delta of two statuses is an object or nothing, so overlaying it is overlaying the comparison. */
  lemma ReceivedIsOverlay(held: Json, data: Fields, last: Fields)
    requires Comparable("alldata", Obj(data), Obj(last))
    ensures Received(held, data, last) == Overlay("alldata", held, Compare("alldata", Obj(data), Obj(last)))
  {
    var delta := Compare("alldata", Obj(data), Obj(last));
    assert delta == Null || delta.Obj?;
    if delta == Null {
      assert Overlay("alldata", held, delta) == held;
    }
  }

  lemma RunPrefix(ss: seq<Fields>)
    requires |ss| > 1 && Run(ss)
    ensures Run(ss[..|ss| - 1]) && Comparable("alldata", Obj(ss[|ss| - 1]), Obj(ss[|ss| - 2]))
  {
    hide Comparable;
  }

  lemma {:induction false} RebuiltAgrees(ss: seq<Fields>)
    requires ss != [] && Run(ss) && AllTrack(ss)
    ensures Agree("alldata", Rebuilt(ss), Obj(ss[|ss| - 1]))
    decreases |ss|
  {
    hide Agree, Tracks, Comparable, Compare, Overlay, Received;
    var n := |ss| - 1;
    if n == 0 {
      AgreeReflexive("alldata", Obj(ss[0]));
    } else {
      RunPrefix(ss);
      ReceivedIsOverlay(Rebuilt(ss[..n]), ss[n], ss[n - 1]);
      RebuiltAgrees(ss[..n]);
      assert ss[..n][n - 1] == ss[n - 1];
      OverlayAgrees("alldata", Rebuilt(ss[..n]), Obj(ss[n]), Obj(ss[n - 1]));
    }
  }

  /**
   After any number of statuses the receiver holds the members of the current one, outside the removed
   keys, each agreeing with it on every path free of removed keys.
   */
  lemma DeltasReconstruct(ss: seq<Fields>)
    requires ss != [] && Run(ss) && AllTrack(ss)
    ensures var held, current := Rebuilt(ss), ss[|ss| - 1];
      && held.Obj?
      && forall k :: k !in REMOVED ==>
           (k in held.fields <==> k in current)
           && (k in current ==> Agree(k, held.fields[k], current[k]))
  {
    RebuiltAgrees(ss);
    AlldataIsPlain();
  }

  // ---------- one delta, path by path ----------

  /** The value at a path of member names. */
  function At(j: Json, path: seq<string>): Option<Json>
    decreases |path|
  {
    if path == [] then Some(j)
    else if j.Obj? && path[0] in j.fields then At(j.fields[path[0]], path[1..])
    else None
  }

  /** A member with something to send is in the delta. */
  lemma CompareMember(key: string, data: Json, last: Json, k: string)
    requires key !in REMOVED && key !in STATIC && data.Obj? && last.Obj? && Comparable(key, data, last) && k in last.fields
    requires Compare(k, Field(data.fields, k), last.fields[k]) != Null
    ensures var delta := Compare(key, data, last);
      delta.Obj? && k in delta.fields && delta.fields[k] == Compare(k, Field(data.fields, k), last.fields[k])
  {
    var l := last.fields;
    var result := map q | q in l && Compare(q, Field(data.fields, q), l[q]) != Null
                        :: Compare(q, Field(data.fields, q), l[q]);
    assert k in result;
    assert Compare(key, data, last) == Obj(result);
  }

  /** Soundness: whatever the delta says, down to any path, is the new status's value or part of it. */
  lemma {:induction false} DeltaSound(key: string, data: Json, last: Json, path: seq<string>)
    requires Comparable(key, data, last) && Compare(key, data, last) != Null
    requires At(Compare(key, data, last), path).Some? && !At(Compare(key, data, last), path).value.Obj?
    ensures At(data, path) == At(Compare(key, data, last), path)
    decreases |path|
  {
    if key !in STATIC && last.Obj? && data.Obj? {
      var delta, k := Compare(key, data, last), path[0];
      ComparableMember(key, data, last, k);
      if k !in data.fields {
        NullSendsNothing(k, last.fields[k]);
      }
      DeltaSound(k, data.fields[k], last.fields[k], path[1..]);
    }
  }

  /** Completeness: a changed value is in the delta, on any path free of removed keys that both statuses have. */
  lemma {:induction false} DeltaComplete(key: string, data: Json, last: Json, path: seq<string>)
    requires Comparable(key, data, last) && key !in REMOVED && forall k :: k in path ==> k !in REMOVED
    requires At(data, path).Some? && At(last, path).Some?
    requires var a, b := At(data, path).value, At(last, path).value;
      a != b && a != Null && !(a.Obj? && b.Obj?) && !Extends(a, b)
    ensures At(Compare(key, data, last), path) == At(data, path)
    decreases |path|
  {
    if path == [] {
      if data.Arr? && last.Arr? && AllText(data.items) && AllText(last.items) {
        SameTexts(last.items, data.items);
      }
    } else if key !in STATIC {
      var k := path[0];
      ComparableMember(key, data, last, k);
      DeltaComplete(k, data.fields[k], last.fields[k], path[1..]);
      assert Compare(k, data.fields[k], last.fields[k]) != Null by {
        if path[1..] != [] {
          assert At(Null, path[1..]) == None;
        }
      }
      CompareMember(key, data, last, k);
    }
  }

  /** A static member that both statuses have and that is not null is sent whether or not it changed. */
  lemma StaticIsSent(key: string, data: Json, last: Json, k: string)
    requires Comparable(key, data, last) && key !in REMOVED && key !in STATIC && k in STATIC && k !in REMOVED
    requires data.Obj? && last.Obj? && k in data.fields && k in last.fields && data.fields[k] != Null
    ensures At(Compare(key, data, last), [k]) == Some(data.fields[k])
  {
    ComparableMember(key, data, last, k);
    CompareMember(key, data, last, k);
    assert [k][1..] == [];
  }

  // ---------- exactly what is sent ----------

  predicate IsPlain(k: string) {
    k !in STATIC && k !in REMOVED
  }

  /** Both are objects all the way to the last key of the path, under plain keys they share. */
  predicate Descends(data: Json, last: Json, path: seq<string>)
    decreases |path|
  {
    && path != [] && data.Obj? && last.Obj?
    && (|path| == 1 || (&& IsPlain(path[0]) && path[0] in data.fields && path[0] in last.fields
                        && Descends(data.fields[path[0]], last.fields[path[0]], path[1..])))
  }

  /** The same number or string as before, or a list of strings that begins with the non-empty one before. */
  predicate IsUnchanged(data: Json, last: Json) {
    || ((last.Num? || last.Int? || last.Str?) && data == last)
    || (&& last.Arr? && data.Arr? && 0 < |last.items| <= |data.items|
        && (forall i :: 0 <= i < |data.items| ==> data.items[i].Str?)
        && (forall i :: 0 <= i < |last.items| ==> last.items[i] == data.items[i]))
  }

  lemma PrefixOfTexts(l: seq<Json>, d: seq<Json>)
    requires AllText(l) && AllText(d)
    ensures Texts(l) <= Texts(d) <==> (|l| <= |d| && forall i :: 0 <= i < |l| ==> l[i] == d[i])
  {
    if Texts(l) <= Texts(d) {
      forall i | 0 <= i < |l| ensures l[i] == d[i] {
        assert Texts(l)[i] == Texts(d)[i];
        assert l[i] == Str(Texts(l)[i]) && d[i] == Str(Texts(d)[i]);
      }
    }
  }

  /** Away from two objects: nothing for what is unchanged, the whole new value for anything else. */
  lemma LeafSent(key: string, data: Json, last: Json)
    requires Comparable(key, data, last) && IsPlain(key) && !(data.Obj? && last.Obj?)
    ensures Compare(key, data, last) == if IsUnchanged(data, last) then Null else data
  {
    if last.Arr? && data.Arr? && AllText(data.items) && AllText(last.items) {
      PrefixOfTexts(last.items, data.items);
    } else if last.Arr? && data.Arr? && AllText(data.items) {
      var i :| 0 <= i < |last.items| && !last.items[i].Str?;
      assert !IsUnchanged(data, last);
    }
  }

  /** The members of the delta of two objects are those with something to send. */
  lemma MembersSent(key: string, data: Json, last: Json, k: string)
    requires Comparable(key, data, last) && IsPlain(key) && data.Obj? && last.Obj?
    ensures k in last.fields ==> Comparable(k, Field(data.fields, k), last.fields[k])
    ensures At(Compare(key, data, last), [k]) ==
      if k in last.fields && Compare(k, Field(data.fields, k), last.fields[k]) != Null
      then Some(Compare(k, Field(data.fields, k), last.fields[k])) else None
  {
    var l := last.fields;
    var result := map q | q in l && Compare(q, Field(data.fields, q), l[q]) != Null
                        :: Compare(q, Field(data.fields, q), l[q]);
    assert Compare(key, data, last) == if result == map[] then Null else Obj(result);
    assert k in result <==> (k in l && Compare(k, Field(data.fields, k), l[k]) != Null);
    assert k in result ==> result[k] == Compare(k, Field(data.fields, k), l[k]);
    hide Compare;
    MemberAt(result, k);
  }

  lemma MemberAt(f: Fields, k: string)
    ensures At(if f == map[] then Null else Obj(f), [k]) == if k in f then Some(f[k]) else None
  {
    assert [k][1..] == [];
  }

  /** Below a member of the delta. */
  lemma AtMember(j: Json, path: seq<string>)
    requires path != []
    ensures At(j, path) == match At(j, [path[0]])
      case Some(v) => At(v, path[1..])
      case None => None
  {
    assert [path[0]][1..] == [];
  }

  /**
   What is sent under the key k for the new value a where the last status has b, if there is either: nothing
   of a removed key, of a member the last status lacks, of one that is gone or null, or of one that is
   unchanged; the new value of a static key whether it changed or not, and of every other value that did.
   */
  predicate IsSentFor(sent: Option<Json>, k: string, a: Option<Json>, b: Option<Json>) {
    if k in REMOVED || b == None || a == None || a == Some(Null) then sent == None
    else if k in STATIC then sent == a
    else if a.value.Obj? && b.value.Obj? then true
    else sent == if IsUnchanged(a.value, b.value) then None else a
  }

  /** What a delta says at the end of a path through objects, exactly. */
  lemma {:induction false} SentExactly(key: string, data: Json, last: Json, path: seq<string>)
    requires Comparable(key, data, last) && IsPlain(key) && Descends(data, last, path)
    ensures IsSentFor(At(Compare(key, data, last), path), path[|path| - 1], At(data, path), At(last, path))
    decreases |path|
  {
    var k := path[0];
    var c := Compare(key, data, last);
    MembersSent(key, data, last, k);
    hide Compare, Comparable, IsSentFor;
    if |path| == 1 {
      assert path == [k] && path[1..] == [];
      SentMember(key, data, last, k);
    } else {
      var d, l, rest := data.fields[k], last.fields[k], path[1..];
      SentExactly(k, d, l, rest);
      AtMember(c, path);
      AtNull(rest);
      assert rest[|rest| - 1] == path[|path| - 1];
    }
  }

  lemma SentMember(key: string, data: Json, last: Json, k: string)
    requires Comparable(key, data, last) && IsPlain(key) && data.Obj? && last.Obj?
    ensures IsSentFor(At(Compare(key, data, last), [k]), k, At(data, [k]), At(last, [k]))
  {
    MembersSent(key, data, last, k);
    hide Compare, Comparable, IsUnchanged;
    assert [k][1..] == [];
    if k in last.fields {
      MemberSent(k, Field(data.fields, k), last.fields[k]);
    }
  }

  lemma AtNull(path: seq<string>)
    requires path != []
    ensures At(Null, path) == None
  {
  }

  lemma MemberSent(k: string, data: Json, last: Json)
    requires Comparable(k, data, last)
    ensures k in REMOVED || data == Null ==> Compare(k, data, last) == Null
    ensures k in STATIC && k !in REMOVED ==> Compare(k, data, last) == data
    ensures IsPlain(k) && !(data.Obj? && last.Obj?) ==> Compare(k, data, last) == if IsUnchanged(data, last) then Null else data
  {
    if IsPlain(k) && !(data.Obj? && last.Obj?) {
      LeafSent(k, data, last);
    }
  }

  /** Two objects are sent as the members with something to send, or not at all: no object goes out empty. */
  lemma NoEmptyObjects(key: string, data: Json, last: Json)
    requires Comparable(key, data, last) && IsPlain(key) && data.Obj? && last.Obj?
    ensures var c := Compare(key, data, last);
      && (c == Null || (c.Obj? && c.fields != map[]))
      && (c == Null <==> forall k :: k in last.fields ==>
            Comparable(k, Field(data.fields, k), last.fields[k]) && Compare(k, Field(data.fields, k), last.fields[k]) == Null)
  {
    var l := last.fields;
    var result := map q | q in l && Compare(q, Field(data.fields, q), l[q]) != Null
                        :: Compare(q, Field(data.fields, q), l[q]);
    assert Compare(key, data, last) == if result == map[] then Null else Obj(result);
    if k :| k in l && Compare(k, Field(data.fields, k), l[k]) != Null {
      assert k in result;
    }
    if result != map[] {
      var k :| k in result;
    }
  }

  /** The first status goes out whole, any other as its delta, and nothing when the delta is nothing. */
  lemma OnlyChangesExactly(status: Fields, last: Option<Fields>)
    requires Fits(status, last)
    ensures last == None ==> OnlyChanges(status, last) == Some(status)
    ensures last != None ==>
      var c := Compare("alldata", Obj(status), Obj(last.value));
      OnlyChanges(status, last) == if c == Null then None else Some(c.fields)
    ensures last != None && OnlyChanges(status, last) != None ==> OnlyChanges(status, last).value != map[]
  {
    AlldataIsPlain();
    if last != None {
      NoEmptyObjects("alldata", Obj(status), Obj(last.value));
      hide Compare, Comparable;
    }
  }

  // ---------- when the comparison panics ----------

  /** last is a non-empty list of strings that properly extends data's. */
  predicate IsShrunk(data: Json, last: Json) {
    && last.Arr? && data.Arr? && |data.items| < |last.items|
    && (forall i :: 0 <= i < |last.items| ==> last.items[i].Str?)
    && (forall i :: 0 <= i < |data.items| ==> data.items[i] == last.items[i])
  }

  /** So it is at the end of a path of plain keys that both have. */
  predicate ShrinksAt(data: Json, last: Json, path: seq<string>)
    decreases |path|
  {
    if path == [] then IsShrunk(data, last)
    else
      && data.Obj? && last.Obj? && IsPlain(path[0]) && path[0] in data.fields && path[0] in last.fields
      && ShrinksAt(data.fields[path[0]], last.fields[path[0]], path[1..])
  }

  ghost predicate Shrinks(data: Json, last: Json) {
    exists path: seq<string> :: ShrinksAt(data, last, path)
  }

  lemma SliceOkExactly(t1: seq<string>, t2: seq<string>)
    ensures SliceOk(t1, t2) <==> !(t1 <= t2 && |t1| < |t2|)
  {
    if |t1| < |t2| && !SliceOk(t1, t2) {
      assert forall i :: 0 <= i < |t1| ==> t1[i] == t2[i];
    }
  }

  lemma LeafPanics(key: string, data: Json, last: Json)
    requires IsPlain(key) && !(data.Obj? && last.Obj?)
    ensures !Comparable(key, data, last) <==> IsShrunk(data, last)
  {
    if last.Arr? && data.Arr? && AllText(data.items) && AllText(last.items) {
      SliceOkExactly(Texts(data.items), Texts(last.items));
      PrefixOfTexts(data.items, last.items);
    } else if last.Arr? && data.Arr? && AllText(last.items) && |data.items| < |last.items| {
      var i :| 0 <= i < |data.items| && !data.items[i].Str?;
      assert data.items[i] != last.items[i];
    }
  }

  lemma OnlyPlainPanics(key: string, data: Json, last: Json)
    requires !Comparable(key, data, last)
    ensures IsPlain(key)
  {
  }

  /** Two objects shrink where a member they share under a plain key does. */
  lemma ShrinksBelow(data: Json, last: Json)
    requires data.Obj? && last.Obj?
    ensures Shrinks(data, last)
      <==> (exists k :: k in data.fields && k in last.fields && IsPlain(k) && Shrinks(data.fields[k], last.fields[k]))
  {
    if Shrinks(data, last) {
      var path: seq<string> :| ShrinksAt(data, last, path);
      assert ShrinksAt(data.fields[path[0]], last.fields[path[0]], path[1..]);
    }
    if k :| k in data.fields && k in last.fields && IsPlain(k) && Shrinks(data.fields[k], last.fields[k]) {
      var path: seq<string> :| ShrinksAt(data.fields[k], last.fields[k], path);
      assert ([k] + path)[1..] == path;
      assert ShrinksAt(data, last, [k] + path);
    }
  }

  lemma ShrinksHere(data: Json, last: Json)
    requires !(data.Obj? && last.Obj?)
    ensures Shrinks(data, last) <==> IsShrunk(data, last)
  {
    if IsShrunk(data, last) {
      assert ShrinksAt(data, last, []);
    }
    if Shrinks(data, last) {
      var path: seq<string> :| ShrinksAt(data, last, path);
      assert path == [];
    }
  }

  /** The comparison panics exactly when, somewhere below plain keys, a list of strings has lost only its tail. */
  lemma {:induction false} PanicsExactly(key: string, data: Json, last: Json)
    requires IsPlain(key)
    ensures !Comparable(key, data, last) <==> Shrinks(data, last)
    decreases last
  {
    hide Shrinks;
    if data.Obj? && last.Obj? {
      ShrinksBelow(data, last);
      if !Comparable(key, data, last) {
        var k :| k in last.fields && !Comparable(k, Field(data.fields, k), last.fields[k]);
        NullSendsNothing(k, last.fields[k]);
        OnlyPlainPanics(k, Field(data.fields, k), last.fields[k]);
        PanicsExactly(k, data.fields[k], last.fields[k]);
      }
      if k :| k in data.fields && k in last.fields && IsPlain(k) && Shrinks(data.fields[k], last.fields[k]) {
        PanicsExactly(k, data.fields[k], last.fields[k]);
        PanicSpreads(key, data.fields, last.fields, k);
      }
    } else {
      LeafPanics(key, data, last);
      ShrinksHere(data, last);
    }
  }
}
