/** Status messages: renaming of keys and the delta against the previous status. */
module Status {
  import opened MachineInts

  /** A parsed JSON value; `Int` only arises from the rewritten time stamp. `Null` is Go's nil interface. */
  datatype Json =
    | Null | Bool(b: bool) | Num(n: real) | Int(i: int64) | Str(s: string)
    | Arr(items: seq<Json>) | Obj(fields: map<string, Json>)

  type Fields = map<string, Json>

  /** `m[k]` on a Go map: nil for a missing key. */
  function Field(m: Fields, k: string): Json {
    if k in m then m[k] else Null
  }

  // ---------- renaming ----------

  function Abbrev(table: map<string, string>, k: string): string {
    if k in table then table[k] else k
  }

  predicate HasMember(d: Fields) {
    exists k :: k in d && d[k] != Null
  }

  /**
   r is a result of `ReplaceKeys` on d for some iteration order of the maps: under every abbreviation
   stands the renamed value of one of the non-null members that share it.
   */
  ghost predicate Renamed(table: map<string, string>, d: Json, r: Json)
    requires d.Obj?
    decreases d, 0
  {
    && r.Obj?
    && (forall k :: k in d.fields && d.fields[k] != Null ==> Abbrev(table, k) in r.fields)
    && (forall a :: a in r.fields ==>
          exists k :: k in d.fields && d.fields[k] != Null && Abbrev(table, k) == a && RenamedValue(table, d.fields[k], r.fields[a]))
  }

  /** The value stored for a member: objects renamed unless that leaves them empty, also inside arrays. */
  ghost predicate RenamedValue(table: map<string, string>, v: Json, w: Json)
    decreases v, 1
  {
    match v
    case Obj(f) => if HasMember(f) then Renamed(table, v, w) else w == v
    case Arr(items) =>
      && w.Arr? && |w.items| == |items|
      && (forall i :: 0 <= i < |items| ==> RenamedItem(table, v, i, w.items[i]))
    case _ => w == v
  }

  /** Arrays nested in arrays are left alone. */
  ghost predicate RenamedItem(table: map<string, string>, v: Json, i: nat, w: Json)
    requires v.Arr? && i < |v.items|
    decreases v, 0
  {
    if v.items[i].Obj? && HasMember(v.items[i].fields) then Renamed(table, v.items[i], w) else w == v.items[i]
  }

  /** No abbreviation is itself renamed to something else. */
  ghost predicate Closed(table: map<string, string>) {
    forall k :: k in table ==> Abbrev(table, table[k]) == table[k]
  }

  lemma RenamedNotNull(table: map<string, string>, v: Json, w: Json)
    requires v != Null && RenamedValue(table, v, w)
    ensures w != Null
  {
    if v.Obj? && HasMember(v.fields) {
      assert Renamed(table, v, w);
    }
  }

  lemma RenamedHasNoNulls(table: map<string, string>, d: Json, r: Json)
    requires d.Obj? && Renamed(table, d, r)
    ensures forall a :: a in r.fields ==> r.fields[a] != Null
    ensures HasMember(d.fields) <==> HasMember(r.fields)
    ensures !HasMember(d.fields) <==> r.fields == map[]
  {
    forall a | a in r.fields ensures r.fields[a] != Null {
      var k :| k in d.fields && d.fields[k] != Null && Abbrev(table, k) == a && RenamedValue(table, d.fields[k], r.fields[a]);
      RenamedNotNull(table, d.fields[k], r.fields[a]);
    }
    if HasMember(d.fields) {
      var k :| k in d.fields && d.fields[k] != Null;
      assert Abbrev(table, k) in r.fields;
    }
    if r.fields != map[] {
      var a :| a in r.fields;
      assert HasMember(d.fields);
    }
  }

  lemma AbbrevTwice(table: map<string, string>, k: string)
    requires Closed(table)
    ensures Abbrev(table, Abbrev(table, k)) == Abbrev(table, k)
  {
  }

  /** r is a renaming of d, and r2 one of r. */
  ghost predicate RenamedTwice(table: map<string, string>, d: Json, r: Json, r2: Json) {
    Closed(table) && d.Obj? && Renamed(table, d, r) && Renamed(table, r, r2)
  }

  /** Renaming is idempotent whatever order the maps are walked in, the first time and the second. */
  lemma {:induction false} RenameIdempotent(table: map<string, string>, d: Json, r: Json, r2: Json)
    requires RenamedTwice(table, d, r, r2)
    ensures r2 == r
    decreases d, 1
  {
    assert r.Obj? && r2.Obj?;
    hide RenamedTwice;
    if r2 != r {
      var a := Difference(r2, r);
      AbbrevsSurvive(table, d, r, r2);
      MemberIdempotent(table, d, r, r2, a);
    }
  }

  /** Where two different objects differ. */
  lemma Difference(x: Json, y: Json) returns (a: string)
    requires x.Obj? && y.Obj? && x != y
    ensures a in x.fields || a in y.fields
    ensures a in x.fields && a in y.fields ==> x.fields[a] != y.fields[a]
  {
    if x.fields.Keys != y.fields.Keys {
      a :| (a in x.fields) != (a in y.fields);
    } else {
      assert x.fields != y.fields;
      a :| a in x.fields && x.fields[a] != y.fields[a];
    }
  }

  lemma {:induction false} MemberIdempotent(table: map<string, string>, d: Json, r: Json, r2: Json, a: string)
    requires RenamedTwice(table, d, r, r2) && a in r2.fields
    ensures a in r.fields && r2.fields[a] == r.fields[a]
    decreases d, 0
  {
    var q := SourceOf(table, r, r2, a);
    KeysAreFixed(table, d, r, q);
    var k := SourceOf(table, d, r, a);
    hide Renamed;
    RenameValueIdempotent(table, d.fields[k], r.fields[a], r2.fields[a]);
  }

  /** A member from which a renamed one was made. */
  lemma SourceOf(table: map<string, string>, d: Json, r: Json, a: string) returns (k: string)
    requires d.Obj? && Renamed(table, d, r) && a in r.fields
    ensures k in d.fields && d.fields[k] != Null && Abbrev(table, k) == a && RenamedValue(table, d.fields[k], r.fields[a])
  {
    k :| k in d.fields && d.fields[k] != Null && Abbrev(table, k) == a && RenamedValue(table, d.fields[k], r.fields[a]);
  }

  lemma AbbrevsSurvive(table: map<string, string>, d: Json, r: Json, r2: Json)
    requires RenamedTwice(table, d, r, r2)
    ensures forall a :: a in r.fields ==> a in r2.fields
  {
    RenamedHasNoNulls(table, d, r);
    forall a | a in r.fields ensures a in r2.fields {
      KeysAreFixed(table, d, r, a);
    }
  }

  lemma KeysAreFixed(table: map<string, string>, d: Json, r: Json, q: string)
    requires Closed(table) && d.Obj? && Renamed(table, d, r) && q in r.fields
    ensures Abbrev(table, q) == q
  {
    var k := SourceOf(table, d, r, q);
    AbbrevTwice(table, k);
  }

  lemma {:induction false} RenameValueIdempotent(table: map<string, string>, v: Json, w: Json, x: Json)
    requires Closed(table) && RenamedValue(table, v, w) && RenamedValue(table, w, x)
    ensures x == w
    decreases v, 2
  {
    match v
    case Obj(f) =>
      if HasMember(f) {
        RenamedHasNoNulls(table, v, w);
        RenameIdempotent(table, v, w, x);
      }
    case Arr(items) =>
      forall i | 0 <= i < |items| ensures x.items[i] == w.items[i] {
        assert RenamedItem(table, v, i, w.items[i]) && RenamedItem(table, w, i, x.items[i]);
        if items[i].Obj? && HasMember(items[i].fields) {
          RenamedHasNoNulls(table, items[i], w.items[i]);
          RenameIdempotent(table, items[i], w.items[i], x.items[i]);
        }
      }
      assert x.items == w.items;
    case _ =>
  }

  // ---------- one iteration order ----------

  /**
   A parsed value together with the order in which `range` visits the members of each of its objects.
   `Leaf` is a value that is neither an array nor an object.
   */
  datatype Walk = Leaf(value: Json) | List(items: seq<Walk>) | Members(list: seq<Member>)

  datatype Member = Member(key: string, value: Walk)

  predicate IsWalk(o: Walk) {
    match o
    case Leaf(v) => !v.Arr? && !v.Obj?
    case List(items) => forall i :: 0 <= i < |items| ==> IsWalk(items[i])
    case Members(list) =>
      && (forall i :: 0 <= i < |list| ==> IsWalk(list[i].value))
      && (forall i, j :: 0 <= i < j < |list| ==> list[i].key != list[j].key)
  }

  /** The value, its order forgotten. */
  function Plain(o: Walk): Json {
    match o
    case Leaf(v) => v
    case List(items) => Arr(seq(|items|, i requires 0 <= i < |items| => Plain(items[i])))
    case Members(list) => Obj(PlainFields(list))
  }

  function PlainFields(list: seq<Member>): Fields {
    if list == [] then map[]
    else
      var n := |list| - 1;
      PlainFields(list[..n])[list[n].key := Plain(list[n].value)]
  }

  /** `ReplaceKeys` on the members in their order: null members are left out, later ones overwrite. */
  function RenameFields(table: map<string, string>, list: seq<Member>): Fields {
    if list == [] then map[]
    else
      var n := |list| - 1;
      var r := RenameFields(table, list[..n]);
      if list[n].value == Leaf(Null) then r else r[Abbrev(table, list[n].key) := RenameWalk(table, list[n].value)]
  }

  /** What is stored for a value: an object stays as it is when renaming leaves nothing of it. */
  function RenameWalk(table: map<string, string>, o: Walk): Json {
    match o
    case Leaf(v) => v
    case List(items) =>
      Arr(seq(|items|, i requires 0 <= i < |items| =>
        if items[i].Members? then RenameWalk(table, items[i]) else Plain(items[i])))
    case Members(list) =>
      var r := RenameFields(table, list);
      if r == map[] then Plain(o) else Obj(r)
  }

  /** The members with something to rename. */
  predicate Counts(m: Member) {
    m.value != Leaf(Null)
  }

  lemma {:induction false} PlainAt(list: seq<Member>, i: nat)
    requires IsWalk(Members(list)) && i < |list|
    ensures list[i].key in PlainFields(list) && PlainFields(list)[list[i].key] == Plain(list[i].value)
  {
    var n := |list| - 1;
    if i < n {
      assert IsWalk(Members(list[..n]));
      PlainAt(list[..n], i);
    }
  }

  lemma {:induction false} PlainFrom(list: seq<Member>, k: string) returns (i: nat)
    requires k in PlainFields(list)
    ensures i < |list| && list[i].key == k
  {
    var n := |list| - 1;
    if list[n].key == k {
      i := n;
    } else {
      i := PlainFrom(list[..n], k);
    }
  }

  /** Under an abbreviation stands the last of the members that share it. */
  lemma {:induction false} LastWins(table: map<string, string>, list: seq<Member>, a: string) returns (i: nat)
    requires a in RenameFields(table, list)
    ensures i < |list| && Counts(list[i]) && Abbrev(table, list[i].key) == a
    ensures RenameFields(table, list)[a] == RenameWalk(table, list[i].value)
  {
    var n := |list| - 1;
    if Counts(list[n]) && Abbrev(table, list[n].key) == a {
      i := n;
    } else {
      i := LastWins(table, list[..n], a);
    }
  }

  lemma {:induction false} EveryMemberShows(table: map<string, string>, list: seq<Member>, i: nat)
    requires i < |list| && Counts(list[i])
    ensures Abbrev(table, list[i].key) in RenameFields(table, list)
  {
    if i < |list| - 1 {
      EveryMemberShows(table, list[..|list| - 1], i);
    }
  }

  lemma NullIsLeaf(o: Walk)
    requires IsWalk(o)
    ensures Plain(o) == Null <==> o == Leaf(Null)
  {
  }

  /** For every iteration order the result is a renaming in the sense of `Renamed`. */
  lemma {:induction false} RenameIsRenamed(table: map<string, string>, list: seq<Member>)
    requires IsWalk(Members(list))
    ensures Renamed(table, Plain(Members(list)), Obj(RenameFields(table, list)))
    ensures HasMember(PlainFields(list)) <==> RenameFields(table, list) != map[]
    decreases list, 0
  {
    var d, r := Plain(Members(list)), RenameFields(table, list);
    forall k | k in d.fields && d.fields[k] != Null ensures Abbrev(table, k) in r {
      var i := PlainFrom(list, k);
      PlainAt(list, i);
      EveryMemberShows(table, list, i);
    }
    forall a | a in r
      ensures exists k :: k in d.fields && d.fields[k] != Null && Abbrev(table, k) == a && RenamedValue(table, d.fields[k], r[a])
    {
      var i := LastWins(table, list, a);
      PlainAt(list, i);
      NullIsLeaf(list[i].value);
      RenameWalkIsRenamed(table, list[i].value);
      assert list[i].key in d.fields;
    }
    RenamedHasNoNulls(table, d, Obj(r));
  }

  lemma {:induction false} RenameWalkIsRenamed(table: map<string, string>, o: Walk)
    requires IsWalk(o)
    ensures RenamedValue(table, Plain(o), RenameWalk(table, o))
    decreases o, 1
  {
    match o
    case Leaf(_) =>
    case List(items) =>
      var v, w := Plain(o), RenameWalk(table, o);
      forall i | 0 <= i < |items| ensures RenamedItem(table, v, i, w.items[i]) {
        assert v.items[i] == Plain(items[i]);
        if items[i].Members? {
          RenameIsRenamed(table, items[i].list);
          assert w.items[i] == RenameWalk(table, items[i]);
        }
      }
    case Members(list) => RenameIsRenamed(table, list);
  }

  /** Renaming twice is renaming once, in whatever orders the two results' maps are visited. */
  lemma RenameTwice(table: map<string, string>, first: seq<Member>, second: seq<Member>)
    requires Closed(table) && IsWalk(Members(first)) && IsWalk(Members(second))
    requires PlainFields(second) == RenameFields(table, first)
    ensures RenameFields(table, second) == RenameFields(table, first)
  {
    RenameIsRenamed(table, first);
    RenameIsRenamed(table, second);
    hide Renamed, RenameFields;
    RenameIdempotent(table, Plain(Members(first)), Obj(RenameFields(table, first)), Obj(RenameFields(table, second)));
  }

  // ---------- when the order does not matter ----------

  /**
   At every place the renaming reaches, non-null siblings that share an abbreviation rename to equal values.
   Arrays nested in arrays are not reached.
   */
  predicate Settled(table: map<string, string>, o: Walk) {
    match o
    case Leaf(_) => true
    case List(items) => forall i :: 0 <= i < |items| ==> items[i].Members? ==> Settled(table, items[i])
    case Members(list) =>
      && (forall i :: 0 <= i < |list| ==> Counts(list[i]) ==> Settled(table, list[i].value))
      && (forall i, j :: 0 <= i < j < |list| ==> SameOrApart(table, list[i], list[j]))
  }

  predicate SameOrApart(table: map<string, string>, m: Member, n: Member) {
    (Counts(m) && Counts(n) && Abbrev(table, m.key) == Abbrev(table, n.key))
      ==> RenameWalk(table, m.value) == RenameWalk(table, n.value)
  }

  /** p is o visited in another order. */
  predicate SameValue(o: Walk, p: Walk) {
    IsWalk(o) && IsWalk(p) && Plain(o) == Plain(p)
  }

  /** The member of one order under its key in another. */
  lemma Counterpart(list: seq<Member>, other: seq<Member>, i: nat) returns (j: nat)
    requires SameValue(Members(list), Members(other)) && i < |list|
    ensures j < |other| && other[j].key == list[i].key && SameValue(list[i].value, other[j].value)
    ensures Counts(list[i]) <==> Counts(other[j])
  {
    PlainAt(list, i);
    j := PlainFrom(other, list[i].key);
    PlainAt(other, j);
    NullIsLeaf(list[i].value);
    NullIsLeaf(other[j].value);
  }

  /** A settled value is renamed alike in every order. */
  lemma {:induction false} SettledRenamesAlike(table: map<string, string>, o: Walk, p: Walk)
    requires SameValue(o, p) && Settled(table, o)
    ensures RenameWalk(table, o) == RenameWalk(table, p)
    decreases o, 1
  {
    match o
    case Leaf(_) =>
    case List(items) =>
      assert p.List? && |p.items| == |items|;
      var v, w := RenameWalk(table, o), RenameWalk(table, p);
      forall i | 0 <= i < |items| ensures v.items[i] == w.items[i] {
        assert Plain(o).items[i] == Plain(items[i]) && Plain(p).items[i] == Plain(p.items[i]);
        assert SameValue(items[i], p.items[i]);
        if items[i].Members? {
          assert p.items[i].Members?;
          SettledRenamesAlike(table, items[i], p.items[i]);
        } else {
          assert v.items[i] == Plain(items[i]) && w.items[i] == Plain(p.items[i]);
        }
      }
      assert v.items == w.items;
    case Members(list) => SettledFieldsAlike(table, o, p);
  }

  lemma {:induction false} SettledFieldsAlike(table: map<string, string>, o: Walk, p: Walk)
    requires SameValue(o, p) && Settled(table, o) && o.Members?
    ensures p.Members? && RenameFields(table, o.list) == RenameFields(table, p.list)
    decreases o, 0
  {
    assert p.Members?;
    hide RenameFields, RenameWalk, IsWalk, Plain, Settled;
    var r, q := RenameFields(table, o.list), RenameFields(table, p.list);
    forall a | a in r.Keys + q.Keys ensures a in r && a in q && r[a] == q[a] {
      if a in r {
        ShowsToo(table, o.list, p.list, a);
      } else {
        ShowsToo(table, p.list, o.list, a);
      }
      var i := LastWins(table, o.list, a);
      var j := LastWins(table, p.list, a);
      var k := Counterpart(p.list, o.list, j);
      assert Settled(table, o.list[k].value) && RenameWalk(table, o.list[i].value) == RenameWalk(table, o.list[k].value) by {
        SettledPair(table, o, i, k);
      }
      SettledRenamesAlike(table, o.list[k].value, p.list[j].value);
    }
  }

  /** An abbreviation one order shows, every other order shows. */
  lemma ShowsToo(table: map<string, string>, list: seq<Member>, other: seq<Member>, a: string)
    requires SameValue(Members(list), Members(other)) && a in RenameFields(table, list)
    ensures a in RenameFields(table, other)
  {
    hide RenameFields, RenameWalk, IsWalk, Plain;
    var i := LastWins(table, list, a);
    var c := Counterpart(list, other, i);
    EveryMemberShows(table, other, c);
  }

  lemma SettledPair(table: map<string, string>, o: Walk, i: nat, k: nat)
    requires o.Members? && Settled(table, o) && i < |o.list| && k < |o.list| && Counts(o.list[i]) && Counts(o.list[k])
    requires Abbrev(table, o.list[i].key) == Abbrev(table, o.list[k].key)
    ensures Settled(table, o.list[k].value) && RenameWalk(table, o.list[i].value) == RenameWalk(table, o.list[k].value)
  {
    hide RenameWalk;
    assert i == k || SameOrApart(table, o.list[i], o.list[k]) || SameOrApart(table, o.list[k], o.list[i]);
  }

  /** The same members with number c visited last. */
  function VisitLast(list: seq<Member>, c: nat): seq<Member>
    requires c < |list|
  {
    list[..c] + list[c + 1..] + [list[c]]
  }

  lemma VisitLastSame(list: seq<Member>, c: nat)
    requires c < |list| && IsWalk(Members(list))
    ensures SameValue(Members(list), Members(VisitLast(list, c)))
  {
    var q := VisitLast(list, c);
    assert forall i :: 0 <= i < |q| ==> q[i] == list[if i < c then i else if i == |q| - 1 then c else i + 1];
    assert IsWalk(Members(q));
    forall m | m in list ensures Present(m, q) {
      assert m in list[..c] || m == list[c] || m in list[c + 1..];
      assert m in q && SameMember(m, m);
    }
    forall m | m in q ensures Present(m, list) {
      assert m in list && SameMember(m, m);
    }
    hide PlainFields;
    SameMembers(list, q);
  }

  /** q holds a member like m, up to the order inside its value. */
  predicate Present(m: Member, q: seq<Member>) {
    exists j :: 0 <= j < |q| && SameMember(m, q[j])
  }

  /** Lists that hold each other's members have equal fields. */
  lemma SameMembers(list: seq<Member>, q: seq<Member>)
    requires IsWalk(Members(list)) && IsWalk(Members(q))
    requires (forall m :: m in list ==> Present(m, q)) && forall m :: m in q ==> Present(m, list)
    ensures PlainFields(list) == PlainFields(q)
  {
    hide PlainFields, IsWalk, Present;
    FieldsWithin(list, q);
    FieldsWithin(q, list);
    assert PlainFields(list).Keys == PlainFields(q).Keys;
  }

  lemma FieldsWithin(list: seq<Member>, q: seq<Member>)
    requires IsWalk(Members(list)) && IsWalk(Members(q)) && forall m :: m in list ==> Present(m, q)
    ensures forall k :: k in PlainFields(list) ==> k in PlainFields(q) && PlainFields(list)[k] == PlainFields(q)[k]
  {
    hide PlainFields, IsWalk, SameMember;
    forall k | k in PlainFields(list) ensures k in PlainFields(q) && PlainFields(list)[k] == PlainFields(q)[k] {
      var i := PlainFrom(list, k);
      assert Present(list[i], q);
      var j :| 0 <= j < |q| && SameMember(list[i], q[j]);
      SameField(list, q, i, j);
    }
  }

  predicate SameMember(m: Member, n: Member) {
    m.key == n.key && Plain(m.value) == Plain(n.value)
  }

  lemma SameField(list: seq<Member>, q: seq<Member>, i: nat, j: nat)
    requires IsWalk(Members(list)) && IsWalk(Members(q)) && i < |list| && j < |q| && SameMember(list[i], q[j])
    ensures list[i].key in PlainFields(list) && list[i].key in PlainFields(q)
    ensures PlainFields(list)[list[i].key] == PlainFields(q)[list[i].key]
  {
    PlainAt(list, i);
    PlainAt(q, j);
  }

  lemma LastMember(table: map<string, string>, list: seq<Member>)
    requires list != [] && Counts(list[|list| - 1])
    ensures var m, r := list[|list| - 1], RenameFields(table, list);
      Abbrev(table, m.key) in r && r[Abbrev(table, m.key)] == RenameWalk(table, m.value)
  {
  }

  /** Of two different values one differs from what the given order leaves; visiting its member last leaves it. */
  lemma MemberLast(table: map<string, string>, list: seq<Member>, c: nat) returns (q: seq<Member>)
    requires IsWalk(Members(list)) && c < |list| && Counts(list[c])
    requires Abbrev(table, list[c].key) in RenameFields(table, list)
    requires RenameFields(table, list)[Abbrev(table, list[c].key)] != RenameWalk(table, list[c].value)
    ensures SameValue(Members(list), Members(q)) && RenameWalk(table, Members(q)) != RenameWalk(table, Members(list))
  {
    q := VisitLast(list, c);
    VisitLastSame(list, c);
    LastMember(table, q);
  }

  /** A value that is not settled is renamed differently in some other order. */
  lemma {:induction false} UnsettledDiffers(table: map<string, string>, o: Walk) returns (p: Walk)
    requires IsWalk(o) && !Settled(table, o)
    ensures SameValue(o, p) && RenameWalk(table, p) != RenameWalk(table, o)
    decreases o, 1
  {
    match o
    case List(items) =>
      var i :| 0 <= i < |items| && items[i].Members? && !Settled(table, items[i]);
      var q := UnsettledDiffers(table, items[i]);
      p := List(items[i := q]);
      assert Plain(p).items == Plain(o).items;
      assert RenameWalk(table, p).items[i] != RenameWalk(table, o).items[i];
    case Members(list) =>
      var q := UnsettledMembers(table, o);
      p := Members(q);
  }

  lemma {:induction false} UnsettledMembers(table: map<string, string>, o: Walk) returns (q: seq<Member>)
    requires IsWalk(o) && o.Members? && !Settled(table, o)
    ensures SameValue(o, Members(q)) && RenameWalk(table, Members(q)) != RenameWalk(table, o)
    decreases o, 0
  {
    var list, r := o.list, RenameFields(table, o.list);
    if i, j :| 0 <= i < j < |list| && !SameOrApart(table, list[i], list[j]) {
      q := ClashDiffers(table, list, i, j);
    } else {
      var i :| 0 <= i < |list| && Counts(list[i]) && !Settled(table, list[i].value);
      EveryMemberShows(table, list, i);
      if r[Abbrev(table, list[i].key)] != RenameWalk(table, list[i].value) {
        q := MemberLast(table, list, i);
      } else {
        var v := UnsettledDiffers(table, list[i].value);
        q := ReplacedLast(table, list, i, v);
      }
    }
  }

  lemma ClashDiffers(table: map<string, string>, list: seq<Member>, i: nat, j: nat) returns (q: seq<Member>)
    requires IsWalk(Members(list)) && i < j < |list| && !SameOrApart(table, list[i], list[j])
    ensures SameValue(Members(list), Members(q)) && RenameWalk(table, Members(q)) != RenameWalk(table, Members(list))
  {
    EveryMemberShows(table, list, i);
    var a := Abbrev(table, list[i].key);
    hide RenameWalk, RenameFields, IsWalk, SameValue;
    q := MemberLast(table, list, if RenameFields(table, list)[a] != RenameWalk(table, list[i].value) then i else j);
  }

  lemma ReplacedFields(list: seq<Member>, other: seq<Member>, i: nat)
    requires IsWalk(Members(list)) && IsWalk(Members(other)) && |other| == |list| && i < |list|
    requires SameMember(list[i], other[i]) && forall j :: 0 <= j < |list| && j != i ==> other[j] == list[j]
    ensures PlainFields(list) == PlainFields(other)
  {
    forall m | m in list ensures Present(m, other) {
      var j :| 0 <= j < |list| && list[j] == m;
      assert SameMember(m, other[j]);
    }
    forall m | m in other ensures Present(m, list) {
      var j :| 0 <= j < |other| && other[j] == m;
      assert SameMember(m, list[j]);
    }
    hide PlainFields, IsWalk, Present;
    SameMembers(list, other);
  }

  /** The same with the member's own value visited in another order. */
  lemma ReplacedLast(table: map<string, string>, list: seq<Member>, i: nat, v: Walk) returns (q: seq<Member>)
    requires IsWalk(Members(list)) && i < |list| && Counts(list[i]) && SameValue(list[i].value, v)
    requires Abbrev(table, list[i].key) in RenameFields(table, list)
    requires RenameFields(table, list)[Abbrev(table, list[i].key)] == RenameWalk(table, list[i].value) != RenameWalk(table, v)
    ensures SameValue(Members(list), Members(q)) && RenameWalk(table, Members(q)) != RenameWalk(table, Members(list))
  {
    var other := list[i := Member(list[i].key, v)];
    assert IsWalk(Members(other));
    NullIsLeaf(v);
    NullIsLeaf(list[i].value);
    ReplacedFields(list, other, i);
    VisitLastSame(other, i);
    q := VisitLast(other, i);
    LastMember(table, q);
  }

  /** The result is the same for every iteration order exactly when the value is settled. */
  lemma OrderMattersExactly(table: map<string, string>, o: Walk)
    requires IsWalk(o) && o.Members?
    ensures (forall p: Walk :: SameValue(o, p) ==> RenameWalk(table, p) == RenameWalk(table, o)) <==> Settled(table, o)
  {
    if Settled(table, o) {
      forall p: Walk | SameValue(o, p) ensures RenameWalk(table, p) == RenameWalk(table, o) {
        SettledRenamesAlike(table, o, p);
      }
    } else {
      var p := UnsettledDiffers(table, o);
    }
  }

  lemma PairOverwrites(table: map<string, string>, j: string, k: string, m: real, n: real)
    requires Abbrev(table, j) == Abbrev(table, k)
    ensures RenameFields(table, [Member(j, Leaf(Num(m))), Member(k, Leaf(Num(n)))]) == map[Abbrev(table, j) := Num(n)]
  {
    var x, y := Member(j, Leaf(Num(m))), Member(k, Leaf(Num(n)));
    assert [x, y][..1] == [x] && [x][..0] == [];
    assert RenameFields(table, [x]) == map[Abbrev(table, j) := Num(m)];
  }

  /** Two numbers under keys with one abbreviation: the one visited later survives. */
  lemma ClashIsArbitrary(table: map<string, string>, j: string, k: string, m: real, n: real)
    requires j != k && Abbrev(table, j) == Abbrev(table, k)
    ensures var x, y := Member(j, Leaf(Num(m))), Member(k, Leaf(Num(n)));
      && SameValue(Members([x, y]), Members([y, x]))
      && RenameFields(table, [x, y]) == map[Abbrev(table, j) := Num(n)]
      && RenameFields(table, [y, x]) == map[Abbrev(table, j) := Num(m)]
  {
    var x, y := Member(j, Leaf(Num(m))), Member(k, Leaf(Num(n)));
    assert IsWalk(Members([x, y]));
    hide RenameFields, IsWalk, SameValue;
    VisitLastSame([x, y], 0);
    assert VisitLast([x, y], 0) == [y, x];
    PairOverwrites(table, j, k, m, n);
    PairOverwrites(table, k, j, n, m);
  }

  /**
   A member is found renamed under its abbreviation in every order of its siblings exactly when each
   sibling that shares the abbreviation renames to an equal value.
   */
  lemma KeptInEveryOrder(table: map<string, string>, list: seq<Member>, i: nat)
    requires IsWalk(Members(list)) && i < |list| && Counts(list[i])
    ensures (forall q: seq<Member> :: multiset(q) == multiset(list) ==> Holds(table, q, list[i]))
      <==> (forall j :: 0 <= j < |list| ==> SameOrApart(table, list[i], list[j]))
  {
    hide RenameFields, RenameWalk, SameOrApart, Holds, IsWalk;
    if forall j :: 0 <= j < |list| ==> SameOrApart(table, list[i], list[j]) {
      forall q: seq<Member> | multiset(q) == multiset(list) ensures Holds(table, q, list[i]) {
        AgreeingHolds(table, list, i, q);
      }
    } else {
      var j :| 0 <= j < |list| && !SameOrApart(table, list[i], list[j]);
      DifferentDisplaces(table, list, i, j);
    }
  }

  lemma AgreeingHolds(table: map<string, string>, list: seq<Member>, i: nat, q: seq<Member>)
    requires i < |list| && Counts(list[i]) && multiset(q) == multiset(list)
    requires forall j :: 0 <= j < |list| ==> SameOrApart(table, list[i], list[j])
    ensures Holds(table, q, list[i])
  {
    hide RenameFields, RenameWalk;
    var m := list[i];
    assert m in multiset(list);
    var at :| 0 <= at < |q| && q[at] == m;
    EveryMemberShows(table, q, at);
    var l := LastWins(table, q, Abbrev(table, m.key));
    assert q[l] in multiset(list);
  }

  lemma DifferentDisplaces(table: map<string, string>, list: seq<Member>, i: nat, j: nat)
    requires i < |list| && j < |list| && !SameOrApart(table, list[i], list[j])
    ensures multiset(VisitLast(list, j)) == multiset(list) && !Holds(table, VisitLast(list, j), list[i])
  {
    assert list == list[..j] + [list[j]] + list[j + 1..];
    LastMember(table, VisitLast(list, j));
    hide RenameFields, RenameWalk;
  }

  predicate Holds(table: map<string, string>, list: seq<Member>, m: Member) {
    var a, r := Abbrev(table, m.key), RenameFields(table, list);
    a in r && r[a] == RenameWalk(table, m.value)
  }

  // ---------- the loops ----------

  /** One turn of the loop over a map. */
  lemma RenameNext(table: map<string, string>, list: seq<Member>, i: nat)
    requires i < |list|
    ensures RenameFields(table, list[..i + 1]) == if list[i].value == Leaf(Null) then RenameFields(table, list[..i])
      else RenameFields(table, list[..i])[Abbrev(table, list[i].key) := RenameWalk(table, list[i].value)]
  {
    assert list[..i + 1][..i] == list[..i];
    hide RenameWalk;
  }

  lemma RenameNone(table: map<string, string>)
    ensures RenameFields(table, []) == map[]
  {
  }

  lemma RenameObject(table: map<string, string>, o: Walk)
    requires o.Members?
    ensures var r := RenameFields(table, o.list); RenameWalk(table, o) == if |r| > 0 then Obj(r) else Plain(o)
  {
    hide RenameFields, Plain;
  }

  /** `ReplaceKeys` on a map that `range` visits in the order of its list. */
  method ReplaceKeys(table: map<string, string>, data: Walk) returns (res: Fields)
    requires data.Members?
    ensures res == RenameFields(table, data.list)
    decreases data, 0
  {
    res := map[];
    RenameNone(table);
    assert data.list[..0] == [];
    hide RenameFields, RenameWalk, Plain;
    for i := 0 to |data.list|
      invariant res == RenameFields(table, data.list[..i])
    {
      RenameNext(table, data.list, i);
      var k1, v := data.list[i].key, data.list[i].value;
      if v == Leaf(Null) {
        continue;
      }
      var w := ReplaceValue(table, v);
      if k1 in table {
        res := res[table[k1] := w];
      } else {
        res := res[k1 := w];
      }
    }
    assert data.list[..|data.list|] == data.list;
  }

  /** The `switch` on a member's type. */
  method ReplaceValue(table: map<string, string>, v: Walk) returns (w: Json)
    ensures w == RenameWalk(table, v)
    decreases v, 1
  {
    match v {
      case Members(list) =>
        var vi := ReplaceKeys(table, v);
        RenameObject(table, v);
        w := if |vi| > 0 then Obj(vi) else Plain(v);
      case List(items) =>
        w := ReplaceItems(table, v);
      case Leaf(value) =>
        w := value;
    }
  }

  /** The `[]interface{}` case: object elements are replaced in their places. */
  method ReplaceItems(table: map<string, string>, v: Walk) returns (w: Json)
    requires v.List?
    ensures w == RenameWalk(table, v)
    decreases v, 0
  {
    var datai := Plain(v).items;
    hide RenameFields;
    for i := 0 to |v.items|
      invariant |datai| == |v.items|
      invariant forall j :: 0 <= j < i ==> datai[j] == RenameWalk(table, v).items[j]
      invariant forall j :: i <= j < |datai| ==> datai[j] == Plain(v.items[j])
    {
      if v.items[i].Members? {
        var viii := ReplaceKeys(table, v.items[i]);
        RenameObject(table, v.items[i]);
        if |viii| > 0 {
          datai := datai[i := Obj(viii)];
        }
      }
    }
    w := Arr(datai);
    assert w.items == RenameWalk(table, v).items;
  }
}
