/**
 What the code relies on of a bbolt bucket: entries in ascending byte order of their keys,
 single-key reads and writes, and a cursor.
 */
module Buckets {
  import opened MachineInts
  import opened Options

  type Key = seq<byte>

  datatype Entry = Entry(key: Key, data: seq<byte>)

  /** `bytes.Compare(a, b) < 0` */
  predicate Less(a: Key, b: Key) {
    if b == [] then false
    else if a == [] then true
    else a[0] < b[0] || (a[0] == b[0] && Less(a[1..], b[1..]))
  }

  /** The contents of a bucket: strictly ascending keys. */
  ghost predicate Sorted(b: seq<Entry>) {
    forall i, j :: 0 <= i < j < |b| ==> Less(b[i].key, b[j].key)
  }

  function Get(b: seq<Entry>, k: Key): Option<seq<byte>> {
    if b == [] then None
    else if b[0].key == k then Some(b[0].data)
    else Get(b[1..], k)
  }

  function Put(b: seq<Entry>, k: Key, v: seq<byte>): seq<Entry> {
    if b == [] then [Entry(k, v)]
    else if b[0].key == k then [Entry(k, v)] + b[1..]
    else if Less(k, b[0].key) then [Entry(k, v)] + b
    else [b[0]] + Put(b[1..], k, v)
  }

  function Delete(b: seq<Entry>, k: Key): seq<Entry> {
    if b == [] then []
    else if b[0].key == k then b[1..]
    else [b[0]] + Delete(b[1..], k)
  }

  // ---------- the order ----------

  lemma {:induction false} LessIrreflexive(a: Key)
    ensures !Less(a, a)
  {
    if a != [] {
      LessIrreflexive(a[1..]);
    }
  }

  lemma {:induction false} LessTransitive(a: Key, b: Key, c: Key)
    requires Less(a, b) && Less(b, c)
    ensures Less(a, c)
  {
    if a != [] && a[0] == b[0] == c[0] {
      LessTransitive(a[1..], b[1..], c[1..]);
    }
  }

  lemma {:induction false} LessTotal(a: Key, b: Key)
    ensures Less(a, b) || a == b || Less(b, a)
  {
    if a != [] && b != [] && a[0] == b[0] {
      LessTotal(a[1..], b[1..]);
      assert a == [a[0]] + a[1..] && b == [b[0]] + b[1..];
    }
  }

  /** A prefix comes before everything it is a proper prefix of. */
  lemma {:induction false} PrefixNotAbove(p: Key, k: Key)
    requires p <= k
    ensures !Less(k, p)
  {
    if p != [] {
      assert p[1..] <= k[1..];
      PrefixNotAbove(p[1..], k[1..]);
    }
  }

  /** The keys with a given prefix lie side by side. */
  lemma {:induction false} PrefixConvex(p: Key, a: Key, b: Key, c: Key)
    requires p <= a && p <= c && !Less(b, a) && !Less(c, b)
    ensures p <= b
  {
    if p != [] {
      assert p[1..] <= a[1..] && p[1..] <= c[1..];
      assert b != [] && b[0] == p[0];
      PrefixConvex(p[1..], a[1..], b[1..], c[1..]);
      assert p == [p[0]] + p[1..] && b == [b[0]] + b[1..];
    }
  }

  lemma LessAsymmetric(a: Key, b: Key)
    requires Less(a, b)
    ensures !Less(b, a)
  {
    if Less(b, a) {
      LessTransitive(a, b, a);
      LessIrreflexive(a);
    }
  }

  // ---------- reads after writes ----------

  lemma SortedCons(e: Entry, b: seq<Entry>)
    requires Sorted(b) && (forall f :: f in b ==> Less(e.key, f.key))
    ensures Sorted([e] + b)
  {
  }

  lemma {:induction false} PutMembers(b: seq<Entry>, k: Key, v: seq<byte>, e: Entry)
    requires e in Put(b, k, v)
    ensures e == Entry(k, v) || e in b
  {
    if b != [] && b[0].key != k && !Less(k, b[0].key) {
      if e != b[0] {
        PutMembers(b[1..], k, v, e);
      }
    }
  }

  lemma {:induction false} DeleteMembers(b: seq<Entry>, k: Key, e: Entry)
    requires e in Delete(b, k)
    ensures e in b
  {
    if b != [] && b[0].key != k && e != b[0] {
      DeleteMembers(b[1..], k, e);
    }
  }

  lemma {:induction false} PutSorted(b: seq<Entry>, k: Key, v: seq<byte>)
    requires Sorted(b)
    ensures Sorted(Put(b, k, v))
  {
    if b == [] {
    } else if b[0].key == k {
    } else if Less(k, b[0].key) {
      forall f | f in b ensures Less(k, f.key) {
        if f != b[0] {
          LessTransitive(k, b[0].key, f.key);
        }
      }
      SortedCons(Entry(k, v), b);
    } else {
      LessTotal(k, b[0].key);
      PutSorted(b[1..], k, v);
      forall f | f in Put(b[1..], k, v) ensures Less(b[0].key, f.key) {
        PutMembers(b[1..], k, v, f);
      }
      SortedCons(b[0], Put(b[1..], k, v));
    }
  }

  lemma {:induction false} DeleteSorted(b: seq<Entry>, k: Key)
    requires Sorted(b)
    ensures Sorted(Delete(b, k))
  {
    if b != [] && b[0].key != k {
      DeleteSorted(b[1..], k);
      forall f | f in Delete(b[1..], k) ensures Less(b[0].key, f.key) {
        DeleteMembers(b[1..], k, f);
      }
      SortedCons(b[0], Delete(b[1..], k));
    }
  }

  /** A read after a write sees the written key and leaves the others alone. */
  lemma {:induction false} GetPut(b: seq<Entry>, k: Key, v: seq<byte>, q: Key)
    ensures Get(Put(b, k, v), q) == if q == k then Some(v) else Get(b, q)
  {
    if b != [] && b[0].key != k && !Less(k, b[0].key) {
      GetPut(b[1..], k, v, q);
    }
  }

  lemma {:induction false} AbsentAbove(b: seq<Entry>, k: Key)
    requires Sorted(b) && (b != [] ==> Less(k, b[0].key))
    ensures Get(b, k) == None
  {
    if b != [] {
      LessIrreflexive(k);
      if |b| > 1 {
        LessTransitive(k, b[0].key, b[1].key);
      }
      AbsentAbove(b[1..], k);
    }
  }

  /** A read after a delete misses the deleted key and no other. */
  lemma {:induction false} GetDelete(b: seq<Entry>, k: Key, q: Key)
    requires Sorted(b)
    ensures Get(Delete(b, k), q) == if q == k then None else Get(b, q)
  {
    if b != [] {
      if b[0].key == k {
        AbsentAbove(b[1..], k);
      } else {
        GetDelete(b[1..], k, q);
      }
    }
  }

  lemma {:induction false} GetMember(b: seq<Entry>, e: Entry)
    requires Sorted(b) && e in b
    ensures Get(b, e.key) == Some(e.data)
  {
    if b[0] != e {
      LessIrreflexive(e.key);
      GetMember(b[1..], e);
    }
  }

  // ---------- the cursor ----------

  /** The index of the first key that is not below p. */
  function SeekIndex(b: seq<Entry>, p: Key): (i: nat)
    ensures i <= |b|
  {
    if b == [] || !Less(b[0].key, p) then 0 else 1 + SeekIndex(b[1..], p)
  }

  lemma {:induction false} SeekSplits(b: seq<Entry>, p: Key)
    requires Sorted(b)
    ensures forall j :: 0 <= j < SeekIndex(b, p) ==> Less(b[j].key, p)
    ensures forall j :: SeekIndex(b, p) <= j < |b| ==> !Less(b[j].key, p)
  {
    if b != [] {
      if Less(b[0].key, p) {
        SeekSplits(b[1..], p);
        assert forall j :: 0 < j < |b| ==> b[j] == b[1..][j - 1];
      } else {
        forall j | 0 <= j < |b| ensures !Less(b[j].key, p) {
          if j > 0 && Less(b[j].key, p) {
            LessTransitive(b[0].key, b[j].key, p);
          }
        }
      }
    }
  }

  /** The place a seek ends at is unique. */
  lemma {:induction false} SeekIsUnique(b: seq<Entry>, p: Key, i: nat)
    requires i <= |b|
    requires forall j :: 0 <= j < i ==> Less(b[j].key, p)
    requires forall j :: i <= j < |b| ==> !Less(b[j].key, p)
    ensures i == SeekIndex(b, p)
  {
    if i > 0 {
      assert Less(b[0].key, p);
      assert forall j :: 0 <= j < |b| - 1 ==> b[1..][j] == b[j + 1];
      SeekIsUnique(b[1..], p, i - 1);
    }
  }

  /** A bbolt cursor: a position in a fixed view of the bucket, with nil keys off either end. */
  class Cursor {
    const bucket: seq<Entry>
    var pos: int

    constructor (b: seq<Entry>)
      ensures bucket == b
    {
      bucket := b;
      pos := -1;
    }

    /** The entry under the cursor, `None` for a nil key. */
    function Current(): Option<Entry>
      reads this
    {
      if 0 <= pos < |bucket| then Some(bucket[pos]) else None
    }

    method First() returns (e: Option<Entry>)
      modifies this
      ensures pos == 0 && e == Current()
    {
      pos := 0;
      e := Current();
    }

    method Last() returns (e: Option<Entry>)
      modifies this
      ensures pos == |bucket| - 1 && e == Current()
    {
      pos := |bucket| - 1;
      e := Current();
    }

    method Next() returns (e: Option<Entry>)
      modifies this
      ensures pos == old(pos) + 1 && e == Current()
    {
      pos := pos + 1;
      e := Current();
    }

    method Prev() returns (e: Option<Entry>)
      modifies this
      ensures pos == old(pos) - 1 && e == Current()
    {
      pos := pos - 1;
      e := Current();
    }

    /** Moves to the first key that is not below p. */
    method Seek(p: Key) returns (e: Option<Entry>)
      requires Sorted(bucket)
      modifies this
      ensures 0 <= pos <= |bucket| && e == Current()
      ensures forall j :: 0 <= j < pos ==> Less(bucket[j].key, p)
      ensures forall j :: pos <= j < |bucket| ==> !Less(bucket[j].key, p)
    {
      SeekSplits(bucket, p);
      pos := SeekIndex(bucket, p);
      e := Current();
    }
  }
}
