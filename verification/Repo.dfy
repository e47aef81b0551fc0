/** The transactions of internal/database/repo.go: writes, deletes and the cursor scans. */
module Repo {
  import opened MachineInts
  import opened Options
  import opened Buckets

  // ---------- reads and writes of a collection ----------

  /** The collections of one database: a bucket under each name. */
  type Store = map<string, seq<Entry>>

  ghost predicate StoreSorted(st: Store) {
    forall c :: c in st ==> Sorted(st[c])
  }

  function BucketOf(st: Store, collection: string): seq<Entry> {
    if collection in st then st[collection] else []
  }

  function Lookup(st: Store, collection: string, id: Key): Option<seq<byte>> {
    Get(BucketOf(st, collection), id)
  }

  function Write(st: Store, collection: string, id: Key, data: seq<byte>): Store {
    st[collection := Put(BucketOf(st, collection), id, data)]
  }

  function Erase(st: Store, collection: string, id: Key): Store {
    if collection in st then st[collection := Delete(st[collection], id)] else st
  }

  lemma LookupWrite(st: Store, collection: string, id: Key, data: seq<byte>, c: string, q: Key)
    ensures Lookup(Write(st, collection, id, data), c, q)
         == if c == collection && q == id then Some(data) else Lookup(st, c, q)
  {
    GetPut(BucketOf(st, collection), id, data, q);
  }

  lemma LookupErase(st: Store, collection: string, id: Key, c: string, q: Key)
    requires StoreSorted(st)
    ensures Lookup(Erase(st, collection, id), c, q)
         == if c == collection && q == id then None else Lookup(st, c, q)
  {
    if collection in st {
      GetDelete(st[collection], id, q);
    }
  }

  lemma WriteSorted(st: Store, collection: string, id: Key, data: seq<byte>)
    requires StoreSorted(st)
    ensures StoreSorted(Write(st, collection, id, data))
  {
    PutSorted(BucketOf(st, collection), id, data);
  }

  lemma EraseSorted(st: Store, collection: string, id: Key)
    requires StoreSorted(st)
    ensures StoreSorted(Erase(st, collection, id))
  {
    if collection in st {
      DeleteSorted(st[collection], id);
    }
  }

  datatype TxError = BucketNameRequired | DataUpdateNotAllowed | BucketNotFound | DatabaseNotOpen
    | DatabaseOpen | DatabaseReadOnly | TxNotWritable | OtherFault

  /** The database file as the transactions see it; a transaction that fails changes nothing. */
  class Database {
    var contents: Store

    constructor ()
      ensures contents == map[]
    {
      contents := map[];
    }

    /**
     `PersistData` inside `db.Update`. `uid` is the identifier generated for an empty one, `fault` an
     error of the file or of the transaction machinery.
     */
    method PersistData(id: Key, data: seq<byte>, collection: string, update: bool, uid: Key, fault: Option<TxError>)
      returns (err: Option<TxError>)
      requires StoreSorted(contents)
      modifies this
      ensures StoreSorted(contents)
      ensures err == None ==> contents == Write(old(contents), collection, if id == [] then uid else id, data)
      ensures err != None ==> contents == old(contents)
      ensures err == None <==>
        (&& fault == None && collection != ""
         && (update || old(Lookup(contents, collection, if id == [] then uid else id)) == None))
      ensures err != None ==>
        err == if fault != None then fault else Some(if collection == "" then BucketNameRequired else DataUpdateNotAllowed)
    {
      if fault != None {
        return fault;
      }
      if collection == "" {
        return Some(BucketNameRequired);
      }
      var bkcll := BucketOf(contents, collection);
      var key := if id == [] then uid else id;
      if !update {
        if Get(bkcll, key) != None {
          return Some(DataUpdateNotAllowed);
        }
      }
      WriteSorted(contents, collection, key, data);
      contents := contents[collection := Put(bkcll, key, data)];
      return None;
    }

    /** `RemoveData` inside `db.Update`: a missing key is no error, a missing collection is. */
    method RemoveData(id: Key, collection: string, fault: Option<TxError>) returns (err: Option<TxError>)
      requires StoreSorted(contents)
      modifies this
      ensures StoreSorted(contents)
      ensures contents == if err == None then Erase(old(contents), collection, id) else old(contents)
      ensures fault != None ==> err == fault
      ensures fault == None ==> err == if collection in old(contents) then None else Some(BucketNotFound)
    {
      if fault != None {
        return fault;
      }
      if collection !in contents {
        return Some(BucketNotFound);
      }
      EraseSorted(contents, collection, id);
      contents := contents[collection := Delete(contents[collection], id)];
      return None;
    }
  }

  // ---------- what a scan should yield ----------

  /** The entries whose key has prefix p, in bucket order. */
  function WithPrefix(b: seq<Entry>, p: Key): seq<Entry> {
    if b == [] then []
    else if p <= b[0].key then [b[0]] + WithPrefix(b[1..], p)
    else WithPrefix(b[1..], p)
  }

  function Reversed<T>(s: seq<T>): seq<T> {
    if s == [] then [] else Reversed(s[1..]) + [s[0]]
  }

  function Keys(b: seq<Entry>): seq<Key> {
    if b == [] then [] else [b[0].key] + Keys(b[1..])
  }

  /** What the four scan loops yield: the reverse prefixed one only works off the end of the bucket. */
  function Scan(b: seq<Entry>, p: Key, reverse: bool): seq<Entry> {
    if !reverse then WithPrefix(b, p)
    else if b != [] && p <= b[|b| - 1].key then Reversed(WithPrefix(b, p))
    else []
  }

  lemma {:induction false} WithPrefixConcat(a: seq<Entry>, b: seq<Entry>, p: Key)
    ensures WithPrefix(a + b, p) == WithPrefix(a, p) + WithPrefix(b, p)
  {
    if a == [] {
      assert a + b == b;
    } else {
      assert (a + b)[1..] == a[1..] + b;
      WithPrefixConcat(a[1..], b, p);
    }
  }

  lemma {:induction false} WithPrefixAll(b: seq<Entry>, p: Key)
    requires forall e :: e in b ==> p <= e.key
    ensures WithPrefix(b, p) == b
  {
    if b != [] {
      WithPrefixAll(b[1..], p);
    }
  }

  lemma {:induction false} WithPrefixNone(b: seq<Entry>, p: Key)
    requires forall e :: e in b ==> !(p <= e.key)
    ensures WithPrefix(b, p) == []
  {
    if b != [] {
      WithPrefixNone(b[1..], p);
    }
  }

  /** The prefix block b[lo..hi] is the filter when the keys on both sides lack the prefix. */
  lemma BlockIsFilter(b: seq<Entry>, p: Key, lo: nat, hi: nat)
    requires lo <= hi <= |b|
    requires forall i :: 0 <= i < lo ==> !(p <= b[i].key)
    requires forall i :: lo <= i < hi ==> p <= b[i].key
    requires forall i :: hi <= i < |b| ==> !(p <= b[i].key)
    ensures WithPrefix(b, p) == b[lo..hi]
  {
    hide WithPrefix;
    var x, y, z := b[..lo], b[lo..hi], b[hi..];
    assert b == x + y + z;
    WithPrefixNone(x, p);
    WithPrefixAll(y, p);
    WithPrefixNone(z, p);
    WithPrefixConcat(x + y, z, p);
    WithPrefixConcat(x, y, p);
  }

  /** No key below the seek position has the prefix. */
  lemma BelowSeek(b: seq<Entry>, p: Key)
    requires Sorted(b)
    ensures forall i :: 0 <= i < SeekIndex(b, p) ==> !(p <= b[i].key)
  {
    SeekSplits(b, p);
    forall i | 0 <= i < SeekIndex(b, p) ensures !(p <= b[i].key) {
      if p <= b[i].key {
        PrefixNotAbove(p, b[i].key);
      }
    }
  }

  /** Past the seek position the block ends at the first key without the prefix. */
  lemma PastBlock(b: seq<Entry>, p: Key, hi: nat)
    requires Sorted(b) && SeekIndex(b, p) <= hi < |b| && !(p <= b[hi].key)
    ensures forall i :: hi <= i < |b| ==> !(p <= b[i].key)
  {
    SeekSplits(b, p);
    forall i | hi <= i < |b| ensures !(p <= b[i].key) {
      if p <= b[i].key {
        LessAsymmetric(b[hi].key, b[i].key);
        PrefixConvex(p, p, b[hi].key, b[i].key);
      }
    }
  }

  /** Walking back from an end that has the prefix, the block begins after the first key without it. */
  lemma BeforeBlock(b: seq<Entry>, p: Key, lo: nat)
    requires Sorted(b) && lo < |b| && !(p <= b[lo].key) && p <= b[|b| - 1].key
    ensures forall i :: 0 <= i <= lo ==> !(p <= b[i].key)
  {
    forall i | 0 <= i <= lo ensures !(p <= b[i].key) {
      if p <= b[i].key {
        LessAsymmetric(b[i].key, b[lo].key);
        LessAsymmetric(b[lo].key, b[|b| - 1].key);
        PrefixConvex(p, b[i].key, b[lo].key, b[|b| - 1].key);
      }
    }
  }

  lemma {:induction false} ReversedLength<T>(s: seq<T>)
    ensures |Reversed(s)| == |s|
  {
    if s != [] {
      ReversedLength(s[1..]);
    }
  }

  /** An empty prefix filters nothing. */
  lemma EmptyPrefix(b: seq<Entry>, reverse: bool)
    ensures Scan(b, [], reverse) == if reverse then Reversed(b) else b
  {
    WithPrefixAll(b, []);
  }

  lemma WithPrefixHas(b: seq<Entry>, p: Key, i: nat)
    requires i < |b| && p <= b[i].key
    ensures WithPrefix(b, p) != []
  {
    assert b == b[..i] + ([b[i]] + b[i + 1..]);
    WithPrefixConcat(b[..i], [b[i]] + b[i + 1..], p);
  }

  /**
   The reverse prefixed scan is the reversed filter exactly when the prefix block is empty or
   ends the bucket: it starts at the last key of the bucket, not at the last key of the block.
   */
  lemma ReverseScanComplete(b: seq<Entry>, p: Key)
    ensures Scan(b, p, true) == Reversed(WithPrefix(b, p))
       <==> (b == [] || p <= b[|b| - 1].key || forall e :: e in b ==> !(p <= e.key))
  {
    if b != [] && !(p <= b[|b| - 1].key) {
      ReversedLength(WithPrefix(b, p));
      if forall e :: e in b ==> !(p <= e.key) {
        WithPrefixNone(b, p);
      } else {
        var i :| 0 <= i < |b| && p <= b[i].key;
        WithPrefixHas(b, p, i);
      }
      hide WithPrefix, Reversed;
    } else {
      hide WithPrefix, Reversed;
    }
  }

  /** A bucket on which the reverse prefixed scan misses a matching key. */
  lemma ReverseScanMisses()
    ensures var b := [Entry([1], []), Entry([2], [])];
      Sorted(b) && WithPrefix(b, [1]) == [b[0]] && Scan(b, [1], true) == []
  {
    var b := [Entry([1], []), Entry([2], [])];
    var p: Key := [1];
    assert b[1].key[0] != p[0];
    assert b[1..] == [b[1]];
    WithPrefixNone(b[1..], p);
  }

  /** A forward scan holds exactly the entries with the prefix, in ascending order. */
  lemma {:induction false} FilterExactly(b: seq<Entry>, p: Key)
    requires Sorted(b)
    ensures Sorted(Scan(b, p, false))
    ensures forall e :: e in Scan(b, p, false) <==> e in b && p <= e.key
  {
    if b != [] {
      var r := WithPrefix(b[1..], p);
      FilterExactly(b[1..], p);
      assert forall e :: e in b <==> e == b[0] || e in b[1..];
      assert forall e :: e in b[1..] ==> Less(b[0].key, e.key);
      assert Sorted([b[0]] + r) by { SortedCons(b[0], r); }
    }
  }

  lemma {:induction false} KeysAt(b: seq<Entry>, i: nat)
    requires i < |b|
    ensures |Keys(b)| == |b| && Keys(b)[i] == b[i].key
  {
    if i > 0 {
      KeysAt(b[1..], i - 1);
    } else if |b| > 1 {
      KeysAt(b[1..], 0);
    }
  }

  // ---------- the block a cursor walks ----------

  /** From lo on the keys have the prefix, up to hi. */
  ghost predicate IsBlock(b: seq<Entry>, p: Key, lo: nat, hi: nat) {
    && lo <= hi <= |b| && (forall i :: lo <= i < hi ==> p <= b[i].key)
    && (hi < |b| ==> !(p <= b[hi].key))
  }

  /** From the end back to lo the keys have the prefix. */
  ghost predicate IsEndBlock(b: seq<Entry>, p: Key, lo: nat) {
    && lo <= |b| && (forall i :: lo <= i < |b| ==> p <= b[i].key)
    && (lo > 0 ==> !(p <= b[lo - 1].key))
  }

  /** A cursor that started at lo goes on exactly up to hi. */
  lemma BlockGoesOn(b: seq<Entry>, p: Key, lo: nat, hi: nat, pos: nat)
    requires IsBlock(b, p, lo, hi) && lo <= pos <= hi
    ensures lo <= hi <= |b|
    ensures (pos < |b| && p <= b[pos].key) <==> pos < hi
    ensures pos < hi ==> b[lo..hi][pos - lo] == b[pos]
  {
  }

  lemma EndBlockGoesOn(b: seq<Entry>, p: Key, lo: nat, pos: int)
    requires IsEndBlock(b, p, lo) && lo - 1 <= pos < |b|
    ensures lo <= |b|
    ensures (pos >= 0 && p <= b[pos].key) <==> pos >= lo
  {
  }

  /** Where the forward prefixed loop stops. */
  lemma ForwardBlock(b: seq<Entry>, p: Key) returns (hi: nat)
    requires Sorted(b)
    ensures SeekIndex(b, p) <= hi <= |b| && WithPrefix(b, p) == b[SeekIndex(b, p)..hi]
    ensures IsBlock(b, p, SeekIndex(b, p), hi)
  {
    hi := SeekIndex(b, p);
    while hi < |b| && p <= b[hi].key
      invariant SeekIndex(b, p) <= hi <= |b|
      invariant forall i :: SeekIndex(b, p) <= i < hi ==> p <= b[i].key
    {
      hi := hi + 1;
    }
    BelowSeek(b, p);
    if hi < |b| {
      PastBlock(b, p, hi);
    }
    BlockIsFilter(b, p, SeekIndex(b, p), hi);
  }

  /** Where the reverse prefixed loop stops. */
  lemma ReverseBlock(b: seq<Entry>, p: Key) returns (lo: nat)
    requires Sorted(b)
    ensures lo <= |b| && Scan(b, p, true) == Reversed(b[lo..]) && IsEndBlock(b, p, lo)
  {
    lo := |b|;
    while lo > 0 && p <= b[lo - 1].key
      invariant lo <= |b|
      invariant forall i :: lo <= i < |b| ==> p <= b[i].key
    {
      lo := lo - 1;
    }
    if lo < |b| {
      if lo > 0 {
        BeforeBlock(b, p, lo - 1);
      }
      BlockIsFilter(b, p, lo, |b|);
      assert b[lo..|b|] == b[lo..];
    } else {
      assert b[lo..] == [];
    }
  }

  lemma {:induction false} ReversedAt(s: seq<Entry>, k: nat)
    requires k < |s|
    ensures |Reversed(s)| == |s| && Reversed(s)[k] == s[|s| - 1 - k]
  {
    ReversedLength(s[1..]);
    if k < |s| - 1 {
      ReversedAt(s[1..], k);
    }
  }

  /** The k-th entry the reverse loop meets. */
  lemma ReverseStep(b: seq<Entry>, lo: nat, k: nat)
    requires lo + k < |b|
    ensures |Reversed(b[lo..])| == |b| - lo && Reversed(b[lo..])[k] == b[|b| - 1 - k]
  {
    ReversedAt(b[lo..], k);
  }

  // ---------- SearchCollections ----------

  lemma KeysTake(scan: seq<Entry>, n: nat)
    requires n < |scan|
    ensures Keys(scan[..n + 1]) == Keys(scan[..n]) + [scan[n].key]
  {
    assert scan[..n + 1] == scan[..n] + [scan[n]];
    KeysAppend(scan[..n], scan[n]);
  }

  lemma {:induction false} KeysAppend(b: seq<Entry>, e: Entry)
    ensures Keys(b + [e]) == Keys(b) + [e.key]
  {
    if b == [] {
      assert b + [e] == [e];
    } else {
      assert (b + [e])[1..] == b[1..] + [e];
      KeysAppend(b[1..], e);
    }
  }

  /** `SearchCollections`: the keys of a database bucket, by prefix and direction; none without a bucket. */
  method SearchCollections(database: Option<seq<Entry>>, prefixID: Key, reverse: bool) returns (data: seq<Key>)
    requires database.Some? ==> Sorted(database.value)
    ensures data == if database.None? then [] else Keys(Scan(database.value, prefixID, reverse))
  {
    if database.None? {
      return [];
    }
    var b := database.value;
    if reverse {
      data := SearchBackward(b, prefixID);
    } else {
      data := SearchForward(b, prefixID);
    }
  }

  method SearchForward(b: seq<Entry>, prefixID: Key) returns (data: seq<Key>)
    requires Sorted(b)
    ensures data == Keys(Scan(b, prefixID, false))
  {
    var c := new Cursor(b);
    if |prefixID| > 0 {
      var k := c.Seek(prefixID);
      SeekIsUnique(b, prefixID, c.pos);
      ghost var hi := ForwardBlock(b, prefixID);
      data := KeysForward(c, k, prefixID, hi);
    } else {
      EmptyPrefix(b, false);
      var k := c.First();
      assert b[0..|b|] == b;
      data := KeysForward(c, k, prefixID, |b|);
    }
  }

  /** `for ; k != nil && bytes.HasPrefix(k, prefixID); k, _ = c.Next()` */
  method KeysForward(c: Cursor, first: Option<Entry>, prefixID: Key, ghost hi: nat) returns (data: seq<Key>)
    requires 0 <= c.pos <= hi <= |c.bucket| && first == c.Current() && IsBlock(c.bucket, prefixID, c.pos, hi)
    modifies c
    ensures data == Keys(c.bucket[old(c.pos)..hi])
  {
    data := [];
    var k := first;
    ghost var lo, b := c.pos, c.bucket;
    ghost var scan := b[lo..hi];
    hide IsBlock;
    BlockGoesOn(b, prefixID, lo, hi, c.pos);
    while k.Some? && prefixID <= k.value.key
      invariant lo <= c.pos <= hi && k == c.Current()
      invariant k.Some? && prefixID <= k.value.key <==> c.pos < hi
      invariant data == Keys(scan[..c.pos - lo])
      decreases |c.bucket| - c.pos
    {
      BlockGoesOn(b, prefixID, lo, hi, c.pos);
      KeysTake(scan, c.pos - lo);
      data := data + [k.value.key];
      k := c.Next();
      BlockGoesOn(b, prefixID, lo, hi, c.pos);
    }
    assert scan[..c.pos - lo] == scan;
  }

  method SearchBackward(b: seq<Entry>, prefixID: Key) returns (data: seq<Key>)
    requires Sorted(b)
    ensures data == Keys(Scan(b, prefixID, true))
  {
    var c := new Cursor(b);
    if |prefixID| > 0 {
      var _ := c.Seek(prefixID);
    }
    var k := c.Last();
    ghost var lo := ReverseBlock(b, prefixID);
    data := KeysBackward(c, k, prefixID, lo);
  }

  /** `for ; k != nil && bytes.HasPrefix(k, prefixID); k, _ = c.Prev()` */
  method KeysBackward(c: Cursor, last: Option<Entry>, prefixID: Key, ghost lo: nat) returns (data: seq<Key>)
    requires c.pos == |c.bucket| - 1 && lo <= |c.bucket| && last == c.Current() && IsEndBlock(c.bucket, prefixID, lo)
    modifies c
    ensures data == Keys(Reversed(c.bucket[lo..]))
  {
    data := [];
    var k := last;
    ghost var b, n := c.bucket, 0;
    ghost var scan := Reversed(b[lo..]);
    ReversedLength(b[lo..]);
    hide Reversed, IsEndBlock;
    EndBlockGoesOn(b, prefixID, lo, c.pos);
    while k.Some? && prefixID <= k.value.key
      invariant n <= |b| - lo && c.pos == |b| - 1 - n && k == c.Current()
      invariant k.Some? && prefixID <= k.value.key <==> n < |b| - lo
      invariant data == Keys(scan[..n])
      decreases c.pos
    {
      ReverseStep(b, lo, n);
      KeysTake(scan, n);
      data := data + [k.value.key];
      k := c.Prev();
      n := n + 1;
      EndBlockGoesOn(b, prefixID, lo, c.pos);
    }
    assert scan[..n] == scan;
  }

  // ---------- QueryData ----------

  /** What the `select` of one turn does: hand the entry over, give up on it, or see `stop` closed. */
  datatype Choice = Push | GiveUp | Stopped

  /** The entries handed over when the turns from number n on choose as told. */
  function Offered(scan: seq<Entry>, choose: nat -> Choice, n: nat): seq<Entry> {
    if scan == [] then []
    else match choose(n)
      case Push => [scan[0]] + Offered(scan[1..], choose, n + 1)
      case GiveUp => Offered(scan[1..], choose, n + 1)
      case Stopped => []
  }

  /** An order-preserving selection of s. */
  ghost predicate Subsequence(t: seq<Entry>, s: seq<Entry>)
    decreases |s|
  {
    if t == [] then true
    else if s == [] then false
    else (t[0] == s[0] && Subsequence(t[1..], s[1..])) || Subsequence(t, s[1..])
  }

  /** Whatever times out or stops, what is offered keeps the order of the bucket. */
  lemma {:induction false} OfferedInOrder(scan: seq<Entry>, choose: nat -> Choice, n: nat)
    ensures Subsequence(Offered(scan, choose, n), scan)
    decreases |scan|
  {
    if scan != [] {
      OfferedInOrder(scan[1..], choose, n + 1);
      match choose(n) {
        case Push =>
          assert Offered(scan, choose, n)[1..] == Offered(scan[1..], choose, n + 1);
        case GiveUp =>
        case Stopped =>
      }
    }
  }

  /** With no timeout and no stop the whole scan is offered. */
  lemma {:induction false} OfferedAll(scan: seq<Entry>, choose: nat -> Choice, n: nat)
    requires forall i :: n <= i < n + |scan| ==> choose(i) == Push
    ensures Offered(scan, choose, n) == scan
    decreases |scan|
  {
    if scan != [] {
      OfferedAll(scan[1..], choose, n + 1);
    }
  }

  /** The entries handed over are those whose own turn hands over, with no stop before it. */
  lemma {:induction false} OfferedExactly(scan: seq<Entry>, choose: nat -> Choice, n: nat, i: nat)
    requires i < |scan| && forall j, k :: 0 <= j < k < |scan| ==> scan[j] != scan[k]
    ensures scan[i] in Offered(scan, choose, n)
      <==> (choose(n + i) == Push && forall j :: n <= j < n + i ==> choose(j) != Stopped)
    decreases |scan|
  {
    var rest := scan[1..];
    if i == 0 {
      OfferedWithin(rest, choose, n + 1);
    } else {
      OfferedExactly(rest, choose, n + 1, i - 1);
      assert rest[i - 1] == scan[i] && scan[0] != scan[i];
    }
  }

  lemma {:induction false} OfferedWithin(scan: seq<Entry>, choose: nat -> Choice, n: nat)
    ensures forall e :: e in Offered(scan, choose, n) ==> e in scan
    decreases |scan|
  {
    if scan != [] {
      OfferedWithin(scan[1..], choose, n + 1);
    }
  }

  lemma OfferedStep(scan: seq<Entry>, choose: nat -> Choice, n: nat)
    requires n < |scan|
    ensures Offered(scan[n..], choose, n) == match choose(n)
      case Push => [scan[n]] + Offered(scan[n + 1..], choose, n + 1)
      case GiveUp => Offered(scan[n + 1..], choose, n + 1)
      case Stopped => []
  {
    assert scan[n..][1..] == scan[n + 1..];
  }

  /** `QueryData`: sends the scanned entries down the channel; nothing without the collection. */
  method QueryData(collection: Option<seq<Entry>>, prefixID: Key, reverse: bool, choose: nat -> Choice)
    returns (data: seq<Entry>)
    requires collection.Some? ==> Sorted(collection.value)
    ensures data == if collection.None? then [] else Offered(Scan(collection.value, prefixID, reverse), choose, 0)
  {
    if collection.None? {
      return [];
    }
    if reverse {
      data := QueryBackward(collection.value, prefixID, choose);
    } else {
      data := QueryForward(collection.value, prefixID, choose);
    }
  }

  method QueryForward(b: seq<Entry>, prefixID: Key, choose: nat -> Choice) returns (data: seq<Entry>)
    requires Sorted(b)
    ensures data == Offered(Scan(b, prefixID, false), choose, 0)
  {
    var c := new Cursor(b);
    if |prefixID| > 0 {
      var k := c.Seek(prefixID);
      SeekIsUnique(b, prefixID, c.pos);
      ghost var hi := ForwardBlock(b, prefixID);
      data := PushForward(c, k, prefixID, choose, hi);
    } else {
      EmptyPrefix(b, false);
      var k := c.First();
      assert b[0..|b|] == b;
      data := PushForward(c, k, prefixID, choose, |b|);
    }
  }

  /** What was handed over, with what the rest of the scan still offers, makes the goal. */
  ghost predicate Pending(goal: seq<Entry>, data: seq<Entry>, scan: seq<Entry>, choose: nat -> Choice, n: nat)
    requires n <= |scan|
  {
    data + Offered(scan[n..], choose, n) == goal
  }

  lemma PendingStarts(scan: seq<Entry>, choose: nat -> Choice)
    ensures Pending(Offered(scan, choose, 0), [], scan, choose, 0)
  {
    hide Offered;
    assert scan[0..] == scan;
  }

  lemma PendingEnds(goal: seq<Entry>, data: seq<Entry>, scan: seq<Entry>, choose: nat -> Choice)
    requires Pending(goal, data, scan, choose, |scan|)
    ensures data == goal
  {
    assert scan[|scan|..] == [];
  }

  method PushForward(c: Cursor, first: Option<Entry>, prefixID: Key, choose: nat -> Choice, ghost hi: nat)
    returns (data: seq<Entry>)
    requires 0 <= c.pos <= hi <= |c.bucket| && first == c.Current() && IsBlock(c.bucket, prefixID, c.pos, hi)
    modifies c
    ensures data == Offered(c.bucket[old(c.pos)..hi], choose, 0)
  {
    data := [];
    var k := first;
    var n: nat := 0;
    ghost var lo, b := c.pos, c.bucket;
    ghost var scan := b[lo..hi];
    ghost var goal := Offered(scan, choose, 0);
    PendingStarts(scan, choose);
    hide Offered, Pending, IsBlock;
    BlockGoesOn(b, prefixID, lo, hi, c.pos);
    while k.Some? && prefixID <= k.value.key
      invariant n == c.pos - lo && lo <= c.pos <= hi && k == c.Current()
      invariant k.Some? && prefixID <= k.value.key <==> c.pos < hi
      invariant Pending(goal, data, scan, choose, n)
      decreases |c.bucket| - c.pos
    {
      BlockGoesOn(b, prefixID, lo, hi, c.pos);
      data := PushOne(goal, scan, data, k.value, choose, n);
      if choose(n) == Stopped {
        return;
      }
      k := c.Next();
      n := n + 1;
      BlockGoesOn(b, prefixID, lo, hi, c.pos);
    }
    PendingEnds(goal, data, scan, choose);
  }

  /** The `select` of one turn. */
  method PushOne(ghost goal: seq<Entry>, ghost scan: seq<Entry>, data: seq<Entry>, e: Entry, choose: nat -> Choice, n: nat)
    returns (d: seq<Entry>)
    requires n < |scan| && e == scan[n] && Pending(goal, data, scan, choose, n)
    ensures if choose(n) == Stopped then d == goal else Pending(goal, d, scan, choose, n + 1)
  {
    OfferedStep(scan, choose, n);
    ghost var rest := Offered(scan[n + 1..], choose, n + 1);
    hide Offered;
    assert data + ([e] + rest) == data + [e] + rest;
    match choose(n) {
      case Stopped => d := data;
      case Push => d := data + [e];
      case GiveUp => d := data;
    }
  }

  method QueryBackward(b: seq<Entry>, prefixID: Key, choose: nat -> Choice) returns (data: seq<Entry>)
    requires Sorted(b)
    ensures data == Offered(Scan(b, prefixID, true), choose, 0)
  {
    var c := new Cursor(b);
    if |prefixID| > 0 {
      var _ := c.Seek(prefixID);
    }
    var k := c.Last();
    ghost var lo := ReverseBlock(b, prefixID);
    data := PushBackward(c, k, prefixID, choose, lo);
  }

  method PushBackward(c: Cursor, last: Option<Entry>, prefixID: Key, choose: nat -> Choice, ghost lo: nat)
    returns (data: seq<Entry>)
    requires c.pos == |c.bucket| - 1 && lo <= |c.bucket| && last == c.Current() && IsEndBlock(c.bucket, prefixID, lo)
    modifies c
    ensures data == Offered(Reversed(c.bucket[lo..]), choose, 0)
  {
    data := [];
    var k := last;
    var n: nat := 0;
    ghost var b := c.bucket;
    ghost var scan := Reversed(b[lo..]);
    ghost var goal := Offered(scan, choose, 0);
    ReversedLength(b[lo..]);
    PendingStarts(scan, choose);
    hide Reversed, Offered, Pending, IsEndBlock;
    EndBlockGoesOn(b, prefixID, lo, c.pos);
    while k.Some? && prefixID <= k.value.key
      invariant n <= |b| - lo && c.pos == |b| - 1 - n && k == c.Current()
      invariant k.Some? && prefixID <= k.value.key <==> n < |b| - lo
      invariant Pending(goal, data, scan, choose, n)
      decreases c.pos
    {
      ReverseStep(b, lo, n);
      data := PushOne(goal, scan, data, k.value, choose, n);
      if choose(n) == Stopped {
        return;
      }
      k := c.Prev();
      n := n + 1;
      EndBlockGoesOn(b, prefixID, lo, c.pos);
    }
    PendingEnds(goal, data, scan, choose);
  }
}
