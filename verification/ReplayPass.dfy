/**
 Replay passes as they run when each query child finishes before the next starts: the child's loop,
 its bound, its order, and how repeated passes drain the collection.
 */
module ReplayPass {
  import opened MachineInts
  import opened Options
  import opened Buckets
  import opened Repo
  import opened Lifecycle
  import opened Decimal
  import opened Replay
  import opened Codec
  import opened Prepare

  /** What the outside does at each call of the closure: the clock it reads, the answer it gets. */
  datatype Weather = Weather(clock: nat -> int, answer: nat -> Answer)

  /** A finished pass: the closure's counter and flag, all messages sent, the entries answered. */
  datatype Outcome = Outcome(count: nat, retryFlag: bool, sent: seq<Op>, acked: set<Key>)

  /** The child runs the closure on every entry it is offered, also after one call returned false. */
  function RunPass(cfg: Config, isConnected: bool, flag: bool, count: nat, es: seq<Entry>, w: Weather, n: nat): Outcome
    decreases |es|
  {
    if es == [] then Outcome(count, flag, [], {})
    else
      var f := Callback(cfg, isConnected, flag, count, es[0], w.clock(n), w.answer(n));
      var o := RunPass(cfg, isConnected, f.retryFlag, f.count, es[1..], w, n + 1);
      Outcome(o.count, o.retryFlag, f.sent + o.sent, (if f.acked then {es[0].key} else {}) + o.acked)
  }

  function Min(x: int, y: int): int {
    if x < y then x else y
  }

  /** s is an object whose members read a. */
  predicate IsObject(s: seq<byte>, a: seq<byte>) {
    s == [123] + a + [125]
  }

  // ---------- the actor ----------

  class RemoteActor {
    const cfg: Config
    var isConnected: bool
    var isDatabaseOpen: bool
    var retryFlag: bool
    var toDatabase: seq<Op> // messages sent to the database actor, in order
    var toSelf: nat         // `verifyReplay` messages sent to itself

    constructor (cfg: Config)
      ensures this.cfg == cfg && Value() == Remote(false, false, false) && toDatabase == [] && toSelf == 0
    {
      this.cfg := cfg;
      isConnected, isDatabaseOpen, retryFlag := false, false, false;
      toDatabase, toSelf := [], 0;
    }

    function Value(): Remote
      reads this
    {
      Remote(isConnected, isDatabaseOpen, retryFlag)
    }

    /** `ps.db.Open()` when the database is not known to be open. */
    method TryOpen(opens: bool)
      modifies this`isDatabaseOpen
      ensures Value() == Reopened(old(Value()), opens)
    {
      if !isDatabaseOpen {
        if opens {
          isDatabaseOpen := true;
        }
      }
    }

    /**
     `case *messages.RemoteMSG2`: a panic before anything is sent or stored when the message cannot be
     prepared, otherwise the live path on what was prepared.
     */
    method OnRemoteMSG2(msg: Msg2, host: seq<byte>, now: nat, answer: Answer, opens: bool) returns (panics: bool)
      modifies this
      ensures panics <==> !IsPreparable(msg)
      ensures panics ==> Value() == old(Value()) && toDatabase == old(toDatabase)
      ensures !panics ==>
        var (r, sent) := Live(cfg, old(Value()), PrepareMSG(msg, host), now, answer, opens);
        Value() == r && toDatabase == old(toDatabase) + sent
      ensures forall a, b :: !panics && msg.version == 2 && IsObject(msg.state.Bytes(), a) && IsObject(msg.events.Bytes(), b) ==>
        var text := [123, 34, 115, 68, 118, 34, 58, 32] + host + [44, 32] + a + [44, 32] + b + [125];
        toDatabase == old(toDatabase) || toDatabase == old(toDatabase) + [Update(Dec(now), text, "events")]
      ensures toSelf == old(toSelf)
    {
      forall a, b | msg.version == 2 && IsObject(msg.state.Bytes(), a) && IsObject(msg.events.Bytes(), b)
        ensures IsPreparable(msg) && PrepareMSG(msg, host)
          == [123, 34, 115, 68, 118, 34, 58, 32] + host + [44, 32] + a + [44, 32] + b + [125]
      {
        PreparedText(msg, host, a, b);
      }
      var data := [];
      if msg.version == 2 {
        var state, events := msg.state.Bytes(), msg.events.Bytes();
        if |state| < 2 || |events| < 2 {
          return true;
        }
        data := OPEN + host + COMMA + state[1..|state| - 1] + COMMA + events[1..|events| - 1] + CLOSE;
      } else {
        data := msg.data.Bytes();
      }
      panics := false;
      if isConnected && answer != NoAnswer {
        return;
      }
      TryOpen(opens);
      if !cfg.disableReplay && isDatabaseOpen {
        var uid := Dec(now);
        toDatabase := toDatabase + [Update(uid, data, EVENTS)];
      }
    }

    /** `case *MsgReconnect` */
    method OnReconnect()
      modifies this
      ensures Value() == old(Value()).(isConnected := true) && toSelf == old(toSelf) + 1
      ensures toDatabase == old(toDatabase)
    {
      toSelf := toSelf + 1;
      isConnected := true;
    }

    /** `case *verifyRetry`: a pass that hit its bound is followed by another. */
    method OnVerifyRetry()
      modifies this
      ensures Value() == old(Value()) && toDatabase == old(toDatabase)
      ensures toSelf == old(toSelf) + if retryFlag then 1 else 0
    {
      if !retryFlag {
        return;
      }
      toSelf := toSelf + 1;
    }

    /** `case *verifyReplay` with the entries its query offers. */
    method OnVerifyReplay(opens: bool, es: seq<Entry>, w: Weather) returns (acked: set<Key>)
      modifies this
      ensures var (r, starts) := Verify(old(Value()), opens);
        if starts then
          var o := RunPass(cfg, r.isConnected, false, 0, es, w, 0);
          && Value() == r.(retryFlag := o.retryFlag)
          && toDatabase == old(toDatabase) + [Read] + o.sent && acked == o.acked
        else Value() == r && toDatabase == old(toDatabase) && acked == {}
      ensures toSelf == old(toSelf)
    {
      if retryFlag {
        retryFlag := false;
      }
      TryOpen(opens);
      if !isDatabaseOpen {
        return {};
      }
      toDatabase := toDatabase + [Read];
      acked := Query(es, w);
    }

    /** The child's message loop over the entries, each handed to the closure. */
    method Query(es: seq<Entry>, w: Weather) returns (acked: set<Key>)
      modifies this
      ensures var o := RunPass(cfg, old(isConnected), old(retryFlag), 0, es, w, 0);
        && Value() == old(Value()).(retryFlag := o.retryFlag)
        && toDatabase == old(toDatabase) + o.sent && acked == o.acked
      ensures toSelf == old(toSelf)
    {
      acked := {};
      var count, n := 0, 0;
      ghost var goal := RunPass(cfg, isConnected, retryFlag, 0, es, w, 0);
      ghost var sent: seq<Op> := [];
      assert es[0..] == es;
      ContinuesStart(goal);
      hide Callback, RunPass, Continues;
      while n < |es|
        invariant n <= |es|
        invariant Value() == old(Value()).(retryFlag := retryFlag) && toSelf == old(toSelf)
        invariant toDatabase == old(toDatabase) + sent
        invariant Continues(goal, sent, acked, RunPass(cfg, isConnected, retryFlag, count, es[n..], w, n))
      {
        ghost var base := old(toDatabase);
        assert toDatabase == base + sent;
        count, acked, sent := Offer(es, w, n, count, acked, goal, sent);
        n := n + 1;
      }
      assert es[n..] == [];
      ContinuesEnd(goal, sent, acked, cfg, isConnected, retryFlag, count, w, n);
    }

    /** `case *MsgQueryResponse`: one entry goes to the closure. */
    method Offer(es: seq<Entry>, w: Weather, n: nat, count: nat, acked: set<Key>, ghost goal: Outcome, ghost sent: seq<Op>)
      returns (c: nat, answered: set<Key>, ghost sent': seq<Op>)
      requires n < |es|
      requires Continues(goal, sent, acked, RunPass(cfg, isConnected, retryFlag, count, es[n..], w, n))
      modifies this
      ensures Value() == old(Value()).(retryFlag := retryFlag) && toSelf == old(toSelf)
      ensures forall base: seq<Op> :: old(toDatabase) == base + sent ==> toDatabase == base + sent'
      ensures Continues(goal, sent', answered, RunPass(cfg, isConnected, retryFlag, c, es[n + 1..], w, n + 1))
    {
      PassStep(cfg, isConnected, retryFlag, count, es, w, n);
      ghost var f := Callback(cfg, isConnected, retryFlag, count, es[n], w.clock(n), w.answer(n));
      ghost var o := RunPass(cfg, isConnected, f.retryFlag, f.count, es[n + 1..], w, n + 1);
      hide Callback, RunPass, Continues;
      ContinuesStep(goal, sent, acked, f, o, es[n].key);
      var ok;
      var again;
      c, ok, again := Closure(count, es[n], w.clock(n), w.answer(n));
      answered := if ok then acked + {es[n].key} else acked;
      sent' := sent + f.sent;
      forall base: seq<Op> | old(toDatabase) == base + sent ensures toDatabase == base + sent' {
        assert base + sent + f.sent == base + (sent + f.sent);
      }
    }

    /** The closure `query` of `verifyReplay` and what it returns; `ok` tells that the client answered. */
    method Closure(count: nat, e: Entry, now: int, answer: Answer) returns (c: nat, ok: bool, again: bool)
      modifies this
      ensures var f := Callback(cfg, old(isConnected), old(retryFlag), count, e, now, answer);
        && c == f.count && ok == f.acked && again == f.again && toDatabase == old(toDatabase) + f.sent
        && Value() == old(Value()).(retryFlag := f.retryFlag) && toSelf == old(toSelf)
    {
      c, ok, again := count, false, false;
      if c > 30 {
        retryFlag := true;
        return;
      }
      c := c + 1;
      var tid := ParseInt(e.key);
      if tid == None {
        toDatabase := toDatabase + [Delete(e.key, EVENTS)];
        again := true;
        return;
      }
      if TooOld(cfg, now, tid.value) {
        var collection := ArchiveOf(cfg, tid.value);
        toDatabase := toDatabase + [Update(e.key, e.data, collection)];
        toDatabase := toDatabase + [Delete(e.key, EVENTS)];
        again := true;
        return;
      }
      if !isConnected {
        return;
      }
      if answer != Acked {
        return;
      }
      toDatabase := toDatabase + [Delete(e.key, EVENTS)];
      ok, again := true, true;
    }
  }

  /** `goal` is what has been sent and answered so far followed by o. */
  ghost predicate Continues(goal: Outcome, sent: seq<Op>, acked: set<Key>, o: Outcome) {
    goal.retryFlag == o.retryFlag && goal.acked == acked + o.acked && goal.sent == sent + o.sent
  }

  lemma ContinuesStart(goal: Outcome)
    ensures Continues(goal, [], {}, goal)
  {
  }

  lemma ContinuesEnd(goal: Outcome, sent: seq<Op>, acked: set<Key>,
                     cfg: Config, isConnected: bool, flag: bool, count: nat, w: Weather, n: nat)
    requires Continues(goal, sent, acked, RunPass(cfg, isConnected, flag, count, [], w, n))
    ensures goal.retryFlag == flag && goal.acked == acked && goal.sent == sent
  {
  }

  lemma ContinuesStep(goal: Outcome, sent: seq<Op>, acked: set<Key>, f: Effect, o: Outcome, k: Key)
    requires Continues(goal, sent, acked, Outcome(o.count, o.retryFlag, f.sent + o.sent, (if f.acked then {k} else {}) + o.acked))
    ensures Continues(goal, sent + f.sent, if f.acked then acked + {k} else acked, o)
  {
    assert sent + (f.sent + o.sent) == sent + f.sent + o.sent;
  }

  lemma PassStep(cfg: Config, isConnected: bool, flag: bool, count: nat, es: seq<Entry>, w: Weather, n: nat)
    requires n < |es|
    ensures var f := Callback(cfg, isConnected, flag, count, es[n], w.clock(n), w.answer(n));
      var o := RunPass(cfg, isConnected, f.retryFlag, f.count, es[n + 1..], w, n + 1);
      RunPass(cfg, isConnected, flag, count, es[n..], w, n)
        == Outcome(o.count, o.retryFlag, f.sent + o.sent, (if f.acked then {es[n].key} else {}) + o.acked)
  {
    hide Callback;
    assert es[n..][1..] == es[n + 1..];
  }

  // ---------- the bound ----------

  /** Past its bound the closure sends nothing and asks for another pass. */
  lemma {:induction false} PassExhausted(cfg: Config, isConnected: bool, flag: bool, count: nat, es: seq<Entry>, w: Weather, n: nat)
    requires count > 30
    ensures RunPass(cfg, isConnected, flag, count, es, w, n) == Outcome(count, flag || es != [], [], {})
    decreases |es|
  {
    if es != [] {
      PassExhausted(cfg, isConnected, true, count, es[1..], w, n + 1);
    }
  }

  lemma CallCounts(cfg: Config, isConnected: bool, flag: bool, count: nat, e: Entry, now: int, answer: Answer)
    requires count <= 30
    ensures var f := Callback(cfg, isConnected, flag, count, e, now, answer); f.count == count + 1 && f.retryFlag == flag
  {
  }

  /** A pass whose counter starts at `count` acts on the first 31 - count entries only, whatever is answered. */
  lemma {:induction false} PassIsBounded(cfg: Config, isConnected: bool, flag: bool, count: nat, es: seq<Entry>, w: Weather, n: nat)
    requires count <= 31
    ensures var k := Min(|es|, 31 - count);
      var o, head := RunPass(cfg, isConnected, flag, count, es, w, n), RunPass(cfg, isConnected, flag, count, es[..k], w, n);
      && o.count == count + k && o.sent == head.sent && o.acked == head.acked
      && (o.retryFlag <==> flag || |es| > 31 - count)
    decreases |es|
  {
    hide Callback;
    var k := Min(|es|, 31 - count);
    if count == 31 {
      PassExhausted(cfg, isConnected, flag, count, es, w, n);
      assert es[..k] == [];
    } else if es != [] {
      CallCounts(cfg, isConnected, flag, count, es[0], w.clock(n), w.answer(n));
      PassIsBounded(cfg, isConnected, flag, count + 1, es[1..], w, n + 1);
      assert es[..k][1..] == es[1..][..k - 1];
    }
  }

  // ---------- draining ----------

  /** The database actor serves messages in order, successfully. */
  function ServeAll(st: Store, ops: seq<Op>): Store
    decreases |ops|
  {
    if ops == [] then st else ServeAll(Transact(st, ops[0], Env(true, None, [])).1, ops[1..])
  }

  lemma {:induction false} ServeAllConcat(st: Store, a: seq<Op>, b: seq<Op>)
    ensures ServeAll(st, a + b) == ServeAll(ServeAll(st, a), b)
    decreases |a|
  {
    if a == [] {
      assert a + b == b;
    } else {
      assert (a + b)[1..] == a[1..] + b;
      ServeAllConcat(Transact(st, a[0], Env(true, None, [])).1, a[1..], b);
    }
  }

  /** Every send is answered and the client is connected. */
  ghost predicate Fair(w: Weather) {
    forall n :: w.answer(n) == Acked
  }

  /** One acknowledged call removes its entry from the front of `events`. */
  lemma CallRemoves(cfg: Config, st: Store, flag: bool, count: nat, now: int, b: seq<Entry>)
    requires count <= 30 && b != [] && BucketOf(st, EVENTS) == b
    ensures var f := Callback(cfg, true, flag, count, b[0], now, Acked);
      && f.count == count + 1 && f.retryFlag == flag
      && BucketOf(ServeAll(st, f.sent), EVENTS) == b[1..]
  {
    var f := Callback(cfg, true, flag, count, b[0], now, Acked);
    var e := b[0];
    var del := Delete(e.key, EVENTS);
    assert EVENTS in st;
    assert Buckets.Delete(b, e.key) == b[1..];
    if f.sent == [del] {
      assert [del][1..] == [];
    } else {
      var c := ArchiveOf(cfg, ParseInt(e.key).value);
      ArchiveIsNotEvents(cfg, ParseInt(e.key).value);
      var up := Update(e.key, e.data, c);
      assert f.sent == [up, del] && [up, del][1..] == [del] && [del][1..] == [];
      var st1 := Transact(st, up, Env(true, None, [])).1;
      assert BucketOf(st1, EVENTS) == b && EVENTS in st1;
      assert ServeAll(st, f.sent) == ServeAll(st1, [del]);
      assert ServeAll(st1, [del]) == ServeAll(Erase(st1, EVENTS, e.key), []);
    }
  }

  /** An acknowledged pass removes exactly the first min(N, 31) entries of `events`. */
  lemma {:induction false} PassRemoves(cfg: Config, st: Store, flag: bool, count: nat, b: seq<Entry>, w: Weather, n: nat)
    requires count <= 31 && BucketOf(st, EVENTS) == b && Fair(w)
    ensures BucketOf(ServeAll(st, RunPass(cfg, true, flag, count, b, w, n).sent), EVENTS) == b[Min(|b|, 31 - count)..]
    decreases |b|
  {
    ServeNothing(st);
    if count == 31 {
      PassExhausted(cfg, true, flag, count, b, w, n);
      assert b[0..] == b;
    } else if b == [] {
      assert RunPass(cfg, true, flag, count, b, w, n).sent == [];
    } else {
      var f := Callback(cfg, true, flag, count, b[0], w.clock(n), w.answer(n));
      var o := RunPass(cfg, true, f.retryFlag, f.count, b[1..], w, n + 1);
      assert RunPass(cfg, true, flag, count, b, w, n).sent == f.sent + o.sent by { PassFirst(cfg, flag, count, b, w, n); }
      hide Callback, RunPass, ServeAll, BucketOf;
      ServeAllConcat(st, f.sent, o.sent);
      CallRemoves(cfg, st, flag, count, w.clock(n), b);
      PassRemoves(cfg, ServeAll(st, f.sent), f.retryFlag, f.count, b[1..], w, n + 1);
      assert b[1..][Min(|b| - 1, 30 - count)..] == b[Min(|b|, 31 - count)..];
    }
  }

  lemma ServeNothing(st: Store)
    ensures ServeAll(st, []) == st
  {
  }

  lemma PassFirst(cfg: Config, flag: bool, count: nat, b: seq<Entry>, w: Weather, n: nat)
    requires b != []
    ensures var f := Callback(cfg, true, flag, count, b[0], w.clock(n), w.answer(n));
      RunPass(cfg, true, flag, count, b, w, n).sent
      == f.sent + RunPass(cfg, true, f.retryFlag, f.count, b[1..], w, n + 1).sent
  {
    hide Callback;
  }

  /** The store and the retry flag after k finished passes, pass j meeting the weather w(j). */
  function AfterPasses(cfg: Config, st: Store, flag: bool, w: nat -> Weather, k: nat): (Store, bool)
    decreases k
  {
    if k == 0 then (st, flag)
    else
      var (s, _) := AfterPasses(cfg, st, flag, w, k - 1);
      var o := RunPass(cfg, true, false, 0, Scan(BucketOf(s, EVENTS), [], false), w(k), 0);
      (ServeAll(s, o.sent), o.retryFlag)
  }

  lemma OnePass(cfg: Config, st: Store, w: Weather)
    requires Fair(w)
    ensures var b := BucketOf(st, EVENTS);
      var o := RunPass(cfg, true, false, 0, Scan(b, [], false), w, 0);
      BucketOf(ServeAll(st, o.sent), EVENTS) == b[Min(|b|, 31)..] && (o.retryFlag <==> |b| > 31)
  {
    hide RunPass, ServeAll, Scan;
    var b := BucketOf(st, EVENTS);
    EmptyPrefix(b, false);
    PassRemoves(cfg, st, false, 0, b, w, 0);
    PassIsBounded(cfg, true, false, 0, b, w, 0);
  }

  /**
   Draining: after k acknowledged passes the first 31k entries are gone and no others, and another pass
   is called for exactly while entries remain.
   */
  lemma {:induction false} PassesDrain(cfg: Config, st: Store, flag: bool, w: nat -> Weather, k: nat)
    requires forall j :: Fair(w(j))
    ensures var (s, f) := AfterPasses(cfg, st, flag, w, k);
      var b := BucketOf(st, EVENTS);
      && BucketOf(s, EVENTS) == b[Min(|b|, 31 * k)..]
      && (k > 0 ==> (f <==> |b| > 31 * k))
    decreases k
  {
    hide RunPass, ServeAll, Scan, BucketOf, Fair;
    var b := BucketOf(st, EVENTS);
    if k == 0 {
      assert b[0..] == b;
    } else {
      PassesDrain(cfg, st, flag, w, k - 1);
      var s := AfterPasses(cfg, st, flag, w, k - 1).0;
      var c := BucketOf(s, EVENTS);
      assert Fair(w(k));
      OnePass(cfg, s, w(k));
      assert c[Min(|c|, 31)..] == b[Min(|b|, 31 * k)..];
    }
  }

  /** The collection is empty, and no retry pending, after ceil(N/31) passes and not before. */
  lemma DrainedAfter(cfg: Config, st: Store, flag: bool, w: nat -> Weather, k: nat)
    requires forall j :: Fair(w(j))
    ensures var (s, f) := AfterPasses(cfg, st, flag, w, k);
      var needed := (|BucketOf(st, EVENTS)| + 30) / 31;
      && (BucketOf(s, EVENTS) == [] <==> k >= needed)
      && (k > 0 ==> (f <==> k < needed))
  {
    PassesDrain(cfg, st, flag, w, k);
  }

  // ---------- the order ----------

  /** An identifier minted since 2001 from a clock that fits an int64. */
  ghost predicate IsMinted(k: Key) {
    exists n: nat :: NANOS_2001 <= n < TWO_63 && k == Dec(n)
  }

  function Minting(k: Key): int64
    requires ParseInt(k) != None
  {
    ParseInt(k).value
  }

  /** Minted identifiers sort by the instant they were minted. */
  lemma MintedOrder(j: Key, k: Key)
    requires IsMinted(j) && IsMinted(k)
    ensures ParseInt(j) != None && ParseInt(k) != None
    ensures Less(j, k) <==> Minting(j) < Minting(k)
  {
    var m: nat :| NANOS_2001 <= m < TWO_63 && j == Dec(m);
    var n: nat :| NANOS_2001 <= n < TWO_63 && k == Dec(n);
    MintedLength(m);
    MintedLength(n);
    ParseMinted(m);
    ParseMinted(n);
    OrderIsNumeric(m, n);
  }

  lemma {:induction false} SubsequenceMember(t: seq<Entry>, s: seq<Entry>, e: Entry)
    requires Subsequence(t, s) && e in t
    ensures e in s
    decreases |s|
  {
    if t[0] == s[0] && Subsequence(t[1..], s[1..]) {
      if e != t[0] {
        SubsequenceMember(t[1..], s[1..], e);
      }
    } else {
      SubsequenceMember(t, s[1..], e);
    }
  }

  lemma {:induction false} SubsequenceSorted(t: seq<Entry>, s: seq<Entry>)
    requires Subsequence(t, s) && Sorted(s)
    ensures Sorted(t)
    decreases |s|
  {
    if t != [] {
      if t[0] == s[0] && Subsequence(t[1..], s[1..]) {
        SubsequenceSorted(t[1..], s[1..]);
        forall f | f in t[1..] ensures Less(t[0].key, f.key) {
          SubsequenceMember(t[1..], s[1..], f);
        }
        SortedCons(t[0], t[1..]);
        assert t == [t[0]] + t[1..];
      } else {
        SubsequenceSorted(t, s[1..]);
      }
    }
  }

  /**
   Replay is first in, first out: whatever a query times out on or is stopped at, the minted events it
   offers come in the order they were stored.
   */
  lemma ReplayIsFifo(b: seq<Entry>, choose: nat -> Choice, i: nat, j: nat)
    requires Sorted(b) && forall e :: e in b ==> IsMinted(e.key)
    requires var t := Offered(Scan(b, [], false), choose, 0); i < j < |t|
    ensures var t := Offered(Scan(b, [], false), choose, 0);
      && IsMinted(t[i].key) && IsMinted(t[j].key)
      && ParseInt(t[i].key) != None && ParseInt(t[j].key) != None
      && Minting(t[i].key) < Minting(t[j].key)
  {
    EmptyPrefix(b, false);
    var t := Offered(b, choose, 0);
    OfferedInOrder(b, choose, 0);
    SubsequenceSorted(t, b);
    SubsequenceMember(t, b, t[i]);
    SubsequenceMember(t, b, t[j]);
    MintedOrder(t[i].key, t[j].key);
  }

  /** The events one pass archives come before all those it does not. */
  lemma ArchivedComeFirst(cfg: Config, now: int, b: seq<Entry>, i: nat, j: nat)
    requires Sorted(b) && (forall e :: e in b ==> IsMinted(e.key)) && i < j < |b|
    ensures ParseInt(b[i].key) != None && ParseInt(b[j].key) != None
    ensures TooOld(cfg, now, Minting(b[j].key)) ==> TooOld(cfg, now, Minting(b[i].key))
  {
    MintedOrder(b[i].key, b[j].key);
    if TooOld(cfg, now, Minting(b[j].key)) {
      OlderIsTooOld(cfg, now, Minting(b[i].key), Minting(b[j].key));
    }
  }

  // ---------- the order of delivery ----------

  /** The closure sends this entry if it gets that far: it is an event, and not too old. */
  predicate IsSendable(cfg: Config, e: Entry, now: int) {
    ParseInt(e.key) != None && !TooOld(cfg, now, ParseInt(e.key).value)
  }

  /** Entry i of a pass over es is sent and answered. */
  predicate IsAnswered(cfg: Config, es: seq<Entry>, w: Weather, n: nat, i: nat)
    requires i < |es|
  {
    IsSendable(cfg, es[i], w.clock(n + i)) && w.answer(n + i) == Acked
  }

  /** The entries a pass delivers, whatever happened to those before them. */
  lemma {:induction false} AckedExactly(cfg: Config, flag: bool, count: nat, es: seq<Entry>, w: Weather, n: nat, k: Key)
    requires count <= 31
    ensures k in RunPass(cfg, true, flag, count, es, w, n).acked
      <==> (exists i :: 0 <= i < |es| && i < 31 - count && es[i].key == k && IsAnswered(cfg, es, w, n, i))
    decreases |es|
  {
    if count == 31 {
      PassExhausted(cfg, true, flag, count, es, w, n);
    } else if es != [] {
      var f := Callback(cfg, true, flag, count, es[0], w.clock(n), w.answer(n));
      CallCounts(cfg, true, flag, count, es[0], w.clock(n), w.answer(n));
      AckedExactly(cfg, flag, count + 1, es[1..], w, n + 1, k);
      assert f.acked <==> IsAnswered(cfg, es, w, n, 0);
      hide Callback, IsSendable, RunPass;
      LaterAnswer(cfg, es, w, n, 31 - count, k);
      PassAcks(cfg, flag, count, es, w, n);
    }
  }

  /** Without a connection a pass delivers nothing. */
  lemma {:induction false} OfflineDeliversNothing(cfg: Config, flag: bool, count: nat, es: seq<Entry>, w: Weather, n: nat)
    ensures RunPass(cfg, false, flag, count, es, w, n).acked == {}
    decreases |es|
  {
    if es != [] {
      var f := Callback(cfg, false, flag, count, es[0], w.clock(n), w.answer(n));
      OfflineDeliversNothing(cfg, f.retryFlag, f.count, es[1..], w, n + 1);
    }
  }

  lemma PassAcks(cfg: Config, flag: bool, count: nat, es: seq<Entry>, w: Weather, n: nat)
    requires es != []
    ensures var f := Callback(cfg, true, flag, count, es[0], w.clock(n), w.answer(n));
      RunPass(cfg, true, flag, count, es, w, n).acked
      == (if f.acked then {es[0].key} else {}) + RunPass(cfg, true, f.retryFlag, f.count, es[1..], w, n + 1).acked
  {
    hide Callback;
  }

  lemma AnsweredLater(cfg: Config, es: seq<Entry>, w: Weather, n: nat, i: nat)
    requires i + 1 < |es|
    ensures es[1..][i] == es[i + 1] && (IsAnswered(cfg, es, w, n, i + 1) <==> IsAnswered(cfg, es[1..], w, n + 1, i))
  {
    assert n + (i + 1) == n + 1 + i;
  }

  lemma LaterAnswer(cfg: Config, es: seq<Entry>, w: Weather, n: nat, room: nat, k: Key)
    requires es != [] && room > 0
    ensures (exists i :: 0 <= i < |es| && i < room && es[i].key == k && IsAnswered(cfg, es, w, n, i))
      <==> ((es[0].key == k && IsAnswered(cfg, es, w, n, 0))
            || exists i :: 0 <= i < |es[1..]| && i < room - 1 && es[1..][i].key == k && IsAnswered(cfg, es[1..], w, n + 1, i))
  {
    hide IsAnswered;
    if i :| 0 <= i < |es| && i < room && es[i].key == k && IsAnswered(cfg, es, w, n, i) {
      if i > 0 {
        AnsweredLater(cfg, es, w, n, i - 1);
      }
    }
    if i :| 0 <= i < |es[1..]| && i < room - 1 && es[1..][i].key == k && IsAnswered(cfg, es[1..], w, n + 1, i) {
      AnsweredLater(cfg, es, w, n, i);
    }
  }

  /** The events a pass delivers are the oldest of those it could have sent. */
  predicate DeliversInOrder(cfg: Config, es: seq<Entry>, w: Weather, acked: set<Key>) {
    forall i, j :: 0 <= i < j < |es| && IsSendable(cfg, es[i], w.clock(i)) && es[j].key in acked ==> es[i].key in acked
  }

  /**
   Offered in order is not delivered in order: the child calls the closure again after a failed send. A pass
   delivers in order exactly when, among the first 31 entries, no answered send follows a failed one.
   */
  lemma DeliveryOrderExactly(cfg: Config, es: seq<Entry>, w: Weather)
    requires Sorted(es)
    ensures DeliversInOrder(cfg, es, w, RunPass(cfg, true, false, 0, es, w, 0).acked)
      <==> (forall i, j :: 0 <= i < j < |es| && j < 31 && IsSendable(cfg, es[i], w.clock(i)) && IsAnswered(cfg, es, w, 0, j)
              ==> w.answer(i) == Acked)
  {
    hide IsSendable, RunPass;
    var acked := RunPass(cfg, true, false, 0, es, w, 0).acked;
    forall i | 0 <= i < |es| ensures es[i].key in acked <==> (i < 31 && IsAnswered(cfg, es, w, 0, i)) {
      AckedAt(cfg, es, w, i);
    }
  }

  lemma AckedAt(cfg: Config, es: seq<Entry>, w: Weather, i: nat)
    requires Sorted(es) && i < |es|
    ensures es[i].key in RunPass(cfg, true, false, 0, es, w, 0).acked <==> (i < 31 && IsAnswered(cfg, es, w, 0, i))
  {
    AckedExactly(cfg, false, 0, es, w, 0, es[i].key);
    hide RunPass, IsAnswered;
    forall j | 0 <= j < |es| && es[j].key == es[i].key ensures j == i {
      LessIrreflexive(es[i].key);
    }
  }

  /** A send that fails and one after it that does not. */
  lemma LaterEventOvertakes(dateOf: int -> string, m: nat, n: nat, d: seq<byte>)
    requires m < TWO_63 && n < TWO_63 && m != n
    ensures var cfg, es := Config(0, false, dateOf), [Entry(Dec(m), d), Entry(Dec(n), d)];
      var w := Weather((i: nat) => 0, (i: nat) => if i == 0 then NoAnswer else Acked);
      RunPass(cfg, true, false, 0, es, w, 0).acked == {Dec(n)}
  {
    var cfg, es := Config(0, false, dateOf), [Entry(Dec(m), d), Entry(Dec(n), d)];
    var w := Weather((i: nat) => 0, (i: nat) => if i == 0 then NoAnswer else Acked);
    ParseMinted(m);
    ParseMinted(n);
    hide ParseInt, Dec;
    assert es[1..] == [es[1]] && es[1..][1..] == [];
    assert RunPass(cfg, true, false, 2, [], w, 2).acked == {};
    assert RunPass(cfg, true, false, 1, es[1..], w, 1).acked == {Dec(n)};
  }
}
