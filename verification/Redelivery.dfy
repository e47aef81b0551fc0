/** Which events a client may be handed twice: the snapshots of replay passes against the answers so far. */
module Redelivery {
  import opened MachineInts
  import opened Buckets
  import opened Repo
  import opened Lifecycle
  import opened Decimal
  import opened Replay
  import opened Lanes
  import opened Conservation

  /** The move sends an event and the client acknowledges it. */
  predicate Delivers(cfg: Config, s: Sys, m: Move) {
    && m.Call? && m.i < |s.passes| && s.passes[m.i].rest != []
    && var p := s.passes[m.i];
       Callback(cfg, s.remote.isConnected, s.remote.retryFlag, p.count, p.rest[0], m.clock, m.answer).acked
  }

  /** It does so with an event that was acknowledged before. */
  predicate Redelivers(cfg: Config, s: Sys, m: Move) {
    Delivers(cfg, s, m) && s.passes[m.i].rest[0].key in s.past.acked
  }

  /** The move answers a query. */
  predicate IsRead(s: Sys, m: Move) {
    m == Serve(true) && s.queue != [] && s.queue[0] == Read
  }

  ghost predicate NoReads(cfg: Config, s: Sys, moves: seq<Move>)
    requires IsHistory(cfg, s, moves)
    decreases |moves|
  {
    moves == [] || (!IsRead(s, moves[0]) && NoReads(cfg, Moved(cfg, s, moves[0]), moves[1..]))
  }

  ghost predicate IsPath(cfg: Config, s: Sys, moves: seq<Move>, t: Sys) {
    IsHistory(cfg, s, moves) && NoReads(cfg, s, moves) && Final(cfg, s, moves) == t
  }

  /** t may follow on s before another query is answered. */
  ghost predicate May(cfg: Config, s: Sys, t: Sys) {
    exists moves :: IsPath(cfg, s, moves, t)
  }

  /** Until another query is answered, no event is delivered that was delivered before. */
  ghost predicate NeverAgain(cfg: Config, s: Sys) {
    forall t, m :: May(cfg, s, t) && CanMove(cfg, t, m) ==> !Redelivers(cfg, t, m)
  }

  /** Pass i may still come to send its entry number a. */
  predicate Offers(s: Sys, i: int, a: int) {
    0 <= i < |s.passes| && 0 <= a < |s.passes[i].rest| && s.passes[i].count <= 30 && IsNumeric(s.passes[i].rest[a].key)
  }

  /** What a pass may still send was not acknowledged, and no other pass may send it. */
  ghost predicate Unshared(s: Sys) {
    && (forall i, a :: Offers(s, i, a) ==> s.passes[i].rest[a].key !in s.past.acked)
    && (forall i, a, j, b :: Offers(s, i, a) && Offers(s, j, b) && i != j ==> s.passes[i].rest[a].key != s.passes[j].rest[b].key)
  }

  /** Snapshots are read in key order. */
  ghost predicate SnapshotsSorted(s: Sys) {
    StoreSorted(s.store) && forall i :: 0 <= i < |s.passes| ==> Sorted(s.passes[i].rest)
  }

  // ---------- an unshared state stays so ----------

  /** t's passes offer nothing that s's did not. */
  ghost predicate Narrows(s: Sys, t: Sys) {
    && |t.passes| == |s.passes|
    && forall i :: 0 <= i < |t.passes| ==> PassNarrows(s.passes[i], t.passes[i])
  }

  ghost predicate PassNarrows(p: Pass, q: Pass) {
    p.count <= q.count && forall e :: e in q.rest ==> e in p.rest
  }

  lemma UnsharedNarrows(s: Sys, t: Sys)
    requires Unshared(s) && Narrows(s, t) && t.past.acked <= s.past.acked
    ensures Unshared(t)
  {
    hide IsNumeric;
    forall i, a | Offers(t, i, a) ensures t.passes[i].rest[a].key !in t.past.acked {
      var c := OfferedBefore(s, t, i, a);
    }
    forall i, a, j, b | Offers(t, i, a) && Offers(t, j, b) && i != j
      ensures t.passes[i].rest[a].key != t.passes[j].rest[b].key
    {
      var c := OfferedBefore(s, t, i, a);
      var d := OfferedBefore(s, t, j, b);
    }
  }

  lemma OfferedBefore(s: Sys, t: Sys, i: nat, a: nat) returns (c: nat)
    requires Narrows(s, t) && Offers(t, i, a)
    ensures Offers(s, i, c) && s.passes[i].rest[c] == t.passes[i].rest[a]
  {
    hide IsNumeric;
    assert PassNarrows(s.passes[i], t.passes[i]);
    assert t.passes[i].rest[a] in s.passes[i].rest;
    c :| 0 <= c < |s.passes[i].rest| && s.passes[i].rest[c] == t.passes[i].rest[a];
  }

  /** The moves that neither answer a query nor call the closure. */
  lemma OtherMoveNarrows(cfg: Config, s: Sys, m: Move)
    requires CanMove(cfg, s, m) && !IsRead(s, m) && !m.Call?
    ensures Narrows(s, Moved(cfg, s, m)) && Moved(cfg, s, m).past.acked == s.past.acked
  {
    hide Live, Applied, Lookup;
  }

  lemma CallNarrows(cfg: Config, s: Sys, m: Move)
    requires CanMove(cfg, s, m) && m.Call?
    ensures Narrows(s, Moved(cfg, s, m))
    ensures Moved(cfg, s, m).past.acked == s.past.acked + if Delivers(cfg, s, m) then {s.passes[m.i].rest[0].key} else {}
  {
    CallCountsUp(cfg, s, m);
    hide Callback;
  }

  lemma CallCountsUp(cfg: Config, s: Sys, m: Move)
    requires CanMove(cfg, s, m) && m.Call?
    ensures Moved(cfg, s, m).passes[m.i].count >= s.passes[m.i].count
  {
  }

  /** An acknowledged entry is an event, within the bound. */
  lemma DeliversOffered(cfg: Config, s: Sys, m: Move)
    requires Delivers(cfg, s, m)
    ensures Offers(s, m.i, 0)
  {
    hide TooOld;
  }

  lemma CallKeepsUnshared(cfg: Config, s: Sys, m: Move)
    requires Unshared(s) && SnapshotsSorted(s) && CanMove(cfg, s, m) && m.Call?
    ensures Unshared(Moved(cfg, s, m))
  {
    var t := Moved(cfg, s, m);
    CallNarrows(cfg, s, m);
    assert t.passes[m.i].rest == s.passes[m.i].rest[1..];
    if Delivers(cfg, s, m) {
      DeliversOffered(cfg, s, m);
      var k := s.passes[m.i].rest[0].key;
      hide Moved, IsNumeric;
      UnsharedNarrows(s, t.(past := s.past));
      forall i, a | Offers(t, i, a) ensures t.passes[i].rest[a].key !in t.past.acked {
        assert Offers(t.(past := s.past), i, a);
        if i == m.i {
          assert t.passes[i].rest[a] == s.passes[i].rest[a + 1];
          LessIrreflexive(k);
        } else {
          var c := OfferedBefore(s, t, i, a);
        }
      }
      forall i, a, j, b | Offers(t, i, a) && Offers(t, j, b) && i != j
        ensures t.passes[i].rest[a].key != t.passes[j].rest[b].key
      {
        assert Offers(t.(past := s.past), i, a) && Offers(t.(past := s.past), j, b);
      }
    } else {
      UnsharedNarrows(s, t);
    }
  }

  /** Snapshots stay in order. */
  lemma MoveKeepsSorted(cfg: Config, s: Sys, m: Move)
    requires SnapshotsSorted(s) && CanMove(cfg, s, m)
    ensures SnapshotsSorted(Moved(cfg, s, m))
  {
    hide Callback, Live, Sorted;
    var t := Moved(cfg, s, m);
    if m.Serve? {
      TransactSorted(s.store, s.queue[0], SUCCEEDS);
    }
    forall i | 0 <= i < |t.passes| ensures Sorted(t.passes[i].rest) {
      if i >= |s.passes| {
        EmptyPrefix(BucketOf(s.store, EVENTS), false);
        EmptySorted();
      } else {
        SortedDrop(s.passes[i].rest);
        EmptySorted();
      }
    }
  }

  lemma EmptySorted()
    ensures Sorted([])
  {
  }

  lemma SortedDrop(b: seq<Entry>)
    requires Sorted(b)
    ensures b != [] ==> Sorted(b[1..])
  {
  }

  /** In every state of a run the snapshots are in key order. */
  lemma {:induction false} HistoryKeepsSorted(cfg: Config, s: Sys, moves: seq<Move>)
    requires SnapshotsSorted(s) && IsHistory(cfg, s, moves)
    ensures SnapshotsSorted(Final(cfg, s, moves))
    decreases |moves|
  {
    hide SnapshotsSorted, CanMove, Moved;
    if moves != [] {
      MoveKeepsSorted(cfg, s, moves[0]);
      HistoryKeepsSorted(cfg, Moved(cfg, s, moves[0]), moves[1..]);
    }
  }

  lemma {:induction false} PathKeepsUnshared(cfg: Config, s: Sys, moves: seq<Move>, t: Sys)
    requires Unshared(s) && SnapshotsSorted(s) && IsPath(cfg, s, moves, t)
    ensures Unshared(t)
    decreases |moves|
  {
    hide Unshared, SnapshotsSorted, CanMove, Moved, Narrows;
    if moves != [] {
      var m := moves[0];
      var u := Moved(cfg, s, m);
      if m.Call? {
        CallKeepsUnshared(cfg, s, m);
      } else {
        OtherMoveNarrows(cfg, s, m);
        UnsharedNarrows(s, u);
      }
      MoveKeepsSorted(cfg, s, m);
      PathKeepsUnshared(cfg, u, moves[1..], t);
    }
  }

  // ---------- a shared state leads to a second delivery ----------

  lemma MaySelf(cfg: Config, s: Sys)
    ensures May(cfg, s, s)
  {
    assert IsPath(cfg, s, [], s);
  }

  /** One move first. */
  lemma MayFirst(cfg: Config, s: Sys, m: Move, t: Sys)
    requires CanMove(cfg, s, m) && !IsRead(s, m) && May(cfg, Moved(cfg, s, m), t)
    ensures May(cfg, s, t)
  {
    hide CanMove, Moved, IsRead;
    var moves :| IsPath(cfg, Moved(cfg, s, m), moves, t);
    assert ([m] + moves)[1..] == moves;
    assert IsPath(cfg, s, [m] + moves, t);
  }

  /** Pass i may come to its entry number a with nothing left to send, the client being connected. */
  lemma {:induction false} ToEntry(cfg: Config, s: Sys, i: nat, a: nat) returns (t: Sys)
    requires i < |s.passes| && a < |s.passes[i].rest|
    ensures May(cfg, s, t) && t.past == s.past && t.remote.isConnected
    ensures t.passes == s.passes[i := Pass(s.passes[i].rest[a..], s.passes[i].count, [])]
    decreases |s.passes[i].outbox|, a
  {
    hide May, Live, Callback, Served;
    var p := s.passes[i];
    if p.outbox != [] {
      t := ToEntry(cfg, Moved(cfg, s, Post(i)), i, a);
      MayFirst(cfg, s, Post(i), t);
    } else if a > 0 {
      t := ToEntry(cfg, Moved(cfg, s, Miss(i)), i, a - 1);
      MayFirst(cfg, s, Miss(i), t);
      assert p.rest[1..][a - 1..] == p.rest[a..];
    } else {
      t := Moved(cfg, s, Reconnect);
      MaySelf(cfg, t);
      MayFirst(cfg, s, Reconnect, t);
      assert p.rest[0..] == p.rest && s.passes[i := p] == s.passes;
    }
  }

  /** At some clock reading the closure sends the entry. */
  lemma SomeClock(cfg: Config, e: Entry) returns (clock: int)
    requires IsNumeric(e.key)
    ensures !TooOld(cfg, clock, ParseInt(e.key).value)
  {
    hide ParseInt, MilliOf;
    clock := MilliOf(ParseInt(e.key).value) * 1_000_000 - TWO_63;
  }

  lemma CallDelivers(cfg: Config, s: Sys, i: nat) returns (m: Move)
    requires Offers(s, i, 0) && s.passes[i].outbox == [] && s.remote.isConnected
    ensures m.Call? && m.i == i && CanMove(cfg, s, m) && Delivers(cfg, s, m)
  {
    var clock := SomeClock(cfg, s.passes[i].rest[0]);
    hide TooOld, ParseInt;
    m := Call(i, clock, Acked);
  }

  /** An offered event that was acknowledged may be delivered again. */
  lemma AckedAgain(cfg: Config, s: Sys, i: nat, a: nat) returns (t: Sys, m: Move)
    requires Offers(s, i, a) && s.passes[i].rest[a].key in s.past.acked
    ensures May(cfg, s, t) && CanMove(cfg, t, m) && Redelivers(cfg, t, m)
  {
    hide May, CanMove, Delivers, IsNumeric;
    t := ToEntry(cfg, s, i, a);
    assert t.passes[i].rest[0] == s.passes[i].rest[a];
    m := CallDelivers(cfg, t, i);
  }

  lemma {:induction false} MayThen(cfg: Config, s: Sys, moves: seq<Move>, t: Sys, u: Sys)
    requires IsPath(cfg, s, moves, t) && May(cfg, t, u)
    ensures May(cfg, s, u)
    decreases |moves|
  {
    hide May, CanMove, Moved, IsRead;
    if moves != [] {
      MayThen(cfg, Moved(cfg, s, moves[0]), moves[1..], t, u);
      MayFirst(cfg, s, moves[0], u);
    }
  }

  lemma MayOver(cfg: Config, s: Sys, t: Sys, u: Sys)
    requires May(cfg, s, t) && May(cfg, t, u)
    ensures May(cfg, s, u)
  {
    hide IsPath;
    var moves :| IsPath(cfg, s, moves, t);
    MayThen(cfg, s, moves, t, u);
  }

  /** Pass i may deliver its entry a, and no other pass moves. */
  lemma FirstDelivery(cfg: Config, s: Sys, i: nat, a: nat) returns (t: Sys)
    requires Offers(s, i, a)
    ensures May(cfg, s, t) && |t.passes| == |s.passes| && s.passes[i].rest[a].key in t.past.acked
    ensures forall j :: 0 <= j < |s.passes| && j != i ==> t.passes[j] == s.passes[j]
  {
    hide May, IsNumeric;
    var u := ToEntry(cfg, s, i, a);
    assert u.passes[i].rest[0] == s.passes[i].rest[a];
    var m := CallDelivers(cfg, u, i);
    t := Moved(cfg, u, m);
    MaySelf(cfg, t);
    MayFirst(cfg, u, m, t);
    MayOver(cfg, s, u, t);
  }

  /** An event that two passes offer may be delivered by both. */
  lemma BothDeliver(cfg: Config, s: Sys, i: nat, a: nat, j: nat, b: nat) returns (t: Sys, m: Move)
    requires Offers(s, i, a) && Offers(s, j, b) && i != j && s.passes[i].rest[a].key == s.passes[j].rest[b].key
    ensures May(cfg, s, t) && CanMove(cfg, t, m) && Redelivers(cfg, t, m)
  {
    hide May, CanMove, Redelivers, IsNumeric;
    var u := FirstDelivery(cfg, s, i, a);
    assert Offers(u, j, b);
    t, m := AckedAgain(cfg, u, j, b);
    MayOver(cfg, s, u, t);
  }

  // ---------- exactly when ----------

  /** Until another query is answered nothing is delivered twice, exactly when the passes share nothing. */
  lemma DeliveredOnceExactly(cfg: Config, s: Sys)
    requires SnapshotsSorted(s)
    ensures NeverAgain(cfg, s) <==> Unshared(s)
  {
    hide May, CanMove, Redelivers, SnapshotsSorted;
    if Unshared(s) {
      forall t, m | May(cfg, s, t) && CanMove(cfg, t, m) ensures !Redelivers(cfg, t, m) {
        MayKeepsUnshared(cfg, s, t);
        UnsharedCall(cfg, t, m);
      }
    } else if i, a :| Offers(s, i, a) && s.passes[i].rest[a].key in s.past.acked {
      var t, m := AckedAgain(cfg, s, i, a);
    } else {
      var i, a, j, b :| Offers(s, i, a) && Offers(s, j, b) && i != j && s.passes[i].rest[a].key == s.passes[j].rest[b].key;
      var t, m := BothDeliver(cfg, s, i, a, j, b);
    }
  }

  lemma MayKeepsUnshared(cfg: Config, s: Sys, t: Sys)
    requires Unshared(s) && SnapshotsSorted(s) && May(cfg, s, t)
    ensures Unshared(t)
  {
    hide Unshared, SnapshotsSorted, IsPath;
    var moves :| IsPath(cfg, s, moves, t);
    PathKeepsUnshared(cfg, s, moves, t);
  }

  lemma UnsharedCall(cfg: Config, t: Sys, m: Move)
    requires Unshared(t)
    ensures !Redelivers(cfg, t, m)
  {
    if Redelivers(cfg, t, m) {
      DeliversOffered(cfg, t, m);
    }
  }

  /** The entries a query would read now are neither acknowledged nor offered by a pass still running. */
  ghost predicate IsApart(s: Sys) {
    var b := BucketOf(s.store, EVENTS);
    forall n :: 0 <= n < |b| && IsNumeric(b[n].key) ==>
      b[n].key !in s.past.acked && forall i, a :: Offers(s, i, a) ==> s.passes[i].rest[a].key != b[n].key
  }

  /** Answering a query keeps the passes apart exactly when what it reads is. */
  lemma ReadKeepsUnshared(s: Sys)
    requires s.queue != [] && s.queue[0] == Read
    ensures Unshared(Served(s, true)) <==> (Unshared(s) && IsApart(s))
  {
    var t, b, n := Served(s, true), BucketOf(s.store, EVENTS), |s.passes|;
    EmptyPrefix(b, false);
    assert t.passes == s.passes + [Pass(b, 0, [])] && t.past.acked == s.past.acked;
    hide Served, BucketOf, Scan, IsNumeric;
    forall i, a ensures Offers(t, i, a) <==> (Offers(s, i, a) || (i == n && 0 <= a < |b| && IsNumeric(b[a].key))) {
    }
    if Unshared(t) {
      forall i, a | Offers(s, i, a) ensures s.passes[i].rest[a].key !in s.past.acked {
        assert Offers(t, i, a);
      }
      forall i, a, j, c | Offers(s, i, a) && Offers(s, j, c) && i != j ensures s.passes[i].rest[a].key != s.passes[j].rest[c].key {
        assert Offers(t, i, a) && Offers(t, j, c);
      }
      forall c | 0 <= c < |b| && IsNumeric(b[c].key)
        ensures b[c].key !in s.past.acked && forall i, a :: Offers(s, i, a) ==> s.passes[i].rest[a].key != b[c].key
      {
        assert Offers(t, n, c);
        forall i, a | Offers(s, i, a) ensures s.passes[i].rest[a].key != b[c].key {
          assert Offers(t, i, a);
        }
      }
    }
  }

  /** Two requests for a pass before the first one's query is answered: every stored event may be sent twice. */
  lemma EventsCanBeSentTwice(cfg: Config, s: Sys, n: nat) returns (r: Sys, t: Sys, m: Move)
    requires IsStart(cfg, s) && n < |BucketOf(s.store, EVENTS)| && IsNumeric(BucketOf(s.store, EVENTS)[n].key)
    ensures var moves := [VerifyReplay(true), VerifyReplay(true), Serve(true), Serve(true)];
      && IsHistory(cfg, s, moves) && r == Final(cfg, s, moves)
      && May(cfg, r, t) && CanMove(cfg, t, m) && Redelivers(cfg, t, m)
  {
    var b := BucketOf(s.store, EVENTS);
    EmptyPrefix(b, false);
    hide BucketOf, Scan, May, Redelivers, IsNumeric;
    var moves := [VerifyReplay(true), VerifyReplay(true), Serve(true), Serve(true)];
    var s1 := Moved(cfg, s, moves[0]);
    var s2 := Moved(cfg, s1, moves[1]);
    var s3 := Moved(cfg, s2, moves[2]);
    r := Moved(cfg, s3, moves[3]);
    assert moves[1..][1..][1..] == [moves[3]] && moves[1..][1..] == [moves[2], moves[3]] && [moves[3]][1..] == [];
    assert IsHistory(cfg, r, []) && Final(cfg, r, []) == r;
    assert IsHistory(cfg, s3, [moves[3]]) && Final(cfg, s3, [moves[3]]) == r;
    assert IsHistory(cfg, s2, moves[1..][1..]) && Final(cfg, s2, moves[1..][1..]) == r;
    assert r.passes == [Pass(b, 0, []), Pass(b, 0, [])];
    assert Offers(r, 0, n) && Offers(r, 1, n);
    t, m := BothDeliver(cfg, r, 0, n, 1, n);
  }
}
