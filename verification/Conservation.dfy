/**
 Store and forward as a system: the remote actor, the messages queued for the database actor, its store,
 and the query children still running, with every interleaving of their steps.

 A message may be served with or without effect: the database actor drops requests while it is not in its
 wait state, and transactions fail. Module Deployment says which happens when. Identifiers are fresh.
 */
module Conservation {
  import opened MachineInts
  import opened Options
  import opened Buckets
  import opened Repo
  import opened Lifecycle
  import opened Decimal
  import opened Replay
  import opened Lanes

  /** A query child: entries of its snapshot still to come, the closure's counter, messages not yet sent. */
  datatype Pass = Pass(rest: seq<Entry>, count: nat, outbox: seq<Op>)

  /** An event handed to the remote actor, with the state and the answers it met there. */
  datatype Receipt = Receipt(data: seq<byte>, now: nat, remote: Remote, answer: Answer, opens: bool)

  datatype Sys = Sys(store: Store, queue: seq<Op>, passes: seq<Pass>, remote: Remote, past: Past, received: seq<Receipt>)

  datatype Move =
    | Event(data: seq<byte>, now: nat, answer: Answer, opens: bool) // RemoteMSG2 reaches the remote actor
    | Reconnect
    | VerifyReplay(opens: bool)
    | Serve(effect: bool)                                           // the database actor takes its next request
    | Call(i: nat, clock: int, answer: Answer)                      // child i runs the closure on its next entry
    | Post(i: nat)                                                 // child i's next message is sent
    | Miss(i: nat)                                                  // child i is never offered its next entry
    | Abandon(i: nat)                                               // child i gets no further entries

  /** A transaction that meets no fault. */
  const SUCCEEDS := Env(true, None, [])

  /** An identifier not used before: not for an event, and under no collection of the file. */
  ghost predicate Fresh(s: Sys, k: Key) {
    k !in s.past.minted && forall c :: Lookup(s.store, c, k) == None
  }

  ghost predicate CanMove(cfg: Config, s: Sys, m: Move) {
    match m
    case Event(data, now, answer, opens) =>
      now < TWO_63 && (Live(cfg, s.remote, data, now, answer, opens).1 != [] ==> Fresh(s, Dec(now)))
    case Reconnect => true
    case VerifyReplay(_) => true
    case Serve(_) => s.queue != []
    case Call(i, _, _) => i < |s.passes| && s.passes[i].rest != [] && s.passes[i].outbox == []
    case Post(i) => i < |s.passes| && s.passes[i].outbox != []
    case Miss(i) => i < |s.passes| && s.passes[i].rest != []
    case Abandon(i) => i < |s.passes|
  }

  function Moved(cfg: Config, s: Sys, m: Move): Sys
    requires CanMove(cfg, s, m)
  {
    match m
    case Event(data, now, answer, opens) =>
      var (remote, sent) := Live(cfg, s.remote, data, now, answer, opens);
      var t := s.(remote := remote, received := s.received + [Receipt(data, now, s.remote, answer, opens)]);
      if sent == [] then t
      else t.(queue := s.queue + sent, past := s.past.(minted := s.past.minted[Dec(now) := data]))
    case Reconnect => s.(remote := s.remote.(isConnected := true))
    case VerifyReplay(opens) =>
      var (remote, starts) := Verify(s.remote, opens);
      s.(remote := remote, queue := if starts then s.queue + [Read] else s.queue)
    case Serve(effect) => Served(s, effect)
    case Call(i, clock, answer) =>
      var p := s.passes[i];
      var e := Callback(cfg, s.remote.isConnected, s.remote.retryFlag, p.count, p.rest[0], clock, answer);
      s.(passes := s.passes[i := Pass(p.rest[1..], e.count, e.sent)],
         remote := s.remote.(retryFlag := e.retryFlag),
         past := if e.acked then s.past.(acked := s.past.acked + {p.rest[0].key}) else s.past)
    case Post(i) =>
      var p := s.passes[i];
      s.(passes := s.passes[i := p.(outbox := p.outbox[1..])], queue := s.queue + [p.outbox[0]])
    case Miss(i) => s.(passes := s.passes[i := s.passes[i].(rest := s.passes[i].rest[1..])])
    case Abandon(i) => s.(passes := s.passes[i := s.passes[i].(rest := [])])
  }

  /** The store after a transaction that meets no fault. */
  function Applied(st: Store, op: Op): Store {
    Transact(st, op, SUCCEEDS).1
  }

  /** A query opens a snapshot of `events` in key order; any other request is one transaction. */
  function Served(s: Sys, effect: bool): Sys
    requires s.queue != []
  {
    var op := s.queue[0];
    var t := s.(queue := s.queue[1..], past := Recorded(s.past, op, effect));
    if !effect then t
    else if op == Read then t.(passes := s.passes + [Pass(Scan(BucketOf(s.store, EVENTS), [], false), 0, [])])
    else t.(store := Applied(s.store, op))
  }

  ghost predicate IsHistory(cfg: Config, s: Sys, moves: seq<Move>)
    decreases |moves|
  {
    moves == [] || (CanMove(cfg, s, moves[0]) && IsHistory(cfg, Moved(cfg, s, moves[0]), moves[1..]))
  }

  function Final(cfg: Config, s: Sys, moves: seq<Move>): Sys
    requires IsHistory(cfg, s, moves)
    decreases |moves|
  {
    if moves == [] then s else Final(cfg, Moved(cfg, s, moves[0]), moves[1..])
  }

  // ---------- what is conserved ----------

  predicate IsArchived(cfg: Config, s: Sys, k: Key)
    requires k in s.past.minted && IsNumeric(k)
  {
    Lookup(s.store, ArchiveFor(cfg, k), k) == Some(s.past.minted[k])
  }

  /** The event is in `events`, on its way there, answered by the client, or in its dated archive. */
  predicate IsKept(cfg: Config, s: Sys, k: Key)
    requires k in s.past.minted && IsNumeric(k)
  {
    || Lookup(s.store, EVENTS, k) == Some(s.past.minted[k])
    || LiveWrite(s.past, k) in s.queue
    || k in s.past.acked
    || IsArchived(cfg, s, k)
  }

  /**
   The write that should have stored the event had no effect; or the one that should have archived it
   had none, and its delete had.
   */
  predicate IsLost(cfg: Config, p: Past, k: Key)
    requires k in p.minted && IsNumeric(k)
  {
    && k !in p.acked && ArchiveWrite(cfg, p, k) !in p.done
    && (LiveWrite(p, k) in p.missed || (ArchiveWrite(cfg, p, k) in p.missed && Removal(k) in p.done))
  }

  // ---------- the invariant ----------

  ghost predicate PassOk(cfg: Config, s: Sys, p: Pass) {
    && (forall e :: e in p.rest ==> EntryOk(s.past, e))
    && (forall op :: op in p.outbox ==> !IsLive(op))
    && LaneOk(cfg, s.past, s.queue + p.outbox)
  }

  /** Everything under way respects the past. */
  ghost predicate FlightOk(cfg: Config, s: Sys) {
    LaneOk(cfg, s.past, s.queue) && forall p :: p in s.passes ==> PassOk(cfg, s, p)
  }

  /** The write that stores an event is sent and served once. */
  ghost predicate LiveOnce(s: Sys) {
    forall i :: 0 <= i < |s.queue| && IsLive(s.queue[i]) ==>
      s.queue[i] !in s.past.done + s.past.missed && s.queue[i] !in s.queue[..i]
  }

  ghost predicate PastOk(p: Past) {
    && (forall k :: k in p.minted ==> IsNumeric(k))
    && (forall op :: op in p.done + p.missed ==>
          (op.Update? ==> op.id in p.minted) && (op.Delete? && IsNumeric(op.id) ==> op.id in p.minted))
  }

  /** Where the event is follows from which of its messages had effect. */
  predicate Balanced(cfg: Config, s: Sys, k: Key)
    requires k in s.past.minted && IsNumeric(k)
  {
    var p := s.past;
    var live, archive := LiveWrite(p, k), ArchiveWrite(cfg, p, k);
    && Lookup(s.store, EVENTS, k) == (if live in p.done && Removal(k) !in p.done then Some(p.minted[k]) else None)
    && (IsArchived(cfg, s, k) <==> archive in p.done)
    && (live in s.queue || live in p.done || live in p.missed) && !(live in p.done && live in p.missed)
    && (Removal(k) in p.done ==> live in p.done && (k in p.acked || archive in p.done + p.missed))
  }

  ghost predicate StoreOk(cfg: Config, s: Sys) {
    && StoreSorted(s.store)
    && (forall e :: e in BucketOf(s.store, EVENTS) ==> EntryOk(s.past, e))
    && (forall k :: k in s.past.minted ==> IsNumeric(k) && Balanced(cfg, s, k))
  }

  /** A received event that had to be stored was. */
  predicate ReceiptOk(cfg: Config, p: Past, r: Receipt) {
    IsWritten(cfg, r) ==> Dec(r.now) in p.minted && p.minted[Dec(r.now)] == r.data
  }

  ghost predicate Inv(cfg: Config, s: Sys) {
    && FlightOk(cfg, s) && LiveOnce(s) && PastOk(s.past) && StoreOk(cfg, s)
    && (forall r :: r in s.received ==> ReceiptOk(cfg, s.past, r))
  }

  /** The remote actor sends a write of the event. */
  predicate IsWritten(cfg: Config, r: Receipt) {
    !SendSucceeds(r.remote, r.answer) && !cfg.disableReplay && Reopened(r.remote, r.opens).isDatabaseOpen
  }

  // ---------- serving a message ----------

  lemma ServeFlight(cfg: Config, s: Sys, effect: bool)
    requires FlightOk(cfg, s) && StoreOk(cfg, s) && s.queue != []
    ensures FlightOk(cfg, Served(s, effect))
  {
    hide LaneOk, EntryOk, Balanced, IsLive, Applied, Follows;
    var op, t := s.queue[0], Served(s, effect);
    FollowsRecorded(s.past, op, effect);
    LaneServed(cfg, s.past, s.queue, effect);
    forall p | p in t.passes ensures PassOk(cfg, t, p) {
      if p in s.passes {
        assert PassOk(cfg, s, p);
        var lane := s.queue + p.outbox;
        LaneServed(cfg, s.past, lane, effect);
        assert lane[1..] == t.queue + p.outbox;
      } else {
        EmptyPrefix(BucketOf(s.store, EVENTS), false);
        assert t.queue + p.outbox == t.queue;
      }
      forall e | e in p.rest ensures EntryOk(t.past, e) {
        EntryLater(s.past, t.past, e);
      }
    }
  }

  lemma ServeOnce(s: Sys, effect: bool)
    requires LiveOnce(s) && s.queue != []
    ensures LiveOnce(Served(s, effect))
  {
    var t := Served(s, effect);
    assert t.queue == s.queue[1..];
    forall i | 0 <= i < |t.queue| && IsLive(t.queue[i])
      ensures t.queue[i] !in t.past.done + t.past.missed && t.queue[i] !in t.queue[..i]
    {
      assert s.queue[i + 1] == t.queue[i];
      assert s.queue[..i + 1] == [s.queue[0]] + t.queue[..i];
    }
  }

  lemma ServePast(cfg: Config, s: Sys, effect: bool)
    requires PastOk(s.past) && s.queue != [] && GoodOp(cfg, s.past, s.queue[0])
    ensures PastOk(Served(s, effect).past)
  {
    hide ParseInt;
  }

  /** What one served write does to any key. */
  function LookupAfter(st: Store, op: Op, c: string, q: Key): Option<seq<byte>> {
    match op
    case Update(k, d, cc) => if c == cc && q == k then Some(d) else Lookup(st, c, q)
    case Delete(k, cc) => if c == cc && q == k then None else Lookup(st, c, q)
    case _ => Lookup(st, c, q)
  }

  lemma AppliedLookup(cfg: Config, p: Past, st: Store, op: Op, c: string, q: Key)
    requires StoreSorted(st) && GoodOp(cfg, p, op)
    ensures Lookup(Applied(st, op), c, q) == LookupAfter(st, op, c, q)
  {
    hide ParseInt, BucketOf;
    match op
    case Update(k, d, cc) =>
      AppliedWrite(cfg, p, st, k, d, cc);
      LookupWrite(st, cc, k, d, c, q);
    case Delete(k, cc) =>
      LookupErase(st, cc, k, c, q);
      assert Applied(st, op) == Erase(st, cc, k);
    case Read =>
  }

  lemma AppliedWrite(cfg: Config, p: Past, st: Store, k: Key, d: seq<byte>, c: string)
    requires GoodOp(cfg, p, Update(k, d, c))
    ensures Applied(st, Update(k, d, c)) == Write(st, c, k, d)
  {
    ArchiveIsNotEvents(cfg, ParseInt(k).value);
    assert |EVENTS| == 6;
  }

  lemma AppliedEntries(cfg: Config, s: Sys, op: Op, e: Entry)
    requires StoreOk(cfg, s) && GoodOp(cfg, s.past, op) && e in BucketOf(Applied(s.store, op), EVENTS)
    ensures EntryOk(Recorded(s.past, op, true), e)
  {
    hide ParseInt, Balanced;
    var b, q := BucketOf(s.store, EVENTS), Recorded(s.past, op, true);
    FollowsRecorded(s.past, op, true);
    match op
    case Update(k, d, c) =>
      AppliedWrite(cfg, s.past, s.store, k, d, c);
      if c == EVENTS {
        PutMembers(b, k, d, e);
      } else {
        ArchiveIsNotEvents(cfg, ParseInt(k).value);
      }
      if e in b {
        EntryLater(s.past, q, e);
      }
    case Delete(k, c) =>
      if EVENTS in s.store {
        DeleteMembers(b, k, e);
      }
      EntryLater(s.past, q, e);
    case Read =>
      EntryLater(s.past, q, e);
  }

  /** Which messages decide where k is after one of them had effect. */
  lemma ServedLookups(cfg: Config, s: Sys, op: Op, k: Key)
    requires StoreSorted(s.store) && GoodOp(cfg, s.past, op) && k in s.past.minted && IsNumeric(k)
    ensures var st := Applied(s.store, op);
      && Lookup(st, EVENTS, k) == (if op == LiveWrite(s.past, k) then Some(s.past.minted[k])
                                   else if op == Removal(k) then None else Lookup(s.store, EVENTS, k))
      && Lookup(st, ArchiveFor(cfg, k), k)
         == (if op == ArchiveWrite(cfg, s.past, k) then Some(s.past.minted[k]) else Lookup(s.store, ArchiveFor(cfg, k), k))
  {
    AppliedLookup(cfg, s.past, s.store, op, EVENTS, k);
    AppliedLookup(cfg, s.past, s.store, op, ArchiveFor(cfg, k), k);
    ArchiveIsNotEvents(cfg, ParseInt(k).value);
    hide ParseInt, ArchiveOf, Applied, Lookup;
  }

  /** The books of every event stay balanced when a message is served. */
  lemma ServeBalances(cfg: Config, s: Sys, effect: bool, k: Key)
    requires Inv(cfg, s) && s.queue != [] && k in s.past.minted && IsNumeric(k)
    ensures Balanced(cfg, Served(s, effect), k)
  {
    var op, t := s.queue[0], Served(s, effect);
    assert Balanced(cfg, s, k);
    QueueHead(cfg, s, k);
    ServedStore(s, effect);
    ServedLookups(cfg, s, op, k);
    ArchiveIsNotEvents(cfg, ParseInt(k).value);
    hide *;
    BooksStep(cfg, s, t, op, effect, k);
  }

  lemma BooksStep(cfg: Config, s: Sys, t: Sys, op: Op, effect: bool, k: Key)
    requires k in s.past.minted && IsNumeric(k) && Balanced(cfg, s, k) && ArchiveFor(cfg, k) != EVENTS
    requires s.queue != [] && op == s.queue[0] && t.queue == s.queue[1..] && t.past == Recorded(s.past, op, effect)
    requires op == LiveWrite(s.past, k) ==> op !in s.past.done + s.past.missed
    requires op == Removal(k) ==> LiveWrite(s.past, k) in s.past.done
    requires op == Removal(k) ==> k in s.past.acked || ArchiveWrite(cfg, s.past, k) in s.past.done + s.past.missed
    requires Lookup(t.store, EVENTS, k) == (if effect && op == LiveWrite(s.past, k) then Some(s.past.minted[k])
      else if effect && op == Removal(k) then None else Lookup(s.store, EVENTS, k))
    requires Lookup(t.store, ArchiveFor(cfg, k), k)
      == (if effect && op == ArchiveWrite(cfg, s.past, k) then Some(s.past.minted[k]) else Lookup(s.store, ArchiveFor(cfg, k), k))
    ensures Balanced(cfg, t, k)
  {
    hide ParseInt, ArchiveFor, Lookup;
    assert s.queue == [op] + t.queue;
  }

  lemma ServedStore(s: Sys, effect: bool)
    requires s.queue != []
    ensures Served(s, effect).store == if effect && s.queue[0] != Read then Applied(s.store, s.queue[0]) else s.store
    ensures Served(s, effect).past == Recorded(s.past, s.queue[0], effect)
    ensures Served(s, effect).queue == s.queue[1..]
  {
  }

  /** What the invariant says of the next message where it concerns k. */
  lemma QueueHead(cfg: Config, s: Sys, k: Key)
    requires Inv(cfg, s) && s.queue != [] && k in s.past.minted && IsNumeric(k)
    ensures GoodOp(cfg, s.past, s.queue[0])
    ensures s.queue[0] == LiveWrite(s.past, k) ==> s.queue[0] !in s.past.done + s.past.missed
    ensures s.queue[0] == Removal(k) ==> LiveWrite(s.past, k) in s.past.done
    ensures s.queue[0] == Removal(k) ==> k in s.past.acked || ArchiveWrite(cfg, s.past, k) in s.past.done + s.past.missed
  {
    assert s.queue[0] in s.queue && s.queue[..0] == [];
    if s.queue[0] == Removal(k) {
      assert Covered(cfg, s.past, s.queue[..0], k);
    }
  }

  lemma ServeStore(cfg: Config, s: Sys, effect: bool)
    requires Inv(cfg, s) && s.queue != []
    ensures StoreOk(cfg, Served(s, effect))
  {
    var op, t := s.queue[0], Served(s, effect);
    ServedStore(s, effect);
    assert op in s.queue && GoodOp(cfg, s.past, op);
    hide Balanced, GoodOp, EntryOk, IsNumeric;
    if t.store != s.store {
      TransactSorted(s.store, op, SUCCEEDS);
    }
    forall e | e in BucketOf(t.store, EVENTS) ensures EntryOk(t.past, e) {
      if effect && op != Read {
        AppliedEntries(cfg, s, op, e);
      } else {
        FollowsRecorded(s.past, op, effect);
        EntryLater(s.past, t.past, e);
      }
    }
    forall k | k in t.past.minted ensures IsNumeric(k) && Balanced(cfg, t, k) {
      ServeBalances(cfg, s, effect, k);
    }
  }

  /** Serving a message keeps the invariant, whether or not it has effect. */
  lemma ServeKeeps(cfg: Config, s: Sys, effect: bool)
    requires Inv(cfg, s) && s.queue != []
    ensures Inv(cfg, Served(s, effect))
  {
    var op := s.queue[0];
    assert op in s.queue && GoodOp(cfg, s.past, op);
    ServeFlight(cfg, s, effect);
    ServeOnce(s, effect);
    ServePast(cfg, s, effect);
    ServeStore(cfg, s, effect);
    ServedStore(s, effect);
    FollowsRecorded(s.past, op, effect);
    hide FlightOk, LiveOnce, PastOk, StoreOk;
  }

  // ---------- the other moves ----------

  /** The moves that only touch the remote actor or drop entries of a snapshot. */
  lemma QuietMove(cfg: Config, s: Sys, t: Sys, i: nat, rest: seq<Entry>)
    requires Inv(cfg, s) && (i < |s.passes| ==> forall e :: e in rest ==> e in s.passes[i].rest)
    requires t == s.(remote := t.remote, received := t.received,
                     passes := if i < |s.passes| then s.passes[i := s.passes[i].(rest := rest)] else s.passes)
    requires forall r :: r in t.received ==> r in s.received || !IsWritten(cfg, r)
    ensures Inv(cfg, t)
  {
    hide LaneOk, EntryOk, IsNumeric;
    forall p | p in t.passes ensures PassOk(cfg, t, p) {
      if i < |s.passes| && p == t.passes[i] {
        assert PassOk(cfg, s, s.passes[i]);
      } else {
        assert p in s.passes;
      }
    }
    StoreFrame(cfg, s, t);
  }

  /** The store's part of the invariant looks at the store, the past and the queue's live writes. */
  lemma StoreFrame(cfg: Config, s: Sys, t: Sys)
    requires StoreOk(cfg, s) && t.store == s.store && t.past == s.past
    requires forall op :: op in s.queue ==> op in t.queue
    ensures StoreOk(cfg, t)
  {
    hide ParseInt, EntryOk, Lookup;
    forall k | k in t.past.minted ensures IsNumeric(k) && Balanced(cfg, t, k) {
      assert Balanced(cfg, s, k);
    }
  }

  /** A message without deletes joins the mailbox ahead of what the children have yet to send. */
  lemma EnqueueFlight(cfg: Config, s: Sys, t: Sys, op: Op)
    requires FlightOk(cfg, s) && GoodOp(cfg, t.past, op) && !op.Delete? && Follows(s.past, t.past)
    requires t.passes == s.passes && t.queue == s.queue + [op]
    ensures FlightOk(cfg, t)
  {
    hide LaneOk, EntryOk, GoodOp, Follows, IsNumeric, IsLive;
    LaneLater(cfg, s.past, t.past, s.queue);
    LaneAppend(cfg, t.past, s.queue, op);
    forall p | p in t.passes ensures PassOk(cfg, t, p) {
      assert PassOk(cfg, s, p);
      LaneLater(cfg, s.past, t.past, s.queue + p.outbox);
      LaneInsert(cfg, t.past, s.queue, op, p.outbox);
      forall e | e in p.rest ensures EntryOk(t.past, e) {
        EntryLater(s.past, t.past, e);
      }
    }
  }

  lemma VerifyKeeps(cfg: Config, s: Sys, m: Move)
    requires Inv(cfg, s) && m.VerifyReplay?
    ensures Inv(cfg, Moved(cfg, s, m))
  {
    var t := Moved(cfg, s, m);
    if Verify(s.remote, m.opens).1 {
      EnqueueFlight(cfg, s, t, Read);
      StoreFrame(cfg, s, t);
      hide FlightOk, StoreOk, PastOk, ReceiptOk;
    } else {
      QuietMove(cfg, s, t, |s.passes|, []);
    }
  }

  /** Minting follows: nothing so far mentions the fresh identifier. */
  lemma MintFollows(p: Past, k: Key, d: seq<byte>)
    requires k !in p.minted
    ensures Follows(p, p.(minted := p.minted[k := d]))
  {
  }

  lemma MintOnce(cfg: Config, s: Sys, t: Sys, k: Key)
    requires LiveOnce(s) && LaneOk(cfg, s.past, s.queue) && PastOk(s.past) && k !in s.past.minted
    requires k in t.past.minted && t.past.done == s.past.done && t.past.missed == s.past.missed
    requires t.queue == s.queue + [LiveWrite(t.past, k)]
    ensures LiveOnce(t)
  {
    hide ParseInt;
    var op := LiveWrite(t.past, k);
    assert op !in s.queue && op !in s.past.done + s.past.missed by {
      assert !GoodOp(cfg, s.past, op);
    }
    forall i | 0 <= i < |t.queue| && IsLive(t.queue[i])
      ensures t.queue[i] !in t.past.done + t.past.missed && t.queue[i] !in t.queue[..i]
    {
      assert t.queue[..i] == s.queue[..i];
      if i < |s.queue| {
        assert t.queue[i] == s.queue[i];
      }
    }
  }

  lemma MintStore(cfg: Config, s: Sys, t: Sys, k: Key, d: seq<byte>)
    requires StoreOk(cfg, s) && PastOk(s.past) && Fresh(s, k) && IsNumeric(k)
    requires t.store == s.store && t.past == s.past.(minted := s.past.minted[k := d])
    requires t.queue == s.queue + [LiveWrite(t.past, k)]
    ensures StoreOk(cfg, t)
  {
    hide ParseInt, Lookup;
    MintFollows(s.past, k, d);
    forall e | e in BucketOf(t.store, EVENTS) ensures EntryOk(t.past, e) {
      EntryLater(s.past, t.past, e);
    }
    hide EntryOk;
    forall q | q in t.past.minted ensures IsNumeric(q) && Balanced(cfg, t, q) {
      if q == k {
        assert Removal(k) !in s.past.done && LiveWrite(t.past, k) !in s.past.done + s.past.missed;
        assert Lookup(s.store, EVENTS, k) == None && Lookup(s.store, ArchiveFor(cfg, k), k) == None;
      } else {
        assert Balanced(cfg, s, q);
      }
    }
  }

  lemma EventKeeps(cfg: Config, s: Sys, m: Move)
    requires Inv(cfg, s) && m.Event? && CanMove(cfg, s, m)
    ensures Inv(cfg, Moved(cfg, s, m))
  {
    var (remote, sent) := Live(cfg, s.remote, m.data, m.now, m.answer, m.opens);
    var t := Moved(cfg, s, m);
    var r := Receipt(m.data, m.now, s.remote, m.answer, m.opens);
    assert sent == if IsWritten(cfg, r) then [Update(Dec(m.now), m.data, EVENTS)] else [];
    hide FlightOk, StoreOk, PastOk, LiveOnce;
    if sent == [] {
      QuietMove(cfg, s, t, |s.passes|, []);
    } else {
      var k := Dec(m.now);
      ParseMinted(m.now);
      MintFollows(s.past, k, m.data);
      assert sent == [LiveWrite(t.past, k)];
      EnqueueFlight(cfg, s, t, LiveWrite(t.past, k));
      assert LaneOk(cfg, s.past, s.queue) by { FlightLane(cfg, s); }
      MintOnce(cfg, s, t, k);
      MintPast(s.past, k, m.data);
      MintStore(cfg, s, t, k, m.data);
      forall q | q in t.received ensures ReceiptOk(cfg, t.past, q) {
        assert q in s.received || q == r;
      }
    }
  }

  lemma FlightLane(cfg: Config, s: Sys)
    requires FlightOk(cfg, s)
    ensures LaneOk(cfg, s.past, s.queue)
  {
  }

  lemma MintPast(p: Past, k: Key, d: seq<byte>)
    requires PastOk(p) && IsNumeric(k)
    ensures PastOk(p.(minted := p.minted[k := d]))
  {
  }

  /** What the closure sends is good, and its deletes are covered when their turn comes. */
  lemma CallKeeps(cfg: Config, s: Sys, m: Move)
    requires Inv(cfg, s) && m.Call? && CanMove(cfg, s, m)
    ensures Inv(cfg, Moved(cfg, s, m))
  {
    CallMoves(cfg, s, m);
    hide Moved, Callback, LaneOk, EntryOk, Follows, IsNumeric, Balanced, IsLive, StoreOk, PastOk;
    var t, p := Moved(cfg, s, m), s.passes[m.i];
    assert p in s.passes && PassOk(cfg, s, p) && EntryOk(s.past, p.rest[0]);
    hide FlightOk, PassOk;
    CallLane(cfg, s, t, p.rest[0], t.passes[m.i].outbox, m);
    CallFlight(cfg, s, t, m.i);
    CallStore(cfg, s, t);
  }

  /** What a call changes. */
  lemma CallMoves(cfg: Config, s: Sys, m: Move)
    requires m.Call? && CanMove(cfg, s, m)
    ensures var t, p := Moved(cfg, s, m), s.passes[m.i];
      var f := Callback(cfg, s.remote.isConnected, s.remote.retryFlag, p.count, p.rest[0], m.clock, m.answer);
      && t.store == s.store && t.queue == s.queue && t.received == s.received
      && t.passes == s.passes[m.i := Pass(p.rest[1..], f.count, f.sent)]
      && t.past == s.past.(acked := t.past.acked) && s.past.acked <= t.past.acked && Follows(s.past, t.past)
      && (f.acked ==> p.rest[0].key in t.past.acked)
  {
    hide Callback, CanMove;
  }

  lemma CallFlight(cfg: Config, s: Sys, t: Sys, i: nat)
    requires FlightOk(cfg, s) && Follows(s.past, t.past) && t.queue == s.queue && i < |s.passes| && s.passes[i].rest != []
    requires |t.passes| == |s.passes| && t.passes == s.passes[i := t.passes[i]] && t.passes[i].rest == s.passes[i].rest[1..]
    requires LaneOk(cfg, t.past, t.queue + t.passes[i].outbox) && forall op :: op in t.passes[i].outbox ==> !IsLive(op)
    ensures FlightOk(cfg, t)
  {
    hide LaneOk, EntryOk, Follows, IsLive;
    forall q | q in t.passes ensures PassOk(cfg, t, q) {
      if q == t.passes[i] {
        PassLater(cfg, s, s.passes[i], t, q);
      } else {
        assert q in s.passes && PassOk(cfg, s, q);
        LaneLater(cfg, s.past, t.past, s.queue + q.outbox);
        PassLater(cfg, s, q, t, q);
      }
    }
    LaneLater(cfg, s.past, t.past, s.queue);
  }

  /** A pass stays in order as more happens, if what it has left to send does. */
  lemma PassLater(cfg: Config, s: Sys, p: Pass, t: Sys, q: Pass)
    requires PassOk(cfg, s, p) && Follows(s.past, t.past) && forall e :: e in q.rest ==> e in p.rest
    requires LaneOk(cfg, t.past, t.queue + q.outbox) && forall op :: op in q.outbox ==> !IsLive(op)
    ensures PassOk(cfg, t, q)
  {
    hide LaneOk, EntryOk, Follows;
    forall e | e in q.rest ensures EntryOk(t.past, e) {
      EntryLater(s.past, t.past, e);
    }
  }

  lemma CallStore(cfg: Config, s: Sys, t: Sys)
    requires StoreOk(cfg, s) && t.store == s.store && t.queue == s.queue
    requires t.past == s.past.(acked := t.past.acked) && s.past.acked <= t.past.acked
    ensures StoreOk(cfg, t)
  {
    hide ParseInt, Lookup;
    forall k | k in t.past.minted ensures IsNumeric(k) && Balanced(cfg, t, k) {
      assert Balanced(cfg, s, k);
    }
  }

  lemma CallLane(cfg: Config, s: Sys, t: Sys, e: Entry, sent: seq<Op>, m: Move)
    requires FlightOk(cfg, s) && EntryOk(s.past, e) && Follows(s.past, t.past) && t.queue == s.queue
    requires m.Call? && CanMove(cfg, s, m) && e == s.passes[m.i].rest[0]
    requires var f := Callback(cfg, s.remote.isConnected, s.remote.retryFlag, s.passes[m.i].count, e, m.clock, m.answer);
      sent == f.sent && (f.acked ==> e.key in t.past.acked)
    ensures LaneOk(cfg, t.past, t.queue + sent) && forall op :: op in sent ==> !IsLive(op)
  {
    var q, p := t.queue, t.past;
    var del := Removal(e.key);
    LaneLater(cfg, s.past, p, q);
    EntryLater(s.past, p, e);
    hide LaneOk, FlightOk, Follows;
    if sent == [] {
      assert q + sent == q;
    } else if sent == [del] {
      LaneAppend(cfg, p, q, del);
    } else {
      var tid := ParseInt(e.key).value;
      var up := Update(e.key, e.data, ArchiveOf(cfg, tid));
      ArchiveIsNotEvents(cfg, tid);
      LaneAppend(cfg, p, q, up);
      assert up in q + [up];
      LaneAppend(cfg, p, q + [up], del);
      assert q + sent == q + [up] + [del];
    }
  }

  lemma PostKeeps(cfg: Config, s: Sys, m: Move)
    requires Inv(cfg, s) && m.Post? && CanMove(cfg, s, m)
    ensures Inv(cfg, Moved(cfg, s, m))
  {
    var t, i := Moved(cfg, s, m), m.i;
    var out := s.passes[i].outbox;
    assert s.passes[i] in s.passes && PassOk(cfg, s, s.passes[i]);
    hide LaneOk, EntryOk, IsNumeric;
    assert s.queue + out == s.queue + [out[0]] + out[1..];
    LanePrefix(cfg, s.past, s.queue + [out[0]], out[1..]);
    forall p | p in t.passes ensures PassOk(cfg, t, p) {
      if p == t.passes[i] {
        assert t.queue + p.outbox == s.queue + out;
      } else {
        assert p in s.passes && PassOk(cfg, s, p);
        LaneInsert(cfg, s.past, s.queue, out[0], p.outbox);
      }
    }
    StoreFrame(cfg, s, t);
    assert LiveOnce(t) by {
      forall j | 0 <= j < |t.queue| && IsLive(t.queue[j])
        ensures t.queue[j] !in t.past.done + t.past.missed && t.queue[j] !in t.queue[..j]
      {
        assert j < |s.queue| && t.queue[j] == s.queue[j] && t.queue[..j] == s.queue[..j];
      }
    }
  }

  // ---------- every run ----------

  /** Each move keeps the invariant. */
  lemma MoveKeeps(cfg: Config, s: Sys, m: Move)
    requires Inv(cfg, s) && CanMove(cfg, s, m)
    ensures Inv(cfg, Moved(cfg, s, m))
  {
    hide Inv, Served;
    match m
    case Event(_, _, _, _) => EventKeeps(cfg, s, m);
    case Reconnect => QuietMove(cfg, s, Moved(cfg, s, m), |s.passes|, []);
    case VerifyReplay(opens) => VerifyKeeps(cfg, s, m);
    case Serve(effect) => ServeKeeps(cfg, s, effect);
    case Call(_, _, _) => CallKeeps(cfg, s, m);
    case Post(_) => PostKeeps(cfg, s, m);
    case Miss(i) => QuietMove(cfg, s, Moved(cfg, s, m), i, s.passes[i].rest[1..]);
    case Abandon(i) => QuietMove(cfg, s, Moved(cfg, s, m), i, []);
  }

  /** A start: whatever the file holds, with its numeric events counted as stored and its archives as written. */
  ghost predicate IsStart(cfg: Config, s: Sys) {
    var p := s.past;
    && StoreSorted(s.store) && s.queue == [] && s.passes == [] && s.received == []
    && p.acked == {} && p.missed == {}
    && (forall k :: k in p.minted <==> (IsNumeric(k) && Lookup(s.store, EVENTS, k) != None))
    && (forall k :: k in p.minted ==> Lookup(s.store, EVENTS, k) == Some(p.minted[k]))
    && (forall op :: op in p.done ==> op.Update? && op.id in p.minted)
    && (forall k :: k in p.minted ==> LiveWrite(p, k) in p.done && (IsArchived(cfg, s, k) <==> ArchiveWrite(cfg, p, k) in p.done))
  }

  lemma StartInv(cfg: Config, s: Sys)
    requires IsStart(cfg, s)
    ensures Inv(cfg, s)
  {
    hide ParseInt;
    forall e | e in BucketOf(s.store, EVENTS) ensures EntryOk(s.past, e) {
      GetMember(BucketOf(s.store, EVENTS), e);
    }
  }

  /** The invariant holds after every run. */
  lemma {:induction false} HistoryKeeps(cfg: Config, s: Sys, moves: seq<Move>)
    requires Inv(cfg, s) && IsHistory(cfg, s, moves)
    ensures Inv(cfg, Final(cfg, s, moves))
    decreases |moves|
  {
    hide Inv, Moved, CanMove;
    if moves != [] {
      MoveKeeps(cfg, s, moves[0]);
      HistoryKeeps(cfg, Moved(cfg, s, moves[0]), moves[1..]);
    }
  }

  /** In every state of a run, the stored events that are not kept are those whose writes came to nothing. */
  lemma LostExactly(cfg: Config, s: Sys, k: Key)
    requires Inv(cfg, s) && k in s.past.minted
    ensures IsNumeric(k) && (!IsKept(cfg, s, k) <==> IsLost(cfg, s.past, k))
  {
    assert Balanced(cfg, s, k);
    hide ParseInt;
    if LiveWrite(s.past, k) in s.queue {
      var i :| 0 <= i < |s.queue| && s.queue[i] == LiveWrite(s.past, k);
      assert IsLive(s.queue[i]);
    }
  }

  /**
   Conservation: after any run, every event that was ever stored, or found in the file at the start,
   is in `events`, on its way there, answered by the client, or in its dated archive, except for those
   the database actor took a write of without effect.
   */
  lemma NothingIsLost(cfg: Config, s: Sys, moves: seq<Move>, k: Key)
    requires IsStart(cfg, s) && IsHistory(cfg, s, moves) && k in Final(cfg, s, moves).past.minted
    ensures IsNumeric(k) && (IsKept(cfg, Final(cfg, s, moves), k) <==> !IsLost(cfg, Final(cfg, s, moves).past, k))
  {
    StartInv(cfg, s);
    HistoryKeeps(cfg, s, moves);
    LostExactly(cfg, Final(cfg, s, moves), k);
  }

  /** The event reached the client, or is kept for it. */
  predicate IsSafe(cfg: Config, s: Sys, r: Receipt)
    requires IsWritten(cfg, r) ==> Dec(r.now) in s.past.minted && IsNumeric(Dec(r.now))
  {
    Delivered(r.remote, r.answer) || (IsWritten(cfg, r) && IsKept(cfg, s, Dec(r.now)))
  }

  /**
   Every event the remote actor ever received, exactly: it is safe unless the client answered it with an
   error, or did not answer and the event had nowhere to be stored, or what was to store it came to nothing.
   */
  lemma ReceivedExactly(cfg: Config, s: Sys, r: Receipt)
    requires Inv(cfg, s) && r in s.received
    ensures IsWritten(cfg, r) ==> Dec(r.now) in s.past.minted && IsNumeric(Dec(r.now))
    ensures !IsSafe(cfg, s, r) <==>
      (|| (r.remote.isConnected && r.answer == AnsweredError)
       || (!SendSucceeds(r.remote, r.answer) && (cfg.disableReplay || !Reopened(r.remote, r.opens).isDatabaseOpen))
       || (IsWritten(cfg, r) && IsLost(cfg, s.past, Dec(r.now))))
  {
    assert ReceiptOk(cfg, s.past, r);
    if IsWritten(cfg, r) {
      LostExactly(cfg, s, Dec(r.now));
    }
  }

  /** With replay enabled, the database open and no write served in vain, every event is answered or kept. */
  lemma AnsweredOrStored(cfg: Config, s: Sys, r: Receipt)
    requires Inv(cfg, s) && r in s.received && !cfg.disableReplay && Reopened(r.remote, r.opens).isDatabaseOpen
    requires forall op :: op in s.past.missed ==> !op.Update?
    ensures IsWritten(cfg, r) ==> Dec(r.now) in s.past.minted && IsNumeric(Dec(r.now))
    ensures IsSafe(cfg, s, r) <==> !(r.remote.isConnected && r.answer == AnsweredError)
  {
    ReceivedExactly(cfg, s, r);
  }
}
