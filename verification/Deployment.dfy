/**
 The system of module Conservation running on the database actor of module Lifecycle: which messages
 have effect follows from the actor's state and from its transactions.
 */
module Deployment {
  import opened MachineInts
  import opened Options
  import opened Buckets
  import opened Repo
  import opened Lifecycle
  import opened Decimal
  import opened Replay
  import opened Lanes
  import opened Conservation

  datatype World = World(db: Db, passes: seq<Pass>, remote: Remote, past: Past, received: seq<Receipt>)

  datatype Turn =
    | RemoteTurn(m: Move)    // a move of the remote actor or of a query child
    | DatabaseTurn(env: Env) // the database actor handles its next message
    | ClientTurn(msg: Message) // someone else sends it a message that is not a request: open, close, flush, stop

  /** The requests in a mailbox. */
  function Requests(q: seq<Message>): seq<Op> {
    if q == [] then []
    else (match q[0] case Request(op, _) => [op] case _ => []) + Requests(q[1..])
  }

  /** Only live writes and queries await an answer. */
  function AsMessage(op: Op): Message {
    Request(op, IsLive(op) || op == Read)
  }

  function AsMessages(ops: seq<Op>): seq<Message> {
    if ops == [] then [] else [AsMessage(ops[0])] + AsMessages(ops[1..])
  }

  function View(w: World): Sys {
    Sys(w.db.store, Requests(w.db.mailbox), w.passes, w.remote, w.past, w.received)
  }

  /** A request has effect when the actor is waiting for requests and the transaction commits. */
  predicate HasEffect(a: Db, op: Op, env: Env) {
    a.fm == SWait && Transact(a.store, op, env).0 == None
  }

  ghost predicate CanTake(cfg: Config, w: World, t: Turn) {
    match t
    case RemoteTurn(m) => !m.Serve? && CanMove(cfg, View(w), m)
    case DatabaseTurn(_) => w.db.mailbox != []
    case ClientTurn(m) => FromOutside(m) && !m.Request?
  }

  function Taken(cfg: Config, w: World, t: Turn): World
    requires CanTake(cfg, w, t)
  {
    match t
    case RemoteTurn(m) =>
      var s, v := View(w), Moved(cfg, View(w), m);
      QueueGrows(cfg, s, m);
      World(w.db.(mailbox := w.db.mailbox + AsMessages(v.queue[|s.queue|..])), v.passes, v.remote, v.past, v.received)
    case DatabaseTurn(env) =>
      var b := Deliver(w.db, env);
      (match w.db.mailbox[0]
       case Request(op, _) =>
         var v := Served(View(w), HasEffect(w.db, op, env));
         w.(db := b, passes := v.passes, past := v.past)
       case _ => w.(db := b))
    case ClientTurn(m) => w.(db := w.db.(mailbox := w.db.mailbox + [m]))
  }

  ghost predicate IsCourse(cfg: Config, w: World, turns: seq<Turn>)
    decreases |turns|
  {
    turns == [] || (CanTake(cfg, w, turns[0]) && IsCourse(cfg, Taken(cfg, w, turns[0]), turns[1..]))
  }

  function Outcome(cfg: Config, w: World, turns: seq<Turn>): World
    requires IsCourse(cfg, w, turns)
    decreases |turns|
  {
    if turns == [] then w else Outcome(cfg, Taken(cfg, w, turns[0]), turns[1..])
  }

  /** The database actor has just been spawned. */
  ghost predicate IsBoot(cfg: Config, w: World) {
    w.db == INITIAL.(store := w.db.store) && IsStart(cfg, View(w))
  }

  // ---------- the view follows ----------

  lemma QueueGrows(cfg: Config, s: Sys, m: Move)
    requires CanMove(cfg, s, m) && !m.Serve?
    ensures s.queue <= Moved(cfg, s, m).queue && Moved(cfg, s, m).store == s.store
  {
    hide Callback;
  }

  lemma {:induction false} RequestsConcat(a: seq<Message>, b: seq<Message>)
    ensures Requests(a + b) == Requests(a) + Requests(b)
    decreases |a|
  {
    if a == [] {
      assert a + b == b;
    } else {
      assert (a + b)[1..] == a[1..] + b;
      RequestsConcat(a[1..], b);
    }
  }

  lemma {:induction false} RequestsOfMessages(ops: seq<Op>)
    ensures Requests(AsMessages(ops)) == ops
  {
    if ops != [] {
      RequestsOfMessages(ops[1..]);
    }
  }

  lemma {:induction false} SendAllKeepsInv(a: Db, ops: seq<Op>)
    requires Lifecycle.Inv(a)
    ensures Lifecycle.Inv(a.(mailbox := a.mailbox + AsMessages(ops)))
    decreases |ops|
  {
    hide Lifecycle.Inv, AsMessages;
    MessagesUnfold(ops);
    if ops == [] {
      assert a.mailbox + [] == a.mailbox;
    } else {
      var m, rest := AsMessage(ops[0]), AsMessages(ops[1..]);
      SendKeepsInv(a, m);
      SendAllKeepsInv(a.(mailbox := a.mailbox + [m]), ops[1..]);
      assert a.mailbox + ([m] + rest) == a.mailbox + [m] + rest;
    }
  }

  lemma MessagesUnfold(ops: seq<Op>)
    ensures AsMessages(ops) == if ops == [] then [] else [AsMessage(ops[0])] + AsMessages(ops[1..])
  {
  }

  /** The notices the actor sends itself. */
  lemma NoticeIsNoRequest(q: seq<Message>, m: Message)
    requires !m.Request?
    ensures Requests(q + [m]) == Requests(q)
  {
    RequestsConcat(q, [m]);
    assert [m][1..] == [];
  }

  /** A delivery leaves the rest of the mailbox, with at most one notice of the actor to itself behind it. */
  lemma DeliverMailbox(a: Db, env: Env)
    requires a.mailbox != []
    ensures var rest, q := a.mailbox[1..], Deliver(a, env).mailbox;
      q == rest || exists m :: !FromOutside(m) && q == rest + [m]
  {
    hide Transact;
    var rest := a.mailbox[1..];
    assert !FromOutside(OpenedDB) && !FromOutside(ErrorDB) && !FromOutside(OpenDB(false));
  }

  /** So a delivery takes at most one request away. */
  lemma DeliverRequests(a: Db, env: Env)
    requires a.mailbox != []
    ensures Requests(Deliver(a, env).mailbox) == Requests(a.mailbox[1..])
  {
    DeliverMailbox(a, env);
    hide Requests, Deliver;
    var rest, q := a.mailbox[1..], Deliver(a, env).mailbox;
    if q != rest {
      var m :| !FromOutside(m) && q == rest + [m];
      NoticeIsNoRequest(rest, m);
    }
  }

  /** What a delivery does to the store. */
  lemma DeliverStore(cfg: Config, p: Past, a: Db, env: Env)
    requires Lifecycle.Inv(a) && a.mailbox != []
    requires a.mailbox[0].Request? ==> GoodOp(cfg, p, a.mailbox[0].op)
    ensures Deliver(a, env).store == match a.mailbox[0]
      case Request(op, _) => if HasEffect(a, op, env) then Applied(a.store, op) else a.store
      case _ => a.store
  {
    hide ParseInt;
  }

  lemma HeadRequest(q: seq<Message>)
    requires q != []
    ensures q[0].Request? ==> Requests(q) != [] && Requests(q)[0] == q[0].op && Requests(q)[1..] == Requests(q[1..])
    ensures !q[0].Request? ==> Requests(q) == Requests(q[1..])
  {
  }

  lemma HeadIsGood(cfg: Config, s: Sys)
    requires Conservation.Inv(cfg, s) && s.queue != []
    ensures GoodOp(cfg, s.past, s.queue[0])
  {
    assert s.queue[0] in s.queue;
  }

  lemma RemoteTurnIsMove(cfg: Config, w: World, m: Move)
    requires CanTake(cfg, w, RemoteTurn(m)) && Lifecycle.Inv(w.db)
    ensures View(Taken(cfg, w, RemoteTurn(m))) == Moved(cfg, View(w), m)
    ensures Lifecycle.Inv(Taken(cfg, w, RemoteTurn(m)).db)
  {
    var s := View(w);
    var v := Moved(cfg, s, m);
    QueueGrows(cfg, s, m);
    var sent := v.queue[|s.queue|..];
    assert v.queue == s.queue + sent;
    RemoteTurnTakes(cfg, w, m);
    hide *;
    ViewAfterSend(w, v, sent);
    SendAllKeepsInv(w.db, sent);
  }

  lemma ViewAfterSend(w: World, v: Sys, sent: seq<Op>)
    requires v.queue == View(w).queue + sent && v.store == w.db.store
    ensures View(World(w.db.(mailbox := w.db.mailbox + AsMessages(sent)), v.passes, v.remote, v.past, v.received)) == v
  {
    hide Requests, AsMessages;
    RequestsConcat(w.db.mailbox, AsMessages(sent));
    RequestsOfMessages(sent);
  }

  lemma RemoteTurnTakes(cfg: Config, w: World, m: Move)
    requires CanTake(cfg, w, RemoteTurn(m))
    ensures var s, v := View(w), Moved(cfg, View(w), m);
      && s.queue <= v.queue
      && Taken(cfg, w, RemoteTurn(m))
         == World(w.db.(mailbox := w.db.mailbox + AsMessages(v.queue[|s.queue|..])), v.passes, v.remote, v.past, v.received)
  {
    QueueGrows(cfg, View(w), m);
    hide Moved, CanMove, Requests, AsMessages;
  }

  lemma DatabaseTurnIsMove(cfg: Config, w: World, env: Env)
    requires CanTake(cfg, w, DatabaseTurn(env)) && Lifecycle.Inv(w.db) && Conservation.Inv(cfg, View(w))
    ensures View(Taken(cfg, w, DatabaseTurn(env))) ==
      if w.db.mailbox[0].Request? then Served(View(w), HasEffect(w.db, w.db.mailbox[0].op, env)) else View(w)
    ensures Lifecycle.Inv(Taken(cfg, w, DatabaseTurn(env)).db)
  {
    var s, q := View(w), w.db.mailbox;
    HeadRequest(q);
    if q[0].Request? {
      HeadIsGood(cfg, s);
    }
    hide Lifecycle.Inv, Conservation.Inv, HasEffect, Requests, Applied, GoodOp, Deliver;
    DeliverStore(cfg, s.past, w.db, env);
    DeliverRequests(w.db, env);
    DeliverKeepsInv(w.db, env);
  }

  /** Refinement: each turn is a move of the abstract system, or leaves it as it was. */
  lemma TurnIsMove(cfg: Config, w: World, t: Turn)
    requires CanTake(cfg, w, t) && Lifecycle.Inv(w.db) && Conservation.Inv(cfg, View(w))
    ensures View(Taken(cfg, w, t)) == match t
      case RemoteTurn(m) => Moved(cfg, View(w), m)
      case DatabaseTurn(env) =>
        if w.db.mailbox[0].Request? then Served(View(w), HasEffect(w.db, w.db.mailbox[0].op, env)) else View(w)
      case ClientTurn(_) => View(w)
    ensures Lifecycle.Inv(Taken(cfg, w, t).db)
  {
    match t {
      case RemoteTurn(m) =>
        hide *;
        RemoteTurnIsMove(cfg, w, m);
      case DatabaseTurn(env) =>
        hide *;
        DatabaseTurnIsMove(cfg, w, env);
      case ClientTurn(m) =>
        hide Lifecycle.Inv, Conservation.Inv, Moved, Served;
        RequestsConcat(w.db.mailbox, [m]);
        assert Requests([m]) == [];
        SendKeepsInv(w.db, m);
    }
  }

  /** Both invariants hold after every course of turns. */
  lemma {:induction false} CourseKeeps(cfg: Config, w: World, turns: seq<Turn>)
    requires IsCourse(cfg, w, turns) && Lifecycle.Inv(w.db) && Conservation.Inv(cfg, View(w))
    ensures Lifecycle.Inv(Outcome(cfg, w, turns).db) && Conservation.Inv(cfg, View(Outcome(cfg, w, turns)))
    decreases |turns|
  {
    hide Lifecycle.Inv, Conservation.Inv, Taken, View, Moved, Served, CanMove, HasEffect;
    if turns != [] {
      var t := turns[0];
      TurnIsMove(cfg, w, t);
      match t {
        case RemoteTurn(m) => MoveKeeps(cfg, View(w), m);
        case DatabaseTurn(env) =>
          if w.db.mailbox[0].Request? {
            assert View(w).queue != [] by { ViewQueue(w); }
            ServeKeeps(cfg, View(w), HasEffect(w.db, w.db.mailbox[0].op, env));
          }
        case ClientTurn(_) =>
      }
      CourseKeeps(cfg, Taken(cfg, w, t), turns[1..]);
    }
  }

  lemma ViewQueue(w: World)
    requires w.db.mailbox != [] && w.db.mailbox[0].Request?
    ensures View(w).queue != []
  {
  }

  lemma BootInv(cfg: Config, w: World)
    requires IsBoot(cfg, w)
    ensures Lifecycle.Inv(w.db) && Conservation.Inv(cfg, View(w))
  {
    StartInv(cfg, View(w));
    InitialInv();
  }

  // ---------- what becomes of the events ----------

  /** A write is served in vain exactly when the actor is not waiting for requests or the transaction fails. */
  lemma WriteHasEffect(cfg: Config, p: Past, a: Db, op: Op, env: Env)
    requires GoodOp(cfg, p, op) && op.Update?
    ensures HasEffect(a, op, env) <==> (a.fm == SWait && env.fault == None)
  {
    ArchiveIsNotEvents(cfg, ParseInt(op.id).value);
    assert |EVENTS| == 6;
    hide ParseInt;
  }

  /**
   Conservation on the database actor, over every course of turns, with opens that fail, closes, restarts
   and failing transactions: a stored event is lost exactly when its own write was served in vain, or its
   archive write was, never to succeed later, while its delete had effect.
   */
  lemma EventsLostExactly(cfg: Config, w: World, turns: seq<Turn>, k: Key)
    requires IsBoot(cfg, w) && IsCourse(cfg, w, turns) && k in Outcome(cfg, w, turns).past.minted
    ensures IsNumeric(k)
    ensures var z := Outcome(cfg, w, turns); !IsKept(cfg, View(z), k) <==> IsLost(cfg, z.past, k)
  {
    BootInv(cfg, w);
    CourseKeeps(cfg, w, turns);
    LostExactly(cfg, View(Outcome(cfg, w, turns)), k);
  }

  /**
   The live path, exactly: an event the remote actor received is delivered or kept unless the client
   answered it with an error, it was not answered and there was nowhere to store it, or its write or its
   archiving came to nothing.
   */
  lemma ReceivedSafeExactly(cfg: Config, w: World, turns: seq<Turn>, r: Receipt)
    requires IsBoot(cfg, w) && IsCourse(cfg, w, turns) && r in Outcome(cfg, w, turns).received
    ensures var z := Outcome(cfg, w, turns);
      && (IsWritten(cfg, r) ==> Dec(r.now) in z.past.minted && IsNumeric(Dec(r.now)))
      && (!IsSafe(cfg, View(z), r) <==>
           (|| (r.remote.isConnected && r.answer == AnsweredError)
            || (!SendSucceeds(r.remote, r.answer) && (cfg.disableReplay || !Reopened(r.remote, r.opens).isDatabaseOpen))
            || (IsWritten(cfg, r) && IsLost(cfg, z.past, Dec(r.now)))))
  {
    BootInv(cfg, w);
    CourseKeeps(cfg, w, turns);
    ReceivedExactly(cfg, View(Outcome(cfg, w, turns)), r);
  }

  // ---------- both losses happen ----------

  ghost predicate Leads(cfg: Config, w: World, t: Turn, v: World) {
    CanTake(cfg, w, t) && Taken(cfg, w, t) == v
  }

  /** What the database actor does with a message while it is not waiting for requests. */
  lemma ClosedTurn(cfg: Config, w: World, env: Env)
    requires w.db.mailbox != [] && w.db.behavior == CloseState
    ensures var a, m, rest := w.db, w.db.mailbox[0], w.db.mailbox[1..];
      var b := Taken(cfg, w, DatabaseTurn(env));
      && (m == Started && a.fm == SInit && !env.opens && a.handle == NoFile ==>
            b == w.(db := a.(fm := SOpen, mailbox := rest + [ErrorDB])))
      && (m == OpenDB(true) && a.fm == SOpen ==> b == w.(db := a.(mailbox := rest)) && ReplyTo(a, env) == Some(Opened))
      && (m == ErrorDB && a.fm == SOpen ==> b == w.(db := a.(fm := SRestart, mailbox := rest + [OpenDB(false)])))
      && (m.Request? && a.fm != SWait ==>
            b == w.(db := a.(mailbox := rest), past := w.past.(missed := w.past.missed + {m.op})))
  {
    hide Transact, Requests;
    HeadRequest(w.db.mailbox);
  }

  /** The remote actor stores an event it could not send. */
  lemma StoreTurn(cfg: Config, w: World, data: seq<byte>, now: nat)
    requires !w.remote.isConnected && !cfg.disableReplay && now < TWO_63 && Fresh(View(w), Dec(now))
    ensures var t := RemoteTurn(Event(data, now, NoAnswer, true));
      && CanTake(cfg, w, t)
      && Taken(cfg, w, t) == World(w.db.(mailbox := w.db.mailbox + [Request(Update(Dec(now), data, EVENTS), true)]),
           w.passes, w.remote.(isDatabaseOpen := true), w.past.(minted := w.past.minted[Dec(now) := data]),
           w.received + [Receipt(data, now, w.remote, NoAnswer, true)])
  {
    hide Fresh, Requests;
    var s, m := View(w), Event(data, now, NoAnswer, true);
    var v, up := Moved(cfg, s, m), Update(Dec(now), data, EVENTS);
    assert v.queue == s.queue + [up];
    assert v.queue[|s.queue|..] == [up];
    assert AsMessages([up]) == [Request(up, true)];
  }

  /**
   From the first message on: the file cannot be opened, a client's open request is answered with success
   all the same, and the event stored on the strength of that is dropped.
   */
  lemma StoredEventIsDropped(cfg: Config, data: seq<byte>, now: nat) returns (turns: seq<Turn>)
    requires !cfg.disableReplay && now < TWO_63
    ensures var w, r := Newborn(), Receipt(data, now, Remote(false, false, false), NoAnswer, true);
      && IsBoot(cfg, w) && IsCourse(cfg, w, turns) && r in Outcome(cfg, w, turns).received
      && IsWritten(cfg, r) && Dec(now) in Outcome(cfg, w, turns).past.minted && IsNumeric(Dec(now))
      && !IsSafe(cfg, View(Outcome(cfg, w, turns)), r)
  {
    var w := Newborn();
    turns := DropTurns(data, now, 0);
    DropEnds(cfg, data, now);
    hide Newborn, Drop, DropTurns, IsBoot, IsCourse, Outcome, IsSafe, IsLost, IsNumeric, IsWritten, Dec, View;
    DropsRun(cfg, data, now, 0);
    ReceivedSafeExactly(cfg, w, turns, Receipt(data, now, Remote(false, false, false), NoAnswer, true));
  }

  /** A new installation: nothing stored, nothing received, not connected. */
  function Newborn(): World {
    World(INITIAL, [], Remote(false, false, false), Past(map[], {}, {}, {}), [])
  }

  const LAST_DROP := 6

  /** The states of a course in which the file cannot be opened. */
  function Drop(data: seq<byte>, now: nat, i: nat): World {
    var k, up := Dec(now), Update(Dec(now), data, EVENTS);
    var r := Receipt(data, now, Remote(false, false, false), NoAnswer, true);
    var closed := Db(SOpen, CloseState, NoFile, map[], []);
    if i == 0 then Newborn()
    else if i <= 3 then
      World(if i == 1 then INITIAL.(mailbox := [Started, OpenDB(true)])
            else closed.(mailbox := if i == 2 then [OpenDB(true), ErrorDB] else [ErrorDB]),
            [], Remote(false, false, false), Past(map[], {}, {}, {}), [])
    else
      World(if i == 4 then closed.(mailbox := [ErrorDB, Request(up, true)])
            else closed.(fm := SRestart, mailbox := if i == 5 then [Request(up, true), OpenDB(false)] else [OpenDB(false)]),
            [], Remote(false, true, false), Past(map[k := data], {}, {}, if i <= 5 then {} else {up}), [r])
  }

  function DropTurn(data: seq<byte>, now: nat, i: nat): Turn {
    if i == 0 then ClientTurn(OpenDB(true))
    else if i == 3 then RemoteTurn(Event(data, now, NoAnswer, true))
    else DatabaseTurn(Env(false, None, []))
  }

  function DropTurns(data: seq<byte>, now: nat, i: nat): seq<Turn>
    decreases LAST_DROP - i
  {
    if i >= LAST_DROP then [] else [DropTurn(data, now, i)] + DropTurns(data, now, i + 1)
  }

  lemma DropLeads(cfg: Config, data: seq<byte>, now: nat, i: nat)
    requires i < LAST_DROP && !cfg.disableReplay && now < TWO_63
    ensures Leads(cfg, Drop(data, now, i), DropTurn(data, now, i), Drop(data, now, i + 1))
  {
    var w, fails := Drop(data, now, i), Env(false, None, []);
    hide Dec, Requests, Deliver, Moved, Fresh, Served;
    if i == 0 {
      assert INITIAL.mailbox + [OpenDB(true)] == [Started, OpenDB(true)];
    } else if i == 3 {
      NothingStored(w, Dec(now));
      StoreTurn(cfg, w, data, now);
      assert w.db.mailbox + [Request(Update(Dec(now), data, EVENTS), true)] == [ErrorDB, Request(Update(Dec(now), data, EVENTS), true)];
    } else {
      assert w.db.mailbox[1..] == if i == 1 then [OpenDB(true)] else if i == 2 then [ErrorDB]
        else if i == 4 then [Request(Update(Dec(now), data, EVENTS), true)] else [OpenDB(false)];
      ClosedTurn(cfg, w, fails);
    }
  }

  lemma NothingStored(w: World, k: Key)
    requires w.db.store == map[] && w.past.minted == map[]
    ensures Fresh(View(w), k)
  {
  }

  lemma {:induction false} DropsRun(cfg: Config, data: seq<byte>, now: nat, i: nat)
    requires i <= LAST_DROP && !cfg.disableReplay && now < TWO_63
    ensures IsCourse(cfg, Drop(data, now, i), DropTurns(data, now, i))
    ensures Outcome(cfg, Drop(data, now, i), DropTurns(data, now, i)) == Drop(data, now, LAST_DROP)
    decreases LAST_DROP - i
  {
    if i < LAST_DROP {
      DropLeads(cfg, data, now, i);
      hide Drop, DropTurn, CanTake, Taken;
      DropsRun(cfg, data, now, i + 1);
      assert DropTurns(data, now, i)[1..] == DropTurns(data, now, i + 1);
    }
  }

  lemma DropEnds(cfg: Config, data: seq<byte>, now: nat)
    requires !cfg.disableReplay && now < TWO_63
    ensures Drop(data, now, 0) == Newborn() && IsBoot(cfg, Newborn())
    ensures var z, r := Drop(data, now, LAST_DROP), Receipt(data, now, Remote(false, false, false), NoAnswer, true);
      && r in z.received && IsWritten(cfg, r)
      && Dec(now) in z.past.minted && IsNumeric(Dec(now)) && IsLost(cfg, z.past, Dec(now))
  {
    ParseMinted(now);
    hide ParseInt, Dec;
    assert Requests(INITIAL.mailbox) == [];
  }

  /** The database actor opens its file, on its start or when it asks itself to. */
  lemma OpenTurns(cfg: Config, w: World, env: Env)
    requires w.db.mailbox != [] && w.db.behavior == CloseState && env.opens
    ensures var a, m, rest := w.db, w.db.mailbox[0], w.db.mailbox[1..];
      && ((m == Started && a.fm == SInit) || (m == OpenDB(false) && a.fm == SRestart) ==>
            Leads(cfg, w, DatabaseTurn(env), w.(db := a.(fm := SOpen, handle := OpenFile, mailbox := rest + [OpenedDB]))))
      && (m == OpenedDB && a.fm == SOpen ==>
            Leads(cfg, w, DatabaseTurn(env), w.(db := a.(fm := SWait, behavior := WaitState, mailbox := rest))))
  {
    hide Transact, Requests;
  }

  /** A waiting actor with nothing to do. */
  predicate IsIdle(a: Db) {
    a.fm == SWait && a.behavior == WaitState && a.handle == OpenFile && a.mailbox == []
  }

  /** A pass begins: its query is sent, and answered from the collection as it is now. */
  lemma QueryTurns(cfg: Config, w: World, env: Env)
    requires IsIdle(w.db) && env.fault == None
    ensures var t := RemoteTurn(VerifyReplay(true));
      var v := w.(db := w.db.(mailbox := [Request(Read, true)]), remote := w.remote.(retryFlag := false, isDatabaseOpen := true));
      && Leads(cfg, w, t, v)
      && Leads(cfg, v, DatabaseTurn(env),
               v.(db := w.db, passes := w.passes + [Pass(Scan(BucketOf(w.db.store, EVENTS), [], false), 0, [])],
                  past := w.past.(done := w.past.done + {Read})))
  {
    hide Scan, BucketOf;
    var t, m := RemoteTurn(VerifyReplay(true)), VerifyReplay(true);
    var v := w.(db := w.db.(mailbox := [Request(Read, true)]), remote := w.remote.(retryFlag := false, isDatabaseOpen := true));
    assert Moved(cfg, View(w), m).queue == [Read];
    assert AsMessages([Read]) == [Request(Read, true)];
    assert Requests([Request(Read, true)]) == [Read];
    assert v.db.mailbox[1..] == [];
  }

  /** The closure finds the entry too old and archives it. */
  lemma ArchiveTurn(cfg: Config, w: World, e: Entry, n: nat, clock: int)
    requires w.passes == [Pass([e], 0, [])] && n < TWO_63 && e.key == Dec(n) && TooOld(cfg, clock, n)
    ensures var sent := [Update(e.key, e.data, ArchiveOf(cfg, n)), Removal(e.key)];
      Leads(cfg, w, RemoteTurn(Call(0, clock, NoAnswer)), w.(passes := [Pass([], 1, sent)]))
  {
    ParseMinted(n);
    hide ParseInt, TooOld, ArchiveOf, Requests;
    var m := Call(0, clock, NoAnswer);
    var v := Moved(cfg, View(w), m);
    assert [e][1..] == [];
    assert v.queue[|View(w).queue|..] == [];
    assert w.db.mailbox + [] == w.db.mailbox;
  }

  /** A query child sends its next message. */
  lemma PostTurn(cfg: Config, w: World, i: nat)
    requires i < |w.passes| && w.passes[i].outbox != [] && w.db.mailbox == []
    ensures var p := w.passes[i];
      Leads(cfg, w, RemoteTurn(Post(i)),
            w.(passes := w.passes[i := p.(outbox := p.outbox[1..])], db := w.db.(mailbox := AsMessages([p.outbox[0]]))))
  {
    hide AsMessages, Deliver, Transact, Live;
    var op, v := w.passes[i].outbox[0], Moved(cfg, View(w), Post(i));
    assert v.queue == [op] && v.queue[0..] == [op];
    assert w.db.mailbox + AsMessages([op]) == AsMessages([op]);
  }

  /** One request in the wait state: a delete that has effect, or any request that meets a fault. */
  lemma RequestTurn(cfg: Config, w: World, op: Op, env: Env)
    requires op.Update? || op.Delete?
    requires w.db.behavior == WaitState && w.db.fm == SWait && w.db.handle == OpenFile && w.db.mailbox == [Request(op, false)]
    requires env.fault == None ==> op.Delete? && op.collection in w.db.store
    requires env.fault != None ==> env.fault == Some(OtherFault)
    ensures Leads(cfg, w, DatabaseTurn(env),
      if env.fault == None then
        w.(db := w.db.(mailbox := [], store := Erase(w.db.store, op.collection, op.id)), past := w.past.(done := w.past.done + {op}))
      else
        w.(db := w.db.(mailbox := []), past := w.past.(missed := w.past.missed + {op})))
  {
    assert w.db.mailbox[1..] == [];
    assert Requests(w.db.mailbox) == [op];
    hide Erase;
  }

  const LAST_STAGE := 9

  /** The states of a course in which the transaction of an archive write fails, on a full disk for example. */
  function Stage(cfg: Config, d: seq<byte>, n: nat, i: nat): World
    requires n < TWO_63
  {
    var k, c, st := Dec(n), ArchiveOf(cfg, n), map[EVENTS := [Entry(Dec(n), d)]];
    var up, del, live := Update(k, d, c), Removal(k), Update(k, d, EVENTS);
    var waiting := Db(SWait, WaitState, OpenFile, st, []);
    var opening := Db(SOpen, CloseState, OpenFile, st, [OpenedDB]);
    var asked := Remote(false, true, false);
    if i == 0 then World(INITIAL.(store := st), [], Remote(false, false, false), Past(map[k := d], {}, {live}, {}), [])
    else if i <= 2 then
      World(if i == 1 then opening else waiting, [], Remote(false, false, false), Past(map[k := d], {}, {live}, {}), [])
    else if i == 3 then
      World(waiting.(mailbox := [Request(Read, true)]), [], asked, Past(map[k := d], {}, {live}, {}), [])
    else if i <= 6 then
      World(if i == 6 then waiting.(mailbox := [Request(up, false)]) else waiting,
            [if i == 4 then Pass([Entry(k, d)], 0, []) else Pass([], 1, if i == 5 then [up, del] else [del])],
            asked, Past(map[k := d], {}, {live, Read}, {}), [])
    else if i <= 8 then
      World(if i == 7 then waiting else waiting.(mailbox := [Request(del, false)]),
            [Pass([], 1, if i == 8 then [] else [del])], asked, Past(map[k := d], {}, {live, Read}, {up}), [])
    else
      World(waiting.(store := Erase(st, EVENTS, k)), [Pass([], 1, [])], asked, Past(map[k := d], {}, {live, Read, del}, {up}), [])
  }

  function StageTurn(clock: int, i: nat): Turn {
    if i == 2 then RemoteTurn(VerifyReplay(true))
    else if i == 4 then RemoteTurn(Call(0, clock, NoAnswer))
    else if i == 5 || i == 7 then RemoteTurn(Post(0))
    else DatabaseTurn(Env(true, if i == 6 then Some(OtherFault) else None, []))
  }

  lemma OneEntryScan(w: World, e: Entry)
    requires w.db.store == map[EVENTS := [e]]
    ensures Scan(BucketOf(w.db.store, EVENTS), [], false) == [e]
  {
    EmptyPrefix([e], false);
  }

  lemma OneMessage(op: Op)
    requires !IsLive(op) && op != Read
    ensures AsMessages([op]) == [Request(op, false)]
  {
  }

  lemma StagesToPass(cfg: Config, d: seq<byte>, n: nat, clock: int, i: nat)
    requires i < 4 && n < TWO_63
    ensures Leads(cfg, Stage(cfg, d, n, i), StageTurn(clock, i), Stage(cfg, d, n, i + 1))
  {
    hide Leads, ArchiveOf, Dec, Erase, Scan, BucketOf;
    if i < 2 {
      var s := Stage(cfg, d, n, i);
      assert s.db.mailbox[1..] == [] && s.db.mailbox[1..] + [OpenedDB] == [OpenedDB];
      OpenTurns(cfg, s, Env(true, None, []));
    } else {
      var live := Update(Dec(n), d, EVENTS);
      assert {live} + {Read} == {live, Read};
      var e := Entry(Dec(n), d);
      OneEntryScan(Stage(cfg, d, n, 2), e);
      assert [] + [Pass([e], 0, [])] == [Pass([e], 0, [])];
      QueryTurns(cfg, Stage(cfg, d, n, 2), Env(true, None, []));
    }
  }

  lemma StagesToLoss(cfg: Config, d: seq<byte>, n: nat, clock: int, i: nat)
    requires 4 <= i < LAST_STAGE && n < TWO_63 && TooOld(cfg, clock, n)
    ensures Leads(cfg, Stage(cfg, d, n, i), StageTurn(clock, i), Stage(cfg, d, n, i + 1))
  {
    var up, del := Update(Dec(n), d, ArchiveOf(cfg, n)), Removal(Dec(n));
    ArchivedElsewhere(cfg, up, n);
    hide Leads, ArchiveOf, Dec, Erase, TooOld, IsLive, AsMessages;
    var s := Stage(cfg, d, n, i);
    if i == 4 {
      ArchiveTurn(cfg, s, Entry(Dec(n), d), n, clock);
    } else if i == 5 {
      assert [up, del][1..] == [del];
      OneMessage(up);
      PostTurn(cfg, s, 0);
    } else if i == 6 {
      assert s.past.missed + {up} == {up};
      RequestTurn(cfg, s, up, Env(true, Some(OtherFault), []));
    } else if i == 7 {
      assert [del][1..] == [];
      OneMessage(del) by { RemovalIsNotLive(Dec(n)); }
      PostTurn(cfg, s, 0);
    } else {
      var live := Update(Dec(n), d, EVENTS);
      assert {live, Read} + {del} == {live, Read, del};
      RequestTurn(cfg, s, del, Env(true, None, []));
    }
  }

  lemma RemovalIsNotLive(k: Key)
    ensures !IsLive(Removal(k))
  {
  }

  /**
   From the first message on: the transaction of an old event's archive write fails, and the delete behind it
   succeeds. The event is in neither collection.
   */
  lemma ArchivedEventIsLost(cfg: Config, d: seq<byte>, n: nat, clock: int) returns (w: World, turns: seq<Turn>)
    requires n < TWO_63 && TooOld(cfg, clock, n)
    ensures IsBoot(cfg, w) && w.db.store == map[EVENTS := [Entry(Dec(n), d)]] && IsCourse(cfg, w, turns)
    ensures var z := Outcome(cfg, w, turns);
      Dec(n) in z.past.minted && IsNumeric(Dec(n)) && !IsKept(cfg, View(z), Dec(n))
  {
    w, turns := Stage(cfg, d, n, 0), TurnsFrom(clock, 0);
    StageEnds(cfg, d, n);
    hide Stage, TurnsFrom, TooOld, IsBoot, IsCourse, Outcome, IsKept, IsLost, IsNumeric, Dec, View;
    StagesRun(cfg, d, n, clock, 0);
    EventsLostExactly(cfg, w, turns, Dec(n));
  }

  function TurnsFrom(clock: int, i: nat): seq<Turn>
    decreases LAST_STAGE - i
  {
    if i >= LAST_STAGE then [] else [StageTurn(clock, i)] + TurnsFrom(clock, i + 1)
  }

  lemma {:induction false} StagesRun(cfg: Config, d: seq<byte>, n: nat, clock: int, i: nat)
    requires i <= LAST_STAGE && n < TWO_63 && TooOld(cfg, clock, n)
    ensures IsCourse(cfg, Stage(cfg, d, n, i), TurnsFrom(clock, i))
    ensures Outcome(cfg, Stage(cfg, d, n, i), TurnsFrom(clock, i)) == Stage(cfg, d, n, LAST_STAGE)
    decreases LAST_STAGE - i
  {
    if i < LAST_STAGE {
      StagesLead(cfg, d, n, clock, i);
      hide Stage, StageTurn, TooOld, CanTake, Taken;
      StagesRun(cfg, d, n, clock, i + 1);
      assert TurnsFrom(clock, i)[1..] == TurnsFrom(clock, i + 1);
    }
  }

  lemma StagesLead(cfg: Config, d: seq<byte>, n: nat, clock: int, i: nat)
    requires i < LAST_STAGE && n < TWO_63 && TooOld(cfg, clock, n)
    ensures Leads(cfg, Stage(cfg, d, n, i), StageTurn(clock, i), Stage(cfg, d, n, i + 1))
  {
    hide *;
    if i < 4 {
      StagesToPass(cfg, d, n, clock, i);
    } else {
      StagesToLoss(cfg, d, n, clock, i);
    }
  }

  lemma StageEnds(cfg: Config, d: seq<byte>, n: nat)
    requires n < TWO_63
    ensures IsBoot(cfg, Stage(cfg, d, n, 0)) && Stage(cfg, d, n, 0).db.store == map[EVENTS := [Entry(Dec(n), d)]]
    ensures var p := Stage(cfg, d, n, LAST_STAGE).past; Dec(n) in p.minted && IsNumeric(Dec(n)) && IsLost(cfg, p, Dec(n))
  {
    OldEventBoots(cfg, Stage(cfg, d, n, 0), n, d);
    LostHere(cfg, Stage(cfg, d, n, LAST_STAGE).past, n, d);
  }

  lemma ArchivedElsewhere(cfg: Config, op: Op, n: nat)
    requires n < TWO_63 && op.Update? && op.collection == ArchiveOf(cfg, n)
    ensures !IsLive(op)
  {
    ArchiveIsNotEvents(cfg, n);
  }

  lemma OldEventBoots(cfg: Config, w: World, n: nat, d: seq<byte>)
    requires n < TWO_63
    requires w == World(INITIAL.(store := map[EVENTS := [Entry(Dec(n), d)]]), [], Remote(false, false, false),
                        Past(map[Dec(n) := d], {}, {Update(Dec(n), d, EVENTS)}, {}), [])
    ensures IsBoot(cfg, w)
  {
    ParseMinted(n);
    ArchiveIsNotEvents(cfg, n);
    hide ParseInt, Dec, ArchiveOf;
    var b := [Entry(Dec(n), d)];
    forall k ensures Lookup(w.db.store, EVENTS, k) == if k == Dec(n) then Some(d) else None {
      assert b[1..] == [] && Get(b[1..], k) == None;
    }
    assert Requests(w.db.mailbox) == [];
    var p := w.past;
    assert forall k :: k in p.minted ==> k == Dec(n);
  }

  lemma LostHere(cfg: Config, p: Past, n: nat, d: seq<byte>)
    requires n < TWO_63 && p.minted == map[Dec(n) := d] && p.acked == {}
    requires var up, del := Update(Dec(n), d, ArchiveOf(cfg, n)), Removal(Dec(n));
      p.missed == {up} && p.done == {Update(Dec(n), d, EVENTS), Read, del}
    ensures Dec(n) in p.minted && IsNumeric(Dec(n)) && IsLost(cfg, p, Dec(n))
  {
    ParseMinted(n);
    ArchiveIsNotEvents(cfg, n);
    hide ParseInt, ArchiveOf;
  }
}
