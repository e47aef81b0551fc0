/**
 The replay passes of module ReplayPass as they run on the deployed system, and the store emptied by them
 from every state the system can reach.
 */
module Draining {
  import opened Options
  import opened Buckets
  import opened Repo
  import opened Lifecycle
  import opened Replay
  import opened Lanes
  import opened Conservation
  import opened Deployment
  import ReplayPass

  // ---------- courses in which nothing goes wrong ----------

  /** Sends are acknowledged, opens and transactions succeed, no event arrives, and a client at most asks to open. */
  predicate IsGentle(t: Turn) {
    match t
    case RemoteTurn(m) => (m.Call? ==> m.answer == Acked) && !m.Event?
    case DatabaseTurn(env) => env.opens && env.fault == None
    case ClientTurn(m) => m == OpenDB(true)
  }

  ghost predicate IsGentleCourse(cfg: Config, w: World, turns: seq<Turn>, v: World) {
    IsCourse(cfg, w, turns) && Outcome(cfg, w, turns) == v && forall t :: t in turns ==> IsGentle(t)
  }

  /** Some such course leads from w to v. */
  ghost predicate CanReach(cfg: Config, w: World, v: World) {
    exists turns :: IsGentleCourse(cfg, w, turns, v)
  }

  lemma ReachSelf(cfg: Config, w: World)
    ensures CanReach(cfg, w, w)
  {
    assert IsGentleCourse(cfg, w, [], w);
  }

  lemma ReachOne(cfg: Config, w: World, t: Turn, v: World)
    requires Leads(cfg, w, t, v) && IsGentle(t)
    ensures CanReach(cfg, w, v)
  {
    hide CanTake, Taken;
    assert [t][1..] == [];
    assert IsCourse(cfg, v, []) && Outcome(cfg, v, []) == v;
    assert IsGentleCourse(cfg, w, [t], v);
  }

  lemma {:induction false} CourseConcat(cfg: Config, w: World, a: seq<Turn>, v: World, b: seq<Turn>, z: World)
    requires IsGentleCourse(cfg, w, a, v) && IsGentleCourse(cfg, v, b, z)
    ensures IsGentleCourse(cfg, w, a + b, z)
    decreases |a|
  {
    hide CanTake, Taken, IsGentle;
    if a == [] {
      assert a + b == b;
    } else {
      assert (a + b)[1..] == a[1..] + b;
      CourseConcat(cfg, Taken(cfg, w, a[0]), a[1..], v, b, z);
      assert IsGentle(a[0]);
    }
  }

  lemma ReachOver(cfg: Config, w: World, v: World, z: World)
    requires CanReach(cfg, w, v) && CanReach(cfg, v, z)
    ensures CanReach(cfg, w, z)
  {
    hide IsGentleCourse;
    var a :| IsGentleCourse(cfg, w, a, v);
    var b :| IsGentleCourse(cfg, v, b, z);
    CourseConcat(cfg, w, a, v, b, z);
  }

  // ---------- one pass ----------

  /** The closure is called on the next entry of child i. */
  lemma CallTurn(cfg: Config, w: World, i: nat, clock: int) returns (v: World)
    requires i < |w.passes| && w.passes[i].rest != [] && w.passes[i].outbox == []
    ensures CanReach(cfg, w, v) && v.db == w.db && v.received == w.received
    ensures var p := w.passes[i];
      var f := Callback(cfg, w.remote.isConnected, w.remote.retryFlag, p.count, p.rest[0], clock, Acked);
      v.passes == w.passes[i := Pass(p.rest[1..], f.count, f.sent)] && v.remote == w.remote.(retryFlag := f.retryFlag)
  {
    hide Callback, Requests, Deliver, Live;
    var m := Call(i, clock, Acked);
    v := Taken(cfg, w, RemoteTurn(m));
    assert Moved(cfg, View(w), m).queue[|View(w).queue|..] == [];
    assert w.db.mailbox + [] == w.db.mailbox;
    ReachOne(cfg, w, RemoteTurn(m), v);
  }

  /** A waiting actor takes the one request in its mailbox. */
  lemma ServeTurn(cfg: Config, w: World, op: Op) returns (v: World)
    requires op != Read && w.db.mailbox == AsMessages([op]) && IsIdle(w.db.(mailbox := []))
    ensures CanReach(cfg, w, v) && v == w.(db := v.db, past := v.past)
    ensures v.db == w.db.(mailbox := [], store := Applied(w.db.store, op))
  {
    v := Taken(cfg, w, DatabaseTurn(SUCCEEDS));
    assert w.db.mailbox[1..] == [];
    assert Requests(w.db.mailbox) == [op];
    ReachOne(cfg, w, DatabaseTurn(SUCCEEDS), v);
  }

  /** What child i still has to send is sent and served, message by message. */
  lemma {:induction false} OutboxTurns(cfg: Config, w: World, i: nat) returns (v: World)
    requires IsIdle(w.db) && i < |w.passes| && Read !in w.passes[i].outbox
    ensures CanReach(cfg, w, v) && v.remote == w.remote && v.received == w.received
    ensures v.db == w.db.(store := ReplayPass.ServeAll(w.db.store, w.passes[i].outbox))
    ensures v.passes == w.passes[i := w.passes[i].(outbox := [])]
    decreases |w.passes[i].outbox|
  {
    hide CanReach, Transact;
    var out := w.passes[i].outbox;
    if out == [] {
      v := w;
      ReachSelf(cfg, w);
      assert w.passes == w.passes[i := w.passes[i].(outbox := [])];
    } else {
      var p := w.passes[i];
      var w1 := w.(passes := w.passes[i := p.(outbox := out[1..])], db := w.db.(mailbox := AsMessages([out[0]])));
      PostTurn(cfg, w, i);
      ReachOne(cfg, w, RemoteTurn(Post(i)), w1);
      hide AsMessages, Leads;
      assert w1.db.(mailbox := []) == w.db;
      var w2 := ServeTurn(cfg, w1, out[0]);
      v := OutboxTurns(cfg, w2, i);
      ReachOver(cfg, w, w1, w2);
      ReachOver(cfg, w, w2, v);
      assert ReplayPass.ServeAll(w.db.store, out) == ReplayPass.ServeAll(w2.db.store, out[1..]);
    }
  }

  lemma CallbackSends(cfg: Config, flag: bool, count: nat, e: Entry, clock: int)
    ensures Read !in Callback(cfg, true, flag, count, e, clock, Acked).sent
  {
  }

  /** A child left to itself does what `RunPass` says. */
  lemma {:induction false} PassTurns(cfg: Config, w: World, i: nat, h: ReplayPass.Weather, n: nat) returns (v: World)
    requires IsIdle(w.db) && w.remote.isConnected && i < |w.passes| && w.passes[i].outbox == [] && ReplayPass.Fair(h)
    ensures var o := ReplayPass.RunPass(cfg, true, w.remote.retryFlag, w.passes[i].count, w.passes[i].rest, h, n);
      && CanReach(cfg, w, v) && v.received == w.received
      && v.db == w.db.(store := ReplayPass.ServeAll(w.db.store, o.sent))
      && v.remote == w.remote.(retryFlag := o.retryFlag)
      && v.passes == w.passes[i := Pass([], o.count, [])]
    decreases |w.passes[i].rest|
  {
    hide CanReach, Callback, IsIdle, Transact;
    var p := w.passes[i];
    if p.rest == [] {
      v := w;
      ReachSelf(cfg, w);
      assert w.passes == w.passes[i := Pass([], p.count, [])];
    } else {
      var f := Callback(cfg, true, w.remote.retryFlag, p.count, p.rest[0], h.clock(n), Acked);
      CallbackSends(cfg, w.remote.retryFlag, p.count, p.rest[0], h.clock(n));
      var w1 := CallTurn(cfg, w, i, h.clock(n));
      var w2 := OutboxTurns(cfg, w1, i);
      assert IsIdle(w2.db) by { StillIdle(w1.db, w2.db.store); }
      var o := ReplayPass.RunPass(cfg, true, f.retryFlag, f.count, p.rest[1..], h, n + 1);
      v := PassTurns(cfg, w2, i, h, n + 1);
      ReplayPass.ServeAllConcat(w.db.store, f.sent, o.sent);
      ReachOver(cfg, w, w1, w2);
      ReachOver(cfg, w, w2, v);
    }
  }

  lemma StillIdle(a: Db, st: Store)
    requires IsIdle(a)
    ensures IsIdle(a.(store := st))
  {
  }

  /** A whole pass on the deployed system takes the first 31 entries away and says whether there are more. */
  lemma WholePass(cfg: Config, w: World, h: ReplayPass.Weather) returns (v: World)
    requires IsIdle(w.db) && w.remote.isConnected && ReplayPass.Fair(h)
    ensures var b := BucketOf(w.db.store, EVENTS);
      && CanReach(cfg, w, v) && IsIdle(v.db) && v.remote.isConnected && v.received == w.received
      && BucketOf(v.db.store, EVENTS) == b[ReplayPass.Min(|b|, 31)..]
      && (v.remote.retryFlag <==> |b| > 31)
  {
    hide CanReach, Leads, BucketOf, Scan, ReplayPass.RunPass, ReplayPass.ServeAll, Transact;
    var i, st := |w.passes|, w.db.store;
    var w1 := w.(db := w.db.(mailbox := [Request(Read, true)]), remote := w.remote.(retryFlag := false, isDatabaseOpen := true));
    var w2 := w1.(db := w.db, passes := w.passes + [Pass(Scan(BucketOf(st, EVENTS), [], false), 0, [])],
                  past := w.past.(done := w.past.done + {Read}));
    QueryTurns(cfg, w, SUCCEEDS);
    ReachOne(cfg, w, RemoteTurn(VerifyReplay(true)), w1);
    ReachOne(cfg, w1, DatabaseTurn(SUCCEEDS), w2);
    v := PassTurns(cfg, w2, i, h, 0);
    ReachOver(cfg, w, w1, w2);
    ReachOver(cfg, w, w2, v);
    ReplayPass.OnePass(cfg, st, h);
  }

  /** Pass after pass empties the collection. */
  lemma {:induction false} PassesEmpty(cfg: Config, w: World, h: ReplayPass.Weather) returns (v: World)
    requires IsIdle(w.db) && w.remote.isConnected && ReplayPass.Fair(h)
    ensures CanReach(cfg, w, v) && IsIdle(v.db) && BucketOf(v.db.store, EVENTS) == [] && v.received == w.received
    decreases |BucketOf(w.db.store, EVENTS)|
  {
    hide CanReach, IsIdle, BucketOf, ReplayPass.Fair;
    if BucketOf(w.db.store, EVENTS) == [] {
      v := w;
      ReachSelf(cfg, w);
    } else {
      var w1 := WholePass(cfg, w, h);
      v := PassesEmpty(cfg, w1, h);
      ReachOver(cfg, w, w1, v);
    }
  }

  // ---------- from any state to a waiting actor ----------

  /** The messages in a mailbox that others sent. */
  function Outsiders(q: seq<Message>): nat {
    if q == [] then 0 else (if FromOutside(q[0]) then 1 else 0) + Outsiders(q[1..])
  }

  lemma {:induction false} OutsidersAppend(q: seq<Message>, m: Message)
    ensures Outsiders(q + [m]) == Outsiders(q) + (if FromOutside(m) then 1 else 0)
  {
    if q == [] {
      assert q + [m] == [m];
    } else {
      assert (q + [m])[1..] == q[1..] + [m];
      OutsidersAppend(q[1..], m);
    }
  }

  /** How far the actor is from having an open file. */
  function ToGo(a: Db): nat {
    if a.fm == SInit then |a.mailbox| + 1 else if a.fm in {SOpen, SRestart} then Distance(a) else 0
  }

  /** What others sent is not sent again. */
  lemma DeliverOutsiders(a: Db, env: Env)
    requires a.mailbox != []
    ensures Outsiders(Deliver(a, env).mailbox) == Outsiders(a.mailbox[1..])
  {
    OutsidersAppend(a.mailbox[1..], OpenedDB);
    OutsidersAppend(a.mailbox[1..], ErrorDB);
    OutsidersAppend(a.mailbox[1..], OpenDB(false));
    hide Outsiders, Attempt;
  }

  /** A waiting or closed actor has only messages from others. */
  lemma SettledHead(a: Db)
    requires Lifecycle.Inv(a) && a.mailbox != [] && a.fm in {SWait, SClose}
    ensures FromOutside(a.mailbox[0])
  {
    TakeHead(a.mailbox);
  }

  lemma StartHead(a: Db, env: Env)
    requires Lifecycle.Inv(a) && a.fm == SInit && env.opens
    ensures a.mailbox != [] && Deliver(a, env).fm == SOpen && OpenedDB in Deliver(a, env).mailbox
    ensures |Deliver(a, env).mailbox| == |a.mailbox|
  {
  }

  /** A delivery uses up a message from others, or brings the actor closer to an open file. */
  lemma DeliveryProgress(a: Db, env: Env)
    requires Lifecycle.Inv(a) && a.mailbox != [] && env.opens && env.fault == None
    ensures var b := Deliver(a, env);
      Outsiders(b.mailbox) < Outsiders(a.mailbox) || (Outsiders(b.mailbox) == Outsiders(a.mailbox) && ToGo(b) < ToGo(a))
  {
    DeliverOutsiders(a, env);
    assert Outsiders(a.mailbox) == (if FromOutside(a.mailbox[0]) then 1 else 0) + Outsiders(a.mailbox[1..]);
    hide Outsiders, Deliver, Lifecycle.Inv, FromOutside, Distance;
    if a.fm in {SWait, SClose} {
      SettledHead(a);
    } else if a.fm == SInit {
      StartHead(a, env);
      assert Distance(Deliver(a, env)) <= |a.mailbox| by { OpenedDistance(Deliver(a, env)); }
    } else {
      DeliveryAdvances(a, env);
    }
  }

  lemma OpenedDistance(a: Db)
    requires a.fm == SOpen && OpenedDB in a.mailbox
    ensures Distance(a) == |a.mailbox|
  {
  }

  lemma DeliverTurn(cfg: Config, w: World) returns (v: World)
    requires w.db.mailbox != []
    ensures CanReach(cfg, w, v) && v.db == Deliver(w.db, SUCCEEDS) && v.remote == w.remote && v.received == w.received
  {
    HeadRequest(w.db.mailbox);
    hide Deliver, HasEffect, Requests;
    v := Taken(cfg, w, DatabaseTurn(SUCCEEDS));
    ReachOne(cfg, w, DatabaseTurn(SUCCEEDS), v);
  }

  /** Everything in the mailbox can be handled, whatever it is. */
  lemma {:induction false} MailboxEmpties(cfg: Config, w: World) returns (v: World)
    requires Lifecycle.Inv(w.db)
    ensures CanReach(cfg, w, v) && Lifecycle.Inv(v.db) && v.db.mailbox == [] && v.received == w.received
    decreases Outsiders(w.db.mailbox), ToGo(w.db)
  {
    hide CanReach, Lifecycle.Inv, Deliver, Outsiders, ToGo;
    if w.db.mailbox == [] {
      v := w;
      ReachSelf(cfg, w);
    } else {
      var w1 := DeliverTurn(cfg, w);
      DeliverKeepsInv(w.db, SUCCEEDS);
      DeliveryProgress(w.db, SUCCEEDS);
      v := MailboxEmpties(cfg, w1);
      ReachOver(cfg, w, w1, v);
    }
  }

  /** With nothing left to handle the actor waits for requests, or was closed. */
  lemma EmptyIsSettled(a: Db)
    requires Lifecycle.Inv(a) && a.mailbox == []
    ensures a.fm == SClose || IsIdle(a)
    ensures a.fm == SClose ==> a.behavior == CloseState
  {
  }

  /** A closed actor opens its file when a client asks for it. */
  lemma AskToOpen(cfg: Config, w: World) returns (v: World)
    requires w.db.fm == SClose && w.db.behavior == CloseState && w.db.mailbox == []
    ensures CanReach(cfg, w, v) && IsIdle(v.db) && v.received == w.received && v.remote == w.remote
  {
    hide CanReach, Transact, Requests;
    var a := w.db;
    var w1 := w.(db := a.(mailbox := [OpenDB(true)]));
    assert a.mailbox + [OpenDB(true)] == [OpenDB(true)];
    ReachOne(cfg, w, ClientTurn(OpenDB(true)), w1);
    var w2 := DeliverTurn(cfg, w1);
    assert w1.db.mailbox[1..] == [];
    assert w2.db.fm == SOpen && w2.db.behavior == CloseState && w2.db.handle == OpenFile && w2.db.mailbox == [OpenedDB];
    v := DeliverTurn(cfg, w2);
    assert w2.db.mailbox[1..] == [];
    ReachOver(cfg, w, w1, w2);
    ReachOver(cfg, w, w2, v);
  }

  lemma ConnectTurn(cfg: Config, w: World)
    ensures CanReach(cfg, w, w.(remote := w.remote.(isConnected := true)))
  {
    hide Requests;
    var v := w.(remote := w.remote.(isConnected := true));
    assert View(w).queue[|View(w).queue|..] == [];
    assert w.db.mailbox + [] == w.db.mailbox;
    ReachOne(cfg, w, RemoteTurn(Reconnect), v);
  }

  /** Some course brings any actor to wait for requests, and the remote actor to think itself connected. */
  lemma Recovered(cfg: Config, w: World) returns (v: World)
    requires Lifecycle.Inv(w.db)
    ensures CanReach(cfg, w, v) && IsIdle(v.db) && v.remote.isConnected && v.received == w.received
  {
    hide CanReach, IsIdle, Lifecycle.Inv;
    var w1 := MailboxEmpties(cfg, w);
    EmptyIsSettled(w1.db);
    var w2 := w1;
    if w1.db.fm == SClose {
      w2 := AskToOpen(cfg, w1);
      ReachOver(cfg, w, w1, w2);
    }
    ConnectTurn(cfg, w2);
    v := w2.(remote := w2.remote.(isConnected := true));
    ReachOver(cfg, w, w2, v);
  }

  /**
   From every state the system can get into, acknowledged sends, successful opens and successful
   transactions can empty the collection. Every event stored so far is then answered, in its archive, or
   lost in the way `IsLost` says.
   */
  lemma EventsCanBeDrained(cfg: Config, w0: World, turns: seq<Turn>, h: ReplayPass.Weather) returns (v: World)
    requires IsBoot(cfg, w0) && IsCourse(cfg, w0, turns) && ReplayPass.Fair(h)
    ensures var w := Outcome(cfg, w0, turns);
      && CanReach(cfg, w, v) && IsIdle(v.db) && BucketOf(v.db.store, EVENTS) == []
      && v.received == w.received
    ensures forall k :: k in v.past.minted ==>
      IsNumeric(k) && (k in v.past.acked || IsArchived(cfg, View(v), k) || IsLost(cfg, v.past, k))
  {
    hide CanReach, IsIdle, IsBoot, Lifecycle.Inv, Conservation.Inv, IsLost, ReplayPass.Fair;
    var w := Outcome(cfg, w0, turns);
    BootInv(cfg, w0);
    CourseKeeps(cfg, w0, turns);
    var w1 := Recovered(cfg, w);
    v := PassesEmpty(cfg, w1, h);
    ReachOver(cfg, w, w1, v);
    ReachKeeps(cfg, w, v);
    forall k | k in v.past.minted
      ensures IsNumeric(k) && (k in v.past.acked || IsArchived(cfg, View(v), k) || IsLost(cfg, v.past, k))
    {
      DrainedEvent(cfg, v, k);
    }
  }

  lemma ReachKeeps(cfg: Config, w: World, v: World)
    requires CanReach(cfg, w, v) && Lifecycle.Inv(w.db) && Conservation.Inv(cfg, View(w))
    ensures Conservation.Inv(cfg, View(v))
  {
    hide Lifecycle.Inv, Conservation.Inv, IsCourse, Outcome, View;
    var turns :| IsGentleCourse(cfg, w, turns, v);
    CourseKeeps(cfg, w, turns);
  }

  lemma DrainedEvent(cfg: Config, v: World, k: Key)
    requires Conservation.Inv(cfg, View(v)) && k in v.past.minted && IsIdle(v.db) && BucketOf(v.db.store, EVENTS) == []
    ensures IsNumeric(k) && (k in v.past.acked || IsArchived(cfg, View(v), k) || IsLost(cfg, v.past, k))
  {
    LostExactly(cfg, View(v), k);
    hide Conservation.Inv, IsLost, IsNumeric;
  }
}
