/**
 The database actor: a finite state machine, a behaviour and messages the actor sends to itself
 must stay in step. internal/database/fsm.go and the dispatch of internal/database/actor.go.
 */
module Lifecycle {
  import opened MachineInts
  import opened Options
  import opened Buckets
  import opened Repo

  datatype FsmState = SInit | SOpen | SClose | SRestart | SWait

  datatype Event = EOpenCmd | EOpened | EClosed | EError

  /** The transition table of `initFSM`. */
  function Target(s: FsmState, e: Event): Option<FsmState> {
    match e
    case EOpenCmd => if s in {SInit, SClose, SRestart} then Some(SOpen) else None
    case EOpened => if s == SOpen then Some(SWait) else None
    case EClosed => if s in {SOpen, SWait} then Some(SClose) else None
    case EError => if s in {SOpen, SWait} then Some(SRestart) else None
  }

  datatype Behavior = CloseState | WaitState

  /** The field `db`: nil, an open file, or a file that was closed but is still referenced. */
  datatype Handle = NoFile | OpenFile | ClosedFile

  datatype Op =
    | Insert(id: Key, data: seq<byte>, collection: string)
    | Update(id: Key, data: seq<byte>, collection: string)
    | Delete(id: Key, collection: string)
    | Read // get, search or query: the store does not change

  /** `OpenDB(true)` comes from a client and awaits an answer, `OpenDB(false)` from the actor itself. */
  datatype Message =
    | Started | Stopping | Flush | OpenDB(client: bool) | OpenedDB | ErrorDB | CloseDB
    | Request(op: Op, sender: bool)

  datatype Reply = Opened | AckPersist(id: Key) | NoAckPersist | AckDelete | NoAckDelete | ReadDone | NoAckRead

  /** What an open file may answer a transaction with; only a file that is not open answers `DatabaseNotOpen`. */
  type FileFault = e: TxError | e != DatabaseNotOpen witness OtherFault

  /** What the outside decides during one delivery. */
  datatype Env = Env(opens: bool, fault: Option<FileFault>, uid: Key)

  datatype Db = Db(fm: FsmState, behavior: Behavior, handle: Handle, store: Store, mailbox: seq<Message>)

  const INITIAL := Db(SInit, CloseState, NoFile, map[], [Started])

  // ---------- one event, one delivery ----------

  /** `fm.Event(e)`: the transition with the enter callback of its target; ignored if not in the table. */
  function Fire(a: Db, e: Event, env: Env): Db {
    match Target(a.fm, e)
    case None => a
    case Some(SOpen) =>
      if env.opens then a.(fm := SOpen, handle := OpenFile, mailbox := a.mailbox + [OpenedDB])
      else a.(fm := SOpen, handle := if a.handle == NoFile then NoFile else ClosedFile, mailbox := a.mailbox + [ErrorDB])
    case Some(SClose) => a.(fm := SClose, handle := NoFile, behavior := CloseState)
    case Some(SRestart) => a.(fm := SRestart, behavior := CloseState, mailbox := a.mailbox + [OpenDB(false)])
    case Some(s) => a.(fm := s)
  }

  /** The error of a transaction, and the store after it. */
  function Transact(st: Store, op: Op, env: Env): (Option<TxError>, Store) {
    if env.fault != None then (env.fault, st)
    else match op
      case Insert(id, data, c) =>
        var key := if id == [] then env.uid else id;
        if c == "" then (Some(BucketNameRequired), st)
        else if Lookup(st, c, key) != None then (Some(DataUpdateNotAllowed), st)
        else (None, Write(st, c, key, data))
      case Update(id, data, c) =>
        if c == "" then (Some(BucketNameRequired), st)
        else (None, Write(st, c, if id == [] then env.uid else id, data))
      case Delete(id, c) =>
        if c in st then (None, Erase(st, c, id)) else (Some(BucketNotFound), st)
      case Read => (None, st)
  }

  /** A transaction on the handle: it fails if the file is not open. */
  function Attempt(a: Db, op: Op, env: Env): (Option<TxError>, Store) {
    if a.handle != OpenFile then (Some(DatabaseNotOpen), a.store) else Transact(a.store, op, env)
  }

  /** The errors after which a handler fires `eError`. */
  predicate Escalates(op: Op, e: TxError) {
    e in {DatabaseNotOpen, DatabaseOpen} || (op.Update? && e in {DatabaseReadOnly, TxNotWritable})
  }

  /** The message at the head of the mailbox is handled by the current behaviour. */
  function Deliver(a: Db, env: Env): Db
    requires a.mailbox != []
  {
    var msg, b := a.mailbox[0], a.(mailbox := a.mailbox[1..]);
    if a.behavior == CloseState then
      match msg
      case Started => Fire(b, EOpenCmd, env)
      case ErrorDB => Fire(b, EError, env)
      case OpenDB(_) => Fire(b, EOpenCmd, env)
      case OpenedDB => Fire(b.(behavior := WaitState), EOpened, env)
      case _ => b
    else
      match msg
      case Stopping => Fire(b.(handle := ClosedFile), EClosed, env)
      case CloseDB => Fire(b.(handle := ClosedFile), EClosed, env)
      case ErrorDB => Fire(b, EError, env)
      case Request(op, _) =>
        var (err, st) := Attempt(b, op, env);
        if err != None && Escalates(op, err.value) then Fire(b.(store := st), EError, env) else b.(store := st)
      case _ => b
  }

  // ---------- runs ----------

  datatype Step = Handle(env: Env) | Send(msg: Message)

  /** What others may put in the mailbox: the actor keeps its own notices to itself. */
  predicate FromOutside(m: Message) {
    m !in {Started, OpenedDB, ErrorDB, OpenDB(false)}
  }

  predicate Enabled(a: Db, s: Step) {
    match s
    case Handle(_) => a.mailbox != []
    case Send(m) => FromOutside(m)
  }

  function Next(a: Db, s: Step): Db
    requires Enabled(a, s)
  {
    match s
    case Handle(env) => Deliver(a, env)
    case Send(m) => a.(mailbox := a.mailbox + [m])
  }

  /** A run: every step is possible where it is taken. */
  predicate IsRun(a: Db, steps: seq<Step>)
    decreases |steps|
  {
    steps == [] || (Enabled(a, steps[0]) && IsRun(Next(a, steps[0]), steps[1..]))
  }

  function After(a: Db, steps: seq<Step>): Db
    requires IsRun(a, steps)
    decreases |steps|
  {
    if steps == [] then a else After(Next(a, steps[0]), steps[1..])
  }

  // ---------- the invariant ----------

  predicate IsOutcome(m: Message) {
    m.OpenedDB? || m.ErrorDB?
  }

  predicate IsSelfOpen(m: Message) {
    m == OpenDB(false)
  }

  function CountOutcomes(q: seq<Message>): nat {
    if q == [] then 0 else (if IsOutcome(q[0]) then 1 else 0) + CountOutcomes(q[1..])
  }

  function CountSelfOpens(q: seq<Message>): nat {
    if q == [] then 0 else (if IsSelfOpen(q[0]) then 1 else 0) + CountSelfOpens(q[1..])
  }

  /** The pending self-sent open requests all stand before the pending outcome. */
  predicate OpensBeforeOutcome(q: seq<Message>) {
    q == [] || ((IsOutcome(q[0]) ==> CountSelfOpens(q) == 0) && OpensBeforeOutcome(q[1..]))
  }

  ghost predicate Inv(a: Db) {
    && (a.behavior == WaitState <==> a.fm == SWait)
    && (a.fm == SWait ==> a.handle == OpenFile)
    && (a.fm in {SInit, SClose} ==> a.handle == NoFile)
    && (a.fm == SOpen ==> (a.handle == OpenFile <==> OpenedDB in a.mailbox))
    && CountOutcomes(a.mailbox) == (if a.fm == SOpen then 1 else 0)
    && CountSelfOpens(a.mailbox) <= (if a.fm in {SRestart, SOpen} then 1 else 0)
    && (a.fm == SRestart ==> CountSelfOpens(a.mailbox) == 1)
    && OpensBeforeOutcome(a.mailbox)
    && (a.fm == SInit ==> a.mailbox != [] && a.mailbox[0] == Started && Started !in a.mailbox[1..])
    && (a.fm != SInit ==> Started !in a.mailbox)
    && StoreSorted(a.store)
  }

  lemma {:induction false} CountsAppend(q: seq<Message>, m: Message)
    ensures CountOutcomes(q + [m]) == CountOutcomes(q) + (if IsOutcome(m) then 1 else 0)
    ensures CountSelfOpens(q + [m]) == CountSelfOpens(q) + (if IsSelfOpen(m) then 1 else 0)
  {
    if q == [] {
      assert q + [m] == [m];
    } else {
      assert (q + [m])[1..] == q[1..] + [m];
      CountsAppend(q[1..], m);
    }
  }

  lemma {:induction false} OrderAppend(q: seq<Message>, m: Message)
    requires OpensBeforeOutcome(q) && (IsSelfOpen(m) ==> CountOutcomes(q) == 0)
    ensures OpensBeforeOutcome(q + [m])
  {
    if q == [] {
      assert q + [m] == [m];
    } else {
      assert (q + [m])[1..] == q[1..] + [m];
      OrderAppend(q[1..], m);
      CountsAppend(q, m);
    }
  }

  lemma {:induction false} NoOutcomeMember(q: seq<Message>)
    ensures (CountOutcomes(q) == 0) <==> (OpenedDB !in q && ErrorDB !in q)
  {
    if q != [] {
      NoOutcomeMember(q[1..]);
    }
  }

  lemma TransactSorted(st: Store, op: Op, env: Env)
    requires StoreSorted(st)
    ensures StoreSorted(Transact(st, op, env).1)
  {
    match op
    case Insert(id, data, c) => WriteSorted(st, c, if id == [] then env.uid else id, data);
    case Update(id, data, c) => WriteSorted(st, c, if id == [] then env.uid else id, data);
    case Delete(id, c) => EraseSorted(st, c, id);
    case Read =>
  }

  lemma InitialInv()
    ensures Inv(INITIAL)
  {
    assert INITIAL.mailbox[1..] == [];
  }

  lemma SendKeepsInv(a: Db, m: Message)
    requires Inv(a) && FromOutside(m)
    ensures Inv(Next(a, Send(m)))
  {
    CountsAppend(a.mailbox, m);
    OrderAppend(a.mailbox, m);
    if a.fm == SInit {
      assert (a.mailbox + [m])[1..] == a.mailbox[1..] + [m];
    }
  }

  /** What the counts and the order say once the head is taken. */
  lemma TakeHead(q: seq<Message>)
    requires q != []
    ensures CountOutcomes(q) == (if IsOutcome(q[0]) then 1 else 0) + CountOutcomes(q[1..])
    ensures CountSelfOpens(q) == (if IsSelfOpen(q[0]) then 1 else 0) + CountSelfOpens(q[1..])
    ensures OpensBeforeOutcome(q) ==> OpensBeforeOutcome(q[1..]) && (IsOutcome(q[0]) ==> CountSelfOpens(q) == 0)
    ensures forall m :: m in q <==> m == q[0] || m in q[1..]
  {
  }

  /** A message the actor sends itself keeps the order, given what is pending. */
  lemma SelfSends(q: seq<Message>, m: Message)
    requires OpensBeforeOutcome(q) && m in {OpenedDB, ErrorDB, OpenDB(false)}
    ensures CountOutcomes(q + [m]) == CountOutcomes(q) + (if IsOutcome(m) then 1 else 0)
    ensures CountSelfOpens(q + [m]) == CountSelfOpens(q) + (if IsSelfOpen(m) then 1 else 0)
    ensures (IsSelfOpen(m) ==> CountOutcomes(q) == 0) ==> OpensBeforeOutcome(q + [m])
  {
    CountsAppend(q, m);
    if IsSelfOpen(m) ==> CountOutcomes(q) == 0 {
      OrderAppend(q, m);
    }
  }

  lemma DeliverClosedKeepsInv(a: Db, env: Env)
    requires Inv(a) && a.mailbox != [] && a.behavior == CloseState
    ensures Inv(Deliver(a, env))
  {
    hide CountOutcomes, CountSelfOpens, OpensBeforeOutcome, StoreSorted, Transact;
    var rest := a.mailbox[1..];
    TakeHead(a.mailbox);
    NoOutcomeMember(rest);
    SelfSends(rest, OpenedDB);
    SelfSends(rest, ErrorDB);
    SelfSends(rest, OpenDB(false));
  }

  lemma DeliverWaitingKeepsInv(a: Db, env: Env)
    requires Inv(a) && a.mailbox != [] && a.behavior == WaitState
    ensures Inv(Deliver(a, env))
  {
    hide CountOutcomes, CountSelfOpens, OpensBeforeOutcome, StoreSorted, Transact;
    var rest := a.mailbox[1..];
    TakeHead(a.mailbox);
    SelfSends(rest, OpenDB(false));
    match a.mailbox[0] {
      case Request(op, _) => TransactSorted(a.store, op, env);
      case _ =>
    }
  }

  /** Every delivery keeps state machine, behaviour, handle and mailbox in step. */
  lemma DeliverKeepsInv(a: Db, env: Env)
    requires Inv(a) && a.mailbox != []
    ensures Inv(Deliver(a, env))
  {
    hide Inv, Deliver;
    if a.behavior == CloseState {
      DeliverClosedKeepsInv(a, env);
    } else {
      DeliverWaitingKeepsInv(a, env);
    }
  }

  /** Safety over whole runs: the invariant holds in every reachable state. */
  lemma {:induction false} RunKeepsInv(a: Db, steps: seq<Step>)
    requires Inv(a) && IsRun(a, steps)
    ensures Inv(After(a, steps))
    decreases |steps|
  {
    hide Inv, Deliver;
    if steps != [] {
      match steps[0] {
        case Handle(env) => DeliverKeepsInv(a, env);
        case Send(m) => SendKeepsInv(a, m);
      }
      RunKeepsInv(Next(a, steps[0]), steps[1..]);
    }
  }

  /** What the invariant says of every state reachable from the start, outcome by outcome. */
  lemma Reachable(steps: seq<Step>)
    requires IsRun(INITIAL, steps)
    ensures var a := After(INITIAL, steps);
      && (a.behavior == WaitState <==> a.fm == SWait)
      && (a.fm == SWait ==> a.handle == OpenFile)
      && (CountOutcomes(a.mailbox) == 1 <==> a.fm == SOpen)
      && CountOutcomes(a.mailbox) <= 1
      && (a.fm == SRestart ==> CountSelfOpens(a.mailbox) == 1)
      && (a.fm in {SWait, SClose} ==> CountSelfOpens(a.mailbox) == 0)
      && OpensBeforeOutcome(a.mailbox)
  {
    InitialInv();
    RunKeepsInv(INITIAL, steps);
  }

  // ---------- closing is final until a client asks ----------

  /** Some delivery of the run hands the actor a client's open request. */
  predicate HandlesClientOpen(a: Db, steps: seq<Step>)
    requires IsRun(a, steps)
    decreases |steps|
  {
    steps != [] &&
    ((steps[0].Handle? && a.mailbox[0] == OpenDB(true)) || HandlesClientOpen(Next(a, steps[0]), steps[1..]))
  }

  /** In `sClose` one delivery reopens the file exactly when it is a client's open request. */
  lemma ReopenStep(a: Db, env: Env)
    requires Inv(a) && a.fm == SClose && a.mailbox != []
    ensures Deliver(a, env).fm == if a.mailbox[0] == OpenDB(true) then SOpen else SClose
    ensures a.mailbox[0] != OpenDB(true) ==> Deliver(a, env).handle == NoFile
  {
    NoOutcomeMember(a.mailbox);
  }

  /** A closed database stays closed along every run that handles no client open request. */
  lemma {:induction false} ClosedStaysClosed(a: Db, steps: seq<Step>)
    requires Inv(a) && a.fm == SClose && IsRun(a, steps) && !HandlesClientOpen(a, steps)
    ensures After(a, steps).fm == SClose && After(a, steps).handle == NoFile
    decreases |steps|
  {
    hide Deliver;
    if steps != [] {
      match steps[0] {
        case Handle(env) =>
          DeliverKeepsInv(a, env);
          ReopenStep(a, env);
        case Send(m) => SendKeepsInv(a, m);
      }
      ClosedStaysClosed(Next(a, steps[0]), steps[1..]);
    }
  }

  /** Closing, or stopping, takes effect at once: the file is closed and nothing stored is touched. */
  lemma CloseCloses(a: Db, env: Env)
    requires Inv(a) && a.fm == SWait && a.mailbox != [] && (a.mailbox[0] == CloseDB || a.mailbox[0] == Stopping)
    ensures var b := Deliver(a, env); b == Db(SClose, CloseState, NoFile, a.store, a.mailbox[1..])
  {
  }

  /** While the actor is not waiting for requests, a request is dropped without an answer. */
  lemma ClosedDropsRequests(a: Db, env: Env)
    requires Inv(a) && a.fm != SWait && a.mailbox != [] && a.mailbox[0].Request?
    ensures Deliver(a, env) == a.(mailbox := a.mailbox[1..]) && ReplyTo(a, env) == None
  {
  }

  lemma ClosedStoreStays(a: Db, env: Env)
    requires Inv(a) && a.fm == SClose && a.mailbox != []
    ensures Deliver(a, env).store == a.store
  {
    hide Transact;
  }

  /** Once closed, nothing is written or deleted along any run that handles no client open request. */
  lemma {:induction false} ClosedStoreIsFrozen(a: Db, steps: seq<Step>)
    requires Inv(a) && a.fm == SClose && IsRun(a, steps) && !HandlesClientOpen(a, steps)
    ensures After(a, steps).store == a.store
    decreases |steps|
  {
    hide Deliver, Inv;
    if steps != [] {
      match steps[0] {
        case Handle(env) =>
          DeliverKeepsInv(a, env);
          ReopenStep(a, env);
          ClosedStoreStays(a, env);
        case Send(m) => SendKeepsInv(a, m);
      }
      ClosedStoreIsFrozen(Next(a, steps[0]), steps[1..]);
    }
  }

  // ---------- no stuck restart ----------

  /** One delivery while the open is under way: only the pending outcome changes the state. */
  lemma OpeningStep(a: Db, env: Env)
    requires Inv(a) && a.fm == SOpen && env.opens
    ensures a.mailbox != []
    ensures var m, rest := a.mailbox[0], a.mailbox[1..];
      Deliver(a, env) == if m == OpenedDB then a.(fm := SWait, behavior := WaitState, mailbox := rest)
        else if m == ErrorDB then a.(fm := SRestart, mailbox := rest + [OpenDB(false)])
        else a.(mailbox := rest)
  {
  }

  /** One delivery while a restart is pending: an open request opens, the rest is dropped. */
  lemma RestartingStep(a: Db, env: Env)
    requires Inv(a) && a.fm == SRestart && env.opens
    ensures a.mailbox != []
    ensures var m, rest := a.mailbox[0], a.mailbox[1..];
      Deliver(a, env) == if m.OpenDB? then a.(fm := SOpen, handle := OpenFile, mailbox := rest + [OpenedDB])
        else a.(mailbox := rest)
  {
    NoOutcomeMember(a.mailbox);
  }

  function Deliveries(steps: seq<Step>): nat {
    if steps == [] then 0 else (if steps[0].Handle? then 1 else 0) + Deliveries(steps[1..])
  }

  function Sends(steps: seq<Step>): nat {
    if steps == [] then 0 else (if steps[0].Send? then 1 else 0) + Sends(steps[1..])
  }

  /** Some state of the run serves requests. */
  predicate ReachesWait(a: Db, steps: seq<Step>)
    requires IsRun(a, steps)
    decreases |steps|
  {
    a.fm == SWait || (steps != [] && ReachesWait(Next(a, steps[0]), steps[1..]))
  }

  /** How many more deliveries an opening or restarting actor needs at most. */
  function Distance(a: Db): nat {
    if a.fm == SWait then 0
    else if a.fm == SRestart then |a.mailbox| + 1
    else if OpenedDB in a.mailbox then |a.mailbox|
    else |a.mailbox| + 2
  }

  /** A delivery brings the actor closer, if the file can be opened. */
  lemma DeliveryAdvances(a: Db, env: Env)
    requires Inv(a) && a.fm in {SOpen, SRestart} && env.opens
    ensures a.mailbox != []
    ensures Deliver(a, env).fm in {SOpen, SRestart, SWait} && Distance(Deliver(a, env)) < Distance(a)
  {
    NoOutcomeMember(a.mailbox);
    NoOutcomeMember(a.mailbox[1..]);
    if a.fm == SOpen {
      OpeningStep(a, env);
      TakeHead(a.mailbox);
    } else {
      RestartingStep(a, env);
    }
    hide Deliver, OpensBeforeOutcome;
  }

  lemma SendDelays(a: Db, m: Message)
    requires FromOutside(m)
    ensures Distance(Next(a, Send(m))) <= Distance(a) + 1
  {
  }

  lemma {:induction false} WaitIsReached(a: Db, steps: seq<Step>)
    requires Inv(a) && a.fm in {SOpen, SRestart, SWait} && IsRun(a, steps)
    requires forall s :: s in steps && s.Handle? ==> s.env.opens
    requires Deliveries(steps) >= Distance(a) + Sends(steps)
    ensures ReachesWait(a, steps)
    decreases |steps|
  {
    hide Inv, Deliver, Distance;
    if a.fm != SWait {
      if steps == [] {
        DeliveryAdvances(a, Env(true, None, []));
      } else {
        match steps[0] {
          case Handle(env) =>
            DeliveryAdvances(a, env);
            DeliverKeepsInv(a, env);
          case Send(m) =>
            SendDelays(a, m);
            SendKeepsInv(a, m);
        }
        WaitIsReached(Next(a, steps[0]), steps[1..]);
      }
    }
  }

  /**
   No stuck restart: along every run whose attempts to open the file succeed, an actor that is opening or
   restarting serves requests after at most two deliveries more than its mailbox holds, plus one for each
   message sent to it meanwhile.
   */
  lemma Recovers(a: Db, steps: seq<Step>)
    requires Inv(a) && a.fm in {SOpen, SRestart} && IsRun(a, steps)
    requires forall s :: s in steps && s.Handle? ==> s.env.opens
    requires Deliveries(steps) >= |a.mailbox| + 2 + Sends(steps)
    ensures ReachesWait(a, steps)
  {
    hide Inv, ReachesWait;
    WaitIsReached(a, steps);
  }

  // ---------- replies ----------

  /** What the sender of the head message is answered, if anything. */
  function ReplyTo(a: Db, env: Env): Option<Reply>
    requires a.mailbox != []
  {
    if a.behavior == CloseState then
      if a.mailbox[0] == OpenDB(true) && Deliver(a, env).fm in {SOpen, SWait} then Some(Opened) else None
    else
      match a.mailbox[0]
      case OpenDB(client) => if client then Some(Opened) else None
      case Request(op, sender) =>
        if !sender then None
        else
          var failed := Attempt(a, op, env).0 != None;
          (match op
           case Insert(id, _, _) => Some(if failed then NoAckPersist else AckPersist(if id == [] then env.uid else id))
           case Update(id, _, _) => Some(if failed then NoAckPersist else AckPersist(if id == [] then env.uid else id))
           case Delete(_, _) => Some(if failed then NoAckDelete else AckDelete)
           case Read => Some(if failed then NoAckRead else ReadDone))
      case _ => None
  }

  /**
   A client's open request is always answered with success. The file is open after it exactly when
   it already was, or its opening has succeeded or now succeeds.
   */
  lemma OpenReply(a: Db, env: Env)
    requires Inv(a) && a.mailbox != [] && a.mailbox[0] == OpenDB(true)
    ensures ReplyTo(a, env) == Some(Opened)
    ensures Deliver(a, env).handle == OpenFile <==>
      (a.fm == SWait || (a.fm == SOpen && OpenedDB in a.mailbox) || (a.fm !in {SWait, SOpen} && env.opens))
  {
  }

  /** From the first message on: the file cannot be opened, and a client is told that it was. */
  lemma OpenReplyCanMislead(env: Env)
    requires !env.opens
    ensures var steps := [Send(OpenDB(true)), Handle(env)];
      && IsRun(INITIAL, steps)
      && var a := After(INITIAL, steps);
         a.mailbox != [] && a.mailbox[0] == OpenDB(true) && ReplyTo(a, env) == Some(Opened) && Deliver(a, env).handle == NoFile
  {
    var steps := [Send(OpenDB(true)), Handle(env)];
    var b := INITIAL.(mailbox := [Started, OpenDB(true)]);
    assert Next(INITIAL, steps[0]) == b;
    assert b.mailbox[1..] == [OpenDB(true)];
    var c := Deliver(b, env);
    assert c.mailbox == [OpenDB(true), ErrorDB];
    assert steps[1..] == [Handle(env)] && steps[1..][1..] == [];
    assert IsRun(c, []) && After(c, []) == c;
    assert IsRun(b, steps[1..]) && After(b, steps[1..]) == c;
  }

  // ---------- one request, its answer and its effect ----------

  /** The identifier a write goes under. */
  function KeyOf(op: Op, env: Env): Key
    requires op.Insert? || op.Update?
  {
    if op.id == [] then env.uid else op.id
  }

  /** When a transaction commits: no fault, and for a write a collection's name, for an insert a free key, for a delete the collection. */
  predicate Commits(st: Store, op: Op, env: Env) {
    && env.fault == None
    && match op
       case Insert(_, _, c) => c != "" && Lookup(st, c, KeyOf(op, env)) == None
       case Update(_, _, c) => c != ""
       case Delete(_, c) => c in st
       case Read => true
  }

  /** A waiting actor acknowledges exactly the requests that commit, a write under the key it was stored with. */
  lemma AnsweredExactly(a: Db, env: Env, op: Op, sender: bool)
    requires Inv(a) && a.fm == SWait && a.mailbox != [] && a.mailbox[0] == Request(op, sender)
    ensures !sender ==> ReplyTo(a, env) == None
    ensures sender ==> ReplyTo(a, env) == Some(match op
      case Insert(_, _, _) => if Commits(a.store, op, env) then AckPersist(KeyOf(op, env)) else NoAckPersist
      case Update(_, _, _) => if Commits(a.store, op, env) then AckPersist(KeyOf(op, env)) else NoAckPersist
      case Delete(_, _) => if Commits(a.store, op, env) then AckDelete else NoAckDelete
      case Read => if Commits(a.store, op, env) then ReadDone else NoAckRead)
  {
    hide Lookup;
  }

  /** What is under any key afterwards: the data written or nothing where it committed, all else as before. */
  lemma StoredExactly(a: Db, env: Env, op: Op, sender: bool, c: string, q: Key)
    requires Inv(a) && a.fm == SWait && a.mailbox != [] && a.mailbox[0] == Request(op, sender)
    ensures Lookup(Deliver(a, env).store, c, q) ==
      if Commits(a.store, op, env) && !op.Read? && c == op.collection && q == (if op.Delete? then op.id else KeyOf(op, env))
      then (if op.Delete? then None else Some(op.data))
      else Lookup(a.store, c, q)
  {
    DeliveredStore(a, env, op, sender);
    match op {
      case Insert(_, d, cc) => LookupWrite(a.store, cc, KeyOf(op, env), d, c, q);
      case Update(_, d, cc) => LookupWrite(a.store, cc, KeyOf(op, env), d, c, q);
      case Delete(id, cc) => LookupErase(a.store, cc, id, c, q);
      case Read =>
    }
    hide Deliver, Lookup, Inv, Write, Erase, Commits;
  }

  lemma DeliveredStore(a: Db, env: Env, op: Op, sender: bool)
    requires Inv(a) && a.fm == SWait && a.mailbox != [] && a.mailbox[0] == Request(op, sender)
    ensures Deliver(a, env).store == if !Commits(a.store, op, env) then a.store
      else match op
        case Insert(_, d, c) => Write(a.store, c, KeyOf(op, env), d)
        case Update(_, d, c) => Write(a.store, c, KeyOf(op, env), d)
        case Delete(id, c) => Erase(a.store, c, id)
        case Read => a.store
  {
    hide Lookup, Write, Erase;
  }

  /** The actor goes on waiting, unless the database was found open twice, or not writable by an update. */
  lemma RestartsExactly(a: Db, env: Env, op: Op, sender: bool)
    requires Inv(a) && a.fm == SWait && a.mailbox != [] && a.mailbox[0] == Request(op, sender)
    ensures var b, rest := Deliver(a, env), a.mailbox[1..];
      if env.fault == Some(DatabaseOpen) || (op.Update? && env.fault in {Some(DatabaseReadOnly), Some(TxNotWritable)})
      then b.fm == SRestart && b.behavior == CloseState && b.mailbox == rest + [OpenDB(false)]
      else b.fm == SWait && b.behavior == WaitState && b.mailbox == rest && b.handle == OpenFile
  {
    hide Lookup, Write, Erase;
  }

  // ---------- the actor ----------

  class DbActor {
    var fm: FsmState
    var behavior: Behavior
    var handle: Handle
    var mailbox: seq<Message>
    const file: Database

    /** `Open`: the actor is spawned in `CloseState`, its first message is `Started`. */
    constructor ()
      ensures Value() == INITIAL && fresh(file)
    {
      fm, behavior, handle, mailbox := SInit, CloseState, NoFile, [Started];
      file := new Database();
    }

    function Value(): Db
      reads this, file
    {
      Db(fm, behavior, handle, file.contents, mailbox)
    }

    method SendSelf(m: Message)
      modifies this`mailbox
      ensures mailbox == old(mailbox) + [m]
    {
      mailbox := mailbox + [m];
    }

    /** `a.fm.Event(e)` with the enter callbacks of `initFSM`. */
    method FireEvent(e: Event, env: Env)
      modifies this
      ensures Value() == Fire(old(Value()), e, env)
    {
      var dst := Target(fm, e);
      if dst == None {
        return;
      }
      fm := dst.value;
      match dst.value {
        case SOpen =>
          if handle != NoFile {
            handle := ClosedFile;
          }
          if env.opens {
            handle := OpenFile;
            SendSelf(OpenedDB);
          } else {
            SendSelf(ErrorDB);
          }
        case SClose =>
          handle := NoFile;
          behavior := CloseState;
        case SRestart =>
          behavior := CloseState;
          SendSelf(OpenDB(false));
        case _ =>
      }
    }

    /** `Receive`: the next message goes to the current behaviour. */
    method Receive(env: Env) returns (reply: Option<Reply>)
      requires mailbox != [] && StoreSorted(file.contents)
      modifies this, file
      ensures Value() == Deliver(old(Value()), env)
      ensures reply == ReplyTo(old(Value()), env)
      ensures old(Inv(Value())) ==> Inv(Value())
    {
      hide Inv;
      if Inv(Value()) {
        DeliverKeepsInv(Value(), env);
      }
      var msg := mailbox[0];
      mailbox := mailbox[1..];
      if behavior == CloseState {
        reply := ReceiveClosed(msg, env);
      } else {
        reply := ReceiveWaiting(msg, env);
      }
    }

    /** `CloseState` */
    method ReceiveClosed(msg: Message, env: Env) returns (reply: Option<Reply>)
      requires behavior == CloseState
      modifies this
      ensures var a := old(Value()).(mailbox := [msg] + old(mailbox));
        Value() == Deliver(a, env) && reply == ReplyTo(a, env)
    {
      ghost var a := Value().(mailbox := [msg] + mailbox);
      assert a.mailbox[1..] == mailbox;
      reply := None;
      match msg {
        case Started => FireEvent(EOpenCmd, env);
        case ErrorDB => FireEvent(EError, env);
        case OpenDB(client) =>
          FireEvent(EOpenCmd, env);
          if fm == SOpen || fm == SWait {
            if client {
              reply := Some(Opened);
            }
          }
        case OpenedDB =>
          behavior := WaitState;
          FireEvent(EOpened, env);
        case _ =>
      }
    }

    /** `WaitState` */
    method ReceiveWaiting(msg: Message, env: Env) returns (reply: Option<Reply>)
      requires behavior == WaitState && StoreSorted(file.contents)
      modifies this, file
      ensures var a := old(Value()).(mailbox := [msg] + old(mailbox));
        Value() == Deliver(a, env) && reply == ReplyTo(a, env)
    {
      ghost var a := Value().(mailbox := [msg] + mailbox);
      assert a.mailbox[1..] == mailbox;
      reply := None;
      match msg {
        case Stopping =>
          handle := ClosedFile;
          FireEvent(EClosed, env);
        case CloseDB =>
          handle := ClosedFile;
          FireEvent(EClosed, env);
        case OpenDB(client) =>
          if client {
            reply := Some(Opened);
          }
        case ErrorDB => FireEvent(EError, env);
        case Request(op, sender) => reply := Serve(op, sender, env);
        case _ =>
      }
    }

    /** The insert, update, delete and read cases of `WaitState`. */
    method Serve(op: Op, sender: bool, env: Env) returns (reply: Option<Reply>)
      requires behavior == WaitState && StoreSorted(file.contents)
      modifies this, file
      ensures var a := old(Value()).(mailbox := [Request(op, sender)] + old(mailbox));
        Value() == Deliver(a, env) && reply == ReplyTo(a, env)
    {
      ghost var a := Value().(mailbox := [Request(op, sender)] + mailbox);
      assert a.mailbox[1..] == mailbox;
      var err: Option<TxError>;
      var fault: Option<TxError> := if handle == OpenFile then env.fault else Some(DatabaseNotOpen);
      var key: Key := [];
      match op {
        case Insert(id, data, c) =>
          key := if id == [] then env.uid else id;
          err := file.PersistData(key, data, c, false, env.uid, fault);
        case Update(id, data, c) =>
          key := if id == [] then env.uid else id;
          err := file.PersistData(key, data, c, true, env.uid, fault);
        case Delete(id, c) =>
          err := file.RemoveData(id, c, fault);
        case Read =>
          err := fault;
      }
      if err != None && Escalates(op, err.value) {
        FireEvent(EError, env);
      }
      if !sender {
        return None;
      }
      match op {
        case Insert(_, _, _) => return Some(if err == None then AckPersist(key) else NoAckPersist);
        case Update(_, _, _) => return Some(if err == None then AckPersist(key) else NoAckPersist);
        case Delete(_, _) => return Some(if err == None then AckDelete else NoAckDelete);
        case Read => return Some(if err == None then ReadDone else NoAckRead);
      }
    }
  }
}
