/**
 The remote actor's two paths for an event: send it now, or store it and replay it later.
 The functions say what one message or one callback does; class RemoteActor does it.
 */
module Replay {
  import opened MachineInts
  import opened Options
  import opened Buckets
  import opened Lifecycle
  import opened Decimal

  /** `CollectionUsosData` */
  const EVENTS := "events"

  /** The actor's settings; `dateOf` formats the day of a millisecond clock reading. */
  datatype Config = Config(retryDays: int64, disableReplay: bool, dateOf: int -> string)

  /** What became of a `MsgSendData` request within its timeout. */
  datatype Answer = Acked | AnsweredError | NoAnswer

  // ---------- time ----------

  /** Go's integer division, which truncates towards zero. */
  function Quo(x: int, y: int): int
    requires y > 0
  {
    if x >= 0 then x / y else -((-x) / y)
  }

  /** The millisecond an identifier was minted in, `tid/1000_000`. */
  function MilliOf(tid: int64): int {
    Quo(tid, 1_000_000)
  }

  /** A `time.Duration` saturates at the ends of int64. */
  function Saturate(x: int): int64 {
    if x >= TWO_63 then TWO_63 - 1 else if x < -TWO_63 then -TWO_63 else x
  }

  /** `time.Since(time.UnixMilli(tid/1000_000))` at the clock reading `now`, in nanoseconds. */
  function Age(now: int, tid: int64): int64 {
    Saturate(now - MilliOf(tid) * 1_000_000)
  }

  const DAY := 86_400_000_000_000

  /** `time.Duration(days)*24*time.Hour`, with its wrap-around. */
  function Limit(days: int64): int64 {
    Wrap64(days * DAY)
  }

  predicate TooOld(cfg: Config, now: int, tid: int64) {
    cfg.retryDays > 0 && Age(now, tid) > Limit(cfg.retryDays)
  }

  /** The dated archive an identifier belongs to. */
  function ArchiveOf(cfg: Config, tid: int64): string {
    EVENTS + "_" + cfg.dateOf(MilliOf(tid))
  }

  lemma ArchiveIsNotEvents(cfg: Config, tid: int64)
    ensures ArchiveOf(cfg, tid) != EVENTS && ArchiveOf(cfg, tid) != ""
  {
    assert |ArchiveOf(cfg, tid)| > |EVENTS|;
  }

  lemma MilliMonotone(older: int64, tid: int64)
    requires older <= tid
    ensures MilliOf(older) <= MilliOf(tid)
  {
  }

  /** Among entries judged at one clock reading, whatever is older than an archived one is archived too. */
  lemma OlderIsTooOld(cfg: Config, now: int, older: int64, tid: int64)
    requires older <= tid && TooOld(cfg, now, tid)
    ensures TooOld(cfg, now, older)
  {
    MilliMonotone(older, tid);
    hide MilliOf;
  }

  /** The test means what it says of every event at every clock reading exactly for limits up to 106751 days. */
  lemma LimitIsExact(cfg: Config)
    requires cfg.retryDays > 0
    ensures (forall now: int, tid: int64 :: TooOld(cfg, now, tid) <==> now - MilliOf(tid) * 1_000_000 > cfg.retryDays * DAY)
      <==> cfg.retryDays <= 106751
  {
    if cfg.retryDays > 106751 {
      var now, tid: int64 := TWO_63 - 1, 0;
      assert MilliOf(tid) == 0;
      LimitDisagrees(cfg, now, tid);
    } else {
      forall now: int, tid: int64
        ensures TooOld(cfg, now, tid) <==> now - MilliOf(tid) * 1_000_000 > cfg.retryDays * DAY
      {
        LimitHolds(cfg, now, tid);
      }
    }
  }

  lemma LimitHolds(cfg: Config, now: int, tid: int64)
    requires 0 < cfg.retryDays <= 106751
    ensures TooOld(cfg, now, tid) <==> now - MilliOf(tid) * 1_000_000 > cfg.retryDays * DAY
  {
    hide MilliOf;
  }

  lemma LimitDisagrees(cfg: Config, now: int, tid: int64)
    requires cfg.retryDays > 106751 && now == TWO_63 - 1 && MilliOf(tid) == 0
    ensures TooOld(cfg, now, tid) != (now - MilliOf(tid) * 1_000_000 > cfg.retryDays * DAY)
  {
    LimitIsEven(cfg.retryDays);
    hide MilliOf, Limit;
  }

  /** A wrapped limit is even, so it is not the largest duration. */
  lemma LimitIsEven(days: int64)
    ensures Limit(days) % 2 == 0
  {
    var half := 43_200_000_000_000 * days;
    assert days * DAY == 2 * half;
    WrapEven(half);
  }

  lemma WrapEven(half: int)
    ensures Wrap64(2 * half) % 2 == 0
  {
    var y := 2 * half + TWO_63;
    var q := y / TWO_64;
    assert y % TWO_64 == y - TWO_64 * q;
    assert y % TWO_64 == 2 * (half + TWO_63 / 2 - TWO_63 * q);
  }

  /** At 106752 days the limit is below zero: an event of this very instant counts as too old. */
  lemma LimitOverflows(cfg: Config, now: int64)
    requires cfg.retryDays == 106752 && now >= 0
    ensures TooOld(cfg, now, now)
  {
  }

  /** The age in terms of the instant itself: it is taken in milliseconds, cut off towards 1970. */
  lemma AgeByInstant(cfg: Config, now: int, tid: int64)
    ensures cfg.retryDays <= 0 ==> !TooOld(cfg, now, tid)
    ensures 0 < cfg.retryDays <= 106751 && tid >= 0 ==>
      && (now - tid > cfg.retryDays * 86_400_000_000_000 ==> TooOld(cfg, now, tid))
      && (now - tid + 999_999 <= cfg.retryDays * 86_400_000_000_000 ==> !TooOld(cfg, now, tid))
    ensures 0 < cfg.retryDays <= 106751 && tid < 0 ==>
      && (now - tid - 999_999 > cfg.retryDays * 86_400_000_000_000 ==> TooOld(cfg, now, tid))
      && (now - tid <= cfg.retryDays * 86_400_000_000_000 ==> !TooOld(cfg, now, tid))
  {
    if 0 < cfg.retryDays <= 106751 {
      LimitHolds(cfg, now, tid);
      hide TooOld;
    }
  }

  /** The archive of an event is named after the day of the millisecond it was minted in. */
  lemma ArchiveByInstant(cfg: Config, tid: int64, m: int)
    requires 0 <= m && m * 1_000_000 <= tid < (m + 1) * 1_000_000
    ensures ArchiveOf(cfg, tid) == "events" + "_" + cfg.dateOf(m)
  {
  }

  // ---------- the query closure ----------

  /** The outcome of one call of the closure: its counter and flag, the messages sent to the database, the result. */
  datatype Effect = Effect(count: nat, retryFlag: bool, sent: seq<Op>, acked: bool, again: bool)

  /** The closure `query` of `verifyReplay` on one entry. */
  function Callback(cfg: Config, isConnected: bool, retryFlag: bool, count: nat, e: Entry, now: int, answer: Answer): Effect {
    if count > 30 then Effect(count, true, [], false, false)
    else match ParseInt(e.key)
      case None => Effect(count + 1, retryFlag, [Delete(e.key, EVENTS)], false, true)
      case Some(tid) =>
        if TooOld(cfg, now, tid) then
          Effect(count + 1, retryFlag,
                 [Update(e.key, e.data, ArchiveOf(cfg, tid)), Delete(e.key, EVENTS)], false, true)
        else if !isConnected || answer != Acked then Effect(count + 1, retryFlag, [], false, false)
        else Effect(count + 1, retryFlag, [Delete(e.key, EVENTS)], true, true)
  }

  /** What one call does with a minted event, by the instant it was minted and the instant it is judged. */
  lemma MintedEventFate(cfg: Config, isConnected: bool, flag: bool, count: nat, n: nat, d: seq<byte>, now: int, answer: Answer)
    requires n < TWO_63 && cfg.retryDays <= 106751
    ensures var f, k := Callback(cfg, isConnected, flag, count, Entry(Dec(n), d), now, answer), Dec(n);
      if count > 30 then f == Effect(count, true, [], false, false)
      else
        && (cfg.retryDays > 0 && now - n > cfg.retryDays * 86_400_000_000_000 ==>
              f == Effect(count + 1, flag, [Update(k, d, "events_" + cfg.dateOf(n / 1_000_000)), Delete(k, "events")], false, true))
        && (cfg.retryDays <= 0 || now - n + 999_999 <= cfg.retryDays * 86_400_000_000_000 ==>
              f == if isConnected && answer == Acked then Effect(count + 1, flag, [Delete(k, "events")], true, true)
                   else Effect(count + 1, flag, [], false, false))
  {
    ParseMinted(n);
    AgeByInstant(cfg, now, n);
    var m: nat := n / 1_000_000;
    ArchiveByInstant(cfg, n, m);
    assert "events" + "_" == "events_";
    hide TooOld, ArchiveOf, ParseInt, Dec;
  }

  /** A key that is no identifier is removed. */
  lemma ForeignKeyFate(cfg: Config, isConnected: bool, flag: bool, count: nat, e: Entry, now: int, answer: Answer)
    requires ParseInt(e.key) == None && count <= 30
    ensures Callback(cfg, isConnected, flag, count, e, now, answer) == Effect(count + 1, flag, [Delete(e.key, "events")], false, true)
  {
  }

  // ---------- the live path ----------

  /** The fields of `RemoteActor` that decide anything. */
  datatype Remote = Remote(isConnected: bool, isDatabaseOpen: bool, retryFlag: bool)

  /** `client` answered, or the request was never made. */
  predicate SendSucceeds(r: Remote, answer: Answer) {
    r.isConnected && answer != NoAnswer
  }

  function Reopened(r: Remote, opens: bool): Remote {
    if r.isDatabaseOpen then r else r.(isDatabaseOpen := opens)
  }

  /** Handling `RemoteMSG2`: the actor afterwards, and the write sent to the database if any. */
  function Live(cfg: Config, r: Remote, data: seq<byte>, now: nat, answer: Answer, opens: bool): (Remote, seq<Op>) {
    if SendSucceeds(r, answer) then (r, [])
    else
      var s := Reopened(r, opens);
      (s, if !cfg.disableReplay && s.isDatabaseOpen then [Update(Dec(now), data, EVENTS)] else [])
  }

  /**
   The live path in full: what was answered, in whatever way, changes nothing; otherwise the database is
   opened if it was not, and with replay enabled and the database open the event is written under the clock.
   */
  lemma LiveExactly(cfg: Config, r: Remote, data: seq<byte>, now: nat, answer: Answer, opens: bool)
    ensures var (s, sent) := Live(cfg, r, data, now, answer, opens);
      && s.isConnected == r.isConnected && s.retryFlag == r.retryFlag
      && (r.isConnected && (answer == Acked || answer == AnsweredError) ==> s == r && sent == [])
      && (!r.isConnected || answer == NoAnswer ==>
            && s.isDatabaseOpen == (r.isDatabaseOpen || opens)
            && sent == if s.isDatabaseOpen && !cfg.disableReplay then [Update(Dec(now), data, "events")] else [])
  {
    hide Dec;
  }

  /** A pass begins by lowering the flag, and starts if the database is open or can be opened. */
  lemma VerifyExactly(r: Remote, opens: bool)
    ensures var (s, starts) := Verify(r, opens);
      && starts == (r.isDatabaseOpen || opens)
      && s == Remote(r.isConnected, r.isDatabaseOpen || opens, false)
  {
  }

  /** Handling `verifyReplay`: the actor afterwards, and whether a query starts. */
  function Verify(r: Remote, opens: bool): (Remote, bool) {
    var s := Reopened(r.(retryFlag := false), opens);
    (s, s.isDatabaseOpen)
  }

  /** The event reached the backend: the client answered, and not with an error. */
  predicate Delivered(r: Remote, answer: Answer) {
    r.isConnected && answer == Acked
  }

  /** The gap: connected, database open, replay enabled, and a `MsgError` answer loses the event. */
  lemma ErrorAnswerLosesEvent(dateOf: int -> string, data: seq<byte>, now: nat)
    ensures var cfg, r := Config(2, false, dateOf), Remote(true, true, false);
      Live(cfg, r, data, now, AnsweredError, true) == (r, []) && !Delivered(r, AnsweredError)
  {
  }
}
