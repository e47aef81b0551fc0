/**
 The requests on their way to the database actor: what they may be, given what has happened so far, and
 why a delete among them loses nothing.
 */
module Lanes {
  import opened MachineInts
  import opened Options
  import opened Buckets
  import opened Lifecycle
  import opened Decimal
  import opened Replay

  /**
   What has happened so far: the events stored under their identifiers, the identifiers a client has
   answered other than with an error, and the messages served with and without effect.
   */
  datatype Past = Past(minted: map<Key, seq<byte>>, acked: set<Key>, done: set<Op>, missed: set<Op>)

  /** The past once op has been served. */
  function Recorded(p: Past, op: Op, effect: bool): Past {
    if effect then p.(done := p.done + {op}) else p.(missed := p.missed + {op})
  }

  // ---------- the messages about an event ----------

  predicate IsNumeric(k: Key) {
    ParseInt(k) != None
  }

  function ArchiveFor(cfg: Config, k: Key): string
    requires IsNumeric(k)
  {
    ArchiveOf(cfg, ParseInt(k).value)
  }

  /** The write that stores the event. */
  function LiveWrite(p: Past, k: Key): Op
    requires k in p.minted
  {
    Update(k, p.minted[k], EVENTS)
  }

  /** The write that archives it. */
  function ArchiveWrite(cfg: Config, p: Past, k: Key): Op
    requires k in p.minted && IsNumeric(k)
  {
    Update(k, p.minted[k], ArchiveFor(cfg, k))
  }

  function Removal(k: Key): Op {
    Delete(k, EVENTS)
  }

  predicate IsLive(op: Op) {
    op.Update? && op.collection == EVENTS
  }

  // ---------- what a lane may hold ----------

  /** A message to the database that respects what was minted. */
  predicate GoodOp(cfg: Config, p: Past, op: Op) {
    match op
    case Insert(_, _, _) => false
    case Update(k, d, c) =>
      k in p.minted && d == p.minted[k] && IsNumeric(k) && k != [] && (c == EVENTS || c == ArchiveFor(cfg, k))
    case Delete(k, c) => c == EVENTS && (IsNumeric(k) ==> k in p.minted && LiveWrite(p, k) in p.done)
    case Read => true
  }

  /** Once the messages q are served, deleting k from `events` has been provided for. */
  predicate Covered(cfg: Config, p: Past, q: seq<Op>, k: Key)
    requires k in p.minted && IsNumeric(k)
  {
    k in p.acked || ArchiveWrite(cfg, p, k) in p.done + p.missed || ArchiveWrite(cfg, p, k) in q
  }

  ghost predicate LaneOk(cfg: Config, p: Past, q: seq<Op>) {
    && (forall op :: op in q ==> GoodOp(cfg, p, op))
    && (forall i :: 0 <= i < |q| && q[i].Delete? && IsNumeric(q[i].id) ==> q[i].id in p.minted && Covered(cfg, p, q[..i], q[i].id))
  }

  /** A numeric entry is a stored event. */
  predicate EntryOk(p: Past, e: Entry) {
    IsNumeric(e.key) ==> e.key in p.minted && p.minted[e.key] == e.data && LiveWrite(p, e.key) in p.done
  }

  // ---------- lanes ----------

  /** More has happened. */
  predicate Follows(p: Past, q: Past) {
    && (forall k :: k in p.minted ==> k in q.minted && q.minted[k] == p.minted[k])
    && p.acked <= q.acked && p.done <= q.done && p.missed <= q.missed
  }

  lemma GoodLater(cfg: Config, p: Past, q: Past, op: Op)
    requires GoodOp(cfg, p, op) && Follows(p, q)
    ensures GoodOp(cfg, q, op)
  {
    hide IsNumeric;
  }

  lemma CoveredLater(cfg: Config, p: Past, q: Past, lane: seq<Op>, k: Key)
    requires Follows(p, q) && k in p.minted && IsNumeric(k) && Covered(cfg, p, lane, k)
    ensures k in q.minted && Covered(cfg, q, lane, k)
  {
    hide IsNumeric;
  }

  /** Nothing a lane relies on is lost as more happens. */
  lemma LaneLater(cfg: Config, p: Past, q: Past, lane: seq<Op>)
    requires LaneOk(cfg, p, lane) && Follows(p, q)
    ensures LaneOk(cfg, q, lane)
  {
    hide GoodOp, Covered, IsNumeric;
    forall op | op in lane ensures GoodOp(cfg, q, op) {
      GoodLater(cfg, p, q, op);
    }
    forall i | 0 <= i < |lane| && lane[i].Delete? && IsNumeric(lane[i].id)
      ensures lane[i].id in q.minted && Covered(cfg, q, lane[..i], lane[i].id)
    {
      CoveredLater(cfg, p, q, lane[..i], lane[i].id);
    }
  }

  lemma EntryLater(p: Past, q: Past, e: Entry)
    requires EntryOk(p, e) && Follows(p, q)
    ensures EntryOk(q, e)
  {
    hide IsNumeric;
  }

  /** A lane moves on when its first message is served, with effect or without. */
  lemma LaneServed(cfg: Config, p: Past, lane: seq<Op>, effect: bool)
    requires lane != [] && LaneOk(cfg, p, lane)
    ensures LaneOk(cfg, Recorded(p, lane[0], effect), lane[1..])
  {
    hide GoodOp, IsNumeric;
    var q, rest := Recorded(p, lane[0], effect), lane[1..];
    LaneLater(cfg, p, q, lane);
    forall i | 0 <= i < |rest| && rest[i].Delete? && IsNumeric(rest[i].id)
      ensures rest[i].id in q.minted && Covered(cfg, q, rest[..i], rest[i].id)
    {
      assert lane[i + 1] == rest[i];
      assert lane[..i + 1] == [lane[0]] + rest[..i];
      assert Covered(cfg, q, lane[..i + 1], rest[i].id);
    }
    forall op | op in rest ensures GoodOp(cfg, q, op) {
      assert op in lane;
    }
  }

  /** A lane accepts another good message; a delete must be covered by what stands before it. */
  lemma LaneAppend(cfg: Config, p: Past, q: seq<Op>, op: Op)
    requires LaneOk(cfg, p, q) && GoodOp(cfg, p, op)
    requires op.Delete? && IsNumeric(op.id) ==> Covered(cfg, p, q, op.id)
    ensures LaneOk(cfg, p, q + [op])
  {
    hide GoodOp, IsNumeric, Covered;
    var r := q + [op];
    assert op.Delete? && IsNumeric(op.id) ==> op.id in p.minted by { GoodDelete(cfg, p, op); }
    forall i | 0 <= i < |r| && r[i].Delete? && IsNumeric(r[i].id)
      ensures r[i].id in p.minted && Covered(cfg, p, r[..i], r[i].id)
    {
      if i < |q| {
        assert r[..i] == q[..i];
      } else {
        assert r[..i] == q;
      }
    }
  }

  lemma GoodDelete(cfg: Config, p: Past, op: Op)
    requires GoodOp(cfg, p, op)
    ensures op.Delete? && IsNumeric(op.id) ==> op.id in p.minted
  {
  }

  /** A message may be slipped in between two parts of a lane. */
  lemma LaneInsert(cfg: Config, p: Past, q: seq<Op>, op: Op, out: seq<Op>)
    requires LaneOk(cfg, p, q + out) && LaneOk(cfg, p, q + [op])
    ensures LaneOk(cfg, p, q + [op] + out)
  {
    hide GoodOp, IsNumeric;
    var r := q + [op] + out;
    forall i | 0 <= i < |r| && r[i].Delete? && IsNumeric(r[i].id)
      ensures r[i].id in p.minted && Covered(cfg, p, r[..i], r[i].id)
    {
      if i <= |q| {
        assert r[i] == (q + [op])[i] && r[..i] == (q + [op])[..i];
      } else {
        assert r[i] == (q + out)[i - 1];
        assert r[..i] == q + [op] + out[..i - 1 - |q|];
        assert (q + out)[..i - 1] == q + out[..i - 1 - |q|];
      }
    }
    forall o | o in r ensures GoodOp(cfg, p, o) {
      assert o in q + out || o in q + [op];
    }
  }

  lemma LanePrefix(cfg: Config, p: Past, q: seq<Op>, out: seq<Op>)
    requires LaneOk(cfg, p, q + out)
    ensures LaneOk(cfg, p, q)
  {
    hide GoodOp, IsNumeric, Covered;
    forall i | 0 <= i < |q| && q[i].Delete? && IsNumeric(q[i].id)
      ensures q[i].id in p.minted && Covered(cfg, p, q[..i], q[i].id)
    {
      assert (q + out)[i] == q[i] && (q + out)[..i] == q[..i];
    }
    forall o | o in q ensures GoodOp(cfg, p, o) {
      assert o in q + out;
    }
  }

  lemma FollowsRecorded(p: Past, op: Op, effect: bool)
    ensures Follows(p, Recorded(p, op, effect))
  {
  }
}
