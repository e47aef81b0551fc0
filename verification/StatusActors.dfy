/** The abbreviations the gateway uses, and the actor that sends status deltas. */
module StatusActors {
  import opened MachineInts
  import opened Options
  import opened Status
  import opened Delta

  // ---------- keys2Abrev ----------

  const ABBREV_1: seq<(string, string)> := [
    ("upTime", "uT"), ("sn-dev", "sDv"), ("sn-modem", "sM"), ("sn-display", "sDs"), ("timestamp", "t"),
    ("timeStamp", "t"), ("ipMaskMap", "iMM"), ("hostname", "h"), ("simStatus", "sS"), ("simImei", "sI"),
    ("usosTranspCount", "uTC")]

  const ABBREV_2: seq<(string, string)> := [
    ("sn-wifi", "sW"), ("volt", "vo"), ("currentValue", "cV"), ("frontDoorPassengerUpAccum", "fDPUA"),
    ("frontDoorPassengerDownAccum", "fDPDA"), ("backDoorPassengerUpAccum", "bDPUA"),
    ("backDoorPassengerDownAccum", "bDPDA"), ("turnstileUpAccum", "tsUA"), ("turnstileDownAccum", "tsDA"),
    ("turnstileUpCount", "tsUC"), ("turnstileDownCount", "tsDC")]

  const ABBREV_3: seq<(string, string)> := [
    ("turnstileBattery", "tsBT"), ("turnstileAnomaliesAccum", "tsAN"), ("turnstileObstruction", "tsOB"),
    ("highestValue", "hV"), ("lowestValue", "lV"), ("mac", "m"), ("cpuStatus", "cS"), ("dns", "dns"),
    ("deviceDataList", "dD"), ("totalValue", "tV"), ("unitInformation", "uI")]

  const ABBREV_4: seq<(string, string)> := [
    ("gateway", "g"), ("errsTranspCount", "eTC"), ("value", "vl"), ("type", "tp"), ("gstatus", "gs"),
    ("temperature", "temp"), ("AppVers", "AVer"), ("libparamoperacioncliente", "lPOC"),
    ("libcontrolregistros", "lCR"), ("embedded.libgestionhardware", "elGH"),
    ("libcontrolconsecutivos", "lCC")]

  const ABBREV_5: seq<(string, string)> := [
    ("AppUsosTrasnporte", "aUT"), ("libcommonentities", "lCE"), ("libcontrolmensajeria", "lCM"),
    ("libgestionhardware", "lGH"), ("type-dev", "tDv"), ("AppTablesVers", "ATVer"), ("TablaTrayectos", "TT"),
    ("Trayectos", "TT"), ("Class", "LN"), ("ListaNegra", "LN"), ("Listas restrictivas", "LN")]

  const ABBREV_6: seq<(string, string)> := [
    ("Limites de tiempo", "LT"), ("TablaLimitesTiempo", "LT"), ("Mapa rutas", "MR"), ("MapaRutas", "MR"),
    ("Configuracion general", "CG"), ("ConfiguracionGeneral", "CG"), ("Mensajes de usuario", "MU"),
    ("MensajeUsuario", "MU"), ("groupName", "gN"), ("additionalData", "aD"), ("version", "v")]

  function ToMap(pairs: seq<(string, string)>): map<string, string> {
    if pairs == [] then map[] else ToMap(pairs[1..])[pairs[0].0 := pairs[0].1]
  }

  const ABBREVIATIONS: seq<(string, string)> := ABBREV_1 + ABBREV_2 + ABBREV_3 + ABBREV_4 + ABBREV_5 + ABBREV_6

  /** `keys2Abrev` */
  const KEYS_TO_ABBREV: map<string, string> := ToMap(ABBREVIATIONS)

  lemma {:induction false} FromPair(pairs: seq<(string, string)>, k: string)
    requires k in ToMap(pairs)
    ensures (k, ToMap(pairs)[k]) in pairs
  {
    if pairs[0].0 != k {
      FromPair(pairs[1..], k);
    }
  }

  /** The keys of at most five characters, the only ones an abbreviation could be mistaken for. */
  predicate IsShortKey(k: string) {
    k == "volt" || k == "mac" || k == "dns" || k == "value" || k == "type" || k == "Class"
  }

  /** An abbreviation is short and is no key, unless it abbreviates itself. */
  predicate Harmless(p: (string, string)) {
    |p.1| <= 5 && (|p.0| <= 5 ==> IsShortKey(p.0)) && (IsShortKey(p.1) ==> p.1 == p.0)
  }

  lemma Group1Harmless()
    ensures forall p :: p in ABBREV_1 ==> Harmless(p)
  {
  }

  lemma Group2Harmless()
    ensures forall p :: p in ABBREV_2 ==> Harmless(p)
  {
  }

  lemma Group3Harmless()
    ensures forall p :: p in ABBREV_3 ==> Harmless(p)
  {
  }

  lemma Group4Harmless()
    ensures forall p :: p in ABBREV_4 ==> Harmless(p)
  {
  }

  lemma Group5Harmless()
    ensures forall p :: p in ABBREV_5 ==> Harmless(p)
  {
  }

  lemma Group6Harmless()
    ensures forall p :: p in ABBREV_6 ==> Harmless(p)
  {
  }

  lemma AllHarmless()
    ensures forall p :: p in ABBREVIATIONS ==> Harmless(p)
  {
    hide Harmless;
    Group1Harmless();
    Group2Harmless();
    Group3Harmless();
    Group4Harmless();
    Group5Harmless();
    Group6Harmless();
  }

  /** The table never renames an abbreviation to something else, so renaming with it is idempotent. */
  lemma TableIsClosed()
    ensures Closed(KEYS_TO_ABBREV)
  {
    AllHarmless();
    forall k | k in KEYS_TO_ABBREV ensures Abbrev(KEYS_TO_ABBREV, KEYS_TO_ABBREV[k]) == KEYS_TO_ABBREV[k] {
      AbbreviationIsFixed(k);
    }
  }

  lemma AbbreviationIsFixed(k: string)
    requires k in ToMap(ABBREVIATIONS) && forall p :: p in ABBREVIATIONS ==> Harmless(p)
    ensures Abbrev(KEYS_TO_ABBREV, ToMap(ABBREVIATIONS)[k]) == ToMap(ABBREVIATIONS)[k]
  {
    var t, v := ToMap(ABBREVIATIONS), ToMap(ABBREVIATIONS)[k];
    FromPair(ABBREVIATIONS, k);
    if v in t {
      FromPair(ABBREVIATIONS, v);
      assert Harmless((v, t[v])) && Harmless((k, v));
    }
  }

  // ---------- the actor ----------

  /** `int64(v * 1000)`; outside the range of int64 Go leaves the result to the platform, taken here to wrap. */
  function Millis(v: real): int64 {
    var x := v * 1000.0;
    Wrap64(if x >= 0.0 then x.Floor else -((-x).Floor))
  }

  /** The time stamp turned into milliseconds and the group name added. */
  function Stamped(f: Fields, group: string): Fields {
    var s := if Field(f, "t").Num? then f["t" := Int(Millis(f["t"].n))] else f;
    if group != "" then s["aD" := Obj(map["gN" := Str(group)])] else s
  }

  /** A time stamp of x thousandths of a second becomes x; others are cut off towards zero. */
  lemma MillisExactly(v: real)
    requires -9_223_372_036_854_775_808.0 <= v * 1000.0 < 9_223_372_036_854_775_808.0
    ensures v >= 0.0 ==> Millis(v) as real <= v * 1000.0 < Millis(v) as real + 1.0
    ensures v <= 0.0 ==> Millis(v) as real - 1.0 < v * 1000.0 <= Millis(v) as real
    ensures v * 1000.0 == (v * 1000.0).Floor as real ==> Millis(v) == (v * 1000.0).Floor
  {
    hide Wrap64;
    var x := v * 1000.0;
    var y := if x >= 0.0 then x.Floor else -((-x).Floor);
    assert -TWO_63 <= y < TWO_63;
    assert Millis(v) == y;
  }

  /** Only the time stamp and the group name change, each as it should. */
  lemma StampedExactly(f: Fields, group: string)
    ensures var s := Stamped(f, group);
      && (forall k :: k != "t" && k != "aD" ==> (k in s <==> k in f) && (k in f ==> s[k] == f[k]))
      && ("t" in s <==> "t" in f)
      && ("t" in f ==> s["t"] == if f["t"].Num? then Int(Millis(f["t"].n)) else f["t"])
      && (group != "" ==> "aD" in s && s["aD"] == Obj(map["gN" := Str(group)]))
      && (group == "" ==> ("aD" in s <==> "aD" in f) && ("aD" in f ==> s["aD"] == f["aD"]))
  {
    hide Millis;
    assert |"t"| == 1 && |"aD"| == 2;
  }

  /** A thousandth of a second, x times, is stamped as x. */
  lemma StampedInMilliseconds(f: Fields, group: string, x: int64)
    requires "t" in f && f["t"] == Num(x as real / 1000.0)
    ensures "t" in Stamped(f, group) && Stamped(f, group)["t"] == Int(x)
  {
    StampedExactly(f, group);
    var v := x as real / 1000.0;
    assert v * 1000.0 == x as real;
    MillisExactly(v);
    hide Millis, Stamped;
  }

  lemma RunExtends(ss: seq<Fields>, status: Fields)
    requires Run(ss) && Fits(status, if ss == [] then None else Some(ss[|ss| - 1]))
    ensures Run(ss + [status])
  {
    hide Comparable;
  }

  class StatusActor {
    var lastStatusMsg: Option<Fields>
    var groupID: string
    ghost var statuses: seq<Fields> // every status compared so far

    ghost predicate Valid()
      reads this
    {
      && lastStatusMsg == (if statuses == [] then None else Some(statuses[|statuses| - 1]))
      && Run(statuses)
    }

    constructor ()
      ensures Valid() && statuses == [] && groupID == ""
    {
      lastStatusMsg, groupID, statuses := None, "", [];
    }

    /**
     A status message. A group identifier once known is kept, otherwise it is asked for. The status is
     renamed, stamped, and sent on as its difference from the last one. A receiver that overlays all that was
     sent agrees with this status if every change so far was of the kind a delta carries.
     Where the comparison panics nothing is sent and the last status stays.
     */
    method Receive(msg: Walk, answer: string) returns (sent: Outcome<Option<Fields>>)
      requires Valid() && msg.Members?
      modifies this
      ensures Valid() && groupID == (if old(groupID) != "" then old(groupID) else answer)
      ensures var status := Stamped(RenameFields(KEYS_TO_ABBREV, msg.list), groupID);
        if Fits(status, old(lastStatusMsg)) then
          && sent == Done(OnlyChanges(status, old(lastStatusMsg)))
          && statuses == old(statuses) + [status] && lastStatusMsg == Some(status)
          && (AllTrack(statuses) ==> Agree("alldata", Rebuilt(statuses), Obj(status)))
        else sent == Panic && statuses == old(statuses) && lastStatusMsg == old(lastStatusMsg)
    {
      var status := ReplaceKeys(KEYS_TO_ABBREV, msg);
      groupID := if groupID != "" then groupID else answer;
      status := Stamp(status, groupID);
      hide RenameFields, Stamped, Fits, Comparable, Compare, OnlyChanges, Tracks, Agree, Rebuilt, Overlay;
      sent := Changes(status, lastStatusMsg);
      if sent.Panic? {
        return;
      }
      RunExtends(statuses, status);
      lastStatusMsg := Some(status);
      statuses := statuses + [status];
      if AllTrack(statuses) {
        RebuiltAgrees(statuses);
      }
    }
  }

  /** The two assignments to the new status. */
  method Stamp(f: Fields, group: string) returns (status: Fields)
    ensures status == Stamped(f, group)
  {
    hide Millis;
    status := f;
    if Field(status, "t").Num? {
      status := status["t" := Int(Millis(status["t"].n))];
    }
    if |group| > 0 {
      status := status["aD" := Obj(map["gN" := Str(group)])];
    }
  }

  /** `OnlyChanges` */
  method Changes(status: Fields, last: Option<Fields>) returns (sent: Outcome<Option<Fields>>)
    ensures sent == if Fits(status, last) then Done(OnlyChanges(status, last)) else Panic
  {
    if last.None? {
      return Done(Some(status));
    }
    var result := FuncCompare("alldata", Obj(status), Obj(last.value));
    match result
    case Panic => return Panic;
    case Done(delta) => return Done(if delta.Obj? then Some(delta.fields) else None);
  }
}
