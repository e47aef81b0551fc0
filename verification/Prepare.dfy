/** What the remote actor makes of a message before it sends or stores it: `prepareMSG`. */
module Prepare {
  import opened MachineInts
  import opened Codec

  /** `b[1:len(b)-1]`, which panics on fewer than two bytes. */
  function Inner(b: seq<byte>): seq<byte>
    requires |b| >= 2
  {
    b[1..|b| - 1]
  }

  /** The two objects of a version-2 message can be joined. */
  predicate IsPreparable(m: Msg2) {
    m.version == 2 ==> |m.state.Bytes()| >= 2 && |m.events.Bytes()| >= 2
  }

  const OPEN: seq<byte> := [123, 34, 115, 68, 118, 34, 58, 32] // {"sDv":
  const COMMA: seq<byte> := [44, 32]
  const CLOSE: seq<byte> := [125]

  /** `prepareMSG`: the members of state and events behind the quoted host name, in one object. */
  function PrepareMSG(m: Msg2, host: seq<byte>): seq<byte>
    requires IsPreparable(m)
  {
    if m.version == 2 then
      OPEN + host + COMMA + Inner(m.state.Bytes()) + COMMA + Inner(m.events.Bytes()) + CLOSE
    else m.data.Bytes()
  }

  /** Version 2: one object with the host name and the members of both objects. Other versions: their data. */
  lemma PreparedText(m: Msg2, host: seq<byte>, a: seq<byte>, b: seq<byte>)
    ensures m.version == 2 && m.state.Bytes() == [123] + a + [125] && m.events.Bytes() == [123] + b + [125] ==>
      IsPreparable(m)
      && PrepareMSG(m, host) == [123, 34, 115, 68, 118, 34, 58, 32] + host + [44, 32] + a + [44, 32] + b + [125]
    ensures m.version != 2 ==> IsPreparable(m) && PrepareMSG(m, host) == m.data.Bytes()
  {
    if m.version == 2 && m.state.Bytes() == [123] + a + [125] && m.events.Bytes() == [123] + b + [125] {
      assert Inner(m.state.Bytes()) == a && Inner(m.events.Bytes()) == b;
    }
  }

  /** Nothing of either object is lost: with the lengths known, both can be cut out again. */
  lemma PreparedKeepsBoth(m: Msg2, n: Msg2, host: seq<byte>, a: seq<byte>, b: seq<byte>, c: seq<byte>, d: seq<byte>)
    requires m.version == 2 && m.state.Bytes() == [123] + a + [125] && m.events.Bytes() == [123] + b + [125]
    requires n.version == 2 && n.state.Bytes() == [123] + c + [125] && n.events.Bytes() == [123] + d + [125]
    requires |a| == |c|
    ensures IsPreparable(m) && IsPreparable(n)
    ensures PrepareMSG(m, host) == PrepareMSG(n, host) <==> (a == c && b == d)
  {
    PreparedText(m, host, a, b);
    PreparedText(n, host, c, d);
    hide PrepareMSG, IsPreparable;
    var p, q := PrepareMSG(m, host), PrepareMSG(n, host);
    var i := 8 + |host| + 2;
    assert p[i..i + |a|] == a && q[i..i + |c|] == c;
    assert p[i + |a| + 2..|p| - 1] == b && q[i + |c| + 2..|q| - 1] == d;
  }
}
