/** Injective codes for the data that is hashed: collision-free hashes exist in this model. */
module Coding {
  import opened Primitives
  import opened BeaconChain

  function Shift(x: nat, a: nat): (c: nat)
    ensures c > 0
  {
    if a == 0 then 2 * x + 1 else 2 * Shift(x, a - 1)
  }

  lemma {:induction false} ShiftInjective(x: nat, a: nat, y: nat, b: nat)
    requires Shift(x, a) == Shift(y, b)
    ensures x == y && a == b
  {
    if a > 0 && b > 0 { ShiftInjective(x, a - 1, y, b - 1); }
  }

  /** A list of numbers as one number. */
  function Code(s: seq<nat>): nat {
    if s == [] then 0 else Shift(Code(s[1..]), s[0])
  }

  lemma {:induction false} CodeInjective(s: seq<nat>, t: seq<nat>)
    requires Code(s) == Code(t)
    ensures s == t
  {
    if s != [] && t != [] {
      ShiftInjective(Code(s[1..]), s[0], Code(t[1..]), t[0]);
      CodeInjective(s[1..], t[1..]);
      assert s == [s[0]] + s[1..] && t == [t[0]] + t[1..];
    }
  }

  ghost function BoundOf(s: set<nat>): (k: nat)
    ensures forall x :: x in s ==> x < k
  {
    if s == {} then 0
    else
      var x :| x in s;
      var k := BoundOf(s - {x});
      assert forall y :: y in s ==> y == x || y in s - {x};
      Max(x + 1, k)
  }

  /** The members of `s` below `k`, in order. */
  ghost function Members(s: set<nat>, k: nat): (m: seq<nat>)
    ensures forall x :: x in m <==> x in s && x < k
  {
    if k == 0 then [] else Members(s, k - 1) + if k - 1 in s then [k - 1] else []
  }

  ghost function SetCode(s: set<nat>): nat {
    Code(Members(s, BoundOf(s)))
  }

  lemma SetCodeInjective(s: set<nat>, t: set<nat>)
    requires SetCode(s) == SetCode(t)
    ensures s == t
  {
    CodeInjective(Members(s, BoundOf(s)), Members(t, BoundOf(t)));
    assert forall x :: x in s <==> x in Members(s, BoundOf(s));
    assert forall x :: x in t <==> x in Members(t, BoundOf(t));
  }

  ghost function AttestationCode(a: Attestation): nat {
    var d := a.data;
    Code([d.slot, d.index, d.beaconBlockRoot, d.source.epoch, d.source.root, d.target.epoch, d.target.root, SetCode(a.attesters)])
  }

  lemma AttestationCodeInjective(a: Attestation, b: Attestation)
    requires AttestationCode(a) == AttestationCode(b)
    ensures a == b
  {
    var d, e := a.data, b.data;
    var s := [d.slot, d.index, d.beaconBlockRoot, d.source.epoch, d.source.root, d.target.epoch, d.target.root, SetCode(a.attesters)];
    var t := [e.slot, e.index, e.beaconBlockRoot, e.source.epoch, e.source.root, e.target.epoch, e.target.root, SetCode(b.attesters)];
    CodeInjective(s, t);
    assert s[0] == t[0] && s[1] == t[1] && s[2] == t[2] && s[3] == t[3];
    assert s[4] == t[4] && s[5] == t[5] && s[6] == t[6] && s[7] == t[7];
    SetCodeInjective(a.attesters, b.attesters);
  }

  ghost function AttestationCodes(atts: seq<Attestation>): (c: seq<nat>)
    ensures |c| == |atts|
  {
    seq(|atts|, i requires 0 <= i < |atts| => AttestationCode(atts[i]))
  }

  ghost function BodyCode(b: Body): nat {
    Code([b.operations, Code(AttestationCodes(b.attestations))])
  }

  lemma BodyCodeInjective(a: Body, b: Body)
    requires BodyCode(a) == BodyCode(b)
    ensures a == b
  {
    var c, d := AttestationCodes(a.attestations), AttestationCodes(b.attestations);
    var s, t := [a.operations, Code(c)], [b.operations, Code(d)];
    CodeInjective(s, t);
    assert s[0] == t[0] && s[1] == t[1];
    CodeInjective(c, d);
    forall i | 0 <= i < |a.attestations| ensures a.attestations[i] == b.attestations[i] {
      assert c[i] == d[i];
      AttestationCodeInjective(a.attestations[i], b.attestations[i]);
    }
  }

  function HeaderCode(h: Header): nat {
    1 + Code([h.slot, h.proposer, h.parentRoot, h.stateRoot, h.bodyRoot])
  }

  lemma HeaderCodeInjective(a: Header, b: Header)
    requires HeaderCode(a) == HeaderCode(b)
    ensures a == b
  {
    var s := [a.slot, a.proposer, a.parentRoot, a.stateRoot, a.bodyRoot];
    var t := [b.slot, b.proposer, b.parentRoot, b.stateRoot, b.bodyRoot];
    CodeInjective(s, t);
    assert s[0] == t[0] && s[1] == t[1] && s[2] == t[2] && s[3] == t[3] && s[4] == t[4];
  }

  /** The assumption on hashes can be met. */
  lemma IdealHashesExist(env: Env)
    requires env.hashHeader == HeaderCode && (forall b :: env.hashBody(b) == BodyCode(b)) && (forall s :: env.hashState(s) == 1)
    ensures IdealHashes(env)
  {
    forall a, b | env.hashHeader(a) == env.hashHeader(b) ensures a == b { HeaderCodeInjective(a, b); }
    forall a, b | env.hashBody(a) == env.hashBody(b) ensures a == b { BodyCodeInjective(a, b); }
  }
}
