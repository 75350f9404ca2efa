/** Numbers as senders write them: a row of decimal digits, the most significant first. */
module Digits {
  import opened Bytes

  ghost predicate AreDigits(ds: seq<nat>) {
    forall i :: 0 <= i < |ds| ==> ds[i] < 10
  }

  function DigitsText(ds: seq<nat>): bytes
    requires AreDigits(ds)
  {
    seq(|ds|, i requires 0 <= i < |ds| => '0' as byte + ds[i])
  }

  function Power(k: nat): (r: nat)
    ensures r > 0
  {
    if k == 0 then 1 else 10 * Power(k - 1)
  }

  /** Digits by their places, the first the most significant. */
  function Positional(ds: seq<nat>): nat {
    if ds == [] then 0 else ds[0] * Power(|ds| - 1) + Positional(ds[1..])
  }

  lemma {:induction false} PositionalSnoc(ds: seq<nat>, d: nat)
    ensures Positional(ds + [d]) == 10 * Positional(ds) + d
    decreases |ds|
  {
    if ds == [] {
      assert [d][1..] == [];
    } else {
      var more := ds + [d];
      assert more[1..] == ds[1..] + [d];
      PositionalSnoc(ds[1..], d);
      var p := Power(|ds| - 1);
      assert Power(|ds|) == 10 * p;
      assert ds[0] * (10 * p) == 10 * (ds[0] * p);
    }
  }

  lemma DigitsJoin(a: seq<nat>, b: seq<nat>)
    requires AreDigits(a) && AreDigits(b)
    ensures AreDigits(a + b) && DigitsText(a + b) == DigitsText(a) + DigitsText(b)
    ensures |DigitsText(a)| == |a| && |DigitsText(b)| == |b| && (b == [] ==> DigitsText(b) == [])
  {
  }
}
