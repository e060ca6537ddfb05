/** 64-bit SimHash fingerprints and their Hamming distance. */
module Fingerprints {

  /** A 64-bit word, bit by bit. */
  type Fingerprint = bits: seq<bool> | |bits| == 64 witness seq(64, i => false)

  /** The number of positions in which two words differ: the population count of their XOR. */
  function Distance(a: seq<bool>, b: seq<bool>): nat
    requires |a| == |b|
    decreases |a|
  {
    if a == [] then 0 else (if a[0] != b[0] then 1 else 0) + Distance(a[1..], b[1..])
  }

  /** The positions in which they differ, counted as a set. */
  ghost function Differing(a: seq<bool>, b: seq<bool>): nat
    requires |a| == |b|
  {
    |set i | 0 <= i < |a| && a[i] != b[i]|
  }

  lemma {:induction false} DistanceSnoc(a: seq<bool>, b: seq<bool>, x: bool, y: bool)
    requires |a| == |b|
    ensures Distance(a + [x], b + [y]) == Distance(a, b) + if x != y then 1 else 0
    decreases |a|
  {
    if a == [] {
      assert [x][1..] == [] && [y][1..] == [];
    } else {
      assert (a + [x])[1..] == a[1..] + [x] && (b + [y])[1..] == b[1..] + [y];
      DistanceSnoc(a[1..], b[1..], x, y);
    }
  }

  lemma DifferingSnoc(a: seq<bool>, b: seq<bool>, x: bool, y: bool)
    requires |a| == |b|
    ensures Differing(a + [x], b + [y]) == Differing(a, b) + if x != y then 1 else 0
  {
    var before := set i | 0 <= i < |a| && a[i] != b[i];
    var after := set i | 0 <= i < |a + [x]| && (a + [x])[i] != (b + [y])[i];
    assert after == before + if x != y then {|a|} else {};
  }

  /** The distance is the number of positions in which the words differ. */
  lemma {:induction false} DistanceCounts(a: seq<bool>, b: seq<bool>)
    requires |a| == |b|
    ensures Distance(a, b) == |set i | 0 <= i < |a| && a[i] != b[i]| == Differing(a, b)
    decreases |a|
  {
    var differing := set i | 0 <= i < |a| && a[i] != b[i];
    if a == [] {
      assert differing == {};
    } else {
      var n := |a| - 1;
      assert a == a[..n] + [a[n]] && b == b[..n] + [b[n]];
      DistanceCounts(a[..n], b[..n]);
      DistanceSnoc(a[..n], b[..n], a[n], b[n]);
      DifferingSnoc(a[..n], b[..n], a[n], b[n]);
    }
  }

  lemma {:induction false} DistanceSymmetric(a: seq<bool>, b: seq<bool>)
    requires |a| == |b|
    ensures Distance(a, b) == Distance(b, a)
    decreases |a|
  {
    if a != [] {
      DistanceSymmetric(a[1..], b[1..]);
    }
  }

  lemma {:induction false} DistanceZero(a: seq<bool>, b: seq<bool>)
    requires |a| == |b|
    ensures Distance(a, b) == 0 <==> a == b
    decreases |a|
  {
    if a != [] {
      DistanceZero(a[1..], b[1..]);
      assert a == [a[0]] + a[1..] && b == [b[0]] + b[1..];
    }
  }

  lemma {:induction false} DistanceTriangle(a: seq<bool>, b: seq<bool>, c: seq<bool>)
    requires |a| == |b| == |c|
    ensures Distance(a, c) <= Distance(a, b) + Distance(b, c)
    decreases |a|
  {
    if a != [] {
      DistanceTriangle(a[1..], b[1..], c[1..]);
    }
  }
}
