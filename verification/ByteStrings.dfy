/** Byte strings and the library operations on them that the HTTP client uses. */
module ByteStrings {

  type Byte = b: int | 0 <= b < 256

  type Bytes = seq<Byte>

  const CR: Byte := 13
  const LF: Byte := 10
  const CRLF: Bytes := [13, 10]

  /** The pattern stands at position i. */
  predicate At(s: Bytes, i: int, pattern: Bytes) {
    0 <= i && i + |pattern| <= |s| && s[i..i + |pattern|] == pattern
  }

  lemma PrefixAt(s: Bytes, k: nat, i: int, pattern: Bytes)
    requires k <= |s|
    ensures At(s[..k], i, pattern) <==> At(s, i, pattern) && i + |pattern| <= k
  {
    if 0 <= i && i + |pattern| <= k {
      assert s[..k][i..i + |pattern|] == s[i..i + |pattern|];
    }
  }

  /** A pattern in the second part of a string. */
  lemma AtShifted(a: Bytes, b: Bytes, i: nat, pattern: Bytes)
    requires |a| <= i
    ensures At(a + b, i, pattern) <==> At(b, i - |a|, pattern)
  {
    if i + |pattern| <= |a + b| {
      assert (a + b)[i..i + |pattern|] == b[i - |a|..i - |a| + |pattern|];
    }
  }

  /** `bytes.Index` from a position: the first occurrence at or after it, or -1. */
  function IndexFrom(s: Bytes, pattern: Bytes, from: nat): (i: int)
    ensures i == -1 || (from <= i && At(s, i, pattern))
    ensures forall k :: from <= k && (i == -1 || k < i) ==> !At(s, k, pattern)
    decreases |s| - from
  {
    if from + |pattern| > |s| then -1
    else if At(s, from, pattern) then from
    else IndexFrom(s, pattern, from + 1)
  }

  /** The first occurrence of a byte, or the length of the string. */
  function Find(s: Bytes, b: Byte): (i: nat)
    ensures i <= |s|
    ensures i < |s| ==> s[i] == b
    ensures forall k :: 0 <= k < i ==> s[k] != b
  {
    if s == [] || s[0] == b then 0 else 1 + Find(s[1..], b)
  }

  lemma FindIn(a: Bytes, b: Byte, rest: Bytes)
    requires b !in a
    ensures Find(a + [b] + rest, b) == |a|
  {
    var s := a + [b] + rest;
    assert s[|a|] == b;
    assert forall k :: 0 <= k < |a| ==> s[k] == a[k] && s[k] != b;
  }

  // ---------- trimming ----------

  predicate IsSpace(b: Byte) { b == 32 || 9 <= b <= 13 }

  function TrimLeft(s: Bytes): Bytes {
    if s != [] && IsSpace(s[0]) then TrimLeft(s[1..]) else s
  }

  function TrimRight(s: Bytes): Bytes {
    if s != [] && IsSpace(s[|s| - 1]) then TrimRight(s[..|s| - 1]) else s
  }

  function TrimSpace(s: Bytes): Bytes { TrimRight(TrimLeft(s)) }

  lemma {:induction false} TrimRightAppend(a: Bytes, b: Bytes)
    ensures TrimRight(a + b) == if TrimRight(b) == [] then TrimRight(a) else a + TrimRight(b)
    decreases |b|
  {
    if b == [] {
      assert a + b == a;
    } else if IsSpace(b[|b| - 1]) {
      assert (a + b)[..|a + b| - 1] == a + b[..|b| - 1];
      TrimRightAppend(a, b[..|b| - 1]);
    }
  }

  lemma TrimKeeps(s: Bytes)
    requires s != [] && !IsSpace(s[0]) && !IsSpace(s[|s| - 1])
    ensures TrimSpace(s) == s
  {
  }

  lemma {:induction false} TrimRightStarts(s: Bytes)
    requires s != [] && !IsSpace(s[0])
    ensures TrimRight(s) != [] && TrimRight(s)[0] == s[0] && TrimRight(s) <= s
    decreases |s|
  {
    if IsSpace(s[|s| - 1]) {
      TrimRightStarts(s[..|s| - 1]);
    }
  }

  lemma {:induction false} TrimRightPrefix(s: Bytes)
    ensures TrimRight(s) <= s
    decreases |s|
  {
    if s != [] && IsSpace(s[|s| - 1]) {
      TrimRightPrefix(s[..|s| - 1]);
    }
  }

  /** Tab, line feed, vertical tab, form feed, carriage return or space. */
  predicate Blank(b: Byte) { b == 9 || b == 10 || b == 11 || b == 12 || b == 13 || b == 32 }

  predicate AllBlank(s: Bytes) { forall i :: 0 <= i < |s| ==> Blank(s[i]) }

  lemma {:induction false} BlankLeft(left: Bytes, s: Bytes)
    requires AllBlank(left)
    ensures TrimLeft(left + s) == TrimLeft(s)
    decreases |left|
  {
    if left == [] {
      assert left + s == s;
    } else {
      assert (left + s)[1..] == left[1..] + s;
      BlankLeft(left[1..], s);
    }
  }

  lemma {:induction false} BlankRight(s: Bytes, right: Bytes)
    requires AllBlank(right)
    ensures TrimRight(s + right) == TrimRight(s)
    decreases |right|
  {
    if right == [] {
      assert s + right == s;
    } else {
      var init := right[..|right| - 1];
      assert (s + right)[..|s + right| - 1] == s + init;
      BlankRight(s, init);
    }
  }

  /** White space at the ends, and nothing else, is cut off. */
  lemma TrimCuts(left: Bytes, s: Bytes, right: Bytes)
    requires AllBlank(left) && AllBlank(right) && (s != [] ==> !Blank(s[0]) && !Blank(s[|s| - 1]))
    ensures TrimSpace(left + s + right) == s
  {
    assert left + s + right == left + (s + right);
    BlankLeft(left, s + right);
    if s == [] {
      assert s + right == right + [];
      BlankLeft(right, []);
    } else {
      assert (s + right)[0] == s[0];
      BlankRight(s, right);
    }
  }

  lemma TrimCrlf()
    ensures TrimRight(CRLF) == []
  {
    assert CRLF[..1] == [13];
    assert TrimRight([13]) == [];
  }
}
