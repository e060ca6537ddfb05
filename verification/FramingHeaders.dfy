/** What the fields Transfer-Encoding and Content-Length say about the body (section 6.3 of RFC 9112). */
module FramingHeaders {
  import opened ByteStrings
  import opened ChunkedBody
  import opened Options

  /** What the header says about the body. */
  datatype Framing =
    | Rejected
    | Framed(noBody: bool, chunked: bool, contentLength: Option<nat>, http10: bool)

  datatype Result<+T> = Valid(value: T) | Invalid

  const CHUNKED: Bytes := [99, 104, 117, 110, 107, 101, 100]

  /** `strings.Split` at a byte. */
  function SplitAt(s: Bytes, b: Byte): (parts: seq<Bytes>)
    ensures parts != []
    decreases |s|
  {
    if Find(s, b) == |s| then [s] else [s[..Find(s, b)]] + SplitAt(s[Find(s, b) + 1..], b)
  }

  /** Parts with the separator between them. */
  function JoinAt(parts: seq<Bytes>, b: Byte): Bytes
    requires parts != []
  {
    if |parts| == 1 then parts[0] else parts[0] + [b] + JoinAt(parts[1..], b)
  }

  /** Splitting is undone by joining, and no part holds the separator. */
  lemma {:induction false} SplitJoins(s: Bytes, b: Byte)
    ensures JoinAt(SplitAt(s, b), b) == s
    ensures forall part :: part in SplitAt(s, b) ==> b !in part
    decreases |s|
  {
    var i := Find(s, b);
    if i < |s| {
      SplitJoins(s[i + 1..], b);
      assert s == s[..i] + [b] + s[i + 1..];
    }
  }

  /** A coding without its parameters. */
  function Coding(part: Bytes): Bytes { Lower(TrimSpace(part[..Find(part, 59)])) }

  /** Parameters, letter case and white space do not matter to a coding. */
  lemma CodingBack(name: Bytes, params: Bytes)
    requires 59 !in name && TrimSpace(name) == name
    ensures Coding(name) == Lower(name) && Coding(name + [59] + params) == Lower(name)
  {
    FindIn(name, 59, params);
    assert (name + [59] + params)[..|name|] == name;
    assert name[..Find(name, 59)] == name;
  }

  /** A coding that may not stand at position i of n: an empty one, or chunked before the end. */
  predicate BadCoding(coding: Bytes, i: nat, n: nat) { coding == [] || (coding == CHUNKED && i + 1 != n) }

  predicate BadCodings(parts: seq<Bytes>) {
    exists i: nat :: i < |parts| && BadCoding(Coding(parts[i]), i, |parts|)
  }

  function LastCoding(value: Bytes): Bytes {
    var parts := SplitAt(value, 44);
    Coding(parts[|parts| - 1])
  }

  method TransferEncodingChunkedFinal(value: Bytes) returns (r: Result<bool>)
    ensures r.Invalid? <==> BadCodings(SplitAt(value, 44))
    ensures r.Valid? ==> (r.value <==> LastCoding(value) == CHUNKED)
  {
    var parts := SplitAt(value, 44);
    var seenChunked := false;
    for i := 0 to |parts|
      invariant seenChunked ==> i == |parts|
      invariant forall k: nat :: k < i ==> !BadCoding(Coding(parts[k]), k, |parts|)
      invariant seenChunked <==> i == |parts| && Coding(parts[i - 1]) == CHUNKED
    {
      var coding := Coding(parts[i]);
      if coding == [] {
        assert BadCoding(Coding(parts[i]), i, |parts|);
        return Invalid;
      }
      if coding == CHUNKED {
        if seenChunked || i != |parts| - 1 {
          assert BadCoding(Coding(parts[i]), i, |parts|);
          return Invalid;
        }
        seenChunked := true;
      }
    }
    return Valid(seenChunked);
  }

  function Decimal(s: Bytes): Option<nat> {
    if s == [] then Some(0)
    else
      var high, low := Decimal(s[..|s| - 1]), s[|s| - 1];
      if high.None? || !(48 <= low <= 57) then None else Some(10 * high.value + (low - 48))
  }

  /** `strconv.Atoi`. */
  function Atoi(s: Bytes): Option<int> {
    var signed := s != [] && (s[0] == 43 || s[0] == 45);
    var digits := if signed then s[1..] else s;
    var value := Decimal(digits);
    if digits == [] || value.None? then None
    else
      var n := if s[0] == 45 then 0 - value.value else value.value;
      if n > MAX_INT64 || n < 0 - MAX_INT64 - 1 then None else Some(n)
  }

  /** The length a value declares, if it declares one. */
  function Length(value: Bytes): Option<nat> {
    var n := Atoi(TrimSpace(value));
    if n.Some? && n.value >= 0 then Some(n.value) else None
  }

  /** Decimal digits without leading zeros. */
  function DecimalText(n: nat): Bytes {
    if n < 10 then [48 + n] else DecimalText(n / 10) + [48 + n % 10]
  }

  lemma {:induction false} DecimalBack(n: nat)
    ensures var s := DecimalText(n);
            s != [] && Decimal(s) == Some(n) && forall i :: 0 <= i < |s| ==> 48 <= s[i] <= 57
  {
    var s := DecimalText(n);
    if n < 10 {
      assert s[..0] == [] && Decimal([]) == Some(0);
    } else {
      DecimalBack(n / 10);
      assert s[..|s| - 1] == DecimalText(n / 10);
    }
  }

  lemma {:induction false} DecimalDigits(s: Bytes)
    ensures Decimal(s).Some? <==> forall i :: 0 <= i < |s| ==> 48 <= s[i] <= 57
  {
    if s != [] {
      var init := s[..|s| - 1];
      DecimalDigits(init);
      assert forall i :: 0 <= i < |init| ==> init[i] == s[i];
    }
  }

  /** Which texts declare a length: digits, with a plus sign or none, of a number of 63 bits; and a negative one
      only if it is zero. */
  lemma LengthIff(text: Bytes)
    requires TrimSpace(text) == text && text != []
    ensures var digits := if text[0] == 43 || text[0] == 45 then text[1..] else text;
            Length(text).Some?
            <==> digits != [] && (forall i :: 0 <= i < |digits| ==> 48 <= digits[i] <= 57)
                 && Decimal(digits).Some? && Decimal(digits).value <= (if text[0] == 45 then 0 else 0x7FFF_FFFF_FFFF_FFFF)
  {
    DecimalDigits(if text[0] == 43 || text[0] == 45 then text[1..] else text);
  }

  /** A written length is read back if it fits 63 bits, with a plus sign too. */
  lemma LengthBack(n: nat)
    ensures Length(DecimalText(n)) == if n <= 0x7FFF_FFFF_FFFF_FFFF then Some(n) else None
  {
    DecimalBack(n);
    TrimKeeps(DecimalText(n));
  }

  lemma SignedBack(n: nat, sign: Byte)
    requires sign == 43 || sign == 45
    ensures Length([sign] + DecimalText(n))
            == if n <= (if sign == 45 then 0 else 0x7FFF_FFFF_FFFF_FFFF) then Some(n) else None
  {
    var s := DecimalText(n);
    DecimalBack(n);
    TrimKeeps([sign] + s);
    assert ([sign] + s)[1..] == s;
  }

  /** All values declare a length, and the same one. */
  predicate Consistent(values: seq<Bytes>) {
    forall i, j :: 0 <= i < |values| && 0 <= j < |values| ==> Length(values[i]).Some? && Length(values[i]) == Length(values[j])
  }

  method ParseConsistentContentLength(values: seq<Bytes>) returns (r: Result<Option<nat>>)
    ensures r.Valid? <==> Consistent(values)
    ensures r.Valid? ==> r.value == if values == [] then None else Length(values[0])
  {
    var want: int := -1;
    for i := 0 to |values|
      invariant if i == 0 then want == -1 else want >= 0
      invariant forall k :: 0 <= k < i ==> Length(values[k]) == Some(want)
    {
      var value := TrimSpace(values[i]);
      var n := Atoi(value);
      if value == [] || n.None? || n.value < 0 {
        assert Length(values[i]).None?;
        return Invalid;
      }
      if want == -1 {
        want := n.value;
        continue;
      }
      if n.value != want {
        assert Length(values[i]) != Length(values[0]);
        return Invalid;
      }
    }
    return Valid(if want == -1 then None else Some(want));
  }

  /** What the two fields declare. */
  function Declared(noBody: bool, http10: bool, coding: Option<Bytes>, lengths: seq<Bytes>): Framing {
    match coding
    case Some(value) =>
      if lengths != [] || BadCodings(SplitAt(value, 44)) then Rejected
      else Framed(noBody, LastCoding(value) == CHUNKED, None, http10)
    case None =>
      if !Consistent(lengths) then Rejected
      else Framed(noBody, false, if lengths == [] then None else Length(lengths[0]), http10)
  }

  /** The framing of a response with these fields: chunked exactly when the last transfer coding is, by
      length exactly when consistent lengths stand alone, and rejected when the fields are not well formed
      or contradict each other. */
  method FramingOf(noBody: bool, http10: bool, coding: Option<Bytes>, lengths: seq<Bytes>) returns (f: Framing)
    ensures f == Declared(noBody, http10, coding, lengths)
    ensures f.Rejected? <==> if coding.Some? then lengths != [] || BadCodings(SplitAt(coding.value, 44))
                             else !Consistent(lengths)
    ensures f.Framed? ==>
      && f.noBody == noBody && f.http10 == http10
      && f.chunked == (coding.Some? && LastCoding(coding.value) == CHUNKED)
      && f.contentLength == if lengths == [] then None else Length(lengths[0])
    ensures f.Framed? ==> !(f.chunked && f.contentLength.Some?)
  {
    if coding.Some? {
      if lengths != [] {
        return Rejected;
      }
      var final := TransferEncodingChunkedFinal(coding.value);
      if final.Invalid? {
        return Rejected;
      }
      return Framed(noBody, final.value, None, http10);
    }
    var length := ParseConsistentContentLength(lengths);
    if length.Invalid? {
      return Rejected;
    }
    return Framed(noBody, false, length.value, http10);
  }
}
