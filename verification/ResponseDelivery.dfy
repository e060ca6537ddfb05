/** What a response stream gives does not depend on how the network cuts it into reads, and exactly when. */
module ResponseDelivery {
  import opened ByteStrings
  import opened ChunkedBody
  import opened ChunkedEnd
  import opened FramingHeaders
  import opened Options
  import opened ResponseFraming

  // ---------- deliveries ----------

  function Joined(arrivals: seq<Read>): Bytes { if arrivals == [] then [] else arrivals[0].bytes + Joined(arrivals[1..]) }

  predicate Clean(arrivals: seq<Read>) { forall i :: 0 <= i < |arrivals| ==> arrivals[i].err.NoError? }

  /** The buffer of the loop bounds what one read can deliver. */
  const READ_BUFFER: nat := 4096

  predicate Bounded(arrivals: seq<Read>) { forall i :: 0 <= i < |arrivals| ==> |arrivals[i].bytes| <= READ_BUFFER }

  /** One way in which the network may deliver a stream of bytes: any number of reads that fit the buffer,
      and a last one that carries an error. */
  predicate Delivers(arrivals: seq<Read>, last: Read, s: Bytes) {
    && Clean(arrivals) && Bounded(arrivals)
    && !last.err.NoError? && |last.bytes| <= READ_BUFFER
    && Joined(arrivals) + last.bytes == s
  }

  // ---------- the boundary does not depend on the reads ----------

  /** No bare LF-LF stands before the first CRLF-CRLF. */
  predicate Settled(s: Bytes) {
    var c, l := IndexFrom(s, BLANK_CRLF, 0), IndexFrom(s, BLANK_LF, 0);
    c == -1 || l == -1 || c < l
  }

  lemma IndexPrefix(s: Bytes, k: nat, pattern: Bytes)
    requires k <= |s|
    ensures var i := IndexFrom(s, pattern, 0);
            IndexFrom(s[..k], pattern, 0) == if i != -1 && i + |pattern| <= k then i else -1
  {
    var i, j := IndexFrom(s, pattern, 0), IndexFrom(s[..k], pattern, 0);
    PrefixAt(s, k, i, pattern);
    PrefixAt(s, k, j, pattern);
  }

  /** In a settled stream the first CRLF-CRLF is complete before any LF-LF is. */
  lemma CrlfFirst(s: Bytes)
    requires Settled(s)
    ensures var c, l := IndexFrom(s, BLANK_CRLF, 0), IndexFrom(s, BLANK_LF, 0);
            c != -1 && l != -1 ==> c + 4 < l + 2
  {
    var c, l := IndexFrom(s, BLANK_CRLF, 0), IndexFrom(s, BLANK_LF, 0);
    if c != -1 && l != -1 {
      assert s[c + 2] == BLANK_CRLF[2];
      assert s[l] == BLANK_LF[0] && s[l + 1] == BLANK_LF[1];
    }
  }

  lemma ScanPrefix(s: Bytes, k: nat)
    requires k <= |s| && Settled(s)
    ensures var m := Scan(s); Scan(s[..k]) == if m.Some? && m.value.end + m.value.sep <= k then m else None
  {
    IndexPrefix(s, k, BLANK_CRLF);
    IndexPrefix(s, k, BLANK_LF);
    CrlfFirst(s);
  }

  /** The header is found, if there is one, before the loop gives up. */
  predicate Early(s: Bytes) { Scan(s).Some? ==> Scan(s).value.end + Scan(s).value.sep <= MAX_BODY + 1 }

  // The network delivers `arrivals` and then `last`.

  lemma NextIs(arrivals: seq<Read>, last: Read)
    ensures arrivals == [] ==> Next(arrivals + [last]) == last
    ensures arrivals != [] ==> Next(arrivals + [last]) == arrivals[0] && Later(arrivals + [last]) == arrivals[1..] + [last]
  {
  }

  /** One read in the middle of a settled stream. */
  lemma StepOn(s: Bytes, raw: Bytes, arrivals: seq<Read>, last: Read)
    requires Settled(s) && raw + (Joined(arrivals) + last.bytes) == s
    ensures var raw' := raw + Next(arrivals + [last]).bytes;
            && |raw'| <= |s| && raw' == s[..|raw'|]
            && (Scan(raw).Some? ==> Scan(raw') == Scan(raw))
            && (arrivals != [] ==> raw' + (Joined(arrivals[1..]) + last.bytes) == s)
            && (arrivals == [] ==> raw' == s)
  {
    NextIs(arrivals, last);
    var bytes := Next(arrivals + [last]).bytes;
    if arrivals == [] {
      assert Joined(arrivals) + last.bytes == last.bytes;
      Grown(s, raw, bytes, []);
    } else {
      var rest := Joined(arrivals[1..]) + last.bytes;
      assert Joined(arrivals) + last.bytes == bytes + rest;
      Grown(s, raw, bytes, rest);
    }
  }

  /** The marks of two prefixes of a settled stream. */
  lemma Grown(s: Bytes, raw: Bytes, bytes: Bytes, rest: Bytes)
    requires Settled(s) && raw + (bytes + rest) == s
    ensures var raw' := raw + bytes;
            raw' + rest == s && raw' == s[..|raw'|] && (Scan(raw).Some? ==> Scan(raw') == Scan(raw))
  {
    var raw' := raw + bytes;
    assert raw' + rest == s;
    assert raw == s[..|raw|] && raw' == s[..|raw'|];
    ScanPrefix(s, |raw|);
    ScanPrefix(s, |raw'|);
  }

  lemma {:induction false} MarkFound(s: Bytes, raw: Bytes, arrivals: seq<Read>, last: Read, headers: Headers)
    requires Settled(s) && Early(s) && Clean(arrivals) && !last.err.NoError?
    requires raw + (Joined(arrivals) + last.bytes) == s
    ensures Collect(raw, Scan(raw), arrivals + [last], headers).mark == Scan(s)
    decreases |arrivals|
  {
    StepOn(s, raw, arrivals, last);
    NextIs(arrivals, last);
    var read := Next(arrivals + [last]);
    var raw' := raw + read.bytes;
    ScanPrefix(s, |raw'|);
    if !Stops(raw', Scan(raw'), read.err, headers) {
      MarkFound(s, raw', arrivals[1..], last, headers);
    }
  }

  /** What has been collected is a part of the stream, and all of it if an error came. */
  lemma {:induction false} CollectsPart(s: Bytes, raw: Bytes, mark: Option<Mark>, arrivals: seq<Read>, last: Read, headers: Headers)
    requires Within(raw, mark) && Clean(arrivals) && !last.err.NoError? && raw + (Joined(arrivals) + last.bytes) == s
    ensures var c := Collect(raw, mark, arrivals + [last], headers);
            c.raw <= s && (c.err.NoError? || (c.err == last.err && c.raw == s))
    decreases |arrivals|
  {
    NextIs(arrivals, last);
    if arrivals == [] {
      assert Joined(arrivals) + last.bytes == last.bytes;
    } else {
      var raw' := raw + arrivals[0].bytes;
      assert raw' + (Joined(arrivals[1..]) + last.bytes) == s;
      CollectsPart(s, raw', if mark.Some? then mark else Scan(raw'), arrivals[1..], last, headers);
    }
  }

  /** A stream without the end of a header is handed over as it is, never as complete; an empty one is an error. */
  lemma HeaderMissing(s: Bytes, headers: Headers, arrivals: seq<Read>, last: Read)
    requires Scan(s).None? && |s| <= MAX_BODY && Delivers(arrivals, last, s)
    ensures Received(arrivals + [last], headers) == if s == [] then Empty else Response(None, s, None, false)
  {
    assert [] + (Joined(arrivals) + last.bytes) == s;
    EndsInError(s, [], arrivals, last, headers);
  }

  lemma {:induction false} EndsInError(s: Bytes, raw: Bytes, arrivals: seq<Read>, last: Read, headers: Headers)
    requires Scan(s).None? && |s| <= MAX_BODY && Clean(arrivals) && !last.err.NoError?
    requires raw + (Joined(arrivals) + last.bytes) == s
    ensures var c := Collect(raw, None, arrivals + [last], headers); c.mark.None? && c.raw == s
    decreases |arrivals|
  {
    StepOn(s, raw, arrivals, last);
    NextIs(arrivals, last);
    var raw' := raw + Next(arrivals + [last]).bytes;
    ScanPrefix(s, |raw'|);
    if arrivals != [] {
      EndsInError(s, raw', arrivals[1..], last, headers);
    }
  }

  // ---------- a stream in single bytes ----------

  function Singles(s: Bytes): seq<Read> { seq(|s|, i requires 0 <= i < |s| => Read([s[i]], NoError)) }

  const END: Read := Read([], Eof)

  lemma {:induction false} SinglesJoin(s: Bytes)
    ensures Joined(Singles(s)) == s
    decreases |s|
  {
    if s != [] {
      SinglesJoin(s[1..]);
      assert Singles(s)[1..] == Singles(s[1..]);
      assert [s[0]] + s[1..] == s;
    }
  }

  lemma SinglesDeliver(s: Bytes)
    ensures Delivers(Singles(s), END, s)
  {
    SinglesJoin(s);
    assert s + [] == s;
  }

  /** The mark the loop holds when it has read the first j bytes one at a time. */
  function FirstMark(s: Bytes, j: nat): (m: Option<Mark>)
    requires j <= |s|
    ensures Within(s[..j], m)
    decreases j
  {
    if j == 0 then None
    else
      var m := FirstMark(s, j - 1);
      if m.Some? then m else Scan(s[..j])
  }

  lemma {:induction false} FirstMarkIs(s: Bytes, j: nat)
    requires j <= |s| && Settled(s)
    ensures FirstMark(s, j) == Scan(s[..j])
    decreases j
  {
    ScanPrefix(s, j);
    if j > 0 {
      FirstMarkIs(s, j - 1);
      ScanPrefix(s, j - 1);
    } else {
      assert s[..0] == [];
    }
  }

  /** What is found in a part of a stream that is not settled. */
  lemma BarePrefix(s: Bytes, j: nat)
    requires j <= |s| && !Settled(s)
    ensures var l := IndexFrom(s, BLANK_LF, 0);
            j <= l + 2 ==> Scan(s[..j]) == if l + 2 == j then Some(Mark(l, 2)) else None
  {
    IndexPrefix(s, j, BLANK_CRLF);
    IndexPrefix(s, j, BLANK_LF);
  }

  lemma {:induction false} BareMarkIs(s: Bytes, j: nat)
    requires j <= |s| && !Settled(s)
    ensures var l := IndexFrom(s, BLANK_LF, 0); FirstMark(s, j) == if l + 2 <= j then Some(Mark(l, 2)) else None
    decreases j
  {
    BarePrefix(s, j);
    if j > 0 {
      BareMarkIs(s, j - 1);
    }
  }

  /** The loop stops at byte k of single bytes. */
  ghost predicate StopsAt(s: Bytes, k: nat, headers: Headers)
    requires k <= |s|
  {
    Stops(s[..k], FirstMark(s, k), NoError, headers)
  }

  /** The loop over single bytes, from byte j on. */
  ghost function FromByte(s: Bytes, j: nat, headers: Headers): Collected
    requires j <= |s|
  {
    Collect(s[..j], FirstMark(s, j), Singles(s[j..]) + [END], headers)
  }

  lemma FromStart(s: Bytes, headers: Headers)
    ensures FromByte(s, 0, headers) == Collect([], None, Singles(s) + [END], headers)
  {
    assert s[..0] == [] && s[0..] == s;
  }

  /** The loop reads one more byte. */
  lemma OneByte(s: Bytes, j: nat, headers: Headers)
    requires j < |s|
    ensures FromByte(s, j, headers)
            == if StopsAt(s, j + 1, headers) then Collected(s[..j + 1], FirstMark(s, j + 1), NoError)
               else FromByte(s, j + 1, headers)
  {
    var rest := Singles(s[j..]);
    NextIs(rest, END);
    assert rest[0] == Read([s[j]], NoError) && rest[1..] == Singles(s[j + 1..]);
    assert s[..j] + [s[j]] == s[..j + 1];
  }

  /** Whatever would stop the loop stops it, at the first byte where something does. */
  lemma {:induction false} SinglesStop(s: Bytes, j: nat, k: nat, headers: Headers) returns (n: nat)
    requires j < k <= |s| && StopsAt(s, k, headers)
    ensures j < n <= k
    ensures FromByte(s, j, headers) == Collected(s[..n], FirstMark(s, n), NoError)
    decreases k - j
  {
    OneByte(s, j, headers);
    if StopsAt(s, j + 1, headers) {
      n := j + 1;
    } else {
      n := SinglesStop(s, j + 1, k, headers);
    }
  }

  /** A stream in single bytes, of which the loop reads no more than k. */
  lemma StoppedBy(s: Bytes, k: nat, headers: Headers) returns (arrivals: seq<Read>, last: Read, n: nat)
    requires 0 < k <= |s| && StopsAt(s, k, headers)
    ensures Delivers(arrivals, last, s) && n <= k
    ensures Collect([], None, arrivals + [last], headers) == Collected(s[..n], FirstMark(s, n), NoError)
  {
    SinglesDeliver(s);
    arrivals, last := Singles(s), END;
    n := SinglesStop(s, 0, k, headers);
    FromStart(s, headers);
  }

  /** Within the limit the loop does not stop before the bare LF-LF. */
  lemma BareStop(s: Bytes, j: nat, headers: Headers)
    requires !Settled(s) && j <= |s| && IndexFrom(s, BLANK_LF, 0) + 2 <= MAX_BODY + 1 && StopsAt(s, j, headers)
    ensures FirstMark(s, j) == Some(Mark(IndexFrom(s, BLANK_LF, 0), 2))
  {
    BareMarkIs(s, j);
  }

  lemma BareEnd(s: Bytes, headers: Headers)
    requires !Settled(s)
    ensures FromByte(s, |s|, headers).mark == Some(Mark(IndexFrom(s, BLANK_LF, 0), 2))
  {
    BareMarkIs(s, |s|);
    assert Singles(s[|s|..]) == [];
    NextIs([], END);
  }

  lemma {:induction false} BareMark(s: Bytes, j: nat, headers: Headers)
    requires !Settled(s) && j <= |s| && IndexFrom(s, BLANK_LF, 0) + 2 <= MAX_BODY + 1
    ensures FromByte(s, j, headers).mark == Some(Mark(IndexFrom(s, BLANK_LF, 0), 2))
    decreases |s| - j
  {
    if j == |s| {
      BareEnd(s, headers);
    } else {
      OneByte(s, j, headers);
      if StopsAt(s, j + 1, headers) {
        BareStop(s, j + 1, headers);
      } else {
        BareMark(s, j + 1, headers);
      }
    }
  }

  /** A bare LF-LF counts when it arrives before the CRLF-CRLF behind it; when it ends beyond the limit,
      neither is reached. */
  lemma BareLineFeeds(s: Bytes, headers: Headers) returns (arrivals: seq<Read>, last: Read)
    requires !Settled(s)
    ensures Delivers(arrivals, last, s)
    ensures var l := IndexFrom(s, BLANK_LF, 0);
            Collect([], None, arrivals + [last], headers).mark == if l + 2 <= MAX_BODY + 1 then Some(Mark(l, 2)) else None
    ensures Scan(s) == Some(Mark(IndexFrom(s, BLANK_CRLF, 0), 4))
  {
    if IndexFrom(s, BLANK_LF, 0) + 2 <= MAX_BODY + 1 {
      SinglesDeliver(s);
      arrivals, last := Singles(s), END;
      BareMark(s, 0, headers);
      FromStart(s, headers);
    } else {
      var n;
      arrivals, last, n := StoppedBy(s, MAX_BODY + 1, headers);
      BareMarkIs(s, n);
    }
  }

  /** A header that is too long is missed when the limit is passed before it ends. */
  lemma LongHeader(s: Bytes, headers: Headers) returns (arrivals: seq<Read>, last: Read)
    requires Settled(s) && !Early(s)
    ensures Delivers(arrivals, last, s)
    ensures Collect([], None, arrivals + [last], headers).mark.None?
  {
    var n;
    arrivals, last, n := StoppedBy(s, MAX_BODY + 1, headers);
    FirstMarkIs(s, n);
    ScanPrefix(s, n);
  }

  /** The end of the header is found at the same place, however the network cuts the stream, exactly when
      no bare LF-LF stands before the first CRLF-CRLF and the header ends within the limit. */
  lemma BoundaryIff(s: Bytes, headers: Headers)
    ensures (forall arrivals, last :: Delivers(arrivals, last, s)
                  ==> Collect([], None, arrivals + [last], headers).mark == Scan(s))
            <==> Settled(s) && Early(s)
  {
    if !Settled(s) {
      var arrivals, last := BareLineFeeds(s, headers);
    } else if !Early(s) {
      var arrivals, last := LongHeader(s, headers);
    } else {
      forall arrivals, last | Delivers(arrivals, last, s)
        ensures Collect([], None, arrivals + [last], headers).mark == Scan(s)
      {
        assert [] + (Joined(arrivals) + last.bytes) == s;
        MarkFound(s, [], arrivals, last, headers);
      }
    }
  }

  // ---------- the body does not depend on the reads ----------

  /** No part of the body that falls short of it passes for the whole. */
  ghost predicate NothingShort(s: Bytes, m: Mark, f: Framing)
    requires f.Framed?
  {
    forall k :: m.end + m.sep <= k < |s| ==> !Enough(f, Body(s[..k], m))
  }

  /** A response with a settled header and within the limit. */
  ghost predicate Fits(s: Bytes, headers: Headers) {
    && Settled(s) && Scan(s).Some?
    && var f := headers(s[..Scan(s).value.end]);
       f.Framed? && (|s| <= MAX_BODY || (|s| == MAX_BODY + 1 && Enough(f, Body(s, Scan(s).value))))
  }

  /** What the loop has collected when it reads all of the stream. */
  ghost function All(s: Bytes, last: Read, headers: Headers): Collected
    requires Fits(s, headers)
  {
    var m := Scan(s).value;
    Collected(s, Some(m), if Enough(headers(s[..m.end]), Body(s, m)) && last.bytes == [] then NoError else last.err)
  }

  lemma {:induction false} WholeRead(s: Bytes, raw: Bytes, arrivals: seq<Read>, last: Read, headers: Headers)
    requires Fits(s, headers) && NothingShort(s, Scan(s).value, headers(s[..Scan(s).value.end]))
    requires Clean(arrivals) && !last.err.NoError? && raw + (Joined(arrivals) + last.bytes) == s
    requires |raw| == |s| ==> !Enough(headers(s[..Scan(s).value.end]), Body(s, Scan(s).value))
    ensures Collect(raw, Scan(raw), arrivals + [last], headers) == All(s, last, headers)
    decreases |arrivals|
  {
    StepOn(s, raw, arrivals, last);
    NextIs(arrivals, last);
    var m, read := Scan(s).value, Next(arrivals + [last]);
    var raw' := raw + read.bytes;
    ScanPrefix(s, |raw'|);
    if Scan(raw').Some? {
      assert raw'[..m.end] == s[..m.end];
    }
    if !Stops(raw', Scan(raw'), read.err, headers) {
      if |raw'| == |s| {
        assert raw' == s;
      }
      WholeRead(s, raw', arrivals[1..], last, headers);
    } else {
      StopsAtEnd(s, raw', read.err, headers);
    }
  }

  lemma StopsAtEnd(s: Bytes, raw: Bytes, err: ReadError, headers: Headers)
    requires Fits(s, headers) && NothingShort(s, Scan(s).value, headers(s[..Scan(s).value.end]))
    requires |raw| <= |s| && raw == s[..|raw|] && (!err.NoError? ==> raw == s) && Stops(raw, Scan(raw), err, headers)
    ensures raw == s
  {
    var m := Scan(s).value;
    ScanPrefix(s, |raw|);
    if Scan(raw).Some? {
      assert raw[..m.end] == s[..m.end];
    }
    if |raw| == |s| {
      assert raw == s;
    }
  }

  /** All of the stream is read, however the network cuts it, exactly when nothing short of the body
      passes for it. */
  lemma WholeIff(s: Bytes, headers: Headers)
    requires Fits(s, headers)
    ensures (forall arrivals, last :: Delivers(arrivals, last, s)
                  ==> Collect([], None, arrivals + [last], headers) == All(s, last, headers))
            <==> NothingShort(s, Scan(s).value, headers(s[..Scan(s).value.end]))
  {
    var m := Scan(s).value;
    var f := headers(s[..m.end]);
    if NothingShort(s, m, f) {
      forall arrivals, last | Delivers(arrivals, last, s)
        ensures Collect([], None, arrivals + [last], headers) == All(s, last, headers)
      {
        assert [] + (Joined(arrivals) + last.bytes) == s;
        WholeRead(s, [], arrivals, last, headers);
      }
    } else {
      var k :| m.end + m.sep <= k < |s| && Enough(f, Body(s[..k], m));
      ShortStops(s, k, headers);
      var arrivals, last, n := StoppedBy(s, k, headers);
    }
  }

  /** A part of the body that passes for the whole stops the loop. */
  lemma ShortStops(s: Bytes, k: nat, headers: Headers)
    requires Fits(s, headers) && Scan(s).value.end + Scan(s).value.sep <= k <= |s|
    requires var m := Scan(s).value; Enough(headers(s[..m.end]), Body(s[..k], m))
    ensures k > 0 && StopsAt(s, k, headers)
  {
    FirstMarkIs(s, k);
    ScanPrefix(s, k);
    assert s[..k][..Scan(s).value.end] == s[..Scan(s).value.end];
  }

  // ---------- two bytes in one read ----------

  /** Single bytes, but bytes i and i + 1 in one read. */
  function WithPair(s: Bytes, i: nat): seq<Read>
    requires i + 2 <= |s|
  {
    Singles(s[0..i]) + ([Read(s[i..i + 2], NoError)] + Singles(s[i + 2..]))
  }

  lemma WithLast(a: seq<Read>, read: Read, b: seq<Read>, last: Read)
    ensures a + ([read] + b) + [last] == a + ([read] + (b + [last]))
  {
  }

  lemma SinglesAround(s: Bytes, i: nat)
    requires i < |s|
    ensures Singles(s) == Singles(s[0..i]) + ([Read(s[i..i + 1], NoError)] + Singles(s[i + 1..]))
  {
    assert s[i..i + 1] == [s[i]];
  }

  lemma {:induction false} JoinedAppend(a: seq<Read>, b: seq<Read>)
    ensures Joined(a + b) == Joined(a) + Joined(b)
    decreases |a|
  {
    if a == [] {
      assert a + b == b;
    } else {
      assert (a + b)[1..] == a[1..] + b;
      JoinedAppend(a[1..], b);
    }
  }

  lemma PairDelivers(s: Bytes, i: nat)
    requires i + 2 <= |s|
    ensures Delivers(WithPair(s, i), END, s)
  {
    var pair := [Read(s[i..i + 2], NoError)];
    var rest := pair + Singles(s[i + 2..]);
    JoinedAppend(Singles(s[0..i]), rest);
    SinglesJoin(s[0..i]);
    SinglesJoin(s[i + 2..]);
    assert rest[1..] == Singles(s[i + 2..]);
    assert s[0..i] + (s[i..i + 2] + s[i + 2..]) + [] == s;
  }

  // ---------- bodies of a declared length ----------

  /** A response with a settled header that declares a length for its body, behind which more may follow. */
  ghost predicate DeclaredLength(s: Bytes, headers: Headers) {
    && Settled(s) && Scan(s).Some?
    && var m := Scan(s).value; var f := headers(s[..m.end]);
       && f.Framed? && !f.noBody && !f.chunked
       && f.contentLength.Some? && f.contentLength.value <= |Body(s, m)| && f.contentLength.value <= MAX_BODY
  }

  function LengthOf(s: Bytes, headers: Headers): nat
    requires DeclaredLength(s, headers)
  {
    headers(s[..Scan(s).value.end]).contentLength.value
  }

  /** Where the declared body ends. */
  function EndOf(s: Bytes, headers: Headers): (n: nat)
    requires DeclaredLength(s, headers)
    ensures 0 < n <= |s|
  {
    Scan(s).value.end + Scan(s).value.sep + LengthOf(s, headers)
  }

  /** The declared body and no more, as complete unless the error comes with the last bytes. */
  ghost predicate InFull(s: Bytes, headers: Headers, arrivals: seq<Read>, last: Read)
    requires DeclaredLength(s, headers)
  {
    var m := Scan(s).value;
    Received(arrivals + [last], headers)
    == Response(Some(s[..m.end]), Body(s, m)[..LengthOf(s, headers)], None, last.bytes == [])
  }

  /** The declared body is returned in full, and no more, for every way the network cuts the stream, exactly
      when nothing follows it and header and body together stay within the limit. */
  lemma ContentLengthIff(s: Bytes, headers: Headers)
    requires DeclaredLength(s, headers)
    ensures (forall arrivals, last :: Delivers(arrivals, last, s) ==> InFull(s, headers, arrivals, last))
            <==> |Body(s, Scan(s).value)| == LengthOf(s, headers) && |s| <= MAX_BODY + 1
  {
    if EndOf(s, headers) > MAX_BODY + 1 {
      var arrivals, last := TooLong(s, headers);
    } else if EndOf(s, headers) < |s| {
      var arrivals, last := OneTooMany(s, headers);
    } else {
      assert Body(s, Scan(s).value)[..LengthOf(s, headers)] == Body(s, Scan(s).value);
      WholeIff(s, headers);
      forall arrivals, last | Delivers(arrivals, last, s) ensures InFull(s, headers, arrivals, last) {
        assert Collect([], None, arrivals + [last], headers) == All(s, last, headers);
      }
    }
  }

  /** Reading stops behind the limit, whatever is still to come. */
  lemma TooLong(s: Bytes, headers: Headers) returns (arrivals: seq<Read>, last: Read)
    requires DeclaredLength(s, headers) && EndOf(s, headers) > MAX_BODY + 1
    ensures Delivers(arrivals, last, s) && !InFull(s, headers, arrivals, last)
  {
    var n;
    arrivals, last, n := StoppedBy(s, MAX_BODY + 1, headers);
    FirstMarkIs(s, n);
    CutShort(s, n, headers);
  }

  /** What is returned of a part of the declared body is not all of it. */
  lemma CutShort(s: Bytes, k: nat, headers: Headers)
    requires DeclaredLength(s, headers) && k < EndOf(s, headers)
    ensures var out := Answer(Collected(s[..k], Scan(s[..k]), NoError), headers);
            out.Response? ==> out.header.None? || |out.body| < LengthOf(s, headers)
  {
    ScanPrefix(s, k);
    if Scan(s[..k]).Some? {
      assert s[..k][..Scan(s).value.end] == s[..Scan(s).value.end];
    }
  }

  /** Before its last byte nothing stops the loop within the limit. */
  lemma GoesOn(s: Bytes, k: nat, headers: Headers)
    requires DeclaredLength(s, headers) && k < EndOf(s, headers) <= MAX_BODY + 1
    ensures !StopsAt(s, k, headers)
  {
    FirstMarkIs(s, k);
    ScanPrefix(s, k);
    if Scan(s[..k]).Some? {
      assert s[..k][..Scan(s).value.end] == s[..Scan(s).value.end];
    }
  }

  /** What is collected of the header, the declared body and perhaps more of the stream. */
  lemma EnoughCollected(s: Bytes, k: nat, headers: Headers)
    requires DeclaredLength(s, headers) && EndOf(s, headers) <= k <= |s|
    requires k - (Scan(s).value.end + Scan(s).value.sep) <= MAX_BODY
    ensures Scan(s[..k]) == Scan(s) && Stops(s[..k], Scan(s), NoError, headers)
    ensures var m := Scan(s).value;
            Answer(Collected(s[..k], Scan(s), NoError), headers)
            == Response(Some(s[..m.end]), Body(s[..k], m), None, true)
  {
    ScanPrefix(s, k);
    assert s[..k][..Scan(s).value.end] == s[..Scan(s).value.end];
  }

  /** The loop stops with this read. */
  lemma ReadStops(raw: Bytes, mark: Option<Mark>, read: Read, tail: seq<Read>, headers: Headers)
    requires Within(raw, mark)
    requires Stops(raw + read.bytes, if mark.Some? then mark else Scan(raw + read.bytes), read.err, headers)
    ensures Collect(raw, mark, [read] + tail, headers)
            == Collected(raw + read.bytes, if mark.Some? then mark else Scan(raw + read.bytes), read.err)
  {
    assert Next([read] + tail) == read;
  }

  /** The loop goes on behind this read. */
  lemma ReadGoes(raw: Bytes, mark: Option<Mark>, read: Read, tail: seq<Read>, headers: Headers)
    requires Within(raw, mark)
    requires !Stops(raw + read.bytes, if mark.Some? then mark else Scan(raw + read.bytes), read.err, headers)
    ensures Collect(raw, mark, [read] + tail, headers)
            == Collect(raw + read.bytes, if mark.Some? then mark else Scan(raw + read.bytes), tail, headers)
  {
    assert Next([read] + tail) == read && Later([read] + tail) == tail;
  }

  /** Single bytes of the header and the declared body, but for its last byte. */
  lemma {:induction false} UpTo(s: Bytes, j: nat, i: nat, tail: seq<Read>, headers: Headers)
    requires DeclaredLength(s, headers) && EndOf(s, headers) <= MAX_BODY + 1 && j <= i < EndOf(s, headers)
    ensures Collect(s[..j], FirstMark(s, j), Singles(s[j..i]) + tail, headers) == Collect(s[..i], FirstMark(s, i), tail, headers)
    decreases i - j
  {
    if j == i {
      assert Singles(s[j..i]) + tail == tail;
    } else {
      assert Singles(s[j..i]) + tail == [Read([s[j]], NoError)] + (Singles(s[j + 1..i]) + tail);
      assert s[..j] + [s[j]] == s[..j + 1];
      GoesOn(s, j + 1, headers);
      ReadGoes(s[..j], FirstMark(s, j), Read([s[j]], NoError), Singles(s[j + 1..i]) + tail, headers);
      UpTo(s, j + 1, i, tail, headers);
    }
  }

  lemma LastMark(s: Bytes, i: nat, k: nat)
    requires Settled(s) && i <= k <= |s| && Scan(s).Some? && Scan(s[..k]) == Scan(s)
    ensures (if FirstMark(s, i).Some? then FirstMark(s, i) else Scan(s[..k])) == Scan(s)
  {
    FirstMarkIs(s, i);
    ScanPrefix(s, i);
  }

  /** The read that brings the last byte of the declared body, and perhaps more. */
  lemma LastRead(s: Bytes, k: nat, tail: seq<Read>, headers: Headers)
    requires DeclaredLength(s, headers) && EndOf(s, headers) <= k <= |s|
    requires k - (Scan(s).value.end + Scan(s).value.sep) <= MAX_BODY
    ensures var i := EndOf(s, headers) - 1;
            Collect(s[..i], FirstMark(s, i), [Read(s[i..k], NoError)] + tail, headers) == Collected(s[..k], Scan(s), NoError)
  {
    var i := EndOf(s, headers) - 1;
    EnoughCollected(s, k, headers);
    LastMark(s, i, k);
    assert s[..i] + s[i..k] == s[..k];
    ReadStops(s[..i], FirstMark(s, i), Read(s[i..k], NoError), tail, headers);
  }

  lemma CollectTo(s: Bytes, k: nat, tail: seq<Read>, headers: Headers)
    requires DeclaredLength(s, headers) && EndOf(s, headers) <= MAX_BODY + 1 && EndOf(s, headers) <= k <= |s|
    requires k - (Scan(s).value.end + Scan(s).value.sep) <= MAX_BODY
    ensures var i := EndOf(s, headers) - 1;
            Collect([], None, Singles(s[0..i]) + ([Read(s[i..k], NoError)] + tail), headers) == Collected(s[..k], Scan(s), NoError)
  {
    var i := EndOf(s, headers) - 1;
    assert s[..0] == [] && FirstMark(s, 0) == None;
    UpTo(s, 0, i, [Read(s[i..k], NoError)] + tail, headers);
    LastRead(s, k, tail, headers);
  }

  /** Single bytes, and then the last byte of the declared body with what follows it up to k in one read. */
  lemma ReadTo(s: Bytes, k: nat, tail: seq<Read>, headers: Headers)
    requires DeclaredLength(s, headers) && EndOf(s, headers) <= MAX_BODY + 1 && EndOf(s, headers) <= k <= |s|
    requires k - (Scan(s).value.end + Scan(s).value.sep) <= MAX_BODY
    ensures var i, m := EndOf(s, headers) - 1, Scan(s).value;
            Received(Singles(s[0..i]) + ([Read(s[i..k], NoError)] + tail), headers)
            == Response(Some(s[..m.end]), Body(s, m)[..k - m.end - m.sep], None, true)
  {
    CollectTo(s, k, tail, headers);
    EnoughCollected(s, k, headers);
    assert Body(s[..k], Scan(s).value) == Body(s, Scan(s).value)[..k - Scan(s).value.end - Scan(s).value.sep];
  }

  /** The last byte of the declared body may come together with the byte behind it; then that byte is returned
      as well, and the body still counts as complete. */
  lemma OneTooMany(s: Bytes, headers: Headers) returns (arrivals: seq<Read>, last: Read)
    requires DeclaredLength(s, headers) && EndOf(s, headers) <= MAX_BODY + 1 && EndOf(s, headers) < |s|
    ensures Delivers(arrivals, last, s) && !InFull(s, headers, arrivals, last)
    ensures var m := Scan(s).value;
            Received(arrivals + [last], headers)
            == Response(Some(s[..m.end]), Body(s, m)[..LengthOf(s, headers) + 1], None, true)
  {
    var i := EndOf(s, headers) - 1;
    arrivals, last := WithPair(s, i), END;
    PairDelivers(s, i);
    WithLast(Singles(s[0..i]), Read(s[i..i + 2], NoError), Singles(s[i + 2..]), END);
    ReadTo(s, i + 2, Singles(s[i + 2..]) + [END], headers);
  }

  /** Single bytes deliver the declared body and no more, whatever follows. */
  lemma SinglesExact(s: Bytes, headers: Headers)
    requires DeclaredLength(s, headers) && EndOf(s, headers) <= MAX_BODY + 1
    ensures Delivers(Singles(s), END, s)
    ensures var m := Scan(s).value;
            Received(Singles(s) + [END], headers)
            == Response(Some(s[..m.end]), Body(s, m)[..LengthOf(s, headers)], None, true)
  {
    var i := EndOf(s, headers) - 1;
    SinglesDeliver(s);
    SinglesAround(s, i);
    WithLast(Singles(s[0..i]), Read(s[i..i + 1], NoError), Singles(s[i + 1..]), END);
    ReadTo(s, i + 1, Singles(s[i + 1..]) + [END], headers);
  }

  /** With bytes behind the declared body the response depends on the cut: two deliveries of the same stream
      give different bodies, both as complete. */
  lemma ExcessDiffers(s: Bytes, headers: Headers) returns (arrivals: seq<Read>, last: Read)
    requires DeclaredLength(s, headers) && EndOf(s, headers) <= MAX_BODY + 1 && EndOf(s, headers) < |s|
    ensures Delivers(arrivals, last, s) && Delivers(Singles(s), END, s)
    ensures var one, two := Received(Singles(s) + [END], headers), Received(arrivals + [last], headers);
            one.Response? && two.Response? && one.complete && two.complete && one.body < two.body
  {
    arrivals, last := OneTooMany(s, headers);
    SinglesExact(s, headers);
    var body, n := Body(s, Scan(s).value), LengthOf(s, headers);
    assert body[..n] == body[..n + 1][..n];
  }

  /** A body that ends with the connection is returned in full, and counts as complete only for HTTP/1.0
      and a connection that was closed in order. */
  lemma UntilClose(s: Bytes, headers: Headers, arrivals: seq<Read>, last: Read)
    requires Settled(s) && Scan(s).Some? && |s| <= MAX_BODY
    requires var f := headers(s[..Scan(s).value.end]);
             f.Framed? && !f.noBody && !f.chunked && f.contentLength.None?
    requires Delivers(arrivals, last, s)
    ensures Received(arrivals + [last], headers)
            == Response(Some(s[..Scan(s).value.end]), Body(s, Scan(s).value), None,
                        headers(s[..Scan(s).value.end]).http10 && last.err.Eof?)
  {
    WholeIff(s, headers);
  }

  /** A stream that ends before the declared length is reached gives what there is of the body, never as
      complete. */
  lemma ShortOfLength(s: Bytes, headers: Headers, arrivals: seq<Read>, last: Read)
    requires Settled(s) && Scan(s).Some? && |s| <= MAX_BODY
    requires var f := headers(s[..Scan(s).value.end]);
             f.Framed? && !f.noBody && !f.chunked && f.contentLength.Some? && f.contentLength.value > |Body(s, Scan(s).value)|
    requires Delivers(arrivals, last, s)
    ensures Received(arrivals + [last], headers)
            == Response(Some(s[..Scan(s).value.end]), Body(s, Scan(s).value), None, false)
  {
    WholeIff(s, headers);
  }

  /** A response with a settled header whose body is an encoded chunked one. */
  ghost predicate CarriesChunks(s: Bytes, headers: Headers, pieces: seq<Piece>, lines: seq<Bytes>) {
    && Settled(s) && Scan(s).Some?
    && var m := Scan(s).value; var f := headers(s[..m.end]);
       && f.Framed? && !f.noBody && f.chunked
       && ValidPieces(pieces) && ValidLines(lines) && Body(s, m) == Encode(pieces, lines)
  }

  /** What falls short of an encoded body passes for the whole exactly when its chunks hold a zero chunk line
      behind which the body seems to end early. */
  lemma ShortByChunks(s: Bytes, headers: Headers, pieces: seq<Piece>, lines: seq<Bytes>)
    requires CarriesChunks(s, headers, pieces, lines)
    ensures NothingShort(s, Scan(s).value, headers(s[..Scan(s).value.end])) <==> !EndsEarly(pieces, lines)
  {
    var m, body := Scan(s).value, Encode(pieces, lines);
    var f, e := headers(s[..m.end]), m.end + m.sep;
    ShortPassesIff(pieces, lines);
    forall k | e <= k < |s| ensures Enough(f, Body(s[..k], m)) <==> Complete(body[..k - e]) {
      assert Body(s[..k], m) == body[..k - e];
    }
    if k :| 0 <= k < |body| && Complete(body[..k]) {
      assert body[..k] == body[..(k + e) - e] && Enough(f, Body(s[..k + e], m));
    }
  }

  lemma ChunksFit(s: Bytes, headers: Headers, pieces: seq<Piece>, lines: seq<Bytes>)
    requires CarriesChunks(s, headers, pieces, lines) && |s| <= MAX_BODY + 1
    ensures Fits(s, headers) && Complete(Encode(pieces, lines))
  {
    assert Encode(pieces, lines) + [] == Encode(pieces, lines);
    EncodedIsComplete(pieces, lines, []);
  }

  /** All of a chunked response is read, however the network cuts it, exactly when its chunks hold no zero
      chunk line behind which the body seems to end early. */
  lemma ChunkedIff(s: Bytes, headers: Headers, pieces: seq<Piece>, lines: seq<Bytes>)
    requires CarriesChunks(s, headers, pieces, lines) && |s| <= MAX_BODY + 1
    ensures Fits(s, headers)
    ensures (forall arrivals, last :: Delivers(arrivals, last, s)
                  ==> Collect([], None, arrivals + [last], headers) == All(s, last, headers))
            <==> !EndsEarly(pieces, lines)
  {
    ChunksFit(s, headers, pieces, lines);
    ShortByChunks(s, headers, pieces, lines);
    WholeIff(s, headers);
  }

  /** A chunked response is then returned decoded, with its trailers. */
  lemma ChunkedWhole(s: Bytes, headers: Headers, pieces: seq<Piece>, lines: seq<Bytes>, arrivals: seq<Read>, last: Read)
    requires CarriesChunks(s, headers, pieces, lines) && |s| <= MAX_BODY + 1 && !EndsEarly(pieces, lines)
    requires Delivers(arrivals, last, s)
    ensures Received(arrivals + [last], headers)
            == Response(Some(s[..Scan(s).value.end]), Data(pieces),
                        Some(FoldLines(TrailerState(map[], []), lines).fields), last.bytes == [])
  {
    ChunksFit(s, headers, pieces, lines);
    ChunkedIff(s, headers, pieces, lines);
    assert Collect([], None, arrivals + [last], headers) == All(s, last, headers);
    ChunkedAnswer(s, headers, pieces, lines, last);
  }

  lemma ChunkedAnswer(s: Bytes, headers: Headers, pieces: seq<Piece>, lines: seq<Bytes>, last: Read)
    requires Fits(s, headers) && !last.err.NoError?
    requires var m := Scan(s).value; var f := headers(s[..m.end]);
             !f.noBody && f.chunked && Body(s, m) == Encode(pieces, lines) && Enough(f, Body(s, m))
    requires ValidPieces(pieces) && ValidLines(lines)
    ensures Answer(All(s, last, headers), headers)
            == Response(Some(s[..Scan(s).value.end]), Data(pieces),
                        Some(FoldLines(TrailerState(map[], []), lines).fields), last.bytes == [])
  {
    var body := Encode(pieces, lines);
    assert body + [] == body;
    DechunkInverts(pieces, lines, []);
    DataFits(pieces, lines);
    assert Take(body, MAX_BODY) == body && Take(Data(pieces), MAX_BODY) == Data(pieces);
  }

  lemma {:induction false} DataFits(pieces: seq<Piece>, lines: seq<Bytes>)
    ensures |Data(pieces)| <= |EncodePieces(pieces)| <= |Encode(pieces, lines)|
    decreases |pieces|
  {
    if pieces != [] {
      DataFits(pieces[1..], lines);
    }
  }

  /** Data of any chunk with a line holding a zero and an empty line lets the loop stop within the body. */
  lemma DataCutsShort(s: Bytes, headers: Headers, pieces: seq<Piece>, i: nat, lines: seq<Bytes>, before: Bytes, after: Bytes)
    requires CarriesChunks(s, headers, pieces, lines) && |s| <= MAX_BODY + 1 && i < |pieces|
    requires pieces[i].data == before + CRLF + ZeroLine(CRLF) + (CRLF + after)
    ensures EndsEarly(pieces, lines)
    ensures exists arrivals, last :: Delivers(arrivals, last, s)
                && |Collect([], None, arrivals + [last], headers).raw| < |s|
  {
    var p, m := pieces[i], Scan(s).value;
    var part := EncodePieces(pieces[..i]) + (p.size + p.ext + CRLF + p.data);
    var more := EncodeBehind(pieces, i, lines);
    var body := Encode(pieces, lines);
    assert body[..|part|] == part;
    DataMayLookComplete(EncodePieces(pieces[..i]), p, before, after);
    ShortPassesIff(pieces, lines);
    ChunksFit(s, headers, pieces, lines);
    var arrivals, last := CutBehind(s, headers, part, more);
  }

  /** The loop stops no later than behind a part of the body that passes for the whole. */
  lemma CutBehind(s: Bytes, headers: Headers, part: Bytes, more: Bytes) returns (arrivals: seq<Read>, last: Read)
    requires Fits(s, headers) && Body(s, Scan(s).value) == part + more && more != []
    requires Enough(headers(s[..Scan(s).value.end]), part)
    ensures Delivers(arrivals, last, s)
    ensures |Collect([], None, arrivals + [last], headers).raw| < |s|
  {
    var m := Scan(s).value;
    var k := m.end + m.sep + |part|;
    assert Body(s[..k], m) == Body(s, m)[..|part|] == part;
    var n;
    ShortStops(s, k, headers);
    arrivals, last, n := StoppedBy(s, k, headers);
  }

  lemma {:induction false} PiecesAppend(a: seq<Piece>, b: seq<Piece>)
    ensures EncodePieces(a + b) == EncodePieces(a) + EncodePieces(b)
    decreases |a|
  {
    if a == [] {
      assert a + b == b;
    } else {
      assert (a + b)[1..] == a[1..] + b;
      PiecesAppend(a[1..], b);
    }
  }

  /** What stands behind the data of a chunk. */
  lemma EncodeBehind(pieces: seq<Piece>, i: nat, lines: seq<Bytes>) returns (more: Bytes)
    requires i < |pieces|
    ensures var p := pieces[i];
            more != [] && Encode(pieces, lines) == EncodePieces(pieces[..i]) + (p.size + p.ext + CRLF + p.data) + more
  {
    var p, tail := pieces[i], [48] + CRLF + (EncodeLines(lines) + CRLF);
    var front, rest := EncodePieces(pieces[..i]), EncodePieces(pieces[i + 1..]);
    assert pieces == pieces[..i] + pieces[i..] && pieces[i..][1..] == pieces[i + 1..];
    PiecesAppend(pieces[..i], pieces[i..]);
    more := CRLF + (rest + tail);
    Regroup(front, p.size + p.ext + CRLF + p.data, CRLF, rest, tail);
  }

  lemma Regroup(a: Bytes, b: Bytes, c: Bytes, d: Bytes, e: Bytes)
    ensures a + (b + c + d) + e == a + b + (c + (d + e))
  {
  }
}
