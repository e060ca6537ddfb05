/** `hasCompleteChunkedBody`: whether a chunked body read so far has reached its end. */
module ChunkedEnd {
  import opened ByteStrings
  import opened ChunkedBody
  import opened Options

  function ZeroLine(eol: Bytes): Bytes { [48] + eol }

  /** A zero chunk line starts here: at the beginning or after a line break. */
  predicate ZeroAt(body: Bytes, start: nat, eol: Bytes) {
    (start == 0 && At(body, 0, ZeroLine(eol))) || (start >= |eol| && At(body, start - |eol|, eol + ZeroLine(eol)))
  }

  /** After the zero chunk line come an empty line, or somewhere two line breaks in a row. */
  predicate EndsAfter(body: Bytes, start: nat, eol: Bytes) {
    && start + |ZeroLine(eol)| <= |body|
    && var rest := body[start + |ZeroLine(eol)|..];
       At(rest, 0, eol) || IndexFrom(rest, eol + eol, 0) >= 0
  }

  ghost predicate CompleteWith(body: Bytes, eol: Bytes) {
    exists start: nat :: ZeroAt(body, start, eol) && EndsAfter(body, start, eol)
  }

  ghost predicate Complete(body: Bytes) { CompleteWith(body, CRLF) || CompleteWith(body, [LF]) }

  /** The loop over `bytes.Index`: every occurrence of a pattern, the overlapping ones too. */
  method Occurrences(body: Bytes, pattern: Bytes) returns (found: seq<nat>)
    requires pattern != []
    ensures forall p: nat :: p in found <==> At(body, p, pattern)
  {
    found := [];
    var from := 0;
    var idx := IndexFrom(body, pattern, from);
    while idx != -1
      invariant 0 <= from && idx == IndexFrom(body, pattern, from)
      invariant forall p: nat :: p in found <==> p < from && At(body, p, pattern)
      decreases |body| - from
    {
      NextOccurrence(body, pattern, from, idx);
      found := found + [idx];
      from := idx + 1;
      idx := IndexFrom(body, pattern, from);
    }
  }

  lemma NextOccurrence(body: Bytes, pattern: Bytes, from: nat, idx: nat)
    requires pattern != [] && idx == IndexFrom(body, pattern, from)
    ensures idx < |body|
    ensures forall p: nat :: p < idx + 1 && At(body, p, pattern) <==> (p < from && At(body, p, pattern)) || p == idx
  {
  }

  /** Where the zero chunk lines start. */
  method ZeroChunkStarts(body: Bytes, eol: Bytes) returns (starts: seq<nat>)
    requires eol != []
    ensures forall start: nat :: start in starts <==> ZeroAt(body, start, eol)
  {
    var later := Occurrences(body, eol + ZeroLine(eol));
    starts := seq(|later|, i requires 0 <= i < |later| => later[i] + |eol|);
    forall start: nat ensures start in starts <==> start >= |eol| && start - |eol| in later {
      if start >= |eol| && start - |eol| in later {
        var i :| 0 <= i < |later| && later[i] == start - |eol|;
        assert starts[i] == start;
      }
    }
    if At(body, 0, ZeroLine(eol)) {
      starts := [0] + starts;
    }
  }

  /** Looks behind each of them. */
  method HasCompleteChunkedBodyWithEOL(body: Bytes, eol: Bytes) returns (complete: bool)
    requires eol != []
    ensures complete <==> CompleteWith(body, eol)
  {
    var starts := ZeroChunkStarts(body, eol);
    for k := 0 to |starts|
      invariant forall i :: 0 <= i < k ==> !EndsAfter(body, starts[i], eol)
    {
      if EndsAfter(body, starts[k], eol) {
        return true;
      }
    }
    return false;
  }

  method HasCompleteChunkedBody(body: Bytes) returns (complete: bool)
    ensures complete <==> Complete(body)
  {
    complete := HasCompleteChunkedBodyWithEOL(body, CRLF);
    if !complete {
      complete := HasCompleteChunkedBodyWithEOL(body, [LF]);
    }
  }

  // ---------- the same in terms of parts ----------

  /** A zero line stands between two parts, at the start or behind a line break, and the part behind it starts with an
      empty line or holds one. */
  ghost predicate SeemsEnded(before: Bytes, after: Bytes, eol: Bytes) {
    && (before == [] || (|before| >= |eol| && before[|before| - |eol|..] == eol))
    && (eol <= after || exists c, d :: after == c + (eol + eol) + d)
  }

  lemma InParts(s: Bytes, i: nat, pattern: Bytes)
    requires At(s, i, pattern)
    ensures s == s[..i] + pattern + s[i + |pattern|..]
  {
  }

  lemma HoldsIff(s: Bytes, pattern: Bytes)
    ensures IndexFrom(s, pattern, 0) >= 0 <==> exists c, d :: s == c + pattern + d
  {
    var i := IndexFrom(s, pattern, 0);
    if i >= 0 {
      InParts(s, i, pattern);
    }
    if c, d :| s == c + pattern + d {
      AtIn(c, pattern, d);
    }
  }

  lemma ZeroParts(body: Bytes, start: nat, eol: Bytes)
    requires ZeroAt(body, start, eol)
    ensures start + 1 + |eol| <= |body|
    ensures body == body[..start] + ([48] + eol) + body[start + 1 + |eol|..]
    ensures body[..start] == [] || (|body[..start]| >= |eol| && body[..start][start - |eol|..] == eol)
  {
    if start == 0 && At(body, 0, ZeroLine(eol)) {
      InParts(body, 0, ZeroLine(eol));
    } else {
      var at := start - |eol|;
      InParts(body, at, eol + ZeroLine(eol));
      assert body == (body[..at] + eol) + ZeroLine(eol) + body[at + |eol + ZeroLine(eol)|..];
      assert body[..start] == body[..at] + eol;
    }
  }

  lemma PartsZero(before: Bytes, after: Bytes, eol: Bytes)
    requires before == [] || (|before| >= |eol| && before[|before| - |eol|..] == eol)
    ensures ZeroAt(before + ([48] + eol) + after, |before|, eol)
  {
    var body := before + ([48] + eol) + after;
    if before == [] {
      AtIn([], ZeroLine(eol), after);
      assert [] + ZeroLine(eol) + after == body;
    } else {
      var front := before[..|before| - |eol|];
      assert before == front + eol;
      AtIn(front, eol + ZeroLine(eol), after);
      assert front + (eol + ZeroLine(eol)) + after == body;
    }
  }

  ghost predicate Parted(body: Bytes, before: Bytes, after: Bytes, eol: Bytes) {
    body == before + ([48] + eol) + after && SeemsEnded(before, after, eol)
  }

  lemma CompleteParts(body: Bytes, eol: Bytes)
    requires CompleteWith(body, eol)
    ensures exists before, after :: Parted(body, before, after, eol)
  {
    var start: nat :| ZeroAt(body, start, eol) && EndsAfter(body, start, eol);
    ZeroParts(body, start, eol);
    BehindIff(body[start + 1 + |eol|..], eol);
    assert Parted(body, body[..start], body[start + 1 + |eol|..], eol);
  }

  lemma PartsComplete(body: Bytes, before: Bytes, after: Bytes, eol: Bytes)
    requires Parted(body, before, after, eol)
    ensures CompleteWith(body, eol)
  {
    PartsZero(before, after, eol);
    assert body[|before| + |ZeroLine(eol)|..] == after;
    BehindIff(after, eol);
    assert EndsAfter(body, |before|, eol);
  }

  /** A body counts as complete exactly when it falls into two such parts with a zero line between them. */
  lemma CompleteWithIff(body: Bytes, eol: Bytes)
    ensures CompleteWith(body, eol) <==> exists before, after :: Parted(body, before, after, eol)
  {
    if CompleteWith(body, eol) {
      CompleteParts(body, eol);
    }
    if before, after :| Parted(body, before, after, eol) {
      PartsComplete(body, before, after, eol);
    }
  }

  lemma BehindIff(after: Bytes, eol: Bytes)
    ensures At(after, 0, eol) || IndexFrom(after, eol + eol, 0) >= 0
            <==> eol <= after || exists c, d :: after == c + (eol + eol) + d
  {
    HoldsIff(after, eol + eol);
  }

  // ---------- complete bodies are recognised ----------

  lemma AtIn(a: Bytes, pattern: Bytes, b: Bytes)
    ensures At(a + pattern + b, |a|, pattern)
  {
    assert (a + pattern + b)[|a|..|a| + |pattern|] == pattern;
  }

  lemma {:induction false} PiecesEndWithBreak(pieces: seq<Piece>)
    requires pieces != []
    ensures exists before :: EncodePieces(pieces) == before + CRLF
  {
    if |pieces| == 1 {
      var p := pieces[0];
      assert EncodePieces(pieces) == EncodePiece(p) + [];
      assert EncodePieces(pieces) == (p.size + p.ext + CRLF + p.data) + CRLF;
    } else {
      PiecesEndWithBreak(pieces[1..]);
      var before :| EncodePieces(pieces[1..]) == before + CRLF;
      assert EncodePieces(pieces) == (EncodePiece(pieces[0]) + before) + CRLF;
    }
  }

  lemma {:induction false} LinesEndWithBreak(lines: seq<Bytes>)
    requires lines != []
    ensures exists before :: EncodeLines(lines) == before + CRLF
  {
    if |lines| == 1 {
      assert EncodeLines(lines) == lines[0] + CRLF + [];
      assert EncodeLines(lines) == lines[0] + CRLF;
    } else {
      LinesEndWithBreak(lines[1..]);
      var before :| EncodeLines(lines[1..]) == before + CRLF;
      assert EncodeLines(lines) == (lines[0] + CRLF + before) + CRLF;
    }
  }

  /** Behind the zero chunk line of an encoded body the end is found. */
  lemma TrailersEnd(lines: seq<Bytes>, rest: Bytes)
    ensures var t := EncodeLines(lines) + CRLF + rest; At(t, 0, CRLF) || IndexFrom(t, CRLF + CRLF, 0) >= 0
  {
    var t := EncodeLines(lines) + CRLF + rest;
    if lines == [] {
      assert t == [] + CRLF + rest;
      AtIn([], CRLF, rest);
    } else {
      LinesEndWithBreak(lines);
      var before :| EncodeLines(lines) == before + CRLF;
      assert t == before + (CRLF + CRLF) + rest;
      AtIn(before, CRLF + CRLF, rest);
    }
  }

  /** A zero chunk line behind nothing or behind a line break is found. */
  lemma ZeroFound(front: Bytes, trailer: Bytes)
    requires front != [] ==> exists before :: front == before + CRLF
    ensures ZeroAt(front + ZeroLine(CRLF) + trailer, |front|, CRLF)
  {
    var body := front + ZeroLine(CRLF) + trailer;
    if front == [] {
      AtIn([], ZeroLine(CRLF), trailer);
    } else {
      var before :| front == before + CRLF;
      assert body == before + (CRLF + ZeroLine(CRLF)) + trailer;
      AtIn(before, CRLF + ZeroLine(CRLF), trailer);
    }
  }

  lemma CompleteAfter(front: Bytes, trailer: Bytes)
    requires front != [] ==> exists before :: front == before + CRLF
    requires At(trailer, 0, CRLF) || IndexFrom(trailer, CRLF + CRLF, 0) >= 0
    ensures Complete(front + ZeroLine(CRLF) + trailer)
  {
    var body := front + ZeroLine(CRLF) + trailer;
    ZeroFound(front, trailer);
    assert body[|front| + |ZeroLine(CRLF)|..] == trailer;
    assert EndsAfter(body, |front|, CRLF);
    assert CompleteWith(body, CRLF);
  }

  /** Every complete encoded body is recognised, with any chunks and trailers, and with anything
      behind it. */
  lemma EncodedIsComplete(pieces: seq<Piece>, lines: seq<Bytes>, rest: Bytes)
    ensures Complete(Encode(pieces, lines) + rest)
  {
    var front, trailer := EncodePieces(pieces), EncodeLines(lines) + CRLF + rest;
    assert Encode(pieces, lines) + rest == front + ZeroLine(CRLF) + trailer;
    if pieces != [] {
      PiecesEndWithBreak(pieces);
    }
    TrailersEnd(lines, rest);
    CompleteAfter(front, trailer);
  }

  // ---------- nothing less is recognised, but for what the chunks hold ----------

  ghost predicate NoLf(lines: seq<Bytes>) { forall i :: 0 <= i < |lines| ==> LF !in lines[i] }

  /** In lines that end with CRLF every LF stands behind a CR. */
  lemma {:induction false} LfBehindCr(lines: seq<Bytes>, i: nat)
    requires NoLf(lines) && i < |EncodeLines(lines) + CRLF| && (EncodeLines(lines) + CRLF)[i] == LF
    ensures i > 0 && (EncodeLines(lines) + CRLF)[i - 1] == CR
    decreases |lines|
  {
    if lines != [] {
      var line, rest := lines[0], EncodeLines(lines[1..]) + CRLF;
      var s := EncodeLines(lines) + CRLF;
      assert s == line + (CRLF + rest);
      forall k | 0 <= k < |line| ensures s[k] != LF {
        assert s[k] == line[k] && line[k] in line;
      }
      if i >= |line| + 2 {
        assert s[i] == rest[i - |line| - 2];
        LfBehindCr(lines[1..], i - |line| - 2);
        assert s[i - 1] == rest[i - |line| - 3];
      }
    }
  }

  /** The empty line at the end is the only one. */
  lemma {:induction false} BlankAtEnd(lines: seq<Bytes>, i: nat)
    requires ValidLines(lines) && At(EncodeLines(lines) + CRLF, i, CRLF + CRLF)
    ensures i + 4 == |EncodeLines(lines) + CRLF|
    decreases |lines|
  {
    var s := EncodeLines(lines) + CRLF;
    assert s[i] == (CRLF + CRLF)[0] && s[i + 2] == (CRLF + CRLF)[2];
    if lines != [] {
      var line, rest := lines[0], EncodeLines(lines[1..]) + CRLF;
      assert s == line + (CRLF + rest);
      forall k | 0 <= k < |line| ensures s[k] != CR {
        assert s[k] == line[k] && line[k] in line;
      }
      if i == |line| {
        assert s[i + 2] == rest[0];
        StartsWithCr(lines[1..]);
      } else if i >= |line| + 2 {
        assert s[i..i + 4] == rest[i - |line| - 2..i - |line| + 2];
        BlankAtEnd(lines[1..], i - |line| - 2);
      }
    }
  }

  lemma StartsWithCr(lines: seq<Bytes>)
    requires ValidLines(lines)
    ensures (EncodeLines(lines) + CRLF)[0] == CR <==> lines == []
  {
    if lines != [] {
      assert (EncodeLines(lines) + CRLF)[0] == lines[0][0] && lines[0][0] in lines[0];
    }
  }

  /** `EndsAfter` by positions in the body itself. */
  lemma EndsAtPosition(body: Bytes, start: nat, eol: Bytes)
    ensures EndsAfter(body, start, eol) <==>
            var from := start + |ZeroLine(eol)|;
            from <= |body| && (At(body, from, eol) || exists i: nat :: from <= i && At(body, i, eol + eol))
  {
    var from := start + |ZeroLine(eol)|;
    if from <= |body| {
      var rest := body[from..];
      forall i: nat, p: Bytes ensures At(rest, i, p) <==> At(body, from + i, p) {
        if from + i + |p| <= |body| {
          assert rest[i..i + |p|] == body[from + i..from + i + |p|];
        }
      }
      if i: nat :| from <= i && At(body, i, eol + eol) {
        assert At(rest, i - from, eol + eol);
      }
      assert At(rest, 0, eol) <==> At(body, from, eol);
    }
  }

  /** What a part of a body shows, a longer part shows as well. */
  lemma LongerShows(body: Bytes, k: nat, n: nat, start: nat, eol: Bytes)
    requires k <= n <= |body|
    ensures ZeroAt(body[..k], start, eol) ==> ZeroAt(body[..n], start, eol)
    ensures EndsAfter(body[..k], start, eol) ==> EndsAfter(body[..n], start, eol)
  {
    forall i: int, p: Bytes ensures At(body[..k], i, p) ==> At(body[..n], i, p) {
      PrefixAt(body, k, i, p);
      PrefixAt(body, n, i, p);
    }
    EndsAtPosition(body[..k], start, eol);
    EndsAtPosition(body[..n], start, eol);
  }

  predicate Eol(eol: Bytes) { eol == CRLF || eol == [LF] }

  /** A zero chunk line that stands within the chunks, behind which the body seems to end before its end. */
  ghost predicate EndsEarly(pieces: seq<Piece>, lines: seq<Bytes>) {
    exists start: nat, eol: Bytes {:trigger ZeroAt(EncodePieces(pieces), start, eol)} ::
      Eol(eol) && ZeroAt(EncodePieces(pieces), start, eol) && EndsAfter(Short(Encode(pieces, lines)), start, eol)
  }

  function Short(body: Bytes): Bytes { if body == [] then [] else body[..|body| - 1] }

  /** No zero chunk line stands within the chunks. */
  ghost predicate NoZeroLine(pieces: seq<Piece>) {
    forall start: nat, eol: Bytes :: Eol(eol) ==> !ZeroAt(EncodePieces(pieces), start, eol)
  }

  /** Behind the chunks nothing seems to end the body before its end. */
  lemma LastLineEnds(front: Bytes, lines: seq<Bytes>, start: nat, eol: Bytes)
    requires ValidLines(lines) && Eol(eol) && |front| <= start
    ensures var short := Short(front + (EncodeLines([[48]] + lines) + CRLF));
            !(ZeroAt(short, start, eol) && EndsAfter(short, start, eol))
  {
    var all := [[48]] + lines;
    var short := Short(front + (EncodeLines(all) + CRLF));
    assert ValidLines(all) && NoLf(all);
    if ZeroAt(short, start, eol) {
      ZeroByte(short, start, eol);
      if eol == [LF] {
        TailLf(front, all, start);
      } else {
        TailEnds(front, all, start);
      }
    }
  }

  lemma TailLf(front: Bytes, lines: seq<Bytes>, start: nat)
    requires NoLf(lines) && |front| <= start
    ensures var short := Short(front + (EncodeLines(lines) + CRLF));
            start + 2 <= |short| && short[start] == 48 ==> short[start + 1..start + 2] != [LF]
  {
    var tail := EncodeLines(lines) + CRLF;
    var short := Short(front + tail);
    if start + 2 <= |short| {
      assert short[start] == tail[start - |front|] && short[start + 1] == tail[start + 1 - |front|];
      if tail[start + 1 - |front|] == LF {
        LfBehindCr(lines, start + 1 - |front|);
      }
    }
  }

  lemma TailEnds(front: Bytes, lines: seq<Bytes>, start: nat)
    requires ValidLines(lines) && |front| <= start
    ensures var short := Short(front + (EncodeLines(lines) + CRLF));
            start + 3 <= |short| && short[start + 1..start + 3] == CRLF ==> !EndsAfter(short, start, CRLF)
  {
    var short := Short(front + (EncodeLines(lines) + CRLF));
    EndsAtPosition(short, start, CRLF);
    forall i: nat | |front| <= i ensures !At(short, i, CRLF + CRLF) {
      TailBlank(front, lines, i);
    }
    TwoBreaks(short, start + 1);
  }

  lemma TwoBreaks(s: Bytes, i: nat)
    ensures At(s, i, CRLF) && At(s, i + 2, CRLF) ==> At(s, i, CRLF + CRLF)
  {
    if i + 4 <= |s| {
      assert s[i..i + 4] == s[i..i + 2] + s[i + 2..i + 4];
    }
  }

  /** What stands at a zero chunk line. */
  lemma ZeroByte(body: Bytes, start: nat, eol: Bytes)
    requires ZeroAt(body, start, eol)
    ensures start + 1 + |eol| <= |body| && body[start] == 48 && body[start + 1..start + 1 + |eol|] == eol
  {
    if At(body, 0, ZeroLine(eol)) && start == 0 {
      assert body[0..1 + |eol|][0] == 48 && body[0..1 + |eol|][1..] == eol;
    } else {
      var p := eol + ZeroLine(eol);
      var at := body[start - |eol|..start - |eol| + |p|];
      assert at == p && at[|eol|] == 48 && at[|eol| + 1..] == eol;
    }
  }

  lemma TailBlank(front: Bytes, lines: seq<Bytes>, i: nat)
    requires ValidLines(lines) && |front| <= i
    ensures !At(Short(front + (EncodeLines(lines) + CRLF)), i, CRLF + CRLF)
  {
    var tail := EncodeLines(lines) + CRLF;
    PrefixAt(front + tail, |front + tail| - 1, i, CRLF + CRLF);
    AtShifted(front, tail, i, CRLF + CRLF);
    if At(tail, i - |front|, CRLF + CRLF) {
      BlankAtEnd(lines, i - |front|);
    }
  }

  lemma EncodeAsLines(pieces: seq<Piece>, lines: seq<Bytes>)
    ensures Encode(pieces, lines) == EncodePieces(pieces) + (EncodeLines([[48]] + lines) + CRLF)
  {
    assert ([[48]] + lines)[1..] == lines;
    assert EncodeLines([[48]] + lines) == [48] + CRLF + EncodeLines(lines);
    assert [48] + CRLF + EncodeLines(lines) + CRLF == [48] + CRLF + (EncodeLines(lines) + CRLF);
  }

  /** A zero chunk line at a place within the chunks lies within them as a whole. */
  lemma ZeroLineWithin(front: Bytes, more: Bytes, n: nat, start: nat, eol: Bytes)
    requires Eol(eol) && (front != [] ==> exists before :: front == before + CRLF) && start < |front| <= n <= |front + more|
    ensures ZeroAt((front + more)[..n], start, eol) <==> ZeroAt(front, start, eol)
  {
    var body := front + more;
    assert body[..|front|] == front;
    if ZeroAt(body[..n], start, eol) {
      ZeroByte(body[..n], start, eol);
      var before :| front == before + CRLF;
      assert body[start] == front[start] && front[|front| - 1] == LF && front[|front| - 2] == CR;
      assert start + 1 + |eol| <= |front|;
      forall i: int, p: Bytes | i + |p| <= |front| ensures At(body[..n], i, p) <==> At(front, i, p) {
        PrefixAt(body, n, i, p);
        PrefixAt(body, |front|, i, p);
      }
    } else {
      LongerShows(body, |front|, n, start, eol);
    }
  }

  lemma FrontEnds(pieces: seq<Piece>)
    ensures EncodePieces(pieces) != [] ==> exists before :: EncodePieces(pieces) == before + CRLF
  {
    if pieces != [] {
      PiecesEndWithBreak(pieces);
    }
  }

  /** Some part of the encoded body passes for the whole exactly when its chunks hold a zero chunk line behind
      which the body seems to end early. */
  lemma ShortPassesIff(pieces: seq<Piece>, lines: seq<Bytes>)
    requires ValidLines(lines)
    ensures (exists k :: 0 <= k < |Encode(pieces, lines)| && Complete(Encode(pieces, lines)[..k])) <==> EndsEarly(pieces, lines)
  {
    var body := Encode(pieces, lines);
    if k :| 0 <= k < |body| && Complete(body[..k]) {
      PassesEarly(pieces, lines, k, if CompleteWith(body[..k], CRLF) then CRLF else [LF]);
    }
    if EndsEarly(pieces, lines) {
      EarlyPasses(pieces, lines);
    }
  }

  lemma PassesEarly(pieces: seq<Piece>, lines: seq<Bytes>, k: nat, eol: Bytes)
    requires ValidLines(lines) && Eol(eol) && k < |Encode(pieces, lines)| && CompleteWith(Encode(pieces, lines)[..k], eol)
    ensures EndsEarly(pieces, lines)
  {
    var body := Encode(pieces, lines);
    var start: nat :| ZeroAt(body[..k], start, eol) && EndsAfter(body[..k], start, eol);
    ShortShows(body, k, start, eol);
    PassesAt(pieces, lines, start, eol);
  }

  lemma ShortShows(body: Bytes, k: nat, start: nat, eol: Bytes)
    requires k < |body| && ZeroAt(body[..k], start, eol) && EndsAfter(body[..k], start, eol)
    ensures ZeroAt(Short(body), start, eol) && EndsAfter(Short(body), start, eol)
  {
    LongerShows(body, k, |body| - 1, start, eol);
  }

  lemma PassesAt(pieces: seq<Piece>, lines: seq<Bytes>, start: nat, eol: Bytes)
    requires ValidLines(lines) && Eol(eol)
    requires var short := Short(Encode(pieces, lines)); ZeroAt(short, start, eol) && EndsAfter(short, start, eol)
    ensures EndsEarly(pieces, lines)
  {
    WithinChunks(pieces, lines, start, eol);
  }

  lemma EarlyPasses(pieces: seq<Piece>, lines: seq<Bytes>)
    requires ValidLines(lines) && EndsEarly(pieces, lines)
    ensures Complete(Encode(pieces, lines)[..|Encode(pieces, lines)| - 1])
  {
    var short := Short(Encode(pieces, lines));
    var start: nat, eol: Bytes :| Eol(eol) && ZeroAt(EncodePieces(pieces), start, eol) && EndsAfter(short, start, eol);
    WithinChunks(pieces, lines, start, eol);
    assert CompleteWith(short, eol);
  }

  /** A zero chunk line with an early end behind it is one within the chunks. */
  lemma WithinChunks(pieces: seq<Piece>, lines: seq<Bytes>, start: nat, eol: Bytes)
    requires ValidLines(lines) && Eol(eol) && EndsAfter(Short(Encode(pieces, lines)), start, eol)
    ensures ZeroAt(Short(Encode(pieces, lines)), start, eol) <==> ZeroAt(EncodePieces(pieces), start, eol)
  {
    EncodeAsLines(pieces, lines);
    FrontEnds(pieces);
    WithinFront(EncodePieces(pieces), lines, start, eol);
  }

  lemma WithinFront(front: Bytes, lines: seq<Bytes>, start: nat, eol: Bytes)
    requires ValidLines(lines) && Eol(eol) && (front != [] ==> exists before :: front == before + CRLF)
    requires EndsAfter(Short(front + (EncodeLines([[48]] + lines) + CRLF)), start, eol)
    ensures ZeroAt(Short(front + (EncodeLines([[48]] + lines) + CRLF)), start, eol) <==> ZeroAt(front, start, eol)
  {
    if start < |front| {
      FrontAgrees(front, EncodeLines([[48]] + lines) + CRLF, start, eol);
    } else {
      LastLineEnds(front, lines, start, eol);
      NoneBeyond(front, start, eol);
    }
  }

  lemma FrontAgrees(front: Bytes, more: Bytes, start: nat, eol: Bytes)
    requires Eol(eol) && start < |front| && more != [] && (front != [] ==> exists before :: front == before + CRLF)
    ensures ZeroAt(Short(front + more), start, eol) <==> ZeroAt(front, start, eol)
  {
    ZeroLineWithin(front, more, |front + more| - 1, start, eol);
  }

  lemma NoneBeyond(front: Bytes, start: nat, eol: Bytes)
    requires |front| <= start
    ensures !ZeroAt(front, start, eol)
  {
    if ZeroAt(front, start, eol) {
      ZeroByte(front, start, eol);
    }
  }

  // ---------- chunks without zero lines ----------

  /** The chunks as lines. */
  function PieceLines(pieces: seq<Piece>): seq<Bytes> {
    if pieces == [] then [] else [pieces[0].size + pieces[0].ext, pieces[0].data] + PieceLines(pieces[1..])
  }

  lemma {:induction false} PiecesAreLines(pieces: seq<Piece>)
    ensures EncodePieces(pieces) == EncodeLines(PieceLines(pieces))
    decreases |pieces|
  {
    if pieces != [] {
      var p, rest := pieces[0], PieceLines(pieces[1..]);
      PiecesAreLines(pieces[1..]);
      var all := [p.size + p.ext, p.data] + rest;
      assert all[1..] == [p.data] + rest && all[1..][1..] == rest;
      assert EncodeLines(all) == (p.size + p.ext) + CRLF + (p.data + CRLF + EncodeLines(rest));
    }
  }

  /** The data of a chunk is a line, and not the last-chunk line. */
  predicate PlainData(p: Piece) { LF !in p.data && p.data != [48] }

  lemma {:induction false} PieceLinesPlain(pieces: seq<Piece>)
    requires ValidPieces(pieces) && forall i :: 0 <= i < |pieces| ==> PlainData(pieces[i])
    ensures NoLf(PieceLines(pieces)) && NoZero(PieceLines(pieces))
    decreases |pieces|
  {
    if pieces != [] {
      PieceLinesPlain(pieces[1..]);
      SizeLine(pieces[0]);
    }
  }

  lemma SizeLine(p: Piece)
    requires ValidPiece(p)
    ensures LF !in p.size + p.ext && p.size + p.ext != [48]
  {
    SizeText(p);
    var zero: Bytes := [48];
    assert zero[..0] == [] && HexValue([]) == Some(0) && HexValue(zero) == Some(0);
    if p.ext == [] {
      assert p.size + p.ext == p.size;
    }
  }

  ghost predicate NoZero(lines: seq<Bytes>) { forall i :: 0 <= i < |lines| ==> lines[i] != [48] }

  /** Lines other than a zero hold no zero chunk line. */
  lemma {:induction false} NoZeroIn(lines: seq<Bytes>, start: nat)
    requires NoLf(lines) && NoZero(lines)
    ensures !ZeroAt(EncodeLines(lines), start, CRLF)
    decreases |lines|
  {
    var s := EncodeLines(lines);
    if lines != [] {
      var line, rest := lines[0], EncodeLines(lines[1..]);
      assert s == line + (CRLF + rest);
      if start == 0 {
        FirstZero(s, line, rest);
      } else if ZeroAt(s, start, CRLF) {
        LaterZero(s, line, rest, start);
        NoZeroIn(lines[1..], start - |line| - 2);
      }
    }
  }

  lemma FirstZero(s: Bytes, line: Bytes, rest: Bytes)
    requires s == line + (CRLF + rest) && LF !in line
    ensures ZeroAt(s, 0, CRLF) ==> line == [48]
  {
    forall k | 0 <= k < |line| ensures s[k] != LF {
      assert s[k] == line[k] && line[k] in line;
    }
    assert s[|line|] == CR;
    if ZeroAt(s, 0, CRLF) {
      ZeroByte(s, 0, CRLF);
      assert s[1..3][1] == s[2];
      assert line == [s[0]];
    }
  }

  lemma LaterZero(s: Bytes, line: Bytes, rest: Bytes, start: nat)
    requires s == line + (CRLF + rest) && LF !in line && start > 0 && ZeroAt(s, start, CRLF)
    ensures start >= |line| + 2 && ZeroAt(rest, start - |line| - 2, CRLF)
  {
    var p := CRLF + ZeroLine(CRLF);
    assert s[start - 2..start + 3] == p && p[0] == CR && p[1] == LF;
    assert s[start - 1] == p[1] && s[start - 2] == p[0];
    forall k | 0 <= k < |line| ensures s[k] != LF {
      assert s[k] == line[k] && line[k] in line;
    }
    var at := start - |line| - 2;
    if at == 0 {
      assert rest[0..3] == s[start..start + 3] == p[2..];
    } else {
      assert rest[at - 2..at + 3] == s[start - 2..start + 3];
    }
  }

  /** Chunks whose data holds no line feed, and is not a single zero, hold no zero chunk line. */
  lemma PlainChunks(pieces: seq<Piece>)
    requires ValidPieces(pieces) && forall i :: 0 <= i < |pieces| ==> PlainData(pieces[i])
    ensures NoZeroLine(pieces)
  {
    var lines := PieceLines(pieces);
    PiecesAreLines(pieces);
    PieceLinesPlain(pieces);
    forall start: nat, eol: Bytes | Eol(eol) ensures !ZeroAt(EncodePieces(pieces), start, eol) {
      if eol == CRLF {
        NoZeroIn(lines, start);
      } else {
        NoLfZero(lines, start);
      }
    }
  }

  lemma NoLfZero(lines: seq<Bytes>, start: nat)
    requires NoLf(lines)
    ensures !ZeroAt(EncodeLines(lines), start, [LF])
  {
    var s := EncodeLines(lines);
    if ZeroAt(s, start, [LF]) {
      ZeroByte(s, start, [LF]);
      assert s[start + 1..start + 2][0] == s[start + 1];
      assert (s + CRLF)[start] == s[start] && (s + CRLF)[start + 1] == LF;
      LfBehindCr(lines, start + 1);
    }
  }

  // ---------- the converse fails ----------

  /** The test does not follow chunk sizes: a body cut off right after the data of any of its chunks already
      counts as complete when that data contains a line with a zero and an empty line. */
  lemma DataMayLookComplete(earlier: Bytes, p: Piece, before: Bytes, after: Bytes)
    requires ValidPiece(p) && p.data == before + CRLF + ZeroLine(CRLF) + (CRLF + after)
    ensures Complete(earlier + (p.size + p.ext + CRLF + p.data))
  {
    var front := earlier + p.size + p.ext + CRLF + before + CRLF;
    assert earlier + (p.size + p.ext + CRLF + p.data) == front + ZeroLine(CRLF) + (CRLF + after);
    assert At(CRLF + after, 0, CRLF);
    CompleteAfter(front, CRLF + after);
  }
}
