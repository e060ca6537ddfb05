/** What the decoder makes of bodies that are not a whole chunked encoding: cut off anywhere, ended within the
    trailers, interrupted by a line that is no chunk size, or not chunked at all. */
module ChunkedParts {
  import opened ByteStrings
  import opened ChunkedBody
  import opened Options

  // ---------- bodies cut off within their chunks ----------

  function HeadLength(p: Piece): nat { |p.size| + |p.ext| + 2 }

  /** The data among the first k bytes of a chunk, and of chunks. */
  function GotOf(p: Piece, k: nat): Bytes {
    if k <= HeadLength(p) then [] else p.data[..Min(k - HeadLength(p), |p.data|)]
  }

  function Got(pieces: seq<Piece>, k: nat): Bytes
    decreases |pieces|
  {
    if pieces == [] then []
    else if k < |EncodePiece(pieces[0])| then GotOf(pieces[0], k)
    else pieces[0].data + Got(pieces[1..], k - |EncodePiece(pieces[0])|)
  }

  lemma NoLineEnds(whole: Bytes, rest: Bytes, out: Bytes)
    requires LF !in rest
    ensures Decode(whole, rest, out) == Finish(whole, out)
  {
    forall i | 0 <= i < |rest| ensures rest[i] != LF {
      assert rest[i] in rest;
    }
  }

  /** A chunk line before any bytes. */
  lemma HeadAt(p: Piece, more: Bytes)
    requires ValidPiece(p)
    ensures HeadOf(p.size + p.ext + CRLF + more) == Chunk(|p.data|)
    ensures AfterLine(p.size + p.ext + CRLF + more) == more
  {
    var s := p.size + p.ext + CRLF + more;
    SizeText(p);
    assert s == (p.size + p.ext) + CRLF + more;
    LineSplit(p.size + p.ext, more);
    assert s[..Find(s, LF) + 1] == p.size + p.ext + CRLF;
    PieceSize(p);
  }

  /** A chunk cut off in its line. */
  lemma CutInLine(p: Piece, k: nat)
    requires ValidPiece(p) && k < HeadLength(p)
    ensures LF !in EncodePiece(p)[..k]
  {
    SizeText(p);
    var s := EncodePiece(p);
    forall i | 0 <= i < k ensures s[i] != LF {
      if i < |p.size| {
        assert s[i] == p.size[i] && p.size[i] in p.size;
      } else if i < |p.size| + |p.ext| {
        assert s[i] == p.ext[i - |p.size|] && p.ext[i - |p.size|] in p.ext;
      } else {
        assert s[i] == CR;
      }
    }
  }

  lemma CutInData(whole: Bytes, p: Piece, d: Bytes, out: Bytes)
    requires ValidPiece(p) && |out| <= MAX_BODY && d <= p.data + [CR]
    ensures Decode(whole, p.size + p.ext + CRLF + d, out)
            == Finish(whole, Take(out + d[..Min(|d|, |p.data|)], MAX_BODY))
  {
    HeadAt(p, d);
    DecodeChunk(whole, p.size + p.ext + CRLF + d, out, |p.data|);
    var n := Min(|d|, |p.data|);
    if |out| < MAX_BODY {
      var left := d[Min(|p.data|, |d|)..];
      assert left == [] || left == [CR];
      assert AfterChunk(d, |p.data|) == [];
      var toRead := Min(|p.data|, MAX_BODY - |out|);
      NoLineEnds(whole, [], out + d[..Min(toRead, |d|)]);
      if n <= toRead {
        assert d[..Min(toRead, |d|)] == d[..n];
      } else {
        assert (out + d[..n])[..MAX_BODY] == out + d[..toRead];
      }
    } else {
      assert (out + d[..n])[..MAX_BODY] == out;
    }
  }

  lemma CutPiece(whole: Bytes, p: Piece, k: nat, out: Bytes)
    requires ValidPiece(p) && |out| <= MAX_BODY && k < |EncodePiece(p)|
    ensures Decode(whole, EncodePiece(p)[..k], out) == Finish(whole, Take(out + GotOf(p, k), MAX_BODY))
  {
    var head := HeadLength(p);
    if k < head {
      CutInLine(p, k);
      NoLineEnds(whole, EncodePiece(p)[..k], out);
      assert out + [] == out;
    } else {
      var d := (p.data + CRLF)[..k - head];
      assert EncodePiece(p) == p.size + p.ext + CRLF + (p.data + CRLF);
      assert EncodePiece(p)[..k] == p.size + p.ext + CRLF + d;
      assert (p.data + CRLF)[..|p.data| + 1] == p.data + [CR];
      CutInData(whole, p, d, out);
      assert d[..Min(|d|, |p.data|)] == GotOf(p, k);
    }
  }

  lemma PrefixOf(a: Bytes, b: Bytes, k: nat)
    requires k <= |a + b|
    ensures (a + b)[..k] == if k < |a| then a[..k] else a + b[..k - |a|]
  {
  }

  /** Whole chunks, and then a part of one, or nothing. */
  lemma {:induction false} CutAt(pieces: seq<Piece>, k: nat) returns (n: nat, tail: Bytes, got: Bytes)
    requires k <= |EncodePieces(pieces)|
    ensures n <= |pieces|
    ensures EncodePieces(pieces)[..k] == EncodePieces(pieces[..n]) + tail && Got(pieces, k) == Data(pieces[..n]) + got
    ensures if n < |pieces| then exists j: nat :: PartOf(pieces[n], j, tail, got) else tail == [] && got == []
    decreases |pieces|
  {
    if pieces == [] {
      n, tail, got := 0, [], [];
    } else {
      var p, rest := pieces[0], pieces[1..];
      PrefixOf(EncodePiece(p), EncodePieces(rest), k);
      if k < |EncodePiece(p)| {
        n, tail, got := 0, EncodePiece(p)[..k], GotOf(p, k);
        assert PartOf(pieces[0], k, tail, got);
        NoneBefore(pieces, tail, got);
      } else {
        n, tail, got := CutAt(rest, k - |EncodePiece(p)|);
        OneBefore(pieces, n, tail, got);
        n := n + 1;
      }
    }
  }

  ghost predicate PartOf(p: Piece, j: nat, tail: Bytes, got: Bytes) {
    j < |EncodePiece(p)| && tail == EncodePiece(p)[..j] && got == GotOf(p, j)
  }

  lemma NoneBefore(pieces: seq<Piece>, tail: Bytes, got: Bytes)
    ensures EncodePieces(pieces[..0]) + tail == tail && Data(pieces[..0]) + got == got
  {
    assert pieces[..0] == [];
  }

  lemma OneBefore(pieces: seq<Piece>, n: nat, tail: Bytes, got: Bytes)
    requires n < |pieces|
    ensures var p, rest := pieces[0], pieces[1..];
            && EncodePiece(p) + (EncodePieces(rest[..n]) + tail) == EncodePieces(pieces[..n + 1]) + tail
            && p.data + (Data(rest[..n]) + got) == Data(pieces[..n + 1]) + got
  {
    var front := pieces[..n + 1];
    assert front[0] == pieces[0] && front[1..] == pieces[1..][..n];
    Reassociate(EncodePiece(pieces[0]), EncodePieces(pieces[1..][..n]), tail);
    Reassociate(pieces[0].data, Data(pieces[1..][..n]), got);
  }

  lemma Reassociate(a: Bytes, b: Bytes, c: Bytes)
    ensures a + (b + c) == a + b + c
  {
  }

  lemma TailDecodes(whole: Bytes, pieces: seq<Piece>, n: nat, tail: Bytes, got: Bytes, out: Bytes)
    requires ValidPieces(pieces) && n <= |pieces| && |out| <= MAX_BODY
    requires if n < |pieces| then exists j: nat :: PartOf(pieces[n], j, tail, got) else tail == [] && got == []
    ensures Decode(whole, tail, out) == Finish(whole, Take(out + got, MAX_BODY))
  {
    if n < |pieces| {
      var j: nat :| PartOf(pieces[n], j, tail, got);
      CutPiece(whole, pieces[n], j, out);
    } else {
      NoLineEnds(whole, [], out);
      assert out + [] == out;
    }
  }

  lemma TakeMore(a: Bytes, b: Bytes, n: nat)
    ensures Take(Take(a, n) + b, n) == Take(a + b, n)
  {
    if |a| > n {
      assert (a + b)[..n] == a[..n];
      assert (a[..n] + b)[..n] == a[..n];
    }
  }

  /** A body cut off anywhere within its chunks gives exactly the data that has arrived, up to the cap, and itself
      if none has; there are no trailers. */
  lemma CutBody(pieces: seq<Piece>, k: nat)
    requires ValidPieces(pieces) && k <= |EncodePieces(pieces)|
    ensures var body := EncodePieces(pieces)[..k];
            Decode(body, body, []) == Decoded(if Got(pieces, k) == [] then body else Take(Got(pieces, k), 5242880), None)
  {
    var body := EncodePieces(pieces)[..k];
    var n, tail, got := CutAt(pieces, k);
    var data := Data(pieces[..n]);
    DecodePieces(body, pieces[..n], tail, []);
    assert [] + data == data;
    TakeMore(data, got, MAX_BODY);
    if Reaches(pieces[..n], 0) {
      TailDecodes(body, pieces, n, tail, got, Take(data, MAX_BODY));
    } else {
      Unreached(pieces[..n]);
      assert (data + got)[..MAX_BODY] == data[..MAX_BODY];
    }
  }

  /** When the decoder does not look beyond the chunks, they fill it. */
  lemma Unreached(pieces: seq<Piece>)
    requires ValidPieces(pieces) && !Reaches(pieces, 0)
    ensures |Data(pieces)| > MAX_BODY
  {
    ReachesAll(pieces, 0);
    LastAdds(pieces);
  }

  /** What has arrived is a part of the data, and all of it with the last byte of the data. */
  lemma {:induction false} GotIsPart(pieces: seq<Piece>, k: nat)
    requires k <= |EncodePieces(pieces)|
    ensures Got(pieces, k) <= Data(pieces)
    ensures pieces != [] && k + 2 >= |EncodePieces(pieces)| ==> Got(pieces, k) == Data(pieces)
    decreases |pieces|
  {
    if pieces != [] {
      var p, rest := pieces[0], pieces[1..];
      if k >= |EncodePiece(p)| {
        GotIsPart(rest, k - |EncodePiece(p)|);
      } else if k + 2 >= |EncodePieces(pieces)| {
        LongEnough(rest);
      }
    }
  }

  lemma LongEnough(pieces: seq<Piece>)
    ensures pieces != [] ==> |EncodePieces(pieces)| >= 4
  {
  }

  // ---------- ended within the trailers ----------

  lemma {:induction false} TrailersEnd(lines: seq<Bytes>, t: TrailerState)
    requires ValidLines(lines)
    ensures ReadTrailers(EncodeLines(lines), t) == FoldLines(t, lines).fields
    decreases |lines|
  {
    if lines != [] {
      LineSplit(lines[0], EncodeLines(lines[1..]));
      ChompLine(lines[0]);
      TrailersEnd(lines[1..], TrailerLine(t, lines[0]));
    }
  }

  /** A body whose end is missing behind whole trailer lines gives what the whole one gives. */
  lemma EndMissing(pieces: seq<Piece>, lines: seq<Bytes>)
    requires ValidPieces(pieces) && ValidLines(lines) && |Data(pieces)| <= 5242880
    ensures var body := EncodePieces(pieces) + ([48] + CRLF + EncodeLines(lines));
            Decode(body, body, []) == Decoded(Data(pieces), Some(FoldLines(TrailerState(map[], []), lines).fields))
  {
    var tail := [48] + CRLF + EncodeLines(lines);
    DecodePieces(EncodePieces(pieces) + tail, pieces, tail, []);
    assert [] + Data(pieces) == Data(pieces);
    DechunkInverts(pieces, lines, []);
    ReachesAll(pieces, 0);
    LastHead(EncodeLines(lines));
    TrailersEnd(lines, TrailerState(map[], []));
  }

  // ---------- lines that are no chunk size ----------

  predicate IsHex(b: Byte) { 48 <= b <= 57 || 65 <= b <= 70 || 97 <= b <= 102 }

  /** A text that no chunk size reads as: empty, with a byte that is no digit (and no sign before any), negative,
      or beyond 64 bits. */
  ghost predicate NoSize(text: Bytes) {
    || text == []
    || (exists i :: 0 <= i < |text| && !IsHex(text[i]) && !(i == 0 < |text| - 1 && (text[0] == 43 || text[0] == 45)))
    || (exists n: nat :: n > 0 && text == [45] + HexText(n))
    || (exists n: nat :: n > MAX_INT64 && text == HexText(n))
  }

  lemma NotDigits(s: Bytes, i: nat)
    requires i < |s| && !IsHex(s[i])
    ensures HexValue(s).None?
  {
    assert HexDigit(s[i]).None?;
    if HexValue(s).Some? {
      HexAll(s);
    }
  }

  lemma {:induction false} HexTextDigits(n: nat)
    ensures HexText(n) != [] && IsHex(HexText(n)[0])
  {
    if n >= 16 {
      HexTextDigits(n / 16);
    }
  }

  lemma NoSizeParsed(text: Bytes)
    requires NoSize(text)
    ensures ParseSize(text).None? || ParseSize(text).value < 0
  {
    if text != [] {
      if i: nat :| i < |text| && !IsHex(text[i]) && !(i == 0 < |text| - 1 && (text[0] == 43 || text[0] == 45)) {
        BadByte(text, i);
      } else if n: nat :| n > 0 && text == [45] + HexText(n) {
        HexTextValue(n);
        assert text[1..] == HexText(n);
      } else {
        var n: nat :| n > MAX_INT64 && text == HexText(n);
        HexTextValue(n);
        HexTextDigits(n);
      }
    }
  }

  lemma BadByte(text: Bytes, i: nat)
    requires i < |text| && !IsHex(text[i]) && !(i == 0 < |text| - 1 && (text[0] == 43 || text[0] == 45))
    ensures ParseSize(text).None?
  {
    var digits := if text[0] == 45 || text[0] == 43 then text[1..] else text;
    if digits != [] {
      NotDigits(digits, i - (|text| - |digits|));
    }
  }

  /** A line is cut at its first semicolon and trimmed before it is read as a size. */
  function SizeOn(line: Bytes): Bytes { TrimSpace(TrimSpace(line)[..Find(TrimSpace(line), 59)]) }

  lemma LineHead(line: Bytes, more: Bytes)
    requires LF !in line
    ensures var s := line + [LF] + more;
            AfterLine(s) == more && Find(s, LF) < |s| && s[..Find(s, LF) + 1] == line + [LF]
    ensures TrimSpace(line + [LF]) == TrimSpace(line)
  {
    var s := line + [LF] + more;
    FindIn(line, LF, more);
    assert s[|line| + 1..] == more;
    TrimBreak(line);
  }

  lemma {:induction false} TrimBreak(line: Bytes)
    ensures TrimSpace(line + [LF]) == TrimSpace(line)
    decreases |line|
  {
    if line == [] {
      assert TrimLeft([LF]) == [];
    } else if IsSpace(line[0]) {
      assert (line + [LF])[1..] == line[1..] + [LF];
      TrimBreak(line[1..]);
    } else {
      assert (line + [LF])[..|line|] == line;
    }
  }

  /** A blank line between chunks is skipped. */
  lemma BlankSkipped(whole: Bytes, line: Bytes, more: Bytes, out: Bytes)
    requires LF !in line && forall i :: 0 <= i < |line| ==> IsSpace(line[i])
    ensures Decode(whole, line + [LF] + more, out) == Decode(whole, more, out)
  {
    LineHead(line, more);
    AllSpace(line);
  }

  lemma {:induction false} AllSpace(line: Bytes)
    requires forall i :: 0 <= i < |line| ==> IsSpace(line[i])
    ensures TrimSpace(line) == []
    decreases |line|
  {
    if line != [] {
      AllSpace(line[1..]);
    }
  }

  lemma NoSizeStops(whole: Bytes, line: Bytes, more: Bytes, out: Bytes)
    requires LF !in line && TrimSpace(line) != [] && NoSize(SizeOn(line))
    ensures Decode(whole, line + [LF] + more, out) == Finish(whole, out)
  {
    LineHead(line, more);
    NoSizeParsed(SizeOn(line));
  }

  /** Behind any chunks, a line that is no size ends the decoding with the data before it; at the start it leaves
      the body as it is. */
  lemma InterruptedBody(pieces: seq<Piece>, line: Bytes, more: Bytes)
    requires ValidPieces(pieces) && LF !in line && TrimSpace(line) != [] && NoSize(SizeOn(line))
    ensures var body := EncodePieces(pieces) + (line + [LF] + more);
            Decode(body, body, []) == Decoded(if pieces == [] then body else Take(Data(pieces), 5242880), None)
  {
    var tail := line + [LF] + more;
    var body := EncodePieces(pieces) + tail;
    DecodePieces(body, pieces, tail, []);
    assert [] + Data(pieces) == Data(pieces);
    NoSizeStops(body, line, more, Take(Data(pieces), MAX_BODY));
  }

  /** A body without a line feed is not chunked. */
  lemma PlainBody(body: Bytes)
    requires LF !in body
    ensures Decode(body, body, []) == Decoded(body, None)
  {
    NoLineEnds(body, body, []);
  }
}
