/** Reading a range of an R2 object: how a range is settled against the size of the value, and
    how a range of a multipart object is put together from its parts. */
module R2Ranges {
  import opened Common
  import opened Text
  import HttpRange

  datatype Range = Range(offset: Option<int>, length: Option<int>, suffix: Option<int>)
  datatype ParsedRange = ParsedRange(offset: nat, length: nat)
  datatype RangeError = SuffixNotPositive | OffsetNegative | OffsetTooLarge | LengthNotPositive
  datatype Result = Parsed(range: ParsedRange) | Failed(error: RangeError)

  const WHOLE := Range(None, None, None)

  // Where a range starts, before that is checked.
  function Start(r: Range, size: nat): int {
    if r.suffix.Some? then (if r.suffix.value > size then 0 else size - r.suffix.value)
    else if r.offset.Some? then r.offset.value
    else 0
  }

  // Whether the range asks for the byte at this position.
  predicate AsksFor(r: Range, size: nat, position: nat) {
    && position < size
    && (r.suffix.Some? ==> position >= size - r.suffix.value)
    && (r.suffix.None? && r.offset.Some? ==> position >= r.offset.value)
    && (r.suffix.None? && r.length.Some? ==> position < Start(r, size) + r.length.value)
  }

  // The ranges that are accepted: a suffix of a value that is not empty, or a length from a
  // place inside the value, its end included if the length is given.
  predicate Acceptable(r: Range, size: nat) {
    if r.suffix.Some? then r.suffix.value > 0 && size > 0
    else if r.length.Some? then 0 <= Start(r, size) <= size && r.length.value > 0
    else 0 <= Start(r, size) < size
  }

  function Parse(r: Range, size: nat): ParsedRange
    requires Acceptable(r, size)
  {
    var start := Start(r, size);
    ParsedRange(start, if r.suffix.None? && r.length.Some? then Min(r.length.value, size - start) else size - start)
  }

  function Refusal(r: Range, size: nat): RangeError {
    if r.suffix.Some? && r.suffix.value <= 0 then SuffixNotPositive
    else if Start(r, size) < 0 then OffsetNegative
    else if Start(r, size) > size then OffsetTooLarge
    else LengthNotPositive
  }

  // An accepted range is settled as exactly the bytes it asks for.
  lemma ParseExact(r: Range, size: nat, position: nat)
    requires Acceptable(r, size)
    ensures var parsed := Parse(r, size);
            && parsed.offset + parsed.length <= size
            && (parsed.offset <= position < parsed.offset + parsed.length <==> AsksFor(r, size, position))
  {
  }

  // A range is accepted exactly if it does not begin before the value and asks for some byte of
  // it, or if a length is given from just behind the last one.
  lemma AcceptableExact(r: Range, size: nat)
    ensures Acceptable(r, size) <==>
              && (r.suffix.None? && r.offset.Some? ==> r.offset.value >= 0)
              && ((exists position: nat :: AsksFor(r, size, position)) || EmptyAtEnd(r, size))
  {
    if r.suffix.Some? && r.suffix.value > 0 && size > 0 {
      assert AsksFor(r, size, size - 1);
    }
    if Acceptable(r, size) && r.suffix.None? && Start(r, size) < size {
      assert AsksFor(r, size, Start(r, size));
    }
  }

  predicate EmptyAtEnd(r: Range, size: nat) {
    r.suffix.None? && r.length.Some? && r.length.value > 0 && (if r.offset.Some? then r.offset.value else 0) == size
  }

  method ParseRange(r: Range, size: nat) returns (result: Result)
    ensures result == if Acceptable(r, size) then Parsed(Parse(r, size)) else Failed(Refusal(r, size))
  {
    var Range(offset, length, suffix) := r;
    if suffix.Some? {
      if suffix.value <= 0 {
        return Failed(SuffixNotPositive);
      }
      if suffix.value > size {
        suffix := Some(size);
      }
      offset := Some(size - suffix.value);
      length := Some(size - offset.value);
    }
    if offset.None? {
      offset := Some(0);
    }
    if length.None? {
      length := Some(size - offset.value);
    }
    if offset.value < 0 {
      return Failed(OffsetNegative);
    }
    if offset.value > size {
      return Failed(OffsetTooLarge);
    }
    if length.value <= 0 {
      return Failed(LengthNotPositive);
    }
    if offset.value + length.value > size {
      length := Some(size - offset.value);
    }
    result := Parsed(ParsedRange(offset.value, length.value));
  }

  // --- The Range header of a request -------------------------------------------------------------

  // A header that asks for one range is converted; any other is as good as none.
  function SingleRange(ranges: Option<seq<(nat, nat)>>): Range {
    if ranges.Some? && |ranges.value| == 1 then
      var start: int, end: int := ranges.value[0].0, ranges.value[0].1;
      Range(Some(start), Some(end - start + 1), None)
    else WHOLE
  }

  function RangeHeaderToR2Range(header: Option<string>, size: nat): (r: Range)
    ensures r == WHOLE <==> (header.Some? && HttpRange.Ranges(header.value, size).Some? ==> |HttpRange.Ranges(header.value, size).value| != 1)
  {
    if header.None? then WHOLE else SingleRange(HttpRange.Ranges(header.value, size))
  }

  // Of a value that is not empty, the range made from a header is always accepted: it is the
  // whole value, or it stands unchanged ...
  lemma HeaderAccepted(header: Option<string>, size: nat)
    requires size > 0
    ensures var r := RangeHeaderToR2Range(header, size);
            Acceptable(r, size) && (r == WHOLE || r == Range(Some(Parse(r, size).offset), Some(Parse(r, size).length), None))
  {
    if header.Some? {
      var ranges := HttpRange.Ranges(header.value, size);
      if ranges.Some? && |ranges.value| == 1 {
        HttpRange.RangesExact(header.value, size, ranges.value[0]);
      }
      SingleAccepted(ranges, size);
    }
  }

  lemma SingleAccepted(ranges: Option<seq<(nat, nat)>>, size: nat)
    requires size > 0 && (ranges.Some? && |ranges.value| == 1 ==> ranges.value[0].0 <= ranges.value[0].1 < size)
    ensures var r := SingleRange(ranges);
            Acceptable(r, size) && (r == WHOLE || r == Range(Some(Parse(r, size).offset), Some(Parse(r, size).length), None))
  {
  }

  // ... and then has just the bytes that one range of the header selects.
  lemma TakenSelects(header: string, size: nat)
    requires size > 0 && HttpRange.Ranges(header, size).Some? && |HttpRange.Ranges(header, size).value| == 1
    ensures Acceptable(RangeHeaderToR2Range(Some(header), size), size)
    ensures HttpRange.AfterUnit(header).Some?
    ensures var parsed := Parse(RangeHeaderToR2Range(Some(header), size), size);
            exists piece, spec :: piece in SplitOn(HttpRange.AfterUnit(header).value, ',')
              && HttpRange.ParsePiece(piece) == Some(spec) && parsed.length > 0
              && HttpRange.SelectsJust(spec, size, parsed.offset, parsed.offset + parsed.length - 1)
  {
    var ranges := HttpRange.Ranges(header, size);
    HttpRange.RangesExact(header, size, ranges.value[0]);
    SingleParsed(ranges, size);
  }

  lemma SingleParsed(ranges: Option<seq<(nat, nat)>>, size: nat)
    requires ranges.Some? && |ranges.value| == 1 && ranges.value[0].0 <= ranges.value[0].1 < size
    ensures var r := SingleRange(ranges);
            && Acceptable(r, size) && Parse(r, size).length > 0
            && (Parse(r, size).offset, Parse(r, size).offset + Parse(r, size).length - 1) == ranges.value[0]
  {
  }

  // Whether the bytes read are just those the range of the header selects.
  ghost predicate ReadsJust(parsed: ParsedRange, spec: HttpRange.Spec, size: nat) {
    forall p: nat :: parsed.offset <= p < parsed.offset + parsed.length <==> HttpRange.Selects(spec, size, p)
  }

  // A range that selects a byte, of a value that is not empty.
  predicate SelectsSome(spec: HttpRange.Spec, size: nat) {
    && HttpRange.Sensible(spec)
    && (spec.first.Some? ==> spec.first.value < size)
    && (spec.first.None? ==> spec.last != Some(0))
  }

  lemma SpecRead(spec: HttpRange.Spec, size: nat)
    requires size > 0
    ensures var r := SingleRange(HttpRange.Outcome([HttpRange.JudgeSpec(spec, size)]));
            && Acceptable(r, size)
            && (ReadsJust(Parse(r, size), spec, size) <==> SelectsSome(spec, size))
            && (!SelectsSome(spec, size) ==> r == WHOLE)
  {
    var v := HttpRange.JudgeSpec(spec, size);
    HttpRange.OneVerdict(v);
    HttpRange.JudgeExact(spec, size);
    if SelectsSome(spec, size) {
      assert v.Take? || v.Whole?;
    } else {
      assert v.Refuse? || v.Skip?;
      assert !HttpRange.Selects(spec, size, 0);
    }
  }

  // A header of a single range, which may have blanks in it, reads exactly the bytes that the
  // range selects if and only if it selects any. One that selects none, or makes no sense,
  // reads the whole value.
  lemma HeaderSelects(header: string, size: nat, piece: string, spec: HttpRange.Spec)
    requires size > 0 && HttpRange.AfterUnit(header) == Some(piece) && ',' !in piece && HttpRange.ParsePiece(piece) == Some(spec)
    ensures var r := RangeHeaderToR2Range(Some(header), size);
            && Acceptable(r, size)
            && (ReadsJust(Parse(r, size), spec, size) <==> SelectsSome(spec, size))
            && (!SelectsSome(spec, size) ==> r == WHOLE)
  {
    HttpRange.OnePiece(header, size, piece, spec);
    SpecRead(spec, size);
  }

  // "bytes=-0" asks for no byte and reads them all.
  lemma LastNoneReadsAll(size: nat)
    requires size > 0
    ensures RangeHeaderToR2Range(Some("bytes=-0"), size) == WHOLE
    ensures forall position: nat :: !HttpRange.Selects(HttpRange.Spec(None, Some(0)), size, position)
  {
    ZeroReads("0", size);
    assert "bytes=-0" == "bytes=" + ("" + ("-" + "0"));
  }

  lemma ZeroReads(zero: string, size: nat)
    requires zero == "0" && size > 0
    ensures RangeHeaderToR2Range(Some("bytes=" + ("" + ("-" + zero))), size) == WHOLE
  {
    assert zero[..0] == "" && Number(zero) == 0;
    SuffixReads(zero, size);
  }

  lemma SuffixReads(digits: string, size: nat)
    requires AllDigits(digits) && size > 0
    ensures !SelectsSome(HttpRange.Spec(None, HttpRange.NumberIn(digits)), size) ==>
              RangeHeaderToR2Range(Some("bytes=" + ("" + ("-" + digits))), size) == WHOLE
  {
    HttpRange.PlainPiece("", digits);
    HttpRange.PlainHeader("" + ("-" + digits));
    HttpRange.NoComma("", digits);
    HeaderSelects("bytes=" + ("" + ("-" + digits)), size, "" + ("-" + digits), HttpRange.Spec(None, HttpRange.NumberIn(digits)));
  }

  // --- Ranges of multipart objects ---------------------------------------------------------------

  datatype Part = Part(partNumber: nat, size: nat)

  // A stretch of one part, its end not included.
  datatype Piece = Piece(partNumber: nat, start: nat, end: nat)

  predicate Overlaps(aStart: nat, aEnd: nat, bStart: nat, bEnd: nat) {
    aStart < bEnd && bStart < aEnd
  }

  function Max(a: int, b: int): int {
    if a < b then b else a
  }

  function Min(a: int, b: int): int {
    if a < b then a else b
  }

  function TotalSize(parts: seq<Part>): nat {
    if parts == [] then 0 else TotalSize(parts[..|parts| - 1]) + parts[|parts| - 1].size
  }

  // The stored parts, by number.
  type Stored = map<nat, Bytes>

  predicate Holds(stored: Stored, parts: seq<Part>) {
    forall i | 0 <= i < |parts| :: parts[i].partNumber in stored && |stored[parts[i].partNumber]| == parts[i].size
  }

  // The value of the object.
  function Value(stored: Stored, parts: seq<Part>): (v: Bytes)
    requires Holds(stored, parts)
    ensures |v| == TotalSize(parts)
  {
    if parts == [] then [] else Value(stored, parts[..|parts| - 1]) + stored[parts[|parts| - 1].partNumber]
  }

  predicate Within(stored: Stored, piece: Piece) {
    piece.partNumber in stored && piece.start <= piece.end <= |stored[piece.partNumber]|
  }

  predicate Readable(stored: Stored, pieces: seq<Piece>) {
    forall i | 0 <= i < |pieces| :: Within(stored, pieces[i])
  }

  // What the stream delivers: the stretches one after the other.
  function Delivered(stored: Stored, pieces: seq<Piece>): Bytes
    requires Readable(stored, pieces)
  {
    if pieces == [] then []
    else
      var last := pieces[|pieces| - 1];
      Delivered(stored, pieces[..|pieces| - 1]) + stored[last.partNumber][last.start..last.end]
  }

  // A part starting at `start` adds a piece if it overlaps the range.
  function PieceOf(part: Part, start: nat, range: ParsedRange): Piece
    requires Overlaps(start, start + part.size, range.offset, range.offset + range.length)
  {
    var end := start + part.size;
    Piece(part.partNumber, Max(start, range.offset) - start, Min(end, range.offset + range.length) - start)
  }

  function Pieces(parts: seq<Part>, range: ParsedRange): seq<Piece> {
    if parts == [] then []
    else
      var before, last := parts[..|parts| - 1], parts[|parts| - 1];
      var start := TotalSize(before);
      Pieces(before, range)
      + if Overlaps(start, start + last.size, range.offset, range.offset + range.length) then [PieceOf(last, start, range)] else []
  }

  method GetMultipartValue(parts: seq<Part>, range: ParsedRange) returns (pieces: seq<Piece>)
    ensures pieces == Pieces(parts, range)
  {
    pieces := [];
    var start, query := 0, range.offset + range.length;
    for i := 0 to |parts|
      invariant start == TotalSize(parts[..i]) && pieces == Pieces(parts[..i], range)
    {
      assert parts[..i + 1][..i] == parts[..i];
      var end := start + parts[i].size;
      if Overlaps(start, end, range.offset, query) {
        pieces := pieces + [Piece(parts[i].partNumber, Max(start, range.offset) - start, Min(end, query) - start)];
      }
      start := end;
    }
    assert parts[..|parts|] == parts;
  }

  lemma DeliveredMore(stored: Stored, pieces: seq<Piece>, piece: Piece)
    requires Readable(stored, pieces) && Within(stored, piece)
    ensures Readable(stored, pieces + [piece])
    ensures Delivered(stored, pieces + [piece]) == Delivered(stored, pieces) + stored[piece.partNumber][piece.start..piece.end]
  {
    assert (pieces + [piece])[..|pieces|] == pieces;
  }

  function Slice(v: Bytes, start: nat, end: nat): Bytes
    requires start <= end
  {
    if start >= |v| then [] else if end >= |v| then v[start..] else v[start..end]
  }

  // The pieces delivered are exactly the bytes of the range, whatever the sizes of the parts.
  lemma {:induction false} PiecesMakeSlice(stored: Stored, parts: seq<Part>, range: ParsedRange)
    requires Holds(stored, parts)
    ensures Readable(stored, Pieces(parts, range))
    ensures Delivered(stored, Pieces(parts, range)) == Slice(Value(stored, parts), range.offset, range.offset + range.length)
    decreases |parts|
  {
    if parts != [] {
      var before, last := parts[..|parts| - 1], parts[|parts| - 1];
      PiecesMakeSlice(stored, before, range);
      var v, pieces := Value(stored, before), Pieces(before, range);
      if Touched(parts, |parts| - 1, range) {
        var piece := PieceOf(last, |v|, range);
        assert Pieces(parts, range) == pieces + [piece];
        DeliveredMore(stored, pieces, piece);
        AppendOverlapping(v, stored[last.partNumber], range, piece);
      } else {
        assert Pieces(parts, range) == pieces;
        AppendApart(v, stored[last.partNumber], range);
      }
    }
  }

  // Whether the j-th part has a piece in the range.
  predicate Touched(parts: seq<Part>, j: nat, range: ParsedRange)
    requires j < |parts|
  {
    var start := TotalSize(parts[..j]);
    Overlaps(start, start + parts[j].size, range.offset, range.offset + range.length)
  }

  lemma AppendOverlapping(a: Bytes, b: Bytes, range: ParsedRange, piece: Piece)
    requires Overlaps(|a|, |a| + |b|, range.offset, range.offset + range.length)
    requires piece == PieceOf(Part(piece.partNumber, |b|), |a|, range)
    ensures piece.start <= piece.end <= |b|
    ensures Slice(a + b, range.offset, range.offset + range.length)
         == Slice(a, range.offset, range.offset + range.length) + b[piece.start..piece.end]
  {
  }

  lemma AppendApart(a: Bytes, b: Bytes, range: ParsedRange)
    requires !Overlaps(|a|, |a| + |b|, range.offset, range.offset + range.length)
    ensures Slice(a + b, range.offset, range.offset + range.length) == Slice(a, range.offset, range.offset + range.length)
  {
  }

  // --- The sizes a completed upload has ------------------------------------------------------------

  // All parts but the last are of one size, and the last is no larger.
  predicate SizesFit(parts: seq<Part>) {
    && (forall i, j | 0 <= i < j < |parts| - 1 :: parts[i].size == parts[j].size)
    && (|parts| > 1 ==> parts[|parts| - 1].size <= parts[0].size)
  }

  // The storage reads the stretch of a piece just as it is given.
  predicate ReadAsIs(piece: Piece, size: nat) {
    var r := Range(Some(piece.start), Some(piece.end - piece.start), None);
    Acceptable(r, size) && Parse(r, size) == ParsedRange(piece.start, r.length.value)
  }

  // A piece is read as it is unless its part, or the whole range, is empty.
  lemma PieceReadAsIs(part: Part, start: nat, range: ParsedRange)
    requires Overlaps(start, start + part.size, range.offset, range.offset + range.length)
    ensures ReadAsIs(PieceOf(part, start, range), part.size) <==> part.size > 0 && range.length > 0
  {
  }

  lemma {:induction false} TotalOfEqual(parts: seq<Part>, size: nat)
    requires forall i | 0 <= i < |parts| :: parts[i].size <= size
    ensures size == 0 ==> TotalSize(parts) == 0
    decreases |parts|
  {
    if parts != [] {
      TotalOfEqual(parts[..|parts| - 1], size);
    }
  }

  lemma {:induction false} TotalUpTo(parts: seq<Part>, j: nat)
    requires j < |parts|
    ensures TotalSize(parts[..j]) + parts[j].size <= TotalSize(parts)
    ensures j == |parts| - 1 ==> TotalSize(parts[..j]) + parts[j].size == TotalSize(parts)
    decreases |parts|
  {
    if j < |parts| - 1 {
      TotalUpTo(parts[..|parts| - 1], j);
      assert parts[..|parts| - 1][..j] == parts[..j];
    }
  }

  // A range of a value whose parts have sizes that fit never touches an empty part.
  lemma EmptyUntouched(parts: seq<Part>, j: nat, range: ParsedRange)
    requires SizesFit(parts) && j < |parts| && range.offset + range.length <= TotalSize(parts)
    ensures Touched(parts, j, range) ==> parts[j].size > 0
  {
    if parts[j].size == 0 {
      TotalUpTo(parts, j);
      if j < |parts| - 1 {
        TotalOfEqual(parts, 0);
      }
    }
  }

  ghost predicate AllReadAsIs(stored: Stored, pieces: seq<Piece>) {
    forall i | 0 <= i < |pieces| :: pieces[i].partNumber in stored && ReadAsIs(pieces[i], |stored[pieces[i].partNumber]|)
  }

  lemma TouchedReadAsIs(parts: seq<Part>, j: nat, range: ParsedRange)
    requires SizesFit(parts) && j < |parts| && range.offset + range.length <= TotalSize(parts)
    requires Touched(parts, j, range) && (range.length == 0 ==> range.offset == TotalSize(parts))
    ensures ReadAsIs(PieceOf(parts[j], TotalSize(parts[..j]), range), parts[j].size)
  {
    EmptyUntouched(parts, j, range);
    TotalUpTo(parts, j);
    PieceReadAsIs(parts[j], TotalSize(parts[..j]), range);
  }

  lemma PiecesUnfold(parts: seq<Part>, n: nat, range: ParsedRange)
    requires 0 < n <= |parts|
    ensures Pieces(parts[..n], range)
         == Pieces(parts[..n - 1], range) + if Touched(parts, n - 1, range) then [PieceOf(parts[n - 1], TotalSize(parts[..n - 1]), range)] else []
  {
    assert parts[..n][..n - 1] == parts[..n - 1];
  }

  lemma {:induction false} PiecesReadAsIs(stored: Stored, parts: seq<Part>, n: nat, range: ParsedRange)
    requires Holds(stored, parts) && SizesFit(parts) && n <= |parts| && range.offset + range.length <= TotalSize(parts)
    requires range.length == 0 ==> range.offset == TotalSize(parts)
    ensures AllReadAsIs(stored, Pieces(parts[..n], range))
    decreases n
  {
    if n > 0 {
      PiecesReadAsIs(stored, parts, n - 1, range);
      PiecesUnfold(parts, n, range);
      if Touched(parts, n - 1, range) {
        TouchedReadAsIs(parts, n - 1, range);
      }
    }
  }

  // The range is delivered in full, from pieces of parts that are there, each of them read
  // just as it is given.
  ghost predicate DeliversExactly(stored: Stored, parts: seq<Part>, range: ParsedRange)
    requires Holds(stored, parts)
  {
    var pieces := Pieces(parts, range);
    && Readable(stored, pieces)
    && range.offset + range.length <= |Value(stored, parts)|
    && Delivered(stored, pieces) == Value(stored, parts)[range.offset..range.offset + range.length]
    && AllReadAsIs(stored, pieces)
  }

  // A read of a completed upload delivers every range that is accepted.
  lemma RangeReadExact(stored: Stored, parts: seq<Part>, r: Range)
    requires Holds(stored, parts) && SizesFit(parts) && Acceptable(r, TotalSize(parts))
    ensures DeliversExactly(stored, parts, Parse(r, TotalSize(parts)))
  {
    ParseInside(r, TotalSize(parts));
    RangeDelivers(stored, parts, Parse(r, TotalSize(parts)));
  }

  lemma RangeDelivers(stored: Stored, parts: seq<Part>, range: ParsedRange)
    requires Holds(stored, parts) && SizesFit(parts) && range.offset + range.length <= TotalSize(parts)
    requires range.length == 0 ==> range.offset == TotalSize(parts)
    ensures DeliversExactly(stored, parts, range)
  {
    SliceDelivered(stored, parts, range);
    WholeReadAsIs(stored, parts, range);
  }

  lemma ParseInside(r: Range, size: nat)
    requires Acceptable(r, size)
    ensures var range := Parse(r, size); range.offset + range.length <= size && (range.length == 0 ==> range.offset == size)
  {
  }

  lemma SliceDelivered(stored: Stored, parts: seq<Part>, range: ParsedRange)
    requires Holds(stored, parts) && range.offset + range.length <= TotalSize(parts)
    ensures Readable(stored, Pieces(parts, range)) && |Value(stored, parts)| == TotalSize(parts)
    ensures Delivered(stored, Pieces(parts, range)) == Value(stored, parts)[range.offset..range.offset + range.length]
  {
    PiecesMakeSlice(stored, parts, range);
    SliceInside(Value(stored, parts), range);
  }

  lemma SliceInside(v: Bytes, range: ParsedRange)
    requires range.offset + range.length <= |v|
    ensures Slice(v, range.offset, range.offset + range.length) == v[range.offset..range.offset + range.length]
  {
  }

  lemma WholeReadAsIs(stored: Stored, parts: seq<Part>, range: ParsedRange)
    requires Holds(stored, parts) && SizesFit(parts) && range.offset + range.length <= TotalSize(parts)
    requires range.length == 0 ==> range.offset == TotalSize(parts)
    ensures AllReadAsIs(stored, Pieces(parts, range))
  {
    PiecesReadAsIs(stored, parts, |parts|, range);
    assert parts[..|parts|] == parts;
  }

  // An empty part in the middle, which sizes that fit rule out, is not read as it is given.
  lemma EmptyPartFails(range: ParsedRange)
    requires range == ParsedRange(0, 2)
    ensures var pieces := Pieces([Part(1, 1), Part(2, 0), Part(3, 1)], range);
            |pieces| == 3 && pieces[1] == Piece(2, 0, 0) && !ReadAsIs(pieces[1], 0)
  {
    var parts := [Part(1, 1), Part(2, 0), Part(3, 1)];
    assert parts[..2] == [Part(1, 1), Part(2, 0)] && parts[..2][..1] == [Part(1, 1)];
    assert TotalSize([Part(1, 1)]) == 1 && TotalSize(parts[..2]) == 1;
    assert Pieces([Part(1, 1)], range) == [Piece(1, 0, 1)];
    assert Pieces(parts[..2], range) == [Piece(1, 0, 1), Piece(2, 0, 0)];
  }
}
