/** The byte ranges a Range header asks for (RFC 9110, section 14.1.2). */
module HttpRange {
  import opened Common
  import opened Text

  // --- One range of the list -------------------------------------------------------------------

  datatype Spec = Spec(first: Option<nat>, last: Option<nat>)

  function NumberIn(digits: string): Option<nat>
    requires AllDigits(digits)
  {
    if digits == "" then None else Some(Number(digits))
  }

  // Blanks, digits if any, and blanks again: the number, and what follows.
  function ReadNumber(s: string): (Option<nat>, string) {
    var a := s[Blanks(s)..];
    var b := a[Digits(a)..];
    (NumberIn(a[..Digits(a)]), b[Blanks(b)..])
  }

  // An optional number, a hyphen and an optional number.
  function ParsePiece(piece: string): Option<Spec> {
    var (first, rest) := ReadNumber(piece);
    if rest == "" || rest[0] != '-' then None
    else
      var (last, end) := ReadNumber(rest[1..]);
      if end != "" then None else Some(Spec(first, last))
  }

  // Text that stands for an optional number.
  ghost predicate Stands(s: string, before: string, digits: string, after: string) {
    AllBlank(before) && AllDigits(digits) && AllBlank(after) && s == before + (digits + after)
  }

  ghost predicate StandsFor(s: string, number: Option<nat>) {
    exists before, digits, after :: Stands(s, before, digits, after) && NumberIn(digits) == number
  }

  ghost predicate Written(piece: string, x: string, y: string, spec: Spec) {
    piece == x + ("-" + y) && StandsFor(x, spec.first) && StandsFor(y, spec.last)
  }

  // A piece is read as a range exactly if it is a text of that range.
  lemma ParsePieceExact(piece: string, spec: Spec)
    ensures ParsePiece(piece) == Some(spec) <==> exists x, y :: Written(piece, x, y, spec)
  {
    if ParsePiece(piece) == Some(spec) {
      ParsePieceReads(piece, spec);
    }
    forall x, y | Written(piece, x, y, spec) ensures ParsePiece(piece) == Some(spec) {
      ParsePieceReadsBack(piece, x, y, spec);
    }
  }

  lemma ParsePieceReads(piece: string, spec: Spec)
    requires ParsePiece(piece) == Some(spec)
    ensures exists x, y :: Written(piece, x, y, spec)
  {
    var x := Reading(piece);
    var rest := ReadNumber(piece).1;
    var y := Reading(rest[1..]);
    HyphenThen(rest, y);
    assert Written(piece, x, y, spec);
  }

  lemma HyphenThen(rest: string, y: string)
    requires rest != "" && rest[0] == '-' && rest[1..] == y + ""
    ensures rest == "-" + y
  {
    assert y + "" == y;
  }

  lemma ParsePieceReadsBack(piece: string, x: string, y: string, spec: Spec)
    requires Written(piece, x, y, spec)
    ensures ParsePiece(piece) == Some(spec)
  {
    ReadsBack(x, "-" + y, spec.first);
    ReadsBack(y, "", spec.last);
    assert y + "" == y;
    assert ("-" + y)[1..] == y;
  }

  lemma Reading(s: string) returns (x: string)
    ensures s == x + ReadNumber(s).1 && StandsFor(x, ReadNumber(s).0)
  {
    var a := s[Blanks(s)..];
    x := ReadingAt(s, Blanks(s), Digits(a), Blanks(a[Digits(a)..]));
  }

  lemma ReadingAt(s: string, i: nat, j: nat, k: nat) returns (x: string)
    requires i + j + k <= |s| && AllBlank(s[..i]) && AllDigits(s[i..][..j]) && AllBlank(s[i..][j..][..k])
    ensures s == x + s[i..][j..][k..] && StandsFor(x, NumberIn(s[i..][..j]))
  {
    x := s[..i] + (s[i..][..j] + s[i..][j..][..k]);
    Cut(s, i, j, k);
    assert Stands(x, s[..i], s[i..][..j], s[i..][j..][..k]);
  }

  lemma Cut(s: string, i: nat, j: nat, k: nat)
    requires i + j + k <= |s|
    ensures s == (s[..i] + (s[i..][..j] + s[i..][j..][..k])) + s[i..][j..][k..]
  {
  }

  lemma Reassociate(a: string, b: string, c: string, d: string)
    ensures a + (b + (c + d)) == (a + (b + c)) + d
  {
  }

  lemma ReadsBack(x: string, rest: string, number: Option<nat>)
    requires StandsFor(x, number) && (rest != "" ==> rest[0] != ' ' && !IsDigit(rest[0]))
    ensures ReadNumber(x + rest) == (number, rest)
  {
    var before, digits, after :| Stands(x, before, digits, after) && NumberIn(digits) == number;
    if digits == "" {
      NoDigits(before, after, rest);
    } else {
      SomeDigits(before, digits, after, rest);
    }
  }

  lemma NoDigits(before: string, after: string, rest: string)
    requires AllBlank(before) && AllBlank(after) && (rest != "" ==> rest[0] != ' ' && !IsDigit(rest[0]))
    ensures ReadNumber(before + ("" + after) + rest) == (None, rest)
  {
    var blank := before + ("" + after);
    BlanksOf(blank, rest);
    assert "" + rest == rest;
    DigitsOf("", rest);
    BlanksOf("", rest);
  }

  lemma SomeDigits(before: string, digits: string, after: string, rest: string)
    requires AllBlank(before) && AllDigits(digits) && digits != "" && AllBlank(after)
    requires rest != "" ==> rest[0] != ' ' && !IsDigit(rest[0])
    ensures ReadNumber(before + (digits + after) + rest) == (NumberIn(digits), rest)
  {
    var b := after + rest;
    Reassociate(before, digits, after, rest);
    BlanksOf(before, digits + b);
    DigitsOf(digits, b);
    BlanksOf(after, rest);
  }

  // --- The whole header ------------------------------------------------------------------------

  // What follows "bytes=", in either case and with blanks around the unit.
  function AfterUnit(header: string): Option<string> {
    var a := header[Blanks(header)..];
    if |a| < 5 || [Lower(a[0]), Lower(a[1]), Lower(a[2]), Lower(a[3]), Lower(a[4])] != "bytes" then None
    else
      var b := a[5..][Blanks(a[5..])..];
      if b == "" || b[0] != '=' then None else Some(b[1..])
  }

  // The texts that name the unit, with blanks before it and before the equals sign.
  ghost predicate UnitWritten(header: string, before: string, unit: string, after: string, rest: string) {
    && AllBlank(before) && AllBlank(after) && |unit| == 5
    && [Lower(unit[0]), Lower(unit[1]), Lower(unit[2]), Lower(unit[3]), Lower(unit[4])] == "bytes"
    && header == before + (unit + (after + ("=" + rest)))
  }

  lemma AfterUnitExact(header: string, rest: string)
    ensures AfterUnit(header) == Some(rest) <==> exists before, unit, after :: UnitWritten(header, before, unit, after, rest)
  {
    if AfterUnit(header) == Some(rest) {
      UnitReads(header, rest);
    }
    forall before, unit, after | UnitWritten(header, before, unit, after, rest) ensures AfterUnit(header) == Some(rest) {
      UnitReadsBack(header, before, unit, after, rest);
    }
  }

  lemma UnitReads(header: string, rest: string)
    requires AfterUnit(header) == Some(rest)
    ensures exists before, unit, after :: UnitWritten(header, before, unit, after, rest)
  {
    var a := header[Blanks(header)..];
    UnitAt(header, Blanks(header), Blanks(a[5..]), rest);
  }

  lemma UnitAt(header: string, i: nat, j: nat, rest: string)
    requires i + 5 + j < |header| && header[i + 5 + j] == '=' && rest == header[i..][5..][j..][1..]
    requires AllBlank(header[..i]) && AllBlank(header[i..][5..][..j])
    requires var unit := header[i..]; [Lower(unit[0]), Lower(unit[1]), Lower(unit[2]), Lower(unit[3]), Lower(unit[4])] == "bytes"
    ensures exists before, unit, after :: UnitWritten(header, before, unit, after, rest)
  {
    UnitCut(header, i, j, rest);
    assert UnitWritten(header, header[..i], header[i..][..5], header[i..][5..][..j], rest);
  }

  lemma UnitReadsBack(header: string, before: string, unit: string, after: string, rest: string)
    requires UnitWritten(header, before, unit, after, rest)
    ensures AfterUnit(header) == Some(rest)
  {
    var tail := after + ("=" + rest);
    BlanksOf(before, unit + tail);
    assert (unit + tail)[5..] == tail;
    BlanksOf(after, "=" + rest);
    assert ("=" + rest)[1..] == rest;
  }

  lemma UnitCut(header: string, i: nat, j: nat, rest: string)
    requires i + 5 + j < |header| && header[i + 5 + j] == '=' && rest == header[i..][5..][j..][1..]
    ensures header == header[..i] + (header[i..][..5] + (header[i..][5..][..j] + ("=" + rest)))
  {
    assert header[i..][5..][j..] == "=" + rest;
  }

  // One range of the list: it makes the whole header unsatisfiable, or asks for everything,
  // or for nothing, or for the bytes from `first` to `last`.
  datatype Verdict = Refuse | Whole | Skip | Take(first: nat, last: nat)

  function Judge(piece: string, length: nat): Verdict {
    JudgeParsed(ParsePiece(piece), length)
  }

  function JudgeParsed(parsed: Option<Spec>, length: nat): Verdict {
    match parsed
    case None => Refuse
    case Some(spec) => JudgeSpec(spec, length)
  }

  function JudgeSpec(spec: Spec, length: nat): Verdict {
    match (spec.first, spec.last)
    case (Some(first), Some(last)) =>
      if first > last || first >= length then Refuse else Take(first, if last >= length then length - 1 else last)
    case (Some(first), None) =>
      if first >= length then Refuse else Take(first, length - 1)
    case (None, Some(suffix)) =>
      if suffix >= length then Whole else if suffix == 0 then Skip else Take(length - suffix, length - 1)
    case (None, None) =>
      Refuse
  }

  function Verdicts(pieces: seq<string>, length: nat): seq<Verdict> {
    seq(|pieces|, i requires 0 <= i < |pieces| => Judge(pieces[i], length))
  }

  // The first verdict that decides the matter, if any, and the bytes asked for otherwise.
  function FirstDecisive(verdicts: seq<Verdict>): Option<Verdict> {
    if verdicts == [] then None
    else if verdicts[0].Refuse? || verdicts[0].Whole? then Some(verdicts[0])
    else FirstDecisive(verdicts[1..])
  }

  function Taken(verdicts: seq<Verdict>): seq<(nat, nat)> {
    if verdicts == [] then []
    else
      var last := verdicts[|verdicts| - 1];
      Taken(verdicts[..|verdicts| - 1]) + if last.Take? then [(last.first, last.last)] else []
  }

  // None stands for a header that cannot be satisfied, no ranges for the whole response.
  function Ranges(header: string, length: nat): Option<seq<(nat, nat)>> {
    var rest := AfterUnit(header);
    if rest.None? then None
    else if AllSpace(rest.value) then Some([])
    else Outcome(Verdicts(SplitOn(rest.value, ','), length))
  }

  function Outcome(verdicts: seq<Verdict>): Option<seq<(nat, nat)>> {
    match FirstDecisive(verdicts)
    case Some(v) => if v.Refuse? then None else Some([])
    case None => Some(Taken(verdicts))
  }

  method ParseRanges(header: string, length: nat) returns (r: Option<seq<(nat, nat)>>)
    ensures r == Ranges(header, length)
  {
    var rest := AfterUnit(header);
    if rest.None? {
      return None;
    }
    if AllSpace(rest.value) {
      return Some([]);
    }
    r := ParsePieces(SplitOn(rest.value, ','), length);
  }

  method ParsePieces(pieces: seq<string>, length: nat) returns (r: Option<seq<(nat, nat)>>)
    ensures r == Outcome(Verdicts(pieces, length))
  {
    ghost var verdicts := Verdicts(pieces, length);
    var result: seq<(nat, nat)> := [];
    assert verdicts[0..] == verdicts;
    for i := 0 to |pieces|
      invariant FirstDecisive(verdicts) == FirstDecisive(verdicts[i..])
      invariant result == Taken(verdicts[..i])
    {
      NextVerdict(verdicts, i);
      var verdict := ReadPiece(pieces[i], length);
      match verdict
      case Refuse => return None;
      case Whole => return Some([]);
      case Skip =>
      case Take(first, last) => result := result + [(first, last)];
    }
    assert verdicts[..|pieces|] == verdicts;
    r := Some(result);
  }

  lemma NextVerdict(verdicts: seq<Verdict>, i: nat)
    requires i < |verdicts|
    ensures FirstDecisive(verdicts[i..])
         == if verdicts[i].Refuse? || verdicts[i].Whole? then Some(verdicts[i]) else FirstDecisive(verdicts[i + 1..])
    ensures Taken(verdicts[..i + 1])
         == Taken(verdicts[..i]) + if verdicts[i].Take? then [(verdicts[i].first, verdicts[i].last)] else []
  {
    assert verdicts[i..][1..] == verdicts[i + 1..] && verdicts[..i + 1][..i] == verdicts[..i];
  }

  method ReadPiece(piece: string, length: nat) returns (verdict: Verdict)
    ensures verdict == Judge(piece, length)
  {
    var spec := ParsePiece(piece);
    if spec.None? {
      return Refuse;
    }
    verdict := RangeOf(spec.value, length);
  }

  // One turn of the loop over the list.
  method RangeOf(spec: Spec, length: nat) returns (verdict: Verdict)
    ensures verdict == JudgeSpec(spec, length)
  {
    var Spec(start, end) := spec;
    if start.Some? && end.Some? {
      var rangeStart, rangeEnd := start.value, end.value;
      if rangeStart > rangeEnd {
        return Refuse;
      }
      if rangeStart >= length {
        return Refuse;
      }
      if rangeEnd >= length {
        rangeEnd := length - 1;
      }
      verdict := Take(rangeStart, rangeEnd);
    } else if start.Some? {
      if start.value >= length {
        return Refuse;
      }
      verdict := Take(start.value, length - 1);
    } else if end.Some? {
      if end.value >= length {
        return Whole;
      }
      verdict := if end.value == 0 then Skip else Take(length - end.value, length - 1);
    } else {
      verdict := Refuse;
    }
  }

  // --- What the verdicts mean --------------------------------------------------------------------

  predicate Sensible(spec: Spec) {
    (spec.first.Some? || spec.last.Some?) && (spec.first.Some? && spec.last.Some? ==> spec.first.value <= spec.last.value)
  }

  // Whether a range takes in the byte at this position of a value of this length.
  predicate Selects(spec: Spec, length: nat, position: nat) {
    && position < length
    && (if spec.first.Some? then spec.first.value <= position && (spec.last.Some? ==> position <= spec.last.value)
        else spec.last.Some? && position >= length - spec.last.value)
  }

  // A range is refused if it makes no sense or begins past the end. One that is taken has
  // exactly the bytes selected, one for everything selects all and one skipped selects none.
  lemma JudgeExact(spec: Spec, length: nat)
    ensures var v := JudgeSpec(spec, length);
            && (v.Refuse? <==> !Sensible(spec) || (spec.first.Some? && forall p: nat :: !Selects(spec, length, p)))
            && (v.Take? ==> v.first <= v.last < length && forall p: nat :: v.first <= p <= v.last <==> Selects(spec, length, p))
            && (v.Whole? ==> forall p: nat :: p < length <==> Selects(spec, length, p))
            && (v.Skip? ==> forall p: nat :: !Selects(spec, length, p))
  {
    if spec.first.Some? && spec.first.value < length && Sensible(spec) {
      assert Selects(spec, length, spec.first.value);
    }
  }

  // A list that is not decided early has one range for each piece that is taken.
  lemma {:induction false} TakenExact(verdicts: seq<Verdict>)
    ensures forall r :: r in Taken(verdicts) <==> Take(r.0, r.1) in verdicts
    decreases |verdicts|
  {
    if verdicts != [] {
      TakenExact(verdicts[..|verdicts| - 1]);
      assert verdicts == verdicts[..|verdicts| - 1] + [verdicts[|verdicts| - 1]];
    }
  }

  ghost predicate SelectsJust(spec: Spec, length: nat, first: nat, last: nat) {
    first <= last < length && forall p: nat :: first <= p <= last <==> Selects(spec, length, p)
  }

  // Every range of the answer is what one range of the header selects of the value.
  lemma RangesExact(header: string, length: nat, r: (nat, nat))
    requires Ranges(header, length).Some? && r in Ranges(header, length).value
    ensures AfterUnit(header).Some?
    ensures exists piece, spec :: piece in SplitOn(AfterUnit(header).value, ',') && ParsePiece(piece) == Some(spec)
                               && SelectsJust(spec, length, r.0, r.1)
  {
    var pieces := SplitOn(AfterUnit(header).value, ',');
    TakenExact(Verdicts(pieces, length));
    TakenFromPiece(pieces, length, r);
  }

  lemma TakenFromPiece(pieces: seq<string>, length: nat, r: (nat, nat))
    requires Take(r.0, r.1) in Verdicts(pieces, length)
    ensures exists piece, spec :: piece in pieces && ParsePiece(piece) == Some(spec) && SelectsJust(spec, length, r.0, r.1)
  {
    var i :| 0 <= i < |pieces| && Verdicts(pieces, length)[i] == Take(r.0, r.1);
    var spec := ParsePiece(pieces[i]).value;
    JudgeExact(spec, length);
    assert pieces[i] in pieces && SelectsJust(spec, length, r.0, r.1);
  }

  // --- What a list comes to ------------------------------------------------------------------------

  predicate NotSatisfiable(parsed: Option<Spec>, length: nat) {
    match parsed
    case None => true
    case Some(spec) => !Sensible(spec) || (spec.first.Some? && spec.first.value >= length)
  }

  predicate WholeSuffix(parsed: Option<Spec>, length: nat) {
    match parsed
    case None => false
    case Some(spec) => spec.first.None? && spec.last.Some? && spec.last.value >= length
  }

  predicate Unsatisfiable(piece: string, length: nat) {
    NotSatisfiable(ParsePiece(piece), length)
  }

  predicate AsksForAll(piece: string, length: nat) {
    WholeSuffix(ParsePiece(piece), length)
  }

  predicate AsksForNone(piece: string) {
    ParsePiece(piece) == Some(Spec(None, Some(0)))
  }

  // A piece that cannot be satisfied, with none before it that asks for the whole value.
  predicate RefusedAt(pieces: seq<string>, length: nat, i: nat) {
    i < |pieces| && Unsatisfiable(pieces[i], length) && forall j | 0 <= j < i :: !AsksForAll(pieces[j], length)
  }

  predicate Undecided(pieces: seq<string>, length: nat) {
    forall i | 0 <= i < |pieces| :: !Unsatisfiable(pieces[i], length) && !AsksForAll(pieces[i], length)
  }

  lemma JudgeKinds(piece: string, length: nat)
    ensures Judge(piece, length).Refuse? <==> Unsatisfiable(piece, length)
    ensures Judge(piece, length).Whole? <==> AsksForAll(piece, length)
    ensures Judge(piece, length).Skip? ==> AsksForNone(piece)
  {
    ParsedKinds(ParsePiece(piece), length);
  }

  lemma ParsedKinds(parsed: Option<Spec>, length: nat)
    ensures JudgeParsed(parsed, length).Refuse? <==> NotSatisfiable(parsed, length)
    ensures JudgeParsed(parsed, length).Whole? <==> WholeSuffix(parsed, length)
    ensures JudgeParsed(parsed, length).Skip? ==> parsed == Some(Spec(None, Some(0)))
  {
  }

  predicate RefusesAt(verdicts: seq<Verdict>, i: nat) {
    i < |verdicts| && verdicts[i].Refuse? && forall j | 0 <= j < i :: !verdicts[j].Whole?
  }

  predicate NoneDecides(verdicts: seq<Verdict>) {
    forall i | 0 <= i < |verdicts| :: !verdicts[i].Refuse? && !verdicts[i].Whole?
  }

  lemma {:induction false} FirstDecisiveExact(verdicts: seq<Verdict>)
    ensures FirstDecisive(verdicts) == Some(Refuse) <==> exists i :: RefusesAt(verdicts, i)
    ensures FirstDecisive(verdicts) == None <==> NoneDecides(verdicts)
    decreases |verdicts|
  {
    if verdicts != [] {
      var rest := verdicts[1..];
      FirstDecisiveExact(rest);
      if i: nat :| RefusesAt(verdicts, i) {
        assert i > 0 ==> RefusesAt(rest, i - 1);
      }
      if verdicts[0].Refuse? {
        assert RefusesAt(verdicts, 0);
      } else if i: nat :| RefusesAt(rest, i) && !verdicts[0].Whole? {
        assert RefusesAt(verdicts, i + 1);
      }
      assert NoneDecides(verdicts) <==> !verdicts[0].Refuse? && !verdicts[0].Whole? && NoneDecides(rest);
    }
  }

  // Verdicts that refuse, and stand for the whole value, just where the pieces do.
  ghost predicate KindsAgree(pieces: seq<string>, length: nat, verdicts: seq<Verdict>) {
    && |verdicts| == |pieces|
    && (forall i | 0 <= i < |pieces| :: verdicts[i].Refuse? <==> Unsatisfiable(pieces[i], length))
    && (forall i | 0 <= i < |pieces| :: verdicts[i].Whole? <==> AsksForAll(pieces[i], length))
  }

  lemma VerdictKinds(pieces: seq<string>, length: nat)
    ensures KindsAgree(pieces, length, Verdicts(pieces, length))
  {
    forall i | 0 <= i < |pieces|
      ensures Judge(pieces[i], length).Refuse? <==> Unsatisfiable(pieces[i], length)
      ensures Judge(pieces[i], length).Whole? <==> AsksForAll(pieces[i], length)
    {
      JudgeKinds(pieces[i], length);
    }
  }

  lemma SameDecision(pieces: seq<string>, length: nat, verdicts: seq<Verdict>)
    requires KindsAgree(pieces, length, verdicts)
    ensures (exists i :: RefusesAt(verdicts, i)) <==> exists i :: RefusedAt(pieces, length, i)
    ensures NoneDecides(verdicts) <==> Undecided(pieces, length)
  {
    forall i: nat ensures RefusesAt(verdicts, i) <==> RefusedAt(pieces, length, i) {
    }
  }

  lemma DecisiveExact(pieces: seq<string>, length: nat)
    ensures FirstDecisive(Verdicts(pieces, length)) == Some(Refuse) <==> exists i :: RefusedAt(pieces, length, i)
    ensures FirstDecisive(Verdicts(pieces, length)) == None <==> Undecided(pieces, length)
  {
    FirstDecisiveExact(Verdicts(pieces, length));
    VerdictKinds(pieces, length);
    SameDecision(pieces, length, Verdicts(pieces, length));
  }

  // The places of the pieces that are taken, in order.
  function TakenAt(verdicts: seq<Verdict>): seq<nat> {
    if verdicts == [] then []
    else TakenAt(verdicts[..|verdicts| - 1]) + if verdicts[|verdicts| - 1].Take? then [|verdicts| - 1] else []
  }

  predicate Rising(at: seq<nat>, n: nat) {
    (forall j | 0 <= j < |at| :: at[j] < n) && forall j, k | 0 <= j < k < |at| :: at[j] < at[k]
  }

  lemma {:induction false} TakenInOrder(verdicts: seq<Verdict>)
    ensures var at := TakenAt(verdicts);
            && Rising(at, |verdicts|) && |Taken(verdicts)| == |at|
            && (forall j | 0 <= j < |at| :: verdicts[at[j]] == Take(Taken(verdicts)[j].0, Taken(verdicts)[j].1))
            && (forall i | 0 <= i < |verdicts| :: verdicts[i].Take? <==> i in at)
    decreases |verdicts|
  {
    if verdicts != [] {
      TakenInOrder(verdicts[..|verdicts| - 1]);
    }
  }

  // The answer has, in order, the bytes that the pieces at these places select, and pieces at
  // no other place select any.
  ghost predicate AnswersAt(pieces: seq<string>, length: nat, answer: seq<(nat, nat)>, at: seq<nat>) {
    && Rising(at, |pieces|) && |answer| == |at|
    && (forall j | 0 <= j < |at| ::
          ParsePiece(pieces[at[j]]).Some? && SelectsJust(ParsePiece(pieces[at[j]]).value, length, answer[j].0, answer[j].1))
    && (forall i | 0 <= i < |pieces| && i !in at :: AsksForNone(pieces[i]))
  }

  lemma TakenPiece(piece: string, length: nat, first: nat, last: nat)
    requires Judge(piece, length) == Take(first, last)
    ensures ParsePiece(piece).Some? && SelectsJust(ParsePiece(piece).value, length, first, last)
  {
    JudgeExact(ParsePiece(piece).value, length);
  }

  lemma TakenAnswers(pieces: seq<string>, length: nat)
    requires NoneDecides(Verdicts(pieces, length))
    ensures AnswersAt(pieces, length, Taken(Verdicts(pieces, length)), TakenAt(Verdicts(pieces, length)))
  {
    var verdicts := Verdicts(pieces, length);
    var at := TakenAt(verdicts);
    TakenInOrder(verdicts);
    forall j | 0 <= j < |at|
      ensures ParsePiece(pieces[at[j]]).Some?
      ensures SelectsJust(ParsePiece(pieces[at[j]]).value, length, Taken(verdicts)[j].0, Taken(verdicts)[j].1)
    {
      assert Judge(pieces[at[j]], length) == verdicts[at[j]];
      TakenPiece(pieces[at[j]], length, Taken(verdicts)[j].0, Taken(verdicts)[j].1);
    }
    forall i | 0 <= i < |pieces| && i !in at ensures AsksForNone(pieces[i]) {
      assert Judge(pieces[i], length) == verdicts[i];
      JudgeKinds(pieces[i], length);
    }
  }

  // A list is refused exactly if a piece of it cannot be satisfied, whatever the others are,
  // unless one before it asks for the whole value. If there is no piece of either kind, each
  // piece has the bytes it selects in the answer, in order, but for those that select none.
  lemma AnswerExact(header: string, length: nat, rest: string)
    requires AfterUnit(header) == Some(rest) && !AllSpace(rest)
    ensures var pieces, answer := SplitOn(rest, ','), Ranges(header, length);
            && Join(pieces, ",") == rest && (forall i | 0 <= i < |pieces| :: ',' !in pieces[i])
            && (answer == None <==> exists i :: RefusedAt(pieces, length, i))
            && (Undecided(pieces, length) ==> answer.Some? && exists at :: AnswersAt(pieces, length, answer.value, at))
            && (!Undecided(pieces, length) && answer.Some? ==> answer.value == [])
  {
    var pieces := SplitOn(rest, ',');
    SplitJoins(rest, ',');
    DecisiveExact(pieces, length);
    if Undecided(pieces, length) {
      FirstDecisiveExact(Verdicts(pieces, length));
      TakenAnswers(pieces, length);
    }
  }

  // A header without the unit is refused, and one with nothing but white space behind it asks
  // for the whole response.
  lemma UnitDecides(header: string, length: nat)
    ensures (forall before, unit, after, rest :: !UnitWritten(header, before, unit, after, rest)) ==> Ranges(header, length) == None
    ensures forall before, unit, after, rest | UnitWritten(header, before, unit, after, rest) && AllSpace(rest) :: Ranges(header, length) == Some([])
  {
    if AfterUnit(header).Some? {
      UnitReads(header, AfterUnit(header).value);
    }
    forall before, unit, after, rest | UnitWritten(header, before, unit, after, rest) && AllSpace(rest)
      ensures Ranges(header, length) == Some([])
    {
      UnitReadsBack(header, before, unit, after, rest);
    }
  }

  // The answer is nothing but the whole response exactly if there is no more than white space
  // behind the unit, if a piece asks for the whole value before any that cannot be satisfied,
  // or if every piece asks for the last none.
  lemma WholeExact(header: string, length: nat, rest: string)
    requires AfterUnit(header) == Some(rest)
    ensures var pieces := SplitOn(rest, ',');
            Ranges(header, length) == Some([]) <==>
              || AllSpace(rest)
              || (!Undecided(pieces, length) && !exists i :: RefusedAt(pieces, length, i))
              || (Undecided(pieces, length) && forall i | 0 <= i < |pieces| :: AsksForNone(pieces[i]))
  {
    if !AllSpace(rest) {
      AnswerExact(header, length, rest);
      if Undecided(SplitOn(rest, ','), length) {
        NoneTaken(SplitOn(rest, ','), length);
      }
    }
  }

  lemma NoneTaken(pieces: seq<string>, length: nat)
    requires Undecided(pieces, length)
    ensures Outcome(Verdicts(pieces, length)) == Some([]) <==> forall i | 0 <= i < |pieces| :: AsksForNone(pieces[i])
  {
    DecisiveExact(pieces, length);
    NothingTaken(Verdicts(pieces, length));
    JudgedNone(pieces, length, Verdicts(pieces, length));
  }

  lemma JudgedNone(pieces: seq<string>, length: nat, verdicts: seq<Verdict>)
    requires |verdicts| == |pieces| && forall i | 0 <= i < |pieces| :: verdicts[i] == Judge(pieces[i], length)
    requires Undecided(pieces, length)
    ensures (forall i | 0 <= i < |verdicts| :: !verdicts[i].Take?) <==> forall i | 0 <= i < |pieces| :: AsksForNone(pieces[i])
  {
    forall i | 0 <= i < |pieces| ensures verdicts[i].Take? <==> !AsksForNone(pieces[i]) {
      TakeOrSkip(pieces[i], length);
    }
  }

  lemma TakeOrSkip(piece: string, length: nat)
    requires !Unsatisfiable(piece, length) && !AsksForAll(piece, length)
    ensures Judge(piece, length).Take? <==> !AsksForNone(piece)
  {
    JudgeKinds(piece, length);
  }

  lemma {:induction false} NothingTaken(verdicts: seq<Verdict>)
    ensures Taken(verdicts) == [] <==> forall i | 0 <= i < |verdicts| :: !verdicts[i].Take?
    decreases |verdicts|
  {
    if verdicts != [] {
      NothingTaken(verdicts[..|verdicts| - 1]);
    }
  }

  // A list of one range.
  lemma OnePiece(header: string, length: nat, piece: string, spec: Spec)
    requires AfterUnit(header) == Some(piece) && ',' !in piece && ParsePiece(piece) == Some(spec)
    ensures Ranges(header, length) == Outcome([JudgeSpec(spec, length)])
  {
    SplitFirst(piece, "", ',');
    HasHyphen(piece, spec);
    OneJudged(SplitOn(piece, ','), length, spec);
  }

  lemma OneJudged(pieces: seq<string>, length: nat, spec: Spec)
    requires |pieces| == 1 && ParsePiece(pieces[0]) == Some(spec)
    ensures Verdicts(pieces, length) == [JudgeSpec(spec, length)]
  {
  }

  lemma HasHyphen(piece: string, spec: Spec)
    requires ParsePiece(piece) == Some(spec)
    ensures !AllSpace(piece)
  {
    ParsePieceReads(piece, spec);
    var x, y :| Written(piece, x, y, spec);
    HyphenAfter(x, y);
  }

  lemma HyphenAfter(x: string, y: string)
    ensures !AllSpace(x + ("-" + y))
  {
    assert (x + ("-" + y))[|x|] == '-';
  }

  lemma OneVerdict(v: Verdict)
    ensures Outcome([v]) == if v.Refuse? then None else if v.Take? then Some([(v.first, v.last)]) else Some([])
  {
    var verdicts := [v];
    assert verdicts[1..] == [] && verdicts[..0] == [];
    assert FirstDecisive(verdicts) == if v.Refuse? || v.Whole? then Some(v) else None;
    assert Taken(verdicts) == if v.Take? then [(v.first, v.last)] else [];
  }

  // A header and a piece written without any blanks.
  lemma PlainHeader(rest: string)
    ensures AfterUnit("bytes=" + rest) == Some(rest)
  {
    var header := "bytes=" + rest;
    assert header == "" + ("bytes" + ("" + ("=" + rest)));
    assert UnitWritten(header, "", "bytes", "", rest);
    AfterUnitExact(header, rest);
  }

  lemma PlainNumber(digits: string)
    requires AllDigits(digits)
    ensures StandsFor(digits, NumberIn(digits))
  {
    assert digits == "" + (digits + "");
    assert Stands(digits, "", digits, "");
  }

  lemma PlainPiece(x: string, y: string)
    requires AllDigits(x) && AllDigits(y)
    ensures ParsePiece(x + ("-" + y)) == Some(Spec(NumberIn(x), NumberIn(y)))
  {
    PlainNumber(x);
    PlainNumber(y);
    assert Written(x + ("-" + y), x, y, Spec(NumberIn(x), NumberIn(y)));
    ParsePieceExact(x + ("-" + y), Spec(NumberIn(x), NumberIn(y)));
  }

  lemma SecondRefuses(first: string, second: string, length: nat)
    requires ',' !in first && ',' !in second && first != "" && !IsSpace(first[0])
    requires !AsksForAll(first, length) && Unsatisfiable(second, length)
    ensures Ranges("bytes=" + (first + ("," + second)), length) == None
  {
    var rest := first + ("," + second);
    assert rest[0] == first[0];
    PlainHeader(rest);
    AnswerExact("bytes=" + rest, length, rest);
    SplitFirst(first, second, ',');
    SplitFirst(second, "", ',');
    TwoRefused(SplitOn(rest, ','), length);
  }

  lemma TwoRefused(pieces: seq<string>, length: nat)
    requires |pieces| == 2 && !AsksForAll(pieces[0], length) && Unsatisfiable(pieces[1], length)
    ensures exists i :: RefusedAt(pieces, length, i)
  {
    assert RefusedAt(pieces, length, 1);
  }

  // A list of a range and one that begins past the end, such as "bytes=0-1,20-" for a value
  // of ten bytes, is refused, although the first of them can be satisfied.
  lemma OneRefusesAll(x: string, y: string, z: string, length: nat)
    requires AllDigits(x) && AllDigits(y) && AllDigits(z) && x != "" && NumberIn(z).Some? && NumberIn(z).value >= length
    ensures Ranges("bytes=" + ((x + ("-" + y)) + ("," + (z + ("-" + "")))), length) == None
  {
    BothGiven(x, y, length);
    FromRefused(z, length);
    NoComma(x, y);
    NoComma(z, "");
    SecondRefuses(x + ("-" + y), z + ("-" + ""), length);
  }

  lemma BothGiven(x: string, y: string, length: nat)
    requires AllDigits(x) && AllDigits(y) && x != ""
    ensures !AsksForAll(x + ("-" + y), length)
  {
    PlainPiece(x, y);
  }

  lemma FromRefused(digits: string, length: nat)
    requires AllDigits(digits) && NumberIn(digits).Some? && NumberIn(digits).value >= length
    ensures Unsatisfiable(digits + ("-" + ""), length)
  {
    PlainPiece(digits, "");
  }

  lemma NoComma(x: string, y: string)
    requires AllDigits(x) && AllDigits(y)
    ensures ',' !in x + ("-" + y) && !IsSpace((x + ("-" + y))[0])
  {
  }
}
