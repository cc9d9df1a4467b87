/** Splitting SQL into statements at its top-level semicolons. */
module SqlSplitter {
  import opened Common
  import opened Text

  predicate EndsWith(s: string, tail: string) {
    |tail| <= |s| && s[|s| - |tail|..] == tail
  }

  // Whether a text ends in white space, this word and one of `after` or white space.
  predicate EndsInWord(s: string, word: string, after: string) {
    var n := |s|;
    && n >= |word| + 2
    && (s[n - 1] in after || IsSpace(s[n - 1]))
    && s[n - 1 - |word|..n - 1] == word
    && IsSpace(s[n - 2 - |word|])
  }

  predicate IsCompoundStatementStart(s: string) {
    EndsInWord(s, "BEGIN", "")
  }

  predicate IsCompoundStatementEnd(s: string) {
    EndsInWord(s, "END", ";")
  }

  // What the scan asks about characters and about the statement so far: whether a character
  // goes into the name of a dollar quote, and whether a compound statement begins or ends.
  datatype Tests = Tests(inDollarName: char -> bool, begins: string -> bool, ends: string -> bool)

  // Names of dollar quotes are made of digits, underscores and whatever has both cases,
  // which `cased` tells.
  function SqlTests(cased: char -> bool): Tests {
    Tests(c => c != '$' && (IsDigit(c) || c == '_' || cased(c)),
          (s: string) => IsCompoundStatementStart(s),
          (s: string) => IsCompoundStatementEnd(s))
  }

  // --- The scan, one character at a time --------------------------------------------------------

  // Between tokens, after a first '-' or '/', within the name of a dollar quote, or within
  // something that ends with a marker; `read` is what has been read of it.
  datatype Mode =
    | Top
    | Dash
    | Slash
    | DollarName(read: string)
    | Until(marker: string, read: string)

  // `str` is the statement so far and `depth` the number of compound statements open.
  datatype Scanner = Scanner(statements: seq<string>, str: string, depth: nat, mode: Mode)

  const START := Scanner([], "", 0, Top)

  function Keep(s: Scanner, c: char, mode: Mode): Scanner {
    s.(str := s.str + [c], mode := mode)
  }

  // At the end of a token the statement so far may have begun a compound statement.
  function EndToken(s: Scanner, tests: Tests): Scanner {
    s.(mode := Top, depth := if tests.begins(s.str) then s.depth + 1 else s.depth)
  }

  function CloseCompound(s: Scanner, c: char, tests: Tests): Scanner {
    if s.depth > 0 && tests.ends(s.str + [c]) then s.(depth := s.depth - 1) else s
  }

  predicate IsQuote(c: char) {
    c == '\'' || c == '"' || c == '`'
  }

  function StepTop(s: Scanner, c: char, tests: Tests): Scanner {
    StepOpen(CloseCompound(s, c, tests), c, tests)
  }

  function StepOpen(s: Scanner, c: char, tests: Tests): Scanner {
    if IsQuote(c) then Keep(s, c, Until([c], ""))
    else if c == '$' then Keep(s, c, DollarName("$"))
    else if c == '-' then Keep(s, c, Dash)
    else if c == '/' then Keep(s, c, Slash)
    else if c == ';' && s.depth == 0 then EndToken(s.(statements := s.statements + [s.str], str := ""), tests)
    else EndToken(Keep(s, c, Top), tests)
  }

  function Step(s: Scanner, c: char, tests: Tests): Scanner {
    match s.mode
    case Top => StepTop(s, c, tests)
    case Dash => if c == '-' then Keep(s, c, Until("\n", "")) else StepTop(s.(mode := Top), c, tests)
    case Slash => if c == '*' then Keep(s, c, Until("*/", "")) else StepTop(s.(mode := Top), c, tests)
    case DollarName(read) =>
      if tests.inDollarName(c) then Keep(s, c, DollarName(read + [c]))
      else if c == '$' then Keep(s, c, Until(read + [c], ""))
      else EndToken(Keep(s, c, Top), tests)
    case Until(marker, read) =>
      if EndsWith(read + [c], marker) then EndToken(Keep(s, c, Top), tests) else Keep(s, c, Until(marker, read + [c]))
  }

  type Stepping = (Scanner, char) -> Scanner

  function Stepper(tests: Tests): Stepping {
    (s, c) => Step(s, c, tests)
  }

  ghost predicate Follows(step: Stepping, tests: Tests) {
    forall s, c {:trigger Step(s, c, tests)} :: step(s, c) == Step(s, c, tests)
  }

  // The statements there are once the text from i on has been read.
  function Finish(s: Scanner, sql: string, i: nat, step: Stepping): seq<string>
    requires i <= |sql|
    decreases |sql| - i
  {
    if i == |sql| then s.statements + [s.str] else Finish(step(s, sql[i]), sql, i + 1, step)
  }

  function Statements(sql: string, tests: Tests): seq<string> {
    Finish(START, sql, 0, Stepper(tests))
  }

  // --- The scan, one token at a time -------------------------------------------------------------

  // Where something that began at `from` and has been read up to i ends: right after its
  // marker, or with the text.
  function TokenEnd(sql: string, from: nat, i: nat, marker: string): (end: nat)
    requires from <= i <= |sql|
    ensures i <= end <= |sql|
    decreases |sql| - i
  {
    if i == |sql| then i
    else if EndsWith(sql[from..i + 1], marker) then i + 1
    else TokenEnd(sql, from, i + 1, marker)
  }

  // A name ends with the first character that does not belong to it.
  function NameEnd(sql: string, i: nat, tests: Tests): (end: nat)
    requires i <= |sql|
    ensures i <= end <= |sql|
    decreases |sql| - i
  {
    if i == |sql| then i else if !tests.inDollarName(sql[i]) then i + 1 else NameEnd(sql, i + 1, tests)
  }

  // Between two turns of the loop: the statements so far and the place of the next character.
  datatype Place = Place(statements: seq<string>, str: string, depth: nat, at: nat)

  function ScannerAt(p: Place): Scanner {
    Scanner(p.statements, p.str, p.depth, Top)
  }

  // Take the text up to here into the statement.
  function Take(p: Place, sql: string, end: nat): Place
    requires p.at <= end <= |sql|
  {
    p.(str := p.str + sql[p.at..end], at := end)
  }

  function EndTurn(p: Place, tests: Tests): Place {
    if tests.begins(p.str) then p.(depth := p.depth + 1) else p
  }

  function DollarEnd(sql: string, i: nat, tests: Tests): (end: nat)
    requires 0 < i <= |sql|
    ensures i <= end <= |sql|
  {
    var end := NameEnd(sql, i, tests);
    if sql[end - 1] == '$' then TokenEnd(sql, end, end, sql[i - 1..end]) else end
  }

  predicate BeginsComment(sql: string, i: nat)
    requires i < |sql|
  {
    i + 1 < |sql| && ((sql[i] == '-' && sql[i + 1] == '-') || (sql[i] == '/' && sql[i + 1] == '*'))
  }

  // Where the quote, dollar quote or comment that begins at i ends, if one begins there.
  function TokenAt(sql: string, i: nat, tests: Tests): (end: Option<nat>)
    requires i < |sql|
    ensures end.Some? ==> i < end.value <= |sql|
  {
    if IsQuote(sql[i]) then Some(TokenEnd(sql, i + 1, i + 1, [sql[i]]))
    else if sql[i] == '$' then Some(DollarEnd(sql, i + 1, tests))
    else if BeginsComment(sql, i) then Some(TokenEnd(sql, i + 2, i + 2, if sql[i] == '-' then "\n" else "*/"))
    else None
  }

  function Turn(before: Place, sql: string, tests: Tests): (p: Place)
    requires before.at < |sql|
    ensures before.at < p.at <= |sql|
  {
    var c, token := sql[before.at], TokenAt(sql, before.at, tests);
    var p := if before.depth > 0 && tests.ends(before.str + [c]) then before.(depth := before.depth - 1) else before;
    if token.Some? then EndTurn(Take(p, sql, token.value), tests)
    else if c == '-' || c == '/' then Take(p, sql, before.at + 1)
    else if c == ';' && p.depth == 0 then EndTurn(Place(p.statements + [p.str], "", 0, before.at + 1), tests)
    else EndTurn(Take(p, sql, before.at + 1), tests)
  }

  function Turns(p: Place, sql: string, tests: Tests): seq<string>
    requires p.at <= |sql|
    decreases |sql| - p.at
  {
    if p.at == |sql| then p.statements + [p.str] else Turns(Turn(p, sql, tests), sql, tests)
  }

  // --- Tokens are what the characters make -------------------------------------------------------

  lemma TakeMore(before: string, sql: string, i: nat, j: nat)
    requires i < j <= |sql|
    ensures before + [sql[i]] + sql[i + 1..j] == before + sql[i..j]
  {
    assert sql[i..j] == [sql[i]] + sql[i + 1..j];
  }

  lemma {:induction false} TokenRead(s: Scanner, sql: string, from: nat, i: nat, marker: string, tests: Tests, step: Stepping)
    requires Follows(step, tests)
    requires from <= i <= |sql| && s.mode == Until(marker, sql[from..i])
    ensures var end := TokenEnd(sql, from, i, marker);
            Finish(s, sql, i, step) == Finish(EndToken(s.(str := s.str + sql[i..end]), tests), sql, end, step)
    decreases |sql| - i
  {
    var end := TokenEnd(sql, from, i, marker);
    if i == |sql| {
      assert s.str + sql[i..end] == s.str;
    } else {
      TokenStep(s, sql, from, i, marker, tests);
      Unfold(s, sql, i, tests, step);
      if !EndsWith(sql[from..i + 1], marker) {
        var next := Step(s, sql[i], tests);
        TokenRead(next, sql, from, i + 1, marker, tests, step);
        TakeMore(s.str, sql, i, end);
        assert EndToken(next.(str := next.str + sql[i + 1..end]), tests) == EndToken(s.(str := s.str + sql[i..end]), tests);
      }
    }
  }

  lemma TokenStep(s: Scanner, sql: string, from: nat, i: nat, marker: string, tests: Tests)
    requires from <= i < |sql| && s.mode == Until(marker, sql[from..i])
    ensures Step(s, sql[i], tests)
         == if EndsWith(sql[from..i + 1], marker) then EndToken(s.(str := s.str + sql[i..i + 1]), tests)
            else Keep(s, sql[i], Until(marker, sql[from..i + 1]))
  {
    assert sql[from..i] + [sql[i]] == sql[from..i + 1] && sql[i..i + 1] == [sql[i]];
  }

  // The scan once a name has been read: within a quote, or past what was none.
  function PastName(s: Scanner, sql: string, from: nat, i: nat, end: nat, tests: Tests): Scanner
    requires from < i <= end <= |sql|
  {
    var read := s.(str := s.str + sql[i..end]);
    if i < end && sql[end - 1] == '$' then read.(mode := Until(sql[from..end], "")) else EndToken(read, tests)
  }

  lemma {:induction false} NameRead(s: Scanner, sql: string, from: nat, i: nat, tests: Tests, step: Stepping)
    requires Follows(step, tests)
    requires from < i <= |sql| && s.mode == DollarName(sql[from..i])
    ensures var end := NameEnd(sql, i, tests);
            Finish(s, sql, i, step) == Finish(PastName(s, sql, from, i, end, tests), sql, end, step)
    decreases |sql| - i
  {
    var end := NameEnd(sql, i, tests);
    if i == |sql| {
      assert s.str + sql[i..end] == s.str;
    } else {
      assert sql[from..i] + [sql[i]] == sql[from..i + 1];
      if tests.inDollarName(sql[i]) {
        TakeMore(s.str, sql, i, end);
        NameRead(Step(s, sql[i], tests), sql, from, i + 1, tests, step);
        if end == i + 1 {
          assert end == |sql|;
          assert PastName(s, sql, from, i, end, tests).str == s.str + sql[i..end];
        } else {
          assert PastName(Step(s, sql[i], tests), sql, from, i + 1, end, tests) == PastName(s, sql, from, i, end, tests);
        }
      } else {
        assert sql[i..end] == [sql[i]];
        assert Step(s, sql[i], tests) == PastName(s, sql, from, i, end, tests);
      }
    }
  }

  lemma Unfold(s: Scanner, sql: string, i: nat, tests: Tests, step: Stepping)
    requires Follows(step, tests)
    requires i < |sql|
    ensures Finish(s, sql, i, step) == Finish(Step(s, sql[i], tests), sql, i + 1, step)
  {
  }

  // A token that begins with c at i and is read up to its marker.
  lemma QuoteRead(s: Scanner, sql: string, i: nat, marker: string, tests: Tests, step: Stepping)
    requires Follows(step, tests)
    requires i < |sql|
    ensures var end := TokenEnd(sql, i + 1, i + 1, marker);
            Finish(Keep(s, sql[i], Until(marker, "")), sql, i + 1, step)
            == Finish(EndToken(s.(str := s.str + sql[i..end]), tests), sql, end, step)
  {
    assert sql[i + 1..i + 1] == "";
    TokenRead(Keep(s, sql[i], Until(marker, "")), sql, i + 1, i + 1, marker, tests, step);
    TakeMore(s.str, sql, i, TokenEnd(sql, i + 1, i + 1, marker));
  }

  lemma CommentRead(s: Scanner, sql: string, i: nat, marker: string, tests: Tests, step: Stepping)
    requires Follows(step, tests)
    requires i < |sql| && BeginsComment(sql, i) && marker == (if sql[i] == '-' then "\n" else "*/")
    requires s.mode.Top?
    ensures var end := TokenEnd(sql, i + 2, i + 2, marker);
            Finish(Keep(s, sql[i], if sql[i] == '-' then Dash else Slash), sql, i + 1, step)
            == Finish(EndToken(s.(str := s.str + sql[i..end]), tests), sql, end, step)
  {
    var begun := Keep(s, sql[i], if sql[i] == '-' then Dash else Slash);
    Unfold(begun, sql, i + 1, tests, step);
    QuoteRead(begun, sql, i + 1, marker, tests, step);
    TakeMore(s.str, sql, i, TokenEnd(sql, i + 2, i + 2, marker));
  }

  lemma NoCommentRead(s: Scanner, sql: string, i: nat, tests: Tests, step: Stepping)
    requires Follows(step, tests)
    requires i < |sql| && (sql[i] == '-' || sql[i] == '/') && !BeginsComment(sql, i) && s.mode.Top?
    ensures Finish(Keep(s, sql[i], if sql[i] == '-' then Dash else Slash), sql, i + 1, step)
         == Finish(s.(str := s.str + sql[i..i + 1]), sql, i + 1, step)
  {
    assert sql[i..i + 1] == [sql[i]];
    var begun, read := Keep(s, sql[i], if sql[i] == '-' then Dash else Slash), s.(str := s.str + [sql[i]]);
    if i + 1 < |sql| {
      assert Step(begun, sql[i + 1], tests) == Step(read, sql[i + 1], tests);
      Unfold(begun, sql, i + 1, tests, step);
      Unfold(read, sql, i + 1, tests, step);
    }
  }

  lemma DollarRead(s: Scanner, sql: string, i: nat, tests: Tests, step: Stepping)
    requires Follows(step, tests)
    requires i < |sql| && sql[i] == '$' && s.mode.Top?
    ensures var end := DollarEnd(sql, i + 1, tests);
            Finish(Keep(s, '$', DollarName("$")), sql, i + 1, step)
            == Finish(EndToken(s.(str := s.str + sql[i..end]), tests), sql, end, step)
  {
    assert sql[i..i + 1] == "$";
    if i + 1 == |sql| {
      LastDollar(s, sql, i, tests, step);
    } else {
      NamedRead(s, sql, i, tests, step);
    }
  }

  lemma LastDollar(s: Scanner, sql: string, i: nat, tests: Tests, step: Stepping)
    requires Follows(step, tests)
    requires i + 1 == |sql| && sql[i] == '$'
    ensures var end := DollarEnd(sql, i + 1, tests);
            Finish(Keep(s, '$', DollarName("$")), sql, i + 1, step)
            == Finish(EndToken(s.(str := s.str + sql[i..end]), tests), sql, end, step)
  {
    assert sql[i..i + 1] == "$";
  }

  lemma NamedRead(s: Scanner, sql: string, i: nat, tests: Tests, step: Stepping)
    requires Follows(step, tests)
    requires i + 1 < |sql| && sql[i] == '$' && s.mode.Top?
    ensures var end := DollarEnd(sql, i + 1, tests);
            Finish(Keep(s, '$', DollarName("$")), sql, i + 1, step)
            == Finish(EndToken(s.(str := s.str + sql[i..end]), tests), sql, end, step)
  {
    assert sql[i..i + 1] == "$";
    var begun, end := Keep(s, '$', DollarName("$")), NameEnd(sql, i + 1, tests);
    NameRead(begun, sql, i, i + 1, tests, step);
    TakeMore(s.str, sql, i, end);
    var past := PastName(begun, sql, i, i + 1, end, tests);
    if sql[end - 1] == '$' {
      assert past == s.(str := s.str + sql[i..end], mode := Until(sql[i..end], ""));
      InnerRead(s, sql, i, end, tests, step);
    } else {
      assert past == EndToken(s.(str := s.str + sql[i..end]), tests);
    }
  }

  lemma InnerRead(s: Scanner, sql: string, i: nat, nameEnd: nat, tests: Tests, step: Stepping)
    requires Follows(step, tests)
    requires i < nameEnd <= |sql|
    ensures var end := TokenEnd(sql, nameEnd, nameEnd, sql[i..nameEnd]);
            Finish(s.(str := s.str + sql[i..nameEnd], mode := Until(sql[i..nameEnd], "")), sql, nameEnd, step)
            == Finish(EndToken(s.(str := s.str + sql[i..end]), tests), sql, end, step)
  {
    var marker := sql[i..nameEnd];
    var end, begun := TokenEnd(sql, nameEnd, nameEnd, marker), s.(str := s.str + marker, mode := Until(marker, ""));
    assert sql[nameEnd..nameEnd] == "";
    TokenRead(begun, sql, nameEnd, nameEnd, marker, tests, step);
    TakeBoth(s.str, sql, i, nameEnd, end);
    assert EndToken(begun.(str := begun.str + sql[nameEnd..end]), tests) == EndToken(s.(str := s.str + sql[i..end]), tests);
  }

  lemma TakeBoth(before: string, sql: string, i: nat, j: nat, k: nat)
    requires i <= j <= k <= |sql|
    ensures before + sql[i..j] + sql[j..k] == before + sql[i..k]
  {
    assert sql[i..j] + sql[j..k] == sql[i..k];
  }

  ghost predicate SameMeaning(before: Place, after: Place, sql: string, tests: Tests, step: Stepping)
    requires before.at <= |sql| && after.at <= |sql|
  {
    Finish(ScannerAt(before), sql, before.at, step) == Finish(ScannerAt(after), sql, after.at, step)
  }

  // One turn of the loop consumes at least one character, and what is left to read comes to
  // the same as before.
  lemma TurnMeans(before: Place, sql: string, tests: Tests, step: Stepping)
    requires Follows(step, tests)
    requires before.at < |sql|
    ensures SameMeaning(before, Turn(before, sql, tests), sql, tests, step)
  {
    var c := sql[before.at];
    if IsQuote(c) {
      QuoteTurn(before, sql, tests, step);
    } else if c == '$' {
      DollarTurn(before, sql, tests, step);
    } else if BeginsComment(sql, before.at) {
      CommentTurn(before, sql, tests, step);
    } else if c == '-' || c == '/' {
      NoCommentTurn(before, sql, tests, step);
    } else {
      PlainTurn(before, sql, tests, step);
    }
  }

  lemma QuoteTurn(before: Place, sql: string, tests: Tests, step: Stepping)
    requires Follows(step, tests)
    requires before.at < |sql| && IsQuote(sql[before.at])
    ensures SameMeaning(before, Turn(before, sql, tests), sql, tests, step)
  {
    var i, c := before.at, sql[before.at];
    var s, end := CloseCompound(ScannerAt(before), c, tests), TokenEnd(sql, i + 1, i + 1, [c]);
    QuoteSteps(before, sql, tests);
    Unfold(ScannerAt(before), sql, i, tests, step);
    QuoteRead(s, sql, i, [c], tests, step);
  }

  lemma QuoteSteps(before: Place, sql: string, tests: Tests)
    requires before.at < |sql| && IsQuote(sql[before.at])
    ensures var i, c := before.at, sql[before.at];
            var s, end := CloseCompound(ScannerAt(before), c, tests), TokenEnd(sql, i + 1, i + 1, [c]);
            && Step(ScannerAt(before), c, tests) == Keep(s, c, Until([c], ""))
            && Turn(before, sql, tests).at == end
            && ScannerAt(Turn(before, sql, tests)) == EndToken(s.(str := s.str + sql[i..end]), tests)
  {
    TokenTurn(before, sql, TokenEnd(sql, before.at + 1, before.at + 1, [sql[before.at]]), tests);
  }

  // A turn that finds a token takes all of it.
  lemma TokenTurn(before: Place, sql: string, end: nat, tests: Tests)
    requires before.at < |sql| && TokenAt(sql, before.at, tests) == Some(end)
    ensures before.at < end <= |sql| && Turn(before, sql, tests).at == end
    ensures var s := CloseCompound(ScannerAt(before), sql[before.at], tests);
            ScannerAt(Turn(before, sql, tests)) == EndToken(s.(str := s.str + sql[before.at..end]), tests)
  {
  }

  lemma DollarTurn(before: Place, sql: string, tests: Tests, step: Stepping)
    requires Follows(step, tests)
    requires before.at < |sql| && sql[before.at] == '$'
    ensures SameMeaning(before, Turn(before, sql, tests), sql, tests, step)
  {
    DollarRead(CloseCompound(ScannerAt(before), '$', tests), sql, before.at, tests, step);
    Unfold(ScannerAt(before), sql, before.at, tests, step);
  }

  lemma CommentTurn(before: Place, sql: string, tests: Tests, step: Stepping)
    requires Follows(step, tests)
    requires before.at < |sql| && BeginsComment(sql, before.at)
    ensures SameMeaning(before, Turn(before, sql, tests), sql, tests, step)
  {
    var i, c := before.at, sql[before.at];
    var s, end := CloseCompound(ScannerAt(before), c, tests), TokenAt(sql, i, tests).value;
    assert Step(ScannerAt(before), c, tests) == Keep(s, c, if c == '-' then Dash else Slash);
    TokenTurn(before, sql, end, tests);
    Unfold(ScannerAt(before), sql, i, tests, step);
    CommentRead(s, sql, i, if c == '-' then "\n" else "*/", tests, step);
  }

  lemma NoCommentTurn(before: Place, sql: string, tests: Tests, step: Stepping)
    requires Follows(step, tests)
    requires before.at < |sql| && (sql[before.at] == '-' || sql[before.at] == '/') && !BeginsComment(sql, before.at)
    ensures SameMeaning(before, Turn(before, sql, tests), sql, tests, step)
  {
    var i, c := before.at, sql[before.at];
    var s := CloseCompound(ScannerAt(before), c, tests);
    assert Step(ScannerAt(before), c, tests) == Keep(s, c, if c == '-' then Dash else Slash);
    assert ScannerAt(Turn(before, sql, tests)) == s.(str := s.str + sql[i..i + 1]);
    Unfold(ScannerAt(before), sql, i, tests, step);
    NoCommentRead(s, sql, i, tests, step);
  }

  lemma PlainTurn(before: Place, sql: string, tests: Tests, step: Stepping)
    requires Follows(step, tests)
    requires before.at < |sql|
    requires var c := sql[before.at]; !IsQuote(c) && c != '$' && c != '-' && c != '/'
    ensures SameMeaning(before, Turn(before, sql, tests), sql, tests, step)
  {
    assert sql[before.at..before.at + 1] == [sql[before.at]];
    assert Step(ScannerAt(before), sql[before.at], tests) == ScannerAt(Turn(before, sql, tests));
    Unfold(ScannerAt(before), sql, before.at, tests, step);
  }

  // The loop over tokens gives what the scan over characters gives.
  lemma {:induction false} TurnsAreScan(p: Place, sql: string, tests: Tests, step: Stepping)
    requires Follows(step, tests)
    requires p.at <= |sql|
    ensures Turns(p, sql, tests) == Finish(ScannerAt(p), sql, p.at, step)
    decreases |sql| - p.at
  {
    if p.at < |sql| {
      TurnMeans(p, sql, tests, step);
      TurnsAreScan(Turn(p, sql, tests), sql, tests, step);
    }
  }

  // --- The loop over the iterator ----------------------------------------------------------------

  // Pulls characters as long as all those pulled satisfy the predicate, and then one more.
  method ConsumeWhile(sql: string, start: nat, more: string -> bool) returns (str: string)
    requires start <= |sql|
    ensures start + |str| <= |sql| && str == sql[start..start + |str|]
    ensures forall end | start < end < start + |str| :: more(sql[start..end])
    ensures start + |str| < |sql| ==> str != "" && !more(str)
  {
    str := "";
    var i := start;
    while i < |sql|
      invariant start <= i <= |sql| && str == sql[start..i]
      invariant forall end | start < end <= i :: more(sql[start..end])
    {
      str := str + [sql[i]];
      i := i + 1;
      assert str == sql[start..i];
      if !more(str) {
        return;
      }
    }
  }

  lemma {:induction false} TokenEndIs(sql: string, from: nat, i: nat, end: nat, marker: string)
    requires from <= i <= end <= |sql|
    requires forall k | i < k < end :: !EndsWith(sql[from..k], marker)
    requires end < |sql| ==> i < end && EndsWith(sql[from..end], marker)
    ensures TokenEnd(sql, from, i, marker) == end
    decreases end - i
  {
    if i < end && !EndsWith(sql[from..i + 1], marker) {
      TokenEndIs(sql, from, i + 1, end, marker);
    }
  }

  lemma {:induction false} NameEndIs(sql: string, i: nat, end: nat, tests: Tests)
    requires i <= end <= |sql|
    requires forall k | i <= k < end - 1 :: tests.inDollarName(sql[k])
    requires end < |sql| ==> i < end && !tests.inDollarName(sql[end - 1])
    ensures NameEnd(sql, i, tests) == end
    decreases end - i
  {
    if i < end && tests.inDollarName(sql[i]) {
      NameEndIs(sql, i + 1, end, tests);
    }
  }

  method ConsumeUntilMarker(sql: string, start: nat, endMarker: string) returns (str: string)
    requires start <= |sql|
    ensures str == sql[start..TokenEnd(sql, start, start, endMarker)]
  {
    str := ConsumeWhile(sql, start, (s: string) => !EndsWith(s, endMarker));
    TokenEndIs(sql, start, start, start + |str|, endMarker);
  }

  method ConsumeDollarName(sql: string, start: nat, tests: Tests) returns (str: string)
    requires start <= |sql|
    ensures str == sql[start..NameEnd(sql, start, tests)]
  {
    str := ConsumeWhile(sql, start, (s: string) => s != "" && tests.inDollarName(s[|s| - 1]));
    forall k | start <= k < start + |str| - 1 ensures tests.inDollarName(sql[k]) {
      assert sql[start..k + 1][k - start] == sql[k];
    }
    NameEndIs(sql, start, start + |str|, tests);
  }

  // A dollar quote, or what looks like the beginning of one; `start` is behind the '$'.
  method ConsumeDollarQuote(sql: string, start: nat, tests: Tests) returns (str: string)
    requires 0 < start <= |sql| && sql[start - 1] == '$'
    ensures str == sql[start..DollarEnd(sql, start, tests)]
  {
    str := ConsumeDollarName(sql, start, tests);
    var dollarQuote := "$" + str;
    ghost var end := start + |str|;
    Prefixed(sql, start - 1, end);
    LastChar(dollarQuote, '$');
    DollarQuoteEnds(sql, start, end, tests);
    if EndsWith(dollarQuote, "$") {
      var quoted := ConsumeUntilMarker(sql, start + |str|, dollarQuote);
      str := str + quoted;
    }
  }

  lemma DollarQuoteEnds(sql: string, start: nat, end: nat, tests: Tests)
    requires 0 < start <= end <= |sql| && end == NameEnd(sql, start, tests)
    ensures DollarEnd(sql, start, tests) == if sql[start - 1..end][end - start] == '$' then TokenEnd(sql, end, end, sql[start - 1..end]) else end
  {
  }

  lemma LastChar(s: string, c: char)
    requires s != ""
    ensures EndsWith(s, [c]) <==> s[|s| - 1] == c
  {
    assert s[|s| - 1..] == [s[|s| - 1]];
  }

  method SplitSqlIntoStatements(sql: string, tests: Tests) returns (statements: seq<string>)
    ensures statements == Statements(sql, tests)
  {
    statements := [];
    var str, depth, i := "", 0, 0;
    TurnsAreScan(Place([], "", 0, 0), sql, tests, Stepper(tests));
    while i < |sql|
      invariant i <= |sql|
      invariant Statements(sql, tests) == Turns(Place(statements, str, depth, i), sql, tests)
      decreases |sql| - i
    {
      ghost var before := Place(statements, str, depth, i);
      statements, str, depth, i := OneTurn(sql, statements, str, depth, i, tests);
      assert Place(statements, str, depth, i) == Turn(before, sql, tests);
    }
    statements := statements + [str];
  }

  // The body of the loop.
  method OneTurn(sql: string, statements: seq<string>, str: string, depth: nat, i: nat, tests: Tests)
    returns (statements': seq<string>, str': string, depth': nat, i': nat)
    requires i < |sql|
    ensures Place(statements', str', depth', i') == Turn(Place(statements, str, depth, i), sql, tests)
  {
    var c := sql[i];
    assert sql[i..i + 1] == [c];
    statements', str', depth', i' := statements, str, depth, i;
    if depth > 0 && tests.ends(str + [c]) {
      depth' := depth - 1;
    }
    var token := ConsumeToken(sql, i, tests);
    if token.Some? {
      str', i' := str + token.value, i + |token.value|;
    } else if c == '-' || c == '/' {
      str', i' := str + [c], i + 1;
      return;
    } else if c == ';' && depth' == 0 {
      statements', str', i' := statements + [str], "", i + 1;
    } else {
      str', i' := str + [c], i + 1;
    }
    if tests.begins(str') {
      depth' := depth' + 1;
    }
  }

  // The cases of the switch that read ahead: quotes, dollar quotes and comments.
  method ConsumeToken(sql: string, i: nat, tests: Tests) returns (token: Option<string>)
    requires i < |sql|
    ensures token == match TokenAt(sql, i, tests) case Some(end) => Some(sql[i..end]) case None => None
  {
    var c := sql[i];
    if IsQuote(c) {
      var quoted := ConsumeUntilMarker(sql, i + 1, [c]);
      Prefixed(sql, i, TokenEnd(sql, i + 1, i + 1, [c]));
      return Some([c] + quoted);
    }
    if c == '$' {
      var dollarQuote := ConsumeDollarQuote(sql, i + 1, tests);
      Prefixed(sql, i, DollarEnd(sql, i + 1, tests));
      return Some([c] + dollarQuote);
    }
    if BeginsComment(sql, i) {
      token := ConsumeComment(sql, i);
      return;
    }
    token := None;
  }

  method ConsumeComment(sql: string, i: nat) returns (token: Option<string>)
    requires i < |sql| && BeginsComment(sql, i)
    ensures token == Some(sql[i..TokenEnd(sql, i + 2, i + 2, if sql[i] == '-' then "\n" else "*/")])
  {
    var marker := if sql[i] == '-' then "\n" else "*/";
    var comment := ConsumeUntilMarker(sql, i + 2, marker);
    Prefixed(sql, i + 1, TokenEnd(sql, i + 2, i + 2, marker));
    Prefixed(sql, i, TokenEnd(sql, i + 2, i + 2, marker));
    token := Some([sql[i]] + ([sql[i + 1]] + comment));
  }

  lemma Prefixed(sql: string, i: nat, end: nat)
    requires i < end <= |sql|
    ensures [sql[i]] + sql[i + 1..end] == sql[i..end]
  {
  }

  // --- Nothing is lost -----------------------------------------------------------------------------

  // A step takes its character into the statement or, for a semicolon only, begins another.
  lemma StepKinds(s: Scanner, c: char, tests: Tests)
    ensures var t := Step(s, c, tests);
            || (t.statements == s.statements && t.str == s.str + [c])
            || (c == ';' && t.statements == s.statements + [s.str] && t.str == "")
  {
  }

  lemma {:induction false} JoinSplit(front: seq<string>, a: string, b: string)
    ensures Join(front + [a] + [b], ";") == Join(front + [a + ";" + b], ";")
    decreases |front|
  {
    if front == [] {
      assert front + [a] + [b] == [a, b] && [a, b][1..] == [b];
      assert front + [a + ";" + b] == [a + ";" + b];
    } else {
      JoinSplit(front[1..], a, b);
      assert (front + [a] + [b])[1..] == front[1..] + [a] + [b];
      assert (front + [a + ";" + b])[1..] == front[1..] + [a + ";" + b];
    }
  }

  lemma JoinStep(s: Scanner, t: Scanner, c: char, rest: string)
    requires || (t.statements == s.statements && t.str == s.str + [c])
             || (c == ';' && t.statements == s.statements + [s.str] && t.str == "")
    ensures Join(t.statements + [t.str + rest], ";") == Join(s.statements + [s.str + ([c] + rest)], ";")
  {
    if t.str == s.str + [c] && t.statements == s.statements {
      assert t.str + rest == s.str + ([c] + rest);
    } else {
      assert t.str + rest == rest && s.str + ";" + rest == s.str + ([c] + rest);
      JoinSplit(s.statements, s.str, rest);
    }
  }

  lemma {:induction false} FinishJoins(s: Scanner, sql: string, i: nat, tests: Tests, step: Stepping)
    requires Follows(step, tests)
    requires i <= |sql|
    ensures Finish(s, sql, i, step) != []
    ensures Join(Finish(s, sql, i, step), ";") == Join(s.statements + [s.str + sql[i..]], ";")
    decreases |sql| - i
  {
    if i == |sql| {
      assert s.str + sql[i..] == s.str;
    } else {
      StepKinds(s, sql[i], tests);
      JoinStep(s, Step(s, sql[i], tests), sql[i], sql[i + 1..]);
      FinishJoins(Step(s, sql[i], tests), sql, i + 1, tests, step);
      assert sql[i..] == [sql[i]] + sql[i + 1..];
    }
  }

  // Joined by semicolons again, the statements make the very text that was split.
  lemma SplitConserves(sql: string, tests: Tests)
    ensures Statements(sql, tests) != [] && Join(Statements(sql, tests), ";") == sql
  {
    FinishJoins(START, sql, 0, tests, Stepper(tests));
    assert START.str + sql[0..] == sql && START.statements + [sql] == [sql];
  }

  // What stands between two quotes is never split, whatever it is.
  lemma QuotesProtect(s: Scanner, sql: string, i: nat, j: nat, tests: Tests, step: Stepping)
    requires Follows(step, tests)
    requires s.mode.Top? && i < j < |sql| && IsQuote(sql[i]) && sql[j] == sql[i]
    requires forall k | i < k < j :: sql[k] != sql[i]
    ensures Finish(s, sql, i, step)
         == Finish(EndToken(CloseCompound(s, sql[i], tests).(str := s.str + sql[i..j + 1]), tests), sql, j + 1, step)
  {
    var closed := CloseCompound(s, sql[i], tests);
    QuoteEnds(sql, i + 1, j, sql[i]);
    assert Step(s, sql[i], tests) == Keep(closed, sql[i], Until([sql[i]], ""));
    Unfold(s, sql, i, tests, step);
    QuoteRead(closed, sql, i, [sql[i]], tests, step);
  }

  lemma QuoteEnds(sql: string, from: nat, j: nat, quote: char)
    requires from <= j < |sql| && sql[j] == quote && forall k | from <= k < j :: sql[k] != quote
    ensures TokenEnd(sql, from, from, [quote]) == j + 1
  {
    forall k | from < k <= j ensures !EndsWith(sql[from..k], [quote]) {
      assert sql[from..k][k - from - 1..] == [sql[k - 1]];
    }
    assert sql[from..j + 1][j - from..] == [sql[j]];
    TokenEndIs(sql, from, from, j + 1, [quote]);
  }

  // --- The whole query -------------------------------------------------------------------------------

  function TrimEnd(s: string): (t: string)
    ensures t <= s && AllSpace(s[|t|..]) && (t != "" ==> !IsSpace(t[|t| - 1]))
  {
    if s != "" && IsSpace(s[|s| - 1]) then
      var t := TrimEnd(s[..|s| - 1]);
      assert s[|t|..] == s[..|s| - 1][|t|..] + [s[|s| - 1]];
      t
    else s
  }

  function TrimStart(s: string): string {
    if s != "" && IsSpace(s[0]) then TrimStart(s[1..]) else s
  }

  function Trim(s: string): string {
    TrimStart(TrimEnd(s))
  }

  function NonBlank(statements: seq<string>): seq<string> {
    if statements == [] then []
    else
      var last := Trim(statements[|statements| - 1]);
      NonBlank(statements[..|statements| - 1]) + if last == "" then [] else [last]
  }

  function IndexOf(s: string, c: char): (i: nat)
    ensures i <= |s| && c !in s[..i] && (i < |s| ==> s[i] == c)
  {
    if s == "" || s[0] == c then 0
    else
      var i := IndexOf(s[1..], c);
      assert s[..i + 1] == [s[0]] + s[1..][..i];
      i + 1
  }

  predicate MayContainMultipleStatements(sql: string) {
    var trimmed := TrimEnd(sql);
    IndexOf(trimmed, ';') < |trimmed| && IndexOf(trimmed, ';') != |trimmed| - 1
  }

  function Split(sql: string, tests: Tests): seq<string> {
    if !MayContainMultipleStatements(sql) then [sql]
    else
      var split := NonBlank(Statements(sql, tests));
      if split == [] then [sql] else split
  }

  method SplitSqlQuery(sql: string, cased: char -> bool) returns (split: seq<string>)
    ensures split == Split(sql, SqlTests(cased))
  {
    if !MayContainMultipleStatements(sql) {
      return [sql];
    }
    var statements := SplitSqlIntoStatements(sql, SqlTests(cased));
    split := TrimAndFilter(statements);
    if |split| == 0 {
      split := [sql];
    }
  }

  method TrimAndFilter(statements: seq<string>) returns (split: seq<string>)
    ensures split == NonBlank(statements)
  {
    split := [];
    for i := 0 to |statements|
      invariant split == NonBlank(statements[..i])
    {
      assert statements[..i + 1][..i] == statements[..i];
      var trimmed := Trim(statements[i]);
      if |trimmed| > 0 {
        split := split + [trimmed];
      }
    }
    assert statements[..|statements|] == statements;
  }

  // Up to a last semicolon, behind which there is only white space, nothing is split.
  lemma {:induction false} LastSemicolon(s: Scanner, sql: string, i: nat, n: nat, tests: Tests, step: Stepping)
    requires Follows(step, tests)
    requires i <= |sql| && (forall k | i <= k < n && k < |sql| :: sql[k] != ';')
    requires forall k | n < k < |sql| :: sql[k] != ';' && IsSpace(sql[k])
    ensures var r := Finish(s, sql, i, step);
            || (exists a :: r == s.statements + [a])
            || (exists a, b :: r == s.statements + [a, b] && AllSpace(b))
    decreases |sql| - i
  {
    if i == |sql| {
      assert Finish(s, sql, i, step) == s.statements + [s.str];
    } else {
      var t := Step(s, sql[i], tests);
      StepKinds(s, sql[i], tests);
      if t.statements == s.statements {
        LastSemicolon(t, sql, i + 1, n, tests, step);
      } else {
        SpaceToEnd(t, sql, i + 1, tests, step);
        assert s.statements + [s.str] + [t.str + sql[i + 1..]] == s.statements + [s.str, t.str + sql[i + 1..]];
        assert AllSpace(t.str + sql[i + 1..]);
      }
    }
  }

  lemma {:induction false} SpaceToEnd(s: Scanner, sql: string, i: nat, tests: Tests, step: Stepping)
    requires Follows(step, tests)
    requires i <= |sql| && forall k | i <= k < |sql| :: sql[k] != ';'
    ensures Finish(s, sql, i, step) == s.statements + [s.str + sql[i..]]
    decreases |sql| - i
  {
    if i == |sql| {
      assert s.str + sql[i..] == s.str;
    } else {
      TakenIn(s, sql[i], tests);
      SpaceToEnd(Step(s, sql[i], tests), sql, i + 1, tests, step);
      TakeMore(s.str, sql, i, |sql|);
      assert sql[i..|sql|] == sql[i..] && sql[i + 1..|sql|] == sql[i + 1..];
    }
  }

  lemma TakenIn(s: Scanner, c: char, tests: Tests)
    requires c != ';'
    ensures Step(s, c, tests).statements == s.statements && Step(s, c, tests).str == s.str + [c]
  {
  }

  lemma {:induction false} SpaceTrims(s: string)
    requires AllSpace(s)
    ensures Trim(s) == ""
    decreases |s|
  {
    if s != "" {
      SpaceTrims(s[..|s| - 1]);
    }
  }

  // Where the quick test finds the last semicolon, if there is one.
  lemma QuickTestFinds(sql: string) returns (n: nat)
    requires !MayContainMultipleStatements(sql)
    ensures forall k | 0 <= k < n && k < |sql| :: sql[k] != ';'
    ensures forall k | n < k < |sql| :: sql[k] != ';' && IsSpace(sql[k])
  {
    var trimmed := TrimEnd(sql);
    n := IndexOf(trimmed, ';');
    forall k | 0 <= k < n && k < |sql| ensures sql[k] != ';' {
      assert trimmed[..n][k] == sql[k];
    }
    forall k | n < k < |sql| ensures sql[k] != ';' && IsSpace(sql[k]) {
      assert sql[|trimmed|..][k - |trimmed|] == sql[k];
    }
  }

  lemma NonBlankFew(r: seq<string>)
    requires |r| == 1 || (|r| == 2 && AllSpace(r[1]))
    ensures |NonBlank(r)| <= 1
  {
    assert r[..0] == [];
    if |r| == 2 {
      assert r[..1][..0] == [];
      SpaceTrims(r[1]);
    }
  }

  // The quick test is right: a query it leaves whole has at most one statement in it.
  lemma QuickTestSound(sql: string, tests: Tests)
    requires !MayContainMultipleStatements(sql)
    ensures |NonBlank(Statements(sql, tests))| <= 1
  {
    var n := QuickTestFinds(sql);
    LastSemicolon(START, sql, 0, n, tests, Stepper(tests));
    NonBlankFew(Statements(sql, tests));
  }

  // A query that is split gives every statement that is not blank, trimmed; otherwise it is
  // given back whole.
  lemma SplitExact(sql: string, tests: Tests)
    ensures Split(sql, tests) != []
    ensures Split(sql, tests) == [sql]
         || (Split(sql, tests) == NonBlank(Statements(sql, tests)) && Join(Statements(sql, tests), ";") == sql)
    ensures |NonBlank(Statements(sql, tests))| >= 2 ==> Split(sql, tests) == NonBlank(Statements(sql, tests))
  {
    SplitConserves(sql, tests);
    if !MayContainMultipleStatements(sql) {
      QuickTestSound(sql, tests);
    }
  }
}
