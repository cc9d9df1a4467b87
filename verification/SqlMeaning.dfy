/** What splitting means for the texts that are split: where a semicolon ends a statement, and
    where it does not. */
module SqlMeaning {
  import opened Common
  import opened Text
  import opened SqlSplitter

  // --- Words that open and close compound statements ---------------------------------------------

  ghost predicate WrittenAs(s: string, before: string, a: char, word: string, b: char) {
    s == before + ([a] + (word + [b])) && IsSpace(a)
  }

  lemma EndsInWordExact(s: string, word: string, after: string)
    ensures EndsInWord(s, word, after) <==> exists before, a, b :: WrittenAs(s, before, a, word, b) && (b in after || IsSpace(b))
  {
    if EndsInWord(s, word, after) {
      var n := |s| - 2 - |word|;
      assert s[n + 1..n + 1 + |word|] == word;
      assert s == s[..n] + ([s[n]] + (s[n + 1..n + 1 + |word|] + [s[|s| - 1]]));
      assert WrittenAs(s, s[..n], s[n], word, s[|s| - 1]);
    }
    forall before, a, b | WrittenAs(s, before, a, word, b) && (b in after || IsSpace(b)) ensures EndsInWord(s, word, after) {
      WordAt(before, a, word, b);
    }
  }

  lemma WordAt(before: string, a: char, word: string, b: char)
    ensures var s := before + ([a] + (word + [b]));
            var n := |s| - 2 - |word|;
            && |s| >= |word| + 2 && s[n] == a && s[n + 1..|s| - 1] == word && s[|s| - 1] == b
  {
  }

  // A compound statement begins with the word BEGIN between white space, and ends with the word
  // END behind white space and before a semicolon or white space.
  lemma WordsExact(s: string)
    ensures IsCompoundStatementStart(s) <==> exists before, a, b :: WrittenAs(s, before, a, "BEGIN", b) && IsSpace(b)
    ensures IsCompoundStatementEnd(s) <==> exists before, a, b :: WrittenAs(s, before, a, "END", b) && (b == ';' || IsSpace(b))
  {
    EndsInWordExact(s, "BEGIN", "");
    EndsInWordExact(s, "END", ";");
  }

  lemma StartInSuffix(a: string, b: string)
    requires EndsWith(a, b) && IsCompoundStatementStart(b)
    ensures IsCompoundStatementStart(a)
  {
    var n, m := |a|, |b|;
    assert a[n - m..] == b;
    assert forall k | 0 <= k < m :: a[n - m + k] == b[k];
    assert a[n - 6..n - 1] == b[m - 6..m - 1];
  }

  // --- Plain text ----------------------------------------------------------------------------------

  // Text that begins no quote and no comment.
  predicate IsPlain(c: char) {
    c !in "'\"`$-/"
  }

  predicate Plain(s: string) {
    forall i | 0 <= i < |s| :: IsPlain(s[i])
  }

  // No compound statement begins in this text, and none ends behind its first n characters.
  ghost predicate OpensNone(s: string, n: nat) {
    forall k | n < k <= |s| :: !IsCompoundStatementStart(s[..k])
  }

  ghost predicate ClosesNone(s: string, n: nat) {
    forall k | n < k <= |s| :: !IsCompoundStatementEnd(s[..k])
  }

  lemma PlainStep(s: Scanner, c: char, cased: char -> bool)
    requires s.mode.Top? && IsPlain(c) && !(s.depth > 0 && IsCompoundStatementEnd(s.str + [c]))
    ensures var t := Step(s, c, SqlTests(cased));
            if c == ';' && s.depth == 0 then t == Scanner(s.statements + [s.str], "", 0, Top)
            else t == Scanner(s.statements, s.str + [c], if IsCompoundStatementStart(s.str + [c]) then s.depth + 1 else s.depth, Top)
  {
  }

  // Plain text goes into the statement as long as no compound statement begins or ends in it;
  // a semicolon too if there is a compound statement around it.
  lemma {:induction false} PlainKept(s: Scanner, sql: string, i: nat, j: nat, cased: char -> bool, step: Stepping)
    requires Follows(step, SqlTests(cased))
    requires s.mode.Top? && i <= j <= |sql| && Plain(sql[i..j])
    requires OpensNone(s.str + sql[i..j], |s.str|)
    requires s.depth == 0 ==> ';' !in sql[i..j]
    requires s.depth > 0 ==> ClosesNone(s.str + sql[i..j], |s.str|)
    ensures Finish(s, sql, i, step) == Finish(s.(str := s.str + sql[i..j]), sql, j, step)
    decreases j - i
  {
    var whole := s.str + sql[i..j];
    if i == j {
      assert whole == s.str;
    } else {
      assert sql[i..j][0] == sql[i] && sql[i..j][1..] == sql[i + 1..j];
      assert whole[..|s.str| + 1] == s.str + [sql[i]];
      assert whole == s.str + [sql[i]] + sql[i + 1..j];
      PlainStep(s, sql[i], cased);
      Unfold(s, sql, i, SqlTests(cased), step);
      PlainKept(Step(s, sql[i], SqlTests(cased)), sql, i + 1, j, cased, step);
    }
  }

  // Pieces, the first of them with this text before it.
  function Behind(str: string, pieces: seq<string>): seq<string>
    requires pieces != []
  {
    [str + pieces[0]] + pieces[1..]
  }

  lemma BehindNone(pieces: seq<string>)
    requires pieces != []
    ensures Behind("", pieces) == pieces
  {
    assert "" + pieces[0] == pieces[0];
  }

  lemma BehindNext(statements: seq<string>, str: string, sql: string, i: nat)
    requires i < |sql|
    ensures statements + Behind(str, SplitOn(sql[i..], ';'))
         == if sql[i] == ';' then statements + [str] + Behind("", SplitOn(sql[i + 1..], ';'))
            else statements + Behind(str + [sql[i]], SplitOn(sql[i + 1..], ';'))
  {
    var rest := SplitOn(sql[i + 1..], ';');
    assert sql[i..][0] == sql[i] && sql[i..][1..] == sql[i + 1..];
    if sql[i] == ';' {
      BehindNone(rest);
      assert str + "" == str && Behind(str, [""] + rest) == [str] + rest;
      assert statements + ([str] + rest) == statements + [str] + rest;
    } else {
      assert str + ([sql[i]] + rest[0]) == str + [sql[i]] + rest[0];
    }
  }

  lemma {:induction false} PlainRest(s: Scanner, sql: string, i: nat, cased: char -> bool, step: Stepping)
    requires Follows(step, SqlTests(cased))
    requires Plain(sql) && OpensNone(sql, 0)
    requires i <= |sql| && s.mode.Top? && s.depth == 0 && EndsWith(sql[..i], s.str)
    ensures Finish(s, sql, i, step) == s.statements + Behind(s.str, SplitOn(sql[i..], ';'))
    decreases |sql| - i
  {
    if i == |sql| {
      assert sql[i..] == "" && s.str + "" == s.str;
    } else {
      Grown(sql, i, s.str);
      if IsCompoundStatementStart(s.str + [sql[i]]) {
        StartInSuffix(sql[..i + 1], s.str + [sql[i]]);
      }
      PlainStep(s, sql[i], cased);
      Unfold(s, sql, i, SqlTests(cased), step);
      PlainRest(Step(s, sql[i], SqlTests(cased)), sql, i + 1, cased, step);
      BehindNext(s.statements, s.str, sql, i);
    }
  }

  lemma Grown(sql: string, i: nat, str: string)
    requires i < |sql| && EndsWith(sql[..i], str)
    ensures EndsWith(sql[..i + 1], str + [sql[i]]) && EndsWith(sql[..i + 1], "")
  {
    assert sql[..i + 1] == sql[..i] + [sql[i]];
  }

  // Plain text in which no compound statement begins is split at each semicolon.
  lemma PlainIsSplit(sql: string, cased: char -> bool)
    requires Plain(sql) && OpensNone(sql, 0)
    ensures Statements(sql, SqlTests(cased)) == SplitOn(sql, ';')
  {
    PlainRest(START, sql, 0, cased, Stepper(SqlTests(cased)));
    assert sql[0..] == sql;
    BehindNone(SplitOn(sql, ';'));
  }

  // --- What comes behind a statement ---------------------------------------------------------------

  lemma {:induction false} Shifted(s: Scanner, front: string, sql: string, i: nat, step: Stepping)
    requires i <= |sql|
    ensures Finish(s, front + sql, |front| + i, step) == Finish(s, sql, i, step)
    decreases |sql| - i
  {
    if i < |sql| {
      assert (front + sql)[|front| + i] == sql[i];
      Shifted(step(s, sql[i]), front, sql, i + 1, step);
    }
  }

  function After(front: seq<string>, s: Scanner): Scanner {
    s.(statements := front + s.statements)
  }

  lemma OpenAfter(front: seq<string>, s: Scanner, c: char, tests: Tests)
    ensures StepOpen(After(front, s), c, tests) == After(front, StepOpen(s, c, tests))
  {
    assert front + (s.statements + [s.str]) == front + s.statements + [s.str];
  }

  lemma TopAfter(front: seq<string>, s: Scanner, c: char, tests: Tests)
    ensures StepTop(After(front, s), c, tests) == After(front, StepTop(s, c, tests))
  {
    OpenAfter(front, CloseCompound(s, c, tests), c, tests);
  }

  lemma StepAfter(front: seq<string>, s: Scanner, c: char, tests: Tests)
    ensures Step(After(front, s), c, tests) == After(front, Step(s, c, tests))
  {
    if s.mode.Top? {
      TopAfter(front, s, c, tests);
    } else if s.mode.Dash? || s.mode.Slash? {
      TopAfter(front, s.(mode := Top), c, tests);
    }
  }

  lemma {:induction false} FinishAfter(front: seq<string>, s: Scanner, sql: string, i: nat, tests: Tests, step: Stepping)
    requires Follows(step, tests)
    requires i <= |sql|
    ensures Finish(After(front, s), sql, i, step) == front + Finish(s, sql, i, step)
    decreases |sql| - i
  {
    if i == |sql| {
      assert front + (s.statements + [s.str]) == front + s.statements + [s.str];
    } else {
      StepAfter(front, s, sql[i], tests);
      FinishAfter(front, Step(s, sql[i], tests), sql, i + 1, tests, step);
    }
  }

  // Once a first statement is over, the rest is split on its own.
  lemma SplitBehind(first: string, rest: string, tests: Tests, step: Stepping)
    requires Follows(step, tests)
    ensures Finish(Scanner([first], "", 0, Top), first + (";" + rest), |first| + 1, step) == [first] + Finish(START, rest, 0, step)
  {
    assert first + (";" + rest) == (first + ";") + rest;
    Shifted(Scanner([first], "", 0, Top), first + ";", rest, 0, step);
    FinishAfter([first], START, rest, 0, tests, step);
    assert After([first], START) == Scanner([first], "", 0, Top);
  }

  // --- Compound statements -------------------------------------------------------------------------

  // Plain text up to the first BEGIN and the white space behind it.
  ghost predicate Opening(s: string) {
    && Plain(s) && ';' !in s && IsCompoundStatementStart(s)
    && forall k | 0 <= k < |s| :: !IsCompoundStatementStart(s[..k])
  }

  // A compound statement: an opening, a body of plain text, and the first END.
  ghost predicate Compound(s: string, opening: string, body: string) {
    && s == opening + (body + " END") && Opening(opening) && Plain(body)
    && OpensNone(s, |opening|) && ClosesNone(s, |opening|)
  }

  lemma OpeningRead(sql: string, opening: string, cased: char -> bool, step: Stepping)
    requires Follows(step, SqlTests(cased))
    requires opening <= sql && Opening(opening)
    ensures Finish(START, sql, 0, step) == Finish(Scanner([], opening, 1, Top), sql, |opening|, step)
  {
    var n := |opening| - 1;
    var front := opening[..n];
    assert sql[0..n] == front && "" + front == front && front + [sql[n]] == opening;
    forall k | 0 < k <= n ensures !IsCompoundStatementStart(front[..k]) {
      assert front[..k] == opening[..k];
    }
    PlainKept(START, sql, 0, n, cased, step);
    var s := START.(str := front);
    PlainStep(s, sql[n], cased);
    Unfold(s, sql, n, SqlTests(cased), step);
  }

  lemma EndAtEnd(front: string)
    ensures IsCompoundStatementEnd(front + " END;") && !IsCompoundStatementStart(front + " END;")
  {
    var s := front + " END;";
    assert s[|s| - 4..|s| - 1] == "END";
    assert s[|s| - 1] == ';';
  }

  // A compound statement is one statement, whatever semicolons there are in its body, and is
  // over with the semicolon behind its END.
  lemma CompoundIsOne(s: string, opening: string, body: string, rest: string, cased: char -> bool)
    requires Compound(s, opening, body)
    ensures Statements(s + (";" + rest), SqlTests(cased)) == [s] + Statements(rest, SqlTests(cased))
  {
    var step := Stepper(SqlTests(cased));
    OpeningRead(s + (";" + rest), opening, cased, step);
    BodyRead(s, opening, body, rest, cased, step);
    ClosingRead(s, opening + body, rest, cased, step);
    SplitBehind(s, rest, SqlTests(cased), step);
  }

  lemma BodyRead(s: string, opening: string, body: string, rest: string, cased: char -> bool, step: Stepping)
    requires Follows(step, SqlTests(cased))
    requires Compound(s, opening, body)
    ensures Finish(Scanner([], opening, 1, Top), s + (";" + rest), |opening|, step)
         == Finish(Scanner([], s, 1, Top), s + (";" + rest), |s|, step)
  {
    var ending := body + " END";
    PlainEnding(body);
    Middle(opening, ending, ";" + rest);
    PlainKept(Scanner([], opening, 1, Top), s + (";" + rest), |opening|, |s|, cased, step);
  }

  lemma PlainEnding(body: string)
    requires Plain(body)
    ensures Plain(body + " END")
  {
  }

  lemma Middle(front: string, middle: string, rest: string)
    ensures (front + middle + rest)[|front|..|front + middle|] == middle
  {
  }

  lemma ClosingRead(s: string, front: string, rest: string, cased: char -> bool, step: Stepping)
    requires Follows(step, SqlTests(cased))
    requires s == front + " END"
    ensures Finish(Scanner([], s, 1, Top), s + (";" + rest), |s|, step) == Finish(Scanner([s], "", 0, Top), s + (";" + rest), |s| + 1, step)
  {
    EndAtEnd(front);
    assert s + [';'] == front + " END;" && (s + (";" + rest))[|s|] == ';';
    assert [] + [s] == [s];
    ClosingStep(Scanner([], s, 1, Top), cased);
    Unfold(Scanner([], s, 1, Top), s + (";" + rest), |s|, SqlTests(cased), step);
  }

  lemma ClosingStep(s: Scanner, cased: char -> bool)
    requires s.mode.Top? && s.depth == 1 && IsCompoundStatementEnd(s.str + [';'])
    ensures Step(s, ';', SqlTests(cased)) == Scanner(s.statements + [s.str], "", 0, Top)
  {
  }

  // --- Quotes and comments -------------------------------------------------------------------------

  predicate MarkerAt(s: string, n: nat, k: nat, marker: string) {
    n <= k <= |s| && EndsWith(s[n..k], marker)
  }

  // What stands between these places ends in the marker, and does so only there.
  ghost predicate UpTo(s: string, n: nat, end: nat, marker: string) {
    MarkerAt(s, n, end, marker) && forall k | n < k < end :: !MarkerAt(s, n, k, marker)
  }

  predicate InName(c: char, cased: char -> bool) {
    c != '$' && (IsDigit(c) || c == '_' || cased(c))
  }

  // A quote, a comment up to the end of the line, one between marks, or a dollar quote, of which
  // the first n characters are the name with its dollar signs.
  ghost predicate Quoted(s: string) {
    |s| >= 2 && (s[0] == '\'' || s[0] == '"' || s[0] == '`') && UpTo(s, 1, |s|, [s[0]])
  }

  ghost predicate LineComment(s: string) {
    |s| >= 2 && s[0] == '-' && s[1] == '-' && UpTo(s, 2, |s|, "\n")
  }

  ghost predicate BlockComment(s: string) {
    |s| >= 2 && s[0] == '/' && s[1] == '*' && UpTo(s, 2, |s|, "*/")
  }

  ghost predicate DollarQuoted(s: string, n: nat, cased: char -> bool) {
    && 2 <= n <= |s| && s[0] == '$' && s[n - 1] == '$' && UpTo(s, n, |s|, s[..n])
    && forall k | 1 <= k < n - 1 :: InName(s[k], cased)
  }

  ghost predicate Protected(s: string, cased: char -> bool) {
    Quoted(s) || LineComment(s) || BlockComment(s) || exists n :: DollarQuoted(s, n, cased)
  }

  // This text is found here.
  predicate Holds(sql: string, i: nat, text: string) {
    i + |text| <= |sql| && sql[i..i + |text|] == text
  }

  lemma CharAt(sql: string, i: nat, text: string, k: nat)
    requires Holds(sql, i, text) && k < |text|
    ensures sql[i + k] == text[k]
  {
    assert sql[i..i + |text|][k] == text[k];
  }

  lemma Piece(sql: string, i: nat, text: string, n: nat, k: nat)
    requires Holds(sql, i, text) && n <= k <= |text|
    ensures sql[i + n..i + k] == text[n..k]
  {
    var found := sql[i..i + |text|];
    assert found[n..k] == sql[i + n..i + k] by {
      assert forall j | n <= j < k :: found[j] == sql[i + j];
    }
  }

  lemma UpToFound(sql: string, i: nat, text: string, n: nat, marker: string)
    requires Holds(sql, i, text) && UpTo(text, n, |text|, marker)
    ensures UpTo(sql, i + n, i + |text|, marker)
  {
    var from := i + n;
    forall k | from < k < i + |text| ensures !MarkerAt(sql, from, k, marker) {
      Piece(sql, i, text, n, k - i);
      assert !MarkerAt(text, n, k - i, marker);
    }
    Piece(sql, i, text, n, |text|);
  }

  lemma TokenEndUpTo(sql: string, from: nat, end: nat, marker: string)
    requires UpTo(sql, from, end, marker) && marker != ""
    ensures from < end <= |sql| && TokenEnd(sql, from, from, marker) == end
  {
    forall k | from < k < end ensures !EndsWith(sql[from..k], marker) {
      assert !MarkerAt(sql, from, k, marker);
    }
    TokenEndIs(sql, from, from, end, marker);
  }

  // What ends in a marker ends as the marker does.
  lemma LastOfMarker(s: string, n: nat, end: nat, marker: string)
    requires UpTo(s, n, end, marker) && marker != ""
    ensures n < end <= |s| && s[end - 1] == marker[|marker| - 1]
  {
    var rest := s[n..end];
    assert rest[|rest| - |marker|..][|marker| - 1] == rest[|rest| - 1];
  }

  // The scan once it has read a token that ends here.
  function Taken(s: Scanner, sql: string, i: nat, end: nat, tests: Tests): Scanner
    requires i < end <= |sql|
  {
    EndToken(CloseCompound(s, sql[i], tests).(str := s.str + sql[i..end]), tests)
  }

  ghost predicate IsTaken(s: Scanner, sql: string, i: nat, end: nat, tests: Tests, step: Stepping) {
    i < end <= |sql| && Finish(s, sql, i, step) == Finish(Taken(s, sql, i, end, tests), sql, end, step)
  }

  lemma TokenMeans(s: Scanner, sql: string, i: nat, end: nat, tests: Tests, step: Stepping)
    requires Follows(step, tests)
    requires s.mode.Top? && i < |sql| && TokenAt(sql, i, tests) == Some(end)
    ensures IsTaken(s, sql, i, end, tests, step)
  {
    var p := Place(s.statements, s.str, s.depth, i);
    TurnMeans(p, sql, tests, step);
    TokenTurn(p, sql, end, tests);
  }

  lemma QuoteIs(s: Scanner, sql: string, i: nat, end: nat, cased: char -> bool, step: Stepping)
    requires Follows(step, SqlTests(cased))
    requires s.mode.Top? && i < |sql| && (sql[i] == '\'' || sql[i] == '"' || sql[i] == '`') && UpTo(sql, i + 1, end, [sql[i]])
    ensures IsTaken(s, sql, i, end, SqlTests(cased), step)
  {
    TokenEndUpTo(sql, i + 1, end, [sql[i]]);
    TokenMeans(s, sql, i, end, SqlTests(cased), step);
  }

  lemma CommentIs(s: Scanner, sql: string, i: nat, end: nat, marker: string, cased: char -> bool, step: Stepping)
    requires Follows(step, SqlTests(cased))
    requires s.mode.Top? && i + 1 < |sql| && UpTo(sql, i + 2, end, marker)
    requires (sql[i] == '-' && sql[i + 1] == '-' && marker == "\n") || (sql[i] == '/' && sql[i + 1] == '*' && marker == "*/")
    ensures IsTaken(s, sql, i, end, SqlTests(cased), step)
  {
    TokenEndUpTo(sql, i + 2, end, marker);
    TokenMeans(s, sql, i, end, SqlTests(cased), step);
  }

  lemma DollarIs(s: Scanner, sql: string, i: nat, nameEnd: nat, end: nat, cased: char -> bool, step: Stepping)
    requires Follows(step, SqlTests(cased))
    requires s.mode.Top? && i + 2 <= nameEnd <= |sql| && sql[i] == '$' && sql[nameEnd - 1] == '$'
    requires forall k | i + 1 <= k < nameEnd - 1 :: InName(sql[k], cased)
    requires UpTo(sql, nameEnd, end, sql[i..nameEnd])
    ensures IsTaken(s, sql, i, end, SqlTests(cased), step)
  {
    NameEndIs(sql, i + 1, nameEnd, SqlTests(cased));
    TokenEndUpTo(sql, nameEnd, end, sql[i..nameEnd]);
    TokenMeans(s, sql, i, end, SqlTests(cased), step);
  }

  lemma QuoteFound(s: Scanner, sql: string, i: nat, text: string, cased: char -> bool, step: Stepping)
    requires Follows(step, SqlTests(cased))
    requires s.mode.Top? && Holds(sql, i, text) && Quoted(text)
    ensures IsTaken(s, sql, i, i + |text|, SqlTests(cased), step)
  {
    CharAt(sql, i, text, 0);
    UpToFound(sql, i, text, 1, [text[0]]);
    QuoteIs(s, sql, i, i + |text|, cased, step);
  }

  lemma CommentFound(s: Scanner, sql: string, i: nat, text: string, marker: string, cased: char -> bool, step: Stepping)
    requires Follows(step, SqlTests(cased))
    requires s.mode.Top? && Holds(sql, i, text) && |text| >= 2 && UpTo(text, 2, |text|, marker)
    requires (text[0] == '-' && text[1] == '-' && marker == "\n") || (text[0] == '/' && text[1] == '*' && marker == "*/")
    ensures IsTaken(s, sql, i, i + |text|, SqlTests(cased), step)
  {
    CharAt(sql, i, text, 0);
    CharAt(sql, i, text, 1);
    UpToFound(sql, i, text, 2, marker);
    CommentIs(s, sql, i, i + |text|, marker, cased, step);
  }

  lemma DollarFound(s: Scanner, sql: string, i: nat, text: string, n: nat, cased: char -> bool, step: Stepping)
    requires Follows(step, SqlTests(cased))
    requires s.mode.Top? && Holds(sql, i, text) && DollarQuoted(text, n, cased)
    ensures IsTaken(s, sql, i, i + |text|, SqlTests(cased), step)
  {
    CharAt(sql, i, text, 0);
    CharAt(sql, i, text, n - 1);
    forall k | i + 1 <= k < i + n - 1 ensures InName(sql[k], cased) {
      CharAt(sql, i, text, k - i);
    }
    Piece(sql, i, text, 0, n);
    UpToFound(sql, i, text, n, text[..n]);
    DollarIs(s, sql, i, i + n, i + |text|, cased, step);
  }

  // The characters that quotes and comments begin with, and most of them end with.
  predicate IsMark(c: char) {
    c == '\'' || c == '"' || c == '`' || c == '$' || c == '-' || c == '/'
  }

  lemma MarkIsNoSpace(c: char)
    ensures IsMark(c) ==> !IsSpace(c) && c != ';'
  {
  }

  lemma QuoteEdges(text: string)
    requires Quoted(text)
    ensures text != "" && IsMark(text[0]) && IsMark(text[|text| - 1])
  {
    LastOfMarker(text, 1, |text|, [text[0]]);
  }

  lemma BlockEdges(text: string)
    requires BlockComment(text)
    ensures text != "" && IsMark(text[0]) && IsMark(text[|text| - 1])
  {
    LastOfMarker(text, 2, |text|, "*/");
  }

  lemma DollarEdges(text: string, n: nat, cased: char -> bool)
    requires DollarQuoted(text, n, cased)
    ensures text != "" && IsMark(text[0]) && IsMark(text[|text| - 1])
  {
    LastOfMarker(text, n, |text|, text[..n]);
  }

  lemma TokenEdges(text: string, cased: char -> bool)
    requires Protected(text, cased)
    ensures text != "" && IsMark(text[0]) && (LineComment(text) || IsMark(text[|text| - 1]))
  {
    if Quoted(text) {
      QuoteEdges(text);
    } else if LineComment(text) {
    } else if BlockComment(text) {
      BlockEdges(text);
    } else {
      var n: nat :| DollarQuoted(text, n, cased);
      DollarEdges(text, n, cased);
    }
  }

  lemma TokenIs(s: Scanner, sql: string, i: nat, text: string, cased: char -> bool, step: Stepping)
    requires Follows(step, SqlTests(cased))
    requires s.mode.Top? && Holds(sql, i, text) && Protected(text, cased)
    ensures IsTaken(s, sql, i, i + |text|, SqlTests(cased), step)
  {
    if Quoted(text) {
      QuoteFound(s, sql, i, text, cased, step);
    } else if LineComment(text) {
      CommentFound(s, sql, i, text, "\n", cased, step);
    } else if BlockComment(text) {
      CommentFound(s, sql, i, text, "*/", cased, step);
    } else {
      var n: nat :| DollarQuoted(text, n, cased);
      DollarFound(s, sql, i, text, n, cased, step);
    }
  }

  // The scan with this text in the statement.
  function With(s: Scanner, text: string): Scanner {
    Scanner(s.statements, s.str + text, if IsCompoundStatementStart(s.str + text) then s.depth + 1 else s.depth, Top)
  }

  // A quote or a comment goes into the statement as it is, semicolons, BEGIN and END included.
  // Only the word BEGIN at the end of a comment, before the end of its line, is taken for one
  // that begins a compound statement.
  lemma TokenKept(s: Scanner, sql: string, i: nat, text: string, cased: char -> bool, step: Stepping)
    requires Follows(step, SqlTests(cased))
    requires s.mode.Top? && Holds(sql, i, text) && Protected(text, cased)
    ensures Finish(s, sql, i, step) == Finish(With(s, text), sql, i + |text|, step)
    ensures IsCompoundStatementStart(s.str + text) ==> LineComment(text)
  {
    TokenIs(s, sql, i, text, cased, step);
    TokenEdges(text, cased);
    MarkIsNoSpace(text[0]);
    MarkIsNoSpace(text[|text| - 1]);
    TakenIs(s, sql, i, text, cased);
    if IsCompoundStatementStart(s.str + text) {
      SpaceLast(s.str, text);
    }
  }

  lemma SpaceLast(str: string, text: string)
    requires text != "" && IsCompoundStatementStart(str + text)
    ensures IsSpace(text[|text| - 1])
  {
    assert (str + text)[|str + text| - 1] == text[|text| - 1];
  }

  lemma TakenIs(s: Scanner, sql: string, i: nat, text: string, cased: char -> bool)
    requires s.mode.Top? && text != "" && Holds(sql, i, text) && text[0] != ';' && !IsSpace(text[0])
    ensures Taken(s, sql, i, i + |text|, SqlTests(cased)) == With(s, text)
  {
    CharAt(sql, i, text, 0);
    NoClose(s, text[0], cased);
    EndTokenIs(s.(str := s.str + text), cased);
  }

  lemma NoClose(s: Scanner, c: char, cased: char -> bool)
    requires c != ';' && !IsSpace(c)
    ensures CloseCompound(s, c, SqlTests(cased)) == s
  {
    assert (s.str + [c])[|s.str|] == c;
  }

  lemma EndTokenIs(s: Scanner, cased: char -> bool)
    ensures EndToken(s, SqlTests(cased)) == Scanner(s.statements, s.str, if IsCompoundStatementStart(s.str) then s.depth + 1 else s.depth, Top)
  {
  }

  // A dollar sign, a name, and a character that goes on with neither.
  ghost predicate LooseDollar(s: string, cased: char -> bool) {
    && |s| >= 2 && s[0] == '$' && s[|s| - 1] != '$' && !InName(s[|s| - 1], cased)
    && forall k | 1 <= k < |s| - 1 :: InName(s[k], cased)
  }

  lemma LooseIs(s: Scanner, sql: string, i: nat, end: nat, cased: char -> bool, step: Stepping)
    requires Follows(step, SqlTests(cased))
    requires s.mode.Top? && i + 2 <= end <= |sql| && sql[i] == '$' && sql[end - 1] != '$' && !InName(sql[end - 1], cased)
    requires forall k | i + 1 <= k < end - 1 :: InName(sql[k], cased)
    ensures IsTaken(s, sql, i, end, SqlTests(cased), step)
  {
    NameEndIs(sql, i + 1, end, SqlTests(cased));
    TokenMeans(s, sql, i, end, SqlTests(cased), step);
  }

  // It goes into the statement with that character, even if this is a semicolon: a parameter
  // such as "$1" with a semicolon right behind it does not end the statement.
  lemma DollarSwallows(s: Scanner, sql: string, i: nat, text: string, cased: char -> bool, step: Stepping)
    requires Follows(step, SqlTests(cased))
    requires s.mode.Top? && Holds(sql, i, text) && LooseDollar(text, cased)
    ensures Finish(s, sql, i, step) == Finish(With(s, text), sql, i + |text|, step)
  {
    CharAt(sql, i, text, 0);
    CharAt(sql, i, text, |text| - 1);
    forall k | i + 1 <= k < i + |text| - 1 ensures InName(sql[k], cased) {
      CharAt(sql, i, text, k - i);
    }
    LooseIs(s, sql, i, i + |text|, cased, step);
    TakenIs(s, sql, i, text, cased);
  }

  // A minus sign or a slash that begins no comment goes in alone.
  lemma SignKept(s: Scanner, sql: string, i: nat, cased: char -> bool, step: Stepping)
    requires Follows(step, SqlTests(cased))
    requires s.mode.Top? && i < |sql| && (sql[i] == '-' || sql[i] == '/')
    requires i + 1 < |sql| ==> sql[i + 1] != if sql[i] == '-' then '-' else '*'
    ensures Finish(s, sql, i, step) == Finish(s.(str := s.str + [sql[i]]), sql, i + 1, step)
  {
    var p := Place(s.statements, s.str, s.depth, i);
    NoCommentTurn(p, sql, SqlTests(cased), step);
    NoClose(s, sql[i], cased);
    OneChar(sql, i);
  }

  lemma OneChar(sql: string, i: nat)
    requires i < |sql|
    ensures sql[i..i + 1] == [sql[i]]
  {
  }

  // The statement that is being read only grows until it is over.
  lemma {:induction false} Grows(s: Scanner, sql: string, i: nat, tests: Tests, step: Stepping)
    requires Follows(step, tests)
    requires i <= |sql|
    ensures var r := Finish(s, sql, i, step);
            |r| > |s.statements| && r[..|s.statements|] == s.statements && s.str <= r[|s.statements|]
    decreases |sql| - i
  {
    if i < |sql| {
      StepKinds(s, sql[i], tests);
      Grows(Step(s, sql[i], tests), sql, i + 1, tests, step);
    }
  }

  lemma HeadRead(head: string, rest: string, cased: char -> bool, step: Stepping)
    requires Follows(step, SqlTests(cased))
    requires Plain(head) && ';' !in head && OpensNone(head, 0)
    ensures Finish(START, head + rest, 0, step) == Finish(Scanner([], head, 0, Top), head + rest, |head|, step)
  {
    assert (head + rest)[0..|head|] == head && "" + head == head;
    PlainKept(START, head + rest, 0, |head|, cased, step);
  }

  lemma FoundBehind(head: string, text: string, rest: string)
    ensures Holds(head + (text + rest), |head|, text)
  {
  }

  ghost predicate TextTaken(sql: string, head: string, text: string, step: Stepping) {
    && |head| + |text| <= |sql|
    && Finish(Scanner([], head, 0, Top), sql, |head|, step) == Finish(With(Scanner([], head, 0, Top), text), sql, |head| + |text|, step)
  }

  lemma TokenBehind(sql: string, head: string, text: string, cased: char -> bool, step: Stepping)
    requires Follows(step, SqlTests(cased))
    requires Protected(text, cased) && Holds(sql, |head|, text)
    ensures TextTaken(sql, head, text, step)
  {
    TokenKept(Scanner([], head, 0, Top), sql, |head|, text, cased, step);
  }

  lemma HeadGrows(head: string, text: string, rest: string, cased: char -> bool, step: Stepping)
    requires Follows(step, SqlTests(cased))
    requires Plain(head) && ';' !in head && OpensNone(head, 0) && TextTaken(head + (text + rest), head, text, step)
    ensures var r := Finish(START, head + (text + rest), 0, step); r != [] && head + text <= r[0]
  {
    HeadRead(head, text + rest, cased, step);
    Grows(With(Scanner([], head, 0, Top), text), head + (text + rest), |head| + |text|, SqlTests(cased), step);
  }

  // A query that begins with plain text and a quote or a comment has all of both in its first
  // statement.
  lemma FirstHasToken(head: string, text: string, rest: string, cased: char -> bool)
    requires Plain(head) && ';' !in head && OpensNone(head, 0) && Protected(text, cased)
    ensures Statements(head + (text + rest), SqlTests(cased)) != []
    ensures head + text <= Statements(head + (text + rest), SqlTests(cased))[0]
  {
    FoundBehind(head, text, rest);
    TokenBehind(head + (text + rest), head, text, cased, Stepper(SqlTests(cased)));
    HeadGrows(head, text, rest, cased, Stepper(SqlTests(cased)));
  }

  // A comment that ends in the word BEGIN keeps what stands behind it together.
  lemma CommentOpens(text: string, rest: string, cased: char -> bool)
    requires LineComment(text) && IsCompoundStatementStart(text)
    requires Plain(rest) && OpensNone(text + rest, |text|) && ClosesNone(text + rest, |text|)
    ensures Statements(text + rest, SqlTests(cased)) == [text + rest]
  {
    var step := Stepper(SqlTests(cased));
    FirstComment(text, rest, cased, step);
    RestKept(text, rest, cased, step);
  }

  lemma FirstComment(text: string, rest: string, cased: char -> bool, step: Stepping)
    requires Follows(step, SqlTests(cased))
    requires LineComment(text) && IsCompoundStatementStart(text)
    ensures Finish(START, text + rest, 0, step) == Finish(Scanner([], text, 1, Top), text + rest, |text|, step)
  {
    FoundFirst(text, rest);
    TokenBehind(text + rest, "", text, cased, step);
    WithComment(text);
  }

  lemma FoundFirst(text: string, rest: string)
    ensures Holds(text + rest, 0, text)
  {
  }

  lemma WithComment(text: string)
    requires IsCompoundStatementStart(text)
    ensures With(Scanner([], "", 0, Top), text) == Scanner([], text, 1, Top)
  {
    assert "" + text == text;
  }

  lemma RestKept(text: string, rest: string, cased: char -> bool, step: Stepping)
    requires Follows(step, SqlTests(cased))
    requires Plain(rest) && OpensNone(text + rest, |text|) && ClosesNone(text + rest, |text|)
    ensures Finish(Scanner([], text, 1, Top), text + rest, |text|, step) == [text + rest]
  {
    var sql := text + rest;
    assert sql[|text|..|sql|] == rest;
    PlainKept(Scanner([], text, 1, Top), sql, |text|, |sql|, cased, step);
  }

  // There is such a comment.
  lemma CommentWithBegin()
    ensures LineComment("-- BEGIN\n") && IsCompoundStatementStart("-- BEGIN\n")
  {
    var text := "-- BEGIN\n";
    assert text[3..8] == "BEGIN";
    assert text[2..|text|][6..] == "\n";
    forall k | 2 < k < |text| ensures !MarkerAt(text, 2, k, "\n") {
      assert text[2..k][k - 3] == text[k - 1] != '\n';
      assert text[2..k][k - 3..] == [text[k - 1]];
    }
  }

  // --- Trimming ------------------------------------------------------------------------------------

  // What is left of a text without the white space around it, if anything is.
  ghost predicate Within(s: string, t: string, i: nat, j: nat) {
    && i <= j <= |s| && t == s[i..j] && AllSpace(s[..i]) && AllSpace(s[j..])
    && (t != "" ==> !IsSpace(t[0]) && !IsSpace(t[|t| - 1]))
  }

  lemma OneMoreSpace(s: string, n: nat)
    requires n < |s| && IsSpace(s[0]) && AllSpace(s[1..][..n])
    ensures AllSpace(s[..n + 1]) && s[1..][n..] == s[n + 1..]
  {
    assert s[..n + 1] == [s[0]] + s[1..][..n];
  }

  lemma {:induction false} TrimStartExact(s: string) returns (i: nat)
    ensures i <= |s| && TrimStart(s) == s[i..] && AllSpace(s[..i]) && (i < |s| ==> !IsSpace(s[i]))
    decreases |s|
  {
    if s != "" && IsSpace(s[0]) {
      var n := TrimStartExact(s[1..]);
      i := n + 1;
      OneMoreSpace(s, n);
    } else {
      i := 0;
    }
  }

  // Trimming leaves out the white space around a text and nothing else.
  lemma TrimExact(s: string)
    ensures exists i, j :: Within(s, Trim(s), i, j)
  {
    var end := TrimEnd(s);
    var i := TrimStartExact(end);
    assert s[..|end|] == end;
    if i < |end| {
      assert Within(s, Trim(s), i, |end|) by {
        assert s[..i] == end[..i] && s[i..|end|] == end[i..];
      }
    } else {
      assert Within(s, Trim(s), i, |end|);
    }
  }

  lemma SpaceBoth(s: string, i: nat, j: nat)
    requires i == j <= |s| && AllSpace(s[..i]) && AllSpace(s[j..])
    ensures AllSpace(s)
  {
    assert s == s[..i] + s[j..];
  }

  lemma BlankExact(s: string)
    ensures Trim(s) == "" <==> AllSpace(s)
  {
    if AllSpace(s) {
      SpaceTrims(s);
    }
    if Trim(s) == "" {
      TrimExact(s);
      var i: nat, j: nat :| Within(s, Trim(s), i, j);
      SpaceBoth(s, i, j);
    }
  }

  // The places of the statements that are not blank.
  function Kept(statements: seq<string>): seq<nat> {
    if statements == [] then []
    else
      var n := |statements| - 1;
      Kept(statements[..n]) + if AllSpace(statements[n]) then [] else [n]
  }

  // Where the statements that are not blank are, in order, and what becomes of them.
  ghost predicate TrimmedAt(statements: seq<string>, answer: seq<string>, at: seq<nat>) {
    && |at| == |answer| && (forall j, k | 0 <= j < k < |at| :: at[j] < at[k])
    && (forall j | 0 <= j < |at| :: at[j] < |statements| && answer[j] == Trim(statements[at[j]]))
    && (forall i | 0 <= i < |statements| :: i in at <==> !AllSpace(statements[i]))
  }

  // The statements of an answer are those that are not blank, in order and trimmed.
  lemma {:induction false} NonBlankExact(statements: seq<string>)
    ensures TrimmedAt(statements, NonBlank(statements), Kept(statements))
    decreases |statements|
  {
    if statements != [] {
      var n := |statements| - 1;
      NonBlankExact(statements[..n]);
      BlankExact(statements[n]);
      OneMoreTrimmed(statements, NonBlank(statements[..n]), Kept(statements[..n]));
    }
  }

  lemma OneMoreTrimmed(statements: seq<string>, answer: seq<string>, at: seq<nat>)
    requires statements != [] && TrimmedAt(statements[..|statements| - 1], answer, at)
    ensures var n := |statements| - 1;
            if AllSpace(statements[n]) then TrimmedAt(statements, answer + [], at + [])
            else TrimmedAt(statements, answer + [Trim(statements[n])], at + [n])
  {
    var n := |statements| - 1;
    assert forall i | 0 <= i < n :: statements[..n][i] == statements[i];
    assert answer + [] == answer && at + [] == at;
    if AllSpace(statements[n]) {
      assert n !in at;
    } else {
      assert (at + [n])[|at|] == n;
      assert forall i | 0 <= i < n :: i in at + [n] <==> i in at;
    }
  }
}
