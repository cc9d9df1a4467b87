/** The few operations on text that headers and SQL are taken apart with. */
module Text {

  // The white space and line ends of ECMAScript, which trimming removes.
  predicate IsSpace(c: char) {
    || c in "\t\n\r \U{b}\U{c}\U{a0}\U{1680}\U{2028}\U{2029}\U{202f}\U{205f}\U{3000}\U{feff}"
    || '\U{2000}' <= c <= '\U{200a}'
  }

  predicate IsDigit(c: char) {
    '0' <= c <= '9'
  }

  predicate AllSpace(s: string) {
    forall i | 0 <= i < |s| :: IsSpace(s[i])
  }

  predicate AllDigits(s: string) {
    forall i | 0 <= i < |s| :: IsDigit(s[i])
  }

  predicate AllBlank(s: string) {
    forall i | 0 <= i < |s| :: s[i] == ' '
  }

  function Lower(c: char): char {
    if 'A' <= c <= 'Z' then c - 'A' + 'a' else c
  }

  // The number that digits make.
  function Number(digits: string): nat
    requires AllDigits(digits)
  {
    if digits == "" then 0 else 10 * Number(digits[..|digits| - 1]) + (digits[|digits| - 1] as int - '0' as int)
  }

  // How many blanks, and how many digits, a text begins with.
  function Blanks(s: string): (n: nat)
    ensures n <= |s| && AllBlank(s[..n]) && (n < |s| ==> s[n] != ' ')
  {
    if s != "" && s[0] == ' ' then 1 + Blanks(s[1..]) else 0
  }

  function Digits(s: string): (n: nat)
    ensures n <= |s| && AllDigits(s[..n]) && (n < |s| ==> !IsDigit(s[n]))
  {
    if s != "" && IsDigit(s[0]) then 1 + Digits(s[1..]) else 0
  }

  lemma {:induction false} BlanksOf(blank: string, rest: string)
    requires AllBlank(blank) && (rest != "" ==> rest[0] != ' ')
    ensures Blanks(blank + rest) == |blank| && (blank + rest)[|blank|..] == rest
  {
    if blank == "" {
      assert blank + rest == rest;
    } else {
      BlanksOf(blank[1..], rest);
      assert (blank + rest)[1..] == blank[1..] + rest;
    }
  }

  lemma {:induction false} DigitsOf(digits: string, rest: string)
    requires AllDigits(digits) && (rest != "" ==> !IsDigit(rest[0]))
    ensures Digits(digits + rest) == |digits| && (digits + rest)[..|digits|] == digits && (digits + rest)[|digits|..] == rest
  {
    if digits == "" {
      assert digits + rest == rest;
    } else {
      DigitsOf(digits[1..], rest);
      assert (digits + rest)[1..] == digits[1..] + rest;
    }
  }

  // The pieces between separators, of which there is always at least one.
  function SplitOn(s: string, separator: char): (pieces: seq<string>)
    ensures pieces != []
  {
    if s == "" then [""]
    else
      var rest := SplitOn(s[1..], separator);
      if s[0] == separator then [""] + rest else [[s[0]] + rest[0]] + rest[1..]
  }

  function Join(pieces: seq<string>, separator: string): string
    requires pieces != []
  {
    if |pieces| == 1 then pieces[0] else pieces[0] + separator + Join(pieces[1..], separator)
  }

  // Splitting is undone by joining, and leaves no separator in a piece.
  lemma {:induction false} SplitJoins(s: string, separator: char)
    ensures Join(SplitOn(s, separator), [separator]) == s
    ensures forall i | 0 <= i < |SplitOn(s, separator)| :: separator !in SplitOn(s, separator)[i]
  {
    if s != "" {
      SplitJoins(s[1..], separator);
      var rest, pieces := SplitOn(s[1..], separator), SplitOn(s, separator);
      assert pieces[1..] == if s[0] == separator then rest else rest[1..];
      assert s == [s[0]] + s[1..];
    }
  }

  lemma {:induction false} SplitFirst(piece: string, rest: string, separator: char)
    requires separator !in piece
    ensures SplitOn(piece, separator) == [piece]
    ensures SplitOn(piece + ([separator] + rest), separator) == [piece] + SplitOn(rest, separator)
  {
    var s := piece + ([separator] + rest);
    if piece == "" {
      assert s[0] == separator && s[1..] == rest;
    } else {
      SplitFirst(piece[1..], rest, separator);
      assert piece == [piece[0]] + piece[1..];
      assert s[0] == piece[0] && s[1..] == piece[1..] + ([separator] + rest);
    }
  }
}
