/** The reader's plumbing in `json.cpp`: the cursor `position_t`, the diagnostic
    messages, the `'\0'`-terminated buffer and `consume_whitespace`. */
module Cursor {

  /** `position_t`: line and column for diagnostics, index into the buffer. */
  datatype Position = Position(line: nat, column: nat, index: nat) {

    /** `++pos` and `pos++`. */
    function Incr(): Position
    {
      Position(line, column + 1, index + 1)
    }

    /** `pos += count`. */
    function Advance(count: nat): Position
    {
      Position(line, column + count, index + count)
    }

    /** The `'\n'` step of `consume_whitespace`: next line, column 0. */
    function NextLine(): Position
    {
      Position(line + 1, 0, index + 1)
    }
  }

  /** `position_t()`. */
  const Start := Position(0, 0, 0)

  /** Both increments move column and index by the same amount and never the line,
      and `++` is `+= 1`; so `index - column` is kept by both. */
  lemma IncrementsAgree(p: Position, m: nat, n: nat)
    ensures p.Incr() == p.Advance(1)
    ensures p.Advance(m).Advance(n) == p.Advance(m + n)
    ensures p.Advance(n).line == p.line && p.Advance(n).index - p.index == n
    ensures p.Advance(n).index - p.Advance(n).column == p.index - p.column
  {
  }

  /** The messages `diag.error` is set to, one per place that sets it. */
  datatype Message =
    | NoObjectTerminator | EndInObject | ColonBeforeEnd | ExpectedColon | ValueBeforeEnd
    | EndInArray | UnterminatedString | EndInValue | NullTerminatorInValue | UnexpectedInValue

  /** The text of each message. */
  function Text(m: Message): string
  {
    match m
    case NoObjectTerminator => "No closing object terminator '}' found before end of stream."
    case EndInObject => "Reached end of stream whilst attempting to read object."
    case ColonBeforeEnd => "Expected ':' before reaching end of stream"
    case ExpectedColon => "Unexpected character, expected ':' key value separator."
    case ValueBeforeEnd => "Expected data value before reaching end of stream."
    case EndInArray => "Reached end of stream whilst attempting to read array."
    case UnterminatedString => "No closing '\"' string terminator before end of stream."
    case EndInValue => "Reached end of stream whilst attempting to read value."
    case NullTerminatorInValue => "Reached null terminator whilst attempting to read value."
    case UnexpectedInValue => "Unexpected character whilst attempting to read value."
  }

  /** `std::string::c_str()`: the text followed by its `'\0'`. The text may itself hold
      `'\0'` characters, which the reader treats as terminators too. */
  predicate Terminated(s: seq<char>)
  {
    |s| > 0 && s[|s| - 1] == '\0'
  }

  /** The characters `consume_whitespace` steps over. */
  predicate IsWhitespace(c: char)
  {
    c == ' ' || c == '\t' || c == '\n'
  }

  /** The number of line feeds in `t`. */
  function NewlineCount(t: seq<char>): nat
  {
    if t == [] then 0 else NewlineCount(t[..|t| - 1]) + (if t[|t| - 1] == '\n' then 1 else 0)
  }

  /** The column reached after stepping from column `col` over `t`: the number of
      characters after the last line feed, or `col + |t|` if there is none. */
  function ColumnAfter(col: nat, t: seq<char>): nat
  {
    if t == [] then col
    else if t[|t| - 1] == '\n' then 0
    else ColumnAfter(col, t[..|t| - 1]) + 1
  }

  /** Stepping over `c` first and then `t` is stepping over `[c] + t`. */
  lemma {:induction false} StepFront(col: nat, c: char, t: seq<char>)
    ensures NewlineCount([c] + t) == (if c == '\n' then 1 else 0) + NewlineCount(t)
    ensures ColumnAfter(col, [c] + t) == ColumnAfter(if c == '\n' then 0 else col + 1, t)
    decreases |t|
  {
    if t != [] {
      var u := t[..|t| - 1];
      assert ([c] + t)[..|t|] == [c] + u;
      StepFront(col, c, u);
    } else {
      assert ([c] + t)[..0] == [];
    }
  }

  /** `consume_whitespace(str, pos)`: step over spaces, tabs and line feeds; answer
      whether the character reached is not the terminator. The buffer ends in `'\0'`, so
      the scan never leaves it. */
  function SkipWhitespace(s: seq<char>, p: Position): (r: (bool, Position))
    requires Terminated(s) && p.index < |s|
    ensures p.index <= r.1.index < |s|
    ensures !IsWhitespace(s[r.1.index])
    ensures r.0 <==> s[r.1.index] != '\0'
    decreases |s| - p.index
  {
    var c := s[p.index];
    if c == ' ' || c == '\t' then SkipWhitespace(s, p.Incr())
    else if c == '\n' then SkipWhitespace(s, p.NextLine())
    else (c != '\0', p)
  }

  /** The cursor `consume_whitespace` leaves: one line more per line feed stepped over,
      and the column counted from the last of them. */
  lemma {:induction false} SkipWhitespaceCursor(s: seq<char>, p: Position)
    requires Terminated(s) && p.index < |s|
    ensures var q := SkipWhitespace(s, p).1;
      && q.line == p.line + NewlineCount(s[p.index..q.index])
      && q.column == ColumnAfter(p.column, s[p.index..q.index])
    decreases |s| - p.index
  {
    var c := s[p.index];
    var r := SkipWhitespace(s, p).1;
    if IsWhitespace(c) {
      var q := if c == '\n' then p.NextLine() else p.Incr();
      SkipWhitespaceCursor(s, q);
      assert s[p.index..r.index] == [c] + s[q.index..r.index];
      StepFront(p.column, c, s[q.index..r.index]);
    } else {
      assert s[p.index..r.index] == [];
    }
  }

  /** Everything `consume_whitespace` steps over is white space. */
  lemma {:induction false} SkippedAreWhitespace(s: seq<char>, p: Position)
    requires Terminated(s) && p.index < |s|
    ensures forall k :: p.index <= k < SkipWhitespace(s, p).1.index ==> IsWhitespace(s[k])
    decreases |s| - p.index
  {
    if IsWhitespace(s[p.index]) {
      SkippedAreWhitespace(s, if s[p.index] == '\n' then p.NextLine() else p.Incr());
    }
  }

  /** Where `consume_whitespace` stops: at the first character that is not white space. */
  lemma SkipWhitespaceStop(s: seq<char>, p: Position, j: nat)
    requires Terminated(s) && p.index <= j < |s|
    requires forall k :: p.index <= k < j ==> IsWhitespace(s[k])
    requires !IsWhitespace(s[j])
    ensures SkipWhitespace(s, p).1.index == j
    ensures SkipWhitespace(s, p).0 <==> s[j] != '\0'
  {
    SkippedAreWhitespace(s, p);
  }
}
