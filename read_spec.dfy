/** What the readers of `json.cpp` compute, as functions of the buffer and the reader
    state: `read_string`, `read_number`, `read_value`, and one function per
    `while (true)` loop of `read_object` and `read_array`.  They follow the code, not an
    idealised JSON grammar; the imperative readers in module Reader are proved equal
    to them.

    Where the code would read past the final `'\0'`, which is undefined behaviour, the
    state is marked `overrun` and every production stops. */
module ReadSpec {
  import opened Wrappers
  import opened Cursor
  import opened JsonValue

  /** What is known of `strtod`: it reads a prefix of the text and never consumes a
      `'\0'`. */
  ghost predicate StopsBeforeNul(f: seq<char> -> (Double, nat))
  {
    forall t {:trigger f(t)} :: f(t).1 <= |t| && (forall j :: 0 <= j < f(t).1 ==> t[j] != '\0')
  }

  /** `strtod(start, &end)` on the text from the cursor on: the number read and how
      many characters it took (`end - start`, possibly 0). */
  type NumberScanner = f: seq<char> -> (Double, nat) | StopsBeforeNul(f)
    witness (t: seq<char>) => (Double(0), 0)

  /** The reader state: the cursor, the diagnostic slot, and whether the code has run
      past the buffer. */
  datatype State = State(pos: Position, diag: Option<Message>, overrun: bool)

  /** A production's result together with the state it leaves. */
  datatype Parsed<T> = Parsed(result: T, st: State)

  /** The cursor is on a character of the buffer. */
  predicate Ready(s: seq<char>, st: State)
  {
    Terminated(s) && st.pos.index < |s| && !st.overrun
  }

  /** What every production keeps: the cursor never moves back, it stays in the buffer
      unless the run overran it, and a diagnostic once set is never cleared. */
  predicate Progress(s: seq<char>, st: State, r: State)
  {
    && st.pos.index <= r.pos.index
    && (if r.overrun then r.pos.index == |s| else r.pos.index < |s|)
    && (st.diag.Some? ==> r.diag.Some?)
  }

  /** The characters on which `read_array` calls `read_value`. */
  predicate IsValueStart(c: char)
  {
    c == '"' || IsNumberStart(c) || c == '{' || c == '[' || c == 't' || c == 'f' || c == 'n'
  }

  /** The characters on which `read_value` calls `read_number`. */
  predicate IsNumberStart(c: char)
  {
    c == '-' || ('0' <= c <= '9')
  }

  /** The loop of `read_string`: the first closing quote or terminator from `i` on. */
  function StringEnd(s: seq<char>, i: nat): (j: nat)
    requires Terminated(s) && i < |s|
    ensures i <= j < |s| && (s[j] == '"' || s[j] == '\0')
    ensures forall k :: i <= k < j ==> s[k] != '"' && s[k] != '\0'
    decreases |s| - i
  {
    if s[i] == '"' || s[i] == '\0' then i else StringEnd(s, i + 1)
  }

  /** `read_string`, entered on the opening quote. Every character is stepped over
      with `++pos`, so a line feed inside a string does not start a new line. */
  function StringToken(s: seq<char>, st: State): (r: Parsed<string>)
    requires Ready(s, st) && s[st.pos.index] == '"'
    ensures Ready(s, r.st) && Progress(s, st, r.st) && st.pos.index < r.st.pos.index
    ensures r.st.pos.line == st.pos.line
    ensures r.st.pos.index - r.st.pos.column == st.pos.index - st.pos.column
  {
    var j := StringEnd(s, st.pos.index + 1);
    if s[j] == '"' then
      Parsed(s[st.pos.index + 1..j], State(st.pos.Advance(j + 1 - st.pos.index), st.diag, false))
    else
      Parsed("", State(st.pos.Advance(j - st.pos.index), Some(UnterminatedString), false))
  }

  /** `read_number`: `pos += end - start` after `strtod`. */
  function NumberToken(s: seq<char>, scan: NumberScanner, st: State): (r: Parsed<Double>)
    requires Ready(s, st)
    ensures Ready(s, r.st) && Progress(s, st, r.st) && r.st.diag == st.diag
    ensures r.st.pos.index - st.pos.index == r.st.pos.column - st.pos.column
  {
    var t := s[st.pos.index..];
    var k := scan(t).1;
    Parsed(scan(t).0, State(st.pos.Advance(k), st.diag, false))
  }

  /** The `'t'`, `'f'` and `'n'` cases of `read_value`. None of them ends in `break`,
      so a spelling that does not match falls through to the next case, and after the
      `'n'` case into the `'\0'` case. `entry` is the case jumped to. */
  function LiteralAt(s: seq<char>, st: State, entry: char): (r: Parsed<Value>)
    requires Ready(s, st) && (entry == 't' || entry == 'f' || entry == 'n')
    requires s[st.pos.index] == entry
    ensures Ready(s, r.st) && Progress(s, st, r.st)
  {
    var i := st.pos.index;
    if entry == 't' && s[i + 1] == 'r' && s[i + 2] == 'u' && s[i + 3] == 'e' then
      Parsed(Bool(true), State(st.pos.Advance(4), st.diag, false))
    else if entry != 'n' && s[i + 1] == 'a' && s[i + 2] == 'l' && s[i + 3] == 's' && s[i + 4] == 'e' then
      Parsed(Bool(false), State(st.pos.Advance(5), st.diag, false))
    else if s[i + 1] == 'u' && s[i + 2] == 'l' && s[i + 3] == 'l' then
      Parsed(Null, State(st.pos.Advance(4), st.diag, false))
    else
      Parsed(Null, State(st.pos, Some(NullTerminatorInValue), false))
  }

  /** `read_value`: skip white space, then dispatch on the character reached. */
  function ValueAt(s: seq<char>, scan: NumberScanner, st: State): (r: Parsed<Value>)
    requires Ready(s, st)
    ensures Progress(s, st, r.st)
    decreases |s| - st.pos.index, 3
  {
    var (more, p) := SkipWhitespace(s, st.pos);
    if !more then Parsed(Null, State(p, Some(EndInValue), false))
    else ValueOn(s, scan, State(p, st.diag, false))
  }

  /** The `switch` of `read_value`, on a character that is neither white space nor
      `'\0'`. */
  function ValueOn(s: seq<char>, scan: NumberScanner, st: State): (r: Parsed<Value>)
    requires Ready(s, st) && !IsWhitespace(s[st.pos.index]) && s[st.pos.index] != '\0'
    ensures Progress(s, st, r.st)
    decreases |s| - st.pos.index, 2
  {
    var c := s[st.pos.index];
    if c == '{' then
      var o := ObjectLoop(s, scan, st, []);
      Parsed(Object(o.result), o.st)
    else if c == '[' then
      var a := ArrayLoop(s, scan, st, []);
      Parsed(Array(a.result), a.st)
    else if IsNumberStart(c) then
      var n := NumberToken(s, scan, st);
      Parsed(Number(n.result), n.st)
    else if c == '"' then
      var t := StringToken(s, st);
      Parsed(String(t.result), t.st)
    else if c == 't' || c == 'f' || c == 'n' then
      LiteralAt(s, st, c)
    else
      Parsed(Null, State(st.pos, Some(UnexpectedInValue), false))
  }

  /** The `while (true)` loop of `read_object` from the top of one iteration on: `st`
      is the state before its `++pos`, `acc` the object built so far. The loop returns
      on `'}'` without stepping over it. */
  function ObjectLoop(s: seq<char>, scan: NumberScanner, st: State, acc: Entries): (r: Parsed<Entries>)
    requires Ready(s, st) && Ascending(acc)
    ensures Progress(s, st, r.st) && st.pos.index < r.st.pos.index
    decreases |s| - st.pos.index, 1
  {
    var q := st.pos.Incr();
    if q.index >= |s| then
      Parsed([], State(q, st.diag, true))
    else
      var (more, p) := SkipWhitespace(s, q);
      if !more then
        Parsed([], State(p, Some(NoObjectTerminator), false))
      else if s[p.index] == ',' then
        var (more', p') := SkipWhitespace(s, p.Incr());
        if !more' then Parsed([], State(p', Some(EndInObject), false))
        else ObjectLoop(s, scan, State(p', st.diag, false), acc)
      else if s[p.index] == '"' then
        MemberAt(s, scan, State(p, st.diag, false), acc)
      else if s[p.index] == '}' then
        Parsed(acc, State(p, st.diag, false))
      else
        ObjectLoop(s, scan, State(p, st.diag, false), acc)
  }

  /** The `'"'` case of `read_object`: key, `':'`, value, insert, and on with the loop.
      A failed value does not end the loop: the member is added and the loop goes on
      with the diagnostic set. */
  function MemberAt(s: seq<char>, scan: NumberScanner, st: State, acc: Entries): (r: Parsed<Entries>)
    requires Ready(s, st) && s[st.pos.index] == '"' && Ascending(acc)
    ensures Progress(s, st, r.st) && st.pos.index < r.st.pos.index
    decreases |s| - st.pos.index, 1
  {
    var key := StringToken(s, st);
    if key.st.diag.Some? then
      Parsed([], key.st)
    else
      var (more1, p1) := SkipWhitespace(s, key.st.pos);
      if !more1 then
        Parsed([], State(p1, Some(ColonBeforeEnd), false))
      else if s[p1.index] != ':' then
        Parsed([], State(p1, Some(ExpectedColon), false))
      else
        var (more2, p2) := SkipWhitespace(s, p1.Incr());
        var v := ValueAt(s, scan, State(p2, if more2 then key.st.diag else Some(ValueBeforeEnd), false));
        if v.st.overrun then
          Parsed([], v.st)
        else
          ObjectLoop(s, scan, v.st, InsertIfAbsent(acc, key.result, v.result))
  }

  /** The `while (true)` loop of `read_array` from the top of one iteration on. The
      loop returns one past `']'`; any failure returns the empty array. The misspelt
      `defeult:` label leaves every other character without a case, so it is skipped. */
  function ArrayLoop(s: seq<char>, scan: NumberScanner, st: State, acc: seq<Value>): (r: Parsed<seq<Value>>)
    requires Ready(s, st)
    ensures Progress(s, st, r.st) && st.pos.index < r.st.pos.index
    decreases |s| - st.pos.index, 1
  {
    var q := st.pos.Incr();
    if q.index >= |s| then
      Parsed([], State(q, st.diag, true))
    else
      var (more, p) := SkipWhitespace(s, q);
      var here := State(p, st.diag, false);
      if !more then
        Parsed([], State(p, Some(EndInArray), false))
      else if s[p.index] == ',' then
        var (more', p') := SkipWhitespace(s, p.Incr());
        if !more' then Parsed([], State(p', Some(EndInArray), false))
        else ArrayLoop(s, scan, State(p', st.diag, false), acc)
      else if IsValueStart(s[p.index]) then
        var v := ValueAt(s, scan, here);
        if v.st.overrun || v.st.diag.Some? then
          Parsed([], v.st)
        else
          ArrayLoop(s, scan, v.st, acc + [v.result])
      else if s[p.index] == ']' then
        Parsed(acc, State(p.Incr(), st.diag, false))
      else
        ArrayLoop(s, scan, here, acc)
  }

  /** What `json::read` hands back: the value with the final cursor and diagnostic, or
      the position at which the code reads past the buffer. */
  datatype Outcome = Outcome(value: Value, pos: Position, diag: Option<Message>) | Undefined(pos: Position)

  /** `json::read(string)`: `read_value` on `string.c_str()` from the start position
      with an empty diagnostic. */
  function ReadText(text: string, scan: NumberScanner): (r: Outcome)
    ensures r.Outcome? ==> r.pos.index <= |text|
    ensures r.Undefined? ==> r.pos.index == |text| + 1
  {
    var v := ValueAt(text + ['\0'], scan, State(Start, None, false));
    if v.st.overrun then Undefined(v.st.pos) else Outcome(v.result, v.st.pos, v.st.diag)
  }
}
