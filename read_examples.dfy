/** Concrete readings that show how the readers of `json.cpp` behave on small inputs,
    including the places where they part from JSON. Numbers are read by a `strtod`
    that is only required to take the digits on the inputs used. */
module ReadExamples {
  import opened Wrappers
  import opened Cursor
  import opened JsonValue
  import opened ReadSpec

  const Fresh := State(Start, None, false)

  // ---------------------------------------------------------------------------
  // One step of each reader, for inputs whose characters are known

  /** `json::read` on a text whose first character is not white space. */
  lemma ReadFromFirst(text: string, scan: NumberScanner)
    requires |text| > 0 && !IsWhitespace(text[0]) && text[0] != '\0'
    ensures var v := ValueOn(text + ['\0'], scan, Fresh);
      ReadText(text, scan) == if v.st.overrun then Undefined(v.st.pos) else Outcome(v.result, v.st.pos, v.st.diag)
  {
    var s := text + ['\0'];
    assert s[0] == text[0];
    assert SkipWhitespace(s, Start) == (true, Start);
  }

  /** `read_value` on the first character of a number. */
  lemma NumberHere(s: seq<char>, scan: NumberScanner, st: State)
    requires Ready(s, st) && IsNumberStart(s[st.pos.index])
    ensures var t := scan(s[st.pos.index..]);
      ValueAt(s, scan, st) == Parsed(Number(t.0), State(st.pos.Advance(t.1), st.diag, false))
  {
  }

  /** `read_value` on the first character of a literal. */
  lemma LiteralHere(s: seq<char>, scan: NumberScanner, st: State)
    requires Ready(s, st) && (s[st.pos.index] == 't' || s[st.pos.index] == 'f' || s[st.pos.index] == 'n')
    ensures ValueAt(s, scan, st) == LiteralAt(s, st, s[st.pos.index])
    ensures ValueOn(s, scan, st) == LiteralAt(s, st, s[st.pos.index])
  {
  }

  /** `read_value` on a quote. */
  lemma StringHere(s: seq<char>, scan: NumberScanner, st: State)
    requires Ready(s, st) && s[st.pos.index] == '"'
    ensures var t := StringToken(s, st); ValueOn(s, scan, st) == Parsed(String(t.result), t.st)
  {
  }

  /** `read_value` on a bracket. */
  lemma ArrayHere(s: seq<char>, scan: NumberScanner, st: State)
    requires Ready(s, st) && s[st.pos.index] == '['
    ensures var a := ArrayLoop(s, scan, st, []); ValueOn(s, scan, st) == Parsed(Array(a.result), a.st)
  {
  }

  /** `read_value` on a brace. */
  lemma ObjectHere(s: seq<char>, scan: NumberScanner, st: State)
    requires Ready(s, st) && s[st.pos.index] == '{'
    ensures var o := ObjectLoop(s, scan, st, []); ValueOn(s, scan, st) == Parsed(Object(o.result), o.st)
  {
  }

  /** One iteration of the `read_array` loop, from the character the white space
      skipping stops on. */
  lemma ArrayStep(s: seq<char>, scan: NumberScanner, st: State, acc: seq<Value>, p: Position)
    requires Ready(s, st) && st.pos.index + 1 < |s|
    requires SkipWhitespace(s, st.pos.Incr()).1 == p
    ensures s[p.index] == '\0' ==> ArrayLoop(s, scan, st, acc) == Parsed([], State(p, Some(EndInArray), false))
    ensures s[p.index] == ']' ==> ArrayLoop(s, scan, st, acc) == Parsed(acc, State(p.Incr(), st.diag, false))
    ensures IsValueStart(s[p.index]) ==>
      ArrayLoop(s, scan, st, acc) ==
        var v := ValueAt(s, scan, State(p, st.diag, false));
        if v.st.overrun || v.st.diag.Some? then Parsed([], v.st) else ArrayLoop(s, scan, v.st, acc + [v.result])
  {
  }

  /** The `','` case of the `read_array` loop: the cursor is left on the character after
      the white space that follows the comma, and the loop goes on from there. */
  lemma ArrayComma(s: seq<char>, scan: NumberScanner, st: State, acc: seq<Value>, p: Position, p': Position)
    requires Ready(s, st) && st.pos.index + 1 < |s|
    requires SkipWhitespace(s, st.pos.Incr()).1 == p && s[p.index] == ','
    requires SkipWhitespace(s, p.Incr()) == (true, p')
    ensures ArrayLoop(s, scan, st, acc) == ArrayLoop(s, scan, State(p', st.diag, false), acc)
  {
  }

  /** The `read_array` loop when its `++pos` steps past the terminator. */
  lemma ArrayOverrun(s: seq<char>, scan: NumberScanner, st: State, acc: seq<Value>)
    requires Ready(s, st) && st.pos.index + 1 == |s|
    ensures ArrayLoop(s, scan, st, acc) == Parsed([], State(st.pos.Incr(), st.diag, true))
  {
  }

  /** One iteration of the `read_object` loop, from the character the white space
      skipping stops on. */
  lemma ObjectStep(s: seq<char>, scan: NumberScanner, st: State, acc: Entries, p: Position)
    requires Ready(s, st) && st.pos.index + 1 < |s| && Ascending(acc)
    requires SkipWhitespace(s, st.pos.Incr()).1 == p
    ensures s[p.index] == '}' ==> ObjectLoop(s, scan, st, acc) == Parsed(acc, State(p, st.diag, false))
    ensures s[p.index] == '"' ==> ObjectLoop(s, scan, st, acc) == MemberAt(s, scan, State(p, st.diag, false), acc)
    ensures s[p.index] != ',' && s[p.index] != '"' && s[p.index] != '}' && s[p.index] != '\0' ==>
      ObjectLoop(s, scan, st, acc) == ObjectLoop(s, scan, State(p, st.diag, false), acc)
  {
  }

  /** A member whose key, colon and value are known. */
  lemma MemberStep(s: seq<char>, scan: NumberScanner, st: State, acc: Entries, colon: Position, value: Position)
    requires Ready(s, st) && s[st.pos.index] == '"' && Ascending(acc)
    requires StringToken(s, st).st.diag.None?
    requires SkipWhitespace(s, StringToken(s, st).st.pos) == (true, colon) && s[colon.index] == ':'
    requires SkipWhitespace(s, colon.Incr()) == (true, value)
    ensures var key := StringToken(s, st).result;
      var v := ValueAt(s, scan, State(value, st.diag, false));
      MemberAt(s, scan, st, acc) ==
        if v.st.overrun then Parsed([], v.st) else ObjectLoop(s, scan, v.st, InsertIfAbsent(acc, key, v.result))
  {
  }

  // ---------------------------------------------------------------------------
  // Literals

  /** A `'t'` that does not spell `true` falls through to the `null` check... */
  lemma TullIsNull(scan: NumberScanner)
    ensures ReadText("tull", scan) == Outcome(Null, Position(0, 4, 4), None)
  {
    ReadFromFirst("tull", scan);
    var s := "tull" + ['\0'];
    assert s[0] == 't' && s[1] == 'u' && s[2] == 'l' && s[3] == 'l';
    LiteralHere(s, scan, Fresh);
  }

  /** ... and to the `false` check before it. */
  lemma TalseIsFalse(scan: NumberScanner)
    ensures ReadText("talse", scan) == Outcome(Bool(false), Position(0, 5, 5), None)
  {
    ReadFromFirst("talse", scan);
    var s := "talse" + ['\0'];
    assert s[0] == 't' && s[1] == 'a' && s[2] == 'l' && s[3] == 's' && s[4] == 'e';
    LiteralHere(s, scan, Fresh);
  }

  /** A truncated literal falls through all three checks into the `'\0'` case, with the
      cursor left on the literal. */
  lemma TruIsTerminatorError(scan: NumberScanner)
    ensures ReadText("tru", scan) == Outcome(Null, Start, Some(NullTerminatorInValue))
  {
    ReadFromFirst("tru", scan);
    var s := "tru" + ['\0'];
    assert s[0] == 't' && s[1] == 'r' && s[2] == 'u' && s[3] == '\0';
    LiteralHere(s, scan, Fresh);
  }

  // ---------------------------------------------------------------------------
  // Strings

  /** Escapes are not decoded: `\"` ends the string, and the backslash is kept. */
  lemma EscapedQuoteEndsString(scan: NumberScanner)
    ensures ReadText("\"a\\\"b\"", scan) == Outcome(String("a\\"), Position(0, 4, 4), None)
  {
    var text := "\"a\\\"b\"";
    ReadFromFirst(text, scan);
    var s := text + ['\0'];
    assert s[0] == '"' && s[1] == 'a' && s[2] == '\\' && s[3] == '"';
    StringHere(s, scan, Fresh);
    assert StringEnd(s, 1) == 3;
    assert s[1..3] == "a\\";
  }

  // ---------------------------------------------------------------------------
  // Arrays

  /** The `++pos` at the top of the loop steps over the character after each element:
      after `1` it steps over the `,`, which does no harm; after `2` it steps over the `]`,
      so `[1,2]` meets the terminator inside the array. */
  lemma CompactArrayFails(scan: NumberScanner)
    requires scan("1,2]\0").1 == 1 && scan("2]\0").1 == 1
    ensures ReadText("[1,2]", scan) == Outcome(Array([]), Position(0, 5, 5), Some(EndInArray))
  {
    var s := "[1,2]" + ['\0'];
    assert s[0] == '[' && s[1] == '1' && s[2] == ',' && s[3] == '2' && s[4] == ']' && s[5] == '\0';
    assert s[1..] == "1,2]\0" && s[3..] == "2]\0";
    CompactArrayLoop(s, scan);
    ArrayHere(s, scan, Fresh);
    ReadFromFirst("[1,2]", scan);
  }

  lemma CompactArrayLoop(s: seq<char>, scan: NumberScanner)
    requires Terminated(s) && |s| == 6 && s[1] == '1' && s[3] == '2'
    requires scan(s[1..]).1 == 1 && scan(s[3..]).1 == 1
    ensures ArrayLoop(s, scan, Fresh, []) == Parsed([], State(Position(0, 5, 5), Some(EndInArray), false))
  {
    var n1 := Number(scan(s[1..]).0);
    var n2 := Number(scan(s[3..]).0);
    assert [n1] + [n2] == [n1, n2] && [] + [n1] == [n1];
    var done := Parsed([], State(Position(0, 5, 5), Some(EndInArray), false));
    var a2 := State(Position(0, 4, 4), None, false);
    ArrayStep(s, scan, a2, [n1, n2], Position(0, 5, 5));
    assert ArrayLoop(s, scan, a2, [n1, n2]) == done;
    var a1 := State(Position(0, 2, 2), None, false);
    NumberHere(s, scan, State(Position(0, 3, 3), None, false));
    ArrayStep(s, scan, a1, [n1], Position(0, 3, 3));
    assert ArrayLoop(s, scan, a1, [n1]) == done;
    NumberHere(s, scan, State(Position(0, 1, 1), None, false));
    ArrayStep(s, scan, Fresh, [], Position(0, 1, 1));
  }

  /** After `1` the loop's `++pos` steps over the `,`, which does no harm; after `2` it
      steps over the space, so the `]` is still seen. */
  lemma SpacedArrayParses(scan: NumberScanner)
    requires scan("1, 2 ]\0").1 == 1 && scan("2 ]\0").1 == 1
    ensures ReadText("[1, 2 ]", scan) ==
            Outcome(Array([Number(scan("1, 2 ]\0").0), Number(scan("2 ]\0").0)]), Position(0, 7, 7), None)
  {
    var s := "[1, 2 ]" + ['\0'];
    assert s[0] == '[' && s[1] == '1' && s[2] == ',' && s[3] == ' ' && s[4] == '2' && s[5] == ' ';
    assert s[6] == ']' && s[7] == '\0';
    assert s[1..] == "1, 2 ]\0" && s[4..] == "2 ]\0";
    SpacedArrayLoop(s, scan, scan(s[1..]).0, scan(s[4..]).0);
    ArrayHere(s, scan, Fresh);
    ReadFromFirst("[1, 2 ]", scan);
  }

  lemma SpacedArrayLoop(s: seq<char>, scan: NumberScanner, d1: Double, d2: Double)
    requires Terminated(s) && |s| == 8 && s[1] == '1' && s[3] == ' ' && s[4] == '2' && s[6] == ']'
    requires scan(s[1..]) == (d1, 1) && scan(s[4..]) == (d2, 1)
    ensures ArrayLoop(s, scan, Fresh, []) == Parsed([Number(d1), Number(d2)], State(Position(0, 7, 7), None, false))
  {
    var n1 := Number(d1);
    var n2 := Number(d2);
    assert [n1] + [n2] == [n1, n2] && [] + [n1] == [n1];
    var done := Parsed([n1, n2], State(Position(0, 7, 7), None, false));
    var a2 := State(Position(0, 5, 5), None, false);
    ArrayStep(s, scan, a2, [n1, n2], Position(0, 6, 6));
    assert ArrayLoop(s, scan, a2, [n1, n2]) == done;
    var a1 := State(Position(0, 2, 2), None, false);
    assert SkipWhitespace(s, Position(0, 3, 3)).1 == Position(0, 4, 4);
    NumberHere(s, scan, State(Position(0, 4, 4), None, false));
    ArrayStep(s, scan, a1, [n1], Position(0, 4, 4));
    assert ArrayLoop(s, scan, a1, [n1]) == done;
    NumberHere(s, scan, State(Position(0, 1, 1), None, false));
    ArrayStep(s, scan, Fresh, [], Position(0, 1, 1));
  }

  /** White space before a `,` loses the next element: the `++pos` after `1` steps over
      the space, the `','` case leaves the cursor on the `2`, and the next `++pos` steps
      over it. */
  lemma SpaceBeforeCommaDropsElement(scan: NumberScanner)
    requires scan("1 , 2 ]\0").1 == 1
    ensures ReadText("[1 , 2 ]", scan) == Outcome(Array([Number(scan("1 , 2 ]\0").0)]), Position(0, 8, 8), None)
  {
    var s := "[1 , 2 ]" + ['\0'];
    assert s[0] == '[' && s[1] == '1' && s[2] == ' ' && s[3] == ',' && s[4] == ' ' && s[5] == '2';
    assert s[6] == ' ' && s[7] == ']' && s[8] == '\0';
    assert s[1..] == "1 , 2 ]\0";
    SpaceBeforeCommaLoop(s, scan, scan(s[1..]).0);
    ArrayHere(s, scan, Fresh);
    ReadFromFirst("[1 , 2 ]", scan);
  }

  lemma SpaceBeforeCommaLoop(s: seq<char>, scan: NumberScanner, d1: Double)
    requires Terminated(s) && |s| == 9 && s[1] == '1' && s[3] == ',' && s[4] == ' ' && s[5] == '2'
    requires s[6] == ' ' && s[7] == ']'
    requires scan(s[1..]) == (d1, 1)
    ensures ArrayLoop(s, scan, Fresh, []) == Parsed([Number(d1)], State(Position(0, 8, 8), None, false))
  {
    var n1 := Number(d1);
    assert [] + [n1] == [n1];
    var done := Parsed([n1], State(Position(0, 8, 8), None, false));
    var a2 := State(Position(0, 5, 5), None, false);
    assert SkipWhitespace(s, Position(0, 6, 6)).1 == Position(0, 7, 7);
    ArrayStep(s, scan, a2, [n1], Position(0, 7, 7));
    assert ArrayLoop(s, scan, a2, [n1]) == done;
    var a1 := State(Position(0, 2, 2), None, false);
    assert SkipWhitespace(s, Position(0, 3, 3)).1 == Position(0, 3, 3);
    assert SkipWhitespace(s, Position(0, 4, 4)) == (true, Position(0, 5, 5));
    ArrayComma(s, scan, a1, [n1], Position(0, 3, 3), Position(0, 5, 5));
    assert ArrayLoop(s, scan, a1, [n1]) == done;
    NumberHere(s, scan, State(Position(0, 1, 1), None, false));
    ArrayStep(s, scan, Fresh, [], Position(0, 1, 1));
  }

  /** In `[1` the `++pos` after the number steps past the terminator, which the code then
      reads: undefined behaviour. */
  lemma UnclosedArrayOverruns(scan: NumberScanner)
    requires scan("1\0").1 == 1
    ensures ReadText("[1", scan) == Undefined(Position(0, 3, 3))
  {
    var s := "[1" + ['\0'];
    assert s[0] == '[' && s[1] == '1' && s[2] == '\0';
    assert s[1..] == "1\0";
    var n1 := Number(scan("1\0").0);
    var a1 := State(Position(0, 2, 2), None, false);
    var done := Parsed([], State(Position(0, 3, 3), None, true));
    ArrayOverrun(s, scan, a1, [n1]);
    assert ArrayLoop(s, scan, a1, [n1]) == done;
    NumberHere(s, scan, State(Position(0, 1, 1), None, false));
    ArrayStep(s, scan, Fresh, [], Position(0, 1, 1));
    assert ArrayLoop(s, scan, Fresh, []) == done;
    ArrayHere(s, scan, Fresh);
    ReadFromFirst("[1", scan);
  }

  /** An empty array split over two lines: the line feed starts line 1, and `]` is
      stepped over. */
  lemma EmptyArrayOnTwoLines(scan: NumberScanner)
    ensures ReadText("[\n]", scan) == Outcome(Array([]), Position(1, 1, 3), None)
  {
    var s := "[\n]" + ['\0'];
    assert s[0] == '[' && s[1] == '\n' && s[2] == ']' && s[3] == '\0';
    assert SkipWhitespace(s, Position(0, 1, 1)).1 == Position(1, 0, 2);
    ArrayStep(s, scan, Fresh, [], Position(1, 0, 2));
    ArrayHere(s, scan, Fresh);
    ReadFromFirst("[\n]", scan);
  }

  // ---------------------------------------------------------------------------
  // Objects

  /** An empty object split over two lines: the cursor is left on `}`. */
  lemma EmptyObjectOnTwoLines(scan: NumberScanner)
    ensures ReadText("{\n}", scan) == Outcome(Object([]), Position(1, 0, 2), None)
  {
    var s := "{\n}" + ['\0'];
    assert s[0] == '{' && s[1] == '\n' && s[2] == '}' && s[3] == '\0';
    assert SkipWhitespace(s, Position(0, 1, 1)).1 == Position(1, 0, 2);
    ObjectStep(s, scan, Fresh, [], Position(1, 0, 2));
    ObjectHere(s, scan, Fresh);
    ReadFromFirst("{\n}", scan);
  }

  /** A character that starts no member is stepped over: the `default` case of
      `read_object` only breaks out of the `switch`. */
  lemma StrayCharacterInObject(scan: NumberScanner)
    ensures ReadText("{x}", scan) == Outcome(Object([]), Position(0, 2, 2), None)
  {
    var s := "{x}" + ['\0'];
    assert s[0] == '{' && s[1] == 'x' && s[2] == '}' && s[3] == '\0';
    var o1 := State(Position(0, 1, 1), None, false);
    ObjectStep(s, scan, o1, [], Position(0, 2, 2));
    ObjectStep(s, scan, Fresh, [], Position(0, 1, 1));
    ObjectHere(s, scan, Fresh);
    ReadFromFirst("{x}", scan);
  }

  /** A repeated key keeps its first value, and the object ends on its `}`. */
  lemma DuplicateKeyKeepsFirst(scan: NumberScanner)
    ensures ReadText("{\"a\": true, \"a\": null }", scan) ==
            Outcome(Object([("a", Bool(true))]), Position(0, 22, 22), None)
  {
    var text := "{\"a\": true, \"a\": null }";
    var s := text + ['\0'];
    DuplicateChars();
    DuplicateFirstMember(s, scan);
    ObjectHere(s, scan, Fresh);
    ReadFromFirst(text, scan);
  }

  lemma DuplicateChars()
    ensures var s := "{\"a\": true, \"a\": null }" + ['\0'];
      s[0] == '{' && DuplicateText(s, 1)
  {
    var s := "{\"a\": true, \"a\": null }" + ['\0'];
    assert s[0] == '{' && s[1] == '"' && s[2] == 'a' && s[3] == '"' && s[4] == ':' && s[5] == ' ';
    assert s[6] == 't' && s[7] == 'r' && s[8] == 'u' && s[9] == 'e' && s[11] == ' ';
    assert s[12] == '"' && s[13] == 'a' && s[14] == '"' && s[15] == ':' && s[16] == ' ';
    assert s[17] == 'n' && s[18] == 'u' && s[19] == 'l' && s[20] == 'l' && s[22] == '}';
  }

  /** The characters of `{"a": true, "a": null }` from `from` on. */
  predicate DuplicateText(s: seq<char>, from: nat)
  {
    && Terminated(s) && |s| == 24
    && (from <= 1 ==> s[1] == '"' && s[2] == 'a' && s[3] == '"' && s[4] == ':' && s[5] == ' ')
    && (from <= 6 ==> s[6] == 't' && s[7] == 'r' && s[8] == 'u' && s[9] == 'e')
    && (from <= 11 ==> s[11] == ' ' && s[12] == '"' && s[13] == 'a' && s[14] == '"' && s[15] == ':' && s[16] == ' ')
    && (from <= 17 ==> s[17] == 'n' && s[18] == 'u' && s[19] == 'l' && s[20] == 'l')
    && s[22] == '}'
  }

  lemma DuplicateClose(s: seq<char>, scan: NumberScanner)
    requires DuplicateText(s, 22)
    ensures ObjectLoop(s, scan, State(Position(0, 21, 21), None, false), [("a", Bool(true))]) ==
            Parsed([("a", Bool(true))], State(Position(0, 22, 22), None, false))
  {
    ObjectStep(s, scan, State(Position(0, 21, 21), None, false), [("a", Bool(true))], Position(0, 22, 22));
  }

  lemma DuplicateSecondValue(s: seq<char>, scan: NumberScanner)
    requires DuplicateText(s, 17)
    ensures ValueAt(s, scan, State(Position(0, 17, 17), None, false)) ==
            Parsed(Null, State(Position(0, 21, 21), None, false))
  {
    LiteralHere(s, scan, State(Position(0, 17, 17), None, false));
  }

  lemma DuplicateSecondMember(s: seq<char>, scan: NumberScanner)
    requires DuplicateText(s, 11)
    ensures ObjectLoop(s, scan, State(Position(0, 10, 10), None, false), [("a", Bool(true))]) ==
            Parsed([("a", Bool(true))], State(Position(0, 22, 22), None, false))
  {
    var acc := [("a", Bool(true))];
    var k2 := State(Position(0, 12, 12), None, false);
    assert StringEnd(s, 13) == 14 && s[13..14] == "a";
    assert StringToken(s, k2) == Parsed("a", State(Position(0, 15, 15), None, false));
    assert SkipWhitespace(s, Position(0, 15, 15)).1 == Position(0, 15, 15);
    assert SkipWhitespace(s, Position(0, 16, 16)).1 == Position(0, 17, 17);
    DuplicateSecondValue(s, scan);
    DuplicateClose(s, scan);
    MemberStep(s, scan, k2, acc, Position(0, 15, 15), Position(0, 17, 17));
    InsertKeepsFirst(acc, "a", Null);
    assert SkipWhitespace(s, Position(0, 11, 11)).1 == Position(0, 12, 12);
    ObjectStep(s, scan, State(Position(0, 10, 10), None, false), acc, Position(0, 12, 12));
  }

  lemma InsertKeepsFirst(acc: Entries, key: string, v: Value)
    requires Ascending(acc) && |acc| == 1 && acc[0].0 == key
    ensures InsertIfAbsent(acc, key, v) == acc
  {
  }

  lemma DuplicateFirstMember(s: seq<char>, scan: NumberScanner)
    requires DuplicateText(s, 1)
    ensures ObjectLoop(s, scan, Fresh, []) ==
            Parsed([("a", Bool(true))], State(Position(0, 22, 22), None, false))
  {
    var k1 := State(Position(0, 1, 1), None, false);
    assert StringEnd(s, 2) == 3 && s[2..3] == "a";
    assert StringToken(s, k1) == Parsed("a", State(Position(0, 4, 4), None, false));
    assert SkipWhitespace(s, Position(0, 4, 4)).1 == Position(0, 4, 4);
    assert SkipWhitespace(s, Position(0, 5, 5)).1 == Position(0, 6, 6);
    LiteralHere(s, scan, State(Position(0, 6, 6), None, false));
    DuplicateSecondMember(s, scan);
    MemberStep(s, scan, k1, [], Position(0, 4, 4), Position(0, 6, 6));
    assert InsertIfAbsent([], "a", Bool(true)) == [("a", Bool(true))];
    ObjectStep(s, scan, Fresh, [], Position(0, 1, 1));
  }
}
