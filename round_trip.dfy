/** Writing a value with `json::write` and reading the text back with `json::read`.

    The reader gets back exactly the value that was written, provided that value lies
    within reach of the reader's quirks: strings and keys hold no `'"'` and no `'\0'`
    (nothing is escaped on either side), the indent string is white space, keys are in
    the order the container keeps them, every number is put out as text that `strtod`
    reads back whole, and a nested object is only ever the last child of its container.
    The last condition is needed: `read_object` stops on its `'}'` without stepping over
    it, so the caller's next `++pos` takes the `'}'` instead of the separator, and after a
    `','` one character too many is skipped (NestedObjectDropsSibling). */
module RoundTrip {
  import opened Wrappers
  import opened Cursor
  import opened JsonValue
  import opened ReadSpec
  import opened JsonWriter
  import opened WriterFacts
  import opened ReadFacts
  import opened ReadExamples

  /** `t` sits in `s` from index `i` on, character by character. */
  predicate At(s: seq<char>, i: nat, t: string)
    decreases |t|
  {
    i + |t| <= |s| && (t == [] || (s[i] == t[0] && At(s, i + 1, t[1..])))
  }

  /** Only white space. */
  predicate Blank(w: string)
  {
    forall k :: 0 <= k < |w| ==> IsWhitespace(w[k])
  }

  /** No character that ends a string for `read_string`. */
  predicate Plain(t: string)
  {
    forall k :: 0 <= k < |t| ==> t[k] != '"' && t[k] != '\0'
  }

  /** What can follow a child in the writer's output, and the terminator. */
  predicate Follows(c: char)
  {
    c == ',' || c == '\n' || c == '\0'
  }

  /** `fmt` puts `d` out as a number, starting with a digit or `'-'`, that `strtod` reads
      back whole and to the same value whatever of the writer's output follows it. */
  ghost predicate NumberRereads(scan: NumberScanner, fmt: Double -> string, d: Double)
  {
    && |fmt(d)| > 0 && IsNumberStart(fmt(d)[0])
    && forall rest: seq<char> {:trigger scan(fmt(d) + rest)} ::
         |rest| > 0 && Follows(rest[0]) ==> scan(fmt(d) + rest) == (d, |fmt(d)|)
  }

  /** The values the reader gets back from the writer's output. */
  ghost predicate Rereadable(v: Value, scan: NumberScanner, fmt: Double -> string)
  {
    match v
    case Object(m) =>
      && Ascending(m)
      && forall k | 0 <= k < |m| :: assert m[k] in m; assert m[k].1 < m[k];
           Plain(m[k].0) && Rereadable(m[k].1, scan, fmt) && (m[k].1.Object? ==> k == |m| - 1)
    case Array(a) =>
      forall k | 0 <= k < |a| :: Rereadable(a[k], scan, fmt) && (a[k].Object? ==> k == |a| - 1)
    case Number(d) => NumberRereads(scan, fmt, d)
    case String(t) => Plain(t)
    case _ => true
  }

  /** What follows element `n - 1` of an array at depth `depth`, up to its `']'`. */
  function RestOfArray(a: seq<Value>, n: nat, depth: nat, tab: string, fmt: Double -> string): string
    requires n <= |a|
  {
    ElementsFrom(a, n, depth + 1, tab, fmt) + (Lead(true, tab, depth) + "]")
  }

  /** What follows member `n - 1` of an object at depth `depth`, up to its `'}'`. */
  function RestOfObject(m: Entries, n: nat, depth: nat, tab: string, fmt: Double -> string): string
    requires n <= |m|
  {
    MembersFrom(m, n, depth + 1, tab, fmt) + (Lead(true, tab, depth) + "}")
  }

  /** The white space (and comma) before element `n`, or before the `']'`. */
  function ArrayGap(a: seq<Value>, n: nat, depth: nat, tab: string): string
  {
    if n < |a| then Lead(n == 0, tab, depth + 1) else Lead(true, tab, depth)
  }

  /** The white space (and comma) before member `n`, or before the `'}'`. */
  function ObjectGap(m: Entries, n: nat, depth: nat, tab: string): string
  {
    if n < |m| then Lead(n == 0, tab, depth + 1) else Lead(true, tab, depth)
  }

  /** The text from the start of element `n`, or the `']'`, to the end of the array. */
  function ArrayAhead(a: seq<Value>, n: nat, depth: nat, tab: string, fmt: Double -> string): string
    requires n <= |a|
  {
    if n < |a| then Render(a[n], depth + 1, tab, fmt) + RestOfArray(a, n + 1, depth, tab, fmt) else "]"
  }

  /** The text from the start of member `n`, or the `'}'`, to the end of the object. */
  function ObjectAhead(m: Entries, n: nat, depth: nat, tab: string, fmt: Double -> string): string
    requires n <= |m|
  {
    if n < |m| then MemberText(m[n], depth + 1, tab, fmt) + RestOfObject(m, n + 1, depth, tab, fmt) else "}"
  }

  /** `At` is the slice of `s` from `i` being `t`. */
  lemma {:induction false} AtSlice(s: seq<char>, i: nat, t: string)
    ensures At(s, i, t) <==> i + |t| <= |s| && s[i..i + |t|] == t
    decreases |t|
  {
    if t != [] && i + |t| <= |s| {
      AtSlice(s, i + 1, t[1..]);
      assert s[i..i + |t|] == [s[i]] + s[i + 1..i + 1 + |t[1..]|];
      assert t == [t[0]] + t[1..];
    }
  }

  lemma AtSplit(s: seq<char>, i: nat, a: string, b: string)
    requires At(s, i, a + b)
    ensures At(s, i, a) && At(s, i + |a|, b)
  {
    AtSlice(s, i, a + b);
    AtSlice(s, i, a);
    AtSlice(s, i + |a|, b);
    assert s[i..i + |a|] == s[i..i + |a + b|][..|a|];
    assert s[i + |a|..i + |a| + |b|] == s[i..i + |a + b|][|a|..];
  }

  lemma AtChar(s: seq<char>, i: nat, t: string, k: nat)
    requires At(s, i, t) && k < |t|
    ensures s[i + k] == t[k]
  {
    AtSlice(s, i, t);
    assert s[i..i + |t|][k] == s[i + k];
  }

  /** A lead is a comma unless it comes first, then white space. */
  lemma LeadChars(first: bool, tab: string, depth: nat)
    requires Blank(tab)
    ensures var l := Lead(first, tab, depth);
      && |l| > 0 && l[0] == (if first then '\n' else ',')
      && forall k :: 1 <= k < |l| ==> IsWhitespace(l[k])
  {
    var i := Indentation(tab, depth);
    var pre := if first then "" else ",";
    IndentationChars(tab, depth);
    var l := Lead(first, tab, depth);
    assert l == (pre + "\n") + i;
    forall k | 1 <= k < |l|
      ensures IsWhitespace(l[k])
    {
      if k >= |pre| + 1 {
        assert l[k] == i[k - |pre| - 1];
      }
    }
  }

  /** A container in terms of its rest. */
  lemma ContainerText(m: Entries, a: seq<Value>, depth: nat, tab: string, fmt: Double -> string)
    ensures Render(Object(m), depth, tab, fmt) == "{" + RestOfObject(m, 0, depth, tab, fmt)
    ensures Render(Array(a), depth, tab, fmt) == "[" + RestOfArray(a, 0, depth, tab, fmt)
  {
    RenderContainers(m, a, depth, tab, fmt);
    var i := Indentation(tab, depth);
    assert Lead(true, tab, depth) == "\n" + i by {
      assert "" + "\n" == "\n";
    }
    var nl := "\n" + i;
    var mf := MembersFrom(m, 0, depth + 1, tab, fmt);
    Assoc("{" + mf, "\n", i);
    Assoc("{" + mf, nl, "}");
    Assoc("{", mf, nl + "}");
    var ef := ElementsFrom(a, 0, depth + 1, tab, fmt);
    Assoc("[" + ef, "\n", i);
    Assoc("[" + ef, nl, "]");
    Assoc("[", ef, nl + "]");
  }

  /** The rest of an array is a gap, then what lies ahead. */
  lemma ArrayRest(a: seq<Value>, n: nat, depth: nat, tab: string, fmt: Double -> string)
    requires n <= |a|
    ensures RestOfArray(a, n, depth, tab, fmt) == ArrayGap(a, n, depth, tab) + ArrayAhead(a, n, depth, tab, fmt)
  {
    var c := Lead(true, tab, depth) + "]";
    if n < |a| {
      var l := Lead(n == 0, tab, depth + 1);
      var r := Render(a[n], depth + 1, tab, fmt);
      var ef := ElementsFrom(a, n + 1, depth + 1, tab, fmt);
      Assoc(l + r, ef, c);
      Assoc(l, r, ef + c);
    } else {
      assert "" + c == c;
    }
  }

  /** The rest of an object is a gap, then what lies ahead. */
  lemma ObjectRest(m: Entries, n: nat, depth: nat, tab: string, fmt: Double -> string)
    requires n <= |m|
    ensures RestOfObject(m, n, depth, tab, fmt) == ObjectGap(m, n, depth, tab) + ObjectAhead(m, n, depth, tab, fmt)
  {
    var c := Lead(true, tab, depth) + "}";
    if n < |m| {
      var l := Lead(n == 0, tab, depth + 1);
      var t := MemberText(m[n], depth + 1, tab, fmt);
      var mf := MembersFrom(m, n + 1, depth + 1, tab, fmt);
      Assoc(l + t, mf, c);
      Assoc(l, t, mf + c);
    } else {
      assert "" + c == c;
    }
  }

  /** The first character of what the writer puts out for a value the reader gets back:
      the one `read_value` dispatches on. */
  lemma RenderFirst(v: Value, depth: nat, tab: string, fmt: Double -> string, scan: NumberScanner)
    requires Rereadable(v, scan, fmt)
    ensures |Render(v, depth, tab, fmt)| > 0
    ensures var c := Render(v, depth, tab, fmt)[0];
      !IsWhitespace(c) && c != '\0' && c != ',' && IsValueStart(c)
  {
    match v
    case Object(m) =>
      ContainerText(m, [], depth, tab, fmt);
    case Array(a) =>
      ContainerText([], a, depth, tab, fmt);
    case Number(d) =>
      RenderLeaves(d, "", false, depth, tab, fmt);
    case String(t) =>
      RenderLeaves(Double(0), t, false, depth, tab, fmt);
    case Bool(b) =>
      RenderLeaves(Double(0), "", b, depth, tab, fmt);
    case Null =>
      RenderLeaves(Double(0), "", false, depth, tab, fmt);
  }

  lemma AscendingPrefix(m: Entries, n: nat)
    requires Ascending(m) && n <= |m|
    ensures Ascending(m[..n])
  {
    assert forall i :: 0 <= i < n ==> m[..n][i] == m[i];
  }

  /** `read_string` on a plain text followed by `'"'` stops on that quote. */
  lemma {:induction false} StringEndAt(s: seq<char>, i: nat, t: string, e: nat)
    requires Terminated(s) && At(s, i, t) && Plain(t)
    requires e == i + |t| && e < |s| && s[e] == '"'
    ensures StringEnd(s, i) == e
    decreases |t|
  {
    if |t| > 0 {
      AtChar(s, i, t, 0);
      assert t == [t[0]] + t[1..];
      AtSplit(s, i, [t[0]], t[1..]);
      StringEndAt(s, i + 1, t[1..], e);
    }
  }

  /** A child the writer put out, then the lead of the next child or of the closing
      bracket: the child's text is in place and a comma or a line feed follows it. */
  lemma AfterChild(s: seq<char>, j: nat, r: string, gap: string, next: string, first: bool, tab: string, depth: nat, e: nat)
    requires Blank(tab) && gap == Lead(first, tab, depth) && At(s, j, r + (gap + next)) && e == j + |r|
    ensures At(s, j, r) && e < |s| && Follows(s[e])
    ensures |r| > 0 ==> s[j] == r[0]
  {
    AtSplit(s, j, r, gap + next);
    AtSplit(s, e, gap, next);
    LeadChars(first, tab, depth);
    AtChar(s, e, gap, 0);
    if |r| > 0 {
      AtChar(s, j, r, 0);
    }
  }

  /** Where `read_value` left the cursor after a child (one past it, or on the `'}'` of
      an object, which is only ever followed by a lead that begins with a line feed),
      up to where the next child or the closing bracket begins, is white space. */
  lemma LeaveGap(s: seq<char>, j: nat, r: string, gap: string, next: string, e: nat, obj: bool, first: bool,
                 tab: string, depth: nat, j2: nat)
    requires Blank(tab) && gap == Lead(first, tab, depth) && (obj ==> first)
    requires At(s, j, r + (gap + next)) && e + (if obj then 1 else 0) == j + |r| && j2 == j + |r| + |gap|
    ensures e < j2 && At(s, j2, next)
    ensures forall k :: e < k < j2 ==> IsWhitespace(s[k])
  {
    AtSplit(s, j, r, gap + next);
    AtSplit(s, j + |r|, gap, next);
    LeadChars(first, tab, depth);
    forall k | e < k < j2
      ensures IsWhitespace(s[k])
    {
      AtChar(s, j + |r|, gap, k - j - |r|);
    }
  }

  /** An opening bracket and the lead of the first child (or of the closing bracket):
      the next iteration finds the first child after white space. */
  lemma OpenGap(s: seq<char>, i: nat, open: char, gap: string, ahead: string, tab: string, depth: nat, j: nat)
    requires Blank(tab) && gap == Lead(true, tab, depth) && At(s, i, [open] + (gap + ahead))
    requires j == i + 1 + |gap|
    ensures s[i] == open && At(s, j, ahead)
    ensures forall k :: i < k < j ==> IsWhitespace(s[k])
  {
    AtChar(s, i, [open] + (gap + ahead), 0);
    LeaveGap(s, i, [open], gap, ahead, i + 1, false, true, tab, depth, j);
  }

  /** The top of an iteration of `read_array` that finds, after white space, a
      character `read_value` is called on. */
  lemma ArrayLoopValue(s: seq<char>, scan: NumberScanner, st: State, acc: seq<Value>, j: nat) returns (here: Position)
    requires Ready(s, st) && st.pos.index < j < |s|
    requires forall k :: st.pos.index < k < j ==> IsWhitespace(s[k])
    requires !IsWhitespace(s[j]) && s[j] != '\0' && s[j] != ',' && IsValueStart(s[j])
    ensures here.index == j
    ensures ArrayLoop(s, scan, st, acc) ==
            var v := ValueAt(s, scan, State(here, st.diag, false));
            if v.st.overrun || v.st.diag.Some? then Parsed([], v.st)
            else ArrayLoop(s, scan, v.st, acc + [v.result])
  {
    SkipWhitespaceStop(s, st.pos.Incr(), j);
    here := SkipWhitespace(s, st.pos.Incr()).1;
  }

  /** The top of an iteration of `read_array` that finds `']'` after white space. */
  lemma ArrayLoopClose(s: seq<char>, scan: NumberScanner, st: State, acc: seq<Value>, j: nat)
    requires Ready(s, st) && st.pos.index < j < |s| && s[j] == ']'
    requires forall k :: st.pos.index < k < j ==> IsWhitespace(s[k])
    ensures ArrayLoop(s, scan, st, acc).result == acc
    ensures ArrayLoop(s, scan, st, acc).st.diag == st.diag && !ArrayLoop(s, scan, st, acc).st.overrun
    ensures ArrayLoop(s, scan, st, acc).st.pos.index == j + 1
  {
    SkipWhitespaceStop(s, st.pos.Incr(), j);
  }

  /** The top of an iteration of `read_object` that finds a key after white space. */
  lemma ObjectLoopMember(s: seq<char>, scan: NumberScanner, st: State, acc: Entries, j: nat) returns (here: Position)
    requires Ready(s, st) && Ascending(acc) && st.pos.index < j < |s| && s[j] == '"'
    requires forall k :: st.pos.index < k < j ==> IsWhitespace(s[k])
    ensures here.index == j
    ensures ObjectLoop(s, scan, st, acc) == MemberAt(s, scan, State(here, st.diag, false), acc)
  {
    SkipWhitespaceStop(s, st.pos.Incr(), j);
    here := SkipWhitespace(s, st.pos.Incr()).1;
  }

  /** The top of an iteration of `read_object` that finds `'}'` after white space. */
  lemma ObjectLoopClose(s: seq<char>, scan: NumberScanner, st: State, acc: Entries, j: nat)
    requires Ready(s, st) && Ascending(acc) && st.pos.index < j < |s| && s[j] == '}'
    requires forall k :: st.pos.index < k < j ==> IsWhitespace(s[k])
    ensures ObjectLoop(s, scan, st, acc).result == acc
    ensures ObjectLoop(s, scan, st, acc).st.diag == st.diag && !ObjectLoop(s, scan, st, acc).st.overrun
    ensures ObjectLoop(s, scan, st, acc).st.pos.index == j
  {
    SkipWhitespaceStop(s, st.pos.Incr(), j);
  }

  /** `read_string` on a quote, a plain text and a quote: it reads the text and steps
      past the closing quote. `q` is where that quote is. */
  lemma QuotedAt(s: seq<char>, p: Position, diag: Option<Message>, t: string, q: nat)
    requires Terminated(s) && Plain(t) && At(s, p.index, "\"" + t)
    requires q == p.index + 1 + |t| && q < |s| && s[q] == '"'
    ensures StringToken(s, State(p, diag, false)) == Parsed(t, State(p.Advance(|t| + 2), diag, false))
  {
    var i := p.index;
    AtSplit(s, i, "\"", t);
    AtChar(s, i, "\"", 0);
    StringEndAt(s, i + 1, t, q);
    AtSlice(s, i + 1, t);
  }

  /** The `'"'` case of `read_object` on a key the writer put out with its `": "`: the
      key is read whole and the value is read from the character after the space. */
  lemma KeyRereads(s: seq<char>, scan: NumberScanner, p: Position, i: nat, key: string, acc: Entries, i2: nat)
    returns (p2: Position)
    requires Terminated(s) && p.index == i && Ascending(acc) && Plain(key)
    requires At(s, i, "\"" + key + "\": ") && i2 == i + |key| + 4 && i2 < |s|
    requires !IsWhitespace(s[i2]) && s[i2] != '\0'
    ensures p2.index == i2
    ensures MemberAt(s, scan, State(p, None, false), acc) ==
            var v := ValueAt(s, scan, State(p2, None, false));
            if v.st.overrun then Parsed([], v.st)
            else ObjectLoop(s, scan, v.st, InsertIfAbsent(acc, key, v.result))
  {
    var c := i + 1 + |key|;
    AtSplit(s, i, "\"" + key, "\": ");
    AtChar(s, c, "\": ", 0);
    AtChar(s, c, "\": ", 1);
    AtChar(s, c, "\": ", 2);
    QuotedAt(s, p, None, key, c);
    var p1 := p.Advance(|key| + 2);
    SkipWhitespaceStop(s, p1, c + 1);
    SkipWhitespaceStop(s, p1.Incr(), i2);
    p2 := SkipWhitespace(s, p1.Incr()).1;
  }

  /** `read_value` on `null`, `true` or `false` as the writer puts them. */
  lemma LiteralRereads(s: seq<char>, scan: NumberScanner, p: Position, word: string, v: Value, e: nat)
    requires Terminated(s) && At(s, p.index, word) && e == p.index + |word| && e < |s|
    requires (word, v) == ("null", Null) || (word, v) == ("true", Bool(true)) || (word, v) == ("false", Bool(false))
    ensures ValueAt(s, scan, State(p, None, false)) == Parsed(v, State(p.Advance(|word|), None, false))
  {
    var st := State(p, None, false);
    AtSlice(s, p.index, word);
    if word == "null" {
      NullWord(s, st);
    } else if word == "true" {
      TrueWord(s, st);
    } else {
      FalseWord(s, st);
    }
    SkipWhitespaceStop(s, p, p.index);
    assert ValueAt(s, scan, st) == ValueOn(s, scan, st);
  }

  /** `read_value` on a string as the writer puts it: quotes around a plain text. */
  lemma StringRereads(s: seq<char>, scan: NumberScanner, p: Position, t: string, e: nat)
    requires Terminated(s) && Plain(t) && At(s, p.index, "\"" + t + "\"")
    requires e == p.index + |"\"" + t + "\""| && e < |s|
    ensures ValueAt(s, scan, State(p, None, false)) == Parsed(String(t), State(p.Advance(|t| + 2), None, false))
  {
    var i := p.index;
    var st := State(p, None, false);
    var q := i + 1 + |t|;
    AtSplit(s, i, "\"" + t, "\"");
    AtChar(s, q, "\"", 0);
    QuotedAt(s, p, None, t, q);
    SkipWhitespaceStop(s, p, i);
    assert ValueAt(s, scan, st) == ValueOn(s, scan, st);
  }

  /** `read_value` on a number as the writer puts it, followed by what the writer puts
      after a child. */
  lemma NumberRereadsAt(s: seq<char>, scan: NumberScanner, fmt: Double -> string, p: Position, d: Double, e: nat)
    requires Terminated(s) && NumberRereads(scan, fmt, d)
    requires At(s, p.index, fmt(d)) && e == p.index + |fmt(d)| && e < |s| && Follows(s[e])
    ensures var r := ValueAt(s, scan, State(p, None, false));
      && r.result == Number(d) && r.st.diag.None? && !r.st.overrun && r.st.pos.index == e
  {
    var i := p.index;
    var st := State(p, None, false);
    var f := fmt(d);
    AtChar(s, i, f, 0);
    SkipWhitespaceStop(s, p, i);
    assert ValueAt(s, scan, st) == ValueOn(s, scan, st);
    var rest := s[e..];
    AtSlice(s, i, f);
    assert s[i..] == f + rest;
    assert rest[0] == s[e];
    assert scan(f + rest) == (d, |f|);
  }

  /** `read_value` on `'{'` enters the loop of `read_object`. */
  lemma ObjectStarts(s: seq<char>, scan: NumberScanner, p: Position)
    requires Terminated(s) && p.index < |s| && s[p.index] == '{'
    ensures ValueAt(s, scan, State(p, None, false)) ==
            var o := ObjectLoop(s, scan, State(p, None, false), []); Parsed(Object(o.result), o.st)
  {
    SkipWhitespaceStop(s, p, p.index);
  }

  /** `read_value` on `'['` enters the loop of `read_array`. */
  lemma ArrayStarts(s: seq<char>, scan: NumberScanner, p: Position)
    requires Terminated(s) && p.index < |s| && s[p.index] == '['
    ensures ValueAt(s, scan, State(p, None, false)) ==
            var o := ArrayLoop(s, scan, State(p, None, false), []); Parsed(Array(o.result), o.st)
  {
    SkipWhitespaceStop(s, p, p.index);
  }

  /** A scalar: `null`, `true`, `false`, a number or a string. */
  lemma LeafRereads(s: seq<char>, scan: NumberScanner, tab: string, fmt: Double -> string,
                    p: Position, v: Value, depth: nat, e: nat)
    requires !v.Object? && !v.Array?
    requires Terminated(s) && Rereadable(v, scan, fmt)
    requires At(s, p.index, Render(v, depth, tab, fmt)) && e == p.index + |Render(v, depth, tab, fmt)|
    requires e < |s| && Follows(s[e])
    ensures var r := ValueAt(s, scan, State(p, None, false));
      && r.result == v && r.st.diag.None? && !r.st.overrun && r.st.pos.index == e
  {
    match v
    case Number(d) =>
      RenderLeaves(d, "", false, depth, tab, fmt);
      NumberRereadsAt(s, scan, fmt, p, d, e);
    case String(t) =>
      RenderLeaves(Double(0), t, false, depth, tab, fmt);
      StringRereads(s, scan, p, t, e);
    case Bool(b) =>
      RenderLeaves(Double(0), "", b, depth, tab, fmt);
      LiteralRereads(s, scan, p, if b then "true" else "false", v, e);
    case Null =>
      RenderLeaves(Double(0), "", false, depth, tab, fmt);
      LiteralRereads(s, scan, p, "null", v, e);
  }

  /** `read_value` on the `'{'` the writer put out: into the loop of `read_object`, with
      the first member (or the `'}'`) after white space. */
  lemma ObjectOpen(s: seq<char>, scan: NumberScanner, tab: string, fmt: Double -> string,
                   p: Position, m: Entries, depth: nat) returns (j: nat)
    requires Terminated(s) && Blank(tab) && p.index < |s|
    requires At(s, p.index, Render(Object(m), depth, tab, fmt))
    ensures p.index < j && At(s, j, ObjectAhead(m, 0, depth, tab, fmt))
    ensures forall k :: p.index < k < j ==> IsWhitespace(s[k])
    ensures j + |ObjectAhead(m, 0, depth, tab, fmt)| == p.index + |Render(Object(m), depth, tab, fmt)|
    ensures ValueAt(s, scan, State(p, None, false)) ==
            var o := ObjectLoop(s, scan, State(p, None, false), []); Parsed(Object(o.result), o.st)
  {
    ContainerText(m, [], depth, tab, fmt);
    ObjectRest(m, 0, depth, tab, fmt);
    var gap := ObjectGap(m, 0, depth, tab);
    j := p.index + 1 + |gap|;
    OpenGap(s, p.index, '{', gap, ObjectAhead(m, 0, depth, tab, fmt), tab, if |m| > 0 then depth + 1 else depth, j);
    ObjectStarts(s, scan, p);
  }

  /** `read_value` on the `'['` the writer put out: into the loop of `read_array`, with
      the first element (or the `']'`) after white space. */
  lemma ArrayOpen(s: seq<char>, scan: NumberScanner, tab: string, fmt: Double -> string,
                  p: Position, a: seq<Value>, depth: nat) returns (j: nat)
    requires Terminated(s) && Blank(tab) && p.index < |s|
    requires At(s, p.index, Render(Array(a), depth, tab, fmt))
    ensures p.index < j && At(s, j, ArrayAhead(a, 0, depth, tab, fmt))
    ensures forall k :: p.index < k < j ==> IsWhitespace(s[k])
    ensures j + |ArrayAhead(a, 0, depth, tab, fmt)| == p.index + |Render(Array(a), depth, tab, fmt)|
    ensures ValueAt(s, scan, State(p, None, false)) ==
            var o := ArrayLoop(s, scan, State(p, None, false), []); Parsed(Array(o.result), o.st)
  {
    ContainerText([], a, depth, tab, fmt);
    ArrayRest(a, 0, depth, tab, fmt);
    var gap := ArrayGap(a, 0, depth, tab);
    j := p.index + 1 + |gap|;
    OpenGap(s, p.index, '[', gap, ArrayAhead(a, 0, depth, tab, fmt), tab, if |a| > 0 then depth + 1 else depth, j);
    ArrayStarts(s, scan, p);
  }

  /** Element `n` of an array the reader gets back: smaller than the array, read back
      itself, and last if it is an object. */
  lemma ElementParts(a: seq<Value>, n: nat, scan: NumberScanner, fmt: Double -> string)
    requires Rereadable(Array(a), scan, fmt) && n < |a|
    ensures a[n] < Array(a) && Rereadable(a[n], scan, fmt) && (a[n].Object? ==> n == |a| - 1)
  {
    assert a[n] in a;
  }

  /** Member `n` of an object the reader gets back: a plain key, a value smaller than
      the object and read back itself, and last if the value is an object. */
  lemma MemberParts(m: Entries, n: nat, scan: NumberScanner, fmt: Double -> string)
    requires Rereadable(Object(m), scan, fmt) && n < |m|
    ensures m[n].1 < Object(m) && Plain(m[n].0) && Rereadable(m[n].1, scan, fmt)
    ensures m[n].1.Object? ==> n == |m| - 1
  {
    assert m[n] in m;
    assert m[n].1 < m[n];
  }

  lemma PrefixStep<T>(q: seq<T>, n: nat)
    requires n < |q|
    ensures q[..n] + [q[n]] == q[..n + 1]
  {
  }

  /** `object.add` of member `n` after the members before it of an object with
      ascending keys appends it. */
  lemma InsertNext(m: Entries, n: nat)
    requires Ascending(m) && n < |m|
    ensures Ascending(m[..n]) && Ascending(m[..n + 1])
    ensures InsertIfAbsent(m[..n], m[n].0, m[n].1) == m[..n + 1]
  {
    AscendingPrefix(m, n);
    AscendingPrefix(m, n + 1);
    InsertAbove(m[..n], m[n].0, m[n].1);
    PrefixStep(m, n);
  }


  /** Where element `n` of the array begins: its text is in place, followed by a comma or
      a line feed, and it starts with a character `read_array` calls `read_value` on. */
  lemma ElementLayout(s: seq<char>, scan: NumberScanner, tab: string, fmt: Double -> string,
                      a: seq<Value>, n: nat, depth: nat, j: nat) returns (e: nat)
    requires Blank(tab) && n < |a| && Rereadable(a[n], scan, fmt)
    requires At(s, j, ArrayAhead(a, n, depth, tab, fmt))
    ensures e == j + |Render(a[n], depth + 1, tab, fmt)|
    ensures At(s, j, Render(a[n], depth + 1, tab, fmt)) && e < |s| && Follows(s[e])
    ensures !IsWhitespace(s[j]) && s[j] != '\0' && s[j] != ',' && IsValueStart(s[j])
  {
    var r := Render(a[n], depth + 1, tab, fmt);
    ArrayRest(a, n + 1, depth, tab, fmt);
    var gap := ArrayGap(a, n + 1, depth, tab);
    var next := ArrayAhead(a, n + 1, depth, tab, fmt);
    RenderFirst(a[n], depth + 1, tab, fmt, scan);
    e := j + |r|;
    AfterChild(s, j, r, gap, next, n + 1 == |a|, tab, if n + 1 < |a| then depth + 1 else depth, e);
  }

  /** After element `n`: where the next iteration of `read_array` finds element `n + 1`
      or the `']'`. `e` is where `read_value` left the cursor: one past the element, or on
      the `'}'` of an object, which is only ever the last element. */
  lemma ElementLeave(s: seq<char>, tab: string, fmt: Double -> string,
                     a: seq<Value>, n: nat, depth: nat, j: nat, e: nat) returns (j': nat)
    requires Blank(tab) && n < |a| && (a[n].Object? ==> n == |a| - 1)
    requires At(s, j, ArrayAhead(a, n, depth, tab, fmt))
    requires e + (if a[n].Object? then 1 else 0) == j + |Render(a[n], depth + 1, tab, fmt)|
    ensures e < j' && At(s, j', ArrayAhead(a, n + 1, depth, tab, fmt))
    ensures forall k :: e < k < j' ==> IsWhitespace(s[k])
    ensures j' + |ArrayAhead(a, n + 1, depth, tab, fmt)| == j + |ArrayAhead(a, n, depth, tab, fmt)|
  {
    var r := Render(a[n], depth + 1, tab, fmt);
    ArrayRest(a, n + 1, depth, tab, fmt);
    var gap := ArrayGap(a, n + 1, depth, tab);
    var next := ArrayAhead(a, n + 1, depth, tab, fmt);
    j' := j + |r| + |gap|;
    LeaveGap(s, j, r, gap, next, e, a[n].Object?, n + 1 == |a|, tab, if n + 1 < |a| then depth + 1 else depth, j');
  }

  /** A key with its `": "` and a value's text, then the lead of the next member or of
      the `'}'`: both are in place, a comma or a line feed follows, and the value starts
      with neither white space nor the terminator. The value starts at `i` and ends at
      `e`. */
  lemma MemberTextAt(s: seq<char>, j: nat, key: string, r: string, gap: string, next: string,
                     first: bool, tab: string, depth: nat, i: nat, e: nat)
    requires Blank(tab) && gap == Lead(first, tab, depth)
    requires At(s, j, ("\"" + key + "\": " + r) + (gap + next))
    requires |r| > 0 && !IsWhitespace(r[0]) && r[0] != '\0'
    requires i == j + |key| + 4 && e == i + |r|
    ensures At(s, j, "\"" + key + "\": ") && At(s, i, r)
    ensures e < |s| && Follows(s[e])
    ensures s[j] == '"' && !IsWhitespace(s[i]) && s[i] != '\0'
  {
    var head := "\"" + key + "\": ";
    Assoc(head, r, gap + next);
    AtSplit(s, j, head, r + (gap + next));
    AtChar(s, j, head, 0);
    AfterChild(s, i, r, gap, next, first, tab, depth, e);
  }

  /** Where member `n` of the object begins: the key with its `": "` is in place, then
      the value's text from `i` to `e`, followed by a comma or a line feed. */
  lemma MemberLayout(s: seq<char>, scan: NumberScanner, tab: string, fmt: Double -> string,
                     m: Entries, n: nat, depth: nat, j: nat) returns (i: nat, e: nat)
    requires Blank(tab) && n < |m| && Rereadable(m[n].1, scan, fmt)
    requires At(s, j, ObjectAhead(m, n, depth, tab, fmt))
    ensures i == j + |m[n].0| + 4 && e == i + |Render(m[n].1, depth + 1, tab, fmt)|
    ensures At(s, j, "\"" + m[n].0 + "\": ") && At(s, i, Render(m[n].1, depth + 1, tab, fmt))
    ensures e < |s| && Follows(s[e])
    ensures s[j] == '"' && !IsWhitespace(s[i]) && s[i] != '\0'
  {
    var r := Render(m[n].1, depth + 1, tab, fmt);
    ObjectRest(m, n + 1, depth, tab, fmt);
    var gap := ObjectGap(m, n + 1, depth, tab);
    var next := ObjectAhead(m, n + 1, depth, tab, fmt);
    RenderFirst(m[n].1, depth + 1, tab, fmt, scan);
    i := j + |m[n].0| + 4;
    e := i + |r|;
    MemberTextAt(s, j, m[n].0, r, gap, next, n + 1 == |m|, tab, if n + 1 < |m| then depth + 1 else depth, i, e);
  }

  /** After member `n`: where the next iteration of `read_object` finds member `n + 1` or
      the `'}'`. `e` is where `read_value` left the cursor. */
  lemma MemberLeave(s: seq<char>, tab: string, fmt: Double -> string,
                    m: Entries, n: nat, depth: nat, j: nat, e: nat) returns (j': nat)
    requires Blank(tab) && n < |m| && (m[n].1.Object? ==> n == |m| - 1)
    requires At(s, j, ObjectAhead(m, n, depth, tab, fmt))
    requires e + (if m[n].1.Object? then 1 else 0) == j + |MemberText(m[n], depth + 1, tab, fmt)|
    ensures e < j' && At(s, j', ObjectAhead(m, n + 1, depth, tab, fmt))
    ensures forall k :: e < k < j' ==> IsWhitespace(s[k])
    ensures j' + |ObjectAhead(m, n + 1, depth, tab, fmt)| == j + |ObjectAhead(m, n, depth, tab, fmt)|
  {
    var t := MemberText(m[n], depth + 1, tab, fmt);
    ObjectRest(m, n + 1, depth, tab, fmt);
    var gap := ObjectGap(m, n + 1, depth, tab);
    var next := ObjectAhead(m, n + 1, depth, tab, fmt);
    j' := j + |t| + |gap|;
    LeaveGap(s, j, t, gap, next, e, m[n].1.Object?, n + 1 == |m|, tab, if n + 1 < |m| then depth + 1 else depth, j');
  }

  /** Reading from the first character of what the writer put out for `v`, followed by a
      separator, a line feed or the terminator, gives back `v` with no diagnostic. The
      cursor ends one past the text, except for an object: `read_object` stops on its
      `'}'`. */
  lemma {:induction false} ValueRereads(s: seq<char>, scan: NumberScanner, tab: string, fmt: Double -> string,
                                        p: Position, v: Value, depth: nat, e: nat)
    requires Terminated(s) && Blank(tab) && Rereadable(v, scan, fmt)
    requires At(s, p.index, Render(v, depth, tab, fmt)) && e == p.index + |Render(v, depth, tab, fmt)|
    requires e < |s| && Follows(s[e])
    ensures var r := ValueAt(s, scan, State(p, None, false));
      && r.result == v && r.st.diag.None? && !r.st.overrun
      && r.st.pos.index == e - (if v.Object? then 1 else 0)
    decreases v, 2
  {
    match v
    case Object(m) =>
      var j := ObjectOpen(s, scan, tab, fmt, p, m, depth);
      assert m[..0] == [];
      MembersRereads(s, scan, tab, fmt, State(p, None, false), m, 0, depth, j);
    case Array(a) =>
      var j := ArrayOpen(s, scan, tab, fmt, p, a, depth);
      assert a[..0] == [];
      ElementsRereads(s, scan, tab, fmt, State(p, None, false), a, 0, depth, j);
    case _ =>
      LeafRereads(s, scan, tab, fmt, p, v, depth, e);
  }

  /** The top of an iteration of `read_array` that finds, after white space, what the
      writer put out for `v`: `read_value` reads it back and the loop goes on with it
      appended. */
  lemma ElementRead(s: seq<char>, scan: NumberScanner, tab: string, fmt: Double -> string,
                    st: State, acc: seq<Value>, v: Value, depth: nat, j: nat, e: nat) returns (st': State)
    requires Terminated(s) && Blank(tab) && Rereadable(v, scan, fmt)
    requires st.diag.None? && !st.overrun && st.pos.index < j
    requires At(s, j, Render(v, depth, tab, fmt)) && e == j + |Render(v, depth, tab, fmt)|
    requires e < |s| && Follows(s[e])
    requires !IsWhitespace(s[j]) && s[j] != '\0' && s[j] != ',' && IsValueStart(s[j])
    requires forall k :: st.pos.index < k < j ==> IsWhitespace(s[k])
    ensures st'.diag.None? && !st'.overrun
    ensures st'.pos.index + (if v.Object? then 1 else 0) == e
    ensures ArrayLoop(s, scan, st, acc) == ArrayLoop(s, scan, st', acc + [v])
    decreases v, 3
  {
    var here := ArrayLoopValue(s, scan, st, acc, j);
    ValueRereads(s, scan, tab, fmt, here, v, depth, e);
    st' := ValueAt(s, scan, State(here, None, false)).st;
  }

  /** One iteration of `read_array` that reads element `n`, from the top of the
      iteration: the cursor sits before white space that ends at `j`, where the rest of
      the array begins. The loop goes on from after the element with it appended, and
      the next iteration finds the rest of the array after white space again. */
  lemma ElementStep(s: seq<char>, scan: NumberScanner, tab: string, fmt: Double -> string,
                    st: State, a: seq<Value>, n: nat, depth: nat, j: nat) returns (st': State, j': nat)
    requires Terminated(s) && Blank(tab) && Rereadable(Array(a), scan, fmt) && n < |a|
    requires st.diag.None? && !st.overrun && st.pos.index < j
    requires At(s, j, ArrayAhead(a, n, depth, tab, fmt))
    requires forall k :: st.pos.index < k < j ==> IsWhitespace(s[k])
    ensures st'.diag.None? && !st'.overrun && st'.pos.index < j'
    ensures At(s, j', ArrayAhead(a, n + 1, depth, tab, fmt))
    ensures forall k :: st'.pos.index < k < j' ==> IsWhitespace(s[k])
    ensures j' + |ArrayAhead(a, n + 1, depth, tab, fmt)| == j + |ArrayAhead(a, n, depth, tab, fmt)|
    ensures ArrayLoop(s, scan, st, a[..n]) == ArrayLoop(s, scan, st', a[..n + 1])
    decreases Array(a), 0
  {
    ElementParts(a, n, scan, fmt);
    var e := ElementLayout(s, scan, tab, fmt, a, n, depth, j);
    st' := ElementRead(s, scan, tab, fmt, st, a[..n], a[n], depth + 1, j, e);
    PrefixStep(a, n);
    j' := ElementLeave(s, tab, fmt, a, n, depth, j, st'.pos.index);
  }

  /** The loop of `read_array` from the top of the iteration that reads element `n`:
      the cursor sits before white space that ends at `j`, where the rest of the array
      begins. The loop gives back the whole array and ends one past its `']'`. */
  lemma {:induction false} ElementsRereads(s: seq<char>, scan: NumberScanner, tab: string, fmt: Double -> string,
                                           st: State, a: seq<Value>, n: nat, depth: nat, j: nat)
    requires Terminated(s) && Blank(tab) && Rereadable(Array(a), scan, fmt) && n <= |a|
    requires st.diag.None? && !st.overrun && st.pos.index < j
    requires At(s, j, ArrayAhead(a, n, depth, tab, fmt))
    requires forall k :: st.pos.index < k < j ==> IsWhitespace(s[k])
    ensures var r := ArrayLoop(s, scan, st, a[..n]);
      && r.result == a && r.st.diag.None? && !r.st.overrun
      && r.st.pos.index == j + |ArrayAhead(a, n, depth, tab, fmt)|
    decreases Array(a), 1, |a| - n
  {
    if n < |a| {
      var st', j' := ElementStep(s, scan, tab, fmt, st, a, n, depth, j);
      ElementsRereads(s, scan, tab, fmt, st', a, n + 1, depth, j');
    } else {
      AtChar(s, j, "]", 0);
      ArrayLoopClose(s, scan, st, a[..n], j);
      assert a[..n] == a;
    }
  }

  /** The `'"'` case of `read_object` on a key and a value as the writer put them out:
      both are read back and the loop goes on with the member added. */
  lemma MemberAtRereads(s: seq<char>, scan: NumberScanner, tab: string, fmt: Double -> string,
                        p: Position, acc: Entries, key: string, v: Value, depth: nat,
                        i: nat, i2: nat, e: nat) returns (st': State)
    requires Terminated(s) && Blank(tab) && Rereadable(v, scan, fmt) && Plain(key) && Ascending(acc)
    requires p.index == i && i2 == i + |key| + 4 && e == i2 + |Render(v, depth, tab, fmt)|
    requires At(s, i, "\"" + key + "\": ") && At(s, i2, Render(v, depth, tab, fmt))
    requires e < |s| && Follows(s[e])
    requires !IsWhitespace(s[i2]) && s[i2] != '\0'
    ensures st'.diag.None? && !st'.overrun
    ensures st'.pos.index + (if v.Object? then 1 else 0) == e
    ensures MemberAt(s, scan, State(p, None, false), acc) == ObjectLoop(s, scan, st', InsertIfAbsent(acc, key, v))
    decreases v, 3
  {
    var p2 := KeyRereads(s, scan, p, i, key, acc, i2);
    ValueRereads(s, scan, tab, fmt, p2, v, depth, e);
    st' := ValueAt(s, scan, State(p2, None, false)).st;
  }

  /** The top of an iteration of `read_object` that finds, after white space, a key and
      a value as the writer put them out. */
  lemma MemberRead(s: seq<char>, scan: NumberScanner, tab: string, fmt: Double -> string,
                   st: State, acc: Entries, key: string, v: Value, depth: nat,
                   j: nat, i: nat, e: nat) returns (st': State)
    requires Terminated(s) && Blank(tab) && Rereadable(v, scan, fmt) && Plain(key) && Ascending(acc)
    requires st.diag.None? && !st.overrun && st.pos.index < j
    requires i == j + |key| + 4 && e == i + |Render(v, depth, tab, fmt)|
    requires At(s, j, "\"" + key + "\": ") && At(s, i, Render(v, depth, tab, fmt))
    requires e < |s| && Follows(s[e])
    requires s[j] == '"' && !IsWhitespace(s[i]) && s[i] != '\0'
    requires forall k :: st.pos.index < k < j ==> IsWhitespace(s[k])
    ensures st'.diag.None? && !st'.overrun
    ensures st'.pos.index + (if v.Object? then 1 else 0) == e
    ensures ObjectLoop(s, scan, st, acc) == ObjectLoop(s, scan, st', InsertIfAbsent(acc, key, v))
    decreases v, 4
  {
    var here := ObjectLoopMember(s, scan, st, acc, j);
    st' := MemberAtRereads(s, scan, tab, fmt, here, acc, key, v, depth, j, i, e);
  }

  /** One iteration of `read_object` that reads member `n`, from the top of the
      iteration: the object goes on from after the value with the member added, which
      appends it, and the next iteration finds the rest of the object after white space
      again. */
  lemma MemberStep(s: seq<char>, scan: NumberScanner, tab: string, fmt: Double -> string,
                   st: State, m: Entries, n: nat, depth: nat, j: nat) returns (st': State, j': nat)
    requires Terminated(s) && Blank(tab) && Rereadable(Object(m), scan, fmt) && n < |m|
    requires st.diag.None? && !st.overrun && st.pos.index < j
    requires At(s, j, ObjectAhead(m, n, depth, tab, fmt))
    requires forall k :: st.pos.index < k < j ==> IsWhitespace(s[k])
    ensures Ascending(m[..n]) && Ascending(m[..n + 1])
    ensures st'.diag.None? && !st'.overrun && st'.pos.index < j'
    ensures At(s, j', ObjectAhead(m, n + 1, depth, tab, fmt))
    ensures forall k :: st'.pos.index < k < j' ==> IsWhitespace(s[k])
    ensures j' + |ObjectAhead(m, n + 1, depth, tab, fmt)| == j + |ObjectAhead(m, n, depth, tab, fmt)|
    ensures ObjectLoop(s, scan, st, m[..n]) == ObjectLoop(s, scan, st', m[..n + 1])
    decreases Object(m), 0
  {
    MemberParts(m, n, scan, fmt);
    InsertNext(m, n);
    var i, e := MemberLayout(s, scan, tab, fmt, m, n, depth, j);
    st' := MemberRead(s, scan, tab, fmt, st, m[..n], m[n].0, m[n].1, depth + 1, j, i, e);
    j' := MemberLeave(s, tab, fmt, m, n, depth, j, st'.pos.index);
  }

  /** The loop of `read_object` from the top of the iteration that reads member `n`:
      the cursor sits before white space that ends at `j`, where the rest of the object
      begins. The loop gives back the whole object and stops on its `'}'`. */
  lemma {:induction false} MembersRereads(s: seq<char>, scan: NumberScanner, tab: string, fmt: Double -> string,
                                          st: State, m: Entries, n: nat, depth: nat, j: nat)
    requires Terminated(s) && Blank(tab) && Rereadable(Object(m), scan, fmt) && n <= |m|
    requires st.diag.None? && !st.overrun && st.pos.index < j
    requires At(s, j, ObjectAhead(m, n, depth, tab, fmt))
    requires forall k :: st.pos.index < k < j ==> IsWhitespace(s[k])
    ensures Ascending(m[..n])
    ensures var r := ObjectLoop(s, scan, st, m[..n]);
      && r.result == m && r.st.diag.None? && !r.st.overrun
      && r.st.pos.index == j + |ObjectAhead(m, n, depth, tab, fmt)| - 1
    decreases Object(m), 1, |m| - n
  {
    AscendingPrefix(m, n);
    if n < |m| {
      var st', j' := MemberStep(s, scan, tab, fmt, st, m, n, depth, j);
      MembersRereads(s, scan, tab, fmt, st', m, n + 1, depth, j');
    } else {
      AtChar(s, j, "}", 0);
      ObjectLoopClose(s, scan, st, m[..n], j);
      assert m[..n] == m;
    }
  }

  /** `json::read(json::write(v, tab))` gives back `v` with no diagnostic, for every value
      the reader can get back. The cursor ends at the end of the text, or on the final
      `'}'` of an object. */
  lemma WriteThenRead(v: Value, tab: string, fmt: Double -> string, scan: NumberScanner)
    requires Blank(tab) && Rereadable(v, scan, fmt)
    ensures var text := Render(v, 0, tab, fmt);
      var r := ReadText(text, scan);
      && r.Outcome? && r.value == v && r.diag.None?
      && r.pos.index == |text| - (if v.Object? then 1 else 0)
  {
    var text := Render(v, 0, tab, fmt);
    var s := text + ['\0'];
    assert s[0..|text|] == text;
    AtSlice(s, 0, text);
    ValueRereads(s, scan, tab, fmt, Start, v, 0, |text|);
  }

  /** The call `json::write(v)` with the default indent of two spaces reads back too. */
  lemma DefaultWriteThenRead(v: Value, fmt: Double -> string, scan: NumberScanner)
    requires Rereadable(v, scan, fmt)
    ensures var text := Render(v, 0, DefaultIndent, fmt); var r := ReadText(text, scan);
      && r.Outcome? && r.value == v && r.diag.None? && r.pos.index == |text| - (if v.Object? then 1 else 0)
  {
    assert DefaultIndent[0] == ' ' && DefaultIndent[1] == ' ';
    assert Blank(DefaultIndent);
    WriteThenRead(v, DefaultIndent, fmt, scan);
  }

  /** Why a nested object has to be the last child: the writer puts out `[{}, null]` as
      below, and the reader gives back `[{}]`. `read_object` stops on the `'}'`, the
      next `++pos` takes the `','` as the character after the element, the `','` case
      leaves the cursor on the `'n'`, the loop's `++pos` steps over it, and `ull` is
      stepped over one character at a time. */
  lemma NestedObjectDropsSibling(fmt: Double -> string, scan: NumberScanner)
    ensures var v := Array([Object([]), Null]);
      var text := Render(v, 0, "", fmt);
      && !Rereadable(v, scan, fmt)
      && text == "[\n{\n},\nnull\n]"
      && ReadText(text, scan) == Outcome(Array([Object([])]), Position(4, 1, 13), None)
  {
    var v := Array([Object([]), Null]);
    SiblingText(fmt);
    var text := "[\n{\n},\nnull\n]";
    var s := text + ['\0'];
    assert s[0] == '[' && s[1] == '\n' && s[2] == '{' && s[3] == '\n' && s[4] == '}' && s[5] == ',';
    assert s[6] == '\n' && s[7] == 'n' && s[8] == 'u' && s[9] == 'l' && s[10] == 'l' && s[11] == '\n';
    assert s[12] == ']' && s[13] == '\0' && |s| == 14;
    SiblingLoop(s, scan);
    ArrayHere(s, scan, Fresh);
    ReadFromFirst(text, scan);
  }

  /** The writer's text for `[{}, null]` with an empty indent string. */
  lemma SiblingText(fmt: Double -> string)
    ensures Render(Array([Object([]), Null]), 0, "", fmt) == "[\n{\n},\nnull\n]"
  {
    var a := [Object([]), Null];
    var first := Render(Object([]), 1, "", fmt);
    var second := Render(Null, 1, "", fmt);
    var tail := ElementsFrom(a, 1, 1, "", fmt);
    RenderContainers([], a, 0, "", fmt);
    RenderEmpty(1, "", fmt);
    RenderLeaves(Double(0), "", false, 1, "", fmt);
    assert Indentation("", 1) == "" && Indentation("", 0) == "";
    assert first == "{\n}" && second == "null";
    assert ElementsFrom(a, 2, 1, "", fmt) == "";
    assert tail == Lead(false, "", 1) + second + "";
    assert ElementsFrom(a, 0, 1, "", fmt) == Lead(true, "", 1) + first + tail;
    SiblingPieces(Lead(true, "", 1), Lead(false, "", 1), first, second, tail, ElementsFrom(a, 0, 1, "", fmt));
  }

  /** The characters of the pieces of `SiblingText`, put together. */
  lemma SiblingPieces(lead: string, comma: string, first: string, second: string, tail: string, inner: string)
    requires lead == "\n" && comma == ",\n" && first == "{\n}" && second == "null"
    requires tail == comma + second + "" && inner == lead + first + tail
    ensures "[" + inner + "\n" + "" + "]" == "[\n{\n},\nnull\n]"
  {
    assert tail == ",\nnull";
    assert inner == "\n{\n},\nnull";
  }

  /** The loop of `read_array` on the characters of `[\n{\n},\nnull\n]`. */
  lemma SiblingLoop(s: seq<char>, scan: NumberScanner)
    requires |s| == 14 && Terminated(s)
    requires s[0] == '[' && s[1] == '\n' && s[2] == '{' && s[3] == '\n' && s[4] == '}' && s[5] == ','
    requires s[6] == '\n' && s[7] == 'n' && s[8] == 'u' && s[9] == 'l' && s[10] == 'l' && s[11] == '\n'
    requires s[12] == ']'
    ensures ArrayLoop(s, scan, Fresh, []) == Parsed([Object([])], State(Position(4, 1, 13), None, false))
  {
    var acc := [Object([])];
    var done := Parsed(acc, State(Position(4, 1, 13), None, false));
    assert SkipWhitespace(s, Position(3, 4, 11)).1 == Position(4, 0, 12);
    ArrayStep(s, scan, State(Position(3, 3, 10), None, false), acc, Position(4, 0, 12));
    assert SkipWhitespace(s, Position(3, 3, 10)) == (true, Position(3, 3, 10));
    assert ArrayLoop(s, scan, State(Position(3, 2, 9), None, false), acc) == done;
    assert SkipWhitespace(s, Position(3, 2, 9)) == (true, Position(3, 2, 9));
    assert ArrayLoop(s, scan, State(Position(3, 1, 8), None, false), acc) == done;
    assert SkipWhitespace(s, Position(3, 1, 8)) == (true, Position(3, 1, 8));
    assert ArrayLoop(s, scan, State(Position(3, 0, 7), None, false), acc) == done;
    assert SkipWhitespace(s, Position(2, 1, 5)) == (true, Position(2, 1, 5));
    assert SkipWhitespace(s, Position(2, 2, 6)) == (true, Position(3, 0, 7));
    assert ArrayLoop(s, scan, State(Position(2, 0, 4), None, false), acc) == done;
    var inner := State(Position(1, 0, 2), None, false);
    assert SkipWhitespace(s, Position(1, 1, 3)).1 == Position(2, 0, 4);
    ObjectStep(s, scan, inner, [], Position(2, 0, 4));
    ObjectHere(s, scan, inner);
    assert SkipWhitespace(s, Position(1, 0, 2)) == (true, Position(1, 0, 2));
    assert ValueAt(s, scan, inner) == Parsed(Object([]), State(Position(2, 0, 4), None, false));
    assert SkipWhitespace(s, Position(0, 1, 1)).1 == Position(1, 0, 2);
    ArrayStep(s, scan, Fresh, [], Position(1, 0, 2));
    assert [] + [Object([])] == acc;
  }
}
