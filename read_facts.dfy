/** What the readers of `json.cpp` guarantee, and where they depart from JSON, stated
    about the functions of ReadSpec (and so, through the equalities proved in module
    Reader, about the imperative readers). */
module ReadFacts {
  import opened Wrappers
  import opened Cursor
  import opened JsonValue
  import opened ReadSpec

  // ---------------------------------------------------------------------------
  // Every value read is well formed: each object it holds keeps the std::map invariant.

  lemma {:induction false} ValueAtWellFormed(s: seq<char>, scan: NumberScanner, st: State)
    requires Ready(s, st)
    ensures WellFormed(ValueAt(s, scan, st).result)
    decreases |s| - st.pos.index, 3
  {
    var w := SkipWhitespace(s, st.pos);
    if w.0 {
      ValueOnWellFormed(s, scan, State(w.1, st.diag, false));
    }
  }

  lemma {:induction false} ValueOnWellFormed(s: seq<char>, scan: NumberScanner, st: State)
    requires Ready(s, st) && !IsWhitespace(s[st.pos.index]) && s[st.pos.index] != '\0'
    ensures WellFormed(ValueOn(s, scan, st).result)
    decreases |s| - st.pos.index, 2
  {
    var c := s[st.pos.index];
    if c == '{' {
      ObjectLoopWellFormed(s, scan, st, []);
      assert ValueOn(s, scan, st).result == Object(ObjectLoop(s, scan, st, []).result);
    } else if c == '[' {
      ArrayLoopWellFormed(s, scan, st, []);
      assert AllWellFormed(ArrayLoop(s, scan, st, []).result);
      assert ValueOn(s, scan, st).result == Array(ArrayLoop(s, scan, st, []).result);
    }
  }

  lemma {:induction false} ObjectLoopWellFormed(s: seq<char>, scan: NumberScanner, st: State, acc: Entries)
    requires Ready(s, st) && WellFormedEntries(acc)
    ensures WellFormedEntries(ObjectLoop(s, scan, st, acc).result)
    decreases |s| - st.pos.index, 1
  {
    var q := st.pos.Incr();
    if q.index < |s| {
      var w := SkipWhitespace(s, q);
      var p := w.1;
      if w.0 {
        if s[p.index] == ',' {
          var w' := SkipWhitespace(s, p.Incr());
          if w'.0 {
            ObjectLoopWellFormed(s, scan, State(w'.1, st.diag, false), acc);
          }
        } else if s[p.index] == '"' {
          MemberAtWellFormed(s, scan, State(p, st.diag, false), acc);
        } else if s[p.index] != '}' {
          ObjectLoopWellFormed(s, scan, State(p, st.diag, false), acc);
        }
      }
    }
  }

  lemma {:induction false} MemberAtWellFormed(s: seq<char>, scan: NumberScanner, st: State, acc: Entries)
    requires Ready(s, st) && s[st.pos.index] == '"' && WellFormedEntries(acc)
    ensures WellFormedEntries(MemberAt(s, scan, st, acc).result)
    decreases |s| - st.pos.index, 1
  {
    var key := StringToken(s, st);
    if key.st.diag.None? {
      var w1 := SkipWhitespace(s, key.st.pos);
      if w1.0 && s[w1.1.index] == ':' {
        var w2 := SkipWhitespace(s, w1.1.Incr());
        var vst := State(w2.1, if w2.0 then key.st.diag else Some(ValueBeforeEnd), false);
        var v := ValueAt(s, scan, vst);
        if !v.st.overrun {
          ValueAtWellFormed(s, scan, vst);
          InsertKeepsWellFormed(acc, key.result, v.result);
          ObjectLoopWellFormed(s, scan, v.st, InsertIfAbsent(acc, key.result, v.result));
        }
      }
    }
  }

  /** Every element is well formed. */
  predicate AllWellFormed(a: seq<Value>)
  {
    forall i | 0 <= i < |a| :: WellFormed(a[i])
  }

  lemma {:induction false} ArrayLoopWellFormed(s: seq<char>, scan: NumberScanner, st: State, acc: seq<Value>)
    requires Ready(s, st) && AllWellFormed(acc)
    ensures AllWellFormed(ArrayLoop(s, scan, st, acc).result)
    decreases |s| - st.pos.index, 1
  {
    var q := st.pos.Incr();
    if q.index < |s| {
      var w := SkipWhitespace(s, q);
      var p := w.1;
      var here := State(p, st.diag, false);
      if w.0 {
        if s[p.index] == ',' {
          var w' := SkipWhitespace(s, p.Incr());
          if w'.0 {
            ArrayLoopWellFormed(s, scan, State(w'.1, st.diag, false), acc);
          }
        } else if IsValueStart(s[p.index]) {
          var v := ValueAt(s, scan, here);
          if !v.st.overrun && v.st.diag.None? {
            ValueAtWellFormed(s, scan, here);
            assert AllWellFormed(acc + [v.result]) by {
              assert forall i | 0 <= i < |acc| :: (acc + [v.result])[i] == acc[i];
            }
            ArrayLoopWellFormed(s, scan, v.st, acc + [v.result]);
          }
        } else if s[p.index] != ']' {
          ArrayLoopWellFormed(s, scan, here, acc);
        }
      }
    }
  }

  /** `json::read` only ever hands back well-formed values. */
  lemma ReadWellFormed(text: string, scan: NumberScanner)
    ensures var r := ReadText(text, scan); r.Outcome? ==> WellFormed(r.value)
  {
    ValueAtWellFormed(text + ['\0'], scan, State(Start, None, false));
  }

  // ---------------------------------------------------------------------------
  // read_array

  /** `read_array` keeps the elements read so far, in order, in front of the ones it goes
      on to read; it returns one past `']'`; and any failure returns the empty array. */
  lemma {:induction false} ArrayLoopResult(s: seq<char>, scan: NumberScanner, st: State, acc: seq<Value>)
    requires Ready(s, st) && st.diag.None?
    ensures var r := ArrayLoop(s, scan, st, acc);
      && (r.st.diag.Some? || r.st.overrun ==> r.result == [])
      && (r.st.diag.None? && !r.st.overrun ==>
            |acc| <= |r.result| && r.result[..|acc|] == acc && s[r.st.pos.index - 1] == ']')
    decreases |s| - st.pos.index
  {
    var q := st.pos.Incr();
    if q.index < |s| {
      var w := SkipWhitespace(s, q);
      var p := w.1;
      var here := State(p, st.diag, false);
      if w.0 {
        if s[p.index] == ',' {
          var w' := SkipWhitespace(s, p.Incr());
          if w'.0 {
            ArrayLoopResult(s, scan, State(w'.1, st.diag, false), acc);
          }
        } else if IsValueStart(s[p.index]) {
          var v := ValueAt(s, scan, here);
          if !v.st.overrun && v.st.diag.None? {
            var acc' := acc + [v.result];
            ArrayLoopResult(s, scan, v.st, acc');
            var r := ArrayLoop(s, scan, v.st, acc').result;
            if |acc'| <= |r| && r[..|acc'|] == acc' {
              assert r[..|acc|] == acc'[..|acc|];
            }
          }
        } else if s[p.index] != ']' {
          ArrayLoopResult(s, scan, here, acc);
        }
      }
    }
  }

  // ---------------------------------------------------------------------------
  // read_object

  /** Members go in with `add(pair)`, which leaves a present key alone: a key's first
      value is the one kept, unless the whole read fails and returns the empty object. */
  lemma {:induction false} ObjectLoopKeepsFirst(s: seq<char>, scan: NumberScanner, st: State, acc: Entries, k: string)
    requires Ready(s, st) && Ascending(acc) && Lookup(acc, k).Some?
    ensures var r := ObjectLoop(s, scan, st, acc).result;
      r == [] || Lookup(r, k) == Lookup(acc, k)
    decreases |s| - st.pos.index, 1
  {
    var q := st.pos.Incr();
    if q.index < |s| {
      var w := SkipWhitespace(s, q);
      var p := w.1;
      if w.0 {
        if s[p.index] == ',' {
          var w' := SkipWhitespace(s, p.Incr());
          if w'.0 {
            ObjectLoopKeepsFirst(s, scan, State(w'.1, st.diag, false), acc, k);
          }
        } else if s[p.index] == '"' {
          MemberAtKeepsFirst(s, scan, State(p, st.diag, false), acc, k);
        } else if s[p.index] != '}' {
          ObjectLoopKeepsFirst(s, scan, State(p, st.diag, false), acc, k);
        }
      }
    }
  }

  lemma {:induction false} MemberAtKeepsFirst(s: seq<char>, scan: NumberScanner, st: State, acc: Entries, k: string)
    requires Ready(s, st) && s[st.pos.index] == '"' && Ascending(acc) && Lookup(acc, k).Some?
    ensures var r := MemberAt(s, scan, st, acc).result;
      r == [] || Lookup(r, k) == Lookup(acc, k)
    decreases |s| - st.pos.index, 1
  {
    var key := StringToken(s, st);
    if key.st.diag.None? {
      var w1 := SkipWhitespace(s, key.st.pos);
      if w1.0 && s[w1.1.index] == ':' {
        var w2 := SkipWhitespace(s, w1.1.Incr());
        var vst := State(w2.1, if w2.0 then key.st.diag else Some(ValueBeforeEnd), false);
        var v := ValueAt(s, scan, vst);
        if !v.st.overrun {
          InsertLookup(acc, key.result, v.result, k);
          ObjectLoopKeepsFirst(s, scan, v.st, InsertIfAbsent(acc, key.result, v.result), k);
        }
      }
    }
  }

  /** `read_object` returns on `'}'` without stepping over it. */
  lemma {:induction false} ObjectLoopStopsAtBrace(s: seq<char>, scan: NumberScanner, st: State, acc: Entries)
    requires Ready(s, st) && Ascending(acc) && st.diag.None?
    ensures var r := ObjectLoop(s, scan, st, acc).st;
      r.diag.None? && !r.overrun ==> s[r.pos.index] == '}'
    decreases |s| - st.pos.index, 1
  {
    var q := st.pos.Incr();
    if q.index < |s| {
      var w := SkipWhitespace(s, q);
      var p := w.1;
      if w.0 {
        if s[p.index] == ',' {
          var w' := SkipWhitespace(s, p.Incr());
          if w'.0 {
            ObjectLoopStopsAtBrace(s, scan, State(w'.1, st.diag, false), acc);
          }
        } else if s[p.index] == '"' {
          MemberAtStopsAtBrace(s, scan, State(p, st.diag, false), acc);
        } else if s[p.index] != '}' {
          ObjectLoopStopsAtBrace(s, scan, State(p, st.diag, false), acc);
        }
      }
    }
  }

  lemma {:induction false} MemberAtStopsAtBrace(s: seq<char>, scan: NumberScanner, st: State, acc: Entries)
    requires Ready(s, st) && s[st.pos.index] == '"' && Ascending(acc) && st.diag.None?
    ensures var r := MemberAt(s, scan, st, acc).st;
      r.diag.None? && !r.overrun ==> s[r.pos.index] == '}'
    decreases |s| - st.pos.index, 1
  {
    var key := StringToken(s, st);
    if key.st.diag.None? {
      var w1 := SkipWhitespace(s, key.st.pos);
      if w1.0 && s[w1.1.index] == ':' {
        var w2 := SkipWhitespace(s, w1.1.Incr());
        var vst := State(w2.1, if w2.0 then key.st.diag else Some(ValueBeforeEnd), false);
        var v := ValueAt(s, scan, vst);
        if !v.st.overrun && v.st.diag.None? {
          ObjectLoopStopsAtBrace(s, scan, v.st, InsertIfAbsent(acc, key.result, v.result));
        }
      }
    }
  }

  // ---------------------------------------------------------------------------
  // read_string and read_value

  /** `read_string` returns exactly what lies between the quotes, backslashes and all,
      and leaves the cursor one past the closing quote. */
  lemma StringContents(s: seq<char>, st: State, j: nat)
    requires Ready(s, st) && s[st.pos.index] == '"'
    requires st.pos.index < j < |s| && s[j] == '"'
    requires forall k :: st.pos.index < k < j ==> s[k] != '"' && s[k] != '\0'
    ensures StringToken(s, st) ==
            Parsed(s[st.pos.index + 1..j], State(st.pos.Advance(j + 1 - st.pos.index), st.diag, false))
  {
    assert StringEnd(s, st.pos.index + 1) == j;
  }

  /** A string that meets the terminator first sets the diagnostic and reads as empty,
      with the cursor on the terminator. */
  lemma StringUnterminated(s: seq<char>, st: State, j: nat)
    requires Ready(s, st) && s[st.pos.index] == '"'
    requires st.pos.index < j < |s| && s[j] == '\0'
    requires forall k :: st.pos.index < k < j ==> s[k] != '"' && s[k] != '\0'
    ensures StringToken(s, st) ==
            Parsed("", State(st.pos.Advance(j - st.pos.index), Some(UnterminatedString), false))
  {
    assert StringEnd(s, st.pos.index + 1) == j;
  }

  /** The `'t'` case of `read_value` on `true` spelt out in full: `Bool(true)`, four
      characters on. */
  lemma TrueWord(s: seq<char>, st: State)
    requires Ready(s, st) && st.pos.index + 4 < |s| && s[st.pos.index..st.pos.index + 4] == "true"
    ensures s[st.pos.index] == 't'
    ensures LiteralAt(s, st, 't') == Parsed(Bool(true), State(st.pos.Advance(4), st.diag, false))
  {
    var i := st.pos.index;
    assert s[i] == 't' && s[i + 1] == 'r' && s[i + 2] == 'u' && s[i + 3] == 'e' by {
      var w := s[i..i + 4];
      assert w[0] == s[i] && w[1] == s[i + 1] && w[2] == s[i + 2] && w[3] == s[i + 3];
    }
  }

  /** The `'f'` case of `read_value` on `false` spelt out in full: `Bool(false)`, five
      characters on. */
  lemma FalseWord(s: seq<char>, st: State)
    requires Ready(s, st) && st.pos.index + 5 < |s| && s[st.pos.index..st.pos.index + 5] == "false"
    ensures s[st.pos.index] == 'f'
    ensures LiteralAt(s, st, 'f') == Parsed(Bool(false), State(st.pos.Advance(5), st.diag, false))
  {
    var i := st.pos.index;
    assert s[i] == 'f' && s[i + 1] == 'a' && s[i + 2] == 'l' && s[i + 3] == 's' && s[i + 4] == 'e' by {
      var w := s[i..i + 5];
      assert w[0] == s[i] && w[1] == s[i + 1] && w[2] == s[i + 2] && w[3] == s[i + 3] && w[4] == s[i + 4];
    }
  }

  /** The `'n'` case of `read_value` on `null` spelt out in full: `Null`, four characters
      on. */
  lemma NullWord(s: seq<char>, st: State)
    requires Ready(s, st) && st.pos.index + 4 < |s| && s[st.pos.index..st.pos.index + 4] == "null"
    ensures s[st.pos.index] == 'n'
    ensures LiteralAt(s, st, 'n') == Parsed(Null, State(st.pos.Advance(4), st.diag, false))
  {
    var i := st.pos.index;
    assert s[i] == 'n' && s[i + 1] == 'u' && s[i + 2] == 'l' && s[i + 3] == 'l' by {
      var w := s[i..i + 4];
      assert w[0] == s[i] && w[1] == s[i + 1] && w[2] == s[i + 2] && w[3] == s[i + 3];
    }
  }

  /** Text that is only white space reads as Null with the end-of-stream diagnostic, with
      the cursor on the terminator. */
  lemma OnlyWhitespace(text: string, scan: NumberScanner)
    requires forall k :: 0 <= k < |text| ==> IsWhitespace(text[k])
    ensures var r := ReadText(text, scan);
      && r == Outcome(Null, r.pos, Some(EndInValue))
      && r.pos.index == |text| && r.pos.line == NewlineCount(text)
  {
    var s := text + ['\0'];
    SkipWhitespaceStop(s, Start, |text|);
    SkipWhitespaceCursor(s, Start);
    assert s[0..|text|] == text;
  }

  /** A first character that can start no value reads as Null with the unexpected
      character diagnostic, with the cursor on that character. */
  lemma UnexpectedStart(text: string, scan: NumberScanner, j: nat)
    requires j < |text| && forall k :: 0 <= k < j ==> IsWhitespace(text[k])
    requires !IsWhitespace(text[j]) && text[j] != '\0' && !IsValueStart(text[j])
    ensures var r := ReadText(text, scan);
      r == Outcome(Null, r.pos, Some(UnexpectedInValue)) && r.pos.index == j
  {
    var s := text + ['\0'];
    assert s[j] == text[j];
    SkipWhitespaceStop(s, Start, j);
    var p := SkipWhitespace(s, Start).1;
    assert ValueAt(s, scan, State(Start, None, false)) == ValueOn(s, scan, State(p, None, false));
    assert ValueOn(s, scan, State(p, None, false)) == Parsed(Null, State(p, Some(UnexpectedInValue), false));
  }
}
