/** The readers of `json.cpp` as they run: a `Parser` holds the buffer `str`, the
    cursor `pos` and the diagnostic `diag` that the C++ functions pass by reference, and
    each reader is a method that moves them on.  Every method is proved to leave exactly
    the state, and return exactly the value, that its function in ReadSpec describes. */
module Reader {
  import opened Wrappers
  import opened Cursor
  import opened JsonValue
  import opened ReadSpec

  class Parser {
    /** `string.c_str()`: the text with its terminator. */
    const str: seq<char>
    /** `strtod`. */
    const scan: NumberScanner
    /** `position_t &pos`. */
    var pos: Position
    /** `diagnostic_t &diag`. */
    var diag: Option<Message>
    /** Set once the code has stepped past the terminator. */
    var overrun: bool

    /** The reader state as ReadSpec sees it. */
    function Snapshot(): State
      reads this
    {
      State(pos, diag, overrun)
    }

    /** A fresh `position_t` and `diagnostic_t` on `text`'s buffer. */
    constructor (text: string, scan: NumberScanner)
      ensures str == text + ['\0'] && this.scan == scan
      ensures Snapshot() == State(Start, None, false)
    {
      str := text + ['\0'];
      this.scan := scan;
      pos := Start;
      diag := None;
      overrun := false;
    }

    /** `consume_whitespace(str, pos)`. */
    method ConsumeWhitespace() returns (more: bool)
      requires Terminated(str) && pos.index < |str|
      modifies this`pos
      ensures (more, pos) == SkipWhitespace(str, old(pos))
    {
      ghost var goal := SkipWhitespace(str, pos);
      while true
        invariant pos.index < |str| && SkipWhitespace(str, pos) == goal
        decreases |str| - pos.index
      {
        var c := str[pos.index];
        if c == ' ' || c == '\t' {
          pos := pos.Incr();
        } else if c == '\n' {
          pos := pos.NextLine();
        } else {
          return c != '\0';
        }
      }
    }

    /** `read_string(str, pos, diag)`, entered on the opening quote. */
    method ReadString() returns (s: string)
      requires Ready(str, Snapshot()) && str[pos.index] == '"'
      modifies this
      ensures Parsed(s, Snapshot()) == StringToken(str, old(Snapshot()))
    {
      var open := pos;
      pos := pos.Incr();
      var start := pos.index;
      while true
        invariant start <= pos.index < |str|
        invariant StringEnd(str, pos.index) == StringEnd(str, start)
        invariant pos == open.Advance(pos.index - open.index)
        invariant diag == old(diag) && overrun == old(overrun)
        decreases |str| - pos.index
      {
        var c := str[pos.index];
        if c == '"' {
          s := str[start..pos.index];
          pos := pos.Incr();
          return;
        } else if c == '\0' {
          diag := Some(UnterminatedString);
          return "";
        }
        pos := pos.Incr();
      }
    }

    /** `read_number(str, pos, diag)`: `strtod` from the cursor, then
        `pos += end - start`. */
    method ReadNumber() returns (d: Double)
      requires Ready(str, Snapshot())
      modifies this
      ensures Parsed(d, Snapshot()) == NumberToken(str, scan, old(Snapshot()))
    {
      var scanned := scan(str[pos.index..]);
      d := scanned.0;
      pos := pos.Advance(scanned.1);
    }

    /** `read_value(str, pos, diag)`. */
    method ReadValue() returns (v: Value)
      requires Ready(str, Snapshot())
      modifies this
      ensures Parsed(v, Snapshot()) == ValueAt(str, scan, old(Snapshot()))
      decreases |str| - pos.index, 3
    {
      var more := ConsumeWhitespace();
      if !more {
        diag := Some(EndInValue);
        return Null;
      }
      var i := pos.index;
      var c := str[i];
      if c == '{' {
        var o := ReadObject();
        return Object(o.entries);
      } else if c == '[' {
        var a := ReadArray();
        return Array(a.elements);
      } else if IsNumberStart(c) {
        var d := ReadNumber();
        return Number(d);
      } else if c == '"' {
        var s := ReadString();
        return String(s);
      } else if c == 't' || c == 'f' || c == 'n' {
        // No case ends in `break`: a spelling that does not match falls through.
        if c == 't' && str[i + 1] == 'r' && str[i + 2] == 'u' && str[i + 3] == 'e' {
          pos := pos.Advance(4);
          return Bool(true);
        }
        if c != 'n' && str[i + 1] == 'a' && str[i + 2] == 'l' && str[i + 3] == 's' && str[i + 4] == 'e' {
          pos := pos.Advance(5);
          return Bool(false);
        }
        if str[i + 1] == 'u' && str[i + 2] == 'l' && str[i + 3] == 'l' {
          pos := pos.Advance(4);
          return Null;
        }
        diag := Some(NullTerminatorInValue);
        return Null;
      } else {
        diag := Some(UnexpectedInValue);
        return Null;
      }
    }

    /** `read_object(str, pos, diag)`, entered on `'{'`. */
    method ReadObject() returns (obj: JsonObject)
      requires Ready(str, Snapshot())
      modifies this
      ensures fresh(obj)
      ensures Parsed(obj.entries, Snapshot()) == ObjectLoop(str, scan, old(Snapshot()), [])
      decreases |str| - pos.index, 1
    {
      obj := new JsonObject();
      ghost var goal := ObjectLoop(str, scan, Snapshot(), obj.entries);
      while true
        invariant Ready(str, Snapshot()) && old(pos.index) <= pos.index
        invariant fresh(obj) && obj.Valid()
        invariant ObjectLoop(str, scan, Snapshot(), obj.entries) == goal
        decreases |str| - pos.index
      {
        ghost var top := Snapshot();
        pos := pos.Incr();
        if pos.index >= |str| {
          overrun := true;
          obj := new JsonObject();
          return;
        }
        var more := ConsumeWhitespace();
        if !more {
          diag := Some(NoObjectTerminator);
          obj := new JsonObject();
          return;
        }
        var c := str[pos.index];
        if c == ',' {
          pos := pos.Incr();
          more := ConsumeWhitespace();
          if !more {
            diag := Some(EndInObject);
            obj := new JsonObject();
            return;
          }
        } else if c == '"' {
          assert ObjectLoop(str, scan, top, obj.entries) == MemberAt(str, scan, Snapshot(), obj.entries);
          var stop := ReadMember(obj);
          if stop {
            obj := new JsonObject();
            return;
          }
        } else if c == '}' {
          return;
        }
      }
    }

    /** The `'"'` case of `read_object`: key, `':'`, value, and `object.add`. Answers
        whether `read_object` returns (with the empty object) rather than loop on. */
    method ReadMember(obj: JsonObject) returns (stop: bool)
      requires Ready(str, Snapshot()) && str[pos.index] == '"' && obj.Valid()
      modifies this, obj
      ensures obj.Valid()
      ensures stop ==> Parsed([], Snapshot()) == MemberAt(str, scan, old(Snapshot()), old(obj.entries))
      ensures !stop ==> Ready(str, Snapshot()) && old(pos.index) < pos.index
      ensures !stop ==> ObjectLoop(str, scan, Snapshot(), obj.entries) == MemberAt(str, scan, old(Snapshot()), old(obj.entries))
      decreases |str| - pos.index, 2
    {
      var key := ReadString();
      if diag.Some? {
        return true;
      }
      var more := ConsumeWhitespace();
      if !more {
        diag := Some(ColonBeforeEnd);
        return true;
      }
      if str[pos.index] != ':' {
        diag := Some(ExpectedColon);
        return true;
      }
      pos := pos.Incr();
      more := ConsumeWhitespace();
      if !more {
        diag := Some(ValueBeforeEnd);
      }
      var value := ReadValue();
      if overrun {
        return true;
      }
      obj.AddPair((key, value));
      return false;
    }

    /** `read_array(str, pos, diag)`, entered on `'['`. */
    method ReadArray() returns (arr: JsonArray)
      requires Ready(str, Snapshot())
      modifies this
      ensures fresh(arr)
      ensures Parsed(arr.elements, Snapshot()) == ArrayLoop(str, scan, old(Snapshot()), [])
      decreases |str| - pos.index, 1
    {
      arr := new JsonArray();
      ghost var goal := ArrayLoop(str, scan, Snapshot(), arr.elements);
      while true
        invariant Ready(str, Snapshot()) && old(pos.index) <= pos.index
        invariant fresh(arr)
        invariant ArrayLoop(str, scan, Snapshot(), arr.elements) == goal
        decreases |str| - pos.index
      {
        pos := pos.Incr();
        if pos.index >= |str| {
          overrun := true;
          arr := new JsonArray();
          return;
        }
        var more := ConsumeWhitespace();
        if !more {
          diag := Some(EndInArray);
          arr := new JsonArray();
          return;
        }
        var c := str[pos.index];
        if c == ',' {
          pos := pos.Incr();
          more := ConsumeWhitespace();
          if !more {
            diag := Some(EndInArray);
            arr := new JsonArray();
            return;
          }
        } else if IsValueStart(c) {
          var value := ReadValue();
          if overrun || diag.Some? {
            arr := new JsonArray();
            return;
          }
          arr.Append(value);
        } else if c == ']' {
          pos := pos.Incr();
          return;
        }
        // Every other character has no case (the default label is misspelt) and is
        // stepped over by the next `++pos`.
      }
    }
  }

  /** `json::read(string)`: read one value from a fresh cursor. The code prints the
      diagnostic to `stderr`; here it is returned with the cursor. */
  method Read(text: string, scan: NumberScanner) returns (r: Outcome)
    ensures r == ReadText(text, scan)
  {
    var parser := new Parser(text, scan);
    var v := parser.ReadValue();
    if parser.overrun {
      r := Undefined(parser.pos);
    } else {
      r := Outcome(v, parser.pos, parser.diag);
    }
  }
}
