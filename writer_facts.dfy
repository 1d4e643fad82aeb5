/** The text the writer of `json.cpp` produces, described as a function of the value and
    the depth alone: what is already in the stream plays no part, each child sits on its
    own line behind the indentation for its depth, children are separated by commas,
    and the closing bracket sits on a line of its own. */
module WriterFacts {
  import opened JsonValue
  import opened JsonWriter

  /** What comes before each child of a container: a comma unless it is the first, a
      line feed, and the indentation for the child's depth. */
  function Lead(first: bool, tab: string, depth: nat): string
  {
    (if first then "" else ",") + "\n" + Indentation(tab, depth)
  }

  /** One member as `write_object` puts it out: the quoted key, `": "` and the value. */
  function MemberText(p: (string, Value), depth: nat, tab: string, fmt: Double -> string): string
  {
    "\"" + p.0 + "\": " + Render(p.1, depth, tab, fmt)
  }

  /** The members of an object from the `n`-th on, each behind its lead, in iteration
      order. */
  function MembersFrom(m: Entries, n: nat, depth: nat, tab: string, fmt: Double -> string): string
    requires n <= |m|
    decreases |m| - n
  {
    if n == |m| then "" else Lead(n == 0, tab, depth) + MemberText(m[n], depth, tab, fmt) + MembersFrom(m, n + 1, depth, tab, fmt)
  }

  /** The elements of an array from the `n`-th on, each behind its lead, in order. */
  function ElementsFrom(a: seq<Value>, n: nat, depth: nat, tab: string, fmt: Double -> string): string
    requires n <= |a|
    decreases |a| - n
  {
    if n == |a| then "" else Lead(n == 0, tab, depth) + Render(a[n], depth, tab, fmt) + ElementsFrom(a, n + 1, depth, tab, fmt)
  }

  lemma Assoc(a: string, b: string, c: string)
    ensures (a + b) + c == a + (b + c)
  {
  }

  /** The lead is what the loops put out before a child: the comma unless it is the
      first child, the line feed and `push`. */
  lemma LeadOnto(before: string, first: bool, tab: string, depth: nat)
    ensures (if first then before else before + ",") + "\n" + Indentation(tab, depth) == before + Lead(first, tab, depth)
  {
    var i := Indentation(tab, depth);
    if first {
      assert "" + "\n" == "\n";
      Assoc(before, "\n", i);
    } else {
      Assoc(before, ",", "\n");
      Assoc(before, "," + "\n", i);
    }
  }

  /** What `write_value` appends does not depend on what the stream already holds. */
  lemma {:induction false} RenderOntoAppends(out: string, v: Value, depth: nat, tab: string, fmt: Double -> string)
    ensures RenderOnto(out, v, depth, tab, fmt) == out + Render(v, depth, tab, fmt)
    decreases v
  {
    match v
    case Object(m) =>
      MembersOntoPrefix(out + "{", m, |m|, depth + 1, tab, fmt);
      MembersOntoPrefix("" + "{", m, |m|, depth + 1, tab, fmt);
      assert m[..|m|] == m;
      Wrap(out, "{", MembersFrom(m, 0, depth + 1, tab, fmt), Indentation(tab, depth), "}",
           MembersOnto(out + "{", m, depth + 1, tab, fmt), MembersOnto("" + "{", m, depth + 1, tab, fmt));
    case Array(a) =>
      ElementsOntoPrefix(out + "[", a, |a|, depth + 1, tab, fmt);
      ElementsOntoPrefix("" + "[", a, |a|, depth + 1, tab, fmt);
      assert a[..|a|] == a;
      Wrap(out, "[", ElementsFrom(a, 0, depth + 1, tab, fmt), Indentation(tab, depth), "]",
           ElementsOnto(out + "[", a, depth + 1, tab, fmt), ElementsOnto("" + "[", a, depth + 1, tab, fmt));
    case Number(d) =>
    case String(s) =>
      assert "" + "\"" == "\"";
      Assoc(out, "\"", s);
      Assoc(out, "\"" + s, "\"");
    case Bool(b) =>
    case Null =>
  }

  /** Regrouping the text of a container: its inner text put onto `out` and onto
      nothing. */
  lemma Wrap(out: string, open: string, t: string, i: string, close: string, x: string, y: string)
    requires x + "" == (out + open) + t && y + "" == ("" + open) + t
    ensures x + "\n" + i + close == out + (y + "\n" + i + close)
  {
    assert "" + open == open && x + "" == x && y + "" == y;
    Assoc(out, open, t);
    assert x == out + y;
    Assoc(out, y, "\n");
    Assoc(out, y + "\n", i);
    Assoc(out, y + "\n" + i, close);
  }

  /** After the first `n` members the stream holds what it held, then the text of those
      members; the rest of the members follow. */
  lemma {:induction false} MembersOntoPrefix(out: string, m: Entries, n: nat, depth: nat, tab: string, fmt: Double -> string)
    requires n <= |m|
    ensures MembersOnto(out, m[..n], depth, tab, fmt) + MembersFrom(m, n, depth, tab, fmt) ==
            out + MembersFrom(m, 0, depth, tab, fmt)
    decreases m, n
  {
    if n > 0 {
      var k := n - 1;
      assert m[..n][..k] == m[..k];
      assert m[k] in m;
      assert m[k].1 < m[k];
      MembersOntoPrefix(out, m, k, depth, tab, fmt);
      var before := MembersOnto(out, m[..k], depth, tab, fmt);
      var lead := Lead(k == 0, tab, depth);
      LeadOnto(before, k == 0, tab, depth);
      var sep := if k == 0 then before else before + ",";
      var head := sep + "\n" + Indentation(tab, depth) + "\"" + m[k].0 + "\": ";
      RenderOntoAppends(head, m[k].1, depth, tab, fmt);
      var r := Render(m[k].1, depth, tab, fmt);
      var item := MemberText(m[k], depth, tab, fmt);
      assert head + r == before + (lead + item) by {
        Assoc(before + lead, "\"", m[k].0);
        Assoc(before + lead, "\"" + m[k].0, "\": ");
        Assoc(before + lead, "\"" + m[k].0 + "\": ", r);
        Assoc(before, lead, item);
      }
      Assoc(before, lead + item, MembersFrom(m, n, depth, tab, fmt));
    } else {
      assert m[..0] == [];
    }
  }

  /** After the first `n` elements the stream holds what it held, then the text of those
      elements; the rest of the elements follow. */
  lemma {:induction false} ElementsOntoPrefix(out: string, a: seq<Value>, n: nat, depth: nat, tab: string, fmt: Double -> string)
    requires n <= |a|
    ensures ElementsOnto(out, a[..n], depth, tab, fmt) + ElementsFrom(a, n, depth, tab, fmt) ==
            out + ElementsFrom(a, 0, depth, tab, fmt)
    decreases a, n
  {
    if n > 0 {
      var k := n - 1;
      assert a[..n][..k] == a[..k];
      ElementsOntoPrefix(out, a, k, depth, tab, fmt);
      var before := ElementsOnto(out, a[..k], depth, tab, fmt);
      var lead := Lead(k == 0, tab, depth);
      LeadOnto(before, k == 0, tab, depth);
      RenderOntoAppends(before + lead, a[k], depth, tab, fmt);
      var r := Render(a[k], depth, tab, fmt);
      Assoc(before, lead, r);
      Assoc(before, lead + r, ElementsFrom(a, n, depth, tab, fmt));
    } else {
      assert a[..0] == [];
    }
  }

  /** `write_object` and `write_array`: the opening bracket, the children each behind its
      lead at one level deeper, then a line feed, the indentation for the container's
      own depth and the closing bracket. */
  lemma RenderContainers(m: Entries, a: seq<Value>, depth: nat, tab: string, fmt: Double -> string)
    ensures Render(Object(m), depth, tab, fmt) ==
            "{" + MembersFrom(m, 0, depth + 1, tab, fmt) + "\n" + Indentation(tab, depth) + "}"
    ensures Render(Array(a), depth, tab, fmt) ==
            "[" + ElementsFrom(a, 0, depth + 1, tab, fmt) + "\n" + Indentation(tab, depth) + "]"
  {
    MembersOntoPrefix("{", m, |m|, depth + 1, tab, fmt);
    ElementsOntoPrefix("[", a, |a|, depth + 1, tab, fmt);
    assert m[..|m|] == m && a[..|a|] == a;
    assert "" + "{" == "{" && "" + "[" == "[";
  }

  /** An empty container puts its closing bracket on the next line. */
  lemma RenderEmpty(depth: nat, tab: string, fmt: Double -> string)
    ensures Render(Object([]), depth, tab, fmt) == "{\n" + Indentation(tab, depth) + "}"
    ensures Render(Array([]), depth, tab, fmt) == "[\n" + Indentation(tab, depth) + "]"
  {
    RenderContainers([], [], depth, tab, fmt);
  }

  /** The leaves: `null`, `true`/`false`, the string between quotes with nothing escaped,
      and the number as `fmt` puts it. */
  lemma RenderLeaves(d: Double, s: string, b: bool, depth: nat, tab: string, fmt: Double -> string)
    ensures Render(Null, depth, tab, fmt) == "null"
    ensures Render(Bool(b), depth, tab, fmt) == if b then "true" else "false"
    ensures Render(String(s), depth, tab, fmt) == "\"" + s + "\""
    ensures Render(Number(d), depth, tab, fmt) == fmt(d)
  {
  }

  /** The indentation is made of the characters of the indent string. */
  lemma {:induction false} IndentationChars(tab: string, count: nat)
    ensures forall k :: 0 <= k < |Indentation(tab, count)| ==> Indentation(tab, count)[k] in tab
  {
    if count > 0 {
      IndentationChars(tab, count - 1);
      var prev := Indentation(tab, count - 1);
      forall k | 0 <= k < |Indentation(tab, count)|
        ensures Indentation(tab, count)[k] in tab
      {
        if k >= |prev| {
          assert Indentation(tab, count)[k] == tab[k - |prev|];
        }
      }
    }
  }
}
