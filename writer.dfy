/** The writer of `json.cpp`: `indent_t`, `push`, `write_object`, `write_array`,
    `write_value` and `json::write`.  What each puts to the stream is given as a function
    of the stream so far, the value and the depth (RenderOnto, MembersOnto, ElementsOnto),
    appending in the order the code does; the class Writer is proved to produce exactly
    that.  Module WriterFacts shows the same text as a function of the value and depth
    alone. */
module JsonWriter {
  import opened JsonValue

  /** `push`: the indent string repeated `count` times. */
  function Indentation(tab: string, count: nat): (r: string)
    ensures |r| == count * |tab|
  {
    if count == 0 then "" else Indentation(tab, count - 1) + tab
  }

  /** The stream after `write_value` has put out `v` at indentation depth `depth` onto
      `out`, step by step as the code appends. Numbers are put out by `fmt`, which
      stands for `std::setprecision(2048) << number`. */
  function RenderOnto(out: string, v: Value, depth: nat, tab: string, fmt: Double -> string): string
    decreases v
  {
    match v
    case Object(m) => MembersOnto(out + "{", m, depth + 1, tab, fmt) + "\n" + Indentation(tab, depth) + "}"
    case Array(a) => ElementsOnto(out + "[", a, depth + 1, tab, fmt) + "\n" + Indentation(tab, depth) + "]"
    case Number(d) => out + fmt(d)
    case String(s) => out + "\"" + s + "\""
    case Bool(b) => out + (if b then "true" else "false")
    case Null => out + "null"
  }

  /** The stream after the loop of `write_object` has put out the members `m`, in
      iteration order, onto `out`. */
  function MembersOnto(out: string, m: Entries, depth: nat, tab: string, fmt: Double -> string): string
    decreases m
  {
    if m == [] then out
    else
      var last := m[|m| - 1];
      assert last in m;
      assert last.1 < last;
      var before := MembersOnto(out, m[..|m| - 1], depth, tab, fmt);
      var sep := if |m| == 1 then before else before + ",";
      RenderOnto(sep + "\n" + Indentation(tab, depth) + "\"" + last.0 + "\": ", last.1, depth, tab, fmt)
  }

  /** The stream after the loop of `write_array` has put out the elements `a`, in order,
      onto `out`. */
  function ElementsOnto(out: string, a: seq<Value>, depth: nat, tab: string, fmt: Double -> string): string
    decreases a
  {
    if a == [] then out
    else
      var before := ElementsOnto(out, a[..|a| - 1], depth, tab, fmt);
      var sep := if |a| == 1 then before else before + ",";
      RenderOnto(sep + "\n" + Indentation(tab, depth), a[|a| - 1], depth, tab, fmt)
  }

  /** The text `write_value` puts out for `v` at depth `depth`. */
  function Render(v: Value, depth: nat, tab: string, fmt: Double -> string): string
  {
    RenderOnto("", v, depth, tab, fmt)
  }

  /** `indent_t` together with the `std::stringstream` it writes to. */
  class Writer {
    /** `indent.str`. */
    const tab: string
    /** Number output. */
    const fmt: Double -> string
    /** `indent.count`. */
    var count: nat
    /** What has been put to the stream so far. */
    var stream: string

    /** `indent_t indent(tab); std::stringstream stream;`. */
    constructor (tab: string, fmt: Double -> string)
      ensures this.tab == tab && this.fmt == fmt && count == 0 && stream == ""
    {
      this.tab := tab;
      this.fmt := fmt;
      count := 0;
      stream := "";
    }

    /** `push(indent, stream)`. */
    method Push()
      modifies this`stream
      ensures stream == old(stream) + Indentation(tab, count)
    {
      for i := 0 to count
        invariant stream == old(stream) + Indentation(tab, i)
      {
        stream := stream + tab;
      }
    }

    /** `write_value(value, indent, stream)`. */
    method WriteValue(v: Value)
      modifies this
      ensures count == old(count)
      ensures stream == RenderOnto(old(stream), v, count, tab, fmt)
      decreases v
    {
      match v
      case Object(m) =>
        WriteObject(m);
      case Array(a) =>
        WriteArray(a);
      case Number(d) =>
        stream := stream + fmt(d);
      case String(s) =>
        stream := stream + "\"" + s + "\"";
      case Bool(b) =>
        stream := stream + (if b then "true" else "false");
      case Null =>
        stream := stream + "null";
    }

    /** `write_object(object, indent, stream)`. */
    method WriteObject(m: Entries)
      modifies this
      ensures count == old(count)
      ensures stream == RenderOnto(old(stream), Object(m), count, tab, fmt)
      decreases m
    {
      stream := stream + "{";
      count := count + 1;
      var first := true;
      for i := 0 to |m|
        invariant count == old(count) + 1
        invariant first <==> i == 0
        invariant stream == MembersOnto(old(stream) + "{", m[..i], count, tab, fmt)
      {
        if !first {
          stream := stream + ",";
        }
        stream := stream + "\n";
        Push();
        stream := stream + "\"" + m[i].0 + "\": ";
        assert m[i] in m;
        assert m[i].1 < m[i];
        WriteValue(m[i].1);
        first := false;
        assert m[..i + 1][..i] == m[..i];
      }
      assert m[..|m|] == m;
      count := count - 1;
      stream := stream + "\n";
      Push();
      stream := stream + "}";
    }

    /** `write_array(array, indent, stream)`. */
    method WriteArray(a: seq<Value>)
      modifies this
      ensures count == old(count)
      ensures stream == RenderOnto(old(stream), Array(a), count, tab, fmt)
      decreases a
    {
      stream := stream + "[";
      count := count + 1;
      var first := true;
      for i := 0 to |a|
        invariant count == old(count) + 1
        invariant first <==> i == 0
        invariant stream == ElementsOnto(old(stream) + "[", a[..i], count, tab, fmt)
      {
        if !first {
          stream := stream + ",";
        }
        stream := stream + "\n";
        Push();
        WriteValue(a[i]);
        first := false;
        assert a[..i + 1][..i] == a[..i];
      }
      assert a[..|a|] == a;
      count := count - 1;
      stream := stream + "\n";
      Push();
      stream := stream + "]";
    }
  }

  /** The default indent string of `json::write`: two spaces. */
  const DefaultIndent: string := "  "

  /** `json::write(value)`: the default indent string. */
  method WriteDefault(v: Value, fmt: Double -> string) returns (text: string)
    ensures text == Render(v, 0, DefaultIndent, fmt)
  {
    text := Write(v, DefaultIndent, fmt);
  }

  /** `json::write(value, tab)`: render from depth 0. */
  method Write(v: Value, tab: string, fmt: Double -> string) returns (text: string)
    ensures text == Render(v, 0, tab, fmt)
  {
    var w := new Writer(tab, fmt);
    w.WriteValue(v);
    text := w.stream;
  }
}
