/** The value model of `json.hpp`: the tag `json::type`, the tagged union `json::value`,
    and the two containers `json::object` (a `std::map` from string keys) and
    `json::array` (a `std::vector`).  Payloads are held by value: copying a Value copies
    its tree. */
module JsonValue {
  import opened Wrappers
  import StringOrder

  /** A 64-bit floating-point number, kept as its bit pattern and never interpreted. */
  datatype Double = Double(bits: bv64)

  /** `json::type`. */
  datatype Kind = TypeObject | TypeArray | TypeNumber | TypeString | TypeBool | TypeNull

  /** The entries of a `json::object` in iteration order. */
  type Entries = seq<(string, Value)>

  /** `json::value`: exactly one payload, fixed by the constructor. */
  datatype Value =
    | Object(members: Entries)
    | Array(elements: seq<Value>)
    | Number(number: Double)
    | String(str: string)
    | Bool(boolean: bool)
    | Null

  /** `value::type()`. */
  function TypeOf(v: Value): Kind
  {
    match v
    case Object(_) => TypeObject
    case Array(_) => TypeArray
    case Number(_) => TypeNumber
    case String(_) => TypeString
    case Bool(_) => TypeBool
    case Null => TypeNull
  }

  /** Each constructor of `json::value` fixes the kind once; the default one gives Null. */
  lemma ConstructorKinds(m: Entries, a: seq<Value>, d: Double, s: string, b: bool)
    ensures TypeOf(Null) == TypeNull
    ensures TypeOf(Object(m)) == TypeObject && TypeOf(Array(a)) == TypeArray
    ensures TypeOf(Number(d)) == TypeNumber && TypeOf(String(s)) == TypeString
    ensures TypeOf(Bool(b)) == TypeBool
  {
  }

  /** `value(json::pair)`: the pair is inserted into an empty object, giving a
      single-entry Object. */
  function FromPair(p: (string, Value)): (v: Value)
    ensures TypeOf(v) == TypeObject && |v.members| == 1
    ensures Ascending(v.members) && Lookup(v.members, p.0) == Some(p.1)
  {
    InsertLookup([], p.0, p.1, p.0);
    Object(InsertIfAbsent([], p.0, p.1))
  }

  // The payload accessors are casts of the store, valid only for the matching kind.

  /** `value::object()`. */
  function AsObject(v: Value): (m: Entries)
    requires TypeOf(v) == TypeObject
    ensures Object(m) == v
  {
    v.members
  }

  /** `value::array()`. */
  function AsArray(v: Value): (a: seq<Value>)
    requires TypeOf(v) == TypeArray
    ensures Array(a) == v
  {
    v.elements
  }

  /** `value::number()`. */
  function AsNumber(v: Value): (d: Double)
    requires TypeOf(v) == TypeNumber
    ensures Number(d) == v
  {
    v.number
  }

  /** `value::string()`. */
  function AsString(v: Value): (s: string)
    requires TypeOf(v) == TypeString
    ensures String(s) == v
  {
    v.str
  }

  /** `value::boolean()`. */
  function AsBool(v: Value): (b: bool)
    requires TypeOf(v) == TypeBool
    ensures Bool(b) == v
  {
    v.boolean
  }

  // ---------------------------------------------------------------------------
  // json::object as a std::map: strictly ascending keys

  /** The invariant of `std::map`: keys strictly ascending in iteration order. */
  predicate Ascending(m: Entries)
  {
    forall i, j {:trigger StringOrder.Less(m[i].0, m[j].0)} :: 0 <= i < j < |m| ==> StringOrder.Less(m[i].0, m[j].0)
  }

  /** The entries of an object as the container keeps them: ascending keys and
      well-formed values. */
  predicate WellFormedEntries(m: Entries)
  {
    Ascending(m) && forall i | 0 <= i < |m| :: assert m[i] in m; assert m[i].1 < m[i]; WellFormed(m[i].1)
  }

  /** Every object in the tree satisfies the `std::map` invariant. */
  predicate WellFormed(v: Value)
  {
    match v
    case Object(m) => WellFormedEntries(m)
    case Array(a) => forall i | 0 <= i < |a| :: WellFormed(a[i])
    case _ => true
  }

  /** The value stored under a key, if any. */
  function Lookup(m: Entries, key: string): (r: Option<Value>)
    ensures r.Some? ==> exists i :: 0 <= i < |m| && m[i] == (key, r.value)
    ensures r.None? <==> forall i :: 0 <= i < |m| ==> m[i].0 != key
  {
    if m == [] then None
    else if m[0].0 == key then Some(m[0].1)
    else Lookup(m[1..], key)
  }

  /** Iteration visits each key once: in an ascending sequence no key repeats. */
  lemma AscendingKeysDistinct(m: Entries, i: int, j: int)
    requires Ascending(m) && 0 <= i < |m| && 0 <= j < |m| && i != j
    ensures m[i].0 != m[j].0
  {
    if i < j {
      StringOrder.Irreflexive(m[i].0);
    } else {
      StringOrder.Irreflexive(m[j].0);
    }
  }

  /** In an ascending sequence a key is found exactly at its one position. */
  lemma LookupAt(m: Entries, i: int)
    requires Ascending(m) && 0 <= i < |m|
    ensures Lookup(m, m[i].0) == Some(m[i].1)
  {
    var r := Lookup(m, m[i].0);
    var j :| 0 <= j < |m| && m[j] == (m[i].0, r.value);
    if j != i {
      AscendingKeysDistinct(m, i, j);
    }
  }

  /** Every key of `m` is above `key`. */
  predicate Above(key: string, m: Entries)
  {
    forall i :: 0 <= i < |m| ==> StringOrder.Less(key, m[i].0)
  }

  lemma AboveHead(m: Entries)
    requires Ascending(m) && m != []
    ensures Above(m[0].0, m[1..])
  {
  }

  lemma AboveBelowHead(key: string, m: Entries)
    requires Ascending(m) && m != [] && StringOrder.Less(key, m[0].0)
    ensures Above(key, m)
  {
    forall i | 0 < i < |m| ensures StringOrder.Less(key, m[i].0) {
      StringOrder.Transitive(key, m[0].0, m[i].0);
    }
  }

  lemma AboveNotFound(key: string, m: Entries)
    requires Above(key, m)
    ensures Lookup(m, key).None?
  {
    forall i | 0 <= i < |m| ensures m[i].0 != key {
      StringOrder.Irreflexive(key);
    }
  }

  lemma ConsAscending(e: (string, Value), m: Entries)
    requires Ascending(m) && Above(e.0, m)
    ensures Ascending([e] + m)
  {
  }

  /** `mEntries[key] = value`: replace the entry for `key`, or insert it in key order. */
  function Upsert(m: Entries, key: string, v: Value): (r: Entries)
    requires Ascending(m)
    ensures Ascending(r)
    ensures forall i :: 0 <= i < |r| ==> r[i] == (key, v) || r[i] in m
    ensures (key, v) in r
    ensures forall e :: e in m && e.0 != key ==> e in r
    ensures |r| == if Lookup(m, key).Some? then |m| else |m| + 1
  {
    if m == [] then [(key, v)]
    else if m[0].0 == key then
      AboveHead(m);
      AboveNotFound(key, m[1..]);
      ConsAscending((key, v), m[1..]);
      assert forall e :: e in m && e.0 != key ==> e in m[1..] by {
        assert m == [m[0]] + m[1..];
      }
      [(key, v)] + m[1..]
    else if StringOrder.Less(key, m[0].0) then
      AboveBelowHead(key, m);
      AboveNotFound(key, m);
      [(key, v)] + m
    else
      StringOrder.Total(key, m[0].0);
      AboveHead(m);
      var rest := Upsert(m[1..], key, v);
      assert Above(m[0].0, rest);
      ConsAscending(m[0], rest);
      assert m == [m[0]] + m[1..];
      [m[0]] + rest
  }

  /** Lookup after an upsert: the new value under `key`, every other key as before. */
  lemma UpsertLookup(m: Entries, key: string, v: Value, k: string)
    requires Ascending(m)
    ensures Lookup(Upsert(m, key, v), k) == if k == key then Some(v) else Lookup(m, k)
  {
    var r := Upsert(m, key, v);
    var i :| 0 <= i < |r| && r[i] == (key, v);
    if k == key {
      LookupAt(r, i);
    } else {
      match Lookup(m, k)
      case Some(w) =>
        var j :| 0 <= j < |m| && m[j] == (k, w);
        assert m[j] in r;
        var j' :| 0 <= j' < |r| && r[j'] == m[j];
        LookupAt(r, j');
      case None =>
        forall j | 0 <= j < |r| ensures r[j].0 != k {
        }
    }
  }

  /** `mEntries.insert(pair)`: add the entry only when the key is absent. */
  function InsertIfAbsent(m: Entries, key: string, v: Value): (r: Entries)
    requires Ascending(m)
    ensures Ascending(r)
    ensures Lookup(m, key).Some? ==> r == m
    ensures Lookup(m, key).None? ==> |r| == |m| + 1
    ensures forall i :: 0 <= i < |r| ==> r[i] == (key, v) || r[i] in m
  {
    if Lookup(m, key).Some? then m else Upsert(m, key, v)
  }

  /** Lookup after an insert: an existing key keeps its value, an absent one gets `v`. */
  lemma InsertLookup(m: Entries, key: string, v: Value, k: string)
    requires Ascending(m)
    ensures Lookup(InsertIfAbsent(m, key, v), k) ==
            if k == key && Lookup(m, key).None? then Some(v) else Lookup(m, k)
  {
    if Lookup(m, key).None? {
      UpsertLookup(m, key, v, k);
    }
  }

  /** Inserting values that keep the tree well formed keeps the entries well formed. */
  lemma InsertKeepsWellFormed(m: Entries, key: string, v: Value)
    requires WellFormedEntries(m) && WellFormed(v)
    ensures WellFormedEntries(InsertIfAbsent(m, key, v))
  {
    var r := InsertIfAbsent(m, key, v);
    forall i | 0 <= i < |r| ensures WellFormed(r[i].1) {
      if r[i] != (key, v) {
        var j :| 0 <= j < |m| && m[j] == r[i];
      }
    }
  }

  /** A key above every key of `m` is added at the end. */
  lemma InsertAbove(m: Entries, key: string, v: Value)
    requires Ascending(m)
    requires forall i :: 0 <= i < |m| ==> StringOrder.Less(m[i].0, key)
    ensures InsertIfAbsent(m, key, v) == m + [(key, v)]
  {
    forall i | 0 <= i < |m| ensures m[i].0 != key {
      StringOrder.Irreflexive(key);
    }
    UpsertAbove(m, key, v);
  }

  /** Past a head below `key`, the upsert goes on in the tail. */
  lemma UpsertPastHead(m: Entries, key: string, v: Value)
    requires Ascending(m) && m != [] && StringOrder.Less(m[0].0, key)
    ensures Ascending(m[1..])
    ensures Upsert(m, key, v) == [m[0]] + Upsert(m[1..], key, v)
  {
    StringOrder.Irreflexive(key);
    StringOrder.Asymmetric(m[0].0, key);
  }

  lemma UpsertAbove(m: Entries, key: string, v: Value)
    requires Ascending(m)
    requires forall i :: 0 <= i < |m| ==> StringOrder.Less(m[i].0, key)
    ensures Upsert(m, key, v) == m + [(key, v)]
    decreases |m|
  {
    if m != [] {
      var tail := m[1..];
      UpsertPastHead(m, key, v);
      assert forall i :: 0 <= i < |tail| ==> StringOrder.Less(tail[i].0, key) by {
        assert forall i :: 0 <= i < |tail| ==> tail[i] == m[i + 1];
      }
      UpsertAbove(tail, key, v);
      assert m == [m[0]] + tail;
    }
  }

  // ---------------------------------------------------------------------------
  // The containers, updated in place

  /** `json::object`. */
  class JsonObject {
    var entries: Entries

    ghost predicate Valid()
      reads this
    {
      Ascending(entries)
    }

    /** `object()`. */
    constructor ()
      ensures Valid() && entries == []
    {
      entries := [];
    }

    /** `object(std::string key, json::value value)`. */
    constructor Entry(key: string, v: Value)
      ensures Valid() && entries == [(key, v)]
    {
      entries := Upsert([], key, v);
    }

    /** `object(json::pair pair)`. */
    constructor FromPair(p: (string, Value))
      ensures Valid() && entries == [p]
    {
      entries := InsertIfAbsent([], p.0, p.1);
    }

    /** `add(key, value)`: an upsert. */
    method Add(key: string, v: Value)
      requires Valid()
      modifies this
      ensures Valid()
      ensures entries == Upsert(old(entries), key, v)
      ensures Lookup(entries, key) == Some(v)
      ensures forall k :: k != key ==> Lookup(entries, k) == Lookup(old(entries), k)
    {
      var before := entries;
      entries := Upsert(entries, key, v);
      UpsertLookup(before, key, v, key);
      forall k | k != key ensures Lookup(entries, k) == Lookup(before, k) {
        UpsertLookup(before, key, v, k);
      }
    }

    /** `add(pair)`: inserts only when the key is absent. */
    method AddPair(p: (string, Value))
      requires Valid()
      modifies this
      ensures Valid()
      ensures entries == InsertIfAbsent(old(entries), p.0, p.1)
      ensures Lookup(old(entries), p.0).Some? ==> entries == old(entries)
      ensures Lookup(old(entries), p.0).None? ==> Lookup(entries, p.0) == Some(p.1)
      ensures forall k :: k != p.0 ==> Lookup(entries, k) == Lookup(old(entries), k)
    {
      var before := entries;
      entries := InsertIfAbsent(entries, p.0, p.1);
      InsertLookup(before, p.0, p.1, p.0);
      forall k | k != p.0 ensures Lookup(entries, k) == Lookup(before, k) {
        InsertLookup(before, p.0, p.1, k);
      }
    }

    /** `get(key)`: `std::map::at` throws `std::out_of_range` for an absent key. */
    function Get(key: string): (r: Access<Value>)
      reads this
      ensures r.Ok? <==> exists i :: 0 <= i < |entries| && entries[i].0 == key
      ensures r.Ok? ==> exists i :: 0 <= i < |entries| && entries[i] == (key, r.value)
    {
      match Lookup(entries, key)
      case Some(v) => Ok(v)
      case None => OutOfRange
    }

    /** `begin()` .. `end()`: every entry in iteration order, each key once and ascending. */
    function Items(): (items: Entries)
      reads this
      requires Valid()
      ensures forall i, j :: 0 <= i < j < |items| ==> StringOrder.Less(items[i].0, items[j].0)
      ensures forall i, j :: 0 <= i < |items| && 0 <= j < |items| && i != j ==> items[i].0 != items[j].0
      ensures forall i :: 0 <= i < |items| ==> Get(items[i].0) == Ok(items[i].1)
      ensures forall k :: Get(k).Ok? ==> exists i :: 0 <= i < |items| && items[i].0 == k
    {
      forall i, j | 0 <= i < |entries| && 0 <= j < |entries| && i != j
        ensures entries[i].0 != entries[j].0
      {
        AscendingKeysDistinct(entries, i, j);
      }
      forall i | 0 <= i < |entries| ensures Lookup(entries, entries[i].0) == Some(entries[i].1) {
        LookupAt(entries, i);
      }
      entries
    }
  }

  /** `json::array`. */
  class JsonArray {
    var elements: seq<Value>

    /** `array()`. */
    constructor ()
      ensures elements == []
    {
      elements := [];
    }

    /** `append(value)`: `push_back`. */
    method Append(v: Value)
      modifies this
      ensures elements == old(elements) + [v]
      ensures Size() == old(Size()) + 1 && elements[Size() - 1] == v
      ensures forall i :: 0 <= i < old(Size()) ==> elements[i] == old(elements[i])
    {
      elements := elements + [v];
    }

    /** `size()`: the first index `at` rejects. */
    function Size(): (n: nat)
      reads this
      ensures At(n) == OutOfRange
      ensures n > 0 ==> At(n - 1).Ok?
    {
      |elements|
    }

    /** `at(index)`: `std::vector::at` throws `std::out_of_range` past the end. */
    function At(i: nat): (r: Access<Value>)
      reads this
      ensures r.Ok? <==> i < |elements|
      ensures r.Ok? ==> r.value == elements[i]
    {
      if i < |elements| then Ok(elements[i]) else OutOfRange
    }

    /** `operator[](index)`: unchecked, so the caller must keep the index in range;
        there it agrees with `at`. */
    function Index(i: nat): (v: Value)
      reads this
      requires i < |elements|
      ensures At(i) == Ok(v)
    {
      elements[i]
    }
  }
}
