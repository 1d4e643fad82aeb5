# kbenzie/json in Dafny

This project models the C++ JSON library kbenzie/json: its value model (`json.hpp`),
its reader and its writer (`json.cpp`). Each part is modelled in the form the C++ code
has.

- **Values.** `json::value` is a datatype with six constructors. The kind accessor
  `type()` and the payload accessors are functions. The payload accessors require the
  matching kind, because the C++ `static_cast`s the store.
- **Containers.** `json::object` and `json::array` are classes. `add` and `append`
  reassign the field of entries in place.
  - An object's entries are a sequence with strictly ascending keys. This is the
    invariant of the `std::map` it wraps.
- **Reader.**
  - `consume_whitespace`, `read_string`, `read_number`, `read_value`, `read_object` and
    `read_array` are methods of a `Parser` class. The class holds the
    `'\0'`-terminated buffer, the cursor `position_t` and the slot `diagnostic_t`.
  - Each loop became a `while` loop with invariants.
  - Each method is proved to return exactly the value, and leave exactly the state, that
    a function of module `ReadSpec` computes.
  - Those functions follow the code, defects included:
    - backslash escapes are not decoded;
    - `read_object` stops on `'}'` and does not step over it;
    - every loop iteration starts with a blind `++pos`;
    - after a `','` one more character is skipped;
    - the literal cases fall through;
    - the misspelt `defeult:` label means stray characters inside an array are skipped.
  - Where the code reads past the final `'\0'`, which is undefined behaviour in C++,
    the state is marked `overrun` and `json::read` reports `Undefined`.
- **Writer.** `indent_t` and the `std::stringstream` are the fields of a `Writer` class.
  `push`, `write_value`, `write_object` and `write_array` are methods of that class.
  - Each method is proved to append exactly the text of a recursive function
    (`RenderOnto`).
  - `WriterFacts` proves that this text depends only on the value and the depth.
    It also gives the text's exact layout.
- **Read after write.** `RoundTrip.WriteThenRead` proves that reading back what
  `json::write` puts out gives back the value. It is proved for a class of values that
  steers clear of the code's quirks. Values outside that class may still read back or
  may fail, depending on the value.
  - `RoundTrip.DefaultWriteThenRead` covers the common call `json::write(v)`, whose
    default indent is two spaces.
  - `RoundTrip.NestedObjectDropsSibling` shows why one of its conditions is needed:
    `[{}, null]` is written correctly and read back as `[{}]`.
  - `ReadExamples` holds small concrete readings:
    - `tull` reads as `null`;
    - `tru` ends with the null-terminator diagnostic;
    - `[1,2]` fails;
    - `[1` reads past the buffer;
    - a repeated key keeps its first value.

Where JSON as RFC 8259 defines it differs from what the code does, the model follows
the code:

- the backslash escapes of section 7 of RFC 8259 are not decoded, and `read_string`
  leaves a TODO at `source/json.cpp:196` for them;
- JSON text that is valid can be refused, as `[1,2]` is;
- stray characters in objects and arrays, which RFC 8259 does not allow, are skipped
  without a diagnostic;
- a misspelt literal such as `tull` is read as another literal, and a cut-off one such
  as `tru` gets the null-terminator diagnostic.

Modules, one per file:

| module | file | contents |
|---|---|---|
| `Wrappers` | wrappers.dfy | `Option`, and `Access` (a value, or `OutOfRange` where `std::map::at` and `std::vector::at` throw) |
| `StringOrder` | string_order.dfy | `std::string`'s `operator<` |
| `JsonValue` | value.dfy | `json::type`, `json::value`, the accessors, the map operations, `JsonObject` and `JsonArray` |
| `Cursor` | cursor.dfy | `position_t`, the diagnostic messages, `consume_whitespace` |
| `ReadSpec` | read_spec.dfy | the readers as functions |
| `Reader` | reader.dfy | the readers as methods of `Parser`, and `json::read` |
| `ReadFacts` | read_facts.dfy | properties of the readers |
| `ReadExamples` | read_examples.dfy | concrete readings |
| `JsonWriter` | writer.dfy | the writer as functions and as methods of `Writer`, and `json::write` |
| `WriterFacts` | writer_facts.dfy | the layout of the writer's text |
| `RoundTrip` | round_trip.dfy | reading back what was written |

## Model

| member | source | states |
|---|---|---|
| Cursor.IncrementsAgree | source/json.cpp:19-33 | `++` is `+= 1`. Both add the same amount to column and index and leave the line alone, so `index - column` is kept. |
| Cursor.SkipWhitespace | source/json.cpp:48-66 | The scan stops inside the buffer on a character that is not a space, tab or line feed. It answers true exactly when that character is not `'\0'`. |
| Cursor.SkipWhitespaceCursor | source/json.cpp:48-66 | The line grows by the number of line feeds stepped over. The column is counted from the last of them, or grows by the number of characters stepped over if there is none. |
| Cursor.SkippedAreWhitespace | source/json.cpp:48-66 | Every character stepped over is a space, tab or line feed. |
| Cursor.SkipWhitespaceStop | source/json.cpp:48-66 | The scan stops exactly at the first character that is not white space. |
| Reader.Parser.ConsumeWhitespace | source/json.cpp:48-66 | The loop leaves the cursor, and returns the answer, that `SkipWhitespace` gives. |
| JsonValue.ConstructorKinds | include/json/json.hpp:138-158 | Each constructor fixes the kind `type()` reports; the default one gives `TYPE_NULL`. |
| JsonValue.FromPair | include/json/json.hpp:142-143 | A value built from a pair is an object with exactly that one entry. |
| JsonValue.AsObject | include/json/json.hpp:163-164 | Defined only on an object, and gives back its entries. |
| JsonValue.AsArray | include/json/json.hpp:165-166 | Defined only on an array, and gives back its elements. |
| JsonValue.AsNumber | include/json/json.hpp:167-168 | Defined only on a number, and gives back its payload. |
| JsonValue.AsString | include/json/json.hpp:169-170 | Defined only on a string, and gives back its payload. |
| JsonValue.AsBool | include/json/json.hpp:171-172 | Defined only on a bool, and gives back its payload. |
| StringOrder.Irreflexive | include/json/json.hpp:105 | No key is below itself under the map's key order. |
| StringOrder.Transitive | include/json/json.hpp:105 | The map's key order is transitive. |
| StringOrder.Total | include/json/json.hpp:105 | Of two different keys, one is below the other. |
| StringOrder.Asymmetric | include/json/json.hpp:105 | No two keys are each below the other. |
| JsonValue.Lookup | include/json/json.hpp:188-191 | Answers the value filed under a key if the key is present, and nothing exactly when no entry has that key. |
| JsonValue.AscendingKeysDistinct | include/json/json.hpp:105 | In entries with ascending keys no key occurs twice. |
| JsonValue.LookupAt | include/json/json.hpp:105 | In entries with ascending keys, a key is found with the value of its one entry. |
| JsonValue.Upsert | include/json/json.hpp:186 | `mEntries[key] = value` keeps the keys ascending. It holds `(key, v)` and every entry with another key, only those entries, and one entry more exactly when the key was absent. |
| JsonValue.UpsertLookup | include/json/json.hpp:186 | After the upsert, `key` gives `v` and every other key gives what it gave before. |
| JsonValue.InsertIfAbsent | include/json/json.hpp:187 | `mEntries.insert(pair)` keeps the keys ascending. It leaves the entries unchanged when the key is present, and adds exactly one entry otherwise. |
| JsonValue.InsertLookup | include/json/json.hpp:187 | After the insertion, a present key keeps its value, an absent `key` gives `v`, and every other key gives what it gave before. |
| JsonValue.InsertKeepsWellFormed | include/json/json.hpp:187 | Inserting a well-formed value keeps every object in the tree ascending. |
| JsonValue.InsertAbove | include/json/json.hpp:187 | Inserting a key above every present key adds it at the end of the iteration order. |
| JsonValue.UpsertAbove | include/json/json.hpp:186 | An upsert of a key above every present key adds it at the end of the iteration order. |
| JsonValue.JsonObject.constructor | include/json/json.hpp:176 | `object()` is empty. |
| JsonValue.JsonObject.Entry | include/json/json.hpp:177 | `object(key, value)` holds exactly that entry. |
| JsonValue.JsonObject.FromPair | include/json/json.hpp:178 | `object(pair)` holds exactly that pair. |
| JsonValue.JsonObject.Add | include/json/json.hpp:186 | `add(key, value)` upserts. Afterwards `key` is found with `value`, every other key is as before, and the keys stay ascending. |
| JsonValue.JsonObject.AddPair | include/json/json.hpp:187 | `add(pair)` leaves the object unchanged when the key is present, and otherwise adds that entry. Every other key is as before. |
| JsonValue.JsonObject.Get | include/json/json.hpp:188-191 | `get(key)` succeeds exactly when some entry has the key, and then gives that entry's value. Otherwise it is the `out_of_range` outcome. |
| JsonValue.JsonObject.Items | include/json/json.hpp:192-195 | Iteration visits every key that `get` finds, each once, in strictly ascending order, each with the value `get` gives. |
| JsonValue.JsonArray.constructor | include/json/json.hpp:198-200 | `array()` is empty. |
| JsonValue.JsonArray.Append | include/json/json.hpp:201 | `append(v)` grows the size by one and puts `v` last. The earlier elements are unchanged. |
| JsonValue.JsonArray.Size | include/json/json.hpp:214-215 | `size()` is the first index that `at` rejects, and the index before it is accepted. |
| JsonValue.JsonArray.At | include/json/json.hpp:210-213 | `at(i)` succeeds exactly when `i < size()`, and then gives element `i`. |
| JsonValue.JsonArray.Index | include/json/json.hpp:206-209 | `operator[](i)` requires `i < size()`, and there agrees with `at(i)`. |
| ReadSpec.StringEnd | source/json.cpp:188-206 | The loop of `read_string` stops at the first `'"'` or `'\0'`. No character before it is either. |
| ReadSpec.StringToken | source/json.cpp:184-210 | `read_string` moves the cursor forward on the same line, with column and index moving together. It stays inside the buffer. |
| ReadSpec.NumberToken | source/json.cpp:176-182 | `read_number` moves column and index by the number of characters `strtod` took, and leaves the diagnostic alone. |
| ReadSpec.LiteralAt | source/json.cpp:237-257 | The literal cases never move the cursor back or out of the buffer. |
| ReadSpec.ValueAt | source/json.cpp:212-216 | `read_value` never moves the cursor back. It leaves the buffer only when it overruns, and never clears a diagnostic. |
| ReadSpec.ValueOn | source/json.cpp:218-261 | The same holds for the `switch` of `read_value`. |
| ReadSpec.ObjectLoop | source/json.cpp:72-123 | Every iteration of the `read_object` loop moves the cursor strictly forward. This is the termination measure. |
| ReadSpec.MemberAt | source/json.cpp:89-113 | The member case moves the cursor strictly forward and never clears a diagnostic. |
| ReadSpec.ArrayLoop | source/json.cpp:125-174 | Every iteration of the `read_array` loop moves the cursor strictly forward. |
| ReadSpec.ReadText | source/json.cpp:267-275 | A run that stays in the buffer ends at most at the terminator. An overrun ends one past it. |
| Reader.Parser.constructor | source/json.cpp:267-269 | `json::read` starts at line 0, column 0, index 0, with no diagnostic, on the text followed by `'\0'`. |
| Reader.Parser.ReadString | source/json.cpp:184-210 | The loop returns the string, and leaves the state, that `StringToken` gives. |
| Reader.Parser.ReadNumber | source/json.cpp:176-182 | Returns the number, and leaves the state, that `NumberToken` gives. |
| Reader.Parser.ReadValue | source/json.cpp:212-265 | Returns the value, and leaves the state, that `ValueAt` gives. |
| Reader.Parser.ReadObject | source/json.cpp:72-123 | The loop returns a fresh object whose entries are those `ObjectLoop` gives, and leaves the state it gives. |
| Reader.Parser.ReadMember | source/json.cpp:89-113 | Either `read_object` returns here with the result of `MemberAt`, or the loop goes on with the state and entries from which `ObjectLoop` gives that result. |
| Reader.Parser.ReadArray | source/json.cpp:125-174 | The loop returns a fresh array whose elements are those `ArrayLoop` gives, and leaves the state it gives. |
| Reader.Read | source/json.cpp:267-275 | `json::read` without the printing gives exactly `ReadText`. |
| ReadFacts.StringContents | source/json.cpp:184-194 | `read_string` returns exactly the characters between the quotes, backslashes included. The cursor ends one past the closing quote. |
| ReadFacts.StringUnterminated | source/json.cpp:198-200 | A string that meets `'\0'` first sets the unterminated-string diagnostic and reads as empty, with the cursor on the terminator. |
| ReadFacts.TrueWord | source/json.cpp:237-242 | `true` gives `Bool(true)`, four characters on. |
| ReadFacts.FalseWord | source/json.cpp:243-248 | `false` gives `Bool(false)`, five characters on. |
| ReadFacts.NullWord | source/json.cpp:249-254 | `null` gives `Null`, four characters on. |
| ReadFacts.OnlyWhitespace | source/json.cpp:213-216 | Text of white space only reads as `Null` with the end-of-stream diagnostic. The cursor lands on the terminator, one line on per line feed. |
| ReadFacts.UnexpectedStart | source/json.cpp:258-260 | A first character that starts no value reads as `Null` with the unexpected-character diagnostic, and the cursor on it. |
| ReadFacts.ArrayLoopResult | source/json.cpp:140-166 | Any failure returns the empty array. A success keeps the elements read so far, in order, in front, and ends one past a `']'`. |
| ReadFacts.ObjectLoopKeepsFirst | source/json.cpp:112-113 | A key already in the object keeps its value to the end of `read_object`, unless the whole read returns the empty object. |
| ReadFacts.MemberAtKeepsFirst | source/json.cpp:89-113 | The same holds from a member on. |
| ReadFacts.ObjectLoopStopsAtBrace | source/json.cpp:114-115 | A `read_object` that succeeds leaves the cursor on the `'}'`. |
| ReadFacts.MemberAtStopsAtBrace | source/json.cpp:89-115 | The same holds from a member on. |
| ReadFacts.ValueAtWellFormed | source/json.cpp:212-265 | `read_value` only builds values whose every object has strictly ascending keys. |
| ReadFacts.ValueOnWellFormed | source/json.cpp:218-261 | The same holds for the `switch` of `read_value`. |
| ReadFacts.ObjectLoopWellFormed | source/json.cpp:72-123 | The same holds for `read_object`. |
| ReadFacts.MemberAtWellFormed | source/json.cpp:89-113 | The same holds for the member case. |
| ReadFacts.ArrayLoopWellFormed | source/json.cpp:125-174 | The same holds for `read_array`. |
| ReadFacts.ReadWellFormed | source/json.cpp:267-275 | `json::read` only hands back well-formed values. |
| ReadExamples.TullIsNull | source/json.cpp:237-254 | `tull` falls through to the `null` check and reads as `Null`. |
| ReadExamples.TalseIsFalse | source/json.cpp:237-248 | `talse` falls through to the `false` check and reads as `Bool(false)`. |
| ReadExamples.TruIsTerminatorError | source/json.cpp:237-257 | `tru` falls through every check into the `'\0'` case's diagnostic, with the cursor at the start. |
| ReadExamples.EscapedQuoteEndsString | source/json.cpp:195-197 | In `"a\"b"` the escaped quote ends the string. The backslash is kept. |
| ReadExamples.CompactArrayFails | source/json.cpp:128-139 | `[1,2]` reads as an empty array with the end-of-stream diagnostic. |
| ReadExamples.SpaceBeforeCommaDropsElement | source/json.cpp:127-139 | `[1 , 2 ]` reads as the one number `1`: white space before a `','` loses the element after it. |
| ReadExamples.SpacedArrayParses | source/json.cpp:125-166 | `[1, 2 ]` reads as the two numbers, with the cursor one past `']'`. |
| ReadExamples.UnclosedArrayOverruns | source/json.cpp:128 | On `[1` the loop's `++pos` steps past the terminator, to index 3. |
| ReadExamples.EmptyArrayOnTwoLines | source/json.cpp:164-166 | In `[`, line feed, `]`, the line feed starts line 1 and `']'` is stepped over. |
| ReadExamples.StrayCharacterInObject | source/json.cpp:114-117 | In `{x}` the `'x'` is stepped over and the object ends empty, with the cursor on the `'}'`. |
| ReadExamples.EmptyObjectOnTwoLines | source/json.cpp:114-115 | In `{`, line feed, `}`, the cursor is left on the `'}'`. |
| ReadExamples.DuplicateKeyKeepsFirst | source/json.cpp:112 | In `{"a": true, "a": null }` the key keeps the value `true`. |
| JsonWriter.Indentation | source/json.cpp:277-281 | `push` puts out `count` copies of the indent string. |
| JsonWriter.Writer.constructor | source/json.cpp:351-353 | The writer starts at depth 0 with an empty stream. |
| JsonWriter.Writer.Push | source/json.cpp:277-281 | The loop appends the indentation for the current depth. |
| JsonWriter.Writer.WriteValue | source/json.cpp:327-349 | Appends exactly `RenderOnto` of the value at the current depth, and restores the depth. |
| JsonWriter.Writer.WriteObject | source/json.cpp:286-305 | The loop appends exactly `RenderOnto` of the object, and restores `indent.count`. |
| JsonWriter.Writer.WriteArray | source/json.cpp:307-325 | The loop appends exactly `RenderOnto` of the array, and restores `indent.count`. |
| JsonWriter.Write | source/json.cpp:351-356 | `json::write` gives exactly `Render` of the value at depth 0. |
| JsonWriter.WriteDefault | include/json/json.hpp:29 | `json::write(v)` with no indent argument writes with the default two spaces. |
| WriterFacts.RenderOntoAppends | source/json.cpp:327-349 | What `write_value` appends does not depend on what the stream already holds. |
| WriterFacts.LeadOnto | source/json.cpp:292-296 | Before each child go a comma unless it is the first, a line feed, and the indentation. |
| WriterFacts.MembersOntoPrefix | source/json.cpp:291-300 | After any number of members, the stream holds its old text, then those members each behind its lead. |
| WriterFacts.ElementsOntoPrefix | source/json.cpp:312-320 | The same holds for the elements of an array. |
| WriterFacts.RenderContainers | source/json.cpp:286-325 | An object or array is its bracket, then each child in order on its own line one level deeper, then the closing bracket on its own line at the container's depth. |
| WriterFacts.RenderEmpty | source/json.cpp:301-304 | An empty container puts its closing bracket on the next line. |
| WriterFacts.RenderLeaves | source/json.cpp:336-347 | The leaves are `null`, `true` or `false`, the string between quotes with nothing escaped, and the formatted number. |
| WriterFacts.IndentationChars | source/json.cpp:277-281 | The indentation is made only of characters of the indent string. |
| RoundTrip.ValueRereads | source/json.cpp:212-265 | `read_value`, on the text `write_value` put out for a value of the re-readable class, gives back that value when the text is followed by a comma, a line feed or the terminator. It ends right after that text, or on the `'}'` of an object. |
| RoundTrip.ElementsRereads | source/json.cpp:125-166 | The `read_array` loop, from any element on, reads back the remaining elements and stops one past `']'`. |
| RoundTrip.MembersRereads | source/json.cpp:72-115 | The `read_object` loop, from any member on, reads back the remaining members and stops on `'}'`. |
| RoundTrip.DefaultWriteThenRead | include/json/json.hpp:28-29 | Reading what `json::write(v)` gives with its default indent gives back a re-readable `v`, with no diagnostic. |
| RoundTrip.WriteThenRead | source/json.cpp:267-356 | Reading what `json::write` gives for a re-readable value gives back the same value with no diagnostic. The cursor ends at the end of the text, or on the final `'}'` for an object. |
| RoundTrip.SiblingText | source/json.cpp:307-325 | `[{}, null]` is written with an empty indent as `[`, `{`, `},`, `null`, `]` on five lines. |
| RoundTrip.NestedObjectDropsSibling | source/json.cpp:134-139 | That text reads back as `[{}]`: the object stops on its `'}'`, the `','` case leaves the cursor on the `'n'` of `null`, and the loop's `++pos` steps over it. |

## Left out

- `strtod` is not modelled. `read_number` takes a parameter `scan` that stands for it. All the model assumes is that `scan` takes a prefix of the text and no `'\0'`.
- Number output (`std::setprecision(2048) << number`) is not modelled. It is a parameter `fmt`. Numbers are opaque 64-bit patterns; no floating point is interpreted.
- `value(Number)` takes any arithmetic type and converts it to `double`. That conversion is not modelled: `Number` holds the `double` directly.
- `value(const char*)` and `value(std::string)` both give `String`. The pointer form is not modelled separately.
- Copies of a C++ value share their payload `mStore` through `std::shared_ptr` (`include/json/json.hpp:75`). A write through `object()`, `array()`, `number()`, `string()` or `boolean()` is therefore seen by every copy that shares the store. The kind `mType` belongs to each copy (`include/json/json.hpp:74`). A write through `type()` changes only that copy's kind, after which the copy reads the shared store as the wrong kind. The model holds payloads by value and gives the accessors no write access.
- The `std::initializer_list` and template constructors of `object` and `array` are not modelled. `std::map::insert(initializer_list)` leaves duplicates unspecified.
- The `fprintf` of the diagnostic in `json::read` is not modelled. `Reader.Read` returns the diagnostic, with the final cursor, instead.
- `tools/jsonv.cpp`, the command-line front end, is not part of this model. Neither is `test/main.cpp`.
- Cursor fields (`size_t`) and the `uint32_t` counter of `push` are unbounded integers. Wrap-around past 2^32 indentation levels or 2^64 characters is not modelled.
- `std::string`'s `operator<` compares bytes as unsigned values. `StringOrder.Less` compares Dafny characters. The two agree on single-byte text.
- Everywhere in the model a Dafny character stands for one byte of the C++ buffer. That includes the cursor's `column` and `index`, which count bytes in the C++. Multi-byte UTF-8 text is not modelled as such.
- Reading past the final `'\0'` is undefined behaviour in C++. The model stops there with `overrun` set, and `json::read` yields `Undefined` with the cursor one past the buffer.
- Some lines are unreachable, so the diagnostics they set never appear. These are the lines after the `while (true)` loops, `source/json.cpp:121-122`, `172-173` and `208-209`. They also include the lines after `read_value`'s `switch`, in which every case returns, `source/json.cpp:263-264`.
- JsonValue.JsonObject.Get: `std::map::at` throws `std::out_of_range`. Here it returns `OutOfRange` instead, and the caller must check.
- JsonValue.JsonArray.At: likewise returns `OutOfRange` where `std::vector::at` throws.
- ReadFacts.ArrayLoopResult: states that earlier elements stay in front, in order. It does not state which elements the loop adds after them.
- ReadFacts.ObjectLoopKeepsFirst: covers only keys already present when the loop is entered. A key met twice later is covered by `ReadExamples.DuplicateKeyKeepsFirst` for one input only.
- RoundTrip.DefaultWriteThenRead: proved only for the same class of values as `RoundTrip.WriteThenRead`, listed in the next entry.
- RoundTrip.WriteThenRead: proved only for a class of values that is sufficient, not necessary, for reading back. The conditions are:
  - strings and keys hold no `'"'` and no `'\0'`;
  - the indent string is white space;
  - object keys are ascending;
  - `fmt` puts each number out as text `strtod` reads back whole;
  - a nested object is only ever the last child of its container.
  Values outside this class may fail to read back, as `RoundTrip.NestedObjectDropsSibling` shows. Others still read back: with the indent `x`, for example, the misspelt `defeult:` label makes `read_array` skip the `x`.
