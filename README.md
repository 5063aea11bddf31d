# Extended conversions of toml11, modelled in Dafny

This project models the user-defined conversions of the toml11 configuration
library as its extended-conversion tests use them. A record with the fields
`a: int` and `b: string` is mapped to and from a table of a document in two
styles:

- **non-intrusive**: `toml::from<foo>::from_toml` and
  `toml::into<foo>::into_toml`, free functions registered for `foo`
  (`Extlib.FooFromToml`, `Extlib.FooIntoToml`);
- **intrusive**: `bar::from_toml`, which fills in the object's own fields,
  and `bar::into_toml`, which builds a table from them (`Extlib.Bar`, a class
  whose `FromToml` method modifies its fields).

The library calls these through `toml::get<T>`, `toml::find<T>` and
`toml::get<std::vector<T>>`. The library header is not part of this model,
so it has small stand-ins:

- `TomlValue` holds the document: `Int`, `Str`, `Arr` and `Tbl`. A table is an
  ordered sequence of (key, value) entries with unique keys.
- `TomlValue.Equal` is the library's `operator==`. Scalars compare by tag and
  content. Arrays compare position by position. Tables compare as mappings
  from keys to values.
- `TomlFind` holds `find` and `get`. Each one fails when the value has the
  wrong tag or the key is missing. It does not say which error is reported.

The container backend is not a parameter of the model. The default backend
is an unordered map. The tests also use `std::map` with `std::deque`. A
document held by another backend is another `Value` with the same logical
content, which means `Equal` to the first one, with its table entries
possibly in a different order. Backend independence is therefore stated as:
conversions give equal results on `Equal` inputs, and the round trips hold
up to `Equal`. `TomlValue.EqualUnderReordering` ties this to the backends:
two well-formed tables holding the same entries in any order are `Equal`.

The `extlib2` types (tests/test_extended_conversions.cpp:61-107) are plain
structs like the `extlib` ones, and all their conversions have the same
bodies. The one difference is that their two `from_toml` functions are
templates over the backend parameters `C, M, A` (lines 73-74 and 93-94), so
they accept a document held by any backend. Their `into_toml` functions
(lines 81-84 and 103-106) are not templates and build a default-backend
`toml::table`, exactly as the `extlib` ones do. The types are modelled once.
The generic decoding is covered by the backend-independence lemmas, which
cite the `extlib2` lines.

The first test case is named after member methods but exercises `foo`, which
converts by specialisation. The second is named after specialisation but
exercises `bar`, which has member methods. Only the names are swapped. The
behaviour each one checks is modelled under the type it actually uses.

## Model

| member | source | states |
|---|---|---|
| TomlValue.Equal | tests/test_extended_conversions.cpp:123 | `operator==`: equal documents have the same tag; arrays of equal length compared position by position; tables with the same key set and equal values under each key, whatever their entry order |
| TomlValue.EqualUnderReordering | tests/test_extended_conversions.cpp:137-149 | two well-formed tables holding the same entries in any order, as different backends may keep them, are equal |
| TomlValue.Lookup | tests/test_extended_conversions.cpp:26-27 | a key is found exactly when the table holds it; what is found is stored under that key, and in a table with unique keys it is the one value stored there |
| TomlValue.EqualReflexive | tests/test_extended_conversions.cpp:121-123 | every well-formed document compares equal to itself, so a value rebuilt with the same entries compares equal |
| TomlValue.EqualSymmetric | tests/test_extended_conversions.cpp:145-148 | equality of well-formed documents does not depend on which side is on the left, whatever order either backend keeps its entries in |
| TomlValue.LookupRespectsEqual | tests/test_extended_conversions.cpp:138-141 | two equal tables hold the same keys and equal values under each key |
| TomlFind.Find | tests/test_extended_conversions.cpp:26 | succeeds exactly when the value is a table holding the key, and yields the value stored under it |
| TomlFind.GetInt | tests/test_extended_conversions.cpp:26 | succeeds exactly on an integer, and yields that integer |
| TomlFind.GetString | tests/test_extended_conversions.cpp:27 | succeeds exactly on a string, and yields that string |
| TomlFind.FindInt | tests/test_extended_conversions.cpp:26 | succeeds exactly when the table holds an integer under the key, and yields an integer stored under that key |
| TomlFind.FindString | tests/test_extended_conversions.cpp:27 | succeeds exactly when the table holds a string under the key, and yields a string stored under that key |
| TomlFind.FindIntStored | tests/test_extended_conversions.cpp:45 | in a table with unique keys, `find<int>` yields exactly the integer stored under the key |
| TomlFind.FindStringStored | tests/test_extended_conversions.cpp:45 | in a table with unique keys, `find<std::string>` yields exactly the string stored under the key |
| TomlFind.FindIntRespectsEqual | tests/test_extended_conversions.cpp:76 | `find<int>` gives the same result on equal documents, whatever their backend |
| TomlFind.FindStringRespectsEqual | tests/test_extended_conversions.cpp:77 | `find<std::string>` gives the same result on equal documents, whatever their backend |
| Extlib.FooFromToml | tests/test_extended_conversions.cpp:43-46 | succeeds exactly when both lookups succeed, so a missing or mistyped field fails and never gives a default record; `a` is the integer stored under "a" and `b` the string stored under "b" |
| Extlib.FooIntoToml | tests/test_extended_conversions.cpp:52-55 | a well-formed table with exactly the keys "a" and "b", mapped to `Int(a)` and `Str(b)` |
| Extlib.FooRecordRoundTrip | tests/test_extended_conversions.cpp:43-55 | decoding the encoding of any record gives that record back |
| Extlib.EqualToEncodingDecodes | tests/test_extended_conversions.cpp:117-123 | a document equal to the encoding of `f` has the keys "a" and "b" only and decodes to `f` |
| Extlib.DecodedTableEqualsEncoding | tests/test_extended_conversions.cpp:117-123 | a table with the keys "a" and "b" only that decodes to `f` compares equal to the encoding of `f` |
| Extlib.FooEncodingMatches | tests/test_extended_conversions.cpp:115-123 | a well-formed document equals the encoding of `f` if and only if it is a table with keys "a" and "b" only that decodes to `f` |
| Extlib.FooFromTomlRespectsEqual | tests/test_extended_conversions.cpp:93-97 | decoding gives the same record, or fails, on any two documents with the same logical content, whatever their backends (with `EqualUnderReordering`: whatever order their tables keep their entries in) |
| Extlib.FooRoundTripAcrossBackends | tests/test_extended_conversions.cpp:137-149 | for two backends holding the same table (`Equal`, which `EqualUnderReordering` gives for any entry order), both decode to the same record, and re-encoding it gives a value equal to each of them |
| Extlib.GetFooVector | tests/test_extended_conversions.cpp:201-211 | succeeds exactly when the value is an array whose every element decodes; then the result has the array's length and its i-th record is decoded from the i-th element |
| Extlib.GetFooVectorOfEncodings | tests/test_extended_conversions.cpp:194-211 | an array of encoded records decodes back to exactly those records, in order |
| Extlib.GetFooVectorRespectsEqual | tests/test_extended_conversions.cpp:258-277 | converting an array gives the same records on equal documents, whatever their backends |
| Extlib.Bar.constructor | tests/test_extended_conversions.cpp:19-23 | a default `bar` has `a == 0` and `b == ""` |
| Extlib.Bar.FromToml | tests/test_extended_conversions.cpp:24-29 | succeeds exactly when both lookups succeed; `a` is set from "a" whenever that lookup succeeds, and `b` from "b" only when both succeed; otherwise the field keeps its old value |
| Extlib.Bar.IntoToml | tests/test_extended_conversions.cpp:31-34 | gives the same table as the non-intrusive encoding of a record with the object's fields |
| Extlib.GetBar | tests/test_extended_conversions.cpp:155-163 | succeeds exactly when the non-intrusive conversion does, with the same fields; for a well-formed table with keys "a" and "b" only, re-encoding the result compares equal to the input |
| Extlib.BarRecordRoundTrip | tests/test_extended_conversions.cpp:24-34 | decoding what `into_toml` produces gives back the object's own fields |
| Extlib.GetBarVector | tests/test_extended_conversions.cpp:213-223 | succeeds exactly when the `foo` vector conversion does; it has the same length, and the i-th object has the fields of the i-th `foo` |
| ConversionTests.FooScenario | tests/test_extended_conversions.cpp:115-149 | `{a=42, b="baz"}` decodes to 42 and "baz" on either entry order, and re-encoding compares equal to it |
| ConversionTests.BarScenario | tests/test_extended_conversions.cpp:155-188 | `bar` decodes `{a=42, b="baz"}` to 42 and "baz" on either entry order, and its `into_toml` compares equal to the input |
| ConversionTests.FooVectorScenario | tests/test_extended_conversions.cpp:194-211 | the four-table array gives exactly the records (42,"baz"), (43,"qux"), (44,"quux"), (45,"foobar") |
| ConversionTests.BarVectorScenario | tests/test_extended_conversions.cpp:213-223 | the same array gives four `bar` objects with `a` = 42..45 and `b` = "baz", "qux", "quux", "foobar" |

## Left out

- The library header `toml.hpp` is not part of this model. `find`, `get`, `get<std::vector<T>>` and `operator==` are stand-ins written from how the tests use them.
- Error kinds and messages, and source locations, are not modelled. Every failure is a single `Fail`, which propagates unchanged.
- Extlib.Bar.constructor: a default-constructed `bar` leaves its `int` uninitialised in C++. The model sets it to 0. Nothing observable depends on it, because `get<bar>` returns the object only after both fields are assigned.
- Extlib.GetBar: does not state that the returned object is freshly allocated. C++ returns it by value, so no aliasing can arise there.
- Extlib.GetBarVector: does not state that the returned objects are distinct from each other. C++ holds them by value in a `std::vector`, so no aliasing can arise there.
- Integers are unbounded. The narrowing of the 64-bit integer to C++ `int` is not modelled. The tests use only 42 to 45.
- Booleans, floats, dates and times are left out, and so is comment handling (`discard_comments`). The tests exercise none of them.
- Building a table with a duplicate key is not modelled. Every document here is assumed well-formed (`WellFormed`), as a map backend guarantees.
- Template dispatch is not modelled. The model has no SFINAE and no choice between the strategies. When a type has both an intrusive and a non-intrusive conversion, which one wins is not exercised here, so it is left out. Each strategy is a separate, explicitly named member.
- The encoding of a whole vector of records into an array is not modelled, because the tests do not use it.
- The Boost.Test framework setup (lines 1-7) is left out.
