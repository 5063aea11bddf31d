/** The concrete documents of the three test cases and what the conversions
    give on them. `Doc` keeps its entries in key order, as `std::map` does;
    `OtherBackendDoc` holds the same table with its entries in the other
    order, as the default unordered map may keep them. */
module ConversionTests {
  import opened TomlValue
  import opened Extlib

  const Doc: Value := Tbl([("a", Int(42)), ("b", Str("baz"))])

  const OtherBackendDoc: Value := Tbl([("b", Str("baz")), ("a", Int(42))])

  const Docs: Value := Arr([
    Tbl([("a", Int(42)), ("b", Str("baz"))]),
    Tbl([("a", Int(43)), ("b", Str("qux"))]),
    Tbl([("a", Int(44)), ("b", Str("quux"))]),
    Tbl([("a", Int(45)), ("b", Str("foobar"))])
  ])

  /** `foo` decodes `{a=42, b="baz"}` on either backend to 42 and "baz", and
      re-encoding gives back a document equal to the one decoded. */
  lemma FooScenario()
    ensures FooFromToml(Doc) == Ok(Foo(42, "baz"))
    ensures FooFromToml(OtherBackendDoc) == Ok(Foo(42, "baz"))
    ensures FooIntoToml(Foo(42, "baz")) == Doc
    ensures Equal(OtherBackendDoc, FooIntoToml(Foo(42, "baz")))
  {
    FooRecordRoundTrip(Foo(42, "baz"));
    assert FooIntoToml(Foo(42, "baz")) == Doc;
    assert Equal(OtherBackendDoc, Doc) by {
      assert OtherBackendDoc.entries == [Doc.entries[1], Doc.entries[0]];
      EqualUnderReordering(OtherBackendDoc.entries, Doc.entries);
    }
    FooFromTomlRespectsEqual(OtherBackendDoc, Doc);
  }

  /** `bar` decodes `{a=42, b="baz"}` on either backend to 42 and "baz", and
      its `into_toml` gives back a document equal to the one decoded. */
  method BarScenario() returns (x: Result<Bar>, y: Result<Bar>)
    ensures x.Ok? && x.value.a == 42 && x.value.b == "baz"
    ensures x.value.IntoToml() == Doc
    ensures y.Ok? && y.value.a == 42 && y.value.b == "baz"
    ensures Equal(OtherBackendDoc, y.value.IntoToml())
  {
    FooScenario();
    x := GetBar(Doc);
    y := GetBar(OtherBackendDoc);
  }

  /** `get<std::vector<foo>>` on the array of four tables gives four records
      with `a` = 42, 43, 44, 45 and `b` = "baz", "qux", "quux", "foobar". */
  lemma FooVectorScenario()
    ensures GetFooVector(Docs) ==
      Ok([Foo(42, "baz"), Foo(43, "qux"), Foo(44, "quux"), Foo(45, "foobar")])
  {
    var want := [Foo(42, "baz"), Foo(43, "qux"), Foo(44, "quux"), Foo(45, "foobar")];
    assert forall i :: 0 <= i < 4 ==> Docs.elems[i] == FooIntoToml(want[i]);
    GetFooVectorOfEncodings(want, Docs.elems);
  }

  /** `get<std::vector<bar>>` on the same array gives four objects with the
      same fields, position by position. */
  method BarVectorScenario() returns (bars: Result<seq<Bar>>)
    ensures bars.Ok? && |bars.value| == 4
    ensures bars.value[0].a == 42 && bars.value[1].a == 43 && bars.value[2].a == 44 && bars.value[3].a == 45
    ensures bars.value[0].b == "baz" && bars.value[1].b == "qux"
    ensures bars.value[2].b == "quux" && bars.value[3].b == "foobar"
  {
    FooVectorScenario();
    bars := GetBarVector(Docs);
  }
}
