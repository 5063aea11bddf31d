/** The user-defined conversions between a record with fields `a: int` and
    `b: string` and a table of the document, in the two styles the library
    supports:
      - non-intrusive: free functions registered for `foo` by specialising
        `toml::from` and `toml::into` (`FooFromToml`, `FooIntoToml`);
      - intrusive: `bar`'s own `from_toml`, which fills in the object's
        fields, and `into_toml`, which builds a table from them
        (`Bar.FromToml`, `Bar.IntoToml`);
    together with the library entry points that dispatch to them
    (`toml::get<bar>`, `toml::get<std::vector<foo>>`,
    `toml::get<std::vector<bar>>`). */
module Extlib {
  import opened TomlValue
  import opened TomlFind

  /** `extlib::foo`: a plain record with no conversion of its own. */
  datatype Foo = Foo(a: int, b: string)

  /** `toml::from<foo>::from_toml`: field `a` from key "a", field `b` from
      key "b"; a failed lookup of either propagates. */
  function FooFromToml(v: Value): (r: Result<Foo>)
    ensures r.Ok? <==> FindInt(v, "a").Ok? && FindString(v, "b").Ok?
    ensures r.Ok? ==> v.Tbl? && ("a", Int(r.value.a)) in v.entries && ("b", Str(r.value.b)) in v.entries
  {
    var a :- FindInt(v, "a");
    var b :- FindString(v, "b");
    Ok(Foo(a, b))
  }

  /** `toml::into<foo>::into_toml`: a table holding exactly the keys "a" and
      "b", mapped to the record's two fields. */
  function FooIntoToml(f: Foo): (r: Value)
    ensures r.Tbl? && KeySet(r.entries) == {"a", "b"}
    ensures Find(r, "a") == Ok(Int(f.a)) && Find(r, "b") == Ok(Str(f.b))
    ensures WellFormed(r)
  {
    var r := Tbl([("a", Int(f.a)), ("b", Str(f.b))]);
    assert r.entries[0].0 == "a" && r.entries[1].0 == "b";
    r
  }

  /** Record to table to record gives the record back. */
  lemma FooRecordRoundTrip(f: Foo)
    ensures FooFromToml(FooIntoToml(f)) == Ok(f)
  {
    var r := FooIntoToml(f);
    assert r.entries[0] == ("a", Int(f.a)) && r.entries[1] == ("b", Str(f.b));
    FindIntStored(r.entries, "a", f.a);
    FindStringStored(r.entries, "b", f.b);
  }

  /** A table equal to the encoding of `f` has the keys "a" and "b" only and
      decodes to `f`. */
  lemma EqualToEncodingDecodes(f: Foo, v: Value)
    requires WellFormed(v)
    requires Equal(v, FooIntoToml(f))
    ensures v.Tbl? && KeySet(v.entries) == {"a", "b"} && FooFromToml(v) == Ok(f)
  {
    var t := FooIntoToml(f);
    var es := v.entries;
    assert "a" in KeySet(es);
    var ia :| 0 <= ia < |es| && es[ia].0 == "a";
    assert Lookup(t.entries, "a") == Some(Int(f.a));
    assert Equal(es[ia].1, Int(f.a));
    FindIntStored(es, "a", f.a);
    assert "b" in KeySet(es);
    var ib :| 0 <= ib < |es| && es[ib].0 == "b";
    assert Lookup(t.entries, "b") == Some(Str(f.b));
    assert Equal(es[ib].1, Str(f.b));
    FindStringStored(es, "b", f.b);
  }

  /** A table with the keys "a" and "b" only that decodes to `f` equals the
      encoding of `f`. */
  lemma DecodedTableEqualsEncoding(f: Foo, v: Value)
    requires WellFormed(v)
    requires v.Tbl? && KeySet(v.entries) == {"a", "b"} && FooFromToml(v) == Ok(f)
    ensures Equal(v, FooIntoToml(f))
  {
    var t := FooIntoToml(f);
    var es := v.entries;
    assert Lookup(t.entries, "a") == Some(Int(f.a));
    assert Lookup(t.entries, "b") == Some(Str(f.b));
    forall i | 0 <= i < |es|
      ensures Lookup(t.entries, es[i].0).Some? && Equal(es[i].1, Lookup(t.entries, es[i].0).value)
    {
      assert es[i].0 in KeySet(es);
      if es[i].0 == "a" {
        assert Lookup(es, "a") == Some(Int(f.a));
      } else {
        assert Lookup(es, "b") == Some(Str(f.b));
      }
    }
  }

  /** A well-formed document equals the encoding of `f` exactly when it is a
      table with the keys "a" and "b" and nothing else, and decodes to `f`.
      From left to right this is decoding after encoding; from right to left
      it is the round trip table to record to table. */
  lemma FooEncodingMatches(f: Foo, v: Value)
    requires WellFormed(v)
    ensures Equal(v, FooIntoToml(f)) <==>
              v.Tbl? && KeySet(v.entries) == {"a", "b"} && FooFromToml(v) == Ok(f)
  {
    if Equal(v, FooIntoToml(f)) {
      EqualToEncodingDecodes(f, v);
    }
    if v.Tbl? && KeySet(v.entries) == {"a", "b"} && FooFromToml(v) == Ok(f) {
      DecodedTableEqualsEncoding(f, v);
    }
  }

  /** Decoding does not depend on the backend: documents with the same
      logical content decode to the same record, or both fail. */
  lemma FooFromTomlRespectsEqual(v: Value, w: Value)
    requires Equal(v, w)
    ensures FooFromToml(v) == FooFromToml(w)
  {
    FindIntRespectsEqual(v, w, "a");
    FindStringRespectsEqual(v, w, "b");
  }

  /** The round trip table to record to table holds under every backend, and
      two backends holding the same document re-encode it identically. */
  lemma FooRoundTripAcrossBackends(v: Value, w: Value)
    requires WellFormed(v) && WellFormed(w) && Equal(v, w)
    requires v.Tbl? && KeySet(v.entries) == {"a", "b"} && FooFromToml(v).Ok?
    ensures FooFromToml(w) == FooFromToml(v)
    ensures Equal(v, FooIntoToml(FooFromToml(v).value))
    ensures Equal(w, FooIntoToml(FooFromToml(w).value))
  {
    FooFromTomlRespectsEqual(v, w);
    var f := FooFromToml(v).value;
    FooEncodingMatches(f, v);
    FooEncodingMatches(f, w);
  }

  /** The elements of `toml::get<std::vector<foo>>`, converted in order. */
  function FoosFromTomls(xs: seq<Value>): (r: Result<seq<Foo>>)
    ensures r.Ok? <==> forall i :: 0 <= i < |xs| ==> FooFromToml(xs[i]).Ok?
    ensures r.Ok? ==> |r.value| == |xs| && forall i :: 0 <= i < |xs| ==> FooFromToml(xs[i]) == Ok(r.value[i])
  {
    if |xs| == 0 then Ok([])
    else
      var head :- FooFromToml(xs[0]);
      var tail :- FoosFromTomls(xs[1..]);
      Ok([head] + tail)
  }

  /** `toml::get<std::vector<foo>>`: an array of N tables gives N records,
      the i-th decoded from the i-th table; any failure propagates. */
  function GetFooVector(v: Value): (r: Result<seq<Foo>>)
    ensures r.Ok? <==> v.Arr? && forall i :: 0 <= i < |v.elems| ==> FooFromToml(v.elems[i]).Ok?
    ensures r.Ok? ==>
              && |r.value| == |v.elems|
              && forall i :: 0 <= i < |r.value| ==> FooFromToml(v.elems[i]) == Ok(r.value[i])
  {
    if v.Arr? then FoosFromTomls(v.elems) else Fail
  }

  /** An array whose i-th element is the encoding of the i-th record decodes
      back to exactly those records, in the same order. */
  lemma GetFooVectorOfEncodings(fs: seq<Foo>, xs: seq<Value>)
    requires |xs| == |fs|
    requires forall i :: 0 <= i < |xs| ==> xs[i] == FooIntoToml(fs[i])
    ensures GetFooVector(Arr(xs)) == Ok(fs)
  {
    forall i | 0 <= i < |xs| ensures FooFromToml(xs[i]) == Ok(fs[i]) {
      FooRecordRoundTrip(fs[i]);
    }
    var r := GetFooVector(Arr(xs));
    assert r.value == fs;
  }

  /** Converting an array does not depend on the backend either. */
  lemma GetFooVectorRespectsEqual(v: Value, w: Value)
    requires Equal(v, w)
    ensures GetFooVector(v) == GetFooVector(w)
  {
    if v.Arr? {
      forall i | 0 <= i < |v.elems| ensures FooFromToml(v.elems[i]) == FooFromToml(w.elems[i]) {
        FooFromTomlRespectsEqual(v.elems[i], w.elems[i]);
      }
      var r, s := GetFooVector(v), GetFooVector(w);
      if r.Ok? {
        assert r.value == s.value;
      }
    }
  }

  /** `extlib::bar`: a record that carries its own conversions. */
  class Bar {
    var a: int
    var b: string

    /** Default construction, as `toml::get<bar>` does before it calls
        `from_toml`. */
    constructor ()
      ensures a == 0 && b == ""
    {
      a := 0;
      b := "";
    }

    /** `bar::from_toml`: assigns `a` from key "a", then `b` from key "b".
        A failed lookup stops the conversion where it happened, so when "b"
        fails, `a` has already been overwritten. */
    method FromToml(v: Value) returns (ok: bool)
      modifies this
      ensures ok <==> FindInt(v, "a").Ok? && FindString(v, "b").Ok?
      ensures a == if FindInt(v, "a").Ok? then FindInt(v, "a").value else old(a)
      ensures b == if ok then FindString(v, "b").value else old(b)
    {
      var x := FindInt(v, "a");
      if x.Fail? {
        return false;
      }
      a := x.value;
      var y := FindString(v, "b");
      if y.Fail? {
        return false;
      }
      b := y.value;
      return true;
    }

    /** `bar::into_toml`: the same table the non-intrusive conversion builds
        for a record with these fields. */
    function IntoToml(): (r: Value)
      reads this
      ensures r == FooIntoToml(Foo(a, b))
    {
      Tbl([("a", Int(a)), ("b", Str(b))])
    }
  }

  /** `toml::get<bar>`: default-constructs a `bar` and lets it fill itself in.
      It succeeds exactly when the non-intrusive conversion does, with the
      same fields, and re-encoding the result gives back a table with the
      keys "a" and "b" only. */
  method GetBar(v: Value) returns (r: Result<Bar>)
    ensures r.Ok? <==> FooFromToml(v).Ok?
    ensures r.Ok? ==> FooFromToml(v) == Ok(Foo(r.value.a, r.value.b))
    ensures r.Ok? && WellFormed(v) && KeySet(v.entries) == {"a", "b"} ==> Equal(v, r.value.IntoToml())
  {
    var ud := new Bar();
    var ok := ud.FromToml(v);
    if !ok {
      return Fail;
    }
    if WellFormed(v) {
      FooEncodingMatches(Foo(ud.a, ud.b), v);
    }
    return Ok(ud);
  }

  /** Record to table to record for `bar`: `into_toml` writes exactly the
      keys `from_toml` reads. */
  lemma BarRecordRoundTrip(x: Bar)
    ensures FooFromToml(x.IntoToml()) == Ok(Foo(x.a, x.b))
  {
    FooRecordRoundTrip(Foo(x.a, x.b));
  }

  /** `toml::get<std::vector<bar>>`: converts the array position by position.
      It succeeds exactly when `toml::get<std::vector<foo>>` does, and the
      i-th `bar` has the fields of the i-th `foo`. */
  method GetBarVector(v: Value) returns (r: Result<seq<Bar>>)
    ensures r.Ok? <==> GetFooVector(v).Ok?
    ensures r.Ok? ==>
              && |r.value| == |GetFooVector(v).value|
              && forall i :: 0 <= i < |r.value| ==> GetFooVector(v).value[i] == Foo(r.value[i].a, r.value[i].b)
  {
    if !v.Arr? {
      return Fail;
    }
    var xs := v.elems;
    var bars: seq<Bar> := [];
    var i := 0;
    while i < |xs|
      invariant 0 <= i <= |xs|
      invariant |bars| == i
      invariant forall j :: 0 <= j < i ==> FooFromToml(xs[j]) == Ok(Foo(bars[j].a, bars[j].b))
    {
      var e := GetBar(xs[i]);
      if e.Fail? {
        return Fail;
      }
      bars := bars + [e.value];
      i := i + 1;
    }
    return Ok(bars);
  }
}
