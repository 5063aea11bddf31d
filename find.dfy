/** Stand-ins for the library operations the conversions call back into:
    `toml::get<T>(v)` for a scalar T converts a whole value, and
    `toml::find<T>(v, key)` looks a key up in a table and converts what it
    finds. Each one fails when the value has the wrong tag or the key is
    missing; which error it reports is not modelled. */
module TomlFind {
  import opened TomlValue

  /** `v.as_table().at(key)`: the value under `key` of a table. */
  function Find(v: Value, key: string): (r: Result<Value>)
    ensures r.Ok? <==> v.Tbl? && key in KeySet(v.entries)
    ensures r.Ok? ==> (key, r.value) in v.entries
  {
    if !v.Tbl? then Fail
    else
      match Lookup(v.entries, key)
      case None => Fail
      case Some(x) => Ok(x)
  }

  /** `toml::get<int>(v)`: succeeds only on an integer. */
  function GetInt(v: Value): (r: Result<int>)
    ensures r.Ok? <==> v.Int?
    ensures r.Ok? ==> v == Int(r.value)
  {
    if v.Int? then Ok(v.i) else Fail
  }

  /** `toml::get<std::string>(v)`: succeeds only on a string. */
  function GetString(v: Value): (r: Result<string>)
    ensures r.Ok? <==> v.Str?
    ensures r.Ok? ==> v == Str(r.value)
  {
    if v.Str? then Ok(v.s) else Fail
  }

  /** `toml::find<int>(v, key)`. */
  function FindInt(v: Value, key: string): (r: Result<int>)
    ensures r.Ok? <==> v.Tbl? && Lookup(v.entries, key).Some? && Lookup(v.entries, key).value.Int?
    ensures r.Ok? ==> (key, Int(r.value)) in v.entries
  {
    var x :- Find(v, key);
    GetInt(x)
  }

  /** `toml::find<std::string>(v, key)`. */
  function FindString(v: Value, key: string): (r: Result<string>)
    ensures r.Ok? <==> v.Tbl? && Lookup(v.entries, key).Some? && Lookup(v.entries, key).value.Str?
    ensures r.Ok? ==> (key, Str(r.value)) in v.entries
  {
    var x :- Find(v, key);
    GetString(x)
  }

  /** In a table with unique keys, `find<int>` returns exactly the integer
      stored under the key. */
  lemma FindIntStored(es: seq<(string, Value)>, key: string, n: int)
    requires UniqueKeys(es)
    requires (key, Int(n)) in es
    ensures FindInt(Tbl(es), key) == Ok(n)
  {
    var i :| 0 <= i < |es| && es[i] == (key, Int(n));
  }

  /** In a table with unique keys, `find<std::string>` returns exactly the
      string stored under the key. */
  lemma FindStringStored(es: seq<(string, Value)>, key: string, s: string)
    requires UniqueKeys(es)
    requires (key, Str(s)) in es
    ensures FindString(Tbl(es), key) == Ok(s)
  {
    var i :| 0 <= i < |es| && es[i] == (key, Str(s));
  }

  /** Finding in equal documents gives the same integer, or fails in both. */
  lemma FindIntRespectsEqual(v: Value, w: Value, key: string)
    requires Equal(v, w)
    ensures FindInt(v, key) == FindInt(w, key)
  {
    if v.Tbl? {
      LookupRespectsEqual(v.entries, w.entries, key);
    }
  }

  /** Finding in equal documents gives the same string, or fails in both. */
  lemma FindStringRespectsEqual(v: Value, w: Value, key: string)
    requires Equal(v, w)
    ensures FindString(v, key) == FindString(w, key)
  {
    if v.Tbl? {
      LookupRespectsEqual(v.entries, w.entries, key);
    }
  }
}
