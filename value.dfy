/** The document value model: a tagged tree of integers, strings, arrays and
    tables, with the logical equality the library's `operator==` implements.

    A table is one abstract ordered sequence of (key, value) entries. The
    concrete container backend (an unordered map, or `std::map` with a
    `std::deque` for arrays) is not represented: two documents that hold the
    same logical content under different backends are two values related by
    `Equal`, whatever the order of their table entries. */
module TomlValue {

  datatype Option<T> = None | Some(value: T)

  /** The outcome of a conversion or lookup. A failure carries no error kind:
      which exception the library throws is not part of this model. */
  datatype Result<T> = Ok(value: T) | Fail {
    predicate IsFailure() {
      Fail?
    }

    function PropagateFailure<U>(): Result<U>
      requires Fail?
    {
      Fail
    }

    function Extract(): T
      requires Ok?
    {
      value
    }
  }

  datatype Value =
    | Int(i: int)
    | Str(s: string)
    | Arr(elems: seq<Value>)
    | Tbl(entries: seq<(string, Value)>)

  /** The keys a table holds. */
  function KeySet(entries: seq<(string, Value)>): set<string>
  {
    set i | 0 <= i < |entries| :: entries[i].0
  }

  /** No key occurs twice in a table (both backends are maps). */
  predicate UniqueKeys(entries: seq<(string, Value)>)
  {
    forall i, j :: 0 <= i < j < |entries| ==> entries[i].0 != entries[j].0
  }

  /** Every table in the tree, however deeply nested, has unique keys. */
  predicate WellFormed(v: Value)
  {
    match v
    case Int(_) => true
    case Str(_) => true
    case Arr(xs) => forall i :: 0 <= i < |xs| ==> WellFormed(xs[i])
    case Tbl(es) => UniqueKeys(es) && forall i :: 0 <= i < |es| ==> WellFormed(es[i].1)
  }

  /** The value stored under `key`, if any. */
  function Lookup(entries: seq<(string, Value)>, key: string): (r: Option<Value>)
    ensures r.Some? <==> key in KeySet(entries)
    ensures r.Some? ==> (key, r.value) in entries
    ensures UniqueKeys(entries) ==>
      forall i :: 0 <= i < |entries| && entries[i].0 == key ==> r == Some(entries[i].1)
  {
    if |entries| == 0 then None
    else if entries[0].0 == key then Some(entries[0].1)
    else
      var r := Lookup(entries[1..], key);
      assert KeySet(entries) == {entries[0].0} + KeySet(entries[1..]) by {
        forall k | k in KeySet(entries) ensures k in {entries[0].0} + KeySet(entries[1..]) {
          var i :| 0 <= i < |entries| && entries[i].0 == k;
          if i > 0 { assert entries[1..][i - 1].0 == k; }
        }
      }
      r
  }

  /** Logical equality of two documents: scalars by tag and content, arrays
      position by position, tables as mappings from keys to values, so that
      the order in which a backend keeps the entries does not matter. */
  predicate Equal(v: Value, w: Value)
    ensures Equal(v, w) ==> (v.Int? <==> w.Int?) && (v.Str? <==> w.Str?) && (v.Arr? <==> w.Arr?)
    ensures Equal(v, w) && v.Arr? ==> |v.elems| == |w.elems|
    ensures Equal(v, w) && v.Tbl? ==> w.Tbl? && KeySet(v.entries) == KeySet(w.entries)
    decreases v
  {
    match v
    case Int(x) => w.Int? && w.i == x
    case Str(s) => w.Str? && w.s == s
    case Arr(xs) =>
      && w.Arr?
      && |xs| == |w.elems|
      && forall i :: 0 <= i < |xs| ==> Equal(xs[i], w.elems[i])
    case Tbl(es) =>
      && w.Tbl?
      && KeySet(es) == KeySet(w.entries)
      && forall i :: 0 <= i < |es| ==>
           Lookup(w.entries, es[i].0).Some? && Equal(es[i].1, Lookup(w.entries, es[i].0).value)
  }

  /** A well-formed document equals itself. */
  lemma {:induction false} EqualReflexive(v: Value)
    requires WellFormed(v)
    ensures Equal(v, v)
  {
    match v
    case Int(_) =>
    case Str(_) =>
    case Arr(xs) =>
      forall i | 0 <= i < |xs| ensures Equal(xs[i], xs[i]) {
        EqualReflexive(xs[i]);
      }
    case Tbl(es) =>
      forall i | 0 <= i < |es|
        ensures Lookup(es, es[i].0).Some? && Equal(es[i].1, Lookup(es, es[i].0).value)
      {
        assert Lookup(es, es[i].0) == Some(es[i].1);
        EqualReflexive(es[i].1);
      }
  }

  /** Equality of well-formed documents does not depend on which side is
      compared with which. */
  lemma {:induction false} EqualSymmetric(v: Value, w: Value)
    requires WellFormed(v) && WellFormed(w)
    requires Equal(v, w)
    ensures Equal(w, v)
    decreases v
  {
    match v
    case Int(_) =>
    case Str(_) =>
    case Arr(xs) =>
      forall i | 0 <= i < |xs| ensures Equal(w.elems[i], xs[i]) {
        EqualSymmetric(xs[i], w.elems[i]);
      }
    case Tbl(es) =>
      var fs := w.entries;
      forall j | 0 <= j < |fs|
        ensures Lookup(es, fs[j].0).Some? && Equal(fs[j].1, Lookup(es, fs[j].0).value)
      {
        var k := fs[j].0;
        assert k in KeySet(fs);
        var u := Lookup(es, k).value;
        var i :| 0 <= i < |es| && es[i] == (k, u);
        assert Lookup(fs, k) == Some(fs[j].1);
        EqualSymmetric(es[i].1, fs[j].1);
      }
  }

  /** Two well-formed tables holding the same entries, in whatever order a
      backend keeps them, are equal. */
  lemma EqualUnderReordering(es: seq<(string, Value)>, fs: seq<(string, Value)>)
    requires WellFormed(Tbl(es)) && WellFormed(Tbl(fs))
    requires multiset(es) == multiset(fs)
    ensures Equal(Tbl(es), Tbl(fs))
  {
    forall k | k in KeySet(es) ensures k in KeySet(fs) {
      var i :| 0 <= i < |es| && es[i].0 == k;
      assert es[i] in multiset(fs);
      var j :| 0 <= j < |fs| && fs[j] == es[i];
    }
    forall k | k in KeySet(fs) ensures k in KeySet(es) {
      var j :| 0 <= j < |fs| && fs[j].0 == k;
      assert fs[j] in multiset(es);
      var i :| 0 <= i < |es| && es[i] == fs[j];
    }
    forall i | 0 <= i < |es|
      ensures Lookup(fs, es[i].0).Some? && Equal(es[i].1, Lookup(fs, es[i].0).value)
    {
      assert es[i] in multiset(fs);
      var j :| 0 <= j < |fs| && fs[j] == es[i];
      assert Lookup(fs, es[i].0) == Some(es[i].1);
      EqualReflexive(es[i].1);
    }
  }

  /** Looking a key up in two equal tables finds it in both or in neither,
      and finds equal values. */
  lemma LookupRespectsEqual(es: seq<(string, Value)>, fs: seq<(string, Value)>, key: string)
    requires Equal(Tbl(es), Tbl(fs))
    ensures Lookup(es, key).Some? <==> Lookup(fs, key).Some?
    ensures Lookup(es, key).Some? ==> Equal(Lookup(es, key).value, Lookup(fs, key).value)
  {
    if Lookup(es, key).Some? {
      var i :| 0 <= i < |es| && es[i] == (key, Lookup(es, key).value);
    }
  }
}
