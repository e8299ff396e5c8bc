/** A parsed TOML file seen through a schema (`src/main/java/wy/cfg/ConfigFile.java`):
    the file is a list of declarations, key/value pairs at the top level or
    inside named tables; looking a key up, listing matching keys and
    validating the whole file against the schema when it is opened. */
module ConfigFile {
  import opened Wrappers
  import Tries
  import C = Configuration

  datatype KeyValuePair = KeyValuePair(key: string, value: C.Value)

  datatype Declaration =
    | Table(name: string, contents: seq<KeyValuePair>)
    | Pair(kvp: KeyValuePair)

  /** The key of a table's pair: the table's name as a path, then the key. */
  function TableKey(name: string, key: string): (k: Tries.Trie)
    ensures |k| >= 2 && k[|k| - 1] == key && Tries.ToString(k[..|k| - 1]) == name
  {
    var k := Tries.FromString(name) + [key];
    assert k[..|k| - 1] == Tries.FromString(name);
    k
  }

  /** The pair for `key` in the first table named `name`, if any. */
  predicate InTable(d: Declaration, name: string) {
    d.Table? && d.name == name
  }

  /** `getKeyValuePair`: a one-segment key names the first top-level pair
      with that key; a longer key looks for its last segment in the first
      table named by the rest, and nowhere else. */
  function GetKeyValuePair(key: Tries.Trie, decls: seq<Declaration>): (r: Option<KeyValuePair>)
    requires |key| >= 1
    ensures r.Some? ==> r.value.key == key[|key| - 1]
    ensures |key| == 1 ==>
      (r.Some? <==> exists i :: 0 <= i < |decls| && decls[i].Pair? && decls[i].kvp.key == key[0])
    ensures |key| == 1 && r.Some? ==>
      exists i :: 0 <= i < |decls| && decls[i] == Pair(r.value) &&
        forall j :: 0 <= j < i ==> !(decls[j].Pair? && decls[j].kvp.key == key[0])
    ensures |key| > 1 && r.Some? ==>
      exists i :: 0 <= i < |decls| && InTable(decls[i], Tries.ToString(key[..|key| - 1])) &&
        r.value in decls[i].contents &&
        forall j :: 0 <= j < i ==> !InTable(decls[j], Tries.ToString(key[..|key| - 1]))
    decreases |key|, |decls|
  {
    if |decls| == 0 then None
    else match decls[0]
      case Table(name, contents) =>
        if |key| > 1 && name == Tries.ToString(key[..|key| - 1]) then
          var r := GetKeyValuePair([key[|key| - 1]], Pairs(contents));
          assert r.Some? ==> Pair(r.value) in Pairs(contents);
          r
        else
          var r := GetKeyValuePair(key, decls[1..]);
          assert forall i :: 1 <= i < |decls| ==> decls[i] == decls[1..][i - 1];
          r
      case Pair(p) =>
        if |key| == 1 && p.key == key[0] then Some(p)
        else
          var r := GetKeyValuePair(key, decls[1..]);
          assert forall i :: 1 <= i < |decls| ==> decls[i] == decls[1..][i - 1];
          r
  }

  /** A table's contents as declarations. */
  function Pairs(kvps: seq<KeyValuePair>): (r: seq<Declaration>)
    ensures |r| == |kvps| && forall i :: 0 <= i < |kvps| ==> r[i] == Pair(kvps[i])
  {
    seq(|kvps|, i requires 0 <= i < |kvps| => Pair(kvps[i]))
  }

  /** Once a table of the key's parent name has been declared, later
      declarations, including later tables of the same name, are never
      consulted. */
  lemma {:induction false} FirstTableDecides(key: Tries.Trie, decls: seq<Declaration>, more: seq<Declaration>)
    requires |key| > 1
    requires exists i :: 0 <= i < |decls| && InTable(decls[i], Tries.ToString(key[..|key| - 1]))
    ensures GetKeyValuePair(key, decls + more) == GetKeyValuePair(key, decls)
    decreases |decls|
  {
    assert (decls + more)[0] == decls[0];
    if !InTable(decls[0], Tries.ToString(key[..|key| - 1])) {
      assert (decls + more)[1..] == decls[1..] + more;
      var i :| 0 <= i < |decls| && InTable(decls[i], Tries.ToString(key[..|key| - 1]));
      assert decls[1..][i - 1] == decls[i];
      FirstTableDecides(key, decls[1..], more);
    }
  }

  /** Every key the file defines, in declaration order: a top-level pair's
      key, or a table's path followed by its pair's key. */
  function KeyPaths(decls: seq<Declaration>): (r: seq<Tries.Trie>)
    ensures forall k :: k in r ==> |k| >= 1
    decreases |decls|
  {
    if |decls| == 0 then []
    else
      (match decls[0]
       case Table(name, contents) => TablePaths(name, contents)
       case Pair(p) => [[p.key]]) + KeyPaths(decls[1..])
  }

  function TablePaths(name: string, kvps: seq<KeyValuePair>): (r: seq<Tries.Trie>)
    ensures |r| == |kvps| && forall i :: 0 <= i < |kvps| ==> r[i] == TableKey(name, kvps[i].key)
  {
    seq(|kvps|, i requires 0 <= i < |kvps| => TableKey(name, kvps[i].key))
  }

  /** The keys of `ks` the filter accepts, in order. */
  function Select(filter: Tries.Trie, ks: seq<Tries.Trie>): (r: seq<Tries.Trie>)
    ensures forall k :: k in r <==> k in ks && Tries.Matches(filter, k)
    ensures |r| <= |ks|
    ensures (forall k :: k in ks ==> !Tries.Matches(filter, k)) ==> r == []
    decreases |ks|
  {
    if |ks| == 0 then []
    else (if Tries.Matches(filter, ks[0]) then [ks[0]] else []) + Select(filter, ks[1..])
  }

  lemma {:induction false} SelectAppend(filter: Tries.Trie, a: seq<Tries.Trie>, b: seq<Tries.Trie>)
    ensures Select(filter, a + b) == Select(filter, a) + Select(filter, b)
    decreases |a|
  {
    if |a| > 0 {
      assert (a + b)[0] == a[0] && (a + b)[1..] == a[1..] + b;
      SelectAppend(filter, a[1..], b);
      var x := if Tries.Matches(filter, a[0]) then [a[0]] else [];
      assert Select(filter, a + b) == x + (Select(filter, a[1..]) + Select(filter, b));
      assert Select(filter, a) == x + Select(filter, a[1..]);
    } else {
      assert a + b == b;
    }
  }

  /** `match` over a table's pairs, below the path `id`. */
  function MatchPairs(id: Tries.Trie, filter: Tries.Trie, kvps: seq<KeyValuePair>): seq<Tries.Trie>
    decreases |kvps|
  {
    if |kvps| == 0 then []
    else
      var k := id + [kvps[0].key];
      (if Tries.Matches(filter, k) then [k] else []) + MatchPairs(id, filter, kvps[1..])
  }

  /** `match`: walk the declarations, descending into tables, collecting the
      keys the filter accepts. */
  function MatchDecls(id: Tries.Trie, filter: Tries.Trie, decls: seq<Declaration>): seq<Tries.Trie>
    decreases |decls|
  {
    if |decls| == 0 then []
    else
      (match decls[0]
       case Table(name, contents) => MatchPairs(id + Tries.FromString(name), filter, contents)
       case Pair(p) => if Tries.Matches(filter, id + [p.key]) then [id + [p.key]] else [])
      + MatchDecls(id, filter, decls[1..])
  }

  lemma {:induction false} MatchPairsSelects(name: string, filter: Tries.Trie, kvps: seq<KeyValuePair>)
    ensures MatchPairs(Tries.FromString(name), filter, kvps) == Select(filter, TablePaths(name, kvps))
    decreases |kvps|
  {
    if |kvps| > 0 {
      MatchPairsSelects(name, filter, kvps[1..]);
      assert TablePaths(name, kvps) == [TablePaths(name, kvps)[0]] + TablePaths(name, kvps[1..]);
    }
  }

  lemma {:induction false} MatchDeclsSelects(filter: Tries.Trie, decls: seq<Declaration>)
    ensures MatchDecls([], filter, decls) == Select(filter, KeyPaths(decls))
    decreases |decls|
  {
    if |decls| > 0 {
      MatchDeclsSelects(filter, decls[1..]);
      match decls[0]
      case Table(name, contents) =>
        assert [] + Tries.FromString(name) == Tries.FromString(name);
        MatchPairsSelects(name, filter, contents);
        SelectAppend(filter, TablePaths(name, contents), KeyPaths(decls[1..]));
      case Pair(p) =>
        assert [] + [p.key] == [p.key];
        SelectAppend(filter, [[p.key]], KeyPaths(decls[1..]));
    }
  }

  /** The configuration a file gives under a schema (`Wrapper`). */
  datatype Wrapper = Wrapper(schema: C.Schema, strict: bool, decls: seq<Declaration>)

  /** `matchAll`: the keys of the file the filter accepts, in declaration
      order. */
  function MatchAll(w: Wrapper, filter: Tries.Trie): (r: seq<Tries.Trie>)
    ensures r == Select(filter, KeyPaths(w.decls))
  {
    MatchDeclsSelects(filter, w.decls);
    MatchDecls([], filter, w.decls)
  }

  /** `hasKey`: the file has a pair for the key, or else the schema gives it
      a default. */
  function HasKey(w: Wrapper, key: Tries.Trie): (r: bool)
    requires |key| >= 1
    ensures GetKeyValuePair(key, w.decls).Some? ==> r
    ensures GetKeyValuePair(key, w.decls).None? ==>
      (r <==> C.GetDescriptor(w.schema, key).Ok? && C.HasDefault(C.GetDescriptor(w.schema, key).value))
  {
    C.GetDescriptorIffIsKey(w.schema, key);
    var kvp := GetKeyValuePair(key, w.decls);
    if kvp.None? && C.IsKey(w.schema, key) then
      C.HasDefault(C.GetDescriptor(w.schema, key).value)
    else kvp.Some?
  }

  /** `get(kind, key)`: the file's value overrides the default; the key must
      be known to the schema, and a file value must be of the requested kind.
      A default is returned without a kind check (the source casts it
      unchecked). */
  function Get(w: Wrapper, kind: C.Kind, key: Tries.Trie): (r: Result<C.Value, C.Error>)
    requires |key| >= 1
    ensures C.GetDescriptor(w.schema, key).Err? ==> r == Err(C.GetDescriptor(w.schema, key).error)
    ensures C.GetDescriptor(w.schema, key).Ok? ==>
      var d := C.GetDescriptor(w.schema, key).value;
      match GetKeyValuePair(key, w.decls)
      case Some(p) =>
        r == if C.IsInstance(kind, p.value) then Ok(p.value) else Err(C.IncompatibleKeyAccess(kind, d.kind))
      case None =>
        r == if C.HasDefault(d) then Ok(d.default.value) else Err(C.InvalidKeyAccess(key))
  {
    var d :- C.GetDescriptor(w.schema, key);
    var kvp := GetKeyValuePair(key, w.decls);
    if kvp.None? && C.HasDefault(d) then Ok(d.default.value)
    else if kvp.Some? then
      if !C.IsInstance(kind, kvp.value.value) then Err(C.IncompatibleKeyAccess(kind, d.kind))
      else Ok(kvp.value.value)
    else Err(C.InvalidKeyAccess(key))
  }

  /** `write`: not supported. */
  function Write(w: Wrapper, key: Tries.Trie, v: C.Value): (r: Result<(), C.Error>)
    ensures r == Err(C.Unsupported)
  {
    Err(C.Unsupported)
  }

  /** The file's value at `key` passes descriptor `d`. */
  predicate ValueConforms(d: C.Descriptor, key: Tries.Trie, decls: seq<Declaration>)
    requires |key| >= 1
  {
    var kvp := GetKeyValuePair(key, decls);
    kvp.Some? && C.IsInstance(d.kind, kvp.value.value) && C.IsValid(d.check, kvp.value.value)
  }

  /** Descriptor `d` holds of the file: a required key is present, and every
      key it matches has a value of its kind that its check accepts. */
  predicate DescriptorHolds(d: C.Descriptor, decls: seq<Declaration>) {
    var ids := Select(d.filter, KeyPaths(decls));
    (d.required ==> |ids| > 0) &&
    forall id :: id in ids ==> ValueConforms(d, id, decls)
  }

  /** Some descriptor's filter accepts `key`. */
  predicate Described(ds: seq<C.Descriptor>, key: Tries.Trie) {
    exists i :: 0 <= i < |ds| && Tries.Matches(ds[i].filter, key)
  }

  /** The file conforms to the schema: every descriptor holds and, in strict
      mode, every key is described. */
  predicate Conforms(schema: C.Schema, strict: bool, decls: seq<Declaration>) {
    (forall d :: d in C.Descriptors(schema) ==> DescriptorHolds(d, decls)) &&
    (strict ==> forall k :: k in KeyPaths(decls) ==> Described(C.Descriptors(schema), k))
  }

  /** The inner loop of `validate`: every key `d` matches has a value of
      `d`'s kind that `d` accepts; a key with no pair fails on the
      dereference. */
  function CheckKeys(d: C.Descriptor, ids: seq<Tries.Trie>, decls: seq<Declaration>): (r: Result<(), C.Error>)
    requires forall k :: k in ids ==> |k| >= 1
    ensures r.Ok? <==> forall k :: k in ids ==> ValueConforms(d, k, decls)
    ensures r.Err? ==> r.error in {C.NullValue, C.InvalidKeyValueType(d.kind), C.InvalidKeyValue}
    decreases |ids|
  {
    if |ids| == 0 then Ok(())
    else
      var kvp := GetKeyValuePair(ids[0], decls);
      assert ids[0] in ids;
      if kvp.None? then Err(C.NullValue)
      else if !C.IsInstance(d.kind, kvp.value.value) then Err(C.InvalidKeyValueType(d.kind))
      else if !C.IsValid(d.check, kvp.value.value) then Err(C.InvalidKeyValue)
      else
        assert forall k :: k in ids <==> k == ids[0] || k in ids[1..] by {
          assert ids == [ids[0]] + ids[1..];
        }
        CheckKeys(d, ids[1..], decls)
  }

  /** The descriptor loop of `validate`: check each descriptor in order and
      collect the keys they match. */
  function CheckDescriptors(ds: seq<C.Descriptor>, decls: seq<Declaration>): (r: Result<set<Tries.Trie>, C.Error>)
    ensures r.Ok? <==> forall i :: 0 <= i < |ds| ==> DescriptorHolds(ds[i], decls)
    ensures r.Ok? ==> forall k :: k in r.value <==> k in KeyPaths(decls) && Described(ds, k)
    decreases |ds|
  {
    if |ds| == 0 then Ok({})
    else
      var d := ds[0];
      var ids := Select(d.filter, KeyPaths(decls));
      if |ids| == 0 && d.required then Err(C.MissingKeyValue(d.filter))
      else
        match CheckKeys(d, ids, decls)
        case Err(e) => Err(e)
        case Ok(_) =>
          assert forall i :: 1 <= i < |ds| ==> ds[i] == ds[1..][i - 1];
          match CheckDescriptors(ds[1..], decls)
          case Err(e) => Err(e)
          case Ok(rest) =>
            assert forall k :: Described(ds, k) <==> Tries.Matches(d.filter, k) || Described(ds[1..], k) by {
              forall k ensures Described(ds, k) <==> Tries.Matches(d.filter, k) || Described(ds[1..], k) {
                if Described(ds, k) && !Tries.Matches(d.filter, k) {
                  var i :| 0 <= i < |ds| && Tries.Matches(ds[i].filter, k);
                  assert ds[1..][i - 1] == ds[i];
                }
              }
            }
            Ok((set k | k in ids) + rest)
  }

  /** The strict check: the first key not matched by any descriptor. */
  function CheckMatched(all: seq<Tries.Trie>, matched: set<Tries.Trie>): (r: Result<(), C.Error>)
    ensures r.Ok? <==> forall k :: k in all ==> k in matched
    ensures r.Err? ==> r.error.UnknownKey? && r.error.key in all && r.error.key !in matched
    decreases |all|
  {
    if |all| == 0 then Ok(())
    else if all[0] !in matched then Err(C.UnknownKey(all[0]))
    else
      assert forall k :: k in all <==> k == all[0] || k in all[1..] by {
        assert all == [all[0]] + all[1..];
      }
      CheckMatched(all[1..], matched)
  }

  /** `validate`, run when the wrapper is built. */
  function Validate(schema: C.Schema, strict: bool, decls: seq<Declaration>): (r: Result<(), C.Error>)
    ensures r.Ok? <==> Conforms(schema, strict, decls)
  {
    var ds := C.Descriptors(schema);
    assert (forall d :: d in ds ==> DescriptorHolds(d, decls)) <==>
           (forall i :: 0 <= i < |ds| ==> DescriptorHolds(ds[i], decls));
    var matched :- CheckDescriptors(ds, decls);
    if strict then
      var all := Select(["**", "*"], KeyPaths(decls));
      assert forall k :: k in all <==> k in KeyPaths(decls) by {
        forall k ensures k in all <==> k in KeyPaths(decls) {
          Tries.EveryKeyMatches(k);
        }
      }
      CheckMatched(all, matched)
    else Ok(())
  }

  /** `toConfiguration(schema, strict)`: the file's configuration, validated
      as it is built. */
  function ToConfiguration(decls: seq<Declaration>, schema: C.Schema, strict: bool): (r: Result<Wrapper, C.Error>)
    ensures r.Ok? <==> Conforms(schema, strict, decls)
    ensures r.Ok? ==> r.value == Wrapper(schema, strict, decls)
  {
    var _ :- Validate(schema, strict, decls);
    Ok(Wrapper(schema, strict, decls))
  }

  /** A required descriptor that matches no key rejects the file. */
  lemma MissingRequiredRejects(schema: C.Schema, strict: bool, decls: seq<Declaration>, d: C.Descriptor)
    requires d in C.Descriptors(schema) && d.required
    requires forall k :: k in KeyPaths(decls) ==> !Tries.Matches(d.filter, k)
    ensures ToConfiguration(decls, schema, strict).Err?
  {
    assert Select(d.filter, KeyPaths(decls)) == [];
  }

  /** A key no descriptor describes rejects the file in strict mode only. */
  lemma UndescribedKeyOnlyMattersWhenStrict(schema: C.Schema, decls: seq<Declaration>, k: Tries.Trie)
    requires k in KeyPaths(decls) && !Described(C.Descriptors(schema), k)
    ensures ToConfiguration(decls, schema, true).Err?
    ensures ToConfiguration(decls, schema, false).Ok? <==>
      forall d :: d in C.Descriptors(schema) ==> DescriptorHolds(d, decls)
  {
  }

  /** The only key of the two tables is the second one's pair. */
  lemma DuplicateTablePaths()
    ensures KeyPaths([Table("a", []), Table("a", [KeyValuePair("b", C.Str("x"))])]) == [["a", "b"]]
  {
    var decls := [Table("a", []), Table("a", [KeyValuePair("b", C.Str("x"))])];
    assert Tries.FromString("a") == ["a"];
    assert TableKey("a", "b") == ["a", "b"];
    assert KeyPaths(decls[1..]) == TablePaths("a", decls[1].contents) + KeyPaths([]);
  }

  /** Two tables of one name: the second's pair is listed by `matchAll` but
      lookup finds only the first table, so validation fails on the
      dereference. */
  lemma DuplicateTableFailsValidation()
    ensures var decls := [Table("a", []), Table("a", [KeyValuePair("b", C.Str("x"))])];
      var schema := C.FromArray([C.UnboundString(["a", "b"], "", false)]);
      ["a", "b"] in KeyPaths(decls) && GetKeyValuePair(["a", "b"], decls).None? &&
      Validate(schema, false, decls) == Err(C.NullValue)
  {
    var decls := [Table("a", []), Table("a", [KeyValuePair("b", C.Str("x"))])];
    DuplicateTablePaths();
    assert Tries.ToString(["a"]) == "a";
    assert Tries.Matches(["a", "b"], ["a", "b"]) by {
      Tries.LiteralMatches(["a", "b"], ["a", "b"]);
    }
    assert Select(["a", "b"], [["a", "b"]]) == [["a", "b"]];
  }
}
