/** The typed configuration accessor of `src/config.rs`: key paths walked
    through a parsed TOML tree, each accessor returning a value of one type or
    a typed error. */
module Config {
  import opened Wrappers
  import Strings
  import Paths

  /** A parsed TOML value. A table keeps its entries in iteration order; a
      parsed document never repeats a key within one table. */
  datatype Value =
    | Bool(b: bool)
    | Int(i: int)
    | Str(s: string)
    | Arr(elems: seq<Value>)
    | Table(entries: seq<(string, Value)>)

  /** A key is the ordered path of segments, e.g. `["build","whiley","source"]`. */
  type Key = seq<string>

  /** The type an accessor expected to find. */
  datatype Type = BoolType | IntType | StringType | StringArrayType

  datatype Error =
    | ParseError(message: string)
    | Invalid(key: string)
    | Expected(expected: Type, key: string)
    | UnknownPlatform(name: string)

  /** A parsed configuration document. */
  datatype Config = Config(toml: Value)

  /** The `Display` text of a type. */
  function TypeName(t: Type): string {
    match t
    case BoolType => "bool"
    case IntType => "int"
    case StringType => "string"
    case StringArrayType => "string array"
  }

  // ===================================================================
  // Keys
  // ===================================================================

  function DotSuffixes(ss: seq<string>): string {
    if |ss| == 0 then "" else "." + ss[0] + DotSuffixes(ss[1..])
  }

  lemma {:induction false} DotSuffixesJoin(k: Key)
    requires |k| > 0
    ensures k[0] + DotSuffixes(k[1..]) == Strings.Join(k, ".")
    decreases |k|
  {
    if |k| > 1 {
      DotSuffixesJoin(k[1..]);
      assert k[1..][1..] == k[2..];
      assert k[0] + DotSuffixes(k[1..]) == k[0] + "." + (k[1] + DotSuffixes(k[2..]));
    } else {
      assert k[0] + "" == k[0];
    }
  }

  /** The `Display` text of a key: its first segment, then `.` and each further
      segment. Formatting reads segment 0, so an empty key panics. */
  function KeyToString(k: Key): (s: string)
    requires |k| > 0
    ensures s == Strings.Join(k, ".")
  {
    DotSuffixesJoin(k);
    k[0] + DotSuffixes(k[1..])
  }

  // ===================================================================
  // Traversal
  // ===================================================================

  /** The value stored under `name` in a list of table entries (the first one). */
  function Lookup(entries: seq<(string, Value)>, name: string): (r: Option<Value>)
    ensures r.None? <==> forall i :: 0 <= i < |entries| ==> entries[i].0 != name
    ensures r.Some? ==> exists i :: 0 <= i < |entries| && entries[i] == (name, r.value)
  {
    if |entries| == 0 then None
    else if entries[0].0 == name then Some(entries[0].1)
    else
      var r := Lookup(entries[1..], name);
      assert r.Some? ==> exists i :: 1 <= i < |entries| && entries[i] == (name, r.value);
      r
  }

  /** No two entries of a table share a name. */
  predicate UniqueNames(entries: seq<(string, Value)>) {
    forall i, j :: 0 <= i < j < |entries| ==> entries[i].0 != entries[j].0
  }

  lemma LookupUnique(entries: seq<(string, Value)>, i: nat)
    requires UniqueNames(entries)
    requires i < |entries|
    ensures Lookup(entries, entries[i].0) == Some(entries[i].1)
  {
    if i > 0 {
      assert UniqueNames(entries[1..]);
      assert entries[1..][i - 1] == entries[i];
      LookupUnique(entries[1..], i - 1);
    }
  }

  /** TOML's `Value::get` with a string index: a table entry, or nothing for a
      table without that entry and for every non-table value. */
  function Child(v: Value, name: string): Option<Value> {
    match v
    case Table(entries) => Lookup(entries, name)
    case _ => None
  }

  /** Follow the segments in order, stopping at the first missing one. */
  function Walk(v: Value, key: Key): Option<Value>
    decreases |key|
  {
    if |key| == 0 then Some(v)
    else
      match Child(v, key[0])
      case None => None
      case Some(w) => Walk(w, key[1..])
  }

  /** Walking `a + b` is walking `a`, then walking `b` from where that led. */
  lemma {:induction false} WalkAppend(v: Value, a: Key, b: Key)
    ensures Walk(v, a + b) == (match Walk(v, a) case None => None case Some(w) => Walk(w, b))
    decreases |a|
  {
    if |a| > 0 {
      assert (a + b)[0] == a[0];
      assert (a + b)[1..] == a[1..] + b;
      match Child(v, a[0])
      case None =>
      case Some(w) => WalkAppend(w, a[1..], b);
    } else {
      assert a + b == b;
    }
  }

  /** `Config::get_key`: the value at a key, never found for the empty key. */
  function GetKey(c: Config, key: Key): (r: Option<Value>)
    ensures |key| == 0 ==> r.None?
  {
    if |key| == 0 then None else Walk(c.toml, key)
  }

  /** Adding one segment to a key takes one more step from the value the key found. */
  lemma GetKeyStep(c: Config, key: Key, s: string)
    requires |key| > 0
    ensures GetKey(c, key + [s]) == (match GetKey(c, key) case None => None case Some(v) => Child(v, s))
  {
    WalkAppend(c.toml, key, [s]);
    match Walk(c.toml, key)
    case None =>
    case Some(w) =>
      assert Walk(w, [s]) == (match Child(w, s) case None => None case Some(x) => Walk(x, []));
  }

  /** The position at which walking `key` from `v` first finds no child. */
  predicate MissingAt(v: Value, key: Key, i: nat)
    requires i < |key|
  {
    Walk(v, key[..i]).Some? && Child(Walk(v, key[..i]).value, key[i]).None?
  }

  /** A walk fails exactly when some segment, reached through all earlier ones, is missing. */
  lemma {:induction false} WalkNoneIff(v: Value, key: Key)
    ensures Walk(v, key).None? <==> exists i :: 0 <= i < |key| && MissingAt(v, key, i)
    decreases |key|
  {
    if |key| > 0 {
      assert key[..0] == [];
      match Child(v, key[0])
      case None =>
        assert MissingAt(v, key, 0);
      case Some(w) =>
        WalkNoneIff(w, key[1..]);
        forall i | 0 < i <= |key[1..]|
          ensures Walk(v, key[..i]) == Walk(w, key[1..][..i - 1])
        {
          assert key[..i][0] == key[0];
          assert key[..i][1..] == key[1..][..i - 1];
        }
        if Walk(w, key[1..]).None? {
          var j :| 0 <= j < |key[1..]| && MissingAt(w, key[1..], j);
          assert key[1..][j] == key[j + 1];
          assert MissingAt(v, key, j + 1);
        } else {
          forall i | 0 <= i < |key| ensures !MissingAt(v, key, i) {
            if i > 0 {
              assert key[1..][i - 1] == key[i];
              assert !MissingAt(w, key[1..], i - 1);
            }
          }
        }
    }
  }

  /** `get_key` returns `None` exactly for the empty key and for a key one of
      whose segments is missing. */
  lemma GetKeyNoneIff(c: Config, key: Key)
    ensures GetKey(c, key).None? <==>
      |key| == 0 || exists i :: 0 <= i < |key| && MissingAt(c.toml, key, i)
  {
    WalkNoneIff(c.toml, key);
  }

  // ===================================================================
  // Typed accessors
  // ===================================================================

  /** `get_bool`. */
  function GetBool(c: Config, key: Key): (r: Result<bool, Error>)
    requires |key| > 0
    ensures GetKey(c, key).None? <==> r == Err(Invalid(KeyToString(key)))
    ensures r.Ok? <==> GetKey(c, key).Some? && GetKey(c, key).value.Bool?
    ensures r.Ok? ==> GetKey(c, key) == Some(Bool(r.value))
    ensures GetKey(c, key).Some? && r.Err? ==> r.error == Expected(BoolType, KeyToString(key))
  {
    match GetKey(c, key)
    case None => Err(Invalid(KeyToString(key)))
    case Some(Bool(b)) => Ok(b)
    case Some(_) => Err(Expected(BoolType, KeyToString(key)))
  }

  /** `get_int`. */
  function GetInt(c: Config, key: Key): (r: Result<int, Error>)
    requires |key| > 0
    ensures GetKey(c, key).None? <==> r == Err(Invalid(KeyToString(key)))
    ensures r.Ok? <==> GetKey(c, key).Some? && GetKey(c, key).value.Int?
    ensures r.Ok? ==> GetKey(c, key) == Some(Int(r.value))
    ensures GetKey(c, key).Some? && r.Err? ==> r.error == Expected(IntType, KeyToString(key))
  {
    match GetKey(c, key)
    case None => Err(Invalid(KeyToString(key)))
    case Some(Int(i)) => Ok(i)
    case Some(_) => Err(Expected(IntType, KeyToString(key)))
  }

  /** `get_string`. */
  function GetString(c: Config, key: Key): (r: Result<string, Error>)
    requires |key| > 0
    ensures GetKey(c, key).None? <==> r == Err(Invalid(KeyToString(key)))
    ensures r.Ok? <==> GetKey(c, key).Some? && GetKey(c, key).value.Str?
    ensures r.Ok? ==> GetKey(c, key) == Some(Str(r.value))
    ensures GetKey(c, key).Some? && r.Err? ==> r.error == Expected(StringType, KeyToString(key))
  {
    match GetKey(c, key)
    case None => Err(Invalid(KeyToString(key)))
    case Some(Str(s)) => Ok(s)
    case Some(_) => Err(Expected(StringType, KeyToString(key)))
  }

  /** The strings held by a list of values, or nothing if one of them is not a string. */
  function AsStrings(vs: seq<Value>): (r: Option<seq<string>>)
    ensures r.Some? <==> forall i :: 0 <= i < |vs| ==> vs[i].Str?
    ensures r.Some? ==> |r.value| == |vs| && forall i :: 0 <= i < |vs| ==> vs[i] == Str(r.value[i])
  {
    if |vs| == 0 then Some([])
    else if !vs[0].Str? then None
    else
      match AsStrings(vs[1..])
      case None => None
      case Some(rest) => Some([vs[0].s] + rest)
  }

  /** `get_string_array`. */
  function GetStringArray(c: Config, key: Key): (r: Result<seq<string>, Error>)
    requires |key| > 0
    ensures GetKey(c, key).None? <==> r == Err(Invalid(KeyToString(key)))
    ensures r.Ok? <==>
      GetKey(c, key).Some? && GetKey(c, key).value.Arr? &&
      forall i :: 0 <= i < |GetKey(c, key).value.elems| ==> GetKey(c, key).value.elems[i].Str?
    ensures r.Ok? ==>
      GetKey(c, key).Some? && GetKey(c, key).value.Arr? &&
      |r.value| == |GetKey(c, key).value.elems| &&
      forall i :: 0 <= i < |r.value| ==> GetKey(c, key).value.elems[i] == Str(r.value[i])
    ensures GetKey(c, key).Some? && r.Err? ==> r.error == Expected(StringArrayType, KeyToString(key))
  {
    match GetKey(c, key)
    case None => Err(Invalid(KeyToString(key)))
    case Some(Arr(vs)) =>
      (match AsStrings(vs)
       case None => Err(Expected(StringArrayType, KeyToString(key)))
       case Some(ss) => Ok(ss))
    case Some(_) => Err(Expected(StringArrayType, KeyToString(key)))
  }

  /** The entry names of a table, in order. */
  function Names(entries: seq<(string, Value)>): (r: seq<string>)
    ensures |r| == |entries| && forall i :: 0 <= i < |entries| ==> r[i] == entries[i].0
  {
    if |entries| == 0 then [] else [entries[0].0] + Names(entries[1..])
  }

  /** `find_keys`: the direct children of a table. A missing key and a
      non-table value both give `Invalid`; `Expected` never arises. */
  function FindKeys(c: Config, key: Key): (r: Result<seq<string>, Error>)
    requires |key| > 0
    ensures r.Err? <==> GetKey(c, key).None? || !GetKey(c, key).value.Table?
    ensures r.Err? ==> r.error == Invalid(KeyToString(key))
    ensures r.Ok? ==> r.value == Names(GetKey(c, key).value.entries)
  {
    match GetKey(c, key)
    case Some(Table(entries)) => Ok(Names(entries))
    case _ => Err(Invalid(KeyToString(key)))
  }

  /** Subkey `i` is the first whose value is not a string, failing with `e`. */
  predicate FirstFailure(c: Config, key: Key, subkeys: seq<string>, i: nat, e: Error)
    requires |key| > 0 && i < |subkeys|
  {
    && GetString(c, key + [subkeys[i]]) == Err(e)
    && forall j :: 0 <= j < i ==> GetString(c, key + [subkeys[j]]).Ok?
  }

  /** The loop of `get_strings`: each subkey paired with its string value,
      stopping at the first value that is not a string. */
  function SubkeyStrings(c: Config, key: Key, subkeys: seq<string>): (r: Result<seq<(string, string)>, Error>)
    requires |key| > 0
    ensures r.Ok? ==>
      |r.value| == |subkeys| &&
      forall i :: 0 <= i < |subkeys| ==>
        r.value[i].0 == subkeys[i] && GetString(c, key + [subkeys[i]]) == Ok(r.value[i].1)
    ensures r.Err? ==> exists i :: 0 <= i < |subkeys| && FirstFailure(c, key, subkeys, i, r.error)
  {
    if |subkeys| == 0 then Ok([])
    else
      match GetString(c, key + [subkeys[0]])
      case Err(e) =>
        assert FirstFailure(c, key, subkeys, 0, e);
        Err(e)
      case Ok(v) =>
        match SubkeyStrings(c, key, subkeys[1..])
        case Err(e) =>
          assert exists i :: 0 <= i < |subkeys| && FirstFailure(c, key, subkeys, i, e) by {
            var i :| 0 <= i < |subkeys[1..]| && FirstFailure(c, key, subkeys[1..], i, e);
            assert forall j :: 1 <= j < i + 1 ==> subkeys[j] == subkeys[1..][j - 1];
            assert FirstFailure(c, key, subkeys, i + 1, e);
          }
          Err(e)
        case Ok(rest) => Ok([(subkeys[0], v)] + rest)
  }

  /** `get_strings`: one `(subkey, value)` pair per child that `find_keys`
      lists, failing at the first child that is not a string. */
  function GetStrings(c: Config, key: Key): (r: Result<seq<(string, string)>, Error>)
    requires |key| > 0
    ensures FindKeys(c, key).Err? ==> r == Err(FindKeys(c, key).error)
    ensures FindKeys(c, key).Ok? ==> r == SubkeyStrings(c, key, FindKeys(c, key).value)
  {
    var subkeys :- FindKeys(c, key);
    SubkeyStrings(c, key, subkeys)
  }

  /** On a table without repeated names, `get_strings` succeeds exactly when
      every child is a string, and then returns each child's name and text in
      table order. */
  lemma GetStringsOfTable(c: Config, key: Key, entries: seq<(string, Value)>)
    requires |key| > 0
    requires GetKey(c, key) == Some(Table(entries))
    requires UniqueNames(entries)
    ensures GetStrings(c, key).Ok? <==> forall i :: 0 <= i < |entries| ==> entries[i].1.Str?
    ensures GetStrings(c, key).Ok? ==>
      |GetStrings(c, key).value| == |entries| &&
      forall i :: 0 <= i < |entries| ==> GetStrings(c, key).value[i] == (entries[i].0, entries[i].1.s)
  {
    forall i | 0 <= i < |entries|
      ensures GetKey(c, key + [entries[i].0]) == Some(entries[i].1)
    {
      GetKeyStep(c, key, entries[i].0);
      LookupUnique(entries, i);
    }
    var names := Names(entries);
    if GetStrings(c, key).Err? {
      var e := GetStrings(c, key).error;
      var i :| 0 <= i < |names| && FirstFailure(c, key, names, i, e);
      assert GetKey(c, key + [names[i]]) == Some(entries[i].1);
      assert !entries[i].1.Str?;
    }
  }

  /** `get_path`: the configured string split on `/` into path components. */
  function GetPath(c: Config, key: Key): (r: Result<Paths.PathBuf, Error>)
    requires |key| > 0
    ensures r.Err? <==> GetString(c, key).Err?
    ensures r.Err? ==> r.error == GetString(c, key).error
    ensures r.Ok? ==> |r.value.parts| >= 1 && forall i :: 0 <= i < |r.value.parts| ==> '/' !in r.value.parts[i]
    ensures r.Ok? ==> Paths.Display(r.value, '/') == GetString(c, key).value
  {
    var s :- GetString(c, key);
    Ok(Paths.PathBuf(Strings.Split(s, '/')))
  }

  // ===================================================================
  // What a key holds, independently of the accessors
  // ===================================================================

  /** The string stored at `key`, if the leaf there is a string. */
  function StringLeaf(c: Config, key: Key): Option<string> {
    match GetKey(c, key)
    case Some(Str(s)) => Some(s)
    case _ => None
  }

  /** The boolean stored at `key`, if the leaf there is a boolean. */
  function BoolLeaf(c: Config, key: Key): Option<bool> {
    match GetKey(c, key)
    case Some(Bool(b)) => Some(b)
    case _ => None
  }

  /** The integer stored at `key`, if the leaf there is an integer. */
  function IntLeaf(c: Config, key: Key): Option<int> {
    match GetKey(c, key)
    case Some(Int(i)) => Some(i)
    case _ => None
  }

  /** The strings stored at `key`, if the leaf there is an array of strings. */
  function StringArrayLeaf(c: Config, key: Key): Option<seq<string>> {
    match GetKey(c, key)
    case Some(Arr(vs)) => AsStrings(vs)
    case _ => None
  }

  /** Discarding an accessor's error (`.ok()`, and so `.unwrap_or(d)`) leaves
      exactly what the key holds when it has the accessor's type. */
  lemma AccessorsAgreeWithLeaves(c: Config, key: Key)
    requires |key| > 0
    ensures GetString(c, key).ToOption() == StringLeaf(c, key)
    ensures GetBool(c, key).ToOption() == BoolLeaf(c, key)
    ensures GetInt(c, key).ToOption() == IntLeaf(c, key)
    ensures GetStringArray(c, key).ToOption() == StringArrayLeaf(c, key)
  {
    StringAgrees(c, key);
    BoolAgrees(c, key);
    IntAgrees(c, key);
    StringArrayAgrees(c, key);
  }

  lemma StringAgrees(c: Config, key: Key)
    requires |key| > 0
    ensures GetString(c, key).ToOption() == StringLeaf(c, key)
  {
  }

  lemma BoolAgrees(c: Config, key: Key)
    requires |key| > 0
    ensures GetBool(c, key).ToOption() == BoolLeaf(c, key)
  {
  }

  lemma IntAgrees(c: Config, key: Key)
    requires |key| > 0
    ensures GetInt(c, key).ToOption() == IntLeaf(c, key)
  {
  }

  /** Reading with a fallback gives the leaf, or the fallback without one. */
  lemma StringOr(c: Config, key: Key, d: string)
    requires |key| > 0
    ensures GetString(c, key).GetOr(d) == StringLeaf(c, key).GetOr(d)
  {
  }

  lemma BoolOr(c: Config, key: Key, d: bool)
    requires |key| > 0
    ensures GetBool(c, key).GetOr(d) == BoolLeaf(c, key).GetOr(d)
  {
  }

  lemma IntOr(c: Config, key: Key, d: int)
    requires |key| > 0
    ensures GetInt(c, key).GetOr(d) == IntLeaf(c, key).GetOr(d)
  {
  }

  lemma StringArrayAgrees(c: Config, key: Key)
    requires |key| > 0
    ensures GetStringArray(c, key).ToOption() == StringArrayLeaf(c, key)
  {
  }
}
