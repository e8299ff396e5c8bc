/** Schema-checked configuration of the Java tool
    (`src/main/java/wybt/cfg/Configuration.java`): values, key/value
    descriptors with defaults and validity checks, schemas built from
    descriptor arrays or by combining schemas, and the empty configuration. */
module Configuration {
  import opened Wrappers
  import Tries
  import Regex

  /** A configuration value as the file parser produces it. */
  datatype Value =
    | Str(s: string)
    | Int(i: int)          // `BigInteger`
    | Bool(b: bool)
    | Array(elems: seq<Value>)   // `Object[]`

  /** The Java classes descriptors are typed by. */
  datatype Kind = StringKind | IntegerKind | BooleanKind | ArrayKind

  /** `kind.isInstance(v)`. */
  predicate IsInstance(kind: Kind, v: Value) {
    match kind
    case StringKind => v.Str?
    case IntegerKind => v.Int?
    case BooleanKind => v.Bool?
    case ArrayKind => v.Array?
  }

  /** The exceptions configuration access can raise. */
  datatype Error =
    | InvalidKey(key: Tries.Trie)              // unknown to the schema
    | InvalidKeyAccess(key: Tries.Trie)        // no value and no default
    | IncompatibleKeyAccess(expected: Kind, got: Kind)
    | InvalidDefault                           // a default its own check rejects
    | Unsupported                              // writing is not supported
    | MissingKeyValue(filter: Tries.Trie)      // a required key is absent
    | InvalidKeyValueType(expected: Kind)
    | InvalidKeyValue                          // a value its check rejects
    | UnknownKey(key: Tries.Trie)              // strict mode: a key no descriptor matches
    | NullValue                                // a dereferenced missing key/value pair

  type Int32 = x: int | -0x8000_0000 <= x < 0x8000_0000

  /** The constraint a descriptor puts on values beyond their type. */
  datatype Check =
    | AnyValue
    | Matching(pattern: Regex.Pattern)
    | AtLeast(low: Int32)
    | Within(low: Int32, high: Int32)
    | ElementsOf(kind: Kind)

  /** `BigInteger.intValue()`: the low 32 bits, read as a signed number. */
  function IntValue(v: int): (r: Int32)
    ensures (r - v) % 0x1_0000_0000 == 0
  {
    var low := v % 0x1_0000_0000;
    if low < 0x8000_0000 then low else low - 0x1_0000_0000
  }

  /** `isValid` as the integer descriptors write it: the bound is compared
      with `intValue()` of the value. */
  predicate IsValidAsWritten(check: Check, v: Value) {
    match check
    case AtLeast(low) => v.Int? && IntValue(v.i) >= low
    case Within(low, high) => v.Int? && IntValue(v.i) >= low && IntValue(v.i) <= high
    case _ => IsValid(check, v)
  }

  /** `isValid`, comparing integers by value. */
  predicate IsValid(check: Check, v: Value) {
    match check
    case AnyValue => true
    case Matching(p) => v.Str? && Regex.FullMatch(p, v.s)
    case AtLeast(low) => v.Int? && v.i >= low
    case Within(low, high) => v.Int? && low <= v.i <= high
    case ElementsOf(kind) => v.Array? && forall k :: 0 <= k < |v.elems| ==> IsInstance(kind, v.elems[k])
  }

  /** The two readings agree on every value that fits in 32 bits. */
  lemma IntValueAgreesIn32Bits(check: Check, v: Value)
    requires v.Int? ==> -0x8000_0000 <= v.i < 0x8000_0000
    ensures IsValidAsWritten(check, v) <==> IsValid(check, v)
  {
  }

  /** A lower bound of 0 rejects 2^31, which is not below it: its low 32 bits
      read as -2^31. */
  lemma AtLeastRejectsLargeValue()
    ensures !IsValidAsWritten(AtLeast(0), Int(0x8000_0000))
    ensures IsValid(AtLeast(0), Int(0x8000_0000))
  {
  }

  /** The range 0..10 accepts 2^32 + 5, which is above it: its low 32 bits
      read as 5. */
  lemma WithinAcceptsLargeValue()
    ensures IsValidAsWritten(Within(0, 10), Int(0x1_0000_0005))
    ensures !IsValid(Within(0, 10), Int(0x1_0000_0005))
  {
  }

  /** A key/value descriptor (`AbstractDescriptor`). `default` is `None` where
      the source holds null. */
  datatype Descriptor = Descriptor(filter: Tries.Trie, description: string, kind: Kind,
                                   required: bool, default: Option<Value>, check: Check)

  /** `hasDefault`: the default is not null. */
  predicate HasDefault(d: Descriptor) { d.default.Some? }

  /** The constructor taking a `required` flag: no default. */
  function NoDefault(filter: Tries.Trie, description: string, kind: Kind, required: bool, check: Check): (d: Descriptor)
    ensures !HasDefault(d) && d.required == required
    ensures d.filter == filter && d.kind == kind && d.check == check
  {
    Descriptor(filter, description, kind, required, None, check)
  }

  /** The constructor taking a default: never required. */
  function WithDefault(filter: Tries.Trie, description: string, kind: Kind, default: Option<Value>, check: Check): (d: Descriptor)
    ensures !d.required
    ensures HasDefault(d) <==> default.Some?
    ensures d.filter == filter && d.kind == kind && d.check == check
  {
    Descriptor(filter, description, kind, false, default, check)
  }

  /** `checkDefaultValue`: reject a default the descriptor's own check
      rejects. */
  function CheckDefaultValue(d: Descriptor, v: Value): (r: Result<Descriptor, Error>)
    ensures r.Ok? <==> IsValid(d.check, v)
    ensures r.Ok? ==> r.value == d
    ensures r.Err? ==> r.error == InvalidDefault
  {
    if IsValid(d.check, v) then Ok(d) else Err(InvalidDefault)
  }

  /** `UNBOUND_STRING(key, description, required)`. */
  function UnboundString(key: Tries.Trie, description: string, required: bool): (d: Descriptor)
    ensures d.filter == key && d.kind == StringKind && d.required == required && !HasDefault(d)
    ensures forall v :: IsValid(d.check, v)
  {
    NoDefault(key, description, StringKind, required, AnyValue)
  }

  /** `UNBOUND_STRING(key, description, default)`. */
  function UnboundStringWithDefault(key: Tries.Trie, description: string, default: string): (d: Descriptor)
    ensures d.filter == key && d.kind == StringKind && !d.required && d.default == Some(Str(default))
    ensures forall v :: IsValid(d.check, v)
  {
    WithDefault(key, description, StringKind, Some(Str(default)), AnyValue)
  }

  /** `REGEX_STRING(key, description, required, regex)`: no default, so no
      default check. */
  function RegexString(key: Tries.Trie, description: string, required: bool, regex: Regex.Pattern): (d: Descriptor)
    ensures d.filter == key && d.kind == StringKind && d.required == required && !HasDefault(d)
    ensures forall s: string :: IsValid(d.check, Str(s)) <==> Regex.FullMatch(regex, s)
  {
    NoDefault(key, description, StringKind, required, Matching(regex))
  }

  /** `REGEX_STRING(key, description, default, regex)`: the default must
      match. */
  function RegexStringWithDefault(key: Tries.Trie, description: string, default: string, regex: Regex.Pattern): (r: Result<Descriptor, Error>)
    ensures r.Ok? <==> Regex.FullMatch(regex, default)
    ensures r.Ok? ==> r.value.filter == key && r.value.kind == StringKind && !r.value.required && r.value.default == Some(Str(default))
    ensures r.Ok? ==> forall s: string :: IsValid(r.value.check, Str(s)) <==> Regex.FullMatch(regex, s)
    ensures r.Err? ==> r.error == InvalidDefault
  {
    CheckDefaultValue(WithDefault(key, description, StringKind, Some(Str(default)), Matching(regex)), Str(default))
  }

  /** `UNBOUND_INTEGER(key, description, required)`. */
  function UnboundInteger(key: Tries.Trie, description: string, required: bool): (d: Descriptor)
    ensures d.filter == key && d.kind == IntegerKind && d.required == required && !HasDefault(d)
    ensures forall v :: IsValid(d.check, v)
  {
    NoDefault(key, description, IntegerKind, required, AnyValue)
  }

  /** `UNBOUND_INTEGER(key, description, default)`. */
  function UnboundIntegerWithDefault(key: Tries.Trie, description: string, default: int): (d: Descriptor)
    ensures d.filter == key && d.kind == IntegerKind && !d.required && d.default == Some(Int(default))
    ensures forall v :: IsValid(d.check, v)
  {
    WithDefault(key, description, IntegerKind, Some(Int(default)), AnyValue)
  }

  /** `BOUND_INTEGER(key, description, required, low)`. */
  function BoundInteger(key: Tries.Trie, description: string, required: bool, low: Int32): (d: Descriptor)
    ensures d.filter == key && d.kind == IntegerKind && d.required == required && !HasDefault(d)
    ensures forall i: int :: IsValid(d.check, Int(i)) <==> i >= low
    ensures forall i: int :: IsValidAsWritten(d.check, Int(i)) <==> IntValue(i) >= low
  {
    NoDefault(key, description, IntegerKind, required, AtLeast(low))
  }

  /** `BOUND_INTEGER(key, description, default, low)`: the default must not
      be below the bound. */
  function BoundIntegerWithDefault(key: Tries.Trie, description: string, default: int, low: Int32): (r: Result<Descriptor, Error>)
    ensures r.Ok? <==> default >= low
    ensures r.Ok? ==> r.value.filter == key && r.value.kind == IntegerKind && !r.value.required && r.value.default == Some(Int(default))
    ensures r.Ok? ==> forall i: int :: IsValid(r.value.check, Int(i)) <==> i >= low
    ensures r.Ok? ==> forall i: int :: IsValidAsWritten(r.value.check, Int(i)) <==> IntValue(i) >= low
  {
    CheckDefaultValue(WithDefault(key, description, IntegerKind, Some(Int(default)), AtLeast(low)), Int(default))
  }

  /** The default check of `BOUND_INTEGER(key, description, default, low)`
      as written: the default is compared with the bound through its low 32
      bits. */
  function BoundIntegerWithDefaultAsWritten(key: Tries.Trie, description: string, default: int, low: Int32): (r: Result<Descriptor, Error>)
    ensures r.Ok? <==> IntValue(default) >= low
    ensures r.Ok? ==> r.value.filter == key && r.value.kind == IntegerKind && !r.value.required && r.value.default == Some(Int(default))
    ensures r.Err? ==> r.error == InvalidDefault
  {
    var d := WithDefault(key, description, IntegerKind, Some(Int(default)), AtLeast(low));
    if IsValidAsWritten(d.check, Int(default)) then Ok(d) else Err(InvalidDefault)
  }

  /** The two default checks part on 2^31 with a bound of 0: as written it
      is refused, compared by value it is accepted. */
  lemma DefaultCheckDiffersOnLargeValue()
    ensures BoundIntegerWithDefaultAsWritten(["k"], "d", 0x8000_0000, 0).Err?
    ensures BoundIntegerWithDefault(["k"], "d", 0x8000_0000, 0).Ok?
  {
  }

  /** On defaults that fit in 32 bits the two default checks agree. */
  lemma DefaultCheckAgreesIn32Bits(key: Tries.Trie, description: string, default: int, low: Int32)
    requires -0x8000_0000 <= default < 0x8000_0000
    ensures BoundIntegerWithDefaultAsWritten(key, description, default, low) == BoundIntegerWithDefault(key, description, default, low)
  {
  }

  /** `BOUND_INTEGER(key, description, default, low, high)`: accepts values
      within both bounds, but its default is not checked. */
  function BoundIntegerWithin(key: Tries.Trie, description: string, default: int, low: Int32, high: Int32): (d: Descriptor)
    ensures d.filter == key && d.kind == IntegerKind && !d.required && d.default == Some(Int(default))
    ensures forall i: int :: IsValid(d.check, Int(i)) <==> low <= i <= high
    ensures forall i: int :: IsValidAsWritten(d.check, Int(i)) <==> low <= IntValue(i) <= high
  {
    WithDefault(key, description, IntegerKind, Some(Int(default)), Within(low, high))
  }

  /** Only the one-bound form checks its default: the two-bound form accepts
      a default outside its own range. */
  lemma WithinDefaultUnchecked()
    ensures var d := BoundIntegerWithin(["build", "timeout"], "", 20, 0, 10);
      d.default == Some(Int(20)) && !IsValid(d.check, d.default.value)
    ensures BoundIntegerWithDefault(["build", "timeout"], "", -1, 0).Err?
  {
  }

  /** `UNBOUND_BOOLEAN(key, description, required)`. */
  function UnboundBoolean(key: Tries.Trie, description: string, required: bool): (d: Descriptor)
    ensures d.filter == key && d.kind == BooleanKind && d.required == required && !HasDefault(d)
    ensures forall v :: IsValid(d.check, v)
  {
    NoDefault(key, description, BooleanKind, required, AnyValue)
  }

  /** `UNBOUND_BOOLEAN(key, description, default)`. */
  function UnboundBooleanWithDefault(key: Tries.Trie, description: string, default: bool): (d: Descriptor)
    ensures d.filter == key && d.kind == BooleanKind && !d.required && d.default == Some(Bool(default))
    ensures forall v :: IsValid(d.check, v)
  {
    WithDefault(key, description, BooleanKind, Some(Bool(default)), AnyValue)
  }

  /** All elements are strings. */
  predicate AllStrings(elems: seq<Value>) {
    forall k :: 0 <= k < |elems| ==> elems[k].Str?
  }

  /** `UNBOUND_STRING_ARRAY(key, description, required)`: arrays whose
      elements are all strings. */
  function UnboundStringArray(key: Tries.Trie, description: string, required: bool): (d: Descriptor)
    ensures d.filter == key && d.kind == ArrayKind && d.required == required && !HasDefault(d)
    ensures forall elems :: IsValid(d.check, Array(elems)) <==> AllStrings(elems)
  {
    NoDefault(key, description, ArrayKind, required, ElementsOf(StringKind))
  }

  /** `UNBOUND_STRING_ARRAY(key, description, default)`: the default must
      hold only strings. */
  function UnboundStringArrayWithDefault(key: Tries.Trie, description: string, default: seq<Value>): (r: Result<Descriptor, Error>)
    ensures r.Ok? <==> AllStrings(default)
    ensures r.Ok? ==> r.value.filter == key && r.value.kind == ArrayKind && !r.value.required && r.value.default == Some(Array(default))
    ensures r.Ok? ==> forall elems :: IsValid(r.value.check, Array(elems)) <==> AllStrings(elems)
    ensures r.Err? ==> r.error == InvalidDefault
  {
    CheckDefaultValue(WithDefault(key, description, ArrayKind, Some(Array(default)), ElementsOf(StringKind)), Array(default))
  }

  /** `UNBOUND_ARRAY(key, description, kind, default)`: arrays whose elements
      are all of `kind`; the default must be one. */
  function UnboundArray(key: Tries.Trie, description: string, kind: Kind, default: seq<Value>): (r: Result<Descriptor, Error>)
    ensures r.Ok? <==> forall k :: 0 <= k < |default| ==> IsInstance(kind, default[k])
    ensures r.Ok? ==> r.value.filter == key && r.value.kind == ArrayKind && !r.value.required && r.value.default == Some(Array(default))
    ensures r.Ok? ==> forall elems :: IsValid(r.value.check, Array(elems)) <==>
      forall k :: 0 <= k < |elems| ==> IsInstance(kind, elems[k])
  {
    CheckDefaultValue(WithDefault(key, description, ArrayKind, Some(Array(default)), ElementsOf(kind)), Array(default))
  }

  /** A schema: which keys a configuration may hold and how they are checked. */
  datatype Schema =
    | EmptySchema                         // `EMPTY_SCHEMA`
    | FromArray(descriptors: seq<Descriptor>)
    | Combined(schemas: seq<Schema>)      // `toCombinedSchema`

  /** `isKey`. */
  predicate IsKey(s: Schema, key: Tries.Trie)
    decreases s
  {
    match s
    case EmptySchema => false
    case FromArray(ds) => exists i :: 0 <= i < |ds| && Tries.Matches(ds[i].filter, key)
    case Combined(ss) => exists i :: 0 <= i < |ss| && IsKey(ss[i], key)
  }

  /** The position of the first descriptor whose filter matches `key`, or
      `|ds|` when there is none. */
  function FirstMatching(ds: seq<Descriptor>, key: Tries.Trie): (i: nat)
    ensures i <= |ds|
    ensures forall j :: 0 <= j < i ==> !Tries.Matches(ds[j].filter, key)
    ensures i < |ds| ==> Tries.Matches(ds[i].filter, key)
    decreases |ds|
  {
    if |ds| == 0 then 0
    else if Tries.Matches(ds[0].filter, key) then 0
    else 1 + FirstMatching(ds[1..], key)
  }

  /** The position of the first schema that knows `key`, or `|ss|`. */
  function FirstKnowing(ss: seq<Schema>, key: Tries.Trie): (i: nat)
    ensures i <= |ss|
    ensures forall j :: 0 <= j < i ==> !IsKey(ss[j], key)
    ensures i < |ss| ==> IsKey(ss[i], key)
    decreases |ss|
  {
    if |ss| == 0 then 0
    else if IsKey(ss[0], key) then 0
    else 1 + FirstKnowing(ss[1..], key)
  }

  /** `getDescriptor`: the first matching descriptor of an array schema; in a
      combined schema, the descriptor of the first component that knows the
      key. An unknown key throws. */
  function GetDescriptor(s: Schema, key: Tries.Trie): (r: Result<Descriptor, Error>)
    ensures r.Err? ==> r.error in {InvalidKey(key), InvalidKeyAccess(key)}
    decreases s
  {
    match s
    case EmptySchema => Err(InvalidKey(key))
    case FromArray(ds) =>
      var i := FirstMatching(ds, key);
      if i < |ds| then Ok(ds[i]) else Err(InvalidKey(key))
    case Combined(ss) =>
      var i := FirstKnowing(ss, key);
      if i < |ss| then GetDescriptor(ss[i], key) else Err(InvalidKeyAccess(key))
  }

  /** `getDescriptors`: an array schema's descriptors; the components' lists
      one after the other for a combined schema. */
  function Descriptors(s: Schema): seq<Descriptor>
    decreases s
  {
    match s
    case EmptySchema => []
    case FromArray(ds) => ds
    case Combined(ss) => DescriptorsOf(ss)
  }

  function DescriptorsOf(ss: seq<Schema>): seq<Descriptor>
    decreases ss
  {
    if |ss| == 0 then [] else Descriptors(ss[0]) + DescriptorsOf(ss[1..])
  }

  /** A schema knows exactly the keys it has a descriptor for, and that
      descriptor's filter matches the key and is one of its descriptors. */
  lemma {:induction false} GetDescriptorIffIsKey(s: Schema, key: Tries.Trie)
    ensures GetDescriptor(s, key).Ok? <==> IsKey(s, key)
    ensures GetDescriptor(s, key).Ok? ==> Tries.Matches(GetDescriptor(s, key).value.filter, key)
    ensures GetDescriptor(s, key).Ok? ==> GetDescriptor(s, key).value in Descriptors(s)
    decreases s
  {
    match s
    case EmptySchema =>
    case FromArray(ds) =>
    case Combined(ss) =>
      var i := FirstKnowing(ss, key);
      if i < |ss| {
        GetDescriptorIffIsKey(ss[i], key);
        DescriptorsOfContains(ss, i);
      }
  }

  /** A component's descriptors occur in the combined list. */
  lemma {:induction false} DescriptorsOfContains(ss: seq<Schema>, i: nat)
    requires i < |ss|
    ensures forall d :: d in Descriptors(ss[i]) ==> d in DescriptorsOf(ss)
    decreases |ss|
  {
    if i > 0 {
      DescriptorsOfContains(ss[1..], i - 1);
      assert ss[1..][i - 1] == ss[i];
    }
  }

  /** The combined list is the concatenation of the components' lists: one
      more component appends its descriptors. */
  lemma {:induction false} DescriptorsOfAppend(ss: seq<Schema>, s: Schema)
    ensures DescriptorsOf(ss + [s]) == DescriptorsOf(ss) + Descriptors(s)
    decreases |ss|
  {
    if |ss| == 0 {
      assert DescriptorsOf([s]) == Descriptors(s) + DescriptorsOf([]);
    } else {
      assert (ss + [s])[1..] == ss[1..] + [s];
      DescriptorsOfAppend(ss[1..], s);
    }
  }

  /** In a combined schema the first component that knows a key decides its
      descriptor: later components are not consulted. */
  lemma CombinedFirstWins(ss: seq<Schema>, i: nat, key: Tries.Trie)
    requires i < |ss| && IsKey(ss[i], key)
    requires forall j :: 0 <= j < i ==> !IsKey(ss[j], key)
    ensures GetDescriptor(Combined(ss), key) == GetDescriptor(ss[i], key)
  {
    var f := FirstKnowing(ss, key);
    assert !(f < i) && !(i < f);
  }

  /** `EMPTY(schema).get(kind, key)`: the default when there is one and it
      has the requested kind. */
  function EmptyGet(schema: Schema, kind: Kind, key: Tries.Trie): (r: Result<Value, Error>)
    ensures r.Ok? <==>
      GetDescriptor(schema, key).Ok? && HasDefault(GetDescriptor(schema, key).value) &&
      IsInstance(kind, GetDescriptor(schema, key).value.default.value)
    ensures r.Ok? ==> Some(r.value) == GetDescriptor(schema, key).value.default
    ensures GetDescriptor(schema, key).Err? ==> r == Err(GetDescriptor(schema, key).error)
    ensures GetDescriptor(schema, key).Ok? && !HasDefault(GetDescriptor(schema, key).value) ==>
      r == Err(InvalidKeyAccess(key))
    ensures r.Err? && r.error.IncompatibleKeyAccess? ==>
      r.error == IncompatibleKeyAccess(kind, GetDescriptor(schema, key).value.kind)
  {
    var d :- GetDescriptor(schema, key);
    if HasDefault(d) then
      if !IsInstance(kind, d.default.value) then Err(IncompatibleKeyAccess(kind, d.kind))
      else Ok(d.default.value)
    else Err(InvalidKeyAccess(key))
  }

  /** `EMPTY(schema).hasKey(key)`: a default exists (an unknown key throws). */
  function EmptyHasKey(schema: Schema, key: Tries.Trie): (r: Result<bool, Error>)
    ensures r.Ok? <==> IsKey(schema, key)
    ensures r.Ok? ==> (r.value <==> exists k :: EmptyGet(schema, k, key).Ok?)
    ensures r.Ok? ==> GetDescriptor(schema, key).Ok? && (r.value <==> HasDefault(GetDescriptor(schema, key).value))
  {
    GetDescriptorIffIsKey(schema, key);
    var d :- GetDescriptor(schema, key);
    if HasDefault(d) then
      var k := KindOf(d.default.value);
      assert EmptyGet(schema, k, key).Ok?;
      Ok(true)
    else Ok(false)
  }

  /** An empty configuration gives a known key's default of the asked kind. */
  lemma EmptyGetDefault(schema: Schema, kind: Kind, key: Tries.Trie, d: Descriptor)
    requires GetDescriptor(schema, key) == Ok(d) && HasDefault(d) && IsInstance(kind, d.default.value)
    ensures EmptyGet(schema, kind, key) == Ok(d.default.value)
  {
  }

  /** The kind every value is an instance of. */
  function KindOf(v: Value): (k: Kind)
    ensures IsInstance(k, v)
    ensures forall k' :: IsInstance(k', v) ==> k' == k
  {
    match v
    case Str(_) => StringKind
    case Int(_) => IntegerKind
    case Bool(_) => BooleanKind
    case Array(_) => ArrayKind
  }

  /** `EMPTY(schema).write`: nothing can be written. */
  function EmptyWrite(schema: Schema, key: Tries.Trie, v: Value): (r: Result<(), Error>)
    ensures r.Err?
  {
    Err(InvalidKeyAccess(key))
  }

  /** `EMPTY(schema).matchAll`: no key is present. */
  function EmptyMatchAll(schema: Schema, filter: Tries.Trie): (r: seq<Tries.Trie>)
    ensures |r| == 0
  {
    []
  }

  /** The empty schema knows nothing, so every access to an empty
      configuration over it throws. */
  lemma EmptySchemaKnowsNothing(key: Tries.Trie, kind: Kind)
    ensures !IsKey(EmptySchema, key) && Descriptors(EmptySchema) == []
    ensures EmptyGet(EmptySchema, kind, key).Err? && EmptyHasKey(EmptySchema, key).Err?
  {
  }
}
