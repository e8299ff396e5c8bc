/** File names for stored content (`src/main/java/wy/util/SuffixRegistry.java`):
    a key path and a content type are encoded as the path, with the native
    separator, followed by `.` and the type's suffix. */
module SuffixRegistry {
  import opened Wrappers
  import Strings
  import Tries

  /** A content type; types are compared by identity, modelled by `id`. */
  datatype ContentType = ContentType(id: string, suffix: string)

  /** The registered types by suffix. */
  datatype Registry = Registry(types: map<string, ContentType>)

  /** Every type is registered under its own suffix, as `add` keeps it. */
  predicate Valid(r: Registry) {
    forall s :: s in r.types ==> r.types[s].suffix == s
  }

  function New(): (r: Registry)
    ensures Valid(r) && r.types == map[]
  {
    Registry(map[])
  }

  /** `add`: the type is found under its suffix, replacing a type with the
      same suffix; other suffixes are unchanged. */
  function Add(r: Registry, ct: ContentType): (r': Registry)
    ensures Valid(r) ==> Valid(r')
    ensures ct.suffix in r'.types && r'.types[ct.suffix] == ct
    ensures forall s :: s != ct.suffix ==>
      ((s in r'.types <==> s in r.types) && (s in r.types ==> r'.types[s] == r.types[s]))
  {
    Registry(r.types[ct.suffix := ct])
  }

  /** `addAll`: `add` on each type in order. */
  function AddAll(r: Registry, cts: seq<ContentType>): (r': Registry)
    ensures Valid(r) ==> Valid(r')
    decreases |cts|
  {
    if |cts| == 0 then r else AddAll(Add(r, cts[0]), cts[1..])
  }

  /** After `addAll` a suffix maps to the last listed type with that suffix,
      or, if no listed type has it, to what it mapped to before. */
  lemma AddAllLastWins(r: Registry, cts: seq<ContentType>, s: string)
    ensures var r' := AddAll(r, cts);
      (exists i :: 0 <= i < |cts| && cts[i].suffix == s) ==>
        s in r'.types &&
        exists i :: 0 <= i < |cts| && r'.types[s] == cts[i] && forall j :: i < j < |cts| ==> cts[j].suffix != s
    ensures var r' := AddAll(r, cts);
      (forall i :: 0 <= i < |cts| ==> cts[i].suffix != s) ==>
        (s in r'.types <==> s in r.types) && (s in r.types ==> r'.types[s] == r.types[s])
  {
    if exists i :: 0 <= i < |cts| && cts[i].suffix == s {
      AddAllListed(r, cts, s);
    } else {
      AddAllUnlisted(r, cts, s);
    }
  }

  lemma {:induction false} AddAllListed(r: Registry, cts: seq<ContentType>, s: string)
    requires exists i :: 0 <= i < |cts| && cts[i].suffix == s
    ensures var r' := AddAll(r, cts);
      s in r'.types &&
      exists i :: 0 <= i < |cts| && r'.types[s] == cts[i] && forall j :: i < j < |cts| ==> cts[j].suffix != s
    decreases |cts|
  {
    var r' := AddAll(r, cts);
    var tail := cts[1..];
    assert forall j :: 1 <= j < |cts| ==> cts[j] == tail[j - 1];
    if exists i :: 0 <= i < |tail| && tail[i].suffix == s {
      AddAllListed(Add(r, cts[0]), tail, s);
      var k :| 0 <= k < |tail| && r'.types[s] == tail[k] && forall j :: k < j < |tail| ==> tail[j].suffix != s;
      assert r'.types[s] == cts[k + 1];
    } else {
      assert cts[0].suffix == s;
      AddAllUnlisted(Add(r, cts[0]), tail, s);
      assert r'.types[s] == cts[0];
    }
  }

  lemma {:induction false} AddAllUnlisted(r: Registry, cts: seq<ContentType>, s: string)
    requires forall i :: 0 <= i < |cts| ==> cts[i].suffix != s
    ensures var r' := AddAll(r, cts);
      (s in r'.types <==> s in r.types) && (s in r.types ==> r'.types[s] == r.types[s])
    decreases |cts|
  {
    if |cts| > 0 {
      assert forall i :: 0 <= i < |cts[1..]| ==> cts[1..][i] == cts[i + 1];
      AddAllUnlisted(Add(r, cts[0]), cts[1..], s);
    }
  }

  /** `encode`: the key with `/` replaced by the separator, then `.` and the
      type's suffix; nothing when the type is not registered. */
  function Encode(r: Registry, t: ContentType, key: Tries.Trie, sep: char): (e: Option<string>)
    requires Valid(r)
    ensures e.Some? <==> t in r.types.Values
    ensures e.Some? ==> e.value == Strings.Replace(Tries.ToString(key), '/', sep) + "." + t.suffix
  {
    if t.suffix in r.types && r.types[t.suffix] == t then
      Some(Strings.Replace(Tries.ToString(key), '/', sep) + "." + t.suffix)
    else None
  }

  /** `decodeKey`: drop the text from the last `.`, if any, and read the
      rest, separators as `/`, as a path. */
  function DecodeKey(name: string, sep: char): (k: Tries.Trie)
    ensures var i := Strings.LastIndexOf(name, '.');
      Tries.ToString(k) == Strings.Replace(if i >= 0 then name[..i] else name, sep, '/')
  {
    var i := Strings.LastIndexOf(name, '.');
    var stem := if i >= 0 then name[..i] else name;
    Tries.FromString(Strings.Replace(stem, sep, '/'))
  }

  /** `decodeType`: the type registered for the text after the last `.`;
      nothing when there is no `.` or no such type. */
  function DecodeType(r: Registry, name: string): (t: Option<ContentType>)
    ensures '.' !in name ==> t.None?
    ensures t.Some? ==> t.value in r.types.Values
    ensures t.Some? && Valid(r) ==>
      var n := |name| - |t.value.suffix|;
      n >= 1 && name[n - 1] == '.' && name[n..] == t.value.suffix && '.' !in t.value.suffix
  {
    var i := Strings.LastIndexOf(name, '.');
    if i >= 0 && name[i + 1..] in r.types then Some(r.types[name[i + 1..]]) else None
  }

  /** Decoding the type of an encoded name gives the type back, when the
      suffix holds no `.`. */
  lemma DecodeEncodedType(r: Registry, t: ContentType, key: Tries.Trie, sep: char)
    requires Valid(r) && t in r.types.Values && '.' !in t.suffix
    ensures DecodeType(r, Encode(r, t, key, sep).value) == Some(t)
  {
    var stem := Strings.Replace(Tries.ToString(key), '/', sep);
    Strings.LastIndexOfAppend(stem, '.', t.suffix);
    var name := stem + "." + t.suffix;
    assert name[|stem| + 1..] == t.suffix;
  }

  /** Decoding the key of an encoded name gives the key back, when the suffix
      holds no `.` and the key has segments free of `/` and of the separator
      (where the separator is not `/` itself). */
  lemma DecodeEncodedKey(r: Registry, t: ContentType, key: Tries.Trie, sep: char)
    requires Valid(r) && t in r.types.Values && '.' !in t.suffix
    requires |key| >= 1
    requires forall i :: 0 <= i < |key| ==> '/' !in key[i] && (sep != '/' ==> sep !in key[i])
    ensures DecodeKey(Encode(r, t, key, sep).value, sep) == key
  {
    var text := Tries.ToString(key);
    var stem := Strings.Replace(text, '/', sep);
    Strings.LastIndexOfAppend(stem, '.', t.suffix);
    var name := stem + "." + t.suffix;
    assert name[..|stem|] == stem;
    assert sep == '/' || sep !in text by {
      if sep != '/' {
        JoinAvoids(key, "/", sep);
      }
    }
    Strings.ReplaceBack(text, '/', sep);
    Strings.SplitJoin(key, '/');
  }

  /** A character in neither the parts nor the separator is not in their
      join. */
  lemma {:induction false} JoinAvoids(parts: seq<string>, sep: string, c: char)
    requires c !in sep && forall i :: 0 <= i < |parts| ==> c !in parts[i]
    ensures c !in Strings.Join(parts, sep)
    decreases |parts|
  {
    if |parts| > 1 {
      JoinAvoids(parts[1..], sep, c);
    }
  }
}
