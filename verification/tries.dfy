/** Key paths and key filters of the Java tool. A path is a sequence of
    segments, written with `/` between them. In a filter the segment `*`
    stands for exactly one segment and `**` for any number of segments. The
    filter library itself is not part of this model; this is the behaviour
    the model assumes of it. */
module Tries {
  import Strings

  type Trie = seq<string>

  /** `Trie.fromString`: the `/`-separated segments. */
  function FromString(s: string): (t: Trie)
    ensures |t| >= 1
    ensures ToString(t) == s
  {
    Strings.Split(s, '/')
  }

  /** The text of a path: its segments joined with `/`. */
  function ToString(t: Trie): string {
    Strings.Join(t, "/")
  }

  /** `filter.matches(key)`. */
  predicate Matches(filter: Trie, key: Trie)
    decreases |filter| + |key|
  {
    if |filter| == 0 then |key| == 0
    else if filter[0] == "**" then Matches(filter[1..], key) || (|key| > 0 && Matches(filter, key[1..]))
    else |key| > 0 && (filter[0] == "*" || filter[0] == key[0]) && Matches(filter[1..], key[1..])
  }

  /** A filter without wildcards. */
  predicate Literal(filter: Trie) {
    forall i :: 0 <= i < |filter| ==> filter[i] != "*" && filter[i] != "**"
  }

  /** A filter without wildcards matches exactly itself. */
  lemma {:induction false} LiteralMatches(filter: Trie, key: Trie)
    requires Literal(filter)
    ensures Matches(filter, key) <==> filter == key
    decreases |filter|
  {
    if |filter| > 0 {
      assert Literal(filter[1..]) by {
        assert forall i :: 1 <= i < |filter| ==> filter[1..][i - 1] == filter[i];
      }
      if |key| > 0 {
        LiteralMatches(filter[1..], key[1..]);
        if filter[1..] == key[1..] && filter[0] == key[0] {
          assert filter == [filter[0]] + filter[1..] && key == [key[0]] + key[1..];
        }
      }
    }
  }

  /** The filter `**` followed by `*` matches every path with at least one
      segment. */
  lemma {:induction false} EveryKeyMatches(key: Trie)
    ensures Matches(["**", "*"], key) <==> |key| >= 1
    decreases |key|
  {
    var f: Trie := ["**", "*"];
    assert f[1..] == ["*"];
    assert ["*"][1..] == [];
    assert Matches(["*"], key) <==> |key| == 1;
    assert Matches(f, key) <==> Matches(["*"], key) || (|key| > 0 && Matches(f, key[1..]));
    if |key| > 1 {
      EveryKeyMatches(key[1..]);
    }
  }

  /** The prefix followed by `*` matches exactly the paths one segment below
      the prefix. */
  lemma {:induction false} ChildrenMatch(prefix: Trie, key: Trie)
    requires Literal(prefix)
    ensures Matches(prefix + ["*"], key) <==> |key| == |prefix| + 1 && key[..|prefix|] == prefix
    decreases |prefix|
  {
    if |prefix| == 0 {
      assert ([] + ["*"])[1..] == [];
      assert [] + ["*"] == ["*"];
    } else {
      var f := prefix + ["*"];
      assert f[0] == prefix[0] && f[1..] == prefix[1..] + ["*"];
      assert Literal(prefix[1..]) by {
        assert forall i :: 1 <= i < |prefix| ==> prefix[1..][i - 1] == prefix[i];
      }
      if |key| > 0 {
        ChildrenMatch(prefix[1..], key[1..]);
        if |key| == |prefix| + 1 {
          assert key[..|prefix|] == [key[0]] + key[1..][..|prefix| - 1];
          assert prefix == [prefix[0]] + prefix[1..];
        }
      }
    }
  }
}
