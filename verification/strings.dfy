/** Text helpers shared by the model: splitting on a separator, joining,
    character replacement and searching. Strings are `seq<char>`. */
module Strings {

  /** The parts joined with `sep` between each neighbouring pair. */
  function Join(parts: seq<string>, sep: string): string
  {
    if |parts| == 0 then ""
    else if |parts| == 1 then parts[0]
    else parts[0] + sep + Join(parts[1..], sep)
  }

  /** Splitting on a single character, as Rust's `str::split` does: an empty
      string yields one empty part, and neighbouring separators yield empty parts. */
  function Split(s: string, c: char): (parts: seq<string>)
    ensures |parts| >= 1
    ensures forall i :: 0 <= i < |parts| ==> c !in parts[i]
    ensures Join(parts, [c]) == s
    decreases |s|
  {
    if |s| == 0 then [""]
    else
      var rest := Split(s[1..], c);
      if s[0] == c then
        assert [c] + s[1..] == s;
        [""] + rest
      else
        var parts := [[s[0]] + rest[0]] + rest[1..];
        assert |rest| > 1 ==> rest == [rest[0]] + rest[1..];
        assert [s[0]] + s[1..] == s;
        parts
  }

  /** Splitting a string that does not contain the separator yields just that string. */
  lemma {:induction false} SplitNoSeparator(s: string, c: char)
    requires c !in s
    ensures Split(s, c) == [s]
    decreases |s|
  {
    if |s| > 0 {
      assert c !in s[1..];
      SplitNoSeparator(s[1..], c);
    }
  }

  /** A separator-free prefix becomes the head of the first part. */
  lemma {:induction false} SplitPrefix(p: string, t: string, c: char)
    requires c !in p
    ensures Split(p + t, c) == [p + Split(t, c)[0]] + Split(t, c)[1..]
    decreases |p|
  {
    if |p| > 0 {
      assert (p + t)[1..] == p[1..] + t;
      assert c !in p[1..];
      SplitPrefix(p[1..], t, c);
      assert [p[0]] + (p[1..] + Split(t, c)[0]) == p + Split(t, c)[0];
    } else {
      assert p + t == t;
      assert p + Split(t, c)[0] == Split(t, c)[0];
      assert Split(t, c) == [Split(t, c)[0]] + Split(t, c)[1..];
    }
  }

  /** Joining then splitting gives back the parts, when no part holds the separator. */
  lemma {:induction false} SplitJoin(parts: seq<string>, c: char)
    requires |parts| >= 1
    requires forall i :: 0 <= i < |parts| ==> c !in parts[i]
    ensures Split(Join(parts, [c]), c) == parts
    decreases |parts|
  {
    if |parts| == 1 {
      SplitNoSeparator(parts[0], c);
    } else {
      var tail := Join(parts[1..], [c]);
      SplitJoin(parts[1..], c);
      assert parts[0] + [c] + tail == parts[0] + ([c] + tail);
      SplitPrefix(parts[0], [c] + tail, c);
      assert ([c] + tail)[1..] == tail;
      assert Split([c] + tail, c) == [""] + Split(tail, c);
      assert Join(parts, [c]) == parts[0] + ([c] + tail);
      assert parts[0] + "" == parts[0];
      assert parts == [parts[0]] + parts[1..];
    }
  }

  /** Splitting yields one more part than there are separators. */
  lemma {:induction false} SplitCount(s: string, c: char)
    ensures |Split(s, c)| == multiset(s)[c] + 1
    decreases |s|
  {
    if |s| > 0 {
      SplitCount(s[1..], c);
      assert s == [s[0]] + s[1..];
      assert multiset(s) == multiset([s[0]]) + multiset(s[1..]);
    }
  }

  /** Every occurrence of `a` replaced by `b`, as Java's `String.replace(char, char)`
      and Rust's `str::replace` with one-character patterns do. */
  function Replace(s: string, a: char, b: char): (r: string)
    ensures |r| == |s|
    ensures forall i :: 0 <= i < |s| ==> r[i] == (if s[i] == a then b else s[i])
  {
    if |s| == 0 then "" else [if s[0] == a then b else s[0]] + Replace(s[1..], a, b)
  }

  /** Replacing back restores the text when the replacement character was absent. */
  lemma ReplaceBack(s: string, a: char, b: char)
    requires a == b || b !in s
    ensures Replace(Replace(s, a, b), b, a) == s
  {
    var r := Replace(Replace(s, a, b), b, a);
    assert forall i :: 0 <= i < |s| ==> r[i] == s[i];
  }

  /** Java's `lastIndexOf(char)`: the last index holding `c`, or -1 when there is none. */
  function LastIndexOf(s: string, c: char): (r: int)
    ensures -1 <= r < |s|
    ensures r == -1 <==> c !in s
    ensures r >= 0 ==> s[r] == c && c !in s[r + 1..]
    decreases |s|
  {
    if |s| == 0 then -1
    else if s[|s| - 1] == c then |s| - 1
    else
      assert s == s[..|s| - 1] + [s[|s| - 1]];
      var r := LastIndexOf(s[..|s| - 1], c);
      assert r >= 0 ==> s[r + 1..] == s[..|s| - 1][r + 1..] + [s[|s| - 1]];
      r
  }

  /** In `p + [c] + q` with no `c` in `q`, the last `c` is the one after `p`. */
  lemma LastIndexOfAppend(p: string, c: char, q: string)
    requires c !in q
    ensures LastIndexOf(p + [c] + q, c) == |p|
  {
    var s := p + [c] + q;
    assert s[|p|] == c;
    assert s[|p| + 1..] == q;
  }

  /** `n` copies of `c`. */
  function Repeat(c: char, n: nat): (r: string)
    ensures |r| == n
    ensures forall i :: 0 <= i < n ==> r[i] == c
  {
    if n == 0 then "" else [c] + Repeat(c, n - 1)
  }

  /** The decimal digit character for `d`. */
  function DigitChar(d: nat): (ch: char)
    requires d < 10
    ensures '0' <= ch <= '9' && ch as int - '0' as int == d
  {
    (d + '0' as int) as char
  }

  predicate IsDigits(s: string) {
    forall i :: 0 <= i < |s| ==> '0' <= s[i] <= '9'
  }

  /** The number a string of decimal digits denotes. */
  function DigitsValue(s: string): nat
    requires IsDigits(s)
  {
    if |s| == 0 then 0 else DigitsValue(s[..|s| - 1]) * 10 + (s[|s| - 1] as int - '0' as int)
  }

  /** The decimal form of `n`, as Rust's `{}` formatting writes it: no
      leading zeros. */
  function NatToString(n: nat): (r: string)
    ensures |r| >= 1 && IsDigits(r)
    ensures r[0] == '0' ==> n == 0 && r == "0"
    decreases n
  {
    if n < 10 then [DigitChar(n)] else NatToString(n / 10) + [DigitChar(n % 10)]
  }

  /** Reading the decimal form back gives the number. */
  lemma {:induction false} NatToStringValue(n: nat)
    ensures DigitsValue(NatToString(n)) == n
    decreases n
  {
    if n >= 10 {
      NatToStringValue(n / 10);
      var r := NatToString(n);
      assert r[..|r| - 1] == NatToString(n / 10);
    }
  }

  /** The decimal form of an integer, with a leading `-` when negative. */
  function IntToString(i: int): (r: string)
    ensures |r| >= 1
    ensures r[0] == '-' <==> i < 0
    ensures i >= 0 ==> r == NatToString(i)
    ensures i < 0 ==> r[1..] == NatToString(-i)
  {
    if i < 0 then "-" + NatToString(-i) else NatToString(i)
  }

  /** Different naturals have different decimal forms. */
  lemma NatToStringInjective(a: nat, b: nat)
    requires NatToString(a) == NatToString(b)
    ensures a == b
  {
    NatToStringValue(a);
    NatToStringValue(b);
  }

  /** Different integers have different decimal forms. */
  lemma IntToStringInjective(i: int, j: int)
    requires IntToString(i) == IntToString(j)
    ensures i == j
  {
    var s := IntToString(i);
    if i < 0 {
      assert j < 0;
      NatToStringInjective(-i, -j);
    } else {
      assert j >= 0;
      NatToStringInjective(i, j);
    }
  }

  /** A common prefix can be cancelled. */
  lemma PrefixCancel(pre: string, a: string, b: string)
    requires pre + a == pre + b
    ensures a == b
  {
    assert a == (pre + a)[|pre|..];
    assert b == (pre + b)[|pre|..];
  }
}
