/** The fragment of Java regular expressions the tool's schemas use: `\d+`,
    `.` and literal characters, matched against the whole input. The regex
    library itself is not part of this model. */
module Regex {

  datatype Atom =
    | Digits      // `\d+`: one or more ASCII digits
    | AnyChar     // `.`: any character but a line terminator
    | Char(c: char)

  type Pattern = seq<Atom>

  predicate IsDigit(c: char) { '0' <= c <= '9' }

  /** The characters `.` does not match without the DOTALL flag. */
  predicate LineTerminator(c: char) {
    c == '\n' || c == '\r' || c == '\U{85}' || c == '\U{2028}' || c == '\U{2029}'
  }

  /** `Pattern.matcher(s).matches()`: the pattern matches all of `s`. */
  predicate FullMatch(p: Pattern, s: string)
    decreases |p|, |s|
  {
    if |p| == 0 then |s| == 0
    else match p[0]
      case AnyChar => |s| > 0 && !LineTerminator(s[0]) && FullMatch(p[1..], s[1..])
      case Char(c) => |s| > 0 && s[0] == c && FullMatch(p[1..], s[1..])
      case Digits => |s| > 0 && IsDigit(s[0]) && (FullMatch(p[1..], s[1..]) || FullMatch(p, s[1..]))
  }

  /** `\d+` alone matches exactly the non-empty digit strings. */
  lemma {:induction false} DigitsMatch(s: string)
    ensures FullMatch([Digits], s) <==> |s| > 0 && forall i :: 0 <= i < |s| ==> IsDigit(s[i])
    decreases |s|
  {
    assert [Digits][1..] == [];
    if |s| > 1 {
      DigitsMatch(s[1..]);
      assert forall i :: 1 <= i < |s| ==> s[1..][i - 1] == s[i];
    }
  }
}
