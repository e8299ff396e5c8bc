/** Filesystem paths as Rust's `PathBuf` builds them: the sequence of
    components pushed onto an initially empty path. */
module Paths {
  import Strings

  datatype PathBuf = PathBuf(parts: seq<string>)

  /** `PathBuf::new()`. */
  function Empty(): PathBuf { PathBuf([]) }

  /** `PathBuf::from(s)`: one component holding the whole text. */
  function FromStr(s: string): PathBuf { PathBuf([s]) }

  /** `PathBuf::push(c)`: `c` becomes the last component. */
  function Push(p: PathBuf, c: string): (r: PathBuf)
    ensures |r.parts| == |p.parts| + 1
    ensures r.parts[..|p.parts|] == p.parts && r.parts[|p.parts|] == c
  {
    PathBuf(p.parts + [c])
  }

  /** The path as text, components separated by `sep`. */
  function Display(p: PathBuf, sep: char): string {
    Strings.Join(p.parts, [sep])
  }
}
