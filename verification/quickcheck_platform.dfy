/** The QuickCheck platform (`src/platform/quickcheck.rs`): checks compiled
    WyIL files by running `wyc.Check` on the JVM, with the package's
    dependencies on the Whiley path. */
module QuickCheckPlatform {
  import opened Wrappers
  import Strings
  import Paths
  import Config
  import BuildTypes
  import WhileyPlatform
  import Package

  /** The table of package dependencies, `name = "version"`. The file
      `src/platform/whiley.rs` does not define the key this platform reads;
      it is taken to be the top-level `dependencies` table. */
  const DependenciesKey: Config.Key := ["dependencies"]

  datatype Platform = Platform(name: string, source: Paths.PathBuf, target: string, whileypath: seq<string>)

  function Name(p: Platform): (r: string)
    ensures r == "check"
  {
    "check"
  }

  /** `dependencies()`: just the Whiley compiler's two artifacts. */
  function Dependencies(p: Platform): (r: seq<string>)
    ensures r == WhileyPlatform.MavenDeps && |r| == 2
  {
    WhileyPlatform.MavenDeps
  }

  /** `match_includes`: the files handed to the tool. */
  function MatchIncludes(p: Platform): seq<string> {
    [p.name]
  }

  /** The loop that appends `sep` and an entry for each remaining entry. */
  function SeparatedTail(es: seq<string>, sep: string): string {
    if |es| == 0 then "" else sep + es[0] + SeparatedTail(es[1..], sep)
  }

  /** The whole Whiley path, as the first entry followed by the separated
      rest: the entries joined by `sep`. */
  function WhileyPathValue(wp: seq<string>, sep: string): (r: string)
    requires |wp| > 0
    ensures r == Strings.Join(wp, sep)
  {
    JoinTail(wp, sep);
    wp[0] + SeparatedTail(wp[1..], sep)
  }

  lemma {:induction false} JoinTail(wp: seq<string>, sep: string)
    requires |wp| > 0
    ensures wp[0] + SeparatedTail(wp[1..], sep) == Strings.Join(wp, sep)
    decreases |wp|
  {
    if |wp| > 1 {
      JoinTail(wp[1..], sep);
      assert wp[1..][0] == wp[1] && wp[1..][1..] == wp[2..];
      assert SeparatedTail(wp[1..], sep) == sep + wp[1] + SeparatedTail(wp[2..], sep);
      assert wp[0] + (sep + wp[1] + SeparatedTail(wp[2..], sep)) == wp[0] + sep + (wp[1] + SeparatedTail(wp[2..], sep));
    } else {
      assert wp[0] + "" == wp[0];
    }
  }

  /** `arguments`: the main class, the WyIL folder, the Whiley path when there
      is one (entries joined by the classpath separator `sep`), and the files
      to check. */
  function Arguments(p: Platform, sep: string): (r: seq<string>)
    ensures |r| == (if |p.whileypath| > 0 then 4 else 3)
    ensures r[..2] == ["wyc.Check", "--wyildir=" + p.target]
    ensures r[|r| - 1] == p.name
    ensures |p.whileypath| > 0 ==> r[2] == "--whileypath=" + Strings.Join(p.whileypath, sep)
  {
    var args := ["wyc.Check", "--wyildir=" + p.target];
    var args := if |p.whileypath| > 0 then args + ["--whileypath=" + WhileyPathValue(p.whileypath, sep)] else args;
    args + MatchIncludes(p)
  }

  /** With a one-character separator that no entry contains, the entries can
      be read back from the `--whileypath=` argument. */
  lemma WhileyPathRecoverable(p: Platform, sep: char)
    requires |p.whileypath| > 0
    requires forall i :: 0 <= i < |p.whileypath| ==> sep !in p.whileypath[i]
    ensures var arg := Arguments(p, [sep])[2];
      |arg| >= 13 && Strings.Split(arg[13..], sep) == p.whileypath
  {
    var arg := Arguments(p, [sep])[2];
    assert arg[13..] == Strings.Join(p.whileypath, [sep]);
    Strings.SplitJoin(p.whileypath, sep);
  }

  /** `manifest`: this platform generates no files. */
  function Manifest(p: Platform): (r: seq<BuildTypes.Artifact>)
    ensures |r| == 0
  {
    []
  }

  /** The Whiley-path entry for dependency `name` at `version`: the package's
      zip in the repository under the Whiley home, as text. */
  function RepositoryEntry(home: Paths.PathBuf, name: string, version: string): string {
    var pb := Paths.Push(Paths.Push(home, "repository"), name + "-v" + version + ".zip");
    Paths.Display(pb, '/')
  }

  /** The entry names the zip exactly as the package resolver caches it. */
  lemma RepositoryEntryIsPackageZip(home: Paths.PathBuf, name: string, version: string)
    ensures RepositoryEntry(home, name, version) ==
      Paths.Display(Paths.PathBuf(home.parts + ["repository", Package.ZipName(Package.Dependency(name, version))]), '/')
  {
    assert Paths.Push(Paths.Push(home, "repository"), name + "-v" + version + ".zip").parts ==
      home.parts + ["repository", Package.ZipName(Package.Dependency(name, version))];
  }

  /** One repository entry per `(name, version)` pair, in order. */
  function Entries(home: Paths.PathBuf, pairs: seq<(string, string)>): (r: seq<string>)
    ensures |r| == |pairs| && forall i :: 0 <= i < |pairs| ==> r[i] == RepositoryEntry(home, pairs[i].0, pairs[i].1)
  {
    if |pairs| == 0 then [] else [RepositoryEntry(home, pairs[0].0, pairs[0].1)] + Entries(home, pairs[1..])
  }

  /** The dependency names `apply` walks: the children of the dependencies
      table, or none when there is no such table. */
  function DependencyNames(c: Config.Config): seq<string> {
    Config.FindKeys(c, DependenciesKey).GetOr([])
  }

  /** `Descriptor::apply`: the package name is required, the source folder
      and WyIL folder fall back to `src` and `bin`, and each dependency
      `name = "version"` becomes the repository entry of its zip, in table
      order. A dependency whose value is not a string makes `apply` fail. */
  function Apply(c: Config.Config, home: Paths.PathBuf): (r: Result<Platform, Config.Error>)
    ensures var names := DependencyNames(c);
      && (r.Ok? <==>
          Config.StringLeaf(c, BuildTypes.PackageName).Some? &&
          forall i :: 0 <= i < |names| ==> Config.StringLeaf(c, DependenciesKey + [names[i]]).Some?)
      && (Config.StringLeaf(c, BuildTypes.PackageName).None? ==> r == Err(Config.GetString(c, BuildTypes.PackageName).error))
      && (r.Ok? ==>
          && r.value.name == Config.StringLeaf(c, BuildTypes.PackageName).value
          && r.value.source == Config.GetPath(c, WhileyPlatform.BuildWhileySource).GetOr(Paths.FromStr(WhileyPlatform.SourceDefault))
          && r.value.target == Config.StringLeaf(c, WhileyPlatform.BuildWhileyTarget).GetOr(WhileyPlatform.TargetDefault)
          && |r.value.whileypath| == |names|
          && forall i :: 0 <= i < |names| ==>
               r.value.whileypath[i] == RepositoryEntry(home, names[i], Config.StringLeaf(c, DependenciesKey + [names[i]]).value))
  {
    Config.StringAgrees(c, BuildTypes.PackageName);
    Config.StringAgrees(c, WhileyPlatform.BuildWhileyTarget);
    forall i | 0 <= i < |DependencyNames(c)|
      ensures Config.GetString(c, DependenciesKey + [DependencyNames(c)[i]]).ToOption() ==
              Config.StringLeaf(c, DependenciesKey + [DependencyNames(c)[i]])
    {
      Config.AccessorsAgreeWithLeaves(c, DependenciesKey + [DependencyNames(c)[i]]);
    }
    var name :- Config.GetString(c, BuildTypes.PackageName);
    var source := Config.GetPath(c, WhileyPlatform.BuildWhileySource).GetOr(Paths.FromStr(WhileyPlatform.SourceDefault));
    var target := Config.GetString(c, WhileyPlatform.BuildWhileyTarget).GetOr(WhileyPlatform.TargetDefault);
    var pairs :- Config.SubkeyStrings(c, DependenciesKey, DependencyNames(c));
    Ok(Platform(name, source, target, Entries(home, pairs)))
  }

  /** Without a dependencies table the Whiley path is empty, and so the
      arguments carry no `--whileypath=`. */
  lemma NoDependenciesNoWhileyPath(c: Config.Config, home: Paths.PathBuf, sep: string)
    requires Config.GetKey(c, DependenciesKey).None?
    requires Apply(c, home).Ok?
    ensures Apply(c, home).value.whileypath == []
    ensures |Arguments(Apply(c, home).value, sep)| == 3
  {
  }

  /** A dependency whose value is not a string stops `apply` with the
      accessor's error for the first such dependency. */
  lemma BadDependencyFails(c: Config.Config, home: Paths.PathBuf)
    requires Config.StringLeaf(c, BuildTypes.PackageName).Some?
    requires Apply(c, home).Err?
    ensures exists i :: (0 <= i < |DependencyNames(c)| &&
                         Config.FirstFailure(c, DependenciesKey, DependencyNames(c), i, Apply(c, home).error))
  {
    Config.StringAgrees(c, BuildTypes.PackageName);
  }
}
