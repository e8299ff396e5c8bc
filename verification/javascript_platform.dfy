/** The JavaScript back end (`src/platform/javascript.rs`): compiles WyIL
    files into a JavaScript file by running `wyjs.Main` on the JVM. Glob
    expansion of the native includes reads the filesystem, so its results are
    a parameter. */
module JavaScriptPlatform {
  import opened Wrappers
  import Strings
  import Paths
  import Config
  import BuildTypes
  import WhileyPlatform
  import Maven

  /** The JavaScript standard targeted by default. */
  const StandardDefault: string := "ES6"

  const BuildJavaScriptTarget: Config.Key := ["build", "js", "target"]
  const BuildJavaScriptStandard: Config.Key := ["build", "js", "standard"]
  const BuildJavaScriptIncludes: Config.Key := ["build", "js", "includes"]

  /** The Whiley compiler's artifacts followed by the JavaScript back end. */
  const WyJs: Maven.Artifact := Maven.Artifact("org.whiley", "wyjs", "0.10.3")
  const MavenDeps: seq<string> := WhileyPlatform.MavenDeps + [Maven.Display(WyJs)]

  datatype Platform = Platform(name: string, source: string, target: string, standard: string, includes: seq<string>)

  function Name(p: Platform): (r: string)
    ensures r == "js"
  {
    "js"
  }

  /** `dependencies()`: three artifacts, the Whiley compiler's two first. */
  function Dependencies(p: Platform): (r: seq<string>)
    ensures |r| == 3 && r[..2] == WhileyPlatform.MavenDeps && r[2] == Maven.Display(WyJs)
  {
    MavenDeps
  }

  /** The back end is published as `org.whiley:wyjs:0.10.3`. */
  lemma WyJsText()
    ensures Maven.Display(WyJs) == "org.whiley:wyjs:0.10.3"
  {
  }

  /** `match_includes`: the files handed to the tool. */
  function MatchIncludes(p: Platform): seq<string> {
    [p.name]
  }

  /** `target_path`: `target/name.js`. */
  function TargetPath(p: Platform): (r: Paths.PathBuf)
    ensures r.parts == [p.target, p.name + ".js"]
  {
    Paths.Push(Paths.FromStr(p.target), p.name + ".js")
  }

  /** `arguments`: the main class, the output name, the WyIL and JavaScript
      folders, the standard and the files to compile. */
  function Arguments(p: Platform): (r: seq<string>)
    ensures r == ["wyjs.Main", "-o", p.name, "--wyildir=" + p.source, "--jsdir=" + p.target, "-s", p.standard, p.name]
  {
    var args := ["wyjs.Main"];
    var args := args + ["-o", p.name];
    var args := args + ["--wyildir=" + p.source];
    var args := args + ["--jsdir=" + p.target];
    var args := args + ["-s", p.standard];
    args + MatchIncludes(p)
  }

  /** The argument vector determines the name, both folders and the standard:
      the includes are not passed to the tool. */
  lemma ArgumentsInjective(p: Platform, q: Platform)
    requires Arguments(p) == Arguments(q)
    ensures p.name == q.name && p.source == q.source && p.target == q.target && p.standard == q.standard
  {
    assert Arguments(p)[3] == Arguments(q)[3] && Arguments(p)[4] == Arguments(q)[4];
    Strings.PrefixCancel("--wyildir=", p.source, q.source);
    Strings.PrefixCancel("--jsdir=", p.target, q.target);
  }

  /** One entry yielded by a glob: a path, or an entry that could not be read
      (reported and skipped). */
  datatype GlobEntry = Found(path: string) | Unreadable

  /** The paths among a glob's entries, in order. */
  function FoundPaths(es: seq<GlobEntry>): (r: seq<string>)
    ensures forall s :: s in r <==> Found(s) in es
  {
    if |es| == 0 then []
    else (if es[0].Found? then [es[0].path] else []) + FoundPaths(es[1..])
  }

  /** Every include is a valid glob pattern; the tool panics otherwise. */
  predicate ValidPatterns(p: Platform, glob: string -> Option<seq<GlobEntry>>) {
    forall i :: 0 <= i < |p.includes| ==> glob(p.includes[i]).Some?
  }

  /** The matches of `includes[i..]`, pattern by pattern. */
  function NativesFrom(includes: seq<string>, glob: string -> Option<seq<GlobEntry>>): (r: seq<string>)
    requires forall i :: 0 <= i < |includes| ==> glob(includes[i]).Some?
    ensures forall s :: s in r <==> exists i :: 0 <= i < |includes| && Found(s) in glob(includes[i]).value
  {
    if |includes| == 0 then []
    else
      var rest := NativesFrom(includes[1..], glob);
      assert forall i :: 1 <= i < |includes| ==> includes[i] == includes[1..][i - 1];
      FoundPaths(glob(includes[0]).value) + rest
  }

  /** `match_natives`: the paths every include pattern matches, in include
      order; exactly the readable matches of some include. */
  function MatchNatives(p: Platform, glob: string -> Option<seq<GlobEntry>>): (r: seq<string>)
    requires ValidPatterns(p, glob)
    ensures forall s :: s in r <==> exists i :: 0 <= i < |p.includes| && Found(s) in glob(p.includes[i]).value
  {
    NativesFrom(p.includes, glob)
  }

  /** `manifest`: the target folder when it is not the default, the generated
      JavaScript file, then one source artifact per native match, in order. */
  function Manifest(p: Platform, glob: string -> Option<seq<GlobEntry>>): (r: seq<BuildTypes.Artifact>)
    requires ValidPatterns(p, glob)
    ensures var k := if p.target != WhileyPlatform.TargetDefault then 1 else 0;
      var natives := MatchNatives(p, glob);
      && |r| == k + 1 + |natives|
      && (k == 1 ==> r[0] == BuildTypes.BinaryFolder(Paths.FromStr(p.target)))
      && r[k] == BuildTypes.BinaryFile(TargetPath(p))
      && (forall i :: 0 <= i < |natives| ==> r[k + 1 + i] == BuildTypes.SourceFile(Paths.FromStr(natives[i])))
  {
    var natives := MatchNatives(p, glob);
    var files := [BuildTypes.BinaryFile(TargetPath(p))] + SourceFiles(natives);
    if p.target != WhileyPlatform.TargetDefault then [BuildTypes.BinaryFolder(Paths.FromStr(p.target))] + files
    else files
  }

  /** Only the first artifact can be a folder, and only for a non-default
      target. */
  lemma ManifestFolderFirst(p: Platform, glob: string -> Option<seq<GlobEntry>>, i: nat)
    requires ValidPatterns(p, glob) && i < |Manifest(p, glob)| && Manifest(p, glob)[i].BinaryFolder?
    ensures i == 0 && p.target != WhileyPlatform.TargetDefault
  {
  }

  /** One source artifact per path, in order. */
  function SourceFiles(paths: seq<string>): (r: seq<BuildTypes.Artifact>)
    ensures |r| == |paths| && forall i :: 0 <= i < |paths| ==> r[i] == BuildTypes.SourceFile(Paths.FromStr(paths[i]))
  {
    if |paths| == 0 then [] else [BuildTypes.SourceFile(Paths.FromStr(paths[0]))] + SourceFiles(paths[1..])
  }

  /** `process`: the tool is silent on success, so any output is an internal
      failure reported whole under the plugin name `wyjs`. */
  function Process(p: Platform, output: string): (r: Result<seq<BuildTypes.Marker>, BuildTypes.PluginError>)
    ensures r.Ok? <==> |output| == 0
    ensures r.Ok? ==> r.value == []
    ensures r.Err? ==> r.error == BuildTypes.PluginError("wyjs", output)
  {
    if |output| > 0 then Err(BuildTypes.PluginError("wyjs", output)) else Ok([])
  }

  /** `Descriptor::apply`: fails exactly when `package.name` is missing or not
      a string. The WyIL folder is the Whiley target (`bin` by default); the
      other settings fall back to `bin`, `ES6` and no includes. */
  function Apply(c: Config.Config, home: Paths.PathBuf): (r: Result<Platform, Config.Error>)
    ensures r.Ok? <==> Config.StringLeaf(c, BuildTypes.PackageName).Some?
    ensures r.Err? ==> r.error == Config.GetString(c, BuildTypes.PackageName).error
    ensures r.Ok? ==> r.value == Platform(
      Config.StringLeaf(c, BuildTypes.PackageName).value,
      Config.StringLeaf(c, WhileyPlatform.BuildWhileyTarget).GetOr(WhileyPlatform.TargetDefault),
      Config.StringLeaf(c, BuildJavaScriptTarget).GetOr(WhileyPlatform.TargetDefault),
      Config.StringLeaf(c, BuildJavaScriptStandard).GetOr(StandardDefault),
      Config.StringArrayLeaf(c, BuildJavaScriptIncludes).GetOr([]))
  {
    Config.StringAgrees(c, BuildTypes.PackageName);
    Config.StringAgrees(c, WhileyPlatform.BuildWhileyTarget);
    Config.StringAgrees(c, BuildJavaScriptTarget);
    Config.StringAgrees(c, BuildJavaScriptStandard);
    Config.StringArrayAgrees(c, BuildJavaScriptIncludes);
    var name :- Config.GetString(c, BuildTypes.PackageName);
    var source := Config.GetString(c, WhileyPlatform.BuildWhileyTarget).GetOr(WhileyPlatform.TargetDefault);
    var target := Config.GetString(c, BuildJavaScriptTarget).GetOr(WhileyPlatform.TargetDefault);
    var standard := Config.GetString(c, BuildJavaScriptStandard).GetOr(StandardDefault);
    var includes := Config.GetStringArray(c, BuildJavaScriptIncludes).GetOr([]);
    Ok(Platform(name, source, target, standard, includes))
  }
}
