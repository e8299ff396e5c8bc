/** The Whiley compiler platform (`src/platform/whiley.rs`): compiles Whiley
    source files into WyIL files by running `wyc.Main` on the JVM. */
module WhileyPlatform {
  import opened Wrappers
  import Config
  import Maven

  /** Default folder of Whiley source files. */
  const SourceDefault: string := "src"
  /** Default folder of compiled WyIL files. */
  const TargetDefault: string := "bin"

  const BuildWhileySource: Config.Key := ["build", "whiley", "source"]
  const BuildWhileyTarget: Config.Key := ["build", "whiley", "target"]

  /** The Maven artifacts needed to run the Whiley compiler. */
  const JModelGen: Maven.Artifact := Maven.Artifact("org.whiley", "jmodelgen", "0.4.3")
  const Wyc: Maven.Artifact := Maven.Artifact("org.whiley", "wyc", "0.10.1")

  /** `MAVEN_DEPS`, as `group:artifact:version` descriptions. */
  const MavenDeps: seq<string> := [Maven.Display(JModelGen), Maven.Display(Wyc)]

  /** The descriptions are the ones the compiler is published under. */
  lemma MavenDepsText()
    ensures MavenDeps == ["org.whiley:jmodelgen:0.4.3", "org.whiley:wyc:0.10.1"]
  {
    assert Maven.Display(JModelGen) == "org.whiley:jmodelgen:0.4.3";
    assert Maven.Display(Wyc) == "org.whiley:wyc:0.10.1";
  }

  datatype Platform = Platform(source: string, target: string)

  /** `name()`. */
  function Name(p: Platform): (r: string)
    ensures r == "whiley"
  {
    "whiley"
  }

  /** `dependencies()`: the fixed two-element list. */
  function Dependencies(p: Platform): (r: seq<string>)
    ensures r == MavenDeps && |r| == 2
  {
    MavenDeps
  }

  /** `arguments()`: just the compiler's main class. */
  function Arguments(p: Platform): (r: seq<string>)
    ensures r == ["wyc.Main"]
  {
    ["wyc.Main"]
  }

  /** `Descriptor::apply`: never fails; a missing or non-string source or
      target key falls back to `src` / `bin`. */
  function Apply(c: Config.Config): (r: Result<Platform, Config.Error>)
    ensures r.Ok?
    ensures r.value.source == Config.StringLeaf(c, BuildWhileySource).GetOr(SourceDefault)
    ensures r.value.target == Config.StringLeaf(c, BuildWhileyTarget).GetOr(TargetDefault)
  {
    Config.StringAgrees(c, BuildWhileySource);
    Config.StringAgrees(c, BuildWhileyTarget);
    var source := Config.GetString(c, BuildWhileySource).GetOr(SourceDefault);
    var target := Config.GetString(c, BuildWhileyTarget).GetOr(TargetDefault);
    Ok(Platform(source, target))
  }
}
