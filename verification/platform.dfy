/** Platform instances and the descriptor registry (`src/platform/mod.rs`).
    A platform is one stage of a build (compiling Whiley, translating to
    Boogie or JavaScript, checking). The `JavaInstance` trait
    declares only name, dependencies and arguments; the platform files also
    give manifests and take the Whiley home when applied. The instances are a
    closed datatype with one variant per platform file. */
module Platform {
  import opened Wrappers
  import Paths
  import Config
  import Maven
  import BuildTypes
  import WhileyPlatform
  import BoogiePlatform
  import JavaScriptPlatform
  import QuickCheckPlatform

  /** A platform implemented in Java. */
  datatype JavaInstance =
    | Whiley(whiley: WhileyPlatform.Platform)
    | Boogie(boogie: BoogiePlatform.Platform)
    | JavaScript(js: JavaScriptPlatform.Platform)
    | QuickCheck(check: QuickCheckPlatform.Platform)

  /** `Instance`. None of the platform files implements a Rust instance. */
  datatype Instance = Java(java: JavaInstance)

  /** `name()`: the platform's name. */
  function Name(i: Instance): (r: string)
    ensures r == (match i.java
                  case Whiley(_) => "whiley"
                  case Boogie(_) => "boogie"
                  case JavaScript(_) => "js"
                  case QuickCheck(_) => "check")
  {
    match i.java
    case Whiley(p) => WhileyPlatform.Name(p)
    case Boogie(p) => BoogiePlatform.Name(p)
    case JavaScript(p) => JavaScriptPlatform.Name(p)
    case QuickCheck(p) => QuickCheckPlatform.Name(p)
  }

  /** `dependencies()`: every platform needs the Whiley compiler's artifacts
      first. */
  function Dependencies(i: Instance): (r: seq<string>)
    ensures |r| >= 2 && r[..2] == WhileyPlatform.MavenDeps
  {
    match i.java
    case Whiley(p) => WhileyPlatform.Dependencies(p)
    case Boogie(p) => BoogiePlatform.Dependencies(p)
    case JavaScript(p) => JavaScriptPlatform.Dependencies(p)
    case QuickCheck(p) => QuickCheckPlatform.Dependencies(p)
  }

  /** `arguments()`: the command line for the JVM, main class first. The
      classpath separator `sep` is the one of the host system. */
  function Arguments(i: Instance, sep: string): (r: seq<string>)
    ensures |r| >= 1
    ensures r[0] == (match i.java
                     case Whiley(_) => "wyc.Main"
                     case Boogie(_) => "wyboogie.Main"
                     case JavaScript(_) => "wyjs.Main"
                     case QuickCheck(_) => "wyc.Check")
  {
    match i.java
    case Whiley(p) => WhileyPlatform.Arguments(p)
    case Boogie(p) => BoogiePlatform.Arguments(p)
    case JavaScript(p) => JavaScriptPlatform.Arguments(p)
    case QuickCheck(p) => QuickCheckPlatform.Arguments(p, sep)
  }

  /** `manifest()`: the artifacts a platform produces. `src/platform/whiley.rs`
      defines none for the Whiley platform, so it is excluded. */
  function Manifest(i: Instance, glob: string -> Option<seq<JavaScriptPlatform.GlobEntry>>): (r: seq<BuildTypes.Artifact>)
    requires !i.java.Whiley?
    requires i.java.JavaScript? ==> JavaScriptPlatform.ValidPatterns(i.java.js, glob)
    ensures i.java.QuickCheck? <==> |r| == 0
  {
    match i.java
    case Boogie(p) => BoogiePlatform.Manifest(p)
    case JavaScript(p) => JavaScriptPlatform.Manifest(p, glob)
    case QuickCheck(p) => QuickCheckPlatform.Manifest(p)
  }

  /** The Maven artifacts behind a platform's dependency descriptions. */
  function DependencyArtifacts(i: Instance): (r: seq<Maven.Artifact>)
    ensures |r| == |Dependencies(i)| && forall k :: 0 <= k < |r| ==> Dependencies(i)[k] == Maven.Display(r[k])
  {
    var whiley := [WhileyPlatform.JModelGen, WhileyPlatform.Wyc];
    match i.java
    case Whiley(_) => whiley
    case Boogie(_) => whiley + [BoogiePlatform.WyBoogie]
    case JavaScript(_) => whiley + [JavaScriptPlatform.WyJs]
    case QuickCheck(_) => whiley
  }

  /** Every dependency of every platform is a well-formed Maven artifact
      `group:artifact:version`, so resolving them never panics. */
  lemma DependenciesAreArtifacts(i: Instance)
    ensures forall k :: 0 <= k < |Dependencies(i)| ==> Maven.Parse(Dependencies(i)[k]).Ok?
  {
    PlainArtifacts();
    var arts := DependencyArtifacts(i);
    forall k | 0 <= k < |arts|
      ensures Maven.Parse(Dependencies(i)[k]).Ok?
    {
      var a := arts[k];
      if k == 0 {
        assert a == WhileyPlatform.JModelGen;
      } else if k == 1 {
        assert a == WhileyPlatform.Wyc;
      } else {
        assert a == BoogiePlatform.WyBoogie || a == JavaScriptPlatform.WyJs;
      }
      Maven.ParseDisplay(a);
    }
  }

  /** No coordinate of the back ends' artifacts holds a colon. */
  lemma PlainArtifacts()
    ensures Maven.Plain(WhileyPlatform.JModelGen) && Maven.Plain(WhileyPlatform.Wyc)
    ensures Maven.Plain(BoogiePlatform.WyBoogie) && Maven.Plain(JavaScriptPlatform.WyJs)
  {
  }

  /** A platform descriptor, one per platform file. */
  datatype Descriptor = WhileyDescriptor | BoogieDescriptor | JavaScriptDescriptor | QuickCheckDescriptor

  /** `Descriptor::apply`: instantiate the platform from the build
      configuration and the Whiley home. The variant follows the descriptor;
      only the Whiley descriptor can never fail. */
  function Apply(d: Descriptor, c: Config.Config, home: Paths.PathBuf): (r: Result<Instance, Config.Error>)
    ensures d.WhileyDescriptor? ==> r.Ok?
    ensures r.Ok? ==> match d
      case WhileyDescriptor => r.value.java.Whiley?
      case BoogieDescriptor => r.value.java.Boogie?
      case JavaScriptDescriptor => r.value.java.JavaScript?
      case QuickCheckDescriptor => r.value.java.QuickCheck?
  {
    match d
    case WhileyDescriptor => Ok(Java(Whiley(WhileyPlatform.Apply(c).value)))
    case BoogieDescriptor => var p :- BoogiePlatform.Apply(c, home); Ok(Java(Boogie(p)))
    case JavaScriptDescriptor => var p :- JavaScriptPlatform.Apply(c, home); Ok(Java(JavaScript(p)))
    case QuickCheckDescriptor => var p :- QuickCheckPlatform.Apply(c, home); Ok(Java(QuickCheck(p)))
  }

  /** Every platform but Whiley needs the package name and fails with the
      error of reading it. */
  lemma ApplyNeedsName(d: Descriptor, c: Config.Config, home: Paths.PathBuf)
    requires !d.WhileyDescriptor? && Config.StringLeaf(c, BuildTypes.PackageName).None?
    ensures Apply(d, c, home) == Err(Config.GetString(c, BuildTypes.PackageName).error)
  {
    match d
    case BoogieDescriptor =>
    case JavaScriptDescriptor =>
    case QuickCheckDescriptor =>
  }

  /** The name of the platform a descriptor builds. */
  function DescriptorName(d: Descriptor): string {
    match d
    case WhileyDescriptor => "whiley"
    case BoogieDescriptor => "boogie"
    case JavaScriptDescriptor => "js"
    case QuickCheckDescriptor => "check"
  }

  /** An instance carries the name of the descriptor that built it. */
  lemma ApplyName(d: Descriptor, c: Config.Config, home: Paths.PathBuf)
    requires Apply(d, c, home).Ok?
    ensures Name(Apply(d, c, home).value) == DescriptorName(d)
  {
  }

  /** `Registry`: the descriptors available to a build, by platform name. */
  datatype Registry = Registry(entries: map<string, Descriptor>)

  /** `Registry::new`: no platform is known. */
  function New(): (r: Registry)
    ensures forall n :: Get(r, n).None?
  {
    Registry(map[])
  }

  /** `Registry::register`: `n` now maps to `d`, replacing any earlier
      descriptor; every other name is unaffected. */
  function Register(r: Registry, n: string, d: Descriptor): (r': Registry)
    ensures Get(r', n) == Some(d)
    ensures forall m :: m != n ==> Get(r', m) == Get(r, m)
  {
    Registry(r.entries[n := d])
  }

  /** `Registry::get`. */
  function Get(r: Registry, n: string): (d: Option<Descriptor>)
    ensures d.Some? <==> n in r.entries
    ensures d.Some? ==> d.value == r.entries[n]
  {
    if n in r.entries then Some(r.entries[n]) else None
  }

  /** Registering a name twice keeps only the later descriptor. */
  lemma RegisterLastWins(r: Registry, n: string, d1: Descriptor, d2: Descriptor)
    ensures Register(Register(r, n, d1), n, d2) == Register(r, n, d2)
  {
  }
}
