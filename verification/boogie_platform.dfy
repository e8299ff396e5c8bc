/** The Boogie verification platform (`src/platform/boogie.rs`): translates
    WyIL files into a Boogie program and verifies it by running
    `wyboogie.Main` on the JVM. */
module BoogiePlatform {
  import opened Wrappers
  import Strings
  import Paths
  import Config
  import BuildTypes
  import WhileyPlatform
  import Maven

  const VerifyDefault: bool := true
  const VerboseDefault: bool := false
  const DebugDefault: bool := false
  /** Verification timeout in seconds. */
  const TimeoutDefault: int := 10
  const ArrayTheoryDefault: bool := true

  const BuildBoogieTarget: Config.Key := ["build", "boogie", "target"]
  const BuildBoogieVerify: Config.Key := ["build", "boogie", "verify"]
  const BuildBoogieVerbose: Config.Key := ["build", "boogie", "verbose"]
  const BuildBoogieDebug: Config.Key := ["build", "boogie", "debug"]
  const BuildBoogieTimeout: Config.Key := ["build", "boogie", "timeout"]
  const BuildBoogieArrayTheory: Config.Key := ["build", "boogie", "useArrayTheory"]
  const BuildBoogieProverLog: Config.Key := ["build", "boogie", "proverLog"]
  const BuildBoogieProverName: Config.Key := ["build", "boogie", "proverName"]

  /** The Whiley compiler's artifacts followed by the Boogie back end. */
  const WyBoogie: Maven.Artifact := Maven.Artifact("org.whiley", "wyboogie", "0.4.1")
  const MavenDeps: seq<string> := WhileyPlatform.MavenDeps + [Maven.Display(WyBoogie)]

  datatype Platform = Platform(
    name: string,
    source: string,
    binary: string,
    target: string,
    verify: bool,
    verbose: bool,
    debug: bool,
    timeout: int,
    arrayTheory: bool,
    proverLog: Option<string>,
    proverName: Option<string>)

  function Name(p: Platform): (r: string)
    ensures r == "boogie"
  {
    "boogie"
  }

  /** `dependencies()`: three artifacts, the Whiley compiler's two first. */
  function Dependencies(p: Platform): (r: seq<string>)
    ensures |r| == 3 && r[..2] == WhileyPlatform.MavenDeps && r[2] == Maven.Display(WyBoogie)
  {
    MavenDeps
  }

  /** The back end is published as `org.whiley:wyboogie:0.4.1`. */
  lemma WyBoogieText()
    ensures Maven.Display(WyBoogie) == "org.whiley:wyboogie:0.4.1"
  {
  }

  /** `match_includes`: the files handed to the tool. */
  function MatchIncludes(p: Platform): seq<string> {
    [p.name]
  }

  /** `target_path`: `target/name.bpl`. */
  function TargetPath(p: Platform): Paths.PathBuf {
    Paths.Push(Paths.FromStr(p.target), p.name + ".bpl")
  }

  /** The optional switches, in the order `arguments` emits them. */
  function Switches(p: Platform): seq<string> {
    (if !p.verify then ["--noverify"] else []) +
    (if p.verbose then ["--verbose"] else []) +
    (if p.debug then ["--debug"] else []) +
    (if p.arrayTheory then ["--useArrayTheory"] else []) +
    (if p.proverLog.Some? then [LogSwitch + p.proverLog.value] else []) +
    (if p.proverName.Some? then [NameSwitch + p.proverName.value] else [])
  }

  /** The main class and the four settings every run passes. */
  function Fixed(p: Platform): seq<string> {
    ["wyboogie.Main", "--output=" + p.name, "--wyildir=" + p.binary,
     "--bpldir=" + p.target, "--timeout=" + Strings.IntToString(p.timeout)]
  }

  /** `arguments`: the main class, four fixed settings, the switches and the
      files to translate. */
  function Arguments(p: Platform): (r: seq<string>)
    ensures |r| >= 6
    ensures r[..5] == Fixed(p)
    ensures r[|r| - 1] == p.name
    ensures r[5..|r| - 1] == Switches(p)
  {
    var r := Fixed(p) + Switches(p) + MatchIncludes(p);
    assert r[..5] == Fixed(p);
    assert r[5..|r| - 1] == Switches(p);
    r
  }

  /** The character that tells a prefixed argument apart from the others. */
  lemma PrefixChar(pre: string, v: string, i: nat)
    requires i < |pre|
    ensures (pre + v)[i] == pre[i]
  {
  }

  const LogSwitch: string := "--proverLog="
  const NameSwitch: string := "--proverName="

  /** The prover options are told apart from each other and from the flags
      by their third and ninth characters. */
  lemma OptionChars(v: string)
    ensures (LogSwitch + v)[2] == 'p' && (LogSwitch + v)[8] == 'L'
    ensures (NameSwitch + v)[2] == 'p' && (NameSwitch + v)[8] == 'N'
    ensures (LogSwitch + v)[|LogSwitch|..] == v && (NameSwitch + v)[|NameSwitch|..] == v
  {
    PrefixChar(LogSwitch, v, 2);
    PrefixChar(LogSwitch, v, 8);
    PrefixChar(NameSwitch, v, 2);
    PrefixChar(NameSwitch, v, 8);
  }

  /** What can be among the switches. */
  lemma SwitchMembers(p: Platform, x: string)
    ensures x in Switches(p) <==>
      || (x == "--noverify" && !p.verify)
      || (x == "--verbose" && p.verbose)
      || (x == "--debug" && p.debug)
      || (x == "--useArrayTheory" && p.arrayTheory)
      || (p.proverLog.Some? && x == LogSwitch + p.proverLog.value)
      || (p.proverName.Some? && x == NameSwitch + p.proverName.value)
  {
  }

  /** A flag is none of the prover options. */
  lemma FlagIsNoOption(flag: string, p: Platform)
    requires flag in ["--noverify", "--verbose", "--debug", "--useArrayTheory"]
    ensures p.proverLog.Some? ==> flag != LogSwitch + p.proverLog.value
    ensures p.proverName.Some? ==> flag != NameSwitch + p.proverName.value
  {
    assert flag[2] in "nvdu";
    if p.proverLog.Some? {
      OptionChars(p.proverLog.value);
    }
    if p.proverName.Some? {
      OptionChars(p.proverName.value);
    }
  }

  /** Each flag is present exactly when its setting asks for it. */
  lemma FlagSwitches(p: Platform)
    ensures "--noverify" in Switches(p) <==> !p.verify
    ensures "--verbose" in Switches(p) <==> p.verbose
    ensures "--debug" in Switches(p) <==> p.debug
    ensures "--useArrayTheory" in Switches(p) <==> p.arrayTheory
  {
    SwitchMembers(p, "--noverify");
    FlagIsNoOption("--noverify", p);
    SwitchMembers(p, "--verbose");
    FlagIsNoOption("--verbose", p);
    SwitchMembers(p, "--debug");
    FlagIsNoOption("--debug", p);
    SwitchMembers(p, "--useArrayTheory");
    FlagIsNoOption("--useArrayTheory", p);
  }

  /** The prover log option is present exactly when a log is configured,
      and carries its value. */
  lemma ProverLogSwitch(p: Platform, v: string)
    ensures LogSwitch + v in Switches(p) <==> p.proverLog == Some(v)
  {
    SwitchMembers(p, LogSwitch + v);
    OptionChars(v);
    if p.proverLog.Some? {
      OptionChars(p.proverLog.value);
    }
    if p.proverName.Some? {
      OptionChars(p.proverName.value);
    }
  }

  /** The prover name option is present exactly when a prover is
      configured, and carries its value. */
  lemma ProverNameSwitch(p: Platform, v: string)
    ensures NameSwitch + v in Switches(p) <==> p.proverName == Some(v)
  {
    SwitchMembers(p, NameSwitch + v);
    OptionChars(v);
    if p.proverLog.Some? {
      OptionChars(p.proverLog.value);
    }
    if p.proverName.Some? {
      OptionChars(p.proverName.value);
    }
  }

  /** Each switch is present exactly when its setting asks for it, and a
      prover option carries the configured value. */
  lemma SwitchesIff(p: Platform)
    ensures "--noverify" in Switches(p) <==> !p.verify
    ensures "--verbose" in Switches(p) <==> p.verbose
    ensures "--debug" in Switches(p) <==> p.debug
    ensures "--useArrayTheory" in Switches(p) <==> p.arrayTheory
    ensures forall v :: LogSwitch + v in Switches(p) <==> p.proverLog == Some(v)
    ensures forall v :: NameSwitch + v in Switches(p) <==> p.proverName == Some(v)
  {
    FlagSwitches(p);
    forall v: string
      ensures LogSwitch + v in Switches(p) <==> p.proverLog == Some(v)
      ensures NameSwitch + v in Switches(p) <==> p.proverName == Some(v)
    {
      ProverLogSwitch(p, v);
      ProverNameSwitch(p, v);
    }
  }

  /** `manifest`: the target folder when it is not the default, then the
      generated Boogie file. */
  function Manifest(p: Platform): (r: seq<BuildTypes.Artifact>)
    ensures |r| == (if p.target != WhileyPlatform.TargetDefault then 2 else 1)
    ensures r[|r| - 1] == BuildTypes.BinaryFile(TargetPath(p))
    ensures (exists i :: 0 <= i < |r| && r[i].BinaryFolder?) <==> p.target != WhileyPlatform.TargetDefault
    ensures |r| == 2 ==> r[0] == BuildTypes.BinaryFolder(Paths.FromStr(p.target))
  {
    var folder := if p.target != WhileyPlatform.TargetDefault then [BuildTypes.BinaryFolder(Paths.FromStr(p.target))] else [];
    var r := folder + [BuildTypes.BinaryFile(TargetPath(p))];
    assert r[0] == (if |folder| == 1 then folder[0] else BuildTypes.BinaryFile(TargetPath(p)));
    r
  }

  /** The generated file sits directly in the target folder and is named
      after the package with a `.bpl` suffix. */
  lemma TargetPathShape(p: Platform)
    ensures TargetPath(p).parts == [p.target, p.name + ".bpl"]
  {
  }

  /** `Descriptor::apply`: fails exactly when `package.name` is missing or not
      a string; every other key falls back to its default when missing or of
      the wrong type. The home directory is not used. */
  function Apply(c: Config.Config, home: Paths.PathBuf): (r: Result<Platform, Config.Error>)
    ensures r.Ok? <==> Config.StringLeaf(c, BuildTypes.PackageName).Some?
    ensures r.Err? ==> r.error == Config.GetString(c, BuildTypes.PackageName).error
    ensures r.Ok? ==> r.value == Platform(
      Config.StringLeaf(c, BuildTypes.PackageName).value,
      Config.StringLeaf(c, WhileyPlatform.BuildWhileySource).GetOr(WhileyPlatform.SourceDefault),
      Config.StringLeaf(c, WhileyPlatform.BuildWhileyTarget).GetOr(WhileyPlatform.TargetDefault),
      Config.StringLeaf(c, BuildBoogieTarget).GetOr(WhileyPlatform.TargetDefault),
      Config.BoolLeaf(c, BuildBoogieVerify).GetOr(VerifyDefault),
      Config.BoolLeaf(c, BuildBoogieVerbose).GetOr(VerboseDefault),
      Config.BoolLeaf(c, BuildBoogieDebug).GetOr(DebugDefault),
      Config.IntLeaf(c, BuildBoogieTimeout).GetOr(TimeoutDefault),
      Config.BoolLeaf(c, BuildBoogieArrayTheory).GetOr(ArrayTheoryDefault),
      Config.StringLeaf(c, BuildBoogieProverLog),
      Config.StringLeaf(c, BuildBoogieProverName))
  {
    Config.StringAgrees(c, BuildTypes.PackageName);
    Config.StringOr(c, WhileyPlatform.BuildWhileySource, WhileyPlatform.SourceDefault);
    Config.StringOr(c, WhileyPlatform.BuildWhileyTarget, WhileyPlatform.TargetDefault);
    Config.StringOr(c, BuildBoogieTarget, WhileyPlatform.TargetDefault);
    Config.BoolOr(c, BuildBoogieVerify, VerifyDefault);
    Config.BoolOr(c, BuildBoogieVerbose, VerboseDefault);
    Config.BoolOr(c, BuildBoogieDebug, DebugDefault);
    Config.IntOr(c, BuildBoogieTimeout, TimeoutDefault);
    Config.BoolOr(c, BuildBoogieArrayTheory, ArrayTheoryDefault);
    Config.StringAgrees(c, BuildBoogieProverLog);
    Config.StringAgrees(c, BuildBoogieProverName);
    var name :- Config.GetString(c, BuildTypes.PackageName);
    var source := Config.GetString(c, WhileyPlatform.BuildWhileySource).GetOr(WhileyPlatform.SourceDefault);
    var binary := Config.GetString(c, WhileyPlatform.BuildWhileyTarget).GetOr(WhileyPlatform.TargetDefault);
    var target := Config.GetString(c, BuildBoogieTarget).GetOr(WhileyPlatform.TargetDefault);
    var verify := Config.GetBool(c, BuildBoogieVerify).GetOr(VerifyDefault);
    var verbose := Config.GetBool(c, BuildBoogieVerbose).GetOr(VerboseDefault);
    var debug := Config.GetBool(c, BuildBoogieDebug).GetOr(DebugDefault);
    var timeout := Config.GetInt(c, BuildBoogieTimeout).GetOr(TimeoutDefault);
    var arrayTheory := Config.GetBool(c, BuildBoogieArrayTheory).GetOr(ArrayTheoryDefault);
    var proverLog := Config.GetString(c, BuildBoogieProverLog).ToOption();
    var proverName := Config.GetString(c, BuildBoogieProverName).ToOption();
    Ok(Platform(name, source, binary, target, verify, verbose, debug, timeout, arrayTheory, proverLog, proverName))
  }

  /** A configuration holding nothing but the package's name. */
  function NameOnly(name: string): Config.Config {
    Config.Config(Config.Table([("package", Config.Table([("name", Config.Str(name))]))]))
  }

  /** Such a configuration has no `build` section. */
  lemma NoBuildKeys(name: string, key: Config.Key)
    requires |key| > 0 && key[0] == "build"
    ensures Config.GetKey(NameOnly(name), key).None?
  {
    assert Config.Child(NameOnly(name).toml, "build").None?;
  }

  /** With an empty `[build]` section every setting takes its default. */
  lemma ApplyDefaults(name: string, home: Paths.PathBuf)
    ensures Apply(NameOnly(name), home) == Ok(Platform(name, "src", "bin", "bin", true, false, false, 10, true, None, None))
  {
    var c := NameOnly(name);
    assert Config.StringLeaf(c, BuildTypes.PackageName) == Some(name);
    NoBuildKeys(name, WhileyPlatform.BuildWhileySource);
    NoBuildKeys(name, WhileyPlatform.BuildWhileyTarget);
    NoBuildKeys(name, BuildBoogieTarget);
    NoBuildKeys(name, BuildBoogieVerify);
    NoBuildKeys(name, BuildBoogieVerbose);
    NoBuildKeys(name, BuildBoogieDebug);
    NoBuildKeys(name, BuildBoogieTimeout);
    NoBuildKeys(name, BuildBoogieArrayTheory);
    NoBuildKeys(name, BuildBoogieProverLog);
    NoBuildKeys(name, BuildBoogieProverName);
  }
}
