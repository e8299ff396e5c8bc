/** Build configuration (`src/build.rs`): the package's metadata and one
    platform instance per configured platform name. Its
    `from_str` calls `apply(config)`; the platform files take the Whiley home
    as well, so it is a parameter here. */
module Build {
  import opened Wrappers
  import Paths
  import Config
  import BuildTypes
  import Platform

  const PackageAuthors: Config.Key := ["package", "authors"]
  const PackageVersion: Config.Key := ["package", "version"]
  const BuildPlatforms: Config.Key := ["build", "platforms"]

  datatype Build = Build(name: string, authors: seq<string>, version: string, platforms: seq<Platform.Instance>)

  /** How a descriptor is applied: to the build configuration and the
      Whiley home. */
  type Applier = Platform.Descriptor -> Result<Platform.Instance, Config.Error>

  function ApplyWith(c: Config.Config, home: Paths.PathBuf): Applier {
    d => Platform.Apply(d, c, home)
  }

  /** Platform `k` is the first that cannot be instantiated, with error `e`:
      every earlier one is registered and applies, and this one is unknown or
      its descriptor fails with `e`. */
  predicate FailsAt(reg: Platform.Registry, names: seq<string>, apply: Applier, k: nat, e: Config.Error) {
    && k < |names|
    && (forall j :: 0 <= j < k ==> names[j] in reg.entries && apply(reg.entries[names[j]]).Ok?)
    && (if names[k] in reg.entries then apply(reg.entries[names[k]]) == Err(e)
        else e == Config.UnknownPlatform(names[k]))
  }

  /** The loop of `from_str`: look each name up and apply its descriptor, in
      order, stopping at the first unknown name or failing descriptor. */
  function Instantiate(reg: Platform.Registry, names: seq<string>, apply: Applier): (r: Result<seq<Platform.Instance>, Config.Error>)
    ensures r.Ok? ==>
      |r.value| == |names| &&
      forall i :: 0 <= i < |names| ==> names[i] in reg.entries && apply(reg.entries[names[i]]) == Ok(r.value[i])
    ensures r.Err? ==> exists k :: FailsAt(reg, names, apply, k, r.error)
    decreases |names|
  {
    if |names| == 0 then Ok([])
    else
      match Platform.Get(reg, names[0])
      case None =>
        assert FailsAt(reg, names, apply, 0, Config.UnknownPlatform(names[0]));
        Err(Config.UnknownPlatform(names[0]))
      case Some(d) =>
        match apply(d)
        case Err(e) =>
          assert FailsAt(reg, names, apply, 0, e);
          Err(e)
        case Ok(inst) =>
          match Instantiate(reg, names[1..], apply)
          case Err(e) =>
            var k: nat :| FailsAt(reg, names[1..], apply, k, e);
            assert forall j :: 1 <= j < k + 1 ==> names[j] == names[1..][j - 1];
            assert FailsAt(reg, names, apply, k + 1, e);
            Err(e)
          case Ok(rest) =>
            assert forall i :: 1 <= i < |names| ==> names[i] == names[1..][i - 1];
            Ok([inst] + rest)
  }

  /** `Build::from_str`: read name, authors, version and platform names in
      that order, failing with the first accessor error; then instantiate
      every platform in order. */
  function FromStr(c: Config.Config, reg: Platform.Registry, home: Paths.PathBuf): (r: Result<Build, Config.Error>)
    ensures Config.GetString(c, BuildTypes.PackageName).Err? ==>
      r == Err(Config.GetString(c, BuildTypes.PackageName).error)
    ensures Config.GetString(c, BuildTypes.PackageName).Ok? && Config.GetStringArray(c, PackageAuthors).Err? ==>
      r == Err(Config.GetStringArray(c, PackageAuthors).error)
    ensures Config.GetString(c, BuildTypes.PackageName).Ok? && Config.GetStringArray(c, PackageAuthors).Ok? &&
            Config.GetString(c, PackageVersion).Err? ==>
      r == Err(Config.GetString(c, PackageVersion).error)
    ensures Config.GetString(c, BuildTypes.PackageName).Ok? && Config.GetStringArray(c, PackageAuthors).Ok? &&
            Config.GetString(c, PackageVersion).Ok? && Config.GetStringArray(c, BuildPlatforms).Err? ==>
      r == Err(Config.GetStringArray(c, BuildPlatforms).error)
    ensures r.Ok? ==>
      && Config.StringLeaf(c, BuildTypes.PackageName) == Some(r.value.name)
      && Config.StringArrayLeaf(c, PackageAuthors) == Some(r.value.authors)
      && Config.StringLeaf(c, PackageVersion) == Some(r.value.version)
      && Config.StringArrayLeaf(c, BuildPlatforms).Some?
      && Instantiate(reg, Config.StringArrayLeaf(c, BuildPlatforms).value, ApplyWith(c, home)) == Ok(r.value.platforms)
    ensures Config.StringArrayLeaf(c, BuildPlatforms).Some? && r.Err? &&
            Instantiate(reg, Config.StringArrayLeaf(c, BuildPlatforms).value, ApplyWith(c, home)).Ok? ==>
      Config.StringLeaf(c, BuildTypes.PackageName).None? || Config.StringArrayLeaf(c, PackageAuthors).None? ||
      Config.StringLeaf(c, PackageVersion).None?
  {
    Config.StringAgrees(c, BuildTypes.PackageName);
    Config.StringArrayAgrees(c, PackageAuthors);
    Config.StringAgrees(c, PackageVersion);
    Config.StringArrayAgrees(c, BuildPlatforms);
    var name :- Config.GetString(c, BuildTypes.PackageName);
    var authors :- Config.GetStringArray(c, PackageAuthors);
    var version :- Config.GetString(c, PackageVersion);
    var platforms :- Config.GetStringArray(c, BuildPlatforms);
    var ps :- Instantiate(reg, platforms, ApplyWith(c, home));
    Ok(Build(name, authors, version, ps))
  }

  /** An unknown platform name stops the build with `UnknownPlatform`, and no
      later platform is applied. */
  lemma {:induction false} UnknownPlatformStops(reg: Platform.Registry, names: seq<string>, apply: Applier, k: nat)
    requires k < |names| && names[k] !in reg.entries
    requires forall j :: 0 <= j < k ==> names[j] in reg.entries && apply(reg.entries[names[j]]).Ok?
    ensures Instantiate(reg, names, apply) == Err(Config.UnknownPlatform(names[k]))
    decreases k
  {
    if k > 0 {
      assert forall j :: 0 <= j < k - 1 ==> names[1..][j] == names[j + 1];
      UnknownPlatformStops(reg, names[1..], apply, k - 1);
    }
  }
}
