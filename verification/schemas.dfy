/** The tool's configuration schemas (`src/main/java/wy/Schemas.java`). */
module Schemas {
  import opened Wrappers
  import Tries
  import Regex
  import C = Configuration

  /** The files a package includes when `build/includes` is not set. */
  const DefaultBuildIncludes: seq<C.Value> := [C.Str("wy.toml"), C.Str("**/*.wyil"), C.Str("**/*.whiley")]

  /** `\d+.\d+.\d+`, with its dots unescaped. */
  const VersionPattern: Regex.Pattern := [Regex.Digits, Regex.AnyChar, Regex.Digits, Regex.AnyChar, Regex.Digits]

  /** `SYSTEM_CONFIG_SCHEMA`: the globally installed plugins, required. */
  const SystemConfigSchema: C.Schema :=
    C.FromArray([C.UnboundString(["plugins", "*"], "list of globally installed plugins", true)])

  /** `GLOBAL_CONFIG_SCHEMA`: the user's name and email, optional. */
  const GlobalConfigSchema: C.Schema :=
    C.FromArray([C.UnboundString(["user", "name"], "username", false),
                 C.UnboundString(["user", "email"], "email", false)])

  /** `LOCAL_CONFIG_SCHEMA`: the workspace's projects, optional. */
  const LocalConfigSchema: C.Schema :=
    C.FromArray([C.UnboundStringArray(["workspace", "projects"], "list of projects", false)])

  const NameDescriptor: C.Descriptor :=
    C.UnboundStringWithDefault(["package", "name"], "Name of this package", "main")
  const AuthorsDescriptor: C.Descriptor :=
    C.UnboundStringArray(["package", "authors"], "Author(s) of this package", false)
  const VersionDescriptor: C.Descriptor :=
    C.UnboundString(["package", "version"], "Semantic version of this package", false)
  const PlatformsDescriptor: C.Descriptor :=
    C.UnboundStringArrayWithDefault(["build", "platforms"],
      "Target platforms for this package (default just \"whiley\")", [C.Str("whiley")]).value
  const IncludesDescriptor: C.Descriptor :=
    C.UnboundStringArrayWithDefault(["build", "includes"], "Files to include in package", DefaultBuildIncludes).value
  const MainDescriptor: C.Descriptor :=
    C.UnboundString(["build", "main"], "Identify main method", false)
  const DependencyDescriptor: C.Descriptor :=
    C.RegexString(["dependencies", "*"], "Packages this package depends on", false, VersionPattern)

  /** The descriptors of `PACKAGE`, in declaration order. */
  function PackageDescriptors(): (ds: seq<C.Descriptor>)
    ensures |ds| == 7
  {
    [NameDescriptor, AuthorsDescriptor, VersionDescriptor, PlatformsDescriptor,
     IncludesDescriptor, MainDescriptor, DependencyDescriptor]
  }

  /** `PACKAGE`: the schema of a package's `wy.toml`. */
  function Package(): C.Schema {
    C.FromArray(PackageDescriptors())
  }

  /** The first six filters of `PACKAGE` are literal. */
  lemma LiteralFilters()
    ensures forall j :: 0 <= j < 6 ==> Tries.Literal(PackageDescriptors()[j].filter)
  {
  }

  /** No two filters of `PACKAGE` are the same. */
  lemma DistinctFilters()
    ensures forall i, j :: 0 <= i < j < 7 ==> PackageDescriptors()[i].filter != PackageDescriptors()[j].filter
  {
    assert |"package"| == 7 && |"build"| == 5 && |"dependencies"| == 12;
    assert |"name"| == 4 && |"authors"| == 7 && |"version"| == 7;
    assert "authors"[0] != "version"[0];
    assert |"platforms"| == 9 && |"includes"| == 8 && |"main"| == 4;
  }

  /** `PACKAGE` gives the descriptor at position `i` for its literal key. */
  lemma PackageDescriptorAt(i: nat)
    requires i < 6
    ensures C.GetDescriptor(Package(), PackageDescriptors()[i].filter) == Ok(PackageDescriptors()[i])
  {
    var ds := PackageDescriptors();
    var key := ds[i].filter;
    LiteralFilters();
    DistinctFilters();
    forall j | 0 <= j <= i
      ensures Tries.Matches(ds[j].filter, key) <==> j == i
    {
      Tries.LiteralMatches(ds[j].filter, key);
    }
    var f := C.FirstMatching(ds, key);
    assert !(f < i) && !(i < f);
  }

  /** `package/name` defaults to `main`. */
  lemma PackageNameDefault()
    ensures C.EmptyGet(Package(), C.StringKind, ["package", "name"]) == Ok(C.Str("main"))
  {
    PackageDescriptorAt(0);
  }

  /** `build/platforms` defaults to the Whiley platform alone. */
  lemma PlatformsDefault()
    ensures C.EmptyGet(Package(), C.ArrayKind, ["build", "platforms"]) == Ok(C.Array([C.Str("whiley")]))
  {
    var d := PlatformsDescriptor;
    assert d.filter == ["build", "platforms"] && d.default == Some(C.Array([C.Str("whiley")]));
    PackageDescriptorAt(3);
    C.EmptyGetDefault(Package(), C.ArrayKind, d.filter, d);
  }

  /** `build/includes` defaults to the package file and all WyIL and Whiley
      files. */
  lemma IncludesDefault()
    ensures C.EmptyGet(Package(), C.ArrayKind, ["build", "includes"]) == Ok(C.Array(DefaultBuildIncludes))
  {
    var d := IncludesDescriptor;
    assert d.filter == ["build", "includes"] && d.default == Some(C.Array(DefaultBuildIncludes));
    PackageDescriptorAt(4);
    C.EmptyGetDefault(Package(), C.ArrayKind, d.filter, d);
  }

  /** The authors, version and main method are optional and have no
      default, so an empty configuration has no value for them. */
  lemma PackageOptionalKeys()
    ensures forall i :: i in {1, 2, 5} ==> !PackageDescriptors()[i].required && !C.HasDefault(PackageDescriptors()[i])
  {
  }

  lemma AuthorsUnset()
    ensures C.EmptyHasKey(Package(), ["package", "authors"]) == Ok(false)
  {
    PackageDescriptorAt(1);
  }

  lemma VersionUnset()
    ensures C.EmptyHasKey(Package(), ["package", "version"]) == Ok(false)
  {
    PackageDescriptorAt(2);
  }

  lemma MainUnset()
    ensures C.EmptyHasKey(Package(), ["build", "main"]) == Ok(false)
  {
    PackageDescriptorAt(5);
  }

  /** The user's name and email are optional without default; the system's
      plugins are required. */
  lemma OtherSchemas()
    ensures forall d :: d in C.Descriptors(GlobalConfigSchema) ==> !d.required && !C.HasDefault(d)
    ensures forall d :: d in C.Descriptors(SystemConfigSchema) ==> d.required && d.filter == ["plugins", "*"]
  {
  }

  /** A dependency version is three digit runs separated by single
      characters: `1.2.3` and, as the dots are unescaped, `1x2y3` are
      accepted; `1.2` and `1.2.x` are not. */
  lemma DependencyVersions()
    ensures C.IsValid(PackageDescriptors()[6].check, C.Str("1.2.3"))
    ensures C.IsValid(PackageDescriptors()[6].check, C.Str("1x2y3"))
    ensures !C.IsValid(PackageDescriptors()[6].check, C.Str("1.2"))
    ensures !C.IsValid(PackageDescriptors()[6].check, C.Str("1.2.x"))
  {
    VersionsAccepted();
    VersionsRejected();
  }

  lemma VersionsAccepted()
    ensures Regex.FullMatch(VersionPattern, "1.2.3") && Regex.FullMatch(VersionPattern, "1x2y3")
  {
    var p := VersionPattern;
    assert Regex.FullMatch(p[4..], "3");
    assert Regex.FullMatch(p[3..], ".3");
    assert Regex.FullMatch(p[3..], "y3");
    assert Regex.FullMatch(p[2..], "2.3");
    assert Regex.FullMatch(p[2..], "2y3");
    assert Regex.FullMatch(p[1..], ".2.3");
    assert Regex.FullMatch(p[1..], "x2y3");
  }

  lemma VersionsRejected()
    ensures !Regex.FullMatch(VersionPattern, "1.2") && !Regex.FullMatch(VersionPattern, "1.2.x")
  {
    var p := VersionPattern;
    assert !Regex.FullMatch(p[2..], "2");
    assert !Regex.FullMatch(p[1..], ".2");
    assert !Regex.FullMatch(p[4..], "x");
    assert !Regex.FullMatch(p[2..], "2.x");
  }

  /** Every dependency key is described by the version descriptor. */
  lemma DependencyKeys(name: string)
    ensures Tries.Matches(PackageDescriptors()[6].filter, ["dependencies", name])
  {
    Tries.ChildrenMatch(["dependencies"], ["dependencies", name]);
  }
}
