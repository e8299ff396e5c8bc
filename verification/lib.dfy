/** Start-up of the tool (`src/lib.rs`): where the Whiley home is, which
    platforms are known, and how the JVM classpath is resolved. */
module Lib {
  import opened Wrappers
  import Paths
  import Cache
  import Maven
  import Platform

  /** The repository Maven dependencies are fetched from. */
  const MavenCentral: string := "https://repo1.maven.org/maven2/"

  /** `init_whileyhome`: the `WHILEYHOME` value verbatim when it is set,
      otherwise `.whiley` below the user's home directory. The user's home
      must be known in that case (the source unwraps it). Creating the
      directory is left out. */
  function WhileyHome(env: Option<string>, userHome: Option<Paths.PathBuf>): (r: Paths.PathBuf)
    requires env.Some? || userHome.Some?
    ensures env.Some? ==> r.parts == [env.value]
    ensures env.None? ==> r.parts == userHome.value.parts + [".whiley"]
  {
    match env
    case Some(val) => Paths.FromStr(val)
    case None => Paths.Push(userHome.value, ".whiley")
  }

  /** A set `WHILEYHOME` is used without question: the user's home plays no
      part, and distinct values give distinct homes. */
  lemma WhileyHomeFromEnv(v: string, w: string, h1: Option<Paths.PathBuf>, h2: Option<Paths.PathBuf>)
    ensures WhileyHome(Some(v), h1) == WhileyHome(Some(v), h2)
    ensures WhileyHome(Some(v), h1) == WhileyHome(Some(w), h2) <==> v == w
  {
    if WhileyHome(Some(v), h1) == WhileyHome(Some(w), h2) {
      assert WhileyHome(Some(v), h1).parts[0] == v;
    }
  }

  /** `init_registry`: the Whiley, JavaScript and Boogie descriptors. */
  function InitRegistry(): (r: Platform.Registry)
    ensures r.entries.Keys == {"whiley", "js", "boogie"}
    ensures forall n :: n in r.entries ==> Platform.DescriptorName(r.entries[n]) == n
  {
    var r := Platform.New();
    var r := Platform.Register(r, "whiley", Platform.WhileyDescriptor);
    var r := Platform.Register(r, "js", Platform.JavaScriptDescriptor);
    Platform.Register(r, "boogie", Platform.BoogieDescriptor)
  }

  /** The QuickCheck platform is not registered, and every platform the
      registry builds is named after its key. */
  lemma InitRegistryLookups(n: string)
    ensures Platform.Get(InitRegistry(), "check").None?
    ensures Platform.Get(InitRegistry(), n).Some? <==> n == "whiley" || n == "js" || n == "boogie"
    ensures Platform.Get(InitRegistry(), "whiley") == Some(Platform.WhileyDescriptor)
    ensures Platform.Get(InitRegistry(), "js") == Some(Platform.JavaScriptDescriptor)
    ensures Platform.Get(InitRegistry(), "boogie") == Some(Platform.BoogieDescriptor)
  {
    assert "check" !in InitRegistry().entries.Keys;
  }

  /** Every description is a well-formed Maven artifact (the source unwraps
      the parse, so a malformed one aborts the tool). */
  predicate Parses(deps: seq<string>) {
    forall i :: 0 <= i < |deps| ==> Maven.Parse(deps[i]).Ok?
  }

  /** The resolver of `init_classpath`: `<home>/maven` backed by Maven
      central. */
  function ClasspathResolver(home: Paths.PathBuf): Maven.Resolver {
    Maven.Resolver(Paths.Push(home, "maven"), MavenCentral)
  }

  /** The artifacts the descriptions denote, in order. */
  function ArtifactsOf(deps: seq<string>): (r: seq<Maven.Artifact>)
    requires Parses(deps)
    ensures |r| == |deps| && forall i :: 0 <= i < |deps| ==> Maven.Parse(deps[i]) == Ok(r[i])
    decreases |deps|
  {
    if |deps| == 0 then []
    else
      var tail := deps[1..];
      assert forall i :: 1 <= i < |deps| ==> deps[i] == tail[i - 1];
      var rest := ArtifactsOf(tail);
      var r := [Maven.Parse(deps[0]).value] + rest;
      assert forall i :: 1 <= i < |deps| ==> r[i] == rest[i - 1];
      r
  }

  /** `p` is the cache path of one of the artifacts' jars. */
  predicate Fetched(res: Maven.Resolver, arts: seq<Maven.Artifact>, p: Paths.PathBuf) {
    exists i :: 0 <= i < |arts| && p == Paths.Push(res.dir, Maven.JarName(arts[i]))
  }

  /** The loop of `init_classpath`: `get` each artifact in order, collecting
      the jars, stopping at the first resolver error. */
  function Jars(res: Maven.Resolver, arts: seq<Maven.Artifact>, files: Cache.Files,
                download: string -> Option<Cache.Bytes>, writable: bool): (r: (Result<seq<Paths.PathBuf>, Cache.Error>, Cache.Files))
    ensures r.0.Ok? ==>
      |r.0.value| == |arts| &&
      forall i :: 0 <= i < |arts| ==> r.0.value[i] == Paths.Push(res.dir, Maven.JarName(arts[i])) && r.0.value[i] in r.1
    ensures forall p :: p in files ==> p in r.1 && r.1[p] == files[p]
    decreases |arts|
  {
    if |arts| == 0 then (Ok([]), files)
    else
      var (g, files') := Maven.Get(res, arts[0], files, download, writable);
      if g.Err? then (Err(g.error), files')
      else
        var (r, files'') := Jars(res, arts[1..], files', download, writable);
        assert forall i :: 1 <= i < |arts| ==> arts[i] == arts[1..][i - 1];
        match r
        case Err(e) => (Err(e), files'')
        case Ok(rest) => (Ok([g.value] + rest), files'')
  }

  /** Collecting the jars adds nothing to the cache but jars of the
      artifacts. */
  lemma {:induction false} JarsAddOnlyJars(res: Maven.Resolver, arts: seq<Maven.Artifact>, files: Cache.Files,
                                           download: string -> Option<Cache.Bytes>, writable: bool)
    ensures var r := Jars(res, arts, files, download, writable);
      forall p :: p in r.1 && p !in files ==> Fetched(res, arts, p)
    decreases |arts|
  {
    if |arts| > 0 {
      var (g, files') := Maven.Get(res, arts[0], files, download, writable);
      if g.Ok? {
        JarsAddOnlyJars(res, arts[1..], files', download, writable);
        var files'' := Jars(res, arts[1..], files', download, writable).1;
        assert Jars(res, arts, files, download, writable).1 == files'';
        forall p | p in files'' && p !in files
          ensures Fetched(res, arts, p)
        {
          if p !in files' {
            var i :| 0 <= i < |arts[1..]| && p == Paths.Push(res.dir, Maven.JarName(arts[1..][i]));
            assert p == Paths.Push(res.dir, Maven.JarName(arts[i + 1]));
          } else {
            assert p == Paths.Push(res.dir, Maven.JarName(arts[0]));
          }
        }
      }
    }
  }

  /** Where the jar of a description is cached: `<home>/maven/<jar name>`. */
  function JarPath(home: Paths.PathBuf, dep: string): (r: Paths.PathBuf)
    requires Maven.Parse(dep).Ok?
    ensures r.parts == home.parts + ["maven", Maven.JarName(Maven.Parse(dep).value)]
  {
    Paths.Push(Paths.Push(home, "maven"), Maven.JarName(Maven.Parse(dep).value))
  }

  /** `init_classpath`: resolve each description in order into the cache
      below `<home>/maven` and list the jars, stopping at the first resolver
      error. */
  function InitClasspath(home: Paths.PathBuf, deps: seq<string>, files: Cache.Files,
                         download: string -> Option<Cache.Bytes>, writable: bool): (r: (Result<seq<Paths.PathBuf>, Cache.Error>, Cache.Files))
    requires Parses(deps)
    ensures r.0.Ok? ==>
      |r.0.value| == |deps| &&
      forall i :: 0 <= i < |deps| ==> r.0.value[i] == JarPath(home, deps[i]) && r.0.value[i] in r.1
    ensures forall p :: p in files ==> p in r.1 && r.1[p] == files[p]
    ensures forall p :: p in r.1 && p !in files ==>
      exists i :: 0 <= i < |deps| && p == JarPath(home, deps[i])
  {
    var arts := ArtifactsOf(deps);
    var res := ClasspathResolver(home);
    var r := Jars(res, arts, files, download, writable);
    forall i | 0 <= i < |deps|
      ensures JarPath(home, deps[i]) == Paths.Push(res.dir, Maven.JarName(arts[i]))
    {
      ArtifactJar(home, deps, i);
    }
    JarsAddOnlyJars(res, arts, files, download, writable);
    forall p | p in r.1 && p !in files
      ensures exists i :: 0 <= i < |deps| && p == JarPath(home, deps[i])
    {
      FetchedIsJarPath(home, deps, p);
    }
    r
  }

  /** The jar of the `i`-th artifact is the `i`-th description's path. */
  lemma ArtifactJar(home: Paths.PathBuf, deps: seq<string>, i: nat)
    requires Parses(deps) && i < |deps|
    ensures JarPath(home, deps[i]) == Paths.Push(ClasspathResolver(home).dir, Maven.JarName(ArtifactsOf(deps)[i]))
  {
  }

  lemma FetchedIsJarPath(home: Paths.PathBuf, deps: seq<string>, p: Paths.PathBuf)
    requires Parses(deps) && Fetched(ClasspathResolver(home), ArtifactsOf(deps), p)
    ensures exists i :: 0 <= i < |deps| && p == JarPath(home, deps[i])
  {
    var arts := ArtifactsOf(deps);
    var i :| 0 <= i < |arts| && p == Paths.Push(ClasspathResolver(home).dir, Maven.JarName(arts[i]));
    ArtifactJar(home, deps, i);
  }

  /** Artifact `k` is the first whose jar cannot be obtained, with error
      `e`: the earlier ones resolve, and fetching it from the resulting cache
      fails with `e`. */
  predicate FailsAt(res: Maven.Resolver, arts: seq<Maven.Artifact>, files: Cache.Files,
                    download: string -> Option<Cache.Bytes>, writable: bool, k: nat, e: Cache.Error)
  {
    k < |arts| &&
    var pre := Jars(res, arts[..k], files, download, writable);
    pre.0.Ok? && Maven.Get(res, arts[k], pre.1, download, writable).0 == Err(e)
  }

  /** Collecting the first `k + 1` jars is fetching the first, then
      collecting the next `k`, whose outcome decides. */
  lemma JarsPrefixStep(res: Maven.Resolver, arts: seq<Maven.Artifact>, files: Cache.Files,
                       download: string -> Option<Cache.Bytes>, writable: bool, k: nat)
    requires k < |arts| && Maven.Get(res, arts[0], files, download, writable).0.Ok?
    ensures var here := Jars(res, arts[..k + 1], files, download, writable);
      var rest := Jars(res, arts[1..][..k], Maven.Get(res, arts[0], files, download, writable).1, download, writable);
      here.1 == rest.1 && (here.0.Ok? <==> rest.0.Ok?)
  {
    var pre := arts[..k + 1];
    assert pre[0] == arts[0] && pre[1..] == arts[1..][..k];
    var g := Maven.Get(res, pre[0], files, download, writable);
    var rest := Jars(res, pre[1..], g.1, download, writable);
    assert Jars(res, pre, files, download, writable) ==
      (match rest.0 case Err(e) => (Err(e), rest.1) case Ok(v) => (Ok([g.0.value] + v), rest.1));
  }

  /** A failed classpath reports the error of the first failing artifact;
      later ones are not fetched. */
  lemma {:induction false} JarsStopAtFirstFailure(res: Maven.Resolver, arts: seq<Maven.Artifact>, files: Cache.Files,
                                                  download: string -> Option<Cache.Bytes>, writable: bool)
    requires Jars(res, arts, files, download, writable).0.Err?
    ensures exists k :: FailsAt(res, arts, files, download, writable, k, Jars(res, arts, files, download, writable).0.error)
    decreases |arts|
  {
    var e := Jars(res, arts, files, download, writable).0.error;
    var (g, files') := Maven.Get(res, arts[0], files, download, writable);
    if g.Err? {
      assert arts[..0] == [];
      assert FailsAt(res, arts, files, download, writable, 0, e);
    } else {
      JarsStopAtFirstFailure(res, arts[1..], files', download, writable);
      var k: nat :| FailsAt(res, arts[1..], files', download, writable, k, e);
      JarsPrefixStep(res, arts, files, download, writable, k);
      assert arts[1..][k] == arts[k + 1];
      assert FailsAt(res, arts, files, download, writable, k + 1, e);
    }
  }

  /** With every jar already cached the classpath is found without touching
      the network or the disk. */
  lemma {:induction false} JarsCached(res: Maven.Resolver, arts: seq<Maven.Artifact>, files: Cache.Files,
                                      download: string -> Option<Cache.Bytes>, writable: bool)
    requires forall i :: 0 <= i < |arts| ==> Paths.Push(res.dir, Maven.JarName(arts[i])) in files
    ensures Jars(res, arts, files, download, writable).0.Ok?
    ensures Jars(res, arts, files, download, writable).1 == files
    decreases |arts|
  {
    if |arts| > 0 {
      assert forall i :: 1 <= i < |arts| ==> arts[i] == arts[1..][i - 1];
      JarsCached(res, arts[1..], files, download, writable);
    }
  }

  /** Every platform's dependencies can be put on a classpath: none of them
      makes `init_classpath` abort. */
  lemma PlatformClasspathParses(i: Platform.Instance)
    ensures Parses(Platform.Dependencies(i))
  {
    Platform.DependenciesAreArtifacts(i);
  }
}
