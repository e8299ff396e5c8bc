/** Maven artifacts `group:artifact:version` and the resolver that caches
    their jars (`src/maven.rs`). */
module Maven {
  import opened Wrappers
  import Strings
  import Paths
  import Cache

  datatype Artifact = Artifact(group: string, artifact: string, version: string)

  /** No field holds the `:` that separates them. */
  predicate Plain(a: Artifact) {
    ':' !in a.group && ':' !in a.artifact && ':' !in a.version
  }

  /** `MavenArtifact::new`: the description must split on `:` into exactly
      three parts, i.e. hold exactly two colons. */
  function Parse(desc: string): (r: Result<Artifact, ()>)
    ensures r.Ok? <==> multiset(desc)[':'] == 2
    ensures r.Ok? ==> Plain(r.value)
  {
    var parts := Strings.Split(desc, ':');
    Strings.SplitCount(desc, ':');
    if |parts| != 3 then Err(()) else Ok(Artifact(parts[0], parts[1], parts[2]))
  }

  /** The `Display` form `group:artifact:version`. */
  function Display(a: Artifact): string {
    Strings.Join([a.group, a.artifact, a.version], ":")
  }

  /** `to_jarname`: `artifact-version.jar` (no `v` before the version). */
  function JarName(a: Artifact): string {
    a.artifact + "-" + a.version + ".jar"
  }

  /** The path of the jar below the repository root, as `to_url` builds it
      before joining: dots of the group become directories. */
  function UrlPath(a: Artifact): string {
    Strings.Replace(a.group, '.', '/') + "/" + a.artifact + "/" + a.version + "/" + JarName(a)
  }

  /** `to_url`: the jar's path resolved against the repository's base URL. */
  function Url(a: Artifact, base: string): string {
    Cache.UrlJoin(base, UrlPath(a))
  }

  /** Parsing the display form of a plain artifact gives it back. */
  lemma ParseDisplay(a: Artifact)
    requires Plain(a)
    ensures Parse(Display(a)) == Ok(a)
  {
    Strings.SplitJoin([a.group, a.artifact, a.version], ':');
  }

  /** Displaying a parsed description gives back the description. */
  lemma DisplayParse(desc: string)
    requires Parse(desc).Ok?
    ensures Display(Parse(desc).value) == desc
  {
    var parts := Strings.Split(desc, ':');
    assert parts == [parts[0], parts[1], parts[2]];
  }

  /** Under a directory base URL the jar's URL is the base followed by the
      group's directories, the artifact, the version and the jar name; the
      last segment is the jar name. */
  lemma UrlLayout(a: Artifact, base: string)
    requires |base| > 0 && base[|base| - 1] == '/'
    ensures Url(a, base) == base + Strings.Replace(a.group, '.', '/') + "/" + a.artifact + "/" + a.version + "/" + JarName(a)
    ensures '/' !in JarName(a) ==> Strings.LastIndexOf(Url(a, base), '/') == |Url(a, base)| - |JarName(a)| - 1
  {
    Cache.UrlJoinDirectory(base, UrlPath(a));
    var u := Url(a, base);
    var pre := base + Strings.Replace(a.group, '.', '/') + "/" + a.artifact + "/" + a.version;
    assert u == pre + ['/'] + JarName(a);
    if '/' !in JarName(a) {
      Strings.LastIndexOfAppend(pre, '/', JarName(a));
    }
  }

  /** The resolver: the cache directory and the repository's base URL. */
  datatype Resolver = Resolver(dir: Paths.PathBuf, url: string)

  /** `MavenResolver::get`: the jar's cache path, downloading it on a miss.
      The jar lives directly in the cache directory under its jar name. */
  function Get(res: Resolver, a: Artifact, files: Cache.Files,
               download: string -> Option<Cache.Bytes>, writable: bool): (r: (Result<Paths.PathBuf, Cache.Error>, Cache.Files))
    ensures var jar := Paths.Push(res.dir, JarName(a));
      && (r.0.Ok? ==> r.0.value == jar && jar in r.1)
      && (r.0.Ok? <==> jar in files || (download(Url(a, res.url)).Some? && writable))
      && (r.0.Err? ==> r.1 == files)
      && (forall p :: p != jar ==> (p in r.1 <==> p in files))
  {
    Cache.Fetch(files, Paths.Push(res.dir, JarName(a)), Url(a, res.url), download, writable)
  }

  /** Artifacts with the same artifact id and version share one cache entry,
      whatever their groups. */
  lemma SameJarAcrossGroups(res: Resolver, a: Artifact, b: Artifact)
    requires a.artifact == b.artifact && a.version == b.version
    ensures Paths.Push(res.dir, JarName(a)) == Paths.Push(res.dir, JarName(b))
  {
  }

  /** After a successful `get` a second `get` of the same artifact is a cache
      hit: same path, same cache, whatever the network and disk do then. */
  lemma GetIdempotent(res: Resolver, a: Artifact, files: Cache.Files,
                      d1: string -> Option<Cache.Bytes>, d2: string -> Option<Cache.Bytes>, w1: bool, w2: bool)
    requires Get(res, a, files, d1, w1).0.Ok?
    ensures var (r, files') := Get(res, a, files, d1, w1);
      Get(res, a, files', d2, w2) == (r, files')
  {
    Cache.FetchIdempotent(files, Paths.Push(res.dir, JarName(a)), Url(a, res.url), d1, d2, w1, w2);
  }
}
