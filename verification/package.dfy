/** Package dependencies `name`/`version` and the resolver that caches their
    zip files (`src/package.rs`). */
module Package {
  import opened Wrappers
  import Strings
  import Paths
  import Cache

  datatype Dependency = Dependency(name: string, version: string)

  /** `to_zipname`: `name-vversion.zip`. */
  function ZipName(d: Dependency): string {
    d.name + "-v" + d.version + ".zip"
  }

  /** The path below the repository root, as `to_url` builds it before joining. */
  function UrlPath(d: Dependency): string {
    d.name + "/" + d.version + "/" + ZipName(d)
  }

  /** `to_url`: the zip's path resolved against the base URL. */
  function Url(d: Dependency, base: string): string {
    Cache.UrlJoin(base, UrlPath(d))
  }

  /** The `Display` form `name-version`. */
  function Display(d: Dependency): string {
    d.name + "-" + d.version
  }

  /** The zip name is the display form with a `v` before the version and a
      `.zip` suffix. */
  lemma ZipNameOfDisplay(d: Dependency)
    ensures ZipName(d) == d.name + "-" + "v" + d.version + ".zip"
    ensures Display(d) == ZipName(d)[..|d.name| + 1] + d.version
  {
    assert ZipName(d)[..|d.name| + 1] == d.name + "-";
  }

  /** Under a directory base URL, the zip sits at `base/name/version/zip`. */
  lemma UrlLayout(d: Dependency, base: string)
    requires |base| > 0 && base[|base| - 1] == '/'
    ensures Url(d, base) == base + d.name + "/" + d.version + "/" + ZipName(d)
  {
    Cache.UrlJoinDirectory(base, UrlPath(d));
  }

  datatype Resolver = Resolver(dir: Paths.PathBuf, url: string)

  /** `PackageResolver::get`: the zip's cache path, downloading it on a miss. */
  function Get(res: Resolver, d: Dependency, files: Cache.Files,
               download: string -> Option<Cache.Bytes>, writable: bool): (r: (Result<Paths.PathBuf, Cache.Error>, Cache.Files))
    ensures var zip := Paths.Push(res.dir, ZipName(d));
      && (r.0.Ok? ==> r.0.value == zip && zip in r.1)
      && (r.0.Ok? <==> zip in files || (download(Url(d, res.url)).Some? && writable))
      && (r.0.Err? ==> r.1 == files)
      && (forall p :: p != zip ==> (p in r.1 <==> p in files))
  {
    Cache.Fetch(files, Paths.Push(res.dir, ZipName(d)), Url(d, res.url), download, writable)
  }

  /** Every dependency's zip is in the cache. */
  predicate AllCached(res: Resolver, deps: seq<Dependency>, files: Cache.Files) {
    forall i :: 0 <= i < |deps| ==> Paths.Push(res.dir, ZipName(deps[i])) in files
  }

  /** `p` is the cache path of one of `deps`' zips. */
  predicate Fetched(res: Resolver, deps: seq<Dependency>, p: Paths.PathBuf) {
    exists i :: 0 <= i < |deps| && p == Paths.Push(res.dir, ZipName(deps[i]))
  }

  /** `PackageResolver::resolve`: fetch each dependency in order, stopping at
      the first failure. Only the listed dependencies are fetched: their own
      dependencies are not followed. */
  function Resolve(res: Resolver, deps: seq<Dependency>, files: Cache.Files,
                   download: string -> Option<Cache.Bytes>, writable: bool): (r: (Result<(), Cache.Error>, Cache.Files))
    ensures r.0.Ok? ==> AllCached(res, deps, r.1)
    ensures forall p :: p in files ==> p in r.1 && r.1[p] == files[p]
    ensures forall p :: p in r.1 && p !in files ==> Fetched(res, deps, p)
    decreases |deps|
  {
    if |deps| == 0 then (Ok(()), files)
    else
      var (g, files') := Get(res, deps[0], files, download, writable);
      if g.Err? then (Err(g.error), files')
      else
        var (r, files'') := Resolve(res, deps[1..], files', download, writable);
        assert forall i :: 1 <= i < |deps| ==> deps[i] == deps[1..][i - 1];
        forall p | p in files'' && p !in files
          ensures Fetched(res, deps, p)
        {
          if p !in files' {
            var i :| 0 <= i < |deps[1..]| && p == Paths.Push(res.dir, ZipName(deps[1..][i]));
            assert p == Paths.Push(res.dir, ZipName(deps[i + 1]));
          } else {
            assert p == Paths.Push(res.dir, ZipName(deps[0]));
          }
        }
        (r, files'')
  }

  /** Dependency `k` is the first to fail, with error `e`: the ones before it
      resolve, and fetching it from the resulting cache gives `e`. */
  predicate FailsAt(res: Resolver, deps: seq<Dependency>, files: Cache.Files,
                    download: string -> Option<Cache.Bytes>, writable: bool, k: nat, e: Cache.Error)
  {
    k < |deps| &&
    var pre := Resolve(res, deps[..k], files, download, writable);
    pre.0.Ok? && Get(res, deps[k], pre.1, download, writable).0 == Err(e)
  }

  /** Resolving the first `k + 1` dependencies is fetching the first, then
      resolving the next `k`. */
  lemma ResolvePrefixStep(res: Resolver, deps: seq<Dependency>, files: Cache.Files,
                          download: string -> Option<Cache.Bytes>, writable: bool, k: nat)
    requires k < |deps| && Get(res, deps[0], files, download, writable).0.Ok?
    ensures Resolve(res, deps[..k + 1], files, download, writable) ==
      Resolve(res, deps[1..][..k], Get(res, deps[0], files, download, writable).1, download, writable)
  {
    assert deps[..k + 1][0] == deps[0] && deps[..k + 1][1..] == deps[1..][..k];
  }

  /** A failed resolution reports the error of the first failing dependency. */
  lemma {:induction false} ResolveStopsAtFirstFailure(res: Resolver, deps: seq<Dependency>, files: Cache.Files,
                                                      download: string -> Option<Cache.Bytes>, writable: bool)
    requires Resolve(res, deps, files, download, writable).0.Err?
    ensures exists k :: FailsAt(res, deps, files, download, writable, k, Resolve(res, deps, files, download, writable).0.error)
    decreases |deps|
  {
    var e := Resolve(res, deps, files, download, writable).0.error;
    var (g, files') := Get(res, deps[0], files, download, writable);
    if g.Err? {
      assert deps[..0] == [];
      assert FailsAt(res, deps, files, download, writable, 0, e);
    } else {
      ResolveStopsAtFirstFailure(res, deps[1..], files', download, writable);
      var k: nat :| FailsAt(res, deps[1..], files', download, writable, k, e);
      ResolvePrefixStep(res, deps, files, download, writable, k);
      assert deps[1..][k] == deps[k + 1];
      assert FailsAt(res, deps, files, download, writable, k + 1, e);
    }
  }

  /** Resolving a list whose zips are all cached changes nothing, whatever
      the network does. */
  lemma {:induction false} ResolveCachedIsNoop(res: Resolver, deps: seq<Dependency>, files: Cache.Files,
                                               download: string -> Option<Cache.Bytes>, writable: bool)
    requires AllCached(res, deps, files)
    ensures Resolve(res, deps, files, download, writable) == (Ok(()), files)
    decreases |deps|
  {
    if |deps| > 0 {
      assert forall i :: 1 <= i < |deps| ==> deps[i] == deps[1..][i - 1];
      ResolveCachedIsNoop(res, deps[1..], files, download, writable);
    }
  }

  /** After a successful `get` a second `get` of the same dependency is a
      cache hit: same path, same cache, whatever the network and disk do. */
  lemma GetIdempotent(res: Resolver, d: Dependency, files: Cache.Files,
                      d1: string -> Option<Cache.Bytes>, d2: string -> Option<Cache.Bytes>, w1: bool, w2: bool)
    requires Get(res, d, files, d1, w1).0.Ok?
    ensures var (r, files') := Get(res, d, files, d1, w1);
      Get(res, d, files', d2, w2) == (r, files')
  {
    Cache.FetchIdempotent(files, Paths.Push(res.dir, ZipName(d)), Url(d, res.url), d1, d2, w1, w2);
  }
}
