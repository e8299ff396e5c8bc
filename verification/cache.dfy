/** The fetch-on-miss step shared by the Maven and package resolvers: a file
    under the cache directory is downloaded and written only when it is absent.
    The filesystem is a map from paths to contents; the network is an oracle
    `download` from URL to bytes (or failure); whether the write succeeds is
    the flag `writable`. */
module Cache {
  import opened Wrappers
  import Paths
  import Strings

  type Bytes = seq<bv8>
  type Files = map<Paths.PathBuf, Bytes>

  datatype Error = DownloadFailed(url: string) | WriteFailed(path: Paths.PathBuf)

  /** Resolving a relative path against a base URL (the path merge of section
      5.2.3 of RFC 3986): the base up to and including its last `/`, then `rel`. */
  function UrlJoin(base: string, rel: string): (r: string)
    ensures var k := Strings.LastIndexOf(base, '/');
      |r| == k + 1 + |rel| && r[..k + 1] == base[..k + 1] && r[k + 1..] == rel
  {
    base[..Strings.LastIndexOf(base, '/') + 1] + rel
  }

  /** A base URL ending in `/` is a directory: the relative path is appended. */
  lemma UrlJoinDirectory(base: string, rel: string)
    requires |base| > 0 && base[|base| - 1] == '/'
    ensures UrlJoin(base, rel) == base + rel
  {
    assert base == base[..|base| - 1] + ['/'] + [];
    Strings.LastIndexOfAppend(base[..|base| - 1], '/', []);
  }

  /** Make sure `file` is present: on a miss, download `url` and write it. */
  function Fetch(files: Files, file: Paths.PathBuf, url: string,
                 download: string -> Option<Bytes>, writable: bool): (r: (Result<Paths.PathBuf, Error>, Files))
    ensures r.0.Ok? <==> file in files || (download(url).Some? && writable)
    ensures r.0.Ok? ==> r.0.value == file && file in r.1
    ensures r.0.Err? ==> r.1 == files && file !in files
    ensures r.0.Err? ==> r.0.error == (if download(url).None? then DownloadFailed(url) else WriteFailed(file))
    ensures file in files ==> r.1 == files
    ensures file !in files && r.0.Ok? ==> r.1[file] == download(url).value
    ensures forall p :: p != file ==> (p in r.1 <==> p in files)
    ensures forall p :: p != file && p in files ==> r.1[p] == files[p]
  {
    if file in files then (Ok(file), files)
    else
      match download(url)
      case None => (Err(DownloadFailed(url)), files)
      case Some(bytes) =>
        if writable then (Ok(file), files[file := bytes]) else (Err(WriteFailed(file)), files)
  }

  /** A hit touches neither the network nor the disk: the outcome does not
      depend on the download oracle or on the write flag. */
  lemma FetchHitIgnoresNetwork(files: Files, file: Paths.PathBuf, url: string, url': string,
                               d1: string -> Option<Bytes>, d2: string -> Option<Bytes>, w1: bool, w2: bool)
    requires file in files
    ensures Fetch(files, file, url, d1, w1) == Fetch(files, file, url', d2, w2)
  {
  }

  /** Fetching twice is fetching once: after a success the second call is a
      hit, whatever the network does then. */
  lemma FetchIdempotent(files: Files, file: Paths.PathBuf, url: string,
                        d1: string -> Option<Bytes>, d2: string -> Option<Bytes>, w1: bool, w2: bool)
    requires Fetch(files, file, url, d1, w1).0.Ok?
    ensures var (r, files') := Fetch(files, file, url, d1, w1);
      Fetch(files', file, url, d2, w2) == (r, files')
  {
  }
}
