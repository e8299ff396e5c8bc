# Whiley build tool core, modelled in Dafny

This project models the core of the Whiley build tool `wy`. It has two halves.

**Rust front end.** It reads a package's `wy.toml` and turns its `[build]` section into platform instances:

- `whiley`, `js` and `boogie` are registered by `init_registry`.
- `check` (QuickCheck) is modelled but not registered.

The front end also:

- resolves the Maven jars each platform runs on into a classpath below `WHILEYHOME/maven`, and package zips below a package cache;
- splits source text into lines for error reporting.

**Java side.** It holds:

- configuration schemas, whose descriptors validate values;
- `wy.toml` files read through such a schema (`ConfigFile`);
- the package schema;
- the suffix registry that maps file names to content types;
- plugin extension points;
- the build plan, the pipeline and the line highlighter of the `build` commands;
- `help` output.

Each source file is one Dafny module:

| module | models |
|---|---|
| `Config` | `src/config.rs` |
| `Lines` | `src/util.rs` |
| `Maven` | `src/maven.rs` |
| `Package` | `src/package.rs` |
| `Cache` | the cache-or-download step both resolvers share |
| `Lib` | `src/lib.rs` |
| `Build` | `src/build.rs` |
| `Platform` | `src/platform/mod.rs` |
| `Platforms` | `src/platforms/mod.rs` |
| `WhileyPlatform`, `BoogiePlatform`, `JavaScriptPlatform`, `QuickCheckPlatform` | the files under `src/platform/` |
| `Configuration` | `wybt/cfg/Configuration.java` |
| `ConfigFile` | `wy/cfg/ConfigFile.java` |
| `Schemas` | `wy/Schemas.java` |
| `SuffixRegistry` | `wy/util/SuffixRegistry.java` |
| `Plugin` | `wy/lang/Plugin.java` |
| `BuildCmd` | `wy/commands/BuildCmd.java` |
| `BuildCommand` | `wy/commands/Build.java` |
| `Help` | `wy/commands/Help.java` |

`Wrappers`, `Strings`, `Paths`, `Tries`, `Regex` and `BuildTypes` are shared support:

- `Option` and `Result`;
- split, join, replace, and decimal rendering;
- `PathBuf` as a list of pushed components;
- the `Trie` paths and filters the Java code uses;
- the one regular expression the package schema uses;
- artifacts and markers.

Modelling choices:

- **The outside world is passed in as parameters:**
  - the file system is a map from path to bytes;
  - a download is a function from URL to optional bytes, and `writable` says whether a write succeeds;
  - the environment and the home directory are optional strings;
  - globbing is a function from pattern to entries;
  - the output of a finished process is a string.
- **Tables are ordered.** A TOML table is an ordered list of `(name, value)` pairs, and lookup takes the first pair with the name. This makes `find_keys` deterministic; with unique names it is the map the source uses.
- **Java exceptions are errors.** An exception the Java code throws is an `Err` of a named error, including null dereferences and `IndexOutOfBoundsException`.

Places where the source files disagree with each other or with their own comments, and what the model does:

- **The arity of `apply`.**
  - The `Descriptor` trait at `src/platform/mod.rs:50` declares `fn apply(&self, config)`.
  - The Boogie, JavaScript and QuickCheck descriptors (`src/platform/boogie.rs:145`, `src/platform/javascript.rs:134`, `src/platform/quickcheck.rs:91`) take `(config, &Path)`; the Whiley descriptor (`src/platform/whiley.rs:47`) takes only the configuration.
  - `src/build.rs:42` calls the one-argument form.
  - The model passes the home directory through `Build.FromStr` to every descriptor.
- **The QuickCheck dependency names.**
  - `src/platform/quickcheck.rs` uses `whiley::DEPENDENCIES` and `whiley::TMP`, which `src/platform/whiley.rs` does not define.
  - They are modelled as the key `dependencies` and the path segment `dependencies`.
- **Dependencies are not followed.** The doc comment of `PackageResolver::resolve` says it follows transitive dependencies. It fetches only the listed ones, and `Package.Resolve` does the same.
- **Duplicate table sections.**
  - `ConfigFile.validate` assumes that every key `matchAll` reports has a key/value pair.
  - With two `[a]` sections, the pair in the second one is listed but not found, and the Java code dereferences null.
  - `ConfigFile.DuplicateTableFailsValidation` exhibits this as the `NullValue` error.
- **Three-argument `BOUND_INTEGER`.** `BOUND_INTEGER(key, description, default, low, high)` does not check its default, unlike the two-bound form (`Configuration.WithinDefaultUnchecked`).
- **Padding widths in `help`.**
  - `rightPad` and `leftPad` build a `String.format` pattern from the width. A width of 0 is an invalid pattern, and `rightPad` with a negative width repeats the `-` flag; both throw.
  - `leftPad` with a negative width left-justifies.
  - So `printUsage` throws when every command name is empty.
- **`printLineHighlight` out of bounds.** It throws `IndexOutOfBoundsException` when the span starts past the end of the line (`BuildCmd.PrintLineHighlight`).
- **`Pipeline.completed` accumulates.** Its counter is never reset, so a second `apply` continues counting from the first.

## Model

| member | source | states |
|---|---|---|
| Config.KeyToString | src/config.rs:95-103 | a key displays as its segments joined by `.` |
| Config.DotSuffixesJoin | src/config.rs:95-103 | the loop that prints `.segment` after the first segment produces the `.`-join |
| Config.Lookup | src/config.rs:256-277 | a table lookup finds nothing exactly when no entry has the name, and otherwise returns the value of an entry with that name |
| Config.LookupUnique | src/config.rs:256-277 | with unique names, looking up an entry's name returns that entry's value |
| Config.WalkAppend | src/config.rs:256-277 | following `a + b` is following `a`, then `b` from where it ends |
| Config.GetKey | src/config.rs:256-277 | an empty key finds nothing |
| Config.GetKeyStep | src/config.rs:256-277 | extending a key by one segment looks that segment up in the table the key found |
| Config.WalkNoneIff | src/config.rs:256-277 | a walk finds nothing exactly when some segment is missing from the table its prefix found |
| Config.GetKeyNoneIff | src/config.rs:256-277 | `get_key` returns `None` exactly when the key is empty or one of its segments is missing |
| Config.GetBool | src/config.rs:127-138 | `Invalid(key)` exactly when the key is absent; `Ok(b)` exactly when the key holds the boolean `b`; otherwise `Expected(bool, key)` |
| Config.GetInt | src/config.rs:141-152 | the same three outcomes for integers |
| Config.GetString | src/config.rs:155-166 | the same three outcomes for strings |
| Config.AsStrings | src/config.rs:169-200 | an array converts exactly when every element is a string, element by element |
| Config.GetStringArray | src/config.rs:169-200 | `Invalid` exactly when the key is absent; `Ok` exactly when it holds an array of strings, whose strings it returns in order; otherwise `Expected(string array, key)` |
| Config.Names | src/config.rs:237-252 | the names of a table's entries, in order |
| Config.FindKeys | src/config.rs:237-252 | an error exactly when the key is absent or not a table; otherwise the names of the table's entries |
| Config.SubkeyStrings | src/config.rs:203-221 | success pairs each subkey with the string stored under it, in order; a failure is the first subkey that does not hold a string |
| Config.GetStrings | src/config.rs:203-221 | the `find_keys` error, or the subkey strings of the keys found |
| Config.GetStringsOfTable | src/config.rs:203-221 | for a table with unique names, succeeds exactly when every entry is a string, giving the `(name, string)` pairs in table order |
| Config.GetPath | src/config.rs:224-233 | fails exactly when `get_string` does, with its error; otherwise a path of `/`-free components that displays as the stored string |
| Config.AccessorsAgreeWithLeaves | src/config.rs:127-200 | discarding an accessor's error leaves exactly the value the key holds when it has the accessor's type |
| Config.StringAgrees | src/config.rs:155-166 | `get_string(..).ok()` is the string leaf |
| Config.BoolAgrees | src/config.rs:127-138 | `get_bool(..).ok()` is the boolean leaf |
| Config.IntAgrees | src/config.rs:141-152 | `get_int(..).ok()` is the integer leaf |
| Config.StringArrayAgrees | src/config.rs:169-200 | `get_string_array(..).ok()` is the string-array leaf |
| Config.StringOr | src/config.rs:155-166 | `get_string(..).unwrap_or(d)` is the string leaf or `d` |
| Config.BoolOr | src/config.rs:127-138 | `get_bool(..).unwrap_or(d)` is the boolean leaf or `d` |
| Config.IntOr | src/config.rs:141-152 | `get_int(..).unwrap_or(d)` is the integer leaf or `d` |
| Lines.AsStr | src/util.rs:24-27 | the line's text is the slice from `start` to `end` of the contents |
| Lines.Scan | src/util.rs:79-92 | the inner loop always yields a line and only moves forward |
| Lines.Next | src/util.rs:59-95 | `None` exactly at the end of the text, leaving the iterator unchanged; otherwise it consumes at least one character |
| Lines.ScanSpec | src/util.rs:79-92 | the scanned line holds no `\n`, and ends at the end of the text or before its `\n` or `\r\n`; the iterator resumes just past the terminator |
| Lines.NextSpec | src/util.rs:59-95 | the line `next` returns starts where the iterator stood, is well formed, and the iterator resumes past its terminator |
| Lines.LinesFromPartition | src/util.rs:59-95 | the lines from any offset onwards partition the rest of the text |
| Lines.LineOffsetsPartition | src/util.rs:101-103 | `line_offsets` partitions the whole text into lines and terminators |
| Lines.LineOffsetsEmpty | src/util.rs:101-103 | an empty text has no lines |
| Lines.PartitionFacts | src/util.rs:59-95 | in a partition, every line but the last is terminated, and the next one starts just past that terminator |
| Lines.LineBounds | src/util.rs:59-95 | every line lies inside the text, starts before its end, holds no `\n`, and ends at the end or at a terminator |
| Lines.CrBeforeLfExcluded | src/util.rs:84-87 | no line contains a `\r` that is followed by `\n` |
| Lines.LineStarts | src/util.rs:59-103 | the first line starts at 0; every later line starts just after a `\n`, at the end of the previous line's terminator; the last line reaches the end; there are no lines exactly when the text is empty |
| Lines.PartitionStarts | src/util.rs:59-103 | the same facts for any partition of the text from offset 0 |
| Lines.TerminatorEndsInNewline | src/util.rs:79-92 | a terminated line's terminator ends in `\n` |
| Lines.NewlineGivesEmptyLine | src/util.rs:65-70 | a line that starts at a `\n` is empty |
| Lines.InsideLine | src/util.rs:79-92 | an offset inside a line is not part of a line terminator |
| Lines.BetweenLines | src/util.rs:79-92 | an offset between a line's end and the next line's start is part of its terminator |
| Lines.BeforePartition | src/util.rs:59-95 | no line of a partition from `a` contains an offset before `a` |
| Lines.CoveredFrom | src/util.rs:59-95 | an offset is inside some line of a partition exactly when it is not part of a terminator |
| Lines.EnclosingLineExists | src/util.rs:7-33 | an offset of the text is contained in some line exactly when it is not part of a line terminator |
| Lines.EmptyLineContainsNothing | src/util.rs:31-33 | an empty line contains no offset |
| Maven.Parse | src/maven.rs:18-26 | a description parses exactly when it holds two colons, and the three parts are colon-free |
| Maven.ParseDisplay | src/maven.rs:51-55 | parsing the display form of a colon-free artifact gives it back |
| Maven.DisplayParse | src/maven.rs:18-26 | displaying a parsed description gives the description back |
| Maven.UrlLayout | src/maven.rs:37-48 | against a base ending in `/`, the URL is the base, the group with dots as slashes, the artifact, the version and the jar name; the jar name follows the last `/` |
| Maven.Get | src/maven.rs:77-92 | returns the jar path below the cache directory; succeeds exactly when the jar is cached or the download and write succeed; a failure changes no file; no other path changes |
| Maven.SameJarAcrossGroups | src/maven.rs:28-35 | artifacts that differ only in group share a cached jar |
| Maven.GetIdempotent | src/maven.rs:77-92 | a second `get` after a successful one returns the same path and changes nothing, whatever the network does |
| Cache.UrlJoin | src/maven.rs:37-48 | joining keeps the base up to and including its last `/` and appends the relative path |
| Cache.UrlJoinDirectory | src/maven.rs:37-48 | against a base ending in `/`, joining appends |
| Cache.Fetch | src/maven.rs:77-92 | succeeds exactly when the file is cached or the download and write succeed, with the download's error (`DownloadFailed` or `WriteFailed`) otherwise; a cached file is returned untouched; a miss stores the downloaded bytes; no other file changes |
| Cache.FetchHitIgnoresNetwork | src/maven.rs:83-89 | on a cache hit neither the URL nor the network nor writability matters |
| Cache.FetchIdempotent | src/maven.rs:77-92 | fetching again after a success is a no-op with the same result |
| Package.ZipNameOfDisplay | src/package.rs:23-37 | the zip name is the display form with `v` before the version and `.zip` after it |
| Package.UrlLayout | src/package.rs:27-30 | against a base ending in `/`, the URL is the base, the name, the version and the zip name |
| Package.Get | src/package.rs:74-89 | returns the zip path below the cache directory; succeeds exactly when the zip is cached or downloadable and writable; a failure changes nothing; no other path changes |
| Package.Resolve | src/package.rs:66-72 | on success every listed zip is cached; existing files are kept; every new file is one of the listed zips |
| Package.ResolvePrefixStep | src/package.rs:66-72 | after a successful first `get`, resolving a prefix is resolving the rest of that prefix from the updated cache |
| Package.ResolveStopsAtFirstFailure | src/package.rs:66-72 | a failed resolve failed at a dependency whose predecessors all succeeded, with that dependency's error |
| Package.ResolveCachedIsNoop | src/package.rs:66-72 | resolving dependencies that are all cached succeeds and changes nothing |
| Package.GetIdempotent | src/package.rs:74-89 | a second `get` after a success returns the same path and changes nothing |
| Lib.WhileyHome | src/lib.rs:47-75 | `WHILEYHOME` is used as given when set; otherwise the home directory followed by `.whiley` |
| Lib.WhileyHomeFromEnv | src/lib.rs:49-58 | when `WHILEYHOME` is set the user's home is irrelevant, and different values give different homes |
| Lib.InitRegistry | src/lib.rs:101-112 | the registry holds exactly `whiley`, `js` and `boogie`, each under its descriptor's own name |
| Lib.InitRegistryLookups | src/lib.rs:101-112 | lookups succeed exactly for the three names and find their descriptors; `check` is not registered |
| Lib.ArtifactsOf | src/lib.rs:91-94 | each description parses to the artifact at its position |
| Lib.Jars | src/lib.rs:91-94 | on success one jar per artifact, in order, each cached below the resolver's directory; existing files are kept |
| Lib.JarsAddOnlyJars | src/lib.rs:91-94 | every file the loop adds is the jar of one of the artifacts |
| Lib.JarPath | src/lib.rs:80-97 | a jar lives at `home/maven/<artifact>-<version>.jar` |
| Lib.InitClasspath | src/lib.rs:80-97 | on success the classpath lists each dependency's jar path in order, all cached; existing files are kept; the only new files are those jars |
| Lib.ArtifactJar | src/lib.rs:80-97 | the resolver's jar for the i-th artifact is the i-th dependency's jar path |
| Lib.FetchedIsJarPath | src/lib.rs:80-97 | a jar the resolver fetched is one dependency's jar path |
| Lib.JarsPrefixStep | src/lib.rs:91-94 | after a successful first `get`, the loop over a prefix continues from the updated cache |
| Lib.JarsStopAtFirstFailure | src/lib.rs:91-94 | a failing classpath failed at an artifact whose predecessors all resolved, with its error |
| Lib.JarsCached | src/lib.rs:91-94 | when every jar is cached the loop succeeds without changing any file |
| Lib.PlatformClasspathParses | src/lib.rs:92 | every platform's dependency descriptions parse, so the `unwrap` never panics |
| Build.Instantiate | src/build.rs:34-43 | success instantiates every name with its registered descriptor, in order; a failure is the first unknown name or failing descriptor |
| Build.UnknownPlatformStops | src/build.rs:35-40 | a name missing from the registry, after names that all apply, gives `UnknownPlatform(name)` |
| Build.FromStr | src/build.rs:26-46 | the first failing read among name, authors, version and platforms gives its error; success holds the values read and the instances of the platforms listed |
| Platform.Name | src/platform/mod.rs:25-34 | each instance's name: `whiley`, `boogie`, `js`, `check` |
| Platform.Dependencies | src/platform/mod.rs:25-34 | every platform runs on at least the two Whiley jars, listed first |
| Platform.Arguments | src/platform/mod.rs:25-34 | the first argument is the platform's main class |
| Platform.Manifest | src/platform/quickcheck.rs:70-73 | the manifest is empty exactly for QuickCheck |
| Platform.DependencyArtifacts | src/platform/mod.rs:30 | each dependency is the display form of a Maven artifact |
| Platform.DependenciesAreArtifacts | src/platform/mod.rs:30 | every dependency description parses |
| Platform.PlainArtifacts | src/platform/whiley.rs:18-21 | the platforms' Maven artifacts have colon-free coordinates |
| Platform.Apply | src/platform/mod.rs:47-51 | the Whiley descriptor always applies; an applied descriptor yields an instance of its own platform |
| Platform.ApplyNeedsName | src/platform/boogie.rs:145-162 | every descriptor except Whiley fails with the `package.name` error when the name is missing |
| Platform.ApplyName | src/platform/mod.rs:47-51 | an instance carries the name of the descriptor that built it |
| Platform.New | src/platform/mod.rs:65-67 | the new registry finds nothing |
| Platform.Register | src/platform/mod.rs:72-74 | after `register`, `get` finds the descriptor under its name and every other name is unchanged |
| Platform.Get | src/platform/mod.rs:77-82 | finds exactly the registered names, with their descriptors |
| Platform.RegisterLastWins | src/platform/mod.rs:72-74 | registering a name twice keeps only the second descriptor |
| Platforms.New | src/platforms/mod.rs:14-16 | the new registry finds nothing |
| Platforms.Register | src/platforms/mod.rs:18-20 | a platform is found under its own name and nothing else changes |
| Platforms.Get | src/platforms/mod.rs:22-27 | finds exactly the registered names |
| Platforms.RegisterKeyed | src/platforms/mod.rs:14-20 | `new` and `register` keep every platform stored under its own name |
| Platforms.RegisterWhiley | src/platforms/mod.rs:18-27 | the registered Whiley platform is found under `whiley` |
| WhileyPlatform.MavenDepsText | src/platform/whiley.rs:18-21 | the dependencies are `jmodelgen:0.4.3` and `wyc:0.10.1` of `org.whiley` |
| WhileyPlatform.Name | src/platform/whiley.rs:29-31 | the name is `whiley` |
| WhileyPlatform.Dependencies | src/platform/whiley.rs:32-34 | the two Whiley jars |
| WhileyPlatform.Arguments | src/platform/whiley.rs:35-37 | only the main class `wyc.Main` |
| WhileyPlatform.Apply | src/platform/whiley.rs:47-56 | always succeeds, with source and target from `build.whiley`, defaulting to `src` and `bin` |
| BoogiePlatform.Name | src/platform/boogie.rs:69-71 | the name is `boogie` |
| BoogiePlatform.Dependencies | src/platform/boogie.rs:72-74 | the Whiley jars followed by `wyboogie` |
| BoogiePlatform.WyBoogieText | src/platform/boogie.rs:31-35 | the `wyboogie` artifact is `org.whiley:wyboogie:0.4.1` |
| BoogiePlatform.Arguments | src/platform/boogie.rs:75-113 | the main class and the four fixed settings, then the optional switches, then the package name |
| BoogiePlatform.OptionChars | src/platform/boogie.rs:102-108 | the prover-log and prover-name prefixes differ at a fixed position, and the value follows the prefix |
| BoogiePlatform.SwitchMembers | src/platform/boogie.rs:85-108 | a switch is present exactly when its setting asks for it |
| BoogiePlatform.FlagIsNoOption | src/platform/boogie.rs:85-108 | the four flags can never be mistaken for a prover option |
| BoogiePlatform.FlagSwitches | src/platform/boogie.rs:85-100 | each flag is present exactly when its setting is on (`--noverify` when verification is off) |
| BoogiePlatform.ProverLogSwitch | src/platform/boogie.rs:102-104 | the prover-log switch with value `v` is present exactly when the log is `v` |
| BoogiePlatform.ProverNameSwitch | src/platform/boogie.rs:106-108 | the prover-name switch with value `v` is present exactly when the prover is `v` |
| BoogiePlatform.SwitchesIff | src/platform/boogie.rs:85-108 | the settings can be read back from the switches |
| BoogiePlatform.Manifest | src/platform/boogie.rs:114-125 | the `.bpl` file last, preceded by the target folder exactly when it is not the default `bin` |
| BoogiePlatform.TargetPathShape | src/platform/boogie.rs:59-65 | the target path is `target/name.bpl` |
| BoogiePlatform.Apply | src/platform/boogie.rs:145-162 | fails exactly when `package.name` is not a string, with its error; otherwise every setting is its key's value, or the default when the key is absent or of another type |
| BoogiePlatform.NoBuildKeys | src/platform/boogie.rs:16-23 | a configuration holding only a package name has no `build` key |
| BoogiePlatform.ApplyDefaults | src/platform/boogie.rs:10-14 | with only a package name, every setting takes its default: `src`, `bin`, `bin`, verify on, timeout 10, array theory on, no prover options |
| JavaScriptPlatform.Name | src/platform/javascript.rs:70-72 | the name is `js` |
| JavaScriptPlatform.Dependencies | src/platform/javascript.rs:73-75 | the Whiley jars followed by `wyjs` |
| JavaScriptPlatform.WyJsText | src/platform/javascript.rs:21-25 | the `wyjs` artifact is `org.whiley:wyjs:0.10.3` |
| JavaScriptPlatform.TargetPath | src/platform/javascript.rs:60-66 | the target path is `target/name.js` |
| JavaScriptPlatform.Arguments | src/platform/javascript.rs:76-100 | `wyjs.Main -o name --wyildir=… --jsdir=… -s standard name` |
| JavaScriptPlatform.ArgumentsInjective | src/platform/javascript.rs:76-100 | equal argument lists come from equal settings |
| JavaScriptPlatform.FoundPaths | src/platform/javascript.rs:42-57 | the paths kept are exactly the glob entries found, with errors skipped |
| JavaScriptPlatform.NativesFrom | src/platform/javascript.rs:42-57 | a path is listed exactly when one of the patterns found it |
| JavaScriptPlatform.MatchNatives | src/platform/javascript.rs:42-57 | the native files are exactly those some include pattern found |
| JavaScriptPlatform.Manifest | src/platform/javascript.rs:101-116 | the target folder when it is not the default, then the `.js` file, then one source file per native file |
| JavaScriptPlatform.ManifestFolderFirst | src/platform/javascript.rs:101-116 | a folder in the manifest is first, and is there only for a non-default target |
| JavaScriptPlatform.SourceFiles | src/platform/javascript.rs:111-113 | one source file per path, in order |
| JavaScriptPlatform.Process | src/platform/javascript.rs:117-124 | no markers on empty output; otherwise a `wyjs` plugin error carrying the output |
| JavaScriptPlatform.Apply | src/platform/javascript.rs:134-145 | fails exactly when `package.name` is missing, with its error; otherwise each setting is its key's value or its default |
| QuickCheckPlatform.Name | src/platform/quickcheck.rs:39-41 | the name is `check` |
| QuickCheckPlatform.Dependencies | src/platform/quickcheck.rs:42-44 | the two Whiley jars |
| QuickCheckPlatform.WhileyPathValue | src/platform/quickcheck.rs:55-64 | the path loop produces the entries joined by the separator |
| QuickCheckPlatform.JoinTail | src/platform/quickcheck.rs:55-64 | the first entry followed by `separator + entry` for the rest is the join |
| QuickCheckPlatform.Arguments | src/platform/quickcheck.rs:45-69 | `wyc.Check --wyildir=…`, then `--whileypath=` with the joined path when it is not empty, then the name |
| QuickCheckPlatform.WhileyPathRecoverable | src/platform/quickcheck.rs:55-64 | when no entry holds the separator, splitting the argument gives the path back |
| QuickCheckPlatform.Manifest | src/platform/quickcheck.rs:70-73 | the manifest is empty |
| QuickCheckPlatform.RepositoryEntryIsPackageZip | src/platform/quickcheck.rs:104-109 | each path entry names the zip the package resolver caches |
| QuickCheckPlatform.Entries | src/platform/quickcheck.rs:100-111 | one repository entry per dependency, in order |
| QuickCheckPlatform.Apply | src/platform/quickcheck.rs:91-116 | succeeds exactly when the name and every dependency's version are strings; the entries follow the dependency table's order |
| QuickCheckPlatform.NoDependenciesNoWhileyPath | src/platform/quickcheck.rs:100-111 | without a dependency table the path is empty and `--whileypath` is omitted |
| QuickCheckPlatform.BadDependencyFails | src/platform/quickcheck.rs:103 | when the name is present, a failure is the first dependency whose version is not a string |
| Configuration.IntValue | src/main/java/wybt/cfg/Configuration.java:560 | `intValue` keeps the value modulo 2^32, read as a signed 32-bit number |
| Configuration.IntValueAgreesIn32Bits | src/main/java/wybt/cfg/Configuration.java:555-623 | for values that fit in 32 bits, the truncating checks and the by-value checks agree |
| Configuration.AtLeastRejectsLargeValue | src/main/java/wybt/cfg/Configuration.java:555-563 | 2^31 fails the as-written check `>= 0` but is at least 0 |
| Configuration.WithinAcceptsLargeValue | src/main/java/wybt/cfg/Configuration.java:614-623 | 2^32+5 passes the as-written check for 0..10 but is not within it |
| Configuration.NoDefault | src/main/java/wybt/cfg/Configuration.java:352-359 | a descriptor without a default keeps its filter, type, flag and check |
| Configuration.WithDefault | src/main/java/wybt/cfg/Configuration.java:360-367 | a descriptor with a default is not required and has a default exactly when one is given |
| Configuration.CheckDefaultValue | src/main/java/wybt/cfg/Configuration.java:769-773 | a default passes exactly when the descriptor accepts it; otherwise `InvalidDefault`; integer bounds are compared by value |
| Configuration.UnboundString | src/main/java/wybt/cfg/Configuration.java:422-426 | a string key that accepts every value |
| Configuration.UnboundStringWithDefault | src/main/java/wybt/cfg/Configuration.java:440-444 | a string key with the given default, accepting every value |
| Configuration.RegexString | src/main/java/wybt/cfg/Configuration.java:462-470 | a string is accepted exactly when it fully matches the pattern |
| Configuration.RegexStringWithDefault | src/main/java/wybt/cfg/Configuration.java:487-500 | fails with `InvalidDefault` exactly when the default does not match; otherwise accepts strings that match |
| Configuration.UnboundInteger | src/main/java/wybt/cfg/Configuration.java:515-519 | an integer key that accepts every value |
| Configuration.UnboundIntegerWithDefault | src/main/java/wybt/cfg/Configuration.java:533-538 | an integer key with the given default |
| Configuration.BoundInteger | src/main/java/wybt/cfg/Configuration.java:555-563 | accepts an integer exactly when it is at least the bound; the as-written check accepts exactly when its low 32 bits, read as signed, are at least the bound |
| Configuration.BoundIntegerWithDefault | src/main/java/wybt/cfg/Configuration.java:580-594 | fails exactly when the default is below the bound; otherwise accepts integers at least the bound, and the as-written check accepts exactly when the low 32 bits are |
| Configuration.BoundIntegerWithin | src/main/java/wybt/cfg/Configuration.java:614-623 | accepts exactly the integers between the bounds, and keeps the default unchecked; the as-written check accepts exactly when the low 32 bits, read as signed, are between them |
| Configuration.BoundIntegerWithDefaultAsWritten | src/main/java/wybt/cfg/Configuration.java:580-594 | the default check as written: fails with `InvalidDefault` exactly when the default's low 32 bits, read as signed, are below the bound |
| Configuration.DefaultCheckDiffersOnLargeValue | src/main/java/wybt/cfg/Configuration.java:580-594 | a default of 2^31 with a bound of 0 is refused as written and accepted by value |
| Configuration.DefaultCheckAgreesIn32Bits | src/main/java/wybt/cfg/Configuration.java:580-594 | for defaults that fit in 32 bits, the two default checks give the same result |
| Configuration.WithinDefaultUnchecked | src/main/java/wybt/cfg/Configuration.java:614-623 | the two-bound form keeps a default its own check rejects, and the one-bound form refuses one |
| Configuration.UnboundBoolean | src/main/java/wybt/cfg/Configuration.java:661-665 | a boolean key that accepts every value |
| Configuration.UnboundBooleanWithDefault | src/main/java/wybt/cfg/Configuration.java:680-684 | a boolean key with the given default |
| Configuration.UnboundStringArray | src/main/java/wybt/cfg/Configuration.java:696-708 | accepts an array exactly when all its elements are strings |
| Configuration.UnboundStringArrayWithDefault | src/main/java/wybt/cfg/Configuration.java:720-738 | fails exactly when the default holds a non-string; otherwise accepts string arrays |
| Configuration.UnboundArray | src/main/java/wybt/cfg/Configuration.java:750-767 | fails exactly when a default element has the wrong type; otherwise accepts arrays whose elements all have the type |
| Configuration.FirstMatching | src/main/java/wybt/cfg/Configuration.java:244-252 | the first descriptor whose filter matches the key |
| Configuration.FirstKnowing | src/main/java/wybt/cfg/Configuration.java:207-217 | the first schema that knows the key |
| Configuration.GetDescriptor | src/main/java/wybt/cfg/Configuration.java:191-271 | an unknown key is `InvalidKey` or `InvalidKeyAccess`, never another error |
| Configuration.GetDescriptorIffIsKey | src/main/java/wybt/cfg/Configuration.java:191-271 | a descriptor is found exactly when `isKey` holds; it matches the key and is one of the schema's descriptors |
| Configuration.DescriptorsOfContains | src/main/java/wybt/cfg/Configuration.java:220-226 | the combined descriptors include every part's descriptors |
| Configuration.DescriptorsOfAppend | src/main/java/wybt/cfg/Configuration.java:220-226 | the combined descriptors are the parts' descriptors concatenated in order |
| Configuration.CombinedFirstWins | src/main/java/wybt/cfg/Configuration.java:207-217 | a combined schema answers with the first part that knows the key |
| Configuration.EmptyGet | src/main/java/wybt/cfg/Configuration.java:131-142 | an unknown key fails with the schema's error; a key without a default is `InvalidKeyAccess`; a default of the wrong type is `IncompatibleKeyAccess`; otherwise the default |
| Configuration.EmptyHasKey | src/main/java/wybt/cfg/Configuration.java:157-160 | known keys only; true exactly when the key has a default, and so exactly when some `get` succeeds |
| Configuration.EmptyGetDefault | src/main/java/wybt/cfg/Configuration.java:131-142 | a default of the requested type is what `get` returns |
| Configuration.KindOf | src/main/java/wybt/cfg/Configuration.java:131-142 | every value has exactly one type |
| Configuration.EmptyWrite | src/main/java/wybt/cfg/Configuration.java:145-147 | writing always fails |
| Configuration.EmptyMatchAll | src/main/java/wybt/cfg/Configuration.java:150-154 | matching finds nothing |
| Configuration.EmptySchemaKnowsNothing | src/main/java/wybt/cfg/Configuration.java:167-183 | the empty schema knows no key and has no descriptors, so `get` and `hasKey` fail |
| ConfigFile.TableKey | src/main/java/wy/cfg/ConfigFile.java:151-164 | a table's key path is the table name's path followed by the key |
| ConfigFile.GetKeyValuePair | src/main/java/wy/cfg/ConfigFile.java:166-184 | a one-segment key is the first top-level pair with it; a longer key is looked for only in the first table named by its prefix |
| ConfigFile.Pairs | src/main/java/wy/cfg/ConfigFile.java:151-164 | key/value pairs as declarations, in order |
| ConfigFile.FirstTableDecides | src/main/java/wy/cfg/ConfigFile.java:166-184 | declarations after the first table with the name do not change the lookup |
| ConfigFile.KeyPaths | src/main/java/wy/cfg/ConfigFile.java:290-306 | every key path is non-empty |
| ConfigFile.TablePaths | src/main/java/wy/cfg/ConfigFile.java:128-143 | one path per pair of a table, in order |
| ConfigFile.Select | src/main/java/wy/cfg/ConfigFile.java:290-306 | exactly the paths the filter matches, in order |
| ConfigFile.SelectAppend | src/main/java/wy/cfg/ConfigFile.java:290-306 | selection distributes over concatenation |
| ConfigFile.MatchPairsSelects | src/main/java/wy/cfg/ConfigFile.java:128-143 | matching inside a table selects from its pair paths |
| ConfigFile.MatchDeclsSelects | src/main/java/wy/cfg/ConfigFile.java:290-306 | the recursive match is selection from the file's key paths |
| ConfigFile.MatchAll | src/main/java/wy/cfg/ConfigFile.java:257-261 | `matchAll` returns the file's key paths the filter matches |
| ConfigFile.HasKey | src/main/java/wy/cfg/ConfigFile.java:209-221 | true when the file holds the key; otherwise exactly when the schema gives it a default |
| ConfigFile.Get | src/main/java/wy/cfg/ConfigFile.java:224-249 | an unknown key is the schema's error; a present value must have the requested type; otherwise the default, or `InvalidKeyAccess` |
| ConfigFile.Write | src/main/java/wy/cfg/ConfigFile.java:252-254 | writing always fails |
| ConfigFile.CheckKeys | src/main/java/wy/cfg/ConfigFile.java:327-333 | succeeds exactly when every matched key has a value of the right type that the descriptor accepts; errors are `NullValue`, `InvalidKeyValueType` or `InvalidKeyValue` |
| ConfigFile.CheckDescriptors | src/main/java/wy/cfg/ConfigFile.java:314-337 | succeeds exactly when every descriptor holds, collecting exactly the described keys |
| ConfigFile.CheckMatched | src/main/java/wy/cfg/ConfigFile.java:339-350 | succeeds exactly when every key was matched; otherwise `UnknownKey` names an unmatched key |
| ConfigFile.Validate | src/main/java/wy/cfg/ConfigFile.java:308-352 | succeeds exactly when every descriptor holds and, in strict mode, every key is described |
| ConfigFile.ToConfiguration | src/main/java/wy/cfg/ConfigFile.java:124-126 | the wrapper is built exactly when the file conforms to the schema |
| ConfigFile.MissingRequiredRejects | src/main/java/wy/cfg/ConfigFile.java:321-323 | a required descriptor with no matching key rejects the file |
| ConfigFile.UndescribedKeyOnlyMattersWhenStrict | src/main/java/wy/cfg/ConfigFile.java:339-350 | an undescribed key rejects the file in strict mode and does not matter otherwise |
| ConfigFile.DuplicateTablePaths | src/main/java/wy/cfg/ConfigFile.java:128-143 | a second `[a]` section contributes its paths |
| ConfigFile.DuplicateTableFailsValidation | src/main/java/wy/cfg/ConfigFile.java:327-329 | a key in a second `[a]` section is listed but not found, and validation dereferences null |
| Schemas.PackageDescriptors | src/main/java/wy/Schemas.java:63-76 | the package schema has seven descriptors |
| Schemas.LiteralFilters | src/main/java/wy/Schemas.java:63-73 | the first six filters have no wildcards |
| Schemas.DistinctFilters | src/main/java/wy/Schemas.java:63-76 | the filters are pairwise distinct |
| Schemas.PackageDescriptorAt | src/main/java/wy/Schemas.java:63-73 | each literal key finds its own descriptor |
| Schemas.PackageNameDefault | src/main/java/wy/Schemas.java:65 | `package/name` defaults to `main` |
| Schemas.PlatformsDefault | src/main/java/wy/Schemas.java:69-70 | `build/platforms` defaults to `["whiley"]` |
| Schemas.IncludesDefault | src/main/java/wy/Schemas.java:50-57 | `build/includes` defaults to `wy.toml`, `**/*.wyil`, `**/*.whiley` |
| Schemas.PackageOptionalKeys | src/main/java/wy/Schemas.java:66-73 | authors, version and main are neither required nor defaulted |
| Schemas.AuthorsUnset | src/main/java/wy/Schemas.java:66 | an empty configuration has no authors |
| Schemas.VersionUnset | src/main/java/wy/Schemas.java:67 | an empty configuration has no version |
| Schemas.MainUnset | src/main/java/wy/Schemas.java:73 | an empty configuration has no main |
| Schemas.OtherSchemas | src/main/java/wy/Schemas.java:29-37 | the global keys are optional; the system schema requires `plugins/*` |
| Schemas.DependencyVersions | src/main/java/wy/Schemas.java:75-76 | a dependency version needs three digit groups, and the unescaped `.` accepts any separator |
| Schemas.VersionsAccepted | src/main/java/wy/Schemas.java:76 | `1.2.3` and `1x2y3` match |
| Schemas.VersionsRejected | src/main/java/wy/Schemas.java:76 | `1.2` and `1.2.x` do not match |
| Schemas.DependencyKeys | src/main/java/wy/Schemas.java:75 | every `dependencies/<name>` key is a dependency |
| SuffixRegistry.New | src/main/java/wy/util/SuffixRegistry.java:35-37 | the new registry is empty and keyed by suffix |
| SuffixRegistry.Add | src/main/java/wy/util/SuffixRegistry.java:35-37 | the type is stored under its suffix and every other suffix is unchanged |
| SuffixRegistry.AddAll | src/main/java/wy/util/SuffixRegistry.java:43-47 | adding keeps the registry keyed by suffix |
| SuffixRegistry.AddAllLastWins | src/main/java/wy/util/SuffixRegistry.java:43-47 | a listed suffix maps to its last type in the list; an unlisted suffix is unchanged |
| SuffixRegistry.AddAllListed | src/main/java/wy/util/SuffixRegistry.java:43-47 | the last listed type with a suffix is the one kept |
| SuffixRegistry.AddAllUnlisted | src/main/java/wy/util/SuffixRegistry.java:43-47 | suffixes not listed keep their entries |
| SuffixRegistry.Encode | src/main/java/wy/util/SuffixRegistry.java:50-57 | registered types only; the key with `/` replaced by the separator, then `.` and the suffix |
| SuffixRegistry.DecodeKey | src/main/java/wy/util/SuffixRegistry.java:60-66 | the name up to its last `.`, with the separator turned back into `/` |
| SuffixRegistry.DecodeType | src/main/java/wy/util/SuffixRegistry.java:69-77 | no `.` gives nothing; a type found is registered, and its suffix is the name's text after the last `.` |
| SuffixRegistry.DecodeEncodedType | src/main/java/wy/util/SuffixRegistry.java:50-77 | decoding an encoded name gives its type back |
| SuffixRegistry.DecodeEncodedKey | src/main/java/wy/util/SuffixRegistry.java:50-66 | decoding an encoded name gives its key back when no segment holds `/` or the separator |
| Plugin.New | src/main/java/wy/lang/Plugin.java:138 | a new environment has no extension points |
| Plugin.GetAll | src/main/java/wy/lang/Plugin.java:146-148 | the extensions registered for a kind, when it has an extension point |
| Plugin.CreateWith | src/main/java/wy/lang/Plugin.java:185-191 | fails exactly when the point exists; otherwise it is added and nothing else changes |
| Plugin.Create | src/main/java/wy/lang/Plugin.java:180-182 | creates an empty extension point |
| Plugin.Register | src/main/java/wy/lang/Plugin.java:169-177 | fails exactly when the point is missing; otherwise appends the extension |
| Plugin.RegistrationOrder | src/main/java/wy/lang/Plugin.java:206-217 | extensions are kept in registration order, and other kinds are untouched |
| Plugin.CreateThenRegister | src/main/java/wy/lang/Plugin.java:180-182 | after `create`, `getAll` returns exactly the extensions registered since |
| BuildCmd.TasksOf | src/main/java/wy/commands/BuildCmd.java:164-183 | fails exactly when some configured platform is not a string; otherwise one task per time the platform is named |
| BuildCmd.GetBuildPlan | src/main/java/wy/commands/BuildCmd.java:164-183 | fails exactly when some platform is registered and some configured entry is not a string; otherwise its tasks are exactly the registered platforms that are configured |
| BuildCmd.PlanMultiplicity | src/main/java/wy/commands/BuildCmd.java:171-180 | the number of a platform's tasks is the number of times it is registered times the number of times its name is configured |
| BuildCmd.PlanInRegistrationOrder | src/main/java/wy/commands/BuildCmd.java:171-180 | of two tasks, the earlier one's platform is registered no later than the later one's |
| BuildCmd.PlanSplit | src/main/java/wy/commands/BuildCmd.java:171-180 | the plan is the first registered platform's tasks followed by the plan for the rest |
| BuildCmd.HereTasks | src/main/java/wy/commands/BuildCmd.java:164-183 | a platform's tasks are present exactly when it is named |
| BuildCmd.CountPositive | src/main/java/wy/commands/BuildCmd.java:164-183 | a platform is counted exactly when it is named |
| BuildCmd.PlanFollowsRegistration | src/main/java/wy/commands/BuildCmd.java:164-183 | tasks follow registration order, not configuration order |
| BuildCmd.UnknownNameIgnored | src/main/java/wy/commands/BuildCmd.java:164-183 | configuring an unregistered name changes nothing |
| BuildCmd.TasksOfUnknown | src/main/java/wy/commands/BuildCmd.java:164-183 | another platform's name does not add a task |
| BuildCmd.SucceedsStep | src/main/java/wy/commands/BuildCmd.java:194-206 | success up to `k` and at `k` is success up to `k + 1` |
| BuildCmd.Apply | src/main/java/wy/commands/BuildCmd.java:194-206 | tasks run in order until the first failure; the counter grows by the number of successful tasks; the state is the one after the last task that ran |
| BuildCmd.CompletedIffAllSucceeded | src/main/java/wy/commands/BuildCmd.java:213-215 | after one run of a new pipeline, `completed()` holds exactly when every task succeeded |
| BuildCmd.PrintLineHighlight | src/main/java/wy/commands/BuildCmd.java:283-309 | the line and an underline that mirrors its tabs and puts `^` under the span, clipped to the line; out of bounds exactly when the span starts past the end, and then only the text line has been printed |
| BuildCommand.InitialisePipeline | src/main/java/wy/commands/Build.java:134-142 | one task per platform, in order |
| BuildCommand.Execute | src/main/java/wy/commands/Build.java:108-125 | true exactly when every task succeeds; otherwise the last task run is the first failure |
| Help.WidthSchema | src/main/java/wy/commands/Help.java:31-32 | the schema knows only `width`, an integer of at least 0; as written, one whose low 32 bits, read as signed, are at least 0 |
| Help.RightPad | src/main/java/wy/commands/Help.java:153-155 | a positive width left-justifies in a field of that width; any other width throws |
| Help.LeftPad | src/main/java/wy/commands/Help.java:168-170 | a positive width right-justifies; zero throws |
| Help.LeftPadNegative | src/main/java/wy/commands/Help.java:168-170 | a negative width left-justifies like `rightPad` |
| Help.PadsFit | src/main/java/wy/commands/Help.java:153-170 | a string that fits is padded to exactly the width, with spaces on the right or the left |
| Help.CommandNameWidth | src/main/java/wy/commands/Help.java:178-184 | the length of the longest command name, or 0 |
| Help.CommandLines | src/main/java/wy/commands/Help.java:133-137 | one line per command, failing exactly when there is a command and the width is not positive |
| Help.PrintUsage | src/main/java/wy/commands/Help.java:128-140 | fails exactly when there are commands and every name is empty; otherwise header, one line per command, footer |
| Help.UsageAligned | src/main/java/wy/commands/Help.java:128-140 | every description starts in the same column, two spaces after the longest name plus three |
| Help.CommandLineLayout | src/main/java/wy/commands/Help.java:134-136 | a command line is two spaces, the padded name, three spaces and the description |
| Help.OptionArgumentShown | src/main/java/wy/commands/Help.java:99-102 | `=argument` is shown exactly when the argument is present and non-empty |
| Help.OptionLines | src/main/java/wy/commands/Help.java:96-105 | two lines per option: its flag and its indented description |
| Help.SubcommandLines | src/main/java/wy/commands/Help.java:108-113 | two lines per subcommand: its name and its indented description |
| Help.Print | src/main/java/wy/commands/Help.java:87-123 | the name, description, options and subcommands sections in order, each followed by a blank line |
| Tries.FromString | src/main/java/wy/Schemas.java:65 | a trie read from text prints back as that text |
| Tries.LiteralMatches | src/main/java/wy/Schemas.java:65-73 | a filter without wildcards matches exactly itself |
| Tries.EveryKeyMatches | src/main/java/wy/cfg/ConfigFile.java:339-350 | `**/*` matches every non-empty key |
| Tries.ChildrenMatch | src/main/java/wy/Schemas.java:75 | `prefix/*` matches exactly the keys one segment below the prefix |
| Regex.DigitsMatch | src/main/java/wy/Schemas.java:76 | `\d+` fully matches exactly the non-empty digit strings |
| Strings.SplitJoin | src/platform/quickcheck.rs:55-64 | splitting a join on a separator no part holds gives the parts back |
| Strings.Split | src/maven.rs:19 | the parts hold no separator and join back to the text |
| Strings.SplitCount | src/maven.rs:19-21 | splitting gives one more part than there are separators |
| Strings.Replace | src/maven.rs:39 | replaces every occurrence of one character, keeping the rest |
| Strings.ReplaceBack | src/main/java/wy/util/SuffixRegistry.java:53-65 | replacing back undoes a replacement when the new character was absent |
| Strings.LastIndexOf | src/main/java/wy/util/SuffixRegistry.java:61 | the position of the last occurrence, or -1 when there is none |
| Strings.NatToStringValue | src/platform/boogie.rs:82 | the decimal rendering denotes the number |
| Strings.IntToString | src/platform/boogie.rs:82 | a leading `-` exactly for negative numbers, then the digits of the magnitude |
| Strings.IntToStringInjective | src/platform/boogie.rs:82 | distinct numbers render differently |
| Paths.Push | src/maven.rs:79-81 | `push` appends one component and keeps the others |

## Left out

- I/O is left out:
  - logging (`init_logging`, `info!`);
  - creating directories (`init_whileyhome`, the resolvers' `new`);
  - real downloads and file writes;
  - globbing; the glob is a parameter, and `Result` errors from it are skipped as the code does.
- `src/jvm.rs` and the `src/command/` and `src/bin/` files are not part of this model: they run Java processes and parse the command line.
- `Build::run` is `todo!()` in the source, so there is nothing to model.
- BoogiePlatform.Process: not modelled, because `process` in `src/platform/boogie.rs` moves out of `self.source` through a shared reference and calls an undefined `parse_output`, so it does not compile.
- QuickCheckPlatform.Process: not modelled, because it only hands the output to `parse_output`, which is not part of this model.
- `Platform.Manifest` requires a non-Whiley instance, because `src/platform/whiley.rs` defines no `manifest` for the Whiley platform.
- `BOUND_DECIMAL` is left out, because it works on `BigDecimal` values, which the model has no type for.
- `Trie` and `java.util.regex` are not part of this model; their behaviour is assumed:
  - a filter segment `*` matches one segment and `**` any number of them;
  - the regular expressions cover only digit runs, `.` (any character but a line terminator) and literal characters, which is all the package schema uses.
- URL joining is modelled only for relative paths without `..` or a scheme: the base is kept up to its last `/`.
- Paths are modelled as component lists: no normalisation, no absolute component that replaces the path, and no Windows separators.
- `BuildCmd.getBuildPlan` reads the registered platforms and the configured `build/platforms` list from the environment; the model takes both as inputs.
- `Build.execute` and `determineBuildPipeline` run real build tasks; the model takes a task runner as a parameter.
- BuildCmd.PrintLineHighlight: does not model Java `int` overflow in `span.getStart() - enclosing.getOffset()`, because the positions of real files are far below 2^31.
- Configuration.CheckDefaultValue: follows the corrected by-value bound comparison of the finding below, not `intValue()`; the two agree on every value within 32 bits (`Configuration.IntValueAgreesIn32Bits`), and the as-written default check is `Configuration.BoundIntegerWithDefaultAsWritten`.
- Configuration.BoundIntegerWithDefault: succeeds by the by-value comparison, so a default of 2^31 with a bound of 0 is accepted where the source throws (`Configuration.DefaultCheckDiffersOnLargeValue`).
- Configuration.BoundInteger: the descriptor's check used by validation is the by-value one; the `intValue()` reading is stated beside it through `Configuration.IsValidAsWritten`.
- Configuration.BoundIntegerWithin: as for `Configuration.BoundInteger`, with both bounds.
- ConfigFile.CheckKeys: accepts a value by the by-value comparison, so for integers beyond 32 bits it can disagree with the source, which reads `intValue()`.
- ConfigFile.CheckDescriptors: inherits the by-value comparison from `ConfigFile.CheckKeys`.
- ConfigFile.Validate: inherits the by-value comparison; for example a `width` of -4294967291 is rejected here and passes the source's check, and a `width` of 2147483648 is accepted here and rejected by the source.
- ConfigFile.ToConfiguration: inherits the by-value comparison from `ConfigFile.Validate`.
- Help.WidthSchema: validation of `width` uses the by-value comparison; the `intValue()` reading is stated beside it.
- Lines.AsStr: slices the text by character, while `as_str` at `src/util.rs:26` slices the string's bytes with offsets that `next` counted in characters; the two agree only on ASCII text, and on other text the source can panic at a non-boundary offset or return a different slice.
- Lib.WhileyHome: requires the environment variable or the home directory to be known, because `dirs::home_dir().unwrap()` at `src/lib.rs:72` panics otherwise.
- Config.KeyToString: requires a non-empty key, because `Display for Key` at `src/config.rs:98` indexes segment 0 and panics on an empty key.
- Config.GetBool, Config.GetInt, Config.GetString, Config.GetStringArray, Config.FindKeys, Config.GetStrings, Config.GetPath: require a non-empty key, because an empty key finds nothing and the error message then calls `to_string` on it, which panics.
- JavaScriptPlatform.MatchNatives: requires every include pattern to be valid, because an invalid pattern makes `glob(..).expect(..)` panic.
- Help.Print: the commented-out configuration section is not printed, as in the source; the output is a list of lines rather than a stream.
- The `help` command's `execute`, the command descriptors and `Main.java` are not part of this model.

## Findings

| source | as written | input that shows it | evidently intended | confidence | as-written member | corrected member |
|---|---|---|---|---|---|---|
| src/main/java/wybt/cfg/Configuration.java:555-623 | `BOUND_INTEGER`'s `isValid` compares `value.intValue()`, the low 32 bits of the `BigInteger`, against the bounds | `2147483648` is rejected by a lower bound of 0; `4294967301` is accepted by the bounds 0..10 | compare the integer's value with the bounds | not executed | Configuration.IsValidAsWritten (Configuration.AtLeastRejectsLargeValue, Configuration.WithinAcceptsLargeValue, Configuration.BoundIntegerWithDefaultAsWritten, Configuration.DefaultCheckDiffersOnLargeValue) | Configuration.IsValid (Configuration.IntValueAgreesIn32Bits, Configuration.BoundIntegerWithDefault, Configuration.DefaultCheckAgreesIn32Bits) |
