/** Items of `src/build.rs` that the platform files use: the `package.name`
    key, the artifacts a platform's manifest lists, diagnostic markers and the
    error a platform reports for unexpected tool output. The file
    `src/build.rs` does not itself define `Artifact` or `Marker`; their shape
    here follows the platform files' use of them. */
module BuildTypes {
  import Config
  import Paths

  /** `PACKAGE_NAME`. */
  const PackageName: Config.Key := ["package", "name"]

  /** A file or folder a platform produces or consumes. */
  datatype Artifact =
    | BinaryFolder(path: Paths.PathBuf)
    | BinaryFile(path: Paths.PathBuf)
    | SourceFile(path: Paths.PathBuf)

  /** A diagnostic reported by a tool; its contents are not part of this model. */
  datatype Marker = Marker(message: string)

  /** `PluginError`: the tool that failed and its whole output. */
  datatype PluginError = PluginError(name: string, message: string)
}
