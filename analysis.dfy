/**
 * Analysis-phase values: configurations, artifacts, analysed dependencies with
 * their capabilities (providers), and the fatal channel for contract violations.
 */
module Analysis {
  import opened Packages

  /** An opaque build configuration; only what the action owner reports is kept. */
  datatype Config = Config(shortName: string, mnemonic: string, cacheKey: string, isHost: bool)

  /** The root an artifact lives under. */
  datatype Root = SourceRoot | BinDirectory(binOf: Config) | GenfilesDirectory(genfilesOf: Config)

  /** A file of the build, with the label of the target that owns it. */
  datatype Artifact = Artifact(root: Root, path: string, filename: string, owner: Label)

  predicate IsSourceArtifact(a: Artifact)
  {
    a.root.SourceRoot?
  }

  /** The last `/`-separated segment of a path. */
  function LastSegment(path: string): string
  {
    if |path| == 0 then ""
    else if path[|path| - 1] == '/' then ""
    else LastSegment(path[..|path| - 1]) + [path[|path| - 1]]
  }

  /** A derived artifact at `path` under `root`, owned by `owner`. */
  function DerivedArtifact(path: string, root: Root, owner: Label): Artifact
  {
    Artifact(root, path, LastSegment(path), owner)
  }

  /** What makes a dependency runnable: its executable, if any. */
  datatype FilesToRun = FilesToRun(executable: Option<Artifact>)

  /**
   * An analysed dependency (a transitive info collection). Each capability is
   * optional: `files` is its file provider (the files to build), `run` its
   * files-to-run provider, `visibility` its visibility provider, `isFileset`
   * whether it has a fileset provider.
   */
  datatype ConfiguredTarget = ConfiguredTarget(
    id: Label,
    files: Option<seq<Artifact>>,
    run: Option<FilesToRun>,
    visibility: Option<seq<PackageSpec>>,
    isFileset: bool)

  /** A resolved dependency: the loaded target and its analysed form. */
  datatype Prerequisite = Prerequisite(target: Target, ct: ConfiguredTarget)

  /** Where a fileset entry's files come from: a whole dependency, or an explicit list. */
  datatype FilesetSource = WholeTarget(src: ConfiguredTarget) | FileList(files: seq<ConfiguredTarget>)

  /** A fileset entry with its labels resolved to analysed dependencies. */
  datatype ConfiguredFilesetEntry = ConfiguredFilesetEntry(entry: FilesetEntry, source: FilesetSource)

  /** The configuration mode a query asks an attribute for. */
  datatype Mode = TargetMode | HostMode | DataMode | DontCheck

  /** Contract violations: these abort analysis and are never diagnostics. */
  datatype Fatal =
    | AttributeNotDefined(attr: string)
    | WrongConfiguration(attr: string, mode: Mode)
    | NotLabelType(attr: string)
    | MoreThanOnePrerequisite(attr: string)
    | NotExecutable(attr: string)
    | TargetNotLoaded(id: Label)
    | PrerequisiteMissing(id: Label)
    | NullPrerequisite(id: Label)
    | NullAttributeValue(attr: string)
    | MissingProvider(id: Label)
    | NotExactlyOneElement(count: nat)

  datatype Result<+T> = Ok(value: T) | Fail(fatal: Fatal)

  /** A multimap from attribute name to an insertion-ordered list of values. */
  type ListMultimap<V> = map<string, seq<V>>

  function Get<V>(m: ListMultimap<V>, key: string): seq<V>
  {
    if key in m then m[key] else []
  }

  function Put<V>(m: ListMultimap<V>, key: string, v: V): (r: ListMultimap<V>)
    ensures Get(r, key) == Get(m, key) + [v]
    ensures forall k :: k != key ==> Get(r, k) == Get(m, k)
    ensures r.Keys == m.Keys + {key}
  {
    m[key := Get(m, key) + [v]]
  }
}
