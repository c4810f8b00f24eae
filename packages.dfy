/**
 * Loading-phase values seen by the per-rule analysis context: labels, targets,
 * attribute definitions and the rule being analysed. All of them are immutable
 * once loaded, so they are datatypes.
 */
module Packages {

  datatype Option<+T> = None | Some(value: T)

  /** A build label `//pkg:name`. */
  datatype Label = Label(pkg: string, name: string)

  function LabelString(l: Label): string
  {
    "//" + l.pkg + ":" + l.name
  }

  /** A source location, opaque to the core. */
  datatype Location = Location(file: string, line: nat)

  /** The configuration transition an attribute declares. */
  datatype Transition = NoTransition | HostTransition | DataTransition | NullTransition

  /** The value type of an attribute (only the ones the core distinguishes). */
  datatype AttrType =
    | LabelType
    | LabelListType
    | NodepLabelType
    | StringListType
    | FilesetEntryListType
    | OtherType(typeName: string)

  /**
   * A set of file types. ANY_FILE and NO_FILE are distinguished values (the
   * source compares them by identity); any other set matches a file name by
   * one of its extensions.
   */
  datatype FileTypeSet = AnyFile | NoFile | FileTypes(extensions: seq<string>)

  predicate EndsWith(s: string, suffix: string)
  {
    |suffix| <= |s| && s[|s| - |suffix|..] == suffix
  }

  predicate MatchesFile(types: FileTypeSet, filename: string)
  {
    match types
    case AnyFile => true
    case NoFile => false
    case FileTypes(exts) => exists i :: 0 <= i < |exts| && EndsWith(filename, exts[i])
  }

  /** True of a file type set that allows no file type at all. */
  predicate IsNone(types: FileTypeSet)
  {
    types.NoFile? || (types.FileTypes? && |types.extensions| == 0)
  }

  function Join(parts: seq<string>, sep: string): string
  {
    if |parts| == 0 then ""
    else if |parts| == 1 then parts[0]
    else parts[0] + sep + Join(parts[1..], sep)
  }

  function DescribeFileTypes(types: FileTypeSet): string
  {
    match types
    case AnyFile => "any file"
    case NoFile => "no files"
    case FileTypes(exts) => Join(exts, " or ")
  }

  /** A predicate over rule classes (allowed, or allowed with a warning). */
  datatype RuleClassSet = AnyRule | NoRule | RuleClasses(names: seq<string>)

  predicate Admits(classes: RuleClassSet, ruleClass: string)
  {
    match classes
    case AnyRule => true
    case NoRule => false
    case RuleClasses(names) => ruleClass in names
  }

  function DescribeRuleClasses(classes: RuleClassSet): string
  {
    match classes
    case AnyRule => "any rule"
    case NoRule => "no rule"
    case RuleClasses(names) => Join(names, ", ")
  }

  /** A rule seen as the requester or the dependency of a validity check. */
  datatype RuleRef = RuleRef(id: Label, ruleClass: string)

  /**
   * An attribute definition. `validity` is the attribute's validity predicate,
   * given as the reason it rejects each (requesting rule, dependency rule) pair;
   * a pair that is not in the table is valid.
   */
  datatype Attribute = Attribute(
    name: string,
    kind: AttrType,
    transition: Transition,
    executable: bool,
    strictLabelChecking: bool,
    singleArtifact: bool,
    nonEmpty: bool,
    silentRuleClassFilter: bool,
    skipFileTypeCheck: bool,
    allowedRuleClasses: RuleClassSet,
    warningRuleClasses: RuleClassSet,
    allowedFileTypes: FileTypeSet,
    validity: map<(RuleRef, RuleRef), string>)

  /** Attribute names that start with `$` are implicit (private) dependencies. */
  predicate IsImplicit(name: string)
  {
    |name| > 0 && name[0] == '$'
  }

  predicate IsLabelType(a: Attribute)
  {
    a.kind == LabelType || a.kind == LabelListType
  }

  /** A loaded target: a rule, an input (source) file, an output file, or something else. */
  datatype Target =
    | RuleTarget(id: Label, ruleClass: string)
    | InputFile(id: Label, onDisk: bool)
    | OutputFile(id: Label)
    | PackageGroup(id: Label)

  predicate IsFileTarget(t: Target)
  {
    t.InputFile? || t.OutputFile?
  }

  /** The file name of a file target is the name part of its label. */
  function Filename(t: Target): string
  {
    t.id.name
  }

  /** The target kind a rule of class `ruleClass` reports, e.g. "cc_library rule". */
  function RuleTargetKind(ruleClass: string): string
  {
    ruleClass + " rule"
  }

  /** One entry of a fileset: either a whole source directory or an explicit file list. */
  datatype FilesetEntry = FilesetEntry(srcLabel: Label, files: Option<seq<Label>>, isSourceFileset: bool)

  /** A set of packages named by a visibility declaration. */
  datatype PackageSpec = AllPackages | SinglePackage(pkg: string) | PackagesBeneath(prefix: string)

  predicate ContainsPackage(spec: PackageSpec, pkg: string)
  {
    match spec
    case AllPackages => true
    case SinglePackage(p) => pkg == p
    case PackagesBeneath(prefix) => pkg == prefix || (|prefix| < |pkg| && pkg[..|prefix|] == prefix && pkg[|prefix|] == '/')
  }

  /** The value of an attribute of the rule, after configurable attributes are resolved. */
  datatype AttrValue =
    | LabelValue(id: Option<Label>)
    | LabelListValue(labels: seq<Label>)
    | StringListValue(strings: seq<string>)
    | FilesetValue(entries: seq<FilesetEntry>)

  /** The rule being analysed. */
  datatype Rule = Rule(
    id: Label,
    ruleClass: string,
    location: Location,
    attributes: seq<Attribute>,
    values: map<string, AttrValue>,
    defaults: map<string, AttrValue>,
    explicitlySpecified: set<string>,
    attributeLocations: map<string, Location>,
    outputs: seq<Label>,
    hasBinaryOutput: bool)

  /** The first attribute of `attrs` called `name`. */
  function FindAttribute(attrs: seq<Attribute>, name: string): (r: Option<Attribute>)
    ensures r.Some? ==> r.value.name == name && r.value in attrs
    ensures r.None? ==> forall i :: 0 <= i < |attrs| ==> attrs[i].name != name
  {
    if |attrs| == 0 then None
    else if attrs[0].name == name then Some(attrs[0])
    else FindAttribute(attrs[1..], name)
  }

  function AttributeDefinition(rule: Rule, name: string): Option<Attribute>
  {
    FindAttribute(rule.attributes, name)
  }

  predicate IsAttrDefined(rule: Rule, name: string, kind: AttrType)
  {
    var d := AttributeDefinition(rule, name);
    d.Some? && d.value.kind == kind
  }

  /** The location of an attribute's value, or the rule's own location when unknown. */
  function AttributeLocation(rule: Rule, name: string): Location
  {
    if name in rule.attributeLocations then rule.attributeLocations[name] else rule.location
  }

  function StringListOf(rule: Rule, name: string): seq<string>
  {
    if name in rule.values && rule.values[name].StringListValue? then rule.values[name].strings else []
  }

  function LabelOf(rule: Rule, name: string): Option<Label>
  {
    if name in rule.values && rule.values[name].LabelValue? then rule.values[name].id else None
  }

  function DefaultLabelOf(rule: Rule, name: string): Option<Label>
  {
    if name in rule.defaults && rule.defaults[name].LabelValue? then rule.defaults[name].id else None
  }

  function FilesetEntriesOf(rule: Rule, name: string): seq<FilesetEntry>
  {
    if name in rule.values && rule.values[name].FilesetValue? then rule.values[name].entries else []
  }
}
