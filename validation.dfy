/**
 * The structural checks the builder runs on each direct dependency before it
 * enters the dependency map, and on the source of each fileset entry. Each
 * check is a pure function giving the diagnostics it reports, in order.
 */
module Validation {
  import opened Packages
  import opened Analysis
  import opened Diagnostics
  import opened Artifacts

  /**
   * The diagnostic for a dependency of the wrong kind: an error "misplaced here",
   * or, when only a warning is due, "unexpected here; continuing anyway".
   */
  function BadPrerequisite(rule: Rule, attr: Attribute, targetKind: Option<string>, dep: Label,
                           reason: Option<string>, isWarning: bool): (e: Event)
    ensures e.location == AttributeLocation(rule, attr.name)
    ensures e.severity == Warning <==> isWarning
  {
    var prefix := if targetKind.Some? then targetKind.value + " " else "";
    var why := if reason.Some? then " (" + reason.value + ")" else "";
    if isWarning then
      AttributeWarningEvent(rule, attr.name,
        prefix + "'" + LabelString(dep) + "' is unexpected here" + why + "; continuing anyway")
    else
      AttributeErrorEvent(rule, attr.name,
        prefix + "'" + LabelString(dep) + "' is misplaced here" + why + ".")
  }

  /** The reason the attribute's validity predicate rejects a rule dependency, if any. */
  function ValidityReason(rule: Rule, attr: Attribute, dep: Target): Option<string>
  {
    var key := (RuleRef(rule.id, rule.ruleClass), RuleRef(dep.id, if dep.RuleTarget? then dep.ruleClass else ""));
    if dep.RuleTarget? && key in attr.validity then Some(attr.validity[key]) else None
  }

  /** The validity-predicate part of validateDirectPrerequisiteType. */
  function ValidityDiagnostics(rule: Rule, attr: Attribute, dep: Target): (r: seq<Event>)
    ensures |r| <= 1
    ensures |r| == 1 <==> ValidityReason(rule, attr, dep).Some?
    ensures |r| == 1 ==> dep.RuleTarget? && r[0].severity == Error
  {
    match ValidityReason(rule, attr, dep)
    case Some(reason) => [BadPrerequisite(rule, attr, Some(RuleTargetKind(dep.ruleClass)), dep.id, Some(reason), false)]
    case None => []
  }

  /** The three ways a file dependency of the wrong type is reported. */
  datatype BadFile = RuleDoesNotExist | TargetDoesNotExist | FileMisplaced

  /**
   * Which report a file that fails the allowed file types gets: a missing
   * input file whose name has no dot, for an attribute that allows no file
   * types, is probably a misspelled rule; any other missing input file is a
   * missing target; a file that exists has the wrong extension.
   */
  function ClassifyBadFile(attr: Attribute, dep: Target): (b: BadFile)
    requires IsFileTarget(dep)
    ensures b != FileMisplaced <==> dep.InputFile? && !dep.onDisk
    ensures b == RuleDoesNotExist <==>
      dep.InputFile? && !dep.onDisk && IsNone(attr.allowedFileTypes) && '.' !in Filename(dep)
  {
    if dep.InputFile? && !dep.onDisk then
      if IsNone(attr.allowedFileTypes) && '.' !in Filename(dep) then RuleDoesNotExist
      else TargetDoesNotExist
    else FileMisplaced
  }

  function BadFileEvent(rule: Rule, attr: Attribute, dep: Target): Event
    requires IsFileTarget(dep)
  {
    match ClassifyBadFile(attr, dep)
    case RuleDoesNotExist => AttributeErrorEvent(rule, attr.name, "rule '" + LabelString(dep.id) + "' does not exist")
    case TargetDoesNotExist => AttributeErrorEvent(rule, attr.name, "target '" + LabelString(dep.id) + "' does not exist")
    case FileMisplaced =>
      BadPrerequisite(rule, attr, Some("file"), dep.id,
        Some("expected " + DescribeFileTypes(attr.allowedFileTypes)), false)
  }

  /**
   * The strict-checking part of validateDirectPrerequisiteType: rule-class
   * admissibility of a rule (an error, or a warning in the warn-only tier) and
   * file-type admissibility of a file.
   */
  function StrictDiagnostics(rule: Rule, attr: Attribute, dep: Target): (r: seq<Event>)
    ensures |r| <= 1
    ensures !attr.strictLabelChecking || dep.PackageGroup? ==> r == []
    ensures dep.RuleTarget? ==>
      (|r| == 1 <==> attr.strictLabelChecking && !Admits(attr.allowedRuleClasses, dep.ruleClass))
    ensures dep.RuleTarget? && |r| == 1 ==>
      (r[0].severity == Warning <==> Admits(attr.warningRuleClasses, dep.ruleClass))
    ensures IsFileTarget(dep) ==>
      (|r| == 1 <==> attr.strictLabelChecking && !MatchesFile(attr.allowedFileTypes, Filename(dep)))
    ensures IsFileTarget(dep) && |r| == 1 ==> r[0] == BadFileEvent(rule, attr, dep) && r[0].severity == Error
  {
    if !attr.strictLabelChecking then []
    else if dep.RuleTarget? then
      if Admits(attr.allowedRuleClasses, dep.ruleClass) then []
      else
        [BadPrerequisite(rule, attr, Some(RuleTargetKind(dep.ruleClass)), dep.id,
          Some("expected " + DescribeRuleClasses(attr.allowedRuleClasses)),
          Admits(attr.warningRuleClasses, dep.ruleClass))]
    else if IsFileTarget(dep) then
      if MatchesFile(attr.allowedFileTypes, Filename(dep)) then [] else [BadFileEvent(rule, attr, dep)]
    else []
  }

  /** validateDirectPrerequisiteType: the validity predicate, then strict checking. */
  function TypeDiagnostics(rule: Rule, attr: Attribute, dep: Target): (r: seq<Event>)
    ensures |r| <= 2
    ensures forall i :: 0 <= i < |r| ==> r[i].location == AttributeLocation(rule, attr.name)
    ensures |ValidityDiagnostics(rule, attr, dep)| <= |r|
    ensures r[..|ValidityDiagnostics(rule, attr, dep)|] == ValidityDiagnostics(rule, attr, dep)
    ensures r[|ValidityDiagnostics(rule, attr, dep)|..] == StrictDiagnostics(rule, attr, dep)
  {
    ValidityDiagnostics(rule, attr, dep) + StrictDiagnostics(rule, attr, dep)
  }

  /**
   * When validateDirectPrerequisiteFileTypes returns before looking at the
   * dependency's files: the attribute opts out, allows any file without
   * requiring one, or allows no file at all.
   */
  predicate FileTypeCheckSkipped(attr: Attribute)
  {
    attr.skipFileTypeCheck
    || (attr.allowedFileTypes.AnyFile? && !attr.nonEmpty && !attr.singleArtifact)
    || attr.allowedFileTypes.NoFile?
  }

  /**
   * validateDirectPrerequisiteFileTypes: the single-artifact and non-empty
   * checks on a dependency's files. The dependency's file provider is not
   * checked for absence, so a dependency without one is a fatal error.
   */
  function FileTypeDiagnostics(rule: Rule, attr: Attribute, ct: ConfiguredTarget): (r: Result<seq<Event>>)
    ensures FileTypeCheckSkipped(attr) ==> r == Ok([])
    ensures r.Fail? <==> !FileTypeCheckSkipped(attr) && ct.files.None?
    ensures r.Ok? ==> |r.value| <= 1 && forall i :: 0 <= i < |r.value| ==> r.value[i].severity == Error
    ensures !FileTypeCheckSkipped(attr) && ct.files.Some? && attr.singleArtifact && |ct.files.value| != 1 ==>
      r == Ok([AttributeErrorEvent(rule, attr.name, "'" + LabelString(ct.id) + "' must produce a single file")])
    ensures !FileTypeCheckSkipped(attr) && ct.files.Some? && !(attr.singleArtifact && |ct.files.value| != 1) ==>
      (r == Ok([]) <==> exists i :: 0 <= i < |ct.files.value| && MatchesFile(attr.allowedFileTypes, ct.files.value[i].filename))
  {
    var types := attr.allowedFileTypes;
    if FileTypeCheckSkipped(attr) then Ok([])
    else if ct.files.None? then Fail(MissingProvider(ct.id))
    else
      var arts := ct.files.value;
      if attr.singleArtifact && |arts| != 1 then
        Ok([AttributeErrorEvent(rule, attr.name, "'" + LabelString(ct.id) + "' must produce a single file")])
      else if exists i :: 0 <= i < |arts| && MatchesFile(types, arts[i].filename) then Ok([])
      else
        Ok([AttributeErrorEvent(rule, attr.name, "'" + LabelString(ct.id) + "' does not produce any "
          + rule.ruleClass + " " + attr.name + " files (expected " + DescribeFileTypes(types) + ")")])
  }

  const NotAFileset: string := "'. Must be another Fileset or package"
  const NotAnInputFile: string := "' is not an input file. This forces the Fileset to be executed unconditionally"

  /** The outcome of validateFilesetEntry: whether the entry is kept, and what was reported. */
  datatype FilesetCheck = FilesetCheck(ok: bool, events: seq<Event>)

  /**
   * validateFilesetEntry: a source directory must be another fileset, a source
   * fileset, or a file; an output file is accepted with a warning.
   */
  function FilesetEntryCheck(rule: Rule, entry: FilesetEntry, src: Prerequisite): (r: FilesetCheck)
    ensures |r.events| <= 1
    ensures !r.ok <==> !src.ct.isFileset && !entry.isSourceFileset && !IsFileTarget(src.target)
    ensures !r.ok ==> |r.events| == 1 && r.events[0].severity == Error
    ensures r.ok && |r.events| == 1 ==> r.events[0].severity == Warning && src.target.OutputFile?
    ensures src.target.InputFile? || src.ct.isFileset || entry.isSourceFileset ==> r == FilesetCheck(true, [])
    ensures src.target.OutputFile? && !src.ct.isFileset && !entry.isSourceFileset ==>
      r.ok && |r.events| == 1 && r.events[0].severity == Warning
  {
    if src.ct.isFileset || entry.isSourceFileset then FilesetCheck(true, [])
    else if !IsFileTarget(src.target) then
      FilesetCheck(false, [AttributeErrorEvent(rule, "entries",
        "Invalid 'srcdir' target '" + LabelString(src.target.id) + NotAFileset)])
    else if src.target.OutputFile? then
      FilesetCheck(true, [AttributeWarningEvent(rule, "entries",
        "'srcdir' target '" + LabelString(src.target.id) + NotAnInputFile)])
    else FilesetCheck(true, [])
  }
}
