/**
 * The per-rule analysis context: the dependency maps built for one rule in one
 * configuration, and the typed queries the rule's own analysis runs against
 * them. Everything but the reporter and the memoised action owner is fixed
 * at construction.
 */
module RuleContexts {
  import opened Packages
  import opened Analysis
  import opened Diagnostics
  import opened Artifacts

  /** The transition a query mode requires of the attribute; DONT_CHECK requires none. */
  function RequiredTransition(mode: Mode): Option<Transition>
  {
    match mode
    case TargetMode => Some(NoTransition)
    case HostMode => Some(HostTransition)
    case DataMode => Some(DataTransition)
    case DontCheck => None
  }

  predicate ModeFits(mode: Mode, t: Transition)
  {
    RequiredTransition(mode).None? || RequiredTransition(mode).value == t
  }

  /**
   * checkAttribute: querying an undefined attribute, or a defined one in a
   * mode whose transition it does not declare, is a contract violation.
   */
  function CheckAttribute(rule: Rule, name: string, mode: Mode): (r: Option<Fatal>)
    ensures r.None? <==>
      AttributeDefinition(rule, name).Some? && ModeFits(mode, AttributeDefinition(rule, name).value.transition)
    ensures AttributeDefinition(rule, name).None? ==> r == Some(AttributeNotDefined(name))
    ensures AttributeDefinition(rule, name).Some? && r.Some? ==> r == Some(WrongConfiguration(name, mode))
  {
    match AttributeDefinition(rule, name)
    case None => Some(AttributeNotDefined(name))
    case Some(a) =>
      if mode == HostMode then
        if a.transition != HostTransition then Some(WrongConfiguration(name, mode)) else None
      else if mode == TargetMode then
        if a.transition != NoTransition then Some(WrongConfiguration(name, mode)) else None
      else if mode == DataMode then
        if a.transition != DataTransition then Some(WrongConfiguration(name, mode)) else None
      else None
  }

  /** The one query mode that fits a transition, if any. */
  function ModeFor(t: Transition): Option<Mode>
  {
    match t
    case NoTransition => Some(TargetMode)
    case HostTransition => Some(HostMode)
    case DataTransition => Some(DataMode)
    case NullTransition => None
  }

  /**
   * For a defined attribute, the checked modes TARGET, HOST and DATA pass
   * exactly when they match the declared transition, and DONT_CHECK always does.
   */
  lemma ModeCheckMatchesTransition(rule: Rule, name: string, mode: Mode)
    requires AttributeDefinition(rule, name).Some?
    ensures var t := AttributeDefinition(rule, name).value.transition;
      CheckAttribute(rule, name, mode).None? <==> mode == DontCheck || ModeFor(t) == Some(mode)
  {
  }

  /** The memoised owner identity of the actions of a rule in a configuration. */
  datatype ActionOwner = ActionOwner(
    location: Location,
    id: Label,
    configurationName: string,
    configurationMnemonic: string,
    configurationCacheKey: string,
    targetKind: string,
    additionalProgressInfo: Option<string>)

  function OwnerOf(rule: Rule, config: Config): (o: ActionOwner)
    ensures o.id == rule.id && o.configurationCacheKey == config.cacheKey
    ensures o.additionalProgressInfo.Some? <==> config.isHost
  {
    ActionOwner(rule.location, rule.id, config.shortName, config.mnemonic, config.cacheKey,
      RuleTargetKind(rule.ruleClass), if config.isHost then Some("host") else None)
  }

  /** A failed Make-variable expansion carries the expander's message. */
  datatype Expansion<T> = Expanded(value: T) | ExpansionError(message: string)

  /** Shell tokenization either succeeds or fails after producing some tokens. */
  datatype Tokenization = Tokens(tokens: seq<string>) | TokenizationError(partial: seq<string>, message: string)

  /** What expandMakeVariables returns: the expansion, or the unchanged expression on failure. */
  function ExpandedOrOriginal(expand: string -> Expansion<string>, expression: string): string
  {
    match expand(expression)
    case Expanded(text) => text
    case ExpansionError(_) => expression
  }

  /** The diagnostic expanding one expression reports: an error exactly when expansion fails. */
  function ExpansionDiagnostics(rule: Rule, attrName: string, expression: string, expand: string -> Expansion<string>): seq<Event>
  {
    match expand(expression)
    case ExpansionError(m) => [AttributeErrorEvent(rule, attrName, m)]
    case Expanded(_) => []
  }

  /** Every value expanded (or kept), and one error per failed expansion, in order. */
  function ExpandValues(rule: Rule, attrName: string, values: seq<string>, expand: string -> Expansion<string>)
    : (seq<string>, seq<Event>)
  {
    if |values| == 0 then ([], [])
    else
      var init := ExpandValues(rule, attrName, values[..|values| - 1], expand);
      var last := values[|values| - 1];
      (init.0 + [ExpandedOrOriginal(expand, last)], init.1 + ExpansionDiagnostics(rule, attrName, last, expand))
  }

  /**
   * expandedMakeVariablesList, value by value: the i-th result is the i-th
   * value expanded, or the value itself where expansion fails; every
   * diagnostic is an error about the attribute, at most one per value.
   */
  lemma {:induction false} ExpandValuesPointwise(rule: Rule, attrName: string, values: seq<string>, expand: string -> Expansion<string>)
    ensures var t := ExpandValues(rule, attrName, values, expand);
      && |t.0| == |values|
      && (forall i :: 0 <= i < |values| ==> t.0[i] == ExpandedOrOriginal(expand, values[i]))
      && |t.1| <= |values|
      && (forall e :: e in t.1 ==> e.severity == Error && e.subject == AttributeSubject(attrName))
  {
    if |values| > 0 {
      var init := values[..|values| - 1];
      ExpandValuesPointwise(rule, attrName, init, expand);
      var t := ExpandValues(rule, attrName, values, expand);
      forall i | 0 <= i < |values|
        ensures t.0[i] == ExpandedOrOriginal(expand, values[i])
      {
        if i < |init| {
          assert values[i] == init[i];
        }
      }
    }
  }

  /** Expansion never fails on some value exactly when no diagnostic is reported. */
  lemma {:induction false} ExpandValuesQuiet(rule: Rule, attrName: string, values: seq<string>, expand: string -> Expansion<string>)
    ensures ExpandValues(rule, attrName, values, expand).1 == [] <==>
      forall i :: 0 <= i < |values| ==> expand(values[i]).Expanded?
  {
    if |values| > 0 {
      var init := values[..|values| - 1];
      ExpandValuesQuiet(rule, attrName, init, expand);
      if forall i :: 0 <= i < |init| ==> expand(init[i]).Expanded? {
        forall i | 0 <= i < |values| - 1
          ensures expand(values[i]).Expanded?
        {
          assert values[i] == init[i];
        }
      } else {
        var i :| 0 <= i < |init| && !expand(init[i]).Expanded?;
        assert values[i] == init[i];
      }
    }
  }

  /** The tokens one value contributes after expansion, and the diagnostics it costs. */
  function TokenizeValue(rule: Rule, attrName: string, value: string,
                         expand: string -> Expansion<string>, tokenize: string -> Tokenization): (seq<string>, seq<Event>)
  {
    var expansionEvents := ExpansionDiagnostics(rule, attrName, value, expand);
    match tokenize(ExpandedOrOriginal(expand, value))
    case Tokens(ts) => (ts, expansionEvents)
    case TokenizationError(partial, m) => (partial, expansionEvents + [AttributeErrorEvent(rule, attrName, m)])
  }

  /** Tokens and diagnostics of a whole string list, value after value. */
  function TokenizeValues(rule: Rule, attrName: string, values: seq<string>,
                          expand: string -> Expansion<string>, tokenize: string -> Tokenization): (seq<string>, seq<Event>)
  {
    if |values| == 0 then ([], [])
    else
      var init := TokenizeValues(rule, attrName, values[..|values| - 1], expand, tokenize);
      var last := TokenizeValue(rule, attrName, values[|values| - 1], expand, tokenize);
      (init.0 + last.0, init.1 + last.1)
  }

  /** A source file owned by another package than the rule's. */
  predicate IsForeignSource(rule: Rule, a: Artifact)
  {
    IsSourceArtifact(a) && a.owner.pkg != rule.id.pkg
  }

  /** Fixed parts of the diagnostics the queries report. */
  const ExpectedSingleArtifact: string := " expected a single artifact"
  const NotAnExecutable: string := " does not refer to a valid executable target"
  const CompilerDiscouraged: string := "setting the compiler is strongly discouraged"
  const NotALocalRule: string := "does not reference a local rule"
  const ExactlyOneOutput: string := "exactly one output file required"

  const ImportAdvice: string :=
    "' directly. You should either move the file to this package or depend on an appropriate rule there"

  function ImportMessage(a: Artifact): string
  {
    "please do not import '" + LabelString(a.owner) + ImportAdvice
  }

  function ImportEvent(rule: Rule, a: Artifact, onlyWarn: bool): Event
  {
    var message := ImportMessage(a);
    if onlyWarn then AttributeWarningEvent(rule, "srcs", message) else AttributeErrorEvent(rule, "srcs", message)
  }

  /** checkSrcsSamePackage's diagnostics: one per foreign source file, in order. */
  function ForeignSourceEvents(rule: Rule, arts: seq<Artifact>, onlyWarn: bool): (r: seq<Event>)
    ensures |r| <= |arts|
  {
    if |arts| == 0 then []
    else
      var init := ForeignSourceEvents(rule, arts[..|arts| - 1], onlyWarn);
      var last := arts[|arts| - 1];
      if IsForeignSource(rule, last) then init + [ImportEvent(rule, last, onlyWarn)] else init
  }

  function SingleSourceMessage(fileTypeName: string): string
  {
    "only a single " + fileTypeName + " is allowed here"
  }

  /** How many of the files are foreign sources. */
  function CountForeign(rule: Rule, arts: seq<Artifact>): nat
  {
    if |arts| == 0 then 0
    else CountForeign(rule, arts[..|arts| - 1]) + if IsForeignSource(rule, arts[|arts| - 1]) then 1 else 0
  }

  /**
   * checkSrcsSamePackage reports exactly the foreign sources: one diagnostic
   * each about "srcs", of the requested severity, and none when all sources
   * are local.
   */
  lemma {:induction false} ForeignSourceEventsExactly(rule: Rule, arts: seq<Artifact>, onlyWarn: bool)
    ensures |ForeignSourceEvents(rule, arts, onlyWarn)| == CountForeign(rule, arts)
    ensures forall e :: e in ForeignSourceEvents(rule, arts, onlyWarn) ==>
      e.severity == (if onlyWarn then Warning else Error) && e.subject == AttributeSubject("srcs")
    ensures ForeignSourceEvents(rule, arts, onlyWarn) == [] <==>
      forall i :: 0 <= i < |arts| ==> !IsForeignSource(rule, arts[i])
  {
    if |arts| > 0 {
      var init := arts[..|arts| - 1];
      ForeignSourceEventsExactly(rule, init, onlyWarn);
      if forall i :: 0 <= i < |init| ==> !IsForeignSource(rule, init[i]) {
        if !IsForeignSource(rule, arts[|arts| - 1]) {
          forall i | 0 <= i < |arts|
            ensures !IsForeignSource(rule, arts[i])
          {
            if i < |init| {
              assert arts[i] == init[i];
            }
          }
        }
      } else {
        var i :| 0 <= i < |init| && IsForeignSource(rule, init[i]);
        assert arts[i] == init[i];
      }
    }
  }

  /**
   * checkSrcsSamePackage names the right files: every foreign source file gets
   * its import diagnostic, and every diagnostic is that of a foreign source file.
   */
  lemma {:induction false} ForeignSourceEventsNames(rule: Rule, arts: seq<Artifact>, onlyWarn: bool)
    ensures forall i :: 0 <= i < |arts| && IsForeignSource(rule, arts[i]) ==>
      ImportEvent(rule, arts[i], onlyWarn) in ForeignSourceEvents(rule, arts, onlyWarn)
    ensures forall e :: e in ForeignSourceEvents(rule, arts, onlyWarn) ==>
      exists i :: 0 <= i < |arts| && IsForeignSource(rule, arts[i]) && e == ImportEvent(rule, arts[i], onlyWarn)
  {
    if |arts| > 0 {
      var init, last := arts[..|arts| - 1], arts[|arts| - 1];
      ForeignSourceEventsNames(rule, init, onlyWarn);
      var events := ForeignSourceEvents(rule, arts, onlyWarn);
      forall i | 0 <= i < |arts| && IsForeignSource(rule, arts[i])
        ensures ImportEvent(rule, arts[i], onlyWarn) in events
      {
        if i < |init| {
          assert arts[i] == init[i];
        }
      }
      forall e | e in events
        ensures exists i :: 0 <= i < |arts| && IsForeignSource(rule, arts[i]) && e == ImportEvent(rule, arts[i], onlyWarn)
      {
        if e in ForeignSourceEvents(rule, init, onlyWarn) {
          var i :| 0 <= i < |init| && IsForeignSource(rule, init[i]) && e == ImportEvent(rule, init[i], onlyWarn);
          assert arts[i] == init[i];
        } else {
          assert IsForeignSource(rule, last) && e == ImportEvent(rule, last, onlyWarn);
        }
      }
    }
  }

  /** The package-relative workspace path of a label. */
  function WorkspacePath(id: Label): string
  {
    if id.pkg == "" then id.name else id.pkg + "/" + id.name
  }

  /**
   * The LinkedHashSet accumulation of getPrerequisiteArtifacts: the files of
   * every dependency that has a file provider, each kept at its first
   * occurrence. The set is its insertion-ordered sequence of elements.
   */
  method CollectFiles(targets: seq<ConfiguredTarget>) returns (result: seq<Artifact>)
    ensures result == Dedup(Flatten(targets))
  {
    result := [];
    for i := 0 to |targets|
      invariant result == Dedup(Flatten(targets[..i]))
    {
      assert targets[..i + 1][..i] == targets[..i];
      assert Flatten(targets[..i + 1]) == Flatten(targets[..i]) + FilesOf(targets[i]);
      result := AddFiles(result, Flatten(targets[..i]), FilesOf(targets[i]));
    }
    assert targets[..|targets|] == targets;
  }

  /** Adds to the set the files it does not hold yet, in order. */
  method AddFiles(result: seq<Artifact>, ghost done: seq<Artifact>, files: seq<Artifact>) returns (result': seq<Artifact>)
    requires result == Dedup(done)
    ensures result' == Dedup(done + files)
  {
    result' := result;
    ghost var seen := done;
    for j := 0 to |files|
      invariant seen == done + files[..j]
      invariant result' == Dedup(seen)
    {
      DedupStep(seen, files[j], result');
      seen := seen + [files[j]];
      if files[j] !in result' {
        result' := result' + [files[j]];
      }
    }
    assert files[..|files|] == files;
  }

  class RuleContext {
    const rule: Rule
    const configuration: Config
    const targetMap: ListMultimap<ConfiguredTarget>
    const filesetEntryMap: ListMultimap<ConfiguredFilesetEntry>
    const reporter: Reporter
    var actionOwner: Option<ActionOwner>

    ghost predicate Valid()
      reads this
    {
      actionOwner.Some? ==> actionOwner.value == OwnerOf(rule, configuration)
    }

    constructor (rule: Rule, configuration: Config, reporter: Reporter,
                 targetMap: ListMultimap<ConfiguredTarget>, filesetEntryMap: ListMultimap<ConfiguredFilesetEntry>)
      ensures Valid() && actionOwner.None?
      ensures this.rule == rule && this.configuration == configuration && this.reporter == reporter
      ensures this.targetMap == targetMap && this.filesetEntryMap == filesetEntryMap
    {
      this.rule := rule;
      this.configuration := configuration;
      this.reporter := reporter;
      this.targetMap := targetMap;
      this.filesetEntryMap := filesetEntryMap;
      actionOwner := None;
    }

    predicate HasErrors()
      reads reporter
    {
      reporter.HasErrors()
    }

    /** getActionOwner: created on first use, the same identity ever after. */
    method GetActionOwner() returns (r: ActionOwner)
      requires Valid()
      modifies this`actionOwner
      ensures Valid() && r == OwnerOf(rule, configuration) && actionOwner == Some(r)
    {
      if actionOwner.None? {
        actionOwner := Some(OwnerOf(rule, configuration));
      }
      r := actionOwner.value;
    }

    method RuleError(message: string)
      modifies reporter
      ensures reporter.events == old(reporter.events) + [RuleErrorEvent(rule, message)]
    {
      reporter.Report(RuleErrorEvent(rule, message));
    }

    method RuleWarning(message: string)
      modifies reporter
      ensures reporter.events == old(reporter.events) + [RuleWarningEvent(rule, message)]
    {
      reporter.Report(RuleWarningEvent(rule, message));
    }

    method AttributeError(attrName: string, message: string)
      modifies reporter
      ensures reporter.events == old(reporter.events) + [AttributeErrorEvent(rule, attrName, message)]
    {
      reporter.Report(AttributeErrorEvent(rule, attrName, message));
    }

    method AttributeWarning(attrName: string, message: string)
      modifies reporter
      ensures reporter.events == old(reporter.events) + [AttributeWarningEvent(rule, attrName, message)]
    {
      reporter.Report(AttributeWarningEvent(rule, attrName, message));
    }

    /** getPrerequisites(attr, mode): the attribute's dependencies, after the mode check. */
    function Prerequisites(name: string, mode: Mode): (r: Result<seq<ConfiguredTarget>>)
      ensures r.Ok? <==> CheckAttribute(rule, name, mode).None?
      ensures r.Ok? ==> r.value == Get(targetMap, name)
    {
      match CheckAttribute(rule, name, mode)
      case Some(f) => Fail(f)
      case None => Ok(Get(targetMap, name))
    }

    /**
     * getPrerequisite(attr, mode): the attribute's only dependency, None when
     * it has none; a non-label attribute or more than one dependency is fatal.
     */
    function InternalGetPrerequisite(name: string, mode: Mode): (r: Result<Option<ConfiguredTarget>>)
      ensures var d := AttributeDefinition(rule, name);
        d.Some? && !IsLabelType(d.value) ==> r == Fail(NotLabelType(name))
      ensures r.Ok? ==> CheckAttribute(rule, name, mode).None? && |Get(targetMap, name)| <= 1
      ensures r.Ok? ==> (r.value.None? <==> Get(targetMap, name) == [])
      ensures r.Ok? && r.value.Some? ==> Get(targetMap, name) == [r.value.value]
      ensures CheckAttribute(rule, name, mode).None? && IsLabelType(AttributeDefinition(rule, name).value) ==>
        (r.Fail? <==> |Get(targetMap, name)| > 1)
    {
      var d := AttributeDefinition(rule, name);
      if d.Some? && !IsLabelType(d.value) then Fail(NotLabelType(name))
      else
        match Prerequisites(name, mode)
        case Fail(f) => Fail(f)
        case Ok(elements) =>
          if |elements| > 1 then Fail(MoreThanOnePrerequisite(name))
          else if |elements| == 0 then Ok(None)
          else Ok(Some(elements[0]))
    }

    /**
     * getPrerequisiteArtifacts(attr, mode): the files of every dependency that
     * has a file provider, accumulated in a linked hash set.
     */
    method PrerequisiteArtifacts(name: string, mode: Mode) returns (r: Result<seq<Artifact>>)
      ensures r.Fail? <==> CheckAttribute(rule, name, mode).Some?
      ensures r.Fail? ==> r.fatal == CheckAttribute(rule, name, mode).value
      ensures r.Ok? ==> r.value == Dedup(Flatten(Get(targetMap, name)))
    {
      var deps := Prerequisites(name, mode);
      if deps.Fail? {
        return Fail(deps.fatal);
      }
      var files := CollectFiles(deps.value);
      return Ok(files);
    }

    /** getPrerequisiteArtifacts(attr, mode, fileTypes): the same, keeping the matching files. */
    method PrerequisiteArtifactsOfType(name: string, mode: Mode, types: FileTypeSet) returns (r: Result<seq<Artifact>>)
      ensures r.Fail? <==> CheckAttribute(rule, name, mode).Some?
      ensures r.Ok? ==> r.value == FilterByType(Dedup(Flatten(Get(targetMap, name))), types)
    {
      var all := PrerequisiteArtifacts(name, mode);
      if all.Fail? {
        return all;
      }
      return Ok(FilterByType(all.value, types));
    }

    /**
     * transitiveInfoCollectionToArtifact: the single file of a dependency; a
     * dependency with another number of files is reported and gives None.
     */
    method TransitiveInfoCollectionToArtifact(attrName: string, target: Option<ConfiguredTarget>)
      returns (r: Result<Option<Artifact>>)
      modifies reporter
      ensures target.None? ==> r == Ok(None) && reporter.events == old(reporter.events)
      ensures target.Some? && target.value.files.None? ==>
        r == Fail(MissingProvider(target.value.id)) && reporter.events == old(reporter.events)
      ensures target.Some? && target.value.files.Some? && |target.value.files.value| == 1 ==>
        r == Ok(Some(target.value.files.value[0])) && reporter.events == old(reporter.events)
      ensures target.Some? && target.value.files.Some? && |target.value.files.value| != 1 ==>
        r == Ok(None) && reporter.events == old(reporter.events)
          + [AttributeErrorEvent(rule, attrName, LabelString(target.value.id) + ExpectedSingleArtifact)]
      ensures r.Ok? && r.value.Some? ==> target.Some? && target.value.files == Some([r.value.value])
    {
      if target.None? {
        return Ok(None);
      }
      var ct := target.value;
      if ct.files.None? {
        return Fail(MissingProvider(ct.id));
      }
      if |ct.files.value| == 1 {
        assert ct.files.value == [ct.files.value[0]];
        return Ok(Some(ct.files.value[0]));
      }
      AttributeError(attrName, LabelString(ct.id) + ExpectedSingleArtifact);
      return Ok(None);
    }

    /** getPrerequisiteArtifact: the single file of the attribute's only dependency. */
    method PrerequisiteArtifact(name: string, mode: Mode) returns (r: Result<Option<Artifact>>)
      modifies reporter
      ensures InternalGetPrerequisite(name, mode).Fail? ==>
        r == Fail(InternalGetPrerequisite(name, mode).fatal) && reporter.events == old(reporter.events)
      ensures InternalGetPrerequisite(name, mode) == Ok(None) ==> r == Ok(None) && reporter.events == old(reporter.events)
      ensures InternalGetPrerequisite(name, mode).Ok? && InternalGetPrerequisite(name, mode).value.Some? ==>
        var ct := InternalGetPrerequisite(name, mode).value.value;
        && (ct.files.None? ==> r == Fail(MissingProvider(ct.id)) && reporter.events == old(reporter.events))
        && (ct.files.Some? && |ct.files.value| == 1 ==>
              r == Ok(Some(ct.files.value[0])) && reporter.events == old(reporter.events))
        && (ct.files.Some? && |ct.files.value| != 1 ==>
              r == Ok(None)
              && reporter.events == old(reporter.events) + [AttributeErrorEvent(rule, name, LabelString(ct.id) + ExpectedSingleArtifact)])
      ensures r.Ok? && r.value.Some? ==>
        (&& reporter.events == old(reporter.events)
         && InternalGetPrerequisite(name, mode).Ok? && InternalGetPrerequisite(name, mode).value.Some?
         && InternalGetPrerequisite(name, mode).value.value.files == Some([r.value.value]))
    {
      var target := InternalGetPrerequisite(name, mode);
      if target.Fail? {
        return Fail(target.fatal);
      }
      r := TransitiveInfoCollectionToArtifact(name, target.value);
    }

    /** getHostPrerequisiteArtifact: getPrerequisiteArtifact in HOST mode. */
    method HostPrerequisiteArtifact(name: string) returns (r: Result<Option<Artifact>>)
      modifies reporter
      ensures CheckAttribute(rule, name, HostMode).Some? ==> r.Fail?
      ensures InternalGetPrerequisite(name, HostMode).Fail? ==>
        r == Fail(InternalGetPrerequisite(name, HostMode).fatal) && reporter.events == old(reporter.events)
      ensures InternalGetPrerequisite(name, HostMode) == Ok(None) ==> r == Ok(None) && reporter.events == old(reporter.events)
      ensures InternalGetPrerequisite(name, HostMode).Ok? && InternalGetPrerequisite(name, HostMode).value.Some? ==>
        var ct := InternalGetPrerequisite(name, HostMode).value.value;
        && (ct.files.None? ==> r == Fail(MissingProvider(ct.id)) && reporter.events == old(reporter.events))
        && (ct.files.Some? && |ct.files.value| == 1 ==>
              r == Ok(Some(ct.files.value[0])) && reporter.events == old(reporter.events))
        && (ct.files.Some? && |ct.files.value| != 1 ==>
              r == Ok(None)
              && reporter.events == old(reporter.events) + [AttributeErrorEvent(rule, name, LabelString(ct.id) + ExpectedSingleArtifact)])
      ensures r.Ok? && r.value.Some? ==>
        (&& reporter.events == old(reporter.events)
         && InternalGetPrerequisite(name, HostMode).Ok? && InternalGetPrerequisite(name, HostMode).value.Some?
         && InternalGetPrerequisite(name, HostMode).value.value.files == Some([r.value.value]))
    {
      r := PrerequisiteArtifact(name, HostMode);
    }

    /**
     * getSingleSource(kind): the one file of "srcs". None and no diagnostic
     * for no file; for several, one "srcs" error and the first file.
     */
    method SingleSource(fileTypeName: string) returns (r: Result<Option<Artifact>>)
      modifies reporter
      ensures r.Fail? <==> CheckAttribute(rule, "srcs", TargetMode).Some?
      ensures r.Fail? ==> reporter.events == old(reporter.events)
      ensures r.Ok? ==>
        var srcs := Dedup(Flatten(Get(targetMap, "srcs")));
        && (|srcs| == 0 ==> r.value.None? && reporter.events == old(reporter.events))
        && (|srcs| == 1 ==> r.value == Some(srcs[0]) && reporter.events == old(reporter.events))
        && (|srcs| > 1 ==>
              r.value == Some(srcs[0])
              && reporter.events == old(reporter.events) + [AttributeErrorEvent(rule, "srcs", SingleSourceMessage(fileTypeName))])
    {
      var all := PrerequisiteArtifacts("srcs", TargetMode);
      if all.Fail? {
        return Fail(all.fatal);
      }
      var srcs := all.value;
      if |srcs| == 0 {
        return Ok(None);
      } else if |srcs| == 1 {
        return Ok(Some(srcs[0]));
      }
      AttributeError("srcs", SingleSourceMessage(fileTypeName));
      return Ok(Some(srcs[0]));
    }

    /** getSingleSource(): the kind named after the rule class. */
    method DefaultSingleSource() returns (r: Result<Option<Artifact>>)
      modifies reporter
      ensures r.Fail? <==> CheckAttribute(rule, "srcs", TargetMode).Some?
      ensures r.Fail? ==> reporter.events == old(reporter.events)
      ensures r.Ok? ==>
        var srcs := Dedup(Flatten(Get(targetMap, "srcs")));
        && (|srcs| == 0 ==> r.value.None? && reporter.events == old(reporter.events))
        && (|srcs| == 1 ==> r.value == Some(srcs[0]) && reporter.events == old(reporter.events))
        && (|srcs| > 1 ==>
              r.value == Some(srcs[0])
              && reporter.events == old(reporter.events)
                + [AttributeErrorEvent(rule, "srcs", SingleSourceMessage(rule.ruleClass + " source file"))])
    {
      r := SingleSource(rule.ruleClass + " source file");
    }

    /**
     * getExecutablePrerequisite: the attribute must be defined and executable
     * (fatal otherwise); a dependency that cannot run is reported, and its
     * files-to-run provider, if any, is still returned.
     */
    method ExecutablePrerequisite(name: string, mode: Mode) returns (r: Result<Option<FilesToRun>>)
      modifies reporter
      ensures AttributeDefinition(rule, name).None? ==> r == Fail(AttributeNotDefined(name))
      ensures AttributeDefinition(rule, name).Some? && !AttributeDefinition(rule, name).value.executable ==>
        r == Fail(NotExecutable(name))
      ensures r.Fail? ==> reporter.events == old(reporter.events)
      ensures |old(reporter.events)| <= |reporter.events| <= |old(reporter.events)| + 1
      ensures reporter.events[..|old(reporter.events)|] == old(reporter.events)
      ensures forall i :: |old(reporter.events)| <= i < |reporter.events| ==> reporter.events[i].severity == Error
      ensures r.Ok? && r.value.Some? ==>
        var p := InternalGetPrerequisite(name, mode);
        p.Ok? && p.value.Some? && r.value == p.value.value.run
      ensures AttributeDefinition(rule, name).Some? && AttributeDefinition(rule, name).value.executable ==>
        match InternalGetPrerequisite(name, mode)
        case Fail(f) => r == Fail(f)
        case Ok(None) => r == Ok(None) && reporter.events == old(reporter.events)
        case Ok(Some(ct)) =>
          r == Ok(ct.run)
          && reporter.events == old(reporter.events)
            + (if ct.run.None? || ct.run.value.executable.None?
               then [AttributeErrorEvent(rule, name, LabelString(ct.id) + NotAnExecutable)]
               else [])
    {
      var d := AttributeDefinition(rule, name);
      if d.None? {
        return Fail(AttributeNotDefined(name));
      }
      if !d.value.executable {
        return Fail(NotExecutable(name));
      }
      var target := InternalGetPrerequisite(name, mode);
      if target.Fail? {
        return Fail(target.fatal);
      }
      if target.value.None? {
        return Ok(None);
      }
      var ct := target.value.value;
      if ct.run.None? || ct.run.value.executable.None? {
        AttributeError(name, LabelString(ct.id) + NotAnExecutable);
      }
      return Ok(ct.run);
    }

    /**
     * getCompiler: the host "compiler" executable, warning first when asked to
     * and the value is not the default.
     */
    method Compiler(warnIfNotDefault: bool) returns (r: Result<Option<FilesToRun>>)
      modifies reporter
      ensures warnIfNotDefault && LabelOf(rule, "compiler").None? ==>
        r == Fail(NullAttributeValue("compiler")) && reporter.events == old(reporter.events)
      ensures warnIfNotDefault && LabelOf(rule, "compiler").Some? && LabelOf(rule, "compiler") != DefaultLabelOf(rule, "compiler") ==>
        |reporter.events| > |old(reporter.events)|
        && reporter.events[|old(reporter.events)|]
           == AttributeWarningEvent(rule, "compiler", CompilerDiscouraged)
      ensures !warnIfNotDefault || LabelOf(rule, "compiler") == DefaultLabelOf(rule, "compiler") ==>
        forall i :: |old(reporter.events)| <= i < |reporter.events| ==> reporter.events[i].severity == Error
      ensures r.Ok? && r.value.Some? ==>
        var p := InternalGetPrerequisite("compiler", HostMode);
        p.Ok? && p.value.Some? && r.value == p.value.value.run
      ensures !warnIfNotDefault || LabelOf(rule, "compiler").Some? ==>
        var warned := old(reporter.events)
          + (if warnIfNotDefault && LabelOf(rule, "compiler") != DefaultLabelOf(rule, "compiler")
             then [AttributeWarningEvent(rule, "compiler", CompilerDiscouraged)]
             else []);
        var d := AttributeDefinition(rule, "compiler");
        if d.None? then r == Fail(AttributeNotDefined("compiler")) && reporter.events == warned
        else if !d.value.executable then r == Fail(NotExecutable("compiler")) && reporter.events == warned
        else
          match InternalGetPrerequisite("compiler", HostMode)
          case Fail(f) => r == Fail(f) && reporter.events == warned
          case Ok(None) => r == Ok(None) && reporter.events == warned
          case Ok(Some(ct)) =>
            r == Ok(ct.run)
            && reporter.events == warned
              + (if ct.run.None? || ct.run.value.executable.None?
                 then [AttributeErrorEvent(rule, "compiler", LabelString(ct.id) + NotAnExecutable)]
                 else [])
    {
      var compiler := LabelOf(rule, "compiler");
      if warnIfNotDefault {
        if compiler.None? {
          return Fail(NullAttributeValue("compiler"));
        }
        if compiler != DefaultLabelOf(rule, "compiler") {
          AttributeWarning("compiler", CompilerDiscouraged);
        }
      }
      r := ExecutablePrerequisite("compiler", HostMode);
    }

    /** The reporting loop of checkSrcsSamePackage over the files of "srcs". */
    method ReportForeignSources(srcs: seq<Artifact>, onlyWarn: bool)
      modifies reporter
      ensures reporter.events == old(reporter.events) + ForeignSourceEvents(rule, srcs, onlyWarn)
    {
      for i := 0 to |srcs|
        invariant reporter.events == old(reporter.events) + ForeignSourceEvents(rule, srcs[..i], onlyWarn)
      {
        assert srcs[..i + 1][..i] == srcs[..i];
        var item := srcs[i];
        assert ForeignSourceEvents(rule, srcs[..i + 1], onlyWarn) == ForeignSourceEvents(rule, srcs[..i], onlyWarn)
          + if IsForeignSource(rule, item) then [ImportEvent(rule, item, onlyWarn)] else [];
        if IsSourceArtifact(item) && item.owner.pkg != rule.id.pkg {
          if onlyWarn {
            AttributeWarning("srcs", ImportMessage(item));
          } else {
            AttributeError("srcs", ImportMessage(item));
          }
        }
      }
      assert srcs[..|srcs|] == srcs;
    }

    /**
     * checkSrcsSamePackage: one diagnostic (a warning when only warning) for
     * every source file of "srcs" that another package owns.
     */
    method CheckSrcsSamePackage(onlyWarn: bool) returns (fatal: Option<Fatal>)
      modifies reporter
      ensures fatal == CheckAttribute(rule, "srcs", TargetMode)
      ensures fatal.None? ==>
        reporter.events == old(reporter.events) + ForeignSourceEvents(rule, Dedup(Flatten(Get(targetMap, "srcs"))), onlyWarn)
      ensures fatal.Some? ==> reporter.events == old(reporter.events)
    {
      var all := PrerequisiteArtifacts("srcs", TargetMode);
      if all.Fail? {
        return Some(all.fatal);
      }
      ReportForeignSources(all.value, onlyWarn);
      return None;
    }

    /**
     * getLocalNodepLabelAttribute: the label, with a warning when it is not in
     * the rule's package.
     */
    method LocalNodepLabelAttribute(attrName: string) returns (r: Option<Label>)
      modifies reporter
      ensures r == LabelOf(rule, attrName)
      ensures reporter.events == old(reporter.events)
        + (if r.Some? && r.value.pkg != rule.id.pkg
           then [AttributeWarningEvent(rule, attrName, NotALocalRule)] else [])
    {
      var value := LabelOf(rule, attrName);
      if value.None? {
        return None;
      }
      if rule.id.pkg != value.value.pkg {
        AttributeWarning(attrName, NotALocalRule);
      }
      return value;
    }

    /** getBinOrGenfilesDirectory: the bin tree for rules with binary output, genfiles otherwise. */
    function BinOrGenfilesDirectory(): (root: Root)
      ensures root.BinDirectory? <==> rule.hasBinaryOutput
      ensures root == BinDirectory(configuration) || root == GenfilesDirectory(configuration)
    {
      if rule.hasBinaryOutput then BinDirectory(configuration) else GenfilesDirectory(configuration)
    }

    /** createOutputArtifact(out): the output's workspace path under the bin or genfiles root. */
    function CreateOutputArtifact(out: Label): (a: Artifact)
      ensures a.root == BinOrGenfilesDirectory() && a.path == WorkspacePath(out) && !IsSourceArtifact(a)
    {
      DerivedArtifact(WorkspacePath(out), BinOrGenfilesDirectory(), rule.id)
    }

    /** getOutputArtifacts: one derived artifact per declared output, in order. */
    method OutputArtifacts() returns (r: seq<Artifact>)
      ensures |r| == |rule.outputs|
      ensures forall i :: 0 <= i < |r| ==> r[i] == CreateOutputArtifact(rule.outputs[i])
    {
      r := [];
      for i := 0 to |rule.outputs|
        invariant |r| == i
        invariant forall k :: 0 <= k < i ==> r[k] == CreateOutputArtifact(rule.outputs[k])
      {
        r := r + [CreateOutputArtifact(rule.outputs[i])];
      }
    }

    /**
     * getOutputArtifact: the first output; anything but exactly one output is
     * reported, and no output gives None.
     */
    method OutputArtifact() returns (r: Option<Artifact>)
      modifies reporter
      ensures r.None? <==> |rule.outputs| == 0
      ensures r.Some? ==> r.value == CreateOutputArtifact(rule.outputs[0])
      ensures reporter.events == old(reporter.events)
        + (if |rule.outputs| != 1 then [AttributeErrorEvent(rule, "out", ExactlyOneOutput)] else [])
    {
      var outs := OutputArtifacts();
      if |outs| != 1 {
        AttributeError("out", ExactlyOneOutput);
        if |outs| == 0 {
          return None;
        }
      }
      return Some(outs[0]);
    }

    /**
     * getImplicitOutputArtifact: the template must give exactly one path
     * (fatal otherwise), taken relative to the rule's package.
     */
    function ImplicitOutputArtifact(template: Rule -> seq<string>): (r: Result<Artifact>)
      ensures r.Ok? <==> |template(rule)| == 1
      ensures r.Ok? ==>
        r.value.root == BinOrGenfilesDirectory() && r.value.path == WorkspacePath(Label(rule.id.pkg, template(rule)[0]))
    {
      var paths := template(rule);
      if |paths| != 1 then Fail(NotExactlyOneElement(|paths|))
      else Ok(DerivedArtifact(WorkspacePath(Label(rule.id.pkg, paths[0])), BinOrGenfilesDirectory(), rule.id))
    }

    /**
     * expandMakeVariables: the expansion; on failure, one attribute error and
     * the expression unchanged, never partially expanded.
     */
    method ExpandMakeVariables(attrName: string, expression: string, expand: string -> Expansion<string>)
      returns (r: string)
      modifies reporter
      ensures expand(expression).Expanded? ==>
        r == expand(expression).value && reporter.events == old(reporter.events)
      ensures expand(expression).ExpansionError? ==>
        r == expression
        && reporter.events == old(reporter.events) + [AttributeErrorEvent(rule, attrName, expand(expression).message)]
      ensures r == ExpandedOrOriginal(expand, expression)
      ensures reporter.events == old(reporter.events) + ExpansionDiagnostics(rule, attrName, expression, expand)
    {
      match expand(expression)
      case Expanded(text) =>
        return text;
      case ExpansionError(message) =>
        AttributeError(attrName, message);
        return expression;
    }

    /**
     * expandSingleMakeVariable: the value of the single variable the
     * expression consists of (None if it is not one); on failure, one error
     * and the expression unchanged.
     */
    method ExpandSingleMakeVariable(attrName: string, expression: string, expandSingle: string -> Expansion<Option<string>>)
      returns (r: Option<string>)
      modifies reporter
      ensures expandSingle(expression).Expanded? ==>
        r == expandSingle(expression).value && reporter.events == old(reporter.events)
      ensures expandSingle(expression).ExpansionError? ==>
        r == Some(expression)
        && reporter.events == old(reporter.events) + [AttributeErrorEvent(rule, attrName, expandSingle(expression).message)]
    {
      match expandSingle(expression)
      case Expanded(value) =>
        return value;
      case ExpansionError(message) =>
        AttributeError(attrName, message);
        return Some(expression);
    }

    /** expandedMakeVariablesList: every value expanded (or kept on failure), in order. */
    method ExpandedMakeVariablesList(attrName: string, expand: string -> Expansion<string>) returns (r: seq<string>)
      modifies reporter
      ensures var t := ExpandValues(rule, attrName, StringListOf(rule, attrName), expand);
        r == t.0 && reporter.events == old(reporter.events) + t.1
    {
      var values := StringListOf(rule, attrName);
      r := [];
      for i := 0 to |values|
        invariant var t := ExpandValues(rule, attrName, values[..i], expand);
          r == t.0 && reporter.events == old(reporter.events) + t.1
      {
        assert values[..i + 1][..i] == values[..i];
        var expanded := ExpandMakeVariables(attrName, values[i], expand);
        r := r + [expanded];
      }
      assert values[..|values|] == values;
    }

    /**
     * tokenizeAndExpandMakeVars: expands, then tokenizes into `tokens`; a
     * tokenization failure is reported and keeps the tokens found before it.
     */
    method TokenizeAndExpandMakeVars(tokens: seq<string>, attrName: string, value: string,
                                     expand: string -> Expansion<string>, tokenize: string -> Tokenization)
      returns (tokens': seq<string>)
      modifies reporter
      ensures var t := TokenizeValue(rule, attrName, value, expand, tokenize);
        tokens' == tokens + t.0 && reporter.events == old(reporter.events) + t.1
    {
      var expanded := ExpandMakeVariables(attrName, value, expand);
      match tokenize(expanded)
      case Tokens(ts) =>
        tokens' := tokens + ts;
      case TokenizationError(partial, message) =>
        tokens' := tokens + partial;
        AttributeError(attrName, message);
    }

    /**
     * getTokenizedStringListAttr: the tokens of every value of a string-list
     * attribute, in order; nothing for an attribute that is not one.
     */
    method TokenizedStringListAttr(attrName: string, expand: string -> Expansion<string>, tokenize: string -> Tokenization)
      returns (r: seq<string>)
      modifies reporter
      ensures !IsAttrDefined(rule, attrName, StringListType) ==> r == [] && reporter.events == old(reporter.events)
      ensures IsAttrDefined(rule, attrName, StringListType) ==>
        var t := TokenizeValues(rule, attrName, StringListOf(rule, attrName), expand, tokenize);
        r == t.0 && reporter.events == old(reporter.events) + t.1
    {
      if !IsAttrDefined(rule, attrName, StringListType) {
        return [];
      }
      var original := StringListOf(rule, attrName);
      if |original| == 0 {
        return [];
      }
      var tokens: seq<string> := [];
      for i := 0 to |original|
        invariant var t := TokenizeValues(rule, attrName, original[..i], expand, tokenize);
          tokens == t.0 && reporter.events == old(reporter.events) + t.1
      {
        assert original[..i + 1][..i] == original[..i];
        tokens := TokenizeAndExpandMakeVars(tokens, attrName, original[i], expand, tokenize);
      }
      assert original[..|original|] == original;
      return tokens;
    }
  }

  /**
   * isVisible: whether one of the dependency's visibility specifications
   * contains the requesting rule's package. The visibility provider is not
   * checked for absence, so a dependency without one is fatal.
   */
  method IsVisible(rule: Rule, prerequisite: ConfiguredTarget) returns (r: Result<bool>)
    ensures prerequisite.visibility.None? ==> r == Fail(MissingProvider(prerequisite.id))
    ensures prerequisite.visibility.Some? ==>
      r == Ok(exists i :: 0 <= i < |prerequisite.visibility.value|
                && ContainsPackage(prerequisite.visibility.value[i], rule.id.pkg))
  {
    if prerequisite.visibility.None? {
      return Fail(MissingProvider(prerequisite.id));
    }
    var specs := prerequisite.visibility.value;
    for i := 0 to |specs|
      invariant forall k :: 0 <= k < i ==> !ContainsPackage(specs[k], rule.id.pkg)
    {
      if ContainsPackage(specs[i], rule.id.pkg) {
        return Ok(true);
      }
    }
    return Ok(false);
  }
}
