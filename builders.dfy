/**
 * The rule context builder: resolves every label of every attribute into an
 * analysed dependency, validates it, and collects the dependency map and the
 * fileset entry map the rule context is created with.
 *
 * Handling one label (or one fileset entry) is a Step: what to store, what is
 * reported, and the contract violation that stops the build, if any. Each map
 * is specified as the Fold of its steps, in order, over the map collected so
 * far; a contract violation is absorbing: nothing after it is stored or reported.
 */
module Builders {
  import opened Packages
  import opened Analysis
  import opened Diagnostics
  import opened Validation
  import opened Prerequisites
  import opened RuleContexts

  /** One attribute of the label map with its labels, in order. */
  datatype LabelEntry = LabelEntry(attr: Attribute, labels: seq<Label>)

  /** What handling one label or entry gives: the value to store, the diagnostics, and a violation. */
  datatype Step<V> = Step(kept: Option<V>, events: seq<Event>, fatal: Option<Fatal>)

  /** A map under construction, what was reported while building it, and the violation that stopped it. */
  datatype Outcome<V> = Outcome(multimap: ListMultimap<V>, events: seq<Event>, fatal: Option<Fatal>)

  function Start<V>(): Outcome<V>
  {
    Outcome(map[], [], None)
  }

  /** One step applied under `key`; nothing happens once the build has stopped. */
  function Apply<V>(o: Outcome<V>, key: string, s: Step<V>): Outcome<V>
  {
    if o.fatal.Some? then o
    else Outcome(if s.kept.Some? then Put(o.multimap, key, s.kept.value) else o.multimap, o.events + s.events, s.fatal)
  }

  /** The steps, in order, applied under `key`. */
  function Fold<V>(key: string, steps: seq<Step<V>>, o: Outcome<V>): Outcome<V>
  {
    if |steps| == 0 then o else Fold(key, steps[1..], Apply(o, key, steps[0]))
  }

  /** Once stopped, the steps still to come change nothing. */
  lemma {:induction false} FoldAbsorb<V>(key: string, steps: seq<Step<V>>, o: Outcome<V>)
    requires o.fatal.Some?
    ensures Fold(key, steps, o) == o
  {
    if |steps| > 0 {
      FoldAbsorb(key, steps[1..], o);
    }
  }

  /** A silent rule-class filter lets through only rules of an allowed class. */
  predicate PassesFilter(attr: Attribute, t: Target)
  {
    t.RuleTarget? && Admits(attr.allowedRuleClasses, t.ruleClass)
  }

  /**
   * createTargetMap, one label. Under a silent rule-class filter the resolved
   * dependency is dereferenced unconditionally (an absent one is fatal) and
   * anything but an allowed rule is dropped without a diagnostic; otherwise an
   * absent dependency is skipped. A kept dependency is validated and, unless
   * validation stops on a violation, stored.
   */
  function LabelStep(env: BuildEnv, attr: Attribute, id: Label): (s: Step<ConfiguredTarget>)
    ensures s.kept.Some? ==> s.fatal.None?
    ensures s.kept.Some? ==>
      var r := Resolve(env, attr, id);
      r.Ok? && r.value.Some? && s.kept.value == r.value.value.ct
    ensures attr.silentRuleClassFilter && s.kept.Some? ==> PassesFilter(attr, Resolve(env, attr, id).value.value.target)
    ensures Resolve(env, attr, id).Fail? ==> s == Step(None, [], Some(Resolve(env, attr, id).fatal))
    ensures Resolve(env, attr, id) == Ok(None) ==>
      s == if attr.silentRuleClassFilter then Step(None, [], Some(NullPrerequisite(id))) else Step(None, [], None)
    ensures Resolve(env, attr, id).Ok? && Resolve(env, attr, id).value.Some? ==>
      var p := Resolve(env, attr, id).value.value;
      if attr.silentRuleClassFilter && !PassesFilter(attr, p.target) then s == Step(None, [], None)
      else
        && s.events == Validate(env, attr, p).events
        && s.fatal == Validate(env, attr, p).fatal
        && (s.kept.Some? <==> Validate(env, attr, p).fatal.None?)
  {
    match Resolve(env, attr, id)
    case Fail(f) => Step(None, [], Some(f))
    case Ok(None) => if attr.silentRuleClassFilter then Step(None, [], Some(NullPrerequisite(id))) else Step(None, [], None)
    case Ok(Some(p)) =>
      if attr.silentRuleClassFilter && !PassesFilter(attr, p.target) then Step(None, [], None)
      else
        var v := Validate(env, attr, p);
        Step(if v.fatal.None? then Some(p.ct) else None, v.events, v.fatal)
  }

  /** The step of every label, in order. */
  function LabelSteps(env: BuildEnv, attr: Attribute, labels: seq<Label>): (r: seq<Step<ConfiguredTarget>>)
    ensures |r| == |labels|
  {
    if |labels| == 0 then [] else [LabelStep(env, attr, labels[0])] + LabelSteps(env, attr, labels[1..])
  }

  lemma {:induction false} LabelStepsAt(env: BuildEnv, attr: Attribute, labels: seq<Label>, j: nat)
    requires j < |labels|
    ensures LabelSteps(env, attr, labels)[j] == LabelStep(env, attr, labels[j])
  {
    if j > 0 {
      LabelStepsAt(env, attr, labels[1..], j - 1);
    }
  }

  /** Every attribute of the label map, in order, from outcome `o`. */
  function TargetEntries(env: BuildEnv, entries: seq<LabelEntry>, o: Outcome<ConfiguredTarget>)
    : Outcome<ConfiguredTarget>
  {
    if |entries| == 0 then o
    else TargetEntries(env, entries[1..], Fold(entries[0].attr.name, LabelSteps(env, entries[0].attr, entries[0].labels), o))
  }

  lemma {:induction false} TargetEntriesAbsorb(env: BuildEnv, entries: seq<LabelEntry>, o: Outcome<ConfiguredTarget>)
    ensures o.fatal.Some? ==> TargetEntries(env, entries, o) == o
  {
    if o.fatal.Some? && |entries| > 0 {
      FoldAbsorb(entries[0].attr.name, LabelSteps(env, entries[0].attr, entries[0].labels), o);
      TargetEntriesAbsorb(env, entries[1..], o);
    }
  }

  const AbiDepsConflict: string := "Only one of deps and abi_deps should be provided"

  /** The final check of createTargetMap: "deps" and "abi_deps" must not both be given. */
  function AbiDepsEvents(rule: Rule): (r: seq<Event>)
    ensures |r| <= 1
    ensures |r| == 1 <==>
      AttributeDefinition(rule, "abi_deps").Some? && "abi_deps" in rule.explicitlySpecified && "deps" in rule.explicitlySpecified
  {
    if AttributeDefinition(rule, "abi_deps").Some? && "abi_deps" in rule.explicitlySpecified
       && "deps" in rule.explicitlySpecified
    then [AttributeErrorEvent(rule, "deps", AbiDepsConflict)]
    else []
  }

  /** createTargetMap: the dependency map, its diagnostics, and the violation that stopped it. */
  function TargetMapOutcome(env: BuildEnv, labelMap: seq<LabelEntry>): Outcome<ConfiguredTarget>
  {
    var o := TargetEntries(env, labelMap, Start());
    if o.fatal.Some? then o else o.(events := o.events + AbiDepsEvents(env.rule))
  }

  /** The explicit file list of a fileset entry, from the labels resolved so far. */
  function ResolvedFilesFrom(env: BuildEnv, attr: Attribute, files: seq<Label>, acc: seq<ConfiguredTarget>)
    : Result<seq<ConfiguredTarget>>
  {
    if |files| == 0 then Ok(acc)
    else
      match Resolve(env, attr, files[0])
      case Fail(f) => Fail(f)
      case Ok(None) => Fail(NullPrerequisite(files[0]))
      case Ok(Some(p)) => ResolvedFilesFrom(env, attr, files[1..], acc + [p.ct])
  }

  /**
   * The analysed dependencies of a fileset entry's file list. Each is
   * dereferenced unconditionally, so an absent one is fatal.
   */
  function ResolvedFiles(env: BuildEnv, attr: Attribute, files: seq<Label>): Result<seq<ConfiguredTarget>>
  {
    ResolvedFilesFrom(env, attr, files, [])
  }

  /**
   * createFilesetEntryMap, one entry. A source-directory entry's source is
   * dereferenced unconditionally (an absent one is fatal), checked, and stored
   * unless rejected; a file-list entry is stored with its resolved files.
   */
  function EntryStep(env: BuildEnv, attr: Attribute, entry: FilesetEntry): (s: Step<ConfiguredFilesetEntry>)
    ensures s.kept.Some? ==> s.fatal.None? && s.kept.value.entry == entry
    ensures entry.files.Some? ==> s.events == [] && (s.fatal.None? <==> ResolvedFiles(env, attr, entry.files.value).Ok?)
    ensures entry.files.None? && s.fatal.None? ==>
      var src := Resolve(env, attr, entry.srcLabel);
      && src.Ok? && src.value.Some?
      && s.events == FilesetEntryCheck(env.rule, entry, src.value.value).events
      && (s.kept.Some? <==> FilesetEntryCheck(env.rule, entry, src.value.value).ok)
    ensures entry.files.None? && s.kept.Some? ==>
      s.kept.value.source == WholeTarget(Resolve(env, attr, entry.srcLabel).value.value.ct)
    ensures entry.files.Some? && s.fatal.None? ==>
      s.kept == Some(ConfiguredFilesetEntry(entry, FileList(ResolvedFiles(env, attr, entry.files.value).value)))
    ensures entry.files.Some? && ResolvedFiles(env, attr, entry.files.value).Fail? ==>
      s.fatal == Some(ResolvedFiles(env, attr, entry.files.value).fatal)
    ensures entry.files.None? ==>
      var src := Resolve(env, attr, entry.srcLabel);
      && (s.fatal.None? <==> src.Ok? && src.value.Some?)
      && (src.Fail? ==> s.fatal == Some(src.fatal))
      && (src == Ok(None) ==> s.fatal == Some(NullPrerequisite(entry.srcLabel)))
  {
    if entry.files.None? then
      match Resolve(env, attr, entry.srcLabel)
      case Fail(f) => Step(None, [], Some(f))
      case Ok(None) => Step(None, [], Some(NullPrerequisite(entry.srcLabel)))
      case Ok(Some(src)) =>
        var check := FilesetEntryCheck(env.rule, entry, src);
        Step(if check.ok then Some(ConfiguredFilesetEntry(entry, WholeTarget(src.ct))) else None, check.events, None)
    else
      match ResolvedFiles(env, attr, entry.files.value)
      case Fail(f) => Step(None, [], Some(f))
      case Ok(cts) => Step(Some(ConfiguredFilesetEntry(entry, FileList(cts))), [], None)
  }

  /** The step of every entry, in order. */
  function EntrySteps(env: BuildEnv, attr: Attribute, entries: seq<FilesetEntry>): (r: seq<Step<ConfiguredFilesetEntry>>)
    ensures |r| == |entries|
  {
    if |entries| == 0 then [] else [EntryStep(env, attr, entries[0])] + EntrySteps(env, attr, entries[1..])
  }

  lemma {:induction false} EntryStepsAt(env: BuildEnv, attr: Attribute, entries: seq<FilesetEntry>, j: nat)
    requires j < |entries|
    ensures EntrySteps(env, attr, entries)[j] == EntryStep(env, attr, entries[j])
  {
    if j > 0 {
      EntryStepsAt(env, attr, entries[1..], j - 1);
    }
  }

  /** Every attribute of the rule, in order, from outcome `o`; only fileset-entry lists contribute. */
  function FilesetAttributes(env: BuildEnv, attrs: seq<Attribute>, o: Outcome<ConfiguredFilesetEntry>)
    : Outcome<ConfiguredFilesetEntry>
  {
    if |attrs| == 0 then o
    else if attrs[0].kind != FilesetEntryListType then FilesetAttributes(env, attrs[1..], o)
    else FilesetAttributes(env, attrs[1..], Fold(attrs[0].name, EntrySteps(env, attrs[0], FilesetEntriesOf(env.rule, attrs[0].name)), o))
  }

  /** createFilesetEntryMap: the fileset entry map, its diagnostics, and the violation that stopped it. */
  function FilesetMapOutcome(env: BuildEnv): Outcome<ConfiguredFilesetEntry>
  {
    FilesetAttributes(env, env.rule.attributes, Start())
  }

  lemma {:induction false} FilesetAttributesAbsorb(env: BuildEnv, attrs: seq<Attribute>, o: Outcome<ConfiguredFilesetEntry>)
    ensures o.fatal.Some? ==> FilesetAttributes(env, attrs, o) == o
  {
    if o.fatal.Some? && |attrs| > 0 {
      FoldAbsorb(attrs[0].name, EntrySteps(env, attrs[0], FilesetEntriesOf(env.rule, attrs[0].name)), o);
      FilesetAttributesAbsorb(env, attrs[1..], o);
    }
  }

  /** The builder of one rule's context: its environment, its label map and its reporter. */
  class Builder {
    const env: BuildEnv
    const labelMap: seq<LabelEntry>
    const reporter: Reporter

    constructor (env: BuildEnv, labelMap: seq<LabelEntry>, reporter: Reporter)
      ensures this.env == env && this.labelMap == labelMap && this.reporter == reporter
    {
      this.env := env;
      this.labelMap := labelMap;
      this.reporter := reporter;
    }

    /**
     * validateDirectPrerequisite: type diagnostics, then file-type diagnostics
     * (stopping on a dependency without a file provider), then the injected
     * validator's.
     */
    method ValidateDirectPrerequisite(attr: Attribute, p: Prerequisite) returns (fatal: Option<Fatal>)
      modifies reporter
      ensures fatal == Validate(env, attr, p).fatal
      ensures reporter.events == old(reporter.events) + Validate(env, attr, p).events
    {
      reporter.ReportAll(TypeDiagnostics(env.rule, attr, p.target));
      var fileEvents := FileTypeDiagnostics(env.rule, attr, p.ct);
      if fileEvents.Fail? {
        return Some(fileEvents.fatal);
      }
      reporter.ReportAll(fileEvents.value);
      reporter.ReportAll(env.validator(attr, p));
      return None;
    }

    /**
     * validateFilesetEntry: whether a source-directory entry is kept, with an
     * error for a source that is neither a fileset nor a file, and a warning
     * for an output file.
     */
    method ValidateFilesetEntry(entry: FilesetEntry, src: Prerequisite) returns (ok: bool)
      modifies reporter
      ensures ok == FilesetEntryCheck(env.rule, entry, src).ok
      ensures reporter.events == old(reporter.events) + FilesetEntryCheck(env.rule, entry, src).events
    {
      if src.ct.isFileset {
        return true;
      }
      if entry.isSourceFileset {
        return true;
      }
      if !IsFileTarget(src.target) {
        reporter.Report(AttributeErrorEvent(env.rule, "entries",
          "Invalid 'srcdir' target '" + LabelString(src.target.id) + NotAFileset));
        return false;
      }
      if src.target.OutputFile? {
        reporter.Report(AttributeWarningEvent(env.rule, "entries",
          "'srcdir' target '" + LabelString(src.target.id) + NotAnInputFile));
      }
      return true;
    }

    /**
     * The body of createTargetMap's label loops: resolve one label, filter it
     * when the attribute filters silently, and validate what is kept.
     */
    method AddPrerequisite(attribute: Attribute, id: Label) returns (s: Step<ConfiguredTarget>)
      modifies reporter
      ensures s == LabelStep(env, attribute, id)
      ensures reporter.events == old(reporter.events) + s.events
    {
      var prerequisite := Resolve(env, attribute, id);
      if prerequisite.Fail? {
        return Step(None, [], Some(prerequisite.fatal));
      }
      if attribute.silentRuleClassFilter {
        if prerequisite.value.None? {
          return Step(None, [], Some(NullPrerequisite(id)));
        }
        var p := prerequisite.value.value;
        if !PassesFilter(attribute, p.target) {
          return Step(None, [], None);
        }
      } else if prerequisite.value.None? {
        return Step(None, [], None);
      }
      var p := prerequisite.value.value;
      var fatal := ValidateDirectPrerequisite(attribute, p);
      if fatal.Some? {
        return Step(None, Validate(env, attribute, p).events, fatal);
      }
      return Step(Some(p.ct), Validate(env, attribute, p).events, None);
    }

    /** The step of the label at position `j` of an attribute's labels. */
    method AddLabel(attribute: Attribute, labels: seq<Label>, j: nat) returns (s: Step<ConfiguredTarget>)
      requires j < |labels|
      modifies reporter
      ensures s == LabelSteps(env, attribute, labels)[j]
      ensures reporter.events == old(reporter.events) + s.events
    {
      s := AddPrerequisite(attribute, labels[j]);
      LabelStepsAt(env, attribute, labels, j);
    }

    /** The label loop of createTargetMap for one attribute of the label map. */
    method CollectLabels(attribute: Attribute, labels: seq<Label>, targets: ListMultimap<ConfiguredTarget>,
                         ghost events: seq<Event>, ghost before: seq<Event>)
      returns (targets': ListMultimap<ConfiguredTarget>, ghost events': seq<Event>, fatal: Option<Fatal>)
      requires reporter.events == before + events
      modifies reporter
      ensures Fold(attribute.name, LabelSteps(env, attribute, labels), Outcome(targets, events, None))
        == Outcome(targets', events', fatal)
      ensures reporter.events == before + events'
    {
      ghost var steps := LabelSteps(env, attribute, labels);
      targets', events' := targets, events;
      assert steps[0..] == steps;
      for j := 0 to |labels|
        invariant Fold(attribute.name, steps, Outcome(targets, events, None))
          == Fold(attribute.name, steps[j..], Outcome(targets', events', None))
        invariant reporter.events == before + events'
      {
        assert steps[j..][1..] == steps[j + 1..];
        var step := AddLabel(attribute, labels, j);
        events' := events' + step.events;
        if step.kept.Some? {
          targets' := Put(targets', attribute.name, step.kept.value);
        }
        if step.fatal.Some? {
          FoldAbsorb(attribute.name, steps[j + 1..], Outcome(targets', events', step.fatal));
          return targets', events', step.fatal;
        }
      }
      assert steps[|labels|..] == [];
      return targets', events', None;
    }

    /**
     * createTargetMap: for every attribute of the label map and every label,
     * resolve, filter, validate and store; then the deps/abi_deps check.
     */
    method CreateTargetMap() returns (r: Result<ListMultimap<ConfiguredTarget>>)
      modifies reporter
      ensures var o := TargetMapOutcome(env, labelMap);
        && reporter.events == old(reporter.events) + o.events
        && (r.Fail? <==> o.fatal.Some?)
        && (r.Fail? ==> r.fatal == o.fatal.value)
        && (r.Ok? ==> r.value == o.multimap)
    {
      ghost var final := TargetEntries(env, labelMap, Start());
      var targets: ListMultimap<ConfiguredTarget> := map[];
      ghost var events: seq<Event> := [];
      for i := 0 to |labelMap|
        invariant TargetEntries(env, labelMap[i..], Outcome(targets, events, None)) == final
        invariant reporter.events == old(reporter.events) + events
      {
        assert labelMap[i..][1..] == labelMap[i + 1..];
        var fatal;
        targets, events, fatal := CollectLabels(labelMap[i].attr, labelMap[i].labels, targets, events, old(reporter.events));
        if fatal.Some? {
          TargetEntriesAbsorb(env, labelMap[i + 1..], Outcome(targets, events, fatal));
          return Fail(fatal.value);
        }
      }
      assert labelMap[|labelMap|..] == [];
      if AttributeDefinition(env.rule, "abi_deps").Some? && "abi_deps" in env.rule.explicitlySpecified
         && "deps" in env.rule.explicitlySpecified {
        reporter.Report(AttributeErrorEvent(env.rule, "deps", AbiDepsConflict));
      }
      return Ok(targets);
    }

    /** The file list of a fileset entry, resolved label by label. */
    method ResolveFiles(attr: Attribute, files: seq<Label>) returns (r: Result<seq<ConfiguredTarget>>)
      ensures r == ResolvedFiles(env, attr, files)
    {
      var cts: seq<ConfiguredTarget> := [];
      for j := 0 to |files|
        invariant ResolvedFilesFrom(env, attr, files[j..], cts) == ResolvedFiles(env, attr, files)
      {
        assert files[j..][1..] == files[j + 1..];
        var p := Resolve(env, attr, files[j]);
        if p.Fail? {
          return Fail(p.fatal);
        }
        if p.value.None? {
          return Fail(NullPrerequisite(files[j]));
        }
        cts := cts + [p.value.value.ct];
      }
      assert files[|files|..] == [];
      return Ok(cts);
    }

    /** The body of createFilesetEntryMap's entry loop. */
    method AddFilesetEntry(attr: Attribute, entry: FilesetEntry) returns (s: Step<ConfiguredFilesetEntry>)
      modifies reporter
      ensures s == EntryStep(env, attr, entry)
      ensures reporter.events == old(reporter.events) + s.events
    {
      if entry.files.None? {
        var src := Resolve(env, attr, entry.srcLabel);
        if src.Fail? {
          return Step(None, [], Some(src.fatal));
        }
        if src.value.None? {
          return Step(None, [], Some(NullPrerequisite(entry.srcLabel)));
        }
        var ok := ValidateFilesetEntry(entry, src.value.value);
        var events := FilesetEntryCheck(env.rule, entry, src.value.value).events;
        if !ok {
          return Step(None, events, None);
        }
        return Step(Some(ConfiguredFilesetEntry(entry, WholeTarget(src.value.value.ct))), events, None);
      } else {
        var files := ResolveFiles(attr, entry.files.value);
        if files.Fail? {
          return Step(None, [], Some(files.fatal));
        }
        return Step(Some(ConfiguredFilesetEntry(entry, FileList(files.value))), [], None);
      }
    }

    /** The step of the entry at position `j` of an attribute's entries. */
    method AddEntry(attr: Attribute, entries: seq<FilesetEntry>, j: nat) returns (s: Step<ConfiguredFilesetEntry>)
      requires j < |entries|
      modifies reporter
      ensures s == EntrySteps(env, attr, entries)[j]
      ensures reporter.events == old(reporter.events) + s.events
    {
      s := AddFilesetEntry(attr, entries[j]);
      EntryStepsAt(env, attr, entries, j);
    }

    /** The entry loop of createFilesetEntryMap for one fileset-entry-list attribute. */
    method CollectEntries(attr: Attribute, entries: seq<FilesetEntry>, entryMap: ListMultimap<ConfiguredFilesetEntry>,
                          ghost events: seq<Event>, ghost before: seq<Event>)
      returns (entryMap': ListMultimap<ConfiguredFilesetEntry>, ghost events': seq<Event>, fatal: Option<Fatal>)
      requires reporter.events == before + events
      modifies reporter
      ensures Fold(attr.name, EntrySteps(env, attr, entries), Outcome(entryMap, events, None))
        == Outcome(entryMap', events', fatal)
      ensures reporter.events == before + events'
    {
      ghost var steps := EntrySteps(env, attr, entries);
      entryMap', events' := entryMap, events;
      assert steps[0..] == steps;
      for j := 0 to |entries|
        invariant Fold(attr.name, steps, Outcome(entryMap, events, None))
          == Fold(attr.name, steps[j..], Outcome(entryMap', events', None))
        invariant reporter.events == before + events'
      {
        assert steps[j..][1..] == steps[j + 1..];
        var step := AddEntry(attr, entries, j);
        events' := events' + step.events;
        if step.kept.Some? {
          entryMap' := Put(entryMap', attr.name, step.kept.value);
        }
        if step.fatal.Some? {
          FoldAbsorb(attr.name, steps[j + 1..], Outcome(entryMap', events', step.fatal));
          return entryMap', events', step.fatal;
        }
      }
      assert steps[|entries|..] == [];
      return entryMap', events', None;
    }

    /**
     * createFilesetEntryMap: for every fileset-entry-list attribute of the rule
     * and every entry, resolve and check its source, or resolve its file list.
     */
    method CreateFilesetEntryMap() returns (r: Result<ListMultimap<ConfiguredFilesetEntry>>)
      modifies reporter
      ensures var o := FilesetMapOutcome(env);
        && reporter.events == old(reporter.events) + o.events
        && (r.Fail? <==> o.fatal.Some?)
        && (r.Fail? ==> r.fatal == o.fatal.value)
        && (r.Ok? ==> r.value == o.multimap)
    {
      var attrs := env.rule.attributes;
      ghost var final := FilesetMapOutcome(env);
      var entryMap: ListMultimap<ConfiguredFilesetEntry> := map[];
      ghost var events: seq<Event> := [];
      for i := 0 to |attrs|
        invariant FilesetAttributes(env, attrs[i..], Outcome(entryMap, events, None)) == final
        invariant reporter.events == old(reporter.events) + events
      {
        assert attrs[i..][1..] == attrs[i + 1..];
        var attr := attrs[i];
        if attr.kind != FilesetEntryListType {
          continue;
        }
        var fatal;
        entryMap, events, fatal := CollectEntries(attr, FilesetEntriesOf(env.rule, attr.name), entryMap, events, old(reporter.events));
        if fatal.Some? {
          FilesetAttributesAbsorb(env, attrs[i + 1..], Outcome(entryMap, events, fatal));
          return Fail(fatal.value);
        }
      }
      assert attrs[|attrs|..] == [];
      return Ok(entryMap);
    }

    /**
     * build: the dependency map, then the fileset entry map, then the rule
     * context over both; the first contract violation stops the build.
     */
    method Build() returns (r: Result<RuleContext>)
      modifies reporter
      ensures var t := TargetMapOutcome(env, labelMap);
        var f := FilesetMapOutcome(env);
        && (t.fatal.Some? ==> r == Fail(t.fatal.value) && reporter.events == old(reporter.events) + t.events)
        && (t.fatal.None? && f.fatal.Some? ==>
              r == Fail(f.fatal.value) && reporter.events == old(reporter.events) + t.events + f.events)
        && (t.fatal.None? && f.fatal.None? ==>
              && r.Ok? && fresh(r.value)
              && r.value.rule == env.rule && r.value.configuration == env.configuration
              && r.value.targetMap == t.multimap && r.value.filesetEntryMap == f.multimap
              && r.value.reporter == reporter && r.value.Valid() && r.value.actionOwner.None?
              && reporter.events == old(reporter.events) + t.events + f.events)
    {
      var targetMap := CreateTargetMap();
      if targetMap.Fail? {
        return Fail(targetMap.fatal);
      }
      var filesetEntryMap := CreateFilesetEntryMap();
      if filesetEntryMap.Fail? {
        return Fail(filesetEntryMap.fatal);
      }
      var context := new RuleContext(env.rule, env.configuration, reporter, targetMap.value, filesetEntryMap.value);
      return Ok(context);
    }
  }
}
