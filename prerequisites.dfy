/**
 * Resolving one label of one attribute into an analysed dependency, and the
 * full validation a direct dependency goes through before it is kept.
 */
module Prerequisites {
  import opened Packages
  import opened Analysis
  import opened Diagnostics
  import opened Validation

  /**
   * What the builder is given from outside: the rule and its configuration,
   * the loaded targets (a miss is fatal), the configuration transition for
   * this rule and configuration, the precomputed prerequisite map (keyed by
   * label and configuration, None being the null configuration of an input
   * file; a miss is fatal) and the injected prerequisite validator, given as
   * the diagnostics it reports for a dependency.
   */
  datatype BuildEnv = BuildEnv(
    rule: Rule,
    configuration: Config,
    loaded: map<Label, Target>,
    configureTarget: (Attribute, Target) -> Option<Config>,
    prerequisites: map<(Label, Option<Config>), Prerequisite>,
    validator: (Attribute, Prerequisite) -> seq<Event>)

  /**
   * getPrerequisite: Ok(None) is the absent dependency of a rule or output
   * file that has no configuration; everything else goes to the checked lookup.
   */
  function Resolve(env: BuildEnv, attr: Attribute, id: Label): (r: Result<Option<Prerequisite>>)
    ensures id !in env.loaded ==> r == Fail(TargetNotLoaded(id))
    ensures r == Ok(None) <==>
      id in env.loaded && env.configureTarget(attr, env.loaded[id]).None?
      && (env.loaded[id].RuleTarget? || env.loaded[id].OutputFile?)
    ensures r.Ok? && r.value.Some? ==>
      var key := (id, env.configureTarget(attr, env.loaded[id]));
      key in env.prerequisites && r.value.value == env.prerequisites[key]
    ensures r.Fail? ==> r.fatal == TargetNotLoaded(id) || r.fatal == PrerequisiteMissing(id)
    ensures r == Fail(PrerequisiteMissing(id)) ==>
      id in env.loaded && (id, env.configureTarget(attr, env.loaded[id])) !in env.prerequisites
    ensures id in env.loaded && r != Ok(None) ==>
      var key := (id, env.configureTarget(attr, env.loaded[id]));
      key in env.prerequisites ==> r == Ok(Some(env.prerequisites[key]))
  {
    if id !in env.loaded then Fail(TargetNotLoaded(id))
    else
      var target := env.loaded[id];
      var to := env.configureTarget(attr, target);
      if to.None? && (target.RuleTarget? || target.OutputFile?) then Ok(None)
      else if (id, to) in env.prerequisites then Ok(Some(env.prerequisites[(id, to)]))
      else Fail(PrerequisiteMissing(id))
  }

  /** What validating a direct dependency reported, and whether it stopped on a contract violation. */
  datatype Validated = Validated(events: seq<Event>, fatal: Option<Fatal>)

  /**
   * validateDirectPrerequisite: type checks, then file-type checks, then the
   * injected validator. A dependency without a file provider stops the
   * file-type checks fatally, after the type diagnostics were reported.
   */
  function Validate(env: BuildEnv, attr: Attribute, p: Prerequisite): (v: Validated)
    ensures v.fatal.Some? <==> !FileTypeCheckSkipped(attr) && p.ct.files.None?
    ensures v.fatal.Some? ==>
      v.fatal == Some(MissingProvider(p.ct.id)) && v.events == TypeDiagnostics(env.rule, attr, p.target)
  {
    var typeEvents := TypeDiagnostics(env.rule, attr, p.target);
    match FileTypeDiagnostics(env.rule, attr, p.ct)
    case Fail(f) => Validated(typeEvents, Some(f))
    case Ok(fileEvents) => Validated(typeEvents + fileEvents + env.validator(attr, p), None)
  }

  /**
   * The diagnostics of a dependency that passes through: the type diagnostics
   * first, the injected validator's last, and at most one file-type error
   * between them.
   */
  lemma ValidateEvents(env: BuildEnv, attr: Attribute, p: Prerequisite)
    requires Validate(env, attr, p).fatal.None?
    ensures var v := Validate(env, attr, p);
      var typeEvents := TypeDiagnostics(env.rule, attr, p.target);
      var custom := env.validator(attr, p);
      |typeEvents| + |custom| <= |v.events| <= |typeEvents| + 1 + |custom|
      && v.events[..|typeEvents|] == typeEvents
      && v.events[|v.events| - |custom|..] == custom
      && v.events[|typeEvents|..|v.events| - |custom|] == FileTypeDiagnostics(env.rule, attr, p.ct).value
  {
    var v := Validate(env, attr, p);
    var typeEvents := TypeDiagnostics(env.rule, attr, p.target);
    var fileEvents := FileTypeDiagnostics(env.rule, attr, p.ct).value;
    var custom := env.validator(attr, p);
    assert v.events == typeEvents + fileEvents + custom;
  }
}
