# RuleContext: the per-rule analysis context of the build tool

This project models `RuleContext.java`, the object that the analysis phase
hands to each rule implementation. Its nested `Builder` does four things:

- It turns each attribute's declared labels into already-analysed
  dependencies (configured targets). It resolves each label in the
  configuration its attribute's transition gives.
- It drops the dependencies that a silent rule-class filter rejects.
- It runs every kept dependency through the direct-prerequisite checks.
- It stores the kept dependencies, in declaration order, in a multimap from
  attribute name to list. A second multimap holds the configured fileset
  entries.

The finished `RuleContext` answers typed queries against those maps:

- dependencies, single dependencies, flattened artifacts, the single source,
  executables and the compiler;
- output artifacts;
- Make-variable expansion and tokenization;
- the same-package and visibility checks.

It reports diagnostics through the same formatting path as the builder.

The model keeps the source's two failure channels apart:

- **Diagnostics** are user errors and warnings. They live in an append-only
  `Reporter.events` of structured `Event`s: severity, location, rule, subject
  (an attribute or the rule) and detail. `Diagnostics.Message` renders the
  text the source builds.
- **Contract violations** are the source's `IllegalStateException`s,
  `checkNotNull` failures, `AssertionError`s and null dereferences. They are
  the `Fatal` values of a `Result`, or of an `Option<Fatal>` for members that
  return nothing else.

Modules follow the structure of the source:

| module | holds |
|---|---|
| `Packages` | loading-phase values: labels, targets, attributes, rules, file-type and rule-class sets, package specifications |
| `Analysis` | analysis-phase values: configurations, artifacts, configured targets, the list multimap, `Fatal` and `Result` |
| `Diagnostics` | message prefixing and masking, events, and the `Reporter` class |
| `Artifacts` | the `LinkedHashSet` flattening of files to build (concatenate, drop duplicates, keep first-seen order) |
| `Validation` | the decision trees of `validateDirectPrerequisiteType`, `validateDirectPrerequisiteFileTypes`, `reportBadPrerequisite` and `validateFilesetEntry`, as pure functions giving the diagnostics they report |
| `Prerequisites` | `Builder.getPrerequisite` as a function over a `BuildEnv` (loaded targets, configuration transition, prerequisite map, injected validator), and the whole `validateDirectPrerequisite` |
| `RuleContexts` | the `RuleContext` class, its queries, and `isVisible` |
| `Builders` | the `Builder` class with the `createTargetMap` and `createFilesetEntryMap` loops. Each loop is proved equal to a fold over per-label (or per-entry) steps. A step says what is kept, what is reported and whether the build stops. |
| `BuilderProperties` | what those folds compute: the surviving dependencies per attribute, in order; the accepted fileset entries; the first violation stops the build; and so on |

In these places the code does something other than the stricter behaviour one might expect from its
documentation, and the model follows the code:

- **Null configuration.** A label whose transition yields no configuration
  resolves to an absent dependency when its target is a rule or an output
  file (`RuleContext.java:890-894`), not to a contract violation. Any other target with no configuration goes
  to the checked lookup, where a miss is fatal.
- **Missing file provider.** `validateDirectPrerequisiteFileTypes` calls
  `getFilesToBuild()` on the file provider without checking it for null
  (`RuleContext.java:1187`), so the check is not skipped when there is no
  provider. In the model, a dependency without a
  provider is the fatal `MissingProvider`, after its type diagnostics were
  reported. The same holds for `transitiveInfoCollectionToArtifact` (line
  629) and `isVisible` (lines 844-845).
- **Unchecked dereferences of absent values.** These paths dereference a
  null prerequisite, so each is the fatal `NullPrerequisite`:
  - the silent-filter path of `createTargetMap` (line 1021);
  - the source directory of a fileset entry (line 991);
  - each label of an explicit file list (line 1000).
- **Unrunnable executable.** `getExecutablePrerequisite` reports an
  executable dependency that cannot run. It still returns that dependency's
  files-to-run provider, which may be present (lines 418-423), rather than
  returning absent.
- **Compiler label.** `getCompiler(true)` calls `equals` on the compiler
  label without checking it for null (line 744). A missing label is therefore
  the fatal `NullAttributeValue`.

## Model

| member | source | states |
|---|---|---|
| Packages.FindAttribute | src/main/java/com/google/devtools/build/lib/view/RuleContext.java:532-533 | the attribute definition found has the name asked for and belongs to the rule; None only when no attribute has that name |
| Analysis.Put | src/main/java/com/google/devtools/build/lib/view/RuleContext.java:938-940 | putting into the multimap appends the value to its key's list, leaves every other key's list alone, and adds exactly that key |
| Diagnostics.MaskInternalAttributeName | src/main/java/com/google/devtools/build/lib/view/RuleContext.java:1052-1054 | the shown name is never implicit; it is the name itself or "(an implicit dependency)", and it differs from the name exactly when the name is implicit |
| Diagnostics.PrefixAttributeMessage | src/main/java/com/google/devtools/build/lib/view/RuleContext.java:1056-1059 | the text is "in ", the masked attribute name, " attribute of ", the rule class, " rule ", the label, ": " and the message, each at its position, with the exact length |
| Diagnostics.PrefixRuleMessage | src/main/java/com/google/devtools/build/lib/view/RuleContext.java:258-261 | the text is "in ", the rule class, " rule ", the label, ": " and the message, each at its position |
| Diagnostics.Message | src/main/java/com/google/devtools/build/lib/view/RuleContext.java:1061-1083 | every reported diagnostic's text starts with "in " and ends with its detail; an attribute diagnostic has the masked name, " attribute of " and the rule class in place, a rule diagnostic the rule class and " rule ", each with the exact length |
| Diagnostics.Reporter.constructor | src/main/java/com/google/devtools/build/lib/view/RuleContext.java:864-871 | a new reporter holds no diagnostics |
| Diagnostics.Reporter.Report | src/main/java/com/google/devtools/build/lib/view/RuleContext.java:1061-1075 | reporting appends exactly one diagnostic and changes no earlier one |
| Diagnostics.Reporter.ReportAll | src/main/java/com/google/devtools/build/lib/view/RuleContext.java:1061-1075 | reporting several appends them in order and changes no earlier one |
| Artifacts.FlattenMembership | src/main/java/com/google/devtools/build/lib/view/RuleContext.java:566-572 | an artifact is among the flattened files exactly when some dependency's files to build contain it |
| Artifacts.Dedup | src/main/java/com/google/devtools/build/lib/view/RuleContext.java:567-571 | the linked-hash-set result has no duplicates, holds exactly the elements of its input, and is no longer |
| Artifacts.FirstIndex | src/main/java/com/google/devtools/build/lib/view/RuleContext.java:567-571 | the first position of an element: it is there, and not before |
| Artifacts.FirstIndexUnique | src/main/java/com/google/devtools/build/lib/view/RuleContext.java:567-571 | a position holding the element with no earlier occurrence is its first position |
| Artifacts.FirstIndexAppend | src/main/java/com/google/devtools/build/lib/view/RuleContext.java:567-571 | appending an element moves no earlier element's first position |
| Artifacts.DedupKeepsFirstSeenOrder | src/main/java/com/google/devtools/build/lib/view/RuleContext.java:567-571 | the result lists elements in the order of their first occurrence in the input |
| Artifacts.DedupOfDistinct | src/main/java/com/google/devtools/build/lib/view/RuleContext.java:567-571 | an input without duplicates is returned unchanged |
| Artifacts.DedupAppend | src/main/java/com/google/devtools/build/lib/view/RuleContext.java:569 | adding one more artifact to the set appends it exactly when it was not yet seen |
| Artifacts.FilterByType | src/main/java/com/google/devtools/build/lib/view/RuleContext.java:583-587 | an artifact is kept exactly when it is in the input and its filename matches the file types; the result is no longer than the input |
| Artifacts.FilterByTypeNoDuplicates | src/main/java/com/google/devtools/build/lib/view/RuleContext.java:583-587 | filtering a set of artifacts without duplicates gives none |
| Artifacts.FilterByTypeAppend | src/main/java/com/google/devtools/build/lib/view/RuleContext.java:583-587 | filtering a concatenation filters its parts in turn, so the kept artifacts keep their input order |
| Artifacts.FilterByTypeSingle | src/main/java/com/google/devtools/build/lib/view/RuleContext.java:583-587 | a single artifact is kept exactly when its filename matches |
| Validation.BadPrerequisite | src/main/java/com/google/devtools/build/lib/view/RuleContext.java:1085-1097 | the diagnostic sits at the attribute's location and is a warning exactly when only a warning is due |
| Validation.ValidityDiagnostics | src/main/java/com/google/devtools/build/lib/view/RuleContext.java:1103-1111 | at most one diagnostic; one exactly when the validity predicate gives a reason; it is then an error about a rule dependency |
| Validation.ClassifyBadFile | src/main/java/com/google/devtools/build/lib/view/RuleContext.java:1126-1138 | "does not exist" (rule or target) exactly for a missing input file; "rule does not exist" exactly when, in addition, no file types are allowed and the name has no dot |
| Validation.StrictDiagnostics | src/main/java/com/google/devtools/build/lib/view/RuleContext.java:1113-1146 | at most one diagnostic, none without strict checking; a rule gets one exactly when its class is not allowed, and it is a warning exactly when the warning tier admits the class; a file gets one exactly when its name fails the file types, and it is the classified error |
| Validation.TypeDiagnostics | src/main/java/com/google/devtools/build/lib/view/RuleContext.java:1099-1147 | at most two diagnostics, all at the attribute's location: the validity diagnostics first, then the strict-checking diagnostics, so a validity error does not stop strict checking |
| Validation.FileTypeDiagnostics | src/main/java/com/google/devtools/build/lib/view/RuleContext.java:1169-1202 | nothing when the check is skipped (opt-out, any file type without non-empty or single-artifact, or no file type); fatal exactly when it is not skipped and the dependency has no file provider; otherwise at most one error; "must produce a single file" when a single artifact is required and the count differs; otherwise no error exactly when some artifact matches the file types |
| Validation.FilesetEntryCheck | src/main/java/com/google/devtools/build/lib/view/RuleContext.java:947-970 | rejected exactly when the source is neither a fileset, nor a source fileset, nor a file, and then with one error; an output file that is not a fileset is accepted with exactly one warning; an accepted entry gets no other diagnostic; an input file, a fileset or a source fileset passes silently |
| Prerequisites.Resolve | src/main/java/com/google/devtools/build/lib/view/RuleContext.java:873-895 | an unloaded label is fatal; the result is absent exactly when the target is loaded, its transition yields no configuration, and it is a rule or an output file; otherwise a prerequisite-map hit gives that entry and only a miss gives PrerequisiteMissing; there are no other failures |
| Prerequisites.Validate | src/main/java/com/google/devtools/build/lib/view/RuleContext.java:1204-1208 | validation stops exactly when the file-type check is not skipped and the dependency has no file provider, with MissingProvider after the type diagnostics only |
| Prerequisites.ValidateEvents | src/main/java/com/google/devtools/build/lib/view/RuleContext.java:1204-1208 | when validation does not stop, its diagnostics are the type diagnostics, then the file-type check's (at most one error), then the injected validator's |
| RuleContexts.CheckAttribute | src/main/java/com/google/devtools/build/lib/view/RuleContext.java:531-556 | passes exactly when the attribute is defined and the mode fits its transition; an undefined attribute is always fatal, and a defined one fails only with the wrong-configuration violation |
| RuleContexts.ModeCheckMatchesTransition | src/main/java/com/google/devtools/build/lib/view/RuleContext.java:537-555 | for a defined attribute, TARGET, HOST and DATA pass exactly when the transition is NONE, HOST or DATA respectively, and DONT_CHECK always passes |
| RuleContexts.OwnerOf | src/main/java/com/google/devtools/build/lib/view/RuleContext.java:153-196 | the action owner names the rule and the configuration's cache key, and has progress information exactly for a host configuration |
| RuleContexts.ExpandValuesPointwise | src/main/java/com/google/devtools/build/lib/view/RuleContext.java:504-510 | the i-th result is the i-th value expanded, or the value itself where expansion fails; at most one diagnostic per value, each an error about the attribute |
| RuleContexts.ExpandValuesQuiet | src/main/java/com/google/devtools/build/lib/view/RuleContext.java:504-510 | no diagnostic is reported exactly when every value expands |
| RuleContexts.ForeignSourceEvents | src/main/java/com/google/devtools/build/lib/view/RuleContext.java:677-699 | at most one diagnostic per source file |
| RuleContexts.ForeignSourceEventsExactly | src/main/java/com/google/devtools/build/lib/view/RuleContext.java:677-699 | one diagnostic per source file owned by another package, each about "srcs" with the requested severity, and none exactly when all sources are local |
| RuleContexts.ForeignSourceEventsNames | src/main/java/com/google/devtools/build/lib/view/RuleContext.java:679-697 | every foreign source file gets its own import diagnostic, and every diagnostic is the import diagnostic of a foreign source file |
| RuleContexts.CollectFiles | src/main/java/com/google/devtools/build/lib/view/RuleContext.java:566-572 | the accumulated files are the deduplicated flattening of the dependencies' files |
| RuleContexts.AddFiles | src/main/java/com/google/devtools/build/lib/view/RuleContext.java:569 | adding one dependency's files to the set gives the deduplication of everything seen so far |
| RuleContexts.IsVisible | src/main/java/com/google/devtools/build/lib/view/RuleContext.java:842-852 | a dependency without visibility information is fatal; otherwise visible exactly when one of its visibility specifications contains the rule's package |
| RuleContexts.RuleContext.constructor | src/main/java/com/google/devtools/build/lib/view/RuleContext.java:88-96 | the context holds the builder's rule, configuration, reporter and both maps, and no action owner yet |
| RuleContexts.RuleContext.GetActionOwner | src/main/java/com/google/devtools/build/lib/view/RuleContext.java:133-138 | the owner is built on first use and the same one is returned ever after |
| RuleContexts.RuleContext.RuleError | src/main/java/com/google/devtools/build/lib/view/RuleContext.java:208-215 | appends exactly one rule error at the rule's location |
| RuleContexts.RuleContext.RuleWarning | src/main/java/com/google/devtools/build/lib/view/RuleContext.java:217-219 | appends exactly one rule warning at the rule's location |
| RuleContexts.RuleContext.AttributeError | src/main/java/com/google/devtools/build/lib/view/RuleContext.java:229-242 | appends exactly one error at the attribute's location |
| RuleContexts.RuleContext.AttributeWarning | src/main/java/com/google/devtools/build/lib/view/RuleContext.java:244-250 | appends exactly one warning at the attribute's location |
| RuleContexts.RuleContext.Prerequisites | src/main/java/com/google/devtools/build/lib/view/RuleContext.java:318-321 | succeeds exactly when the mode check passes, with the attribute's dependencies in stored order |
| RuleContexts.RuleContext.InternalGetPrerequisite | src/main/java/com/google/devtools/build/lib/view/RuleContext.java:344-363 | a defined attribute that is not a label or label list is fatal; a checked label attribute fails exactly when it has more than one dependency; on success, absent exactly for none, otherwise the only one |
| RuleContexts.RuleContext.PrerequisiteArtifacts | src/main/java/com/google/devtools/build/lib/view/RuleContext.java:566-572 | fails exactly when the mode check fails, with its violation; otherwise the deduplicated, first-seen-order concatenation of every dependency's files |
| RuleContexts.RuleContext.PrerequisiteArtifactsOfType | src/main/java/com/google/devtools/build/lib/view/RuleContext.java:583-587 | the same artifacts, keeping those matching the file types |
| RuleContexts.RuleContext.TransitiveInfoCollectionToArtifact | src/main/java/com/google/devtools/build/lib/view/RuleContext.java:626-637 | no dependency gives absent silently; no file provider is fatal; exactly one file is returned; any other count gives absent and one "expected a single artifact" error |
| RuleContexts.RuleContext.PrerequisiteArtifact | src/main/java/com/google/devtools/build/lib/view/RuleContext.java:612-615 | a failing single-dependency lookup is passed on without a diagnostic and no dependency gives absent; for a dependency without a file provider it is fatal, with exactly one file it returns that file, and with any other count it gives absent and one "expected a single artifact" error |
| RuleContexts.RuleContext.HostPrerequisiteArtifact | src/main/java/com/google/devtools/build/lib/view/RuleContext.java:621-624 | the same cases as PrerequisiteArtifact for the HOST dependency: fatal when the attribute does not fit HOST or has no file provider, the only file, or absent with one "expected a single artifact" error |
| RuleContexts.RuleContext.SingleSource | src/main/java/com/google/devtools/build/lib/view/RuleContext.java:644-655 | zero "srcs" files give absent and no diagnostic; one is returned; more give the first plus exactly one "srcs" error |
| RuleContexts.RuleContext.DefaultSingleSource | src/main/java/com/google/devtools/build/lib/view/RuleContext.java:657-659 | fails exactly on the "srcs" mode check, without a diagnostic; zero files give absent silently, one is returned, more give the first plus exactly one error naming the rule class's source file |
| RuleContexts.RuleContext.ExecutablePrerequisite | src/main/java/com/google/devtools/build/lib/view/RuleContext.java:401-424 | an undefined or non-executable attribute is fatal; at most one error is appended, none on failure; an absent dependency is returned as absent with nothing reported; a dependency without an executable is reported and its files-to-run provider is still returned |
| RuleContexts.RuleContext.Compiler | src/main/java/com/google/devtools/build/lib/view/RuleContext.java:742-748 | when asked to warn: a missing compiler label is fatal, and a non-default one is warned about first; without that warning only errors are added; otherwise, after the optional warning, every outcome of the host "compiler" executable lookup: undefined or non-executable attribute, the lookup's violation, an absent dependency, or its files-to-run provider with one "not an executable" error when it cannot run |
| RuleContexts.RuleContext.ReportForeignSources | src/main/java/com/google/devtools/build/lib/view/RuleContext.java:680-698 | the loop reports exactly the foreign-source diagnostics of the files, in order |
| RuleContexts.RuleContext.CheckSrcsSamePackage | src/main/java/com/google/devtools/build/lib/view/RuleContext.java:677-699 | the "srcs" mode check decides failure, and then nothing is reported; otherwise exactly the foreign-source diagnostics of the "srcs" files |
| RuleContexts.RuleContext.LocalNodepLabelAttribute | src/main/java/com/google/devtools/build/lib/view/RuleContext.java:707-718 | returns the attribute's label, with one warning exactly when it lies in another package |
| RuleContexts.RuleContext.BinOrGenfilesDirectory | src/main/java/com/google/devtools/build/lib/view/RuleContext.java:307-311 | the bin tree exactly for rules with binary output, otherwise genfiles, both of the rule's configuration |
| RuleContexts.RuleContext.CreateOutputArtifact | src/main/java/com/google/devtools/build/lib/view/RuleContext.java:286-299 | a derived artifact at the output's workspace path under the bin or genfiles root |
| RuleContexts.RuleContext.OutputArtifacts | src/main/java/com/google/devtools/build/lib/view/RuleContext.java:758-764 | one derived artifact per declared output, in order |
| RuleContexts.RuleContext.OutputArtifact | src/main/java/com/google/devtools/build/lib/view/RuleContext.java:789-798 | absent exactly for no outputs, otherwise the first output's artifact; one "exactly one output" error exactly when the count is not one |
| RuleContexts.RuleContext.ImplicitOutputArtifact | src/main/java/com/google/devtools/build/lib/view/RuleContext.java:724-730 | succeeds exactly when the template gives one path, which then lies in the rule's package under the bin or genfiles root |
| RuleContexts.RuleContext.ExpandMakeVariables | src/main/java/com/google/devtools/build/lib/view/RuleContext.java:474-499 | the expansion on success, with no diagnostic; on failure exactly one attribute error and the expression unchanged |
| RuleContexts.RuleContext.ExpandSingleMakeVariable | src/main/java/com/google/devtools/build/lib/view/RuleContext.java:521-529 | the single variable's value on success; on failure exactly one attribute error and the expression unchanged |
| RuleContexts.RuleContext.ExpandedMakeVariablesList | src/main/java/com/google/devtools/build/lib/view/RuleContext.java:504-510 | the loop gives the pointwise expansion of the string list and its diagnostics |
| RuleContexts.RuleContext.TokenizeAndExpandMakeVars | src/main/java/com/google/devtools/build/lib/view/RuleContext.java:455-462 | appends the value's tokens after expansion; a tokenization failure is one more error and keeps the tokens found before it |
| RuleContexts.RuleContext.TokenizedStringListAttr | src/main/java/com/google/devtools/build/lib/view/RuleContext.java:434-448 | nothing for an attribute that is not a string list; otherwise the tokens of every value in order, with their diagnostics |
| Builders.FoldAbsorb | src/main/java/com/google/devtools/build/lib/view/RuleContext.java:1012-1046 | once a contract violation has stopped the build, the remaining steps change nothing |
| Builders.LabelStep | src/main/java/com/google/devtools/build/lib/view/RuleContext.java:1016-1035 | a resolution failure stops the build; an absent dependency stops a silent-filter attribute and is skipped otherwise; a filtered-out one is dropped without a diagnostic; any other dependency reports its validation diagnostics, stops exactly when validation stops, with the same violation, and is kept exactly when it does not; a kept dependency is the resolved one and passes the silent filter |
| Builders.LabelStepsAt | src/main/java/com/google/devtools/build/lib/view/RuleContext.java:1019-1034 | the i-th step of an attribute is the step of its i-th label |
| Builders.TargetEntriesAbsorb | src/main/java/com/google/devtools/build/lib/view/RuleContext.java:1015-1036 | once stopped, the remaining attributes change nothing |
| Builders.AbiDepsEvents | src/main/java/com/google/devtools/build/lib/view/RuleContext.java:1040-1044 | exactly one "deps" error when "abi_deps" is defined and both "abi_deps" and "deps" are given explicitly, none otherwise |
| Builders.EntryStep | src/main/java/com/google/devtools/build/lib/view/RuleContext.java:984-1003 | a file-list entry reports nothing, stops with the resolution's violation when a file fails, and is otherwise kept with its resolved files; a source-directory entry stops exactly when its source fails to resolve (with that violation) or is absent (NullPrerequisite), otherwise reports the entry check's diagnostics and is kept as a whole-target entry exactly when the check accepts it |
| Builders.EntryStepsAt | src/main/java/com/google/devtools/build/lib/view/RuleContext.java:984-1003 | the i-th step of an attribute is the step of its i-th entry |
| Builders.FilesetAttributesAbsorb | src/main/java/com/google/devtools/build/lib/view/RuleContext.java:978-1004 | once stopped, the remaining attributes change nothing |
| Builders.Builder.constructor | src/main/java/com/google/devtools/build/lib/view/RuleContext.java:864-871 | the builder holds its environment, label map and reporter |
| Builders.Builder.ValidateDirectPrerequisite | src/main/java/com/google/devtools/build/lib/view/RuleContext.java:1204-1208 | reports exactly the validation diagnostics and stops exactly as validation does |
| Builders.Builder.ValidateFilesetEntry | src/main/java/com/google/devtools/build/lib/view/RuleContext.java:947-970 | reports exactly the entry check's diagnostics and accepts exactly as it does |
| Builders.Builder.AddPrerequisite | src/main/java/com/google/devtools/build/lib/view/RuleContext.java:1019-1034 | one label's resolution, filtering and validation perform its step and report its diagnostics |
| Builders.Builder.AddLabel | src/main/java/com/google/devtools/build/lib/view/RuleContext.java:1019-1034 | the i-th label of an attribute performs the i-th step |
| Builders.Builder.CollectLabels | src/main/java/com/google/devtools/build/lib/view/RuleContext.java:1017-1035 | the label loop of one attribute computes the fold of its steps, and reports exactly the fold's diagnostics |
| Builders.Builder.CreateTargetMap | src/main/java/com/google/devtools/build/lib/view/RuleContext.java:1012-1046 | the dependency map, the diagnostics and the stopping violation are those of the fold over every attribute, followed by the abi_deps check when nothing stopped |
| Builders.Builder.ResolveFiles | src/main/java/com/google/devtools/build/lib/view/RuleContext.java:998-1002 | the loop over an explicit file list resolves every label in order, stopping at the first failure |
| Builders.Builder.AddFilesetEntry | src/main/java/com/google/devtools/build/lib/view/RuleContext.java:984-1003 | one entry performs its step and reports its diagnostics |
| Builders.Builder.AddEntry | src/main/java/com/google/devtools/build/lib/view/RuleContext.java:984-1003 | the i-th entry of an attribute performs the i-th step |
| Builders.Builder.CollectEntries | src/main/java/com/google/devtools/build/lib/view/RuleContext.java:984-1003 | the entry loop of one attribute computes the fold of its steps, and reports exactly the fold's diagnostics |
| Builders.Builder.CreateFilesetEntryMap | src/main/java/com/google/devtools/build/lib/view/RuleContext.java:976-1007 | the fileset entry map, its diagnostics and the stopping violation are those of the fold over every fileset-entry-list attribute |
| Builders.Builder.Build | src/main/java/com/google/devtools/build/lib/view/RuleContext.java:897-901 | a violation while building the dependency map (then the fileset map) stops the build with it; otherwise a new context holding both maps, after reporting the diagnostics of both in order |
| BuilderProperties.KeptOf | src/main/java/com/google/devtools/build/lib/view/RuleContext.java:1012-1046 | the values the steps keep are no more than the steps |
| BuilderProperties.FoldKeys | src/main/java/com/google/devtools/build/lib/view/RuleContext.java:938-940 | folding under one attribute adds no key but that attribute's name |
| BuilderProperties.FoldClean | src/main/java/com/google/devtools/build/lib/view/RuleContext.java:1017-1035 | without a violation, the fold appends exactly the kept values under its attribute, in order, reports every step's diagnostics in order, and leaves every other attribute alone |
| BuilderProperties.FoldAppend | src/main/java/com/google/devtools/build/lib/view/RuleContext.java:1017-1035 | folding a concatenation of steps folds its parts in turn |
| BuilderProperties.KeptOfAppend | src/main/java/com/google/devtools/build/lib/view/RuleContext.java:1017-1035 | the values kept by a concatenation are those kept by its parts, in order |
| BuilderProperties.EventsOfAppend | src/main/java/com/google/devtools/build/lib/view/RuleContext.java:1017-1035 | the diagnostics of a concatenation are those of its parts, in order |
| BuilderProperties.FoldSingle | src/main/java/com/google/devtools/build/lib/view/RuleContext.java:1017-1035 | folding one step applies it once |
| BuilderProperties.FoldStopsAtFirst | src/main/java/com/google/devtools/build/lib/view/RuleContext.java:1017-1035 | the first violating step's violation stops the build, which keeps and reports exactly what the steps up to it did |
| BuilderProperties.FoldFatalIff | src/main/java/com/google/devtools/build/lib/view/RuleContext.java:1017-1035 | the fold completes without a violation exactly when no step has one |
| BuilderProperties.FirstFatal | src/main/java/com/google/devtools/build/lib/view/RuleContext.java:1017-1035 | the first violating step: it violates, and none before it does |
| BuilderProperties.ResolvedFilesFromSpec | src/main/java/com/google/devtools/build/lib/view/RuleContext.java:998-1002 | resolving a file list succeeds exactly when every label resolves to a present dependency, and then appends those dependencies pointwise, in order |
| BuilderProperties.ResolvedFilesSpec | src/main/java/com/google/devtools/build/lib/view/RuleContext.java:998-1002 | an explicit file list resolves exactly when every label resolves to a present dependency, giving those dependencies in order |
| BuilderProperties.Survivors | src/main/java/com/google/devtools/build/lib/view/RuleContext.java:1016-1035 | the surviving dependencies of an attribute are no more than its labels |
| BuilderProperties.KeptOfLabelSteps | src/main/java/com/google/devtools/build/lib/view/RuleContext.java:1016-1035 | the label steps keep exactly the survivors, in declaration order: labels that resolve to a present dependency, pass the silent filter when there is one, and pass validation |
| BuilderProperties.SurvivorsMembership | src/main/java/com/google/devtools/build/lib/view/RuleContext.java:1016-1035 | a dependency survives exactly when some declared label that keeps resolves to it |
| BuilderProperties.SilentFilterAdmitsOnly | src/main/java/com/google/devtools/build/lib/view/RuleContext.java:1017-1027 | under a silent filter every survivor is a rule of an allowed class |
| BuilderProperties.TargetEntriesKeys | src/main/java/com/google/devtools/build/lib/view/RuleContext.java:1015-1036 | the map gains no key but the names of the attributes folded |
| BuilderProperties.TargetEntriesFirst | src/main/java/com/google/devtools/build/lib/view/RuleContext.java:1015-1036 | one attribute folded without a violation appends its survivors under its name and nothing elsewhere |
| BuilderProperties.DistinctEntriesTail | src/main/java/com/google/devtools/build/lib/view/RuleContext.java:1015 | the label map's attribute names stay distinct after its first entry, and none repeats the first |
| BuilderProperties.TargetEntriesContents | src/main/java/com/google/devtools/build/lib/view/RuleContext.java:1015-1036 | without a violation, each attribute's list gains exactly its survivors, and other keys are unchanged |
| BuilderProperties.TargetMapContents | src/main/java/com/google/devtools/build/lib/view/RuleContext.java:1012-1046 | without a violation, the dependency map stores under each attribute exactly its survivors in declaration order, and has no key but the label map's attribute names |
| BuilderProperties.AcceptedEntries | src/main/java/com/google/devtools/build/lib/view/RuleContext.java:984-1003 | the accepted entries are among the attribute's entries, and no more |
| BuilderProperties.EntriesOf | src/main/java/com/google/devtools/build/lib/view/RuleContext.java:984-1003 | the fileset entries behind configured entries, pointwise |
| BuilderProperties.EntriesOfAppend | src/main/java/com/google/devtools/build/lib/view/RuleContext.java:984-1003 | the entries of a concatenation are those of its parts |
| BuilderProperties.KeptEntries | src/main/java/com/google/devtools/build/lib/view/RuleContext.java:984-1003 | without a violation the entry steps keep exactly the accepted entries, in order: file-list entries, and source-directory entries whose source exists and passes the check |
| BuilderProperties.FileListEntryKept | src/main/java/com/google/devtools/build/lib/view/RuleContext.java:998-1002 | a file-list entry that does not stop the build is kept with one resolved dependency per listed file, in order |
| BuilderProperties.FilesetAttributesKeys | src/main/java/com/google/devtools/build/lib/view/RuleContext.java:978-1004 | the map gains no key but the names of fileset-entry-list attributes |
| BuilderProperties.FilesetAttributesContents | src/main/java/com/google/devtools/build/lib/view/RuleContext.java:978-1004 | without a violation, each fileset-entry-list attribute's list gains exactly what its entries keep, and other keys are unchanged |
| BuilderProperties.FilesetMapAttribute | src/main/java/com/google/devtools/build/lib/view/RuleContext.java:976-1007 | without a violation, one fileset-entry-list attribute's list holds exactly its accepted entries, in order |
| BuilderProperties.FilesetMapContents | src/main/java/com/google/devtools/build/lib/view/RuleContext.java:976-1007 | without a violation, each fileset-entry-list attribute holds exactly its accepted entries in order, and the map has no other key |

## Left out

- Reporter, environment and event handler internals: the reporter is the append-only event list; the location, rule and message it prints are fields of each event.
- `registerAction`, `getFragment`, `getOwner`, `getUniqueDirectory`, `getFilesToRun`, `getRelatedArtifact` and `shouldCreateRunfilesSymlinks`: thin delegations to action, configuration and runfiles code that is not part of this model.
- `getDerivedArtifact` and the roots: a derived artifact is a value recording its root, workspace path and owner; the artifact factory and path arithmetic are not modelled.
- `MakeVariableExpander.expand` and `ShellUtils.tokenize`: these are parameters (`expand`, `expandSingle`, `tokenize`) that may fail. The model keeps the error and fallback behaviour around them, not their parsing.
- `BuildConfigurationCollection.configureTarget`, `LoadedPackageProvider.getLoadedTarget` and `PrerequisiteMap.get`: these are the given function `configureTarget` and the finite maps `loaded` and `prerequisites` of `BuildEnv`, where a miss is fatal.
- `InputFile.getPath().exists()`: filesystem I/O, modelled as the target's `onDisk` flag.
- The injected `PrerequisiteValidator.validate`: modelled as a given function from attribute and dependency to the diagnostics it reports.
- File types, rule-class predicates and package specifications: file types are suffix matching over a list of extensions (with distinguished any-file and no-file sets); rule-class predicates are finite class lists; the validity predicate is a finite table from (rule, dependency) to a reason.
- The generic provider queries (`getPrerequisite(attr, mode, Class)` and `getPrerequisites(attr, mode, Class)`): Java class objects are not modelled. The providers the core uses are fields of a configured target: files to build, files to run, visibility.
- The builder's setters: their values are the builder's constructor arguments.
- Builders.Builder.CreateTargetMap: the key order of `ImmutableSortedKeyListMultimap` is not modelled; the multimap is a Dafny map from attribute name to an ordered list, which keeps the per-key insertion order the queries observe.
- Builders.Builder.CollectLabels: the step events of a loop iteration are ghost out-parameters; the reporter's contents carry the same information.
- Builders.Builder.CollectEntries: the step events of a loop iteration are ghost out-parameters; the reporter's contents carry the same information.
- RuleContexts.RuleContext.TransitiveInfoCollectionToArtifact: a provider's files to build are a nested set, whose iteration yields each artifact once; the model takes the list of files as given, so it counts an artifact listed twice twice. Provider file lists are assumed duplicate-free.
- Validation.FileTypeDiagnostics: the single-artifact count rests on the same assumption that a provider's file list has no duplicates.
- Concurrency: the class has none.
