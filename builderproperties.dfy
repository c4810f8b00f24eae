/**
 * What the builder's two maps hold. The fold lemmas say what a run of steps
 * does to a map under construction: without a contract violation every kept
 * value is appended under the attribute's name and every diagnostic is
 * reported, in order; with one, the build stops at the first. The map
 * lemmas then give the contents of the dependency map and of the fileset
 * entry map as filters over the rule's labels and entries.
 */
module BuilderProperties {
  import opened Packages
  import opened Analysis
  import opened Diagnostics
  import opened Validation
  import opened Prerequisites
  import opened Builders

  /** The values the steps store, in order. */
  function KeptOf<V>(steps: seq<Step<V>>): (r: seq<V>)
    ensures |r| <= |steps|
  {
    if |steps| == 0 then []
    else (if steps[0].kept.Some? then [steps[0].kept.value] else []) + KeptOf(steps[1..])
  }

  /** The diagnostics of the steps, in order. */
  function EventsOf<V>(steps: seq<Step<V>>): seq<Event>
  {
    if |steps| == 0 then [] else steps[0].events + EventsOf(steps[1..])
  }

  /** No step violates a contract. */
  predicate Clean<V>(steps: seq<Step<V>>)
  {
    forall i :: 0 <= i < |steps| ==> steps[i].fatal.None?
  }

  /** A fold stores under its own key only. */
  lemma {:induction false} FoldKeys<V>(key: string, steps: seq<Step<V>>, o: Outcome<V>)
    ensures Fold(key, steps, o).multimap.Keys <= o.multimap.Keys + {key}
  {
    if |steps| > 0 {
      FoldKeys(key, steps[1..], Apply(o, key, steps[0]));
    }
  }

  /**
   * Without a contract violation, the fold appends the kept values under its
   * key and every diagnostic, in order, and leaves every other key alone.
   */
  lemma {:induction false} FoldClean<V>(key: string, steps: seq<Step<V>>, o: Outcome<V>)
    requires o.fatal.None? && Clean(steps)
    ensures Fold(key, steps, o).fatal.None?
    ensures Get(Fold(key, steps, o).multimap, key) == Get(o.multimap, key) + KeptOf(steps)
    ensures forall k :: k != key ==> Get(Fold(key, steps, o).multimap, k) == Get(o.multimap, k)
    ensures Fold(key, steps, o).events == o.events + EventsOf(steps)
  {
    if |steps| > 0 {
      var o1 := Apply(o, key, steps[0]);
      assert Clean(steps[1..]) by {
        forall i | 0 <= i < |steps[1..]|
          ensures steps[1..][i].fatal.None?
        {
          assert steps[1..][i] == steps[i + 1];
        }
      }
      FoldClean(key, steps[1..], o1);
    }
  }

  /** Folding a concatenation is folding its parts in turn. */
  lemma {:induction false} FoldAppend<V>(key: string, a: seq<Step<V>>, b: seq<Step<V>>, o: Outcome<V>)
    ensures Fold(key, a + b, o) == Fold(key, b, Fold(key, a, o))
  {
    if |a| > 0 {
      assert (a + b)[1..] == a[1..] + b;
      FoldAppend(key, a[1..], b, Apply(o, key, a[0]));
    } else {
      assert a + b == b;
    }
  }

  lemma {:induction false} KeptOfAppend<V>(a: seq<Step<V>>, b: seq<Step<V>>)
    ensures KeptOf(a + b) == KeptOf(a) + KeptOf(b)
  {
    if |a| > 0 {
      assert (a + b)[1..] == a[1..] + b;
      KeptOfAppend(a[1..], b);
    } else {
      assert a + b == b;
    }
  }

  lemma {:induction false} EventsOfAppend<V>(a: seq<Step<V>>, b: seq<Step<V>>)
    ensures EventsOf(a + b) == EventsOf(a) + EventsOf(b)
  {
    if |a| > 0 {
      assert (a + b)[1..] == a[1..] + b;
      EventsOfAppend(a[1..], b);
    } else {
      assert a + b == b;
    }
  }

  /** A single step: applied once, storing and reporting its own. */
  lemma FoldSingle<V>(key: string, x: Step<V>, o: Outcome<V>)
    ensures Fold(key, [x], o) == Apply(o, key, x)
    ensures KeptOf([x]) == if x.kept.Some? then [x.kept.value] else []
    ensures EventsOf([x]) == x.events
  {
    assert [x][1..] == [];
  }

  /**
   * A fold stops at the first step that violates a contract: its fatal is
   * that step's, and the steps up to and including it were applied.
   */
  lemma {:induction false} FoldStopsAtFirst<V>(key: string, steps: seq<Step<V>>, o: Outcome<V>, k: nat)
    requires o.fatal.None? && k < |steps| && Clean(steps[..k]) && steps[k].fatal.Some?
    ensures Fold(key, steps, o).fatal == steps[k].fatal
    ensures Get(Fold(key, steps, o).multimap, key) == Get(o.multimap, key) + KeptOf(steps[..k + 1])
    ensures Fold(key, steps, o).events == o.events + EventsOf(steps[..k + 1])
  {
    var pre, last := steps[..k], [steps[k]];
    assert steps[..k + 1] == pre + last;
    assert steps == pre + last + steps[k + 1..];
    FoldAppend(key, pre + last, steps[k + 1..], o);
    FoldAppend(key, pre, last, o);
    FoldClean(key, pre, o);
    FoldSingle(key, steps[k], Fold(key, pre, o));
    FoldAbsorb(key, steps[k + 1..], Apply(Fold(key, pre, o), key, steps[k]));
    KeptOfAppend(pre, last);
    EventsOfAppend(pre, last);
  }

  /** Starting clean, a fold ends clean exactly when no step violates a contract. */
  lemma {:induction false} FoldFatalIff<V>(key: string, steps: seq<Step<V>>, o: Outcome<V>)
    requires o.fatal.None?
    ensures Fold(key, steps, o).fatal.None? <==> Clean(steps)
  {
    if Clean(steps) {
      FoldClean(key, steps, o);
    } else {
      var k := FirstFatal(steps);
      FoldStopsAtFirst(key, steps, o, k);
    }
  }

  /** The position of the first step that violates a contract. */
  function FirstFatal<V>(steps: seq<Step<V>>): (k: nat)
    requires !Clean(steps)
    ensures k < |steps| && steps[k].fatal.Some? && Clean(steps[..k])
  {
    if steps[0].fatal.Some? then 0
    else
      var k := FirstFatal(steps[1..]);
      var rest := steps[1..][..k];
      assert forall j :: 0 <= j < k ==> rest[j] == steps[..k + 1][j + 1];
      1 + k
  }

  /** A file list resolves exactly when every label resolves to a present dependency, and then to their configured targets. */
  lemma {:induction false} ResolvedFilesFromSpec(env: BuildEnv, attr: Attribute, files: seq<Label>, acc: seq<ConfiguredTarget>)
    ensures ResolvedFilesFrom(env, attr, files, acc).Ok? <==>
      forall i :: 0 <= i < |files| ==> Resolve(env, attr, files[i]).Ok? && Resolve(env, attr, files[i]).value.Some?
    ensures ResolvedFilesFrom(env, attr, files, acc).Ok? ==>
      var r := ResolvedFilesFrom(env, attr, files, acc).value;
      && |r| == |acc| + |files|
      && r[..|acc|] == acc
      && forall i :: 0 <= i < |files| ==> r[|acc| + i] == Resolve(env, attr, files[i]).value.value.ct
  {
    if |files| > 0 {
      var p := Resolve(env, attr, files[0]);
      if p.Ok? && p.value.Some? {
        ResolvedFilesFromSpec(env, attr, files[1..], acc + [p.value.value.ct]);
        if ResolvedFilesFrom(env, attr, files, acc).Ok? {
          var r := ResolvedFilesFrom(env, attr, files, acc).value;
          assert r[..|acc| + 1] == acc + [p.value.value.ct] by {
            assert r[..|acc| + 1] == r[..|acc| + 1][..|acc| + 1];
          }
          assert r[..|acc|] == (acc + [p.value.value.ct])[..|acc|];
          forall i | 0 <= i < |files|
            ensures r[|acc| + i] == Resolve(env, attr, files[i]).value.value.ct
          {
            if i > 0 {
              assert files[1..][i - 1] == files[i];
            } else {
              assert r[|acc|] == (acc + [p.value.value.ct])[|acc|];
            }
          }
        }
        if forall i :: 0 <= i < |files| ==> Resolve(env, attr, files[i]).Ok? && Resolve(env, attr, files[i]).value.Some? {
          forall i | 0 <= i < |files[1..]|
            ensures Resolve(env, attr, files[1..][i]).Ok? && Resolve(env, attr, files[1..][i]).value.Some?
          {
            assert files[1..][i] == files[i + 1];
          }
        }
      }
    }
  }

  /**
   * Whether createTargetMap keeps the dependency of label `id` of `attr`: it
   * is present, a silent rule-class filter admits it, and validating it
   * raises no contract violation.
   */
  predicate KeepsLabel(env: BuildEnv, attr: Attribute, id: Label)
  {
    var r := Resolve(env, attr, id);
    && r.Ok? && r.value.Some?
    && (attr.silentRuleClassFilter ==> PassesFilter(attr, r.value.value.target))
    && Validate(env, attr, r.value.value).fatal.None?
  }

  /** The dependencies kept for an attribute's labels: a filter over the labels, in order. */
  function Survivors(env: BuildEnv, attr: Attribute, labels: seq<Label>): (r: seq<ConfiguredTarget>)
    ensures |r| <= |labels|
  {
    if |labels| == 0 then []
    else
      (if KeepsLabel(env, attr, labels[0]) then [Resolve(env, attr, labels[0]).value.value.ct] else [])
      + Survivors(env, attr, labels[1..])
  }

  /** The label steps store exactly the survivors. */
  lemma {:induction false} KeptOfLabelSteps(env: BuildEnv, attr: Attribute, labels: seq<Label>)
    ensures KeptOf(LabelSteps(env, attr, labels)) == Survivors(env, attr, labels)
  {
    if |labels| > 0 {
      var steps := LabelSteps(env, attr, labels);
      assert steps[0] == LabelStep(env, attr, labels[0]);
      assert steps[1..] == LabelSteps(env, attr, labels[1..]);
      KeptOfLabelSteps(env, attr, labels[1..]);
    }
  }

  /** A dependency survives exactly when some label of the attribute is kept and resolves to it. */
  lemma {:induction false} SurvivorsMembership(env: BuildEnv, attr: Attribute, labels: seq<Label>, c: ConfiguredTarget)
    ensures c in Survivors(env, attr, labels) <==>
      exists i :: 0 <= i < |labels| && KeepsLabel(env, attr, labels[i]) && Resolve(env, attr, labels[i]).value.value.ct == c
  {
    if |labels| > 0 {
      SurvivorsMembership(env, attr, labels[1..], c);
      if c in Survivors(env, attr, labels[1..]) {
        var i :| 0 <= i < |labels[1..]| && KeepsLabel(env, attr, labels[1..][i])
          && Resolve(env, attr, labels[1..][i]).value.value.ct == c;
        assert labels[1..][i] == labels[i + 1];
      }
      if exists i :: 0 <= i < |labels| && KeepsLabel(env, attr, labels[i]) && Resolve(env, attr, labels[i]).value.value.ct == c {
        var i :| 0 <= i < |labels| && KeepsLabel(env, attr, labels[i]) && Resolve(env, attr, labels[i]).value.value.ct == c;
        if i > 0 {
          assert labels[i] == labels[1..][i - 1];
        }
      }
    }
  }

  /** Under a silent rule-class filter, every surviving dependency is a rule of an allowed class. */
  lemma SilentFilterAdmitsOnly(env: BuildEnv, attr: Attribute, labels: seq<Label>, c: ConfiguredTarget)
    requires attr.silentRuleClassFilter && c in Survivors(env, attr, labels)
    ensures exists i :: (
      && 0 <= i < |labels| && Resolve(env, attr, labels[i]).Ok? && Resolve(env, attr, labels[i]).value.Some?
      && Resolve(env, attr, labels[i]).value.value.ct == c
      && Resolve(env, attr, labels[i]).value.value.target.RuleTarget?
      && Admits(attr.allowedRuleClasses, Resolve(env, attr, labels[i]).value.value.target.ruleClass))
  {
    SurvivorsMembership(env, attr, labels, c);
    var i :| 0 <= i < |labels| && KeepsLabel(env, attr, labels[i]) && Resolve(env, attr, labels[i]).value.value.ct == c;
  }

  /** The attributes of the label map have distinct names. */
  predicate DistinctEntries(entries: seq<LabelEntry>)
  {
    forall i, j :: 0 <= i < j < |entries| ==> entries[i].attr.name != entries[j].attr.name
  }

  /** The attributes of the label map only store under their own names. */
  lemma {:induction false} TargetEntriesKeys(env: BuildEnv, entries: seq<LabelEntry>, o: Outcome<ConfiguredTarget>)
    ensures forall k :: k in TargetEntries(env, entries, o).multimap ==>
      k in o.multimap || exists i :: 0 <= i < |entries| && entries[i].attr.name == k
  {
    if |entries| > 0 {
      var o1 := Fold(entries[0].attr.name, LabelSteps(env, entries[0].attr, entries[0].labels), o);
      FoldKeys(entries[0].attr.name, LabelSteps(env, entries[0].attr, entries[0].labels), o);
      TargetEntriesKeys(env, entries[1..], o1);
      forall k | k in TargetEntries(env, entries, o).multimap && k !in o.multimap
        ensures exists i :: 0 <= i < |entries| && entries[i].attr.name == k
      {
        if k != entries[0].attr.name {
          var i :| 0 <= i < |entries[1..]| && entries[1..][i].attr.name == k;
          assert entries[i + 1] == entries[1..][i];
        }
      }
    }
  }

  /** The first attribute of the label map, when it raises no violation, appends its survivors. */
  lemma TargetEntriesFirst(env: BuildEnv, e: LabelEntry, o: Outcome<ConfiguredTarget>)
    requires o.fatal.None? && Fold(e.attr.name, LabelSteps(env, e.attr, e.labels), o).fatal.None?
    ensures var o1 := Fold(e.attr.name, LabelSteps(env, e.attr, e.labels), o);
      && Get(o1.multimap, e.attr.name) == Get(o.multimap, e.attr.name) + Survivors(env, e.attr, e.labels)
      && forall k :: k != e.attr.name ==> Get(o1.multimap, k) == Get(o.multimap, k)
  {
    var steps := LabelSteps(env, e.attr, e.labels);
    FoldFatalIff(e.attr.name, steps, o);
    FoldClean(e.attr.name, steps, o);
    KeptOfLabelSteps(env, e.attr, e.labels);
  }

  lemma DistinctEntriesTail(entries: seq<LabelEntry>)
    requires |entries| > 0 && DistinctEntries(entries)
    ensures DistinctEntries(entries[1..])
    ensures forall j :: 0 <= j < |entries[1..]| ==> entries[1..][j].attr.name != entries[0].attr.name
  {
    var rest := entries[1..];
    forall i, j | 0 <= i < j < |rest|
      ensures rest[i].attr.name != rest[j].attr.name
    {
      assert rest[i] == entries[i + 1] && rest[j] == entries[j + 1];
    }
    forall j | 0 <= j < |rest|
      ensures rest[j].attr.name != entries[0].attr.name
    {
      assert rest[j] == entries[j + 1];
    }
  }

  /**
   * Without a contract violation, the label map's attributes append their
   * survivors under their names, and no other key changes.
   */
  lemma {:induction false} TargetEntriesContents(env: BuildEnv, entries: seq<LabelEntry>, o: Outcome<ConfiguredTarget>)
    requires DistinctEntries(entries) && o.fatal.None? && TargetEntries(env, entries, o).fatal.None?
    ensures forall i :: 0 <= i < |entries| ==>
      Get(TargetEntries(env, entries, o).multimap, entries[i].attr.name)
        == Get(o.multimap, entries[i].attr.name) + Survivors(env, entries[i].attr, entries[i].labels)
    ensures forall k :: (forall i :: 0 <= i < |entries| ==> entries[i].attr.name != k) ==>
      Get(TargetEntries(env, entries, o).multimap, k) == Get(o.multimap, k)
  {
    if |entries| > 0 {
      var e, rest := entries[0], entries[1..];
      var o1 := Fold(e.attr.name, LabelSteps(env, e.attr, e.labels), o);
      TargetEntriesAbsorb(env, rest, o1);
      TargetEntriesFirst(env, e, o);
      DistinctEntriesTail(entries);
      TargetEntriesContents(env, rest, o1);
      var r := TargetEntries(env, rest, o1).multimap;
      forall i | 0 <= i < |entries|
        ensures Get(r, entries[i].attr.name) == Get(o.multimap, entries[i].attr.name) + Survivors(env, entries[i].attr, entries[i].labels)
      {
        if i > 0 {
          assert entries[i] == rest[i - 1];
        }
      }
      forall k | forall i :: 0 <= i < |entries| ==> entries[i].attr.name != k
        ensures Get(r, k) == Get(o.multimap, k)
      {
        forall j | 0 <= j < |rest|
          ensures rest[j].attr.name != k
        {
          assert rest[j] == entries[j + 1];
        }
      }
    }
  }

  /**
   * createTargetMap: when no contract is violated, the dependency map holds,
   * under each attribute of the label map, exactly that attribute's surviving
   * dependencies in label order, and holds nothing under any other name.
   */
  lemma TargetMapContents(env: BuildEnv, labelMap: seq<LabelEntry>)
    requires DistinctEntries(labelMap) && TargetMapOutcome(env, labelMap).fatal.None?
    ensures forall i :: 0 <= i < |labelMap| ==>
      Get(TargetMapOutcome(env, labelMap).multimap, labelMap[i].attr.name)
        == Survivors(env, labelMap[i].attr, labelMap[i].labels)
    ensures forall k :: k in TargetMapOutcome(env, labelMap).multimap ==>
      exists i :: 0 <= i < |labelMap| && labelMap[i].attr.name == k
  {
    TargetEntriesContents(env, labelMap, Start());
    TargetEntriesKeys(env, labelMap, Start());
  }

  /**
   * Whether createFilesetEntryMap keeps a fileset entry: one with a file list
   * always is, one naming a source directory when its source passes the
   * source check.
   */
  predicate AcceptedEntry(env: BuildEnv, attr: Attribute, entry: FilesetEntry)
  {
    var src := Resolve(env, attr, entry.srcLabel);
    entry.files.Some? || (src.Ok? && src.value.Some? && FilesetEntryCheck(env.rule, entry, src.value.value).ok)
  }

  /** The accepted entries, in order. */
  function AcceptedEntries(env: BuildEnv, attr: Attribute, entries: seq<FilesetEntry>): (r: seq<FilesetEntry>)
    ensures |r| <= |entries|
    ensures forall x :: x in r ==> x in entries
  {
    if |entries| == 0 then []
    else (if AcceptedEntry(env, attr, entries[0]) then [entries[0]] else []) + AcceptedEntries(env, attr, entries[1..])
  }

  /** The fileset entries configured entries come from, in order. */
  function EntriesOf(cs: seq<ConfiguredFilesetEntry>): (r: seq<FilesetEntry>)
    ensures |r| == |cs|
    ensures forall i :: 0 <= i < |cs| ==> r[i] == cs[i].entry
  {
    if |cs| == 0 then [] else [cs[0].entry] + EntriesOf(cs[1..])
  }

  lemma {:induction false} EntriesOfAppend(a: seq<ConfiguredFilesetEntry>, b: seq<ConfiguredFilesetEntry>)
    ensures EntriesOf(a + b) == EntriesOf(a) + EntriesOf(b)
  {
    if |a| > 0 {
      assert (a + b)[1..] == a[1..] + b;
      EntriesOfAppend(a[1..], b);
    }
  }

  /** In a run without a contract violation, the entry steps keep exactly the accepted entries, in order. */
  lemma {:induction false} KeptEntries(env: BuildEnv, attr: Attribute, entries: seq<FilesetEntry>)
    requires Clean(EntrySteps(env, attr, entries))
    ensures EntriesOf(KeptOf(EntrySteps(env, attr, entries))) == AcceptedEntries(env, attr, entries)
  {
    if |entries| > 0 {
      var steps := EntrySteps(env, attr, entries);
      assert steps[0] == EntryStep(env, attr, entries[0]);
      assert steps[1..] == EntrySteps(env, attr, entries[1..]);
      assert steps[0].fatal.None?;
      assert Clean(steps[1..]) by {
        forall i | 0 <= i < |steps[1..]|
          ensures steps[1..][i].fatal.None?
        {
          assert steps[1..][i] == steps[i + 1];
        }
      }
      KeptEntries(env, attr, entries[1..]);
      var head := if steps[0].kept.Some? then [steps[0].kept.value] else [];
      EntriesOfAppend(head, KeptOf(steps[1..]));
    }
  }

  /**
   * A file list resolves exactly when every label resolves to a present
   * dependency, and then to one configured target per label, in order.
   */
  lemma ResolvedFilesSpec(env: BuildEnv, attr: Attribute, files: seq<Label>)
    ensures ResolvedFiles(env, attr, files).Ok? <==>
      forall i :: 0 <= i < |files| ==> Resolve(env, attr, files[i]).Ok? && Resolve(env, attr, files[i]).value.Some?
    ensures ResolvedFiles(env, attr, files).Ok? ==>
      var r := ResolvedFiles(env, attr, files).value;
      && |r| == |files|
      && forall i :: 0 <= i < |files| ==> r[i] == Resolve(env, attr, files[i]).value.value.ct
  {
    var none: seq<ConfiguredTarget> := [];
    ResolvedFilesFromSpec(env, attr, files, none);
  }

  /**
   * A file-list entry whose step raises no violation is kept with the
   * configured target of each listed label, in order.
   */
  lemma FileListEntryKept(env: BuildEnv, attr: Attribute, entry: FilesetEntry)
    requires entry.files.Some? && EntryStep(env, attr, entry).fatal.None?
    ensures var s := EntryStep(env, attr, entry);
      && s.kept.Some? && s.kept.value.source.FileList?
      && |s.kept.value.source.files| == |entry.files.value|
      && forall i :: 0 <= i < |entry.files.value| ==>
           var p := Resolve(env, attr, entry.files.value[i]);
           p.Ok? && p.value.Some? && p.value.value.ct == s.kept.value.source.files[i]
  {
    ResolvedFilesSpec(env, attr, entry.files.value);
  }

  /** The attributes of a rule have distinct names. */
  predicate DistinctAttributes(attrs: seq<Attribute>)
  {
    forall i, j :: 0 <= i < j < |attrs| ==> attrs[i].name != attrs[j].name
  }

  /** Only fileset-entry-list attributes store, each under its own name. */
  lemma {:induction false} FilesetAttributesKeys(env: BuildEnv, attrs: seq<Attribute>, o: Outcome<ConfiguredFilesetEntry>)
    ensures forall k :: k in FilesetAttributes(env, attrs, o).multimap ==>
      k in o.multimap || exists i :: 0 <= i < |attrs| && attrs[i].kind == FilesetEntryListType && attrs[i].name == k
  {
    if |attrs| > 0 {
      var a := attrs[0];
      var o1 := if a.kind != FilesetEntryListType then o
        else Fold(a.name, EntrySteps(env, a, FilesetEntriesOf(env.rule, a.name)), o);
      FoldKeys(a.name, EntrySteps(env, a, FilesetEntriesOf(env.rule, a.name)), o);
      FilesetAttributesKeys(env, attrs[1..], o1);
      forall k | k in FilesetAttributes(env, attrs, o).multimap && k !in o.multimap
        ensures exists i :: 0 <= i < |attrs| && attrs[i].kind == FilesetEntryListType && attrs[i].name == k
      {
        if k !in o1.multimap || a.kind != FilesetEntryListType || k != a.name {
          var i :| 0 <= i < |attrs[1..]| && attrs[1..][i].kind == FilesetEntryListType && attrs[1..][i].name == k;
          assert attrs[i + 1] == attrs[1..][i];
        }
      }
    }
  }

  /**
   * Without a contract violation, every fileset-entry-list attribute's steps
   * are clean and append their kept entries under its name; no other key changes.
   */
  lemma {:induction false} FilesetAttributesContents(env: BuildEnv, attrs: seq<Attribute>, o: Outcome<ConfiguredFilesetEntry>)
    requires DistinctAttributes(attrs) && o.fatal.None? && FilesetAttributes(env, attrs, o).fatal.None?
    ensures forall i :: 0 <= i < |attrs| && attrs[i].kind == FilesetEntryListType ==>
      var steps := EntrySteps(env, attrs[i], FilesetEntriesOf(env.rule, attrs[i].name));
      && Clean(steps)
      && Get(FilesetAttributes(env, attrs, o).multimap, attrs[i].name) == Get(o.multimap, attrs[i].name) + KeptOf(steps)
    ensures forall k :: (forall i :: 0 <= i < |attrs| && attrs[i].kind == FilesetEntryListType ==> attrs[i].name != k) ==>
      Get(FilesetAttributes(env, attrs, o).multimap, k) == Get(o.multimap, k)
  {
    if |attrs| > 0 {
      var a := attrs[0];
      var steps := EntrySteps(env, a, FilesetEntriesOf(env.rule, a.name));
      var o1 := if a.kind != FilesetEntryListType then o else Fold(a.name, steps, o);
      FilesetAttributesAbsorb(env, attrs[1..], o1);
      if a.kind == FilesetEntryListType {
        FoldFatalIff(a.name, steps, o);
        FoldClean(a.name, steps, o);
      }
      var rest := attrs[1..];
      assert DistinctAttributes(rest) by {
        forall i, j | 0 <= i < j < |rest|
          ensures rest[i].name != rest[j].name
        {
          assert rest[i] == attrs[i + 1] && rest[j] == attrs[j + 1];
        }
      }
      FilesetAttributesContents(env, rest, o1);
      var r := FilesetAttributes(env, attrs, o).multimap;
      forall i | 0 <= i < |attrs| && attrs[i].kind == FilesetEntryListType
        ensures var steps := EntrySteps(env, attrs[i], FilesetEntriesOf(env.rule, attrs[i].name));
          Clean(steps) && Get(r, attrs[i].name) == Get(o.multimap, attrs[i].name) + KeptOf(steps)
      {
        if i == 0 {
          forall j | 0 <= j < |rest| && rest[j].kind == FilesetEntryListType
            ensures rest[j].name != a.name
          {
            assert rest[j] == attrs[j + 1];
          }
        } else {
          assert attrs[i] == rest[i - 1];
        }
      }
      forall k | forall i :: 0 <= i < |attrs| && attrs[i].kind == FilesetEntryListType ==> attrs[i].name != k
        ensures Get(r, k) == Get(o.multimap, k)
      {
        forall j | 0 <= j < |rest| && rest[j].kind == FilesetEntryListType
          ensures rest[j].name != k
        {
          assert rest[j] == attrs[j + 1];
        }
      }
    }
  }

  /** One fileset-entry-list attribute of createFilesetEntryMap's result. */
  lemma FilesetMapAttribute(env: BuildEnv, i: nat)
    requires DistinctAttributes(env.rule.attributes) && FilesetMapOutcome(env).fatal.None?
    requires i < |env.rule.attributes| && env.rule.attributes[i].kind == FilesetEntryListType
    ensures EntriesOf(Get(FilesetMapOutcome(env).multimap, env.rule.attributes[i].name))
      == AcceptedEntries(env, env.rule.attributes[i], FilesetEntriesOf(env.rule, env.rule.attributes[i].name))
  {
    var attrs := env.rule.attributes;
    var start: Outcome<ConfiguredFilesetEntry> := Start();
    var entries := FilesetEntriesOf(env.rule, attrs[i].name);
    FilesetAttributesContents(env, attrs, start);
    var steps := EntrySteps(env, attrs[i], entries);
    assert Clean(steps) && Get(FilesetAttributes(env, attrs, start).multimap, attrs[i].name) == Get(start.multimap, attrs[i].name) + KeptOf(steps);
    KeptEntries(env, attrs[i], entries);
  }

  /**
   * createFilesetEntryMap: when no contract is violated, the fileset entry
   * map holds, under each fileset-entry-list attribute of the rule, exactly
   * its accepted entries in order, and nothing under any other name.
   */
  lemma FilesetMapContents(env: BuildEnv)
    requires DistinctAttributes(env.rule.attributes) && FilesetMapOutcome(env).fatal.None?
    ensures forall i :: 0 <= i < |env.rule.attributes| && env.rule.attributes[i].kind == FilesetEntryListType ==>
      EntriesOf(Get(FilesetMapOutcome(env).multimap, env.rule.attributes[i].name))
        == AcceptedEntries(env, env.rule.attributes[i], FilesetEntriesOf(env.rule, env.rule.attributes[i].name))
    ensures forall k :: k in FilesetMapOutcome(env).multimap ==>
      exists i :: 0 <= i < |env.rule.attributes| && env.rule.attributes[i].kind == FilesetEntryListType
        && env.rule.attributes[i].name == k
  {
    FilesetAttributesKeys(env, env.rule.attributes, Start());
    forall i | 0 <= i < |env.rule.attributes| && env.rule.attributes[i].kind == FilesetEntryListType
      ensures EntriesOf(Get(FilesetMapOutcome(env).multimap, env.rule.attributes[i].name))
        == AcceptedEntries(env, env.rule.attributes[i], FilesetEntriesOf(env.rule, env.rule.attributes[i].name))
    {
      FilesetMapAttribute(env, i);
    }
  }
}
