/** Building the project directory: the template and feature trees of the data
    directory are copied over it in the order create_project_structure copies them. */
module Materialize {
  import opened Wrappers
  import opened Errors
  import opened Catalog
  import opened FileTree

  /** The data directory's trees, keyed by their path below it:
      ["templates", template, kind] and ["features", feature]. */
  type DataRoot = map<Path, Tree>

  function TemplateDir(template: string, kind: string): Path
  {
    ["templates", template, kind]
  }

  function FeatureDir(feature: string): Path
  {
    ["features", feature]
  }

  /** The project directory: whether it exists, and what it holds. */
  datatype Disk = Disk(present: bool, root: Tree)

  /** An absent project directory holds nothing. */
  predicate Consistent(disk: Disk)
  {
    disk.present || disk.root == map[]
  }

  /** recursive_copy: a missing source copies nothing; otherwise the source is copied
      over the project directory, creating it if need be. */
  function CopyInto(disk: Disk, data: DataRoot, source: Path): Disk
  {
    if source in data then Disk(true, Overlay(disk.root, data[source])) else disk
  }

  // ---------------------------------------------------------------------------
  // Copy steps and their effect

  /** One recursive_copy of a kind's template tree, or one feature copy of
      recursive_copy_features, which insists on the feature's tree being there. */
  datatype Step = CopyTemplate(source: Path) | CopyFeature(feature: string)

  function Source(step: Step): Path
  {
    match step
    case CopyTemplate(source) => source
    case CopyFeature(feature) => FeatureDir(feature)
  }

  /** A step that cannot fail: a template copy, or a feature whose tree exists. */
  predicate Available(step: Step, data: DataRoot)
  {
    step.CopyFeature? ==> FeatureDir(step.feature) in data
  }

  datatype Effect = Effect(outcome: Outcome<Error>, disk: Disk)

  /** Performs the steps in order; the first feature whose tree is missing stops the
      run with that feature's error, leaving what the earlier steps copied. */
  function Run(steps: seq<Step>, data: DataRoot, disk: Disk): Effect
  {
    if steps == [] then Effect(Pass, disk)
    else if !Available(steps[0], data) then Effect(Fail(MissingFeature(steps[0].feature)), disk)
    else Run(steps[1..], data, CopyInto(disk, data, Source(steps[0])))
  }

  /** Running two step lists one after the other is running their concatenation. */
  lemma {:induction false} RunAppend(a: seq<Step>, b: seq<Step>, data: DataRoot, disk: Disk)
    ensures Run(a + b, data, disk)
         == (var e := Run(a, data, disk); if e.outcome.Fail? then e else Run(b, data, e.disk))
    decreases |a|
  {
    if a == [] {
      assert a + b == b;
    } else {
      assert (a + b)[0] == a[0];
      assert (a + b)[1..] == a[1..] + b;
      if Available(a[0], data) {
        RunAppend(a[1..], b, data, CopyInto(disk, data, Source(a[0])));
      }
    }
  }

  /** A run fails exactly when one of its features has no tree. */
  lemma {:induction false} RunPassesIffAvailable(steps: seq<Step>, data: DataRoot, disk: Disk)
    ensures Run(steps, data, disk).outcome == Pass
        <==> forall i :: 0 <= i < |steps| ==> Available(steps[i], data)
    decreases |steps|
  {
    if steps != [] && Available(steps[0], data) {
      var rest := steps[1..];
      RunPassesIffAvailable(rest, data, CopyInto(disk, data, Source(steps[0])));
      if forall i :: 0 <= i < |rest| ==> Available(rest[i], data) {
        forall i | 0 <= i < |steps| ensures Available(steps[i], data) {
          if i > 0 { assert steps[i] == rest[i - 1]; }
        }
      }
    }
  }

  /** The first missing feature is the one reported, and nothing of it or of any later
      step is copied: the directory is as the steps before it left it. */
  lemma RunStopsAtFirstMissing(steps: seq<Step>, data: DataRoot, disk: Disk, i: nat)
    requires i < |steps| && !Available(steps[i], data)
    requires forall j :: 0 <= j < i ==> Available(steps[j], data)
    ensures Run(steps, data, disk)
         == Effect(Fail(MissingFeature(steps[i].feature)), Run(steps[..i], data, disk).disk)
  {
    assert steps == steps[..i] + steps[i..];
    RunAppend(steps[..i], steps[i..], data, disk);
    RunPassesIffAvailable(steps[..i], data, disk);
    assert steps[i..][0] == steps[i];
  }

  /** A path no copied tree touches keeps its contents through the run. */
  lemma {:induction false} RunKeeps(steps: seq<Step>, data: DataRoot, disk: Disk, p: Path)
    requires forall i :: 0 <= i < |steps| && Source(steps[i]) in data
               ==> !Touches(data[Source(steps[i])], p)
    ensures FileAt(Run(steps, data, disk).disk.root, p) == FileAt(disk.root, p)
    decreases |steps|
  {
    if steps != [] && Available(steps[0], data) {
      var d := CopyInto(disk, data, Source(steps[0]));
      if Source(steps[0]) in data {
        OverlayKeeps(disk.root, data[Source(steps[0])], p);
      }
      forall i | 0 <= i < |steps| - 1 && Source(steps[1..][i]) in data
        ensures !Touches(data[Source(steps[1..][i])], p)
      {
        assert steps[1..][i] == steps[i + 1];
      }
      RunKeeps(steps[1..], data, d, p);
    }
  }

  /** Every file in the directory after a run was there before or comes from one of
      the trees the run copied: nothing appears from anywhere else. */
  lemma {:induction false} RunFileOrigin(steps: seq<Step>, data: DataRoot, disk: Disk, p: Path)
    requires FileAt(Run(steps, data, disk).disk.root, p).Some?
    ensures FileAt(Run(steps, data, disk).disk.root, p) == FileAt(disk.root, p)
         || exists i :: 0 <= i < |steps| && Source(steps[i]) in data
              && FileAt(Run(steps, data, disk).disk.root, p) == FileAt(data[Source(steps[i])], p)
    decreases |steps|
  {
    if steps != [] && Available(steps[0], data) {
      var src := Source(steps[0]);
      var d := CopyInto(disk, data, src);
      var x := FileAt(Run(steps, data, disk).disk.root, p);
      RunFileOrigin(steps[1..], data, d, p);
      if x == FileAt(d.root, p) {
        if src in data {
          OverlayFileOrigin(disk.root, data[src], p);
        }
      } else {
        var i :| 0 <= i < |steps[1..]| && Source(steps[1..][i]) in data
                 && x == FileAt(data[Source(steps[1..][i])], p);
        assert steps[1..][i] == steps[i + 1];
      }
    }
  }

  // ---------------------------------------------------------------------------
  // The copy plan of create_project_structure

  /** recursive_copy_features copies a declared feature when it is not optional or
      when the configuration requests it. */
  predicate IsSelected(config: Configuration, f: Feature)
  {
    !f.optional || f.name in config.features
  }

  /** `n` names a selected feature of `features`. */
  ghost predicate SelectedOn(config: Configuration, features: seq<Feature>, n: string)
  {
    exists f :: f in features && f.name == n && IsSelected(config, f)
  }

  /** The names of the selected features, in declaration order. */
  function SelectedNames(config: Configuration, features: seq<Feature>): (names: seq<string>)
    ensures forall n :: n in names <==> SelectedOn(config, features, n)
  {
    if features == [] then []
    else
      var rest := SelectedNames(config, features[1..]);
      assert forall f :: f in features <==> f == features[0] || f in features[1..];
      (if IsSelected(config, features[0]) then [features[0].name] else []) + rest
  }

  function FeatureSteps(names: seq<string>): seq<Step>
  {
    if names == [] then [] else [CopyFeature(names[0])] + FeatureSteps(names[1..])
  }

  /** An inherited kind create_project_structure can use: it exists in the template
      and declares a feature list (the code dereferences both without checking). */
  predicate ParentResolvable(template: Template, name: string)
  {
    FindKind(template, name).Some? && FindKind(template, name).value.features.Some?
  }

  predicate ParentsResolvable(template: Template, kind: Kind)
  {
    kind.inherits.Some? ==> forall p :: p in kind.inherits.value ==> ParentResolvable(template, p)
  }

  function ParentFeatures(template: Template, name: string): seq<Feature>
    requires ParentResolvable(template, name)
  {
    FindKind(template, name).value.features.value
  }

  /** For each direct parent in order: its template tree, then its selected features. */
  function ParentSteps(config: Configuration, template: Template, parents: seq<string>): seq<Step>
    requires forall p :: p in parents ==> ParentResolvable(template, p)
  {
    if parents == [] then []
    else [CopyTemplate(TemplateDir(config.template, parents[0]))]
         + FeatureSteps(SelectedNames(config, ParentFeatures(template, parents[0])))
         + ParentSteps(config, template, parents[1..])
  }

  function InheritedSteps(config: Configuration, template: Template, kind: Kind): seq<Step>
    requires ParentsResolvable(template, kind)
  {
    if kind.inherits.Some? then ParentSteps(config, template, kind.inherits.value) else []
  }

  function OwnFeatureSteps(config: Configuration, kind: Kind): seq<Step>
  {
    if kind.features.Some? then FeatureSteps(SelectedNames(config, kind.features.value)) else []
  }

  /** The whole copy sequence: the parents' layers, then the kind's own template,
      then the kind's own selected features. */
  function Plan(config: Configuration, template: Template, kind: Kind): seq<Step>
    requires ParentsResolvable(template, kind)
  {
    InheritedSteps(config, template, kind)
    + [CopyTemplate(TemplateDir(config.template, config.kind))]
    + OwnFeatureSteps(config, kind)
  }

  /** create_project_structure: an existing project directory is refused untouched;
      otherwise the plan is run against the absent directory. */
  function CreateStructure(config: Configuration, template: Template, kind: Kind,
                           data: DataRoot, disk: Disk): Effect
    requires ParentsResolvable(template, kind)
  {
    if disk.present then Effect(Fail(ProjectExists(config.name)), disk)
    else Run(Plan(config, template, kind), data, disk)
  }

  // ---------------------------------------------------------------------------
  // What the plan copies

  /** The template trees a step list copies, in order. */
  function TemplateSources(steps: seq<Step>): seq<Path>
  {
    if steps == [] then []
    else (if steps[0].CopyTemplate? then [steps[0].source] else []) + TemplateSources(steps[1..])
  }

  function ParentDirs(config: Configuration, parents: seq<string>): seq<Path>
  {
    if parents == [] then [] else [TemplateDir(config.template, parents[0])] + ParentDirs(config, parents[1..])
  }

  lemma {:induction false} TemplateSourcesAppend(a: seq<Step>, b: seq<Step>)
    ensures TemplateSources(a + b) == TemplateSources(a) + TemplateSources(b)
    decreases |a|
  {
    if a == [] {
      assert a + b == b;
    } else {
      assert (a + b)[1..] == a[1..] + b;
      TemplateSourcesAppend(a[1..], b);
    }
  }

  lemma {:induction false} FeatureStepsCopyNoTemplate(names: seq<string>)
    ensures TemplateSources(FeatureSteps(names)) == []
    decreases |names|
  {
    if names != [] {
      FeatureStepsCopyNoTemplate(names[1..]);
    }
  }

  lemma {:induction false} ParentTemplates(config: Configuration, template: Template, parents: seq<string>)
    requires forall p :: p in parents ==> ParentResolvable(template, p)
    ensures TemplateSources(ParentSteps(config, template, parents)) == ParentDirs(config, parents)
    decreases |parents|
  {
    if parents != [] {
      var head := [CopyTemplate(TemplateDir(config.template, parents[0]))];
      var features := FeatureSteps(SelectedNames(config, ParentFeatures(template, parents[0])));
      ParentTemplates(config, template, parents[1..]);
      TemplateSourcesAppend(head + features, ParentSteps(config, template, parents[1..]));
      TemplateSourcesAppend(head, features);
      FeatureStepsCopyNoTemplate(SelectedNames(config, ParentFeatures(template, parents[0])));
    }
  }

  /** The template trees are copied for the direct parents in their listed order and
      then for the kind itself, which is copied last; grandparents are never copied. */
  lemma PlanTemplateOrder(config: Configuration, template: Template, kind: Kind)
    requires ParentsResolvable(template, kind)
    ensures TemplateSources(Plan(config, template, kind))
         == (if kind.inherits.Some? then ParentDirs(config, kind.inherits.value) else [])
            + [TemplateDir(config.template, config.kind)]
  {
    var inherited := InheritedSteps(config, template, kind);
    var own := [CopyTemplate(TemplateDir(config.template, config.kind))];
    TemplateSourcesAppend(inherited + own, OwnFeatureSteps(config, kind));
    TemplateSourcesAppend(inherited, own);
    if kind.features.Some? {
      FeatureStepsCopyNoTemplate(SelectedNames(config, kind.features.value));
    }
    if kind.inherits.Some? {
      ParentTemplates(config, template, kind.inherits.value);
    }
  }

  lemma {:induction false} FeatureStepsCopy(names: seq<string>, n: string)
    ensures CopyFeature(n) in FeatureSteps(names) <==> n in names
    ensures forall s :: s in FeatureSteps(names) ==> s.CopyFeature?
    decreases |names|
  {
    if names != [] {
      FeatureStepsCopy(names[1..], n);
    }
  }

  /** `n` names a selected feature of one of the listed parents. */
  ghost predicate SelectedOnParent(config: Configuration, template: Template, parents: seq<string>, n: string)
    requires forall p :: p in parents ==> ParentResolvable(template, p)
  {
    exists p :: p in parents && SelectedOn(config, ParentFeatures(template, p), n)
  }

  lemma {:induction false} ParentFeatureCopies(config: Configuration, template: Template, parents: seq<string>, n: string)
    requires forall p :: p in parents ==> ParentResolvable(template, p)
    ensures CopyFeature(n) in ParentSteps(config, template, parents)
        <==> SelectedOnParent(config, template, parents, n)
    decreases |parents|
  {
    if parents != [] {
      var names := SelectedNames(config, ParentFeatures(template, parents[0]));
      FeatureStepsCopy(names, n);
      ParentFeatureCopies(config, template, parents[1..], n);
      assert forall p :: p in parents <==> p == parents[0] || p in parents[1..];
    }
  }

  /** The plan copies a feature exactly when it is selected on the kind itself or on
      one of its direct parents: non-optional there, or requested. */
  lemma PlanCopiesSelectedFeatures(config: Configuration, template: Template, kind: Kind, n: string)
    requires ParentsResolvable(template, kind)
    ensures CopyFeature(n) in Plan(config, template, kind)
        <==> ((kind.features.Some? && SelectedOn(config, kind.features.value, n))
              || (kind.inherits.Some? && SelectedOnParent(config, template, kind.inherits.value, n)))
  {
    if kind.features.Some? {
      FeatureStepsCopy(SelectedNames(config, kind.features.value), n);
    }
    if kind.inherits.Some? {
      ParentFeatureCopies(config, template, kind.inherits.value, n);
    }
  }

  /** Building the structure succeeds exactly when the project directory does not exist
      yet and every feature the plan copies has a tree in the data directory. */
  lemma CreateStructurePassesIff(config: Configuration, template: Template, kind: Kind,
                                 data: DataRoot, disk: Disk)
    requires ParentsResolvable(template, kind)
    ensures CreateStructure(config, template, kind, data, disk).outcome == Pass
        <==> !disk.present
             && forall n :: CopyFeature(n) in Plan(config, template, kind) ==> FeatureDir(n) in data
  {
    var steps := Plan(config, template, kind);
    RunPassesIffAvailable(steps, data, disk);
    if !disk.present && forall n :: CopyFeature(n) in steps ==> FeatureDir(n) in data {
      forall i | 0 <= i < |steps| ensures Available(steps[i], data) {
        if steps[i].CopyFeature? {
          assert CopyFeature(steps[i].feature) in steps;
        }
      }
    }
  }

  /** A derived kind's own template wins over its parents' templates and features: a
      file of the kind's template survives unless one of the kind's own selected
      features puts something at the same path. */
  lemma DerivedTemplateWins(config: Configuration, template: Template, kind: Kind,
                            data: DataRoot, disk: Disk, p: Path)
    requires ParentsResolvable(template, kind)
    requires CreateStructure(config, template, kind, data, disk).outcome == Pass
    requires TemplateDir(config.template, config.kind) in data
    requires FileAt(data[TemplateDir(config.template, config.kind)], p).Some?
    requires forall s :: s in OwnFeatureSteps(config, kind) && Source(s) in data
               ==> !Touches(data[Source(s)], p)
    ensures FileAt(CreateStructure(config, template, kind, data, disk).disk.root, p)
         == FileAt(data[TemplateDir(config.template, config.kind)], p)
  {
    var inherited := InheritedSteps(config, template, kind);
    var own := [CopyTemplate(TemplateDir(config.template, config.kind))];
    var features := OwnFeatureSteps(config, kind);
    RunAppend(inherited + own, features, data, disk);
    RunAppend(inherited, own, data, disk);
    var before := Run(inherited, data, disk);
    var e := Run(inherited + own, data, disk);
    RunPassesIffAvailable(inherited + own + features, data, disk);
    RunPassesIffAvailable(inherited, data, disk);
    assert forall i :: 0 <= i < |inherited| ==> (inherited + own + features)[i] == inherited[i];
    OverlayFileWins(before.disk.root, data[TemplateDir(config.template, config.kind)], p);
    forall i | 0 <= i < |features| && Source(features[i]) in data
      ensures !Touches(data[Source(features[i])], p)
    {
      assert features[i] in features;
    }
    RunKeeps(features, data, e.disk, p);
  }

  // ---------------------------------------------------------------------------
  // A new project holds only copied files

  /** Copying never leaves an absent directory with contents. */
  lemma {:induction false} RunConsistent(steps: seq<Step>, data: DataRoot, disk: Disk)
    requires Consistent(disk)
    ensures Consistent(Run(steps, data, disk).disk)
    decreases |steps|
  {
    if steps != [] && Available(steps[0], data) {
      RunConsistent(steps[1..], data, CopyInto(disk, data, Source(steps[0])));
    }
  }

  lemma CreateStructureConsistent(config: Configuration, template: Template, kind: Kind,
                                  data: DataRoot, disk: Disk)
    requires ParentsResolvable(template, kind) && Consistent(disk)
    ensures Consistent(CreateStructure(config, template, kind, data, disk).disk)
  {
    if !disk.present {
      RunConsistent(Plan(config, template, kind), data, disk);
    }
  }

  /** Every file of a newly created project comes from a tree the plan copies: the
      directory did not exist, so it held nothing before. */
  lemma NewProjectFileOrigin(config: Configuration, template: Template, kind: Kind,
                             data: DataRoot, disk: Disk, p: Path)
    requires ParentsResolvable(template, kind) && Consistent(disk)
    requires CreateStructure(config, template, kind, data, disk).outcome == Pass
    requires FileAt(CreateStructure(config, template, kind, data, disk).disk.root, p).Some?
    ensures exists s :: s in Plan(config, template, kind) && Source(s) in data
              && FileAt(CreateStructure(config, template, kind, data, disk).disk.root, p)
                 == FileAt(data[Source(s)], p)
  {
    var steps := Plan(config, template, kind);
    assert !disk.present && disk.root == map[];
    assert FileAt(disk.root, p).None? by {
      if p != [] {
        assert p[0] !in disk.root;
      }
    }
    RunFileOrigin(steps, data, disk, p);
    var i :| 0 <= i < |steps| && Source(steps[i]) in data
             && FileAt(Run(steps, data, disk).disk.root, p) == FileAt(data[Source(steps[i])], p);
    assert steps[i] in steps;
  }
}
