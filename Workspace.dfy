/** The project directory as the program changes it: create_project_structure copies
    trees into it, preprocess_project_files rewrites it, create_project does both. */
module Workspace {
  import opened Wrappers
  import opened Errors
  import opened Catalog
  import opened Text
  import opened FileTree
  import opened Materialize
  import opened Context
  import opened Preprocess
  import opened Rename
  import opened Rewrite
  import opened Render

  /** The wildcards of preprocess_project_files, keyed by their tokens. */
  function Wildcards(config: Configuration): (ws: seq<Wildcard>)
    ensures |ws| == 3
  {
    [Wildcard("!PROJECT!", config.name),
     Wildcard("!LANGUAGE!", config.language),
     Wildcard("!STANDARD!", config.standard)]
  }

  /** The three lookups create_project dereferences without checking. */
  predicate Resolves(languages: seq<Language>, config: Configuration)
  {
    FindLanguage(languages, config.language).Some?
    && FindTemplate(FindLanguage(languages, config.language).value, config.template).Some?
    && FindKind(FindTemplate(FindLanguage(languages, config.language).value, config.template).value,
                config.kind).Some?
  }

  function ProjectTemplate(languages: seq<Language>, config: Configuration): Template
    requires Resolves(languages, config)
  {
    FindTemplate(FindLanguage(languages, config.language).value, config.template).value
  }

  function ProjectKind(languages: seq<Language>, config: Configuration): Kind
    requires Resolves(languages, config)
  {
    FindKind(ProjectTemplate(languages, config), config.kind).value
  }

  /** Validation is what makes those dereferences safe: a request that passes it is
      configured into a configuration whose three lookups hit. */
  lemma ValidatedResolves(languages: seq<Language>, request: Request)
    requires Sanitize(languages, request) == Pass
    ensures Resolves(languages, Configure(request))
  {
  }

  class Project {
    /** Whether the project directory exists, and what it holds. */
    var present: bool
    var root: Tree

    /** The directory as fs::exists and iteration see it: an absent directory holds
        nothing. */
    constructor (present: bool, root: Tree)
      requires present || root == map[]
      ensures this.present == present && this.root == root
      ensures Valid()
    {
      this.present := present;
      this.root := root;
    }

    function State(): Disk
      reads this
    {
      Disk(present, root)
    }

    ghost predicate Valid()
      reads this
    {
      Consistent(State())
    }

    /** recursive_copy from the data directory into the project directory; reports
        whether the source existed. */
    method Copy(data: DataRoot, source: Path) returns (copied: bool)
      requires Valid()
      modifies this
      ensures Valid()
      ensures copied <==> source in data
      ensures State() == CopyInto(old(State()), data, source)
    {
      copied := source in data;
      if copied {
        present := true;
        root := Overlay(root, data[source]);
      }
    }

    /** recursive_copy_features: each selected feature in turn, stopping at the first
        whose tree is missing. */
    method CopyFeatures(config: Configuration, features: seq<Feature>, data: DataRoot)
      returns (outcome: Outcome<Error>)
      requires Valid()
      modifies this
      ensures Valid()
      ensures Effect(outcome, State())
           == Run(FeatureSteps(SelectedNames(config, features)), data, old(State()))
    {
      ghost var target := Run(FeatureSteps(SelectedNames(config, features)), data, State());
      var i := 0;
      while i < |features|
        invariant 0 <= i <= |features|
        invariant Valid()
        invariant Run(FeatureSteps(SelectedNames(config, features[i..])), data, State()) == target
      {
        var feature := features[i];
        var rest := SelectedNames(config, features[i + 1..]);
        assert features[i..][0] == feature && features[i..][1..] == features[i + 1..];
        if !feature.optional || feature.name in config.features {
          assert FeatureSteps([feature.name] + rest) == [CopyFeature(feature.name)] + FeatureSteps(rest);
          if FeatureDir(feature.name) in data {
            var _ := Copy(data, FeatureDir(feature.name));
          } else {
            return Fail(MissingFeature(feature.name));
          }
        } else {
          assert SelectedNames(config, features[i..]) == rest;
        }
        i := i + 1;
      }
      outcome := Pass;
    }

    /** One layer of create_project_structure: a kind's template tree, then the
        kind's selected features. */
    method CopyLayer(config: Configuration, source: Path, features: seq<Feature>, data: DataRoot)
      returns (outcome: Outcome<Error>)
      requires Valid()
      modifies this
      ensures Valid()
      ensures Effect(outcome, State())
           == Run([CopyTemplate(source)] + FeatureSteps(SelectedNames(config, features)),
                  data, old(State()))
    {
      ghost var layer := [CopyTemplate(source)] + FeatureSteps(SelectedNames(config, features));
      assert layer[0] == CopyTemplate(source);
      assert layer[1..] == FeatureSteps(SelectedNames(config, features));
      var _ := Copy(data, source);
      outcome := CopyFeatures(config, features, data);
    }

    /** The inherited kinds' layers, parent by parent in declaration order. */
    method CopyParents(config: Configuration, template: Template, parents: seq<string>, data: DataRoot)
      returns (outcome: Outcome<Error>)
      requires forall p :: p in parents ==> ParentResolvable(template, p)
      requires Valid()
      modifies this
      ensures Valid()
      ensures Effect(outcome, State()) == Run(ParentSteps(config, template, parents), data, old(State()))
    {
      ghost var target := Run(ParentSteps(config, template, parents), data, State());
      var i := 0;
      assert parents[i..] == parents;
      while i < |parents|
        invariant 0 <= i <= |parents|
        invariant Valid()
        invariant Run(ParentSteps(config, template, parents[i..]), data, State()) == target
      {
        var parent := parents[i];
        assert ParentResolvable(template, parent) by { assert parent in parents; }
        var features := FindKind(template, parent).value.features.value;
        ghost var layer := [CopyTemplate(TemplateDir(config.template, parent))]
                           + FeatureSteps(SelectedNames(config, features));
        assert ParentSteps(config, template, parents[i..])
            == layer + ParentSteps(config, template, parents[i + 1..]) by {
          assert parents[i..][0] == parent && parents[i..][1..] == parents[i + 1..];
        }
        RunAppend(layer, ParentSteps(config, template, parents[i + 1..]), data, State());
        outcome := CopyLayer(config, TemplateDir(config.template, parent), features, data);
        if outcome.Fail? {
          return;
        }
        i := i + 1;
      }
      assert parents[i..] == [];
      outcome := Pass;
    }

    /** create_project_structure: refuses an existing project directory, then copies
        each parent's template and features, the kind's template, and its features. */
    method CreateStructure(config: Configuration, template: Template, kind: Kind, data: DataRoot)
      returns (outcome: Outcome<Error>)
      requires ParentsResolvable(template, kind)
      requires Valid()
      modifies this
      ensures Valid()
      ensures Effect(outcome, State())
           == Materialize.CreateStructure(config, template, kind, data, old(State()))
    {
      if present {
        return Fail(ProjectExists(config.name));
      }
      var features := if kind.features.Some? then kind.features.value else [];
      ghost var own := [CopyTemplate(TemplateDir(config.template, config.kind))]
                       + FeatureSteps(SelectedNames(config, features));
      assert Plan(config, template, kind) == InheritedSteps(config, template, kind) + own;
      RunAppend(InheritedSteps(config, template, kind), own, data, State());
      if kind.inherits.Some? {
        outcome := CopyParents(config, template, kind.inherits.value, data);
        if outcome.Fail? {
          return;
        }
      }
      outcome := CopyLayer(config, TemplateDir(config.template, config.kind), features, data);
    }

    /** preprocess_project_files: runs the preprocessor over every file with the
        configuration's environment, then replaces the wildcards in names, then in
        contents. `ws` is the wildcard map in its (unspecified) iteration order. */
    method PreprocessProjectFiles(config: Configuration, template: Template, kind: Kind,
                                  process: Processor, ws: seq<Wildcard>)
      returns (outcome: Outcome<Error>)
      requires ParentsResolvable(template, kind)
      requires multiset(ws) == multiset(Wildcards(config))
      requires AllShrink(ws) && ClashFree(root, ws)
      modifies this
      ensures Renders(config.name, Variables(config, template, kind), process, ws,
                      old(root), old(present), root, present, outcome)
    {
      if !present {
        return Fail(ProjectDirectoryMissing(config.name));
      }
      var rendered;
      rendered, outcome := RenderFiles(root, [config.name], Variables(config, template, kind), process, ws);
      root := rendered;
    }

    /** create_project: the structure, then the rendering, stopping at the first
        error. */
    method CreateProject(config: Configuration, languages: seq<Language>, data: DataRoot,
                         process: Processor, ws: seq<Wildcard>)
      returns (outcome: Outcome<Error>)
      requires Resolves(languages, config)
      requires ParentsResolvable(ProjectTemplate(languages, config), ProjectKind(languages, config))
      requires multiset(ws) == multiset(Wildcards(config)) && AllShrink(ws)
      requires var built := Materialize.CreateStructure(config, ProjectTemplate(languages, config),
                                                        ProjectKind(languages, config), data, State());
               built.outcome.Pass? ==> ClashFree(built.disk.root, ws)
      requires Valid()
      modifies this
      ensures Valid()
      ensures var template := ProjectTemplate(languages, config);
              var kind := ProjectKind(languages, config);
              var built := Materialize.CreateStructure(config, template, kind, data, old(State()));
              if built.outcome.Fail? then Effect(outcome, State()) == built
              else Renders(config.name, Variables(config, template, kind), process, ws,
                           built.disk.root, built.disk.present, root, present, outcome)
    {
      var language := FindLanguage(languages, config.language).value;
      var template := FindTemplate(language, config.template).value;
      var kind := FindKind(template, config.kind).value;
      outcome := CreateStructure(config, template, kind, data);
      if outcome.Fail? {
        return;
      }
      outcome := PreprocessProjectFiles(config, template, kind, process, ws);
    }
  }
}
