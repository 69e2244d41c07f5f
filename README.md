# cmaker, modelled in Dafny

cmaker scaffolds a C or C++ project. It reads a catalog of languages. Each language has
admissible standards and templates (`executable`, `library`), and each template has kinds.
A kind may declare features and may inherit other kinds of the same template. From a
request (project name, template type, kind, language, standard, requested features),
cmaker does four things:

1. **Validation** (`sanitize_argument_values`) looks up the language, the standard, the
   template and the kind, and reports the first lookup that misses.
2. **Configuration** (`configure_project`) copies the request into a configuration and
   renders the standard as decimal text.
3. **Structure creation** (`create_project_structure`) builds the project directory. It
   overlays trees from the data directory with recursive copies that overwrite
   (`recursive_copy`, `recursive_copy_features`).
4. **Rendering** (`preprocess_project_files`) makes three passes over every file of the
   project directory:
   - it runs the macro preprocessor with an environment
     (`ENV:LANGUAGE`, `ENV:STANDARD`, `ENV:KIND`, `ENV:MODE`, `ENV:FEATURES`);
   - it replaces the wildcard tokens `!PROJECT!`, `!LANGUAGE!` and `!STANDARD!` in entry
     names (`replace_filename_wildcards`);
   - it replaces the same tokens in file contents (`replace_file_wildcards`).

   Every replacement uses `replace`. It replaces the leftmost occurrence, then scans again
   from the start, until the token is gone.

`create_project` runs structure creation and then rendering, and stops at the first error.

## How the model is organised

- **Wrappers.dfy** holds `Option`, `Result` and `Outcome`, plus the `Error` datatype. Each
  error constructor is one message the program reports.
- **Catalog.dfy** holds the catalog datatypes, the lookups, validation and configuration.
  Pure functions.
- **FileTree.dfy** models a directory as a tree of named entries. `FileAt` reads a tree
  as a map from paths to contents. `Overlay` models `fs::copy` with the options
  `recursive | overwrite_existing`.
- **Materialize.dfy** is the specification of structure creation. A plan lists the copy
  steps in order, `Run` performs them, and lemmas relate the plan to the kind,
  its parents and the selected features.
- **Workspace.dfy** holds the class `Project`. Its fields are the project directory's
  existence and contents. Its methods change them step by step, as the source does, and
  each method is proved equal to the specification:
  - `Copy` models `recursive_copy`;
  - `CopyFeatures` models `recursive_copy_features`;
  - `CreateStructure` models `create_project_structure`;
  - `PreprocessProjectFiles` models `preprocess_project_files`;
  - `CreateProject` models `create_project`.
- **Context.dfy** models the preprocessor environment and the `ENV:FEATURES` string,
  including comma joining and splitting.
- **Text.dfy** models `std::string::find` and `replace`: a method with the source's loop,
  proved against a recursive specification.
- **Preprocess.dfy**, **Rename.dfy** and **Rewrite.dfy** model the three rendering
  passes. Each is an imperative walk over a snapshot of each directory, proved against a
  specification function on trees.
- **Render.dfy** models the three passes in sequence. It also proves what a file of the
  structure becomes: it appears at its renamed path, holding the preprocessor's output
  with the wildcards replaced.

### What the code does that a reader may not expect

- **Requested features are not validated.** The membership test at `Main.cpp:89-93`
  computes `all_of`, and its result is discarded. So no request fails because of its
  features (`Catalog.SanitizeIgnoresFeatures`).
- **Features have no "requires" field and there is no closure.** `Feature` carries only a
  name and an optional flag. Nothing is deduplicated either: `ENV:FEATURES` can repeat a
  name (`Context.RequestedNamesRepeat`).
- **`ENV:FEATURES` is built differently:**
  - it holds the requested names;
  - then, for each direct parent, one comma-joined string of that parent's mandatory
    features, dropped only when that whole string equals a requested name;
  - the selected kind's own mandatory features are not listed
    (`Context.OwnFeaturesNotListed`).

  A parent without mandatory features still contributes an empty entry, so requesting
  `a` from a kind whose only parent has no mandatory feature gives `a,`
  (`Context.OptionalParentLeavesEmptyEntry`).
- **Inheritance is one level deep.** Only the direct `inherits` list is followed.
- **The copy order interleaves.** Each parent's template is copied and then that parent's
  features. Then come the kind's template and then its own features
  (`Materialize.Plan`, `Materialize.ParentSteps`).
- **A name holding two tokens is not renamed twice.** One `fs::rename` is issued per
  matching wildcard, always from the entry's original path. So a second token makes
  the rename fail (`Rename.RenameEntry`).

## Model

| member | source | states |
|---|---|---|
| Catalog.IndexOf | cmaker/source/Main.cpp:66-67 | `std::ranges::find` by name: the index returned holds the name and no earlier element does; none is returned exactly when no element has the name |
| Catalog.Named | cmaker/source/Main.cpp:77-78 | the element found by name is in the list, carries the name and is the first one that does; none exactly when no element has it |
| Catalog.Sanitize | cmaker/source/Main.cpp:64-96 | each of the four errors is reported exactly when its lookup is the first to miss: no language of that name; the first such language lacks the standard; it has no template of that name; that template has no kind of that name |
| Catalog.SanitizePassesIffResolvable | cmaker/source/Main.cpp:64-95 | validation succeeds if and only if the first matching language admits the standard and its first matching template has a kind of the requested name |
| Catalog.PassingIsResolvable | cmaker/source/Main.cpp:64-95 | a request that passes validation has all four lookups hit |
| Catalog.ResolvablePasses | cmaker/source/Main.cpp:64-95 | a request whose four lookups hit passes validation, whatever features it names |
| Catalog.SanitizeIgnoresFeatures | cmaker/source/Main.cpp:89-95 | replacing the requested features never changes the validation result, because the `all_of` result is discarded |
| Catalog.Digits | cmaker/source/Main.cpp:113-117 | the decimal digits of a number are a non-empty run of digit characters with no leading zero |
| Catalog.DigitsValueOfDigits | cmaker/source/Main.cpp:113-117 | reading the written digits back gives the number |
| Catalog.DecimalString | cmaker/source/Main.cpp:113-117 | specification of `stream << int`: a `-` for negative values, then the digits of the magnitude; characterised by `Catalog.Digits` and `Catalog.DecimalRoundTrip` |
| Catalog.DecimalRoundTrip | cmaker/source/Main.cpp:113-117 | parsing the text `stream << int` writes (sign included) gives back the integer |
| Catalog.Configure | cmaker/source/Main.cpp:108-122 | the configuration carries the request's name, language, type, kind and features unchanged, and its standard text parses back to the requested standard |
| FileTree.Overlay | cmaker/source/Main.cpp:130 | the entries after the copy are those of the destination plus those of the source |
| FileTree.OverlayFileWins | cmaker/source/Main.cpp:130 | with overwrite_existing, every file of the source is found at its path after the copy with the source's contents |
| FileTree.OverlayKeeps | cmaker/source/Main.cpp:130 | a path the source does not touch keeps the destination's file (or its absence) |
| FileTree.OverlayFileOrigin | cmaker/source/Main.cpp:130 | a file after the copy comes from the source or was already in the destination |
| Materialize.RunAppend | cmaker/source/Main.cpp:171-186 | running two step lists in sequence, stopping on the first error, is running their concatenation |
| Materialize.RunPassesIffAvailable | cmaker/source/Main.cpp:128-155 | a copy sequence succeeds if and only if every feature it copies has a tree; a missing template tree is not an error |
| Materialize.RunStopsAtFirstMissing | cmaker/source/Main.cpp:150-155 | the first selected feature without a tree is the one reported, and the directory is exactly as the steps before it left it: nothing of it or any later step is copied |
| Materialize.RunKeeps | cmaker/source/Main.cpp:124-140 | a path that no copied tree touches keeps what the directory held before |
| Materialize.RunFileOrigin | cmaker/source/Main.cpp:124-140 | every file after a copy sequence was already there or comes from one of the copied trees |
| Materialize.SelectedNames | cmaker/source/Main.cpp:146-150 | a feature name is selected exactly when a declared feature of that name is mandatory or requested |
| Materialize.FeatureStepsCopy | cmaker/source/Main.cpp:146-156 | the feature copies are exactly the selected names, and nothing but features is copied |
| Materialize.CopyInto | cmaker/source/Main.cpp:124-140 | specification of one `recursive_copy`: a missing source copies nothing, otherwise the directory exists afterwards with the source overlaid; characterised by `Materialize.RunKeeps` and `Materialize.RunFileOrigin` |
| Materialize.Run | cmaker/source/Main.cpp:146-186 | specification of a sequence of copies that stops at the first missing feature; characterised by `Materialize.RunAppend`, `Materialize.RunPassesIffAvailable`, `Materialize.RunStopsAtFirstMissing`, `Materialize.RunKeeps`, `Materialize.RunFileOrigin` and `Materialize.RunConsistent` |
| Materialize.ParentSteps | cmaker/source/Main.cpp:171-179 | the copies of the parents' layers, interleaved: each direct parent's template and then its selected features, in `inherits` order; characterised by `Materialize.ParentFeatureCopies` and `Materialize.PlanTemplateOrder` |
| Materialize.Plan | cmaker/source/Main.cpp:171-186 | the whole copy sequence: the parents' layers, then the kind's template, then its own selected features; characterised by `Materialize.PlanTemplateOrder` and `Materialize.PlanCopiesSelectedFeatures` |
| Materialize.PlanTemplateOrder | cmaker/source/Main.cpp:171-181 | the template trees are copied for each direct parent in `inherits` order and then for the kind itself |
| Materialize.ParentFeatureCopies | cmaker/source/Main.cpp:171-178 | the parents' layers copy a feature exactly when some direct parent declares it and it is selected |
| Materialize.PlanCopiesSelectedFeatures | cmaker/source/Main.cpp:171-186 | the whole structure copies a feature if and only if the kind or a direct parent declares it and it is mandatory or requested |
| Materialize.CreateStructurePassesIff | cmaker/source/Main.cpp:166-186 | structure creation succeeds if and only if the project directory does not exist and every feature it would copy has a tree |
| Materialize.CreateStructure | cmaker/source/Main.cpp:162-189 | specification of `create_project_structure`: an existing directory is refused untouched, otherwise the plan runs; characterised by `Materialize.CreateStructurePassesIff`, `Materialize.DerivedTemplateWins`, `Materialize.NewProjectFileOrigin` and `Materialize.CreateStructureConsistent` |
| Materialize.RunConsistent | cmaker/source/Main.cpp:124-140 | copying never leaves an absent directory with contents: a copy that writes creates the directory |
| Materialize.CreateStructureConsistent | cmaker/source/Main.cpp:162-189 | structure creation keeps the project directory consistent: absent only when empty |
| Materialize.NewProjectFileOrigin | cmaker/source/Main.cpp:166-186 | every file of a newly created project comes from a tree the plan copies, with that tree's contents at the same path |
| Materialize.DerivedTemplateWins | cmaker/source/Main.cpp:181 | a file of the kind's own template is found in the project with that content, over anything a parent provided, unless one of the kind's own features overwrites it |
| Workspace.ValidatedResolves | cmaker/source/Main.cpp:293-297 | after validation passes, the three lookups `create_project` dereferences without checking all hit for the configured request |
| Workspace.Wildcards | cmaker/source/Main.cpp:281-285 | the three wildcards `!PROJECT!`, `!LANGUAGE!` and `!STANDARD!` with the configured name, language and standard text |
| Workspace.Project.constructor | cmaker/source/Main.cpp:166 | the project directory starts as given, as `fs::exists` would find it: present, or absent and holding nothing |
| Workspace.Project.Copy | cmaker/source/Main.cpp:124-140 | `recursive_copy`: reports whether the source exists, and when it does the directory exists afterwards holding the source copied over it |
| Workspace.Project.CopyFeatures | cmaker/source/Main.cpp:142-160 | the loop over declared features leaves the directory and outcome of running the copies of the selected features in order |
| Workspace.Project.CopyLayer | cmaker/source/Main.cpp:174-177 | one kind's layer: its template copied, then its selected features |
| Workspace.Project.CopyParents | cmaker/source/Main.cpp:171-179 | the loop over `inherits` copies each direct parent's layer in order and stops at the first failing feature |
| Workspace.Project.CreateStructure | cmaker/source/Main.cpp:162-189 | the directory and outcome afterwards are those of the structure specification: an existing directory is refused untouched, otherwise the parents' layers, the kind's template and its features are copied |
| Workspace.Project.PreprocessProjectFiles | cmaker/source/Main.cpp:240-291 | a missing project directory is an error; otherwise the three passes run with the configuration's environment, and the result is as `Render.RenderFiles` states |
| Workspace.Project.CreateProject | cmaker/source/Main.cpp:293-302 | a failing structure step is reported with its directory; otherwise rendering runs on the created directory and its outcome is reported |
| Context.Join | cmaker/source/Main.cpp:259-267 | `fplus::join`: the items with the separator between consecutive ones; characterised by `Context.SplitJoin`, `Context.JoinSplit` and `Context.SplitJoinAll` |
| Context.Split | cmaker/source/Main.cpp:268 | splitting on a separator gives a non-empty list of pieces, none containing it |
| Context.SplitJoin | cmaker/source/Main.cpp:268 | joining names without commas and splitting the result on commas gives the names back |
| Context.JoinSplit | cmaker/source/Main.cpp:268 | splitting any text on a character and joining with it gives the text back |
| Context.MandatoryNames | cmaker/source/Main.cpp:260 | a name is listed exactly when a non-optional feature of that name is declared |
| Context.KeptEntries | cmaker/source/Main.cpp:257-264 | a parent's entry is kept exactly when some direct parent produces it and it is not a requested name |
| Context.SplitConcat | cmaker/source/Main.cpp:259-267 | splitting text that holds the separator at one place is splitting both sides and concatenating the pieces |
| Context.SplitJoinAll | cmaker/source/Main.cpp:259-267 | splitting entries joined with commas gives the pieces of every entry in turn, an empty entry giving one empty piece |
| Context.ParentEntryPieces | cmaker/source/Main.cpp:258-261 | a parent's entry splits back into its mandatory feature names, or into one empty piece when it has none |
| Context.KeptNamesSplit | cmaker/source/Main.cpp:257-264 | the names read back from the kept parent entries are the pieces of those entries, in `inherits` order |
| Context.FeatureItems | cmaker/source/Main.cpp:253-264 | specification of the items joined into `ENV:FEATURES`: the requested names, then the kept parent entries; characterised by `Context.KeptEntries` and `Context.FeaturesValueLists` |
| Context.FeaturesValue | cmaker/source/Main.cpp:252-268 | specification of `ENV:FEATURES`, the items joined with commas; characterised by `Context.FeaturesValueLists`, `Context.RequestedNamesRepeat`, `Context.OptionalParentLeavesEmptyEntry` and `Context.OwnFeaturesNotListed` |
| Context.Variables | cmaker/source/Main.cpp:245-271 | specification of the environment: `ENV:LANGUAGE`, `ENV:STANDARD`, `ENV:KIND` (the template type), `ENV:MODE` (the kind) and `ENV:FEATURES`; used by `Workspace.Project.PreprocessProjectFiles` |
| Context.FeaturesValueLists | cmaker/source/Main.cpp:252-268 | read back by splitting on commas, `ENV:FEATURES` lists the requested names in order and then the mandatory features of every parent whose entry was kept, in `inherits` order; the value read back is one empty name when that list is empty |
| Context.OptionalParentLeavesEmptyEntry | cmaker/source/Main.cpp:257-267 | example: requesting `a` from a kind whose only parent has just an optional feature gives `a,`, which reads back as `a` and an empty name |
| Context.RequestedNamesRepeat | cmaker/source/Main.cpp:252-268 | example: requesting `a,b` from a kind whose parent has mandatory `a` and `b` gives `a,b,a,b`; names are not deduplicated |
| Context.OwnFeaturesNotListed | cmaker/source/Main.cpp:252-268 | the selected kind's own features play no part in `ENV:FEATURES` |
| Text.Find | cmaker/source/Main.cpp:193 | `find` returns a position where the token occurs with no occurrence before it, and none exactly when the token does not occur |
| Text.ReplaceAll | cmaker/source/Main.cpp:191-201 | the result of `replace` holds no occurrence of the token, and text without the token is returned unchanged |
| Text.Replace | cmaker/source/Main.cpp:191-201 | the source's loop computes the specification and leaves no occurrence of the token |
| Text.CountAfterReplace | cmaker/source/Main.cpp:195-197 | one replacement changes each character's count by its count in the value minus its count in the token |
| Text.ShorterValueShrinks | cmaker/source/Main.cpp:193-197 | a value shorter than its token guarantees that the loop terminates |
| Text.ContainingValueDoesNotShrink | cmaker/source/Main.cpp:193-197 | a value containing its token does not meet the termination condition |
| Text.ContainingValueNeverSettles | cmaker/source/Main.cpp:193-197 | with a value containing its token, every replacement leaves an occurrence behind, so the loop never exits |
| Text.FindIsLeftmost | cmaker/source/Main.cpp:193 | an occurrence with none before it is what `find` returns |
| Text.ReplaceAllStep | cmaker/source/Main.cpp:193-197 | one step replaces the leftmost occurrence and the scan restarts on the result |
| Text.ReplaceSingleOccurrence | cmaker/source/Main.cpp:193-197 | when the leftmost occurrence is the only one and none appears after replacing it, `replace` makes exactly that one replacement |
| Text.ReplaceLoneToken | cmaker/source/Main.cpp:193-197 | a token met once, in text and a value that lack its first character, is replaced once and nothing else changes |
| Text.ProjectHeaderExample | cmaker/source/Main.cpp:191-201 | with project name `demo`, `!PROJECT!.h` becomes `demo.h` |
| Text.ProjectClassExample | cmaker/source/Main.cpp:191-201 | with project name `demo`, `class !PROJECT!Main {}` becomes `class demoMain {}` |
| Preprocess.Processed | cmaker/source/Main.cpp:273-279 | specification of a successful pass: every file replaced by the preprocessor's output for its path, the entries unchanged; characterised by `Preprocess.ProcessedFileAt` and `Preprocess.PreprocessFiles` |
| Preprocess.PreprocessFiles | cmaker/source/Main.cpp:273-279 | the walk succeeds exactly when the preprocessor accepts every file; then each file holds its output; otherwise the error is the preprocessor's error for some rejected file (the model tags it with that file's path), and every file is either untouched or processed |
| Preprocess.PreprocessEntry | cmaker/source/Main.cpp:275-278 | one entry: a file is overwritten with the preprocessor's output or the walk stops with its error; a directory is walked |
| Preprocess.ProcessedFileAt | cmaker/source/Main.cpp:273-279 | after a successful pass every file keeps its path and holds what the preprocessor makes of it given that path, and no file appears |
| Rename.Hits | cmaker/source/Main.cpp:215-217 | the wildcards an entry is renamed for are wildcards of the map |
| Rename.HitsAreOccurringTokens | cmaker/source/Main.cpp:215-217 | an entry is renamed for a wildcard exactly when its original name contains that token |
| Rename.NewName | cmaker/source/Main.cpp:207-217 | specification of an entry's new name: `replace` applied for each wildcard whose token the original name holds; characterised by `Rename.NewNameProperties` and `Rename.HitsAreOccurringTokens` |
| Rename.NewNameProperties | cmaker/source/Main.cpp:207-211 | a name holding no token is kept; otherwise the new name holds no occurrence of the token it was renamed for |
| Rename.MovedStep | cmaker/source/Main.cpp:210 | each rename removes the entry's old name from the directory and adds its new name with its renamed contents |
| Rename.RenameEntries | cmaker/source/Main.cpp:203-220 | the walk succeeds exactly when no entry name below it holds two tokens; then the directory is renamed throughout; otherwise the error names an entry holding two tokens |
| Rename.WalkedStep | cmaker/source/Main.cpp:205-219 | each turn of the walk keeps the directory as the untouched entries plus the renamed entries under their new names |
| Rename.RenameEntry | cmaker/source/Main.cpp:213-218 | one entry: a subdirectory is walked first, then the entry is renamed; a second matching token fails on the vanished original path |
| Rename.DoubleHitIsNotSingle | cmaker/source/Main.cpp:207-218 | a reported double hit means the tree is not free of double hits |
| Rename.RenameTree | cmaker/source/Main.cpp:203-220 | specification of a successful renaming pass: every entry under its new name, subdirectories renamed throughout; characterised by `Rename.RenameEntries`, `Rename.RenameTreeFileAt` and `Rename.RenameTreeFileOrigin` |
| Rename.WalkEntry | cmaker/source/Main.cpp:213-218 | one turn of the walk removes the entry's original name from the directory and adds its new name with its renamed contents, keeping the walk invariant |
| Rename.RenameTreeFileAt | cmaker/source/Main.cpp:203-220 | renaming moves files without changing them: each is found at its path with every component renamed |
| Rename.RenameTreeFileOrigin | cmaker/source/Main.cpp:203-220 | every file after renaming is an original file, found at the path that renames to its new path |
| Rewrite.RewriteText | cmaker/source/Main.cpp:226-236 | specification of a file's new text: `replace` applied for each wildcard in turn; characterised by `Rewrite.RewriteFile`, `Rewrite.RewriteUntouched`, `Rewrite.RewriteClearsLast` and `Rewrite.RewriteClearsAll` |
| Rewrite.Rewritten | cmaker/source/Main.cpp:233-237 | specification of the pass: every entry kept, every file's text rewritten; characterised by `Rewrite.RewriteFiles` and `Rewrite.RewrittenFileAt` |
| Rewrite.RewriteFile | cmaker/source/Main.cpp:226-236 | reading, replacing and writing back once per wildcard leaves the text with the wildcards applied in turn |
| Rewrite.RewriteFiles | cmaker/source/Main.cpp:233-237 | the walk leaves every entry in place and every regular file rewritten |
| Rewrite.RewrittenFileAt | cmaker/source/Main.cpp:222-238 | every file keeps its path and holds its rewritten text, and no file appears or disappears |
| Rewrite.RewriteUntouched | cmaker/source/Main.cpp:236 | text holding none of the tokens is left as it is |
| Rewrite.RewriteClearsLast | cmaker/source/Main.cpp:236 | the token of the last wildcard applied does not occur in the result |
| Rewrite.RewriteClearsAll | cmaker/source/Main.cpp:236 | when no replacement brings in another wildcard's token, no token occurs in the result |
| Render.ProcessedKeepsClashes | cmaker/source/Main.cpp:273-287 | preprocessing keeps every name and entry kind, so the renaming pass meets the same clashes |
| Render.ProcessedKeepsHits | cmaker/source/Main.cpp:273-287 | preprocessing keeps the names holding two tokens |
| Render.Rendered | cmaker/source/Main.cpp:273-288 | specification of the three passes in sequence: preprocessed, renamed, rewritten; characterised by `Render.RenderFiles`, `Render.RenderedFileAt` and `Render.RenderedFileOrigin` |
| Render.RenderFiles | cmaker/source/Main.cpp:273-288 | the passes succeed exactly when every file preprocesses and no name holds two tokens, and the directory is then rendered; a preprocessing error is the preprocessor's error for some rejected file (tagged by the model with its path) and leaves some files processed; a renaming error names an entry holding two tokens |
| Render.RenderedFileAt | cmaker/source/Main.cpp:273-288 | after rendering, each file of the structure is at its path with tokens replaced in every component, holding the preprocessor's output with the wildcards replaced |
| Render.RenderedFileOrigin | cmaker/source/Main.cpp:273-288 | every file of the rendered directory is such a file: nothing else appears |

## Left out

- Text.ReplaceAll: requires that the text holds no occurrence of the token, or that
  some character occurs fewer times in the value than in the token. Without that, `replace` need not terminate. `Text.ContainingValueNeverSettles`
  shows it never terminates when the value contains the token, for example a project
  named `x!PROJECT!`. Divergence is not modelled.
- Rename.RenameEntries: requires that renaming clobbers nothing. No two entries of a
  directory may get the same new name, and no new name may be taken by another entry.
  `fs::rename` overwriting a file, or failing on a non-empty directory, is not modelled.
- Rename.RenameEntries: a name holding two tokens is reported as an error. In the source
  the second `fs::rename` throws an uncaught `filesystem_error`, which ends the program.
  The model does not describe the directory after that failure.
- Workspace.Project.PreprocessProjectFiles: a missing project directory is reported as an
  error. The source's `recursive_directory_iterator` throws there, and that exception is
  not caught.
- Workspace.Project.CreateProject: requires the three lookups to hit and every inherited
  kind to exist with a feature list. The source dereferences these without checking
  (`Main.cpp:176-177, 258-260, 295-297`); `Workspace.ValidatedResolves` covers the first
  three after validation.
- FileTree.Overlay: an entry of the source that meets an entry of the other kind in the
  destination replaces it. `fs::copy` does otherwise. A source file meeting a destination
  directory is copied into that directory under its own name, and the directory stays.
  A source directory meeting a destination file makes `fs::copy` throw; `recursive_copy`
  catches that (`Main.cpp:134-137`) and returns it as an error, so structure creation
  fails. The model reports success there. The data directory's trees and the parents'
  layers are assumed to agree on which names are directories.
- The `PreprocessorFailed` error: the source passes on `libpreprocessor`'s error unchanged
  (`Main.cpp:276`). The file path it carries in the model is added by the model, so that
  the contracts can say which file was rejected.
- `fs::copy` exceptions and other filesystem, stream and permission errors are not
  modelled. Neither are the `liberror` message texts; errors are datatype constructors.
- Directory iteration is modelled as a snapshot of the entries taken in an unspecified
  order (`:|`). A run whose outcome depends on that order is described by the contract
  for every order.
- The wildcard map is a `std::unordered_map`, and its iteration order is unspecified. The
  model takes the wildcards as a parameter whose multiset is the three wildcards, in any
  order. It is built once per process because it is `static`, and there is only one call
  per process.
- The macro language of `libpreprocessor::process` is an abstract function from the
  file's path, its text and the environment to new text or an error message.
- JSON loading of the catalog, command-line parsing (`safe_main`), `main`, and the
  data-directory lookup of `Environment.cpp` are not part of this model. The data
  directory is a map from `templates/<type>/<kind>` and `features/<name>` to trees.
- Workspace.Project.Copy: the model copies when the source is in the data directory. The
  source checks `fs::exists` twice before copying a feature; both checks see the same
  data directory.
