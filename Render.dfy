/** preprocess_project_files as a whole: the three passes over the project directory
    one after the other, and what a file of the structure becomes through them. */
module Render {
  import opened Wrappers
  import opened Errors
  import opened Text
  import opened FileTree
  import opened Preprocess
  import opened Rename
  import opened Rewrite

  /** Preprocessing changes file contents only: each entry stays a file or a directory,
      and a directory holds the processed entries of the original. */
  lemma ProcessedEntry(t: Tree, dir: Path, env: Env, process: Processor, n: string)
    requires n in t
    ensures var u := Processed(t, dir, env, process);
      n in u && (u[n].Dir? <==> t[n].Dir?)
      && (t[n].Dir? ==> u[n].entries == Processed(t[n].entries, dir + [n], env, process))
  {
  }

  /** So the renaming pass sees the same names in the same directories: the clashes of
      the processed tree are those of the tree before. */
  lemma {:induction false} ProcessedKeepsClashes(t: Tree, dir: Path, env: Env, process: Processor, ws: seq<Wildcard>)
    requires AllShrink(ws)
    ensures ClashFree(Processed(t, dir, env, process), ws) <==> ClashFree(t, ws)
    decreases Dir(t)
  {
    var u := Processed(t, dir, env, process);
    assert NameMap(u, ws) == NameMap(t, ws);
    forall n | n in t
      ensures (u[n].Dir? <==> t[n].Dir?)
      ensures t[n].Dir? ==> (ClashFree(u[n].entries, ws) <==> ClashFree(t[n].entries, ws))
    {
      ProcessedEntry(t, dir, env, process, n);
      if t[n].Dir? {
        ProcessedKeepsClashes(t[n].entries, dir + [n], env, process, ws);
      }
    }
  }

  /** ... and so are its names holding two tokens. */
  lemma {:induction false} ProcessedKeepsHits(t: Tree, dir: Path, env: Env, process: Processor, ws: seq<Wildcard>)
    ensures SingleHits(Processed(t, dir, env, process), ws) <==> SingleHits(t, ws)
    decreases Dir(t)
  {
    var u := Processed(t, dir, env, process);
    forall n | n in t
      ensures (u[n].Dir? <==> t[n].Dir?)
      ensures t[n].Dir? ==> (SingleHits(u[n].entries, ws) <==> SingleHits(t[n].entries, ws))
    {
      ProcessedEntry(t, dir, env, process, n);
      if t[n].Dir? {
        ProcessedKeepsHits(t[n].entries, dir + [n], env, process, ws);
      }
    }
  }

  /** The project directory after the three passes have all succeeded. */
  ghost function Rendered(t: Tree, dir: Path, env: Env, process: Processor, ws: seq<Wildcard>): Tree
    requires AllShrink(ws) && ClashFree(t, ws)
  {
    ProcessedKeepsClashes(t, dir, env, process, ws);
    Rewritten(RenameTree(Processed(t, dir, env, process), ws), ws)
  }

  /** When the passes succeed, each file of the structure is found at its path with
      every wildcard token replaced in each name, holding the preprocessor's output with
      the wildcards then replaced in the text. */
  lemma RenderedFileAt(t: Tree, dir: Path, env: Env, process: Processor, ws: seq<Wildcard>, p: Path)
    requires AllShrink(ws) && ClashFree(t, ws)
    requires Processable(t, dir, env, process) && FileAt(t, p).Some?
    ensures process(dir + p, FileAt(t, p).value, env).Success?
    ensures FileAt(Rendered(t, dir, env, process, ws), NewPath(p, ws))
         == Some(RewriteText(process(dir + p, FileAt(t, p).value, env).value, ws))
  {
    var u := Processed(t, dir, env, process);
    ProcessedKeepsClashes(t, dir, env, process, ws);
    ProcessedFileAt(t, dir, env, process, p);
    RenameTreeFileAt(u, ws, p);
    RewrittenFileAt(RenameTree(u, ws), ws, NewPath(p, ws));
  }

  /** And nothing else is there: every file of the rendered directory is such a file. */
  lemma RenderedFileOrigin(t: Tree, dir: Path, env: Env, process: Processor, ws: seq<Wildcard>, q: Path)
    returns (p: Path)
    requires AllShrink(ws) && ClashFree(t, ws) && Processable(t, dir, env, process)
    requires FileAt(Rendered(t, dir, env, process, ws), q).Some?
    ensures NewPath(p, ws) == q && FileAt(t, p).Some?
    ensures process(dir + p, FileAt(t, p).value, env).Success?
    ensures FileAt(Rendered(t, dir, env, process, ws), q)
         == Some(RewriteText(process(dir + p, FileAt(t, p).value, env).value, ws))
  {
    var u := Processed(t, dir, env, process);
    ProcessedKeepsClashes(t, dir, env, process, ws);
    RewrittenFileAt(RenameTree(u, ws), ws, q);
    p := RenameTreeFileOrigin(u, ws, q);
    ProcessedFileAt(t, dir, env, process, p);
  }

  /** The contract of the three passes over an existing project directory, from `t` to
      `r` with the reported outcome. The first file the preprocessor rejects stops
      everything with that file's error, leaving some files processed; then a name
      holding two tokens stops the renaming; otherwise the directory is rendered. */
  ghost predicate RendersTo(t: Tree, dir: Path, env: Env, process: Processor, ws: seq<Wildcard>,
                            r: Tree, outcome: Outcome<Error>)
    requires AllShrink(ws) && ClashFree(t, ws)
  {
    && (outcome.Pass? <==> Processable(t, dir, env, process) && SingleHits(t, ws))
    && (outcome.Pass? ==> r == Rendered(t, dir, env, process, ws))
    && (outcome.Fail? && !Processable(t, dir, env, process) ==>
          FailsWith(t, dir, env, process, outcome.error) && PartlyProcessed(t, r, dir, env, process))
    && (outcome.Fail? && Processable(t, dir, env, process) ==>
          DoubleHitAt(Processed(t, dir, env, process), dir, ws, outcome.error))
  }

  /** The three passes of preprocess_project_files, each stopping the rest on error. */
  method RenderFiles(t: Tree, dir: Path, env: Env, process: Processor, ws: seq<Wildcard>)
    returns (r: Tree, outcome: Outcome<Error>)
    requires AllShrink(ws) && ClashFree(t, ws)
    ensures RendersTo(t, dir, env, process, ws, r, outcome)
  {
    r, outcome := PreprocessFiles(t, dir, env, process);
    if outcome.Fail? {
      return;
    }
    ProcessedKeepsClashes(t, dir, env, process, ws);
    ProcessedKeepsHits(t, dir, env, process, ws);
    r, outcome := RenameEntries(r, dir, ws);
    if outcome.Fail? {
      return;
    }
    r := RewriteFiles(r, ws);
  }

  /** The same with the project directory possibly missing, which is an error. */
  ghost predicate Renders(name: string, env: Env, process: Processor, ws: seq<Wildcard>,
                          before: Tree, present: bool, after: Tree, present': bool,
                          outcome: Outcome<Error>)
    requires AllShrink(ws) && ClashFree(before, ws)
  {
    if !present then
      outcome == Fail(ProjectDirectoryMissing(name)) && !present' && after == before
    else
      present' && RendersTo(before, [name], env, process, ws, after, outcome)
  }
}
