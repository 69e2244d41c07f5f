/** The first rendering pass of preprocess_project_files: every regular file of the
    project directory is run through the macro preprocessor and overwritten with its
    output; the first error stops the pass. */
module Preprocess {
  import opened Wrappers
  import opened Errors
  import opened FileTree

  type Env = map<string, string>

  /** libpreprocessor::process: from a file's path, its text and the environment, the
      new text or an error message. The macro language itself is not modelled. */
  type Processor = (Path, string, Env) -> Result<string, string>

  /** What the pass writes for a node at `path` when every file processes. A file the
      preprocessor rejects keeps its text here; `Processable` says when none does. */
  function ProcessedNode(node: Node, path: Path, env: Env, process: Processor): Node
    decreases node, 1
  {
    match node
    case File(x) => File(match process(path, x, env) case Success(y) => y case Failure(_) => x)
    case Dir(e) => Dir(Processed(e, path, env, process))
  }

  function Processed(t: Tree, dir: Path, env: Env, process: Processor): (r: Tree)
    ensures r.Keys == t.Keys
    decreases Dir(t), 0
  {
    map n | n in t :: ProcessedNode(t[n], dir + [n], env, process)
  }

  ghost predicate NodeProcessable(node: Node, path: Path, env: Env, process: Processor)
    decreases node, 1
  {
    match node
    case File(x) => process(path, x, env).Success?
    case Dir(e) => Processable(e, path, env, process)
  }

  /** The preprocessor accepts every regular file below `dir`. */
  ghost predicate Processable(t: Tree, dir: Path, env: Env, process: Processor)
    decreases Dir(t), 0
  {
    forall n :: n in t ==> NodeProcessable(t[n], dir + [n], env, process)
  }

  ghost predicate NodeFailsWith(node: Node, path: Path, env: Env, process: Processor, error: Error)
    decreases node, 1
  {
    match node
    case File(x) =>
      process(path, x, env).Failure? && error == PreprocessorFailed(path, process(path, x, env).error)
    case Dir(e) => FailsWith(e, path, env, process, error)
  }

  /** `error` is the preprocessor's error for some regular file below `dir`, reported
      with that file's path. */
  ghost predicate FailsWith(t: Tree, dir: Path, env: Env, process: Processor, error: Error)
    decreases Dir(t), 0
  {
    exists n :: n in t && NodeFailsWith(t[n], dir + [n], env, process, error)
  }

  ghost predicate NodePartly(node: Node, result: Node, path: Path, env: Env, process: Processor)
    decreases node, 1
  {
    match node
    case File(x) =>
      result == node
      || (process(path, x, env).Success? && result == File(process(path, x, env).value))
    case Dir(e) => result.Dir? && PartlyProcessed(e, result.entries, path, env, process)
  }

  /** `r` is `t` with some of its files replaced by their preprocessed text: the same
      entries, and each file either untouched or processed. */
  ghost predicate PartlyProcessed(t: Tree, r: Tree, dir: Path, env: Env, process: Processor)
    decreases Dir(t), 0
  {
    t.Keys == r.Keys && forall n :: n in t ==> NodePartly(t[n], r[n], dir + [n], env, process)
  }

  lemma {:induction false} UntouchedIsPartly(t: Tree, dir: Path, env: Env, process: Processor)
    ensures PartlyProcessed(t, t, dir, env, process)
    decreases Dir(t)
  {
    forall n | n in t ensures NodePartly(t[n], t[n], dir + [n], env, process) {
      if t[n].Dir? {
        UntouchedIsPartly(t[n].entries, dir + [n], env, process);
      }
    }
  }

  lemma {:induction false} ProcessedIsPartly(t: Tree, dir: Path, env: Env, process: Processor)
    ensures PartlyProcessed(t, Processed(t, dir, env, process), dir, env, process)
    decreases Dir(t)
  {
    var r := Processed(t, dir, env, process);
    forall n | n in t ensures NodePartly(t[n], r[n], dir + [n], env, process) {
      if t[n].Dir? {
        ProcessedIsPartly(t[n].entries, dir + [n], env, process);
      }
    }
  }

  /** The walk: entries are taken from a snapshot of the directory in an unspecified
      order; a subdirectory is walked where it is met. */
  method PreprocessFiles(t: Tree, dir: Path, env: Env, process: Processor)
    returns (r: Tree, outcome: Outcome<Error>)
    ensures outcome.Pass? <==> Processable(t, dir, env, process)
    ensures outcome.Pass? ==> r == Processed(t, dir, env, process)
    ensures outcome.Fail? ==> FailsWith(t, dir, env, process, outcome.error)
    ensures outcome.Fail? ==> PartlyProcessed(t, r, dir, env, process)
    decreases Dir(t), 1
  {
    ghost var target := Processed(t, dir, env, process);
    r := t;
    var pending := t.Keys;
    while pending != {}
      invariant pending <= t.Keys && r.Keys == t.Keys
      invariant forall n :: n in t && n !in pending
                  ==> r[n] == target[n] && NodeProcessable(t[n], dir + [n], env, process)
      invariant forall n :: n in pending ==> r[n] == t[n]
      decreases pending
    {
      var n :| n in pending;
      var node;
      node, outcome := PreprocessEntry(t, n, dir, env, process);
      r := r[n := node];
      if outcome.Fail? {
        StoppedIsPartly(t, r, dir, env, process, pending - {n});
        return;
      }
      pending := pending - {n};
    }
    outcome := Pass;
  }

  /** One entry of the walk: a file is processed and overwritten, a directory walked. */
  method PreprocessEntry(t: Tree, n: string, dir: Path, env: Env, process: Processor)
    returns (node: Node, outcome: Outcome<Error>)
    requires n in t
    ensures outcome.Pass? <==> NodeProcessable(t[n], dir + [n], env, process)
    ensures outcome.Pass? ==> node == Processed(t, dir, env, process)[n]
    ensures outcome.Fail? ==> NodeFailsWith(t[n], dir + [n], env, process, outcome.error)
    ensures outcome.Fail? ==> NodePartly(t[n], node, dir + [n], env, process)
    decreases Dir(t), 0
  {
    match t[n] {
      case File(x) =>
        var result := process(dir + [n], x, env);
        if result.Failure? {
          return t[n], Fail(PreprocessorFailed(dir + [n], result.error));
        }
        node, outcome := File(result.value), Pass;
      case Dir(e) =>
        var sub;
        sub, outcome := PreprocessFiles(e, dir + [n], env, process);
        node := Dir(sub);
    }
  }

  /** The directory as a stopped walk leaves it: done entries processed, pending
      entries untouched (except one that may be partly processed). */
  lemma StoppedIsPartly(t: Tree, r: Tree, dir: Path, env: Env, process: Processor, pending: set<string>)
    requires pending <= t.Keys && r.Keys == t.Keys
    requires forall n :: n in t && n !in pending ==>
               r[n] == Processed(t, dir, env, process)[n]
               || NodePartly(t[n], r[n], dir + [n], env, process)
    requires forall n :: n in pending ==> r[n] == t[n]
    ensures PartlyProcessed(t, r, dir, env, process)
  {
    forall n | n in t ensures NodePartly(t[n], r[n], dir + [n], env, process) {
      if n in pending {
        if t[n].Dir? {
          UntouchedIsPartly(t[n].entries, dir + [n], env, process);
        }
      } else if r[n] == Processed(t, dir, env, process)[n] {
        assert r[n] == ProcessedNode(t[n], dir + [n], env, process);
        if t[n].Dir? {
          ProcessedIsPartly(t[n].entries, dir + [n], env, process);
        }
      }
    }
  }

  /** Read as a map from paths to contents, the processed tree holds at each file path
      what the preprocessor makes of that file, given its full path. */
  lemma {:induction false} ProcessedFileAt(t: Tree, dir: Path, env: Env, process: Processor, p: Path)
    requires Processable(t, dir, env, process)
    ensures FileAt(t, p).None? ==> FileAt(Processed(t, dir, env, process), p).None?
    ensures FileAt(t, p).Some? ==>
              process(dir + p, FileAt(t, p).value, env).Success?
              && FileAt(Processed(t, dir, env, process), p)
                 == Some(process(dir + p, FileAt(t, p).value, env).value)
    decreases p
  {
    if |p| >= 1 && p[0] in t {
      var n := p[0];
      assert NodeProcessable(t[n], dir + [n], env, process);
      if |p| == 1 {
        assert dir + p == dir + [n];
      } else if t[n].Dir? {
        ProcessedFileAt(t[n].entries, dir + [n], env, process, p[1..]);
        assert dir + [n] + p[1..] == dir + p;
      }
    }
  }
}
