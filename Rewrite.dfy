/** The third rendering pass, replace_file_wildcards: every regular file below the
    project directory is rewritten once per wildcard, each time with `replace`. */
module Rewrite {
  import opened Wrappers
  import opened Text
  import opened FileTree
  import opened Rename

  /** A file's text after the pass: the wildcards applied one after the other. */
  function RewriteText(x: string, ws: seq<Wildcard>): string
    requires AllShrink(ws)
    decreases |ws|
  {
    if ws == [] then x else RewriteText(ReplaceAll(x, ws[0]), ws[1..])
  }

  /** Text holding none of the tokens is left as it is. */
  lemma {:induction false} RewriteUntouched(x: string, ws: seq<Wildcard>)
    requires AllShrink(ws)
    requires forall i :: 0 <= i < |ws| ==> !Contains(x, ws[i].token)
    ensures RewriteText(x, ws) == x
    decreases |ws|
  {
    if ws != [] {
      assert ReplaceAll(x, ws[0]) == x;
      RewriteUntouched(x, ws[1..]);
    }
  }

  /** The last wildcard applied leaves no occurrence of its token. */
  lemma {:induction false} RewriteClearsLast(x: string, ws: seq<Wildcard>)
    requires AllShrink(ws) && |ws| >= 1
    ensures !Contains(RewriteText(x, ws), ws[|ws| - 1].token)
    decreases |ws|
  {
    if |ws| > 1 {
      RewriteClearsLast(ReplaceAll(x, ws[0]), ws[1..]);
    }
  }

  /** When replacing one wildcard never brings in another wildcard's token (which holds
      when no value contains a token and tokens cannot form across a replaced value),
      no token at all survives the pass. */
  lemma {:induction false} RewriteClearsAll(x: string, ws: seq<Wildcard>, i: nat)
    requires AllShrink(ws) && i < |ws|
    requires forall j, k :: 0 <= j < |ws| && 0 <= k < |ws| && j != k ==> ReplaceKeeps(ws[j], ws[k].token)
    ensures !Contains(RewriteText(x, ws), ws[i].token)
    decreases |ws|
  {
    if i == 0 {
      KeptAbsent(ReplaceAll(x, ws[0]), ws[1..], ws[0].token);
    } else {
      forall j, k | 0 <= j < |ws[1..]| && 0 <= k < |ws[1..]| && j != k
        ensures ReplaceKeeps(ws[1..][j], ws[1..][k].token)
      {
        assert ws[1..][j] == ws[j + 1] && ws[1..][k] == ws[k + 1];
      }
      RewriteClearsAll(ReplaceAll(x, ws[0]), ws[1..], i - 1);
    }
  }

  /** Replacing `w` throughout never makes a text that lacks `token` contain it. */
  ghost predicate ReplaceKeeps(w: Wildcard, token: string)
    requires Shrinks(w)
  {
    forall s :: !Contains(s, token) ==> !Contains(ReplaceAll(s, w), token)
  }

  lemma {:induction false} KeptAbsent(x: string, ws: seq<Wildcard>, token: string)
    requires AllShrink(ws) && !Contains(x, token)
    requires forall j :: 0 <= j < |ws| ==> ReplaceKeeps(ws[j], token)
    ensures !Contains(RewriteText(x, ws), token)
    decreases |ws|
  {
    if ws != [] {
      assert ReplaceKeeps(ws[0], token);
      KeptAbsent(ReplaceAll(x, ws[0]), ws[1..], token);
    }
  }

  // ---------------------------------------------------------------------------
  // The walk

  function RewrittenNode(node: Node, ws: seq<Wildcard>): Node
    requires AllShrink(ws)
    decreases node, 1
  {
    match node
    case File(x) => File(RewriteText(x, ws))
    case Dir(e) => Dir(Rewritten(e, ws))
  }

  /** The directory after the pass: the same entries, every file rewritten. */
  function Rewritten(t: Tree, ws: seq<Wildcard>): (r: Tree)
    requires AllShrink(ws)
    ensures r.Keys == t.Keys
    decreases Dir(t), 0
  {
    map n | n in t :: RewrittenNode(t[n], ws)
  }

  /** `replace` applied to one file for each wildcard in turn, the file being read and
      written back each time. */
  method RewriteFile(x: string, ws: seq<Wildcard>) returns (y: string)
    requires AllShrink(ws)
    ensures y == RewriteText(x, ws)
  {
    y := x;
    var i := 0;
    while i < |ws|
      invariant 0 <= i <= |ws|
      invariant RewriteText(y, ws[i..]) == RewriteText(x, ws)
    {
      assert ws[i..][0] == ws[i] && ws[i..][1..] == ws[i + 1..];
      y := Replace(y, ws[i]);
      i := i + 1;
    }
  }

  /** The recursive walk over a snapshot of each directory. */
  method RewriteFiles(t: Tree, ws: seq<Wildcard>) returns (r: Tree)
    requires AllShrink(ws)
    ensures r == Rewritten(t, ws)
    decreases Dir(t)
  {
    ghost var target := Rewritten(t, ws);
    r := t;
    var pending := t.Keys;
    while pending != {}
      invariant pending <= t.Keys && r.Keys == t.Keys
      invariant forall n :: n in t && n !in pending ==> r[n] == target[n]
      invariant forall n :: n in pending ==> r[n] == t[n]
      decreases pending
    {
      var n :| n in pending;
      match t[n] {
        case File(x) =>
          var y := RewriteFile(x, ws);
          r := r[n := File(y)];
        case Dir(e) =>
          var sub := RewriteFiles(e, ws);
          r := r[n := Dir(sub)];
      }
      assert target[n] == RewrittenNode(t[n], ws);
      pending := pending - {n};
    }
  }

  /** Read as a map from paths to contents: every file keeps its path and gets the
      rewritten text; nothing else appears or disappears. */
  lemma {:induction false} RewrittenFileAt(t: Tree, ws: seq<Wildcard>, p: Path)
    requires AllShrink(ws)
    ensures FileAt(Rewritten(t, ws), p)
         == match FileAt(t, p) case None => None case Some(x) => Some(RewriteText(x, ws))
    decreases p
  {
    if |p| > 1 && p[0] in t && t[p[0]].Dir? {
      RewrittenFileAt(t[p[0]].entries, ws, p[1..]);
    }
  }
}
