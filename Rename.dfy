/** The second rendering pass, replace_filename_wildcards: below the project directory,
    every entry whose name holds a wildcard token is renamed in place, a directory's
    contents before the directory itself. */
module Rename {
  import opened Wrappers
  import opened Errors
  import opened Text
  import opened FileTree

  ghost predicate AllShrink(ws: seq<Wildcard>)
  {
    forall i :: 0 <= i < |ws| ==> Shrinks(ws[i])
  }

  /** The wildcards whose token occurs in `name`, in order: one fs::rename is issued for
      each, every one of them on the entry's original path. */
  function Hits(name: string, ws: seq<Wildcard>): (r: seq<Wildcard>)
    ensures forall w :: w in r ==> w in ws
  {
    if ws == [] then []
    else (if Find(name, ws[0].token).Some? then [ws[0]] else []) + Hits(name, ws[1..])
  }

  lemma {:induction false} HitsAreOccurringTokens(name: string, ws: seq<Wildcard>, w: Wildcard)
    ensures w in Hits(name, ws) <==> (w in ws && Contains(name, w.token))
    decreases |ws|
  {
    if ws != [] {
      HitsAreOccurringTokens(name, ws[1..], w);
      assert w in ws <==> w == ws[0] || w in ws[1..];
    }
  }

  /** The name an entry ends up with when its rename succeeds: a name without tokens
      is kept, otherwise the first hit's token is replaced throughout. */
  function NewName(name: string, ws: seq<Wildcard>): (r: string)
    requires AllShrink(ws)
  {
    var hits := Hits(name, ws);
    if hits == [] then name
    else
      assert hits[0] in hits;
      ReplaceAll(name, hits[0])
  }

  /** A name holding no token is kept; a renamed name no longer holds the token that
      was replaced. */
  lemma NewNameProperties(name: string, ws: seq<Wildcard>)
    requires AllShrink(ws)
    ensures (forall w :: w in ws ==> !Contains(name, w.token)) ==> NewName(name, ws) == name
    ensures |Hits(name, ws)| >= 1 ==> !Contains(NewName(name, ws), Hits(name, ws)[0].token)
  {
    var hits := Hits(name, ws);
    if |hits| >= 1 {
      HitsAreOccurringTokens(name, ws, hits[0]);
    }
  }

  /** The new name of every entry of a directory. */
  function NameMap(t: Tree, ws: seq<Wildcard>): (names: map<string, string>)
    requires AllShrink(ws)
    ensures names.Keys == t.Keys
  {
    map n | n in t :: NewName(n, ws)
  }

  /** No two entries of a directory get the same name. */
  ghost predicate Injective(names: map<string, string>)
  {
    forall a, b :: a in names && b in names && a != b ==> names[a] != names[b]
  }

  /** A renaming of a directory's entries that clobbers nothing: no two entries get the
      same name, and no renamed entry takes the name of an entry already there. */
  ghost predicate Distinct(names: map<string, string>)
  {
    Injective(names) && forall a :: a in names && names[a] != a ==> names[a] !in names
  }

  ghost predicate ClashFree(t: Tree, ws: seq<Wildcard>)
    requires AllShrink(ws)
    decreases Dir(t)
  {
    Distinct(NameMap(t, ws))
    && forall n :: n in t && t[n].Dir? ==> ClashFree(t[n].entries, ws)
  }

  /** No entry name holds two different tokens (the second fs::rename would fail). */
  ghost predicate SingleHits(t: Tree, ws: seq<Wildcard>)
    decreases Dir(t)
  {
    forall n :: n in t ==> |Hits(n, ws)| <= 1 && (t[n].Dir? ==> SingleHits(t[n].entries, ws))
  }

  /** `error` reports an entry below `dir` whose name holds two different tokens. */
  ghost predicate DoubleHitAt(t: Tree, dir: Path, ws: seq<Wildcard>, error: Error)
    decreases Dir(t)
  {
    exists n :: n in t
      && ((|Hits(n, ws)| >= 2 && error == RenameSourceMissing(dir + [n]))
          || (t[n].Dir? && DoubleHitAt(t[n].entries, dir + [n], ws, error)))
  }

  /** The entries of `m` not yet renamed, under their old names. */
  function Kept(m: Tree, done: set<string>): Tree
  {
    map n | n in m && n !in done :: m[n]
  }

  /** The renamed entries, under their new names with their new contents. */
  function Shifted(names: map<string, string>, done: set<string>, moved: Tree): Tree
    requires done <= names.Keys && done <= moved.Keys && Injective(names)
  {
    map n | n in done :: names[n] := moved[n]
  }

  lemma NotShiftedOnto(m: Tree, names: map<string, string>, done: set<string>, moved: Tree, n: string)
    requires names.Keys == m.Keys && moved.Keys == m.Keys && Distinct(names)
    requires done <= m.Keys && n in m && n !in done
    ensures n !in Shifted(names, done, moved)
    ensures names[n] !in Shifted(names, done, moved)
  {
  }

  lemma StepShifted(names: map<string, string>, done: set<string>, moved: Tree, n: string)
    requires done <= names.Keys && done <= moved.Keys && n in names && n in moved
    requires Injective(names)
    ensures Shifted(names, done + {n}, moved) == Shifted(names, done, moved)[names[n] := moved[n]]
  {
  }

  lemma UnionRemove(a: Tree, b: Tree, n: string)
    requires n !in b
    ensures (a + b) - {n} == (a - {n}) + b
  {
  }

  lemma UnionUpdate(a: Tree, b: Tree, x: string, v: Node)
    ensures (a + b)[x := v] == a + b[x := v]
  {
  }

  /** Renaming one more entry: it leaves its old name and appears under its new one. */
  lemma MovedStep(m: Tree, names: map<string, string>, done: set<string>, moved: Tree, n: string)
    requires names.Keys == m.Keys && moved.Keys == m.Keys && Distinct(names)
    requires done <= m.Keys && n in m && n !in done
    ensures Kept(m, done + {n}) + Shifted(names, done + {n}, moved)
         == ((Kept(m, done) + Shifted(names, done, moved)) - {n})[names[n] := moved[n]]
  {
    var k := Kept(m, done);
    var sh := Shifted(names, done, moved);
    NotShiftedOnto(m, names, done, moved, n);
    StepShifted(names, done, moved, n);
    assert Kept(m, done + {n}) == k - {n};
    UnionRemove(k, sh, n);
    UnionUpdate(k - {n}, sh, names[n], moved[n]);
  }

  function RenamedNode(node: Node, ws: seq<Wildcard>): Node
    requires AllShrink(ws)
    requires node.Dir? ==> ClashFree(node.entries, ws)
    decreases node, 3
  {
    match node
    case File(_) => node
    case Dir(e) => Dir(RenameTree(e, ws))
  }

  /** Every entry with its renamed contents, still under its old name. */
  function RenamedEntries(t: Tree, ws: seq<Wildcard>): (moved: Tree)
    requires AllShrink(ws) && ClashFree(t, ws)
    ensures moved.Keys == t.Keys
    decreases Dir(t), 1
  {
    map n | n in t :: RenamedNode(t[n], ws)
  }

  /** The directory after a successful pass: every entry under its new name, every
      subdirectory renamed throughout. */
  function RenameTree(t: Tree, ws: seq<Wildcard>): (r: Tree)
    requires AllShrink(ws) && ClashFree(t, ws)
    decreases Dir(t), 2
  {
    Shifted(NameMap(t, ws), t.Keys, RenamedEntries(t, ws))
  }

  /** The walk over a snapshot of the directory, its entries taken in an unspecified
      order; the first failing entry stops it. */
  method RenameEntries(t: Tree, dir: Path, ws: seq<Wildcard>) returns (r: Tree, outcome: Outcome<Error>)
    requires AllShrink(ws) && ClashFree(t, ws)
    ensures outcome.Pass? <==> SingleHits(t, ws)
    ensures outcome.Pass? ==> r == RenameTree(t, ws)
    ensures outcome.Fail? ==> DoubleHitAt(t, dir, ws, outcome.error)
    decreases Dir(t), 2
  {
    // The directory is `untouched + renamed` throughout.
    var untouched := t;
    var renamed: Tree := map[];
    var pending := t.Keys;
    var done: set<string> := {};
    while pending != {}
      invariant pending <= t.Keys && done == t.Keys - pending
      invariant Walked(t, NameMap(t, ws), RenamedEntries(t, ws), ws, done, untouched, renamed)
      decreases pending
    {
      var n :| n in pending;
      var stopped;
      untouched, renamed, stopped, outcome := WalkEntry(t, dir, ws, done, n, untouched, renamed);
      if outcome.Fail? {
        r := stopped;
        return;
      }
      MarkDone(t.Keys, pending, done, n);
      done := done + {n};
      pending := pending - {n};
    }
    MarkDone(t.Keys, pending, done, "");
    WalkedAll(t, ws, untouched, renamed);
    r := renamed;
    outcome := Pass;
  }

  /** The state of the walk once the entries in `done` are renamed: those entries sit
      under their new names `names` with their new contents `moved`, the others are
      untouched, and none of them so far holds two tokens. */
  ghost predicate Walked(t: Tree, names: map<string, string>, moved: Tree, ws: seq<Wildcard>,
                         done: set<string>, untouched: Tree, renamed: Tree)
  {
    done <= t.Keys && names.Keys == t.Keys && moved.Keys == t.Keys && Injective(names)
    && untouched == Kept(t, done)
    && renamed == Shifted(names, done, moved)
    && SingleHits(Restrict(t, done), ws)
  }

  lemma WalkedAll(t: Tree, ws: seq<Wildcard>, untouched: Tree, renamed: Tree)
    requires AllShrink(ws) && ClashFree(t, ws)
    requires Walked(t, NameMap(t, ws), RenamedEntries(t, ws), ws, t.Keys, untouched, renamed)
    ensures renamed == RenameTree(t, ws) && SingleHits(t, ws)
  {
    assert Restrict(t, t.Keys) == t;
  }

  /** One turn of the walk: the entry `n` is renamed and moves from the untouched
      entries to the renamed ones, or the walk stops with the directory as it is. */
  method WalkEntry(t: Tree, dir: Path, ws: seq<Wildcard>, done: set<string>, n: string,
                   untouched: Tree, renamed: Tree)
    returns (untouched': Tree, renamed': Tree, stopped: Tree, outcome: Outcome<Error>)
    requires AllShrink(ws) && ClashFree(t, ws)
    requires n in t && n !in done
    requires Walked(t, NameMap(t, ws), RenamedEntries(t, ws), ws, done, untouched, renamed)
    ensures outcome.Pass? ==>
              Walked(t, NameMap(t, ws), RenamedEntries(t, ws), ws, done + {n}, untouched', renamed')
    ensures outcome.Pass? ==>
              untouched' + renamed'
              == ((untouched + renamed) - {n})[NameMap(t, ws)[n] := RenamedEntries(t, ws)[n]]
    ensures outcome.Fail? ==> DoubleHitAt(t, dir, ws, outcome.error) && !SingleHits(t, ws)
    decreases Dir(t), 1
  {
    var newName, node;
    newName, node, outcome := RenameEntry(t, n, dir, ws);
    untouched' := untouched - {n};
    renamed' := renamed[newName := node];
    stopped := untouched' + renamed';
    if outcome.Fail? {
      FailingEntry(t, n, dir, ws, outcome.error);
    } else {
      WalkedStep(t, NameMap(t, ws), RenamedEntries(t, ws), ws, done, n, untouched, renamed);
      MovedStep(t, NameMap(t, ws), done, RenamedEntries(t, ws), n);
    }
  }

  /** Renaming one more entry keeps the walk's state. */
  lemma WalkedStep(t: Tree, names: map<string, string>, moved: Tree, ws: seq<Wildcard>,
                   done: set<string>, n: string, untouched: Tree, renamed: Tree)
    requires Walked(t, names, moved, ws, done, untouched, renamed)
    requires n in t && n !in done && EntrySingleHits(t, n, ws)
    ensures Walked(t, names, moved, ws, done + {n}, untouched - {n}, renamed[names[n] := moved[n]])
  {
    StepShifted(names, done, moved, n);
    SingleHitsStep(t, done, n, ws);
    KeptStep(t, done, n);
  }

  lemma KeptStep(t: Tree, done: set<string>, n: string)
    ensures Kept(t, done + {n}) == Kept(t, done) - {n}
  {
  }

  lemma FailingEntry(t: Tree, n: string, dir: Path, ws: seq<Wildcard>, error: Error)
    requires n in t
    requires (|Hits(n, ws)| >= 2 && error == RenameSourceMissing(dir + [n]))
             || (t[n].Dir? && DoubleHitAt(t[n].entries, dir + [n], ws, error))
    ensures DoubleHitAt(t, dir, ws, error)
    ensures !SingleHits(t, ws)
  {
    if t[n].Dir? && DoubleHitAt(t[n].entries, dir + [n], ws, error) {
      DoubleHitIsNotSingle(t[n].entries, dir + [n], ws, error);
    }
  }

  lemma {:induction false} DoubleHitIsNotSingle(t: Tree, dir: Path, ws: seq<Wildcard>, error: Error)
    requires DoubleHitAt(t, dir, ws, error)
    ensures !SingleHits(t, ws)
    decreases Dir(t)
  {
    var n :| n in t
      && ((|Hits(n, ws)| >= 2 && error == RenameSourceMissing(dir + [n]))
          || (t[n].Dir? && DoubleHitAt(t[n].entries, dir + [n], ws, error)));
    if |Hits(n, ws)| < 2 {
      DoubleHitIsNotSingle(t[n].entries, dir + [n], ws, error);
    }
  }

  /** Bookkeeping of the walk: the entries done and pending partition the snapshot. */
  lemma MarkDone(keys: set<string>, pending: set<string>, done: set<string>, n: string)
    requires pending <= keys && done == keys - pending
    ensures n in pending ==> done + {n} == keys - (pending - {n})
    ensures pending == {} ==> done == keys
  {
  }

  function Restrict(t: Tree, done: set<string>): Tree
  {
    map n | n in t && n in done :: t[n]
  }

  lemma SingleHitsStep(t: Tree, done: set<string>, n: string, ws: seq<Wildcard>)
    requires n in t && SingleHits(Restrict(t, done), ws) && EntrySingleHits(t, n, ws)
    ensures SingleHits(Restrict(t, done + {n}), ws)
  {
    var before := Restrict(t, done);
    var after := Restrict(t, done + {n});
    forall m | m in after ensures |Hits(m, ws)| <= 1 && (after[m].Dir? ==> SingleHits(after[m].entries, ws)) {
      if m != n {
        assert m in before && after[m] == before[m];
      }
    }
  }

  ghost predicate EntrySingleHits(t: Tree, n: string, ws: seq<Wildcard>)
    requires n in t
  {
    |Hits(n, ws)| <= 1 && (t[n].Dir? ==> SingleHits(t[n].entries, ws))
  }

  /** One entry of the walk: a subdirectory is walked first, then the entry is renamed
      once for each wildcard its original name holds; a second rename finds the
      original path gone. On failure the entry's name and contents as far as the walk
      got are returned. */
  method RenameEntry(t: Tree, n: string, dir: Path, ws: seq<Wildcard>)
    returns (newName: string, node: Node, outcome: Outcome<Error>)
    requires AllShrink(ws) && ClashFree(t, ws) && n in t
    ensures outcome.Pass? <==> EntrySingleHits(t, n, ws)
    ensures outcome.Pass? ==> newName == NameMap(t, ws)[n] && node == RenamedEntries(t, ws)[n]
    ensures outcome.Fail? ==>
              (|Hits(n, ws)| >= 2 && outcome.error == RenameSourceMissing(dir + [n]))
              || (t[n].Dir? && DoubleHitAt(t[n].entries, dir + [n], ws, outcome.error))
    decreases Dir(t), 0
  {
    node := t[n];
    newName := n;
    if node.Dir? {
      var sub, o := RenameEntries(node.entries, dir + [n], ws);
      node := Dir(sub);
      if o.Fail? {
        outcome := o;
        return;
      }
    }
    var hits := Hits(n, ws);
    if |hits| >= 1 {
      assert hits[0] in hits;
      newName := Replace(n, hits[0]);
    }
    if |hits| >= 2 {
      outcome := Fail(RenameSourceMissing(dir + [n]));
    } else {
      outcome := Pass;
    }
  }

  /** Renames every component of a path. */
  function NewPath(p: Path, ws: seq<Wildcard>): (q: Path)
    requires AllShrink(ws)
    ensures |q| == |p|
  {
    if p == [] then [] else [NewName(p[0], ws)] + NewPath(p[1..], ws)
  }

  /** An entry is found under its new name with its renamed contents. */
  lemma RenameTreeAt(t: Tree, ws: seq<Wildcard>, n: string)
    requires AllShrink(ws) && ClashFree(t, ws) && n in t
    ensures NewName(n, ws) in RenameTree(t, ws)
    ensures RenameTree(t, ws)[NewName(n, ws)] == RenamedNode(t[n], ws)
  {
    var names := NameMap(t, ws);
    assert names[n] == NewName(n, ws);
    assert RenamedEntries(t, ws)[n] == RenamedNode(t[n], ws);
  }

  /** Every entry after renaming is some original entry under its new name. */
  lemma RenameTreeEntry(t: Tree, ws: seq<Wildcard>, k: string) returns (n: string)
    requires AllShrink(ws) && ClashFree(t, ws) && k in RenameTree(t, ws)
    ensures n in t && NewName(n, ws) == k
  {
    var names := NameMap(t, ws);
    n :| n in t.Keys && names[n] == k;
  }

  /** Renaming moves files without changing them: the file at a path is found, with the
      same contents, at that path with each component renamed. */
  lemma {:induction false} RenameTreeFileAt(t: Tree, ws: seq<Wildcard>, p: Path)
    requires AllShrink(ws) && ClashFree(t, ws)
    requires FileAt(t, p).Some?
    ensures FileAt(RenameTree(t, ws), NewPath(p, ws)) == FileAt(t, p)
    decreases p
  {
    var n := p[0];
    var q := NewPath(p, ws);
    RenameTreeAt(t, ws, n);
    if |p| > 1 {
      var e := t[n].entries;
      RenameTreeFileAt(e, ws, p[1..]);
      assert q[1..] == NewPath(p[1..], ws);
      assert NodeAt(RenameTree(t, ws), q) == NodeAt(RenameTree(e, ws), q[1..]);
    }
  }

  lemma NodeAtRenamed(t: Tree, ws: seq<Wildcard>, n: string, rest: Path)
    requires AllShrink(ws) && ClashFree(t, ws) && n in t && |rest| >= 1
    ensures t[n].File? ==> NodeAt(RenameTree(t, ws), [NewName(n, ws)] + rest).None?
    ensures t[n].Dir? ==> NodeAt(RenameTree(t, ws), [NewName(n, ws)] + rest)
                          == NodeAt(RenameTree(t[n].entries, ws), rest)
  {
    RenameTreeAt(t, ws, n);
    assert ([NewName(n, ws)] + rest)[1..] == rest;
  }

  /** Below the top level, a file of the renamed tree lies in a renamed subdirectory. */
  lemma RenamedSubdirectory(t: Tree, ws: seq<Wildcard>, q: Path, n: string)
    requires AllShrink(ws) && ClashFree(t, ws) && n in t
    requires |q| > 1 && q[0] == NewName(n, ws) && FileAt(RenameTree(t, ws), q).Some?
    ensures t[n].Dir? && ClashFree(t[n].entries, ws)
    ensures FileAt(RenameTree(t[n].entries, ws), q[1..]) == FileAt(RenameTree(t, ws), q)
  {
    assert q == [NewName(n, ws)] + q[1..];
    NodeAtRenamed(t, ws, n, q[1..]);
  }

  lemma FileAtStep(t: Tree, n: string, rest: Path)
    requires n in t && t[n].Dir? && |rest| >= 1
    ensures FileAt(t, [n] + rest) == FileAt(t[n].entries, rest)
  {
    assert ([n] + rest)[1..] == rest;
  }

  /** Nothing is invented either: every file after renaming is a file of the original
      tree, found at the path that renames to its new path. */
  lemma {:induction false} RenameTreeFileOrigin(t: Tree, ws: seq<Wildcard>, q: Path) returns (p: Path)
    requires AllShrink(ws) && ClashFree(t, ws)
    requires FileAt(RenameTree(t, ws), q).Some?
    ensures NewPath(p, ws) == q && FileAt(t, p) == FileAt(RenameTree(t, ws), q)
    decreases q
  {
    var n := RenameTreeEntry(t, ws, q[0]);
    if |q| == 1 {
      RenameTreeAt(t, ws, n);
      p := [n];
    } else {
      RenamedSubdirectory(t, ws, q, n);
      var rest := RenameTreeFileOrigin(t[n].entries, ws, q[1..]);
      OriginStep(t, ws, q, n, rest);
      p := [n] + rest;
    }
  }

  /** The file found below the renamed subdirectory lies below the original one. */
  lemma OriginStep(t: Tree, ws: seq<Wildcard>, q: Path, n: string, rest: Path)
    requires AllShrink(ws) && n in t && t[n].Dir? && |q| > 1 && q[0] == NewName(n, ws)
    requires NewPath(rest, ws) == q[1..] && FileAt(t[n].entries, rest).Some?
    ensures NewPath([n] + rest, ws) == q && FileAt(t, [n] + rest) == FileAt(t[n].entries, rest)
  {
    FileAtStep(t, n, rest);
    assert ([n] + rest)[1..] == rest;
    assert q == [q[0]] + q[1..];
  }
}
