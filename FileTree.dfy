/** Directory trees: a directory maps entry names to files or subdirectories.
    `FileAt` reads a tree as the map from relative paths to file contents. */
module FileTree {
  import opened Wrappers

  type Path = seq<string>

  datatype Node = File(text: string) | Dir(entries: Tree)

  type Tree = map<string, Node>

  /** The node at a relative path, if there is one. */
  function NodeAt(t: Tree, p: Path): Option<Node>
    decreases p
  {
    if |p| == 0 || p[0] !in t then None
    else if |p| == 1 then Some(t[p[0]])
    else match t[p[0]]
      case File(_) => None
      case Dir(e) => NodeAt(e, p[1..])
  }

  /** The contents of the regular file at a relative path, if there is one. */
  function FileAt(t: Tree, p: Path): Option<string>
  {
    match NodeAt(t, p)
    case Some(File(x)) => Some(x)
    case _ => None
  }

  /** A tree puts something at `p`: a node at `p` itself, or a file where `p` needs
      a directory. Copying such a tree over another can change what is at `p`. */
  predicate Touches(t: Tree, p: Path)
    decreases p
  {
    |p| > 0 && p[0] in t && (|p| == 1 || t[p[0]].File? || Touches(t[p[0]].entries, p[1..]))
  }

  /** `fs::copy(src, dst, recursive | overwrite_existing)`: every entry of `src` lands in
      `dst`; a directory present in both is merged entry by entry, any other entry of
      `src` replaces what `dst` had under that name. */
  function Overlay(dst: Tree, src: Tree): (r: Tree)
    ensures r.Keys == dst.Keys + src.Keys
    decreases Dir(src)
  {
    map n | n in dst.Keys + src.Keys ::
      if n !in src then dst[n]
      else if n in dst && dst[n].Dir? && src[n].Dir? then Dir(Overlay(dst[n].entries, src[n].entries))
      else src[n]
  }

  /** Later copies win: a file of the copied tree is what the result holds at its path. */
  lemma {:induction false} OverlayFileWins(dst: Tree, src: Tree, p: Path)
    requires FileAt(src, p).Some?
    ensures FileAt(Overlay(dst, src), p) == FileAt(src, p)
    decreases p
  {
    var r := Overlay(dst, src);
    var n := p[0];
    if |p| > 1 {
      var e := src[n].entries;
      if n in dst && dst[n].Dir? {
        OverlayFileWins(dst[n].entries, e, p[1..]);
      } else {
        assert r[n] == src[n];
      }
    }
  }

  /** What the copied tree does not touch keeps its contents. */
  lemma {:induction false} OverlayKeeps(dst: Tree, src: Tree, p: Path)
    requires !Touches(src, p)
    ensures FileAt(Overlay(dst, src), p) == FileAt(dst, p)
    decreases p
  {
    var r := Overlay(dst, src);
    if |p| > 1 && p[0] in src {
      var n := p[0];
      if n in dst && dst[n].Dir? {
        OverlayKeeps(dst[n].entries, src[n].entries, p[1..]);
      } else {
        assert r[n] == src[n];
        NothingWhereUntouched(src[n].entries, p[1..]);
      }
    }
  }

  lemma {:induction false} NothingWhereUntouched(t: Tree, p: Path)
    requires !Touches(t, p)
    ensures FileAt(t, p).None?
    decreases p
  {
    if |p| > 1 && p[0] in t {
      NothingWhereUntouched(t[p[0]].entries, p[1..]);
    }
  }

  /** Every file of a copy's result was a file of one of its two trees. */
  lemma {:induction false} OverlayFileOrigin(dst: Tree, src: Tree, p: Path)
    requires FileAt(Overlay(dst, src), p).Some?
    ensures FileAt(Overlay(dst, src), p) == FileAt(src, p)
         || FileAt(Overlay(dst, src), p) == FileAt(dst, p)
    decreases p
  {
    var n := p[0];
    if |p| > 1 && n in src && n in dst && dst[n].Dir? && src[n].Dir? {
      OverlayFileOrigin(dst[n].entries, src[n].entries, p[1..]);
    }
  }
}
