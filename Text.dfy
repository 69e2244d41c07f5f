/** Literal token substitution on strings: `std::string::find` and the scaffolder's
    `replace`, which replaces the leftmost occurrence of a token and rescans from the
    start until the token no longer occurs. */
module Text {
  import opened Wrappers

  /** A wildcard: a literal token and the text that replaces it. */
  datatype Wildcard = Wildcard(token: string, value: string)

  /** Number of occurrences of the character `c` in `s`. */
  function Count(c: char, s: string): nat
  {
    if s == [] then 0 else (if s[0] == c then 1 else 0) + Count(c, s[1..])
  }

  lemma {:induction false} CountAppend(c: char, a: string, b: string)
    ensures Count(c, a + b) == Count(c, a) + Count(c, b)
  {
    if a != [] {
      assert (a + b)[1..] == a[1..] + b;
      CountAppend(c, a[1..], b);
    } else {
      assert a + b == b;
    }
  }

  /** `t` occurs in `s` at position `i`. */
  predicate OccursAt(s: string, t: string, i: int)
  {
    0 <= i && i + |t| <= |s| && s[i..i + |t|] == t
  }

  ghost predicate Contains(s: string, t: string)
  {
    exists i :: OccursAt(s, t, i)
  }

  /** `std::string::find`: the position of the leftmost occurrence of `t` in `s`. */
  function Find(s: string, t: string): (r: Option<nat>)
    ensures r.Some? ==> OccursAt(s, t, r.value)
    ensures r.Some? ==> forall j :: 0 <= j < r.value ==> !OccursAt(s, t, j)
    ensures r.None? <==> !Contains(s, t)
  {
    if |s| < |t| then
      assert forall j :: !OccursAt(s, t, j);
      None
    else if s[..|t|] == t then Some(0)
    else
      match Find(s[1..], t)
      case None =>
        FindNoneStep(s, t);
        None
      case Some(i) =>
        FindSomeStep(s, t, i);
        Some(i + 1)
  }

  /** Dropping the first character moves every later occurrence one place left. */
  lemma ShiftOccurrence(s: string, t: string, j: int)
    requires |s| > 0 && j > 0
    ensures OccursAt(s, t, j) == OccursAt(s[1..], t, j - 1)
  {
    if j + |t| <= |s| {
      assert s[j..j + |t|] == s[1..][j - 1..j - 1 + |t|];
    }
  }

  lemma FindNoneStep(s: string, t: string)
    requires |s| >= |t| && s[..|t|] != t && !Contains(s[1..], t)
    ensures !Contains(s, t)
  {
    if Contains(s, t) {
      var j :| OccursAt(s, t, j);
      assert j != 0;
      ShiftOccurrence(s, t, j);
      assert false;
    }
  }

  lemma FindSomeStep(s: string, t: string, i: nat)
    requires |s| >= |t| && s[..|t|] != t
    requires OccursAt(s[1..], t, i) && forall j :: 0 <= j < i ==> !OccursAt(s[1..], t, j)
    ensures OccursAt(s, t, i + 1) && forall j :: 0 <= j < i + 1 ==> !OccursAt(s, t, j)
  {
    ShiftOccurrence(s, t, i + 1);
    forall j | 0 < j < i + 1
      ensures !OccursAt(s, t, j)
    {
      ShiftOccurrence(s, t, j);
    }
  }

  /** `s` with the occurrence of `w.token` at `i` replaced by `w.value`. */
  function ReplaceAt(s: string, w: Wildcard, i: nat): string
    requires OccursAt(s, w.token, i)
  {
    s[..i] + w.value + s[i + |w.token|..]
  }

  /** Repeated leftmost replacement terminates: some character occurs fewer times in
      the value than in the token, so each step lowers that character's count. */
  ghost predicate Shrinks(w: Wildcard)
  {
    exists c :: Count(c, w.value) < Count(c, w.token)
  }

  ghost function ShrinkingChar(w: Wildcard): (c: char)
    requires Shrinks(w)
    ensures Count(c, w.value) < Count(c, w.token)
  {
    var c :| Count(c, w.value) < Count(c, w.token); c
  }

  lemma CountAfterReplace(s: string, w: Wildcard, i: nat, c: char)
    requires OccursAt(s, w.token, i)
    ensures Count(c, ReplaceAt(s, w, i)) + Count(c, w.token) == Count(c, s) + Count(c, w.value)
  {
    var t := w.token;
    assert s == s[..i] + (t + s[i + |t|..]);
    CountAppend(c, s[..i], t + s[i + |t|..]);
    CountAppend(c, t, s[i + |t|..]);
    CountAppend(c, s[..i], w.value + s[i + |t|..]);
    CountAppend(c, w.value, s[i + |t|..]);
    assert ReplaceAt(s, w, i) == s[..i] + (w.value + s[i + |t|..]);
  }

  /** The text `replace` returns: replace the leftmost occurrence, rescan, repeat. Text
      without the token needs no termination condition: it is returned at once. */
  function ReplaceAll(s: string, w: Wildcard): (r: string)
    requires Shrinks(w) || !Contains(s, w.token)
    ensures !Contains(r, w.token)
    ensures !Contains(s, w.token) ==> r == s
    decreases if Shrinks(w) then Count(ShrinkingChar(w), s) else 0
  {
    match Find(s, w.token)
    case None => s
    case Some(i) =>
      CountAfterReplace(s, w, i, ShrinkingChar(w));
      ReplaceAll(ReplaceAt(s, w, i), w)
  }

  /** `replace`: a loop that rescans the whole string after every replacement. */
  method Replace(content: string, w: Wildcard) returns (r: string)
    requires Shrinks(w) || !Contains(content, w.token)
    ensures r == ReplaceAll(content, w)
    ensures !Contains(r, w.token)
  {
    r := content;
    var position := Find(r, w.token);
    while position.Some?
      invariant Shrinks(w) || !Contains(r, w.token)
      invariant position == Find(r, w.token)
      invariant ReplaceAll(r, w) == ReplaceAll(content, w)
      decreases if Shrinks(w) then Count(ShrinkingChar(w), r) else 0
    {
      CountAfterReplace(r, w, position.value, ShrinkingChar(w));
      r := ReplaceAt(r, w, position.value);
      position := Find(r, w.token);
    }
  }

  // ---------------------------------------------------------------------------
  // When does the loop stop?

  /** If every character occurs at least as often in `v` as in `t`, then `v` is at
      least as long as `t`. */
  lemma {:induction false} CountsBoundLength(t: string, v: string)
    requires forall c :: Count(c, t) <= Count(c, v)
    ensures |t| <= |v|
    decreases |t|
  {
    if t != [] {
      var c := t[0];
      var j := IndexOfChar(v, c);
      var v' := v[..j] + v[j + 1..];
      assert v == v[..j] + [c] + v[j + 1..];
      forall x
        ensures Count(x, t[1..]) <= Count(x, v')
      {
        CountAppend(x, v[..j] + [c], v[j + 1..]);
        CountAppend(x, v[..j], [c]);
        CountAppend(x, v[..j], v[j + 1..]);
        assert Count(x, t) == (if x == c then 1 else 0) + Count(x, t[1..]);
      }
      CountsBoundLength(t[1..], v');
    }
  }

  lemma {:induction false} IndexOfChar(v: string, c: char) returns (j: nat)
    requires Count(c, v) > 0
    ensures j < |v| && v[j] == c
  {
    if v[0] != c {
      j := IndexOfChar(v[1..], c);
      j := j + 1;
    } else {
      j := 0;
    }
  }

  /** A value shorter than its token always lets `replace` terminate. */
  lemma ShorterValueShrinks(w: Wildcard)
    requires |w.value| < |w.token|
    ensures Shrinks(w)
  {
    if !Shrinks(w) {
      CountsBoundLength(w.token, w.value);
    }
  }

  /** A value that contains its own token never satisfies the termination condition. */
  lemma ContainingValueDoesNotShrink(w: Wildcard)
    requires Contains(w.value, w.token)
    ensures !Shrinks(w)
  {
    var i :| OccursAt(w.value, w.token, i);
    var v := w.value;
    assert v == v[..i] + (w.token + v[i + |w.token|..]);
    forall c
      ensures Count(c, w.token) <= Count(c, v)
    {
      CountAppend(c, v[..i], w.token + v[i + |w.token|..]);
      CountAppend(c, w.token, v[i + |w.token|..]);
    }
  }

  /** With a value that contains its token (a project named `x!PROJECT!`), every step
      of `replace` leaves an occurrence behind, so the loop never exits. */
  lemma ContainingValueNeverSettles(s: string, w: Wildcard)
    requires Contains(w.value, w.token) && Contains(s, w.token)
    ensures Find(s, w.token).Some?
    ensures Contains(ReplaceAt(s, w, Find(s, w.token).value), w.token)
  {
    var i := Find(s, w.token).value;
    var k :| OccursAt(w.value, w.token, k);
    ValueOccurrenceSurvives(s, w, i, k);
  }

  /** An occurrence of the token inside the value is found in the result of replacing. */
  lemma ValueOccurrenceSurvives(s: string, w: Wildcard, i: nat, k: nat)
    requires OccursAt(s, w.token, i) && OccursAt(w.value, w.token, k)
    ensures OccursAt(ReplaceAt(s, w, i), w.token, i + k)
  {
    MiddleSlice(s[..i], w.value, s[i + |w.token|..], k, |w.token|);
  }

  /** A slice lying inside the middle part of a concatenation. */
  lemma MiddleSlice(a: string, b: string, c: string, k: nat, len: nat)
    requires k + len <= |b|
    ensures (a + b + c)[|a| + k..|a| + k + len] == b[k..k + len]
  {
    var x := a + b + c;
    assert x[|a|..] == b + c;
    assert x[|a| + k..|a| + k + len] == (b + c)[k..k + len];
  }

  /** A string without the token's first character holds no occurrence of the token. */
  lemma MissingFirstCharMeansAbsent(s: string, t: string)
    requires |t| > 0 && t[0] !in s
    ensures !Contains(s, t)
  {
  }

  /** `Find` returns any occurrence that has no occurrence before it. */
  lemma FindIsLeftmost(s: string, t: string, i: nat)
    requires OccursAt(s, t, i)
    requires forall j :: 0 <= j < i ==> !OccursAt(s, t, j)
    ensures Find(s, t) == Some(i)
  {
  }

  /** One step of `replace`: the leftmost occurrence is replaced, then the scan restarts. */
  lemma ReplaceAllStep(s: string, w: Wildcard, i: nat)
    requires Shrinks(w) && Find(s, w.token) == Some(i)
    ensures ReplaceAll(s, w) == ReplaceAll(ReplaceAt(s, w, i), w)
  {
  }

  /** An occurrence at `i` with no occurrence before it, and none left after replacing
      it: `replace` performs exactly that one replacement. */
  lemma ReplaceSingleOccurrence(s: string, w: Wildcard, i: nat)
    requires Shrinks(w) && OccursAt(s, w.token, i)
    requires forall j :: 0 <= j < i ==> !OccursAt(s, w.token, j)
    requires !Contains(ReplaceAt(s, w, i), w.token)
    ensures ReplaceAll(s, w) == ReplaceAt(s, w, i)
  {
    FindIsLeftmost(s, w.token, i);
    ReplaceAllStep(s, w, i);
  }

  /** A token met once, between text lacking its first character, with a value lacking
      it too: `replace` replaces that one occurrence and stops. */
  lemma ReplaceLoneToken(a: string, w: Wildcard, b: string)
    requires Shrinks(w) && |w.token| > 0
    requires w.token[0] !in a && w.token[0] !in w.value && w.token[0] !in b
    ensures ReplaceAll(a + w.token + b, w) == a + w.value + b
  {
    var s := a + w.token + b;
    var i := |a|;
    MiddleSlice(a, w.token, b, 0, |w.token|);
    assert w.token[0..|w.token|] == w.token;
    forall j | 0 <= j < i
      ensures !OccursAt(s, w.token, j)
    {
      assert s[j] == a[j];
      if j + |w.token| <= |s| {
        assert s[j..j + |w.token|][0] == s[j];
      }
    }
    assert s[..i] == a && s[i + |w.token|..] == b;
    MissingFirstCharMeansAbsent(a + w.value + b, w.token);
    ReplaceSingleOccurrence(s, w, i);
  }

  // ---------------------------------------------------------------------------
  // Two examples for the project-name token.

  lemma ProjectHeaderExample()
    ensures Shrinks(Wildcard("!PROJECT!", "demo"))
    ensures ReplaceAll("!PROJECT!.h", Wildcard("!PROJECT!", "demo")) == "demo.h"
  {
    var w := Wildcard("!PROJECT!", "demo");
    ShorterValueShrinks(w);
    ReplaceLoneToken("", w, ".h");
    assert "" + w.token + ".h" == "!PROJECT!.h";
    assert "" + w.value + ".h" == "demo.h";
  }

  lemma ProjectClassExample()
    ensures Shrinks(Wildcard("!PROJECT!", "demo"))
    ensures ReplaceAll("class " + "!PROJECT!" + "Main {}", Wildcard("!PROJECT!", "demo"))
         == "class " + "demo" + "Main {}"
  {
    var w := Wildcard("!PROJECT!", "demo");
    ShorterValueShrinks(w);
    ReplaceLoneToken("class ", w, "Main {}");
  }
}
