/** The preprocessor context of preprocess_project_files: five environment variables,
    one of which, ENV:FEATURES, lists features as comma-separated text. */
module Context {
  import opened Wrappers
  import opened Catalog
  import opened Materialize

  // ---------------------------------------------------------------------------
  // Comma-joined lists

  /** fplus::join: the items with the separator between consecutive ones. */
  function Join(sep: string, items: seq<string>): string
  {
    if items == [] then ""
    else if |items| == 1 then items[0]
    else items[0] + sep + Join(sep, items[1..])
  }

  function FirstIndex(s: string, c: char): (i: nat)
    requires c in s
    ensures i < |s| && s[i] == c && c !in s[..i]
  {
    if s[0] == c then 0
    else
      var i := FirstIndex(s[1..], c);
      assert s[..i + 1] == [s[0]] + s[1..][..i];
      i + 1
  }

  /** The pieces of `s` between occurrences of `c`; the reader of a joined list. */
  function Split(s: string, c: char): (r: seq<string>)
    ensures |r| >= 1
    ensures forall i :: 0 <= i < |r| ==> c !in r[i]
    decreases |s|
  {
    if c !in s then [s]
    else
      var i := FirstIndex(s, c);
      [s[..i]] + Split(s[i + 1..], c)
  }

  /** Splitting undoes joining, for a non-empty list of items free of the separator. */
  lemma {:induction false} SplitJoin(items: seq<string>, c: char)
    requires |items| >= 1
    requires forall i :: 0 <= i < |items| ==> c !in items[i]
    ensures Split(Join([c], items), c) == items
    decreases |items|
  {
    if |items| > 1 {
      var rest := items[1..];
      var s := Join([c], items);
      assert s == items[0] + ([c] + Join([c], rest));
      var n := |items[0]|;
      assert s[..n] == items[0];
      assert s[n] == c;
      assert FirstIndex(s, c) == n;
      assert s[n + 1..] == Join([c], rest);
      SplitJoin(rest, c);
    } else {
      assert c !in items[0];
    }
  }

  /** Joining undoes splitting: no text is lost. */
  lemma {:induction false} JoinSplit(s: string, c: char)
    ensures Join([c], Split(s, c)) == s
    decreases |s|
  {
    if c in s {
      var i := FirstIndex(s, c);
      var rest := Split(s[i + 1..], c);
      JoinSplit(s[i + 1..], c);
      assert Split(s, c)[1..] == rest;
      assert s == s[..i] + [c] + s[i + 1..];
    }
  }

  lemma {:induction false} JoinAppend(sep: string, a: seq<string>, b: seq<string>)
    requires |a| >= 1 && |b| >= 1
    ensures Join(sep, a + b) == Join(sep, a) + sep + Join(sep, b)
    decreases |a|
  {
    if |a| > 1 {
      assert (a + b)[1..] == a[1..] + b;
      JoinAppend(sep, a[1..], b);
    } else {
      assert (a + b)[1..] == b;
    }
  }

  /** The pieces of every item, in order. */
  function SplitAll(items: seq<string>, c: char): (r: seq<string>)
    ensures |r| >= |items|
  {
    if items == [] then [] else Split(items[0], c) + SplitAll(items[1..], c)
  }

  lemma SplitAllCons(item: string, items: seq<string>, c: char)
    ensures SplitAll([item] + items, c) == Split(item, c) + SplitAll(items, c)
  {
    assert ([item] + items)[1..] == items;
  }

  lemma {:induction false} SplitAllAppend(a: seq<string>, b: seq<string>, c: char)
    ensures SplitAll(a + b, c) == SplitAll(a, c) + SplitAll(b, c)
    decreases |a|
  {
    if a != [] {
      assert (a + b)[1..] == a[1..] + b;
      SplitAllAppend(a[1..], b, c);
    } else {
      assert a + b == b;
    }
  }

  /** Items free of the separator are their own pieces. */
  lemma {:induction false} SplitAllFree(items: seq<string>, c: char)
    requires forall i :: 0 <= i < |items| ==> c !in items[i]
    ensures SplitAll(items, c) == items
    decreases |items|
  {
    if items != [] {
      SplitAllFree(items[1..], c);
    }
  }

  /** The first separator at `i` splits off the piece before it. */
  lemma SplitAt(s: string, c: char, i: nat)
    requires i < |s| && s[i] == c && c !in s[..i]
    ensures Split(s, c) == [s[..i]] + Split(s[i + 1..], c)
  {
    assert c in s;
  }

  /** A separator between two texts separates their pieces. */
  lemma {:induction false} SplitConcat(x: string, y: string, c: char)
    ensures Split(x + [c] + y, c) == Split(x, c) + Split(y, c)
    decreases |x|, 1
  {
    if c in x {
      SplitConcatAfter(x, y, c);
    } else {
      var s := x + [c] + y;
      assert s[..|x|] == x && s[|x|] == c;
      SplitAt(s, c, |x|);
      assert s[|x| + 1..] == y;
    }
  }

  lemma {:induction false} SplitConcatAfter(x: string, y: string, c: char)
    requires c in x
    ensures Split(x + [c] + y, c) == Split(x, c) + Split(y, c)
    decreases |x|, 0
  {
    var s := x + [c] + y;
    var i := FirstIndex(x, c);
    var rest := x[i + 1..];
    assert s[..i] == x[..i] && s[i] == c;
    SplitAt(s, c, i);
    assert s[i + 1..] == rest + [c] + y;
    SplitConcat(rest, y, c);
    assert Split(x, c) == [x[..i]] + Split(rest, c);
    AppendAssociates([x[..i]], Split(rest, c), Split(y, c));
  }

  lemma AppendAssociates(a: seq<string>, b: seq<string>, c: seq<string>)
    ensures a + (b + c) == (a + b) + c
  {
  }

  /** Splitting a joined list gives the pieces of every item, in order. */
  lemma {:induction false} SplitJoinAll(items: seq<string>, c: char)
    requires |items| >= 1
    ensures Split(Join([c], items), c) == SplitAll(items, c)
    decreases |items|
  {
    if |items| > 1 {
      SplitConcat(items[0], Join([c], items[1..]), c);
      SplitJoinAll(items[1..], c);
    } else {
      assert SplitAll(items[1..], c) == [];
    }
  }

  // ---------------------------------------------------------------------------
  // ENV:FEATURES

  /** The names of the non-optional features, in declaration order. */
  function MandatoryNames(features: seq<Feature>): (names: seq<string>)
    ensures forall n :: n in names <==> exists f :: f in features && !f.optional && f.name == n
  {
    if features == [] then []
    else
      assert forall f :: f in features <==> f == features[0] || f in features[1..];
      (if features[0].optional then [] else [features[0].name]) + MandatoryNames(features[1..])
  }

  /** The one entry a parent contributes: its mandatory names joined by commas. */
  function ParentEntry(template: Template, parent: string): string
    requires ParentResolvable(template, parent)
  {
    Join(",", MandatoryNames(ParentFeatures(template, parent)))
  }

  /** The parents' entries that survive the drop_if: those not equal to a requested name. */
  function KeptEntries(config: Configuration, template: Template, parents: seq<string>): (r: seq<string>)
    requires forall p :: p in parents ==> ParentResolvable(template, p)
    ensures forall e :: e in r <==> (e !in config.features
                                     && exists p :: p in parents && ParentEntry(template, p) == e)
  {
    if parents == [] then []
    else
      var e := ParentEntry(template, parents[0]);
      assert forall p :: p in parents <==> p == parents[0] || p in parents[1..];
      (if e in config.features then [] else [e]) + KeptEntries(config, template, parents[1..])
  }

  /** The items joined into ENV:FEATURES: the requested names, then the kept entries. */
  function FeatureItems(config: Configuration, template: Template, kind: Kind): seq<string>
    requires ParentsResolvable(template, kind)
  {
    config.features
    + (if kind.inherits.Some? then KeptEntries(config, template, kind.inherits.value) else [])
  }

  function FeaturesValue(config: Configuration, template: Template, kind: Kind): string
    requires ParentsResolvable(template, kind)
  {
    Join(",", FeatureItems(config, template, kind))
  }

  /** The preprocessor's environment: ENV:KIND is the template type, ENV:MODE the kind. */
  function Variables(config: Configuration, template: Template, kind: Kind): map<string, string>
    requires ParentsResolvable(template, kind)
  {
    map[
      "ENV:LANGUAGE" := config.language,
      "ENV:STANDARD" := config.standard,
      "ENV:KIND" := config.template,
      "ENV:MODE" := config.kind,
      "ENV:FEATURES" := FeaturesValue(config, template, kind)]
  }

  /** What a reader of ENV:FEATURES sees from the kept parents: the pieces of each kept
      entry, in `inherits` order. */
  function KeptNames(config: Configuration, template: Template, parents: seq<string>): seq<string>
    requires forall p :: p in parents ==> ParentResolvable(template, p)
  {
    if parents == [] then []
    else
      (if ParentEntry(template, parents[0]) in config.features then []
       else Split(ParentEntry(template, parents[0]), ','))
      + KeptNames(config, template, parents[1..])
  }

  lemma {:induction false} KeptNamesSplit(config: Configuration, template: Template, parents: seq<string>)
    requires forall p :: p in parents ==> ParentResolvable(template, p)
    ensures KeptNames(config, template, parents) == SplitAll(KeptEntries(config, template, parents), ',')
    decreases |parents|
  {
    if parents != [] {
      var rest := parents[1..];
      assert forall p :: p in rest ==> p in parents;
      KeptNamesSplit(config, template, rest);
      var e := ParentEntry(template, parents[0]);
      var entries := KeptEntries(config, template, rest);
      if e !in config.features {
        assert KeptEntries(config, template, parents) == [e] + entries;
        SplitAllCons(e, entries, ',');
      } else {
        assert KeptEntries(config, template, parents) == entries;
      }
    }
  }

  /** A parent's entry reads back as its mandatory names, or as one empty name when it
      has none. */
  lemma ParentEntryPieces(template: Template, p: string)
    requires ParentResolvable(template, p)
    requires forall n :: n in MandatoryNames(ParentFeatures(template, p)) ==> ',' !in n
    ensures var names := MandatoryNames(ParentFeatures(template, p));
            Split(ParentEntry(template, p), ',') == if names == [] then [""] else names
  {
    var names := MandatoryNames(ParentFeatures(template, p));
    if names != [] {
      forall i | 0 <= i < |names| ensures ',' !in names[i] {
        assert names[i] in names;
      }
      SplitJoin(names, ',');
    }
  }

  /** What a reader of ENV:FEATURES gets back when splitting it at commas: the requested
      names in order, then the pieces of every kept parent entry in `inherits` order (a
      parent without mandatory features gives one empty name). An empty value reads
      back as one empty name. */
  lemma FeaturesValueLists(config: Configuration, template: Template, kind: Kind)
    requires ParentsResolvable(template, kind)
    requires forall n :: n in config.features ==> ',' !in n
    ensures var names := config.features
              + (if kind.inherits.Some? then KeptNames(config, template, kind.inherits.value) else []);
            Split(FeaturesValue(config, template, kind), ',') == if names == [] then [""] else names
  {
    var kept := if kind.inherits.Some? then KeptEntries(config, template, kind.inherits.value) else [];
    var keptNames := if kind.inherits.Some? then KeptNames(config, template, kind.inherits.value) else [];
    if kind.inherits.Some? {
      KeptNamesSplit(config, template, kind.inherits.value);
    }
    assert keptNames == SplitAll(kept, ',');
    var items := FeatureItems(config, template, kind);
    assert items == config.features + kept;
    forall i | 0 <= i < |config.features| ensures ',' !in config.features[i] {
      assert config.features[i] in config.features;
    }
    SplitAllFree(config.features, ',');
    SplitAllAppend(config.features, kept, ',');
    if items != [] {
      SplitJoinAll(items, ',');
    }
  }

  /** A parent whose features are all optional still leaves an empty entry behind. */
  lemma OptionalParentLeavesEmptyEntry(config: Configuration, template: Template, kind: Kind)
    requires ParentsResolvable(template, kind)
    requires config.features == ["a"]
    requires kind.inherits == Some(["base"])
    requires ParentFeatures(template, "base") == [Feature("x", true)]
    ensures FeaturesValue(config, template, kind) == "a,"
    ensures Split(FeaturesValue(config, template, kind), ',') == ["a", ""]
  {
    var declared := ParentFeatures(template, "base");
    assert MandatoryNames(declared[1..]) == [];
    assert MandatoryNames(declared) == [];
    assert ParentEntry(template, "base") == "";
    assert kind.inherits.value[1..] == [];
    assert KeptEntries(config, template, kind.inherits.value) == [""];
    var items := FeatureItems(config, template, kind);
    assert items == ["a", ""];
    assert items[1..] == [""];
    assert Join(",", items) == "a" + "," + "";
    assert "a" + "," + "" == "a,";
    SplitConcat("a", "", ',');
  }

  /** A parent's entry is dropped only when it equals one requested name, so a parent
      with two mandatory features repeats them even when both were requested. */
  lemma RequestedNamesRepeat(config: Configuration, template: Template, kind: Kind)
    requires ParentsResolvable(template, kind)
    requires config.features == ["a", "b"]
    requires kind.inherits == Some(["base"])
    requires ParentFeatures(template, "base") == [Feature("a", false), Feature("b", false)]
    ensures FeaturesValue(config, template, kind) == "a,b,a,b"
  {
    var parents := kind.inherits.value;
    var declared := ParentFeatures(template, "base");
    assert declared[1..][1..] == [];
    assert MandatoryNames(declared[1..]) == ["b"];
    assert MandatoryNames(declared) == ["a", "b"];
    assert Join(",", ["a", "b"]) == "a" + "," + "b";
    assert ParentEntry(template, "base") == "a,b";
    assert parents[1..] == [];
    assert KeptEntries(config, template, parents) == ["a,b"];
    var items := FeatureItems(config, template, kind);
    assert items == ["a", "b", "a,b"];
    assert items[1..] == ["b", "a,b"] && items[1..][1..] == ["a,b"];
    assert Join(",", items[1..]) == "b" + "," + "a,b";
  }

  /** The kind's own features, mandatory or not, have no part in ENV:FEATURES. */
  lemma OwnFeaturesNotListed(config: Configuration, template: Template, kind: Kind,
                             features: Option<seq<Feature>>)
    requires ParentsResolvable(template, kind)
    ensures ParentsResolvable(template, kind.(features := features))
    ensures FeaturesValue(config, template, kind.(features := features))
         == FeaturesValue(config, template, kind)
  {
  }
}
