/** The template catalog (languages, templates, kinds, features), the validation of a
    request against it, and the configuration record built from a validated request. */
module Catalog {
  import opened Wrappers
  import opened Errors

  datatype Feature = Feature(name: string, optional: bool)

  /** `features` and `inherits` are absent (`None`) when the catalog entry omits them. */
  datatype Kind = Kind(name: string, features: Option<seq<Feature>>, inherits: Option<seq<string>>)

  datatype Template = Template(name: string, kinds: seq<Kind>)

  datatype Language = Language(name: string, standards: seq<int>, templates: seq<Template>)

  /** The command-line values the scaffolder validates: `--name`, `type`, `--kind`,
      `--lang`, `--std` and `--features`. */
  datatype Request = Request(
    name: string, template: string, kind: string,
    language: string, standard: int, features: seq<string>)

  /** The record every later stage reads; `standard` is the decimal text of `--std`. */
  datatype Configuration = Configuration(
    name: string, language: string, standard: string,
    template: string, kind: string, features: seq<string>)

  // ---------------------------------------------------------------------------
  // Lookups: std::ranges::find by name, i.e. the FIRST element with that name.

  function IndexOf<T>(xs: seq<T>, name: string, nameOf: T -> string): (r: Option<nat>)
    ensures r.Some? ==> r.value < |xs| && nameOf(xs[r.value]) == name
    ensures r.Some? ==> forall j :: 0 <= j < r.value ==> nameOf(xs[j]) != name
    ensures r.None? <==> forall j :: 0 <= j < |xs| ==> nameOf(xs[j]) != name
  {
    if |xs| == 0 then None
    else if nameOf(xs[0]) == name then Some(0)
    else match IndexOf(xs[1..], name, nameOf)
      case None => None
      case Some(i) => Some(i + 1)
  }

  /** The first element named `name`, if any. */
  function Named<T>(xs: seq<T>, name: string, nameOf: T -> string): (r: Option<T>)
    ensures r.Some? ==> r.value in xs && nameOf(r.value) == name
    ensures r.None? <==> forall x :: x in xs ==> nameOf(x) != name
    ensures r.Some? ==> exists i :: 0 <= i < |xs| && xs[i] == r.value
                           && forall j :: 0 <= j < i ==> nameOf(xs[j]) != name
  {
    match IndexOf(xs, name, nameOf)
    case None => None
    case Some(i) => Some(xs[i])
  }

  function LanguageName(l: Language): string { l.name }
  function TemplateName(t: Template): string { t.name }
  function KindName(k: Kind): string { k.name }

  function FindLanguage(languages: seq<Language>, name: string): Option<Language>
  {
    Named(languages, name, LanguageName)
  }

  function FindTemplate(language: Language, name: string): Option<Template>
  {
    Named(language.templates, name, TemplateName)
  }

  function FindKind(template: Template, name: string): Option<Kind>
  {
    Named(template.kinds, name, KindName)
  }

  // ---------------------------------------------------------------------------
  // sanitize_argument_values

  /** Checks language, then standard, then template, then kind, and reports the first
      lookup that misses. Requested features never cause a failure. */
  function Sanitize(languages: seq<Language>, request: Request): (r: Outcome<Error>)
    ensures r == Fail(UnknownLanguage(request.language))
        <==> forall l :: l in languages ==> l.name != request.language
    ensures r == Fail(UnsupportedStandard(request.standard, request.language))
        <==> exists l :: FindLanguage(languages, request.language) == Some(l)
                        && request.standard !in l.standards
    ensures r == Fail(UnknownTemplate(request.template))
        <==> exists l :: FindLanguage(languages, request.language) == Some(l)
                        && request.standard in l.standards
                        && forall t :: t in l.templates ==> t.name != request.template
    ensures r == Fail(UnknownKind(request.kind, request.template))
        <==> exists l, t :: FindLanguage(languages, request.language) == Some(l)
                           && request.standard in l.standards
                           && FindTemplate(l, request.template) == Some(t)
                           && forall k :: k in t.kinds ==> k.name != request.kind
  {
    match FindLanguage(languages, request.language)
    case None => Fail(UnknownLanguage(request.language))
    case Some(language) =>
      if request.standard !in language.standards then
        Fail(UnsupportedStandard(request.standard, request.language))
      else match FindTemplate(language, request.template)
        case None => Fail(UnknownTemplate(request.template))
        case Some(template) =>
          match FindKind(template, request.kind)
          case None => Fail(UnknownKind(request.kind, request.template))
          case Some(kind) => Pass
  }

  /** The four lookups all hit: the first language with the requested name admits the
      standard, the first template of it with the requested name exists, and that
      template has a kind with the requested name. */
  ghost predicate Resolvable(languages: seq<Language>, request: Request)
  {
    exists i, j :: 0 <= i < |languages| && languages[i].name == request.language
      && (forall i' :: 0 <= i' < i ==> languages[i'].name != request.language)
      && request.standard in languages[i].standards
      && 0 <= j < |languages[i].templates| && languages[i].templates[j].name == request.template
      && (forall j' :: 0 <= j' < j ==> languages[i].templates[j'].name != request.template)
      && exists k :: k in languages[i].templates[j].kinds && k.name == request.kind
  }

  /** Validation succeeds exactly when the four lookups hit. */
  lemma SanitizePassesIffResolvable(languages: seq<Language>, request: Request)
    ensures Sanitize(languages, request) == Pass <==> Resolvable(languages, request)
  {
    if Sanitize(languages, request) == Pass {
      PassingIsResolvable(languages, request);
    }
    if Resolvable(languages, request) {
      ResolvablePasses(languages, request);
    }
  }

  lemma PassingIsResolvable(languages: seq<Language>, request: Request)
    requires Sanitize(languages, request) == Pass
    ensures Resolvable(languages, request)
  {
    var i := IndexOf(languages, request.language, LanguageName).value;
    var templates := languages[i].templates;
    var j := IndexOf(templates, request.template, TemplateName).value;
    var k := FindKind(templates[j], request.kind).value;
    assert k in templates[j].kinds && k.name == request.kind;
  }

  lemma ResolvablePasses(languages: seq<Language>, request: Request)
    requires Resolvable(languages, request)
    ensures Sanitize(languages, request) == Pass
  {
    var i, j :| 0 <= i < |languages| && languages[i].name == request.language
      && (forall i' :: 0 <= i' < i ==> languages[i'].name != request.language)
      && request.standard in languages[i].standards
      && 0 <= j < |languages[i].templates| && languages[i].templates[j].name == request.template
      && (forall j' :: 0 <= j' < j ==> languages[i].templates[j'].name != request.template)
      && exists k :: k in languages[i].templates[j].kinds && k.name == request.kind;
    var language := languages[i];
    FirstNamed(languages, request.language, LanguageName, i);
    var template := language.templates[j];
    FirstNamed(language.templates, request.template, TemplateName, j);
    var k :| k in template.kinds && k.name == request.kind;
    assert KindName(k) == request.kind;
  }

  /** The element at `i` is the first with its name, so the lookup finds it. */
  lemma FirstNamed<T>(xs: seq<T>, name: string, nameOf: T -> string, i: nat)
    requires i < |xs| && nameOf(xs[i]) == name
    requires forall j :: 0 <= j < i ==> nameOf(xs[j]) != name
    ensures Named(xs, name, nameOf) == Some(xs[i])
  {
    assert IndexOf(xs, name, nameOf).Some?;
  }

  /** The requested features play no part in validation: a request that passes the
      four lookups is accepted even when it names features the kind does not declare. */
  lemma SanitizeIgnoresFeatures(languages: seq<Language>, request: Request, features: seq<string>)
    ensures Sanitize(languages, request.(features := features)) == Sanitize(languages, request)
  {
  }

  // ---------------------------------------------------------------------------
  // configure_project: the standard is rendered the way `std::stringstream << int` does.

  function DigitChar(d: nat): (c: char)
    requires d < 10
  {
    "0123456789"[d]
  }

  predicate IsDigit(c: char)
  {
    '0' <= c <= '9'
  }

  /** Decimal digits of a natural number, most significant first, without leading zeros. */
  function Digits(n: nat): (s: string)
    ensures |s| >= 1 && forall i :: 0 <= i < |s| ==> IsDigit(s[i])
    ensures s[0] == '0' ==> n == 0
  {
    if n < 10 then [DigitChar(n)] else Digits(n / 10) + [DigitChar(n % 10)]
  }

  /** Decimal text of an integer: a leading '-' for negative values. */
  function DecimalString(n: int): string
  {
    if n < 0 then "-" + Digits(-n) else Digits(n)
  }

  /** Value of a string of decimal digits. */
  function DigitsValue(s: string): nat
    requires forall i :: 0 <= i < |s| ==> IsDigit(s[i])
  {
    if |s| == 0 then 0
    else
      var last := s[|s| - 1];
      assert IsDigit(last);
      DigitsValue(s[..|s| - 1]) * 10 + (last as int - '0' as int)
  }

  /** Reads the text `DecimalString` writes; the inverse used to state that no two
      standards render to the same configuration string. */
  function ParseDecimal(s: string): Option<int>
  {
    if |s| > 0 && s[0] == '-' && |s| > 1 && forall i :: 1 <= i < |s| ==> IsDigit(s[i]) then
      Some(-(DigitsValue(s[1..]) as int))
    else if |s| > 0 && forall i :: 0 <= i < |s| ==> IsDigit(s[i]) then
      Some(DigitsValue(s))
    else None
  }

  lemma {:induction false} DigitsValueOfDigits(n: nat)
    ensures DigitsValue(Digits(n)) == n
  {
    if n >= 10 {
      DigitsValueOfDigits(n / 10);
      var s := Digits(n);
      assert s[..|s| - 1] == Digits(n / 10);
    }
  }

  /** The standard's text reads back as the standard. */
  lemma DecimalRoundTrip(n: int)
    ensures ParseDecimal(DecimalString(n)) == Some(n)
  {
    if n < 0 {
      NegativeRoundTrip(n);
    } else {
      NaturalRoundTrip(n);
    }
  }

  lemma NegativeRoundTrip(n: int)
    requires n < 0
    ensures ParseDecimal("-" + Digits(-n)) == Some(n)
  {
    var d := Digits(-n);
    var s := "-" + d;
    DigitsValueOfDigits(-n);
    assert s[1..] == d;
    assert forall i :: 1 <= i < |s| ==> IsDigit(s[i]) by {
      forall i | 1 <= i < |s|
        ensures IsDigit(s[i])
      {
        assert s[i] == d[i - 1];
      }
    }
    ParseNegative(s);
  }

  lemma ParseNegative(s: string)
    requires |s| > 1 && s[0] == '-' && forall i :: 1 <= i < |s| ==> IsDigit(s[i])
    ensures ParseDecimal(s) == Some(-(DigitsValue(s[1..]) as int))
  {
  }

  lemma NaturalRoundTrip(n: nat)
    ensures ParseDecimal(Digits(n)) == Some(n)
  {
    DigitsValueOfDigits(n);
    assert IsDigit(Digits(n)[0]);
  }

  /** configure_project: copies the request's values and renders the standard as text. */
  function Configure(request: Request): (c: Configuration)
    ensures ParseDecimal(c.standard) == Some(request.standard)
    ensures c.name == request.name && c.language == request.language
    ensures c.template == request.template && c.kind == request.kind
    ensures c.features == request.features
  {
    DecimalRoundTrip(request.standard);
    Configuration(request.name, request.language, DecimalString(request.standard),
                  request.template, request.kind, request.features)
  }
}
