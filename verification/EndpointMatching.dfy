/** Resolving an observed call to an endpoint: the index with captured values, and the
    crawler's matcher, which must agree with it. */
module EndpointMatching {
  import opened Prelude
  import opened Templates

  datatype Endpoint = Endpoint(name: string, verb: string, uri: string)

  const CONFIDENCE_EXACT: real := 0.9
  const CONFIDENCE_TEMPLATE: real := 0.7

  function NormalizeUri(uri: string): string {
    var u := StripLeadingSlashes(uri);
    if |u| > 1 && u[|u| - 1] == '/' then StripTrailingSlashes(u) else u
  }

  /** A URI and a path lose exactly the slashes at their two ends. */
  lemma NormalizeUriMeaning(uri: string) returns (i: nat, j: nat)
    ensures Strips(uri, NormalizeUri(uri), i, j)
  {
    i := StripLeadingMeaning(uri);
    var u, r := uri[i..], NormalizeUri(uri);
    j := i + |r|;
    forall k | j <= k < |uri| ensures uri[k] == '/' { assert uri[k] == u[k - i]; }
    assert r == uri[i..j];
  }

  // ----- the order endpoints are considered in -----

  predicate SortedByName(es: seq<Endpoint>) {
    forall i, j :: 0 <= i < j < |es| ==> StrLe(es[i].name, es[j].name)
  }

  function InsertByName(es: seq<Endpoint>, e: Endpoint): (r: seq<Endpoint>)
    ensures multiset(r) == multiset(es) + multiset{e}
  {
    if es == [] then [e]
    else
      var n := |es| - 1;
      assert es == es[..n] + [es[n]];
      if StrLe(es[n].name, e.name) then es + [e]
      else InsertByName(es[..n], e) + [es[n]]
  }

  /** Stable sort by name. */
  function SortByName(es: seq<Endpoint>): (r: seq<Endpoint>)
    ensures multiset(r) == multiset(es)
  {
    if es == [] then []
    else
      assert es == es[..|es| - 1] + [es[|es| - 1]];
      InsertByName(SortByName(es[..|es| - 1]), es[|es| - 1])
  }

  lemma {:induction false} InsertMembers(es: seq<Endpoint>, e: Endpoint)
    ensures forall x :: x in InsertByName(es, e) ==> x == e || x in es
    decreases |es|
  {
    if es != [] { InsertMembers(es[..|es| - 1], e); }
  }

  lemma AppendSorted(es: seq<Endpoint>, e: Endpoint)
    requires SortedByName(es) && forall x :: x in es ==> StrLe(x.name, e.name)
    ensures SortedByName(es + [e])
  {
  }

  lemma {:induction false} InsertSorted(es: seq<Endpoint>, e: Endpoint)
    requires SortedByName(es)
    ensures SortedByName(InsertByName(es, e))
    decreases |es|
  {
    if es != [] {
      var n := |es| - 1;
      var last := es[n];
      forall x | x in es ensures StrLe(x.name, last.name) {
        StrLeTotal(last.name, last.name);
        var i :| 0 <= i < |es| && es[i] == x;
      }
      if StrLe(last.name, e.name) {
        forall x | x in es ensures StrLe(x.name, e.name) { StrLeTransitive(x.name, last.name, e.name); }
        AppendSorted(es, e);
      } else {
        StrLeTotal(last.name, e.name);
        InsertSorted(es[..n], e);
        InsertMembers(es[..n], e);
        AppendSorted(InsertByName(es[..n], e), last);
      }
    }
  }

  lemma {:induction false} SortSorted(es: seq<Endpoint>)
    ensures SortedByName(SortByName(es))
    decreases |es|
  {
    if es != [] {
      SortSorted(es[..|es| - 1]);
      InsertSorted(SortByName(es[..|es| - 1]), es[|es| - 1]);
    }
  }

  predicate DistinctNames(es: seq<Endpoint>) {
    forall i, j :: 0 <= i < j < |es| ==> es[i].name != es[j].name
  }

  ghost predicate SameElements(xs: seq<Endpoint>, ys: seq<Endpoint>) {
    forall e :: e in xs <==> e in ys
  }

  /** A sorted list of distinct names is determined by its elements. */
  lemma {:induction false} SortedUnique(xs: seq<Endpoint>, ys: seq<Endpoint>)
    requires SortedByName(xs) && SortedByName(ys) && DistinctNames(xs) && DistinctNames(ys)
    requires |xs| == |ys| && SameElements(xs, ys)
    ensures xs == ys
    decreases |xs|
  {
    if xs != [] {
      assert xs[0] in ys;
      var j :| 0 <= j < |ys| && ys[j] == xs[0];
      assert ys[0] in xs;
      var i :| 0 <= i < |xs| && xs[i] == ys[0];
      StrLeTotal(xs[0].name, ys[0].name);
      assert xs[0] == ys[0];
      TailElements(xs, ys);
      SortedUnique(xs[1..], ys[1..]);
    }
  }

  lemma TailElements(xs: seq<Endpoint>, ys: seq<Endpoint>)
    requires xs != [] && ys != [] && xs[0] == ys[0]
    requires DistinctNames(xs) && DistinctNames(ys) && SameElements(xs, ys)
    ensures SameElements(xs[1..], ys[1..])
  {
    forall e ensures e in xs[1..] <==> e in ys[1..] {
      assert e in xs <==> e == xs[0] || e in xs[1..];
      assert e in ys <==> e == ys[0] || e in ys[1..];
      if e in xs[1..] { var i :| 0 <= i < |xs[1..]| && xs[1..][i] == e; assert xs[i + 1] == e; }
      if e in ys[1..] { var i :| 0 <= i < |ys[1..]| && ys[1..][i] == e; assert ys[i + 1] == e; }
    }
  }

  lemma DistinctAsMultiset(es: seq<Endpoint>, r: seq<Endpoint>)
    requires multiset(r) == multiset(es) && DistinctNames(es)
    ensures DistinctNames(r)
  {
    forall i, j | 0 <= i < j < |r| ensures r[i].name != r[j].name {
      if r[i].name == r[j].name {
        assert r[i] in multiset(es) && r[j] in multiset(es);
        assert r[i] == r[j];
        TwiceIn(r, i, j);
        OnceIn(es, r[i]);
      }
    }
  }

  lemma TwiceIn(r: seq<Endpoint>, i: nat, j: nat)
    requires i < j < |r| && r[i] == r[j]
    ensures multiset(r)[r[i]] >= 2
  {
    assert r == r[..i] + [r[i]] + r[i + 1..j] + [r[j]] + r[j + 1..];
  }

  lemma {:induction false} OnceIn(es: seq<Endpoint>, e: Endpoint)
    requires DistinctNames(es)
    ensures multiset(es)[e] <= 1
    decreases |es|
  {
    if es != [] {
      OnceIn(es[1..], e);
      assert es == [es[0]] + es[1..];
      if e == es[0] {
        forall i | 0 <= i < |es[1..]| ensures es[1..][i] != e {
          assert es[i + 1].name != es[0].name;
        }
      }
    }
  }

  /** The order of the input does not matter: an ambiguous path always resolves the same way. */
  lemma OrderIsDeterministic(es: seq<Endpoint>, fs: seq<Endpoint>)
    requires multiset(es) == multiset(fs) && DistinctNames(es)
    ensures SortByName(es) == SortByName(fs)
  {
    SortSorted(es);
    SortSorted(fs);
    DistinctAsMultiset(es, SortByName(es));
    DistinctAsMultiset(es, SortByName(fs));
    forall e ensures e in SortByName(es) <==> e in SortByName(fs) {
      assert e in SortByName(es) <==> e in multiset(SortByName(es));
      assert e in SortByName(fs) <==> e in multiset(SortByName(fs));
    }
    assert |multiset(SortByName(es))| == |multiset(SortByName(fs))|;
    SortedUnique(SortByName(es), SortByName(fs));
  }

  // ----- matching as "the first endpoint that ..." -----

  function MethodOf(e: Endpoint): string { Upper(e.verb) }
  function UriOf(e: Endpoint): string { NormalizeUri(e.uri) }

  predicate Usable(e: Endpoint) { MethodOf(e) != "" && UriOf(e) != "" }

  predicate HasBrace(s: string) { '{' in s }

  predicate IsExact(e: Endpoint, verb: string, path: string, all: bool) {
    Usable(e) && MethodOf(e) == verb && UriOf(e) == path && (all || !HasBrace(UriOf(e)))
  }

  predicate IsTemplate(e: Endpoint, verb: string, path: string) {
    Usable(e) && MethodOf(e) == verb && HasBrace(UriOf(e)) && MatchPath(Compile(UriOf(e)), path).Some?
  }

  function FirstExact(es: seq<Endpoint>, verb: string, path: string, all: bool): Option<Endpoint> {
    if es == [] then None
    else
      var n := |es| - 1;
      match FirstExact(es[..n], verb, path, all)
      case Some(e) => Some(e)
      case None => if IsExact(es[n], verb, path, all) then Some(es[n]) else None
  }

  function FirstTemplate(es: seq<Endpoint>, verb: string, path: string): Option<Endpoint> {
    if es == [] then None
    else
      var n := |es| - 1;
      match FirstTemplate(es[..n], verb, path)
      case Some(e) => Some(e)
      case None => if IsTemplate(es[n], verb, path) then Some(es[n]) else None
  }

  datatype CallMatch = CallMatch(endpoint: Endpoint, pathValues: map<string, string>, confidence: real)

  /** The values a template endpoint captures from a path. */
  function Captured(e: Endpoint, path: string): map<string, string>
    requires MatchPath(Compile(UriOf(e)), path).Some?
  {
    var t := Compile(UriOf(e));
    MatchPathExact(t, path, MatchPath(t, path).value);
    ByName(Names(t), MatchPath(t, path).value)
  }

  function IndexMatch(es: seq<Endpoint>, verb: string, path: string): Option<CallMatch> {
    match FirstExact(es, verb, path, false)
    case Some(e) => Some(CallMatch(e, map[], CONFIDENCE_EXACT))
    case None =>
      match FirstTemplate(es, verb, path)
      case Some(e) => TemplateFits(es, verb, path); Some(CallMatch(e, Captured(e, path), CONFIDENCE_TEMPLATE))
      case None => None
  }

  function MatcherMatch(es: seq<Endpoint>, verb: string, path: string): Option<(Endpoint, real)> {
    match FirstExact(es, verb, path, true)
    case Some(e) => Some((e, CONFIDENCE_EXACT))
    case None =>
      match FirstTemplate(es, verb, path)
      case Some(e) => Some((e, CONFIDENCE_TEMPLATE))
      case None => None
  }

  lemma {:induction false} ExactFits(es: seq<Endpoint>, verb: string, path: string, all: bool)
    ensures var r := FirstExact(es, verb, path, all);
            if r.Some? then r.value in es && IsExact(r.value, verb, path, all)
            else forall e :: e in es ==> !IsExact(e, verb, path, all)
  {
    if es != [] {
      ExactFits(es[..|es| - 1], verb, path, all);
      assert forall e :: e in es ==> e == es[|es| - 1] || e in es[..|es| - 1];
    }
  }

  lemma {:induction false} TemplateFits(es: seq<Endpoint>, verb: string, path: string)
    ensures var r := FirstTemplate(es, verb, path);
            if r.Some? then r.value in es && IsTemplate(r.value, verb, path)
            else forall e :: e in es ==> !IsTemplate(e, verb, path)
  {
    if es != [] {
      TemplateFits(es[..|es| - 1], verb, path);
      assert forall e :: e in es ==> e == es[|es| - 1] || e in es[..|es| - 1];
    }
  }

  /** Which endpoints are an exact hit for a call: the same verb in any case of letters, the
      path as the URI, and unless `all` is set no brace in it. */
  lemma ExactMeaning(e: Endpoint, verb: string, path: string, all: bool)
    ensures IsExact(e, Upper(verb), path, all) <==>
            && e.verb != "" && path != "" && SameIgnoringCase(e.verb, verb)
            && NormalizeUri(e.uri) == path && (all || '{' !in path)
  {
    UpperIff(e.verb, verb);
  }

  /** And which are a template hit: a URI with a brace whose template the path instantiates. */
  lemma TemplateMeaning(e: Endpoint, verb: string, path: string)
    ensures IsTemplate(e, Upper(verb), path) <==>
            && e.verb != "" && SameIgnoringCase(e.verb, verb) && '{' in NormalizeUri(e.uri)
            && exists values :: Matches(Compile(NormalizeUri(e.uri)), path, values)
  {
    UpperIff(e.verb, verb);
    var t := Compile(NormalizeUri(e.uri));
    if MatchPath(t, path).Some? { MatchPathExact(t, path, MatchPath(t, path).value); }
    if values :| Matches(t, path, values) { MatchPathExact(t, path, values); }
  }

  lemma {:induction false} FirstExactLeast(es: seq<Endpoint>, verb: string, path: string, all: bool, e: Endpoint)
    requires SortedByName(es) && e in es && IsExact(e, verb, path, all)
    ensures FirstExact(es, verb, path, all).Some? && StrLe(FirstExact(es, verb, path, all).value.name, e.name)
    decreases |es|
  {
    var n := |es| - 1;
    StrLeTotal(e.name, e.name);
    ExactFits(es[..n], verb, path, all);
    var r := FirstExact(es[..n], verb, path, all);
    if e in es[..n] {
      FirstExactLeast(es[..n], verb, path, all, e);
    } else if r.Some? {
      var k :| 0 <= k < n && es[..n][k] == r.value;
      assert es[k] == r.value && es[n] == e;
    }
  }

  lemma {:induction false} FirstTemplateLeast(es: seq<Endpoint>, verb: string, path: string, e: Endpoint)
    requires SortedByName(es) && e in es && IsTemplate(e, verb, path)
    ensures FirstTemplate(es, verb, path).Some? && StrLe(FirstTemplate(es, verb, path).value.name, e.name)
    decreases |es|
  {
    var n := |es| - 1;
    StrLeTotal(e.name, e.name);
    TemplateFits(es[..n], verb, path);
    var r := FirstTemplate(es[..n], verb, path);
    if e in es[..n] {
      FirstTemplateLeast(es[..n], verb, path, e);
    } else if r.Some? {
      var k :| 0 <= k < n && es[..n][k] == r.value;
      assert es[k] == r.value && es[n] == e;
    }
  }

  /** An exact hit wins over every template, and among hits of one kind the least name. */
  lemma LeastNameWins(es: seq<Endpoint>, verb: string, path: string, e: Endpoint)
    requires SortedByName(es) && e in es
    ensures IsExact(e, verb, path, false) ==>
              match IndexMatch(es, verb, path)
              case None => false
              case Some(m) =>
                m.confidence == CONFIDENCE_EXACT && m.pathValues == map[] && StrLe(m.endpoint.name, e.name)
    ensures IsTemplate(e, verb, path) ==>
              match IndexMatch(es, verb, path)
              case None => false
              case Some(m) => m.confidence == CONFIDENCE_EXACT || StrLe(m.endpoint.name, e.name)
  {
    if IsExact(e, verb, path, false) { FirstExactLeast(es, verb, path, false, e); }
    if IsTemplate(e, verb, path) { FirstTemplateLeast(es, verb, path, e); }
  }

  /** A match by the URI itself is worth 0.9, one by template 0.7, with either matcher. */
  lemma ConfidenceTellsHow(es: seq<Endpoint>, verb: string, path: string)
    ensures match IndexMatch(es, verb, path)
            case None => true
            case Some(m) =>
              && m.confidence == (if UriOf(m.endpoint) == path && !HasBrace(path) then 0.9 else 0.7)
              && (m.confidence == 0.7 ==> HasBrace(UriOf(m.endpoint)))
    ensures match MatcherMatch(es, verb, path)
            case None => true
            case Some((e, confidence)) =>
              confidence == if exists x :: x in es && IsExact(x, verb, path, true) then 0.9 else 0.7
  {
    ExactFits(es, verb, path, false);
    ExactFits(es, verb, path, true);
    TemplateFits(es, verb, path);
  }

  /** Nothing is returned iff no endpoint of that verb has the path as its URI or among the
      instances of its template. */
  lemma NoneIffNoEndpoint(es: seq<Endpoint>, verb: string, path: string)
    ensures IndexMatch(es, verb, path).None? <==>
            forall e :: e in es ==> !IsExact(e, verb, path, false) && !IsTemplate(e, verb, path)
  {
    ExactFits(es, verb, path, false);
    TemplateFits(es, verb, path);
  }

  /** A template match belongs to the template's language, and its named values put back give
      the path iff parameters of one name captured one text. */
  lemma TemplateMatchInverts(es: seq<Endpoint>, verb: string, path: string)
    requires IndexMatch(es, verb, path).Some?
    requires IndexMatch(es, verb, path).value.confidence == CONFIDENCE_TEMPLATE
    ensures var m := IndexMatch(es, verb, path).value;
            var t := Compile(UriOf(m.endpoint));
            && m.endpoint in es && MethodOf(m.endpoint) == verb
            && Bound(t, m.pathValues)
            && exists values ::
                 && Matches(t, path, values) && m.pathValues == ByName(Names(t), values)
                 && (JoinSlash(Instantiate(t, m.pathValues)) == path <==> Consistent(Names(t), values))
  {
    ExactFits(es, verb, path, false);
    TemplateFits(es, verb, path);
    var e := FirstTemplate(es, verb, path).value;
    var t := Compile(UriOf(e));
    MatchInverts(t, path);
    MatchPathExact(t, path, MatchPath(t, path).value);
  }

  lemma {:induction false} ExactAgree(es: seq<Endpoint>, verb: string, path: string)
    requires !HasBrace(path)
    ensures FirstExact(es, verb, path, true) == FirstExact(es, verb, path, false)
  {
    if es != [] { ExactAgree(es[..|es| - 1], verb, path); }
  }

  /** The two matchers give the same endpoint and confidence for every path without a brace. */
  lemma MatchersAgree(es: seq<Endpoint>, verb: string, path: string)
    requires !HasBrace(path)
    ensures match IndexMatch(es, verb, path)
            case None => MatcherMatch(es, verb, path).None?
            case Some(m) => MatcherMatch(es, verb, path) == Some((m.endpoint, m.confidence))
  {
    ExactAgree(es, verb, path);
  }

  /** On a path with a brace they differ exactly when some usable endpoint of the verb has
      the path itself as its template URI: the matcher calls that an exact hit. */
  lemma MatchersDisagree(es: seq<Endpoint>, verb: string, path: string)
    requires HasBrace(path)
    ensures (match MatcherMatch(es, verb, path)
             case None => IndexMatch(es, verb, path).None?
             case Some(p) =>
               IndexMatch(es, verb, path).Some? &&
               IndexMatch(es, verb, path).value.endpoint == p.0 &&
               IndexMatch(es, verb, path).value.confidence == p.1) <==>
            forall e :: e in es ==> !IsExact(e, verb, path, true)
  {
    ExactFits(es, verb, path, true);
    ExactFits(es, verb, path, false);
  }

  // ----- the two classes -----

  type Key = (string, string)

  datatype Compiled = Compiled(verb: string, template: Template, endpoint: Endpoint)

  function TemplatesOf(es: seq<Endpoint>): seq<Compiled> {
    if es == [] then []
    else
      TemplatesOf(es[..|es| - 1]) + Compilable(es[|es| - 1])
  }

  ghost predicate ExactTable(table: map<Key, Endpoint>, es: seq<Endpoint>, all: bool) {
    forall k: Key ::
      match FirstExact(es, k.0, k.1, all)
      case Some(e) => k in table && table[k] == e
      case None => k !in table
  }

  /** `setdefault` for one more endpoint. */
  function TableStep(table: map<Key, Endpoint>, e: Endpoint, all: bool): map<Key, Endpoint> {
    var k := (MethodOf(e), UriOf(e));
    if Usable(e) && (all || !HasBrace(UriOf(e))) && k !in table then table[k := e] else table
  }

  /** An endpoint's contribution to the template list. */
  function Compilable(e: Endpoint): seq<Compiled> {
    if Usable(e) && HasBrace(UriOf(e)) then [Compiled(MethodOf(e), Compile(UriOf(e)), e)] else []
  }

  lemma ExactStep(table: map<Key, Endpoint>, es: seq<Endpoint>, n: nat, all: bool)
    requires n < |es| && ExactTable(table, es[..n], all)
    ensures ExactTable(TableStep(table, es[n], all), es[..n + 1], all)
    ensures TemplatesOf(es[..n + 1]) ==
            TemplatesOf(es[..n]) + Compilable(es[n])
  {
    assert es[..n + 1][..n] == es[..n];
  }

  predicate Fits(c: Compiled, verb: string, path: string) {
    c.verb == verb && MatchPath(c.template, path).Some?
  }

  /** `r` is the endpoint of the first compiled template that fits. */
  ghost predicate FirstFit(ts: seq<Compiled>, verb: string, path: string, r: Option<Endpoint>) {
    match r
    case None => forall i :: 0 <= i < |ts| ==> !Fits(ts[i], verb, path)
    case Some(e) =>
      exists i :: 0 <= i < |ts| && Fits(ts[i], verb, path) && ts[i].endpoint == e &&
        forall j :: 0 <= j < i ==> !Fits(ts[j], verb, path)
  }

  lemma FirstFitStep(ts: seq<Compiled>, c: Compiled, verb: string, path: string, r: Option<Endpoint>)
    requires FirstFit(ts, verb, path, r)
    ensures FirstFit(ts + [c], verb, path, if r.Some? then r else if Fits(c, verb, path) then Some(c.endpoint) else None)
  {
    var us := ts + [c];
    if r.Some? {
      var i :| 0 <= i < |ts| && Fits(ts[i], verb, path) && ts[i].endpoint == r.value &&
        forall j :: 0 <= j < i ==> !Fits(ts[j], verb, path);
      assert us[i] == ts[i];
    } else if Fits(c, verb, path) {
      assert us[|ts|] == c;
    }
  }

  lemma {:induction false} FirstCompiled(es: seq<Endpoint>, verb: string, path: string)
    ensures FirstFit(TemplatesOf(es), verb, path, FirstTemplate(es, verb, path))
    decreases |es|
  {
    if es != [] {
      var n := |es| - 1;
      FirstCompiled(es[..n], verb, path);
      if Usable(es[n]) && HasBrace(UriOf(es[n])) {
        FirstFitStep(TemplatesOf(es[..n]), Compiled(MethodOf(es[n]), Compile(UriOf(es[n])), es[n]), verb, path,
                     FirstTemplate(es[..n], verb, path));
      } else {
        assert TemplatesOf(es) == TemplatesOf(es[..n]);
      }
    }
  }

  lemma {:induction false} CompiledFrom(es: seq<Endpoint>, i: nat)
    requires i < |TemplatesOf(es)|
    ensures var c := TemplatesOf(es)[i]; c.template == Compile(UriOf(c.endpoint))
    decreases |es|
  {
    if i < |TemplatesOf(es[..|es| - 1])| { CompiledFrom(es[..|es| - 1], i); }
  }

  class EndpointIndex {
    var exact: map<Key, Endpoint>
    var templates: seq<Compiled>

    ghost predicate BuiltFrom(es: seq<Endpoint>)
      reads this
    {
      ExactTable(exact, es, false) && templates == TemplatesOf(es)
    }

    constructor (endpoints: seq<Endpoint>)
      ensures BuiltFrom(SortByName(endpoints))
    {
      exact, templates := map[], [];
      new;
      var order := SortByName(endpoints);
      for n := 0 to |order|
        invariant BuiltFrom(order[..n])
      {
        ExactStep(exact, order, n, false);
        Add(order[n]);
      }
      assert order[..|order|] == order;
    }

    /** The body of the constructor's loop. */
    method Add(node: Endpoint)
      modifies this
      ensures exact == TableStep(old(exact), node, false)
      ensures templates == old(templates) + Compilable(node)
    {
      var verb, uri := Upper(node.verb), NormalizeUri(node.uri);
      if verb == "" || uri == "" {
        return;
      }
      if HasBrace(uri) {
        templates := templates + [Compiled(verb, Compile(uri), node)];
      } else if (verb, uri) !in exact {
        exact := exact[(verb, uri) := node];
      }
    }

    method Match(ghost es: seq<Endpoint>, verb: string, rawPath: string) returns (r: Option<CallMatch>)
      requires BuiltFrom(es)
      ensures r == IndexMatch(es, Upper(verb), NormalizeUri(rawPath))
    {
      var upper, path := Upper(verb), NormalizeUri(rawPath);
      if (upper, path) in exact {
        return Some(CallMatch(exact[(upper, path)], map[], CONFIDENCE_EXACT));
      }
      FirstCompiled(es, upper, path);
      for n := 0 to |templates|
        invariant forall i :: 0 <= i < n ==> !Fits(templates[i], upper, path)
      {
        var c := templates[n];
        if c.verb == upper && MatchPath(c.template, path).Some? {
          CompiledFrom(es, n);
          assert FirstTemplate(es, upper, path) == Some(c.endpoint);
          return Some(CallMatch(c.endpoint, Captured(c.endpoint, path), CONFIDENCE_TEMPLATE));
        }
      }
      r := None;
    }
  }

  class EndpointMatcher {
    var exact: map<Key, Endpoint>
    var templates: seq<Compiled>

    ghost predicate BuiltFrom(es: seq<Endpoint>)
      reads this
    {
      ExactTable(exact, es, true) && templates == TemplatesOf(es)
    }

    constructor (endpoints: seq<Endpoint>)
      ensures BuiltFrom(SortByName(endpoints))
    {
      exact, templates := map[], [];
      new;
      var order := SortByName(endpoints);
      for n := 0 to |order|
        invariant BuiltFrom(order[..n])
      {
        ExactStep(exact, order, n, true);
        Add(order[n]);
      }
      assert order[..|order|] == order;
    }

    /** The body of the constructor's loop. */
    method Add(node: Endpoint)
      modifies this
      ensures exact == TableStep(old(exact), node, true)
      ensures templates == old(templates) + Compilable(node)
    {
      var verb, uri := Upper(node.verb), NormalizeUri(node.uri);
      if verb == "" || uri == "" {
        return;
      }
      if (verb, uri) !in exact {
        exact := exact[(verb, uri) := node];
      }
      if HasBrace(uri) {
        templates := templates + [Compiled(verb, Compile(uri), node)];
      }
    }

    method Match(ghost es: seq<Endpoint>, verb: string, rawPath: string) returns (r: Option<(Endpoint, real)>)
      requires BuiltFrom(es)
      ensures r == MatcherMatch(es, Upper(verb), NormalizeUri(rawPath))
    {
      var upper, path := Upper(verb), NormalizeUri(rawPath);
      if (upper, path) in exact {
        return Some((exact[(upper, path)], CONFIDENCE_EXACT));
      }
      FirstCompiled(es, upper, path);
      for n := 0 to |templates|
        invariant forall i :: 0 <= i < n ==> !Fits(templates[i], upper, path)
      {
        var c := templates[n];
        if c.verb == upper && MatchPath(c.template, path).Some? {
          return Some((c.endpoint, CONFIDENCE_TEMPLATE));
        }
      }
      r := None;
    }
  }
}
