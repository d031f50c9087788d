/** Route templates: `api/orders/{id}` as a pattern, its captures, and putting them back. */
module Templates {
  import opened Prelude

  // ----- segments -----

  predicate NoSlash(s: string) { forall i :: 0 <= i < |s| ==> s[i] != '/' }

  function FirstSlash(s: string): (n: nat)
    ensures n <= |s| && NoSlash(s[..n]) && (n < |s| ==> s[n] == '/')
  {
    if s == [] || s[0] == '/' then 0
    else
      var n := 1 + FirstSlash(s[1..]);
      assert s[..n] == [s[0]] + s[1..][..n - 1];
      n
  }

  /** `split("/")`: never empty. */
  function SplitSlash(s: string): (r: seq<string>)
    ensures |r| >= 1
    ensures forall i :: 0 <= i < |r| ==> NoSlash(r[i])
    decreases |s|
  {
    var n := FirstSlash(s);
    if n == |s| then assert s[..n] == s; [s] else [s[..n]] + SplitSlash(s[n + 1..])
  }

  /** `"/".join(...)`. */
  function JoinSlash(segs: seq<string>): string {
    if segs == [] then "" else if |segs| == 1 then segs[0] else segs[0] + "/" + JoinSlash(segs[1..])
  }

  lemma JoinCons(head: string, rest: seq<string>)
    requires rest != []
    ensures JoinSlash([head] + rest) == head + "/" + JoinSlash(rest)
  {
    assert ([head] + rest)[1..] == rest;
  }

  lemma CutAtSlash(s: string, n: nat)
    requires n < |s| && s[n] == '/'
    ensures s == s[..n] + "/" + s[n + 1..]
  {
  }

  lemma {:induction false} JoinSplit(s: string)
    ensures JoinSlash(SplitSlash(s)) == s
    decreases |s|
  {
    var n := FirstSlash(s);
    if n < |s| {
      JoinSplit(s[n + 1..]);
      JoinCons(s[..n], SplitSlash(s[n + 1..]));
      CutAtSlash(s, n);
    } else {
      assert SplitSlash(s) == [s];
    }
  }

  lemma {:induction false} SlashUnique(s: string, n: nat)
    requires n <= |s| && NoSlash(s[..n]) && (n < |s| ==> s[n] == '/')
    ensures FirstSlash(s) == n
  {
    if n > 0 {
      assert s[..n][0] != '/';
      assert s[1..][..n - 1] == s[..n][1..];
      SlashUnique(s[1..], n - 1);
    }
  }

  lemma {:induction false} SplitJoin(segs: seq<string>)
    requires |segs| >= 1 && forall i :: 0 <= i < |segs| ==> NoSlash(segs[i])
    ensures SplitSlash(JoinSlash(segs)) == segs
    decreases |segs|
  {
    var s, head := JoinSlash(segs), segs[0];
    if |segs| == 1 {
      assert s[..|s|] == s;
      SlashUnique(s, |s|);
    } else {
      SplitJoin(segs[1..]);
      assert s[..|head|] == head;
      SlashUnique(s, |head|);
      assert s[|head| + 1..] == JoinSlash(segs[1..]);
    }
  }

  // ----- templates -----

  datatype Seg = Literal(text: string) | Param(name: string)

  type Template = seq<Seg>

  function SegOf(s: string): Seg {
    if s != "" && s[0] == '{' && s[|s| - 1] == '}' then Param(s[1..|s| - 1]) else Literal(s)
  }

  function Compile(uri: string): (t: Template)
    ensures Wellformed(t)
  {
    var segs := SplitSlash(uri);
    seq(|segs|, i requires 0 <= i < |segs| => SegOf(segs[i]))
  }

  /** A segment as it was written. */
  function SegText(seg: Seg): string {
    match seg case Literal(text) => text case Param(name) => "{" + name + "}"
  }

  /** Compiling loses nothing: the segments as written, joined, are the URI; and a segment is a
      parameter iff it is written in braces. */
  lemma CompileKeepsText(uri: string)
    ensures var t := Compile(uri);
            && JoinSlash(seq(|t|, i requires 0 <= i < |t| => SegText(t[i]))) == uri
            && forall i :: 0 <= i < |t| ==>
                 (t[i].Param? <==> SegText(t[i]) != "" && SegText(t[i])[0] == '{' && SegText(t[i])[|SegText(t[i])| - 1] == '}')
  {
    var t, segs := Compile(uri), SplitSlash(uri);
    forall i | 0 <= i < |t| ensures SegText(t[i]) == segs[i] {
      var s := segs[i];
      if t[i].Param? { assert s == [s[0]] + s[1..|s| - 1] + [s[|s| - 1]]; }
    }
    assert seq(|t|, i requires 0 <= i < |t| => SegText(t[i])) == segs;
    JoinSplit(uri);
  }

  /** What compiling a URI yields: at least one segment, literals without a slash. */
  predicate Wellformed(t: Template) {
    |t| >= 1 && forall i :: 0 <= i < |t| ==> t[i].Literal? ==> NoSlash(t[i].text)
  }

  function Names(t: Template): seq<string> {
    if t == [] then [] else (if t[0].Param? then [t[0].name] else []) + Names(t[1..])
  }

  /** What a capture group `([^/]+)` accepts. */
  predicate Capturable(v: string) { v != "" && NoSlash(v) }

  /** The segments with the captured values put into the parameters, left to right. */
  function Fill(t: Template, values: seq<string>): (r: seq<string>)
    requires |values| == |Names(t)|
    ensures |r| == |t|
  {
    if t == [] then []
    else if t[0].Param? then [values[0]] + Fill(t[1..], values[1..])
    else [t[0].text] + Fill(t[1..], values)
  }

  predicate Legal(t: Template, values: seq<string>) {
    |values| == |Names(t)| && forall i :: 0 <= i < |values| ==> Capturable(values[i])
  }

  /** The regular language of the compiled pattern: the instances of the template. */
  ghost predicate Matches(t: Template, path: string, values: seq<string>) {
    Legal(t, values) && path == JoinSlash(Fill(t, values))
  }

  function MatchSegs(t: Template, segs: seq<string>): (r: Option<seq<string>>)
    decreases |t|
  {
    if |t| != |segs| then None
    else if t == [] then Some([])
    else if t[0].Literal? then (if t[0].text == segs[0] then MatchSegs(t[1..], segs[1..]) else None)
    else if segs[0] == "" then None
    else
      match MatchSegs(t[1..], segs[1..])
      case None => None
      case Some(vs) => Some([segs[0]] + vs)
  }

  /** Matching a path segment by segment. */
  function MatchPath(t: Template, path: string): Option<seq<string>> {
    MatchSegs(t, SplitSlash(path))
  }

  lemma {:induction false} MatchSegsSound(t: Template, segs: seq<string>)
    requires forall i :: 0 <= i < |segs| ==> NoSlash(segs[i])
    ensures MatchSegs(t, segs).Some? ==>
              Legal(t, MatchSegs(t, segs).value) && Fill(t, MatchSegs(t, segs).value) == segs
    decreases |t|
  {
    if |t| == |segs| && t != [] {
      MatchSegsSound(t[1..], segs[1..]);
      if MatchSegs(t, segs).Some? && t[0].Param? {
        var vs := MatchSegs(t, segs).value;
        assert vs[1..] == MatchSegs(t[1..], segs[1..]).value;
      }
    }
  }

  lemma {:induction false} MatchSegsComplete(t: Template, values: seq<string>)
    requires Legal(t, values)
    ensures MatchSegs(t, Fill(t, values)) == Some(values)
    decreases |t|
  {
    if t != [] {
      var segs := Fill(t, values);
      if t[0].Param? {
        assert Legal(t[1..], values[1..]);
        MatchSegsComplete(t[1..], values[1..]);
        assert segs[1..] == Fill(t[1..], values[1..]);
        assert [values[0]] + values[1..] == values;
      } else {
        MatchSegsComplete(t[1..], values);
        assert segs[1..] == Fill(t[1..], values);
      }
    }
  }

  lemma {:induction false} FillNoSlash(t: Template, values: seq<string>)
    requires Legal(t, values) && forall i :: 0 <= i < |t| ==> t[i].Literal? ==> NoSlash(t[i].text)
    ensures forall i :: 0 <= i < |t| ==> NoSlash(Fill(t, values)[i])
    decreases |t|
  {
    if t != [] {
      if t[0].Param? {
        assert Legal(t[1..], values[1..]);
        FillNoSlash(t[1..], values[1..]);
      } else {
        FillNoSlash(t[1..], values);
      }
    }
  }

  /** Segment-wise matching decides the pattern's language, and the captures are unique. */
  lemma MatchPathExact(t: Template, path: string, values: seq<string>)
    requires Wellformed(t)
    ensures MatchPath(t, path) == Some(values) <==> Matches(t, path, values)
  {
    MatchSegsSound(t, SplitSlash(path));
    JoinSplit(path);
    if Matches(t, path, values) {
      FillNoSlash(t, values);
      SplitJoin(Fill(t, values));
      MatchSegsComplete(t, values);
    }
  }

  // ----- captured values by name -----

  /** `dict(zip(names, groups))`: a repeated name keeps its last value. */
  function ByName(names: seq<string>, values: seq<string>): map<string, string>
    requires |names| == |values|
  {
    if names == [] then map[]
    else ByName(names[..|names| - 1], values[..|names| - 1])[names[|names| - 1] := values[|names| - 1]]
  }

  predicate Consistent(names: seq<string>, values: seq<string>)
    requires |names| == |values|
  {
    forall i, j :: 0 <= i < j < |names| && names[i] == names[j] ==> values[i] == values[j]
  }

  lemma {:induction false} ByNameKeys(names: seq<string>, values: seq<string>)
    requires |names| == |values|
    ensures forall i :: 0 <= i < |names| ==> names[i] in ByName(names, values)
    decreases |names|
  {
    if names != [] {
      var k := |names| - 1;
      ByNameKeys(names[..k], values[..k]);
      forall i | 0 <= i < |names| ensures names[i] in ByName(names, values) {
        if i < k { assert names[i] == names[..k][i]; }
      }
    }
  }

  predicate Pairs(names: seq<string>, values: seq<string>, n: string, v: string)
    requires |names| == |values|
  {
    exists i :: 0 <= i < |names| && names[i] == n && values[i] == v
  }

  lemma {:induction false} ByNameValues(names: seq<string>, values: seq<string>, n: string)
    requires |names| == |values| && n in ByName(names, values)
    ensures Pairs(names, values, n, ByName(names, values)[n])
    decreases |names|
  {
    var k := |names| - 1;
    if n != names[k] {
      ByNameValues(names[..k], values[..k], n);
      var i :| 0 <= i < k && names[..k][i] == n && values[..k][i] == ByName(names[..k], values[..k])[n];
      assert names[i] == n && values[i] == ByName(names, values)[n];
    }
  }

  /** The dictionary holds every capture iff repeated names captured the same text. */
  lemma ByNameConsistent(names: seq<string>, values: seq<string>)
    requires |names| == |values|
    ensures Agrees(names, values, ByName(names, values)) <==> Consistent(names, values)
  {
    ByNameKeys(names, values);
    if Consistent(names, values) {
      forall i | 0 <= i < |names| ensures ByName(names, values)[names[i]] == values[i] {
        ByNameValues(names, values, names[i]);
      }
    }
  }

  /** Every parameter has a value. */
  predicate Bound(t: Template, m: map<string, string>) {
    t == [] || ((t[0].Param? ==> t[0].name in m) && Bound(t[1..], m))
  }

  /** The template with every parameter looked up by name. */
  function Instantiate(t: Template, m: map<string, string>): (r: seq<string>)
    requires Bound(t, m)
    ensures |r| == |t|
  {
    if t == [] then []
    else [if t[0].Param? then m[t[0].name] else t[0].text] + Instantiate(t[1..], m)
  }

  lemma NamesStep(t: Template)
    requires t != []
    ensures if t[0].Param? then Names(t)[1..] == Names(t[1..]) && Names(t)[0] == t[0].name else Names(t) == Names(t[1..])
  {
  }

  lemma {:induction false} BoundByNames(t: Template, m: map<string, string>)
    requires forall i :: 0 <= i < |Names(t)| ==> Names(t)[i] in m
    ensures Bound(t, m)
    decreases |t|
  {
    if t != [] {
      NamesStep(t);
      forall i | 0 <= i < |Names(t[1..])| ensures Names(t[1..])[i] in m {
        assert Names(t[1..])[i] == Names(t)[if t[0].Param? then i + 1 else i];
      }
      BoundByNames(t[1..], m);
    }
  }

  /** Looking up by name fills in the captures iff each name has the captured value. */
  predicate Agrees(names: seq<string>, values: seq<string>, m: map<string, string>)
    requires |names| == |values|
  {
    forall i :: 0 <= i < |names| ==> names[i] in m && m[names[i]] == values[i]
  }

  lemma {:induction false} InstantiateIsFill(t: Template, m: map<string, string>, values: seq<string>)
    requires |values| == |Names(t)| && Bound(t, m)
    ensures Instantiate(t, m) == Fill(t, values) <==> Agrees(Names(t), values, m)
    decreases |t|
  {
    if t != [] {
      NamesStep(t);
      var l, r := Instantiate(t, m), Fill(t, values);
      assert l[1..] == Instantiate(t[1..], m);
      assert l == r <==> l[0] == r[0] && l[1..] == r[1..] by {
        assert l == [l[0]] + l[1..] && r == [r[0]] + r[1..];
      }
      if t[0].Param? {
        assert r[1..] == Fill(t[1..], values[1..]);
        InstantiateIsFill(t[1..], m, values[1..]);
        AgreesStep(Names(t), values, m);
      } else {
        assert r[1..] == Fill(t[1..], values);
        InstantiateIsFill(t[1..], m, values);
      }
    }
  }

  lemma AgreesStep(names: seq<string>, values: seq<string>, m: map<string, string>)
    requires |names| == |values| && names != []
    ensures Agrees(names, values, m) <==>
            names[0] in m && m[names[0]] == values[0] && Agrees(names[1..], values[1..], m)
  {
    if names[0] in m && m[names[0]] == values[0] && Agrees(names[1..], values[1..], m) {
      forall i | 0 <= i < |names| ensures names[i] in m && m[names[i]] == values[i] {
        if i > 0 { assert names[i] == names[1..][i - 1] && values[i] == values[1..][i - 1]; }
      }
    } else if Agrees(names, values, m) {
      forall i | 0 <= i < |names[1..]| ensures names[1..][i] in m && m[names[1..][i]] == values[1..][i] {
        assert names[1..][i] == names[i + 1];
      }
    }
  }

  lemma {:induction false} InstantiateNoSlash(t: Template, m: map<string, string>)
    requires Bound(t, m) && forall i :: 0 <= i < |t| ==> t[i].Literal? ==> NoSlash(t[i].text)
    requires forall n :: n in m ==> NoSlash(m[n])
    ensures forall i :: 0 <= i < |t| ==> NoSlash(Instantiate(t, m)[i])
    decreases |t|
  {
    if t != [] { InstantiateNoSlash(t[1..], m); }
  }

  /** Putting a match's named values back gives the path iff parameters that share a name
      captured the same text; in particular whenever the names are distinct. */
  lemma MatchInverts(t: Template, path: string)
    requires Wellformed(t) && MatchPath(t, path).Some?
    ensures var values := MatchPath(t, path).value;
            && |values| == |Names(t)|
            && Bound(t, ByName(Names(t), values))
            && (JoinSlash(Instantiate(t, ByName(Names(t), values))) == path <==> Consistent(Names(t), values))
  {
    var values := MatchPath(t, path).value;
    MatchPathExact(t, path, values);
    var m := ByName(Names(t), values);
    ByNameKeys(Names(t), values);
    ByNameConsistent(Names(t), values);
    BoundByNames(t, m);
    InstantiateIsFill(t, m, values);
    FillNoSlash(t, values);
    SplitJoin(Fill(t, values));
    forall n | n in m ensures NoSlash(m[n]) {
      ByNameValues(Names(t), values, n);
      var i :| 0 <= i < |values| && Names(t)[i] == n && values[i] == m[n];
      assert Capturable(values[i]);
    }
    InstantiateNoSlash(t, m);
    SplitJoin(Instantiate(t, m));
  }

  predicate DistinctParams(names: seq<string>) {
    forall i, j :: 0 <= i < j < |names| ==> names[i] != names[j]
  }

  /** A matched path comes back when its captures are put back by name. */
  predicate Rebuilds(t: Template, path: string) {
    match MatchPath(t, path)
    case None => true
    case Some(values) =>
      |values| == |Names(t)| && Bound(t, ByName(Names(t), values)) &&
      JoinSlash(Instantiate(t, ByName(Names(t), values))) == path
  }

  /** Every path that a template matches is rebuilt iff its parameter names are distinct. */
  lemma RebuildsAllIff(t: Template)
    requires Wellformed(t)
    ensures (forall path :: Rebuilds(t, path)) <==> DistinctParams(Names(t))
  {
    if DistinctParams(Names(t)) {
      forall path ensures Rebuilds(t, path) {
        if MatchPath(t, path).Some? { MatchInverts(t, path); }
      }
    } else {
      var i, j :| 0 <= i < j < |Names(t)| && Names(t)[i] == Names(t)[j];
      RepeatedNameFails(t, i, j);
    }
  }

  /** For a name at positions `i` and `j`: "a" everywhere but "b" at `j` is not rebuilt. */
  lemma RepeatedNameFails(t: Template, i: nat, j: nat)
    requires Wellformed(t) && i < j < |Names(t)| && Names(t)[i] == Names(t)[j]
    ensures exists path :: !Rebuilds(t, path)
  {
    var values := seq(|Names(t)|, k => if k == j then "b" else "a");
    var path := JoinSlash(Fill(t, values));
    MatchPathExact(t, path, values);
    MatchInverts(t, path);
    assert !Consistent(Names(t), values) by { assert values[i] == "a" && values[j] == "b"; }
    assert !Rebuilds(t, path);
  }

  lemma TwoSegments(a: string, b: string)
    requires NoSlash(a) && NoSlash(b)
    ensures JoinSlash([a, b]) == a + "/" + b && SplitSlash(a + "/" + b) == [a, b]
  {
    assert [a, b] == [a] + [b];
    JoinCons(a, [b]);
    SplitJoin([a, b]);
  }

  lemma CompileTwice(n: string)
    requires NoSlash(n)
    ensures var seg := "{" + n + "}"; Compile(seg + "/" + seg) == [Param(n), Param(n)]
  {
    var seg := "{" + n + "}";
    assert seg[1..|seg| - 1] == n && SegOf(seg) == Param(n);
    TwoSegments(seg, seg);
  }

  lemma NamesOfTwo(n: string)
    ensures Names([Param(n), Param(n)]) == [n, n]
  {
    var one: Template, two: Template := [Param(n)], [Param(n), Param(n)];
    assert one[1..] == [] && two[1..] == one;
    assert Names(one) == [n] + Names([]);
    assert Names(two) == [n] + Names(one);
  }

  lemma KeepsTheLast(n: string, a: string, b: string)
    ensures ByName([n, n], [a, b]) == map[n := b]
  {
    var names, values := [n, n], [a, b];
    assert names[..1] == [n] && values[..1] == [a];
    assert [n][..0] == [] && [a][..0] == [];
    assert ByName([n], [a]) == map[n := a];
    assert ByName(names, values) == ByName([n], [a])[n := b];
  }

  /** A template `{n}/{n}` matches any `a/b` but keeps only `b`: the values put back give the
      path iff the two texts are the same. */
  lemma RepeatedNameLosesTheFirst(n: string, a: string, b: string)
    requires NoSlash(n) && Capturable(a) && Capturable(b)
    ensures var seg := "{" + n + "}";
            var t, path := Compile(seg + "/" + seg), a + "/" + b;
            && MatchPath(t, path) == Some([a, b])
            && Names(t) == [n, n] && ByName([n, n], [a, b]) == map[n := b]
            && Bound(t, map[n := b]) && (JoinSlash(Instantiate(t, map[n := b])) == path <==> a == b)
  {
    var t := [Param(n), Param(n)];
    CompileTwice(n);
    NamesOfTwo(n);
    TwoSegments(a, b);
    FillTwo(n, a, b);
    MatchSegsComplete(t, [a, b]);
    KeepsTheLast(n, a, b);
    MatchInverts(t, a + "/" + b);
    ConsistentTwo(n, a, b);
  }

  lemma ConsistentTwo(n: string, a: string, b: string)
    ensures Consistent([n, n], [a, b]) <==> a == b
  {
    if Consistent([n, n], [a, b]) { assert [n, n][0] == [n, n][1]; }
  }

  lemma FillTwo(n: string, a: string, b: string)
    requires Capturable(a) && Capturable(b)
    ensures var t := [Param(n), Param(n)];
            Legal(t, [a, b]) && Fill(t, [a, b]) == [a, b]
  {
    NamesOfTwo(n);
    var one: Template, two: Template := [Param(n)], [Param(n), Param(n)];
    assert one[1..] == [] && two[1..] == one && [a, b][1..] == [b] && [b][1..] == [];
    assert Names(one) == [n] + Names([]);
    assert Fill(one, [b]) == [b] + Fill([], []);
    assert Fill(two, [a, b]) == [a] + Fill(one, [b]);
  }
}
