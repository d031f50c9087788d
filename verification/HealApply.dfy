/** Re-addressing a test script, and the independent check that its assertions survived. */
module HealApply {
  import opened Prelude

  /** The assertion-line pattern as an arbitrary test on a line's text (its terminator,
      which the pattern cannot see, taken off). */
  datatype Pattern = Pattern(matches: string -> bool)

  // ----- lines -----

  predicate IsBreak(c: char) {
    '\n' <= c <= '\r' || '\U{1C}' <= c <= '\U{1E}' || c == '\U{85}' || '\U{2028}' <= c <= '\U{2029}'
  }

  predicate NoBreaks(s: string) { forall i :: 0 <= i < |s| ==> !IsBreak(s[i]) }

  function FirstBreak(s: string): (n: nat)
    ensures n <= |s| && NoBreaks(s[..n]) && (n < |s| ==> IsBreak(s[n]))
  {
    if s == [] || IsBreak(s[0]) then 0
    else
      var n := 1 + FirstBreak(s[1..]);
      assert s[..n] == [s[0]] + s[1..][..n - 1];
      n
  }

  /** The length of the first line with its terminator; "\r\n" is one terminator. */
  function LineLength(s: string): (n: nat)
    requires s != []
    ensures 0 < n <= |s|
  {
    var b := FirstBreak(s);
    if b == |s| then b
    else if s[b] == '\r' && b + 1 < |s| && s[b + 1] == '\n' then b + 2
    else b + 1
  }

  /** `splitlines(keepends=True)`. */
  function SplitLines(s: string): seq<string>
    decreases |s|
  {
    if s == [] then [] else [s[..LineLength(s)]] + SplitLines(s[LineLength(s)..])
  }

  function Join(lines: seq<string>): string {
    if lines == [] then [] else lines[0] + Join(lines[1..])
  }

  function Body(line: string): string { line[..FirstBreak(line)] }

  lemma {:induction false} JoinSplit(s: string)
    ensures Join(SplitLines(s)) == s
    decreases |s|
  {
    if s != [] { JoinSplit(s[LineLength(s)..]); }
  }

  function Ending(line: string): string { line[FirstBreak(line)..] }

  /** A line as `splitlines` cuts it. */
  predicate IsLine(line: string) {
    line != [] && (|Ending(line)| <= 1 || Ending(line) == "\r\n")
  }

  /** `next` starts a new line after `line`. */
  predicate Follows(line: string, next: string) {
    next != [] && Ending(line) != [] && !(Ending(line) == "\r" && next[0] == '\n')
  }

  /** A list of lines that `splitlines` can produce. */
  predicate Canonical(lines: seq<string>) {
    lines == [] ||
    (IsLine(lines[0]) && Canonical(lines[1..]) && (|lines| > 1 ==> Follows(lines[0], lines[1])))
  }

  lemma {:induction false} BreakUnique(s: string, b: nat)
    requires b <= |s| && NoBreaks(s[..b]) && (b < |s| ==> IsBreak(s[b]))
    ensures FirstBreak(s) == b
  {
    if b > 0 {
      assert !IsBreak(s[..b][0]);
      assert s[1..][..b - 1] == s[..b][1..];
      BreakUnique(s[1..], b - 1);
    }
  }

  lemma FirstEnding(s: string)
    requires s != []
    ensures var n := LineLength(s);
            FirstBreak(s) <= n && FirstBreak(s[..n]) == FirstBreak(s) && Ending(s[..n]) == s[FirstBreak(s)..n]
  {
    var n, b := LineLength(s), FirstBreak(s);
    assert s[..n][..b] == s[..b];
    BreakUnique(s[..n], b);
  }

  lemma FirstIsLine(s: string)
    requires s != []
    ensures IsLine(s[..LineLength(s)])
  {
    var n, b := LineLength(s), FirstBreak(s);
    FirstEnding(s);
    if n == b + 2 { assert s[b..n] == [s[b], s[b + 1]]; }
  }

  lemma FirstFollows(s: string)
    requires s != [] && LineLength(s) < |s|
    ensures Follows(s[..LineLength(s)], s[LineLength(s)..])
  {
    var n, b := LineLength(s), FirstBreak(s);
    FirstEnding(s);
    assert s[n..][0] == s[n];
    if n == b + 1 { assert s[b..n] == [s[b]]; }
  }

  lemma {:induction false} SplitCanonical(s: string)
    ensures Canonical(SplitLines(s))
    decreases |s|
  {
    if s != [] {
      var n := LineLength(s);
      FirstIsLine(s);
      if n < |s| { FirstFollows(s); }
      SplitCanonical(s[n..]);
      assert SplitLines(s)[1..] == SplitLines(s[n..]);
    }
  }

  lemma LineThenRest(line: string, rest: string)
    requires IsLine(line) && (rest != [] ==> Follows(line, rest))
    ensures LineLength(line + rest) == |line|
  {
    var s, b := line + rest, FirstBreak(line);
    assert s[..b] == line[..b];
    if rest == [] { assert s == line; } else { assert s[b] == line[b]; }
    BreakUnique(s, b);
  }

  lemma {:induction false} SplitJoin(lines: seq<string>)
    requires Canonical(lines)
    ensures SplitLines(Join(lines)) == lines
    decreases |lines|
  {
    if lines != [] {
      var line, rest := lines[0], Join(lines[1..]);
      SplitJoin(lines[1..]);
      if |lines| > 1 {
        assert rest[0] == lines[1][0];
      }
      LineThenRest(line, rest);
      var s := Join(lines);
      assert s[..|line|] == line && s[|line|..] == rest;
    }
  }

  // ----- one line -----

  predicate IsQuote(c: char) { c == '\'' || c == '"' }

  predicate NoQuotes(s: string) { forall i :: 0 <= i < |s| ==> !IsQuote(s[i]) }

  /** `s` starts with `body` and a closing quote. */
  predicate Closes(s: string, body: string): (r: bool)
    ensures r <==> |s| > |body| && s[..|body|] == body && IsQuote(s[|body|])
  {
    if s == [] then false
    else if body == [] then IsQuote(s[0])
    else
      assert |s| >= |body| ==> s[..|body|] == [s[0]] + s[1..][..|body| - 1];
      assert body == [body[0]] + body[1..];
      s[0] == body[0] && Closes(s[1..], body[1..])
  }

  /** The slash (or nothing) between the opening quote and the path, if the literal's text
      starts right at `s`; the slash is tried first, as the pattern does. */
  function MatchHere(s: string, body: string): (r: Option<string>)
    ensures r.Some? ==> |s| > |r.value| + |body| + 1 && IsQuote(s[0]) && IsQuote(s[1 + |r.value| + |body|])
    ensures r.Some? ==> s[1..1 + |r.value|] == r.value && |r.value| <= 1
  {
    if s == [] || !IsQuote(s[0]) then None
    else if |s| > 1 && s[1] == '/' && Closes(s[2..], body) then Some("/")
    else if Closes(s[1..], body) then Some("")
    else None
  }

  /** `pattern.sub`: left to right, matches do not overlap, quotes and slash are kept. */
  function Substitute(s: string, from: string, to: string): string
    decreases |s|
  {
    if s == [] then []
    else
      match MatchHere(s, from)
      case None => [s[0]] + Substitute(s[1..], from, to)
      case Some(slash) =>
        var end := 1 + |slash| + |from|;
        [s[0]] + slash + to + [s[end]] + Substitute(s[end + 1..], from, to)
  }

  /** `pattern.search`. */
  predicate Occurs(s: string, body: string) {
    s != [] && (MatchHere(s, body).Some? || Occurs(s[1..], body))
  }

  /** `s` and `r` agree up to and including the first quote. */
  predicate Agree(s: string, r: string) {
    if s == [] then r == []
    else r != [] && r[0] == s[0] && (IsQuote(s[0]) || Agree(s[1..], r[1..]))
  }

  lemma {:induction false} SubstituteAgrees(s: string, from: string, to: string)
    ensures Agree(s, Substitute(s, from, to))
    decreases |s|
  {
    if s != [] && MatchHere(s, from).None? {
      SubstituteAgrees(s[1..], from, to);
      assert Substitute(s, from, to)[1..] == Substitute(s[1..], from, to);
    }
  }

  lemma {:induction false} ClosesAgree(s: string, r: string, body: string)
    requires NoQuotes(body) && Closes(r, body) && Agree(s, r)
    ensures Closes(s, body)
    decreases |body|
  {
    if body != [] && s != [] {
      assert !IsQuote(body[0]);
      ClosesAgree(s[1..], r[1..], body[1..]);
    }
  }

  /** After re-addressing `from` to a new `to`, a `to` literal can only start where it was put. */
  lemma NothingNewHere(s: string, from: string, to: string)
    requires s != [] && MatchHere(s, from).None? && MatchHere(s, to).None? && NoQuotes(to)
    ensures MatchHere(Substitute(s, from, to), to).None?
  {
    var t, rest := s[1..], Substitute(s[1..], from, to);
    var r := [s[0]] + rest;
    assert Substitute(s, from, to) == r && r[1..] == rest;
    if IsQuote(s[0]) {
      SubstituteAgrees(t, from, to);
      if Closes(rest, to) { ClosesAgree(t, rest, to); }
      if rest != [] && rest[0] == '/' {
        assert r[2..] == rest[1..] && s[2..] == t[1..];
        if Closes(rest[1..], to) { ClosesAgree(t[1..], rest[1..], to); }
      }
    }
  }

  /** A freshly written literal is found again, with its own slash. */
  lemma FoundAgain(q: char, slash: string, to: string, c: char, rest: string)
    requires IsQuote(q) && IsQuote(c) && NoQuotes(to)
    requires slash == "" || slash == "/"
    requires to == [] || to[0] != '/'
    ensures MatchHere(Literal(q, slash, to, c) + rest, to) == Some(slash)
  {
    var s := Literal(q, slash, to, c) + rest;
    assert s[1..] == slash + to + [c] + rest;
    assert (to + [c] + rest)[..|to|] == to;
    if slash == "/" {
      assert s[2..] == to + [c] + rest;
    } else {
      assert s[1..] == to + [c] + rest;
    }
  }

  lemma {:induction false} SubstituteBack(s: string, from: string, to: string)
    requires !Occurs(s, to) && NoQuotes(to) && (to == [] || to[0] != '/')
    ensures Substitute(Substitute(s, from, to), to, from) == s
    decreases |s|
  {
    if s == [] {
    } else if MatchHere(s, from).None? {
      SubstituteBack(s[1..], from, to);
      SkipBack(s, from, to);
    } else {
      var slash := MatchHere(s, from).value;
      var rest := s[2 + |slash| + |from|..];
      OccursLater(s, 2 + |slash| + |from|, to);
      SubstituteBack(rest, from, to);
      MatchBack(s, from, to, slash);
    }
  }

  lemma SkipBack(s: string, from: string, to: string)
    requires s != [] && MatchHere(s, from).None? && MatchHere(s, to).None? && NoQuotes(to)
    requires Substitute(Substitute(s[1..], from, to), to, from) == s[1..]
    ensures Substitute(Substitute(s, from, to), to, from) == s
  {
    var r := [s[0]] + Substitute(s[1..], from, to);
    NothingNewHere(s, from, to);
    assert Substitute(s, from, to) == r;
    assert r[1..] == Substitute(s[1..], from, to);
    assert Substitute(r, to, from) == [r[0]] + Substitute(r[1..], to, from);
  }

  /** The literal `q slash body c`. */
  function Literal(q: char, slash: string, body: string, c: char): (r: string)
    ensures |r| == |slash| + |body| + 2
  {
    [q] + slash + body + [c]
  }

  lemma SubstituteLiteral(q: char, slash: string, body: string, c: char, rest: string, to: string)
    requires MatchHere(Literal(q, slash, body, c) + rest, body) == Some(slash)
    ensures Substitute(Literal(q, slash, body, c) + rest, body, to) ==
            Literal(q, slash, to, c) + Substitute(rest, body, to)
  {
    var s, end := Literal(q, slash, body, c) + rest, 1 + |slash| + |body|;
    assert s[0] == q && s[end] == c && s[end + 1..] == rest;
  }

  lemma MatchBack(s: string, from: string, to: string, slash: string)
    requires MatchHere(s, from) == Some(slash) && NoQuotes(to) && (to == [] || to[0] != '/')
    requires var rest := s[2 + |slash| + |from|..]; Substitute(Substitute(rest, from, to), to, from) == rest
    ensures Substitute(Substitute(s, from, to), to, from) == s
  {
    var q, c, rest := s[0], s[1 + |slash| + |from|], s[2 + |slash| + |from|..];
    MatchedText(s, from, slash);
    assert s == Literal(q, slash, from, c) + rest;
    SubstituteLiteral(q, slash, from, c, rest, to);
    FoundAgain(q, slash, to, c, Substitute(rest, from, to));
    SubstituteLiteral(q, slash, to, c, Substitute(rest, from, to), from);
  }

  lemma {:induction false} OccursLater(s: string, n: nat, body: string)
    requires n <= |s| && !Occurs(s, body)
    ensures !Occurs(s[n..], body)
  {
    if n > 0 {
      OccursLater(s[1..], n - 1, body);
      assert s[1..][n - 1..] == s[n..];
    }
  }

  /** What a match covers. */
  lemma MatchedText(s: string, body: string, slash: string)
    requires MatchHere(s, body) == Some(slash)
    ensures var end := 1 + |slash| + |body|; s == Literal(s[0], slash, body, s[end]) + s[end + 1..]
  {
    var start := 1 + |slash|;
    assert Closes(s[start..], body);
    assert s[start..start + |body|] == s[start..][..|body|];
    LiteralIn(s, start, start + |body|);
  }

  lemma LiteralIn(s: string, start: nat, end: nat)
    requires 1 <= start <= end < |s|
    ensures s == Literal(s[0], s[1..start], s[start..end], s[end]) + s[end + 1..]
  {
  }

  // ----- a whole script -----

  /** `path.strip("/")`. */
  function StripSlashes(path: string): (r: string)
    ensures r == [] || (r[0] != '/' && r[|r| - 1] != '/')
  {
    if path == [] then []
    else if path[0] == '/' then StripSlashes(path[1..])
    else if path[|path| - 1] == '/' then StripSlashes(path[..|path| - 1])
    else path
  }

  lemma OneSlashBefore(path: string, r: string, i: nat, j: nat)
    requires Strips(path, r, i, j)
    ensures Strips(['/'] + path, r, i + 1, j + 1)
  {
    var longer := ['/'] + path;
    assert longer[i + 1..j + 1] == path[i..j];
  }

  lemma OneSlashAfter(path: string, r: string, i: nat, j: nat)
    requires Strips(path, r, i, j)
    ensures Strips(path + ['/'], r, i, j)
  {
    var longer := path + ['/'];
    assert longer[i..j] == path[i..j];
  }

  /** Only slashes are taken off, and all of them at both ends. */
  lemma {:induction false} StripSlashesMeaning(path: string) returns (i: nat, j: nat)
    ensures Strips(path, StripSlashes(path), i, j)
    decreases |path|
  {
    if path == [] || (path[0] != '/' && path[|path| - 1] != '/') {
      i, j := 0, |path|;
      assert path[0..|path|] == path;
    } else if path[0] == '/' {
      i, j := StripSlashesMeaning(path[1..]);
      OneSlashBefore(path[1..], StripSlashes(path[1..]), i, j);
      assert ['/'] + path[1..] == path;
      i, j := i + 1, j + 1;
    } else {
      var init := path[..|path| - 1];
      i, j := StripSlashesMeaning(init);
      OneSlashAfter(init, StripSlashes(init), i, j);
      assert init + ['/'] == path;
    }
  }

  function HealLine(p: Pattern, line: string, from: string, to: string): string {
    if p.matches(Body(line)) then line else Substitute(line, from, to)
  }

  function HealLines(p: Pattern, lines: seq<string>, from: string, to: string): (r: seq<string>)
    ensures |r| == |lines|
  {
    seq(|lines|, i requires 0 <= i < |lines| => HealLine(p, lines[i], from, to))
  }

  function Heal(p: Pattern, code: string, oldPath: string, newPath: string): string {
    Join(HealLines(p, SplitLines(code), StripSlashes(oldPath), StripSlashes(newPath)))
  }

  function Asserting(p: Pattern, lines: seq<string>): seq<string> {
    if lines == [] then []
    else (if p.matches(Body(lines[0])) then [Body(lines[0])] else []) + Asserting(p, lines[1..])
  }

  /** The protected block. */
  function AssertionLines(p: Pattern, code: string): seq<string> {
    Asserting(p, SplitLines(code))
  }

  predicate AssertionsUnchanged(p: Pattern, before: string, after: string) {
    AssertionLines(p, before) == AssertionLines(p, after)
  }

  predicate AddressingPresent(p: Pattern, code: string, path: string) {
    var lines := SplitLines(code);
    exists i :: 0 <= i < |lines| && !p.matches(Body(lines[i])) && Occurs(Body(lines[i]), StripSlashes(path))
  }

  // ----- healing line by line keeps the line structure -----

  /** Text after the last quote does not take part in any match. */
  lemma TailIdle(b: string, e: string, body: string)
    requires NoQuotes(e)
    ensures MatchHere(b + e, body) == MatchHere(b, body)
  {
    var s := b + e;
    if s != [] && IsQuote(s[0]) {
      assert b != [] && s[1..] == b[1..] + e;
      ClosesTail(b[1..], e, body);
      if |b| > 1 {
        assert s[2..] == b[2..] + e;
        ClosesTail(b[2..], e, body);
      } else if |s| > 1 {
        assert s[2..] == [] + e[1..];
        ClosesTail([], e[1..], body);
      }
    }
  }

  lemma ClosesTail(b: string, e: string, body: string)
    requires NoQuotes(e)
    ensures Closes(b + e, body) == Closes(b, body)
  {
    if |b| <= |body| < |b + e| {
      assert (b + e)[|body|] == e[|body| - |b|];
    }
    if |body| < |b| {
      assert (b + e)[..|body|] == b[..|body|];
    }
  }

  lemma {:induction false} SubstituteTail(b: string, e: string, from: string, to: string)
    requires NoQuotes(e)
    ensures Substitute(b + e, from, to) == Substitute(b, from, to) + e
    ensures Occurs(b + e, from) == Occurs(b, from)
    decreases |b| + |e|, 1
  {
    TailIdle(b, e, from);
    if b == [] {
      assert b + e == e;
      if e != [] {
        SubstituteTail([], e[1..], from, to);
        assert [] + e[1..] == e[1..];
      }
    } else {
      assert (b + e)[1..] == b[1..] + e;
      SubstituteTail(b[1..], e, from, to);
      if MatchHere(b, from).Some? {
        TailAfterMatch(b, e, from, to, MatchHere(b, from).value);
      }
    }
  }

  lemma {:induction false} TailAfterMatch(b: string, e: string, from: string, to: string, slash: string)
    requires NoQuotes(e) && MatchHere(b, from) == MatchHere(b + e, from) == Some(slash)
    ensures Substitute(b + e, from, to) == Substitute(b, from, to) + e
    decreases |b| + |e|, 0
  {
    var rest := b[2 + |slash| + |from|..];
    assert (b + e)[2 + |slash| + |from|..] == rest + e;
    SubstituteTail(rest, e, from, to);
    MatchCuts(b, from, to, slash);
    MatchCuts(b + e, from, to, slash);
  }

  /** A match cuts the text into the literal and the rest, before and after substituting. */
  lemma MatchCuts(s: string, from: string, to: string, slash: string)
    requires MatchHere(s, from) == Some(slash)
    ensures var q, c, rest := s[0], s[1 + |slash| + |from|], s[2 + |slash| + |from|..];
            && s == Literal(q, slash, from, c) + rest
            && Substitute(s, from, to) == Literal(q, slash, to, c) + Substitute(rest, from, to)
  {
    MatchedText(s, from, slash);
    SubstituteLiteral(s[0], slash, from, s[1 + |slash| + |from|], s[2 + |slash| + |from|..], to);
  }

  lemma NoBreaksConcat(a: string, b: string)
    ensures NoBreaks(a + b) <==> NoBreaks(a) && NoBreaks(b)
  {
    if NoBreaks(a + b) {
      forall i | 0 <= i < |a| ensures !IsBreak(a[i]) { assert a[i] == (a + b)[i]; }
      forall i | 0 <= i < |b| ensures !IsBreak(b[i]) { assert b[i] == (a + b)[|a| + i]; }
    }
  }

  lemma LiteralNoBreaks(q: char, slash: string, to: string, c: char)
    requires !IsBreak(q) && !IsBreak(c) && NoBreaks(slash) && NoBreaks(to)
    ensures NoBreaks(Literal(q, slash, to, c))
  {
    NoBreaksConcat([q], slash);
    NoBreaksConcat([q] + slash, to);
    NoBreaksConcat([q] + slash + to, [c]);
  }

  lemma {:induction false} SubstituteNoBreaks(s: string, from: string, to: string)
    requires NoBreaks(s) && NoBreaks(to)
    ensures NoBreaks(Substitute(s, from, to))
    decreases |s|
  {
    if s != [] {
      match MatchHere(s, from) {
        case None => SubstituteNoBreaks(s[1..], from, to);
        case Some(slash) =>
          var q, c, rest := s[0], s[1 + |slash| + |from|], s[2 + |slash| + |from|..];
          SubstituteNoBreaks(rest, from, to);
          MatchCuts(s, from, to, slash);
          LiteralNoBreaks(q, slash, to, c);
          NoBreaksConcat(Literal(q, slash, to, c), Substitute(rest, from, to));
      }
    }
  }

  lemma EndingShape(line: string)
    requires IsLine(line)
    ensures NoQuotes(Ending(line)) && line == Body(line) + Ending(line)
  {
    var b := FirstBreak(line);
    if b < |line| { assert Ending(line)[0] == line[b]; }
  }

  lemma HealedLine(p: Pattern, line: string, from: string, to: string)
    requires IsLine(line) && NoBreaks(to)
    ensures var r := HealLine(p, line, from, to);
            && r != [] && r[0] == line[0]
            && Ending(r) == Ending(line)
            && (!p.matches(Body(line)) ==> Body(r) == Substitute(Body(line), from, to))
  {
    if !p.matches(Body(line)) {
      EndingShape(line);
      var b, e := Body(line), Ending(line);
      SubstituteTail(b, e, from, to);
      SubstituteNoBreaks(b, from, to);
      var r, n := Substitute(b, from, to) + e, |Substitute(b, from, to)|;
      assert r == HealLine(p, line, from, to);
      assert r[..n] == Substitute(b, from, to);
      if e != [] { assert r[n] == e[0] == line[FirstBreak(line)]; }
      BreakUnique(r, n);
    }
  }

  lemma {:induction false} HealedCanonical(p: Pattern, lines: seq<string>, from: string, to: string)
    requires Canonical(lines) && NoBreaks(to)
    ensures Canonical(HealLines(p, lines, from, to))
    decreases |lines|
  {
    if lines != [] {
      var r := HealLines(p, lines, from, to);
      HealedCanonical(p, lines[1..], from, to);
      assert r[1..] == HealLines(p, lines[1..], from, to);
      HealedLine(p, lines[0], from, to);
      if |lines| > 1 { HealedLine(p, lines[1], from, to); }
    }
  }

  // ----- undo -----

  /** A heal can only add assertion lines; with equal counts every line keeps its status. */
  lemma {:induction false} StatusKept(p: Pattern, lines: seq<string>, from: string, to: string)
    ensures var r := HealLines(p, lines, from, to);
            && |Asserting(p, r)| >= |Asserting(p, lines)|
            && (|Asserting(p, r)| == |Asserting(p, lines)| ==>
                  forall i :: 0 <= i < |lines| ==> p.matches(Body(r[i])) == p.matches(Body(lines[i])))
    decreases |lines|
  {
    if lines != [] {
      var r := HealLines(p, lines, from, to);
      assert r[1..] == HealLines(p, lines[1..], from, to);
      StatusKept(p, lines[1..], from, to);
      if |Asserting(p, r)| == |Asserting(p, lines)| {
        forall i | 0 <= i < |lines| ensures p.matches(Body(r[i])) == p.matches(Body(lines[i])) {
          if i > 0 { assert r[i] == r[1..][i - 1] && lines[i] == lines[1..][i - 1]; }
        }
      }
    }
  }

  lemma LineBack(p: Pattern, line: string, from: string, to: string)
    requires IsLine(line) && NoQuotes(to) && (to == [] || to[0] != '/')
    requires !p.matches(Body(line)) ==> !Occurs(Body(line), to)
    requires p.matches(Body(HealLine(p, line, from, to))) == p.matches(Body(line))
    ensures HealLine(p, HealLine(p, line, from, to), to, from) == line
  {
    if !p.matches(Body(line)) {
      EndingShape(line);
      SubstituteTail(Body(line), Ending(line), to, from);
      SubstituteBack(line, from, to);
    }
  }

  lemma {:induction false} LinesAreLines(lines: seq<string>, i: nat)
    requires Canonical(lines) && i < |lines|
    ensures IsLine(lines[i])
  {
    if i > 0 { LinesAreLines(lines[1..], i - 1); }
  }

  /** Healing there and back again returns the script character for character. */
  lemma HealUndo(p: Pattern, code: string, oldPath: string, newPath: string)
    requires NoQuotes(StripSlashes(newPath)) && NoBreaks(StripSlashes(newPath))
    requires !AddressingPresent(p, code, newPath)
    requires AssertionsUnchanged(p, code, Heal(p, code, oldPath, newPath))
    ensures Heal(p, Heal(p, code, oldPath, newPath), newPath, oldPath) == code
  {
    var from, to, lines := StripSlashes(oldPath), StripSlashes(newPath), SplitLines(code);
    var healed := HealLines(p, lines, from, to);
    SplitCanonical(code);
    HealedCanonical(p, lines, from, to);
    SplitJoin(healed);
    StatusKept(p, lines, from, to);
    forall i | 0 <= i < |lines| ensures HealLines(p, healed, to, from)[i] == lines[i] {
      LinesAreLines(lines, i);
      LineBack(p, lines[i], from, to);
    }
    assert HealLines(p, healed, to, from) == lines;
    JoinSplit(code);
  }

  // ----- "could not locate the addressing" -----

  lemma {:induction false} NothingToSubstitute(s: string, from: string, to: string)
    requires !Occurs(s, from)
    ensures Substitute(s, from, to) == s
  {
    if s != [] { NothingToSubstitute(s[1..], from, to); }
  }

  lemma {:induction false} SubstituteSame(s: string, from: string)
    ensures Substitute(s, from, from) == s
    decreases |s|
  {
    if s != [] {
      match MatchHere(s, from) {
        case None => SubstituteSame(s[1..], from);
        case Some(slash) =>
          SubstituteSame(s[2 + |slash| + |from|..], from);
          MatchedText(s, from, slash);
      }
    }
  }

  /** Every match moves the length the same way. */
  lemma {:induction false} SubstituteLengths(s: string, from: string, to: string)
    ensures |from| <= |to| ==> |s| <= |Substitute(s, from, to)|
    ensures |to| <= |from| ==> |Substitute(s, from, to)| <= |s|
    ensures Occurs(s, from) && |from| != |to| ==> |Substitute(s, from, to)| != |s|
    decreases |s|
  {
    if s != [] {
      match MatchHere(s, from) {
        case None => SubstituteLengths(s[1..], from, to);
        case Some(slash) =>
          SubstituteLengths(s[2 + |slash| + |from|..], from, to);
          MatchCuts(s, from, to, slash);
      }
    }
  }

  /** With equal lengths the text itself differs at the first match. */
  lemma {:induction false} SubstituteDiffers(s: string, from: string, to: string)
    requires Occurs(s, from) && from != to
    ensures Substitute(s, from, to) != s
    decreases |s|
  {
    SubstituteLengths(s, from, to);
    match MatchHere(s, from) {
      case None =>
        SubstituteDiffers(s[1..], from, to);
        assert Substitute(s, from, to)[1..] == Substitute(s[1..], from, to);
      case Some(slash) =>
        MatchCuts(s, from, to, slash);
        if |from| == |to| {
          LiteralsDiffer(s[0], slash, from, to, s[1 + |slash| + |from|], s[2 + |slash| + |from|..],
                         Substitute(s[2 + |slash| + |from|..], from, to));
        }
    }
  }

  lemma LiteralsDiffer(q: char, slash: string, from: string, to: string, c: char, x: string, y: string)
    requires from != to && |from| == |to|
    ensures Literal(q, slash, from, c) + x != Literal(q, slash, to, c) + y
  {
    var l, r := Literal(q, slash, from, c) + x, Literal(q, slash, to, c) + y;
    var at := 1 + |slash|;
    assert l[at..at + |from|] == from && r[at..at + |to|] == to;
  }

  lemma {:induction false} JoinLengths(xs: seq<string>, ys: seq<string>)
    requires |xs| == |ys|
    ensures (forall i :: 0 <= i < |xs| ==> |xs[i]| <= |ys[i]|) ==> |Join(xs)| <= |Join(ys)|
    ensures (forall i :: 0 <= i < |xs| ==> |xs[i]| <= |ys[i]|) && Join(xs) == Join(ys) ==> xs == ys
    decreases |xs|
  {
    if xs != [] {
      JoinLengths(xs[1..], ys[1..]);
      if (forall i :: 0 <= i < |xs| ==> |xs[i]| <= |ys[i]|) && Join(xs) == Join(ys) {
        assert |xs[0]| == |ys[0]|;
        assert xs[0] == Join(xs)[..|xs[0]|] == ys[0];
        assert Join(xs[1..]) == Join(xs)[|xs[0]|..] == Join(ys[1..]);
        assert xs == [xs[0]] + xs[1..] && ys == [ys[0]] + ys[1..];
      }
    }
  }

  /** The caller's test "the code came back unchanged" means exactly that no non-assertion
      line addresses the old path (or that both paths are the same). */
  lemma UnchangedIffNotAddressed(p: Pattern, code: string, oldPath: string, newPath: string)
    ensures Heal(p, code, oldPath, newPath) == code <==>
            !AddressingPresent(p, code, oldPath) || StripSlashes(oldPath) == StripSlashes(newPath)
  {
    var from, to, lines := StripSlashes(oldPath), StripSlashes(newPath), SplitLines(code);
    var healed := HealLines(p, lines, from, to);
    JoinSplit(code);
    SplitCanonical(code);
    forall i | 0 <= i < |lines|
      ensures |from| <= |to| ==> |lines[i]| <= |healed[i]|
      ensures |to| <= |from| ==> |healed[i]| <= |lines[i]|
      ensures healed[i] == lines[i] <==> p.matches(Body(lines[i])) || !Occurs(Body(lines[i]), from) || from == to
    {
      LinesAreLines(lines, i);
      EndingShape(lines[i]);
      SubstituteTail(Body(lines[i]), Ending(lines[i]), from, to);
      SubstituteLengths(lines[i], from, to);
      if Occurs(lines[i], from) && from != to { SubstituteDiffers(lines[i], from, to); }
      SubstituteSame(lines[i], from);
      if !Occurs(lines[i], from) { NothingToSubstitute(lines[i], from, to); }
    }
    JoinLengths(lines, healed);
    JoinLengths(healed, lines);
    assert healed == lines <==> forall i :: 0 <= i < |lines| ==> healed[i] == lines[i];
  }

  // ----- the program -----

  method ApplyRouteHeal(p: Pattern, code: string, oldPath: string, newPath: string) returns (r: string)
    ensures r == Heal(p, code, oldPath, newPath)
  {
    var from, newBody := StripSlashes(oldPath), StripSlashes(newPath);
    var lines := SplitLines(code);
    var out: seq<string> := [];
    for n := 0 to |lines|
      invariant |out| == n
      invariant forall i :: 0 <= i < n ==> out[i] == HealLine(p, lines[i], from, newBody)
    {
      if p.matches(Body(lines[n])) {
        out := out + [lines[n]];
      } else {
        out := out + [Substitute(lines[n], from, newBody)];
      }
    }
    assert out == HealLines(p, lines, from, newBody);
    r := Join(out);
  }
}
