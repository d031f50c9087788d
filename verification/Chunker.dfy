/** Deterministic chunking of a document: paragraphs, hard splits and greedy packing. */
module Chunker {
  import opened Prelude

  predicate IsSpace(c: char) {
    '\t' <= c <= '\r' || '\U{1C}' <= c <= '\U{20}' || c == '\U{85}' || c == '\U{A0}' || c == '\U{1680}' ||
    '\U{2000}' <= c <= '\U{200A}' || c == '\U{2028}' || c == '\U{2029}' || c == '\U{202F}' || c == '\U{205F}' ||
    c == '\U{3000}'
  }

  predicate AllSpace(s: string) { forall i :: 0 <= i < |s| ==> IsSpace(s[i]) }

  /** The content that must survive. */
  function Ink(s: string): string {
    if s == [] then [] else (if IsSpace(s[0]) then [] else [s[0]]) + Ink(s[1..])
  }

  lemma {:induction false} InkConcat(a: string, b: string)
    ensures Ink(a + b) == Ink(a) + Ink(b)
  {
    if a == [] {
      assert a + b == b;
    } else {
      assert (a + b)[1..] == a[1..] + b;
      InkConcat(a[1..], b);
    }
  }

  lemma {:induction false} InkOfSpace(s: string)
    requires AllSpace(s)
    ensures Ink(s) == []
  {
    if s != [] { InkOfSpace(s[1..]); }
  }

  // ----- strip -----

  function StripLeft(s: string): (r: string)
    ensures |r| <= |s|
  {
    if s != [] && IsSpace(s[0]) then StripLeft(s[1..]) else s
  }

  function StripRight(s: string): (r: string)
    ensures |r| <= |s|
  {
    if s != [] && IsSpace(s[|s| - 1]) then StripRight(s[..|s| - 1]) else s
  }

  function Strip(s: string): (r: string)
    ensures |r| <= |s|
  {
    StripRight(StripLeft(s))
  }

  lemma {:induction false} StripLeftInk(s: string)
    ensures Ink(StripLeft(s)) == Ink(s)
  {
    if s != [] && IsSpace(s[0]) { StripLeftInk(s[1..]); }
  }

  lemma {:induction false} StripRightInk(s: string)
    ensures Ink(StripRight(s)) == Ink(s)
  {
    if s != [] && IsSpace(s[|s| - 1]) {
      var init, last := s[..|s| - 1], s[|s| - 1];
      StripRightInk(init);
      InkConcat(init, [last]);
      assert s == init + [last];
      assert [last][1..] == [];
    }
  }

  lemma StripInk(s: string)
    ensures Ink(Strip(s)) == Ink(s)
  {
    StripLeftInk(s);
    StripRightInk(StripLeft(s));
  }

  /** Some text, with no white space at either end. */
  predicate Trimmed(s: string) { s != "" && !IsSpace(s[0]) && !IsSpace(s[|s| - 1]) }

  lemma {:induction false} StripLeftMeaning(s: string) returns (i: nat)
    ensures i <= |s| && StripLeft(s) == s[i..] && (i < |s| ==> !IsSpace(s[i]))
    ensures forall k :: 0 <= k < i ==> IsSpace(s[k])
  {
    if s != "" && IsSpace(s[0]) {
      var j := StripLeftMeaning(s[1..]);
      i := j + 1;
      assert s[1..][j..] == s[i..];
      forall k | 0 <= k < i ensures IsSpace(s[k]) {
        if k > 0 { assert s[1..][k - 1] == s[k]; }
      }
    } else {
      i := 0;
    }
  }

  lemma {:induction false} StripRightMeaning(s: string) returns (j: nat)
    ensures j <= |s| && StripRight(s) == s[..j] && (j > 0 ==> !IsSpace(s[j - 1]))
    ensures forall k :: j <= k < |s| ==> IsSpace(s[k])
    decreases |s|
  {
    j := |s|;
    if s != "" && IsSpace(s[|s| - 1]) {
      j := StripRightMeaning(s[..|s| - 1]);
      assert s[..|s| - 1][..j] == s[..j];
    } else {
      assert s[..j] == s;
    }
  }

  /** `strip` takes off exactly the white space at the two ends. */
  lemma StripMeaning(s: string) returns (i: nat, j: nat)
    ensures i <= j <= |s| && Strip(s) == s[i..j]
    ensures forall k :: 0 <= k < i || j <= k < |s| ==> IsSpace(s[k])
    ensures Strip(s) == "" || Trimmed(Strip(s))
  {
    i := StripLeftMeaning(s);
    var mid := s[i..];
    var n := StripRightMeaning(mid);
    j := i + n;
    assert mid[..n] == s[i..j];
    forall k | j <= k < |s| ensures IsSpace(s[k]) { assert mid[k - i] == s[k]; }
    if n > 0 { assert mid[..n][0] == mid[0] && mid[..n][n - 1] == mid[n - 1]; }
  }

  // ----- paragraphs -----

  /** `s[i..j+1]` is white space from one newline to a later one. */
  predicate Separates(s: string, i: nat, j: nat) {
    i < j < |s| && s[i] == '\n' && s[j] == '\n' && AllSpace(s[i..j + 1])
  }

  /** The last newline that white space starting at the newline `s[i]` reaches; `s[i..k]` has
      been scanned and `best` is its last newline. */
  function LastNewline(s: string, i: nat, k: nat, best: nat): (r: nat)
    requires i <= best < k <= |s| && s[i] == '\n' && s[best] == '\n' && AllSpace(s[i..k])
    requires forall j: nat :: best < j < k ==> s[j] != '\n'
    ensures i <= r < |s| && s[r] == '\n' && AllSpace(s[i..r + 1])
    ensures forall j: nat :: Separates(s, i, j) ==> j <= r
    decreases |s| - k
  {
    if k < |s| && IsSpace(s[k]) then
      assert s[i..k + 1] == s[i..k] + [s[k]];
      assert AllSpace(s[i..k + 1]);
      LastNewline(s, i, k + 1, if s[k] == '\n' then k else best)
    else
      assert s[i..best + 1] == s[i..k][..best + 1 - i];
      assert forall j: nat :: Separates(s, i, j) && j >= k ==> s[i..j + 1][k - i] == s[k];
      best
  }

  /** The leftmost separator at or after `i`, as long as possible: what the pattern matches. */
  function NextSeparator(s: string, i: nat): (r: Option<(nat, nat)>)
    requires i <= |s|
    ensures r.Some? ==> i <= r.value.0 && Separates(s, r.value.0, r.value.1)
    ensures r.Some? ==> forall j: nat :: Separates(s, r.value.0, j) ==> j <= r.value.1
    ensures forall h: nat, j: nat :: i <= h && Separates(s, h, j) ==> r.Some? && r.value.0 <= h
    decreases |s| - i
  {
    if i == |s| then None
    else if s[i] == '\n' && LastNewline(s, i, i + 1, i) > i then Some((i, LastNewline(s, i, i + 1, i)))
    else NextSeparator(s, i + 1)
  }

  function InkAll(ps: seq<string>): string {
    if ps == [] then [] else Ink(ps[0]) + InkAll(ps[1..])
  }

  lemma {:induction false} InkAllConcat(a: seq<string>, b: seq<string>)
    ensures InkAll(a + b) == InkAll(a) + InkAll(b)
  {
    if a == [] {
      assert a + b == b;
    } else {
      assert (a + b)[1..] == a[1..] + b;
      InkAllConcat(a[1..], b);
    }
  }

  /** `re.split` on the blank-line pattern. */
  function SplitParagraphs(s: string): seq<string>
    decreases |s|
  {
    match NextSeparator(s, 0)
    case None => [s]
    case Some((i, j)) => [s[..i]] + SplitParagraphs(s[j + 1..])
  }

  /** Strip every part and drop the empty ones. */
  function StripAll(ps: seq<string>): seq<string> {
    if ps == [] then []
    else if Strip(ps[0]) == [] then StripAll(ps[1..])
    else [Strip(ps[0])] + StripAll(ps[1..])
  }

  lemma {:induction false} StripAllInk(ps: seq<string>)
    ensures InkAll(StripAll(ps)) == InkAll(ps)
    ensures forall i :: 0 <= i < |StripAll(ps)| ==> StripAll(ps)[i] != ""
  {
    if ps != [] {
      StripInk(ps[0]);
      StripAllInk(ps[1..]);
    }
  }

  /** No two newlines with only white space between them. */
  ghost predicate NoBlankLine(s: string) {
    forall i: nat, j: nat :: !Separates(s, i, j)
  }

  lemma SliceOfSlice(s: string, a: nat, b: nat, i: nat, j: nat)
    requires a <= b <= |s| && i <= j <= b - a
    ensures s[a..b][i..j] == s[a + i..a + j]
  {
    var t, u := s[a..b][i..j], s[a + i..a + j];
    assert forall k :: 0 <= k < |t| ==> t[k] == s[a..b][i + k] == s[a + i + k] == u[k];
  }

  lemma NoBlankLineIn(s: string, a: nat, b: nat)
    requires a <= b <= |s| && NoBlankLine(s)
    ensures NoBlankLine(s[a..b])
  {
    var t := s[a..b];
    forall i: nat, j: nat ensures !Separates(t, i, j) {
      if i < j < |t| {
        SliceOfSlice(s, a, b, i, j + 1);
        assert !Separates(s, a + i, a + j);
      }
    }
  }

  lemma StripKeepsNoBlankLine(s: string)
    requires NoBlankLine(s)
    ensures NoBlankLine(Strip(s))
  {
    var i, j := StripMeaning(s);
    NoBlankLineIn(s, i, j);
  }

  /** The text before the first separator has none. */
  lemma BeforeSeparator(s: string)
    ensures match NextSeparator(s, 0)
            case None => NoBlankLine(s)
            case Some(r) => NoBlankLine(s[..r.0])
  {
    var r := NextSeparator(s, 0);
    if r.Some? {
      var t := s[..r.value.0];
      forall i: nat, j: nat ensures !Separates(t, i, j) {
        if i < j < |t| {
          assert t[i..j + 1] == s[i..j + 1];
          assert !Separates(s, i, j);
        }
      }
    }
  }

  /** Paragraphs and separators in turn. */
  function Weave(ps: seq<string>, seps: seq<string>): string
    requires |ps| == |seps| + 1
  {
    if seps == [] then ps[0] else ps[0] + seps[0] + Weave(ps[1..], seps[1..])
  }

  predicate IsSeparator(s: string) {
    |s| >= 2 && s[0] == '\n' && s[|s| - 1] == '\n' && AllSpace(s)
  }

  /** `ps` are texts without blank lines that blank-line separators join into `s`. */
  ghost predicate Splits(s: string, ps: seq<string>, seps: seq<string>) {
    && |ps| == |seps| + 1 && Weave(ps, seps) == s
    && (forall i :: 0 <= i < |seps| ==> IsSeparator(seps[i]))
    && (forall i :: 0 <= i < |ps| ==> NoBlankLine(ps[i]))
  }

  /** The content is its paragraphs with blank-line separators between them, and no paragraph
      holds a separator itself: the split is at the blank lines, and only there. */
  lemma {:induction false} ParagraphsMeaning(s: string) returns (seps: seq<string>)
    ensures Splits(s, SplitParagraphs(s), seps)
    decreases |s|
  {
    BeforeSeparator(s);
    match NextSeparator(s, 0) {
      case None => seps := [];
      case Some((i, j)) =>
        var rest := ParagraphsMeaning(s[j + 1..]);
        seps := [s[i..j + 1]] + rest;
        SeparatesSlice(s, i, j);
        SplitsCons(s[..i], s[i..j + 1], s[j + 1..], SplitParagraphs(s[j + 1..]), rest);
    }
  }

  lemma SeparatesSlice(s: string, i: nat, j: nat)
    requires Separates(s, i, j)
    ensures IsSeparator(s[i..j + 1]) && s == s[..i] + s[i..j + 1] + s[j + 1..]
  {
    assert s[i..j + 1][0] == s[i] && s[i..j + 1][j - i] == s[j];
  }

  lemma SplitsCons(p: string, sep: string, rest: string, ps: seq<string>, seps: seq<string>)
    requires NoBlankLine(p) && IsSeparator(sep) && Splits(rest, ps, seps)
    ensures Splits(p + sep + rest, [p] + ps, [sep] + seps)
  {
    WeaveCons(p, sep, ps, seps);
  }

  lemma WeaveCons(p: string, sep: string, ps: seq<string>, seps: seq<string>)
    requires |ps| == |seps| + 1
    ensures Weave([p] + ps, [sep] + seps) == p + sep + Weave(ps, seps)
  {
    assert ([p] + ps)[1..] == ps && ([sep] + seps)[1..] == seps;
  }

  ghost predicate CleanPieces(ps: seq<string>) {
    forall i :: 0 <= i < |ps| ==> Trimmed(ps[i]) && NoBlankLine(ps[i])
  }

  lemma CleanAppend(a: seq<string>, b: seq<string>)
    requires CleanPieces(a) && CleanPieces(b)
    ensures CleanPieces(a + b)
  {
  }

  lemma {:induction false} StripAllClean(ps: seq<string>)
    requires forall i :: 0 <= i < |ps| ==> NoBlankLine(ps[i])
    ensures CleanPieces(StripAll(ps))
  {
    if ps != [] {
      StripAllClean(ps[1..]);
      var i, j := StripMeaning(ps[0]);
      StripKeepsNoBlankLine(ps[0]);
      if Strip(ps[0]) != "" { CleanAppend([Strip(ps[0])], StripAll(ps[1..])); }
    }
  }

  lemma Cut(s: string, i: nat)
    requires i <= |s|
    ensures s == s[..i] + s[i..]
  {
  }

  lemma CutTail(s: string, i: nat, j: nat)
    requires i <= j <= |s|
    ensures s[i..] == s[i..j] + s[j..]
  {
  }

  lemma InkSplit(s: string, i: nat)
    requires i <= |s|
    ensures Ink(s) == Ink(s[..i]) + Ink(s[i..])
  {
    Cut(s, i);
    InkConcat(s[..i], s[i..]);
  }

  /** White space in the middle carries no ink. */
  lemma InkAround(s: string, i: nat, j: nat)
    requires i <= j <= |s| && AllSpace(s[i..j])
    ensures Ink(s) == Ink(s[..i]) + Ink(s[j..])
  {
    Cut(s, i);
    CutTail(s, i, j);
    InkConcat(s[..i], s[i..]);
    InkAfterSpace(s[i..j], s[j..]);
  }

  lemma InkAfterSpace(a: string, b: string)
    requires AllSpace(a)
    ensures Ink(a + b) == Ink(b)
  {
    InkOfSpace(a);
    InkConcat(a, b);
  }

  lemma {:induction false} ParagraphsKeepInk(s: string)
    ensures InkAll(SplitParagraphs(s)) == Ink(s)
    decreases |s|
  {
    match NextSeparator(s, 0) {
      case None => assert SplitParagraphs(s)[1..] == [];
      case Some((i, j)) =>
        ParagraphsKeepInk(s[j + 1..]);
        InkAround(s, i, j + 1);
    }
  }

  // ----- hard splits -----

  /** `rfind(" ")`, with -1 for nothing. */
  function LastBlank(s: string): (r: int)
    ensures -1 <= r < |s| && (r >= 0 ==> s[r] == ' ') && forall i :: r < i < |s| ==> s[i] != ' '
  {
    if s == [] then -1
    else if s[|s| - 1] == ' ' then |s| - 1
    else LastBlank(s[..|s| - 1])
  }

  /** Where an over-long text is cut: at the window's last blank, else hard at the limit. */
  function CutAt(s: string, maxChars: nat): (r: nat)
    requires 1 <= maxChars < |s|
    ensures 1 <= r <= maxChars
  {
    var cut := LastBlank(s[..maxChars]);
    if cut <= 0 then maxChars else cut
  }

  function Pieces(s: string, maxChars: nat): seq<string>
    requires maxChars >= 1
    decreases |s|
  {
    if |s| <= maxChars then (if s == "" then [] else [s])
    else [Strip(s[..CutAt(s, maxChars)])] + Pieces(Strip(s[CutAt(s, maxChars)..]), maxChars)
  }

  /** An over-long text is cut at the last blank of its window, or at the limit when the window
      has no usable blank; what is before and after the cut is stripped, and the rest is cut on. */
  lemma CutPrefersBlank(s: string, maxChars: nat) returns (cut: nat)
    requires 1 <= maxChars < |s|
    ensures 1 <= cut <= maxChars
    ensures if exists i :: 0 < i < maxChars && s[i] == ' ' then
              cut < maxChars && s[cut] == ' ' && forall i :: cut < i < maxChars ==> s[i] != ' '
            else cut == maxChars
    ensures Pieces(s, maxChars) == [Strip(s[..cut])] + Pieces(Strip(s[cut..]), maxChars)
  {
    cut := CutAt(s, maxChars);
    var window := s[..maxChars];
    assert forall i :: 0 <= i < maxChars ==> window[i] == s[i];
  }

  lemma NonEmptyCons(p: string, ps: seq<string>)
    ensures NonEmpty([p] + ps) == (if p == "" then [] else [p]) + NonEmpty(ps)
  {
    assert ([p] + ps)[1..] == ps;
  }

  /** Every piece of a text without blank lines is trimmed and without blank lines. */
  lemma {:induction false} PiecesClean(s: string, maxChars: nat)
    requires maxChars >= 1 && NoBlankLine(s) && (s == "" || Trimmed(s))
    ensures CleanPieces(NonEmpty(Pieces(s, maxChars)))
    decreases |s|
  {
    if |s| <= maxChars {
      if s != "" { NonEmptyCons(s, []); assert [s] + [] == [s]; }
    } else {
      var cut := CutPrefersBlank(s, maxChars);
      var head, tail := Strip(s[..cut]), Strip(s[cut..]);
      HalvesClean(s, cut);
      PiecesClean(tail, maxChars);
      NonEmptyCons(head, Pieces(tail, maxChars));
      if head != "" { CleanAppend([head], NonEmpty(Pieces(tail, maxChars))); }
    }
  }

  lemma HalvesClean(s: string, cut: nat)
    requires cut <= |s| && NoBlankLine(s)
    ensures NoBlankLine(Strip(s[..cut])) && (Strip(s[..cut]) == "" || Trimmed(Strip(s[..cut])))
    ensures NoBlankLine(Strip(s[cut..])) && (Strip(s[cut..]) == "" || Trimmed(Strip(s[cut..])))
  {
    NoBlankLineIn(s, 0, cut);
    NoBlankLineIn(s, cut, |s|);
    assert s[0..cut] == s[..cut] && s[cut..|s|] == s[cut..];
    StripKeepsNoBlankLine(s[..cut]);
    StripKeepsNoBlankLine(s[cut..]);
    var i, j := StripMeaning(s[..cut]);
    i, j := StripMeaning(s[cut..]);
  }

  function NonEmpty(ps: seq<string>): seq<string> {
    if ps == [] then []
    else if ps[0] == "" then NonEmpty(ps[1..])
    else [ps[0]] + NonEmpty(ps[1..])
  }

  lemma {:induction false} NonEmptyInk(ps: seq<string>)
    ensures InkAll(NonEmpty(ps)) == InkAll(ps)
    ensures forall p :: p in NonEmpty(ps) ==> p in ps && p != ""
  {
    if ps != [] { NonEmptyInk(ps[1..]); }
  }

  function SplitLong(s: string, maxChars: nat): seq<string>
    requires maxChars >= 1
  {
    if |s| <= maxChars then [s] else NonEmpty(Pieces(s, maxChars))
  }

  lemma {:induction false} PiecesFit(s: string, maxChars: nat)
    requires maxChars >= 1
    ensures InkAll(Pieces(s, maxChars)) == Ink(s)
    ensures forall p :: p in Pieces(s, maxChars) ==> |p| <= maxChars
    decreases |s|
  {
    if |s| > maxChars {
      var cut := CutAt(s, maxChars);
      PiecesFit(Strip(s[cut..]), maxChars);
      StripInk(s[..cut]);
      StripInk(s[cut..]);
      InkSplit(s, cut);
    } else if s != "" {
      assert Pieces(s, maxChars)[1..] == [];
    }
  }

  lemma SplitLongFits(s: string, maxChars: nat)
    requires maxChars >= 1 && s != ""
    ensures InkAll(SplitLong(s, maxChars)) == Ink(s)
    ensures forall p :: p in SplitLong(s, maxChars) ==> 0 < |p| <= maxChars
  {
    PiecesFit(s, maxChars);
    NonEmptyInk(Pieces(s, maxChars));
    if |s| <= maxChars { assert [s][1..] == []; }
  }

  function SplitAll(ps: seq<string>, maxChars: nat): seq<string>
    requires maxChars >= 1
  {
    if ps == [] then [] else SplitLong(ps[0], maxChars) + SplitAll(ps[1..], maxChars)
  }

  lemma {:induction false} SplitAllFits(ps: seq<string>, maxChars: nat)
    requires maxChars >= 1 && forall i :: 0 <= i < |ps| ==> ps[i] != ""
    ensures InkAll(SplitAll(ps, maxChars)) == InkAll(ps)
    ensures forall p :: p in SplitAll(ps, maxChars) ==> 0 < |p| <= maxChars
  {
    if ps != [] {
      SplitLongFits(ps[0], maxChars);
      SplitAllFits(ps[1..], maxChars);
      InkAllConcat(SplitLong(ps[0], maxChars), SplitAll(ps[1..], maxChars));
    }
  }

  lemma {:induction false} SplitAllClean(ps: seq<string>, maxChars: nat)
    requires maxChars >= 1 && CleanPieces(ps)
    ensures CleanPieces(SplitAll(ps, maxChars))
  {
    if ps != [] {
      if |ps[0]| > maxChars { PiecesClean(ps[0], maxChars); }
      SplitAllClean(ps[1..], maxChars);
      CleanAppend(SplitLong(ps[0], maxChars), SplitAll(ps[1..], maxChars));
    }
  }

  // ----- greedy packing -----

  datatype Packing = Packing(chunks: seq<string>, buffer: string)

  function PackStep(k: Packing, piece: string, maxChars: nat): Packing {
    if k.buffer == "" then k.(buffer := piece)
    else if |k.buffer| + 1 + |piece| <= maxChars then k.(buffer := k.buffer + "\n" + piece)
    else Packing(k.chunks + [k.buffer], piece)
  }

  function Pack(pieces: seq<string>, maxChars: nat): Packing {
    if pieces == [] then Packing([], "")
    else PackStep(Pack(pieces[..|pieces| - 1], maxChars), pieces[|pieces| - 1], maxChars)
  }

  function Close(k: Packing): seq<string> {
    if k.buffer == "" then k.chunks else k.chunks + [k.buffer]
  }

  /** The pieces of a document, in order. */
  function PiecesOf(content: string, maxChars: nat): seq<string>
    requires maxChars >= 1
  {
    SplitAll(StripAll(SplitParagraphs(content)), maxChars)
  }

  function Chunks(content: string, maxChars: nat): seq<string>
    requires maxChars >= 1
  {
    Close(Pack(PiecesOf(content, maxChars), maxChars))
  }

  ghost predicate Snug(chunks: seq<string>, maxChars: nat) {
    && (forall i :: 0 <= i < |chunks| ==> 0 < |chunks[i]| <= maxChars)
    && (forall i :: 0 <= i < |chunks| - 1 ==> |chunks[i]| + |chunks[i + 1]| >= maxChars)
  }

  /** What a packing state keeps. */
  ghost predicate PackOk(k: Packing, pieces: seq<string>, maxChars: nat) {
    && Snug(Close(k), maxChars)
    && InkAll(Close(k)) == InkAll(pieces)
    && (k.buffer == "" ==> k.chunks == [])
  }

  lemma PackNextOk(k: Packing, pieces: seq<string>, piece: string, maxChars: nat)
    requires PackOk(k, pieces, maxChars) && 0 < |piece| <= maxChars
    ensures PackOk(PackStep(k, piece, maxChars), pieces + [piece], maxChars)
  {
    PackStepKeeps(k, piece, maxChars);
    AppendKeepsInk(pieces, piece);
  }

  lemma PackSnug(pieces: seq<string>, maxChars: nat)
    requires forall p :: p in pieces ==> 0 < |p| <= maxChars
    ensures PackOk(Pack(pieces, maxChars), pieces, maxChars)
  {
    assert pieces[..0] == [];
    for n := 0 to |pieces|
      invariant PackOk(Pack(pieces[..n], maxChars), pieces[..n], maxChars)
    {
      PackSnugStep(pieces, n, maxChars);
    }
    assert pieces[..|pieces|] == pieces;
  }

  lemma PackSnugStep(pieces: seq<string>, n: nat, maxChars: nat)
    requires n < |pieces| && forall p :: p in pieces ==> 0 < |p| <= maxChars
    requires PackOk(Pack(pieces[..n], maxChars), pieces[..n], maxChars)
    ensures PackOk(Pack(pieces[..n + 1], maxChars), pieces[..n + 1], maxChars)
  {
    assert pieces[n] in pieces;
    PackPrefix(pieces, n, maxChars);
    PackNextOk(Pack(pieces[..n], maxChars), pieces[..n], pieces[n], maxChars);
  }

  lemma PackPrefix(pieces: seq<string>, n: nat, maxChars: nat)
    requires n < |pieces|
    ensures pieces[..n + 1] == pieces[..n] + [pieces[n]]
    ensures Pack(pieces[..n + 1], maxChars) == PackStep(Pack(pieces[..n], maxChars), pieces[n], maxChars)
  {
    PackNext([], pieces, n, maxChars);
    assert [] + pieces[..n] == pieces[..n];
    assert [] + pieces[..n + 1] == pieces[..n + 1];
  }

  lemma PackStepKeeps(k: Packing, piece: string, maxChars: nat)
    requires 0 < |piece| <= maxChars && Snug(Close(k), maxChars)
    requires k.buffer == "" ==> k.chunks == []
    ensures Snug(Close(PackStep(k, piece, maxChars)), maxChars)
    ensures InkAll(Close(PackStep(k, piece, maxChars))) == InkAll(Close(k)) + Ink(piece)
  {
    var cs, next := Close(k), PackStep(k, piece, maxChars);
    if k.buffer == "" {
      assert cs == [] && Close(next) == cs + [piece];
      AppendKeepsInk(cs, piece);
    } else if |k.buffer| + 1 + |piece| <= maxChars {
      assert cs == k.chunks + [k.buffer] && Close(next) == k.chunks + [k.buffer + "\n" + piece];
      SnugReplace(k.chunks, k.buffer, k.buffer + "\n" + piece, maxChars);
      JoinKeepsInk(k.chunks, k.buffer, piece);
    } else {
      assert Close(next) == cs + [piece] && cs[|cs| - 1] == k.buffer;
      SnugAppend(cs, piece, maxChars);
      AppendKeepsInk(cs, piece);
    }
  }

  lemma JoinKeepsInk(cs: seq<string>, a: string, b: string)
    ensures InkAll(cs + [a + "\n" + b]) == InkAll(cs + [a]) + Ink(b)
  {
    InkAllConcat(cs, [a]);
    InkAllConcat(cs, [a + "\n" + b]);
    InkJoined(a, b);
  }

  lemma AppendKeepsInk(cs: seq<string>, p: string)
    ensures InkAll(cs + [p]) == InkAll(cs) + Ink(p)
  {
    InkAllConcat(cs, [p]);
    InkOne(p);
  }

  lemma InkJoined(a: string, b: string)
    ensures InkAll([a + "\n" + b]) == InkAll([a]) + Ink(b)
  {
    InkOne(a);
    InkOne(a + "\n" + b);
    InkConcat(a, "\n");
    InkConcat(a + "\n", b);
    InkOfSpace("\n");
  }

  lemma InkOne(p: string)
    ensures InkAll([p]) == Ink(p)
  {
    assert [p][1..] == [];
  }

  lemma SnugReplace(cs: seq<string>, a: string, b: string, maxChars: nat)
    requires Snug(cs + [a], maxChars) && |a| <= |b| <= maxChars
    ensures Snug(cs + [b], maxChars)
  {
    var l, r := cs + [a], cs + [b];
    forall i | 0 <= i < |r| ensures 0 < |r[i]| <= maxChars && |l[i]| <= |r[i]| {
      assert 0 < |l[i]| <= maxChars;
    }
    forall i | 0 <= i < |r| - 1 ensures |r[i]| + |r[i + 1]| >= maxChars {
      assert |l[i]| + |l[i + 1]| >= maxChars;
    }
  }

  lemma SnugAppend(cs: seq<string>, p: string, maxChars: nat)
    requires cs != [] && Snug(cs, maxChars) && 0 < |p| <= maxChars && |cs[|cs| - 1]| + |p| >= maxChars
    ensures Snug(cs + [p], maxChars)
  {
    var r := cs + [p];
    forall i | 0 <= i < |r| - 1 ensures |r[i]| + |r[i + 1]| >= maxChars {
      if i < |cs| - 1 { assert r[i] == cs[i] && r[i + 1] == cs[i + 1]; }
    }
  }

  /** The chunks are non-empty, within the limit, hold the content's ink in order, and no two
      neighbours would have fitted into much less than one chunk. */
  lemma ChunksAreSound(content: string, maxChars: nat)
    requires maxChars >= 1
    ensures Snug(Chunks(content, maxChars), maxChars)
    ensures InkAll(Chunks(content, maxChars)) == Ink(content)
  {
    var ps := StripAll(SplitParagraphs(content));
    StripAllInk(SplitParagraphs(content));
    ParagraphsKeepInk(content);
    SplitAllFits(ps, maxChars);
    PackSnug(SplitAll(ps, maxChars), maxChars);
  }

  function TotalLength(chunks: seq<string>): nat {
    if chunks == [] then 0 else |chunks[0]| + TotalLength(chunks[1..])
  }

  /** The neighbour bound summed up: (chunks - 1) x limit is at most twice the total length. */
  lemma {:induction false} ChunkCount(chunks: seq<string>, maxChars: nat)
    requires Snug(chunks, maxChars) && chunks != []
    ensures (|chunks| - 1) * maxChars + |chunks[0]| <= 2 * TotalLength(chunks)
    decreases |chunks|
  {
    if |chunks| > 1 {
      var rest := chunks[1..];
      assert Snug(rest, maxChars) by {
        assert forall i :: 0 <= i < |rest| ==> rest[i] == chunks[i + 1];
      }
      assert |chunks[0]| + |chunks[1]| >= maxChars;
      ChunkCount(rest, maxChars);
      assert (|chunks| - 1) * maxChars == (|rest| - 1) * maxChars + maxChars;
    }
  }

  // ----- no packing in order uses fewer chunks -----

  /** `"\n".join(group)`. */
  function JoinLines(group: seq<string>): string {
    if group == [] then ""
    else
      var n := |group| - 1;
      if n == 0 then group[0] else JoinLines(group[..n]) + "\n" + group[n]
  }

  function Flatten(groups: seq<seq<string>>): seq<string> {
    if groups == [] then [] else Flatten(groups[..|groups| - 1]) + groups[|groups| - 1]
  }

  /** A way to pack `pieces` in order: consecutive groups, each of which fits one chunk. */
  ghost predicate Packs(groups: seq<seq<string>>, pieces: seq<string>, maxChars: nat) {
    && Flatten(groups) == pieces
    && forall i :: 0 <= i < |groups| ==> groups[i] != [] && |JoinLines(groups[i])| <= maxChars
  }

  /** The greedy state has fewer than `m` chunks, or `m` and at most `l` characters in the last. */
  predicate Ahead(k: Packing, m: nat, l: nat) {
    |Close(k)| < m || (|Close(k)| == m && |k.buffer| <= l)
  }

  lemma AheadStep(k: Packing, piece: string, m: nat, l: nat, maxChars: nat)
    requires Ahead(k, m, l) && m > 0 && (k.buffer == "" ==> k.chunks == [])
    requires piece != "" && l + 1 + |piece| <= maxChars
    ensures Ahead(PackStep(k, piece, maxChars), m, l + 1 + |piece|)
  {
  }

  lemma AheadOpens(k: Packing, piece: string, m: nat, maxChars: nat)
    requires |Close(k)| <= m && piece != ""
    ensures Ahead(PackStep(k, piece, maxChars), m + 1, |piece|)
  {
  }

  lemma JoinNext(group: seq<string>, j: nat)
    requires 0 < j < |group|
    ensures |JoinLines(group[..j + 1])| == |JoinLines(group[..j])| + 1 + |group[j]|
  {
    assert group[..j + 1][..j] == group[..j];
  }

  lemma {:induction false} JoinGrows(group: seq<string>, j: nat)
    requires j <= |group|
    ensures |JoinLines(group[..j])| <= |JoinLines(group)|
    decreases |group| - j
  {
    if j == |group| {
      assert group[..j] == group;
    } else {
      JoinGrows(group, j + 1);
      if j > 0 { JoinNext(group, j); }
    }
  }

  lemma {:induction false} OpenUnlessEmpty(pieces: seq<string>, maxChars: nat)
    requires forall i :: 0 <= i < |pieces| ==> pieces[i] != ""
    ensures var k := Pack(pieces, maxChars); k.buffer == "" ==> k.chunks == []
    decreases |pieces|
  {
    if pieces != [] { OpenUnlessEmpty(pieces[..|pieces| - 1], maxChars); }
  }

  lemma AheadNext(done: seq<string>, group: seq<string>, j: nat, m: nat, maxChars: nat)
    requires forall i :: 0 <= i < |done| ==> done[i] != ""
    requires forall i :: 0 <= i < |group| ==> group[i] != ""
    requires 0 < j < |group| && |JoinLines(group)| <= maxChars
    requires Ahead(Pack(done + group[..j], maxChars), m + 1, |JoinLines(group[..j])|)
    ensures Ahead(Pack(done + group[..j + 1], maxChars), m + 1, |JoinLines(group[..j + 1])|)
  {
    PackNext(done, group, j, maxChars);
    JoinNext(group, j);
    JoinGrows(group, j + 1);
    OpenUnlessEmpty(done + group[..j], maxChars);
    AheadStep(Pack(done + group[..j], maxChars), group[j], m + 1, |JoinLines(group[..j])|, maxChars);
  }

  lemma AheadFirst(done: seq<string>, group: seq<string>, m: nat, maxChars: nat)
    requires |Close(Pack(done, maxChars))| <= m && group != [] && group[0] != ""
    ensures Ahead(Pack(done + group[..1], maxChars), m + 1, |JoinLines(group[..1])|)
  {
    assert done + group[..0] == done;
    PackNext(done, group, 0, maxChars);
    AheadOpens(Pack(done, maxChars), group[0], m, maxChars);
  }

  lemma AheadWithin(done: seq<string>, group: seq<string>, m: nat, maxChars: nat)
    requires forall i :: 0 <= i < |done| ==> done[i] != ""
    requires forall i :: 0 <= i < |group| ==> group[i] != ""
    requires |Close(Pack(done, maxChars))| <= m && group != [] && |JoinLines(group)| <= maxChars
    ensures Ahead(Pack(done + group, maxChars), m + 1, |JoinLines(group)|)
  {
    AheadFirst(done, group, m, maxChars);
    for j := 1 to |group|
      invariant Ahead(Pack(done + group[..j], maxChars), m + 1, |JoinLines(group[..j])|)
    {
      AheadNext(done, group, j, m, maxChars);
    }
    assert group[..|group|] == group;
  }

  /** The greedy packing of any pieces uses the fewest chunks of all packings in their order. */
  lemma {:induction false} FewestChunks(groups: seq<seq<string>>, pieces: seq<string>, maxChars: nat)
    requires forall i :: 0 <= i < |pieces| ==> pieces[i] != ""
    requires Packs(groups, pieces, maxChars)
    ensures |Close(Pack(pieces, maxChars))| <= |groups|
    decreases |groups|
  {
    if groups != [] {
      var n := |groups| - 1;
      var done, last := Flatten(groups[..n]), groups[n];
      assert pieces == done + last;
      forall i | 0 <= i < |done| ensures done[i] != "" { assert pieces[i] == done[i]; }
      forall i | 0 <= i < |last| ensures last[i] != "" { assert pieces[|done| + i] == last[i]; }
      FewestChunks(groups[..n], done, maxChars);
      AheadWithin(done, last, n, maxChars);
    }
  }

  /** And it is one of them: the groups it forms. */
  function GroupStep(groups: seq<seq<string>>, k: Packing, piece: string, maxChars: nat): seq<seq<string>> {
    if groups != [] && |k.buffer| + 1 + |piece| <= maxChars then
      groups[..|groups| - 1] + [groups[|groups| - 1] + [piece]]
    else groups + [[piece]]
  }

  /** `groups`, joined, are the chunks of the packing state. */
  ghost predicate Forms(groups: seq<seq<string>>, k: Packing) {
    && |groups| == |Close(k)|
    && (k.buffer == "" <==> groups == [])
    && forall i :: 0 <= i < |groups| ==> groups[i] != [] && JoinLines(groups[i]) == Close(k)[i]
  }

  lemma GroupStepForms(groups: seq<seq<string>>, k: Packing, piece: string, maxChars: nat)
    requires Forms(groups, k) && piece != ""
    ensures Forms(GroupStep(groups, k, piece, maxChars), PackStep(k, piece, maxChars))
    ensures Flatten(GroupStep(groups, k, piece, maxChars)) == Flatten(groups) + [piece]
  {
    var more := GroupStep(groups, k, piece, maxChars);
    var n := |groups| - 1;
    if groups != [] && |k.buffer| + 1 + |piece| <= maxChars {
      assert more[..n] == groups[..n] && more[n] == groups[n] + [piece];
      assert more[n][..|groups[n]|] == groups[n];
      assert Close(k)[n] == k.buffer;
    } else {
      assert more[..|groups|] == groups;
    }
  }

  lemma {:induction false} GreedyPacks(pieces: seq<string>, maxChars: nat) returns (groups: seq<seq<string>>)
    requires forall p :: p in pieces ==> 0 < |p| <= maxChars
    ensures Forms(groups, Pack(pieces, maxChars)) && Flatten(groups) == pieces
    decreases |pieces|
  {
    if pieces == [] {
      groups := [];
    } else {
      var n := |pieces| - 1;
      forall p | p in pieces[..n] ensures 0 < |p| <= maxChars { assert p in pieces; }
      groups := GreedyPacks(pieces[..n], maxChars);
      assert pieces[n] in pieces && pieces == pieces[..n] + [pieces[n]];
      GroupStepForms(groups, Pack(pieces[..n], maxChars), pieces[n], maxChars);
      groups := GroupStep(groups, Pack(pieces[..n], maxChars), pieces[n], maxChars);
    }
  }

  /** Joining two clean texts with a newline is clean. */
  lemma JoinClean(a: string, b: string)
    requires Trimmed(a) && NoBlankLine(a) && Trimmed(b) && NoBlankLine(b)
    ensures Trimmed(a + "\n" + b) && NoBlankLine(a + "\n" + b)
  {
    var s, n := a + "\n" + b, |a|;
    assert s[n - 1] == a[n - 1] && s[n + 1] == b[0];
    forall i: nat, j: nat | i < |s| && j < |s| ensures !Separates(s, i, j) {
      if i < j < n {
        assert s[i..j + 1] == a[i..j + 1];
        assert !Separates(a, i, j);
      } else if n < i < j {
        assert s[i..j + 1] == b[i - n - 1..j - n];
        assert !Separates(b, i - n - 1, j - n - 1);
      } else if i < n <= j {
        assert s[i..j + 1][n - 1 - i] == s[n - 1];
      } else if i == n < j {
        assert s[i..j + 1][1] == s[n + 1];
      }
    }
  }

  lemma {:induction false} GroupClean(group: seq<string>)
    requires CleanPieces(group) && group != []
    ensures Trimmed(JoinLines(group)) && NoBlankLine(JoinLines(group))
    decreases |group|
  {
    var n := |group| - 1;
    if n > 0 {
      GroupClean(group[..n]);
      JoinClean(JoinLines(group[..n]), group[n]);
    }
  }

  lemma {:induction false} FlattenClean(groups: seq<seq<string>>)
    requires CleanPieces(Flatten(groups))
    ensures forall i :: 0 <= i < |groups| ==> CleanPieces(groups[i])
    decreases |groups|
  {
    if groups != [] {
      var n := |groups| - 1;
      var all, init := Flatten(groups), Flatten(groups[..n]);
      assert CleanPieces(init) by { assert forall i :: 0 <= i < |init| ==> init[i] == all[i]; }
      FlattenClean(groups[..n]);
      assert forall i :: 0 <= i < |groups[n]| ==> groups[n][i] == all[|init| + i];
    }
  }

  lemma PiecesAreClean(content: string, maxChars: nat)
    requires maxChars >= 1
    ensures CleanPieces(PiecesOf(content, maxChars))
  {
    var seps := ParagraphsMeaning(content);
    StripAllClean(SplitParagraphs(content));
    SplitAllClean(StripAll(SplitParagraphs(content)), maxChars);
  }

  /** No chunk starts or ends with white space or contains a blank line. */
  lemma ChunksAreClean(content: string, maxChars: nat)
    requires maxChars >= 1
    ensures forall i :: 0 <= i < |Chunks(content, maxChars)| ==>
              Trimmed(Chunks(content, maxChars)[i]) && NoBlankLine(Chunks(content, maxChars)[i])
  {
    var groups := ChunksArePacking(content, maxChars);
    PiecesAreClean(content, maxChars);
    FlattenClean(groups);
    forall i | 0 <= i < |groups| ensures Trimmed(JoinLines(groups[i])) && NoBlankLine(JoinLines(groups[i])) {
      GroupClean(groups[i]);
    }
  }

  lemma PiecesNotEmpty(content: string, maxChars: nat)
    requires maxChars >= 1
    ensures forall p :: p in PiecesOf(content, maxChars) ==> 0 < |p| <= maxChars
    ensures forall i :: 0 <= i < |PiecesOf(content, maxChars)| ==> PiecesOf(content, maxChars)[i] != ""
  {
    StripAllInk(SplitParagraphs(content));
    SplitAllFits(StripAll(SplitParagraphs(content)), maxChars);
    var pieces := PiecesOf(content, maxChars);
    forall i | 0 <= i < |pieces| ensures pieces[i] != "" { assert pieces[i] in pieces; }
  }

  /** No packing of a document's pieces in their order has fewer chunks. */
  lemma ChunksAreFewest(content: string, maxChars: nat, groups: seq<seq<string>>)
    requires maxChars >= 1 && Packs(groups, PiecesOf(content, maxChars), maxChars)
    ensures |Chunks(content, maxChars)| <= |groups|
  {
    PiecesNotEmpty(content, maxChars);
    FewestChunks(groups, PiecesOf(content, maxChars), maxChars);
  }

  /** And the chunks are such a packing. */
  lemma ChunksArePacking(content: string, maxChars: nat) returns (groups: seq<seq<string>>)
    requires maxChars >= 1
    ensures Packs(groups, PiecesOf(content, maxChars), maxChars)
    ensures var chunks := Chunks(content, maxChars);
            |groups| == |chunks| && forall i :: 0 <= i < |chunks| ==> chunks[i] == JoinLines(groups[i])
  {
    PiecesNotEmpty(content, maxChars);
    ChunksAreSound(content, maxChars);
    groups := GreedyPacks(PiecesOf(content, maxChars), maxChars);
  }

  // ----- the program -----

  lemma Regroup(a: seq<string>, x: string, b: seq<string>)
    ensures a + ([x] + b) == a + [x] + b
  {
  }

  method SplitLongText(text: string, maxChars: nat) returns (r: seq<string>)
    requires maxChars >= 1
    ensures r == SplitLong(text, maxChars)
  {
    if |text| <= maxChars {
      return [text];
    }
    var pieces: seq<string> := [];
    var remaining := text;
    while |remaining| > maxChars
      invariant pieces + Pieces(remaining, maxChars) == Pieces(text, maxChars)
      decreases |remaining|
    {
      var cut := LastBlank(remaining[..maxChars]);
      if cut <= 0 {
        cut := maxChars;
      }
      assert cut == CutAt(remaining, maxChars);
      var piece := Strip(remaining[..cut]);
      Regroup(pieces, piece, Pieces(Strip(remaining[cut..]), maxChars));
      pieces := pieces + [piece];
      remaining := Strip(remaining[cut..]);
    }
    if remaining != "" {
      pieces := pieces + [remaining];
    }
    assert pieces == Pieces(text, maxChars);
    r := NonEmpty(pieces);
  }

  /** The body of the inner loop, over the pieces of one paragraph. */
  method PackPieces(pieces: seq<string>, maxChars: nat, k: Packing, ghost done: seq<string>) returns (r: Packing)
    requires k == Pack(done, maxChars)
    ensures r == Pack(done + pieces, maxChars)
  {
    var chunks, buffer := k.chunks, k.buffer;
    assert done + pieces[..0] == done;
    for n := 0 to |pieces|
      invariant Packing(chunks, buffer) == Pack(done + pieces[..n], maxChars)
    {
      var piece := pieces[n];
      PackNext(done, pieces, n, maxChars);
      if buffer == "" {
        buffer := piece;
      } else if |buffer| + 1 + |piece| <= maxChars {
        buffer := buffer + "\n" + piece;
      } else {
        chunks := chunks + [buffer];
        buffer := piece;
      }
    }
    assert pieces[..|pieces|] == pieces;
    r := Packing(chunks, buffer);
  }

  lemma PackNext(done: seq<string>, pieces: seq<string>, n: nat, maxChars: nat)
    requires n < |pieces|
    ensures Pack(done + pieces[..n + 1], maxChars) == PackStep(Pack(done + pieces[..n], maxChars), pieces[n], maxChars)
  {
    var all := done + pieces[..n + 1];
    assert all[..|all| - 1] == done + pieces[..n];
  }

  lemma SplitNext(ps: seq<string>, n: nat, maxChars: nat)
    requires maxChars >= 1 && n < |ps|
    ensures SplitAll(ps[n..], maxChars) == SplitLong(ps[n], maxChars) + SplitAll(ps[n + 1..], maxChars)
  {
    assert ps[n..][1..] == ps[n + 1..];
  }

  lemma Reassociate(a: seq<string>, b: seq<string>, c: seq<string>)
    ensures a + (b + c) == a + b + c
  {
  }

  method ChunkText(content: string, maxChars: nat) returns (chunks: seq<string>)
    requires maxChars >= 1
    ensures chunks == Chunks(content, maxChars)
  {
    var paragraphs := StripAll(SplitParagraphs(content));
    var k := Packing([], "");
    ghost var done: seq<string> := [];
    assert paragraphs[0..] == paragraphs;
    for n := 0 to |paragraphs|
      invariant k == Pack(done, maxChars)
      invariant done + SplitAll(paragraphs[n..], maxChars) == SplitAll(paragraphs, maxChars)
    {
      var pieces := SplitLongText(paragraphs[n], maxChars);
      SplitNext(paragraphs, n, maxChars);
      Reassociate(done, pieces, SplitAll(paragraphs[n + 1..], maxChars));
      k := PackPieces(pieces, maxChars, k, done);
      done := done + pieces;
    }
    assert paragraphs[|paragraphs|..] == [] && done + [] == done;
    chunks := if k.buffer == "" then k.chunks else k.chunks + [k.buffer];
  }
}
