/** Rendering a JSON payload as a PHP literal, and the parser that reads it back. */
module PhpLiteral {
  import opened Prelude

  /** A payload; a dict is its pairs in insertion order. */
  datatype Value =
    | Nothing
    | Flag(b: bool)
    | Number(n: int)
    | Text(s: string)
    | List(items: seq<Value>)
    | Dict(pairs: seq<Pair>)

  datatype Pair = Pair(key: string, value: Value)

  // ----- the printer -----

  /** `s.replace(c, r)` for a one-character `c`. */
  function Replace(s: string, c: char, r: string): string {
    if s == [] then [] else (if s[0] == c then r else [s[0]]) + Replace(s[1..], c, r)
  }

  function PhpString(s: string): string {
    "'" + Replace(Replace(s, '\\', "\\\\"), '\'', "\\'") + "'"
  }

  function Digit(n: nat): char
    requires n < 10
  {
    '0' + n as char
  }

  function NatText(n: nat): string {
    if n < 10 then [Digit(n)] else NatText(n / 10) + [Digit(n % 10)]
  }

  /** `repr` of an integer. */
  function IntText(n: int): string {
    if n < 0 then "-" + NatText(-n) else NatText(n)
  }

  /** `", ".join(parts)`. */
  function JoinComma(parts: seq<string>): string {
    if parts == [] then "" else if |parts| == 1 then parts[0] else parts[0] + ", " + JoinComma(parts[1..])
  }

  function PhpLiteral(v: Value): string
    decreases v, 1
  {
    match v
    case Dict(pairs) => "[" + JoinComma(seq(|pairs|, i requires 0 <= i < |pairs| => PhpPair(pairs[i]))) + "]"
    case List(items) => "[" + JoinComma(seq(|items|, i requires 0 <= i < |items| => PhpLiteral(items[i]))) + "]"
    case Flag(b) => if b then "true" else "false"
    case Nothing => "null"
    case Number(n) => IntText(n)
    case Text(s) => PhpString(s)
  }

  function PhpPair(p: Pair): string
    decreases p, 0
  {
    PhpString(p.key) + " => " + PhpLiteral(p.value)
  }

  // ----- the parser: single-quoted strings, integers, keywords, short arrays -----

  predicate IsDigit(c: char) { '0' <= c <= '9' }

  predicate WordChar(c: char) {
    IsDigit(c) || 'a' <= c <= 'z' || 'A' <= c <= 'Z' || c == '_'
  }

  /** What may follow a literal without running into it. */
  predicate Delimited(rest: string) { rest == "" || !WordChar(rest[0]) }

  /** After the opening quote: `\\` and `\'` are escapes, any other backslash stands for itself. */
  function StringBody(s: string): (r: Option<(string, string)>)
    ensures r.Some? ==> |r.value.1| < |s|
  {
    if s == [] then None
    else if s[0] == '\'' then Some(([], s[1..]))
    else if s[0] == '\\' && |s| > 1 && (s[1] == '\\' || s[1] == '\'') then
      match StringBody(s[2..])
      case None => None
      case Some((t, rest)) => Some(([s[1]] + t, rest))
    else
      match StringBody(s[1..])
      case None => None
      case Some((t, rest)) => Some(([s[0]] + t, rest))
  }

  function DigitsIn(s: string): (n: nat)
    ensures n <= |s|
  {
    if s != [] && IsDigit(s[0]) then 1 + DigitsIn(s[1..]) else 0
  }

  function NatValue(s: string): nat {
    if s == [] then 0
    else 10 * NatValue(s[..|s| - 1]) + (if IsDigit(s[|s| - 1]) then (s[|s| - 1] - '0') as nat else 0)
  }

  function Starts(s: string, w: string): bool { |s| >= |w| && s[..|w|] == w }

  function Keyword(s: string, w: string, v: Value): Option<(Value, string)> {
    if Starts(s, w) && Delimited(s[|w|..]) then Some((v, s[|w|..])) else None
  }

  function SkipBlanks(s: string): (r: string)
    ensures |r| <= |s|
  {
    if s != [] && s[0] == ' ' then SkipBlanks(s[1..]) else s
  }

  function ParseNumber(s: string, negative: bool): (r: Option<(Value, string)>)
    ensures r.Some? ==> |r.value.1| < |s|
  {
    var n := DigitsIn(s);
    if n == 0 || !Delimited(s[n..]) then None
    else
      var k: int := NatValue(s[..n]);
      Some((Number(if negative then -k else k), s[n..]))
  }

  datatype Item = Bare(v: Value) | Keyed(key: string, v: Value)

  /** All items without a key, or all with one. */
  function ToArray(items: seq<Item>): Option<Value> {
    if forall i :: 0 <= i < |items| ==> items[i].Bare? then
      Some(List(seq(|items|, i requires 0 <= i < |items| => items[i].v)))
    else if forall i :: 0 <= i < |items| ==> items[i].Keyed? then
      Some(Dict(seq(|items|, i requires 0 <= i < |items| => Pair(items[i].key, items[i].v))))
    else None
  }

  function ParseValue(s: string): (r: Option<(Value, string)>)
    ensures r.Some? ==> |r.value.1| < |s|
    decreases |s|, 0
  {
    if s == [] then None
    else if s[0] == '\'' then
      match StringBody(s[1..])
      case None => None
      case Some((t, rest)) => Some((Text(t), rest))
    else if s[0] == '[' then
      match ParseItems(SkipBlanks(s[1..]))
      case None => None
      case Some((items, rest)) =>
        match ToArray(items)
        case None => None
        case Some(v) => Some((v, rest))
    else if s[0] == '-' then ParseNumber(s[1..], true)
    else if IsDigit(s[0]) then ParseNumber(s, false)
    else if s[0] == 't' then Keyword(s, "true", Flag(true))
    else if s[0] == 'f' then Keyword(s, "false", Flag(false))
    else Keyword(s, "null", Nothing)
  }

  /** The items up to and including the closing bracket. */
  function ParseItems(s: string): (r: Option<(seq<Item>, string)>)
    ensures r.Some? ==> |r.value.1| < |s|
    decreases |s|, 2
  {
    if s == [] then None
    else if s[0] == ']' then Some(([], s[1..]))
    else
      match ParseItem(s)
      case None => None
      case Some((item, rest)) =>
        if rest != [] && rest[0] == ',' then
          match ParseItems(SkipBlanks(rest[1..]))
          case None => None
          case Some((items, end)) => Some(([item] + items, end))
        else if rest != [] && rest[0] == ']' then Some(([item], rest[1..]))
        else None
  }

  /** A value, or a string key with its value; blanks after it are skipped. */
  function ParseItem(s: string): (r: Option<(Item, string)>)
    ensures r.Some? ==> |r.value.1| < |s|
    decreases |s|, 1
  {
    match ParseValue(s)
    case None => None
    case Some((v, rest)) =>
      var t := SkipBlanks(rest);
      if v.Text? && Starts(t, "=>") then
        match ParseValue(SkipBlanks(t[2..]))
        case None => None
        case Some((w, end)) => Some((Keyed(v.s, w), SkipBlanks(end)))
      else Some((Bare(v), t))
  }

  // ----- what printing loses -----

  /** An empty dict and an empty list both print as "[]". */
  function Canonical(v: Value): Value {
    match v
    case List(items) => List(seq(|items|, i requires 0 <= i < |items| => Canonical(items[i])))
    case Dict(pairs) =>
      if pairs == [] then List([])
      else Dict(seq(|pairs|, i requires 0 <= i < |pairs| => Pair(pairs[i].key, Canonical(pairs[i].value))))
    case _ => v
  }

  // ----- scalars -----

  function Escape(s: string): string {
    Replace(Replace(s, '\\', "\\\\"), '\'', "\\'")
  }

  lemma {:induction false} ReplaceConcat(a: string, b: string, c: char, r: string)
    ensures Replace(a + b, c, r) == Replace(a, c, r) + Replace(b, c, r)
  {
    if a == [] {
      assert a + b == b;
    } else {
      assert (a + b)[1..] == a[1..] + b;
      ReplaceConcat(a[1..], b, c, r);
    }
  }

  /** Replacing backslashes first and quotes second escapes character by character. */
  lemma EscapeStep(s: string)
    requires s != []
    ensures Escape(s) ==
            (if s[0] == '\\' then "\\\\" else if s[0] == '\'' then "\\'" else [s[0]]) + Escape(s[1..])
  {
    var head := if s[0] == '\\' then "\\\\" else [s[0]];
    ReplaceConcat(head, Replace(s[1..], '\\', "\\\\"), '\'', "\\'");
    assert Replace([s[0]], '\'', "\\'") == if s[0] == '\'' then "\\'" else [s[0]] by {
      assert [s[0]][1..] == [];
    }
    assert Replace("\\\\", '\'', "\\'") == "\\\\" by {
      assert "\\\\"[1..] == "\\" && "\\"[1..] == [];
    }
  }

  /** No string content can close its literal early: whatever follows, the whole content is
      read back and the rest is left alone. */
  lemma {:induction false} StringRoundTrip(s: string, rest: string)
    ensures StringBody(Escape(s) + "'" + rest) == Some((s, rest))
    decreases |s|
  {
    if s == [] {
      assert Escape(s) + "'" + rest == "'" + rest;
    } else {
      EscapeStep(s);
      StringRoundTrip(s[1..], rest);
      var tail := Escape(s[1..]) + "'" + rest;
      var all := Escape(s) + "'" + rest;
      if s[0] == '\\' || s[0] == '\'' {
        assert all == ['\\', s[0]] + tail;
        assert all[2..] == tail;
      } else {
        assert all == [s[0]] + tail;
        assert all[1..] == tail;
      }
      assert s == [s[0]] + s[1..];
    }
  }

  lemma {:induction false} NatTextDigits(n: nat)
    ensures NatText(n) != [] && forall i :: 0 <= i < |NatText(n)| ==> IsDigit(NatText(n)[i])
    ensures NatValue(NatText(n)) == n
  {
    if n >= 10 {
      NatTextDigits(n / 10);
      assert NatText(n)[..|NatText(n)| - 1] == NatText(n / 10);
    } else {
      assert [Digit(n)][..0] == [];
    }
  }

  lemma {:induction false} DigitsThen(d: string, rest: string)
    requires (forall i :: 0 <= i < |d| ==> IsDigit(d[i])) && Delimited(rest)
    ensures DigitsIn(d + rest) == |d|
  {
    if d == [] {
      assert d + rest == rest;
    } else {
      assert (d + rest)[1..] == d[1..] + rest;
      DigitsThen(d[1..], rest);
    }
  }

  lemma DigitsRoundTrip(n: nat, rest: string, negative: bool)
    requires Delimited(rest)
    ensures ParseNumber(NatText(n) + rest, negative) == Some((Number(if negative then 0 - (n as int) else n as int), rest))
  {
    var d := NatText(n);
    NatTextDigits(n);
    DigitsThen(d, rest);
    assert (d + rest)[..|d|] == d && (d + rest)[|d|..] == rest;
  }

  lemma NumberRoundTrip(n: int, rest: string)
    requires Delimited(rest)
    ensures ParseValue(IntText(n) + rest) == Some((Number(n), rest))
  {
    if n < 0 { BelowZeroRoundTrip(-n, rest); } else { NatRoundTrip(n, rest); }
  }

  lemma BelowZeroRoundTrip(n: nat, rest: string)
    requires n > 0 && Delimited(rest)
    ensures ParseValue("-" + NatText(n) + rest) == Some((Number(0 - n), rest))
  {
    var s := "-" + NatText(n) + rest;
    DigitsRoundTrip(n, rest, true);
    assert s[1..] == NatText(n) + rest;
    ParseMinus(s);
  }

  lemma NatRoundTrip(n: nat, rest: string)
    requires Delimited(rest)
    ensures ParseValue(NatText(n) + rest) == Some((Number(n), rest))
  {
    NatTextDigits(n);
    DigitsRoundTrip(n, rest, false);
    assert (NatText(n) + rest)[0] == NatText(n)[0];
    ParseDigits(NatText(n) + rest);
  }

  lemma ParseMinus(s: string)
    requires s != "" && s[0] == '-'
    ensures ParseValue(s) == ParseNumber(s[1..], true)
  {
  }

  lemma ParseDigits(s: string)
    requires s != "" && IsDigit(s[0])
    ensures ParseValue(s) == ParseNumber(s, false)
  {
  }

  lemma TextRoundTrip(t: string, rest: string)
    ensures ParseValue(PhpString(t) + rest) == Some((Text(t), rest))
  {
    StringRoundTrip(t, rest);
    assert (PhpString(t) + rest)[1..] == Escape(t) + "'" + rest;
  }

  lemma WordRoundTrip(w: string, v: Value, rest: string)
    requires Delimited(rest)
    requires (w == "true" && v == Flag(true)) || (w == "false" && v == Flag(false)) || (w == "null" && v == Nothing)
    ensures ParseValue(w + rest) == Some((v, rest))
  {
    assert (w + rest)[..|w|] == w && (w + rest)[|w|..] == rest && (w + rest)[0] == w[0];
  }

  // ----- the round trip -----

  /** What follows an item inside an array. */
  predicate ClosesItem(tail: string) { tail != "" && (tail[0] == ',' || tail[0] == ']') }

  /** `part` is read as `item` wherever an item may end. */
  ghost predicate ReadsAs(part: string, item: Item) {
    && part != "" && part[0] != ' ' && part[0] != ']'
    && forall tail :: ClosesItem(tail) ==> ParseItem(part + tail) == Some((item, tail))
  }

  ghost predicate AllRead(parts: seq<string>, items: seq<Item>) {
    |parts| == |items| && (parts != [] ==> ReadsAs(parts[0], items[0]) && AllRead(parts[1..], items[1..]))
  }

  lemma {:induction false} AllReadOf(parts: seq<string>, items: seq<Item>)
    requires |parts| == |items| && forall i :: 0 <= i < |parts| ==> ReadsAs(parts[i], items[i])
    ensures AllRead(parts, items)
    decreases |parts|
  {
    if parts != [] { AllReadOf(parts[1..], items[1..]); }
  }

  lemma LiteralStart(v: Value)
    ensures PhpLiteral(v) != "" && PhpLiteral(v)[0] != ' ' && PhpLiteral(v)[0] != ']' && PhpLiteral(v)[0] != ','
  {
    if v.Number? { NatTextDigits(if v.n < 0 then -v.n else v.n); }
  }

  lemma ItemThenEnd(part: string, item: Item, rest: string)
    requires ReadsAs(part, item)
    ensures ParseItems(part + ("]" + rest)) == Some(([item], rest))
  {
    var tail := "]" + rest;
    assert ClosesItem(tail) && tail[1..] == rest && (part + tail)[0] == part[0];
    assert ParseItem(part + tail) == Some((item, tail));
  }

  lemma ItemThenMore(part: string, item: Item, more: string, items: seq<Item>, rest: string)
    requires ReadsAs(part, item)
    requires more != "" && more[0] != ' ' && ParseItems(more) == Some((items, rest))
    ensures ParseItems(part + (", " + more)) == Some(([item] + items, rest))
  {
    var tail := ", " + more;
    assert ClosesItem(tail) && (part + tail)[0] == part[0];
    assert ParseItem(part + tail) == Some((item, tail));
    assert tail[1..] == " " + more && (" " + more)[1..] == more;
    assert SkipBlanks(more) == more;
    assert SkipBlanks(tail[1..]) == more;
  }

  lemma JoinCommaHead(parts: seq<string>)
    requires parts != [] && parts[0] != ""
    ensures JoinComma(parts) != "" && JoinComma(parts)[0] == parts[0][0]
  {
  }

  lemma JoinCommaStep(part: string, parts: seq<string>, rest: string)
    requires parts != []
    ensures JoinComma([part] + parts) + "]" + rest == part + (", " + (JoinComma(parts) + "]" + rest))
  {
    var j := JoinComma(parts);
    assert ([part] + parts)[1..] == parts;
    assert part + ", " + j + "]" + rest == part + (", " + (j + "]" + rest));
  }

  lemma ItemsStep(part: string, item: Item, parts: seq<string>, items: seq<Item>, rest: string)
    requires ReadsAs(part, item) && parts != [] && parts[0] != "" && parts[0][0] != ' '
    requires ParseItems(JoinComma(parts) + "]" + rest) == Some((items, rest))
    ensures ParseItems(JoinComma([part] + parts) + "]" + rest) == Some(([item] + items, rest))
  {
    JoinCommaStep(part, parts, rest);
    JoinCommaHead(parts);
    ItemThenMore(part, item, JoinComma(parts) + "]" + rest, items, rest);
  }

  lemma ItemsCons(parts: seq<string>, items: seq<Item>, rest: string)
    requires |parts| == |items| > 1 && ReadsAs(parts[0], items[0])
    requires AllRead(parts[1..], items[1..])
    requires ParseItems(JoinComma(parts[1..]) + "]" + rest) == Some((items[1..], rest))
    ensures ParseItems(JoinComma(parts) + "]" + rest) == Some((items, rest))
  {
    ItemsStep(parts[0], items[0], parts[1..], items[1..], rest);
    assert parts == [parts[0]] + parts[1..] && items == [items[0]] + items[1..];
  }

  lemma {:induction false} ItemsRoundTrip(parts: seq<string>, items: seq<Item>, rest: string)
    requires AllRead(parts, items) && parts != []
    ensures ParseItems(JoinComma(parts) + "]" + rest) == Some((items, rest))
    decreases |parts|
  {
    if |parts| == 1 {
      ItemThenEnd(parts[0], items[0], rest);
      assert JoinComma(parts) + "]" + rest == parts[0] + ("]" + rest) && items == [items[0]];
    } else {
      ItemsRoundTrip(parts[1..], items[1..], rest);
      ItemsCons(parts, items, rest);
    }
  }

  /** An array is read item by item. */
  lemma ArrayOpens(parts: seq<string>, items: seq<Item>, rest: string)
    requires AllRead(parts, items)
    ensures var s := "[" + JoinComma(parts) + "]" + rest;
            s[0] == '[' && ParseItems(SkipBlanks(s[1..])) == Some((items, rest))
  {
    var s := "[" + JoinComma(parts) + "]" + rest;
    assert s[1..] == JoinComma(parts) + "]" + rest;
    if parts == [] {
      assert s[1..] == "]" + rest && ("]" + rest)[1..] == rest;
    } else {
      JoinCommaHead(parts);
      assert s[1] == parts[0][0];
      ItemsRoundTrip(parts, items, rest);
    }
  }

  lemma {:induction false} BareReads(v: Value)
    ensures ReadsAs(PhpLiteral(v), Bare(Canonical(v)))
    decreases v, 2
  {
    LiteralStart(v);
    forall tail | ClosesItem(tail) ensures ParseItem(PhpLiteral(v) + tail) == Some((Bare(Canonical(v)), tail)) {
      RoundTrip(v, tail);
    }
  }

  lemma {:induction false} KeyedReads(p: Pair)
    ensures ReadsAs(PhpPair(p), Keyed(p.key, Canonical(p.value)))
    decreases p, 2
  {
    var lit := PhpLiteral(p.value);
    LiteralStart(p.value);
    forall tail | ClosesItem(tail) ensures ParseItem(PhpPair(p) + tail) == Some((Keyed(p.key, Canonical(p.value)), tail)) {
      RoundTrip(p.value, tail);
      KeyThenValue(p.key, lit, tail, Canonical(p.value));
    }
  }

  lemma KeyThenValue(key: string, lit: string, tail: string, w: Value)
    requires lit != "" && lit[0] != ' ' && ClosesItem(tail)
    requires ParseValue(lit + tail) == Some((w, tail))
    ensures ParseItem(PhpString(key) + " => " + lit + tail) == Some((Keyed(key, w), tail))
  {
    var u := lit + tail;
    TextRoundTrip(key, " => " + u);
    assert u[0] == lit[0];
    ArrowShape(u);
    ParseKeyed(PhpString(key) + (" => " + u), key, " => " + u, "=> " + u, u, w, tail);
    Regroup(PhpString(key), " => ", lit, tail);
  }

  lemma Regroup(a: string, b: string, c: string, d: string)
    ensures a + b + c + d == a + (b + (c + d))
  {
  }

  lemma ArrowShape(u: string)
    requires u != "" && u[0] != ' '
    ensures SkipBlanks(" => " + u) == "=> " + u
    ensures Starts("=> " + u, "=>") && SkipBlanks(("=> " + u)[2..]) == u
  {
    var t := "=> " + u;
    assert (" => " + u)[1..] == t && SkipBlanks(t) == t;
    assert t[..2] == "=>" && t[2..] == " " + u && (" " + u)[1..] == u && SkipBlanks(u) == u;
  }

  lemma ParseKeyed(s: string, key: string, x: string, t: string, u: string, w: Value, tail: string)
    requires ParseValue(s) == Some((Text(key), x)) && SkipBlanks(x) == t
    requires Starts(t, "=>") && SkipBlanks(t[2..]) == u
    requires ParseValue(u) == Some((w, tail)) && ClosesItem(tail)
    ensures ParseItem(s) == Some((Keyed(key, w), tail))
  {
  }

  /** Parsing the text of a payload, whatever delimiter follows, returns the payload. */
  lemma {:induction false} RoundTrip(v: Value, rest: string)
    requires Delimited(rest)
    ensures ParseValue(PhpLiteral(v) + rest) == Some((Canonical(v), rest))
    decreases v, 1
  {
    match v {
      case Nothing => WordRoundTrip("null", v, rest);
      case Flag(b) => WordRoundTrip(if b then "true" else "false", v, rest);
      case Number(n) => NumberRoundTrip(n, rest);
      case Text(s) => TextRoundTrip(s, rest);
      case List(items) => ListRoundTrip(v, rest);
      case Dict(pairs) => DictRoundTrip(v, rest);
    }
  }

  lemma {:induction false} ListRoundTrip(v: Value, rest: string)
    requires v.List? && Delimited(rest)
    ensures ParseValue(PhpLiteral(v) + rest) == Some((Canonical(v), rest))
    decreases v, 0
  {
    var parts := seq(|v.items|, i requires 0 <= i < |v.items| => PhpLiteral(v.items[i]));
    var items := seq(|v.items|, i requires 0 <= i < |v.items| => Bare(Canonical(v.items[i])));
    forall i | 0 <= i < |parts| ensures ReadsAs(parts[i], items[i]) {
      BareReads(v.items[i]);
    }
    AllReadOf(parts, items);
    ArrayOpens(parts, items, rest);
    assert PhpLiteral(v) + rest == "[" + JoinComma(parts) + "]" + rest;
    assert seq(|items|, i requires 0 <= i < |items| => items[i].v) == Canonical(v).items;
  }

  lemma {:induction false} DictRoundTrip(v: Value, rest: string)
    requires v.Dict? && Delimited(rest)
    ensures ParseValue(PhpLiteral(v) + rest) == Some((Canonical(v), rest))
    decreases v, 0
  {
    var parts := seq(|v.pairs|, i requires 0 <= i < |v.pairs| => PhpPair(v.pairs[i]));
    var items := seq(|v.pairs|, i requires 0 <= i < |v.pairs| => Keyed(v.pairs[i].key, Canonical(v.pairs[i].value)));
    forall i | 0 <= i < |parts| ensures ReadsAs(parts[i], items[i]) {
      KeyedReads(v.pairs[i]);
    }
    AllReadOf(parts, items);
    ArrayOpens(parts, items, rest);
    assert PhpLiteral(v) + rest == "[" + JoinComma(parts) + "]" + rest;
    KeyedArray(v, items);
  }

  lemma KeyedArray(v: Value, items: seq<Item>)
    requires v.Dict? && |items| == |v.pairs|
    requires forall i :: 0 <= i < |items| ==> items[i] == Keyed(v.pairs[i].key, Canonical(v.pairs[i].value))
    ensures ToArray(items) == Some(Canonical(v))
  {
    if v.pairs != [] {
      assert !items[0].Bare?;
      assert seq(|items|, i requires 0 <= i < |items| => Pair(items[i].key, items[i].v)) == Canonical(v).pairs;
    } else {
      assert seq(|items|, i requires 0 <= i < |items| => items[i].v) == [];
    }
  }

  /** So two payloads with the same text differ at most in empty dicts against empty lists. */
  lemma TextDeterminesPayload(v: Value, w: Value)
    requires PhpLiteral(v) == PhpLiteral(w)
    ensures Canonical(v) == Canonical(w)
  {
    RoundTrip(v, "");
    RoundTrip(w, "");
  }
}
