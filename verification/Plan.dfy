/** The deterministic test plan of an endpoint: one happy case and one negative per rule. */
module Plan {
  import opened Prelude

  datatype Kind = STRING | INTEGER | NUMERIC | EMAIL | BOOLEAN | ARRAY | DATE | UUID | UNKNOWN

  datatype Constraints = Constraints(min: Option<real>, max: Option<real>, size: Option<real>)

  datatype RelationKind = EXISTS | UNIQUE

  datatype Relation = Relation(kind: RelationKind, table: string, column: Option<string>)

  datatype Field = Field(name: string, required: bool, kind: Kind, limits: Constraints, relation: Option<Relation>)

  datatype Spec = Spec(verb: string, uri: string, authRequired: bool, isApi: bool, fields: seq<Field>)

  datatype Value = Int(n: int) | Str(s: string) | Truth | Items(count: nat)

  type Payload = map<string, Value>

  datatype CaseType = HAPPY | NEGATIVE | EDGE

  datatype Presence = ROW_PRESENT | ROW_ABSENT

  datatype Dependency = Dependency(presence: Presence, table: string, column: Option<string>, value: Value)

  /** Expected status, and the field whose errors are asserted. */
  datatype Expected = Expected(status: int, errorsFor: Option<string>)

  datatype Case = Case(name: string, caseType: CaseType, target: Option<string>, payload: Payload,
                       authenticated: bool, expected: Expected, dependencies: seq<Dependency>)

  const NONEXISTENT_ID := 999999999

  // ----- value generators -----

  function AtLeast(n: int, low: int): (r: int)
    ensures r >= low && r >= n && (r == low || r == n)
  {
    if n < low then low else n
  }

  function AtMost(n: int, high: int): int { if n > high then high else n }

  /** `"a" * n`: empty for a negative count. */
  function As(n: int): (r: string)
    ensures |r| == AtLeast(n, 0)
  {
    seq(AtLeast(n, 0), _ => 'a')
  }

  predicate IsNumeric(k: Kind) { k == INTEGER || k == NUMERIC }

  function TargetLength(c: Constraints): int {
    if c.size.Some? then AtLeast(Truncate(c.size.value), 1)
    else if c.min.Some? then AtLeast(Truncate(c.min.value), 1)
    else if c.max.Some? then AtLeast(AtMost(Truncate(c.max.value), 8), 1)
    else 8
  }

  function ValidValue(f: Field): Value {
    var c := f.limits;
    if f.relation.Some? && f.kind == UNKNOWN then Int(1)
    else if IsNumeric(f.kind) then
      if c.min.Some? then Int(Truncate(c.min.value))
      else if c.max.Some? then Int(AtMost(Truncate(c.max.value), 1))
      else Int(7)
    else
      match f.kind
      case BOOLEAN => Truth
      case EMAIL => Str(if c.max.Some? && 16 > Truncate(c.max.value) then "a@b.co" else "user@example.com")
      case DATE => Str("2026-01-01")
      case UUID => Str("00000000-0000-0000-0000-000000000000")
      case ARRAY =>
        var count := if c.min.Some? then Truncate(c.min.value) else if c.size.Some? then Truncate(c.size.value) else 1;
        Items(AtLeast(count, 1))
      case _ => Str(As(TargetLength(c)))
  }

  function BelowMin(f: Field, min: real): Value {
    if IsNumeric(f.kind) then Int(Truncate(min) - 1) else Str(As(AtLeast(Truncate(min) - 1, 0)))
  }

  function AboveMax(f: Field, max: real): Value {
    if IsNumeric(f.kind) then Int(Truncate(max) + 1) else Str(As(Truncate(max) + 1))
  }

  function SizedBy(f: Field, size: real, delta: int): Value {
    if IsNumeric(f.kind) then Int(Truncate(size) + delta) else Str(As(AtLeast(Truncate(size) + delta, 0)))
  }

  function InvalidValue(k: Kind): Option<Value> {
    match k
    case INTEGER => Some(Str("not-an-integer"))
    case NUMERIC => Some(Str("not-a-number"))
    case EMAIL => Some(Str("not-an-email"))
    case BOOLEAN => Some(Str("not-a-boolean"))
    case ARRAY => Some(Str("not-an-array"))
    case UUID => Some(Str("not-a-uuid"))
    case DATE => Some(Str("not-a-date"))
    case _ => None
  }

  // ----- dependencies -----

  function DependencyOf(f: Field, payload: Payload, existsNegative: Option<string>, uniqueNegative: Option<string>): seq<Dependency> {
    if f.relation.None? || f.name !in payload then []
    else
      var r := f.relation.value;
      var presence :=
        if Some(f.name) == existsNegative then ROW_ABSENT
        else if Some(f.name) == uniqueNegative then ROW_PRESENT
        else if r.kind == EXISTS then ROW_PRESENT
        else ROW_ABSENT;
      [Dependency(presence, r.table, r.column, payload[f.name])]
  }

  function Dependencies(fs: seq<Field>, payload: Payload, existsNegative: Option<string>, uniqueNegative: Option<string>): seq<Dependency> {
    if fs == [] then []
    else Dependencies(fs[..|fs| - 1], payload, existsNegative, uniqueNegative) + DependencyOf(fs[|fs| - 1], payload, existsNegative, uniqueNegative)
  }

  // ----- the plan -----

  function BasePayload(fs: seq<Field>): Payload {
    if fs == [] then map[] else BasePayload(fs[..|fs| - 1])[fs[|fs| - 1].name := ValidValue(fs[|fs| - 1])]
  }

  function SuccessStatus(verb: string): int {
    if Upper(verb) == "POST" then 201 else if Upper(verb) == "DELETE" then 204 else 200
  }

  /** The ways a field's rules can be broken, in the order the plan lists them. */
  datatype Rule =
    | REQUIRED_MISSING | TYPE_VIOLATION | MIN_BOUNDARY | MAX_BOUNDARY
    | SIZE_BELOW | SIZE_ABOVE | EXISTS_MISSING | UNIQUE_DUPLICATE

  const ORDER: seq<Rule> := [
    REQUIRED_MISSING, TYPE_VIOLATION, MIN_BOUNDARY, MAX_BOUNDARY,
    SIZE_BELOW, SIZE_ABOVE, EXISTS_MISSING, UNIQUE_DUPLICATE]

  function RuleName(r: Rule): string {
    match r
    case REQUIRED_MISSING => "required_missing"
    case TYPE_VIOLATION => "type_violation"
    case MIN_BOUNDARY => "min_boundary"
    case MAX_BOUNDARY => "max_boundary"
    case SIZE_BELOW => "size_below"
    case SIZE_ABOVE => "size_above"
    case EXISTS_MISSING => "exists_missing"
    case UNIQUE_DUPLICATE => "unique_duplicate"
  }

  predicate Applies(f: Field, r: Rule) {
    match r
    case REQUIRED_MISSING => f.required
    case TYPE_VIOLATION => InvalidValue(f.kind).Some?
    case MIN_BOUNDARY => f.limits.min.Some?
    case MAX_BOUNDARY => f.limits.max.Some?
    case SIZE_BELOW => f.limits.size.Some?
    case SIZE_ABOVE => f.limits.size.Some?
    case EXISTS_MISSING => f.relation.Some? && f.relation.value.kind == EXISTS
    case UNIQUE_DUPLICATE => f.relation.Some? && f.relation.value.kind == UNIQUE
  }

  /** The one change a case makes to the happy payload. */
  function Mutate(base: Payload, f: Field, r: Rule): Payload
    requires Applies(f, r)
  {
    match r
    case REQUIRED_MISSING => base - {f.name}
    case TYPE_VIOLATION => base[f.name := InvalidValue(f.kind).value]
    case MIN_BOUNDARY => base[f.name := BelowMin(f, f.limits.min.value)]
    case MAX_BOUNDARY => base[f.name := AboveMax(f, f.limits.max.value)]
    case SIZE_BELOW => base[f.name := SizedBy(f, f.limits.size.value, -1)]
    case SIZE_ABOVE => base[f.name := SizedBy(f, f.limits.size.value, 1)]
    case EXISTS_MISSING => base[f.name := Int(NONEXISTENT_ID)]
    case UNIQUE_DUPLICATE => base
  }

  function Negative(s: Spec, f: Field, rule: string, payload: Payload, t: CaseType,
                    existsNegative: Option<string>, uniqueNegative: Option<string>): Case
  {
    Case(f.name + "_" + rule, t, Some(f.name), payload, s.authRequired,
         Expected(if s.isApi then 422 else 302, Some(f.name)),
         Dependencies(s.fields, payload, existsNegative, uniqueNegative))
  }

  function RuleCase(s: Spec, base: Payload, f: Field, r: Rule): Case
    requires Applies(f, r)
  {
    var t := if r.MIN_BOUNDARY? || r.MAX_BOUNDARY? || r.SIZE_BELOW? || r.SIZE_ABOVE? then EDGE else NEGATIVE;
    Negative(s, f, RuleName(r), Mutate(base, f, r), t,
             if r.EXISTS_MISSING? then Some(f.name) else None,
             if r.UNIQUE_DUPLICATE? then Some(f.name) else None)
  }

  function FieldCases(s: Spec, base: Payload, f: Field, rules: seq<Rule>): seq<Case> {
    if rules == [] then []
    else
      var n := |rules| - 1;
      FieldCases(s, base, f, rules[..n]) + (if Applies(f, rules[n]) then [RuleCase(s, base, f, rules[n])] else [])
  }

  function HappyCase(s: Spec): Case {
    var base := BasePayload(s.fields);
    Case("happy", HAPPY, None, base, s.authRequired, Expected(SuccessStatus(s.verb), None),
         Dependencies(s.fields, base, None, None))
  }

  function AuthCase(s: Spec): Case {
    var base := BasePayload(s.fields);
    Case("auth_unauthenticated", NEGATIVE, None, base, false, Expected(if s.isApi then 401 else 302, None),
         Dependencies(s.fields, base, None, None))
  }

  function AllFieldCases(s: Spec, base: Payload, fs: seq<Field>): seq<Case> {
    if fs == [] then [] else AllFieldCases(s, base, fs[..|fs| - 1]) + FieldCases(s, base, fs[|fs| - 1], ORDER)
  }

  function FixedCases(s: Spec): seq<Case> {
    [HappyCase(s)] + (if s.authRequired then [AuthCase(s)] else [])
  }

  function PlanOf(s: Spec): seq<Case> {
    FixedCases(s) + AllFieldCases(s, BasePayload(s.fields), s.fields)
  }

  // ----- names and keys are distinct -----

  /** Characters counted from the end that tell the rules apart. */
  function Signature(s: string): (char, char, char, char)
    requires |s| >= 10
  {
    (s[|s| - 1], s[|s| - 2], s[|s| - 9], s[|s| - 10])
  }

  function Mark(r: Rule): (char, char, char, char) {
    match r
    case REQUIRED_MISSING => ('g', 'n', 'd', 'e')
    case TYPE_VIOLATION => ('n', 'o', 'v', '_')
    case MIN_BOUNDARY => ('y', 'r', '_', 'n')
    case MAX_BOUNDARY => ('y', 'r', '_', 'x')
    case SIZE_BELOW => ('w', 'o', 'i', 's')
    case SIZE_ABOVE => ('e', 'v', 'i', 's')
    case EXISTS_MISSING => ('g', 'n', 's', 't')
    case UNIQUE_DUPLICATE => ('e', 't', 'd', '_')
  }

  lemma SignatureOf(r: Rule)
    ensures |RuleName(r)| >= 10 && Signature(RuleName(r)) == Mark(r)
  {
  }

  lemma RulesBySignature(q: Rule, r: Rule)
    ensures |RuleName(q)| >= 10 && |RuleName(r)| >= 10
    ensures Signature(RuleName(q)) == Signature(RuleName(r)) ==> q == r
    ensures RuleName(q)[|RuleName(q)| - 1] != 'd'
  {
    SignatureOf(q);
    SignatureOf(r);
    assert Mark(q) == Mark(r) ==> q == r;
  }

  /** A case name determines its field and rule: no rule's name ends in another's. */
  lemma NameDetermines(f: string, q: Rule, g: string, r: Rule)
    requires f + "_" + RuleName(q) == g + "_" + RuleName(r)
    ensures f == g && q == r
  {
    RulesBySignature(q, r);
    SignatureOfEnd(f + "_", RuleName(q));
    SignatureOfEnd(g + "_", RuleName(r));
    SamePrefix(f + "_", g + "_", RuleName(q));
    SamePrefix(f, g, "_");
  }

  lemma SignatureOfEnd(front: string, end: string)
    requires |end| >= 10
    ensures Signature(front + end) == Signature(end)
  {
  }

  lemma SamePrefix(f: string, g: string, end: string)
    ensures f + end == g + end ==> f == g
  {
    if f + end == g + end {
      assert |f| == |g|;
      assert f == (f + end)[..|f|] && g == (g + end)[..|g|];
    }
  }

  lemma NotAFixedName(f: string, r: Rule)
    ensures f + "_" + RuleName(r) != "happy" && f + "_" + RuleName(r) != "auth_unauthenticated"
  {
    RulesBySignature(r, r);
    var n := f + "_" + RuleName(r);
    assert n[|n| - 1] == RuleName(r)[|RuleName(r)| - 1];
    assert |n| > 10;
  }

  predicate DistinctFields(fs: seq<Field>) {
    forall i, j :: 0 <= i < j < |fs| ==> fs[i].name != fs[j].name
  }

  predicate DistinctNames(cs: seq<Case>) {
    forall i, j :: 0 <= i < j < |cs| ==> cs[i].name != cs[j].name
  }

  /** The case was made for field `f` by one of `rules`. */
  predicate MadeFor(s: Spec, base: Payload, c: Case, f: Field, rules: seq<Rule>) {
    exists i :: 0 <= i < |rules| && Applies(f, rules[i]) && c == RuleCase(s, base, f, rules[i])
  }

  lemma {:induction false} FieldCasesMade(s: Spec, base: Payload, f: Field, rules: seq<Rule>)
    ensures forall c :: c in FieldCases(s, base, f, rules) ==> MadeFor(s, base, c, f, rules)
    decreases |rules|
  {
    if rules != [] {
      var n := |rules| - 1;
      FieldCasesMade(s, base, f, rules[..n]);
      forall c | c in FieldCases(s, base, f, rules) ensures MadeFor(s, base, c, f, rules) {
        if c in FieldCases(s, base, f, rules[..n]) {
          var i :| 0 <= i < n && Applies(f, rules[..n][i]) && c == RuleCase(s, base, f, rules[..n][i]);
          assert rules[i] == rules[..n][i];
        } else {
          assert c == RuleCase(s, base, f, rules[n]);
        }
      }
    }
  }

  lemma OtherRuleOtherName(s: Spec, base: Payload, f: Field, rules: seq<Rule>, c: Case)
    requires rules != [] && Applies(f, rules[|rules| - 1])
    requires forall i :: 0 <= i < |rules| - 1 ==> rules[i] != rules[|rules| - 1]
    requires MadeFor(s, base, c, f, rules[..|rules| - 1])
    ensures c.name != RuleCase(s, base, f, rules[|rules| - 1]).name
  {
    var n := |rules| - 1;
    var k :| 0 <= k < n && Applies(f, rules[..n][k]) && c == RuleCase(s, base, f, rules[..n][k]);
    assert rules[..n][k] == rules[k];
    if c.name == RuleCase(s, base, f, rules[n]).name { NameDetermines(f.name, rules[k], f.name, rules[n]); }
  }

  lemma OneMoreName(cs: seq<Case>, c: Case)
    requires DistinctNames(cs) && forall i :: 0 <= i < |cs| ==> cs[i].name != c.name
    ensures DistinctNames(cs + [c])
  {
  }

  lemma {:induction false} FieldCasesDistinct(s: Spec, base: Payload, f: Field, rules: seq<Rule>)
    requires forall i, j :: 0 <= i < j < |rules| ==> rules[i] != rules[j]
    ensures DistinctNames(FieldCases(s, base, f, rules))
    decreases |rules|
  {
    if rules != [] {
      var n := |rules| - 1;
      FieldCasesDistinct(s, base, f, rules[..n]);
      if Applies(f, rules[n]) {
        var before := FieldCases(s, base, f, rules[..n]);
        FieldCasesMade(s, base, f, rules[..n]);
        forall i | 0 <= i < |before| ensures before[i].name != RuleCase(s, base, f, rules[n]).name {
          assert before[i] in before;
          OtherRuleOtherName(s, base, f, rules, before[i]);
        }
        OneMoreName(before, RuleCase(s, base, f, rules[n]));
      }
    }
  }

  /** The case was made for one of `fs`. */
  predicate MadeForOne(s: Spec, base: Payload, c: Case, fs: seq<Field>) {
    exists j :: 0 <= j < |fs| && MadeFor(s, base, c, fs[j], ORDER)
  }

  lemma {:induction false} AllCasesMade(s: Spec, base: Payload, fs: seq<Field>)
    ensures forall c :: c in AllFieldCases(s, base, fs) ==> MadeForOne(s, base, c, fs)
    decreases |fs|
  {
    if fs != [] {
      var n := |fs| - 1;
      AllCasesMade(s, base, fs[..n]);
      FieldCasesMade(s, base, fs[n], ORDER);
      forall c | c in AllFieldCases(s, base, fs) ensures MadeForOne(s, base, c, fs) {
        if c in AllFieldCases(s, base, fs[..n]) {
          var j :| 0 <= j < n && MadeFor(s, base, c, fs[..n][j], ORDER);
          assert fs[j] == fs[..n][j];
        } else {
          assert MadeFor(s, base, c, fs[n], ORDER);
        }
      }
    }
  }

  lemma MadeNames(s: Spec, base: Payload, c: Case, f: Field, d: Case, g: Field)
    requires MadeFor(s, base, c, f, ORDER) && MadeFor(s, base, d, g, ORDER) && f.name != g.name
    ensures c.name != d.name
  {
    var i :| 0 <= i < |ORDER| && Applies(f, ORDER[i]) && c == RuleCase(s, base, f, ORDER[i]);
    var j :| 0 <= j < |ORDER| && Applies(g, ORDER[j]) && d == RuleCase(s, base, g, ORDER[j]);
    if c.name == d.name { NameDetermines(f.name, ORDER[i], g.name, ORDER[j]); }
  }

  lemma {:induction false} AllCasesDistinct(s: Spec, base: Payload, fs: seq<Field>)
    requires DistinctFields(fs)
    ensures DistinctNames(AllFieldCases(s, base, fs))
    decreases |fs|
  {
    if fs != [] {
      var n := |fs| - 1;
      var l, r := AllFieldCases(s, base, fs[..n]), FieldCases(s, base, fs[n], ORDER);
      AllCasesDistinct(s, base, fs[..n]);
      FieldCasesDistinct(s, base, fs[n], ORDER);
      AllCasesMade(s, base, fs[..n]);
      FieldCasesMade(s, base, fs[n], ORDER);
      forall i, j | 0 <= i < |l| && 0 <= j < |r| ensures l[i].name != r[j].name {
        assert l[i] in l && r[j] in r;
        var k :| 0 <= k < n && MadeFor(s, base, l[i], fs[..n][k], ORDER);
        MadeNames(s, base, l[i], fs[k], r[j], fs[n]);
      }
    }
  }

  lemma FixedNamesApart(s: Spec, base: Payload, c: Case)
    requires MadeForOne(s, base, c, s.fields)
    ensures c.name != "happy" && c.name != "auth_unauthenticated"
  {
    var j :| 0 <= j < |s.fields| && MadeFor(s, base, c, s.fields[j], ORDER);
    var i :| 0 <= i < |ORDER| && Applies(s.fields[j], ORDER[i]) && c == RuleCase(s, base, s.fields[j], ORDER[i]);
    NotAFixedName(s.fields[j].name, ORDER[i]);
  }

  /** With distinct field names all case names of a plan are distinct. */
  lemma PlanNamesDistinct(s: Spec)
    requires DistinctFields(s.fields)
    ensures DistinctNames(PlanOf(s))
  {
    var base := BasePayload(s.fields);
    var rest := AllFieldCases(s, base, s.fields);
    AllCasesDistinct(s, base, s.fields);
    AllCasesMade(s, base, s.fields);
    forall i | 0 <= i < |rest| ensures rest[i].name != "happy" && rest[i].name != "auth_unauthenticated" {
      assert rest[i] in rest;
      FixedNamesApart(s, base, rest[i]);
    }
    assert PlanOf(s) == FixedCases(s) + rest;
  }

  function CaseTypeName(t: CaseType): string {
    match t case HAPPY => "happy" case NEGATIVE => "negative" case EDGE => "edge"
  }

  function CaseKey(s: Spec, c: Case): string {
    Upper(s.verb) + " /" + StripLeadingSlashes(s.uri) + "::" + CaseTypeName(c.caseType) + "::" + c.name
  }

  /** Keys of one endpoint collide only for equal names. */
  lemma KeyDetermines(s: Spec, c: Case, d: Case)
    requires CaseKey(s, c) == CaseKey(s, d)
    ensures c.name == d.name && c.caseType == d.caseType
  {
    var head := Upper(s.verb) + " /" + StripLeadingSlashes(s.uri) + "::";
    var t, u := CaseTypeName(c.caseType), CaseTypeName(d.caseType);
    var k := CaseKey(s, c);
    assert k == head + t + "::" + c.name && k == head + u + "::" + d.name;
    assert k[|head|] == t[0] == u[0];
    assert c.caseType == d.caseType;
    var n := |head + t + "::"|;
    assert c.name == k[n..] && d.name == k[n..];
  }

  lemma PlanKeysDistinct(s: Spec, i: nat, j: nat)
    requires DistinctFields(s.fields) && i < j < |PlanOf(s)|
    ensures CaseKey(s, PlanOf(s)[i]) != CaseKey(s, PlanOf(s)[j])
  {
    PlanNamesDistinct(s);
    if CaseKey(s, PlanOf(s)[i]) == CaseKey(s, PlanOf(s)[j]) { KeyDetermines(s, PlanOf(s)[i], PlanOf(s)[j]); }
  }

  lemma MarkAt(a: string, x: string, mark: char)
    requires mark !in a
    ensures var k := a + [mark] + x; k[|a|] == mark && forall i :: 0 <= i < |a| ==> k[i] != mark
  {
    var k := a + [mark] + x;
    assert forall i :: 0 <= i < |a| ==> k[i] == a[i];
  }

  /** What comes before the first `mark`, and what comes after it. */
  lemma BeforeMark(a: string, x: string, b: string, y: string, mark: char)
    requires a + [mark] + x == b + [mark] + y && mark !in a && mark !in b
    ensures a == b && x == y
  {
    MarkAt(a, x, mark);
    MarkAt(b, y, mark);
    var k := a + [mark] + x;
    assert |a| == |b|;
    assert a == k[..|a|] == b;
    assert x == k[|a| + 1..] == y;
  }

  predicate NoDoubleColon(s: string) {
    forall i :: 0 <= i < |s| - 1 ==> s[i] == ':' ==> s[i + 1] != ':'
  }

  lemma ColonsAt(a: string, x: string)
    requires NoDoubleColon(a) && x != "" && x[0] != ':'
    ensures var k := a + "::" + x;
            && k[|a|] == k[|a| + 1] == ':' && k[|a| + 2] != ':'
            && forall i :: 0 <= i < |a| - 1 && k[i] == ':' ==> k[i + 1] != ':'
  {
    var k := a + "::" + x;
    assert forall i :: 0 <= i < |a| ==> k[i] == a[i];
  }

  /** The first double colon, when what follows it does not start with a colon. */
  lemma BeforeColons(a: string, x: string, b: string, y: string)
    requires a + "::" + x == b + "::" + y && NoDoubleColon(a) && NoDoubleColon(b)
    requires x != "" && x[0] != ':' && y != "" && y[0] != ':'
    ensures a == b && x == y
  {
    ColonsAt(a, x);
    ColonsAt(b, y);
    var k := a + "::" + x;
    assert |a| == |b|;
    assert a == k[..|a|] == b;
    assert x == k[|a| + 2..] == y;
  }

  /** The case's own part of its key. */
  function CaseTail(c: Case): string {
    CaseTypeName(c.caseType) + "::" + c.name
  }

  /** The happy case's key, for any endpoint. */
  lemma HappyKey(s: Spec)
    ensures CaseKey(s, HappyCase(s)) == Upper(s.verb) + " /" + StripLeadingSlashes(s.uri) + "::happy::happy"
  {
    assert "::" + "happy" + "::" + "happy" == "::happy::happy";
  }

  lemma KeyShape(s: Spec, c: Case)
    ensures CaseKey(s, c) == Upper(s.verb) + [' '] + ("/" + StripLeadingSlashes(s.uri) + "::" + CaseTail(c))
  {
    Regroup(Upper(s.verb), StripLeadingSlashes(s.uri), CaseTypeName(c.caseType), c.name);
  }

  lemma Regroup(v: string, p: string, t: string, n: string)
    ensures v + " /" + p + "::" + t + "::" + n == v + [' '] + ("/" + p + "::" + (t + "::" + n))
  {
    assert " /" == [' '] + "/";
    assert v + " /" + p == v + [' '] + ("/" + p);
  }

  lemma UpperKeepsBlanks(v: string)
    ensures ' ' in Upper(v) <==> ' ' in v
  {
    assert forall i :: 0 <= i < |v| ==> (Upper(v)[i] == ' ' <==> v[i] == ' ');
  }

  lemma StrippedNoDoubleColon(uri: string)
    requires NoDoubleColon(uri)
    ensures NoDoubleColon("/" + StripLeadingSlashes(uri))
  {
    var i := StripLeadingMeaning(uri);
    var p := StripLeadingSlashes(uri);
    assert forall k :: 0 <= k < |p| ==> ("/" + p)[k + 1] == p[k] == uri[i + k];
  }

  /** Two keys are the same exactly for the same verb (in any letter case), the same path up to
      leading slashes, the same type and the same case name. */
  lemma KeysMeetIff(s: Spec, c: Case, t: Spec, d: Case)
    requires ' ' !in s.verb && ' ' !in t.verb && NoDoubleColon(s.uri) && NoDoubleColon(t.uri)
    ensures CaseKey(s, c) == CaseKey(t, d) <==>
            && SameIgnoringCase(s.verb, t.verb)
            && StripLeadingSlashes(s.uri) == StripLeadingSlashes(t.uri)
            && c.caseType == d.caseType && c.name == d.name
  {
    UpperIff(s.verb, t.verb);
    KeyShape(s, c);
    KeyShape(t, d);
    if CaseKey(s, c) == CaseKey(t, d) {
      var p, q := "/" + StripLeadingSlashes(s.uri), "/" + StripLeadingSlashes(t.uri);
      UpperKeepsBlanks(s.verb);
      UpperKeepsBlanks(t.verb);
      StrippedNoDoubleColon(s.uri);
      StrippedNoDoubleColon(t.uri);
      BeforeMark(Upper(s.verb), p + "::" + CaseTail(c), Upper(t.verb), q + "::" + CaseTail(d), ' ');
      BeforeColons(p, CaseTail(c), q, CaseTail(d));
      assert StripLeadingSlashes(s.uri) == p[1..] == q[1..];
      assert CaseKey(t, d) == CaseKey(s, d);
      KeyDetermines(s, c, d);
    }
  }

  // ----- one change per case -----

  /** With distinct names the happy payload holds each field's own value. */
  lemma {:induction false} BaseHas(fs: seq<Field>, i: nat)
    requires DistinctFields(fs) && i < |fs|
    ensures fs[i].name in BasePayload(fs) && BasePayload(fs)[fs[i].name] == ValidValue(fs[i])
    decreases |fs|
  {
    var n := |fs| - 1;
    if i < n { BaseHas(fs[..n], i); }
  }

  /** `p` is `base` but for the value of `name`. */
  ghost predicate SameOutside(p: Payload, base: Payload, name: string) {
    forall k :: k != name ==> (k in p <==> k in base) && (k in p ==> p[k] == base[k])
  }

  lemma RuleCaseChanges(s: Spec, base: Payload, f: Field, r: Rule)
    requires Applies(f, r)
    ensures var c := RuleCase(s, base, f, r);
            && c.target == Some(f.name) && c.expected.errorsFor == Some(f.name)
            && c.authenticated == s.authRequired
            && SameOutside(c.payload, base, f.name)
            && (r.REQUIRED_MISSING? ==> f.name !in c.payload)
  {
  }

  /** Every case after the happy and auth ones is about one field of the endpoint, and its
      payload is the happy payload outside that field. */
  lemma OneChangePerCase(s: Spec, c: Case)
    requires c in PlanOf(s) && c.target.Some?
    ensures exists j :: 0 <= j < |s.fields| && c.target == Some(s.fields[j].name)
    ensures SameOutside(c.payload, HappyCase(s).payload, c.target.value)
    ensures c.authenticated == HappyCase(s).authenticated && c.expected.errorsFor == c.target
  {
    var base := BasePayload(s.fields);
    AllCasesMade(s, base, s.fields);
    assert c in AllFieldCases(s, base, s.fields);
    var j :| 0 <= j < |s.fields| && MadeFor(s, base, c, s.fields[j], ORDER);
    MadeChanges(s, base, c, s.fields[j]);
  }

  lemma MadeChanges(s: Spec, base: Payload, c: Case, f: Field)
    requires MadeFor(s, base, c, f, ORDER)
    ensures c.target == Some(f.name) && c.expected.errorsFor == c.target && c.authenticated == s.authRequired
    ensures SameOutside(c.payload, base, f.name)
  {
    var i :| 0 <= i < |ORDER| && Applies(f, ORDER[i]) && c == RuleCase(s, base, f, ORDER[i]);
    RuleCaseChanges(s, base, f, ORDER[i]);
  }

  // ----- values against rules -----

  predicate Whole(x: real) { x == x.Floor as real }

  /** The size Laravel compares: a number's value, a string's length. */
  function Measure(v: Value): int
    requires v.Int? || v.Str?
  {
    if v.Int? then v.n else |v.s|
  }

  predicate MeetsMin(m: int, c: Constraints) { c.min.Some? ==> m as real >= c.min.value }
  predicate MeetsMax(m: int, c: Constraints) { c.max.Some? ==> m as real <= c.max.value }
  predicate MeetsSize(m: int, c: Constraints) { c.size.Some? ==> m as real == c.size.value }

  predicate MeetsAll(m: int, c: Constraints) { MeetsMin(m, c) && MeetsMax(m, c) && MeetsSize(m, c) }

  lemma TruncateFacts(x: real)
    ensures x >= 0.0 ==> x - 1.0 < Truncate(x) as real <= x
    ensures x <= 0.0 ==> x <= Truncate(x) as real < x + 1.0
    ensures Truncate(x) as real == x <==> Whole(x)
  {
    if x < 0.0 {
      var f := (-x).Floor;
      assert Truncate(x) == -f;
      if Whole(x) { assert (-x) == (-(x.Floor)) as real; }
    }
  }

  /** What a string field's limits must be for its happy value to satisfy all of them. */
  predicate StringLimitsOk(c: Constraints) {
    if c.size.Some? then
      Whole(c.size.value) && c.size.value >= 1.0 &&
      (c.min.Some? ==> c.min.value <= c.size.value) && (c.max.Some? ==> c.size.value <= c.max.value)
    else if c.min.Some? then
      (c.min.value <= 1.0 || Whole(c.min.value)) &&
      (c.max.Some? ==> c.max.value >= 1.0 && c.max.value >= c.min.value)
    else
      c.max.Some? ==> c.max.value >= 1.0
  }

  predicate IsText(f: Field) { f.kind == STRING || (f.kind == UNKNOWN && f.relation.None?) }

  lemma HappyStringFits(f: Field)
    requires IsText(f)
    ensures ValidValue(f).Str?
    ensures MeetsAll(Measure(ValidValue(f)), f.limits) <==> StringLimitsOk(f.limits)
  {
    var c := f.limits;
    if c.size.Some? { TruncateFacts(c.size.value); }
    if c.min.Some? { TruncateFacts(c.min.value); }
    if c.max.Some? { TruncateFacts(c.max.value); }
  }

  /** The happy number: int(min), else the smaller of int(max) and 1, else 7. */
  function HappyNumber(c: Constraints): int {
    if c.min.Some? then Truncate(c.min.value)
    else if c.max.None? then 7
    else if c.max.value < 1.0 then Truncate(c.max.value)
    else 1
  }

  /** The same for a numeric field. A size rule is not looked at: it must happen to hold. */
  predicate NumericLimitsOk(c: Constraints) {
    && (c.min.Some? ==> c.min.value <= 0.0 || Whole(c.min.value))
    && (c.max.Some? ==>
          if c.min.Some? then c.max.value >= Truncate(c.min.value) as real
          else c.max.value >= 0.0 || Whole(c.max.value))
    && (c.size.Some? ==> c.size.value == HappyNumber(c) as real)
  }

  lemma HappyNumberFits(f: Field)
    requires IsNumeric(f.kind)
    ensures ValidValue(f).Int?
    ensures MeetsAll(Measure(ValidValue(f)), f.limits) <==> NumericLimitsOk(f.limits)
  {
    var c := f.limits;
    if c.min.Some? { TruncateFacts(c.min.value); }
    if c.max.Some? { TruncateFacts(c.max.value); }
  }

  // ----- the values in the plan's cases -----

  predicate LimitsOk(f: Field)
    requires IsText(f) || IsNumeric(f.kind)
  {
    if IsNumeric(f.kind) then NumericLimitsOk(f.limits) else StringLimitsOk(f.limits)
  }

  /** The payload's value for the field satisfies all of its limits. */
  predicate FieldFits(p: Payload, f: Field) {
    && f.name in p && (p[f.name].Int? || p[f.name].Str?)
    && MeetsAll(Measure(p[f.name]), f.limits)
  }

  /** The happy case meets the limits of every string and numeric field iff those limits are
      ones the generator can meet. */
  lemma HappyCaseFits(s: Spec)
    requires DistinctFields(s.fields)
    ensures HappyCase(s) in PlanOf(s)
    ensures forall i :: 0 <= i < |s.fields| && (IsText(s.fields[i]) || IsNumeric(s.fields[i].kind)) ==>
              (FieldFits(HappyCase(s).payload, s.fields[i]) <==> LimitsOk(s.fields[i]))
  {
    assert HappyCase(s) == FixedCases(s)[0];
    forall i | 0 <= i < |s.fields| && (IsText(s.fields[i]) || IsNumeric(s.fields[i].kind))
      ensures FieldFits(HappyCase(s).payload, s.fields[i]) <==> LimitsOk(s.fields[i])
    {
      var f := s.fields[i];
      BaseHas(s.fields, i);
      if IsNumeric(f.kind) { HappyNumberFits(f); } else { HappyStringFits(f); }
    }
  }

  lemma {:induction false} FieldCaseIn(s: Spec, base: Payload, f: Field, rules: seq<Rule>, r: Rule)
    requires r in rules && Applies(f, r)
    ensures RuleCase(s, base, f, r) in FieldCases(s, base, f, rules)
    decreases |rules|
  {
    var n := |rules| - 1;
    if rules[n] != r {
      assert r in rules[..n];
      FieldCaseIn(s, base, f, rules[..n], r);
    }
  }

  lemma {:induction false} FieldCasesIn(s: Spec, base: Payload, fs: seq<Field>, i: nat, c: Case)
    requires i < |fs| && c in FieldCases(s, base, fs[i], ORDER)
    ensures c in AllFieldCases(s, base, fs)
    decreases |fs|
  {
    var n := |fs| - 1;
    if i < n { FieldCasesIn(s, base, fs[..n], i, c); }
  }

  lemma Listed(r: Rule)
    ensures r in ORDER
  {
    match r {
      case REQUIRED_MISSING => assert ORDER[0] == r;
      case TYPE_VIOLATION => assert ORDER[1] == r;
      case MIN_BOUNDARY => assert ORDER[2] == r;
      case MAX_BOUNDARY => assert ORDER[3] == r;
      case SIZE_BELOW => assert ORDER[4] == r;
      case SIZE_ABOVE => assert ORDER[5] == r;
      case EXISTS_MISSING => assert ORDER[6] == r;
      case UNIQUE_DUPLICATE => assert ORDER[7] == r;
    }
  }

  /** No rule is forgotten: every rule that applies to a field has its case in the plan. */
  lemma EveryRuleHasACase(s: Spec, i: nat, r: Rule)
    requires i < |s.fields| && Applies(s.fields[i], r)
    ensures RuleCase(s, BasePayload(s.fields), s.fields[i], r) in PlanOf(s)
  {
    var base := BasePayload(s.fields);
    Listed(r);
    FieldCaseIn(s, base, s.fields[i], ORDER, r);
    FieldCasesIn(s, base, s.fields, i, RuleCase(s, base, s.fields[i], r));
  }

  predicate IsBoundary(r: Rule) {
    r.MIN_BOUNDARY? || r.MAX_BOUNDARY? || r.SIZE_BELOW? || r.SIZE_ABOVE?
  }

  /** The value breaks the limit that the boundary rule `r` is about. */
  predicate Breaks(v: Value, f: Field, r: Rule)
    requires IsBoundary(r) && (v.Int? || v.Str?)
  {
    match r
    case MIN_BOUNDARY => !MeetsMin(Measure(v), f.limits)
    case MAX_BOUNDARY => !MeetsMax(Measure(v), f.limits)
    case _ => !MeetsSize(Measure(v), f.limits)
  }

  /** A limit no string can be short of: a minimum of zero or less, a size of zero from below. */
  predicate Unbreakable(f: Field, r: Rule)
    requires Applies(f, r)
  {
    !IsNumeric(f.kind) &&
    match r
    case MIN_BOUNDARY => f.limits.min.value <= 0.0
    case SIZE_BELOW => f.limits.size.value == 0.0
    case _ => false
  }

  lemma BoundaryValueBreaks(base: Payload, f: Field, r: Rule)
    requires IsBoundary(r) && Applies(f, r)
    ensures var p := Mutate(base, f, r);
            && f.name in p && (p[f.name].Int? || p[f.name].Str?)
            && (Breaks(p[f.name], f, r) <==> !Unbreakable(f, r))
  {
    match r
    case MIN_BOUNDARY => TruncateFacts(f.limits.min.value);
    case MAX_BOUNDARY => TruncateFacts(f.limits.max.value);
    case SIZE_BELOW => TruncateFacts(f.limits.size.value);
    case SIZE_ABOVE => TruncateFacts(f.limits.size.value);
    case _ =>
  }

  /** For every string or numeric field and every limit it has, the plan holds an edge case
      whose value breaks that very limit, unless no string can; and with distinct names no
      other case of the plan goes by its name. */
  lemma BoundariesViolate(s: Spec, i: nat, r: Rule)
    requires i < |s.fields| && (IsText(s.fields[i]) || IsNumeric(s.fields[i].kind))
    requires IsBoundary(r) && Applies(s.fields[i], r)
    ensures var f := s.fields[i];
            var c := RuleCase(s, BasePayload(s.fields), f, r);
            && c in PlanOf(s) && c.name == f.name + "_" + RuleName(r) && c.caseType == EDGE
            && f.name in c.payload && (c.payload[f.name].Int? || c.payload[f.name].Str?)
            && (Breaks(c.payload[f.name], f, r) <==> !Unbreakable(f, r))
            && (DistinctFields(s.fields) ==> forall d :: d in PlanOf(s) && d.name == c.name ==> d == c)
  {
    var base := BasePayload(s.fields);
    var c := RuleCase(s, base, s.fields[i], r);
    EveryRuleHasACase(s, i, r);
    BoundaryValueBreaks(base, s.fields[i], r);
    if DistinctFields(s.fields) {
      PlanNamesDistinct(s);
      forall d | d in PlanOf(s) && d.name == c.name ensures d == c {
        var j, k :| 0 <= j < |PlanOf(s)| && 0 <= k < |PlanOf(s)| && PlanOf(s)[j] == c && PlanOf(s)[k] == d;
      }
    }
  }

  // ----- what each case is about -----

  /** Does the value have the type the field's rules ask for? */
  predicate Conforms(k: Kind, v: Value) {
    match k
    case INTEGER => v.Int?
    case NUMERIC => v.Int?
    case BOOLEAN => v.Truth?
    case ARRAY => v.Items?
    case EMAIL => v.Str? && '@' in v.s
    case UUID => v.Str? && |v.s| == 36 && v.s[8] == v.s[13] == v.s[18] == v.s[23] == '-'
    case DATE => v.Str? && |v.s| == 10 && v.s[4] == '-' && v.s[7] == '-'
    case _ => v.Str?
  }

  lemma MailsConform()
    ensures Conforms(EMAIL, Str("a@b.co")) && Conforms(EMAIL, Str("user@example.com"))
  {
    assert "user@example.com"[4] == '@' && "a@b.co"[1] == '@';
  }

  lemma UuidConforms()
    ensures Conforms(UUID, Str("00000000-0000-0000-0000-000000000000"))
  {
  }

  lemma HappyValueConforms(f: Field)
    ensures f.kind != UNKNOWN ==> Conforms(f.kind, ValidValue(f))
  {
    MailsConform();
    UuidConforms();
  }

  lemma InvalidValueDoesNot(k: Kind)
    ensures InvalidValue(k).Some? <==> k != STRING && k != UNKNOWN
    ensures InvalidValue(k).Some? ==> !Conforms(k, InvalidValue(k).value)
  {
  }

  /** When a rule applies to a field. */
  lemma AppliesMeaning(f: Field)
    ensures Applies(f, REQUIRED_MISSING) <==> f.required
    ensures Applies(f, TYPE_VIOLATION) <==> f.kind != STRING && f.kind != UNKNOWN
    ensures Applies(f, MIN_BOUNDARY) <==> f.limits.min.Some?
    ensures Applies(f, MAX_BOUNDARY) <==> f.limits.max.Some?
    ensures Applies(f, SIZE_BELOW) <==> f.limits.size.Some?
    ensures Applies(f, SIZE_ABOVE) <==> f.limits.size.Some?
    ensures Applies(f, EXISTS_MISSING) <==> f.relation.Some? && f.relation.value.kind == EXISTS
    ensures Applies(f, UNIQUE_DUPLICATE) <==> f.relation.Some? && f.relation.value.kind == UNIQUE
  {
  }

  /** What a negative case sends in its field: nothing for a required field; a value of another
      type; a row id that does not exist; the happy value again for a duplicate. */
  lemma NegativesSend(s: Spec, i: nat, r: Rule)
    requires DistinctFields(s.fields) && i < |s.fields| && Applies(s.fields[i], r)
    ensures var f := s.fields[i];
            var c, happy := RuleCase(s, BasePayload(s.fields), f, r), HappyCase(s).payload;
            && c in PlanOf(s) && f.name in happy && (f.kind != UNKNOWN ==> Conforms(f.kind, happy[f.name]))
            && match r
               case REQUIRED_MISSING => c.payload == happy - {f.name}
               case TYPE_VIOLATION => f.name in c.payload && !Conforms(f.kind, c.payload[f.name])
               case EXISTS_MISSING => f.name in c.payload && c.payload[f.name] == Int(999999999)
               case UNIQUE_DUPLICATE => c.payload == happy
               case _ => f.name in c.payload
  {
    EveryRuleHasACase(s, i, r);
    BaseHas(s.fields, i);
    HappyValueConforms(s.fields[i]);
    InvalidValueDoesNot(s.fields[i].kind);
  }

  /** The authentication case is planned iff the endpoint asks for it; it sends the happy
      request unauthenticated and expects 401, or a redirect off the API. */
  lemma AuthIsTested(s: Spec, c: Case)
    requires c in PlanOf(s)
    ensures s.authRequired <==> exists d :: d in PlanOf(s) && d.name == "auth_unauthenticated"
    ensures c.name == "auth_unauthenticated" ==>
              && !c.authenticated && c.caseType == NEGATIVE && c.target == None
              && c.payload == HappyCase(s).payload && c.dependencies == HappyCase(s).dependencies
              && c.expected.status == if s.isApi then 401 else 302
  {
    var base := BasePayload(s.fields);
    AllCasesMade(s, base, s.fields);
    forall d | d in AllFieldCases(s, base, s.fields) ensures d.name != "auth_unauthenticated" {
      FixedNamesApart(s, base, d);
    }
    if s.authRequired { assert FixedCases(s)[1] == AuthCase(s); }
  }

  /** Expected statuses: by verb for the happy case, 422 or a redirect for everything targeted;
      the happy case is sent authenticated iff the endpoint asks for it. */
  lemma ExpectedStatuses(s: Spec, c: Case)
    requires c in PlanOf(s)
    ensures HappyCase(s) in PlanOf(s) && HappyCase(s).authenticated == s.authRequired
    ensures HappyCase(s).expected.status ==
              if SameIgnoringCase(s.verb, "POST") then 201 else if SameIgnoringCase(s.verb, "DELETE") then 204 else 200
    ensures c.target.Some? ==> c.expected == Expected(if s.isApi then 422 else 302, c.target)
    ensures c.target.None? ==> c.name == "happy" || c.name == "auth_unauthenticated"
  {
    var base := BasePayload(s.fields);
    AllCasesMade(s, base, s.fields);
    assert HappyCase(s) == FixedCases(s)[0];
    UpperIff(s.verb, "POST");
    UpperIff(s.verb, "DELETE");
    UpperOfConstants();
    if c in AllFieldCases(s, base, s.fields) {
      var j :| 0 <= j < |s.fields| && MadeFor(s, base, c, s.fields[j], ORDER);
    }
  }

  lemma UpperOfConstants()
    ensures Upper("POST") == "POST" && Upper("DELETE") == "DELETE"
  {
  }

  // ----- dependencies -----

  /** The fields with a relation, in order. */
  function Related(fs: seq<Field>): seq<Field> {
    if fs == [] then []
    else Related(fs[..|fs| - 1]) + if fs[|fs| - 1].relation.Some? then [fs[|fs| - 1]] else []
  }

  /** What the happy case asks for: the row of an exists rule present, that of a unique rule
      absent, with the value sent. */
  function HappyDependency(f: Field): Dependency
    requires f.relation.Some?
  {
    Dependency(if f.relation.value.kind == EXISTS then ROW_PRESENT else ROW_ABSENT,
               f.relation.value.table, f.relation.value.column, ValidValue(f))
  }

  lemma {:induction false} DependenciesAreRelated(fs: seq<Field>, p: Payload)
    requires forall i :: 0 <= i < |fs| ==> fs[i].name in p && p[fs[i].name] == ValidValue(fs[i])
    ensures var ds, rs := Dependencies(fs, p, None, None), Related(fs);
            && |ds| == |rs|
            && forall i :: 0 <= i < |rs| ==> rs[i].relation.Some? && ds[i] == HappyDependency(rs[i])
    decreases |fs|
  {
    if fs != [] { DependenciesAreRelated(fs[..|fs| - 1], p); }
  }

  /** The happy case depends on exactly one row per field with a relation, in field order. */
  lemma HappyDependencies(s: Spec)
    requires DistinctFields(s.fields)
    ensures var ds, rs := HappyCase(s).dependencies, Related(s.fields);
            && |ds| == |rs|
            && forall i :: 0 <= i < |rs| ==> rs[i].relation.Some? && ds[i] == HappyDependency(rs[i])
  {
    forall i | 0 <= i < |s.fields|
      ensures s.fields[i].name in BasePayload(s.fields)
      ensures BasePayload(s.fields)[s.fields[i].name] == ValidValue(s.fields[i])
    {
      BaseHas(s.fields, i);
    }
    DependenciesAreRelated(s.fields, BasePayload(s.fields));
  }

  /** The dependency lists of two cases differ at most at position `k`. */
  predicate SameButAt(ds: seq<Dependency>, es: seq<Dependency>, k: nat) {
    |ds| == |es| && k < |ds| && forall j :: 0 <= j < |ds| && j != k ==> ds[j] == es[j]
  }

  /** The same table and column, the opposite row state. */
  predicate Flipped(d: Dependency, e: Dependency) {
    d.table == e.table && d.column == e.column && d.presence != e.presence
  }

  lemma {:induction false} OthersKeepDependencies(fs: seq<Field>, p: Payload, q: Payload, name: string,
                                                  missing: Option<string>, duplicate: Option<string>)
    requires SameOutside(q, p, name) && forall i :: 0 <= i < |fs| ==> fs[i].name != name
    requires (missing == None || missing == Some(name)) && (duplicate == None || duplicate == Some(name))
    ensures Dependencies(fs, q, missing, duplicate) == Dependencies(fs, p, None, None)
    decreases |fs|
  {
    if fs != [] { OthersKeepDependencies(fs[..|fs| - 1], p, q, name, missing, duplicate); }
  }

  /** Two dependency lists differ only in what they ask of field `f`, at position `k`. */
  predicate FlippedAt(f: Field, p: Payload, q: Payload, happy: seq<Dependency>, flipped: seq<Dependency>, k: nat) {
    && f.relation.Some? && f.name in p && f.name in q
    && SameButAt(happy, flipped, k)
    && Flipped(happy[k], flipped[k])
    && happy[k].presence == (if f.relation.value.kind == EXISTS then ROW_PRESENT else ROW_ABSENT)
    && happy[k].table == f.relation.value.table && happy[k].column == f.relation.value.column
    && happy[k].value == p[f.name] && flipped[k].value == q[f.name]
  }

  lemma {:induction false} DependenciesSplit(fs: seq<Field>, i: nat, p: Payload,
                                             missing: Option<string>, duplicate: Option<string>)
    requires i < |fs|
    ensures Dependencies(fs, p, missing, duplicate) ==
            Dependencies(fs[..i], p, missing, duplicate) + DependencyOf(fs[i], p, missing, duplicate) +
            Dependencies(fs[i + 1..], p, missing, duplicate)
    decreases |fs|
  {
    var n := |fs| - 1;
    if i < n {
      DependenciesSplit(fs[..n], i, p, missing, duplicate);
      assert fs[..n][..i] == fs[..i];
      assert fs[i + 1..][..n - i - 1] == fs[..n][i + 1..];
    }
  }

  /** One dependency flipped between unchanged lists. */
  lemma FlipBetween(f: Field, before: seq<Dependency>, after: seq<Dependency>, p: Payload, q: Payload,
                    missing: Option<string>, duplicate: Option<string>)
    requires f.relation.Some? && f.name in p && f.name in q
    requires if f.relation.value.kind == EXISTS then missing == Some(f.name) && duplicate == None
             else missing == None && duplicate == Some(f.name)
    ensures FlippedAt(f, p, q, before + DependencyOf(f, p, None, None) + after,
                      before + DependencyOf(f, q, missing, duplicate) + after, |before|)
  {
  }

  lemma FlipOne(fs: seq<Field>, i: nat, p: Payload, q: Payload, missing: Option<string>, duplicate: Option<string>)
    requires DistinctFields(fs) && i < |fs| && fs[i].relation.Some? && fs[i].name in p && fs[i].name in q
    requires SameOutside(q, p, fs[i].name)
    requires if fs[i].relation.value.kind == EXISTS then missing == Some(fs[i].name) && duplicate == None
             else missing == None && duplicate == Some(fs[i].name)
    ensures FlippedAt(fs[i], p, q, Dependencies(fs, p, None, None), Dependencies(fs, q, missing, duplicate),
                      |Dependencies(fs[..i], p, None, None)|)
  {
    var f := fs[i];
    OthersKeepDependencies(fs[..i], p, q, f.name, missing, duplicate);
    OthersKeepDependencies(fs[i + 1..], p, q, f.name, missing, duplicate);
    DependenciesSplit(fs, i, p, None, None);
    DependenciesSplit(fs, i, q, missing, duplicate);
    FlipBetween(f, Dependencies(fs[..i], p, None, None), Dependencies(fs[i + 1..], p, None, None),
                p, q, missing, duplicate);
  }

  /** An exists or unique negative of the plan asks for exactly the opposite row state of its
      own field, with the value it sends, and leaves every other dependency of the happy case
      alone. */
  lemma NegativeFlipsItsField(s: Spec, i: nat, r: Rule)
    requires DistinctFields(s.fields) && i < |s.fields| && Applies(s.fields[i], r)
    requires r.EXISTS_MISSING? || r.UNIQUE_DUPLICATE?
    ensures var f := s.fields[i];
            var c := RuleCase(s, BasePayload(s.fields), f, r);
            var happy := HappyCase(s);
            var k := |Dependencies(s.fields[..i], happy.payload, None, None)|;
            && c in PlanOf(s)
            && FlippedAt(f, happy.payload, c.payload, happy.dependencies, c.dependencies, k)
  {
    var f, base := s.fields[i], BasePayload(s.fields);
    EveryRuleHasACase(s, i, r);
    BaseHas(s.fields, i);
    FlipOne(s.fields, i, base, Mutate(base, f, r),
            if r.EXISTS_MISSING? then Some(f.name) else None, if r.UNIQUE_DUPLICATE? then Some(f.name) else None);
  }

  // ----- the program -----

  method DependenciesOf(s: Spec, payload: Payload, existsNegative: Option<string>, uniqueNegative: Option<string>)
    returns (deps: seq<Dependency>)
    ensures deps == Dependencies(s.fields, payload, existsNegative, uniqueNegative)
  {
    deps := [];
    for n := 0 to |s.fields|
      invariant deps == Dependencies(s.fields[..n], payload, existsNegative, uniqueNegative)
    {
      assert s.fields[..n + 1][..n] == s.fields[..n];
      var f := s.fields[n];
      if f.relation.None? || f.name !in payload {
        continue;
      }
      var value, relation := payload[f.name], f.relation.value;
      if Some(f.name) == existsNegative {
        deps := deps + [Dependency(ROW_ABSENT, relation.table, relation.column, value)];
      } else if Some(f.name) == uniqueNegative {
        deps := deps + [Dependency(ROW_PRESENT, relation.table, relation.column, value)];
      } else if relation.kind == EXISTS {
        deps := deps + [Dependency(ROW_PRESENT, relation.table, relation.column, value)];
      } else {
        deps := deps + [Dependency(ROW_ABSENT, relation.table, relation.column, value)];
      }
    }
    assert s.fields[..|s.fields|] == s.fields;
  }

  method NegativeCase(s: Spec, f: Field, rule: string, payload: Payload, t: CaseType,
                      existsNegative: Option<string>, uniqueNegative: Option<string>) returns (c: Case)
    ensures c == Negative(s, f, rule, payload, t, existsNegative, uniqueNegative)
  {
    var deps := DependenciesOf(s, payload, existsNegative, uniqueNegative);
    c := Case(f.name + "_" + rule, t, Some(f.name), payload, s.authRequired,
              Expected(if s.isApi then 422 else 302, Some(f.name)), deps);
  }

  /** One `if` of the planner: append the case when the rule applies. */
  method AddCase(cases: seq<Case>, s: Spec, base: Payload, f: Field, n: nat, rule: string, payload: Payload, t: CaseType,
                 existsNegative: Option<string>, uniqueNegative: Option<string>) returns (r: seq<Case>)
    requires n < |ORDER| && cases == FieldCases(s, base, f, ORDER[..n])
    requires Applies(f, ORDER[n]) && RuleCase(s, base, f, ORDER[n]) == Negative(s, f, rule, payload, t, existsNegative, uniqueNegative)
    ensures r == FieldCases(s, base, f, ORDER[..n + 1])
  {
    var c := NegativeCase(s, f, rule, payload, t, existsNegative, uniqueNegative);
    StepRule(s, base, f, n);
    r := cases + [c];
  }

  /** The cases of one field, one `if` per rule. */
  method CasesOf(s: Spec, base: Payload, f: Field) returns (cases: seq<Case>)
    ensures cases == FieldCases(s, base, f, ORDER)
  {
    cases := PresenceAndType(s, base, f);
    cases := Bounds(s, base, f, cases);
    cases := Sizes(s, base, f, cases);
    cases := Relations(s, base, f, cases);
    assert ORDER[..8] == ORDER;
  }

  method PresenceAndType(s: Spec, base: Payload, f: Field) returns (cases: seq<Case>)
    ensures cases == FieldCases(s, base, f, ORDER[..2])
  {
    cases := [];
    StepRule(s, base, f, 0);
    if f.required {
      cases := AddCase(cases, s, base, f, 0, "required_missing", base - {f.name}, NEGATIVE, None, None);
    }
    StepRule(s, base, f, 1);
    if InvalidValue(f.kind).Some? {
      cases := AddCase(cases, s, base, f, 1, "type_violation", base[f.name := InvalidValue(f.kind).value], NEGATIVE, None, None);
    }
  }

  method Bounds(s: Spec, base: Payload, f: Field, before: seq<Case>) returns (cases: seq<Case>)
    requires before == FieldCases(s, base, f, ORDER[..2])
    ensures cases == FieldCases(s, base, f, ORDER[..4])
  {
    cases := before;
    StepRule(s, base, f, 2);
    if f.limits.min.Some? {
      cases := AddCase(cases, s, base, f, 2, "min_boundary", base[f.name := BelowMin(f, f.limits.min.value)], EDGE, None, None);
    }
    StepRule(s, base, f, 3);
    if f.limits.max.Some? {
      cases := AddCase(cases, s, base, f, 3, "max_boundary", base[f.name := AboveMax(f, f.limits.max.value)], EDGE, None, None);
    }
  }

  method Sizes(s: Spec, base: Payload, f: Field, before: seq<Case>) returns (cases: seq<Case>)
    requires before == FieldCases(s, base, f, ORDER[..4])
    ensures cases == FieldCases(s, base, f, ORDER[..6])
  {
    cases := before;
    StepRule(s, base, f, 4);
    StepRule(s, base, f, 5);
    if f.limits.size.Some? {
      cases := AddCase(cases, s, base, f, 4, "size_below", base[f.name := SizedBy(f, f.limits.size.value, -1)], EDGE, None, None);
      cases := AddCase(cases, s, base, f, 5, "size_above", base[f.name := SizedBy(f, f.limits.size.value, 1)], EDGE, None, None);
    }
  }

  method Relations(s: Spec, base: Payload, f: Field, before: seq<Case>) returns (cases: seq<Case>)
    requires before == FieldCases(s, base, f, ORDER[..6])
    ensures cases == FieldCases(s, base, f, ORDER[..8])
  {
    cases := before;
    StepRule(s, base, f, 6);
    if f.relation.Some? && f.relation.value.kind == EXISTS {
      cases := AddCase(cases, s, base, f, 6, "exists_missing", base[f.name := Int(NONEXISTENT_ID)], NEGATIVE, Some(f.name), None);
    }
    StepRule(s, base, f, 7);
    if f.relation.Some? && f.relation.value.kind == UNIQUE {
      cases := AddCase(cases, s, base, f, 7, "unique_duplicate", base, NEGATIVE, None, Some(f.name));
    }
  }

  lemma StepRule(s: Spec, base: Payload, f: Field, n: nat)
    requires n < |ORDER|
    ensures FieldCases(s, base, f, ORDER[..n + 1]) ==
            FieldCases(s, base, f, ORDER[..n]) + (if Applies(f, ORDER[n]) then [RuleCase(s, base, f, ORDER[n])] else [])
    ensures FieldCases(s, base, f, ORDER[..0]) == []
  {
    assert ORDER[..n + 1][..n] == ORDER[..n] && ORDER[..0] == [];
  }

  method BasePayloadOf(fs: seq<Field>) returns (base: Payload)
    ensures base == BasePayload(fs)
  {
    base := map[];
    for n := 0 to |fs|
      invariant base == BasePayload(fs[..n])
    {
      assert fs[..n + 1][..n] == fs[..n];
      base := base[fs[n].name := ValidValue(fs[n])];
    }
    assert fs[..|fs|] == fs;
  }

  lemma NextField(s: Spec, base: Payload, fs: seq<Field>, n: nat)
    requires n < |fs|
    ensures AllFieldCases(s, base, fs[..n + 1]) == AllFieldCases(s, base, fs[..n]) + FieldCases(s, base, fs[n], ORDER)
  {
    assert fs[..n + 1][..n] == fs[..n];
  }

  method PlanCases(s: Spec) returns (cases: seq<Case>)
    ensures cases == PlanOf(s)
  {
    var base := BasePayloadOf(s.fields);
    cases := FixedCasesOf(s, base);
    var fields := s.fields;
    for n := 0 to |fields|
      invariant cases == FixedCases(s) + AllFieldCases(s, base, fields[..n])
    {
      var more := CasesOf(s, base, fields[n]);
      NextField(s, base, fields, n);
      cases := cases + more;
    }
    assert fields[..|fields|] == s.fields;
  }

  method FixedCasesOf(s: Spec, base: Payload) returns (cases: seq<Case>)
    requires base == BasePayload(s.fields)
    ensures cases == FixedCases(s)
  {
    var deps := DependenciesOf(s, base, None, None);
    cases := [Case("happy", HAPPY, None, base, s.authRequired, Expected(SuccessStatus(s.verb), None), deps)];
    assert cases == [HappyCase(s)];
    if s.authRequired {
      var c := Case("auth_unauthenticated", NEGATIVE, None, base, false, Expected(if s.isApi then 401 else 302, None), deps);
      assert c == AuthCase(s);
      cases := cases + [c];
    }
  }
}
