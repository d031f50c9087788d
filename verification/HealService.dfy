/** The life of heals: scanning a run proposes them, a human confirms or rejects them. */
module HealService {
  import opened Prelude
  import opened HealApply

  type CaseId = int

  datatype Outcome = PASS | FAIL | ERROR | SKIP

  datatype FailureClass = LOCATION | ASSERTION | OTHER

  datatype Confidence = LOW | MEDIUM | HIGH

  datatype Status = PROPOSED | CONFIRMED | REJECTED

  /** A test result, a re-binding of a moved route, and a heal row (rows are numbered by
      their position in the heal table). */
  datatype Result = Result(caseId: CaseId, outcome: Outcome, message: string)

  datatype Resolution = Resolution(oldPath: string, newPath: string, confidence: Confidence)

  datatype HealRow = HealRow(run: int, caseId: CaseId, before: string, after: string, code: string,
                             status: Status, resolvedBy: Option<string>)

  datatype Setup = Setup(pattern: Pattern, classify: (Outcome, string) -> FailureClass, threshold: Confidence)

  /** What a scan reads besides heals and scripts; `resolve` is the state of the Brain. */
  datatype Scan = Scan(run: int, results: seq<Result>, passingBefore: set<CaseId>, cases: set<CaseId>,
                       resolve: map<CaseId, Resolution>)

  datatype Store = Store(heals: seq<HealRow>, scripts: map<CaseId, seq<string>>)

  datatype Report = Report(healed: seq<nat>, realFindings: seq<CaseId>, unhealed: seq<CaseId>)

  function Rank(c: Confidence): nat {
    match c case LOW => 0 case MEDIUM => 1 case HIGH => 2
  }

  // ----- the steps on values -----

  predicate IsFailure(q: Scan, r: Result) {
    (r.outcome == FAIL || r.outcome == ERROR) && r.caseId in q.passingBefore
  }

  function Failures(q: Scan, results: seq<Result>): (r: seq<Result>)
    ensures forall i :: 0 <= i < |r| ==> r[i] in results && IsFailure(q, r[i])
  {
    if results == [] then []
    else (if IsFailure(q, results[0]) then [results[0]] else []) + Failures(q, results[1..])
  }

  predicate Failing(o: Outcome) { o == FAIL || o == ERROR }

  /** The failures are exactly the results that failed or erred, of cases that passed before,
      each as often as it was reported, in the order reported. */
  lemma {:induction false} FailuresExact(q: Scan, results: seq<Result>)
    ensures forall x :: multiset(Failures(q, results))[x] ==
              if Failing(x.outcome) && x.caseId in q.passingBefore then multiset(results)[x] else 0
    decreases |results|
  {
    if results != [] {
      FailuresExact(q, results[1..]);
      assert results == [results[0]] + results[1..];
    }
  }

  lemma {:induction false} FailuresInOrder(q: Scan, a: seq<Result>, b: seq<Result>)
    ensures Failures(q, a + b) == Failures(q, a) + Failures(q, b)
    decreases |a|
  {
    if a == [] {
      assert a + b == b;
    } else {
      assert (a + b)[1..] == a[1..] + b;
      FailuresInOrder(q, a[1..], b);
    }
  }

  function Current(s: Store, c: CaseId): Option<string> {
    if c in s.scripts && s.scripts[c] != [] then Some(s.scripts[c][|s.scripts[c]| - 1]) else None
  }

  predicate SameAddressing(h: HealRow, c: CaseId, before: string, after: string) {
    h.caseId == c && h.before == before && h.after == after
  }

  function FindDedup(heals: seq<HealRow>, c: CaseId, before: string, after: string): (r: Option<nat>)
    ensures r.Some? ==>
              r.value < |heals| &&
              heals[r.value].caseId == c && heals[r.value].before == before && heals[r.value].after == after
    ensures r.None? ==>
              forall i :: 0 <= i < |heals| ==>
                !(heals[i].caseId == c && heals[i].before == before && heals[i].after == after)
  {
    if heals == [] then None
    else
      var n := |heals| - 1;
      if SameAddressing(heals[n], c, before, after) then Some(n) else FindDedup(heals[..n], c, before, after)
  }

  /** The re-addressed script of a case, if one may be proposed at all. */
  function Candidate(u: Setup, q: Scan, s: Store, c: CaseId): Option<HealRow> {
    if c !in q.resolve || Rank(q.resolve[c].confidence) < Rank(u.threshold) then None
    else if Current(s, c).None? then None
    else
      var code, fix := Current(s, c).value, q.resolve[c];
      var healed := Heal(u.pattern, code, fix.oldPath, fix.newPath);
      if healed == code || !AssertionsUnchanged(u.pattern, code, healed) then None
      else Some(HealRow(q.run, c, fix.oldPath, fix.newPath, healed, PROPOSED, None))
  }

  function ProposeStep(u: Setup, q: Scan, s: Store, c: CaseId): (Store, Option<nat>) {
    match Candidate(u, q, s, c)
    case None => (s, None)
    case Some(h) =>
      match FindDedup(s.heals, c, h.before, h.after)
      case Some(n) => (s, Some(n))
      case None => (s.(heals := s.heals + [h]), Some(|s.heals|))
  }

  function FailureStep(u: Setup, q: Scan, sr: (Store, Report), f: Result): (Store, Report) {
    var (s, r) := sr;
    if f.caseId !in q.cases then (s, r.(unhealed := r.unhealed + [f.caseId]))
    else if u.classify(f.outcome, f.message) != LOCATION then (s, r.(realFindings := r.realFindings + [f.caseId]))
    else
      match ProposeStep(u, q, s, f.caseId)
      case (s', None) => (s', r.(unhealed := r.unhealed + [f.caseId]))
      case (s', Some(n)) => (s', r.(healed := r.healed + [n]))
  }

  function ScanSteps(u: Setup, q: Scan, s: Store, fs: seq<Result>): (Store, Report) {
    if fs == [] then (s, Report([], [], []))
    else FailureStep(u, q, ScanSteps(u, q, s, fs[..|fs| - 1]), fs[|fs| - 1])
  }

  function Resolve(s: Store, n: nat, status: Status, who: string): Store
    requires n < |s.heals|
  {
    s.(heals := s.heals[n := s.heals[n].(status := status, resolvedBy := Some(who))])
  }

  function Overwrite(s: Store, c: CaseId, code: string): Store {
    if Current(s, c).None? then s
    else s.(scripts := s.scripts[c := s.scripts[c][|s.scripts[c]| - 1 := code]])
  }

  datatype Event =
    | ScanRun(q: Scan)
    | ConfirmHeal(n: nat, who: string)
    | RejectHeal(n: nat, who: string)

  function Step(u: Setup, s: Store, e: Event): Store {
    match e
    case ScanRun(q) => ScanSteps(u, q, s, Failures(q, q.results)).0
    case ConfirmHeal(n, who) =>
      if n >= |s.heals| || s.heals[n].status != PROPOSED then s
      else Resolve(Overwrite(s, s.heals[n].caseId, s.heals[n].code), n, CONFIRMED, who)
    case RejectHeal(n, who) =>
      if n >= |s.heals| || s.heals[n].status != PROPOSED then s
      else Resolve(s, n, REJECTED, who)
  }

  function Run(u: Setup, s: Store, es: seq<Event>): Store
    decreases |es|
  {
    if es == [] then s else Run(u, Step(u, s, es[0]), es[1..])
  }

  // ----- the invariant -----

  ghost predicate SameAssertions(u: Setup, a: string, b: string) {
    AssertionsUnchanged(u.pattern, a, b)
  }

  /** Relative to the scripts `origin` held at the start. */
  ghost predicate Inv(u: Setup, origin: map<CaseId, seq<string>>, s: Store) {
    && s.scripts.Keys == origin.Keys
    && (forall c :: c in origin ==> ScriptsOk(u, origin[c], s.scripts[c]))
    && (forall c :: c in origin && s.scripts[c] != origin[c] ==> FromConfirmed(s, c))
    && HealsOk(u, origin, s.heals)
    && Deduped(s.heals)
  }

  ghost predicate HealsOk(u: Setup, origin: map<CaseId, seq<string>>, heals: seq<HealRow>) {
    forall i :: 0 <= i < |heals| ==> HealOk(u, origin, heals[i])
  }

  /** The unique constraint on (case, before, after). */
  ghost predicate Deduped(heals: seq<HealRow>) {
    forall i, j :: 0 <= i < j < |heals| ==>
      !(heals[j].caseId == heals[i].caseId && heals[j].before == heals[i].before && heals[j].after == heals[i].after)
  }

  /** Only the last script of a case may differ, and not in its assertion lines. */
  ghost predicate ScriptsOk(u: Setup, origin: seq<string>, now: seq<string>) {
    && |now| == |origin|
    && (now != [] ==> now[..|now| - 1] == origin[..|now| - 1] && SameAssertions(u, origin[|now| - 1], now[|now| - 1]))
  }

  ghost predicate FromConfirmed(s: Store, c: CaseId) {
    exists i :: 0 <= i < |s.heals| && s.heals[i].caseId == c && s.heals[i].status == CONFIRMED &&
      Current(s, c) == Some(s.heals[i].code)
  }

  ghost predicate HealOk(u: Setup, origin: map<CaseId, seq<string>>, h: HealRow) {
    && h.caseId in origin && origin[h.caseId] != []
    && SameAssertions(u, origin[h.caseId][|origin[h.caseId]| - 1], h.code)
  }

  lemma InvStart(u: Setup, origin: map<CaseId, seq<string>>)
    ensures Inv(u, origin, Store([], origin))
  {
  }

  /** What happened to other rows and cases leaves a confirmed case confirmed. */
  lemma StaysConfirmed(s: Store, t: Store, c: CaseId)
    requires FromConfirmed(s, c) && |s.heals| <= |t.heals|
    requires forall i :: 0 <= i < |s.heals| && s.heals[i].status == CONFIRMED ==> t.heals[i] == s.heals[i]
    requires Current(t, c) == Current(s, c)
    ensures FromConfirmed(t, c)
  {
    var i :| 0 <= i < |s.heals| && s.heals[i].caseId == c && s.heals[i].status == CONFIRMED &&
      Current(s, c) == Some(s.heals[i].code);
    assert t.heals[i] == s.heals[i];
  }

  lemma ProposeInv(u: Setup, q: Scan, origin: map<CaseId, seq<string>>, s: Store, c: CaseId)
    requires Inv(u, origin, s)
    ensures Inv(u, origin, ProposeStep(u, q, s, c).0)
  {
    var t := ProposeStep(u, q, s, c).0;
    if t != s {
      forall k | k in origin && t.scripts[k] != origin[k] ensures FromConfirmed(t, k) {
        StaysConfirmed(s, t, k);
      }
      assert ScriptsOk(u, origin[c], s.scripts[c]);
      assert HealOk(u, origin, t.heals[|s.heals|]);
    }
  }

  lemma {:induction false} ScanInv(u: Setup, q: Scan, origin: map<CaseId, seq<string>>, s: Store, fs: seq<Result>)
    requires Inv(u, origin, s)
    ensures Inv(u, origin, ScanSteps(u, q, s, fs).0)
    decreases |fs|
  {
    if fs != [] {
      var n := |fs| - 1;
      ScanInv(u, q, origin, s, fs[..n]);
      ProposeInv(u, q, origin, ScanSteps(u, q, s, fs[..n]).0, fs[n].caseId);
    }
  }

  lemma ResolveInv(u: Setup, origin: map<CaseId, seq<string>>, s: Store, n: nat, status: Status, who: string)
    requires n < |s.heals| && HealsOk(u, origin, s.heals) && Deduped(s.heals)
    ensures HealsOk(u, origin, Resolve(s, n, status, who).heals) && Deduped(Resolve(s, n, status, who).heals)
  {
    var t := Resolve(s, n, status, who);
    forall i | 0 <= i < |t.heals| ensures HealOk(u, origin, t.heals[i]) {
      assert HealOk(u, origin, s.heals[i]);
    }
    forall i, j | 0 <= i < j < |t.heals|
      ensures !(t.heals[j].caseId == t.heals[i].caseId && t.heals[j].before == t.heals[i].before &&
                t.heals[j].after == t.heals[i].after)
    {
      assert s.heals[i].caseId == t.heals[i].caseId && s.heals[j].caseId == t.heals[j].caseId;
    }
  }

  lemma OverwriteScripts(u: Setup, origin: map<CaseId, seq<string>>, s: Store, h: HealRow)
    requires s.scripts.Keys == origin.Keys && HealOk(u, origin, h)
    requires forall c :: c in origin ==> ScriptsOk(u, origin[c], s.scripts[c])
    ensures var t := Overwrite(s, h.caseId, h.code);
            && t.heals == s.heals && t.scripts.Keys == origin.Keys
            && Current(t, h.caseId) == Some(h.code)
            && (forall c :: c != h.caseId ==> Current(t, c) == Current(s, c))
            && (forall c :: c in origin && c != h.caseId ==> t.scripts[c] == s.scripts[c])
            && (forall c :: c in origin ==> ScriptsOk(u, origin[c], t.scripts[c]))
  {
    var t, before := Overwrite(s, h.caseId, h.code), s.scripts[h.caseId];
    assert ScriptsOk(u, origin[h.caseId], before);
    OverwriteOthers(s, h.caseId, h.code);
    ReplaceLastOk(u, origin[h.caseId], before, h.code);
    forall c | c in origin ensures ScriptsOk(u, origin[c], t.scripts[c]) {
      if c != h.caseId { assert t.scripts[c] == s.scripts[c]; }
    }
  }

  /** Overwriting replaces the last script of one case. */
  lemma OverwriteOthers(s: Store, c: CaseId, code: string)
    requires Current(s, c).Some?
    ensures var t := Overwrite(s, c, code);
            && t.heals == s.heals && t.scripts.Keys == s.scripts.Keys
            && t.scripts[c] == s.scripts[c][|s.scripts[c]| - 1 := code]
            && (forall d :: d in s.scripts && d != c ==> t.scripts[d] == s.scripts[d])
            && (forall d :: d != c ==> Current(t, d) == Current(s, d))
  {
  }

  lemma ReplaceLastOk(u: Setup, origin: seq<string>, now: seq<string>, code: string)
    requires ScriptsOk(u, origin, now) && now != [] && SameAssertions(u, origin[|now| - 1], code)
    ensures ScriptsOk(u, origin, now[|now| - 1 := code])
  {
    assert now[|now| - 1 := code][..|now| - 1] == now[..|now| - 1];
  }

  lemma ConfirmInv(u: Setup, origin: map<CaseId, seq<string>>, s: Store, n: nat, who: string)
    requires Inv(u, origin, s) && n < |s.heals| && s.heals[n].status == PROPOSED
    ensures Inv(u, origin, Step(u, s, ConfirmHeal(n, who)))
  {
    var h := s.heals[n];
    var m := Overwrite(s, h.caseId, h.code);
    var t := Resolve(m, n, CONFIRMED, who);
    assert HealOk(u, origin, h);
    OverwriteScripts(u, origin, s, h);
    ResolveInv(u, origin, m, n, CONFIRMED, who);
    forall c | c in origin && t.scripts[c] != origin[c] ensures FromConfirmed(t, c) {
      if c == h.caseId {
        assert t.heals[n].code == h.code && Current(t, c) == Current(m, c);
      } else {
        StaysConfirmed(s, t, c);
      }
    }
  }

  lemma RejectInv(u: Setup, origin: map<CaseId, seq<string>>, s: Store, n: nat, who: string)
    requires Inv(u, origin, s) && n < |s.heals| && s.heals[n].status == PROPOSED
    ensures Inv(u, origin, Step(u, s, RejectHeal(n, who)))
  {
    var t := Resolve(s, n, REJECTED, who);
    ResolveInv(u, origin, s, n, REJECTED, who);
    forall c | c in origin && t.scripts[c] != origin[c] ensures FromConfirmed(t, c) {
      StaysConfirmed(s, t, c);
    }
  }

  lemma StepInv(u: Setup, origin: map<CaseId, seq<string>>, s: Store, e: Event)
    requires Inv(u, origin, s)
    ensures Inv(u, origin, Step(u, s, e))
  {
    match e {
      case ScanRun(q) => ScanInv(u, q, origin, s, Failures(q, q.results));
      case ConfirmHeal(n, who) =>
        if n < |s.heals| && s.heals[n].status == PROPOSED { ConfirmInv(u, origin, s, n, who); }
      case RejectHeal(n, who) =>
        if n < |s.heals| && s.heals[n].status == PROPOSED { RejectInv(u, origin, s, n, who); }
    }
  }

  lemma {:induction false} RunInv(u: Setup, origin: map<CaseId, seq<string>>, s: Store, es: seq<Event>)
    requires Inv(u, origin, s)
    ensures Inv(u, origin, Run(u, s, es))
    decreases |es|
  {
    if es != [] {
      StepInv(u, origin, s, es[0]);
      RunInv(u, origin, Step(u, s, es[0]), es[1..]);
    }
  }

  // ----- safety over whole runs -----

  /** From an empty heal table, whatever is scanned, confirmed and rejected: every case keeps
      its assertion lines, and a script differs from its origin only by a confirmed heal. */
  lemma HealingIsHonest(u: Setup, origin: map<CaseId, seq<string>>, es: seq<Event>, c: CaseId)
    requires c in origin && origin[c] != []
    ensures var s := Run(u, Store([], origin), es);
            && Current(s, c).Some?
            && AssertionLines(u.pattern, Current(s, c).value) == AssertionLines(u.pattern, origin[c][|origin[c]| - 1])
            && |s.scripts[c]| == |origin[c]| && s.scripts[c][..|origin[c]| - 1] == origin[c][..|origin[c]| - 1]
            && (Current(s, c).value != origin[c][|origin[c]| - 1] ==> FromConfirmed(s, c))
  {
    InvStart(u, origin);
    RunInv(u, origin, Store([], origin), es);
    var s := Run(u, Store([], origin), es);
    assert ScriptsOk(u, origin[c], s.scripts[c]);
  }

  /** Rows are never dropped or re-aimed, and a resolved row is frozen. */
  ghost predicate Extends(s: Store, t: Store) {
    && |s.heals| <= |t.heals|
    && forall i :: 0 <= i < |s.heals| ==>
         && t.heals[i].(status := PROPOSED, resolvedBy := None) == s.heals[i].(status := PROPOSED, resolvedBy := None)
         && (s.heals[i].status != PROPOSED ==> t.heals[i] == s.heals[i])
  }

  /** A row the scan `fs` may add to `s`: what the case's current script heals to, and one of
      the failures in `fs` is a location failure of that case. */
  ghost predicate Warranted(u: Setup, q: Scan, s: Store, fs: seq<Result>, h: HealRow) {
    && Candidate(u, q, s, h.caseId) == Some(h)
    && exists f :: f in fs && f.caseId == h.caseId && u.classify(f.outcome, f.message) == LOCATION
  }

  lemma WarrantGrows(u: Setup, q: Scan, s: Store, fs: seq<Result>, n: nat, h: HealRow)
    requires n <= |fs| && Warranted(u, q, s, fs[..n], h)
    ensures Warranted(u, q, s, fs, h)
  {
    var f :| f in fs[..n] && f.caseId == h.caseId && u.classify(f.outcome, f.message) == LOCATION;
    assert f in fs;
  }

  /** A candidate depends on the scripts only. */
  lemma SameCandidate(u: Setup, q: Scan, s: Store, m: Store, c: CaseId)
    requires m.scripts == s.scripts
    ensures Candidate(u, q, m, c) == Candidate(u, q, s, c)
  {
    assert Current(m, c) == Current(s, c);
  }

  lemma ProposeAppends(u: Setup, q: Scan, s: Store, c: CaseId)
    ensures var t := ProposeStep(u, q, s, c).0;
            && t.scripts == s.scripts
            && (t == s || (Candidate(u, q, s, c).Some? && t.heals == s.heals + [Candidate(u, q, s, c).value]))
  {
  }

  /** What one failure may add, when the store has gained rows but no script has changed. */
  lemma FailureAppends(u: Setup, q: Scan, s: Store, m: Store, r: Report, fs: seq<Result>, f: Result)
    requires m.scripts == s.scripts && f in fs
    ensures var t := FailureStep(u, q, (m, r), f).0;
            && m.heals <= t.heals && t.scripts == s.scripts && |t.heals| <= |m.heals| + 1
            && (|t.heals| > |m.heals| ==> Warranted(u, q, s, fs, t.heals[|m.heals|]))
  {
    SameCandidate(u, q, s, m, f.caseId);
    ProposeAppends(u, q, m, f.caseId);
  }

  lemma {:induction false} ScanOnlyAppends(u: Setup, q: Scan, s: Store, fs: seq<Result>)
    ensures var t := ScanSteps(u, q, s, fs).0;
            && s.heals <= t.heals && t.scripts == s.scripts
            && forall i :: |s.heals| <= i < |t.heals| ==> Warranted(u, q, s, fs, t.heals[i])
    decreases |fs|
  {
    if fs != [] {
      var n := |fs| - 1;
      var (m, r) := ScanSteps(u, q, s, fs[..n]);
      var t := ScanSteps(u, q, s, fs).0;
      ScanOnlyAppends(u, q, s, fs[..n]);
      FailureAppends(u, q, s, m, r, fs, fs[n]);
      forall i | |s.heals| <= i < |m.heals| ensures Warranted(u, q, s, fs, t.heals[i]) {
        WarrantGrows(u, q, s, fs, n, m.heals[i]);
      }
    }
  }

  /** Confidence in the order low, medium, high. */
  predicate AtLeast(c: Confidence, threshold: Confidence) {
    threshold == LOW || c == HIGH || (threshold == MEDIUM && c == MEDIUM)
  }

  /** When a heal may be proposed: a confident re-binding, a current script that addresses the
      old path outside its assertion lines, a path that really moves, and assertion lines that
      come out identical. */
  lemma CandidateIff(u: Setup, q: Scan, s: Store, c: CaseId)
    ensures Candidate(u, q, s, c).Some? <==>
            && c in q.resolve && AtLeast(q.resolve[c].confidence, u.threshold)
            && Current(s, c).Some?
            && var fix, code := q.resolve[c], Current(s, c).value;
               && AddressingPresent(u.pattern, code, fix.oldPath)
               && StripSlashes(fix.oldPath) != StripSlashes(fix.newPath)
               && AssertionsUnchanged(u.pattern, code, Heal(u.pattern, code, fix.oldPath, fix.newPath))
    ensures Candidate(u, q, s, c).Some? ==>
            var h := Candidate(u, q, s, c).value;
            && h == HealRow(q.run, c, q.resolve[c].oldPath, q.resolve[c].newPath, h.code, PROPOSED, None)
            && h.code == Heal(u.pattern, Current(s, c).value, q.resolve[c].oldPath, q.resolve[c].newPath)
  {
    if c in q.resolve && Current(s, c).Some? {
      UnchangedIffNotAddressed(u.pattern, Current(s, c).value, q.resolve[c].oldPath, q.resolve[c].newPath);
    }
  }

  /** Flagged, never silent: a scan touches no script and only adds proposed rows, each for a
      newly failing, previously passing case whose failure is a location failure. */
  lemma ScanIsFlagged(u: Setup, s: Store, q: Scan)
    ensures var t := Step(u, s, ScanRun(q));
            && s.heals <= t.heals && t.scripts == s.scripts
            && forall i :: |s.heals| <= i < |t.heals| ==>
                 Candidate(u, q, s, t.heals[i].caseId) == Some(t.heals[i]) &&
                 exists f :: f in q.results && f.caseId == t.heals[i].caseId && Failing(f.outcome) &&
                   f.caseId in q.passingBefore && u.classify(f.outcome, f.message) == LOCATION
  {
    var fs := Failures(q, q.results);
    ScanOnlyAppends(u, q, s, fs);
    var t := ScanSteps(u, q, s, fs).0;
    forall i | |s.heals| <= i < |t.heals|
      ensures exists f :: f in q.results && f.caseId == t.heals[i].caseId && Failing(f.outcome) &&
                f.caseId in q.passingBefore && u.classify(f.outcome, f.message) == LOCATION
    {
      assert Warranted(u, q, s, fs, t.heals[i]);
      var f :| f in fs && f.caseId == t.heals[i].caseId && u.classify(f.outcome, f.message) == LOCATION;
      var k :| 0 <= k < |fs| && fs[k] == f;
    }
  }

  lemma StepExtends(u: Setup, s: Store, e: Event)
    ensures Extends(s, Step(u, s, e))
  {
    if e.ScanRun? { ScanIsFlagged(u, s, e.q); }
  }

  /** A resolved heal never changes status again, over any continuation. */
  lemma {:induction false} ResolvedIsFinal(u: Setup, s: Store, es: seq<Event>)
    ensures Extends(s, Run(u, s, es))
    decreases |es|
  {
    if es != [] {
      StepExtends(u, s, es[0]);
      ResolvedIsFinal(u, Step(u, s, es[0]), es[1..]);
    }
  }

  // ----- what a confirmed heal does to the scripts -----

  /** Confirming a proposed row of a case with a script writes the row's code over its current
      script, resolves the row, and leaves every other script and row alone; without a script
      only the row is resolved. Any other confirm changes nothing. */
  lemma ConfirmApplies(u: Setup, s: Store, n: nat, who: string)
    ensures Confirmed(s, Step(u, s, ConfirmHeal(n, who)), n, who)
  {
  }

  predicate Confirmed(s: Store, t: Store, n: nat, who: string) {
    if n < |s.heals| && s.heals[n].status == PROPOSED then
      var c := s.heals[n].caseId;
      && t.heals == s.heals[n := s.heals[n].(status := CONFIRMED, resolvedBy := Some(who))]
      && t.scripts.Keys == s.scripts.Keys
      && (forall k :: k in s.scripts && k != c ==> t.scripts[k] == s.scripts[k])
      && (c in s.scripts ==>
            if s.scripts[c] == [] then t.scripts[c] == []
            else t.scripts[c] == s.scripts[c][..|s.scripts[c]| - 1] + [s.heals[n].code])
    else t == s
  }

  /** Rejecting a proposed row resolves it and touches no script; any other reject changes nothing. */
  lemma RejectDiscards(u: Setup, s: Store, n: nat, who: string)
    ensures Rejected(s, Step(u, s, RejectHeal(n, who)), n, who)
  {
  }

  predicate Rejected(s: Store, t: Store, n: nat, who: string) {
    && t.scripts == s.scripts
    && t.heals == if n < |s.heals| && s.heals[n].status == PROPOSED
                  then s.heals[n := s.heals[n].(status := REJECTED, resolvedBy := Some(who))] else s.heals
  }

  /** The event confirms a proposed row of case `c`. */
  predicate ConfirmsCase(s: Store, e: Event, c: CaseId) {
    e.ConfirmHeal? && e.n < |s.heals| && s.heals[e.n].status == PROPOSED && s.heals[e.n].caseId == c
  }

  /** The code of the last heal of `c` confirmed in the run, or `code` if there was none. */
  function LastApplied(u: Setup, s: Store, es: seq<Event>, c: CaseId, code: string): string
    decreases |es|
  {
    if es == [] then code
    else
      LastApplied(u, Step(u, s, es[0]), es[1..], c,
                  if ConfirmsCase(s, es[0], c) then s.heals[es[0].n].code else code)
  }

  lemma CurrentStep(u: Setup, s: Store, e: Event, c: CaseId)
    requires c in s.scripts && s.scripts[c] != []
    ensures var t := Step(u, s, e);
            && c in t.scripts && t.scripts[c] != []
            && t.scripts[c][|t.scripts[c]| - 1] ==
               if ConfirmsCase(s, e, c) then s.heals[e.n].code else s.scripts[c][|s.scripts[c]| - 1]
  {
    if e.ScanRun? { ScanOnlyAppends(u, e.q, s, Failures(e.q, e.q.results)); }
  }

  /** Over every run a case's current script is the code of its last confirmed heal, and stays
      that until the next one; before the first it is the script it started with. */
  lemma {:induction false} CurrentIsLastApplied(u: Setup, s: Store, es: seq<Event>, c: CaseId)
    requires c in s.scripts && s.scripts[c] != []
    ensures var t := Run(u, s, es);
            && c in t.scripts && t.scripts[c] != []
            && t.scripts[c][|t.scripts[c]| - 1] == LastApplied(u, s, es, c, s.scripts[c][|s.scripts[c]| - 1])
    decreases |es|
  {
    if es != [] {
      CurrentStep(u, s, es[0], c);
      CurrentIsLastApplied(u, Step(u, s, es[0]), es[1..], c);
    }
  }

  /** One re-addressing of one case is recorded once, over every run from an empty table. */
  lemma RecordedOnce(u: Setup, origin: map<CaseId, seq<string>>, es: seq<Event>)
    ensures var heals := Run(u, Store([], origin), es).heals;
            forall i, j :: 0 <= i < j < |heals| ==>
              !(heals[j].caseId == heals[i].caseId && heals[j].before == heals[i].before &&
                heals[j].after == heals[i].after)
  {
    InvStart(u, origin);
    RunInv(u, origin, Store([], origin), es);
  }

  // ----- the report -----

  datatype Bucket = HEALED | REAL_FINDING | UNHEALED

  /** Which bucket a failure belongs in, by the store before the scan: gone cases and location
      failures without a candidate are unhealed, other failures are real findings. */
  function BucketOf(u: Setup, q: Scan, s: Store, f: Result): Bucket {
    if f.caseId !in q.cases then UNHEALED
    else if u.classify(f.outcome, f.message) != LOCATION then REAL_FINDING
    else if Candidate(u, q, s, f.caseId).None? then UNHEALED
    else HEALED
  }

  /** The cases of the failures in one bucket, in order. */
  function CasesIn(u: Setup, q: Scan, s: Store, fs: seq<Result>, b: Bucket): (r: seq<CaseId>)
    ensures forall i :: 0 <= i < |r| && b == HEALED ==> Candidate(u, q, s, r[i]).Some?
  {
    if fs == [] then []
    else
      var n := |fs| - 1;
      CasesIn(u, q, s, fs[..n], b) + (if BucketOf(u, q, s, fs[n]) == b then [fs[n].caseId] else [])
  }

  /** The rows reported as healed re-address the healed cases, in order. */
  ghost predicate RowsFor(u: Setup, q: Scan, s: Store, heals: seq<HealRow>, rows: seq<nat>, cases: seq<CaseId>) {
    && |rows| == |cases|
    && forall i :: 0 <= i < |rows| ==> RowFor(u, q, s, heals, rows[i], cases[i])
  }

  lemma RowsStay(u: Setup, q: Scan, s: Store, heals: seq<HealRow>, more: seq<HealRow>, rows: seq<nat>,
                 cases: seq<CaseId>)
    requires RowsFor(u, q, s, heals, rows, cases) && heals <= more
    ensures RowsFor(u, q, s, more, rows, cases)
  {
    forall i | 0 <= i < |rows| ensures RowFor(u, q, s, more, rows[i], cases[i]) {
      assert RowFor(u, q, s, heals, rows[i], cases[i]);
      assert more[rows[i]] == heals[rows[i]];
    }
  }

  ghost predicate RowFor(u: Setup, q: Scan, s: Store, heals: seq<HealRow>, n: nat, c: CaseId) {
    && n < |heals| && Candidate(u, q, s, c).Some?
    && heals[n].caseId == c
    && heals[n].before == Candidate(u, q, s, c).value.before && heals[n].after == Candidate(u, q, s, c).value.after
  }

  /** One failure goes into its bucket; a healed one with a row, new or known, for its case. */
  lemma StepByBucket(u: Setup, q: Scan, s: Store, m: Store, r: Report, f: Result)
    requires m.scripts == s.scripts
    ensures var (t, r') := FailureStep(u, q, (m, r), f);
            && m.heals <= t.heals
            && match BucketOf(u, q, s, f)
               case REAL_FINDING => r' == r.(realFindings := r.realFindings + [f.caseId])
               case UNHEALED => r' == r.(unhealed := r.unhealed + [f.caseId])
               case HEALED => exists n :: RowFor(u, q, s, t.heals, n, f.caseId) && r' == r.(healed := r.healed + [n])
  {
    SameCandidate(u, q, s, m, f.caseId);
    if BucketOf(u, q, s, f) == HEALED {
      var n := ProposeStep(u, q, m, f.caseId).1.value;
      assert RowFor(u, q, s, ProposeStep(u, q, m, f.caseId).0.heals, n, f.caseId);
    }
  }

  ghost predicate ReportOk(u: Setup, q: Scan, s: Store, fs: seq<Result>, heals: seq<HealRow>, r: Report) {
    && r.realFindings == CasesIn(u, q, s, fs, REAL_FINDING)
    && r.unhealed == CasesIn(u, q, s, fs, UNHEALED)
    && RowsFor(u, q, s, heals, r.healed, CasesIn(u, q, s, fs, HEALED))
    && |r.healed| + |r.realFindings| + |r.unhealed| == |fs|
  }

  lemma ReportStep(u: Setup, q: Scan, s: Store, fs: seq<Result>, m: Store, r: Report)
    requires fs != [] && m.scripts == s.scripts && ReportOk(u, q, s, fs[..|fs| - 1], m.heals, r)
    ensures var (t, r') := FailureStep(u, q, (m, r), fs[|fs| - 1]); ReportOk(u, q, s, fs, t.heals, r')
  {
    var n := |fs| - 1;
    StepByBucket(u, q, s, m, r, fs[n]);
    RowsStay(u, q, s, m.heals, FailureStep(u, q, (m, r), fs[n]).0.heals, r.healed, CasesIn(u, q, s, fs[..n], HEALED));
  }

  /** Every scanned failure lands in exactly one bucket, in order: by whether its case still
      exists, whether it is a location failure, and whether a heal may be proposed for it. A
      healed failure is reported with the row that re-addresses its case. */
  lemma {:induction false} ReportIsExact(u: Setup, q: Scan, s: Store, fs: seq<Result>)
    ensures var (t, r) := ScanSteps(u, q, s, fs); ReportOk(u, q, s, fs, t.heals, r)
    decreases |fs|
  {
    if fs != [] {
      var (m, r) := ScanSteps(u, q, s, fs[..|fs| - 1]);
      ReportIsExact(u, q, s, fs[..|fs| - 1]);
      ScanOnlyAppends(u, q, s, fs[..|fs| - 1]);
      ReportStep(u, q, s, fs, m, r);
    }
  }

  // ----- idempotent scanning -----

  /** A scan would not add a row for `c`. */
  predicate Settled(u: Setup, q: Scan, s: Store, c: CaseId) {
    match Candidate(u, q, s, c)
    case None => true
    case Some(h) => FindDedup(s.heals, c, h.before, h.after).Some?
  }

  lemma SettledStays(u: Setup, q: Scan, s: Store, t: Store, c: CaseId)
    requires Settled(u, q, s, c) && s.heals <= t.heals && s.scripts == t.scripts
    ensures Settled(u, q, t, c)
  {
    match Candidate(u, q, s, c) {
      case None =>
      case Some(h) =>
        var n := FindDedup(s.heals, c, h.before, h.after).value;
        assert t.heals[n] == s.heals[n];
    }
  }

  lemma {:induction false} ScanSettles(u: Setup, q: Scan, s: Store, fs: seq<Result>)
    ensures forall f :: f in fs && f.caseId in q.cases && u.classify(f.outcome, f.message) == LOCATION ==>
              Settled(u, q, ScanSteps(u, q, s, fs).0, f.caseId)
    decreases |fs|
  {
    if fs != [] {
      var n := |fs| - 1;
      var m, t := ScanSteps(u, q, s, fs[..n]).0, ScanSteps(u, q, s, fs).0;
      ScanSettles(u, q, s, fs[..n]);
      assert m.heals <= t.heals && m.scripts == t.scripts;
      forall f | f in fs && f.caseId in q.cases && u.classify(f.outcome, f.message) == LOCATION
        ensures Settled(u, q, t, f.caseId)
      {
        if f in fs[..n] {
          SettledStays(u, q, m, t, f.caseId);
        } else {
          assert f == fs[n];
          ProposeSettles(u, q, m, f.caseId);
        }
      }
    }
  }

  lemma ProposeSettles(u: Setup, q: Scan, s: Store, c: CaseId)
    ensures Settled(u, q, ProposeStep(u, q, s, c).0, c)
  {
    var t := ProposeStep(u, q, s, c).0;
    if t != s {
      assert SameAddressing(t.heals[|s.heals|], c, q.resolve[c].oldPath, q.resolve[c].newPath);
    }
  }

  lemma {:induction false} SettledScan(u: Setup, q: Scan, s: Store, fs: seq<Result>)
    requires forall f :: f in fs && f.caseId in q.cases && u.classify(f.outcome, f.message) == LOCATION ==>
               Settled(u, q, s, f.caseId)
    ensures ScanSteps(u, q, s, fs).0 == s
    decreases |fs|
  {
    if fs != [] {
      assert fs[|fs| - 1] in fs;
      SettledScan(u, q, s, fs[..|fs| - 1]);
    }
  }

  /** Re-scanning a run records nothing twice. */
  lemma RescanIsIdempotent(u: Setup, s: Store, q: Scan)
    ensures Step(u, Step(u, s, ScanRun(q)), ScanRun(q)) == Step(u, s, ScanRun(q))
  {
    var fs := Failures(q, q.results);
    ScanSettles(u, q, s, fs);
    SettledScan(u, q, ScanSteps(u, q, s, fs).0, fs);
  }

  // ----- the service -----

  class HealService {
    const setup: Setup
    var heals: seq<HealRow>
    var scripts: map<CaseId, seq<string>>

    function View(): Store
      reads this
    {
      Store(heals, scripts)
    }

    constructor (setup: Setup, scripts: map<CaseId, seq<string>>)
      ensures this.setup == setup && View() == Store([], scripts)
    {
      this.setup, this.heals, this.scripts := setup, [], scripts;
    }

    method Propose(q: Scan, c: CaseId) returns (heal: Option<nat>)
      modifies this
      ensures (View(), heal) == ProposeStep(setup, q, old(View()), c)
    {
      if c !in q.resolve || Rank(q.resolve[c].confidence) < Rank(setup.threshold) {
        return None;
      }
      if c !in scripts || scripts[c] == [] {
        return None;
      }
      var original := scripts[c][|scripts[c]| - 1];
      var healedCode := ApplyRouteHeal(setup.pattern, original, q.resolve[c].oldPath, q.resolve[c].newPath);
      if healedCode == original {
        return None;
      }
      if !AssertionsUnchanged(setup.pattern, original, healedCode) {
        return None;
      }
      var existing := FindDedup(heals, c, q.resolve[c].oldPath, q.resolve[c].newPath);
      if existing.Some? {
        return existing;
      }
      heal := Some(|heals|);
      heals := heals + [HealRow(q.run, c, q.resolve[c].oldPath, q.resolve[c].newPath, healedCode, PROPOSED, None)];
    }

    method ScanRun(q: Scan) returns (report: Report)
      modifies this
      ensures (View(), report) == ScanSteps(setup, q, old(View()), Failures(q, q.results))
    {
      report := Report([], [], []);
      var failures := Failures(q, q.results);
      ghost var start := View();
      for n := 0 to |failures|
        invariant (View(), report) == ScanSteps(setup, q, start, failures[..n])
      {
        assert failures[..n + 1][..n] == failures[..n];
        var f := failures[n];
        if f.caseId !in q.cases {
          report := report.(unhealed := report.unhealed + [f.caseId]);
          continue;
        }
        if setup.classify(f.outcome, f.message) != LOCATION {
          report := report.(realFindings := report.realFindings + [f.caseId]);
          continue;
        }
        var heal := Propose(q, f.caseId);
        if heal.None? {
          report := report.(unhealed := report.unhealed + [f.caseId]);
        } else {
          report := report.(healed := report.healed + [heal.value]);
        }
      }
      assert failures[..|failures|] == failures;
    }

    /** Returns the row, or nothing when there is none with this number. */
    method ConfirmHeal(n: nat, who: string) returns (heal: Option<HealRow>)
      modifies this
      ensures View() == Step(setup, old(View()), Event.ConfirmHeal(n, who))
      ensures Confirmed(old(View()), View(), n, who)
      ensures heal == if n < |heals| then Some(heals[n]) else None
    {
      if n >= |heals| {
        return None;
      }
      if heals[n].status != PROPOSED {
        return Some(heals[n]);
      }
      var c := heals[n].caseId;
      if c in scripts && scripts[c] != [] {
        scripts := scripts[c := scripts[c][|scripts[c]| - 1 := heals[n].code]];
      }
      heals := heals[n := heals[n].(status := CONFIRMED, resolvedBy := Some(who))];
      heal := Some(heals[n]);
    }

    method RejectHeal(n: nat, who: string) returns (heal: Option<HealRow>)
      modifies this
      ensures View() == Step(setup, old(View()), Event.RejectHeal(n, who))
      ensures Rejected(old(View()), View(), n, who)
      ensures heal == if n < |heals| then Some(heals[n]) else None
    {
      if n >= |heals| {
        return None;
      }
      if heals[n].status != PROPOSED {
        return Some(heals[n]);
      }
      heals := heals[n := heals[n].(status := REJECTED, resolvedBy := Some(who))];
      heal := Some(heals[n]);
    }
  }
}
