/** Per-model day-quota exhaustion: an in-memory table that forgets on read. */
module DayRegistry {
  import opened Prelude

  const DAY: real := 86400.0

  /** Epoch seconds of the next 00:00 UTC. */
  function NextUtcMidnight(now: real): real {
    ((now / DAY).Floor as real + 1.0) * DAY
  }

  /** 00:00 UTC of day number `day`. */
  function DayStart(day: int): real { day as real * DAY }

  /** The reset point is the first day boundary strictly after `now`. */
  lemma MidnightIsNext(now: real)
    ensures exists day :: NextUtcMidnight(now) == DayStart(day)
    ensures now < NextUtcMidnight(now) <= now + DAY
    ensures forall day :: DayStart(day) > now ==> NextUtcMidnight(now) <= DayStart(day)
  {
    var q := now / DAY;
    var f := q.Floor;
    assert f as real <= q < f as real + 1.0;
    assert q * DAY == now;
    assert NextUtcMidnight(now) == DayStart(f + 1);
    forall day | DayStart(day) > now ensures NextUtcMidnight(now) <= DayStart(day) {
      assert day as real > q;
      assert day >= f + 1;
    }
  }

  type Table = map<string, real>

  function Asked(t: Table, model: string, now: real): (Table, bool) {
    if model !in t then (t, false)
    else if now >= t[model] then (t - {model}, false)
    else (t, true)
  }

  function Marked(t: Table, model: string, now: real): Table {
    t[model := NextUtcMidnight(now)]
  }

  // ----- against the rule without a table -----

  datatype Event = Mark(model: string, at: real) | Ask(model: string, at: real)

  function Replay(es: seq<Event>): Table {
    if es == [] then map[]
    else
      var t := Replay(es[..|es| - 1]);
      match es[|es| - 1]
      case Mark(m, at) => Marked(t, m, at)
      case Ask(m, at) => Asked(t, m, at).0
  }

  function LastMark(es: seq<Event>, model: string): Option<real> {
    if es == [] then None
    else
      match es[|es| - 1]
      case Mark(m, at) => if m == model then Some(at) else LastMark(es[..|es| - 1], model)
      case Ask(_, _) => LastMark(es[..|es| - 1], model)
  }

  /** Exhausted iff the midnight after the last mark is still ahead. */
  predicate Rule(es: seq<Event>, model: string, now: real) {
    LastMark(es, model).Some? && now < NextUtcMidnight(LastMark(es, model).value)
  }

  /** Some question about the model since its last mark was asked at or past that mark's midnight. */
  predicate ReadPast(es: seq<Event>, model: string) {
    es != [] &&
    var init := es[..|es| - 1];
    match es[|es| - 1]
    case Mark(m, _) => m != model && ReadPast(init, model)
    case Ask(m, at) =>
      ReadPast(init, model) ||
      (m == model && LastMark(init, model).Some? && at >= NextUtcMidnight(LastMark(init, model).value))
  }

  /** What the table knows about a model, whatever the clock does: its last mark, unless a
      question past that mark's midnight dropped it. */
  lemma {:induction false} TableMatches(es: seq<Event>, model: string)
    ensures var t := Replay(es);
            && (model in t <==> LastMark(es, model).Some? && !ReadPast(es, model))
            && (model in t ==> t[model] == NextUtcMidnight(LastMark(es, model).value))
    decreases |es|
  {
    if es != [] { TableMatches(es[..|es| - 1], model); }
  }

  /** With no assumption about the clock, delete-on-read answers as the rule except when the
      rule still says exhausted and a question past that midnight has been asked before. */
  lemma {:induction false} AnswersAsRuleIff(es: seq<Event>, model: string, now: real)
    ensures Asked(Replay(es), model, now).1 == Rule(es, model, now) <==>
            !(Rule(es, model, now) && ReadPast(es, model))
    ensures Asked(Replay(es), model, now).1 ==> Rule(es, model, now)
  {
    TableMatches(es, model);
  }

  predicate NonDecreasing(es: seq<Event>) {
    forall i, j :: 0 <= i < j < |es| ==> es[i].at <= es[j].at
  }

  lemma OneLater(es: seq<Event>, e: Event)
    requires NonDecreasing(es) && (es != [] ==> es[|es| - 1].at <= e.at)
    ensures NonDecreasing(es + [e])
  {
  }

  lemma ReplayOneMore(es: seq<Event>, e: Event)
    ensures Replay(es + [e]) ==
            if e.Mark? then Marked(Replay(es), e.model, e.at) else Asked(Replay(es), e.model, e.at).0
  {
    assert (es + [e])[..|es|] == es;
  }

  lemma {:induction false} ReadPastMeansOver(es: seq<Event>, model: string)
    requires NonDecreasing(es) && ReadPast(es, model)
    ensures LastMark(es, model).Some? && es[|es| - 1].at >= NextUtcMidnight(LastMark(es, model).value)
    decreases |es|
  {
    var init := es[..|es| - 1];
    if ReadPast(init, model) { ReadPastMeansOver(init, model); }
  }

  /** So under a clock that never goes back it answers exactly as the rule. */
  lemma {:induction false} AnswersAsRule(es: seq<Event>, model: string, now: real)
    requires NonDecreasing(es) && (es != [] ==> es[|es| - 1].at <= now)
    ensures Asked(Replay(es), model, now).1 == Rule(es, model, now)
  {
    AnswersAsRuleIff(es, model, now);
    if ReadPast(es, model) { ReadPastMeansOver(es, model); }
  }

  /** With a clock that steps back over midnight it does not: the read in between forgot. */
  lemma BackwardClockForgets()
    ensures var es := [Mark("m", 0.0), Ask("m", 90000.0)];
            Rule(es, "m", 10.0) && !Asked(Replay(es), "m", 10.0).1
  {
    var es := [Mark("m", 0.0), Ask("m", 90000.0)];
    assert (0.0 / DAY).Floor == 0;
    assert es[..1] == [Mark("m", 0.0)] && es[..1][..0] == [];
    assert Replay(es[..1]) == map["m" := 86400.0];
    assert Replay(es) == map[];
  }

  class DayExhaustionRegistry {
    var resetAt: Table

    constructor ()
      ensures resetAt == map[]
    {
      resetAt := map[];
    }

    method IsExhausted(model: string, now: real) returns (r: bool)
      modifies this
      ensures (resetAt, r) == Asked(old(resetAt), model, now)
    {
      if model !in resetAt {
        return false;
      }
      if now >= resetAt[model] {
        resetAt := resetAt - {model};
        return false;
      }
      r := true;
    }

    method Mark(model: string, now: real)
      modifies this
      ensures resetAt == Marked(old(resetAt), model, now)
    {
      resetAt := resetAt[model := NextUtcMidnight(now)];
    }
  }
}
