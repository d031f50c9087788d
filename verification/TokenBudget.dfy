/** Fitting an assembled prompt into a token budget. */
module TokenBudget {
  const CHARS_PER_TOKEN := 4

  const TRUNCATION_MARKER: string := "\n\U{2026}[context truncated to fit token budget]"

  /** The marker after `strip`: without its leading newline. */
  const BARE_MARKER: string := TRUNCATION_MARKER[1..]

  datatype Strategy = TRUNCATE | RAISE

  datatype PromptParts = PromptParts(instruction: string, userPrompt: string, contextText: string)

  datatype Assembled = Prompt(text: string) | BudgetExceeded(estimated: nat, budget: int)

  function EstimateTokens(text: string): nat {
    (|text| + CHARS_PER_TOKEN - 1) / CHARS_PER_TOKEN
  }

  function Render(p: PromptParts): string {
    p.instruction + "\n\n" + "## Task\n" + p.userPrompt + "\n\n" + "## Context\n" + p.contextText
  }

  /** Everything up to the context: the instruction and the task, whole. */
  function Head(p: PromptParts): string {
    p.instruction + "\n\n" + "## Task\n" + p.userPrompt + "\n\n" + "## Context\n"
  }

  predicate Fits(text: string, budget: int) { EstimateTokens(text) <= budget }

  /** The prompt holding the first `k` characters of the context and the marker. */
  function Cut(p: PromptParts, k: nat): string
    requires k <= |p.contextText|
  {
    Render(p.(contextText := p.contextText[..k] + TRUNCATION_MARKER))
  }

  function Minimal(p: PromptParts): string { Render(p.(contextText := BARE_MARKER)) }

  /** The estimate is an over-approximation in whole tokens, and fitting is a length bound. */
  lemma FitsIsLength(text: string, budget: int)
    ensures Fits(text, budget) <==> |text| <= CHARS_PER_TOKEN * budget
  {
  }

  lemma CutLength(p: PromptParts, k: nat)
    requires k <= |p.contextText|
    ensures |Cut(p, k)| == |Render(p)| - |p.contextText| + k + |TRUNCATION_MARKER|
    ensures |Minimal(p)| == |Render(p)| - |p.contextText| + |TRUNCATION_MARKER| - 1
  {
  }

  /** Shorter prefixes fit whenever longer ones do. */
  lemma ShorterFits(p: PromptParts, j: nat, k: nat, budget: int)
    requires j <= k <= |p.contextText| && Fits(Cut(p, k), budget)
    ensures Fits(Cut(p, j), budget)
  {
    CutLength(p, j);
    CutLength(p, k);
    FitsIsLength(Cut(p, j), budget);
    FitsIsLength(Cut(p, k), budget);
  }

  /** What a truncated result may look like: the longest prefix that fits is at most a
      seventh longer than the one kept. */
  ghost predicate NearOptimal(p: PromptParts, budget: int, text: string) {
    exists k: nat ::
      && 0 < k <= |p.contextText| && text == Cut(p, k) && Fits(text, budget)
      && forall j: nat :: j <= |p.contextText| && Fits(Cut(p, j), budget) ==> 8 * k >= 7 * j
  }

  lemma ShrinkIsNearOptimal(p: PromptParts, budget: int, n: nat, k: nat)
    requires 0 < n <= |p.contextText|
    requires k == n - (if n / 8 < 1 then 1 else n / 8)
    requires !Fits(Cut(p, n), budget)
    ensures forall j: nat :: j <= |p.contextText| && Fits(Cut(p, j), budget) ==> 8 * k >= 7 * j
  {
    forall j: nat | j <= |p.contextText| && Fits(Cut(p, j), budget) ensures 8 * k >= 7 * j {
      if j >= n { ShorterFits(p, n, j, budget); }
    }
  }

  /** Instruction and task are whole in every form of the prompt. */
  lemma InstructionAndTaskKept(p: PromptParts, k: nat)
    requires k <= |p.contextText|
    ensures Render(p) == Head(p) + p.contextText
    ensures Cut(p, k) == Head(p) + p.contextText[..k] + TRUNCATION_MARKER
    ensures Minimal(p) == Head(p) + BARE_MARKER
  {
    assert Cut(p, k) == Head(p) + (p.contextText[..k] + TRUNCATION_MARKER);
  }

  method BuildWithinBudget(p: PromptParts, budget: int, strategy: Strategy) returns (r: Assembled)
    ensures Fits(Render(p), budget) ==> r == Prompt(Render(p))
    ensures !Fits(Render(p), budget) && strategy.RAISE? ==> r == BudgetExceeded(EstimateTokens(Render(p)), budget)
    ensures !Fits(Render(p), budget) && strategy.TRUNCATE? ==>
              match r
              case BudgetExceeded(estimated, b) =>
                !Fits(Minimal(p), budget) && estimated == EstimateTokens(Minimal(p)) && b == budget
              case Prompt(text) =>
                Fits(Minimal(p), budget) &&
                (NearOptimal(p, budget, text) ||
                 (text == Minimal(p) && forall j: nat :: 0 < j <= |p.contextText| ==> !Fits(Cut(p, j), budget)))
    ensures r.Prompt? ==> Fits(r.text, budget) && Head(p) <= r.text
  {
    var full := Render(p);
    if EstimateTokens(full) <= budget {
      return Prompt(full);
    }
    if strategy == RAISE {
      return BudgetExceeded(EstimateTokens(full), budget);
    }
    var minimal := Render(p.(contextText := BARE_MARKER));
    if EstimateTokens(minimal) > budget {
      return BudgetExceeded(EstimateTokens(minimal), budget);
    }
    var context := p.contextText;
    while context != ""
      invariant context <= p.contextText
      invariant |context| < |p.contextText| ==>
                  forall j: nat :: j <= |p.contextText| && Fits(Cut(p, j), budget) ==> 8 * |context| >= 7 * j
      decreases |context|
    {
      var candidate := Render(p.(contextText := context + TRUNCATION_MARKER));
      InstructionAndTaskKept(p, |context|);
      assert context == p.contextText[..|context|] && candidate == Cut(p, |context|);
      if EstimateTokens(candidate) <= budget {
        assert NearOptimal(p, budget, candidate);
        return Prompt(candidate);
      }
      var drop := if |context| / 8 < 1 then 1 else |context| / 8;
      ShrinkIsNearOptimal(p, budget, |context|, |context| - drop);
      context := context[..|context| - drop];
    }
    r := Prompt(minimal);
  }
}
