/** Distances in a directed graph given by its edge relation. */
module Graph {

  /** `v` is at most `d` edges away from `start`. */
  ghost predicate Within<N(!new)>(g: (N, N) -> bool, start: N, d: nat, v: N) {
    if d == 0 then v == start
    else Within(g, start, d - 1, v) || exists u :: Within(g, start, d - 1, u) && g(u, v)
  }

  lemma {:induction false} WithinGrows<N(!new)>(g: (N, N) -> bool, start: N, d: nat, e: nat, v: N)
    requires d <= e && Within(g, start, d, v)
    ensures Within(g, start, e, v)
  {
    if d < e { WithinGrows(g, start, d, e - 1, v); }
  }

  /** `v` is exactly `d` edges away from `start`. */
  ghost predicate Distance<N(!new)>(g: (N, N) -> bool, start: N, d: nat, v: N) {
    Within(g, start, d, v) && forall e: nat :: e < d ==> !Within(g, start, e, v)
  }
}
