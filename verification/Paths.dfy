/** Finite paths of any step relation. */
module Paths {

  /** The actions lead from one state to another, each by a step. */
  ghost predicate Leads<S(!new), A>(step: (S, A, S) -> bool, s: S, actions: seq<A>, r: S)
    decreases |actions|
  {
    if actions == [] then s == r
    else exists one: S :: step(s, actions[0], one) && Leads(step, one, actions[1..], r)
  }

  lemma ByOne<S(!new), A>(step: (S, A, S) -> bool, s: S, action: A, r: S)
    requires step(s, action, r)
    ensures Leads(step, s, [action], r)
  {
    assert [action][1..] == [];
    assert Leads(step, r, [], r);
  }

  lemma {:induction false} Further<S(!new), A>(
    step: (S, A, S) -> bool, s: S, first: seq<A>, mid: S, second: seq<A>, r: S)
    requires Leads(step, s, first, mid) && Leads(step, mid, second, r)
    ensures Leads(step, s, first + second, r)
    decreases |first|
  {
    if first == [] {
      assert first + second == second;
    } else {
      var one: S :| step(s, first[0], one) && Leads(step, one, first[1..], mid);
      Further(step, one, first[1..], mid, second, r);
      assert (first + second)[1..] == first[1..] + second;
    }
  }
}
