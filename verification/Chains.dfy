/** Following a partial step again and again: the common shape of reference and alias resolution. */
module Chains {
  import opened Wrappers

  /** Where at most this many steps lead; a value without a next one is where the chain stays. */
  function After<T>(next: T -> Option<T>, x: T, steps: nat): T
    decreases steps
  {
    if steps == 0 then x
    else
      match next(x)
      case None => x
      case Some(y) => After(next, y, steps - 1)
  }

  lemma {:induction false} AfterSum<T>(next: T -> Option<T>, x: T, a: nat, b: nat)
    ensures After(next, x, a + b) == After(next, After(next, x, a), b)
    decreases a
  {
    match next(x)
    case None =>
    case Some(y) =>
      if a > 0 {
        AfterSum(next, y, a - 1, b);
      }
  }

  /** Coming to the same value again only leads round: the part in between can be left out. */
  lemma ShortCut<T>(next: T -> Option<T>, x: T, i: nat, j: nat, steps: nat)
    requires i <= j <= steps && After(next, x, i) == After(next, x, j)
    ensures After(next, x, steps - (j - i)) == After(next, x, steps)
  {
    AfterSum(next, x, i, steps - j);
    AfterSum(next, x, j, steps - j);
  }

  /** The first step after which the chain is somewhere with the property. */
  lemma First<T>(next: T -> Option<T>, x: T, found: T -> bool, steps: nat) returns (first: nat)
    requires found(After(next, x, steps))
    ensures first <= steps && found(After(next, x, first))
    ensures forall k: nat :: k < first ==> !found(After(next, x, k))
    decreases steps
  {
    if k: nat :| k < steps && found(After(next, x, k)) {
      first := First(next, x, found, k);
    } else {
      first := steps;
    }
  }
}
