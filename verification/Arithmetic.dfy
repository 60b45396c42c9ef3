/** The facts about products that the bounds need; the solver finds them best alone. */
module Arithmetic {

  /** What `count` events cost when each but the first costs `d`. */
  function AllButTheFirst(count: nat, d: nat): nat {
    if count <= 1 then 0 else AllButTheFirst(count - 1, d) + d
  }

  lemma OneMoreThanTheFirst(count: nat, d: nat)
    ensures AllButTheFirst(count + 1, d) == AllButTheFirst(count, d) + if count > 0 then d else 0
  {
  }

  lemma {:induction false} OneMore(k: int, d: int)
    ensures (k + 1) * d == k * d + d
  {
  }

  lemma {:induction false} Scaled(x: int, y: int, d: nat)
    requires x <= y
    ensures x * d <= y * d
  {
  }

  lemma {:induction false} AllButTheFirstIsTimes(count: nat, d: nat)
    requires count > 0
    ensures AllButTheFirst(count, d) == (count - 1) * d
  {
    if count > 1 {
      AllButTheFirstIsTimes(count - 1, d);
      OneMore(count - 2, d);
    }
  }

  /** A span that holds `count` events, all but the first `d` after another, bounds any `n` below them. */
  lemma Spread(n: int, count: nat, d: nat, span: nat)
    requires n <= count - 1 && AllButTheFirst(count, d) <= span
    ensures n * d <= span
  {
    Scaled(n, count - 1, d);
    if count > 0 {
      AllButTheFirstIsTimes(count, d);
    } else {
      Scaled(count - 1, 0, d);
    }
  }
}
