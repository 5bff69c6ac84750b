/** Widening a truncated counter to 64 bits around the largest value seen
    (media/src/transportcc.rs, `expand_truncated_counter`). */
module TruncatedCounter {
  import opened Bytes

  /** Two to the width of a truncated counter: 8, 15, 16 or 32 bits here. */
  predicate IsModulus(m: nat) { m in {0x100, 0x8000, 0x1_0000, 0x1_0000_0000} }

  /** How many wraps to put in front of `truncated`, after `roc` wraps and low part `low`. */
  function Wraps(truncated: nat, low: nat, roc: nat, m: nat): nat {
    if low > truncated && low - truncated > m / 2 then roc + 1
    else if roc > 0 && truncated > low && truncated - low > m / 2 then roc - 1
    else roc
  }

  function Expand(truncated: nat, max: nat, m: nat): nat
    requires IsModulus(m) && truncated < m
  {
    Wraps(truncated, max % m, max / m, m) * m + truncated
  }

  function Max(a: nat, b: nat): nat { if a < b then b else a }

  lemma Distributes(a: int, b: int, m: int)
    ensures (a + b) * m == a * m + b * m
  {
  }

  lemma Nonnegative(a: nat, m: nat)
    ensures a * m >= 0
  {
  }

  lemma MultiplesApart(a: int, b: int, m: nat)
    ensures a == b + 1 ==> a * m == b * m + m
    ensures a > b + 1 ==> a * m >= b * m + 2 * m
  {
    Distributes(b, a - b, m);
    if a > b + 1 {
      Distributes(a - b - 2, 2, m);
      Nonnegative(a - b - 2, m);
    }
  }

  /** The wraps are right exactly when the two values are close enough. */
  lemma WrapsExact(q: nat, t: nat, roc: nat, low: nat, m: nat)
    requires t < m && low < m && m % 2 == 0
    ensures var (full, max) := (q * m + t, roc * m + low);
            Wraps(t, low, roc, m) == q
            <==> || Distance(full, max) < m / 2
                 || (Distance(full, max) == m / 2 && q == roc)
                 || (q == roc == 0 && max < full)
  {
    MultiplesApart(q, roc, m);
    MultiplesApart(roc, q, m);
  }

  /** The full value comes back exactly when it is less than half the modulus from the largest one
      seen, or half of it away without a wrap between, or ahead of it before the first wrap. */
  lemma ExpandExact(full: nat, max: nat, m: nat)
    requires IsModulus(m)
    ensures Expand(full % m, max, m) == full
            <==> || Distance(full, max) < m / 2
                 || (Distance(full, max) == m / 2 && full / m == max / m)
                 || (full / m == max / m == 0 && max < full)
  {
    hide Wraps;
    var (q, t, roc, low) := (full / m, full % m, max / m, max % m);
    var r := Wraps(t, low, roc, m);
    DivMod(full, m);
    DivMod(max, m);
    WrapsExact(q, t, roc, low, m);
    MultiplesApart(r, q, m);
    MultiplesApart(q, r, m);
  }

  lemma DivMod(n: nat, m: nat)
    requires IsModulus(m)
    ensures n == n / m * m + n % m && n % m < m && m % 2 == 0 && m > 0
  {
  }

  /** A counter that is itself the largest value seen, and has not wrapped, is kept. */
  lemma ExpandFirst(n: nat, m: nat)
    requires IsModulus(m) && n < m
    ensures Expand(n, n, m) == n
  {
  }

  /** The largest of a run of values. */
  function Largest(xs: seq<nat>): nat
    requires xs != []
  {
    if |xs| == 1 then xs[0] else Max(Largest(xs[..|xs| - 1]), xs[|xs| - 1])
  }

  /** The values widened from the low parts of `xs`, the first one on its own, and the largest of them. */
  function ExpandRun(xs: seq<nat>, m: nat): (r: (seq<nat>, nat))
    requires IsModulus(m) && xs != []
    decreases |xs|
  {
    var n := |xs| - 1;
    if n == 0 then ([xs[0] % m], xs[0] % m)
    else
      var (done, max) := ExpandRun(xs[..n], m);
      var full := Expand(xs[n] % m, max, m);
      (done + [full], Max(max, full))
  }

  /** Over every run: when the first value has not wrapped and each later one is less than half the
      modulus from the largest before it, widening the low parts gives all the values back. */
  lemma {:induction false} ExpandRunExact(xs: seq<nat>, m: nat)
    requires IsModulus(m) && xs != [] && xs[0] < m
    requires forall i :: 0 < i < |xs| ==> Distance(xs[i], Largest(xs[..i])) < m / 2
    ensures ExpandRun(xs, m) == (xs, Largest(xs))
    decreases |xs|
  {
    hide Expand, IsModulus, Distance, Largest;
    var n := |xs| - 1;
    LargestGrows(xs);
    if n == 0 {
      FirstUnwrapped(xs, m);
    } else {
      var before := xs[..n];
      assert forall i :: 0 < i < n ==> before[..i] == xs[..i];
      ExpandRunExact(before, m);
      ExpandNear(xs[n], Largest(before), m);
      assert before + [xs[n]] == xs;
    }
  }

  lemma LargestGrows(xs: seq<nat>)
    requires xs != []
    ensures |xs| == 1 ==> Largest(xs) == xs[0]
    ensures |xs| > 1 ==> Largest(xs) == Max(Largest(xs[..|xs| - 1]), xs[|xs| - 1])
  {
  }

  lemma ExpandNear(full: nat, max: nat, m: nat)
    requires IsModulus(m) && Distance(full, max) < m / 2
    ensures full % m < m && Expand(full % m, max, m) == full
  {
    ExpandExact(full, max, m);
  }

  lemma FirstUnwrapped(xs: seq<nat>, m: nat)
    requires IsModulus(m) && |xs| == 1 && xs[0] < m
    ensures [xs[0] % m] == xs && xs[0] % m == xs[0]
  {
  }
}
