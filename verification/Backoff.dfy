/** Exponential backoff between attempts. */
module Backoff {

  function Doubled(initial: int, times: nat): (r: int)
    requires initial > 0
    ensures r >= initial
  {
    if times == 0 then initial else 2 * Doubled(initial, times - 1)
  }

  function Min(a: int, b: int): int { if a <= b then a else b }

  /** Double with every attempt, but never beyond `max`. */
  function Capped(initial: int, max: int, attempt: int): int
    requires 0 < initial
  {
    if attempt <= 1 then initial else Min(Doubled(initial, attempt - 1), max)
  }

  /** The one case that the halved comparison in the loop decides differently: the doubled delay is one
      short of `max`. */
  predicate OneShort(initial: int, max: int, attempt: int)
    requires 0 < initial
  {
    attempt >= 2 && Doubled(initial, attempt - 1) + 1 == max
  }

  /** `left` rounds of the loop from `delay` on: stop at `max` once the next doubling could pass it. */
  function Rounds(delay: int, max: int, left: nat): int
    decreases left
  {
    if left == 0 then Min(delay, max)
    else if delay >= max / 2 then max
    else Rounds(2 * delay, max, left - 1)
  }

  function Delay(initial: int, max: int, attempt: int): int {
    if attempt <= 1 then initial else Rounds(initial, max, attempt - 1)
  }

  lemma {:induction false} DoubledGrows(initial: int, few: nat, many: nat)
    requires initial > 0 && few <= many
    ensures Doubled(initial, few) <= Doubled(initial, many)
    ensures few < many ==> 2 * Doubled(initial, few) <= Doubled(initial, many)
  {
    if few < many { DoubledGrows(initial, few, many - 1); }
  }

  lemma {:induction false} DoubledTwice(initial: int, times: nat)
    requires initial > 0
    ensures Doubled(2 * initial, times) == Doubled(initial, times + 1)
  {
    if times > 0 { DoubledTwice(initial, times - 1); }
  }

  /** The loop's halved comparison caps the doubling, but also takes one short of `max` for `max`. */
  lemma {:induction false} RoundsResult(delay: int, max: int, left: nat)
    requires 0 < delay <= max
    ensures Rounds(delay, max, left) ==
      if left > 0 && Doubled(delay, left) + 1 == max then max else Min(Doubled(delay, left), max)
    decreases left
  {
    if left > 0 {
      DoubledTwice(delay, left - 1);
      if delay >= max / 2 {
        DoubledGrows(delay, 1, left);
      } else {
        RoundsResult(2 * delay, max, left - 1);
      }
    }
  }

  /** The delay is the capped doubling except in the one case, where `max` is odd and the delay is one more. */
  lemma DelayIsCappedIff(initial: int, max: int, attempt: int)
    requires 0 < initial <= max
    ensures Delay(initial, max, attempt) == Capped(initial, max, attempt) <==> !OneShort(initial, max, attempt)
    ensures OneShort(initial, max, attempt) ==> Delay(initial, max, attempt) == max == Capped(initial, max, attempt) + 1
    ensures OneShort(initial, max, attempt) ==> max % 2 == 1
  {
    if attempt >= 2 { RoundsResult(initial, max, attempt - 1); }
    if OneShort(initial, max, attempt) { assert Doubled(initial, attempt - 1) == 2 * Doubled(initial, attempt - 2); }
  }

  /** Delays never shrink with the number of attempts and never leave [initial, max]. */
  lemma DelayGrows(initial: int, max: int, attempt: int, next: int)
    requires 0 < initial <= max && attempt <= next
    ensures initial <= Delay(initial, max, attempt) <= Delay(initial, max, next) <= max
  {
    if attempt >= 2 {
      DoubledGrows(initial, attempt - 1, next - 1);
      RoundsResult(initial, max, attempt - 1);
    }
    if next >= 2 { RoundsResult(initial, max, next - 1); }
  }

  /** PersistentWorker.backoff. No intermediate value exceeds `max`, so 64-bit durations do not overflow. */
  method ComputeBackoff(initial: int, max: int, attempt: int) returns (delay: int)
    requires 0 < initial <= max
    ensures delay == Delay(initial, max, attempt)
  {
    if attempt <= 1 { return initial; }
    delay := initial;
    for i := 1 to attempt
      invariant 0 < delay <= max
      invariant Delay(initial, max, attempt) == Rounds(delay, max, attempt - i)
    {
      if delay >= max / 2 { return max; }
      delay := delay * 2;
    }
    if delay > max { return max; }
  }
}
