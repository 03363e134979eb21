/** The check digit of an NF-e access key: 43 digits weighted 2 to 9 from the right, modulo 11. */
module AccessKey {

  const PREFIX: nat := 43

  predicate IsDigit(c: char) {
    '0' <= c <= '9'
  }

  predicate AllDigits(value: string) {
    forall i | 0 <= i < |value| :: IsDigit(value[i])
  }

  function Digit(c: char): nat
    requires IsDigit(c)
  {
    c as int - '0' as int
  }

  function Weight(index: nat): nat
    requires index < PREFIX
  {
    2 + (PREFIX - 1 - index) % 8
  }

  /** The weighted digits from position `from` up to the end of the prefix. */
  function WeightedSum(value: string, from: nat): nat
    requires PREFIX <= |value| && AllDigits(value) && from <= PREFIX
    decreases |value|, PREFIX - from
  {
    if from == PREFIX then 0 else Digit(value[from]) * Weight(from) + WeightedSum(value, from + 1)
  }

  function Remainder(value: string): nat
    requires PREFIX <= |value| && AllDigits(value)
  {
    WeightedSum(value, 0) % 11
  }

  function CheckDigit(remainder: nat): nat
    requires remainder < 11
  {
    if remainder <= 1 then 0 else 11 - remainder
  }

  predicate Accepted(value: string) {
    |value| == 44 && AllDigits(value) && Digit(value[43]) == CheckDigit(Remainder(value))
  }

  method IsValidAccessKey(value: string) returns (valid: bool)
    ensures valid <==> Accepted(value)
  {
    if |value| != 44 || !AllDigits(value) {
      return false;
    }
    var sum, weight, index := 0, 2, 42;
    while index >= 0
      invariant -1 <= index <= 42
      invariant sum == WeightedSum(value, index + 1)
      invariant weight == 2 + (42 - index) % 8
    {
      NextWeight(42 - index);
      sum := sum + Digit(value[index]) * weight;
      weight := if weight == 9 then 2 else weight + 1;
      index := index - 1;
    }
    var remainder := sum % 11;
    var expected := if remainder <= 1 then 0 else 11 - remainder;
    valid := Digit(value[43]) == expected;
  }

  lemma NextWeight(steps: nat)
    ensures 2 + (steps + 1) % 8 == if 2 + steps % 8 == 9 then 2 else 2 + steps % 8 + 1
  {
  }

  /** Keys that agree from `from` on have the same weighted sum there. */
  lemma {:induction false} SumDependsOnDigits(left: string, right: string, from: nat)
    requires |left| >= PREFIX && |right| >= PREFIX && AllDigits(left) && AllDigits(right) && from <= PREFIX
    requires forall i | from <= i < PREFIX :: left[i] == right[i]
    ensures WeightedSum(left, from) == WeightedSum(right, from)
    decreases PREFIX - from
  {
    if from < PREFIX {
      SumDependsOnDigits(left, right, from + 1);
    }
  }

  /** Every 43-digit prefix is completed by exactly one check digit. */
  lemma ExactlyOneCheckDigit(prefix: string)
    requires |prefix| == PREFIX && AllDigits(prefix)
    ensures exists c :: Accepted(prefix + [c])
    ensures forall c, d | Accepted(prefix + [c]) && Accepted(prefix + [d]) :: c == d
  {
    forall c | IsDigit(c) ensures AllDigits(prefix + [c]) && Remainder(prefix + [c]) == Remainder(prefix) {
      SumDependsOnDigits(prefix, prefix + [c], 0);
    }
    forall c, d | Accepted(prefix + [c]) && Accepted(prefix + [d]) ensures c == d {
      assert (prefix + [c])[43] == c && (prefix + [d])[43] == d;
    }
    var digit := CheckDigit(Remainder(prefix));
    var c := '0' + digit as char;
    assert (prefix + [c])[43] == c && Digit(c) == digit;
    assert Accepted(prefix + [c]);
  }

  lemma Distributes(a: int, b: int, w: int)
    ensures a * w - b * w == (a - b) * w
  {
  }

  /** The sums of two keys that differ at one position differ by the weighted difference of the digits. */
  lemma {:induction false} ChangedSum(key: string, changed: string, at: nat, from: nat)
    requires |key| == |changed| == 44 && AllDigits(key) && AllDigits(changed) && from <= at < PREFIX
    requires forall i | 0 <= i < PREFIX && i != at :: changed[i] == key[i]
    ensures WeightedSum(changed, from) - WeightedSum(key, from) == (Digit(changed[at]) - Digit(key[at])) * Weight(at)
    decreases PREFIX - from
  {
    if from < at {
      ChangedSum(key, changed, at, from + 1);
    } else {
      SumDependsOnDigits(key, changed, at + 1);
      Distributes(Digit(changed[at]), Digit(key[at]), Weight(at));
    }
  }

  /** Eleven divides no product of a digit difference and a weight. */
  lemma NotDivisible(difference: int, weight: nat)
    requires -9 <= difference <= 9 && difference != 0 && 1 <= weight <= 9
    ensures (difference * weight) % 11 != 0
  {
    if difference > 0 {
      NotDivisibleByTable(difference, weight);
    } else {
      NotDivisibleByTable(-difference, weight);
      assert difference * weight == -(-difference * weight);
    }
  }

  lemma NotDivisibleByTable(d: nat, w: nat)
    requires 1 <= d <= 9 && 1 <= w <= 9
    ensures (d * w) % 11 != 0
  {
    if w == 1 { assert d * w == d; }
    else if w == 2 { assert d * w == 2 * d; }
    else if w == 3 { assert d * w == 3 * d; }
    else if w == 4 { assert d * w == 4 * d; }
    else if w == 5 { assert d * w == 5 * d; }
    else if w == 6 { assert d * w == 6 * d; }
    else if w == 7 { assert d * w == 7 * d; }
    else if w == 8 { assert d * w == 8 * d; }
    else { assert d * w == 9 * d; }
  }

  lemma DifferentRemainders(x: nat, y: nat)
    requires (y - x) % 11 != 0
    ensures x % 11 != y % 11
  {
  }

  /** A key with another remainder and the same check digit is accepted exactly when both remainders give zero. */
  lemma RemainderDecides(key: string, changed: string)
    requires Accepted(key) && |changed| == 44 && AllDigits(changed) && changed[43] == key[43]
    requires Remainder(changed) != Remainder(key)
    ensures Accepted(changed) <==> key[43] == '0' && Remainder(changed) <= 1
  {
  }

  /** A changed digit goes unnoticed exactly when the check digit is zero and the new remainder is 0 or 1. */
  lemma ChangedDigit(key: string, at: nat, c: char)
    requires Accepted(key) && at < PREFIX && IsDigit(c) && c != key[at]
    ensures AllDigits(key[at := c])
    ensures Accepted(key[at := c]) <==> key[43] == '0' && Remainder(key[at := c]) <= 1
  {
    ChangedSum(key, key[at := c], at, 0);
    NotDivisible(Digit(c) - Digit(key[at]), Weight(at));
    DifferentRemainders(WeightedSum(key, 0), WeightedSum(key[at := c], 0));
    RemainderDecides(key, key[at := c]);
  }

  function Swapped(key: string, at: nat): string
    requires at + 1 < |key|
  {
    key[at := key[at + 1]][at + 1 := key[at]]
  }

  /** The same for two neighbouring digits exchanged. */
  lemma SwappedDigits(key: string, at: nat)
    requires Accepted(key) && at + 1 < PREFIX && key[at] != key[at + 1]
    ensures AllDigits(Swapped(key, at))
    ensures Accepted(Swapped(key, at)) <==> key[43] == '0' && Remainder(Swapped(key, at)) <= 1
  {
    SwappedSum(key, key[at := key[at + 1]], Swapped(key, at), at);
    NeighbourWeights(at);
    NotDivisibleByGap(Digit(key[at + 1]) - Digit(key[at]), Weight(at) - Weight(at + 1));
    DifferentRemainders(WeightedSum(key, 0), WeightedSum(Swapped(key, at), 0));
    RemainderDecides(key, Swapped(key, at));
  }

  lemma NeighbourWeights(at: nat)
    requires at + 1 < PREFIX
    ensures Weight(at) - Weight(at + 1) == 1 || Weight(at) - Weight(at + 1) == -7
  {
  }

  lemma NotDivisibleByGap(difference: int, gap: int)
    requires -9 <= difference <= 9 && difference != 0 && (gap == 1 || gap == -7)
    ensures (difference * gap) % 11 != 0
  {
    if gap == 1 {
      NotDivisible(difference, 1);
    } else {
      NotDivisible(-difference, 7);
      assert difference * gap == -difference * 7;
    }
  }

  lemma SwappedSum(key: string, once: string, twice: string, at: nat)
    requires |key| == 44 && AllDigits(key) && at + 1 < PREFIX
    requires once == key[at := key[at + 1]] && twice == once[at + 1 := key[at]]
    ensures AllDigits(twice)
    ensures WeightedSum(twice, 0) - WeightedSum(key, 0)
            == (Digit(key[at + 1]) - Digit(key[at])) * (Weight(at) - Weight(at + 1))
  {
    hide WeightedSum, Weight;
    FirstChange(key, once, at, key[at + 1]);
    FirstChange(once, twice, at + 1, key[at]);
    CombineChanges(key, once, twice, at);
  }

  lemma CombineChanges(key: string, once: string, twice: string, at: nat)
    requires |key| == |once| == |twice| == 44 && AllDigits(key) && AllDigits(once) && AllDigits(twice)
             && at + 1 < PREFIX
    requires once[at + 1] == key[at + 1]
    requires WeightedSum(once, 0) == WeightedSum(key, 0) + (Digit(key[at + 1]) - Digit(key[at])) * Weight(at)
    requires WeightedSum(twice, 0) == WeightedSum(once, 0) + (Digit(key[at]) - Digit(once[at + 1])) * Weight(at + 1)
    ensures WeightedSum(twice, 0) - WeightedSum(key, 0)
            == (Digit(key[at + 1]) - Digit(key[at])) * (Weight(at) - Weight(at + 1))
  {
    Regroup(Digit(key[at]), Digit(key[at + 1]), Weight(at), Weight(at + 1));
  }

  lemma FirstChange(key: string, changed: string, at: nat, c: char)
    requires |key| == 44 && AllDigits(key) && at < PREFIX && IsDigit(c) && changed == key[at := c]
    ensures AllDigits(changed)
    ensures WeightedSum(changed, 0) == WeightedSum(key, 0) + (Digit(c) - Digit(key[at])) * Weight(at)
  {
    ChangedSum(key, changed, at, 0);
  }

  lemma Regroup(a: int, b: int, v: int, w: int)
    ensures (b - a) * v + (a - b) * w == (b - a) * (v - w)
  {
  }

  /** With a nonzero check digit no single wrong digit and no exchange of neighbours is ever accepted. */
  lemma NonzeroCheckDigitDetects(key: string)
    requires Accepted(key) && key[43] != '0'
    ensures forall at, c | 0 <= at < PREFIX && IsDigit(c) && c != key[at] :: !Accepted(key[at := c])
    ensures forall at | 0 <= at < PREFIX - 1 && key[at] != key[at + 1] :: !Accepted(Swapped(key, at))
  {
    forall at, c | 0 <= at < PREFIX && IsDigit(c) && c != key[at] ensures !Accepted(key[at := c]) {
      ChangedDigit(key, at, c);
    }
    forall at | 0 <= at < PREFIX - 1 && key[at] != key[at + 1] ensures !Accepted(Swapped(key, at)) {
      SwappedDigits(key, at);
    }
  }

  /** A zero check digit can miss a wrong digit: the all-zero key stays accepted when its last prefix digit becomes
      6. */
  lemma ZeroCheckDigitCanMiss(key: string)
    requires |key| == 44 && forall i | 0 <= i < 44 :: key[i] == '0'
    ensures Accepted(key) && Accepted(key[42 := '6'])
  {
    ZeroSum(key, 0);
    FirstChange(key, key[42 := '6'], 42, '6');
  }

  lemma {:induction false} ZeroSum(key: string, from: nat)
    requires |key| == 44 && (forall i | 0 <= i < 44 :: key[i] == '0') && from <= PREFIX
    ensures WeightedSum(key, from) == 0
    decreases PREFIX - from
  {
    if from < PREFIX {
      ZeroSum(key, from + 1);
    }
  }
}
