/** The check-digit test for card numbers. */
module Luhn {
  type Digit = d: nat | d < 10

  predicate Digits(s: string) {
    forall i | 0 <= i < |s| :: '0' <= s[i] <= '9'
  }

  function DigitOf(c: char): Digit
    requires '0' <= c <= '9'
  {
    c as int - '0' as int
  }

  /** What a digit adds to the sum: itself, or the digit sum of its double. */
  function Weight(d: Digit, doubled: bool): Digit {
    if !doubled then d else if d < 5 then 2 * d else 2 * d - 9
  }

  /** The sum of `s` when `after` more digits follow it: the digits at odd distance from the end count double. */
  function Sum(s: string, after: nat): nat
    requires Digits(s)
  {
    if s == "" then 0
    else Weight(DigitOf(s[0]), (|s| - 1 + after) % 2 == 1) + Sum(s[1..], after)
  }

  /** The sum of the decimal digits of a number. */
  function DigitSum(n: nat): nat {
    if n < 10 then n else DigitSum(n / 10) + n % 10
  }

  /** What the test adds up: from the end, every second digit is doubled and its digit sum taken. */
  function CheckSum(s: string): nat
    requires Digits(s)
  {
    if s == "" then 0
    else DigitSum(DigitOf(s[0]) * (if |s| % 2 == 0 then 2 else 1)) + CheckSum(s[1..])
  }

  lemma {:induction false} SumIsCheckSum(s: string)
    requires Digits(s)
    ensures Sum(s, 0) == CheckSum(s)
  {
    if s != "" {
      SumIsCheckSum(s[1..]);
      DoubledIsDigitSum(DigitOf(s[0]));
    }
  }

  lemma DoubledIsDigitSum(d: Digit)
    ensures Weight(d, true) == DigitSum(2 * d) && Weight(d, false) == DigitSum(d)
  {
    assert 2 * d >= 10 ==> (2 * d) / 10 == 1 && DigitSum(1) == 1;
  }

  predicate Valid(s: string)
    requires Digits(s)
  {
    Sum(s, 0) % 10 == 0
  }

  /** The loop from the last digit to the first. */
  method LuhnCheck(digits: string) returns (ok: bool)
    requires Digits(digits)
    ensures ok == Valid(digits) && (ok <==> CheckSum(digits) % 10 == 0)
  {
    var sum: nat, doubled := 0, false;
    var k := |digits|;
    while k > 0
      invariant 0 <= k <= |digits|
      invariant sum == Sum(digits[k..], 0) && doubled == ((|digits| - k) % 2 == 1)
    {
      k := k - 1;
      assert digits[k..][1..] == digits[k + 1..] && digits[k..][0] == digits[k];
      var value: nat := digits[k] as int - '0' as int;
      if doubled {
        value := value * 2;
        if value > 9 { value := value - 9; }
      }
      sum := sum + value;
      doubled := !doubled;
    }
    assert digits[0..] == digits;
    SumIsCheckSum(digits);
    ok := sum % 10 == 0;
  }

  lemma {:induction false} SumAppend(a: string, b: string, after: nat)
    requires Digits(a) && Digits(b)
    ensures Digits(a + b) && Sum(a + b, after) == Sum(a, |b| + after) + Sum(b, after)
  {
    if a == "" {
      assert a + b == b;
    } else {
      var w := a + b;
      assert w[1..] == a[1..] + b && w[0] == a[0] && Digits(w);
      SumAppend(a[1..], b, after);
      assert |w| - 1 + after == |a| - 1 + (|b| + after);
    }
  }

  /** The sum around the pair of digits `x`, `y`. */
  lemma SumAround(a: string, mid: string, b: string)
    requires Digits(a) && Digits(mid) && Digits(b)
    ensures Digits(a + mid + b)
    ensures Sum(a + mid + b, 0) == Sum(a, |mid| + |b|) + Sum(mid, |b|) + Sum(b, 0)
  {
    SumAppend(mid, b, 0);
    SumAppend(a, mid + b, 0);
    assert a + mid + b == a + (mid + b);
  }

  lemma SumOne(c: char, after: nat)
    requires '0' <= c <= '9'
    ensures Sum([c], after) == Weight(DigitOf(c), after % 2 == 1)
  {
    assert Sum([c][1..], after) == 0;
  }

  lemma SumTwo(c: char, d: char, after: nat, doubled: bool)
    requires '0' <= c <= '9' && '0' <= d <= '9' && doubled == (after % 2 == 0)
    ensures Sum([c, d], after) == Weight(DigitOf(c), doubled) + Weight(DigitOf(d), !doubled)
  {
    SumOne(d, after);
    assert [c, d][1..] == [d];
  }

  /** Two digits weigh the same only if they are the same: doubling permutes the digits. */
  lemma WeightInjective(x: Digit, y: Digit, doubled: bool)
    ensures Weight(x, doubled) == Weight(y, doubled) <==> x == y
  {}

  /** Whether the digit at `i` counts double. */
  predicate Doubled(s: string, i: nat) {
    (|s| - 1 - i) % 2 == 1
  }

  lemma ChangeMovesSum(s: string, i: nat, c: char)
    requires Digits(s) && i < |s| && '0' <= c <= '9'
    ensures Digits(s[i := c])
    ensures Sum(s[i := c], 0) - Sum(s, 0) == Weight(DigitOf(c), Doubled(s, i)) - Weight(DigitOf(s[i]), Doubled(s, i))
  {
    var a, b := s[..i], s[i + 1..];
    assert s == a + [s[i]] + b && s[i := c] == a + [c] + b;
    SumAround(a, [s[i]], b);
    SumAround(a, [c], b);
    SumOne(s[i], |b|);
    SumOne(c, |b|);
  }

  /** Changing one digit of a valid string makes it invalid. */
  lemma OneDigitChangeIsCaught(s: string, i: nat, c: char)
    requires Digits(s) && i < |s| && '0' <= c <= '9' && Valid(s)
    ensures Digits(s[i := c]) && (Valid(s[i := c]) <==> c == s[i])
  {
    ChangeMovesSum(s, i, c);
    WeightInjective(DigitOf(s[i]), DigitOf(c), Doubled(s, i));
    Moved(Sum(s, 0), Sum(s[i := c], 0));
  }

  /** One of the two is 0 and the other 9. */
  predicate ZeroNine(x: int, y: int) {
    (x == 0 && y == 9) || (x == 9 && y == 0)
  }

  function Move(x: Digit, y: Digit, doubled: bool): int {
    Weight(y, doubled) + Weight(x, !doubled) - Weight(x, doubled) - Weight(y, !doubled)
  }

  lemma SwapWeights(x: Digit, y: Digit, doubled: bool)
    ensures var move := Move(x, y, doubled);
      -10 <= move <= 10 && (move == -10 || move == 0 || move == 10 <==> x == y || ZeroNine(x, y))
  {}

  lemma Moved(sum1: int, sum2: int)
    requires sum1 % 10 == 0 && -10 <= sum2 - sum1 <= 10
    ensures sum2 % 10 == 0 <==> sum2 - sum1 == -10 || sum2 == sum1 || sum2 - sum1 == 10
  {}

  function Swapped(s: string, i: nat): string
    requires i + 1 < |s|
  {
    s[i := s[i + 1]][i + 1 := s[i]]
  }

  lemma SplitAround(s: string, i: nat)
    requires i + 1 < |s|
    ensures s == s[..i] + [s[i], s[i + 1]] + s[i + 2..]
    ensures Swapped(s, i) == s[..i] + [s[i + 1], s[i]] + s[i + 2..]
  {}

  lemma Parity(n: nat)
    ensures (n + 1) % 2 == 1 <==> n % 2 == 0
  {}

  lemma SumAroundPair(a: string, x: char, y: char, b: string)
    requires Digits(a) && Digits(b) && '0' <= x <= '9' && '0' <= y <= '9'
    ensures Digits(a + [x, y] + b)
    ensures Sum(a + [x, y] + b, 0) == Sum(a, 2 + |b|) + Sum(b, 0)
              + Weight(DigitOf(x), |b| % 2 == 0) + Weight(DigitOf(y), !(|b| % 2 == 0))
  {
    SumAround(a, [x, y], b);
    SumTwo(x, y, |b|, |b| % 2 == 0);
  }

  lemma SwapMovesSum(s: string, i: nat)
    requires Digits(s) && i + 1 < |s|
    ensures Digits(Swapped(s, i))
    ensures Sum(Swapped(s, i), 0) - Sum(s, 0) == Move(DigitOf(s[i]), DigitOf(s[i + 1]), Doubled(s, i))
  {
    var a, b := s[..i], s[i + 2..];
    SplitAround(s, i);
    PairSwapMovesSum(a, s[i], s[i + 1], b);
    Parity(|b|);
    assert Doubled(s, i) == (|b| % 2 == 0);
  }

  lemma PairSwapMovesSum(a: string, x: char, y: char, b: string)
    requires Digits(a) && Digits(b) && '0' <= x <= '9' && '0' <= y <= '9'
    ensures Digits(a + [x, y] + b) && Digits(a + [y, x] + b)
    ensures Sum(a + [y, x] + b, 0) - Sum(a + [x, y] + b, 0) == Move(DigitOf(x), DigitOf(y), |b| % 2 == 0)
  {
    SumAroundPair(a, x, y, b);
    SumAroundPair(a, y, x, b);
  }

  /** Swapping two different adjacent digits of a valid string is caught, except a 0 with a 9. */
  lemma SwapIsCaught(s: string, i: nat)
    requires Digits(s) && i + 1 < |s| && Valid(s)
    ensures Digits(Swapped(s, i))
    ensures Valid(Swapped(s, i)) <==> s[i] == s[i + 1] || ZeroNine(DigitOf(s[i]), DigitOf(s[i + 1]))
  {
    SwapMovesSum(s, i);
    SwapWeights(DigitOf(s[i]), DigitOf(s[i + 1]), Doubled(s, i));
    Moved(Sum(s, 0), Sum(Swapped(s, i), 0));
  }

  /** The one digit that completes a payload. */
  function CheckDigit(payload: string): Digit
    requires Digits(payload)
  {
    (10 - Sum(payload, 1) % 10) % 10
  }

  /** Every payload is completed to a valid string by exactly one check digit. */
  lemma ExactlyOneCheckDigit(payload: string, c: char)
    requires Digits(payload) && '0' <= c <= '9'
    ensures Digits(payload + [c]) && (Valid(payload + [c]) <==> DigitOf(c) == CheckDigit(payload))
  {
    SumAppend(payload, [c], 0);
    SumOne(c, 0);
    Completes(Sum(payload, 1), DigitOf(c));
  }

  lemma Completes(sum: nat, d: Digit)
    ensures (sum + d) % 10 == 0 <==> d == (10 - sum % 10) % 10
  {
    var q, r := sum / 10, sum % 10;
    TenTimes(q, r + d);
  }

  lemma TenTimes(q: nat, t: nat)
    requires t < 20
    ensures (10 * q + t) % 10 == 0 <==> t == 0 || t == 10
  {
    if t < 10 { assert (10 * q + t) % 10 == t; } else { assert (10 * (q + 1) + (t - 10)) % 10 == t - 10; }
  }
}
