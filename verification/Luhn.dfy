/** The Luhn check of card numbers, Annex B of ISO/IEC 7812-1. */
module Luhn {
  newtype Digit = n: int | 0 <= n < 10

  function Doubled(d: Digit): (r: Digit) {
    if d as int * 2 > 9 then (d as int * 2 - 9) as Digit else d * 2
  }

  // The contribution of the digit at `index` when the digits whose index has the parity of `length` are doubled.
  function Weight(d: Digit, index: nat, length: nat): int {
    if index % 2 == length % 2 then Doubled(d) as int else d as int
  }

  // The sum of the first `n` contributions.
  function ParitySum(digits: seq<Digit>, n: nat, length: nat): int
    requires n <= |digits|
  {
    if n == 0 then 0 else ParitySum(digits, n - 1, length) + Weight(digits[n - 1], n - 1, length)
  }

  function DigitsOf(candidate: string): seq<Digit> {
    if candidate == [] then []
    else (if '0' <= candidate[0] <= '9' then [(candidate[0] as int - '0' as int) as Digit] else [])
         + DigitsOf(candidate[1..])
  }

  // Spaces, dashes and everything else that is not a digit do not matter.
  lemma {:induction false} SeparatorsIgnored(a: string, c: char, b: string)
    requires !('0' <= c <= '9')
    ensures DigitsOf(a + [c] + b) == DigitsOf(a + b)
    ensures Valid(a + [c] + b) <==> Valid(a + b)
  {
    if a == [] {
      assert ([] + [c] + b)[1..] == b && [] + b == b;
    } else {
      SeparatorsIgnored(a[1..], c, b);
      assert (a + [c] + b)[1..] == a[1..] + [c] + b && (a + b)[1..] == a[1..] + b;
    }
  }

  predicate ValidDigits(digits: seq<Digit>) {
    13 <= |digits| <= 19 && ParitySum(digits, |digits|, |digits|) % 10 == 0
  }

  predicate Valid(candidate: string) {
    ValidDigits(DigitsOf(candidate))
  }

  // The standard's definition: from the right, every second digit is doubled, and the digits of all that are added up.
  function RightToLeft(digits: seq<Digit>, double: bool): int {
    if digits == [] then 0
    else
      var last := digits[|digits| - 1] as int;
      (if double then 2 * last / 10 + 2 * last % 10 else last) + RightToLeft(digits[..|digits| - 1], !double)
  }

  lemma {:induction false} ParitySumPrefix(digits: seq<Digit>, more: seq<Digit>, n: nat, length: nat)
    requires n <= |digits| <= |more| && forall i | 0 <= i < n :: digits[i] == more[i]
    ensures ParitySum(digits, n, length) == ParitySum(more, n, length)
  {
    if n != 0 {
      ParitySumPrefix(digits, more, n - 1, length);
    }
  }

  lemma WeightIs(d: Digit, n: nat, length: nat)
    requires 1 <= n <= length
    ensures Weight(d, n - 1, length) ==
            if (length - n) % 2 == 1 then 2 * d as int / 10 + 2 * d as int % 10 else d as int
    ensures (length - (n - 1)) % 2 == 1 <==> (length - n) % 2 != 1
  {
  }

  lemma {:induction false} FromTheRight(digits: seq<Digit>, length: nat)
    requires |digits| <= length
    ensures ParitySum(digits, |digits|, length) == RightToLeft(digits, (length - |digits|) % 2 == 1)
  {
    if digits != [] {
      var front := digits[..|digits| - 1];
      FromTheRight(front, length);
      ParitySumPrefix(front, digits, |front|, length);
      WeightIs(digits[|front|], |digits|, length);
    }
  }

  // The left-to-right form by parity is the standard's definition.
  lemma ParityIsStandard(digits: seq<Digit>)
    ensures ParitySum(digits, |digits|, |digits|) == RightToLeft(digits, false)
  {
    FromTheRight(digits, |digits|);
  }

  // How digits are written.
  function Written(digits: seq<Digit>): string {
    seq(|digits|, i requires 0 <= i < |digits| => '0' + digits[i] as char)
  }

  lemma {:induction false} WrittenRead(digits: seq<Digit>)
    ensures DigitsOf(Written(digits)) == digits
  {
    if digits != [] {
      WrittenRead(digits[1..]);
      assert Written(digits)[1..] == Written(digits[1..]);
    }
  }

  // A written number is accepted if and only if it has 13 to 19 digits whose sum, by the standard, is a multiple of 10.
  lemma {:induction false} ValidExactly(digits: seq<Digit>)
    ensures Valid(Written(digits)) <==> 13 <= |digits| <= 19 && RightToLeft(digits, false) % 10 == 0
  {
    WrittenRead(digits);
    ParityIsStandard(digits);
  }

  lemma {:induction false} SumChange(digits: seq<Digit>, i: nat, x: Digit, n: nat, length: nat)
    requires i < |digits| && n <= |digits|
    ensures ParitySum(digits[i := x], n, length) ==
            ParitySum(digits, n, length) + if i < n then Weight(x, i, length) - Weight(digits[i], i, length) else 0
  {
    if n != 0 {
      SumChange(digits, i, x, n - 1, length);
    }
  }

  lemma MultipleOfTen(sum: int, change: int)
    requires sum % 10 == 0
    ensures (sum + change) % 10 == 0 <==> change % 10 == 0
  {
  }

  // Any single wrong digit is found.
  lemma SingleErrorFound(digits: seq<Digit>, i: nat, x: Digit)
    requires ValidDigits(digits) && i < |digits| && x != digits[i]
    ensures !ValidDigits(digits[i := x])
  {
    var n := |digits|;
    SumChange(digits, i, x, n, n);
    MultipleOfTen(ParitySum(digits, n, n), Weight(x, i, n) - Weight(digits[i], i, n));
    WeightsDistinct(x, digits[i], i, n);
  }

  lemma WeightsDistinct(a: Digit, b: Digit, index: nat, length: nat)
    requires a != b
    ensures (Weight(a, index, length) - Weight(b, index, length)) % 10 != 0
  {
    assert Doubled(a) != Doubled(b);
  }

  // Swapping two neighbours is found unless they are equal or 0 and 9.
  lemma SwapExactly(digits: seq<Digit>, i: nat)
    requires ValidDigits(digits) && i + 1 < |digits|
    ensures var (a, b) := (digits[i], digits[i + 1]);
      ValidDigits(digits[i := b][i + 1 := a]) <==> a == b || (a == 0 && b == 9) || (a == 9 && b == 0)
  {
    var (a, b, n) := (digits[i], digits[i + 1], |digits|);
    SumChange(digits, i, b, n, n);
    SumChange(digits[i := b], i + 1, a, n, n);
    var change := Weight(b, i, n) - Weight(a, i, n) + Weight(a, i + 1, n) - Weight(b, i + 1, n);
    MultipleOfTen(ParitySum(digits, n, n), change);
    SwapChange(a, b, i, n);
  }

  lemma SwapChange(a: Digit, b: Digit, i: nat, n: nat)
    ensures (Weight(b, i, n) - Weight(a, i, n) + Weight(a, i + 1, n) - Weight(b, i + 1, n)) % 10 == 0 <==>
            a == b || (a == 0 && b == 9) || (a == 9 && b == 0)
  {
    assert (i + 1) % 2 != i % 2;
    var change := Doubled(a) as int - a as int - (Doubled(b) as int - b as int);
    assert Weight(b, i, n) - Weight(a, i, n) + Weight(a, i + 1, n) - Weight(b, i + 1, n) == change
        || Weight(b, i, n) - Weight(a, i, n) + Weight(a, i + 1, n) - Weight(b, i + 1, n) == -change;
    assert change % 10 == 0 <==> a == b || (a == 0 && b == 9) || (a == 9 && b == 0);
  }

  // Every prefix of 12 to 18 digits has exactly one check digit.
  lemma CheckDigitUnique(prefix: seq<Digit>, a: Digit, b: Digit)
    requires 12 <= |prefix| <= 18
    ensures ValidDigits(prefix + [CheckDigit(prefix)])
    ensures ValidDigits(prefix + [a]) && ValidDigits(prefix + [b]) ==> a == b
  {
    var sum := ParitySum(prefix, |prefix|, |prefix| + 1);
    LastDigit(prefix, CheckDigit(prefix));
    LastDigit(prefix, a);
    LastDigit(prefix, b);
    Complement(sum);
    SameComplement(sum, a as int, b as int);
  }

  lemma Complement(sum: int)
    ensures (sum + (10 - sum % 10) % 10) % 10 == 0
  {
  }

  lemma SameComplement(sum: int, a: int, b: int)
    requires 0 <= a < 10 && 0 <= b < 10
    ensures (sum + a) % 10 == 0 && (sum + b) % 10 == 0 ==> a == b
  {
  }

  function CheckDigit(prefix: seq<Digit>): Digit {
    ((10 - ParitySum(prefix, |prefix|, |prefix| + 1) % 10) % 10) as Digit
  }

  lemma LastDigit(prefix: seq<Digit>, d: Digit)
    ensures var all := prefix + [d];
      ParitySum(all, |all|, |all|) == ParitySum(prefix, |prefix|, |prefix| + 1) + d as int
  {
    var all := prefix + [d];
    ParitySumPrefix(prefix, all, |prefix|, |all|);
  }
}
