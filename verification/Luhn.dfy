/** The Luhn check (server/handler.c) and the error detection it promises. */
module Luhn {

  predicate IsDigit(c: char) {
    '0' <= c <= '9'
  }

  predicate AllDigits(s: string) {
    forall i :: 0 <= i < |s| ==> IsDigit(s[i])
  }

  function Digit(c: char): (d: nat)
    requires IsDigit(c)
    ensures d <= 9
  {
    c as int - '0' as int
  }

  /**
    The weight of a digit at distance `fromRight` from the last one: every second digit counts as the digit sum of its
    double.
   */
  function Weigh(fromRight: nat, d: nat): nat {
    if fromRight % 2 == 0 then d else 2 * d / 10 + 2 * d % 10
  }

  function Term(s: string, i: nat): nat
    requires i < |s| && IsDigit(s[i])
  {
    Weigh(|s| - 1 - i, Digit(s[i]))
  }

  /** The weights of the digits from position `k` on. */
  function SumFrom(s: string, k: nat): nat
    requires k <= |s| && AllDigits(s)
    decreases |s| - k
  {
    if k == |s| then 0 else Term(s, k) + SumFrom(s, k + 1)
  }

  /** A Luhn number: digits only, whose weights add up to a multiple of ten. */
  predicate Accepted(s: string) {
    AllDigits(s) && SumFrom(s, 0) % 10 == 0
  }

  /** The weights from `j` on depend on nothing before `j`, so a scanned tail can be weighed by itself. */
  lemma {:induction false} TailSum(s: string, k: nat, j: nat)
    requires k <= j <= |s| && AllDigits(s)
    ensures SumFrom(s, j) == SumFrom(s[k..], j - k)
    decreases |s| - j
  {
    if j < |s| {
      TailSum(s, k, j + 1);
      assert s[k..][j - k] == s[j];
    }
  }

  function Double(d: nat): nat {
    if d < 5 then 2 * d else 2 * d - 9
  }

  /** The digit sum of a doubled digit, in the form the loop computes it. */
  lemma DoubledDigit(fromRight: nat, d: nat)
    requires fromRight % 2 == 1 && d <= 9
    ensures Weigh(fromRight, d) == Double(d)
  {
  }

  /** One more digit in front adds its weight. */
  lemma {:induction false} FirstTerm(s: string, d: nat, sum: nat)
    requires s != [] && IsDigit(s[0]) && AllDigits(s[1..]) && d == Term(s, 0) && sum == SumFrom(s[1..], 0)
    ensures AllDigits(s) && SumFrom(s, 0) == d + sum
  {
    assert forall i :: 1 <= i < |s| ==> s[i] == s[1..][i - 1];
    TailSum(s, 1, 1);
  }

  /**
    luhn_check: from the last digit to the first, doubling every other one; anything that is not a digit ends it at
    once.
   */
  method LuhnCheck(digits: string) returns (ok: bool)
    ensures ok <==> Accepted(digits)
  {
    var sum, alt := 0, false;
    var i: int := |digits| - 1;
    while i >= 0
      invariant -1 <= i < |digits|
      invariant alt <==> (|digits| - 1 - i) % 2 == 1
      invariant AllDigits(digits[i + 1..])
      invariant sum == SumFrom(digits[i + 1..], 0)
    {
      if !IsDigit(digits[i]) {
        return false;
      }
      var d := Digit(digits[i]);
      if alt {
        d := d * 2;
        if d > 9 {
          d := d - 9;
        }
      }
      ghost var seen := digits[i..];
      assert seen[1..] == digits[i + 1..];
      if alt {
        DoubledDigit(|seen| - 1, Digit(seen[0]));
      }
      FirstTerm(seen, d, sum);
      sum := sum + d;
      alt := !alt;
      i := i - 1;
    }
    assert digits[0..] == digits;
    return sum % 10 == 0;
  }

  // ---------------------------------------------------------------- how the sum moves

  /** Two strings of one length have the same sum from `k` on when they agree there. */
  lemma {:induction false} SameTail(s: string, t: string, k: nat)
    requires |s| == |t| && k <= |s| && AllDigits(s) && AllDigits(t) && s[k..] == t[k..]
    ensures SumFrom(s, k) == SumFrom(t, k)
    decreases |s| - k
  {
    if k < |s| {
      assert s[k] == s[k..][0] == t[k..][0] == t[k];
      assert s[k + 1..] == s[k..][1..] == t[k..][1..] == t[k + 1..];
      SameTail(s, t, k + 1);
    }
  }

  /** Changing one digit changes the sum by the change of its weight. */
  lemma {:induction false} ChangedSum(s: string, i: nat, c: char, k: nat)
    requires i < |s| && k <= i && AllDigits(s) && IsDigit(c)
    ensures AllDigits(s[i := c])
    ensures SumFrom(s[i := c], k) - SumFrom(s, k) == Term(s[i := c], i) - Term(s, i)
    decreases i - k
  {
    var t := s[i := c];
    if k == i {
      SameTail(s, t, i + 1);
    } else {
      ChangedSum(s, i, c, k + 1);
      assert Term(s, k) == Term(t, k);
    }
  }

  lemma SameParity(a: nat, b: nat)
    requires (a - b) % 2 == 0
    ensures a % 2 == b % 2
  {
  }

  /** Distinct digits have distinct weights, all below ten. */
  lemma WeighIsInjective(fromRight: nat, d: nat, e: nat)
    requires d <= 9 && e <= 9
    ensures Weigh(fromRight, d) <= 9 && Weigh(fromRight, e) <= 9
    ensures Weigh(fromRight, d) == Weigh(fromRight, e) <==> d == e
  {
    if fromRight % 2 == 1 {
      DoubledDigit(fromRight, d);
      DoubledDigit(fromRight, e);
    }
  }

  lemma MultipleOfTen(tens: int, moved: int)
    requires -20 < moved < 20
    ensures (10 * tens + moved) % 10 == 0 <==> moved == -10 || moved == 0 || moved == 10
  {
  }

  /**
    From an accepted string, a change is accepted exactly when it moves the sum by a multiple of ten; it moves less
    than twenty.
   */
  lemma MovedSum(s: string, t: string, moved: int)
    requires Accepted(s) && AllDigits(t) && SumFrom(t, 0) == SumFrom(s, 0) + moved && -20 < moved < 20
    ensures Accepted(t) <==> moved == -10 || moved == 0 || moved == 10
  {
    MultipleOfTen(SumFrom(s, 0) / 10, moved);
  }

  lemma {:induction false} ZerosSum(s: string, k: nat)
    requires k <= |s| && forall i :: 0 <= i < |s| ==> s[i] == '0'
    ensures SumFrom(s, k) == 0
    decreases |s| - k
  {
    if k < |s| {
      ZerosSum(s, k + 1);
    }
  }

  /** Where the sums begin: zeros, any number of them and none at all, are accepted. */
  lemma ZerosAreAccepted(s: string)
    requires forall i :: 0 <= i < |s| ==> s[i] == '0'
    ensures Accepted(s)
  {
    ZerosSum(s, 0);
  }

  // ---------------------------------------------------------------- what the check detects

  /** Every change of a single character of an accepted string is rejected, whatever it is changed to. */
  lemma SingleChangeIsRejected(s: string, i: nat, c: char)
    requires Accepted(s) && i < |s| && c != s[i]
    ensures !Accepted(s[i := c])
  {
    if IsDigit(c) {
      ChangedSum(s, i, c, 0);
      WeighIsInjective(|s| - 1 - i, Digit(s[i]), Digit(c));
      MovedSum(s, s[i := c], Term(s[i := c], i) - Term(s, i));
    } else {
      assert s[i := c][i] == c;
    }
  }

  /** The check digit that completes a prefix. */
  function CheckDigit(prefix: string): (c: char)
    requires AllDigits(prefix)
    ensures IsDigit(c)
  {
    var sum := SumFrom(prefix + ['0'], 0) % 10;
    '0' + ((10 - sum) % 10) as char
  }

  lemma Complement(sum: nat)
    ensures (sum + (10 - sum % 10) % 10) % 10 == 0
  {
  }

  lemma CheckDigitFits(prefix: string)
    requires AllDigits(prefix)
    ensures Accepted(prefix + [CheckDigit(prefix)])
  {
    var zero := prefix + ['0'];
    assert zero[|prefix| := CheckDigit(prefix)] == prefix + [CheckDigit(prefix)];
    ChangedSum(zero, |prefix|, CheckDigit(prefix), 0);
    assert Term(zero, |prefix|) == 0;
    Complement(SumFrom(zero, 0));
  }

  /** The last digit counts once, whatever stands before it. */
  lemma LastDigitCountsOnce(prefix: string, c: char)
    requires AllDigits(prefix) && IsDigit(c)
    ensures AllDigits(prefix + [c]) && SumFrom(prefix + [c], 0) == SumFrom(prefix + ['0'], 0) + Digit(c)
  {
    var zero := prefix + ['0'];
    assert zero[|prefix| := c] == prefix + [c];
    ChangedSum(zero, |prefix|, c, 0);
    assert Term(zero, |prefix|) == 0 && Term(prefix + [c], |prefix|) == Digit(c);
  }

  /** The one before it counts as the digit sum of its double. */
  lemma NextDigitCountsDouble(prefix: string, c: char, last: char)
    requires AllDigits(prefix) && IsDigit(c) && IsDigit(last)
    ensures AllDigits(prefix + [c, last]) && AllDigits(prefix + ['0', last])
    ensures SumFrom(prefix + [c, last], 0)
            == SumFrom(prefix + ['0', last], 0) + 2 * Digit(c) / 10 + 2 * Digit(c) % 10
  {
    var zero := prefix + ['0', last];
    assert zero[|prefix| := c] == prefix + [c, last];
    ChangedSum(zero, |prefix|, c, 0);
    assert Term(zero, |prefix|) == 0 && Term(prefix + [c, last], |prefix|) == Weigh(1, Digit(c));
  }

  /** For every digit prefix exactly one last character is accepted. */
  lemma OneCheckDigit(prefix: string, c: char)
    requires AllDigits(prefix)
    ensures Accepted(prefix + [c]) <==> c == CheckDigit(prefix)
  {
    var right := prefix + [CheckDigit(prefix)];
    CheckDigitFits(prefix);
    if c != CheckDigit(prefix) {
      assert right[|prefix| := c] == prefix + [c];
      SingleChangeIsRejected(right, |prefix|, c);
    }
  }

  /** By how much the sum moves when the digits at `i` and `j` become `c` and `d`. */
  function Move(s: string, i: nat, c: char, j: nat, d: char): int
    requires i < j < |s| && AllDigits(s) && IsDigit(c) && IsDigit(d)
  {
    Weigh(|s| - 1 - i, Digit(c)) - Weigh(|s| - 1 - i, Digit(s[i]))
    + Weigh(|s| - 1 - j, Digit(d)) - Weigh(|s| - 1 - j, Digit(s[j]))
  }

  lemma MoveIsSmall(s: string, i: nat, c: char, j: nat, d: char)
    requires i < j < |s| && AllDigits(s) && IsDigit(c) && IsDigit(d)
    ensures -20 < Move(s, i, c, j, d) < 20
  {
    WeighIsInjective(|s| - 1 - i, Digit(c), Digit(s[i]));
    WeighIsInjective(|s| - 1 - j, Digit(d), Digit(s[j]));
  }

  /** Two digits replaced at once go unnoticed exactly when their moves cancel modulo ten. */
  lemma TwoChanges(s: string, i: nat, c: char, j: nat, d: char)
    requires i < j < |s| && Accepted(s) && IsDigit(c) && IsDigit(d)
    ensures Accepted(s[i := c][j := d]) <==> Move(s, i, c, j, d) in {-10, 0, 10}
  {
    ChangedSum(s, i, c, 0);
    ChangedSum(s[i := c], j, d, 0);
    MoveIsSmall(s, i, c, j, d);
    MovedSum(s, s[i := c][j := d], Move(s, i, c, j, d));
  }

  /** Of two neighbours one is doubled and the other is not. */
  lemma NeighboursMove(s: string, i: nat, c: char, d: char)
    requires i + 1 < |s| && AllDigits(s) && IsDigit(c) && IsDigit(d)
    ensures var odd := (|s| - 1 - i) % 2 == 1;
            Move(s, i, c, i + 1, d)
            == (if odd then Double(Digit(c)) - Double(Digit(s[i])) + Digit(d) - Digit(s[i + 1])
                else Digit(c) - Digit(s[i]) + Double(Digit(d)) - Double(Digit(s[i + 1])))
  {
    var k := if (|s| - 1 - i) % 2 == 1 then |s| - 1 - i else |s| - 2 - i;
    DoubledDigit(k, Digit(c));
    DoubledDigit(k, Digit(d));
    DoubledDigit(k, Digit(s[i]));
    DoubledDigit(k, Digit(s[i + 1]));
  }

  /** A swap of two neighbours goes unnoticed exactly when they are equal, or one is 0 and the other 9. */
  lemma SwapIsRejectedUnlessZeroNine(s: string, i: nat)
    requires Accepted(s) && i + 1 < |s|
    ensures Accepted(s[i := s[i + 1]][i + 1 := s[i]])
            <==> s[i] == s[i + 1] || {s[i], s[i + 1]} == {'0', '9'}
  {
    TwoChanges(s, i, s[i + 1], i + 1, s[i]);
    NeighboursMove(s, i, s[i + 1], s[i]);
  }

  /** A doubled digit misread as another doubled digit goes unnoticed exactly for 22/55, 33/66 and 44/77. */
  lemma TwinChangeIsRejectedUnless(s: string, i: nat, c: char)
    requires Accepted(s) && i + 1 < |s| && s[i] == s[i + 1] && IsDigit(c)
    ensures Accepted(s[i := c][i + 1 := c])
            <==> c == s[i] || {s[i], c} == {'2', '5'} || {s[i], c} == {'3', '6'} || {s[i], c} == {'4', '7'}
  {
    TwoChanges(s, i, c, i + 1, c);
    NeighboursMove(s, i, c, c);
  }

  /** Exchanging two digits that stand an even distance apart is never noticed. */
  lemma EvenSwapIsMissed(s: string, i: nat, j: nat)
    requires Accepted(s) && i < j < |s| && (j - i) % 2 == 0
    ensures Accepted(s[i := s[j]][j := s[i]])
  {
    SameParity(|s| - 1 - i, |s| - 1 - j);
    TwoChanges(s, i, s[j], j, s[i]);
  }
}
