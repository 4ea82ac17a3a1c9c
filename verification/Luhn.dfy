/** The Luhn check that filters card numbers, and the error detection it is used for
    (ISO/IEC 7812-1, Annex B). */
module Luhn {
  import opened Sequences

  type Digit = d: int | 0 <= d <= 9

  predicate IsDigit(c: char) {
    '0' <= c <= '9'
  }

  /** `re.sub(r"\D", "", number)`, as digits. */
  function Digits(number: string): seq<Digit> {
    if number == [] then []
    else (if IsDigit(number[0]) then [(number[0] - '0') as int] else []) + Digits(number[1..])
  }

  /** Twice a digit, less nine when that has two digits. */
  function Doubled(d: Digit): (r: Digit) {
    if 2 * d > 9 then 2 * d - 9 else 2 * d
  }

  /** What a digit contributes when `right` digits stand to its right. */
  function Contribution(d: Digit, right: nat): Digit {
    if right % 2 == 1 then Doubled(d) else d
  }

  function Total(ds: seq<Digit>): nat {
    if ds == [] then 0 else Contribution(ds[0], |ds| - 1) + Total(ds[1..])
  }

  predicate Valid(ds: seq<Digit>) {
    |ds| >= 13 && Total(ds) % 10 == 0
  }

  lemma {:induction false} DigitsAppend(a: string, b: string)
    ensures Digits(a + b) == Digits(a) + Digits(b)
  {
    if a == [] {
      assert a + b == b;
    } else {
      DigitsAppend(a[1..], b);
      assert (a + b)[1..] == a[1..] + b && (a + b)[0] == a[0];
    }
  }

  /** The digits of a string are the values of its characters '0' to '9', all of them and in order. */
  lemma {:induction false} DigitsAre(number: string) returns (q: seq<nat>)
    ensures Increasing(q) && |q| == |Digits(number)|
    ensures forall m: nat :: m in q <==> m < |number| && number[m] in "0123456789"
    ensures forall i :: 0 <= i < |q| ==> q[i] < |number| && "0123456789"[Digits(number)[i]] == number[q[i]]
  {
    if number == [] {
      q := [];
    } else {
      var n := |number| - 1;
      var c := number[n];
      q := DigitsAre(number[..n]);
      assert number == number[..n] + [c];
      DigitsAppend(number[..n], [c]);
      DigitOf(c);
      if IsDigit(c) {
        q := q + [n];
      }
    }
  }

  lemma DigitOf(c: char)
    ensures IsDigit(c) <==> c in "0123456789"
    ensures IsDigit(c) ==> |Digits([c])| == 1 && "0123456789"[Digits([c])[0]] == c
    ensures !IsDigit(c) ==> Digits([c]) == []
  {
    if IsDigit(c) {
      assert "0123456789"[(c - '0') as int] == c;
    }
  }

  /** `_luhn`: strip the separators, then add up from the right. */
  method LuhnCheck(number: string) returns (ok: bool)
    ensures ok == Valid(Digits(number))
    ensures |Digits(number)| < 13 ==> !ok
  {
    var digits: seq<Digit> := [];
    for j := 0 to |number|
      invariant digits == Digits(number[..j])
    {
      DigitsAppend(number[..j], [number[j]]);
      assert number[..j + 1] == number[..j] + [number[j]];
      assert Digits([number[j]]) == if IsDigit(number[j]) then [(number[j] - '0') as int] else [];
      if IsDigit(number[j]) {
        digits := digits + [(number[j] - '0') as int];
      }
    }
    assert number[..|number|] == number;
    if |digits| < 13 {
      return false;
    }
    var total := 0;
    for i := 0 to |digits|
      invariant total == Total(digits[|digits| - i..])
    {
      var d: int := digits[|digits| - 1 - i];
      if i % 2 == 1 {
        d := d * 2;
        if d > 9 {
          d := d - 9;
        }
      }
      total := total + d;
      assert digits[|digits| - i - 1..][1..] == digits[|digits| - i..];
    }
    return total % 10 == 0;
  }

  // ---------- How a change of digits changes the total ----------

  lemma {:induction false} TotalSplit(a: seq<Digit>, b: seq<Digit>)
    ensures Total(a + b) == Shifted(a, |b|) + Total(b)
  {
    if a == [] {
      assert a + b == b;
    } else {
      TotalSplit(a[1..], b);
      assert (a + b)[1..] == a[1..] + b;
    }
  }

  /** The contributions of digits that have `right` more digits after them. */
  function Shifted(ds: seq<Digit>, right: nat): nat {
    if ds == [] then 0 else Contribution(ds[0], |ds| - 1 + right) + Shifted(ds[1..], right)
  }

  lemma {:induction false} TwoPlacesOn(ds: seq<Digit>)
    ensures Shifted(ds, 2) == Total(ds)
  {
    if ds != [] {
      TwoPlacesOn(ds[1..]);
    }
  }

  /** The total from the right: the last digit counts as it is, the one before by the sum of the digits of its double,
      and so on in pairs. */
  lemma {:induction false} TotalInPairs(ds: seq<Digit>, a: Digit, b: Digit)
    ensures Total(ds + [a, b]) == Total(ds) + ((2 * a) / 10 + (2 * a) % 10) + b
    ensures Total([]) == 0 && Total([b]) == b
  {
    TotalSplit(ds, [a, b]);
    TwoPlacesOn(ds);
    assert [a, b][1..] == [b];
    assert Total([a, b]) == Contribution(a, 1) + Total([b]);
    DigitSum(a);
  }

  lemma DigitSum(d: Digit)
    ensures Doubled(d) == (2 * d) / 10 + (2 * d) % 10
  {
  }

  lemma ContributionInjective(d: Digit, e: Digit, right: nat)
    requires (Contribution(d, right) - Contribution(e, right)) % 10 == 0
    ensures d == e
  {
  }

  lemma {:induction false} OneDigitDifference(ds: seq<Digit>, i: nat, d: Digit)
    requires i < |ds|
    ensures Total(ds) - Total(ds[i := d]) ==
            Contribution(ds[i], |ds| - 1 - i) - Contribution(d, |ds| - 1 - i)
  {
    if i == 0 {
      assert ds[0 := d][1..] == ds[1..];
    } else {
      OneDigitDifference(ds[1..], i - 1, d);
      assert ds[i := d][1..] == ds[1..][i - 1 := d];
    }
  }

  function Swapped(ds: seq<Digit>, i: nat): (r: seq<Digit>)
    requires i + 1 < |ds|
    ensures |r| == |ds|
  {
    ds[i := ds[i + 1]][i + 1 := ds[i]]
  }

  /** How much swapping `x` and `y` changes the total, with `right` digits after them. */
  function SwapDelta(x: Digit, y: Digit, right: nat): int {
    Contribution(x, right + 1) + Contribution(y, right) - Contribution(y, right + 1) - Contribution(x, right)
  }

  lemma SwapDifference(x: Digit, y: Digit, right: nat)
    ensures SwapDelta(x, y, right) % 10 == 0 <==> x == y || (x == 0 && y == 9) || (x == 9 && y == 0)
  {
    var gain := (Doubled(x) - x) - (Doubled(y) - y);
    assert SwapDelta(x, y, right) == if right % 2 == 0 then gain else -gain;
  }

  lemma {:induction false} SwapChangesTotal(ds: seq<Digit>, i: nat)
    requires i + 1 < |ds|
    ensures Total(ds) - Total(Swapped(ds, i)) == SwapDelta(ds[i], ds[i + 1], |ds| - 2 - i)
  {
    var swapped := Swapped(ds, i);
    if i == 0 {
      assert swapped[1..][1..] == ds[1..][1..];
      assert Total(ds[1..]) == Contribution(ds[1], |ds| - 2) + Total(ds[1..][1..]);
      assert Total(swapped[1..]) == Contribution(ds[0], |ds| - 2) + Total(ds[1..][1..]);
    } else {
      SwapChangesTotal(ds[1..], i - 1);
      assert swapped[1..] == Swapped(ds[1..], i - 1);
    }
  }

  lemma SameRemainder(a: int, b: int)
    requires a % 10 == 0
    ensures b % 10 == 0 <==> (a - b) % 10 == 0
  {
  }

  // ---------- Main results ----------

  /** Every single wrong digit is detected. */
  lemma SingleErrorDetected(ds: seq<Digit>, i: nat, d: Digit)
    requires Valid(ds) && i < |ds| && d != ds[i]
    ensures !Valid(ds[i := d])
  {
    OneDigitDifference(ds, i, d);
    SameRemainder(Total(ds), Total(ds[i := d]));
    if Valid(ds[i := d]) {
      ContributionInjective(ds[i], d, |ds| - 1 - i);
    }
  }

  /** Swapping two adjacent digits goes unnoticed exactly when they are equal, or are 0 and 9. */
  lemma TranspositionDetectedIff(ds: seq<Digit>, i: nat)
    requires Valid(ds) && i + 1 < |ds|
    ensures Valid(Swapped(ds, i)) <==>
            ds[i] == ds[i + 1] || (ds[i] == 0 && ds[i + 1] == 9) || (ds[i] == 9 && ds[i + 1] == 0)
  {
    SwapChangesTotal(ds, i);
    SwapDifference(ds[i], ds[i + 1], |ds| - 2 - i);
    SameRemainder(Total(ds), Total(Swapped(ds, i)));
  }

  /** The check digit that completes a prefix. */
  function CheckDigit(prefix: seq<Digit>): Digit {
    (10 - Shifted(prefix, 1) % 10) % 10
  }

  /** Every prefix has exactly one check digit that makes it valid. */
  lemma CheckDigitUnique(prefix: seq<Digit>, d: Digit)
    requires |prefix| >= 12
    ensures Valid(prefix + [d]) <==> d == CheckDigit(prefix)
  {
    TotalSplit(prefix, [d]);
    assert Total([d]) == d;
  }
}
