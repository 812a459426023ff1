/** The three check-digit tests a detector runs over a candidate, and the errors each
    is guaranteed to catch. */
module CheckDigits {

  type Digits = s: seq<int> | forall i :: 0 <= i < |s| ==> 0 <= s[i] <= 9

  // --- Luhn (ISO/IEC 7812-1, Annex B) ----------------------------------------------------

  /** A doubled digit, its own digits added up. */
  function Doubled(n: int): int {
    if 2 * n > 9 then 2 * n - 9 else 2 * n
  }

  /** The weighted sum: every second digit from the right is doubled. `double` is
      whether the last digit is. */
  function LuhnSum(d: Digits, double: bool): int
    decreases |d|
  {
    if d == [] then 0
    else
      var n := d[|d| - 1];
      LuhnSum(d[..|d| - 1], !double) + if double then Doubled(n) else n
  }

  predicate LuhnValid(d: Digits) {
    LuhnSum(d, false) % 10 == 0
  }

  /** The standard's own reading: pairs from the right, in each of which the left digit is
      doubled and the digits of the double are added up. */
  function PairSum(d: Digits): int {
    if |d| < 2 then Sum(d)
    else
      var twice := 2 * d[|d| - 2];
      PairSum(d[..|d| - 2]) + twice / 10 + twice % 10 + d[|d| - 1]
  }

  function Sum(d: Digits): int {
    if d == [] then 0 else Sum(d[..|d| - 1]) + d[|d| - 1]
  }

  lemma {:induction false} LuhnIsByPairs(d: Digits)
    ensures LuhnSum(d, false) == PairSum(d)
    ensures LuhnValid(d) <==> PairSum(d) % 10 == 0
  {
    if |d| >= 2 {
      var n := |d| - 1;
      LuhnIsByPairs(d[..n - 1]);
      assert d[..n][..n - 1] == d[..n - 1];
      assert LuhnSum(d[..n], true) == LuhnSum(d[..n - 1], false) + Doubled(d[n - 1]);
      assert Doubled(d[n - 1]) == 2 * d[n - 1] / 10 + 2 * d[n - 1] % 10;
    } else if |d| == 1 {
      assert LuhnSum(d, false) == LuhnSum(d[..0], true) + d[0] && Sum(d) == Sum(d[..0]) + d[0];
    }
  }

  method Luhn(d: Digits) returns (ok: bool)
    ensures ok <==> LuhnValid(d)
  {
    var sum, double := 0, false;
    var i := |d| - 1;
    assert d[..i + 1] == d;
    while i >= 0
      invariant -1 <= i < |d|
      invariant sum + LuhnSum(d[..i + 1], double) == LuhnSum(d, false)
    {
      assert d[..i + 1][..i] == d[..i];
      var n := d[i];
      if double {
        n := n * 2;
        if n > 9 {
          n := n - 9;
        }
      }
      sum := sum + n;
      double := !double;
      i := i - 1;
    }
    ok := sum % 10 == 0;
  }

  /** Whether digit k counts doubled. */
  predicate DoubledAt(length: nat, k: nat, double: bool)
    requires k < length
  {
    ((length - 1 - k) % 2 == 1) != double
  }

  function Weighed(n: int, double: bool): int {
    if double then Doubled(n) else n
  }

  /** Replacing one digit changes the sum by what that digit weighs. */
  lemma {:induction false} LuhnAfterOneChange(d: Digits, k: nat, x: int, double: bool)
    requires k < |d| && 0 <= x <= 9
    ensures LuhnSum(d[k := x], double) - LuhnSum(d, double)
         == Weighed(x, DoubledAt(|d|, k, double)) - Weighed(d[k], DoubledAt(|d|, k, double))
    decreases |d|
  {
    var n := |d| - 1;
    if k == n {
      assert d[k := x][..n] == d[..n];
    } else {
      assert d[k := x][..n] == d[..n][k := x];
      LuhnAfterOneChange(d[..n], k, x, !double);
    }
  }

  /** Luhn catches every single wrong digit. */
  lemma LuhnCatchesOneWrongDigit(d: Digits, k: nat, x: int)
    requires LuhnValid(d) && k < |d| && 0 <= x <= 9 && x != d[k]
    ensures !LuhnValid(d[k := x])
  {
    LuhnAfterOneChange(d, k, x, false);
  }

  /** And every swap of two neighbours, except of a 0 and a 9, which it cannot see. */
  lemma LuhnCatchesSwaps(d: Digits, k: nat)
    requires LuhnValid(d) && k + 1 < |d|
    ensures var a, b := d[k], d[k + 1];
            LuhnValid(d[k := b][k + 1 := a]) <==> a == b || (a == 0 && b == 9) || (a == 9 && b == 0)
  {
    var a, b := d[k], d[k + 1];
    LuhnAfterOneChange(d, k, b, false);
    LuhnAfterOneChange(d[k := b], k + 1, a, false);
    assert DoubledAt(|d|, k, false) != DoubledAt(|d|, k + 1, false);
    SwapWeight(a, b);
    StillAMultiple(LuhnSum(d, false), LuhnSum(d[k := b][k + 1 := a], false) - LuhnSum(d, false));
  }

  /** How far a digit's two weights are apart tells 0 and 9 from the rest, but not from
      each other. */
  lemma SwapWeight(a: int, b: int)
    requires 0 <= a <= 9 && 0 <= b <= 9
    ensures var change := (Doubled(b) - b) - (Doubled(a) - a);
            -8 <= change <= 8 && (change == 0 <==> a == b || (a == 0 && b == 9) || (a == 9 && b == 0))
  {
  }

  lemma StillAMultiple(sum: int, change: int)
    requires sum % 10 == 0 && -9 <= change <= 9
    ensures (sum + change) % 10 == 0 <==> change == 0
  {
  }

  // --- MOD 97-10 (ISO/IEC 7064) ------------------------------------------------------------

  /** What a character of an account number stands for: a digit itself, a letter two
      digits from 10 to 35. Anything else stands for nothing. */
  datatype Code = Digit(n: int) | Letter(n: int) | Other

  predicate IsCode(c: Code) {
    match c
    case Digit(n) => 0 <= n <= 9
    case Letter(n) => 10 <= n <= 35
    case Other => true
  }

  type Codes = s: seq<Code> | forall i :: 0 <= i < |s| ==> IsCode(s[i])

  predicate AllSpelled(c: Codes) {
    forall i :: 0 <= i < |c| ==> !c[i].Other?
  }

  /** The number the characters spell, letters written as two digits. */
  function Spelled(c: Codes): int
    requires AllSpelled(c)
  {
    if c == [] then 0
    else
      var last := c[|c| - 1];
      Spelled(c[..|c| - 1]) * (if last.Digit? then 10 else 100) + last.n
  }

  /** The country and check digits moved to the end. */
  function Rotated(c: Codes): (r: Codes)
    ensures |r| == |c|
    ensures forall i :: 0 <= i < |c| ==> r[i] == c[(i + 4) % |c|]
  {
    seq(|c|, i requires 0 <= i < |c| => c[(i + 4) % |c|])
  }

  predicate Mod97Valid(c: Codes) {
    AllSpelled(Rotated(c)) && Spelled(Rotated(c)) % 97 == 1
  }

  /** The test reads the characters where they stand and keeps only a remainder. */
  method Mod97(c: Codes) returns (ok: bool)
    ensures ok <==> Mod97Valid(c)
  {
    var rem := 0;
    ghost var r := Rotated(c);
    for i := 0 to |c|
      invariant forall j :: 0 <= j < i ==> !r[j].Other?
      invariant 0 <= rem < 97 && rem == Spelled(r[..i]) % 97
    {
      var ch := c[(i + 4) % |c|];
      assert ch == r[i];
      if ch.Other? {
        return false;
      }
      assert r[..i + 1][..i] == r[..i];
      Mod97Step(Spelled(r[..i]), if ch.Digit? then 10 else 100, ch.n);
      rem := rem * (if ch.Digit? then 10 else 100) + ch.n;
      rem := rem % 97;
    }
    assert r[..|c|] == r;
    ok := rem == 1;
  }

  lemma Mod97Step(v: int, base: int, n: int)
    requires base == 10 || base == 100
    ensures ((v % 97) * base + n) % 97 == (v * base + n) % 97
  {
    var q := v / 97;
    assert v == 97 * q + v % 97;
    if base == 10 {
      SameRemainder((v % 97) * 10 + n, 10 * q);
    } else {
      SameRemainder((v % 97) * 100 + n, 100 * q);
    }
  }

  lemma SameRemainder(a: int, k: int)
    ensures (a + 97 * k) % 97 == a % 97
  {
    var q := a / 97;
    assert a + 97 * k == 97 * (q + k) + a % 97;
  }

  /** Multiplying by a power of ten loses nothing modulo 97. */
  lemma TenIsInvertible(x: int, base: int)
    requires base == 10 || base == 100
    ensures (base * x) % 97 == 0 ==> x % 97 == 0
  {
    if (base * x) % 97 == 0 {
      var q := (base * x) / 97;
      if base == 10 {
        assert x == 97 * (68 * q - 7 * x) by { assert 10 * x == 97 * q; }
      } else {
        assert x == 97 * (65 * q - 67 * x) by { assert 100 * x == 97 * q; }
      }
      MultipleOf97(if base == 10 then 68 * q - 7 * x else 65 * q - 67 * x);
    }
  }

  lemma MultipleOf97(k: int)
    ensures (97 * k) % 97 == 0
  {
    SameRemainder(0, k);
  }

  /** Two numbers that differ in one character of the same kind stay apart modulo 97
      however many characters follow. */
  lemma {:induction false} OneCodeKeepsThemApart(r: Codes, k: nat, x: Code)
    requires AllSpelled(r) && k < |r| && IsCode(x) && !x.Other? && x.Digit? == r[k].Digit? && x != r[k]
    ensures AllSpelled(r[k := x])
    ensures (Spelled(r[k := x]) - Spelled(r)) % 97 != 0
    decreases |r|
  {
    var n := |r| - 1;
    var r' := r[k := x];
    if k == n {
      assert r'[..n] == r[..n];
      assert Spelled(r') - Spelled(r) == x.n - r[k].n;
    } else {
      assert r'[..n] == r[..n][k := x];
      OneCodeKeepsThemApart(r[..n], k, x);
      var base := if r[n].Digit? then 10 else 100;
      assert Spelled(r') - Spelled(r) == base * (Spelled(r'[..n]) - Spelled(r[..n]));
      TenIsInvertible(Spelled(r'[..n]) - Spelled(r[..n]), base);
    }
  }

  /** MOD 97-10 catches every character replaced by another of its kind. */
  lemma Mod97CatchesOneWrongCharacter(c: Codes, k: nat, x: Code)
    requires Mod97Valid(c) && k < |c| && IsCode(x) && !x.Other? && x.Digit? == c[k].Digit? && x != c[k]
    ensures !Mod97Valid(c[k := x])
  {
    var j := if k >= 4 % |c| then k - 4 % |c| else k - 4 % |c| + |c|;
    RotatedIndex(|c|, k, j);
    var r := Rotated(c);
    assert r[j] == c[k];
    assert Rotated(c[k := x]) == r[j := x] by {
      var r' := Rotated(c[k := x]);
      forall i | 0 <= i < |c| ensures r'[i] == if i == j then x else r[i] {
        if (i + 4) % |c| == k {
          RotationIsInjective(|c|, i, j);
        }
      }
    }
    OneCodeKeepsThemApart(r, j, x);
    if Spelled(r[j := x]) % 97 == 1 {
      var a, b := Spelled(r[j := x]), Spelled(r);
      assert a - b == 97 * (a / 97 - b / 97);
      MultipleOf97(a / 97 - b / 97);
    }
  }

  lemma RotatedIndex(n: nat, k: nat, j: int)
    requires n > 0 && k < n && j == if k >= 4 % n then k - 4 % n else k - 4 % n + n
    ensures 0 <= j < n && (j + 4) % n == k
  {
    var q, rest := 4 / n, 4 % n;
    assert 4 == n * q + rest;
    assert j + 4 == n * q + (if k >= rest then k else k + n);
    ModOf(n, if k >= rest then q else q + 1, k);
    assert n * (q + 1) == n * q + n;
  }

  lemma TimesAtLeast(n: int, d: int)
    requires n >= 0
    ensures d >= 1 ==> n * d >= n
    ensures d <= -1 ==> n * d <= -n
  {
    if d >= 1 {
      assert n * d == n + n * (d - 1);
    } else if d <= -1 {
      assert n * d == -n + n * (d + 1);
      assert n * (d + 1) == -(n * (-d - 1));
    }
  }

  lemma ModOf(n: nat, q: int, k: nat)
    requires n > 0 && k < n
    ensures (n * q + k) % n == k
  {
    var v := n * q + k;
    assert v == n * (v / n) + v % n;
    var d := v / n - q;
    assert n * d == k - v % n;
    TimesAtLeast(n, d);
  }

  lemma RotationIsInjective(n: nat, i: nat, j: nat)
    requires n > 0 && i < n && j < n && (i + 4) % n == (j + 4) % n
    ensures i == j
  {
    var a, b := (i + 4) / n, (j + 4) / n;
    assert i + 4 == n * a + (i + 4) % n && j + 4 == n * b + (j + 4) % n;
    assert i - j == n * (a - b);
    TimesAtLeast(n, a - b);
  }

  // --- MOD 11,10 (ISO/IEC 7064) --------------------------------------------------------------

  /** One step of the hybrid system. */
  function HybridStep(product: int, d: int): int {
    var sum := (d + product) % 10;
    (2 * (if sum == 0 then 10 else sum)) % 11
  }

  function Hybrid(d: Digits): (p: int)
    ensures 1 <= p <= 10
  {
    if d == [] then 10
    else
      var p := Hybrid(d[..|d| - 1]);
      HybridStep(p, d[|d| - 1])
  }

  predicate HybridValid(d: Digits)
    requires d != []
  {
    (11 - Hybrid(d[..|d| - 1])) % 10 == d[|d| - 1]
  }

  lemma SumsDiffer(a: int, b: int, c: int)
    requires 0 <= a <= 10 && 0 <= b <= 10 && -9 <= a - b <= 9 && a != b && 0 <= c <= 10
    ensures (a + c) % 10 != (b + c) % 10
  {
  }

  lemma DoublesDiffer(a: int, b: int)
    requires 1 <= a <= 10 && 1 <= b <= 10 && a != b
    ensures (2 * a) % 11 != (2 * b) % 11
  {
  }

  /** Neither the product nor the digit is lost in a step. */
  lemma HybridStepIsInjective(p: int, q: int, d: int, e: int)
    requires 1 <= p <= 10 && 1 <= q <= 10 && 0 <= d <= 9 && 0 <= e <= 9
    requires (p != q && d == e) || (p == q && d != e)
    ensures HybridStep(p, d) != HybridStep(q, e)
  {
    if d == e {
      SumsDiffer(p, q, d);
    } else {
      SumsDiffer(d, e, p);
    }
    var a, b := (d + p) % 10, (e + q) % 10;
    DoublesDiffer(if a == 0 then 10 else a, if b == 0 then 10 else b);
  }

  lemma {:induction false} HybridKeepsThemApart(d: Digits, k: nat, x: int)
    requires k < |d| && 0 <= x <= 9 && x != d[k]
    ensures Hybrid(d[k := x]) != Hybrid(d)
    decreases |d|
  {
    var n := |d| - 1;
    if k == n {
      assert d[k := x][..n] == d[..n];
      HybridStepIsInjective(Hybrid(d[..n]), Hybrid(d[..n]), d[n], x);
    } else {
      assert d[k := x][..n] == d[..n][k := x];
      HybridKeepsThemApart(d[..n], k, x);
      HybridStepIsInjective(Hybrid(d[..n]), Hybrid(d[..n][k := x]), d[n], d[n]);
    }
  }

  /** MOD 11,10 catches every single wrong digit, the check digit included. */
  lemma HybridCatchesOneWrongDigit(d: Digits, k: nat, x: int)
    requires d != [] && HybridValid(d) && k < |d| && 0 <= x <= 9 && x != d[k]
    ensures !HybridValid(d[k := x])
  {
    var n := |d| - 1;
    if k < n {
      assert d[k := x][..n] == d[..n][k := x];
      HybridKeepsThemApart(d[..n], k, x);
      ChecksDiffer(Hybrid(d[..n]), Hybrid(d[..n][k := x]));
    } else {
      assert d[k := x][..n] == d[..n];
    }
  }

  lemma ChecksDiffer(p: int, q: int)
    requires 1 <= p <= 10 && 1 <= q <= 10 && p != q
    ensures (11 - p) % 10 != (11 - q) % 10
  {
  }

  // --- The German tax identification number --------------------------------------------------

  function Times(d: Digits, x: int): nat {
    if d == [] then 0 else Times(d[..|d| - 1], x) + if d[|d| - 1] == x then 1 else 0
  }

  /** Exactly one digit comes twice or three times, and no other more than once. */
  predicate OneDigitRepeats(d: Digits) {
    exists x | 0 <= x <= 9 ::
      2 <= Times(d, x) <= 3 && forall y | 0 <= y <= 9 && y != x :: Times(d, y) <= 1
  }

  predicate TaxIdValid(d: Digits)
    requires |d| == 11
  {
    d[0] != 0 && OneDigitRepeats(d[..10]) && HybridValid(d)
  }

  predicate AreDigits(s: string) {
    forall i :: 0 <= i < |s| ==> '0' <= s[i] <= '9'
  }

  function DigitsOf(s: string): (d: Digits)
    requires AreDigits(s)
  {
    seq(|s|, i requires 0 <= i < |s| => s[i] as int - '0' as int)
  }

  /** Which digits below k come twice or three times. */
  ghost function Repeated(d: Digits, k: int): (r: set<int>) {
    set x | 0 <= x < k && 2 <= Times(d, x) <= 3
  }

  /** Whether exactly one digit repeats, decided from how many do. */
  lemma OneRepeatsWhenOneCounts(d: Digits)
    requires forall x :: 0 <= x <= 9 ==> Times(d, x) <= 3
    ensures |Repeated(d, 10)| == 1 <==> OneDigitRepeats(d)
  {
    var r := Repeated(d, 10);
    if |r| == 1 {
      var x :| x in r;
      assert r == {x} by {
        assert |r - {x}| == 0;
      }
      forall y | 0 <= y <= 9 && y != x ensures Times(d, y) <= 1 {
        assert y !in r;
      }
    }
    if OneDigitRepeats(d) {
      var x :| 0 <= x <= 9 && 2 <= Times(d, x) <= 3 && forall y | 0 <= y <= 9 && y != x :: Times(d, y) <= 1;
      assert r == {x};
    }
  }

  /** How often each digit occurs, counted in place. */
  method CountDigits(d: Digits) returns (counts: array<int>)
    ensures fresh(counts) && counts.Length == 10
    ensures forall x :: 0 <= x <= 9 ==> counts[x] == Times(d, x)
  {
    counts := new int[10](_ => 0);
    for i := 0 to |d|
      invariant forall x :: 0 <= x <= 9 ==> counts[x] == Times(d[..i], x)
    {
      assert d[..i + 1][..i] == d[..i];
      counts[d[i]] := counts[d[i]] + 1;
    }
    assert d[..|d|] == d;
  }

  method Repeats(d: Digits) returns (ok: bool)
    ensures ok <==> OneDigitRepeats(d)
  {
    var counts := CountDigits(d);
    var repeats := 0;
    for x := 0 to 10
      invariant forall y :: 0 <= y < x ==> Times(d, y) <= 3
      invariant repeats == |Repeated(d, x)|
    {
      assert Repeated(d, x + 1) == Repeated(d, x) + if 2 <= Times(d, x) <= 3 then {x} else {};
      if counts[x] == 2 || counts[x] == 3 {
        repeats := repeats + 1;
      } else if counts[x] > 3 {
        return false;
      }
    }
    OneRepeatsWhenOneCounts(d);
    ok := repeats == 1;
  }

  method HybridCheck(d: Digits) returns (ok: bool)
    requires d != []
    ensures ok <==> HybridValid(d)
  {
    var n := |d| - 1;
    var product := 10;
    for i := 0 to n
      invariant product == Hybrid(d[..i])
    {
      assert d[..i + 1][..i] == d[..i];
      var sum := (d[i] + product) % 10;
      if sum == 0 {
        sum := 10;
      }
      product := (2 * sum) % 11;
    }
    ok := (11 - product) % 10 == d[n];
  }

  /** The whole test, over eleven characters that need not be digits. */
  method CheckDETaxID(s: string) returns (ok: bool)
    requires |s| == 11
    ensures ok <==> AreDigits(s) && TaxIdValid(DigitsOf(s))
  {
    if s[0] == '0' {
      return false;
    }
    for i := 0 to 11
      invariant forall k :: 0 <= k < i ==> '0' <= s[k] <= '9'
    {
      if s[i] < '0' || s[i] > '9' {
        return false;
      }
    }
    var d := DigitsOf(s);
    ok := Repeats(d[..10]);
    if ok {
      ok := HybridCheck(d);
    }
  }

  /** A tax number with one digit wrong is never taken for another one. */
  lemma TaxIdCatchesOneWrongDigit(d: Digits, k: nat, x: int)
    requires |d| == 11 && TaxIdValid(d) && k < 11 && 0 <= x <= 9 && x != d[k]
    ensures !TaxIdValid(d[k := x])
  {
    HybridCatchesOneWrongDigit(d, k, x);
  }
}
