/** What the card, social security and tax number detectors report, in terms of the text. */
module NumberFacts {
  import opened Collections
  import opened NumberWindows
  import opened NumberRules
  import CheckDigits

  // --- A search misses nothing ---------------------------------------------------------------

  /** In order, and none overlapping the next. */
  predicate Apart(found: seq<Span>) {
    forall k :: 0 < k < |found| ==> found[k - 1].end <= found[k].start
  }

  predicate Touches(found: seq<Span>, i: nat) {
    exists k :: 0 <= k < |found| && found[k].start <= i < found[k].end
  }

  lemma {:induction false} SearchFrom(m: Expression, s: string, i: nat)
    requires i <= |s|
    ensures Apart(NumberWindows.FindIn(m, s, i, |s|))
    ensures forall a, b :: i <= a < b <= |s| && m(s, a, b) ==> Touches(NumberWindows.FindIn(m, s, i, |s|), a)
    decreases |s| - i
  {
    if i < |s| {
      match EndOf(m, s, i)
      case None =>
        SearchFrom(m, s, i + 1);
      case Some(end) =>
        SearchFrom(m, s, end);
        TouchedSooner(Span(i, end), NumberWindows.FindIn(m, s, end, |s|));
    }
  }

  lemma TouchedSooner(first: Span, rest: seq<Span>)
    requires Apart(rest) && (rest != [] ==> first.end <= rest[0].start)
    ensures Apart([first] + rest)
    ensures forall i: nat :: first.start <= i < first.end ==> Touches([first] + rest, i)
    ensures forall i: nat :: Touches(rest, i) ==> Touches([first] + rest, i)
  {
    var all := [first] + rest;
    forall k | 0 < k < |all| ensures all[k - 1].end <= all[k].start {
      if k > 1 {
        assert all[k] == rest[k - 1] && all[k - 1] == rest[k - 1 - 1];
      }
    }
    forall i: nat | first.start <= i < first.end ensures Touches(all, i) {
      assert all[0] == first;
    }
    forall i: nat | Touches(rest, i) ensures Touches(all, i) {
      var k :| 0 <= k < |rest| && rest[k].start <= i < rest[k].end;
      assert all[k + 1] == rest[k];
    }
  }

  /** The matches of a search are apart, and each place where the expression matches lies in
      one of them. */
  lemma SearchMissesNothing(m: Expression, s: string)
    ensures Apart(FindAll(m, s))
    ensures forall k :: 0 <= k < |FindAll(m, s)| ==> m(s, FindAll(m, s)[k].start, FindAll(m, s)[k].end)
    ensures forall a, b :: 0 <= a < b <= |s| && m(s, a, b) ==> Touches(FindAll(m, s), a)
  {
    SearchFrom(m, s, 0);
    FoundMatches(m, s, 0, |s|);
    var found := FindAll(m, s);
    forall k | 0 <= k < |found| ensures m(s, found[k].start, found[k].end) {
      assert EndOf(m, s, found[k].start) == Some(found[k].end);
    }
  }

  // --- A hit is a number -------------------------------------------------------------------

  lemma {:induction false} HitsArePassing(r: Rule, s: string, found: seq<Span>, h: Hit)
    requires AreMatches(r.expr, s, found)
    requires forall k :: 0 <= k < |found| ==> found[k].start <= found[k].end <= |s|
    requires h in Graded(r, s, 0, found)
    ensures h.start < h.end <= |s| && r.expr(s, h.start, h.end)
    ensures r.grade(s[h.start..h.end]) == Some(h.confidence) && h.rule == r.name
  {
    if h in Graded(r, s, 0, found[1..]) {
      HitsArePassing(r, s, found[1..], h);
    } else {
      assert EndOf(r.expr, s, found[0].start) == Some(found[0].end);
    }
  }

  lemma HitsAreMatches(r: Rule, s: string, h: Hit)
    requires h in AllHits(r, s)
    ensures h.start < h.end <= |s| && r.expr(s, h.start, h.end)
    ensures r.grade(s[h.start..h.end]) == Some(h.confidence) && h.rule == r.name
  {
    FoundMatches(r.expr, s, 0, |s|);
    HitsArePassing(r, s, FindAll(r.expr, s), h);
  }

  /** Digits with at most one space or hyphen between two of them. */
  predicate Spaced(t: string) {
    && t != [] && IsDigit(t[0]) && IsDigit(t[|t| - 1])
    && (forall k :: 0 <= k < |t| ==> IsDigit(t[k]) || t[k] == ' ' || t[k] == '-')
    && forall k :: 0 < k < |t| ==> IsDigit(t[k - 1]) || IsDigit(t[k])
  }

  /** Thirteen to nineteen digits, not all the same, that satisfy the Luhn formula. */
  predicate CardDigits(d: CheckDigits.Digits) {
    13 <= |d| <= 19 && (exists i, j :: 0 <= i < j < |d| && d[i] != d[j]) && CheckDigits.LuhnValid(d)
  }

  /** Three, two and four digits, none of the parts all zeros, the first neither 666 nor from
      900 on. */
  predicate SsnDigits(d: CheckDigits.Digits) {
    && |d| == 9
    && Number3(d[0], d[1], d[2]) !in {0, 666} && Number3(d[0], d[1], d[2]) < 900
    && (d[3] != 0 || d[4] != 0)
    && (d[5] != 0 || d[6] != 0 || d[7] != 0 || d[8] != 0)
  }

  function Number3(a: int, b: int, c: int): int {
    100 * a + 10 * b + c
  }

  lemma CardIsGradedExactlyWhen(t: string)
    ensures CheckCard(t).Some? <==> CardDigits(DigitsIn(t))
  {
    var d := DigitsIn(t);
    if !Uniform(d) {
      var i :| 1 <= i < |d| && d[i] != d[0];
      assert d[0] != d[i];
    }
  }

  lemma SsnIsGradedExactlyWhen(t: string)
    ensures CheckSsn(t).Some? <==> SsnDigits(DigitsIn(t))
  {
    var d := DigitsIn(t);
    if |d| == 9 {
      assert d[0..3] == [d[0], d[1], d[2]];
      assert d[3..5] == [d[3], d[4]];
      assert d[5..9] == [d[5], d[6], d[7], d[8]];
    }
  }

  /** A stretch of the text that stands on its own: no letter, digit or underscore before it
      or after it. */
  predicate Alone(s: string, i: nat, b: nat) {
    i < b <= |s| && (i == 0 || !IsWord(s[i - 1])) && (b == |s| || !IsWord(s[b]))
  }

  lemma {:induction false} GroupedIsSpaced(s: string, i: nat, b: nat, n: nat)
    requires Grouped(s, i, b, n, " -")
    ensures Spaced(s[i..b]) && Digits(s, i, b) == n
    decreases n
  {
    var t := s[i..b];
    if n == 1 {
      assert Digits(s, i, i) == 0;
    } else {
      var next := if Grouped(s, i + 1, b, n - 1, " -") then i + 1 else i + 2;
      GroupedIsSpaced(s, next, b, n - 1);
      var rest := s[next..b];
      assert forall k :: next - i <= k < |t| ==> t[k] == rest[k - (next - i)];
      DigitsAddUp(s, i, i + 1, b);
      if next == i + 2 {
        DigitsAddUp(s, i + 1, i + 2, b);
        assert Digits(s, i + 1, i + 1) == 0;
      }
      assert Digits(s, i, i) == 0;
    }
  }

  lemma {:induction false} SpacedIsGrouped(s: string, i: nat, b: nat)
    requires i < b <= |s| && Spaced(s[i..b])
    ensures Digits(s, i, b) > 0 && Grouped(s, i, b, Digits(s, i, b), " -")
    decreases b - i
  {
    var t := s[i..b];
    assert Digits(s, i, i) == 0;
    DigitsAddUp(s, i, i + 1, b);
    if b > i + 1 {
      var next := if IsDigit(t[1]) then i + 1 else i + 2;
      var rest := s[next..b];
      assert forall k :: 0 <= k < |rest| ==> rest[k] == t[k + (next - i)];
      if !IsDigit(t[1]) {
        var k := 2;
        assert k < |t| && (IsDigit(t[k - 1]) || IsDigit(t[k]));
      }
      SpacedIsGrouped(s, next, b);
      if next == i + 2 {
        assert Digits(s, i + 1, i + 1) == 0;
        DigitsAddUp(s, i + 1, i + 2, b);
      }
    }
  }

  /** A card hit is thirteen to nineteen digits that pass the Luhn test, in a stretch that
      holds nothing else but single spaces and hyphens and stands on its own. */
  lemma ACardHitIsACard(s: string, h: Hit)
    requires h in AllHits(CardRule(), s)
    ensures Alone(s, h.start, h.end) && Spaced(s[h.start..h.end])
    ensures CardDigits(DigitsIn(s[h.start..h.end]))
  {
    HitsAreMatches(CardRule(), s, h);
    CardMatch(s, h.start, h.end);
    CardIsGradedExactlyWhen(s[h.start..h.end]);
  }

  lemma CardMatch(s: string, i: nat, b: nat)
    requires CardExpr(s, i, b)
    ensures Alone(s, i, b) && Spaced(s[i..b])
  {
    var n :| 13 <= n <= 19 && Grouped(s, i, b, n, " -");
    GroupedIsSpaced(s, i, b, n);
    GroupedIsNumber(s, i, b, n, " -");
  }

  lemma AnSsnHitIsAnSsn(s: string, h: Hit)
    requires h in AllHits(SsnRule(), s)
    ensures Alone(s, h.start, h.end) && Spaced(s[h.start..h.end]) && SsnDigits(DigitsIn(s[h.start..h.end]))
  {
    HitsAreMatches(SsnRule(), s, h);
    SsnIsGradedExactlyWhen(s[h.start..h.end]);
  }

  lemma ATaxIdHitIsATaxId(s: string, h: Hit)
    requires h in AllHits(TaxIdRule(), s)
    ensures h.end == h.start + 11 && Alone(s, h.start, h.end)
    ensures var t := s[h.start..h.end];
            CheckDigits.AreDigits(t) && CheckDigits.TaxIdValid(CheckDigits.DigitsOf(t))
  {
    HitsAreMatches(TaxIdRule(), s, h);
  }

  /** A telephone hit ends its word, holds two different digits, and has as many digits as its
      form allows. */
  lemma APhoneHitIsANumber(r: Rule, s: string, h: Hit)
    requires r in PhoneRules() && h in AllHits(r, s)
    ensures h.start < h.end <= |s| && (h.end == |s| || !IsWord(s[h.end]))
    ensures PhoneDigits(s[h.start] == '+', DigitsIn(s[h.start..h.end]))
  {
    HitsAreMatches(r, s, h);
    PhoneMatch(r, s, h.start, h.end);
    PhoneGrade(r, s[h.start..h.end]);
  }

  predicate PhoneDigits(international: bool, d: CheckDigits.Digits) {
    && (exists i, j :: 0 <= i < j < |d| && d[i] != d[j])
    && if international then 8 <= |d| <= 15 else 10 <= |d| <= 13
  }

  lemma PhoneMatch(r: Rule, s: string, i: nat, b: nat)
    requires r in PhoneRules() && r.expr(s, i, b)
    ensures i < b <= |s| && (b == |s| || !IsWord(s[b])) && (s[i] == '+' <==> r.name == "e164")
  {
    GroupsAreNumeric();
    FixedShapesAreNumeric();
    NumberAt(r.expr, s, i, b);
  }

  lemma PhoneGrade(r: Rule, t: string)
    requires r in PhoneRules() && r.grade(t).Some?
    ensures PhoneDigits(r.name == "e164", DigitsIn(t))
  {
    var d := DigitsIn(t);
    var i :| 1 <= i < |d| && d[i] != d[0];
    assert d[0] != d[i];
  }

  // --- And a number is a hit ---------------------------------------------------------------

  /** The one digit-bearing stretch of a text. */
  predicate OnlyNumber(s: string, lo: nat, hi: nat) {
    Alone(s, lo, hi) && forall k :: 0 <= k < |s| && IsDigit(s[k]) ==> lo <= k < hi
  }

  /** Matches begin and end with a digit. */
  ghost predicate FromDigitToDigit(m: Expression) {
    forall s, i: nat, b: nat :: m(s, i, b) ==> i < b <= |s| && IsDigit(s[i]) && IsDigit(s[b - 1])
  }

  lemma NumbersGoFromDigitToDigit()
    ensures FromDigitToDigit(CardExpr) && FromDigitToDigit(SsnExpr) && FromDigitToDigit(TaxIdExpr)
  {
    forall s, i: nat, b: nat | CardExpr(s, i, b) ensures i < b <= |s| && IsDigit(s[i]) && IsDigit(s[b - 1]) {
      var n :| 13 <= n <= 19 && Grouped(s, i, b, n, " -");
      GroupedIsNumber(s, i, b, n, " -");
    }
  }

  lemma {:induction false} NoDigitNoMatch(m: Expression, s: string, i: nat, stop: nat)
    requires i <= stop <= |s| && FromDigitToDigit(m) && forall k :: i <= k < stop ==> !IsDigit(s[k])
    ensures NumberWindows.FindIn(m, s, i, |s|) == NumberWindows.FindIn(m, s, stop, |s|)
    decreases stop - i
  {
    if i < stop {
      assert EndOf(m, s, i) == None;
      NoDigitNoMatch(m, s, i + 1, stop);
    }
  }

  lemma TheOnlyMatch(m: Expression, s: string, lo: nat, hi: nat)
    requires FromDigitToDigit(m) && OnlyNumber(s, lo, hi) && m(s, lo, hi)
    ensures FindAll(m, s) == [Span(lo, hi)]
  {
    NoDigitNoMatch(m, s, 0, lo);
    assert EndOf(m, s, lo) == Some(hi);
    NoDigitNoMatch(m, s, hi, |s|);
  }

  lemma TheOnlyHit(r: Rule, s: string, lo: nat, hi: nat)
    requires FromDigitToDigit(r.expr) && OnlyNumber(s, lo, hi) && r.expr(s, lo, hi)
    ensures var c := r.grade(s[lo..hi]);
            AllHits(r, s) == if c.Some? then [Hit(lo, hi, c.value, r.name)] else []
  {
    TheOnlyMatch(r.expr, s, lo, hi);
    var found := [Span(lo, hi)];
    assert Graded(r, s, 0, found[1..]) == [];
    assert s[found[0].start..found[0].end] == s[lo..hi];
  }

  /** A stretch of thirteen to nineteen digits, however spaced, among words without digits is
      reported, whole and alone, if and only if it is a card number. */
  lemma ACardAmongWordsIsFound(s: string, lo: nat, hi: nat)
    requires OnlyNumber(s, lo, hi) && Spaced(s[lo..hi]) && 13 <= |DigitsIn(s[lo..hi])| <= 19
    ensures if CardDigits(DigitsIn(s[lo..hi])) then
              |AllHits(CardRule(), s)| == 1
              && var h := AllHits(CardRule(), s)[0]; h.start == lo && h.end == hi && h.rule == "luhn"
            else AllHits(CardRule(), s) == []
  {
    DigitsCounted(s, lo, hi);
    SpacedIsGrouped(s, lo, hi);
    assert CardExpr(s, lo, hi);
    NumbersGoFromDigitToDigit();
    TheOnlyHit(CardRule(), s, lo, hi);
    CardIsGradedExactlyWhen(s[lo..hi]);
  }

  /** Eleven digits. */
  lemma ATaxIdAmongWordsIsFound(s: string, lo: nat, hi: nat)
    requires OnlyNumber(s, lo, hi) && hi == lo + 11 && CheckDigits.AreDigits(s[lo..hi])
    ensures AllHits(TaxIdRule(), s)
         == if CheckDigits.TaxIdValid(CheckDigits.DigitsOf(s[lo..hi])) then [Hit(lo, hi, High, "steuer_id")] else []
  {
    var t := s[lo..hi];
    assert forall k :: lo <= k < hi ==> s[k] == t[k - lo];
    assert TaxIdExpr(s, lo, hi);
    NumbersGoFromDigitToDigit();
    TheOnlyHit(TaxIdRule(), s, lo, hi);
  }

  /** Nine digits in groups of three, two and four. */
  lemma AnSsnAmongWordsIsFound(s: string, lo: nat, hi: nat)
    requires OnlyNumber(s, lo, hi) && hi == lo + 11 && Spaced(s[lo..hi])
    requires !IsDigit(s[lo + 3]) && !IsDigit(s[lo + 6]) && |DigitsIn(s[lo..hi])| == 9
    ensures AllHits(SsnRule(), s)
         == if SsnDigits(DigitsIn(s[lo..hi])) then [Hit(lo, hi, High, "ssn")] else []
  {
    var t := s[lo..hi];
    assert forall k :: lo <= k < hi ==> s[k] == t[k - lo];
    DigitsCounted(s, lo, hi);
    NineDigits(s, lo);
    assert SsnExpr(s, lo, hi);
    NumbersGoFromDigitToDigit();
    TheOnlyHit(SsnRule(), s, lo, hi);
    SsnIsGradedExactlyWhen(t);
  }

  lemma NineDigits(s: string, lo: nat)
    requires lo + 11 <= |s| && !IsDigit(s[lo + 3]) && !IsDigit(s[lo + 6]) && Digits(s, lo, lo + 11) == 9
    ensures AllDigits(s, lo, lo + 3) && AllDigits(s, lo + 4, lo + 6) && AllDigits(s, lo + 7, lo + 11)
  {
    FewDigits(s, lo, lo + 3);
    DigitsAddUp(s, lo, lo + 3, lo + 11);
    DigitsAddUp(s, lo + 3, lo + 4, lo + 11);
    assert Digits(s, lo + 3, lo + 3) == 0;
    FewDigits(s, lo + 4, lo + 6);
    DigitsAddUp(s, lo + 4, lo + 6, lo + 11);
    DigitsAddUp(s, lo + 6, lo + 7, lo + 11);
    assert Digits(s, lo + 6, lo + 6) == 0;
    FewDigits(s, lo + 7, lo + 11);
  }

  /** Every character counts as a digit only where all are. */
  lemma {:induction false} FewDigits(s: string, i: nat, b: nat)
    requires i <= b <= |s|
    ensures Digits(s, i, b) <= b - i && (Digits(s, i, b) == b - i ==> AllDigits(s, i, b))
    decreases b - i
  {
    if i < b {
      FewDigits(s, i, b - 1);
    }
  }
}
