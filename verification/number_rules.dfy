/** The number detectors: payment card, social security number, tax number and telephone.
    Each is a few expressions with a test that decides, run over the windows of a text. */
module NumberRules {
  import opened Collections
  import opened NumberWindows
  import CheckDigits

  // --- Expressions -------------------------------------------------------------------------

  predicate AllDigits(s: string, i: nat, b: nat) {
    i <= b <= |s| && forall k :: i <= k < b ==> IsDigit(s[k])
  }

  predicate At(s: string, i: nat, allowed: string) {
    i < |s| && s[i] in allowed
  }

  predicate Edge(s: string, i: nat) {
    i <= |s| && Boundary(s, i)
  }

  /** n digits from i up to b, with at most one separator before each but the first. */
  predicate Grouped(s: string, i: nat, b: nat, n: nat, between: string)
    decreases n
  {
    n > 0 && i < b <= |s| && IsDigit(s[i]) &&
    if n == 1 then b == i + 1
    else Grouped(s, i + 1, b, n - 1, between) || (At(s, i + 1, between) && Grouped(s, i + 2, b, n - 1, between))
  }

  predicate GroupedOf(s: string, i: nat, b: nat, least: nat, most: nat, between: string) {
    exists n | least <= n <= most :: Grouped(s, i, b, n, between)
  }

  predicate CardExpr(s: string, i: nat, b: nat) {
    Edge(s, i) && Edge(s, b) && GroupedOf(s, i, b, 13, 19, " -")
  }

  predicate SsnExpr(s: string, i: nat, b: nat) {
    b == i + 11 && Edge(s, i) && Edge(s, b) && AllDigits(s, i, i + 3) && At(s, i + 3, " -")
    && AllDigits(s, i + 4, i + 6)
    && At(s, i + 6, " -") && AllDigits(s, i + 7, b)
  }

  predicate TaxIdExpr(s: string, i: nat, b: nat) {
    b == i + 11 && Edge(s, i) && Edge(s, b) && AllDigits(s, i, b)
  }

  predicate E164Expr(s: string, i: nat, b: nat) {
    At(s, i, "+") && Edge(s, b) && GroupedOf(s, i + 1, b, 8, 15, " .()-")
  }

  /** Three digits, a separator and four more, which end the number. */
  predicate UsRest(s: string, c: nat, b: nat) {
    b == c + 8 && AllDigits(s, c, c + 3) && At(s, c + 3, " .-") && AllDigits(s, c + 4, b) && Edge(s, b)
  }

  predicate UsExpr(s: string, i: nat, b: nat) {
    || (Edge(s, i) && AllDigits(s, i, i + 3) && At(s, i + 3, " .-") && UsRest(s, i + 4, b))
    || (At(s, i, "(") && AllDigits(s, i + 1, i + 4) && At(s, i + 4, ")")
        && (UsRest(s, i + 5, b) || (At(s, i + 5, " .-") && UsRest(s, i + 6, b))))
  }

  /** A trunk zero and k digits, a separator, and three to nine digits. */
  predicate DeGroups(s: string, i: nat, b: nat, k: nat) {
    At(s, i, "0") && AllDigits(s, i + 1, i + 1 + k) && At(s, i + 1 + k, " /-")
    && i + 2 + k + 3 <= b <= i + 2 + k + 9 && AllDigits(s, i + 2 + k, b)
  }

  predicate DeExpr(s: string, i: nat, b: nat) {
    Edge(s, i) && Edge(s, b) && exists k | 2 <= k <= 4 :: DeGroups(s, i, b, k)
  }

  // --- Tests ---------------------------------------------------------------------------------

  function OnlyDigits(s: string): (d: string)
    ensures CheckDigits.AreDigits(d)
  {
    if s == [] then []
    else OnlyDigits(s[..|s| - 1]) + if IsDigit(s[|s| - 1]) then [s[|s| - 1]] else []
  }

  function DigitsIn(s: string): CheckDigits.Digits {
    CheckDigits.DigitsOf(OnlyDigits(s))
  }

  predicate Uniform(d: CheckDigits.Digits) {
    forall i :: 1 <= i < |d| ==> d[i] == d[0]
  }

  function Prefix(d: CheckDigits.Digits, n: nat): int {
    if |d| < n then -1 else if n == 0 then 0 else Prefix(d, n - 1) * 10 + d[n - 1]
  }

  /** Whether the number opens with an issuer range in use. */
  predicate CardScheme(d: CheckDigits.Digits)
    requires d != []
  {
    var n, p2, p4 := |d|, Prefix(d, 2), Prefix(d, 4);
    || (d[0] == 4 && (n == 13 || n == 16 || n == 19))
    || (51 <= p2 <= 55 && n == 16)
    || (2221 <= p4 <= 2720 && n == 16)
    || ((p2 == 34 || p2 == 37) && n == 15)
    || ((p4 == 6011 || p2 == 65) && n >= 16)
    || (3528 <= p4 <= 3589 && n >= 16)
    || ((p2 == 36 || p2 == 38 || 300 <= p4 / 10 <= 305) && n >= 14)
  }

  function CheckCard(s: string): Option<Confidence> {
    var d := DigitsIn(s);
    if |d| < 13 || |d| > 19 || Uniform(d) || !CheckDigits.LuhnValid(d) then None
    else Some(if CardScheme(d) then High else Medium)
  }

  function CheckE164(s: string): Option<Confidence> {
    var d := DigitsIn(s);
    if 8 <= |d| <= 15 && !Uniform(d) then Some(Medium) else None
  }

  function CheckNationalPhone(s: string): Option<Confidence> {
    var d := DigitsIn(s);
    if 10 <= |d| <= 13 && !Uniform(d) then Some(Low) else None
  }

  /** The expression leaves exactly nine digits. */
  function CheckSsn(s: string): Option<Confidence> {
    var d := DigitsIn(s);
    if |d| != 9 then None
    else
      var area, group, serial := d[0..3], d[3..5], d[5..9];
      if area == [0, 0, 0] || area == [6, 6, 6] || area[0] == 9 || group == [0, 0] || serial == [0, 0, 0, 0] then None
      else Some(High)
  }

  /** The expression leaves exactly eleven characters. */
  function CheckTaxId(s: string): Option<Confidence> {
    if |s| == 11 && CheckDigits.AreDigits(s) && CheckDigits.TaxIdValid(CheckDigits.DigitsOf(s))
    then Some(High) else None
  }

  function CardRule(): Rule { Rule("luhn", CardExpr, CheckCard) }
  function SsnRule(): Rule { Rule("ssn", SsnExpr, CheckSsn) }
  function TaxIdRule(): Rule { Rule("steuer_id", TaxIdExpr, CheckTaxId) }
  function PhoneRules(): seq<Rule> {
    [Rule("e164", E164Expr, CheckE164), Rule("us", UsExpr, CheckNationalPhone), Rule("de", DeExpr, CheckNationalPhone)]
  }

  // --- Each is a number rule --------------------------------------------------------------------

  /** A rule a window of at least min digits loses nothing of. */
  ghost predicate FitsWindows(r: Rule, min: nat) {
    Numeric(r.expr) && Local(r.expr) && Enough(r, min)
  }

  lemma {:induction false} GroupedIsNumber(s: string, i: nat, b: nat, n: nat, between: string)
    requires Grouped(s, i, b, n, between) && forall c :: c in between ==> IsSep(c)
    ensures IsDigit(s[i]) && IsDigit(s[b - 1]) && b >= i + n
    ensures forall k :: i <= k < b ==> IsDigit(s[k]) || IsSep(s[k])
    decreases n
  {
    if n > 1 {
      GroupedIsNumber(s, if Grouped(s, i + 1, b, n - 1, between) then i + 1 else i + 2, b, n - 1, between);
    }
  }

  lemma {:induction false} GroupedMoves(s: string, lo: nat, hi: nat, i: nat, b: nat, n: nat, between: string)
    requires lo <= i && b <= hi <= |s| && lo <= b
    ensures Grouped(s, i, b, n, between) == Grouped(s[lo..hi], i - lo, b - lo, n, between)
    decreases n
  {
    if n > 1 && i < b {
      GroupedMoves(s, lo, hi, i + 1, b, n - 1, between);
      GroupedMoves(s, lo, hi, i + 2, b, n - 1, between);
      if i + 1 >= b {
        assert !Grouped(s, i + 2, b, n - 1, between) && !Grouped(s[lo..hi], i + 2 - lo, b - lo, n - 1, between);
      }
    }
  }

  lemma AllDigitsMoves(s: string, lo: nat, hi: nat, i: nat, b: nat)
    requires lo <= i && lo <= b <= hi <= |s|
    ensures AllDigits(s, i, b) == AllDigits(s[lo..hi], i - lo, b - lo)
  {
    var w := s[lo..hi];
    assert forall k :: lo <= k < hi ==> w[k - lo] == s[k];
    if AllDigits(w, i - lo, b - lo) {
      forall k | i <= k < b ensures IsDigit(s[k]) {
        assert IsDigit(w[k - lo]);
      }
    }
  }

  lemma GroupedOfIsNumber(s: string, i: nat, b: nat, least: nat, most: nat, between: string)
    requires GroupedOf(s, i, b, least, most, between) && least >= 2 && forall c :: c in between ==> IsSep(c)
    ensures i < b && Number(s, i, b)
  {
    var n :| least <= n <= most && Grouped(s, i, b, n, between);
    GroupedIsNumber(s, i, b, n, between);
  }

  lemma GroupedOfMoves(s: string, lo: nat, hi: nat, i: nat, b: nat, least: nat, most: nat, between: string)
    requires lo <= i && b <= hi <= |s| && lo <= b
    ensures GroupedOf(s, i, b, least, most, between) == GroupedOf(s[lo..hi], i - lo, b - lo, least, most, between)
  {
    var w := s[lo..hi];
    if GroupedOf(s, i, b, least, most, between) {
      var n :| least <= n <= most && Grouped(s, i, b, n, between);
      GroupedMoves(s, lo, hi, i, b, n, between);
      assert Grouped(w, i - lo, b - lo, n, between);
    }
    if GroupedOf(w, i - lo, b - lo, least, most, between) {
      var n :| least <= n <= most && Grouped(w, i - lo, b - lo, n, between);
      GroupedMoves(s, lo, hi, i, b, n, between);
      assert Grouped(s, i, b, n, between);
    }
  }

  lemma GroupsAreNumeric()
    ensures Numeric(CardExpr) && Numeric(E164Expr)
  {
    forall s, i: nat, b: nat | CardExpr(s, i, b) ensures i < b && Number(s, i, b) {
      GroupedOfIsNumber(s, i, b, 13, 19, " -");
    }
    forall s, i: nat, b: nat | E164Expr(s, i, b) ensures i < b && Number(s, i + 1, b) {
      GroupedOfIsNumber(s, i + 1, b, 8, 15, " .()-");
    }
  }

  lemma FixedShapesAreNumeric()
    ensures Numeric(SsnExpr) && Numeric(TaxIdExpr) && Numeric(UsExpr) && Numeric(DeExpr)
  {
    forall s, i: nat, b: nat | DeExpr(s, i, b) ensures i < b && Number(s, i, b) {
      var k :| 2 <= k <= 4 && DeGroups(s, i, b, k);
    }
  }

  /** An edge looks one character to each side. */
  lemma EdgeMoves(s: string, lo: nat, hi: nat, i: nat)
    requires lo <= i <= hi <= |s| && (lo == 0 || lo < i) && (hi == |s| || i < hi)
    ensures Edge(s, i) == Edge(s[lo..hi], i - lo)
  {
  }

  lemma GroupsAreLocal()
    ensures Local(CardExpr) && Local(E164Expr)
  {
    forall s, lo: nat, hi: nat, i: nat, b: nat
      | lo <= i <= b <= hi <= |s| && (lo == 0 || lo < i) && (hi == |s| || b < hi)
      ensures CardExpr(s, i, b) == CardExpr(s[lo..hi], i - lo, b - lo)
      ensures E164Expr(s, i, b) == E164Expr(s[lo..hi], i - lo, b - lo)
    {
      EdgeMoves(s, lo, hi, i);
      EdgeMoves(s, lo, hi, b);
      GroupedOfMoves(s, lo, hi, i, b, 13, 19, " -");
      GroupedOfMoves(s, lo, hi, i + 1, b, 8, 15, " .()-");
    }
  }

  lemma RunsAreLocal()
    ensures Local(SsnExpr) && Local(TaxIdExpr)
  {
    forall s, lo: nat, hi: nat, i: nat, b: nat
      | lo <= i <= b <= hi <= |s| && (lo == 0 || lo < i) && (hi == |s| || b < hi)
      ensures SsnExpr(s, i, b) == SsnExpr(s[lo..hi], i - lo, b - lo)
      ensures TaxIdExpr(s, i, b) == TaxIdExpr(s[lo..hi], i - lo, b - lo)
    {
      if b == i + 11 {
        EdgeMoves(s, lo, hi, i);
        EdgeMoves(s, lo, hi, b);
        AllDigitsMoves(s, lo, hi, i, b);
        AllDigitsMoves(s, lo, hi, i, i + 3);
        AllDigitsMoves(s, lo, hi, i + 4, i + 6);
        AllDigitsMoves(s, lo, hi, i + 7, b);
      }
    }
  }

  lemma UsRestMoves(s: string, lo: nat, hi: nat, c: nat, b: nat)
    requires lo < c && lo <= b <= hi <= |s| && (hi == |s| || b < hi)
    ensures UsRest(s, c, b) == UsRest(s[lo..hi], c - lo, b - lo)
  {
    if b == c + 8 {
      AllDigitsMoves(s, lo, hi, c, c + 3);
      AllDigitsMoves(s, lo, hi, c + 4, b);
      EdgeMoves(s, lo, hi, b);
    }
  }

  lemma DeGroupsMove(s: string, lo: nat, hi: nat, i: nat, b: nat, k: nat)
    requires lo <= i <= b <= hi <= |s|
    ensures DeGroups(s, i, b, k) == DeGroups(s[lo..hi], i - lo, b - lo, k)
  {
    if i + 2 + k + 3 <= b {
      AllDigitsMoves(s, lo, hi, i + 1, i + 1 + k);
      AllDigitsMoves(s, lo, hi, i + 2 + k, b);
    }
  }

  lemma UsIsLocal()
    ensures Local(UsExpr)
  {
    forall s, lo: nat, hi: nat, i: nat, b: nat
      | lo <= i <= b <= hi <= |s| && (lo == 0 || lo < i) && (hi == |s| || b < hi)
      ensures UsExpr(s, i, b) == UsExpr(s[lo..hi], i - lo, b - lo)
    {
      if i + 12 <= b {
        EdgeMoves(s, lo, hi, i);
        AllDigitsMoves(s, lo, hi, i, i + 3);
        AllDigitsMoves(s, lo, hi, i + 1, i + 4);
        UsRestMoves(s, lo, hi, i + 4, b);
        UsRestMoves(s, lo, hi, i + 5, b);
        UsRestMoves(s, lo, hi, i + 6, b);
      }
    }
  }

  lemma DeIsLocal()
    ensures Local(DeExpr)
  {
    forall s, lo: nat, hi: nat, i: nat, b: nat
      | lo <= i <= b <= hi <= |s| && (lo == 0 || lo < i) && (hi == |s| || b < hi)
      ensures DeExpr(s, i, b) == DeExpr(s[lo..hi], i - lo, b - lo)
    {
      EdgeMoves(s, lo, hi, i);
      EdgeMoves(s, lo, hi, b);
      DeGroupsMove(s, lo, hi, i, b, 2);
      DeGroupsMove(s, lo, hi, i, b, 3);
      DeGroupsMove(s, lo, hi, i, b, 4);
    }
  }

  /** What a test reads of a match is the digits the window counted. */
  lemma {:induction false} DigitsCounted(s: string, i: nat, b: nat)
    requires i <= b <= |s|
    ensures |OnlyDigits(s[i..b])| == Digits(s, i, b)
    decreases b
  {
    if i < b {
      assert s[i..b][..b - i - 1] == s[i..b - 1];
      DigitsCounted(s, i, b - 1);
    }
  }

  lemma EnoughDigits(r: Rule, min: nat)
    requires forall t: string :: r.grade(t).Some? ==> |OnlyDigits(t)| >= min
    ensures Enough(r, min)
  {
    forall s: string, i: nat, b: nat | i <= b <= |s| && r.expr(s, i, b) && r.grade(s[i..b]).Some?
      ensures Digits(s, i, b) >= min
    {
      DigitsCounted(s, i, b);
    }
  }

  lemma {:induction false} AllOfThemDigits(s: string)
    requires CheckDigits.AreDigits(s)
    ensures OnlyDigits(s) == s
  {
    if s != [] {
      AllOfThemDigits(s[..|s| - 1]);
      assert s == s[..|s| - 1] + [s[|s| - 1]];
    }
  }

  /** Every registered number rule fits the windows it is registered with. */
  lemma RegisteredRulesFit()
    ensures FitsWindows(CardRule(), 13) && FitsWindows(SsnRule(), 9) && FitsWindows(TaxIdRule(), 11)
    ensures forall r :: r in PhoneRules() ==> FitsWindows(r, 8)
  {
    GroupsAreNumeric();
    FixedShapesAreNumeric();
    GroupsAreLocal();
    RunsAreLocal();
    UsIsLocal();
    DeIsLocal();
    EnoughDigits(CardRule(), 13);
    EnoughDigits(SsnRule(), 9);
    forall t: string | TaxIdRule().grade(t).Some? ensures |OnlyDigits(t)| >= 11 {
      AllOfThemDigits(t);
    }
    EnoughDigits(TaxIdRule(), 11);
    forall r | r in PhoneRules() ensures FitsWindows(r, 8) {
      EnoughDigits(r, 8);
    }
  }

  // --- The detector --------------------------------------------------------------------------------

  /** A detector stops at one hit more than a scan records. */
  const FIND_CAP := 101

  function First(h: seq<Hit>): (r: seq<Hit>)
    ensures |r| <= FIND_CAP && r <= h
  {
    if |h| <= FIND_CAP then h else h[..FIND_CAP]
  }

  /** Every rule's hits in one window. */
  function RuleHits(rules: seq<Rule>, s: string, w: Span): seq<Hit>
    requires w.start <= w.end <= |s|
  {
    if rules == [] then [] else HitsIn(rules[0], s, w) + RuleHits(rules[1..], s, w)
  }

  /** Window by window. */
  function DetectorHits(rules: seq<Rule>, s: string, ws: seq<Span>): seq<Hit>
    requires Inside(s, ws)
  {
    if ws == [] then [] else RuleHits(rules, s, ws[0]) + DetectorHits(rules, s, ws[1..])
  }

  /** Hits kept so far and hits still to come make the goal. */
  ghost predicate OnTheWay(out: seq<Hit>, rest: seq<Hit>, goal: seq<Hit>) {
    |out| <= FIND_CAP && First(out + rest) == goal
  }

  lemma FullIsDone(out: seq<Hit>, rest: seq<Hit>, goal: seq<Hit>)
    requires OnTheWay(out, rest, goal) && |out| == FIND_CAP
    ensures out == goal
  {
    assert First(out + rest) == out;
  }

  lemma NextHit(out: seq<Hit>, x: seq<Hit>, rest: seq<Hit>, goal: seq<Hit>)
    requires OnTheWay(out, x + rest, goal) && |x| <= 1 && |out| < FIND_CAP
    ensures OnTheWay(out + x, rest, goal)
  {
    assert out + (x + rest) == out + x + rest;
  }

  /** One rule's matches in a window, added until the cap. */
  method AddMatches(r: Rule, w: string, off: nat, found: seq<Span>, before: seq<Hit>) returns (out: seq<Hit>)
    requires forall k :: 0 <= k < |found| ==> found[k].start <= found[k].end <= |w|
    requires |before| <= FIND_CAP
    ensures out == First(before + Graded(r, w, off, found))
  {
    ghost var goal := First(before + Graded(r, w, off, found));
    out := before;
    assert found[0..] == found;
    for k := 0 to |found|
      invariant OnTheWay(out, Graded(r, w, off, found[k..]), goal)
    {
      if |out| >= FIND_CAP {
        FullIsDone(out, Graded(r, w, off, found[k..]), goal);
        return;
      }
      assert found[k..][1..] == found[k + 1..];
      ghost var rest := Graded(r, w, off, found[k + 1..]);
      var c := r.grade(w[found[k].start..found[k].end]);
      if c.Some? {
        NextHit(out, [Hit(off + found[k].start, off + found[k].end, c.value, r.name)], rest, goal);
        out := out + [Hit(off + found[k].start, off + found[k].end, c.value, r.name)];
      } else {
        assert [] + rest == rest;
      }
    }
    assert out + [] == out;
  }

  /** All the rules over one window. */
  method FindIn(rules: seq<Rule>, s: string, w: Span, before: seq<Hit>) returns (out: seq<Hit>)
    requires w.start <= w.end <= |s| && |before| <= FIND_CAP
    ensures out == First(before + RuleHits(rules, s, w))
  {
    var text := s[w.start..w.end];
    out := before;
    assert rules[0..] == rules;
    for i := 0 to |rules|
      invariant OnTheWay(out, RuleHits(rules[i..], s, w), First(before + RuleHits(rules, s, w)))
    {
      assert rules[i..][1..] == rules[i + 1..];
      var hits := AddMatches(rules[i], text, w.start, FindAll(rules[i].expr, text), out);
      CapTwice(out, HitsIn(rules[i], s, w), RuleHits(rules[i + 1..], s, w));
      out := hits;
    }
    assert out + [] == out;
  }

  /** Capping on the way and at the end is capping at the end. */
  lemma CapTwice(out: seq<Hit>, x: seq<Hit>, rest: seq<Hit>)
    ensures First(First(out + x) + rest) == First(out + (x + rest))
  {
    assert out + (x + rest) == out + x + rest;
  }

  /** Find: the windows in order, until the cap. */
  method Find(rules: seq<Rule>, s: string, min: nat) returns (out: seq<Hit>)
    ensures out == First(DetectorHits(rules, s, Windows(s, min)))
  {
    out := [];
    var windows := DigitSpans(s, min);
    ghost var goal := First(DetectorHits(rules, s, windows));
    assert windows[0..] == windows;
    assert [] + DetectorHits(rules, s, windows) == DetectorHits(rules, s, windows);
    for k := 0 to |windows|
      invariant OnTheWay(out, DetectorHits(rules, s, windows[k..]), goal)
    {
      assert windows[k..][1..] == windows[k + 1..];
      var hits := FindIn(rules, s, windows[k], out);
      CapTwice(out, RuleHits(rules, s, windows[k]), DetectorHits(rules, s, windows[k + 1..]));
      out := hits;
      if |out| >= FIND_CAP {
        FullIsDone(out, DetectorHits(rules, s, windows[k + 1..]), goal);
        break;
      }
    }
    assert out + [] == out;
  }

  // --- And what it finds --------------------------------------------------------------------------

  lemma {:induction false} OneRuleHits(r: Rule, s: string, ws: seq<Span>)
    requires Inside(s, ws)
    ensures DetectorHits([r], s, ws) == WindowHits(r, s, ws)
  {
    if ws != [] {
      OneRuleHits(r, s, ws[1..]);
      assert [r][1..] == [];
      assert RuleHits([r], s, ws[0]) == HitsIn(r, s, ws[0]) + [];
    }
  }

  /** A detector of one rule reports the first of the hits the whole text has. The card,
      social security and tax number detectors are such. */
  lemma WholeTextIsSearched(s: string)
    ensures First(DetectorHits([CardRule()], s, Windows(s, 13))) == First(AllHits(CardRule(), s))
    ensures First(DetectorHits([SsnRule()], s, Windows(s, 9))) == First(AllHits(SsnRule(), s))
    ensures First(DetectorHits([TaxIdRule()], s, Windows(s, 11))) == First(AllHits(TaxIdRule(), s))
  {
    RegisteredRulesFit();
    OneRuleHits(CardRule(), s, Windows(s, 13));
    WindowsFindEveryHit(CardRule(), s, 13);
    OneRuleHits(SsnRule(), s, Windows(s, 9));
    WindowsFindEveryHit(SsnRule(), s, 9);
    OneRuleHits(TaxIdRule(), s, Windows(s, 11));
    WindowsFindEveryHit(TaxIdRule(), s, 11);
  }

  lemma {:induction false} HitOfSomeRule(rules: seq<Rule>, s: string, w: Span, h: Hit)
    requires w.start <= w.end <= |s|
    ensures h in RuleHits(rules, s, w) <==> exists r :: r in rules && h in HitsIn(r, s, w)
  {
    if rules != [] {
      HitOfSomeRule(rules[1..], s, w, h);
      assert forall r :: r in rules <==> r == rules[0] || r in rules[1..];
    }
  }

  lemma {:induction false} HitOfTheDetector(rules: seq<Rule>, s: string, ws: seq<Span>, h: Hit)
    requires Inside(s, ws)
    ensures h in DetectorHits(rules, s, ws) <==> exists r :: r in rules && h in WindowHits(r, s, ws)
  {
    if ws != [] {
      HitOfTheDetector(rules, s, ws[1..], h);
      HitOfSomeRule(rules, s, ws[0], h);
    }
  }

  /** The telephone detector, which has three rules, has exactly the hits its rules have in
      the whole text. */
  lemma PhoneHitsAreTheWholeTexts(s: string, h: Hit)
    ensures h in DetectorHits(PhoneRules(), s, Windows(s, 8)) <==> exists r :: r in PhoneRules() && h in AllHits(r, s)
  {
    RegisteredRulesFit();
    HitOfTheDetector(PhoneRules(), s, Windows(s, 8), h);
    forall r | r in PhoneRules() ensures WindowHits(r, s, Windows(s, 8)) == AllHits(r, s) {
      WindowsFindEveryHit(r, s, 8);
    }
  }
}
