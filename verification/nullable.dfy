/** The check a custom pattern passes before it is saved: it must not be able to match an
    empty span. */
module Nullable {

  /** A parsed expression. A literal is given by what each of its runes admits. */
  datatype Re =
    | NoMatch
    | EmptyMatch
    | Literal(runes: seq<set<char>>)
    | CharClass(admits: set<char>)
    | AnyChar
    | AnyCharNotNL
    | Assertion(kind: Edge)
    | Capture(sub: Re)
    | Star(sub: Re)
    | Plus(sub: Re)
    | Quest(sub: Re)
    | Repeat(sub: Re, min: nat, max: int)
    | Concat(subs: seq<Re>)
    | Alternate(subs: seq<Re>)

  datatype Edge = BeginLine | EndLine | BeginText | EndText | WordBoundary | NoWordBoundary

  /** The check. */
  predicate CanBeEmpty(re: Re) {
    match re
    case EmptyMatch => true
    case Assertion(_) => true
    case Literal(runes) => |runes| == 0
    case Capture(sub) => CanBeEmpty(sub)
    case Plus(sub) => CanBeEmpty(sub)
    case Star(_) => true
    case Quest(_) => true
    case Repeat(sub, min, _) => min == 0 || CanBeEmpty(sub)
    case Concat(subs) => forall i :: 0 <= i < |subs| ==> CanBeEmpty(subs[i])
    case Alternate(subs) => exists i :: 0 <= i < |subs| && CanBeEmpty(subs[i])
    case _ => false
  }

  // --- What an expression matches -----------------------------------------------------------

  predicate IsWord(s: string, i: int) {
    0 <= i < |s| && ('0' <= s[i] <= '9' || 'a' <= s[i] <= 'z' || 'A' <= s[i] <= 'Z' || s[i] == '_')
  }

  predicate Holds(kind: Edge, s: string, i: nat)
    requires i <= |s|
  {
    match kind
    case BeginLine => i == 0 || s[i - 1] == '\n'
    case EndLine => i == |s| || s[i] == '\n'
    case BeginText => i == 0
    case EndText => i == |s|
    case WordBoundary => IsWord(s, i - 1) != IsWord(s, i)
    case NoWordBoundary => IsWord(s, i - 1) == IsWord(s, i)
  }

  /** Whether re matches s[i..j]. In the lax reading every assertion holds everywhere. */
  ghost predicate Matches(re: Re, s: string, i: nat, j: nat, lax: bool)
    decreases re, 1, 0
  {
    i <= j <= |s| &&
    match re
    case NoMatch => false
    case EmptyMatch => i == j
    case Literal(runes) => j - i == |runes| && forall k :: 0 <= k < |runes| ==> s[i + k] in runes[k]
    case CharClass(admits) => j == i + 1 && s[i] in admits
    case AnyChar => j == i + 1
    case AnyCharNotNL => j == i + 1 && s[i] != '\n'
    case Assertion(kind) => i == j && (lax || Holds(kind, s, i))
    case Capture(sub) => Matches(sub, s, i, j, lax)
    case Star(sub) => exists n: nat :: Times(sub, n, s, i, j, lax)
    case Plus(sub) => exists n: nat :: n >= 1 && Times(sub, n, s, i, j, lax)
    case Quest(sub) => exists n: nat :: n <= 1 && Times(sub, n, s, i, j, lax)
    case Repeat(sub, min, max) => exists n: nat :: min <= n && (max < 0 || n <= max) && Times(sub, n, s, i, j, lax)
    case Concat(subs) => InTurn(re, |subs|, s, i, j, lax)
    case Alternate(subs) => exists k :: 0 <= k < |subs| && Matches(subs[k], s, i, j, lax)
  }

  /** n matches of re, one after the other. */
  ghost predicate Times(re: Re, n: nat, s: string, i: nat, j: nat, lax: bool)
    decreases re, 2, n
  {
    if n == 0 then i == j <= |s|
    else exists k: nat :: Times(re, n - 1, s, i, k, lax) && Matches(re, s, k, j, lax)
  }

  /** The first n of several, one after the other. */
  ghost predicate InTurn(re: Re, n: nat, s: string, i: nat, j: nat, lax: bool)
    requires re.Concat? && n <= |re.subs|
    decreases re, 0, n
  {
    if n == 0 then i == j <= |s|
    else
      var last := re.subs[n - 1];
      exists k: nat :: InTurn(re, n - 1, s, i, k, lax) && Matches(last, s, k, j, lax)
  }

  /** As a parser makes them: a repetition has a most that is no less than its least. */
  predicate WellFormed(re: Re) {
    match re
    case Capture(sub) => WellFormed(sub)
    case Star(sub) => WellFormed(sub)
    case Plus(sub) => WellFormed(sub)
    case Quest(sub) => WellFormed(sub)
    case Repeat(sub, min, max) => (max < 0 || min <= max) && WellFormed(sub)
    case Concat(subs) => forall i :: 0 <= i < |subs| ==> WellFormed(subs[i])
    case Alternate(subs) => forall i :: 0 <= i < |subs| ==> WellFormed(subs[i])
    case _ => true
  }

  predicate NoAssertions(re: Re) {
    match re
    case Assertion(_) => false
    case Capture(sub) => NoAssertions(sub)
    case Star(sub) => NoAssertions(sub)
    case Plus(sub) => NoAssertions(sub)
    case Quest(sub) => NoAssertions(sub)
    case Repeat(sub, _, _) => NoAssertions(sub)
    case Concat(subs) => forall i :: 0 <= i < |subs| ==> NoAssertions(subs[i])
    case Alternate(subs) => forall i :: 0 <= i < |subs| ==> NoAssertions(subs[i])
    case _ => true
  }

  // --- An empty match can only come from an expression the check refuses -----------------------

  lemma {:induction false} TimesForward(re: Re, n: nat, s: string, i: nat, j: nat, lax: bool)
    requires Times(re, n, s, i, j, lax)
    ensures i <= j <= |s|
    decreases n
  {
    if n > 0 {
      var k: nat :| Times(re, n - 1, s, i, k, lax) && Matches(re, s, k, j, lax);
      TimesForward(re, n - 1, s, i, k, lax);
    }
  }

  lemma {:induction false} InTurnForward(re: Re, n: nat, s: string, i: nat, j: nat, lax: bool)
    requires re.Concat? && n <= |re.subs| && InTurn(re, n, s, i, j, lax)
    ensures i <= j <= |s|
    decreases n
  {
    if n > 0 {
      var k: nat :| InTurn(re, n - 1, s, i, k, lax) && Matches(re.subs[n - 1], s, k, j, lax);
      InTurnForward(re, n - 1, s, i, k, lax);
    }
  }

  lemma {:induction false} EmptyMatchIsRefused(re: Re, s: string, i: nat, lax: bool)
    requires Matches(re, s, i, i, lax)
    ensures CanBeEmpty(re)
    decreases re, 1, 0
  {
    match re
    case Capture(sub) => EmptyMatchIsRefused(sub, s, i, lax);
    case Plus(sub) =>
      var n: nat :| n >= 1 && Times(sub, n, s, i, i, lax);
      EmptyTimes(sub, n, s, i, lax);
    case Repeat(sub, min, max) =>
      var n: nat :| min <= n && (max < 0 || n <= max) && Times(sub, n, s, i, i, lax);
      if min > 0 {
        EmptyTimes(sub, n, s, i, lax);
      }
    case Concat(subs) => EmptyInTurn(re, |subs|, s, i, lax);
    case Alternate(subs) =>
      var k :| 0 <= k < |subs| && Matches(subs[k], s, i, i, lax);
      EmptyMatchIsRefused(subs[k], s, i, lax);
    case _ =>
  }

  lemma {:induction false} EmptyTimes(re: Re, n: nat, s: string, i: nat, lax: bool)
    requires n >= 1 && Times(re, n, s, i, i, lax)
    ensures CanBeEmpty(re)
    decreases re, 2, n
  {
    var k: nat :| Times(re, n - 1, s, i, k, lax) && Matches(re, s, k, i, lax);
    TimesForward(re, n - 1, s, i, k, lax);
    EmptyMatchIsRefused(re, s, i, lax);
  }

  lemma {:induction false} EmptyInTurn(re: Re, n: nat, s: string, i: nat, lax: bool)
    requires re.Concat? && n <= |re.subs| && InTurn(re, n, s, i, i, lax)
    ensures forall k :: 0 <= k < n ==> CanBeEmpty(re.subs[k])
    decreases re, 0, n
  {
    if n > 0 {
      var k: nat :| InTurn(re, n - 1, s, i, k, lax) && Matches(re.subs[n - 1], s, k, i, lax);
      InTurnForward(re, n - 1, s, i, k, lax);
      EmptyInTurn(re, n - 1, s, i, lax);
      EmptyMatchIsRefused(re.subs[n - 1], s, i, lax);
    }
  }

  /** A pattern that passes the check matches at least one character wherever it matches. */
  lemma MatchesCoverText(re: Re, s: string, i: nat, j: nat)
    requires !CanBeEmpty(re) && Matches(re, s, i, j, false)
    ensures i < j <= |s|
  {
    if i == j {
      EmptyMatchIsRefused(re, s, i, false);
    }
  }

  // --- And what the check refuses does match empty, assertions aside ------------------------------

  lemma {:induction false} RepeatsEmpty(re: Re, n: nat, s: string, i: nat, lax: bool)
    requires Matches(re, s, i, i, lax)
    ensures Times(re, n, s, i, i, lax)
    decreases n
  {
    if n > 0 {
      RepeatsEmpty(re, n - 1, s, i, lax);
    }
  }

  lemma {:induction false} RefusedMatchesEmpty(re: Re, s: string, i: nat, lax: bool)
    requires CanBeEmpty(re) && WellFormed(re) && i <= |s| && (lax || NoAssertions(re))
    ensures Matches(re, s, i, i, lax)
    decreases re, 1, 0
  {
    match re
    case Capture(sub) => RefusedMatchesEmpty(sub, s, i, lax);
    case Plus(sub) =>
      RefusedMatchesEmpty(sub, s, i, lax);
      RepeatsEmpty(sub, 1, s, i, lax);
    case Star(sub) => assert Times(sub, 0, s, i, i, lax);
    case Quest(sub) => assert Times(sub, 0, s, i, i, lax);
    case Repeat(sub, min, max) =>
      if min > 0 {
        RefusedMatchesEmpty(sub, s, i, lax);
        RepeatsEmpty(sub, min, s, i, lax);
      } else {
        assert Times(sub, 0, s, i, i, lax);
      }
    case Concat(subs) => RefusedInTurn(re, |subs|, s, i, lax);
    case Alternate(subs) =>
      var k :| 0 <= k < |subs| && CanBeEmpty(subs[k]);
      RefusedMatchesEmpty(subs[k], s, i, lax);
    case _ =>
  }

  lemma {:induction false} RefusedInTurn(re: Re, n: nat, s: string, i: nat, lax: bool)
    requires re.Concat? && n <= |re.subs| && CanBeEmpty(re) && WellFormed(re) && i <= |s| && (lax || NoAssertions(re))
    ensures InTurn(re, n, s, i, i, lax)
    decreases re, 0, n
  {
    if n > 0 {
      RefusedInTurn(re, n - 1, s, i, lax);
      RefusedMatchesEmpty(re.subs[n - 1], s, i, lax);
    }
  }

  /** The check is exact for expressions without assertions, and for all expressions when an
      assertion is taken to hold anywhere. */
  lemma CheckIsExact(re: Re, s: string, i: nat)
    requires WellFormed(re) && i <= |s|
    ensures CanBeEmpty(re) <==> Matches(re, s, i, i, true)
    ensures NoAssertions(re) ==> (CanBeEmpty(re) <==> Matches(re, s, i, i, false))
  {
    if CanBeEmpty(re) {
      RefusedMatchesEmpty(re, s, i, true);
      if NoAssertions(re) {
        RefusedMatchesEmpty(re, s, i, false);
      }
    }
    if Matches(re, s, i, i, true) {
      EmptyMatchIsRefused(re, s, i, true);
    }
    if Matches(re, s, i, i, false) {
      EmptyMatchIsRefused(re, s, i, false);
    }
  }

  lemma LastInTurn(re: Re, n: nat, s: string, i: nat, j: nat) returns (k: nat)
    requires re.Concat? && 0 < n <= |re.subs| && InTurn(re, n, s, i, j, false)
    ensures InTurn(re, n - 1, s, i, k, false) && Matches(re.subs[n - 1], s, k, j, false)
  {
    k :| InTurn(re, n - 1, s, i, k, false) && Matches(re.subs[n - 1], s, k, j, false);
  }

  lemma FirstOfTwo(re: Re, s: string, i: nat, k: nat)
    requires re.Concat? && |re.subs| == 2 && re.subs[0] == Assertion(WordBoundary)
    ensures InTurn(re, 1, s, i, k, false) ==> k <= |s| && Holds(WordBoundary, s, k)
  {
    if InTurn(re, 1, s, i, k, false) {
      var m := LastInTurn(re, 1, s, i, k);
    }
  }

  /** With assertions it errs towards refusing: a position that is a word boundary and is
      not one is refused, though it matches nowhere. */
  lemma RefusedWithoutAMatch(s: string, i: nat, j: nat)
    ensures var re := Concat([Assertion(WordBoundary), Assertion(NoWordBoundary)]);
            CanBeEmpty(re) && !Matches(re, s, i, j, false)
  {
    var re := Concat([Assertion(WordBoundary), Assertion(NoWordBoundary)]);
    forall k: nat
      ensures InTurn(re, 1, s, i, k, false) ==> k <= |s| && Holds(WordBoundary, s, k)
    {
      FirstOfTwo(re, s, i, k);
    }
    assert forall k: nat :: Matches(re.subs[1], s, k, j, false) ==> k <= |s| && Holds(NoWordBoundary, s, k);
    assert !InTurn(re, 2, s, i, j, false);
  }
}
