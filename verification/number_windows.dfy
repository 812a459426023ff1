/** Where in a text a number detector searches. Rather than running an expression over the
    whole text, a detector cuts out the runs of digits and separators that hold enough
    digits, each with a little of the text around it, and searches only those. The result
    is the same list of hits. A char stands for one byte. */
module NumberWindows {
  import opened Collections

  predicate IsDigit(c: char) { '0' <= c <= '9' }

  predicate IsSep(c: char) {
    c == ' ' || c == '-' || c == '.' || c == '(' || c == ')' || c == '/'
  }

  predicate IsWord(c: char) {
    IsDigit(c) || 'a' <= c <= 'z' || 'A' <= c <= 'Z' || c == '_'
  }

  /** A word boundary before position i. */
  predicate Boundary(s: string, i: nat)
    requires i <= |s|
  {
    (i > 0 && IsWord(s[i - 1])) != (i < |s| && IsWord(s[i]))
  }

  // --- Expressions, as the places they match ---------------------------------------------

  /** Whether an expression matches exactly s[i..b]. */
  type Expression = (string, nat, nat) -> bool

  /** Where the match at i ends: the expression takes as much as it can. */
  function EndBelow(m: Expression, s: string, i: nat, b: nat): (end: Option<nat>)
    requires b <= |s|
    ensures end.Some? ==> i < end.value <= b && m(s, i, end.value)
    ensures end.Some? ==> forall c :: end.value < c <= b ==> !m(s, i, c)
    ensures end.None? ==> forall c :: i < c <= b ==> !m(s, i, c)
    decreases b
  {
    if b <= i then None
    else if m(s, i, b) then Some(b)
    else EndBelow(m, s, i, b - 1)
  }

  function EndOf(m: Expression, s: string, i: nat): (end: Option<nat>) {
    EndBelow(m, s, i, |s|)
  }

  datatype Span = Span(start: nat, end: nat)

  function Shifted(h: seq<Span>, off: nat): (r: seq<Span>)
    ensures |r| == |h|
  {
    if h == [] then [] else [Span(h[0].start + off, h[0].end + off)] + Shifted(h[1..], off)
  }

  /** The matches that begin in [i, stop), from the left, none overlapping the one
      before it. */
  function FindIn(m: Expression, s: string, i: nat, stop: nat): (r: seq<Span>)
    requires stop <= |s|
    ensures forall k :: 0 <= k < |r| ==> i <= r[k].start < stop && r[k].start < r[k].end <= |s|
    decreases |s| - i
  {
    if i >= stop then []
    else
      match EndOf(m, s, i)
      case None => FindIn(m, s, i + 1, stop)
      case Some(b) => [Span(i, b)] + FindIn(m, s, b, stop)
  }

  function FindAll(m: Expression, s: string): seq<Span> {
    FindIn(m, s, 0, |s|)
  }

  // --- What a number expression looks at ---------------------------------------------------

  /** At least two digits, with nothing but digits and separators between the first and
      the last. */
  predicate Number(s: string, d: nat, b: nat) {
    d + 2 <= b <= |s| && IsDigit(s[d]) && IsDigit(s[b - 1]) && forall k :: d <= k < b ==> IsDigit(s[k]) || IsSep(s[k])
  }

  /** Every match is a number, with at most one character before it. */
  ghost predicate Numeric(m: Expression) {
    forall s, i: nat, b: nat :: m(s, i, b) ==> i < b && (Number(s, i, b) || Number(s, i + 1, b))
  }

  lemma NumberAt(m: Expression, s: string, i: nat, b: nat)
    requires Numeric(m) && m(s, i, b)
    ensures i < b && (Number(s, i, b) || Number(s, i + 1, b))
  {
  }

  /** A match depends on what it covers and on its two neighbouring characters. */
  ghost predicate Local(m: Expression) {
    forall s, lo: nat, hi: nat, i: nat, b: nat ::
      lo <= i <= b <= hi <= |s| && (lo == 0 || lo < i) && (hi == |s| || b < hi)
      ==> m(s, i, b) == m(s[lo..hi], i - lo, b - lo)
  }

  lemma LocalAt(m: Expression, s: string, lo: nat, hi: nat, i: nat, b: nat)
    requires Local(m) && lo <= i <= b <= hi <= |s| && (lo == 0 || lo < i) && (hi == |s| || b < hi)
    ensures m(s, i, b) == m(s[lo..hi], i - lo, b - lo)
  {
    var w := s[lo..hi];
  }

  // --- Windows -------------------------------------------------------------------------------

  function RunEnd(s: string, i: nat): (j: nat)
    requires i <= |s|
    ensures i <= j <= |s|
    ensures forall k :: i <= k < j ==> IsDigit(s[k]) || IsSep(s[k])
    ensures j < |s| ==> !IsDigit(s[j]) && !IsSep(s[j])
    decreases |s| - i
  {
    if i < |s| && (IsDigit(s[i]) || IsSep(s[i])) then RunEnd(s, i + 1) else i
  }

  /** The last digit of a run that starts with one. */
  function LastDigit(s: string, i: nat, j: nat): (last: nat)
    requires i < j <= |s| && IsDigit(s[i])
    ensures i <= last < j && IsDigit(s[last])
    ensures forall k :: last < k < j ==> !IsDigit(s[k])
    decreases j
  {
    if IsDigit(s[j - 1]) then j - 1 else LastDigit(s, i, j - 1)
  }

  function Digits(s: string, i: nat, j: nat): (n: nat)
    requires i <= j <= |s|
    decreases j
  {
    if i == j then 0 else Digits(s, i, j - 1) + if IsDigit(s[j - 1]) then 1 else 0
  }

  const CONTEXT := 2

  function Window(s: string, first: nat, last: nat): (w: Span)
    requires first <= last < |s|
    ensures w.start <= first <= last < w.end <= |s|
  {
    Span(if first < CONTEXT then 0 else first - CONTEXT,
         if last + 1 + CONTEXT < |s| then last + 1 + CONTEXT else |s|)
  }

  /** The window of a run that has enough digits. */
  function WindowOf(s: string, i: nat, j: nat, min: nat): (r: seq<Span>)
    requires i < j <= |s| && IsDigit(s[i])
    ensures forall k :: 0 <= k < |r| ==> r[k].start < r[k].end <= |s|
  {
    if Digits(s, i, j) >= min then [Window(s, i, LastDigit(s, i, j))] else []
  }

  /** The windows from position i on. */
  function WindowsFrom(s: string, i: nat, min: nat): (r: seq<Span>)
    requires i <= |s|
    ensures forall k :: 0 <= k < |r| ==> r[k].start < r[k].end <= |s|
    decreases |s| - i
  {
    if i == |s| then []
    else if !IsDigit(s[i]) then WindowsFrom(s, i + 1, min)
    else
      var j := RunEnd(s, i + 1);
      WindowOf(s, i, j, min) + WindowsFrom(s, j, min)
  }

  function Windows(s: string, min: nat): seq<Span> {
    WindowsFrom(s, 0, min)
  }

  /** What is left to find once the windows in out have been. */
  ghost predicate Scanned(s: string, min: nat, i: nat, out: seq<Span>) {
    i <= |s| && out + WindowsFrom(s, i, min) == Windows(s, min)
  }

  lemma ScannedRun(s: string, min: nat, i: nat, out: seq<Span>)
    requires Scanned(s, min, i, out) && i < |s| && IsDigit(s[i])
    ensures var j := RunEnd(s, i + 1);
            Scanned(s, min, j, out + WindowOf(s, i, j, min))
  {
  }

  /** One pass over the text finds them. */
  method DigitSpans(s: string, min: nat) returns (out: seq<Span>)
    ensures out == Windows(s, min)
  {
    out := [];
    var i := 0;
    while i < |s|
      invariant i <= |s|
      invariant Scanned(s, min, i, out)
      decreases |s| - i
    {
      if !IsDigit(s[i]) {
        i := i + 1;
      } else {
        var start := i;
        var digits, last;
        ScannedRun(s, min, start, out);
        i, digits, last := Run(s, start);
        if digits >= min {
          out := out + [Window(s, start, last)];
        } else {
          assert out + [] == out;
        }
      }
    }
  }

  /** One run: where it ends, how many digits it has and where the last one stands. */
  method Run(s: string, start: nat) returns (i: nat, digits: nat, last: nat)
    requires start < |s| && IsDigit(s[start])
    ensures i == RunEnd(s, start + 1) && digits == Digits(s, start, i) && last == LastDigit(s, start, i)
  {
    i, digits, last := start, 0, start;
    while i < |s|
      invariant start <= i <= |s| && RunEnd(s, i) == RunEnd(s, start)
      invariant digits == Digits(s, start, i)
      invariant i == start ==> last == start
      invariant i > start ==> last == LastDigit(s, start, i)
      decreases |s| - i
    {
      if IsDigit(s[i]) {
        digits, last := digits + 1, i;
        i := i + 1;
      } else if IsSep(s[i]) {
        i := i + 1;
      } else {
        break;
      }
    }
  }

  // --- Rules and hits ------------------------------------------------------------------------

  datatype Confidence = High | Medium | Low

  datatype Hit = Hit(start: nat, end: nat, confidence: Confidence, rule: string)

  /** An expression, and what is made of the text it matched: nothing, or a hit with some
      confidence. */
  datatype Rule = Rule(name: string, expr: Expression, grade: string -> Option<Confidence>)

  /** The hits among some matches of a window that begins at off. */
  function Graded(r: Rule, w: string, off: nat, found: seq<Span>): (h: seq<Hit>)
    requires forall k :: 0 <= k < |found| ==> found[k].start <= found[k].end <= |w|
  {
    if found == [] then []
    else
      var c := r.grade(w[found[0].start..found[0].end]);
      (if c.Some? then [Hit(off + found[0].start, off + found[0].end, c.value, r.name)] else [])
      + Graded(r, w, off, found[1..])
  }

  /** The rule's hits in the whole text. */
  function AllHits(r: Rule, s: string): seq<Hit> {
    Graded(r, s, 0, FindAll(r.expr, s))
  }

  /** And those it has when it sees one window at a time. */
  function HitsIn(r: Rule, s: string, w: Span): seq<Hit>
    requires w.start <= w.end <= |s|
  {
    Graded(r, s[w.start..w.end], w.start, FindAll(r.expr, s[w.start..w.end]))
  }

  predicate Inside(s: string, ws: seq<Span>) {
    forall k :: 0 <= k < |ws| ==> ws[k].start <= ws[k].end <= |s|
  }

  function WindowHits(r: Rule, s: string, ws: seq<Span>): seq<Hit>
    requires Inside(s, ws)
  {
    if ws == [] then [] else HitsIn(r, s, ws[0]) + WindowHits(r, s, ws[1..])
  }

  // --- Windows miss nothing and add nothing ----------------------------------------------------

  lemma {:induction false} GradedOfTwo(r: Rule, w: string, off: nat, a: seq<Span>, b: seq<Span>)
    requires forall k :: 0 <= k < |a| ==> a[k].start <= a[k].end <= |w|
    requires forall k :: 0 <= k < |b| ==> b[k].start <= b[k].end <= |w|
    ensures Graded(r, w, off, a + b) == Graded(r, w, off, a) + Graded(r, w, off, b)
  {
    if a == [] {
      assert a + b == b;
    } else {
      assert (a + b)[1..] == a[1..] + b;
      GradedOfTwo(r, w, off, a[1..], b);
    }
  }

  lemma {:induction false} HitsOfTwo(r: Rule, s: string, a: seq<Span>, b: seq<Span>)
    requires Inside(s, a) && Inside(s, b)
    ensures WindowHits(r, s, a + b) == WindowHits(r, s, a) + WindowHits(r, s, b)
  {
    if a == [] {
      assert a + b == b;
    } else {
      assert (a + b)[1..] == a[1..] + b;
      HitsOfTwo(r, s, a[1..], b);
    }
  }

  /** Where nothing begins, the search moves on. */
  lemma {:induction false} Skip(m: Expression, s: string, i: nat, c: nat, stop: nat)
    requires i <= c <= stop <= |s|
    requires forall k: nat :: i <= k < c ==> EndOf(m, s, k).None?
    ensures FindIn(m, s, i, stop) == FindIn(m, s, c, stop)
    decreases c - i
  {
    if i < c {
      Skip(m, s, i + 1, c, stop);
    }
  }

  /** No match that begins in [i, mid) reaches past mid. */
  ghost predicate Closed(m: Expression, s: string, i: nat, mid: nat) {
    forall k: nat :: i <= k < mid && EndOf(m, s, k).Some? ==> EndOf(m, s, k).value <= mid
  }

  /** So there the search can be cut in two. */
  lemma {:induction false} CutSearch(m: Expression, s: string, i: nat, mid: nat, stop: nat)
    requires i <= mid <= stop <= |s| && Closed(m, s, i, mid)
    ensures FindIn(m, s, i, stop) == FindIn(m, s, i, mid) + FindIn(m, s, mid, stop)
    decreases mid - i
  {
    if i < mid {
      var end := EndOf(m, s, i);
      if end.Some? {
        CutSearch(m, s, end.value, mid, stop);
        assert [Span(i, end.value)] + (FindIn(m, s, end.value, mid) + FindIn(m, s, mid, stop))
            == [Span(i, end.value)] + FindIn(m, s, end.value, mid) + FindIn(m, s, mid, stop);
      } else {
        CutSearch(m, s, i + 1, mid, stop);
      }
    }
  }

  function Back(end: Option<nat>, lo: nat): Option<nat> {
    match end
    case None => None
    case Some(b) => if b >= lo then Some(b - lo) else None
  }

  /** The same match begins at k in the text and in the window. */
  ghost predicate SameAt(m: Expression, s: string, lo: nat, hi: nat, k: nat)
    requires lo <= k <= hi <= |s|
  {
    EndOf(m, s[lo..hi], k - lo) == Back(EndOf(m, s, k), lo)
  }

  /** Matches that keep clear of a window's edges are seen the same in it. */
  lemma SeenTheSame(m: Expression, s: string, lo: nat, hi: nat, k: nat, c: nat)
    requires Local(m) && lo <= k < c <= hi <= |s| && (lo == 0 || lo < k) && (hi == |s| || c < hi)
    requires EndOf(m, s, k).Some? ==> EndOf(m, s, k).value <= c
    requires EndOf(m, s[lo..hi], k - lo).Some? ==> EndOf(m, s[lo..hi], k - lo).value <= c - lo
    ensures SameAt(m, s, lo, hi, k)
  {
    var inText, inWindow := EndOf(m, s, k), EndOf(m, s[lo..hi], k - lo);
    if inText.Some? {
      LocalAt(m, s, lo, hi, k, inText.value);
    }
    if inWindow.Some? {
      LocalAt(m, s, lo, hi, k, inWindow.value + lo);
    }
  }

  ghost predicate SameOver(m: Expression, s: string, lo: nat, hi: nat, i: nat, stop: nat)
    requires lo <= i && stop <= hi <= |s|
  {
    forall k: nat :: i <= k < stop ==> SameAt(m, s, lo, hi, k)
  }

  /** The search in a window, moved back, is the search in the text. */
  ghost predicate SameFrom(m: Expression, s: string, lo: nat, hi: nat, i: nat, stop: nat)
    requires lo <= i && lo <= stop <= hi <= |s|
  {
    FindIn(m, s, i, stop) == Shifted(FindIn(m, s[lo..hi], i - lo, stop - lo), lo)
  }

  lemma SamePast(m: Expression, s: string, lo: nat, hi: nat, i: nat, stop: nat)
    requires lo <= i < stop <= hi <= |s| && EndOf(m, s, i).None? && EndOf(m, s[lo..hi], i - lo).None?
    requires SameFrom(m, s, lo, hi, i + 1, stop)
    ensures SameFrom(m, s, lo, hi, i, stop)
  {
  }

  lemma SameAfter(m: Expression, s: string, lo: nat, hi: nat, i: nat, b: nat, stop: nat)
    requires lo <= i < stop <= hi <= |s| && lo <= b && SameFrom(m, s, lo, hi, b, stop)
    requires EndOf(m, s, i) == Some(b) && EndOf(m, s[lo..hi], i - lo) == Some(b - lo)
    ensures SameFrom(m, s, lo, hi, i, stop)
  {
    var rest := FindIn(m, s[lo..hi], b - lo, stop - lo);
    assert FindIn(m, s[lo..hi], i - lo, stop - lo) == [Span(i - lo, b - lo)] + rest;
    ShiftedCons(Span(i - lo, b - lo), rest, lo);
  }

  /** So it is over a stretch where the same matches begin. */
  lemma {:induction false} SameSearch(m: Expression, s: string, lo: nat, hi: nat, i: nat, stop: nat)
    requires lo <= i <= stop <= hi <= |s| && Closed(m, s, i, stop)
    requires SameOver(m, s, lo, hi, i, stop)
    ensures SameFrom(m, s, lo, hi, i, stop)
    decreases stop - i
  {
    if i < stop {
      assert SameAt(m, s, lo, hi, i);
      match EndOf(m, s, i)
      case None =>
        SameSearch(m, s, lo, hi, i + 1, stop);
        SamePast(m, s, lo, hi, i, stop);
      case Some(b) =>
        SameSearch(m, s, lo, hi, b, stop);
        SameAfter(m, s, lo, hi, i, b, stop);
    }
  }

  lemma ShiftedCons(x: Span, h: seq<Span>, off: nat)
    ensures Shifted([x] + h, off) == [Span(x.start + off, x.end + off)] + Shifted(h, off)
  {
    assert ([x] + h)[1..] == h;
  }

  lemma Subtext(s: string, lo: nat, hi: nat, a: nat, b: nat)
    requires lo <= hi <= |s| && a <= b <= hi - lo
    ensures s[lo..hi][a..b] == s[a + lo..b + lo]
  {
    assert forall k :: 0 <= k < b - a ==> s[lo..hi][a..b][k] == s[lo..hi][a + k] == s[a + lo..b + lo][k];
  }

  /** A hit does not depend on which text its match was found in. */
  lemma {:induction false} GradedMoves(r: Rule, s: string, lo: nat, hi: nat, found: seq<Span>)
    requires lo <= hi <= |s|
    requires forall k :: 0 <= k < |found| ==> found[k].start <= found[k].end <= hi - lo
    ensures forall k :: 0 <= k < |found| ==> Shifted(found, lo)[k] == Span(found[k].start + lo, found[k].end + lo)
    ensures Graded(r, s, 0, Shifted(found, lo)) == Graded(r, s[lo..hi], lo, found)
  {
    if found != [] {
      GradedMoves(r, s, lo, hi, found[1..]);
      ShiftedCons(found[0], found[1..], lo);
      assert [found[0]] + found[1..] == found;
      assert Shifted(found, lo)[1..] == Shifted(found[1..], lo);
      Subtext(s, lo, hi, found[0].start, found[0].end);
    }
  }

  /** The scan stands just past a character that ends any number. */
  predicate Fresh(s: string, i: nat) {
    i <= |s| && (i >= 1 ==> !IsDigit(s[i - 1])) && (i >= 2 && IsDigit(s[i - 2]) ==> !IsSep(s[i - 1]))
  }

  function Before(i: nat): nat {
    if i == 0 then 0 else i - 1
  }

  /** Where neither of two neighbours is a digit no number begins. */
  lemma NothingBegins(m: Expression, s: string, k: nat)
    requires Numeric(m) && k < |s|
    requires k + 1 < |s| ==> !IsDigit(s[k + 1])
    requires !IsDigit(s[k]) || (k + 1 < |s| ==> !IsSep(s[k + 1]))
    ensures EndOf(m, s, k).None?
  {
    var end := EndOf(m, s, k);
    if end.Some? {
      NumberAt(m, s, k, end.value);
    }
  }

  /** A run of digits, as the scan finds it. */
  ghost predicate Found(s: string, i: nat, last: nat, j: nat) {
    i < |s| && IsDigit(s[i]) && j == RunEnd(s, i + 1) && last == LastDigit(s, i, j) && Fresh(s, i)
  }

  /** The part of the text whose matches belong to the run s[i..j]: they begin at most one
      character before it and end with it. */
  lemma MatchesOfARun(m: Expression, s: string, i: nat, last: nat, j: nat, k: nat)
    requires Numeric(m) && Found(s, i, last, j)
    requires Before(i) <= k <= last && EndOf(m, s, k).Some?
    ensures EndOf(m, s, k).value <= last + 1
  {
    var b := EndOf(m, s, k).value;
    NumberAt(m, s, k, b);
  }

  /** The window of a run, by its ends. */
  ghost predicate Around(s: string, i: nat, last: nat, lo: nat, hi: nat) {
    i <= last < |s| && Window(s, i, last) == Span(lo, hi)
  }

  /** Nor does a match the window shows reach past the run. */
  lemma MatchesInAWindow(m: Expression, s: string, i: nat, last: nat, j: nat, lo: nat, hi: nat, k: nat, c: nat)
    requires Numeric(m) && Found(s, i, last, j) && Around(s, i, last, lo, hi)
    requires Before(i) <= k <= last && lo <= k <= c <= hi && m(s[lo..hi], k - lo, c - lo)
    ensures c <= last + 1
  {
    NumberAt(m, s[lo..hi], k - lo, c - lo);
  }

  /** The window shows exactly the matches that begin in the text there. */
  lemma SameMatches(m: Expression, s: string, i: nat, last: nat, j: nat, lo: nat, hi: nat)
    requires Numeric(m) && Local(m) && Found(s, i, last, j) && Around(s, i, last, lo, hi)
    ensures lo <= Before(i) && SameOver(m, s, lo, hi, Before(i), last + 1)
  {
    forall k: nat | Before(i) <= k < last + 1 ensures SameAt(m, s, lo, hi, k) {
      if EndOf(m, s, k).Some? {
        MatchesOfARun(m, s, i, last, j, k);
      }
      var inWindow := EndOf(m, s[lo..hi], k - lo);
      if inWindow.Some? {
        MatchesInAWindow(m, s, i, last, j, lo, hi, k, inWindow.value + lo);
      }
      SeenTheSame(m, s, lo, hi, k, last + 1);
    }
  }

  /** Searching the window finds what searching the text finds between the character
      before the run and the run's last digit. */
  lemma WindowSearch(m: Expression, s: string, i: nat, last: nat, j: nat, lo: nat, hi: nat)
    requires Numeric(m) && Local(m) && Found(s, i, last, j) && Around(s, i, last, lo, hi)
    ensures FindIn(m, s, Before(i), last + 1) == Shifted(FindAll(m, s[lo..hi]), lo)
  {
    WindowShowsTheRun(m, s, i, last, j, lo, hi);
    WindowShowsNoMore(m, s, i, last, j, lo, hi);
    FoundInTheWindow(m, s, lo, hi, Before(i), last + 1);
  }

  lemma WindowShowsTheRun(m: Expression, s: string, i: nat, last: nat, j: nat, lo: nat, hi: nat)
    requires Numeric(m) && Local(m) && Found(s, i, last, j) && Around(s, i, last, lo, hi)
    ensures lo <= Before(i) && SameFrom(m, s, lo, hi, Before(i), last + 1)
  {
    SameMatches(m, s, i, last, j, lo, hi);
    RunIsClosed(m, s, i, last, j);
    SameSearch(m, s, lo, hi, Before(i), last + 1);
  }

  lemma WindowShowsNoMore(m: Expression, s: string, i: nat, last: nat, j: nat, lo: nat, hi: nat)
    requires Numeric(m) && Found(s, i, last, j) && Around(s, i, last, lo, hi)
    ensures lo <= Before(i) && FindAll(m, s[lo..hi]) == FindIn(m, s[lo..hi], Before(i) - lo, last + 1 - lo)
  {
    BeforeTheRun(m, s, i, last, j, lo, hi);
    AfterTheRun(m, s, i, last, j, lo, hi);
    WindowIsClosed(m, s, i, last, j, lo, hi);
    WindowEdges(m, s[lo..hi], Before(i) - lo, last + 1 - lo);
  }

  lemma FoundInTheWindow(m: Expression, s: string, lo: nat, hi: nat, i: nat, stop: nat)
    requires lo <= i <= stop <= hi <= |s| && SameFrom(m, s, lo, hi, i, stop)
    requires FindAll(m, s[lo..hi]) == FindIn(m, s[lo..hi], i - lo, stop - lo)
    ensures FindIn(m, s, i, stop) == Shifted(FindAll(m, s[lo..hi]), lo)
  {
  }

  /** What lies in a window to the left and to the right of its run adds nothing. */
  lemma WindowEdges(m: Expression, text: string, from: nat, to: nat)
    requires from <= to <= |text| && Closed(m, text, from, to)
    requires forall k: nat :: k < from ==> EndOf(m, text, k).None?
    requires forall k: nat :: to <= k < |text| ==> EndOf(m, text, k).None?
    ensures FindAll(m, text) == FindIn(m, text, from, to)
  {
    Skip(m, text, 0, from, |text|);
    Skip(m, text, to, |text|, |text|);
    CutSearch(m, text, from, to, |text|);
  }

  lemma RunIsClosed(m: Expression, s: string, i: nat, last: nat, j: nat)
    requires Numeric(m) && Found(s, i, last, j)
    ensures Closed(m, s, Before(i), last + 1)
  {
    forall k: nat | Before(i) <= k < last + 1 && EndOf(m, s, k).Some?
      ensures EndOf(m, s, k).value <= last + 1
    {
      MatchesOfARun(m, s, i, last, j, k);
    }
  }

  lemma WindowIsClosed(m: Expression, s: string, i: nat, last: nat, j: nat, lo: nat, hi: nat)
    requires Numeric(m) && Found(s, i, last, j) && Around(s, i, last, lo, hi)
    ensures lo <= Before(i) && Closed(m, s[lo..hi], Before(i) - lo, last + 1 - lo)
  {
    var text := s[lo..hi];
    forall k: nat | Before(i) - lo <= k < last + 1 - lo && EndOf(m, text, k).Some?
      ensures EndOf(m, text, k).value <= last + 1 - lo
    {
      MatchesInAWindow(m, s, i, last, j, lo, hi, k + lo, EndOf(m, text, k).value + lo);
    }
  }

  /** The characters a window has before the run begin no number. */
  lemma BeforeTheRun(m: Expression, s: string, i: nat, last: nat, j: nat, lo: nat, hi: nat)
    requires Numeric(m) && Found(s, i, last, j) && Around(s, i, last, lo, hi)
    ensures forall k: nat :: k < Before(i) - lo ==> EndOf(m, s[lo..hi], k).None?
  {
    forall k: nat | k < Before(i) - lo ensures EndOf(m, s[lo..hi], k).None? {
      NothingBegins(m, s[lo..hi], k);
    }
  }

  /** Nor do those it has past it begin one of their own. */
  lemma AfterTheRun(m: Expression, s: string, i: nat, last: nat, j: nat, lo: nat, hi: nat)
    requires Numeric(m) && Found(s, i, last, j) && Around(s, i, last, lo, hi)
    ensures forall k: nat :: last + 1 - lo <= k < hi - lo ==> EndOf(m, s[lo..hi], k).None?
  {
    var text := s[lo..hi];
    forall k: nat | last + 1 - lo <= k < |text| ensures EndOf(m, text, k).None? {
      var end := EndOf(m, text, k);
      if end.Some? {
        NumberAt(m, text, k, end.value);
      }
    }
  }

  // --- The theorem ----------------------------------------------------------------------------

  /** No hit has fewer than min digits. */
  ghost predicate Enough(r: Rule, min: nat) {
    forall s: string, i: nat, b: nat ::
      i <= b <= |s| && r.expr(s, i, b) && r.grade(s[i..b]).Some? ==> Digits(s, i, b) >= min
  }

  lemma {:induction false} DigitsAddUp(s: string, i: nat, b: nat, j: nat)
    requires i <= b <= j <= |s|
    ensures Digits(s, i, j) == Digits(s, i, b) + Digits(s, b, j)
    decreases j - b
  {
    if b < j {
      DigitsAddUp(s, i, b, j - 1);
    }
  }

  ghost predicate AreMatches(m: Expression, s: string, found: seq<Span>) {
    forall k :: 0 <= k < |found| ==> EndOf(m, s, found[k].start) == Some(found[k].end)
  }

  lemma {:induction false} FoundMatches(m: Expression, s: string, i: nat, stop: nat)
    requires stop <= |s|
    ensures AreMatches(m, s, FindIn(m, s, i, stop))
    decreases |s| - i
  {
    if i < stop {
      match EndOf(m, s, i)
      case None =>
        FoundMatches(m, s, i + 1, stop);
      case Some(b) =>
        FoundMatches(m, s, b, stop);
    }
  }

  lemma {:induction false} NoneGraded(r: Rule, s: string, found: seq<Span>)
    requires forall k :: 0 <= k < |found| ==>
               found[k].start <= found[k].end <= |s| && r.grade(s[found[k].start..found[k].end]).None?
    ensures Graded(r, s, 0, found) == []
  {
    if found != [] {
      NoneGraded(r, s, found[1..]);
    }
  }

  /** Nothing that begins at a run, or just before it, and ends with it has more digits. */
  lemma FewerInside(s: string, i: nat, last: nat, j: nat, a: nat, b: nat)
    requires Found(s, i, last, j) && Before(i) <= a <= b <= j
    ensures Digits(s, a, b) <= Digits(s, i, j)
  {
    DigitsAddUp(s, Before(i), a, j);
    DigitsAddUp(s, a, b, j);
    DigitsAddUp(s, Before(i), i, j);
  }

  lemma NoHitInside(r: Rule, s: string, i: nat, last: nat, j: nat, min: nat, a: nat, b: nat)
    requires Numeric(r.expr) && Enough(r, min) && Found(s, i, last, j) && Digits(s, i, j) < min
    requires Before(i) <= a <= last && EndOf(r.expr, s, a) == Some(b)
    ensures r.grade(s[a..b]).None?
  {
    MatchesOfARun(r.expr, s, i, last, j, a);
    assert r.expr(s, a, b);
    FewerInside(s, i, last, j, a, b);
  }

  /** A run with too few digits for a window has no hit. */
  lemma ShortRunsHaveNoHits(r: Rule, s: string, i: nat, last: nat, j: nat, min: nat)
    requires Numeric(r.expr) && Enough(r, min) && Found(s, i, last, j) && Digits(s, i, j) < min
    ensures Graded(r, s, 0, FindIn(r.expr, s, Before(i), last + 1)) == []
  {
    var found := FindIn(r.expr, s, Before(i), last + 1);
    FoundMatches(r.expr, s, Before(i), last + 1);
    forall k | 0 <= k < |found| ensures r.grade(s[found[k].start..found[k].end]).None? {
      NoHitInside(r, s, i, last, j, min, found[k].start, found[k].end);
    }
    NoneGraded(r, s, found);
  }

  /** A run with enough has the hits its window shows. */
  lemma LongRunsHaveTheirWindows(r: Rule, s: string, i: nat, last: nat, j: nat)
    requires Numeric(r.expr) && Local(r.expr) && Found(s, i, last, j)
    ensures Graded(r, s, 0, FindIn(r.expr, s, Before(i), last + 1)) == HitsIn(r, s, Window(s, i, last))
  {
    var w := Window(s, i, last);
    WindowSearch(r.expr, s, i, last, j, w.start, w.end);
    GradedMoves(r, s, w.start, w.end, FindAll(r.expr, s[w.start..w.end]));
  }

  lemma OneWindow(r: Rule, s: string, w: Span)
    requires w.start <= w.end <= |s|
    ensures WindowHits(r, s, [w]) == HitsIn(r, s, w)
  {
    assert WindowHits(r, s, [w]) == HitsIn(r, s, w) + [];
  }

  /** One run, searched as the text or as a window, gives the same hits. */
  lemma RunHits(r: Rule, s: string, i: nat, last: nat, j: nat, min: nat)
    requires Numeric(r.expr) && Local(r.expr) && Enough(r, min) && Found(s, i, last, j)
    ensures Graded(r, s, 0, FindIn(r.expr, s, Before(i), last + 1)) == WindowHits(r, s, WindowOf(s, i, j, min))
  {
    if Digits(s, i, j) >= min {
      LongRunsHaveTheirWindows(r, s, i, last, j);
      OneWindow(r, s, Window(s, i, last));
    } else {
      ShortRunsHaveNoHits(r, s, i, last, j, min);
    }
  }

  /** The text from the end of a run to the character that ends it begins no number. */
  lemma AfterARun(m: Expression, s: string, i: nat, last: nat, j: nat)
    requires Numeric(m) && Found(s, i, last, j)
    ensures FindIn(m, s, last + 1, |s|) == FindIn(m, s, j, |s|)
  {
    forall k: nat | last + 1 <= k < j ensures EndOf(m, s, k).None? {
      NothingBegins(m, s, k);
    }
    Skip(m, s, last + 1, j, |s|);
  }

  /** The hits from one position on are those of the windows from another. */
  ghost predicate SameHits(r: Rule, s: string, from: nat, i: nat, min: nat)
    requires from <= i <= |s|
  {
    Graded(r, s, 0, FindIn(r.expr, s, from, |s|)) == WindowHits(r, s, WindowsFrom(s, i, min))
  }

  /** From wherever the scan stands, the hits still to come are those of the windows still
      to come. */
  lemma {:induction false} HitsFrom(r: Rule, s: string, i: nat, min: nat)
    requires Numeric(r.expr) && Local(r.expr) && Enough(r, min) && Fresh(s, i)
    ensures SameHits(r, s, Before(i), i, min)
    decreases |s| - i
  {
    if i < |s| && IsDigit(s[i]) {
      var j := RunEnd(s, i + 1);
      if j < |s| {
        HitsFrom(r, s, j + 1, min);
      }
      EndOfARun(r, s, j, min);
      HitsPastARun(r, s, i, LastDigit(s, i, j), j, min);
    } else {
      if i < |s| {
        HitsFrom(r, s, i + 1, min);
      }
      HitsPastOne(r, s, i, min);
    }
  }

  lemma HitsPastOne(r: Rule, s: string, i: nat, min: nat)
    requires Numeric(r.expr) && Fresh(s, i) && (i < |s| ==> !IsDigit(s[i]) && SameHits(r, s, i, i + 1, min))
    ensures SameHits(r, s, Before(i), i, min)
  {
    if i > 0 {
      NothingBegins(r.expr, s, i - 1);
    }
  }

  lemma EndOfARun(r: Rule, s: string, j: nat, min: nat)
    requires j <= |s| && (j < |s| ==> !IsDigit(s[j]) && SameHits(r, s, j, j + 1, min))
    ensures SameHits(r, s, j, j, min)
  {
  }

  /** The search, cut at the end of a run. */
  lemma SearchPastARun(m: Expression, s: string, i: nat, last: nat, j: nat)
    requires Numeric(m) && Found(s, i, last, j)
    ensures FindIn(m, s, Before(i), |s|) == FindIn(m, s, Before(i), last + 1) + FindIn(m, s, j, |s|)
  {
    RunIsClosed(m, s, i, last, j);
    CutSearch(m, s, Before(i), last + 1, |s|);
    AfterARun(m, s, i, last, j);
  }

  lemma HitsPastARun(r: Rule, s: string, i: nat, last: nat, j: nat, min: nat)
    requires Numeric(r.expr) && Local(r.expr) && Enough(r, min) && Found(s, i, last, j)
    requires SameHits(r, s, j, j, min)
    ensures SameHits(r, s, Before(i), i, min)
  {
    SearchPastARun(r.expr, s, i, last, j);
    GradedOfTwo(r, s, 0, FindIn(r.expr, s, Before(i), last + 1), FindIn(r.expr, s, j, |s|));
    RunHits(r, s, i, last, j, min);
    WindowsPastARun(s, i, last, j, min);
    HitsOfTwo(r, s, WindowOf(s, i, j, min), WindowsFrom(s, j, min));
  }

  lemma WindowsPastARun(s: string, i: nat, last: nat, j: nat, min: nat)
    requires Found(s, i, last, j)
    ensures WindowsFrom(s, i, min) == WindowOf(s, i, j, min) + WindowsFrom(s, j, min)
  {
  }

  /** Searching the windows finds the hits of the whole text, in the same order. */
  lemma WindowsFindEveryHit(r: Rule, s: string, min: nat)
    requires Numeric(r.expr) && Local(r.expr) && Enough(r, min)
    ensures WindowHits(r, s, Windows(s, min)) == AllHits(r, s)
  {
    HitsFrom(r, s, 0, min);
  }
}
