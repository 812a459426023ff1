/** What masking does to one string: every match goes, everything else stays. */
module Masking {
  import opened Collections
  import opened NumberWindows

  /** One match, as a scan records it; the path is how the walk reached its string. */
  datatype Step = Key(name: string) | Index(i: nat)

  datatype Finding = Finding(detector: string, rule: string, kind: string, confidence: Confidence,
                             path: seq<Step>, start: nat, end: nat)

  predicate InBounds(s: string, hits: seq<Finding>) {
    forall k :: 0 <= k < |hits| ==> hits[k].start <= hits[k].end <= |s|
  }

  predicate NoneEmpty(hits: seq<Finding>) {
    forall k :: 0 <= k < |hits| ==> hits[k].start < hits[k].end
  }

  /** By start, then by end. */
  predicate InOrder(a: Finding, b: Finding) {
    a.start < b.start || (a.start == b.start && a.end <= b.end)
  }

  predicate Sorted(hits: seq<Finding>) {
    forall j, k :: 0 <= j < k < |hits| ==> InOrder(hits[j], hits[k])
  }

  function Redaction(kind: string): string {
    "<redacted:" + kind + ">"
  }

  // --- What masking means, one position at a time ---------------------------------------------

  predicate Covered(hits: seq<Finding>, p: int) {
    exists k :: 0 <= k < |hits| && hits[k].start <= p < hits[k].end
  }

  predicate Within(h: Finding, p: int) {
    h.start < p < h.end
  }

  /** A group of overlapping matches begins at p: some match does, and none that began
      before reaches over it. */
  predicate Opens(hits: seq<Finding>, p: int) {
    (exists k :: 0 <= k < |hits| && hits[k].start == p) && forall k :: 0 <= k < |hits| ==> !Within(hits[k], p)
  }

  /** The kind of the first match that begins at p. */
  function KindAt(hits: seq<Finding>, p: int): string {
    if hits == [] then "" else if hits[0].start == p then hits[0].kind else KindAt(hits[1..], p)
  }

  /** What becomes of a position: it is copied, hidden, or where a token stands. */
  datatype Place = Copied | Hidden | Token(kind: string)

  function PlaceAt(hits: seq<Finding>, p: int): Place {
    if Opens(hits, p) then Token(KindAt(hits, p))
    else if Covered(hits, p) then Hidden
    else Copied
  }

  function Plan(hits: seq<Finding>, n: nat): (plan: seq<Place>)
    ensures |plan| == n && forall p :: 0 <= p < n ==> plan[p] == PlaceAt(hits, p)
  {
    seq(n, p => PlaceAt(hits, p))
  }

  function WriteFrom(s: string, plan: seq<Place>, p: nat): string
    requires |plan| == |s|
    decreases |s| - p
  {
    if p >= |s| then [] else Written(s[p], plan[p]) + WriteFrom(s, plan, p + 1)
  }

  function Written(c: char, place: Place): string {
    match place
    case Copied => [c]
    case Hidden => []
    case Token(kind) => Redaction(kind)
  }

  function Masked(s: string, hits: seq<Finding>): string {
    WriteFrom(s, Plan(hits, |s|), 0)
  }

  // --- The loop ------------------------------------------------------------------------------------

  lemma {:induction false} CopiedStretch(s: string, plan: seq<Place>, p: nat, stop: nat)
    requires p <= stop <= |s| == |plan| && forall q :: p <= q < stop ==> plan[q] == Copied
    ensures WriteFrom(s, plan, p) == s[p..stop] + WriteFrom(s, plan, stop)
    decreases stop - p
  {
    var rest := WriteFrom(s, plan, stop);
    if p < stop {
      CopiedStretch(s, plan, p + 1, stop);
      Associates([s[p]], s[p + 1..stop], rest);
      assert [s[p]] + s[p + 1..stop] == s[p..stop];
    } else {
      assert s[p..stop] == [] && [] + rest == rest;
    }
  }

  lemma {:induction false} HiddenStretch(s: string, plan: seq<Place>, p: nat, stop: nat)
    requires p <= stop <= |s| == |plan| && forall q :: p <= q < stop ==> plan[q] == Hidden
    ensures WriteFrom(s, plan, p) == WriteFrom(s, plan, stop)
    decreases stop - p
  {
    if p < stop {
      HiddenStretch(s, plan, p + 1, stop);
      assert [] + WriteFrom(s, plan, p + 1) == WriteFrom(s, plan, p + 1);
    }
  }

  /** A group in the plan: what is copied before it, its token, and the positions it
      hides. */
  lemma WrittenGroup(s: string, plan: seq<Place>, last: nat, start: nat, end: nat, kind: string)
    requires last <= start < end <= |s| == |plan| && plan[start] == Token(kind)
    requires forall q :: last <= q < start ==> plan[q] == Copied
    requires forall q :: start < q < end ==> plan[q] == Hidden
    ensures WriteFrom(s, plan, last) == s[last..start] + (Redaction(kind) + WriteFrom(s, plan, end))
  {
    CopiedStretch(s, plan, last, start);
    TokenStep(s, plan, start, kind);
    HiddenStretch(s, plan, start + 1, end);
  }

  lemma TokenStep(s: string, plan: seq<Place>, p: nat, kind: string)
    requires p < |s| == |plan| && plan[p] == Token(kind)
    ensures WriteFrom(s, plan, p) == Redaction(kind) + WriteFrom(s, plan, p + 1)
  {
  }

  lemma {:induction false} FirstThatBegins(hits: seq<Finding>, i: nat, p: int)
    requires i < |hits| && hits[i].start == p && forall k :: 0 <= k < i ==> hits[k].start != p
    ensures KindAt(hits, p) == hits[i].kind
    decreases i
  {
    if i > 0 {
      assert hits[0].start != p;
      FirstThatBegins(hits[1..], i - 1, p);
    }
  }

  /** Where the loop stands: groups before i are written, and none of the rest began. */
  ghost predicate Between(hits: seq<Finding>, i: nat, last: nat) {
    i <= |hits| && (forall k :: 0 <= k < i ==> hits[k].end <= last)
    && (forall k :: i <= k < |hits| ==> last <= hits[k].start)
  }

  ghost predicate Inside(hits: seq<Finding>, i: nat, j: nat, p: int) {
    j <= |hits| && exists k :: i <= k < j && Within(hits[k], p)
  }

  /** The hits i to j - 1 are one group, from start to end. */
  ghost predicate Group(hits: seq<Finding>, i: nat, j: nat, start: nat, end: nat) {
    && i < j <= |hits| && start == hits[i].start && start < end
    && (forall k :: i <= k < j ==> hits[k].end <= end)
    && (forall p :: start < p < end ==> Inside(hits, i, j, p))
  }

  lemma GroupGrows(hits: seq<Finding>, i: nat, j: nat, start: nat, end: nat, e: nat)
    requires Group(hits, i, j, start, end) && j < |hits| && hits[j].start < end && Sorted(hits)
    requires e == if hits[j].end > end then hits[j].end else end
    ensures Group(hits, i, j + 1, start, e)
  {
    var j' := j + 1;
    forall p | start < p < e ensures Inside(hits, i, j', p) {
      if p < end {
        assert Inside(hits, i, j, p);
      } else {
        assert Within(hits[j], p);
      }
    }
  }

  /** Before a group nothing is hidden. */
  lemma BeforeAGroup(hits: seq<Finding>, i: nat, last: nat, q: nat)
    requires Sorted(hits) && Between(hits, i, last) && i < |hits| && last <= q < hits[i].start && NoneEmpty(hits)
    ensures PlaceAt(hits, q) == Copied
  {
  }

  /** Its token stands where it begins. */
  lemma TokenOfAGroup(hits: seq<Finding>, i: nat, last: nat)
    requires Sorted(hits) && Between(hits, i, last) && i < |hits| && NoneEmpty(hits)
    ensures PlaceAt(hits, hits[i].start) == Token(hits[i].kind)
  {
    FirstThatBegins(hits, i, hits[i].start);
  }

  /** And the rest of it is hidden. */
  lemma InAGroup(hits: seq<Finding>, i: nat, j: nat, start: nat, end: nat, q: nat)
    requires Group(hits, i, j, start, end) && start < q < end
    ensures PlaceAt(hits, q) == Hidden
  {
    assert Inside(hits, i, j, q);
  }

  /** What is written and what is still to come make up the masked string. */
  ghost predicate Writing(s: string, hits: seq<Finding>, i: nat, last: nat, out: string) {
    Between(hits, i, last) && last <= |s| && out + WriteFrom(s, Plan(hits, |s|), last) == Masked(s, hits)
  }

  lemma PlannedGroup(hits: seq<Finding>, n: nat, i: nat, j: nat, last: nat, end: nat)
    requires Sorted(hits) && NoneEmpty(hits) && Between(hits, i, last) && i < |hits|
             && Group(hits, i, j, hits[i].start, end) && end <= n
    ensures var plan, start := Plan(hits, n), hits[i].start;
            last <= start && plan[start] == Token(hits[i].kind)
            && (forall q :: last <= q < start ==> plan[q] == Copied)
            && (forall q :: start < q < end ==> plan[q] == Hidden)
  {
    var plan, start := Plan(hits, n), hits[i].start;
    forall q | last <= q < start ensures plan[q] == Copied {
      BeforeAGroup(hits, i, last, q);
    }
    TokenOfAGroup(hits, i, last);
    forall q | start < q < end ensures plan[q] == Hidden {
      InAGroup(hits, i, j, start, end, q);
    }
  }

  lemma PastAGroup(hits: seq<Finding>, i: nat, j: nat, last: nat, end: nat)
    requires Sorted(hits) && Between(hits, i, last) && i < |hits| && Group(hits, i, j, hits[i].start, end)
    requires j < |hits| ==> hits[j].start >= end
    ensures Between(hits, j, end)
  {
  }

  lemma WriteGroup(s: string, hits: seq<Finding>, i: nat, j: nat, last: nat, end: nat, out: string)
    requires Sorted(hits) && NoneEmpty(hits) && Writing(s, hits, i, last, out)
    requires i < |hits| && Group(hits, i, j, hits[i].start, end) && end <= |s|
    requires j < |hits| ==> hits[j].start >= end
    ensures last <= hits[i].start && Writing(s, hits, j, end, out + s[last..hits[i].start] + Redaction(hits[i].kind))
  {
    var plan, start, token := Plan(hits, |s|), hits[i].start, Redaction(hits[i].kind);
    PlannedGroup(hits, |s|, i, j, last, end);
    PastAGroup(hits, i, j, last, end);
    WrittenGroup(s, plan, last, start, end, hits[i].kind);
    Associates(out, s[last..start], token + WriteFrom(s, plan, end));
    Associates(out + s[last..start], token, WriteFrom(s, plan, end));
  }

  lemma WriteRest(s: string, hits: seq<Finding>, last: nat, out: string)
    requires NoneEmpty(hits) && Writing(s, hits, |hits|, last, out)
    ensures out + s[last..] == Masked(s, hits)
  {
    CopiedStretch(s, Plan(hits, |s|), last, |s|);
    assert s[last..|s|] + [] == s[last..];
  }

  /** From hit i on, the hits that overlap it or one another. */
  method NextGroup(s: string, hits: seq<Finding>, i: nat) returns (j: nat, end: nat)
    requires InBounds(s, hits) && i < |hits|
    ensures i < j <= |hits| && hits[i].start <= end <= |s|
    ensures Sorted(hits) && NoneEmpty(hits) ==> Group(hits, i, j, hits[i].start, end)
    ensures j < |hits| ==> hits[j].start >= end
  {
    end := hits[i].end;
    j := i + 1;
    while j < |hits| && hits[j].start < end
      invariant i < j <= |hits| && hits[i].start <= end <= |s|
      invariant Sorted(hits) && NoneEmpty(hits) ==> Group(hits, i, j, hits[i].start, end)
    {
      ghost var before := end;
      if hits[j].end > end {
        end := hits[j].end;
      }
      if Sorted(hits) && NoneEmpty(hits) {
        GroupGrows(hits, i, j, hits[i].start, before, end);
      }
      j := j + 1;
    }
  }

  ghost predicate Regular(hits: seq<Finding>) {
    Sorted(hits) && NoneEmpty(hits)
  }

  /** The spans, sorted, give exactly the masked string. */
  method MaskSpans(s: string, hits: seq<Finding>) returns (out: string)
    requires InBounds(s, hits)
    ensures Sorted(hits) && NoneEmpty(hits) ==> out == Masked(s, hits)
  {
    out := "";
    var last: nat, i: nat := 0, 0;
    assert "" + Masked(s, hits) == Masked(s, hits);
    while i < |hits|
      invariant 0 <= i <= |hits| && last <= |s|
      invariant Regular(hits) ==> Writing(s, hits, i, last, out)
      decreases |hits| - i
    {
      var start, kind := hits[i].start, hits[i].kind;
      var j, end := NextGroup(s, hits, i);
      if Regular(hits) {
        WriteGroup(s, hits, i, j, last, end, out);
      }
      if start < last {
        i := j;
        continue;
      }
      out := out + s[last..start] + Redaction(kind);
      last := end;
      i := j;
    }
    if Regular(hits) {
      WriteRest(s, hits, last, out);
    }
    out := out + s[last..];
  }

  // --- What it keeps and what it hides ---------------------------------------------------------

  /** Exactly the positions no match covers are copied. */
  lemma CopiedExactlyOutside(hits: seq<Finding>, p: nat)
    requires NoneEmpty(hits)
    ensures PlaceAt(hits, p) == Copied <==> !Covered(hits, p)
  {
    if Opens(hits, p) {
      var k :| 0 <= k < |hits| && hits[k].start == p;
      assert hits[k].start <= p < hits[k].end;
    }
  }

  predicate AgreeWhereCopied(s: string, t: string, plan: seq<Place>) {
    |s| == |t| == |plan| && forall q :: 0 <= q < |s| && plan[q] == Copied ==> s[q] == t[q]
  }

  lemma {:induction false} SameWriting(s: string, t: string, plan: seq<Place>, p: nat)
    requires AgreeWhereCopied(s, t, plan)
    ensures WriteFrom(s, plan, p) == WriteFrom(t, plan, p)
    decreases |s| - p
  {
    if p < |s| {
      SameWriting(s, t, plan, p + 1);
      SameAt(s, t, plan, p);
    }
  }

  lemma SameAt(s: string, t: string, plan: seq<Place>, p: nat)
    requires AgreeWhereCopied(s, t, plan) && p < |s| && WriteFrom(s, plan, p + 1) == WriteFrom(t, plan, p + 1)
    ensures WriteFrom(s, plan, p) == WriteFrom(t, plan, p)
  {
    assert plan[p].Copied? ==> s[p] == t[p];
    WriteStep(s, plan, p);
    WriteStep(t, plan, p);
  }

  lemma WriteStep(s: string, plan: seq<Place>, p: nat)
    requires p < |s| == |plan|
    ensures WriteFrom(s, plan, p) == Written(s[p], plan[p]) + WriteFrom(s, plan, p + 1)
  {
  }

  /** Nothing of a match survives: two strings that differ only inside the matches are
      masked alike. */
  lemma MaskHidesTheMatches(s: string, t: string, hits: seq<Finding>)
    requires |s| == |t| && NoneEmpty(hits)
    requires forall p :: 0 <= p < |s| && !Covered(hits, p) ==> s[p] == t[p]
    ensures Masked(s, hits) == Masked(t, hits)
  {
    var plan := Plan(hits, |s|);
    forall q | 0 <= q < |s| && plan[q] == Copied ensures s[q] == t[q] {
      CopiedExactlyOutside(hits, q);
    }
    SameWriting(s, t, plan, 0);
  }

  lemma {:induction false} SameWritten(s: string, t: string, plan: seq<Place>, p: nat, q: nat)
    requires |s| == |t| == |plan| && p <= q < |s| && plan[q] == Copied
    requires WriteFrom(s, plan, p) == WriteFrom(t, plan, p)
    ensures s[q] == t[q]
    decreases q - p
  {
    var a, b := Written(s[p], plan[p]), Written(t[p], plan[p]);
    var restA, restB := WriteFrom(s, plan, p + 1), WriteFrom(t, plan, p + 1);
    assert |a| == |b| && a + restA == b + restB;
    SplitAlike(a, restA, b, restB);
    if p < q {
      SameWritten(s, t, plan, p + 1, q);
    }
  }

  lemma SplitAlike(a: string, restA: string, b: string, restB: string)
    requires |a| == |b| && a + restA == b + restB
    ensures a == b && restA == restB
  {
    assert a == (a + restA)[..|a|] && restA == (a + restA)[|a|..];
    assert b == (b + restB)[..|b|] && restB == (b + restB)[|b|..];
  }

  /** And everything else does: two strings masked alike agree wherever no match is. */
  lemma MaskKeepsTheRest(s: string, t: string, hits: seq<Finding>, p: nat)
    requires |s| == |t| && NoneEmpty(hits) && Masked(s, hits) == Masked(t, hits)
    requires p < |s| && !Covered(hits, p)
    ensures s[p] == t[p]
  {
    CopiedExactlyOutside(hits, p);
    SameWritten(s, t, Plan(hits, |s|), 0, p);
  }

  /** And nothing else is touched: without a match the string stays as it is. */
  lemma MaskOfNothing(s: string)
    ensures Masked(s, []) == s
  {
    CopiedStretch(s, Plan([], |s|), 0, |s|);
    assert s[0..|s|] + [] == s;
  }

  /** A match becomes a token that names its kind. */
  lemma MaskOfOne(s: string, h: Finding)
    requires h.start < h.end <= |s|
    ensures Masked(s, [h]) == s[..h.start] + "<redacted:" + h.kind + ">" + s[h.end..]
  {
    var plan := Plan([h], |s|);
    PlanOfOne(h, |s|);
    WrittenGroup(s, plan, 0, h.start, h.end, h.kind);
    CopiedTail(s, plan, h.end);
    Associates(s[..h.start], Redaction(h.kind), s[h.end..]);
  }

  lemma CopiedTail(s: string, plan: seq<Place>, p: nat)
    requires p <= |s| == |plan| && forall q :: p <= q < |s| ==> plan[q] == Copied
    ensures WriteFrom(s, plan, p) == s[p..]
  {
    CopiedStretch(s, plan, p, |s|);
    assert s[p..|s|] + [] == s[p..];
  }

  lemma PlanOfOne(h: Finding, n: nat)
    requires h.start < h.end <= n
    ensures var plan := Plan([h], n);
            forall q :: 0 <= q < n ==>
              plan[q] == if q == h.start then Token(h.kind) else if h.start < q < h.end then Hidden else Copied
  {
    var hits := [h];
    forall q | 0 <= q < n
      ensures PlaceAt(hits, q)
           == if q == h.start then Token(h.kind) else if h.start < q < h.end then Hidden else Copied
    {
      assert hits[0] == h;
      assert Within(hits[0], q) <==> h.start < q < h.end;
      CopiedExactlyOutside(hits, q);
    }
  }
}
