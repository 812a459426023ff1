/** A scan of a nested value under a budget of text and, perhaps, a deadline: what it
    reads, what it reports and what it hands back. */
module Scanning {
  import opened Collections
  import opened Masking
  import NumberWindows

  datatype Value = Null | Text(text: string) | Object(fields: seq<Field>) | Array(items: seq<Value>) | Other(n: int)

  /** An object's fields stand in the order of their keys, which is the order of the walk. */
  datatype Field = Field(key: string, value: Value)

  datatype Detector = Detector(name: string, kind: string, find: string -> seq<NumberWindows.Hit>)

  /** What one scan is asked. The deadline is how many looks at the clock come before it
      has passed. */
  datatype Options = Options(detectors: seq<Detector>, secretKey: bool, looksSecret: string -> bool, mask: bool,
                             deadline: Option<nat>)

  datatype Result = Result(findings: seq<Finding>, matches: nat, bytes: nat, truncated: bool)

  predicate Clean(r: Result) {
    r.matches == 0 && !r.truncated
  }

  /** How far a scan is. */
  datatype State = State(budget: int, checks: nat, timedOut: bool, res: Result)

  const MAX_FINDINGS := 100

  // --- One string -------------------------------------------------------------------------------

  predicate RuneStart(c: char) {
    !(0x80 <= c as int <= 0xBF)
  }

  /** The last position up to n where a character of the text begins. */
  function RuneBoundary(s: string, n: nat): (r: nat)
    requires n < |s|
    ensures r <= n && (r == 0 || RuneStart(s[r])) && forall k :: r < k <= n ==> !RuneStart(s[k])
  {
    if n > 0 && !RuneStart(s[n]) then RuneBoundary(s, n - 1) else n
  }

  method BoundaryBelow(s: string, from: nat) returns (n: nat)
    requires from < |s|
    ensures n == RuneBoundary(s, from)
  {
    n := from;
    while n > 0 && !RuneStart(s[n])
      invariant n <= from && RuneBoundary(s, n) == RuneBoundary(s, from)
    {
      n := n - 1;
    }
  }

  /** How much of a string the budget lets a scan read. */
  function Part(s: string, budget: nat): (part: string)
    ensures part <= s && |part| <= budget && (|s| <= budget ==> part == s)
  {
    if |s| > budget then s[..RuneBoundary(s, budget)] else s
  }

  /** What a detector may say: matches of at least one character, inside the text. */
  predicate Behaves(d: Detector, s: string) {
    forall k :: 0 <= k < |d.find(s)| ==> d.find(s)[k].start < d.find(s)[k].end <= |s|
  }

  ghost predicate AllBehave(o: Options) {
    forall i, s :: 0 <= i < |o.detectors| ==> Behaves(o.detectors[i], s)
  }

  /** What one detector has to say about a string of which it was shown a part. A detector
      that stopped at its cap stands for the whole string. */
  function DetectorFindings(d: Detector, part: string, whole: string, path: seq<Step>): seq<Finding> {
    var ms := d.find(part);
    if |ms| > MAX_FINDINGS then
      [Finding(d.name, "too_many_matches", d.kind, ms[0].confidence, path, 0, |whole|)]
    else
      seq(|ms|, k requires 0 <= k < |ms| =>
          Finding(d.name, ms[k].rule, d.kind, ms[k].confidence, path, ms[k].start, ms[k].end))
  }

  function AllFindings(ds: seq<Detector>, part: string, whole: string, path: seq<Step>): seq<Finding> {
    if ds == [] then []
    else AllFindings(ds[..|ds| - 1], part, whole, path) + DetectorFindings(ds[|ds| - 1], part, whole, path)
  }

  function Inserted(x: Finding, hits: seq<Finding>): (r: seq<Finding>)
    requires Sorted(hits)
    ensures Sorted(r) && |r| == |hits| + 1
    ensures r[0] == if hits == [] || InOrder(x, hits[0]) then x else hits[0]
  {
    if hits == [] then [x]
    else if InOrder(x, hits[0]) then [x] + hits
    else [hits[0]] + Inserted(x, hits[1..])
  }

  /** The hits in order. */
  function InPlace(hits: seq<Finding>): (r: seq<Finding>)
    ensures Sorted(r) && |r| == |hits|
  {
    if hits == [] then [] else Inserted(hits[0], InPlace(hits[1..]))
  }

  lemma {:induction false} InsertedHolds(x: Finding, hits: seq<Finding>)
    requires Sorted(hits)
    ensures multiset(Inserted(x, hits)) == multiset(hits) + multiset{x}
  {
    if hits != [] {
      assert hits == [hits[0]] + hits[1..];
      if !InOrder(x, hits[0]) {
        InsertedHolds(x, hits[1..]);
      }
    }
  }

  /** Sorting neither loses nor invents a hit. */
  lemma {:induction false} InPlaceHolds(hits: seq<Finding>)
    ensures multiset(InPlace(hits)) == multiset(hits)
  {
    if hits != [] {
      assert hits == [hits[0]] + hits[1..];
      InPlaceHolds(hits[1..]);
      InsertedHolds(hits[0], InPlace(hits[1..]));
    }
  }

  /** Every match is counted; the first hundred findings are kept. */
  function Recorded(res: Result, hits: seq<Finding>): Result {
    var all := res.findings + hits;
    res.(matches := res.matches + |hits|,
         findings := if |res.findings| >= MAX_FINDINGS then res.findings
                     else if |all| <= MAX_FINDINGS then all
                     else all[..MAX_FINDINGS])
  }

  predicate LateAt(o: Options, check: nat) {
    o.deadline.Some? && o.deadline.value <= check
  }

  /** The scan of one string. */
  function ScanText(o: Options, s: string, path: seq<Step>, st: State): (string, State) {
    if s == "" || st.timedOut then (s, st)
    else if st.budget <= 0 then (s, st.(res := st.res.(truncated := true)))
    else Asked(o, s, Part(s, st.budget), path, ReadFrom(s, st))
  }

  /** The part of a string that is within the budget is read. */
  function ReadFrom(s: string, st: State): State
    requires st.budget > 0
  {
    var n := |Part(s, st.budget)|;
    st.(budget := st.budget - n,
        res := st.res.(bytes := st.res.bytes + n, truncated := st.res.truncated || |s| > st.budget))
  }

  /** And the detectors are asked about it, if there is time. */
  function Asked(o: Options, s: string, part: string, path: seq<Step>, st: State): (string, State) {
    if |o.detectors| > 0 && LateAt(o, st.checks + |o.detectors| - 1) then
      (s, st.(timedOut := true, checks := if LateAt(o, st.checks) then st.checks else o.deadline.value))
    else
      var hits := InPlace(AllFindings(o.detectors, part, s, path));
      (if o.mask && hits != [] then Masked(s, hits) else s,
       st.(checks := st.checks + |o.detectors|, res := Recorded(st.res, hits)))
  }

  // --- The walk ----------------------------------------------------------------------------------

  predicate Secret(o: Options, key: string) {
    o.secretKey && o.looksSecret(key)
  }

  function SecretFinding(path: seq<Step>): Finding {
    Finding("secret_key", "field_name", "credential", NumberWindows.High, path, 0, 0)
  }

  function Walk(o: Options, v: Value, path: seq<Step>, st: State): (Value, State)
    decreases v, 1, 0
  {
    match v
    case Null => (v, st)
    case Other(_) => (v, st)
    case Text(s) =>
      var r := ScanText(o, s, path, st);
      (Text(r.0), r.1)
    case Object(fields) =>
      var r := WalkFields(o, v, |fields|, path, st);
      (Object(r.0), r.1)
    case Array(items) =>
      var r := WalkItems(o, v, |items|, path, st);
      (Array(r.0), r.1)
  }

  /** The first n fields. */
  function WalkFields(o: Options, v: Value, n: nat, path: seq<Step>, st: State): (r: (seq<Field>, State))
    requires v.Object? && n <= |v.fields|
    ensures |r.0| == n
    decreases v, 0, n
  {
    if n == 0 then ([], st)
    else
      var before := WalkFields(o, v, n - 1, path, st);
      var f := v.fields[n - 1];
      var r := WalkField(o, f, path + [Key(f.key)], before.1);
      (before.0 + [r.0], r.1)
  }

  function WalkField(o: Options, f: Field, path: seq<Step>, st: State): (Field, State)
    decreases f, 1, 0
  {
    if Secret(o, f.key) then
      (if o.mask then Field(f.key, Text(Redaction("credential"))) else f,
       st.(res := Recorded(st.res, [SecretFinding(path)])))
    else
      var r := Walk(o, f.value, path, st);
      (Field(f.key, r.0), r.1)
  }

  function WalkItems(o: Options, v: Value, n: nat, path: seq<Step>, st: State): (r: (seq<Value>, State))
    requires v.Array? && n <= |v.items|
    ensures |r.0| == n
    decreases v, 0, n
  {
    if n == 0 then ([], st)
    else
      var before := WalkItems(o, v, n - 1, path, st);
      var r := Walk(o, v.items[n - 1], path + [Index(n - 1)], before.1);
      (before.0 + [r.0], r.1)
  }

  // --- Fields that say they hold a secret ------------------------------------------------------------

  /** Every field whose name looks like a secret's shows the redaction and nothing else. */
  predicate NoSecretShown(o: Options, v: Value)
    decreases v
  {
    match v
    case Object(fields) =>
      forall i :: 0 <= i < |fields| ==>
        if o.secretKey && o.looksSecret(fields[i].key) then fields[i].value == Text("<redacted:credential>")
        else NoSecretShown(o, fields[i].value)
    case Array(items) => forall i :: 0 <= i < |items| ==> NoSecretShown(o, items[i])
    case _ => true
  }

  /** That is so whatever the budget and the time. */
  lemma {:induction false} SecretsAreReplaced(o: Options, v: Value, path: seq<Step>, st: State)
    requires o.mask
    ensures NoSecretShown(o, Walk(o, v, path, st).0)
    decreases v, 1, 0
  {
    match v
    case Object(fields) => FieldsAreReplaced(o, v, |fields|, path, st);
    case Array(items) => ItemsAreReplaced(o, v, |items|, path, st);
    case _ =>
  }

  lemma {:induction false} FieldsAreReplaced(o: Options, v: Value, n: nat, path: seq<Step>, st: State)
    requires o.mask && v.Object? && n <= |v.fields|
    ensures NoSecretShown(o, Object(WalkFields(o, v, n, path, st).0))
    decreases v, 0, n
  {
    if n > 0 {
      FieldsAreReplaced(o, v, n - 1, path, st);
      var before := WalkFields(o, v, n - 1, path, st);
      var f := v.fields[n - 1];
      if !Secret(o, f.key) {
        SecretsAreReplaced(o, f.value, path + [Key(f.key)], before.1);
      }
      ShownOneMore(o, before.0, WalkField(o, f, path + [Key(f.key)], before.1).0);
    }
  }

  lemma ShownOneMore(o: Options, fields: seq<Field>, f: Field)
    requires NoSecretShown(o, Object(fields))
    requires if o.secretKey && o.looksSecret(f.key) then f.value == Text("<redacted:credential>")
             else NoSecretShown(o, f.value)
    ensures NoSecretShown(o, Object(fields + [f]))
  {
    var v, w := Object(fields), Object(fields + [f]);
    assert forall i :: 0 <= i < |fields| ==> w.fields[i] == v.fields[i];
  }

  lemma {:induction false} ItemsAreReplaced(o: Options, v: Value, n: nat, path: seq<Step>, st: State)
    requires o.mask && v.Array? && n <= |v.items|
    ensures NoSecretShown(o, Array(WalkItems(o, v, n, path, st).0))
    decreases v, 0, n
  {
    if n > 0 {
      ItemsAreReplaced(o, v, n - 1, path, st);
      var before := WalkItems(o, v, n - 1, path, st);
      SecretsAreReplaced(o, v.items[n - 1], path + [Index(n - 1)], before.1);
      var w := Array(before.0 + [Walk(o, v.items[n - 1], path + [Index(n - 1)], before.1).0]);
      assert forall i :: 0 <= i < n - 1 ==> w.items[i] == before.0[i];
    }
  }

  lemma {:induction false} UnmaskedIsUntouched(o: Options, v: Value, path: seq<Step>, st: State)
    requires !o.mask
    ensures Walk(o, v, path, st).0 == v
    decreases v, 1, 0
  {
    match v
    case Object(fields) =>
      UnmaskedFields(o, v, |fields|, path, st);
      assert fields[..|fields|] == fields;
    case Array(items) =>
      UnmaskedItems(o, v, |items|, path, st);
      assert items[..|items|] == items;
    case _ =>
  }

  lemma {:induction false} UnmaskedFields(o: Options, v: Value, n: nat, path: seq<Step>, st: State)
    requires !o.mask && v.Object? && n <= |v.fields|
    ensures WalkFields(o, v, n, path, st).0 == v.fields[..n]
    decreases v, 0, n
  {
    if n > 0 {
      UnmaskedFields(o, v, n - 1, path, st);
      var f := v.fields[n - 1];
      UnmaskedIsUntouched(o, f.value, path + [Key(f.key)], WalkFields(o, v, n - 1, path, st).1);
      assert v.fields[..n] == v.fields[..n - 1] + [f];
    }
  }

  lemma {:induction false} UnmaskedItems(o: Options, v: Value, n: nat, path: seq<Step>, st: State)
    requires !o.mask && v.Array? && n <= |v.items|
    ensures WalkItems(o, v, n, path, st).0 == v.items[..n]
    decreases v, 0, n
  {
    if n > 0 {
      UnmaskedItems(o, v, n - 1, path, st);
      UnmaskedIsUntouched(o, v.items[n - 1], path + [Index(n - 1)], WalkItems(o, v, n - 1, path, st).1);
      assert v.items[..n] == v.items[..n - 1] + [v.items[n - 1]];
    }
  }

  // --- The same, step by step -----------------------------------------------------------------------

  /** One detector over one string. */
  method Ask(d: Detector, part: string, whole: string, path: seq<Step>) returns (hits: seq<Finding>)
    ensures hits == DetectorFindings(d, part, whole, path)
    ensures var ms := d.find(part);
            if |ms| > MAX_FINDINGS
            then |hits| == 1 && hits[0].start == 0 && hits[0].end == |whole| && hits[0].kind == d.kind
            else |hits| == |ms| && forall k :: 0 <= k < |ms| ==>
                   && hits[k].start == ms[k].start && hits[k].end == ms[k].end && hits[k].path == path
                   && hits[k].detector == d.name && hits[k].kind == d.kind
                   && hits[k].rule == ms[k].rule && hits[k].confidence == ms[k].confidence
  {
    var ms := d.find(part);
    if |ms| > MAX_FINDINGS {
      return [Finding(d.name, "too_many_matches", d.kind, ms[0].confidence, path, 0, |whole|)];
    }
    hits := [];
    for k := 0 to |ms|
      invariant hits == DetectorFindings(d, part, whole, path)[..k]
    {
      hits := hits + [Finding(d.name, ms[k].rule, d.kind, ms[k].confidence, path, ms[k].start, ms[k].end)];
    }
  }

  /** The detectors over one string, until one of them comes too late. */
  method Collect(o: Options, part: string, whole: string, path: seq<Step>, from: nat)
    returns (late: bool, hits: seq<Finding>, checks: nat)
    ensures late <==> |o.detectors| > 0 && LateAt(o, from + |o.detectors| - 1)
    ensures late ==> checks == if LateAt(o, from) then from else o.deadline.value
    ensures !late ==> checks == from + |o.detectors| && hits == AllFindings(o.detectors, part, whole, path)
  {
    late, hits, checks := false, [], from;
    for i := 0 to |o.detectors|
      invariant checks == from + i && (i > 0 ==> !LateAt(o, checks - 1))
      invariant hits == AllFindings(o.detectors[..i], part, whole, path)
    {
      if o.deadline.Some? && o.deadline.value <= checks {
        late := true;
        return;
      }
      checks := checks + 1;
      assert o.detectors[..i + 1][..i] == o.detectors[..i];
      var found := Ask(o.detectors[i], part, whole, path);
      hits := hits + found;
    }
    assert o.detectors[..|o.detectors|] == o.detectors;
  }

  /** Each hit is counted, and kept while there is room. */
  method Record(res: Result, hits: seq<Finding>) returns (r: Result)
    ensures r == Recorded(res, hits)
  {
    r := res;
    for k := 0 to |hits|
      invariant r == Recorded(res, hits[..k])
    {
      r := r.(matches := r.matches + 1);
      if |r.findings| < MAX_FINDINGS {
        r := r.(findings := r.findings + [hits[k]]);
      }
    }
    assert hits[..|hits|] == hits;
  }

  ghost predicate Spans(s: string, hits: seq<Finding>) {
    InBounds(s, hits) && NoneEmpty(hits)
  }

  lemma {:induction false} FindingsAreSpans(o: Options, n: nat, part: string, whole: string, path: seq<Step>)
    requires AllBehave(o) && n <= |o.detectors| && |part| <= |whole| && whole != ""
    ensures Spans(whole, AllFindings(o.detectors[..n], part, whole, path))
  {
    if n > 0 {
      FindingsAreSpans(o, n - 1, part, whole, path);
      assert o.detectors[..n][..n - 1] == o.detectors[..n - 1];
      assert Behaves(o.detectors[n - 1], part);
    }
  }

  lemma ReorderedSpans(s: string, hits: seq<Finding>)
    requires Spans(s, hits)
    ensures Spans(s, InPlace(hits)) && |InPlace(hits)| == |hits|
  {
    var r := InPlace(hits);
    InPlaceHolds(hits);
    forall k | 0 <= k < |r| ensures r[k].start < r[k].end <= |s| {
      assert r[k] in multiset(r);
      assert r[k] in hits;
    }
  }

  /** The hits are put in order and recorded, and masked if that is the action. */
  method Finish(o: Options, part: string, s: string, path: seq<Step>, found: seq<Finding>, before: Result)
    returns (out: string, res: Result)
    requires AllBehave(o) && |part| <= |s| && s != "" && found == AllFindings(o.detectors, part, s, path)
    ensures res == Recorded(before, InPlace(found))
    ensures out == if o.mask && InPlace(found) != [] then Masked(s, InPlace(found)) else s
  {
    FindingsAreSpans(o, |o.detectors|, part, s, path);
    assert o.detectors[..|o.detectors|] == o.detectors;
    ReorderedSpans(s, found);
    var hits := InPlace(found);
    res := Record(before, hits);
    out := s;
    if |hits| > 0 && o.mask {
      out := MaskSpans(s, hits);
    }
  }

  /** A scan under way. */
  class Scanner {
    const o: Options
    var budget: int
    var checks: nat
    var timedOut: bool
    var res: Result

    function Now(): State
      reads this
    {
      State(budget, checks, timedOut, res)
    }

    constructor (o: Options, budget: int)
      ensures this.o == o && Now() == State(budget, 0, false, Result([], 0, 0, false))
    {
      this.o := o;
      this.budget, checks, timedOut, res := budget, 0, false, Result([], 0, 0, false);
    }

    /** Takes what it reads off the budget. */
    method Take(s: string) returns (part: string)
      requires budget > 0
      modifies this
      ensures part == Part(s, old(budget)) && Now() == ReadFrom(s, old(Now()))
    {
      part := s;
      if |part| > budget {
        var n := BoundaryBelow(s, budget);
        part := s[..n];
        res := res.(truncated := true);
      }
      budget := budget - |part|;
      res := res.(bytes := res.bytes + |part|);
    }

    method Read(s: string, path: seq<Step>) returns (out: string)
      requires AllBehave(o)
      modifies this
      ensures (out, Now()) == ScanText(o, s, path, old(Now()))
    {
      if s == "" || timedOut {
        return s;
      }
      if budget <= 0 {
        res := res.(truncated := true);
        return s;
      }
      ghost var before := Now();
      var part := Take(s);
      ghost var read := Now();
      assert ScanText(o, s, path, before) == Asked(o, s, part, path, read);
      var late, hits, looks := Collect(o, part, s, path, checks);
      if late {
        checks, timedOut := looks, true;
        assert Now() == read.(timedOut := true, checks := looks);
        return s;
      }
      var written, recorded := Finish(o, part, s, path, hits, res);
      out, checks, res := written, looks, recorded;
      assert Now() == read.(checks := looks, res := recorded);
    }

    method Visit(v: Value, path: seq<Step>) returns (out: Value, changed: bool)
      requires AllBehave(o)
      modifies this
      ensures (out, Now()) == Walk(o, v, path, old(Now()))
      ensures !changed ==> out == v
      decreases v, 1
    {
      match v {
        case Text(s) =>
          var t := Read(s, path);
          out, changed := Text(t), t != s;
        case Object(_) =>
          out, changed := VisitObject(v, path);
        case Array(_) =>
          out, changed := VisitArray(v, path);
        case _ =>
          out, changed := v, false;
      }
    }

    /** A field that says it holds a secret is redacted whatever is in it; the others are
        descended into. The first change makes the copy. */
    method VisitObject(v: Value, path: seq<Step>) returns (out: Value, changed: bool)
      requires AllBehave(o) && v.Object?
      modifies this
      ensures (out, Now()) == Walk(o, v, path, old(Now()))
      ensures !changed ==> out == v
      decreases v, 0
    {
      var fields := v.fields;
      changed := false;
      for i := 0 to |v.fields|
        invariant |fields| == |v.fields| && fields[i..] == v.fields[i..]
        invariant (fields[..i], Now()) == WalkFields(o, v, i, path, old(Now()))
        invariant !changed ==> fields == v.fields
      {
        var f := v.fields[i];
        assert fields[i] == fields[i..][0] == f;
        var child := path + [Key(f.key)];
        var got, differs := f, false;
        if Secret(o, f.key) {
          var recorded := Record(res, [SecretFinding(child)]);
          res := recorded;
          if o.mask {
            got, differs := Field(f.key, Text(Redaction("credential"))), true;
          }
        } else {
          var x;
          x, differs := Visit(f.value, child);
          got := Field(f.key, x);
        }
        if differs {
          changed := true;
          fields := fields[i := got];
        }
        assert fields[..i + 1] == fields[..i] + [got];
      }
      assert fields[..|fields|] == fields;
      out := if changed then Object(fields) else v;
    }

    method VisitArray(v: Value, path: seq<Step>) returns (out: Value, changed: bool)
      requires AllBehave(o) && v.Array?
      modifies this
      ensures (out, Now()) == Walk(o, v, path, old(Now()))
      ensures !changed ==> out == v
      decreases v, 0
    {
      var items := v.items;
      changed := false;
      for i := 0 to |v.items|
        invariant |items| == |v.items| && items[i..] == v.items[i..]
        invariant (items[..i], Now()) == WalkItems(o, v, i, path, old(Now()))
        invariant !changed ==> items == v.items
      {
        assert items[i] == items[i..][0] == v.items[i];
        var got, differs := Visit(v.items[i], path + [Index(i)]);
        if differs {
          changed := true;
          items := items[i := got];
        }
        assert items[..i + 1] == items[..i] + [got];
      }
      assert items[..|items|] == items;
      out := if changed then Array(items) else v;
    }
  }

  // --- The whole scan --------------------------------------------------------------------------------

  datatype Action = Allow | Mask | Refuse

  datatype Verdict = Passed(value: Value) | Found | OutOfTime

  const DEFAULT_MAX_BYTES := 65536
  const MAX_INT := 0x7FFF_FFFF_FFFF_FFFF

  function Budget(maxBytes: int): int {
    if maxBytes == 0 then DEFAULT_MAX_BYTES else if maxBytes < 0 then MAX_INT else maxBytes
  }

  function Start(maxBytes: int): State {
    State(Budget(maxBytes), 0, false, Result([], 0, 0, false))
  }

  /** The options carry whether the action masks. */
  method Apply(v: Value, act: Action, o: Options, maxBytes: int) returns (verdict: Verdict, res: Result)
    requires AllBehave(o) && o.mask == act.Mask?
    ensures var r := Walk(o, v, [], Start(maxBytes));
            res == r.1.res && verdict == if r.1.timedOut then OutOfTime
                                         else if act.Refuse? && r.1.res.matches > 0 then Found
                                         else Passed(r.0)
    ensures verdict.Passed? && act.Mask? ==> NoSecretShown(o, verdict.value)
    ensures verdict.Passed? && act.Refuse? ==> res.matches == 0
    ensures verdict.Passed? && !act.Mask? ==> verdict.value == v
  {
    var s := new Scanner(o, Budget(maxBytes));
    var out, _ := s.Visit(v, []);
    if o.mask {
      SecretsAreReplaced(o, v, [], Start(maxBytes));
    } else {
      UnmaskedIsUntouched(o, v, [], Start(maxBytes));
    }
    res := s.res;
    if s.timedOut {
      return OutOfTime, res;
    }
    if act.Refuse? && res.matches > 0 {
      return Found, res;
    }
    verdict := Passed(out);
  }
}
