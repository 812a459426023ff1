/** What a scan under a budget is worth: when it counts as clean, and that what it hands
    back is what a scan without any budget would have. */
module ScanFacts {
  import opened Collections
  import opened Masking
  import opened Scanning

  // --- A scan with nothing to run out of ---------------------------------------------------

  /** The text a scan would read: secret fields are not descended into. */
  function Size(o: Options, v: Value): nat
    decreases v, 1, 0
  {
    match v
    case Text(s) => |s|
    case Object(fields) => FieldsSize(o, v, |fields|)
    case Array(items) => ItemsSize(o, v, |items|)
    case _ => 0
  }

  function FieldsSize(o: Options, v: Value, n: nat): nat
    requires v.Object? && n <= |v.fields|
    decreases v, 0, n
  {
    if n == 0 then 0
    else
      var f := v.fields[n - 1];
      FieldsSize(o, v, n - 1) + FieldSize(o, f)
  }

  function FieldSize(o: Options, f: Field): nat
    decreases f, 1, 0
  {
    if Secret(o, f.key) then 0 else Size(o, f.value)
  }

  function ItemsSize(o: Options, v: Value, n: nat): nat
    requires v.Array? && n <= |v.items|
    decreases v, 0, n
  {
    if n == 0 then 0 else ItemsSize(o, v, n - 1) + Size(o, v.items[n - 1])
  }

  /** No detector has anything to say about the whole of any string, and no field says it
      holds a secret. */
  predicate Silent(o: Options, v: Value)
    decreases v, 1
  {
    match v
    case Text(s) => s != "" ==> Mute(o.detectors, s)
    case Object(fields) => SilentFields(o, v, |fields|)
    case Array(items) => SilentItems(o, v, |items|)
    case _ => true
  }

  predicate SilentFields(o: Options, v: Value, n: nat)
    requires v.Object? && n <= |v.fields|
    decreases v, 0
  {
    forall i :: 0 <= i < n ==> !Secret(o, v.fields[i].key) && Silent(o, v.fields[i].value)
  }

  predicate SilentItems(o: Options, v: Value, n: nat)
    requires v.Array? && n <= |v.items|
    decreases v, 0
  {
    forall i :: 0 <= i < n ==> Silent(o, v.items[i])
  }

  predicate Mute(ds: seq<Detector>, s: string) {
    forall i :: 0 <= i < |ds| ==> ds[i].find(s) == []
  }

  /** The value with every match in every string masked, and every secret field replaced. */
  function Redacted(o: Options, v: Value, path: seq<Step>): Value
    decreases v
  {
    match v
    case Text(s) =>
      var hits := InPlace(AllFindings(o.detectors, s, s, path));
      if s == "" || hits == [] then v else Text(Masked(s, hits))
    case Object(fields) =>
      Object(seq(|fields|, i requires 0 <= i < |fields| => RedactedField(o, fields[i], path + [Key(fields[i].key)])))
    case Array(items) =>
      Array(seq(|items|, i requires 0 <= i < |items| => Redacted(o, items[i], path + [Index(i)])))
    case _ => v
  }

  function RedactedField(o: Options, f: Field, path: seq<Step>): Field
    decreases f
  {
    if Secret(o, f.key) then Field(f.key, Text(Redaction("credential")))
    else Field(f.key, Redacted(o, f.value, path))
  }

  // --- What every scan keeps -----------------------------------------------------------------

  /** From one state of a scan to a later one: text read is taken from the budget, nothing
      is forgotten, and without a deadline time never runs out. */
  ghost predicate Later(o: Options, a: State, b: State) {
    && a.res.bytes + a.budget == b.res.bytes + b.budget && (a.budget >= 0 ==> b.budget >= 0)
    && a.res.bytes <= b.res.bytes && a.res.matches <= b.res.matches
    && (a.res.truncated ==> b.res.truncated) && (a.timedOut ==> b.timedOut)
    && (o.deadline.None? && !a.timedOut ==> !b.timedOut)
    && (Full(a.res) ==> Full(b.res))
  }

  /** All matches are on record, or the first hundred of them. */
  ghost predicate Full(r: Result) {
    |r.findings| == if r.matches <= MAX_FINDINGS then r.matches else MAX_FINDINGS
  }

  lemma RecordedLater(o: Options, st: State, hits: seq<Finding>)
    ensures Later(o, st, st.(res := Recorded(st.res, hits)))
  {
  }

  lemma AskedLater(o: Options, s: string, part: string, path: seq<Step>, st: State)
    ensures var r := Asked(o, s, part, path, st);
            Later(o, st, r.1) && ((!o.mask || r.1.res.matches == st.res.matches) ==> r.0 == s)
  {
    RecordedLater(o, st, InPlace(AllFindings(o.detectors, part, s, path)));
  }

  lemma TextLater(o: Options, s: string, path: seq<Step>, st: State)
    ensures var r := ScanText(o, s, path, st);
            Later(o, st, r.1) && ((!o.mask || r.1.res.matches == st.res.matches) ==> r.0 == s)
  {
    if s != "" && !st.timedOut && st.budget > 0 {
      var read := ReadFrom(s, st);
      assert Later(o, st, read) && read.res.matches == st.res.matches;
      AskedLater(o, s, Part(s, st.budget), path, read);
    }
  }

  /** The value comes back as it was unless something in it was masked. */
  lemma {:induction false} ScansOnlyRead(o: Options, v: Value, path: seq<Step>, st: State)
    ensures var r := Walk(o, v, path, st);
            Later(o, st, r.1) && ((!o.mask || r.1.res.matches == st.res.matches) ==> r.0 == v)
    decreases v, 1, 0
  {
    match v
    case Text(s) => TextLater(o, s, path, st);
    case Object(fields) =>
      FieldsOnlyRead(o, v, |fields|, path, st);
      assert fields[..|fields|] == fields;
    case Array(items) =>
      ItemsOnlyRead(o, v, |items|, path, st);
      assert items[..|items|] == items;
    case _ =>
  }

  lemma {:induction false} FieldsOnlyRead(o: Options, v: Value, n: nat, path: seq<Step>, st: State)
    requires v.Object? && n <= |v.fields|
    ensures var r := WalkFields(o, v, n, path, st);
            Later(o, st, r.1) && ((!o.mask || r.1.res.matches == st.res.matches) ==> r.0 == v.fields[..n])
    decreases v, 0, n
  {
    if n > 0 {
      FieldsOnlyRead(o, v, n - 1, path, st);
      var f := v.fields[n - 1];
      var before := WalkFields(o, v, n - 1, path, st).1;
      if !Secret(o, f.key) {
        ScansOnlyRead(o, f.value, path + [Key(f.key)], before);
      }
      assert v.fields[..n] == v.fields[..n - 1] + [f];
    }
  }

  lemma {:induction false} ItemsOnlyRead(o: Options, v: Value, n: nat, path: seq<Step>, st: State)
    requires v.Array? && n <= |v.items|
    ensures var r := WalkItems(o, v, n, path, st);
            Later(o, st, r.1) && ((!o.mask || r.1.res.matches == st.res.matches) ==> r.0 == v.items[..n])
    decreases v, 0, n
  {
    if n > 0 {
      ItemsOnlyRead(o, v, n - 1, path, st);
      ScansOnlyRead(o, v.items[n - 1], path + [Index(n - 1)], WalkItems(o, v, n - 1, path, st).1);
      assert v.items[..n] == v.items[..n - 1] + [v.items[n - 1]];
    }
  }

  // --- When the budget is enough ----------------------------------------------------------------

  lemma {:induction false} MuteFindsNothing(ds: seq<Detector>, s: string, path: seq<Step>)
    ensures AllFindings(ds, s, s, path) == [] <==> Mute(ds, s)
  {
    if ds != [] {
      var n := |ds| - 1;
      MuteFindsNothing(ds[..n], s, path);
      assert forall i :: 0 <= i < n ==> ds[..n][i] == ds[i];
      if Mute(ds[..n], s) && ds[n].find(s) == [] {
        assert forall i :: 0 <= i < |ds| ==> i == n || ds[i] == ds[..n][i];
      }
    }
  }

  /** The scan ran within its time: it was cut short exactly when the text was more than the
      budget, and otherwise it has spent exactly the text, kept quiet exactly about silent
      values, and handed back the redacted value when it masks. */
  ghost predicate Exact(o: Options, size: nat, silent: bool, masked: bool, a: State, b: State) {
    && (b.res.truncated <==> a.res.truncated || size > a.budget)
    && (size <= a.budget ==>
           b.budget == a.budget - size && (b.res.matches == a.res.matches <==> silent) && (o.mask ==> masked))
  }

  /** One stretch after another. */
  lemma ExactThen(o: Options, a: State, b: State, c: State, n: nat, silent: bool, masked: bool, n': nat, silent': bool,
                  masked': bool)
    requires Later(o, a, b) && Later(o, b, c) && a.budget >= 0
    requires Exact(o, n, silent, masked, a, b) && Exact(o, n', silent', masked', b, c)
    ensures Exact(o, n + n', silent && silent', masked && masked', a, c)
  {
  }

  lemma TextExact(o: Options, s: string, path: seq<Step>, st: State)
    requires st.budget >= 0 && !ScanText(o, s, path, st).1.timedOut
    ensures var r := ScanText(o, s, path, st);
            Exact(o, |s|, Silent(o, Text(s)), Text(r.0) == Redacted(o, Text(s), path), st, r.1)
  {
    if s != "" && st.budget > 0 {
      var found := AllFindings(o.detectors, s, s, path);
      MuteFindsNothing(o.detectors, s, path);
      assert |multiset(InPlace(found))| == |InPlace(found)| && |multiset(found)| == |found|;
    }
  }

  lemma {:induction false} WalkIsExact(o: Options, v: Value, path: seq<Step>, st: State)
    requires st.budget >= 0 && !Walk(o, v, path, st).1.timedOut
    ensures var r := Walk(o, v, path, st);
            Exact(o, Size(o, v), Silent(o, v), r.0 == Redacted(o, v, path), st, r.1)
    decreases v, 1, 0
  {
    match v
    case Text(s) => TextExact(o, s, path, st);
    case Object(fields) => FieldsAreExact(o, v, |fields|, path, st);
    case Array(items) => ItemsAreExact(o, v, |items|, path, st);
    case _ =>
  }

  lemma {:induction false} FieldsAreExact(o: Options, v: Value, n: nat, path: seq<Step>, st: State)
    requires v.Object? && n <= |v.fields| && st.budget >= 0 && !WalkFields(o, v, n, path, st).1.timedOut
    ensures var r := WalkFields(o, v, n, path, st);
            Exact(o, FieldsSize(o, v, n),
                  SilentFields(o, v, n), r.0 == Redacted(o, v, path).fields[..n], st, r.1)
    decreases v, 0, n
  {
    if n > 0 {
      FieldsOnlyRead(o, v, n - 1, path, st);
      var before, whole := WalkFields(o, v, n - 1, path, st), Redacted(o, v, path).fields;
      var f, child := v.fields[n - 1], path + [Key(v.fields[n - 1].key)];
      FieldIsExact(o, f, child, before.1);
      FieldsAreExact(o, v, n - 1, path, st);
      var last := WalkField(o, f, child, before.1);
      ExactThen(o, st, before.1, last.1,
                FieldsSize(o, v, n - 1), SilentFields(o, v, n - 1), before.0 == whole[..n - 1],
                FieldSize(o, f), !Secret(o, f.key) && Silent(o, f.value), last.0 == RedactedField(o, f, child));
      SamePrefix(before.0, last.0, whole, n);
    }
  }

  lemma SamePrefix<T>(a: seq<T>, x: T, whole: seq<T>, n: nat)
    requires 0 < n <= |whole| && |a| == n - 1
    ensures a + [x] == whole[..n] <==> a == whole[..n - 1] && x == whole[n - 1]
  {
    assert whole[..n] == whole[..n - 1] + [whole[n - 1]];
    if a + [x] == whole[..n] {
      assert a == (a + [x])[..n - 1] && (a + [x])[n - 1] == x;
    }
  }

  lemma {:induction false} FieldIsExact(o: Options, f: Field, path: seq<Step>, st: State)
    requires st.budget >= 0 && !WalkField(o, f, path, st).1.timedOut
    ensures var r := WalkField(o, f, path, st);
            Later(o, st, r.1)
            && Exact(o, FieldSize(o, f), !Secret(o, f.key) && Silent(o, f.value), r.0 == RedactedField(o, f, path),
                     st, r.1)
    decreases f, 1, 0
  {
    if !Secret(o, f.key) {
      ScansOnlyRead(o, f.value, path, st);
      WalkIsExact(o, f.value, path, st);
    }
  }

  lemma {:induction false} ItemsAreExact(o: Options, v: Value, n: nat, path: seq<Step>, st: State)
    requires v.Array? && n <= |v.items| && st.budget >= 0 && !WalkItems(o, v, n, path, st).1.timedOut
    ensures var r := WalkItems(o, v, n, path, st);
            Exact(o, ItemsSize(o, v, n), SilentItems(o, v, n), r.0 == Redacted(o, v, path).items[..n], st, r.1)
    decreases v, 0, n
  {
    if n > 0 {
      ItemsOnlyRead(o, v, n - 1, path, st);
      var before, whole := WalkItems(o, v, n - 1, path, st), Redacted(o, v, path).items;
      var x, child := v.items[n - 1], path + [Index(n - 1)];
      ScansOnlyRead(o, x, child, before.1);
      WalkIsExact(o, x, child, before.1);
      ItemsAreExact(o, v, n - 1, path, st);
      var last := Walk(o, x, child, before.1);
      ExactThen(o, st, before.1, last.1,
                ItemsSize(o, v, n - 1), SilentItems(o, v, n - 1), before.0 == whole[..n - 1],
                Size(o, x), Silent(o, x), last.0 == Redacted(o, x, child));
      SamePrefix(before.0, last.0, whole, n);
    }
  }

  // --- The theorems -----------------------------------------------------------------------------

  /** A clean scan read everything: with time enough, it is clean exactly when the whole text
      is within the budget and no detector has anything to say about any string of it. */
  lemma CleanMeansReadWhole(o: Options, v: Value, maxBytes: int)
    requires !Walk(o, v, [], Start(maxBytes)).1.timedOut
    ensures Clean(Walk(o, v, [], Start(maxBytes)).1.res) <==> Size(o, v) <= Budget(maxBytes) && Silent(o, v)
  {
    WalkIsExact(o, v, [], Start(maxBytes));
  }

  /** Within the budget and the time, masking redacts the whole value. */
  lemma MaskingIsComplete(o: Options, v: Value, maxBytes: int)
    requires o.mask && Size(o, v) <= Budget(maxBytes) && !Walk(o, v, [], Start(maxBytes)).1.timedOut
    ensures Walk(o, v, [], Start(maxBytes)).0 == Redacted(o, v, [])
  {
    WalkIsExact(o, v, [], Start(maxBytes));
  }

  /** Whatever happens, text read and budget left make up the budget, and a scan that does
      not mask, or found nothing, hands back the value it was given. */
  lemma ScanAccounts(o: Options, v: Value, maxBytes: int)
    ensures var r := Walk(o, v, [], Start(maxBytes));
            && r.1.res.bytes + r.1.budget == Budget(maxBytes) && 0 <= r.1.budget
            && Full(r.1.res) && (o.deadline.None? ==> !r.1.timedOut)
            && (!o.mask || r.1.res.matches == 0 ==> r.0 == v)
  {
    ScansOnlyRead(o, v, [], Start(maxBytes));
  }
}
