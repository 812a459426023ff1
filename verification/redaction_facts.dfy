/** What masking comes to for a caller: exactly the characters that some detector's match
    covers are gone, and nothing else is. */
module RedactionFacts {
  import opened Collections
  import opened Masking
  import opened Scanning
  import opened ScanFacts

  /** A match of the detector covers position p; one that has more to say than a scan takes
      speaks for the whole string. */
  predicate ClaimedBy(d: Detector, s: string, p: nat) {
    if |d.find(s)| > MAX_FINDINGS then p < |s|
    else exists k :: 0 <= k < |d.find(s)| && d.find(s)[k].start <= p < d.find(s)[k].end
  }

  predicate Claimed(ds: seq<Detector>, s: string, p: nat) {
    exists i :: 0 <= i < |ds| && ClaimedBy(ds[i], s, p)
  }

  lemma CoveredByOne(d: Detector, s: string, path: seq<Step>, p: nat)
    ensures Covered(DetectorFindings(d, s, s, path), p) <==> ClaimedBy(d, s, p)
  {
    var ms, hits := d.find(s), DetectorFindings(d, s, s, path);
    if |ms| > MAX_FINDINGS {
      assert p < |s| ==> hits[0].start <= p < hits[0].end;
    } else {
      assert forall k :: 0 <= k < |ms| ==> hits[k].start == ms[k].start && hits[k].end == ms[k].end;
    }
  }

  lemma CoveredByEither(a: seq<Finding>, b: seq<Finding>, p: nat)
    ensures Covered(a + b, p) <==> Covered(a, p) || Covered(b, p)
  {
    if k :| 0 <= k < |a| && a[k].start <= p < a[k].end {
      assert (a + b)[k] == a[k];
    }
    if k :| 0 <= k < |b| && b[k].start <= p < b[k].end {
      assert (a + b)[|a| + k] == b[k];
    }
  }

  /** The findings of all detectors cover exactly what some detector matched. */
  lemma {:induction false} CoveredExactlyWhereClaimed(ds: seq<Detector>, s: string, path: seq<Step>, p: nat)
    ensures Covered(AllFindings(ds, s, s, path), p) <==> Claimed(ds, s, p)
  {
    if ds != [] {
      var n := |ds| - 1;
      CoveredExactlyWhereClaimed(ds[..n], s, path, p);
      CoveredByOne(ds[n], s, path, p);
      CoveredByEither(AllFindings(ds[..n], s, s, path), DetectorFindings(ds[n], s, s, path), p);
      assert Claimed(ds, s, p) <==> Claimed(ds[..n], s, p) || ClaimedBy(ds[n], s, p) by {
        assert forall i :: 0 <= i < n ==> ds[..n][i] == ds[i];
      }
    }
  }

  lemma CoveredInPlace(hits: seq<Finding>, p: nat)
    ensures Covered(InPlace(hits), p) <==> Covered(hits, p)
  {
    InPlaceHolds(hits);
    if k :| 0 <= k < |hits| && hits[k].start <= p < hits[k].end {
      assert hits[k] in multiset(InPlace(hits));
    }
    if k :| 0 <= k < |InPlace(hits)| && InPlace(hits)[k].start <= p < InPlace(hits)[k].end {
      assert InPlace(hits)[k] in multiset(InPlace(hits)) && InPlace(hits)[k] in multiset(hits);
    }
  }

  /** Every detector says the same about both strings. */
  predicate Alike(ds: seq<Detector>, s: string, t: string) {
    |s| == |t| && forall i :: 0 <= i < |ds| ==> ds[i].find(s) == ds[i].find(t)
  }

  lemma {:induction false} SameFindings(ds: seq<Detector>, s: string, t: string, path: seq<Step>)
    requires Alike(ds, s, t)
    ensures AllFindings(ds, s, s, path) == AllFindings(ds, t, t, path)
  {
    if ds != [] {
      var n := |ds| - 1;
      assert forall i :: 0 <= i < n ==> ds[..n][i] == ds[i];
      SameFindings(ds[..n], s, t, path);
    }
  }

  /** They agree wherever no detector's match is. */
  predicate AgreeOutside(ds: seq<Detector>, s: string, t: string)
    requires |s| == |t|
  {
    forall p :: 0 <= p < |s| && !Claimed(ds, s, p) ==> s[p] == t[p]
  }

  /** What a string is redacted to, whether or not anything in it matched. */
  lemma RedactedText(o: Options, s: string, path: seq<Step>)
    ensures s != "" ==> Redacted(o, Text(s), path) == Text(Masked(s, InPlace(AllFindings(o.detectors, s, s, path))))
    ensures s == "" ==> Redacted(o, Text(s), path) == Text(s)
  {
    MaskOfNothing(s);
  }

  lemma HitsAreSpans(o: Options, s: string, path: seq<Step>)
    requires AllBehave(o) && s != ""
    ensures NoneEmpty(InPlace(AllFindings(o.detectors, s, s, path)))
  {
    FindingsAreSpans(o, |o.detectors|, s, s, path);
    assert o.detectors[..|o.detectors|] == o.detectors;
    ReorderedSpans(s, AllFindings(o.detectors, s, s, path));
  }

  /** Two strings the detectors do not tell apart are redacted alike exactly when they agree
      outside the matches. */
  lemma TextsRedactAlikeExactlyWhen(o: Options, s: string, t: string, path: seq<Step>)
    requires AllBehave(o) && Alike(o.detectors, s, t)
    ensures Redacted(o, Text(s), path) == Redacted(o, Text(t), path) <==> AgreeOutside(o.detectors, s, t)
  {
    RedactedText(o, s, path);
    RedactedText(o, t, path);
    SameFindings(o.detectors, s, t, path);
    if s != "" {
      var found := AllFindings(o.detectors, s, s, path);
      HitsAreSpans(o, s, path);
      forall p: nat ensures Covered(InPlace(found), p) <==> Claimed(o.detectors, s, p) {
        CoveredInPlace(found, p);
        CoveredExactlyWhereClaimed(o.detectors, s, path, p);
      }
      MaskedAlikeExactlyWhen(o.detectors, s, t, InPlace(found));
    }
  }

  lemma MaskedAlikeExactlyWhen(ds: seq<Detector>, s: string, t: string, hits: seq<Finding>)
    requires |s| == |t| && NoneEmpty(hits) && forall p: nat :: Covered(hits, p) <==> Claimed(ds, s, p)
    ensures Masked(s, hits) == Masked(t, hits) <==> AgreeOutside(ds, s, t)
  {
    if AgreeOutside(ds, s, t) {
      MaskHidesTheMatches(s, t, hits);
    }
    if Masked(s, hits) == Masked(t, hits) {
      forall p | 0 <= p < |s| && !Claimed(ds, s, p) ensures s[p] == t[p] {
        MaskKeepsTheRest(s, t, hits, p);
      }
    }
  }

  // --- whole values --------------------------------------------------------------------------

  /** Two values of one shape whose strings no detector tells apart; what secret fields hold
      does not matter. */
  ghost predicate Matching(o: Options, v: Value, w: Value)
    decreases v
  {
    match v
    case Text(s) => w.Text? && Alike(o.detectors, s, w.text)
    case Object(fields) =>
      && w.Object? && |w.fields| == |fields|
      && forall i :: 0 <= i < |fields| ==>
           && fields[i].key == w.fields[i].key
           && ((o.secretKey && o.looksSecret(fields[i].key)) || Matching(o, fields[i].value, w.fields[i].value))
    case Array(items) =>
      w.Array? && |w.items| == |items| && forall i :: 0 <= i < |items| ==> Matching(o, items[i], w.items[i])
    case _ => w == v
  }

  /** And they differ, if at all, inside matches and in what secret fields hold. */
  ghost predicate DifferInside(o: Options, v: Value, w: Value)
    requires Matching(o, v, w)
    decreases v
  {
    match v
    case Text(s) => AgreeOutside(o.detectors, s, w.text)
    case Object(fields) =>
      forall i :: 0 <= i < |fields| ==>
        (o.secretKey && o.looksSecret(fields[i].key)) || DifferInside(o, fields[i].value, w.fields[i].value)
    case Array(items) => forall i :: 0 <= i < |items| ==> DifferInside(o, items[i], w.items[i])
    case _ => true
  }

  lemma FieldsRedactAlike(o: Options, f: Field, g: Field, path: seq<Step>)
    requires f.key == g.key
    ensures RedactedField(o, f, path) == RedactedField(o, g, path) <==>
              (o.secretKey && o.looksSecret(f.key)) || Redacted(o, f.value, path) == Redacted(o, g.value, path)
  {
  }

  /** Two such values are redacted alike exactly when they differ nowhere else: all that a
      match or a secret field holds is gone, and every other character stays. */
  lemma {:induction false} RedactAlikeExactlyWhen(o: Options, v: Value, w: Value, path: seq<Step>)
    requires AllBehave(o) && Matching(o, v, w)
    ensures Redacted(o, v, path) == Redacted(o, w, path) <==> DifferInside(o, v, w)
    decreases v
  {
    match v
    case Text(s) => TextsRedactAlikeExactlyWhen(o, s, w.text, path);
    case Object(fields) =>
      var a, b := Redacted(o, v, path), Redacted(o, w, path);
      forall i | 0 <= i < |fields|
        ensures a.fields[i] == b.fields[i] <==>
                  (o.secretKey && o.looksSecret(fields[i].key)) || DifferInside(o, fields[i].value, w.fields[i].value)
      {
        var child := path + [Key(fields[i].key)];
        FieldsRedactAlike(o, fields[i], w.fields[i], child);
        if !(o.secretKey && o.looksSecret(fields[i].key)) {
          RedactAlikeExactlyWhen(o, fields[i].value, w.fields[i].value, child);
        }
      }
      SameBySeq(a.fields, b.fields);
    case Array(items) =>
      var a, b := Redacted(o, v, path), Redacted(o, w, path);
      forall i | 0 <= i < |items| ensures a.items[i] == b.items[i] <==> DifferInside(o, items[i], w.items[i]) {
        RedactAlikeExactlyWhen(o, items[i], w.items[i], path + [Index(i)]);
      }
      SameBySeq(a.items, b.items);
    case _ =>
  }

  lemma SameBySeq<T>(a: seq<T>, b: seq<T>)
    requires |a| == |b|
    ensures a == b <==> forall i :: 0 <= i < |a| ==> a[i] == b[i]
  {
  }

  /** So within its budget and its time a masking scan hands back the same for two of them
      exactly then. */
  lemma ScansMaskAlikeExactlyWhen(o: Options, v: Value, w: Value, maxBytes: int)
    requires AllBehave(o) && o.mask && Matching(o, v, w)
    requires Size(o, v) <= Budget(maxBytes) && !Walk(o, v, [], Start(maxBytes)).1.timedOut
    requires Size(o, w) <= Budget(maxBytes) && !Walk(o, w, [], Start(maxBytes)).1.timedOut
    ensures Walk(o, v, [], Start(maxBytes)).0 == Walk(o, w, [], Start(maxBytes)).0 <==> DifferInside(o, v, w)
  {
    MaskingIsComplete(o, v, maxBytes);
    MaskingIsComplete(o, w, maxBytes);
    RedactAlikeExactlyWhen(o, v, w, []);
  }

  // --- secrets are reported --------------------------------------------------------------------

  /** Some field that a walk comes to says it holds a secret. */
  ghost predicate HoldsSecret(o: Options, v: Value)
    decreases v
  {
    match v
    case Object(fields) =>
      exists i :: 0 <= i < |fields| &&
        ((o.secretKey && o.looksSecret(fields[i].key)) || HoldsSecret(o, fields[i].value))
    case Array(items) => exists i :: 0 <= i < |items| && HoldsSecret(o, items[i])
    case _ => false
  }

  /** Such a value is never silent. */
  lemma {:induction false} SecretsAreNotSilent(o: Options, v: Value)
    requires HoldsSecret(o, v)
    ensures !Silent(o, v)
    decreases v
  {
    match v
    case Object(fields) =>
      var i :| 0 <= i < |fields| && ((o.secretKey && o.looksSecret(fields[i].key)) || HoldsSecret(o, fields[i].value));
      if !(o.secretKey && o.looksSecret(fields[i].key)) {
        SecretsAreNotSilent(o, fields[i].value);
      }
      assert Secret(o, fields[i].key) || !Silent(o, fields[i].value);
    case Array(items) =>
      var i :| 0 <= i < |items| && HoldsSecret(o, items[i]);
      SecretsAreNotSilent(o, items[i]);
    case _ =>
  }

  /** With time enough its scan is not clean. */
  lemma SecretsAreNeverClean(o: Options, v: Value, maxBytes: int)
    requires HoldsSecret(o, v) && !Walk(o, v, [], Start(maxBytes)).1.timedOut
    ensures !Clean(Walk(o, v, [], Start(maxBytes)).1.res)
  {
    SecretsAreNotSilent(o, v);
    CleanMeansReadWhole(o, v, maxBytes);
  }
}
