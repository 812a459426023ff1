/** Whole histories of the audit stream: whatever lawful operations ran, in
    whatever order, which walks accept what is left. */
module AuditHistory {
  import opened Collections
  import opened Hashing
  import opened AuditChain
  import opened AuditVerify

  /** One committed transaction on the stream. */
  datatype Op =
    | Append(events: seq<Event>)
    | RefusedAppend(used: nat)
    | PutAnchor(signature: Bytes)
    | Cut(before: int)
    | EditRows(edit: Edit)

  function Step(c: Crypto, s: Stream, op: Op): Stream {
    match op
    case Append(events) => Appended(c, s, events)
    case RefusedAppend(used) => Refused(s, used)
    case PutAnchor(signature) => Anchored(s, signature)
    case Cut(before) => CutBefore(s, before)
    case EditRows(edit) => Edited(edit, s)
  }

  function Run(c: Crypto, ops: seq<Op>): Stream {
    if ops == [] then EMPTY else Step(c, Run(c, ops[..|ops| - 1]), ops[|ops| - 1])
  }

  /** Every row ever appended, as it was appended. */
  function Log(c: Crypto, ops: seq<Op>): seq<Row> {
    if ops == [] then []
    else Log(c, ops[..|ops| - 1]) + Written(c, Run(c, ops[..|ops| - 1]), ops[|ops| - 1])
  }

  /** Every event the writers had appended, in order. */
  function Submitted(ops: seq<Op>): seq<Event> {
    if ops == [] then []
    else Submitted(ops[..|ops| - 1]) + if ops[|ops| - 1].Append? then ops[|ops| - 1].events else []
  }

  /** The log is those events, one row each. */
  lemma {:induction false} TheLogIsWhatWasSubmitted(c: Crypto, ops: seq<Op>)
    ensures |Log(c, ops)| == |Submitted(ops)|
    ensures forall i :: 0 <= i < |Submitted(ops)| ==> Carries(Log(c, ops)[i], Submitted(ops)[i])
    decreases |ops|
  {
    if ops != [] {
      var n := |ops| - 1;
      var s := Run(c, ops[..n]);
      TheLogIsWhatWasSubmitted(c, ops[..n]);
      if ops[n].Append? {
        BatchCarriesItsEvents(c, s.nextSeq, HeadHash(s.rows), ops[n].events);
      }
    }
  }

  function Written(c: Crypto, s: Stream, op: Op): seq<Row> {
    if op.Append? then BatchRows(c, s.nextSeq, HeadHash(s.rows), op.events) else []
  }

  /** Every anchor put down was signed over the head it recorded, or not at
      all. */
  ghost predicate Honest(c: Crypto, check: Checker, ops: seq<Op>) {
    forall i :: 0 <= i < |ops| && ops[i].PutAnchor? ==>
      SignatureOk(check, Anchor(HeadHash(Run(c, ops[..i]).rows), Checkpoint, ops[i].signature))
  }

  /** No two rows ever written share a hash, and none has the genesis hash. */
  ghost predicate DistinctHashes(log: seq<Row>) {
    && (forall r :: r in log ==> r.hash != GENESIS)
    && (forall i, j :: 0 <= i < j < |log| ==> log[i].hash != log[j].hash)
  }

  /** Whether a full walk accepts the stream after a history. Only two things
      decide it: where the last cut that removed something fell, and whether an
      append had to restart an emptied stream. */
  function Verdict(c: Crypto, ops: seq<Op>): bool {
    if ops == [] then true
    else
      var s := Run(c, ops[..|ops| - 1]);
      match ops[|ops| - 1]
      case Cut(before) => if CutIndex(s.rows, before) < 0 then Verdict(c, ops[..|ops| - 1]) else CutIsBridged(s, before)
      case Append(events) => if s.rows == [] && events != [] then RestartIsClear(s) else Verdict(c, ops[..|ops| - 1])
      case _ => Verdict(c, ops[..|ops| - 1])
  }

  /** The cut leaves a row and lands where no anchor is; or it leaves no row and
      there is no checkpoint to miss one. */
  predicate CutIsBridged(s: Stream, before: int) {
    var i := CutIndex(s.rows, before);
    if i < 0 then true
    else if i + 1 < |s.rows| then s.rows[i].seqno !in s.anchors
    else forall q | q in s.anchors :: !s.anchors[q].kind.Checkpoint?
  }

  /** The first number after an emptied stream does not follow a cut directly. */
  predicate RestartIsClear(s: Stream) {
    var q := s.nextSeq - 1;
    !(q in s.anchors && s.anchors[q].kind.RetentionCut?)
  }

  // --- what every lawful history keeps ------------------------------------------

  /** The rows are an intact chain. */
  ghost predicate RowsIntact(c: Crypto, rows: seq<Row>, nextSeq: int) {
    && Sorted(rows) && Linked(rows)
    && forall r :: r in rows ==> 0 < r.seqno < nextSeq && RowHashed(c, r)
  }

  /** Every anchor sits where a row was, and vouches for the row if it is still
      there. */
  ghost predicate AnchorsIntact(check: Checker, rows: seq<Row>, anchors: map<int, Anchor>, nextSeq: int) {
    && (forall r :: r in rows ==> Vouched(check, anchors, r))
    && (forall q :: q in anchors ==> 0 < q < nextSeq && AnchorPlaced(rows, anchors, q))
  }

  ghost predicate StreamIntact(c: Crypto, check: Checker, s: Stream) {
    s.nextSeq >= 1 && RowsIntact(c, s.rows, s.nextSeq) && AnchorsIntact(check, s.rows, s.anchors, s.nextSeq)
  }

  /** A retention cut lies below every row; a checkpoint does too, or sits on a
      row. */
  ghost predicate AnchorPlaced(rows: seq<Row>, anchors: map<int, Anchor>, q: int)
    requires q in anchors
  {
    rows != [] && rows[0].seqno <= q ==> anchors[q].kind.Checkpoint? && HasRow(rows, q)
  }

  ghost predicate HasRow(rows: seq<Row>, q: int) {
    exists i :: 0 <= i < |rows| && rows[i].seqno == q
  }

  ghost predicate LogsRow(log: seq<Row>, r: Row) {
    exists l :: l in log && l.seqno == r.seqno && SameHashed(l, r)
  }

  ghost predicate LogsHash(log: seq<Row>, q: int, hash: Digest) {
    exists l :: l in log && l.seqno == q && l.hash == hash
  }

  /** Rows and anchors carry hashes of the rows logged under their numbers. */
  ghost predicate Recorded(s: Stream, log: seq<Row>) {
    && Sorted(log)
    && (forall l :: l in log ==> l.seqno < s.nextSeq)
    && (forall r :: r in s.rows ==> LogsRow(log, r))
    && (forall q :: q in s.anchors ==> LogsHash(log, q, s.anchors[q].hash))
  }

  lemma {:induction false} BatchIsLinked(c: Crypto, seqno: int, prev: Digest, events: seq<Event>)
    ensures var b := BatchRows(c, seqno, prev, events);
            && Linked(b) && (b != [] ==> b[0].prevHash == prev)
            && (forall i :: 0 <= i < |b| ==> b[i].seqno == seqno + i)
            && (forall r :: r in b ==> RowHashed(c, r))
    decreases |events|
  {
    if events != [] {
      var r := NewRow(c, seqno, prev, events[0]);
      BatchIsLinked(c, seqno + 1, r.hash, events[1..]);
      var rest := BatchRows(c, seqno + 1, r.hash, events[1..]);
      var b := BatchRows(c, seqno, prev, events);
      assert b == [r] + rest;
      forall i | 0 < i < |b| ensures b[i].prevHash == b[i - 1].hash {
        if i > 1 {
          assert rest[i - 1].prevHash == rest[i - 2].hash;
        }
      }
    }
  }

  lemma LinkedConcat(a: seq<Row>, b: seq<Row>)
    requires Linked(a) && Linked(b) && (a != [] && b != [] ==> b[0].prevHash == a[|a| - 1].hash)
    ensures Linked(a + b)
  {
  }

  lemma AppendKeepsIntact(c: Crypto, check: Checker, s: Stream, events: seq<Event>)
    requires StreamIntact(c, check, s)
    ensures StreamIntact(c, check, Appended(c, s, events))
  {
    var b := BatchRows(c, s.nextSeq, HeadHash(s.rows), events);
    BatchIsLinked(c, s.nextSeq, HeadHash(s.rows), events);
    LinkedConcat(s.rows, b);
    NewRowsAreUnanchored(check, s.rows, s.anchors, s.nextSeq, b);
  }

  lemma NewRowsAreUnanchored(check: Checker, rows: seq<Row>, anchors: map<int, Anchor>, nextSeq: int, b: seq<Row>)
    requires AnchorsIntact(check, rows, anchors, nextSeq)
    requires forall i :: 0 <= i < |b| ==> b[i].seqno == nextSeq + i
    ensures AnchorsIntact(check, rows + b, anchors, nextSeq + |b|)
  {
    forall r | r in rows + b ensures Vouched(check, anchors, r) {
      if r !in rows {
        assert r in b && r.seqno >= nextSeq && r.seqno !in anchors;
      }
    }
    forall q | q in anchors ensures AnchorPlaced(rows + b, anchors, q) {
      assert AnchorPlaced(rows, anchors, q);
      if rows != [] && rows[0].seqno <= q {
        var i :| 0 <= i < |rows| && rows[i].seqno == q;
        assert (rows + b)[i].seqno == q;
      }
    }
  }

  lemma AppendKeepsRecorded(c: Crypto, s: Stream, log: seq<Row>, events: seq<Event>)
    requires Recorded(s, log)
    ensures Recorded(Appended(c, s, events), log + BatchRows(c, s.nextSeq, HeadHash(s.rows), events))
  {
    var b := BatchRows(c, s.nextSeq, HeadHash(s.rows), events);
    BatchIsLinked(c, s.nextSeq, HeadHash(s.rows), events);
    assert forall l :: l in log ==> l in log + b;
    forall r | r in s.rows + b ensures LogsRow(log + b, r) {
      if r in s.rows {
        assert LogsRow(log, r);
      } else {
        assert r in log + b && SameHashed(r, r);
      }
    }
    forall q | q in s.anchors ensures LogsHash(log + b, q, s.anchors[q].hash) {
      assert LogsHash(log, q, s.anchors[q].hash);
    }
  }

  lemma AnchorKeepsIntact(c: Crypto, check: Checker, s: Stream, signature: Bytes)
    requires StreamIntact(c, check, s)
    requires SignatureOk(check, Anchor(HeadHash(s.rows), Checkpoint, signature))
    ensures StreamIntact(c, check, Anchored(s, signature))
  {
    var t := Anchored(s, signature);
    if t != s {
      AnchoredHead(check, s.rows, s.anchors, t.anchors, s.nextSeq, Anchor(HeadHash(s.rows), Checkpoint, signature));
    }
  }

  /** An anchor over the newest row. */
  lemma AnchoredHead(check: Checker, rows: seq<Row>, before: map<int, Anchor>, after: map<int, Anchor>, nextSeq: int,
                     a: Anchor)
    requires rows != [] && Sorted(rows) && AnchorsIntact(check, rows, before, nextSeq) && SignatureOk(check, a)
    requires 0 < rows[|rows| - 1].seqno < nextSeq && a.kind.Checkpoint? && a.hash == HeadHash(rows)
    requires after == before[rows[|rows| - 1].seqno := a]
    ensures AnchorsIntact(check, rows, after, nextSeq)
  {
    var head := rows[|rows| - 1];
    forall r | r in rows ensures Vouched(check, after, r) {
      assert Vouched(check, before, r);
      var i :| 0 <= i < |rows| && rows[i] == r;
      assert r.seqno == head.seqno ==> r == head;
    }
    forall q | q in after ensures AnchorPlaced(rows, after, q) {
      if q == head.seqno {
        assert rows[|rows| - 1].seqno == q;
      } else {
        assert AnchorPlaced(rows, before, q);
      }
    }
  }

  lemma AnchorKeepsRecorded(s: Stream, log: seq<Row>, signature: Bytes)
    requires Recorded(s, log)
    ensures Recorded(Anchored(s, signature), log)
  {
    var t := Anchored(s, signature);
    if t != s {
      var head := s.rows[|s.rows| - 1];
      assert head in s.rows && LogsRow(log, head);
      forall q | q in t.anchors ensures LogsHash(log, q, t.anchors[q].hash) {
        if q != head.seqno {
          assert LogsHash(log, q, s.anchors[q].hash);
        }
      }
    }
  }

  lemma SuffixIsIntact(c: Crypto, rows: seq<Row>, nextSeq: int, n: nat)
    requires n <= |rows| && RowsIntact(c, rows, nextSeq)
    ensures RowsIntact(c, rows[n..], nextSeq)
  {
    var rest := rows[n..];
    forall j | 0 < j < |rest| ensures rest[j].prevHash == rest[j - 1].hash {
      assert rows[n + j].prevHash == rows[n + j - 1].hash;
    }
  }

  lemma CutKeepsIntact(c: Crypto, check: Checker, s: Stream, before: int)
    requires StreamIntact(c, check, s)
    ensures StreamIntact(c, check, CutBefore(s, before))
  {
    var i := CutIndex(s.rows, before);
    if i >= 0 {
      SuffixIsIntact(c, s.rows, s.nextSeq, i + 1);
      RowIsNumbered(c, s.rows, s.nextSeq, i);
      CutAnchorsAreIntact(check, s.rows, s.anchors, s.nextSeq, i);
    }
  }

  lemma RowIsNumbered(c: Crypto, rows: seq<Row>, nextSeq: int, i: nat)
    requires RowsIntact(c, rows, nextSeq) && i < |rows|
    ensures Sorted(rows) && 0 < rows[i].seqno < nextSeq
  {
    assert rows[i] in rows;
  }

  lemma CutAnchorsAreIntact(check: Checker, rows: seq<Row>, anchors: map<int, Anchor>, nextSeq: int, i: nat)
    requires i < |rows| && Sorted(rows) && 0 < rows[i].seqno < nextSeq
    requires AnchorsIntact(check, rows, anchors, nextSeq)
    ensures AnchorsIntact(check, rows[i + 1..], CutAnchors(anchors, rows[i].seqno, rows[i].hash), nextSeq)
  {
    var rest, cut := rows[i + 1..], rows[i];
    var anchors' := CutAnchors(anchors, cut.seqno, cut.hash);
    forall r | r in rest ensures Vouched(check, anchors', r) {
      var j :| 0 <= j < |rest| && rest[j] == r;
      assert r == rows[i + 1 + j] && r.seqno > cut.seqno;
      assert Vouched(check, anchors, r);
    }
    forall q | q in anchors' ensures AnchorPlaced(rest, anchors', q) {
      if rest != [] {
        assert rest[0] == rows[i + 1] && cut.seqno < rest[0].seqno && rows[0].seqno <= rest[0].seqno;
        if rest[0].seqno <= q {
          assert AnchorPlaced(rows, anchors, q);
          var k :| 0 <= k < |rows| && rows[k].seqno == q;
          assert k > i && rest[k - i - 1].seqno == q;
        }
      }
    }
  }

  lemma CutKeepsRecorded(s: Stream, log: seq<Row>, before: int)
    requires Recorded(s, log)
    ensures Recorded(CutBefore(s, before), log)
  {
    var t := CutBefore(s, before);
    var i := CutIndex(s.rows, before);
    if i >= 0 {
      var cut := s.rows[i];
      assert cut in s.rows && LogsRow(log, cut);
      assert forall r :: r in t.rows ==> r in s.rows;
      forall q | q in t.anchors ensures LogsHash(log, q, t.anchors[q].hash) {
        if q != cut.seqno {
          assert LogsHash(log, q, s.anchors[q].hash);
        }
      }
    }
  }

  lemma EditKeepsIntact(c: Crypto, check: Checker, s: Stream, e: Edit)
    requires StreamIntact(c, check, s)
    ensures StreamIntact(c, check, Edited(e, s))
  {
    var t := Edited(e, s);
    forall r | r in t.rows ensures 0 < r.seqno < t.nextSeq && RowHashed(c, r) && Vouched(check, t.anchors, r) {
      var i :| 0 <= i < |t.rows| && t.rows[i] == r;
      var o := s.rows[i];
      assert o in s.rows && r == EditRow(e, o) && RowHashed(c, o) && Vouched(check, s.anchors, o);
    }
    forall q | q in t.anchors ensures AnchorPlaced(t.rows, t.anchors, q) {
      assert AnchorPlaced(s.rows, s.anchors, q);
      if t.rows != [] && t.rows[0].seqno <= q {
        var i :| 0 <= i < |s.rows| && s.rows[i].seqno == q;
        assert t.rows[i].seqno == q;
      }
    }
  }

  lemma EditKeepsRecorded(s: Stream, log: seq<Row>, e: Edit)
    requires Recorded(s, log)
    ensures Recorded(Edited(e, s), log)
  {
    var t := Edited(e, s);
    forall r | r in t.rows ensures LogsRow(log, r) {
      var i :| 0 <= i < |t.rows| && t.rows[i] == r;
      var o := s.rows[i];
      assert o in s.rows && r == EditRow(e, o) && LogsRow(log, o);
      var l :| l in log && l.seqno == o.seqno && SameHashed(l, o);
      assert SameHashed(l, r);
    }
  }

  /** Every history leaves an intact chain whose hashes were all logged. */
  lemma {:induction false} EveryHistoryIsIntact(c: Crypto, check: Checker, ops: seq<Op>)
    requires Honest(c, check, ops)
    ensures StreamIntact(c, check, Run(c, ops)) && Recorded(Run(c, ops), Log(c, ops))
    decreases |ops|
  {
    if ops != [] {
      var n := |ops| - 1;
      var before, log := Run(c, ops[..n]), Log(c, ops[..n]);
      assert Honest(c, check, ops[..n]) by {
        forall i | 0 <= i < n ensures ops[..n][..i] == ops[..i] {}
      }
      EveryHistoryIsIntact(c, check, ops[..n]);
      StepKeeps(c, check, before, log, ops[n]);
    }
  }

  lemma StepKeeps(c: Crypto, check: Checker, s: Stream, log: seq<Row>, op: Op)
    requires StreamIntact(c, check, s) && Recorded(s, log)
    requires op.PutAnchor? ==> SignatureOk(check, Anchor(HeadHash(s.rows), Checkpoint, op.signature))
    ensures StreamIntact(c, check, Step(c, s, op)) && Recorded(Step(c, s, op), log + Written(c, s, op))
  {
    assert log + [] == log;
    match op
    case Append(events) =>
      AppendKeepsIntact(c, check, s, events);
      AppendKeepsRecorded(c, s, log, events);
    case RefusedAppend(used) =>
      RefusalKeeps(c, check, s, log, used);
    case PutAnchor(signature) =>
      AnchorKeepsIntact(c, check, s, signature);
      AnchorKeepsRecorded(s, log, signature);
    case Cut(b) =>
      CutKeepsIntact(c, check, s, b);
      CutKeepsRecorded(s, log, b);
    case EditRows(e) =>
      EditKeepsIntact(c, check, s, e);
      EditKeepsRecorded(s, log, e);
  }

  lemma RefusalKeeps(c: Crypto, check: Checker, s: Stream, log: seq<Row>, used: nat)
    requires StreamIntact(c, check, s) && Recorded(s, log)
    ensures StreamIntact(c, check, Refused(s, used)) && Recorded(Refused(s, used), log)
  {
  }
}
