/** Which walks accept a stream that only lawful operations have touched. */
module AuditCompleteness {
  import opened Collections
  import opened Hashing
  import opened AuditChain
  import opened AuditVerify
  import opened AuditHistory

  // --- a walk reads a stretch of the rows -----------------------------------------

  lemma {:induction false} WindowIsAStretch(rows: seq<Row>, from: int, to: int) returns (a: nat, b: nat)
    requires Sorted(rows)
    ensures a <= b <= |rows| && Window(rows, from, to) == rows[a..b]
    ensures forall i :: 0 <= i < |rows| ==> (InRange(rows[i].seqno, from, to) <==> a <= i < b)
    decreases |rows|
  {
    if rows == [] {
      a, b := 0, 0;
    } else {
      var n := |rows| - 1;
      var shorter, last := rows[..n], rows[n];
      a, b := WindowIsAStretch(shorter, from, to);
      assert forall i :: 0 <= i < n ==> shorter[i] == rows[i];
      if InRange(last.seqno, from, to) {
        StretchReachesTheEnd(rows, from, to, a, b);
        if a == b {
          a, b := n, n;
        }
        assert shorter[a..n] + [last] == rows[a..n + 1];
        b := n + 1;
      } else {
        assert shorter[a..b] == rows[a..b];
      }
    }
  }

  /** What lies between two rows in range is in range. */
  lemma StretchReachesTheEnd(rows: seq<Row>, from: int, to: int, a: nat, b: nat)
    requires Sorted(rows) && a <= b < |rows| && InRange(rows[|rows| - 1].seqno, from, to)
    requires forall i :: 0 <= i < |rows| - 1 ==> (InRange(rows[i].seqno, from, to) <==> a <= i < b)
    ensures a == b || b == |rows| - 1
  {
    if a < b {
      assert rows[a].seqno < rows[b].seqno;
      assert InRange(rows[b].seqno, from, to);
    }
  }

  lemma WholeWindow(rows: seq<Row>)
    requires Sorted(rows)
    ensures Window(rows, 0, 0) == rows
  {
    var a, b := WindowIsAStretch(rows, 0, 0);
    assert forall i :: 0 <= i < |rows| ==> InRange(rows[i].seqno, 0, 0);
    assert rows != [] ==> a <= 0 < b && a <= |rows| - 1 < b;
    assert rows[a..b] == rows;
  }

  // --- sub-ranges --------------------------------------------------------------------

  /** What the full walk has to account for: the row the stream begins with and
      the newest checkpoint. */
  ghost predicate EndsOk(s: Stream) {
    (s.rows != [] ==> FrontOk(s, 0, s.rows[0])) && HeadOk(s.anchors, 0, 0, LastSeq(s.rows))
  }

  lemma FullWalk(c: Crypto, check: Checker, s: Stream)
    requires StreamIntact(c, check, s)
    ensures Accepts(c, check, s, 0, 0) <==> EndsOk(s)
  {
    WholeWindow(s.rows);
  }

  /** An intact stream a full walk accepts is accepted wherever a walk begins
      and ends, as long as it reads a row. */
  lemma EverySubRangeIsAccepted(c: Crypto, check: Checker, s: Stream, from: int, to: int)
    requires StreamIntact(c, check, s) && EndsOk(s)
    requires Window(s.rows, from, to) != []
    ensures Accepts(c, check, s, from, to)
  {
    var a, b := WindowIsAStretch(s.rows, from, to);
    StretchIsOk(c, check, s, a, b);
    var walk := Window(s.rows, from, to);
    assert walk[0] == s.rows[a] && walk[|walk| - 1] == s.rows[b - 1];
    assert FrontOk(s, from, s.rows[a]) by {
      FrontOfAStretch(s, from, to, a, check);
    }
    assert HeadOk(s.anchors, from, to, LastSeq(walk)) by {
      assert forall i :: 0 <= i < |s.rows| ==> s.rows[i] in s.rows;
      HeadOfAStretch(check, s, from, to, a, b);
    }
  }

  lemma StretchIsOk(c: Crypto, check: Checker, s: Stream, a: nat, b: nat)
    requires StreamIntact(c, check, s) && a <= b <= |s.rows|
    ensures Linked(s.rows[a..b]) && forall r :: r in s.rows[a..b] ==> RowOk(c, check, s.anchors, r)
  {
    var walk := s.rows[a..b];
    forall i | 0 < i < |walk| ensures walk[i].prevHash == walk[i - 1].hash {
      assert s.rows[a + i].prevHash == s.rows[a + i - 1].hash;
    }
    assert forall r :: r in walk ==> r in s.rows;
  }

  lemma FrontOfAStretch(s: Stream, from: int, to: int, a: nat, check: Checker)
    requires a < |s.rows| && Sorted(s.rows) && AnchorsIntact(check, s.rows, s.anchors, s.nextSeq)
    requires FrontOk(s, 0, s.rows[0])
    requires InRange(s.rows[a].seqno, from, to)
    requires forall i :: 0 <= i < a ==> !InRange(s.rows[i].seqno, from, to)
    ensures FrontOk(s, from, s.rows[a])
  {
    if a > 0 {
      assert !InRange(s.rows[0].seqno, from, to) && s.rows[0].seqno < s.rows[a].seqno;
      assert s.rows[0] in s.rows;
      // A cut that bridged to this row would have the first row in between.
      forall q ensures !Bridges(s, s.rows[a].seqno, q) {
        if q in s.anchors && s.anchors[q].kind.RetentionCut? {
          assert AnchorPlaced(s.rows, s.anchors, q);
        }
      }
    }
  }

  lemma HeadOfAStretch(check: Checker, s: Stream, from: int, to: int, a: nat, b: nat)
    requires Sorted(s.rows) && AnchorsIntact(check, s.rows, s.anchors, s.nextSeq)
    requires 0 <= a < b <= |s.rows| && (forall i :: 0 <= i < |s.rows| ==> s.rows[i].seqno > 0)
    requires forall i :: 0 <= i < |s.rows| ==> (InRange(s.rows[i].seqno, from, to) <==> a <= i < b)
    ensures HeadOk(s.anchors, from, to, s.rows[b - 1].seqno)
  {
    forall q | CheckpointAt(s.anchors, q) && InRange(q, from, to) ensures q <= s.rows[b - 1].seqno {
      assert AnchorPlaced(s.rows, s.anchors, q);
      if s.rows[0].seqno <= q {
        var i :| 0 <= i < |s.rows| && s.rows[i].seqno == q;
        assert i <= b - 1;
      }
    }
  }

  // --- the full walk, operation by operation ------------------------------------------

  /** With a row present the head never fails: every anchor is on a row or below
      the first. */
  lemma HeadHoldsWithARow(c: Crypto, check: Checker, s: Stream)
    requires StreamIntact(c, check, s) && s.rows != []
    ensures HeadOk(s.anchors, 0, 0, LastSeq(s.rows))
  {
    assert forall i :: 0 <= i < |s.rows| ==> s.rows[i] in s.rows;
    HeadOfAStretch(check, s, 0, 0, 0, |s.rows|);
  }

  /** The front depends on the first row's number and predecessor, the retention
      cuts below it, and nothing else. */
  lemma SameFront(c: Crypto, check: Checker, s: Stream, t: Stream)
    requires s.rows != [] && t.rows != [] && Sorted(s.rows) && Sorted(t.rows)
    requires t.rows[0].seqno == s.rows[0].seqno && t.rows[0].prevHash == s.rows[0].prevHash
    requires forall q :: (q in s.anchors && s.anchors[q].kind.RetentionCut?) <==>
               (q in t.anchors && t.anchors[q].kind.RetentionCut?)
    requires forall q :: q in s.anchors && s.anchors[q].kind.RetentionCut? ==> t.anchors[q].hash == s.anchors[q].hash
    ensures FrontOk(s, 0, s.rows[0]) <==> FrontOk(t, 0, t.rows[0])
  {
    var first := s.rows[0].seqno;
    assert forall r :: r in s.rows ==> first <= r.seqno;
    assert forall r :: r in t.rows ==> first <= r.seqno;
    forall q ensures Bridges(s, first, q) <==> Bridges(t, first, q) {
      assert NewestCutBelow(s.anchors, first, q) <==> NewestCutBelow(t.anchors, first, q);
    }
  }

  /** Appending to a stream with rows, anchoring, editing and being refused
      change no verdict. */
  lemma QuietSteps(c: Crypto, check: Checker, s: Stream, op: Op)
    requires StreamIntact(c, check, s) && StreamIntact(c, check, Step(c, s, op))
    requires !op.Cut? && (op.Append? ==> s.rows != [] || op.events == [])
    ensures EndsOk(Step(c, s, op)) <==> EndsOk(s)
  {
    var t := Step(c, s, op);
    if s.rows != [] {
      SameFront(c, check, s, t);
      HeadHoldsWithARow(c, check, s);
      HeadHoldsWithARow(c, check, t);
    } else {
      assert t.rows == [] && t.anchors == s.anchors;
    }
  }

  lemma RestartStep(c: Crypto, check: Checker, s: Stream, log: seq<Row>, events: seq<Event>)
    requires StreamIntact(c, check, s) && Recorded(s, log) && DistinctHashes(log)
    requires StreamIntact(c, check, Appended(c, s, events))
    requires s.rows == [] && events != []
    ensures EndsOk(Appended(c, s, events)) <==> RestartIsClear(s)
  {
    var t := Appended(c, s, events);
    BatchIsLinked(c, s.nextSeq, GENESIS, events);
    assert t.rows == BatchRows(c, s.nextSeq, GENESIS, events);
    var r, q := t.rows[0], s.nextSeq - 1;
    HeadHoldsWithARow(c, check, t);
    if !RestartIsClear(s) {
      assert LogsHash(log, q, s.anchors[q].hash);
      assert s.anchors[q].hash != GENESIS;
      assert NewestCutBelow(t.anchors, r.seqno, q);
      assert Bridges(t, r.seqno, q) && q != 0;
    }
  }

  /** After a cut that leaves rows, the new front is bridged exactly when the cut
      put down an anchor of its own. */
  lemma CutStep(c: Crypto, check: Checker, s: Stream, log: seq<Row>, before: int)
    requires StreamIntact(c, check, s) && Recorded(s, log) && DistinctHashes(log)
    requires StreamIntact(c, check, CutBefore(s, before))
    requires CutIndex(s.rows, before) >= 0
    ensures EndsOk(CutBefore(s, before)) <==> CutIsBridged(s, before)
  {
    var i := CutIndex(s.rows, before);
    var t := CutBefore(s, before);
    var cut := s.rows[i];
    assert cut in s.rows && LogsRow(log, cut);
    if t.rows == [] {
      EmptiedByACut(s, cut, t);
    } else {
      HeadHoldsWithARow(c, check, t);
      AfterTheCutRow(c, s, i);
      if cut.seqno in s.anchors {
        UnbridgedCut(s, log, cut, t);
      } else {
        assert t.anchors[cut.seqno].hash == cut.hash;
        BridgedCut(check, s, cut, t);
      }
    }
  }

  lemma AfterTheCutRow(c: Crypto, s: Stream, i: nat)
    requires RowsIntact(c, s.rows, s.nextSeq) && i + 1 < |s.rows|
    ensures s.rows[i + 1].prevHash == s.rows[i].hash && 0 < s.rows[i].seqno < s.rows[i + 1].seqno
  {
    assert s.rows[i] in s.rows;
  }

  lemma EmptiedByACut(s: Stream, cut: Row, t: Stream)
    requires t.rows == [] && cut.seqno > 0 && t.anchors == CutAnchors(s.anchors, cut.seqno, cut.hash)
    requires forall q :: q in s.anchors ==> q > 0
    ensures EndsOk(t) <==> forall q :: q in s.anchors ==> !s.anchors[q].kind.Checkpoint?
  {
    forall q ensures CheckpointAt(t.anchors, q) <==> CheckpointAt(s.anchors, q) {}
    if EndsOk(t) {
      forall q | q in s.anchors ensures !s.anchors[q].kind.Checkpoint? {
        assert InRange(q, 0, 0) && (CheckpointAt(t.anchors, q) <==> CheckpointAt(s.anchors, q));
      }
    } else {
      var q :| CheckpointAt(t.anchors, q);
      assert CheckpointAt(s.anchors, q);
    }
  }

  lemma BridgedCut(check: Checker, s: Stream, cut: Row, t: Stream)
    requires t.rows != [] && Sorted(t.rows) && t.rows[0].prevHash == cut.hash && 0 < cut.seqno < t.rows[0].seqno
    requires t.anchors == s.anchors[cut.seqno := Anchor(cut.hash, RetentionCut, [])]
    requires cut in s.rows && AnchorsIntact(check, s.rows, s.anchors, s.nextSeq) && Sorted(s.rows)
    ensures FrontOk(t, 0, t.rows[0])
  {
    var first := t.rows[0].seqno;
    forall p | p in t.anchors && t.anchors[p].kind.RetentionCut? && p < first ensures p <= cut.seqno {
      if p != cut.seqno {
        assert AnchorPlaced(s.rows, s.anchors, p);
        assert s.rows[0].seqno <= cut.seqno;
      }
    }
    assert NewestCutBelow(t.anchors, first, cut.seqno);
    assert forall r :: r in t.rows ==> first <= r.seqno;
    assert Bridges(t, first, cut.seqno);
    assert forall q :: Bridges(t, first, q) ==> NewestCutBelow(t.anchors, first, q);
  }

  lemma UnbridgedCut(s: Stream, log: seq<Row>, cut: Row, t: Stream)
    requires t.rows != [] && t.rows[0].prevHash == cut.hash
    requires Recorded(s, log) && DistinctHashes(log) && Recorded(t, log) && LogsRow(log, cut)
    requires cut.seqno in t.anchors && t.anchors[cut.seqno].kind.Checkpoint?
    ensures !FrontOk(t, 0, t.rows[0])
  {
    var l :| l in log && l.seqno == cut.seqno && SameHashed(l, cut);
    var i :| 0 <= i < |log| && log[i] == l;
    forall q | q in t.anchors && t.anchors[q].hash == cut.hash ensures q == cut.seqno {
      assert LogsHash(log, q, t.anchors[q].hash);
      var m :| m in log && m.seqno == q && m.hash == cut.hash;
      var j :| 0 <= j < |log| && log[j] == m;
    }
  }

  // --- main results --------------------------------------------------------------------

  /** After any lawful history, a full walk accepts the stream exactly when the
      history's own cuts and restarts say so. */
  lemma {:induction false} FullWalkVerdict(c: Crypto, check: Checker, ops: seq<Op>)
    requires Honest(c, check, ops) && DistinctHashes(Log(c, ops))
    ensures Accepts(c, check, Run(c, ops), 0, 0) <==> Verdict(c, ops)
    decreases |ops|
  {
    EveryHistoryIsIntact(c, check, ops);
    FullWalk(c, check, Run(c, ops));
    if ops != [] {
      var n := |ops| - 1;
      var s, log := Run(c, ops[..n]), Log(c, ops[..n]);
      assert Honest(c, check, ops[..n]) by {
        forall i | 0 <= i < n ensures ops[..n][..i] == ops[..i] {}
      }
      assert DistinctHashes(log) by {
        var written := Written(c, s, ops[n]);
        assert Log(c, ops) == log + written;
        forall i, j | 0 <= i < j < |log| ensures log[i].hash != log[j].hash {
          assert (log + written)[i] == log[i] && (log + written)[j] == log[j];
        }
      }
      FullWalkVerdict(c, check, ops[..n]);
      EveryHistoryIsIntact(c, check, ops[..n]);
      FullWalk(c, check, s);
      LastStep(c, check, s, log, ops[n]);
    }
  }

  lemma LastStep(c: Crypto, check: Checker, s: Stream, log: seq<Row>, op: Op)
    requires StreamIntact(c, check, s) && Recorded(s, log) && DistinctHashes(log)
    requires StreamIntact(c, check, Step(c, s, op))
    ensures var kept := EndsOk(Step(c, s, op)) <==> EndsOk(s);
            match op
            case Cut(before) =>
              if CutIndex(s.rows, before) < 0 then kept else (EndsOk(Step(c, s, op)) <==> CutIsBridged(s, before))
            case Append(events) =>
              if s.rows == [] && events != [] then (EndsOk(Step(c, s, op)) <==> RestartIsClear(s)) else kept
            case _ => kept
  {
    match op
    case Cut(before) =>
      if CutIndex(s.rows, before) >= 0 {
        CutStep(c, check, s, log, before);
      }
    case Append(events) =>
      if s.rows == [] && events != [] {
        RestartStep(c, check, s, log, events);
      } else {
        QuietSteps(c, check, s, op);
      }
    case _ => QuietSteps(c, check, s, op);
  }

  /** Completeness: whatever interleaving of appends, refusals, anchors, scrubs,
      holds, erasures and cuts ran, as long as every cut that removed something
      was bridged and no restart followed a cut directly, the full walk and every
      sub-range with a row in it are reported valid. */
  lemma LawfulHistoriesVerify(c: Crypto, check: Checker, ops: seq<Op>)
    requires Honest(c, check, ops) && DistinctHashes(Log(c, ops)) && Verdict(c, ops)
    ensures Accepts(c, check, Run(c, ops), 0, 0)
    ensures forall from, to :: Window(Run(c, ops).rows, from, to) != [] ==> Accepts(c, check, Run(c, ops), from, to)
  {
    EveryHistoryIsIntact(c, check, ops);
    FullWalkVerdict(c, check, ops);
    FullWalk(c, check, Run(c, ops));
    forall from, to | Window(Run(c, ops).rows, from, to) != [] ensures Accepts(c, check, Run(c, ops), from, to) {
      EverySubRangeIsAccepted(c, check, Run(c, ops), from, to);
    }
  }
}
