/** Rows deleted from the audit stream, and which deletions a walk reports. */
module AuditDeletion {
  import opened Hashing
  import opened AuditChain
  import opened AuditVerify
  import opened AuditHistory
  import opened AuditCompleteness

  // --- rows that are gone from the end ----------------------------------------------------

  /** A checkpoint in range with no row of the range at or above it is reported. */
  lemma AMissingHeadIsReported(c: Crypto, check: Checker, s: Stream, from: int, to: int, q: int)
    requires q > 0 && q in s.anchors && s.anchors[q].kind.Checkpoint?
    requires (from == 0 || from <= q) && (to == 0 || q <= to)
    requires forall r :: r in s.rows && (from == 0 || from <= r.seqno) && (to == 0 || r.seqno <= to) ==> r.seqno < q
    ensures !Accepts(c, check, s, from, to)
  {
    WindowIsInRange(s.rows, from, to);
    var walk := Window(s.rows, from, to);
    assert walk != [] ==> walk[|walk| - 1] in walk;
    assert InRange(q, from, to) && CheckpointAt(s.anchors, q);
  }

  lemma {:induction false} WindowIsInRange(rows: seq<Row>, from: int, to: int)
    ensures forall r :: r in Window(rows, from, to) ==>
              r in rows && (from == 0 || from <= r.seqno) && (to == 0 || r.seqno <= to)
  {
    if rows != [] {
      WindowIsInRange(rows[..|rows| - 1], from, to);
    }
  }

  /** A lawful stream the full walk accepts, with everything from row n on deleted. */
  function Beheaded(s: Stream, n: nat): Stream
    requires n <= |s.rows|
  {
    s.(rows := s.rows[..n])
  }

  /** Deleting rows from the end goes unreported exactly when no checkpoint is above what is
      left. */
  lemma DeletedHeadIsReportedExactlyWhen(c: Crypto, check: Checker, ops: seq<Op>, n: nat)
    requires Honest(c, check, ops) && Accepts(c, check, Run(c, ops), 0, 0) && n <= |Run(c, ops).rows|
    ensures var s := Run(c, ops);
            Accepts(c, check, Beheaded(s, n), 0, 0) <==>
              forall q :: q in s.anchors && s.anchors[q].kind.Checkpoint? ==> n > 0 && q <= s.rows[n - 1].seqno
  {
    var s := Run(c, ops);
    EveryHistoryIsIntact(c, check, ops);
    FullWalk(c, check, s);
    BeheadedWalk(c, check, s, n);
    NothingAboveIt(c, check, s, n);
  }

  lemma BeheadedWalk(c: Crypto, check: Checker, s: Stream, n: nat)
    requires StreamIntact(c, check, s) && EndsOk(s) && n <= |s.rows|
    ensures Accepts(c, check, Beheaded(s, n), 0, 0) <==> HeadOk(s.anchors, 0, 0, LastSeq(s.rows[..n]))
  {
    WholeWindow(s.rows[..n]);
    FrontIsLeft(c, check, s, n);
    PrefixIsOk(c, check, s, n);
  }

  lemma NothingAboveIt(c: Crypto, check: Checker, s: Stream, n: nat)
    requires StreamIntact(c, check, s) && n <= |s.rows|
    ensures HeadOk(s.anchors, 0, 0, LastSeq(s.rows[..n])) <==>
              forall q :: q in s.anchors && s.anchors[q].kind.Checkpoint? ==> n > 0 && q <= s.rows[n - 1].seqno
  {
    AnchorsArePositive(check, s);
    assert n > 0 ==> s.rows[n - 1] in s.rows;
    forall q ensures CheckpointAt(s.anchors, q) && InRange(q, 0, 0)
                <==> q in s.anchors && s.anchors[q].kind.Checkpoint? {}
  }

  lemma AnchorsArePositive(check: Checker, s: Stream)
    requires AnchorsIntact(check, s.rows, s.anchors, s.nextSeq)
    ensures forall q :: q in s.anchors ==> q > 0
  {
  }

  lemma PrefixIsOk(c: Crypto, check: Checker, s: Stream, n: nat)
    requires StreamIntact(c, check, s) && n <= |s.rows|
    ensures Linked(s.rows[..n]) && forall r :: r in s.rows[..n] ==> RowOk(c, check, s.anchors, r)
  {
    StretchIsOk(c, check, s, 0, n);
  }

  lemma FrontIsLeft(c: Crypto, check: Checker, s: Stream, n: nat)
    requires StreamIntact(c, check, s) && n <= |s.rows| && (s.rows != [] ==> FrontOk(s, 0, s.rows[0]))
    ensures n > 0 ==> FrontOk(Beheaded(s, n), 0, s.rows[0])
  {
    if n > 0 {
      SameFront(c, check, s, Beheaded(s, n));
    }
  }

  /** In particular once a row under a checkpoint is gone. */
  lemma ADeletedCheckpointIsReported(c: Crypto, check: Checker, ops: seq<Op>, n: nat, i: nat)
    requires Honest(c, check, ops) && n <= i < |Run(c, ops).rows|
    requires var s := Run(c, ops); s.rows[i].seqno in s.anchors && s.anchors[s.rows[i].seqno].kind.Checkpoint?
    ensures !Accepts(c, check, Beheaded(Run(c, ops), n), 0, 0)
  {
    var s := Run(c, ops);
    EveryHistoryIsIntact(c, check, ops);
    assert s.rows[i] in s.rows;
    forall r | r in s.rows[..n] ensures r.seqno < s.rows[i].seqno {
      var j :| 0 <= j < n && s.rows[..n][j] == r;
      assert s.rows[j] == r;
    }
    AMissingHeadIsReported(c, check, Beheaded(s, n), 0, 0, s.rows[i].seqno);
  }

  // --- rows that are gone from anywhere -----------------------------------------------------

  /** The rows that are left. */
  function Left(rows: seq<Row>, gone: set<int>): (left: seq<Row>)
    ensures forall r :: r in left <==> r in rows && r.seqno !in gone
    ensures |left| <= |rows|
  {
    if rows == [] then []
    else
      var n := |rows| - 1;
      Left(rows[..n], gone) + if rows[n].seqno in gone then [] else [rows[n]]
  }

  function Without(s: Stream, gone: set<int>): Stream {
    s.(rows := Left(s.rows, gone))
  }

  /** Nothing is left above a row that is gone. */
  ghost predicate OnlyTheEnd(rows: seq<Row>, gone: set<int>) {
    forall i, j :: 0 <= i < j < |rows| && rows[i].seqno in gone ==> rows[j].seqno in gone
  }

  /** Every checkpoint has a row left at or above it. */
  ghost predicate CheckpointsAreReached(s: Stream, gone: set<int>) {
    forall q :: q in s.anchors && s.anchors[q].kind.Checkpoint? ==> Reached(s.rows, gone, q)
  }

  ghost predicate Reached(rows: seq<Row>, gone: set<int>, q: int) {
    exists r :: r in rows && r.seqno !in gone && q <= r.seqno
  }

  ghost predicate OwnHashes(rows: seq<Row>) {
    forall i, j :: 0 <= i < j < |rows| ==> rows[i].hash != rows[j].hash
  }

  /** Whatever rows somebody deletes from a lawful stream that verifies: it still verifies
      exactly when they are the newest ones and no checkpoint is above what is left. */
  lemma DeletionIsReportedExactlyWhen(c: Crypto, check: Checker, ops: seq<Op>, gone: set<int>)
    requires Honest(c, check, ops) && Accepts(c, check, Run(c, ops), 0, 0) && DistinctHashes(Log(c, ops))
    ensures var s := Run(c, ops);
            Accepts(c, check, Without(s, gone), 0, 0) <==> OnlyTheEnd(s.rows, gone) && CheckpointsAreReached(s, gone)
  {
    var s := Run(c, ops);
    EveryHistoryIsIntact(c, check, ops);
    if BeginningIsLeft(s.rows, gone) {
      TheEndIsGone(s.rows, gone);
      ABeginningVerifiesExactlyWhen(c, check, ops, gone);
    } else {
      AHoleIsReported(c, check, s, Log(c, ops), gone);
      if OnlyTheEnd(s.rows, gone) {
        EndsLeaveABeginning(s.rows, gone);
      }
    }
  }

  ghost predicate BeginningIsLeft(rows: seq<Row>, gone: set<int>) {
    var left := Left(rows, gone);
    left == rows[..|left|]
  }

  lemma ABeginningVerifiesExactlyWhen(c: Crypto, check: Checker, ops: seq<Op>, gone: set<int>)
    requires Honest(c, check, ops) && Accepts(c, check, Run(c, ops), 0, 0)
    requires Sorted(Run(c, ops).rows) && BeginningIsLeft(Run(c, ops).rows, gone)
    ensures var s := Run(c, ops); Accepts(c, check, Without(s, gone), 0, 0) <==> CheckpointsAreReached(s, gone)
  {
    var s := Run(c, ops);
    var n := |Left(s.rows, gone)|;
    DeletedHeadIsReportedExactlyWhen(c, check, ops, n);
    forall q ensures Reached(s.rows, gone, q) <==> n > 0 && q <= s.rows[n - 1].seqno {
      ReachedExactlyWhen(s.rows, gone, q);
    }
  }

  lemma AHoleIsReported(c: Crypto, check: Checker, s: Stream, log: seq<Row>, gone: set<int>)
    requires StreamIntact(c, check, s) && Recorded(s, log) && DistinctHashes(log)
    requires !BeginningIsLeft(s.rows, gone)
    ensures !Accepts(c, check, Without(s, gone), 0, 0)
  {
    var t := Without(s, gone);
    LeftIsSorted(s.rows, gone);
    if Accepts(c, check, t, 0, 0) {
      AcceptedRows(c, check, t);
      RowsHaveOwnHashes(s, log);
      if t.rows != [] {
        TheFirstStays(c, check, s, log, gone);
      }
      LinkedMeansABeginning(s.rows, gone);
    }
  }

  lemma AcceptedRows(c: Crypto, check: Checker, t: Stream)
    requires Accepts(c, check, t, 0, 0) && Sorted(t.rows)
    ensures Linked(t.rows) && (t.rows != [] ==> FrontOk(t, 0, t.rows[0]))
  {
    WholeWindow(t.rows);
  }

  lemma {:induction false} LeftIsSorted(rows: seq<Row>, gone: set<int>)
    requires Sorted(rows)
    ensures Sorted(Left(rows, gone))
  {
    if rows != [] {
      var n := |rows| - 1;
      var before := Left(rows[..n], gone);
      LeftIsSorted(rows[..n], gone);
      forall i | 0 <= i < |before| ensures before[i].seqno < rows[n].seqno {
        assert before[i] in before;
        var k :| 0 <= k < n && rows[..n][k] == before[i];
      }
    }
  }

  /** Two numbers logged with one hash are one number. */
  lemma OneHashOneNumber(log: seq<Row>, p: int, q: int, hash: Digest)
    requires DistinctHashes(log) && LogsHash(log, p, hash) && LogsHash(log, q, hash)
    ensures p == q && hash != GENESIS
  {
    var i :| 0 <= i < |log| && log[i].seqno == p && log[i].hash == hash;
    var j :| 0 <= j < |log| && log[j].seqno == q && log[j].hash == hash;
    assert log[i] in log;
    assert i == j;
  }

  lemma RowIsLogged(s: Stream, log: seq<Row>, i: nat)
    requires Recorded(s, log) && i < |s.rows|
    ensures LogsHash(log, s.rows[i].seqno, s.rows[i].hash)
  {
    assert s.rows[i] in s.rows && LogsRow(log, s.rows[i]);
  }

  lemma RowsHaveOwnHashes(s: Stream, log: seq<Row>)
    requires Sorted(s.rows) && Recorded(s, log) && DistinctHashes(log)
    ensures OwnHashes(s.rows)
  {
    forall i, j | 0 <= i < j < |s.rows| ensures s.rows[i].hash != s.rows[j].hash {
      RowIsLogged(s, log, i);
      RowIsLogged(s, log, j);
      if s.rows[i].hash == s.rows[j].hash {
        OneHashOneNumber(log, s.rows[i].seqno, s.rows[j].seqno, s.rows[i].hash);
      }
    }
  }

  /** A row in the middle does not pass for the first: no cut has the hash of a row that is
      still stored. */
  lemma TheFirstStays(c: Crypto, check: Checker, s: Stream, log: seq<Row>, gone: set<int>)
    requires StreamIntact(c, check, s) && Recorded(s, log) && DistinctHashes(log)
    requires Left(s.rows, gone) != [] && FrontOk(Without(s, gone), 0, Left(s.rows, gone)[0])
    ensures Left(s.rows, gone)[0] == s.rows[0]
  {
    var r := Left(s.rows, gone)[0];
    assert r in Left(s.rows, gone);
    var j :| 0 <= j < |s.rows| && s.rows[j] == r;
    if j > 0 {
      NoCutIsBefore(c, check, s, log, Without(s, gone), j);
    }
  }

  lemma NoCutIsBefore(c: Crypto, check: Checker, s: Stream, log: seq<Row>, t: Stream, j: nat)
    requires StreamIntact(c, check, s) && Recorded(s, log) && DistinctHashes(log) && t.anchors == s.anchors
    requires 0 < j < |s.rows|
    ensures !FrontOk(t, 0, s.rows[j])
  {
    var p := s.rows[j - 1];
    assert s.rows[j].prevHash == p.hash;
    RowIsLogged(s, log, j - 1);
    OneHashOneNumber(log, p.seqno, p.seqno, p.hash);
    forall q | q in s.anchors && s.anchors[q].kind.RetentionCut? ensures s.anchors[q].hash != p.hash {
      NoCutHasItsHash(check, s, log, j - 1, q);
    }
  }

  lemma NoCutHasItsHash(check: Checker, s: Stream, log: seq<Row>, i: nat, q: int)
    requires Sorted(s.rows) && AnchorsIntact(check, s.rows, s.anchors, s.nextSeq)
    requires Recorded(s, log) && DistinctHashes(log)
    requires i < |s.rows| && q in s.anchors && s.anchors[q].kind.RetentionCut?
    ensures s.anchors[q].hash != s.rows[i].hash
  {
    assert AnchorPlaced(s.rows, s.anchors, q);
    assert LogsHash(log, q, s.anchors[q].hash);
    RowIsLogged(s, log, i);
    if s.anchors[q].hash == s.rows[i].hash {
      OneHashOneNumber(log, q, s.rows[i].seqno, s.rows[i].hash);
    }
  }

  lemma {:induction false} LinkedMeansABeginning(rows: seq<Row>, gone: set<int>)
    requires Linked(rows) && Linked(Left(rows, gone)) && OwnHashes(rows) && Sorted(rows)
    requires Left(rows, gone) != [] ==> Left(rows, gone)[0] == rows[0]
    ensures BeginningIsLeft(rows, gone)
  {
    if rows != [] {
      var n := |rows| - 1;
      var before := Left(rows[..n], gone);
      LinkedBefore(rows, gone);
      LinkedMeansABeginning(rows[..n], gone);
      if rows[n].seqno !in gone && before != [] {
        var left := Left(rows, gone);
        assert left == before + [rows[n]];
        assert left[|before|].prevHash == left[|before| - 1].hash;
        assert before[|before| - 1] == rows[|before| - 1] && rows[n].prevHash == rows[n - 1].hash;
      }
    }
  }

  lemma LinkedBefore(rows: seq<Row>, gone: set<int>)
    requires rows != [] && Linked(rows) && Linked(Left(rows, gone))
    requires Left(rows, gone) != [] ==> Left(rows, gone)[0] == rows[0]
    ensures var before := rows[..|rows| - 1];
            && Linked(before) && Linked(Left(before, gone))
            && (Left(before, gone) != [] ==> Left(before, gone)[0] == rows[0])
  {
    var before, left := Left(rows[..|rows| - 1], gone), Left(rows, gone);
    assert before == left[..|before|];
    forall i | 0 < i < |before| ensures before[i].prevHash == before[i - 1].hash {
      assert left[i].prevHash == left[i - 1].hash;
    }
  }

  /** What is left begins the stream exactly when what is gone is its end. */
  lemma TheEndIsGone(rows: seq<Row>, gone: set<int>)
    requires Sorted(rows) && BeginningIsLeft(rows, gone)
    ensures OnlyTheEnd(rows, gone)
  {
    var left := Left(rows, gone);
    forall i, j | 0 <= i < j < |rows| && rows[j].seqno !in gone ensures rows[i].seqno !in gone {
      assert rows[j] in left;
      var k :| 0 <= k < |left| && left[k] == rows[j];
      assert left[k] == rows[k] && k == j;
      assert left[i] == rows[i] && left[i] in left;
    }
  }

  lemma {:induction false} EndsLeaveABeginning(rows: seq<Row>, gone: set<int>)
    requires OnlyTheEnd(rows, gone)
    ensures BeginningIsLeft(rows, gone)
  {
    if rows != [] {
      var n := |rows| - 1;
      if rows[n].seqno in gone {
        EndsLeaveABeginning(rows[..n], gone);
      } else {
        assert forall i :: 0 <= i < n ==> rows[i].seqno !in gone;
        NothingIsGone(rows, gone);
      }
    }
  }

  lemma {:induction false} NothingIsGone(rows: seq<Row>, gone: set<int>)
    requires forall i :: 0 <= i < |rows| ==> rows[i].seqno !in gone
    ensures Left(rows, gone) == rows
  {
    if rows != [] {
      var n := |rows| - 1;
      NothingIsGone(rows[..n], gone);
      assert rows == rows[..n] + [rows[n]];
    }
  }

  lemma ReachedExactlyWhen(rows: seq<Row>, gone: set<int>, q: int)
    requires Sorted(rows) && BeginningIsLeft(rows, gone)
    ensures var n := |Left(rows, gone)|; Reached(rows, gone, q) <==> n > 0 && q <= rows[n - 1].seqno
  {
    var left := Left(rows, gone);
    var n := |left|;
    if n > 0 {
      assert left[n - 1] == rows[n - 1] && left[n - 1] in left;
    }
    if Reached(rows, gone, q) {
      var r :| r in rows && r.seqno !in gone && q <= r.seqno;
      assert r in left;
      var k :| 0 <= k < n && left[k] == r;
      assert rows[k] == r;
    }
  }
}
