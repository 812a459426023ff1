/** What an accepted walk proves about a stream somebody may have rewritten.
    Here the stored rows and anchors are arbitrary; only the log of what was
    really appended is the writer's. */
module AuditTamper {
  import opened Collections
  import opened Hashing
  import opened AuditChain
  import opened AuditVerify
  import opened AuditHistory
  import opened AuditCompleteness

  ghost function Preimage(c: Crypto, r: Row): Bytes {
    ChainPreimage(c, r.prevHash, r.facts, r.contentHash)
  }

  ghost function Preimages(c: Crypto, rows: seq<Row>): set<Bytes> {
    set r | r in rows :: Preimage(c, r)
  }

  /** Nobody has found a collision, or a preimage of the genesis hash, among the
      rows in play. */
  ghost predicate HashHolds(c: Crypto, rows: seq<Row>) {
    && FaithfulClock(c)
    && CollisionFree(c, Preimages(c, rows))
    && forall r :: r in rows ==> TextColumns(r.facts) && c.sha(Preimage(c, r)) != GENESIS
  }

  ghost predicate AllHashed(c: Crypto, rows: seq<Row>) {
    forall r :: r in rows ==> r.hash == ChainHash(c, r.prevHash, r.facts, r.contentHash)
  }

  /** Every logged row follows the one logged before it, or starts from genesis. */
  ghost predicate Chained(log: seq<Row>) {
    forall i :: 0 <= i < |log| ==> Follows(log, i)
  }

  ghost predicate Follows(log: seq<Row>, i: nat)
    requires i < |log|
  {
    log[i].prevHash == GENESIS || (i > 0 && log[i].prevHash == log[i - 1].hash)
  }

  /** What a history logs, and where its head is. */
  ghost predicate LogsHead(s: Stream, log: seq<Row>) {
    s.rows != [] ==> log != [] && log[|log| - 1].hash == HeadHash(s.rows)
  }

  lemma {:induction false} EveryLogIsChained(c: Crypto, ops: seq<Op>)
    ensures Chained(Log(c, ops)) && AllHashed(c, Log(c, ops)) && LogsHead(Run(c, ops), Log(c, ops))
    ensures forall l :: l in Log(c, ops) ==> ContentOk(c, l)
    decreases |ops|
  {
    if ops != [] {
      var n := |ops| - 1;
      var s, log := Run(c, ops[..n]), Log(c, ops[..n]);
      EveryLogIsChained(c, ops[..n]);
      var b := Written(c, s, ops[n]);
      if ops[n].Append? {
        BatchIsLinked(c, s.nextSeq, HeadHash(s.rows), ops[n].events);
        BatchExtendsTheLog(s, log, b);
        forall l | l in b ensures l.hash == ChainHash(c, l.prevHash, l.facts, l.contentHash) && ContentOk(c, l) {
          assert RowHashed(c, l);
        }
      } else {
        assert log + b == log;
        HeadStays(c, s, ops[n]);
      }
    }
  }

  lemma BatchExtendsTheLog(s: Stream, log: seq<Row>, b: seq<Row>)
    requires Chained(log) && Linked(b) && LogsHead(s, log)
    requires b != [] ==> b[0].prevHash == HeadHash(s.rows)
    ensures Chained(log + b)
    ensures s.rows + b != [] ==> log + b != [] && (log + b)[|log + b| - 1].hash == HeadHash(s.rows + b)
  {
    var all := log + b;
    forall i | 0 <= i < |all| ensures Follows(all, i) {
      if i > |log| {
        assert b[i - |log|].prevHash == b[i - |log| - 1].hash;
      } else if i < |log| {
        assert Follows(log, i);
      }
    }
  }

  lemma HeadStays(c: Crypto, s: Stream, op: Op)
    requires !op.Append?
    ensures var t := Step(c, s, op); t.rows != [] ==> s.rows != [] && HeadHash(t.rows) == HeadHash(s.rows)
  {
    if op.Cut? {
      HeadStaysPastACut(s, op.before);
    } else if op.EditRows? {
      HeadStaysEdited(op.edit, s);
    }
  }

  lemma HeadStaysPastACut(s: Stream, before: int)
    ensures var t := CutBefore(s, before); t.rows != [] ==> s.rows != [] && HeadHash(t.rows) == HeadHash(s.rows)
  {
  }

  lemma HeadStaysEdited(e: Edit, s: Stream)
    ensures var t := Edited(e, s); t.rows != [] ==> s.rows != [] && HeadHash(t.rows) == HeadHash(s.rows)
  {
  }

  /** A collision-free history with distinct event ids gives every row its own
      hash. */
  lemma HistoriesHaveDistinctHashes(c: Crypto, ops: seq<Op>)
    requires HashHolds(c, Log(c, ops))
    requires forall i, j :: 0 <= i < j < |Log(c, ops)| ==> Log(c, ops)[i].facts.id != Log(c, ops)[j].facts.id
    ensures DistinctHashes(Log(c, ops))
  {
    var log := Log(c, ops);
    EveryLogIsChained(c, ops);
    forall i, j | 0 <= i < j < |log| ensures log[i].hash != log[j].hash {
      if log[i].hash == log[j].hash {
        SameHashSameRow(c, log, log[i], log[j]);
      }
    }
    forall r | r in log ensures r.hash != GENESIS {
      assert c.sha(Preimage(c, r)) == r.hash;
    }
  }

  lemma SameHashSameRow(c: Crypto, rows: seq<Row>, a: Row, b: Row)
    requires HashHolds(c, rows) && AllHashed(c, rows) && a in rows && b in rows && a.hash == b.hash
    ensures SameHashed(a, b)
  {
    assert Preimage(c, a) in Preimages(c, rows) && Preimage(c, b) in Preimages(c, rows);
    assert c.sha(Preimage(c, a)) == c.sha(Preimage(c, b));
    ChainPreimageIsUniquelyReadable(c, a.prevHash, a.facts, a.contentHash, b.prevHash, b.facts, b.contentHash);
  }

  /** Up to row k, what was walked is what was logged up to row j: in order, and in every
      hashed fact. */
  ghost predicate Pinned(walk: seq<Row>, log: seq<Row>, k: nat, j: nat) {
    k < |walk| && k <= j < |log| && forall i :: 0 <= i <= k ==> SameHashed(walk[i], log[j - k + i])
  }

  lemma PinnedFurther(walk: seq<Row>, log: seq<Row>, k: nat, j: nat)
    requires k < |walk| && j < |log| && SameHashed(walk[k], log[j])
    requires k > 0 ==> j > 0 && Pinned(walk, log, k - 1, j - 1)
    ensures Pinned(walk, log, k, j)
  {
    forall i | 0 <= i <= k ensures SameHashed(walk[i], log[j - k + i]) {
      if i < k {
        assert SameHashed(walk[i], log[(j - 1) - (k - 1) + i]);
      }
    }
  }

  lemma SameHashSameFacts(c: Crypto, log: seq<Row>, walk: seq<Row>, k: nat, j: nat)
    requires HashHolds(c, log + walk) && AllHashed(c, log + walk)
    requires k < |walk| && j < |log| && walk[k].hash == log[j].hash
    ensures SameHashed(walk[k], log[j])
  {
    assert walk[k] in log + walk && log[j] in log + walk;
    SameHashSameRow(c, log + walk, walk[k], log[j]);
  }

  /** A row that is not walked first has a predecessor, and so has the logged row it is. */
  lemma TheOneBefore(c: Crypto, log: seq<Row>, walk: seq<Row>, k: nat, j: nat)
    requires HashHolds(c, log + walk) && AllHashed(c, log + walk) && Chained(log) && Linked(walk)
    requires 0 < k < |walk| && j < |log| && SameHashed(walk[k], log[j])
    ensures j > 0 && walk[k - 1].hash == log[j - 1].hash
  {
    var before := walk[k - 1];
    assert walk[k].prevHash == before.hash;
    assert before in log + walk && c.sha(Preimage(c, before)) == before.hash != GENESIS;
    assert Follows(log, j);
  }

  /** Backward induction: once one stored row carries a logged hash, it and
      everything walked before it is what was appended, in order. */
  lemma {:induction false} HashPinsEverythingBefore(c: Crypto, log: seq<Row>, walk: seq<Row>, k: nat, j: nat)
    requires HashHolds(c, log + walk) && AllHashed(c, log + walk)
    requires Chained(log) && Linked(walk)
    requires k < |walk| && j < |log| && walk[k].hash == log[j].hash
    ensures Pinned(walk, log, k, j)
    decreases k
  {
    SameHashSameFacts(c, log, walk, k, j);
    if k > 0 {
      TheOneBefore(c, log, walk, k, j);
      HashPinsEverythingBefore(c, log, walk, k - 1, j - 1);
    }
    PinnedFurther(walk, log, k, j);
  }

  /** Only anchors put down honestly carry a signature the checker accepts: each
      signs the hash of a row that was the head at the time. */
  ghost predicate Unforgeable(check: (Digest, Bytes) -> bool, log: seq<Row>) {
    forall hash, signature :: signature != [] && check(hash, signature) ==>
             exists j :: 0 <= j < |log| && log[j].hash == hash
  }

  /** Tamper evidence. Let the store hold anything. If a walk accepts it and meets
      a signed checkpoint at row k, then the rows walked up to k are, in order and
      in every hashed fact, consecutive rows of what was really appended. If the
      walk also begins at a genesis row, they begin where the log (re)started; and
      when the log never restarted they are its whole beginning. */
  lemma CheckpointPinsTheStream(c: Crypto, check: (Digest, Bytes) -> bool, ops: seq<Op>, db: Stream, from: int,
                                to: int, k: nat)
    returns (j: nat)
    requires var log, walk := Log(c, ops), Window(db.rows, from, to);
             HashHolds(c, log + walk) && Unforgeable(check, log)
    requires Accepts(c, Some(check), db, from, to)
    requires var walk := Window(db.rows, from, to);
             && k < |walk| && CheckpointAt(db.anchors, walk[k].seqno)
             && db.anchors[walk[k].seqno].signature != []
    ensures var log, walk := Log(c, ops), Window(db.rows, from, to);
            && k <= j < |log|
            && (forall i :: 0 <= i <= k ==> SameHashed(walk[i], log[j - k + i]))
            && |Submitted(ops)| == |log|
            && (forall i :: 0 <= i <= k ==> walk[i].facts == Submitted(ops)[j - k + i].facts)
            && (walk[0].prevHash == GENESIS ==> log[j - k].prevHash == GENESIS)
            && (walk[0].prevHash == GENESIS && (forall i :: 0 < i < |log| ==> log[i].prevHash != GENESIS) ==> j == k)
  {
    var log, walk := Log(c, ops), Window(db.rows, from, to);
    EveryLogIsChained(c, ops);
    var anchor := db.anchors[walk[k].seqno];
    assert walk[k] in walk && RowOk(c, Some(check), db.anchors, walk[k]);
    assert anchor.hash == walk[k].hash && check(anchor.hash, anchor.signature);
    j :| 0 <= j < |log| && log[j].hash == anchor.hash;
    assert AllHashed(c, log + walk) by {
      forall r | r in walk ensures r.hash == ChainHash(c, r.prevHash, r.facts, r.contentHash) {
        assert RowOk(c, Some(check), db.anchors, r) && RowHashed(c, r);
      }
    }
    HashPinsEverythingBefore(c, log, walk, k, j);
    assert SameHashed(walk[0], log[j - k + 0]);
    TheLogIsWhatWasSubmitted(c, ops);
    forall i | 0 <= i <= k ensures walk[i].facts == Submitted(ops)[j - k + i].facts {
      assert SameHashed(walk[i], log[j - k + i]) && Carries(log[j - k + i], Submitted(ops)[j - k + i]);
    }
  }

  /** The content of a row that is pinned and not scrubbed is the content that was
      appended, byte for byte. */
  lemma PinnedContentIsOriginal(c: Crypto, hashed: set<Bytes>, stored: Row, logged: Row)
    requires SameHashed(stored, logged) && !stored.scrubbed && ContentOk(c, stored) && !logged.scrubbed
             && ContentOk(c, logged)
    requires CollisionFree(c, hashed)
    requires {stored.diff, stored.payload, stored.meta, logged.diff, logged.payload, logged.meta} <= hashed
    requires ContentPreimage(c, stored.diff, stored.payload, stored.meta) in hashed
    requires ContentPreimage(c, logged.diff, logged.payload, logged.meta) in hashed
    ensures stored.diff == logged.diff && stored.payload == logged.payload && stored.meta == logged.meta
  {
    ContentIsDetermined(c, hashed, stored.diff, stored.payload, stored.meta, logged.diff, logged.payload, logged.meta);
  }

  /** So a stored row that is pinned to the j-th row logged and not scrubbed is the j-th event
      that was appended, in its facts and in its content. */
  lemma PinnedRowIsTheEvent(c: Crypto, ops: seq<Op>, hashed: set<Bytes>, stored: Row, j: nat)
    requires j < |Log(c, ops)| && SameHashed(stored, Log(c, ops)[j]) && !stored.scrubbed && ContentOk(c, stored)
    requires CollisionFree(c, hashed) && {stored.diff, stored.payload, stored.meta} <= hashed
    requires var l := Log(c, ops)[j];
             {l.diff, l.payload, l.meta, ContentPreimage(c, l.diff, l.payload, l.meta)} <= hashed
    requires ContentPreimage(c, stored.diff, stored.payload, stored.meta) in hashed
    ensures |Submitted(ops)| == |Log(c, ops)|
    ensures var e := Submitted(ops)[j];
            stored.facts == e.facts && stored.diff == e.diff && stored.payload == e.payload && stored.meta == e.meta
  {
    var l := Log(c, ops)[j];
    TheLogIsWhatWasSubmitted(c, ops);
    EveryLogIsChained(c, ops);
    assert Carries(l, Submitted(ops)[j]) && l in Log(c, ops);
    PinnedContentIsOriginal(c, hashed, stored, l);
  }

  // --- where the documentation promises more than the code keeps ------------------------

  /** A history of the first n + 1 operations is one step past the first n. */
  lemma OneOpMore(c: Crypto, ops: seq<Op>, n: nat)
    requires n < |ops|
    ensures Run(c, ops[..n + 1]) == Step(c, Run(c, ops[..n]), ops[n])
  {
    assert ops[..n + 1][..n] == ops[..n];
  }

  lemma OneRowAppended(c: Crypto, s: Stream, e: Event)
    ensures var r := NewRow(c, s.nextSeq, HeadHash(s.rows), e);
            Appended(c, s, [e]) == Stream(s.rows + [r], s.anchors, s.nextSeq + 1)
  {
    assert BatchRows(c, s.nextSeq, HeadHash(s.rows), [e]) == [NewRow(c, s.nextSeq, HeadHash(s.rows), e)];
  }

  lemma OnlyTheFirstGoes(rows: seq<Row>, before: int)
    requires rows != [] && rows[0].facts.ts < before && !rows[0].legalHold
    requires |rows| == 1 || (|rows| == 2 && rows[1].facts.ts >= before)
    ensures CutIndex(rows, before) == 0
  {
    if |rows| == 2 {
      assert CutIndex(rows[..1], before) == 0;
    }
  }

  /** A retention cut that lands on a checkpointed row is lawful, and the stream it
      leaves is reported as broken: the anchor stays a checkpoint, so nothing
      bridges the cut. */
  lemma CutOnACheckpointIsReportedBroken(c: Crypto, check: Checker, e: Event, f: Event, before: int)
    requires e.facts.ts < before <= f.facts.ts
    requires DistinctHashes(Log(c, CutOnACheckpoint(e, f, before)))
    ensures Honest(c, check, CutOnACheckpoint(e, f, before))
    ensures !Accepts(c, check, Run(c, CutOnACheckpoint(e, f, before)), 0, 0)
  {
    var ops := CutOnACheckpoint(e, f, before);
    BeforeTheCut(c, e, f, before);
    OnlyTheFirstGoes(Run(c, ops[..3]).rows, before);
    FullWalkVerdict(c, check, ops);
  }

  /** Two rows, the first of them checkpointed. */
  lemma BeforeTheCut(c: Crypto, e: Event, f: Event, before: int)
    ensures var r := NewRow(c, 1, GENESIS, e);
            Run(c, CutOnACheckpoint(e, f, before)[..3])
            == Stream([r, NewRow(c, 2, r.hash, f)], map[1 := Anchor(r.hash, Checkpoint, [])], 3)
  {
    var ops := CutOnACheckpoint(e, f, before);
    OneOpMore(c, ops, 0);
    OneOpMore(c, ops, 1);
    OneOpMore(c, ops, 2);
    OneRowAppended(c, EMPTY, e);
    var s := Run(c, ops[..2]);
    assert s == Stream([NewRow(c, 1, GENESIS, e)], map[1 := Anchor(NewRow(c, 1, GENESIS, e).hash, Checkpoint, [])], 2);
    OneRowAppended(c, s, f);
  }

  /** The checkpoint is unsigned. */
  function CutOnACheckpoint(e: Event, f: Event, before: int): seq<Op> {
    [Append([e]), PutAnchor([]), Append([f]), Cut(before)]
  }

  /** A cut that empties the stream is lawful too; the append that follows starts
      again from genesis, right after a cut it does not match. */
  lemma RestartAfterACutIsReportedBroken(c: Crypto, check: Checker, e: Event, f: Event, before: int)
    requires e.facts.ts < before
    requires DistinctHashes(Log(c, RestartAfterACut(e, f, before)))
    ensures Honest(c, check, RestartAfterACut(e, f, before))
    ensures !Accepts(c, check, Run(c, RestartAfterACut(e, f, before)), 0, 0)
  {
    EmptiedByTheCut(c, e, f, before);
    FullWalkVerdict(c, check, RestartAfterACut(e, f, before));
  }

  /** The one row there was, cut away. */
  lemma EmptiedByTheCut(c: Crypto, e: Event, f: Event, before: int)
    requires e.facts.ts < before
    ensures Run(c, RestartAfterACut(e, f, before)[..2])
            == Stream([], map[1 := Anchor(NewRow(c, 1, GENESIS, e).hash, RetentionCut, [])], 2)
  {
    var ops := RestartAfterACut(e, f, before);
    OneOpMore(c, ops, 0);
    OneOpMore(c, ops, 1);
    OneRowAppended(c, EMPTY, e);
    OnlyTheFirstGoes(Run(c, ops[..1]).rows, before);
  }

  function RestartAfterACut(e: Event, f: Event, before: int): seq<Op> {
    [Append([e]), Cut(before), Append([f])]
  }
}
