/** The audit stream's database: append, anchor, cut, scrub and verify, each
    written as the transaction it runs. A transaction works on what it read and
    writes the result back when it commits. */
module AuditStore {
  import opened Collections
  import opened Hashing
  import opened AuditChain
  import opened AuditVerify

  /** Which event of a batch is refused, and whether its row had drawn a number by then:
      one the database refuses has, one that cannot be encoded has not. */
  datatype Refusal = Refusal(at: nat, drew: bool) {
    function Used(): nat {
      if drew then at + 1 else at
    }
  }

  class AuditDb {
    const crypto: Crypto
    var rows: seq<Row>
    var anchors: map<int, Anchor>
    var nextSeq: int

    ghost function Contents(): Stream
      reads this
    {
      Stream(rows, anchors, nextSeq)
    }

    constructor (crypto: Crypto)
      ensures Contents() == EMPTY && this.crypto == crypto
    {
      this.crypto := crypto;
      rows, anchors, nextSeq := [], map[], 1;
    }

    /** `refusal` is the event that is refused, if any. A refusal rolls the rows
        back, but not the numbers they drew. */
    method Append(events: seq<Event>, refusal: Option<Refusal>) returns (ok: bool)
      modifies this`rows, this`nextSeq
      ensures ok <==> refusal.None? || refusal.value.at >= |events|
      ensures ok ==> Contents() == Appended(crypto, old(Contents()), events)
      ensures ok ==> |rows| == |old(rows)| + |events| && rows[..|old(rows)|] == old(rows)
      ensures ok ==> forall i :: 0 <= i < |events| ==>
                Carries(rows[|old(rows)| + i], events[i]) && rows[|old(rows)| + i].seqno == old(nextSeq) + i
      ensures !ok ==> Contents() == Refused(old(Contents()), refusal.value.Used()) && rows == old(rows)
    {
      var prev := GENESIS;
      if rows != [] {
        prev := rows[|rows| - 1].hash;
      }
      var batch, drawn;
      ok, batch, drawn := BatchOf(crypto, nextSeq, prev, events, refusal);
      nextSeq := nextSeq + drawn;
      if ok {
        BatchCarriesItsEvents(crypto, old(nextSeq), prev, events);
        rows := rows + batch;
      }
    }

    /** A signer that fails leaves everything as it was. */
    method Anchor(sign: Option<Digest -> Option<Bytes>>)
      modifies this`anchors
      ensures var s := old(Contents());
              Contents() == if s.rows != [] && sign.Some? && sign.value(HeadHash(s.rows)).None? then s
                            else Anchored(s, if sign.None? then [] else sign.value(HeadHash(s.rows)).GetOr([]))
      ensures rows == [] ==> anchors == old(anchors)
      ensures rows != [] ==>
                var head := rows[|rows| - 1];
                anchors == if head.seqno in old(anchors) || (sign.Some? && sign.value(head.hash).None?)
                           then old(anchors)
                           else old(anchors)[head.seqno := AuditChain.Anchor(head.hash, Checkpoint,
                                              if sign.None? then [] else sign.value(head.hash).value)]
    {
      if rows == [] {
        return;
      }
      var head := rows[|rows| - 1];
      if head.seqno in anchors {
        return;
      }
      var signature := [];
      if sign.Some? {
        var signed := sign.value(head.hash);
        if signed.None? {
          return;
        }
        signature := signed.value;
      }
      anchors := anchors[head.seqno := AuditChain.Anchor(head.hash, Checkpoint, signature)];
    }

    /** `busy` is a cut the database rolls back: a reader held the table, or a
        hold was placed meanwhile. The result is the newest row removed. */
    method Cut(before: int, busy: bool) returns (cut: Option<int>)
      requires Sorted(rows)
      modifies this`rows, this`anchors
      ensures Contents() == if busy then old(Contents()) else CutBefore(old(Contents()), before)
      ensures cut == if busy || CutIndex(old(rows), before) < 0 then None
                     else Some(old(rows)[CutIndex(old(rows), before)].seqno)
      ensures cut.None? ==> rows == old(rows) && anchors == old(anchors)
      ensures cut.Some? ==> rows == old(rows)[CutIndex(old(rows), before) + 1..]
    {
      var i := NewestCuttable(rows, before);
      if i < 0 || busy {
        return None;
      }
      var cutSeq, cutHash := rows[i].seqno, rows[i].hash;
      if cutSeq in anchors {
        anchors := anchors[cutSeq := anchors[cutSeq].(hash := cutHash)];
      } else {
        anchors := anchors[cutSeq := AuditChain.Anchor(cutHash, RetentionCut, [])];
      }
      rows := RowsAbove(rows, i);
      return Some(cutSeq);
    }

    /** Returns how many rows were scrubbed. */
    method Scrub(org: Bytes, before: int) returns (scrubbed: nat)
      modifies this`rows
      ensures Contents() == Edited(ScrubOrg(org, before), old(Contents()))
      ensures scrubbed == CountScrubbed(rows) - CountScrubbed(old(rows))
      ensures |rows| == |old(rows)| && forall i :: 0 <= i < |rows| ==>
                var r := old(rows)[i];
                rows[i] == if r.facts.org == org && r.facts.ts < before && !r.legalHold && !r.scrubbed
                              && (r.diff != [] || r.payload != [])
                           then r.(diff := [], payload := [], scrubbed := true) else r
    {
      rows, scrubbed := ScrubRows(rows, org, before);
    }

    /** One walk over a range of rows; it ends at the first that is not what an honest
        history would have there. */
    method Verify(from: int, to: int, check: Checker) returns (res: VerifyResult)
      ensures res.valid <==> Accepts(crypto, check, Contents(), from, to)
      ensures !res.valid ==> FirstFault(crypto, check, Contents(), from, to, res)
      ensures res.valid ==> Tallies(check, Contents(), Window(rows, from, to), res)
      ensures res.valid ==> forall q :: q in anchors && anchors[q].kind.Checkpoint? && InRange(q, from, to) ==>
                q <= res.lastSeq
    {
      var walk := Window(rows, from, to);
      var bridge := None;
      if walk != [] {
        bridge := Bridge(Stream(rows, anchors, nextSeq), walk[0].seqno);
      }
      var lastCheckpoint := LastCheckpoint(anchors, from, to);
      res := WalkRows(crypto, check, Stream(rows, anchors, nextSeq), from, to, walk, bridge);
      ghost var walked := res;
      if res.valid && lastCheckpoint > res.lastSeq {
        res := res.(valid := false, brokenAt := res.lastSeq + 1, reason := HeadRemoved);
      }
      WalkDecides(crypto, check, Contents(), from, to, walked, res);
    }
  }

  /** Inserts a batch up to the event that is refused, linking each row to the one
      before it; `drawn` is how many sequence numbers that used. */
  method BatchOf(c: Crypto, first: int, head: Digest, events: seq<Event>, refusal: Option<Refusal>)
    returns (ok: bool, batch: seq<Row>, drawn: nat)
    ensures ok <==> refusal.None? || refusal.value.at >= |events|
    ensures ok ==> drawn == |events| && batch == BatchRows(c, first, head, events)
    ensures !ok ==> drawn == refusal.value.Used()
  {
    var prev := head;
    batch, drawn := [], 0;
    assert Building(c, batch, first, head, events, drawn, prev) by {
      assert events[0..] == events;
    }
    while drawn < |events|
      invariant 0 <= drawn <= |events|
      invariant Building(c, batch, first, head, events, drawn, prev)
      invariant refusal.Some? ==> drawn <= refusal.value.at
    {
      if refusal.Some? && refusal.value.at == drawn {
        return false, batch, refusal.value.Used();
      }
      var row := NewRow(c, first + drawn, prev, events[drawn]);
      BatchStep(c, batch, first, head, events, drawn, prev, row);
      batch := batch + [row];
      prev := row.hash;
      drawn := drawn + 1;
    }
    ok := true;
  }

  method ScrubRows(rows: seq<Row>, org: Bytes, before: int) returns (done: seq<Row>, scrubbed: nat)
    ensures done == EditRows(ScrubOrg(org, before), rows)
    ensures scrubbed == CountScrubbed(done) - CountScrubbed(rows)
  {
    done, scrubbed := [], 0;
    for i := 0 to |rows|
      invariant |done| == i
      invariant forall j :: 0 <= j < i ==> done[j] == EditRow(ScrubOrg(org, before), rows[j])
      invariant scrubbed == CountScrubbed(done) - CountScrubbed(rows[..i])
    {
      var r := rows[i];
      assert rows[..i + 1][..i] == rows[..i];
      if r.facts.org == org && r.facts.ts < before && !r.legalHold && !r.scrubbed && (r.diff != [] || r.payload != []) {
        r := r.(diff := [], payload := [], scrubbed := true);
        scrubbed := scrubbed + 1;
      }
      assert (done + [r])[..i] == done;
      done := done + [r];
    }
    assert rows[..|rows|] == rows;
  }

  /** The newest row that is old enough, below the first legal hold. */
  method NewestCuttable(rows: seq<Row>, before: int) returns (i: int)
    ensures i == CutIndex(rows, before)
  {
    var limit := 0;
    while limit < |rows| && !rows[limit].legalHold
      invariant 0 <= limit <= |rows|
      invariant forall j :: 0 <= j < limit ==> !rows[j].legalHold
    {
      limit := limit + 1;
    }
    i := limit - 1;
    while i >= 0 && rows[i].facts.ts >= before
      invariant -1 <= i < limit
      invariant forall j :: i < j < limit ==> rows[j].facts.ts >= before
    {
      i := i - 1;
    }
    CutIndexIsUnique(rows, before, limit, i);
  }

  /** Deletes every row at or below the sequence number of row i, whatever its
      age. */
  method RowsAbove(rows: seq<Row>, i: int) returns (rest: seq<Row>)
    requires Sorted(rows) && 0 <= i < |rows|
    ensures rest == rows[i + 1..]
  {
    var n := 0;
    while n < |rows| && rows[n].seqno <= rows[i].seqno
      invariant 0 <= n <= i + 1
    {
      n := n + 1;
    }
    rest := rows[n..];
  }

  /** The anchor the first row walked is bridged by, if any: the newest
      retention cut below it, unless a row lies between the two. */
  method Bridge(s: Stream, first: int) returns (bridge: Option<int>)
    ensures IsBridge(s, first, bridge)
  {
    var cuts := set q | q in s.anchors && s.anchors[q].kind.RetentionCut? && q < first;
    bridge := Largest(cuts);
    if bridge.None? {
      assert forall q :: NewestCutBelow(s.anchors, first, q) ==> q in cuts;
      return;
    }
    forall p | p in s.anchors && s.anchors[p].kind.RetentionCut? && p < first ensures p <= bridge.value {
      assert p in cuts;
    }
    assert NewestCutBelow(s.anchors, first, bridge.value);
    for i := 0 to |s.rows|
      invariant forall j :: 0 <= j < i ==> !(bridge.value < s.rows[j].seqno < first)
    {
      if bridge.value < s.rows[i].seqno < first {
        assert s.rows[i] in s.rows;
        assert forall q :: NewestCutBelow(s.anchors, first, q) ==> q == bridge.value;
        return None;
      }
    }
  }

  /** The newest checkpoint in range; zero when there is none. */
  method LastCheckpoint(anchors: map<int, Anchor>, from: int, to: int) returns (last: int)
    ensures forall bound :: last <= bound <==> HeadOk(anchors, from, to, bound)
    ensures forall q :: q in anchors && anchors[q].kind.Checkpoint? && InRange(q, from, to) ==> q <= last
    ensures last >= 0 && (last > 0 ==> last in anchors && anchors[last].kind.Checkpoint? && InRange(last, from, to))
  {
    var seen := set q | q in anchors && CheckpointAt(anchors, q) && InRange(q, from, to);
    var newest := Largest(seen);
    last := if newest.Some? && newest.value > 0 then newest.value else 0;
    forall q | CheckpointAt(anchors, q) && InRange(q, from, to) ensures q <= last {
      assert q in seen;
    }
    assert last > 0 ==> last in seen;
  }

  /** The rows of one walk. Valid here means nothing was wrong with a row; what
      lies past the last one is the caller's to judge. */
  method WalkRows(c: Crypto, check: Checker, s: Stream, from: int, to: int, walk: seq<Row>, bridge: Option<int>)
    returns (res: VerifyResult)
    requires walk == Window(s.rows, from, to)
    requires walk != [] ==> IsBridge(s, walk[0].seqno, bridge)
    ensures res.valid ==> CleanPrefix(c, check, s, from, walk, |walk|) && Tallies(check, s, walk, res)
    ensures !res.valid ==> res.reason != HeadRemoved && FirstFault(c, check, s, from, to, res)
  {
    res := VerifyResult(0, 0, 0, true, 0, Intact, 0, 0, 0, 0);
    var prev := GENESIS;
    var i := 0;
    while i < |walk|
      invariant 0 <= i <= |walk|
      invariant Walked(c, check, s, from, walk, i, prev, res)
    {
      res, prev := WalkRow(c, check, s, from, to, walk, i, bridge, prev, res);
      if !res.valid {
        return;
      }
      i := i + 1;
    }
    assert walk[..i] == walk;
  }

  /** Where a walk stands before row i: everything so far was in order. */
  ghost predicate Walked(c: Crypto, check: Checker, s: Stream, from: int, walk: seq<Row>, i: nat, prev: Digest,
                         res: VerifyResult)
    requires i <= |walk|
  {
    && res.valid
    && (i > 0 ==> prev == walk[i - 1].hash)
    && CleanPrefix(c, check, s, from, walk, i)
    && Tallies(check, s, walk[..i], res)
  }

  method WalkRow(c: Crypto, check: Checker, s: Stream, from: int, to: int, walk: seq<Row>, i: nat, bridge: Option<int>,
                 prev: Digest, soFar: VerifyResult)
    returns (res: VerifyResult, next: Digest)
    requires walk == Window(s.rows, from, to) && i < |walk|
    requires IsBridge(s, walk[0].seqno, bridge)
    requires Walked(c, check, s, from, walk, i, prev, soFar)
    ensures res.valid ==> Walked(c, check, s, from, walk, i + 1, next, res)
    ensures !res.valid ==> res.reason != HeadRemoved && FirstFault(c, check, s, from, to, res)
  {
    var r := walk[i];
    res, next := soFar, prev;
    if i == 0 {
      var cut, front := FrontOf(s, from, r, bridge);
      if front != Intact {
        res := res.(valid := false, brokenAt := r.seqno, reason := front);
        return;
      }
      res := res.(retentionCut := cut, firstSeq := r.seqno);
      next := r.prevHash;
    }
    var reason := RowVerdict(c, check, s.anchors, next, r);
    ghost var before := res;
    if reason != Intact {
      var counted := if r.scrubbed && reason !in {Unlinked, Modified} then 1 else 0;
      res := res.(valid := false, brokenAt := r.seqno, reason := reason, scrubbed := res.scrubbed + counted);
      RowFault(c, check, s, from, to, i, reason, res);
      return;
    }
    res := Count(check, s.anchors, r, res);
    CleanStep(c, check, s, from, walk, i);
    TallyStep(check, s, walk, i, before, res);
    next := r.hash;
  }

  /** Counts a row that was found in order. */
  function Count(check: Checker, anchors: map<int, Anchor>, r: Row, res: VerifyResult): VerifyResult {
    var vouched := CheckpointAt(anchors, r.seqno);
    res.(scrubbed := res.scrubbed + (if r.scrubbed then 1 else 0),
         anchors := res.anchors + (if vouched then 1 else 0),
         unsigned := res.unsigned + (if vouched && check.Some? && anchors[r.seqno].signature == [] then 1 else 0),
         lastSeq := r.seqno, checked := res.checked + 1)
  }

  /** What came before the first row: the cut it follows, or why it may not be
      first. An anchor right before the row must match it; one further back is
      only taken when it does. */
  method FrontOf(s: Stream, from: int, r: Row, bridge: Option<int>) returns (cut: int, front: Reason)
    requires IsBridge(s, r.seqno, bridge)
    ensures front in {Intact, NotAfterCut, NoPredecessor}
    ensures front == Intact <==> FrontOk(s, from, r)
    ensures front == Intact ==> RetentionBridge(s, r, cut)
  {
    var ok := bridge.Some? && bridge.value != 0;
    if ok && bridge.value != r.seqno - 1 && s.anchors[bridge.value].hash != r.prevHash {
      ok := false;
    }
    assert forall q :: Bridges(s, r.seqno, q) ==> bridge == Some(q) by {
      forall q | Bridges(s, r.seqno, q) ensures bridge == Some(q) {
        assert bridge.Some? && NewestCutBelow(s.anchors, r.seqno, q);
      }
    }
    if ok && s.anchors[bridge.value].hash != r.prevHash {
      return 0, NotAfterCut;
    }
    if !ok && from == 0 && r.prevHash != GENESIS {
      return 0, NoPredecessor;
    }
    if ok {
      return bridge.value, Intact;
    }
    return 0, Intact;
  }

  /** The checks of one row, in order. */
  method RowVerdict(c: Crypto, check: Checker, anchors: map<int, Anchor>, prev: Digest, r: Row) returns (reason: Reason)
    ensures reason == RowReason(c, check, anchors, prev, r)
    ensures reason == Intact <==> r.prevHash == prev && RowOk(c, check, anchors, r)
  {
    if r.prevHash != prev {
      return Unlinked;
    }
    if ChainHash(c, r.prevHash, r.facts, r.contentHash) != r.hash {
      return Modified;
    }
    if !r.scrubbed && ContentHash(c, r.diff, r.payload, r.meta) != r.contentHash {
      return ContentChanged;
    }
    if CheckpointAt(anchors, r.seqno) {
      var a := anchors[r.seqno];
      if a.hash != r.hash {
        return CheckpointMismatch;
      }
      if check.Some? && a.signature != [] && !check.value(a.hash, a.signature) {
        return BadSignature;
      }
    }
    return Intact;
  }

  // --- proof steps ------------------------------------------------------------

  /** What is built so far, and what the rest of the batch becomes, make up the
      whole batch. */
  ghost predicate Building(c: Crypto, batch: seq<Row>, first: int, head: Digest, events: seq<Event>, n: nat,
                           prev: Digest)
    requires n <= |events|
  {
    batch + BatchRows(c, first + n, prev, events[n..]) == BatchRows(c, first, head, events)
  }

  lemma BatchStep(c: Crypto, batch: seq<Row>, first: int, head: Digest, events: seq<Event>, n: nat, prev: Digest,
                  row: Row)
    requires n < |events| && row == NewRow(c, first + n, prev, events[n])
    requires Building(c, batch, first, head, events, n, prev)
    ensures Building(c, batch + [row], first, head, events, n + 1, row.hash)
  {
    assert events[n..][1..] == events[n + 1..];
  }

  lemma CutIndexIsUnique(rows: seq<Row>, before: int, limit: int, i: int)
    requires -1 <= i < limit <= |rows| && (limit < |rows| ==> rows[limit].legalHold)
    requires forall j :: 0 <= j < limit ==> !rows[j].legalHold
    requires i >= 0 ==> rows[i].facts.ts < before
    requires forall j :: i < j < limit ==> rows[j].facts.ts >= before
    ensures i == CutIndex(rows, before)
  {
    var k := CutIndex(rows, before);
    assert k < limit;
    if k < i {
      CutIndexIsNewest(rows, before, i);
    }
  }

  lemma WalkDecides(c: Crypto, check: Checker, s: Stream, from: int, to: int, walked: VerifyResult, res: VerifyResult)
    requires var walk := Window(s.rows, from, to);
             walked.valid ==> CleanPrefix(c, check, s, from, walk, |walk|) && Tallies(check, s, walk, walked)
    requires !walked.valid ==> walked.reason != HeadRemoved && FirstFault(c, check, s, from, to, walked)
    requires (walked.valid ==> HeadOk(s.anchors, from, to, walked.lastSeq)) ==> res == walked
    requires walked.valid && !HeadOk(s.anchors, from, to, walked.lastSeq) ==>
               res == walked.(valid := false, brokenAt := walked.lastSeq + 1, reason := HeadRemoved)
    ensures res.valid <==> Accepts(c, check, s, from, to)
    ensures !res.valid ==> FirstFault(c, check, s, from, to, res)
    ensures res.valid ==> Tallies(check, s, Window(s.rows, from, to), res)
  {
    var walk := Window(s.rows, from, to);
    assert walk[..|walk|] == walk;
    if !walked.valid {
      FaultIsNotAccepted(c, check, s, from, to, walked);
    }
  }

  lemma FaultIsNotAccepted(c: Crypto, check: Checker, s: Stream, from: int, to: int, res: VerifyResult)
    requires FirstFault(c, check, s, from, to, res)
    ensures !Accepts(c, check, s, from, to)
  {
    var walk := Window(s.rows, from, to);
    var n := res.checked;
    assert n < |walk| ==> walk[n] in walk;
    assert Linked(walk) && 0 < n < |walk| ==> walk[n].prevHash == walk[n - 1].hash;
  }

  lemma CleanStep(c: Crypto, check: Checker, s: Stream, from: int, walk: seq<Row>, i: nat)
    requires i < |walk| && CleanPrefix(c, check, s, from, walk, i)
    requires RowOk(c, check, s.anchors, walk[i])
    requires if i == 0 then FrontOk(s, from, walk[0]) else walk[i].prevHash == walk[i - 1].hash
    ensures CleanPrefix(c, check, s, from, walk, i + 1)
  {
    var longer := walk[..i + 1];
    assert longer == walk[..i] + [walk[i]];
  }

  lemma RowFault(c: Crypto, check: Checker, s: Stream, from: int, to: int, i: nat, reason: Reason, res: VerifyResult)
    requires var walk := Window(s.rows, from, to);
             && i < |walk| && CleanPrefix(c, check, s, from, walk, i)
             && reason == RowReason(c, check, s.anchors, if i == 0 then walk[0].prevHash else walk[i - 1].hash, walk[i])
             && res.brokenAt == walk[i].seqno && res.lastSeq == LastSeq(walk[..i])
    requires reason != Intact && res.reason == reason && res.checked == i
    ensures FirstFault(c, check, s, from, to, res)
  {
  }

  lemma TallyStep(check: Checker, s: Stream, walk: seq<Row>, i: nat, before: VerifyResult, after: VerifyResult)
    requires i < |walk| && after == Count(check, s.anchors, walk[i], before)
    requires i > 0 ==> Tallies(check, s, walk[..i], before)
    requires i == 0 ==> RetentionBridge(s, walk[0], before.retentionCut)
                        && before == VerifyResult(0, walk[0].seqno, 0, true, 0, Intact, 0, 0, 0, before.retentionCut)
    ensures Tallies(check, s, walk[..i + 1], after)
  {
    assert walk[..i + 1][..i] == walk[..i];
    assert walk[..i + 1][i] == walk[i];
    assert walk[..i + 1][0] == walk[0];
    assert i > 0 ==> walk[..i][0] == walk[0];
  }
}
