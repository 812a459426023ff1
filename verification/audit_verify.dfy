/** What a walk of the audit chain has to establish, stated over the whole
    range walked rather than row by row. */
module AuditVerify {
  import opened Collections
  import opened Hashing
  import opened AuditChain

  /** Checks a checkpoint's signature over the hash it records; None checks
      hashes only. */
  type Checker = Option<(Digest, Bytes) -> bool>

  datatype Reason = Intact | NotAfterCut | NoPredecessor | Unlinked | Modified | ContentChanged
                  | CheckpointMismatch | BadSignature | HeadRemoved

  datatype VerifyResult = VerifyResult(checked: nat, firstSeq: int, lastSeq: int, valid: bool, brokenAt: int,
                                       reason: Reason, scrubbed: nat, anchors: nat, unsigned: nat, retentionCut: int)

  /** A bound of zero is no bound. */
  predicate InRange(q: int, from: int, to: int) {
    (from == 0 || q >= from) && (to == 0 || q <= to)
  }

  /** The rows a walk reads, in sequence order. */
  function Window(rows: seq<Row>, from: int, to: int): seq<Row> {
    if rows == [] then []
    else
      var n := |rows| - 1;
      var w := Window(rows[..n], from, to);
      if InRange(rows[n].seqno, from, to) then w + [rows[n]] else w
  }

  function LastSeq(walk: seq<Row>): int {
    if walk == [] then 0 else walk[|walk| - 1].seqno
  }

  // --- what bridges the first row to what retention removed ---------------------

  ghost predicate NewestCutBelow(anchors: map<int, Anchor>, first: int, q: int) {
    && q in anchors && anchors[q].kind.RetentionCut? && q < first
    && forall p :: p in anchors && anchors[p].kind.RetentionCut? && p < first ==> p <= q
  }

  /** q is the newest retention cut below `first`, with no row between. */
  ghost predicate Bridges(s: Stream, first: int, q: int) {
    && NewestCutBelow(s.anchors, first, q)
    && forall r :: r in s.rows ==> !(q < r.seqno < first)
  }

  /** The one anchor that bridges what comes before `first`, if there is one. */
  ghost predicate IsBridge(s: Stream, first: int, bridge: Option<int>) {
    && (bridge.Some? ==> Bridges(s, first, bridge.value))
    && (bridge.None? ==> forall q :: !Bridges(s, first, q))
  }

  /** `cut` is the retention cut the walk's first row follows, or zero. */
  ghost predicate RetentionBridge(s: Stream, r: Row, cut: int) {
    cut != 0 ==> Bridges(s, r.seqno, cut) && s.anchors[cut].hash == r.prevHash
  }

  /** What came before the first row walked is accounted for. */
  ghost predicate FrontOk(s: Stream, from: int, r: Row) {
    && (forall q :: q != 0 && Bridges(s, r.seqno, q) && q == r.seqno - 1 ==> s.anchors[q].hash == r.prevHash)
    && (from == 0 && r.prevHash != GENESIS ==>
          exists q :: q != 0 && Bridges(s, r.seqno, q) && s.anchors[q].hash == r.prevHash)
  }

  // --- what is checked of each row -----------------------------------------------

  predicate ContentOk(c: Crypto, r: Row) {
    r.scrubbed || ContentHash(c, r.diff, r.payload, r.meta) == r.contentHash
  }

  predicate CheckpointAt(anchors: map<int, Anchor>, q: int) {
    q in anchors && anchors[q].kind.Checkpoint?
  }

  predicate SignatureOk(check: Checker, a: Anchor) {
    check.None? || a.signature == [] || check.value(a.hash, a.signature)
  }

  /** The row hashes to what it claims, and its content to its digest. */
  predicate RowHashed(c: Crypto, r: Row) {
    r.hash == ChainHash(c, r.prevHash, r.facts, r.contentHash) && ContentOk(c, r)
  }

  /** A checkpoint on the row recorded the hash the row has, validly signed. */
  predicate Vouched(check: Checker, anchors: map<int, Anchor>, r: Row) {
    CheckpointAt(anchors, r.seqno) ==> anchors[r.seqno].hash == r.hash && SignatureOk(check, anchors[r.seqno])
  }

  predicate RowOk(c: Crypto, check: Checker, anchors: map<int, Anchor>, r: Row) {
    RowHashed(c, r) && Vouched(check, anchors, r)
  }

  ghost predicate Linked(walk: seq<Row>) {
    forall i :: 0 < i < |walk| ==> walk[i].prevHash == walk[i - 1].hash
  }

  /** No checkpoint in range vouches for a row past the last one walked. */
  ghost predicate HeadOk(anchors: map<int, Anchor>, from: int, to: int, last: int) {
    0 <= last && forall q :: CheckpointAt(anchors, q) && InRange(q, from, to) ==> q <= last
  }

  /** The walk from `from` to `to` finds nothing wrong. */
  ghost predicate Accepts(c: Crypto, check: Checker, s: Stream, from: int, to: int) {
    var walk := Window(s.rows, from, to);
    && (walk != [] ==> FrontOk(s, from, walk[0]))
    && Linked(walk)
    && (forall r :: r in walk ==> RowOk(c, check, s.anchors, r))
    && HeadOk(s.anchors, from, to, LastSeq(walk))
  }

  /** Why row r, walked after a row whose hash is `prev`, is refused. */
  function RowReason(c: Crypto, check: Checker, anchors: map<int, Anchor>, prev: Digest, r: Row): Reason {
    if r.prevHash != prev then Unlinked
    else if r.hash != ChainHash(c, r.prevHash, r.facts, r.contentHash) then Modified
    else if !ContentOk(c, r) then ContentChanged
    else if CheckpointAt(anchors, r.seqno) && anchors[r.seqno].hash != r.hash then CheckpointMismatch
    else if CheckpointAt(anchors, r.seqno) && !SignatureOk(check, anchors[r.seqno]) then BadSignature
    else Intact
  }

  function CountScrubbed(rows: seq<Row>): nat {
    if rows == [] then 0
    else CountScrubbed(rows[..|rows| - 1]) + if rows[|rows| - 1].scrubbed then 1 else 0
  }

  function CountAnchored(anchors: map<int, Anchor>, rows: seq<Row>): nat {
    if rows == [] then 0
    else CountAnchored(anchors, rows[..|rows| - 1]) + if CheckpointAt(anchors, rows[|rows| - 1].seqno) then 1 else 0
  }

  function CountUnsigned(anchors: map<int, Anchor>, rows: seq<Row>): nat {
    if rows == [] then 0
    else
      var q := rows[|rows| - 1].seqno;
      CountUnsigned(anchors, rows[..|rows| - 1])
      + if CheckpointAt(anchors, q) && anchors[q].signature == [] then 1 else 0
  }

  /** The counts are of rows: those scrubbed, those under a checkpoint, and of these those
      that nobody signed. */
  lemma {:induction false} ScrubbedAreCounted(rows: seq<Row>)
    ensures CountScrubbed(rows) == |set i | 0 <= i < |rows| && rows[i].scrubbed|
  {
    if rows != [] {
      var n := |rows| - 1;
      var before := set i | 0 <= i < n && rows[..n][i].scrubbed;
      ScrubbedAreCounted(rows[..n]);
      assert (set i | 0 <= i < |rows| && rows[i].scrubbed) == before + if rows[n].scrubbed then {n} else {};
    }
  }

  lemma {:induction false} CheckpointsAreCounted(anchors: map<int, Anchor>, rows: seq<Row>)
    ensures CountAnchored(anchors, rows)
         == |set i | 0 <= i < |rows| && rows[i].seqno in anchors && anchors[rows[i].seqno].kind.Checkpoint?|
  {
    if rows != [] {
      var n := |rows| - 1;
      var before := set i | 0 <= i < n && rows[..n][i].seqno in anchors && anchors[rows[..n][i].seqno].kind.Checkpoint?;
      var q := rows[n].seqno;
      CheckpointsAreCounted(anchors, rows[..n]);
      assert (set i | 0 <= i < |rows| && rows[i].seqno in anchors && anchors[rows[i].seqno].kind.Checkpoint?)
          == before + if q in anchors && anchors[q].kind.Checkpoint? then {n} else {};
    }
  }

  lemma {:induction false} UnsignedAreCounted(anchors: map<int, Anchor>, rows: seq<Row>)
    ensures CountUnsigned(anchors, rows) == |UnsignedIn(anchors, rows)|
  {
    if rows != [] {
      var n := |rows| - 1;
      UnsignedAreCounted(anchors, rows[..n]);
      OneMoreUnsigned(anchors, rows, n);
    }
  }

  function UnsignedIn(anchors: map<int, Anchor>, rows: seq<Row>): set<int> {
    set i | 0 <= i < |rows| && Unsigned(anchors, rows[i].seqno)
  }

  lemma OneMoreUnsigned(anchors: map<int, Anchor>, rows: seq<Row>, n: nat)
    requires n + 1 == |rows|
    ensures UnsignedIn(anchors, rows)
         == UnsignedIn(anchors, rows[..n]) + if Unsigned(anchors, rows[n].seqno) then {n} else {}
    ensures n !in UnsignedIn(anchors, rows[..n])
  {
    assert forall i :: 0 <= i < n ==> rows[..n][i] == rows[i];
  }

  predicate Unsigned(anchors: map<int, Anchor>, q: int) {
    q in anchors && anchors[q].kind.Checkpoint? && anchors[q].signature == []
  }

  /** What a walk reports of the rows it found in order. */
  ghost predicate Tallies(check: Checker, s: Stream, walk: seq<Row>, res: VerifyResult) {
    && res.checked == |walk| && res.lastSeq == LastSeq(walk) && res.reason == Intact && res.brokenAt == 0
    && res.firstSeq == (if walk == [] then 0 else walk[0].seqno)
    && res.scrubbed == CountScrubbed(walk) && res.anchors == CountAnchored(s.anchors, walk)
    && res.unsigned == (if check.None? then 0 else CountUnsigned(s.anchors, walk))
    && (walk == [] ==> res.retentionCut == 0)
    && (walk != [] ==> RetentionBridge(s, walk[0], res.retentionCut))
  }

  /** The rows before index n of the walk are all in order. */
  ghost predicate CleanPrefix(c: Crypto, check: Checker, s: Stream, from: int, walk: seq<Row>, n: nat)
    requires n <= |walk|
  {
    && (n > 0 ==> FrontOk(s, from, walk[0]))
    && Linked(walk[..n])
    && forall i :: 0 <= i < n ==> RowOk(c, check, s.anchors, walk[i])
  }

  /** A refusal names the first thing wrong and where it is. */
  ghost predicate FirstFault(c: Crypto, check: Checker, s: Stream, from: int, to: int, res: VerifyResult) {
    var walk := Window(s.rows, from, to);
    var n := res.checked;
    && n <= |walk|
    && CleanPrefix(c, check, s, from, walk, n)
    && res.lastSeq == LastSeq(walk[..n])
    && match res.reason
       case Intact => false
       case HeadRemoved => n == |walk| && res.brokenAt == res.lastSeq + 1 && !HeadOk(s.anchors, from, to, LastSeq(walk))
       case NotAfterCut => n == 0 < |walk| && res.brokenAt == walk[0].seqno && !FrontOk(s, from, walk[0])
       case NoPredecessor => n == 0 < |walk| && res.brokenAt == walk[0].seqno && !FrontOk(s, from, walk[0])
       case other =>
         && n < |walk| && res.brokenAt == walk[n].seqno
         && RowReason(c, check, s.anchors, if n == 0 then walk[0].prevHash else walk[n - 1].hash, walk[n]) == other
  }
}
