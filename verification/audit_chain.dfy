/** The audit stream as the database holds it, and what each operation on it
    means. Every transaction is one step. */
module AuditChain {
  import opened Hashing

  /** An event as a writer has prepared it: id and time are already drawn. */
  datatype Event = Event(facts: Facts, diff: Bytes, payload: Bytes, meta: Bytes,
                         actorDisplay: Bytes, targetDisplay: Bytes)

  datatype Row = Row(seqno: int, facts: Facts, actorDisplay: Bytes, targetDisplay: Bytes,
                     diff: Bytes, payload: Bytes, meta: Bytes,
                     contentHash: Digest, prevHash: Digest, hash: Digest, legalHold: bool, scrubbed: bool)

  datatype AnchorKind = Checkpoint | RetentionCut

  /** An empty signature is an anchor nobody signed. */
  datatype Anchor = Anchor(hash: Digest, kind: AnchorKind, signature: Bytes)

  /** Rows in sequence order, anchors by sequence number, and the next number
      the identity column will hand out. */
  datatype Stream = Stream(rows: seq<Row>, anchors: map<int, Anchor>, nextSeq: int)

  const EMPTY := Stream([], map[], 1)

  ghost predicate Sorted(rows: seq<Row>) {
    forall i, j :: 0 <= i < j < |rows| ==> rows[i].seqno < rows[j].seqno
  }

  /** The part of a row its hash covers. */
  predicate SameHashed(a: Row, b: Row) {
    a.facts == b.facts && a.contentHash == b.contentHash && a.prevHash == b.prevHash && a.hash == b.hash
  }

  // --- append ---------------------------------------------------------------

  function HeadHash(rows: seq<Row>): Digest {
    if rows == [] then GENESIS else rows[|rows| - 1].hash
  }

  function NewRow(c: Crypto, seqno: int, prev: Digest, e: Event): Row {
    var content := ContentHash(c, e.diff, e.payload, e.meta);
    Row(seqno, e.facts, e.actorDisplay, e.targetDisplay, e.diff, e.payload, e.meta,
        content, prev, ChainHash(c, prev, e.facts, content), false, false)
  }

  /** The rows a batch becomes when it is appended after `prev`. */
  function BatchRows(c: Crypto, seqno: int, prev: Digest, events: seq<Event>): (rows: seq<Row>)
    ensures |rows| == |events|
    decreases |events|
  {
    if events == [] then []
    else
      var r := NewRow(c, seqno, prev, events[0]);
      [r] + BatchRows(c, seqno + 1, r.hash, events[1..])
  }

  /** A row is the event it was made from: what happened, to whom, by whom, and the content;
      nobody holds it and nothing of it is gone. */
  predicate Carries(r: Row, e: Event) {
    && r.facts == e.facts && r.diff == e.diff && r.payload == e.payload && r.meta == e.meta
    && r.actorDisplay == e.actorDisplay && r.targetDisplay == e.targetDisplay
    && !r.legalHold && !r.scrubbed
  }

  /** A batch is its events, in order, under consecutive numbers. */
  lemma {:induction false} BatchCarriesItsEvents(c: Crypto, seqno: int, prev: Digest, events: seq<Event>)
    ensures var b := BatchRows(c, seqno, prev, events);
            forall i :: 0 <= i < |events| ==> Carries(b[i], events[i]) && b[i].seqno == seqno + i
    decreases |events|
  {
    if events != [] {
      var r := NewRow(c, seqno, prev, events[0]);
      BatchCarriesItsEvents(c, seqno + 1, r.hash, events[1..]);
      var rest := BatchRows(c, seqno + 1, r.hash, events[1..]);
      forall i | 0 <= i < |events| ensures Carries(([r] + rest)[i], events[i]) && ([r] + rest)[i].seqno == seqno + i {
        if i > 0 {
          assert Carries(rest[i - 1], events[1..][i - 1]);
        }
      }
    }
  }

  function Appended(c: Crypto, s: Stream, events: seq<Event>): Stream {
    s.(rows := s.rows + BatchRows(c, s.nextSeq, HeadHash(s.rows), events), nextSeq := s.nextSeq + |events|)
  }

  /** A refused append leaves no row, but the numbers it drew are used up. */
  function Refused(s: Stream, used: nat): Stream {
    s.(nextSeq := s.nextSeq + used)
  }

  // --- anchors and retention --------------------------------------------------

  function Anchored(s: Stream, signature: Bytes): Stream {
    if s.rows == [] then s
    else
      var head := s.rows[|s.rows| - 1];
      if head.seqno in s.anchors then s
      else s.(anchors := s.anchors[head.seqno := Anchor(head.hash, Checkpoint, signature)])
  }

  predicate NoneHeld(rows: seq<Row>) {
    forall j :: 0 <= j < |rows| ==> !rows[j].legalHold
  }

  /** The index of the newest row a cut may remove: older than `before` and
      below every legal hold. -1 when there is none. */
  function CutIndex(rows: seq<Row>, before: int): (i: int)
    ensures -1 <= i < |rows|
    ensures i >= 0 ==> rows[i].facts.ts < before && forall j :: 0 <= j <= i ==> !rows[j].legalHold
    decreases |rows|
  {
    if rows == [] then -1
    else
      var n := |rows| - 1;
      var i := CutIndex(rows[..n], before);
      if rows[n].facts.ts < before && NoneHeld(rows) then n else i
  }

  /** Every newer row that is old enough has a hold at or below it. */
  lemma {:induction false} CutIndexIsNewest(rows: seq<Row>, before: int, j: nat)
    requires CutIndex(rows, before) < j < |rows| && rows[j].facts.ts < before
    ensures exists k :: 0 <= k <= j && rows[k].legalHold
  {
    var n := |rows| - 1;
    if j < n {
      CutIndexIsNewest(rows[..n], before, j);
    }
  }

  /** The upsert a cut makes: an anchor already at that number keeps its kind
      and signature, only its hash is replaced. */
  function CutAnchors(anchors: map<int, Anchor>, seqno: int, hash: Digest): map<int, Anchor> {
    anchors[seqno := if seqno in anchors then anchors[seqno].(hash := hash) else Anchor(hash, RetentionCut, [])]
  }

  function CutBefore(s: Stream, before: int): Stream {
    var i := CutIndex(s.rows, before);
    if i < 0 then s
    else s.(rows := s.rows[i + 1..], anchors := CutAnchors(s.anchors, s.rows[i].seqno, s.rows[i].hash))
  }

  /** A cut leaves the rows above the one it falls on, puts that row's hash into the anchor
      there, whose kind and signature it keeps, and leaves all other anchors alone. */
  lemma WhatACutLeaves(s: Stream, before: int)
    requires CutIndex(s.rows, before) >= 0
    ensures var i := CutIndex(s.rows, before);
            var t, q := CutBefore(s, before), s.rows[i].seqno;
            && t.rows == s.rows[i + 1..] && t.nextSeq == s.nextSeq
            && t.anchors.Keys == s.anchors.Keys + {q} && t.anchors[q].hash == s.rows[i].hash
            && (q in s.anchors ==> t.anchors[q].kind == s.anchors[q].kind
                                   && t.anchors[q].signature == s.anchors[q].signature)
            && (q !in s.anchors ==> t.anchors[q].kind == RetentionCut && t.anchors[q].signature == [])
            && forall p :: p in s.anchors && p != q ==> t.anchors[p] == s.anchors[p]
  {
  }

  // --- lawful edits of a row ----------------------------------------------------

  function ScrubRow(r: Row, org: Bytes, before: int): Row {
    if r.facts.org == org && r.facts.ts < before && !r.legalHold && !r.scrubbed && (r.diff != [] || r.payload != [])
    then r.(diff := [], payload := [], scrubbed := true)
    else r
  }

  function HoldRow(r: Row, org: Bytes, from: int, to: int, hold: bool): Row {
    if r.facts.org == org && from <= r.facts.ts <= to then r.(legalHold := hold) else r
  }

  function EraseRow(r: Row, user: Bytes, pseudonym: Bytes): Row {
    r.(actorDisplay := if r.facts.actorId == user then pseudonym else r.actorDisplay,
       targetDisplay := if r.facts.targetId == user then pseudonym else r.targetDisplay)
  }

  /** The three row edits. */
  datatype Edit =
    | ScrubOrg(org: Bytes, before: int)
    | SetHold(org: Bytes, from: int, to: int, hold: bool)
    | EraseName(user: Bytes, pseudonym: Bytes)

  function EditRow(e: Edit, r: Row): (r': Row)
    ensures SameHashed(r, r') && r'.seqno == r.seqno && r'.meta == r.meta
    ensures r.scrubbed ==> r'.scrubbed
    ensures !r'.scrubbed ==> !r.scrubbed && r'.diff == r.diff && r'.payload == r.payload
  {
    match e
    case ScrubOrg(org, before) => ScrubRow(r, org, before)
    case SetHold(org, from, to, hold) => HoldRow(r, org, from, to, hold)
    case EraseName(user, pseudonym) => EraseRow(r, user, pseudonym)
  }

  function EditRows(e: Edit, rows: seq<Row>): (r: seq<Row>)
    ensures |r| == |rows| && forall i :: 0 <= i < |rows| ==> r[i] == EditRow(e, rows[i])
  {
    seq(|rows|, i requires 0 <= i < |rows| => EditRow(e, rows[i]))
  }

  function Edited(e: Edit, s: Stream): Stream {
    s.(rows := EditRows(e, s.rows))
  }
}
