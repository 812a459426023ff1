/** The writer goroutine's half of the audit pipeline: a batch goes to the chain,
    or to disk behind everything already there, or is counted as lost. */
module AuditWriter {
  import opened Collections
  import opened SegmentNames
  import opened AuditSpool
  import opened AuditGap

  /** A row of the chain, by what this writer put there. `spooled` marks an event
      that waited on disk; its acceptance time goes into the row's content. */
  datatype Record = Logged(item: Item, spooled: bool) | GapMarker(gap: Gap)

  function Rows(items: seq<Item>, spooled: bool): (rows: seq<Record>)
    ensures |rows| == |items| && forall i :: 0 <= i < |items| ==> rows[i] == Logged(items[i], spooled)
  {
    seq(|items|, i requires 0 <= i < |items| => Logged(items[i], spooled))
  }

  /** The chain without its gap markers. */
  function EventsIn(chain: seq<Record>): seq<Item> {
    if chain == [] then []
    else EventsIn(chain[..|chain| - 1]) + match chain[|chain| - 1]
                                          case Logged(item, _) => [item]
                                          case GapMarker(_) => []
  }

  /** How many events the markers in the chain account for. */
  function MarkedIn(chain: seq<Record>): nat {
    if chain == [] then 0
    else MarkedIn(chain[..|chain| - 1]) + match chain[|chain| - 1]
                                          case Logged(_, _) => 0
                                          case GapMarker(g) => g.count
  }

  lemma {:induction false} ChainConcat(a: seq<Record>, b: seq<Record>)
    ensures EventsIn(a + b) == EventsIn(a) + EventsIn(b)
    ensures MarkedIn(a + b) == MarkedIn(a) + MarkedIn(b)
    decreases |b|
  {
    if b == [] {
      assert a + b == a;
    } else {
      var n := |b| - 1;
      assert (a + b)[..|a + b| - 1] == a + b[..n];
      ChainConcat(a, b[..n]);
    }
  }

  lemma {:induction false} RowsAreTheirEvents(items: seq<Item>, spooled: bool)
    ensures EventsIn(Rows(items, spooled)) == items && MarkedIn(Rows(items, spooled)) == 0
    decreases |items|
  {
    if items != [] {
      var n := |items| - 1;
      assert Rows(items, spooled)[..n] == Rows(items[..n], spooled);
      RowsAreTheirEvents(items[..n], spooled);
    }
  }

  /** What reports a gap, if there is one. */
  function Marker(gap: Gap): seq<Record> {
    if gap.count > 0 then [GapMarker(gap)] else []
  }

  /** What one committed append adds: the unreported gap first, then its events. */
  function Committed(gap: Gap, items: seq<Item>, spooled: bool): seq<Record> {
    Marker(gap) + Rows(items, spooled)
  }

  lemma MarkerCounts(gap: Gap)
    ensures EventsIn(Marker(gap)) == [] && MarkedIn(Marker(gap)) == gap.count
  {
    assert Marker(gap) != [] ==> Marker(gap)[..0] == [];
  }

  lemma CommittedAdds(chain: seq<Record>, gap: Gap, items: seq<Item>, spooled: bool)
    ensures EventsIn(chain + Committed(gap, items, spooled)) == EventsIn(chain) + items
    ensures MarkedIn(chain + Committed(gap, items, spooled)) == MarkedIn(chain) + gap.count
  {
    ChainConcat(chain, Committed(gap, items, spooled));
    ChainConcat(Marker(gap), Rows(items, spooled));
    RowsAreTheirEvents(items, spooled);
    MarkerCounts(gap);
    assert [] + items == items;
  }

  /** The chain ends in these events, one row each, marked as having waited on disk or not. */
  ghost predicate EndsWith(chain: seq<Record>, items: seq<Item>, spooled: bool) {
    |chain| >= |items| && forall i :: 0 <= i < |items| ==> chain[|chain| - |items| + i] == Logged(items[i], spooled)
  }

  /** A gap there is to report comes first, by its own marker, and the events last. */
  lemma CommittedIs(chain: seq<Record>, gap: Gap, items: seq<Item>, spooled: bool)
    ensures var after := chain + Committed(gap, items, spooled);
            && EndsWith(after, items, spooled) && |after| == |chain| + |items| + (if gap.count > 0 then 1 else 0)
            && (gap.count > 0 ==> after[|chain|] == GapMarker(gap))
  {
  }

  /** What a replay came to: how many segments it moved from disk into the chain, and
      whether it then left the next one in both. */
  datatype Replayed = Replayed(moved: nat, again: bool)

  const NOTHING := Replayed(0, false)

  ghost predicate AreOn(disk: Directory, names: seq<Segment>) {
    forall f :: f in names ==> f in disk
  }

  /** The segment a replay left in both places, which is the oldest one still on disk. */
  ghost function LeftTwice(disk: Directory, names: seq<Segment>, r: Replayed): seq<Item> {
    if r.again && r.moved < |names| && names[r.moved] in disk then disk[names[r.moved]] else []
  }

  /** From a chain and a spool to the chain and the spool after a replay: the segments
      moved, in order, and the one it left in both, if it did. */
  ghost predicate Did(r: Replayed, chain: seq<Item>, disk: Directory, names: seq<Segment>,
                      chain': seq<Item>, held': seq<Item>, names': seq<Segment>)
  {
    && AreOn(disk, names) && r.moved <= |names| && names' == names[r.moved..]
    && (r.again ==> r.moved < |names| && disk[names[r.moved]] != [])
    && chain' == chain + Waiting(disk, names[..r.moved]) + LeftTwice(disk, names, r)
    && held' == Waiting(disk, names')
  }

  /** `after` is what the chain and the spool held, in order, with nothing lost, nothing
      moved, and exactly the segment the replay left in both places written twice. */
  ghost predicate Kept(r: Replayed, chain: seq<Item>, disk: Directory, names: seq<Segment>, after: seq<Item>) {
    && AreOn(disk, names) && r.moved <= |names|
    && (r.again ==> r.moved < |names| && disk[names[r.moved]] != [])
    && after == chain + Waiting(disk, names[..r.moved]) + LeftTwice(disk, names, r) + Waiting(disk, names[r.moved..])
    && (!r.again ==> after == chain + Waiting(disk, names))
  }

  class Writer {
    /** Null unless events the database refuses go to disk. */
    const spool: Spool?
    var chain: seq<Record>
    var gap: Gap
    var droppedTotal: nat
    /** The environment's answers to come: to an append, or to deleting a file.
        When they run out, everything is refused. */
    var answers: seq<bool>
    /** What the markers already in the chain at the start account for. */
    ghost const markedBefore: nat
    /** What earlier processes counted as lost. */
    ghost const lostBefore: nat
    /** Everything handed to `Write` and not counted as lost, in order. */
    ghost var kept: seq<Item>

    ghost predicate Valid()
      reads this, spool
    {
      && (spool != null ==> spool.Valid())
      && EventsIn(chain) + OnDisk() == kept
      && Accounted()
    }

    /** Every discarded event is in a marker in the chain or in the unreported gap. */
    ghost predicate Accounted()
      reads this
    {
      WellFormed(gap) && markedBefore + droppedTotal == MarkedIn(chain) + gap.count
    }

    ghost function OnDisk(): seq<Item>
      reads this, spool
    {
      if spool == null then [] else spool.held
    }

    ghost function Disk(): Directory
      reads this, spool
    {
      if spool == null then map[] else spool.disk
    }

    ghost function Listed(): seq<Segment>
      reads this, spool
    {
      if spool == null then [] else spool.names
    }

    /** A writer starts over the chain and the directory as an earlier process left
        them. */
    constructor (spool: Spool?, chain: seq<Record>, answers: seq<bool>, ghost lostBefore: nat)
      requires spool != null ==> spool.Valid()
      ensures Valid() && this.spool == spool && this.chain == chain && this.answers == answers
      ensures droppedTotal == 0 && gap == NO_GAP && this.lostBefore == lostBefore
      ensures kept == EventsIn(chain) + if spool == null then [] else spool.held
    {
      this.spool, this.chain, this.answers := spool, chain, answers;
      gap, droppedTotal, markedBefore := NO_GAP, 0, MarkedIn(chain);
      this.lostBefore := lostBefore;
      kept := EventsIn(chain) + if spool == null then [] else spool.held;
    }

    method Answer() returns (yes: bool)
      modifies this`answers
      ensures old(answers) == [] ==> !yes && answers == []
      ensures old(answers) != [] ==> yes == old(answers)[0] && answers == old(answers)[1..]
    {
      if answers == [] {
        return false;
      }
      yes, answers := answers[0], answers[1..];
    }

    /** Records events that will never reach the chain. */
    method Lose(items: seq<Item>)
      requires WellFormed(gap) && forall i :: i in items ==> Accepted(i)
      modifies this`gap, this`droppedTotal
      ensures gap == AddGap(old(gap), BatchGap(items)) && WellFormed(gap)
      ensures gap.count == old(gap.count) + |items| && droppedTotal == old(droppedTotal) + |items|
      ensures forall i :: i in items || Covers(old(gap), i) ==> Covers(gap, i)
    {
      var g := GapOf(items);
      BatchGapIsExact(items);
      forall i | i in items || Covers(gap, i) ensures Covers(AddGap(gap, g), i) {
        AddGapCovers(gap, g, i);
      }
      droppedTotal := droppedTotal + g.count;
      gap := AddGap(gap, g);
    }

    /** One transaction. The unreported gap goes in ahead of the events, and comes
        back if the transaction fails. */
    method Append(items: seq<Item>, spooled: bool) returns (ok: bool)
      requires WellFormed(gap)
      modifies this`chain, this`gap, this`answers
      ensures ok <==> old(answers) != [] && old(answers)[0]
      ensures answers == if old(answers) == [] then [] else old(answers)[1..]
      ensures ok ==> chain == old(chain) + Committed(old(gap), items, spooled) && gap == NO_GAP
      ensures ok ==> EndsWith(chain, items, spooled)
      ensures EventsIn(chain) == if ok then old(EventsIn(chain)) + items else old(EventsIn(chain))
      ensures MarkedIn(chain) + gap.count == old(MarkedIn(chain) + gap.count)
      ensures !ok ==> chain == old(chain) && gap == old(gap)
    {
      var carried := gap;
      gap := NO_GAP;
      var rows := Rows(items, spooled);
      if carried.count > 0 {
        rows := [GapMarker(carried)] + rows;
      }
      assert rows == Committed(carried, items, spooled);
      CommittedAdds(chain, carried, items, spooled);
      CommittedIs(chain, carried, items, spooled);
      ok := Answer();
      if ok {
        chain := chain + rows;
      } else {
        gap := AddGap(gap, carried);
      }
    }

    /** Moves the segments from disk to the chain, one at a time and in order. Deletion
        follows the commit, so one that fails leaves its segment in both places, at the
        head of the spool, and ends the replay. */
    method Replay() returns (ok: bool, ghost r: Replayed)
      requires Valid() && spool != null
      modifies this`chain, this`gap, this`answers, this`kept, spool
      ensures Valid() && droppedTotal == old(droppedTotal)
      ensures ok ==> OnDisk() == [] && !r.again && AllYes(old(answers), answers)
      ensures !ok ==> SomeNo(old(answers), answers)
      ensures Did(r, old(EventsIn(chain)), old(spool.disk), old(spool.names), EventsIn(chain), spool.held, spool.names)
      ensures Kept(r, old(EventsIn(chain)), old(spool.disk), old(spool.names), kept)
    {
      AllYesSoFar(answers);
      ghost var written, disk, names := EventsIn(chain), spool.disk, spool.names;
      r := NOTHING;
      DidNothing(written, disk, names);
      while true
        invariant Valid() && droppedTotal == old(droppedTotal)
        invariant AllYes(old(answers), answers)
        invariant !r.again && Did(r, written, disk, names, EventsIn(chain), spool.held, spool.names)
        invariant SameFiles(disk, spool.disk, spool.names)
        decreases |spool.names|
      {
        var oldest := spool.Oldest();
        DidIsKept(r, written, disk, names, EventsIn(chain), spool.held, spool.names);
        if oldest.None? {
          NothingListed(spool);
          return true, r;
        }
        ghost var before, done := answers, EventsIn(chain);
        ghost var again;
        ok, again := ReplayOldest(oldest.value.0, oldest.value.1);
        AnswersChain(old(answers), before, answers);
        r := NextReplayed(r, ok, again);
        if !ok {
          DidStop(NOTHING.(moved := r.moved), again, written, disk, names, done, oldest.value.1, EventsIn(chain),
                  spool.held, spool.names);
          DidIsKept(r, written, disk, names, EventsIn(chain), spool.held, spool.names);
          return;
        }
        DidOneMore(r.moved - 1, written, disk, names, done, oldest.value.1, EventsIn(chain), spool.held, spool.names);
      }
    }

    /** The oldest segment into the chain and off the disk. One that cannot be deleted is
        in both, and nothing else is. */
    method ReplayOldest(name: Segment, items: seq<Item>) returns (ok: bool, ghost again: bool)
      requires Valid() && spool != null && spool.names != [] && name == spool.names[0]
      requires name in spool.disk && items == spool.disk[name] && items <= spool.held
      modifies this`chain, this`gap, this`answers, this`kept, spool
      ensures Valid() && droppedTotal == old(droppedTotal)
      ensures ok ==> !again && AllYes(old(answers), answers)
      ensures ok ==> EventsIn(chain) == old(EventsIn(chain)) + items && old(spool.held) == items + spool.held
      ensures ok ==> spool.names == old(spool.names)[1..] && spool.disk == old(spool.disk) - {name}
      ensures !ok ==> SomeNo(old(answers), answers)
      ensures !ok ==> spool.held == old(spool.held) && spool.names == old(spool.names) && spool.disk == old(spool.disk)
      ensures !ok ==> EventsIn(chain) == if again then old(EventsIn(chain)) + items else old(EventsIn(chain))
      ensures again ==> items != []
    {
      ghost var written, rest := EventsIn(chain), spool.held[|items|..];
      ok := CommitSegment(items);
      if !ok {
        return false, false;
      }
      assert EventsIn(chain) == written + items && spool.held == items + rest;
      ghost var before := answers;
      ok := DropSegment(name, items, rest);
      AnswersChain(old(answers), before, answers);
      again := !ok && items != [];
      kept := EventsIn(chain) + spool.held;
    }

    method CommitSegment(items: seq<Item>) returns (ok: bool)
      requires Accounted()
      modifies this`chain, this`gap, this`answers
      ensures Accounted()
      ensures if ok then EventsIn(chain) == old(EventsIn(chain)) + items && AllYes(old(answers), answers)
              else EventsIn(chain) == old(EventsIn(chain)) && SomeNo(old(answers), answers)
      ensures ok ==> EndsWith(chain, items, true)
    {
      AllYesSoFar(answers);
      ok := true;
      if items != [] {
        ok := Append(items, true);
        OneAnswer(old(answers), answers, ok);
      }
    }

    method DropSegment(name: Segment, items: seq<Item>, ghost rest: seq<Item>) returns (ok: bool)
      requires spool != null && spool.Valid() && spool.names != [] && name == spool.names[0]
      requires name in spool.disk && items == spool.disk[name] && spool.held == items + rest
      modifies this`answers, spool
      ensures spool.Valid()
      ensures if ok then spool.held == rest && AllYes(old(answers), answers)
              else spool.held == items + rest && SomeNo(old(answers), answers)
      ensures if ok then spool.names == old(spool.names)[1..] && spool.disk == old(spool.disk) - {name}
              else spool.names == old(spool.names) && spool.disk == old(spool.disk)
    {
      var deletable := Answer();
      OneAnswer(old(answers), answers, deletable);
      ok := spool.Remove(name, deletable);
      if ok {
        SamePrefix(items, rest, spool.held);
      }
    }

    /** A refused batch joins the spool. If the disk gives out part-way, the segments
        written by then stay, and every event of the batch counts as lost. */
    method Hold(batch: seq<Item>, now: nat, room: nat) returns (lost: bool, ghost stored: nat)
      requires Valid() && spool != null && forall i :: i in batch ==> Accepted(i)
      modifies this`gap, this`droppedTotal, this`kept, spool
      ensures Valid() && stored <= |batch| && kept == old(kept) + batch[..stored]
      ensures lost <==> stored < |batch|
      ensures lost ==> FullSegments(stored)
      ensures droppedTotal == old(droppedTotal) + if lost then |batch| else 0
      ensures lost ==> forall i :: i in batch ==> Covers(gap, i)
      ensures forall i :: Covers(old(gap), i) ==> Covers(gap, i)
      ensures SameHead(old(spool.names), spool.names)
    {
      if batch == [] {
        assert kept + batch[..0] == kept;
        return false, 0;
      }
      ghost var held := spool.held;
      var ok, written := spool.Write(batch, now, room);
      stored, lost := written, !ok;
      Associates(EventsIn(chain), held, batch[..written]);
      kept := kept + batch[..written];
      if lost {
        Lose(batch);
      }
    }

    /** Puts a batch in the chain, replaying whatever is on disk first. Once anything
        is on disk, what follows goes there too until it has drained.
        `base` is what was kept before this batch: unchanged, unless a segment could
        not be deleted after its replay; that one, still the oldest on disk, is in it
        twice. */
    method Write(batch: seq<Item>, now: nat, room: nat)
      returns (ok: bool, lost: bool, ghost base: seq<Item>, ghost stored: nat, ghost r: Replayed)
      requires Valid() && forall i :: i in batch ==> Accepted(i)
      modifies this`chain, this`gap, this`answers, this`droppedTotal, this`kept, spool
      ensures Valid() && stored <= |batch| && kept == base + batch[..stored]
      ensures Kept(r, old(EventsIn(chain)), old(Disk()), old(Listed()), base)
      ensures !r.again ==> base == old(kept)
      ensures r.again ==> r.moved < |old(Listed())| && Listed() != [] && Listed()[0] == old(Listed())[r.moved]
      ensures ok ==> stored == |batch| && OnDisk() == [] && !lost && !r.again && AllYes(old(answers), answers)
      ensures !ok ==> SomeNo(old(answers), answers)
      ensures spool == null ==> !lost && r == NOTHING && (!ok ==> stored == 0)
      ensures spool != null ==> (lost <==> stored < |batch|) && (lost ==> FullSegments(stored))
      ensures droppedTotal == old(droppedTotal) + if lost then |batch| else 0
      ensures lost ==> forall i :: i in batch ==> Covers(gap, i)
      ensures lost && |batch| <= SEGMENT_MAX ==> stored == 0
    {
      ok, r := Drain();
      base := kept;
      if !ok {
        lost, stored := Hold(batch, now, room);
        return;
      }
      ghost var before := answers;
      ok, lost, stored := AppendOrHold(batch, now, room);
      AnswersChain(old(answers), before, answers);
    }

    /** Replays the spool if there is one and it holds anything. */
    method Drain() returns (ok: bool, ghost r: Replayed)
      requires Valid()
      modifies this`chain, this`gap, this`answers, this`kept, spool
      ensures Valid() && droppedTotal == old(droppedTotal)
      ensures ok ==> OnDisk() == [] && !r.again && AllYes(old(answers), answers)
      ensures !ok ==> spool != null && SomeNo(old(answers), answers)
      ensures spool == null ==> r == NOTHING
      ensures r.again ==> r.moved < |old(Listed())| && Listed() != [] && Listed()[0] == old(Listed())[r.moved]
      ensures Kept(r, old(EventsIn(chain)), old(Disk()), old(Listed()), kept)
      ensures !r.again ==> kept == old(kept)
    {
      AllYesSoFar(answers);
      DidNothing(EventsIn(chain), Disk(), Listed());
      DidIsKept(NOTHING, EventsIn(chain), Disk(), Listed(), EventsIn(chain), OnDisk(), Listed());
      if spool == null {
        return true, NOTHING;
      }
      var empty := spool.Empty();
      if empty {
        return true, NOTHING;
      }
      ok, r := Replay();
    }

    /** Appends a batch nothing on disk is ahead of; one that is refused goes to disk,
        or stays with the caller when there is no spool. */
    method AppendOrHold(batch: seq<Item>, now: nat, room: nat) returns (ok: bool, lost: bool, ghost stored: nat)
      requires Valid() && OnDisk() == [] && forall i :: i in batch ==> Accepted(i)
      modifies this`chain, this`gap, this`answers, this`droppedTotal, this`kept, spool
      ensures Valid() && stored <= |batch| && kept == old(kept) + batch[..stored]
      ensures ok ==> stored == |batch| && OnDisk() == [] && !lost && AllYes(old(answers), answers)
      ensures !ok ==> SomeNo(old(answers), answers)
      ensures spool == null ==> !lost && (!ok ==> stored == 0)
      ensures spool != null ==> (lost <==> stored < |batch|) && (lost ==> FullSegments(stored))
      ensures droppedTotal == old(droppedTotal) + if lost then |batch| else 0
      ensures lost ==> forall i :: i in batch ==> Covers(gap, i)
    {
      AllYesSoFar(answers);
      assert kept + batch[..0] == kept && batch[..|batch|] == batch;
      if batch == [] {
        return true, false, 0;
      }
      ok := AppendNow(batch);
      lost, stored := false, 0;
      if ok {
        stored := |batch|;
      } else if spool != null {
        lost, stored := Hold(batch, now, room);
      }
    }

    /** A batch that nothing on disk is ahead of. */
    method AppendNow(batch: seq<Item>) returns (ok: bool)
      requires Valid() && OnDisk() == []
      modifies this`chain, this`gap, this`answers, this`kept
      ensures Valid() && OnDisk() == [] && kept == if ok then old(kept) + batch else old(kept)
      ensures ok ==> AllYes(old(answers), answers)
      ensures !ok ==> SomeNo(old(answers), answers) && gap == old(gap)
      ensures ok ==> EndsWith(chain, batch, false)
    {
      NothingMore(EventsIn(chain));
      ok := Append(batch, false);
      OneAnswer(old(answers), answers, ok);
      NothingMore(EventsIn(chain));
      kept := EventsIn(chain);
    }

    /** Without a spool the batch stays at the head: it is retried, a bounded number
        of times unless the mode is to block, and then counted as lost. `retries` is
        how often it may still be tried again. */
    method Deliver(batch: seq<Item>, now: nat, room: nat, retries: nat)
      returns (ok: bool, lost: bool, ghost base: seq<Item>, ghost stored: nat, ghost r: Replayed)
      requires Valid() && forall i :: i in batch ==> Accepted(i)
      modifies this`chain, this`gap, this`answers, this`droppedTotal, this`kept, spool
      ensures Valid() && stored <= |batch| && kept == base + batch[..stored]
      ensures Kept(r, old(EventsIn(chain)), old(Disk()), old(Listed()), base)
      ensures !r.again ==> base == old(kept)
      ensures r.again ==> r.moved < |old(Listed())| && Listed() != [] && Listed()[0] == old(Listed())[r.moved]
      ensures ok ==> stored == |batch| && !lost && !r.again && base == old(kept) && OnDisk() == []
      ensures Took(old(answers), answers) && (ok || Refused(old(answers), answers))
      ensures lost <==> stored < |batch|
      ensures lost ==> FullSegments(stored) && forall i :: i in batch ==> Covers(gap, i)
      ensures droppedTotal == old(droppedTotal) + if lost then |batch| else 0
    {
      var left := retries;
      assert EventsIn(chain) + [] == EventsIn(chain);
      ghost var written, disk, names := EventsIn(chain), Disk(), Listed();
      while true
        invariant Valid() && droppedTotal == old(droppedTotal) && kept == old(kept)
        invariant EventsIn(chain) == written && Disk() == disk && Listed() == names
        invariant left == retries || spool == null
        invariant Took(old(answers), answers)
        decreases left
      {
        ghost var before := answers;
        ok, lost, base, stored, r := Write(batch, now, room);
        TookMore(old(answers), before, answers, ok);
        if ok || spool != null || batch == [] {
          return;
        }
        assert kept == base && EventsIn(chain) + [] == EventsIn(chain);
        if left == 0 {
          Lose(batch);
          return false, true, kept, 0, r;
        }
        left := left - 1;
      }
    }
  }

  /** A process that stops and starts again finds the same events in the chain and
      on disk, in the same order. Orders are 64-bit. */
  method Restart(w: Writer, answers: seq<bool>) returns (again: Writer)
    requires w.Valid() && (w.spool != null ==> w.spool.order <= ORDER_LIMIT)
    ensures fresh(again) && again.Valid() && (again.spool == null <==> w.spool == null)
    ensures again.spool != null ==> fresh(again.spool)
    ensures again.chain == w.chain && again.OnDisk() == w.OnDisk() && again.kept == w.kept
    ensures again.Disk() == w.Disk() && again.Listed() == w.Listed() && again.answers == answers
    ensures again.droppedTotal == 0 && again.gap == NO_GAP && again.lostBefore == w.lostBefore + w.droppedTotal
  {
    if w.spool == null {
      again := new Writer(null, w.chain, answers, w.lostBefore + w.droppedTotal);
      return;
    }
    InUseMeansOpenable(w.spool.disk, w.spool.names, w.spool.order, w.spool.events, w.spool.bytes);
    var spool := new Spool(w.spool.disk, w.spool.instance, w.spool.maxBytes);
    ReopeningKeepsEverything(spool.disk, w.spool.names, w.spool.order, w.spool.events, w.spool.bytes,
                             spool.names, spool.order, spool.events, spool.bytes);
    again := new Writer(spool, w.chain, answers, w.lostBefore + w.droppedTotal);
  }

  lemma SamePrefix(a: seq<Item>, b: seq<Item>, c: seq<Item>)
    requires a + b == a + c
    ensures b == c
  {
    assert (a + b)[|a|..] == b && (a + c)[|a|..] == c;
  }

  // --- answers ----------------------------------------------------------------------------

  /** The answers used up between two moments. */
  ghost predicate Took(before: seq<bool>, after: seq<bool>) {
    |after| <= |before| && after == before[|before| - |after|..]
  }

  /** They all said yes. */
  ghost predicate AllYes(before: seq<bool>, after: seq<bool>) {
    Took(before, after) && forall k :: 0 <= k < |before| - |after| ==> before[k]
  }

  /** The last of them said no, or there are none left. */
  ghost predicate SomeNo(before: seq<bool>, after: seq<bool>) {
    after == [] || (Took(before, after) && |after| < |before| && !before[|before| - |after| - 1])
  }

  /** One of them said no, or there are none left. */
  ghost predicate Refused(before: seq<bool>, after: seq<bool>) {
    after == [] || exists k :: 0 <= k < |before| - |after| && !before[k]
  }

  lemma AllYesSoFar(a: seq<bool>)
    ensures AllYes(a, a)
  {
  }

  lemma OneAnswer(before: seq<bool>, after: seq<bool>, yes: bool)
    requires if before == [] then !yes && after == [] else yes == before[0] && after == before[1..]
    ensures yes ==> AllYes(before, after)
    ensures !yes ==> SomeNo(before, after)
  {
  }

  lemma TookTwice(a: seq<bool>, b: seq<bool>, c: seq<bool>)
    requires Took(a, b) && Took(b, c)
    ensures Took(a, c)
    ensures forall k :: 0 <= k < |b| ==> b[k] == a[|a| - |b| + k]
  {
  }

  lemma AnswersChain(a: seq<bool>, b: seq<bool>, c: seq<bool>)
    requires AllYes(a, b)
    ensures AllYes(b, c) ==> AllYes(a, c)
    ensures SomeNo(b, c) ==> SomeNo(a, c)
  {
    if Took(b, c) {
      TookTwice(a, b, c);
      assert forall k :: |a| - |b| <= k < |a| ==> a[k] == b[k - (|a| - |b|)];
    }
  }

  lemma TookMore(a: seq<bool>, b: seq<bool>, c: seq<bool>, ok: bool)
    requires Took(a, b) && if ok then AllYes(b, c) else SomeNo(b, c)
    ensures Took(a, c) && (ok || Refused(a, c))
  {
    if c != [] {
      TookTwice(a, b, c);
      if !ok {
        assert !a[|a| - |c| - 1];
      }
    }
  }

  /** A refusal anywhere in a stretch is one in the whole of it. */
  lemma RefusedSomewhere(a: seq<bool>, b: seq<bool>, c: seq<bool>)
    requires Took(a, b) && Took(b, c)
    ensures Took(a, c)
    ensures Refused(a, b) || Refused(b, c) ==> Refused(a, c)
  {
    TookTwice(a, b, c);
    if c != [] {
      if k :| 0 <= k < |b| - |c| && !b[k] {
        assert !a[|a| - |b| + k];
      }
    }
  }

  // --- replays ----------------------------------------------------------------------------

  function NextReplayed(r: Replayed, ok: bool, again: bool): Replayed {
    if ok then Replayed(r.moved + 1, false) else Replayed(r.moved, again)
  }

  /** What is still listed is on disk as it was. */
  ghost predicate SameFiles(before: Directory, now: Directory, names: seq<Segment>) {
    forall f :: f in names ==> f in before && f in now && now[f] == before[f]
  }

  lemma DidNothing(chain: seq<Item>, disk: Directory, names: seq<Segment>)
    requires AreOn(disk, names)
    ensures Did(NOTHING, chain, disk, names, chain, Waiting(disk, names), names)
  {
    assert names[0..] == names;
    assert chain + Waiting(disk, names[..0]) + [] == chain;
  }

  /** Waiting segments, cut in two. */
  lemma {:induction false} WaitingSplits(disk: Directory, names: seq<Segment>, k: nat)
    requires AreOn(disk, names) && k <= |names|
    ensures Waiting(disk, names) == Waiting(disk, names[..k]) + Waiting(disk, names[k..])
  {
    if k == 0 {
      assert names[0..] == names;
    } else {
      WaitingSplits(disk, names[1..], k - 1);
      assert names[1..][..k - 1] == names[..k][1..] && names[1..][k - 1..] == names[k..];
      Associates(disk[names[0]], Waiting(disk, names[..k][1..]), Waiting(disk, names[k..]));
    }
  }

  lemma DidIsKept(r: Replayed, chain: seq<Item>, disk: Directory, names: seq<Segment>,
                  chain': seq<Item>, held': seq<Item>, names': seq<Segment>)
    requires Did(r, chain, disk, names, chain', held', names')
    ensures Kept(r, chain, disk, names, chain' + held')
  {
    if !r.again {
      var first, rest := Waiting(disk, names[..r.moved]), Waiting(disk, names[r.moved..]);
      WaitingSplits(disk, names, r.moved);
      assert chain + first + [] == chain + first;
      Associates(chain, first, rest);
    }
  }

  lemma DidOneMore(k: nat, chain: seq<Item>, disk: Directory, names: seq<Segment>, done: seq<Item>, items: seq<Item>,
                   chain': seq<Item>, held': seq<Item>, names': seq<Segment>)
    requires AreOn(disk, names) && k < |names| && items == disk[names[k]] && names' == names[k..][1..]
    requires done == chain + Waiting(disk, names[..k]) + [] && chain' == done + items
    requires Waiting(disk, names[k..]) == items + held'
    ensures Did(Replayed(k + 1, false), chain, disk, names, chain', held', names')
  {
    var first := Waiting(disk, names[..k]);
    WaitingSplits(disk, names[..k + 1], k);
    assert names[..k + 1][..k] == names[..k] && names[..k + 1][k..] == [names[k]];
    assert Waiting(disk, [names[k]]) == items + [];
    assert chain + first + [] == chain + first;
    Associates(chain, first, items);
    assert names[k..][1..] == names[k + 1..];
    SamePrefix(items, held', Waiting(disk, names[k + 1..]));
  }

  lemma DidStop(r: Replayed, again: bool, chain: seq<Item>, disk: Directory, names: seq<Segment>, done: seq<Item>,
                items: seq<Item>, chain': seq<Item>, held': seq<Item>, names': seq<Segment>)
    requires AreOn(disk, names) && r.moved < |names| && !r.again && items == disk[names[r.moved]]
             && (again ==> items != [])
    requires Did(r, chain, disk, names, done, held', names') && chain' == if again then done + items else done
    ensures Did(r.(again := again), chain, disk, names, chain', held', names')
  {
    var first := Waiting(disk, names[..r.moved]);
    assert chain + first + [] == chain + first;
  }

  lemma NothingListed(spool: Spool)
    requires spool.Valid() && spool.names == []
    ensures spool.held == []
  {
  }
}
