/** Shipping the audit stream to a receiver: any number of sweeps, on any number of replicas,
    that may crash anywhere, over a stream that grows and is cut meanwhile. */
module Exporter {

  datatype Event = Event(seqno: int, category: string)

  /** Where a sweep is: about to read, about to send what it read, or about to move the
      cursor past what the receiver accepted. */
  datatype Phase = Ready | Read(batch: seq<Event>) | Sent(batch: seq<Event>) | Over

  datatype Sweep = Sweep(cursor: int, batches: nat, phase: Phase)

  /** One exporter and its stream: every event the stream ever showed, in order; those
      retention removed; the newest number given out; the exporter's filter; where its
      cursor began and is; and what the receiver has accepted. */
  datatype World = World(events: seq<Event>, dropped: set<int>, top: int, filter: set<string>, start: int, cursor: int,
                         accepted: set<int>, sweeps: seq<Sweep>)

  const BATCH := 500
  const MAX_BATCHES := 20

  /** A filter nobody filled in lets everything through. */
  predicate Wanted(filter: set<string>, e: Event) {
    filter == {} || e.category in filter
  }

  predicate Shown(w: World, e: Event, after: int) {
    e.seqno > after && e.seqno !in w.dropped && Wanted(w.filter, e)
  }

  /** The next of the stored events the exporter wants, in order, at most limit of them. */
  function NextEvents(w: World, events: seq<Event>, after: int, limit: nat): (r: seq<Event>)
    ensures |r| <= limit
  {
    if events == [] || limit == 0 then []
    else if Shown(w, events[0], after) then [events[0]] + NextEvents(w, events[1..], after, limit - 1)
    else NextEvents(w, events[1..], after, limit)
  }

  function Numbers(batch: seq<Event>): set<int> {
    set e | e in batch :: e.seqno
  }

  function Last(batch: seq<Event>): int
    requires batch != []
  {
    batch[|batch| - 1].seqno
  }

  // --- Steps --------------------------------------------------------------------------------

  /** A number is given out and its event becomes visible in one step, because appending
      holds the stream's lock; so numbers become visible in order. A send may be lost after
      the receiver took some of it. */
  datatype Step =
    | Append(e: Event)
    | Cut(upTo: int)
    | Begin
    | Fetch(k: nat)
    | Deliver(k: nat)
    | DeliveryFails(k: nat, taken: set<int>)
    | Commit(k: nat)
    | Crash(k: nat)

  function WithSweep(w: World, k: nat, s: Sweep): World
    requires k < |w.sweeps|
  {
    w.(sweeps := w.sweeps[k := s])
  }

  function Next(w: World, step: Step): World {
    match step
    case Append(e) => if e.seqno > w.top then w.(events := w.events + [e], top := e.seqno) else w
    case Cut(upTo) => w.(dropped := w.dropped + set e | e in w.events && e.seqno <= upTo :: e.seqno)
    case Begin => w.(sweeps := w.sweeps + [Sweep(w.cursor, 0, Ready)])
    case Fetch(k) =>
      if k < |w.sweeps| && w.sweeps[k].phase.Ready? then Fetched(w, k) else w
    case Deliver(k) =>
      if k < |w.sweeps| && w.sweeps[k].phase.Read? then
        WithSweep(w.(accepted := w.accepted + Numbers(w.sweeps[k].phase.batch)), k,
                  w.sweeps[k].(phase := Sent(w.sweeps[k].phase.batch)))
      else w
    case DeliveryFails(k, taken) =>
      if k < |w.sweeps| && w.sweeps[k].phase.Read? then
        WithSweep(w.(accepted := w.accepted + taken * Numbers(w.sweeps[k].phase.batch)), k, w.sweeps[k].(phase := Over))
      else w
    case Commit(k) => if k < |w.sweeps| && w.sweeps[k].phase.Sent? then Committed(w, k) else w
    case Crash(k) => if k < |w.sweeps| then WithSweep(w, k, w.sweeps[k].(phase := Over)) else w
  }

  function Fetched(w: World, k: nat): World
    requires k < |w.sweeps|
  {
    var s := w.sweeps[k];
    var batch := NextEvents(w, w.events, s.cursor, BATCH);
    WithSweep(w, k, s.(phase := if batch == [] then Over else Read(batch)))
  }

  /** The stored cursor moves forward only; the sweep goes on from what it sent, unless that
      was the last of it or it has done its share. */
  function Committed(w: World, k: nat): World
    requires k < |w.sweeps| && w.sweeps[k].phase.Sent?
  {
    var s := w.sweeps[k];
    var batch := s.phase.batch;
    if batch == [] then w
    else
      var last := Last(batch);
      var more := |batch| == BATCH && s.batches + 1 < MAX_BATCHES;
      WithSweep(w.(cursor := if w.cursor < last then last else w.cursor), k,
                Sweep(last, s.batches + 1, if more then Ready else Over))
  }

  // --- What every step keeps ------------------------------------------------------------------

  /** Every wanted event up to a number has been accepted, unless retention removed it. */
  ghost predicate SettledUpTo(w: World, upTo: int) {
    forall e :: e in w.events && Wanted(w.filter, e) && w.start < e.seqno <= upTo
                ==> e.seqno in w.accepted || e.seqno in w.dropped
  }

  /** A cursor that every later number is above. */
  predicate Reached(w: World, cursor: int) {
    w.start <= cursor && (cursor <= w.top || cursor == w.start)
  }

  /** A batch holds every wanted event up to its last, from the sweep's cursor on. */
  ghost predicate Complete(w: World, cursor: int, batch: seq<Event>) {
    && batch != [] && Last(batch) <= w.top && Last(batch) > cursor
    && forall e :: e in w.events && Wanted(w.filter, e) && cursor < e.seqno <= Last(batch) ==>
         e in batch || e.seqno in w.dropped
  }

  ghost predicate SweepOk(w: World, s: Sweep) {
    && Reached(w, s.cursor) && SettledUpTo(w, s.cursor)
    && (s.phase.Read? ==> Complete(w, s.cursor, s.phase.batch))
    && (s.phase.Sent? ==> Complete(w, s.cursor, s.phase.batch) && SettledUpTo(w, Last(s.phase.batch)))
  }

  ghost predicate Ok(w: World) {
    && (forall e :: e in w.events ==> e.seqno <= w.top)
    && (forall i, j :: 0 <= i < j < |w.events| ==> w.events[i].seqno < w.events[j].seqno)
    && Reached(w, w.cursor) && SettledUpTo(w, w.cursor)
    && forall k :: 0 <= k < |w.sweeps| ==> SweepOk(w, w.sweeps[k])
  }

  /** What is taken in order leaves nothing out before its last. */
  lemma {:induction false} NothingIsSkipped(w: World, events: seq<Event>, after: int, limit: nat)
    requires forall i, j :: 0 <= i < j < |events| ==> events[i].seqno < events[j].seqno
    ensures var r := NextEvents(w, events, after, limit);
            && (forall e :: e in r ==> e in events && e.seqno > after)
            && (r != [] ==> forall e :: e in events && Shown(w, e, after) && e.seqno <= Last(r) ==> e in r)
            && (|r| < limit ==> forall e :: e in events && Shown(w, e, after) ==> e in r)
    decreases events
  {
    if events != [] && limit > 0 {
      var rest := events[1..];
      assert forall e :: e in events <==> e == events[0] || e in rest;
      NothingIsSkipped(w, rest, after, if Shown(w, events[0], after) then limit - 1 else limit);
    }
  }

  /** The world moves on around a sweep: what was settled stays so. */
  ghost predicate Onward(a: World, b: World) {
    && a.events <= b.events && a.dropped <= b.dropped && a.accepted <= b.accepted && a.top <= b.top
    && a.filter == b.filter && a.start == b.start && a.cursor <= b.cursor
    && forall e :: e in b.events && e !in a.events ==> e.seqno > a.top
  }

  lemma SettledStays(a: World, b: World, upTo: int)
    requires Onward(a, b) && SettledUpTo(a, upTo) && (upTo <= a.top || upTo == a.start)
    ensures SettledUpTo(b, upTo)
  {
  }

  lemma SweepStays(a: World, b: World, s: Sweep)
    requires Onward(a, b) && SweepOk(a, s)
    ensures SweepOk(b, s)
  {
    SettledStays(a, b, s.cursor);
    if s.phase.Sent? {
      SettledStays(a, b, Last(s.phase.batch));
    }
  }

  lemma FetchedOk(w: World, k: nat)
    requires Ok(w) && k < |w.sweeps|
    ensures SweepOk(w, Fetched(w, k).sweeps[k])
  {
    NothingIsSkipped(w, w.events, w.sweeps[k].cursor, BATCH);
  }

  /** Once a batch is accepted, everything up to its last is settled. */
  lemma DeliveredOk(w: World, k: nat)
    requires Ok(w) && k < |w.sweeps| && w.sweeps[k].phase.Read?
    ensures SweepOk(Next(w, Deliver(k)), w.sweeps[k].(phase := Sent(w.sweeps[k].phase.batch)))
  {
    var after, batch := Next(w, Deliver(k)), w.sweeps[k].phase.batch;
    assert after.accepted == w.accepted + Numbers(batch);
  }

  lemma CommittedOk(w: World, k: nat)
    requires Ok(w) && k < |w.sweeps| && w.sweeps[k].phase.Sent?
    ensures var after := Committed(w, k);
            Onward(w, after) && SweepOk(after, after.sweeps[k]) && Reached(after, after.cursor)
            && SettledUpTo(after, after.cursor)
  {
    assert SweepOk(w, w.sweeps[k]);
  }

  lemma OtherSweepsStay(a: World, b: World, k: nat)
    requires Ok(a) && Onward(a, b) && |b.sweeps| == |a.sweeps| && k < |a.sweeps|
    requires forall j :: 0 <= j < |a.sweeps| && j != k ==> b.sweeps[j] == a.sweeps[j]
    requires SweepOk(b, b.sweeps[k])
    ensures forall j :: 0 <= j < |b.sweeps| ==> SweepOk(b, b.sweeps[j])
  {
    forall j | 0 <= j < |b.sweeps| && j != k ensures SweepOk(b, b.sweeps[j]) {
      SweepStays(a, b, a.sweeps[j]);
    }
  }

  lemma StreamStepKeeps(w: World, step: Step)
    requires Ok(w) && (step.Append? || step.Cut? || step.Begin?)
    ensures Ok(Next(w, step)) && Onward(w, Next(w, step))
  {
    var after := Next(w, step);
    SettledStays(w, after, w.cursor);
    forall k | 0 <= k < |w.sweeps| ensures SweepOk(after, w.sweeps[k]) {
      SweepStays(w, after, w.sweeps[k]);
    }
  }

  /** One sweep moved, and with it the cursor perhaps. */
  ghost predicate Moved(a: World, b: World, k: nat) {
    && Onward(a, b) && b.events == a.events && b.top == a.top && |b.sweeps| == |a.sweeps| && k < |a.sweeps|
    && (forall j :: 0 <= j < |a.sweeps| && j != k ==> b.sweeps[j] == a.sweeps[j])
    && SweepOk(b, b.sweeps[k])
    && (b.cursor == a.cursor || (Reached(b, b.cursor) && SettledUpTo(b, b.cursor)))
  }

  lemma MovedKeeps(a: World, b: World, k: nat)
    requires Ok(a) && Moved(a, b, k)
    ensures Ok(b)
  {
    SettledStays(a, b, a.cursor);
    OtherSweepsStay(a, b, k);
  }

  lemma FetchMoves(w: World, k: nat)
    requires Ok(w) && k < |w.sweeps| && w.sweeps[k].phase.Ready?
    ensures Moved(w, Next(w, Fetch(k)), k)
  {
    FetchedOk(w, k);
  }

  lemma DeliverMoves(w: World, k: nat)
    requires Ok(w) && k < |w.sweeps| && w.sweeps[k].phase.Read?
    ensures Moved(w, Next(w, Deliver(k)), k)
  {
    DeliveredOk(w, k);
  }

  lemma CommitMoves(w: World, k: nat)
    requires Ok(w) && k < |w.sweeps| && w.sweeps[k].phase.Sent?
    ensures Moved(w, Next(w, Commit(k)), k)
  {
    CommittedOk(w, k);
  }

  lemma EndMoves(w: World, step: Step)
    requires Ok(w) && (step.DeliveryFails? || step.Crash?) && step.k < |w.sweeps| && Next(w, step) != w
    ensures Moved(w, Next(w, step), step.k)
  {
    SweepStays(w, Next(w, step), w.sweeps[step.k].(phase := Over));
  }

  lemma SweepStepKeeps(w: World, step: Step)
    requires Ok(w) && !step.Append? && !step.Cut? && !step.Begin?
    ensures Ok(Next(w, step)) && Onward(w, Next(w, step))
  {
    var k := step.k;
    if Next(w, step) != w {
      if step.Fetch? {
        FetchMoves(w, k);
      } else if step.Deliver? {
        DeliverMoves(w, k);
      } else if step.Commit? {
        CommitMoves(w, k);
      } else {
        EndMoves(w, step);
      }
      MovedKeeps(w, Next(w, step), k);
    }
  }

  // --- Whole runs ------------------------------------------------------------------------------

  function After(w: World, run: seq<Step>): World {
    if run == [] then w else Next(After(w, run[..|run| - 1]), run[|run| - 1])
  }

  /** A new exporter on a stream that may already have events. */
  ghost predicate Begins(w: World) {
    && w.sweeps == [] && w.cursor == w.start && w.accepted == {}
    && (forall e :: e in w.events ==> e.seqno <= w.top)
    && (forall i, j :: 0 <= i < j < |w.events| ==> w.events[i].seqno < w.events[j].seqno)
  }

  lemma {:induction false} EveryRunIsOk(w: World, run: seq<Step>)
    requires Begins(w)
    ensures Ok(After(w, run))
  {
    if run != [] {
      var before, step := After(w, run[..|run| - 1]), run[|run| - 1];
      EveryRunIsOk(w, run[..|run| - 1]);
      if step.Append? || step.Cut? || step.Begin? {
        StreamStepKeeps(before, step);
      } else {
        SweepStepKeeps(before, step);
      }
    }
  }

  /** At least once: whatever sweeps and crashes there were, every event the exporter wants
      that lies above where it began and not above its cursor was accepted by the receiver,
      or removed by retention. */
  lemma NothingIsSkippedOver(w: World, run: seq<Step>, e: Event)
    requires Begins(w)
    ensures var after := After(w, run);
            e in after.events && (w.filter == {} || e.category in w.filter) && w.start < e.seqno <= after.cursor
            ==> e.seqno in after.accepted || e.seqno in after.dropped
  {
    EveryRunIsOk(w, run);
    StartStays(w, run);
  }

  lemma {:induction false} StartStays(w: World, run: seq<Step>)
    ensures After(w, run).start == w.start && After(w, run).filter == w.filter
  {
    if run != [] {
      StartStays(w, run[..|run| - 1]);
    }
  }

  /** And the cursor never goes back. */
  lemma {:induction false} TheCursorNeverGoesBack(w: World, run: seq<Step>, more: seq<Step>)
    ensures After(w, run).cursor <= After(w, run + more).cursor
  {
    if more == [] {
      assert run + more == run;
    } else {
      var n := |more| - 1;
      TheCursorNeverGoesBack(w, run, more[..n]);
      assert (run + more)[..|run| + n] == run + more[..n];
      assert (run + more)[|run| + n] == more[n];
    }
  }

  // --- Only what was asked for ------------------------------------------------------------------

  /** n is the number of an event of a category the exporter asked for. */
  predicate Asked(events: seq<Event>, filter: set<string>, n: int) {
    exists e :: e in events && e.seqno == n && (filter == {} || e.category in filter)
  }

  predicate AskedFor(w: World, n: int) {
    Asked(w.events, w.filter, n)
  }

  /** What the receiver has come to accept are such numbers. */
  ghost predicate OnlySent(events: seq<Event>, filter: set<string>, before: set<int>, after: set<int>) {
    forall n :: n in after && n !in before ==> Asked(events, filter, n)
  }

  lemma SentOnAndOn(events: seq<Event>, filter: set<string>, a: set<int>, b: set<int>, c: set<int>)
    requires OnlySent(events, filter, a, b) && OnlySent(events, filter, b, c)
    ensures OnlySent(events, filter, a, c)
  {
  }

  /** Everything sent, or about to be, is. */
  ghost predicate OnlyAskedFor(w: World) {
    && (forall n :: n in w.accepted ==> AskedFor(w, n))
    && forall k :: 0 <= k < |w.sweeps| ==> BatchAskedFor(w, w.sweeps[k])
  }

  ghost predicate BatchAskedFor(w: World, s: Sweep) {
    s.phase.Read? || s.phase.Sent? ==> forall e :: e in s.phase.batch ==> AskedFor(w, e.seqno)
  }

  lemma {:induction false} NextAreAskedFor(w: World, events: seq<Event>, after: int, limit: nat)
    requires forall e :: e in events ==> e in w.events
    ensures forall e :: e in NextEvents(w, events, after, limit) ==> AskedFor(w, e.seqno)
    decreases events
  {
    if events != [] && limit > 0 {
      assert events[0] in events;
      NextAreAskedFor(w, events[1..], after, if Shown(w, events[0], after) then limit - 1 else limit);
    }
  }

  lemma StillAskedFor(a: World, b: World, n: int)
    requires AskedFor(a, n) && a.events <= b.events && a.filter == b.filter
    ensures AskedFor(b, n)
  {
  }

  lemma AskedForStep(w: World, step: Step)
    requires OnlyAskedFor(w)
    ensures OnlyAskedFor(Next(w, step))
  {
    var v := Next(w, step);
    assert w.events <= v.events && w.filter == v.filter;
    forall n | n in v.accepted ensures AskedFor(v, n) {
      if n in w.accepted {
        StillAskedFor(w, v, n);
      } else {
        assert BatchAskedFor(w, w.sweeps[step.k]);
        StillAskedFor(w, v, n);
      }
    }
    forall k | 0 <= k < |v.sweeps| ensures BatchAskedFor(v, v.sweeps[k]) {
      BatchStaysAskedFor(w, step, k);
    }
  }

  lemma BatchStaysAskedFor(w: World, step: Step, k: nat)
    requires OnlyAskedFor(w) && k < |Next(w, step).sweeps|
    ensures BatchAskedFor(Next(w, step), Next(w, step).sweeps[k])
  {
    var v := Next(w, step);
    if k < |w.sweeps| {
      assert BatchAskedFor(w, w.sweeps[k]);
      NextAreAskedFor(w, w.events, w.sweeps[k].cursor, BATCH);
      var s := v.sweeps[k];
      if s.phase.Read? || s.phase.Sent? {
        forall e | e in s.phase.batch ensures AskedFor(v, e.seqno) {
          StillAskedFor(w, v, e.seqno);
        }
      }
    }
  }

  /** Whatever runs, the receiver is only ever sent events of the categories it asked for. */
  lemma {:induction false} OnlyAskedForIsSent(w: World, run: seq<Step>)
    requires Begins(w)
    ensures OnlyAskedFor(After(w, run))
  {
    if run != [] {
      OnlyAskedForIsSent(w, run[..|run| - 1]);
      AskedForStep(After(w, run[..|run| - 1]), run[|run| - 1]);
    }
  }

  // --- Why numbers must show in order ------------------------------------------------------------

  /** The cursor, and every sweep still under way, is at or past a number that was not sent. */
  ghost predicate PassedOver(w: World, n: int) {
    && n <= w.cursor && n !in w.accepted
    && forall k :: 0 <= k < |w.sweeps| && !w.sweeps[k].phase.Over? ==> PassedBy(w.sweeps[k], n)
  }

  ghost predicate PassedBy(s: Sweep, n: int) {
    && n <= s.cursor
    && (s.phase.Read? || s.phase.Sent? ==> forall e :: e in s.phase.batch ==> e.seqno > n)
  }

  lemma {:induction false} OnlyLaterOnes(w: World, events: seq<Event>, after: int, limit: nat)
    ensures forall e :: e in NextEvents(w, events, after, limit) ==> e.seqno > after
    decreases events
  {
    if events != [] && limit > 0 {
      OnlyLaterOnes(w, events[1..], after, if Shown(w, events[0], after) then limit - 1 else limit);
    }
  }

  lemma PassedOverStays(w: World, step: Step, n: int)
    requires PassedOver(w, n)
    ensures PassedOver(Next(w, step), n)
  {
    if step.Fetch? && step.k < |w.sweeps| {
      OnlyLaterOnes(w, w.events, w.sweeps[step.k].cursor, BATCH);
    }
    if step.Commit? && step.k < |w.sweeps| && w.sweeps[step.k].phase.Sent? {
      CommitPasses(w, step.k, n);
    }
  }

  lemma CommitPasses(w: World, k: nat, n: int)
    requires PassedOver(w, n) && k < |w.sweeps| && w.sweeps[k].phase.Sent?
    ensures PassedOver(Committed(w, k), n)
  {
    var batch := w.sweeps[k].phase.batch;
    if batch != [] {
      assert batch[|batch| - 1] in batch;
    }
  }

  lemma {:induction false} PassedOverForGood(w: World, run: seq<Step>, n: int)
    requires PassedOver(w, n)
    ensures PassedOver(After(w, run), n)
  {
    if run != [] {
      PassedOverForGood(w, run[..|run| - 1], n);
      PassedOverStays(After(w, run[..|run| - 1]), run[|run| - 1], n);
    }
  }

  /** An event that becomes visible once its number has been passed over is never sent, however
      the run goes on, wherever among the stored events it appears. */
  lemma AnEventShownLateIsNeverSent(w: World, late: Event, at: nat, run: seq<Step>)
    requires PassedOver(w, late.seqno) && at <= |w.events|
    ensures late.seqno !in After(w.(events := w.events[..at] + [late] + w.events[at..]), run).accepted
  {
    PassedOverForGood(w.(events := w.events[..at] + [late] + w.events[at..]), run, late.seqno);
  }

  // --- One sweep, undisturbed ----------------------------------------------------------------------

  /** What happens to one batch. */
  datatype Fate = Accepted | Rejected(taken: set<int>) | NotSaved

  datatype End = Drained | SharedOut | Failed

  class Stream {
    const filter: set<string>
    const start: int
    const events: seq<Event>
    const dropped: set<int>
    const top: int
    var cursor: int
    var accepted: set<int>

    function Now(): World
      reads this
    {
      World(events, dropped, top, filter, start, cursor, accepted, [])
    }

    constructor (w: World)
      requires w.sweeps == []
      ensures Now() == w
    {
      filter, start, events, dropped, top := w.filter, w.start, w.events, w.dropped, w.top;
      cursor, accepted := w.cursor, w.accepted;
    }

    /** Moves the cursor forward only. */
    method Save(to: int)
      modifies this`cursor
      ensures cursor == if old(cursor) < to then to else old(cursor)
    {
      if cursor < to {
        cursor := to;
      }
    }

    /** The receiver takes the next batch, or some of it, or does and the cursor cannot be
        saved. */
    method Send(records: seq<Event>, at: int, fate: Fate) returns (sent: bool)
      requires records == NextEvents(Now(), events, at, BATCH)
      modifies this`accepted
      ensures sent <==> fate.Accepted?
      ensures old(accepted) <= accepted && (!fate.Rejected? ==> accepted == old(accepted) + Numbers(records))
      ensures OnlySent(events, filter, old(accepted), accepted)
    {
      NextAreAskedFor(Now(), events, at, BATCH);
      if fate.Rejected? {
        accepted := accepted + fate.taken * Numbers(records);
        return false;
      }
      accepted := accepted + Numbers(records);
      sent := !fate.NotSaved?;
    }

    /** Ships what lies after a cursor read earlier. A sweep that runs dry leaves nothing
        unaccepted. */
    method Ship(from: int, fates: seq<Fate>) returns (end: End)
      requires Ok(Now()) && Reached(Now(), from) && SettledUpTo(Now(), from)
      modifies this`cursor, this`accepted
      ensures Ok(Now()) && old(cursor) <= cursor && old(accepted) <= accepted
      ensures end.Drained? ==> SettledUpTo(Now(), if top > start then top else start)
      ensures OnlySent(events, filter, old(accepted), accepted)
    {
      var at := from;
      for i := 0 to MAX_BATCHES
        invariant Ok(Now()) && Reached(Now(), at) && SettledUpTo(Now(), at)
        invariant old(cursor) <= cursor && old(accepted) <= accepted
        invariant OnlySent(events, filter, old(accepted), accepted)
      {
        var records := NextEvents(Now(), events, at, BATCH);
        NothingIsSkipped(Now(), events, at, BATCH);
        if |records| == 0 {
          return Drained;
        }
        var fate := if i < |fates| then fates[i] else Accepted;
        ghost var before := accepted;
        var sent := Send(records, at, fate);
        SentOnAndOn(events, filter, old(accepted), before, accepted);
        if !sent {
          return Failed;
        }
        at := Last(records);
        Save(at);
        if |records| < BATCH {
          return Drained;
        }
      }
      end := SharedOut;
    }
  }
}
