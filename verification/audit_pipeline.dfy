/** The whole pipeline as its goroutines interleave: callers inside Emit, the queue,
    the overflow list, the batch the writer holds, the disk, the chain, and the gaps
    that appends in flight carry. Every step is one locked section, channel
    operation, transaction or file operation. */
module AuditPipeline {
  import opened Collections
  import opened AuditSpool
  import opened AuditGap
  import opened AuditWriter

  datatype Pipe = Pipe(
    buffer: nat,                // the queue's capacity, and the overflow's
    accepted: seq<Item>,        // every event given a number, in order
    emitting: seq<Item>,        // numbered, its caller still inside Emit
    queue: seq<Item>,
    overflow: seq<Item>,
    batch: seq<Item>,
    disk: seq<seq<Item>>,       // segments, oldest first
    replayed: bool,             // the oldest segment's append has committed
    chain: seq<Record>,
    gap: Gap,
    writing: Option<Gap>,       // the gap the writer's append in flight carries
    syncs: seq<Gap>,            // the gaps EmitSync appends in flight carry
    dropped: nat,
    lost: seq<Item>,            // history: what was counted as lost
    repeats: seq<Item>)         // history: what was left in two places

  function Start(buffer: nat): Pipe {
    Pipe(buffer, [], [], [], [], [], [], false, [], NO_GAP, None, [], 0, [], [])
  }

  datatype Step =
    | Enter(at: nat, size: nat)      // Emit numbers an event
    | Enqueue(i: nat)                // a caller's event fits in the queue
    | Park(i: nat)                   // or in the overflow
    | GiveUp(i: nat)                 // or is lost
    | Receive                        // the writer takes one from the queue
    | TakeOverflow
    | BeginAppend                    // the unreported gap is taken
    | CommitBatch
    | CommitSegment
    | FailAppend                     // and put back
    | Delete                         // the replayed segment's file goes
    | DeleteFails
    | Hold(segments: nat)            // the batch goes to disk, all or its first segments
    | LoseBatch                      // the retries are spent
    | SyncBegin
    | SyncCommit(i: nat)
    | SyncFail(i: nat)

  function Without<T>(s: seq<T>, i: nat): seq<T>
    requires i < |s|
  {
    s[..i] + s[i + 1..]
  }

  /** A batch cut into segments. */
  function Segments(items: seq<Item>): seq<seq<Item>> {
    if items == [] then []
    else if |items| <= SEGMENT_MAX then [items]
    else [items[..SEGMENT_MAX]] + Segments(items[SEGMENT_MAX..])
  }

  function Flat(segments: seq<seq<Item>>): seq<Item> {
    if segments == [] then [] else segments[0] + Flat(segments[1..])
  }

  predicate Enabled(p: Pipe, step: Step) {
    match step
    case Enter(at, _) => at > 0
    case Enqueue(i) => i < |p.emitting| && |p.queue| < p.buffer
    case Park(i) => i < |p.emitting| && |p.overflow| < p.buffer
    case GiveUp(i) => i < |p.emitting|
    case Receive => p.queue != []
    case TakeOverflow => true
    case BeginAppend => p.writing.None? && !p.replayed
    case CommitBatch => p.writing.Some? && p.disk == []
    case CommitSegment => p.writing.Some? && p.disk != []
    case FailAppend => p.writing.Some?
    case Delete => p.replayed && p.disk != []
    case DeleteFails => p.replayed && p.disk != []
    case Hold(n) => p.writing.None? && !p.replayed && n <= |Segments(p.batch)|
    case LoseBatch => p.writing.None? && p.disk == []
    case SyncBegin => true
    case SyncCommit(i) => i < |p.syncs|
    case SyncFail(i) => i < |p.syncs|
  }

  function Lost(p: Pipe, items: seq<Item>): Pipe {
    p.(gap := AddGap(p.gap, BatchGap(items)), dropped := p.dropped + |items|, lost := p.lost + items)
  }

  function Next(p: Pipe, step: Step): Pipe
    requires Enabled(p, step)
  {
    match step
    case Enter(at, size) =>
      var item := Item(|p.accepted| + 1, at, size);
      p.(accepted := p.accepted + [item], emitting := p.emitting + [item])
    case Enqueue(i) => p.(emitting := Without(p.emitting, i), queue := p.queue + [p.emitting[i]])
    case Park(i) => p.(emitting := Without(p.emitting, i), overflow := p.overflow + [p.emitting[i]])
    case GiveUp(i) => Lost(p.(emitting := Without(p.emitting, i)), [p.emitting[i]])
    case Receive => p.(queue := p.queue[1..], batch := p.batch + [p.queue[0]])
    case TakeOverflow => p.(batch := p.batch + p.overflow, overflow := [])
    case BeginAppend => p.(writing := Some(p.gap), gap := NO_GAP)
    case CommitBatch => p.(chain := p.chain + Committed(p.writing.value, p.batch, false), batch := [], writing := None)
    case CommitSegment =>
      p.(chain := p.chain + Committed(p.writing.value, p.disk[0], true), replayed := true, writing := None)
    case FailAppend => p.(gap := AddGap(p.gap, p.writing.value), writing := None)
    case Delete => p.(disk := p.disk[1..], replayed := false)
    case DeleteFails => p.(replayed := false, repeats := p.repeats + p.disk[0])
    case Hold(n) =>
      var segments := Segments(p.batch);
      var written := p.(disk := p.disk + segments[..n], batch := []);
      if n == |segments| then written
      else Lost(written.(repeats := p.repeats + Flat(segments[..n])), p.batch)
    case LoseBatch => Lost(p.(batch := []), p.batch)
    case SyncBegin => p.(syncs := p.syncs + [p.gap], gap := NO_GAP)
    case SyncCommit(i) => p.(chain := p.chain + Committed(p.syncs[i], [], false), syncs := Without(p.syncs, i))
    case SyncFail(i) => p.(gap := AddGap(p.gap, p.syncs[i]), syncs := Without(p.syncs, i))
  }

  ghost predicate Possible(p: Pipe, run: seq<Step>)
    decreases |run|
  {
    run == [] || (Enabled(p, run[0]) && Possible(Next(p, run[0]), run[1..]))
  }

  function After(p: Pipe, run: seq<Step>): Pipe
    requires Possible(p, run)
    decreases |run|
  {
    if run == [] then p else After(Next(p, run[0]), run[1..])
  }

  // --- the count of what was lost -------------------------------------------------------

  function Total(gaps: seq<Gap>): nat {
    if gaps == [] then 0 else Total(gaps[..|gaps| - 1]) + gaps[|gaps| - 1].count
  }

  function Carried(p: Pipe): nat {
    Total(p.syncs) + if p.writing.Some? then p.writing.value.count else 0
  }

  ghost predicate GapsOk(p: Pipe) {
    && WellFormed(p.gap) && (p.writing.Some? ==> WellFormed(p.writing.value))
    && forall i :: 0 <= i < |p.syncs| ==> WellFormed(p.syncs[i])
  }

  /** Every event ever counted as lost is in a marker in the chain, in the unreported
      gap, or in a gap an append in flight carries; and the metric counts exactly
      these. */
  ghost predicate LossesCounted(p: Pipe) {
    p.dropped == MarkedIn(p.chain) + p.gap.count + Carried(p) && p.dropped == |p.lost|
  }

  lemma {:induction false} TotalWithout(gaps: seq<Gap>, i: nat)
    requires i < |gaps|
    ensures Total(gaps) == Total(Without(gaps, i)) + gaps[i].count
    decreases |gaps|
  {
    var n := |gaps| - 1;
    if i == n {
      assert Without(gaps, i) == gaps[..n];
    } else {
      TotalWithout(gaps[..n], i);
      assert Without(gaps, i)[..n - 1] == Without(gaps[..n], i);
    }
  }

  lemma TotalAppend(gaps: seq<Gap>, g: Gap)
    ensures Total(gaps + [g]) == Total(gaps) + g.count
  {
    assert (gaps + [g])[..|gaps|] == gaps;
  }

  lemma LossStep(p: Pipe, items: seq<Item>)
    requires LossesCounted(p) && forall i :: i in items ==> Accepted(i)
    ensures LossesCounted(Lost(p, items))
  {
    BatchGapIsExact(items);
  }

  lemma CountingStep(p: Pipe, step: Step)
    requires Enabled(p, step) && LossesCounted(p) && AllAccepted(p)
    ensures LossesCounted(Next(p, step))
  {
    match step
    case GiveUp(i) => LossStep(p.(emitting := Without(p.emitting, i)), [p.emitting[i]]);
    case CommitBatch => CommittedAdds(p.chain, p.writing.value, p.batch, false);
    case CommitSegment => CommittedAdds(p.chain, p.writing.value, p.disk[0], true);
    case Hold(n) =>
      if n < |Segments(p.batch)| {
        LossStep(p.(disk := p.disk + Segments(p.batch)[..n], batch := [],
                    repeats := p.repeats + Flat(Segments(p.batch)[..n])),
                 p.batch);
      }
    case LoseBatch => LossStep(p.(batch := []), p.batch);
    case SyncBegin => TotalAppend(p.syncs, p.gap);
    case SyncCommit(i) =>
      CommittedAdds(p.chain, p.syncs[i], [], false);
      TotalWithout(p.syncs, i);
    case SyncFail(i) => TotalWithout(p.syncs, i);
    case _ =>
  }

  ghost predicate AllAccepted(p: Pipe) {
    (forall i :: i in p.emitting ==> Accepted(i)) && (forall i :: i in p.batch ==> Accepted(i))
    && (forall i :: i in p.queue ==> Accepted(i)) && (forall i :: i in p.overflow ==> Accepted(i))
  }

  lemma AcceptedStep(p: Pipe, step: Step)
    requires Enabled(p, step) && AllAccepted(p)
    ensures AllAccepted(Next(p, step))
  {
  }

  // --- the gaps cover what was lost ------------------------------------------------------

  /** Some gap in play, reported or not, covers the event. */
  ghost predicate Reported(p: Pipe, item: Item) {
    || Covers(p.gap, item)
    || (p.writing.Some? && Covers(p.writing.value, item))
    || (exists i :: 0 <= i < |p.syncs| && Covers(p.syncs[i], item))
    || (exists i :: 0 <= i < |p.chain| && p.chain[i].GapMarker? && Covers(p.chain[i].gap, item))
  }

  lemma ReportedStep(p: Pipe, step: Step, item: Item)
    requires Enabled(p, step) && GapsOk(p) && AllAccepted(p) && Reported(p, item)
    ensures Reported(Next(p, step), item)
  {
    var q := Next(p, step);
    if i :| 0 <= i < |p.chain| && p.chain[i].GapMarker? && Covers(p.chain[i].gap, item) {
      assert q.chain[i] == p.chain[i];
    } else {
      match step
      case GiveUp(i) => LostKeeps(p.gap, [p.emitting[i]], item);
      case BeginAppend =>
      case CommitBatch => MarkerKeeps(p.chain, p.writing.value, p.batch, false, item);
      case CommitSegment => MarkerKeeps(p.chain, p.writing.value, p.disk[0], true, item);
      case FailAppend => AddGapCovers(p.gap, p.writing.value, item);
      case Hold(n) => LostKeeps(p.gap, p.batch, item);
      case LoseBatch => LostKeeps(p.gap, p.batch, item);
      case SyncBegin => SyncsKeep(p, q, item);
      case SyncCommit(i) =>
        MarkerKeeps(p.chain, p.syncs[i], [], false, item);
        SyncLeaves(p, q, i, item);
      case SyncFail(i) =>
        AddGapCovers(p.gap, p.syncs[i], item);
        SyncLeaves(p, q, i, item);
      case _ =>
    }
  }

  lemma LostKeeps(g: Gap, items: seq<Item>, item: Item)
    requires WellFormed(g) && forall i :: i in items ==> Accepted(i)
    ensures Covers(g, item) ==> Covers(AddGap(g, BatchGap(items)), item)
  {
    BatchGapIsExact(items);
    AddGapCovers(g, BatchGap(items), item);
  }

  lemma MarkerKeeps(chain: seq<Record>, g: Gap, items: seq<Item>, spooled: bool, item: Item)
    ensures Covers(g, item) ==>
              var c := chain + Committed(g, items, spooled);
              |c| > |chain| && c[|chain|] == GapMarker(g)
  {
  }

  lemma SyncsKeep(p: Pipe, q: Pipe, item: Item)
    requires q.syncs == p.syncs + [p.gap]
    ensures forall k :: 0 <= k < |p.syncs| ==> q.syncs[k] == p.syncs[k]
    ensures q.syncs[|p.syncs|] == p.gap
  {
  }

  lemma SyncLeaves(p: Pipe, q: Pipe, i: nat, item: Item)
    requires i < |p.syncs| && q.syncs == Without(p.syncs, i)
    ensures forall k :: 0 <= k < |p.syncs| && k != i && Covers(p.syncs[k], item) ==>
              exists m :: 0 <= m < |q.syncs| && Covers(q.syncs[m], item)
  {
    forall k | 0 <= k < |p.syncs| && k != i && Covers(p.syncs[k], item)
      ensures exists m :: 0 <= m < |q.syncs| && Covers(q.syncs[m], item)
    {
      assert q.syncs[if k < i then k else k - 1] == p.syncs[k];
    }
  }

  /** What a step loses, it reports. */
  lemma NewlyLostIsReported(p: Pipe, step: Step, item: Item)
    requires Enabled(p, step) && GapsOk(p) && AllAccepted(p)
    requires item in Next(p, step).lost && item !in p.lost
    ensures Reported(Next(p, step), item)
  {
    var items := match step
                 case GiveUp(i) => [p.emitting[i]]
                 case _ => p.batch;
    assert item in items;
    BatchGapIsExact(items);
    AddGapCovers(p.gap, BatchGap(items), item);
  }

  // --- where every event is -------------------------------------------------------------

  /** What is on disk and not also in the chain. */
  function Unreplayed(p: Pipe): seq<Item> {
    if p.replayed && p.disk != [] then Flat(p.disk[1..]) else Flat(p.disk)
  }

  function Times(s: seq<Item>, x: Item): nat {
    multiset(s)[x]
  }

  /** In how many places an event is. */
  function Places(p: Pipe, x: Item): nat {
    Times(p.emitting, x) + Times(p.queue, x) + Times(p.overflow, x) + Times(p.batch, x)
    + Times(Unreplayed(p), x) + Times(EventsIn(p.chain), x) + Times(p.lost, x)
  }

  ghost predicate Conserved(p: Pipe) {
    && (forall x :: Places(p, x) == Times(p.accepted, x) + Times(p.repeats, x))
    && (p.replayed ==> p.disk != [] && p.writing.None?)
  }

  lemma {:induction false} FlatConcat(a: seq<seq<Item>>, b: seq<seq<Item>>)
    ensures Flat(a + b) == Flat(a) + Flat(b)
  {
    if a == [] {
      assert a + b == b;
    } else {
      assert (a + b)[1..] == a[1..] + b;
      FlatConcat(a[1..], b);
    }
  }

  lemma {:induction false} SegmentsHoldTheBatch(items: seq<Item>)
    ensures Flat(Segments(items)) == items
    ensures |items| <= SEGMENT_MAX ==> |Segments(items)| <= 1
    decreases |items|
  {
    if |items| > SEGMENT_MAX {
      SegmentsHoldTheBatch(items[SEGMENT_MAX..]);
      var first, rest := items[..SEGMENT_MAX], items[SEGMENT_MAX..];
      assert Segments(items)[1..] == Segments(rest);
      assert first + rest == items;
    } else if items != [] {
      assert Flat([items]) == items + Flat([]);
    }
  }

  lemma Joined(a: seq<Item>, b: seq<Item>, x: Item)
    ensures Times(a + b, x) == Times(a, x) + Times(b, x)
  {
    assert multiset(a + b) == multiset(a) + multiset(b);
  }

  lemma TakenOut(s: seq<Item>, i: nat, x: Item)
    requires i < |s|
    ensures Times(s, x) == Times(Without(s, i), x) + Times([s[i]], x)
  {
    assert s == (s[..i] + [s[i]]) + s[i + 1..];
    Joined(s[..i] + [s[i]], s[i + 1..], x);
    Joined(s[..i], [s[i]], x);
    Joined(s[..i], s[i + 1..], x);
  }

  lemma PlacesStep(p: Pipe, step: Step, x: Item)
    requires Enabled(p, step) && Conserved(p)
    ensures Places(Next(p, step), x) == Times(Next(p, step).accepted, x) + Times(Next(p, step).repeats, x)
  {
    assert Places(p, x) == Times(p.accepted, x) + Times(p.repeats, x);
    match step
    case Enter(at, size) =>
      Joined(p.accepted, [Item(|p.accepted| + 1, at, size)], x);
      Joined(p.emitting, [Item(|p.accepted| + 1, at, size)], x);
    case Enqueue(i) =>
      TakenOut(p.emitting, i, x);
      Joined(p.queue, [p.emitting[i]], x);
    case Park(i) =>
      TakenOut(p.emitting, i, x);
      Joined(p.overflow, [p.emitting[i]], x);
    case GiveUp(i) =>
      TakenOut(p.emitting, i, x);
      Joined(p.lost, [p.emitting[i]], x);
    case Receive =>
      TakenOut(p.queue, 0, x);
      assert Without(p.queue, 0) == p.queue[1..];
      Joined(p.batch, [p.queue[0]], x);
    case TakeOverflow => Joined(p.batch, p.overflow, x);
    case CommitBatch =>
      CommittedAdds(p.chain, p.writing.value, p.batch, false);
      Joined(EventsIn(p.chain), p.batch, x);
    case CommitSegment =>
      CommittedAdds(p.chain, p.writing.value, p.disk[0], true);
      Joined(EventsIn(p.chain), p.disk[0], x);
      Joined(p.disk[0], Flat(p.disk[1..]), x);
    case Delete =>
    case DeleteFails =>
      Joined(p.disk[0], Flat(p.disk[1..]), x);
      Joined(p.repeats, p.disk[0], x);
    case Hold(n) => HoldMoves(p, n, x);
    case LoseBatch => Joined(p.lost, p.batch, x);
    case SyncCommit(i) =>
      CommittedAdds(p.chain, p.syncs[i], [], false);
      assert EventsIn(p.chain) + [] == EventsIn(p.chain);
    case _ =>
  }

  lemma HoldMoves(p: Pipe, n: nat, x: Item)
    requires Enabled(p, Hold(n)) && Places(p, x) == Times(p.accepted, x) + Times(p.repeats, x)
    ensures var q := Next(p, Hold(n)); Places(q, x) == Times(q.accepted, x) + Times(q.repeats, x)
  {
    var segments := Segments(p.batch);
    SegmentsHoldTheBatch(p.batch);
    var written := Flat(segments[..n]);
    FlatConcat(p.disk, segments[..n]);
    Joined(Flat(p.disk), written, x);
    Joined(p.lost, p.batch, x);
    Joined(p.repeats, written, x);
    assert n == |segments| ==> segments[..n] == segments;
  }

  // --- main result ----------------------------------------------------------------------

  ghost predicate Numbered(p: Pipe) {
    forall i :: 0 <= i < |p.accepted| ==> p.accepted[i].num == i + 1
  }

  ghost predicate Sound(p: Pipe) {
    && Conserved(p) && Numbered(p) && AllAccepted(p) && GapsOk(p) && LossesCounted(p)
    && forall x :: x in p.lost ==> Reported(p, x)
  }

  lemma SoundStep(p: Pipe, step: Step)
    requires Sound(p) && Enabled(p, step)
    ensures Sound(Next(p, step))
  {
    var q := Next(p, step);
    forall x ensures Places(q, x) == Times(q.accepted, x) + Times(q.repeats, x) {
      PlacesStep(p, step, x);
    }
    AcceptedStep(p, step);
    GapsStep(p, step);
    CountingStep(p, step);
    forall x | x in q.lost ensures Reported(q, x) {
      if x in p.lost {
        ReportedStep(p, step, x);
      } else {
        NewlyLostIsReported(p, step, x);
      }
    }
  }

  lemma GapsStep(p: Pipe, step: Step)
    requires Enabled(p, step) && GapsOk(p) && AllAccepted(p)
    ensures GapsOk(Next(p, step))
  {
    match step
    case GiveUp(i) => BatchGapIsExact([p.emitting[i]]);
    case Hold(n) => BatchGapIsExact(p.batch);
    case LoseBatch => BatchGapIsExact(p.batch);
    case _ =>
  }

  lemma {:induction false} SoundRun(p: Pipe, run: seq<Step>)
    requires Sound(p) && Possible(p, run)
    ensures Sound(After(p, run))
    decreases |run|
  {
    if run != [] {
      SoundStep(p, run[0]);
      SoundRun(Next(p, run[0]), run[1..]);
    }
  }

  /** No silent loss. After any interleaving, every event ever accepted is with its
      caller, in the queue, the overflow, the batch, on disk or in the chain, or some
      gap covers its number; the metric counts exactly what the committed markers, the
      unreported gap and the appends in flight account for; and an accepted event is
      in exactly one place, plus one for each time a segment was left in two. */
  lemma NothingIsLostSilently(buffer: nat, run: seq<Step>)
    requires Possible(Start(buffer), run)
    ensures var p := After(Start(buffer), run);
            && LossesCounted(p)
            && (forall i :: 0 <= i < |p.accepted| ==>
                  var x := p.accepted[i];
                  && x.num == i + 1
                  && (x in p.emitting || x in p.queue || x in p.overflow || x in p.batch || x in Unreplayed(p)
                      || x in EventsIn(p.chain) || Reported(p, x))
                  && Places(p, x) == 1 + Times(p.repeats, x))
  {
    assert Sound(Start(buffer));
    SoundRun(Start(buffer), run);
    var p := After(Start(buffer), run);
    forall i | 0 <= i < |p.accepted| ensures Times(p.accepted, p.accepted[i]) == 1 {
      OnlyOnce(p.accepted, i);
    }
  }

  lemma OnlyOnce(s: seq<Item>, i: nat)
    requires i < |s| && forall j :: 0 <= j < |s| ==> s[j].num == j + 1
    ensures Times(s, s[i]) == 1
  {
    TakenOut(s, i, s[i]);
    assert s[i] !in Without(s, i);
  }

  /** A deletion that fails leaves a segment on disk that is also in the chain, and a
      disk that gives out inside a batch leaves its first segments there although the
      batch is counted as lost. */
  predicate LeavesTwice(p: Pipe, step: Step) {
    match step
    case DeleteFails => p.disk != [] && p.disk[0] != []
    case Hold(n) => 0 < n < |Segments(p.batch)|
    case _ => false
  }

  ghost predicate NeverTwice(p: Pipe, run: seq<Step>)
    requires Possible(p, run)
    decreases |run|
  {
    run == [] || (!LeavesTwice(p, run[0]) && NeverTwice(Next(p, run[0]), run[1..]))
  }

  lemma {:induction false} RepeatsGrowWithLeavings(p: Pipe, run: seq<Step>)
    requires Possible(p, run)
    ensures |After(p, run).repeats| >= |p.repeats|
    ensures |After(p, run).repeats| == |p.repeats| <==> NeverTwice(p, run)
    decreases |run|
  {
    if run != [] {
      TwiceStep(p, run[0]);
      RepeatsGrowWithLeavings(Next(p, run[0]), run[1..]);
    }
  }

  lemma TwiceStep(p: Pipe, step: Step)
    requires Enabled(p, step)
    ensures var q := Next(p, step);
            && |q.repeats| >= |p.repeats| && (|q.repeats| > |p.repeats| <==> LeavesTwice(p, step))
  {
    match step
    case Hold(n) =>
      if 0 < n < |Segments(p.batch)| {
        SegmentsAreFull(p.batch);
        assert Segments(p.batch)[..n][0] == Segments(p.batch)[0];
      }
    case _ =>
  }

  lemma SegmentsAreFull(items: seq<Item>)
    ensures Segments(items) != [] ==> Segments(items)[0] != []
  {
  }

  ghost predicate Among(a: seq<Item>, b: seq<Item>) {
    forall x :: x in a ==> x in b
  }

  /** Only accepted events are anywhere, or left in two places. */
  ghost predicate OnlyAccepted(p: Pipe) {
    && Among(p.emitting, p.accepted) && Among(p.queue, p.accepted) && Among(p.overflow, p.accepted)
    && Among(p.batch, p.accepted) && Among(Flat(p.disk), p.accepted) && Among(p.repeats, p.accepted)
  }

  lemma OnlyAcceptedStep(p: Pipe, step: Step)
    requires Enabled(p, step) && OnlyAccepted(p)
    ensures OnlyAccepted(Next(p, step))
  {
    match step
    case Delete => assert Flat(p.disk) == p.disk[0] + Flat(p.disk[1..]);
    case DeleteFails => assert Flat(p.disk) == p.disk[0] + Flat(p.disk[1..]);
    case Hold(n) =>
      var segments := Segments(p.batch);
      SegmentsHoldTheBatch(p.batch);
      assert segments[..n] + segments[n..] == segments;
      FlatConcat(segments[..n], segments[n..]);
      FlatConcat(p.disk, segments[..n]);
    case _ =>
  }

  lemma {:induction false} OnlyAcceptedRun(p: Pipe, run: seq<Step>)
    requires Possible(p, run) && OnlyAccepted(p)
    ensures OnlyAccepted(After(p, run))
    decreases |run|
  {
    if run != [] {
      OnlyAcceptedStep(p, run[0]);
      OnlyAcceptedRun(Next(p, run[0]), run[1..]);
    }
  }

  ghost predicate Exclusive(p: Pipe) {
    forall i :: 0 <= i < |p.accepted| ==> Places(p, p.accepted[i]) == 1
  }

  /** Every accepted event is in exactly one place exactly after the runs in which nothing
      was left in two. */
  lemma PlacesAreExclusiveExactlyWhen(buffer: nat, run: seq<Step>)
    requires Possible(Start(buffer), run)
    ensures Exclusive(After(Start(buffer), run)) <==> NeverTwice(Start(buffer), run)
  {
    var p := After(Start(buffer), run);
    NothingIsLostSilently(buffer, run);
    OnlyAcceptedRun(Start(buffer), run);
    RepeatsGrowWithLeavings(Start(buffer), run);
    if p.repeats != [] {
      var x := p.repeats[0];
      assert x in p.repeats && Times(p.repeats, x) > 0;
      var i :| 0 <= i < |p.accepted| && p.accepted[i] == x;
      assert Places(p, p.accepted[i]) == 1 + Times(p.repeats, x);
    }
  }

  /** No deletion fails, and no batch goes to disk that needs more than one segment. */
  ghost predicate Smooth(p: Pipe, run: seq<Step>)
    requires Possible(p, run)
    decreases |run|
  {
    run == []
    || (run[0] != DeleteFails && (run[0].Hold? ==> |p.batch| <= SEGMENT_MAX) && Smooth(Next(p, run[0]), run[1..]))
  }

  lemma {:induction false} SmoothLeavesNothingTwice(p: Pipe, run: seq<Step>)
    requires Possible(p, run) && Smooth(p, run)
    ensures NeverTwice(p, run)
    decreases |run|
  {
    if run != [] {
      SegmentsHoldTheBatch(p.batch);
      SmoothLeavesNothingTwice(Next(p, run[0]), run[1..]);
    }
  }

  /** So they are exclusive whenever deletions succeed and batches fit one segment. */
  lemma SmoothRunsAreExclusive(buffer: nat, run: seq<Step>)
    requires Possible(Start(buffer), run) && Smooth(Start(buffer), run)
    ensures Exclusive(After(Start(buffer), run))
  {
    SmoothLeavesNothingTwice(Start(buffer), run);
    PlacesAreExclusiveExactlyWhen(buffer, run);
  }
}
