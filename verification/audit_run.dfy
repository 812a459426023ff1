/** Whole runs of the writer goroutine: batches handed to it one after another, with
    the process stopping and starting again in between. */
module AuditRun {
  import opened Collections
  import opened SegmentNames
  import opened AuditSpool
  import opened AuditGap
  import opened AuditWriter

  /** A batch to deliver, with what the clock, the disk and the retry policy say
      during it; or a new process over what the last one left. */
  datatype Job = Deliver(batch: seq<Item>, now: nat, room: nat, retries: nat) | Reopen

  ghost predicate JobOk(job: Job) {
    job.Deliver? ==> forall i :: i in job.batch ==> Accepted(i)
  }

  function BatchOf(job: Job): seq<Item> {
    if job.Deliver? then job.batch else []
  }

  /** The batches, one behind the other. */
  function Batches(jobs: seq<Job>): seq<Item> {
    if jobs == [] then [] else Batches(jobs[..|jobs| - 1]) + BatchOf(jobs[|jobs| - 1])
  }

  // --- one job ---------------------------------------------------------------------------

  /** What a run can be seen to have at a moment: the events in the chain, the spool, how
      many events all processes so far counted as lost, and the answers still to come. */
  datatype Moment = Moment(logged: seq<Item>, disk: Directory, names: seq<Segment>, lost: nat, answers: seq<bool>)

  /** What one job came to: how much of its batch was stored, what was replayed ahead of
      it, and what chain and disk held then. */
  datatype Outcome = Outcome(stored: nat, replay: Replayed, base: seq<Item>)

  ghost function At(w: Writer): Moment
    reads w, w.spool
  {
    Moment(EventsIn(w.chain), w.Disk(), w.Listed(), w.lostBefore + w.droppedTotal, w.answers)
  }

  /** The chain followed by the disk. */
  ghost function Held(m: Moment): seq<Item>
    requires AreOn(m.disk, m.names)
  {
    m.logged + Waiting(m.disk, m.names)
  }

  /** The part of a job's batch that was stored. */
  function Part(job: Job, o: Outcome): seq<Item> {
    if o.stored <= |BatchOf(job)| then BatchOf(job)[..o.stored] else []
  }

  /** The events of the segment the job could not delete after its replay. */
  ghost function Twice(m: Moment, o: Outcome): seq<Item> {
    LeftTwice(m.disk, m.names, o.replay)
  }

  function LostBy(job: Job, o: Outcome): nat {
    if o.stored < |BatchOf(job)| then |BatchOf(job)| else 0
  }

  /** A batch comes behind what the replay ahead of it kept, whole, or whole segments of it
      at most, and then all of it is counted as lost. Unless something was refused it is whole,
      nothing was left twice and all of it is in the chain. A new process changes nothing. */
  ghost predicate Legal(job: Job, m: Moment, o: Outcome, m': Moment) {
    && AreOn(m.disk, m.names) && AreOn(m'.disk, m'.names)
    && match job
       case Reopen => m' == m && o == Outcome(0, NOTHING, Held(m))
       case Deliver(batch, _, _, _) =>
         && Kept(o.replay, m.logged, m.disk, m.names, o.base)
         && (o.stored == |batch| || (o.stored < |batch| && FullSegments(o.stored)))
         && Held(m') == o.base + batch[..o.stored]
         && m'.lost == m.lost + LostBy(job, o)
         && (o.replay.again ==> m'.names != [] && m'.names[0] == m.names[o.replay.moved])
         && Took(m.answers, m'.answers)
         && (Refused(m.answers, m'.answers)
             || (o.stored == |batch| && !o.replay.again && m'.logged == Held(m')))
  }

  /** A run, moment by moment. */
  ghost predicate Traced(jobs: seq<Job>, trace: seq<Moment>, outcomes: seq<Outcome>) {
    && |trace| == |jobs| + 1 && |outcomes| == |jobs|
    && forall i :: 0 <= i < |jobs| ==> Legal(jobs[i], trace[i], outcomes[i], trace[i + 1])
  }

  // --- what a run keeps --------------------------------------------------------------------

  /** The stored parts of the batches, one behind the other. */
  function Parts(jobs: seq<Job>, outcomes: seq<Outcome>): seq<Item>
    requires |outcomes| == |jobs|
  {
    if jobs == [] then []
    else
      var n := |jobs| - 1;
      Parts(jobs[..n], outcomes[..n]) + Part(jobs[n], outcomes[n])
  }

  /** The events of all segments that were left in two places, once for every time. */
  ghost function AllTwice(trace: seq<Moment>, outcomes: seq<Outcome>): seq<Item>
    requires |trace| == |outcomes| + 1
    decreases |outcomes|
  {
    if outcomes == [] then []
    else
      var n := |outcomes| - 1;
      AllTwice(trace[..n + 1], outcomes[..n]) + Twice(trace[n], outcomes[n])
  }

  /** How many events were lost. */
  function Lost(jobs: seq<Job>, outcomes: seq<Outcome>): nat
    requires |outcomes| == |jobs|
  {
    if jobs == [] then 0
    else
      var n := |jobs| - 1;
      Lost(jobs[..n], outcomes[..n]) + LostBy(jobs[n], outcomes[n])
  }

  /** From what chain and disk held to what they hold after a stretch of a run: `new`
      behind it, and otherwise the same but for `twice`, which is there once more. */
  ghost predicate Grew(before: seq<Item>, added: seq<Item>, twice: seq<Item>, after: seq<Item>) {
    && (twice == [] ==> after == before + added)
    && forall x :: Times(x, after) == Times(x, before) + Times(x, added) + Times(x, twice)
  }

  function Times(x: Item, items: seq<Item>): nat {
    multiset(items)[x]
  }

  lemma GrewMore(before: seq<Item>, a: seq<Item>, s: seq<Item>, middle: seq<Item>, b: seq<Item>, t: seq<Item>,
                 after: seq<Item>)
    requires Grew(before, a, s, middle) && Grew(middle, b, t, after)
    ensures Grew(before, a + b, s + t, after)
  {
    if s + t == [] {
      assert s == [] && t == [];
      Associates(before, a, b);
    }
    forall x ensures Times(x, after) == Times(x, before) + Times(x, a + b) + Times(x, s + t) {
      assert Times(x, a + b) == Times(x, a) + Times(x, b) && Times(x, s + t) == Times(x, s) + Times(x, t);
    }
  }

  /** A replay keeps everything, once more for the segment it left in both places. */
  lemma ReplayKeepsAll(r: Replayed, chain: seq<Item>, disk: Directory, names: seq<Segment>, base: seq<Item>,
                       part: seq<Item>)
    requires Kept(r, chain, disk, names, base)
    ensures Grew(chain + Waiting(disk, names), part, LeftTwice(disk, names, r), base + part)
  {
    WaitingSplits(disk, names, r.moved);
  }

  lemma JobKeeps(job: Job, m: Moment, o: Outcome, m': Moment)
    requires Legal(job, m, o, m')
    ensures Grew(Held(m), Part(job, o), Twice(m, o), Held(m')) && m'.lost == m.lost + LostBy(job, o)
  {
    match job
    case Reopen => assert Held(m) + [] == Held(m);
    case Deliver(batch, _, _, _) => ReplayKeepsAll(o.replay, m.logged, m.disk, m.names, o.base, batch[..o.stored]);
  }

  lemma TracedShorter(jobs: seq<Job>, trace: seq<Moment>, outcomes: seq<Outcome>)
    requires Traced(jobs, trace, outcomes) && jobs != []
    ensures Traced(jobs[..|jobs| - 1], trace[..|jobs|], outcomes[..|jobs| - 1])
  {
    var n := |jobs| - 1;
    forall i | 0 <= i < n ensures Legal(jobs[..n][i], trace[..n + 1][i], outcomes[..n][i], trace[..n + 1][i + 1]) {
      assert Legal(jobs[i], trace[i], outcomes[i], trace[i + 1]);
    }
  }

  /** Over a run, chain and disk grow by the stored parts, in order, and by nothing else but
      the segments left in two places; and exactly the batches not stored whole are counted. */
  lemma {:induction false} RunKeeps(jobs: seq<Job>, trace: seq<Moment>, outcomes: seq<Outcome>)
    requires Traced(jobs, trace, outcomes) && AreOn(trace[0].disk, trace[0].names)
    ensures var last := trace[|jobs|];
            && AreOn(last.disk, last.names)
            && Grew(Held(trace[0]), Parts(jobs, outcomes), AllTwice(trace, outcomes), Held(last))
            && last.lost == trace[0].lost + Lost(jobs, outcomes)
    decreases |jobs|
  {
    if jobs == [] {
      assert Held(trace[0]) + [] == Held(trace[0]);
    } else {
      var n := |jobs| - 1;
      TracedShorter(jobs, trace, outcomes);
      RunKeeps(jobs[..n], trace[..n + 1], outcomes[..n]);
      JobKeeps(jobs[n], trace[n], outcomes[n], trace[n + 1]);
      GrewMore(Held(trace[0]), Parts(jobs[..n], outcomes[..n]), AllTwice(trace[..n + 1], outcomes[..n]), Held(trace[n]),
               Part(jobs[n], outcomes[n]), Twice(trace[n], outcomes[n]), Held(trace[n + 1]));
    }
  }

  /** If nothing was lost, every batch was stored whole. */
  lemma {:induction false} NothingLostIsWhole(jobs: seq<Job>, trace: seq<Moment>, outcomes: seq<Outcome>)
    requires Traced(jobs, trace, outcomes) && Lost(jobs, outcomes) == 0
    ensures Parts(jobs, outcomes) == Batches(jobs)
    decreases |jobs|
  {
    if jobs != [] {
      var n := |jobs| - 1;
      TracedShorter(jobs, trace, outcomes);
      NothingLostIsWhole(jobs[..n], trace[..n + 1], outcomes[..n]);
      assert Legal(jobs[n], trace[n], outcomes[n], trace[n + 1]);
      assert BatchOf(jobs[n])[..|BatchOf(jobs[n])|] == BatchOf(jobs[n]);
    }
  }

  /** If nothing was refused, nothing was lost and nothing left in two places. */
  lemma {:induction false} NothingRefusedIsClean(jobs: seq<Job>, trace: seq<Moment>, outcomes: seq<Outcome>)
    requires Traced(jobs, trace, outcomes)
    ensures Took(trace[0].answers, trace[|jobs|].answers)
    ensures Refused(trace[0].answers, trace[|jobs|].answers)
            || (Lost(jobs, outcomes) == 0 && AllTwice(trace, outcomes) == [])
    decreases |jobs|
  {
    if jobs != [] {
      var n := |jobs| - 1;
      TracedShorter(jobs, trace, outcomes);
      NothingRefusedIsClean(jobs[..n], trace[..n + 1], outcomes[..n]);
      assert Legal(jobs[n], trace[n], outcomes[n], trace[n + 1]);
      RefusedSomewhere(trace[0].answers, trace[n].answers, trace[n + 1].answers);
    }
  }

  /** The environment says yes to everything, and there was no end of that. */
  ghost predicate AllGranted(before: seq<bool>, after: seq<bool>) {
    after != [] && forall a :: a in before ==> a
  }

  lemma GrantedIsNotRefused(before: seq<bool>, after: seq<bool>)
    ensures AllGranted(before, after) ==> !Refused(before, after)
  {
    if AllGranted(before, after) {
      assert forall k :: 0 <= k < |before| ==> before[k] in before;
    }
  }

  lemma RunPromises(jobs: seq<Job>, trace: seq<Moment>, outcomes: seq<Outcome>)
    requires Traced(jobs, trace, outcomes) && AreOn(trace[0].disk, trace[0].names)
    ensures var first, last := trace[0], trace[|jobs|];
            && AreOn(last.disk, last.names)
            && last.lost == first.lost + Lost(jobs, outcomes)
            && (AllTwice(trace, outcomes) == [] ==> Held(last) == Held(first) + Parts(jobs, outcomes))
            && Grew(Held(first), Parts(jobs, outcomes), AllTwice(trace, outcomes), Held(last))
            && (last.lost == first.lost ==> Parts(jobs, outcomes) == Batches(jobs))
            && (AllGranted(first.answers, last.answers) ==>
                  last.lost == first.lost && Held(last) == Held(first) + Batches(jobs))
  {
    RunKeeps(jobs, trace, outcomes);
    NothingRefusedIsClean(jobs, trace, outcomes);
    GrantedIsNotRefused(trace[0].answers, trace[|jobs|].answers);
    if Lost(jobs, outcomes) == 0 {
      NothingLostIsWhole(jobs, trace, outcomes);
    }
  }

  // --- the writer's runs ------------------------------------------------------------------------

  /** One job. Orders are 64-bit: a directory whose next order needs more is not opened
      again, and the run goes on with the process it has. */
  method RunOne(w: Writer, job: Job) returns (next: Writer, ghost o: Outcome)
    requires w.Valid() && JobOk(job)
    modifies w, w.spool
    ensures next.Valid() && (next == w || fresh(next)) && (job.Deliver? ==> next == w)
    ensures next.spool == w.spool || next.spool == null || fresh(next.spool)
    ensures Legal(job, old(At(w)), o, At(next))
  {
    next := w;
    match job {
      case Reopen =>
        o := Outcome(0, NOTHING, w.kept);
        if w.spool == null || w.spool.order <= ORDER_LIMIT {
          next := Restart(w, w.answers);
        }
      case Deliver(batch, now, room, retries) =>
        var ok, lost, base, stored, r := w.Deliver(batch, now, room, retries);
        o := Outcome(stored, r, base);
    }
  }

  method RunJobs(w: Writer, jobs: seq<Job>)
    returns (last: Writer, ghost trace: seq<Moment>, ghost outcomes: seq<Outcome>)
    requires w.Valid() && forall j :: j in jobs ==> JobOk(j)
    modifies w, w.spool
    ensures last.Valid() && Traced(jobs, trace, outcomes)
    ensures trace[0] == old(At(w)) && trace[|jobs|] == At(last)
  {
    last, trace, outcomes := w, [At(w)], [];
    for i := 0 to |jobs|
      invariant last.Valid() && (last == w || fresh(last))
      invariant last.spool == w.spool || last.spool == null || fresh(last.spool)
      invariant Traced(jobs[..i], trace, outcomes) && trace[0] == old(At(w)) && trace[i] == At(last)
    {
      ghost var o;
      assert jobs[i] in jobs;
      last, o := RunOne(last, jobs[i]);
      TracedLonger(jobs, i, trace, outcomes, o, At(last));
      trace, outcomes := trace + [At(last)], outcomes + [o];
    }
    assert jobs[..|jobs|] == jobs;
  }

  lemma TracedLonger(jobs: seq<Job>, i: nat, trace: seq<Moment>, outcomes: seq<Outcome>, o: Outcome, next: Moment)
    requires i < |jobs| && Traced(jobs[..i], trace, outcomes) && Legal(jobs[i], trace[i], o, next)
    ensures Traced(jobs[..i + 1], trace + [next], outcomes + [o])
  {
    var t, os := trace + [next], outcomes + [o];
    forall k | 0 <= k < i + 1 ensures Legal(jobs[..i + 1][k], t[k], os[k], t[k + 1]) {
      if k < i {
        assert Legal(jobs[..i][k], trace[k], outcomes[k], trace[k + 1]);
      }
    }
  }

  /** Any run. What is counted as lost, by all its processes together, are exactly the
      batches that were not stored whole. Where no segment outlived its replay, the chain
      followed by the disk is what it was at the start followed by the stored part of every
      batch, in order; where some did, exactly their events are there besides. */
  method Run(w: Writer, jobs: seq<Job>) returns (last: Writer, ghost trace: seq<Moment>, ghost outcomes: seq<Outcome>)
    requires w.Valid() && forall j :: j in jobs ==> JobOk(j)
    modifies w, w.spool
    ensures last.Valid() && Traced(jobs, trace, outcomes) && trace[0] == old(At(w)) && trace[|jobs|] == At(last)
    ensures last.lostBefore + last.droppedTotal == old(w.lostBefore + w.droppedTotal) + Lost(jobs, outcomes)
    ensures AllTwice(trace, outcomes) == [] ==>
              EventsIn(last.chain) + last.OnDisk() == old(EventsIn(w.chain) + w.OnDisk()) + Parts(jobs, outcomes)
    ensures Grew(old(EventsIn(w.chain) + w.OnDisk()), Parts(jobs, outcomes), AllTwice(trace, outcomes),
                 EventsIn(last.chain) + last.OnDisk())
    ensures last.lostBefore + last.droppedTotal == old(w.lostBefore + w.droppedTotal) ==>
              Parts(jobs, outcomes) == Batches(jobs)
    ensures AllGranted(old(w.answers), last.answers) ==>
              && last.lostBefore + last.droppedTotal == old(w.lostBefore + w.droppedTotal)
              && EventsIn(last.chain) + last.OnDisk() == old(EventsIn(w.chain) + w.OnDisk()) + Batches(jobs)
  {
    HeldIs(w);
    last, trace, outcomes := RunJobs(w, jobs);
    HeldIs(last);
    RunPromises(jobs, trace, outcomes);
  }

  lemma HeldIs(w: Writer)
    requires w.Valid()
    ensures AreOn(At(w).disk, At(w).names) && Held(At(w)) == EventsIn(w.chain) + w.OnDisk()
  {
  }
}
