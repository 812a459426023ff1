/** The queue's cap. The query that keeps it reads waiting requests and standing refusals
    under one limit, so a refusal among the newest lets the queue outgrow it. */
module ApprovalLimits {
  import opened Collections
  import opened Approvals

  /** The requests of one caller for one tool that are waiting. */
  function Queue(b: Book, tool: string, actor: string): set<nat> {
    set i: nat | i < |b.requests| && Waits(b.requests[i], tool, actor, b.now)
  }

  predicate Waits(r: Request, tool: string, actor: string, now: int) {
    r.tool == tool && r.requester == actor && Waiting(r, now)
  }

  /** The step makes a full queue longer. */
  ghost predicate Overfills(b: Book, step: Step, tool: string, actor: string) {
    && step.Raise? && step.tool == tool != "" && step.actor == actor != "" && step.ttl > 0
    && |Queue(b, tool, actor)| >= MAX_PENDING && SlipsThrough(b, tool, actor, step.args)
  }

  lemma {:induction false} NoMoreThanListed(a: set<nat>, s: seq<nat>)
    requires forall x :: x in a ==> x in s
    ensures |a| <= |s|
  {
    if s == [] {
      assert a == {};
    } else {
      NoMoreThanListed(a - {s[0]}, s[1..]);
      assert a <= a - {s[0]} + {s[0]};
      SubsetSize(a, a - {s[0]} + {s[0]});
    }
  }

  /** Behind a full queue a call gets through exactly when it slips through. */
  lemma ThroughAFullQueueExactlyWhen(b: Book, tool: string, actor: string, args: string)
    requires |Queue(b, tool, actor)| >= MAX_PENDING
    ensures RaiseOutcome(b, tool, actor, args).New? <==> SlipsThrough(b, tool, actor, args)
  {
    var found := Newest(b.requests, tool, actor, b.now, MAX_PENDING);
    RaisedExactlyWhen(b, tool, actor, args);
    if |found| < MAX_PENDING {
      forall i | i in Queue(b, tool, actor) ensures i in found {
        NewestReadsTheNewest(b.requests, tool, actor, b.now, MAX_PENDING, i);
      }
      NoMoreThanListed(Queue(b, tool, actor), found);
    }
  }

  /** The step is a call of this caller for this tool, and raises a request. */
  predicate Lengthens(b: Book, step: Step, tool: string, actor: string) {
    && step.Raise? && step.tool == tool != "" && step.actor == actor != "" && step.ttl > 0
    && RaiseOutcome(b, tool, actor, step.args).New?
  }

  /** Such a step lengthens the queue by one, and no other lengthens it. */
  lemma QueueGrows(b: Book, step: Step, tool: string, actor: string)
    ensures |Queue(Next(b, step), tool, actor)| <=
            |Queue(b, tool, actor)| + if Lengthens(b, step, tool, actor) then 1 else 0
    ensures Lengthens(b, step, tool, actor) ==> |Queue(Next(b, step), tool, actor)| == |Queue(b, tool, actor)| + 1
  {
    if Lengthens(b, step, tool, actor) {
      assert Queue(Next(b, step), tool, actor) == Queue(b, tool, actor) + {|b.requests|};
    } else {
      OthersAddNothing(b, step, tool, actor);
      SubsetSize(Queue(Next(b, step), tool, actor), Queue(b, tool, actor));
    }
  }

  lemma OthersAddNothing(b: Book, step: Step, tool: string, actor: string)
    requires !Lengthens(b, step, tool, actor)
    ensures Queue(Next(b, step), tool, actor) <= Queue(b, tool, actor)
  {
    forall i | i in Queue(Next(b, step), tool, actor) ensures i in Queue(b, tool, actor) {
      if i < |b.requests| {
        StillWaits(b, step, i, tool, actor);
      }
    }
  }

  lemma StillWaits(b: Book, step: Step, i: nat, tool: string, actor: string)
    requires i < |b.requests|
    requires i < |Next(b, step).requests| && Waits(Next(b, step).requests[i], tool, actor, Next(b, step).now)
    ensures Waits(b.requests[i], tool, actor, b.now)
  {
    StepMoves(b, step, i);
  }

  /** One step takes a queue over twenty exactly when it overfills it. */
  lemma StepOverfillsExactlyWhen(b: Book, step: Step, tool: string, actor: string)
    requires |Queue(b, tool, actor)| <= MAX_PENDING
    ensures |Queue(Next(b, step), tool, actor)| > MAX_PENDING <==> Overfills(b, step, tool, actor)
  {
    QueueGrows(b, step, tool, actor);
    if |Queue(b, tool, actor)| == MAX_PENDING && step.Raise? {
      ThroughAFullQueueExactlyWhen(b, tool, actor, step.args);
    }
  }

  /** At most twenty wait, all through the run. */
  ghost predicate KeepsTheCap(b: Book, run: seq<Step>, tool: string, actor: string)
    decreases |run|
  {
    && |Queue(After(b, run), tool, actor)| <= MAX_PENDING
    && (run != [] ==> KeepsTheCap(b, run[..|run| - 1], tool, actor))
  }

  /** No step of the run overfills the queue. */
  ghost predicate NeverOverfills(b: Book, run: seq<Step>, tool: string, actor: string)
    decreases |run|
  {
    run != [] ==>
      && NeverOverfills(b, run[..|run| - 1], tool, actor)
      && !Overfills(After(b, run[..|run| - 1]), run[|run| - 1], tool, actor)
  }

  /** A run keeps at most twenty waiting all the way exactly when no step of it
      overfills the queue. */
  lemma {:induction false} CapHoldsExactlyWhen(b: Book, run: seq<Step>, tool: string, actor: string)
    requires |Queue(b, tool, actor)| <= MAX_PENDING
    ensures KeepsTheCap(b, run, tool, actor) <==> NeverOverfills(b, run, tool, actor)
    decreases |run|
  {
    if run != [] {
      var n := |run| - 1;
      CapHoldsExactlyWhen(b, run[..n], tool, actor);
      if KeepsTheCap(b, run[..n], tool, actor) {
        StepOverfillsExactlyWhen(After(b, run[..n]), run[n], tool, actor);
      }
    }
  }

  ghost predicate NoneRefused(b: Book, tool: string, actor: string) {
    forall i :: 0 <= i < |b.requests| && Candidate(b.requests[i], tool, actor, b.now) ==> !Refused(b.requests[i], b.now)
  }

  /** No refusal of this caller for this tool stands, all through the run. */
  ghost predicate NeverRefused(b: Book, run: seq<Step>, tool: string, actor: string)
    decreases |run|
  {
    NoneRefused(After(b, run), tool, actor) && (run != [] ==> NeverRefused(b, run[..|run| - 1], tool, actor))
  }

  lemma {:induction false} UnrefusedNeverOverfills(b: Book, run: seq<Step>, tool: string, actor: string)
    requires NeverRefused(b, run, tool, actor)
    ensures NeverOverfills(b, run, tool, actor)
    decreases |run|
  {
    if run != [] {
      UnrefusedNeverOverfills(b, run[..|run| - 1], tool, actor);
      assert NoneRefused(After(b, run[..|run| - 1]), tool, actor);
    }
  }

  /** As long as no refusal of this caller for this tool stands, at most twenty of its
      requests wait, and none that waits is raised again. */
  lemma WithoutRefusalsBothHold(b: Book, run: seq<Step>, tool: string, actor: string, args: string, id: nat)
    requires |Queue(b, tool, actor)| <= MAX_PENDING && NeverRefused(b, run, tool, actor)
    ensures KeepsTheCap(b, run, tool, actor)
    ensures var c := After(b, run);
            id in Queue(c, tool, actor) && c.requests[id].args == args ==> !RaiseOutcome(c, tool, actor, args).New?
  {
    var c := After(b, run);
    UnrefusedNeverOverfills(b, run, tool, actor);
    CapHoldsExactlyWhen(b, run, tool, actor);
    if id in Queue(c, tool, actor) && c.requests[id].args == args {
      AskedTwiceExactlyWhen(c, tool, actor, args, id);
    }
  }

  // --- a queue that is overfilled -------------------------------------------------------

  function Asked(args: string, state: State): Request {
    Request("refund", "ana", args, 10, state, 0, 10, if state.Rejected? then "ben" else "", 0, 0, 0, false, "", None)
  }

  /** Twenty requests waiting, the first of them for `z`, and then one that was refused. */
  function Crowd(): Book {
    Book([Asked("z", Pending)] + seq(19, _ => Asked("x", Pending)) + [Asked("y", Rejected)], map[], 5)
  }

  lemma {:induction false} NewestWhenAllAre(requests: seq<Request>, tool: string, actor: string, now: int, limit: nat)
    requires limit <= |requests| && forall i :: |requests| - limit <= i < |requests| ==>
               Candidate(requests[i], tool, actor, now)
    ensures var found := Newest(requests, tool, actor, now, limit);
            |found| == limit && forall k :: 0 <= k < limit ==> found[k] == |requests| - 1 - k
    decreases limit
  {
    if limit > 0 {
      NewestWhenAllAre(requests[..|requests| - 1], tool, actor, now, limit - 1);
    }
  }

  lemma CrowdIs()
    ensures var b := Crowd();
            && |b.requests| == 21 && Waiting(b.requests[0], b.now) && b.requests[0].args == "z"
            && (forall i :: 0 <= i < 20 ==> Waiting(b.requests[i], b.now))
            && (forall i :: 1 <= i < 21 ==>
                   Candidate(b.requests[i], "refund", "ana", b.now) && b.requests[i].args != "z")
            && !Waiting(b.requests[20], b.now)
  {
    assert "x"[0] != "z"[0] && "y"[0] != "z"[0];
  }

  /** With one standing refusal among the newest, the same call is raised a second time
      while its first request still waits, and as the twenty-first one waiting. */
  lemma ARefusalOpensTheQueue()
    ensures var b := Crowd();
            && |b.requests| == 21 && Waiting(b.requests[0], b.now) && b.requests[0].args == "z"
            && (forall i :: 0 <= i < 20 ==> Waiting(b.requests[i], b.now))
            && RaiseOutcome(b, "refund", "ana", "z") == New(21)
  {
    CrowdIs();
    MissedBehindTheNewest(Crowd(), "refund", "ana", "z");
  }

  lemma MissedBehindTheNewest(b: Book, tool: string, actor: string, args: string)
    requires |b.requests| > MAX_PENDING && !Waiting(b.requests[|b.requests| - 1], b.now)
    requires forall i :: |b.requests| - MAX_PENDING <= i < |b.requests| ==>
               Candidate(b.requests[i], tool, actor, b.now) && b.requests[i].args != args
    ensures RaiseOutcome(b, tool, actor, args) == New(|b.requests|)
  {
    var found := Newest(b.requests, tool, actor, b.now, MAX_PENDING);
    NewestWhenAllAre(b.requests, tool, actor, b.now, MAX_PENDING);
    RaisedExactlyWhen(b, tool, actor, args);
    assert found[0] == |b.requests| - 1;
  }
}
