/** Requests for a person's approval: how each moves, and what may never happen to
    one. A step is one transaction; `now` is the time the database gives it. */
module Approvals {
  import opened Collections

  datatype State = Pending | Approved | Rejected | Expired | Cancelled | Consumed

  /** A request as stored. The arguments are what was sealed when it was raised.
      `behaviour` is history: what the tool did when the request was raised. */
  datatype Request = Request(
    tool: string, requester: string, args: string, ttl: nat,
    state: State, createdAt: int, expiresAt: int,
    decidedBy: string, decidedAt: int, cancelledAt: int, consumedAt: int,
    acknowledged: bool, reason: string, behaviour: Option<nat>)

  /** Requests in the order they were raised, each known by its place; what each tool
      does now; and the clock. */
  datatype Book = Book(requests: seq<Request>, tools: map<string, nat>, now: int)

  const MAX_PENDING := 20
  const DEFAULT_TTL := 3600

  // --- what a reader is told -------------------------------------------------------------

  function EffectiveState(r: Request, now: int): State {
    if r.state.Pending? && r.expiresAt <= now then Expired else r.state
  }

  /** Waiting for an answer that could still be given. */
  predicate Waiting(r: Request, now: int) {
    r.state.Pending? && r.expiresAt > now
  }

  /** Refused, and the refusal still stands. */
  predicate Refused(r: Request, now: int) {
    r.state.Rejected? && r.decidedAt > now - r.ttl
  }

  // --- the same call ----------------------------------------------------------------------

  predicate Candidate(r: Request, tool: string, actor: string, now: int) {
    r.tool == tool && r.requester == actor && (Waiting(r, now) || Refused(r, now))
  }

  /** The newest candidates, newest first, at most `limit` of them. */
  function Newest(requests: seq<Request>, tool: string, actor: string, now: int, limit: nat): (found: seq<nat>)
    ensures |found| <= limit
    ensures forall k :: 0 <= k < |found| ==> found[k] < |requests| && Candidate(requests[found[k]], tool, actor, now)
    ensures forall k :: 0 < k < |found| ==> found[k] < found[k - 1]
    decreases |requests|
  {
    if requests == [] || limit == 0 then []
    else
      var n := |requests| - 1;
      if Candidate(requests[n], tool, actor, now)
      then [n] + Newest(requests[..n], tool, actor, now, limit - 1)
      else Newest(requests[..n], tool, actor, now, limit)
  }

  function CountWaiting(requests: seq<Request>, found: seq<nat>, now: int): nat
    requires forall k :: 0 <= k < |found| ==> found[k] < |requests|
  {
    if found == [] then 0
    else CountWaiting(requests, found[..|found| - 1], now) + if Waiting(requests[found[|found| - 1]], now) then 1 else 0
  }

  /** The newest of the candidates that asked for exactly this. */
  function SameCall(requests: seq<Request>, found: seq<nat>, args: string): Option<nat>
    requires forall k :: 0 <= k < |found| ==> found[k] < |requests|
  {
    if found == [] then None
    else if requests[found[0]].args == args then Some(found[0])
    else SameCall(requests, found[1..], args)
  }

  datatype Raised = Existing(id: nat) | TooMany | New(id: nat)

  function RaiseOutcome(b: Book, tool: string, actor: string, args: string): Raised {
    var found := Newest(b.requests, tool, actor, b.now, MAX_PENDING);
    match SameCall(b.requests, found, args)
    case Some(id) => Existing(id)
    case None => if CountWaiting(b.requests, found, b.now) >= MAX_PENDING then TooMany else New(|b.requests|)
  }

  // --- the steps --------------------------------------------------------------------------

  datatype Step =
    | Raise(tool: string, actor: string, args: string, ttl: nat)
    | Decide(id: nat, actor: string, approve: bool, reason: string)
    | Cancel(id: nat, actor: string, reason: string, unconfirmedOnly: bool)
    | Acknowledge(id: nat, actor: string)
    | Claim(id: nat, actor: string)
    | Sweep
    | EditTool(tool: string, behaviour: nat)
    | DeleteTool(tool: string)
    | Tick(d: nat)

  function NewRequest(b: Book, tool: string, actor: string, args: string, ttl: nat): Request {
    Request(tool, actor, args, ttl, Pending, b.now, b.now + ttl, "", 0, 0, 0, false, "",
            if tool in b.tools then Some(b.tools[tool]) else None)
  }

  predicate MayDecide(r: Request, actor: string, now: int) {
    Waiting(r, now) && r.requester != actor
  }

  predicate MayCancel(r: Request, actor: string, unconfirmedOnly: bool) {
    r.state.Pending? && r.requester == actor && !(unconfirmedOnly && r.acknowledged)
  }

  predicate MayAcknowledge(r: Request, actor: string, now: int) {
    Waiting(r, now) && r.requester == actor && !r.acknowledged
  }

  predicate MayClaim(r: Request, actor: string, now: int) {
    r.state.Approved? && r.expiresAt > now && r.requester == actor
  }

  function Decided(r: Request, actor: string, approve: bool, reason: string, now: int): Request {
    r.(state := if approve then Approved else Rejected, decidedBy := actor, decidedAt := now, reason := reason,
       expiresAt := if approve then now + r.ttl else r.expiresAt)
  }

  /** What becomes of a request in a transaction that is about it. */
  function Touched(r: Request, step: Step, now: int): Request {
    match step
    case Decide(_, actor, approve, reason) =>
      if actor != "" && (approve || reason != "") && MayDecide(r, actor, now)
      then Decided(r, actor, approve, reason, now) else r
    case Cancel(_, actor, reason, unconfirmedOnly) =>
      if actor != "" && MayCancel(r, actor, unconfirmedOnly)
      then r.(state := Cancelled, cancelledAt := now, reason := reason) else r
    case Acknowledge(_, actor) => if actor != "" && MayAcknowledge(r, actor, now) then r.(acknowledged := true) else r
    case Claim(_, actor) => if MayClaim(r, actor, now) then r.(state := Consumed, consumedAt := now) else r
    case _ => r
  }

  function Settled(r: Request, now: int): Request {
    if r.state.Pending? && r.expiresAt <= now then r.(state := Expired) else r
  }

  /** A tool that changes what it does takes its open requests with it. */
  const CHANGED := "the tool's definition changed"
  const DELETED := "the tool was deleted"

  function Withdrawn(r: Request, tool: string, why: string, now: int): Request {
    if r.tool == tool && (r.state.Pending? || r.state.Approved?)
    then r.(state := Cancelled, cancelledAt := now, reason := why) else r
  }

  function SettleAll(requests: seq<Request>, now: int): (all: seq<Request>)
    ensures |all| == |requests| && forall i :: 0 <= i < |all| ==> all[i] == Settled(requests[i], now)
  {
    seq(|requests|, i requires 0 <= i < |requests| => Settled(requests[i], now))
  }

  function WithdrawAll(requests: seq<Request>, tool: string, why: string, now: int): (all: seq<Request>)
    ensures |all| == |requests| && forall i :: 0 <= i < |all| ==> all[i] == Withdrawn(requests[i], tool, why, now)
  {
    seq(|requests|, i requires 0 <= i < |requests| => Withdrawn(requests[i], tool, why, now))
  }

  function Next(b: Book, step: Step): Book {
    match step
    case Raise(tool, actor, args, ttl) =>
      if tool == "" || actor == "" || !RaiseOutcome(b, tool, actor, args).New? then b
      else b.(requests := b.requests + [NewRequest(b, tool, actor, args, ttl)])
    case Sweep => b.(requests := SettleAll(b.requests, b.now))
    case EditTool(tool, behaviour) =>
      if tool !in b.tools || b.tools[tool] == behaviour then b.(tools := b.tools[tool := behaviour])
      else Book(WithdrawAll(b.requests, tool, CHANGED, b.now), b.tools[tool := behaviour], b.now)
    case DeleteTool(tool) => Book(WithdrawAll(b.requests, tool, DELETED, b.now), b.tools - {tool}, b.now)
    case Tick(d) => b.(now := b.now + d)
    case _ =>
      if step.id < |b.requests| then b.(requests := b.requests[step.id := Touched(b.requests[step.id], step, b.now)])
      else b
  }

  function After(b: Book, run: seq<Step>): Book {
    if run == [] then b else Next(After(b, run[..|run| - 1]), run[|run| - 1])
  }

  const START := Book([], map[], 0)

  // --- one request's life -----------------------------------------------------------------

  /** Somebody other than the asker answered in time. */
  predicate Answered(r: Request) {
    r.decidedBy != "" && r.decidedBy != r.requester && r.createdAt <= r.decidedAt < r.createdAt + r.ttl
  }

  predicate Lived(r: Request, now: int) {
    && r.createdAt <= now
    && match r.state
       case Pending => r.decidedBy == "" && r.expiresAt == r.createdAt + r.ttl
       case Approved => Answered(r) && r.decidedAt <= now && r.expiresAt == r.decidedAt + r.ttl
       case Rejected => Answered(r) && r.decidedAt <= now
       case Expired => r.decidedBy == "" && r.createdAt + r.ttl <= now
       case Cancelled => true
       case Consumed => Answered(r) && r.decidedAt <= r.consumedAt < r.decidedAt + r.ttl && r.consumedAt <= now
  }

  predicate Open(r: Request) {
    r.state.Pending? || r.state.Approved?
  }

  /** An open request's tool still does what it did when the request was raised. */
  predicate Current(r: Request, tools: map<string, nat>) {
    Open(r) && r.behaviour.Some? ==> r.tool in tools && tools[r.tool] == r.behaviour.value
  }

  ghost predicate BookOk(b: Book) {
    forall i :: 0 <= i < |b.requests| ==> Lived(b.requests[i], b.now) && Current(b.requests[i], b.tools)
  }

  lemma TouchedLives(r: Request, step: Step, now: int)
    requires Lived(r, now)
    ensures Lived(Touched(r, step, now), now) && SameQuestion(r, Touched(r, step, now))
    ensures !Open(r) ==> Touched(r, step, now) == r
  {
  }

  lemma BookStep(b: Book, step: Step)
    requires BookOk(b)
    ensures BookOk(Next(b, step))
  {
    var c := Next(b, step);
    forall i | 0 <= i < |c.requests| ensures Lived(c.requests[i], c.now) && Current(c.requests[i], c.tools) {
      if i < |b.requests| {
        OldRequestLives(b, step, i);
      }
    }
  }

  lemma OldRequestLives(b: Book, step: Step, i: nat)
    requires BookOk(b) && i < |b.requests|
    ensures var c := Next(b, step); i < |c.requests| && Lived(c.requests[i], c.now) && Current(c.requests[i], c.tools)
  {
    assert Lived(b.requests[i], b.now) && Current(b.requests[i], b.tools);
    TouchedLives(b.requests[i], step, b.now);
  }

  lemma {:induction false} EveryBookIsOk(run: seq<Step>)
    ensures BookOk(After(START, run))
    decreases |run|
  {
    if run != [] {
      EveryBookIsOk(run[..|run| - 1]);
      BookStep(After(START, run[..|run| - 1]), run[|run| - 1]);
    }
  }

  /** Requests are never removed, and who asked for what, for how long, never changes. */
  predicate SameQuestion(a: Request, b: Request) {
    && a.tool == b.tool && a.requester == b.requester && a.args == b.args && a.ttl == b.ttl
    && a.createdAt == b.createdAt && a.behaviour == b.behaviour
  }

  /** The moves a request can make, and nothing else. */
  predicate Moves(from: State, to: State) {
    || from == to
    || (from.Pending? && to in {Approved, Rejected, Expired, Cancelled})
    || (from.Approved? && to in {Consumed, Cancelled})
  }

  lemma StepMoves(b: Book, step: Step, id: nat)
    requires id < |b.requests|
    ensures var c := Next(b, step);
            && id < |c.requests| && SameQuestion(b.requests[id], c.requests[id])
            && Moves(b.requests[id].state, c.requests[id].state)
            && (!Open(b.requests[id]) ==> c.requests[id] == b.requests[id])
  {
  }

  /** A request that is rejected, expired, cancelled or consumed has no successor: no
      run changes anything about it. */
  lemma {:induction false} ClosedForGood(b: Book, run: seq<Step>, id: nat)
    requires id < |b.requests| && !Open(b.requests[id])
    ensures id < |After(b, run).requests| && After(b, run).requests[id] == b.requests[id]
    decreases |run|
  {
    if run != [] {
      ClosedForGood(b, run[..|run| - 1], id);
      StepMoves(After(b, run[..|run| - 1]), run[|run| - 1], id);
    }
  }

  lemma {:induction false} QuestionNeverChanges(b: Book, run: seq<Step>, id: nat)
    requires id < |b.requests|
    ensures id < |After(b, run).requests| && SameQuestion(b.requests[id], After(b, run).requests[id])
    ensures b.now <= After(b, run).now
    decreases |run|
  {
    if run != [] {
      QuestionNeverChanges(b, run[..|run| - 1], id);
      StepMoves(After(b, run[..|run| - 1]), run[|run| - 1], id);
    }
  }

  /** A request nobody answered in time is never approved afterwards, whether or not
      the sweep has been round. */
  predicate Late(r: Request, now: int) {
    r.state.Expired? || r.state.Cancelled? || (r.state.Pending? && r.expiresAt <= now)
  }

  lemma LateStep(b: Book, step: Step, id: nat)
    requires id < |b.requests| && Late(b.requests[id], b.now)
    ensures id < |Next(b, step).requests| && Late(Next(b, step).requests[id], Next(b, step).now)
  {
    StepMoves(b, step, id);
  }

  lemma {:induction false} LateIsNeverApproved(b: Book, run: seq<Step>, id: nat)
    requires id < |b.requests| && Late(b.requests[id], b.now)
    ensures id < |After(b, run).requests|
    ensures var r, now := After(b, run).requests[id], After(b, run).now;
            Late(r, now) && EffectiveState(r, now) in {Expired, Cancelled}
    decreases |run|
  {
    if run != [] {
      LateIsNeverApproved(b, run[..|run| - 1], id);
      LateStep(After(b, run[..|run| - 1]), run[|run| - 1], id);
    }
  }

  /** A decision that may not be made, a late one among them, changes nothing at all. */
  lemma ARefusedDecisionChangesNothing(b: Book, id: nat, actor: string, approve: bool, reason: string)
    requires id < |b.requests| && (Late(b.requests[id], b.now) || !MayDecide(b.requests[id], actor, b.now))
    ensures Next(b, Decide(id, actor, approve, reason)) == b
  {
    assert b.requests[id := b.requests[id]] == b.requests;
  }

  // --- where a request comes from ----------------------------------------------------------

  /** Step k of the run raised the request: it asked for exactly what the request says. */
  predicate RaisedBy(run: seq<Step>, k: nat, r: Request, id: nat) {
    && k < |run| && run[k].Raise?
    && |After(START, run[..k]).requests| == id && |After(START, run[..k + 1]).requests| == id + 1
    && run[k].tool == r.tool && run[k].actor == r.requester && run[k].args == r.args && run[k].ttl == r.ttl
    && After(START, run[..k]).now == r.createdAt
  }

  /** The step decides request id. */
  predicate TakesEffect(b: Book, step: Step, id: nat) {
    && step.Decide? && id < |b.requests| && b.requests[id].state == Pending
    && Next(b, step).requests[id].state in {Approved, Rejected}
  }

  /** Step k of the run decided it, and somebody else than its asker took that step. */
  predicate DecidedBy(run: seq<Step>, k: nat, r: Request, id: nat, approve: bool) {
    && k < |run| && TakesEffect(After(START, run[..k]), run[k], id) && run[k].id == id && run[k].approve == approve
    && run[k].actor == r.decidedBy != r.requester
    && After(START, run[..k]).now == r.decidedAt < r.createdAt + r.ttl
  }

  lemma RaisesWhatWasAsked(b: Book, step: Step)
    requires |Next(b, step).requests| > |b.requests|
    ensures step.Raise? && |Next(b, step).requests| == |b.requests| + 1
    ensures var r := Next(b, step).requests[|b.requests|];
            && r.tool == step.tool && r.requester == step.actor && r.args == step.args && r.ttl == step.ttl
            && r.createdAt == b.now && r.state == Pending && r.expiresAt == b.now + step.ttl
  {
  }

  /** Every request was raised by a step of the run that asked for exactly it. */
  lemma {:induction false} EveryRequestWasRaised(run: seq<Step>, id: nat) returns (k: nat)
    requires id < |After(START, run).requests|
    ensures RaisedBy(run, k, After(START, run).requests[id], id)
    decreases |run|
  {
    var n := |run| - 1;
    var before := After(START, run[..n]);
    if id < |before.requests| {
      k := EveryRequestWasRaised(run[..n], id);
      StepMoves(before, run[n], id);
      assert run[..n][..k] == run[..k] && run[..n][..k + 1] == run[..k + 1];
    } else {
      RaisesWhatWasAsked(before, run[n]);
      assert run[..n + 1] == run;
      k := n;
    }
  }

  /** A decision that takes effect: what it says is what becomes of the request. */
  lemma DecidesAsTold(b: Book, id: nat, actor: string, approve: bool, reason: string)
    requires id < |b.requests| && b.requests[id].state == Pending && b.requests[id].expiresAt > b.now
    requires actor != "" && actor != b.requests[id].requester && (approve || reason != "")
    ensures var r, d := b.requests[id], Next(b, Decide(id, actor, approve, reason)).requests[id];
            && d.state == (if approve then Approved else Rejected)
            && d.decidedBy == actor && d.decidedAt == b.now && d.reason == reason
            && d.expiresAt == (if approve then b.now + r.ttl else r.expiresAt)
  {
  }

  /** Only such a decision approves a request, and only such a one rejects it. */
  lemma OnlyDecisionsDecide(b: Book, step: Step, id: nat)
    requires BookOk(b) && id < |b.requests|
    ensures var r, d := b.requests[id], Next(b, step).requests[id];
            (r.state == Pending && d.state in {Approved, Rejected}) || (r.state == Pending && d.state == Consumed) ==>
              && step.Decide? && step.id == id && step.actor != r.requester && d.decidedBy == step.actor
              && d.decidedAt == b.now < r.createdAt + r.ttl && d.state == (if step.approve then Approved else Rejected)
  {
    assert Lived(b.requests[id], b.now);
  }

  /** Whatever is approved or spent was approved by a step of the run, and whatever is
      rejected was rejected by one. */
  lemma {:induction false} EveryAnswerWasGiven(run: seq<Step>, id: nat) returns (k: nat)
    requires id < |After(START, run).requests| && After(START, run).requests[id].state in {Approved, Consumed, Rejected}
    ensures var r := After(START, run).requests[id]; DecidedBy(run, k, r, id, !r.state.Rejected?)
    decreases |run|
  {
    var n := |run| - 1;
    var before := After(START, run[..n]);
    EveryBookIsOk(run[..n]);
    if id >= |before.requests| {
      RaisesWhatWasAsked(before, run[n]);
      assert false;
    } else if before.requests[id].state == Pending {
      StepMoves(before, run[n], id);
      OnlyDecisionsDecide(before, run[n], id);
      k := n;
    } else {
      StepMoves(before, run[n], id);
      AnswerStays(before, run[n], id);
      k := EveryAnswerWasGiven(run[..n], id);
      assert run[..n][..k] == run[..k];
    }
  }

  lemma AnswerStays(b: Book, step: Step, id: nat)
    requires id < |b.requests| && b.requests[id].state != Pending
    ensures var r, d := b.requests[id], Next(b, step).requests[id];
            && d.decidedBy == r.decidedBy && d.decidedAt == r.decidedAt
            && (d.state in {Approved, Consumed} ==> r.state in {Approved, Consumed})
            && (d.state == Rejected ==> r.state == Rejected)
  {
  }

  // --- spending ---------------------------------------------------------------------------

  /** Whether the step spends request id. */
  predicate Spends(b: Book, step: Step, id: nat) {
    step.Claim? && step.id == id && id < |b.requests| && MayClaim(b.requests[id], step.actor, b.now)
  }

  function TimesSpent(run: seq<Step>, id: nat): nat
    decreases |run|
  {
    if run == [] then 0
    else TimesSpent(run[..|run| - 1], id) + if Spends(After(START, run[..|run| - 1]), run[|run| - 1], id) then 1 else 0
  }

  predicate IsConsumed(b: Book, id: nat) {
    id < |b.requests| && b.requests[id].state.Consumed?
  }

  lemma SpendingConsumes(b: Book, step: Step, id: nat)
    ensures IsConsumed(Next(b, step), id) <==> IsConsumed(b, id) || Spends(b, step, id)
    ensures IsConsumed(b, id) ==> !Spends(b, step, id)
  {
    if id < |b.requests| {
      StepMoves(b, step, id);
    }
  }

  /** An approval is spent at most once, and exactly the consumed requests were. */
  lemma {:induction false} SpentAtMostOnce(run: seq<Step>, id: nat)
    ensures TimesSpent(run, id) <= 1
    ensures TimesSpent(run, id) == 1 <==> IsConsumed(After(START, run), id)
    decreases |run|
  {
    if run != [] {
      SpentAtMostOnce(run[..|run| - 1], id);
      SpendingConsumes(After(START, run[..|run| - 1]), run[|run| - 1], id);
    }
  }

  /** What a claim that succeeds returns is what was sealed when the request was
      raised; it was approved in time by somebody else, is spent by its asker within
      its own window, and its tool has not changed what it does. */
  lemma ClaimRunsWhatWasApproved(run: seq<Step>, step: Step, id: nat, raised: nat)
    requires var b := After(START, run); step.Claim? && Spends(b, step, id)
    requires raised <= |run| && id < |After(START, run[..raised]).requests|
    ensures var b := After(START, run); var r := b.requests[id]; var c := Next(b, step).requests[id];
            && r.args == After(START, run[..raised]).requests[id].args == c.args
            && step.actor == r.requester && Answered(r) && r.decidedAt <= b.now < r.decidedAt + r.ttl
            && c.state.Consumed? && c.consumedAt == b.now && c.decidedBy == r.decidedBy
            && (r.behaviour.Some? ==> r.tool in b.tools && b.tools[r.tool] == r.behaviour.value)
  {
    EveryBookIsOk(run);
    RunInTwo(START, run, raised);
    QuestionNeverChanges(After(START, run[..raised]), run[raised..], id);
  }

  lemma {:induction false} RunThenMore(b: Book, run: seq<Step>, more: seq<Step>)
    ensures After(b, run + more) == After(After(b, run), more)
    decreases |more|
  {
    if more == [] {
      assert run + more == run;
    } else {
      var n := |more| - 1;
      RunThenMore(b, run, more[..n]);
      FrontAndLast(run, more);
      LastStep(b, run + more);
      LastStep(After(b, run), more);
    }
  }

  lemma FrontAndLast(run: seq<Step>, more: seq<Step>)
    requires more != []
    ensures (run + more)[..|run + more| - 1] == run + more[..|more| - 1]
    ensures (run + more)[|run + more| - 1] == more[|more| - 1]
  {
  }

  lemma RunInTwo(b: Book, run: seq<Step>, k: nat)
    requires k <= |run|
    ensures After(b, run) == After(After(b, run[..k]), run[k..])
  {
    assert run[..k] + run[k..] == run;
    RunThenMore(b, run[..k], run[k..]);
  }

  lemma LastStep(b: Book, run: seq<Step>)
    requires run != []
    ensures After(b, run) == Next(After(b, run[..|run| - 1]), run[|run| - 1])
  {
  }

  /** What is spent was asked for by the one who spends it, word for word, in one step of the
      run, and approved by somebody else in a later one. */
  lemma WhatIsSpentWasAskedAndApproved(run: seq<Step>, id: nat, actor: string) returns (asked: nat, approved: nat)
    requires Spends(After(START, run), Claim(id, actor), id)
    ensures var r := After(START, run).requests[id];
            && RaisedBy(run, asked, r, id) && run[asked].actor == actor && run[asked].args == r.args
            && DecidedBy(run, approved, r, id, true) && run[approved].actor != actor && asked < approved
  {
    asked := EveryRequestWasRaised(run, id);
    approved := EveryAnswerWasGiven(run, id);
    RaisedFirst(run, asked, approved, id);
  }

  /** A request is not decided before there is one. */
  lemma RaisedFirst(run: seq<Step>, asked: nat, decided: nat, id: nat)
    requires asked < |run| && decided < |run| && |After(START, run[..asked]).requests| == id && run[asked].Raise?
    requires TakesEffect(After(START, run[..decided]), run[decided], id)
    ensures asked < decided
  {
    if decided < asked {
      RunInTwo(START, run[..asked], decided);
      assert run[..asked][..decided] == run[..decided];
      QuestionNeverChanges(After(START, run[..decided]), run[..asked][decided..], id);
    }
  }

  /** Once refused, never spent. */
  lemma WhatIsRefusedIsNeverSpent(b: Book, id: nat, decider: string, reason: string, run: seq<Step>, actor: string)
    requires id < |b.requests| && b.requests[id].state == Pending && b.requests[id].expiresAt > b.now
    requires decider != "" && decider != b.requests[id].requester && reason != ""
    ensures !Spends(After(Next(b, Decide(id, decider, false, reason)), run), Claim(id, actor), id)
  {
    DecidesAsTold(b, id, decider, false, reason);
    ClosedForGood(Next(b, Decide(id, decider, false, reason)), run, id);
  }

  /** And there is only one decision of a request in any run. */
  lemma DecidedAtMostOnce(run: seq<Step>, id: nat, k: nat, m: nat)
    requires k < m < |run| && TakesEffect(After(START, run[..k]), run[k], id)
    ensures !TakesEffect(After(START, run[..m]), run[m], id)
  {
    var c := After(START, run[..k + 1]);
    assert run[..k + 1][..k] == run[..k];
    assert c.requests[id].state in {Approved, Rejected};
    RunInTwo(START, run[..m], k + 1);
    assert run[..m][..k + 1] == run[..k + 1];
    NeverPendingAgain(c, run[..m][k + 1..], id);
  }

  lemma {:induction false} NeverPendingAgain(b: Book, run: seq<Step>, id: nat)
    requires id < |b.requests| && b.requests[id].state != Pending
    ensures id < |After(b, run).requests| && After(b, run).requests[id].state != Pending
    decreases |run|
  {
    if run != [] {
      NeverPendingAgain(b, run[..|run| - 1], id);
      StepMoves(After(b, run[..|run| - 1]), run[|run| - 1], id);
    }
  }

  /** The step changes what the tool does, or removes it. */
  predicate ChangesTool(b: Book, step: Step, tool: string) {
    match step
    case EditTool(t, behaviour) => t == tool && tool in b.tools && b.tools[tool] != behaviour
    case DeleteTool(t) => t == tool
    case _ => false
  }

  /** No approval raised before its tool changed or went is ever spent after. */
  lemma ChangedToolIsNeverRun(b: Book, change: Step, run: seq<Step>, id: nat, actor: string)
    requires id < |b.requests| && ChangesTool(b, change, b.requests[id].tool)
    ensures var c := After(Next(b, change), run);
            id < |c.requests| && !Spends(c, Claim(id, actor), id)
  {
    ClosedForGood(Next(b, change), run, id);
  }

  // --- the queue ----------------------------------------------------------------------------

  lemma {:induction false} WaitingIsBounded(requests: seq<Request>, found: seq<nat>, now: int)
    requires forall k :: 0 <= k < |found| ==> found[k] < |requests|
    ensures CountWaiting(requests, found, now) <= |found|
    ensures CountWaiting(requests, found, now) == |found| <==>
              forall k :: 0 <= k < |found| ==> Waiting(requests[found[k]], now)
    decreases |found|
  {
    if found != [] {
      var n := |found| - 1;
      WaitingIsBounded(requests, found[..n], now);
      assert forall k :: 0 <= k < n ==> found[..n][k] == found[k];
    }
  }

  lemma {:induction false} SameCallFinds(requests: seq<Request>, found: seq<nat>, args: string)
    requires forall k :: 0 <= k < |found| ==> found[k] < |requests|
    ensures SameCall(requests, found, args).None? <==> forall k :: 0 <= k < |found| ==> requests[found[k]].args != args
    ensures var same := SameCall(requests, found, args);
            same.Some? ==> same.value in found && requests[same.value].args == args
  {
    if found != [] {
      SameCallFinds(requests, found[1..], args);
      assert forall k :: 1 <= k < |found| ==> found[k] == found[1..][k - 1];
    }
  }

  /** Newest reads the newest candidates: one it leaves out is older than all it reads,
      of which there are then as many as the limit. */
  lemma {:induction false} NewestReadsTheNewest(requests: seq<Request>, tool: string, actor: string, now: int,
                                                limit: nat, i: nat)
    requires i < |requests| && Candidate(requests[i], tool, actor, now)
    ensures var found := Newest(requests, tool, actor, now, limit);
            i in found || (|found| == limit && forall k :: 0 <= k < |found| ==> i < found[k])
    decreases |requests|
  {
    var n := |requests| - 1;
    if limit > 0 && i < n {
      var taken := Candidate(requests[n], tool, actor, now);
      NewestReadsTheNewest(requests[..n], tool, actor, now, if taken then limit - 1 else limit, i);
    }
  }

  /** A call is turned away exactly when the twenty newest requests of this caller for
      this tool are all still waiting and none of them is this call. A refusal that
      still stands among those twenty lets it through, however many are waiting. */
  lemma TurnedAwayExactlyWhen(b: Book, tool: string, actor: string, args: string)
    ensures var found := Newest(b.requests, tool, actor, b.now, MAX_PENDING);
            RaiseOutcome(b, tool, actor, args).TooMany? <==>
              && |found| == MAX_PENDING
              && forall k :: 0 <= k < |found| ==>
                   Waiting(b.requests[found[k]], b.now) && b.requests[found[k]].args != args
  {
    var found := Newest(b.requests, tool, actor, b.now, MAX_PENDING);
    WaitingIsBounded(b.requests, found, b.now);
    SameCallFinds(b.requests, found, args);
  }

  /** A call raises a new request exactly when none of the newest candidates is this call
      and they are not twenty waiting ones. */
  lemma RaisedExactlyWhen(b: Book, tool: string, actor: string, args: string)
    ensures var found := Newest(b.requests, tool, actor, b.now, MAX_PENDING);
            RaiseOutcome(b, tool, actor, args).New? <==>
              && (forall k :: 0 <= k < |found| ==> b.requests[found[k]].args != args)
              && (|found| < MAX_PENDING || exists k :: 0 <= k < |found| && !Waiting(b.requests[found[k]], b.now))
  {
    TurnedAwayExactlyWhen(b, tool, actor, args);
    SameCallFinds(b.requests, Newest(b.requests, tool, actor, b.now, MAX_PENDING), args);
  }

  /** None of the twenty newest candidates is this call, and one of them is a refusal. */
  ghost predicate SlipsThrough(b: Book, tool: string, actor: string, args: string) {
    var found := Newest(b.requests, tool, actor, b.now, MAX_PENDING);
    && (forall k :: 0 <= k < |found| ==> b.requests[found[k]].args != args)
    && exists k :: 0 <= k < |found| && Refused(b.requests[found[k]], b.now)
  }

  /** Asking again for what is already waiting, or refused, raises a second request
      exactly when it slips through. */
  lemma AskedTwiceExactlyWhen(b: Book, tool: string, actor: string, args: string, id: nat)
    requires id < |b.requests| && Candidate(b.requests[id], tool, actor, b.now) && b.requests[id].args == args
    ensures RaiseOutcome(b, tool, actor, args).New? <==> SlipsThrough(b, tool, actor, args)
  {
    RaisedExactlyWhen(b, tool, actor, args);
    NewestReadsTheNewest(b.requests, tool, actor, b.now, MAX_PENDING, id);
  }
}
